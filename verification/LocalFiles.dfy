/** The streams that read and stage local files, and the connector's write, while other writers and
    readers work on the same directory. */
module LocalFiles {
  import opened Common
  import opened Filenames
  import opened Filesystem
  import opened LocalRaces

  datatype OsError = Denied | Full | Missing | Exists | NoHardLinks | Other

  function WriteError(error: OsError): ErrorCode {
    match error
    case Full => DestinationFull
    case Denied => DestinationNotWritable
    case _ => DestinationWriteFailed
  }

  /** What an error code says of the call that failed. */
  predicate Says(code: ErrorCode, error: OsError) {
    && code in {DestinationFull, DestinationNotWritable, DestinationWriteFailed}
    && (code == DestinationFull <==> error.Full?) && (code == DestinationNotWritable <==> error.Denied?)
  }

  /** The system calls on one directory. Before each, other writers and readers may take any steps; then
      it is atomic. Each may fail with an error and then changes nothing; a write may move fewer bytes
      than asked, but at least one. */
  class Disk {
    const alone: bool      // no one else works on the directory
    var fs: Fs
    var world: World       // the directory, and what every writer has done up to the last step noted
    ghost const start: World
    ghost var history: seq<Step>    // the steps of everyone
    ghost var failures: nat         // the calls that failed, but for unlinks
    ghost var failure: OsError      // the error of the last of them
    ghost var unremoved: seq<Name>  // the names whose unlink failed

    constructor (fs: Fs, alone: bool)
      requires fs.Valid()
      ensures Valid() && this.fs == fs && this.alone == alone && start.fs == fs && history == []
    {
      this.fs, this.alone, failures, failure, unremoved := fs, alone, 0, Other, [];
      world, start, history := World(fs, map[], map[]), World(fs, map[], map[]), [];
    }

    ghost predicate Follows()
      reads this`world, this`history
    {
      Initial(start) && world == Run(start, history)
    }

    /** The directory is what everyone's steps have made it. */
    ghost predicate Valid()
      reads this`fs, this`world, this`history
    {
      Follows() && fs == world.fs
    }

    /** Others have moved, and spared the writer `id`; its call comes next. */
    ghost predicate Moved(before: World, past: seq<Step>, id: Id)
      reads this`world, this`history
    {
      && Follows() && past <= history && Spared(before, world, id)
      && (alone ==> world == before && history == past)
    }

    /** Anyone but the writer `id` takes any steps. */
    method Others(id: Id)
      requires Valid()
      modifies this`fs, this`world, this`history
      ensures Moved(old(world), old(history), id) && fs == world.fs
    {
      hide After, Initial, Spared;
      SparedIsReflexive(world, id);
      if alone {
        return;
      }
      var count: nat := *;
      while count > 0
        invariant Moved(old(world), old(history), id) && fs == world.fs
      {
        var step: Step := *;
        if !IsOwn(step, id) {
          OthersSpare(world, step, id);
          SparedIsTransitive(old(world), world, After(world, step), id);
          Note(step);
          fs := world.fs;
        }
        count := count - 1;
      }
    }

    /** Note that a step was taken. */
    method Note(step: Step)
      requires Follows()
      modifies this`world, this`history
      ensures Follows() && world == After(old(world), step) && history == old(history) + [step]
    {
      hide After, Initial;
      assert (history + [step])[..|history|] == history;
      history := history + [step];
      world := After(world, step);
    }

    method Inspect(name: Name, id: Id) returns (r: Result<bool, OsError>)
      requires Valid()
      modifies this
      ensures Moved(old(world), old(history), id) && fs == world.fs && unremoved == old(unremoved)
      ensures r.Ok? ==> r.value == (name in fs.dir) && failures == old(failures)
      ensures r.Err? ==> failures > old(failures) && failure == r.error
    {
      hide Moved, Valid;
      Others(id);
      var error: OsError := *;
      var fails: bool := *;
      if fails {
        failures, failure := failures + 1, error;
        return Err(error);
      }
      r := Ok(name in fs.dir);
    }

    method OpenExclusive(name: Name, id: Id) returns (r: Result<Inode, OsError>)
      requires Valid()
      modifies this
      ensures Moved(old(world), old(history), id) && unremoved == old(unremoved)
      ensures r.Ok? ==>
                && name !in world.fs.dir && r.value == world.fs.next && fs == Created(world.fs, name)
                && failures == old(failures)
      ensures r.Err? ==>
                && fs == world.fs
                && (if failures > old(failures) then failure == r.error else name in fs.dir && r.error == Exists)
    {
      hide Moved, Valid;
      Others(id);
      var error: OsError := *;
      var fails: bool := *;
      if fails {
        failures, failure := failures + 1, error;
        return Err(error);
      } else if name in fs.dir {
        return Err(Exists);
      }
      fs := Created(fs, name);
      r := Ok(fs.next - 1);
    }

    method WriteSome(inode: Inode, data: Bytes, id: Id) returns (r: Result<nat, OsError>)
      requires Valid() && inode in fs.heap && data != []
      modifies this
      ensures Moved(old(world), old(history), id) && unremoved == old(unremoved)
      ensures inode in world.fs.heap
      ensures r.Ok? ==>
                && 0 < r.value <= |data| && fs == Appended(world.fs, inode, data[..r.value])
                && failures == old(failures)
      ensures r.Err? ==> fs == world.fs && failures > old(failures) && failure == r.error
    {
      Others(id);
      var error: OsError := *;
      var count: int := *;
      if count <= 0 {
        failures, failure := failures + 1, error;
        return Err(error);
      }
      var moved := Min(count, |data|);
      fs := Appended(fs, inode, data[..moved]);
      r := Ok(moved);
    }

    /** The size of an open file, once it is on disk. */
    method SyncedSize(inode: Inode, id: Id) returns (r: Result<nat, OsError>)
      requires Valid() && inode in fs.heap
      modifies this
      ensures Moved(old(world), old(history), id) && fs == world.fs && unremoved == old(unremoved)
      ensures inode in fs.heap
      ensures r.Ok? ==> r.value == |fs.heap[inode]| && failures == old(failures)
      ensures r.Err? ==> failures > old(failures) && failure == r.error
    {
      Others(id);
      var error: OsError := *;
      var fails: bool := *;
      if fails {
        failures, failure := failures + 1, error;
        return Err(error);
      }
      r := Ok(|fs.heap[inode]|);
    }

    method Close(id: Id) returns (r: Result<(), OsError>)
      requires Valid()
      modifies this
      ensures Moved(old(world), old(history), id) && fs == world.fs && unremoved == old(unremoved)
      ensures r.Ok? ==> failures == old(failures)
      ensures r.Err? ==> failures > old(failures) && failure == r.error
    {
      hide Moved, Valid;
      Others(id);
      var error: OsError := *;
      var fails: bool := *;
      if fails {
        failures, failure := failures + 1, error;
        return Err(error);
      }
      r := Ok(());
    }

    method Link(from: Name, to: Name, id: Id) returns (r: Result<(), OsError>)
      requires Valid()
      modifies this
      ensures Moved(old(world), old(history), id) && unremoved == old(unremoved)
      ensures r.Ok? ==>
                && from in world.fs.dir && to !in world.fs.dir && fs == Linked(world.fs, from, to)
                && failures == old(failures)
      ensures r.Err? ==>
                && fs == world.fs
                && (if failures > old(failures) then failure == r.error
                    else from !in fs.dir || (r.error == Exists && to in fs.dir))
    {
      hide Moved, Valid;
      Others(id);
      var error: OsError := *;
      var fails: bool := *;
      if fails {
        failures, failure := failures + 1, error;
        return Err(error);
      } else if from !in fs.dir {
        return Err(Missing);
      } else if to in fs.dir {
        return Err(Exists);
      }
      fs := Linked(fs, from, to);
      r := Ok(());
    }

    method Replace(from: Name, to: Name, id: Id) returns (r: Result<(), OsError>)
      requires Valid()
      modifies this
      ensures Moved(old(world), old(history), id) && unremoved == old(unremoved)
      ensures r.Ok? ==> from in world.fs.dir && fs == Replaced(world.fs, from, to) && failures == old(failures)
      ensures r.Err? ==>
                fs == world.fs && if failures > old(failures) then failure == r.error else from !in fs.dir
    {
      hide Moved, Valid;
      Others(id);
      var error: OsError := *;
      var fails: bool := *;
      if fails {
        failures, failure := failures + 1, error;
        return Err(error);
      } else if from !in fs.dir {
        return Err(Missing);
      }
      fs := Replaced(fs, from, to);
      r := Ok(());
    }

    method Unlink(name: Name, id: Id) returns (r: Result<(), OsError>)
      requires Valid()
      modifies this
      ensures Moved(old(world), old(history), id) && failures == old(failures) && failure == old(failure)
      ensures r.Ok? ==> fs == Unlinked(world.fs, name) && unremoved == old(unremoved)
      ensures r.Err? ==> fs == world.fs && unremoved == old(unremoved) + [name]
    {
      hide Moved, Valid;
      Others(id);
      var error: OsError := *;
      var fails: bool := *;
      if fails {
        unremoved := unremoved + [name];
        return Err(error);
      }
      fs := Unlinked(fs, name);
      r := Ok(());
    }
  }

  lemma SparedIsReflexive(world: World, id: Id)
    ensures Spared(world, world, id)
  {
  }

  lemma SparedIsTransitive(first: World, second: World, third: World, id: Id)
    requires Spared(first, second, id) && Spared(second, third, id)
    ensures Spared(first, third, id)
  {
    hide IsValid;
  }

  // ---------------------------------------------------------------- reading

  /** A source that yields the `size` bytes its file had when it was opened, however the file grows. */
  class FileSource {
    const disk: Disk
    const inode: Inode
    var remaining: nat
    ghost const content: Bytes  // the first `size` bytes when it was opened
    var position: nat           // the descriptor's offset
    ghost var broken: bool      // a read has failed
    ghost var cut: bool         // a read has found the file shorter than what was still to be read

    constructor (disk: Disk, inode: Inode, size: nat)
      requires disk.fs.Valid() && inode in disk.fs.heap && size <= |disk.fs.heap[inode]|
      ensures Valid() && position == 0 && content == disk.fs.heap[inode][..size] && !broken && !cut
      ensures this.disk == disk && this.inode == inode
    {
      this.disk, this.inode, remaining, broken, cut := disk, inode, size, false, false;
      content, position := disk.fs.heap[inode][..size], 0;
    }

    /** The file may have grown or shrunk, but the bytes it still has of `content` are the same. */
    ghost predicate Valid()
      reads this, disk
    {
      && disk.fs.Valid() && inode in disk.fs.heap
      && position + remaining == |content|
      && (forall j :: 0 <= j < |content| && j < |disk.fs.heap[inode]| ==> disk.fs.heap[inode][j] == content[j])
    }

    /** The file is shorter than what is still to be read. */
    ghost predicate IsCut()
      reads this, disk
    {
      inode in disk.fs.heap && |disk.fs.heap[inode]| <= position < |content|
    }

    /** The system call, which may move fewer bytes than asked. */
    method ReadSome(size: nat) returns (r: Result<Bytes, OsError>)
      requires inode in disk.fs.heap && size > 0
      modifies this`broken
      ensures r.Ok? ==> broken == old(broken) && |r.value| <= size
      ensures r.Ok? && r.value != [] ==>
                && position + |r.value| <= |disk.fs.heap[inode]|
                && r.value == disk.fs.heap[inode][position..position + |r.value|]
      ensures r == Ok([]) ==> |disk.fs.heap[inode]| <= position
      ensures r.Err? ==> broken
    {
      var error: OsError := *;
      var count: int := *;
      if count <= 0 {
        broken := true;
        return Err(error);
      }
      var bytes := disk.fs.heap[inode];
      if |bytes| <= position {
        return Ok([]);
      }
      var moved := Min(Min(count, size), |bytes| - position);
      r := Ok(bytes[position..position + moved]);
    }

    method ReadBytes(size: nat) returns (r: Result<Bytes, ErrorCode>)
      requires Valid() && size > 0
      modifies this`remaining, this`position, this`broken, this`cut
      ensures Valid()
      ensures r.Ok? ==>
                && position == old(position) + |r.value| <= |content| && |r.value| <= size
                && r.value == content[old(position)..position] && broken == old(broken)
                && (r.value == [] <==> old(position) == |content|)
      ensures r.Err? ==> position == old(position)
      ensures r.Err? ==> if r.error == SourceChanged then cut && IsCut() else broken
      ensures old(IsCut()) ==> r.Err?
    {
      if remaining == 0 {
        return Ok([]);
      }
      var data := ReadSome(Min(size, remaining));
      match data {
        case Err(_) => r := Err(SourceReadFailed);
        case Ok(bytes) =>
          if bytes == [] {
            cut := true;
            return Err(SourceChanged);
          }
          remaining := remaining - |bytes|;
          position := position + |bytes|;
          r := Ok(bytes);
      }
    }
  }

  // ---------------------------------------------------------------- staging

  /** Every name but the stage, and every file but the staged one, is as it was. */
  ghost predicate OnlyStaged(now: Fs, origin: Fs, stage: Name, inode: Inode) {
    && (forall name :: name != stage ==>
          (name in now.dir <==> name in origin.dir) && (name in now.dir ==> now.dir[name] == origin.dir[name]))
    && (forall i :: i in origin.heap && i != inode ==> i in now.heap && now.heap[i] == origin.heap[i])
  }

  class FileSink {
    const disk: Disk
    const id: Id
    const inode: Inode
    var descriptor: Option<Inode>
    var bytesWritten: nat
    ghost const destination: Name
    ghost const overwrite: bool
    ghost const origin: Fs    // the directory when the stage was created
    ghost var written: Bytes  // every byte the system has taken

    constructor (disk: Disk, id: Id, inode: Inode, ghost destination: Name, ghost overwrite: bool, ghost origin: Fs)
      requires origin.Valid() && StageName(id) !in origin.dir && inode == origin.next
      requires disk.Valid() && disk.fs == Created(origin, StageName(id))
      requires id in disk.world.writers
      requires disk.world.writers[id] == Writer(destination, overwrite, Stage.Writing, true, inode, [], false)
      ensures Writing() && written == []
      ensures this.disk == disk && this.id == id && this.inode == inode && this.origin == origin
      ensures this.destination == destination && this.overwrite == overwrite
    {
      this.disk, this.id, this.inode := disk, id, inode;
      this.destination, this.overwrite, this.origin := destination, overwrite, origin;
      descriptor, bytesWritten, written := Some(inode), 0, [];
      new;
      hide Run;
      StageHolds(disk.start, disk.history, id);
    }

    /** Where this writer is. */
    ghost predicate IsAt(at: Stage, published: bool)
      reads this`written, disk
    {
      && disk.Valid() && id in disk.world.writers
      && disk.world.writers[id] == Writer(destination, overwrite, at, true, inode, written, published)
    }

    /** The stage was a new name and a new file. */
    ghost predicate Began() {
      origin.Valid() && StageName(id) !in origin.dir && inode == origin.next
    }

    /** Nothing is published, whatever has failed; and without others, nothing but the stage was touched. */
    ghost predicate Contained()
      reads disk
    {
      && disk.Valid() && disk.fs.Valid() && id in disk.world.writers && !disk.world.writers[id].published
      && Began() && inode in disk.fs.heap
      && (disk.alone ==> OnlyStaged(disk.fs, origin, StageName(id), inode))
    }

    /** The stage holds exactly what was written, and no other name leads to it. */
    ghost predicate Staged()
      reads this, disk
    {
      && Contained() && (IsAt(Stage.Writing, false) || IsAt(Stage.Finished, false))
      && (descriptor.Some? ==> descriptor.value == inode && IsAt(Stage.Writing, false))
      && StageName(id) in disk.fs.dir && disk.fs.dir[StageName(id)] == inode
      && disk.fs.OnlyAt(inode, StageName(id))
      && disk.fs.heap[inode] == written && bytesWritten == |written|
    }

    ghost predicate Writing()
      reads this, disk
    {
      Staged() && descriptor.Some?
    }

    /** What everyone's steps have left of a stage. */
    lemma StageIsThere()
      requires IsAt(Stage.Writing, false) || IsAt(Stage.Finished, false)
      ensures disk.fs.Valid() && StageName(id) in disk.fs.dir && disk.fs.dir[StageName(id)] == inode
      ensures disk.fs.OnlyAt(inode, StageName(id)) && inode in disk.fs.heap && disk.fs.heap[inode] == written
    {
      hide Run, Initial, StageName;
      StageHolds(disk.start, disk.history, id);
    }

    /** One write: the system takes some of the bytes. */
    method WriteOnce(data: Bytes) returns (r: Result<nat, OsError>)
      requires Writing() && data != []
      modifies this`bytesWritten, this`written, disk
      ensures Writing() && old(disk.history) <= disk.history && disk.unremoved == old(disk.unremoved)
      ensures r.Ok? ==>
                && 0 < r.value <= |data| && written == old(written) + data[..r.value]
                && disk.failures == old(disk.failures)
      ensures r.Err? ==>
                written == old(written) && disk.failures > old(disk.failures) && disk.failure == r.error
    {
      hide Run, After, StageName, IsValid, Initial, OnlyStaged, Appended, Fs.Valid, Fs.OnlyAt;
      r := disk.WriteSome(descriptor.value, data, id);
      if r.Ok? {
        ghost var taken := data[..r.value];
        WritingEffect(disk.world, id, taken);
        OnlyAppended(disk.world.fs, origin, StageName(id), inode, taken);
        disk.Note(Step.WriteSome(id, data[..r.value]));
        written := written + taken;
        bytesWritten := bytesWritten + r.value;
      }
      StageIsThere();
    }

    /** Pass every byte on, however few the system takes at a time. */
    method WriteBytes(data: Bytes) returns (r: Result<(), ErrorCode>)
      requires Writing()
      modifies this`bytesWritten, this`written, disk
      ensures Writing() && old(written) <= written <= old(written) + data
      ensures r.Ok? ==> written == old(written) + data && disk.failures == old(disk.failures)
      ensures r.Err? ==> disk.failures > old(disk.failures) && Says(r.error, disk.failure)
      ensures old(disk.history) <= disk.history && disk.unremoved == old(disk.unremoved)
    {
      hide Staged;
      var start := 0;
      while start < |data|
        invariant start <= |data| && Writing()
        invariant written == old(written) + data[..start]
        invariant disk.failures == old(disk.failures) && disk.unremoved == old(disk.unremoved)
        invariant old(disk.history) <= disk.history
      {
        var count := WriteOnce(data[start..]);
        if count.Err? {
          return Err(WriteError(count.error));
        }
        assert data[..start] + data[start..][..count.value] == data[..start + count.value];
        start := start + count.value;
      }
      assert data[..start] == data;
      r := Ok(());
    }

    /** The writer has no descriptor left, and its stage still holds what was written; without a descriptor
        there is nothing to do. Only a call that fails makes this fail: the size is always right. */
    method Finish() returns (r: Result<(), ErrorCode>)
      requires Staged()
      modifies this`descriptor, disk
      ensures Staged() && descriptor == None
      ensures old(descriptor).None? ==>
                && r.Ok? && disk.fs == old(disk.fs) && disk.world == old(disk.world)
                && disk.history == old(disk.history) && disk.failures == old(disk.failures)
      ensures r.Ok? && (old(descriptor).Some? || old(IsFinished())) ==> IsFinished()
      ensures if r.Ok? then disk.failures == old(disk.failures)
              else disk.failures > old(disk.failures) && Says(r.error, disk.failure)
      ensures old(disk.history) <= disk.history && disk.unremoved == old(disk.unremoved)
    {
      hide Staged;
      if descriptor.None? {
        return Ok(());
      }
      DropDescriptor();
      r := Persist(bytesWritten);
      if r.Err? {
        return;
      }
      r := CloseStage();
    }

    ghost predicate IsFinished()
      reads this, disk
    {
      Staged() && descriptor.None? && IsAt(Stage.Finished, false)
    }

    method DropDescriptor()
      requires Writing()
      modifies this`descriptor
      ensures Staged() && descriptor == None && IsAt(Stage.Writing, false)
    {
      descriptor := None;
    }

    method Persist(expected: nat) returns (r: Result<(), ErrorCode>)
      requires Staged() && descriptor.None? && IsAt(Stage.Writing, false) && expected == bytesWritten
      modifies disk
      ensures Staged() && (r.Ok? ==> IsFinished())
      ensures if r.Ok? then disk.failures == old(disk.failures)
              else disk.failures > old(disk.failures) && Says(r.error, disk.failure)
      ensures old(disk.history) <= disk.history && disk.unremoved == old(disk.unremoved)
    {
      hide Run, StageName, IsValid, Initial, OnlyStaged, Appended, Fs.Valid, Fs.OnlyAt;
      var size := disk.SyncedSize(inode, id);
      StageIsThere();
      if size.Err? {
        return Err(WriteError(size.error));
      }
      if size.value != expected {
        return Err(DestinationWriteFailed);
      }
      disk.Note(Step.Finish(id));
      r := Ok(());
    }

    method CloseStage() returns (r: Result<(), ErrorCode>)
      requires IsFinished()
      modifies disk
      ensures IsFinished()
      ensures if r.Ok? then disk.failures == old(disk.failures)
              else disk.failures > old(disk.failures) && Says(r.error, disk.failure)
      ensures old(disk.history) <= disk.history && disk.unremoved == old(disk.unremoved)
    {
      hide Run, After, StageName, IsValid, Initial, OnlyStaged, Appended, Fs.Valid, Fs.OnlyAt;
      var closed := disk.Close(id);
      StageIsThere();
      r := if closed.Ok? then Ok(()) else Err(WriteError(closed.error));
    }

    /** Close an unfinished stage. */
    method Release()
      modifies this`descriptor
      ensures descriptor == None && (old(Staged()) ==> Staged())
    {
      descriptor := None;
    }
  }

  lemma OnlyAppended(fs: Fs, origin: Fs, stage: Name, inode: Inode, data: Bytes)
    requires inode in fs.heap
    ensures OnlyStaged(fs, origin, stage, inode) ==> OnlyStaged(Appended(fs, inode, data), origin, stage, inode)
  {
  }

  // ---------------------------------------------------------------- the connector's write

  /** The writer stopped without a stage. */
  ghost predicate Refused(world: World, id: Id) {
    id in world.writers && world.writers[id].at == Over && !world.writers[id].created && !world.writers[id].published
  }

  /** The writer has checked its destination, and not begun its stage. */
  ghost predicate Admitted(world: World, id: Id, destination: Name, overwrite: bool) {
    id in world.writers && world.writers[id] == Writer(destination, overwrite, Checked, false, 0, [], false)
  }

  /** Refuse a destination that may not be replaced. */
  method Admit(disk: Disk, destination: Name, id: Id, overwrite: bool, regular: Name -> bool)
    returns (r: Result<(), ErrorCode>)
    requires disk.Valid() && IsValid(destination) && id !in disk.world.writers
    modifies disk
    ensures disk.Valid() && old(disk.history) <= disk.history && disk.unremoved == old(disk.unremoved)
    ensures disk.alone ==> disk.fs == old(disk.fs)
    ensures r.Ok? ==>
              && Admitted(disk.world, id, destination, overwrite) && disk.failures == old(disk.failures)
              && (destination in old(disk.fs).dir ==> overwrite && regular(destination))
    ensures r.Err? ==>
              && Refused(disk.world, id)
              && if disk.failures > old(disk.failures) then Says(r.error, disk.failure)
                 else r.error == DestinationExists && destination in disk.fs.dir && !(overwrite && regular(destination))
  {
    hide Run, StageName, IsValid, Initial;
    disk.Note(Join(id, destination, overwrite));
    var existing := disk.Inspect(destination, id);
    if existing.Err? {
      disk.Note(Step.Fail(id));
      return Err(WriteError(existing.error));
    }
    if existing.value && !(overwrite && regular(destination)) {
      disk.Note(Step.Fail(id));
      return Err(DestinationExists);
    }
    disk.Note(Check(id));
    r := Ok(());
  }

  /** Begin a write: refuse a destination that may not be replaced, and create the stage. */
  method Begin(disk: Disk, destination: Name, id: Id, overwrite: bool, regular: Name -> bool)
    returns (r: Result<FileSink, ErrorCode>)
    requires disk.Valid() && IsValid(destination) && id !in disk.world.writers
    modifies disk
    ensures disk.Valid() && old(disk.history) <= disk.history && disk.unremoved == old(disk.unremoved)
    ensures r.Ok? ==>
              && fresh(r.value) && r.value.disk == disk && r.value.id == id
              && r.value.Writing() && r.value.written == []
              && r.value.destination == destination && r.value.overwrite == overwrite
              && (disk.alone ==> r.value.origin == old(disk.fs))
              && (destination in old(disk.fs).dir ==> overwrite && regular(destination))
              && disk.failures == old(disk.failures)
    ensures r.Err? ==>
              && Refused(disk.world, id) && (disk.alone ==> disk.fs == old(disk.fs))
              && if disk.failures > old(disk.failures)
                 then Says(r.error, disk.failure) || (r.error == ConnectionRootUnavailable && disk.failure.Missing?)
                 else
                   || (StageName(id) in disk.fs.dir && r.error == DestinationWriteFailed)
                   || (r.error == DestinationExists && destination in disk.fs.dir
                       && !(overwrite && regular(destination)))
  {
    hide Run, StageName, IsValid, Initial, OnlyStaged, Appended, Fs.Valid, Fs.OnlyAt, FileSink.Staged, Admitted;
    var existing := Admit(disk, destination, id, overwrite, regular);
    if existing.Err? {
      return Err(existing.error);
    }
    r := CreateStage(disk, destination, id, overwrite);
  }

  /** Create the stage of a writer that has checked its destination. */
  method CreateStage(disk: Disk, ghost destination: Name, id: Id, ghost overwrite: bool)
    returns (r: Result<FileSink, ErrorCode>)
    requires disk.Valid() && Admitted(disk.world, id, destination, overwrite)
    modifies disk
    ensures disk.Valid() && old(disk.history) <= disk.history && disk.unremoved == old(disk.unremoved)
    ensures r.Ok? ==>
              && fresh(r.value) && r.value.disk == disk && r.value.id == id
              && r.value.Writing() && r.value.written == []
              && r.value.destination == destination && r.value.overwrite == overwrite
              && (disk.alone ==> r.value.origin == old(disk.fs))
              && disk.failures == old(disk.failures)
    ensures r.Err? ==>
              && Refused(disk.world, id) && (disk.alone ==> disk.fs == old(disk.fs))
              && if disk.failures > old(disk.failures)
                 then
                   if disk.failure.Missing? then r.error == ConnectionRootUnavailable
                   else Says(r.error, disk.failure)
                 else StageName(id) in disk.fs.dir && r.error == DestinationWriteFailed
  {
    hide Run, StageName, IsValid, Initial, OnlyStaged, Appended, Fs.Valid, Fs.OnlyAt, FileSink.Staged;
    var descriptor := disk.OpenExclusive(StageName(id), id);
    match descriptor {
      case Err(error) =>
        disk.Note(Step.Fail(id));
        r := Err(if error == Missing then ConnectionRootUnavailable else WriteError(error));
      case Ok(inode) =>
        ghost var origin := disk.world.fs;
        StageHolds(disk.start, disk.history, id);
        disk.Note(Create(id));
        var sink := new FileSink(disk, id, inode, destination, overwrite, origin);
        r := Ok(sink);
    }
  }

  /** The destination is the staged file, under its own inode; every other name is as it was. */
  ghost predicate Published(now: Fs, origin: Fs, stage: Name, destination: Name, inode: Inode, payload: Bytes) {
    && now.Contents(destination) == Some(payload) && destination in now.dir && now.dir[destination] == inode
    && (forall name :: name != stage && name != destination ==>
          (name in now.dir <==> name in origin.dir) && (name in now.dir ==> now.dir[name] == origin.dir[name]))
    && (forall i :: i in origin.heap ==> i in now.heap && now.heap[i] == origin.heap[i])
  }

  /** A stage that nothing else was touched for. */
  ghost predicate Stages(fs: Fs, origin: Fs, stage: Name, inode: Inode) {
    && stage in fs.dir && fs.dir[stage] == inode && inode in fs.heap && fs.OnlyAt(inode, stage)
    && origin.Valid() && inode == origin.next && stage !in origin.dir && OnlyStaged(fs, origin, stage, inode)
  }

  lemma LinkPublishes(fs: Fs, origin: Fs, stage: Name, to: Name, inode: Inode)
    requires Stages(fs, origin, stage, inode) && stage != to
    ensures Published(Linked(fs, stage, to), origin, stage, to, inode, fs.heap[inode])
    ensures to !in fs.dir ==> to !in origin.dir
  {
  }

  lemma ReplacePublishes(fs: Fs, origin: Fs, stage: Name, to: Name, inode: Inode)
    requires Stages(fs, origin, stage, inode) && stage != to
    ensures Published(Replaced(fs, stage, to), origin, stage, to, inode, fs.heap[inode])
  {
  }

  lemma StageIsReady(sink: FileSink, destination: Name)
    requires sink.disk.Follows() && sink.id in sink.disk.world.writers && sink.origin.Valid()
    requires sink.disk.world.writers[sink.id] ==
             Writer(sink.destination, sink.overwrite, Finished, true, sink.inode, sink.written, false)
    requires StageName(sink.id) !in sink.origin.dir && sink.inode == sink.origin.next && destination == sink.destination
    requires sink.disk.alone ==> OnlyStaged(sink.disk.world.fs, sink.origin, StageName(sink.id), sink.inode)
    ensures var fs, stage := sink.disk.world.fs, StageName(sink.id);
            && stage != destination && fs.Valid()
            && sink.inode in fs.heap && fs.heap[sink.inode] == sink.written && stage in fs.dir
            && fs.dir[stage] == sink.inode && fs.OnlyAt(sink.inode, stage)
            && (sink.disk.alone ==>
                  && Stages(fs, sink.origin, stage, sink.inode)
                  && Published(Linked(fs, stage, destination), sink.origin, stage, destination, sink.inode,
                               sink.written)
                  && Published(Replaced(fs, stage, destination), sink.origin, stage, destination, sink.inode,
                               sink.written)
                  && (destination !in fs.dir ==> destination !in sink.origin.dir))
  {
    hide Run, StageName, IsValid, Initial, Fs.Valid, Fs.OnlyAt, Linked, Replaced, OnlyStaged, Published;
    StageHolds(sink.disk.start, sink.disk.history, sink.id);
    StageNames();
    if sink.disk.alone {
      LinkPublishes(sink.disk.world.fs, sink.origin, StageName(sink.id), destination, sink.inode);
      ReplacePublishes(sink.disk.world.fs, sink.origin, StageName(sink.id), destination, sink.inode);
    }
  }

  /** What a publication that failed reports of its call. */
  predicate Explains(code: ErrorCode, error: OsError, overwrite: bool) {
    if error.Exists? then code == DestinationExists
    else if error.NoHardLinks? && !overwrite then code == PublishUnsupported
    else Says(code, error)
  }

  method Publish(sink: FileSink, destination: Name, overwrite: bool) returns (r: Result<(), ErrorCode>)
    requires sink.IsFinished() && destination == sink.destination && overwrite == sink.overwrite
    modifies sink.disk
    ensures old(sink.disk.history) <= sink.disk.history && sink.disk.unremoved == old(sink.disk.unremoved)
    ensures r.Ok? ==>
              && sink.IsAt(Renamed, true) && sink.disk.failures == old(sink.disk.failures)
              && (sink.disk.alone ==>
                    && Published(sink.disk.fs, sink.origin, StageName(sink.id), destination, sink.inode, sink.written)
                    && (!overwrite ==> destination !in sink.origin.dir))
    ensures r.Err? ==>
              && sink.IsFinished()
              && if sink.disk.failures > old(sink.disk.failures) then Explains(r.error, sink.disk.failure, overwrite)
                 else !overwrite && r.error == DestinationExists && destination in sink.disk.fs.dir
  {
    hide Run, StageName, IsValid, Initial, Fs.Valid, Fs.OnlyAt, Linked, Replaced, OnlyStaged, Published;
    var done: Result<(), OsError>;
    if overwrite {
      done := sink.disk.Replace(StageName(sink.id), destination, sink.id);
    } else {
      done := sink.disk.Link(StageName(sink.id), destination, sink.id);
    }
    StageIsReady(sink, destination);
    if done.Ok? {
      sink.disk.Note(Step.Publish(sink.id));
    }
    r := match done
      case Ok(_) => Ok(())
      case Err(Exists) => Err(DestinationExists)
      case Err(error) => if !overwrite && error == NoHardLinks then Err(PublishUnsupported) else Err(WriteError(error));
  }

  /** The publication took place among these steps: onto a free name, unless it may be replaced, in one
      step, which led the name to the stage. */
  ghost predicate PublishedSince(disk: Disk, past: seq<Step>, id: Id)
    reads disk
  {
    exists k: nat :: |past| <= k && PublishedAt(disk.start, disk.history, id, k)
  }

  /** The record of a writer that has published: its file is whole, and its name is taken. */
  ghost predicate Shown(sink: FileSink)
    reads sink, sink.disk
  {
    && sink.IsAt(Over, true)
    && sink.inode in sink.disk.fs.heap && sink.disk.fs.heap[sink.inode] == sink.written
    && sink.destination in sink.disk.fs.dir
  }

  /** Drop the stage's name, which only a failing unlink leaves behind. */
  method Remove(sink: FileSink)
    requires sink.IsAt(Renamed, true) || sink.IsAt(Stage.Failed, false)
    modifies sink.disk
    ensures old(sink.IsAt(Renamed, true)) ==> Shown(sink)
    ensures old(sink.IsAt(Stage.Failed, false)) ==> sink.IsAt(Over, false)
    ensures sink.disk.fs.Valid() && sink.inode in sink.disk.fs.heap
    ensures old(sink.disk.history) <= sink.disk.history && sink.disk.failures == old(sink.disk.failures)
    ensures sink.disk.failure == old(sink.disk.failure)
    ensures if sink.disk.unremoved == old(sink.disk.unremoved) then StageName(sink.id) !in sink.disk.fs.dir
            else sink.disk.unremoved == old(sink.disk.unremoved) + [StageName(sink.id)]
    ensures forall name :: IsValid(name) && name in old(sink.disk.fs).dir ==> name in sink.disk.fs.dir
    ensures sink.disk.alone ==>
              && Stays(old(sink.disk.fs), sink.disk.fs, sink.origin, StageName(sink.id), sink.inode)
              && Remains(old(sink.disk.fs), sink.disk.fs, sink.origin, StageName(sink.id), sink.destination,
                         sink.inode, sink.written)
  {
    StageNames();
    hide Run, StageName, IsValid, Initial, Fs.Valid, Fs.OnlyAt, OnlyStaged, Published;
    StageHolds(sink.disk.start, sink.disk.history, sink.id);
    UnlinkKeeps(sink.disk.fs, sink.origin, StageName(sink.id), sink.destination, sink.inode, sink.written);
    var gone := sink.disk.Unlink(StageName(sink.id), sink.id);
    sink.disk.Note(CleanUp(sink.id, gone.Ok?));
    StageHolds(sink.disk.start, sink.disk.history, sink.id);
  }

  ghost predicate Stays(before: Fs, now: Fs, origin: Fs, stage: Name, inode: Inode) {
    OnlyStaged(before, origin, stage, inode) ==> OnlyStaged(now, origin, stage, inode)
  }

  ghost predicate Remains(
    before: Fs, now: Fs, origin: Fs, stage: Name, destination: Name, inode: Inode, payload: Bytes)
  {
    Published(before, origin, stage, destination, inode, payload) ==>
      Published(now, origin, stage, destination, inode, payload)
  }

  lemma UnlinkKeeps(fs: Fs, origin: Fs, stage: Name, destination: Name, inode: Inode, payload: Bytes)
    requires stage != destination
    ensures Stays(fs, Unlinked(fs, stage), origin, stage, inode)
    ensures Remains(fs, Unlinked(fs, stage), origin, stage, destination, inode, payload)
  {
  }

  /** End a write: on success finish, publish and drop the stage's name; on any failure publish nothing,
      and leave every name but the stage, and every file, alone. A file that was replaced keeps its bytes
      for whoever has it open. */
  method Commit(sink: FileSink, destination: Name, overwrite: bool) returns (r: Result<(), ErrorCode>)
    requires sink.Staged() && (sink.descriptor.None? ==> sink.IsFinished())
    requires destination == sink.destination && overwrite == sink.overwrite
    modifies sink`descriptor, sink.disk
    ensures sink.disk.Valid() && sink.descriptor == None && old(sink.disk.history) <= sink.disk.history
    ensures r.Ok? ==>
              && Shown(sink) && PublishedSince(sink.disk, old(sink.disk.history), sink.id)
              && sink.disk.failures == old(sink.disk.failures)
              && (sink.disk.alone ==>
                    && Published(sink.disk.fs, sink.origin, StageName(sink.id), destination, sink.inode, sink.written)
                    && (!overwrite ==> destination !in sink.origin.dir))
    ensures r.Err? ==>
              && sink.Contained() && sink.IsAt(Over, false)
              && if sink.disk.failures > old(sink.disk.failures)
                 then Says(r.error, sink.disk.failure) || Explains(r.error, sink.disk.failure, overwrite)
                 else !overwrite && r.error == DestinationExists && destination in sink.disk.fs.dir
    ensures if sink.disk.unremoved == old(sink.disk.unremoved) then StageName(sink.id) !in sink.disk.fs.dir
            else sink.disk.unremoved == old(sink.disk.unremoved) + [StageName(sink.id)]
  {
    hide Run, StageName, IsValid, Initial, OnlyStaged, Published, Disk.Valid, PublishedAt;
    hide FileSink.IsAt, FileSink.Contained, Shown, PublishedSince, FileSink.Began;
    ghost var past := sink.disk.history;
    StagedMeans(sink);
    r := sink.Finish();
    if r.Ok? {
      r := Publish(sink, destination, overwrite);
    }
    sink.Release();
    if r.Err? {
      Fails(sink);
    }
    Remove(sink);
    if r.Ok? {
      ShownSince(sink, past);
    } else {
      OverMeans(sink);
    }
  }

  lemma StagedMeans(sink: FileSink)
    requires sink.Staged()
    ensures sink.Began() && !HasPublished(Run(sink.disk.start, sink.disk.history), sink.id)
    ensures IsValid(sink.destination)
    ensures sink.IsAt(Stage.Writing, false) || sink.IsAt(Finished, false)
    ensures sink.disk.alone ==> OnlyStaged(sink.disk.fs, sink.origin, StageName(sink.id), sink.inode)
  {
    hide Run, OnlyStaged, StageName, Initial, Fs.OnlyAt, Fs.Valid, IsValid;
    StageHolds(sink.disk.start, sink.disk.history, sink.id);
  }

  lemma OverMeans(sink: FileSink)
    requires sink.IsAt(Over, false) && sink.disk.fs.Valid() && sink.inode in sink.disk.fs.heap && sink.Began()
    requires sink.disk.alone ==> OnlyStaged(sink.disk.fs, sink.origin, StageName(sink.id), sink.inode)
    ensures sink.Contained() && sink.disk.Valid()
  {
    hide Run, OnlyStaged, StageName, Initial, Fs.OnlyAt, Fs.Valid;
  }

  lemma ShownSince(sink: FileSink, past: seq<Step>)
    requires Shown(sink) && past <= sink.disk.history && !HasPublished(Run(sink.disk.start, past), sink.id)
    ensures PublishedSince(sink.disk, past, sink.id) && sink.disk.Valid()
  {
    hide Run, StageName, Initial, PublishedAt;
    assert sink.disk.history[..|past|] == past;
    PublishesOntoAFreeName(sink.disk.start, sink.disk.history, sink.id, |past|);
  }

  /** The writer gives its stage up. */
  method Fails(sink: FileSink)
    requires sink.Staged()
    modifies sink.disk`world, sink.disk`history
    ensures sink.IsAt(Stage.Failed, false) && sink.Began() && old(sink.disk.history) <= sink.disk.history
    ensures sink.disk.alone ==> OnlyStaged(sink.disk.fs, sink.origin, StageName(sink.id), sink.inode)
  {
    hide Run, OnlyStaged, StageName, Initial, Fs.OnlyAt, Fs.Valid;
    sink.disk.Note(Step.Fail(sink.id));
  }

  /** End a write that its caller failed. */
  method Abandon(sink: FileSink)
    requires sink.Staged()
    modifies sink`descriptor, sink.disk
    ensures sink.Contained() && sink.descriptor == None && sink.IsAt(Over, false)
    ensures old(sink.disk.history) <= sink.disk.history && sink.disk.failures == old(sink.disk.failures)
    ensures forall name :: IsValid(name) && name in old(sink.disk.fs).dir ==> name in sink.disk.fs.dir
    ensures if sink.disk.unremoved == old(sink.disk.unremoved) then StageName(sink.id) !in sink.disk.fs.dir
            else sink.disk.unremoved == old(sink.disk.unremoved) + [StageName(sink.id)]
  {
    hide FileSink.IsAt, FileSink.Contained, FileSink.Began, OnlyStaged, StageName, IsValid;
    sink.Release();
    Fails(sink);
    Remove(sink);
    OverMeans(sink);
  }
}
