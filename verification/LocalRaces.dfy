/** Many local writers and readers of one directory, interleaved step by step, with crashes. */
module LocalRaces {
  import opened Common
  import opened Filenames
  import opened Filesystem

  type Id = Bytes  // a transfer's identifier, which names its stage

  /** How far a writer is: its checks, its stage, its publication, its cleanup; or stopped for good. */
  datatype Stage = Fresh | Checked | Writing | Finished | Renamed | Failed | Over

  datatype Writer = Writer(
    destination: Name, overwrite: bool, at: Stage,
    created: bool, inode: Inode, written: Bytes,  // whether it has created its stage, where, and all it wrote
    published: bool)

  datatype Open = Open(inode: Inode, content: Bytes)

  datatype World = World(fs: Fs, writers: map<Id, Writer>, readers: map<nat, Open>)

  datatype Step =
    | Join(id: Id, destination: Name, overwrite: bool)
    | Check(id: Id)
    | Create(id: Id)
    | WriteSome(id: Id, data: Bytes)
    | Finish(id: Id)
    | Publish(id: Id)
    | Fail(id: Id)
    | CleanUp(id: Id, removed: bool)
    | Crash(id: Id)
    | OpenFile(reader: nat, name: Name)

  function At(world: World, id: Id, at: Stage): World
    requires id in world.writers
  {
    world.(writers := world.writers[id := world.writers[id].(at := at)])
  }

  /** One step; a step that is not enabled changes nothing. */
  function After(world: World, step: Step): World {
    match step
    case Join(id, destination, overwrite) =>
      if id !in world.writers && IsValid(destination) then
        world.(writers := world.writers[id := Writer(destination, overwrite, Fresh, false, 0, [], false)])
      else world
    case OpenFile(reader, name) =>
      if IsValid(name) && name in world.fs.dir && world.fs.dir[name] in world.fs.heap && reader !in world.readers then
        var inode := world.fs.dir[name];
        world.(readers := world.readers[reader := Open(inode, world.fs.heap[inode])])
      else world
    case _ => if step.id in world.writers then WriterAfter(world, step) else world
  }

  function WriterAfter(world: World, step: Step): World
    requires !step.OpenFile? && !step.Join? && step.id in world.writers
  {
    var id := step.id;
    var w := world.writers[id];
    var fs := world.fs;
    var stage := StageName(id);
    match step
    case Check(_) =>
      if w.at != Fresh then world
      else if w.destination in fs.dir && !w.overwrite then At(world, id, Over)
      else At(world, id, Checked)
    case Create(_) =>
      if w.at != Checked then world
      else if stage in fs.dir then At(world, id, Over)
      else
        World(Created(fs, stage),
              world.writers[id := w.(at := Writing, created := true, inode := fs.next, written := [])], world.readers)
    case WriteSome(_, data) =>
      if w.at == Writing && w.inode in fs.heap then
        World(Appended(fs, w.inode, data), world.writers[id := w.(written := w.written + data)], world.readers)
      else world
    case Finish(_) =>
      if w.at == Writing && w.inode in fs.heap && |w.written| == |fs.heap[w.inode]|
      then At(world, id, Finished) else world
    case Publish(_) =>
      if w.at != Finished || stage !in fs.dir then world
      else if w.overwrite then
        World(Replaced(fs, stage, w.destination), world.writers[id := w.(at := Renamed, published := true)],
              world.readers)
      else if w.destination in fs.dir then At(world, id, Failed)
      else
        World(Linked(fs, stage, w.destination), world.writers[id := w.(at := Renamed, published := true)],
              world.readers)
    case Fail(_) =>
      if w.at in {Fresh, Checked} then At(world, id, Over)
      else if w.at in {Writing, Finished} then At(world, id, Failed)
      else world
    case CleanUp(_, removed) =>
      if w.at !in {Renamed, Failed} then world
      else if removed then At(world.(fs := Unlinked(fs, stage)), id, Over)
      else At(world, id, Over)
    case Crash(_) => At(world, id, Over)
  }

  function Run(world: World, steps: seq<Step>): World {
    if steps == [] then world else After(Run(world, steps[..|steps| - 1]), steps[|steps| - 1])
  }

  /** Any directory, before any writer or reader of it. */
  ghost predicate Initial(world: World) {
    world.fs.Valid() && world.writers == map[] && world.readers == map[]
  }

  // ---------------------------------------------------------------- the invariant

  predicate Staging(w: Writer) {
    w.at in {Writing, Finished}
  }

  /** A file that is not published holds all its writer wrote, and has no name but its stage's; that name
      it has for as long as it is being staged. */
  ghost predicate StagePrivate(world: World, id: Id)
    requires id in world.writers
  {
    var w := world.writers[id];
    && (w.at in {Fresh, Checked} ==> !w.created)
    && (Staging(w) ==>
          w.created && !w.published && StageName(id) in world.fs.dir && world.fs.dir[StageName(id)] == w.inode)
    && (w.created && !w.published ==>
          && world.fs.OnlyAt(w.inode, StageName(id))
          && w.inode in world.fs.heap && world.fs.heap[w.inode] == w.written
          && (forall r :: r in world.readers ==> world.readers[r].inode != w.inode))
  }

  /** A published file is complete, and its name is never free again. */
  ghost predicate PublishedWhole(world: World, origin: Fs, id: Id)
    requires id in world.writers
  {
    var w := world.writers[id];
    w.published ==>
      && w.created && w.at in {Renamed, Over}
      && w.inode in world.fs.heap && world.fs.heap[w.inode] == w.written
      && w.destination in world.fs.dir
      && (!w.overwrite ==> w.destination !in origin.dir)
  }

  /** A valid name leads to its original inode or to one a writer published there. */
  ghost predicate Accounted(world: World, origin: Fs, name: Name)
    requires name in world.fs.dir
  {
    || (name in origin.dir && world.fs.dir[name] == origin.dir[name])
    || exists id :: id in world.writers && world.writers[id].published
                    && world.writers[id].destination == name && world.writers[id].inode == world.fs.dir[name]
  }

  ghost predicate WriterHolds(world: World, origin: Fs, id: Id)
    requires id in world.writers
  {
    && IsValid(world.writers[id].destination)
    && StagePrivate(world, id) && PublishedWhole(world, origin, id)
  }

  /** Two writers that may not overwrite do not both publish onto one name, and no two have one file. */
  predicate Compatible(w: Writer, other: Writer) {
    && !(w.published && other.published && !w.overwrite && !other.overwrite && w.destination == other.destination)
    && (w.created && other.created ==> w.inode != other.inode)
  }

  ghost predicate WritersHold(world: World, origin: Fs) {
    && (forall id :: id in world.writers ==> WriterHolds(world, origin, id))
    && (forall id, other :: id in world.writers && other in world.writers && id != other ==>
          Compatible(world.writers[id], world.writers[other]))
  }

  ghost predicate NamesHold(world: World, origin: Fs) {
    && (forall name :: name in world.fs.dir && IsValid(name) ==> Accounted(world, origin, name))
    && (forall name :: name in origin.dir && IsValid(name) ==> name in world.fs.dir)
  }

  ghost predicate FilesHold(world: World, origin: Fs) {
    && world.fs.Valid()
    && (forall i :: i in origin.heap ==> i in world.fs.heap && world.fs.heap[i] == origin.heap[i])
    && (forall id, i :: id in world.writers && world.writers[id].created && i in origin.heap ==>
          world.writers[id].inode != i)
    && (forall r :: r in world.readers ==>
          && world.readers[r].inode in world.fs.heap
          && world.fs.heap[world.readers[r].inode] == world.readers[r].content)
  }

  ghost predicate Inv(world: World, origin: Fs) {
    WritersHold(world, origin) && NamesHold(world, origin) && FilesHold(world, origin)
  }

  /** The writers' publications stay on record. */
  ghost predicate Recorded(world: World, now: World) {
    forall id :: id in world.writers && world.writers[id].published ==>
      && id in now.writers && now.writers[id].published
      && now.writers[id].destination == world.writers[id].destination
      && now.writers[id].inode == world.writers[id].inode
  }

  /** Names stay accounted for when each leads where it led, or to what `winner` publishes there. */
  lemma NamesKeep(world: World, now: World, origin: Fs, winner: Id)
    requires NamesHold(world, origin) && Recorded(world, now)
    requires forall name :: name in now.fs.dir && IsValid(name) ==>
               || (name in world.fs.dir && now.fs.dir[name] == world.fs.dir[name])
               || (winner in now.writers && now.writers[winner].published
                   && now.writers[winner].destination == name && now.writers[winner].inode == now.fs.dir[name])
    requires forall name :: name in world.fs.dir && IsValid(name) ==> name in now.fs.dir
    ensures NamesHold(now, origin)
  {
    hide IsValid;
    forall name | name in now.fs.dir && IsValid(name)
      ensures Accounted(now, origin, name)
    {
      if name in world.fs.dir && now.fs.dir[name] == world.fs.dir[name] {
        assert Accounted(world, origin, name);
        if !(name in origin.dir && world.fs.dir[name] == origin.dir[name]) {
          var id :| id in world.writers && world.writers[id].published
            && world.writers[id].destination == name && world.writers[id].inode == world.fs.dir[name];
          assert id in now.writers;
        }
      }
    }
  }

  lemma StageNames()
    ensures forall id :: !IsValid(StageName(id))
    ensures forall id, other :: StageName(id) == StageName(other) ==> id == other
  {
    forall id
      ensures !IsValid(StageName(id))
    {
      StageIsNeverADestination(id, StageName(id));
    }
    forall id, other | StageName(id) == StageName(other)
      ensures id == other
    {
      StagesAreDistinct(id, other);
    }
  }

  lemma InitialHolds(world: World)
    requires Initial(world)
    ensures Inv(world, world.fs)
  {
    hide IsValid;
  }

  /** The writers still hold when one changes, if it holds and the others still do. */
  lemma WritersKeep(world: World, now: World, origin: Fs, id: Id)
    requires WritersHold(world, origin)
    requires id in world.writers && id in now.writers && now.writers == world.writers[id := now.writers[id]]
    requires WriterHolds(now, origin, id)
    requires forall other :: other in world.writers && other != id ==> WriterHolds(now, origin, other)
    requires forall other :: other in world.writers && other != id ==>
               && Compatible(now.writers[id], world.writers[other])
               && Compatible(world.writers[other], now.writers[id])
    ensures WritersHold(now, origin)
  {
    hide WriterHolds, Compatible;
  }

  /** A step of `id` on the directory that changes only its own stage, its destination, and the
      bytes of its own inode. */
  ghost predicate OwnStep(world: World, now: World, id: Id)
    requires id in world.writers && id in now.writers
  {
    var w := now.writers[id];
    && now.readers == world.readers
    && w.destination == world.writers[id].destination
    && (forall name :: name != StageName(id) && name != w.destination ==>
          && (name in now.fs.dir <==> name in world.fs.dir)
          && (name in now.fs.dir ==> now.fs.dir[name] == world.fs.dir[name]))
    && (forall name :: name in now.fs.dir && (name == StageName(id) || name == w.destination) ==>
          now.fs.dir[name] == w.inode || (name in world.fs.dir && now.fs.dir[name] == world.fs.dir[name]))
    && (w.destination in world.fs.dir ==> w.destination in now.fs.dir)
    && (forall i :: i in world.fs.heap && i != w.inode ==> i in now.fs.heap && now.fs.heap[i] == world.fs.heap[i])
  }

  /** Such a step leaves every other writer as it was. */
  lemma OtherStays(world: World, now: World, origin: Fs, id: Id, other: Id)
    requires id in world.writers && other in world.writers && other != id
    requires id in now.writers && now.writers == world.writers[id := now.writers[id]] && OwnStep(world, now, id)
    requires WriterHolds(world, origin, other) && IsValid(world.writers[id].destination)
    requires world.writers[other].created ==>
               now.writers[id].inode != world.writers[other].inode
    ensures WriterHolds(now, origin, other)
  {
    hide IsValid, StageName;
    StageNames();
  }

  /** A writer moves on without touching the directory. */
  lemma MovingOnKeeps(world: World, origin: Fs, id: Id, at: Stage)
    requires Inv(world, origin) && id in world.writers
    requires var w := world.writers[id];
             || (w.published && at == Over)
             || (!w.published && at in {Failed, Over})
             || (!w.created && !w.published && at == Checked)
             || (at == Finished && w.at == Writing)
    ensures Inv(At(world, id, at), origin)
  {
    var now := At(world, id, at);
    MovingWriters(world, origin, id, at);
    hide WritersHold, IsValid, StageName;
    assert NamesHold(now, origin) by { hide FilesHold, NamesHold; NamesKeep(world, now, origin, id); }
    hide NamesHold;
  }

  lemma MovingWriters(world: World, origin: Fs, id: Id, at: Stage)
    requires WritersHold(world, origin) && id in world.writers
    requires var w := world.writers[id];
             || (w.published && at == Over)
             || (!w.published && at in {Failed, Over})
             || (!w.created && !w.published && at == Checked)
             || (at == Finished && w.at == Writing)
    ensures WritersHold(At(world, id, at), origin)
  {
    hide IsValid, StageName;
    var now := At(world, id, at);
    assert WriterHolds(world, origin, id);
    forall other | other in world.writers && other != id
      ensures WriterHolds(now, origin, other)
      ensures Compatible(now.writers[id], world.writers[other])
      ensures Compatible(world.writers[other], now.writers[id])
    {
      assert WriterHolds(world, origin, other);
      assert Compatible(world.writers[id], world.writers[other]);
      assert Compatible(world.writers[other], world.writers[id]);
    }
    hide StagePrivate, PublishedWhole, Compatible;
    assert WriterHolds(now, origin, id);
    WritersKeep(world, now, origin, id);
  }

  /** An own step of a writer keeps the invariant if what the writer itself needs still holds. */
  lemma OwnStepKeeps(world: World, now: World, origin: Fs, id: Id)
    requires Inv(world, origin) && id in world.writers
    requires id in now.writers && now.writers == world.writers[id := now.writers[id]] && OwnStep(world, now, id)
    requires WriterHolds(now, origin, id) && NamesHold(now, origin) && FilesHold(now, origin)
    requires forall other :: other in world.writers && other != id ==>
               && Compatible(now.writers[id], world.writers[other])
               && Compatible(world.writers[other], now.writers[id])
               && (world.writers[other].created ==>
                     now.writers[id].inode != world.writers[other].inode)
    ensures Inv(now, origin)
  {
    hide NamesHold, FilesHold, StagePrivate, PublishedWhole, IsValid, OwnStep, Compatible;
    forall other | other in world.writers && other != id
      ensures WriterHolds(now, origin, other)
    {
      assert WriterHolds(world, origin, other);
      assert WriterHolds(world, origin, id);
      OtherStays(world, now, origin, id, other);
    }
    WritersKeep(world, now, origin, id);
  }

  /** A file in use by another writer is not the next to be created, nor one being staged. */
  lemma InodesApart(world: World, origin: Fs, id: Id, other: Id)
    requires Inv(world, origin) && id in world.writers && other in world.writers && id != other
    ensures world.writers[other].created ==>
              world.writers[other].inode < world.fs.next
    ensures Staging(world.writers[id]) && world.writers[other].created ==>
              world.writers[id].inode != world.writers[other].inode
  {
    hide NamesHold, IsValid, StageName;
    assert WriterHolds(world, origin, id);
    assert WriterHolds(world, origin, other);
    assert Compatible(world.writers[id], world.writers[other]);
  }

  lemma CreatingFiles(world: World, origin: Fs, id: Id)
    requires FilesHold(world, origin) && id in world.writers && StageName(id) !in world.fs.dir
    requires world.writers[id].at == Checked
    ensures FilesHold(After(world, Create(id)), origin)
  {
    hide IsValid, StageName;
  }

  lemma CreatingOwn(world: World, origin: Fs, id: Id)
    requires Inv(world, origin) && id in world.writers && StageName(id) !in world.fs.dir
    requires world.writers[id].at == Checked && !world.writers[id].published
    ensures var now := After(world, Create(id));
            && OwnStep(world, now, id) && Recorded(world, now)
            && (forall name :: name in now.fs.dir && IsValid(name) ==>
                  name in world.fs.dir && now.fs.dir[name] == world.fs.dir[name])
            && (forall name :: name in world.fs.dir ==> name in now.fs.dir)
  {
    StageNames();
    hide IsValid, StageName, NamesHold, FilesHold, StagePrivate, PublishedWhole;
    assert WriterHolds(world, origin, id);
    hide WritersHold;
  }

  lemma CreatingStage(world: World, origin: Fs, id: Id)
    requires Inv(world, origin) && id in world.writers && StageName(id) !in world.fs.dir
    requires world.writers[id].at == Checked && !world.writers[id].published
    ensures WriterHolds(After(world, Create(id)), origin, id)
  {
    StageNames();
    hide IsValid, StageName, NamesHold;
    assert WriterHolds(world, origin, id);
    hide WritersHold;
  }

  lemma CreatingKeeps(world: World, origin: Fs, id: Id)
    requires Inv(world, origin) && id in world.writers && StageName(id) !in world.fs.dir
    requires world.writers[id].at == Checked && !world.writers[id].published
    ensures Inv(After(world, Create(id)), origin)
  {
    hide IsValid, StageName, OwnStep, WriterHolds, FilesHold, WritersHold, NamesHold, Recorded;
    var now := After(world, Create(id));
    CreatingOwn(world, origin, id);
    CreatingStage(world, origin, id);
    CreatingFiles(world, origin, id);
    NamesKeep(world, now, origin, id);
    forall other | other in world.writers && other != id
      ensures Compatible(now.writers[id], world.writers[other]) && Compatible(world.writers[other], now.writers[id])
      ensures world.writers[other].created ==>
                now.writers[id].inode != world.writers[other].inode
    {
      InodesApart(world, origin, id, other);
    }
    hide Compatible;
    OwnStepKeeps(world, now, origin, id);
  }

  lemma WritingFiles(world: World, origin: Fs, id: Id, data: Bytes)
    requires Inv(world, origin) && id in world.writers
    requires world.writers[id].at == Writing && world.writers[id].inode in world.fs.heap
    ensures FilesHold(After(world, WriteSome(id, data)), origin)
  {
    hide IsValid, StageName, NamesHold;
    assert WriterHolds(world, origin, id);
  }

  lemma InPairs(world: World, origin: Fs, id: Id, other: Id)
    requires Inv(world, origin) && id in world.writers && other in world.writers && id != other
    ensures Compatible(world.writers[id], world.writers[other]) && Compatible(world.writers[other], world.writers[id])
  {
    hide WriterHolds, NamesHold, FilesHold;
  }

  lemma WritingEffect(world: World, id: Id, data: Bytes)
    requires id in world.writers
    requires world.writers[id].at == Writing && world.writers[id].inode in world.fs.heap
    ensures var w, now := world.writers[id], After(world, WriteSome(id, data));
            && now.fs == Appended(world.fs, w.inode, data) && now.readers == world.readers
            && now.fs.dir == world.fs.dir && now.fs.heap == world.fs.heap[w.inode := world.fs.heap[w.inode] + data]
            && now.writers == world.writers[id := w.(written := w.written + data)]
  {
    hide IsValid, StageName;
  }

  lemma WritingStage(world: World, origin: Fs, id: Id, data: Bytes)
    requires Inv(world, origin) && id in world.writers
    requires world.writers[id].at == Writing && world.writers[id].inode in world.fs.heap
    ensures WriterHolds(After(world, WriteSome(id, data)), origin, id)
  {
    hide IsValid, StageName, NamesHold, FilesHold, After;
    assert WriterHolds(world, origin, id);
    hide WritersHold;
    WritingEffect(world, id, data);
  }

  lemma WritingOwn(world: World, origin: Fs, id: Id, data: Bytes)
    requires Inv(world, origin) && id in world.writers
    requires world.writers[id].at == Writing && world.writers[id].inode in world.fs.heap
    ensures var now := After(world, WriteSome(id, data));
            && OwnStep(world, now, id) && now.fs.dir == world.fs.dir && Recorded(world, now)
            && now.writers[id] == world.writers[id].(written := world.writers[id].written + data)
  {
    StageNames();
    hide IsValid, StageName, NamesHold, FilesHold;
    assert WriterHolds(world, origin, id);
    hide WritersHold;
  }

  lemma WritingKeeps(world: World, origin: Fs, id: Id, data: Bytes)
    requires Inv(world, origin) && id in world.writers
    requires world.writers[id].at == Writing && world.writers[id].inode in world.fs.heap
    ensures Inv(After(world, WriteSome(id, data)), origin)
  {
    hide IsValid, StageName, OwnStep, WriterHolds, FilesHold, WritersHold, NamesHold, Recorded;
    var now := After(world, WriteSome(id, data));
    WritingStage(world, origin, id, data);
    WritingOwn(world, origin, id, data);
    WritingFiles(world, origin, id, data);
    NamesKeep(world, now, origin, id);
    forall other | other in world.writers && other != id
      ensures Compatible(now.writers[id], world.writers[other]) && Compatible(world.writers[other], now.writers[id])
      ensures world.writers[other].created ==>
                now.writers[id].inode != world.writers[other].inode
    {
      InPairs(world, origin, id, other);
      InodesApart(world, origin, id, other);
      InodesApart(world, origin, other, id);
    }
    hide Compatible;
    OwnStepKeeps(world, now, origin, id);
  }

  /** Whoever published onto a name, the name is taken. */
  lemma NoRival(world: World, origin: Fs, id: Id, other: Id)
    requires Inv(world, origin) && id in world.writers && other in world.writers
    requires world.writers[id].destination !in world.fs.dir
    ensures !(world.writers[other].published && world.writers[other].destination == world.writers[id].destination)
  {
    hide NamesHold, IsValid, StageName;
    assert WriterHolds(world, origin, other);
  }

  /** What publication, by link or by replacement, does to the directory and to its writer. */
  lemma PublishingStage(world: World, origin: Fs, id: Id)
    requires Inv(world, origin) && id in world.writers
    requires var w := world.writers[id];
             w.at == Finished && StageName(id) in world.fs.dir && (w.overwrite || w.destination !in world.fs.dir)
    ensures WriterHolds(After(world, Publish(id)), origin, id)
  {
    StageNames();
    hide IsValid, StageName;
    assert WriterHolds(world, origin, id);
    hide WritersHold;
  }

  lemma PublishingOwn(world: World, origin: Fs, id: Id)
    requires Inv(world, origin) && id in world.writers
    requires var w := world.writers[id];
             w.at == Finished && StageName(id) in world.fs.dir && (w.overwrite || w.destination !in world.fs.dir)
    ensures var now := After(world, Publish(id));
            && OwnStep(world, now, id)
            && now.fs.heap == world.fs.heap && now.fs.next == world.fs.next
            && (forall name :: name in now.fs.dir && IsValid(name) ==>
                  || (name in world.fs.dir && now.fs.dir[name] == world.fs.dir[name])
                  || (now.writers[id].destination == name && now.writers[id].inode == now.fs.dir[name]))
            && (forall name :: name in world.fs.dir && IsValid(name) ==> name in now.fs.dir)
  {
    StageNames();
    hide IsValid, StageName, NamesHold, FilesHold, PublishedWhole;
    assert WriterHolds(world, origin, id);
    hide WritersHold;
  }

  lemma PublishingFiles(world: World, origin: Fs, id: Id)
    requires FilesHold(world, origin) && id in world.writers
    requires var w := world.writers[id];
             w.at == Finished && StageName(id) in world.fs.dir && (w.overwrite || w.destination !in world.fs.dir)
    ensures FilesHold(After(world, Publish(id)), origin)
  {
    hide IsValid, StageName;
  }

  lemma PublishingKeeps(world: World, origin: Fs, id: Id)
    requires Inv(world, origin) && id in world.writers
    requires var w := world.writers[id];
             w.at == Finished && StageName(id) in world.fs.dir && (w.overwrite || w.destination !in world.fs.dir)
    ensures Inv(After(world, Publish(id)), origin)
  {
    hide IsValid, StageName, OwnStep, WriterHolds, FilesHold, WritersHold, NamesHold;
    var now := After(world, Publish(id));
    PublishingStage(world, origin, id);
    PublishingOwn(world, origin, id);
    PublishingFiles(world, origin, id);
    NamesKeep(world, now, origin, id);
    forall other | other in world.writers && other != id
      ensures Compatible(now.writers[id], world.writers[other]) && Compatible(world.writers[other], now.writers[id])
      ensures world.writers[other].created ==>
                now.writers[id].inode != world.writers[other].inode
    {
      InodesApart(world, origin, id, other);
      InodesApart(world, origin, other, id);
      if world.writers[id].destination !in world.fs.dir { NoRival(world, origin, id, other); }
    }
    hide Compatible;
    OwnStepKeeps(world, now, origin, id);
  }

  /** A stage whose writer is done with it loses its name. */
  lemma UnlinkingKeeps(world: World, origin: Fs, id: Id)
    requires Inv(world, origin) && id in world.writers && !Staging(world.writers[id])
    ensures Inv(world.(fs := Unlinked(world.fs, StageName(id))), origin)
  {
    StageNames();
    var now := world.(fs := Unlinked(world.fs, StageName(id)));
    hide IsValid, StageName;
    forall other | other in world.writers
      ensures WriterHolds(now, origin, other)
    {
      assert WriterHolds(world, origin, other);
    }
    NamesKeep(world, now, origin, id);
    assert FilesHold(now, origin) by { hide WriterHolds; }
    hide WriterHolds, FilesHold, NamesHold;
  }

  lemma OpeningKeeps(world: World, origin: Fs, reader: nat, name: Name)
    requires Inv(world, origin)
    ensures Inv(After(world, OpenFile(reader, name)), origin)
  {
    StageNames();
    var now := After(world, OpenFile(reader, name));
    hide IsValid, StageName;
    assert WritersHold(now, origin) by {
      hide FilesHold, NamesHold;
      forall other | other in world.writers
        ensures WriterHolds(now, origin, other)
      {
        assert WriterHolds(world, origin, other);
      }
      hide WriterHolds;
    }
    hide WritersHold;
    assert FilesHold(now, origin) by { hide NamesHold; }
    hide FilesHold;
    NamesKeep(world, now, origin, []);
  }

  /** A new writer has no file yet. */
  lemma JoiningKeeps(world: World, origin: Fs, id: Id, destination: Name, overwrite: bool)
    requires Inv(world, origin) && id !in world.writers && IsValid(destination)
    ensures Inv(After(world, Join(id, destination, overwrite)), origin)
  {
    var now := After(world, Join(id, destination, overwrite));
    hide IsValid, StageName;
    forall other | other in now.writers
      ensures WriterHolds(now, origin, other)
    {
      if other != id { assert WriterHolds(world, origin, other); }
    }
    forall a, b | a in now.writers && b in now.writers && a != b
      ensures Compatible(now.writers[a], now.writers[b])
    {
      if a != id && b != id { assert Compatible(world.writers[a], world.writers[b]); }
    }
    NamesKeep(world, now, origin, id);
    assert FilesHold(now, origin) by { hide WriterHolds; }
    hide WriterHolds, FilesHold, NamesHold;
  }

  // ---------------------------------------------------------------- every run

  lemma StepKeeps(world: World, origin: Fs, step: Step)
    requires Inv(world, origin)
    ensures Inv(After(world, step), origin)
  {
    hide WritersHold, NamesHold, FilesHold, IsValid, StageName;
    if step.OpenFile? {
      OpeningKeeps(world, origin, step.reader, step.name);
    } else if step.Join? {
      if After(world, step) != world { JoiningKeeps(world, origin, step.id, step.destination, step.overwrite); }
    } else if step.id in world.writers {
      var id, w := step.id, world.writers[step.id];
      PublishedIsOver(world, origin, id);
      match step
      case Check(_) =>
        if w.at == Fresh {
          MovingOnKeeps(world, origin, id, Over);
          MovingOnKeeps(world, origin, id, Checked);
        }
      case Create(_) =>
        if w.at == Checked {
          if StageName(id) in world.fs.dir { MovingOnKeeps(world, origin, id, Over); }
          else { CreatingKeeps(world, origin, id); }
        }
      case WriteSome(_, data) => if After(world, step) != world { WritingKeeps(world, origin, id, data); }
      case Finish(_) => if After(world, step) != world { MovingOnKeeps(world, origin, id, Finished); }
      case Publish(_) =>
        if w.at == Finished && StageName(id) in world.fs.dir {
          if w.overwrite || w.destination !in world.fs.dir { PublishingKeeps(world, origin, id); }
          else { MovingOnKeeps(world, origin, id, Failed); }
        }
      case Fail(_) =>
        if w.at in {Writing, Finished} { MovingOnKeeps(world, origin, id, Failed); }
        if w.at in {Fresh, Checked} { MovingOnKeeps(world, origin, id, Over); }
      case CleanUp(_, removed) =>
        if w.at in {Renamed, Failed} {
          UnlinkingKeeps(world, origin, id);
          MovingOnKeeps(world, origin, id, Over);
          MovingOnKeeps(world.(fs := Unlinked(world.fs, StageName(id))), origin, id, Over);
        }
      case Crash(_) => MovingOnKeeps(world, origin, id, Over);
    }
  }

  lemma PublishedIsOver(world: World, origin: Fs, id: Id)
    requires Inv(world, origin) && id in world.writers
    ensures world.writers[id].published ==> world.writers[id].at in {Renamed, Over}
    ensures world.writers[id].at in {Fresh, Checked} ==> !world.writers[id].created
  {
    hide NamesHold, FilesHold, IsValid, StageName;
    assert WriterHolds(world, origin, id);
  }

  lemma {:induction false} RunKeeps(world: World, steps: seq<Step>)
    requires Initial(world)
    ensures Inv(Run(world, steps), world.fs)
  {
    hide Inv, After;
    if steps == [] {
      InitialHolds(world);
    } else {
      RunKeeps(world, steps[..|steps| - 1]);
      StepKeeps(Run(world, steps[..|steps| - 1]), world.fs, steps[|steps| - 1]);
    }
  }

  /** Atomic visibility: after any interleaving of any writers, with crashes anywhere, a file name
      shows what it showed at the start, or all the bytes of one writer that published there;
      a name that existed never disappears. */
  lemma AtomicVisibility(world: World, steps: seq<Step>, name: Name)
    requires Initial(world) && IsValid(name)
    ensures var now := Run(world, steps);
            && (name in world.fs.dir ==> name in now.fs.dir)
            && (name in now.fs.dir ==>
                  || (name in world.fs.dir && now.fs.Contents(name) == world.fs.Contents(name))
                  || exists id :: id in now.writers && now.writers[id].published
                                  && now.writers[id].destination == name
                                  && now.fs.Contents(name) == Some(now.writers[id].written))
  {
    RunKeeps(world, steps);
    var now := Run(world, steps);
    hide Run, IsValid, StageName;
    if name in now.fs.dir {
      assert Accounted(now, world.fs, name);
      if !(name in world.fs.dir && now.fs.dir[name] == world.fs.dir[name]) {
        var id :| id in now.writers && now.writers[id].published
          && now.writers[id].destination == name && now.writers[id].inode == now.fs.dir[name];
        assert WriterHolds(now, world.fs, id);
      }
    }
  }

  /** What stays of a writer that has written all it will. */
  predicate Continues(w: Writer, now: Writer) {
    && now == w.(at := now.at, published := now.published) && (w.published ==> now.published)
    && now.at !in {Fresh, Checked, Stage.Writing}
  }

  lemma StepContinues(world: World, step: Step, id: Id)
    requires id in world.writers && world.writers[id].at !in {Fresh, Checked, Stage.Writing}
    ensures id in After(world, step).writers && Continues(world.writers[id], After(world, step).writers[id])
  {
    hide IsValid, StageName, Created, Appended, Linked, Replaced, Unlinked;
  }

  /** Those are all the bytes the writer ever writes: once it has finished its stage, whatever it and the
      others do, it writes no more, and what it has published stays published. */
  lemma {:induction false} FinishedIsFinal(world: World, steps: seq<Step>, id: Id)
    requires id in world.writers && world.writers[id].at !in {Fresh, Checked, Stage.Writing}
    ensures id in Run(world, steps).writers && Continues(world.writers[id], Run(world, steps).writers[id])
  {
    hide After;
    if steps != [] {
      FinishedIsFinal(world, steps[..|steps| - 1], id);
      StepContinues(Run(world, steps[..|steps| - 1]), steps[|steps| - 1], id);
    }
  }

  predicate HasPublished(world: World, id: Id) {
    id in world.writers && world.writers[id].published
  }

  /** A writer publishes in one step, which leads its name to its stage; and if it may not overwrite,
      the name was free until that very step, whatever the other writers did before it. */
  lemma {:induction false} PublishesOntoAFreeName(world: World, steps: seq<Step>, id: Id, from: nat)
    requires from <= |steps| && !HasPublished(Run(world, steps[..from]), id) && HasPublished(Run(world, steps), id)
    ensures exists k: nat :: from <= k && PublishedAt(world, steps, id, k)
  {
    hide IsValid, StageName;
    assert steps[..|steps|] == steps;
    var last := |steps| - 1;
    var before := Run(world, steps[..last]);
    hide After;
    OneStep(before, steps[last], id);
    if HasPublished(before, id) {
      assert steps[..last][..from] == steps[..from];
      PublishesOntoAFreeName(world, steps[..last], id, from);
      var k: nat :| from <= k && PublishedAt(world, steps[..last], id, k);
      assert steps[..last][..k] == steps[..k] && steps[..last][..k + 1] == steps[..k + 1];
      assert PublishedAt(world, steps, id, k);
    } else {
      assert PublishedAt(world, steps, id, last);
    }
  }

  /** A step that publishes a writer is its own publication. */
  lemma OneStep(world: World, step: Step, id: Id)
    ensures !HasPublished(world, id) && HasPublished(After(world, step), id) ==>
              && step == Publish(id) && id in world.writers
              && var w, now := world.writers[id], After(world, step);
              && StageName(id) in world.fs.dir
              && (!w.overwrite ==> w.destination !in world.fs.dir)
              && w.destination in now.fs.dir && now.fs.dir[w.destination] == world.fs.dir[StageName(id)]
  {
    hide IsValid, StageName;
  }

  ghost predicate PublishedAt(world: World, steps: seq<Step>, id: Id, k: nat) {
    && k < |steps| && steps[k] == Publish(id)
    && (var before, after := Run(world, steps[..k]), Run(world, steps[..k + 1]);
        && id in before.writers
        && (var name := before.writers[id].destination;
            && (!before.writers[id].overwrite ==> name !in before.fs.dir)
            && StageName(id) in before.fs.dir
            && name in after.fs.dir && after.fs.dir[name] == before.fs.dir[StageName(id)]))
  }

  /** Of any number of writers that may not overwrite, racing for one name, at most one publishes; and
      it does so onto a name that was free at the start and free at that very step. */
  lemma AtMostOneWinner(world: World, steps: seq<Step>, id: Id, other: Id)
    requires Initial(world)
    ensures var now := Run(world, steps);
            HasPublished(now, id) && !now.writers[id].overwrite ==>
              && now.writers[id].destination !in world.fs.dir
              && (exists k: nat :: PublishedAt(world, steps, id, k))
              && (other != id && HasPublished(now, other) && !now.writers[other].overwrite ==>
                    now.writers[other].destination != now.writers[id].destination)
  {
    RunKeeps(world, steps);
    var now := Run(world, steps);
    hide IsValid, StageName, NamesHold, FilesHold, PublishedAt;
    if HasPublished(now, id) {
      assert steps[..0] == [];
      PublishesOntoAFreeName(world, steps, id, 0);
      var k: nat :| 0 <= k && PublishedAt(world, steps, id, k);
      assert WriterHolds(now, world.fs, id);
      if other in now.writers && other != id {
        assert Compatible(now.writers[id], now.writers[other]);
      }
    }
    hide Run;
  }

  /** A reader keeps the whole file it opened, whatever is published over its name later. */
  lemma ReadersKeepTheirFile(world: World, steps: seq<Step>, reader: nat, more: seq<Step>)
    requires Initial(world) && reader in Run(world, steps).readers
    ensures var held, now := Run(world, steps).readers[reader], Run(world, steps + more);
            && reader in now.readers && now.readers[reader] == held
            && held.inode in now.fs.heap && now.fs.heap[held.inode] == held.content
  {
    RunKeeps(world, steps + more);
    ReadersStay(world, steps, more, reader);
    hide Run, IsValid, StageName, NamesHold, WritersHold;
  }

  lemma {:induction false} ReadersStay(world: World, steps: seq<Step>, more: seq<Step>, reader: nat)
    requires reader in Run(world, steps).readers
    ensures reader in Run(world, steps + more).readers
    ensures Run(world, steps + more).readers[reader] == Run(world, steps).readers[reader]
  {
    hide IsValid, StageName;
    if more == [] {
      assert steps + more == steps;
    } else {
      var all := steps + more;
      ReadersStay(world, steps, more[..|more| - 1], reader);
      assert all[..|all| - 1] == steps + more[..|more| - 1];
    }
  }

  // ---------------------------------------------------------------- one writer among the others

  /** What others leave alone: the record of the writer, every valid name's presence, every inode. */
  ghost predicate Spared(before: World, now: World, id: Id) {
    && (id in before.writers <==> id in now.writers)
    && (id in before.writers ==> now.writers[id] == before.writers[id])
    && (forall name :: IsValid(name) && name in before.fs.dir ==> name in now.fs.dir)
    && (forall i :: i in before.fs.heap ==> i in now.fs.heap)
  }

  predicate IsOwn(step: Step, id: Id) {
    !step.OpenFile? && step.id == id
  }

  lemma OthersSpare(world: World, step: Step, id: Id)
    requires !IsOwn(step, id)
    ensures Spared(world, After(world, step), id)
  {
    StageNames();
    hide IsValid, StageName;
  }

  /** What is known of the stage of a writer that has not published. */
  lemma StageHolds(start: World, steps: seq<Step>, id: Id)
    requires Initial(start) && id in Run(start, steps).writers
    ensures var now := Run(start, steps);
            var w := now.writers[id];
            && now.fs.Valid() && IsValid(w.destination)
            && (w.created && !w.published ==>
                  && now.fs.OnlyAt(w.inode, StageName(id))
                  && w.inode in now.fs.heap && now.fs.heap[w.inode] == w.written)
            && (Staging(w) ==>
                  w.created && !w.published && StageName(id) in now.fs.dir && now.fs.dir[StageName(id)] == w.inode)
            && (w.published ==>
                  w.inode in now.fs.heap && now.fs.heap[w.inode] == w.written && w.destination in now.fs.dir)
  {
    RunKeeps(start, steps);
    hide Run, IsValid, StageName, NamesHold;
    assert WriterHolds(Run(start, steps), start.fs, id);
  }

  /** A file that no writer is filling. */
  ghost predicate Settled(world: World, inode: Inode) {
    && inode in world.fs.heap
    && forall id :: id in world.writers && world.writers[id].created && !world.writers[id].published ==>
         world.writers[id].inode != inode
  }

  lemma SettledStays(world: World, origin: Fs, step: Step, inode: Inode)
    requires Inv(world, origin) && Settled(world, inode)
    ensures Settled(After(world, step), inode) && After(world, step).fs.heap[inode] == world.fs.heap[inode]
  {
    hide IsValid, StageName, NamesHold, PublishedWhole;
    if !step.OpenFile? && step.id in world.writers {
      assert WriterHolds(world, origin, step.id);
    }
    hide WritersHold;
  }

  lemma {:induction false} SettledForGood(start: World, past: seq<Step>, steps: seq<Step>, inode: Inode)
    requires Initial(start) && past <= steps && Settled(Run(start, past), inode)
    ensures Settled(Run(start, steps), inode) && Run(start, steps).fs.Valid()
    ensures inode in Run(start, past).fs.heap && inode in Run(start, steps).fs.heap
    ensures Run(start, steps).fs.heap[inode] == Run(start, past).fs.heap[inode]
  {
    hide After, Inv, Settled;
    RunKeeps(start, steps);
    InvIsValid(Run(start, steps), start.fs);
    if past == steps {
      SettledIsThere(Run(start, past), inode);
    } else {
      SettledForGood(start, past, steps[..|steps| - 1], inode);
      RunKeeps(start, steps[..|steps| - 1]);
      SettledIsThere(Run(start, steps[..|steps| - 1]), inode);
      SettledStays(Run(start, steps[..|steps| - 1]), start.fs, steps[|steps| - 1], inode);
      SettledIsThere(Run(start, steps), inode);
    }
  }

  lemma InvIsValid(world: World, origin: Fs)
    requires Inv(world, origin)
    ensures world.fs.Valid()
  {
  }

  lemma SettledIsThere(world: World, inode: Inode)
    requires Settled(world, inode)
    ensures inode in world.fs.heap
  {
  }

  /** Whatever file an accepted name leads to keeps its bytes for good, for whoever has opened it. */
  lemma VisibleFilesStay(start: World, past: seq<Step>, steps: seq<Step>, name: Name)
    requires Initial(start) && IsValid(name) && past <= steps && name in Run(start, past).fs.dir
    ensures var was, now := Run(start, past).fs, Run(start, steps).fs;
            && was.dir[name] in was.heap && was.dir[name] in now.heap
            && now.heap[was.dir[name]] == was.heap[was.dir[name]]
  {
    hide IsValid, Run;
    RunKeeps(start, past);
    VisibleIsSettled(Run(start, past), start.fs, name);
    SettledForGood(start, past, steps, Run(start, past).fs.dir[name]);
  }

  lemma VisibleIsSettled(world: World, origin: Fs, name: Name)
    requires Inv(world, origin) && IsValid(name) && name in world.fs.dir
    ensures Settled(world, world.fs.dir[name])
  {
    StageNames();
    hide IsValid, StageName, NamesHold, PublishedWhole;
    forall id | id in world.writers && world.writers[id].created && !world.writers[id].published
      ensures world.writers[id].inode != world.fs.dir[name]
    {
      assert WriterHolds(world, origin, id);
    }
  }
}
