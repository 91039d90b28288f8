/** The two ends of a transfer, behind one interface: a source to read, a directory to publish in,
    and the sink that fills its stage. */
module Streams {
  import opened Common
  import opened Filenames
  import opened Filesystem
  import opened LocalFiles
  import LocalRaces
  import RemoteRead
  import RemoteStage
  import RemoteWrite
  import Session

  // ---------------------------------------------------------------- what a directory shows

  function Text(name: Bytes): string {
    seq(|name|, i requires 0 <= i < |name| => name[i] as char)
  }

  function Joined(root: string, name: Bytes): Session.Path {
    root + "/" + Text(name)
  }

  /** The files of a directory, by name. */
  datatype View = LocalView(fs: Fs) | RemoteView(files: map<Session.Path, Bytes>, root: string) {
    function At(name: Bytes): Option<Bytes> {
      match this
      case LocalView(fs) => fs.Contents(name)
      case RemoteView(files, root) =>
        if Joined(root, name) in files then Some(files[Joined(root, name)]) else None
    }
  }

  /** No file under a name the API accepts has changed. */
  ghost predicate Untouched(now: View, before: View) {
    forall name :: IsValid(name) ==> now.At(name) == before.At(name)
  }

  /** One file is new, and complete; no other has changed. */
  ghost predicate Placed(now: View, before: View, name: Bytes, payload: Bytes) {
    && now.At(name) == Some(payload)
    && forall other :: IsValid(other) && other != name ==> now.At(other) == before.At(other)
  }

  lemma JoinedIsInjective(root: string, a: Bytes, b: Bytes)
    requires Joined(root, a) == Joined(root, b)
    ensures a == b
  {
    assert Joined(root, a)[|root| + 1..] == Text(a);
    assert Joined(root, b)[|root| + 1..] == Text(b);
    assert |Text(a)| == |Text(b)|;
    forall i | 0 <= i < |a| ensures a[i] == b[i] {
      assert Text(a)[i] == Text(b)[i];
    }
  }

  lemma StageIsApart(root: string, id: Bytes, name: Bytes)
    requires IsValid(name)
    ensures name != StageName(id) && Joined(root, name) != Joined(root, StageName(id))
  {
    hide IsValid, StageName, Joined;
    if name == StageName(id) || Joined(root, name) == Joined(root, StageName(id)) {
      if name != StageName(id) {
        JoinedIsInjective(root, name, StageName(id));
      }
      StageIsNeverADestination(id, name);
    }
  }

  lemma StagesAreApart(root: string, id: Bytes)
    ensures forall name :: IsValid(name) ==> name != StageName(id)
    ensures forall name :: IsValid(name) ==> Joined(root, name) != Joined(root, StageName(id))
  {
    forall name | IsValid(name)
      ensures name != StageName(id) && Joined(root, name) != Joined(root, StageName(id))
    {
      StageIsApart(root, id, name);
    }
  }

  lemma StagingTouchesNothing(now: Fs, origin: Fs, id: Bytes, inode: Inode)
    requires origin.Valid() && inode == origin.next && OnlyStaged(now, origin, StageName(id), inode)
    ensures Untouched(LocalView(now), LocalView(origin))
  {
    hide IsValid, StageName, Joined;
    StagesAreApart("", id);
  }

  lemma PublishingPlaces(now: Fs, origin: Fs, id: Bytes, inode: Inode, name: Bytes, payload: Bytes)
    requires IsValid(name) && origin.Valid()
    requires LocalFiles.Published(now, origin, StageName(id), name, inode, payload)
    ensures Placed(LocalView(now), LocalView(origin), name, payload)
  {
    hide IsValid, StageName, Joined;
    StagesAreApart("", id);
  }

  lemma RemoteStagingTouchesNothing(
    now: map<Session.Path, Bytes>, origin: map<Session.Path, Bytes>, root: string, id: Bytes)
    requires RemoteStage.SameElsewhere(now, origin, Joined(root, StageName(id)))
    ensures Untouched(RemoteView(now, root), RemoteView(origin, root))
  {
    hide IsValid, StageName, Joined;
    StagesAreApart(root, id);
  }

  lemma RemotePublishingPlaces(
    now: map<Session.Path, Bytes>, origin: map<Session.Path, Bytes>, root: string, id: Bytes, name: Bytes,
    payload: Bytes)
    requires IsValid(name)
    requires RemoteWrite.Published(now, origin, Joined(root, StageName(id)), Joined(root, name), payload)
    ensures Placed(RemoteView(now, root), RemoteView(origin, root), name, payload)
  {
    hide IsValid, StageName, Joined;
    StagesAreApart(root, id);
    forall other | IsValid(other) && other != name
      ensures Joined(root, other) != Joined(root, name)
    {
      if Joined(root, other) == Joined(root, name) {
        JoinedIsInjective(root, other, name);
      }
    }
  }

  /** The writer of this name has published these bytes: they are its whole file, the name is taken, and
      it was led there in one step, from free unless it may be replaced. */
  ghost predicate WriterShows(disk: Disk, id: Bytes, name: Bytes, overwrite: bool, payload: Bytes)
    reads disk
  {
    && LocalRaces.HasPublished(disk.world, id) && PublishedSince(disk, [], id)
    && (var w := disk.world.writers[id];
        && w.destination == name && w.overwrite == overwrite && w.written == payload && name in disk.fs.dir
        && w.inode in disk.fs.heap && disk.fs.heap[w.inode] == payload)
  }

  /** A local directory's own account of a writer: it has published these bytes, or nothing. */
  ghost predicate Accounts(disk: Disk, id: Bytes, name: Bytes, overwrite: bool, shown: Option<Bytes>)
    reads disk
  {
    && disk.Valid()
    && match shown
       case None => !LocalRaces.HasPublished(disk.world, id)
       case Some(payload) => WriterShows(disk, id, name, overwrite, payload)
  }

  // ---------------------------------------------------------------- the source

  datatype ByteSource = LocalSource(file: FileSource) | RemoteSource(download: RemoteRead.Download) {
    ghost function Objects(): set<object> {
      match this
      case LocalSource(file) => {file, file.disk}
      case RemoteSource(download) => {download, download.requests}
    }

    /** What reading changes. */
    ghost function Changes(): set<object> {
      match this
      case LocalSource(file) => {file}
      case RemoteSource(download) => {download, download.requests}
    }

    ghost predicate Valid()
      reads Objects()
    {
      match this
      case LocalSource(file) => file.Valid()
      case RemoteSource(download) => download.Valid()
    }

    /** After a failure the source can only be released. */
    ghost predicate Releasable()
      reads Changes()
    {
      RemoteSource? ==> download.Releasable()
    }

    /** Why reading may fail: a call failed or found the file shorter, or there is trouble with the session. */
    ghost predicate Troubled()
      reads Changes()
    {
      match this
      case LocalSource(file) => file.broken || file.cut
      case RemoteSource(download) => Session.Troubled(download.requests.net, download.first)
    }

    lemma ValidIsReleasable()
      requires Valid()
      ensures Releasable()
    {
    }

    lemma ChangesAreOwn()
      ensures Changes() <= Objects()
    {
    }

    ghost function Content(): Bytes
      requires Valid()
      reads Objects()
    {
      match this
      case LocalSource(file) => file.content
      case RemoteSource(download) => download.File()
    }

    ghost function Position(): nat
      reads Objects()
    {
      match this
      case LocalSource(file) => file.position
      case RemoteSource(download) => download.delivered
    }

    /** The next bytes of the source, and none only at its end. */
    method Pull(size: nat) returns (r: Result<Bytes, ErrorCode>)
      requires Valid() && size > 0
      modifies Changes()
      ensures Releasable()
      ensures r.Ok? ==>
                && Valid() && Content() == old(Content()) && |r.value| <= size
                && Position() == old(Position()) + |r.value| <= |Content()|
                && r.value == Content()[old(Position())..Position()]
                && (r.value == [] <==> old(Position()) == |Content()|)
      ensures r.Err? ==> Troubled()
    {
      hide Session.Troubled;
      ValidIsReleasable();
      match this
      case LocalSource(file) => r := file.ReadBytes(size);
      case RemoteSource(download) => r := download.ReadBytes(size);
    }

    /** The same, while a sink is being filled, which stays as it is. */
    method ReadBytes(size: nat, ghost sink: ByteSink) returns (r: Result<Bytes, ErrorCode>)
      requires Valid() && size > 0 && sink.Writing() && sink.ApartFrom(this)
      modifies Changes()
      ensures Releasable()
      ensures sink.Writing() && sink.Contained() && sink.Written() == old(sink.Written())
      ensures r.Ok? ==>
                && Valid() && Content() == old(Content()) && |r.value| <= size
                && Position() == old(Position()) + |r.value| <= |Content()|
                && r.value == Content()[old(Position())..Position()]
                && (r.value == [] <==> old(Position()) == |Content()|)
      ensures r.Err? ==> Troubled()
      ensures sink.ApartFrom(this) && sink.Failures() == old(sink.Failures())
    {
      hide Troubled, FileSink.Staged, LocalRaces.Settled;
      hide RemoteStage.Contained, RemoteStage.Pipelined, RemoteStage.Unclaimed, Session.Consistent;
      hide OnlyStaged, Valid, Content, Position, Releasable;
      sink.WritingIsContained();
      r := Pull(size);
    }

    /** Close the source. That can fail, with nothing left to do about it. */
    method Release() returns (r: Result<(), ErrorCode>)
      requires Releasable()
      modifies Changes()
      ensures old(Troubled()) ==> Troubled()
    {
      hide Session.Troubled;
      match this {
        case LocalSource(_) =>
        case RemoteSource(download) =>
          ghost var before := download.requests.net;
          download.Release();
          if Session.Troubled(before, download.first) {
            Session.TroubledStays(before, download.requests.net, download.first);
          }
      }
      var closed: bool := *;
      r := if closed then Ok(()) else Err(if LocalSource? then LocalIoError else SftpUnavailable);
    }
  }

  // ---------------------------------------------------------------- the sink

  datatype ByteSink = LocalSink(sink: FileSink) | RemoteSink(upload: RemoteStage.Upload, root: string) {
    ghost function Objects(): set<object> {
      match this
      case LocalSink(sink) => {sink, sink.disk}
      case RemoteSink(upload, _) => {upload, upload.requests}
    }

    /** The stage of this transfer, which is to be published under this name. */
    ghost predicate StagedAs(id: Bytes, name: Bytes, overwrite: bool) {
      match this
      case LocalSink(sink) => sink.id == id && sink.destination == name && sink.overwrite == overwrite
      case RemoteSink(upload, root) => upload.stage == Joined(root, StageName(id))
    }

    /** No one else works on the directory: for a remote one, that is assumed. */
    predicate Alone() {
      LocalSink? ==> sink.disk.alone
    }

    /** A local directory's account of this writer. */
    ghost predicate Records(id: Bytes, name: Bytes, overwrite: bool, shown: Option<Bytes>)
      reads Objects()
    {
      LocalSink? ==> Accounts(sink.disk, id, name, overwrite, shown)
    }

    /** How many calls have failed so far, but for unlinks. */
    ghost function Failures(): nat
      reads Objects()
    {
      match this
      case LocalSink(sink) => sink.disk.failures
      case RemoteSink(_, _) => 0
    }

    /** Why writing may fail: a call has failed since, the name is taken, or the session says why. */
    ghost predicate Thwarted(id: Bytes, failures: nat, name: Bytes, overwrite: bool, size: nat)
      reads Objects()
    {
      match this
      case LocalSink(sink) => sink.disk.failures > failures || (!overwrite && name in sink.disk.fs.dir)
      case RemoteSink(upload, root) =>
        RemoteWrite.Thwarted(upload.requests.net, 0, Joined(root, StageName(id)), size, Joined(root, name), overwrite)
    }

    ghost function Written(): Bytes
      reads Objects()
    {
      match this
      case LocalSink(sink) => sink.written
      case RemoteSink(upload, _) => upload.written
    }

    ghost function Now(): View
      reads Objects()
    {
      match this
      case LocalSink(sink) => LocalView(sink.disk.fs)
      case RemoteSink(upload, root) => RemoteView(upload.requests.net.server.files, root)
    }

    /** The directory when the stage was created. */
    ghost function Origin(): View {
      match this
      case LocalSink(sink) => LocalView(sink.origin)
      case RemoteSink(upload, root) => RemoteView(upload.origin, root)
    }

    ghost predicate Writing()
      reads Objects()
    {
      match this
      case LocalSink(sink) => sink.Writing()
      case RemoteSink(upload, _) => upload.Writing()
    }

    /** Every byte is stored, and the stage is closed. */
    ghost predicate Stored()
      reads Objects()
    {
      match this
      case LocalSink(sink) => sink.IsFinished()
      case RemoteSink(upload, _) => upload.Stored() && upload.finished && upload.handle == None
    }

    /** What holds after any failure. */
    ghost predicate Contained()
      reads Objects()
    {
      match this
      case LocalSink(sink) => sink.Staged()
      case RemoteSink(upload, _) => upload.Releasable()
    }

    ghost predicate Within(directory: Directory) {
      match this
      case LocalSink(sink) => directory.LocalDirectory? && sink.disk == directory.disk
      case RemoteSink(upload, root) =>
        directory.RemoteDirectory? && upload.requests == directory.requests && root == directory.root
    }

    lemma ApartMeans(source: ByteSource)
      requires ApartFrom(source)
      ensures source.Changes() !! Objects()
    {
    }

    lemma StoredIsContained()
      requires Stored()
      ensures Contained()
    {
    }

    lemma WritingIsContained()
      requires Writing()
      ensures Contained()
    {
    }

    /** Filling this sink cannot change what the source reads, nor can any other writer. */
    ghost predicate ApartFrom(source: ByteSource)
      reads Objects()
    {
      && source.Changes() !! Objects()
      && (source.LocalSource? && LocalSink? && source.file.disk == sink.disk ==>
            LocalRaces.Settled(sink.disk.world, source.file.inode))
    }

    /** A settled source is not touched as others and this sink move on. */
    lemma SourceStays(source: ByteSource, past: seq<LocalRaces.Step>, fs: Fs)
      requires LocalSink? && sink.disk.Valid() && sink.disk.fs.Valid() && past <= sink.disk.history
      requires source.LocalSource? && source.file.disk == sink.disk
      requires LocalRaces.Settled(LocalRaces.Run(sink.disk.start, past), source.file.inode)
      requires fs == LocalRaces.Run(sink.disk.start, past).fs
      ensures LocalRaces.Settled(sink.disk.world, source.file.inode)
      ensures source.file.inode in fs.heap && source.file.inode in sink.disk.fs.heap
      ensures sink.disk.fs.heap[source.file.inode] == fs.heap[source.file.inode]
    {
      hide LocalRaces.Run;
      LocalRaces.SettledForGood(sink.disk.start, past, sink.disk.history, source.file.inode);
    }

    method WriteBytes(data: Bytes, ghost source: ByteSource) returns (r: Result<(), ErrorCode>)
      requires Writing() && source.Valid() && ApartFrom(source)
      modifies Objects()
      ensures Contained()
      ensures r.Ok? ==> Writing() && Written() == old(Written()) + data && Failures() == old(Failures())
      ensures r.Err? ==> forall id, name, overwrite, size :: Thwarted(id, old(Failures()), name, overwrite, size)
      ensures source.Releasable() && source.Valid() && ApartFrom(source)
      ensures source.Content() == old(source.Content()) && source.Position() == old(source.Position())
    {
      hide RemoteStage.Contained, RemoteStage.Pipelined, RemoteStage.Unclaimed, RemoteStage.Settled;
      hide Session.Consistent, RemoteRead.Download.Valid, StageName, LocalRaces.Settled, LocalRaces.Run;
      hide RemoteWrite.Thwarted, Session.Troubled, Joined;
      source.ValidIsReleasable();
      match this
      case LocalSink(sink) =>
        ghost var past, fs := sink.disk.history, sink.disk.fs;
        r := sink.WriteBytes(data);
        if source.LocalSource? && source.file.disk == sink.disk {
          SourceStays(source, past, fs);
        }
      case RemoteSink(upload, _) =>
        r := upload.WriteBytes(data);
        if r.Err? {
          TroubleThwarts(upload.requests.net, upload.first);
        }
    }

    method Finish(ghost source: ByteSource, ghost id: Bytes, ghost name: Bytes, ghost overwrite: bool)
      returns (r: Result<(), ErrorCode>)
      requires Writing() && source.Valid() && ApartFrom(source) && StagedAs(id, name, overwrite)
      modifies Objects()
      ensures Contained() && Written() == old(Written())
      ensures r.Ok? ==> Stored() && Failures() == old(Failures())
      ensures r.Err? ==> Thwarted(id, old(Failures()), name, overwrite, |Written()|)
      ensures source.Releasable() && source.Valid() && source.Content() == old(source.Content())
    {
      hide RemoteStage.Contained, RemoteStage.Pipelined, RemoteStage.Unclaimed, RemoteStage.Settled;
      hide Session.Consistent, RemoteRead.Download.Valid, StageName, LocalRaces.Settled, LocalRaces.Run;
      hide RemoteWrite.Thwarted, RemoteStage.Hindered, Joined;
      source.ValidIsReleasable();
      match this
      case LocalSink(sink) =>
        ghost var past, fs := sink.disk.history, sink.disk.fs;
        r := sink.Finish();
        if source.LocalSource? && source.file.disk == sink.disk {
          SourceStays(source, past, fs);
        }
      case RemoteSink(upload, root) =>
        r := upload.Finish();
        HinderedThwarts(upload.requests.net, upload.first, upload.stage, upload.size, Joined(root, name), overwrite);
    }

    /** End the write of a transfer that failed. */
    method Abandon(ghost id: Bytes, ghost name: Bytes, ghost overwrite: bool)
      requires Contained() && StagedAs(id, name, overwrite) && IsValid(name)
      modifies Objects()
      ensures Alone() ==> Untouched(Now(), Origin())
      ensures Records(id, name, overwrite, None)
      ensures forall failures, size ::
                old(Thwarted(id, failures, name, overwrite, size)) ==> Thwarted(id, failures, name, overwrite, size)
    {
      hide RemoteWrite.Thwarted;
      match this
      case LocalSink(sink) =>
        hide StageName, IsValid, LocalRaces.Run;
        LocalFiles.Abandon(sink);
        if sink.disk.alone {
          StagingTouchesNothing(sink.disk.fs, sink.origin, id, sink.inode);
        }
      case RemoteSink(upload, root) =>
        ghost var before := upload.requests.net;
        StageDiffers(root, id);
        RemoteWrite.CleanUp(upload, false, Joined(root, []), false);
        RemoteStagingTouchesNothing(upload.requests.net.server.files, upload.origin, root, id);
        StaysThwarted(before, upload.requests.net);
    }

    lemma StageDiffers(root: string, id: Bytes)
      ensures Joined(root, StageName(id)) != Joined(root, [])
    {
      assert |Text(StageName(id))| > 0 == |Text([])|;
    }

    /** A publication was sent to a server, and no reply tells what became of it. */
    ghost predicate Untold(id: Bytes, name: Bytes, overwrite: bool)
      reads Objects()
    {
      && RemoteSink?
      && RemoteWrite.Unanswered(
           upload.requests.net, upload.requests.claimed, 0,
           RemoteWrite.PublishRequest(Joined(root, StageName(id)), Joined(root, name), overwrite))
    }

    /** End the write: publish the stage under its name. Only a publication that no reply answered
        leaves open whether it happened. */
    method Commit(ghost id: Bytes, name: Bytes, overwrite: bool)
      returns (r: Result<(), ErrorCode>, ghost unanswered: bool)
      requires Stored() && StagedAs(id, name, overwrite) && IsValid(name)
      modifies Objects()
      ensures r.Ok? ==> Records(id, name, overwrite, Some(old(Written()))) && Failures() == old(Failures())
      ensures r.Err? ==>
                && Records(id, name, overwrite, None)
                && Thwarted(id, old(Failures()), name, overwrite, |old(Written())|)
      ensures Alone() && r.Ok? ==>
                Placed(Now(), Origin(), name, old(Written())) && (!overwrite ==> Origin().At(name) == None)
      ensures Alone() && r.Err? && !unanswered ==> Untouched(Now(), Origin())
      ensures unanswered ==> r.Err? && Untold(id, name, overwrite)
      ensures r.Err? && unanswered ==>
                Untouched(Now(), Origin()) || Placed(Now(), Origin(), name, old(Written()))
    {
      unanswered := false;
      match this
      case LocalSink(sink) =>
        r := CommitLocal(sink, id, name, overwrite);
      case RemoteSink(upload, root) =>
        r, unanswered := CommitRemote(upload, root, id, name, overwrite);
    }
  }

  method CommitRemote(upload: RemoteStage.Upload, root: string, ghost id: Bytes, name: Bytes, overwrite: bool)
    returns (r: Result<(), ErrorCode>, ghost unanswered: bool)
    requires RemoteSink(upload, root).Stored() && RemoteSink(upload, root).StagedAs(id, name, overwrite)
    requires IsValid(name)
    modifies upload, upload.requests
    ensures r.Err? ==> RemoteSink(upload, root).Thwarted(id, 0, name, overwrite, |old(upload.written)|)
    ensures unanswered ==> r.Err? && RemoteSink(upload, root).Untold(id, name, overwrite)
    ensures var now, origin := RemoteView(upload.requests.net.server.files, root), RemoteView(upload.origin, root);
            if r.Ok? then Placed(now, origin, name, old(upload.written)) && (!overwrite ==> origin.At(name) == None)
            else Untouched(now, origin) || (unanswered && Placed(now, origin, name, old(upload.written)))
  {
    hide RemoteWrite.Thwarted, Session.Consistent, RemoteStage.Contained, RemoteStage.Settled, RemoteStage.Tidy;
    hide RemoteWrite.Published, RemoteWrite.Either, RemoteStage.SameElsewhere, Untouched, Placed, Joined;
    hide StageName, IsValid, RemoteWrite.Removed, RemoteWrite.Untold, RemoteStage.Unclaimed;
    StageIsApart(root, id, name);
    r, unanswered := RemoteWrite.Commit(upload, Joined(root, name), overwrite);
    RemoteEnds(upload.requests.net.server.files, upload.origin, root, id, name, upload.written);
    ThwartsFromStart(upload.requests.net, upload.first, upload.stage, upload.size, Joined(root, name), overwrite);
  }

  method CommitLocal(sink: FileSink, ghost id: Bytes, name: Bytes, overwrite: bool) returns (r: Result<(), ErrorCode>)
    requires sink.IsFinished() && LocalSink(sink).StagedAs(id, name, overwrite) && IsValid(name)
    modifies sink, sink.disk
    ensures r.Ok? ==>
              LocalSink(sink).Records(id, name, overwrite, Some(old(sink.written)))
              && sink.disk.failures == old(sink.disk.failures)
    ensures r.Err? ==>
              && LocalSink(sink).Records(id, name, overwrite, None)
              && LocalSink(sink).Thwarted(id, old(sink.disk.failures), name, overwrite, |sink.written|)
    ensures sink.disk.alone ==>
              if r.Ok? then
                Placed(LocalView(sink.disk.fs), LocalView(sink.origin), name, old(sink.written))
                && (!overwrite ==> LocalView(sink.origin).At(name) == None)
              else
                Untouched(LocalView(sink.disk.fs), LocalView(sink.origin))
  {
    hide StageName, IsValid, LocalRaces.Run, Placed, Untouched, OnlyStaged, Published;
    r := LocalFiles.Commit(sink, name, overwrite);
    if sink.disk.alone {
      if r.Ok? {
        PublishingPlaces(sink.disk.fs, sink.origin, id, sink.inode, name, sink.written);
      } else {
        StagingTouchesNothing(sink.disk.fs, sink.origin, id, sink.inode);
      }
    }
  }

  lemma HinderedThwarts(
    net: Session.Network, first: nat, stage: Session.Path, size: nat, destination: Session.Path, overwrite: bool)
    ensures RemoteStage.Hindered(net, first, stage, size) ==>
              RemoteWrite.Thwarted(net, 0, stage, size, destination, overwrite)
  {
    hide Session.Amiss, RemoteStage.States;
  }

  lemma ThwartsFromStart(
    net: Session.Network, first: nat, stage: Session.Path, size: nat, destination: Session.Path, overwrite: bool)
    ensures RemoteWrite.Thwarted(net, first, stage, size, destination, overwrite) ==>
              RemoteWrite.Thwarted(net, 0, stage, size, destination, overwrite)
  {
    hide Session.Amiss, RemoteStage.States, RemoteWrite.MayNotReplace;
  }

  lemma StaysThwarted(before: Session.Network, now: Session.Network)
    requires Session.Grew(before, now)
    ensures forall stage, size, destination, overwrite ::
              RemoteWrite.Thwarted(before, 0, stage, size, destination, overwrite) ==>
                RemoteWrite.Thwarted(now, 0, stage, size, destination, overwrite)
  {
    hide RemoteWrite.Thwarted, Session.Grew;
    forall stage, size, destination, overwrite |
      RemoteWrite.Thwarted(before, 0, stage, size, destination, overwrite)
      ensures RemoteWrite.Thwarted(now, 0, stage, size, destination, overwrite)
    {
      RemoteWrite.ThwartedStays(before, now, 0, stage, size, destination, overwrite);
    }
  }

  lemma TroubleThwarts(net: Session.Network, first: nat)
    requires Session.Troubled(net, first)
    ensures forall stage, size, destination, overwrite ::
              RemoteWrite.Thwarted(net, 0, stage, size, destination, overwrite)
  {
    hide Session.Amiss;
  }

  lemma RemoteEnds(
    now: map<Session.Path, Bytes>, origin: map<Session.Path, Bytes>, root: string, id: Bytes, name: Bytes,
    payload: Bytes)
    requires IsValid(name)
    ensures RemoteWrite.Published(now, origin, Joined(root, StageName(id)), Joined(root, name), payload) ==>
              Placed(RemoteView(now, root), RemoteView(origin, root), name, payload)
    ensures RemoteStage.SameElsewhere(now, origin, Joined(root, StageName(id))) ==>
              Untouched(RemoteView(now, root), RemoteView(origin, root))
    ensures RemoteWrite.Either(now, origin, Joined(root, StageName(id)), Joined(root, name), payload) ==>
              || Untouched(RemoteView(now, root), RemoteView(origin, root))
              || Placed(RemoteView(now, root), RemoteView(origin, root), name, payload)
  {
    hide IsValid, StageName, Joined, RemoteWrite.Published, RemoteStage.SameElsewhere, Untouched, Placed;
    if RemoteStage.SameElsewhere(now, origin, Joined(root, StageName(id))) {
      RemoteStagingTouchesNothing(now, origin, root, id);
    }
    if RemoteWrite.Published(now, origin, Joined(root, StageName(id)), Joined(root, name), payload) {
      RemotePublishingPlaces(now, origin, root, id, name, payload);
    }
  }

  // ---------------------------------------------------------------- the destination

  datatype Directory =
    | LocalDirectory(disk: Disk, regular: Name -> bool)
    | RemoteDirectory(requests: Session.Requests, root: string)
  {
    ghost function Objects(): set<object> {
      match this
      case LocalDirectory(disk, _) => {disk}
      case RemoteDirectory(requests, _) => {requests}
    }

    ghost function Now(): View
      reads Objects()
    {
      match this
      case LocalDirectory(disk, _) => LocalView(disk.fs)
      case RemoteDirectory(requests, root) => RemoteView(requests.net.server.files, root)
    }

    /** A directory that whoever else may be using, or a session that was just opened for this write. */
    ghost predicate Ready(id: Bytes)
      reads Objects()
    {
      match this
      case LocalDirectory(disk, _) => disk.Valid() && id !in disk.world.writers
      case RemoteDirectory(requests, _) =>
        && requests.Valid() && requests.net.sent == [] && requests.net == requests.net.Rebased()
        && requests.net.server.writers == map[]
    }

    /** A publication was sent to a server, and no reply tells what became of it. */
    ghost predicate Untold(id: Bytes, name: Bytes, overwrite: bool)
      reads Objects()
    {
      && RemoteDirectory?
      && RemoteWrite.Unanswered(
           requests.net, requests.claimed, 0,
           RemoteWrite.PublishRequest(Joined(root, StageName(id)), Joined(root, name), overwrite))
    }

    predicate Alone() {
      LocalDirectory? ==> disk.alone
    }

    ghost predicate Records(id: Bytes, name: Bytes, overwrite: bool, shown: Option<Bytes>)
      reads Objects()
    {
      LocalDirectory? ==> Accounts(disk, id, name, overwrite, shown)
    }

    ghost function Failures(): nat
      reads Objects()
    {
      match this
      case LocalDirectory(disk, _) => disk.failures
      case RemoteDirectory(_, _) => 0
    }

    /** Why a write may fail: a call has failed since, the stage's name or the destination's is taken, or
        the session says why. */
    ghost predicate Thwarts(id: Bytes, failures: nat, name: Bytes, overwrite: bool, size: nat)
      reads Objects()
    {
      match this
      case LocalDirectory(disk, regular) =>
        || disk.failures > failures || StageName(id) in disk.fs.dir
        || (name in disk.fs.dir && !(overwrite && regular(name)))
      case RemoteDirectory(requests, root) =>
        RemoteWrite.Thwarted(requests.net, 0, Joined(root, StageName(id)), size, Joined(root, name), overwrite)
    }

    /** Another session than the source's, if both are remote; and a source in the same local directory is
        a file that no writer is filling, such as one opened by its name. */
    ghost predicate ApartFrom(source: ByteSource)
      reads Objects()
    {
      && (source.RemoteSource? && RemoteDirectory? ==> source.download.requests != requests)
      && (source.LocalSource? && LocalDirectory? && source.file.disk == disk ==>
            LocalRaces.Settled(disk.world, source.file.inode))
    }

    lemma ReadyRecords(id: Bytes, name: Bytes, overwrite: bool)
      requires Ready(id)
      ensures Records(id, name, overwrite, None)
    {
      hide LocalRaces.Run, LocalRaces.Initial;
    }

    lemma Shows(sink: ByteSink, id: Bytes, name: Bytes, overwrite: bool)
      requires sink.Within(this)
      ensures sink.Now() == Now() && sink.Untold(id, name, overwrite) == Untold(id, name, overwrite)
      ensures sink.Alone() == Alone() && sink.Failures() == Failures()
      ensures forall shown :: sink.Records(id, name, overwrite, shown) == Records(id, name, overwrite, shown)
      ensures forall failures, size :: sink.Thwarted(id, failures, name, overwrite, size) ==>
                                         Thwarts(id, failures, name, overwrite, size)
    {
      hide StageName, IsValid, RemoteWrite.Thwarted, Joined;
    }

    lemma ApartMeans(source: ByteSource)
      requires ApartFrom(source)
      ensures source.Changes() !! Objects()
    {
    }

    /** Begin a write on this directory. */
    method Begin(id: Bytes, name: Bytes, overwrite: bool, ghost source: ByteSource)
      returns (r: Result<ByteSink, ErrorCode>)
      requires Ready(id) && source.Valid() && ApartFrom(source) && IsValid(name)
      modifies Objects()
      ensures r.Ok? ==>
                && r.value.Writing() && r.value.Written() == [] && r.value.StagedAs(id, name, overwrite)
                && r.value.ApartFrom(source) && (Alone() ==> Untouched(r.value.Origin(), old(Now())))
                && fresh(r.value.Objects() - Objects()) && Objects() <= r.value.Objects()
                && r.value.Within(this) && r.value.Failures() == old(Failures())
      ensures r.Err? ==>
                && (Alone() ==> Untouched(Now(), old(Now()))) && Records(id, name, overwrite, None)
                && forall size :: Thwarts(id, old(Failures()), name, overwrite, size)
      ensures source.Valid() && source.Content() == old(source.Content()) && source.Position() == old(source.Position())
    {
      match this
      case LocalDirectory(disk, regular) =>
        r := BeginLocal(disk, regular, id, name, overwrite, source);
      case RemoteDirectory(requests, root) =>
        r := BeginRemote(requests, root, id, name, overwrite, source);
    }
  }

  method BeginLocal(
    disk: Disk, regular: Name -> bool, id: Bytes, name: Bytes, overwrite: bool, ghost source: ByteSource)
    returns (r: Result<ByteSink, ErrorCode>)
    requires disk.Valid() && id !in disk.world.writers
    requires source.Valid() && LocalDirectory(disk, regular).ApartFrom(source) && IsValid(name)
    modifies disk
    ensures r.Ok? ==>
              && r.value.Writing() && r.value.Written() == [] && r.value.StagedAs(id, name, overwrite)
              && r.value.ApartFrom(source) && r.value.LocalSink? && fresh(r.value.sink) && r.value.sink.disk == disk
              && (disk.alone ==> r.value.sink.origin == old(disk.fs)) && disk.failures == old(disk.failures)
    ensures r.Err? ==>
              && (disk.alone ==> disk.fs == old(disk.fs)) && Accounts(disk, id, name, overwrite, None)
              && forall size :: LocalDirectory(disk, regular).Thwarts(id, old(disk.failures), name, overwrite, size)
    ensures source.Valid() && source.Content() == old(source.Content()) && source.Position() == old(source.Position())
  {
    hide StageName, IsValid, LocalRaces.Run, LocalRaces.Settled, RemoteRead.Download.Valid, OnlyStaged, Fs.OnlyAt;
    hide LocalRaces.Initial, Fs.Valid, FileSink.Began;
    ghost var past := disk.history;
    var begun := LocalFiles.Begin(disk, name, id, overwrite, regular);
    match begun {
      case Err(code) =>
        r := Err(code);
      case Ok(sink) =>
        r := Ok(LocalSink(sink));
    }
    if source.LocalSource? && source.file.disk == disk {
      LocalRaces.SettledForGood(disk.start, past, disk.history, source.file.inode);
    }
  }

  method BeginRemote(
    requests: Session.Requests, root: string, id: Bytes, name: Bytes, overwrite: bool, ghost source: ByteSource)
    returns (r: Result<ByteSink, ErrorCode>)
    requires RemoteDirectory(requests, root).Ready(id)
    requires source.Valid() && RemoteDirectory(requests, root).ApartFrom(source) && IsValid(name)
    modifies requests
    ensures r.Ok? ==>
              && r.value.Writing() && r.value.Written() == [] && r.value.StagedAs(id, name, overwrite)
              && r.value.ApartFrom(source) && r.value.Within(RemoteDirectory(requests, root)) && fresh(r.value.upload)
              && Untouched(r.value.Origin(), RemoteView(old(requests.net.server.files), root))
    ensures r.Err? ==>
              && Untouched(RemoteView(requests.net.server.files, root),
                           RemoteView(old(requests.net.server.files), root))
              && forall size :: RemoteDirectory(requests, root).Thwarts(id, 0, name, overwrite, size)
    ensures source.Valid() && source.Content() == old(source.Content()) && source.Position() == old(source.Position())
  {
    hide IsValid, StageName, Joined, Untouched, RemoteStage.SameElsewhere, RemoteStage.Contained;
    hide RemoteStage.Pipelined, RemoteStage.Unclaimed, Session.Consistent, RemoteRead.Download.Valid;
    hide Session.Troubled, RemoteWrite.Occupied;
    StageIsApart(root, id, name);
    var begun := RemoteWrite.Begin(requests, Joined(root, name), Joined(root, StageName(id)), overwrite);
    match begun {
      case Err(code) =>
        RemoteStagingTouchesNothing(requests.net.server.files, old(requests.net.server.files), root, id);
        r := Err(code);
      case Ok(upload) =>
        RemoteStagingTouchesNothing(upload.origin, old(requests.net.server.files), root, id);
        r := Ok(RemoteSink(upload, root));
    }
  }
}
