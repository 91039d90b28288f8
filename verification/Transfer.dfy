/** Running one transfer: copy, finish the stage, record `publishing`, publish, record the outcome. */
module Transfers {
  import opened Common
  import opened Filenames
  import opened Lifecycle
  import opened Store
  import opened Streams

  const CHUNK_SIZE := 1_048_576
  const PROGRESS_INTERVAL := 1

  /** What the events say about the destination. */
  datatype Fate = Hidden | Shown(payload: Bytes) | Unknown(payload: Bytes, happened: bool)

  function FateOf(trace: seq<Event>): Fate {
    if trace == [] then Hidden
    else
      match trace[|trace| - 1]
      case Published(payload) => Shown(payload)
      case Unanswered(payload, happened) => Unknown(payload, happened)
      case _ => FateOf(trace[..|trace| - 1])
  }

  /** The files of the destination directory are as the fate says. */
  ghost predicate Fits(fate: Fate, now: View, before: View, name: Bytes) {
    match fate
    case Hidden => Untouched(now, before)
    case Shown(payload) => Placed(now, before, name, payload)
    case Unknown(payload, happened) =>
      if happened then Placed(now, before, name, payload) else Untouched(now, before)
  }

  lemma FitsAfter(fate: Fate, now: View, origin: View, before: View, name: Bytes)
    requires Untouched(origin, before) && Fits(fate, now, origin, name) && IsValid(name)
    ensures Fits(fate, now, before, name) && origin.At(name) == before.At(name)
  {
  }

  lemma TraceGrows(rows: Rows, id: Id, trace: seq<Event>, event: Event)
    ensures (trace + [event])[..|trace|] == trace
    ensures Walk(trace + [event]) ==
            if Walk(trace).None? then None else Advance(Walk(trace).value, event)
    ensures Recorded(rows, id, trace + [event]) == Committed(Recorded(rows, id, trace), id, event)
    ensures !event.Published? && !event.Unanswered? ==> FateOf(trace + [event]) == FateOf(trace)
    ensures event.Published? ==> FateOf(trace + [event]) == Shown(event.payload)
    ensures event.Unanswered? ==> FateOf(trace + [event]) == Unknown(event.payload, event.happened)
  {
    assert (trace + [event])[..|trace|] == trace;
  }

  /** What the events say was published. */
  function ShownBy(fate: Fate): Option<Bytes> {
    match fate
    case Shown(payload) => Some(payload)
    case _ => None
  }

  /** A change of its record that a transfer cannot do without. */
  predicate IsEssential(operation: Operation, id: Id) {
    (operation.Start? || operation.Mark? || operation.Finish?) && operation.id == id
  }

  /** A change that would have told how the transfer ended. */
  predicate IsEnding(operation: Operation, id: Id) {
    (operation.Start? || operation.Fail?) && operation.id == id
  }

  /** Of the changes since `from`, the database refused one that the transfer cannot do without. */
  ghost predicate Refused(failed: seq<Operation>, from: nat, id: Id) {
    exists i: nat :: from <= i < |failed| && IsEssential(failed[i], id)
  }

  /** The database refused the record itself, or the record of the failure. */
  ghost predicate Unrecorded(failed: seq<Operation>, from: nat, id: Id) {
    exists i: nat :: from <= i < |failed| && IsEnding(failed[i], id)
  }

  lemma RefusedLast(failed: seq<Operation>, operation: Operation, id: Id)
    ensures IsEssential(operation, id) ==>
              forall from: nat :: from <= |failed| ==> Refused(failed + [operation], from, id)
    ensures IsEnding(operation, id) ==>
              forall from: nat :: from <= |failed| ==> Unrecorded(failed + [operation], from, id)
  {
    assert (failed + [operation])[|failed|] == operation;
  }

  lemma RefusedStays(failed: seq<Operation>, more: seq<Operation>, id: Id)
    requires failed <= more
    ensures forall from: nat :: Refused(failed, from, id) ==> Refused(more, from, id)
  {
  }

  class Transfer {
    const ledger: Ledger
    const id: Id
    var phase: Phase
    var copied: nat
    var checkpoint: int
    ghost var clock: int      // what the clock showed when it was read last
    ghost var checked: nat    // how many bytes were copied when progress was last looked at
    ghost const before: Rows
    ghost var trace: seq<Event>

    constructor (ledger: Ledger, id: Id)
      requires id !in ledger.rows  // identifiers are random
      ensures Following() && Walk(trace) == Some(Idle) && FateOf(trace) == Hidden
      ensures this.ledger == ledger && this.id == id && before == ledger.rows && trace == [] && copied == 0
    {
      this.ledger, this.id, before := ledger, id, ledger.rows;
      phase, copied, checkpoint, trace := SourceLookup, 0, 0, [];
      clock, checked := 0, 0;
    }

    /** The records are exactly what the events so far have committed, and the events are due. */
    ghost predicate Following()
      reads this`copied, this`trace, ledger
    {
      && id !in before && Walk(trace).Some?
      && ledger.rows == Recorded(before, id, trace)
      && (Walk(trace).value.Copying? ==> Walk(trace).value.saved <= copied)
      && (Walk(trace).value.Ready? ==> Walk(trace).value.bytes == copied)
      && (Walk(trace).value.Doubtful? ==> |Walk(trace).value.payload| == copied)
    }

    ghost predicate IsCopying()
      reads this`copied, this`trace, ledger
    {
      Following() && Walk(trace).value.Copying?
    }

    /** Nothing is known to be published, and the record is still open. */
    predicate CanFail(place: Place) {
      place.Copying? || place.Ready? || place.Doubtful?
    }

    ghost predicate Detached(objects: set<object>) {
      this !in objects && ledger !in objects
    }

    /** Commit the change of the next event. It is never a conflict, so only the database can fail. */
    method Record(operation: Operation, ghost event: Event) returns (r: Result<(), ErrorCode>)
      requires Following() && Change(id, event) == Some(operation)
      requires Advance(Walk(trace).value, event).Some? && Advance(Walk(trace).value, event).value != Idle
      requires event.Saved? ==> event.bytes <= copied
      requires event.Marked? ==> event.bytes == copied
      modifies this`trace, ledger
      ensures Following() && FateOf(trace) == old(FateOf(trace))
      ensures r.Ok? ==> trace == old(trace) + [event] && Apply(old(ledger.rows), operation) == Ok(ledger.rows)
      ensures r.Err? ==> trace == old(trace) && ledger.rows == old(ledger.rows) && r.error == TransferRecordFailed
      ensures ledger.failed == old(ledger.failed) + if r.Ok? then [] else [operation]
    {
      hide RowAt, Advance, Apply, FateOf, Recorded, Walk;
      RecordFollows(before, id, trace);
      DueEventCommits(ledger.rows, id, Walk(trace).value, event);
      DueAfter(Walk(trace).value, event);
      r := ledger.Record(operation);
      if r.Ok? {
        TraceGrows(before, id, trace, event);
        trace := trace + [event];
      }
    }

    lemma DueAfter(place: Place, event: Event)
      requires Advance(place, event).Some?
      ensures var after := Advance(place, event).value;
              && (after.Copying? ==> after.saved == if event.Saved? then event.bytes else 0)
              && (after.Ready? ==> event.Marked? && after.bytes == event.bytes)
              && (after.Doubtful? ==> event.Unanswered?)
    {
    }

    /** What the sink has is the first part of the source. */
    ghost predicate Pumping(source: ByteSource, sink: ByteSink, content: Bytes)
      reads this`copied, source.Objects(), sink.Objects()
    {
      && source.Valid() && source.Content() == content && source.Position() == copied <= |content|
      && sink.Writing() && sink.Written() == content[..copied]
    }

    method ReadClock() returns (now: int)
      modifies this`clock
      ensures clock == now
    {
      now := *;
      clock := now;
    }

    /** Save how many bytes were copied, once in every interval; a save that fails is ignored. */
    method Checkpoint(ghost source: ByteSource, ghost sink: ByteSink, ghost content: Bytes)
      requires IsCopying() && Pumping(source, sink, content)
      requires Detached(source.Objects()) && Detached(sink.Objects())
      modifies this`checkpoint, this`clock, this`checked, this`trace, ledger
      ensures IsCopying() && FateOf(trace) == old(FateOf(trace)) && old(ledger.failed) <= ledger.failed
      ensures Pumping(source, sink, content) && checked == copied
      ensures if clock - old(checkpoint) < PROGRESS_INTERVAL then
                checkpoint == old(checkpoint) && ledger.rows == old(ledger.rows) && ledger.failed == old(ledger.failed)
              else
                checkpoint == clock && IsSaved(old(ledger.failed))
    {
      hide FateOf, IsCopying, IsSaved, ByteSource.Valid, ByteSource.Content, ByteSource.Position;
      hide ByteSink.Writing, ByteSink.Written;
      var now := ReadClock();
      checked := copied;
      if now - checkpoint < PROGRESS_INTERVAL {
        return;
      }
      checkpoint := now;
      SaveProgress();
    }

    /** The record has the bytes copied, or the database refused to save them. */
    ghost predicate IsSaved(failed: seq<Operation>)
      reads this`copied, ledger
    {
      if ledger.failed == failed then id in ledger.rows && ledger.rows[id].bytesCopied == copied
      else
        var last := |ledger.failed| - 1;
        && last == |failed| && ledger.failed[last].Progress?
        && ledger.failed[last].id == id && ledger.failed[last].bytes == copied
    }

    method SaveProgress()
      requires IsCopying()
      modifies this`trace, ledger
      ensures IsCopying() && FateOf(trace) == old(FateOf(trace))
      ensures old(ledger.failed) <= ledger.failed && IsSaved(old(ledger.failed))
    {
      hide FateOf, Recorded, Walk;
      var now: int := *;
      TraceGrows(before, id, trace, Saved(copied, now));
      var _ := Record(Progress(id, copied, now), Saved(copied, now));
    }

    method Count(bytes: nat)
      requires IsCopying()
      modifies this`copied
      ensures IsCopying() && copied == old(copied) + bytes
    {
      hide Walk, Recorded;
      copied := copied + bytes;
    }

    /** Reading or writing has failed, and the phase says which. */
    ghost predicate Stopped(source: ByteSource, sink: ByteSink, failures: nat)
      reads this`phase, source.Changes(), sink.Objects()
    {
      if phase == SourceRead then source.Troubled()
      else
        && phase == DestinationWrite
        && forall id, name, overwrite, size :: sink.Thwarted(id, failures, name, overwrite, size)
    }

    /** Pass one chunk on; the result says whether there was one. */
    method PassChunk(source: ByteSource, sink: ByteSink, ghost content: Bytes) returns (r: Result<bool, ErrorCode>)
      requires IsCopying()
      requires Pumping(source, sink, content) && sink.ApartFrom(source)
      requires Detached(source.Objects()) && Detached(sink.Objects())
      modifies this`phase, this`copied, source.Changes(), sink.Objects()
      ensures IsCopying()
      ensures source.Releasable() && sink.Contained()
      ensures r.Ok? ==> Pumping(source, sink, content) && copied <= |content|
      ensures r == Ok(false) ==> copied == old(copied) == |content|
      ensures r == Ok(true) ==> old(copied) < copied <= old(copied) + CHUNK_SIZE
      ensures r.Ok? ==> sink.ApartFrom(source) && sink.Failures() == old(sink.Failures())
      ensures r.Err? ==> Stopped(source, sink, old(sink.Failures()))
    {
      hide ByteSource.Troubled, ByteSink.Thwarted, ByteSink.Failures;
      hide ByteSource.Valid, ByteSource.Content, ByteSource.Position, ByteSource.Releasable;
      hide ByteSink.Writing, ByteSink.Written, ByteSink.Contained, ByteSink.ApartFrom;
      hide Walk, FateOf, IsCopying;
      source.ChangesAreOwn();
      phase := SourceRead;
      var chunk := source.ReadBytes(CHUNK_SIZE, sink);
      if chunk.Err? {
        return Err(chunk.error);
      }
      if chunk.value == [] {
        return Ok(false);
      }
      r := WriteChunk(source, sink, content, chunk.value);
    }

    /** Pass a chunk that was read to the sink. */
    method WriteChunk(ghost source: ByteSource, sink: ByteSink, ghost content: Bytes, chunk: Bytes)
      returns (r: Result<bool, ErrorCode>)
      requires IsCopying() && chunk != [] && source.Valid() && source.Content() == content
      requires source.Position() == copied + |chunk| <= |content| && chunk == content[copied..copied + |chunk|]
      requires sink.Writing() && sink.Written() == content[..copied] && sink.ApartFrom(source)
      requires Detached(source.Objects()) && Detached(sink.Objects())
      modifies this`phase, this`copied, sink.Objects()
      ensures IsCopying() && source.Releasable() && sink.Contained()
      ensures r.Ok? ==>
                && r.value && Pumping(source, sink, content) && copied == old(copied) + |chunk|
                && sink.ApartFrom(source) && sink.Failures() == old(sink.Failures())
      ensures phase == DestinationWrite
      ensures r.Err? ==>
                forall id, name, overwrite, size :: sink.Thwarted(id, old(sink.Failures()), name, overwrite, size)
    {
      hide ByteSource.Valid, ByteSource.Content, ByteSource.Position, ByteSource.Releasable;
      hide ByteSink.Writing, ByteSink.Written, ByteSink.Contained, ByteSink.ApartFrom;
      hide ByteSink.Thwarted, ByteSink.Failures, Walk, FateOf, IsCopying;
      ghost var failures := sink.Failures();
      phase := DestinationWrite;
      assert sink.Failures() == failures;
      var passed := sink.WriteBytes(chunk, source);
      if passed.Err? {
        return Err(passed.error);
      }
      assert content[..copied] + chunk == content[..copied + |chunk|];
      source.ChangesAreOwn();
      Count(|chunk|);
      r := Ok(true);
    }

    /** Pass every byte of the source to the sink. */
    method Copy(source: ByteSource, sink: ByteSink) returns (r: Result<(), ErrorCode>)
      requires IsCopying() && source.Valid()
      requires Pumping(source, sink, source.Content()) && copied == 0 && sink.ApartFrom(source)
      requires Detached(source.Objects()) && Detached(sink.Objects())
      modifies this`phase, this`copied, this`checkpoint, this`clock, this`checked, this`trace, ledger
      modifies source.Changes(), sink.Objects()
      ensures IsCopying() && FateOf(trace) == old(FateOf(trace))
      ensures source.Releasable() && sink.Contained()
      ensures r.Ok? ==> Pumping(source, sink, old(source.Content())) && copied == |old(source.Content())|
      ensures r.Ok? && copied > 0 ==> checked == copied
      ensures r.Ok? ==> sink.ApartFrom(source) && sink.Failures() == old(sink.Failures())
      ensures r.Err? ==> Stopped(source, sink, old(sink.Failures()))
      ensures old(ledger.failed) <= ledger.failed
    {
      hide ByteSink.Failures, Stopped;
      hide Pumping, IsCopying, ByteSource.Content, ByteSource.Releasable;
      hide ByteSink.Contained, ByteSink.ApartFrom, Walk, FateOf;
      source.ChangesAreOwn();
      ghost var content := source.Content();
      while true
        invariant IsCopying() && FateOf(trace) == old(FateOf(trace))
        invariant Pumping(source, sink, content) && copied <= |content|
        invariant sink.ApartFrom(source) && sink.Failures() == old(sink.Failures())
        invariant old(ledger.failed) <= ledger.failed && (copied > 0 ==> checked == copied)
        decreases |content| - copied
      {
        var more := PassChunk(source, sink, content);
        if more.Err? {
          return Err(more.error);
        }
        if !more.value {
          break;
        }
        Checkpoint(source, sink, content);
      }
      r := Ok(());
    }

    method MarkReady() returns (r: Result<(), ErrorCode>)
      requires IsCopying()
      modifies this`trace, ledger
      ensures Following() && CanFail(Walk(trace).value) && FateOf(trace) == old(FateOf(trace))
      ensures r.Ok? ==> Walk(trace) == Some(Ready(copied)) && ledger.failed == old(ledger.failed)
      ensures r.Err? ==> IsCopying() && old(ledger.failed) <= ledger.failed
      ensures r.Err? ==> forall from: nat :: from <= |old(ledger.failed)| ==> Refused(ledger.failed, from, id)
    {
      hide FateOf, Recorded, Refused, Unrecorded;
      var now: int := *;
      RefusedLast(ledger.failed, Mark(id, copied, now), id);
      TraceGrows(before, id, trace, Marked(copied, now));
      r := Record(Mark(id, copied, now), Marked(copied, now));
    }

    /** Store every byte for good, and commit `publishing`. */
    method Prepare(sink: ByteSink, ghost source: ByteSource, ghost name: Bytes, ghost overwrite: bool)
      returns (r: Result<(), ErrorCode>)
      requires IsCopying() && source.Valid() && sink.ApartFrom(source) && sink.StagedAs(id, name, overwrite)
      requires sink.Writing() && copied == |sink.Written()|
      requires Detached(source.Objects()) && Detached(sink.Objects())
      modifies this`phase, this`trace, ledger, sink.Objects()
      ensures Following() && CanFail(Walk(trace).value) && FateOf(trace) == old(FateOf(trace))
      ensures source.Releasable() && sink.Contained() && sink.Written() == old(sink.Written())
      ensures r.Ok? ==> Walk(trace) == Some(Ready(copied)) && sink.Stored() && sink.Failures() == old(sink.Failures())
      ensures r.Err? ==> IsCopying()
      ensures r.Ok? ==> phase == Publication
      ensures r.Err? ==>
                if phase == Publication then
                  forall from: nat :: from <= |old(ledger.failed)| ==> Refused(ledger.failed, from, id)
                else phase == DestinationWrite && sink.Thwarted(id, old(sink.Failures()), name, overwrite, copied)
      ensures old(ledger.failed) <= ledger.failed
    {
      hide ByteSink.Thwarted, ByteSink.Failures, ByteSink.StagedAs, Refused;
      hide FateOf, Following, Walk, Recorded, ByteSource.Valid, ByteSource.Releasable, ByteSource.Content;
      hide ByteSink.Writing, ByteSink.Written, ByteSink.Contained, ByteSink.Stored, ByteSink.ApartFrom;
      source.ChangesAreOwn();
      phase := DestinationWrite;
      r := sink.Finish(source, id, name, overwrite);
      if r.Err? {
        return;
      }
      sink.StoredIsContained();
      phase := Publication;
      r := MarkReady();
    }

    /** Copy everything and make it ready to publish. */
    method Fill(source: ByteSource, sink: ByteSink, ghost name: Bytes, ghost overwrite: bool)
      returns (r: Result<(), ErrorCode>)
      requires IsCopying() && source.Valid() && sink.StagedAs(id, name, overwrite)
      requires Pumping(source, sink, source.Content()) && copied == 0 && sink.ApartFrom(source)
      requires Detached(source.Objects()) && Detached(sink.Objects())
      modifies this`phase, this`copied, this`checkpoint, this`clock, this`checked, this`trace, ledger
      modifies source.Changes(), sink.Objects()
      ensures Following() && CanFail(Walk(trace).value) && FateOf(trace) == old(FateOf(trace))
      ensures source.Releasable() && sink.Contained()
      ensures r.Ok? ==>
                && Walk(trace) == Some(Ready(copied)) && copied == |sink.Written()|
                && sink.Stored() && sink.Written() == old(source.Content()) && sink.Failures() == old(sink.Failures())
      ensures r.Err? ==> IsCopying()
      ensures r.Ok? ==> phase == Publication
      ensures r.Err? ==>
                match phase
                case SourceRead => source.Troubled()
                case DestinationWrite => sink.Thwarted(id, old(sink.Failures()), name, overwrite, copied)
                case Publication => Refused(ledger.failed, |old(ledger.failed)|, id)
                case _ => false
      ensures old(ledger.failed) <= ledger.failed
    {
      hide ByteSink.Thwarted, ByteSink.Failures, ByteSource.Troubled, ByteSink.StagedAs, Refused;
      hide FateOf, Following, Walk, ByteSource.Valid, ByteSource.Releasable, ByteSource.Position;
      hide ByteSink.Writing, ByteSink.Written, ByteSink.Contained, ByteSink.Stored, ByteSink.ApartFrom;
      source.ChangesAreOwn();
      ghost var content := source.Content();
      r := Copy(source, sink);
      if r.Ok? {
        assert content[..copied] == content;
        r := Prepare(sink, source, name, overwrite);
      }
    }

    /** End the write of a stage that is ready: publish it, and note what is known of that. */
    method Ship(sink: ByteSink, name: Bytes, overwrite: bool) returns (r: Result<(), ErrorCode>)
      requires Following() && Walk(trace) == Some(Ready(copied)) && FateOf(trace) == Hidden
      requires sink.Stored() && sink.StagedAs(id, name, overwrite) && IsValid(name) && copied == |sink.Written()|
      requires Detached(sink.Objects())
      modifies this`trace, sink.Objects()
      ensures Following() && sink.Records(id, name, overwrite, ShownBy(FateOf(trace)))
      ensures sink.Alone() ==> Fits(FateOf(trace), sink.Now(), sink.Origin(), name)
      ensures r.Ok? ==>
                && Walk(trace) == Some(Visible(old(sink.Written()))) && FateOf(trace) == Shown(old(sink.Written()))
                && (sink.Alone() && !overwrite ==> sink.Origin().At(name) == None)
      ensures r.Err? ==> sink.Thwarted(id, old(sink.Failures()), name, overwrite, copied)
      ensures r.Err? ==> CanFail(Walk(trace).value) && !FateOf(trace).Shown?
      ensures FateOf(trace).Unknown? ==> sink.Untold(id, name, overwrite)
    {
      hide Recorded, Untouched, Placed, IsValid, ByteSink.Stored, ByteSink.StagedAs, ByteSink.Written;
      hide ByteSink.Now, ByteSink.Origin, ByteSink.Untold, Following, Walk, FateOf, Fits, Advance;
      hide ByteSink.Records, ByteSink.Thwarted, ByteSink.Failures;
      ghost var payload := sink.Written();
      ghost var unanswered;
      r, unanswered := sink.Commit(id, name, overwrite);
      ShippingFits(payload, sink.Now(), sink.Origin(), name);
      ReadyShips(payload);
      if r.Ok? {
        Note(Published(payload));
      } else if unanswered {
        Note(Unanswered(payload, Placed(sink.Now(), sink.Origin(), name, payload)));
      }
    }

    lemma ReadyShips(payload: Bytes)
      ensures Advance(Ready(|payload|), Published(payload)) == Some(Visible(payload))
      ensures forall happened :: Advance(Ready(|payload|), Unanswered(payload, happened)) ==
                                 Some(Doubtful(payload, happened))
    {
    }

    lemma ShippingFits(payload: Bytes, now: View, origin: View, name: Bytes)
      ensures Untouched(now, origin) ==>
                Fits(Hidden, now, origin, name) && Fits(Unknown(payload, false), now, origin, name)
      ensures Placed(now, origin, name, payload) ==>
                Fits(Shown(payload), now, origin, name) && Fits(Unknown(payload, true), now, origin, name)
    {
      hide Untouched, Placed;
    }

    /** An event of the destination commits nothing. */
    ghost method Note(event: Event)
      requires Following() && Change(id, event) == None
      requires Advance(Walk(trace).value, event).Some?
      requires event.Published? || (event.Unanswered? && |event.payload| == copied)
      modifies this`trace
      ensures Following() && trace == old(trace) + [event]
      ensures Walk(trace) == Advance(old(Walk(trace)).value, event)
      ensures FateOf(trace) ==
              if event.Published? then Shown(event.payload) else Unknown(event.payload, event.happened)
    {
      hide FateOf, Recorded, Walk;
      TraceGrows(before, id, trace, event);
      trace := trace + [event];
    }

    /** What is known when the attempt is over; nothing is left open but the record. */
    ghost predicate Settled(published: bool, content: Bytes)
      reads this`copied, this`trace, ledger
    {
      && Following()
      && (published ==> Walk(trace) == Some(Visible(content)) && FateOf(trace) == Shown(content))
      && (!published ==> CanFail(Walk(trace).value) && !FateOf(trace).Shown?)
    }

    /** The phase says what has failed: the source, the destination, or the record of the publication. */
    ghost predicate Blamed(
      source: ByteSource, directory: Directory, failures: nat, from: nat, name: Bytes, overwrite: bool)
      reads this`phase, this`copied, ledger, source.Changes(), directory.Objects()
    {
      match phase
      case SourceRead => source.Troubled()
      case DestinationOpen => directory.Thwarts(id, failures, name, overwrite, copied)
      case DestinationWrite => directory.Thwarts(id, failures, name, overwrite, copied)
      case Publication =>
        directory.Thwarts(id, failures, name, overwrite, copied) || Refused(ledger.failed, from, id)
      case _ => false
    }

    /** Write the destination while the source is open. */
    method Deliver(source: ByteSource, directory: Directory, name: Bytes, overwrite: bool)
      returns (r: Result<(), ErrorCode>)
      requires IsCopying() && copied == 0 && FateOf(trace) == Hidden && IsValid(name)
      requires source.Valid() && source.Position() == 0
      requires directory.Ready(id) && directory.ApartFrom(source)
      requires Detached(source.Objects()) && Detached(directory.Objects())
      modifies this`phase, this`copied, this`checkpoint, this`clock, this`checked, this`trace, ledger
      modifies source.Changes(), directory.Objects()
      ensures source.Releasable()
      ensures Settled(r.Ok?, old(source.Content()))
      ensures directory.Records(id, name, overwrite, ShownBy(FateOf(trace)))
      ensures directory.Alone() ==> Fits(FateOf(trace), directory.Now(), old(directory.Now()), name)
      ensures directory.Alone() && r.Ok? && !overwrite ==> old(directory.Now()).At(name) == None
      ensures r.Err? ==> Blamed(source, directory, old(directory.Failures()), |old(ledger.failed)|, name, overwrite)
      ensures old(ledger.failed) <= ledger.failed
      ensures FateOf(trace).Unknown? ==> directory.Untold(id, name, overwrite)
    {
      hide ByteSink.Untold, Directory.Untold;
      hide Following, Walk, FateOf, Untouched, Placed, IsValid, ByteSource.Valid, ByteSource.Releasable;
      hide ByteSource.Content, ByteSource.Position, ByteSink.Stored, ByteSink.Writing, ByteSink.StagedAs;
      hide ByteSink.Written, ByteSink.Contained, ByteSink.ApartFrom, ByteSink.Now, ByteSink.Origin, Directory.Now;
      hide Directory.Ready, Directory.ApartFrom, ByteSink.Within, View.At;
      hide ByteSource.Troubled, ByteSink.Thwarted, Directory.Thwarts, ByteSink.Failures, Directory.Failures;
      hide ByteSink.Records, Directory.Records, ByteSink.Alone, Directory.Alone, Refused, Fits;
      source.ChangesAreOwn();
      directory.ApartMeans(source);
      ghost var first := directory.Now();
      phase := DestinationOpen;
      ghost var failures := directory.Failures();
      var begun := directory.Begin(id, name, overwrite, source);
      if begun.Err? {
        source.ValidIsReleasable();
        ShippingFits([], directory.Now(), first, name);
        assert directory.Thwarts(id, failures, name, overwrite, copied);
        return Err(begun.error);
      }
      var sink := begun.value;
      sink.ApartMeans(source);
      directory.Shows(sink, id, name, overwrite);
      r := Fill(source, sink, name, overwrite);
      if r.Err? {
        sink.Abandon(id, name, overwrite);
      } else {
        r := Ship(sink, name, overwrite);
      }
      directory.Shows(sink, id, name, overwrite);
      if directory.Alone() {
        FitsAfter(FateOf(trace), sink.Now(), sink.Origin(), first, name);
      }
    }

    /** The transfer up to its final record: the outcome of opening the source, then the delivery,
        then the release of the source, whose failure no longer matters once the file is published. */
    method Attempt(opening: Result<ByteSource, (Phase, ErrorCode)>, directory: Directory, name: Bytes, overwrite: bool)
      returns (r: Result<(), ErrorCode>, published: bool)
      requires IsCopying() && copied == 0 && FateOf(trace) == Hidden && IsValid(name) && directory.Ready(id)
      requires opening.Ok? ==>
                 && opening.value.Valid() && opening.value.Position() == 0
                 && directory.ApartFrom(opening.value) && Detached(opening.value.Objects())
      requires Detached(directory.Objects())
      modifies this`phase, this`copied, this`checkpoint, this`clock, this`checked, this`trace, ledger
      modifies if opening.Ok? then opening.value.Changes() else {}, directory.Objects()
      ensures opening.Err? ==> !published
      ensures Settled(published, if opening.Ok? then old(opening.value.Content()) else [])
      ensures !published ==> r.Err?
      ensures directory.Records(id, name, overwrite, ShownBy(FateOf(trace)))
      ensures directory.Alone() ==> Fits(FateOf(trace), directory.Now(), old(directory.Now()), name)
      ensures directory.Alone() && published && !overwrite ==> old(directory.Now()).At(name) == None
      ensures opening.Err? ==> phase == opening.error.0 && r == Err(opening.error.1)
      ensures opening.Ok? && !published ==>
                Blamed(opening.value, directory, old(directory.Failures()), |old(ledger.failed)|, name, overwrite)
      ensures old(ledger.failed) <= ledger.failed
      ensures FateOf(trace).Unknown? ==> directory.Untold(id, name, overwrite)
    {
      hide Directory.Untold;
      hide Following, Walk, FateOf, Untouched, Placed, IsValid, ByteSource.Valid, ByteSource.Releasable;
      hide ByteSource.Content, ByteSource.Position, Directory.Now, Directory.Ready, Directory.ApartFrom, View.At;
      hide ByteSource.Troubled, Directory.Thwarts, Directory.Failures, Directory.Records, Directory.Alone, Refused;
      hide Fits;
      ghost var first := directory.Now();
      published := false;
      match opening {
        case Err((at, code)) =>
          phase := at;
          UnchangedFits(first, name);
          directory.ReadyRecords(id, name, overwrite);
          r := Err(code);
        case Ok(source) =>
          source.ChangesAreOwn();
          directory.ApartMeans(source);
          r := Deliver(source, directory, name, overwrite);
          published := r.Ok?;
          var released := source.Release();
          r := if released.Err? then released else r;
      }
    }

    lemma UnchangedFits(view: View, name: Bytes)
      ensures Fits(Hidden, view, view, name)
    {
    }

    /** Complete the record of a published transfer; a record that cannot be completed stays
        `publishing`. */
    method Complete(ghost content: Bytes) returns (r: Result<Row, Failure>)
      requires Settled(true, content)
      modifies this`trace, ledger
      ensures Following() && FateOf(trace) == Shown(content) && id in ledger.rows
      ensures r.Ok? ==> r.value == ledger.rows[id] && r.value.status == Completed && r.value.bytesCopied == |content|
      ensures r.Err? ==> r.error in {Typed(TransferRecordFailed), Untyped} && ledger.rows == old(ledger.rows)
      ensures r.Err? ==> ledger.rows[id].status == Publishing
      ensures r.Err? ==> forall from: nat :: from <= |old(ledger.failed)| ==> Refused(ledger.failed, from, id)
    {
      hide FateOf, Recorded, Walk, Refused, Unrecorded;
      var now: int := *;
      RefusedLast(ledger.failed, Finish(id, now), id);
      ghost var event := Finished(now);
      RecordFollows(before, id, trace);
      DueEventCommits(ledger.rows, id, Walk(trace).value, event);
      TraceGrows(before, id, trace, event);
      var done := ledger.FinishTransfer(id, now);
      if done.Err? {
        return Err(if done.error.Typed? then Typed(TransferRecordFailed) else Untyped);
      }
      trace := trace + [event];
      r := Ok(done.value);
    }

    /** The record of a transfer that failed, as the transfer knows it. */
    ghost predicate FailedAs(code: ErrorCode)
      reads this`copied, this`phase, ledger
    {
      && id in ledger.rows && ledger.rows[id].status == Failed
      && ledger.rows[id].bytesCopied == copied && ledger.rows[id].failurePhase == Some(phase)
      && ledger.rows[id].errorCode == Some(code)
    }

    /** Record the failure of a transfer that published nothing, as far as it knows. A failure that the
        database refuses to record is only logged, and leaves the record open. */
    method GiveUp(code: ErrorCode)
      requires Settled(false, [])
      modifies this`trace, ledger
      ensures Following() && FateOf(trace) == old(FateOf(trace))
      ensures id in ledger.rows && (FailedAs(code) || !Terminal(ledger.rows[id]))
      ensures old(ledger.failed) <= ledger.failed
      ensures if FailedAs(code) then ledger.failed == old(ledger.failed)
              else
                && |ledger.failed| == |old(ledger.failed)| + 1
                && IsEnding(ledger.failed[|old(ledger.failed)|], id)
    {
      hide FateOf, Recorded, Walk;
      var now: int := *;
      var message: string := *;
      ghost var event := GaveUp(copied, phase, code, Message.Text(message), now);
      TraceGrows(before, id, trace, event);
      RecordFollows(before, id, trace);
      var _ := Record(Fail(id, copied, phase, code, Message.Text(message), now), event);
    }

    /** Run one transfer. A completed record means that the destination holds exactly the bytes of
        the opened source, and states their number. On any failure the destination is untouched,
        except that an unanswered publication may have happened, and that a published transfer whose
        record cannot be completed reports just that and stays `publishing`. */
    method Run(opening: Result<ByteSource, (Phase, ErrorCode)>, directory: Directory, name: Bytes, overwrite: bool)
      returns (r: Result<Row, Failure>)
      requires Following() && trace == [] && copied == 0 && IsValid(name) && directory.Ready(id)
      requires opening.Ok? ==>
                 && opening.value.Valid() && opening.value.Position() == 0
                 && directory.ApartFrom(opening.value) && Detached(opening.value.Objects())
      requires Detached(directory.Objects())
      modifies this`phase, this`copied, this`checkpoint, this`clock, this`checked, this`trace, ledger
      modifies if opening.Ok? then opening.value.Changes() else {}, directory.Objects()
      ensures Following()
      ensures directory.Alone() ==> Fits(FateOf(trace), directory.Now(), old(directory.Now()), name)
      ensures directory.Records(id, name, overwrite, ShownBy(FateOf(trace)))
      ensures r.Ok? ==>
                && opening.Ok? && FateOf(trace) == Shown(old(opening.value.Content()))
                && id in ledger.rows && r.value == ledger.rows[id]
                && r.value.status == Completed && r.value.bytesCopied == |old(opening.value.Content())|
                && (directory.Alone() && !overwrite ==> old(directory.Now()).At(name) == None)
      ensures r.Err? && (id !in ledger.rows || FateOf(trace).Shown?) ==>
                Refused(ledger.failed, |old(ledger.failed)|, id)
      ensures r.Err? && id in ledger.rows && !FateOf(trace).Shown? ==>
                if opening.Err? then phase == opening.error.0 && r.error == Typed(opening.error.1)
                else Blamed(opening.value, directory, old(directory.Failures()), |old(ledger.failed)|, name, overwrite)
      ensures FateOf(trace).Unknown? ==> directory.Untold(id, name, overwrite)
      ensures r.Err? && !FateOf(trace).Shown? ==>
                || (r.error.Typed? && FailedAs(r.error.code))
                || (Unrecorded(ledger.failed, |old(ledger.failed)|, id)
                    && (id in ledger.rows ==> !Terminal(ledger.rows[id])))
      ensures r.Err? && FateOf(trace).Shown? ==>
                r.error in {Typed(TransferRecordFailed), Untyped} && id in ledger.rows
                && ledger.rows[id].status == Publishing
    {
      hide Untouched, Placed, IsValid, ByteSource.Valid, ByteSource.Content, ByteSource.Position, Directory.Now;
      hide Directory.Ready, Directory.ApartFrom, Directory.Untold, View.At, Fits, Walk, FateOf, Recorded;
      hide ByteSource.Troubled, Directory.Thwarts, Directory.Failures, Directory.Records, Directory.Alone, Refused;
      ghost var content := if opening.Ok? then opening.value.Content() else [];
      UnchangedFits(directory.Now(), name);
      directory.ReadyRecords(id, name, overwrite);
      var begun := Begin();
      if begun.Err? {
        return Err(Typed(begun.error));
      }
      var done, published := Attempt(opening, directory, name, overwrite);
      if published {
        r := Complete(content);
      } else {
        ForgetContent(content);
        ghost var failed := ledger.failed;
        GiveUp(done.error);
        RefusedStays(failed, ledger.failed, id);
        r := Err(Typed(done.error));
      }
    }

    lemma ForgetContent(content: Bytes)
      requires Settled(false, content)
      ensures Settled(false, []) && !FateOf(trace).Shown?
    {
    }

    /** Insert the record. */
    method Begin() returns (r: Result<(), ErrorCode>)
      requires Following() && trace == []
      modifies this`checkpoint, this`trace, ledger
      ensures Following() && FateOf(trace) == Hidden
      ensures r.Ok? ==> IsCopying() && ledger.failed == old(ledger.failed)
      ensures r.Err? ==>
                && trace == [] && id !in ledger.rows
                && Refused(ledger.failed, |old(ledger.failed)|, id)
                && Unrecorded(ledger.failed, |old(ledger.failed)|, id)
    {
      hide Recorded, Refused, Unrecorded;
      RecordFollows(before, id, trace);
      var now: int := *;
      TraceGrows(before, id, trace, Started(now));
      RefusedLast(ledger.failed, Start(id, now), id);
      r := Record(Start(id, now), Started(now));
      checkpoint := *;
    }
  }
}
