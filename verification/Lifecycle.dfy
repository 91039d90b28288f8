/** One transfer as its record and its destination see it: the events it can cause, in what order. */
module Lifecycle {
  import opened Common
  import opened Store

  /** A committed change of the record, or the publication. `Unanswered` is a publication whose reply
      was lost: whether it happened is known to the server only. */
  datatype Event =
    | Started(now: Time)
    | Saved(bytes: nat, now: Time)
    | Marked(bytes: nat, now: Time)
    | Published(payload: Bytes)
    | Unanswered(payload: Bytes, happened: bool)
    | Finished(now: Time)
    | GaveUp(bytes: nat, phase: Phase, code: ErrorCode, message: Message, now: Time)

  datatype Place =
    | Idle
    | Copying(saved: nat)
    | Ready(bytes: nat)
    | Visible(payload: Bytes)
    | Doubtful(payload: Bytes, happened: bool)
    | Over

  /** The order of events: nothing is published before the record says `publishing`, and once a
      publication is known to have happened the transfer can only complete. */
  function Advance(place: Place, event: Event): Option<Place> {
    match (place, event)
    case (Idle, Started(_)) => Some(Copying(0))
    case (Copying(saved), Saved(bytes, _)) => if saved <= bytes then Some(Copying(bytes)) else None
    case (Copying(saved), Marked(bytes, _)) => if saved <= bytes then Some(Ready(bytes)) else None
    case (Copying(saved), GaveUp(bytes, _, _, Text(_), _)) => if saved <= bytes then Some(Over) else None
    case (Ready(bytes), Published(payload)) => if |payload| == bytes then Some(Visible(payload)) else None
    case (Ready(bytes), Unanswered(payload, happened)) =>
      if |payload| == bytes then Some(Doubtful(payload, happened)) else None
    case (Ready(bytes), GaveUp(copied, _, _, Text(_), _)) => if copied == bytes then Some(Over) else None
    case (Doubtful(payload, _), GaveUp(copied, _, _, Text(_), _)) => if copied == |payload| then Some(Over) else None
    case (Visible(_), Finished(_)) => Some(Over)
    case _ => None
  }

  function Walk(trace: seq<Event>): Option<Place> {
    if trace == [] then Some(Idle)
    else
      var before := Walk(trace[..|trace| - 1]);
      if before.None? then None else Advance(before.value, trace[|trace| - 1])
  }

  /** The change an event commits, if it commits one. */
  function Change(id: Id, event: Event): Option<Operation> {
    match event
    case Started(now) => Some(Start(id, now))
    case Saved(bytes, now) => Some(Progress(id, bytes, now))
    case Marked(bytes, now) => Some(Mark(id, bytes, now))
    case Finished(now) => Some(Finish(id, now))
    case GaveUp(bytes, phase, code, message, now) => Some(Fail(id, bytes, phase, code, message, now))
    case _ => None
  }

  function Committed(rows: Rows, id: Id, event: Event): Rows {
    var change := Change(id, event);
    if change.None? then rows
    else
      var after := Apply(rows, change.value);
      if after.Ok? then after.value else rows
  }

  function Recorded(rows: Rows, id: Id, trace: seq<Event>): Rows {
    if trace == [] then rows
    else Committed(Recorded(rows, id, trace[..|trace| - 1]), id, trace[|trace| - 1])
  }

  /** What the record of a transfer says at each place. */
  predicate RowAt(rows: Rows, id: Id, place: Place) {
    match place
    case Idle => id !in rows
    case Copying(saved) => id in rows && rows[id].status == Running && rows[id].bytesCopied == saved
    case Ready(bytes) => id in rows && rows[id].status == Publishing && rows[id].bytesCopied == bytes
    case Visible(payload) => id in rows && rows[id].status == Publishing && rows[id].bytesCopied == |payload|
    case Doubtful(payload, _) => id in rows && rows[id].status == Publishing && rows[id].bytesCopied == |payload|
    case Over => id in rows && Terminal(rows[id])
  }

  /** An event that is due is never a conflict, and touches no other record. */
  lemma DueEventCommits(rows: Rows, id: Id, place: Place, event: Event)
    requires RowAt(rows, id, place) && Advance(place, event).Some?
    ensures Change(id, event).Some? ==> Apply(rows, Change(id, event).value) == Ok(Committed(rows, id, event))
    ensures RowAt(Committed(rows, id, event), id, Advance(place, event).value)
    ensures forall other :: other != id ==>
              && (other in Committed(rows, id, event) <==> other in rows)
              && (other in rows ==> Committed(rows, id, event)[other] == rows[other])
    ensures id in rows ==> rows[id].bytesCopied <= Committed(rows, id, event)[id].bytesCopied
  {
  }

  lemma {:induction false} RecordFollows(rows: Rows, id: Id, trace: seq<Event>)
    requires id !in rows && Walk(trace).Some?
    ensures RowAt(Recorded(rows, id, trace), id, Walk(trace).value)
    ensures forall other :: other != id ==>
              && (other in Recorded(rows, id, trace) <==> other in rows)
              && (other in rows ==> Recorded(rows, id, trace)[other] == rows[other])
  {
    hide Advance, Committed;
    if trace != [] {
      var before, event := trace[..|trace| - 1], trace[|trace| - 1];
      RecordFollows(rows, id, before);
      DueEventCommits(Recorded(rows, id, before), id, Walk(before).value, event);
    }
  }

  /** The bytes a record shows never decrease, at any step of any trace. */
  lemma {:induction false} PersistedBytesGrow(rows: Rows, id: Id, trace: seq<Event>, k: nat)
    requires id !in rows && Walk(trace).Some? && 0 < k <= |trace|
    ensures Walk(trace[..k]).Some?
    ensures id in Recorded(rows, id, trace[..k]) && id in Recorded(rows, id, trace)
    ensures Recorded(rows, id, trace[..k])[id].bytesCopied <= Recorded(rows, id, trace)[id].bytesCopied
  {
    hide Committed;
    var before, event := trace[..|trace| - 1], trace[|trace| - 1];
    if k < |trace| {
      assert before[..k] == trace[..k];
      PersistedBytesGrow(rows, id, before, k);
      RecordFollows(rows, id, before);
      DueEventCommits(Recorded(rows, id, before), id, Walk(before).value, event);
    } else {
      assert trace[..k] == trace;
      RecordFollows(rows, id, trace);
    }
  }

  /** Once the destination is known to be published, the transfer can only complete. */
  lemma {:induction false} PublishedOnlyCompletes(trace: seq<Event>, i: nat)
    requires Walk(trace).Some? && i < |trace| && trace[i].Published?
    ensures Walk(trace) == Some(Visible(trace[i].payload)) || Walk(trace) == Some(Over)
    ensures forall j :: i < j < |trace| ==> trace[j].Finished?
    ensures forall j :: 0 <= j < |trace| ==> !trace[j].GaveUp?
    ensures Walk(trace) == Some(Visible(trace[i].payload)) <==> i == |trace| - 1
  {
    var last := |trace| - 1;
    if i < last {
      PublishedOnlyCompletes(trace[..last], i);
    } else {
      NotYetOver(trace[..last]);
    }
  }

  /** Until a trace is over, nothing in it has failed. */
  lemma {:induction false} NotYetOver(trace: seq<Event>)
    requires Walk(trace).Some? && !Walk(trace).value.Over?
    ensures forall j :: 0 <= j < |trace| ==> !trace[j].GaveUp?
  {
    if trace != [] {
      NotYetOver(trace[..|trace| - 1]);
    }
  }
}
