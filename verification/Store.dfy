/** Transfer records: compare-and-set transitions in transactions, and recovery at startup. */
module Store {
  import opened Common

  type Id = Bytes
  type Time = int

  datatype Status = Running | Publishing | Completed | Failed

  datatype Phase =
    | SourceLookup | DestinationLookup | SourceOpen | DestinationOpen
    | SourceRead | DestinationWrite | Publication | Interruption

  datatype Message = Text(text: string) | InterruptedCopying | InterruptedPublishing

  datatype Row = Row(
    status: Status,
    startedAt: Time,
    updatedAt: Time,
    completedAt: Option<Time>,
    failedAt: Option<Time>,
    bytesCopied: nat,
    failurePhase: Option<Phase>,
    errorCode: Option<ErrorCode>,
    error: Option<Message>)

  type Rows = map<Id, Row>

  /** How an operation fails: with an error of the service, or with an exception that is none. */
  datatype Failure = Typed(code: ErrorCode) | Untyped

  datatype Operation =
    | Start(id: Id, now: Time)
    | Progress(id: Id, bytes: nat, now: Time)
    | Mark(id: Id, bytes: nat, now: Time)
    | Finish(id: Id, now: Time)
    | Fail(id: Id, bytes: nat, phase: Phase, code: ErrorCode, message: Message, now: Time)
    | Recover(now: Time)

  predicate Terminal(row: Row) {
    row.status in {Completed, Failed}
  }

  function Recovered(row: Row, now: Time): Row {
    if Terminal(row) then row
    else
      row.(
        status := Failed, updatedAt := now, failedAt := Some(now),
        failurePhase := Some(Interruption), errorCode := Some(TransferInterrupted),
        error := Some(if row.status == Publishing then InterruptedPublishing else InterruptedCopying))
  }

  function RecoverAll(rows: Rows, now: Time): Rows {
    map id | id in rows :: Recovered(rows[id], now)
  }

  /** The committed outcome of one operation: a conflict if the record's status does not admit it, and a
      database failure if a new record's identifier is taken. */
  function Apply(rows: Rows, op: Operation): Result<Rows, ErrorCode> {
    match op
    case Recover(now) => Ok(RecoverAll(rows, now))
    case Start(id, now) =>
      if id in rows then Err(TransferRecordFailed)
      else Ok(rows[id := Row(Running, now, now, None, None, 0, None, None, None)])
    case Progress(id, bytes, now) =>
      if id in rows && rows[id].status == Running
      then Ok(rows[id := rows[id].(bytesCopied := bytes, updatedAt := now)])
      else Err(TransferStateConflict)
    case Mark(id, bytes, now) =>
      if id in rows && rows[id].status == Running
      then Ok(rows[id := rows[id].(status := Publishing, bytesCopied := bytes, updatedAt := now)])
      else Err(TransferStateConflict)
    case Finish(id, now) =>
      if id in rows && rows[id].status == Publishing
      then Ok(rows[id := rows[id].(status := Completed, completedAt := Some(now), updatedAt := now)])
      else Err(TransferStateConflict)
    case Fail(id, bytes, phase, code, message, now) =>
      if id in rows && rows[id].status in {Running, Publishing}
      then Ok(rows[id := rows[id].(
                status := Failed, failedAt := Some(now), updatedAt := now, bytesCopied := bytes,
                failurePhase := Some(phase), errorCode := Some(code), error := Some(message))])
      else Err(TransferStateConflict)
  }

  /** The records after any operations; one that is refused or whose commit fails changes nothing. */
  function Run(rows: Rows, history: seq<(Operation, bool)>): Rows {
    if history == [] then rows
    else
      var before := Run(rows, history[..|history| - 1]);
      var (op, committed) := history[|history| - 1];
      var after := Apply(before, op);
      if committed && after.Ok? then after.value else before
  }

  /** The status of a record determines which of its fields are set. */
  predicate WellFormed(row: Row) {
    && (row.completedAt.Some? <==> row.status == Completed)
    && (row.failedAt.Some? <==> row.status == Failed)
    && (row.failurePhase.Some? <==> row.status == Failed)
    && (row.errorCode.Some? <==> row.status == Failed)
    && (row.error.Some? <==> row.status == Failed)
  }

  lemma ApplyKeepsWellFormed(rows: Rows, op: Operation)
    requires forall id :: id in rows ==> WellFormed(rows[id])
    ensures Apply(rows, op).Ok? ==>
              forall id :: id in Apply(rows, op).value ==> WellFormed(Apply(rows, op).value[id])
  {
  }

  lemma {:induction false} RecordsStayWellFormed(rows: Rows, history: seq<(Operation, bool)>)
    requires forall id :: id in rows ==> WellFormed(rows[id])
    ensures forall id :: id in Run(rows, history) ==> WellFormed(Run(rows, history)[id])
  {
    hide Apply, WellFormed;
    if history != [] {
      RecordsStayWellFormed(rows, history[..|history| - 1]);
      ApplyKeepsWellFormed(Run(rows, history[..|history| - 1]), history[|history| - 1].0);
    }
  }

  /** A completed or failed record never changes again, and no record disappears. */
  lemma {:induction false} TerminalRecordsAreFinal(rows: Rows, history: seq<(Operation, bool)>, id: Id)
    requires id in rows
    ensures id in Run(rows, history)
    ensures Terminal(rows[id]) ==> Run(rows, history)[id] == rows[id]
  {
    if history != [] {
      TerminalRecordsAreFinal(rows, history[..|history| - 1], id);
    }
  }

  /** The order statuses can be reached in. */
  function Rank(status: Status): nat {
    match status
    case Running => 0
    case Publishing => 1
    case Completed => 2
    case Failed => 2
  }

  /** Statuses only move forward, and a record is completed only out of `publishing`. */
  lemma {:induction false} StatusesMoveForward(rows: Rows, history: seq<(Operation, bool)>, id: Id)
    requires id in rows
    ensures id in Run(rows, history)
    ensures Rank(rows[id].status) <= Rank(Run(rows, history)[id].status)
    ensures rows[id].status == Running && Run(rows, history)[id].status == Completed ==>
              exists k :: 0 <= k < |history| && id in Run(rows, history[..k])
                          && Run(rows, history[..k])[id].status == Publishing
  {
    if history != [] {
      var last := |history| - 1;
      StatusesMoveForward(rows, history[..last], id);
      if Run(rows, history)[id].status == Completed && Run(rows, history[..last])[id].status == Completed {
        if rows[id].status == Running {
          var k :| 0 <= k < last && id in Run(rows, history[..last][..k])
            && Run(rows, history[..last][..k])[id].status == Publishing;
          assert history[..last][..k] == history[..k];
        }
      }
    }
  }

  /** Once a record is `publishing` its byte count is final; only a failure states its own. */
  lemma {:induction false} BytesAreFinalOncePublishing(rows: Rows, history: seq<(Operation, bool)>, id: Id)
    requires id in rows && rows[id].status in {Publishing, Completed}
    ensures id in Run(rows, history)
    ensures Run(rows, history)[id].status != Failed ==>
              && Run(rows, history)[id].bytesCopied == rows[id].bytesCopied
              && Run(rows, history)[id].status in {Publishing, Completed}
  {
    if history != [] {
      BytesAreFinalOncePublishing(rows, history[..|history| - 1], id);
    }
  }

  /** A second recovery, with nothing in between, changes nothing. */
  lemma RecoveryIsIdempotent(rows: Rows, now: Time, later: Time)
    ensures RecoverAll(RecoverAll(rows, now), later) == RecoverAll(rows, now)
  {
  }

  /** The database behind the service. A commit that fails changes nothing. */
  /** A change at this time was committed. */
  ghost predicate ChangedAt(history: seq<(Operation, bool)>, now: Time) {
    exists i :: 0 <= i < |history| && history[i].1 && history[i].0.now == now
  }

  /** The record was inserted at this time. */
  ghost predicate StartedAt(history: seq<(Operation, bool)>, id: Id, now: Time) {
    exists i :: 0 <= i < |history| && history[i] == (Start(id, now), true)
  }

  /** The times of a record are those of its changes: it began when it was inserted, was updated by a change
      that was committed then, and ended, if it has, with its last update. */
  lemma {:induction false} TimesAreTrue(history: seq<(Operation, bool)>, id: Id)
    requires id in Run(map[], history)
    ensures var row := Run(map[], history)[id];
            && StartedAt(history, id, row.startedAt) && ChangedAt(history, row.updatedAt)
            && (row.status == Completed ==> row.completedAt == Some(row.updatedAt))
            && (row.status == Failed ==> row.failedAt == Some(row.updatedAt))
  {
    hide WellFormed;
    if history != [] {
      var before, last := history[..|history| - 1], history[|history| - 1];
      var was := Run(map[], before);
      assert last == (last.0, last.1);
      if id in was {
        TimesAreTrue(before, id);
        var i :| 0 <= i < |before| && before[i] == (Start(id, was[id].startedAt), true);
        assert history[i] == before[i];
        var j :| 0 <= j < |before| && before[j].1 && before[j].0.now == was[id].updatedAt;
        assert history[j] == before[j];
      }
    }
  }

  class Ledger {
    var rows: Rows
    ghost var failed: seq<Operation>  // the changes that the database did not commit

    constructor (rows: Rows)
      ensures this.rows == rows
    {
      this.rows, failed := rows, [];
    }

    method Record(op: Operation) returns (r: Result<(), ErrorCode>)
      modifies this
      ensures r.Ok? ==> Apply(old(rows), op) == Ok(rows) && failed == old(failed)
      ensures r.Err? ==>
                && rows == old(rows)
                && (failed == old(failed) + [op] || (failed == old(failed) && Apply(rows, op) == Err(r.error)))
      ensures r.Err? && r.error != TransferRecordFailed ==> Apply(old(rows), op) == Err(r.error)
    {
      var fails: bool := *;
      if fails {
        failed := failed + [op];
        return Err(TransferRecordFailed);
      }
      var after := Apply(rows, op);
      match after
      case Err(code) => r := Err(code);
      case Ok(changed) =>
        rows := changed;
        r := Ok(());
    }

    /** Complete a record and return it as it is now. Nothing changes if that fails: with the error of the
        change itself, or untyped, if the row that was read back is not a valid record. */
    method FinishTransfer(id: Id, now: Time) returns (r: Result<Row, Failure>)
      modifies this
      ensures r.Ok? ==>
                && Apply(old(rows), Finish(id, now)) == Ok(rows) && id in rows && r.value == rows[id]
                && failed == old(failed)
      ensures r.Err? ==>
                && rows == old(rows)
                && (failed == old(failed) + [Finish(id, now)]
                    || (failed == old(failed) && r.error.Typed? && Apply(rows, Finish(id, now)) == Err(r.error.code)))
      ensures r.Err? && r.error.Typed? && r.error.code != TransferRecordFailed ==>
                Apply(old(rows), Finish(id, now)) == Err(r.error.code)
      ensures r == Err(Untyped) ==> Apply(old(rows), Finish(id, now)).Ok?
    {
      var before := rows;
      var done := Record(Finish(id, now));
      if done.Err? {
        return Err(Typed(done.error));
      }
      var readable: bool := *;
      if !readable {
        rows, failed := before, failed + [Finish(id, now)];  // the transaction is not committed
        return Err(Untyped);
      }
      r := Ok(rows[id]);
    }
  }
}
