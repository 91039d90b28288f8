/** The whole service over its life: processes that own the database in turn, the transfers they run
    at the same time, crashes between any two steps, and the recovery each process begins with. */
module Protocol {
  import opened Common
  import opened Lifecycle
  import opened Store
  import opened Transfers

  type Pid = nat

  datatype Live = Live(pid: Pid, place: Place)

  datatype System = System(
    rows: Rows,
    lock: Option<Pid>,
    processes: map<Pid, bool>,  // those that are past the lock, and whether they serve requests
    live: map<Id, Live>,        // the transfers in progress
    shown: map<Id, Bytes>)      // what each transfer that published has published

  datatype Action =
    | Acquire(pid: Pid)
    | Restore(pid: Pid, now: Time)  // startup recovery, then serving
    | Step(pid: Pid, id: Id, event: Event, committed: bool)
    | Stop(pid: Pid, id: Id)        // a transfer ends without reaching its final record
    | Exit(pid: Pid)                // at any point, for any reason

  function Taken(shown: map<Id, Bytes>, id: Id, event: Event): map<Id, Bytes> {
    match event
    case Published(payload) => shown[id := payload]
    case Unanswered(payload, happened) => if happened then shown[id := payload] else shown
    case _ => shown
  }

  function Stepped(system: System, pid: Pid, id: Id, event: Event, committed: bool): System {
    var place := if id in system.live then system.live[id].place else Idle;
    var next := Advance(place, event);
    var change := Change(id, event);
    if next.None? || (id in system.live && system.live[id].pid != pid) then system
    else if change.Some? && (!committed || Apply(system.rows, change.value).Err?) then system
    else
      system.(
        rows := Committed(system.rows, id, event),
        live := if next.value == Over then system.live - {id} else system.live[id := Live(pid, next.value)],
        shown := Taken(system.shown, id, event))
  }

  /** One action; what is not enabled changes nothing. The lock is exclusive if `guarded`. */
  function After(system: System, action: Action, guarded: bool): System {
    match action
    case Acquire(pid) =>
      if pid in system.processes || (guarded && system.lock.Some?) then system
      else system.(lock := Some(pid), processes := system.processes[pid := false])
    case Restore(pid, now) =>
      if pid in system.processes && !system.processes[pid]
      then system.(rows := RecoverAll(system.rows, now), processes := system.processes[pid := true])
      else system
    case Step(pid, id, event, committed) =>
      if pid in system.processes && system.processes[pid] then Stepped(system, pid, id, event, committed) else system
    case Stop(pid, id) =>
      if id in system.live && system.live[id].pid == pid then system.(live := system.live - {id}) else system
    case Exit(pid) =>
      system.(
        lock := if system.lock == Some(pid) then None else system.lock,
        processes := system.processes - {pid},
        live := map id | id in system.live && system.live[id].pid != pid :: system.live[id])
  }

  function Run(system: System, actions: seq<Action>, guarded: bool): System {
    if actions == [] then system
    else After(Run(system, actions[..|actions| - 1], guarded), actions[|actions| - 1], guarded)
  }

  const EMPTY := System(map[], None, map[], map[], map[])

  // ---------------------------------------------------------------- the invariant

  /** Only the owner of the lock runs, and only once it serves does it run transfers. */
  predicate Owned(system: System) {
    && (forall pid :: pid in system.processes ==> system.lock == Some(pid))
    && (forall id :: id in system.live ==>
          system.live[id].pid in system.processes && system.processes[system.live[id].pid])
  }

  /** A live transfer's place agrees with its record and with what it has published. */
  predicate LiveHolds(system: System, id: Id)
    requires id in system.live
  {
    var place := system.live[id].place;
    && RowAt(system.rows, id, place) && !place.Idle? && !place.Over?
    && match place
       case Visible(payload) => id in system.shown && system.shown[id] == payload
       case Doubtful(payload, happened) =>
         (id in system.shown <==> happened) && (happened ==> system.shown[id] == payload)
       case _ => id !in system.shown
  }

  /** What a record says about the destination. */
  predicate RowHolds(system: System, id: Id)
    requires id in system.rows
  {
    var row := system.rows[id];
    && (row.status == Running ==> id !in system.shown)
    && (row.status == Completed ==> id in system.shown)
    && (row.error == Some(InterruptedCopying) ==> id !in system.shown)
    && (id in system.shown ==> row.bytesCopied == |system.shown[id]|)
  }

  predicate Inv(system: System) {
    && Owned(system)
    && (forall id :: id in system.live ==> LiveHolds(system, id))
    && (forall id :: id in system.rows ==> RowHolds(system, id) && WellFormed(system.rows[id]))
    && (forall id :: id in system.shown ==> id in system.rows)
  }

  /** An event of one transfer changes nothing that concerns another. */
  lemma OthersStay(system: System, pid: Pid, id: Id, event: Event, committed: bool, other: Id)
    requires other != id
    ensures var now := Stepped(system, pid, id, event, committed);
            && (other in now.rows <==> other in system.rows)
            && (other in now.rows ==> now.rows[other] == system.rows[other])
            && (other in now.live <==> other in system.live)
            && (other in now.live ==> now.live[other] == system.live[other])
            && (other in now.shown <==> other in system.shown)
            && (other in now.shown ==> now.shown[other] == system.shown[other])
  {
    hide Advance;
  }

  lemma OwnRowHolds(system: System, pid: Pid, id: Id, event: Event, committed: bool)
    requires Inv(system)
    ensures var now := Stepped(system, pid, id, event, committed);
            && (id in now.rows ==> RowHolds(now, id))
            && (id in now.shown ==> id in now.rows)
  {
  }

  lemma OwnRowIsWellFormed(system: System, pid: Pid, id: Id, event: Event, committed: bool)
    requires id in system.rows ==> WellFormed(system.rows[id])
    ensures var now := Stepped(system, pid, id, event, committed);
            id in now.rows ==> WellFormed(now.rows[id])
  {
    hide Advance;
  }

  lemma OwnPlaceHolds(system: System, pid: Pid, id: Id, event: Event, committed: bool)
    requires Inv(system)
    ensures var now := Stepped(system, pid, id, event, committed);
            && (id in now.live ==> LiveHolds(now, id) && (id in system.live || now.live[id].pid == pid))
            && (id in now.live && id in system.live ==> now.live[id].pid == system.live[id].pid)
  {
    hide RowHolds, WellFormed;
  }

  /** An event keeps what its own record says. */
  lemma OwnHolds(system: System, pid: Pid, id: Id, event: Event, committed: bool)
    requires Inv(system)
    ensures var now := Stepped(system, pid, id, event, committed);
            && (id in now.live ==> LiveHolds(now, id) && (id in system.live || now.live[id].pid == pid))
            && (id in now.rows ==> RowHolds(now, id) && WellFormed(now.rows[id]))
            && (id in now.shown ==> id in now.rows)
            && (id in now.live && id in system.live ==> now.live[id].pid == system.live[id].pid)
  {
    hide Stepped, LiveHolds, RowHolds, WellFormed;
    OwnRowHolds(system, pid, id, event, committed);
    OwnRowIsWellFormed(system, pid, id, event, committed);
    OwnPlaceHolds(system, pid, id, event, committed);
  }

  /** What holds of a transfer depends on its own record, place and publication only. */
  lemma SameHolds(system: System, now: System, id: Id)
    requires id in now.rows <==> id in system.rows
    requires id in now.rows ==> now.rows[id] == system.rows[id]
    requires id in now.live ==> id in system.live && now.live[id] == system.live[id]
    requires id in now.shown <==> id in system.shown
    requires id in now.shown ==> now.shown[id] == system.shown[id]
    requires Inv(system)
    ensures id in now.live ==> LiveHolds(now, id)
    ensures id in now.rows ==> RowHolds(now, id) && WellFormed(now.rows[id])
    ensures id in now.shown ==> id in now.rows
  {
  }

  lemma StepFrame(system: System, pid: Pid, id: Id, event: Event, committed: bool)
    ensures var now := Stepped(system, pid, id, event, committed);
            now.lock == system.lock && now.processes == system.processes
  {
    hide Advance, Committed;
  }

  lemma StepKeeps(system: System, pid: Pid, id: Id, event: Event, committed: bool)
    requires Inv(system) && pid in system.processes && system.processes[pid]
    ensures Inv(Stepped(system, pid, id, event, committed))
  {
    hide Stepped, LiveHolds, RowHolds, WellFormed;
    var now := Stepped(system, pid, id, event, committed);
    StepFrame(system, pid, id, event, committed);
    OwnHolds(system, pid, id, event, committed);
    forall other
      ensures other in now.live ==>
                LiveHolds(now, other) && now.live[other].pid in now.processes && now.processes[now.live[other].pid]
      ensures other in now.rows ==> RowHolds(now, other) && WellFormed(now.rows[other])
      ensures other in now.shown ==> other in now.rows
    {
      if other != id {
        OthersStay(system, pid, id, event, committed, other);
        SameHolds(system, now, other);
      }
    }
  }

  lemma RestoreKeeps(system: System, pid: Pid, now: Time)
    requires Inv(system) && pid in system.processes && !system.processes[pid]
    ensures system.live == map[]
    ensures Inv(After(system, Restore(pid, now), true))
  {
  }

  lemma AfterKeeps(system: System, action: Action)
    requires Inv(system)
    ensures Inv(After(system, action, true))
  {
    hide Inv, Stepped, RecoverAll;
    match action
    case Step(pid, id, event, committed) =>
      if pid in system.processes && system.processes[pid] {
        StepKeeps(system, pid, id, event, committed);
      }
    case Restore(pid, now) =>
      if pid in system.processes && !system.processes[pid] {
        RestoreKeeps(system, pid, now);
      }
    case _ => FewerLiveKeeps(system, action);
  }

  lemma FewerLiveKeeps(system: System, action: Action)
    requires Inv(system) && (action.Acquire? || action.Stop? || action.Exit?)
    ensures Inv(After(system, action, true))
  {
    hide LiveHolds, RowHolds, WellFormed;
    var now := After(system, action, true);
    forall id
      ensures id in now.live ==> LiveHolds(now, id)
      ensures id in now.rows ==> RowHolds(now, id) && WellFormed(now.rows[id])
    {
      SameHolds(system, now, id);
    }
  }

  lemma {:induction false} RunKeeps(actions: seq<Action>)
    ensures Inv(Run(EMPTY, actions, true))
  {
    hide After;
    if actions != [] {
      RunKeeps(actions[..|actions| - 1]);
      AfterKeeps(Run(EMPTY, actions[..|actions| - 1], true), actions[|actions| - 1]);
    }
  }

  // ---------------------------------------------------------------- what the records mean

  /** What every record and every transfer satisfy even if the lock does not exclude anybody: the
      compare-and-set of `publishing` alone keeps a recovered copy from being published. */
  ghost predicate Loose(system: System) {
    forall id :: LooseAt(system, id)
  }

  predicate LooseAt(system: System, id: Id) {
    && (id in system.live ==>
          id in system.rows && LooselyLive(system.live[id].place, system.rows[id], id in system.shown))
    && (id in system.rows ==> LooselyRow(system.rows[id], id in system.shown))
    && (id in system.shown ==> id in system.rows)
  }

  predicate LooselyLive(place: Place, row: Row, shown: bool) {
    && !place.Idle? && !place.Over?
    && (if place.Copying? then !shown && row.status in {Running, Failed}
        else row.status != Running && row.error != Some(InterruptedCopying))
    && (place.Visible? ==> shown)
  }

  predicate LooselyRow(row: Row, shown: bool) {
    && WellFormed(row)
    && (row.status == Running || row.error == Some(InterruptedCopying) ==> !shown)
    && (row.status == Completed ==> shown)
  }

  lemma LooselyOwn(system: System, pid: Pid, id: Id, event: Event, committed: bool)
    requires LooseAt(system, id)
    ensures LooseAt(Stepped(system, pid, id, event, committed), id)
  {
  }

  lemma LooseAfterKeeps(system: System, action: Action, guarded: bool)
    requires Loose(system)
    ensures Loose(After(system, action, guarded))
  {
    hide Stepped, LooselyLive, LooselyRow;
    forall id
      ensures LooseAt(After(system, action, guarded), id)
    {
      assert LooseAt(system, id);
      if action.Restore? {
        RestoreIsLoose(system, action, guarded, id);
      } else if action.Step? && action.id == id {
        LooselyOwn(system, action.pid, id, action.event, action.committed);
      } else if action.Step? {
        OthersStay(system, action.pid, action.id, action.event, action.committed, id);
      }
    }
  }

  lemma RestoreIsLoose(system: System, action: Action, guarded: bool, id: Id)
    requires LooseAt(system, id) && action.Restore?
    ensures LooseAt(After(system, action, guarded), id)
  {
  }

  lemma {:induction false} RunIsLoose(actions: seq<Action>, guarded: bool)
    ensures Loose(Run(EMPTY, actions, guarded))
  {
    hide After, Loose;
    if actions == [] {
      assert Loose(EMPTY) by { EmptyIsLoose(); }
    } else {
      RunIsLoose(actions[..|actions| - 1], guarded);
      LooseAfterKeeps(Run(EMPTY, actions[..|actions| - 1], guarded), actions[|actions| - 1], guarded);
    }
  }

  lemma EmptyIsLoose()
    ensures Loose(EMPTY)
  {
  }

  /** A record that recovery failed out of `running` says that the destination is unchanged: the
      transfer never published, and never will. */
  lemma InterruptedCopiesPublishNothing(actions: seq<Action>, more: seq<Action>, guarded: bool, id: Id)
    requires id in Run(EMPTY, actions, guarded).rows
    requires Run(EMPTY, actions, guarded).rows[id].error == Some(InterruptedCopying)
    ensures id !in Run(EMPTY, actions, guarded).shown
    ensures id !in Run(EMPTY, actions + more, guarded).shown
  {
    hide Run, After;
    RunIsLoose(actions, guarded);
    assert LooseAt(Run(EMPTY, actions, guarded), id);
    RecordsAreFinal(actions, more, guarded, id);
    RunIsLoose(actions + more, guarded);
    assert LooseAt(Run(EMPTY, actions + more, guarded), id);
  }

  /** A record that says the transfer is over stays as it is. */
  lemma {:induction false} RecordsAreFinal(actions: seq<Action>, more: seq<Action>, guarded: bool, id: Id)
    requires id in Run(EMPTY, actions, guarded).rows && Terminal(Run(EMPTY, actions, guarded).rows[id])
    ensures id in Run(EMPTY, actions + more, guarded).rows
    ensures Run(EMPTY, actions + more, guarded).rows[id] == Run(EMPTY, actions, guarded).rows[id]
  {
    if more == [] {
      assert actions + more == actions;
    } else {
      var last := |more| - 1;
      RecordsAreFinal(actions, more[..last], guarded, id);
      assert (actions + more)[..|actions + more| - 1] == actions + more[..last];
      OneStepIsFinal(Run(EMPTY, actions + more[..last], guarded), more[last], guarded, id);
    }
  }

  lemma OneStepIsFinal(system: System, action: Action, guarded: bool, id: Id)
    requires id in system.rows && Terminal(system.rows[id])
    ensures id in After(system, action, guarded).rows
    ensures After(system, action, guarded).rows[id] == system.rows[id]
  {
    hide Advance;
  }

  /** A completed record belongs to a transfer that published, and states how many bytes. */
  lemma CompletedMeansPublished(actions: seq<Action>, id: Id)
    requires id in Run(EMPTY, actions, true).rows && Run(EMPTY, actions, true).rows[id].status == Completed
    ensures var end := Run(EMPTY, actions, true);
            id in end.shown && end.rows[id].bytesCopied == |end.shown[id]|
  {
    RunKeeps(actions);
  }

  /** Whatever was published, its record said `publishing` before that. */
  lemma {:induction false} PublishedWasPublishing(actions: seq<Action>, id: Id)
    requires id in Run(EMPTY, actions, true).shown
    ensures exists k :: 0 <= k < |actions| && id in Run(EMPTY, actions[..k], true).rows
                        && Run(EMPTY, actions[..k], true).rows[id].status == Publishing
  {
    hide After;
    var last := |actions| - 1;
    var before := Run(EMPTY, actions[..last], true);
    if id in before.shown {
      PublishedWasPublishing(actions[..last], id);
      var k :| 0 <= k < last && id in Run(EMPTY, actions[..last][..k], true).rows
        && Run(EMPTY, actions[..last][..k], true).rows[id].status == Publishing;
      assert actions[..last][..k] == actions[..k];
    } else {
      RunKeeps(actions[..last]);
      PublishingStep(before, actions[last], id);
    }
  }

  lemma PublishingStep(system: System, action: Action, id: Id)
    requires Inv(system) && id !in system.shown && id in After(system, action, true).shown
    ensures id in system.rows && system.rows[id].status == Publishing
  {
    hide Apply, WellFormed, RowHolds;
  }

  /** Every publication of a transfer was answered. */
  predicate Answered(actions: seq<Action>, id: Id) {
    forall i :: 0 <= i < |actions| ==>
      !(actions[i].Step? && actions[i].id == id && actions[i].event.Unanswered?)
  }

  /** A failed record over a published file is one that recovery found `publishing`, and it says so,
      unless the publication itself went unanswered. */
  lemma {:induction false} FailedOverPublished(actions: seq<Action>, id: Id)
    requires Answered(actions, id)
    ensures var end := Run(EMPTY, actions, true);
            && Told(end, id)
            && (id in end.rows && id in end.shown && end.rows[id].status == Failed ==>
                  end.rows[id].error == Some(InterruptedPublishing))
  {
    hide After;
    if actions != [] {
      var last := |actions| - 1;
      FailedOverPublished(actions[..last], id);
      RunKeeps(actions[..last]);
      AnsweredStep(Run(EMPTY, actions[..last], true), actions[last], id);
    }
  }

  /** What `FailedOverPublished` keeps from one action to the next. */
  predicate Told(system: System, id: Id) {
    && (id in system.live ==> !system.live[id].place.Doubtful?)
    && (id in system.rows && id in system.shown && system.rows[id].status == Failed ==>
          system.rows[id].error == Some(InterruptedPublishing))
  }

  lemma AnsweredEvent(system: System, pid: Pid, id: Id, event: Event, committed: bool)
    requires Inv(system) && Told(system, id) && !event.Unanswered?
    ensures Told(Stepped(system, pid, id, event, committed), id)
  {
    hide WellFormed;
  }

  lemma AnsweredStep(system: System, action: Action, id: Id)
    requires Inv(system) && Told(system, id) && !(action.Step? && action.id == id && action.event.Unanswered?)
    ensures Told(After(system, action, true), id)
  {
    hide Stepped;
    if action.Step? {
      if action.id == id {
        AnsweredEvent(system, action.pid, id, action.event, action.committed);
      } else {
        OthersStay(system, action.pid, action.id, action.event, action.committed, id);
      }
    } else {
      RestoringTells(system, action, id);
    }
  }

  lemma RestoringTells(system: System, action: Action, id: Id)
    requires Inv(system) && Told(system, id) && !action.Step?
    ensures Told(After(system, action, true), id)
  {
    hide LiveHolds, WellFormed;
  }

  // ---------------------------------------------------------------- one owner at a time

  /** Recovery never meets a transfer in progress, in any process. */
  lemma RecoveryFindsNothingLive(actions: seq<Action>, pid: Pid)
    requires pid in Run(EMPTY, actions, true).processes && !Run(EMPTY, actions, true).processes[pid]
    ensures Run(EMPTY, actions, true).live == map[]
    ensures Run(EMPTY, actions, true).processes == map[pid := false]
  {
    RunKeeps(actions);
    var end := Run(EMPTY, actions, true);
    RestoreKeeps(end, pid, 0);
    assert forall other :: other in end.processes ==> end.lock == Some(other);
  }

  /** Recovery leaves no record open, and says why: whatever was `running` or `publishing` failed now by the
      interruption, with the bytes it had saved; the rest stays as it is. */
  lemma RecoveryEndsEveryRecord(actions: seq<Action>, pid: Pid, now: Time, id: Id)
    requires pid in Run(EMPTY, actions, true).processes && !Run(EMPTY, actions, true).processes[pid]
    requires id in Run(EMPTY, actions, true).rows
    ensures var was, end := Run(EMPTY, actions, true).rows[id], Run(EMPTY, actions + [Restore(pid, now)], true);
            && id in end.rows
            && (was.status in {Completed, Failed} ==> end.rows[id] == was)
            && (was.status in {Running, Publishing} ==>
                  end.rows[id] ==
                  Row(Failed, was.startedAt, now, None, Some(now), was.bytesCopied, Some(Interruption),
                      Some(TransferInterrupted),
                      Some(if was.status == Publishing then InterruptedPublishing else InterruptedCopying)))
  {
    RunUnfolds(EMPTY, actions, Restore(pid, now), true);
    RunKeeps(actions);
    hide Run;
  }

  /** A restart after a recovery, with no transfer begun in between, changes no record. */
  lemma {:induction false} SecondRecoveryChangesNothing(
    system: System, pid: Pid, now: Time, between: seq<Action>, guarded: bool)
    requires pid in system.processes && !system.processes[pid]
    requires forall i :: 0 <= i < |between| ==> !between[i].Step?
    ensures Run(After(system, Restore(pid, now), guarded), between, guarded).rows == RecoverAll(system.rows, now)
  {
    if between != [] {
      SecondRecoveryChangesNothing(system, pid, now, between[..|between| - 1], guarded);
      if between[|between| - 1].Restore? {
        RecoveryIsIdempotent(system.rows, now, between[|between| - 1].now);
      }
    }
  }

  lemma RunUnfolds(system: System, actions: seq<Action>, action: Action, guarded: bool)
    ensures Run(system, actions + [action], guarded) == After(Run(system, actions, guarded), action, guarded)
  {
    assert (actions + [action])[..|actions|] == actions;
  }

  /** A transfer whose stage is ready while a second process begins. */
  lemma RivalRecovery(system: System, id: Id)
    requires 1 in system.processes && system.processes[1] && 2 !in system.processes
    requires id in system.live && system.live[id] == Live(1, Ready(0))
    requires id in system.rows && system.rows[id].status == Publishing
    ensures var restored := After(After(system, Acquire(2), false), Restore(2, 0), false);
            var end := After(restored, Step(1, id, Published([]), true), false);
            && id in end.live && end.live[id].place == Visible([]) && id in end.shown
            && id in end.rows && end.rows[id].status == Failed
            && forall now :: After(end, Step(1, id, Finished(now), true), false) == end
  {
    var restored := After(After(system, Acquire(2), false), Restore(2, 0), false);
    assert restored.rows[id].status == Failed && restored.live == system.live && restored.processes[1];
    var end := After(restored, Step(1, id, Published([]), true), false);
    assert end == restored.(live := restored.live[id := Live(1, Visible([]))], shown := restored.shown[id := []]);
    forall now
      ensures After(end, Step(1, id, Finished(now), true), false) == end
    {
      assert Apply(end.rows, Finish(id, now)).Err?;
    }
  }

  const SERVING := System(map[], Some(1), map[1 := true], map[], map[])

  lemma OneProcessServes()
    ensures Run(EMPTY, [Acquire(1)] + [Restore(1, 0)], false) == SERVING
  {
    RunUnfolds(EMPTY, [Acquire(1)], Restore(1, 0), false);
    assert RecoverAll(map[], 0) == map[];
    assert map[1 := false][1 := true] == map[1 := true];
  }

  lemma RivalPrepared(id: Id)
    ensures var begun := After(SERVING, Step(1, id, Started(0), true), false);
            var ready := After(begun, Step(1, id, Marked(0, 0), true), false);
            && 1 in ready.processes && ready.processes[1] && 2 !in ready.processes
            && id in ready.live && ready.live[id] == Live(1, Ready(0))
            && id in ready.rows && ready.rows[id].status == Publishing
  {
    var begun := After(SERVING, Step(1, id, Started(0), true), false);
    assert begun.live == map[id := Live(1, Copying(0))] && begun.processes == map[1 := true];
    assert begun.rows == map[id := Row(Running, 0, 0, None, None, 0, None, None, None)];
  }

  /** Without the lock, a second process fails the record of a transfer that then publishes, and its
      record can no longer be completed. */
  lemma WithoutTheLock(id: Id)
    ensures exists actions ::
              var end := Run(EMPTY, actions, false);
              && id in end.live && end.live[id].place == Visible([]) && id in end.shown
              && id in end.rows && end.rows[id].status == Failed
              && forall now :: After(end, Step(1, id, Finished(now), true), false) == end
  {
    hide Run, After;
    var begun := [Acquire(1)] + [Restore(1, 0)] + [Step(1, id, Started(0), true)];
    var actions := begun + [Step(1, id, Marked(0, 0), true)];
    OneProcessServes();
    RivalPrepared(id);
    RunUnfolds(EMPTY, [Acquire(1)] + [Restore(1, 0)], Step(1, id, Started(0), true), false);
    RunUnfolds(EMPTY, begun, Step(1, id, Marked(0, 0), true), false);
    RivalRecovery(Run(EMPTY, actions, false), id);
    RunUnfolds(EMPTY, actions, Acquire(2), false);
    RunUnfolds(EMPTY, actions + [Acquire(2)], Restore(2, 0), false);
    RunUnfolds(EMPTY, actions + [Acquire(2)] + [Restore(2, 0)], Step(1, id, Published([]), true), false);
  }

  // ---------------------------------------------------------------- transfers are such runs

  /** The events of one transfer among all that happens: a change that was not committed is none. */
  function Own(actions: seq<Action>, pid: Pid, id: Id): seq<Event> {
    if actions == [] then []
    else
      Own(actions[..|actions| - 1], pid, id)
        + match actions[|actions| - 1]
          case Step(p, i, event, committed) =>
            if p == pid && i == id && (committed || Change(id, event).None?) then [event] else []
          case _ => []
  }

  /** What one transfer looks like from outside: its record, its place, what it has published. */
  predicate Outside(system: System, pid: Pid, id: Id, rows: Rows, place: Place, fate: Fate) {
    && SameRow(system.rows, rows, id)
    && (if place in {Idle, Over} then id !in system.live
        else id in system.live && system.live[id] == Live(pid, place))
    && match fate
       case Hidden => id !in system.shown
       case Shown(payload) => id in system.shown && system.shown[id] == payload
       case Unknown(payload, happened) =>
         (id in system.shown <==> happened) && (happened ==> system.shown[id] == payload)
  }

  predicate SameRow(a: Rows, b: Rows, id: Id) {
    (id in a <==> id in b) && (id in a ==> a[id] == b[id])
  }

  /** A change of one record depends on that record only. */
  lemma ChangeIsLocal(a: Rows, b: Rows, id: Id, event: Event)
    requires SameRow(a, b, id)
    ensures SameRow(Committed(a, id, event), Committed(b, id, event), id)
    ensures Change(id, event).Some? ==>
              (Apply(a, Change(id, event).value).Ok? <==> Apply(b, Change(id, event).value).Ok?)
  {
  }

  lemma DueStep(
    system: System, pid: Pid, id: Id, rows: Rows, place: Place, event: Event, fate: Fate, after: Fate,
    committed: bool)
    requires !place.Over? && (committed || Change(id, event).None?)
    requires Outside(system, pid, id, rows, place, fate)
    requires RowAt(rows, id, place) && Advance(place, event).Some?
    requires fate == Hidden || !(event.Published? || event.Unanswered?)
    requires after == match event
                      case Published(payload) => Shown(payload)
                      case Unanswered(payload, happened) => Unknown(payload, happened)
                      case _ => fate
    ensures Outside(Stepped(system, pid, id, event, committed), pid, id, Committed(rows, id, event),
                    Advance(place, event).value, after)
  {
    hide RowAt, Apply, Committed, SameRow;
    DueEventCommits(rows, id, place, event);
    ChangeIsLocal(system.rows, rows, id, event);
  }

  /** A publication is the first thing said about the destination. */
  lemma {:induction false} ReadyIsHidden(trace: seq<Event>)
    requires Walk(trace).Some? && (Walk(trace).value.Idle? || Walk(trace).value.Copying? || Walk(trace).value.Ready?)
    ensures FateOf(trace) == Hidden
  {
    if trace != [] {
      ReadyIsHidden(trace[..|trace| - 1]);
    }
  }

  /** What other transfers and other processes do leaves a transfer and its process alone. */
  lemma OthersLeaveItAlone(
    system: System, action: Action, pid: Pid, id: Id, rows: Rows, place: Place, fate: Fate)
    requires Inv(system) && pid in system.processes && system.processes[pid]
    requires Outside(system, pid, id, rows, place, fate)
    requires action != Exit(pid) && action != Stop(pid, id)
    requires action.Step? && action.pid == pid && action.id == id ==>
               !action.committed && Change(id, action.event).Some?
    ensures var now := After(system, action, true);
            && pid in now.processes && now.processes[pid] && Outside(now, pid, id, rows, place, fate)
  {
    hide RowAt, LiveHolds, RowHolds, WellFormed;
    match action
    case Step(p, other, event, committed) =>
      if p in system.processes {
        assert system.lock == Some(p) == Some(pid);
        if other != id {
          OthersStay(system, pid, other, event, committed, id);
        }
      }
    case _ =>
      hide Stepped;
      assert system.lock == Some(pid);
  }

  /** What `Transfer.Run` does to the ledger and the destination is what its events do here, however
      they are interleaved with the transfers that run beside it, as long as its process lives and the
      transfer goes on. */
  lemma {:induction false} TransferIsARun(system: System, pid: Pid, id: Id, actions: seq<Action>)
    requires Inv(system) && pid in system.processes && system.processes[pid]
    requires id !in system.live && id !in system.rows && id !in system.shown
    requires Walk(Own(actions, pid, id)).Some?
    requires forall i :: 0 <= i < |actions| ==> actions[i] != Exit(pid) && actions[i] != Stop(pid, id)
    ensures var trace, end := Own(actions, pid, id), Run(system, actions, true);
            && Inv(end) && pid in end.processes && end.processes[pid]
            && Outside(end, pid, id, Recorded(map[], id, trace), Walk(trace).value, FateOf(trace))
  {
    hide RowAt, Committed, After, Advance, Inv, Outside;
    if actions == [] {
      assert Outside(system, pid, id, map[], Idle, Hidden) by { NothingYet(system, pid, id); }
    } else {
      var last := |actions| - 1;
      var action, before, was := actions[last], Own(actions[..last], pid, id), Run(system, actions[..last], true);
      var trace := Own(actions, pid, id);
      if trace != before {
        assert trace[..|trace| - 1] == before;
      }
      TransferIsARun(system, pid, id, actions[..last]);
      AfterKeeps(was, action);
      if trace == before {
        OwnStays(actions, pid, id);
        OthersLeaveItAlone(was, action, pid, id, Recorded(map[], id, trace), Walk(trace).value, FateOf(trace));
      } else {
        OwnStepTaken(was, action, pid, id, before);
      }
    }
  }

  lemma NothingYet(system: System, pid: Pid, id: Id)
    requires id !in system.live && id !in system.rows && id !in system.shown
    ensures Outside(system, pid, id, map[], Idle, Hidden)
  {
  }

  lemma OwnStays(actions: seq<Action>, pid: Pid, id: Id)
    requires actions != [] && Own(actions, pid, id) == Own(actions[..|actions| - 1], pid, id)
    ensures var action := actions[|actions| - 1];
            action.Step? && action.pid == pid && action.id == id ==>
              !action.committed && Change(id, action.event).Some?
  {
  }

  lemma OwnStepTaken(was: System, action: Action, pid: Pid, id: Id, before: seq<Event>)
    requires action.Step? && action.pid == pid && action.id == id
    requires action.committed || Change(id, action.event).None?
    requires pid in was.processes && was.processes[pid]
    requires Walk(before).Some? && Walk(before + [action.event]).Some?
    requires Outside(was, pid, id, Recorded(map[], id, before), Walk(before).value, FateOf(before))
    ensures var trace, now := before + [action.event], After(was, action, true);
            && pid in now.processes && now.processes[pid]
            && Outside(now, pid, id, Recorded(map[], id, trace), Walk(trace).value, FateOf(trace))
  {
    hide RowAt, Committed, Advance, Outside;
    var trace, event := before + [action.event], action.event;
    TraceGrows(map[], id, before, event);
    RecordFollows(map[], id, before);
    NotOverBefore(Walk(before).value, event);
    if event.Published? || event.Unanswered? {
      ReadyIsHidden(before);
    }
    DueStep(was, pid, id, Recorded(map[], id, before), Walk(before).value, event, FateOf(before), FateOf(trace),
            action.committed);
  }

  lemma NotOverBefore(place: Place, event: Event)
    requires Advance(place, event).Some?
    ensures !place.Over? && (event.Published? || event.Unanswered? ==> place.Ready?)
  {
  }
}
