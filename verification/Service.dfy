/** The records and the files together: the transfers of `Protocol` write the local directory of
    `LocalRaces`, with crashes between any two steps of either. */
module Service {
  import opened Common
  import opened Filenames
  import opened Filesystem
  import opened Lifecycle
  import opened Store
  import opened Protocol
  import LocalRaces

  datatype State = State(system: System, world: LocalRaces.World)

  datatype Move =
    | Act(action: Action)                       // a record changes, or a process begins or ends
    | File(pid: Pid, step: LocalRaces.Step)     // a transfer moves on in the directory
    | Publish(pid: Pid, id: Id)                 // a transfer publishes its stage
    | Look(reader: nat, name: Name)             // someone opens a file

  /** The transfer is in progress in a process that serves; one that is not takes no step. */
  predicate Runs(system: System, pid: Pid, id: Id) {
    pid in system.processes && system.processes[pid] && id in system.live && system.live[id].pid == pid
  }

  /** The stage is complete, and holds this many bytes. */
  predicate IsComplete(world: LocalRaces.World, id: Id, bytes: nat) {
    && id in world.writers && |world.writers[id].written| == bytes
    && world.writers[id].at !in {LocalRaces.Fresh, LocalRaces.Checked, LocalRaces.Stage.Writing}
  }

  /** A record is marked as publishing when its stage is complete. */
  predicate MayAct(state: State, action: Action) {
    action.Step? ==>
      && !action.event.Published? && !action.event.Unanswered?
      && (action.event.Marked? ==> IsComplete(state.world, action.id, action.event.bytes))
  }

  function Next(state: State, move: Move, guarded: bool): State {
    match move
    case Act(action) =>
      if MayAct(state, action) then state.(system := Protocol.After(state.system, action, guarded)) else state
    case File(pid, step) =>
      if !step.OpenFile? && !step.Publish? && Runs(state.system, pid, step.id)
      then state.(world := LocalRaces.After(state.world, step)) else state
    case Publish(pid, id) =>
      if Runs(state.system, pid, id) && state.system.live[id].place.Ready? then
        var world := LocalRaces.After(state.world, LocalRaces.Step.Publish(id));
        if LocalRaces.HasPublished(world, id) then
          var event := Published(world.writers[id].written);
          State(Protocol.After(state.system, Step(pid, id, event, true), guarded), world)
        else state.(world := world)
      else state
    case Look(reader, name) =>
      state.(world := LocalRaces.After(state.world, LocalRaces.OpenFile(reader, name)))
  }

  /** An empty database and any directory. */
  function Run(world: LocalRaces.World, moves: seq<Move>, guarded: bool): State {
    if moves == [] then State(EMPTY, world)
    else Next(Run(world, moves[..|moves| - 1], guarded), moves[|moves| - 1], guarded)
  }

  // ---------------------------------------------------------------- the invariant

  /** What the records say was published is what the directory's writers have published. */
  ghost predicate Agrees(state: State, id: Id) {
    && (LocalRaces.HasPublished(state.world, id) <==> id in state.system.shown)
    && (id in state.system.shown ==>
          && state.world.writers[id].written == state.system.shown[id]
          && IsComplete(state.world, id, |state.system.shown[id]|))
    && (id in state.system.live && state.system.live[id].place.Ready? ==>
          id !in state.system.shown && IsComplete(state.world, id, state.system.live[id].place.bytes))
  }

  ghost predicate Inv(state: State, origin: Fs, guarded: bool) {
    && Loose(state.system) && (guarded ==> Protocol.Inv(state.system) && forall id :: Told(state.system, id))
    && LocalRaces.Inv(state.world, origin)
    && forall id :: Agrees(state, id)
  }

  lemma ActionShowsNothing(system: System, action: Action, guarded: bool, id: Id)
    requires action.Step? ==> !action.event.Published? && !action.event.Unanswered?
    ensures var now := Protocol.After(system, action, guarded);
            && now.shown == system.shown
            && (id in now.live && now.live[id].place.Ready? ==>
                  || (id in system.live && now.live[id].place == system.live[id].place)
                  || (action.Step? && action.id == id && action.event.Marked?
                      && action.event.bytes == now.live[id].place.bytes
                      && id in system.live && system.live[id].place.Copying?))
  {
    hide Apply, Committed;
  }

  lemma ProtocolKeeps(system: System, action: Action, guarded: bool)
    requires Loose(system) && (guarded ==> Protocol.Inv(system) && forall id :: Told(system, id))
    requires action.Step? ==> !action.event.Unanswered?
    ensures var now := Protocol.After(system, action, guarded);
            Loose(now) && (guarded ==> Protocol.Inv(now) && forall id :: Told(now, id))
  {
    hide Loose, Protocol.Inv, Told;
    LooseAfterKeeps(system, action, guarded);
    if guarded {
      AfterKeeps(system, action);
      forall id
        ensures Told(Protocol.After(system, action, guarded), id)
      {
        AnsweredStep(system, action, id);
      }
    }
  }

  lemma ActKeeps(state: State, origin: Fs, action: Action, guarded: bool)
    requires Inv(state, origin, guarded) && MayAct(state, action)
    ensures Inv(Next(state, Act(action), guarded), origin, guarded)
  {
    hide Protocol.After, Protocol.Inv, LocalRaces.Inv, IsComplete, LooselyRow;
    ProtocolKeeps(state.system, action, guarded);
    forall id
      ensures Agrees(Next(state, Act(action), guarded), id)
    {
      assert Agrees(state, id);
      ActionShowsNothing(state.system, action, guarded, id);
      assert LooseAt(state.system, id);
    }
  }

  /** A step in the directory that publishes nothing changes neither what a writer has published nor
      what it wrote, once it has written all. */
  lemma StepShowsNothing(world: LocalRaces.World, origin: Fs, step: LocalRaces.Step, id: Id)
    requires LocalRaces.Inv(world, origin) && !step.Publish?
    ensures var now := LocalRaces.After(world, step);
            && (LocalRaces.HasPublished(now, id) <==> LocalRaces.HasPublished(world, id))
            && (forall bytes :: IsComplete(world, id, bytes) ==> IsComplete(now, id, bytes))
            && (id in world.writers && IsComplete(world, id, |world.writers[id].written|) ==>
                  id in now.writers && now.writers[id].written == world.writers[id].written)
  {
    hide IsValid, StageName;
    LocalRaces.OneStep(world, step, id);
    if id in world.writers && IsComplete(world, id, |world.writers[id].written|) {
      LocalRaces.StepContinues(world, step, id);
    }
    hide LocalRaces.Inv;
  }

  lemma WorldKeeps(state: State, origin: Fs, step: LocalRaces.Step, guarded: bool)
    requires Inv(state, origin, guarded) && !step.Publish?
    ensures Inv(state.(world := LocalRaces.After(state.world, step)), origin, guarded)
  {
    hide LocalRaces.After, LocalRaces.Inv, Loose, Protocol.Inv, IsComplete;
    LocalRaces.StepKeeps(state.world, origin, step);
    forall id
      ensures Agrees(state.(world := LocalRaces.After(state.world, step)), id)
    {
      assert Agrees(state, id);
      StepShowsNothing(state.world, origin, step, id);
    }
  }

  /** A publication is one event for the record and the directory: the stage that was marked is what is
      published, with as many bytes as the record says. */
  lemma PublishKeeps(state: State, origin: Fs, pid: Pid, id: Id, guarded: bool)
    requires Inv(state, origin, guarded)
    ensures Inv(Next(state, Publish(pid, id), guarded), origin, guarded)
  {
    var step := LocalRaces.Step.Publish(id);
    var world := LocalRaces.After(state.world, step);
    hide LocalRaces.After, LocalRaces.Inv, Loose, Protocol.Inv, IsComplete, Protocol.After;
    if Runs(state.system, pid, id) && state.system.live[id].place.Ready? {
      LocalRaces.StepKeeps(state.world, origin, step);
      if LocalRaces.HasPublished(world, id) {
        var action := Step(pid, id, Published(world.writers[id].written), true);
        ProtocolKeeps(state.system, action, guarded);
      }
      forall other
        ensures Agrees(Next(state, Publish(pid, id), guarded), other)
      {
        assert Agrees(state, other);
        PublishAgrees(state, pid, id, guarded, other);
      }
    }
  }

  lemma PublishAgrees(state: State, pid: Pid, id: Id, guarded: bool, other: Id)
    requires Runs(state.system, pid, id) && state.system.live[id].place.Ready?
    requires Agrees(state, id) && Agrees(state, other)
    ensures Agrees(Next(state, Publish(pid, id), guarded), other)
  {
    var step := LocalRaces.Step.Publish(id);
    var world := LocalRaces.After(state.world, step);
    LocalRaces.StepContinues(state.world, step, id);
    if other != id {
      LocalRaces.OthersSpare(state.world, step, other);
      if LocalRaces.HasPublished(world, id) {
        OthersStay(state.system, pid, id, Published(world.writers[id].written), true, other);
      }
    }
    hide LocalRaces.After;
  }

  lemma NextKeeps(state: State, origin: Fs, move: Move, guarded: bool)
    requires Inv(state, origin, guarded)
    ensures Inv(Next(state, move, guarded), origin, guarded)
  {
    hide Inv, LocalRaces.After, Protocol.After, MayAct;
    match move
    case Act(action) => if MayAct(state, action) { ActKeeps(state, origin, action, guarded); }
    case File(pid, step) => if !step.Publish? { WorldKeeps(state, origin, step, guarded); }
    case Publish(pid, id) => PublishKeeps(state, origin, pid, id, guarded);
    case Look(reader, name) => WorldKeeps(state, origin, LocalRaces.OpenFile(reader, name), guarded);
  }

  lemma {:induction false} RunKeeps(world: LocalRaces.World, moves: seq<Move>, guarded: bool)
    requires LocalRaces.Initial(world)
    ensures Inv(Run(world, moves, guarded), world.fs, guarded)
  {
    hide Next, LocalRaces.Inv, Protocol.Inv, Loose;
    if moves == [] {
      LocalRaces.InitialHolds(world);
      Protocol.RunKeeps([]);
      EmptyIsLoose();
    } else {
      hide Inv;
      RunKeeps(world, moves[..|moves| - 1], guarded);
      NextKeeps(Run(world, moves[..|moves| - 1], guarded), world.fs, moves[|moves| - 1], guarded);
    }
  }

  // ---------------------------------------------------------------- what records and files say of each other

  /** No accepted name leads to a file this transfer has written. */
  ghost predicate Invisible(world: LocalRaces.World, id: Id) {
    id in world.writers && world.writers[id].created ==>
      forall name :: IsValid(name) && name in world.fs.dir ==> world.fs.dir[name] != world.writers[id].inode
  }

  lemma UnpublishedIsInvisible(world: LocalRaces.World, origin: Fs, id: Id)
    requires LocalRaces.Inv(world, origin) && !LocalRaces.HasPublished(world, id)
    ensures Invisible(world, id)
  {
    hide IsValid, StageName, LocalRaces.NamesHold, LocalRaces.FilesHold, LocalRaces.PublishedWhole;
    LocalRaces.StageNames();
    if id in world.writers {
      assert LocalRaces.WriterHolds(world, origin, id);
    }
  }

  /** A record that is over stays as it is, whatever moves follow. */
  lemma {:induction false} FinalForGood(
    world: LocalRaces.World, moves: seq<Move>, more: seq<Move>, guarded: bool, id: Id)
    requires id in Run(world, moves, guarded).system.rows && Terminal(Run(world, moves, guarded).system.rows[id])
    ensures id in Run(world, moves + more, guarded).system.rows
    ensures Run(world, moves + more, guarded).system.rows[id] == Run(world, moves, guarded).system.rows[id]
  {
    hide LocalRaces.After, Protocol.After, MayAct, Terminal;
    if more == [] {
      assert moves + more == moves;
    } else {
      var last := |more| - 1;
      FinalForGood(world, moves, more[..last], guarded, id);
      assert (moves + more)[..|moves + more| - 1] == moves + more[..last];
      var before := Run(world, moves + more[..last], guarded);
      match more[last]
      case Act(action) => OneStepIsFinal(before.system, action, guarded, id);
      case Publish(pid, other) =>
        var now := LocalRaces.After(before.world, LocalRaces.Step.Publish(other));
        if LocalRaces.HasPublished(now, other) {
          OneStepIsFinal(before.system, Step(pid, other, Published(now.writers[other].written), true), guarded, id);
        }
      case _ =>
    }
  }

  /** A record that recovery failed while the file was copied tells the truth about the directory: no
      accepted name leads to what the transfer wrote, then or ever after, even without the owner lock. */
  lemma InterruptedCopiesStayInvisible(
    world: LocalRaces.World, moves: seq<Move>, more: seq<Move>, guarded: bool, id: Id)
    requires LocalRaces.Initial(world) && id in Run(world, moves, guarded).system.rows
    requires Run(world, moves, guarded).system.rows[id].error == Some(InterruptedCopying)
    ensures Invisible(Run(world, moves + more, guarded).world, id)
  {
    hide Run, LocalRaces.Inv, Protocol.Inv, IsComplete;
    RunKeeps(world, moves, guarded);
    assert LooseAt(Run(world, moves, guarded).system, id);
    FinalForGood(world, moves, more, guarded, id);
    RunKeeps(world, moves + more, guarded);
    var end := Run(world, moves + more, guarded);
    assert LooseAt(end.system, id) && Agrees(end, id);
    UnpublishedIsInvisible(end.world, world.fs, id);
  }

  /** With the lock, so does every record of a failure that does not say that the service stopped while
      publishing: the transfer left the directory's names alone, and always will. */
  lemma FailuresStayInvisible(world: LocalRaces.World, moves: seq<Move>, more: seq<Move>, id: Id)
    requires LocalRaces.Initial(world) && id in Run(world, moves, true).system.rows
    requires Run(world, moves, true).system.rows[id].status == Failed
    requires Run(world, moves, true).system.rows[id].error != Some(InterruptedPublishing)
    ensures Invisible(Run(world, moves + more, true).world, id)
  {
    hide Run, LocalRaces.Inv, Protocol.Inv, IsComplete, Loose;
    FinalForGood(world, moves, more, true, id);
    RunKeeps(world, moves + more, true);
    var end := Run(world, moves + more, true);
    assert Told(end.system, id) && Agrees(end, id);
    UnpublishedIsInvisible(end.world, world.fs, id);
  }

  /** One move publishes a payload: the record says `publishing` and its length, the name leads to the
      whole of it from then on, and unless it may be replaced it was free. */
  ghost predicate PublishedBy(before: State, after: State, id: Id, name: Name, overwrite: bool, payload: Bytes) {
    && id in before.system.rows && before.system.rows[id].status == Publishing
    && before.system.rows[id].bytesCopied == |payload|
    && (!overwrite ==> name !in before.world.fs.dir)
    && after.world.fs.Contents(name) == Some(payload)
  }

  /** The destination and the bytes of a writer that has published are settled. */
  lemma PublishedStays(state: State, move: Move, guarded: bool, origin: Fs, id: Id)
    requires Inv(state, origin, guarded) && id in state.system.shown
    ensures var now := Next(state, move, guarded);
            && id in now.system.shown && now.system.shown[id] == state.system.shown[id]
            && id in state.world.writers && id in now.world.writers
            && now.world.writers[id].destination == state.world.writers[id].destination
            && now.world.writers[id].overwrite == state.world.writers[id].overwrite
  {
    hide LocalRaces.After, Protocol.After, Protocol.Inv, LocalRaces.Inv, Loose, MayAct, Runs;
    var now := Next(state, move, guarded);
    NextKeeps(state, origin, move, guarded);
    assert Agrees(state, id) && Agrees(now, id);
    match move
    case Act(_) =>
    case File(pid, step) => LocalRaces.StepContinues(state.world, step, id);
    case Publish(_, other) => LocalRaces.StepContinues(state.world, LocalRaces.Step.Publish(other), id);
    case Look(reader, name) => LocalRaces.StepContinues(state.world, LocalRaces.OpenFile(reader, name), id);
  }

  /** The step that publishes leads the name to all that was written. */
  lemma PublishedContents(world: LocalRaces.World, origin: Fs, id: Id)
    requires LocalRaces.Inv(world, origin) && !LocalRaces.HasPublished(world, id)
    requires LocalRaces.HasPublished(LocalRaces.After(world, LocalRaces.Step.Publish(id)), id)
    ensures var now := LocalRaces.After(world, LocalRaces.Step.Publish(id));
            var w := now.writers[id];
            && now.fs.Contents(w.destination) == Some(w.written)
            && (!w.overwrite ==> w.destination !in world.fs.dir)
  {
    hide IsValid, StageName, LocalRaces.NamesHold, LocalRaces.PublishedWhole;
    assert LocalRaces.WriterHolds(world, origin, id);
    hide LocalRaces.WritersHold;
    LocalRaces.OneStep(world, LocalRaces.Step.Publish(id), id);
  }

  lemma ReadyIsPublishing(system: System, id: Id)
    requires Protocol.Inv(system) && id in system.live && system.live[id].place.Ready?
    ensures id in system.rows && system.rows[id].status == Publishing
    ensures system.rows[id].bytesCopied == system.live[id].place.bytes
  {
    assert LiveHolds(system, id);
  }

  /** The move that publishes a transfer is its own, and does just that. */
  lemma PublishingMove(state: State, move: Move, origin: Fs, id: Id)
    requires Inv(state, origin, true)
    requires id !in state.system.shown && id in Next(state, move, true).system.shown
    ensures var now := Next(state, move, true);
            id in now.world.writers
            && var w := now.world.writers[id];
               PublishedBy(state, now, id, w.destination, w.overwrite, now.system.shown[id])
  {
    hide LocalRaces.After, Protocol.After, Protocol.Inv, LocalRaces.Inv, Loose, MayAct;
    var now := Next(state, move, true);
    NextKeeps(state, origin, move, true);
    assert Agrees(state, id) && Agrees(now, id);
    match move
    case Act(_) =>
    case File(_, step) => LocalRaces.OneStep(state.world, step, id);
    case Look(reader, name) => LocalRaces.OneStep(state.world, LocalRaces.OpenFile(reader, name), id);
    case Publish(pid, other) =>
      LocalRaces.OneStep(state.world, LocalRaces.Step.Publish(other), id);
      LocalRaces.StepContinues(state.world, LocalRaces.Step.Publish(other), id);
      PublishedContents(state.world, origin, id);
      ReadyIsPublishing(state.system, id);
  }

  /** Whatever was published was published by one such move. */
  lemma {:induction false} PublishedOnce(world: LocalRaces.World, moves: seq<Move>, id: Id)
    requires LocalRaces.Initial(world) && id in Run(world, moves, true).system.shown
    ensures var end := Run(world, moves, true);
            && id in end.world.writers
            && var w := end.world.writers[id];
               exists k: nat :: k < |moves|
                 && PublishedBy(Run(world, moves[..k], true), Run(world, moves[..k + 1], true), id, w.destination,
                                w.overwrite, end.system.shown[id])
  {
    hide Next, Inv, PublishedBy;
    var last := |moves| - 1;
    if moves != [] {
      var before := Run(world, moves[..last], true);
      RunKeeps(world, moves[..last], true);
      if id in before.system.shown {
        PublishedOnce(world, moves[..last], id);
        PublishedStays(before, moves[last], true, world.fs, id);
        var w := before.world.writers[id];
        var k: nat :| k < last
          && PublishedBy(Run(world, moves[..last][..k], true), Run(world, moves[..last][..k + 1], true), id,
                         w.destination, w.overwrite, before.system.shown[id]);
        assert moves[..last][..k] == moves[..k] && moves[..last][..k + 1] == moves[..k + 1];
      } else {
        PublishingMove(before, moves[last], world.fs, id);
        assert moves[..last + 1] == moves;
      }
    }
  }

  /** A completed record tells the truth: at one moment its destination led to as many bytes as it says,
      all that the transfer ever wrote, and until then the name was free unless it may be replaced. */
  lemma CompletedWasWhole(world: LocalRaces.World, moves: seq<Move>, id: Id)
    requires LocalRaces.Initial(world) && id in Run(world, moves, true).system.rows
    requires Run(world, moves, true).system.rows[id].status == Completed
    ensures var end := Run(world, moves, true);
            && id in end.world.writers
            && var w := end.world.writers[id];
               && end.system.rows[id].bytesCopied == |w.written|
               && exists k: nat :: k < |moves|
                    && PublishedBy(Run(world, moves[..k], true), Run(world, moves[..k + 1], true), id, w.destination,
                                   w.overwrite, w.written)
  {
    hide Run, LocalRaces.Inv, Loose, PublishedBy, IsComplete, Told;
    RunKeeps(world, moves, true);
    var end := Run(world, moves, true);
    assert RowHolds(end.system, id) && Agrees(end, id);
    PublishedOnce(world, moves, id);
  }

  /** The name shows the whole of what the transfer published there, and the record says so: it is
      `publishing` or completed, or says that the service stopped while publishing, and has the number of
      bytes. */
  ghost predicate OnRecord(state: State, id: Id, name: Name) {
    && id in state.system.rows && id in state.world.writers && state.world.writers[id].destination == name
    && state.world.fs.Contents(name) == Some(state.world.writers[id].written)
    && state.system.rows[id].bytesCopied == |state.world.writers[id].written|
    && (state.system.rows[id].status in {Publishing, Completed}
        || state.system.rows[id].error == Some(InterruptedPublishing))
  }

  /** Every file an accepted name shows is the one it led to at the start, or one on record. */
  lemma EveryFileIsOnRecord(world: LocalRaces.World, moves: seq<Move>, name: Name)
    requires LocalRaces.Initial(world) && IsValid(name) && name in Run(world, moves, true).world.fs.dir
    ensures var end := Run(world, moves, true);
            || (name in world.fs.dir && end.world.fs.Contents(name) == world.fs.Contents(name))
            || exists id :: OnRecord(end, id, name)
  {
    hide Run, IsValid, StageName, Loose, IsComplete;
    RunKeeps(world, moves, true);
    var end := Run(world, moves, true);
    assert LocalRaces.Accounted(end.world, world.fs, name);
    if !(name in world.fs.dir && end.world.fs.dir[name] == world.fs.dir[name]) {
      var id :| id in end.world.writers && end.world.writers[id].published
        && end.world.writers[id].destination == name && end.world.writers[id].inode == end.world.fs.dir[name];
      assert LocalRaces.WriterHolds(end.world, world.fs, id);
      assert Agrees(end, id) && Told(end.system, id) && RowHolds(end.system, id);
      assert OnRecord(end, id, name);
    }
  }
}
