/** The pipelined upload: a window of unacknowledged WRITE requests, settled as one concatenation. */
module RemoteStage {
  import opened Common
  import opened Wire
  import opened Session
  import opened Pieces

  // ---------------------------------------------------------------- what its requests can touch

  /** A request that can change no file but the stage. */
  predicate StageOnly(request: Request, handle: Bytes, stage: Path) {
    match request
    case Write(h, _, _) => h == handle
    case Create(path) => path == stage
    case Remove(path) => path == stage
    case Close(_) => true
    case Stat(_) => true
    case SetMode(_, _) => true
    case Fsync(_) => true
    case _ => false
  }

  /** Every path but the stage is as it was. */
  ghost predicate SameElsewhere(now: map<Path, Bytes>, then_: map<Path, Bytes>, stage: Path) {
    forall path :: path != stage ==>
      (path in now <==> path in then_) && (path in now ==> now[path] == then_[path])
  }

  ghost predicate WriterIs(server: Server, handle: Bytes, stage: Path) {
    handle in server.writers ==> server.writers[handle] == stage
  }

  lemma PerformStageOnly(
    server: Server, request: Request, reply: Reply, done: bool, handle: Bytes, stage: Path)
    requires StageOnly(request, handle, stage) && WriterIs(server, handle, stage)
    ensures var after := Perform(server, request, reply, done);
            WriterIs(after, handle, stage) && SameElsewhere(after.files, server.files, stage)
  {
    hide Outcome, Splice;
  }

  lemma {:induction false} ReplayStageOnly(
    base: Server, sent: seq<Request>, answers: map<nat, Reply>, done: set<nat>, order: seq<nat>,
    handle: Bytes, stage: Path)
    requires WriterIs(base, handle, stage)
    requires forall i :: 0 <= i < |order| && order[i] < |sent| ==> StageOnly(sent[order[i]], handle, stage)
    ensures var after := Replay(base, sent, answers, done, order);
            WriterIs(after, handle, stage) && SameElsewhere(after.files, base.files, stage)
  {
    if order != [] {
      var n, before := order[|order| - 1], order[..|order| - 1];
      ReplayStageOnly(base, sent, answers, done, before, handle, stage);
      if n < |sent| && n in answers {
        PerformStageOnly(Replay(base, sent, answers, done, before), sent[n], answers[n], n in done, handle, stage);
      }
    }
  }

  // ---------------------------------------------------------------- what the writes leave

  function PieceOf(request: Request): Piece {
    if request.Write? then Piece(request.offset, request.data) else Piece(0, [])
  }

  function PiecesOf(sent: seq<Request>, order: seq<nat>): seq<Piece> {
    if order == [] then []
    else
      var n := order[|order| - 1];
      PiecesOf(sent, order[..|order| - 1]) + [if n < |sent| then PieceOf(sent[n]) else Piece(0, [])]
  }

  lemma {:induction false} PiecesOfAt(sent: seq<Request>, order: seq<nat>)
    requires forall i :: 0 <= i < |order| ==> order[i] < |sent|
    ensures |PiecesOf(sent, order)| == |order|
    ensures forall i :: 0 <= i < |order| ==> PiecesOf(sent, order)[i] == PieceOf(sent[order[i]])
  {
    if order != [] {
      PiecesOfAt(sent, order[..|order| - 1]);
    }
  }

  /** Writes to the stage that took effect, in the order the server performed them, are writes of their
      pieces in that order. */
  lemma {:induction false} ReplayWrites(
    base: Server, sent: seq<Request>, answers: map<nat, Reply>, done: set<nat>, order: seq<nat>,
    handle: Bytes, stage: Path)
    requires handle in base.writers && base.writers[handle] == stage
    requires stage in base.files && base.files[stage] == []
    requires forall i :: 0 <= i < |order| ==>
               && order[i] < |sent| && sent[order[i]].Write? && sent[order[i]].handle == handle
               && order[i] in answers && order[i] in done
    ensures Replay(base, sent, answers, done, order)
            == Server(base.files[stage := WriteAll(PiecesOf(sent, order))], base.writers)
  {
    hide Accepted, Splice;
    if order == [] {
      assert base.files[stage := []] == base.files;
    } else {
      var n, before := order[|order| - 1], order[..|order| - 1];
      ReplayWrites(base, sent, answers, done, before, handle, stage);
      var pieces := PiecesOf(sent, order);
      assert pieces[..|pieces| - 1] == PiecesOf(sent, before);
    }
  }

  /** Every request since `epoch` is the write of one tile; the oldest are acknowledged as OK, and
      the rest are the queue, in order. */
  ghost predicate Pipelined(
    net: Network, claimed: set<nat>, epoch: nat, handle: Bytes, tiles: seq<Piece>, queue: seq<nat>)
  {
    && |net.sent| == epoch + |tiles| && |queue| <= |tiles|
    && (forall i :: 0 <= i < |tiles| ==> net.sent[epoch + i] == Write(handle, tiles[i].offset, tiles[i].data))
    && (forall i :: 0 <= i < |queue| ==> queue[i] == |net.sent| - |queue| + i)
    && (forall n :: n in claimed <==> 0 <= n < |net.sent| - |queue|)
    && (forall n :: epoch <= n < |net.sent| - |queue| ==> n in net.answers && Accepted(net.answers[n]))
  }

  lemma PipelinedSends(
    net: Network, claimed: set<nat>, epoch: nat, handle: Bytes, tiles: seq<Piece>, queue: seq<nat>,
    now: Network, tile: Piece)
    requires Pipelined(net, claimed, epoch, handle, tiles, queue)
    requires now == net.Sending(Write(handle, tile.offset, tile.data))
    ensures Pipelined(now, claimed, epoch, handle, tiles + [tile], queue + [|net.sent|])
  {
    hide Accepted;
  }

  lemma PipelinedSettles(
    net: Network, claimed: set<nat>, epoch: nat, handle: Bytes, tiles: seq<Piece>, queue: seq<nat>,
    now: Network)
    requires Pipelined(net, claimed, epoch, handle, tiles, queue) && queue != []
    requires Grew(net, now) && now.sent == net.sent
    ensures queue[0] < |net.sent| && queue[0] !in claimed && queue[0] == |net.sent| - |queue|
    ensures epoch <= queue[0] && net.sent[queue[0]].Write?
    ensures queue[0] in now.answers && Accepted(now.answers[queue[0]]) ==>
              Pipelined(now, claimed + {queue[0]}, epoch, handle, tiles, queue[1..])
  {
    hide Accepted;
    assert tiles[|tiles| - |queue|] in tiles && queue[0] == epoch + (|tiles| - |queue|);
  }

  /** The statuses of `count` requests from `first` on were all OK. */
  ghost predicate AllAccepted(net: Network, first: nat, count: nat) {
    forall n :: first <= n < first + count ==> n in net.answers && Accepted(net.answers[n])
  }

  lemma NoneUnacknowledged(net: Network, claimed: set<nat>, epoch: nat, handle: Bytes, tiles: seq<Piece>)
    requires Pipelined(net, claimed, epoch, handle, tiles, [])
    ensures AllAccepted(net, epoch, |tiles|) && AllAccepted(net.Rebased(), epoch, |tiles|)
  {
    hide Accepted;
  }

  /** Once the queue is empty the stage holds the tiles, whatever order the server took. */
  lemma AllStored(
    net: Network, replies: map<nat, Reply>, claimed: set<nat>, epoch: nat, handle: Bytes, stage: Path,
    tiles: seq<Piece>, full: Bytes)
    requires Consistent(net, replies, {}, claimed)
    requires Pipelined(net, claimed, epoch, handle, tiles, [])
    requires forall n :: n in net.settled <==> 0 <= n < epoch
    requires handle in net.base.writers && net.base.writers[handle] == stage
    requires stage in net.base.files && net.base.files[stage] == []
    requires PiecesTile(tiles, full)
    ensures net.Waiting() == {}
    ensures net.server == Server(net.base.files[stage := full], net.base.writers)
  {
    hide ReadShows, Kept, Replay, HonestRun, Accepted, Verdict, PiecesTile, WriteAll, PiecesOf;
    assert forall n :: n in net.order <==> epoch <= n < |net.sent|;
    forall i | 0 <= i < |net.order|
      ensures epoch <= net.order[i] < |net.sent|
      ensures PieceOf(net.sent[net.order[i]]) == tiles[net.order[i] - epoch]
      ensures net.sent[net.order[i]].Write? && net.sent[net.order[i]].handle == handle
      ensures net.order[i] in net.answers && net.order[i] in net.done
    {
      assert net.order[i] in net.order;
      VerdictsAreTrue(net.held, net.base, net.sent, net.answers, net.done, net.order, net.order[i]);
      AcceptedTells(net.answers[net.order[i]]);
      assert net.sent[epoch + (net.order[i] - epoch)] == net.sent[net.order[i]];
    }
    ReplayWrites(net.base, net.sent, net.answers, net.done, net.order, handle, stage);
    PiecesAreTiles(net.sent, net.order, epoch, tiles);
    WritingTiles(PiecesOf(net.sent, net.order), tiles, full);
  }

  /** Requests that are the writes of all tiles, in whatever order and however often, have just the tiles
      as their pieces. */
  lemma PiecesAreTiles(sent: seq<Request>, order: seq<nat>, epoch: nat, tiles: seq<Piece>)
    requires |sent| == epoch + |tiles|
    requires forall n :: n in order <==> epoch <= n < |sent|
    requires forall i :: 0 <= i < |order| ==>
               epoch <= order[i] < |sent| && PieceOf(sent[order[i]]) == tiles[order[i] - epoch]
    ensures forall p :: p in PiecesOf(sent, order) <==> p in tiles
  {
    hide PiecesOf, PieceOf;
    var pieces := PiecesOf(sent, order);
    PiecesOfAt(sent, order);
    forall p | p in tiles
      ensures p in pieces
    {
      var i :| 0 <= i < |tiles| && tiles[i] == p;
      assert epoch + i in order;
      var k :| 0 <= k < |order| && order[k] == epoch + i;
      assert pieces[k] == PieceOf(sent[order[k]]) == p;
    }
    forall p | p in pieces
      ensures p in tiles
    {
      var k :| 0 <= k < |pieces| && pieces[k] == p;
      assert p == tiles[order[k] - epoch];
    }
  }

  // ---------------------------------------------------------------- containment and settling

  /** A request that changes no file at all. */
  predicate Neutral(request: Request) {
    request.Close? || request.Stat? || request.SetMode? || request.Fsync?
  }

  lemma {:induction false} ReplayNeutral(
    base: Server, sent: seq<Request>, answers: map<nat, Reply>, done: set<nat>, order: seq<nat>)
    requires forall i :: 0 <= i < |order| && order[i] < |sent| ==> Neutral(sent[order[i]])
    ensures Replay(base, sent, answers, done, order).files == base.files
  {
    hide Outcome, Splice;
    if order != [] {
      ReplayNeutral(base, sent, answers, done, order[..|order| - 1]);
    }
  }

  /** Whatever has been sent since `epoch`, performed or not, reaches only the stage. */
  ghost predicate Contained(net: Network, epoch: nat, handle: Bytes, stage: Path, origin: map<Path, Bytes>) {
    && epoch <= |net.sent|
    && (forall n :: n in net.settled <==> 0 <= n < epoch)
    && (forall n :: epoch <= n < |net.sent| ==> StageOnly(net.sent[n], handle, stage))
    && WriterIs(net.base, handle, stage)
    && SameElsewhere(net.base.files, origin, stage)
  }

  /** A contained session has left every other file as it was at `origin`. */
  lemma ContainedIsUntouched(net: Network, epoch: nat, handle: Bytes, stage: Path, origin: map<Path, Bytes>)
    requires net.Numbered() && net.Replayed() && Contained(net, epoch, handle, stage, origin)
    ensures SameElsewhere(net.server.files, origin, stage) && WriterIs(net.server, handle, stage)
  {
    hide ReadShows, Kept, Replay, HonestRun, StageOnly;
    forall i | 0 <= i < |net.order| && net.order[i] < |net.sent|
      ensures StageOnly(net.sent[net.order[i]], handle, stage)
    {
      assert net.order[i] in net.order;
    }
    ReplayStageOnly(net.base, net.sent, net.answers, net.done, net.order, handle, stage);
  }

  lemma ContainedGrows(
    net: Network, epoch: nat, handle: Bytes, stage: Path, origin: map<Path, Bytes>, now: Network, request: Request)
    requires Contained(net, epoch, handle, stage, origin) && StageOnly(request, handle, stage)
    requires Grew(net, now) && net.sent <= now.sent <= net.sent + [request]
    ensures Contained(now, epoch, handle, stage, origin)
  {
    hide StageOnly, SameElsewhere;
  }

  /** The stage holds `full`, nothing is pending, and nothing sent since `epoch` changes a file. */
  ghost predicate Settled(
    net: Network, claimed: set<nat>, epoch: nat, stage: Path, full: Bytes, origin: map<Path, Bytes>)
  {
    && epoch <= |net.sent|
    && (forall n :: n in net.settled <==> 0 <= n < epoch)
    && (forall n :: 0 <= n < |net.sent| ==> n in claimed)
    && (forall n :: epoch <= n < |net.sent| ==> Neutral(net.sent[n]))
    && stage in net.base.files && net.base.files[stage] == full
    && SameElsewhere(net.base.files, origin, stage)
  }

  lemma SettledHolds(
    net: Network, replies: map<nat, Reply>, claimed: set<nat>, epoch: nat, stage: Path, full: Bytes,
    origin: map<Path, Bytes>)
    requires Consistent(net, replies, {}, claimed) && Settled(net, claimed, epoch, stage, full, origin)
    ensures net.Waiting() == {}
    ensures stage in net.server.files && net.server.files[stage] == full
    ensures SameElsewhere(net.server.files, origin, stage)
  {
    hide ReadShows, Kept, Replay, HonestRun, Neutral;
    forall i | 0 <= i < |net.order| && net.order[i] < |net.sent|
      ensures Neutral(net.sent[net.order[i]])
    {
      assert net.order[i] in net.order;
    }
    ReplayNeutral(net.base, net.sent, net.answers, net.done, net.order);
  }

  lemma SettledGrows(
    net: Network, claimed: set<nat>, epoch: nat, stage: Path, full: Bytes, origin: map<Path, Bytes>,
    now: Network, request: Request)
    requires Settled(net, claimed, epoch, stage, full, origin) && Neutral(request)
    requires Grew(net, now) && now.sent == net.sent + [request]
    ensures Settled(now, claimed + {|net.sent|}, epoch, stage, full, origin)
  {
    hide Neutral, SameElsewhere;
  }

  /** Settling starts where the queue of writes ends. */
  lemma SettlingStarts(
    net: Network, replies: map<nat, Reply>, claimed: set<nat>, epoch: nat, handle: Bytes, stage: Path,
    tiles: seq<Piece>, full: Bytes, origin: map<Path, Bytes>)
    requires Consistent(net, replies, {}, claimed)
    requires Pipelined(net, claimed, epoch, handle, tiles, [])
    requires Contained(net, epoch, handle, stage, origin)
    requires handle in net.base.writers && net.base.writers[handle] == stage
    requires stage in net.base.files && net.base.files[stage] == []
    requires PiecesTile(tiles, full)
    ensures Settled(net.Rebased(), claimed, |net.sent|, stage, full, origin)
    ensures Contained(net.Rebased(), |net.sent|, handle, stage, origin)
  {
    hide ReadShows, Kept, Replay, HonestRun, PiecesTile, StageOnly;
    AllStored(net, replies, claimed, epoch, handle, stage, tiles, full);
    assert net.queued == {};
  }

  /** A settled session can start a new history. */
  lemma SettledRestarts(
    net: Network, replies: map<nat, Reply>, claimed: set<nat>, epoch: nat, handle: Bytes, stage: Path,
    full: Bytes, origin: map<Path, Bytes>)
    requires Consistent(net, replies, {}, claimed) && Settled(net, claimed, epoch, stage, full, origin)
    requires Contained(net, epoch, handle, stage, origin)
    ensures Settled(net.Rebased(), claimed, |net.sent|, stage, full, origin)
    ensures Contained(net.Rebased(), |net.sent|, handle, stage, origin)
  {
    hide ReadShows, Kept, Replay, HonestRun, StageOnly, Neutral;
    SettledHolds(net, replies, claimed, epoch, stage, full, origin);
    ContainedIsUntouched(net, epoch, handle, stage, origin);
    assert net.queued == {};
  }

  /** A reply to a STAT of the stage does not state this size. */
  ghost predicate Misstated(net: Network, first: nat, stage: Path, size: nat) {
    exists n :: first <= n < |net.sent| && net.sent[n] == Stat(stage) && n in net.answers
                && !States(net.answers[n], size)
  }

  predicate States(reply: Reply, size: nat) {
    AttributesIn(reply).Some? && AttributesIn(reply).value.size == Some(size)
  }

  /** Why storing may fail: trouble with the session, or a stage that is said to have another size. */
  ghost predicate Hindered(net: Network, first: nat, stage: Path, size: nat) {
    Troubled(net, first) || Misstated(net, first, stage, size)
  }

  // ---------------------------------------------------------------- the sink

  ghost function Elements(queue: seq<nat>): set<nat> {
    set n | n in queue
  }

  /** The queue holds different requests that nobody has claimed. */
  ghost predicate Unclaimed(queue: seq<nat>, net: Network, claimed: set<nat>) {
    && (forall i :: 0 <= i < |queue| ==> queue[i] < |net.sent| && queue[i] !in claimed)
    && (forall i, j :: 0 <= i < j < |queue| ==> queue[i] != queue[j])
  }

  lemma UnclaimedAdvances(queue: seq<nat>, net: Network, claimed: set<nat>)
    requires queue != [] && Unclaimed(queue, net, claimed)
    ensures queue[0] < |net.sent| && queue[0] !in claimed
    ensures Unclaimed(queue[1..], net, claimed) && Unclaimed(queue[1..], net, claimed + {queue[0]})
    ensures Elements(queue) == {queue[0]} + Elements(queue[1..])
  {
    assert queue == [queue[0]] + queue[1..];
  }

  lemma UnclaimedGrows(queue: seq<nat>, net: Network, claimed: set<nat>, now: Network)
    requires Unclaimed(queue, net, claimed) && Grew(net, now)
    ensures Unclaimed(queue, now, claimed)
  {
  }

  lemma UnclaimedExtends(queue: seq<nat>, net: Network, claimed: set<nat>, now: Network)
    requires Unclaimed(queue, net, claimed) && |now.sent| == |net.sent| + 1 && |net.sent| !in claimed
    ensures Unclaimed(queue + [|net.sent|], now, claimed)
    ensures Elements(queue + [|net.sent|]) == Elements(queue) + {|net.sent|}
  {
    assert forall n :: n in queue + [|net.sent|] <==> n in queue || n == |net.sent|;
  }

  /** What an upload leaves behind on its session. No reply stays in the table unless the session was
      lost or garbled; and its handle was closed once, or not yet, unless the session was lost, when
      its CLOSE may or may not have been sent. Nothing was created since. */
  ghost predicate Tidy(
    net: Network, claimed: set<nat>, first: nat, queue: seq<nat>, name: Bytes, isOpen: bool)
  {
    && first <= |net.sent|
    && (LeftBehind(|net.sent|, first, claimed, Elements(queue)) != {} ==> net.lost || net.garbled)
    && Times(net.sent, first, Close(name)) <= (if isOpen then 0 else 1)
    && (!isOpen && !net.lost ==> Times(net.sent, first, Close(name)) == 1)
    && (forall n :: first <= n < |net.sent| ==> !net.sent[n].Create?)
  }

  /** At most one request was sent, and every number is claimed or queued that was or that is new,
      unless the session is lost or garbled. */
  lemma TidyGrows(
    net: Network, claimed: set<nat>, first: nat, queue: seq<nat>, name: Bytes, isOpen: bool,
    now: Network, claimed1: set<nat>, queue1: seq<nat>, isOpen1: bool, request: Request)
    requires Tidy(net, claimed, first, queue, name, isOpen)
    requires Grew(net, now) && net.sent <= now.sent <= net.sent + [request] && !request.Create?
    requires now.lost || now.garbled
             || forall n :: n in claimed || n in queue || |net.sent| <= n < |now.sent| ==> n in claimed1 || n in queue1
    requires if request == Close(name) then isOpen && !isOpen1 && (!now.lost ==> now.sent == net.sent + [request])
             else isOpen1 == isOpen
    ensures Tidy(now, claimed1, first, queue1, name, isOpen1)
  {
    hide Times;
    TimesUpTo(net.sent, now.sent, first, Close(name), request);
    if !now.lost && !now.garbled {
      forall n | first <= n < |now.sent|
        ensures n in claimed1 || n in Elements(queue1)
      {
        if n < |net.sent| {
          assert n !in LeftBehind(|net.sent|, first, claimed, Elements(queue));
        }
      }
    }
  }

  /** If a mode is to be kept, the server has accepted it for the stage. */
  ghost predicate ModeIsSet(net: Network, first: nat, stage: Path, mode: Option<nat>) {
    mode.Some? ==>
      exists n :: first <= n < |net.sent| && net.sent[n] == SetMode(stage, mode.value) && n in net.answers
                  && Accepted(net.answers[n])
  }

  /** The handle had one CLOSE, which was accepted. */
  ghost predicate ClosedOnce(net: Network, first: nat, name: Bytes) {
    && Times(net.sent, first, Close(name)) == 1
    && exists n :: first <= n < |net.sent| && net.sent[n] == Close(name) && n in net.answers && Accepted(net.answers[n])
  }

  lemma ClosingOnce(before: Network, first: nat, now: Network, name: Bytes, claimed: set<nat>)
    requires Tidy(before, claimed, first, [], name, true)
    requires now.sent == before.sent + [Close(name)]
    requires |before.sent| in now.answers && Accepted(now.answers[|before.sent|])
    ensures ClosedOnce(now, first, name)
  {
    hide Times;
    TimesStep(before.sent, first, Close(name), Close(name));
    assert now.sent[|before.sent|] == Close(name);
  }

  lemma ClosedStays(before: Network, first: nat, now: Network, name: Bytes, claimed: set<nat>)
    requires ClosedOnce(before, first, name) && Grew(before, now)
    requires Tidy(now, claimed, first, [], name, false)
    ensures ClosedOnce(now, first, name)
  {
    hide Accepted;
    var n :| first <= n < |before.sent| && before.sent[n] == Close(name) && n in before.answers
      && Accepted(before.answers[n]);
    assert now.sent[n] == Close(name);
    TimesAtLeast(now.sent, first, Close(name), n);
  }

  lemma {:induction false} TimesAtLeast(sent: seq<Request>, first: nat, request: Request, n: nat)
    requires first <= n < |sent| && sent[n] == request
    ensures Times(sent, first, request) >= 1
  {
    if n < |sent| - 1 {
      TimesAtLeast(sent[..|sent| - 1], first, request, n);
    }
  }

  lemma CloseIsNeutral(handle: Bytes)
    ensures Neutral(Close(handle))
  {
  }

  lemma TidyRebased(net: Network, claimed: set<nat>, first: nat, queue: seq<nat>, name: Bytes, isOpen: bool)
    requires Tidy(net, claimed, first, queue, name, isOpen)
    ensures Tidy(net.Rebased(), claimed, first, queue, name, isOpen)
  {
  }

  lemma TidyFirst(net: Network, claimed: set<nat>, first: nat, queue: seq<nat>, name: Bytes, isOpen: bool)
    requires Tidy(net, claimed, first, queue, name, isOpen)
    ensures first <= |net.sent|
  {
  }

  lemma TidyStarts(net: Network, claimed: set<nat>, name: Bytes)
    ensures Tidy(net, claimed, |net.sent|, [], name, true)
  {
  }

  /** How many requests so many bytes take, each as large as may be. */
  function PiecesIn(bytes: nat): nat {
    (bytes + REQUEST_SIZE - 1) / REQUEST_SIZE
  }

  lemma OneMoreRequest(start: nat, bytes: nat)
    requires start % REQUEST_SIZE == 0 && 0 < bytes <= REQUEST_SIZE
    ensures PiecesIn(start + bytes) == PiecesIn(start) + 1
    ensures bytes == REQUEST_SIZE ==> (start + bytes) % REQUEST_SIZE == 0
    ensures PiecesIn(0) == 0
  {
  }

  /** The stage was synced, if the server can; its size was stated right; and it has the mode to be kept. */
  ghost predicate Sealed(net: Network, first: nat, name: Bytes, stage: Path, size: nat, mode: Option<nat>) {
    IsSynced(net, first, name) && IsProved(net, first, stage, size) && ModeIsSet(net, first, stage, mode)
  }

  ghost predicate IsSynced(net: Network, first: nat, name: Bytes) {
    exists n :: first <= n < |net.sent| && net.sent[n] == Fsync(name) && n in net.answers
                && !Amiss(Fsync(name), net.answers[n])
  }

  ghost predicate IsProved(net: Network, first: nat, stage: Path, size: nat) {
    exists n :: first <= n < |net.sent| && net.sent[n] == Stat(stage) && n in net.answers
                && States(net.answers[n], size)
  }

  lemma SyncedBy(net: Network, first: nat, name: Bytes, n: nat)
    requires first <= n < |net.sent| && net.sent[n] == Fsync(name) && n in net.answers
    requires var outcome := Outcome(net.answers[n], CMD_STATUS);
             outcome.Ok? || outcome.error == Status(SFTP_OP_UNSUPPORTED)
    ensures IsSynced(net, first, name)
  {
    hide Outcome;
  }

  lemma SyncedStays(before: Network, now: Network, first: nat, name: Bytes)
    requires Grew(before, now) && IsSynced(before, first, name)
    ensures IsSynced(now, first, name)
  {
    hide Amiss;
    var n :| first <= n < |before.sent| && before.sent[n] == Fsync(name) && n in before.answers
      && !Amiss(Fsync(name), before.answers[n]);
    assert now.sent[n] == Fsync(name) && !Amiss(Fsync(name), now.answers[n]);
  }

  lemma ProvedStays(before: Network, now: Network, first: nat, stage: Path, size: nat)
    requires Grew(before, now) && IsProved(before, first, stage, size)
    ensures IsProved(now, first, stage, size)
  {
    hide States;
    var n :| first <= n < |before.sent| && before.sent[n] == Stat(stage) && n in before.answers
      && States(before.answers[n], size);
    assert now.sent[n] == Stat(stage) && States(now.answers[n], size);
  }

  class Upload {
    const requests: Requests
    const name: Bytes  // the handle the server gave the stage
    const stage: Path
    const mode: Option<nat>
    var handle: Option<Bytes>
    var unacknowledged: seq<nat>
    var finished: bool
    var size: nat
    ghost const origin: map<Path, Bytes>  // the server's files when the stage was opened
    ghost var written: Bytes     // every byte `Write` has accepted
    ghost var tiles: seq<Piece>  // the pieces it was sent in
    ghost var epoch: nat         // the first request of the current history
    ghost const first: nat       // the first request after the stage was opened

    /** A sink for the stage that was just created, on a session with nothing else pending. */
    constructor (requests: Requests, name: Bytes, stage: Path, mode: Option<nat>)
      requires requests.Valid() && requests.ignored == {}
      requires requests.net == requests.net.Rebased()
      requires forall n :: n in requests.claimed <==> 0 <= n < |requests.net.sent|
      requires name in requests.net.server.writers && requests.net.server.writers[name] == stage
      requires stage in requests.net.server.files && requests.net.server.files[stage] == []
      ensures Writing() && Releasable() && written == [] && !finished && first == |requests.net.sent|
      ensures this.requests == requests && this.stage == stage && this.name == name && this.mode == mode
      ensures origin == requests.net.server.files
    {
      this.requests, this.name, this.stage, this.mode := requests, name, stage, mode;
      handle, unacknowledged, finished, size := Some(name), [], false, 0;
      origin, written, tiles, epoch := requests.net.server.files, [], [], |requests.net.sent|;
      first := |requests.net.sent|;
      new;
      EverythingIsAnswered();
      TidyStarts(requests.net, requests.claimed, name);
    }

    lemma EverythingIsAnswered()
      requires requests.Valid() && requests.ignored == {}
      requires forall n :: n in requests.claimed <==> 0 <= n < |requests.net.sent|
      ensures forall n :: n in requests.net.answers <==> 0 <= n < |requests.net.sent|
      ensures requests.net.Waiting() == {}
    {
      hide ReadShows, Kept, Replay;
    }

    /** The state from which `Release` cleans up; it survives every failure, and in it the upload
        has reached no file but its stage. */
    ghost predicate Releasable()
      reads this, requests
    {
      Closable() && Contained(requests.net, epoch, name, stage, origin)
    }

    /** The queue and the handle are in order, whatever else the session was used for. */
    ghost predicate Closable()
      reads this, requests
    {
      && requests.Valid()
      && Unclaimed(unacknowledged, requests.net, requests.claimed)
      && (handle.Some? ==> handle.value == name) && first <= epoch
      && Tidy(requests.net, requests.claimed, first, unacknowledged, name, handle.Some?)
    }

    /** The sink takes bytes: every write so far was sent, and none is known to have failed. */
    ghost predicate Writing()
      reads this, requests
    {
      && requests.Valid() && requests.ignored == {} && Releasable()
      && handle.Some? && !finished && size == |written|
      && Pipelined(requests.net, requests.claimed, epoch, name, tiles, unacknowledged)
      && |unacknowledged| <= WINDOW
      && PiecesTile(tiles, written)
      && name in requests.net.base.writers && requests.net.base.writers[name] == stage
      && stage in requests.net.base.files && requests.net.base.files[stage] == []
    }

    /** Every byte is stored, and no request is pending. */
    ghost predicate Stored()
      reads this, requests
    {
      && requests.Valid() && requests.ignored == {} && Releasable()
      && unacknowledged == [] && size == |written|
      && Settled(requests.net, requests.claimed, epoch, stage, written, origin)
    }

    /** Receive the status of the oldest write. */
    method Acknowledge() returns (r: Result<(), Problem>)
      requires Writing() && unacknowledged != []
      modifies this`unacknowledged, requests
      ensures Releasable() && Grew(old(requests.net), requests.net)
      ensures r.Ok? ==> Writing() && |unacknowledged| == |old(unacknowledged)| - 1
      ensures requests.net.sent == old(requests.net).sent
      ensures r.Err? ==> Troubled(requests.net, first) && Met(requests.net, first, r.error)
    {
      hide Met;
      hide Consistent, Grew, Unclaimed, Pipelined, PiecesTile, Elements, StageOnly, SameElsewhere, Accepted, Troubled;
      ghost var before := requests.net;
      UnclaimedAdvances(unacknowledged, requests.net, requests.claimed);
      var number := unacknowledged[0];
      unacknowledged := unacknowledged[1..];
      var status := requests.Receive(number, CMD_STATUS);
      UnclaimedGrows(unacknowledged, before, requests.claimed, requests.net);
      NeutralGrowth(before, requests.net);
      TidyGrows(before, old(requests.claimed), first, old(unacknowledged), name, true, requests.net,
                requests.claimed, unacknowledged, true, Stat(stage));
      PipelinedSettles(before, old(requests.claimed), epoch, name, tiles, old(unacknowledged), requests.net);
      BrokenIsTroubled(requests.net, first);
      GrewHoldsBase(before, requests.net);
      if status.Err? {
        BrokenIsMet(requests.net, first, status.error);
        if status.error.Status? {
          AcceptedMeans(requests.net.answers[number]);
          TroubledBy(requests.net, first, number);
          MetBy(requests.net, first, number, status.error);
        }
        return Err(status.error);
      }
      AcceptedMeans(requests.net.answers[number]);
      r := Ok(());
    }

    /** Send every byte on, as requests of at most REQUEST_SIZE with at most WINDOW unacknowledged.
        A failed status may be reported only later. */
    method WriteBytes(data: Bytes) returns (r: Result<(), ErrorCode>)
      requires Writing()
      modifies this, requests
      ensures Releasable() && Grew(old(requests.net), requests.net)
      ensures r.Ok? ==> Writing() && written == old(written) + data
      ensures r.Ok? ==>
                && |requests.net.sent| == |old(requests.net).sent| + PiecesIn(|data|)
                && |unacknowledged| == Min(WINDOW, |old(unacknowledged)| + PiecesIn(|data|))
      ensures r.Err? ==>
                && Troubled(requests.net, first)
                && Translates(requests.net, first, r.error, None, Some(DestinationNotWritable), None)
    {
      hide Met, Translate;
      hide Consistent, Grew, Unclaimed, Pipelined, PiecesTile, Elements, Contained, Troubled;
      GrewIsReflexive(requests.net);
      var start := 0;
      while start < |data|
        invariant Writing() && Grew(old(requests.net), requests.net)
        invariant start <= |data| && written == old(written) + data[..start]
        invariant start < |data| ==> start % REQUEST_SIZE == 0
        invariant |requests.net.sent| == |old(requests.net).sent| + PiecesIn(start)
        invariant |unacknowledged| == Min(WINDOW, |old(unacknowledged)| + PiecesIn(start))
      {
        ghost var before := requests.net;
        if |unacknowledged| >= WINDOW {
          var status := Acknowledge();
          GrewIsTransitive(old(requests.net), before, requests.net);
          if status.Err? {
            return Err(Translate(status.error, None, Some(DestinationNotWritable), None));
          }
        }
        ghost var acknowledged := requests.net;
        var chunk := data[start..Min(start + REQUEST_SIZE, |data|)];
        var sent := SendPiece(chunk);
        GrewIsTransitive(old(requests.net), acknowledged, requests.net);
        if sent.Err? {
          return Err(Translate(sent.error, None, Some(DestinationNotWritable), None));
        }
        assert data[..start] + chunk == data[..start + |chunk|];
        OneMoreRequest(start, |chunk|);
        start := start + |chunk|;
      }
      assert data[..start] == data;
      r := Ok(());
    }

    /** Send one WRITE at the end of what was sent before. */
    method SendPiece(chunk: Bytes) returns (r: Result<(), Problem>)
      requires Writing() && 0 < |chunk| <= REQUEST_SIZE && |unacknowledged| < WINDOW
      modifies this, requests`net
      ensures Releasable() && Grew(old(requests.net), requests.net)
      ensures r.Ok? ==>
                && Writing() && written == old(written) + chunk
                && |requests.net.sent| == |old(requests.net).sent| + 1 && |unacknowledged| == |old(unacknowledged)| + 1
      ensures r.Err? ==> Troubled(requests.net, first) && Met(requests.net, first, r.error)
    {
      hide Met;
      hide Consistent, Grew, Unclaimed, Pipelined, PiecesTile, Elements, Contained, Troubled;
      ghost var before, tile := requests.net, Piece(size, chunk);
      var number := requests.Send(Write(handle.value, size, chunk));
      ContainedGrows(before, epoch, name, stage, origin, requests.net, Write(name, size, chunk));
      if number.Err? {
        UnclaimedGrows(unacknowledged, before, requests.claimed, requests.net);
        TidyGrows(before, requests.claimed, first, unacknowledged, name, true, requests.net, requests.claimed,
                  unacknowledged, true, Write(name, size, chunk));
        BrokenIsTroubled(requests.net, first);
        BrokenIsMet(requests.net, first, Lost);
        return Err(number.error);
      }
      PipelinedSends(before, requests.claimed, epoch, name, tiles, unacknowledged, requests.net, tile);
      UnclaimedExtends(unacknowledged, before, requests.claimed, requests.net);
      TileAdded(tiles, written, tile);
      TidyGrows(before, requests.claimed, first, unacknowledged, name, true, requests.net, requests.claimed,
                unacknowledged + [number.value], true, Write(name, size, chunk));
      unacknowledged := unacknowledged + [number.value];
      size := size + |chunk|;
      written, tiles := written + chunk, tiles + [tile];
      GrewHoldsBase(before, requests.net);
      r := Ok(());
    }

    /** Collect every write status. All were OK if this succeeds, and then the stage holds every
        byte written. */
    method Settle() returns (r: Result<(), Problem>)
      requires Writing()
      modifies this`unacknowledged, this`epoch, requests
      ensures Releasable()
      ensures r.Ok? ==> Stored() && AllAccepted(requests.net, old(epoch), |old(tiles)|)
      ensures r.Err? ==> Troubled(requests.net, first) && Met(requests.net, first, r.error)
    {
      hide Troubled, Met;
      hide Consistent, Grew, Unclaimed, Pipelined, PiecesTile, Elements, Contained, Settled, AllAccepted;
      while unacknowledged != []
        invariant Writing() && epoch == old(epoch)
        decreases |unacknowledged|
      {
        var status := Acknowledge();
        if status.Err? {
          return Err(status.error);
        }
      }
      NoneUnacknowledged(requests.net, requests.claimed, epoch, name, tiles);
      SettlingStarts(requests.net, requests.replies, requests.claimed, epoch, name, stage, tiles, written, origin);
      UnclaimedNone(requests.net.Rebased(), requests.claimed);
      requests.Rebase();
      epoch := |requests.net.sent|;
      r := Ok(());
    }

    /** A request that changes no file, once everything is stored. */
    method CallNeutral(request: Request, expected: int) returns (r: Result<Bytes, Problem>)
      requires Stored() && Neutral(request) && !request.Close?
      modifies requests
      ensures Releasable() && Grew(old(requests.net), requests.net)
      ensures r.Ok? || r.error.Status? ==> Stored() && Answered(|old(requests.net).sent|, request, expected, r)
      ensures r.Err? && !r.error.Status? ==> Troubled(requests.net, first)
      ensures r.Err? && expected == KindOf(request) ==> Met(requests.net, first, r.error)
    {
      hide Met, KindOf;
      hide Consistent, Grew, Unclaimed, Elements, Contained, Settled, Neutral, StageOnly, Outcome, Tidy, Troubled;
      ghost var before := requests.net;
      TidyFirst(before, requests.claimed, first, [], name, handle.Some?);
      r := requests.Call(request, expected);
      Called(before, old(requests.claimed), request);
      BrokenIsTroubled(requests.net, first);
      if r.Err? {
        BrokenIsMet(requests.net, first, r.error);
        if r.error.Status? && expected == KindOf(request) {
          MetBy(requests.net, first, |before.sent|, r.error);
        }
      }
      if r.Ok? || r.error.Status? {
        SettledGrows(before, old(requests.claimed), epoch, stage, written, origin, requests.net, request);
      }
      TidyGrows(before, old(requests.claimed), first, [], name, handle.Some?, requests.net, requests.claimed, [],
                handle.Some?, request);
    }

    /** The outcome is what the reply to this request says. */
    ghost predicate Answered(n: nat, request: Request, expected: int, outcome: Result<Bytes, Problem>)
      reads requests
    {
      && first <= n < |requests.net.sent| && requests.net.sent[n] == request && n in requests.net.answers
      && outcome == Outcome(requests.net.answers[n], expected)
    }

    /** What one request more leaves of a settled upload. */
    lemma Called(before: Network, claimed: set<nat>, request: Request)
      requires Neutral(request) && Contained(before, epoch, name, stage, origin) && Grew(before, requests.net)
      requires before.sent <= requests.net.sent <= before.sent + [request]
      ensures !request.Create?
      ensures Contained(requests.net, epoch, name, stage, origin)
      ensures Unclaimed([], requests.net, requests.claimed)
    {
      hide StageOnly, Contained, Neutral, Grew;
      NeutralIsStageOnly(request);
      ContainedGrows(before, epoch, name, stage, origin, requests.net, request);
      UnclaimedNone(requests.net, requests.claimed);
    }

    /** The one CLOSE of the handle, once everything is stored. */
    method CloseHandle() returns (r: Result<Bytes, Problem>)
      requires Stored() && handle.Some?
      modifies this`handle, requests
      ensures Releasable() && handle == None && Grew(old(requests.net), requests.net)
      ensures r.Ok? ==> Stored() && ClosedOnce(requests.net, first, name)
      ensures r.Err? ==> Troubled(requests.net, first) && Met(requests.net, first, r.error)
    {
      hide Met;
      hide Consistent, Grew, Unclaimed, Elements, Contained, Settled, Neutral, StageOnly, Outcome, Tidy, ClosedOnce;
      hide Troubled;
      TidyFirst(requests.net, requests.claimed, first, [], name, true);
      ghost var before := requests.net;
      var closing := handle.value;
      handle := None;
      r := requests.Call(Close(closing), CMD_STATUS);
      assert Neutral(Close(name)) by { CloseIsNeutral(name); }
      Called(before, old(requests.claimed), Close(name));
      TidyGrows(before, old(requests.claimed), first, [], name, true, requests.net, requests.claimed, [], false,
                Close(name));
      BrokenIsTroubled(requests.net, first);
      if r.Err? {
        BrokenIsMet(requests.net, first, r.error);
        if r.error.Status? {
          AcceptedMeans(requests.net.answers[|before.sent|]);
          TroubledBy(requests.net, first, |before.sent|);
          MetBy(requests.net, first, |before.sent|, r.error);
        }
      }
      if r.Ok? {
        SettledGrows(before, old(requests.claimed), epoch, stage, written, origin, requests.net, Close(name));
        AcceptedMeans(requests.net.answers[|before.sent|]);
        ClosingOnce(before, first, requests.net, name, old(requests.claimed));
      }
    }

    lemma NeutralIsStageOnly(request: Request)
      requires Neutral(request)
      ensures StageOnly(request, name, stage) && !request.Create?
    {
    }

    /** The stage is complete and its handle had its one CLOSE, which was accepted, if this succeeds;
        called again after that, it has no effect. Nothing but the stage was touched if it fails. */
    method Finish() returns (r: Result<(), ErrorCode>)
      requires if finished then Stored() else Writing()
      modifies this`finished, this`unacknowledged, this`epoch, this`handle, requests
      ensures Releasable()
      ensures r.Ok? ==> Stored() && finished && handle == if old(finished) then old(handle) else None
      ensures r.Ok? && !old(finished) ==> ClosedOnce(requests.net, first, name)
      ensures old(finished) ==>
                r.Ok? && requests.net == old(requests.net) && requests.claimed == old(requests.claimed)
      ensures r.Err? ==> Hindered(requests.net, first, stage, size) && IsReported(r.error)
      ensures r.Ok? && !old(finished) ==> Sealed(requests.net, first, name, stage, size, mode)
    {
      hide ModeIsSet, IsSynced, IsProved, Met;
      hide Consistent, Unclaimed, Pipelined, PiecesTile, Elements, Contained, Settled, Translate, Troubled, Misstated;
      if finished {
        return Ok(());
      }
      var settled := Settle();
      if settled.Err? {
        return Err(Translate(settled.error, None, Some(DestinationNotWritable), None));
      }
      var closed := SyncAndClose();
      if closed.Err? {
        return Err(Translate(closed.error, None, Some(DestinationNotWritable), None));
      }
      ghost var before := requests.net;
      r := ProveAndCopyMode();
      ClosedStays(before, first, requests.net, name, requests.claimed);
      SyncedStays(before, requests.net, first, name);
      if r.Ok? {
        finished := true;
      }
    }

    /** The code of a failed `Finish`: of what the session has met, or of a size that is not stated right. */
    ghost predicate IsReported(code: ErrorCode)
      reads this`size, requests
    {
      || Translates(requests.net, first, code, None, Some(DestinationNotWritable), None)
      || Translates(requests.net, first, code, None, None, None)
      || (code == SftpOperationFailed && Misstated(requests.net, first, stage, size))
    }

    method SyncAndClose() returns (r: Result<(), Problem>)
      requires Stored() && handle.Some?
      modifies this`handle, requests
      ensures Releasable()
      ensures r.Ok? ==>
                && Stored() && handle == None && ClosedOnce(requests.net, first, name)
                && IsSynced(requests.net, first, name)
      ensures r.Err? ==> Troubled(requests.net, first) && Met(requests.net, first, r.error)
    {
      hide Met;
      hide Consistent, Grew, Unclaimed, Elements, Contained, Settled, Tidy, ClosedOnce, Troubled, Outcome, IsSynced;
      ghost var n := |requests.net.sent|;
      var synced := CallNeutral(Fsync(handle.value), CMD_STATUS);
      if synced.Err? && synced.error != Status(SFTP_OP_UNSUPPORTED) {
        if synced.error.Status? {
          TroubledBy(requests.net, first, n);
        }
        return Err(synced.error);
      }
      SyncedBy(requests.net, first, name, n);
      ghost var before := requests.net;
      var closed := CloseHandle();
      SyncedStays(before, requests.net, first, name);
      if closed.Err? {
        return Err(closed.error);
      }
      r := Ok(());
    }

    method ProveAndCopyMode() returns (r: Result<(), ErrorCode>)
      requires Stored()
      modifies requests
      ensures Releasable() && Grew(old(requests.net), requests.net)
      ensures r.Ok? ==> Stored()
      ensures r.Err? ==> Hindered(requests.net, first, stage, size) && IsReported(r.error)
      ensures r.Ok? ==> IsProved(requests.net, first, stage, size) && ModeIsSet(requests.net, first, stage, mode)
    {
      hide IsProved, Met, Translate;
      hide Consistent, Grew, Unclaimed, Elements, Contained, Settled, Troubled, Misstated, Outcome, Tidy, Accepted;
      var stored := StoredSize();
      if stored.Err? {
        return Err(Translate(stored.error, None, Some(DestinationNotWritable), None));
      }
      if stored.value != Some(size) {
        return Err(SftpOperationFailed);
      }
      if mode.Some? {
        ghost var proved, n := requests.net, |requests.net.sent|;
        var copied := CallNeutral(SetMode(stage, mode.value), CMD_STATUS);
        GrewIsTransitive(old(requests.net), proved, requests.net);
        ProvedStays(proved, requests.net, first, stage, size);
        if copied.Ok? || copied.error.Status? {
          AcceptedMeans(requests.net.answers[n]);
        }
        if copied.Err? {
          if copied.error.Status? {
            TroubledBy(requests.net, first, n);
          }
          return Err(Translate(copied.error, None, None, None));
        }
      }
      r := Ok(());
    }

    /** The stage's size as the server reports it, if it does. */
    method StoredSize() returns (r: Result<Option<nat>, Problem>)
      requires Stored()
      modifies requests
      ensures Releasable() && Grew(old(requests.net), requests.net)
      ensures r.Ok? ==> Stored()
      ensures r.Err? ==> Hindered(requests.net, first, stage, size) && Met(requests.net, first, r.error)
      ensures r.Ok? && r.value != Some(size) ==> Misstated(requests.net, first, stage, size)
      ensures r == Ok(Some(size)) ==> IsProved(requests.net, first, stage, size)
    {
      hide Consistent, Grew, Unclaimed, Elements, Contained, Settled, AttributesOf, Troubled, Outcome, Tidy, Met;
      ghost var n := |requests.net.sent|;
      var reply := CallNeutral(Stat(stage), CMD_ATTRS);
      if reply.Err? {
        return Err(reply.error);
      }
      var attributes := ParseAttributes(reply.value);
      match attributes
      case Err(problem) =>
        MetBy(requests.net, first, n, problem);
        r := Err(problem);
      case Ok(value) => r := Ok(value.size);
    }

    /** Ignore every write in flight, and close the handle unless that was tried before. Whatever has
        failed, `Tidy` says of the closed upload that its handle had exactly one CLOSE, or at most one
        if the session was lost, and that no reply is left behind unless it was lost or garbled. */
    method Release()
      requires Closable()
      modifies this`unacknowledged, this`handle, requests
      ensures Closable() && unacknowledged == [] && handle == None && Grew(old(requests.net), requests.net)
      ensures old(Releasable()) ==> Releasable()
      ensures old(unacknowledged) == [] && old(handle) == None ==>
                requests.net == old(requests.net) && requests.claimed == old(requests.claimed)
    {
      hide Consistent, Grew, Unclaimed, Elements, Contained, Tidy;
      GrewIsReflexive(requests.net);
      while unacknowledged != []
        invariant Closable() && requests.net == old(requests.net) && handle == old(handle)
        invariant |unacknowledged| <= |old(unacknowledged)|
        invariant old(unacknowledged) == [] ==> requests.claimed == old(requests.claimed)
      {
        ghost var queue, claimed := unacknowledged, requests.claimed;
        UnclaimedAdvances(unacknowledged, requests.net, requests.claimed);
        requests.Ignore(unacknowledged[0]);
        unacknowledged := unacknowledged[1..];
        TidyGrows(requests.net, claimed, first, queue, name, handle.Some?, requests.net, requests.claimed,
                  unacknowledged, handle.Some?, Stat(stage));
      }
      if handle.Some? {
        ghost var before, claimed := requests.net, requests.claimed;
        var closing := handle.value;
        handle := None;
        requests.CloseQuietly(closing);
        if old(Releasable()) {
          ContainedGrows(before, epoch, name, stage, origin, requests.net, Close(closing));
        }
        UnclaimedNone(requests.net, requests.claimed);
        TidyGrows(before, claimed, first, [], name, true, requests.net, requests.claimed, [], false, Close(name));
      }
    }

    /** Forget the history so far. */
    method Restart()
      requires Stored()
      modifies this`epoch, requests`net
      ensures Stored() && requests.net == old(requests.net).Rebased() && epoch == |requests.net.sent|
      ensures requests.net.server == old(requests.net).server
    {
      hide Consistent, Unclaimed, Elements, StageOnly;
      SettledRestarts(
        requests.net, requests.replies, requests.claimed, epoch, name, stage, written, origin);
      requests.Rebase();
      epoch := |requests.net.sent|;
      UnclaimedNone(requests.net, requests.claimed);
    }

    lemma NeutralGrowth(before: Network, now: Network)
      requires Contained(before, epoch, name, stage, origin) && Grew(before, now) && now.sent == before.sent
      ensures Contained(now, epoch, name, stage, origin)
    {
      ContainedGrows(before, epoch, name, stage, origin, now, Stat(stage));
    }
  }

  lemma TileAdded(tiles: seq<Piece>, full: Bytes, tile: Piece)
    requires PiecesTile(tiles, full) && tile.offset == |full| && 0 < |tile.data| <= REQUEST_SIZE
    ensures PiecesTile(tiles + [tile], full + tile.data)
  {
    assert (tiles + [tile])[..|tiles|] == tiles;
    assert (full + tile.data)[..|full|] == full;
  }

  lemma UnclaimedNone(net: Network, claimed: set<nat>)
    ensures Unclaimed([], net, claimed) && Elements([]) == {}
  {
  }

  lemma AcceptedMeans(reply: Reply)
    ensures Accepted(reply) <==> Outcome(reply, CMD_STATUS).Ok?
  {
  }

  lemma GrewHoldsBase(before: Network, now: Network)
    requires Grew(before, now)
    ensures now.base == before.base
  {
  }
}
