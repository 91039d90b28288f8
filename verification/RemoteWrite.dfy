/** Writing one remote file: create a stage, fill it, and publish it by a rename, or leave no trace. */
module RemoteWrite {
  import opened Common
  import opened Wire
  import opened Session
  import opened RemoteStage

  predicate IsRegular(mode: nat) {
    mode / 0x1000 % 16 == 8
  }

  function Permissions(mode: nat): nat {
    mode % 0x1000
  }

  /** The kind of a file and its permissions share its mode: the kind is in the four bits above the
      twelve of the permissions. */
  lemma ModeParts(high: nat, kind: nat, permissions: nat)
    requires kind < 16 && permissions < 4096
    ensures IsRegular(high * 65536 + kind * 4096 + permissions) <==> kind == 8
    ensures Permissions(high * 65536 + kind * 4096 + permissions) == permissions
  {
  }

  function PublishRequest(stage: Path, destination: Path, overwrite: bool): Request {
    if overwrite then PosixRename(stage, destination) else Rename(stage, destination)
  }

  // ---------------------------------------------------------------- the two possible outcomes

  /** The destination is as it was; what is left of the stage is complete. */
  ghost predicate Unpublished(files: map<Path, Bytes>, origin: map<Path, Bytes>, stage: Path, full: Bytes) {
    SameElsewhere(files, origin, stage) && (stage in files ==> files[stage] == full)
  }

  /** The destination holds the whole payload; everything else is as it was, and the stage is gone. */
  ghost predicate Published(
    files: map<Path, Bytes>, origin: map<Path, Bytes>, stage: Path, destination: Path, full: Bytes)
  {
    && stage !in files && destination in files && files[destination] == full
    && forall path :: path != stage && path != destination ==>
         (path in files <==> path in origin) && (path in files ==> files[path] == origin[path])
  }

  ghost predicate Either(
    files: map<Path, Bytes>, origin: map<Path, Bytes>, stage: Path, destination: Path, full: Bytes)
  {
    Unpublished(files, origin, stage, full) || Published(files, origin, stage, destination, full)
  }

  predicate PublishOnly(request: Request, stage: Path, destination: Path, overwrite: bool) {
    Neutral(request) || request == Remove(stage) || request == PublishRequest(stage, destination, overwrite)
  }

  lemma PerformPublishing(
    server: Server, request: Request, reply: Reply, done: bool, origin: map<Path, Bytes>, stage: Path,
    destination: Path, overwrite: bool, full: Bytes)
    requires stage != destination && PublishOnly(request, stage, destination, overwrite)
    requires Either(server.files, origin, stage, destination, full)
    ensures Either(Perform(server, request, reply, done).files, origin, stage, destination, full)
  {
    hide Outcome;
  }

  /** Whatever the server does with a publication and a cleanup, in whatever order, the outcome is
      one of the two. */
  lemma {:induction false} ReplayPublishing(
    base: Server, sent: seq<Request>, answers: map<nat, Reply>, done: set<nat>, order: seq<nat>,
    origin: map<Path, Bytes>,
    stage: Path, destination: Path, overwrite: bool, full: Bytes)
    requires stage != destination
    requires forall i :: 0 <= i < |order| && order[i] < |sent| ==>
               PublishOnly(sent[order[i]], stage, destination, overwrite)
    requires Either(base.files, origin, stage, destination, full)
    ensures Either(Replay(base, sent, answers, done, order).files, origin, stage, destination, full)
  {
    hide PublishOnly, Perform, Either;
    if order != [] {
      var n, before := order[|order| - 1], order[..|order| - 1];
      ReplayPublishing(base, sent, answers, done, before, origin, stage, destination, overwrite, full);
      if n < |sent| && n in answers {
        PerformPublishing(
          Replay(base, sent, answers, done, before), sent[n], answers[n], n in done, origin, stage,
          destination, overwrite, full);
      }
    }
  }

  ghost predicate Publishing(
    net: Network, epoch: nat, origin: map<Path, Bytes>, stage: Path, destination: Path, overwrite: bool,
    full: Bytes)
  {
    && epoch <= |net.sent|
    && (forall n :: n in net.settled <==> 0 <= n < epoch)
    && (forall n :: epoch <= n < |net.sent| ==> PublishOnly(net.sent[n], stage, destination, overwrite))
    && Either(net.base.files, origin, stage, destination, full)
  }

  lemma PublishingHolds(
    net: Network, epoch: nat, origin: map<Path, Bytes>, stage: Path, destination: Path, overwrite: bool,
    full: Bytes)
    requires net.Numbered() && net.Replayed() && stage != destination
    requires Publishing(net, epoch, origin, stage, destination, overwrite, full)
    ensures Either(net.server.files, origin, stage, destination, full)
  {
    hide ReadShows, Kept, Replay, HonestRun, PublishOnly, Either;
    forall i | 0 <= i < |net.order| && net.order[i] < |net.sent|
      ensures PublishOnly(net.sent[net.order[i]], stage, destination, overwrite)
    {
      assert net.order[i] in net.order;
    }
    ReplayPublishing(net.base, net.sent, net.answers, net.done, net.order, origin, stage, destination, overwrite, full);
  }

  lemma PublishingGrows(
    net: Network, epoch: nat, origin: map<Path, Bytes>, stage: Path, destination: Path, overwrite: bool,
    full: Bytes, now: Network, request: Request)
    requires Publishing(net, epoch, origin, stage, destination, overwrite, full)
    requires PublishOnly(request, stage, destination, overwrite)
    requires Grew(net, now) && net.sent <= now.sent <= net.sent + [request]
    ensures Publishing(now, epoch, origin, stage, destination, overwrite, full)
  {
    hide PublishOnly, Either;
  }

  // ---------------------------------------------------------------- an answered publication

  /** A server that performed one request, perhaps reported more than once, is as after one. */
  lemma {:induction false} ReplayOne(
    held: map<Bytes, Bytes>, base: Server, sent: seq<Request>, answers: map<nat, Reply>, done: set<nat>,
    order: seq<nat>, n: nat)
    requires n < |sent| && n in answers && order != []
    requires forall i :: 0 <= i < |order| ==> order[i] == n
    requires sent[n].Rename? || sent[n].PosixRename? ==> sent[n].from != sent[n].to
    requires sent[n].Rename? || sent[n].PosixRename? || sent[n].Create?
    requires HonestRun(held, base, sent, answers, done, order)
    ensures Honest(held, base, sent[n], answers[n], n in done)
    ensures Replay(base, sent, answers, done, order) == Perform(base, sent[n], answers[n], n in done)
  {
    hide Verdict, Carried;
    var before := order[..|order| - 1];
    if before != [] {
      ReplayOne(held, base, sent, answers, done, before, n);
    }
  }

  lemma PerformedPublishes(
    base: Server, reply: Reply, origin: map<Path, Bytes>, stage: Path, destination: Path, overwrite: bool, full: Bytes)
    requires stage != destination && stage in base.files && base.files[stage] == full
    requires SameElsewhere(base.files, origin, stage)
    ensures var request := PublishRequest(stage, destination, overwrite);
            && Perform(base, request, reply, false) == base
            && (Possible(base, request, reply) ==>
                  && Published(Perform(base, request, reply, true).files, origin, stage, destination, full)
                  && (!overwrite ==> destination !in origin))
  {
    hide Carried;
  }

  /** A reply that tells decides the publication: it happened, onto a free name if RENAME was asked, or
      nothing changed. */
  lemma AnsweredPublication(
    before: Network, claimed0: set<nat>, net: Network, replies: map<nat, Reply>, claimed: set<nat>,
    origin: map<Path, Bytes>, stage: Path, destination: Path, overwrite: bool, full: Bytes)
    requires stage != destination
    requires Consistent(net, replies, {}, claimed) && claimed == claimed0 + {|before.sent|}
    requires Settled(before, claimed0, |before.sent|, stage, full, origin)
    requires Grew(before, net) && net.sent == before.sent + [PublishRequest(stage, destination, overwrite)]
    requires |before.sent| in net.answers
    ensures net.Waiting() == {}
    ensures Verdict(net.answers[|before.sent|]) == Some(true) ==>
              && Published(net.server.files, origin, stage, destination, full)
              && (!overwrite ==> destination !in origin)
    ensures Verdict(net.answers[|before.sent|]) == Some(false) ==> net.server == net.base
  {
    hide ReadShows, Kept, Verdict, Replay, HonestRun, Perform, Possible, Published, SameElsewhere;
    var n := |before.sent|;
    PerformedPublishes(net.base, net.answers[n], origin, stage, destination, overwrite, full);
    assert forall m :: m in net.Waiting() ==> m < |net.sent|;
    assert forall m :: 0 <= m < |net.sent| ==> m in claimed;
    assert n in net.order;
    forall i | 0 <= i < |net.order|
      ensures net.order[i] == n
    {
      assert net.order[i] in net.order;
    }
    ReplayOne(net.held, net.base, net.sent, net.answers, net.done, net.order, n);
  }

  /** The client has no reply that tells whether the request took effect. */
  ghost predicate Untold(net: Network, claimed: set<nat>, n: nat) {
    n !in claimed || (n in net.answers && Verdict(net.answers[n]).None?)
  }

  /** A request was sent, and nothing tells what became of it. */
  ghost predicate Unanswered(net: Network, claimed: set<nat>, first: nat, request: Request) {
    exists n :: first <= n < |net.sent| && net.sent[n] == request && Untold(net, claimed, n)
  }

  lemma FirstUntold(
    before: Network, now: Network, claimed: set<nat>, first: nat, name: Bytes, claimed0: set<nat>, request: Request)
    requires Tidy(before, claimed0, first, [], name, false)
    ensures now.sent == before.sent + [request] && Untold(now, claimed, |before.sent|) ==>
              Unanswered(now, claimed, first, request)
  {
    hide Untold;
    if now.sent == before.sent + [request] {
      assert now.sent[|before.sent|] == request;
    }
  }

  lemma GrewKeepsAnswers(before: Network, now: Network)
    requires Grew(before, now)
    ensures before.sent <= now.sent
    ensures forall n :: n in before.answers ==> n in now.answers && now.answers[n] == before.answers[n]
  {
  }

  /** No later request changes that. */
  lemma UnansweredStays(
    net: Network, claimed: set<nat>, first: nat, request: Request, now: Network, claimed1: set<nat>)
    requires Unanswered(net, claimed, first, request)
    requires net.sent <= now.sent
    requires forall n :: n in net.answers ==> n in now.answers && now.answers[n] == net.answers[n]
    requires forall n :: n in claimed1 ==> n in claimed || n >= |net.sent|
    ensures Unanswered(now, claimed1, first, request)
  {
    var n :| first <= n < |net.sent| && net.sent[n] == request && Untold(net, claimed, n);
    assert now.sent[n] == request && Untold(now, claimed1, n);
  }

  // ---------------------------------------------------------------- the connector's write

  /** A publication was sent and no reply told what became of it; its outcome is one of the two. */
  ghost predicate InDoubt(upload: Upload, destination: Path, overwrite: bool)
    reads upload, upload.requests
  {
    && Publishing(upload.requests.net, upload.epoch, upload.origin, upload.stage, destination, overwrite,
                  upload.written)
    && Unanswered(upload.requests.net, upload.requests.claimed, upload.first,
                  PublishRequest(upload.stage, destination, overwrite))
  }

  /** A reply shows a file that this write may not replace. */
  predicate MayNotReplace(reply: Reply, overwrite: bool) {
    match AttributesIn(reply)
    case None => false
    case Some(attributes) => overwrite ==> attributes.mode.Some? && !IsRegular(attributes.mode.value)
  }

  /** A STAT of the destination found such a file. */
  ghost predicate Occupied(net: Network, first: nat, destination: Path, overwrite: bool) {
    exists n :: first <= n < |net.sent| && net.sent[n] == Stat(destination) && n in net.answers
                && MayNotReplace(net.answers[n], overwrite)
  }

  /** Why a write may fail: trouble with the session, a stage that is said to have another size than
      what was written, or a destination that may not be replaced. */
  ghost predicate Thwarted(net: Network, first: nat, stage: Path, size: nat, destination: Path, overwrite: bool) {
    Hindered(net, first, stage, size) || Occupied(net, first, destination, overwrite)
  }

  lemma ThwartedStays(
    before: Network, now: Network, first: nat, stage: Path, size: nat, destination: Path, overwrite: bool)
    requires Thwarted(before, first, stage, size, destination, overwrite) && Grew(before, now)
    ensures Thwarted(now, first, stage, size, destination, overwrite)
  {
    hide Troubled, States, MayNotReplace;
    if Troubled(before, first) {
      TroubledStays(before, now, first);
    } else if Misstated(before, first, stage, size) {
      var n :| first <= n < |before.sent| && before.sent[n] == Stat(stage) && n in before.answers
        && !States(before.answers[n], size);
      assert now.sent[n] == Stat(stage) && !States(now.answers[n], size);
    } else {
      var n :| first <= n < |before.sent| && before.sent[n] == Stat(destination) && n in before.answers
        && MayNotReplace(before.answers[n], overwrite);
      assert now.sent[n] == Stat(destination) && MayNotReplace(now.answers[n], overwrite);
    }
  }

  lemma OccupiedBy(net: Network, first: nat, n: nat, overwrite: bool)
    requires first <= n < |net.sent| && net.sent[n].Stat? && n in net.answers
    requires MayNotReplace(net.answers[n], overwrite)
    ensures Occupied(net, first, net.sent[n].path, overwrite)
  {
  }

  /** No failure of a request is reported as an existing destination. */
  lemma NeverExists()
    ensures forall problem, missing, denied, unsupported ::
              missing != Some(DestinationExists) && denied != Some(DestinationExists)
              && unsupported != Some(DestinationExists) ==>
                Translate(problem, missing, denied, unsupported) != DestinationExists
  {
  }

  /** What a file's attributes leave to be kept: the permissions, if they are stated. */
  predicate Keeps(reply: Reply, mode: Option<nat>) {
    match AttributesIn(reply)
    case None => Outcome(reply, CMD_ATTRS) == Err(Status(SFTP_NO_SUCH_FILE)) && mode == None
    case Some(attributes) =>
      mode == if attributes.mode.Some? then Some(Permissions(attributes.mode.value)) else None
  }

  /** The first request inspected the destination, and the mode is what it is to be replaced with. */
  ghost predicate Inspected(net: Network, destination: Path, mode: Option<nat>) {
    |net.sent| > 0 && net.sent[0] == Stat(destination) && 0 in net.answers && Keeps(net.answers[0], mode)
  }

  /** The mode the stage is to get, if the destination has one, or why it may not be replaced. One STAT
      at most is sent. */
  method ReplaceableMode(requests: Requests, destination: Path, overwrite: bool)
    returns (r: Result<Option<nat>, ErrorCode>)
    requires requests.Valid()
    modifies requests
    ensures requests.Valid() && Grew(old(requests.net), requests.net) && requests.ignored <= old(requests.ignored)
    ensures old(requests.net).sent <= requests.net.sent <= old(requests.net).sent + [Stat(destination)]
    ensures r.Ok? ==>
              && requests.net.sent == old(requests.net).sent + [Stat(destination)]
              && requests.claimed == old(requests.claimed) + {|old(requests.net).sent|}
              && |old(requests.net).sent| in requests.net.answers
              && Keeps(requests.net.answers[|old(requests.net).sent|], r.value)
    ensures !requests.net.lost ==> requests.net.sent == old(requests.net).sent + [Stat(destination)]
    ensures r.Err? ==>
              var n := |old(requests.net).sent|;
              && (Troubled(requests.net, n) || Occupied(requests.net, n, destination, overwrite))
              && (if r.error == DestinationExists then Occupied(requests.net, n, destination, overwrite)
                  else Translates(requests.net, n, r.error, None, Some(DestinationNotWritable), None))
    ensures var n := |old(requests.net).sent|;
            n < |requests.net.sent| && n in requests.claimed ==>
              n in requests.net.answers
              && (MayNotReplace(requests.net.answers[n], overwrite) ==> r == Err(DestinationExists))
  {
    hide Consistent, Grew, Outcome, AttributesOf, Translate, Troubled, IsRegular, Permissions, Occupied, Met;
    NeverExists();
    WaitingIsNumbered(requests.net, requests.replies, requests.ignored, requests.claimed);
    ghost var n := |requests.net.sent|;
    var reply := requests.Call(Stat(destination), CMD_ATTRS);
    BrokenIsTroubled(requests.net, n);
    if reply.Err? {
      BrokenIsMet(requests.net, n, reply.error);
    }
    if reply.Ok? || reply.error.Status? {
      if reply.Err? {
        MetBy(requests.net, n, n, reply.error);
      } else if AttributesOf(reply.value).Short? {
        MetBy(requests.net, n, n, Status(SFTP_BAD_MESSAGE));
      }
      if Amiss(requests.net.sent[n], requests.net.answers[n]) {
        TroubledBy(requests.net, n, n);
      }
      if MayNotReplace(requests.net.answers[n], overwrite) {
        OccupiedBy(requests.net, n, n, overwrite);
      }
    }
    if reply.Err? {
      if reply.error == Status(SFTP_NO_SUCH_FILE) {
        return Ok(None);
      }
      return Err(Translate(reply.error, None, Some(DestinationNotWritable), None));
    }
    var parsed := ParseAttributes(reply.value);
    if parsed.Err? {
      return Err(Translate(parsed.error, None, Some(DestinationNotWritable), None));
    }
    if !overwrite {
      return Err(DestinationExists);
    }
    if parsed.value.mode.None? {
      return Ok(None);
    }
    if !IsRegular(parsed.value.mode.value) {
      return Err(DestinationExists);
    }
    r := Ok(Some(Permissions(parsed.value.mode.value)));
  }

  /** Remove a stage and ignore how that ends. */
  method RemoveQuietly(requests: Requests, stage: Path)
    requires requests.Valid()
    modifies requests
    ensures requests.Valid() && Grew(old(requests.net), requests.net)
    ensures old(requests.net).sent <= requests.net.sent <= old(requests.net).sent + [Remove(stage)]
    ensures !requests.net.lost ==> requests.net.sent == old(requests.net).sent + [Remove(stage)]
    ensures requests.claimed == old(requests.claimed) + {|old(requests.net).sent|}
            || (requests.claimed == old(requests.claimed) && (requests.net.lost || requests.net.garbled))
  {
    var _ := requests.Call(Remove(stage), CMD_STATUS);
  }

  ghost predicate EndsWithRemove(net: Network, stage: Path) {
    net.sent != [] && net.sent[|net.sent| - 1] == Remove(stage)
  }

  /** What an answered exclusive creation leaves behind. */
  lemma AnsweredCreation(
    before: Network, net: Network, replies: map<nat, Reply>, claimed: set<nat>, stage: Path, handle: Bytes)
    requires Consistent(net, replies, {}, claimed)
    requires before.Rebased() == before && Grew(before, net) && net.sent == before.sent + [Create(stage)]
    requires forall n :: n in before.answers <==> 0 <= n < |before.sent|
    requires forall n :: n in claimed <==> 0 <= n < |net.sent|
    requires |before.sent| in net.answers && Carried(net.answers[|before.sent|], CMD_HANDLE) == Some(handle)
    ensures net.Waiting() == {}
    ensures stage !in before.server.files
    ensures net.server == Server(before.server.files[stage := []], before.server.writers[handle := stage])
    ensures forall n :: n in net.answers <==> 0 <= n < |net.sent|
  {
    hide ReadShows, Kept, Carried, Replay, HonestRun;
    var n := |before.sent|;
    assert n in net.order;
    forall i | 0 <= i < |net.order|
      ensures net.order[i] == n
    {
      assert net.order[i] in net.order;
    }
    ReplayOne(net.held, net.base, net.sent, net.answers, net.done, net.order, n);
  }

  lemma NewSession(requests: Requests, stage: Path)
    requires requests.Valid() && requests.net.sent == [] && requests.net == requests.net.Rebased()
    requires requests.net.server.writers == map[]
    ensures requests.claimed == {} && requests.ignored == {}
    ensures Contained(requests.net, 0, [], stage, requests.net.server.files)
  {
    hide ReadShows, Kept, Replay, HonestRun, StageOnly;
  }

  lemma OnlyTheStage(requests: Requests, epoch: nat, handle: Bytes, stage: Path, origin: map<Path, Bytes>)
    requires requests.Valid() && Contained(requests.net, epoch, handle, stage, origin)
    ensures SameElsewhere(requests.net.server.files, origin, stage)
  {
    hide Contained, Demultiplexed;
    ContainedIsUntouched(requests.net, epoch, handle, stage, origin);
  }

  lemma InspectionChangesNothing(requests: Requests)
    requires requests.Valid()
    requires forall n :: 0 <= n < |requests.net.sent| ==> requests.net.sent[n].Stat?
    ensures requests.net.server.files == requests.net.base.files
  {
    hide ReadShows, Kept, Replay, HonestRun;
    ReplayNeutral(requests.net.base, requests.net.sent, requests.net.answers, requests.net.done,
                  requests.net.order);
  }

  lemma AllAnswered(requests: Requests)
    requires requests.Valid() && requests.ignored == {}
    requires forall n :: n in requests.claimed <==> 0 <= n < |requests.net.sent|
    ensures forall n :: n in requests.net.answers <==> 0 <= n < |requests.net.sent|
    ensures requests.net.Waiting() == {}
  {
    hide ReadShows, Kept, Replay, HonestRun;
  }

  lemma RebasedIsContained(requests: Requests, epoch: nat, stage: Path, origin: map<Path, Bytes>)
    requires requests.Valid() && Contained(requests.net, epoch, [], stage, origin)
    requires forall n :: n in requests.net.answers <==> 0 <= n < |requests.net.sent|
    ensures Contained(requests.net.Rebased(), |requests.net.sent|, [], stage, origin)
  {
    hide StageOnly, Demultiplexed, ReadShows, Kept, Replay, HonestRun;
    ContainedIsUntouched(requests.net, epoch, [], stage, origin);
  }

  lemma StageRequests(stage: Path, destination: Path)
    ensures StageOnly(Stat(destination), [], stage) && StageOnly(Create(stage), [], stage)
    ensures StageOnly(Remove(stage), [], stage)
  {
  }

  /** Begin a write on a new session: inspect the destination and create the stage. */
  method Begin(requests: Requests, destination: Path, stage: Path, overwrite: bool)
    returns (r: Result<Upload, ErrorCode>)
    requires requests.Valid() && requests.net.sent == [] && requests.net == requests.net.Rebased()
    requires requests.net.server.writers == map[] && stage != destination
    modifies requests
    ensures requests.Valid()
    ensures r.Ok? ==>
              && fresh(r.value) && r.value.requests == requests && r.value.stage == stage
              && r.value.Writing() && r.value.written == [] && r.value.first == |requests.net.sent|
              && stage !in old(requests.net.server.files)
              && SameElsewhere(r.value.origin, old(requests.net.server.files), stage)
              && Inspected(requests.net, destination, r.value.mode)
    ensures r.Err? ==>
              && SameElsewhere(requests.net.server.files, old(requests.net.server.files), stage)
              && (Troubled(requests.net, 0) || Occupied(requests.net, 0, destination, overwrite))
              && (if r.error == DestinationExists then Occupied(requests.net, 0, destination, overwrite)
                  else
                    || Translates(requests.net, 0, r.error, None, Some(DestinationNotWritable), None)
                    || Translates(requests.net, 0, r.error, Some(ConnectionRootUnavailable),
                                  Some(DestinationNotWritable), None))
              && (requests.net.lost || requests.net.sent == [Stat(destination)] || EndsWithRemove(requests.net, stage))
  {
    hide Consistent, Grew, Contained, StageOnly, SameElsewhere, Outcome, Carried, Translate, Troubled, Occupied;
    hide EndsWithRemove, Keeps, Translates;
    ghost var origin := requests.net.server.files;
    ghost var start := requests.net;
    NewSession(requests, stage);
    var mode := ReplaceableMode(requests, destination, overwrite);
    StageRequests(stage, destination);
    ContainedGrows(start, 0, [], stage, origin, requests.net, Stat(destination));
    OnlyTheStage(requests, 0, [], stage, origin);
    if mode.Err? {
      return Err(mode.error);
    }
    GrewHoldsBase(start, requests.net);
    assert requests.ignored == {};
    r := CreateStage(requests, stage, mode.value, origin);
  }

  /** Create the stage of a write that has only inspected its destination. */
  method CreateStage(requests: Requests, stage: Path, mode: Option<nat>, ghost origin: map<Path, Bytes>)
    returns (r: Result<Upload, ErrorCode>)
    requires requests.Valid() && requests.ignored == {} && |requests.net.sent| == 1
    requires requests.net.sent[0].Stat? && requests.claimed == {0}
    requires Contained(requests.net, 0, [], stage, origin) && requests.net.base.files == origin
    modifies requests
    ensures requests.Valid()
    ensures FirstStays(old(requests.net), requests.net)
    ensures r.Ok? ==>
              && r.value.mode == mode
              && fresh(r.value) && r.value.requests == requests && r.value.stage == stage
              && r.value.Writing() && r.value.written == [] && r.value.first == |requests.net.sent|
              && stage !in origin
              && SameElsewhere(r.value.origin, origin, stage)
    ensures r.Err? ==>
              && SameElsewhere(requests.net.server.files, origin, stage)
              && Troubled(requests.net, 0) && (requests.net.lost || EndsWithRemove(requests.net, stage))
              && r.error != DestinationExists
              && Translates(requests.net, 0, r.error, Some(ConnectionRootUnavailable), Some(DestinationNotWritable),
                            None)
  {
    hide Consistent, Grew, Contained, StageOnly, SameElsewhere, Outcome, Carried, Translate, Troubled, Met;
    StageRequests(stage, stage);
    AllAnswered(requests);
    RebasedIsContained(requests, 0, stage, origin);
    InspectionChangesNothing(requests);
    requests.Rebase();
    ghost var before := requests.net;
    var handle := OpenForWriting(requests, stage);
    FirstOfGrown(before, requests.net);
    ContainedGrows(before, 1, [], stage, origin, requests.net, Create(stage));
    if handle.Err? {
      ghost var failed := requests.net;
      RemoveQuietly(requests, stage);
      FirstOfGrown(failed, requests.net);
      MetStays(failed, requests.net, 0);
      TroubledStays(failed, requests.net, 0);
      ContainedGrows(failed, 1, [], stage, origin, requests.net, Remove(stage));
      OnlyTheStage(requests, 1, [], stage, origin);
      NeverExists();
      return Err(Translate(handle.error, Some(ConnectionRootUnavailable), Some(DestinationNotWritable), None));
    }
    assert requests.ignored == {};
    AnsweredCreation(before, requests.net, requests.replies, requests.claimed, stage, handle.value);
    CreatedElsewhere(before.server.files, origin, stage);
    requests.Rebase();
    var upload := new Upload(requests, handle.value, stage, mode);
    r := Ok(upload);
  }

  /** The first request and the answer to it are what they were. */
  ghost predicate FirstStays(before: Network, now: Network) {
    |before.sent| > 0 ==>
      && |now.sent| > 0 && now.sent[0] == before.sent[0]
      && (0 in before.answers ==> 0 in now.answers && now.answers[0] == before.answers[0])
  }

  lemma FirstOfGrown(before: Network, now: Network)
    requires Grew(before, now)
    ensures FirstStays(before, now)
  {
  }

  lemma CreatedElsewhere(files: map<Path, Bytes>, origin: map<Path, Bytes>, stage: Path)
    requires SameElsewhere(files, origin, stage)
    ensures SameElsewhere(files[stage := []], origin, stage)
  {
  }

  /** Open the stage with exclusive creation; the handle is what the reply carries. */
  method OpenForWriting(requests: Requests, stage: Path) returns (r: Result<Bytes, Problem>)
    requires requests.Valid()
    modifies requests
    ensures requests.Valid() && Grew(old(requests.net), requests.net) && requests.ignored <= old(requests.ignored)
    ensures old(requests.net).sent <= requests.net.sent <= old(requests.net).sent + [Create(stage)]
    ensures r.Ok? ==>
              var n := |old(requests.net).sent|;
              && requests.net.sent == old(requests.net).sent + [Create(stage)]
              && requests.claimed == old(requests.claimed) + {n}
              && n in requests.net.answers && Carried(requests.net.answers[n], CMD_HANDLE) == Some(r.value)
    ensures r.Err? ==> Troubled(requests.net, 0) && Met(requests.net, 0, r.error)
  {
    hide Consistent, Grew, Outcome, Troubled, Met;
    ghost var n := |requests.net.sent|;
    var reply := requests.Call(Create(stage), CMD_HANDLE);
    BrokenIsTroubled(requests.net, 0);
    if reply.Err? {
      BrokenIsMet(requests.net, 0, reply.error);
      if reply.error.Status? {
        MetBy(requests.net, 0, n, reply.error);
      }
    }
    if (reply.Ok? || reply.error.Status?) && Amiss(requests.net.sent[n], requests.net.answers[n]) {
      TroubledBy(requests.net, 0, n);
    }
    if reply.Err? {
      return Err(reply.error);
    }
    r := ParseString(reply.value);
    if r.Err? {
      MetBy(requests.net, 0, n, r.error);
    }
  }

  /** A request that can bring the stage back. */
  predicate Revives(request: Request, stage: Path) {
    request == Create(stage) || ((request.Rename? || request.PosixRename?) && request.to == stage)
  }

  /** Once the server has removed the stage, nothing brings it back. */
  lemma {:induction false} ReplayRemoves(
    base: Server, sent: seq<Request>, answers: map<nat, Reply>, done: set<nat>, order: seq<nat>, stage: Path, n: nat)
    requires n in order && n in done && n < |sent| && n in answers && sent[n] == Remove(stage)
    requires forall i :: 0 <= i < |order| && order[i] < |sent| ==> !Revives(sent[order[i]], stage)
    ensures stage !in Replay(base, sent, answers, done, order).files
  {
    hide Splice, Carried;
    var last := |order| - 1;
    if order[last] != n {
      assert n in order[..last];
      ReplayRemoves(base, sent, answers, done, order[..last], stage, n);
    }
  }

  /** The last request removes the stage; if it was answered with OK, the stage is gone. */
  ghost predicate Removed(net: Network, stage: Path) {
    var last := |net.sent| - 1;
    && EndsWithRemove(net, stage)
    && (last in net.answers && Accepted(net.answers[last]) ==> stage !in net.server.files)
  }

  lemma RemoveIsDone(net: Network, epoch: nat, stage: Path)
    requires net.Numbered() && net.Replayed() && EndsWithRemove(net, stage) && epoch < |net.sent|
    requires forall n :: n in net.settled <==> 0 <= n < epoch
    requires forall n :: epoch <= n < |net.sent| ==> !Revives(net.sent[n], stage)
    ensures Removed(net, stage)
  {
    hide ReadShows, Kept, Replay, HonestRun, Revives, Accepted;
    var last := |net.sent| - 1;
    if last in net.answers && Accepted(net.answers[last]) {
      assert last in net.order;
      VerdictsAreTrue(net.held, net.base, net.sent, net.answers, net.done, net.order, last);
      AcceptedTells(net.answers[last]);
      forall i | 0 <= i < |net.order| && net.order[i] < |net.sent|
        ensures !Revives(net.sent[net.order[i]], stage)
      {
        assert net.order[i] in net.order;
      }
      ReplayRemoves(net.base, net.sent, net.answers, net.done, net.order, stage, last);
    }
  }

  lemma StageIsRemoved(upload: Upload, unanswered: bool, destination: Path, overwrite: bool)
    requires upload.Closable() && upload.stage != destination
    requires if unanswered then InDoubt(upload, destination, overwrite) else upload.Releasable()
    ensures upload.epoch <= |upload.requests.net.sent|
    ensures upload.epoch < |upload.requests.net.sent| && EndsWithRemove(upload.requests.net, upload.stage) ==>
              Removed(upload.requests.net, upload.stage)
  {
    hide ReadShows, Kept, Replay, HonestRun, Demultiplexed, Accepted, SameElsewhere, Either, Unanswered, Times;
    hide Elements;
    if EndsWithRemove(upload.requests.net, upload.stage) && upload.epoch < |upload.requests.net.sent| {
      RemoveIsDone(upload.requests.net, upload.epoch, upload.stage);
    }
  }

  /** End a write that failed: close the handle, unless that was already tried, and remove the
      stage. Unless the publication went unanswered, the upload has reached no file but its stage.
      What `Closable` says of a closed upload holds: one CLOSE, and no reply left behind. */
  method CleanUp(upload: Upload, ghost unanswered: bool, ghost destination: Path, ghost overwrite: bool)
    requires upload.Closable() && upload.stage != destination
    requires !unanswered ==> upload.Releasable()
    requires unanswered ==>
               upload.unacknowledged == [] && upload.handle == None && InDoubt(upload, destination, overwrite)
    modifies upload`unacknowledged, upload`handle, upload.requests
    ensures upload.Closable() && upload.handle == None && upload.unacknowledged == []
    ensures Grew(old(upload.requests.net), upload.requests.net)
    ensures upload.requests.net.lost || Removed(upload.requests.net, upload.stage)
    ensures !unanswered ==>
              && upload.Releasable()
              && SameElsewhere(upload.requests.net.server.files, upload.origin, upload.stage)
    ensures unanswered ==>
              && Either(upload.requests.net.server.files, upload.origin, upload.stage, destination, upload.written)
              && Unanswered(upload.requests.net, upload.requests.claimed, upload.first,
                            PublishRequest(upload.stage, destination, overwrite))
  {
    hide Consistent, Grew, Contained, Unclaimed, StageOnly, SameElsewhere, Publishing, Either, Unanswered, Tidy;
    upload.Release();
    ghost var before, claimed := upload.requests.net, upload.requests.claimed;
    StageIsRemoved(upload, unanswered, destination, overwrite);
    RemoveQuietly(upload.requests, upload.stage);
    GrewIsTransitive(old(upload.requests.net), before, upload.requests.net);
    UnclaimedNone(upload.requests.net, upload.requests.claimed);
    TidyGrows(before, claimed, upload.first, [], upload.name, false, upload.requests.net, upload.requests.claimed, [],
              false, Remove(upload.stage));
    if unanswered {
      PublishingGrows(before, upload.epoch, upload.origin, upload.stage, destination, overwrite, upload.written,
                      upload.requests.net, Remove(upload.stage));
      EitherWay(upload, destination, overwrite);
      GrewKeepsAnswers(before, upload.requests.net);
      UnansweredStays(before, claimed, upload.first, PublishRequest(upload.stage, destination, overwrite),
                      upload.requests.net, upload.requests.claimed);
    } else {
      RemoveIsStageOnly(upload.name, upload.stage);
      ContainedGrows(
        before, upload.epoch, upload.name, upload.stage, upload.origin, upload.requests.net, Remove(upload.stage));
      OnlyTheStage(upload.requests, upload.epoch, upload.name, upload.stage, upload.origin);
    }
    StageIsRemoved(upload, unanswered, destination, overwrite);
  }

  lemma RemoveIsStageOnly(handle: Bytes, stage: Path)
    ensures StageOnly(Remove(stage), handle, stage)
  {
  }

  /** A STAT was answered: there is no such file. */
  ghost predicate Absent(net: Network, n: nat, path: Path) {
    && n < |net.sent| && net.sent[n] == Stat(path) && n in net.answers
    && Outcome(net.answers[n], CMD_ATTRS) == Err(Status(SFTP_NO_SUCH_FILE))
  }

  /** What was sent and what was answered stays. */
  ghost predicate Extends(before: Network, now: Network) {
    && before.sent <= now.sent
    && forall n :: n in before.answers ==> n in now.answers && now.answers[n] == before.answers[n]
  }

  lemma AbsentStays(before: Network, now: Network, n: nat, path: Path)
    requires Extends(before, now) && Absent(before, n, path)
    ensures Absent(now, n, path)
  {
    hide Outcome;
  }

  lemma GrewExtends(before: Network, now: Network)
    ensures Grew(before, now) ==> Extends(before, now) && Extends(before.Rebased(), now)
    ensures Grew(before.Rebased(), now) ==> Extends(before, now) && Extends(before, now.Rebased())
  {
  }

  /** Whether a path exists, on a session where everything is stored. */
  method Exists(upload: Upload, path: Path) returns (r: Result<bool, Problem>)
    requires upload.Stored()
    modifies upload.requests
    ensures upload.Releasable()
    ensures r.Ok? ==> upload.Stored()
    ensures r.Err? ==>
              Troubled(upload.requests.net, upload.first) && Met(upload.requests.net, upload.first, r.error)
    ensures r == Ok(true) ==> Occupied(upload.requests.net, upload.first, path, false)
    ensures r == Ok(false) ==> Absent(upload.requests.net, |old(upload.requests.net).sent|, path)
  {
    hide Consistent, Contained, Unclaimed, Settled, AttributesOf, Tidy, Troubled, Occupied, Met;
    ghost var n := |upload.requests.net.sent|;
    var reply := upload.CallNeutral(Stat(path), CMD_ATTRS);
    if reply.Ok? || reply.error.Status? {
      if Amiss(upload.requests.net.sent[n], upload.requests.net.answers[n]) {
        TroubledBy(upload.requests.net, upload.first, n);
      }
      if MayNotReplace(upload.requests.net.answers[n], false) {
        OccupiedBy(upload.requests.net, upload.first, n, false);
      }
    }
    if reply.Err? {
      if reply.error == Status(SFTP_NO_SUCH_FILE) {
        return Ok(false);
      }
      return Err(reply.error);
    }
    var parsed := ParseAttributes(reply.value);
    if parsed.Err? {
      MetBy(upload.requests.net, upload.first, n, parsed.error);
      return Err(parsed.error);
    }
    r := Ok(true);
  }

  /** Ask for the publication. A reply that tells decides it; otherwise it may or may not have
      happened, whatever error the client makes of the reply. */
  method TryRename(upload: Upload, destination: Path, overwrite: bool)
    returns (r: Result<(), Problem>, ghost unanswered: bool)
    requires upload.Stored() && upload.handle == None && upload.stage != destination
    modifies upload`epoch, upload.requests
    ensures upload.Closable()
    ensures r.Ok? ==>
              && !unanswered
              && Published(upload.requests.net.server.files, upload.origin, upload.stage, destination, upload.written)
              && (!overwrite ==> destination !in upload.origin)
    ensures r.Err? && !unanswered ==> upload.Releasable() && (r.error.Status? ==> upload.Stored())
    ensures r.Err? ==>
              Troubled(upload.requests.net, upload.first) && Met(upload.requests.net, upload.first, r.error)
    ensures Extends(old(upload.requests.net), upload.requests.net)
    ensures unanswered ==> InDoubt(upload, destination, overwrite)
  {
    hide Consistent, Grew, Contained, Unclaimed, StageOnly, Settled, Publishing, Published, Accepted, Outcome, Tidy;
    hide Unanswered, Verdict, Troubled, Extends, Met;
    upload.Restart();
    ghost var before, claimed := upload.requests.net, upload.requests.claimed;
    WaitingIsNumbered(before, upload.requests.replies, upload.requests.ignored, claimed);
    var request := PublishRequest(upload.stage, destination, overwrite);
    var reply := upload.requests.Call(request, CMD_STATUS);
    ghost var net, n := upload.requests.net, |before.sent|;
    BrokenIsTroubled(net, upload.first);
    if reply.Err? {
      BrokenIsMet(net, upload.first, reply.error);
    }
    GrewExtends(old(upload.requests.net), net);
    UnclaimedNone(net, upload.requests.claimed);
    TidyGrows(before, claimed, upload.first, [], upload.name, false, net, upload.requests.claimed, [], false, request);
    SettledIsPublishing(before, claimed, upload.origin, upload.stage, destination, overwrite, upload.written);
    PublishingGrows(before, upload.epoch, upload.origin, upload.stage, destination, overwrite, upload.written,
                    net, request);
    FirstUntold(before, net, upload.requests.claimed, upload.first, upload.name, claimed, request);
    if reply.Err? && !reply.error.Status? {
      unanswered := net.sent == before.sent + [request];
      ContainedUnlessSent(before, upload.epoch, upload.name, upload.stage, upload.origin, net, request);
      r := Err(reply.error);
      return;
    }
    unanswered := Verdict(net.answers[n]).None?;
    assert upload.requests.ignored == {};
    AnsweredPublication(before, claimed, net, upload.requests.replies, upload.requests.claimed,
                        upload.origin, upload.stage, destination, overwrite, upload.written);
    AcceptedTells(net.answers[n]);
    AcceptedMeans(net.answers[n]);
    TidyFirst(before, claimed, upload.first, [], upload.name, false);
    RefusedIsTrouble(net, upload.first, n, upload.stage, destination, overwrite);
    if reply.Err? {
      RefusedIsMet(net, upload.first, n, upload.stage, destination, overwrite);
    }
    if reply.Ok? {
      r := Ok(());
      return;
    }
    if unanswered {
      RebasedIsPublishing(net, upload.requests.replies, upload.requests.claimed, upload.epoch, upload.origin,
                          upload.stage, destination, overwrite, upload.written);
      UnansweredStays(net, upload.requests.claimed, upload.first, request, net.Rebased(), upload.requests.claimed);
    } else {
      assert Verdict(net.answers[n]) == Some(false) by { assert !Verdict(net.answers[n]).value; }
      RefusedPublication(before, claimed, net, upload.requests.replies, upload.requests.claimed,
                         request, upload.name, upload.stage, upload.written, upload.origin);
    }
    TidyRebased(net, upload.requests.claimed, upload.first, [], upload.name, false);
    upload.requests.Rebase();
    RebasedIsTroubled(net, upload.first);
    upload.epoch := |upload.requests.net.sent|;
    UnclaimedNone(upload.requests.net, upload.requests.claimed);
    r := Err(reply.error);
  }

  lemma RefusedIsTrouble(
    net: Network, first: nat, n: nat, stage: Path, destination: Path, overwrite: bool)
    requires first <= n < |net.sent| && net.sent[n] == PublishRequest(stage, destination, overwrite)
    requires n in net.answers
    ensures !Accepted(net.answers[n]) ==> Troubled(net, first)
  {
    hide Accepted, Troubled;
    if !Accepted(net.answers[n]) {
      TroubledBy(net, first, n);
    }
  }

  lemma RefusedIsMet(net: Network, first: nat, n: nat, stage: Path, destination: Path, overwrite: bool)
    requires first <= n < |net.sent| && net.sent[n] == PublishRequest(stage, destination, overwrite)
    requires n in net.answers && Outcome(net.answers[n], CMD_STATUS).Err?
    ensures Met(net, first, Outcome(net.answers[n], CMD_STATUS).error)
  {
    hide Outcome, Met;
    MetBy(net, first, n, Outcome(net.answers[n], CMD_STATUS).error);
  }

  lemma RebasedIsTroubled(net: Network, first: nat)
    ensures Troubled(net, first) ==> Troubled(net.Rebased(), first)
    ensures forall problem :: Met(net, first, problem) ==> Met(net.Rebased(), first, problem)
  {
    hide Amiss, Reports;
  }

  /** A publication that was not sent has changed nothing. */
  lemma ContainedUnlessSent(
    before: Network, epoch: nat, handle: Bytes, stage: Path, origin: map<Path, Bytes>, now: Network, request: Request)
    requires Contained(before, epoch, handle, stage, origin) && Grew(before, now)
    requires before.sent <= now.sent <= before.sent + [request]
    ensures now.sent != before.sent + [request] ==> Contained(now, epoch, handle, stage, origin)
  {
    hide StageOnly, SameElsewhere;
  }

  /** After a reply that does not tell, the outcome is still one of the two. */
  lemma RebasedIsPublishing(
    net: Network, replies: map<nat, Reply>, claimed: set<nat>, epoch: nat, origin: map<Path, Bytes>, stage: Path,
    destination: Path, overwrite: bool, full: Bytes)
    requires Consistent(net, replies, {}, claimed) && net.Waiting() == {} && stage != destination
    requires Publishing(net, epoch, origin, stage, destination, overwrite, full)
    ensures Publishing(net.Rebased(), |net.sent|, origin, stage, destination, overwrite, full)
  {
    hide ReadShows, Kept, Replay, HonestRun, PublishOnly, Either, Demultiplexed;
    PublishingHolds(net, epoch, origin, stage, destination, overwrite, full);
    assert net.queued == {};
  }

  /** A refused publication leaves the session settled. */
  lemma RefusedPublication(
    before: Network, claimed0: set<nat>, net: Network, replies: map<nat, Reply>, claimed: set<nat>,
    request: Request, handle: Bytes, stage: Path, full: Bytes, origin: map<Path, Bytes>)
    requires Consistent(net, replies, {}, claimed) && claimed == claimed0 + {|before.sent|}
    requires Settled(before, claimed0, |before.sent|, stage, full, origin)
    requires Contained(before, |before.sent|, handle, stage, origin)
    requires Grew(before, net) && net.sent == before.sent + [request]
    requires net.server == net.base && net.Waiting() == {}
    ensures Settled(net.Rebased(), claimed, |net.sent|, stage, full, origin)
    ensures Contained(net.Rebased(), |net.sent|, handle, stage, origin)
  {
    hide ReadShows, Kept, Replay, HonestRun, StageOnly, Neutral, SameElsewhere, Demultiplexed;
    assert net.queued == {};
    assert forall n :: 0 <= n < |net.sent| ==> n in claimed;
  }

  lemma SettledIsPublishing(
    net: Network, claimed: set<nat>, origin: map<Path, Bytes>, stage: Path, destination: Path, overwrite: bool,
    full: Bytes)
    requires Settled(net, claimed, |net.sent|, stage, full, origin)
    ensures Publishing(net, |net.sent|, origin, stage, destination, overwrite, full)
  {
  }

  /** The code of a problem met while looking, while publishing, or while looking again. */
  ghost predicate TellsOfPublishing(net: Network, first: nat, code: ErrorCode) {
    || Translates(net, first, code, None, Some(DestinationNotWritable), None)
    || Translates(net, first, code, None, Some(DestinationNotWritable), Some(PublishUnsupported))
    || Translates(net, first, code, None, None, None)
  }

  /** Publish the stage. If no reply tells what became of the publication, the outcome is open, but it
      is one of two; any other failure leaves the destination untouched. */
  method Publish(upload: Upload, destination: Path, overwrite: bool)
    returns (r: Result<(), ErrorCode>, ghost unanswered: bool)
    requires upload.Stored() && upload.stage != destination && upload.handle == None
    modifies upload`epoch, upload.requests
    ensures upload.Closable()
    ensures r.Ok? ==>
              && !unanswered
              && Published(upload.requests.net.server.files, upload.origin, upload.stage, destination, upload.written)
              && (!overwrite ==> destination !in upload.origin)
    ensures r.Err? && !unanswered ==> upload.Releasable()
    ensures unanswered ==> InDoubt(upload, destination, overwrite)
    ensures r.Err? ==>
              && (Troubled(upload.requests.net, upload.first)
                  || Occupied(upload.requests.net, upload.first, destination, overwrite))
              && (if r.error == DestinationExists
                  then Occupied(upload.requests.net, upload.first, destination, overwrite)
                  else TellsOfPublishing(upload.requests.net, upload.first, r.error))
    ensures (r.Ok? || unanswered) && !overwrite ==>
              Absent(upload.requests.net, |old(upload.requests.net).sent|, destination)
  {
    NeverExists();
    hide Absent, Extends, Met;
    hide Consistent, Grew, Contained, Unclaimed, StageOnly, Settled, Publishing, Published, Translate, Tidy, Unanswered;
    hide Troubled, Occupied;
    unanswered := false;
    if !overwrite {
      var before := Exists(upload, destination);
      if before.Err? {
        r := Err(Translate(before.error, None, Some(DestinationNotWritable), None));
        return;
      } else if before.value {
        r := Err(DestinationExists);
        return;
      }
    }
    ghost var looked := upload.requests.net;
    var renamed;
    renamed, unanswered := TryRename(upload, destination, overwrite);
    if !overwrite {
      AbsentStays(looked, upload.requests.net, |old(upload.requests.net).sent|, destination);
    }
    if renamed.Ok? {
      r := Ok(());
      return;
    }
    var code := Translate(renamed.error, None, Some(DestinationNotWritable), Some(PublishUnsupported));
    r := Err(code);
    if !overwrite && code == SftpOperationFailed {
      ghost var refused := upload.requests.net;
      var now := ExistsAfter(upload, destination, overwrite, unanswered);
      TroubledStays(refused, upload.requests.net, upload.first);
      GrewExtends(refused, upload.requests.net);
      MetStays(refused, upload.requests.net, upload.first);
      AbsentStays(refused, upload.requests.net, |old(upload.requests.net).sent|, destination);
      r := Err(match now
               case Ok(found) => if found then DestinationExists else code
               case Err(problem) => Translate(problem, None, None, None));
    }
  }

  /** Ask whether a path exists. One STAT at most is sent. */
  method Look(requests: Requests, path: Path) returns (r: Result<bool, Problem>)
    requires requests.Valid()
    modifies requests
    ensures requests.Valid() && Grew(old(requests.net), requests.net)
    ensures old(requests.net).sent <= requests.net.sent <= old(requests.net).sent + [Stat(path)]
    ensures requests.claimed == old(requests.claimed) + {|old(requests.net).sent|}
            || (requests.claimed == old(requests.claimed) && (requests.net.lost || requests.net.garbled))
    ensures r == Ok(true) ==>
              var n := |old(requests.net).sent|;
              && requests.net.sent == old(requests.net).sent + [Stat(path)]
              && n in requests.net.answers && MayNotReplace(requests.net.answers[n], false)
    ensures r.Err? ==> Met(requests.net, |old(requests.net).sent|, r.error)
  {
    hide Consistent, Grew, Outcome, AttributesOf, Met;
    ghost var n := |requests.net.sent|;
    var reply := requests.Call(Stat(path), CMD_ATTRS);
    if reply.Err? {
      BrokenIsMet(requests.net, n, reply.error);
      if reply.error.Status? {
        MetBy(requests.net, n, n, reply.error);
      }
      return if reply.error == Status(SFTP_NO_SUCH_FILE) then Ok(false) else Err(reply.error);
    }
    var parsed := ParseAttributes(reply.value);
    if parsed.Err? {
      MetBy(requests.net, n, n, parsed.error);
    }
    r := match parsed case Ok(_) => Ok(true) case Err(problem) => Err(problem);
  }

  lemma MetLater(net: Network, later: nat, first: nat, problem: Problem)
    requires Met(net, later, problem) && first <= later
    ensures Met(net, first, problem)
  {
    hide Reports;
  }

  /** As Exists, after a publication that failed. */
  method ExistsAfter(upload: Upload, destination: Path, overwrite: bool, ghost unanswered: bool)
    returns (r: Result<bool, Problem>)
    requires upload.Closable() && upload.handle == None && upload.unacknowledged == []
    requires !unanswered ==> upload.Releasable()
    requires unanswered ==> InDoubt(upload, destination, overwrite)
    modifies upload.requests
    ensures upload.Closable() && Grew(old(upload.requests.net), upload.requests.net)
    ensures !unanswered ==> upload.Releasable()
    ensures unanswered ==> InDoubt(upload, destination, overwrite)
    ensures r == Ok(true) ==> Occupied(upload.requests.net, upload.first, destination, false)
    ensures r.Err? ==> Met(upload.requests.net, upload.first, r.error)
  {
    hide Met;
    hide Consistent, Grew, Unclaimed, Publishing, Contained, StageOnly, Tidy, Unanswered, Occupied, MayNotReplace;
    ghost var before, claimed := upload.requests.net, upload.requests.claimed;
    TidyFirst(before, claimed, upload.first, [], upload.name, false);
    r := Look(upload.requests, destination);
    if r.Err? {
      MetLater(upload.requests.net, |before.sent|, upload.first, r.error);
    }
    UnclaimedNone(upload.requests.net, upload.requests.claimed);
    TidyGrows(before, claimed, upload.first, [], upload.name, false, upload.requests.net, upload.requests.claimed, [],
              false, Stat(destination));
    if unanswered {
      PublishingGrows(before, upload.epoch, upload.origin, upload.stage, destination, overwrite, upload.written,
                      upload.requests.net, Stat(destination));
      GrewKeepsAnswers(before, upload.requests.net);
      UnansweredStays(before, claimed, upload.first, PublishRequest(upload.stage, destination, overwrite),
                      upload.requests.net, upload.requests.claimed);
    } else {
      StageRequests(upload.stage, destination);
      StatIsStageOnly(destination, upload.name, upload.stage);
      ContainedGrows(before, upload.epoch, upload.name, upload.stage, upload.origin, upload.requests.net,
                     Stat(destination));
    }
    if r == Ok(true) {
      OccupiedBy(upload.requests.net, upload.first, |before.sent|, false);
    }
  }

  lemma StatIsStageOnly(path: Path, handle: Bytes, stage: Path)
    ensures StageOnly(Stat(path), handle, stage)
  {
  }

  /** End a write whose caller wrote everything: finish, publish, and clean up after any failure.
      On success the destination holds exactly the bytes written. On a failure it is untouched, unless
      a publication was sent and no reply tells what became of it; even then it holds the old file or
      the whole new one. The handle has been closed once, as `Closable` says. */
  method Commit(upload: Upload, destination: Path, overwrite: bool)
    returns (r: Result<(), ErrorCode>, ghost unanswered: bool)
    requires if upload.finished then upload.Stored() && upload.handle == None else upload.Writing()
    requires upload.stage != destination
    modifies upload, upload.requests
    ensures upload.Closable() && upload.handle == None && upload.unacknowledged == []
    ensures upload.written == old(upload.written) && upload.size == old(upload.size)
    ensures r.Ok? ==>
              && !unanswered
              && Published(upload.requests.net.server.files, upload.origin, upload.stage, destination, upload.written)
              && (!overwrite ==> destination !in upload.origin)
    ensures r.Err? && !unanswered ==>
              SameElsewhere(upload.requests.net.server.files, upload.origin, upload.stage)
    ensures unanswered ==>
              && Either(upload.requests.net.server.files, upload.origin, upload.stage, destination, upload.written)
              && Unanswered(upload.requests.net, upload.requests.claimed, upload.first,
                            PublishRequest(upload.stage, destination, overwrite))
    ensures r.Err? ==>
              && Thwarted(upload.requests.net, upload.first, upload.stage, upload.size, destination, overwrite)
              && (upload.requests.net.lost || Removed(upload.requests.net, upload.stage))
  {
    hide Consistent, Grew, Contained, Unclaimed, StageOnly, Settled, Publishing, Published, Either, SameElsewhere;
    hide Tidy, Unanswered, ClosedOnce, Hindered, Occupied, Removed;
    unanswered := false;
    r := upload.Finish();
    if r.Ok? {
      r, unanswered := Publish(upload, destination, overwrite);
      TroubleHinders(upload.requests.net, upload.first, upload.stage, upload.size);
    }
    if r.Err? {
      ghost var failed := upload.requests.net;
      CleanUp(upload, unanswered, destination, overwrite);
      ThwartedStays(failed, upload.requests.net, upload.first, upload.stage, upload.size, destination, overwrite);
    }
  }

  lemma TroubleHinders(net: Network, first: nat, stage: Path, size: nat)
    ensures Troubled(net, first) ==> Hindered(net, first, stage, size)
  {
  }

  lemma EitherWay(upload: Upload, destination: Path, overwrite: bool)
    requires upload.requests.Valid() && upload.stage != destination
    requires Publishing(upload.requests.net, upload.epoch, upload.origin, upload.stage, destination, overwrite,
                        upload.written)
    ensures Either(upload.requests.net.server.files, upload.origin, upload.stage, destination, upload.written)
  {
    hide Publishing, Demultiplexed, Either;
    PublishingHolds(
      upload.requests.net, upload.epoch, upload.origin, upload.stage, destination, overwrite, upload.written);
  }

  /** Why the outcome of a failed publication cannot be read off its error code: a packet that is not
      SFTP reports the code of a refusal, although the server may have accepted the RENAME whose reply
      it displaced. */
  lemma GarbageHidesAPublication(held: map<Bytes, Bytes>, server: Server, stage: Path, destination: Path)
    requires stage in server.files && destination !in server.files && stage != destination
    ensures Translate(Garbage, None, Some(DestinationNotWritable), Some(PublishUnsupported))
            == Translate(Status(SFTP_FAILURE), None, Some(DestinationNotWritable), Some(PublishUnsupported))
            == SftpOperationFailed
    ensures exists reply ::
              && Honest(held, server, Rename(stage, destination), reply, true) && Kept(reply) == reply
              && Published(Perform(server, Rename(stage, destination), reply, true).files, server.files, stage,
                           destination, server.files[stage])
  {
    var reply := Reply(CMD_STATUS, Digits(SFTP_OK, 4));
    UIntUndoesDigits(SFTP_OK, 4, []);
    assert Digits(SFTP_OK, 4) + [] == Digits(SFTP_OK, 4);
    assert Accepted(reply);
    assert Honest(held, server, Rename(stage, destination), reply, true) && Kept(reply) == reply;
  }

  /** And so does a reply of another type, one that is cut short, or one that was too large to keep.
      Exactly: an error the client makes of a reply hides a publication that happened if and only if
      the reply is not a status that parses; and then its code is that of a refusal. */
  lemma MisshapenRepliesHideAPublication(
    held: map<Bytes, Bytes>, server: Server, stage: Path, destination: Path, reply: Reply)
    requires stage in server.files && destination !in server.files && stage != destination
    requires Outcome(Kept(reply), CMD_STATUS).Err?
    ensures Honest(held, server, Rename(stage, destination), Kept(reply), true) <==> Verdict(Kept(reply)).None?
    ensures Published(Perform(server, Rename(stage, destination), Kept(reply), true).files, server.files, stage,
                      destination, server.files[stage])
    ensures Verdict(Kept(reply)).None? ==>
              Translate(Outcome(Kept(reply), CMD_STATUS).error, None, Some(DestinationNotWritable),
                        Some(PublishUnsupported)) == SftpOperationFailed
  {
  }

  /** Such a reply: an empty status. */
  lemma AnEmptyStatusTellsNothing()
    ensures Verdict(Reply(CMD_STATUS, [])) == None
    ensures Outcome(Reply(CMD_STATUS, []), CMD_STATUS) == Err(Status(SFTP_BAD_MESSAGE))
  {
  }
}
