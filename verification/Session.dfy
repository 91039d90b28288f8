/** The SFTP request layer and the server at its other end.

    The client's state is its reply table and its ignore set. The server is an adversary within the
    meaning of success: it performs pending requests in any order and refuses any of them, it
    delays, reorders, misshapes and oversizes replies, and it drops the session at any point. */
module Session {
  import opened Common
  import opened Wire

  const REQUEST_SIZE := 32_768
  const WINDOW := 64
  const MAX_REPLY := 262_144
  const OVERSIZED := -1

  const CMD_STATUS := 101
  const CMD_HANDLE := 102
  const CMD_DATA := 103
  const CMD_NAME := 104
  const CMD_ATTRS := 105

  type Path = string

  datatype Request =
    | Open(path: Path)
    | Create(path: Path)
    | Close(handle: Bytes)
    | Read(handle: Bytes, offset: nat, length: nat)
    | Write(handle: Bytes, offset: nat, data: Bytes)
    | Stat(path: Path)
    | Lstat(path: Path)
    | Fstat(handle: Bytes)
    | SetMode(path: Path, mode: nat)
    | Fsync(handle: Bytes)
    | OpenDirectory(path: Path)
    | ReadDirectory(handle: Bytes)
    | Remove(path: Path)
    | Rename(from: Path, to: Path)
    | PosixRename(from: Path, to: Path)

  datatype Reply = Reply(kind: int, payload: Bytes)

  /** A reply as the client keeps it; the packet's four number bytes count towards its size. */
  function Kept(reply: Reply): Reply {
    if 4 + |reply.payload| > MAX_REPLY then Reply(OVERSIZED, []) else reply
  }

  /** What `receive` makes of a kept reply: the payload of the expected type, or the failure. */
  function Outcome(reply: Reply, expected: int): (r: Result<Bytes, Problem>)
    ensures r.Err? ==> r.error.Status?
  {
    if reply.kind == OVERSIZED then Err(Status(SFTP_BAD_MESSAGE))
    else if reply.kind == CMD_STATUS then
      match UInt(reply.payload, 4)
      case Short => Err(Status(SFTP_BAD_MESSAGE))
      case Field(code, rest) =>
        if code != SFTP_OK then
          if String(rest).Short? then Err(Status(SFTP_BAD_MESSAGE)) else Err(Status(code))
        else if expected != CMD_STATUS then Err(Status(SFTP_BAD_MESSAGE))
        else Ok(rest)
    else if reply.kind != expected then Err(Status(SFTP_BAD_MESSAGE))
    else Ok(reply.payload)
  }

  predicate Accepted(reply: Reply) {
    Outcome(reply, CMD_STATUS).Ok?
  }

  /** The string a reply of one type carries: a handle or the data of a read. */
  function Carried(reply: Reply, expected: int): Option<Bytes> {
    match Outcome(reply, expected)
    case Err(_) => None
    case Ok(payload) =>
      match String(payload)
      case Short => None
      case Field(value, _) => Some(value)
  }

  // ---------------------------------------------------------------- the server

  datatype Server = Server(files: map<Path, Bytes>, writers: map<Bytes, Path>)

  /** A file after a write at an offset; a gap before the offset is filled with zeros. */
  function Splice(content: Bytes, offset: nat, data: Bytes): Bytes {
    var padded := if |content| < offset then content + seq(offset - |content|, _ => 0) else content;
    padded[..offset] + data + (if offset + |data| < |padded| then padded[offset + |data|..] else [])
  }

  /** `data` read at `offset` shows bytes of `file`. */
  predicate Shows(file: Bytes, offset: nat, data: Bytes) {
    forall j :: 0 <= j < |data| && offset + j < |file| ==> data[j] == file[offset + j]
  }

  predicate ReadShows(held: map<Bytes, Bytes>, request: Request, reply: Reply) {
    request.Read? && request.handle in held ==>
      var data := Carried(reply, CMD_DATA);
      data.Some? ==> Shows(held[request.handle], request.offset, data.value)
  }

  /** What a reply tells about the effect of its request: a status that parses tells it, and nothing
      else does. */
  function Verdict(reply: Reply): Option<bool> {
    if reply.kind != CMD_STATUS then None
    else
      match UInt(reply.payload, 4)
      case Short => None
      case Field(code, rest) =>
        if code == SFTP_OK then Some(true)
        else if String(rest).Short? then None
        else Some(false)
  }

  lemma AcceptedTells(reply: Reply)
    ensures Accepted(reply) <==> Verdict(reply) == Some(true)
  {
  }

  /** What the server may do and reply. A status that parses is true: OK means that the request took
      effect, any other code that it did not, and a handle means that the file was created. Under any
      other reply the request may have taken effect or not. Reads show the held file, creation is
      exclusive, a write has a file to go to, and RENAME never replaces (section 6.5 of the draft). */
  predicate Honest(held: map<Bytes, Bytes>, server: Server, request: Request, reply: Reply, done: bool) {
    && (Verdict(reply).Some? ==> Verdict(reply).value == done)
    && ReadShows(held, request, reply)
    && (request.Create? && Carried(reply, CMD_HANDLE).Some? ==> done)
    && (done ==> Possible(server, request, reply))
  }

  /** The request can take effect. */
  predicate Possible(server: Server, request: Request, reply: Reply) {
    match request
    case Create(path) =>
      var handle := Carried(reply, CMD_HANDLE);
      path !in server.files && (handle.Some? ==> handle.value !in server.writers)
    case Write(handle, offset, data) => handle in server.writers && server.writers[handle] in server.files
    case Rename(from, to) => from in server.files && to !in server.files
    case PosixRename(from, to) => from in server.files
    case _ => true
  }

  const SILENCE := Reply(0, [])  // a reply of no known type, which claims nothing

  lemma SilenceIsHonest(held: map<Bytes, Bytes>, server: Server, request: Request)
    ensures Honest(held, server, request, Kept(SILENCE), false)
  {
  }

  lemma HonestReadsShow(held: map<Bytes, Bytes>, server: Server, request: Request, reply: Reply, done: bool)
    requires Honest(held, server, request, reply, done)
    ensures ReadShows(held, request, reply)
  {
  }

  /** The server after a request that took effect or not. */
  function Perform(server: Server, request: Request, reply: Reply, done: bool): Server {
    if !done then server
    else
      match request
      case Create(path) =>
        var handle := Carried(reply, CMD_HANDLE);
        Server(server.files[path := []],
               if handle.Some? then server.writers[handle.value := path] else server.writers)
      case Close(handle) => server.(writers := server.writers - {handle})
      case Write(handle, offset, data) =>
        if handle in server.writers && server.writers[handle] in server.files then
          var path := server.writers[handle];
          server.(files := server.files[path := Splice(server.files[path], offset, data)])
        else server
      case Remove(path) => server.(files := server.files - {path})
      case Rename(from, to) => Moved(server, from, to)
      case PosixRename(from, to) => Moved(server, from, to)
      case _ => server
  }

  function Moved(server: Server, from: Path, to: Path): Server {
    if from in server.files then
      server.(files := (server.files - {from})[to := server.files[from]])
    else server
  }

  /** The server after it performed the requests numbered in `order`, in that order. */
  function Replay(base: Server, sent: seq<Request>, answers: map<nat, Reply>, done: set<nat>, order: seq<nat>): Server {
    if order == [] then base
    else
      var n := order[|order| - 1];
      var before := Replay(base, sent, answers, done, order[..|order| - 1]);
      if n < |sent| && n in answers then Perform(before, sent[n], answers[n], n in done) else before
  }

  /** Every answer was one the server could honestly give when it performed the request. */
  ghost predicate HonestRun(
    held: map<Bytes, Bytes>, base: Server, sent: seq<Request>, answers: map<nat, Reply>, done: set<nat>,
    order: seq<nat>)
  {
    order == [] ||
    (var n, before := order[|order| - 1], order[..|order| - 1];
     && n < |sent| && n in answers
     && HonestRun(held, base, sent, answers, done, before)
     && Honest(held, Replay(base, sent, answers, done, before), sent[n], answers[n], n in done))
  }

  lemma {:induction false} ReplayIsStable(
    held: map<Bytes, Bytes>,
    base: Server, sent: seq<Request>, answers: map<nat, Reply>, done: set<nat>, order: seq<nat>,
    sent1: seq<Request>, answers1: map<nat, Reply>, done1: set<nat>)
    requires |sent| <= |sent1|
    requires forall i :: 0 <= i < |order| ==>
               && order[i] < |sent| && sent1[order[i]] == sent[order[i]]
               && order[i] in answers && order[i] in answers1 && answers1[order[i]] == answers[order[i]]
               && (order[i] in done1 <==> order[i] in done)
    requires HonestRun(held, base, sent, answers, done, order)
    ensures Replay(base, sent1, answers1, done1, order) == Replay(base, sent, answers, done, order)
    ensures HonestRun(held, base, sent1, answers1, done1, order)
  {
    hide Perform, Honest;
    if order != [] {
      ReplayIsStable(held, base, sent, answers, done, order[..|order| - 1], sent1, answers1, done1);
    }
  }

  /** What replies tell about effects is true. */
  lemma {:induction false} VerdictsAreTrue(
    held: map<Bytes, Bytes>, base: Server, sent: seq<Request>, answers: map<nat, Reply>, done: set<nat>,
    order: seq<nat>, n: nat)
    requires HonestRun(held, base, sent, answers, done, order) && n in order
    ensures n < |sent| && n in answers
    ensures Verdict(answers[n]).Some? ==> Verdict(answers[n]).value == (n in done)
  {
    hide Verdict, Possible, ReadShows, Replay;
    var last := |order| - 1;
    if order[last] != n {
      assert n in order[..last];
      VerdictsAreTrue(held, base, sent, answers, done, order[..last], n);
    }
  }

  // ---------------------------------------------------------------- the transport

  /** Everything between the client and the server's files, with its history. */
  datatype Network = Network(
    sent: seq<Request>,          // a request's number is its index here
    queued: set<nat>,            // sent and not yet performed
    wire: map<nat, Reply>,       // performed, the reply still on its way
    lost: bool,
    garbled: bool,               // a packet that was not SFTP has arrived in place of a reply
    server: Server,
    held: map<Bytes, Bytes>,     // what each readable handle's file held when it was opened
    answers: map<nat, Reply>,    // every reply the server gave, as the client keeps it
    done: set<nat>,              // the answered requests that took effect
    base: Server,                // the server when `order` was last emptied
    settled: set<nat>,           // answered before then
    order: seq<nat>)             // performed since then, in the order of performing
  {
    /** Every request is still queued or has one answer, which its server was free to give. */
    ghost predicate Numbered() {
      && (forall n :: n in queued ==> n < |sent| && n !in answers)
      && (forall n :: n in answers ==> n < |sent| && ReadShows(held, sent[n], answers[n]))
      && (forall n :: 0 <= n < |sent| ==> n in queued || n in answers)
      && (forall n :: n in wire ==> n in answers && Kept(wire[n]) == answers[n])
      && done <= answers.Keys
    }

    /** The server's state is the outcome of what it performed since `base`. */
    ghost predicate Replayed() {
      && server == Replay(base, sent, answers, done, order)
      && HonestRun(held, base, sent, answers, done, order)
      && settled <= answers.Keys
      && (forall n :: n in order <==> n in answers && n !in settled)
    }

    function Waiting(): set<nat> {
      queued + wire.Keys
    }

    function Sending(request: Request): Network {
      this.(sent := sent + [request], queued := queued + {|sent|})
    }

    function Performing(n: nat, reply: Reply, effect: bool): Network
      requires n < |sent|
    {
      var kept := Kept(reply);
      this.(
        queued := queued - {n},
        wire := wire[n := reply],
        server := Perform(server, sent[n], kept, effect),
        answers := answers[n := kept],
        done := if effect then done + {n} else done,
        order := order + [n])
    }

    function Rebased(): Network {
      this.(base := server, settled := answers.Keys, order := [])
    }
  }

  /** The history only grows. */
  ghost predicate Grew(before: Network, now: Network) {
    && before.sent <= now.sent
    && before.order <= now.order
    && before.base == now.base && before.settled == now.settled && before.held == now.held
    && (before.lost ==> now.lost) && (before.garbled ==> now.garbled)
    && (forall n :: n in before.answers ==> n in now.answers && now.answers[n] == before.answers[n])
    && (forall n :: n in before.answers ==> (n in now.done <==> n in before.done))
  }

  /** Why a wait ended without its reply. */
  predicate Broken(net: Network, problem: Problem) {
    if problem == Lost then net.lost else problem == Garbage && net.garbled
  }

  /** Attributes in a reply, or none. */
  function AttributesIn(reply: Reply): Option<Attributes> {
    match Outcome(reply, CMD_ATTRS)
    case Err(_) => None
    case Ok(payload) =>
      match AttributesOf(payload)
      case Short => None
      case Field(attributes, _) => Some(attributes)
  }

  /** A reply that fails its request: it has no data or more than was asked for, no handle, or no OK; or
      it does not tell whether a path exists. */
  predicate Amiss(request: Request, reply: Reply) {
    match request
    case Read(_, _, length) =>
      var data := Carried(reply, CMD_DATA);
      data.None? || data.value == [] || |data.value| > length
    case Create(_) => Carried(reply, CMD_HANDLE).None?
    case Stat(_) => AttributesIn(reply).None? && Outcome(reply, CMD_ATTRS) != Err(Status(SFTP_NO_SUCH_FILE))
    case Fsync(_) => Outcome(reply, CMD_STATUS).Err? && Outcome(reply, CMD_STATUS) != Err(Status(SFTP_OP_UNSUPPORTED))
    case _ => !Accepted(reply)
  }

  /** The session failed: it was lost, it was garbled, or a reply to a request from `first` on is amiss. */
  ghost predicate Troubled(net: Network, first: nat) {
    || net.lost || net.garbled
    || exists n :: first <= n < |net.sent| && n in net.answers && Amiss(net.sent[n], net.answers[n])
  }

  /** The type of the reply that a request asks for. */
  function KindOf(request: Request): int {
    match request
    case Read(_, _, _) => CMD_DATA
    case Create(_) => CMD_HANDLE
    case Open(_) => CMD_HANDLE
    case OpenDirectory(_) => CMD_HANDLE
    case Stat(_) => CMD_ATTRS
    case Lstat(_) => CMD_ATTRS
    case Fstat(_) => CMD_ATTRS
    case ReadDirectory(_) => CMD_NAME
    case _ => CMD_STATUS
  }

  /** The problem that a reply reports: its failure, or that what was asked for is not in it. */
  predicate Reports(request: Request, reply: Reply, problem: Problem) {
    match Outcome(reply, KindOf(request))
    case Err(failure) => problem == failure
    case Ok(_) => problem == Status(SFTP_BAD_MESSAGE) && Amiss(request, reply)
  }

  /** The session has met this problem: it is gone, it was garbled, or a reply reports it. */
  ghost predicate Met(net: Network, first: nat, problem: Problem) {
    || Broken(net, problem)
    || exists n :: first <= n < |net.sent| && n in net.answers && Reports(net.sent[n], net.answers[n], problem)
  }

  /** An error code translates a problem that the session has met. */
  ghost predicate Translates(
    net: Network, first: nat, code: ErrorCode, missing: Option<ErrorCode>, denied: Option<ErrorCode>,
    unsupported: Option<ErrorCode>)
  {
    exists problem :: Met(net, first, problem) && code == Translate(problem, missing, denied, unsupported)
  }

  lemma MetBy(net: Network, first: nat, n: nat, problem: Problem)
    requires first <= n < |net.sent| && n in net.answers && Reports(net.sent[n], net.answers[n], problem)
    ensures Met(net, first, problem)
  {
    hide Reports;
  }

  lemma BrokenIsMet(net: Network, first: nat, problem: Problem)
    ensures Broken(net, problem) ==> Met(net, first, problem)
    ensures net.lost ==> Met(net, first, Lost)
  {
  }

  lemma MetStays(before: Network, now: Network, first: nat)
    requires Grew(before, now)
    ensures forall problem :: Met(before, first, problem) ==> Met(now, first, problem)
  {
    hide Reports;
    forall problem | Met(before, first, problem)
      ensures Met(now, first, problem)
    {
      if !Broken(before, problem) {
        var n :| first <= n < |before.sent| && n in before.answers
          && Reports(before.sent[n], before.answers[n], problem);
        assert now.sent[n] == before.sent[n];
        MetBy(now, first, n, problem);
      }
    }
  }

  lemma TroubledBy(net: Network, first: nat, n: nat)
    requires first <= n < |net.sent| && n in net.answers && Amiss(net.sent[n], net.answers[n])
    ensures Troubled(net, first)
  {
    hide Amiss;
  }

  lemma BrokenIsTroubled(net: Network, first: nat)
    ensures net.lost || net.garbled ==> Troubled(net, first)
  {
  }

  lemma TroubledStays(before: Network, now: Network, first: nat)
    requires Grew(before, now) && Troubled(before, first)
    ensures Troubled(now, first)
  {
    hide Amiss;
    if !before.lost && !before.garbled {
      var n :| first <= n < |before.sent| && n in before.answers && Amiss(before.sent[n], before.answers[n]);
      assert now.sent[n] == before.sent[n];
      TroubledBy(now, first, n);
    }
  }

  lemma GrewIsReflexive(a: Network)
    ensures Grew(a, a)
  {
  }

  lemma GrewIsTransitive(a: Network, b: Network, c: Network)
    requires Grew(a, b) && Grew(b, c)
    ensures Grew(a, c)
  {
  }

  /** Each reply is delivered to its own number, and only to a caller that still wants it. */
  ghost predicate Demultiplexed(net: Network, replies: map<nat, Reply>, ignored: set<nat>, claimed: set<nat>) {
    && (forall n :: n in replies ==> n in net.answers && replies[n] == net.answers[n])
    && (forall n :: n in replies ==> n !in net.Waiting() && n !in claimed)
    && (forall n :: n in ignored ==> n in claimed && n in net.Waiting())
    && (forall n :: n in claimed ==> n < |net.sent| && (n in net.Waiting() ==> n in ignored))
    && (forall n :: 0 <= n < |net.sent| && n !in claimed ==> n in net.Waiting() || n in replies)
  }

  ghost predicate Consistent(net: Network, replies: map<nat, Reply>, ignored: set<nat>, claimed: set<nat>) {
    net.Numbered() && net.Replayed() && Demultiplexed(net, replies, ignored, claimed)
  }

  /** Once every reply has arrived, nothing is kept exactly when every request was received or
      ignored: no reply stays in the table and no number in the ignore set. */
  lemma NothingIsKept(net: Network, replies: map<nat, Reply>, ignored: set<nat>, claimed: set<nat>)
    requires Consistent(net, replies, ignored, claimed)
    requires net.Waiting() == {}
    ensures ignored == {}
    ensures replies == map[] <==> forall n :: 0 <= n < |net.sent| ==> n in claimed
  {
    if replies != map[] {
      var n :| n in replies;
      assert n < |net.sent| && n !in claimed;
    }
  }

  lemma ReplayGrows(net: Network, sent: seq<Request>, answers: map<nat, Reply>, done: set<nat>)
    requires net.Numbered() && net.Replayed() && net.sent <= sent
    requires forall n :: n in net.answers ==> n in answers && answers[n] == net.answers[n]
    requires forall n :: n in net.answers ==> (n in done <==> n in net.done)
    ensures Replay(net.base, sent, answers, done, net.order) == net.server
    ensures HonestRun(net.held, net.base, sent, answers, done, net.order)
  {
    hide ReadShows, Kept, Perform, Replay, HonestRun;
    forall i | 0 <= i < |net.order|
      ensures net.order[i] < |net.sent| && net.order[i] in net.answers
    {
      assert net.order[i] in net.order;
    }
    ReplayIsStable(net.held, net.base, net.sent, net.answers, net.done, net.order, sent, answers, done);
  }

  lemma SendingReplays(net: Network, request: Request)
    requires net.Numbered() && net.Replayed()
    ensures net.Sending(request).Replayed() && Grew(net, net.Sending(request))
  {
    hide ReadShows, Kept, Perform, Replay, HonestRun;
    ReplayGrows(net, net.sent + [request], net.answers, net.done);
  }

  lemma SendingKeeps(net: Network, replies: map<nat, Reply>, ignored: set<nat>, claimed: set<nat>, request: Request)
    requires Consistent(net, replies, ignored, claimed)
    ensures Consistent(net.Sending(request), replies, ignored, claimed) && Grew(net, net.Sending(request))
    ensures |net.sent| !in claimed
  {
    hide ReadShows, Kept, Network.Replayed, Grew;
    SendingReplays(net, request);
  }

  lemma PerformingIsReplayed(net: Network, n: nat, reply: Reply, effect: bool)
    requires net.Numbered() && net.Replayed() && n in net.queued
    requires Honest(net.held, net.server, net.sent[n], Kept(reply), effect)
    ensures var after := net.Performing(n, reply, effect);
            && after.server == Replay(after.base, after.sent, after.answers, after.done, after.order)
            && HonestRun(after.held, after.base, after.sent, after.answers, after.done, after.order)
  {
    var after := net.Performing(n, reply, effect);
    hide ReadShows, Kept, Perform, Honest;
    ReplayGrows(net, after.sent, after.answers, after.done);
    assert n < |after.sent|;
    hide Network.Numbered, Network.Replayed;
    assert after.order[..|after.order| - 1] == net.order;
  }

  lemma PerformingGrows(net: Network, n: nat, reply: Reply, effect: bool)
    requires n in net.queued && n < |net.sent| && n !in net.answers
    ensures Grew(net, net.Performing(n, reply, effect))
  {
    hide Kept, Perform;
  }

  lemma PerformingReplays(net: Network, n: nat, reply: Reply, effect: bool)
    requires net.Numbered() && net.Replayed() && n in net.queued
    requires Honest(net.held, net.server, net.sent[n], Kept(reply), effect)
    ensures net.Performing(n, reply, effect).Replayed()
  {
    hide ReadShows, Kept, Perform, Replay, Honest, HonestRun;
    PerformingIsReplayed(net, n, reply, effect);
    OrderGains(net.order, n);
  }

  lemma OrderGains(order: seq<nat>, n: nat)
    ensures forall m :: m in order + [n] <==> m in order || m == n
  {
  }

  lemma PerformingKeeps(
    net: Network, replies: map<nat, Reply>, ignored: set<nat>, claimed: set<nat>, n: nat, reply: Reply, effect: bool)
    requires Consistent(net, replies, ignored, claimed) && n in net.queued
    requires Honest(net.held, net.server, net.sent[n], Kept(reply), effect)
    ensures Consistent(net.Performing(n, reply, effect), replies, ignored, claimed)
    ensures Grew(net, net.Performing(n, reply, effect))
  {
    hide ReadShows, Kept, Perform, Honest, Network.Replayed, Replay, HonestRun, Grew;
    PerformingGrows(net, n, reply, effect);
    HonestReadsShow(net.held, net.server, net.sent[n], Kept(reply), effect);
    PerformingReplays(net, n, reply, effect);
    var after := net.Performing(n, reply, effect);
    assert after.Waiting() == net.Waiting();
    assert after.Numbered() by { hide Demultiplexed, Network.Waiting; }
    assert Demultiplexed(after, replies, ignored, claimed) by { hide Network.Waiting; }
  }

  lemma RebasingKeeps(net: Network, replies: map<nat, Reply>, ignored: set<nat>, claimed: set<nat>)
    requires Consistent(net, replies, ignored, claimed)
    ensures Consistent(net.Rebased(), replies, ignored, claimed)
  {
    hide ReadShows, Kept;
  }

  lemma DeliveringIsNumbered(net: Network, n: nat)
    requires net.Numbered() && net.Replayed() && n in net.wire
    ensures Kept(net.wire[n]) == net.answers[n]
    ensures var after := net.(wire := net.wire - {n});
            after.Numbered() && after.Replayed() && Grew(net, after) && after.Waiting() == net.Waiting() - {n}
  {
    hide ReadShows, Kept, Replay, HonestRun;
  }

  /** One reply is delivered. */
  lemma DeliveringKeeps(net: Network, replies: map<nat, Reply>, ignored: set<nat>, claimed: set<nat>, n: nat)
    requires Consistent(net, replies, ignored, claimed) && n in net.wire
    ensures Kept(net.wire[n]) == net.answers[n]
    ensures Grew(net, net.(wire := net.wire - {n}))
    ensures n in ignored ==> Consistent(net.(wire := net.wire - {n}), replies, ignored - {n}, claimed)
    ensures n !in ignored ==>
              Consistent(net.(wire := net.wire - {n}), replies[n := net.answers[n]], ignored, claimed)
  {
    hide ReadShows, Kept, Network.Replayed, Replay, HonestRun, Grew;
    DeliveringIsNumbered(net, n);
    assert n in net.Waiting();
    hide Network.Waiting, Network.Numbered;
  }

  /** The caller takes a reply, or stops waiting for it. */
  lemma ClaimingKeeps(net: Network, replies: map<nat, Reply>, ignored: set<nat>, claimed: set<nat>, n: nat)
    requires Consistent(net, replies, ignored, claimed) && n < |net.sent| && n !in claimed
    ensures n in replies ==> n in net.answers && replies[n] == net.answers[n]
    ensures n in replies ==> Consistent(net, replies - {n}, ignored, claimed + {n})
    ensures n !in replies ==> Consistent(net, replies, ignored + {n}, claimed + {n})
    ensures n !in replies ==> n in net.Waiting()
  {
    hide ReadShows, Kept, Replay, HonestRun, Network.Replayed;
  }

  lemma WaitingIsNumbered(net: Network, replies: map<nat, Reply>, ignored: set<nat>, claimed: set<nat>)
    requires Consistent(net, replies, ignored, claimed)
    ensures forall n :: n in net.queued ==> n < |net.sent| && n !in net.wire
    ensures forall n :: n in claimed ==> n < |net.sent|
  {
    hide ReadShows, Kept, Replay, HonestRun, Network.Replayed;
  }

  // ---------------------------------------------------------------- what a session has sent

  /** How often a request was sent, from one number on. */
  function Times(sent: seq<Request>, from: nat, request: Request): nat {
    if |sent| <= from then 0
    else Times(sent[..|sent| - 1], from, request) + if sent[|sent| - 1] == request then 1 else 0
  }

  lemma TimesStep(sent: seq<Request>, from: nat, request: Request, next: Request)
    requires from <= |sent|
    ensures Times(sent + [next], from, request) == Times(sent, from, request) + if next == request then 1 else 0
  {
    assert (sent + [next])[..|sent|] == sent;
  }

  /** At most one request was added. */
  lemma TimesUpTo(before: seq<Request>, now: seq<Request>, from: nat, request: Request, next: Request)
    requires from <= |before| && before <= now <= before + [next]
    ensures Times(before, from, request) <= Times(now, from, request)
    ensures next != request ==> Times(now, from, request) == Times(before, from, request)
    ensures next == request && now == before + [next] ==>
              Times(now, from, request) == Times(before, from, request) + 1
    ensures Times(now, from, request) <= Times(before, from, request) + 1
  {
    TimesStep(before, from, request, next);
    assert now == before || now == before + [next];
  }

  /** The requests from `from` on that nobody has claimed and nobody waits for. */
  ghost function LeftBehind(sent: nat, from: nat, claimed: set<nat>, waiting: set<nat>): set<nat> {
    set n | from <= n < sent && n !in claimed && n !in waiting
  }

  /** A number that is waited for is claimed, or the wait for it is given up; or one more is sent. */
  lemma LeftBehindSteps(sent: nat, from: nat, claimed: set<nat>, waiting: set<nat>, rest: set<nat>, n: nat)
    requires waiting == rest + {n} && n !in rest
    ensures LeftBehind(sent, from, claimed + {n}, rest) == LeftBehind(sent, from, claimed, waiting)
    ensures from <= n < sent && n !in claimed ==>
              LeftBehind(sent, from, claimed, rest) == LeftBehind(sent, from, claimed, waiting) + {n}
    ensures from <= sent == n ==>
              LeftBehind(sent + 1, from, claimed, waiting) == LeftBehind(sent, from, claimed, rest)
    ensures from <= sent == n ==>
              LeftBehind(sent + 1, from, claimed + {n}, rest) == LeftBehind(sent, from, claimed, rest)
  {
  }

  /** Of the requests from `from` on, the replies that stay in the table for good are those of the
      requests left behind. */
  lemma LeftBehindStays(
    net: Network, replies: map<nat, Reply>, ignored: set<nat>, claimed: set<nat>, from: nat)
    requires Consistent(net, replies, ignored, claimed) && net.Waiting() == {}
    ensures forall n :: from <= n ==> (n in replies <==> n in LeftBehind(|net.sent|, from, claimed, {}))
  {
    hide ReadShows, Kept, Network.Replayed, Replay, HonestRun;
  }

  /** How a reply is left behind on a session that goes on: a packet that is not SFTP ends the wait
      for a request, whose number is then neither received nor ignored, and its reply still comes. */
  lemma GarbageStrandsAReply(
    net: Network, replies: map<nat, Reply>, ignored: set<nat>, claimed: set<nat>, request: Request)
    requires Consistent(net, replies, ignored, claimed) && !net.lost
    ensures var n, waited := |net.sent|, net.Sending(request).(garbled := true);
            var answered := waited.Performing(n, SILENCE, false);
            var arrived := answered.(wire := answered.wire - {n});
            && Consistent(waited, replies, ignored, claimed)
            && Consistent(arrived, replies[n := Kept(SILENCE)], ignored, claimed)
            && !arrived.lost && n in LeftBehind(|arrived.sent|, n, claimed, {})
  {
    hide ReadShows, Kept, Network.Replayed, Network.Numbered, Honest, Perform, Demultiplexed;
    var n, sent := |net.sent|, net.Sending(request);
    SendingKeeps(net, replies, ignored, claimed, request);
    var waited := sent.(garbled := true);
    GarblingKeeps(sent, replies, ignored, claimed);
    SilenceIsHonest(waited.held, waited.server, request);
    PerformingKeeps(waited, replies, ignored, claimed, n, SILENCE, false);
    NotIgnored(waited, replies, ignored, claimed, n);
    DeliveringKeeps(waited.Performing(n, SILENCE, false), replies, ignored, claimed, n);
  }

  lemma GarblingKeeps(net: Network, replies: map<nat, Reply>, ignored: set<nat>, claimed: set<nat>)
    requires Consistent(net, replies, ignored, claimed)
    ensures Consistent(net.(garbled := true), replies, ignored, claimed)
  {
    hide ReadShows, Kept, Replay, HonestRun;
  }

  lemma NotIgnored(net: Network, replies: map<nat, Reply>, ignored: set<nat>, claimed: set<nat>, n: nat)
    requires Consistent(net, replies, ignored, claimed) && n !in claimed
    ensures n !in ignored
  {
    hide ReadShows, Kept, Replay, HonestRun, Network.Numbered, Network.Replayed;
  }

  // ---------------------------------------------------------------- the client

  class Requests {
    var replies: map<nat, Reply>
    var ignored: set<nat>
    var net: Network
    ghost var claimed: set<nat>  // received or ignored by the caller

    constructor (server: Server, held: map<Bytes, Bytes>)
      ensures Valid() && claimed == {} && ignored == {}
      ensures net == Network([], {}, map[], false, false, server, held, map[], {}, server, {}, [])
    {
      replies, ignored, claimed := map[], {}, {};
      net := Network([], {}, map[], false, false, server, held, map[], {}, server, {}, []);
    }

    ghost predicate Valid()
      reads this
    {
      Consistent(net, replies, ignored, claimed)
    }

    /** Start a new history of effects here. */
    method Rebase()
      requires Valid()
      modifies this`net
      ensures Valid() && net == old(net).Rebased()
    {
      RebasingKeeps(net, replies, ignored, claimed);
      net := net.Rebased();
    }

    /** The server performs one queued request and puts any reply it may give on the wire. */
    method Process(n: nat)
      requires Valid() && n in net.queued
      modifies this`net
      ensures Valid() && Grew(old(net), net)
      ensures net.sent == old(net).sent && net.lost == old(net).lost && net.garbled == old(net).garbled
      ensures net.queued == old(net).queued - {n} && net.wire.Keys == old(net).wire.Keys + {n}
    {
      hide Consistent, Honest, Perform, Kept;
      WaitingIsNumbered(net, replies, ignored, claimed);
      var reply: Reply, effect: bool := *, *;
      if !Honest(net.held, net.server, net.sent[n], Kept(reply), effect) {
        reply, effect := SILENCE, false;
        SilenceIsHonest(net.held, net.server, net.sent[n]);
      }
      PerformingKeeps(net, replies, ignored, claimed, n, reply, effect);
      net := net.Performing(n, reply, effect);
    }

    /** Deliver one reply: drop it if its caller ignored it, mark an oversized one, or keep it. */
    method AsyncResponse(number: nat)
      requires Valid() && number in net.wire
      modifies this`net, this`ignored, this`replies
      ensures Valid() && Grew(old(net), net)
      ensures net == old(net).(wire := old(net).wire - {number}) && ignored == old(ignored) - {number}
      ensures replies == if number in old(ignored) then old(replies) else old(replies)[number := net.answers[number]]
    {
      hide Consistent;
      DeliveringKeeps(net, replies, ignored, claimed, number);
      var reply := net.wire[number];
      net := net.(wire := net.wire - {number});
      if number in ignored {
        ignored := ignored - {number};
      } else if 4 + |reply.payload| > MAX_REPLY {
        replies := replies[number := Reply(OVERSIZED, [])];
      } else {
        replies := replies[number := reply];
      }
    }

    /** The session ends; the server may still perform any of the requests it has. */
    method Lose()
      requires Valid()
      modifies this`net
      ensures Valid() && Grew(old(net), net) && net.lost && net.sent == old(net).sent && net.garbled == old(net).garbled
    {
      net := net.(lost := true);
      assert Valid();
      var steps: nat := *;
      Work(steps);
    }

    /** A packet arrives that is not SFTP; the session goes on. */
    method Garble()
      requires Valid()
      modifies this`net
      ensures Valid() && Grew(old(net), net) && net == old(net).(garbled := true)
    {
      net := net.(garbled := true);
    }

    /** The server performs at most `steps` of the queued requests. */
    method Work(steps: nat)
      requires Valid()
      modifies this`net
      ensures Valid() && Grew(old(net), net)
      ensures net.sent == old(net).sent && net.lost == old(net).lost && net.garbled == old(net).garbled
      ensures Backlog() <= old(Backlog())
    {
      hide Consistent, Grew;
      var left := steps;
      GrewIsReflexive(net);
      while left > 0 && net.queued != {}
        invariant Valid() && Grew(old(net), net) && net.sent == old(net).sent
        invariant net.lost == old(net).lost && net.garbled == old(net).garbled
        invariant Backlog() <= old(Backlog())
      {
        var n :| n in net.queued;
        ghost var before := net;
        Process(n);
        GrewIsTransitive(old(net), before, net);
        assert |net.queued| == |before.queued| - 1 && |net.wire.Keys| <= |before.wire.Keys| + 1;
        left := left - 1;
      }
    }

    ghost function Backlog(): nat
      reads this
    {
      2 * |net.queued| + |net.wire.Keys|
    }

    /** Wait for one packet: a reply to some request, in any order, or a failure. */
    method ReadResponse() returns (r: Result<(), Problem>)
      requires Valid()
      modifies this`net, this`ignored, this`replies
      ensures Valid() && Grew(old(net), net) && net.sent == old(net).sent
      ensures ignored <= old(ignored)
      ensures r.Ok? ==> Backlog() < old(Backlog()) && net.lost == old(net).lost && net.garbled == old(net).garbled
      ensures r.Err? ==> Broken(net, r.error)
    {
      hide Consistent, Grew;
      GrewIsReflexive(net);
      if net.lost {
        return Err(Lost);
      }
      var fate: int := *;
      if fate == 0 {
        Lose();
        return Err(Lost);
      } else if fate == 1 {
        Garble();
        return Err(Garbage);
      }
      var steps: nat := *;
      Work(steps);
      ghost var worked := net;
      if net.wire == map[] {
        Lose();  // nothing arrives, so the wait is abandoned
        GrewIsTransitive(old(net), worked, net);
        return Err(Lost);
      }
      var number :| number in net.wire;
      AsyncResponse(number);
      GrewIsTransitive(old(net), worked, net);
      assert net.wire.Keys == worked.wire.Keys - {number};
      r := Ok(());
    }

    /** Send a request; its number is new. A send that fails may still have reached the server. */
    method Send(request: Request) returns (r: Result<nat, Problem>)
      requires Valid()
      modifies this`net
      ensures Valid() && Grew(old(net), net)
      ensures r.Ok? ==> net == old(net).Sending(request) && r.value == |old(net).sent| && r.value !in claimed
      ensures net.lost <==> r.Err?
      ensures r.Err? ==> r.error == Lost && old(net).sent <= net.sent <= old(net).sent + [request]
      ensures net.garbled == old(net).garbled && (old(net).lost ==> net.lost)
    {
      hide Consistent, Grew;
      GrewIsReflexive(net);
      if net.lost {
        return Err(Lost);
      }
      SendingKeeps(net, replies, ignored, claimed, request);
      net := net.Sending(request);
      var fails: bool := *;
      if fails {
        ghost var sent := net;
        Lose();
        GrewIsTransitive(old(net), sent, net);
        return Err(Lost);
      }
      r := Ok(|net.sent| - 1);
    }

    /** Wait for the reply to one request, whatever arrives before it. */
    method Receive(number: nat, expected: int) returns (r: Result<Bytes, Problem>)
      requires Valid() && number < |net.sent| && number !in claimed
      modifies this
      ensures Valid() && Grew(old(net), net) && net.sent == old(net).sent && ignored <= old(ignored)
      ensures r.Ok? || r.error.Status? ==>
                && claimed == old(claimed) + {number}
                && number in net.answers && r == Outcome(net.answers[number], expected)
                && net.lost == old(net).lost && net.garbled == old(net).garbled
      ensures r.Err? && !r.error.Status? ==> claimed == old(claimed) && Broken(net, r.error)
    {
      hide Consistent, Grew, Outcome;
      GrewIsReflexive(net);
      while number !in replies
        invariant Valid() && Grew(old(net), net) && net.sent == old(net).sent && ignored <= old(ignored)
        invariant claimed == old(claimed) && net.lost == old(net).lost && net.garbled == old(net).garbled
        decreases Backlog()
      {
        ghost var before := net;
        var step := ReadResponse();
        GrewIsTransitive(old(net), before, net);
        if step.Err? {
          return Err(step.error);
        }
      }
      ClaimingKeeps(net, replies, ignored, claimed, number);
      var reply := replies[number];
      replies := replies - {number};
      claimed := claimed + {number};
      r := Outcome(reply, expected);
    }

    /** Claim a number without its reply: a reply that has arrived leaves the table, and one that has
        not will be dropped when it arrives. */
    method Ignore(number: nat)
      requires Valid() && number < |net.sent| && number !in claimed
      modifies this`replies, this`ignored, this`claimed
      ensures Valid() && claimed == old(claimed) + {number}
    {
      hide Consistent;
      ClaimingKeeps(net, replies, ignored, claimed, number);
      claimed := claimed + {number};
      if number in replies {
        replies := replies - {number};
      } else {
        ignored := ignored + {number};
      }
    }

    /** Send a request and wait for its reply. */
    method Call(request: Request, expected: int) returns (r: Result<Bytes, Problem>)
      requires Valid()
      modifies this
      ensures Valid() && Grew(old(net), net) && ignored <= old(ignored)
      ensures old(net).sent <= net.sent <= old(net).sent + [request]
      ensures r.Ok? || r.error.Status? ==>
                var n := |old(net).sent|;
                && net.sent == old(net).sent + [request] && claimed == old(claimed) + {n}
                && n in net.answers && r == Outcome(net.answers[n], expected)
                && net.lost == old(net).lost && net.garbled == old(net).garbled
      ensures r.Err? && !r.error.Status? ==> claimed == old(claimed) && Broken(net, r.error)
      ensures !net.lost ==> net.sent == old(net).sent + [request]
    {
      hide Consistent, Grew, Outcome;
      var number := Send(request);
      if number.Err? {
        return Err(number.error);
      }
      ghost var sent := net;
      r := Receive(number.value, expected);
      GrewIsTransitive(old(net), sent, net);
    }

    /** Send one CLOSE and ignore its number; only a lost session may leave it unsent. */
    method CloseQuietly(handle: Bytes)
      requires Valid()
      modifies this
      ensures Valid() && Grew(old(net), net)
      ensures old(net).sent <= net.sent <= old(net).sent + [Close(handle)]
      ensures claimed == old(claimed) + if net.lost then {} else {|old(net).sent|}
      ensures !net.lost ==> net.sent == old(net).sent + [Close(handle)]
      ensures net.garbled == old(net).garbled && (old(net).lost ==> net.lost)
    {
      hide Consistent, Grew;
      var number := Send(Close(handle));
      if number.Ok? {
        Ignore(number.value);
      }
    }
  }
}
