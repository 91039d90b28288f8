/** The pipelined download: a window of READ requests, delivered as one sequential read. */
module RemoteRead {
  import opened Common
  import opened Wire
  import opened Session

  /** A READ in flight. */
  datatype Range = Range(number: nat, offset: nat, length: nat)

  /** The ranges cover [lo, hi) in file order, without a gap or an overlap. */
  ghost predicate Tiles(ranges: seq<Range>, lo: nat, hi: nat) {
    if ranges == [] then lo == hi
    else
      && ranges[0].offset == lo && 0 < ranges[0].length <= REQUEST_SIZE
      && Tiles(ranges[1..], lo + ranges[0].length, hi)
  }

  lemma {:induction false} TilesExtend(ranges: seq<Range>, lo: nat, hi: nat, last: Range)
    requires Tiles(ranges, lo, hi)
    requires last.offset == hi && 0 < last.length <= REQUEST_SIZE
    ensures Tiles(ranges + [last], lo, hi + last.length)
  {
    if ranges != [] {
      TilesExtend(ranges[1..], lo + ranges[0].length, hi, last);
      assert (ranges + [last])[1..] == ranges[1..] + [last];
    }
  }

  lemma {:induction false} TilesAscend(ranges: seq<Range>, lo: nat, hi: nat)
    requires Tiles(ranges, lo, hi)
    ensures lo <= hi && (ranges != [] ==> lo < lo + ranges[0].length <= hi)
  {
    if ranges != [] {
      TilesAscend(ranges[1..], lo + ranges[0].length, hi);
    }
  }

  /** Each range has its own request, whose reply nobody has claimed. */
  ghost predicate Outstanding(ranges: seq<Range>, sent: seq<Request>, claimed: set<nat>, handle: Bytes) {
    && (forall i :: 0 <= i < |ranges| ==>
          && ranges[i].number < |sent| && ranges[i].number !in claimed
          && sent[ranges[i].number] == Read(handle, ranges[i].offset, ranges[i].length))
    && (forall i, j :: 0 <= i < j < |ranges| ==> ranges[i].number != ranges[j].number)
  }

  /** Since the file was opened the session was used to read it, and for nothing else. */
  ghost predicate OnlyReads(sent: seq<Request>, first: nat, handle: Bytes) {
    && first <= |sent|
    && forall n :: first <= n < |sent| ==> sent[n].Read? && sent[n].handle == handle
  }

  lemma OnlyReadsGrow(sent: seq<Request>, first: nat, handle: Bytes, next: Request)
    requires OnlyReads(sent, first, handle) && next.Read? && next.handle == handle
    ensures OnlyReads(sent + [next], first, handle) && first <= |sent|
  {
  }

  lemma NotAmong(ranges: seq<Range>, sent: seq<Request>, claimed: set<nat>, handle: Bytes)
    requires Outstanding(ranges, sent, claimed, handle)
    ensures |sent| !in Numbers(ranges)
  {
  }

  ghost function Numbers(ranges: seq<Range>): set<nat> {
    set range | range in ranges :: range.number
  }

  lemma OutstandingIsStable(
    ranges: seq<Range>, sent: seq<Request>, more: seq<Request>, claimed: set<nat>, handle: Bytes)
    requires Outstanding(ranges, sent, claimed, handle) && sent <= more
    ensures Outstanding(ranges, more, claimed, handle)
  {
  }

  lemma OutstandingExtends(ranges: seq<Range>, range: Range, sent: seq<Request>, claimed: set<nat>, handle: Bytes)
    requires Outstanding(ranges, sent, claimed, handle)
    requires range.number == |sent| && range.number !in claimed
    ensures var more := sent + [Read(handle, range.offset, range.length)];
            && Outstanding(ranges + [range], more, claimed, handle)
            && Outstanding([range] + ranges, more, claimed, handle)
    ensures Numbers(ranges + [range]) == Numbers(ranges) + {range.number}
    ensures Numbers([range] + ranges) == Numbers(ranges) + {range.number}
  {
    assert forall r :: r in ranges + [range] <==> r in ranges || r == range;
    assert forall r :: r in [range] + ranges <==> r in ranges || r == range;
  }

  lemma OutstandingAdvances(ranges: seq<Range>, sent: seq<Request>, claimed: set<nat>, handle: Bytes)
    requires ranges != [] && Outstanding(ranges, sent, claimed, handle)
    ensures ranges[0].number < |sent| && ranges[0].number !in claimed
    ensures sent[ranges[0].number] == Read(handle, ranges[0].offset, ranges[0].length)
    ensures Outstanding(ranges[1..], sent, claimed, handle)
    ensures Outstanding(ranges[1..], sent, claimed + {ranges[0].number}, handle)
    ensures Numbers(ranges) == {ranges[0].number} + Numbers(ranges[1..])
    ensures ranges[0].number !in Numbers(ranges[1..])
  {
    assert ranges == [ranges[0]] + ranges[1..];
  }

  lemma SliceAdvances(file: Bytes, from: nat, at: nat, next: Bytes, taken: nat)
    requires from <= at && taken <= |next| && at + |next| <= |file|
    requires next == file[at..at + |next|]
    ensures file[from..at] + next[..taken] == file[from..at + taken]
    ensures next[taken..] == file[at + taken..at + |next|]
  {
  }

  lemma GrewHolds(before: Network, now: Network)
    requires Grew(before, now)
    ensures now.held == before.held && before.sent <= now.sent
  {
  }

  lemma GrewAnswers(before: Network, now: Network, n: nat)
    requires Grew(before, now) && n in before.answers
    ensures n in now.answers && now.answers[n] == before.answers[n]
  {
  }

  /** A reply without data: the end of the file, or an empty string. */
  predicate ShowsNothing(reply: Reply) {
    Outcome(reply, CMD_DATA) == Err(Status(SFTP_EOF)) || Carried(reply, CMD_DATA) == Some([])
  }

  /** Every reply that was received had data. */
  ghost predicate AllTold(net: Network, claimed: set<nat>, first: nat) {
    forall n :: first <= n < |net.sent| && n in claimed ==> n in net.answers && !ShowsNothing(net.answers[n])
  }

  /** A reply that was received had none. */
  ghost predicate SawNothing(net: Network, claimed: set<nat>, first: nat) {
    exists n :: first <= n < |net.sent| && n in claimed && n in net.answers && ShowsNothing(net.answers[n])
  }

  lemma ToldSoFar(net: Network, claimed: set<nat>, first: nat)
    requires AllTold(net, claimed, first)
    ensures !SawNothing(net, claimed, first)
  {
    hide ShowsNothing;
  }

  /** One more reply is received, or none. */
  lemma ToldGrows(before: Network, claimed: set<nat>, now: Network, first: nat, number: nat)
    requires AllTold(before, claimed, first) && Grew(before, now)
    requires forall n :: n in claimed ==> n < |before.sent|
    ensures AllTold(now, claimed, first)
    ensures first <= number < |now.sent| && number in now.answers ==>
              && (SawNothing(now, claimed + {number}, first) <==> ShowsNothing(now.answers[number]))
              && (!ShowsNothing(now.answers[number]) ==> AllTold(now, claimed + {number}, first))
  {
    hide ShowsNothing;
  }

  datatype Halt = Refused(problem: Problem) | Changed

  class Download {
    const requests: Requests
    const handle: Bytes
    const size: nat
    var nextOffset: nat
    var pending: seq<Range>
    var leftover: Bytes
    ghost const first: nat   // the first request after the file was opened
    ghost var delivered: nat  // how many bytes `Read` has returned

    constructor (requests: Requests, handle: Bytes, size: nat)
      requires requests.Valid() && handle in requests.net.held && size <= |requests.net.held[handle]|
      ensures Valid() && delivered == 0 && first == |requests.net.sent|
      ensures this.requests == requests && this.handle == handle && this.size == size
    {
      this.requests, this.handle, this.size := requests, handle, size;
      nextOffset, pending, leftover := 0, [], [];
      first, delivered := |requests.net.sent|, 0;
    }

    /** The bytes this download stands for: the first `size` bytes of the opened file. */
    ghost function File(): Bytes
      reads this, requests
      requires handle in requests.net.held && size <= |requests.net.held[handle]|
    {
      requests.net.held[handle][..size]
    }

    /** The state from which `Release` cleans up; it survives every failure. */
    ghost predicate Releasable()
      reads this, requests
    {
      && requests.Valid()
      && Outstanding(pending, requests.net.sent, requests.claimed, handle)
      && OnlyReads(requests.net.sent, first, handle)
      && (forall i :: 0 <= i < |pending| ==> first <= pending[i].number)
      && (Stranded() != {} ==> requests.net.lost || requests.net.garbled)
    }

    /** The requests of this download that were neither received nor ignored nor wait in the window. */
    ghost function Stranded(): set<nat>
      reads this, requests
    {
      LeftBehind(|requests.net.sent|, first, requests.claimed, Numbers(pending))
    }

    /** What is pending tiles the file from `start` to the next unrequested byte. */
    ghost predicate Pipelined(start: nat)
      reads this, requests
    {
      && Releasable() && Stranded() == {}
      && AllTold(requests.net, requests.claimed, first)
      && handle in requests.net.held && size <= |requests.net.held[handle]|
      && Tiles(pending, start, nextOffset) && nextOffset <= size
      && |pending| <= WINDOW
    }

    ghost predicate Valid()
      reads this, requests
    {
      && Pipelined(delivered + |leftover|)
      && delivered + |leftover| <= size
      && leftover == File()[delivered..delivered + |leftover|]
    }

    /** The next bytes of the file, for every size the caller asks for: as many as it wants, unless
        the file ends first. */
    method ReadBytes(n: nat) returns (r: Result<Bytes, ErrorCode>)
      requires Valid()
      modifies this, requests
      ensures Releasable() && Grew(old(requests.net), requests.net)
      ensures r.Ok? ==>
                && Valid() && File() == old(File())
                && delivered == Min(old(delivered) + n, size)
                && r.value == File()[old(delivered)..delivered]
      ensures r.Err? ==>
                && Troubled(requests.net, first)
                && (r.error == SourceChanged <==> SawNothing(requests.net, requests.claimed, first))
                && (r.error == SourceChanged
                    || Translates(requests.net, first, r.error, None, Some(FileNotReadable), None))
    {
      hide Met;
      hide Tiles, Outstanding, Consistent, Numbers, Grew, AllTold, SawNothing, Troubled;
      GrewIsReflexive(requests.net);
      var buffer: Bytes := [];
      ghost var file := File();
      while |buffer| < n && (leftover != [] || pending != [] || nextOffset < size)
        invariant Valid() && Grew(old(requests.net), requests.net) && File() == file
        invariant |buffer| <= n && delivered == old(delivered) + |buffer|
        invariant buffer == file[old(delivered)..delivered]
      {
        if leftover == [] {
          ghost var before := requests.net;
          var reply := NextReply(delivered);
          GrewIsTransitive(old(requests.net), before, requests.net);
          if reply.Err? {
            return Err(match reply.error
                       case Changed => SourceChanged
                       case Refused(problem) => Translate(problem, None, Some(FileNotReadable), None));
          }
          leftover := reply.value;
        }
        ghost var at := delivered;
        var part := TakeLeftover(n - |buffer|);
        assert file[old(delivered)..at] + file[at..delivered] == file[old(delivered)..delivered];
        buffer := buffer + part;
      }
      PipelineEnds(delivered + |leftover|);
      r := Ok(buffer);
    }

    /** Move at most `wanted` of the buffered bytes to the caller. */
    method TakeLeftover(wanted: nat) returns (part: Bytes)
      requires Valid() && 0 < wanted && leftover != []
      modifies this`leftover, this`delivered
      ensures Valid() && old(delivered) < delivered <= old(delivered) + wanted
      ensures part == File()[old(delivered)..delivered]
    {
      hide Tiles, Outstanding, Consistent, Numbers;
      var taken := Min(wanted, |leftover|);
      SliceAdvances(File(), delivered, delivered, leftover, taken);
      part := leftover[..taken];
      assert part == File()[delivered..delivered + taken] by {
        assert File()[delivered..delivered] + part == part;
      }
      leftover := leftover[taken..];
      delivered := delivered + taken;
    }

    lemma PipelineEnds(start: nat)
      requires Pipelined(start)
      ensures pending == [] ==> start == nextOffset
    {
    }

    /** Receive the first pending range, and re-request what its reply left out. */
    method TakeFirst(ghost start: nat) returns (r: Result<Bytes, Halt>)
      requires Pipelined(start) && pending != []
      modifies this`pending, requests
      ensures Releasable() && Grew(old(requests.net), requests.net)
      ensures var number := old(pending)[0].number;
              r == Err(Changed) <==>
                number in requests.claimed && number in requests.net.answers
                && ShowsNothing(requests.net.answers[number])
      ensures r == Err(Refused(Garbage)) ==> Stranded() == {old(pending)[0].number}
      ensures r.Err? && r != Err(Refused(Garbage)) && r != Err(Refused(Lost)) ==> Stranded() == {}
      ensures r.Err? ==>
                && Troubled(requests.net, first)
                && (r.error.Changed? <==> SawNothing(requests.net, requests.claimed, first))
                && (r.error.Refused? ==> Met(requests.net, first, r.error.problem))
      ensures r.Ok? ==>
                && r.value != [] && |r.value| <= old(pending)[0].length && start + |r.value| <= size
                && Pipelined(start + |r.value|)
                && r.value == File()[start..start + |r.value|] && File() == old(File())
    {
      hide Outstanding, Consistent, Numbers, Grew, LeftBehind, OnlyReads, Amiss, Troubled, ShowsNothing;
      hide AllTold, SawNothing, Met;
      var Range(number, offset, length) := pending[0];
      ghost var rest, before := pending[1..], requests.net;
      OutstandingAdvances(pending, requests.net.sent, requests.claimed, handle);
      TilesAscend(pending, start, nextOffset);
      var received := requests.Receive(number, CMD_DATA);
      GrewHolds(before, requests.net);
      BrokenIsTroubled(requests.net, first);
      WaitingIsNumbered(before, old(requests.replies), old(requests.ignored), old(requests.claimed));
      ToldGrows(before, old(requests.claimed), requests.net, first, number);
      ToldSoFar(requests.net, old(requests.claimed), first);
      pending := pending[1..];
      LeftBehindSteps(|before.sent|, first, old(requests.claimed), Numbers(old(pending)), Numbers(pending), number);
      if received.Err? && !received.error.Status? {
        BrokenIsMet(requests.net, first, received.error);
        return Err(Refused(received.error));
      }
      var carried := CheckedData(received, number, length);
      if carried.Err? {
        return Err(carried.error);
      }
      var data := carried.value;
      assert data == File()[start..start + |data|];
      if |data| < length {
        ghost var sent := requests.net;
        var tail := RequestTail(offset + |data|, length - |data|);
        GrewIsTransitive(before, sent, requests.net);
        GrewHolds(sent, requests.net);
        GrewAnswers(sent, requests.net, number);
        ToldSoFar(requests.net, requests.claimed, first);
        if tail.Err? {
          BrokenIsTroubled(requests.net, first);
          BrokenIsMet(requests.net, first, Lost);
          return Err(Refused(tail.error));
        }
      }
      r := Ok(data);
    }

    /** The data a READ's reply carries, if there is any and it is not more than was asked for. */
    method CheckedData(received: Result<Bytes, Problem>, number: nat, length: nat) returns (r: Result<Bytes, Halt>)
      requires requests.Valid() && first <= number < |requests.net.sent| && number in requests.net.answers
      requires requests.net.sent[number].Read? && requests.net.sent[number].handle == handle
      requires handle in requests.net.held && requests.net.sent[number].length == length
      requires received == Outcome(requests.net.answers[number], CMD_DATA)
      ensures r.Ok? ==>
                && r.value != [] && |r.value| <= length
                && Shows(requests.net.held[handle], requests.net.sent[number].offset, r.value)
      ensures r == Err(Changed) <==> ShowsNothing(requests.net.answers[number])
      ensures r.Err? ==> Troubled(requests.net, first)
      ensures r.Err? && r.error.Refused? ==>
                r.error.problem.Status? && Met(requests.net, first, r.error.problem)
    {
      hide Consistent, Shows, Outcome, Amiss, Troubled, ShowsNothing, Met;
      var carried := DataOf(received, number);
      if Amiss(requests.net.sent[number], requests.net.answers[number]) {
        TroubledBy(requests.net, first, number);
      }
      if carried.Err? {
        MetBy(requests.net, first, number, carried.error);
        return Err(Refused(carried.error));
      }
      if carried.value == [] {
        return Err(Changed);
      }
      if |carried.value| > length {
        MetBy(requests.net, first, number, Status(SFTP_BAD_MESSAGE));
        return Err(Refused(Status(SFTP_BAD_MESSAGE)));
      }
      r := Ok(carried.value);
    }

    /** The data a READ's reply carries: none at the end of the file. */
    method DataOf(received: Result<Bytes, Problem>, number: nat) returns (r: Result<Bytes, Problem>)
      requires requests.Valid() && number < |requests.net.sent| && number in requests.net.answers
      requires requests.net.sent[number].Read? && requests.net.sent[number].handle == handle
      requires handle in requests.net.held
      requires received == Outcome(requests.net.answers[number], CMD_DATA)
      ensures r.Ok? ==> Shows(requests.net.held[handle], requests.net.sent[number].offset, r.value)
      ensures r == Ok([]) <==> ShowsNothing(requests.net.answers[number])
      ensures r.Ok? ==> (Amiss(requests.net.sent[number], requests.net.answers[number]) <==>
                         r.value == [] || |r.value| > requests.net.sent[number].length)
      ensures r.Err? ==>
                && r.error.Status? && Amiss(requests.net.sent[number], requests.net.answers[number])
                && Reports(requests.net.sent[number], requests.net.answers[number], r.error)
      ensures r.Ok? && r.value != [] ==> Outcome(requests.net.answers[number], CMD_DATA).Ok?
    {
      hide Consistent, Shows, Outcome;
      if received.Err? {
        if received.error != Status(SFTP_EOF) {
          return Err(received.error);
        }
        NothingShows(requests.net.held[handle], requests.net.sent[number].offset);
        return Ok([]);
      }
      var field := ParseString(received.value);
      if field.Err? {
        return Err(field.error);
      }
      RepliesShow(number, field.value);
      r := Ok(field.value);
    }

    lemma NothingShows(file: Bytes, offset: nat)
      ensures Shows(file, offset, [])
    {
    }

    /** Request the rest of a short range, in front of everything pending. */
    method RequestTail(offset: nat, length: nat) returns (r: Result<(), Problem>)
      requires Releasable() && Stranded() == {} && 0 < length <= REQUEST_SIZE && |pending| < WINDOW
      requires AllTold(requests.net, requests.claimed, first)
      requires Tiles(pending, offset + length, nextOffset)
      modifies this`pending, requests
      ensures Releasable() && Grew(old(requests.net), requests.net) && requests.claimed == old(requests.claimed)
      ensures AllTold(requests.net, requests.claimed, first)
      ensures r.Err? ==> r.error == Lost && requests.net.lost
      ensures r.Ok? ==> Stranded() == {} && |pending| <= WINDOW && Tiles(pending, offset, nextOffset)
    {
      hide Outstanding, Consistent, Numbers, Grew, LeftBehind, OnlyReads, AllTold;
      OnlyReadsGrow(requests.net.sent, first, handle, Read(handle, offset, length));
      NotAmong(pending, requests.net.sent, requests.claimed, handle);
      ghost var before, rest := requests.net, pending;
      var tail := RequestRange(offset, length);
      if tail.Err? {
        return Err(tail.error);
      }
      OutstandingExtends(pending, tail.value, before.sent, requests.claimed, handle);
      pending := [tail.value] + pending;
      LeftBehindSteps(|before.sent|, first, requests.claimed, Numbers(pending), Numbers(rest), tail.value.number);
      assert pending[1..] == rest;
      r := Ok(());
    }

    /** What a READ reply carries are bytes of the opened file. */
    lemma RepliesShow(number: nat, data: Bytes)
      requires requests.Valid() && number < |requests.net.sent| && number in requests.net.answers
      requires requests.net.sent[number].Read? && requests.net.sent[number].handle == handle
      requires handle in requests.net.held && Carried(requests.net.answers[number], CMD_DATA) == Some(data)
      ensures Shows(requests.net.held[handle], requests.net.sent[number].offset, data)
    {
    }

    /** The next bytes of the file behind `start`: the window is filled, and its first range taken. */
    method NextReply(ghost start: nat) returns (r: Result<Bytes, Halt>)
      requires Pipelined(start) && (pending != [] || nextOffset < size)
      modifies this`nextOffset, this`pending, requests
      ensures Releasable() && Grew(old(requests.net), requests.net)
      ensures r.Ok? ==>
                && r.value != [] && start + |r.value| <= size && Pipelined(start + |r.value|)
                && r.value == File()[start..start + |r.value|] && File() == old(File())
      ensures r.Err? ==>
                && Troubled(requests.net, first)
                && (r.error.Changed? <==> SawNothing(requests.net, requests.claimed, first))
                && (r.error.Refused? ==> Met(requests.net, first, r.error.problem))
    {
      hide Met;
      hide Tiles, Outstanding, Consistent, Numbers, Grew, AllTold, SawNothing;
      TilesAscend(pending, start, nextOffset);
      PipelineEnds(start);
      var filled := Fill(start);
      GrewHolds(old(requests.net), requests.net);
      if filled.Err? {
        BrokenIsMet(requests.net, first, Lost);
        return Err(Refused(filled.error));
      }
      PipelineEnds(start);
      ghost var before := requests.net;
      r := TakeFirst(start);
      GrewHolds(before, requests.net);
      GrewIsTransitive(old(requests.net), before, requests.net);
    }

    /** Send a READ; the caller puts its range where it belongs. */
    method RequestRange(offset: nat, length: nat) returns (r: Result<Range, Problem>)
      requires Releasable() && AllTold(requests.net, requests.claimed, first)
      modifies requests
      ensures requests.Valid() && Grew(old(requests.net), requests.net) && requests.claimed == old(requests.claimed)
      ensures AllTold(requests.net, requests.claimed, first)
      ensures r.Ok? ==>
                && r.value == Range(|old(requests.net).sent|, offset, length) && r.value.number !in requests.claimed
                && requests.net.sent == old(requests.net).sent + [Read(handle, offset, length)]
      ensures old(requests.net).sent <= requests.net.sent <= old(requests.net).sent + [Read(handle, offset, length)]
      ensures r.Err? ==> r.error == Lost && requests.net.lost && Releasable()
    {
      hide Outstanding, Consistent, Numbers, AllTold;
      WaitingIsNumbered(requests.net, requests.replies, requests.ignored, requests.claimed);
      var number := requests.Send(Read(handle, offset, length));
      ToldGrows(old(requests.net), requests.claimed, requests.net, first, 0);
      if number.Err? {
        OutstandingIsStable(pending, old(requests.net).sent, requests.net.sent, requests.claimed, handle);
        return Err(number.error);
      }
      r := Ok(Range(number.value, offset, length));
    }

    /** A READ asks for as much as one request may, or for all that is left. */
    predicate IsWhole(request: Request) {
      request.Read? && request.offset < size && request.length == Min(REQUEST_SIZE, size - request.offset)
    }

    /** Fill the window from the end of what was requested. */
    method Fill(ghost start: nat) returns (r: Result<(), Problem>)
      requires Pipelined(start)
      modifies this`nextOffset, this`pending, requests
      ensures Releasable() && Grew(old(requests.net), requests.net)
      ensures r.Err? ==> r.error == Lost && requests.net.lost && !SawNothing(requests.net, requests.claimed, first)
      ensures r.Ok? ==> Pipelined(start) && (|pending| == WINDOW || nextOffset == size) && nextOffset >= old(nextOffset)
      ensures forall n :: |old(requests.net).sent| <= n < |requests.net.sent| ==> IsWhole(requests.net.sent[n])
    {
      hide Tiles, Outstanding, Consistent, Numbers, Grew, AllTold, SawNothing;
      GrewIsReflexive(requests.net);
      while |pending| < WINDOW && nextOffset < size
        invariant Pipelined(start) && Grew(old(requests.net), requests.net) && nextOffset >= old(nextOffset)
        invariant forall n :: |old(requests.net).sent| <= n < |requests.net.sent| ==> IsWhole(requests.net.sent[n])
        decreases size - nextOffset
      {
        ghost var before := requests.net;
        var length := Min(REQUEST_SIZE, size - nextOffset);
        var range := RequestRange(nextOffset, length);
        GrewIsTransitive(old(requests.net), before, requests.net);
        ToldSoFar(requests.net, requests.claimed, first);
        if range.Err? {
          return Err(range.error);
        }
        GrewHolds(before, requests.net);
        OutstandingExtends(pending, range.value, before.sent, requests.claimed, handle);
        TilesExtend(pending, start, nextOffset, range.value);
        pending := pending + [range.value];
        nextOffset := nextOffset + length;
      }
      r := Ok(());
    }

    /** Ignore what is in flight and close the handle: one CLOSE is sent, unless the session is lost.
        On a session that was neither lost nor garbled every request of this download has then been
        received or ignored; in general those left behind are those left behind before. */
    method Release()
      requires Releasable()
      modifies this`pending, requests
      ensures requests.Valid() && pending == [] && Grew(old(requests.net), requests.net)
      ensures old(requests.net).sent <= requests.net.sent <= old(requests.net).sent + [Close(handle)]
      ensures !requests.net.lost ==>
                && requests.net.sent == old(requests.net).sent + [Close(handle)]
                && Stranded() == old(Stranded())
      ensures !requests.net.lost && !requests.net.garbled ==>
                forall n :: first <= n < |requests.net.sent| ==> n in requests.claimed
    {
      hide Outstanding, Consistent, Grew, Numbers;
      while pending != []
        invariant Releasable() && requests.net == old(requests.net) && Stranded() == old(Stranded())
      {
        OutstandingAdvances(pending, requests.net.sent, requests.claimed, handle);
        LeftBehindSteps(|requests.net.sent|, first, requests.claimed, Numbers(pending), Numbers(pending[1..]),
                        pending[0].number);
        requests.Ignore(pending[0].number);
        pending := pending[1..];
      }
      NumbersOfNone();
      ghost var claimed, number := requests.claimed, |requests.net.sent|;
      requests.CloseQuietly(handle);
      LeftBehindSteps(number, first, claimed, {number}, {}, number);
      assert forall n :: first <= n < |requests.net.sent| && n !in requests.claimed ==> n in Stranded();
    }
  }

  lemma NumbersOfNone()
    ensures Numbers([]) == {}
  {
  }
}
