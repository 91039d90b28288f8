/** The request log: events appended to one file, and a bounded row of older files behind it. */
module RequestLogs {
  import opened Common

  type Line = line: Bytes | |line| > 0 witness [10]

  /** File 0 is the one written to; file k is the k-th backup. */
  type Files = map<nat, seq<Line>>

  function Size(lines: seq<Line>): nat {
    if lines == [] then 0 else Size(lines[..|lines| - 1]) + |lines[|lines| - 1]|
  }

  /** The backups are numbered from 1 without a gap. */
  predicate Contiguous(files: Files, backups: nat) {
    forall k :: k in files ==> k <= backups && (k > 1 ==> k - 1 in files)
  }

  /** Every file moves up by one, the last one out, and an empty one is begun. */
  function Rotated(files: Files, backups: nat): Files {
    map k | 0 <= k <= backups && Follows(files, k) :: if k == 0 then [] else files[k - 1]
  }

  predicate Follows(files: Files, k: nat) {
    k == 0 || k - 1 in files
  }

  predicate Overflows(files: Files, line: Line, limit: nat)
    requires 0 in files
  {
    Size(files[0]) > 0 && Size(files[0]) + |line| > limit
  }

  function Appended(files: Files, line: Line): Files
    requires 0 in files
  {
    files[0 := files[0] + [line]]
  }

  /** The files after one event. */
  function Written(files: Files, line: Line, limit: nat, backups: nat): Files
    requires 0 in files
  {
    Appended(if Overflows(files, line, limit) then Rotated(files, backups) else files, line)
  }

  /** The files after any events. */
  function Run(files: Files, lines: seq<Line>, limit: nat, backups: nat): (r: Files)
    requires 0 in files
    ensures 0 in r
  {
    if lines == [] then files
    else Written(Run(files, lines[..|lines| - 1], limit, backups), lines[|lines| - 1], limit, backups)
  }

  /** Halfway through a rotation: the files above `number` have moved. */
  ghost predicate Shifting(files: Files, before: Files, number: nat, backups: nat) {
    forall k: nat :: ShiftedAt(files, before, k, number, backups)
  }

  predicate ShiftedAt(files: Files, before: Files, k: nat, number: nat, backups: nat) {
    && (k in files <==> if k < number then k in before else number < k <= backups && k - 1 in before)
    && (k in files ==> files[k] == if k < number then before[k] else before[k - 1])
  }

  lemma ShiftingStarts(files: Files, backups: nat)
    requires Contiguous(files, backups)
    ensures backups == 0 ==> files - {0} == map[]
    ensures forall k :: k in files ==> k <= backups
  {
  }

  /** The files once file `from` has moved up. */
  function Moved(files: Files, from: nat): Files {
    if from in files then (files - {from})[from + 1 := files[from]] else files
  }

  lemma ShiftingStep(files: Files, before: Files, from: nat, backups: nat)
    requires from < backups && 0 in before && Contiguous(before, backups)
    requires if from + 1 == backups then files == before else Shifting(files, before, from + 1, backups)
    ensures from in files <==> from in before
    ensures Shifting(Moved(files, from), before, from, backups)
  {
    forall k: nat
      ensures ShiftedAt(Moved(files, from), before, k, from, backups)
    {
      if from + 1 < backups {
        assert ShiftedAt(files, before, k, from + 1, backups) && ShiftedAt(files, before, from, from + 1, backups);
      }
    }
    if from + 1 < backups {
      assert ShiftedAt(files, before, from, from + 1, backups);
    }
  }

  lemma ShiftingEnds(files: Files, before: Files, backups: nat)
    requires 0 in before && Contiguous(before, backups)
    requires if backups == 0 then files == map[] else Shifting(files, before, 0, backups)
    ensures Contiguous(files, backups) && 0 !in files && files[0 := []] == Rotated(before, backups)
  {
    var now: Files := files[0 := []];
    if backups > 0 {
      assert ShiftedAt(files, before, 0, 0, backups);
      forall k | k in files
        ensures k <= backups && (k > 1 ==> k - 1 in files)
      {
        assert ShiftedAt(files, before, k, 0, backups);
        if k > 1 {
          var from: nat := k - 1;
          assert from in before && ShiftedAt(files, before, from, 0, backups);
        }
      }
      forall k: nat
        ensures k in now <==> k in Rotated(before, backups)
        ensures k in now ==> now[k] == Rotated(before, backups)[k]
      {
        assert ShiftedAt(files, before, k, 0, backups);
      }
    }
  }

  class RequestLog {
    const limit: nat
    const backups: nat
    var files: Files
    var size: nat
    var isOpen: bool

    constructor (files: Files, limit: nat, backups: nat)
      requires limit > 0 && Contiguous(files, backups)
      ensures Valid() && this.files == files && this.limit == limit && this.backups == backups && !isOpen
    {
      this.files, this.limit, this.backups := files, limit, backups;
      size, isOpen := 0, false;
    }

    ghost predicate Valid()
      reads this
    {
      && limit > 0 && Contiguous(files, backups)
      && (isOpen || size > 0 ==> 0 in files && size == Size(files[0]))
    }

    /** Open the current file, or create it. */
    method Open()
      requires Valid()
      modifies this
      ensures Valid() && isOpen
      ensures files == if 0 in old(files) then old(files) else old(files)[0 := []]
    {
      if 0 !in files {
        files := files[0 := []];
      }
      size := Size(files[0]);
      isOpen := true;
    }

    method Close()
      requires Valid()
      modifies this`isOpen
      ensures Valid() && !isOpen
    {
      isOpen := false;
    }

    /** Append one event. An open log takes every event. A log that was closed refuses it and stays as it
        was, unless the event would overflow the current file: rotating opens the log again. */
    method Write(line: Line) returns (ok: bool)
      requires Valid()
      modifies this
      ensures Valid()
      ensures ok <==> old(isOpen) || (old(size) > 0 && old(size) + |line| > limit)
      ensures ok ==> isOpen && 0 in old(files) && files == Written(old(files), line, limit, backups)
      ensures !ok ==> files == old(files) && !isOpen
    {
      if size > 0 && size + |line| > limit {
        Rotate();
      }
      if !isOpen {
        return false;
      }
      assert (files[0] + [line])[..|files[0]|] == files[0];
      files := Appended(files, line);
      size := size + |line|;
      ok := true;
    }

    /** Shift the backups, the last one first, and begin an empty file. */
    method Rotate()
      requires Valid() && 0 in files
      modifies this
      ensures Valid() && isOpen && files == Rotated(old(files), backups)
    {
      hide Shifting, Rotated, Size, Contiguous;
      Close();
      ShiftingStarts(files, backups);
      if backups == 0 {
        files := files - {0};
      }
      ghost var before := old(files);
      var number := backups;
      while number > 0
        invariant 0 <= number <= backups
        invariant if number == backups then files == (if backups == 0 then map[] else before)
                  else Shifting(files, before, number, backups)
        invariant !isOpen
      {
        var from: nat := number - 1;
        ShiftingStep(files, before, from, backups);
        if from in files {
          files := (files - {from})[number := files[from]];
        }
        number := number - 1;
      }
      ShiftingEnds(files, before, backups);
      size := 0;
      Open();
    }
  }

  // ---------------------------------------------------------------- what is kept

  /** The events in the files up to number k, the oldest first. */
  function Kept(files: Files, k: nat): seq<Line> {
    (if k in files then files[k] else []) + (if k == 0 then [] else Kept(files, k - 1))
  }

  /** What a rotation removes: the oldest file, if there are as many as there may be. */
  function Oldest(files: Files, backups: nat): seq<Line> {
    if backups in files then files[backups] else []
  }

  lemma {:induction false} ShiftedKeeps(files: Files, backups: nat, k: nat)
    requires k < backups
    ensures Kept(Rotated(files, backups), k + 1) == Kept(files, k)
  {
    var now := Rotated(files, backups);
    assert k + 1 in now <==> k in files;
    if k == 0 {
      assert Kept(now, 0) == [];
    } else {
      ShiftedKeeps(files, backups, k - 1);
    }
  }

  /** A rotation drops the oldest file and nothing else. */
  lemma RotationDropsTheOldest(files: Files, backups: nat)
    ensures Kept(files, backups) == Oldest(files, backups) + Kept(Rotated(files, backups), backups)
  {
    if backups > 0 {
      ShiftedKeeps(files, backups, backups - 1);
    }
  }

  lemma {:induction false} AppendingKeeps(files: Files, line: Line, k: nat)
    requires 0 in files
    ensures Kept(Appended(files, line), k) == Kept(files, k) + [line]
  {
    if k > 0 {
      AppendingKeeps(files, line, k - 1);
    }
  }

  lemma StaysContiguous(files: Files, line: Line, backups: nat)
    requires 0 in files && Contiguous(files, backups)
    ensures Contiguous(Rotated(files, backups), backups) && 0 in Rotated(files, backups)
    ensures Contiguous(Appended(files, line), backups)
  {
  }

  /** After any events the files hold the most recent ones, in order, and nothing else. */
  lemma {:induction false} RunKeepsASuffix(files: Files, lines: seq<Line>, limit: nat, backups: nat)
    requires 0 in files && Contiguous(files, backups)
    ensures Contiguous(Run(files, lines, limit, backups), backups)
    ensures exists dropped ::
              Kept(files, backups) + lines == dropped + Kept(Run(files, lines, limit, backups), backups)
  {
    hide Kept, Rotated, Appended, Overflows, Oldest;
    if lines == [] {
      assert Kept(files, backups) + lines == [] + Kept(files, backups);
    } else {
      var before, line := lines[..|lines| - 1], lines[|lines| - 1];
      RunKeepsASuffix(files, before, limit, backups);
      var was := Run(files, before, limit, backups);
      var dropped :| Kept(files, backups) + before == dropped + Kept(was, backups);
      var rotated := if Overflows(was, line, limit) then Rotated(was, backups) else was;
      var more := if Overflows(was, line, limit) then dropped + Oldest(was, backups) else dropped;
      RotationDropsTheOldest(was, backups);
      StaysContiguous(was, line, backups);
      StaysContiguous(rotated, line, backups);
      AppendingKeeps(rotated, line, backups);
      assert lines == before + [line];
      assert Kept(files, backups) + lines == (Kept(files, backups) + before) + [line];
      assert Kept(files, backups) + lines == more + Kept(Appended(rotated, line), backups);
    }
  }

  predicate Within(lines: seq<Line>, limit: nat) {
    Size(lines) <= limit || |lines| == 1
  }

  /** The first `begun` files are within the limit. */
  ghost predicate AllWithin(files: Files, begun: nat, limit: nat) {
    forall k :: k in files && k < begun ==> Within(files[k], limit)
  }

  /** How many files these events began. */
  function Begun(files: Files, lines: seq<Line>, limit: nat, backups: nat): nat
    requires 0 in files
  {
    if lines == [] then 0
    else
      var before := lines[..|lines| - 1];
      Begun(files, before, limit, backups)
        + if Overflows(Run(files, before, limit, backups), lines[|lines| - 1], limit) then 1 else 0
  }

  lemma SizeOfOne(lines: seq<Line>, line: Line)
    ensures Size(lines + [line]) == Size(lines) + |line|
    ensures Size(lines) == 0 <==> lines == []
  {
    assert (lines + [line])[..|lines|] == lines;
  }

  /** Each file begun empty, by these events or before, stays within the limit, or holds a single event. */
  lemma {:induction false} FilesStayWithin(files: Files, lines: seq<Line>, limit: nat, backups: nat)
    requires 0 in files && limit > 0
    ensures AllWithin(Run(files, lines, limit, backups),
                      Begun(files, lines, limit, backups) + (if files[0] == [] then 1 else 0), limit)
  {
    if lines != [] {
      var before, line := lines[..|lines| - 1], lines[|lines| - 1];
      FilesStayWithin(files, before, limit, backups);
      var was := Run(files, before, limit, backups);
      OneMoreStaysWithin(
        was, line, limit, backups, Begun(files, before, limit, backups) + if files[0] == [] then 1 else 0);
    }
  }

  lemma OneMoreStaysWithin(files: Files, line: Line, limit: nat, backups: nat, begun: nat)
    requires 0 in files && limit > 0
    requires AllWithin(files, begun, limit)
    ensures AllWithin(
              Written(files, line, limit, backups), begun + if Overflows(files, line, limit) then 1 else 0, limit)
  {
    hide Size, Within;
    var end := Written(files, line, limit, backups);
    assert Within([line], limit) by { SingleIsWithin(line, limit); }
    if Overflows(files, line, limit) {
      forall k | k in end && k < begun + 1
        ensures Within(end[k], limit)
      {
        if k == 0 {
          assert end[0] == [] + [line] == [line];
        } else {
          var from: nat := k - 1;
          assert from in files && end[k] == files[from];
        }
      }
    } else {
      AppendedIsWithin(files[0], line, limit);
    }
  }

  lemma SingleIsWithin(line: Line, limit: nat)
    ensures Within([line], limit)
  {
  }

  lemma AppendedIsWithin(lines: seq<Line>, line: Line, limit: nat)
    requires Size(lines) == 0 || Size(lines) + |line| <= limit
    ensures Within(lines + [line], limit)
  {
    SizeOfOne(lines, line);
  }

  // ---------------------------------------------------------------- how long events are kept

  /** As long as everything fits in the current file, it all stays there. */
  lemma {:induction false} WhatFitsStays(files: Files, lines: seq<Line>, limit: nat, backups: nat)
    requires 0 in files && Size(files[0] + lines) <= limit
    ensures Run(files, lines, limit, backups) == files[0 := files[0] + lines]
  {
    if lines == [] {
      assert files[0] + lines == files[0];
    } else {
      var before, line := lines[..|lines| - 1], lines[|lines| - 1];
      assert files[0] + lines == files[0] + before + [line];
      SizeOfOne(files[0] + before, line);
      WhatFitsStays(files, before, limit, backups);
    }
  }

  /** The older of two neighbouring files had no room for the first event of the newer one. */
  predicate IsFull(older: seq<Line>, newer: seq<Line>, limit: nat) {
    older != [] && newer != [] && Size(older) + |newer[0]| > limit
  }

  /** Behind each of the `begun` newest files is one that was full. */
  ghost predicate AllFull(files: Files, begun: nat, limit: nat) {
    && (begun > 0 ==> 0 in files && files[0] != [])
    && forall k: nat :: k < begun && k in files && k + 1 in files ==> IsFull(files[k + 1], files[k], limit)
  }

  /** No file is begun while the event would still fit. */
  lemma {:induction false} NoFileIsBegunEarly(files: Files, lines: seq<Line>, limit: nat, backups: nat)
    requires 0 in files
    ensures AllFull(Run(files, lines, limit, backups), Begun(files, lines, limit, backups), limit)
  {
    hide Written, AllFull, Overflows;
    if lines == [] {
      assert AllFull(files, 0, limit) by { NoneIsFull(files, limit); }
    } else {
      var before, line := lines[..|lines| - 1], lines[|lines| - 1];
      NoFileIsBegunEarly(files, before, limit, backups);
      OneMoreIsFull(Run(files, before, limit, backups), line, limit, backups, Begun(files, before, limit, backups));
    }
  }

  lemma NoneIsFull(files: Files, limit: nat)
    ensures AllFull(files, 0, limit)
  {
  }

  lemma OneMoreIsFull(files: Files, line: Line, limit: nat, backups: nat, begun: nat)
    requires 0 in files && AllFull(files, begun, limit)
    ensures AllFull(Written(files, line, limit, backups), begun + if Overflows(files, line, limit) then 1 else 0, limit)
  {
    hide Size;
    var end := Written(files, line, limit, backups);
    SizeOfOne([], line);
    SizeOfOne(files[0], line);
    if Overflows(files, line, limit) {
      forall k: nat | k < begun + 1 && k in end && k + 1 in end
        ensures IsFull(end[k + 1], end[k], limit)
      {
        assert k in files && end[k + 1] == files[k];
        if k == 0 {
          assert end[0] == [] + [line] == [line];
        } else {
          var from: nat := k - 1;
          assert from in files && end[k] == files[from] && from + 1 in files;
        }
      }
    }
  }

  /** Every backup exists. */
  predicate AllThere(files: Files, backups: nat) {
    forall k: nat :: k <= backups ==> k in files
  }

  /** A log that begins empty drops nothing before all its files are there, and at any time every file has
      grown as far as the next event let it before another was begun. */
  lemma NothingIsDroppedEarly(lines: seq<Line>, limit: nat, backups: nat)
    ensures var end := Run(map[0 := []], lines, limit, backups);
            && (Kept(end, backups) == lines || AllThere(end, backups))
            && forall k: nat :: k in end && k + 1 in end ==> IsFull(end[k + 1], end[k], limit)
  {
    hide Kept, Run, AllThere, IsFull;
    NoFileIsBegunEarly(map[0 := []], lines, limit, backups);
    AllAreKept(lines, limit, backups);
  }

  lemma {:induction false} AllAreKept(lines: seq<Line>, limit: nat, backups: nat)
    ensures var end := Run(map[0 := []], lines, limit, backups);
            && (Kept(end, backups) == lines || AllThere(end, backups))
            && forall k :: k in end ==> k <= Begun(map[0 := []], lines, limit, backups)
  {
    hide Kept, Rotated, Appended, Overflows;
    if lines == [] {
      KeptFromEmpty(backups);
    } else {
      var before, line := lines[..|lines| - 1], lines[|lines| - 1];
      AllAreKept(before, limit, backups);
      RunKeepsASuffix(map[0 := []], before, limit, backups);
      OneMoreIsKept(Run(map[0 := []], before, limit, backups), before, line, limit, backups);
      OneMoreIsBegun(Run(map[0 := []], before, limit, backups), line, limit, backups,
                     Begun(map[0 := []], before, limit, backups));
      assert lines == before + [line];
    }
  }

  lemma {:induction false} KeptFromEmpty(k: nat)
    ensures Kept(map[0 := []], k) == []
  {
    if k > 0 {
      KeptFromEmpty(k - 1);
    }
  }

  lemma OneMoreIsBegun(files: Files, line: Line, limit: nat, backups: nat, begun: nat)
    requires 0 in files && forall k :: k in files ==> k <= begun
    ensures forall k :: k in Written(files, line, limit, backups) ==>
                          k <= begun + if Overflows(files, line, limit) then 1 else 0
  {
    hide Overflows;
    var rotated := Rotated(files, backups);
    forall k | k in rotated
      ensures k <= begun + 1
    {
      if k > 0 {
        var from: nat := k - 1;
        assert from in files;
      }
    }
  }

  lemma OneMoreIsKept(files: Files, before: seq<Line>, line: Line, limit: nat, backups: nat)
    requires 0 in files && Contiguous(files, backups)
    requires Kept(files, backups) == before || AllThere(files, backups)
    ensures var end := Written(files, line, limit, backups);
            Kept(end, backups) == before + [line] || AllThere(end, backups)
  {
    hide Kept, Overflows;
    var rotated := if Overflows(files, line, limit) then Rotated(files, backups) else files;
    AppendingKeeps(rotated, line, backups);
    RotationDropsTheOldest(files, backups);
    if backups in files {
      AllThereBelow(files, backups, backups);
    } else {
      assert Oldest(files, backups) == [];
    }
  }

  /** Backups have no gap, so with the last one all are there. */
  lemma {:induction false} AllThereBelow(files: Files, backups: nat, k: nat)
    requires 0 in files && Contiguous(files, backups) && k in files
    ensures AllThere(files, k)
  {
    if k > 1 {
      AllThereBelow(files, backups, k - 1);
    }
  }

  // ---------------------------------------------------------------- how much is kept

  /** The bytes in the files up to number k. */
  function Total(files: Files, k: nat): nat {
    (if k in files then Size(files[k]) else 0) + if k == 0 then 0 else Total(files, k - 1)
  }

  /** Every file is within the limit. */
  predicate AllFit(files: Files, limit: nat) {
    forall k :: k in files ==> Size(files[k]) <= limit
  }

  lemma WritingFits(files: Files, line: Line, limit: nat, backups: nat)
    requires 0 in files && AllFit(files, limit) && |line| <= limit
    ensures AllFit(Written(files, line, limit, backups), limit)
  {
    hide Size;
    var rotated := if Overflows(files, line, limit) then Rotated(files, backups) else files;
    SizeOfOne(rotated[0], line);
    SizeOfOne([], line);
  }

  lemma {:induction false} RunFits(files: Files, lines: seq<Line>, limit: nat, backups: nat)
    requires 0 in files && AllFit(files, limit) && forall i :: 0 <= i < |lines| ==> |lines[i]| <= limit
    ensures AllFit(Run(files, lines, limit, backups), limit)
  {
    hide AllFit, Written;
    if lines != [] {
      RunFits(files, lines[..|lines| - 1], limit, backups);
      WritingFits(Run(files, lines[..|lines| - 1], limit, backups), lines[|lines| - 1], limit, backups);
    }
  }

  lemma {:induction false} TotalFits(files: Files, limit: nat, k: nat)
    requires AllFit(files, limit)
    ensures Total(files, k) <= (k + 1) * limit
  {
    hide Size;
    if k > 0 {
      TotalFits(files, limit, k - 1);
    }
  }

  /** A log that begins empty never takes more than the limit for each of its files, whatever is written
      to it, if no single event exceeds the limit. */
  lemma TotalIsBounded(lines: seq<Line>, limit: nat, backups: nat)
    requires forall i :: 0 <= i < |lines| ==> |lines[i]| <= limit
    ensures var end := Run(map[0 := []], lines, limit, backups);
            && Total(end, backups) <= (backups + 1) * limit
            && forall k :: k in end ==> k <= backups
  {
    hide Run;
    RunFits(map[0 := []], lines, limit, backups);
    TotalFits(Run(map[0 := []], lines, limit, backups), limit, backups);
    RunKeepsASuffix(map[0 := []], lines, limit, backups);
  }
}
