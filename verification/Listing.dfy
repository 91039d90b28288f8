/** Bounded listings: what may be scanned and returned, and the remote entries they pull on demand. */
module Listings {
  import opened Common
  import opened Filenames
  import opened Wire
  import opened Session
  import opened RemoteWrite

  const MAX_LIST_RESULTS := 1_000
  const MAX_LIST_SCAN := 10_000

  datatype Listing = Listing(files: seq<Bytes>, truncated: bool)

  /** A raw entry: its name, or no name if the API cannot address it, and whether it is a file. */
  datatype Scanned = Scanned(name: Bytes, regular: bool)

  predicate Listable(entry: Scanned) {
    entry.regular && IsValid(entry.name)
  }

  /** The names a listing may return, in the order of scanning. */
  function Names(entries: seq<Scanned>): seq<Bytes> {
    if entries == [] then []
    else
      var last := entries[|entries| - 1];
      Names(entries[..|entries| - 1]) + if Listable(last) then [last.name] else []
  }

  /** Lexicographic order of bytes, which is the order of the text they encode. */
  predicate AtMost(a: Bytes, b: Bytes) {
    if a == [] then true
    else if b == [] then false
    else if a[0] != b[0] then a[0] < b[0]
    else AtMost(a[1..], b[1..])
  }

  function Insert(name: Bytes, names: seq<Bytes>): seq<Bytes> {
    if names == [] || AtMost(name, names[0]) then [name] + names
    else [names[0]] + Insert(name, names[1..])
  }

  function Sorted(names: seq<Bytes>): seq<Bytes> {
    if names == [] then [] else Insert(names[0], Sorted(names[1..]))
  }

  ghost predicate Ordered(names: seq<Bytes>) {
    forall i, j :: 0 <= i < j < |names| ==> AtMost(names[i], names[j])
  }

  /** One name is a prefix of the other, or smaller at the first byte where they differ. */
  predicate Precedes(a: Bytes, b: Bytes) {
    a <= b || exists k :: 0 <= k < |a| && k < |b| && a[..k] == b[..k] && a[k] < b[k]
  }

  lemma {:induction false} AtMostIsLexicographic(a: Bytes, b: Bytes)
    ensures AtMost(a, b) <==> Precedes(a, b)
  {
    hide Precedes;
    if a != [] && b != [] && a[0] == b[0] {
      AtMostIsLexicographic(a[1..], b[1..]);
      SameFirst(a, b);
    } else {
      DifferentFirst(a, b);
    }
  }

  lemma DifferentFirst(a: Bytes, b: Bytes)
    requires a == [] || b == [] || a[0] != b[0]
    ensures Precedes(a, b) <==> a == [] || (b != [] && a[0] < b[0])
  {
    if a != [] && b != [] {
      assert a[..0] == b[..0];
      forall k | 0 < k < |a| && k < |b|
        ensures a[..k] != b[..k]
      {
        assert a[..k][0] != b[..k][0];
      }
    }
  }

  lemma SamePrefix(a: Bytes, b: Bytes, k: nat)
    requires a != [] && b != [] && a[0] == b[0] && k < |a| && k < |b|
    ensures a[..k + 1] == b[..k + 1] <==> a[1..][..k] == b[1..][..k]
  {
    assert a[..k + 1] == [a[0]] + a[1..][..k] && b[..k + 1] == [b[0]] + b[1..][..k];
  }

  lemma SameFirst(a: Bytes, b: Bytes)
    requires a != [] && b != [] && a[0] == b[0]
    ensures Precedes(a, b) <==> Precedes(a[1..], b[1..])
  {
    var c, d := a[1..], b[1..];
    assert a <= b <==> c <= d by {
      assert a == [a[0]] + c && b == [b[0]] + d;
    }
    if exists k :: 0 <= k < |a| && k < |b| && a[..k] == b[..k] && a[k] < b[k] {
      var k :| 0 <= k < |a| && k < |b| && a[..k] == b[..k] && a[k] < b[k];
      SamePrefix(a, b, k - 1);
      assert c[..k - 1] == d[..k - 1] && c[k - 1] < d[k - 1];
    }
    if exists k :: 0 <= k < |c| && k < |d| && c[..k] == d[..k] && c[k] < d[k] {
      var k :| 0 <= k < |c| && k < |d| && c[..k] == d[..k] && c[k] < d[k];
      SamePrefix(a, b, k);
      assert a[..k + 1] == b[..k + 1] && a[k + 1] < b[k + 1];
    }
  }

  lemma {:induction false} AtMostIsTotal(a: Bytes, b: Bytes)
    ensures AtMost(a, b) || AtMost(b, a)
  {
    if a != [] && b != [] && a[0] == b[0] {
      AtMostIsTotal(a[1..], b[1..]);
    }
  }

  lemma {:induction false} AtMostIsTransitive(a: Bytes, b: Bytes, c: Bytes)
    requires AtMost(a, b) && AtMost(b, c)
    ensures AtMost(a, c)
  {
    if a != [] && b != [] && c != [] && a[0] == b[0] == c[0] {
      AtMostIsTransitive(a[1..], b[1..], c[1..]);
    }
  }

  lemma {:induction false} InsertSorts(name: Bytes, names: seq<Bytes>)
    requires Ordered(names)
    ensures Ordered(Insert(name, names))
    ensures multiset(Insert(name, names)) == multiset(names) + multiset{name}
  {
    hide AtMost;
    if names == [] {
    } else if AtMost(name, names[0]) {
      forall j | 0 <= j < |names|
        ensures AtMost(name, names[j])
      {
        if j > 0 { AtMostIsTransitive(name, names[0], names[j]); }
      }
    } else {
      InsertSorts(name, names[1..]);
      AtMostIsTotal(name, names[0]);
      var rest := Insert(name, names[1..]);
      assert names == [names[0]] + names[1..];
      forall j | 0 <= j < |rest|
        ensures AtMost(names[0], rest[j])
      {
        assert rest[j] in multiset(rest);
        if rest[j] != name {
          assert rest[j] in multiset(names[1..]);
          assert rest[j] in names[1..];
        }
      }
    }
  }

  /** A listing returns its names sorted, and neither loses nor repeats any. */
  lemma {:induction false} SortedSorts(names: seq<Bytes>)
    ensures Ordered(Sorted(names)) && multiset(Sorted(names)) == multiset(names)
  {
    if names != [] {
      SortedSorts(names[1..]);
      InsertSorts(names[0], Sorted(names[1..]));
      assert names == [names[0]] + names[1..];
    }
  }

  /** The listing of a directory with these entries. */
  function ListingOf(entries: seq<Scanned>): Listing {
    var scanned := entries[..Min(|entries|, MAX_LIST_SCAN)];
    var names := Names(scanned);
    Listing(
      Sorted(names[..Min(|names|, MAX_LIST_RESULTS)]),
      |entries| > MAX_LIST_SCAN || |names| > MAX_LIST_RESULTS)
  }

  /** The names of several scans are those of each, in order; a scan of one entry has its name, if it is a
      regular file whose name is valid, and no other. */
  lemma {:induction false} NamesOfParts(a: seq<Scanned>, b: seq<Scanned>, entry: Scanned)
    ensures Names(a + b) == Names(a) + Names(b)
    ensures Names([entry]) == if entry.regular && IsValid(entry.name) then [entry.name] else []
  {
    assert [entry][..0] == [];
    if b == [] {
      assert a + b == a;
    } else {
      NamesOfParts(a, b[..|b| - 1], entry);
      assert (a + b)[..|a + b| - 1] == a + b[..|b| - 1];
    }
  }

  predicate AreThose(files: seq<Bytes>, names: seq<Bytes>) {
    multiset(files) == multiset(names)
  }

  /** A listing that is not truncated is exactly the sorted valid regular names, and it is truncated
      exactly when a cap is exceeded. */
  lemma UntruncatedIsComplete(entries: seq<Scanned>)
    ensures var listing := ListingOf(entries);
            && |listing.files| <= MAX_LIST_RESULTS && Ordered(listing.files)
            && (!listing.truncated <==>
                  |entries| <= MAX_LIST_SCAN && |Names(entries)| <= MAX_LIST_RESULTS)
            && (!listing.truncated ==> multiset(listing.files) == multiset(Names(entries)))
            && (|entries| <= MAX_LIST_SCAN ==> |listing.files| == Min(|Names(entries)|, MAX_LIST_RESULTS))
            && exists names :: names <= Names(entries) && AreThose(listing.files, names)
  {
    hide Names, Sorted, Ordered;
    var scanned := entries[..Min(|entries|, MAX_LIST_SCAN)];
    var names := Names(scanned);
    SortedSorts(names[..Min(|names|, MAX_LIST_RESULTS)]);
    SortedLength(names[..Min(|names|, MAX_LIST_RESULTS)]);
    NamesGrow(scanned, entries[|scanned|..]);
    assert scanned + entries[|scanned|..] == entries;
    assert names[..Min(|names|, MAX_LIST_RESULTS)] <= Names(entries);
    assert AreThose(ListingOf(entries).files, names[..Min(|names|, MAX_LIST_RESULTS)]);
    if |entries| <= MAX_LIST_SCAN {
      assert scanned == entries;
      if |names| <= MAX_LIST_RESULTS {
        assert names[..|names|] == names;
      }
    }
  }

  lemma SortedLength(names: seq<Bytes>)
    ensures |Sorted(names)| == |names|
  {
    SortedSorts(names);
    assert |Sorted(names)| == |multiset(Sorted(names))|;
  }

  lemma {:induction false} NamesGrow(entries: seq<Scanned>, more: seq<Scanned>)
    ensures Names(entries) <= Names(entries + more)
  {
    if more == [] {
      assert entries + more == entries;
    } else {
      var all := entries + more;
      NamesGrow(entries, more[..|more| - 1]);
      assert all[..|all| - 1] == entries + more[..|more| - 1];
    }
  }

  // ---------------------------------------------------------------- remote entries on demand

  /** The reply to an LSTAT tells whether the name is a file: by attributes that parse, or by a status
      that says that the name is gone or hidden, and then it is none. */
  predicate Tells(reply: Reply) {
    match Outcome(reply, CMD_ATTRS)
    case Err(problem) => problem in {Status(SFTP_NO_SUCH_FILE), Status(SFTP_PERMISSION_DENIED)}
    case Ok(payload) => AttributesOf(payload).Field?
  }

  /** The reply to a READDIR carries a page or says that the directory ends. */
  predicate Pages(reply: Reply, utf8: Bytes -> bool) {
    match Outcome(reply, CMD_NAME)
    case Err(problem) => problem == Status(SFTP_EOF)
    case Ok(payload) => NamesOf(payload, utf8).Some?
  }

  predicate Misleads(request: Request, reply: Reply, utf8: Bytes -> bool) {
    || (request.Lstat? && !Tells(reply))
    || (request.ReadDirectory? && !Pages(reply, utf8))
  }

  /** The listing failed: the session was lost or garbled, or the reply to one of its requests was of no use. */
  ghost predicate Obstructed(net: Network, first: nat, utf8: Bytes -> bool) {
    || net.lost || net.garbled
    || exists n :: first <= n < |net.sent| && n in net.answers && Misleads(net.sent[n], net.answers[n], utf8)
  }

  lemma ObstructedBy(net: Network, first: nat, utf8: Bytes -> bool, n: nat)
    requires first <= n < |net.sent| && n in net.answers && Misleads(net.sent[n], net.answers[n], utf8)
    ensures Obstructed(net, first, utf8)
  {
    hide Misleads;
  }

  lemma BrokenObstructs(net: Network, first: nat, utf8: Bytes -> bool)
    ensures net.lost || net.garbled ==> Obstructed(net, first, utf8)
  {
  }

  function RegularBy(reply: Reply): bool {
    match Outcome(reply, CMD_ATTRS)
    case Err(_) => false
    case Ok(payload) =>
      match AttributesOf(payload)
      case Short => false
      case Field(attributes, _) => attributes.mode.Some? && IsRegular(attributes.mode.value)
  }

  /** An entry is passed on under its own name, as the file its mode or its own LSTAT's reply says. */
  predicate Describes(entry: Entry, scanned: Scanned, lookup: Option<nat>, net: Network, join: Bytes -> Path) {
    match entry.name
    case None => scanned == Scanned([], false)
    case Some(name) =>
      && scanned.name == name
      && match entry.attributes.mode
         case Some(mode) => scanned.regular == IsRegular(mode)
         case None =>
           && lookup.Some? && lookup.value < |net.sent| && net.sent[lookup.value] == Lstat(join(name))
           && lookup.value in net.answers && Tells(net.answers[lookup.value])
           && scanned.regular == RegularBy(net.answers[lookup.value])
  }

  predicate NeedsLookup(entry: Entry) {
    entry.name.Some? && entry.attributes.mode.None?
  }

  /** Every lookup in flight is an unclaimed LSTAT of its own entry. */
  ghost predicate InFlight(
    batch: seq<Entry>, lookups: seq<Option<nat>>, sent: seq<Request>, claimed: set<nat>, join: Bytes -> Path)
  {
    && |batch| == |lookups| <= WINDOW
    && (forall i :: 0 <= i < |batch| ==> (lookups[i].Some? <==> NeedsLookup(batch[i])))
    && (forall i :: 0 <= i < |lookups| && lookups[i].Some? ==>
          && lookups[i].value < |sent| && lookups[i].value !in claimed
          && sent[lookups[i].value] == Lstat(join(batch[i].name.value)))
    && (forall i, j :: 0 <= i < j < |lookups| && lookups[i].Some? && lookups[j].Some? ==>
          lookups[i].value != lookups[j].value)
  }

  ghost predicate From(first: nat, lookups: seq<Option<nat>>) {
    forall i :: 0 <= i < |lookups| && lookups[i].Some? ==> first <= lookups[i].value
  }

  ghost function Numbers(lookups: seq<Option<nat>>): set<nat> {
    set lookup | lookup in lookups && lookup.Some? :: lookup.value
  }

  lemma InFlightAdvances(
    batch: seq<Entry>, lookups: seq<Option<nat>>, sent: seq<Request>, claimed: set<nat>, join: Bytes -> Path)
    requires batch != [] && InFlight(batch, lookups, sent, claimed, join)
    ensures lookups[0].Some? <==> NeedsLookup(batch[0])
    ensures lookups[0].Some? ==>
              && lookups[0].value < |sent| && lookups[0].value !in claimed
              && sent[lookups[0].value] == Lstat(join(batch[0].name.value))
    ensures lookups[0].Some? ==> InFlight(batch[1..], lookups[1..], sent, claimed + {lookups[0].value}, join)
    ensures InFlight(batch[1..], lookups[1..], sent, claimed, join)
    ensures lookups[0].None? ==> Numbers(lookups) == Numbers(lookups[1..])
    ensures lookups[0].Some? ==>
              && Numbers(lookups) == Numbers(lookups[1..]) + {lookups[0].value}
              && lookups[0].value !in Numbers(lookups[1..])
  {
    assert lookups == [lookups[0]] + lookups[1..];
  }

  lemma InFlightExtends(
    batch: seq<Entry>, lookups: seq<Option<nat>>, sent: seq<Request>, claimed: set<nat>, join: Bytes -> Path,
    entry: Entry)
    requires InFlight(batch, lookups, sent, claimed, join) && |batch| < WINDOW
    ensures !NeedsLookup(entry) ==> InFlight(batch + [entry], lookups + [None], sent, claimed, join)
    ensures NeedsLookup(entry) && |sent| !in claimed ==>
              InFlight(batch + [entry], lookups + [Some(|sent|)], sent + [Lstat(join(entry.name.value))], claimed, join)
    ensures Numbers(lookups + [None]) == Numbers(lookups)
    ensures Numbers(lookups + [Some(|sent|)]) == Numbers(lookups) + {|sent|} && |sent| !in Numbers(lookups)
  {
    assert forall lookup :: lookup in lookups + [None] <==> lookup in lookups || lookup == None;
    assert forall lookup :: lookup in lookups + [Some(|sent|)] <==> lookup in lookups || lookup == Some(|sent|);
  }

  lemma InFlightNone(sent: seq<Request>, claimed: set<nat>, join: Bytes -> Path)
    ensures InFlight([], [], sent, claimed, join) && Numbers([]) == {}
  {
  }

  /** The first `|yielded|` accepted entries were passed on in order, and the rest wait. */
  ghost predicate PassedOn(
    accepted: seq<Entry>, yielded: seq<Scanned>, used: seq<Option<nat>>, waiting: seq<Entry>, net: Network,
    join: Bytes -> Path)
  {
    && |used| == |yielded| <= |accepted|
    && accepted[|yielded|..] == waiting
    && (forall i :: 0 <= i < |yielded| ==> Describes(accepted[i], yielded[i], used[i], net, join))
  }

  lemma PassedOnGrows(
    accepted: seq<Entry>, yielded: seq<Scanned>, used: seq<Option<nat>>, waiting: seq<Entry>,
    before: Network, now: Network, join: Bytes -> Path)
    requires PassedOn(accepted, yielded, used, waiting, before, join) && Grew(before, now)
    ensures PassedOn(accepted, yielded, used, waiting, now, join)
  {
    hide RegularBy, IsRegular, Tells;
  }

  lemma PassedOnAccepts(
    accepted: seq<Entry>, yielded: seq<Scanned>, used: seq<Option<nat>>, waiting: seq<Entry>, net: Network,
    join: Bytes -> Path, page: seq<Entry>)
    requires PassedOn(accepted, yielded, used, waiting, net, join)
    ensures PassedOn(accepted + page, yielded, used, waiting + page, net, join)
  {
    hide Describes;
  }

  lemma PassedOnYields(
    accepted: seq<Entry>, yielded: seq<Scanned>, used: seq<Option<nat>>, waiting: seq<Entry>, net: Network,
    join: Bytes -> Path, scanned: Scanned, lookup: Option<nat>)
    requires PassedOn(accepted, yielded, used, waiting, net, join) && waiting != []
    requires Describes(waiting[0], scanned, lookup, net, join)
    ensures PassedOn(accepted, yielded + [scanned], used + [lookup], waiting[1..], net, join)
  {
    hide Describes;
  }

  // ---------------------------------------------------------------- what the server's replies say

  /** The entries of one page, if the reply to its READDIR carries one. */
  function PageOf(answers: map<nat, Reply>, n: nat, utf8: Bytes -> bool): Option<seq<Entry>> {
    if n !in answers then None
    else
      match Outcome(answers[n], CMD_NAME)
      case Err(_) => None
      case Ok(payload) => NamesOf(payload, utf8)
  }

  /** A page shows the entries that the server encoded, each under its own name. */
  lemma PagesAreSeen(answers: map<nat, Reply>, n: nat, entries: seq<WireEntry>, utf8: Bytes -> bool)
    requires n in answers && answers[n] == Reply(CMD_NAME, EncodeNames(entries)) && 0 < |entries| < WORD
    requires forall i :: 0 <= i < |entries| ==> EntryFits(entries[i])
    ensures var page := PageOf(answers, n, utf8);
            && page.Some? && |page.value| == |entries| && Pages(answers[n], utf8)
            && forall i :: 0 <= i < |entries| ==>
                 && IsAddressed(page.value[i].name, entries[i].name, utf8)
                 && page.value[i].attributes == Attributes(entries[i].attributes.size, entries[i].attributes.mode)
  {
    hide NamesOf, EncodeNames, EntryFits, IsAddressed;
    NamesUndoEncode(entries, utf8);
  }

  /** The entries of several pages, in order. */
  function PagesOf(answers: map<nat, Reply>, pages: seq<nat>, utf8: Bytes -> bool): seq<Entry> {
    if pages == [] then []
    else
      var last := PageOf(answers, pages[|pages| - 1], utf8);
      PagesOf(answers, pages[..|pages| - 1], utf8) + if last.Some? then last.value else []
  }

  /** The server has said that the directory ends. */
  ghost predicate EndSeen(net: Network, first: nat, handle: Bytes, pages: seq<nat>) {
    exists n :: first <= n < |net.sent| && net.sent[n] == ReadDirectory(handle) && n in net.answers
                && Outcome(net.answers[n], CMD_NAME) == Err(Status(SFTP_EOF)) && n !in pages
  }

  /** The READDIRs answered with a page, in order, and the entries of all their pages. They are all the
      READDIRs there were, but for the one that met the end. */
  ghost predicate ReadIn(
    net: Network, first: nat, handle: Bytes, utf8: Bytes -> bool, pages: seq<nat>, accepted: seq<Entry>, ended: bool)
  {
    && (forall i :: 0 <= i < |pages| ==>
          && first <= pages[i] < |net.sent| && net.sent[pages[i]] == ReadDirectory(handle)
          && PageOf(net.answers, pages[i], utf8).Some?)
    && (forall i, j :: 0 <= i < j < |pages| ==> pages[i] < pages[j])
    && accepted == PagesOf(net.answers, pages, utf8)
    && Times(net.sent, first, ReadDirectory(handle)) == |pages| + (if ended then 1 else 0)
    && (ended ==> EndSeen(net, first, handle, pages))
  }

  lemma {:induction false} PagesStay(
    answers: map<nat, Reply>, more: map<nat, Reply>, pages: seq<nat>, utf8: Bytes -> bool)
    requires forall i :: 0 <= i < |pages| ==>
               pages[i] in answers && pages[i] in more && more[pages[i]] == answers[pages[i]]
    ensures PagesOf(more, pages, utf8) == PagesOf(answers, pages, utf8)
  {
    hide Outcome, NamesOf;
    if pages != [] {
      PagesStay(answers, more, pages[..|pages| - 1], utf8);
    }
  }

  /** Other requests change nothing of that. */
  lemma ReadInGrows(
    net: Network, first: nat, handle: Bytes, utf8: Bytes -> bool, pages: seq<nat>, accepted: seq<Entry>, ended: bool,
    now: Network, request: Request)
    requires ReadIn(net, first, handle, utf8, pages, accepted, ended) && first <= |net.sent|
    requires Grew(net, now) && net.sent <= now.sent <= net.sent + [request] && request != ReadDirectory(handle)
    ensures ReadIn(now, first, handle, utf8, pages, accepted, ended)
  {
    hide Outcome, NamesOf, Times, PagesOf;
    TimesUpTo(net.sent, now.sent, first, ReadDirectory(handle), request);
    PagesStay(net.answers, now.answers, pages, utf8);
  }

  /** A READDIR that was answered with a page, or with the end. */
  lemma ReadInReads(
    net: Network, first: nat, handle: Bytes, utf8: Bytes -> bool, pages: seq<nat>, accepted: seq<Entry>,
    now: Network)
    requires ReadIn(net, first, handle, utf8, pages, accepted, false) && first <= |net.sent|
    requires Grew(net, now) && now.sent == net.sent + [ReadDirectory(handle)] && |net.sent| in now.answers
    ensures PageOf(now.answers, |net.sent|, utf8).Some? ==>
              ReadIn(now, first, handle, utf8, pages + [|net.sent|],
                     accepted + PageOf(now.answers, |net.sent|, utf8).value, false)
    ensures Outcome(now.answers[|net.sent|], CMD_NAME) == Err(Status(SFTP_EOF)) ==>
              ReadIn(now, first, handle, utf8, pages, accepted, true)
  {
    hide Outcome, NamesOf, Times, PagesOf;
    TimesStep(net.sent, first, ReadDirectory(handle), ReadDirectory(handle));
    PagesStay(net.answers, now.answers, pages, utf8);
    PagesStep(now.answers, pages, |net.sent|, utf8);
    assert now.sent[|net.sent|] == ReadDirectory(handle);
  }

  lemma PagesStep(answers: map<nat, Reply>, pages: seq<nat>, n: nat, utf8: Bytes -> bool)
    ensures PageOf(answers, n, utf8).Some? ==>
              PagesOf(answers, pages + [n], utf8) == PagesOf(answers, pages, utf8) + PageOf(answers, n, utf8).value
  {
    hide PageOf;
    assert (pages + [n])[..|pages|] == pages;
  }

  /** The session was used to list the directory, and for nothing else. */
  ghost predicate OnlyLists(sent: seq<Request>, first: nat, handle: Bytes) {
    && first <= |sent|
    && forall n :: first <= n < |sent| ==> sent[n] == ReadDirectory(handle) || sent[n].Lstat?
  }

  lemma OnlyListsGrow(before: seq<Request>, now: seq<Request>, first: nat, handle: Bytes, request: Request)
    requires OnlyLists(before, first, handle) && before <= now <= before + [request]
    requires request == ReadDirectory(handle) || request.Lstat?
    ensures OnlyLists(now, first, handle) && first <= |before|
  {
  }

  /** The entries of a remote directory, one READDIR page and one batch of LSTATs at a time. */
  class Entries {
    const requests: Requests
    const handle: Bytes
    const utf8: Bytes -> bool
    const join: Bytes -> Path
    var page: seq<Entry>             // accepted, not yet in a batch
    var batch: seq<Entry>            // the batch being passed on
    var lookups: seq<Option<nat>>    // its LSTAT requests in flight
    var ended: bool
    ghost const first: nat           // the first request after the directory was opened
    ghost var pages: seq<nat>        // the READDIRs whose pages were accepted
    ghost var accepted: seq<Entry>   // their entries
    ghost var yielded: seq<Scanned>  // what was passed on
    ghost var used: seq<Option<nat>> // the LSTAT each was decided by

    constructor (requests: Requests, handle: Bytes, utf8: Bytes -> bool, join: Bytes -> Path)
      requires requests.Valid()
      ensures Valid() && yielded == [] && accepted == [] && !ended && first == |requests.net.sent|
      ensures this.requests == requests && this.handle == handle
    {
      this.requests, this.handle, this.utf8, this.join := requests, handle, utf8, join;
      page, batch, lookups, ended := [], [], [], false;
      first, pages, accepted, yielded, used := |requests.net.sent|, [], [], [], [];
      new;
      hide Consistent;
      InFlightNone(requests.net.sent, requests.claimed, join);
    }

    /** How many READDIRs the server was sent. */
    ghost function Reads(): nat
      reads this, requests
    {
      Times(requests.net.sent, first, ReadDirectory(handle))
    }

    /** The requests of this listing that were neither received nor ignored nor are in flight. */
    ghost function Stranded(): set<nat>
      reads this, requests
    {
      LeftBehind(|requests.net.sent|, first, requests.claimed, Numbers(lookups))
    }

    /** The state from which `Finish` cleans up; it survives every failure. */
    ghost predicate Releasable()
      reads this, requests
    {
      && requests.Valid() && OnlyLists(requests.net.sent, first, handle) && |batch| == |lookups|
      && InFlight(batch, lookups, requests.net.sent, requests.claimed, join)
      && From(first, lookups)
      && (Stranded() != {} ==> requests.net.lost || requests.net.garbled)
    }

    ghost predicate Valid()
      reads this, requests
    {
      && Releasable()
      && ReadIn(requests.net, first, handle, utf8, pages, accepted, ended)
      && PassedOn(accepted, yielded, used, batch + page, requests.net, join)
      && (ended ==> batch == [] && page == [])
      && Reads() <= |yielded| + if batch == [] && page == [] && !ended then 0 else 1
    }

    /** Ask for the next page. A page without entries is refused, so every page is progress. */
    method ReadPage() returns (r: Result<(), Problem>)
      requires Valid() && batch == [] && page == [] && !ended
      modifies this`page, this`ended, this`pages, this`accepted, requests
      ensures Releasable() && Grew(old(requests.net), requests.net) && old(Reads()) <= Reads() <= old(Reads()) + 1
      ensures r.Ok? ==> Valid() && (page != [] || ended) && (ended ==> accepted == old(accepted))
      ensures r.Err? ==> Obstructed(requests.net, first, utf8)
    {
      hide Obstructed;
      hide Consistent, Grew, Outcome, PassedOn, NamesOf, ReadIn, Times, OnlyLists, LeftBehind, InFlight;
      ghost var before, claimed := requests.net, requests.claimed;
      assert lookups == [];
      InFlightNone(requests.net.sent, requests.claimed, join);
      var reply := requests.Call(ReadDirectory(handle), CMD_NAME);
      InFlightNone(requests.net.sent, requests.claimed, join);
      OnlyListsGrow(before.sent, requests.net.sent, first, handle, ReadDirectory(handle));
      TimesUpTo(before.sent, requests.net.sent, first, ReadDirectory(handle), ReadDirectory(handle));
      PassedOnGrows(accepted, yielded, used, batch + page, before, requests.net, join);
      LeftBehindSteps(|before.sent|, first, claimed, {|before.sent|}, {}, |before.sent|);
      BrokenObstructs(requests.net, first, utf8);
      if (reply.Ok? || reply.error.Status?) && !Pages(requests.net.answers[|before.sent|], utf8) {
        ObstructedBy(requests.net, first, utf8, |before.sent|);
      }
      if reply.Err? && reply.error != Status(SFTP_EOF) {
        return Err(reply.error);
      }
      ReadInReads(before, first, handle, utf8, pages, accepted, requests.net);
      if reply.Err? {
        ended := true;
        return Ok(());
      }
      var names := ParseNames(reply.value, utf8);
      if names.Err? {
        return Err(names.error);
      }
      PassedOnAccepts(accepted, yielded, used, batch + page, requests.net, join, names.value);
      assert batch + page + names.value == batch + names.value;
      page := names.value;
      pages := pages + [|before.sent|];
      accepted := accepted + names.value;
      r := Ok(());
    }

    /** What holds while the LSTATs of a batch are sent. */
    ghost predicate Batching(entries: seq<Entry>, numbers: seq<Option<nat>>)
      reads this, requests
    {
      && requests.Valid() && OnlyLists(requests.net.sent, first, handle)
      && InFlight(entries, numbers, requests.net.sent, requests.claimed, join)
      && From(first, numbers)
      && (LeftBehind(|requests.net.sent|, first, requests.claimed, Numbers(numbers)) != {} ==>
            requests.net.lost || requests.net.garbled)
      && ReadIn(requests.net, first, handle, utf8, pages, accepted, ended)
    }

    /** Send an LSTAT for one entry of a batch, if the page left its mode out. */
    method StartLookUp(entry: Entry, ghost entries: seq<Entry>, ghost numbers: seq<Option<nat>>)
      returns (r: Result<Option<nat>, Problem>)
      requires Batching(entries, numbers) && |entries| < WINDOW
      modifies requests`net
      ensures requests.Valid() && OnlyLists(requests.net.sent, first, handle) && Grew(old(requests.net), requests.net)
      ensures Reads() == old(Reads())
      ensures r.Err? ==> requests.net.lost
      ensures r.Ok? ==> Batching(entries + [entry], numbers + [r.value])
    {
      hide Consistent, Grew, InFlight, ReadIn, Times, OnlyLists, LeftBehind, Numbers;
      ghost var before := requests.net;
      InFlightExtends(entries, numbers, requests.net.sent, requests.claimed, join, entry);
      if !NeedsLookup(entry) {
        GrewIsReflexive(requests.net);
        return Ok(None);
      }
      var request := Lstat(join(NameOf(entry)));
      var number := requests.Send(request);
      OnlyListsGrow(before.sent, requests.net.sent, first, handle, request);
      TimesUpTo(before.sent, requests.net.sent, first, ReadDirectory(handle), request);
      if number.Err? {
        return Err(number.error);
      }
      ReadInGrows(before, first, handle, utf8, pages, accepted, ended, requests.net, request);
      LeftBehindSteps(|before.sent|, first, requests.claimed, Numbers(numbers) + {|before.sent|}, Numbers(numbers),
                      |before.sent|);
      r := Ok(Some(number.value));
    }

    lemma BatchStarts()
      requires Valid() && batch == []
      ensures Batching([], [])
    {
      hide Consistent, ReadIn, OnlyLists, LeftBehind, PassedOn;
      assert lookups == [];
    }

    lemma BatchIsReady(entries: seq<Entry>, numbers: seq<Option<nat>>)
      requires Batching(entries, numbers)
      ensures requests.Valid() && OnlyLists(requests.net.sent, first, handle) && |entries| == |numbers|
      ensures InFlight(entries, numbers, requests.net.sent, requests.claimed, join)
      ensures From(first, numbers)
      ensures LeftBehind(|requests.net.sent|, first, requests.claimed, Numbers(numbers)) != {} ==>
                requests.net.lost || requests.net.garbled
      ensures ReadIn(requests.net, first, handle, utf8, pages, accepted, ended)
    {
      hide Consistent, ReadIn, OnlyLists, LeftBehind;
    }

    /** Send the LSTATs of the first entries of the page. */
    method StartLookUps(size: nat) returns (r: Result<seq<Option<nat>>, Problem>)
      requires Batching([], []) && size <= |page| && size <= WINDOW
      modifies requests`net
      ensures requests.Valid() && OnlyLists(requests.net.sent, first, handle) && Grew(old(requests.net), requests.net)
      ensures Reads() == old(Reads())
      ensures r.Err? ==> requests.net.lost
      ensures r.Ok? ==> |r.value| == size && Batching(page[..size], r.value)
    {
      hide Consistent, Grew, InFlight, ReadIn, Times, OnlyLists, LeftBehind, Numbers, Batching, From;
      GrewIsReflexive(requests.net);
      BatchIsReady([], []);
      var numbers: seq<Option<nat>> := [];
      assert page[..0] == [];
      while |numbers| < size
        invariant |numbers| <= size && Batching(page[..|numbers|], numbers)
        invariant requests.Valid() && OnlyLists(requests.net.sent, first, handle)
        invariant Reads() == old(Reads()) && Grew(old(requests.net), requests.net)
      {
        ghost var before := requests.net;
        var entry := page[|numbers|];
        assert page[..|numbers| + 1] == page[..|numbers|] + [entry];
        var sent := StartLookUp(entry, page[..|numbers|], numbers);
        GrewIsTransitive(old(requests.net), before, requests.net);
        if sent.Err? {
          return Err(sent.error);
        }
        numbers := numbers + [sent.value];
        BatchIsReady(page[..|numbers|], numbers);
      }
      r := Ok(numbers);
    }

    /** Start the next batch: send an LSTAT for every entry whose mode the page left out. */
    method StartBatch() returns (r: Result<(), Problem>)
      requires Valid() && batch == [] && page != []
      modifies this`page, this`batch, this`lookups, requests`net
      ensures Releasable() && Grew(old(requests.net), requests.net) && Reads() == old(Reads())
      ensures r.Ok? ==> Valid() && |batch| == Min(WINDOW, |old(page)|)
      ensures r.Err? ==> requests.net.lost
    {
      hide Consistent, Grew, PassedOn, InFlight, NeedsLookup, ReadIn, Times, OnlyLists, LeftBehind, Numbers;
      hide Batching, From;
      ghost var start, waiting := requests.net, batch + page;
      BatchStarts();
      var size := Min(WINDOW, |page|);
      var sent := StartLookUps(size);
      if sent.Err? {
        InFlightNone(requests.net.sent, requests.claimed, join);
        return Err(sent.error);
      }
      assert page[..size] + page[size..] == page == waiting;
      BatchIsReady(page[..size], sent.value);
      page, batch, lookups := page[size..], page[..size], sent.value;
      PassedOnGrows(accepted, yielded, used, waiting, start, requests.net, join);
      r := Ok(());
    }

    /** Whether a name whose mode the page left out is a file, as the reply to its LSTAT says; one that
        was removed or hidden since is not. */
    method LookUp(number: nat) returns (r: Result<bool, Problem>)
      requires requests.Valid() && number < |requests.net.sent| && number !in requests.claimed
      modifies requests
      ensures requests.Valid() && Grew(old(requests.net), requests.net) && requests.net.sent == old(requests.net).sent
      ensures (requests.claimed == old(requests.claimed) + {number}
               && requests.net.lost == old(requests.net).lost && requests.net.garbled == old(requests.net).garbled)
              || (requests.claimed == old(requests.claimed) && (requests.net.lost || requests.net.garbled))
      ensures r.Ok? ==>
                && requests.claimed == old(requests.claimed) + {number}
                && number in requests.net.answers && Tells(requests.net.answers[number])
                && r.value == RegularBy(requests.net.answers[number])
      ensures r.Err? ==>
                || requests.net.lost || requests.net.garbled
                || (number in requests.net.answers && !Tells(requests.net.answers[number]))
    {
      hide Consistent, Grew, Outcome, AttributesOf;
      var reply := requests.Receive(number, CMD_ATTRS);
      if reply.Err? {
        if reply.error in {Status(SFTP_NO_SUCH_FILE), Status(SFTP_PERMISSION_DENIED)} {
          return Ok(false);
        }
        return Err(reply.error);
      }
      var parsed := ParseAttributes(reply.value);
      if parsed.Err? {
        return Err(parsed.error);
      }
      r := Ok(parsed.value.mode.Some? && IsRegular(parsed.value.mode.value));
    }

    /** Decide the first entry of the batch, and take it out of it. */
    method Decide() returns (r: Result<Scanned, Problem>, ghost lookup: Option<nat>)
      requires Valid() && batch != []
      modifies this`batch, this`lookups, requests
      ensures Releasable() && Grew(old(requests.net), requests.net) && requests.net.sent == old(requests.net).sent
      ensures batch == old(batch)[1..]
      ensures r.Ok? ==>
                && Describes(old(batch)[0], r.value, lookup, requests.net, join)
                && ReadIn(requests.net, first, handle, utf8, pages, accepted, ended)
      ensures r.Err? ==> Obstructed(requests.net, first, utf8)
    {
      hide Consistent, Grew, PassedOn, InFlight, ReadIn, OnlyLists, LeftBehind, Numbers;
      hide RegularBy, IsRegular, Tells, Times, Obstructed;
      GrewIsReflexive(requests.net);
      ghost var start, claimed, flying := requests.net, requests.claimed, Numbers(lookups);
      InFlightAdvances(batch, lookups, requests.net.sent, requests.claimed, join);
      var entry, number := batch[0], lookups[0];
      lookup := number;
      batch, lookups := batch[1..], lookups[1..];
      if number.None? {
        r := Ok(Scanned(NameOf(entry), entry.name.Some? && IsRegular(entry.attributes.mode.value)));
        return;
      }
      LeftBehindSteps(|start.sent|, first, claimed, flying, Numbers(lookups), number.value);
      var regular := LookUp(number.value);
      OnlyListsGrow(start.sent, requests.net.sent, first, handle, ReadDirectory(handle));
      ReadInGrows(start, first, handle, utf8, pages, accepted, ended, requests.net, Lstat(join(NameOf(entry))));
      BrokenObstructs(requests.net, first, utf8);
      if regular.Err? && !requests.net.lost && !requests.net.garbled {
        ObstructedBy(requests.net, first, utf8, number.value);
      }
      r := match regular
        case Err(problem) => Err(problem)
        case Ok(isFile) => Ok(Scanned(NameOf(entry), isFile));
    }

    /** Pass on the first entry of the batch. */
    method PassOn() returns (r: Result<Scanned, Problem>)
      requires Valid() && batch != []
      modifies this`batch, this`lookups, this`yielded, this`used, requests
      ensures Releasable() && Grew(old(requests.net), requests.net) && Reads() == old(Reads())
      ensures r.Err? ==> yielded == old(yielded) && Obstructed(requests.net, first, utf8)
      ensures r.Ok? ==> Valid() && yielded == old(yielded) + [r.value]
    {
      hide Obstructed;
      hide Consistent, Grew, PassedOn, InFlight, ReadIn, Times, OnlyLists, LeftBehind, Numbers, Describes;
      ghost var start, waiting, lookup := requests.net, batch + page, None;
      r, lookup := Decide();
      PassedOnGrows(accepted, yielded, used, waiting, start, requests.net, join);
      if r.Ok? {
        PassedOnYields(accepted, yielded, used, waiting, requests.net, join, r.value, lookup);
        assert waiting[1..] == batch + page;
        yielded, used := yielded + [r.value], used + [lookup];
      }
    }

    /** The next entry, or None at the end of the directory; it costs at most one READDIR. */
    method Next() returns (r: Result<Option<Scanned>, Problem>)
      requires Valid() && !ended
      modifies this, requests
      ensures Releasable() && Grew(old(requests.net), requests.net)
      ensures old(Reads()) <= Reads() <= old(Reads()) + 1 && Reads() <= |old(yielded)| + 1
      ensures r.Err? ==> yielded == old(yielded) && Obstructed(requests.net, first, utf8)
      ensures r.Ok? ==>
                && Valid()
                && (r.value.Some? ==> !ended && yielded == old(yielded) + [r.value.value])
                && (r.value.None? ==> ended && yielded == old(yielded) && accepted == old(accepted))
    {
      hide Consistent, Grew, PassedOn, InFlight, ReadIn, Times, OnlyLists, LeftBehind, Numbers, Obstructed;
      GrewIsReflexive(requests.net);
      ghost var start := requests.net;
      if batch == [] && page == [] {
        var read := ReadPage();
        if read.Err? {
          return Err(read.error);
        }
        if ended {
          return Ok(None);
        }
      }
      ghost var paged := requests.net;
      if batch == [] {
        var started := StartBatch();
        GrewIsTransitive(start, paged, requests.net);
        BrokenObstructs(requests.net, first, utf8);
        if started.Err? {
          return Err(started.error);
        }
      }
      ghost var batched := requests.net;
      var scanned := PassOn();
      GrewIsTransitive(start, batched, requests.net);
      if scanned.Err? {
        return Err(scanned.error);
      }
      r := Ok(Some(scanned.value));
    }

    /** Stop, at any point: ignore the lookups in flight and close the directory. One CLOSE is sent,
        unless the session is lost; and on a session that was neither lost nor garbled every request of
        the listing has then been received or ignored. */
    method Finish()
      requires Releasable()
      modifies this`batch, this`lookups, requests
      ensures requests.Valid() && lookups == [] && Grew(old(requests.net), requests.net)
      ensures old(requests.net).sent <= requests.net.sent <= old(requests.net).sent + [Close(handle)]
      ensures !requests.net.lost ==>
                && requests.net.sent == old(requests.net).sent + [Close(handle)]
                && Stranded() == old(Stranded())
      ensures !requests.net.lost && !requests.net.garbled ==>
                forall n :: first <= n < |requests.net.sent| ==> n in requests.claimed
    {
      hide Consistent, Grew, InFlight, OnlyLists, Numbers;
      while lookups != []
        invariant Releasable() && |batch| == |lookups|
        invariant requests.net == old(requests.net) && Stranded() == old(Stranded())
      {
        InFlightAdvances(batch, lookups, requests.net.sent, requests.claimed, join);
        if lookups[0].Some? {
          LeftBehindSteps(|requests.net.sent|, first, requests.claimed, Numbers(lookups), Numbers(lookups[1..]),
                          lookups[0].value);
          requests.Ignore(lookups[0].value);
        }
        batch, lookups := batch[1..], lookups[1..];
      }
      InFlightNone(requests.net.sent, requests.claimed, join);
      ghost var claimed, number := requests.claimed, |requests.net.sent|;
      OnlyListsGrow(requests.net.sent, requests.net.sent, first, handle, ReadDirectory(handle));
      requests.CloseQuietly(handle);
      LeftBehindSteps(number, first, claimed, {number}, {}, number);
      assert forall n :: first <= n < |requests.net.sent| && n !in requests.claimed ==> n in Stranded();
    }

    function NameOf(entry: Entry): Bytes {
      if entry.name.Some? then entry.name.value else []
    }
  }

  /** Collect the listing of a remote directory. It ends on every server, after at most
      MAX_LIST_SCAN + 1 READDIR requests. A result describes what the server's NAME replies carried,
      entry by entry: all of it, up to the reply that said the end, if the listing is not truncated; and
      what was not read could not have changed a listing that is. */
  method BoundedListing(entries: Entries) returns (r: Result<Listing, Problem>)
    requires entries.Valid() && !entries.ended && entries.yielded == [] && entries.Reads() == 0
    modifies entries, entries.requests
    ensures entries.Releasable()
    ensures |entries.yielded| <= MAX_LIST_SCAN + 1 && entries.Reads() <= MAX_LIST_SCAN + 1
    ensures r.Ok? ==> entries.Valid()
    ensures r.Ok? && !r.value.truncated ==>
              entries.ended && |entries.yielded| == |entries.accepted| && r.value == ListingOf(entries.yielded)
    ensures r.Ok? && r.value.truncated ==> forall rest :: r.value == ListingOf(entries.yielded + rest)
    ensures r.Err? ==> Obstructed(entries.requests.net, entries.first, entries.utf8)
  {
    hide Obstructed;
    hide Consistent, Grew, PassedOn, InFlight, ReadIn, Times, OnlyLists, LeftBehind, Names, Sorted, ListingOf;
    var files: seq<Bytes> := [];
    var scanned := 0;
    assert files == Names([]) by { NamesOfNone(); }
    while true
      invariant entries.Valid() && !entries.ended
      invariant scanned == |entries.yielded| <= MAX_LIST_SCAN
      invariant entries.Reads() <= |entries.yielded|
      invariant files == Names(entries.yielded) && |files| <= MAX_LIST_RESULTS
      decreases MAX_LIST_SCAN - scanned
    {
      ghost var before := entries.yielded;
      var next := entries.Next();
      if next.Err? {
        return Err(next.error);
      }
      if next.value.None? {
        assert entries.batch + entries.page == [];
        AllPassedOn(entries.accepted, entries.yielded, entries.used, entries.requests.net, entries.join);
        EndsComplete(entries.yielded, files);
        return Ok(Listing(Sorted(files), false));
      }
      var entry := next.value.value;
      NamesStep(before, entry);
      scanned := scanned + 1;
      if scanned > MAX_LIST_SCAN {
        EndsTruncated(before, entry, files);
        return Ok(Listing(Sorted(files), true));
      }
      if !entry.regular {
        continue;
      }
      if !IsValid(entry.name) {
        continue;
      }
      if |files| >= MAX_LIST_RESULTS {
        EndsTruncated(before, entry, files);
        return Ok(Listing(Sorted(files), true));
      }
      files := files + [entry.name];
    }
  }

  lemma AllPassedOn(
    accepted: seq<Entry>, yielded: seq<Scanned>, used: seq<Option<nat>>, net: Network, join: Bytes -> Path)
    requires PassedOn(accepted, yielded, used, [], net, join)
    ensures |yielded| == |accepted|
  {
  }

  lemma NamesOfNone()
    ensures Names([]) == []
  {
  }

  lemma NamesStep(entries: seq<Scanned>, entry: Scanned)
    ensures Names(entries + [entry]) == Names(entries) + if Listable(entry) then [entry.name] else []
  {
    assert (entries + [entry])[..|entries|] == entries;
  }

  lemma EndsComplete(entries: seq<Scanned>, files: seq<Bytes>)
    requires files == Names(entries) && |entries| <= MAX_LIST_SCAN && |files| <= MAX_LIST_RESULTS
    ensures ListingOf(entries) == Listing(Sorted(files), false)
  {
    assert entries[..|entries|] == entries && files[..|files|] == files;
  }

  lemma EndsTruncated(before: seq<Scanned>, entry: Scanned, files: seq<Bytes>)
    requires files == Names(before) && |files| <= MAX_LIST_RESULTS && |before| <= MAX_LIST_SCAN
    requires |before| == MAX_LIST_SCAN || (Listable(entry) && |files| == MAX_LIST_RESULTS)
    ensures forall rest :: ListingOf(before + [entry] + rest) == Listing(Sorted(files), true)
  {
    forall rest
      ensures ListingOf(before + [entry] + rest) == Listing(Sorted(files), true)
    {
      EndsTruncatedFor(before, entry, files, rest);
    }
  }

  lemma EndsTruncatedFor(before: seq<Scanned>, entry: Scanned, files: seq<Bytes>, rest: seq<Scanned>)
    requires files == Names(before) && |files| <= MAX_LIST_RESULTS && |before| <= MAX_LIST_SCAN
    requires |before| == MAX_LIST_SCAN || (Listable(entry) && |files| == MAX_LIST_RESULTS)
    ensures ListingOf(before + [entry] + rest) == Listing(Sorted(files), true)
  {
    hide Names, Sorted;
    var all := before + [entry] + rest;
    var scanned := all[..Min(|all|, MAX_LIST_SCAN)];
    if |before| == MAX_LIST_SCAN {
      assert scanned == before && files[..|files|] == files;
    } else {
      var more := scanned[|before| + 1..];
      assert scanned == before + [entry] + more;
      NamesStep(before, entry);
      NamesGrow(before + [entry], more);
      assert Names(scanned)[..MAX_LIST_RESULTS] == files;
    }
  }
}
