/** Reply bytes: the bounded field reader, the NAME parser, and the encoder it undoes
    (draft-ietf-secsh-filexfer-02, sections 5 and 7). */
module Wire {
  import opened Common

  // ---------------------------------------------------------------- fields, as functions

  datatype Parsed<+T> = Field(value: T, rest: Bytes) | Short

  function Take(b: Bytes, size: nat): Parsed<Bytes> {
    if size > |b| then Short else Field(b[..size], b[size..])
  }

  function BigEndian(b: Bytes): nat {
    if b == [] then 0 else BigEndian(b[..|b| - 1]) * 256 + b[|b| - 1]
  }

  function UInt(b: Bytes, width: nat): Parsed<nat> {
    match Take(b, width)
    case Short => Short
    case Field(field, rest) => Field(BigEndian(field), rest)
  }

  function String(b: Bytes): Parsed<Bytes> {
    match UInt(b, 4)
    case Short => Short
    case Field(size, rest) => Take(rest, size)
  }

  datatype Attributes = Attributes(size: Option<nat>, mode: Option<nat>)

  const FLAG_SIZE := 1
  const FLAG_UIDGID := 2
  const FLAG_PERMISSIONS := 4
  const FLAG_AMTIME := 8
  const FLAG_EXTENDED := 0x8000_0000

  predicate HasFlag(flags: nat, flag: nat)
    requires flag > 0
  {
    flags / flag % 2 == 1
  }

  function OptionalUInt(present: bool, b: Bytes, width: nat): Parsed<Option<nat>> {
    if !present then Field(None, b)
    else
      match UInt(b, width)
      case Short => Short
      case Field(value, rest) => Field(Some(value), rest)
  }

  function Skipped(present: bool, b: Bytes, width: nat): Parsed<()> {
    if !present then Field((), b)
    else
      match Take(b, width)
      case Short => Short
      case Field(_, rest) => Field((), rest)
  }

  /** `count` pairs of strings, which the reader skips. */
  function SkippedPairs(count: nat, b: Bytes): Parsed<()> {
    if count == 0 then Field((), b)
    else
      match String(b)
      case Short => Short
      case Field(_, afterName) =>
        match String(afterName)
        case Short => Short
        case Field(_, afterData) => SkippedPairs(count - 1, afterData)
  }

  function Extensions(present: bool, b: Bytes): Parsed<()> {
    if !present then Field((), b)
    else
      match UInt(b, 4)
      case Short => Short
      case Field(count, rest) => SkippedPairs(count, rest)
  }

  function AttributesOf(b: Bytes): Parsed<Attributes> {
    match UInt(b, 4)
    case Short => Short
    case Field(flags, b0) =>
      match OptionalUInt(HasFlag(flags, FLAG_SIZE), b0, 8)
      case Short => Short
      case Field(size, b1) =>
        match Skipped(HasFlag(flags, FLAG_UIDGID), b1, 8)
        case Short => Short
        case Field(_, b2) =>
          match OptionalUInt(HasFlag(flags, FLAG_PERMISSIONS), b2, 4)
          case Short => Short
          case Field(mode, b3) =>
            match Skipped(HasFlag(flags, FLAG_AMTIME), b3, 8)
            case Short => Short
            case Field(_, b4) =>
              match Extensions(HasFlag(flags, FLAG_EXTENDED), b4)
              case Short => Short
              case Field(_, b5) => Field(Attributes(size, mode), b5)
  }

  // ---------------------------------------------------------------- NAME replies

  /** One directory entry; a name the API cannot address is None. */
  datatype Entry = Entry(name: Option<Bytes>, attributes: Attributes)

  const DOT: Bytes := [46]
  const DOTDOT: Bytes := [46, 46]

  function Addressable(raw: Bytes, utf8: Bytes -> bool): Option<Bytes> {
    if utf8(raw) && raw != DOT && raw != DOTDOT then Some(raw) else None
  }

  function EntryOf(b: Bytes, utf8: Bytes -> bool): Parsed<Entry> {
    match String(b)
    case Short => Short
    case Field(raw, b0) =>
      match String(b0)
      case Short => Short
      case Field(_, b1) =>
        match AttributesOf(b1)
        case Short => Short
        case Field(attributes, b2) => Field(Entry(Addressable(raw, utf8), attributes), b2)
  }

  function EntriesOf(count: nat, b: Bytes, utf8: Bytes -> bool): Parsed<seq<Entry>> {
    if count == 0 then Field([], b)
    else
      match EntryOf(b, utf8)
      case Short => Short
      case Field(entry, b0) =>
        match EntriesOf(count - 1, b0, utf8)
        case Short => Short
        case Field(entries, b1) => Field([entry] + entries, b1)
  }

  /** A NAME payload; a page without entries is as malformed as a short one. */
  function NamesOf(b: Bytes, utf8: Bytes -> bool): Option<seq<Entry>> {
    match UInt(b, 4)
    case Short => None
    case Field(count, rest) =>
      if count == 0 then None
      else
        match EntriesOf(count, rest, utf8)
        case Short => None
        case Field(entries, _) => Some(entries)
  }

  // ---------------------------------------------------------------- the reader

  class Reader {
    const payload: Bytes
    var offset: nat
    ghost var takes: nat  // fields taken so far, the last of which may have failed

    constructor (payload: Bytes)
      ensures this.payload == payload && offset == 0 && takes == 0
      ensures Bounded() && Rest() == payload
    {
      this.payload := payload;
      offset := 0;
      takes := 0;
    }

    /** The reader is inside its payload and has done work in proportion to the bytes it passed. */
    ghost predicate Bounded()
      reads this
    {
      offset <= |payload| && 2 * takes <= offset
    }

    /** As Bounded, after a field that would pass the end. */
    ghost predicate Stopped()
      reads this
    {
      offset <= |payload| && 2 * takes <= offset + 2
    }

    function Rest(): Bytes
      reads this
      requires offset <= |payload|
    {
      payload[offset..]
    }

    method TakeField(size: nat) returns (r: Result<Bytes, Problem>)
      requires offset <= |payload|
      modifies this
      ensures offset <= |payload| && takes == old(takes) + 1
      ensures match Take(old(Rest()), size)
              case Field(field, rest) => r == Ok(field) && Rest() == rest && offset == old(offset) + size
              case Short => r == Err(Status(SFTP_BAD_MESSAGE)) && offset == old(offset)
    {
      takes := takes + 1;
      var end := offset + size;
      if end > |payload| {
        return Err(Status(SFTP_BAD_MESSAGE));
      }
      r := Ok(payload[offset..end]);
      assert payload[offset..][..size] == payload[offset..end];
      assert payload[offset..][size..] == payload[end..];
      offset := end;
    }

    method ReadUInt(width: nat) returns (r: Result<nat, Problem>)
      requires Bounded() && width >= 4
      modifies this
      ensures r.Ok? ==> Bounded()
      ensures Stopped()
      ensures match UInt(old(Rest()), width)
              case Field(value, rest) => r == Ok(value) && Rest() == rest && offset == old(offset) + width
              case Short => r == Err(Status(SFTP_BAD_MESSAGE))
      ensures takes == old(takes) + 1
    {
      var field := TakeField(width);
      match field
      case Err(problem) => r := Err(problem);
      case Ok(bytes) => r := Ok(BigEndian(bytes));
    }

    method ReadString() returns (r: Result<Bytes, Problem>)
      requires Bounded()
      modifies this
      ensures r.Ok? ==> Bounded()
      ensures Stopped()
      ensures match String(old(Rest()))
              case Field(value, rest) => r == Ok(value) && Rest() == rest
              case Short => r == Err(Status(SFTP_BAD_MESSAGE))
    {
      var size := ReadUInt(4);
      match size
      case Err(problem) => r := Err(problem);
      case Ok(n) => r := TakeField(n);
    }

    method ReadOptionalUInt(present: bool, width: nat) returns (r: Result<Option<nat>, Problem>)
      requires Bounded() && width >= 4
      modifies this
      ensures r.Ok? ==> Bounded()
      ensures Stopped()
      ensures match OptionalUInt(present, old(Rest()), width)
              case Field(value, rest) => r == Ok(value) && Rest() == rest
              case Short => r == Err(Status(SFTP_BAD_MESSAGE))
    {
      if !present {
        return Ok(None);
      }
      var field := ReadUInt(width);
      match field
      case Err(problem) => r := Err(problem);
      case Ok(value) => r := Ok(Some(value));
    }

    method SkipOptional(present: bool, width: nat) returns (r: Result<(), Problem>)
      requires Bounded() && width >= 2
      modifies this
      ensures r.Ok? ==> Bounded()
      ensures Stopped()
      ensures match Skipped(present, old(Rest()), width)
              case Field(_, rest) => r == Ok(()) && Rest() == rest
              case Short => r == Err(Status(SFTP_BAD_MESSAGE))
    {
      if !present {
        return Ok(());
      }
      var field := TakeField(width);
      match field
      case Err(problem) => r := Err(problem);
      case Ok(_) => r := Ok(());
    }

    method SkipPairs(count: nat) returns (r: Result<(), Problem>)
      requires Bounded()
      modifies this
      ensures r.Ok? ==> Bounded()
      ensures Stopped()
      ensures match SkippedPairs(count, old(Rest()))
              case Field(_, rest) => r == Ok(()) && Rest() == rest
              case Short => r == Err(Status(SFTP_BAD_MESSAGE))
    {
      for i := 0 to count
        invariant Bounded()
        invariant SkippedPairs(count, old(Rest())) == SkippedPairs(count - i, Rest())
      {
        var name := ReadString();
        if name.Err? {
          return Err(name.error);
        }
        var data := ReadString();
        if data.Err? {
          return Err(data.error);
        }
      }
      r := Ok(());
    }

    method SkipExtensions(present: bool) returns (r: Result<(), Problem>)
      requires Bounded()
      modifies this
      ensures r.Ok? ==> Bounded()
      ensures Stopped()
      ensures match Extensions(present, old(Rest()))
              case Field(_, rest) => r == Ok(()) && Rest() == rest
              case Short => r == Err(Status(SFTP_BAD_MESSAGE))
    {
      if !present {
        return Ok(());
      }
      var count := ReadUInt(4);
      if count.Err? { return Err(count.error); }
      r := SkipPairs(count.value);
    }

    method ReadAttributes() returns (r: Result<Attributes, Problem>)
      requires Bounded()
      modifies this
      ensures r.Ok? ==> Bounded()
      ensures Stopped()
      ensures match AttributesOf(old(Rest()))
              case Field(value, rest) => r == Ok(value) && Rest() == rest
              case Short => r == Err(Status(SFTP_BAD_MESSAGE))
    {
      var flags := ReadUInt(4);
      if flags.Err? { return Err(flags.error); }
      var size := ReadOptionalUInt(HasFlag(flags.value, FLAG_SIZE), 8);
      if size.Err? { return Err(size.error); }
      var owner := SkipOptional(HasFlag(flags.value, FLAG_UIDGID), 8);
      if owner.Err? { return Err(owner.error); }
      var mode := ReadOptionalUInt(HasFlag(flags.value, FLAG_PERMISSIONS), 4);
      if mode.Err? { return Err(mode.error); }
      var times := SkipOptional(HasFlag(flags.value, FLAG_AMTIME), 8);
      if times.Err? { return Err(times.error); }
      var extended := SkipExtensions(HasFlag(flags.value, FLAG_EXTENDED));
      if extended.Err? { return Err(extended.error); }
      r := Ok(Attributes(size.value, mode.value));
    }

    method ReadEntry(utf8: Bytes -> bool) returns (r: Result<Entry, Problem>)
      requires Bounded()
      modifies this
      ensures r.Ok? ==> Bounded()
      ensures Stopped()
      ensures match EntryOf(old(Rest()), utf8)
              case Field(value, rest) => r == Ok(value) && Rest() == rest
              case Short => r == Err(Status(SFTP_BAD_MESSAGE))
    {
      var raw := ReadString();
      if raw.Err? { return Err(raw.error); }
      var long := ReadString();
      if long.Err? { return Err(long.error); }
      var attributes := ReadAttributes();
      if attributes.Err? { return Err(attributes.error); }
      r := Ok(Entry(Addressable(raw.value, utf8), attributes.value));
    }
  }

  /** The one string a reply carries. */
  method ParseString(payload: Bytes) returns (r: Result<Bytes, Problem>)
    ensures match String(payload)
            case Field(value, _) => r == Ok(value)
            case Short => r == Err(Status(SFTP_BAD_MESSAGE))
  {
    var reader := new Reader(payload);
    r := reader.ReadString();
  }

  /** The attributes a reply carries. */
  method ParseAttributes(payload: Bytes) returns (r: Result<Attributes, Problem>)
    ensures match AttributesOf(payload)
            case Field(value, _) => r == Ok(value)
            case Short => r == Err(Status(SFTP_BAD_MESSAGE))
  {
    hide AttributesOf;
    var reader := new Reader(payload);
    r := reader.ReadAttributes();
  }

  /** The entries a NAME reply carries. */
  method ParseNames(payload: Bytes, utf8: Bytes -> bool) returns (r: Result<seq<Entry>, Problem>)
    ensures match NamesOf(payload, utf8)
            case Some(entries) => r == Ok(entries) && entries != []
            case None => r == Err(Status(SFTP_BAD_MESSAGE))
  {
    hide NamesOf;
    var reader := new Reader(payload);
    r := Names(reader, utf8);
  }

  /** What is parsed in all once `entries` have been and `more` is the outcome of the rest. */
  function After(entries: seq<Entry>, more: Parsed<seq<Entry>>): Parsed<seq<Entry>> {
    match more
    case Short => Short
    case Field(last, rest) => Field(entries + last, rest)
  }

  lemma AfterNone(more: Parsed<seq<Entry>>)
    ensures After([], more) == more
  {
    if more.Field? { assert [] + more.value == more.value; }
  }

  lemma AfterOneMore(entries: seq<Entry>, count: nat, b: Bytes, utf8: Bytes -> bool)
    requires count > 0
    ensures match EntryOf(b, utf8)
            case Short => After(entries, EntriesOf(count, b, utf8)) == Short
            case Field(entry, rest) =>
              After(entries, EntriesOf(count, b, utf8)) == After(entries + [entry], EntriesOf(count - 1, rest, utf8))
  {
    match EntryOf(b, utf8)
    case Short =>
    case Field(entry, rest) =>
      match EntriesOf(count - 1, rest, utf8)
      case Short =>
      case Field(more, _) => assert entries + ([entry] + more) == (entries + [entry]) + more;
  }

  /** Parse a whole NAME reply. On any bytes and any claimed count the reader stays inside the
      payload, and the fields it takes are bounded by the payload's length. */
  method Names(reader: Reader, utf8: Bytes -> bool) returns (r: Result<seq<Entry>, Problem>)
    requires reader.Bounded()
    modifies reader
    ensures reader.Stopped()
    ensures match NamesOf(old(reader.Rest()), utf8)
            case Some(entries) => r == Ok(entries) && entries != []
            case None => r == Err(Status(SFTP_BAD_MESSAGE))
  {
    var count := reader.ReadUInt(4);
    if count.Err? { return Err(count.error); }
    if count.value == 0 { return Err(Status(SFTP_BAD_MESSAGE)); }
    r := ReadEntries(reader, count.value, utf8);
  }

  method ReadEntries(reader: Reader, count: nat, utf8: Bytes -> bool) returns (r: Result<seq<Entry>, Problem>)
    requires reader.Bounded()
    modifies reader
    ensures reader.Stopped()
    ensures match EntriesOf(count, old(reader.Rest()), utf8)
            case Field(entries, _) => r == Ok(entries) && |entries| == count
            case Short => r == Err(Status(SFTP_BAD_MESSAGE))
  {
    hide EntryOf;
    ghost var whole := EntriesOf(count, reader.Rest(), utf8);
    var entries: seq<Entry> := [];
    AfterNone(whole);
    for i := 0 to count
      invariant reader.Bounded() && |entries| == i
      invariant whole == After(entries, EntriesOf(count - i, reader.Rest(), utf8))
    {
      AfterOneMore(entries, count - i, reader.Rest(), utf8);
      var entry := reader.ReadEntry(utf8);
      if entry.Err? { return Err(entry.error); }
      entries := entries + [entry.value];
    }
    assert entries + [] == entries;
    r := Ok(entries);
  }

  // ---------------------------------------------------------------- the encoder it undoes

  /** The attributes section 5 of the draft puts on the wire; a part that is None is not sent. */
  datatype WireAttributes = WireAttributes(
    size: Option<nat>,
    owner: Option<(nat, nat)>,
    mode: Option<nat>,
    times: Option<(nat, nat)>,
    extended: Option<seq<(Bytes, Bytes)>>)

  datatype WireEntry = WireEntry(name: Bytes, long: Bytes, attributes: WireAttributes)

  const WORD := 0x1_0000_0000
  const DOUBLE_WORD := 0x1_0000_0000_0000_0000

  predicate PairFits(pair: Option<(nat, nat)>) {
    pair.Some? ==> pair.value.0 < WORD && pair.value.1 < WORD
  }

  predicate AttributesFit(a: WireAttributes) {
    && (a.size.Some? ==> a.size.value < DOUBLE_WORD)
    && PairFits(a.owner)
    && (a.mode.Some? ==> a.mode.value < WORD)
    && PairFits(a.times)
    && (a.extended.Some? ==>
          && |a.extended.value| < WORD
          && forall i :: 0 <= i < |a.extended.value| ==>
               |a.extended.value[i].0| < WORD && |a.extended.value[i].1| < WORD)
  }

  predicate EntryFits(e: WireEntry) {
    |e.name| < WORD && |e.long| < WORD && AttributesFit(e.attributes)
  }

  function Digits(n: nat, width: nat): (b: Bytes)
    ensures |b| == width
  {
    if width == 0 then [] else Digits(n / 256, width - 1) + [n % 256]
  }

  function EncodeString(s: Bytes): Bytes {
    Digits(|s|, 4) + s
  }

  function Bit(present: bool, flag: nat): nat {
    if present then flag else 0
  }

  function FlagsOf(a: WireAttributes): nat {
    Bit(a.size.Some?, FLAG_SIZE) + Bit(a.owner.Some?, FLAG_UIDGID) + Bit(a.mode.Some?, FLAG_PERMISSIONS)
    + Bit(a.times.Some?, FLAG_AMTIME) + Bit(a.extended.Some?, FLAG_EXTENDED)
  }

  function EncodeOptional(n: Option<nat>, width: nat): Bytes {
    if n.Some? then Digits(n.value, width) else []
  }

  function EncodePair(pair: Option<(nat, nat)>): Bytes {
    if pair.Some? then Digits(pair.value.0, 4) + Digits(pair.value.1, 4) else []
  }

  function EncodePairs(pairs: seq<(Bytes, Bytes)>): Bytes {
    if pairs == [] then [] else EncodeString(pairs[0].0) + (EncodeString(pairs[0].1) + EncodePairs(pairs[1..]))
  }

  function EncodeExtended(extended: Option<seq<(Bytes, Bytes)>>): Bytes {
    if extended.Some? then Digits(|extended.value|, 4) + EncodePairs(extended.value) else []
  }

  function EncodeAttributes(a: WireAttributes): Bytes {
    Digits(FlagsOf(a), 4) + (EncodeOptional(a.size, 8) + (EncodePair(a.owner)
    + (EncodeOptional(a.mode, 4) + (EncodePair(a.times) + EncodeExtended(a.extended)))))
  }

  function EncodeEntry(e: WireEntry): Bytes {
    EncodeString(e.name) + (EncodeString(e.long) + EncodeAttributes(e.attributes))
  }

  function EncodeEntries(entries: seq<WireEntry>): Bytes {
    if entries == [] then [] else EncodeEntry(entries[0]) + EncodeEntries(entries[1..])
  }

  function EncodeNames(entries: seq<WireEntry>): Bytes {
    Digits(|entries|, 4) + EncodeEntries(entries)
  }

  /** What the client keeps of a directory entry. */
  function Seen(e: WireEntry, utf8: Bytes -> bool): Entry {
    Entry(Addressable(e.name, utf8), Attributes(e.attributes.size, e.attributes.mode))
  }

  function SeenAll(entries: seq<WireEntry>, utf8: Bytes -> bool): seq<Entry> {
    if entries == [] then [] else [Seen(entries[0], utf8)] + SeenAll(entries[1..], utf8)
  }

  // ---------------------------------------------------------------- parsing undoes encoding

  function Power256(k: nat): nat {
    if k == 0 then 1 else Power256(k - 1) * 256
  }

  lemma {:induction false} DigitsRoundTrip(n: nat, width: nat)
    requires n < Power256(width)
    ensures BigEndian(Digits(n, width)) == n
  {
    if width > 0 {
      DigitsRoundTrip(n / 256, width - 1);
      assert Digits(n, width)[..width - 1] == Digits(n / 256, width - 1);
    }
  }

  lemma UIntUndoesDigits(n: nat, width: nat, rest: Bytes)
    requires n < Power256(width)
    ensures UInt(Digits(n, width) + rest, width) == Field(n, rest)
  {
    DigitsRoundTrip(n, width);
    assert (Digits(n, width) + rest)[..width] == Digits(n, width);
    assert (Digits(n, width) + rest)[width..] == rest;
  }

  lemma Widths()
    ensures Power256(4) == WORD && Power256(8) == DOUBLE_WORD
  {
    assert Power256(3) == 0x100_0000;
    assert Power256(6) == 0x1_0000_0000_0000;
  }

  lemma StringUndoesEncodeString(s: Bytes, rest: Bytes)
    requires |s| < WORD
    ensures String(EncodeString(s) + rest) == Field(s, rest)
  {
    Widths();
    UIntUndoesDigits(|s|, 4, s + rest);
    assert EncodeString(s) + rest == Digits(|s|, 4) + (s + rest);
    assert (s + rest)[..|s|] == s && (s + rest)[|s|..] == rest;
  }

  lemma OptionalUndoesEncode(n: Option<nat>, width: nat, rest: Bytes)
    requires n.Some? ==> n.value < Power256(width)
    ensures OptionalUInt(n.Some?, EncodeOptional(n, width) + rest, width) == Field(n, rest)
  {
    if n.Some? {
      UIntUndoesDigits(n.value, width, rest);
    } else {
      assert [] + rest == rest;
    }
  }

  lemma SkippedUndoesPair(pair: Option<(nat, nat)>, rest: Bytes)
    ensures Skipped(pair.Some?, EncodePair(pair) + rest, 8) == Field((), rest)
  {
    assert (EncodePair(pair) + rest)[|EncodePair(pair)|..] == rest;
  }

  lemma {:induction false} SkippedUndoesPairs(pairs: seq<(Bytes, Bytes)>, rest: Bytes)
    requires forall i :: 0 <= i < |pairs| ==> |pairs[i].0| < WORD && |pairs[i].1| < WORD
    ensures SkippedPairs(|pairs|, EncodePairs(pairs) + rest) == Field((), rest)
  {
    hide String, EncodeString;
    if pairs == [] {
      assert [] + rest == rest;
    } else {
      var tail := EncodePairs(pairs[1..]) + rest;
      assert EncodePairs(pairs) + rest == EncodeString(pairs[0].0) + (EncodeString(pairs[0].1) + tail);
      StringUndoesEncodeString(pairs[0].0, EncodeString(pairs[0].1) + tail);
      StringUndoesEncodeString(pairs[0].1, tail);
      SkippedUndoesPairs(pairs[1..], rest);
    }
  }

  lemma ExtensionsUndoesEncode(extended: Option<seq<(Bytes, Bytes)>>, rest: Bytes)
    requires extended.Some? ==>
               && |extended.value| < WORD
               && forall i :: 0 <= i < |extended.value| ==>
                    |extended.value[i].0| < WORD && |extended.value[i].1| < WORD
    ensures Extensions(extended.Some?, EncodeExtended(extended) + rest) == Field((), rest)
  {
    if extended.Some? {
      var tail := EncodePairs(extended.value) + rest;
      Widths();
      assert EncodeExtended(extended) + rest == Digits(|extended.value|, 4) + tail;
      UIntUndoesDigits(|extended.value|, 4, tail);
      SkippedUndoesPairs(extended.value, rest);
    } else {
      assert [] + rest == rest;
    }
  }

  lemma FlagsRoundTrip(a: WireAttributes)
    ensures FlagsOf(a) < WORD
    ensures HasFlag(FlagsOf(a), FLAG_SIZE) == a.size.Some?
    ensures HasFlag(FlagsOf(a), FLAG_UIDGID) == a.owner.Some?
    ensures HasFlag(FlagsOf(a), FLAG_PERMISSIONS) == a.mode.Some?
    ensures HasFlag(FlagsOf(a), FLAG_AMTIME) == a.times.Some?
    ensures HasFlag(FlagsOf(a), FLAG_EXTENDED) == a.extended.Some?
  {
  }

  lemma AttributesUndoesEncode(a: WireAttributes, rest: Bytes)
    requires AttributesFit(a)
    ensures AttributesOf(EncodeAttributes(a) + rest) == Field(Attributes(a.size, a.mode), rest)
  {
    hide UInt, OptionalUInt, Skipped, Extensions, HasFlag, FlagsOf, Digits;
    hide EncodeOptional, EncodePair, EncodeExtended;
    var r4 := EncodeExtended(a.extended) + rest;
    var r3 := EncodePair(a.times) + r4;
    var r2 := EncodeOptional(a.mode, 4) + r3;
    var r1 := EncodePair(a.owner) + r2;
    var r0 := EncodeOptional(a.size, 8) + r1;
    assert EncodeAttributes(a) + rest == Digits(FlagsOf(a), 4) + r0;
    Widths();
    FlagsRoundTrip(a);
    UIntUndoesDigits(FlagsOf(a), 4, r0);
    OptionalUndoesEncode(a.size, 8, r1);
    SkippedUndoesPair(a.owner, r2);
    OptionalUndoesEncode(a.mode, 4, r3);
    SkippedUndoesPair(a.times, r4);
    ExtensionsUndoesEncode(a.extended, rest);
  }

  lemma EntryUndoesEncode(e: WireEntry, rest: Bytes, utf8: Bytes -> bool)
    requires EntryFits(e)
    ensures EntryOf(EncodeEntry(e) + rest, utf8) == Field(Seen(e, utf8), rest)
  {
    var r1 := EncodeAttributes(e.attributes) + rest;
    var r0 := EncodeString(e.long) + r1;
    assert EncodeEntry(e) + rest == EncodeString(e.name) + r0;
    StringUndoesEncodeString(e.name, r0);
    StringUndoesEncodeString(e.long, r1);
    AttributesUndoesEncode(e.attributes, rest);
  }

  lemma {:induction false} EntriesUndoEncode(entries: seq<WireEntry>, rest: Bytes, utf8: Bytes -> bool)
    requires forall i :: 0 <= i < |entries| ==> EntryFits(entries[i])
    ensures EntriesOf(|entries|, EncodeEntries(entries) + rest, utf8)
            == Field(SeenAll(entries, utf8), rest)
  {
    hide EntryOf, EncodeEntry, EntryFits, Seen;
    if entries == [] {
      assert [] + rest == rest;
    } else {
      var tail := EncodeEntries(entries[1..]) + rest;
      assert EncodeEntries(entries) + rest == EncodeEntry(entries[0]) + tail;
      EntryUndoesEncode(entries[0], tail, utf8);
      EntriesUndoEncode(entries[1..], rest, utf8);
    }
  }

  lemma {:induction false} SeenAllAt(entries: seq<WireEntry>, utf8: Bytes -> bool)
    ensures |SeenAll(entries, utf8)| == |entries|
    ensures forall i :: 0 <= i < |entries| ==> SeenAll(entries, utf8)[i] == Seen(entries[i], utf8)
  {
    hide Seen;
    if entries != [] {
      SeenAllAt(entries[1..], utf8);
    }
  }

  /** The API addresses a name by its text; "." and ".." it does not address at all. */
  predicate IsAddressed(name: Option<Bytes>, raw: Bytes, utf8: Bytes -> bool) {
    if !utf8(raw) || raw in {[46], [46, 46]} then name == None else name == Some(raw)
  }

  /** Parsing a NAME reply undoes the encoding of its entries, one by one; only the names that the API
      cannot address are lost. */
  lemma NamesUndoEncode(entries: seq<WireEntry>, utf8: Bytes -> bool)
    requires 0 < |entries| < WORD
    requires forall i :: 0 <= i < |entries| ==> EntryFits(entries[i])
    ensures var names := NamesOf(EncodeNames(entries), utf8);
            && names.Some? && |names.value| == |entries|
            && forall i :: 0 <= i < |entries| ==>
                 && IsAddressed(names.value[i].name, entries[i].name, utf8)
                 && names.value[i].attributes == Attributes(entries[i].attributes.size, entries[i].attributes.mode)
  {
    hide EntriesOf, EncodeEntries, EntryFits, SeenAll, UInt, Digits;
    Widths();
    UIntUndoesDigits(|entries|, 4, EncodeEntries(entries));
    EntriesUndoEncode(entries, [], utf8);
    assert EncodeEntries(entries) + [] == EncodeEntries(entries);
    SeenAllAt(entries, utf8);
  }
}
