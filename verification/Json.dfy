/** The recursive JSON decoder (RFC 8259), by position in its text, with how deep it recursed. */
module Json {
  import opened Common

  /** Strings and numbers keep their source text; members keep their order and repetitions. */
  datatype Value =
    | Null
    | Boolean(truth: bool)
    | Number(raw: string)
    | Text(raw: string)
    | Array(items: seq<Value>)
    | Object(members: seq<Member>)

  datatype Member = Member(name: string, value: Value)

  /** What a parse returned and where it ended, or that it failed; either way, how many containers
      deep it went. */
  datatype Parse<T> = Parsed(value: T, end: nat, depth: nat) | Failed(depth: nat)

  predicate IsSpace(c: char) {
    c in [' ', '\t', '\n', '\r']
  }

  predicate IsDigit(c: char) {
    '0' <= c <= '9'
  }

  predicate IsHex(c: char) {
    IsDigit(c) || 'a' <= c <= 'f' || 'A' <= c <= 'F'
  }

  predicate At(text: string, i: nat, c: char) {
    i < |text| && text[i] == c
  }

  function Skip(text: string, i: nat): (r: nat)
    ensures i <= r && (i <= |text| ==> r <= |text|)
    ensures r < |text| ==> !IsSpace(text[r])
    decreases |text| - i
  {
    if i < |text| && IsSpace(text[i]) then Skip(text, i + 1) else i
  }

  // ---------------------------------------------------------------- scalars

  /** The end of the escape whose backslash is at `i`. */
  function EscapeEnd(text: string, i: nat): (r: nat)
    ensures r == 0 || i + 2 <= r <= |text|
  {
    if i + 1 >= |text| then 0
    else if text[i + 1] in ['"', '\\', '/', 'b', 'f', 'n', 'r', 't'] then i + 2
    else if text[i + 1] == 'u' && i + 6 <= |text| && (forall k :: i + 2 <= k < i + 6 ==> IsHex(text[k])) then i + 6
    else 0
  }

  /** The position after the quote that closes the string whose content begins at `i`, or 0. */
  function StringEnd(text: string, i: nat): (r: nat)
    ensures r == 0 || i < r <= |text|
    decreases |text| - i
  {
    if i >= |text| then 0
    else if text[i] == '"' then i + 1
    else if text[i] < ' ' then 0
    else if text[i] == '\\' then
      var next := EscapeEnd(text, i);
      if next == 0 then 0 else StringEnd(text, next)
    else StringEnd(text, i + 1)
  }

  function DigitsEnd(text: string, i: nat): (r: nat)
    requires i <= |text|
    ensures i <= r <= |text| && (r < |text| ==> !IsDigit(text[r]))
    ensures forall k :: i <= k < r ==> IsDigit(text[k])
    decreases |text| - i
  {
    if i < |text| && IsDigit(text[i]) then DigitsEnd(text, i + 1) else i
  }

  /** The end of the integer part of a number at `i`, or 0. */
  function IntegerEnd(text: string, i: nat): (r: nat)
    ensures r == 0 || i < r <= |text|
  {
    var j := if At(text, i, '-') then i + 1 else i;
    if j >= |text| || !IsDigit(text[j]) then 0
    else if text[j] == '0' then j + 1
    else DigitsEnd(text, j)
  }

  function FractionEnd(text: string, i: nat): (r: nat)
    requires i <= |text|
    ensures i <= r <= |text|
  {
    if At(text, i, '.') && i + 1 < |text| && IsDigit(text[i + 1]) then DigitsEnd(text, i + 1) else i
  }

  function ExponentEnd(text: string, i: nat): (r: nat)
    requires i <= |text|
    ensures i <= r <= |text|
  {
    if At(text, i, 'e') || At(text, i, 'E') then
      var j := if At(text, i + 1, '+') || At(text, i + 1, '-') then i + 2 else i + 1;
      if j < |text| && IsDigit(text[j]) then DigitsEnd(text, j) else i
    else i
  }

  function NumberEnd(text: string, i: nat): (r: nat)
    ensures r == 0 || i < r <= |text|
  {
    var whole := IntegerEnd(text, i);
    if whole == 0 then 0 else ExponentEnd(text, FractionEnd(text, whole))
  }

  function LiteralAt(text: string, i: nat, literal: string, value: Value): (r: Parse<Value>)
    requires literal != [] && (value.Null? || value.Boolean?)
    ensures r.Parsed? ==> i < r.end <= |text| && r.value == value
    ensures r.depth == 0
  {
    if i + |literal| <= |text| && text[i..i + |literal|] == literal
    then Parsed(value, i + |literal|, 0)
    else Failed(0)
  }

  function ScalarAt(text: string, i: nat, readable: string -> bool): (r: Parse<Value>)
    ensures r.Parsed? ==> i < r.end <= |text| && !r.value.Array? && !r.value.Object?
    ensures r.depth == 0
  {
    if At(text, i, '"') then
      var end := StringEnd(text, i + 1);
      if end == 0 then Failed(0) else Parsed(Text(text[i..end]), end, 0)
    else if At(text, i, 'n') then LiteralAt(text, i, "null", Null)
    else if At(text, i, 't') then LiteralAt(text, i, "true", Boolean(true))
    else if At(text, i, 'f') then LiteralAt(text, i, "false", Boolean(false))
    else
      // NaN and the infinities are refused like any other text that is no number
      var end := NumberEnd(text, i);
      if end == 0 || !readable(text[i..end]) then Failed(0) else Parsed(Number(text[i..end]), end, 0)
  }

  // ---------------------------------------------------------------- containers

  /** The value that begins at `i`, which is not a space. */
  function ValueAt(text: string, i: nat, readable: string -> bool): (r: Parse<Value>)
    ensures r.Parsed? ==> i < r.end <= |text|
    decreases |text| - i, 1
  {
    if At(text, i, '[') then
      var j := Skip(text, i + 1);
      if At(text, j, ']') then Parsed(Array([]), j + 1, 1)
      else
        match ItemsAt(text, j, readable)
        case Failed(depth) => Failed(depth + 1)
        case Parsed(items, end, depth) => Parsed(Array(items), end, depth + 1)
    else if At(text, i, '{') then
      var j := Skip(text, i + 1);
      if At(text, j, '}') then Parsed(Object([]), j + 1, 1)
      else
        match MembersAt(text, j, readable)
        case Failed(depth) => Failed(depth + 1)
        case Parsed(members, end, depth) => Parsed(Object(members), end, depth + 1)
    else ScalarAt(text, i, readable)
  }

  /** The items from the one that begins at `i`, with the bracket that closes them. */
  function ItemsAt(text: string, i: nat, readable: string -> bool): (r: Parse<seq<Value>>)
    ensures r.Parsed? ==> i < r.end <= |text| && r.value != []
    decreases |text| - i, 2
  {
    match ValueAt(text, i, readable)
    case Failed(depth) => Failed(depth)
    case Parsed(item, end, depth) =>
      var j := Skip(text, end);
      if At(text, j, ']') then Parsed([item], j + 1, depth)
      else if At(text, j, ',') then
        match ItemsAt(text, Skip(text, j + 1), readable)
        case Failed(more) => Failed(Max(depth, more))
        case Parsed(rest, stop, more) => Parsed([item] + rest, stop, Max(depth, more))
      else Failed(depth)
  }

  /** The name of a member and its colon; the end is where the member's value begins. */
  function NameAt(text: string, i: nat): (r: Parse<string>)
    ensures r.Parsed? ==> i < r.end <= |text|
    ensures r.depth == 0
  {
    var named := if At(text, i, '"') then StringEnd(text, i + 1) else 0;
    if named == 0 || !At(text, Skip(text, named), ':') then Failed(0)
    else Parsed(text[i..named], Skip(text, Skip(text, named) + 1), 0)
  }

  /** The members from the one whose name begins at `i`, with the brace that closes them. */
  function MembersAt(text: string, i: nat, readable: string -> bool): (r: Parse<seq<Member>>)
    ensures r.Parsed? ==> i < r.end <= |text| && r.value != []
    decreases |text| - i, 2
  {
    var name := NameAt(text, i);
    if name.Failed? then Failed(0)
    else
      match ValueAt(text, name.end, readable)
      case Failed(depth) => Failed(depth)
      case Parsed(item, end, depth) =>
        var j := Skip(text, end);
        if At(text, j, '}') then Parsed([Member(name.value, item)], j + 1, depth)
        else if At(text, j, ',') then
          match MembersAt(text, Skip(text, j + 1), readable)
          case Failed(more) => Failed(Max(depth, more))
          case Parsed(rest, stop, more) => Parsed([Member(name.value, item)] + rest, stop, Max(depth, more))
        else Failed(depth)
  }

  /** A whole document: one value, and nothing but spaces around it. */
  function Document(text: string, readable: string -> bool): (r: Parse<Value>) {
    match ValueAt(text, Skip(text, 0), readable)
    case Failed(depth) => Failed(depth)
    case Parsed(value, end, depth) => if Skip(text, end) == |text| then Parsed(value, end, depth) else Failed(depth)
  }

  // ---------------------------------------------------------------- what a parse depends on

  /** The two texts are the same as far as `n`; one may be the other one cut short. */
  predicate Agree(a: string, b: string, n: nat) {
    n <= |a| && n <= |b| && a[..n] == b[..n]
  }

  lemma AgreeAt(a: string, b: string, n: nat)
    requires Agree(a, b, n)
    ensures n <= |a| && n <= |b| && forall k :: 0 <= k < n ==> a[k] == b[k]
  {
    assert forall k :: 0 <= k < n ==> a[k] == a[..n][k] && b[k] == b[..n][k];
  }

  /** The text goes on before `n` with something that no number contains. */
  predicate Delimited(text: string, i: nat, n: nat) {
    i < n <= |text| && (IsSpace(text[i]) || text[i] in [',', ']', '}'])
  }

  lemma {:induction false} SkipIsLocal(a: string, b: string, n: nat, i: nat)
    requires Agree(a, b, n) && Skip(a, i) < n
    ensures Skip(b, i) == Skip(a, i) && a[Skip(a, i)] == b[Skip(b, i)]
    decreases |a| - i
  {
    AgreeAt(a, b, n);
    if IsSpace(a[i]) {
      SkipIsLocal(a, b, n, i + 1);
    }
  }

  lemma {:induction false} StringIsLocal(a: string, b: string, n: nat, i: nat)
    requires Agree(a, b, n) && 0 < StringEnd(a, i) <= n
    ensures StringEnd(b, i) == StringEnd(a, i)
    decreases |a| - i
  {
    AgreeAt(a, b, n);
    if a[i] == '\\' {
      StringIsLocal(a, b, n, EscapeEnd(a, i));
    } else if a[i] != '"' {
      StringIsLocal(a, b, n, i + 1);
    }
  }

  lemma {:induction false} DigitsAreLocal(a: string, b: string, n: nat, i: nat)
    requires Agree(a, b, n) && i <= |a| && i <= |b| && DigitsEnd(a, i) < n
    ensures DigitsEnd(b, i) == DigitsEnd(a, i)
    decreases |a| - i
  {
    AgreeAt(a, b, n);
    if IsDigit(a[i]) {
      DigitsAreLocal(a, b, n, i + 1);
    }
  }

  lemma IntegerIsLocal(a: string, b: string, n: nat, i: nat)
    requires Agree(a, b, n) && 0 < IntegerEnd(a, i) < n
    ensures IntegerEnd(b, i) == IntegerEnd(a, i)
  {
    AgreeAt(a, b, n);
    var j := if At(a, i, '-') then i + 1 else i;
    if a[j] != '0' {
      DigitsAreLocal(a, b, n, j);
    }
  }

  lemma FractionIsLocal(a: string, b: string, n: nat, i: nat)
    requires Agree(a, b, n) && i < n && FractionEnd(a, i) < n && (FractionEnd(a, i) == i ==> a[i] != '.')
    ensures FractionEnd(b, i) == FractionEnd(a, i)
  {
    AgreeAt(a, b, n);
    if FractionEnd(a, i) != i {
      DigitsAreLocal(a, b, n, i + 1);
    }
  }

  lemma ExponentIsLocal(a: string, b: string, n: nat, i: nat)
    requires Agree(a, b, n) && i < n && ExponentEnd(a, i) < n && (ExponentEnd(a, i) == i ==> a[i] !in ['e', 'E'])
    ensures ExponentEnd(b, i) == ExponentEnd(a, i)
  {
    AgreeAt(a, b, n);
    if ExponentEnd(a, i) != i {
      DigitsAreLocal(a, b, n, if At(a, i + 1, '+') || At(a, i + 1, '-') then i + 2 else i + 1);
    }
  }

  lemma NumberIsLocal(a: string, b: string, n: nat, i: nat)
    requires Agree(a, b, n) && NumberEnd(a, i) != 0 && Delimited(a, NumberEnd(a, i), n)
    ensures NumberEnd(b, i) == NumberEnd(a, i)
  {
    hide IntegerEnd;
    var whole := IntegerEnd(a, i);
    assert FractionEnd(a, whole) == whole ==> a[whole] != '.';
    IntegerIsLocal(a, b, n, i);
    FractionIsLocal(a, b, n, whole);
    ExponentIsLocal(a, b, n, FractionEnd(a, whole));
  }

  lemma SliceIsLocal(a: string, b: string, n: nat, i: nat, end: nat)
    requires Agree(a, b, n) && i <= end <= n
    ensures a[i..end] == b[i..end]
  {
    AgreeAt(a, b, n);
  }

  lemma ScalarIsLocal(a: string, b: string, n: nat, i: nat, readable: string -> bool)
    requires Agree(a, b, n) && ScalarAt(a, i, readable).Parsed? && ScalarAt(a, i, readable).end <= n
    requires ScalarAt(a, i, readable).value.Number? ==> Delimited(a, ScalarAt(a, i, readable).end, n)
    ensures ScalarAt(b, i, readable) == ScalarAt(a, i, readable)
  {
    hide NumberEnd, StringEnd;
    AgreeAt(a, b, n);
    SliceIsLocal(a, b, n, i, ScalarAt(a, i, readable).end);
    if At(a, i, '"') {
      StringIsLocal(a, b, n, i + 1);
    } else if !(At(a, i, 'n') || At(a, i, 't') || At(a, i, 'f')) {
      NumberIsLocal(a, b, n, i);
    }
  }

  /** A complete value decodes identically in every text that agrees as far as its end, unless it is
      a number that the other text could continue. */
  lemma {:induction false} ValueIsLocal(a: string, b: string, n: nat, i: nat, readable: string -> bool)
    requires Agree(a, b, n) && ValueAt(a, i, readable).Parsed? && ValueAt(a, i, readable).end <= n
    requires ValueAt(a, i, readable).value.Number? ==> Delimited(a, ValueAt(a, i, readable).end, n)
    ensures ValueAt(b, i, readable) == ValueAt(a, i, readable)
    decreases |a| - i, 1
  {
    hide ScalarAt, Agree, Delimited, Skip, ItemsAt, MembersAt;
    AgreeAt(a, b, n);
    if At(a, i, '[') {
      SkipIsLocal(a, b, n, i + 1);
      if !At(a, Skip(a, i + 1), ']') {
        ItemsAreLocal(a, b, n, Skip(a, i + 1), readable);
      }
    } else if At(a, i, '{') {
      SkipIsLocal(a, b, n, i + 1);
      if !At(a, Skip(a, i + 1), '}') {
        MembersAreLocal(a, b, n, Skip(a, i + 1), readable);
      }
    } else {
      ScalarIsLocal(a, b, n, i, readable);
    }
  }

  /** What ends before a delimiter that the decoder has seen ends there for good. */
  lemma DelimitedBy(a: string, b: string, n: nat, end: nat)
    requires Agree(a, b, n) && Skip(a, end) < n && a[Skip(a, end)] in [',', ']', '}']
    ensures Delimited(a, end, n)
    ensures Skip(b, end) == Skip(a, end) && a[Skip(a, end)] == b[Skip(b, end)]
  {
    SkipIsLocal(a, b, n, end);
  }

  lemma {:induction false} ItemsAreLocal(a: string, b: string, n: nat, i: nat, readable: string -> bool)
    requires Agree(a, b, n) && ItemsAt(a, i, readable).Parsed? && ItemsAt(a, i, readable).end <= n
    ensures ItemsAt(b, i, readable) == ItemsAt(a, i, readable)
    decreases |a| - i, 2
  {
    hide Delimited, Skip, ValueAt, Agree;
    assert n <= |a| && n <= |b| by { AgreeAt(a, b, n); }
    var end := ValueAt(a, i, readable).end;
    DelimitedBy(a, b, n, end);
    ValueIsLocal(a, b, n, i, readable);
    var j := Skip(a, end);
    if At(a, j, ',') {
      SkipIsLocal(a, b, n, j + 1);
      ItemsAreLocal(a, b, n, Skip(a, j + 1), readable);
    }
  }

  lemma NameIsLocal(a: string, b: string, n: nat, i: nat)
    requires Agree(a, b, n) && NameAt(a, i).Parsed? && NameAt(a, i).end < n
    ensures NameAt(b, i) == NameAt(a, i)
  {
    hide StringEnd;
    AgreeAt(a, b, n);
    var named := StringEnd(a, i + 1);
    StringIsLocal(a, b, n, i + 1);
    SliceIsLocal(a, b, n, i, named);
    SkipIsLocal(a, b, n, named);
    SkipIsLocal(a, b, n, Skip(a, named) + 1);
  }

  lemma {:induction false} MembersAreLocal(a: string, b: string, n: nat, i: nat, readable: string -> bool)
    requires Agree(a, b, n) && MembersAt(a, i, readable).Parsed? && MembersAt(a, i, readable).end <= n
    ensures MembersAt(b, i, readable) == MembersAt(a, i, readable)
    decreases |a| - i, 2
  {
    hide Delimited, Skip, ValueAt, NameAt, Agree;
    assert n <= |a| && n <= |b| by { AgreeAt(a, b, n); }
    var start := NameAt(a, i).end;
    var end := ValueAt(a, start, readable).end;
    DelimitedBy(a, b, n, end);
    NameIsLocal(a, b, n, i);
    ValueIsLocal(a, b, n, start, readable);
    var j := Skip(a, end);
    if At(a, j, ',') {
      SkipIsLocal(a, b, n, j + 1);
      MembersAreLocal(a, b, n, Skip(a, j + 1), readable);
    }
  }
}
