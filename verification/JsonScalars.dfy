/** The strings and numbers of sections 6 and 7 of RFC 8259, and that the decoder reads exactly these. */
module JsonScalars {
  import opened Common
  import opened Json
  import opened Slices

  // ---------------------------------------------------------------- strings

  predicate IsDecimal(c: char) {
    c in {'0', '1', '2', '3', '4', '5', '6', '7', '8', '9'}
  }

  predicate IsHexadecimal(c: char) {
    IsDecimal(c) || c in {'a', 'b', 'c', 'd', 'e', 'f', 'A', 'B', 'C', 'D', 'E', 'F'}
  }

  /** What a string is made of: a character as it is, a short escape, or four hexadecimal digits. */
  datatype Unit = Plain(c: char) | Escaped(c: char) | Coded(digits: string)

  predicate IsUnit(unit: Unit) {
    match unit
    case Plain(c) => c >= '\U{0020}' && c != '"' && c != '\\'
    case Escaped(c) => c in {'"', '\\', '/', 'b', 'f', 'n', 'r', 't'}
    case Coded(digits) => |digits| == 4 && forall k :: 0 <= k < 4 ==> IsHexadecimal(digits[k])
  }

  predicate AreUnits(units: seq<Unit>) {
    forall k :: 0 <= k < |units| ==> IsUnit(units[k])
  }

  function UnitText(unit: Unit): string {
    match unit
    case Plain(c) => [c]
    case Escaped(c) => ['\\', c]
    case Coded(digits) => ['\\', 'u'] + digits
  }

  function UnitsText(units: seq<Unit>): string {
    if units == [] then [] else UnitText(units[0]) + UnitsText(units[1..])
  }

  function StringText(units: seq<Unit>): string {
    ['"'] + (UnitsText(units) + ['"'])
  }

  ghost predicate IsString(raw: string) {
    exists units :: AreUnits(units) && raw == StringText(units)
  }

  lemma HexDigits(c: char)
    ensures IsHex(c) <==> IsHexadecimal(c)
  {
  }

  lemma UnitReads(text: string, i: nat, unit: Unit)
    requires IsUnit(unit) && Holds(text, i, UnitText(unit))
    ensures StringEnd(text, i) == StringEnd(text, i + |UnitText(unit)|)
  {
    hide EscapeEnd;
    HoldsAt(text, i, UnitText(unit));
    assert text[i + 0] == UnitText(unit)[0];
    if !unit.Plain? {
      EscapesAreRead(text, i, unit);
    }
  }

  lemma EscapesAreRead(text: string, i: nat, unit: Unit)
    requires IsUnit(unit) && !unit.Plain? && Holds(text, i, UnitText(unit))
    ensures EscapeEnd(text, i) == i + |UnitText(unit)|
  {
    HoldsAt(text, i, UnitText(unit));
    assert text[i + 1] == UnitText(unit)[1];
    if unit.Coded? {
      forall k | i + 2 <= k < i + 6
        ensures IsHex(text[k])
      {
        assert text[i + (k - i)] == UnitText(unit)[k - i] == unit.digits[k - i - 2];
        HexDigits(text[k]);
      }
    }
  }

  lemma {:induction false} UnitsRead(text: string, i: nat, units: seq<Unit>)
    requires AreUnits(units) && Holds(text, i, UnitsText(units) + ['"'])
    ensures StringEnd(text, i) == i + |UnitsText(units)| + 1
    decreases |units|
  {
    hide UnitText;
    if units == [] {
      HoldsAt(text, i, ['"']);
      assert UnitsText(units) + ['"'] == ['"'] && text[i + 0] == '"';
    } else {
      var first, rest := UnitText(units[0]), UnitsText(units[1..]) + ['"'];
      assert UnitsText(units) + ['"'] == first + rest;
      HoldsParts(text, i, first, rest);
      UnitReads(text, i, units[0]);
      UnitsRead(text, i + |first|, units[1..]);
    }
  }

  /** Every string of the grammar is read to its end, wherever it stands. */
  lemma StringsAreRead(text: string, i: nat, raw: string)
    requires IsString(raw) && Holds(text, i, raw)
    ensures |raw| > 1 && At(text, i, '"') && StringEnd(text, i + 1) == i + |raw| && text[i..i + |raw|] == raw
  {
    hide UnitsText, StringEnd, AreUnits;
    var units :| AreUnits(units) && raw == StringText(units);
    HoldsParts(text, i, ['"'], UnitsText(units) + ['"']);
    assert text[i] == text[i..i + 1][0];
    UnitsRead(text, i + 1, units);
  }

  /** The unit that begins at `i`, in a string that is read. */
  lemma ReadUnit(text: string, i: nat) returns (unit: Unit)
    requires StringEnd(text, i) != 0 && text[i] != '"'
    ensures IsUnit(unit) && Holds(text, i, UnitText(unit)) && UnitText(unit) != []
    ensures StringEnd(text, i) == StringEnd(text, i + |UnitText(unit)|)
  {
    if text[i] != '\\' {
      unit := Plain(text[i]);
      assert text[i..i + 1] == [text[i]];
    } else if text[i + 1] == 'u' {
      unit := Coded(text[i + 2..i + 6]);
      forall k | 0 <= k < 4
        ensures IsHexadecimal(unit.digits[k])
      {
        assert unit.digits[k] == text[i + 2 + k];
        HexDigits(text[i + 2 + k]);
      }
      assert text[i..i + 6] == ['\\', 'u'] + text[i + 2..i + 6];
    } else {
      unit := Escaped(text[i + 1]);
      assert text[i..i + 2] == ['\\', text[i + 1]];
    }
  }

  lemma {:induction false} ReadUnits(text: string, i: nat) returns (units: seq<Unit>)
    requires StringEnd(text, i) != 0
    ensures AreUnits(units) && text[i..StringEnd(text, i)] == UnitsText(units) + ['"']
    decreases |text| - i
  {
    hide EscapeEnd, UnitText, IsUnit;
    if text[i] == '"' {
      units := [];
      assert text[i..i + 1] == ['"'];
    } else {
      var unit := ReadUnit(text, i);
      var next, end := i + |UnitText(unit)|, StringEnd(text, i);
      var rest := ReadUnits(text, next);
      units := [unit] + rest;
      assert units[1..] == rest;
      assert text[i..end] == text[i..next] + text[next..end];
    }
  }

  /** And nothing else is read as a string. */
  lemma ReadStringsAreStrings(text: string, i: nat)
    requires At(text, i, '"') && StringEnd(text, i + 1) != 0
    ensures IsString(text[i..StringEnd(text, i + 1)])
  {
    var units := ReadUnits(text, i + 1);
    var end := StringEnd(text, i + 1);
    assert text[i..end] == [text[i]] + text[i + 1..end];
    assert text[i..end] == StringText(units);
  }

  // ---------------------------------------------------------------- numbers

  datatype Exponent = Exponent(mark: char, sign: string, digits: string)

  datatype Numeral = Numeral(minus: bool, whole: string, fraction: Option<string>, exponent: Option<Exponent>)

  predicate AreDigits(text: string) {
    text != [] && forall k :: 0 <= k < |text| ==> IsDecimal(text[k])
  }

  predicate IsExponent(exponent: Exponent) {
    exponent.mark in {'e', 'E'} && exponent.sign in {"", "+", "-"} && AreDigits(exponent.digits)
  }

  /** No leading zero, and digits wherever there is a point or an exponent. */
  predicate IsNumeral(n: Numeral) {
    && AreDigits(n.whole) && (|n.whole| > 1 ==> n.whole[0] != '0')
    && (n.fraction.Some? ==> AreDigits(n.fraction.value))
    && (n.exponent.Some? ==> IsExponent(n.exponent.value))
  }

  function WholeText(n: Numeral): string {
    (if n.minus then ['-'] else []) + n.whole
  }

  function FractionText(fraction: Option<string>): string {
    if fraction.Some? then ['.'] + fraction.value else []
  }

  function ExponentText(exponent: Option<Exponent>): string {
    if exponent.Some? then [exponent.value.mark] + (exponent.value.sign + exponent.value.digits) else []
  }

  function NumeralText(n: Numeral): string {
    WholeText(n) + (FractionText(n.fraction) + ExponentText(n.exponent))
  }

  ghost predicate IsNumber(raw: string) {
    exists n :: IsNumeral(n) && raw == NumeralText(n)
  }

  lemma DecimalDigits(c: char)
    ensures IsDigit(c) <==> IsDecimal(c)
  {
  }

  /** No number goes on at `i`. */
  predicate Stops(text: string, i: nat) {
    i == |text| || Delimited(text, i, |text|)
  }

  /** No digit, point or exponent at `i`. */
  predicate EndsDigits(text: string, i: nat) {
    i <= |text| && (i < |text| ==> !IsDecimal(text[i]))
  }

  lemma {:induction false} DigitsAreRead(text: string, i: nat, digits: string)
    requires Holds(text, i, digits) && EndsDigits(text, i + |digits|)
    requires forall k :: 0 <= k < |digits| ==> IsDecimal(digits[k])
    ensures DigitsEnd(text, i) == i + |digits|
    decreases |digits|
  {
    HoldsAt(text, i, digits);
    if digits == [] {
      if i < |text| {
        DecimalDigits(text[i]);
      }
    } else {
      assert text[i + 0] == digits[0];
      DecimalDigits(text[i]);
      HoldsParts(text, i, [digits[0]], digits[1..]);
      assert [digits[0]] + digits[1..] == digits;
      DigitsAreRead(text, i + 1, digits[1..]);
    }
  }

  lemma WholeIsRead(text: string, i: nat, n: Numeral)
    requires IsNumeral(n) && Holds(text, i, WholeText(n)) && EndsDigits(text, i + |WholeText(n)|)
    ensures IntegerEnd(text, i) == i + |WholeText(n)|
    ensures i < |text| && (text[i] == '-' || IsDecimal(text[i]))
  {
    var sign: string := if n.minus then ['-'] else [];
    HoldsParts(text, i, sign, n.whole);
    HoldsAt(text, i, sign);
    HoldsAt(text, i + |sign|, n.whole);
    assert text[i + |sign| + 0] == n.whole[0];
    DecimalDigits(n.whole[0]);
    if n.minus {
      assert text[i + 0] == sign[0];
    }
    DigitsAreRead(text, i + |sign|, n.whole);
  }

  lemma FractionIsRead(text: string, i: nat, fraction: Option<string>)
    requires fraction.Some? ==> AreDigits(fraction.value)
    requires Holds(text, i, FractionText(fraction)) && EndsDigits(text, i + |FractionText(fraction)|)
    requires fraction.None? ==> !At(text, i, '.')
    ensures FractionEnd(text, i) == i + |FractionText(fraction)|
  {
    if fraction.Some? {
      HoldsParts(text, i, ['.'], fraction.value);
      HoldsAt(text, i, ['.']);
      HoldsAt(text, i + 1, fraction.value);
      assert text[i + 0] == '.' && text[i + 1 + 0] == fraction.value[0];
      DecimalDigits(text[i + 1]);
      DigitsAreRead(text, i + 1, fraction.value);
    }
  }

  /** Where the parts of an exponent are. */
  lemma ExponentLies(text: string, i: nat, e: Exponent)
    requires IsExponent(e) && Holds(text, i, [e.mark] + (e.sign + e.digits))
    ensures var j := i + 1 + |e.sign|;
            && At(text, i, e.mark) && Holds(text, j, e.digits) && j < |text| && IsDigit(text[j])
            && (e.sign == "" ==> i + 1 == j) && (e.sign != "" ==> At(text, i + 1, e.sign[0]) && j == i + 2)
  {
    HoldsParts(text, i, [e.mark], e.sign + e.digits);
    HoldsParts(text, i + 1, e.sign, e.digits);
    HoldsAt(text, i, [e.mark]);
    HoldsAt(text, i + 1, e.sign);
    HoldsAt(text, i + 1 + |e.sign|, e.digits);
    assert text[i + 0] == e.mark && text[i + 1 + |e.sign| + 0] == e.digits[0];
    DecimalDigits(e.digits[0]);
    if e.sign != "" {
      assert text[i + 1 + 0] == e.sign[0];
    }
  }

  lemma ExponentIsRead(text: string, i: nat, exponent: Option<Exponent>)
    requires exponent.Some? ==> IsExponent(exponent.value)
    requires Holds(text, i, ExponentText(exponent)) && EndsDigits(text, i + |ExponentText(exponent)|)
    requires exponent.None? ==> !At(text, i, 'e') && !At(text, i, 'E')
    ensures ExponentEnd(text, i) == i + |ExponentText(exponent)|
  {
    hide Holds, EndsDigits;
    if exponent.Some? {
      var e := exponent.value;
      ExponentLies(text, i, e);
      DigitsAreRead(text, i + 1 + |e.sign|, e.digits);
    }
  }

  /** What stands behind the parts of a number: its other parts, or where it stops. */
  lemma PartsFollow(text: string, i: nat, n: Numeral)
    requires IsNumeral(n) && Holds(text, i, FractionText(n.fraction) + ExponentText(n.exponent))
    requires Stops(text, i + |FractionText(n.fraction)| + |ExponentText(n.exponent)|)
    ensures Holds(text, i, FractionText(n.fraction))
    ensures Holds(text, i + |FractionText(n.fraction)|, ExponentText(n.exponent))
    ensures EndsDigits(text, i) && (n.fraction.None? ==> !At(text, i, '.'))
    ensures var j := i + |FractionText(n.fraction)|;
            EndsDigits(text, j) && (n.exponent.None? ==> !At(text, j, 'e') && !At(text, j, 'E'))
    ensures EndsDigits(text, i + |FractionText(n.fraction)| + |ExponentText(n.exponent)|)
  {
    hide Holds, IsNumeral, EndsDigits, FractionText, ExponentText, Stops;
    HoldsParts(text, i, FractionText(n.fraction), ExponentText(n.exponent));
    NumeralParts(n);
    var j := i + |FractionText(n.fraction)|;
    StopsDigits(text, j + |ExponentText(n.exponent)|);
    ExponentBegins(text, j, n.exponent);
    FractionBegins(text, i, n.fraction);
  }

  lemma StopsDigits(text: string, i: nat)
    requires Stops(text, i)
    ensures EndsDigits(text, i) && !At(text, i, 'e') && !At(text, i, 'E') && !At(text, i, '.')
  {
  }

  lemma ExponentBegins(text: string, i: nat, exponent: Option<Exponent>)
    requires exponent.Some? ==> IsExponent(exponent.value)
    requires Holds(text, i, ExponentText(exponent)) && Stops(text, i + |ExponentText(exponent)|)
    ensures EndsDigits(text, i) && !At(text, i, '.')
    ensures exponent.None? ==> !At(text, i, 'e') && !At(text, i, 'E')
  {
    if exponent.Some? {
      HoldsAt(text, i, ExponentText(exponent));
      assert text[i + 0] == exponent.value.mark;
    }
  }

  lemma FractionBegins(text: string, i: nat, fraction: Option<string>)
    requires Holds(text, i, FractionText(fraction))
    ensures fraction.Some? ==> EndsDigits(text, i)
    ensures fraction.None? ==> FractionText(fraction) == []
  {
    if fraction.Some? {
      HoldsAt(text, i, FractionText(fraction));
      assert text[i + 0] == '.';
    }
  }

  /** Every number of the grammar is read to its end, wherever it stops. */
  lemma NumbersAreRead(text: string, i: nat, raw: string)
    requires IsNumber(raw) && Holds(text, i, raw) && Stops(text, i + |raw|)
    ensures NumberEnd(text, i) == i + |raw| && raw != [] && text[i..i + |raw|] == raw
    ensures i < |text| && (text[i] == '-' || IsDecimal(text[i]))
  {
    hide IntegerEnd, FractionEnd, ExponentEnd, FractionText, ExponentText, WholeText, IsNumeral, Stops, EndsDigits;
    var n :| IsNumeral(n) && raw == NumeralText(n);
    var fraction, exponent := FractionText(n.fraction), ExponentText(n.exponent);
    HoldsParts(text, i, WholeText(n), fraction + exponent);
    var j := i + |WholeText(n)|;
    PartsFollow(text, j, n);
    WholeIsRead(text, i, n);
    NumeralParts(n);
    FractionIsRead(text, j, n.fraction);
    ExponentIsRead(text, j + |fraction|, n.exponent);
  }

  lemma NumeralParts(n: Numeral)
    requires IsNumeral(n)
    ensures n.fraction.Some? ==> AreDigits(n.fraction.value)
    ensures n.exponent.Some? ==> IsExponent(n.exponent.value)
    ensures WholeText(n) != []
  {
  }

  lemma ReadDigits(text: string, i: nat)
    requires i < |text| && IsDigit(text[i])
    ensures i < DigitsEnd(text, i) && AreDigits(text[i..DigitsEnd(text, i)])
  {
    var end := DigitsEnd(text, i);
    forall k | 0 <= k < end - i
      ensures IsDecimal(text[i..end][k])
    {
      DecimalDigits(text[i + k]);
    }
  }

  lemma ReadWhole(text: string, i: nat) returns (minus: bool, whole: string)
    requires IntegerEnd(text, i) != 0
    ensures AreDigits(whole) && (|whole| > 1 ==> whole[0] != '0')
    ensures text[i..IntegerEnd(text, i)] == (if minus then ['-'] else []) + whole
  {
    var end := IntegerEnd(text, i);
    minus := At(text, i, '-');
    var j := if minus then i + 1 else i;
    whole := text[j..end];
    ReadDigits(text, j);
    DecimalDigits(text[j]);
    assert text[i..end] == text[i..j] + whole;
    if minus {
      assert text[i..j] == ['-'];
    }
  }

  lemma ReadFraction(text: string, i: nat) returns (fraction: Option<string>)
    requires i <= |text|
    ensures fraction.Some? ==> AreDigits(fraction.value)
    ensures text[i..FractionEnd(text, i)] == FractionText(fraction)
  {
    var end := FractionEnd(text, i);
    fraction := None;
    if end != i {
      ReadDigits(text, i + 1);
      fraction := Some(text[i + 1..end]);
      assert text[i..end] == ['.'] + text[i + 1..end];
    }
  }

  lemma ReadExponent(text: string, i: nat) returns (exponent: Option<Exponent>)
    requires i <= |text|
    ensures exponent.Some? ==> IsExponent(exponent.value)
    ensures text[i..ExponentEnd(text, i)] == ExponentText(exponent)
  {
    var end := ExponentEnd(text, i);
    exponent := None;
    if end != i {
      var j := if At(text, i + 1, '+') || At(text, i + 1, '-') then i + 2 else i + 1;
      ReadDigits(text, j);
      exponent := Some(Exponent(text[i], text[i + 1..j], text[j..end]));
      assert text[i..end] == [text[i]] + (text[i + 1..j] + text[j..end]);
      if j == i + 2 {
        assert text[i + 1..j] == [text[i + 1]];
      }
    }
  }

  /** And nothing else is read as a number. */
  lemma ReadNumbersAreNumbers(text: string, i: nat)
    requires NumberEnd(text, i) != 0
    ensures IsNumber(text[i..NumberEnd(text, i)])
  {
    hide FractionEnd, ExponentEnd, IntegerEnd, FractionText, ExponentText, AreDigits, IsExponent;
    var whole := IntegerEnd(text, i);
    var minus, digits := ReadWhole(text, i);
    var fraction := ReadFraction(text, whole);
    var exponent := ReadExponent(text, FractionEnd(text, whole));
    var n := Numeral(minus, digits, fraction, exponent);
    var point, end := FractionEnd(text, whole), NumberEnd(text, i);
    assert text[i..end] == text[i..whole] + (text[whole..point] + text[point..end]);
    assert IsNumeral(n) && text[i..end] == NumeralText(n);
  }
}
