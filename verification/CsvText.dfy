/** CSV texts as section 2 of RFC 4180 writes them, with the line ends of any platform, which the preview
    reads back. */
module CsvText {
  import opened Common
  import opened Csv
  import opened Slices

  // ---------------------------------------------------------------- fields

  /** A field, and whether it is written in quotes. */
  datatype Field = Field(value: string, quoted: bool)

  /** Bare text has no comma and no line end, and does not begin with a quote. */
  predicate IsBare(value: string) {
    && (forall i :: 0 <= i < |value| ==> value[i] != ',' && value[i] != '\r' && value[i] != '\n')
    && (value != "" ==> value[0] != '"')
  }

  predicate Fits(field: Field) {
    field.quoted || IsBare(field.value)
  }

  /** The text inside quotes, with every quote doubled. */
  function Doubled(value: string): string {
    if value == [] then []
    else (if value[0] == '"' then ['"', '"'] else [value[0]]) + Doubled(value[1..])
  }

  function FieldText(field: Field): string {
    if field.quoted then ['"'] + Doubled(field.value) + ['"'] else field.value
  }

  /** The reader behind a field that something follows. */
  function Behind(reader: Reader, field: Field): Reader {
    if field.quoted then Reader(QuoteInQuotedField, reader.fields, field.value)
    else if field.value == [] then reader
    else Reader(InField, reader.fields, field.value)
  }

  predicate IsReady(reader: Reader) {
    reader.field == "" && reader.state in {StartRecord, StartField}
  }

  /** One character inside a line, or any inside quotes. */
  lemma Stepping(text: string, i: nat, reader: Reader)
    requires i < |text| && (!IsNewline(text[i]) || Step(reader, text[i]).state == InQuotedField)
    requires i + 1 < |text| && Step(reader, text[i]).state != Bad
    ensures Read(text, i, reader) == Read(text, i + 1, Step(reader, text[i]))
  {
  }

  /** The last character of a text that ends a field. */
  lemma SteppingOut(text: string, i: nat, reader: Reader)
    requires i + 1 == |text| && Step(reader, text[i]).state in {InField, QuoteInQuotedField, StartField}
    ensures var next := Step(reader, text[i]);
            Read(text, i, reader) == Record(next.fields + [next.field], |text|)
  {
  }

  lemma {:induction false} BareReads(text: string, i: nat, reader: Reader, more: string)
    requires reader.state == InField && Holds(text, i, more)
    requires forall k :: 0 <= k < |more| ==> more[k] != ',' && more[k] != '\r' && more[k] != '\n'
    ensures i + |more| < |text| ==>
              Read(text, i, reader) == Read(text, i + |more|, reader.(field := reader.field + more))
    ensures i + |more| == |text| && more != [] ==>
              Read(text, i, reader) == Record(reader.fields + [reader.field + more], |text|)
    decreases |more|
  {
    hide Read;
    if more == [] {
      assert reader.field + more == reader.field;
    } else {
      HoldsParts(text, i, [more[0]], more[1..]);
      assert [more[0]] + more[1..] == more && text[i] == text[i..i + 1][0];
      var next := reader.Add(more[0], InField);
      assert reader.field + more == next.field + more[1..];
      if i + 1 < |text| {
        Stepping(text, i, reader);
        BareReads(text, i + 1, next, more[1..]);
      } else {
        SteppingOut(text, i, reader);
      }
    }
  }

  /** The text ends inside quotes. */
  lemma SteppingNowhere(text: string, i: nat, reader: Reader)
    requires i + 1 == |text| && Step(reader, text[i]).state == InQuotedField
    ensures Read(text, i, reader) == Broken
  {
    assert Read(text, i + 1, Step(reader, text[i])) == Broken;
  }

  /** One character of a quoted text, which is two if it is a quote. */
  lemma QuotedStep(text: string, i: nat, reader: Reader, c: char)
    requires reader.state == InQuotedField && Holds(text, i, if c == '"' then ['"', '"'] else [c])
    ensures var end := i + if c == '"' then 2 else 1;
            && (end < |text| ==> Read(text, i, reader) == Read(text, end, reader.Add(c, InQuotedField)))
            && (end == |text| ==> Read(text, i, reader) == Broken)
  {
    hide Read;
    HoldsAt(text, i, if c == '"' then ['"', '"'] else [c]);
    assert text[i + 0] == c;
    if c == '"' {
      assert text[i + 1] == c;
      Stepping(text, i, reader);
      var quote := reader.To(QuoteInQuotedField);
      if i + 2 < |text| { Stepping(text, i + 1, quote); } else { SteppingNowhere(text, i + 1, quote); }
    } else {
      if i + 1 < |text| { Stepping(text, i, reader); } else { SteppingNowhere(text, i, reader); }
    }
  }

  lemma {:induction false} QuotedReads(text: string, i: nat, reader: Reader, value: string)
    requires reader.state == InQuotedField && Holds(text, i, Doubled(value))
    ensures i + |Doubled(value)| < |text| ==>
              Read(text, i, reader) == Read(text, i + |Doubled(value)|, reader.(field := reader.field + value))
    ensures i + |Doubled(value)| == |text| && value != [] ==> Read(text, i, reader) == Broken
    decreases |value|
  {
    hide Read, Holds;
    if value == [] {
      assert reader.field + value == reader.field;
    } else {
      var first := if value[0] == '"' then ['"', '"'] else [value[0]];
      HoldsParts(text, i, first, Doubled(value[1..]));
      QuotedStep(text, i, reader, value[0]);
      var more := reader.Add(value[0], InQuotedField);
      QuotedReads(text, i + |first|, more, value[1..]);
      assert reader.field + value == more.field + value[1..];
    }
  }

  /** A quoted text up to the quote that closes it. */
  lemma QuoteOpens(text: string, i: nat, reader: Reader, value: string)
    requires IsReady(reader) && Holds(text, i, ['"'] + Doubled(value))
    ensures i + 1 + |Doubled(value)| < |text| ==>
              Read(text, i, reader) ==
              Read(text, i + 1 + |Doubled(value)|, Reader(InQuotedField, reader.fields, value))
    ensures i + 1 + |Doubled(value)| == |text| ==> Read(text, i, reader) == Broken
  {
    hide Read;
    HoldsParts(text, i, ['"'], Doubled(value));
    assert text[i] == text[i..i + 1][0];
    assert "" + value == value;
    if i + 1 < |text| {
      Stepping(text, i, reader);
      QuotedReads(text, i + 1, reader.To(InQuotedField), value);
    } else {
      SteppingNowhere(text, i, reader);
    }
  }

  lemma QuotedFieldReads(text: string, i: nat, reader: Reader, value: string)
    requires IsReady(reader) && Holds(text, i, ['"'] + Doubled(value) + ['"'])
    ensures var end, inside := i + |Doubled(value)| + 2, Reader(QuoteInQuotedField, reader.fields, value);
            && (end < |text| ==> Read(text, i, reader) == Read(text, end, inside))
            && (end == |text| ==> Read(text, i, reader) == Record(reader.fields + [value], |text|))
  {
    hide Read, Doubled;
    HoldsParts(text, i, ['"'] + Doubled(value), ['"']);
    var end := i + 1 + |Doubled(value)|;
    assert text[end] == text[end..end + 1][0];
    QuoteOpens(text, i, reader, value);
    var inside := Reader(InQuotedField, reader.fields, value);
    if end + 1 < |text| { Stepping(text, end, inside); } else { SteppingOut(text, end, inside); }
  }

  lemma BareFieldReads(text: string, i: nat, reader: Reader, value: string)
    requires IsReady(reader) && IsBare(value) && value != [] && Holds(text, i, value)
    ensures var end := i + |value|;
            && (end < |text| ==> Read(text, i, reader) == Read(text, end, Reader(InField, reader.fields, value)))
            && (end == |text| ==> Read(text, i, reader) == Record(reader.fields + [value], |text|))
  {
    hide Read;
    HoldsParts(text, i, [value[0]], value[1..]);
    assert [value[0]] + value[1..] == value && text[i] == text[i..i + 1][0];
    var inside := Reader(InField, reader.fields, [value[0]]);
    assert reader.Add(value[0], InField) == inside;
    if i + 1 < |text| {
      Stepping(text, i, reader);
      BareReads(text, i + 1, inside, value[1..]);
    } else {
      SteppingOut(text, i, reader);
    }
  }

  /** A field, whatever follows it. */
  lemma FieldReads(text: string, i: nat, reader: Reader, field: Field)
    requires IsReady(reader) && Fits(field) && Holds(text, i, FieldText(field))
    ensures i + |FieldText(field)| < |text| ==>
              Read(text, i, reader) == Read(text, i + |FieldText(field)|, Behind(reader, field))
    ensures i + |FieldText(field)| == |text| && FieldText(field) != [] ==>
              Read(text, i, reader) == Record(reader.fields + [field.value], |text|)
  {
    hide Read, Holds, IsBare, Doubled;
    if field.quoted {
      QuotedFieldReads(text, i, reader, field.value);
    } else if field.value != [] {
      BareFieldReads(text, i, reader, field.value);
    }
  }

  // ---------------------------------------------------------------- records

  function Values(fields: seq<Field>): (r: seq<string>)
    ensures |r| == |fields| && forall i :: 0 <= i < |fields| ==> r[i] == fields[i].value
  {
    seq(|fields|, i requires 0 <= i < |fields| => fields[i].value)
  }

  /** Fields, each with the comma behind it. */
  function PrefixText(fields: seq<Field>): string {
    if fields == [] then [] else FieldText(fields[0]) + [','] + PrefixText(fields[1..])
  }

  /** Fields with commas between them. */
  function RecordText(fields: seq<Field>): string
    requires fields != []
  {
    PrefixText(fields[..|fields| - 1]) + FieldText(fields[|fields| - 1])
  }

  /** A text with nothing in it is no field, but a blank line. */
  predicate IsWritten(fields: seq<Field>) {
    && (forall i :: 0 <= i < |fields| ==> Fits(fields[i]))
    && fields != [] && RecordText(fields) != []
  }

  lemma CommaReads(text: string, i: nat, reader: Reader)
    requires i < |text| && text[i] == ','
    requires reader.state in {StartRecord, StartField, InField, QuoteInQuotedField}
    ensures i + 1 < |text| ==> Read(text, i, reader) == Read(text, i + 1, reader.Save(StartField))
    ensures i + 1 == |text| ==> Read(text, i, reader) == Record(reader.fields + [reader.field] + [""], |text|)
  {
    hide Read;
    if i + 1 < |text| {
      Stepping(text, i, reader);
    } else {
      SteppingOut(text, i, reader);
    }
  }

  /** A field and the comma behind it. */
  lemma FieldAndComma(text: string, i: nat, reader: Reader, field: Field)
    requires IsReady(reader) && Fits(field) && Holds(text, i, FieldText(field) + [','])
    ensures var end, next := i + |FieldText(field)| + 1, Reader(StartField, reader.fields + [field.value], "");
            && (end < |text| ==> Read(text, i, reader) == Read(text, end, next))
            && (end == |text| ==> Read(text, i, reader) == Record(next.fields + [""], |text|))
  {
    hide Read, FieldText, Holds, Fits;
    var end := i + |FieldText(field)|;
    HoldsParts(text, i, FieldText(field), [',']);
    HoldsAt(text, end, [',']);
    assert text[end + 0] == ',';
    FieldReads(text, i, reader, field);
    CommaReads(text, end, Behind(reader, field));
  }

  function BehindAll(reader: Reader, fields: seq<Field>): Reader {
    if fields == [] then reader else Reader(StartField, reader.fields + Values(fields), "")
  }

  lemma NothingBehind(reader: Reader)
    ensures BehindAll(reader, []) == reader && reader.fields + Values([]) == reader.fields
  {
    assert Values([]) == [];
  }

  lemma BehindStep(reader: Reader, fields: seq<Field>)
    requires fields != []
    ensures var next := Reader(StartField, reader.fields + [fields[0].value], "");
            && BehindAll(next, fields[1..]) == BehindAll(reader, fields)
            && next.fields + Values(fields[1..]) == reader.fields + Values(fields)
  {
    assert Values(fields) == [fields[0].value] + Values(fields[1..]);
    var next := Reader(StartField, reader.fields + [fields[0].value], "");
    assert next.fields + Values(fields[1..]) == reader.fields + Values(fields);
  }

  lemma {:induction false} PrefixReads(text: string, i: nat, reader: Reader, fields: seq<Field>)
    requires IsReady(reader) && Holds(text, i, PrefixText(fields))
    requires forall k :: 0 <= k < |fields| ==> Fits(fields[k])
    ensures i + |PrefixText(fields)| < |text| ==>
              Read(text, i, reader) == Read(text, i + |PrefixText(fields)|, BehindAll(reader, fields))
    ensures i + |PrefixText(fields)| == |text| && fields != [] ==>
              Read(text, i, reader) == Record(reader.fields + Values(fields) + [""], |text|)
    decreases |fields|
  {
    hide Read, FieldText, Holds, Fits, Values, BehindAll;
    if fields == [] {
      assert BehindAll(reader, fields) == reader by { NothingBehind(reader); }
    } else {
      var rest, end := fields[1..], i + |FieldText(fields[0])|;
      HoldsParts(text, i, FieldText(fields[0]) + [','], PrefixText(rest));
      FieldAndComma(text, i, reader, fields[0]);
      var next := Reader(StartField, reader.fields + [fields[0].value], "");
      BehindStep(reader, fields);
      NothingBehind(next);
      if end + 1 < |text| {
        PrefixReads(text, end + 1, next, rest);
      }
    }
  }

  /** A line ends at `i`, in the way of one platform or another, or because the text ends. */
  predicate EndsAt(text: string, i: nat, ending: string) {
    if ending == "" then i == |text|
    else
      && Holds(text, i, ending) && ending in {"\n", "\r", "\r\n"}
      && (ending == "\r" ==> i + 1 == |text| || text[i + 1] != '\n')
  }

  lemma LineBreakReads(text: string, i: nat, reader: Reader, ending: string)
    requires EndsAt(text, i, ending) && ending != ""
    requires reader.state in {StartRecord, StartField, InField, QuoteInQuotedField}
    ensures Read(text, i, reader) ==
            Record(if reader.state == StartRecord then reader.fields else reader.fields + [reader.field],
                   i + |ending|)
  {
    HoldsAt(text, i, ending);
    assert text[i + 0] == ending[0];
    if ending == "\r\n" {
      assert text[i + 1] == ending[1];
    }
  }

  /** A record reads back, whatever its fields contain and however each of them and its line end are
      written. */
  lemma RecordReads(text: string, i: nat, fields: seq<Field>, ending: string)
    requires IsWritten(fields) && Holds(text, i, RecordText(fields))
    requires EndsAt(text, i + |RecordText(fields)|, ending)
    ensures Read(text, i, NEW) == Record(Values(fields), i + |RecordText(fields)| + |ending|)
  {
    hide Read, FieldText, Holds, Fits, EndsAt;
    var before, last := fields[..|fields| - 1], fields[|fields| - 1];
    var at := i + |PrefixText(before)|;
    HoldsParts(text, i, PrefixText(before), FieldText(last));
    PrefixReads(text, i, NEW, before);
    EndIsAhead(text, i + |RecordText(fields)|, ending);
    var reader := BehindAll(NEW, before);
    assert NEW.fields + Values(before) == Values(before);
    assert Values(fields) == Values(before) + [last.value];
    if at < |text| {
      FieldReads(text, at, reader, last);
      if ending != "" {
        LineBreakReads(text, at + |FieldText(last)|, Behind(reader, last), ending);
        EmptyFields(reader, last);
      }
    } else {
      EmptyFields(reader, last);
    }
  }

  lemma EndIsAhead(text: string, i: nat, ending: string)
    requires EndsAt(text, i, ending)
    ensures if ending == "" then i == |text| else i < |text|
  {
  }

  lemma EmptyFields(reader: Reader, field: Field)
    ensures FieldText(field) == [] ==> !field.quoted && field.value == []
    ensures Behind(reader, field) ==
            if FieldText(field) == [] then reader
            else Reader(if field.quoted then QuoteInQuotedField else InField, reader.fields, field.value)
  {
  }

  lemma BlankReads(text: string, i: nat, ending: string)
    requires EndsAt(text, i, ending) && ending != ""
    ensures Read(text, i, NEW) == Record([], i + |ending|)
  {
    hide Read;
    LineBreakReads(text, i, NEW, ending);
  }

  // ---------------------------------------------------------------- what is broken

  /** At `i` there are these fields and then a quoted one that has text behind its closing quote, or is
      never closed. */
  predicate Breaks(text: string, i: nat, fields: seq<Field>, value: string) {
    var end := i + |PrefixText(fields)| + 1 + |Doubled(value)|;
    && (forall k :: 0 <= k < |fields| ==> Fits(fields[k]))
    && Holds(text, i, PrefixText(fields) + (['"'] + Doubled(value)))
    && (end < |text| ==>
          text[end] == '"' && end + 1 < |text| && text[end + 1] !in ['"', ',', '\r', '\n'])
  }

  lemma BrokenReads(text: string, i: nat, fields: seq<Field>, value: string)
    requires Breaks(text, i, fields, value)
    ensures i < |text| && Read(text, i, NEW) == Broken
  {
    hide Read, PrefixText, Doubled, Fits, Holds;
    HoldsParts(text, i, PrefixText(fields), ['"'] + Doubled(value));
    assert i + |PrefixText(fields)| < |text| by { HoldsAt(text, i + |PrefixText(fields)|, ['"'] + Doubled(value)); }
    PrefixReads(text, i, NEW, fields);
    QuoteBreaks(text, i + |PrefixText(fields)|, BehindAll(NEW, fields), value);
  }

  lemma QuoteBreaks(text: string, i: nat, reader: Reader, value: string)
    requires IsReady(reader) && Holds(text, i, ['"'] + Doubled(value))
    requires var end := i + 1 + |Doubled(value)|;
             end < |text| ==>
               text[end] == '"' && end + 1 < |text| && text[end + 1] !in ['"', ',', '\r', '\n']
    ensures Read(text, i, reader) == Broken
  {
    hide Read, Doubled;
    QuoteOpens(text, i, reader, value);
    var end := i + 1 + |Doubled(value)|;
    if end < |text| {
      Stepping(text, end, Reader(InQuotedField, reader.fields, value));
      BadReads(text, end + 1, Reader(QuoteInQuotedField, reader.fields, value));
    }
  }

  lemma BadReads(text: string, i: nat, reader: Reader)
    requires i < |text| && reader.state == QuoteInQuotedField && text[i] !in ['"', ',', '\r', '\n']
    ensures Read(text, i, reader) == Broken
  {
  }

  // ---------------------------------------------------------------- whole texts

  /** A record and its line end; without fields, a blank line. */
  datatype Line = Line(fields: seq<Field>, ending: string)

  function LineText(line: Line): string {
    (if line.fields == [] then [] else RecordText(line.fields)) + line.ending
  }

  function LinesText(lines: seq<Line>): string {
    if lines == [] then [] else LineText(lines[0]) + LinesText(lines[1..])
  }

  predicate IsLine(line: Line) {
    && line.ending in {"", "\n", "\r", "\r\n"}
    && if line.fields == [] then line.ending != "" else IsWritten(line.fields)
  }

  /** Every line but the last ends in a line end; and a lone carriage return is not followed by a blank line
      that is a lone line feed, with which it would be one line end. */
  predicate AreLines(lines: seq<Line>) {
    && (forall k :: 0 <= k < |lines| ==> IsLine(lines[k]))
    && (forall k :: 0 <= k < |lines| - 1 ==> lines[k].ending != "")
    && (forall k :: 0 <= k < |lines| - 1 && lines[k].ending == "\r" ==> lines[k + 1] != Line([], "\n"))
  }

  /** The records of the lines. */
  function Records(lines: seq<Line>): seq<seq<string>> {
    if lines == [] then []
    else (if lines[0].fields == [] then [] else [Values(lines[0].fields)]) + Records(lines[1..])
  }

  /** The lines are in the text from `i` on, each with its end. */
  ghost predicate LieAt(text: string, i: nat, lines: seq<Line>)
    decreases |lines|
  {
    lines != [] ==>
      var end := i + |LineText(lines[0])|;
      && IsLine(lines[0]) && Holds(text, i, LineText(lines[0]))
      && EndsAt(text, end - |lines[0].ending|, lines[0].ending)
      && LieAt(text, end, lines[1..])
  }

  lemma LineReads(text: string, i: nat, lines: seq<Line>)
    requires lines != [] && LieAt(text, i, lines)
    ensures var end := i + |LineText(lines[0])|;
            && Read(text, i, NEW) == Record(Values(lines[0].fields), end) && i < end <= |text|
            && LieAt(text, end, lines[1..])
  {
    hide Read;
    var line := lines[0];
    if line.fields == [] {
      assert LineText(line) == line.ending && Values(line.fields) == [];
      BlankReads(text, i, line.ending);
    } else {
      HoldsParts(text, i, RecordText(line.fields), line.ending);
      RecordReads(text, i, line.fields, line.ending);
    }
  }

  /** Every row has this many fields. */
  predicate AllWide(rows: seq<seq<string>>, width: nat) {
    forall k :: 0 <= k < |rows| ==> |rows[k]| == width
  }

  /** The rows of the lines, up to the limit, and what follows them if there are fewer. */
  lemma {:induction false} RowsRead(
    text: string, i: nat, lines: seq<Line>, width: nat, rows: seq<seq<string>>, limit: nat, atLimit: bool)
    requires LieAt(text, i, lines) && |rows| < limit && width > 0
    ensures var found, end := Records(lines), i + |LinesText(lines)|;
            var taken := found[..Min(limit - |rows|, |found|)];
            Rows(text, i, width, rows, limit, atLimit) ==
            if !AllWide(taken, width) then Err(MalformedFile)
            else if |taken| == limit - |rows| then Ok(rows + taken)
            else Rows(text, end, width, rows + found, limit, atLimit)
    decreases |lines|
  {
    hide Read, LieAt, LineText, AllWide, Values, Rows;
    if lines == [] {
      assert AllWide([], width) by { OneMoreIsWide([], width, []); }
      assert rows + Records(lines) == rows;
    } else {
      LineReads(text, i, lines);
      var end, rest, values := i + |LineText(lines[0])|, lines[1..], Values(lines[0].fields);
      ValuesOfNone(lines[0].fields);
      RowStep(text, i, width, rows, limit, atLimit, values, end);
      if values == [] {
        assert Records(lines) == Records(rest);
        RowsRead(text, end, rest, width, rows, limit, atLimit);
      } else {
        assert Records(lines) == [values] + Records(rest);
        if |values| == width && |rows| + 1 < limit {
          RowsRead(text, end, rest, width, rows + [values], limit, atLimit);
        }
        Taking(rows, values, Records(rest), width, limit);
      }
    }
  }

  lemma RowStep(
    text: string, i: nat, width: nat, rows: seq<seq<string>>, limit: nat, atLimit: bool, values: seq<string>, end: nat)
    requires i < |text| && Read(text, i, NEW) == Record(values, end)
    ensures Rows(text, i, width, rows, limit, atLimit) ==
            if values == [] then Rows(text, end, width, rows, limit, atLimit)
            else if |values| != width then Err(MalformedFile)
            else if |rows| + 1 == limit then Ok(rows + [values])
            else Rows(text, end, width, rows + [values], limit, atLimit)
  {
    hide Read;
  }

  /** One row more, and those behind it. */
  lemma Taking(
    rows: seq<seq<string>>, values: seq<string>, found: seq<seq<string>>, width: nat, limit: nat)
    requires |rows| < limit
    ensures var all, more := [values] + found, rows + [values];
            var taken, later := all[..Min(limit - |rows|, |all|)], found[..Min(limit - |more|, |found|)];
            && |taken| == |later| + 1 && (AllWide(taken, width) <==> |values| == width && AllWide(later, width))
            && rows + taken == more + later && rows + all == more + found
            && (|rows| + 1 == limit ==> AllWide(later, width) && rows + taken == rows + [values])
  {
    hide AllWide;
    var all := [values] + found;
    var taken, later := all[..Min(limit - |rows|, |all|)], found[..Min(limit - |rows| - 1, |found|)];
    assert taken == [values] + later;
    OneMoreIsWide(values, width, later);
    if |rows| + 1 == limit {
      assert later == [];
    }
  }

  lemma ValuesOfNone(fields: seq<Field>)
    ensures Values(fields) == [] <==> fields == []
  {
  }

  lemma OneMoreIsWide(values: seq<string>, width: nat, rest: seq<seq<string>>)
    ensures AllWide([values] + rest, width) <==> |values| == width && AllWide(rest, width)
    ensures AllWide([], width)
  {
    var all := [values] + rest;
    assert all[0] == values && forall k :: 0 <= k < |rest| ==> all[k + 1] == rest[k];
  }

  /** Lines written one after the other lie in the text, also if something follows them that does not
      begin with a line feed. */
  lemma {:induction false} WrittenLie(text: string, i: nat, lines: seq<Line>)
    requires AreLines(lines) && Holds(text, i, LinesText(lines))
    requires var end := i + |LinesText(lines)|;
             lines != [] && end < |text| ==> lines[|lines| - 1].ending != "" && text[end] != '\n'
    ensures LieAt(text, i, lines)
    decreases |lines|
  {
    hide IsLine, LineText, LinesText, AreLines, EndsAt, Holds;
    if lines != [] {
      var rest, end := lines[1..], i + |LineText(lines[0])|;
      LastStays(lines);
      HoldsParts(text, i, LineText(lines[0]), LinesText(rest));
      WrittenLie(text, end, rest);
      NextBegins(text, end, lines);
      EndLies(text, i, lines[0]);
    }
  }

  lemma LastStays(lines: seq<Line>)
    requires lines != [] && AreLines(lines)
    ensures IsLine(lines[0]) && AreLines(lines[1..]) && (|lines| > 1 ==> lines[1..][|lines| - 2] == lines[|lines| - 1])
    ensures LinesText(lines) == LineText(lines[0]) + LinesText(lines[1..])
  {
    hide IsLine;
  }

  /** What stands behind the first line. */
  lemma NextBegins(text: string, i: nat, lines: seq<Line>)
    requires lines != [] && AreLines(lines) && Holds(text, i, LinesText(lines[1..]))
    requires var end := i + |LinesText(lines[1..])|;
             end < |text| ==> lines[|lines| - 1].ending != "" && text[end] != '\n'
    ensures lines[0].ending == "" ==> i == |text|
    ensures lines[0].ending == "\r" && i < |text| ==> text[i] != '\n'
  {
    if |lines| > 1 {
      var next := lines[1];
      HoldsParts(text, i, LineText(next), LinesText(lines[1..][1..]));
      LineBegins(next);
      HoldsAt(text, i, LineText(next));
      assert text[i + 0] == LineText(next)[0];
    }
  }

  /** A line is not empty, and begins with a line feed only if it is just that. */
  lemma LineBegins(line: Line)
    requires IsLine(line)
    ensures LineText(line) != [] && (LineText(line)[0] == '\n' ==> line == Line([], "\n"))
  {
    if line.fields != [] {
      RecordBegins(line.fields);
    }
  }

  lemma RecordBegins(fields: seq<Field>)
    requires IsWritten(fields)
    ensures RecordText(fields)[0] != '\n'
  {
    hide Doubled;
    if |fields| > 1 {
      assert fields[..|fields| - 1][0] == fields[0];
    }
  }

  lemma EndLies(text: string, i: nat, line: Line)
    requires IsLine(line) && Holds(text, i, LineText(line))
    requires var end := i + |LineText(line)|;
             && (line.ending == "" ==> end == |text|)
             && (line.ending == "\r" && end < |text| ==> text[end] != '\n')
    ensures EndsAt(text, i + |LineText(line)| - |line.ending|, line.ending)
  {
    HoldsParts(text, i, if line.fields == [] then [] else RecordText(line.fields), line.ending);
  }

  /** A header names every column, and no two alike. */
  predicate IsHeader(names: seq<string>) {
    && names != [] && "" !in names
    && forall i, j :: 0 <= i < |names| && 0 <= j < |names| && i != j ==> names[i] != names[j]
  }

  /** What the preview makes of a text that consists of written lines: the header and the rows up to the
      limit, without the blank lines; every row that is read has as many fields as the header; and a cut
      text must have all the rows that are wanted. */
  lemma WrittenTextsParse(header: Line, lines: seq<Line>, limit: nat, atLimit: bool)
    requires AreLines([header] + lines) && limit > 0
    ensures var names, found := Values(header.fields), Records(lines);
            var taken := found[..Min(limit, |found|)];
            Parse(LinesText([header] + lines), limit, atLimit) ==
            if !IsHeader(names) || !AllWide(taken, |names|) then Err(MalformedFile)
            else if atLimit && |taken| < limit then Err(PreviewLimitExceeded)
            else Ok(Table(names, taken))
  {
    hide Read, Rows, IsLine, LieAt, AreLines, LinesText, LineText, Records, IsHeader, HeaderIsFit, AllWide, Values;
    var all := [header] + lines;
    var text, names, found := LinesText(all), Values(header.fields), Records(lines);
    WholeText(text);
    assert all[0] == header && all[1..] == lines;
    WrittenLie(text, 0, all);
    LineReads(text, 0, all);
    HeadersAreHeaders(names);
    LinesEnd(header, lines);
    if IsHeader(names) {
      RowsRead(text, |LineText(header)|, lines, |names|, [], limit, atLimit);
      NoMoreRows(text, |names|, [] + found, limit, atLimit);
      assert [] + found == found && found[..|found|] == found;
      assert [] + found[..Min(limit, |found|)] == found[..Min(limit, |found|)];
    }
  }

  lemma WholeText(text: string)
    ensures Holds(text, 0, text)
  {
  }

  lemma LinesEnd(header: Line, lines: seq<Line>)
    ensures |LinesText([header] + lines)| == |LineText(header)| + |LinesText(lines)|
  {
    assert ([header] + lines)[1..] == lines;
  }

  lemma HeadersAreHeaders(names: seq<string>)
    ensures HeaderIsFit(names) <==> IsHeader(names)
    ensures IsHeader(names) ==> names != []
  {
  }

  lemma NoMoreRows(text: string, width: nat, rows: seq<seq<string>>, limit: nat, atLimit: bool)
    ensures Rows(text, |text|, width, rows, limit, atLimit) == Ok(rows)
  {
  }

  /** A text that breaks after any proper lines, before it has the rows that are wanted, cannot be read:
      it is malformed, or exceeds the budget if it was cut. */
  lemma BrokenTextsFail(
    text: string, header: Line, lines: seq<Line>, fields: seq<Field>, value: string, limit: nat, atLimit: bool)
    requires AreLines([header] + lines) && ([header] + lines)[|lines|].ending != ""
    requires Holds(text, 0, LinesText([header] + lines)) && |Records(lines)| < limit
    requires Breaks(text, |LinesText([header] + lines)|, fields, value)
    requires IsHeader(Values(header.fields)) && AllWide(Records(lines), |header.fields|)
    ensures Parse(text, limit, atLimit) == Err(if atLimit then PreviewLimitExceeded else MalformedFile)
  {
    hide Read, Rows, IsLine, LieAt, AreLines, LinesText, LineText, Records, IsHeader, HeaderIsFit, AllWide, Values;
    hide Breaks, Holds;
    var all := [header] + lines;
    var names, found, end := Values(header.fields), Records(lines), |LinesText(all)|;
    assert all[0] == header && all[1..] == lines;
    BreakBegins(text, end, fields, value);
    BrokenReads(text, end, fields, value);
    WrittenLie(text, 0, all);
    LineReads(text, 0, all);
    HeadersAreHeaders(names);
    LinesEnd(header, lines);
    RowsRead(text, |LineText(header)|, lines, |names|, [], limit, atLimit);
    assert [] + found == found && found[..|found|] == found;
    BrokenRows(text, end, |names|, found, limit, atLimit);
  }

  /** So does a text whose header breaks, and one that is empty. */
  lemma BrokenHeadersFail(text: string, fields: seq<Field>, value: string, limit: nat, atLimit: bool)
    requires text == [] || Breaks(text, 0, fields, value)
    ensures Parse(text, limit, atLimit) == Err(if atLimit then PreviewLimitExceeded else MalformedFile)
  {
    hide Read, Breaks;
    if text != [] {
      BrokenReads(text, 0, fields, value);
    }
  }

  lemma BrokenRows(text: string, i: nat, width: nat, rows: seq<seq<string>>, limit: nat, atLimit: bool)
    requires i < |text| && Read(text, i, NEW) == Broken
    ensures Rows(text, i, width, rows, limit, atLimit) == Err(if atLimit then PreviewLimitExceeded else MalformedFile)
  {
    hide Read;
  }

  lemma BreakBegins(text: string, i: nat, fields: seq<Field>, value: string)
    requires Breaks(text, i, fields, value)
    ensures i < |text| && text[i] != '\n'
  {
    hide Doubled;
    var quoted := PrefixText(fields) + (['"'] + Doubled(value));
    HoldsAt(text, i, quoted);
    assert text[i + 0] == quoted[0];
    if fields != [] {
      assert quoted[0] == PrefixText(fields)[0];
    }
  }
}
