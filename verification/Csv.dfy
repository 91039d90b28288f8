/** The CSV preview: the csv module's automaton, and the cut at the last line end of the budget. */
module Csv {
  import opened Common

  // ---------------------------------------------------------------- the reader

  datatype State = StartRecord | StartField | InField | InQuotedField | QuoteInQuotedField | EatNewline | Bad

  datatype Reader = Reader(state: State, fields: seq<string>, field: string) {
    function Save(state: State): Reader {
      Reader(state, fields + [field], "")
    }

    function Add(c: char, state: State): Reader {
      Reader(state, fields, field + [c])
    }

    function To(state: State): Reader {
      this.(state := state)
    }
  }

  const NEW := Reader(StartRecord, [], "")

  predicate IsNewline(c: char) {
    c == '\n' || c == '\r'
  }

  function StepField(reader: Reader, c: char): Reader {
    if IsNewline(c) then reader.Save(EatNewline)
    else if c == '"' then reader.To(InQuotedField)
    else if c == ',' then reader.Save(StartField)
    else reader.Add(c, InField)
  }

  /** One character, in the strict dialect. */
  function Step(reader: Reader, c: char): Reader {
    match reader.state
    case StartRecord => if IsNewline(c) then reader.To(EatNewline) else StepField(reader, c)
    case StartField => StepField(reader, c)
    case InField =>
      if IsNewline(c) then reader.Save(EatNewline)
      else if c == ',' then reader.Save(StartField)
      else reader.Add(c, InField)
    case InQuotedField => if c == '"' then reader.To(QuoteInQuotedField) else reader.Add(c, InQuotedField)
    case QuoteInQuotedField =>
      if c == '"' then reader.Add(c, InQuotedField)
      else if c == ',' then reader.Save(StartField)
      else if IsNewline(c) then reader.Save(EatNewline)
      else reader.To(Bad)
    case EatNewline => if IsNewline(c) then reader else reader.To(Bad)
    case Bad => reader
  }

  /** The end of a line, which the reader is told apart from its characters. */
  function StepLine(reader: Reader): Reader {
    match reader.state
    case StartField => reader.Save(StartRecord)
    case InField => reader.Save(StartRecord)
    case QuoteInQuotedField => reader.Save(StartRecord)
    case EatNewline => reader.To(StartRecord)
    case _ => reader
  }

  /** A line ends after `text[i]`; a carriage return and a line feed end it together. */
  predicate LineEnds(text: string, i: nat)
    requires i < |text|
  {
    || i + 1 == |text| || text[i] == '\n'
    || (text[i] == '\r' && text[i + 1] != '\n')
  }

  datatype Record = Record(fields: seq<string>, end: nat) | Broken

  /** The record the reader is in the middle of, from `i` on. */
  function Read(text: string, i: nat, reader: Reader): (r: Record)
    ensures r.Record? ==> i < r.end <= |text|
    decreases |text| - i
  {
    if i >= |text| then Broken  // a quoted field that nothing closes
    else
      var next := Step(reader, text[i]);
      var ended := if LineEnds(text, i) then StepLine(next) else next;
      if ended.state == Bad then Broken
      else if LineEnds(text, i) && ended.state == StartRecord then Record(ended.fields, i + 1)
      else Read(text, i + 1, ended)
  }

  // ---------------------------------------------------------------- the preview

  datatype Table = Table(header: seq<string>, rows: seq<seq<string>>)

  predicate HeaderIsFit(header: seq<string>) {
    && header != []
    && (forall i :: 0 <= i < |header| ==> header[i] != "")
    && (forall i, j :: 0 <= i < j < |header| ==> header[i] != header[j])
  }

  function Unreadable(atLimit: bool): ErrorCode {
    if atLimit then PreviewLimitExceeded else MalformedFile
  }

  /** The rows from `i` on, up to the limit; blank lines are no records. */
  function Rows(text: string, i: nat, width: nat, rows: seq<seq<string>>, limit: nat, atLimit: bool):
    Result<seq<seq<string>>, ErrorCode>
    decreases |text| - i
  {
    if i >= |text| then Ok(rows)
    else
      match Read(text, i, NEW)
      case Broken => Err(Unreadable(atLimit))
      case Record(values, end) =>
        if values == [] then Rows(text, end, width, rows, limit, atLimit)
        else if |values| != width then Err(MalformedFile)
        else if |rows| + 1 == limit then Ok(rows + [values])
        else Rows(text, end, width, rows + [values], limit, atLimit)
  }

  function Parse(text: string, limit: nat, atLimit: bool): Result<Table, ErrorCode> {
    if text == [] then Err(Unreadable(atLimit))
    else
      match Read(text, 0, NEW)
      case Broken => Err(Unreadable(atLimit))
      case Record(header, end) =>
        if !HeaderIsFit(header) then Err(MalformedFile)
        else
          match Rows(text, end, |header|, [], limit, atLimit)
          case Err(code) => Err(code)
          case Ok(rows) =>
            if atLimit && |rows| < limit then Err(PreviewLimitExceeded) else Ok(Table(header, rows))
  }

  /** The length of the text through its last line end. */
  function LastLineEnd(text: string): (r: nat)
    ensures r <= |text| && (r > 0 ==> IsNewline(text[r - 1]))
    ensures forall k :: r <= k < |text| ==> !IsNewline(text[k])
  {
    if text == [] then 0
    else if IsNewline(text[|text| - 1]) then |text|
    else LastLineEnd(text[..|text| - 1])
  }

  function CsvRows(text: string, limit: nat, atLimit: bool): Result<Table, ErrorCode> {
    Parse(if atLimit then text[..LastLineEnd(text)] else text, limit, atLimit)
  }

  /** The loop of the preview over the reader's records. */
  method ParseRows(text: string, limit: nat, atLimit: bool) returns (r: Result<Table, ErrorCode>)
    ensures r == Parse(text, limit, atLimit)
  {
    if text == [] {
      return Err(Unreadable(atLimit));
    }
    var first := Read(text, 0, NEW);
    if first.Broken? {
      return Err(Unreadable(atLimit));
    }
    var header := first.fields;
    if !HeaderIsFit(header) {
      return Err(MalformedFile);
    }
    var rows: seq<seq<string>> := [];
    var position := first.end;
    while position < |text|
      invariant Rows(text, first.end, |header|, [], limit, atLimit) ==
                Rows(text, position, |header|, rows, limit, atLimit)
      decreases |text| - position
    {
      var record := Read(text, position, NEW);
      if record.Broken? {
        return Err(Unreadable(atLimit));
      }
      position := record.end;
      if record.fields != [] {
        if |record.fields| != |header| {
          return Err(MalformedFile);
        }
        rows := rows + [record.fields];
        if |rows| == limit {
          break;
        }
      }
    }
    if atLimit && |rows| < limit {
      return Err(PreviewLimitExceeded);
    }
    r := Ok(Table(header, rows));
  }

  // ---------------------------------------------------------------- the cut

  /** A cut text that ends at a line end, perhaps between a carriage return and its line feed. */
  predicate CutAtLine(cut: string, whole: string) {
    cut <= whole && (cut == [] || IsNewline(cut[|cut| - 1]))
  }

  /** The line feed that the cut has separated from its carriage return. */
  predicate Torn(cut: string, whole: string) {
    0 < |cut| < |whole| && cut <= whole && cut[|cut| - 1] == '\r' && whole[|cut|] == '\n'
  }

  /** How far into the whole text the records of the cut one extend. */
  function Horizon(cut: string, whole: string): nat {
    if Torn(cut, whole) then |cut| + 1 else |cut|
  }

  lemma LinesAgree(cut: string, whole: string, i: nat)
    requires CutAtLine(cut, whole) && i < |cut|
    ensures LineEnds(cut, i) == (LineEnds(whole, i) || (i + 1 == |cut| && Torn(cut, whole)))
    ensures cut[i] == whole[i]
  {
  }

  /** After a newline the reader is quoted, or has eaten it. */
  lemma NewlineStep(reader: Reader, c: char)
    requires IsNewline(c)
    ensures Step(reader, c).state in {InQuotedField, EatNewline, Bad}
  {
  }

  /** Every record of the cut text is the same record of the whole; only the last may end one line
      feed earlier. */
  lemma {:induction false} RecordAgrees(cut: string, whole: string, i: nat, reader: Reader)
    requires CutAtLine(cut, whole) && Read(cut, i, reader).Record?
    ensures var short, full := Read(cut, i, reader), Read(whole, i, reader);
            && full.Record? && full.fields == short.fields
            && (full.end == short.end || (short.end == |cut| && full.end == Horizon(cut, whole)))
    decreases |cut| - i
  {
    hide Step;
    LinesAgree(cut, whole, i);
    var next := Step(reader, cut[i]);
    var ended := if LineEnds(cut, i) then StepLine(next) else next;
    if i + 1 == |cut| && Torn(cut, whole) {
      NewlineStep(reader, cut[i]);
      TornStep(next);
    } else if !(LineEnds(cut, i) && ended.state == StartRecord) {
      RecordAgrees(cut, whole, i + 1, ended);
    }
  }

  /** The separated line feed is eaten. */
  lemma TornStep(next: Reader)
    ensures next.state == EatNewline ==> Step(next, '\n') == next
  {
  }

  /** Conversely, a record of the whole text that ends within the cut is a record of the cut. */
  lemma {:induction false} RecordReaches(cut: string, whole: string, i: nat, reader: Reader)
    requires CutAtLine(cut, whole) && i < |cut|
    requires Read(whole, i, reader).Record? && Read(whole, i, reader).end <= Horizon(cut, whole)
    ensures Read(cut, i, reader) ==
            Record(Read(whole, i, reader).fields, Min(Read(whole, i, reader).end, |cut|))
    decreases |cut| - i
  {
    hide Step;
    LinesAgree(cut, whole, i);
    var next := Step(reader, cut[i]);
    var ended := if LineEnds(cut, i) then StepLine(next) else next;
    if i + 1 == |cut| && Torn(cut, whole) {
      NewlineStep(reader, cut[i]);
      TornStep(next);
      QuotedLineFeed(next);
    } else if !(LineEnds(cut, i) && ended.state == StartRecord) {
      if i + 1 < |cut| {
        RecordReaches(cut, whole, i + 1, ended);
      }
    }
  }

  lemma QuotedLineFeed(next: Reader)
    ensures next.state == InQuotedField ==> Step(next, '\n').state == InQuotedField
  {
  }

  /** Where the last row that is wanted ends. */
  function RowsEnd(text: string, i: nat, width: nat, count: nat, limit: nat): (r: nat)
    ensures i <= r
    decreases |text| - i
  {
    if i >= |text| then i
    else
      match Read(text, i, NEW)
      case Broken => i
      case Record(values, end) =>
        if values == [] then RowsEnd(text, end, width, count, limit)
        else if |values| != width || count + 1 == limit then end
        else RowsEnd(text, end, width, count + 1, limit)
  }

  lemma {:induction false} RowsAgree(
    cut: string, whole: string, i: nat, width: nat, rows: seq<seq<string>>, limit: nat)
    requires CutAtLine(cut, whole) && |rows| < limit
    requires Rows(cut, i, width, rows, limit, true).Ok?
    requires |Rows(cut, i, width, rows, limit, true).value| >= limit
    ensures Rows(whole, i, width, rows, limit, false) == Rows(cut, i, width, rows, limit, true)
    ensures RowsEnd(whole, i, width, |rows|, limit) <= Horizon(cut, whole)
    decreases |cut| - i
  {
    hide Read;
    RecordAgrees(cut, whole, i, NEW);
    var Record(values, end) := Read(cut, i, NEW);
    if values == [] {
      RowsAgree(cut, whole, end, width, rows, limit);
    } else if |rows| + 1 < limit {
      RowsAgree(cut, whole, end, width, rows + [values], limit);
    }
  }

  lemma {:induction false} RowsReach(
    cut: string, whole: string, i: nat, width: nat, rows: seq<seq<string>>, limit: nat)
    requires CutAtLine(cut, whole) && |rows| < limit && i <= |cut|
    requires Rows(whole, i, width, rows, limit, false).Ok?
    requires |Rows(whole, i, width, rows, limit, false).value| >= limit
    requires RowsEnd(whole, i, width, |rows|, limit) <= Horizon(cut, whole)
    ensures Rows(cut, i, width, rows, limit, true) == Rows(whole, i, width, rows, limit, false)
    decreases |cut| - i
  {
    hide Read;
    RowsNeedText(whole, i, width, rows, limit, false);
    var Record(values, end) := Read(whole, i, NEW);
    var more := if values == [] then rows else rows + [values];
    if |more| < limit {
      RowsNeedText(whole, end, width, more, limit, false);
    }
    if i < |cut| {
      RecordReaches(cut, whole, i, NEW);
      if |more| < limit && end <= |cut| {
        RowsReach(cut, whole, end, width, more, limit);
      }
    } else {
      OneLineFeed(cut, whole);
    }
  }

  lemma OneLineFeed(cut: string, whole: string)
    ensures Torn(cut, whole) ==> Read(whole, |cut|, NEW) == Record([], |cut| + 1)
  {
  }

  /** Rows that are still wanted lie ahead. */
  lemma {:induction false} RowsNeedText(
    text: string, i: nat, width: nat, rows: seq<seq<string>>, limit: nat, atLimit: bool)
    requires |rows| < limit && Rows(text, i, width, rows, limit, atLimit).Ok?
    requires |Rows(text, i, width, rows, limit, atLimit).value| >= limit
    ensures i < |text| && i < RowsEnd(text, i, width, |rows|, limit)
  {
    hide Read;
  }

  lemma {:induction false} RowsBounded(
    text: string, i: nat, width: nat, rows: seq<seq<string>>, limit: nat, atLimit: bool)
    requires |rows| < limit && Rows(text, i, width, rows, limit, atLimit).Ok?
    ensures |Rows(text, i, width, rows, limit, atLimit).value| <= limit
    decreases |text| - i
  {
    hide Read;
    if i < |text| {
      var Record(values, end) := Read(text, i, NEW);
      if values == [] {
        RowsBounded(text, end, width, rows, limit, atLimit);
      } else if |rows| + 1 < limit {
        RowsBounded(text, end, width, rows + [values], limit, atLimit);
      }
    }
  }

  /** Where the header and the rows that are wanted end. */
  function Reach(text: string, limit: nat): nat {
    match Read(text, 0, NEW)
    case Broken => |text| + 1
    case Record(header, end) => RowsEnd(text, end, |header|, 0, limit)
  }

  /** Whatever rows the budget yields, the whole file yields the same, however it continues: also if
      the cut falls into a quoted field or between a carriage return and its line feed. And it yields
      them exactly if the whole file has that many rows and they end within the cut text. */
  lemma BudgetRowsAreTheRows(text: string, whole: string, limit: nat)
    requires text <= whole && limit > 0
    ensures var cut, all := text[..LastLineEnd(text)], CsvRows(whole, limit, false);
            CsvRows(text, limit, true).Ok? <==>
              all.Ok? && |all.value.rows| == limit && Reach(whole, limit) <= Horizon(cut, whole)
    ensures CsvRows(text, limit, true).Ok? ==> CsvRows(text, limit, true) == CsvRows(whole, limit, false)
  {
    hide Read, Rows, RowsEnd;
    var cut := text[..LastLineEnd(text)];
    if CsvRows(text, limit, true).Ok? {
      RecordAgrees(cut, whole, 0, NEW);
      var Record(header, end) := Read(cut, 0, NEW);
      RowsAgree(cut, whole, end, |header|, [], limit);
      RowsBounded(cut, end, |header|, [], limit, true);
      RowsNeedText(cut, end, |header|, [], limit, true);
    }
    if CsvRows(whole, limit, false).Ok? && |CsvRows(whole, limit, false).value.rows| == limit
       && Reach(whole, limit) <= Horizon(cut, whole) {
      var Record(header, end) := Read(whole, 0, NEW);
      RowsNeedText(whole, end, |header|, [], limit, false);
      RecordReaches(cut, whole, 0, NEW);
      RowsReach(cut, whole, end, |header|, [], limit);
    }
  }
}
