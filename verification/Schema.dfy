/** Schema inference: the type of each field is the join of the types of its values. */
module Schema {
  import opened Common

  datatype Kind = Text | Integer | Float | Boolean | Date

  /** The order integer < float < string, boolean < string, date < string. */
  predicate Below(a: Kind, b: Kind) {
    a == b || b == Text || (a == Integer && b == Float)
  }

  /** What the loop makes of a field's type and the type of its next value. */
  function Join(a: Kind, b: Kind): Kind {
    if a == b then a else if {a, b} == {Integer, Float} then Float else Text
  }

  lemma JoinIsLeastUpperBound(a: Kind, b: Kind, c: Kind)
    ensures Below(Join(a, b), c) <==> Below(a, c) && Below(b, c)
  {
  }

  lemma BelowIsAnOrder(a: Kind, b: Kind, c: Kind)
    ensures Below(a, a)
    ensures Below(a, b) && Below(b, a) ==> a == b
    ensures Below(a, b) && Below(b, c) ==> Below(a, c)
  {
  }

  datatype Cell<V> = Cell(field: string, value: V)

  /** The join of the types a field's values have; an empty value has none. */
  function Observed<V>(cells: seq<Cell<V>>, typeOf: V -> Option<Kind>, field: string): Option<Kind> {
    if cells == [] then None
    else
      var cell := cells[|cells| - 1];
      var before := Observed(cells[..|cells| - 1], typeOf, field);
      var kind := if cell.field == field then typeOf(cell.value) else None;
      if kind.None? then before
      else if before.None? then kind
      else Some(Join(before.value, kind.value))
  }

  predicate Mentioned<V>(cells: seq<Cell<V>>, field: string) {
    exists i :: 0 <= i < |cells| && cells[i].field == field
  }

  function Flat<V>(rows: seq<seq<Cell<V>>>): seq<Cell<V>> {
    if rows == [] then [] else Flat(rows[..|rows| - 1]) + rows[|rows| - 1]
  }

  /** The type a schema shows: a field without observed values shows as a string. */
  function Shown(observed: Option<Kind>): Kind {
    match observed
    case None => Text
    case Some(kind) => kind
  }

  /** A schema that is right about the cells so far. */
  ghost predicate Describes<V>(
    result: map<string, Kind>, cells: seq<Cell<V>>, header: seq<string>, typeOf: V -> Option<Kind>)
  {
    && (forall field :: field in result <==> field in header || Mentioned(cells, field))
    && (forall field :: field in result ==> result[field] == Shown(Observed(cells, typeOf, field)))
  }

  ghost predicate Tracks<V>(observed: map<string, Kind>, cells: seq<Cell<V>>, typeOf: V -> Option<Kind>) {
    forall field ::
      Observed(cells, typeOf, field) == if field in observed then Some(observed[field]) else None
  }

  lemma OneMoreCell<V>(cells: seq<Cell<V>>, cell: Cell<V>, typeOf: V -> Option<Kind>, field: string)
    ensures Mentioned(cells + [cell], field) <==> Mentioned(cells, field) || cell.field == field
    ensures cell.field != field || typeOf(cell.value).None? ==>
              Observed(cells + [cell], typeOf, field) == Observed(cells, typeOf, field)
    ensures cell.field == field && typeOf(cell.value).Some? ==>
              var before := Observed(cells, typeOf, field);
              Observed(cells + [cell], typeOf, field) ==
              Some(if before.None? then typeOf(cell.value).value else Join(before.value, typeOf(cell.value).value))
  {
    var more := cells + [cell];
    assert more[..|more| - 1] == cells;
    if Mentioned(cells, field) {
      var i :| 0 <= i < |cells| && cells[i].field == field;
      assert more[i].field == field;
    }
    if cell.field == field {
      assert more[|cells|].field == field;
    }
  }

  /** The loop over every value of every row. */
  method InferSchema<V>(rows: seq<seq<Cell<V>>>, header: seq<string>, typeOf: V -> Option<Kind>)
    returns (result: map<string, Kind>)
    ensures Describes(result, Flat(rows), header, typeOf)
  {
    result := map field | field in header :: Text;
    var observed: map<string, Kind> := map[];
    var i := 0;
    while i < |rows|
      invariant i <= |rows|
      invariant Describes(result, Flat(rows[..i]), header, typeOf) && Tracks(observed, Flat(rows[..i]), typeOf)
    {
      var row := rows[i];
      ghost var before := Flat(rows[..i]);
      assert before + row[..0] == before;
      var j := 0;
      while j < |row|
        invariant j <= |row|
        invariant Describes(result, before + row[..j], header, typeOf)
        invariant Tracks(observed, before + row[..j], typeOf)
      {
        result, observed := NextValue(result, observed, row[j], before + row[..j], header, typeOf);
        assert before + row[..j + 1] == (before + row[..j]) + [row[j]];
        j := j + 1;
      }
      assert rows[..i + 1][..i] == rows[..i] && row[..j] == row;
      i := i + 1;
    }
    assert rows[..i] == rows;
  }

  /** The body of the loop: one value. */
  method NextValue<V>(
    result: map<string, Kind>, observed: map<string, Kind>, cell: Cell<V>, ghost cells: seq<Cell<V>>,
    ghost header: seq<string>, typeOf: V -> Option<Kind>)
    returns (result1: map<string, Kind>, observed1: map<string, Kind>)
    requires Describes(result, cells, header, typeOf) && Tracks(observed, cells, typeOf)
    ensures Describes(result1, cells + [cell], header, typeOf) && Tracks(observed1, cells + [cell], typeOf)
  {
    hide Observed, Mentioned;
    forall field
      ensures Mentioned(cells + [cell], field) <==> Mentioned(cells, field) || cell.field == field
      ensures cell.field != field || typeOf(cell.value).None? ==>
                Observed(cells + [cell], typeOf, field) == Observed(cells, typeOf, field)
    {
      OneMoreCell(cells, cell, typeOf, field);
    }
    OneMoreCell(cells, cell, typeOf, cell.field);
    result1, observed1 := result, observed;
    var kind := typeOf(cell.value);
    if kind.None? {
      if cell.field !in result {
        UnmentionedIsUnobserved(cells, typeOf, cell.field);
        result1 := result[cell.field := Text];
      }
      return;
    }
    if cell.field !in observed {
      observed1 := observed[cell.field := kind.value];
    } else if observed[cell.field] != kind.value {
      observed1 := observed[cell.field :=
        if {observed[cell.field], kind.value} == {Integer, Float} then Float else Text];
    }
    result1 := result[cell.field := observed1[cell.field]];
  }

  lemma {:induction false} UnmentionedIsUnobserved<V>(cells: seq<Cell<V>>, typeOf: V -> Option<Kind>, field: string)
    requires !Mentioned(cells, field)
    ensures Observed(cells, typeOf, field) == None
  {
    if cells != [] {
      assert cells[|cells| - 1].field != field;
      assert forall i :: 0 <= i < |cells| - 1 ==> cells[..|cells| - 1][i] == cells[i];
      UnmentionedIsUnobserved(cells[..|cells| - 1], typeOf, field);
    }
  }

  // ---------------------------------------------------------------- what the join means

  /** Every type a value of the field has is below the bound. */
  ghost predicate Bounds<V>(bound: Kind, cells: seq<Cell<V>>, typeOf: V -> Option<Kind>, field: string) {
    forall cell :: cell in cells && cell.field == field && typeOf(cell.value).Some? ==>
      Below(typeOf(cell.value).value, bound)
  }

  ghost predicate Empty<V>(cells: seq<Cell<V>>, typeOf: V -> Option<Kind>, field: string) {
    forall cell :: cell in cells && cell.field == field ==> typeOf(cell.value).None?
  }

  /** The observed type is the least one that all the field's values have. */
  lemma {:induction false} ObservedIsLeastBound<V>(
    cells: seq<Cell<V>>, typeOf: V -> Option<Kind>, field: string, bound: Kind)
    ensures Observed(cells, typeOf, field).None? <==> Empty(cells, typeOf, field)
    ensures Observed(cells, typeOf, field).Some? ==>
              (Below(Observed(cells, typeOf, field).value, bound) <==> Bounds(bound, cells, typeOf, field))
  {
    if cells != [] {
      var before, cell := cells[..|cells| - 1], cells[|cells| - 1];
      ObservedIsLeastBound(before, typeOf, field, bound);
      assert forall other :: other in cells <==> other in before || other == cell;
      if cell.field == field && typeOf(cell.value).Some? && Observed(before, typeOf, field).Some? {
        JoinIsLeastUpperBound(Observed(before, typeOf, field).value, typeOf(cell.value).value, bound);
      }
    }
  }

  lemma {:induction false} FlatHasEveryCell<V>(rows: seq<seq<Cell<V>>>)
    ensures forall i, j :: 0 <= i < |rows| && 0 <= j < |rows[i]| ==> rows[i][j] in Flat(rows)
    ensures forall cell :: cell in Flat(rows) ==> exists i :: 0 <= i < |rows| && cell in rows[i]
  {
    if rows != [] {
      var before := rows[..|rows| - 1];
      FlatHasEveryCell(before);
      forall i, j | 0 <= i < |rows| && 0 <= j < |rows[i]|
        ensures rows[i][j] in Flat(rows)
      {
        if i < |before| {
          assert before[i][j] == rows[i][j];
        }
      }
      forall cell | cell in Flat(rows)
        ensures exists i :: 0 <= i < |rows| && cell in rows[i]
      {
        if cell in Flat(before) {
          var i :| 0 <= i < |before| && cell in before[i];
          assert cell in rows[i];
        } else {
          assert cell in rows[|rows| - 1];
        }
      }
    }
  }

  /** Some value of the field, in some row, has a type. */
  ghost predicate IsTyped<V>(rows: seq<seq<Cell<V>>>, typeOf: V -> Option<Kind>, field: string) {
    exists i, j :: 0 <= i < |rows| && 0 <= j < |rows[i]| && rows[i][j].field == field && typeOf(rows[i][j].value).Some?
  }

  /** The type of every value of the field, in every row, is below the bound. */
  ghost predicate AllBelow<V>(rows: seq<seq<Cell<V>>>, typeOf: V -> Option<Kind>, field: string, bound: Kind) {
    forall i, j :: 0 <= i < |rows| && 0 <= j < |rows[i]| && rows[i][j].field == field
                   && typeOf(rows[i][j].value).Some? ==>
      Below(typeOf(rows[i][j].value).value, bound)
  }

  /** What a schema says of rows: it has the fields of the header and of every row, each with the least type
      that all its values in all rows have, or string if none has a type. */
  lemma SchemaIsRight<V>(
    result: map<string, Kind>, rows: seq<seq<Cell<V>>>, header: seq<string>, typeOf: V -> Option<Kind>, field: string,
    bound: Kind)
    requires Describes(result, Flat(rows), header, typeOf)
    ensures field in result <==>
              field in header || exists i, j :: 0 <= i < |rows| && 0 <= j < |rows[i]| && rows[i][j].field == field
    ensures field in result && !IsTyped(rows, typeOf, field) ==> result[field] == Text
    ensures field in result && IsTyped(rows, typeOf, field) ==>
              (Below(result[field], bound) <==> AllBelow(rows, typeOf, field, bound))
  {
    hide Flat, Observed, Below;
    var cells := Flat(rows);
    FlatHasEveryCell(rows);
    ObservedIsLeastBound(cells, typeOf, field, bound);
    if exists i, j :: 0 <= i < |rows| && 0 <= j < |rows[i]| && rows[i][j].field == field {
      var i, j :| 0 <= i < |rows| && 0 <= j < |rows[i]| && rows[i][j].field == field;
      var k :| 0 <= k < |cells| && cells[k] == rows[i][j];
      assert Mentioned(cells, field);
    }
    if Mentioned(cells, field) {
      var k :| 0 <= k < |cells| && cells[k].field == field;
      assert cells[k] in cells;
      var i :| 0 <= i < |rows| && cells[k] in rows[i];
      var j :| 0 <= j < |rows[i]| && rows[i][j] == cells[k];
      assert rows[i][j].field == field;
    }
    TypedCells(rows, cells, typeOf, field, bound);
  }

  lemma TypedCells<V>(
    rows: seq<seq<Cell<V>>>, cells: seq<Cell<V>>, typeOf: V -> Option<Kind>, field: string, bound: Kind)
    requires forall i, j :: 0 <= i < |rows| && 0 <= j < |rows[i]| ==> rows[i][j] in cells
    requires forall cell :: cell in cells ==> exists i :: 0 <= i < |rows| && cell in rows[i]
    ensures IsTyped(rows, typeOf, field) <==> !Empty(cells, typeOf, field)
    ensures AllBelow(rows, typeOf, field, bound) <==> Bounds(bound, cells, typeOf, field)
  {
    hide Below;
    forall cell | cell in cells
      ensures exists i, j :: 0 <= i < |rows| && 0 <= j < |rows[i]| && rows[i][j] == cell
    {
      var i :| 0 <= i < |rows| && cell in rows[i];
      var j :| 0 <= j < |rows[i]| && rows[i][j] == cell;
    }
    if !Empty(cells, typeOf, field) {
      var cell :| cell in cells && cell.field == field && typeOf(cell.value).Some?;
      var i, j :| 0 <= i < |rows| && 0 <= j < |rows[i]| && rows[i][j] == cell;
      assert rows[i][j].field == field;
    }
  }

  /** The order of rows and values, and how often a value occurs, do not matter. */
  lemma OrderDoesNotMatter<V>(
    cells: seq<Cell<V>>, other: seq<Cell<V>>, typeOf: V -> Option<Kind>, field: string)
    requires forall cell :: cell in cells <==> cell in other
    ensures Observed(cells, typeOf, field) == Observed(other, typeOf, field)
  {
    hide Below, Observed;
    ObservedIsLeastBound(cells, typeOf, field, Text);
    ObservedIsLeastBound(other, typeOf, field, Text);
    if Observed(cells, typeOf, field).Some? {
      var a, b := Observed(cells, typeOf, field).value, Observed(other, typeOf, field).value;
      ObservedIsLeastBound(cells, typeOf, field, a);
      ObservedIsLeastBound(cells, typeOf, field, b);
      ObservedIsLeastBound(other, typeOf, field, a);
      ObservedIsLeastBound(other, typeOf, field, b);
      BelowIsAnOrder(a, b, a);
      BelowIsAnOrder(b, a, b);
    }
  }

  /** More rows only move an observed type up. */
  lemma ObservedOnlyMovesUp<V>(
    cells: seq<Cell<V>>, more: seq<Cell<V>>, typeOf: V -> Option<Kind>, field: string)
    requires Observed(cells, typeOf, field).Some?
    ensures Observed(cells + more, typeOf, field).Some?
    ensures Below(Observed(cells, typeOf, field).value, Observed(cells + more, typeOf, field).value)
    ensures Empty(more, typeOf, field) ==> Observed(cells + more, typeOf, field) == Observed(cells, typeOf, field)
  {
    hide Below, Observed;
    ObservedIsLeastBound(cells, typeOf, field, Text);
    ObservedIsLeastBound(cells + more, typeOf, field, Text);
    assert forall cell :: cell in cells + more <==> cell in cells || cell in more;
    var a, b := Observed(cells, typeOf, field).value, Observed(cells + more, typeOf, field).value;
    ObservedIsLeastBound(cells, typeOf, field, a);
    ObservedIsLeastBound(cells, typeOf, field, b);
    ObservedIsLeastBound(cells + more, typeOf, field, a);
    ObservedIsLeastBound(cells + more, typeOf, field, b);
    BelowIsAnOrder(a, b, a);
    BelowIsAnOrder(b, a, b);
  }

  /** The shown type moves down exactly when it was only the placeholder of a field without values,
      and the added rows show a type other than string. */
  lemma WhenShownMovesDown<V>(
    cells: seq<Cell<V>>, more: seq<Cell<V>>, typeOf: V -> Option<Kind>, field: string)
    ensures Below(Shown(Observed(cells, typeOf, field)), Shown(Observed(cells + more, typeOf, field))) <==>
            Observed(cells, typeOf, field).Some? || Shown(Observed(more, typeOf, field)) == Text
  {
    hide Observed;
    if Observed(cells, typeOf, field).Some? {
      ObservedOnlyMovesUp(cells, more, typeOf, field);
    } else {
      ObservedIsLeastBound(cells, typeOf, field, Text);
      OnlyTheRest(cells, more, typeOf, field);
    }
  }

  lemma {:induction false} OnlyTheRest<V>(
    cells: seq<Cell<V>>, more: seq<Cell<V>>, typeOf: V -> Option<Kind>, field: string)
    requires Observed(cells, typeOf, field).None?
    ensures Observed(cells + more, typeOf, field) == Observed(more, typeOf, field)
  {
    if more == [] {
      assert cells + more == cells;
    } else {
      OnlyTheRest(cells, more[..|more| - 1], typeOf, field);
      assert (cells + more)[..|cells + more| - 1] == cells + more[..|more| - 1];
    }
  }

  /** Such a field: empty in the first row, a date in the second. */
  lemma PlaceholderMovesDown()
    ensures var typeOf := (value: string) => if value == "" then None else Some(Date);
            var first, second := Cell("day", ""), Cell("day", "2024-01-31");
            && Shown(Observed([first], typeOf, "day")) == Text
            && Shown(Observed([first] + [second], typeOf, "day")) == Date
            && !Below(Text, Date)
  {
  }
}
