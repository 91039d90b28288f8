/** The first rows of a JSON array of objects: from a whole file, or from one cut by the byte budget. */
module JsonPreview {
  import opened Common
  import opened Json
  import JsonText
  import opened Nesting

  const MAX_JSON_DEPTH := 32

  /** Whether the decoder's failure at a position looks like a cut rather than like a mistake. */
  type Verdict = (string, nat) -> bool

  predicate AllObjects(items: seq<Value>) {
    forall item :: item in items ==> item.Object?
  }

  /** The rows of a text that was not cut: all of it must parse, whatever the limit. */
  function DocumentRows(text: string, limit: nat, readable: string -> bool): Result<seq<Value>, ErrorCode> {
    // rows are one level below the top-level array
    if !Allowed(text, Skip(text, 0), MAX_JSON_DEPTH + 1) then Err(PreviewLimitExceeded)
    else
      match Document(text, readable)
      case Failed(_) => Err(MalformedFile)
      case Parsed(value, _, _) =>
        if value.Array? && AllObjects(value.items) then Ok(value.items[..Min(limit, |value.items|)])
        else Err(MalformedFile)
  }

  /** What a file shows that was not cut: the first rows of an array of objects that is not too deep,
      however it is written; and no other text shows anything. */
  lemma WholeFilesShowTheirRows(text: string, value: Value, limit: nat, readable: string -> bool)
    ensures JsonText.Writes(text, value, readable) ==>
              DocumentRows(text, limit, readable) ==
              if Depth(value) > 33 then Err(PreviewLimitExceeded)
              else if value.Array? && forall item :: item in value.items ==> item.Object?
              then Ok(value.items[..Min(limit, |value.items|)])
              else Err(MalformedFile)
    ensures (forall v :: !JsonText.Writes(text, v, readable)) ==> DocumentRows(text, limit, readable).Err?
  {
    hide ValueAt, Skip, Allowed, JsonText.Writes;
    JsonText.DocumentsAreExact(text, value, readable);
    if JsonText.Writes(text, value, readable) {
      ScanIsExact(text, Skip(text, 0), readable, MAX_JSON_DEPTH + 1);
    }
    if Document(text, readable).Parsed? {
      JsonText.DocumentsAreExact(text, Document(text, readable).value, readable);
    }
  }

  function EndOfArray(text: string, position: nat, rows: seq<Value>): Result<seq<Value>, ErrorCode> {
    if Skip(text, position + 1) != |text| then Err(MalformedFile) else Ok(rows)
  }

  /** The entries of a cut text from `position` on. */
  function Entries(
    text: string, position: nat, rows: seq<Value>, afterComma: bool, limit: nat, readable: string -> bool,
    cut: Verdict
  ): Result<seq<Value>, ErrorCode>
    decreases |text| - position
  {
    var p := Skip(text, position);
    if p >= |text| then Err(PreviewLimitExceeded)
    else if text[p] == ']' then
      if afterComma then Err(MalformedFile) else EndOfArray(text, p, rows)
    else if !Allowed(text, p, MAX_JSON_DEPTH) then Err(PreviewLimitExceeded)
    else
      match ValueAt(text, p, readable)
      case Failed(_) => Err(if cut(text, p) then PreviewLimitExceeded else MalformedFile)
      case Parsed(item, end, _) =>
        if !item.Object? then Err(MalformedFile)
        else
          var more := rows + [item];
          var q := Skip(text, end);
          if q >= |text| then
            if |more| == limit then Ok(more) else Err(PreviewLimitExceeded)
          else if text[q] !in [',', ']'] then Err(MalformedFile)
          else if |more| == limit then Ok(more)
          else if text[q] == ']' then EndOfArray(text, q, more)
          else Entries(text, q + 1, more, true, limit, readable, cut)
  }

  function PrefixRows(text: string, limit: nat, readable: string -> bool, cut: Verdict): Result<seq<Value>, ErrorCode> {
    var p := Skip(text, 0);
    if !At(text, p, '[') then Err(MalformedFile) else Entries(text, p + 1, [], false, limit, readable, cut)
  }

  method SkipSpace(text: string, start: nat) returns (position: nat)
    ensures position == Skip(text, start)
  {
    position := start;
    while position < |text| && IsSpace(text[position])
      invariant Skip(text, start) == Skip(text, position)
      decreases |text| - position
    {
      position := position + 1;
    }
  }

  /** The loop over the entries of a cut text. */
  method JsonPrefix(text: string, limit: nat, readable: string -> bool, cut: Verdict)
    returns (r: Result<seq<Value>, ErrorCode>)
    ensures r == PrefixRows(text, limit, readable, cut)
  {
    var position := SkipSpace(text, 0);
    if position >= |text| || text[position] != '[' {
      return Err(MalformedFile);
    }
    position := position + 1;
    var rows: seq<Value> := [];
    var afterComma := false;
    while true
      invariant PrefixRows(text, limit, readable, cut) ==
                Entries(text, position, rows, afterComma, limit, readable, cut)
      decreases |text| - position
    {
      position := SkipSpace(text, position);
      if position >= |text| {
        return Err(PreviewLimitExceeded);
      }
      if text[position] == ']' {
        if afterComma {
          return Err(MalformedFile);
        }
        return EndOfArray(text, position, rows);
      }
      var allowed := CheckNesting(text, position, MAX_JSON_DEPTH);
      if !allowed {
        return Err(PreviewLimitExceeded);
      }
      var item := ValueAt(text, position, readable);
      if item.Failed? {
        return Err(if cut(text, position) then PreviewLimitExceeded else MalformedFile);
      }
      if !item.value.Object? {
        return Err(MalformedFile);
      }
      rows := rows + [item.value];
      afterComma := false;
      position := SkipSpace(text, item.end);
      if position >= |text| {
        return if |rows| == limit then Ok(rows) else Err(PreviewLimitExceeded);
      }
      var delimiter := text[position];
      if delimiter !in [',', ']'] {
        return Err(MalformedFile);
      }
      if |rows| == limit {
        return Ok(rows);
      }
      if delimiter == ']' {
        return EndOfArray(text, position, rows);
      }
      position := position + 1;
      afterComma := true;
    }
  }

  // ---------------------------------------------------------------- how far a cut text must reach

  /** Where the last of `limit` items ends, counting from the one at `i`, or where their array ends,
      if it has fewer. */
  function ItemsReach(text: string, i: nat, limit: nat, readable: string -> bool): (r: nat)
    requires limit > 0
    ensures r > i
    decreases |text| - i
  {
    match ValueAt(text, i, readable)
    case Failed(_) => i + 1
    case Parsed(_, end, _) =>
      var j := Skip(text, end);
      if limit == 1 then end
      else if At(text, j, ',') then ItemsReach(text, Skip(text, j + 1), limit - 1, readable)
      else j + 1
  }

  function Reach(text: string, limit: nat, readable: string -> bool): nat
    requires limit > 0
  {
    var i := Skip(text, Skip(text, 0) + 1);
    if At(text, i, ']') then i + 1 else ItemsReach(text, i, limit, readable)
  }

  // ---------------------------------------------------------------- a cut text against the whole

  /** Spaces in the whole text are spaces in the cut one, as far as that goes. */
  lemma {:induction false} CutSkip(text: string, whole: string, i: nat)
    requires text <= whole && i <= |text|
    ensures Skip(text, i) == if Skip(whole, i) < |text| then Skip(whole, i) else |text|
    decreases |text| - i
  {
    if i < |text| && IsSpace(whole[i]) {
      CutSkip(text, whole, i + 1);
    }
  }

  lemma CutAgrees(text: string, whole: string)
    requires text <= whole
    ensures Agree(text, whole, |text|) && Agree(whole, text, |text|)
  {
  }

  /** An object of the whole text decodes in the cut one exactly if it ends there. */
  lemma CutObject(text: string, whole: string, i: nat, readable: string -> bool)
    requires text <= whole && i < |text|
    requires ValueAt(whole, i, readable).Parsed? && ValueAt(whole, i, readable).value.Object?
    ensures if ValueAt(whole, i, readable).end <= |text|
            then ValueAt(text, i, readable) == ValueAt(whole, i, readable)
            else ValueAt(text, i, readable).Failed?
  {
    hide ScalarAt, ItemsAt, MembersAt, Skip;
    CutAgrees(text, whole);
    if ValueAt(whole, i, readable).end <= |text| {
      ValueIsLocal(whole, text, |text|, i, readable);
    } else if ValueAt(text, i, readable).Parsed? {
      BraceIsObject(whole, i, readable);
      assert text[i] == whole[i];
      ValueIsLocal(text, whole, |text|, i, readable);
    }
  }

  lemma BraceIsObject(text: string, i: nat, readable: string -> bool)
    requires ValueAt(text, i, readable).Parsed? && ValueAt(text, i, readable).value.Object?
    ensures At(text, i, '{')
  {
  }

  /** What a parsed list of items is made of. */
  lemma ItemsShape(text: string, i: nat, readable: string -> bool)
    requires ItemsAt(text, i, readable).Parsed?
    ensures ValueAt(text, i, readable).Parsed?
    ensures var items, item := ItemsAt(text, i, readable), ValueAt(text, i, readable);
            var j := Skip(text, item.end);
            && (At(text, j, ',') || At(text, j, ']'))
            && items.value[0] == item.value
            && (At(text, j, ']') ==> items.value == [item.value] && items.end == j + 1)
            && (At(text, j, ',') ==>
                  var rest := ItemsAt(text, Skip(text, j + 1), readable);
                  rest.Parsed? && items.value == [item.value] + rest.value && items.end == rest.end)
  {
    hide ValueAt, Skip;
  }

  /** One turn of the loop over a cut text, in terms of the whole text's entry. */
  lemma EntryAgrees(
    text: string, whole: string, position: nat, rows: seq<Value>, afterComma: bool, limit: nat,
    readable: string -> bool, cut: Verdict)
    requires text <= whole && position <= |text| && |rows| < limit
    requires ValueAt(whole, Skip(whole, position), readable).Parsed?
    requires ValueAt(whole, Skip(whole, position), readable).value.Object?
    requires Depth(ValueAt(whole, Skip(whole, position), readable).value) <= MAX_JSON_DEPTH
    requires var j := Skip(whole, ValueAt(whole, Skip(whole, position), readable).end);
             At(whole, j, ',') || At(whole, j, ']')
    ensures var p := Skip(whole, position);
            var item := ValueAt(whole, p, readable);
            var q := Skip(whole, item.end);
            var more := rows + [item.value];
            item.end <= |text| ==>
              Entries(text, position, rows, afterComma, limit, readable, cut) ==
              if |more| == limit then Ok(more)
              else if |text| <= q then Err(PreviewLimitExceeded)
              else if whole[q] == ']' then EndOfArray(text, q, more)
              else Entries(text, q + 1, more, true, limit, readable, cut)
    ensures |text| < ValueAt(whole, Skip(whole, position), readable).end ==>
              Entries(text, position, rows, afterComma, limit, readable, cut).Err?
  {
    hide ValueAt, Skip, Allowed, Depth, EndOfArray;
    CutSkip(text, whole, position);
    var p := Skip(whole, position);
    var item := ValueAt(whole, p, readable);
    BraceIsObject(whole, p, readable);
    if p < |text| {
      CutObject(text, whole, p, readable);
      if item.end <= |text| {
        ScanIsExact(text, p, readable, MAX_JSON_DEPTH);
        CutSkip(text, whole, item.end);
      }
    }
  }

  /** A list of objects, not too deep, with nothing but spaces after its array. */
  ghost predicate Acceptable(whole: string, i: nat, readable: string -> bool) {
    && ItemsAt(whole, i, readable).Parsed?
    && AllObjects(ItemsAt(whole, i, readable).value)
    && ItemsDepth(ItemsAt(whole, i, readable).value) <= MAX_JSON_DEPTH
    && Skip(whole, ItemsAt(whole, i, readable).end) == |whole|
  }

  lemma AcceptableRest(whole: string, i: nat, readable: string -> bool)
    requires Acceptable(whole, i, readable)
    ensures var item := ValueAt(whole, i, readable);
            && item.Parsed? && item.value.Object? && Depth(item.value) <= MAX_JSON_DEPTH
            && (At(whole, Skip(whole, item.end), ',') ==>
                  Acceptable(whole, Skip(whole, Skip(whole, item.end) + 1), readable))
  {
    hide ValueAt, Skip, Depth;
    ItemsShape(whole, i, readable);
    var item, items := ValueAt(whole, i, readable), ItemsAt(whole, i, readable).value;
    assert items[0] == item.value;
    if At(whole, Skip(whole, item.end), ',') {
      var rest := ItemsAt(whole, Skip(whole, Skip(whole, item.end) + 1), readable).value;
      assert items[1..] == rest;
      assert forall other :: other in rest ==> other in items;
    }
  }

  /** The loop over a cut text, against the items of the whole. */
  lemma {:induction false} EntriesAgree(
    text: string, whole: string, position: nat, rows: seq<Value>, afterComma: bool, limit: nat,
    readable: string -> bool, cut: Verdict)
    requires text <= whole && position <= |text| && |rows| < limit
    requires Acceptable(whole, Skip(whole, position), readable)
    ensures var full := rows + ItemsAt(whole, Skip(whole, position), readable).value;
            var reach := ItemsReach(whole, Skip(whole, position), limit - |rows|, readable);
            var r := Entries(text, position, rows, afterComma, limit, readable, cut);
            if reach <= |text| then r == Ok(full[..Min(limit, |full|)]) else r.Err?
    decreases |text| - position
  {
    hide ValueAt, Skip, ItemsAt, Entries, Depth, ItemsDepth, AllObjects;
    var p := Skip(whole, position);
    ItemsShape(whole, p, readable);
    AcceptableRest(whole, p, readable);
    EntryAgrees(text, whole, position, rows, afterComma, limit, readable, cut);
    var items, item := ItemsAt(whole, p, readable), ValueAt(whole, p, readable);
    var q := Skip(whole, item.end);
    if |rows| + 1 == limit {
      assert (rows + items.value)[..limit] == rows + [item.value];
    } else if item.end <= |text| && q < |text| {
      if At(whole, q, ']') {
        CutSkip(text, whole, q + 1);
        assert (rows + items.value)[..|rows| + 1] == rows + [item.value];
      } else {
        EntriesAgree(text, whole, q + 1, rows + [item.value], true, limit, readable, cut);
        assert rows + items.value == (rows + [item.value]) + ItemsAt(whole, Skip(whole, q + 1), readable).value;
      }
    }
  }

  /** The rows of a cut text are the rows of the whole file, for every file that is a valid array of
      objects and every cut; and they are returned exactly if the cut text reaches the end of the
      last row wanted, or of the array. */
  lemma PrefixAgrees(text: string, whole: string, limit: nat, readable: string -> bool, cut: Verdict)
    requires text <= whole && limit > 0
    requires DocumentRows(whole, limit, readable).Ok?
    ensures if Reach(whole, limit, readable) <= |text|
            then PrefixRows(text, limit, readable, cut) == DocumentRows(whole, limit, readable)
            else PrefixRows(text, limit, readable, cut).Err?
  {
    hide Skip, ScalarAt, ItemsAt, Entries, ItemsReach, Allowed;
    var start := Skip(whole, 0);
    CutSkip(text, whole, 0);
    var items := ValueAt(whole, start, readable).value.items;
    ScanIsExact(whole, start, readable, MAX_JSON_DEPTH + 1);
    assert At(whole, start, '[');
    if start < |text| {
      var i := Skip(whole, start + 1);
      if At(whole, i, ']') {
        EmptyArray(text, whole, start + 1, limit, readable, cut);
      } else {
        EntriesAgree(text, whole, start + 1, [], false, limit, readable, cut);
        assert [] + items == items;
      }
    }
  }

  lemma EmptyArray(
    text: string, whole: string, position: nat, limit: nat, readable: string -> bool, cut: Verdict)
    requires text <= whole && position <= |text|
    requires At(whole, Skip(whole, position), ']') && Skip(whole, Skip(whole, position) + 1) == |whole|
    ensures Entries(text, position, [], false, limit, readable, cut) ==
            if Skip(whole, position) < |text| then Ok([]) else Err(PreviewLimitExceeded)
  {
    hide Skip;
    CutSkip(text, whole, position);
    if Skip(whole, position) < |text| {
      CutSkip(text, whole, Skip(whole, position) + 1);
    }
  }
}
