/** The flat token scan that refuses a deep JSON text before the recursive decoder sees it. */
module Nesting {
  import opened Common
  import opened Json

  /** The end of the string token whose content begins at `i`: after its closing quote, or at the end
      of the text, or at a backslash that no character but a line feed follows, where the scan's
      pattern stops. */
  function TokenEnd(text: string, i: nat): (r: nat)
    ensures i <= r && (i <= |text| ==> r <= |text|)
    decreases |text| - i
  {
    if i >= |text| then i
    else if text[i] == '"' then i + 1
    else if text[i] == '\\' then
      if i + 1 < |text| && text[i + 1] != '\n' then TokenEnd(text, i + 2) else i
    else TokenEnd(text, i + 1)
  }

  /** Whether the scan from `i`, inside `depth` containers, ends without exceeding the limit. */
  predicate Passes(text: string, i: nat, depth: int, limit: int)
    decreases |text| - i
  {
    if i >= |text| then true
    else if text[i] == '"' then Passes(text, TokenEnd(text, i + 1), depth, limit)
    else if text[i] == '[' || text[i] == '{' then depth + 1 <= limit && Passes(text, i + 1, depth + 1, limit)
    else if text[i] == ']' || text[i] == '}' then depth - 1 == 0 || Passes(text, i + 1, depth - 1, limit)
    else Passes(text, i + 1, depth, limit)
  }

  predicate Allowed(text: string, start: nat, limit: int) {
    start >= |text| || (text[start] != '[' && text[start] != '{') || Passes(text, start, 0, limit)
  }

  /** The scan, token by token. */
  method CheckNesting(text: string, start: nat, limit: int) returns (ok: bool)
    ensures ok == Allowed(text, start, limit)
  {
    if start >= |text| || text[start] !in ['[', '{'] {
      return true;
    }
    var depth := 0;
    var position := start;
    while position < |text|
      invariant Passes(text, start, 0, limit) == Passes(text, position, depth, limit)
      decreases |text| - position
    {
      var c := text[position];
      if c == '[' || c == '{' {
        depth := depth + 1;
        if depth > limit {
          return false;
        }
      } else if c == ']' || c == '}' {
        depth := depth - 1;
        if depth == 0 {
          return true;
        }
      }
      position := if c == '"' then TokenEnd(text, position + 1) else position + 1;
    }
    ok := true;
  }

  // ---------------------------------------------------------------- staying in step with the decoder

  /** A string the decoder accepts is one token. */
  lemma {:induction false} StringIsToken(text: string, i: nat)
    requires StringEnd(text, i) != 0
    ensures TokenEnd(text, i) == StringEnd(text, i)
    decreases |text| - i
  {
    if text[i] == '\\' {
      var next := EscapeEnd(text, i);
      if next == i + 6 {
        PlainToken(text, i + 2, next);
      }
      StringIsToken(text, next);
    } else if text[i] != '"' {
      StringIsToken(text, i + 1);
    }
  }

  lemma {:induction false} PlainToken(text: string, i: nat, end: nat)
    requires i <= end <= |text| && forall k :: i <= k < end ==> text[k] != '"' && text[k] != '\\'
    ensures TokenEnd(text, i) == TokenEnd(text, end)
    decreases end - i
  {
    if i < end {
      PlainToken(text, i + 1, end);
    }
  }

  predicate Plain(c: char) {
    c !in ['"', '[', '{', ']', '}']
  }

  /** Text without quotes and brackets passes. */
  lemma {:induction false} PlainPasses(text: string, i: nat, end: nat, depth: int, limit: int)
    requires i <= end <= |text| && forall k :: i <= k < end ==> Plain(text[k])
    ensures Passes(text, i, depth, limit) == Passes(text, end, depth, limit)
    decreases end - i
  {
    if i < end {
      PlainPasses(text, i + 1, end, depth, limit);
    }
  }

  lemma {:induction false} SpacePasses(text: string, i: nat, depth: int, limit: int)
    ensures Passes(text, i, depth, limit) == Passes(text, Skip(text, i), depth, limit)
    decreases |text| - i
  {
    if i < |text| && IsSpace(text[i]) {
      SpacePasses(text, i + 1, depth, limit);
    }
  }

  lemma NumberIsPlain(text: string, i: nat)
    requires NumberEnd(text, i) != 0
    ensures forall k :: i <= k < NumberEnd(text, i) ==> Plain(text[k])
  {
    var whole := IntegerEnd(text, i);
    assert forall k :: i <= k < whole ==> Plain(text[k]);
    var fraction := FractionEnd(text, whole);
    assert forall k :: whole <= k < fraction ==> Plain(text[k]);
    assert forall k :: fraction <= k < ExponentEnd(text, fraction) ==> Plain(text[k]);
  }

  lemma ScalarPasses(text: string, i: nat, readable: string -> bool, depth: int, limit: int)
    requires ScalarAt(text, i, readable).Parsed?
    ensures Passes(text, i, depth, limit) == Passes(text, ScalarAt(text, i, readable).end, depth, limit)
  {
    hide NumberEnd, StringEnd, TokenEnd;
    var end := ScalarAt(text, i, readable).end;
    if At(text, i, '"') {
      StringIsToken(text, i + 1);
    } else {
      if At(text, i, 'n') || At(text, i, 't') || At(text, i, 'f') {
        assert text[i..end] in ["null", "true", "false"];
        assert forall k :: i <= k < end ==> text[k] == text[i..end][k - i];
      } else {
        NumberIsPlain(text, i);
      }
      PlainPasses(text, i, end, depth, limit);
    }
  }

  // ---------------------------------------------------------------- the bound

  /** After a closing bracket. */
  predicate Resumes(text: string, i: nat, depth: int, limit: int) {
    depth == 0 || Passes(text, i, depth, limit)
  }

  /** Over a value the decoder accepts, the scan passes exactly when the decoder stays within the
      limit; over one it refuses, only if it stays within the limit until there. */
  lemma {:induction false} ValueScan(text: string, i: nat, readable: string -> bool, depth: nat, limit: nat)
    requires depth <= limit
    ensures match ValueAt(text, i, readable)
            case Parsed(value, end, deep) =>
              Passes(text, i, depth, limit) <==>
                depth + deep <= limit
                && (if deep == 0 then Passes(text, end, depth, limit) else Resumes(text, end, depth, limit))
            case Failed(deep) => Passes(text, i, depth, limit) ==> depth + deep <= limit
    decreases |text| - i, 1
  {
    hide ScalarAt, ItemsAt, MembersAt, Skip, TokenEnd;
    if At(text, i, '[') {
      var j := Skip(text, i + 1);
      SpacePasses(text, i + 1, depth + 1, limit);
      if depth < limit && !At(text, j, ']') {
        ItemsScan(text, j, readable, depth + 1, limit);
      }
    } else if At(text, i, '{') {
      var j := Skip(text, i + 1);
      SpacePasses(text, i + 1, depth + 1, limit);
      if depth < limit && !At(text, j, '}') {
        MembersScan(text, j, readable, depth + 1, limit);
      }
    } else if ScalarAt(text, i, readable).Parsed? {
      ScalarPasses(text, i, readable, depth, limit);
    }
  }

  lemma {:induction false} ItemsScan(text: string, i: nat, readable: string -> bool, depth: nat, limit: nat)
    requires 0 < depth <= limit
    ensures match ItemsAt(text, i, readable)
            case Parsed(_, end, deep) =>
              Passes(text, i, depth, limit) <==> depth + deep <= limit && Resumes(text, end, depth - 1, limit)
            case Failed(deep) => Passes(text, i, depth, limit) ==> depth + deep <= limit
    decreases |text| - i, 2
  {
    hide ValueAt, Skip, TokenEnd;
    ValueScan(text, i, readable, depth, limit);
    var item := ValueAt(text, i, readable);
    if item.Parsed? {
      var j := Skip(text, item.end);
      SpacePasses(text, item.end, depth, limit);
      if At(text, j, ',') {
        SpacePasses(text, j + 1, depth, limit);
        ItemsScan(text, Skip(text, j + 1), readable, depth, limit);
      }
    }
  }

  lemma NamePasses(text: string, i: nat, depth: int, limit: int)
    requires NameAt(text, i).Parsed?
    ensures Passes(text, i, depth, limit) == Passes(text, NameAt(text, i).end, depth, limit)
  {
    hide StringEnd, TokenEnd, Skip;
    StringIsToken(text, i + 1);
    var named := StringEnd(text, i + 1);
    SpacePasses(text, named, depth, limit);
    SpacePasses(text, Skip(text, named) + 1, depth, limit);
  }

  lemma {:induction false} MembersScan(text: string, i: nat, readable: string -> bool, depth: nat, limit: nat)
    requires 0 < depth <= limit
    ensures match MembersAt(text, i, readable)
            case Parsed(_, end, deep) =>
              Passes(text, i, depth, limit) <==> depth + deep <= limit && Resumes(text, end, depth - 1, limit)
            case Failed(deep) => Passes(text, i, depth, limit) ==> depth + deep <= limit
    decreases |text| - i, 2
  {
    hide ValueAt, NameAt, Skip, TokenEnd;
    var name := NameAt(text, i);
    if name.Parsed? {
      NamePasses(text, i, depth, limit);
      ValueScan(text, name.end, readable, depth, limit);
      var item := ValueAt(text, name.end, readable);
      if item.Parsed? {
        var j := Skip(text, item.end);
        SpacePasses(text, item.end, depth, limit);
        if At(text, j, ',') {
          SpacePasses(text, j + 1, depth, limit);
          MembersScan(text, Skip(text, j + 1), readable, depth, limit);
        }
      }
    }
  }

  /** How many containers deep a value is. */
  function Depth(value: Value): nat {
    match value
    case Array(items) => 1 + ItemsDepth(items)
    case Object(members) => 1 + MembersDepth(members)
    case _ => 0
  }

  function ItemsDepth(items: seq<Value>): nat {
    if items == [] then 0 else Max(Depth(items[0]), ItemsDepth(items[1..]))
  }

  function MembersDepth(members: seq<Member>): nat {
    if members == [] then 0 else Max(Depth(members[0].value), MembersDepth(members[1..]))
  }

  /** The decoder's recursion is as deep as the tree it builds. */
  lemma {:induction false} ValueDepth(text: string, i: nat, readable: string -> bool)
    requires ValueAt(text, i, readable).Parsed?
    ensures ValueAt(text, i, readable).depth == Depth(ValueAt(text, i, readable).value)
    decreases |text| - i, 1
  {
    hide ScalarAt, Skip;
    if At(text, i, '[') {
      if !At(text, Skip(text, i + 1), ']') {
        ItemsDepths(text, Skip(text, i + 1), readable);
      }
    } else if At(text, i, '{') {
      if !At(text, Skip(text, i + 1), '}') {
        MembersDepths(text, Skip(text, i + 1), readable);
      }
    }
  }

  lemma {:induction false} ItemsDepths(text: string, i: nat, readable: string -> bool)
    requires ItemsAt(text, i, readable).Parsed?
    ensures ItemsAt(text, i, readable).depth == ItemsDepth(ItemsAt(text, i, readable).value)
    decreases |text| - i, 2
  {
    hide ValueAt, Skip;
    ValueDepth(text, i, readable);
    var item := ValueAt(text, i, readable);
    var j := Skip(text, item.end);
    if At(text, j, ',') {
      ItemsDepths(text, Skip(text, j + 1), readable);
      var rest := ItemsAt(text, Skip(text, j + 1), readable).value;
      assert ([item.value] + rest)[1..] == rest;
    }
  }

  lemma {:induction false} MembersDepths(text: string, i: nat, readable: string -> bool)
    requires MembersAt(text, i, readable).Parsed?
    ensures MembersAt(text, i, readable).depth == MembersDepth(MembersAt(text, i, readable).value)
    decreases |text| - i, 2
  {
    hide ValueAt, NameAt, Skip;
    var name := NameAt(text, i);
    ValueDepth(text, name.end, readable);
    var item := ValueAt(text, name.end, readable);
    var j := Skip(text, item.end);
    if At(text, j, ',') {
      MembersDepths(text, Skip(text, j + 1), readable);
      var rest := MembersAt(text, Skip(text, j + 1), readable).value;
      assert ([Member(name.value, item.value)] + rest)[1..] == rest;
    }
  }

  /** On every text, well-formed or not: if the scan passes, the decoder never recurses deeper than
      the limit, whether it succeeds or fails. */
  lemma ScanBoundsTheDecoder(text: string, start: nat, readable: string -> bool, limit: nat)
    requires Allowed(text, start, limit)
    ensures ValueAt(text, start, readable).depth <= limit
  {
    hide Passes, ScalarAt, ItemsAt, MembersAt;
    ValueScan(text, start, readable, 0, limit);
  }

  /** On a well-formed value the scan refuses exactly the values that are deeper than the limit,
      whatever follows the value. */
  lemma ScanIsExact(text: string, start: nat, readable: string -> bool, limit: nat)
    requires ValueAt(text, start, readable).Parsed?
    ensures Allowed(text, start, limit) <==> Depth(ValueAt(text, start, readable).value) <= limit
  {
    hide Passes, ScalarAt, ItemsAt, MembersAt;
    ValueScan(text, start, readable, 0, limit);
    ValueDepth(text, start, readable);
  }
}
