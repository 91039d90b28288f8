/** JSON texts as RFC 8259 writes them, with any space between their tokens: the decoder reads each of them
    back, and nothing else. */
module JsonText {
  import opened Common
  import opened Json
  import opened JsonScalars
  import opened Nesting
  import opened Slices

  // ---------------------------------------------------------------- the texts

  /** A value as it is written, with the spaces between its tokens. */
  datatype Tree =
    | Leaf(value: Value)
    | List(gap: string, items: seq<Item>)
    | Dict(gap: string, members: seq<Pair>)

  datatype Item = Item(before: string, tree: Tree, after: string)

  datatype Pair = Pair(before: string, name: string, afterName: string, beforeValue: string, tree: Tree, after: string)

  /** Space, tab, line feed and carriage return (section 2). */
  predicate AreSpaces(text: string) {
    forall k :: 0 <= k < |text| ==> text[k] in {'\U{0020}', '\U{0009}', '\U{000A}', '\U{000D}'}
  }

  ghost predicate IsLeaf(value: Value, readable: string -> bool) {
    match value
    case Text(raw) => IsString(raw)
    case Number(raw) => IsNumber(raw) && readable(raw)
    case Array(_) => false
    case Object(_) => false
    case _ => true
  }

  ghost predicate IsTree(tree: Tree, readable: string -> bool) {
    match tree
    case Leaf(value) => IsLeaf(value, readable)
    case List(gap, items) => AreSpaces(gap) && forall k :: 0 <= k < |items| ==> IsItem(items[k], readable)
    case Dict(gap, members) => AreSpaces(gap) && forall k :: 0 <= k < |members| ==> IsPair(members[k], readable)
  }

  ghost predicate IsItem(item: Item, readable: string -> bool) {
    AreSpaces(item.before) && AreSpaces(item.after) && IsTree(item.tree, readable)
  }

  ghost predicate IsPair(pair: Pair, readable: string -> bool) {
    && AreSpaces(pair.before) && AreSpaces(pair.afterName) && AreSpaces(pair.beforeValue) && AreSpaces(pair.after)
    && IsString(pair.name) && IsTree(pair.tree, readable)
  }

  function LeafText(value: Value): string {
    match value
    case Null => "null"
    case Boolean(truth) => if truth then "true" else "false"
    case Number(raw) => raw
    case Text(raw) => raw
    case _ => ""
  }

  function TreeText(tree: Tree): string {
    match tree
    case Leaf(value) => LeafText(value)
    case List(gap, items) => ['['] + if items == [] then gap + [']'] else ItemsText(items)
    case Dict(gap, members) => ['{'] + if members == [] then gap + ['}'] else PairsText(members)
  }

  /** The items and the bracket that closes them. */
  function ItemsText(items: seq<Item>): string
    requires items != []
  {
    items[0].before + (TreeText(items[0].tree) + (items[0].after
    + if |items| == 1 then [']'] else [','] + ItemsText(items[1..])))
  }

  function PairsText(members: seq<Pair>): string
    requires members != []
  {
    members[0].before + (NameText(members[0]) + (TreeText(members[0].tree) + (members[0].after
    + if |members| == 1 then ['}'] else [','] + PairsText(members[1..]))))
  }

  /** A name, its colon, and the space before the value. */
  function NameText(pair: Pair): string {
    pair.name + (pair.afterName + ([':'] + pair.beforeValue))
  }

  function ValueOf(tree: Tree): Value {
    match tree
    case Leaf(value) => value
    case List(_, items) => Array(ValuesOf(items))
    case Dict(_, members) => Object(MembersOf(members))
  }

  function ValuesOf(items: seq<Item>): seq<Value> {
    if items == [] then [] else [ValueOf(items[0].tree)] + ValuesOf(items[1..])
  }

  function MembersOf(members: seq<Pair>): seq<Member> {
    if members == [] then []
    else [Member(members[0].name, ValueOf(members[0].tree))] + MembersOf(members[1..])
  }

  // ---------------------------------------------------------------- spaces

  lemma Spaces(c: char)
    ensures IsSpace(c) <==> c in {'\U{0020}', '\U{0009}', '\U{000A}', '\U{000D}'}
  {
  }

  lemma {:induction false} SpacesAreSkipped(text: string, i: nat, spaces: string)
    requires AreSpaces(spaces) && Holds(text, i, spaces)
    requires i + |spaces| < |text| ==> !IsSpace(text[i + |spaces|])
    ensures Skip(text, i) == i + |spaces|
    decreases |spaces|
  {
    if spaces != [] {
      HoldsParts(text, i, [spaces[0]], spaces[1..]);
      assert [spaces[0]] + spaces[1..] == spaces && text[i] == text[i..i + 1][0];
      Spaces(text[i]);
      SpacesAreSkipped(text, i + 1, spaces[1..]);
    }
  }

  lemma {:induction false} SkippedAreSpaces(text: string, i: nat)
    requires i <= |text|
    ensures AreSpaces(text[i..Skip(text, i)])
    decreases |text| - i
  {
    if i < |text| && IsSpace(text[i]) {
      SkippedAreSpaces(text, i + 1);
      Spaces(text[i]);
      assert text[i..Skip(text, i)] == [text[i]] + text[i + 1..Skip(text, i + 1)];
    }
  }

  // ---------------------------------------------------------------- every text is read

  /** A value may begin here. */
  predicate Begins(text: string, i: nat) {
    i < |text| && !IsSpace(text[i]) && text[i] !in {']', '}', ',', ':'}
  }

  lemma LiteralReads(text: string, i: nat, value: Value, readable: string -> bool)
    requires (value.Null? || value.Boolean?) && Holds(text, i, LeafText(value))
    ensures ScalarAt(text, i, readable) == Parsed(value, i + |LeafText(value)|, 0)
    ensures Begins(text, i) && text[i] !in {'[', '{'}
  {
    HoldsAt(text, i, LeafText(value));
    assert text[i + 0] == LeafText(value)[0];
  }

  lemma LeafReads(text: string, i: nat, value: Value, readable: string -> bool)
    requires IsLeaf(value, readable) && Holds(text, i, LeafText(value))
    requires value.Number? ==> Stops(text, i + |LeafText(value)|)
    ensures ScalarAt(text, i, readable) == Parsed(value, i + |LeafText(value)|, 0)
    ensures Begins(text, i) && text[i] !in {'[', '{'}
  {
    hide NumberEnd, StringEnd, Stops, Holds, IsString, IsNumber;
    match value
    case Text(raw) => StringsAreRead(text, i, raw);
    case Number(raw) => NumbersAreRead(text, i, raw);
    case _ => LiteralReads(text, i, value, readable);
  }

  /** What a value is, by the character it begins with. */
  lemma ValueBegins(text: string, i: nat, readable: string -> bool)
    ensures !At(text, i, '[') && !At(text, i, '{') ==> ValueAt(text, i, readable) == ScalarAt(text, i, readable)
    ensures var j := Skip(text, i + 1);
            && (At(text, i, '[') && At(text, j, ']') ==> ValueAt(text, i, readable) == Parsed(Array([]), j + 1, 1))
            && (At(text, i, '{') && At(text, j, '}') ==> ValueAt(text, i, readable) == Parsed(Object([]), j + 1, 1))
    ensures var j := Skip(text, i + 1);
            var items := ItemsAt(text, j, readable);
            At(text, i, '[') && !At(text, j, ']') && items.Parsed? ==>
              ValueAt(text, i, readable) == Parsed(Array(items.value), items.end, items.depth + 1)
    ensures var j := Skip(text, i + 1);
            var members := MembersAt(text, j, readable);
            At(text, i, '{') && !At(text, j, '}') && members.Parsed? ==>
              ValueAt(text, i, readable) == Parsed(Object(members.value), members.end, members.depth + 1)
  {
    hide ScalarAt, ItemsAt, MembersAt, Skip;
  }

  lemma EmptyDepths()
    ensures Depth(Array(ValuesOf([]))) == 1 && ValuesOf([]) == []
    ensures Depth(Object(MembersOf([]))) == 1 && MembersOf([]) == []
  {
  }

  /** Every value is read to its end, whatever follows it, if that does not continue a number. */
  lemma {:induction false} TreeReads(text: string, i: nat, tree: Tree, readable: string -> bool)
    requires IsTree(tree, readable) && Holds(text, i, TreeText(tree))
    requires ValueOf(tree).Number? ==> Stops(text, i + |TreeText(tree)|)
    ensures ValueAt(text, i, readable) == Parsed(ValueOf(tree), i + |TreeText(tree)|, Depth(ValueOf(tree)))
    ensures Begins(text, i)
    decreases tree, 1
  {
    hide ScalarAt, Stops, ItemsAt, MembersAt, ItemsText, PairsText, Skip, IsLeaf, IsItem, IsPair, LeafText, ValueAt;
    hide Holds, AreSpaces, ItemsDepth, MembersDepth;
    ValueBegins(text, i, readable);
    match tree
    case List(gap, items) =>
      HoldsParts(text, i, ['['], if items == [] then gap + [']'] else ItemsText(items));
      Opening(text, i, '[');
      if items == [] {
        Closing(text, i + 1, gap, ']');
        EmptyDepths();
      } else {
        ItemsRead(text, i + 1, items, readable);
      }
    case Dict(gap, members) =>
      HoldsParts(text, i, ['{'], if members == [] then gap + ['}'] else PairsText(members));
      Opening(text, i, '{');
      if members == [] {
        Closing(text, i + 1, gap, '}');
        EmptyDepths();
      } else {
        PairsRead(text, i + 1, members, readable);
      }
    case Leaf(value) => LeafReads(text, i, value, readable);
  }

  lemma Opening(text: string, i: nat, bracket: char)
    requires Holds(text, i, [bracket]) && bracket in {'[', '{', '"'}
    ensures At(text, i, bracket) && Begins(text, i)
  {
    assert text[i] == text[i..i + 1][0];
  }

  /** A mark behind spaces. */
  lemma Closing(text: string, i: nat, spaces: string, mark: char)
    requires AreSpaces(spaces) && Holds(text, i, spaces + [mark]) && mark in {']', '}', ',', ':'}
    ensures Skip(text, i) == i + |spaces| && At(text, i + |spaces|, mark)
    ensures mark != ':' ==> Stops(text, i)
  {
    hide Skip;
    HoldsParts(text, i, spaces, [mark]);
    var end := i + |spaces|;
    assert text[end] == text[end..end + 1][0];
    Spaces(mark);
    SpacesAreSkipped(text, i, spaces);
    if spaces != [] {
      HoldsAt(text, i, spaces);
      assert text[i + 0] == spaces[0];
      Spaces(text[i]);
    }
  }

  lemma MarkFirst(text: string, i: nat, spaces: string, mark: char, tail: string)
    requires AreSpaces(spaces) && Holds(text, i, spaces + ([mark] + tail)) && mark in {']', '}', ',', ':'}
    ensures Skip(text, i) == i + |spaces| && At(text, i + |spaces|, mark) && Holds(text, i + |spaces| + 1, tail)
    ensures mark != ':' ==> Stops(text, i)
  {
    hide Skip, Stops;
    assert spaces + ([mark] + tail) == (spaces + [mark]) + tail;
    HoldsParts(text, i, spaces + [mark], tail);
    Closing(text, i, spaces, mark);
  }

  /** The spaces before a value. */
  lemma SkippedTo(text: string, i: nat, spaces: string)
    requires AreSpaces(spaces) && Holds(text, i, spaces) && Begins(text, i + |spaces|)
    ensures Skip(text, i) == i + |spaces|
  {
    SpacesAreSkipped(text, i, spaces);
  }

  function ItemsTail(items: seq<Item>): string
    requires items != []
  {
    if |items| == 1 then [] else ItemsText(items[1..])
  }

  lemma ItemsParts(items: seq<Item>)
    requires items != []
    ensures var mark := if |items| == 1 then ']' else ',';
            ItemsText(items) ==
            items[0].before + (TreeText(items[0].tree) + (items[0].after + ([mark] + ItemsTail(items))))
  {
    hide TreeText;
  }

  lemma ItemsValues(items: seq<Item>)
    requires items != []
    ensures var values, first := ValuesOf(items), ValueOf(items[0].tree);
            if |items| == 1 then values == [first] && ItemsDepth(values) == Depth(first)
            else
              && values == [first] + ValuesOf(items[1..])
              && ItemsDepth(values) == Max(Depth(first), ItemsDepth(ValuesOf(items[1..])))
  {
    hide ValueOf, Depth;
    assert ValuesOf(items)[1..] == ValuesOf(items[1..]);
    if |items| == 1 {
      assert ValuesOf(items[1..]) == [];
    }
  }

  /** Where the parts of the first item are. */
  lemma ItemLies(text: string, i: nat, items: seq<Item>)
    requires items != [] && Holds(text, i, ItemsText(items))
    requires AreSpaces(items[0].before) && AreSpaces(items[0].after)
    ensures var start := i + |items[0].before|;
            var end := start + |TreeText(items[0].tree)|;
            var at := end + |items[0].after|;
            && Holds(text, i, items[0].before) && Holds(text, start, TreeText(items[0].tree))
            && Skip(text, end) == at && At(text, at, if |items| == 1 then ']' else ',') && Stops(text, end)
            && Holds(text, at + 1, ItemsTail(items))
            && i + |ItemsText(items)| == at + 1 + |ItemsTail(items)|
  {
    hide Skip, Stops, Holds, TreeText, ItemsText, ItemsTail, AreSpaces;
    var Item(before, tree, after) := items[0];
    var mark, tail := if |items| == 1 then ']' else ',', ItemsTail(items);
    ItemsParts(items);
    var start := i + |before|;
    HoldsParts(text, i, before, TreeText(tree) + (after + ([mark] + tail)));
    HoldsParts(text, start, TreeText(tree), after + ([mark] + tail));
    MarkFirst(text, start + |TreeText(tree)|, after, mark, tail);
  }

  /** An item that has been read, and what follows it. */
  lemma ItemStep(text: string, i: nat, readable: string -> bool, value: Value, end: nat, depth: nat, at: nat)
    requires ValueAt(text, i, readable) == Parsed(value, end, depth) && Skip(text, end) == at
    ensures At(text, at, ']') ==> ItemsAt(text, i, readable) == Parsed([value], at + 1, depth)
    ensures var rest := ItemsAt(text, Skip(text, at + 1), readable);
            At(text, at, ',') && rest.Parsed? ==>
              ItemsAt(text, i, readable) == Parsed([value] + rest.value, rest.end, Max(depth, rest.depth))
  {
    hide ValueAt, Skip;
  }

  lemma {:induction false} ItemsRead(text: string, i: nat, items: seq<Item>, readable: string -> bool)
    requires items != [] && Holds(text, i, ItemsText(items))
    requires forall k :: 0 <= k < |items| ==> IsItem(items[k], readable)
    ensures var start, values := i + |items[0].before|, ValuesOf(items);
            && Skip(text, i) == start && Begins(text, start)
            && ItemsAt(text, start, readable) == Parsed(values, i + |ItemsText(items)|, ItemsDepth(values))
    decreases items, 0
  {
    hide ValueAt, Skip, Stops, Holds, TreeText, ValueOf, ItemsText, ItemsDepth, ValuesOf, Depth, Begins, ItemsAt;
    hide IsSpace, AreSpaces;
    ItemLies(text, i, items);
    ItemsValues(items);
    var start, tree := i + |items[0].before|, items[0].tree;
    var end := start + |TreeText(tree)|;
    var at := end + |items[0].after|;
    TreeReads(text, start, tree, readable);
    SkippedTo(text, i, items[0].before);
    ItemStep(text, start, readable, ValueOf(tree), end, Depth(ValueOf(tree)), at);
    if |items| > 1 {
      ItemsRead(text, at + 1, items[1..], readable);
    }
  }

  function PairsTail(members: seq<Pair>): string
    requires members != []
  {
    if |members| == 1 then [] else PairsText(members[1..])
  }

  lemma PairsParts(members: seq<Pair>)
    requires members != []
    ensures var mark := if |members| == 1 then '}' else ',';
            PairsText(members) ==
            members[0].before + (NameText(members[0]) + (TreeText(members[0].tree)
            + (members[0].after + ([mark] + PairsTail(members)))))
  {
    hide TreeText, NameText;
  }

  lemma PairsMembers(members: seq<Pair>)
    requires members != []
    ensures var all, first := MembersOf(members), Member(members[0].name, ValueOf(members[0].tree));
            if |members| == 1 then all == [first] && MembersDepth(all) == Depth(first.value)
            else
              && all == [first] + MembersOf(members[1..])
              && MembersDepth(all) == Max(Depth(first.value), MembersDepth(MembersOf(members[1..])))
  {
    hide ValueOf, Depth;
    assert MembersOf(members)[1..] == MembersOf(members[1..]);
    if |members| == 1 {
      assert MembersOf(members[1..]) == [];
    }
  }

  /** Where the parts of the first member are. */
  lemma PairLies(text: string, i: nat, members: seq<Pair>)
    requires members != [] && Holds(text, i, PairsText(members))
    requires AreSpaces(members[0].before) && AreSpaces(members[0].after)
    ensures var named := i + |members[0].before|;
            var start := named + |NameText(members[0])|;
            var end := start + |TreeText(members[0].tree)|;
            var at := end + |members[0].after|;
            && Holds(text, i, members[0].before) && Holds(text, named, NameText(members[0]))
            && Holds(text, start, TreeText(members[0].tree))
            && Skip(text, end) == at && At(text, at, if |members| == 1 then '}' else ',') && Stops(text, end)
            && Holds(text, at + 1, PairsTail(members))
            && i + |PairsText(members)| == at + 1 + |PairsTail(members)|
  {
    hide Skip, Stops, Holds, TreeText, PairsText, PairsTail, AreSpaces, NameText;
    var pair := members[0];
    var mark, tail := if |members| == 1 then '}' else ',', PairsTail(members);
    PairsParts(members);
    var named := i + |pair.before|;
    var start := named + |NameText(pair)|;
    HoldsParts(text, i, pair.before, NameText(pair) + (TreeText(pair.tree) + (pair.after + ([mark] + tail))));
    HoldsParts(text, named, NameText(pair), TreeText(pair.tree) + (pair.after + ([mark] + tail)));
    HoldsParts(text, start, TreeText(pair.tree), pair.after + ([mark] + tail));
    MarkFirst(text, start + |TreeText(pair.tree)|, pair.after, mark, tail);
  }

  /** A member that has been read, and what follows it. */
  lemma PairStep(
    text: string, i: nat, readable: string -> bool, member: Member, start: nat, end: nat, depth: nat, at: nat)
    requires NameAt(text, i) == Parsed(member.name, start, 0)
    requires ValueAt(text, start, readable) == Parsed(member.value, end, depth) && Skip(text, end) == at
    ensures At(text, at, '}') ==> MembersAt(text, i, readable) == Parsed([member], at + 1, depth)
    ensures var rest := MembersAt(text, Skip(text, at + 1), readable);
            At(text, at, ',') && rest.Parsed? ==>
              MembersAt(text, i, readable) == Parsed([member] + rest.value, rest.end, Max(depth, rest.depth))
  {
    hide ValueAt, NameAt, Skip;
  }

  lemma NameReads(text: string, i: nat, pair: Pair)
    requires IsString(pair.name) && AreSpaces(pair.afterName) && AreSpaces(pair.beforeValue)
    requires Holds(text, i, NameText(pair)) && Begins(text, i + |NameText(pair)|)
    ensures NameAt(text, i) == Parsed(pair.name, i + |NameText(pair)|, 0) && Begins(text, i)
  {
    hide Skip, StringEnd, Holds, IsString, AreSpaces;
    var colon := i + |pair.name| + |pair.afterName|;
    HoldsParts(text, i, pair.name, pair.afterName + ([':'] + pair.beforeValue));
    StringsAreRead(text, i, pair.name);
    MarkFirst(text, i + |pair.name|, pair.afterName, ':', pair.beforeValue);
    SkippedTo(text, colon + 1, pair.beforeValue);
    Spaces('"');
  }

  lemma {:induction false} PairsRead(text: string, i: nat, members: seq<Pair>, readable: string -> bool)
    requires members != [] && Holds(text, i, PairsText(members))
    requires forall k :: 0 <= k < |members| ==> IsPair(members[k], readable)
    ensures var start, all := i + |members[0].before|, MembersOf(members);
            && Skip(text, i) == start && Begins(text, start)
            && MembersAt(text, start, readable) == Parsed(all, i + |PairsText(members)|, MembersDepth(all))
    decreases members, 0
  {
    hide ValueAt, NameAt, Skip, Stops, Holds, TreeText, ValueOf, PairsText, MembersDepth, MembersOf, Depth;
    hide Begins, IsSpace, AreSpaces, NameText, IsString, MembersAt;
    PairLies(text, i, members);
    PairsMembers(members);
    var pair, named := members[0], i + |members[0].before|;
    var start := named + |NameText(pair)|;
    var end := start + |TreeText(pair.tree)|;
    var at, value := end + |pair.after|, ValueOf(pair.tree);
    TreeReads(text, start, pair.tree, readable);
    NameReads(text, named, pair);
    SkippedTo(text, i, pair.before);
    PairStep(text, named, readable, Member(pair.name, value), start, end, Depth(value), at);
    if |members| > 1 {
      PairsRead(text, at + 1, members[1..], readable);
    }
  }

  // ---------------------------------------------------------------- nothing else is read

  lemma ReadLeaf(text: string, i: nat, readable: string -> bool)
    requires ScalarAt(text, i, readable).Parsed?
    ensures var leaf := ScalarAt(text, i, readable);
            IsLeaf(leaf.value, readable) && LeafText(leaf.value) == text[i..leaf.end]
  {
    hide NumberEnd, StringEnd, IsString, IsNumber;
    if At(text, i, '"') {
      ReadStringsAreStrings(text, i);
    } else if !At(text, i, 'n') && !At(text, i, 't') && !At(text, i, 'f') {
      ReadNumbersAreNumbers(text, i);
    }
  }

  /** Two parts of a text that lie side by side. */
  lemma Joined(text: string, i: nat, j: nat, k: nat)
    requires i <= j <= k <= |text|
    ensures text[i..j] + text[j..k] == text[i..k]
  {
  }

  lemma JoinedParts(text: string, a: nat, b: nat, c: nat, d: nat, e: nat)
    requires a <= b <= c <= d < e <= |text|
    ensures text[a..e] == text[a..b] + (text[b..c] + (text[c..d] + ([text[d]] + text[d + 1..e])))
  {
    assert text[d..e] == [text[d]] + text[d + 1..e];
  }

  lemma MarkIs(text: string, i: nat, mark: char)
    requires At(text, i, mark)
    ensures text[i..i + 1] == [mark]
  {
  }

  /** Whatever is read as a value is the text of a tree, from the first character to the last. */
  lemma {:induction false} ReadTree(text: string, i: nat, readable: string -> bool) returns (tree: Tree)
    requires ValueAt(text, i, readable).Parsed?
    ensures var read := ValueAt(text, i, readable);
            IsTree(tree, readable) && ValueOf(tree) == read.value && TreeText(tree) == text[i..read.end]
    decreases |text| - i, 1
  {
    hide ScalarAt, Skip, ItemsAt, MembersAt, IsItem, IsPair, AreSpaces, ItemsText, PairsText;
    var end := ValueAt(text, i, readable).end;
    if At(text, i, '[') {
      var j := Skip(text, i + 1);
      SkippedAreSpaces(text, i + 1);
      MarkIs(text, i, '[');
      Joined(text, i, i + 1, end);
      if At(text, j, ']') {
        MarkIs(text, j, ']');
        Joined(text, i + 1, j, j + 1);
        tree := List(text[i + 1..j], []);
      } else {
        var items := ReadItems(text, i + 1, readable);
        tree := List("", items);
        assert AreSpaces("") by { NoSpaces(); }
      }
    } else if At(text, i, '{') {
      var j := Skip(text, i + 1);
      SkippedAreSpaces(text, i + 1);
      MarkIs(text, i, '{');
      Joined(text, i, i + 1, end);
      if At(text, j, '}') {
        MarkIs(text, j, '}');
        Joined(text, i + 1, j, j + 1);
        tree := Dict(text[i + 1..j], []);
      } else {
        var members := ReadPairs(text, i + 1, readable);
        tree := Dict("", members);
        assert AreSpaces("") by { NoSpaces(); }
      }
    } else {
      ReadLeaf(text, i, readable);
      tree := Leaf(ScalarAt(text, i, readable).value);
    }
  }

  lemma NoSpaces()
    ensures AreSpaces("")
  {
  }

  lemma ItemsWereRead(text: string, i: nat, readable: string -> bool)
    requires ItemsAt(text, i, readable).Parsed?
    ensures var read, value := ItemsAt(text, i, readable), ValueAt(text, i, readable);
            && value.Parsed? && i < value.end < read.end <= |text|
            && var at := Skip(text, value.end);
               var rest := ItemsAt(text, Skip(text, at + 1), readable);
               && value.end <= at < read.end
               && if At(text, at, ']') then read.end == at + 1 && read.value == [value.value]
                  else At(text, at, ',') && rest.Parsed? && read.end == rest.end
                       && read.value == [value.value] + rest.value
  {
    hide ValueAt, Skip;
  }

  lemma MembersWereRead(text: string, i: nat, readable: string -> bool)
    requires MembersAt(text, i, readable).Parsed?
    ensures var read, name := MembersAt(text, i, readable), NameAt(text, i);
            && name.Parsed?
            && var value := ValueAt(text, name.end, readable);
               && value.Parsed? && i < name.end < value.end < read.end <= |text|
               && var at, member := Skip(text, value.end), Member(name.value, value.value);
                  var rest := MembersAt(text, Skip(text, at + 1), readable);
                  && value.end <= at < read.end
                  && if At(text, at, '}') then read.end == at + 1 && read.value == [member]
                     else At(text, at, ',') && rest.Parsed? && read.end == rest.end
                          && read.value == [member] + rest.value
  {
    hide ValueAt, NameAt, Skip;
  }

  /** The items from `i` on, with the spaces before the first. */
  lemma {:induction false} ReadItems(text: string, i: nat, readable: string -> bool) returns (items: seq<Item>)
    requires i <= |text| && ItemsAt(text, Skip(text, i), readable).Parsed?
    ensures var read := ItemsAt(text, Skip(text, i), readable);
            && items != [] && (forall k :: 0 <= k < |items| ==> IsItem(items[k], readable))
            && ValuesOf(items) == read.value && ItemsText(items) == text[i..read.end]
    decreases |text| - i, 2
  {
    hide ValueAt, Skip, AreSpaces, TreeText, IsTree, ValueOf, ItemsText, ItemsTail, ValuesOf, ItemsAt;
    ItemsWereRead(text, Skip(text, i), readable);
    var start := Skip(text, i);
    var value := ValueAt(text, start, readable);
    var tree := ReadTree(text, start, readable);
    var at := Skip(text, value.end);
    SkippedAreSpaces(text, i);
    SkippedAreSpaces(text, value.end);
    var first := Item(text[i..start], tree, text[value.end..at]);
    var end := ItemsAt(text, start, readable).end;
    items := [first];
    if !At(text, at, ']') {
      var rest := ReadItems(text, at + 1, readable);
      items := [first] + rest;
      assert items[1..] == rest;
    }
    ItemsTailIs(items);
    ItemsParts(items);
    ItemsValues(items);
    JoinedParts(text, i, start, value.end, at, end);
  }

  lemma ItemsTailIs(items: seq<Item>)
    requires items != []
    ensures ItemsTail(items) == if |items| == 1 then [] else ItemsText(items[1..])
  {
  }

  lemma PairsTailIs(members: seq<Pair>)
    requires members != []
    ensures PairsTail(members) == if |members| == 1 then [] else PairsText(members[1..])
  {
  }

  lemma ReadName(text: string, i: nat) returns (pair: Pair)
    requires NameAt(text, i).Parsed?
    ensures var name := NameAt(text, i);
            && pair.name == name.value && NameText(pair) == text[i..name.end]
            && IsString(pair.name) && AreSpaces(pair.afterName) && AreSpaces(pair.beforeValue)
  {
    hide StringEnd, Skip, IsString, AreSpaces;
    var named := StringEnd(text, i + 1);
    var colon := Skip(text, named);
    var end := Skip(text, colon + 1);
    ReadStringsAreStrings(text, i);
    SkippedAreSpaces(text, named);
    SkippedAreSpaces(text, colon + 1);
    MarkIs(text, colon, ':');
    pair := Pair("", text[i..named], text[named..colon], text[colon + 1..end], Leaf(Null), "");
    Joined(text, colon, colon + 1, end);
    Joined(text, named, colon, end);
    Joined(text, i, named, end);
  }

  lemma {:induction false} ReadPairs(text: string, i: nat, readable: string -> bool) returns (members: seq<Pair>)
    requires i <= |text| && MembersAt(text, Skip(text, i), readable).Parsed?
    ensures var read := MembersAt(text, Skip(text, i), readable);
            && members != [] && (forall k :: 0 <= k < |members| ==> IsPair(members[k], readable))
            && MembersOf(members) == read.value && PairsText(members) == text[i..read.end]
    decreases |text| - i, 2
  {
    hide ValueAt, NameAt, Skip, AreSpaces, TreeText, IsTree, ValueOf, IsString, PairsText, PairsTail, MembersOf;
    hide NameText, MembersAt;
    MembersWereRead(text, Skip(text, i), readable);
    var named := Skip(text, i);
    var name := ReadName(text, named);
    var start := NameAt(text, named).end;
    var value := ValueAt(text, start, readable);
    var tree := ReadTree(text, start, readable);
    var at := Skip(text, value.end);
    SkippedAreSpaces(text, i);
    SkippedAreSpaces(text, value.end);
    var first := name.(before := text[i..named], tree := tree, after := text[value.end..at]);
    assert NameText(first) == NameText(name) by { SameName(first, name); }
    var end := MembersAt(text, named, readable).end;
    members := [first];
    if !At(text, at, '}') {
      var rest := ReadPairs(text, at + 1, readable);
      members := [first] + rest;
      assert members[1..] == rest;
    }
    PairsTailIs(members);
    PairsParts(members);
    PairsMembers(members);
    JoinedParts(text, named, start, value.end, at, end);
    Joined(text, i, named, end);
  }

  lemma SameName(a: Pair, b: Pair)
    requires a.name == b.name && a.afterName == b.afterName && a.beforeValue == b.beforeValue
    ensures NameText(a) == NameText(b)
  {
  }

  // ---------------------------------------------------------------- whole documents

  /** The text is a written value with spaces around it. */
  ghost predicate Writes(text: string, value: Value, readable: string -> bool) {
    exists tree, before, after :: IsDocument(text, tree, before, after, readable) && ValueOf(tree) == value
  }

  ghost predicate IsDocument(text: string, tree: Tree, before: string, after: string, readable: string -> bool) {
    IsTree(tree, readable) && AreSpaces(before) && AreSpaces(after) && text == before + (TreeText(tree) + after)
  }

  lemma WrittenDocuments(
    text: string, tree: Tree, before: string, after: string, readable: string -> bool)
    requires IsDocument(text, tree, before, after, readable)
    ensures var start, end := |before|, |before| + |TreeText(tree)|;
            && Skip(text, 0) == start && Skip(text, end) == |text|
            && ValueAt(text, start, readable) == Parsed(ValueOf(tree), end, Depth(ValueOf(tree)))
  {
    hide ValueAt, Skip, TreeText, Holds, AreSpaces, IsTree, Begins;
    assert Holds(text, 0, text) by { Whole(text); }
    HoldsParts(text, 0, before, TreeText(tree) + after);
    HoldsParts(text, |before|, TreeText(tree), after);
    var end := |before| + |TreeText(tree)|;
    SpacesAreSkipped(text, end, after);
    SpacesStop(text, end, after);
    TreeReads(text, |before|, tree, readable);
    SkippedTo(text, 0, before);
  }

  lemma Whole(text: string)
    ensures Holds(text, 0, text)
  {
  }

  lemma SpacesStop(text: string, i: nat, spaces: string)
    requires AreSpaces(spaces) && Holds(text, i, spaces) && i + |spaces| == |text|
    ensures Stops(text, i)
  {
    if spaces != [] {
      HoldsAt(text, i, spaces);
      assert text[i + 0] == spaces[0];
      Spaces(text[i]);
    }
  }

  /** The decoder reads exactly the texts that write a value, and as that value. */
  lemma DocumentsAreExact(text: string, value: Value, readable: string -> bool)
    ensures Document(text, readable).Parsed? && Document(text, readable).value == value <==>
            Writes(text, value, readable)
  {
    hide ValueAt, Skip, TreeText, AreSpaces, IsTree;
    if Writes(text, value, readable) {
      var tree, before, after :| IsDocument(text, tree, before, after, readable) && ValueOf(tree) == value;
      WrittenDocuments(text, tree, before, after, readable);
    }
    if Document(text, readable).Parsed? && Document(text, readable).value == value {
      var start := Skip(text, 0);
      var end := ValueAt(text, start, readable).end;
      var tree := ReadTree(text, start, readable);
      SkippedAreSpaces(text, 0);
      SkippedAreSpaces(text, end);
      Joined(text, start, end, |text|);
      Joined(text, 0, start, |text|);
      assert text[0..|text|] == text;
      assert IsDocument(text, tree, text[0..start], text[end..|text|], readable);
    }
  }
}
