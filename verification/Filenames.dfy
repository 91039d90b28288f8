/** The filename policy, on UTF-8 bytes, and the reserved names of stages. */
module Filenames {
  import opened Common

  const MAX_FILENAME_BYTES := 255
  const RESERVED_PREFIX: Bytes := [46, 100, 97, 116, 97, 98, 114, 105, 100, 103, 101, 45]  // ".databridge-"
  const PART: Bytes := [46, 112, 97, 114, 116]  // ".part"
  const SLASH := 47
  const BACKSLASH := 92
  const NUL := 0

  function Lower(b: Byte): Byte {
    if 65 <= b <= 90 then b + 32 else b
  }

  function LowerAll(name: Bytes): (r: Bytes)
    ensures |r| == |name|
  {
    seq(|name|, i requires 0 <= i < |name| => Lower(name[i]))
  }

  predicate IsReserved(name: Bytes) {
    RESERVED_PREFIX <= LowerAll(name)
  }

  predicate IsValid(name: Bytes) {
    && name != [] && name != [46] && name != [46, 46]
    && SLASH !in name && BACKSLASH !in name && NUL !in name
    && |name| <= MAX_FILENAME_BYTES
    && !IsReserved(name)
  }

  function StageName(id: Bytes): Bytes {
    RESERVED_PREFIX + id + PART
  }

  /** No file name the API accepts is a stage, of this transfer or of any other, in any case. */
  lemma StageIsNeverADestination(id: Bytes, name: Bytes)
    requires LowerAll(name) == LowerAll(StageName(id))
    ensures !IsValid(name)
  {
    var stage := StageName(id);
    forall i | 0 <= i < |RESERVED_PREFIX|
      ensures LowerAll(stage)[i] == RESERVED_PREFIX[i]
    {
      assert stage[i] == RESERVED_PREFIX[i];
    }
    assert LowerAll(name)[..|RESERVED_PREFIX|] == RESERVED_PREFIX;
  }

  /** Transfers do not share a stage. */
  lemma StagesAreDistinct(id: Bytes, other: Bytes)
    requires StageName(id) == StageName(other)
    ensures id == other
  {
    var stage := StageName(id);
    assert |id| == |other|;
    assert id == stage[|RESERVED_PREFIX|..|RESERVED_PREFIX| + |id|];
    assert other == StageName(other)[|RESERVED_PREFIX|..|RESERVED_PREFIX| + |id|];
  }

  // ---------------------------------------------------------------- what a valid name names

  /** The components of a path, which slashes separate. */
  function Components(path: Bytes): (r: seq<Bytes>)
    ensures r != []
  {
    if path == [] then [[]]
    else
      var before := Components(path[..|path| - 1]);
      if path[|path| - 1] == 47 then before + [[]]
      else before[..|before| - 1] + [before[|before| - 1] + [path[|path| - 1]]]
  }

  /** Where a path leads: empty components and "." stay, and ".." goes up. */
  function Walked(components: seq<Bytes>): seq<Bytes> {
    if components == [] then []
    else
      var before, last := Walked(components[..|components| - 1]), components[|components| - 1];
      if last == [] || last == [46] then before
      else if last == [46, 46] then (if before == [] then [] else before[..|before| - 1])
      else before + [last]
  }

  lemma {:induction false} ComponentsOfName(root: Bytes, name: Bytes)
    requires 47 !in name
    ensures Components(root + [47] + name) == Components(root) + [name]
  {
    var path := root + [47] + name;
    if name == [] {
      assert path[..|path| - 1] == root;
    } else {
      ComponentsOfName(root, name[..|name| - 1]);
      assert path[..|path| - 1] == root + [47] + name[..|name| - 1];
      assert name == name[..|name| - 1] + [name[|name| - 1]];
    }
  }

  /** A valid name, joined to any root, leads to the entry of that name directly in the root. */
  lemma ValidNamesStayUnderTheRoot(root: Bytes, name: Bytes)
    requires IsValid(name)
    ensures Walked(Components(root + [47] + name)) == Walked(Components(root)) + [name]
  {
    ComponentsOfName(root, name);
    var all := Components(root) + [name];
    assert all[..|all| - 1] == Components(root);
  }

  /** Exactly these names are valid: they lead to the entry of that very name, have no backslash and no
      NUL, fit the limit, and do not begin like a stage in any letter case. */
  lemma ValidNames(name: Bytes)
    ensures IsValid(name) <==>
              && Walked(Components(name)) == [name]
              && (forall i :: 0 <= i < |name| ==> name[i] != 92 && name[i] != 0)
              && |name| <= 255
              && !BeginsLikeAStage(name)
  {
    hide IsReserved, BeginsLikeAStage, Walked, Components;
    ReservedNames(name);
    SingleEntries(name);
  }

  lemma SingleEntries(name: Bytes)
    ensures Walked(Components(name)) == [name] <==> 47 !in name && name != [] && name != [46] && name != [46, 46]
  {
    hide Walked, Components;
    NoSlashes(name);
    WalkedAmong(Components(name));
    if 47 in name {
      assert name in [name];
    } else {
      SingleComponent(name);
      WalkedOne(name);
    }
  }

  lemma WalkedOne(name: Bytes)
    ensures Walked([name]) == if name == [] || name == [46] || name == [46, 46] then [] else [name]
  {
    assert [name][..0] == [];
  }

  predicate BeginsLikeAStage(name: Bytes) {
    |name| >= 12 && forall i :: 0 <= i < 12 ==> LooksLike(name[i], RESERVED_PREFIX[i])
  }

  /** A letter looks like its small letter; every other byte only like itself. */
  predicate LooksLike(b: Byte, small: Byte) {
    b == small || (97 <= small <= 122 && b == small - 32)
  }

  lemma ReservedNames(name: Bytes)
    ensures IsReserved(name) <==> BeginsLikeAStage(name)
  {
    if |name| >= 12 {
      forall i | 0 <= i < 12
        ensures LowerAll(name)[i] == RESERVED_PREFIX[i] <==> LooksLike(name[i], RESERVED_PREFIX[i])
      {
      }
      assert IsReserved(name) <==> LowerAll(name)[..12] == RESERVED_PREFIX;
      assert forall i :: 0 <= i < 12 ==> LowerAll(name)[..12][i] == LowerAll(name)[i];
    }
  }

  lemma {:induction false} NoSlashes(path: Bytes)
    ensures forall component :: component in Components(path) ==> 47 !in component
  {
    if path != [] {
      NoSlashes(path[..|path| - 1]);
    }
  }

  lemma {:induction false} WalkedAmong(components: seq<Bytes>)
    ensures forall component :: component in Walked(components) ==> component in components
  {
    if components != [] {
      WalkedAmong(components[..|components| - 1]);
    }
  }

  lemma {:induction false} SingleComponent(name: Bytes)
    requires 47 !in name
    ensures Components(name) == [name]
  {
    if name != [] {
      SingleComponent(name[..|name| - 1]);
      assert name == name[..|name| - 1] + [name[|name| - 1]];
    }
  }
}
