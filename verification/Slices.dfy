/** Texts inside texts. */
module Slices {
  /** `text` has `part` at `i`. */
  predicate Holds(text: string, i: nat, part: string) {
    i + |part| <= |text| && text[i..i + |part|] == part
  }

  lemma HoldsAt(text: string, i: nat, part: string)
    requires Holds(text, i, part)
    ensures i + |part| <= |text| && forall k :: 0 <= k < |part| ==> text[i + k] == part[k]
  {
    forall k | 0 <= k < |part|
      ensures text[i + k] == part[k]
    {
      assert text[i..i + |part|][k] == text[i + k];
    }
  }

  lemma HoldsParts(text: string, i: nat, first: string, second: string)
    requires Holds(text, i, first + second)
    ensures Holds(text, i, first) && Holds(text, i + |first|, second)
  {
    var all := first + second;
    assert first == all[..|first|] && second == all[|first|..];
    assert text[i..i + |all|][..|first|] == text[i..i + |first|];
    assert text[i..i + |all|][|first|..] == text[i + |first|..i + |all|];
  }
}
