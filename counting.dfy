/** Counting the set flags of a sequence, used to state "exactly one is marked". */
module Counting {

  /** Number of `true` entries in `s`. */
  function CountTrue(s: seq<bool>): (c: nat)
    ensures c <= |s|
    ensures c == 0 <==> forall k :: 0 <= k < |s| ==> !s[k]
  {
    if |s| == 0 then 0 else CountTrue(s[..|s| - 1]) + (if s[|s| - 1] then 1 else 0)
  }

  /** A sequence in which at most position `k` is set has exactly one set entry
      when `k` is one of its positions, and none otherwise. */
  lemma {:induction false} CountOnly(s: seq<bool>, k: int)
    requires forall j :: 0 <= j < |s| ==> s[j] == (j == k)
    ensures CountTrue(s) == if 0 <= k < |s| then 1 else 0
  {
    if |s| > 0 {
      var init := s[..|s| - 1];
      assert forall j :: 0 <= j < |init| ==> init[j] == (j == k);
      CountOnly(init, k);
    }
  }
}
