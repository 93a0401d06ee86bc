/** Counting the true entries of a boolean mask: what `np.sum(mask)` computes. */
module Counting {

  /** Number of `true` entries of `s`, counted from the front. */
  function CountTrue(s: seq<bool>): (c: nat)
    ensures c <= |s|
  {
    if s == [] then 0
    else CountTrue(s[..|s| - 1]) + (if s[|s| - 1] then 1 else 0)
  }

  /** The count is zero exactly when no entry is `true`. */
  lemma {:induction false} CountTrueZero(s: seq<bool>)
    ensures CountTrue(s) == 0 <==> forall i :: 0 <= i < |s| ==> !s[i]
  {
    if s != [] {
      CountTrueZero(s[..|s| - 1]);
    }
  }

  /** The count is the length exactly when every entry is `true`. */
  lemma {:induction false} CountTrueFull(s: seq<bool>)
    ensures CountTrue(s) == |s| <==> forall i :: 0 <= i < |s| ==> s[i]
  {
    if s != [] {
      CountTrueFull(s[..|s| - 1]);
    }
  }

  /** Extending a prefix of a mask by one entry adds that entry's indicator. */
  lemma CountTruePrefix(s: seq<bool>, i: nat)
    requires i < |s|
    ensures CountTrue(s[..i + 1]) == CountTrue(s[..i]) + (if s[i] then 1 else 0)
  {
    assert s[..i + 1][..i] == s[..i];
  }

  /** When every position holds in exactly one of three masks, their counts add up to the length. */
  lemma {:induction false} CountPartition(x: seq<bool>, y: seq<bool>, z: seq<bool>)
    requires |x| == |y| == |z|
    requires forall i :: 0 <= i < |x| ==> (if x[i] then 1 else 0) + (if y[i] then 1 else 0) + (if z[i] then 1 else 0) == 1
    ensures CountTrue(x) + CountTrue(y) + CountTrue(z) == |x|
  {
    if x != [] {
      var m := |x| - 1;
      CountPartition(x[..m], y[..m], z[..m]);
    }
  }
}
