/**
 * Maximal runs of `true` in a boolean mask (`find_continuous_regions` in
 * Md.x/checkcoext.py). A region is an inclusive pair `(start, end)` of mask
 * indices, as the source returns it.
 */
module Regions {
  import opened Counting

  type Region = (int, int)

  /** Python's `None` / index for the start of the run being scanned. */
  datatype Option<T> = None | Some(value: T)

  /** `r` lies inside the mask and every index it spans is `true`. */
  ghost predicate IsRun(mask: seq<bool>, r: Region) {
    0 <= r.0 <= r.1 < |mask| && forall i :: r.0 <= i <= r.1 ==> mask[i]
  }

  /** A run that cannot be extended: it starts at 0 or after a `false`, and ends at the last index or before a `false`. */
  ghost predicate IsMaximalRun(mask: seq<bool>, r: Region) {
    IsRun(mask, r) &&
    (r.0 == 0 || !mask[r.0 - 1]) &&
    (r.1 == |mask| - 1 || !mask[r.1 + 1])
  }

  /** Consecutive regions are separated by at least one index (so they are disjoint and sorted). */
  ghost predicate Separated(regions: seq<Region>) {
    forall j, k :: 0 <= j < k < |regions| ==> regions[j].1 + 1 < regions[k].0
  }

  /** Index `i` lies in some region of the list. */
  ghost predicate Covered(regions: seq<Region>, i: int) {
    exists k :: 0 <= k < |regions| && regions[k].0 <= i <= regions[k].1
  }

  /** `regions` lists exactly the maximal runs of `true` in `mask`, in increasing order. */
  ghost predicate IsRunDecomposition(mask: seq<bool>, regions: seq<Region>) {
    (forall k :: 0 <= k < |regions| ==> IsMaximalRun(mask, regions[k])) &&
    Separated(regions) &&
    (forall i :: 0 <= i < |mask| && mask[i] ==> Covered(regions, i))
  }

  /** Sum of `end - start + 1` over the regions. */
  function TotalLength(regions: seq<Region>): int {
    if regions == [] then 0
    else
      var last := regions[|regions| - 1];
      TotalLength(regions[..|regions| - 1]) + (last.1 - last.0 + 1)
  }

  lemma TotalLengthSnoc(regions: seq<Region>, r: Region)
    ensures TotalLength(regions + [r]) == TotalLength(regions) + (r.1 - r.0 + 1)
  {
    assert (regions + [r])[..|regions|] == regions;
  }

  /**
   * What the scan knows after reading `mask[..i]`: the closed regions are
   * maximal runs ending before `i - 1`, and `start` is the beginning of the
   * run of `true` that reaches `i - 1`, or `None` when `mask[i - 1]` is false.
   */
  ghost predicate Scanned(mask: seq<bool>, i: int, regions: seq<Region>, start: Option<nat>) {
    0 <= i <= |mask| &&
    (forall k :: 0 <= k < |regions| ==> IsMaximalRun(mask, regions[k]) && regions[k].1 + 1 < i) &&
    Separated(regions) &&
    (match start
     case None => i == 0 || !mask[i - 1]
     case Some(s) =>
       s < i && (s == 0 || !mask[s - 1]) &&
       (forall j :: s <= j < i ==> mask[j]) &&
       (forall k :: 0 <= k < |regions| ==> regions[k].1 + 1 < s)) &&
    (forall j :: 0 <= j < i && mask[j] ==> Covered(regions, j) || (start.Some? && start.value <= j)) &&
    TotalLength(regions) + (if start.Some? then i - start.value else 0) == CountTrue(mask[..i])
  }

  /** Single left-to-right scan that closes a run at each `false` after a `true`, and at the end of the mask. */
  method FindContinuousRegions(mask: seq<bool>) returns (regions: seq<Region>)
    ensures IsRunDecomposition(mask, regions)
    ensures TotalLength(regions) == CountTrue(mask)
  {
    regions := [];
    var start: Option<nat> := None;
    for i := 0 to |mask|
      invariant Scanned(mask, i, regions, start)
    {
      if mask[i] && start.None? {
        OpenStep(mask, i, regions);
        start := Some(i);
      } else if !mask[i] && start.Some? {
        CloseStep(mask, i, regions, start.value);
        regions := regions + [(start.value, i - 1)];
        start := None;
      } else {
        KeepStep(mask, i, regions, start);
      }
    }
    Finish(mask, regions, start);
    if start.Some? {
      regions := regions + [(start.value, |mask| - 1)];
    }
  }

  /** A `true` with no open run opens one at `i`. */
  lemma OpenStep(mask: seq<bool>, i: int, regions: seq<Region>)
    requires 0 <= i < |mask| && mask[i]
    requires Scanned(mask, i, regions, None)
    ensures Scanned(mask, i + 1, regions, Some(i))
  {
    CountTruePrefix(mask, i);
  }

  /** A `false` with an open run closes it as `(s, i - 1)`. */
  lemma CloseStep(mask: seq<bool>, i: int, regions: seq<Region>, s: nat)
    requires 0 <= i < |mask| && !mask[i]
    requires Scanned(mask, i, regions, Some(s))
    ensures Scanned(mask, i + 1, regions + [(s, i - 1)], None)
  {
    var r := (s, i - 1);
    var regions' := regions + [r];
    CountTruePrefix(mask, i);
    TotalLengthSnoc(regions, r);
    CoveredSnoc(regions, r);
    assert IsMaximalRun(mask, r);
    assert forall k :: 0 <= k < |regions| ==> regions'[k] == regions[k];
  }

  /** A `true` inside an open run, or a `false` with none open, changes nothing but the position. */
  lemma KeepStep(mask: seq<bool>, i: int, regions: seq<Region>, start: Option<nat>)
    requires 0 <= i < |mask| && mask[i] == start.Some?
    requires Scanned(mask, i, regions, start)
    ensures Scanned(mask, i + 1, regions, start)
  {
    CountTruePrefix(mask, i);
  }

  /** At the end of the mask, closing the open run (if any) completes the decomposition. */
  lemma Finish(mask: seq<bool>, regions: seq<Region>, start: Option<nat>)
    requires Scanned(mask, |mask|, regions, start)
    ensures var regions' := if start.Some? then regions + [(start.value, |mask| - 1)] else regions;
      IsRunDecomposition(mask, regions') && TotalLength(regions') == CountTrue(mask)
  {
    assert mask[..|mask|] == mask;
    if start.Some? {
      var r := (start.value, |mask| - 1);
      var regions' := regions + [r];
      TotalLengthSnoc(regions, r);
      CoveredSnoc(regions, r);
      assert IsMaximalRun(mask, r);
      assert forall k :: 0 <= k < |regions| ==> regions'[k] == regions[k];
    }
  }

  /** Appending a region keeps every index covered before and covers the new one's span. */
  lemma CoveredSnoc(regions: seq<Region>, r: Region)
    ensures forall i :: Covered(regions, i) ==> Covered(regions + [r], i)
    ensures forall i :: r.0 <= i <= r.1 ==> Covered(regions + [r], i)
  {
    var regions' := regions + [r];
    forall i | Covered(regions, i) ensures Covered(regions', i) {
      var k :| 0 <= k < |regions| && regions[k].0 <= i <= regions[k].1;
      assert regions'[k] == regions[k];
    }
    forall i | r.0 <= i <= r.1 ensures Covered(regions', i) {
      assert regions'[|regions|] == r;
    }
  }
  /** A mask with no `true` entry (the empty mask included) yields no region, and only such a mask does. */
  lemma NoRegionsIffNoTrue(mask: seq<bool>, regions: seq<Region>)
    requires IsRunDecomposition(mask, regions)
    ensures regions == [] <==> forall i :: 0 <= i < |mask| ==> !mask[i]
  {
    if regions != [] {
      assert mask[regions[0].0];
    }
  }

  /** A non-empty mask that is `true` everywhere yields the single region `(0, |mask| - 1)`. */
  lemma AllTrueSingleRegion(mask: seq<bool>, regions: seq<Region>)
    requires IsRunDecomposition(mask, regions)
    requires |mask| > 0 && forall i :: 0 <= i < |mask| ==> mask[i]
    ensures regions == [(0, |mask| - 1)]
  {
    var whole: seq<Region> := [(0, |mask| - 1)];
    assert IsRunDecomposition(mask, whole) by {
      forall i | 0 <= i < |mask| && mask[i] ensures Covered(whole, i) {
        assert whole[0].0 <= i <= whole[0].1;
      }
    }
    DecompositionUnique(mask, regions, whole);
  }

  /** Every `true` index lies in exactly one region. */
  lemma ExactlyOneRegion(mask: seq<bool>, regions: seq<Region>, i: int)
    requires IsRunDecomposition(mask, regions)
    requires 0 <= i < |mask| && mask[i]
    ensures exists k :: 0 <= k < |regions| && regions[k].0 <= i <= regions[k].1
    ensures forall j, k ::
              0 <= j < |regions| && 0 <= k < |regions| &&
              regions[j].0 <= i <= regions[j].1 && regions[k].0 <= i <= regions[k].1
              ==> j == k
  {
    assert Covered(regions, i);
  }

  /** Two maximal runs that share an index are the same run. */
  lemma MaximalRunsMeet(mask: seq<bool>, r: Region, q: Region, i: int)
    requires IsMaximalRun(mask, r) && IsMaximalRun(mask, q)
    requires r.0 <= i <= r.1 && q.0 <= i <= q.1
    ensures r == q
  {
  }

  /** Starts strictly increase along a separated list of non-empty regions. */
  ghost predicate StartsIncrease(regions: seq<Region>) {
    forall j, k :: 0 <= j < k < |regions| ==> regions[j].0 < regions[k].0
  }

  lemma HeadIsMember(s: seq<Region>)
    ensures s != [] ==> s[0] in s
  {
  }

  /** Two lists with strictly increasing starts and the same elements are equal. */
  lemma {:induction false} SortedSameElements(a: seq<Region>, b: seq<Region>)
    requires StartsIncrease(a) && StartsIncrease(b)
    requires forall x :: x in a <==> x in b
    ensures a == b
  {
    if a == [] {
      HeadIsMember(b);
    } else {
      assert b != [] by { assert a[0] in b; }
      assert a[0] == b[0] by {
        assert a[0] in b && b[0] in a;
        var m :| 0 <= m < |b| && b[m] == a[0];
        var m' :| 0 <= m' < |a| && a[m'] == b[0];
        assert b[0].0 <= b[m].0 == a[0].0;
        assert a[0].0 <= a[m'].0 == b[0].0;
        assert m == 0;
      }
      forall x ensures x in a[1..] <==> x in b[1..] {
        if x in a[1..] {
          var j :| 1 <= j < |a| && a[j] == x;
          assert x != a[0] by { assert a[0].0 < a[j].0; }
          assert x in b;
          var m :| 0 <= m < |b| && b[m] == x;
          assert m != 0;
        }
        if x in b[1..] {
          var j :| 1 <= j < |b| && b[j] == x;
          assert x != b[0] by { assert b[0].0 < b[j].0; }
          assert x in a;
          var m :| 0 <= m < |a| && a[m] == x;
          assert m != 0;
        }
      }
      SortedSameElements(a[1..], b[1..]);
      assert a == [a[0]] + a[1..] && b == [b[0]] + b[1..];
    }
  }

  /** Every region of one decomposition is a region of any other. */
  lemma RegionsShared(mask: seq<bool>, a: seq<Region>, b: seq<Region>)
    requires IsRunDecomposition(mask, a) && IsRunDecomposition(mask, b)
    ensures forall x :: x in a ==> x in b
  {
    forall x | x in a ensures x in b {
      var k :| 0 <= k < |a| && a[k] == x;
      assert IsMaximalRun(mask, x);
      assert Covered(b, x.0);
      var m :| 0 <= m < |b| && b[m].0 <= x.0 <= b[m].1;
      MaximalRunsMeet(mask, x, b[m], x.0);
    }
  }

  /**
   * The decomposition of a mask is unique, so the postcondition of
   * FindContinuousRegions determines its result completely.
   */
  lemma DecompositionUnique(mask: seq<bool>, a: seq<Region>, b: seq<Region>)
    requires IsRunDecomposition(mask, a) && IsRunDecomposition(mask, b)
    ensures a == b
  {
    RegionsShared(mask, a, b);
    RegionsShared(mask, b, a);
    assert StartsIncrease(a) by {
      forall j, k | 0 <= j < k < |a| ensures a[j].0 < a[k].0 {
        assert IsRun(mask, a[j]);
      }
    }
    assert StartsIncrease(b) by {
      forall j, k | 0 <= j < k < |b| ensures b[j].0 < b[k].0 {
        assert IsRun(mask, b[j]);
      }
    }
    SortedSameElements(a, b);
  }
}
