/** Scattering items into key ranges: the slot of every item, and why sorting the ranges by themselves sorts
    the whole. */
module RangeScatter {
  import opened VoxelMap
  import opened Sorting

  predicate BoundsAscend(bounds: seq<Key>) {
    forall i, j | 0 <= i < j < |bounds| :: !KeyLess(bounds[j], bounds[i])
  }

  /** The range of a key: the number of bounds it is not below. */
  function RangeOf(bounds: seq<Key>, key: Key): (r: nat)
    ensures r <= |bounds|
    ensures r < |bounds| ==> KeyLess(key, bounds[r])
    ensures r > 0 ==> !KeyLess(key, bounds[r - 1])
  {
    if bounds == [] || KeyLess(key, bounds[0]) then 0 else 1 + RangeOf(bounds[1..], key)
  }

  /** Keys of a lower range come before keys of a higher one. */
  lemma RangesAscend(bounds: seq<Key>, a: Key, b: Key)
    requires BoundsAscend(bounds) && RangeOf(bounds, a) < RangeOf(bounds, b)
    ensures KeyLess(a, b)
  {
    var ra, rb := RangeOf(bounds, a), RangeOf(bounds, b);
    assert ra < rb - 1 ==> !KeyLess(bounds[rb - 1], bounds[ra]);
  }

  // ---- where an item goes ------------------------------------------------------------------------

  /** How many of the first `k` items are in range `r`. */
  function Count(ranges: seq<nat>, r: nat, k: nat): nat
    requires k <= |ranges|
  {
    if k == 0 then 0 else Count(ranges, r, k - 1) + if ranges[k - 1] == r then 1 else 0
  }

  lemma {:induction false} CountGrows(ranges: seq<nat>, r: nat, i: nat, k: nat)
    requires i <= k <= |ranges|
    ensures Count(ranges, r, i) <= Count(ranges, r, k)
    ensures i < k && ranges[i] == r ==> Count(ranges, r, i) < Count(ranges, r, k)
    decreases k
  {
    if i < k {
      CountGrows(ranges, r, i, k - 1);
    }
  }

  /** Where range `r` begins. */
  function Base(ranges: seq<nat>, r: nat): nat {
    if r == 0 then 0 else Base(ranges, r - 1) + Count(ranges, r - 1, |ranges|)
  }

  lemma {:induction false} BaseGrows(ranges: seq<nat>, r: nat, q: nat)
    requires r <= q
    ensures Base(ranges, r) <= Base(ranges, q)
    decreases q
  {
    if r < q {
      BaseGrows(ranges, r, q - 1);
    }
  }

  /** Every item has one range, so the ranges together have a place for every item. */
  lemma {:induction false} BasesCover(ranges: seq<nat>, n: nat)
    requires forall i | 0 <= i < |ranges| :: ranges[i] < n
    ensures Base(ranges, n) == |ranges|
  {
    if ranges == [] {
      AllBasesZero(ranges, n);
    } else {
      var front, last := ranges[..|ranges| - 1], ranges[|ranges| - 1];
      BasesCover(front, n);
      BaseSnoc(front, last, n);
      assert ranges == front + [last];
    }
  }

  lemma {:induction false} AllBasesZero(ranges: seq<nat>, n: nat)
    requires ranges == []
    ensures Base(ranges, n) == 0
  {
    if n > 0 {
      AllBasesZero(ranges, n - 1);
    }
  }

  lemma {:induction false} CountSnoc(front: seq<nat>, last: nat, r: nat, k: nat)
    requires k <= |front|
    ensures Count(front + [last], r, k) == Count(front, r, k)
  {
    if k > 0 {
      CountSnoc(front, last, r, k - 1);
    }
  }

  lemma {:induction false} BaseSnoc(front: seq<nat>, last: nat, n: nat)
    ensures Base(front + [last], n) == Base(front, n) + if last < n then 1 else 0
  {
    if n > 0 {
      BaseSnoc(front, last, n - 1);
      CountSnoc(front, last, n - 1, |front|);
    }
  }

  /** The slot of item `i`: after the lower ranges and the earlier items of its own. */
  function SlotOf(ranges: seq<nat>, i: nat): nat
    requires i < |ranges|
  {
    Base(ranges, ranges[i]) + Count(ranges, ranges[i], i)
  }

  lemma SlotInRange(ranges: seq<nat>, i: nat, n: nat)
    requires i < |ranges| && forall j | 0 <= j < |ranges| :: ranges[j] < n
    ensures Base(ranges, ranges[i]) <= SlotOf(ranges, i) < Base(ranges, ranges[i] + 1) <= |ranges|
  {
    CountGrows(ranges, ranges[i], i, |ranges|);
    BaseGrows(ranges, ranges[i] + 1, n);
    BasesCover(ranges, n);
  }

  /** No two items share a slot, so no two workers write the same one. */
  lemma SlotsAreDistinct(ranges: seq<nat>, i: nat, j: nat, n: nat)
    requires i < j < |ranges| && forall k | 0 <= k < |ranges| :: ranges[k] < n
    ensures SlotOf(ranges, i) != SlotOf(ranges, j)
  {
    SlotInRange(ranges, i, n);
    SlotInRange(ranges, j, n);
    if ranges[i] == ranges[j] {
      CountGrows(ranges, ranges[i], i, j);
    } else if ranges[i] < ranges[j] {
      BaseGrows(ranges, ranges[i] + 1, ranges[j]);
    } else {
      BaseGrows(ranges, ranges[j] + 1, ranges[i]);
    }
  }

  /** Every slot of a range is some item's. */
  lemma {:induction false} ItemOfSlot(ranges: seq<nat>, r: nat, c: nat, k: nat) returns (i: nat)
    requires k <= |ranges| && c < Count(ranges, r, k)
    ensures i < k && ranges[i] == r && Count(ranges, r, i) == c
  {
    if c < Count(ranges, r, k - 1) {
      i := ItemOfSlot(ranges, r, c, k - 1);
    } else {
      i := k - 1;
    }
  }

  /** The items in range order: each has its own slot. */
  ghost predicate Scattered(items: seq<Entry>, ranges: seq<nat>, out: seq<Entry>) {
    && |items| == |ranges| == |out|
    && forall i | 0 <= i < |items| :: SlotOf(ranges, i) < |out| && out[SlotOf(ranges, i)] == items[i]
  }

  /** The part of a list that holds range `r`. */
  predicate IsRange(ranges: seq<nat>, r: nat, length: nat) {
    Base(ranges, r) <= Base(ranges, r + 1) <= length
  }

  function Slice(ranges: seq<nat>, r: nat, s: seq<Entry>): (slice: seq<Entry>)
    requires IsRange(ranges, r, |s|)
    ensures |slice| == Base(ranges, r + 1) - Base(ranges, r)
  {
    s[Base(ranges, r)..Base(ranges, r + 1)]
  }

  /** `result` is `out` with every range sorted by itself. */
  ghost predicate RangesSorted(ranges: seq<nat>, n: nat, out: seq<Entry>, result: seq<Entry>) {
    && |result| == |out| == |ranges|
    && forall r: nat | r < n ::
         IsRange(ranges, r, |out|) && Slice(ranges, r, result) == Sorted(Slice(ranges, r, out))
  }

  lemma {:induction false} RangeOfSlot(ranges: seq<nat>, p: nat, n: nat) returns (r: nat)
    requires p < Base(ranges, n)
    ensures r < n && Base(ranges, r) <= p < Base(ranges, r + 1)
  {
    if p < Base(ranges, n - 1) {
      r := RangeOfSlot(ranges, p, n - 1);
    } else {
      r := n - 1;
    }
  }

  /** Items of smaller keys are in no higher ranges. */
  predicate RangesFollowKeys(items: seq<Entry>, ranges: seq<nat>) {
    && |ranges| == |items|
    && forall i, j | 0 <= i < |items| && 0 <= j < |items| && KeyLess(items[i].key, items[j].key) ::
         ranges[i] <= ranges[j]
  }

  /** An entry in the slice of range `r` is an item of that range. */
  lemma SlotHoldsItem(items: seq<Entry>, ranges: seq<nat>, out: seq<Entry>, r: nat, p: nat) returns (i: nat)
    requires Scattered(items, ranges, out) && Base(ranges, r) <= p < Base(ranges, r + 1) && p < |out|
    ensures i < |items| && ranges[i] == r && SlotOf(ranges, i) == p && out[p] == items[i]
  {
    i := ItemOfSlot(ranges, r, p - Base(ranges, r), |ranges|);
  }

  /** The entry at `p` of the result is one of the items of the range around `p`. */
  lemma ResultHoldsItem(items: seq<Entry>, ranges: seq<nat>, n: nat, out: seq<Entry>, result: seq<Entry>, r: nat,
                        p: nat) returns (i: nat)
    requires Scattered(items, ranges, out) && RangesSorted(ranges, n, out, result)
    requires r < n && Base(ranges, r) <= p < Base(ranges, r + 1)
    ensures p < |result| && i < |items| && ranges[i] == r && result[p] == items[i]
  {
    var slice, sorted := Slice(ranges, r, out), Slice(ranges, r, result);
    SortedHasNoInversions(slice);
    assert sorted[p - Base(ranges, r)] in slice;
    var a :| 0 <= a < |slice| && slice[a] == sorted[p - Base(ranges, r)];
    i := SlotHoldsItem(items, ranges, out, r, Base(ranges, r) + a);
  }

  /** An item is in the result, at a place of its range. */
  lemma ItemInResult(items: seq<Entry>, ranges: seq<nat>, n: nat, out: seq<Entry>, result: seq<Entry>, i: nat)
    returns (p: nat)
    requires Scattered(items, ranges, out) && RangesSorted(ranges, n, out, result)
    requires i < |items| && forall j | 0 <= j < |ranges| :: ranges[j] < n
    ensures Base(ranges, ranges[i]) <= p < Base(ranges, ranges[i] + 1) && p < |result| && result[p] == items[i]
  {
    SlotInRange(ranges, i, n);
    var slice, sorted := Slice(ranges, ranges[i], out), Slice(ranges, ranges[i], result);
    SortedHasNoInversions(slice);
    assert slice[SlotOf(ranges, i) - Base(ranges, ranges[i])] == items[i];
    assert items[i] in sorted;
    var a: nat :| a < |sorted| && sorted[a] == items[i];
    p := Base(ranges, ranges[i]) + a;
  }

  // ---- when the result is in order ----------------------------------------------------------------

  /** The result is in order exactly when the ranges follow the keys. */
  lemma ResultIsSortedIff(items: seq<Entry>, ranges: seq<nat>, n: nat, out: seq<Entry>, result: seq<Entry>)
    requires Scattered(items, ranges, out) && RangesSorted(ranges, n, out, result)
    requires forall i | 0 <= i < |ranges| :: ranges[i] < n
    ensures NoInversions(result) <==> RangesFollowKeys(items, ranges)
  {
    if RangesFollowKeys(items, ranges) {
      FollowingRangesSort(items, ranges, n, out, result);
    } else {
      var i, j :| 0 <= i < |items| && 0 <= j < |items| && KeyLess(items[i].key, items[j].key) && ranges[i] > ranges[j];
      CrossedRangesInvert(items, ranges, n, out, result, i, j);
    }
  }

  lemma FollowingRangesSort(items: seq<Entry>, ranges: seq<nat>, n: nat, out: seq<Entry>, result: seq<Entry>)
    requires Scattered(items, ranges, out) && RangesSorted(ranges, n, out, result)
    requires RangesFollowKeys(items, ranges) && forall i | 0 <= i < |ranges| :: ranges[i] < n
    ensures NoInversions(result)
  {
    BasesCover(ranges, n);
    forall p, q | 0 <= p < q < |result|
      ensures !KeyLess(result[q].key, result[p].key)
    {
      InOrder(items, ranges, n, out, result, p, q);
    }
  }

  lemma CrossedRangesInvert(items: seq<Entry>, ranges: seq<nat>, n: nat, out: seq<Entry>, result: seq<Entry>, i: nat,
                            j: nat)
    requires Scattered(items, ranges, out) && RangesSorted(ranges, n, out, result)
    requires forall k | 0 <= k < |ranges| :: ranges[k] < n
    requires i < |items| && j < |items| && KeyLess(items[i].key, items[j].key) && ranges[i] > ranges[j]
    ensures !NoInversions(result)
  {
    var p := ItemInResult(items, ranges, n, out, result, j);
    var q := ItemInResult(items, ranges, n, out, result, i);
    BaseGrows(ranges, ranges[j] + 1, ranges[i]);
  }

  lemma InOrderInRange(ranges: seq<nat>, n: nat, out: seq<Entry>, result: seq<Entry>, r: nat, p: nat, q: nat)
    requires RangesSorted(ranges, n, out, result)
    requires r < n && Base(ranges, r) <= p < q < Base(ranges, r + 1)
    ensures q < |result| && !KeyLess(result[q].key, result[p].key)
  {
    SortedHasNoInversions(Slice(ranges, r, out));
    var sorted, base := Slice(ranges, r, result), Base(ranges, r);
    assert sorted[p - base] == result[p] && sorted[q - base] == result[q];
  }

  lemma InOrder(items: seq<Entry>, ranges: seq<nat>, n: nat, out: seq<Entry>, result: seq<Entry>, p: nat, q: nat)
    requires RangesFollowKeys(items, ranges)
    requires Scattered(items, ranges, out) && RangesSorted(ranges, n, out, result)
    requires p < q < |result| == Base(ranges, n)
    ensures !KeyLess(result[q].key, result[p].key)
  {
    var r := RangeOfSlot(ranges, p, n);
    var s := RangeOfSlot(ranges, q, n);
    if r == s {
      InOrderInRange(ranges, n, out, result, r, p, q);
    } else {
      SlotsInOrder(ranges, r, s, p, q);
      InOrderAcross(items, ranges, n, out, result, r, s, p, q);
    }
  }

  lemma SlotsInOrder(ranges: seq<nat>, r: nat, s: nat, p: nat, q: nat)
    requires p < q && Base(ranges, r) <= p && q < Base(ranges, s + 1)
    ensures r <= s
  {
    if s < r {
      BaseGrows(ranges, s + 1, r);
    }
  }

  lemma InOrderAcross(items: seq<Entry>, ranges: seq<nat>, n: nat, out: seq<Entry>, result: seq<Entry>, r: nat, s: nat,
                      p: nat, q: nat)
    requires RangesFollowKeys(items, ranges)
    requires Scattered(items, ranges, out) && RangesSorted(ranges, n, out, result) && r < s < n
    requires Base(ranges, r) <= p < Base(ranges, r + 1) && Base(ranges, s) <= q < Base(ranges, s + 1)
    ensures p < |result| && q < |result| && !KeyLess(result[q].key, result[p].key)
  {
    var i := ResultHoldsItem(items, ranges, n, out, result, r, p);
    var j := ResultHoldsItem(items, ranges, n, out, result, s, q);
  }

  // ---- the result holds the items, each as often as it occurs ---------------------------------------

  /** How often an entry occurs among the first `k` of a list. */
  function Occurs(s: seq<Entry>, k: nat, e: Entry): nat
    requires k <= |s|
  {
    if k == 0 then 0 else Occurs(s, k - 1, e) + if s[k - 1] == e then 1 else 0
  }

  lemma {:induction false} OccursInPart(s: seq<Entry>, lo: nat, hi: nat, e: Entry)
    requires lo <= hi <= |s|
    ensures Occurs(s, hi, e) == Occurs(s, lo, e) + multiset(s[lo..hi])[e]
  {
    if lo < hi {
      OccursInPart(s, lo, hi - 1, e);
      assert s[lo..hi] == s[lo..hi - 1] + [s[hi - 1]];
    }
  }

  /** How often it occurs among the first `k` items as one of range `r`. */
  function InRange(items: seq<Entry>, ranges: seq<nat>, r: nat, k: nat, e: Entry): nat
    requires k <= |items| == |ranges|
  {
    if k == 0 then 0
    else InRange(items, ranges, r, k - 1, e) + if ranges[k - 1] == r && items[k - 1] == e then 1 else 0
  }

  /** How often as one of the first `n` ranges. */
  function InRanges(items: seq<Entry>, ranges: seq<nat>, n: nat, k: nat, e: Entry): nat
    requires k <= |items| == |ranges|
  {
    if n == 0 then 0 else InRanges(items, ranges, n - 1, k, e) + InRange(items, ranges, n - 1, k, e)
  }

  lemma {:induction false} OneMoreItem(items: seq<Entry>, ranges: seq<nat>, n: nat, k: nat, e: Entry)
    requires k < |items| == |ranges|
    ensures InRanges(items, ranges, n, k + 1, e) ==
            InRanges(items, ranges, n, k, e) + if ranges[k] < n && items[k] == e then 1 else 0
  {
    if n > 0 {
      OneMoreItem(items, ranges, n - 1, k, e);
    }
  }

  lemma {:induction false} NoItems(items: seq<Entry>, ranges: seq<nat>, n: nat, e: Entry)
    requires |items| == |ranges|
    ensures InRanges(items, ranges, n, 0, e) == 0
  {
    if n > 0 {
      NoItems(items, ranges, n - 1, e);
    }
  }

  /** Every item is one of its range, and of no other. */
  lemma {:induction false} ItemsAreInRanges(items: seq<Entry>, ranges: seq<nat>, n: nat, k: nat, e: Entry)
    requires k <= |items| == |ranges| && forall i | 0 <= i < |ranges| :: ranges[i] < n
    ensures InRanges(items, ranges, n, k, e) == Occurs(items, k, e)
  {
    if k == 0 {
      NoItems(items, ranges, n, e);
    } else {
      ItemsAreInRanges(items, ranges, n, k - 1, e);
      OneMoreItem(items, ranges, n, k - 1, e);
    }
  }

  /** The slots of a range, in order, hold the items of the range, in order. */
  lemma {:induction false} SlotsHoldTheRange(items: seq<Entry>, ranges: seq<nat>, out: seq<Entry>, r: nat, k: nat,
                                             e: Entry)
    requires Scattered(items, ranges, out) && k <= |items| && Base(ranges, r) + Count(ranges, r, k) <= |out|
    ensures Occurs(out, Base(ranges, r) + Count(ranges, r, k), e) ==
            Occurs(out, Base(ranges, r), e) + InRange(items, ranges, r, k, e)
  {
    if k > 0 {
      SlotsHoldTheRange(items, ranges, out, r, k - 1, e);
      assert out[SlotOf(ranges, k - 1)] == items[k - 1];
    }
  }

  lemma {:induction false} SlotsHoldTheRanges(items: seq<Entry>, ranges: seq<nat>, out: seq<Entry>, n: nat, e: Entry)
    requires Scattered(items, ranges, out) && Base(ranges, n) <= |out|
    ensures Occurs(out, Base(ranges, n), e) == InRanges(items, ranges, n, |items|, e)
  {
    if n > 0 {
      SlotsHoldTheRanges(items, ranges, out, n - 1, e);
      SlotsHoldTheRange(items, ranges, out, n - 1, |items|, e);
    }
  }

  /** Sorting a slice changes no count. */
  lemma SliceKeepsCount(ranges: seq<nat>, n: nat, out: seq<Entry>, result: seq<Entry>, r: nat, e: Entry)
    requires RangesSorted(ranges, n, out, result) && r < n
    ensures IsRange(ranges, r, |out|)
    ensures Occurs(result, Base(ranges, r), e) == Occurs(out, Base(ranges, r), e) ==>
              Occurs(result, Base(ranges, r + 1), e) == Occurs(out, Base(ranges, r + 1), e)
  {
    assert IsRange(ranges, r, |out|);
    OccursInPart(out, Base(ranges, r), Base(ranges, r + 1), e);
    OccursInPart(result, Base(ranges, r), Base(ranges, r + 1), e);
    SortedHasNoInversions(Slice(ranges, r, out));
  }

  lemma {:induction false} SlicesKeepCounts(ranges: seq<nat>, n: nat, out: seq<Entry>, result: seq<Entry>, r: nat,
                                            e: Entry)
    requires RangesSorted(ranges, n, out, result) && r <= n
    ensures Base(ranges, r) <= |out| && Occurs(result, Base(ranges, r), e) == Occurs(out, Base(ranges, r), e)
  {
    if r > 0 {
      SlicesKeepCounts(ranges, n, out, result, r - 1, e);
      SliceKeepsCount(ranges, n, out, result, r - 1, e);
    }
  }

  /** Nothing is lost or doubled, whatever the ranges. */
  lemma ResultHoldsTheItems(items: seq<Entry>, ranges: seq<nat>, n: nat, out: seq<Entry>, result: seq<Entry>)
    requires Scattered(items, ranges, out) && RangesSorted(ranges, n, out, result)
    requires forall i | 0 <= i < |ranges| :: ranges[i] < n
    ensures multiset(result) == multiset(items)
  {
    BasesCover(ranges, n);
    assert result[0..|result|] == result && items[0..|items|] == items;
    forall e
      ensures multiset(result)[e] == multiset(items)[e]
    {
      SlicesKeepCounts(ranges, n, out, result, n, e);
      SlotsHoldTheRanges(items, ranges, out, n, e);
      ItemsAreInRanges(items, ranges, n, |items|, e);
      OccursInPart(result, 0, |result|, e);
      OccursInPart(items, 0, |items|, e);
    }
  }
}
