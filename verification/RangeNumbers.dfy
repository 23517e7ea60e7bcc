/** The ranges of the pool sort have 16-bit numbers.  When the numbers follow the keys is a matter of the
    counts of items and workers only: this module finds the condition. */
module RangeNumbers {
  import opened VoxelMap
  import opened Sorting
  import opened RangeScatter
  import opened Arithmetic

  const MIN_ITEMS := 65536
  const SAMPLE_STRIDE := 1024
  /** Range numbers are kept in 16 bits. */
  const RANGE_NUMBERS := 65536

  // ---- the bounds ------------------------------------------------------------------------------------

  function SampleSize(n: nat): nat { (n + SAMPLE_STRIDE - 1) / SAMPLE_STRIDE }

  function Sampled(items: seq<Entry>): (sample: seq<Entry>)
    ensures |sample| == SampleSize(|items|) && (items != [] ==> sample != [])
  {
    seq(SampleSize(|items|), k requires 0 <= k < SampleSize(|items|) => items[k * SAMPLE_STRIDE])
  }

  /** The quantiles of a sample taken at a fixed stride.  How the sort orders entries of equal keys does not
      matter to them. */
  function BoundsOf(items: seq<Entry>, workers: nat): (bounds: seq<Key>)
    requires items != [] && workers >= 1
    ensures |bounds| == workers - 1
  {
    var sorted := Sorted(Sampled(items));
    SortedLength(Sampled(items));
    seq(workers - 1, r requires 0 <= r < workers - 1 => QuantileKey(sorted, workers, r + 1))
  }

  function QuantileKey(sorted: seq<Entry>, workers: nat, r: nat): Key
    requires sorted != [] && r < workers
  {
    QuantileInSample(r, |sorted|, workers);
    sorted[(r * |sorted|) / workers].key
  }

  lemma BoundsDoAscend(items: seq<Entry>, workers: nat)
    requires items != [] && workers >= 1
    ensures BoundsAscend(BoundsOf(items, workers))
  {
    var bounds, sorted := BoundsOf(items, workers), Sorted(Sampled(items));
    SortedHasNoInversions(Sampled(items));
    forall b, c | 0 <= b < c < |bounds|
      ensures !KeyLess(bounds[c], bounds[b])
    {
      QuantileKeysAscend(sorted, workers, b + 1, c + 1);
    }
  }

  lemma QuantileKeysAscend(sorted: seq<Entry>, workers: nat, r: nat, q: nat)
    requires NoInversions(sorted) && sorted != [] && r <= q < workers
    ensures !KeyLess(QuantileKey(sorted, workers, q), QuantileKey(sorted, workers, r))
  {
    QuantilesAscend(r, q, |sorted|, workers);
    LaterIsNotLess(sorted, (r * |sorted|) / workers, (q * |sorted|) / workers);
  }

  lemma LaterIsNotLess(sorted: seq<Entry>, i: nat, j: nat)
    requires NoInversions(sorted) && i <= j < |sorted|
    ensures !KeyLess(sorted[j].key, sorted[i].key)
  {
  }

  lemma QuantilesAscend(r: nat, q: nat, m: nat, workers: nat)
    requires r <= q < workers && m > 0
    ensures (r * m) / workers <= (q * m) / workers < m
  {
    QuantileInSample(q, m, workers);
    Grows(r, q, m);
    QuotientGrows(r * m, q * m, workers);
  }

  lemma QuantileInSample(r: nat, m: nat, workers: nat)
    requires r < workers && m > 0
    ensures (r * m) / workers < m
  {
    Grows(r + 1, workers, m);
    assert (r + 1) * m == r * m + m;
    QuotientBelow(r * m, m, workers);
  }

  // ---- the numbers -----------------------------------------------------------------------------------

  /** A range's number as it is kept. */
  function RangeNumber(bounds: seq<Key>, key: Key): (r: nat)
    ensures r <= |bounds| && (|bounds| < RANGE_NUMBERS ==> r == RangeOf(bounds, key))
  {
    RangeOf(bounds, key) % RANGE_NUMBERS
  }

  function RangesOf(items: seq<Entry>, bounds: seq<Key>): (ranges: seq<nat>)
    ensures |ranges| == |items|
    ensures forall i | 0 <= i < |items| :: ranges[i] == RangeNumber(bounds, items[i].key)
  {
    if items == [] then []
    else RangesOf(items[..|items| - 1], bounds) + [RangeNumber(bounds, items[|items| - 1].key)]
  }

  /** The sort is in order exactly when it is done in one go, or the range numbers follow the keys. */
  predicate SortsInOrder(items: seq<Entry>, workers: nat) {
    workers <= 1 || |items| < MIN_ITEMS || NumbersFollowKeys(items, workers)
  }

  predicate NumbersFollowKeys(items: seq<Entry>, workers: nat)
    requires items != [] && workers >= 1
  {
    RangesFollowKeys(items, RangesOf(items, BoundsOf(items, workers)))
  }

  /** What the sort of `n` items on `workers` workers needs to be in order.  Up to 65536 workers always
      suffice; beyond, only some very large pools whose ranges' numbers repeat in step with the sample. */
  predicate RangesSuffice(workers: nat, n: nat) {
    n < MIN_ITEMS || workers % (RANGE_NUMBERS * SampleSize(n)) <= RANGE_NUMBERS
  }

  // ---- the range of a key ------------------------------------------------------------------------------

  /** `k` entries of the sorted sample are not above the key. */
  ghost predicate StandsAt(sorted: seq<Entry>, key: Key, k: nat) {
    && k <= |sorted|
    && (forall j | 0 <= j < k :: !KeyLess(key, sorted[j].key))
    && forall j | k <= j < |sorted| :: KeyLess(key, sorted[j].key)
  }

  lemma PlaceOf(sorted: seq<Entry>, key: Key) returns (k: nat)
    requires NoInversions(sorted)
    ensures StandsAt(sorted, key, k)
  {
    k := 0;
    while k < |sorted| && !KeyLess(key, sorted[k].key)
      invariant k <= |sorted| && forall j | 0 <= j < k :: !KeyLess(key, sorted[j].key)
    {
      k := k + 1;
    }
    assert forall j | k < j < |sorted| :: !KeyLess(sorted[j].key, sorted[k].key);
  }

  lemma PlacesFollowKeys(sorted: seq<Entry>, a: Key, b: Key, j: nat, k: nat)
    requires StandsAt(sorted, a, j) && StandsAt(sorted, b, k) && KeyLess(a, b)
    ensures j <= k
  {
    assert k < j ==> !KeyLess(a, sorted[k].key);
  }

  /** The range of a key above `k` of a sample of `m`; none below the first bound. */
  function Reached(k: nat, m: nat, workers: nat): int
    requires m > 0
  {
    (k * workers - 1) / m
  }

  /** A bound is not above a key exactly when its quantile is not. */
  lemma BoundReached(sorted: seq<Entry>, workers: nat, key: Key, k: nat, r: nat)
    requires sorted != [] && StandsAt(sorted, key, k) && r < workers
    ensures KeyLess(key, QuantileKey(sorted, workers, r)) <==> k * workers <= r * |sorted|
  {
    QuantileInSample(r, |sorted|, workers);
    var q := (r * |sorted|) / workers;
    assert r * |sorted| == workers * q + (r * |sorted|) % workers;
    if k <= q {
      GrowsRight(workers, k, q);
    } else {
      GrowsRight(workers, q + 1, k);
    }
  }

  lemma KeyBelowBound(items: seq<Entry>, workers: nat, key: Key, k: nat, r: nat)
    requires items != [] && 1 <= r < workers && StandsAt(Sorted(Sampled(items)), key, k)
    ensures KeyLess(key, BoundsOf(items, workers)[r - 1]) <==> k * workers <= r * SampleSize(|items|)
  {
    SortedLength(Sampled(items));
    BoundReached(Sorted(Sampled(items)), workers, key, k, r);
  }

  lemma RangeOfKey(items: seq<Entry>, workers: nat, key: Key, k: nat)
    requires items != [] && workers >= 1 && StandsAt(Sorted(Sampled(items)), key, k)
    ensures RangeOf(BoundsOf(items, workers), key) == if k == 0 then 0 else Reached(k, SampleSize(|items|), workers)
  {
    var r := RangeOf(BoundsOf(items, workers), key);
    SortedLength(Sampled(items));
    if r > 0 {
      KeyBelowBound(items, workers, key, k, r);
    }
    if r < workers - 1 {
      KeyBelowBound(items, workers, key, k, r + 1);
    }
    RangeIsReached(r, k, SampleSize(|items|), workers);
  }

  lemma RangeIsReached(r: nat, k: nat, m: nat, workers: nat)
    requires m > 0 && k <= m && r < workers
    requires r > 0 ==> k * workers > r * m
    requires r < workers - 1 ==> k * workers <= (r + 1) * m
    ensures r == if k == 0 then 0 else Reached(k, m, workers)
  {
    if k == 0 {
      assert r > 0 ==> k * workers == 0 <= r * m;
    } else {
      Grows(1, k, workers);
      Grows(k, m, workers);
      assert m * (r + 1) == (r + 1) * m == r * m + m && (r == workers - 1 ==> (r + 1) * m == m * workers);
      QuotientIs(k * workers - 1, m, r);
    }
  }

  // ---- when the numbers follow the keys ------------------------------------------------------------------

  function NumberAt(k: nat, m: nat, workers: nat): nat
    requires m > 0
  {
    Reached(k, m, workers) % RANGE_NUMBERS
  }

  /** Along the sample the numbers do not fall. */
  predicate NumbersAscend(m: nat, workers: nat)
    requires m > 0
  {
    forall j: nat, k: nat | 1 <= j <= k <= m :: NumberAt(j, m, workers) <= NumberAt(k, m, workers)
  }

  lemma NumberOfKey(items: seq<Entry>, workers: nat, key: Key, k: nat)
    requires items != [] && workers >= 1 && StandsAt(Sorted(Sampled(items)), key, k)
    ensures RangeNumber(BoundsOf(items, workers), key) ==
            if k == 0 then 0 else NumberAt(k, SampleSize(|items|), workers)
  {
    RangeOfKey(items, workers, key, k);
  }

  lemma AscendingNumbersFollow(items: seq<Entry>, workers: nat)
    requires items != [] && workers >= 1 && NumbersAscend(SampleSize(|items|), workers)
    ensures NumbersFollowKeys(items, workers)
  {
    forall i, j | 0 <= i < |items| && 0 <= j < |items| && KeyLess(items[i].key, items[j].key)
      ensures RangeNumber(BoundsOf(items, workers), items[i].key) <=
              RangeNumber(BoundsOf(items, workers), items[j].key)
    {
      NumbersFollow(items, workers, items[i].key, items[j].key);
    }
  }

  lemma NumbersFollow(items: seq<Entry>, workers: nat, a: Key, b: Key)
    requires items != [] && workers >= 1 && NumbersAscend(SampleSize(|items|), workers) && KeyLess(a, b)
    ensures RangeNumber(BoundsOf(items, workers), a) <= RangeNumber(BoundsOf(items, workers), b)
  {
    var sample := Sampled(items);
    SortedHasNoInversions(sample);
    var j := PlaceOf(Sorted(sample), a);
    var k := PlaceOf(Sorted(sample), b);
    PlacesFollowKeys(Sorted(sample), a, b, j, k);
    NumberOfKey(items, workers, a, j);
    NumberOfKey(items, workers, b, k);
  }

  /** With distinct keys there is an item at every place of the sample. */
  lemma ItemAtPlace(items: seq<Entry>, k: nat) returns (i: nat)
    requires DistinctKeys(items) && 1 <= k <= SampleSize(|items|)
    ensures i < |items| && |Sorted(Sampled(items))| == |Sampled(items)|
    ensures items[i] == Sorted(Sampled(items))[k - 1] && StandsAt(Sorted(Sampled(items)), items[i].key, k)
  {
    var sample := Sampled(items);
    assert DistinctKeys(sample);
    SortedIsSorted(sample);
    var e := Sorted(sample)[k - 1];
    assert e in sample;
    var s: nat :| s < |sample| && sample[s] == e;
    i := s * SAMPLE_STRIDE;
  }

  lemma FallingNumbersCross(items: seq<Entry>, workers: nat, j: nat, k: nat)
    requires DistinctKeys(items) && workers >= 1 && 1 <= j < k <= SampleSize(|items|)
    requires NumberAt(j, SampleSize(|items|), workers) > NumberAt(k, SampleSize(|items|), workers)
    ensures !NumbersFollowKeys(items, workers)
  {
    var a := ItemAtPlace(items, j);
    var b := ItemAtPlace(items, k);
    SortedIsSorted(Sampled(items));
    NumberOfKey(items, workers, items[a].key, j);
    NumberOfKey(items, workers, items[b].key, k);
    assert KeyLess(items[a].key, items[b].key);
  }

  /** For distinct keys the keys do not matter. */
  lemma FollowIffAscend(items: seq<Entry>, workers: nat)
    requires DistinctKeys(items) && items != [] && workers >= 1
    ensures NumbersFollowKeys(items, workers) <==> NumbersAscend(SampleSize(|items|), workers)
  {
    var m := SampleSize(|items|);
    if NumbersAscend(m, workers) {
      AscendingNumbersFollow(items, workers);
    } else {
      var j: nat, k: nat :| 1 <= j <= k <= m && NumberAt(j, m, workers) > NumberAt(k, m, workers);
      FallingNumbersCross(items, workers, j, k);
    }
  }

  // ---- the condition in numbers -----------------------------------------------------------------------

  /** A step along the sample raises the range by a worker's share of it. */
  lemma StepBetween(k: nat, m: nat, workers: nat, lo: int, hi: int)
    requires m > 0 && m * lo <= workers <= m * hi
    ensures Reached(k, m, workers) + lo <= Reached(k + 1, m, workers) <= Reached(k, m, workers) + hi
  {
    var a := k * workers - 1;
    assert (k + 1) * workers - 1 == a + workers;
    QuotientPlus(a, m, lo);
    QuotientPlus(a, m, hi);
    QuotientGrows(a + m * lo, a + workers, m);
    QuotientGrows(a + workers, a + m * hi, m);
  }

  lemma EndsOfSample(m: nat, workers: nat)
    requires m > 0
    ensures Reached(0, m, workers) == -1 && Reached(m, m, workers) == workers - 1
  {
    QuotientIs(-1, m, -1);
    QuotientPlus(-1, m, workers);
  }

  /** Ranges grow along the sample. */
  lemma {:induction false} ReachedGrows(j: nat, k: nat, m: nat, workers: nat)
    requires m > 0 && j <= k
    ensures Reached(j, m, workers) <= Reached(k, m, workers)
    decreases k - j
  {
    if j < k {
      StepBetween(j, m, workers, 0, workers);
      ReachedGrows(j + 1, k, m, workers);
    }
  }

  /** Few ranges: their numbers are the ranges themselves. */
  lemma FewRangesAscend(m: nat, workers: nat)
    requires m > 0 && 1 <= workers <= RANGE_NUMBERS
    ensures NumbersAscend(m, workers)
  {
    EndsOfSample(m, workers);
    forall j: nat, k: nat | 1 <= j <= k <= m
      ensures NumberAt(j, m, workers) <= NumberAt(k, m, workers)
    {
      FirstStep(m, workers);
      ReachedGrows(1, j, m, workers);
      ReachedGrows(j, k, m, workers);
      ReachedGrows(k, m, m, workers);
    }
  }

  lemma FirstStep(m: nat, workers: nat)
    requires m > 0 && workers >= 1
    ensures Reached(1, m, workers) >= 0
  {
  }

  /** A whole cycle of numbers for every step: every number is the last one. */
  lemma WholeCyclesAscend(m: nat)
    requires m > 0
    ensures NumbersAscend(m, RANGE_NUMBERS * m)
  {
    forall k: nat
      ensures NumberAt(k, m, RANGE_NUMBERS * m) == RANGE_NUMBERS - 1
    {
      assert k * (RANGE_NUMBERS * m) - 1 == -1 + m * (k * RANGE_NUMBERS);
      QuotientPlus(-1, m, k * RANGE_NUMBERS);
      QuotientIs(-1, m, -1);
    }
  }

  lemma NoFallStaysLow(a: int, b: int)
    requires 0 <= a < RANGE_NUMBERS && a <= b <= a + RANGE_NUMBERS - 1 && a % RANGE_NUMBERS <= b % RANGE_NUMBERS
    ensures b < RANGE_NUMBERS
  {
  }

  lemma NoFallStaysHigh(a: int, b: int, k: int)
    requires a == (k - 1) * RANGE_NUMBERS - 1 && a + RANGE_NUMBERS - 1 <= b <= a + RANGE_NUMBERS
    requires a % RANGE_NUMBERS <= b % RANGE_NUMBERS
    ensures b == k * RANGE_NUMBERS - 1
  {
  }

  /** Steps below a cycle: numbers that do not fall stay in the first cycle. */
  lemma {:induction false} AscendingStaysLow(k: nat, m: nat, workers: nat)
    requires m > 0 && workers >= 1 && NumbersAscend(m, workers) && workers <= m * (RANGE_NUMBERS - 1)
    requires 1 <= k <= m
    ensures 0 <= Reached(k, m, workers) < RANGE_NUMBERS
  {
    StepBetween(k - 1, m, workers, 0, RANGE_NUMBERS - 1);
    if k == 1 {
      EndsOfSample(m, workers);
      FirstStep(m, workers);
    } else {
      AscendingStaysLow(k - 1, m, workers);
      assert NumberAt(k - 1, m, workers) <= NumberAt(k, m, workers);
      NoFallStaysLow(Reached(k - 1, m, workers), Reached(k, m, workers));
    }
  }

  /** Steps of nearly a cycle: numbers that do not fall stay the last of theirs. */
  lemma {:induction false} AscendingStaysHigh(k: nat, m: nat, workers: nat)
    requires m > 0 && NumbersAscend(m, workers)
    requires m * (RANGE_NUMBERS - 1) < workers <= m * RANGE_NUMBERS
    requires 1 <= k <= m
    ensures Reached(k, m, workers) == k * RANGE_NUMBERS - 1
  {
    StepBetween(k - 1, m, workers, RANGE_NUMBERS - 1, RANGE_NUMBERS);
    if k == 1 {
      QuotientIs(workers - 1, m, RANGE_NUMBERS - 1);
    } else {
      AscendingStaysHigh(k - 1, m, workers);
      assert NumberAt(k - 1, m, workers) <= NumberAt(k, m, workers);
      NoFallStaysHigh(Reached(k - 1, m, workers), Reached(k, m, workers), k);
    }
  }

  /** Up to one cycle of numbers per entry of the sample. */
  lemma AscendIffInOneCycle(m: nat, workers: nat)
    requires m > 0 && 1 <= workers <= m * RANGE_NUMBERS
    ensures NumbersAscend(m, workers) <==> workers <= RANGE_NUMBERS || workers == m * RANGE_NUMBERS
  {
    if workers <= RANGE_NUMBERS {
      FewRangesAscend(m, workers);
    } else if workers == m * RANGE_NUMBERS {
      WholeCyclesAscend(m);
    } else if NumbersAscend(m, workers) {
      EndsOfSample(m, workers);
      if workers <= m * (RANGE_NUMBERS - 1) {
        AscendingStaysLow(m, m, workers);
      } else {
        AscendingStaysHigh(m, m, workers);
      }
    }
  }

  /** Whole cycles more change no number. */
  lemma CyclesChangeNothing(k: nat, m: nat, workers: nat, c: nat)
    requires m > 0
    ensures NumberAt(k, m, workers + c * (RANGE_NUMBERS * m)) == NumberAt(k, m, workers)
  {
    CyclesAreMultiples(k, m, workers, c);
    QuotientPlus(k * workers - 1, m, k * c * RANGE_NUMBERS);
  }

  lemma CyclesAreMultiples(k: nat, m: nat, workers: nat, c: nat)
    ensures k * (workers + c * (RANGE_NUMBERS * m)) - 1 == (k * workers - 1) + m * (k * c * RANGE_NUMBERS)
  {
    var more := c * (RANGE_NUMBERS * m);
    assert more == c * m * RANGE_NUMBERS;
    assert k * (workers + more) == k * workers + k * more;
    assert k * (c * m) == m * (k * c);
  }

  lemma SameNumbers(m: nat, workers: nat, rest: nat)
    requires m > 0 && forall k: nat :: NumberAt(k, m, workers) == NumberAt(k, m, rest)
    ensures NumbersAscend(m, workers) <==> NumbersAscend(m, rest)
  {
  }

  lemma AscendIffRest(m: nat, workers: nat, rest: nat, c: nat)
    requires m > 0 && 1 <= rest <= RANGE_NUMBERS * m && workers == rest + c * (RANGE_NUMBERS * m)
    ensures NumbersAscend(m, workers) <==> rest <= RANGE_NUMBERS || rest == RANGE_NUMBERS * m
  {
    forall k: nat
      ensures NumberAt(k, m, workers) == NumberAt(k, m, rest)
    {
      CyclesChangeNothing(k, m, rest, c);
    }
    SameNumbers(m, workers, rest);
    AscendIffInOneCycle(m, rest);
  }

  lemma AscendIff(m: nat, workers: nat)
    requires m > 0 && workers >= 1
    ensures NumbersAscend(m, workers) <==> workers % (RANGE_NUMBERS * m) <= RANGE_NUMBERS
  {
    var c, rest := RestOf(workers, RANGE_NUMBERS * m);
    AscendIffRest(m, workers, rest, c);
  }

  lemma RestOf(n: nat, cycle: nat) returns (c: nat, rest: nat)
    requires n >= 1 && cycle > 0
    ensures 1 <= rest <= cycle && n == rest + c * cycle && n % cycle == if rest == cycle then 0 else rest
  {
    c, rest := (n - 1) / cycle, (n - 1) % cycle + 1;
    assert n - 1 == cycle * c + (rest - 1);
    assert cycle * c == c * cycle && cycle * (c + 1) == cycle * c + cycle && cycle * (c + 2) == cycle * c + 2 * cycle;
    QuotientIs(n, cycle, if rest == cycle then c + 1 else c);
    assert n == cycle * (n / cycle) + n % cycle;
  }

  // ---- when the sort is in order -----------------------------------------------------------------------

  lemma SufficeIffAscend(workers: nat, n: nat)
    requires workers >= 1 && n >= MIN_ITEMS
    ensures RangesSuffice(workers, n) <==> NumbersAscend(SampleSize(n), workers)
  {
    AscendIff(SampleSize(n), workers);
  }

  lemma OneWorkerSuffices(workers: nat, n: nat)
    requires workers <= 1
    ensures RangesSuffice(workers, n)
  {
    if n >= MIN_ITEMS && workers == 1 {
      FewRangesAscend(SampleSize(n), workers);
      SufficeIffAscend(workers, n);
    }
  }

  /** Where the numbers suffice every list is sorted. */
  lemma SufficingKeepsOrder(items: seq<Entry>, workers: nat)
    ensures RangesSuffice(workers, |items|) ==> SortsInOrder(items, workers)
  {
    if workers > 1 && |items| >= MIN_ITEMS && RangesSuffice(workers, |items|) {
      SufficeIffAscend(workers, |items|);
      AscendingNumbersFollow(items, workers);
    }
  }

  /** Where they do not, no list of distinct keys is. */
  lemma DistinctInOrderIff(items: seq<Entry>, workers: nat)
    requires DistinctKeys(items)
    ensures SortsInOrder(items, workers) <==> RangesSuffice(workers, |items|)
  {
    if workers <= 1 {
      OneWorkerSuffices(workers, |items|);
    } else if |items| >= MIN_ITEMS {
      SufficeIffAscend(workers, |items|);
      FollowIffAscend(items, workers);
    }
  }

  /** Below 4194304 workers the numbers suffice exactly when there is one for every worker. */
  lemma OneNumberPerWorker(workers: nat, n: nat)
    requires n >= MIN_ITEMS && workers < 4194304
    ensures RangesSuffice(workers, n) <==> workers <= RANGE_NUMBERS
  {
    assert SampleSize(n) >= 64;
    assert workers % (RANGE_NUMBERS * SampleSize(n)) == workers;
  }

  /** A list of distinct keys. */
  function Counting(n: nat): (items: seq<Entry>)
    ensures |items| == n && DistinctKeys(items)
  {
    seq(n, i => Entry(Key(i, 0, 0), ZERO_ACCUM))
  }

  /** So they suffice exactly when the sort of `n` items can be relied upon. */
  lemma SufficeIffReliable(workers: nat, n: nat)
    ensures RangesSuffice(workers, n) <==> forall items: seq<Entry> | |items| == n :: SortsInOrder(items, workers)
  {
    if RangesSuffice(workers, n) {
      forall items: seq<Entry> | |items| == n
        ensures SortsInOrder(items, workers)
      {
        SufficingKeepsOrder(items, workers);
      }
    } else {
      DistinctInOrderIff(Counting(n), workers);
    }
  }

  /** One worker more than there are numbers is too many. */
  lemma OneWorkerTooMany()
    ensures !SortsInOrder(Counting(MIN_ITEMS), RANGE_NUMBERS + 1)
  {
    OneNumberPerWorker(RANGE_NUMBERS + 1, MIN_ITEMS);
    DistinctInOrderIff(Counting(MIN_ITEMS), RANGE_NUMBERS + 1);
  }
}
