/** Sorting the map's entries on a worker pool: the entries are classified into key ranges and scattered
    into them, every worker writing its own share of every range, and each range is then sorted by
    itself. */
module ParallelSort {
  import opened VoxelMap
  import opened MapChunks
  import opened Sorting
  import opened RangeScatter
  import opened RangeNumbers
  import opened Progress
  import opened Arithmetic

  // ---- the bounds ------------------------------------------------------------------------------------

  /** The bounds are picked as that. */
  method PickBounds(items: seq<Entry>, workers: nat) returns (bounds: seq<Key>)
    requires items != [] && workers >= 1
    ensures bounds == BoundsOf(items, workers) && BoundsAscend(bounds)
  {
    var sample := Sample(items);
    SortedLength(sample);
    var sorted := Sorted(sample);
    bounds := [];
    for r := 1 to workers
      invariant |bounds| == r - 1 && forall b | 0 <= b < r - 1 :: bounds[b] == QuantileKey(sorted, workers, b + 1)
    {
      QuantileInSample(r, |sorted|, workers);
      bounds := bounds + [sorted[(r * |sorted|) / workers].key];
    }
    BoundsDoAscend(items, workers);
  }

  method Sample(items: seq<Entry>) returns (sample: seq<Entry>)
    requires items != []
    ensures sample == Sampled(items)
  {
    sample := [];
    var i := 0;
    while i < |items|
      invariant i == |sample| * SAMPLE_STRIDE && |sample| <= (|items| + SAMPLE_STRIDE - 1) / SAMPLE_STRIDE
      invariant forall k | 0 <= k < |sample| :: k * SAMPLE_STRIDE < |items| && sample[k] == items[k * SAMPLE_STRIDE]
      decreases |items| - i
    {
      sample := sample + [items[i]];
      i := i + SAMPLE_STRIDE;
    }
  }

  // ---- the chunks ------------------------------------------------------------------------------------

  /** The chunks cover the items. */
  lemma ChunksCover(n: nat, chunks: nat, c: nat)
    requires chunks >= 1
    ensures ChunkFrom(n, chunks, c) <= ChunkFrom(n, chunks, c + 1)
    ensures ChunkFrom(n, chunks, 0) == 0 && ChunkFrom(n, chunks, chunks) == n
  {
    CeilCovers(n, chunks);
    Grows(c, c + 1, ChunkSize(n, chunks));
  }

  lemma {:induction false} ChunkOf(n: nat, chunks: nat, i: nat, k: nat) returns (c: nat)
    requires chunks >= 1 && i < ChunkFrom(n, chunks, k)
    ensures c < k && ChunkFrom(n, chunks, c) <= i < ChunkFrom(n, chunks, c + 1)
  {
    if i < ChunkFrom(n, chunks, k - 1) {
      c := ChunkOf(n, chunks, i, k - 1);
    } else {
      c := k - 1;
    }
  }

  /** Every chunk stands somewhere in its own stretch. */
  ghost predicate ChunksBetween(n: nat, chunks: nat, next: seq<nat>)
    requires chunks >= 1
  {
    |next| == chunks && forall c | 0 <= c < chunks :: ChunkFrom(n, chunks, c) <= next[c] <= ChunkFrom(n, chunks, c + 1)
  }

  function LeftIn(n: nat, chunks: nat, next: seq<nat>, k: nat): int
    requires chunks >= 1 && k <= |next| && k <= chunks
  {
    if k == 0 then 0 else LeftIn(n, chunks, next, k - 1) + ChunkFrom(n, chunks, k) - next[k - 1]
  }

  lemma {:induction false} LeftFalls(n: nat, chunks: nat, next: seq<nat>, k: nat, c: nat)
    requires chunks >= 1 && k <= |next| == chunks && c < chunks
    ensures LeftIn(n, chunks, next[c := next[c] + 1], k) == LeftIn(n, chunks, next, k) - if c < k then 1 else 0
  {
    if k > 0 {
      LeftFalls(n, chunks, next, k - 1, c);
    }
  }

  lemma {:induction false} LeftIsNat(n: nat, chunks: nat, next: seq<nat>, k: nat)
    requires chunks >= 1 && ChunksBetween(n, chunks, next) && k <= chunks
    ensures LeftIn(n, chunks, next, k) >= 0
  {
    if k > 0 {
      LeftIsNat(n, chunks, next, k - 1);
    }
  }

  lemma OneStepOn(n: nat, chunks: nat, next: seq<nat>, c: nat)
    requires chunks >= 1 && ChunksBetween(n, chunks, next) && c < chunks && next[c] < ChunkFrom(n, chunks, c + 1)
    ensures ChunksBetween(n, chunks, next[c := next[c] + 1])
    ensures 0 <= LeftIn(n, chunks, next[c := next[c] + 1], chunks) < LeftIn(n, chunks, next, chunks)
  {
    LeftFalls(n, chunks, next, chunks, c);
    LeftIsNat(n, chunks, next[c := next[c] + 1], chunks);
  }

  function Begins(n: nat, chunks: nat): (next: seq<nat>)
    requires chunks >= 1
    ensures |next| == chunks && forall c | 0 <= c < chunks :: next[c] == ChunkFrom(n, chunks, c)
  {
    BeginsUpTo(n, chunks, chunks)
  }

  function BeginsUpTo(n: nat, chunks: nat, k: nat): (next: seq<nat>)
    requires chunks >= 1
    ensures |next| == k && forall c | 0 <= c < k :: next[c] == ChunkFrom(n, chunks, c)
  {
    if k == 0 then [] else BeginsUpTo(n, chunks, k - 1) + [ChunkFrom(n, chunks, k - 1)]
  }

  function Ends(n: nat, chunks: nat): (next: seq<nat>)
    requires chunks >= 1
    ensures |next| == chunks && forall c | 0 <= c < chunks :: next[c] == ChunkFrom(n, chunks, c + 1)
  {
    BeginsUpTo(n, chunks, chunks + 1)[1..]
  }

  lemma StartOfChunks(n: nat, chunks: nat)
    requires chunks >= 1
    ensures ChunksBetween(n, chunks, Begins(n, chunks))
  {
    forall c | 0 <= c < chunks
      ensures ChunkFrom(n, chunks, c) <= ChunkFrom(n, chunks, c + 1)
    {
      ChunksCover(n, chunks, c);
    }
  }

  // ---- pass 1: the range of every item -----------------------------------------------------------------

  /** The items of a stretch in each range. */
  ghost predicate CountsOf(ranges: seq<nat>, begin: nat, end: nat, counts: seq<nat>) {
    && begin <= end <= |ranges|
    && forall r: nat | r < |counts| :: counts[r] == Count(ranges, r, end) - Count(ranges, r, begin)
  }

  /** The items of a stretch are classified in `rangeOf` and counted. */
  ghost predicate StretchDone(ranges: seq<nat>, rangeOf: seq<nat>, begin: nat, end: nat, n: nat, counts: seq<nat>) {
    && |counts| == n && CountsOf(ranges, begin, end, counts) && |rangeOf| == |ranges|
    && forall i | begin <= i < end :: rangeOf[i] == ranges[i]
  }

  /** Every chunk `c` has classified and counted its items up to `next[c]`. */
  ghost predicate ChunksDone(ranges: seq<nat>, rangeOf: seq<nat>, chunks: nat, n: nat, counts: seq<seq<nat>>,
                             next: seq<nat>)
    requires chunks >= 1
  {
    && |next| == |counts| == chunks
    && forall c | 0 <= c < chunks ::
         StretchDone(ranges, rangeOf, ChunkFrom(|ranges|, chunks, c), next[c], n, counts[c])
  }

  /** Every chunk's items are counted. */
  ghost predicate Counted(ranges: seq<nat>, chunks: nat, n: nat, counts: seq<seq<nat>>)
    requires chunks >= 1
  {
    && |counts| == chunks
    && forall c | 0 <= c < chunks ::
         && |counts[c]| == n
         && CountsOf(ranges, ChunkFrom(|ranges|, chunks, c), ChunkFrom(|ranges|, chunks, c + 1), counts[c])
  }

  /** Classifying another item leaves a stretch that is done as it is. */
  lemma StretchStaysDone(ranges: seq<nat>, before: seq<nat>, i: nat, begin: nat, end: nat, n: nat, counts: seq<nat>)
    requires StretchDone(ranges, before, begin, end, n, counts) && i < |ranges|
    ensures StretchDone(ranges, before[i := ranges[i]], begin, end, n, counts)
  {
  }

  lemma OneMoreInStretch(ranges: seq<nat>, before: seq<nat>, begin: nat, i: nat, n: nat, counts: seq<nat>)
    requires StretchDone(ranges, before, begin, i, n, counts) && i < |ranges| && ranges[i] < n
    ensures var r := ranges[i];
            StretchDone(ranges, before[i := r], begin, i + 1, n, counts[r := counts[r] + 1])
  {
  }

  /** Classify and count a chunk's next item. */
  method ClassifyItem(items: seq<Entry>, bounds: seq<Key>, chunks: nat, next: seq<nat>, c: nat, rangeOf: array<nat>,
                      counts: seq<seq<nat>>) returns (counts': seq<seq<nat>>)
    requires c < chunks && rangeOf.Length == |items| && ChunksBetween(|items|, chunks, next)
    requires next[c] < ChunkFrom(|items|, chunks, c + 1)
    requires ChunksDone(RangesOf(items, bounds), rangeOf[..], chunks, |bounds| + 1, counts, next)
    modifies rangeOf
    ensures ChunksDone(RangesOf(items, bounds), rangeOf[..], chunks, |bounds| + 1, counts', next[c := next[c] + 1])
  {
    ghost var ranges, before, n := RangesOf(items, bounds), rangeOf[..], |bounds| + 1;
    var i := next[c];
    var r := RangeNumber(bounds, items[i].key);
    OneMoreInStretch(ranges, before, ChunkFrom(|items|, chunks, c), i, n, counts[c]);
    forall d | 0 <= d < chunks && d != c
      ensures StretchDone(ranges, before[i := r], ChunkFrom(|items|, chunks, d), next[d], n, counts[d])
    {
      StretchStaysDone(ranges, before, i, ChunkFrom(|items|, chunks, d), next[d], n, counts[d]);
    }
    rangeOf[i] := r;
    assert rangeOf[..] == before[i := r];
    counts' := counts[c := counts[c][r := counts[c][r] + 1]];
  }

  /** Pass 1: any chunk classifies its next item next. */
  method Classify(items: seq<Entry>, bounds: seq<Key>, chunks: nat) returns (rangeOf: array<nat>, counts: seq<seq<nat>>)
    requires chunks >= 1
    ensures fresh(rangeOf) && rangeOf[..] == RangesOf(items, bounds)
    ensures Counted(RangesOf(items, bounds), chunks, |bounds| + 1, counts)
  {
    rangeOf := new nat[|items|](_ => 0);
    counts := seq(chunks, _ => seq(|bounds| + 1, _ => 0));
    var next: seq<nat> := Begins(|items|, chunks);
    StartOfChunks(|items|, chunks);
    while exists c :: 0 <= c < chunks && next[c] < ChunkFrom(|items|, chunks, c + 1)
      invariant fresh(rangeOf) && rangeOf.Length == |items| && ChunksBetween(|items|, chunks, next)
      invariant ChunksDone(RangesOf(items, bounds), rangeOf[..], chunks, |bounds| + 1, counts, next)
      decreases LeftIn(|items|, chunks, next, chunks)
    {
      var c :| 0 <= c < chunks && next[c] < ChunkFrom(|items|, chunks, c + 1);
      counts := ClassifyItem(items, bounds, chunks, next, c, rangeOf, counts);
      OneStepOn(|items|, chunks, next, c);
      next := next[c := next[c] + 1];
    }
    assert next == Ends(|items|, chunks);
    AllClassified(RangesOf(items, bounds), rangeOf[..], chunks, |bounds| + 1, counts);
  }

  lemma AllClassified(ranges: seq<nat>, rangeOf: seq<nat>, chunks: nat, n: nat, counts: seq<seq<nat>>)
    requires chunks >= 1 && |rangeOf| == |ranges|
    requires ChunksDone(ranges, rangeOf, chunks, n, counts, Ends(|ranges|, chunks))
    ensures rangeOf == ranges && Counted(ranges, chunks, n, counts)
  {
    assert forall c | 0 <= c < chunks :: Ends(|ranges|, chunks)[c] == ChunkFrom(|ranges|, chunks, c + 1);
    forall i | 0 <= i < |ranges|
      ensures rangeOf[i] == ranges[i]
    {
      ChunksCover(|ranges|, chunks, 0);
      var c := ChunkOf(|ranges|, chunks, i, chunks);
    }
  }

  // ---- where every chunk's share of every range begins ----------------------------------------------

  /** The chunk's next slot in each range when it has placed its items up to `at`. */
  ghost predicate CursorsAt(ranges: seq<nat>, at: nat, cursors: seq<nat>) {
    && at <= |ranges|
    && forall r: nat | r < |cursors| :: cursors[r] == Base(ranges, r) + Count(ranges, r, at)
  }

  /** Where each range begins, for the first chunk. */
  method Bases(ghost ranges: seq<nat>, n: nat, chunks: nat, counts: seq<seq<nat>>) returns (bases: seq<nat>)
    requires chunks >= 1 && Counted(ranges, chunks, n, counts)
    ensures |bases| == n + 1 && forall r | 0 <= r <= n :: bases[r] == Base(ranges, r)
  {
    bases := [0];
    ChunksCover(|ranges|, chunks, 0);
    for r := 0 to n
      invariant |bases| == r + 1 && forall q | 0 <= q <= r :: bases[q] == Base(ranges, q)
    {
      var next := NextBase(ranges, n, chunks, counts, r, bases[r]);
      bases := bases + [next];
    }
  }

  method NextBase(ghost ranges: seq<nat>, n: nat, chunks: nat, counts: seq<seq<nat>>, r: nat, base: nat)
    returns (next: nat)
    requires chunks >= 1 && Counted(ranges, chunks, n, counts)
    requires r < n && base == Base(ranges, r)
    ensures next == Base(ranges, r + 1)
  {
    next := base;
    ChunksCover(|ranges|, chunks, 0);
    for c := 0 to chunks
      invariant next == base + Count(ranges, r, ChunkFrom(|ranges|, chunks, c))
    {
      ChunkAdds(ranges, chunks, n, counts, c, r);
      next := next + counts[c][r];
    }
  }

  lemma ChunkAdds(ranges: seq<nat>, chunks: nat, n: nat, counts: seq<seq<nat>>, c: nat, r: nat)
    requires chunks >= 1 && Counted(ranges, chunks, n, counts) && c < chunks && r < n
    ensures |counts| == chunks && |counts[c]| == n
    ensures Count(ranges, r, ChunkFrom(|ranges|, chunks, c)) + counts[c][r] ==
              Count(ranges, r, ChunkFrom(|ranges|, chunks, c + 1))
  {
    assert CountsOf(ranges, ChunkFrom(|ranges|, chunks, c), ChunkFrom(|ranges|, chunks, c + 1), counts[c]);
  }

  /** Each chunk's cursors before it places anything: after the chunks before it. */
  method Cursors(ghost ranges: seq<nat>, n: nat, chunks: nat, counts: seq<seq<nat>>, bases: seq<nat>)
    returns (cursors: seq<seq<nat>>)
    requires chunks >= 1 && Counted(ranges, chunks, n, counts)
    requires |bases| == n + 1 && forall r | 0 <= r <= n :: bases[r] == Base(ranges, r)
    ensures CursorsFit(ranges, n, Begins(|ranges|, chunks), cursors)
  {
    var row := bases[..n];
    cursors := [];
    ChunksCover(|ranges|, chunks, 0);
    for c := 0 to chunks
      invariant |row| == n && CursorsAt(ranges, ChunkFrom(|ranges|, chunks, c), row)
      invariant CursorsFit(ranges, n, BeginsUpTo(|ranges|, chunks, c), cursors)
    {
      cursors := cursors + [row];
      row := Shifted(ranges, n, chunks, counts, c, row);
    }
  }

  /** The next chunk's cursors. */
  method Shifted(ghost ranges: seq<nat>, n: nat, chunks: nat, counts: seq<seq<nat>>, c: nat, row: seq<nat>)
    returns (next: seq<nat>)
    requires chunks >= 1 && Counted(ranges, chunks, n, counts) && c < chunks
    requires |row| == n && CursorsAt(ranges, ChunkFrom(|ranges|, chunks, c), row)
    ensures |next| == n && CursorsAt(ranges, ChunkFrom(|ranges|, chunks, c + 1), next)
  {
    next := row;
    for r := 0 to n
      invariant |next| == n
      invariant forall q | 0 <= q < n ::
                  next[q] == Base(ranges, q) + Count(ranges, q, ChunkFrom(|ranges|, chunks, if q < r then c + 1 else c))
    {
      ChunkAdds(ranges, chunks, n, counts, c, r);
      next := next[r := next[r] + counts[c][r]];
    }
  }

  // ---- the scatter ------------------------------------------------------------------------------------

  /** Every chunk `c` has placed its items up to `next[c]`, each in its own slot. */
  ghost predicate PlacedUpTo(items: seq<Entry>, ranges: seq<nat>, chunks: nat, next: seq<nat>, out: seq<Entry>)
    requires chunks >= 1
  {
    && |items| == |ranges| == |out| && |next| == chunks
    && forall c, i | 0 <= c < chunks && PlacedBy(|items|, chunks, c, next[c], i) :: HasSlot(items, ranges, out, i)
  }

  /** Chunk `c` has placed item `i` when it stands at `next`. */
  predicate PlacedBy(n: nat, chunks: nat, c: nat, next: nat, i: nat)
    requires chunks >= 1
  {
    ChunkFrom(n, chunks, c) <= i < next <= n
  }

  predicate HasSlot(items: seq<Entry>, ranges: seq<nat>, out: seq<Entry>, i: nat)
    requires |items| == |ranges|
  {
    i < |items| && SlotOf(ranges, i) < |out| && out[SlotOf(ranges, i)] == items[i]
  }

  ghost predicate CursorsFit(ranges: seq<nat>, n: nat, next: seq<nat>, cursors: seq<seq<nat>>) {
    && |cursors| == |next|
    && forall c | 0 <= c < |next| :: |cursors[c]| == n && CursorsAt(ranges, next[c], cursors[c])
  }

  /** Placing item `i` in its slot keeps every other placed item where it is. */
  lemma PlacingKeepsOthers(items: seq<Entry>, ranges: seq<nat>, n: nat, out: seq<Entry>, i: nat, j: nat)
    requires |items| == |ranges| == |out| && i < |items| && forall k | 0 <= k < |ranges| :: ranges[k] < n
    requires j == i || HasSlot(items, ranges, out, j)
    ensures SlotOf(ranges, i) < |out| && HasSlot(items, ranges, out[SlotOf(ranges, i) := items[i]], j)
  {
    SlotInRange(ranges, i, n);
    if i < j {
      SlotsAreDistinct(ranges, i, j, n);
    } else if j < i {
      SlotsAreDistinct(ranges, j, i, n);
    }
  }

  lemma OneMorePlaced(items: seq<Entry>, ranges: seq<nat>, n: nat, chunks: nat, next: seq<nat>, out: seq<Entry>, c: nat)
    requires chunks >= 1 && PlacedUpTo(items, ranges, chunks, next, out) && c < chunks && next[c] < |items|
    requires forall k | 0 <= k < |ranges| :: ranges[k] < n
    ensures SlotOf(ranges, next[c]) < |out|
    ensures PlacedUpTo(items, ranges, chunks, next[c := next[c] + 1], out[SlotOf(ranges, next[c]) := items[next[c]]])
  {
    var i, next' := next[c], next[c := next[c] + 1];
    SlotInRange(ranges, i, n);
    forall d, j | 0 <= d < chunks && PlacedBy(|items|, chunks, d, next'[d], j)
      ensures HasSlot(items, ranges, out[SlotOf(ranges, i) := items[i]], j)
    {
      assert j == i || PlacedBy(|items|, chunks, d, next[d], j);
      PlacingKeepsOthers(items, ranges, n, out, i, j);
    }
  }

  lemma CursorMoves(ranges: seq<nat>, i: nat, cursors: seq<nat>)
    requires i < |ranges| && CursorsAt(ranges, i, cursors) && ranges[i] < |cursors|
    ensures cursors[ranges[i]] == SlotOf(ranges, i)
    ensures CursorsAt(ranges, i + 1, cursors[ranges[i] := cursors[ranges[i]] + 1])
  {
  }

  lemma AllPlacedIsScattered(items: seq<Entry>, ranges: seq<nat>, chunks: nat, next: seq<nat>, out: seq<Entry>)
    requires chunks >= 1 && PlacedUpTo(items, ranges, chunks, next, out)
    requires forall c | 0 <= c < chunks :: next[c] == ChunkFrom(|items|, chunks, c + 1)
    ensures Scattered(items, ranges, out)
  {
    forall i | 0 <= i < |items|
      ensures SlotOf(ranges, i) < |out| && out[SlotOf(ranges, i)] == items[i]
    {
      ChunksCover(|items|, chunks, 0);
      var c := ChunkOf(|items|, chunks, i, chunks);
      assert PlacedBy(|items|, chunks, c, next[c], i);
      assert HasSlot(items, ranges, out, i);
    }
  }

  /** Pass 2: any chunk places its next item next.  A cursor always stands at the item's own slot. */
  method Scatter(items: seq<Entry>, rangeOf: seq<nat>, n: nat, chunks: nat, shares: seq<seq<nat>>)
    returns (out: array<Entry>)
    requires chunks >= 1 && |rangeOf| == |items| && forall k | 0 <= k < |rangeOf| :: rangeOf[k] < n
    requires CursorsFit(rangeOf, n, Begins(|items|, chunks), shares)
    ensures fresh(out) && Scattered(items, rangeOf, out[..])
  {
    var next: seq<nat>, cursors := Begins(|items|, chunks), shares;
    out := new Entry[|items|](_ => Entry(Key(0, 0, 0), ZERO_ACCUM));
    StartOfChunks(|items|, chunks);
    while exists c :: 0 <= c < chunks && next[c] < ChunkFrom(|items|, chunks, c + 1)
      invariant fresh(out) && ChunksBetween(|items|, chunks, next) && CursorsFit(rangeOf, n, next, cursors)
      invariant PlacedUpTo(items, rangeOf, chunks, next, out[..])
      decreases LeftIn(|items|, chunks, next, chunks)
    {
      var c :| 0 <= c < chunks && next[c] < ChunkFrom(|items|, chunks, c + 1);
      cursors := PlaceItem(items, rangeOf, n, chunks, next, cursors, c, out);
      OneStepOn(|items|, chunks, next, c);
      next := next[c := next[c] + 1];
    }
    AllPlacedIsScattered(items, rangeOf, chunks, next, out[..]);
  }

  method PlaceItem(items: seq<Entry>, rangeOf: seq<nat>, n: nat, chunks: nat, next: seq<nat>, cursors: seq<seq<nat>>,
                   c: nat, out: array<Entry>) returns (cursors': seq<seq<nat>>)
    requires c < chunks && |rangeOf| == |items| && forall k | 0 <= k < |rangeOf| :: rangeOf[k] < n
    requires ChunksBetween(|items|, chunks, next) && next[c] < ChunkFrom(|items|, chunks, c + 1)
    requires CursorsFit(rangeOf, n, next, cursors) && PlacedUpTo(items, rangeOf, chunks, next, out[..])
    modifies out
    ensures CursorsFit(rangeOf, n, next[c := next[c] + 1], cursors')
    ensures PlacedUpTo(items, rangeOf, chunks, next[c := next[c] + 1], out[..])
  {
    var i := next[c];
    var r := rangeOf[i];
    OneMorePlaced(items, rangeOf, n, chunks, next, out[..], c);
    CursorMoves(rangeOf, i, cursors[c]);
    var at := cursors[c][r];
    ghost var before := out[..];
    out[at] := items[i];
    assert out[..] == before[at := items[i]];
    cursors' := cursors[c := cursors[c][r := at + 1]];
  }

  // ---- sorting the ranges -------------------------------------------------------------------------------

  /** Sort a stretch of an array in place; which algorithm does it makes no difference. */
  method SortStretch(a: array<Entry>, lo: nat, hi: nat)
    requires lo <= hi <= a.Length
    modifies a
    ensures a[..] == old(a[..])[..lo] + Sorted(old(a[lo..hi])) + old(a[..])[hi..]
    ensures |Sorted(old(a[lo..hi]))| == hi - lo
  {
    ghost var before := a[..];
    assert a[lo..hi] == before[lo..hi];
    SortedLength(before[lo..hi]);
    var sorted := Sorted(a[lo..hi]);
    for i := lo to hi
      invariant forall k | 0 <= k < a.Length :: a[k] == if lo <= k < i then sorted[k - lo] else before[k]
    {
      a[i] := sorted[i - lo];
    }
    assert a[..] == before[..lo] + sorted + before[hi..];
  }

  /** The ranges done are sorted, the others as they were. */
  ghost predicate SortedSoFar(ranges: seq<nat>, n: nat, out: seq<Entry>, now: seq<Entry>, done: seq<bool>) {
    && |now| == |out| == |ranges| && |done| == n
    && forall r: nat | r < n :: IsRange(ranges, r, |out|)
         && Slice(ranges, r, now) == if done[r] then Sorted(Slice(ranges, r, out)) else Slice(ranges, r, out)
  }

  lemma OtherSlicesStay(ranges: seq<nat>, r: nat, q: nat, before: seq<Entry>, after: seq<Entry>, sorted: seq<Entry>)
    requires IsRange(ranges, r, |before|) && IsRange(ranges, q, |before|) && |sorted| == |Slice(ranges, r, before)|
    requires after == before[..Base(ranges, r)] + sorted + before[Base(ranges, r + 1)..]
    ensures |after| == |before| && Slice(ranges, q, after) == if q == r then sorted else Slice(ranges, q, before)
  {
    if q == r {
      assert after[Base(ranges, r)..Base(ranges, r + 1)] == sorted;
    } else {
      BaseGrows(ranges, if q < r then q + 1 else r + 1, if q < r then r else q);
      StretchStays(before, after, Base(ranges, r), Base(ranges, r + 1), sorted, Base(ranges, q), Base(ranges, q + 1));
    }
  }

  lemma StretchStays(before: seq<Entry>, after: seq<Entry>, lo: nat, hi: nat, mid: seq<Entry>, a: nat, b: nat)
    requires lo <= hi <= |before| && |mid| == hi - lo && after == before[..lo] + mid + before[hi..]
    requires a <= b <= |before| && (b <= lo || hi <= a)
    ensures |after| == |before| && after[a..b] == before[a..b]
  {
    forall i | a <= i < b
      ensures after[i] == before[i]
    {
    }
  }

  lemma OneMoreSorted(ranges: seq<nat>, n: nat, out: seq<Entry>, before: seq<Entry>, after: seq<Entry>,
                      done: seq<bool>, r: nat)
    requires SortedSoFar(ranges, n, out, before, done) && r < n && !done[r]
    requires |Sorted(Slice(ranges, r, before))| == |Slice(ranges, r, before)|
    requires after == before[..Base(ranges, r)] + Sorted(Slice(ranges, r, before)) + before[Base(ranges, r + 1)..]
    ensures SortedSoFar(ranges, n, out, after, done[r := true])
  {
    forall q: nat | q < n
      ensures |after| == |before|
      ensures IsRange(ranges, q, |after|) && Slice(ranges, q, after) ==
              if q == r || done[q] then Sorted(Slice(ranges, q, out)) else Slice(ranges, q, out)
    {
      OtherSlicesStay(ranges, r, q, before, after, Sorted(Slice(ranges, r, before)));
    }
  }

  /** Pass 3: any range next. */
  method SortRanges(ghost ranges: seq<nat>, n: nat, bases: seq<nat>, out: array<Entry>)
    requires |ranges| == out.Length
    requires forall i | 0 <= i < |ranges| :: ranges[i] < n
    requires |bases| == n + 1 && forall r | 0 <= r <= n :: bases[r] == Base(ranges, r)
    modifies out
    ensures RangesSorted(ranges, n, old(out[..]), out[..])
  {
    var done: seq<bool> := seq(n, _ => false);
    ghost var before := out[..];
    RangesLieInside(ranges, n);
    while exists r :: 0 <= r < n && !done[r]
      invariant SortedSoFar(ranges, n, before, out[..], done)
      decreases Total(done, Pending)
    {
      var r :| 0 <= r < n && !done[r];
      ghost var now := out[..];
      assert out[bases[r]..bases[r + 1]] == Slice(ranges, r, now);
      SortStretch(out, bases[r], bases[r + 1]);
      OneMoreSorted(ranges, n, before, now, out[..], done, r);
      TotalUpdate(done, r, true, Pending);
      done := done[r := true];
    }
  }

  lemma RangesLieInside(ranges: seq<nat>, n: nat)
    requires forall i | 0 <= i < |ranges| :: ranges[i] < n
    ensures forall r: nat | r < n :: IsRange(ranges, r, |ranges|)
  {
    BasesCover(ranges, n);
    forall r: nat | r < n
      ensures IsRange(ranges, r, |ranges|)
    {
      BaseGrows(ranges, r + 1, n);
    }
  }

  // ---- the whole sort -----------------------------------------------------------------------------------

  /** Sort entries, on a pool when it pays.  No entry is lost or doubled, whatever the pool; the result is
      in order exactly when the range numbers follow the keys, which they do where they suffice; and if the
      keys are unique it is the list a single sort gives exactly where they suffice. */
  method SortEntries(items: seq<Entry>, workers: nat) returns (result: seq<Entry>)
    ensures multiset(result) == multiset(items)
    ensures NoInversions(result) <==> SortsInOrder(items, workers)
    ensures RangesSuffice(workers, |items|) ==> NoInversions(result)
    ensures DistinctKeys(items) ==> (result == Sorted(items) <==> RangesSuffice(workers, |items|))
  {
    if workers <= 1 || |items| < MIN_ITEMS {
      SortedHasNoInversions(items);
      result := Sorted(items);
    } else {
      result := SortInRanges(items, workers);
    }
    OrderedAsNumbersAllow(items, workers, result);
  }

  lemma OrderedAsNumbersAllow(items: seq<Entry>, workers: nat, result: seq<Entry>)
    requires multiset(result) == multiset(items) && (NoInversions(result) <==> SortsInOrder(items, workers))
    ensures RangesSuffice(workers, |items|) ==> NoInversions(result)
    ensures DistinctKeys(items) ==> (result == Sorted(items) <==> RangesSuffice(workers, |items|))
  {
    SufficingKeepsOrder(items, workers);
    if DistinctKeys(items) {
      DistinctInOrderIff(items, workers);
      InOrderIsSorted(items, result);
    }
  }

  lemma InOrderIsSorted(items: seq<Entry>, result: seq<Entry>)
    requires DistinctKeys(items) && multiset(result) == multiset(items)
    ensures NoInversions(result) <==> result == Sorted(items)
  {
    SortedHasNoInversions(items);
    if NoInversions(result) {
      OneSort(items, result);
    }
  }

  method SortInRanges(items: seq<Entry>, workers: nat) returns (result: seq<Entry>)
    requires items != [] && workers >= 1
    ensures multiset(result) == multiset(items)
    ensures NoInversions(result) <==> NumbersFollowKeys(items, workers)
  {
    var bounds := PickBounds(items, workers);
    ghost var ranges := RangesOf(items, bounds);
    var rangeOf, counts := Classify(items, bounds, workers);
    var bases := Bases(ranges, workers, workers, counts);
    var shares := Cursors(ranges, workers, workers, counts, bases);
    var out := Scatter(items, rangeOf[..], workers, workers, shares);
    ghost var scattered := out[..];
    SortRanges(ranges, workers, bases, out);
    result := out[..];
    ResultHoldsTheItems(items, ranges, workers, scattered, result);
    ResultIsSortedIff(items, ranges, workers, scattered, result);
  }
}
