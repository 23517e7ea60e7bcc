/** Choosing the images to decode, evenly spread, and meeting every choice in one pass over the bag. */
module SamplePicks {
  import opened Arithmetic

  predicate Increasing(s: seq<nat>) {
    forall i, j | 0 <= i < j < |s| :: s[i] < s[j]
  }

  // ---- even spacing in floating point -----------------------------------------------------------

  /** How the machine computes `(i / (n - 1)) * m`. */
  type Product = (nat, nat, nat) -> real

  ghost function Exact(i: nat, n: nat, m: nat): real
    requires n >= 2
  {
    (i * m) as real / (n - 1) as real
  }

  /** The computed products are off by less than one part in `n - 1`, and not at all at the two ends,
      where the quotient is zero or one. */
  ghost predicate CloseEnough(product: Product, n: nat, m: nat)
    requires n >= 2
  {
    && product(0, n, m) == 0.0 && product(n - 1, n, m) == m as real
    && forall i: nat | i < n :: -1.0 < (product(i, n, m) - Exact(i, n, m)) * (n - 1) as real < 1.0
  }

  /** The quotient of `i * m` by `n - 1`, or one less when it is exact. */
  predicate Floored(i: nat, n: nat, m: nat, r: int)
    requires n >= 2
  {
    (n - 1) * r <= i * m <= (n - 1) * (r + 1)
  }

  /** Flooring a product that is close enough gives the exact quotient, or one too little when the
      exact product is whole. */
  lemma FlooredProduct(product: Product, n: nat, m: nat, i: nat)
    requires n >= 2 && CloseEnough(product, n, m) && i < n
    ensures Floored(i, n, m, product(i, n, m).Floor)
  {
    var d, v := (n - 1) as real, product(i, n, m);
    Quotient((i * m) as real, d);
    Scaled(v - Exact(i, n, m), v, Exact(i, n, m), d);
    FloorTimes(v, n - 1, i * m);
  }

  lemma Quotient(a: real, d: real)
    requires d > 0.0
    ensures a / d * d == a
  {
  }

  lemma FloorTimes(v: real, d: nat, p: nat)
    requires -1.0 < v * d as real - p as real < 1.0
    ensures d * v.Floor <= p <= d * (v.Floor + 1)
  {
    var r := v.Floor;
    RealGrows(r as real, v, d as real);
    RealGrows(v, (r + 1) as real, d as real);
    RealTimes(d, r);
    RealTimes(d, r + 1);
    assert (d * r) as real < (p + 1) as real;
    assert (d * (r + 1)) as real > (p - 1) as real;
  }

  lemma {:induction false} RealTimes(d: nat, r: int)
    ensures (d * r) as real == r as real * d as real
  {
    if d > 0 {
      RealTimes(d - 1, r);
      assert d * r == (d - 1) * r + r;
      assert r as real * d as real == r as real * (d - 1) as real + r as real;
    }
  }

  lemma Scaled(diff: real, a: real, b: real, d: real)
    requires diff == a - b
    ensures diff * d == a * d - b * d
  {
  }

  lemma RealGrows(a: real, b: real, d: real)
    requires a <= b && d >= 0.0
    ensures a * d <= b * d
  {
  }

  /** With more candidates than picks, floored products never repeat: rounding cannot make two picks
      the same. */
  lemma FlooredIncreases(i: nat, n: nat, m: nat, a: int, b: int)
    requires n >= 2 && m >= n && Floored(i, n, m, a) && Floored(i + 1, n, m, b)
    ensures a < b
  {
    assert (i + 1) * m == i * m + m;
    assert (n - 1) * (a + 1) == (n - 1) * a + (n - 1);
    if b <= a {
      GrowsRight(n - 1, b + 1, a + 1);
      assert false;
    }
  }

  /** Pick `i` of `n` out of `count` numbers. */
  function PickAt(product: Product, i: nat, n: nat, count: nat): int
    requires count >= 1
  {
    product(i, n, count - 1).Floor
  }

  lemma {:induction false} PicksIncrease(product: Product, n: nat, count: nat, i: nat, j: nat)
    requires 2 <= n < count && CloseEnough(product, n, count - 1) && i < j < n
    ensures PickAt(product, i, n, count) < PickAt(product, j, n, count)
    decreases j - i
  {
    if i + 1 < j {
      PicksIncrease(product, n, count, i, j - 1);
    }
    FlooredProduct(product, n, count - 1, j - 1);
    FlooredProduct(product, n, count - 1, j);
    FlooredIncreases(j - 1, n, count - 1, PickAt(product, j - 1, n, count), PickAt(product, j, n, count));
  }

  /** The picks run from the first number to the last. */
  lemma PicksSpanTheRange(product: Product, n: nat, count: nat, i: nat)
    requires 2 <= n < count && CloseEnough(product, n, count - 1) && i < n
    ensures PickAt(product, 0, n, count) == 0 && PickAt(product, n - 1, n, count) == count - 1
    ensures 0 <= PickAt(product, i, n, count) < count
  {
    if i > 0 {
      PicksIncrease(product, n, count, 0, i);
    }
    if i < n - 1 {
      PicksIncrease(product, n, count, i, n - 1);
    }
  }

  // ---- the two pickers -----------------------------------------------------------------------------

  predicate IsEligible(stamps: seq<int>, begin: int, end: int, margin: int, i: nat) {
    i < |stamps| && begin + margin <= stamps[i] <= end - margin
  }

  /** The eligible images among the first `n`, in order. */
  function Eligible(stamps: seq<int>, begin: int, end: int, margin: int, n: nat): (frames: seq<nat>)
    requires n <= |stamps|
    ensures Increasing(frames)
    ensures forall i: nat :: i in frames <==> i < n && IsEligible(stamps, begin, end, margin, i)
  {
    if n == 0 then []
    else
      var before := Eligible(stamps, begin, end, margin, n - 1);
      assert forall k | 0 <= k < |before| :: before[k] in before;
      if IsEligible(stamps, begin, end, margin, n - 1) then before + [n - 1] else before
  }

  method EligibleSampleIndices(stamps: seq<int>, begin: int, end: int, margin: int) returns (eligible: seq<nat>)
    ensures eligible == Eligible(stamps, begin, end, margin, |stamps|)
    ensures Increasing(eligible)
    ensures forall i: nat :: i in eligible <==> IsEligible(stamps, begin, end, margin, i)
  {
    eligible := [];
    for i := 0 to |stamps|
      invariant eligible == Eligible(stamps, begin, end, margin, i)
    {
      if stamps[i] >= begin + margin && stamps[i] <= end - margin {
        eligible := eligible + [i];
      }
    }
  }

  lemma {:induction false} AllBelow(s: seq<nat>, bound: nat)
    requires Increasing(s) && forall k | 0 <= k < |s| :: s[k] < bound
    ensures |s| <= bound
  {
    if s != [] {
      var front := s[..|s| - 1];
      AllBelow(front, s[|s| - 1]);
    }
  }

  /** Pick `k` of `n` taken evenly from a list: the entry at the `k`-th of `n - 1` equal steps through it,
      floored, or one before it where the step is whole. */
  ghost predicate TakenEvenly(from: seq<nat>, n: nat, picks: seq<nat>)
    requires n >= 2
  {
    && |picks| == n && from != []
    && forall k | 0 <= k < n :: TakenAtStep(from, n, k, picks[k])
  }

  ghost predicate TakenAtStep(from: seq<nat>, n: nat, k: nat, pick: nat)
    requires n >= 2 && from != []
  {
    exists r: nat :: r < |from| && Floored(k, n, |from| - 1, r) && pick == from[r]
  }

  /** At most `samples` eligible images, evenly spread: in order, no image twice, from the first eligible
      to the last. */
  method PickSampleIndices(stamps: seq<int>, begin: int, end: int, samples: nat, margin: int, product: Product)
    returns (picks: seq<nat>)
    requires samples >= 3 && forall m: nat | samples <= m < |stamps| :: CloseEnough(product, samples, m)
    ensures var eligible := Eligible(stamps, begin, end, margin, |stamps|);
            if |eligible| <= samples then picks == eligible else TakenEvenly(eligible, samples, picks)
    ensures Increasing(picks) && |picks| <= samples
    ensures forall i | i in picks :: IsEligible(stamps, begin, end, margin, i)
    ensures |picks| < samples ==> forall i: nat :: IsEligible(stamps, begin, end, margin, i) ==> i in picks
    ensures forall i: nat :: IsEligible(stamps, begin, end, margin, i) ==>
              picks != [] && picks[0] <= i <= picks[|picks| - 1]
  {
    var eligible := EligibleSampleIndices(stamps, begin, end, margin);
    assert forall k | 0 <= k < |eligible| :: eligible[k] in eligible;
    AllBelow(eligible, |stamps|);
    if |eligible| <= samples {
      return eligible;
    }
    picks := TakeSpread(eligible, samples, product);
  }

  /** Entries of a longer list evenly spread, its first and last among them. */
  method TakeSpread(eligible: seq<nat>, samples: nat, product: Product) returns (picks: seq<nat>)
    requires 2 <= samples < |eligible| && Increasing(eligible) && CloseEnough(product, samples, |eligible| - 1)
    ensures TakenEvenly(eligible, samples, picks) && Increasing(picks)
    ensures forall k | 0 <= k < samples :: picks[k] in eligible
    ensures picks[0] == eligible[0] && picks[samples - 1] == eligible[|eligible| - 1]
  {
    var count := |eligible|;
    picks := [];
    for i := 0 to samples
      invariant |picks| == i && Increasing(picks)
      invariant forall k | 0 <= k < i :: 0 <= PickAt(product, k, samples, count) < count
      invariant forall k | 0 <= k < i :: picks[k] == eligible[PickAt(product, k, samples, count)]
    {
      PicksSpanTheRange(product, samples, count, i);
      forall k | 0 <= k < i
        ensures picks[k] < eligible[PickAt(product, i, samples, count)]
      {
        PicksIncrease(product, samples, count, k, i);
      }
      picks := picks + [eligible[PickAt(product, i, samples, count)]];
    }
    PicksSpanTheRange(product, samples, count, 0);
    forall k | 0 <= k < samples
      ensures TakenAtStep(eligible, samples, k, picks[k])
    {
      FlooredProduct(product, samples, count - 1, k);
      var r: nat := PickAt(product, k, samples, count);
      assert Floored(k, samples, |eligible| - 1, r) && picks[k] == eligible[r];
    }
  }

  /** What an even pick of `n` numbers below `count` holds: all of them; the first; or number `k` at the
      `k`-th of `n - 1` equal steps from 0 to `count - 1`, floored, or one less where the step is whole. */
  predicate SpreadEvenly(count: nat, n: nat, out: seq<nat>) {
    && |out| == (if count <= n then count else n)
    && forall k | 0 <= k < |out| ::
         if count <= n then out[k] == k else if n == 1 then out[k] == 0 else Floored(k, n, count - 1, out[k])
  }

  /** `n` numbers evenly spread over those below `count`, or all of them; never one twice. */
  method EvenlySpaced(count: nat, n: nat, product: Product) returns (out: seq<nat>)
    requires 2 <= n < count ==> CloseEnough(product, n, count - 1)
    ensures SpreadEvenly(count, n, out)
    ensures Increasing(out) && forall k | 0 <= k < |out| :: out[k] < count
    ensures out != [] ==> out[0] == 0 && (n >= 2 ==> out[|out| - 1] == count - 1)
  {
    out := [];
    if count == 0 || n == 0 {
      return;
    }
    if count <= n {
      for i := 0 to count
        invariant |out| == i && forall k | 0 <= k < i :: out[k] == k
      {
        out := out + [i];
      }
      return;
    }
    out := SpreadOut(count, n, product);
  }

  /** The same for fewer picks than numbers; a pick equal to the last would be left out. */
  method SpreadOut(count: nat, n: nat, product: Product) returns (out: seq<nat>)
    requires 1 <= n < count && (n >= 2 ==> CloseEnough(product, n, count - 1))
    ensures SpreadEvenly(count, n, out)
    ensures Increasing(out) && |out| == n && forall k | 0 <= k < n :: out[k] < count
    ensures out[0] == 0 && (n >= 2 ==> out[n - 1] == count - 1)
  {
    out := [];
    var last := count;
    for i := 0 to n
      invariant |out| == i && last == if i == 0 then count else out[i - 1]
      invariant forall k | 0 <= k < i ::
                  out[k] == (if n == 1 then 0 else PickAt(product, k, n, count)) && out[k] < count
      invariant Increasing(out)
    {
      var idx := SpreadIndex(count, n, i, product, out);
      if idx != last {
        out, last := out + [idx], idx;
      }
    }
    if n > 1 {
      PicksSpanTheRange(product, n, count, n - 1);
      forall k | 0 <= k < n
        ensures Floored(k, n, count - 1, out[k])
      {
        FlooredProduct(product, n, count - 1, k);
      }
    }
  }

  method SpreadIndex(count: nat, n: nat, i: nat, product: Product, ghost out: seq<nat>) returns (idx: nat)
    requires 1 <= n < count && (n >= 2 ==> CloseEnough(product, n, count - 1)) && i < n && |out| == i
    requires forall k | 0 <= k < i :: out[k] == if n == 1 then 0 else PickAt(product, k, n, count)
    ensures idx == (if n == 1 then 0 else PickAt(product, i, n, count)) && idx < count
    ensures forall k | 0 <= k < i :: out[k] < idx
  {
    if n == 1 {
      return 0;
    }
    PicksSpanTheRange(product, n, count, i);
    forall k | 0 <= k < i
      ensures out[k] < PickAt(product, i, n, count)
    {
      PicksIncrease(product, n, count, k, i);
    }
    idx := PickAt(product, i, n, count);
  }

  // ---- one pass over the bag ----------------------------------------------------------------------

  /** The picks one pass can meet are the longest prefix that increases and lies in the stream. */
  predicate Meets(picks: seq<nat>, length: nat, k: nat) {
    && k <= |picks|
    && Increasing(picks[..k]) && (forall i | 0 <= i < k :: picks[i] < length)
    && (k < |picks| ==> picks[k] >= length || (k > 0 && picks[k] <= picks[k - 1]))
  }

  /** Read the stream once, taking message `picks[0]`, then `picks[1]` and so on.  The messages taken
      are those of the picks it meets, in pick order. */
  method ReadPicks<T>(picks: seq<nat>, stream: seq<T>) returns (picked: seq<T>)
    ensures Meets(picks, |stream|, |picked|)
    ensures forall k | 0 <= k < |picked| :: picked[k] == stream[picks[k]]
  {
    picked := [];
    var idx, pick := 0, 0;
    while pick < |picks| && idx < |stream|
      invariant idx <= |stream| && pick == |picked| <= |picks|
      invariant Increasing(picks[..pick]) && forall k | 0 <= k < pick :: picks[k] < idx && picked[k] == stream[picks[k]]
      invariant pick < |picks| && picks[pick] < idx ==> pick > 0 && picks[pick] <= picks[pick - 1]
      decreases |stream| - idx
    {
      if idx == picks[pick] {
        picked := picked + [stream[idx]];
        assert picks[..pick + 1] == picks[..pick] + [idx];
        pick := pick + 1;
      }
      idx := idx + 1;
    }
  }

  /** Every pick is met exactly when the picks increase and lie in the stream; a repeated one, and all
      after it, are lost. */
  lemma AllMetIffIncreasing(picks: seq<nat>, length: nat, k: nat)
    requires Meets(picks, length, k)
    ensures k == |picks| <==> Increasing(picks) && forall i | 0 <= i < |picks| :: picks[i] < length
  {
    if k == |picks| {
      assert picks[..k] == picks;
    }
  }

  /** Pick from the stamps of a first pass and read the picks in a second: every pick is met, once. */
  method PickAndRead<T>(stamps: seq<int>, begin: int, end: int, samples: nat, margin: int, product: Product,
                        stream: seq<T>)
    returns (picks: seq<nat>, picked: seq<T>)
    requires |stream| == |stamps|
    requires samples >= 3 && forall m: nat | samples <= m < |stamps| :: CloseEnough(product, samples, m)
    ensures |picked| == |picks| && Increasing(picks)
    ensures forall k | 0 <= k < |picks| ::
              IsEligible(stamps, begin, end, margin, picks[k]) && picked[k] == stream[picks[k]]
  {
    picks := PickSampleIndices(stamps, begin, end, samples, margin, product);
    assert forall k | 0 <= k < |picks| :: picks[k] in picks;
    picked := ReadPicks(picks, stream);
    AllMetIffIncreasing(picks, |stream|, |picked|);
  }
}
