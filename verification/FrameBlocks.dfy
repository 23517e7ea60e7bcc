/** The frames a long recording is matched on: evenly spread blocks of consecutive eligible frames. */
module FrameBlocks {
  import opened Wrappers
  import opened SamplePicks

  const MAX_FRAMES := 1200
  const BLOCK_FRAMES := 100
  const BLOCKS := 12

  /** Where block `b` starts among `count` eligible frames. */
  function BlockStart(count: nat, b: nat): nat
    requires count >= BLOCK_FRAMES
  {
    (b * (count - BLOCK_FRAMES)) / (BLOCKS - 1)
  }

  predicate InBlock(count: nat, b: nat, r: nat)
    requires count >= BLOCK_FRAMES
  {
    BlockStart(count, b) <= r < BlockStart(count, b) + BLOCK_FRAMES
  }

  /** With more than the maximum eligible the blocks are apart, the first at the first eligible frame and
      the last ending at the last. */
  lemma BlocksAreApart(count: nat, b: nat, c: nat)
    requires count > MAX_FRAMES && b < c < BLOCKS
    ensures BlockStart(count, b) + BLOCK_FRAMES <= BlockStart(count, c)
    ensures BlockStart(count, c) + BLOCK_FRAMES <= count
    ensures BlockStart(count, 0) == 0 && BlockStart(count, BLOCKS - 1) + BLOCK_FRAMES == count
  {
    var span := count - BLOCK_FRAMES;
    Apart(b, c, span);
    Apart(c, BLOCKS - 1, span);
  }

  lemma Apart(b: nat, c: nat, span: nat)
    requires b <= c < BLOCKS && span > MAX_FRAMES - BLOCK_FRAMES
    ensures b < c ==> (b * span) / 11 + BLOCK_FRAMES <= (c * span) / 11
    ensures (c * span) / 11 <= span
  {
    Multiple(b, c, span);
    Multiple(c, 11, span);
    ElevenParts(b * span, c * span, span);
  }

  lemma Multiple(b: nat, c: nat, span: nat)
    requires b <= c
    ensures b * span <= c * span && (b < c ==> b * span + span <= c * span)
  {
    assert c * span - b * span == (c - b) * span;
    if b < c {
      assert (c - b) * span == span + (c - b - 1) * span;
    }
  }

  lemma ElevenParts(p: nat, q: nat, span: nat)
    requires span > MAX_FRAMES - BLOCK_FRAMES && q <= 11 * span
    ensures p + span <= q ==> p / 11 + BLOCK_FRAMES <= q / 11
    ensures q / 11 <= span
  {
  }

  /** The mark an eligible frame gets by its rank among the eligible. */
  predicate MarkFits(count: nat, r: nat, mark: Option<nat>) {
    if count <= MAX_FRAMES then mark == Some(0)
    else match mark
      case None => forall b: nat | b < BLOCKS :: !InBlock(count, b, r)
      case Some(b) => b < BLOCKS && InBlock(count, b, r)
  }

  /** The mark of a rank once the first `b` blocks have been marked. */
  predicate MarkedSoFar(count: nat, b: nat, r: nat, mark: Option<nat>)
    requires count > MAX_FRAMES
  {
    match mark
    case None => forall c: nat | c < b :: !InBlock(count, c, r)
    case Some(c) => c < b && InBlock(count, c, r)
  }

  /** The `r`-th eligible frame is one of the hundred from the `b`-th of eleven equal steps on, floored. */
  ghost predicate LiesInEvenBlock(count: nat, b: nat, r: nat) {
    exists start: nat :: IsStep(count, b, start) && start <= r < start + 100
  }

  predicate IsStep(count: nat, b: nat, start: nat) {
    11 * start <= b * (count - 100) < 11 * (start + 1)
  }

  lemma BlocksAreEven(count: nat, b: nat, r: nat, mark: Option<nat>)
    requires count > MAX_FRAMES && b < BLOCKS && MarkFits(count, r, mark)
    ensures mark == Some(b) <==> LiesInEvenBlock(count, b, r)
  {
    assert IsStep(count, b, BlockStart(count, b));
    if InBlock(count, b, r) {
      EveryBlockIsMarked(count, b, r, mark);
    }
  }

  /** Mark each frame with its block.  A frame that is not eligible has none. */
  method SelectFrames(stamps: seq<int>, begin: int, end: int) returns (blockOf: array<Option<nat>>)
    ensures blockOf.Length == |stamps|
    ensures forall i: nat | i < |stamps| && !IsEligible(stamps, begin, end, 0, i) :: blockOf[i].None?
    ensures var eligible := Eligible(stamps, begin, end, 0, |stamps|);
            forall r | 0 <= r < |eligible| ::
              eligible[r] < |stamps| && MarkFits(|eligible|, r, blockOf[eligible[r]])
    ensures var eligible := Eligible(stamps, begin, end, 0, |stamps|);
            |eligible| > MAX_FRAMES ==>
              forall r, b: nat | 0 <= r < |eligible| && b < BLOCKS && eligible[r] < |stamps| ::
                blockOf[eligible[r]] == Some(b) <==> LiesInEvenBlock(|eligible|, b, r)
  {
    var chosen := EligibleSampleIndices(stamps, begin, end, 0);
    forall r | 0 <= r < |chosen|
      ensures chosen[r] < |stamps|
    {
      assert chosen[r] in chosen;
    }
    blockOf := new Option<nat>[|stamps|](_ => None);
    if |chosen| <= MAX_FRAMES {
      MarkAll(chosen, blockOf);
      return;
    }
    var count := |chosen|;
    for b := 0 to BLOCKS
      invariant forall i | 0 <= i < |stamps| && i !in chosen :: blockOf[i].None?
      invariant forall r | 0 <= r < count :: MarkedSoFar(count, b, r, blockOf[chosen[r]])
    {
      MarkBlock(chosen, b, blockOf);
    }
    forall r, b: nat | 0 <= r < count && b < BLOCKS
      ensures blockOf[chosen[r]] == Some(b) <==> LiesInEvenBlock(count, b, r)
    {
      BlocksAreEven(count, b, r, blockOf[chosen[r]]);
    }
  }

  method MarkAll(chosen: seq<nat>, blockOf: array<Option<nat>>)
    requires forall r | 0 <= r < |chosen| :: chosen[r] < blockOf.Length
    modifies blockOf
    ensures forall i | 0 <= i < blockOf.Length && i !in chosen :: blockOf[i] == old(blockOf[i])
    ensures forall r | 0 <= r < |chosen| :: blockOf[chosen[r]] == Some(0)
  {
    for r := 0 to |chosen|
      invariant forall i | 0 <= i < blockOf.Length && i !in chosen :: blockOf[i] == old(blockOf[i])
      invariant forall q | 0 <= q < r :: blockOf[chosen[q]] == Some(0)
    {
      blockOf[chosen[r]] := Some(0);
    }
  }

  /** Mark the frames of one block. */
  method MarkBlock(chosen: seq<nat>, b: nat, blockOf: array<Option<nat>>)
    requires Increasing(chosen) && |chosen| > MAX_FRAMES && b < BLOCKS
    requires forall r | 0 <= r < |chosen| :: chosen[r] < blockOf.Length
    requires forall r | 0 <= r < |chosen| :: MarkedSoFar(|chosen|, b, r, blockOf[chosen[r]])
    modifies blockOf
    ensures forall i | 0 <= i < blockOf.Length && i !in chosen :: blockOf[i] == old(blockOf[i])
    ensures forall r | 0 <= r < |chosen| :: MarkedSoFar(|chosen|, b + 1, r, blockOf[chosen[r]])
  {
    var count := |chosen|;
    var start := (b * (count - BLOCK_FRAMES)) / (BLOCKS - 1);
    Apart(b, b, count - BLOCK_FRAMES);
    for k := 0 to BLOCK_FRAMES
      invariant forall i | 0 <= i < blockOf.Length && i !in chosen :: blockOf[i] == old(blockOf[i])
      invariant forall r | 0 <= r < count ::
                  blockOf[chosen[r]] == if start <= r < start + k then Some(b) else old(blockOf[chosen[r]])
    {
      assert chosen[start + k] in chosen;
      blockOf[chosen[start + k]] := Some(b);
    }
    forall r | 0 <= r < count
      ensures MarkedSoFar(count, b + 1, r, blockOf[chosen[r]])
    {
      assert MarkedSoFar(count, b, r, old(blockOf[chosen[r]]));
    }
  }

  /** A frame is in one block at most, so every frame of every block carries that block's mark. */
  lemma EveryBlockIsMarked(count: nat, b: nat, r: nat, mark: Option<nat>)
    requires count > MAX_FRAMES && b < BLOCKS && InBlock(count, b, r) && MarkFits(count, r, mark)
    ensures mark == Some(b)
  {
    if mark.Some? {
      if mark.value < b {
        BlocksAreApart(count, mark.value, b);
      }
      if b < mark.value {
        BlocksAreApart(count, b, mark.value);
      }
    }
  }
}
