/** A cloud placed in chunks: every chunk works on its own stretch of the points and buckets its
    survivors by the partition they go to. */
module MapChunks {
  import opened Wrappers
  import opened VoxelMap
  import opened MapPartitions
  import opened Arithmetic

  const MIN_POINTS_PER_CHUNK := 4096

  /** How many can work at once: the caller alone when there is no pool. */
  type Workers = n: nat | n >= 1 witness 1

  /** One chunk's survivors, bucketed by partition, and its counts. */
  datatype Chunk = Chunk(buckets: seq<seq<Kept>>, tally: Tally)

  function EmptyChunk(partitions: nat): Chunk {
    Chunk(seq(partitions, _ => []), Tally(0, 0, 0))
  }

  /** Place one more point, given its fate. */
  function PlaceOne(g: Grid, chunk: Chunk, fate: Fate): (after: Chunk)
    ensures |after.buckets| == |chunk.buckets|
  {
    var tally := TallySum(chunk.tally, FateTally(fate));
    if !fate.Keep? || chunk.buckets == [] then chunk.(tally := tally)
    else
      var t := HomeOf(g, fate.kept, |chunk.buckets|);
      Chunk(chunk.buckets[t := chunk.buckets[t] + [fate.kept]], tally)
  }

  /** The chunk a stretch of points makes, point by point. */
  function PlacedChunk(g: Grid, fates: seq<Fate>, partitions: nat): (chunk: Chunk)
    ensures |chunk.buckets| == partitions
  {
    if fates == [] then EmptyChunk(partitions)
    else PlaceOne(g, PlacedChunk(g, fates[..|fates| - 1], partitions), fates[|fates| - 1])
  }

  lemma BucketOfSnoc(g: Grid, kept: seq<Kept>, last: Kept, partitions: nat, t: nat)
    requires partitions > 0
    ensures BucketOf(g, kept + [last], partitions, t) ==
            BucketOf(g, kept, partitions, t) + if HomeOf(g, last, partitions) == t then [last] else []
  {
    assert (kept + [last])[..|kept|] == kept;
  }

  /** Its buckets hold the stretch's kept points by partition, each in point order; its counts are the
      stretch's. */
  lemma {:induction false} PlacedBuckets(g: Grid, fates: seq<Fate>, partitions: nat, t: nat)
    requires t < partitions
    ensures PlacedChunk(g, fates, partitions).buckets[t] == BucketOf(g, KeptOf(fates), partitions, t)
    ensures PlacedChunk(g, fates, partitions).tally == TallyOf(fates)
  {
    if fates != [] {
      var front, last := fates[..|fates| - 1], fates[|fates| - 1];
      PlacedBuckets(g, front, partitions, t);
      assert fates == front + [last];
      if last.Keep? {
        BucketOfSnoc(g, KeptOf(front), last.kept, partitions, t);
      }
    }
  }

  function Min(a: nat, b: nat): nat {
    if a < b then a else b
  }

  /** At most one chunk per worker, and none smaller than the minimum unless there is only one. */
  function ChunkCount(n: nat, parallelism: Workers): (count: nat)
    ensures 1 <= count <= parallelism
    ensures count > 1 ==> n / count >= MIN_POINTS_PER_CHUNK
  {
    var wanted := n / MIN_POINTS_PER_CHUNK;
    if wanted < 1 then 1
    else
      var count := Min(wanted, parallelism);
      assert n / count >= MIN_POINTS_PER_CHUNK by {
        ManyPerChunk(n, count);
      }
      count
  }

  lemma ManyPerChunk(n: nat, count: nat)
    requires 1 <= count <= n / MIN_POINTS_PER_CHUNK
    ensures n / count >= MIN_POINTS_PER_CHUNK
  {
    var each := n / count;
    if each + 1 <= MIN_POINTS_PER_CHUNK {
      Grows(each + 1, MIN_POINTS_PER_CHUNK, count);
    }
  }

  function ChunkSize(n: nat, count: nat): nat
    requires count >= 1
  {
    (n + count - 1) / count
  }

  /** The stretches of the cloud the chunks work on. */
  function Stretches<T>(points: seq<T>, count: nat): (r: seq<seq<T>>)
    requires count >= 1
    ensures |r| == count
  {
    var n, size := |points|, ChunkSize(|points|, count);
    seq(count, c requires 0 <= c < count =>
      var begin: nat := Min(n, c * size);
      points[begin..Min(n, begin + size)])
  }

  function Joined<T>(stretches: seq<seq<T>>): seq<T> {
    if stretches == [] then [] else Joined(stretches[..|stretches| - 1]) + stretches[|stretches| - 1]
  }

  /** Where chunk `c` begins. */
  function ChunkFrom(n: nat, count: nat, c: nat): (begin: nat)
    requires count >= 1
    ensures begin <= n
  {
    Min(n, c * ChunkSize(n, count))
  }

  lemma {:induction false} FirstStretches(points: seq<Fate>, count: nat, c: nat)
    requires 1 <= count && c <= count
    ensures Joined(Stretches(points, count)[..c]) == points[..ChunkFrom(|points|, count, c)]
  {
    if c > 0 {
      FirstStretches(points, count, c - 1);
      var all := Stretches(points, count);
      assert all[..c][..c - 1] == all[..c - 1];
      StretchBetween(points, count, c - 1);
      ChunkEnds(c - 1, ChunkSize(|points|, count));
    }
  }

  lemma ChunkEnds(c: nat, size: nat)
    ensures c * size <= (c + 1) * size == c * size + size
  {
  }

  lemma StretchBetween(points: seq<Fate>, count: nat, c: nat)
    requires 1 <= count && c < count
    ensures ChunkFrom(|points|, count, c) <= ChunkFrom(|points|, count, c + 1)
    ensures Stretches(points, count)[c] == points[ChunkFrom(|points|, count, c)..ChunkFrom(|points|, count, c + 1)]
  {
    ChunkEnds(c, ChunkSize(|points|, count));
  }

  /** The chunks' stretches partition the cloud: joined in order they are the cloud. */
  lemma StretchesAreTheCloud(points: seq<Fate>, count: nat)
    requires count >= 1
    ensures Joined(Stretches(points, count)) == points
  {
    var n, size := |points|, ChunkSize(|points|, count);
    FirstStretches(points, count, count);
    assert Stretches(points, count)[..count] == Stretches(points, count);
    CeilCovers(n, count);
  }

  lemma CeilCovers(n: nat, count: nat)
    requires count >= 1
    ensures count * ChunkSize(n, count) >= n
  {
    var size := ChunkSize(n, count);
    assert n + count - 1 == size * count + (n + count - 1) % count;
  }

  /** The fates of a stretch are a stretch of the fates. */
  lemma FatesOfStretches(g: Grid, how: Placement, points: seq<RawPoint>, count: nat, c: nat)
    requires c < count
    ensures Stretches(FatesOf(g, how, points), count)[c] == FatesOf(g, how, Stretches(points, count)[c])
  {
  }

  /** What partition `t` is fed from the first `c` chunks. */
  function FedFrom(chunks: seq<Chunk>, c: nat, t: nat): seq<Kept>
    requires c <= |chunks| && forall i | 0 <= i < c :: t < |chunks[i].buckets|
  {
    if c == 0 then [] else FedFrom(chunks, c - 1, t) + chunks[c - 1].buckets[t]
  }

  /** The tallies of the first `c` chunks. */
  function TalliedFrom(chunks: seq<Chunk>, c: nat): Tally
    requires c <= |chunks|
  {
    if c == 0 then Tally(0, 0, 0) else TallySum(TalliedFrom(chunks, c - 1), chunks[c - 1].tally)
  }

  ghost predicate ChunksOf(g: Grid, stretches: seq<seq<Fate>>, chunks: seq<Chunk>, partitions: nat) {
    && |stretches| <= |chunks|
    && forall i | 0 <= i < |stretches| :: chunks[i] == PlacedChunk(g, stretches[i], partitions)
  }

  /** Chunk by chunk, a partition is fed its bucket of the whole cloud, and every point is counted
      once. */
  lemma {:induction false} ChunksMakeTheCloud(g: Grid, stretches: seq<seq<Fate>>, chunks: seq<Chunk>, partitions: nat,
                                              t: nat)
    requires t < partitions && ChunksOf(g, stretches, chunks, partitions)
    ensures FedFrom(chunks, |stretches|, t) == BucketOf(g, KeptOf(Joined(stretches)), partitions, t)
    ensures TalliedFrom(chunks, |stretches|) == TallyOf(Joined(stretches))
  {
    if stretches != [] {
      var front, last := stretches[..|stretches| - 1], stretches[|stretches| - 1];
      ChunksMakeTheCloud(g, front, chunks, partitions, t);
      PlacedBuckets(g, last, partitions, t);
      KeptOfConcat(Joined(front), last);
      TallyOfConcat(Joined(front), last);
      BucketOfConcat(g, KeptOf(Joined(front)), KeptOf(last), partitions, t);
    }
  }

  // ---- the buckets of a placed cloud ---------------------------------------------------------

  lemma {:induction false} BucketMembers(g: Grid, kept: seq<Kept>, partitions: nat, t: nat)
    requires partitions > 0
    ensures forall k | k in BucketOf(g, kept, partitions, t) :: k in kept && HomeOf(g, k, partitions) == t
  {
    if kept != [] {
      BucketMembers(g, kept[..|kept| - 1], partitions, t);
    }
  }

  /** The buckets of the first `count` chunks hold what belongs in them. */
  ghost predicate BucketsFit(g: Grid, chunks: seq<Chunk>, count: nat, partitions: nat) {
    && count <= |chunks| && partitions > 0
    && (forall c | 0 <= c < count :: |chunks[c].buckets| == partitions)
    && forall c, t, k | 0 <= c < count && 0 <= t < partitions && 0 <= k < |chunks[c].buckets[t]| ::
         && HomeOf(g, chunks[c].buckets[t][k], partitions) == t
         && (chunks[c].buckets[t][k].key.Some? <==> g.gridded)
  }

  lemma PlacedBucketsFit(g: Grid, how: Placement, stretches: seq<seq<RawPoint>>, fates: seq<seq<Fate>>,
                         chunks: seq<Chunk>, partitions: nat)
    requires partitions > 0 && |fates| == |stretches|
    requires forall c | 0 <= c < |fates| :: fates[c] == FatesOf(g, how, stretches[c])
    requires ChunksOf(g, fates, chunks, partitions)
    ensures BucketsFit(g, chunks, |fates|, partitions)
  {
    forall c, t, k | 0 <= c < |fates| && 0 <= t < partitions && 0 <= k < |chunks[c].buckets[t]|
      ensures HomeOf(g, chunks[c].buckets[t][k], partitions) == t
      ensures chunks[c].buckets[t][k].key.Some? <==> g.gridded
    {
      PlacedBuckets(g, fates[c], partitions, t);
      BucketMembers(g, KeptOf(fates[c]), partitions, t);
      KeptFitGrid(g, how, stretches[c]);
      assert chunks[c].buckets[t][k] in BucketOf(g, KeptOf(fates[c]), partitions, t);
    }
  }

  /** Placing a cloud in chunks and feeding every partition from them is adding the cloud's points
      one by one. */
  lemma ChunkedCloudIsSerial(g: Grid, how: Placement, points: seq<RawPoint>, count: nat, chunks: seq<Chunk>,
                             before: seq<MapState>, after: seq<MapState>, m: MapState)
    requires count >= 1 && Splits(g, before, m) && |after| == |before|
    requires !g.gridded ==> |before| == 1
    requires ChunksOf(g, Stretches(FatesOf(g, how, points), count), chunks, |before|)
    requires forall t | 0 <= t < |before| :: after[t] == AddAllKept(g, before[t], FedFrom(chunks, count, t))
    ensures Splits(g, after, SerialPoints(g, how, (m, Tally(0, 0, 0)), points).0)
    ensures TalliedFrom(chunks, count) == SerialPoints(g, how, (m, Tally(0, 0, 0)), points).1
  {
    var fates := FatesOf(g, how, points);
    StretchesAreTheCloud(fates, count);
    forall t | 0 <= t < |before|
      ensures FedFrom(chunks, count, t) == BucketOf(g, KeptOf(fates), |before|, t)
      ensures TalliedFrom(chunks, count) == TallyOf(fates)
    {
      ChunksMakeTheCloud(g, Stretches(fates, count), chunks, |before|, t);
    }
    assert after == FeedAll(g, before, KeptOf(fates));
    KeptFitGrid(g, how, points);
    FeedingPartitionsIsSerial(g, before, m, KeptOf(fates));
    SerialAddsTheKept(g, how, m, Tally(0, 0, 0), points);
    assert TalliedFrom(chunks, count) == TallyOf(fates);
  }
}
