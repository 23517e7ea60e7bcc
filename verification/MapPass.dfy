/** The whole accumulation pass over a bag's clouds, and the map it finishes with. */
module MapPass {
  import opened Wrappers
  import opened VoxelMap
  import opened MapChunks
  import opened MapThreads
  import opened MapDrain
  import opened Sorting
  import opened RangeNumbers
  import opened MapLaw
  import ParallelSort

  /** The points of one cloud enter the map: placed in chunks, then inserted partition by partition. */
  method AddPoints(map_: MapAccumulator, ctx: MapAccumulationContext, how: Placement, points: seq<RawPoint>,
                   stats: Stats, ghost m: MapState) returns (after: Stats)
    requires map_.Holds(m)
    modifies map_, ctx
    ensures map_.Holds(SerialPoints(map_.g, how, (m, Tally(0, 0, 0)), points).0)
    ensures after == WithTally(stats, SerialPoints(map_.g, how, (m, Tally(0, 0, 0)), points).1)
  {
    var g, partitions, count := map_.g, |map_.voxels|, ChunkCount(|points|, ctx.parallelism);
    ghost var before := map_.Parts();
    ctx.PlaceChunks(g, how, points, count, partitions);
    ghost var fates := Stretches(FatesOf(g, how, points), count);
    forall c | 0 <= c < count
      ensures fates[c] == FatesOf(g, how, Stretches(points, count)[c])
    {
      FatesOfStretches(g, how, points, count, c);
    }
    PlacedBucketsFit(g, how, Stretches(points, count), fates, ctx.chunks, partitions);
    after := CountChunks(ctx.chunks, count, stats);
    ctx.InsertPartitions(map_, count);
    ChunkedCloudIsSerial(g, how, points, count, ctx.chunks, before, map_.Parts(), m);
  }

  method CountChunks(chunks: seq<Chunk>, count: nat, stats: Stats) returns (after: Stats)
    requires count <= |chunks|
    ensures after == WithTally(stats, TalliedFrom(chunks, count))
  {
    after := stats;
    var c := 0;
    while c < count
      invariant c <= count
      invariant after == WithTally(stats, TalliedFrom(chunks, c))
    {
      var tally := chunks[c].tally;
      after := after.(nonfinite := after.nonfinite + tally.nonfinite);
      after := after.(culled := after.culled + tally.culled);
      after := after.(added := after.added + tally.added);
      c := c + 1;
    }
  }

  /** Add one cloud.  On any error the map is the very map it was. */
  method AccumulateCloud(map_: MapAccumulator, ctx: MapAccumulationContext, c: Cloud, stats: Stats, ghost m: MapState)
    returns (error: Option<CloudError>, after: Stats)
    requires map_.Holds(m)
    modifies map_, ctx
    ensures error == SerialCloud(map_.g, PassState(m, stats, None), c).error
    ensures after == SerialCloud(map_.g, PassState(m, stats, None), c).stats
    ensures map_.Holds(SerialCloud(map_.g, PassState(m, stats, None), c).m)
    ensures error.Some? ==> map_.voxels == old(map_.voxels) && map_.raw == old(map_.raw)
  {
    after := stats.(cloudsRead := stats.cloudsRead + 1);
    if c.bigEndian {
      return Some(BigEndian), after;
    }
    if !c.hasXyz {
      return Some(NoXyz), after;
    }
    if !c.hasIntensity {
      return Some(NoIntensity), after;
    }
    if !c.dataComplete {
      return Some(DataTooShort), after;
    }
    if !c.inSpan {
      after := after.(skippedOutOfSpan := after.skippedOutOfSpan + 1);
      return None, after;
    }
    if !c.extrinsicOk {
      return Some(BadExtrinsic), after;
    }
    var points := c.points;
    match c.deskew {
      case NotNeeded =>
      case DeskewFailed =>
        return Some(CannotDeskew), after;
      case Deskewed(moved, clamped) =>
        points := moved;
        after := after.(deskewed := after.deskewed + 1, clamped := after.clamped + clamped);
    }
    after := AddPoints(map_, ctx, c.how, points, after, m);
    error := None;
  }

  // ---- finishing --------------------------------------------------------------------------------

  const EMIT_CHUNK := 65536

  function NumbersBelow(n: nat): (r: set<nat>)
    ensures forall i: nat :: i in r <==> i < n
  {
    if n == 0 then {} else NumbersBelow(n - 1) + {n - 1}
  }

  predicate Emitted(g: Grid, e: Entry, point: Point, intensity: Bits) {
    Emit(g, e) == Sample(point, intensity)
  }

  /** Emit one chunk of the sorted entries. */
  method EmitChunk(g: Grid, ordered: seq<Entry>, c: nat, points: array<Point>, intensities: array<Bits>)
    requires points.Length == intensities.Length == |ordered|
    modifies points, intensities
    ensures forall i | 0 <= i < |ordered| && i / EMIT_CHUNK == c :: Emitted(g, ordered[i], points[i], intensities[i])
    ensures forall i | 0 <= i < |ordered| && i / EMIT_CHUNK != c ::
              points[i] == old(points[i]) && intensities[i] == old(intensities[i])
  {
    var total := |ordered|;
    var begin := c * EMIT_CHUNK;
    var end := Min(total, begin + EMIT_CHUNK);
    var i := begin;
    while i < end
      invariant begin <= i && (begin <= end ==> i <= end)
      invariant forall j | begin <= j < i && j < total :: Emitted(g, ordered[j], points[j], intensities[j])
      invariant forall j | 0 <= j < total && !(begin <= j < i) ::
                  points[j] == old(points[j]) && intensities[j] == old(intensities[j])
    {
      var accum := ordered[i].accum;
      var n := accum.count;
      points[i] := Point(g.mean(accum.x, n), g.mean(accum.y, n), g.mean(accum.z, n));
      intensities[i] := g.mean(accum.intensity, n);
      i := i + 1;
    }
    forall j | 0 <= j < total
      ensures j / EMIT_CHUNK == c <==> begin <= j < begin + EMIT_CHUNK
    {
    }
  }

  /** Emit every chunk, any chunk next. */
  method EmitAll(g: Grid, ordered: seq<Entry>) returns (cloud: PcdCloud)
    ensures |cloud.points| == |cloud.intensities| == |ordered|
    ensures forall i | 0 <= i < |ordered| :: Emitted(g, ordered[i], cloud.points[i], cloud.intensities[i])
  {
    var total := |ordered|;
    var points := new Point[total](_ => Point(0, 0, 0));
    var intensities := new Bits[total](_ => 0);
    var chunks := (total + EMIT_CHUNK - 1) / EMIT_CHUNK;
    var waiting := NumbersBelow(chunks);
    while waiting != {}
      invariant fresh(points) && fresh(intensities) && points.Length == intensities.Length == total
      invariant forall i | 0 <= i < total && i / EMIT_CHUNK !in waiting ::
                  Emitted(g, ordered[i], points[i], intensities[i])
      decreases |waiting|
    {
      var c :| c in waiting;
      EmitChunk(g, ordered, c, points, intensities);
      waiting := waiting - {c};
    }
    cloud := PcdCloud(points[..], intensities[..]);
  }

  function PointsIn(samples: seq<Sample>): (points: seq<Point>)
    ensures |points| == |samples| && forall i | 0 <= i < |samples| :: points[i] == samples[i].point
  {
    seq(|samples|, i requires 0 <= i < |samples| => samples[i].point)
  }

  function IntensitiesIn(samples: seq<Sample>): (intensities: seq<Bits>)
    ensures |intensities| == |samples| && forall i | 0 <= i < |samples| :: intensities[i] == samples[i].intensity
  {
    if samples == [] then []
    else IntensitiesIn(samples[..|samples| - 1]) + [samples[|samples| - 1].intensity]
  }

  /** Hand the map over and leave nothing behind.  Every voxel is handed over once; they are in order exactly
      when the sort's range numbers suffice for the voxels and the workers. */
  method Finish(map_: MapAccumulator, workers: nat, ghost m: MapState) returns (cloud: PcdCloud)
    requires map_.Holds(m)
    modifies map_
    ensures FinishesIn(map_.g, m, cloud, RangesSuffice(workers, |m.voxels|))
    ensures if map_.g.gridded then forall p | 0 <= p < |map_.voxels| :: map_.voxels[p] == map[] else map_.raw == []
  {
    var g := map_.g;
    if !g.gridded {
      cloud := PcdCloud(PointsIn(map_.raw), IntensitiesIn(map_.raw));
      map_.raw := [];
      return;
    }
    ghost var parts := map_.Parts();
    ghost var voxels := map_.voxels;
    var ordered := DrainPartitions(map_);
    DrainedIsTheMap(g, parts, m, voxels, ordered[..]);
    var sorted := SortVoxels(ordered[..], m.voxels, workers);
    cloud := EmitAll(g, sorted);
    assert Shows(g, sorted, cloud);
  }

  method SortVoxels(ordered: seq<Entry>, ghost voxels: map<Key, VoxelAccum>, workers: nat) returns (sorted: seq<Entry>)
    requires Lists(ordered, voxels)
    ensures Lists(sorted, voxels) && (SortedByKey(sorted) <==> RangesSuffice(workers, |voxels|))
  {
    sorted := ParallelSort.SortEntries(ordered, workers);
    ReorderedStillLists(ordered, sorted, voxels);
    OnlySortedByKey(ordered, sorted);
  }

  lemma OnlySortedByKey(entries: seq<Entry>, other: seq<Entry>)
    requires DistinctKeys(entries) && multiset(other) == multiset(entries)
    ensures SortedByKey(other) <==> other == Sorted(entries)
  {
    SortedIsSorted(entries);
    if SortedByKey(other) {
      OneSort(entries, other);
    }
  }

  // ---- the pass ---------------------------------------------------------------------------------

  /** Once a cloud has failed the pass is over. */
  lemma {:induction false} FailureEndsThePass(g: Grid, clouds: seq<Cloud>, k: nat)
    requires k <= |clouds| && SerialClouds(g, clouds[..k]).error.Some?
    ensures SerialClouds(g, clouds) == SerialClouds(g, clouds[..k])
  {
    if k < |clouds| {
      var front := clouds[..|clouds| - 1];
      assert front[..k] == clouds[..k];
      FailureEndsThePass(g, front, k);
    } else {
      assert clouds[..k] == clouds;
    }
  }

  /** The sort has range numbers enough for the map that is to come out, or the grid is off. */
  predicate EnoughNumbers(g: Grid, clouds: seq<Cloud>, parallelism: nat) {
    !g.gridded || RangesSuffice(parallelism, |SerialClouds(g, clouds).m.voxels|)
  }

  /** The clouds of a bag enter the map, up to the first that fails. */
  method AccumulateAll(map_: MapAccumulator, ctx: MapAccumulationContext, clouds: seq<Cloud>)
    returns (error: Option<CloudError>, stats: Stats)
    requires map_.Holds(EMPTY_MAP)
    modifies map_, ctx
    ensures var serial := SerialClouds(map_.g, clouds);
            error == serial.error && stats == serial.stats && (error.None? ==> map_.Holds(serial.m))
  {
    ghost var g := map_.g;
    stats := ZERO_STATS;
    var i := 0;
    while i < |clouds|
      invariant i <= |clouds| && map_.g == g
      invariant SerialClouds(g, clouds[..i]).error.None? && stats == SerialClouds(g, clouds[..i]).stats
      invariant map_.Holds(SerialClouds(g, clouds[..i]).m)
    {
      assert clouds[..i + 1][..i] == clouds[..i];
      ghost var before := SerialClouds(g, clouds[..i]);
      assert before == PassState(before.m, stats, None);
      assert SerialClouds(g, clouds[..i + 1]) == SerialCloud(g, before, clouds[i]);
      error, stats := AccumulateCloud(map_, ctx, clouds[i], stats, before.m);
      if error.Some? {
        FailureEndsThePass(g, clouds, i + 1);
        return;
      }
      i := i + 1;
    }
    assert clouds[..i] == clouds;
    error := None;
  }

  /** Build the map of a whole bag.  Neither the pool's size, nor the number of partitions, nor the
      order its workers happen to run in can be seen in the result, except that a pool too large for the
      range numbers, and no other, leaves the voxels out of order.  Every voxel's point is the mean of the
      points that land in it, summed as they arrive. */
  method BuildMap(g: Grid, clouds: seq<Cloud>, parallelism: nat, partitions: int)
    returns (error: Option<CloudError>, stats: Stats, cloud: PcdCloud)
    ensures error == SerialClouds(g, clouds).error && stats == SerialClouds(g, clouds).stats
    ensures error.None? ==> FinishesIn(g, SerialClouds(g, clouds).m, cloud, EnoughNumbers(g, clouds, parallelism))
    ensures ErrorMeets(clouds, error)
    ensures error.None? ==> CloudMeets(g, Offered(clouds), cloud, parallelism) && StatsMeet(g, clouds, stats)
  {
    var map_ := new MapAccumulator(g, partitions);
    var ctx := new MapAccumulationContext(parallelism);
    error, stats := AccumulateAll(map_, ctx, clouds);
    SerialCloudsMeet(g, clouds);
    cloud := PcdCloud([], []);
    if error.None? {
      cloud := Finish(map_, parallelism, SerialClouds(g, clouds).m);
      FinishedMeets(g, clouds, SerialClouds(g, clouds).m, cloud, parallelism);
    }
  }

  /** Two passes over the same clouds give the same map. */
  method BuildTwice(g: Grid, clouds: seq<Cloud>, parallelism: nat, partitions: int, parallelism': nat, partitions': int)
    returns (a: PcdCloud, b: PcdCloud)
    ensures (&& SerialClouds(g, clouds).error.None?
             && EnoughNumbers(g, clouds, parallelism)
             && EnoughNumbers(g, clouds, parallelism')) ==> a == b
  {
    var e, s, e', s';
    e, s, a := BuildMap(g, clouds, parallelism, partitions);
    e', s', b := BuildMap(g, clouds, parallelism', partitions');
    if e.None? && EnoughNumbers(g, clouds, parallelism) && EnoughNumbers(g, clouds, parallelism') {
      FinishedIsUnique(g, SerialClouds(g, clouds).m, a, b);
    }
  }
}
