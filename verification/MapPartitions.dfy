/** The calibration map split into partitions: every voxel lives in the partition its key hashes to, and
    feeding every partition its own points is feeding the map. */
module MapPartitions {
  import opened Wrappers
  import opened VoxelMap

  function PartitionOf(g: Grid, key: Key, partitions: nat): (t: nat)
    requires partitions > 0
    ensures t < partitions
  {
    g.hash(key) % partitions
  }

  /** The partition a kept point goes to; with the grid off there is only one. */
  function HomeOf(g: Grid, kept: Kept, partitions: nat): (t: nat)
    requires partitions > 0
    ensures t < partitions
  {
    match kept.key
    case None => 0
    case Some(key) => PartitionOf(g, key, partitions)
  }

  /** `parts` are the partitions of the map `m`: every voxel lives in the partition of its key. */
  ghost predicate Splits(g: Grid, parts: seq<MapState>, m: MapState) {
    && |parts| > 0
    && (forall t, key | 0 <= t < |parts| && key in parts[t].voxels :: PartitionOf(g, key, |parts|) == t)
    && (forall key :: key in m.voxels <==> key in parts[PartitionOf(g, key, |parts|)].voxels)
    && (forall key | key in m.voxels :: m.voxels[key] == parts[PartitionOf(g, key, |parts|)].voxels[key])
    && m.raw == parts[0].raw
  }

  /** The kept points of one partition, in order. */
  function BucketOf(g: Grid, kept: seq<Kept>, partitions: nat, t: nat): seq<Kept>
    requires partitions > 0
  {
    if kept == [] then []
    else
      var before := BucketOf(g, kept[..|kept| - 1], partitions, t);
      if HomeOf(g, kept[|kept| - 1], partitions) == t then before + [kept[|kept| - 1]] else before
  }

  lemma {:induction false} BucketOfConcat(g: Grid, a: seq<Kept>, b: seq<Kept>, partitions: nat, t: nat)
    requires partitions > 0
    ensures BucketOf(g, a + b, partitions, t) == BucketOf(g, a, partitions, t) + BucketOf(g, b, partitions, t)
  {
    if b == [] {
      assert a + b == a;
    } else {
      var front := b[..|b| - 1];
      assert (a + b)[..|a + b| - 1] == a + front;
      BucketOfConcat(g, a, front, partitions, t);
    }
  }

  /** Adding a point in its home partition is adding it to the map. */
  lemma AddAtHome(g: Grid, parts: seq<MapState>, m: MapState, kept: Kept)
    requires Splits(g, parts, m)
    requires kept.key.None? ==> |parts| == 1
    ensures var t := HomeOf(g, kept, |parts|);
            Splits(g, parts[t := AddKept(g, parts[t], kept)], AddKept(g, m, kept))
  {
  }

  /** Every partition with its own bucket added. */
  ghost function FeedAll(g: Grid, parts: seq<MapState>, kept: seq<Kept>): (r: seq<MapState>)
    requires |parts| > 0
    ensures |r| == |parts|
    ensures forall t | 0 <= t < |parts| :: r[t] == AddAllKept(g, parts[t], BucketOf(g, kept, |parts|, t))
  {
    seq(|parts|, t requires 0 <= t < |parts| => AddAllKept(g, parts[t], BucketOf(g, kept, |parts|, t)))
  }

  /** A voxel receives its points in the order a single loop would have fed it, so feeding every
      partition its own bucket splits the map the single loop builds. */
  lemma {:induction false} FeedingPartitionsIsSerial(g: Grid, parts: seq<MapState>, m: MapState, kept: seq<Kept>)
    requires Splits(g, parts, m)
    requires forall k | k in kept :: k.key.Some? <==> g.gridded
    requires !g.gridded ==> |parts| == 1
    ensures Splits(g, FeedAll(g, parts, kept), AddAllKept(g, m, kept))
  {
    if kept == [] {
      assert FeedAll(g, parts, kept) == parts;
    } else {
      var front, last := kept[..|kept| - 1], kept[|kept| - 1];
      FeedingPartitionsIsSerial(g, parts, m, front);
      var fed, t := FeedAll(g, parts, front), HomeOf(g, last, |parts|);
      AddAtHome(g, fed, AddAllKept(g, m, front), last);
      var bucket := BucketOf(g, kept, |parts|, t);
      assert bucket[..|bucket| - 1] == BucketOf(g, front, |parts|, t);
      assert FeedAll(g, parts, kept) == fed[t := AddKept(g, fed[t], last)];
    }
  }
}
