/** The map accumulator and its context as objects.  The pool's loops are executed one elementary action
    at a time, each action by any worker that has one left, so the results hold of every interleaving. */
module MapThreads {
  import opened Wrappers
  import opened VoxelMap
  import opened MapPartitions
  import opened MapChunks
  import opened Progress

  /** The map under construction: one hash map per partition, or the bare points with the grid off. */
  class MapAccumulator {
    const g: Grid
    var voxels: seq<map<Key, VoxelAccum>>
    var raw: seq<Sample>

    ghost function Parts(): (parts: seq<MapState>)
      reads this
      ensures |parts| == |voxels|
    {
      PartsOf(voxels, raw)
    }

    /** Partition 0 also stands for the ungridded points. */
    static ghost function PartsOf(voxels: seq<map<Key, VoxelAccum>>, raw: seq<Sample>): (parts: seq<MapState>)
      ensures |parts| == |voxels|
      ensures forall t | 0 <= t < |parts| :: parts[t] == MapState(voxels[t], if t == 0 then raw else [])
    {
      seq(|voxels|, t requires 0 <= t < |voxels| => MapState(voxels[t], if t == 0 then raw else []))
    }

    ghost predicate Holds(m: MapState)
      reads this
    {
      Splits(g, Parts(), m) && (!g.gridded ==> |voxels| == 1)
    }

    constructor (g: Grid, partitions: int)
      ensures this.g == g && Holds(EMPTY_MAP)
      ensures |voxels| == if g.gridded && partitions > 1 then partitions else 1
    {
      this.g := g;
      voxels := seq(if g.gridded && partitions > 1 then partitions else 1, _ => map[]);
      raw := [];
    }

    /** Feed a voxel of one partition; other partitions are not touched. */
    method AddToVoxel(partition: nat, key: Key, s: Sample)
      requires partition < |voxels| && partition == PartitionOf(g, key, |voxels|)
      modifies this`voxels
      ensures voxels == old(voxels)[partition := VoxelMap.AddToVoxel(g, old(voxels[partition]), key, s)]
      ensures var before := AccumOf(old(voxels[partition]), key);
              voxels[partition] ==
              old(voxels[partition])[key := VoxelAccum(g.add(before.x, s.point.x), g.add(before.y, s.point.y),
                                                       g.add(before.z, s.point.z),
                                                       g.add(before.intensity, s.intensity), before.count + 1)]
    {
      var accum := AccumOf(voxels[partition], key);
      accum := accum.(x := g.add(accum.x, s.point.x));
      accum := accum.(y := g.add(accum.y, s.point.y));
      accum := accum.(z := g.add(accum.z, s.point.z));
      accum := accum.(intensity := g.add(accum.intensity, s.intensity));
      accum := accum.(count := accum.count + 1);
      voxels := voxels[partition := voxels[partition][key := accum]];
    }

    /** Add one point; false when no voxel index can hold it. */
    method Add(s: Sample, ghost m: MapState) returns (ok: bool)
      requires Holds(m)
      modifies this
      ensures ok <==> !g.gridded || g.voxelOf(s.point).Some?
      ensures ok == AddSample(g, m, s).Some?
      ensures Holds(if ok then AddSample(g, m, s).value else m)
      ensures !g.gridded ==> voxels == old(voxels) && raw == old(raw) + [s]
      ensures g.gridded && ok ==>
                var key := g.voxelOf(s.point).value;
                var home := PartitionOf(g, key, |old(voxels)|);
                var before := AccumOf(old(voxels[home]), key);
                voxels == old(voxels)[home := old(voxels[home])[key :=
                            VoxelAccum(g.add(before.x, s.point.x), g.add(before.y, s.point.y),
                                       g.add(before.z, s.point.z), g.add(before.intensity, s.intensity),
                                       before.count + 1)]]
    {
      if !g.gridded {
        raw := raw + [s];
        return true;
      }
      var key := g.voxelOf(s.point);
      if key.None? {
        return false;
      }
      AddAtHome(g, Parts(), m, Kept(key, s));
      AddToVoxel(PartitionOf(g, key.value, |voxels|), key.value, s);
      assert Parts() == old(Parts())[PartitionOf(g, key.value, |voxels|) :=
          AddKept(g, old(Parts())[PartitionOf(g, key.value, |voxels|)], Kept(key, s))];
      return true;
    }

    /** The bucket entry `kept` goes into partition `t`, as the insertion loop does it. */
    method Insert(t: nat, kept: Kept)
      requires t < |voxels| && t == HomeOf(g, kept, |voxels|)
      requires kept.key.Some? <==> g.gridded
      modifies this
      ensures |voxels| == old(|voxels|)
      ensures Parts() == old(Parts())[t := AddKept(g, old(Parts()[t]), kept)]
    {
      match kept.key
      case Some(key) => AddToVoxel(t, key, kept.sample);
      case None => raw := raw + [kept.sample];
    }
  }

  /** What the accumulation pass keeps from cloud to cloud: the pool's parallelism and the chunk
      buffers, which are reused and may hold anything left from an earlier cloud. */
  class MapAccumulationContext {
    const parallelism: Workers
    var chunks: seq<Chunk>

    constructor (parallelism: nat)
      ensures this.parallelism == if parallelism < 1 then 1 else parallelism
      ensures chunks == []
    {
      this.parallelism := if parallelism < 1 then 1 else parallelism;
      chunks := [];
    }

    /** Place the first `count` chunks of a cloud.  Whatever the buffers held before, each chunk ends
        up with the survivors of its own stretch. */
    method PlaceChunks(g: Grid, how: Placement, points: seq<RawPoint>, count: nat, partitions: nat)
      requires count >= 1
      modifies this
      ensures ChunksOf(g, Stretches(FatesOf(g, how, points), count), chunks, partitions)
    {
      if |chunks| < count {
        chunks := chunks + seq(count - |chunks|, _ => EmptyChunk(0));
      }
      var stretches := Stretches(points, count);
      ghost var fates := Stretches(FatesOf(g, how, points), count);
      forall c | 0 <= c < count
        ensures fates[c] == FatesOf(g, how, stretches[c])
      {
        FatesOfStretches(g, how, points, count, c);
      }
      // Per chunk: not started yet, or the next point to place.
      var next: seq<Option<nat>> := seq(count, _ => None);
      while exists c :: 0 <= c < count && !Placed(stretches[c], next[c])
        invariant count <= |chunks| && |next| == count
        invariant AllPlacing(g, fates, next, chunks, partitions)
        decreases TotalLeft(fates, next)
      {
        chunks, next := PlaceAny(g, how, stretches, fates, next, chunks, partitions);
      }
      AllPlaced(g, fates, next, chunks, partitions);
    }

    /** Feed every partition of the map from the first `count` chunks, partitions advancing
        independently. */
    method InsertPartitions(map_: MapAccumulator, count: nat)
      requires BucketsFit(map_.g, chunks, count, |map_.voxels|)
      modifies map_
      ensures |map_.voxels| == old(|map_.voxels|)
      ensures forall t | 0 <= t < |map_.voxels| ::
                map_.Parts()[t] == AddAllKept(map_.g, old(map_.Parts()[t]), FedFrom(chunks, count, t))
    {
      var partitions := |map_.voxels|;
      ghost var before := map_.Parts();
      // Per partition: the chunk it is in, and the next entry of its bucket there.
      var at: seq<(nat, nat)> := seq(partitions, _ => (0, 0));
      while exists t :: 0 <= t < partitions && at[t].0 < count
        invariant |map_.voxels| == |at| == partitions
        invariant AllFeeding(map_.g, before, map_.Parts(), chunks, count, at)
        decreases TotalLeftIn(chunks[..count], at)
      {
        at := InsertAny(map_, before, chunks, count, at);
      }
      AllFed(map_.g, before, map_.Parts(), chunks, count, at);
    }
  }

  // ---- placing, one action at a time ---------------------------------------------------------

  predicate Placed<T>(stretch: seq<T>, next: Option<nat>) {
    next.Some? && next.value >= |stretch|
  }

  /** A chunk that has started holds the survivors of the points placed so far. */
  ghost predicate Placing(g: Grid, stretch: seq<Fate>, next: Option<nat>, chunk: Chunk, partitions: nat) {
    next.Some? ==> next.value <= |stretch| && chunk == PlacedChunk(g, stretch[..next.value], partitions)
  }

  ghost function StepsLeft(stretch: seq<Fate>, next: Option<nat>): nat {
    if next.None? then |stretch| + 1 else if next.value <= |stretch| then |stretch| - next.value else 0
  }

  ghost predicate AllPlacing(g: Grid, fates: seq<seq<Fate>>, next: seq<Option<nat>>, chunks: seq<Chunk>,
                             partitions: nat)
    requires |next| == |fates| <= |chunks|
  {
    forall c | 0 <= c < |fates| :: Placing(g, fates[c], next[c], chunks[c], partitions)
  }

  ghost function TotalLeft(fates: seq<seq<Fate>>, next: seq<Option<nat>>): nat
    requires |next| == |fates|
  {
    Total<nat>(seq(|fates|, c requires 0 <= c < |fates| => StepsLeft(fates[c], next[c])), Itself)
  }

  lemma TotalLeftUpdate(fates: seq<seq<Fate>>, next: seq<Option<nat>>, c: nat, after: Option<nat>)
    requires c < |fates| == |next|
    requires StepsLeft(fates[c], after) < StepsLeft(fates[c], next[c])
    ensures TotalLeft(fates, next[c := after]) < TotalLeft(fates, next)
  {
    var left := seq(|fates|, i requires 0 <= i < |fates| => StepsLeft(fates[i], next[i]));
    var left' := seq(|fates|, i requires 0 <= i < |fates| => StepsLeft(fates[i], next[c := after][i]));
    assert left' == left[c := StepsLeft(fates[c], after)];
    TotalUpdate<nat>(left, c, StepsLeft(fates[c], after), Itself);
  }

  lemma AllPlaced(g: Grid, fates: seq<seq<Fate>>, next: seq<Option<nat>>, chunks: seq<Chunk>, partitions: nat)
    requires |next| == |fates| <= |chunks|
    requires AllPlacing(g, fates, next, chunks, partitions)
    requires forall c | 0 <= c < |fates| :: Placed(fates[c], next[c])
    ensures ChunksOf(g, fates, chunks, partitions)
  {
    forall c | 0 <= c < |fates|
      ensures chunks[c] == PlacedChunk(g, fates[c], partitions)
    {
      assert fates[c][..|fates[c]|] == fates[c];
    }
  }

  /** Start a chunk by emptying its buffers, or place its next point. */
  method PlaceStep(g: Grid, how: Placement, stretch: seq<RawPoint>, next: Option<nat>, chunk: Chunk, partitions: nat)
    returns (chunk': Chunk, next': Option<nat>)
    requires Placing(g, FatesOf(g, how, stretch), next, chunk, partitions) && !Placed(stretch, next)
    ensures Placing(g, FatesOf(g, how, stretch), next', chunk', partitions)
    ensures StepsLeft(FatesOf(g, how, stretch), next') < StepsLeft(FatesOf(g, how, stretch), next)
  {
    ghost var fates := FatesOf(g, how, stretch);
    if next.None? {
      assert fates[..0] == [];
      return EmptyChunk(partitions), Some(0);
    }
    var i := next.value;
    assert fates[..i + 1][..i] == fates[..i];
    return PlaceOne(g, chunk, FateOf(g, how, stretch[i])), Some(i + 1);
  }

  /** Let any worker take its next action. */
  method PlaceAny(g: Grid, how: Placement, stretches: seq<seq<RawPoint>>, ghost fates: seq<seq<Fate>>,
                  next: seq<Option<nat>>, chunks: seq<Chunk>, partitions: nat)
    returns (chunks': seq<Chunk>, next': seq<Option<nat>>)
    requires |next| == |stretches| == |fates| <= |chunks|
    requires forall c | 0 <= c < |fates| :: fates[c] == FatesOf(g, how, stretches[c])
    requires AllPlacing(g, fates, next, chunks, partitions)
    requires exists c :: 0 <= c < |stretches| && !Placed(stretches[c], next[c])
    ensures |chunks'| == |chunks| && |next'| == |next|
    ensures AllPlacing(g, fates, next', chunks', partitions)
    ensures TotalLeft(fates, next') < TotalLeft(fates, next)
  {
    var c :| 0 <= c < |stretches| && !Placed(stretches[c], next[c]);
    var chunk, after := PlaceStep(g, how, stretches[c], next[c], chunks[c], partitions);
    TotalLeftUpdate(fates, next, c, after);
    return chunks[c := chunk], next[c := after];
  }

  // ---- feeding, one entry at a time -----------------------------------------------------------

  ghost predicate CursorFits(chunks: seq<Chunk>, count: nat, at: (nat, nat), t: nat)
    requires count <= |chunks| && forall i | 0 <= i < count :: t < |chunks[i].buckets|
  {
    at.0 <= count && at.1 <= if at.0 < count then |chunks[at.0].buckets[t]| else 0
  }

  /** The entries partition `t` has been fed when its cursor stands at `at`. */
  ghost function FedSoFar(chunks: seq<Chunk>, count: nat, at: (nat, nat), t: nat): seq<Kept>
    requires count <= |chunks| && forall i | 0 <= i < count :: t < |chunks[i].buckets|
    requires CursorFits(chunks, count, at, t)
  {
    FedFrom(chunks, at.0, t) + if at.0 < count then chunks[at.0].buckets[t][..at.1] else []
  }

  /** Every partition holds what it held before with the entries up to its cursor added. */
  ghost predicate AllFeeding(g: Grid, before: seq<MapState>, parts: seq<MapState>, chunks: seq<Chunk>, count: nat,
                             at: seq<(nat, nat)>)
    requires |before| == |parts| == |at| && BucketsFit(g, chunks, count, |parts|)
  {
    forall t | 0 <= t < |parts| ::
      CursorFits(chunks, count, at[t], t) && parts[t] == AddAllKept(g, before[t], FedSoFar(chunks, count, at[t], t))
  }

  /** The steps partition `t` still has to take in `chunks` from `at`: one per entry and per chunk. */
  ghost function LeftAt(chunks: seq<Chunk>, at: (nat, nat), t: nat): nat
    requires forall i | 0 <= i < |chunks| :: t < |chunks[i].buckets|
    decreases |chunks| - at.0
  {
    if at.0 >= |chunks| then 0
    else
      var here := |chunks[at.0].buckets[t]|;
      1 + (if at.1 < here then here - at.1 else 0) + LeftAt(chunks, (at.0 + 1, 0), t)
  }

  ghost function TotalLeftIn(chunks: seq<Chunk>, at: seq<(nat, nat)>): nat
    requires forall i | 0 <= i < |chunks| :: |chunks[i].buckets| == |at|
  {
    Total<nat>(seq(|at|, t requires 0 <= t < |at| => LeftAt(chunks, at[t], t)), Itself)
  }

  lemma TotalLeftInUpdate(chunks: seq<Chunk>, at: seq<(nat, nat)>, t: nat, after: (nat, nat))
    requires t < |at| && forall i | 0 <= i < |chunks| :: |chunks[i].buckets| == |at|
    requires LeftAt(chunks, after, t) < LeftAt(chunks, at[t], t)
    ensures TotalLeftIn(chunks, at[t := after]) < TotalLeftIn(chunks, at)
  {
    var left := seq(|at|, i requires 0 <= i < |at| => LeftAt(chunks, at[i], i));
    var left' := seq(|at|, i requires 0 <= i < |at| => LeftAt(chunks, at[t := after][i], i));
    assert left' == left[t := LeftAt(chunks, after, t)];
    TotalUpdate<nat>(left, t, LeftAt(chunks, after, t), Itself);
  }

  lemma AddAllKeptSnoc(g: Grid, m: MapState, kept: seq<Kept>, last: Kept)
    ensures AddAllKept(g, m, kept + [last]) == AddKept(g, AddAllKept(g, m, kept), last)
  {
    assert (kept + [last])[..|kept|] == kept;
  }

  /** Inserting the entry at the cursor and moving on. */
  lemma FedOneMore(g: Grid, before: MapState, chunks: seq<Chunk>, count: nat, at: (nat, nat), t: nat)
    requires count <= |chunks| && forall i | 0 <= i < count :: t < |chunks[i].buckets|
    requires CursorFits(chunks, count, at, t) && at.0 < count && at.1 < |chunks[at.0].buckets[t]|
    ensures AddAllKept(g, before, FedSoFar(chunks, count, (at.0, at.1 + 1), t)) ==
            AddKept(g, AddAllKept(g, before, FedSoFar(chunks, count, at, t)), chunks[at.0].buckets[t][at.1])
  {
    var bucket := chunks[at.0].buckets[t];
    AddAllKeptSnoc(g, before, FedSoFar(chunks, count, at, t), bucket[at.1]);
    assert bucket[..at.1 + 1] == bucket[..at.1] + [bucket[at.1]];
    assert FedSoFar(chunks, count, (at.0, at.1 + 1), t) == FedSoFar(chunks, count, at, t) + [bucket[at.1]];
  }

  /** Partition `t` at its next cursor. */
  lemma FedAtNext(g: Grid, before: MapState, part: MapState, chunks: seq<Chunk>, count: nat, at: (nat, nat), t: nat)
    requires count <= |chunks| && forall i | 0 <= i < count :: t < |chunks[i].buckets|
    requires CursorFits(chunks, count, at, t) && at.0 < count
    requires part == AddAllKept(g, before, FedSoFar(chunks, count, at, t))
    ensures var bucket := chunks[at.0].buckets[t];
            && CursorFits(chunks, count, NextCursor(bucket, at), t)
            && (if at.1 < |bucket| then AddKept(g, part, bucket[at.1]) else part) ==
               AddAllKept(g, before, FedSoFar(chunks, count, NextCursor(bucket, at), t))
  {
    var bucket := chunks[at.0].buckets[t];
    if at.1 < |bucket| {
      FedOneMore(g, before, chunks, count, at, t);
    } else {
      assert bucket[..at.1] == bucket;
      assert FedSoFar(chunks, count, (at.0 + 1, 0), t) == FedSoFar(chunks, count, at, t);
    }
  }

  lemma FeedStep(g: Grid, before: seq<MapState>, parts: seq<MapState>, chunks: seq<Chunk>, count: nat,
                 at: seq<(nat, nat)>, t: nat)
    requires |before| == |parts| == |at| && BucketsFit(g, chunks, count, |parts|)
    requires AllFeeding(g, before, parts, chunks, count, at)
    requires t < |at| && at[t].0 < count
    ensures var (c, k) := at[t];
            var parts' := if k < |chunks[c].buckets[t]| then parts[t := AddKept(g, parts[t], chunks[c].buckets[t][k])]
                          else parts;
            AllFeeding(g, before, parts', chunks, count, Advanced(chunks, at, t))
  {
    FedAtNext(g, before[t], parts[t], chunks, count, at[t], t);
  }

  function NextCursor(bucket: seq<Kept>, at: (nat, nat)): (nat, nat) {
    if at.1 < |bucket| then (at.0, at.1 + 1) else (at.0 + 1, 0)
  }

  /** Where the insertion stands after partition `t`'s next action. */
  function Advanced(chunks: seq<Chunk>, at: seq<(nat, nat)>, t: nat): (after: seq<(nat, nat)>)
    requires t < |at| && at[t].0 < |chunks| && t < |chunks[at[t].0].buckets|
    ensures |after| == |at|
  {
    at[t := NextCursor(chunks[at[t].0].buckets[t], at[t])]
  }

  lemma AdvancingLowersLeft(chunks: seq<Chunk>, count: nat, at: seq<(nat, nat)>, t: nat)
    requires count <= |chunks| && forall i | 0 <= i < count :: |chunks[i].buckets| == |at|
    requires t < |at| && at[t].0 < count
    ensures TotalLeftIn(chunks[..count], Advanced(chunks, at, t)) < TotalLeftIn(chunks[..count], at)
  {
    TotalLeftInUpdate(chunks[..count], at, t, Advanced(chunks, at, t)[t]);
  }

  lemma AllFed(g: Grid, before: seq<MapState>, parts: seq<MapState>, chunks: seq<Chunk>, count: nat,
               at: seq<(nat, nat)>)
    requires |before| == |parts| == |at| && BucketsFit(g, chunks, count, |parts|)
    requires AllFeeding(g, before, parts, chunks, count, at)
    requires forall t | 0 <= t < |at| :: at[t].0 >= count
    ensures forall t | 0 <= t < |parts| :: parts[t] == AddAllKept(g, before[t], FedFrom(chunks, count, t))
  {
    forall t | 0 <= t < |parts|
      ensures parts[t] == AddAllKept(g, before[t], FedFrom(chunks, count, t))
    {
      assert CursorFits(chunks, count, at[t], t);
      assert FedSoFar(chunks, count, at[t], t) == FedFrom(chunks, count, t);
    }
  }

  /** Let any worker insert its partition's next entry, or go on to the next chunk. */
  method InsertAny(map_: MapAccumulator, ghost before: seq<MapState>, chunks: seq<Chunk>, count: nat,
                   at: seq<(nat, nat)>)
    returns (at': seq<(nat, nat)>)
    requires |before| == |map_.voxels| == |at| && BucketsFit(map_.g, chunks, count, |at|)
    requires AllFeeding(map_.g, before, map_.Parts(), chunks, count, at)
    requires exists t :: 0 <= t < |at| && at[t].0 < count
    modifies map_
    ensures |map_.voxels| == |at'| == |at|
    ensures AllFeeding(map_.g, before, map_.Parts(), chunks, count, at')
    ensures TotalLeftIn(chunks[..count], at') < TotalLeftIn(chunks[..count], at)
  {
    var t :| 0 <= t < |at| && at[t].0 < count;
    var (c, k) := at[t];
    FeedStep(map_.g, before, map_.Parts(), chunks, count, at, t);
    AdvancingLowersLeft(chunks, count, at, t);
    if k < |chunks[c].buckets[t]| {
      map_.Insert(t, chunks[c].buckets[t][k]);
    }
    at' := Advanced(chunks, at, t);
  }
}
