/** Emptying the partitions into one vector: every partition has its own part of it, and its worker writes
    there entry by entry while the others write theirs. */
module MapDrain {
  import opened VoxelMap
  import opened MapPartitions
  import opened Sorting
  import opened MapThreads
  import opened Progress

  type Voxels = map<Key, VoxelAccum>

  /** Where partition `p`'s part begins. */
  function OffsetOf(voxels: seq<Voxels>, p: nat): nat
    requires p <= |voxels|
  {
    if p == 0 then 0 else OffsetOf(voxels, p - 1) + |voxels[p - 1]|
  }

  lemma {:induction false} OffsetsGrow(voxels: seq<Voxels>, p: nat, q: nat)
    requires p <= q <= |voxels|
    ensures OffsetOf(voxels, p) <= OffsetOf(voxels, q)
    decreases q
  {
    if p < q {
      OffsetsGrow(voxels, p, q - 1);
    }
  }

  /** Where a partition's worker stands: the entries it has not come to, and its next slot. */
  datatype Drain = Drain(left: Voxels, at: nat, swapped: bool)

  /** The part of partition `p` up to its next slot lists the entries its worker has come to. */
  ghost predicate PartFits(voxels: seq<Voxels>, ordered: seq<Entry>, p: nat, d: Drain)
    requires p < |voxels|
  {
    && OffsetOf(voxels, p) <= d.at && d.at + |d.left| == OffsetOf(voxels, p + 1) <= |ordered|
    && ListsTheRest(ordered[OffsetOf(voxels, p)..d.at], voxels[p], d.left)
    && (d.swapped ==> d.left == map[])
  }

  /** `part` lists, each once, the voxels that are not `left`. */
  ghost predicate ListsTheRest(part: seq<Entry>, voxels: Voxels, left: Voxels) {
    && |part| + |left| == |voxels|
    && (forall key | key in left :: key in voxels && left[key] == voxels[key])
    && (forall e | e in part :: e.key in voxels && e.key !in left && voxels[e.key] == e.accum)
    && (forall i, j | 0 <= i < j < |part| :: part[i].key != part[j].key)
  }

  ghost predicate PartsFit(voxels: seq<Voxels>, ordered: seq<Entry>, drains: seq<Drain>) {
    && |drains| == |voxels|
    && forall p | 0 <= p < |voxels| :: PartFits(voxels, ordered, p, drains[p])
  }

  /** The entry a worker writes. */
  function Written(d: Drain, key: Key): Entry
    requires key in d.left
  {
    Entry(key, d.left[key])
  }

  function Moved(d: Drain, key: Key): Drain {
    d.(left := d.left - {key}, at := d.at + 1)
  }

  /** A worker's write extends its own part, ... */
  lemma WriteExtendsPart(voxels: seq<Voxels>, ordered: seq<Entry>, p: nat, d: Drain, key: Key)
    requires p < |voxels| && PartFits(voxels, ordered, p, d) && key in d.left
    ensures d.at < |ordered| && d.at < OffsetOf(voxels, p + 1)
    ensures PartFits(voxels, ordered[d.at := Written(d, key)], p, Moved(d, key))
  {
    var begin, after := OffsetOf(voxels, p), ordered[d.at := Written(d, key)];
    LeftShrinks(d.left, key);
    assert after[begin..d.at + 1] == ordered[begin..d.at] + [Written(d, key)];
    DrainOne(ordered[begin..d.at], voxels[p], d.left, key);
  }

  lemma LeftShrinks(left: Voxels, key: Key)
    requires key in left
    ensures |left - {key}| == |left| - 1
  {
    assert left.Keys == (left - {key}).Keys + {key};
    assert |left.Keys| == |(left - {key}).Keys| + 1;
  }

  lemma DrainOne(part: seq<Entry>, voxels: Voxels, left: Voxels, key: Key)
    requires ListsTheRest(part, voxels, left) && key in left
    ensures ListsTheRest(part + [Entry(key, left[key])], voxels, left - {key})
  {
    LeftShrinks(left, key);
    var after := part + [Entry(key, left[key])];
    forall i, j | 0 <= i < j < |after|
      ensures after[i].key != after[j].key
    {
      if j == |part| {
        assert part[i] in part;
      }
    }
  }

  lemma ListsJoin(a: seq<Entry>, b: seq<Entry>, va: Voxels, vb: Voxels, all: Voxels)
    requires Lists(a, va) && Lists(b, vb) && va.Keys !! vb.Keys && |all| == |va| + |vb|
    requires forall key | key in va :: key in all && all[key] == va[key]
    requires forall key | key in vb :: key in all && all[key] == vb[key]
    ensures Lists(a + b, all)
  {
    forall i, j | 0 <= i < j < |a + b|
      ensures (a + b)[i].key != (a + b)[j].key
    {
      if i < |a| <= j {
        assert a[i] in a && b[j - |a|] in b;
      }
    }
  }

  /** ... and no other worker's. */
  lemma WriteKeepsOtherParts(voxels: seq<Voxels>, ordered: seq<Entry>, p: nat, slot: nat, e: Entry, q: nat, d: Drain)
    requires p < |voxels| && q < |voxels| && p != q && PartFits(voxels, ordered, q, d)
    requires OffsetOf(voxels, p) <= slot < OffsetOf(voxels, p + 1) <= |ordered|
    ensures PartFits(voxels, ordered[slot := e], q, d)
  {
    OffsetsGrow(voxels, if p < q then p + 1 else q + 1, if p < q then q else p);
    assert ordered[slot := e][OffsetOf(voxels, q)..d.at] == ordered[OffsetOf(voxels, q)..d.at];
  }

  lemma OneMoreWritten(voxels: seq<Voxels>, ordered: seq<Entry>, drains: seq<Drain>, p: nat, key: Key)
    requires PartsFit(voxels, ordered, drains) && p < |drains| && key in drains[p].left
    ensures drains[p].at < |ordered|
    ensures PartsFit(voxels, ordered[drains[p].at := Written(drains[p], key)], drains[p := Moved(drains[p], key)])
  {
    var d := drains[p];
    assert PartFits(voxels, ordered, p, d);
    WriteExtendsPart(voxels, ordered, p, d, key);
    forall q | 0 <= q < |voxels| && q != p
      ensures PartFits(voxels, ordered[d.at := Written(d, key)], q, drains[q])
    {
      WriteKeepsOtherParts(voxels, ordered, p, d.at, Written(d, key), q, drains[q]);
    }
  }

  /** What a worker has left to do: its entries and the swap. */
  function DrainRank(d: Drain): nat { |d.left| + Pending(d.swapped) }

  function StartOf(voxels: seq<Voxels>, p: nat): Drain
    requires p < |voxels|
  {
    Drain(voxels[p], OffsetOf(voxels, p), false)
  }

  /** The vector, long enough for every entry, and the workers at the beginning of their parts. */
  method BeginDraining(voxels: seq<Voxels>) returns (ordered: array<Entry>, drains: seq<Drain>)
    ensures fresh(ordered) && ordered.Length == OffsetOf(voxels, |voxels|)
    ensures PartsFit(voxels, ordered[..], drains) && SwappedAreEmpty(voxels, drains)
  {
    var n := OffsetOf(voxels, |voxels|);
    ordered := new Entry[n](_ => Entry(Key(0, 0, 0), ZERO_ACCUM));
    drains := seq(|voxels|, p requires 0 <= p < |voxels| => StartOf(voxels, p));
    PartsStart(voxels, ordered[..], drains);
  }

  /** Drain every partition into its own part of one vector: any worker next, its entries in whatever order
      its hash map iterates, and the hash map emptied after the last. */
  method DrainPartitions(map_: MapAccumulator) returns (ordered: array<Entry>)
    modifies map_
    ensures fresh(ordered) && |map_.voxels| == old(|map_.voxels|) && map_.raw == old(map_.raw)
    ensures forall p | 0 <= p < |map_.voxels| :: map_.voxels[p] == map[]
    ensures Parted(old(map_.voxels), ordered[..])
  {
    var voxels := map_.voxels;
    var n := |voxels|;
    var drains;
    ordered, drains := BeginDraining(voxels);
    while exists p :: 0 <= p < n && !drains[p].swapped
      invariant fresh(ordered) && ordered.Length == OffsetOf(voxels, n)
      invariant |map_.voxels| == n && map_.raw == old(map_.raw) && PartsFit(voxels, ordered[..], drains)
      invariant SwappedAreEmpty(map_.voxels, drains)
      decreases Total(drains, DrainRank)
    {
      var p :| 0 <= p < n && !drains[p].swapped;
      drains := DrainStep(map_, voxels, ordered, drains, p);
    }
    AllDrained(voxels, ordered[..], drains);
  }

  ghost predicate SwappedAreEmpty(now: seq<Voxels>, drains: seq<Drain>) {
    |now| == |drains| && forall p | 0 <= p < |drains| && drains[p].swapped :: now[p] == map[]
  }

  lemma PartsStart(voxels: seq<Voxels>, ordered: seq<Entry>, drains: seq<Drain>)
    requires |ordered| == OffsetOf(voxels, |voxels|) && |drains| == |voxels|
    requires forall p | 0 <= p < |drains| :: drains[p] == StartOf(voxels, p)
    ensures PartsFit(voxels, ordered, drains) && SwappedAreEmpty(voxels, drains)
  {
    forall p | 0 <= p < |voxels|
      ensures PartFits(voxels, ordered, p, drains[p])
    {
      OffsetsGrow(voxels, p + 1, |voxels|);
      PartStarts(voxels, ordered, p);
    }
  }

  lemma PartStarts(voxels: seq<Voxels>, ordered: seq<Entry>, p: nat)
    requires p < |voxels| && OffsetOf(voxels, p + 1) <= |ordered|
    ensures PartFits(voxels, ordered, p, StartOf(voxels, p))
  {
    NothingListed(voxels[p]);
    var begin := OffsetOf(voxels, p);
    assert ordered[begin..begin] == [];
  }

  lemma NothingListed(voxels: Voxels)
    ensures ListsTheRest([], voxels, voxels)
  {
  }

  /** A worker writes its next entry, or swaps its hash map for an empty one. */
  method DrainStep(map_: MapAccumulator, ghost voxels: seq<Voxels>, ordered: array<Entry>, drains: seq<Drain>, p: nat)
    returns (drains': seq<Drain>)
    requires PartsFit(voxels, ordered[..], drains) && SwappedAreEmpty(map_.voxels, drains)
    requires p < |drains| && !drains[p].swapped
    modifies map_, ordered
    ensures PartsFit(voxels, ordered[..], drains') && |map_.voxels| == old(|map_.voxels|) && map_.raw == old(map_.raw)
    ensures SwappedAreEmpty(map_.voxels, drains')
    ensures Total(drains', DrainRank) < Total(drains, DrainRank)
  {
    var d := drains[p];
    if d.left.Keys == {} {
      TotalUpdate(drains, p, d.(swapped := true), DrainRank);
      map_.voxels := map_.voxels[p := map[]];
      return drains[p := d.(swapped := true)];
    }
    var key :| key in d.left.Keys;
    OneMoreWritten(voxels, ordered[..], drains, p, key);
    LeftShrinks(d.left, key);
    TotalUpdate(drains, p, Moved(d, key), DrainRank);
    ghost var before := ordered[..];
    ordered[d.at] := Written(d, key);
    assert ordered[..] == before[d.at := Written(d, key)];
    drains' := drains[p := Moved(d, key)];
  }

  /** Every partition's part of the vector lists it. */
  ghost predicate Parted(voxels: seq<Voxels>, ordered: seq<Entry>) {
    && |ordered| == OffsetOf(voxels, |voxels|)
    && forall p | 0 <= p < |voxels| :: PartLists(voxels, ordered, p)
  }

  ghost predicate PartLists(voxels: seq<Voxels>, ordered: seq<Entry>, p: nat)
    requires p < |voxels|
  {
    && OffsetOf(voxels, p) <= OffsetOf(voxels, p + 1) <= |ordered|
    && Lists(ordered[OffsetOf(voxels, p)..OffsetOf(voxels, p + 1)], voxels[p])
  }

  lemma AllDrained(voxels: seq<Voxels>, ordered: seq<Entry>, drains: seq<Drain>)
    requires PartsFit(voxels, ordered, drains) && |ordered| == OffsetOf(voxels, |voxels|)
    requires forall p | 0 <= p < |drains| :: drains[p].swapped
    ensures Parted(voxels, ordered)
  {
    forall p | 0 <= p < |voxels|
      ensures PartLists(voxels, ordered, p)
    {
      PartDrained(voxels, ordered, p, drains[p]);
    }
  }

  lemma PartDrained(voxels: seq<Voxels>, ordered: seq<Entry>, p: nat, d: Drain)
    requires p < |voxels| && PartFits(voxels, ordered, p, d) && d.swapped
    ensures PartLists(voxels, ordered, p)
  {
    AllListed(ordered[OffsetOf(voxels, p)..d.at], voxels[p]);
  }

  lemma AllListed(part: seq<Entry>, voxels: Voxels)
    requires ListsTheRest(part, voxels, map[])
    ensures Lists(part, voxels)
  {
  }

  /** The voxels of the first `n` partitions. */
  ghost function VoxelsBelow(g: Grid, voxels: Voxels, partitions: nat, n: nat): Voxels
    requires partitions > 0
  {
    map key | key in voxels && PartitionOf(g, key, partitions) < n :: voxels[key]
  }

  lemma OneMorePartition(g: Grid, parts: seq<MapState>, m: MapState, n: nat)
    requires Splits(g, parts, m) && 1 <= n <= |parts|
    ensures var below, all := VoxelsBelow(g, m.voxels, |parts|, n - 1), VoxelsBelow(g, m.voxels, |parts|, n);
            var here := parts[n - 1].voxels;
            && below.Keys !! here.Keys
            && |all| == |below| + |here|
            && (forall key | key in below :: key in all && all[key] == below[key])
            && (forall key | key in here :: key in all && all[key] == here[key])
  {
    var below, all := VoxelsBelow(g, m.voxels, |parts|, n - 1), VoxelsBelow(g, m.voxels, |parts|, n);
    var here := parts[n - 1].voxels;
    forall key
      ensures key in here <==> key in m.voxels && PartitionOf(g, key, |parts|) == n - 1
      ensures key in here ==> here[key] == m.voxels[key]
    {
    }
    DisjointSizes(below, here, all);
  }

  lemma DisjointSizes<K, V>(a: map<K, V>, b: map<K, V>, all: map<K, V>)
    requires a.Keys !! b.Keys && forall key :: key in all <==> key in a || key in b
    ensures |all| == |a| + |b|
  {
    assert all.Keys == a.Keys + b.Keys;
    assert |all.Keys| == |a.Keys| + |b.Keys|;
  }

  lemma OneMoreListed(g: Grid, parts: seq<MapState>, m: MapState, n: nat, below: seq<Entry>, here: seq<Entry>)
    requires Splits(g, parts, m) && 1 <= n <= |parts|
    requires Lists(below, VoxelsBelow(g, m.voxels, |parts|, n - 1)) && Lists(here, parts[n - 1].voxels)
    ensures Lists(below + here, VoxelsBelow(g, m.voxels, |parts|, n))
  {
    OneMorePartition(g, parts, m, n);
    ListsJoin(below, here, VoxelsBelow(g, m.voxels, |parts|, n - 1), parts[n - 1].voxels,
              VoxelsBelow(g, m.voxels, |parts|, n));
  }

  /** The vector lists the map: the parts of the first partitions list the voxels at home in them. */
  lemma {:induction false} PartsListTheMap(g: Grid, parts: seq<MapState>, m: MapState, voxels: seq<Voxels>,
                                           ordered: seq<Entry>, n: nat)
    requires Splits(g, parts, m) && HoldVoxels(parts, voxels) && Parted(voxels, ordered) && n <= |parts|
    ensures OffsetOf(voxels, n) <= |ordered|
    ensures Lists(ordered[..OffsetOf(voxels, n)], VoxelsBelow(g, m.voxels, |parts|, n))
  {
    OffsetsGrow(voxels, n, |voxels|);
    if n > 0 {
      PartsListTheMap(g, parts, m, voxels, ordered, n - 1);
      assert PartLists(voxels, ordered, n - 1);
      var middle, end := OffsetOf(voxels, n - 1), OffsetOf(voxels, n);
      assert ordered[..end] == ordered[..middle] + ordered[middle..end];
      OneMoreListed(g, parts, m, n, ordered[..middle], ordered[middle..end]);
    }
  }

  ghost predicate HoldVoxels(parts: seq<MapState>, voxels: seq<Voxels>) {
    |voxels| == |parts| && forall p | 0 <= p < |parts| :: parts[p].voxels == voxels[p]
  }

  lemma DrainedIsTheMap(g: Grid, parts: seq<MapState>, m: MapState, voxels: seq<Voxels>, ordered: seq<Entry>)
    requires Splits(g, parts, m) && HoldVoxels(parts, voxels) && Parted(voxels, ordered)
    ensures Lists(ordered, m.voxels)
  {
    PartsListTheMap(g, parts, m, voxels, ordered, |parts|);
    AllBelow(g, m.voxels, |parts|);
    assert ordered[..|ordered|] == ordered;
  }

  lemma AllBelow(g: Grid, voxels: Voxels, partitions: nat)
    requires partitions > 0
    ensures VoxelsBelow(g, voxels, partitions, partitions) == voxels
  {
  }

  /** Reordering a list of the voxels leaves one. */
  lemma ReorderedStillLists(entries: seq<Entry>, other: seq<Entry>, voxels: Voxels)
    requires Lists(entries, voxels) && multiset(other) == multiset(entries)
    ensures Lists(other, voxels)
  {
    ReorderedKeysDistinct(entries, other);
    assert |other| == |multiset(other)| == |multiset(entries)| == |entries|;
    forall e | e in other
      ensures e.key in voxels && voxels[e.key] == e.accum
    {
      assert e in multiset(entries);
    }
  }
}
