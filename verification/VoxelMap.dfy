/** The calibration map as one thread would build it: points in arrival order, one running sum per
    voxel.  Floating-point numbers are bit patterns and their arithmetic is a parameter about which
    nothing is assumed, neither that addition associates nor that it commutes, so two ways of building
    the map agree only if every voxel adds the same points in the same order. */
module VoxelMap {
  import opened Wrappers

  /** A float or a double, as its bit pattern. */
  type Bits = nat

  datatype Point = Point(x: Bits, y: Bits, z: Bits)
  datatype Sample = Sample(point: Point, intensity: Bits)
  datatype Key = Key(x: int, y: int, z: int)
  datatype VoxelAccum = VoxelAccum(x: Bits, y: Bits, z: Bits, intensity: Bits, count: nat)
  const ZERO_ACCUM := VoxelAccum(0, 0, 0, 0, 0)

  /** The grid: whether it is on, which voxel a point falls in (none when no index can hold it), the
      hash that picks a partition, and the arithmetic: adding a float to a double, and the mean. */
  datatype Grid = Grid(gridded: bool, voxelOf: Point -> Option<Key>, hash: Key -> nat,
                       add: (Bits, Bits) -> Bits, mean: (Bits, nat) -> Bits)

  /** The map so far: the voxels with the grid on, the points themselves with it off. */
  datatype MapState = MapState(voxels: map<Key, VoxelAccum>, raw: seq<Sample>)
  const EMPTY_MAP := MapState(map[], [])

  datatype PcdCloud = PcdCloud(points: seq<Point>, intensities: seq<Bits>)

  function AccumOf(voxels: map<Key, VoxelAccum>, key: Key): VoxelAccum {
    if key in voxels then voxels[key] else ZERO_ACCUM
  }

  function AddPoint(g: Grid, a: VoxelAccum, s: Sample): VoxelAccum {
    VoxelAccum(g.add(a.x, s.point.x), g.add(a.y, s.point.y), g.add(a.z, s.point.z),
               g.add(a.intensity, s.intensity), a.count + 1)
  }

  function AddToVoxel(g: Grid, voxels: map<Key, VoxelAccum>, key: Key, s: Sample): map<Key, VoxelAccum> {
    voxels[key := AddPoint(g, AccumOf(voxels, key), s)]
  }

  // ---- one cloud, one thread ----------------------------------------------------------

  datatype RawPoint = RawPoint(x: Bits, y: Bits, z: Bits, intensity: Bits)
  /** A placed point, in double precision. */
  datatype Spot = Spot(x: Bits, y: Bits, z: Bits)

  /** What happens to a cloud's points on their way to the map: the finiteness test, the rigid
      placement, the view cull (always passed when there is no view), and the narrowing to float. */
  datatype Placement = Placement(finite: RawPoint -> bool, place: RawPoint -> Spot, inView: Spot -> bool,
                                 narrow: Spot -> Point)

  /** Points that went into the map, were unusable, or were culled. */
  datatype Tally = Tally(added: nat, nonfinite: nat, culled: nat)

  /** A point that reaches the map, with its voxel when the grid is on. */
  datatype Kept = Kept(key: Option<Key>, sample: Sample)
  datatype Fate = NonFinite | Culled | Keep(kept: Kept)

  function SampleOf(how: Placement, raw: RawPoint): Sample {
    Sample(how.narrow(how.place(raw)), raw.intensity)
  }

  function FateOf(g: Grid, how: Placement, raw: RawPoint): Fate {
    if !how.finite(raw) then NonFinite
    else if !how.inView(how.place(raw)) then Culled
    else
      var s := SampleOf(how, raw);
      if !g.gridded then Keep(Kept(None, s))
      else if g.voxelOf(s.point).None? then NonFinite
      else Keep(Kept(g.voxelOf(s.point), s))
  }

  /** `add` on the whole map: one point from the single thread. */
  function AddSample(g: Grid, m: MapState, s: Sample): Option<MapState> {
    if !g.gridded then Some(m.(raw := m.raw + [s]))
    else match g.voxelOf(s.point)
      case None => None
      case Some(key) => Some(m.(voxels := AddToVoxel(g, m.voxels, key, s)))
  }

  /** One point of the single loop over a cloud. */
  function SerialPoint(g: Grid, how: Placement, before: (MapState, Tally), raw: RawPoint): (MapState, Tally) {
    var (m, t) := before;
    if !how.finite(raw) then (m, t.(nonfinite := t.nonfinite + 1))
    else if !how.inView(how.place(raw)) then (m, t.(culled := t.culled + 1))
    else match AddSample(g, m, SampleOf(how, raw))
      case None => (m, t.(nonfinite := t.nonfinite + 1))
      case Some(m') => (m', t.(added := t.added + 1))
  }

  function SerialPoints(g: Grid, how: Placement, before: (MapState, Tally), points: seq<RawPoint>): (MapState, Tally) {
    if points == [] then before
    else SerialPoint(g, how, SerialPoints(g, how, before, points[..|points| - 1]), points[|points| - 1])
  }

  // ---- the kept points of a stretch of a cloud ------------------------------------------

  /** The fate of each point of a stretch; a point's fate depends on that point alone. */
  function FatesOf(g: Grid, how: Placement, points: seq<RawPoint>): (fates: seq<Fate>)
    ensures |fates| == |points|
    ensures forall i | 0 <= i < |points| :: fates[i] == FateOf(g, how, points[i])
  {
    seq(|points|, i requires 0 <= i < |points| => FateOf(g, how, points[i]))
  }

  function KeptOf(fates: seq<Fate>): seq<Kept> {
    if fates == [] then []
    else
      var before, last := KeptOf(fates[..|fates| - 1]), fates[|fates| - 1];
      if last.Keep? then before + [last.kept] else before
  }

  function TallySum(a: Tally, b: Tally): Tally {
    Tally(a.added + b.added, a.nonfinite + b.nonfinite, a.culled + b.culled)
  }

  function FateTally(fate: Fate): Tally {
    match fate
    case Keep(_) => Tally(1, 0, 0)
    case NonFinite => Tally(0, 1, 0)
    case Culled => Tally(0, 0, 1)
  }

  function TallyOf(fates: seq<Fate>): Tally {
    if fates == [] then Tally(0, 0, 0)
    else TallySum(TallyOf(fates[..|fates| - 1]), FateTally(fates[|fates| - 1]))
  }

  /** Every point is counted once, and the kept ones as added. */
  lemma {:induction false} TallyCounts(fates: seq<Fate>)
    ensures TallyOf(fates).added + TallyOf(fates).nonfinite + TallyOf(fates).culled == |fates|
    ensures TallyOf(fates).added == |KeptOf(fates)|
  {
    if fates != [] {
      TallyCounts(fates[..|fates| - 1]);
    }
  }

  function AddKept(g: Grid, m: MapState, kept: Kept): MapState {
    match kept.key
    case None => m.(raw := m.raw + [kept.sample])
    case Some(key) => m.(voxels := AddToVoxel(g, m.voxels, key, kept.sample))
  }

  function AddAllKept(g: Grid, m: MapState, kept: seq<Kept>): MapState {
    if kept == [] then m else AddKept(g, AddAllKept(g, m, kept[..|kept| - 1]), kept[|kept| - 1])
  }

  /** One point of the single loop, by its fate. */
  lemma SerialPointByFate(g: Grid, how: Placement, m: MapState, t: Tally, raw: RawPoint)
    ensures var fate := FateOf(g, how, raw);
            SerialPoint(g, how, (m, t), raw) ==
            (if fate.Keep? then AddKept(g, m, fate.kept) else m, TallySum(t, FateTally(fate)))
  {
  }

  /** The single loop adds exactly the kept points, in order, and counts every point once. */
  lemma {:induction false} SerialAddsTheKept(g: Grid, how: Placement, m: MapState, t: Tally, points: seq<RawPoint>)
    ensures var fates := FatesOf(g, how, points);
            SerialPoints(g, how, (m, t), points) == (AddAllKept(g, m, KeptOf(fates)), TallySum(t, TallyOf(fates)))
  {
    if points != [] {
      var front, last := points[..|points| - 1], points[|points| - 1];
      SerialAddsTheKept(g, how, m, t, front);
      var before, fate := FatesOf(g, how, front), FateOf(g, how, last);
      assert FatesOf(g, how, points) == before + [fate];
      SerialPointByFate(g, how, AddAllKept(g, m, KeptOf(before)), TallySum(t, TallyOf(before)), last);
      FatesSnoc(g, m, t, before, fate);
    }
  }

  lemma FatesSnoc(g: Grid, m: MapState, t: Tally, before: seq<Fate>, fate: Fate)
    ensures AddAllKept(g, m, KeptOf(before + [fate])) ==
            if fate.Keep? then AddKept(g, AddAllKept(g, m, KeptOf(before)), fate.kept)
            else AddAllKept(g, m, KeptOf(before))
    ensures TallySum(t, TallyOf(before + [fate])) == TallySum(TallySum(t, TallyOf(before)), FateTally(fate))
  {
    assert (before + [fate])[..|before|] == before;
    if fate.Keep? {
      assert (KeptOf(before) + [fate.kept])[..|KeptOf(before)|] == KeptOf(before);
    }
  }

  lemma {:induction false} KeptOfConcat(a: seq<Fate>, b: seq<Fate>)
    ensures KeptOf(a + b) == KeptOf(a) + KeptOf(b)
  {
    if b == [] {
      assert a + b == a;
    } else {
      var front := b[..|b| - 1];
      assert (a + b)[..|a + b| - 1] == a + front;
      KeptOfConcat(a, front);
    }
  }

  lemma {:induction false} TallyOfConcat(a: seq<Fate>, b: seq<Fate>)
    ensures TallyOf(a + b) == TallySum(TallyOf(a), TallyOf(b))
  {
    if b == [] {
      assert a + b == a;
    } else {
      var front := b[..|b| - 1];
      assert (a + b)[..|a + b| - 1] == a + front;
      TallyOfConcat(a, front);
    }
  }

  /** The kept points are in the form the grid calls for. */
  lemma {:induction false} KeptFitGrid(g: Grid, how: Placement, points: seq<RawPoint>)
    ensures forall k | k in KeptOf(FatesOf(g, how, points)) :: k.key.Some? <==> g.gridded
  {
    if points != [] {
      var front := points[..|points| - 1];
      KeptFitGrid(g, how, front);
      assert FatesOf(g, how, points)[..|front|] == FatesOf(g, how, front);
    }
  }

  // ---- conservation ------------------------------------------------------------------

  /** The points counted in the voxels of `keys`. */
  ghost function CountIn(voxels: map<Key, VoxelAccum>, keys: set<Key>): nat
    requires keys <= voxels.Keys
  {
    if keys == {} then 0
    else
      var key :| key in keys;
      voxels[key].count + CountIn(voxels, keys - {key})
  }

  lemma {:induction false} CountInSplit(voxels: map<Key, VoxelAccum>, keys: set<Key>, key: Key)
    requires keys <= voxels.Keys && key in keys
    ensures CountIn(voxels, keys) == voxels[key].count + CountIn(voxels, keys - {key})
  {
    var picked :| picked in keys && CountIn(voxels, keys) == voxels[picked].count + CountIn(voxels, keys - {picked});
    if picked != key {
      CountInSplit(voxels, keys - {picked}, key);
      CountInSplit(voxels, keys - {key}, picked);
      assert keys - {picked} - {key} == keys - {key} - {picked};
    }
  }

  lemma {:induction false} CountInSame(a: map<Key, VoxelAccum>, b: map<Key, VoxelAccum>, keys: set<Key>)
    requires keys <= a.Keys && keys <= b.Keys
    requires forall key | key in keys :: a[key].count == b[key].count
    ensures CountIn(a, keys) == CountIn(b, keys)
  {
    if keys != {} {
      var key :| key in keys;
      CountInSplit(a, keys, key);
      CountInSplit(b, keys, key);
      CountInSame(a, b, keys - {key});
    }
  }

  /** All the points a map holds. */
  ghost function PointCount(m: MapState): nat {
    CountIn(m.voxels, m.voxels.Keys) + |m.raw|
  }

  lemma AddKeptCountsOne(g: Grid, m: MapState, kept: Kept)
    ensures PointCount(AddKept(g, m, kept)) == PointCount(m) + 1
  {
    if kept.key.Some? {
      var key := kept.key.value;
      var after := AddToVoxel(g, m.voxels, key, kept.sample);
      CountInSplit(after, after.Keys, key);
      CountInSame(m.voxels, after, m.voxels.Keys - {key});
      assert after.Keys - {key} == m.voxels.Keys - {key};
      if key in m.voxels {
        CountInSplit(m.voxels, m.voxels.Keys, key);
      } else {
        assert m.voxels.Keys - {key} == m.voxels.Keys;
      }
    }
  }

  /** No point is lost or counted twice: the map grows by the points counted as added. */
  lemma {:induction false} AddedPointsAreInTheMap(g: Grid, m: MapState, kept: seq<Kept>)
    ensures PointCount(AddAllKept(g, m, kept)) == PointCount(m) + |kept|
  {
    if kept != [] {
      AddedPointsAreInTheMap(g, m, kept[..|kept| - 1]);
      AddKeptCountsOne(g, AddAllKept(g, m, kept[..|kept| - 1]), kept[|kept| - 1]);
    }
  }

  // ---- clouds -----------------------------------------------------------------------

  /** What the deskew gate makes of a cloud: no motion to undo, a failure, or new points. */
  datatype Deskew = NotNeeded | DeskewFailed | Deskewed(points: seq<RawPoint>, clamped: nat)

  /** One cloud message with everything the pass looks at.  A deskewed cloud keeps its point count. */
  datatype CloudData = CloudData(bigEndian: bool, hasXyz: bool, hasIntensity: bool, dataComplete: bool,
                                 inSpan: bool, extrinsicOk: bool, deskew: Deskew, how: Placement, points: seq<RawPoint>)

  type Cloud = c: CloudData | c.deskew.Deskewed? ==> |c.deskew.points| == |c.points|
    ghost witness CloudData(true, false, false, false, false, false, NotNeeded,
                            Placement(_ => false, _ => Spot(0, 0, 0), _ => false, _ => Point(0, 0, 0)), [])

  datatype CloudError = BigEndian | NoXyz | NoIntensity | DataTooShort | BadExtrinsic | CannotDeskew

  datatype Stats = Stats(cloudsRead: nat, skippedOutOfSpan: nat, deskewed: nat, added: nat, nonfinite: nat,
                         culled: nat, clamped: nat)
  const ZERO_STATS := Stats(0, 0, 0, 0, 0, 0, 0)

  function WithTally(stats: Stats, t: Tally): Stats {
    stats.(added := stats.added + t.added, nonfinite := stats.nonfinite + t.nonfinite,
           culled := stats.culled + t.culled)
  }

  /** The tests a cloud passes before any of its points is looked at, in the program's order: the
      points to place, nothing when the cloud is skipped, or an error; and the tallies so far. */
  datatype Admission = Admitted(points: seq<RawPoint>) | Skipped | Rejected(error: CloudError)

  function Admit(c: Cloud, stats: Stats): (Admission, Stats) {
    var read := stats.(cloudsRead := stats.cloudsRead + 1);
    if c.bigEndian then (Rejected(BigEndian), read)
    else if !c.hasXyz then (Rejected(NoXyz), read)
    else if !c.hasIntensity then (Rejected(NoIntensity), read)
    else if !c.dataComplete then (Rejected(DataTooShort), read)
    else if !c.inSpan then (Skipped, read.(skippedOutOfSpan := read.skippedOutOfSpan + 1))
    else if !c.extrinsicOk then (Rejected(BadExtrinsic), read)
    else match c.deskew
      case NotNeeded => (Admitted(c.points), read)
      case DeskewFailed => (Rejected(CannotDeskew), read)
      case Deskewed(points, clamped) =>
        (Admitted(points), read.(deskewed := read.deskewed + 1, clamped := read.clamped + clamped))
  }

  /** The single-threaded pass: after each cloud, the map, the tallies, and the error that ended it. */
  datatype PassState = PassState(m: MapState, stats: Stats, error: Option<CloudError>)

  function SerialCloud(g: Grid, before: PassState, c: Cloud): PassState {
    if before.error.Some? then before
    else
      var (admission, stats) := Admit(c, before.stats);
      match admission
      case Rejected(e) => PassState(before.m, stats, Some(e))
      case Skipped => PassState(before.m, stats, None)
      case Admitted(points) =>
        var (m, t) := SerialPoints(g, c.how, (before.m, Tally(0, 0, 0)), points);
        PassState(m, WithTally(stats, t), None)
  }

  function SerialClouds(g: Grid, clouds: seq<Cloud>): PassState {
    if clouds == [] then PassState(EMPTY_MAP, ZERO_STATS, None)
    else SerialCloud(g, SerialClouds(g, clouds[..|clouds| - 1]), clouds[|clouds| - 1])
  }

  lemma AdmittedPointsAreCounted(g: Grid, how: Placement, m: MapState, points: seq<RawPoint>)
    ensures var (after, t) := SerialPoints(g, how, (m, Tally(0, 0, 0)), points);
            t.added + t.nonfinite + t.culled == |points| && PointCount(after) == PointCount(m) + t.added
  {
    var fates := FatesOf(g, how, points);
    SerialAddsTheKept(g, how, m, Tally(0, 0, 0), points);
    TallyCounts(fates);
    AddedPointsAreInTheMap(g, m, KeptOf(fates));
  }

  /** An accepted cloud in the trajectory's span accounts for each of its points once; any other
      cloud leaves the map as it was. */
  lemma CloudIsAccountedFor(g: Grid, before: PassState, c: Cloud)
    requires before.error.None?
    ensures var after, admission := SerialCloud(g, before, c), Admit(c, before.stats).0;
            if admission.Admitted? then
              && after.error.None?
              && after.stats.added + after.stats.nonfinite + after.stats.culled ==
                 before.stats.added + before.stats.nonfinite + before.stats.culled + |c.points|
              && PointCount(after.m) - PointCount(before.m) == after.stats.added - before.stats.added
            else
              && after.m == before.m
              && after.stats.added == before.stats.added
  {
    var (admission, _) := Admit(c, before.stats);
    if admission.Admitted? {
      AdmittedPointsAreCounted(g, c.how, before.m, admission.points);
    }
  }

  // ---- the finished map ---------------------------------------------------------------

  predicate KeyLess(a: Key, b: Key) {
    a.x < b.x || (a.x == b.x && (a.y < b.y || (a.y == b.y && a.z < b.z)))
  }

  datatype Entry = Entry(key: Key, accum: VoxelAccum)

  predicate SortedByKey(entries: seq<Entry>) {
    forall i, j | 0 <= i < j < |entries| :: KeyLess(entries[i].key, entries[j].key)
  }

  /** `entries` lists the voxels, each once. */
  ghost predicate Lists(entries: seq<Entry>, voxels: map<Key, VoxelAccum>) {
    && |entries| == |voxels|
    && (forall e | e in entries :: e.key in voxels && voxels[e.key] == e.accum)
    && (forall i, j | 0 <= i < j < |entries| :: entries[i].key != entries[j].key)
  }

  function Emit(g: Grid, e: Entry): Sample {
    var n := e.accum.count;
    Sample(Point(g.mean(e.accum.x, n), g.mean(e.accum.y, n), g.mean(e.accum.z, n)), g.mean(e.accum.intensity, n))
  }

  /** The cloud that holds `samples`, in order. */
  ghost predicate CloudOf(cloud: PcdCloud, samples: seq<Sample>) {
    && |cloud.points| == |cloud.intensities| == |samples|
    && forall i | 0 <= i < |samples| :: samples[i] == Sample(cloud.points[i], cloud.intensities[i])
  }

  /** What `finish` must return: the points as they came with the grid off; with it on, one point per
      voxel in the order of the voxel index. */
  ghost predicate IsFinished(g: Grid, m: MapState, cloud: PcdCloud) {
    FinishesIn(g, m, cloud, true)
  }

  /** The same, but for the order of the voxels, which is or is not that of the index. */
  ghost predicate FinishesIn(g: Grid, m: MapState, cloud: PcdCloud, inOrder: bool) {
    if !g.gridded then CloudOf(cloud, m.raw)
    else exists entries :: Lists(entries, m.voxels) && Shows(g, entries, cloud) && (SortedByKey(entries) <==> inOrder)
  }

  /** The cloud has the means of the entries, in their order. */
  ghost predicate Shows(g: Grid, entries: seq<Entry>, cloud: PcdCloud) {
    && |cloud.points| == |cloud.intensities| == |entries|
    && forall i | 0 <= i < |entries| :: Emit(g, entries[i]) == Sample(cloud.points[i], cloud.intensities[i])
  }

  lemma ListsEveryKey(entries: seq<Entry>, voxels: map<Key, VoxelAccum>)
    requires Lists(entries, voxels)
    ensures forall key | key in voxels :: exists i :: 0 <= i < |entries| && entries[i].key == key
  {
    var listed := set i | 0 <= i < |entries| :: entries[i].key;
    DistinctKeysCount(entries);
    assert listed <= voxels.Keys;
    if listed != voxels.Keys {
      SubsetIsSmaller(listed, voxels.Keys);
    }
  }

  lemma {:induction false} DistinctKeysCount(entries: seq<Entry>)
    requires forall i, j | 0 <= i < j < |entries| :: entries[i].key != entries[j].key
    ensures |set i | 0 <= i < |entries| :: entries[i].key| == |entries|
  {
    if entries != [] {
      var last := |entries| - 1;
      var front := entries[..last];
      DistinctKeysCount(front);
      var fewer := set i | 0 <= i < |front| :: front[i].key;
      assert (set i | 0 <= i < |entries| :: entries[i].key) == fewer + {entries[last].key};
    }
  }

  lemma SubsetIsSmaller<T>(a: set<T>, b: set<T>)
    requires a < b
    ensures |a| < |b|
  {
    assert b == a + (b - a);
  }

  /** The largest key is last in a sorted list. */
  lemma LastIsLargest(entries: seq<Entry>, voxels: map<Key, VoxelAccum>, key: Key)
    requires Lists(entries, voxels) && SortedByKey(entries) && key in voxels
    ensures entries != []
    ensures key == entries[|entries| - 1].key || KeyLess(key, entries[|entries| - 1].key)
  {
    ListsEveryKey(entries, voxels);
  }

  lemma FrontLists(entries: seq<Entry>, voxels: map<Key, VoxelAccum>)
    requires Lists(entries, voxels) && SortedByKey(entries) && entries != []
    ensures var last := |entries| - 1;
            Lists(entries[..last], voxels - {entries[last].key}) && SortedByKey(entries[..last])
  {
    var last := |entries| - 1;
    assert entries[last] in entries;
    var fewer := voxels - {entries[last].key};
    assert voxels.Keys == fewer.Keys + {entries[last].key};
    assert forall e | e in entries[..last] :: e in entries;
  }

  /** Only one sorted list has the same voxels, so sorting erases every trace of the order in which
      hash containers and partitions delivered them. */
  lemma {:induction false} SortedListIsUnique(a: seq<Entry>, b: seq<Entry>, voxels: map<Key, VoxelAccum>)
    requires Lists(a, voxels) && Lists(b, voxels) && SortedByKey(a) && SortedByKey(b)
    ensures a == b
    decreases |a|
  {
    if a != [] {
      var last := |a| - 1;
      assert a[last] in a && b[last] in b;
      LastIsLargest(a, voxels, b[last].key);
      LastIsLargest(b, voxels, a[last].key);
      FrontLists(a, voxels);
      FrontLists(b, voxels);
      SortedListIsUnique(a[..last], b[..last], voxels - {a[last].key});
      assert a == a[..last] + [a[last]] && b == b[..last] + [b[last]];
    }
  }

  /** There is one finished map. */
  lemma FinishedIsUnique(g: Grid, m: MapState, a: PcdCloud, b: PcdCloud)
    requires IsFinished(g, m, a) && IsFinished(g, m, b)
    ensures a == b
  {
    if g.gridded {
      var ea :| Lists(ea, m.voxels) && Shows(g, ea, a) && SortedByKey(ea);
      var eb :| Lists(eb, m.voxels) && Shows(g, eb, b) && SortedByKey(eb);
      SortedListIsUnique(ea, eb, m.voxels);
      assert forall i | 0 <= i < |ea| :: Sample(a.points[i], a.intensities[i]) == Sample(b.points[i], b.intensities[i]);
    } else {
      assert forall i | 0 <= i < |m.raw| ::
               Sample(a.points[i], a.intensities[i]) == Sample(b.points[i], b.intensities[i]);
    }
    assert a.points == b.points && a.intensities == b.intensities;
  }
}
