/** What the map of a bag must be, said of the raw points alone: every voxel sums, in the order they arrive,
    the points that land in it.  The single-threaded pass is shown to build just that. */
module MapLaw {
  import opened Wrappers
  import opened VoxelMap
  import opened RangeNumbers

  /** A raw point with the placement of its cloud. */
  datatype Arrival = Arrival(how: Placement, raw: RawPoint)

  function Spotted(a: Arrival): Spot { a.how.place(a.raw) }
  function Placed(a: Arrival): Point { a.how.narrow(a.how.place(a.raw)) }

  /** A usable point the views do not reject. */
  predicate InSight(a: Arrival) {
    a.how.finite(a.raw) && a.how.inView(Spotted(a))
  }

  predicate LandsIn(g: Grid, a: Arrival, key: Key) {
    InSight(a) && g.voxelOf(Placed(a)) == Some(key)
  }

  predicate IsCulled(a: Arrival) {
    a.how.finite(a.raw) && !a.how.inView(Spotted(a))
  }

  /** Neither usable nor culled: not finite, or in no voxel. */
  predicate IsUnusable(g: Grid, a: Arrival) {
    !a.how.finite(a.raw) || (InSight(a) && g.gridded && g.voxelOf(Placed(a)).None?)
  }

  // ---- which points arrive ---------------------------------------------------------------------------

  /** A cloud that does not end the pass. */
  predicate IsUsable(c: Cloud) {
    && !c.bigEndian && c.hasXyz && c.hasIntensity && c.dataComplete
    && (c.inSpan ==> c.extrinsicOk && !c.deskew.DeskewFailed?)
  }

  /** What ends the pass at a cloud: the first of its faults. */
  predicate HasFault(c: Cloud, e: CloudError) {
    match e
    case BigEndian => c.bigEndian
    case NoXyz => !c.bigEndian && !c.hasXyz
    case NoIntensity => !c.bigEndian && c.hasXyz && !c.hasIntensity
    case DataTooShort => !c.bigEndian && c.hasXyz && c.hasIntensity && !c.dataComplete
    case BadExtrinsic => !c.bigEndian && c.hasXyz && c.hasIntensity && c.dataComplete && c.inSpan && !c.extrinsicOk
    case CannotDeskew =>
      && !c.bigEndian && c.hasXyz && c.hasIntensity && c.dataComplete && c.inSpan && c.extrinsicOk
      && c.deskew.DeskewFailed?
  }

  /** A cloud's points, with its motion undone where there was any. */
  function PointsOf(c: Cloud): seq<RawPoint> {
    match c.deskew
    case Deskewed(points, _) => points
    case _ => c.points
  }

  function Raws(how: Placement, points: seq<RawPoint>): (arrivals: seq<Arrival>)
    ensures |arrivals| == |points| && forall i | 0 <= i < |points| :: arrivals[i] == Arrival(how, points[i])
  {
    seq(|points|, i requires 0 <= i < |points| => Arrival(how, points[i]))
  }

  /** The points of the clouds in span, cloud after cloud. */
  function Offered(clouds: seq<Cloud>): seq<Arrival> {
    if clouds == [] then []
    else
      var c := clouds[|clouds| - 1];
      Offered(clouds[..|clouds| - 1]) + if c.inSpan then Raws(c.how, PointsOf(c)) else []
  }

  /** Those that land in a voxel, in order. */
  function Landing(g: Grid, offered: seq<Arrival>, key: Key): seq<Arrival> {
    if offered == [] then []
    else
      var a := offered[|offered| - 1];
      Landing(g, offered[..|offered| - 1], key) + if LandsIn(g, a, key) then [a] else []
  }

  function Seen(offered: seq<Arrival>): seq<Arrival> {
    if offered == [] then []
    else
      var a := offered[|offered| - 1];
      Seen(offered[..|offered| - 1]) + if InSight(a) then [a] else []
  }

  // ---- the law -----------------------------------------------------------------------------------------

  /** A running sum, from the left. */
  function Sum(g: Grid, terms: seq<Bits>): Bits {
    if terms == [] then 0 else g.add(Sum(g, terms[..|terms| - 1]), terms[|terms| - 1])
  }

  function Xs(arrivals: seq<Arrival>): seq<Bits> {
    seq(|arrivals|, i requires 0 <= i < |arrivals| => Placed(arrivals[i]).x)
  }

  function Ys(arrivals: seq<Arrival>): seq<Bits> {
    seq(|arrivals|, i requires 0 <= i < |arrivals| => Placed(arrivals[i]).y)
  }

  function Zs(arrivals: seq<Arrival>): seq<Bits> {
    seq(|arrivals|, i requires 0 <= i < |arrivals| => Placed(arrivals[i]).z)
  }

  function Intensities(arrivals: seq<Arrival>): seq<Bits> {
    seq(|arrivals|, i requires 0 <= i < |arrivals| => arrivals[i].raw.intensity)
  }

  /** A voxel holds the sums of what landed in it, and how much that was. */
  predicate SumsUp(g: Grid, landed: seq<Arrival>, accum: VoxelAccum) {
    && accum.x == Sum(g, Xs(landed)) && accum.y == Sum(g, Ys(landed)) && accum.z == Sum(g, Zs(landed))
    && accum.intensity == Sum(g, Intensities(landed)) && accum.count == |landed|
  }

  /** There is a voxel where something landed, and nowhere else. */
  predicate VoxelMeets(g: Grid, offered: seq<Arrival>, voxels: map<Key, VoxelAccum>, key: Key) {
    var landed := Landing(g, offered, key);
    (key in voxels <==> landed != []) && (key in voxels ==> SumsUp(g, landed, voxels[key]))
  }

  /** With the grid off, the points in sight as they came. */
  predicate RawMeets(offered: seq<Arrival>, raw: seq<Sample>) {
    var seen := Seen(offered);
    |raw| == |seen| && forall i | 0 <= i < |raw| :: raw[i] == Sample(Placed(seen[i]), seen[i].raw.intensity)
  }

  ghost predicate MapMeets(g: Grid, offered: seq<Arrival>, m: MapState) {
    if g.gridded then m.raw == [] && forall key :: VoxelMeets(g, offered, m.voxels, key)
    else m.voxels == map[] && RawMeets(offered, m.raw)
  }

  /** A voxel's point is the mean of what landed in it. */
  predicate IsMean(g: Grid, landed: seq<Arrival>, point: Point, intensity: Bits) {
    var n := |landed|;
    && point.x == g.mean(Sum(g, Xs(landed)), n) && point.y == g.mean(Sum(g, Ys(landed)), n)
    && point.z == g.mean(Sum(g, Zs(landed)), n) && intensity == g.mean(Sum(g, Intensities(landed)), n)
  }

  predicate Ascending(keys: seq<Key>) {
    forall i, j | 0 <= i < j < |keys| :: KeyLess(keys[i], keys[j])
  }

  predicate Distinct(keys: seq<Key>) {
    forall i, j | 0 <= i < j < |keys| :: keys[i] != keys[j]
  }

  /** One point per voxel anything landed in, in key order exactly when the sort's range numbers suffice; or
      the points in sight as they came. */
  ghost predicate CloudMeets(g: Grid, offered: seq<Arrival>, cloud: PcdCloud, workers: nat) {
    && |cloud.points| == |cloud.intensities|
    && if g.gridded then exists keys :: KeysMeet(g, offered, keys, cloud, workers)
       else
         var seen := Seen(offered);
         && |cloud.points| == |seen|
         && forall i | 0 <= i < |seen| ::
              cloud.points[i] == Placed(seen[i]) && cloud.intensities[i] == seen[i].raw.intensity
  }

  ghost predicate KeysMeet(g: Grid, offered: seq<Arrival>, keys: seq<Key>, cloud: PcdCloud, workers: nat) {
    && |keys| == |cloud.points| == |cloud.intensities|
    && Distinct(keys) && (forall key :: key in keys <==> Landing(g, offered, key) != [])
    && (forall i | 0 <= i < |keys| ::
          IsMean(g, Landing(g, offered, keys[i]), cloud.points[i], cloud.intensities[i]))
    && (Ascending(keys) <==> RangesSuffice(workers, |keys|))
  }

  // ---- the tallies ---------------------------------------------------------------------------------------

  function CulledIn(offered: seq<Arrival>): nat {
    if offered == [] then 0
    else CulledIn(offered[..|offered| - 1]) + if IsCulled(offered[|offered| - 1]) then 1 else 0
  }

  function UnusableIn(g: Grid, offered: seq<Arrival>): nat {
    if offered == [] then 0
    else UnusableIn(g, offered[..|offered| - 1]) + if IsUnusable(g, offered[|offered| - 1]) then 1 else 0
  }

  function OutOfSpan(clouds: seq<Cloud>): nat {
    if clouds == [] then 0
    else OutOfSpan(clouds[..|clouds| - 1]) + if clouds[|clouds| - 1].inSpan then 0 else 1
  }

  function WithMotion(clouds: seq<Cloud>): nat {
    if clouds == [] then 0
    else
      var c := clouds[|clouds| - 1];
      WithMotion(clouds[..|clouds| - 1]) + if c.inSpan && c.deskew.Deskewed? then 1 else 0
  }

  function Clamped(clouds: seq<Cloud>): nat {
    if clouds == [] then 0
    else
      var c := clouds[|clouds| - 1];
      Clamped(clouds[..|clouds| - 1]) + if c.inSpan && c.deskew.Deskewed? then c.deskew.clamped else 0
  }

  /** Every cloud and every point offered is tallied once. */
  predicate StatsMeet(g: Grid, clouds: seq<Cloud>, stats: Stats) {
    var offered := Offered(clouds);
    && stats.cloudsRead == |clouds| && stats.skippedOutOfSpan == OutOfSpan(clouds)
    && stats.deskewed == WithMotion(clouds) && stats.clamped == Clamped(clouds)
    && stats.culled == CulledIn(offered) && stats.nonfinite == UnusableIn(g, offered)
    && stats.added + stats.culled + stats.nonfinite == |offered|
  }

  /** The pass ends without an error exactly when every cloud is usable; otherwise with the first fault of the
      first that is not. */
  ghost predicate ErrorMeets(clouds: seq<Cloud>, error: Option<CloudError>) {
    match error
    case None => forall c | c in clouds :: IsUsable(c)
    case Some(e) => exists j :: 0 <= j < |clouds| && HasFault(clouds[j], e)
                                && forall i | 0 <= i < j :: IsUsable(clouds[i])
  }

  // ---- the single-threaded pass meets it --------------------------------------------------------------

  lemma LandingSnoc(g: Grid, offered: seq<Arrival>, a: Arrival, key: Key)
    ensures Landing(g, offered + [a], key) == Landing(g, offered, key) + if LandsIn(g, a, key) then [a] else []
  {
    assert (offered + [a])[..|offered|] == offered;
  }

  lemma SeenSnoc(offered: seq<Arrival>, a: Arrival)
    ensures Seen(offered + [a]) == Seen(offered) + if InSight(a) then [a] else []
  {
    assert (offered + [a])[..|offered|] == offered;
  }

  lemma CountsSnoc(g: Grid, offered: seq<Arrival>, a: Arrival)
    ensures CulledIn(offered + [a]) == CulledIn(offered) + if IsCulled(a) then 1 else 0
    ensures UnusableIn(g, offered + [a]) == UnusableIn(g, offered) + if IsUnusable(g, a) then 1 else 0
  {
    assert (offered + [a])[..|offered|] == offered;
  }

  lemma SumSnoc(g: Grid, terms: seq<Bits>, term: Bits)
    ensures Sum(g, terms + [term]) == g.add(Sum(g, terms), term)
  {
    assert (terms + [term])[..|terms|] == terms;
  }

  /** One point more in a voxel adds its coordinates to the sums. */
  lemma AddedSumsUp(g: Grid, landed: seq<Arrival>, accum: VoxelAccum, a: Arrival)
    requires SumsUp(g, landed, accum)
    ensures SumsUp(g, landed + [a], AddPoint(g, accum, SampleOf(a.how, a.raw)))
  {
    assert Xs(landed + [a]) == Xs(landed) + [Placed(a).x];
    assert Ys(landed + [a]) == Ys(landed) + [Placed(a).y];
    assert Zs(landed + [a]) == Zs(landed) + [Placed(a).z];
    assert Intensities(landed + [a]) == Intensities(landed) + [a.raw.intensity];
    SumSnoc(g, Xs(landed), Placed(a).x);
    SumSnoc(g, Ys(landed), Placed(a).y);
    SumSnoc(g, Zs(landed), Placed(a).z);
    SumSnoc(g, Intensities(landed), a.raw.intensity);
  }

  lemma VoxelUntouched(g: Grid, offered: seq<Arrival>, voxels: map<Key, VoxelAccum>, a: Arrival, key: Key)
    requires VoxelMeets(g, offered, voxels, key) && !LandsIn(g, a, key)
    ensures VoxelMeets(g, offered + [a], voxels, key)
  {
    LandingSnoc(g, offered, a, key);
    assert Landing(g, offered, key) + [] == Landing(g, offered, key);
  }

  lemma VoxelOneMore(g: Grid, offered: seq<Arrival>, voxels: map<Key, VoxelAccum>, a: Arrival, home: Key, key: Key)
    requires VoxelMeets(g, offered, voxels, key) && LandsIn(g, a, home)
    ensures VoxelMeets(g, offered + [a], AddToVoxel(g, voxels, home, SampleOf(a.how, a.raw)), key)
  {
    if key == home {
      LandingSnoc(g, offered, a, key);
      AddedSumsUp(g, Landing(g, offered, key), AccumOf(voxels, key), a);
    } else {
      VoxelUntouched(g, offered, voxels, a, key);
    }
  }

  lemma PointMeets(g: Grid, how: Placement, m: MapState, t: Tally, offered: seq<Arrival>, raw: RawPoint)
    requires MapMeets(g, offered, m)
    ensures MapMeets(g, offered + [Arrival(how, raw)], SerialPoint(g, how, (m, t), raw).0)
  {
    if g.gridded {
      VoxelsMeet(g, how, m, t, offered, raw);
    } else {
      SeenSnoc(offered, Arrival(how, raw));
    }
  }

  lemma VoxelsMeet(g: Grid, how: Placement, m: MapState, t: Tally, offered: seq<Arrival>, raw: RawPoint)
    requires g.gridded && MapMeets(g, offered, m)
    ensures var after := SerialPoint(g, how, (m, t), raw).0;
            after.raw == [] && forall key :: VoxelMeets(g, offered + [Arrival(how, raw)], after.voxels, key)
  {
    var a := Arrival(how, raw);
    var home := if InSight(a) then g.voxelOf(Placed(a)) else None;
    VoxelsAfter(g, how, m, t, raw);
    forall key
      ensures VoxelMeets(g, offered + [a], SerialPoint(g, how, (m, t), raw).0.voxels, key)
    {
      if home.Some? {
        VoxelOneMore(g, offered, m.voxels, a, home.value, key);
      } else {
        VoxelUntouched(g, offered, m.voxels, a, key);
      }
    }
  }

  lemma VoxelsAfter(g: Grid, how: Placement, m: MapState, t: Tally, raw: RawPoint)
    requires g.gridded
    ensures var a, after := Arrival(how, raw), SerialPoint(g, how, (m, t), raw).0;
            && after.raw == m.raw
            && after.voxels == if InSight(a) && g.voxelOf(Placed(a)).Some?
                               then AddToVoxel(g, m.voxels, g.voxelOf(Placed(a)).value, SampleOf(how, raw))
                               else m.voxels
  {
  }

  /** The tallies of the points so far. */
  predicate TallyMeets(g: Grid, offered: seq<Arrival>, t: Tally) {
    && t.culled == CulledIn(offered) && t.nonfinite == UnusableIn(g, offered)
    && t.added + t.culled + t.nonfinite == |offered|
  }

  lemma {:induction false} PointsMeet(g: Grid, how: Placement, m: MapState, t: Tally, offered: seq<Arrival>,
                                      points: seq<RawPoint>)
    requires MapMeets(g, offered, m) && TallyMeets(g, offered, t)
    ensures MapMeets(g, offered + Raws(how, points), SerialPoints(g, how, (m, t), points).0)
    ensures TallyMeets(g, offered + Raws(how, points), SerialPoints(g, how, (m, t), points).1)
  {
    if points == [] {
      assert offered + Raws(how, points) == offered;
    } else {
      var front, last := points[..|points| - 1], points[|points| - 1];
      PointsMeet(g, how, m, t, offered, front);
      var (before, tally) := SerialPoints(g, how, (m, t), front);
      assert offered + Raws(how, points) == (offered + Raws(how, front)) + [Arrival(how, last)];
      PointMeets(g, how, before, tally, offered + Raws(how, front), last);
      CountsSnoc(g, offered + Raws(how, front), Arrival(how, last));
    }
  }

  // ---- cloud after cloud --------------------------------------------------------------------------------

  lemma AdmitIsUsable(c: Cloud, stats: Stats)
    ensures var (admission, after) := Admit(c, stats);
            match admission
            case Rejected(e) => !IsUsable(c) && HasFault(c, e)
            case Skipped =>
              && IsUsable(c) && !c.inSpan
              && after == stats.(cloudsRead := stats.cloudsRead + 1, skippedOutOfSpan := stats.skippedOutOfSpan + 1)
            case Admitted(points) =>
              && IsUsable(c) && c.inSpan && points == PointsOf(c)
              && after == if !c.deskew.Deskewed? then stats.(cloudsRead := stats.cloudsRead + 1)
                          else stats.(cloudsRead := stats.cloudsRead + 1, deskewed := stats.deskewed + 1,
                                      clamped := stats.clamped + c.deskew.clamped)
  {
  }

  lemma CloudsSnoc(clouds: seq<Cloud>, c: Cloud)
    ensures OutOfSpan(clouds + [c]) == OutOfSpan(clouds) + if c.inSpan then 0 else 1
    ensures WithMotion(clouds + [c]) == WithMotion(clouds) + if c.inSpan && c.deskew.Deskewed? then 1 else 0
    ensures Clamped(clouds + [c]) ==
            Clamped(clouds) + if c.inSpan && c.deskew.Deskewed? then c.deskew.clamped else 0
    ensures Offered(clouds + [c]) == Offered(clouds) + if c.inSpan then Raws(c.how, PointsOf(c)) else []
  {
    assert (clouds + [c])[..|clouds|] == clouds;
  }

  lemma CloudMeetsOneMore(g: Grid, clouds: seq<Cloud>, before: PassState, c: Cloud)
    requires before.error.None? && IsUsable(c)
    requires MapMeets(g, Offered(clouds), before.m) && StatsMeet(g, clouds, before.stats)
    ensures var after := SerialCloud(g, before, c);
            && after.error.None?
            && MapMeets(g, Offered(clouds + [c]), after.m) && StatsMeet(g, clouds + [c], after.stats)
  {
    AdmitIsUsable(c, before.stats);
    CloudsSnoc(clouds, c);
    if c.inSpan {
      var own := SerialPoints(g, c.how, (before.m, Tally(0, 0, 0)), PointsOf(c));
      CloudInSpanMeets(g, Offered(clouds), before.m, before.stats, c.how, PointsOf(c), own.0, own.1);
    } else {
      assert Offered(clouds) + [] == Offered(clouds);
    }
  }

  lemma CloudInSpanMeets(g: Grid, offered: seq<Arrival>, m: MapState, stats: Stats, how: Placement,
                         points: seq<RawPoint>, after: MapState, own: Tally)
    requires MapMeets(g, offered, m) && TallyMeets(g, offered, Tally(stats.added, stats.nonfinite, stats.culled))
    requires (after, own) == SerialPoints(g, how, (m, Tally(0, 0, 0)), points)
    ensures MapMeets(g, offered + Raws(how, points), after)
    ensures TallyMeets(g, offered + Raws(how, points),
                       Tally(stats.added + own.added, stats.nonfinite + own.nonfinite, stats.culled + own.culled))
  {
    var t := Tally(stats.added, stats.nonfinite, stats.culled);
    PointsMeet(g, how, m, t, offered, points);
    TalliesAdd(g, how, m, t, points);
  }

  /** A cloud tallied by itself and added to the rest is tallied on. */
  lemma TalliesAdd(g: Grid, how: Placement, m: MapState, t: Tally, points: seq<RawPoint>)
    ensures var own := SerialPoints(g, how, (m, Tally(0, 0, 0)), points);
            SerialPoints(g, how, (m, t), points) == (own.0, TallySum(t, own.1))
  {
    SerialAddsTheKept(g, how, m, t, points);
    SerialAddsTheKept(g, how, m, Tally(0, 0, 0), points);
  }

  /** A pass without an error: the map and the tallies. */
  lemma {:induction false} SerialCloudsMeet(g: Grid, clouds: seq<Cloud>)
    ensures ErrorMeets(clouds, SerialClouds(g, clouds).error)
    ensures SerialClouds(g, clouds).error.None? ==>
              && MapMeets(g, Offered(clouds), SerialClouds(g, clouds).m)
              && StatsMeet(g, clouds, SerialClouds(g, clouds).stats)
  {
    if clouds != [] {
      var front, last := clouds[..|clouds| - 1], clouds[|clouds| - 1];
      SerialCloudsMeet(g, front);
      assert clouds == front + [last];
      var before := SerialClouds(g, front);
      if before.error.None? {
        AdmitIsUsable(last, before.stats);
        if IsUsable(last) {
          CloudMeetsOneMore(g, front, before, last);
        } else {
          FirstError(front, last, SerialClouds(g, clouds).error.value);
        }
      } else {
        ErrorStays(front, last, before.error.value);
      }
    }
  }

  lemma ErrorStays(clouds: seq<Cloud>, c: Cloud, e: CloudError)
    requires ErrorMeets(clouds, Some(e))
    ensures ErrorMeets(clouds + [c], Some(e))
  {
    var j :| 0 <= j < |clouds| && HasFault(clouds[j], e) && forall i | 0 <= i < j :: IsUsable(clouds[i]);
    assert (clouds + [c])[j] == clouds[j];
  }

  lemma FirstError(clouds: seq<Cloud>, c: Cloud, e: CloudError)
    requires ErrorMeets(clouds, None) && HasFault(c, e)
    ensures ErrorMeets(clouds + [c], Some(e))
  {
    assert (clouds + [c])[|clouds|] == c;
  }

  /** A cloud that shows the voxels shows the means of what landed in them. */
  lemma FinishedMeets(g: Grid, clouds: seq<Cloud>, m: MapState, cloud: PcdCloud, workers: nat)
    requires MapMeets(g, Offered(clouds), m)
    requires FinishesIn(g, m, cloud, RangesSuffice(workers, |m.voxels|))
    ensures CloudMeets(g, Offered(clouds), cloud, workers)
  {
    if g.gridded {
      var entries :| Lists(entries, m.voxels) && Shows(g, entries, cloud)
                     && (SortedByKey(entries) <==> RangesSuffice(workers, |m.voxels|));
      VoxelCloudMeets(g, Offered(clouds), m, entries, cloud, workers);
    } else {
      RawCloudMeets(Offered(clouds), m.raw, cloud);
    }
  }

  lemma RawCloudMeets(offered: seq<Arrival>, raw: seq<Sample>, cloud: PcdCloud)
    requires RawMeets(offered, raw) && CloudOf(cloud, raw)
    ensures |cloud.points| == |cloud.intensities| == |Seen(offered)|
    ensures forall i | 0 <= i < |Seen(offered)| ::
              cloud.points[i] == Placed(Seen(offered)[i]) && cloud.intensities[i] == Seen(offered)[i].raw.intensity
  {
    forall i | 0 <= i < |raw|
      ensures cloud.points[i] == raw[i].point && cloud.intensities[i] == raw[i].intensity
    {
      assert raw[i] == Sample(cloud.points[i], cloud.intensities[i]);
    }
  }

  lemma VoxelCloudMeets(g: Grid, offered: seq<Arrival>, m: MapState, entries: seq<Entry>, cloud: PcdCloud,
                        workers: nat)
    requires g.gridded && MapMeets(g, offered, m) && Lists(entries, m.voxels) && Shows(g, entries, cloud)
    requires SortedByKey(entries) <==> RangesSuffice(workers, |m.voxels|)
    ensures CloudMeets(g, offered, cloud, workers)
  {
    var keys := KeysOf(entries);
    EntriesMeet(g, offered, m, entries, keys, cloud);
    AscendingKeys(entries);
    assert KeysMeet(g, offered, keys, cloud, workers);
  }

  lemma AscendingKeys(entries: seq<Entry>)
    ensures Ascending(KeysOf(entries)) <==> SortedByKey(entries)
  {
    var keys := KeysOf(entries);
    assert forall i | 0 <= i < |keys| :: keys[i] == entries[i].key;
    assert forall i, j | 0 <= i < j < |keys| :: KeyLess(keys[i], keys[j]) <==> KeyLess(entries[i].key, entries[j].key);
  }

  function KeysOf(entries: seq<Entry>): (keys: seq<Key>)
    ensures |keys| == |entries| && forall i | 0 <= i < |keys| :: keys[i] == entries[i].key
  {
    seq(|entries|, i requires 0 <= i < |entries| => entries[i].key)
  }

  lemma EntriesMeet(g: Grid, offered: seq<Arrival>, m: MapState, entries: seq<Entry>, keys: seq<Key>, cloud: PcdCloud)
    requires g.gridded && MapMeets(g, offered, m) && Lists(entries, m.voxels) && Shows(g, entries, cloud)
    requires |keys| == |entries| && forall i | 0 <= i < |keys| :: keys[i] == entries[i].key
    ensures Distinct(keys) && forall key :: key in keys <==> Landing(g, offered, key) != []
    ensures forall i | 0 <= i < |keys| ::
              IsMean(g, Landing(g, offered, keys[i]), cloud.points[i], cloud.intensities[i])
  {
    ListsEveryKey(entries, m.voxels);
    forall key
      ensures key in keys <==> Landing(g, offered, key) != []
    {
      assert VoxelMeets(g, offered, m.voxels, key);
      if key in m.voxels {
        var i :| 0 <= i < |entries| && entries[i].key == key;
        assert keys[i] in keys;
      }
      if key in keys {
        var i :| 0 <= i < |keys| && keys[i] == key;
        assert entries[i] in entries;
      }
    }
    forall i | 0 <= i < |keys|
      ensures IsMean(g, Landing(g, offered, keys[i]), cloud.points[i], cloud.intensities[i])
    {
      assert entries[i] in entries && VoxelMeets(g, offered, m.voxels, keys[i]);
      assert Emit(g, entries[i]) == Sample(cloud.points[i], cloud.intensities[i]);
    }
  }
}
