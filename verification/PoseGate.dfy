/** Keyframe gating: runs of poses that hardly differ form one interval, a few intervals are picked, a
    few frames of each are decoded, and the sharpest of each stays. */
module PoseGate {
  import opened Wrappers
  import opened SamplePicks

  /** How far apart two poses of the list are, in place and in angle. */
  datatype Motion = Motion(dist: (nat, nat) -> real, angle: (nat, nat) -> real)

  /** The two thresholds; one that is not positive is off. */
  datatype Gate = Gate(minDist: real, minRot: real)

  predicate Crosses(motion: Motion, gate: Gate, a: nat, b: nat) {
    || (gate.minDist > 0.0 && motion.dist(a, b) >= gate.minDist)
    || (gate.minRot > 0.0 && motion.angle(a, b) >= gate.minRot)
  }

  datatype Interval = Interval(begin: nat, end: nat)

  /** The intervals follow on one another from `from` up to `n`, none empty. */
  predicate Tiles(intervals: seq<Interval>, from: nat, n: nat) {
    && (forall k | 0 <= k < |intervals| :: intervals[k].begin < intervals[k].end)
    && (forall k | 0 <= k < |intervals| - 1 :: intervals[k].end == intervals[k + 1].begin)
    && (if intervals == [] then from == n else intervals[0].begin == from && intervals[|intervals| - 1].end == n)
  }

  /** No member has moved from its interval's first pose, and the first pose of the next has. */
  ghost predicate Gated(motion: Motion, gate: Gate, intervals: seq<Interval>) {
    && (forall k, i: nat | 0 <= k < |intervals| && intervals[k].begin < i < intervals[k].end ::
          !Crosses(motion, gate, intervals[k].begin, i))
    && (forall k | 0 <= k < |intervals| - 1 :: Crosses(motion, gate, intervals[k].begin, intervals[k + 1].begin))
  }

  method PoseGateIntervals(motion: Motion, gate: Gate, n: nat) returns (intervals: seq<Interval>)
    ensures Tiles(intervals, 0, n) && Gated(motion, gate, intervals) && intervals == Cuts(motion, gate, 0, n)
    ensures n > 0 && gate.minDist <= 0.0 && gate.minRot <= 0.0 ==> intervals == [Interval(0, n)]
  {
    intervals := [];
    if n == 0 {
      return;
    }
    var anchor := 0;
    for i := 1 to n
      invariant anchor < i && Tiles(intervals, 0, anchor) && Gated(motion, gate, intervals)
      invariant intervals != [] ==> Crosses(motion, gate, intervals[|intervals| - 1].begin, anchor)
      invariant forall k: nat | anchor < k < i :: !Crosses(motion, gate, anchor, k)
      invariant gate.minDist <= 0.0 && gate.minRot <= 0.0 ==> intervals == []
    {
      var moved := gate.minDist > 0.0 && motion.dist(anchor, i) >= gate.minDist;
      var rotated := gate.minRot > 0.0 && motion.angle(anchor, i) >= gate.minRot;
      if moved || rotated {
        OneMoreInterval(motion, gate, intervals, anchor, i);
        intervals := intervals + [Interval(anchor, i)];
        anchor := i;
      }
    }
    OneMoreInterval(motion, gate, intervals, anchor, n);
    intervals := intervals + [Interval(anchor, n)];
    GatedIntervalsAreUnique(motion, gate, intervals, 0, n);
  }

  lemma OneMoreInterval(motion: Motion, gate: Gate, intervals: seq<Interval>, anchor: nat, end: nat)
    requires anchor < end && Tiles(intervals, 0, anchor) && Gated(motion, gate, intervals)
    requires intervals != [] ==> Crosses(motion, gate, intervals[|intervals| - 1].begin, anchor)
    requires forall k: nat | anchor < k < end :: !Crosses(motion, gate, anchor, k)
    ensures Tiles(intervals + [Interval(anchor, end)], 0, end)
    ensures Gated(motion, gate, intervals + [Interval(anchor, end)])
  {
    OneMoreTile(intervals, anchor, end);
    var after := intervals + [Interval(anchor, end)];
    forall k | 0 <= k < |after| - 1
      ensures Crosses(motion, gate, after[k].begin, after[k + 1].begin)
    {
      assert k < |intervals| - 1 ==> after[k] == intervals[k] && after[k + 1] == intervals[k + 1];
    }
  }

  lemma OneMoreTile(intervals: seq<Interval>, anchor: nat, end: nat)
    requires anchor < end && Tiles(intervals, 0, anchor)
    ensures Tiles(intervals + [Interval(anchor, end)], 0, end)
  {
  }

  lemma {:induction false} TilesWithin(intervals: seq<Interval>, from: nat, n: nat)
    requires Tiles(intervals, from, n)
    ensures from <= n && (intervals != [] ==> from < n && intervals[0].end <= n)
    decreases |intervals|
  {
    if |intervals| > 1 {
      TilesWithin(intervals[1..], intervals[0].end, n);
    }
  }

  lemma LaterIntervals(motion: Motion, gate: Gate, intervals: seq<Interval>, from: nat, n: nat)
    requires intervals != [] && Tiles(intervals, from, n) && Gated(motion, gate, intervals)
    ensures Tiles(intervals[1..], intervals[0].end, n) && Gated(motion, gate, intervals[1..])
    ensures intervals[0].end < n ==> |intervals| > 1 && Crosses(motion, gate, from, intervals[0].end)
    ensures forall i: nat | from < i < intervals[0].end :: !Crosses(motion, gate, from, i)
  {
  }

  /** The first pose from `i` on that has moved from the anchor; `n` if none has. */
  function NextCut(motion: Motion, gate: Gate, anchor: nat, i: nat, n: nat): (e: nat)
    requires i <= n
    ensures i <= e <= n && (e < n ==> Crosses(motion, gate, anchor, e))
    ensures forall k: nat | i <= k < e :: !Crosses(motion, gate, anchor, k)
    decreases n - i
  {
    if i == n || Crosses(motion, gate, anchor, i) then i else NextCut(motion, gate, anchor, i + 1, n)
  }

  function Cuts(motion: Motion, gate: Gate, from: nat, n: nat): seq<Interval>
    requires from <= n
    decreases n - from
  {
    if from == n then []
    else
      var e := NextCut(motion, gate, from, from + 1, n);
      [Interval(from, e)] + Cuts(motion, gate, e, n)
  }

  /** The gate leaves no choice: there is one way to cut. */
  lemma {:induction false} GatedIntervalsAreUnique(motion: Motion, gate: Gate, intervals: seq<Interval>, from: nat,
                                                   n: nat)
    requires Tiles(intervals, from, n) && Gated(motion, gate, intervals)
    ensures from <= n && intervals == Cuts(motion, gate, from, n)
    decreases |intervals|
  {
    TilesWithin(intervals, from, n);
    if intervals != [] {
      var e := intervals[0].end;
      LaterIntervals(motion, gate, intervals, from, n);
      GatedIntervalsAreUnique(motion, gate, intervals[1..], e, n);
      SameCut(motion, gate, from, e, n);
      assert intervals == [Interval(from, e)] + intervals[1..];
    }
  }

  lemma SameCut(motion: Motion, gate: Gate, from: nat, e: nat, n: nat)
    requires from < e <= n && (e < n ==> Crosses(motion, gate, from, e))
    requires forall i: nat | from < i < e :: !Crosses(motion, gate, from, i)
    ensures NextCut(motion, gate, from, from + 1, n) == e
  {
  }

  // ---- picks, a few to an interval -----------------------------------------------------------------

  const MAX_SCORED := 8

  /** The picks, the group each belongs to, and the number of intervals there were. */
  datatype GatedPicks = GatedPicks(picks: seq<nat>, groupOf: seq<nat>, intervals: nat)

  predicate NonDecreasing(s: seq<nat>) {
    forall i, j | 0 <= i < j < |s| :: s[i] <= s[j]
  }

  type Pose = nat

  /** An image topic against a trajectory: the stamps, the trimmed span, and the pose at a stamp if the
      trajectory can be interpolated there. */
  datatype Recording = Recording(stamps: seq<int>, begin: int, end: int, margin: int, poseAt: int -> Option<Pose>)

  /** How far apart two poses are, in place and in angle. */
  datatype Metric = Metric(dist: (Pose, Pose) -> real, angle: (Pose, Pose) -> real)

  predicate CanGate(rec: Recording, i: nat) {
    IsEligible(rec.stamps, rec.begin, rec.end, rec.margin, i) && rec.poseAt(rec.stamps[i]).Some?
  }

  /** The frames of a list whose pose is known, in order. */
  function WithPose(rec: Recording, frames: seq<nat>): (r: seq<nat>)
    requires AllBelowNumber(frames, |rec.stamps|)
    ensures AllBelowNumber(r, |rec.stamps|)
    ensures forall i: nat :: i in r <==> i in frames && i < |rec.stamps| && rec.poseAt(rec.stamps[i]).Some?
  {
    if frames == [] then []
    else
      var front, last := frames[..|frames| - 1], frames[|frames| - 1];
      assert frames == front + [last];
      if rec.poseAt(rec.stamps[last]).Some? then WithPose(rec, front) + [last] else WithPose(rec, front)
  }

  lemma {:induction false} WithPoseIncreases(rec: Recording, frames: seq<nat>)
    requires AllBelowNumber(frames, |rec.stamps|) && Increasing(frames)
    ensures Increasing(WithPose(rec, frames))
  {
    if frames != [] {
      var front, last := frames[..|frames| - 1], frames[|frames| - 1];
      WithPoseIncreases(rec, front);
      var before := WithPose(rec, front);
      forall k | 0 <= k < |before|
        ensures before[k] < last
      {
        assert before[k] in front;
      }
    }
  }

  /** The frames that are gated: the eligible ones whose pose is known. */
  function Gateable(rec: Recording): (frames: seq<nat>)
    ensures Increasing(frames) && AllBelowNumber(frames, |rec.stamps|)
    ensures forall i: nat :: i in frames <==> CanGate(rec, i)
  {
    var eligible := Eligible(rec.stamps, rec.begin, rec.end, rec.margin, |rec.stamps|);
    assert forall k | 0 <= k < |eligible| :: eligible[k] in eligible;
    WithPoseIncreases(rec, eligible);
    WithPose(rec, eligible)
  }

  function PoseOf(rec: Recording, i: nat): Pose
    requires i < |rec.stamps|
  {
    match rec.poseAt(rec.stamps[i])
    case Some(pose) => pose
    case None => 0
  }

  function PosesOf(rec: Recording, frames: seq<nat>): (poses: seq<Pose>)
    requires AllBelowNumber(frames, |rec.stamps|)
    ensures |poses| == |frames|
  {
    if frames == [] then []
    else PosesOf(rec, frames[..|frames| - 1]) + [PoseOf(rec, frames[|frames| - 1])]
  }

  function MotionOver(metric: Metric, poses: seq<Pose>): Motion {
    Motion((a: nat, b: nat) => if a < |poses| && b < |poses| then metric.dist(poses[a], poses[b]) else 0.0,
           (a: nat, b: nat) => if a < |poses| && b < |poses| then metric.angle(poses[a], poses[b]) else 0.0)
  }

  /** The one way to cut what is gated into intervals. */
  function GateCuts(rec: Recording, metric: Metric, gate: Gate): seq<Interval> {
    var frames := Gateable(rec);
    Cuts(MotionOver(metric, PosesOf(rec, frames)), gate, 0, |frames|)
  }

  /** From one frame to another the pose moves or turns as much as the gate asks. */
  predicate Moves(rec: Recording, metric: Metric, gate: Gate, i: nat, j: nat)
    requires CanGate(rec, i) && CanGate(rec, j)
  {
    var a, b := rec.poseAt(rec.stamps[i]).value, rec.poseAt(rec.stamps[j]).value;
    || (gate.minDist > 0.0 && metric.dist(a, b) >= gate.minDist)
    || (gate.minRot > 0.0 && metric.angle(a, b) >= gate.minRot)
  }

  /** From the `a`-th to the `b`-th of some frames the pose moves, or does not. */
  predicate MovesAsSaid(rec: Recording, metric: Metric, gate: Gate, frames: seq<nat>, a: nat, b: nat, moves: bool) {
    && a < |frames| && b < |frames| && CanGate(rec, frames[a]) && CanGate(rec, frames[b])
    && (Moves(rec, metric, gate, frames[a], frames[b]) <==> moves)
  }

  /** The intervals tile the gated frames; no frame has moved from its interval's first, the next interval's
      first has. */
  ghost predicate CutsMeet(rec: Recording, metric: Metric, gate: Gate, intervals: seq<Interval>) {
    var gated := Gateable(rec);
    && Tiles(intervals, 0, |gated|)
    && (forall k, i: nat | 0 <= k < |intervals| && intervals[k].begin < i < intervals[k].end ::
          MovesAsSaid(rec, metric, gate, gated, intervals[k].begin, i, false))
    && (forall k | 0 <= k < |intervals| - 1 ::
          MovesAsSaid(rec, metric, gate, gated, intervals[k].begin, intervals[k + 1].begin, true))
  }

  lemma GateCutsMeet(rec: Recording, metric: Metric, gate: Gate, intervals: seq<Interval>)
    requires var gated := Gateable(rec);
             && Tiles(intervals, 0, |gated|) && Gated(MotionOver(metric, PosesOf(rec, gated)), gate, intervals)
    ensures CutsMeet(rec, metric, gate, intervals)
  {
    var gated := Gateable(rec);
    forall k, i: nat | 0 <= k < |intervals| && intervals[k].begin < i < intervals[k].end
      ensures MovesAsSaid(rec, metric, gate, gated, intervals[k].begin, i, false)
    {
      IntervalEnds(intervals, 0, |gated|, k);
      CrossingIsMoving(rec, metric, gate, intervals[k].begin, i);
    }
    forall k | 0 <= k < |intervals| - 1
      ensures MovesAsSaid(rec, metric, gate, gated, intervals[k].begin, intervals[k + 1].begin, true)
    {
      IntervalEnds(intervals, 0, |gated|, k);
      IntervalEnds(intervals, 0, |gated|, k + 1);
      CrossingIsMoving(rec, metric, gate, intervals[k].begin, intervals[k + 1].begin);
    }
  }

  lemma CrossingIsMoving(rec: Recording, metric: Metric, gate: Gate, a: nat, b: nat)
    requires a < |Gateable(rec)| && b < |Gateable(rec)|
    ensures var gated := Gateable(rec);
            var crosses := Crosses(MotionOver(metric, PosesOf(rec, gated)), gate, a, b);
            MovesAsSaid(rec, metric, gate, gated, a, b, crosses)
  {
    var gated := Gateable(rec);
    assert gated[a] in gated && gated[b] in gated;
    PoseAt(rec, gated, a);
    PoseAt(rec, gated, b);
  }

  lemma {:induction false} PoseAt(rec: Recording, frames: seq<nat>, k: nat)
    requires AllBelowNumber(frames, |rec.stamps|) && k < |frames|
    ensures PosesOf(rec, frames)[k] == PoseOf(rec, frames[k])
  {
    if k < |frames| - 1 {
      PoseAt(rec, frames[..|frames| - 1], k);
    }
  }

  lemma GateOneMore(rec: Recording, eligible: seq<nat>, k: nat)
    requires AllBelowNumber(eligible, |rec.stamps|) && k < |eligible|
    ensures var i, before := eligible[k], WithPose(rec, eligible[..k]);
            var after := WithPose(rec, eligible[..k + 1]);
            if rec.poseAt(rec.stamps[i]).Some?
            then after == before + [i] && PosesOf(rec, after) == PosesOf(rec, before) + [PoseOf(rec, i)]
            else after == before
  {
    var before := WithPose(rec, eligible[..k]);
    assert eligible[..k + 1][..k] == eligible[..k];
    assert (before + [eligible[k]])[..|before|] == before;
  }

  method GatedFrames(rec: Recording) returns (frames: seq<nat>, poses: seq<Pose>)
    ensures frames == Gateable(rec) && poses == PosesOf(rec, frames)
  {
    var eligible := EligibleSampleIndices(rec.stamps, rec.begin, rec.end, rec.margin);
    assert forall k | 0 <= k < |eligible| :: eligible[k] in eligible;
    frames, poses := [], [];
    for k := 0 to |eligible|
      invariant frames == WithPose(rec, eligible[..k]) && poses == PosesOf(rec, frames)
    {
      GateOneMore(rec, eligible, k);
      var pose := rec.poseAt(rec.stamps[eligible[k]]);
      if pose.Some? {
        frames, poses := frames + [eligible[k]], poses + [pose.value];
      }
    }
    assert eligible[..|eligible|] == eligible;
  }

  lemma {:induction false} IntervalsInOrder(intervals: seq<Interval>, from: nat, n: nat, i: nat, j: nat)
    requires Tiles(intervals, from, n) && i < j < |intervals|
    ensures intervals[i].end <= intervals[j].begin
    decreases j
  {
    if i + 1 < j {
      IntervalsInOrder(intervals, from, n, i, j - 1);
    }
  }

  lemma {:induction false} IntervalEnds(intervals: seq<Interval>, from: nat, n: nat, i: nat)
    requires Tiles(intervals, from, n) && i < |intervals|
    ensures intervals[i].end <= n
  {
    if i < |intervals| - 1 {
      IntervalsInOrder(intervals, from, n, i, |intervals| - 1);
    }
  }

  predicate AllBelowNumber(s: seq<nat>, bound: nat) {
    forall k | 0 <= k < |s| :: s[k] < bound
  }

  /** Group `c` is a stretch of the frames, evenly spread over the interval. */
  ghost predicate GroupSpreads(interval: Interval, c: nat, at: seq<nat>, groupOf: seq<nat>) {
    && |groupOf| == |at| && interval.begin < interval.end
    && exists lo: nat, members: seq<nat> ::
         SpreadEvenly(interval.end - interval.begin, MAX_SCORED, members)
         && IsGroup(interval.begin, c, at, groupOf, lo, members)
  }

  /** The frames of group `c` are those from `lo` on, at the members' distances from the interval's begin. */
  predicate IsGroup(begin: nat, c: nat, at: seq<nat>, groupOf: seq<nat>, lo: nat, members: seq<nat>)
    requires |groupOf| == |at|
  {
    && lo + |members| <= |at|
    && (forall k | 0 <= k < |at| :: groupOf[k] == c <==> lo <= k < lo + |members|)
    && forall k | 0 <= k < |members| :: at[lo + k] == begin + members[k]
  }

  ghost predicate GroupsSpread(intervals: seq<Interval>, chosen: seq<nat>, g: nat, at: seq<nat>, groupOf: seq<nat>)
    requires g <= |chosen| && AllBelowNumber(chosen, |intervals|)
  {
    forall c | 0 <= c < g :: GroupSpreads(intervals[chosen[c]], c, at, groupOf)
  }

  /** The frames at `at` belong to the first `g` chosen intervals, group by group and in order. */
  predicate Nominated(intervals: seq<Interval>, chosen: seq<nat>, g: nat, at: seq<nat>, groupOf: seq<nat>)
    requires g <= |chosen| && AllBelowNumber(chosen, |intervals|)
  {
    && Increasing(at) && NonDecreasing(groupOf) && |groupOf| == |at|
    && (forall k | 0 <= k < |at| :: groupOf[k] < g && Within(intervals[chosen[groupOf[k]]], at[k]))
    && (forall c | 0 <= c < g :: intervals[chosen[c]].begin in at)
  }

  predicate Within(interval: Interval, i: nat) {
    interval.begin <= i < interval.end
  }

  ghost predicate SpreadsWell(product: Product, n: nat, bound: nat) {
    n >= 2 ==> forall m: nat | n <= m < bound :: CloseEnough(product, n, m)
  }

  /** Nominate up to eight frames of one more interval, its first among them. */
  method Nominate(intervals: seq<Interval>, n: nat, chosen: seq<nat>, g: nat, at: seq<nat>, groupOf: seq<nat>,
                  product: Product)
    returns (at': seq<nat>, groupOf': seq<nat>)
    requires Tiles(intervals, 0, n) && AllBelowNumber(chosen, |intervals|) && Increasing(chosen) && g < |chosen|
    requires Nominated(intervals, chosen, g, at, groupOf) && GroupsSpread(intervals, chosen, g, at, groupOf)
    requires SpreadsWell(product, MAX_SCORED, n)
    ensures Nominated(intervals, chosen, g + 1, at', groupOf')
    ensures GroupsSpread(intervals, chosen, g + 1, at', groupOf')
    ensures |at| < |at'| <= |at| + MAX_SCORED
  {
    var interval := intervals[chosen[g]];
    IntervalEnds(intervals, 0, n, chosen[g]);
    var members := EvenlySpaced(interval.end - interval.begin, MAX_SCORED, product);
    forall k | 0 <= k < |at|
      ensures at[k] < interval.begin
    {
      IntervalsInOrder(intervals, 0, n, chosen[groupOf[k]], chosen[g]);
    }
    at', groupOf' := at, groupOf;
    for m := 0 to |members|
      invariant |at'| == |groupOf'| == |at| + m
      invariant forall k | 0 <= k < |at| :: at'[k] == at[k] && groupOf'[k] == groupOf[k]
      invariant forall k | |at| <= k < |at| + m :: at'[k] == interval.begin + members[k - |at|] && groupOf'[k] == g
    {
      at', groupOf' := at' + [interval.begin + members[m]], groupOf' + [g];
    }
    OneMoreSpreads(intervals, chosen, g, at, groupOf, members, at', groupOf');
    MembersFollow(at, interval.begin, members, at');
    GroupsFollow(groupOf, g, groupOf');
    NominatedMore(intervals, chosen, g, at, groupOf, members, at', groupOf');
  }

  /** One more group: its own spread, and the spreads of those before it. */
  lemma OneMoreSpreads(intervals: seq<Interval>, chosen: seq<nat>, g: nat, at: seq<nat>, groupOf: seq<nat>,
                       members: seq<nat>, at': seq<nat>, groupOf': seq<nat>)
    requires g < |chosen| && AllBelowNumber(chosen, |intervals|) && GroupsSpread(intervals, chosen, g, at, groupOf)
    requires |groupOf| == |at| && forall k | 0 <= k < |at| :: groupOf[k] < g
    requires intervals[chosen[g]].begin < intervals[chosen[g]].end
    requires SpreadEvenly(intervals[chosen[g]].end - intervals[chosen[g]].begin, MAX_SCORED, members)
    requires |at'| == |groupOf'| == |at| + |members| && at <= at' && groupOf <= groupOf'
    requires forall k | |at| <= k < |at'| ::
               at'[k] == intervals[chosen[g]].begin + members[k - |at|] && groupOf'[k] == g
    ensures GroupsSpread(intervals, chosen, g + 1, at', groupOf')
  {
    forall c | 0 <= c < g + 1
      ensures GroupSpreads(intervals[chosen[c]], c, at', groupOf')
    {
      if c < g {
        assert GroupSpreads(intervals[chosen[c]], c, at, groupOf);
        GroupStays(intervals[chosen[c]], c, at, groupOf, at', groupOf');
      } else {
        assert IsGroup(intervals[chosen[g]].begin, g, at', groupOf', |at|, members);
      }
    }
  }

  lemma GroupStays(interval: Interval, c: nat, at: seq<nat>, groupOf: seq<nat>, at': seq<nat>, groupOf': seq<nat>)
    requires GroupSpreads(interval, c, at, groupOf) && |at'| == |groupOf'| && at <= at' && groupOf <= groupOf'
    requires forall k | |at| <= k < |at'| :: groupOf'[k] != c
    ensures GroupSpreads(interval, c, at', groupOf')
  {
    var lo: nat, members :| SpreadEvenly(interval.end - interval.begin, MAX_SCORED, members)
                            && IsGroup(interval.begin, c, at, groupOf, lo, members);
    forall k | 0 <= k < |at|
      ensures at'[k] == at[k] && groupOf'[k] == groupOf[k]
    {
    }
    assert IsGroup(interval.begin, c, at', groupOf', lo, members);
  }

  /** The places of one more interval's members follow those so far. */
  lemma MembersFollow(at: seq<nat>, begin: nat, members: seq<nat>, at': seq<nat>)
    requires Increasing(at) && Increasing(members) && forall k | 0 <= k < |at| :: at[k] < begin
    requires |at'| == |at| + |members| && forall k | 0 <= k < |at| :: at'[k] == at[k]
    requires forall k | |at| <= k < |at'| :: at'[k] == begin + members[k - |at|]
    ensures Increasing(at')
  {
    forall i, j | 0 <= i < j < |at'|
      ensures at'[i] < at'[j]
    {
      if |at| <= i {
        assert members[i - |at|] < members[j - |at|];
      }
    }
  }

  lemma GroupsFollow(groupOf: seq<nat>, g: nat, groupOf': seq<nat>)
    requires NonDecreasing(groupOf) && (forall k | 0 <= k < |groupOf| :: groupOf[k] < g) && groupOf <= groupOf'
    requires forall k | |groupOf| <= k < |groupOf'| :: groupOf'[k] == g
    ensures NonDecreasing(groupOf') && forall k | 0 <= k < |groupOf'| :: groupOf'[k] < g + 1
  {
    assert forall k | 0 <= k < |groupOf| :: groupOf'[k] == groupOf[k];
  }

  lemma NominatedMore(intervals: seq<Interval>, chosen: seq<nat>, g: nat, at: seq<nat>, groupOf: seq<nat>,
                      members: seq<nat>, at': seq<nat>, groupOf': seq<nat>)
    requires g < |chosen| && AllBelowNumber(chosen, |intervals|) && Nominated(intervals, chosen, g, at, groupOf)
    requires at <= at' && groupOf <= groupOf' && Increasing(at') && NonDecreasing(groupOf') && |groupOf'| == |at'|
    requires |at| < |at'| && at'[|at|] == intervals[chosen[g]].begin
    requires forall k | |at| <= k < |at'| :: groupOf'[k] == g && Within(intervals[chosen[g]], at'[k])
    ensures Nominated(intervals, chosen, g + 1, at', groupOf')
  {
    forall k | 0 <= k < |at'|
      ensures groupOf'[k] < g + 1 && Within(intervals[chosen[groupOf'[k]]], at'[k])
    {
      if k < |at| {
        assert groupOf'[k] == groupOf[k] && at'[k] == at[k];
      }
    }
    forall c | 0 <= c < g + 1
      ensures intervals[chosen[c]].begin in at'
    {
      if c < g {
        assert intervals[chosen[c]].begin in at;
      } else {
        assert at'[|at|] in at';
      }
    }
  }

  /** `picks` are nominated from the intervals `chosen`, at places `at` among the gated frames. */
  ghost predicate PicksComeFrom(rec: Recording, intervals: seq<Interval>, picks: GatedPicks, chosen: seq<nat>,
                                at: seq<nat>) {
    var gated := Gateable(rec);
    && AllBelowNumber(chosen, |intervals|) && Nominated(intervals, chosen, |chosen|, at, picks.groupOf)
    && GroupsSpread(intervals, chosen, |chosen|, at, picks.groupOf)
    && |picks.picks| == |at| && AllBelowNumber(at, |gated|)
    && forall k | 0 <= k < |at| :: picks.picks[k] == gated[at[k]]
  }

  /** What the gated picks must be: frames that can be gated, in order, in ascending groups; each group
      the nominees of one of the intervals evenly chosen. */
  ghost predicate PicksFit(rec: Recording, intervals: seq<Interval>, samples: nat, picks: GatedPicks) {
    && picks.intervals == |intervals|
    && Increasing(picks.picks) && (forall k | 0 <= k < |picks.picks| :: CanGate(rec, picks.picks[k]))
    && |picks.groupOf| == |picks.picks| && NonDecreasing(picks.groupOf) && AllBelowNumber(picks.groupOf, samples)
    && exists chosen, at ::
         SpreadEvenly(|intervals|, samples, chosen) && PicksComeFrom(rec, intervals, picks, chosen, at)
  }

  /** Gate the eligible frames whose pose is known, pick some intervals evenly and nominate frames of
      each; no result when the recording hardly moves. */
  method KeyframeGatedPicks(rec: Recording, metric: Metric, gate: Gate, samples: nat, product: Product)
    returns (r: Option<GatedPicks>)
    requires samples >= 3
    requires SpreadsWell(product, samples, |rec.stamps|) && SpreadsWell(product, MAX_SCORED, |rec.stamps|)
    ensures CutsMeet(rec, metric, gate, GateCuts(rec, metric, gate))
    ensures r.None? <==> |GateCuts(rec, metric, gate)| < 3
    ensures r.Some? ==> PicksFit(rec, GateCuts(rec, metric, gate), samples, r.value)
  {
    var gated, poses := GatedFrames(rec);
    var cuts := PoseGateIntervals(MotionOver(metric, poses), gate, |gated|);
    GateCutsMeet(rec, metric, gate, cuts);
    if |cuts| < 3 {
      return None;
    }
    GatedAreFew(rec);
    IntervalCount(cuts, 0, |gated|);
    var chosen := EvenlySpaced(|cuts|, samples, product);
    var at, groupOf := NominateAll(cuts, |gated|, chosen, product);
    var picks := FramesAt(gated, at);
    r := Some(GatedPicks(picks, groupOf, |cuts|));
    PicksDoFit(rec, cuts, samples, r.value, chosen, at);
  }

  lemma GatedAreFew(rec: Recording)
    ensures |Gateable(rec)| <= |rec.stamps|
  {
    var gated := Gateable(rec);
    assert forall k | 0 <= k < |gated| :: gated[k] in gated;
    AllBelow(gated, |rec.stamps|);
  }

  /** Nominate frames of every chosen interval. */
  method NominateAll(intervals: seq<Interval>, n: nat, chosen: seq<nat>, product: Product)
    returns (at: seq<nat>, groupOf: seq<nat>)
    requires Tiles(intervals, 0, n) && AllBelowNumber(chosen, |intervals|) && Increasing(chosen)
    requires SpreadsWell(product, MAX_SCORED, n)
    ensures Nominated(intervals, chosen, |chosen|, at, groupOf) && AllBelowNumber(at, n)
    ensures GroupsSpread(intervals, chosen, |chosen|, at, groupOf)
  {
    at, groupOf := [], [];
    for g := 0 to |chosen|
      invariant Nominated(intervals, chosen, g, at, groupOf) && GroupsSpread(intervals, chosen, g, at, groupOf)
    {
      at, groupOf := Nominate(intervals, n, chosen, g, at, groupOf, product);
    }
    NominatedInRange(intervals, n, chosen, at, groupOf);
  }

  lemma PicksDoFit(rec: Recording, intervals: seq<Interval>, samples: nat, picks: GatedPicks, chosen: seq<nat>,
                   at: seq<nat>)
    requires SpreadEvenly(|intervals|, samples, chosen) && PicksComeFrom(rec, intervals, picks, chosen, at)
    requires picks.intervals == |intervals| && Increasing(picks.picks)
    ensures PicksFit(rec, intervals, samples, picks)
  {
    var gated := Gateable(rec);
    forall k | 0 <= k < |picks.picks|
      ensures CanGate(rec, picks.picks[k])
    {
      assert gated[at[k]] in gated;
    }
    NominatedGroups(intervals, chosen, samples, at, picks.groupOf);
  }

  lemma NominatedGroups(intervals: seq<Interval>, chosen: seq<nat>, samples: nat, at: seq<nat>, groupOf: seq<nat>)
    requires AllBelowNumber(chosen, |intervals|) && |chosen| <= samples
    requires Nominated(intervals, chosen, |chosen|, at, groupOf)
    ensures NonDecreasing(groupOf) && |groupOf| == |at| && AllBelowNumber(groupOf, samples)
  {
  }

  lemma {:induction false} IntervalCount(intervals: seq<Interval>, from: nat, n: nat)
    requires Tiles(intervals, from, n)
    ensures from + |intervals| <= n
    decreases |intervals|
  {
    if intervals != [] {
      TilesWithin(intervals, from, n);
      var rest := intervals[1..];
      assert Tiles(rest, intervals[0].end, n);
      IntervalCount(rest, intervals[0].end, n);
    }
  }

  lemma NominatedInRange(intervals: seq<Interval>, n: nat, chosen: seq<nat>, at: seq<nat>, groupOf: seq<nat>)
    requires Tiles(intervals, 0, n) && AllBelowNumber(chosen, |intervals|)
    requires Nominated(intervals, chosen, |chosen|, at, groupOf)
    ensures AllBelowNumber(at, n)
  {
    forall k | 0 <= k < |at|
      ensures at[k] < n
    {
      IntervalEnds(intervals, 0, n, chosen[groupOf[k]]);
    }
  }

  method FramesAt(gated: seq<nat>, at: seq<nat>) returns (picks: seq<nat>)
    requires Increasing(gated) && Increasing(at) && AllBelowNumber(at, |gated|)
    ensures |picks| == |at| && Increasing(picks)
    ensures forall k | 0 <= k < |at| :: picks[k] == gated[at[k]]
  {
    picks := [];
    for k := 0 to |at|
      invariant |picks| == k && forall j | 0 <= j < k :: picks[j] == gated[at[j]]
    {
      picks := picks + [gated[at[k]]];
    }
  }

  // ---- the sharpest of each group --------------------------------------------------------------------

  datatype Decoded = Decoded(score: real, group: nat)

  /** Of the frames of its group this one is the sharpest, and the first of those as sharp. */
  predicate IsSharpest(decoded: seq<Decoded>, i: nat) {
    && i < |decoded|
    && forall j | 0 <= j < |decoded| && decoded[j].group == decoded[i].group ::
         decoded[j].score < decoded[i].score || (decoded[j].score == decoded[i].score && i <= j)
  }

  /** The best frame of each group among the first `n`. */
  predicate BestOf(decoded: seq<Decoded>, n: nat, best: map<nat, nat>) {
    && n <= |decoded|
    && (forall g | g in best :: best[g] < n && decoded[best[g]].group == g)
    && (forall j | 0 <= j < n :: decoded[j].group in best && NotBetter(decoded, j, best[decoded[j].group]))
  }

  predicate NotBetter(decoded: seq<Decoded>, j: nat, b: nat) {
    && j < |decoded| && b < |decoded|
    && (decoded[j].score < decoded[b].score || (decoded[j].score == decoded[b].score && b <= j))
  }

  predicate GroupsAscend(decoded: seq<Decoded>, kept: seq<nat>) {
    && AllBelowNumber(kept, |decoded|)
    && forall a, b | 0 <= a < b < |kept| :: decoded[kept[a]].group < decoded[kept[b]].group
  }

  predicate HasGroup(decoded: seq<Decoded>, kept: seq<nat>, g: nat) {
    exists k :: 0 <= k < |kept| && kept[k] < |decoded| && decoded[kept[k]].group == g
  }

  lemma GroupAdded(decoded: seq<Decoded>, kept: seq<nat>, i: nat)
    requires i < |decoded|
    ensures HasGroup(decoded, kept + [i], decoded[i].group)
    ensures forall h | HasGroup(decoded, kept, h) :: HasGroup(decoded, kept + [i], h)
  {
    var after := kept + [i];
    assert after[|kept|] == i;
    forall h | HasGroup(decoded, kept, h)
      ensures HasGroup(decoded, after, h)
    {
      var k :| 0 <= k < |kept| && kept[k] < |decoded| && decoded[kept[k]].group == h;
      assert after[k] == kept[k];
    }
  }

  method FindBest(decoded: seq<Decoded>) returns (best: map<nat, nat>)
    ensures BestOf(decoded, |decoded|, best)
  {
    best := map[];
    for i := 0 to |decoded|
      invariant BestOf(decoded, i, best)
    {
      var g := decoded[i].group;
      if g !in best || decoded[i].score > decoded[best[g]].score {
        best := best[g := i];
      }
    }
  }

  lemma BestIsSharpest(decoded: seq<Decoded>, best: map<nat, nat>, g: nat)
    requires BestOf(decoded, |decoded|, best) && g in best
    ensures IsSharpest(decoded, best[g]) && decoded[best[g]].group == g
  {
    forall j | 0 <= j < |decoded| && decoded[j].group == g
      ensures NotBetter(decoded, j, best[g])
    {
    }
  }

  /** The best of the groups below `g` have been kept. */
  predicate KeptBelow(decoded: seq<Decoded>, best: map<nat, nat>, kept: seq<nat>, g: nat) {
    && GroupsAscend(decoded, kept)
    && (forall k | 0 <= k < |kept| :: IsSharpest(decoded, kept[k]) && decoded[kept[k]].group < g)
    && (forall h | h in best && h < g :: HasGroup(decoded, kept, h))
  }

  lemma KeepOneMore(decoded: seq<Decoded>, best: map<nat, nat>, kept: seq<nat>, g: nat)
    requires BestOf(decoded, |decoded|, best) && KeptBelow(decoded, best, kept, g)
    ensures KeptBelow(decoded, best, if g in best then kept + [best[g]] else kept, g + 1)
  {
    if g in best {
      BestIsSharpest(decoded, best, g);
      GroupAppended(decoded, best, kept, best[g], g);
    }
  }

  lemma GroupAppended(decoded: seq<Decoded>, best: map<nat, nat>, kept: seq<nat>, i: nat, g: nat)
    requires KeptBelow(decoded, best, kept, g) && IsSharpest(decoded, i) && decoded[i].group == g
    ensures KeptBelow(decoded, best, kept + [i], g + 1)
  {
    GroupAdded(decoded, kept, i);
    forall k | 0 <= k < |kept + [i]|
      ensures IsSharpest(decoded, (kept + [i])[k]) && decoded[(kept + [i])[k]].group < g + 1
    {
      assert k < |kept| ==> IsSharpest(decoded, kept[k]);
    }
  }

  /** One frame per group that has any, by group. */
  method SharpestPerGroup(decoded: seq<Decoded>, groups: nat) returns (kept: seq<nat>)
    requires forall j | 0 <= j < |decoded| :: decoded[j].group < groups
    ensures forall k | 0 <= k < |kept| :: IsSharpest(decoded, kept[k])
    ensures GroupsAscend(decoded, kept)
    ensures forall j | 0 <= j < |decoded| :: HasGroup(decoded, kept, decoded[j].group)
  {
    var best := FindBest(decoded);
    kept := [];
    for g := 0 to groups
      invariant KeptBelow(decoded, best, kept, g)
    {
      KeepOneMore(decoded, best, kept, g);
      if g in best {
        kept := kept + [best[g]];
      }
    }
  }
}
