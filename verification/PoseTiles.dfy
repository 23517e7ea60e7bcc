/** Laying plates along a path by arc length, over the reals. */
module PoseTiles {
  import opened Wrappers

  /** A point or a direction. */
  datatype Vec = Vec(x: real, y: real, z: real)

  /** The length of a vector, and the transform to the picture's frame. */
  datatype Setup = Setup(norm: Vec -> real, place: Vec -> Vec)

  function Times(a: real, b: real): real { a * b }
  function Squared(r: real): real { Times(r, r) }

  ghost predicate Lengths(p: Setup) {
    forall v :: p.norm(v) >= 0.0 && Squared(p.norm(v)) == Squared(v.x) + Squared(v.y) + Squared(v.z)
  }

  function Minus(a: Vec, b: Vec): Vec { Vec(a.x - b.x, a.y - b.y, a.z - b.z) }
  function Over(v: Vec, k: real): Vec
    requires k != 0.0
  {
    Vec(v.x / k, v.y / k, v.z / k)
  }

  function Distance(p: Setup, a: Vec, b: Vec): real { p.norm(Minus(b, a)) }

  /** The point a fraction of the way from one to another. */
  function Between(a: Vec, b: Vec, t: real): Vec {
    Vec(a.x + t * (b.x - a.x), a.y + t * (b.y - a.y), a.z + t * (b.z - a.z))
  }

  /** The unit direction from one point to another, as far as they differ. */
  function Heading(p: Setup, a: Vec, b: Vec): Vec {
    var d := Minus(b, a);
    if p.norm(d) > 0.0 then Over(d, p.norm(d)) else d
  }

  /** The ground-plane left of a direction, unless it has no ground component. */
  function GroundLeft(p: Setup, dir: Vec): Option<Vec> {
    var left := Vec(-dir.y, dir.x, 0.0);
    var length := p.norm(left);
    if length > 0.0 then Some(Vec(left.x / length, left.y / length, 0.0)) else None
  }

  /** The point some way along an axis over the ground. */
  function Beside(c: Vec, axis: Vec, h: real): Vec { Vec(c.x + h * axis.x, c.y + h * axis.y, c.z) }

  const SPACING := 2.0
  const PLATE := 1.2
  /** The left axis before any direction has given one. */
  const FIRST_LEFT := Vec(0.0, 1.0, 0.0)

  // ---- arc length ------------------------------------------------------------------------------

  /** Cumulative arc lengths start at zero and never fall. */
  predicate ArcLengths(at: seq<real>) {
    |at| >= 2 && at[0] == 0.0 && forall i | 0 <= i < |at| - 1 :: at[i] <= at[i + 1]
  }

  predicate Measures(p: Setup, path: seq<Vec>, at: seq<real>) {
    |at| == |path| >= 2 && at[0] == 0.0
    && forall i | 1 <= i < |path| :: at[i] == at[i - 1] + Distance(p, path[i - 1], path[i])
  }

  /** The segment a search from index `i` on ends at: the first whose far end is not before `s`, or the
      last. */
  function SegmentFrom(at: seq<real>, s: real, i: nat): (r: nat)
    requires 1 <= i < |at|
    ensures i <= r < |at|
    decreases |at| - i
  {
    if i + 1 < |at| && at[i] < s then SegmentFrom(at, s, i + 1) else i
  }

  /** The search from the start. */
  function Segment(at: seq<real>, s: real): (r: nat)
    requires |at| >= 2
    ensures 1 <= r < |at|
  {
    SegmentFrom(at, s, 1)
  }

  /** A search that resumes where an earlier one for a smaller arc length ended finds the same segment
      as one from the start. */
  lemma {:induction false} ResumedSearchAgrees(at: seq<real>, before: real, s: real)
    requires ArcLengths(at) && before <= s
    ensures SegmentFrom(at, s, Segment(at, before)) == Segment(at, s)
  {
    Skips(at, before, s, 1);
  }

  lemma {:induction false} Skips(at: seq<real>, before: real, s: real, i: nat)
    requires |at| >= 2 && before <= s && 1 <= i < |at|
    ensures SegmentFrom(at, s, SegmentFrom(at, before, i)) == SegmentFrom(at, s, i)
    decreases |at| - i
  {
    if i + 1 < |at| && at[i] < before {
      Skips(at, before, s, i + 1);
    }
  }

  /** The segment found holds the arc length asked for. */
  lemma {:induction false} SegmentHolds(at: seq<real>, s: real, i: nat)
    requires ArcLengths(at) && 1 <= i < |at| && s <= at[|at| - 1] && (at[i - 1] < s || (i == 1 && 0.0 <= s))
    ensures var r := SegmentFrom(at, s, i); s <= at[r] && (at[r - 1] < s || (r == 1 && 0.0 <= s))
    decreases |at| - i
  {
    if i + 1 < |at| && at[i] < s {
      SegmentHolds(at, s, i + 1);
    }
  }

  function Clamp01(t: real): real {
    if t < 0.0 then 0.0 else if t > 1.0 then 1.0 else t
  }

  /** How far into segment `i` arc length `s` lies. */
  function Fraction(at: seq<real>, s: real, i: nat): real
    requires 1 <= i < |at|
  {
    var seg := at[i] - at[i - 1];
    if seg > 0.0 then Clamp01((s - at[i - 1]) / seg) else 0.0
  }

  lemma Ratio(a: real, d: real)
    requires 0.0 <= a <= d && d > 0.0
    ensures 0.0 <= a / d <= 1.0 && a / d * d == a
  {
  }

  /** A sample lies at exactly the arc length asked for. */
  lemma SampleIsAtItsArcLength(at: seq<real>, s: real)
    requires ArcLengths(at) && 0.0 <= s <= at[|at| - 1]
    ensures var i := Segment(at, s);
            && 0.0 <= Fraction(at, s, i) <= 1.0
            && at[i - 1] + Fraction(at, s, i) * (at[i] - at[i - 1]) == s
  {
    SegmentHolds(at, s, 1);
    var i := Segment(at, s);
    var seg := at[i] - at[i - 1];
    if seg > 0.0 {
      Ratio(s - at[i - 1], seg);
    }
  }

  // ---- samples and plates ---------------------------------------------------------------------------

  datatype Sample = Sample(point: Vec, dir: Vec)

  function SampleIn(p: Setup, path: seq<Vec>, at: seq<real>, s: real, i: nat): Sample
    requires |at| == |path| && 1 <= i < |at|
  {
    Sample(Between(path[i - 1], path[i], Fraction(at, s, i)), Heading(p, path[i - 1], path[i]))
  }

  /** The point and direction at arc length `s`, found from scratch. */
  function SampleAt(p: Setup, path: seq<Vec>, at: seq<real>, s: real): Sample
    requires |at| == |path| >= 2
  {
    SampleIn(p, path, at, s, Segment(at, s))
  }

  /** The path's left over the ground; a direction straight up keeps the axis before it. */
  function LeftOf(p: Setup, dir: Vec, before: Vec): Vec {
    if GroundLeft(p, dir).Some? then GroundLeft(p, dir).value else before
  }

  datatype Tile = Tile(ahead: bool, fade: real, corners: seq<Vec>)

  /** Where plate `k` begins. */
  function PlateStart(k: nat): real { k as real * SPACING }

  /** The number of plates on a path of this length. */
  function PlateCount(total: real): nat {
    if total < PLATE then 0 else ((total - PLATE) / SPACING).Floor + 1
  }

  /** Plate `k` is laid exactly when it fits the path to its end. */
  lemma PlateFits(total: real, k: nat)
    ensures k < PlateCount(total) <==> PlateStart(k) + PLATE <= total
  {
  }

  /** Plates cover stretches of the path that do not meet. */
  lemma PlatesAreApart(k: nat, j: nat)
    requires k < j
    ensures PlateStart(k) + PLATE < PlateStart(j)
  {
    assert j as real >= k as real + 1.0;
  }

  function Corners(p: Setup, c0: Vec, l0: Vec, c1: Vec, l1: Vec, h: real): seq<Vec> {
    [p.place(Beside(c0, l0, h)), p.place(Beside(c1, l1, h)), p.place(Beside(c1, l1, -h)),
     p.place(Beside(c0, l0, -h))]
  }

  function Fade(s: real, total: real): real {
    if total > 0.0 then Clamp01(1.0 - s / total) else 1.0
  }

  /** A plate fades with its distance, from one at the start to zero at the end of the path. */
  lemma FadeFalls(s: real, s': real, total: real)
    requires 0.0 <= s <= s' <= total && total > 0.0
    ensures 0.0 <= Fade(s', total) <= Fade(s, total) <= 1.0
    ensures Fade(0.0, total) == 1.0 && Fade(total, total) == 0.0
  {
    RatiosOrdered(s, s', total);
    SelfRatio(total);
  }

  lemma RatiosOrdered(a: real, b: real, d: real)
    requires 0.0 <= a <= b <= d && d > 0.0
    ensures 0.0 <= a / d <= b / d <= 1.0
  {
    var p := RatioOf(a, d);
    var q := RatioOf(b, d);
    Ordered(p, q, d);
  }

  lemma RatioOf(a: real, d: real) returns (q: real)
    requires 0.0 <= a <= d && d > 0.0
    ensures q == a / d && 0.0 <= q <= 1.0 && q * d == a
  {
    Ratio(a, d);
    q := a / d;
  }

  lemma Ordered(a: real, b: real, k: real)
    requires k > 0.0 && a * k <= b * k
    ensures a <= b
  {
    if a > b {
      Larger(a, b, k);
    }
  }

  lemma SelfRatio(d: real)
    requires d > 0.0
    ensures d / d == 1.0 && 0.0 / d == 0.0
  {
    var one := RatioOf(d, d);
    var zero := RatioOf(0.0, d);
    Cancel(one, 1.0, d);
    Cancel(zero, 0.0, d);
  }

  lemma Cancel(a: real, b: real, k: real)
    requires k > 0.0 && a * k == b * k
    ensures a == b
  {
    Ordered(a, b, k);
    Ordered(b, a, k);
  }

  lemma Larger(a: real, b: real, k: real)
    requires a > b && k > 0.0
    ensures a * k > b * k
  {
  }

  /** The left axes at the two ends of a plate. */
  function Axes(p: Setup, a: Sample, b: Sample, before: Vec): (Vec, Vec) {
    var first := LeftOf(p, a.dir, before);
    (first, LeftOf(p, b.dir, first))
  }

  /** The two ends of plate `k`, searched for from scratch. */
  function EndsAt(p: Setup, path: seq<Vec>, at: seq<real>, k: nat): (Sample, Sample)
    requires |at| == |path| >= 2
  {
    (SampleAt(p, path, at, PlateStart(k)), SampleAt(p, path, at, PlateStart(k) + PLATE))
  }

  /** The left axis after the first `n` plates. */
  function LeftAfter(p: Setup, path: seq<Vec>, at: seq<real>, n: nat): Vec
    requires |at| == |path| >= 2
  {
    if n == 0 then FIRST_LEFT
    else var (a, b) := EndsAt(p, path, at, n - 1); Axes(p, a, b, LeftAfter(p, path, at, n - 1)).1
  }

  /** Plate `k`: its ends are the samples at its two arc lengths, half the width to either side. */
  function TileAt(p: Setup, path: seq<Vec>, at: seq<real>, width: real, ahead: bool, k: nat): Tile
    requires |at| == |path| >= 2
  {
    var (a, b) := EndsAt(p, path, at, k);
    var (l0, l1) := Axes(p, a, b, LeftAfter(p, path, at, k));
    Tile(ahead, Fade(PlateStart(k), at[|at| - 1]), Corners(p, a.point, l0, b.point, l1, width / 2.0))
  }

  // ---- the walk ---------------------------------------------------------------------------------------

  method Measure(p: Setup, path: seq<Vec>) returns (at: array<real>)
    requires |path| >= 2
    ensures fresh(at) && Measures(p, path, at[..])
  {
    at := new real[|path|](_ => 0.0);
    for i := 1 to |path|
      invariant at[0] == 0.0
      invariant forall k | 1 <= k < i :: at[k] == at[k - 1] + Distance(p, path[k - 1], path[k])
    {
      at[i] := at[i - 1] + Distance(p, path[i - 1], path[i]);
    }
  }

  /** Sample at `s`, resuming the segment search where the last one ended. */
  method TakeSample(p: Setup, path: seq<Vec>, at: seq<real>, s: real, cursor: nat, ghost before: real)
    returns (sample: Sample, i: nat)
    requires |at| == |path| && ArcLengths(at) && before <= s && cursor == Segment(at, before)
    ensures i == Segment(at, s) && sample == SampleAt(p, path, at, s)
  {
    ResumedSearchAgrees(at, before, s);
    i := cursor;
    while i + 1 < |path| && at[i] < s
      invariant 1 <= i < |path| && SegmentFrom(at, s, i) == Segment(at, s)
    {
      i := i + 1;
    }
    var seg := at[i] - at[i - 1];
    var t := if seg > 0.0 then Clamp01((s - at[i - 1]) / seg) else 0.0;
    sample := Sample(Between(path[i - 1], path[i], t), Heading(p, path[i - 1], path[i]));
  }

  /** Sample both ends of plate `k`. */
  method TakeEnds(p: Setup, path: seq<Vec>, at: seq<real>, ghost k: nat, s: real, cursor: nat, ghost before: real)
    returns (a: Sample, b: Sample, cursor': nat)
    requires |at| == |path| && ArcLengths(at) && s == PlateStart(k)
    requires before <= s && cursor == Segment(at, before)
    ensures (a, b) == EndsAt(p, path, at, k) && cursor' == Segment(at, s + PLATE)
  {
    a, cursor' := TakeSample(p, path, at, s, cursor, before);
    b, cursor' := TakeSample(p, path, at, s + PLATE, cursor', s);
  }

  /** Lay plate `k`. */
  method LayTile(p: Setup, path: seq<Vec>, at: seq<real>, width: real, ahead: bool, ghost k: nat, s: real, left: Vec,
                 cursor: nat, ghost before: real) returns (tile: Tile, left': Vec, cursor': nat)
    requires |at| == |path| && ArcLengths(at) && s == PlateStart(k)
    requires before <= s && cursor == Segment(at, before) && left == LeftAfter(p, path, at, k)
    ensures tile == TileAt(p, path, at, width, ahead, k)
    ensures left' == LeftAfter(p, path, at, k + 1) && cursor' == Segment(at, s + PLATE)
  {
    var a, b;
    a, b, cursor' := TakeEnds(p, path, at, k, s, cursor, before);
    var (l0, l1) := Axes(p, a, b, left);
    tile := Tile(ahead, Fade(s, at[|at| - 1]), Corners(p, a.point, l0, b.point, l1, width / 2.0));
    left' := l1;
  }

  /** `tiles` are the first plates, each as if its two samples had been searched for from the start. */
  ghost predicate Laid(p: Setup, path: seq<Vec>, at: seq<real>, width: real, ahead: bool, tiles: seq<Tile>)
    requires |at| == |path| >= 2
  {
    forall k | 0 <= k < |tiles| :: tiles[k] == TileAt(p, path, at, width, ahead, k)
  }

  lemma OneMoreLaid(p: Setup, path: seq<Vec>, at: seq<real>, width: real, ahead: bool, tiles: seq<Tile>, tile: Tile)
    requires |at| == |path| >= 2 && Laid(p, path, at, width, ahead, tiles)
    requires tile == TileAt(p, path, at, width, ahead, |tiles|)
    ensures Laid(p, path, at, width, ahead, tiles + [tile])
  {
  }

  // ---- where the plates are -----------------------------------------------------------------------------

  /** The point at arc length `s`: in segment `i`, the first that does not end before it, a fraction of the
      way that is the fraction of its length. */
  predicate OnPath(path: seq<Vec>, at: seq<real>, s: real, i: nat, t: real, point: Vec)
    requires |at| == |path|
  {
    && 1 <= i < |path| && (i == 1 || at[i - 1] < s) && s <= at[i]
    && 0.0 <= t <= 1.0 && at[i - 1] + t * (at[i] - at[i - 1]) == s
    && point.x - path[i - 1].x == t * (path[i].x - path[i - 1].x)
    && point.y - path[i - 1].y == t * (path[i].y - path[i - 1].y)
    && point.z - path[i - 1].z == t * (path[i].z - path[i - 1].z)
  }

  /** A level unit vector at right angles to a direction over the ground, on its left. */
  predicate IsLeft(axis: Vec, d: Vec) {
    && axis.z == 0.0 && Squared(axis.x) + Squared(axis.y) == 1.0
    && d.x * axis.x + d.y * axis.y == 0.0 && d.x * axis.y - d.y * axis.x > 0.0
  }

  /** The left of a segment; where it goes straight up, the axis before it. */
  predicate AxisMeets(axis: Vec, path: seq<Vec>, i: nat, before: Vec)
    requires 1 <= i < |path|
  {
    var d := Minus(path[i], path[i - 1]);
    if d.x != 0.0 || d.y != 0.0 then IsLeft(axis, d) else axis == before
  }

  /** The four corners: left and right of the plate's begin and end, half its width away over the ground. */
  predicate CornersMeet(p: Setup, corners: seq<Vec>, a: Vec, l0: Vec, b: Vec, l1: Vec, width: real) {
    var h := width / 2.0;
    && |corners| == 4
    && corners[0] == p.place(Vec(a.x + h * l0.x, a.y + h * l0.y, a.z))
    && corners[1] == p.place(Vec(b.x + h * l1.x, b.y + h * l1.y, b.z))
    && corners[2] == p.place(Vec(b.x - h * l1.x, b.y - h * l1.y, b.z))
    && corners[3] == p.place(Vec(a.x - h * l0.x, a.y - h * l0.y, a.z))
  }

  /** The two ends of a plate: their segments, the fractions, the points; and the axis at the first. */
  datatype Ends = Ends(i: nat, t: real, a: Vec, j: nat, u: real, b: Vec, left: Vec)

  /** A plate from arc length `s` on: from point to point of the path, its sides along the left axes there. */
  predicate LiesBetween(p: Setup, path: seq<Vec>, at: seq<real>, width: real, s: real, before: Vec, after: Vec,
                        corners: seq<Vec>, e: Ends)
    requires |at| == |path|
  {
    && OnPath(path, at, s, e.i, e.t, e.a) && OnPath(path, at, s + 1.2, e.j, e.u, e.b)
    && AxisMeets(e.left, path, e.i, before) && AxisMeets(after, path, e.j, e.left)
    && CornersMeet(p, corners, e.a, e.left, e.b, after, width)
  }

  /** It is faded by the part of the path behind it. */
  ghost predicate TileMeets(p: Setup, path: seq<Vec>, at: seq<real>, width: real, s: real, before: Vec, after: Vec,
                            tile: Tile)
    requires |at| == |path| >= 2
  {
    && tile.fade * at[|at| - 1] == at[|at| - 1] - s
    && exists e :: LiesBetween(p, path, at, width, s, before, after, tile.corners, e)
  }

  /** A plate every two metres. */
  function Metres(k: nat): real { k as real * 2.0 }

  predicate EndsOnPath(k: nat, total: real) { Metres(k) + 1.2 <= total }

  ghost predicate CountsPlates(total: real, n: nat) {
    forall k: nat :: EndsOnPath(k, total) <==> k < n
  }

  /** Every two metres a plate, as long as they end on the path, each taking over the axis of the one before;
      the first would take over the world's y axis. */
  ghost predicate TilesMeet(p: Setup, path: seq<Vec>, at: seq<real>, width: real, ahead: bool, tiles: seq<Tile>)
    requires |at| == |path| >= 2
  {
    && CountsPlates(at[|at| - 1], |tiles|)
    && exists axes: seq<Vec> ::
         && |axes| == |tiles| + 1 && axes[0] == Vec(0.0, 1.0, 0.0)
         && forall k | 0 <= k < |tiles| ::
              && tiles[k].ahead == ahead
              && TileMeets(p, path, at, width, Metres(k), axes[k], axes[k + 1], tiles[k])
  }

  lemma PositiveLength(p: Setup, v: Vec)
    requires Lengths(p)
    ensures p.norm(v) > 0.0 <==> v.x != 0.0 || v.y != 0.0 || v.z != 0.0
  {
    NonZeroSquare(v.x);
    NonZeroSquare(v.y);
    NonZeroSquare(v.z);
    NonZeroSquare(p.norm(v));
  }

  lemma NonZeroSquare(r: real)
    ensures Squared(r) >= 0.0 && (r != 0.0 <==> Squared(r) > 0.0)
  {
    if r > 0.0 {
      PositiveProduct(r, r);
    } else if r < 0.0 {
      PositiveProduct(-r, -r);
      SquareOfNegative(r);
    }
  }

  lemma PositiveProduct(a: real, b: real)
    requires a > 0.0 && b > 0.0
    ensures Times(a, b) > 0.0
  {
  }

  /** A quotient of a direction has the left of the direction. */
  lemma LeftIsLeft(p: Setup, d: Vec, dir: Vec, k: real)
    requires Lengths(p) && k > 0.0 && dir.x * k == d.x && dir.y * k == d.y
    requires d.x != 0.0 || d.y != 0.0
    ensures GroundLeft(p, dir).Some? && IsLeft(GroundLeft(p, dir).value, d)
  {
    assert dir.x != 0.0 || dir.y != 0.0;
    LeftOfDirection(p, dir);
    LeftScales(GroundLeft(p, dir).value, dir, d, k);
  }

  lemma LeftOfDirection(p: Setup, dir: Vec)
    requires Lengths(p) && (dir.x != 0.0 || dir.y != 0.0)
    ensures GroundLeft(p, dir).Some? && IsLeft(GroundLeft(p, dir).value, dir)
  {
    var left := Vec(-dir.y, dir.x, 0.0);
    PositiveLength(p, left);
    var n := p.norm(left);
    SquareOfNegative(dir.y);
    NonZeroSquare(0.0);
    Quotient(-dir.y, n);
    Quotient(dir.x, n);
    UnitAxis(GroundLeft(p, dir).value, dir, n);
  }

  lemma Quotient(a: real, d: real)
    requires d > 0.0
    ensures a / d * d == a
  {
  }

  lemma SquareOfNegative(a: real)
    ensures Squared(-a) == Squared(a)
  {
  }

  lemma UnitAxis(axis: Vec, dir: Vec, n: real)
    requires n > 0.0 && Squared(n) == Squared(dir.y) + Squared(dir.x)
    requires axis.z == 0.0 && axis.x * n == -dir.y && axis.y * n == dir.x
    ensures IsLeft(axis, dir)
  {
    SquareScales(axis.x, n, -dir.y);
    SquareScales(axis.y, n, dir.x);
    SquareOfNegative(dir.y);
    NonZeroSquare(n);
    IsOne(Squared(axis.x), Squared(axis.y), Squared(n));
    CrossOfAxis(axis, dir, n);
  }

  lemma SquareScales(x: real, n: real, xn: real)
    requires xn == x * n
    ensures Squared(xn) == Times(Squared(x), Squared(n))
  {
    assert x * n * (x * n) == x * x * (n * n);
  }

  lemma IsOne(a: real, b: real, k: real)
    requires k > 0.0 && Times(a, k) + Times(b, k) == k
    ensures a + b == 1.0
  {
    Distribute(a, b, k);
    TimesOne(a + b, k);
  }

  lemma Distribute(a: real, b: real, k: real)
    ensures Times(a, k) + Times(b, k) == Times(a + b, k)
  {
  }

  lemma TimesOne(q: real, k: real)
    requires k > 0.0 && Times(q, k) == k
    ensures q == 1.0
  {
    assert Times(1.0, k) == k;
    if q > 1.0 {
      TimesGrows(1.0, q, k);
    } else if q < 1.0 {
      TimesGrows(q, 1.0, k);
    }
  }

  lemma TimesGrows(a: real, b: real, k: real)
    requires a < b && k > 0.0
    ensures Times(a, k) < Times(b, k)
  {
  }

  lemma CrossOfAxis(axis: Vec, dir: Vec, n: real)
    requires n > 0.0 && axis.x * n == -dir.y && axis.y * n == dir.x && Squared(axis.x) + Squared(axis.y) == 1.0
    ensures dir.x * axis.x + dir.y * axis.y == 0.0 && dir.x * axis.y - dir.y * axis.x > 0.0
  {
    CrossTerms(axis.x, axis.y, n, dir.x, -dir.y);
  }

  lemma CrossTerms(x: real, y: real, n: real, yn: real, xn: real)
    requires xn == x * n && yn == y * n && x * x + y * y == 1.0
    ensures yn * x - xn * y == 0.0 && yn * y + xn * x == n
  {
    assert y * n * y + x * n * x == (x * x + y * y) * n;
  }

  lemma LeftScales(axis: Vec, dir: Vec, d: Vec, k: real)
    requires IsLeft(axis, dir) && k > 0.0 && dir.x * k == d.x && dir.y * k == d.y
    ensures IsLeft(axis, d)
  {
    assert d.x * axis.x + d.y * axis.y == (dir.x * axis.x + dir.y * axis.y) * k;
    assert d.x * axis.y - d.y * axis.x == (dir.x * axis.y - dir.y * axis.x) * k;
  }

  lemma AxisIsLeft(p: Setup, path: seq<Vec>, i: nat, before: Vec)
    requires Lengths(p) && 1 <= i < |path|
    ensures AxisMeets(LeftOf(p, Heading(p, path[i - 1], path[i]), before), path, i, before)
  {
    HeadingHasLeft(p, path[i - 1], path[i]);
  }

  lemma HeadingHasLeft(p: Setup, a: Vec, b: Vec)
    requires Lengths(p)
    ensures var d, left := Minus(b, a), GroundLeft(p, Heading(p, a, b));
            if d.x != 0.0 || d.y != 0.0 then left.Some? && IsLeft(left.value, d) else left.None?
  {
    var d, dir := Minus(b, a), Heading(p, a, b);
    if d.x != 0.0 || d.y != 0.0 {
      HeadingIsQuotient(p, a, b);
      LeftIsLeft(p, d, dir, p.norm(d));
    } else {
      assert dir.x == 0.0 && dir.y == 0.0;
      PositiveLength(p, Vec(-dir.y, dir.x, 0.0));
    }
  }

  lemma HeadingIsQuotient(p: Setup, a: Vec, b: Vec)
    requires Lengths(p) && (Minus(b, a).x != 0.0 || Minus(b, a).y != 0.0)
    ensures var d, dir := Minus(b, a), Heading(p, a, b);
            p.norm(d) > 0.0 && dir.x * p.norm(d) == d.x && dir.y * p.norm(d) == d.y
  {
    var d := Minus(b, a);
    PositiveLength(p, d);
    Quotient(d.x, p.norm(d));
    Quotient(d.y, p.norm(d));
  }

  lemma SampleIsOnPath(p: Setup, path: seq<Vec>, at: seq<real>, s: real)
    requires |at| == |path| && ArcLengths(at) && 0.0 <= s <= at[|at| - 1]
    ensures var i := Segment(at, s);
            OnPath(path, at, s, i, Fraction(at, s, i), SampleAt(p, path, at, s).point)
  {
    SampleIsAtItsArcLength(at, s);
    SegmentHolds(at, s, 1);
  }

  lemma TileIsAsAsked(p: Setup, path: seq<Vec>, at: seq<real>, width: real, ahead: bool, k: nat)
    requires Lengths(p) && |at| == |path| && ArcLengths(at) && PlateStart(k) + PLATE <= at[|at| - 1]
    ensures TileMeets(p, path, at, width, PlateStart(k), LeftAfter(p, path, at, k), LeftAfter(p, path, at, k + 1),
                      TileAt(p, path, at, width, ahead, k))
  {
    var s, before := PlateStart(k), LeftAfter(p, path, at, k);
    var ends := EndsAt(p, path, at, k);
    var axes := Axes(p, ends.0, ends.1, before);
    var corners := Corners(p, ends.0.point, axes.0, ends.1.point, axes.1, width / 2.0);
    var e := EndsLieBetween(p, path, at, width, s, before, ends.0, ends.1, axes.0, axes.1, corners);
    PartsOfTile(p, path, at, width, ahead, k);
    LyingMeets(p, path, at, width, s, before, axes.1, TileAt(p, path, at, width, ahead, k), e);
  }

  lemma LyingMeets(p: Setup, path: seq<Vec>, at: seq<real>, width: real, s: real, before: Vec, after: Vec, tile: Tile,
                   e: Ends)
    requires |at| == |path| >= 2 && 0.0 <= s < at[|at| - 1] && tile.fade == Fade(s, at[|at| - 1])
    requires LiesBetween(p, path, at, width, s, before, after, tile.corners, e)
    ensures TileMeets(p, path, at, width, s, before, after, tile)
  {
    FadeIsThePartAhead(s, at[|at| - 1]);
  }

  lemma PartsOfTile(p: Setup, path: seq<Vec>, at: seq<real>, width: real, ahead: bool, k: nat)
    requires |at| == |path| >= 2
    ensures var ends, tile := EndsAt(p, path, at, k), TileAt(p, path, at, width, ahead, k);
            var axes := Axes(p, ends.0, ends.1, LeftAfter(p, path, at, k));
            && LeftAfter(p, path, at, k + 1) == axes.1 && tile.fade == Fade(PlateStart(k), at[|at| - 1])
            && tile.corners == Corners(p, ends.0.point, axes.0, ends.1.point, axes.1, width / 2.0)
  {
  }

  lemma EndsLieBetween(p: Setup, path: seq<Vec>, at: seq<real>, width: real, s: real, before: Vec, a: Sample,
                       b: Sample, l0: Vec, l1: Vec, corners: seq<Vec>) returns (e: Ends)
    requires Lengths(p) && |at| == |path| && ArcLengths(at) && 0.0 <= s && s + PLATE <= at[|at| - 1]
    requires a == SampleAt(p, path, at, s) && b == SampleAt(p, path, at, s + PLATE)
    requires (l0, l1) == Axes(p, a, b, before) && corners == Corners(p, a.point, l0, b.point, l1, width / 2.0)
    ensures LiesBetween(p, path, at, width, s, before, l1, corners, e)
  {
    var i, j := Segment(at, s), Segment(at, s + PLATE);
    SampleIsOnPath(p, path, at, s);
    SampleIsOnPath(p, path, at, s + PLATE);
    AxisIsLeft(p, path, i, before);
    AxisIsLeft(p, path, j, l0);
    CornersAreAsAsked(p, a.point, l0, b.point, l1, width);
    e := Ends(i, Fraction(at, s, i), a.point, j, Fraction(at, s + PLATE, j), b.point, l0);
  }

  lemma CornersAreAsAsked(p: Setup, a: Vec, l0: Vec, b: Vec, l1: Vec, width: real)
    ensures CornersMeet(p, Corners(p, a, l0, b, l1, width / 2.0), a, l0, b, l1, width)
  {
    var h := width / 2.0;
    assert -h * l0.x == -(h * l0.x) && -h * l0.y == -(h * l0.y);
    assert -h * l1.x == -(h * l1.x) && -h * l1.y == -(h * l1.y);
  }

  lemma FadeIsThePartAhead(s: real, total: real)
    requires 0.0 <= s <= total && total > 0.0
    ensures Fade(s, total) * total == total - s
  {
    Ratio(s, total);
    assert (1.0 - s / total) * total == total - s / total * total;
  }

  function AxesUpTo(p: Setup, path: seq<Vec>, at: seq<real>, n: nat): (axes: seq<Vec>)
    requires |at| == |path| >= 2
    ensures |axes| == n + 1 && forall k | 0 <= k <= n :: axes[k] == LeftAfter(p, path, at, k)
  {
    if n == 0 then [LeftAfter(p, path, at, 0)]
    else AxesUpTo(p, path, at, n - 1) + [LeftAfter(p, path, at, n)]
  }

  lemma PlatesAreCounted(total: real)
    ensures CountsPlates(total, PlateCount(total))
  {
    forall k: nat
      ensures EndsOnPath(k, total) <==> k < PlateCount(total)
    {
      PlateFits(total, k);
    }
  }

  lemma LaidMeet(p: Setup, path: seq<Vec>, at: seq<real>, width: real, ahead: bool, tiles: seq<Tile>)
    requires Lengths(p) && |at| == |path| && ArcLengths(at)
    requires |tiles| == PlateCount(at[|at| - 1]) && Laid(p, path, at, width, ahead, tiles)
    ensures TilesMeet(p, path, at, width, ahead, tiles)
  {
    var axes := AxesUpTo(p, path, at, |tiles|);
    forall k | 0 <= k < |tiles|
      ensures tiles[k].ahead == ahead
      ensures TileMeets(p, path, at, width, Metres(k), axes[k], axes[k + 1], tiles[k])
    {
      PlateFits(at[|at| - 1], k);
      assert Metres(k) == PlateStart(k);
      TileIsAsAsked(p, path, at, width, ahead, k);
    }
    PlatesAreCounted(at[|at| - 1]);
  }

  /** Lay every plate that fits the path, in order. */
  method LayTiles(p: Setup, path: seq<Vec>, width: real, ahead: bool) returns (tiles: seq<Tile>, ghost at: seq<real>)
    requires Lengths(p)
    ensures |path| < 2 ==> tiles == []
    ensures |path| >= 2 ==>
              && Measures(p, path, at) && ArcLengths(at)
              && |tiles| == PlateCount(at[|at| - 1]) && Laid(p, path, at, width, ahead, tiles)
              && TilesMeet(p, path, at, width, ahead, tiles)
  {
    tiles, at := [], [];
    if |path| < 2 {
      return;
    }
    var lengths := Measure(p, path);
    at := lengths[..];
    MeasuredLengths(p, path, at);
    tiles := Walk(p, path, lengths[..], width, ahead);
    LaidMeet(p, path, at, width, ahead, tiles);
  }

  lemma MeasuredLengths(p: Setup, path: seq<Vec>, at: seq<real>)
    requires Lengths(p) && Measures(p, path, at)
    ensures ArcLengths(at)
  {
    forall i | 0 <= i < |at| - 1
      ensures at[i] <= at[i + 1]
    {
      assert at[i + 1] == at[i] + Distance(p, path[i], path[i + 1]);
      assert p.norm(Minus(path[i + 1], path[i])) >= 0.0;
    }
  }

  method Walk(p: Setup, path: seq<Vec>, at: seq<real>, width: real, ahead: bool) returns (tiles: seq<Tile>)
    requires |at| == |path| && ArcLengths(at)
    ensures |tiles| == PlateCount(at[|at| - 1]) && Laid(p, path, at, width, ahead, tiles)
  {
    tiles := [];
    var total := at[|at| - 1];
    var cursor, s, left := 1, 0.0, FIRST_LEFT;
    ghost var before := 0.0;
    while s + PLATE <= total
      invariant s == PlateStart(|tiles|) && |tiles| <= PlateCount(total) && before <= s
      invariant cursor == Segment(at, before)
      invariant left == LeftAfter(p, path, at, |tiles|)
      invariant Laid(p, path, at, width, ahead, tiles)
      decreases PlateCount(total) - |tiles|
    {
      PlateFits(total, |tiles|);
      var tile;
      tile, left, cursor := LayTile(p, path, at, width, ahead, |tiles|, s, left, cursor, before);
      OneMoreLaid(p, path, at, width, ahead, tiles, tile);
      tiles := tiles + [tile];
      before, s := s + PLATE, s + SPACING;
    }
    PlateFits(total, |tiles|);
  }
}
