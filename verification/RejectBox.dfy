/** The view cull: a point is kept when some sample's camera could see it.  The fast form first
    compares the point with a box around the view's frustum.  Over the reals it has the truth value of
    the plain form for every rigid camera pose. */
module RejectBox {

  datatype Vec = Vec(x: real, y: real, z: real)

  /** The part of a 4x4 transform that moves points: three rows of a rotation, and a translation. */
  datatype Mat4 = Mat4(xx: real, xy: real, xz: real, yx: real, yy: real, yz: real, zx: real, zy: real, zz: real,
                       t: Vec)

  datatype View = View(t: Mat4, loX: real, hiX: real, loY: real, hiY: real, loDepth: real, hiDepth: real)

  /** A bound of a box; the two infinities are below and above every real. */
  datatype Bound = NegInf | Finite(r: real) | PosInf
  datatype Corner = Corner(x: Bound, y: Bound, z: Bound)
  datatype Box = Box(lo: Corner, hi: Corner)

  const PAD := 0.001
  const EVERYWHERE := Box(Corner(NegInf, NegInf, NegInf), Corner(PosInf, PosInf, PosInf))
  const NOWHERE := Box(Corner(PosInf, PosInf, PosInf), Corner(NegInf, NegInf, NegInf))

  predicate Less(r: real, b: Bound) {
    match b
    case NegInf => false
    case PosInf => true
    case Finite(s) => r < s
  }

  predicate Greater(r: real, b: Bound) {
    match b
    case NegInf => true
    case PosInf => false
    case Finite(s) => r > s
  }

  function MinBound(b: Bound, r: real): Bound {
    if Less(r, b) then Finite(r) else b
  }

  function MaxBound(b: Bound, r: real): Bound {
    if Greater(r, b) then Finite(r) else b
  }

  // ---- transforms -------------------------------------------------------------------

  function Dot(a: real, b: real, c: real, p: Vec): real {
    a * p.x + b * p.y + c * p.z
  }

  function TransformX(t: Mat4, p: Vec): real { Dot(t.xx, t.xy, t.xz, p) + t.t.x }
  function TransformY(t: Mat4, p: Vec): real { Dot(t.yx, t.yy, t.yz, p) + t.t.y }
  function TransformZ(t: Mat4, p: Vec): real { Dot(t.zx, t.zy, t.zz, p) + t.t.z }

  function TransformPoint(t: Mat4, p: Vec): Vec {
    Vec(TransformX(t, p), TransformY(t, p), TransformZ(t, p))
  }

  /** The transposed rotation, and the translation that goes with it. */
  function RigidInverse(t: Mat4): Mat4 {
    Mat4(t.xx, t.yx, t.zx, t.xy, t.yy, t.zy, t.xz, t.yz, t.zz,
         Vec(-Dot(t.xx, t.yx, t.zx, t.t), -Dot(t.xy, t.yy, t.zy, t.t), -Dot(t.xz, t.yz, t.zz, t.t)))
  }

  /** The columns of the rotation are of unit length and at right angles. */
  predicate Rigid(t: Mat4) {
    && t.xx * t.xx + t.yx * t.yx + t.zx * t.zx == 1.0
    && t.xy * t.xy + t.yy * t.yy + t.zy * t.zy == 1.0
    && t.xz * t.xz + t.yz * t.yz + t.zz * t.zz == 1.0
    && t.xx * t.xy + t.yx * t.yy + t.zx * t.zy == 0.0
    && t.xx * t.xz + t.yx * t.yz + t.zx * t.zz == 0.0
    && t.xy * t.xz + t.yy * t.yz + t.zy * t.zz == 0.0
  }

  /** A column of the rotation picks one coordinate of the point back out of its image. */
  lemma ColumnPicks(t: Mat4, p: Vec, a: real, b: real, c: real)
    ensures Dot(a, b, c, TransformPoint(t, p)) - Dot(a, b, c, t.t) ==
            p.x * (a * t.xx + b * t.yx + c * t.zx) + p.y * (a * t.xy + b * t.yy + c * t.zy)
            + p.z * (a * t.xz + b * t.yz + c * t.zz)
  {
    RowTimes(a, t.xx, t.xy, t.xz, p, t.t.x);
    RowTimes(b, t.yx, t.yy, t.yz, p, t.t.y);
    RowTimes(c, t.zx, t.zy, t.zz, p, t.t.z);
    Gather(p.x, a * t.xx, b * t.yx, c * t.zx);
    Gather(p.y, a * t.xy, b * t.yy, c * t.zy);
    Gather(p.z, a * t.xz, b * t.yz, c * t.zz);
  }

  lemma RowTimes(k: real, a: real, b: real, c: real, p: Vec, t: real)
    ensures k * (Dot(a, b, c, p) + t) == p.x * (k * a) + p.y * (k * b) + p.z * (k * c) + k * t
  {
    Commute(k, a, p.x);
    Commute(k, b, p.y);
    Commute(k, c, p.z);
  }

  lemma Commute(k: real, a: real, x: real)
    ensures k * (a * x) == x * (k * a)
  {
  }

  lemma Gather(x: real, a: real, b: real, c: real)
    ensures x * (a + b + c) == x * a + x * b + x * c
  {
  }

  /** A rigid transform is undone by its rigid inverse. */
  lemma InverseUndoes(t: Mat4, p: Vec)
    requires Rigid(t)
    ensures TransformPoint(RigidInverse(t), TransformPoint(t, p)) == p
  {
    ColumnPicks(t, p, t.xx, t.yx, t.zx);
    ColumnPicks(t, p, t.xy, t.yy, t.zy);
    ColumnPicks(t, p, t.xz, t.yz, t.zz);
  }

  // ---- the two forms of the cull ---------------------------------------------------------

  /** `q` over depth within a window.  Over a depth of zero the quotient is infinite or undefined,
      and no comparison with a finite window holds. */
  predicate QuotientWithin(q: real, depth: real, lo: real, hi: real) {
    depth != 0.0 && lo <= q / depth <= hi
  }

  predicate InView(p: Vec, v: View) {
    var pc := TransformPoint(v.t, p);
    && !(pc.z < v.loDepth || pc.z > v.hiDepth)
    && QuotientWithin(pc.x, pc.z, v.loX, v.hiX)
    && QuotientWithin(pc.y, pc.z, v.loY, v.hiY)
  }

  /** The camera's coordinates of the point are `(x, y, 1)` times a depth that is not zero. */
  predicate ShownAt(p: Vec, v: View, x: real, y: real, z: real) {
    && z != 0.0
    && v.t.xx * p.x + v.t.xy * p.y + v.t.xz * p.z + v.t.t.x == x * z
    && v.t.yx * p.x + v.t.yy * p.y + v.t.yz * p.z + v.t.t.y == y * z
    && v.t.zx * p.x + v.t.zy * p.y + v.t.zz * p.z + v.t.t.z == z
  }

  predicate InWindows(v: View, x: real, y: real, z: real) {
    v.loX <= x <= v.hiX && v.loY <= y <= v.hiY && v.loDepth <= z <= v.hiDepth
  }

  /** A view accepts a point exactly when its camera shows it at some `(x, y)` and depth within the windows. */
  lemma InViewIff(p: Vec, v: View)
    ensures InView(p, v) <==> exists x, y, z :: ShownAt(p, v, x, y, z) && InWindows(v, x, y, z)
  {
    if InView(p, v) {
      var x, y, z := AcceptedIsShown(p, v);
    }
    if x, y, z :| ShownAt(p, v, x, y, z) && InWindows(v, x, y, z) {
      ShownIsAccepted(p, v, x, y, z);
    }
  }

  lemma AcceptedIsShown(p: Vec, v: View) returns (x: real, y: real, z: real)
    requires InView(p, v)
    ensures ShownAt(p, v, x, y, z) && InWindows(v, x, y, z)
  {
    z := TransformZ(v.t, p);
    x := QuotientIn(TransformX(v.t, p), z, v.loX, v.hiX);
    y := QuotientIn(TransformY(v.t, p), z, v.loY, v.hiY);
  }

  lemma ShownIsAccepted(p: Vec, v: View, x: real, y: real, z: real)
    requires ShownAt(p, v, x, y, z) && InWindows(v, x, y, z)
    ensures InView(p, v)
  {
    ProductWithin(TransformX(v.t, p), z, x, v.loX, v.hiX);
    ProductWithin(TransformY(v.t, p), z, y, v.loY, v.hiY);
  }

  lemma ProductWithin(q: real, d: real, x: real, lo: real, hi: real)
    requires d != 0.0 && q == x * d && lo <= x <= hi
    ensures QuotientWithin(q, d, lo, hi)
  {
    assert q / d == x;
  }

  predicate InAnyView(p: Vec, views: seq<View>) {
    views != [] && (InView(p, views[0]) || InAnyView(p, views[1..]))
  }

  predicate OutsideBox(p: Vec, box: Box) {
    || Less(p.x, box.lo.x) || Greater(p.x, box.hi.x)
    || Less(p.y, box.lo.y) || Greater(p.y, box.hi.y)
    || Less(p.z, box.lo.z) || Greater(p.z, box.hi.z)
  }

  /** The box first, then the depth alone, then the other two coordinates. */
  predicate InViewBoxFirst(p: Vec, v: View, box: Box) {
    if OutsideBox(p, box) then false
    else
      var z := TransformZ(v.t, p);
      if z < v.loDepth || z > v.hiDepth then false
      else
        && QuotientWithin(TransformX(v.t, p), z, v.loX, v.hiX)
        && QuotientWithin(TransformY(v.t, p), z, v.loY, v.hiY)
  }

  predicate InAnyViewBoxFirst(p: Vec, views: seq<View>, boxes: seq<Box>)
    requires |boxes| == |views|
  {
    views != [] && (InViewBoxFirst(p, views[0], boxes[0]) || InAnyViewBoxFirst(p, views[1..], boxes[1..]))
  }

  lemma {:induction false} InAnyViewMeans(p: Vec, views: seq<View>)
    ensures InAnyView(p, views) <==> exists i :: 0 <= i < |views| && InView(p, views[i])
  {
    if views != [] {
      InAnyViewMeans(p, views[1..]);
      assert forall i | 1 <= i < |views| :: views[i] == views[1..][i - 1];
      if i :| 0 <= i < |views| && InView(p, views[i]) {
        assert i > 0 ==> InView(p, views[1..][i - 1]);
      }
    }
  }

  // ---- the boxes ----------------------------------------------------------------------------

  function Pick(high: bool, lo: real, hi: real): real {
    if high then hi else lo
  }

  /** The point at depth `depth` in direction (xn, yn, 1), carried by a pose. */
  function CornerAt(pose: Mat4, depth: real, xn: real, yn: real): Vec {
    TransformPoint(pose, Vec(xn * depth, yn * depth, depth))
  }

  /** A corner of the frustum, in the reference frame. */
  function FrustumCorner(v: View, d: bool, x: bool, y: bool): Vec {
    CornerAt(RigidInverse(v.t), Pick(d, v.loDepth, v.hiDepth), Pick(x, v.loX, v.hiX), Pick(y, v.loY, v.hiY))
  }

  /** All eight, the depth changing slowest. */
  function FrustumCorners(v: View): (corners: seq<Vec>)
    ensures |corners| == 8
    ensures forall d, x, y :: FrustumCorner(v, d, x, y) in corners
  {
    var at := (d, x, y) => FrustumCorner(v, d, x, y);
    [at(false, false, false), at(false, false, true), at(false, true, false), at(false, true, true),
     at(true, false, false), at(true, false, true), at(true, true, false), at(true, true, true)]
  }

  function Widened(box: Box, c: Vec): Box {
    Box(Corner(MinBound(box.lo.x, c.x - PAD), MinBound(box.lo.y, c.y - PAD), MinBound(box.lo.z, c.z - PAD)),
        Corner(MaxBound(box.hi.x, c.x + PAD), MaxBound(box.hi.y, c.y + PAD), MaxBound(box.hi.z, c.z + PAD)))
  }

  function Hull(corners: seq<Vec>): Box {
    if corners == [] then NOWHERE else Widened(Hull(corners[..|corners| - 1]), corners[|corners| - 1])
  }

  /** The box of a view; unbounded when part of the view may lie behind the camera. */
  function BoxOf(v: View): Box {
    if v.loDepth <= 0.0 then EVERYWHERE else Hull(FrustumCorners(v))
  }

  method ViewRejectBoxes(views: seq<View>) returns (boxes: seq<Box>)
    ensures |boxes| == |views| && forall i | 0 <= i < |views| :: boxes[i] == BoxOf(views[i])
  {
    boxes := [];
    for n := 0 to |views|
      invariant |boxes| == n && forall i | 0 <= i < n :: boxes[i] == BoxOf(views[i])
    {
      var v := views[n];
      if v.loDepth <= 0.0 {
        boxes := boxes + [EVERYWHERE];
        continue;
      }
      var box := CornerBox(v);
      boxes := boxes + [box];
    }
  }

  lemma CornersInOrder(v: View, d: nat, x: nat, y: nat)
    requires d < 2 && x < 2 && y < 2
    ensures HullBefore(v, 4 * d + 2 * x + y + 1) ==
            Widened(HullBefore(v, 4 * d + 2 * x + y), FrustumCorner(v, d == 1, x == 1, y == 1))
  {
    var corners, n := FrustumCorners(v), 4 * d + 2 * x + y;
    assert corners[..n + 1][..n] == corners[..n];
    assert corners[n] == FrustumCorner(v, d == 1, x == 1, y == 1);
  }

  function HullBefore(v: View, n: nat): Box
    requires n <= 8
  {
    Hull(FrustumCorners(v)[..n])
  }

  method CornerBox(v: View) returns (box: Box)
    ensures box == Hull(FrustumCorners(v))
  {
    box := NOWHERE;
    var inverse := RigidInverse(v.t);
    for d := 0 to 2
      invariant box == HullBefore(v, 4 * d)
    {
      for x := 0 to 2
        invariant box == HullBefore(v, 4 * d + 2 * x)
      {
        for y := 0 to 2
          invariant box == HullBefore(v, 4 * d + 2 * x + y)
        {
          box := WithCorner(v, inverse, box, d, x, y);
        }
      }
    }
    assert FrustumCorners(v)[..8] == FrustumCorners(v);
  }

  method WithCorner(v: View, inverse: Mat4, box: Box, d: nat, x: nat, y: nat) returns (after: Box)
    requires d < 2 && x < 2 && y < 2 && inverse == RigidInverse(v.t)
    requires box == HullBefore(v, 4 * d + 2 * x + y)
    ensures after == HullBefore(v, 4 * d + 2 * x + y + 1)
  {
    var depth, xn, yn := Pick(d == 1, v.loDepth, v.hiDepth), Pick(x == 1, v.loX, v.hiX), Pick(y == 1, v.loY, v.hiY);
    CornersInOrder(v, d, x, y);
    after := Widened(box, CornerAt(inverse, depth, xn, yn));
  }

  /** The hull holds its corners with the pad to spare. */
  lemma {:induction false} HullCovers(corners: seq<Vec>, c: Vec)
    requires c in corners
    ensures var box := Hull(corners);
            && !Greater(c.x + PAD, box.hi.x) && !Less(c.x - PAD, box.lo.x)
            && !Greater(c.y + PAD, box.hi.y) && !Less(c.y - PAD, box.lo.y)
            && !Greater(c.z + PAD, box.hi.z) && !Less(c.z - PAD, box.lo.z)
  {
    var front := corners[..|corners| - 1];
    assert corners == front + [corners[|corners| - 1]];
    if c in front {
      HullCovers(front, c);
    }
  }

  /** And no more than the pad: each face is the pad away from some corner. */
  lemma {:induction false} HullIsTight(corners: seq<Vec>)
    requires corners != []
    ensures var box := Hull(corners);
            && (exists c :: c in corners && box.lo.x == Finite(c.x - PAD))
            && (exists c :: c in corners && box.hi.x == Finite(c.x + PAD))
            && (exists c :: c in corners && box.lo.y == Finite(c.y - PAD))
            && (exists c :: c in corners && box.hi.y == Finite(c.y + PAD))
            && (exists c :: c in corners && box.lo.z == Finite(c.z - PAD))
            && (exists c :: c in corners && box.hi.z == Finite(c.z + PAD))
  {
    var front, last := corners[..|corners| - 1], corners[|corners| - 1];
    assert last in corners;
    assert forall c | c in front :: c in corners;
    if front != [] {
      HullIsTight(front);
    }
  }

  // ---- a frustum lies in its box --------------------------------------------------------------

  /** One end of an interval is at most as large under a linear map as any point in between. */
  lemma LowEnd(a: real, x: real, lo: real, hi: real) returns (high: bool)
    requires lo <= x <= hi
    ensures a * Pick(high, lo, hi) <= a * x
  {
    if a >= 0.0 {
      high := false;
      Scale(a, lo, x);
    } else {
      high := true;
      Scale(-a, x, hi);
    }
  }

  lemma Scale(a: real, x: real, y: real)
    requires a >= 0.0 && x <= y
    ensures a * x <= a * y
  {
  }

  /** The height of the point at (x, y) on the image plane pushed out to depth z. */
  function Height(a: real, b: real, c: real, x: real, y: real, z: real): real {
    a * (x * z) + b * (y * z) + c * z
  }

  lemma HeightFactors(a: real, b: real, c: real, x: real, y: real, z: real)
    ensures Height(a, b, c, x, y, z) == (a * x + b * y + c) * z
  {
    assert a * (x * z) == (a * x) * z;
    assert b * (y * z) == (b * y) * z;
  }

  /** A height is linear in each of x, y and z, so some corner is at most as high as any point of the
      frustum. */
  lemma LowCorner(v: View, a: real, b: real, c: real, x: real, y: real, z: real) returns (hz: bool, hx: bool, hy: bool)
    requires v.loX <= x <= v.hiX && v.loY <= y <= v.hiY && 0.0 < v.loDepth <= z <= v.hiDepth
    ensures Height(a, b, c, Pick(hx, v.loX, v.hiX), Pick(hy, v.loY, v.hiY), Pick(hz, v.loDepth, v.hiDepth)) <=
            Height(a, b, c, x, y, z)
  {
    hx := LowEnd(a, x, v.loX, v.hiX);
    hy := LowEnd(b, y, v.loY, v.hiY);
    var cx, cy := Pick(hx, v.loX, v.hiX), Pick(hy, v.loY, v.hiY);
    hz := LowEnd(a * cx + b * cy + c, z, v.loDepth, v.hiDepth);
    LowerPlane(a, b, c, cx, cy, x, y, z, Pick(hz, v.loDepth, v.hiDepth));
  }

  lemma LowerPlane(a: real, b: real, c: real, cx: real, cy: real, x: real, y: real, z: real, cz: real)
    requires a * cx <= a * x && b * cy <= b * y && z >= 0.0
    requires (a * cx + b * cy + c) * cz <= (a * cx + b * cy + c) * z
    ensures Height(a, b, c, cx, cy, cz) <= Height(a, b, c, x, y, z)
  {
    HeightFactors(a, b, c, x, y, z);
    HeightFactors(a, b, c, cx, cy, cz);
    LowerFactor(a * cx, b * cy, a * x, b * y, c, z);
  }

  lemma LowerFactor(p: real, q: real, p': real, q': real, c: real, z: real)
    requires p <= p' && q <= q' && z >= 0.0
    ensures (p + q + c) * z <= (p' + q' + c) * z
  {
    Scale(z, p + q + c, p' + q' + c);
  }

  lemma Negated(a: real, b: real, c: real, x: real, y: real, z: real)
    ensures Height(-a, -b, -c, x, y, z) == -Height(a, b, c, x, y, z)
  {
  }

  /** One row of a transform, applied to a frustum point, is a height. */
  lemma RowIsHeight(a: real, b: real, c: real, x: real, y: real, z: real)
    ensures Dot(a, b, c, Vec(x * z, y * z, z)) == Height(a, b, c, x, y, z)
  {
  }

  ghost function CornerRow(v: View, a: real, b: real, c: real, hz: bool, hx: bool, hy: bool): real {
    var depth := Pick(hz, v.loDepth, v.hiDepth);
    Dot(a, b, c, Vec(Pick(hx, v.loX, v.hiX) * depth, Pick(hy, v.loY, v.hiY) * depth, depth))
  }

  /** Along one row of the inverse pose a corner reaches as low as a frustum point, ... */
  lemma RowLow(v: View, a: real, b: real, c: real, x: real, y: real, z: real) returns (hz: bool, hx: bool, hy: bool)
    requires v.loX <= x <= v.hiX && v.loY <= y <= v.hiY && 0.0 < v.loDepth <= z <= v.hiDepth
    ensures CornerRow(v, a, b, c, hz, hx, hy) <= Dot(a, b, c, Vec(x * z, y * z, z))
  {
    hz, hx, hy := LowCorner(v, a, b, c, x, y, z);
    RowIsHeight(a, b, c, x, y, z);
    RowIsHeight(a, b, c, Pick(hx, v.loX, v.hiX), Pick(hy, v.loY, v.hiY), Pick(hz, v.loDepth, v.hiDepth));
  }

  /** ... and a corner as high. */
  lemma RowHigh(v: View, a: real, b: real, c: real, x: real, y: real, z: real) returns (hz: bool, hx: bool, hy: bool)
    requires v.loX <= x <= v.hiX && v.loY <= y <= v.hiY && 0.0 < v.loDepth <= z <= v.hiDepth
    ensures CornerRow(v, a, b, c, hz, hx, hy) >= Dot(a, b, c, Vec(x * z, y * z, z))
  {
    hz, hx, hy := LowCorner(v, -a, -b, -c, x, y, z);
    var cx, cy, cz := Pick(hx, v.loX, v.hiX), Pick(hy, v.loY, v.hiY), Pick(hz, v.loDepth, v.hiDepth);
    Negated(a, b, c, x, y, z);
    Negated(a, b, c, cx, cy, cz);
    RowIsHeight(a, b, c, x, y, z);
    RowIsHeight(a, b, c, cx, cy, cz);
  }

  /** Bounds that hold all corners along a row hold the frustum point. */
  lemma RowInside(v: View, a: real, b: real, c: real, t: real, x: real, y: real, z: real, lo: Bound, hi: Bound)
    requires v.loX <= x <= v.hiX && v.loY <= y <= v.hiY && 0.0 < v.loDepth <= z <= v.hiDepth
    requires forall hz, hx, hy :: RowWithin(CornerRow(v, a, b, c, hz, hx, hy) + t, PAD, lo, hi)
    ensures RowWithin(Dot(a, b, c, Vec(x * z, y * z, z)) + t, 0.0, lo, hi)
  {
    var _, _, _ := RowLow(v, a, b, c, x, y, z);
    var _, _, _ := RowHigh(v, a, b, c, x, y, z);
  }

  /** All corners lie in the box with the pad to spare. */
  ghost predicate HoldsCorners(v: View, i: Mat4, box: Box) {
    forall hz, hx, hy ::
      && RowWithin(CornerRow(v, i.xx, i.xy, i.xz, hz, hx, hy) + i.t.x, PAD, box.lo.x, box.hi.x)
      && RowWithin(CornerRow(v, i.yx, i.yy, i.yz, hz, hx, hy) + i.t.y, PAD, box.lo.y, box.hi.y)
      && RowWithin(CornerRow(v, i.zx, i.zy, i.zz, hz, hx, hy) + i.t.z, PAD, box.lo.z, box.hi.z)
  }

  predicate RowWithin(r: real, pad: real, lo: Bound, hi: Bound) {
    !Less(r - pad, lo) && !Greater(r + pad, hi)
  }

  lemma BoxHoldsCorners(v: View)
    requires v.loDepth > 0.0
    ensures HoldsCorners(v, RigidInverse(v.t), BoxOf(v))
  {
    forall hz, hx, hy
      ensures var i, box := RigidInverse(v.t), BoxOf(v);
        && RowWithin(CornerRow(v, i.xx, i.xy, i.xz, hz, hx, hy) + i.t.x, PAD, box.lo.x, box.hi.x)
        && RowWithin(CornerRow(v, i.yx, i.yy, i.yz, hz, hx, hy) + i.t.y, PAD, box.lo.y, box.hi.y)
        && RowWithin(CornerRow(v, i.zx, i.zy, i.zz, hz, hx, hy) + i.t.z, PAD, box.lo.z, box.hi.z)
    {
      HullCovers(FrustumCorners(v), FrustumCorner(v, hz, hx, hy));
    }
  }

  lemma InsideByRows(p: Vec, box: Box)
    requires RowWithin(p.x, 0.0, box.lo.x, box.hi.x) && RowWithin(p.y, 0.0, box.lo.y, box.hi.y)
    requires RowWithin(p.z, 0.0, box.lo.z, box.hi.z)
    ensures !OutsideBox(p, box)
  {
  }

  /** A frustum point lies in any box that holds the corners. */
  lemma FrustumPointInBox(v: View, i: Mat4, box: Box, x: real, y: real, pc: Vec)
    requires v.loX <= x <= v.hiX && v.loY <= y <= v.hiY && 0.0 < v.loDepth <= pc.z <= v.hiDepth
    requires pc.x == x * pc.z && pc.y == y * pc.z
    requires HoldsCorners(v, i, box)
    ensures !OutsideBox(TransformPoint(i, pc), box)
  {
    var z := pc.z;
    assert pc == Vec(x * z, y * z, z);
    RowInside(v, i.xx, i.xy, i.xz, i.t.x, x, y, z, box.lo.x, box.hi.x);
    RowInside(v, i.yx, i.yy, i.yz, i.t.y, x, y, z, box.lo.y, box.hi.y);
    RowInside(v, i.zx, i.zy, i.zz, i.t.z, x, y, z, box.lo.z, box.hi.z);
    InsideByRows(TransformPoint(i, pc), box);
  }

  lemma QuotientIn(q: real, depth: real, lo: real, hi: real) returns (n: real)
    requires QuotientWithin(q, depth, lo, hi)
    ensures lo <= n <= hi && q == n * depth
  {
    n := q / depth;
  }

  lemma SeenImageInBox(pc: Vec, v: View, i: Mat4, box: Box)
    requires 0.0 < v.loDepth <= pc.z <= v.hiDepth && HoldsCorners(v, i, box)
    requires QuotientWithin(pc.x, pc.z, v.loX, v.hiX) && QuotientWithin(pc.y, pc.z, v.loY, v.hiY)
    ensures !OutsideBox(TransformPoint(i, pc), box)
  {
    var x := QuotientIn(pc.x, pc.z, v.loX, v.hiX);
    var y := QuotientIn(pc.y, pc.z, v.loY, v.hiY);
    FrustumPointInBox(v, i, box, x, y, pc);
  }

  /** A point a view accepts is not outside the view's box. */
  lemma SeenPointInBox(p: Vec, v: View)
    requires Rigid(v.t) && InView(p, v)
    ensures !OutsideBox(p, BoxOf(v))
  {
    if v.loDepth > 0.0 {
      InverseUndoes(v.t, p);
      BoxHoldsCorners(v);
      SeenImageInBox(TransformPoint(v.t, p), v, RigidInverse(v.t), BoxOf(v));
    }
  }

  /** Testing the boxes first never changes the answer. */
  lemma {:induction false} BoxFirstIsPlain(p: Vec, views: seq<View>, boxes: seq<Box>)
    requires |boxes| == |views| && forall i | 0 <= i < |views| :: boxes[i] == BoxOf(views[i])
    requires forall v | v in views :: Rigid(v.t)
    ensures InAnyViewBoxFirst(p, views, boxes) == InAnyView(p, views)
  {
    if views != [] {
      if InView(p, views[0]) {
        SeenPointInBox(p, views[0]);
      }
      assert forall v | v in views[1..] :: v in views;
      BoxFirstIsPlain(p, views[1..], boxes[1..]);
    }
  }

  /** So box first or not, a point is kept exactly when some view's camera shows it within the windows. */
  lemma BoxFirstMeans(p: Vec, views: seq<View>, boxes: seq<Box>)
    requires |boxes| == |views| && forall i | 0 <= i < |views| :: boxes[i] == BoxOf(views[i])
    requires forall v | v in views :: Rigid(v.t)
    ensures InAnyViewBoxFirst(p, views, boxes) <==>
            exists i, x, y, z :: 0 <= i < |views| && ShownAt(p, views[i], x, y, z) && InWindows(views[i], x, y, z)
  {
    BoxFirstIsPlain(p, views, boxes);
    InAnyViewMeans(p, views);
    forall v
      ensures InView(p, v) <==> exists x, y, z :: ShownAt(p, v, x, y, z) && InWindows(v, x, y, z)
    {
      InViewIff(p, v);
    }
  }
}
