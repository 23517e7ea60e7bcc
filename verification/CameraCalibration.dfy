/** The calibration of a camera whose pictures are resized: its pixel entries are scaled along. */
module CameraCalibration {
  import opened GridCanvas

  /** Rounding half up, as for non-negative numbers it does. */
  function Lround(r: real): int { (r + 0.5).Floor }

  function Scaled(side: Word, scale: real): Word { ToWord(Lround(side as real * scale)) }

  predicate IsNearest(r: real, n: Word) {
    n as real - 0.5 <= r < n as real + 0.5
  }

  /** A scaled side is the whole number nearest to the side times the scale, when that fits. */
  lemma ScaledIsNearest(side: Word, scale: real)
    requires 0.0 <= side as real * scale < 4294967295.0
    ensures IsNearest(side as real * scale, Scaled(side, scale))
  {
    SmallWord(Lround(side as real * scale));
  }

  datatype Row3 = Row3(x: real, y: real, z: real)
  datatype Row4 = Row4(x: real, y: real, z: real, t: real)

  /** The size it was made at, the rows of the intrinsic matrix and of the projection matrix, and the
      distortion and rectification, which resizing does not concern. */
  datatype CameraInfo = CameraInfo(width: Word, height: Word, k: (Row3, Row3, Row3), p: (Row4, Row4, Row4),
                                   rest: nat)

  function ScaleRow(row: Row4, s: real): Row4 { Row4(row.x * s, row.y * s, row.z * s, row.t * s) }
  function ScaleFirst(row: Row3, s: real): Row3 { Row3(row.x * s, row.y * s, row.z * s) }
  function ScaleSecond(row: Row3, s: real): Row3 { Row3(row.x, row.y * s, row.z * s) }

  /** Scale the entries that are pixels. */
  function ScaleInfo(info: CameraInfo, sx: real, sy: real): CameraInfo {
    CameraInfo(Scaled(info.width, sx), Scaled(info.height, sy),
               (ScaleFirst(info.k.0, sx), ScaleSecond(info.k.1, sy), info.k.2),
               (ScaleRow(info.p.0, sx), ScaleRow(info.p.1, sy), info.p.2), info.rest)
  }

  /** The calibration for pictures of a given size: as it is when made at that size or at no known one. */
  function InfoForSize(info: CameraInfo, width: Word, height: Word): CameraInfo {
    if info.width == 0 || info.height == 0 || (info.width == width && info.height == height) then info
    else ScaleInfo(info, width as real / info.width as real, height as real / info.height as real)
  }

  datatype Point = Point(x: real, y: real, z: real)
  function At(row: Row4, q: Point): real { row.x * q.x + row.y * q.y + row.z * q.z + row.t }

  /** The pixel coordinate a row of the projection matrix shows a point at. */
  function Shown(row: Row4, depth: Row4, q: Point): real
    requires At(depth, q) != 0.0
  {
    At(row, q) / At(depth, q)
  }

  /** The pixel coordinate a row of the intrinsic matrix shows the ray through `(x, y)` at. */
  function OnRay(row: Row3, x: real, y: real): real { row.x * x + row.y * y + row.z }

  // ---- a scaled calibration goes with a scaled picture ----------------------------------------------

  /** The scaled calibration shows every point where the scaled picture does. */
  lemma ScaledProjection(info: CameraInfo, sx: real, sy: real, q: Point)
    requires At(info.p.2, q) != 0.0
    ensures var scaled := ScaleInfo(info, sx, sy);
            && scaled.p.2 == info.p.2
            && Shown(scaled.p.0, scaled.p.2, q) == Shown(info.p.0, info.p.2, q) * sx
            && Shown(scaled.p.1, scaled.p.2, q) == Shown(info.p.1, info.p.2, q) * sy
  {
    ShownScales(info.p.0, info.p.2, sx, q);
    ShownScales(info.p.1, info.p.2, sy, q);
  }

  lemma ShownScales(row: Row4, depth: Row4, s: real, q: Point)
    requires At(depth, q) != 0.0
    ensures Shown(ScaleRow(row, s), depth, q) == Shown(row, depth, q) * s
  {
    RowScales(row, s, q);
    QuotientScales(At(row, q), At(depth, q), s);
  }

  lemma QuotientScales(a: real, b: real, s: real)
    requires b != 0.0
    ensures a * s / b == a / b * s
  {
    assert a * s == a / b * s * b;
  }

  lemma RowScales(row: Row4, s: real, q: Point)
    ensures At(ScaleRow(row, s), q) == At(row, q) * s
  {
    assert row.x * s * q.x == row.x * q.x * s && row.y * s * q.y == row.y * q.y * s;
    assert row.z * s * q.z == row.z * q.z * s;
  }

  /** Of the intrinsic matrix the first row shows every ray where the scaled picture does, ... */
  lemma FirstRowScales(row: Row3, s: real, x: real, y: real)
    ensures OnRay(ScaleFirst(row, s), x, y) == OnRay(row, x, y) * s
  {
    assert row.x * s * x == row.x * x * s && row.y * s * y == row.y * y * s;
  }

  /** ... and the second exactly when the entry that is not scaled is zero, or the height stays. */
  lemma SecondRowScalesIff(row: Row3, s: real)
    ensures (forall x, y :: SecondRowScalesAt(row, s, x, y)) <==> row.x == 0.0 || s == 1.0
  {
    forall x, y
      ensures SecondRowScalesAt(row, s, x, y) <==> row.x * x == row.x * x * s
    {
      SecondRowAt(row, s, x, y);
    }
    if row.x != 0.0 && s != 1.0 {
      Unequal(row.x, s);
      assert !SecondRowScalesAt(row, s, 1.0, 0.0);
    }
  }

  predicate SecondRowScalesAt(row: Row3, s: real, x: real, y: real) {
    OnRay(ScaleSecond(row, s), x, y) == OnRay(row, x, y) * s
  }

  lemma SecondRowAt(row: Row3, s: real, x: real, y: real)
    ensures SecondRowScalesAt(row, s, x, y) <==> row.x * x == row.x * x * s
  {
    FirstRowScales(row, s, x, y);
    var entry, scaled := row.x * x, row.x * s * x;
    assert OnRay(ScaleSecond(row, s), x, y) == OnRay(ScaleFirst(row, s), x, y) - scaled + entry;
    assert scaled == entry * s by {
      Reorder(row.x, s, x);
    }
  }

  lemma Reorder(a: real, b: real, c: real)
    ensures a * b * c == a * c * b
  {
  }

  lemma Unequal(a: real, s: real)
    requires a != 0.0 && s != 1.0
    ensures a * 1.0 != a * 1.0 * s
  {
    assert a * s - a == a * (s - 1.0);
  }

  /** Scaling a side to a size gives the size. */
  lemma ScaledToSize(side: Word, size: Word)
    requires side > 0
    ensures Scaled(side, size as real / side as real) == size
  {
    Cancels(side as real, size as real);
    ScaledExactly(side, size as real / side as real, size);
  }

  lemma Cancels(a: real, b: real)
    requires a != 0.0
    ensures a * (b / a) == b
  {
  }

  lemma ScaledExactly(side: Word, scale: real, size: Word)
    requires side as real * scale == size as real
    ensures Scaled(side, scale) == size
  {
    assert Lround(size as real) == size;
    SmallWord(size);
  }

  lemma SmallWord(n: int)
    requires 0 <= n < WORDS
    ensures ToWord(n) == n
  {
  }

  /** The calibration a resized picture is drawn with: scaled like the picture, then matched to its size. */
  function ResizedInfo(info: CameraInfo, sx: real, sy: real, width: Word, height: Word): CameraInfo {
    InfoForSize(ScaleInfo(info, sx, sy), width, height)
  }

  /** It is of the picture's size, and one made at the picture's own size is scaled just like the picture. */
  lemma ResizedInfoFits(info: CameraInfo, sx: real, sy: real, nativeW: Word, nativeH: Word, width: Word,
                        height: Word)
    requires width == Scaled(nativeW, sx) && height == Scaled(nativeH, sy)
    ensures var resized := ResizedInfo(info, sx, sy, width, height);
            && ((info.width, info.height) == (nativeW, nativeH) ==> resized == ScaleInfo(info, sx, sy))
            && (Scaled(info.width, sx) > 0 && Scaled(info.height, sy) > 0 ==>
                  (resized.width, resized.height) == (width, height))
  {
    var scaled := ScaleInfo(info, sx, sy);
    if scaled.width > 0 && scaled.height > 0 {
      ScaledToSize(scaled.width, width);
      ScaledToSize(scaled.height, height);
    }
  }
}
