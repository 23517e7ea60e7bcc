/** How large a camera panel renders its picture, and panels pasting their pictures into one canvas row
    by row, in any order. */
module PanelPaste {
  import opened Wrappers
  import opened GridCanvas
  import opened CameraCalibration
  import opened FrameLaw

  // ---- the size a panel renders at -------------------------------------------------------------

  function FitScale(nativeW: nat, nativeH: nat, cellW: nat, cellH: nat): real
    requires nativeW > 0 && nativeH > 0
  {
    var sx, sy := cellW as real / nativeW as real, cellH as real / nativeH as real;
    if sy < sx then sy else sx
  }

  lemma ScaledSide(native: nat, cell: nat, scale: real)
    requires native > 0 && 0.0 <= scale <= cell as real / native as real
    ensures 0.0 <= native as real * scale <= cell as real
  {
    var n := native as real;
    assert n * (cell as real / n) == cell as real;
    assert n * (cell as real / n) - n * scale == n * (cell as real / n - scale);
  }

  /** A picture scaled to fit is no larger than the cell even if the scaled side is computed with an
      error of up to half a pixel; computed exactly, it fills the cell in one direction. */
  lemma FitStaysInCell(nativeW: nat, nativeH: nat, cellW: nat, cellH: nat, s: real, w: real, h: real)
    requires nativeW > 0 && nativeH > 0 && s == FitScale(nativeW, nativeH, cellW, cellH)
    requires -0.5 < w - nativeW as real * s < 0.5 && -0.5 < h - nativeH as real * s < 0.5
    ensures 0 <= Lround(w) <= cellW && 0 <= Lround(h) <= cellH
    ensures w == nativeW as real * s && h == nativeH as real * s ==> Lround(w) == cellW || Lround(h) == cellH
  {
    ScaleIsPositive(nativeW, nativeH, cellW, cellH);
    ScaledSide(nativeW, cellW, s);
    ScaledSide(nativeH, cellH, s);
    if s == cellW as real / nativeW as real {
      assert nativeW as real * s == cellW as real;
    } else {
      assert nativeH as real * s == cellH as real;
    }
  }

  lemma ScaleIsPositive(nativeW: nat, nativeH: nat, cellW: nat, cellH: nat)
    requires nativeW > 0 && nativeH > 0
    ensures FitScale(nativeW, nativeH, cellW, cellH) >= 0.0
  {
  }

  /** No larger scale keeps both sides inside the cell, and this one does. */
  predicate IsLargestFit(w: nat, h: nat, cellW: nat, cellH: nat, scale: real) {
    && w as real * scale <= cellW as real && h as real * scale <= cellH as real
    && (w as real * scale == cellW as real || h as real * scale == cellH as real)
  }

  predicate SidesMeet(w: Word, h: Word, scale: real, outW: Word, outH: Word) {
    && (0.0 <= w as real * scale < 4294967295.0 ==> IsNearest(w as real * scale, outW))
    && (0.0 <= h as real * scale < 4294967295.0 ==> IsNearest(h as real * scale, outH))
  }

  lemma NearestSides(w: Word, h: Word, scale: real)
    ensures SidesMeet(w, h, scale, Scaled(w, scale), Scaled(h, scale))
  {
    if 0.0 <= w as real * scale < 4294967295.0 {
      ScaledIsNearest(w, scale);
    }
    if 0.0 <= h as real * scale < 4294967295.0 {
      ScaledIsNearest(h, scale);
    }
  }

  lemma FitIsLargest(w: nat, h: nat, cellW: nat, cellH: nat)
    requires w > 0 && h > 0
    ensures IsLargestFit(w, h, cellW, cellH, FitScale(w, h, cellW, cellH))
  {
    var scale := FitScale(w, h, cellW, cellH);
    ScaleIsPositive(w, h, cellW, cellH);
    ScaledSide(w, cellW, scale);
    ScaledSide(h, cellH, scale);
    Cancels(w as real, cellW as real);
    Cancels(h as real, cellH as real);
  }

  datatype PrepareResult = Prepared(width: Word, height: Word, info: Option<CameraInfo>) | SizeChanged | ZeroSize

  /** One camera panel's renderer.  The clock panel's has a fixed scale or a fixed size. */
  class ViewRenderer {
    const calibration: Option<CameraInfo>
    const fixedScale: Option<real>
    var fixedSize: Option<(Word, Word)>
    var nativeW: Word
    var nativeH: Word

    constructor (calibration: Option<CameraInfo>, fixedScale: Option<real>)
      ensures this.calibration == calibration && this.fixedScale == fixedScale
      ensures fixedSize == None && nativeW == 0 && nativeH == 0
    {
      this.calibration, this.fixedScale := calibration, fixedScale;
      fixedSize := None;
      nativeW, nativeH := 0, 0;
    }

    predicate SizeLocked()
      reads this
    {
      fixedScale.Some? || fixedSize.Some?
    }

    /** The size to render a picture at, given the picture's own size and the cell's. */
    function RenderSize(w: Word, h: Word, cellW: Word, cellH: Word): (Word, Word)
      requires w > 0 && h > 0
      reads this
    {
      if fixedSize.Some? then fixedSize.value
      else
        var scale := if fixedScale.Some? then fixedScale.value else FitScale(w, h, cellW, cellH);
        (Scaled(w, scale), Scaled(h, scale))
    }

    /** The pinned size; or both sides by one scale, to the nearest pixel: the fixed one, or the largest that
        keeps the picture inside the cell. */
    ghost predicate SizeMeets(w: Word, h: Word, cellW: Word, cellH: Word, outW: Word, outH: Word)
      reads this
    {
      if fixedSize.Some? then (outW, outH) == fixedSize.value
      else if fixedScale.Some? then SidesMeet(w, h, fixedScale.value, outW, outH)
      else
        w > 0 && h > 0 && exists scale :: IsLargestFit(w, h, cellW, cellH, scale) && SidesMeet(w, h, scale, outW, outH)
    }

    lemma SizeDoesMeet(w: Word, h: Word, cellW: Word, cellH: Word)
      requires w > 0 && h > 0
      ensures SizeMeets(w, h, cellW, cellH, RenderSize(w, h, cellW, cellH).0, RenderSize(w, h, cellW, cellH).1)
    {
      if fixedSize.None? {
        var scale := if fixedScale.Some? then fixedScale.value else FitScale(w, h, cellW, cellH);
        NearestSides(w, h, scale);
        if fixedScale.None? {
          FitIsLargest(w, h, cellW, cellH);
        }
      }
    }

    /** What a picture of this size is scaled by, across and down. */
    function Factors(w: Word, h: Word, cellW: Word, cellH: Word): (real, real)
      requires w > 0 && h > 0
      reads this
    {
      if fixedSize.Some? then (fixedSize.value.0 as real / w as real, fixedSize.value.1 as real / h as real)
      else
        var scale := if fixedScale.Some? then fixedScale.value else FitScale(w, h, cellW, cellH);
        (scale, scale)
    }

    lemma FactorsGiveTheSize(w: Word, h: Word, cellW: Word, cellH: Word)
      requires w > 0 && h > 0
      ensures var (fx, fy) := Factors(w, h, cellW, cellH);
              RenderSize(w, h, cellW, cellH) == (Scaled(w, fx), Scaled(h, fy))
    {
      if fixedSize.Some? {
        ScaledToSize(w, fixedSize.value.0);
        ScaledToSize(h, fixedSize.value.1);
      }
    }

    /** The calibration a picture is drawn with. */
    function InfoFor(w: Word, h: Word, cellW: Word, cellH: Word): Option<CameraInfo>
      requires w > 0 && h > 0
      reads this
    {
      var (fx, fy) := Factors(w, h, cellW, cellH);
      var (rw, rh) := RenderSize(w, h, cellW, cellH);
      if calibration.None? then None else Some(ResizedInfo(calibration.value, fx, fy, rw, rh))
    }

    /** It is of the size the picture is drawn at, and scaled exactly as the picture is when it was made at
        the picture's size. */
    lemma InfoFits(w: Word, h: Word, cellW: Word, cellH: Word)
      requires w > 0 && h > 0 && calibration.Some?
      ensures var info, c := InfoFor(w, h, cellW, cellH).value, calibration.value;
              var (fx, fy) := Factors(w, h, cellW, cellH);
              && ((c.width, c.height) == (w, h) ==> info == ScaleInfo(c, fx, fy))
              && (Scaled(c.width, fx) > 0 && Scaled(c.height, fy) > 0 ==>
                    (info.width, info.height) == RenderSize(w, h, cellW, cellH))
    {
      var (fx, fy) := Factors(w, h, cellW, cellH);
      var (rw, rh) := RenderSize(w, h, cellW, cellH);
      FactorsGiveTheSize(w, h, cellW, cellH);
      ResizedInfoFits(calibration.value, fx, fy, w, h, rw, rh);
    }

    /** Pin the render size. */
    method SetFixedRenderSize(w: Word, h: Word)
      modifies this`fixedSize
      ensures fixedSize == Some((w, h))
    {
      fixedSize := Some((w, h));
    }

    /** Settle the size to render at, or refuse.  A panel that fits its picture into the cell never
        renders past the cell and fills it in one direction; the clock panel renders every picture at the
        size of its first, whatever the cell. */
    method Prepare(w: Word, h: Word, cellW: Word, cellH: Word) returns (r: PrepareResult)
      requires w > 0 && h > 0
      modifies this`nativeW, this`nativeH
      ensures r.SizeChanged? <==> SizeLocked() && old(nativeW) != 0 && (w, h) != (old(nativeW), old(nativeH))
      ensures !r.SizeChanged? ==>
                var (rw, rh) := RenderSize(w, h, cellW, cellH);
                r == if rw == 0 || rh == 0 then ZeroSize else Prepared(rw, rh, InfoFor(w, h, cellW, cellH))
      ensures (nativeW, nativeH) == if r.Prepared? then (w, h) else (old(nativeW), old(nativeH))
      ensures r.Prepared? && !SizeLocked() ==>
                r.width <= cellW && r.height <= cellH && (r.width == cellW || r.height == cellH)
      ensures SizeLocked() ==> RenderSize(w, h, cellW, cellH) == RenderSize(w, h, 0, 0)
      ensures r.Prepared? && calibration.Some? && (calibration.value.width, calibration.value.height) == (w, h) ==>
                var (fx, fy) := Factors(w, h, cellW, cellH);
                r.info == Some(ScaleInfo(calibration.value, fx, fy))
      ensures r.Prepared? ==> SizeMeets(w, h, cellW, cellH, r.width, r.height)
    {
      SizeDoesMeet(w, h, cellW, cellH);
      if SizeLocked() && nativeW != 0 && (w != nativeW || h != nativeH) {
        return SizeChanged;
      }
      var renderW: Word, renderH: Word, scale: real := 0, 0, 1.0;
      if fixedSize.Some? {
        renderW, renderH := fixedSize.value.0, fixedSize.value.1;
      } else if fixedScale.Some? {
        scale := fixedScale.value;
        renderW, renderH := Scaled(w, scale), Scaled(h, scale);
      } else {
        scale := FitScale(w, h, cellW, cellH);
        renderW, renderH := FitSize(w, h, cellW, cellH);
      }
      if renderW == 0 || renderH == 0 {
        return ZeroSize;
      }
      nativeW, nativeH := w, h;
      var info := None;
      if calibration.Some? {
        var sx, sy := scale, scale;
        if fixedSize.Some? {
          sx, sy := renderW as real / w as real, renderH as real / h as real;
        }
        info := Some(InfoForSize(ScaleInfo(calibration.value, sx, sy), renderW, renderH));
        InfoFits(w, h, cellW, cellH);
      }
      r := Prepared(renderW, renderH, info);
    }
  }

  method FitSize(w: Word, h: Word, cellW: Word, cellH: Word) returns (renderW: Word, renderH: Word)
    requires w > 0 && h > 0
    ensures var scale := FitScale(w, h, cellW, cellH); renderW == Scaled(w, scale) && renderH == Scaled(h, scale)
    ensures renderW <= cellW && renderH <= cellH && (renderW == cellW || renderH == cellH)
  {
    var scale := FitScale(w, h, cellW, cellH);
    FitStaysInCell(w, h, cellW, cellH, scale, w as real * scale, h as real * scale);
    RoundedInWord(w, cellW, scale);
    RoundedInWord(h, cellH, scale);
    renderW, renderH := Scaled(w, scale), Scaled(h, scale);
  }

  lemma RoundedInWord(side: Word, cell: Word, scale: real)
    requires 0 <= Lround(side as real * scale) <= cell
    ensures Scaled(side, scale) == Lround(side as real * scale)
  {
    SmallWord(Lround(side as real * scale));
  }

  // ---- pasting side by side -----------------------------------------------------------------------

  /** Copy bytes into the buffer. */
  method CopyBytes(pixels: array<Byte>, at: int, bytes: seq<Byte>)
    requires 0 <= at && at + |bytes| <= pixels.Length
    modifies pixels
    ensures pixels[..] == old(pixels[..])[..at] + bytes + old(pixels[..])[at + |bytes|..]
  {
    var k := 0;
    while k < |bytes|
      invariant k <= |bytes|
      invariant forall a | 0 <= a < pixels.Length ::
                  pixels[a] == if at <= a < at + k then bytes[a - at] else old(pixels[a])
    {
      pixels[at + k] := bytes[k];
      k := k + 1;
    }
  }

  /** Where a cell view puts row `y` of a picture. */
  lemma ViewAddress(g: Geometry, view: CellView, p: Picture, row: nat, col: nat, y: nat)
    requires view == CellView(CellStart(g, row, col), g.cellW, g.cellH, Stride(g))
    ensures view.start + (Centered(view.height, p.height) + y) * view.stride + Centered(view.width, p.width) * 3 ==
            Address(g, RowPlace(g, p, row, col, y, 0))
  {
  }

  /** Row `y` of a picture stands at `at`, and nothing else has changed. */
  predicate CopiesRow(before: seq<Byte>, after: seq<Byte>, p: Picture, y: nat, at: int) {
    var from, n := y * (p.width * 3), p.width * 3;
    && 0 <= from && from + n <= |p.bytes| && 0 <= at && at + n <= |before|
    && after == before[..at] + p.bytes[from..from + n] + before[at + n..]
  }

  lemma RowIsItsBytes(p: Picture, y: nat)
    requires y < p.height
    ensures var from, n := y * (p.width * 3), p.width * 3;
            0 <= from && from + n <= |p.bytes| && RowOf(p, y) == p.bytes[from..from + n]
  {
    RowInside(y, p.width * 3, p.height);
  }

  /** Copy one row of a picture, centered, into a cell. */
  method PasteRow(pixels: array<Byte>, view: CellView, ghost g: Geometry, p: Picture, ghost row: nat,
                  ghost col: nat, y: nat)
    requires row < g.grid.rows && col < g.grid.cols && FitsCell(g, p) && y < p.height
    requires pixels.Length == BufferSize(g) && view == CellView(CellStart(g, row, col), g.cellW, g.cellH, Stride(g))
    modifies pixels
    ensures NextRowCopied(g, old(pixels[..]), pixels[..], p, row, col, y)
    ensures var at := view.start + (Centered(view.height, p.height) + y) * view.stride
                      + Centered(view.width, p.width) * 3;
            CopiesRow(old(pixels[..]), pixels[..], p, y, at)
  {
    var left: int, top: int := Centered(view.width, p.width), Centered(view.height, p.height);
    var at := view.start + (top + y) * view.stride + left * 3;
    ViewAddress(g, view, p, row, col, y);
    RowInBuffer(g, p, row, col, y);
    RowIsItsBytes(p, y);
    CopyBytes(pixels, at, RowOf(p, y));
  }

  lemma RowInBuffer(g: Geometry, p: Picture, row: nat, col: nat, y: nat)
    requires row < g.grid.rows && col < g.grid.cols && FitsCell(g, p) && y < p.height
    ensures var at := Address(g, RowPlace(g, p, row, col, y, 0)); 0 <= at && at + p.width * 3 <= BufferSize(g)
  {
    var last := p.width * 3 - 1;
    RowLiesInCell(g, p, row, col, y, 0);
    RowLiesInCell(g, p, row, col, y, last);
    CellsLieInBuffer(g, RowPlace(g, p, row, col, y, 0));
    CellsLieInBuffer(g, RowPlace(g, p, row, col, y, last));
  }

  function RowsLeft(pictures: seq<Picture>, done: seq<nat>): int
    requires |done| == |pictures|
  {
    if pictures == [] then 0 else pictures[0].height - done[0] + RowsLeft(pictures[1..], done[1..])
  }

  lemma {:induction false} OneRowFewer(pictures: seq<Picture>, done: seq<nat>, i: nat)
    requires i < |pictures| == |done|
    ensures RowsLeft(pictures, done[i := done[i] + 1]) == RowsLeft(pictures, done) - 1
  {
    if i > 0 {
      assert done[i := done[i] + 1][1..] == done[1..][i - 1 := done[1..][i - 1] + 1];
      OneRowFewer(pictures[1..], done[1..], i - 1);
    } else {
      assert done[i := done[i] + 1][1..] == done[1..];
    }
  }

  lemma {:induction false} RowsLeftIsNat(pictures: seq<Picture>, done: seq<nat>)
    requires |done| == |pictures| && forall i | 0 <= i < |pictures| :: done[i] <= pictures[i].height
    ensures RowsLeft(pictures, done) >= 0
  {
    if pictures != [] {
      RowsLeftIsNat(pictures[1..], done[1..]);
    }
  }

  function Heights(pictures: seq<Picture>): (r: seq<nat>)
    ensures |r| == |pictures| && forall i | 0 <= i < |r| :: r[i] == pictures[i].height
  {
    if pictures == [] then [] else Heights(pictures[..|pictures| - 1]) + [pictures[|pictures| - 1].height as nat]
  }

  /** The panels have cells, and their pictures fit them. */
  ghost predicate CanPaste(g: Geometry, pictures: seq<Picture>) {
    |pictures| <= Cells(g) && forall i | 0 <= i < |pictures| :: FitsCell(g, pictures[i])
  }

  /** Some rows of each picture are pasted; where the frame's width fits, they are what is shown. */
  ghost predicate Pasted(g: Geometry, pixels: seq<Byte>, pictures: seq<Picture>, done: seq<nat>) {
    && |pixels| == BufferSize(g) && |done| == |pictures|
    && (forall i | 0 <= i < |pictures| :: done[i] <= pictures[i].height)
    && (WidthFits(g) ==> Shows(g, pixels, pictures, done))
  }

  /** The next row of panel `i`'s picture. */
  method PasteNextRow(canvas: Canvas, pictures: seq<Picture>, done: seq<nat>, i: nat)
    requires CanPaste(canvas.Layout(), pictures) && Pasted(canvas.Layout(), canvas.pixels[..], pictures, done)
    requires i < |pictures| && done[i] < pictures[i].height
    modifies canvas.pixels
    ensures Pasted(canvas.Layout(), canvas.pixels[..], pictures, done[i := done[i] + 1])
  {
    ghost var g := canvas.Layout();
    var view, row, col := canvas.Cell(i);
    ghost var before := canvas.pixels[..];
    PasteRow(canvas.pixels, view, g, pictures[i], row, col, done[i]);
    if WidthFits(g) {
      RowIsShown(g, before, canvas.pixels[..], pictures, done, i, row, col);
    }
  }

  /** Panels paste at the same time: any panel's next row may come next.  In the end, where the frame's
      width fits, every cell shows its own picture, centered on black, and every other cell is black. */
  method PasteAll(canvas: Canvas, pictures: seq<Picture>)
    requires CanPaste(canvas.Layout(), pictures) && canvas.pixels.Length == BufferSize(canvas.Layout())
    modifies canvas.pixels
    ensures WidthFits(canvas.Layout()) ==>
              && Shows(canvas.Layout(), canvas.pixels[..], pictures, Heights(pictures))
              && FrameMeets(canvas.Layout(), canvas.pixels[..], pictures)
  {
    canvas.Clear();
    var done: seq<nat> := seq(|pictures|, _ => 0);
    RowsLeftIsNat(pictures, done);
    while exists i :: 0 <= i < |pictures| && done[i] < pictures[i].height
      invariant Pasted(canvas.Layout(), canvas.pixels[..], pictures, done)
      decreases RowsLeft(pictures, done)
    {
      var i :| 0 <= i < |pictures| && done[i] < pictures[i].height;
      PasteNextRow(canvas, pictures, done, i);
      OneRowFewer(pictures, done, i);
      RowsLeftIsNat(pictures, done);
      done := done[i := done[i] + 1];
    }
    assert done == Heights(pictures);
    if WidthFits(canvas.Layout()) {
      ShowingMeets(canvas.Layout(), canvas.pixels[..], pictures, done);
    }
  }
}
