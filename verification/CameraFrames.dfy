/** Camera panels in a grid: the clock panel's first picture fixes the cell size, the other panels fit their
    pictures into it, and all paste side by side. */
module CameraFrames {
  import opened Wrappers
  import opened GridCanvas
  import opened CameraCalibration
  import opened FrameLaw
  import opened Arithmetic
  import opened PanelPaste

  type Side = w: Word | w > 0 witness 1

  /** A decoded picture at its own size. */
  datatype Frame = Frame(width: Side, height: Side, content: nat)

  /** Bringing a frame to a size. */
  type Resize = (Frame, Side, Side) -> Picture

  ghost predicate KeepsSize(resize: Resize) {
    forall f, w, h :: resize(f, w, h).width == w && resize(f, w, h).height == h
  }

  function EvenDown(n: Word): Word { n - n % 2 }

  /** The clock panel: its frames are scaled, or sized so that the columns make up the output width. */
  class ClockCamera {
    const renderer: ViewRenderer
    const totalWidth: Option<Word>
    const columns: Side
    var sized: bool
    /** The size of its first picture. */
    ghost var size: Option<(Word, Word)>

    /** Before the first picture nothing is settled; after it, the size of every other is. */
    ghost predicate Valid()
      reads this, renderer
    {
      && renderer.SizeLocked()
      && match size
         case None => !sized && renderer.nativeW == 0 && renderer.fixedSize.None?
         case Some(s) =>
           && sized && s.0 > 0 && s.1 > 0 && renderer.nativeW > 0 && renderer.nativeH > 0
           && renderer.RenderSize(renderer.nativeW, renderer.nativeH, 0, 0) == s
    }

    constructor (calibration: Option<CameraInfo>, scale: real, totalWidth: Option<Word>, columns: Side)
      ensures Valid() && size.None? && this.totalWidth == totalWidth && this.columns == columns
      ensures fresh(renderer) && renderer.fixedScale == Some(scale) && renderer.calibration == calibration
    {
      renderer := new ViewRenderer(calibration, Some(scale));
      this.totalWidth, this.columns := totalWidth, columns;
      sized, size := false, None;
    }

    /** The width of a column of the output, and the height that keeps the frame's shape, both even. */
    function WidthSize(total: Word, frame: Frame): (Word, Word) {
      var cellW := EvenDown(total / columns);
      (cellW, EvenDown(ToWord(Lround(HeightAt(frame, cellW)))))
    }

    /** The height that keeps a frame's shape at a width. */
    function HeightAt(frame: Frame, w: Word): real {
      frame.height as real * (w as real / frame.width as real)
    }

    /** It is even and within two pixels of a column's share of the width, and of the height that keeps the
        frame's shape. */
    lemma WidthSizeIsNear(total: Word, frame: Frame)
      requires HeightAt(frame, WidthSize(total, frame).0) < 4294967295.0
      ensures var (w, h) := WidthSize(total, frame);
              && w % 2 == 0 && h % 2 == 0
              && columns * w <= total < columns * (w + 2)
              && -0.5 <= HeightAt(frame, w) - h as real < 2.0
    {
      var w := WidthSize(total, frame).0;
      var share := total / columns;
      assert total == columns * share + total % columns;
      assert w <= share < w + 2;
      GrowsRight(columns, w, share);
      GrowsRight(columns, share + 1, w + 2);
      NotNegative(frame.height as real, w as real, frame.width as real);
      SmallWord(Lround(HeightAt(frame, w)));
    }

    /** Select a frame: the size to bring it to.  The first one's size is kept for good. */
    method Select(frame: Frame) returns (r: Option<(Word, Word)>)
      requires Valid()
      modifies this, renderer
      ensures r.Some? ==> Valid() && size == r && (old(size).Some? ==> r == old(size))
      ensures r.Some? && old(size).None? && totalWidth.Some? ==> r.value == WidthSize(totalWidth.value, frame)
      ensures old(size).Some? && (frame.width, frame.height) != (old(renderer.nativeW), old(renderer.nativeH)) ==>
                r.None?
    {
      if !sized && totalWidth.Some? {
        var fixed := WidthSize(totalWidth.value, frame);
        renderer.SetFixedRenderSize(fixed.0, fixed.1);
      }
      sized := true;
      var prepared := renderer.Prepare(frame.width, frame.height, 0, 0);
      if !prepared.Prepared? {
        return None;
      }
      r := Some((prepared.width, prepared.height));
      size := r;
    }
  }

  /** The camera panels of a grid, in cell order, and the canvas they share. */
  class CameraGrid {
    const canvas: Canvas
    const clock: ClockCamera
    const clockIndex: nat
    const renderers: seq<ViewRenderer>
    const resize: Resize

    /** There is a cell for every panel; all but the clock panel fit their pictures into their cells; and
        the cell size is the size of the clock panel's first picture. */
    ghost predicate Valid()
      reads this, canvas, canvas.pixels, clock, clock.renderer, set r | r in renderers
    {
      && clock.Valid() && KeepsSize(resize)
      && clockIndex < |renderers| <= Cells(canvas.Layout()) && renderers[clockIndex] == clock.renderer
      && (forall i | 0 <= i < |renderers| && i != clockIndex ::
            renderers[i] != clock.renderer && !renderers[i].SizeLocked())
      && match clock.size
         case None => canvas.pixels.Length == 0
         case Some(s) => SizedTo(s)
    }

    ghost predicate SizedTo(size: (Word, Word))
      reads canvas
    {
      (canvas.cellW, canvas.cellH) == size && canvas.pixels.Length == BufferSize(canvas.Layout())
    }

    constructor (grid: GridSpec, calibrations: seq<Option<CameraInfo>>, clockIndex: nat, scale: real,
                 totalWidth: Option<Word>, resize: Resize)
      requires clockIndex < |calibrations| <= grid.cols * grid.rows && KeepsSize(resize)
      ensures Valid() && clock.size.None? && canvas.grid == grid && |renderers| == |calibrations|
      ensures forall i | 0 <= i < |renderers| :: renderers[i].calibration == calibrations[i]
      ensures this.clockIndex == clockIndex && this.resize == resize
      ensures fresh(canvas) && fresh(canvas.pixels) && fresh(clock) && fresh(clock.renderer)
      ensures forall i | 0 <= i < |renderers| :: fresh(renderers[i])
    {
      RowAndColumn(grid, clockIndex);
      var theClock := new ClockCamera(calibrations[clockIndex], scale, totalWidth, grid.cols);
      var theCanvas := new Canvas(grid);
      var views := FollowersAround(calibrations, clockIndex, theClock.renderer);
      canvas, clock := theCanvas, theClock;
      this.clockIndex, renderers, this.resize := clockIndex, views, resize;
    }

    /** The picture of a panel other than the clock: as large as the cell allows. */
    ghost predicate FitsItsCell(frame: Frame, picture: Picture)
      reads canvas
    {
      var scale := FitScale(frame.width, frame.height, canvas.cellW, canvas.cellH);
      && FitsCell(canvas.Layout(), picture)
      && picture.width == Scaled(frame.width, scale) && picture.height == Scaled(frame.height, scale)
      && picture == resize(frame, picture.width, picture.height)
    }

    /** Every panel's picture for its cell. */
    ghost predicate PicturesFit(frames: seq<Frame>, pictures: seq<Picture>)
      reads canvas
    {
      && |pictures| <= |frames|
      && forall i | 0 <= i < |pictures| :: PictureFits(i, frames[i], pictures[i])
    }

    /** The clock panel's picture fills its cell, any other's fits. */
    ghost predicate PictureFits(i: nat, frame: Frame, picture: Picture)
      reads canvas
    {
      if i == clockIndex then
        && (picture.width, picture.height) == (canvas.cellW, canvas.cellH)
        && picture == resize(frame, picture.width, picture.height)
      else FitsItsCell(frame, picture)
    }

    /** Bring one panel's frame to its size, the clock panel's to the cell's; none when it would shrink to
        nothing. */
    method PictureFor(i: nat, frame: Frame) returns (picture: Option<Picture>)
      requires Valid() && i < |renderers| && clock.size.Some?
      modifies set r | r in renderers && r != clock.renderer
      ensures Valid() && (picture.Some? ==> PictureFits(i, frame, picture.value))
    {
      var w, h := canvas.cellW, canvas.cellH;
      if i != clockIndex {
        var prepared := renderers[i].Prepare(frame.width, frame.height, w, h);
        if !prepared.Prepared? {
          return None;
        }
        w, h := prepared.width, prepared.height;
      }
      picture := Some(resize(frame, w, h));
    }

    /** Bring every panel's frame to its size; fails when one would shrink to nothing. */
    method PrepareAll(frames: seq<Frame>) returns (ok: bool, pictures: seq<Picture>)
      requires Valid() && |frames| == |renderers| && clock.size.Some?
      modifies set r | r in renderers && r != clock.renderer
      ensures Valid()
      ensures PicturesFit(frames, pictures) && (ok ==> |pictures| == |frames|)
    {
      pictures := [];
      ghost var size := clock.size;
      var i := 0;
      while i < |renderers|
        invariant i <= |renderers| && |pictures| == i && Valid() && clock.size == size
        invariant PicturesFit(frames, pictures)
      {
        var picture := PictureFor(i, frames[i]);
        if picture.None? {
          return false, pictures;
        }
        pictures := pictures + [picture.value];
        i := i + 1;
      }
      ok := true;
    }

    /** Compose one tick's frame.  The first tick fixes the cell size; after it the clock panel's picture
        fills its cell exactly, every other picture lies inside its own, and, where the frame's width fits,
        every cell shows its own picture centered on black. */
    method Compose(frames: seq<Frame>) returns (ok: bool, pictures: seq<Picture>)
      requires Valid() && |frames| == |renderers|
      modifies canvas, canvas.pixels, clock, set r | r in renderers
      ensures ok ==> Valid() && clock.size.Some? && (old(clock.size).Some? ==> clock.size == old(clock.size))
      ensures ok ==> |pictures| == |frames| && PicturesFit(frames, pictures)
      ensures ok && WidthFits(canvas.Layout()) ==>
                && Shows(canvas.Layout(), canvas.pixels[..], pictures, Heights(pictures))
                && FrameMeets(canvas.Layout(), canvas.pixels[..], pictures)
    {
      pictures := [];
      var size := clock.Select(frames[clockIndex]);
      if size.None? {
        return false, pictures;
      }
      if canvas.pixels.Length == 0 {
        canvas.SetCellSize(size.value.0, size.value.1);
      }
      ok, pictures := PrepareAll(frames);
      if ok {
        PasteAll(canvas, pictures);
      }
    }
  }

  lemma NotNegative(a: real, b: real, d: real)
    requires a >= 0.0 && b >= 0.0 && d > 0.0
    ensures a * (b / d) >= 0.0
  {
    assert b / d >= 0.0;
  }

  /** A renderer for every panel, the clock panel's among them. */
  method FollowersAround(calibrations: seq<Option<CameraInfo>>, clockIndex: nat, clock: ViewRenderer)
    returns (views: seq<ViewRenderer>)
    requires clockIndex < |calibrations|
    ensures |views| == |calibrations| && views[clockIndex] == clock
    ensures forall i | 0 <= i < |views| && i != clockIndex ::
              fresh(views[i]) && views[i] != clock && !views[i].SizeLocked() && views[i].calibration == calibrations[i]
  {
    views := [];
    for i := 0 to |calibrations|
      invariant |views| == i && (i > clockIndex ==> views[clockIndex] == clock)
      invariant forall k | 0 <= k < i && k != clockIndex ::
                  fresh(views[k]) && views[k] != clock && !views[k].SizeLocked()
                  && views[k].calibration == calibrations[k]
    {
      if i == clockIndex {
        views := views + [clock];
      } else {
        var view := new ViewRenderer(calibrations[i], None);
        views := views + [view];
      }
    }
  }
}
