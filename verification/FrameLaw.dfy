/** What a composed frame is, said of its pixels alone: the buffer is the frame row by row, and every cell
    shows its picture, centered, on black. */
module FrameLaw {
  import opened GridCanvas

  /** Byte `b` of pixel row `y` of a cell, in a frame laid out row by row. */
  function FrameIndex(g: Geometry, row: nat, col: nat, y: nat, b: nat): int {
    (row * g.cellH + y) * (g.grid.cols * (g.cellW * 3)) + (col * (g.cellW * 3) + b)
  }

  function Top(g: Geometry, p: Picture): int { (g.cellH - p.height) / 2 }
  function Left(g: Geometry, p: Picture): int { (g.cellW - p.width) / 2 * 3 }

  /** The place is covered by the picture. */
  predicate Covers(g: Geometry, p: Picture, y: nat, b: nat) {
    Top(g, p) <= y < Top(g, p) + p.height && Left(g, p) <= b < Left(g, p) + p.width * 3
  }

  /** A byte of a frame is its picture's byte there, or black. */
  ghost predicate ByteMeets(g: Geometry, pixels: seq<Byte>, pictures: seq<Picture>, row: nat, col: nat, y: nat,
                            b: nat) {
    var i, at := row * g.grid.cols + col, FrameIndex(g, row, col, y, b);
    && 0 <= at < |pixels|
    && if i < |pictures| && Covers(g, pictures[i], y, b) then
         var k := (y - Top(g, pictures[i])) * (pictures[i].width * 3) + (b - Left(g, pictures[i]));
         0 <= k < |pictures[i].bytes| && pixels[at] == pictures[i].bytes[k]
       else pixels[at] == 0
  }

  ghost predicate FrameMeets(g: Geometry, pixels: seq<Byte>, pictures: seq<Picture>) {
    && |pixels| == BufferSize(g)
    && forall row: nat, col: nat, y: nat, b: nat |
         row < g.grid.rows && col < g.grid.cols && y < g.cellH && b < g.cellW * 3 ::
         ByteMeets(g, pixels, pictures, row, col, y, b)
  }

  // ---- cells that show their pictures make such a frame ------------------------------------------------

  /** Where the width fits, the cells' bytes are where a frame has them. */
  lemma AddressIsIndex(g: Geometry, row: nat, col: nat, y: nat, b: nat)
    requires WidthFits(g) && InCell(g, Place(row, col, y, b))
    ensures Address(g, Place(row, col, y, b)) == FrameIndex(g, row, col, y, b)
  {
    var at := Place(row, col, y, b);
    AddressSplits(g, at);
    FullStride(g);
    InsideFrame(g, at);
    if g.grid.cols * g.cellW >= WORDS {
      assert Down(g, at) == 0;
    }
  }

  lemma CenteredIsHalf(outer: Word, inner: Word)
    requires inner <= outer
    ensures Centered(outer, inner) == (outer - inner) / 2
  {
  }

  lemma ShownFromPicture(g: Geometry, p: Picture, y: nat, b: nat)
    requires FitsCell(g, p) && y < g.cellH && b < g.cellW * 3
    ensures if Covers(g, p, y, b) then
              var k := (y - Top(g, p)) * (p.width * 3) + (b - Left(g, p));
              0 <= k < |p.bytes| && ShownByte(g, p, p.height, y, b) == p.bytes[k]
            else ShownByte(g, p, p.height, y, b) == 0
  {
    CenteredIsHalf(g.cellW, p.width);
    CenteredIsHalf(g.cellH, p.height);
    if Covers(g, p, y, b) {
      TwoDigits(y - Top(g, p), b - Left(g, p), p.width * 3, p.height);
    }
  }

  lemma ShowingMeets(g: Geometry, pixels: seq<Byte>, pictures: seq<Picture>, done: seq<nat>)
    requires WidthFits(g) && Shows(g, pixels, pictures, done)
    requires forall i | 0 <= i < |pictures| :: FitsCell(g, pictures[i]) && done[i] == pictures[i].height
    ensures FrameMeets(g, pixels, pictures)
  {
    forall row: nat, col: nat, y: nat, b: nat |
      row < g.grid.rows && col < g.grid.cols && y < g.cellH && b < g.cellW * 3
      ensures ByteMeets(g, pixels, pictures, row, col, y, b)
    {
      PlaceMeets(g, pixels, pictures, done, row, col, y, b);
    }
  }

  lemma PlaceMeets(g: Geometry, pixels: seq<Byte>, pictures: seq<Picture>, done: seq<nat>, row: nat, col: nat,
                   y: nat, b: nat)
    requires WidthFits(g) && Shows(g, pixels, pictures, done) && InCell(g, Place(row, col, y, b))
    requires forall i | 0 <= i < |pictures| :: FitsCell(g, pictures[i]) && done[i] == pictures[i].height
    ensures ByteMeets(g, pixels, pictures, row, col, y, b)
  {
    var at, i := Place(row, col, y, b), row * g.grid.cols + col;
    AddressIsIndex(g, row, col, y, b);
    CellsLieInBuffer(g, at);
    assert pixels[Address(g, at)] == ByteAt(g, pictures, done, at);
    if i < |pictures| {
      ShownFromPicture(g, pictures[i], y, b);
    }
  }
}
