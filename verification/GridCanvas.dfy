/** The composed frame: how many cells a grid has, where each cell's bytes lie, and what a panel's
    frame changes when it is pasted into its cell. */
module GridCanvas {
  import opened Arithmetic

  type Byte = b: nat | b < 256
  type Word = n: nat | n < 0x1_0000_0000
  const WORDS := 0x1_0000_0000

  function ToWord(n: int): Word { n % WORDS }

  datatype GridSpec = GridSpec(cols: Word, rows: Word)

  // ---- choosing the grid ------------------------------------------------------------------------

  /** The default grid.  Past (2^32 - 1)^2 panels the column counter would wrap. */
  method AutoGridSpec(panels: nat) returns (spec: GridSpec)
    requires panels <= (WORDS - 1) * (WORDS - 1)
    ensures spec == AutoSpec(panels)
  {
    ColumnsFit(panels, 1);
    var cols := 1;
    while cols * cols < panels
      invariant 1 <= cols <= WORDS - 1 && Columns(panels, 1) == Columns(panels, cols)
      decreases WORDS - cols
    {
      ColumnsFit(panels, cols);
      cols := cols + 1;
    }
    spec := GridSpec(cols, ToWord((panels + cols - 1) / cols));
  }

  /** It is near-square: the fewest columns whose square holds the panels, and no row without one. */
  lemma AutoGridIsNearSquare(panels: nat)
    requires panels <= (WORDS - 1) * (WORDS - 1)
    ensures var spec := AutoSpec(panels);
            && spec.cols >= 1 && spec.rows <= spec.cols
            && panels <= spec.cols * spec.rows < panels + spec.cols
            && forall c: nat | 1 <= c < spec.cols :: c * c < panels
  {
    ColumnsFit(panels, 1);
    var cols := Columns(panels, 1);
    RowsCover(panels, cols);
    assert ToWord((panels + cols - 1) / cols) == (panels + cols - 1) / cols;
    FewestColumns(panels, 1);
  }

  lemma {:induction false} FewestColumns(panels: nat, cols: nat)
    requires cols >= 1
    ensures forall c: nat | cols <= c < Columns(panels, cols) :: c * c < panels
    decreases if cols * cols < panels then panels - cols else 0
  {
    if cols * cols < panels {
      SquareGrows(cols);
      FewestColumns(panels, cols + 1);
    }
  }

  /** The fewest columns, from `cols` on, whose square holds the panels. */
  function Columns(panels: nat, cols: nat): (r: nat)
    requires cols >= 1
    ensures r >= cols && r * r >= panels
    decreases if cols * cols < panels then panels - cols else 0
  {
    if cols * cols < panels then
      SquareGrows(cols);
      Columns(panels, cols + 1)
    else cols
  }

  lemma SquareGrows(n: nat)
    requires n >= 1
    ensures n * n >= n
  {
  }

  function AutoSpec(panels: nat): GridSpec
    requires panels <= (WORDS - 1) * (WORDS - 1)
  {
    var cols := Columns(panels, 1);
    ColumnsFit(panels, 1);
    GridSpec(cols, ToWord((panels + cols - 1) / cols))
  }

  lemma {:induction false} ColumnsFit(panels: nat, cols: nat)
    requires 1 <= cols < WORDS && panels <= (WORDS - 1) * (WORDS - 1)
    ensures Columns(panels, cols) < WORDS
    ensures cols * cols < panels ==> cols < WORDS - 1
    decreases WORDS - cols
  {
    if cols * cols < panels {
      if cols == WORDS - 1 {
        assert false;
      }
      ColumnsFit(panels, cols + 1);
    }
  }

  lemma RowsCover(panels: nat, cols: nat)
    requires cols >= 1 && panels <= cols * cols
    ensures var rows := (panels + cols - 1) / cols; panels <= cols * rows < panels + cols && rows <= cols
  {
    var rows := (panels + cols - 1) / cols;
    assert panels + cols - 1 == cols * rows + (panels + cols - 1) % cols;
    if rows > cols {
      Grows(cols + 1, rows, cols);
      assert false;
    }
  }

  // ---- parsing an explicit grid ------------------------------------------------------------------

  datatype GridError = Malformed | ZeroDimension | TooFewCells
  datatype GridParse = Parsed(spec: GridSpec) | Refused(error: GridError)

  predicate IsDigit(c: char) { '0' <= c <= '9' }

  predicate Digits(s: string) {
    s != [] && forall i | 0 <= i < |s| :: IsDigit(s[i])
  }

  function ValueOf(s: string): nat
    requires forall i | 0 <= i < |s| :: IsDigit(s[i])
  {
    if s == [] then 0 else 10 * ValueOf(s[..|s| - 1]) + DigitValue(s[|s| - 1])
  }

  function DigitValue(c: char): nat
    requires IsDigit(c)
  {
    c as int - '0' as int
  }

  /** A number too large for its 32-bit variable leaves the variable at zero. */
  function NumberIn(s: string): Word
    requires Digits(s)
  {
    if ValueOf(s) < WORDS then ValueOf(s) else 0
  }

  function Find(s: string, c: char): (i: nat)
    ensures i <= |s| && (i < |s| ==> s[i] == c) && forall j | 0 <= j < i :: s[j] != c
  {
    if s == [] || s[0] == c then 0 else 1 + Find(s[1..], c)
  }

  function ParseGridSpec(text: string, panels: nat): GridParse
    requires panels <= (WORDS - 1) * (WORDS - 1)
  {
    if text == "" then Parsed(AutoSpec(panels))
    else
      var x := Find(text, 'x');
      if x == |text| || x == 0 || x + 1 >= |text| then Refused(Malformed)
      else if !Digits(text[..x]) || !Digits(text[x + 1..]) then Refused(Malformed)
      else
        var cols, rows := NumberIn(text[..x]), NumberIn(text[x + 1..]);
        if cols == 0 || rows == 0 then Refused(ZeroDimension)
        else if cols * rows < panels then Refused(TooFewCells)
        else Parsed(GridSpec(cols, rows))
  }

  lemma FindIn(a: string, c: char, b: string)
    requires forall i | 0 <= i < |a| :: a[i] != c
    ensures Find(a + [c] + b, c) == |a|
  {
    var s := a + [c] + b;
    assert s[|a|] == c;
    assert forall j | 0 <= j < |a| :: s[j] == a[j];
  }

  predicate Spells(text: string, cols: string, rows: string) {
    Digits(cols) && Digits(rows) && text == cols + "x" + rows
  }

  /** A text other than the empty one is accepted exactly when it spells two positive 32-bit numbers
      with an x between whose product is no less than the number of panels. */
  lemma AcceptedTexts(text: string, panels: nat, spec: GridSpec)
    requires panels <= (WORDS - 1) * (WORDS - 1) && text != ""
    ensures ParseGridSpec(text, panels) == Parsed(spec) <==>
            && 1 <= spec.cols && 1 <= spec.rows && panels <= spec.cols * spec.rows
            && exists a, b :: Spells(text, a, b) && ValueOf(a) == spec.cols && ValueOf(b) == spec.rows
  {
    var x := Find(text, 'x');
    if ParseGridSpec(text, panels) == Parsed(spec) {
      assert Spells(text, text[..x], text[x + 1..]);
    }
    if a, b :| Spells(text, a, b) && ValueOf(a) == spec.cols && ValueOf(b) == spec.rows {
      FindIn(a, 'x', b);
      assert text[..x] == a && text[x + 1..] == b;
    }
  }

  function Decimal(n: nat): (s: string)
    ensures Digits(s)
  {
    var last := [('0' as int + n % 10) as char];
    if n < 10 then last else Decimal(n / 10) + last
  }

  lemma {:induction false} DecimalReadsBack(n: nat)
    ensures ValueOf(Decimal(n)) == n
  {
    if n >= 10 {
      DecimalReadsBack(n / 10);
      assert Decimal(n)[..|Decimal(n)| - 1] == Decimal(n / 10);
    } else {
      assert Decimal(n)[..0] == [];
    }
  }

  /** Every grid with room for the panels can be asked for by writing it out. */
  lemma WrittenGridIsAccepted(cols: Word, rows: Word, panels: nat)
    requires 1 <= cols && 1 <= rows && panels <= cols * rows && panels <= (WORDS - 1) * (WORDS - 1)
    ensures ParseGridSpec(Decimal(cols) + "x" + Decimal(rows), panels) == Parsed(GridSpec(cols, rows))
  {
    DecimalReadsBack(cols);
    DecimalReadsBack(rows);
    var text := Decimal(cols) + "x" + Decimal(rows);
    assert Spells(text, Decimal(cols), Decimal(rows));
    AcceptedTexts(text, panels, GridSpec(cols, rows));
  }

  /** Whatever is accepted has a cell for every panel. */
  lemma AcceptedGridHasCells(text: string, panels: nat)
    requires panels <= (WORDS - 1) * (WORDS - 1) && ParseGridSpec(text, panels).Parsed?
    ensures var spec := ParseGridSpec(text, panels).spec; panels <= spec.cols * spec.rows
  {
    if text == "" {
      AutoGridIsNearSquare(panels);
    }
  }

  // ---- where a cell's bytes are -----------------------------------------------------------------

  /** A grid of cells with its cell size; the sizes the program keeps are 32 bits wide. */
  datatype Geometry = Geometry(grid: GridSpec, cellW: Word, cellH: Word)

  /** The stride comes from the frame's width in 32 bits; the buffer's size does not. */
  function Stride(g: Geometry): nat { ToWord(g.grid.cols * g.cellW) * 3 }
  function BufferSize(g: Geometry): nat { g.grid.cols * g.cellW * 3 * (g.grid.rows * g.cellH) }
  function Cells(g: Geometry): nat { g.grid.cols * g.grid.rows }
  function RowBytes(g: Geometry): nat { g.cellW * 3 }

  predicate Positive(g: Geometry) {
    g.grid.cols > 0 && g.grid.rows > 0 && g.cellW > 0 && g.cellH > 0
  }

  /** Byte `b` of pixel row `y` of the cell in grid row `row` and grid column `col`. */
  datatype Place = Place(row: nat, col: nat, y: nat, b: nat)

  predicate InCell(g: Geometry, at: Place) {
    at.row < g.grid.rows && at.col < g.grid.cols && at.y < g.cellH && at.b < RowBytes(g)
  }

  function CellStart(g: Geometry, row: nat, col: nat): int {
    row * g.cellH * Stride(g) + col * g.cellW * 3
  }

  function Address(g: Geometry, at: Place): int {
    CellStart(g, at.row, at.col) + at.y * Stride(g) + at.b
  }

  /** The frame's width fits its 32-bit variable, or there is only one row of pixels to find. */
  predicate WidthFits(g: Geometry) {
    g.grid.cols * g.cellW < WORDS || g.grid.rows * g.cellH == 1
  }

  // -- arithmetic --

  /** Two-digit numbers in base `d` are below `n * d`. */
  lemma TwoDigits(q: int, r: int, d: int, n: int)
    requires 0 <= r < d && 0 <= q < n
    ensures 0 <= q * d + r < n * d
  {
    Grows(q + 1, n, d);
    Grows(0, q, d);
  }

  lemma SameDigits(q: int, r: int, q': int, r': int, d: int)
    requires 0 <= r < d && 0 <= r' < d && 0 <= q && 0 <= q' && q * d + r == q' * d + r'
    ensures q == q' && r == r'
  {
    if q < q' {
      TwoDigits(q, r, d, q');
      assert false;
    }
    if q' < q {
      TwoDigits(q', r', d, q);
      assert false;
    }
  }

  /** The digits of a number below `n * d`. */
  lemma DigitsOf(a: int, d: int, n: int) returns (q: nat, r: nat)
    requires 0 <= a < n * d && 0 < d && 0 <= n
    ensures a == q * d + r && q < n && r < d
  {
    q, r := a / d, a % d;
    if q >= n {
      Grows(n, q, d);
      assert false;
    }
  }

  lemma RowAndColumn(g: GridSpec, i: nat)
    requires i < g.cols * g.rows
    ensures g.cols > 0 && i / g.cols < g.rows && i % g.cols < g.cols && i == i / g.cols * g.cols + i % g.cols
  {
    assert g.cols > 0;
    var q, r := DigitsOf(i, g.cols, g.rows);
    SameDigits(q, r, i / g.cols, i % g.cols, g.cols);
  }

  /** The byte column a place is in, counted along a pixel row of the whole frame; and its pixel row. */
  function Across(g: Geometry, at: Place): int { at.col * RowBytes(g) + at.b }
  function Down(g: Geometry, at: Place): int { at.row * g.cellH + at.y }
  function FrameRowBytes(g: Geometry): int { g.grid.cols * RowBytes(g) }
  function FrameRows(g: Geometry): int { g.grid.rows * g.cellH }

  lemma Distribute(a: int, b: int, y: int, s: int)
    ensures (a * b + y) * s == a * b * s + y * s
  {
  }

  lemma AddressSplits(g: Geometry, at: Place)
    ensures Address(g, at) == Down(g, at) * Stride(g) + Across(g, at)
  {
    Distribute(at.row, g.cellH, at.y, Stride(g));
    assert at.col * g.cellW * 3 == at.col * (g.cellW * 3);
  }

  lemma InsideFrame(g: Geometry, at: Place)
    requires InCell(g, at)
    ensures 0 <= Across(g, at) < FrameRowBytes(g)
    ensures 0 <= Down(g, at) < FrameRows(g)
  {
    TwoDigits(at.col, at.b, RowBytes(g), g.grid.cols);
    TwoDigits(at.row, at.y, g.cellH, g.grid.rows);
  }

  lemma FullStride(g: Geometry)
    ensures 0 <= Stride(g) <= FrameRowBytes(g)
    ensures g.grid.cols * g.cellW < WORDS ==> Stride(g) == FrameRowBytes(g)
    ensures g.grid.cols * g.cellW >= WORDS ==> Stride(g) < FrameRowBytes(g)
    ensures BufferSize(g) == FrameRows(g) * FrameRowBytes(g)
  {
    Times3(g.grid.cols, g.cellW);
    Commutes(g.grid.cols * g.cellW * 3, g.grid.rows * g.cellH);
  }

  lemma Times3(a: nat, b: nat)
    ensures a * b >= 0 && a * b * 3 == a * (b * 3)
  {
  }

  lemma Commutes(a: int, b: int)
    ensures a * b == b * a
  {
  }

  lemma AddressBelow(v: int, u: int, stride: int, full: int, rows: int)
    requires 0 <= v < rows && 0 <= u < full && 0 <= stride <= full
    ensures 0 <= v * stride + u < rows * full
  {
    TwoDigits(v, u, full, rows);
    GrowsRight(v, stride, full);
    Grows(0, v, stride);
  }

  /** Every byte of every cell lies in the buffer, whether or not the width fits. */
  lemma CellsLieInBuffer(g: Geometry, at: Place)
    requires InCell(g, at)
    ensures 0 <= Address(g, at) < BufferSize(g)
  {
    AddressSplits(g, at);
    InsideFrame(g, at);
    FullStride(g);
    AddressBelow(Down(g, at), Across(g, at), Stride(g), FrameRowBytes(g), FrameRows(g));
  }

  /** Where the width fits, no byte belongs to two cells or to two places of one cell. */
  lemma CellsAreDisjoint(g: Geometry, at: Place, at': Place)
    requires WidthFits(g) && InCell(g, at) && InCell(g, at') && Address(g, at) == Address(g, at')
    ensures at == at'
  {
    AddressSplits(g, at);
    AddressSplits(g, at');
    InsideFrame(g, at);
    InsideFrame(g, at');
    SameRowAndColumn(g, Down(g, at), Across(g, at), Down(g, at'), Across(g, at'));
    SameDigits(at.col, at.b, at'.col, at'.b, RowBytes(g));
    SameDigits(at.row, at.y, at'.row, at'.y, g.cellH);
  }

  lemma SameRowAndColumn(g: Geometry, v: int, u: int, v': int, u': int)
    requires WidthFits(g) && 0 <= v < FrameRows(g) && 0 <= v' < FrameRows(g)
    requires 0 <= u < FrameRowBytes(g) && 0 <= u' < FrameRowBytes(g)
    requires v * Stride(g) + u == v' * Stride(g) + u'
    ensures v == v' && u == u'
  {
    FullStride(g);
    if g.grid.cols * g.cellW < WORDS {
      SameDigits(v, u, v', u', Stride(g));
    }
  }

  ghost predicate InSomeCell(g: Geometry, a: int) {
    exists at :: InCell(g, at) && Address(g, at) == a
  }

  /** Every byte column of every pixel row is in a cell. */
  lemma PointIsInACell(g: Geometry, v: int, u: int)
    requires Positive(g) && 0 <= v < FrameRows(g) && 0 <= u < FrameRowBytes(g)
    ensures InSomeCell(g, v * Stride(g) + u)
  {
    var col, b := DigitsOf(u, RowBytes(g), g.grid.cols);
    var row, y := DigitsOf(v, g.cellH, g.grid.rows);
    var at := Place(row, col, y, b);
    AddressSplits(g, at);
    assert InCell(g, at);
  }

  /** The cells cover the buffer exactly when the width fits its variable (or there is one pixel row).
      Where it does not, the last byte at least belongs to no cell. */
  lemma CellsTileTheBuffer(g: Geometry)
    requires Positive(g)
    ensures WidthFits(g) <==> forall a: nat | a < BufferSize(g) :: InSomeCell(g, a)
  {
    FrameIsPositive(g);
    FullStride(g);
    if WidthFits(g) {
      forall a: nat | a < BufferSize(g)
        ensures InSomeCell(g, a)
      {
        var v, u := DigitsOf(a, FrameRowBytes(g), FrameRows(g));
        PointIsInACell(g, v, u);
        if g.grid.cols * g.cellW >= WORDS {
          assert v == 0;
        }
      }
    } else {
      LastByteIsLost(g);
      var last: nat := BufferSize(g) - 1;
      assert !InSomeCell(g, last);
    }
  }

  lemma Positives(a: int, b: int)
    requires a > 0 && b > 0
    ensures a * b > 0
  {
  }

  lemma FrameIsPositive(g: Geometry)
    requires Positive(g)
    ensures FrameRows(g) > 0 && FrameRowBytes(g) > 0 && BufferSize(g) > 0
  {
    FullStride(g);
    Positives(g.grid.rows, g.cellH);
    Positives(g.grid.cols, RowBytes(g));
    Positives(FrameRows(g), FrameRowBytes(g));
  }

  lemma LastByteIsLost(g: Geometry)
    requires Positive(g) && !WidthFits(g)
    ensures !InSomeCell(g, BufferSize(g) - 1)
  {
    FullStride(g);
    FrameIsPositive(g);
    forall at | InCell(g, at)
      ensures Address(g, at) < BufferSize(g) - 1
    {
      AddressSplits(g, at);
      InsideFrame(g, at);
      BelowTheLast(Down(g, at), Across(g, at), Stride(g), FrameRowBytes(g), FrameRows(g));
    }
  }

  lemma BelowTheLast(v: int, u: int, stride: int, full: int, rows: int)
    requires 0 <= v < rows && 0 <= u < full && 0 <= stride < full && rows > 1
    ensures v * stride + u < rows * full - 1
  {
    Grows(v, rows - 1, stride);
    assert (rows - 1) * full - (rows - 1) * stride == (rows - 1) * (full - stride);
    Positives(rows - 1, full - stride);
    assert (rows - 1) * full + full == rows * full;
  }

  // -- which cells share bytes --

  predicate SameCell(at: Place, at': Place) {
    at.row == at'.row && at.col == at'.col
  }

  /** No byte belongs to two cells. */
  ghost predicate CellsApart(g: Geometry) {
    forall at, at' | InCell(g, at) && InCell(g, at') && !SameCell(at, at') :: Address(g, at) != Address(g, at')
  }

  /** A stride of zero, with one row of cells, lays all pixel rows of a cell over one another but keeps the
      cells beside each other. */
  predicate FlatRow(g: Geometry) {
    Stride(g) == 0 && g.grid.rows == 1
  }

  /** Different cells keep to different bytes exactly when the width fits its variable, or wraps to zero
      with one row of cells. */
  lemma CellsAreApartIff(g: Geometry)
    requires Positive(g)
    ensures CellsApart(g) <==> WidthFits(g) || FlatRow(g)
  {
    if WidthFits(g) || FlatRow(g) {
      forall at, at' | InCell(g, at) && InCell(g, at') && Address(g, at) == Address(g, at')
        ensures SameCell(at, at')
      {
        if WidthFits(g) {
          CellsAreDisjoint(g, at, at');
        } else {
          SameColumn(g, at, at');
        }
      }
    } else {
      var at, at' := SharedByte(g);
    }
  }

  lemma SameColumn(g: Geometry, at: Place, at': Place)
    requires FlatRow(g) && InCell(g, at) && InCell(g, at') && Address(g, at) == Address(g, at')
    ensures SameCell(at, at')
  {
    AddressSplits(g, at);
    AddressSplits(g, at');
    assert Across(g, at) == Across(g, at');
    SameDigits(at.col, at.b, at'.col, at'.b, RowBytes(g));
  }

  /** Otherwise here are two cells that share a byte, and the byte's place in each. */
  lemma SharedByte(g: Geometry) returns (at: Place, at': Place)
    requires Positive(g) && !WidthFits(g) && !FlatRow(g)
    ensures InCell(g, at) && InCell(g, at') && !SameCell(at, at') && Address(g, at) == Address(g, at')
  {
    var s := Stride(g);
    FullStride(g);
    if s == 0 {
      at, at' := Place(0, 0, 0, 0), Place(1, 0, 0, 0);
      AddressSplits(g, at);
      AddressSplits(g, at');
    } else if s < RowBytes(g) {
      at, at' := Place(0, 1, 0, 0), SecondRow(g, RowBytes(g) - s);
      AddressSplits(g, at);
      SecondRowAddress(g, RowBytes(g) - s);
    } else {
      var col, b := DigitsOf(s, RowBytes(g), g.grid.cols);
      at, at' := Place(0, col, 0, b), SecondRow(g, 0);
      AddressSplits(g, at);
      SecondRowAddress(g, 0);
      assert col > 0;
    }
  }

  /** Byte `b` of the second pixel row of the frame. */
  function SecondRow(g: Geometry, b: nat): Place {
    if g.cellH > 1 then Place(0, 0, 1, b) else Place(1, 0, 0, b)
  }

  lemma SecondRowAddress(g: Geometry, b: nat)
    requires Positive(g) && !WidthFits(g) && b < RowBytes(g)
    ensures InCell(g, SecondRow(g, b)) && Address(g, SecondRow(g, b)) == Stride(g) + b
  {
    AddressSplits(g, SecondRow(g, b));
    if g.cellH == 1 {
      assert g.grid.rows * g.cellH == g.grid.rows;
    }
  }

  /** A grid the program accepts where this happens: 4194304 columns of cells 1024 pixels wide are 2^32
      pixels.  With two rows the two cells of a column share their bytes; with one row and two pixel rows
      the second lies over the first.  Either way the buffer's last byte belongs to no cell. */
  lemma WidthThatWraps(rows: Word)
    requires rows == 1 || rows == 2
    ensures ParseGridSpec(Decimal(4194304) + "x" + Decimal(rows), 1) == Parsed(GridSpec(4194304, rows))
    ensures var g := Geometry(GridSpec(4194304, rows), 1024, 2);
            && Stride(g) == 0 && !InSomeCell(g, BufferSize(g) - 1)
            && Address(g, Place(0, 0, 0, 0)) == Address(g, Place(0, 0, 1, 0))
            && (CellsApart(g) <==> rows == 1)
  {
    WrittenGridIsAccepted(4194304, rows, 1);
    var g := Geometry(GridSpec(4194304, rows), 1024, 2);
    assert g.grid.cols * g.cellW == WORDS;
    LastByteIsLost(g);
    CellsAreApartIff(g);
  }

  // ---- pasting ---------------------------------------------------------------------------------

  datatype PictureData = Picture(width: Word, height: Word, bytes: seq<Byte>)
  /** A panel's picture; a side of zero is refused before anything is drawn. */
  type Picture = p: PictureData | p.width > 0 && p.height > 0 && |p.bytes| == p.height * (p.width * 3)
    witness Picture(1, 1, [0, 0, 0])

  datatype CellView = CellView(start: int, width: Word, height: Word, stride: nat)

  /** The offset that centers `inner` in `outer`, in 32-bit arithmetic. */
  function Centered(outer: Word, inner: Word): Word { ToWord(outer - inner) / 2 }

  /** A picture that fits leaves room on both sides; nothing wraps. */
  lemma CenteredFits(outer: Word, inner: Word)
    requires inner <= outer
    ensures Centered(outer, inner) + inner <= outer
    ensures 0 <= outer - inner - 2 * Centered(outer, inner) <= 1
  {
  }

  predicate FitsCell(g: Geometry, p: Picture) {
    p.width <= g.cellW && p.height <= g.cellH
  }

  /** The byte a cell shows at pixel row `y`, byte column `b` when the first `rows` rows of `p` have
      been pasted into it centered: the picture's, or black around it. */
  function ShownByte(g: Geometry, p: Picture, rows: nat, y: nat, b: nat): Byte
    requires rows <= p.height
  {
    var top, left, w := Centered(g.cellH, p.height), Centered(g.cellW, p.width) * 3, p.width * 3;
    if top <= y < top + rows && left <= b < left + w then
      TwoDigits(y - top, b - left, w, p.height);
      p.bytes[(y - top) * w + (b - left)]
    else 0
  }

  function IndexOf(g: Geometry, at: Place): nat { at.row * g.grid.cols + at.col }

  predicate IsCell(g: Geometry, i: nat, row: nat, col: nat) {
    row < g.grid.rows && col < g.grid.cols && i == row * g.grid.cols + col
  }

  lemma IndexNamesTheCell(g: Geometry, i: nat, row: nat, col: nat, at: Place)
    requires IsCell(g, i, row, col) && InCell(g, at)
    ensures IndexOf(g, at) == i <==> at.row == row && at.col == col
  {
    if IndexOf(g, at) == i {
      SameDigits(at.row, at.col, row, col, g.grid.cols);
    }
  }

  /** What the frame shows when `done[i]` rows of picture `i` have been pasted; cells without a picture
      are black. */
  function ByteAt(g: Geometry, pictures: seq<Picture>, done: seq<nat>, at: Place): Byte
    requires |done| == |pictures| && forall i | 0 <= i < |pictures| :: done[i] <= pictures[i].height
  {
    var i := IndexOf(g, at);
    if i < |pictures| then ShownByte(g, pictures[i], done[i], at.y, at.b) else 0
  }

  ghost predicate Shows(g: Geometry, pixels: seq<Byte>, pictures: seq<Picture>, done: seq<nat>) {
    && |pixels| == BufferSize(g)
    && |done| == |pictures| && (forall i | 0 <= i < |pictures| :: done[i] <= pictures[i].height)
    && forall at | InCell(g, at) && 0 <= Address(g, at) < |pixels| ::
         pixels[Address(g, at)] == ByteAt(g, pictures, done, at)
  }

  /** Where row `y` of a picture goes. */
  function RowPlace(g: Geometry, p: Picture, row: nat, col: nat, y: nat, k: nat): Place {
    Place(row, col, Centered(g.cellH, p.height) + y, Centered(g.cellW, p.width) * 3 + k)
  }

  /** A pasted row lies in its own cell, byte after byte. */
  lemma RowLiesInCell(g: Geometry, p: Picture, row: nat, col: nat, y: nat, k: nat)
    requires row < g.grid.rows && col < g.grid.cols && FitsCell(g, p) && y < p.height && k < p.width * 3
    ensures InCell(g, RowPlace(g, p, row, col, y, k))
    ensures Address(g, RowPlace(g, p, row, col, y, k)) == Address(g, RowPlace(g, p, row, col, y, 0)) + k
  {
    CenteredFits(g.cellW, p.width);
    CenteredFits(g.cellH, p.height);
  }

  /** The places whose bytes a row's copy overwrites are the row's own. */
  lemma OnlyTheRowIsWritten(g: Geometry, p: Picture, row: nat, col: nat, y: nat, at: Place)
    requires WidthFits(g) && row < g.grid.rows && col < g.grid.cols && FitsCell(g, p) && y < p.height
    requires InCell(g, at)
    ensures var start := Address(g, RowPlace(g, p, row, col, y, 0));
            start <= Address(g, at) < start + p.width * 3 <==>
            exists k: nat :: k < p.width * 3 && k == Address(g, at) - start && at == RowPlace(g, p, row, col, y, k)
  {
    var k := Address(g, at) - Address(g, RowPlace(g, p, row, col, y, 0));
    if 0 <= k < p.width * 3 {
      RowLiesInCell(g, p, row, col, y, k);
      CellsAreDisjoint(g, at, RowPlace(g, p, row, col, y, k));
    }
  }

  /** Bytes after row `y` of picture `p` has been copied to `start`. */
  predicate RowCopied(before: seq<Byte>, after: seq<Byte>, start: int, p: Picture, y: nat)
    requires y < p.height
  {
    && |after| == |before| && 0 <= start && start + p.width * 3 <= |before|
    && after == before[..start] + RowOf(p, y) + before[start + p.width * 3..]
  }

  function RowOf(p: Picture, y: nat): (row: seq<Byte>)
    requires y < p.height
    ensures |row| == p.width * 3
  {
    TwoDigits(y, 0, p.width * 3 + 1, p.height);
    RowInside(y, p.width * 3, p.height);
    p.bytes[y * (p.width * 3)..y * (p.width * 3) + p.width * 3]
  }

  lemma RowInside(y: nat, w: nat, h: nat)
    requires y < h
    ensures 0 <= y * w && y * w + w <= h * w
  {
    Grows(y + 1, h, w);
    Grows(0, y, w);
  }

  /** A byte of the copied row. */
  lemma CopiedByte(g: Geometry, before: seq<Byte>, after: seq<Byte>, p: Picture, row: nat, col: nat, y: nat, k: nat)
    requires row < g.grid.rows && col < g.grid.cols && FitsCell(g, p) && y < p.height && k < p.width * 3
    requires RowCopied(before, after, Address(g, RowPlace(g, p, row, col, y, 0)), p, y)
    ensures var at := RowPlace(g, p, row, col, y, k);
            && 0 <= Address(g, at) < |after|
            && after[Address(g, at)] == ShownByte(g, p, y + 1, at.y, at.b)
  {
    RowLiesInCell(g, p, row, col, y, k);
    RowInside(y, p.width * 3, p.height);
  }

  /** In the same cell, the next row is all that changes in what is shown. */
  lemma OtherRowsShowTheSame(g: Geometry, p: Picture, y: nat, at: Place)
    requires y < p.height && forall k: nat | k < p.width * 3 :: at != RowPlace(g, p, at.row, at.col, y, k)
    ensures ShownByte(g, p, y + 1, at.y, at.b) == ShownByte(g, p, y, at.y, at.b)
  {
    var left := Centered(g.cellW, p.width) * 3;
    if left <= at.b < left + p.width * 3 {
      var k: nat := at.b - left;
      assert at != RowPlace(g, p, at.row, at.col, y, k);
    }
  }

  /** A byte in the picture's own cell. */
  lemma ByteOfThisCell(g: Geometry, before: seq<Byte>, after: seq<Byte>, p: Picture, y: nat, at: Place)
    requires WidthFits(g) && InCell(g, at) && FitsCell(g, p) && y < p.height
    requires RowCopied(before, after, Address(g, RowPlace(g, p, at.row, at.col, y, 0)), p, y)
    requires 0 <= Address(g, at) < |before| && before[Address(g, at)] == ShownByte(g, p, y, at.y, at.b)
    ensures after[Address(g, at)] == ShownByte(g, p, y + 1, at.y, at.b)
  {
    OnlyTheRowIsWritten(g, p, at.row, at.col, y, at);
    if k: nat :| k < p.width * 3 && at == RowPlace(g, p, at.row, at.col, y, k) {
      CopiedByte(g, before, after, p, at.row, at.col, y, k);
    } else {
      OtherRowsShowTheSame(g, p, y, at);
    }
  }

  /** A byte in any other cell. */
  lemma ByteOfAnotherCell(g: Geometry, before: seq<Byte>, after: seq<Byte>, p: Picture, row: nat, col: nat, y: nat,
                          at: Place)
    requires WidthFits(g) && row < g.grid.rows && col < g.grid.cols && InCell(g, at) && FitsCell(g, p) && y < p.height
    requires at.row != row || at.col != col
    requires RowCopied(before, after, Address(g, RowPlace(g, p, row, col, y, 0)), p, y)
    requires 0 <= Address(g, at) < |before|
    ensures after[Address(g, at)] == before[Address(g, at)]
  {
    OnlyTheRowIsWritten(g, p, row, col, y, at);
  }

  ghost predicate NextRowCopied(g: Geometry, before: seq<Byte>, after: seq<Byte>, p: Picture, row: nat, col: nat,
                                y: nat) {
    && row < g.grid.rows && col < g.grid.cols && FitsCell(g, p) && y < p.height
    && RowCopied(before, after, Address(g, RowPlace(g, p, row, col, y, 0)), p, y)
  }

  /** Copying the next row of a picture that fits its cell shows that row and changes nothing else in
      the frame, so jobs that paste into different cells never see each other. */
  lemma RowIsShown(g: Geometry, before: seq<Byte>, after: seq<Byte>, pictures: seq<Picture>, done: seq<nat>, i: nat,
                   row: nat, col: nat)
    requires WidthFits(g) && i < |pictures| && IsCell(g, i, row, col) && Shows(g, before, pictures, done)
    requires NextRowCopied(g, before, after, pictures[i], row, col, done[i])
    ensures Shows(g, after, pictures, done[i := done[i] + 1])
  {
    forall at | InCell(g, at) && 0 <= Address(g, at) < |after|
      ensures after[Address(g, at)] == ByteAt(g, pictures, done[i := done[i] + 1], at)
    {
      assert before[Address(g, at)] == ByteAt(g, pictures, done, at);
      ByteIsShown(g, before, after, pictures, done, i, row, col, at);
    }
  }

  lemma ByteIsShown(g: Geometry, before: seq<Byte>, after: seq<Byte>, pictures: seq<Picture>, done: seq<nat>, i: nat,
                    row: nat, col: nat, at: Place)
    requires WidthFits(g) && i < |pictures| == |done| && IsCell(g, i, row, col)
    requires forall j | 0 <= j < |pictures| :: done[j] <= pictures[j].height
    requires NextRowCopied(g, before, after, pictures[i], row, col, done[i])
    requires InCell(g, at) && 0 <= Address(g, at) < |before|
    requires before[Address(g, at)] == ByteAt(g, pictures, done, at)
    ensures after[Address(g, at)] == ByteAt(g, pictures, done[i := done[i] + 1], at)
  {
    IndexNamesTheCell(g, i, row, col, at);
    if IndexOf(g, at) == i {
      ByteOfThisCell(g, before, after, pictures[i], done[i], at);
    } else {
      ByteOfAnotherCell(g, before, after, pictures[i], row, col, done[i], at);
    }
  }

  class Canvas {
    const grid: GridSpec
    var cellW: Word
    var cellH: Word
    var pixels: array<Byte>

    constructor (grid: GridSpec)
      ensures this.grid == grid && cellW == 0 && cellH == 0 && fresh(pixels) && pixels.Length == 0
    {
      this.grid := grid;
      cellW, cellH := 0, 0;
      pixels := new Byte[0];
    }

    function Layout(): Geometry
      reads this
    {
      Geometry(grid, cellW, cellH)
    }

    /** Fix the cell size and start from black. */
    method SetCellSize(w: Word, h: Word)
      modifies this
      ensures cellW == w && cellH == h && fresh(pixels)
      ensures Shows(Layout(), pixels[..], [], [])
    {
      cellW, cellH := w, h;
      pixels := new Byte[BufferSize(Geometry(grid, w, h))](_ => 0);
    }

    method Clear()
      modifies pixels
      ensures forall a | 0 <= a < pixels.Length :: pixels[a] == 0
    {
      for a := 0 to pixels.Length
        invariant forall k | 0 <= k < a :: pixels[k] == 0
      {
        pixels[a] := 0;
      }
    }

    /** The view of a cell.  Cells are numbered left to right, top to bottom. */
    method Cell(index: nat) returns (view: CellView, ghost gridRow: nat, ghost gridCol: nat)
      requires index < Cells(Layout())
      ensures IsCell(Layout(), index, gridRow, gridCol)
      ensures view == CellView(CellStart(Layout(), gridRow, gridCol), cellW, cellH, Stride(Layout()))
    {
      RowAndColumn(grid, index);
      var stride := ToWord(grid.cols * cellW) * 3;
      var col, row := index % grid.cols, index / grid.cols;
      gridRow, gridCol := row, col;
      view := CellView(row * cellH * stride + col * cellW * 3, cellW, cellH, stride);
    }
  }
}
