/** How drawing a cell and scrolling the buffer act on the picture. */
module Drawing {
  import opened Arithmetic
  import opened TextGrid
  import opened Framebuffer

  /** `after` is `before` with cell (row, col) drawn, and nothing else changed. */
  ghost predicate CellDrawn(g: Geometry, font: Font, back: Color, row: nat, col: nat, cell: Cell,
                            before: seq<Color>, after: seq<Color>)
    requires g.Ok() && (cell.Glyph? ==> cell.chr < 128)
  {
    |after| == |before| && forall w | 0 <= w < |before| ::
      after[w] == if InCell(g, row, col, Quot(w, g.ppsl), Rem(w, g.ppsl))
                  then InkAt(g, font, back, cell, Quot(w, g.ppsl), Rem(w, g.ppsl)) else before[w]
  }

  /** The buffer with cell (row, col) drawn. */
  ghost function DrawnCell(g: Geometry, font: Font, back: Color, row: nat, col: nat, cell: Cell,
                           before: seq<Color>): (after: seq<Color>)
    requires g.Ok() && (cell.Glyph? ==> cell.chr < 128)
    ensures CellDrawn(g, font, back, row, col, cell, before, after)
  {
    seq(|before|, w requires 0 <= w < |before| =>
      if InCell(g, row, col, Quot(w, g.ppsl), Rem(w, g.ppsl))
      then InkAt(g, font, back, cell, Quot(w, g.ppsl), Rem(w, g.ppsl)) else before[w])
  }

  lemma DrawnCellIs(g: Geometry, font: Font, back: Color, row: nat, col: nat, cell: Cell, before: seq<Color>, after: seq<Color>)
    requires g.Ok() && (cell.Glyph? ==> cell.chr < 128)
    requires CellDrawn(g, font, back, row, col, cell, before, after)
    ensures after == DrawnCell(g, font, back, row, col, cell, before)
  {
    hide Quot, Rem, InCell, InkAt;
  }

  lemma CellRendered(g: Geometry, font: Font, back: Color, grid: seq<Cell>, index: nat, cell: Cell,
                     before: seq<Color>, after: seq<Color>)
    requires Rendered(g, font, back, grid, before) && index < |grid| && (cell.Glyph? ==> cell.chr < 128)
    requires CellDrawn(g, font, back, Quot(index, g.Cols()), Rem(index, g.Cols()), cell, before, after)
    ensures Rendered(g, font, back, grid[index := cell], after)
  {
    hide Quot, Rem, InkAt;
    var grid' := grid[index := cell];
    DrawableUpdate(grid, index, cell);
    forall w | 0 <= w < |after| && Rem(w, g.ppsl) < g.hres
      ensures after[w] == Pixel(g, font, back, grid', Quot(w, g.ppsl), Rem(w, g.ppsl))
    {
      PixelUpdate(g, font, back, grid, index, cell, Quot(w, g.ppsl), Rem(w, g.ppsl));
    }
  }

  lemma DrawableUpdate(grid: seq<Cell>, index: nat, cell: Cell)
    requires Drawable(grid) && index < |grid| && (cell.Glyph? ==> cell.chr < 128)
    ensures Drawable(grid[index := cell])
  {
    forall c | c in grid[index := cell] && c.Glyph?
      ensures c.chr < 128
    {
      assert c in grid || c == cell;
    }
  }

  lemma PixelUpdate(g: Geometry, font: Font, back: Color, grid: seq<Cell>, index: nat, cell: Cell, y: nat, x: nat)
    requires g.Ok() && |grid| == g.Rows() * g.Cols() && Drawable(grid)
    requires index < |grid| && Drawable(grid[index := cell]) && (cell.Glyph? ==> cell.chr < 128)
    ensures 0 < g.Cols()
    ensures Pixel(g, font, back, grid[index := cell], y, x)
         == if InCell(g, Quot(index, g.Cols()), Rem(index, g.Cols()), y, x)
            then InkAt(g, font, back, cell, y, x)
            else Pixel(g, font, back, grid, y, x)
  {
    hide Quot, Rem, InkAt;
    var row, col := Quot(y, g.Unit()), Quot(x, g.Unit());
    SomeCells(g);
    DivMod(y, g.Unit());
    DivMod(x, g.Unit());
    DivMod(index, g.Cols());
    IndexRow(index, g.Rows(), g.Cols());
    if row < g.Rows() && col < g.Cols() {
      CellIndex(row, col, g.Rows(), g.Cols());
      if row * g.Cols() + col == index {
        DivModIs(index, row, col, g.Cols());
      }
    }
  }

  lemma SomeCells(g: Geometry)
    requires g.Ok()
    ensures 0 < g.Rows() && 0 < g.Cols()
  {
    hide Quot, Rem;
    DivMod(g.vres, g.Unit());
    DivMod(g.hres, g.Unit());
  }

  lemma IndexRow(index: nat, rows: nat, cols: nat)
    requires 0 < cols && index < rows * cols
    ensures Quot(index, cols) < rows
  {
    RowOf(index, rows, cols);
  }

  // --------------------------------------------------------------- scrolling

  /** ScrollUp on the first `total` words: all move down by `step`, and the last
      `step` are cleared; later words stay. */
  function ScrollWords(buf: seq<Color>, total: nat, step: nat, back: Color): seq<Color>
    requires step <= total <= |buf|
  {
    buf[step..total] + seq(step, _ => back) + buf[total..]
  }

  lemma ScrollWord(buf: seq<Color>, total: nat, step: nat, back: Color, w: nat)
    requires step <= total <= |buf| && w < |buf|
    ensures |ScrollWords(buf, total, step, back)| == |buf|
    ensures ScrollWords(buf, total, step, back)[w]
         == if w + step < total then buf[w + step] else if w < total then back else buf[w]
  {}

  predicate InText(g: Geometry, y: nat, x: nat)
    requires g.Ok()
  {
    Quot(y, g.Unit()) < g.Rows() && Quot(x, g.Unit()) < g.Cols()
  }

  lemma TextIndex(g: Geometry, y: nat, x: nat)
    requires g.Ok() && InText(g, y, x)
    ensures g.ppsl * y + x < (g.Rows() * g.Unit() - 1) * g.ppsl + g.Cols() * g.Unit()
  {
    hide Quot, Rem;
    DivMod(y, g.Unit());
    DivMod(x, g.Unit());
    MulIf(Quot(y, g.Unit()) + 1, g.Rows(), g.Unit());
    MulIf(Quot(x, g.Unit()) + 1, g.Cols(), g.Unit());
    Products(Quot(y, g.Unit()), 0, g.Unit());
    Products(Quot(x, g.Unit()), 0, g.Unit());
    MulIf(y, g.Rows() * g.Unit() - 1, g.ppsl);
  }

  /** Scrolling the words is scrolling the cells when the words moved take in all of
      them; the rows below the last text row, and the columns beside, supply
      background. */
  lemma ScrollRendered(g: Geometry, font: Font, back: Color, grid: seq<Cell>, buf: seq<Color>)
    requires Rendered(g, font, back, grid, buf) && g.Roomy() && g.ScrollsRight()
    ensures g.vres * g.hres <= |buf| && g.Cols() <= |grid|
    ensures Rendered(g, font, back, Scrolled(grid, g.Cols()),
                     ScrollWords(buf, g.vres * g.hres, g.ppsl * g.Unit(), back))
  {
    hide Quot, Rem, InkAt, Pixel, ScrollWords;
    SomeCells(g);
    RowsRoom(g.Rows(), g.Cols());
    Mul(g.hres, g.ppsl, g.vres);
    ScrolledDrawable(grid, g.Cols());
    ScrollLength(buf, g.vres * g.hres, g.ppsl * g.Unit(), back);
    forall w | 0 <= w < |buf| && Rem(w, g.ppsl) < g.hres
      ensures ScrollWords(buf, g.vres * g.hres, g.ppsl * g.Unit(), back)[w]
           == Pixel(g, font, back, Scrolled(grid, g.Cols()), Quot(w, g.ppsl), Rem(w, g.ppsl))
    {
      PixelScrolled(g, font, back, grid, Quot(w, g.ppsl), Rem(w, g.ppsl));
      ScrolledWord(g, font, back, grid, buf, w);
    }
  }

  lemma ScrolledWord(g: Geometry, font: Font, back: Color, grid: seq<Cell>, buf: seq<Color>, w: nat)
    requires Rendered(g, font, back, grid, buf) && g.Roomy() && g.ScrollsRight() && g.vres * g.hres <= |buf|
    requires w < |buf| && Rem(w, g.ppsl) < g.hres
    ensures var y, x := Quot(w, g.ppsl), Rem(w, g.ppsl);
            var after := ScrollWords(buf, g.vres * g.hres, g.ppsl * g.Unit(), back);
            |after| == |buf| && after[w] == if y + g.Unit() < g.vres then Pixel(g, font, back, grid, y + g.Unit(), x) else back
  {
    hide Quot, Rem, InkAt, Pixel, ScrollWords, InText, Geometry.ScrollsRight, Geometry.Rows, Geometry.Cols, Drawable;
    var total, step := g.vres * g.hres, g.ppsl * g.Unit();
    var y, x := Quot(w, g.ppsl), Rem(w, g.ppsl);
    ScrollWord(buf, total, step, back, w);
    DivMod(w, g.ppsl);
    ShiftedIndex(g.ppsl, y, x, g.Unit(), w);
    IndexIs(g.ppsl, y + g.Unit(), x, w + step);
    OutsideText(g, font, back, grid, y, x);
    OutsideText(g, font, back, grid, y + g.Unit(), x);
    TextMoved(g, y, x);
    TextMoved(g, y + g.Unit(), x);
    if w + step < total {
      RowBelow(g.ppsl, w + step, g.vres);
    }
  }

  lemma TextMoved(g: Geometry, y: nat, x: nat)
    requires g.Ok() && g.ScrollsRight()
    ensures InText(g, y, x) ==> g.ppsl * y + x < g.vres * g.hres
  {
    if InText(g, y, x) {
      TextIndex(g, y, x);
    }
  }

  lemma OutsideText(g: Geometry, font: Font, back: Color, grid: seq<Cell>, y: nat, x: nat)
    requires g.Ok() && |grid| == g.Rows() * g.Cols() && Drawable(grid)
    ensures !InText(g, y, x) ==> Pixel(g, font, back, grid, y, x) == back
  {}

  /** Without a back porch the words moved take in the whole picture. */
  lemma NoPorch(g: Geometry)
    requires g.Ok() && g.ppsl == g.hres
    ensures g.Roomy() && g.ScrollsRight()
  {
    hide Quot, Rem;
    SomeCells(g);
    DivMod(g.vres, g.Unit());
    DivMod(g.hres, g.Unit());
    Mul(g.Unit(), g.vres, g.hres);
    Mul(1, g.Rows(), g.Unit());
    var lines := g.Rows() * g.Unit();
    Mul(lines, g.vres, g.hres);
    assert (lines - 1) * g.hres == lines * g.hres - g.hres;
  }

  lemma ScrollLength(buf: seq<Color>, total: nat, step: nat, back: Color)
    requires step <= total <= |buf|
    ensures |ScrollWords(buf, total, step, back)| == |buf|
  {}

  lemma ShiftedIndex(ppsl: nat, y: nat, x: nat, unit: nat, w: nat)
    requires w == y * ppsl + x
    ensures w + ppsl * unit == ppsl * (y + unit) + x
  {}

  lemma ScrolledDrawable(grid: seq<Cell>, cols: nat)
    requires Drawable(grid) && cols <= |grid|
    ensures Drawable(Scrolled(grid, cols)) && |Scrolled(grid, cols)| == |grid|
  {
    forall c | c in Scrolled(grid, cols) && c.Glyph?
      ensures c.chr < 128
    {
      assert c in grid[cols..] || c in Blanks(cols);
      assert c in grid;
    }
  }

  /** The scrolled picture at row `y` is the old one a cell further down. */
  lemma PixelScrolled(g: Geometry, font: Font, back: Color, grid: seq<Cell>, y: nat, x: nat)
    requires g.Ok() && |grid| == g.Rows() * g.Cols() && Drawable(grid) && g.Cols() <= |grid|
    requires Drawable(Scrolled(grid, g.Cols())) && |Scrolled(grid, g.Cols())| == |grid|
    ensures Pixel(g, font, back, Scrolled(grid, g.Cols()), y, x)
         == if y + g.Unit() < g.vres then Pixel(g, font, back, grid, y + g.Unit(), x) else back
  {
    hide Quot, Rem;
    var row, col := Quot(y, g.Unit()), Quot(x, g.Unit());
    DivMod(y, g.Unit());
    DivMod(x, g.Unit());
    DivMod(g.vres, g.Unit());
    DivModIs(y + g.Unit(), row + 1, Rem(y, g.Unit()), g.Unit());
    MulIf(row + 2, g.Rows(), g.Unit());
    if row < g.Rows() && col < g.Cols() {
      CellIndex(row, col, g.Rows(), g.Cols());
      assert (row + 1) * g.Cols() == row * g.Cols() + g.Cols();
      if row + 1 < g.Rows() {
        CellIndex(row + 1, col, g.Rows(), g.Cols());
        assert Scrolled(grid, g.Cols())[row * g.Cols() + col] == grid[(row + 1) * g.Cols() + col];
      } else {
        assert row + 1 == g.Rows();
        assert Scrolled(grid, g.Cols())[row * g.Cols() + col] == Blank;
      }
    }
  }

  /** What ScrollUp makes of a whole buffer. */
  ghost function ScrolledBuffer(g: Geometry, back: Color, buf: seq<Color>): seq<Color>
    requires g.Roomy() && g.hres <= g.ppsl && |buf| == g.ppsl * g.vres
  {
    Mul(g.hres, g.ppsl, g.vres);
    ScrollWords(buf, g.vres * g.hres, g.ppsl * g.Unit(), back)
  }

  /** The screen `s` with one more cell put at its cursor, not scrolled yet. */
  ghost function WithCell(s: Screen, cell: Cell): seq<Cell> {
    if s.index < |s.grid| then s.grid[s.index := cell] else s.grid
  }

  /** The picture is right after the put that scrolls a full screen. */
  ghost predicate ScrollShows(g: Geometry, font: Font, back: Color, ops: seq<Op>, cell: Cell, buf: seq<Color>)
    requires g.Ok() && 0 < g.Rows() && 0 < g.Cols() && g.Roomy()
  {
    var s := Shown(ops, g.Rows(), g.Cols());
    (cell.Glyph? ==> cell.chr < 128) && |buf| == g.ppsl * g.vres && s.index == g.Rows() * g.Cols() - 1
      && Rendered(g, font, back, WithCell(s, cell), buf)
    ==> Rendered(g, font, back, Shown(ops + [Put(cell)], g.Rows(), g.Cols()).grid, ScrolledBuffer(g, back, buf))
  }

  /** On the screens a console comes to show, ScrollUp is right, whatever they show,
      exactly when the words it moves take in the last pixel of the last cell: with
      a back porch, when there are enough lines below the last text row. */
  lemma ScrollShowsExact(g: Geometry, back: Color)
    requires g.Ok() && g.Roomy()
    ensures 0 < g.Rows() && 0 < g.Cols()
    ensures (forall font: Font, ops: seq<Op>, cell: Cell, buf: seq<Color> :: ScrollShows(g, font, back, ops, cell, buf))
       <==> g.ScrollsRight()
    ensures g.ppsl == g.hres ==> g.ScrollsRight()
  {
    if g.ppsl == g.hres {
      NoPorch(g);
    }
    hide ScrollShows, Geometry.ScrollsRight, Geometry.Rows, Geometry.Cols;
    SomeCells(g);
    if g.ScrollsRight() {
      forall font: Font, ops: seq<Op>, cell: Cell, buf: seq<Color>
        ensures ScrollShows(g, font, back, ops, cell, buf)
      {
        ShowsRight(g, font, back, ops, cell, buf);
      }
    } else {
      var font: Font := seq(128, _ => seq(8, _ => 0));
      var other: Color := if back == 0 then 1 else 0;
      var ops, buf := ShowsWrong(g, font, back, Glyph(0, other, other));
    }
  }

  lemma ShowsRight(g: Geometry, font: Font, back: Color, ops: seq<Op>, cell: Cell, buf: seq<Color>)
    requires g.Ok() && 0 < g.Rows() && 0 < g.Cols() && g.Roomy() && g.ScrollsRight()
    ensures ScrollShows(g, font, back, ops, cell, buf)
  {
    hide Quot, Rem, Rendered, ScrollWords, Geometry.ScrollsRight, Geometry.Rows, Geometry.Cols, Shown;
    var s := Shown(ops, g.Rows(), g.Cols());
    RowsRoom(g.Rows(), g.Cols());
    ShownNext(ops, Put(cell), g.Rows(), g.Cols());
    if s.index == g.Rows() * g.Cols() - 1 && Rendered(g, font, back, WithCell(s, cell), buf) {
      ScrollRendered(g, font, back, WithCell(s, cell), buf);
    }
  }

  /** A screen full of one cell in another colour. */
  lemma ShowsWrong(g: Geometry, font: Font, back: Color, cell: Cell)
      returns (ops: seq<Op>, buf: seq<Color>)
    requires g.Ok() && 0 < g.Rows() && 0 < g.Cols() && g.Roomy() && !g.ScrollsRight()
    requires cell.Glyph? && cell.chr < 128 && cell.fore == cell.back != back
    ensures !ScrollShows(g, font, back, ops, cell, buf)
  {
    hide Quot, Rem, Rendered, ScrollWords, Geometry.ScrollsRight, Geometry.Rows, Geometry.Cols, Shown, Canvas, Drawable;
    ops := seq(g.Rows() * g.Cols() - 1, _ => Put(cell));
    var s := Shown(ops, g.Rows(), g.Cols());
    RowsRoom(g.Rows(), g.Cols());
    FilledScreen(g.Rows() * g.Cols() - 1, cell, g.Rows(), g.Cols());
    ShownNext(ops, Put(cell), g.Rows(), g.Cols());
    var grid := WithCell(s, cell);
    FullDrawable(grid, cell);
    Mul(g.hres, g.ppsl, g.vres);
    CanvasRendered(g, font, back, grid);
    FullScrollFails(g, font, back, grid, cell);
    buf := Canvas(g, font, back, grid);
  }

  lemma FullDrawable(grid: seq<Cell>, cell: Cell)
    requires (forall i | 0 <= i < |grid| :: grid[i] == cell) && (cell.Glyph? ==> cell.chr < 128)
    ensures Drawable(grid)
  {}

  /** A buffer that shows the grid. */
  ghost function Canvas(g: Geometry, font: Font, back: Color, grid: seq<Cell>): seq<Color>
    requires g.Ok() && |grid| == g.Rows() * g.Cols() && Drawable(grid)
  {
    seq(g.ppsl * g.vres, w requires 0 <= w => Pixel(g, font, back, grid, Quot(w, g.ppsl), Rem(w, g.ppsl)))
  }

  lemma CanvasRendered(g: Geometry, font: Font, back: Color, grid: seq<Cell>)
    requires g.Ok() && |grid| == g.Rows() * g.Cols() && Drawable(grid)
    ensures |Canvas(g, font, back, grid)| == g.ppsl * g.vres
    ensures Rendered(g, font, back, grid, Canvas(g, font, back, grid))
  {
    hide Quot, Rem, Pixel;
  }

  /** The last pixel of the last cell keeps its ink. */
  lemma FullScrollFails(g: Geometry, font: Font, back: Color, grid: seq<Cell>, cell: Cell)
    requires g.Ok() && |grid| == g.Rows() * g.Cols() && Drawable(grid) && g.Roomy() && !g.ScrollsRight()
    requires forall i | 0 <= i < |grid| :: grid[i] == cell
    requires cell.Glyph? && cell.fore == cell.back != back
    requires g.vres * g.hres <= g.ppsl * g.vres
    ensures g.Cols() <= |grid|
    ensures !Rendered(g, font, back, Scrolled(grid, g.Cols()),
                      ScrollWords(Canvas(g, font, back, grid), g.vres * g.hres, g.ppsl * g.Unit(), back))
  {
    hide Quot, Rem, ScrollWords, Pixel, Drawable, Canvas, InText, Scrolled, Geometry.ScrollsRight, Geometry.Rows, Geometry.Cols;
    SomeCells(g);
    RowsRoom(g.Rows(), g.Cols());
    LastWord(g);
    var y, x := g.Rows() * g.Unit() - 1, g.Cols() * g.Unit() - 1;
    var w := g.ppsl * y + x;
    CanvasWord(g, font, back, grid, w);
    ScrollWord(Canvas(g, font, back, grid), g.vres * g.hres, g.ppsl * g.Unit(), back, w);
    FullPixel(g, font, back, grid, cell, y, x);
    if Drawable(Scrolled(grid, g.Cols())) && |Scrolled(grid, g.Cols())| == |grid| {
      PixelScrolled(g, font, back, grid, y, x);
      OutsideText(g, font, back, grid, y + g.Unit(), x);
    }
  }

  lemma CanvasWord(g: Geometry, font: Font, back: Color, grid: seq<Cell>, w: nat)
    requires g.Ok() && |grid| == g.Rows() * g.Cols() && Drawable(grid) && w < g.ppsl * g.vres
    ensures |Canvas(g, font, back, grid)| == g.ppsl * g.vres
    ensures Canvas(g, font, back, grid)[w] == Pixel(g, font, back, grid, Quot(w, g.ppsl), Rem(w, g.ppsl))
  {
    hide Quot, Rem, Pixel;
  }

  /** The word of the last text pixel, when ScrollUp does not reach it. */
  lemma LastWord(g: Geometry)
    requires g.Ok() && !g.ScrollsRight()
    ensures 0 < g.Rows() * g.Unit() <= g.vres && 0 < g.Cols() * g.Unit() <= g.hres
    ensures var y, x := g.Rows() * g.Unit() - 1, g.Cols() * g.Unit() - 1;
            var w := g.ppsl * y + x;
            && g.vres * g.hres <= w < g.ppsl * g.vres && Quot(w, g.ppsl) == y && Rem(w, g.ppsl) == x
            && InText(g, y, x) && !InText(g, y + g.Unit(), x)
  {
    hide Quot, Rem;
    LastTextPixel(g);
    var y, x := g.Rows() * g.Unit() - 1, g.Cols() * g.Unit() - 1;
    IndexIs(g.ppsl, y, x, g.ppsl * y + x);
    IndexBelow(g.ppsl, y, x, g.vres);
  }

  lemma LastTextPixel(g: Geometry)
    requires g.Ok()
    ensures 0 < g.Rows() * g.Unit() <= g.vres && 0 < g.Cols() * g.Unit() <= g.hres
    ensures var y, x := g.Rows() * g.Unit() - 1, g.Cols() * g.Unit() - 1;
            && InText(g, y, x) && !InText(g, y + g.Unit(), x)
  {
    hide Quot, Rem;
    SomeCells(g);
    DivMod(g.vres, g.Unit());
    DivMod(g.hres, g.Unit());
    Mul(1, g.Rows(), g.Unit());
    Mul(1, g.Cols(), g.Unit());
    assert g.Rows() * g.Unit() == (g.Rows() - 1) * g.Unit() + g.Unit();
    assert g.Cols() * g.Unit() == (g.Cols() - 1) * g.Unit() + g.Unit();
    DivModIs(g.Rows() * g.Unit() - 1, g.Rows() - 1, g.Unit() - 1, g.Unit());
    DivModIs(g.Rows() * g.Unit() - 1 + g.Unit(), g.Rows(), g.Unit() - 1, g.Unit());
    DivModIs(g.Cols() * g.Unit() - 1, g.Cols() - 1, g.Unit() - 1, g.Unit());
  }

  lemma FullPixel(g: Geometry, font: Font, back: Color, grid: seq<Cell>, cell: Cell, y: nat, x: nat)
    requires g.Ok() && |grid| == g.Rows() * g.Cols() && Drawable(grid) && InText(g, y, x)
    requires (forall i | 0 <= i < |grid| :: grid[i] == cell) && cell.Glyph? && cell.fore == cell.back
    ensures Pixel(g, font, back, grid, y, x) == cell.fore
  {
    hide Quot, Rem, Bit;
    CellIndex(Quot(y, g.Unit()), Quot(x, g.Unit()), g.Rows(), g.Cols());
    DivMod(y, g.Unit());
  }

  /** The visible picture moves up by one cell, background coming in below. */
  ghost predicate PictureMoved(g: Geometry, back: Color, before: seq<Color>, after: seq<Color>)
    requires g.Ok()
  {
    |after| == |before| && forall w | 0 <= w < |before| && Rem(w, g.ppsl) < g.hres ::
      var below := w + g.ppsl * g.Unit();
      after[w] == if below < |before| then before[below] else back
  }

  /** ScrollUp moves the visible picture, whatever is on it, exactly when the
      buffer has no back porch: its word count is that of a buffer without one. */
  lemma ScrollExact(g: Geometry, back: Color)
    requires g.Ok() && g.ppsl * g.Unit() <= g.vres * g.hres
    ensures g.vres * g.hres <= g.ppsl * g.vres
    ensures (forall buf: seq<Color> | |buf| == g.ppsl * g.vres ::
               PictureMoved(g, back, buf, ScrollWords(buf, g.vres * g.hres, g.ppsl * g.Unit(), back)))
       <==> g.ppsl == g.hres
  {
    hide Quot, Rem;
    var total, step := g.vres * g.hres, g.ppsl * g.Unit();
    Mul(g.hres, g.ppsl, g.vres);
    if g.ppsl == g.hres {
      forall buf: seq<Color> | |buf| == g.ppsl * g.vres
        ensures PictureMoved(g, back, buf, ScrollWords(buf, total, step, back))
      {
        forall w | 0 <= w < |buf|
          ensures ScrollWords(buf, total, step, back)[w] == if w + step < |buf| then buf[w + step] else back
        {
          ScrollWord(buf, total, step, back, w);
        }
      }
    } else {
      var other: Color := if back == 0 then 1 else 0;
      var buf: seq<Color> := seq(g.ppsl * g.vres, _ => other);
      LastPixel(g);
      var w := g.ppsl * (g.vres - 1) + (g.hres - 1);
      ScrollWord(buf, total, step, back, w);
      assert !PictureMoved(g, back, buf, ScrollWords(buf, total, step, back));
    }
  }

  /** With a back porch the last visible pixel lies beyond the words moved. */
  lemma LastPixel(g: Geometry)
    requires g.Ok() && g.ppsl > g.hres
    ensures var w := g.ppsl * (g.vres - 1) + (g.hres - 1);
            && g.vres * g.hres <= w < g.ppsl * g.vres
            && Rem(w, g.ppsl) == g.hres - 1
            && w + g.ppsl * g.Unit() >= g.ppsl * g.vres
  {
    hide Quot, Rem;
    var w := g.ppsl * (g.vres - 1) + (g.hres - 1);
    var porch := g.ppsl - g.hres;
    IndexIs(g.ppsl, g.vres - 1, g.hres - 1, w);
    IndexBelow(g.ppsl, g.vres - 1, g.hres - 1, g.vres);
    assert g.ppsl * g.vres == g.hres * g.vres + porch * g.vres;
    assert g.ppsl * (g.vres - 1) == g.ppsl * g.vres - g.ppsl;
    assert porch * g.vres >= porch * 2 by { Mul(2, g.vres, porch); }
    assert g.ppsl * g.Unit() >= g.ppsl by { Mul(1, g.Unit(), g.ppsl); }
  }
}
