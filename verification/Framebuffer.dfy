/** The pixels: how a cell grid is drawn into a linear frame buffer. */
module Framebuffer {
  import opened Arithmetic
  import opened TextGrid

  const U32: nat := 0x1_0000_0000

  datatype Geometry = Geometry(hres: nat, vres: nat, ppsl: nat, scale: nat) {
    /** A glyph is 8 dots of `scale` pixels each way. */
    function Unit(): nat { 8 * scale }

    /** Room for one cell; every byte offset fits 32 bits; a line of the buffer
        may be longer than the picture (the back porch). */
    predicate Ok() {
      scale in {1, 2, 4} && hres >= 8 * scale && vres >= 8 * scale && ppsl >= hres && 4 * (ppsl * vres) < U32
    }

    function Rows(): nat
      requires Ok()
    {
      Quot(vres, Unit())
    }

    function Cols(): nat
      requires Ok()
    {
      Quot(hres, Unit())
    }

    /** The words ScrollUp moves are at least those of one text row. */
    predicate Roomy() { ppsl * Unit() <= vres * hres }

    /** And they take in the last pixel of the last cell. */
    predicate ScrollsRight()
      requires Ok()
    {
      (Rows() * Unit() - 1) * ppsl + Cols() * Unit() <= vres * hres
    }
  }

  /** 128 glyphs of 8 bytes; bit x of byte y is the dot at column x, row y. */
  type Font = f: seq<seq<nat>> | |f| == 128 && forall c | 0 <= c < 128 :: |f[c]| == 8
    witness seq(128, _ => seq(8, _ => 0))

  function Pow2(n: nat): (p: nat)
    ensures p > 0
  {
    if n == 0 then 1 else 2 * Pow2(n - 1)
  }

  predicate Bit(byte: nat, n: nat) { byte / Pow2(n) % 2 == 1 }

  function Weight(lit: bool, w: nat): nat { if lit then w else 0 }

  /** The lowest `n` dots of a row, column k with the weight 2^k. */
  function DotSum(byte: nat, n: nat): nat {
    if n == 0 then 0 else DotSum(byte, n - 1) + Weight(Bit(byte, n - 1), Pow2(n - 1))
  }

  /** They are the byte's low bits. */
  lemma {:induction false} DotSumIs(byte: nat, n: nat)
    ensures byte == DotSum(byte, n) + Pow2(n) * (byte / Pow2(n))
  {
    if n > 0 {
      DotSumIs(byte, n - 1);
      HalfOf(byte, Pow2(n - 1));
    }
  }

  lemma HalfOf(byte: nat, w: nat)
    requires 0 < w
    ensures w * (byte / w) == (if byte / w % 2 == 1 then w else 0) + 2 * w * (byte / (2 * w))
  {
    hide Quot, Rem;
    var q := byte / w;
    var h, r := q / 2, q % 2;
    DivMod(byte, w);
    assert Quot(byte, w) == q by { QuotIs(byte, w); }
    assert byte == (2 * h + r) * w + Rem(byte, w) == h * (2 * w) + (r * w + Rem(byte, w));
    DivModIs(byte, h, r * w + Rem(byte, w), 2 * w);
    QuotIs(byte, 2 * w);
    assert w * q == 2 * w * h + r * w;
  }

  lemma QuotIs(n: nat, d: nat)
    requires 0 < d
    ensures Quot(n, d) == n / d
  {}

  /** The dots that are lit in a row of a glyph add up to the font's byte, column n
      weighing 2^n: the lowest bit is the leftmost dot. */
  lemma BitsAddUp(byte: nat)
    requires byte < 256
    ensures byte == Weight(Bit(byte, 0), 1) + Weight(Bit(byte, 1), 2) + Weight(Bit(byte, 2), 4) + Weight(Bit(byte, 3), 8)
                  + Weight(Bit(byte, 4), 16) + Weight(Bit(byte, 5), 32) + Weight(Bit(byte, 6), 64) + Weight(Bit(byte, 7), 128)
  {
    hide Bit, DotSum, Pow2;
    DotSumIs(byte, 8);
    Powers();
    DotSumStep(byte, 8);
    DotSumStep(byte, 7);
    DotSumStep(byte, 6);
    DotSumStep(byte, 5);
    DotSumStep(byte, 4);
    DotSumStep(byte, 3);
    DotSumStep(byte, 2);
    DotSumStep(byte, 1);
    assert byte / 256 == 0;
  }

  lemma DotSumStep(byte: nat, n: nat)
    requires 0 < n
    ensures DotSum(byte, n) == DotSum(byte, n - 1) + Weight(Bit(byte, n - 1), Pow2(n - 1)) && DotSum(byte, 0) == 0
  {}

  lemma Powers()
    ensures Pow2(0) == 1 && Pow2(1) == 2 && Pow2(2) == 4 && Pow2(3) == 8
    ensures Pow2(4) == 16 && Pow2(5) == 32 && Pow2(6) == 64 && Pow2(7) == 128 && Pow2(8) == 256
  {
    assert Pow2(4) == 2 * Pow2(3);
  }

  /** The colour of pixel (dy, dx) of a cell. */
  function Ink(font: Font, scale: nat, back: Color, cell: Cell, dy: nat, dx: nat): Color
    requires 0 < scale && dy < 8 * scale
    requires cell.Glyph? ==> cell.chr < 128
  {
    match cell
    case Blank => back
    case Glyph(chr, f, b) => DotRow(dy, scale); if Bit(font[chr][Quot(dy, scale)], Quot(dx, scale)) then f else b
  }

  /** The ink of a cell at a pixel of the whole picture. */
  function InkAt(g: Geometry, font: Font, back: Color, cell: Cell, y: nat, x: nat): Color
    requires g.Ok() && (cell.Glyph? ==> cell.chr < 128)
  {
    DivMod(y, g.Unit());
    Ink(font, g.scale, back, cell, Rem(y, g.Unit()), Rem(x, g.Unit()))
  }

  /** The dot of its cell that a pixel of the picture belongs to. */
  function DotAt(g: Geometry, y: nat, x: nat): nat
    requires g.Ok()
  {
    Dot(Rem(y, g.Unit()), Rem(x, g.Unit()), g.scale)
  }

  lemma DotRow(dy: nat, scale: nat)
    requires 0 < scale && dy < 8 * scale
    ensures Quot(dy, scale) < 8
  {
    hide Quot, Rem;
    DivMod(dy, scale);
    if Quot(dy, scale) >= 8 {
      Mul(8, Quot(dy, scale), scale);
    }
  }

  ghost predicate Drawable(grid: seq<Cell>) {
    forall c | c in grid && c.Glyph? :: c.chr < 128
  }

  /** The picture: leftover rows and columns are background. */
  function Pixel(g: Geometry, font: Font, back: Color, grid: seq<Cell>, y: nat, x: nat): Color
    requires g.Ok() && |grid| == g.Rows() * g.Cols() && Drawable(grid)
  {
    var row, col := Quot(y, g.Unit()), Quot(x, g.Unit());
    if row < g.Rows() && col < g.Cols() then
      CellIndex(row, col, g.Rows(), g.Cols());
      InkAt(g, font, back, grid[row * g.Cols() + col], y, x)
    else back
  }

  lemma CellIndex(row: nat, col: nat, rows: nat, cols: nat)
    requires row < rows && col < cols
    ensures row * cols + col < rows * cols
  {
    Mul(row + 1, rows, cols);
    assert (row + 1) * cols == row * cols + cols;
  }

  /** Every visible pixel of the buffer is the picture's. */
  ghost predicate Rendered(g: Geometry, font: Font, back: Color, grid: seq<Cell>, buf: seq<Color>) {
    && g.Ok() && |grid| == g.Rows() * g.Cols() && Drawable(grid) && |buf| == g.ppsl * g.vres
    && forall w | 0 <= w < |buf| && Rem(w, g.ppsl) < g.hres ::
         buf[w] == Pixel(g, font, back, grid, Quot(w, g.ppsl), Rem(w, g.ppsl))
  }

  lemma IndexIs(ppsl: nat, y: nat, x: nat, w: nat)
    requires x < ppsl
    ensures w == ppsl * y + x <==> Quot(w, ppsl) == y && Rem(w, ppsl) == x
  {
    hide Quot, Rem;
    DivMod(w, ppsl);
    if w == ppsl * y + x {
      DivModIs(w, y, x, ppsl);
    }
  }

  lemma IndexBelow(ppsl: nat, y: nat, x: nat, lines: nat)
    requires x < ppsl && y < lines
    ensures ppsl * y + x < ppsl * lines
  {
    Mul(y + 1, lines, ppsl);
    assert (y + 1) * ppsl == ppsl * y + ppsl;
  }

  lemma RowBelow(ppsl: nat, w: nat, lines: nat)
    requires 0 < ppsl && w < ppsl * lines
    ensures Quot(w, ppsl) < lines
  {
    hide Quot, Rem;
    DivMod(w, ppsl);
    if Quot(w, ppsl) >= lines {
      Mul(lines, Quot(w, ppsl), ppsl);
    }
  }

  // ---------------------------------------------------------------- drawing

  /** Fills the square of `side` pixels at (y0, x0), and nothing else; no byte
      offset reaches 2^32 and no store leaves the buffer. */
  method FillSquare(fb: array<Color>, ppsl: nat, lines: nat, y0: nat, x0: nat, side: nat, color: Color)
    requires fb.Length == ppsl * lines && 4 * (ppsl * lines) < U32
    requires 0 < ppsl && y0 + side <= lines && x0 + side <= ppsl
    modifies fb
    ensures forall w | 0 <= w < fb.Length ::
      fb[w] == if y0 <= Quot(w, ppsl) < y0 + side && x0 <= Rem(w, ppsl) < x0 + side then color else old(fb[w])
  {
    hide Quot, Rem;
    for j := 0 to side
      invariant forall w | 0 <= w < fb.Length ::
        fb[w] == if y0 <= Quot(w, ppsl) < y0 + j && x0 <= Rem(w, ppsl) < x0 + side then color else old(fb[w])
    {
      for k := 0 to side
        invariant forall w | 0 <= w < fb.Length ::
          fb[w] == if (y0 <= Quot(w, ppsl) < y0 + j && x0 <= Rem(w, ppsl) < x0 + side)
                      || (Quot(w, ppsl) == y0 + j && x0 <= Rem(w, ppsl) < x0 + k) then color else old(fb[w])
      {
        IndexBelow(ppsl, y0 + j, x0 + k, lines);
        var offset := 4 * (ppsl * (y0 + j) + (x0 + k));
        assert offset < U32;
        forall w | 0 <= w < fb.Length
          ensures w == offset / 4 <==> Quot(w, ppsl) == y0 + j && Rem(w, ppsl) == x0 + k
        {
          IndexIs(ppsl, y0 + j, x0 + k, w);
        }
        fb[offset / 4] := color;
      }
    }
  }

  /** Which of the 64 dots of its cell a pixel belongs to, in drawing order. */
  function Dot(dy: nat, dx: nat, scale: nat): nat
    requires 0 < scale
  {
    Quot(dx, scale) * 8 + Quot(dy, scale)
  }

  predicate InCell(g: Geometry, row: nat, col: nat, y: nat, x: nat)
    requires g.Ok()
  {
    Quot(y, g.Unit()) == row && Quot(x, g.Unit()) == col
  }

  lemma Distribute(q: nat, e: nat, s: nat)
    ensures q * (8 * s) + e * s == (8 * q + e) * s
  {}

  lemma AxisIndex(s: nat, n: nat, m: nat, f: nat)
    requires f < s
    ensures n * s <= m * s + f < n * s + s <==> m == n
  {
    if n < m {
      Mul(n + 1, m, s);
      assert (n + 1) * s == n * s + s;
    } else if m < n {
      Mul(m + 1, n, s);
      assert (m + 1) * s == m * s + s;
    }
  }

  lemma AxisCore(s: nat, c: nat, d: nat, q: nat, e: nat, f: nat, y: nat)
    requires d < 8 && e < 8 && f < s && y == q * (8 * s) + (e * s + f)
    ensures c * (8 * s) + d * s <= y < c * (8 * s) + d * s + s <==> q == c && e == d
  {
    Distribute(q, e, s);
    Distribute(c, d, s);
    AxisIndex(s, 8 * c + d, 8 * q + e, f);
  }

  /** Along one axis: pixel `y` lies in dot `d` of cell `c`. */
  lemma AxisDot(s: nat, c: nat, d: nat, y: nat)
    requires 0 < s && d < 8
    ensures Rem(y, 8 * s) < 8 * s && Quot(Rem(y, 8 * s), s) < 8
    ensures c * (8 * s) + d * s <= y < c * (8 * s) + d * s + s
       <==> Quot(y, 8 * s) == c && Quot(Rem(y, 8 * s), s) == d
  {
    hide Quot, Rem;
    DivMod(y, 8 * s);
    DivMod(Rem(y, 8 * s), s);
    DotRow(Rem(y, 8 * s), s);
    AxisCore(s, c, d, Quot(y, 8 * s), Quot(Rem(y, 8 * s), s), Rem(Rem(y, 8 * s), s), y);
  }

  /** The square drawn for dot `i` is exactly the pixels of dot `i`: the 64
      squares of a cell cover it, each pixel once. */
  lemma SquareOfDot(g: Geometry, row: nat, col: nat, i: nat, y: nat, x: nat)
    requires g.Ok() && i < 64
    ensures DotRows(g, row, i, y) && DotCols(g, col, i, x)
       <==> InCell(g, row, col, y, x) && DotAt(g, y, x) == i
    ensures DotAt(g, y, x) < 64
  {
    hide Quot, Rem;
    AxisDot(g.scale, row, i % 8, y);
    AxisDot(g.scale, col, i / 8, x);
  }

  predicate DotRows(g: Geometry, row: nat, i: nat, y: nat) {
    row * g.Unit() + i % 8 * g.scale <= y < row * g.Unit() + i % 8 * g.scale + g.scale
  }

  predicate DotCols(g: Geometry, col: nat, i: nat, x: nat) {
    col * g.Unit() + i / 8 * g.scale <= x < col * g.Unit() + i / 8 * g.scale + g.scale
  }

  /** The cells fit the picture. */
  lemma CellFits(g: Geometry, row: nat, col: nat)
    requires g.Ok() && row < g.Rows() && col < g.Cols()
    ensures (row + 1) * g.Unit() <= g.vres && (col + 1) * g.Unit() <= g.hres
  {
    hide Quot, Rem;
    DivMod(g.vres, g.Unit());
    DivMod(g.hres, g.Unit());
    Mul(row + 1, g.Rows(), g.Unit());
    Mul(col + 1, g.Cols(), g.Unit());
  }
}
