/** The text console above the pixels: a grid of cells with a cursor, and the
    unbounded wrapped text of which the grid shows the end. */
module TextGrid {
  import opened Arithmetic

  type Color = c: nat | c < 0x1_0000_0000

  datatype Cell = Blank | Glyph(chr: nat, fore: Color, back: Color)

  datatype Op = Put(cell: Cell) | NewLine

  // -------------------------------------------------------------- the screen

  datatype Screen = Screen(grid: seq<Cell>, index: nat)

  ghost predicate Fits(s: Screen, rows: nat, cols: nat) {
    |s.grid| == rows * cols && s.index < rows * cols
  }

  function Blanks(n: nat): seq<Cell> { seq(n, _ => Blank) }

  /** One row up; the last row becomes blank. */
  function Scrolled(grid: seq<Cell>, cols: nat): seq<Cell>
    requires cols <= |grid|
  {
    grid[cols..] + Blanks(cols)
  }

  function PutCell(s: Screen, c: Cell, rows: nat, cols: nat): Screen
    requires 0 < rows && 0 < cols && Fits(s, rows, cols)
  {
    RowsRoom(rows, cols);
    var grid := s.grid[s.index := c];
    if s.index == rows * cols - 1 then Screen(Scrolled(grid, cols), (rows - 1) * cols)
    else Screen(grid, s.index + 1)
  }

  function StartLine(s: Screen, rows: nat, cols: nat): Screen
    requires 0 < rows && 0 < cols && Fits(s, rows, cols)
  {
    RowsRoom(rows, cols);
    if Quot(s.index, cols) >= rows - 1 then Screen(Scrolled(s.grid, cols), cols * (rows - 1))
    else Screen(s.grid, (Quot(s.index, cols) + 1) * cols)
  }

  function Apply(s: Screen, op: Op, rows: nat, cols: nat): (r: Screen)
    requires 0 < rows && 0 < cols && Fits(s, rows, cols)
    ensures Fits(r, rows, cols)
  {
    RowsRoom(rows, cols);
    RowOf(s.index, rows, cols);
    match op
    case Put(c) => PutCell(s, c, rows, cols)
    case NewLine => StartLine(s, rows, cols)
  }

  /** The screen after printing `ops` on an empty one. */
  function Shown(ops: seq<Op>, rows: nat, cols: nat): (r: Screen)
    requires 0 < rows && 0 < cols
    ensures Fits(r, rows, cols)
  {
    RowsRoom(rows, cols);
    if ops == [] then Screen(Blanks(rows * cols), 0)
    else Apply(Shown(ops[..|ops| - 1], rows, cols), ops[|ops| - 1], rows, cols)
  }

  lemma RowsRoom(rows: nat, cols: nat)
    requires 0 < rows && 0 < cols
    ensures cols <= rows * cols && 0 <= (rows - 1) * cols == rows * cols - cols < rows * cols
  {
    assert rows * cols == (rows - 1) * cols + cols;
  }

  /** The row of a cursor position, and where the next row starts. */
  lemma RowOf(index: nat, rows: nat, cols: nat)
    requires 0 < cols && index < rows * cols
    ensures 0 <= Quot(index, cols) < rows
    ensures Quot(index, cols) + 1 < rows ==> (Quot(index, cols) + 1) * cols < rows * cols
  {
    hide Quot, Rem;
    var q, r := Quot(index, cols), Rem(index, cols);
    DivMod(index, cols);
    if q >= rows {
      Mul(rows, q, cols);
      assert false;
    }
    if q + 1 < rows {
      Mul(q + 2, rows, cols);
      assert (q + 2) * cols == (q + 1) * cols + cols;
    }
  }

  // ---------------------------------------------------------------- the tape

  /** Everything printed so far, on lines of `cols` cells without end. */
  datatype Tape = Tape(cells: map<nat, Cell>, pos: nat)

  function Write(t: Tape, op: Op, cols: nat): Tape
    requires 0 < cols
  {
    match op
    case Put(c) => Tape(t.cells[t.pos := c], t.pos + 1)
    case NewLine => Tape(t.cells, (Quot(t.pos, cols) + 1) * cols)
  }

  function Printed(ops: seq<Op>, cols: nat): Tape
    requires 0 < cols
  {
    if ops == [] then Tape(map[], 0)
    else Write(Printed(ops[..|ops| - 1], cols), ops[|ops| - 1], cols)
  }

  function CellAt(t: Tape, p: nat): Cell {
    if p in t.cells then t.cells[p] else Blank
  }

  /** The first line shown: the cursor's line is the last one at most. */
  function Top(pos: nat, rows: nat, cols: nat): nat
    requires 0 < cols
  {
    if Quot(pos, cols) + 1 <= rows then 0 else Quot(pos, cols) + 1 - rows
  }

  /** The `n` cells from `start`. */
  function View(t: Tape, start: nat, n: nat): (v: seq<Cell>)
    ensures |v| == n && forall j | 0 <= j < n :: v[j] == CellAt(t, start + j)
  {
    seq(n, j requires 0 <= j => CellAt(t, start + j))
  }

  /** The last `rows` lines of the tape, and the cursor in them. */
  function Window(t: Tape, rows: nat, cols: nat): Screen
    requires 0 < rows && 0 < cols
  {
    TopBelow(t.pos, rows, cols);
    var start := Top(t.pos, rows, cols) * cols;
    Screen(View(t, start, rows * cols), t.pos - start)
  }

  lemma TopBelow(pos: nat, rows: nat, cols: nat)
    requires 0 < rows && 0 < cols
    ensures Top(pos, rows, cols) * cols <= pos
  {
    hide Quot, Rem;
    DivMod(pos, cols);
    Mul(Top(pos, rows, cols), Quot(pos, cols), cols);
  }

  /** Nothing is written at or after the cursor. */
  ghost predicate Fresh(t: Tape) {
    forall p: nat | p in t.cells :: p < t.pos
  }

  lemma {:induction false} PrintedFresh(ops: seq<Op>, cols: nat)
    requires 0 < cols
    ensures Fresh(Printed(ops, cols))
  {
    if ops != [] {
      PrintedFresh(ops[..|ops| - 1], cols);
      var t := Printed(ops[..|ops| - 1], cols);
      NextLineLater(t.pos, cols);
    }
  }

  lemma NextLineLater(pos: nat, cols: nat)
    requires 0 < cols
    ensures pos < (Quot(pos, cols) + 1) * cols
  {
    hide Quot, Rem;
    DivMod(pos, cols);
    assert (Quot(pos, cols) + 1) * cols == Quot(pos, cols) * cols + cols;
  }

  /** The screen is at every moment the window on the tape: the last `rows` lines
      of everything printed, with the cursor at its place in them. */
  lemma {:induction false} ScreenIsWindow(ops: seq<Op>, rows: nat, cols: nat)
    requires 0 < rows && 0 < cols
    ensures Shown(ops, rows, cols) == Window(Printed(ops, cols), rows, cols)
  {
    if ops == [] {
      assert Top(0, rows, cols) * cols == 0 by {
        DivModIs(0, 0, 0, cols);
      }
      var n := rows * cols;
      assert View(Tape(map[], 0), 0, n) == Blanks(n);
    } else {
      var before := ops[..|ops| - 1];
      var t := Printed(before, cols);
      ScreenIsWindow(before, rows, cols);
      PrintedFresh(before, cols);
      WindowStep(t, ops[|ops| - 1], rows, cols);
    }
  }

  /** Every cell from the cursor on is blank. */
  lemma CursorBlank(ops: seq<Op>, rows: nat, cols: nat)
    requires 0 < rows && 0 < cols
    ensures var s := Shown(ops, rows, cols);
            forall j | s.index <= j < |s.grid| :: s.grid[j] == Blank
  {
    ScreenIsWindow(ops, rows, cols);
    PrintedFresh(ops, cols);
    TopBelow(Printed(ops, cols).pos, rows, cols);
  }

  lemma WindowStep(t: Tape, op: Op, rows: nat, cols: nat)
    requires 0 < rows && 0 < cols && Fresh(t) && Fits(Window(t, rows, cols), rows, cols)
    ensures Apply(Window(t, rows, cols), op, rows, cols) == Window(Write(t, op, cols), rows, cols)
  {
    RowsRoom(rows, cols);
    TopBelow(t.pos, rows, cols);
    RowOf(t.pos - Top(t.pos, rows, cols) * cols, rows, cols);
    var w := Window(t, rows, cols);
    match op
    case Put(c) =>
      PutTop(t.pos, rows, cols);
      PutWindow(t, c, rows, cols);
    case NewLine =>
      LineTop(t.pos, rows, cols);
      LineWindow(t, rows, cols);
  }

  lemma ViewPut(t: Tape, c: Cell, start: nat, n: nat)
    requires start <= t.pos < start + n
    ensures View(Tape(t.cells[t.pos := c], t.pos + 1), start, n) == View(t, start, n)[t.pos - start := c]
  {}

  /** Scrolling the view brings in blanks when nothing is written below it. */
  lemma ViewScroll(t: Tape, start: nat, n: nat, k: nat)
    requires k <= n && forall p: nat | p in t.cells :: p < start + n
    ensures View(t, start + k, n) == View(t, start, n)[k..] + Blanks(k)
  {
    var v := View(t, start, n);
    forall j | 0 <= j < n
      ensures View(t, start + k, n)[j] == (v[k..] + Blanks(k))[j]
    {
      if j < n - k {
        assert v[k..][j] == v[k + j];
      }
    }
  }

  lemma PutWindow(t: Tape, c: Cell, rows: nat, cols: nat)
    requires 0 < rows && 0 < cols && Fresh(t) && Fits(Window(t, rows, cols), rows, cols)
    ensures PutCell(Window(t, rows, cols), c, rows, cols) == Window(Write(t, Put(c), cols), rows, cols)
  {
    hide Quot, Rem, Top, View, CellAt;
    var t' := Write(t, Put(c), cols);
    var start, n := Top(t.pos, rows, cols) * cols, rows * cols;
    RowsRoom(rows, cols);
    TopBelow(t.pos, rows, cols);
    TopBelow(t'.pos, rows, cols);
    PutTop(t.pos, rows, cols);
    ViewPut(t, c, start, n);
    if t.pos - start == n - 1 {
      Products(Top(t.pos, rows, cols), 0, cols);
      ViewScroll(t', start, n, cols);
    }
  }

  lemma LineWindow(t: Tape, rows: nat, cols: nat)
    requires 0 < rows && 0 < cols && Fresh(t) && Fits(Window(t, rows, cols), rows, cols)
    ensures StartLine(Window(t, rows, cols), rows, cols) == Window(Write(t, NewLine, cols), rows, cols)
  {
    hide Quot, Rem, Top, View, CellAt;
    var t' := Write(t, NewLine, cols);
    var start, n := Top(t.pos, rows, cols) * cols, rows * cols;
    RowsRoom(rows, cols);
    TopBelow(t.pos, rows, cols);
    TopBelow(t'.pos, rows, cols);
    LineTop(t.pos, rows, cols);
    SameView(t, t', start, n);
    if Quot(t.pos - start, cols) >= rows - 1 {
      Products(Top(t.pos, rows, cols), 0, cols);
      ViewScroll(t', start, n, cols);
    }
  }

  lemma SameView(t: Tape, t': Tape, start: nat, n: nat)
    requires t.cells == t'.cells
    ensures View(t', start, n) == View(t, start, n)
  {}

  function TopLine(q: nat, rows: nat): nat { if q + 1 <= rows then 0 else q + 1 - rows }

  lemma TopIs(q: nat, r: nat, rows: nat, cols: nat)
    requires r < cols
    ensures Top(q * cols + r, rows, cols) == TopLine(q, rows)
  {
    DivModIs(q * cols + r, q, r, cols);
  }

  /** How a put moves the window. */
  lemma PutTop(pos: nat, rows: nat, cols: nat)
    requires 0 < rows && 0 < cols
    ensures var top, top' := Top(pos, rows, cols), Top(pos + 1, rows, cols);
            if pos - top * cols == rows * cols - 1
            then top' == top + 1 && pos + 1 - top' * cols == (rows - 1) * cols
            else top' == top
  {
    hide Quot, Rem, Top;
    var q, r := Quot(pos, cols), Rem(pos, cols);
    var top := TopLine(q, rows);
    DivMod(pos, cols);
    TopIs(q, r, rows, cols);
    assert pos - top * cols == (q - top) * cols + r;
    if r < cols - 1 {
      TopIs(q, r + 1, rows, cols);
      if q - top < rows - 1 {
        Mul(q - top + 1, rows - 1, cols);
      }
      assert rows * cols == (rows - 1) * cols + cols;
    } else {
      TopIs(q + 1, 0, rows, cols);
      assert (q + 1) * cols == pos + 1;
      assert rows * cols == (rows - 1) * cols + cols;
      if q - top == rows - 1 {
        assert (top + 1) * cols == top * cols + cols;
      } else {
        Mul(q - top + 1, rows - 1, cols);
        assert (q - top + 1) * cols == (q - top) * cols + cols;
      }
    }
  }

  lemma Products(top: nat, k: nat, cols: nat)
    ensures (top + k) * cols == top * cols + k * cols
    ensures (top + k + 1) * cols == top * cols + k * cols + cols
    ensures (top + 1) * cols == top * cols + cols && (k + 1) * cols == k * cols + cols
  {}

  /** How a new line moves the window. */
  lemma LineTop(pos: nat, rows: nat, cols: nat)
    requires 0 < rows && 0 < cols
    ensures var top := Top(pos, rows, cols);
            var next := (Quot(pos, cols) + 1) * cols;
            var index := pos - top * cols;
            var top' := Top(next, rows, cols);
            && 0 <= index
            && if Quot(index, cols) >= rows - 1
               then top' == top + 1 && next - top' * cols == cols * (rows - 1)
               else top' == top && next - top * cols == (Quot(index, cols) + 1) * cols
  {
    hide Quot, Rem, Top;
    var q, r := Quot(pos, cols), Rem(pos, cols);
    DivMod(pos, cols);
    TopIs(q, r, rows, cols);
    TopIs(q + 1, 0, rows, cols);
    var top := TopLine(q, rows);
    var k := q - top;
    Products(top, k, cols);
    DivModIs(k * cols + r, k, r, cols);
    LineTopAt(pos, q, r, top, k, rows, cols);
  }

  lemma LineTopAt(pos: nat, q: nat, r: nat, top: nat, k: nat, rows: nat, cols: nat)
    requires 0 < rows && r < cols && pos == q * cols + r && q == top + k && top == TopLine(q, rows)
    ensures pos - top * cols == k * cols + r
    ensures k >= rows - 1 ==> k == rows - 1 && TopLine(q + 1, rows) == top + 1
    ensures k >= rows - 1 ==> (q + 1) * cols - (top + 1) * cols == cols * (rows - 1)
    ensures k < rows - 1 ==> TopLine(q + 1, rows) == top && (q + 1) * cols - top * cols == (k + 1) * cols
  {
    Products(top, k, cols);
  }

  // ---------------------------------------------------------- one more step

  lemma ShownNext(ops: seq<Op>, op: Op, rows: nat, cols: nat)
    requires 0 < rows && 0 < cols
    ensures Shown(ops + [op], rows, cols) == Apply(Shown(ops, rows, cols), op, rows, cols)
  {
    assert (ops + [op])[..|ops + [op]| - 1] == ops;
  }

  /** A line leaves the screen exactly when the screen scrolls. */
  lemma LinesGoneNext(ops: seq<Op>, op: Op, rows: nat, cols: nat)
    requires 0 < rows && 0 < cols
    ensures var index := Shown(ops, rows, cols).index;
            var scrolls := if op.Put? then index == rows * cols - 1 else Quot(index, cols) >= rows - 1;
            Top(Printed(ops + [op], cols).pos, rows, cols)
              == Top(Printed(ops, cols).pos, rows, cols) + if scrolls then 1 else 0
  {
    hide Quot, Rem, Top;
    assert (ops + [op])[..|ops + [op]| - 1] == ops;
    ScreenIsWindow(ops, rows, cols);
    PutTop(Printed(ops, cols).pos, rows, cols);
    LineTop(Printed(ops, cols).pos, rows, cols);
  }

  /** A screen filled but for its last cells. */
  lemma {:induction false} FilledScreen(n: nat, c: Cell, rows: nat, cols: nat)
    requires 0 < rows && 0 < cols && n < rows * cols
    ensures var s := Shown(seq(n, _ => Put(c)), rows, cols);
            s.index == n && |s.grid| == rows * cols && forall i | 0 <= i < n :: s.grid[i] == c
  {
    hide Quot, Rem;
    if n > 0 {
      var before := seq(n - 1, _ => Put(c));
      assert seq(n, _ => Put(c)) == before + [Put(c)];
      FilledScreen(n - 1, c, rows, cols);
      ShownNext(before, Put(c), rows, cols);
    }
  }
}
