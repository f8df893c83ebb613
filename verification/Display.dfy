/** The console: a frame buffer, a cursor, and PrintString on top of them. */
module Display {
  import opened Words
  import opened Arithmetic
  import opened TextGrid
  import opened Framebuffer
  import opened Drawing
  import opened Numerals
  import opened Format

  /** The scale InitializeDisplay picks. */
  function ScaleFor(pixels: nat): nat {
    if pixels >= 1920 * 1080 then 4 else if pixels >= 960 * 540 then 2 else 1
  }

  class Console {
    const g: Geometry
    const font: Font
    const backgroundColor: Color
    const fb: array<Color>
    var index: nat
    ghost var printed: seq<Op>

    /** What the screen should show. */
    ghost function Screen(): Screen
      requires g.Ok()
      reads this
    {
      SomeCells(g);
      Shown(printed, g.Rows(), g.Cols())
    }

    /** How many lines have left the screen at the top. */
    ghost function LinesGone(): nat
      requires g.Ok()
      reads this
    {
      SomeCells(g);
      Top(Printed(printed, g.Cols()).pos, g.Rows(), g.Cols())
    }

    /** The cursor is the screen's, and the buffer is the rendering of the screen: if
        ScrollUp does not reach all of it, until the first line has left. */
    ghost predicate Valid()
      reads this, fb
    {
      && g.Ok() && fb.Length == g.ppsl * g.vres
      && index == Screen().index
      && (g.ScrollsRight() || LinesGone() == 0 ==> Rendered(g, font, backgroundColor, Screen().grid, fb[..]))
    }

    constructor InitializeDisplay(hres: nat, vres: nat, ppsl: nat, fb: array<Color>, font: Font)
      requires Geometry(hres, vres, ppsl, ScaleFor(hres * vres)).Ok()
      requires fb.Length == ppsl * vres
      modifies fb
      ensures Valid() && printed == [] && this.fb == fb && this.font == font && backgroundColor == 0
      ensures g == Geometry(hres, vres, ppsl, ScaleFor(hres * vres))
      ensures hres * vres < 518_400 ==> g.scale == 1          // fewer pixels than 960 x 540
      ensures 518_400 <= hres * vres < 2_073_600 ==> g.scale == 2
      ensures 2_073_600 <= hres * vres ==> g.scale == 4       // 1920 x 1080 and more
    {
      var pixels := (ppsl - (ppsl - hres)) * vres;
      var scale := 1;
      if pixels >= 1920 * 1080 {
        scale := 4;
      } else if pixels >= 960 * 540 {
        scale := 2;
      }
      g := Geometry(hres, vres, ppsl, scale);
      this.font, this.fb, backgroundColor := font, fb, 0;
      index, printed := 0, [];
      new;
      ColorScreen(backgroundColor);
      BlankRendered(g, font, backgroundColor, fb[..]);
    }

    /** Colours every visible pixel, and nothing in the back porch. */
    method ColorScreen(color: Color)
      requires g.Ok() && fb.Length == g.ppsl * g.vres
      modifies fb
      ensures forall w | 0 <= w < fb.Length :: fb[w] == if Rem(w, g.ppsl) < g.hres then color else old(fb[w])
    {
      hide Quot, Rem;
      for row := 0 to g.vres
        invariant forall w | 0 <= w < fb.Length ::
          fb[w] == if Quot(w, g.ppsl) < row && Rem(w, g.ppsl) < g.hres then color else old(fb[w])
      {
        for col := 0 to g.hres
          invariant forall w | 0 <= w < fb.Length ::
            fb[w] == if Rem(w, g.ppsl) < g.hres
                        && (Quot(w, g.ppsl) < row || (Quot(w, g.ppsl) == row && Rem(w, g.ppsl) < col))
                     then color else old(fb[w])
        {
          IndexBelow(g.ppsl, row, col, g.vres);
          var offset := 4 * (g.ppsl * row + col);
          assert offset < U32;
          forall w | 0 <= w < fb.Length
            ensures w == offset / 4 <==> Quot(w, g.ppsl) == row && Rem(w, g.ppsl) == col
          {
            IndexIs(g.ppsl, row, col, w);
          }
          fb[offset / 4] := color;
        }
      }
      forall w | 0 <= w < fb.Length
        ensures Quot(w, g.ppsl) < g.vres
      {
        RowBelow(g.ppsl, w, g.vres);
      }
    }

    /** The 64 dots of the glyph, at the cursor's cell. */
    method DrawGlyph(chr: nat, fore: Color, back: Color)
      requires g.Ok() && fb.Length == g.ppsl * g.vres && chr < 128
      requires 0 < g.Cols() && index < g.Rows() * g.Cols()
      modifies fb
      ensures CellDrawn(g, font, backgroundColor, Quot(index, g.Cols()), Rem(index, g.Cols()),
                        Glyph(chr, fore, back), old(fb[..]), fb[..])
    {
      hide Quot, Rem, Bit, Pow2, InCell, DotAt, InkAt;
      var unit, scale := 8 * g.scale, g.scale;
      var row, col := Quot(index, g.Cols()), Rem(index, g.Cols());
      ghost var cell := Glyph(chr, fore, back);
      ghost var before := fb[..];
      IndexRow(index, g.Rows(), g.Cols());
      DivMod(index, g.Cols());
      CellFits(g, row, col);
      for i := 0 to 64
        invariant DotsDrawn(g, font, backgroundColor, row, col, cell, i, before, fb[..])
      {
        DotFits(g, row, col, i);
        var y0, x0 := row * unit + i % 8 * scale, col * unit + i / 8 * scale;
        var color := if Bit(font[chr][i % 8], i / 8) then fore else back;
        ghost var here := fb[..];
        FillSquare(fb, g.ppsl, g.vres, y0, x0, scale, color);
        OneMoreDot(g, font, backgroundColor, row, col, cell, i, before, here, fb[..]);
      }
      AllDots(g, font, backgroundColor, row, col, cell, before, fb[..]);
    }

    method ScrollUp()
      requires g.Ok() && fb.Length == g.ppsl * g.vres && g.Roomy()
      modifies fb
      ensures g.vres * g.hres <= fb.Length
      ensures fb[..] == ScrollWords(old(fb[..]), g.vres * g.hres, g.ppsl * g.Unit(), backgroundColor)
    {
      Mul(g.hres, g.ppsl, g.vres);
      var incrementation := g.ppsl * 8 * g.scale;
      assert incrementation == g.ppsl * g.Unit();
      var total := g.vres * g.hres;
      MoveWords(total, incrementation);
    }

    /** The two loops of ScrollUp. */
    method MoveWords(total: nat, incrementation: nat)
      requires incrementation <= total <= fb.Length
      modifies fb
      ensures fb[..] == ScrollWords(old(fb[..]), total, incrementation, backgroundColor)
    {
      var endAddress := total - incrementation;
      CopyDown(endAddress, incrementation);
      ClearWords(endAddress, total);
    }

    method CopyDown(endAddress: nat, incrementation: nat)
      requires endAddress + incrementation <= fb.Length
      modifies fb
      ensures forall w | 0 <= w < endAddress :: fb[w] == old(fb[w + incrementation])
      ensures forall w | endAddress <= w < fb.Length :: fb[w] == old(fb[w])
    {
      var addr := 0;
      while addr != endAddress
        invariant 0 <= addr <= endAddress
        invariant forall w | 0 <= w < addr :: fb[w] == old(fb[w + incrementation])
        invariant forall w | addr <= w < fb.Length :: fb[w] == old(fb[w])
        decreases endAddress - addr
      {
        fb[addr] := fb[addr + incrementation];
        addr := addr + 1;
      }
    }

    method ClearWords(start: nat, total: nat)
      requires start <= total <= fb.Length
      modifies fb
      ensures forall w | 0 <= w < fb.Length :: fb[w] == if start <= w < total then backgroundColor else old(fb[w])
    {
      var addr := start;
      while addr != total
        invariant start <= addr <= total
        invariant forall w | 0 <= w < fb.Length :: fb[w] == if start <= w < addr then backgroundColor else old(fb[w])
        decreases total - addr
      {
        fb[addr] := backgroundColor;
        addr := addr + 1;
      }
    }

    method PrintCharacter(chr: nat, fore: Color, back: Color)
      requires Valid() && chr < 128 && (g.Roomy() || index + 1 < g.Rows() * g.Cols())
      modifies this, fb
      ensures Valid() && printed == old(printed) + [Put(Glyph(chr, fore, back))]
      ensures 0 < g.Cols()
      ensures var drawn := DrawnCell(g, font, backgroundColor, Quot(old(index), g.Cols()), Rem(old(index), g.Cols()),
                                     Glyph(chr, fore, back), old(fb[..]));
              if old(index) == g.Rows() * g.Cols() - 1
              then g.Roomy() && |drawn| == g.ppsl * g.vres && fb[..] == ScrolledBuffer(g, backgroundColor, drawn)
              else fb[..] == drawn
    {
      hide Quot, Rem, Rendered, ScrollWords, CellDrawn, DrawnCell, InkAt, Pixel, Top, Printed, Scrolled, Shown;
      hide Geometry.ScrollsRight;
      SomeCells(g);
      var rowSize, colSize := Quot(g.vres, 8 * g.scale), Quot(g.hres, 8 * g.scale);
      RowsRoom(rowSize, colSize);
      ghost var grid := Screen().grid;
      ghost var cell := Glyph(chr, fore, back);
      ghost var before := fb[..];
      DrawGlyph(chr, fore, back);
      DrawnCellIs(g, font, backgroundColor, Quot(index, g.Cols()), Rem(index, g.Cols()), cell, before, fb[..]);
      ghost var drawn := g.ScrollsRight() || LinesGone() == 0;
      if drawn {
        CellRendered(g, font, backgroundColor, grid, index, cell, before, fb[..]);
      }
      ShownNext(printed, Put(cell), rowSize, colSize);
      LinesGoneNext(printed, Put(cell), rowSize, colSize);
      printed := printed + [Put(cell)];
      if index == rowSize * colSize - 1 {
        if g.ScrollsRight() {
          ScrollRendered(g, font, backgroundColor, grid[index := cell], fb[..]);
        }
        ScrollUp();
        index := (rowSize - 1) * colSize;
      } else {
        index := index + 1;
      }
    }

    /** The newline branch of PrintString. */
    method StartNewLine()
      requires Valid() && (g.Roomy() || (0 < g.Cols() && Quot(index, g.Cols()) + 1 < g.Rows()))
      modifies this, fb
      ensures Valid() && printed == old(printed) + [NewLine]
      ensures 0 < g.Cols()
      ensures if Quot(old(index), g.Cols()) + 1 >= g.Rows()
              then g.Roomy() && fb.Length == g.ppsl * g.vres && fb[..] == ScrolledBuffer(g, backgroundColor, old(fb[..]))
              else fb[..] == old(fb[..])
    {
      hide Quot, Rem, Rendered, ScrollWords, InkAt, Pixel, Top, Printed, Scrolled, Shown;
      hide Geometry.ScrollsRight;
      SomeCells(g);
      var rowSize, colSize := Quot(g.vres, 8 * g.scale), Quot(g.hres, 8 * g.scale);
      RowsRoom(rowSize, colSize);
      ghost var grid := Screen().grid;
      ShownNext(printed, NewLine, rowSize, colSize);
      LinesGoneNext(printed, NewLine, rowSize, colSize);
      printed := printed + [NewLine];
      if Quot(index, colSize) >= rowSize - 1 {
        if g.ScrollsRight() {
          ScrollRendered(g, font, backgroundColor, grid, fb[..]);
        }
        ScrollUp();
        index := colSize * (rowSize - 1);
      } else {
        index := (Quot(index, colSize) + 1) * colSize;
      }
    }

    /** The counting loop. */
    method CountPlaces(value: nat, base: nat) returns (places: nat)
      requires 2 <= base
      ensures places == Places(value, base)
    {
      places := 0;
      var copy := value;
      while copy > 0
        invariant places + Places(copy, base) == Places(value, base)
      {
        QuotLess(copy, base);
        copy := Quot(copy, base);
        places := places + 1;
      }
    }

    /** The divisor loop, in 64 bits. */
    method DivisorFor(base: nat, places: nat) returns (divisor: nat)
      requires 2 <= base && 0 < places && Pow(base, places - 1) < U64
      ensures divisor == Pow(base, places - 1)
    {
      divisor := 1;
      for i := 1 to places
        invariant divisor == Pow(base, i - 1)
      {
        PowGrows(base, i, places - 1);
        divisor := divisor * base;
        assert divisor < U64;
      }
    }

    /** The digit loops: count the places of `counted`, then print the digits of
        `shown` from the highest place down, recomputing the divisor each time.
        No product or counter wraps around. */
    method PrintNumber(counted: nat, shown: nat, base: nat, letters: nat, fore: Color, back: Color)
      requires Valid() && g.Roomy() && counted < U64 && shown < U64 && base in {8, 10, 16} && letters <= 87
      modifies this, fb
      ensures Valid()
      ensures printed == old(printed) + Puts(Symbols(Emitted(counted, shown, base), letters), fore, back)
    {
      hide Valid, Puts, Symbols, Numeral, Quot, Rem, Places, Pow;
      var places := CountPlaces(counted, base);
      ghost var digits := Numeral(shown, base, Places(counted, base));
      if places == 0 {
        PutsOne(0, letters, fore, back);
        PrintCharacter(48, fore, back);
      } else {
        while places > 0
          invariant Valid() && 0 <= places <= Places(counted, base)
          invariant printed + Puts(Symbols(Numeral(shown, base, places), letters), fore, back)
                 == old(printed) + Puts(Symbols(digits, letters), fore, back)
        {
          DivisorFits(counted, base, places - 1);
          assert places <= 255;
          var divisor := DivisorFor(base, places);
          PowPositive(base, places - 1);
          var p := Rem(Quot(shown, divisor), base);
          NextDigit(printed, shown, base, places, letters, fore, back);
          DigitBelow(shown, base, places - 1);
          if p > 9 {
            PrintCharacter(p + letters, fore, back);
          } else {
            PrintCharacter(p + 48, fore, back);
          }
          places := places - 1;
        }
        NoDigits(shown, base, letters, fore, back);
      }
    }

    /** The signed conversions: a minus sign and the negated value, where negating
        the most negative value of the width leaves it negative. */
    method PrintSigned(size: Size, arg: int, fore: Color, back: Color)
      requires Valid() && g.Roomy()
      modifies this, fb
      ensures Valid() && printed == old(printed) + Puts(SignedText(size, arg), fore, back)
    {
      hide Valid, Puts, Symbols, Emitted, AsSigned, SignedText;
      NegationWraps(arg, Width(size));
      SignedTextCases(size, arg);
      var value := AsSigned(arg, Width(size));
      if value < 0 {
        PutsCons(45, SignedText(size, arg)[1..], fore, back);
        PrintCharacter(45, fore, back);
        value := AsSigned(-value, Width(size));
        assert value != 0;  // so the code's test for 0 here never holds
      }
      var counted := if value > 0 then value else 0;
      PrintNumber(counted, counted, 10, 0, fore, back);
    }

    /** One conversion after `%`, `%l` or `%h`. */
    method PrintConversion(size: Size, c: char, args: seq<int>, fore: Color, back: Color) returns (taken: nat)
      requires Valid() && g.Roomy() && !(size == Plain && c in {'c', '%'})
      requires Takes(Convert(size, c)) ==> args != []
      modifies this, fb
      ensures Valid() && printed == old(printed) + Step(Convert(size, c), args, fore, back)
      ensures taken == if Takes(Convert(size, c)) then 1 else 0
    {
      hide Valid, Puts, Symbols, Emitted;
      taken := 0;
      if Signed(c) {
        PrintSigned(size, args[0], fore, back);
        taken := 1;
      } else if Unsigned(c) || (size == Short && c == 's') {
        var value := match size
                     case Plain => args[0] % 0x1_0000_0000
                     case Long => args[0] % U64
                     case Short => args[0] % 0x1_0000;
        if c == 'o' {
          PrintNumber(value, if size == Plain then SignExtend32(value) else value, 8, 55, fore, back);
        } else if c == 'x' {
          PrintNumber(value, value, 16, 87, fore, back);
        } else if c == 'X' {
          PrintNumber(value, value, 16, 55, fore, back);
        } else {
          PrintNumber(value, value, 10, 55, fore, back);
        }
        taken := 1;
      }
    }

    /** The scanning pass; its counter has eight bits. */
    method CountArguments(str: string) returns (numArgs: nat)
      requires WellFormed(str)
      ensures numArgs == Scanned(str) % 256
    {
      hide WellFormed, Scanned, Front, Dangling;
      numArgs := 0;
      var pos := 0;
      ghost var seen := 0;
      assert str[pos..] == str;
      while pos < |str|
        invariant 0 <= pos <= |str| && WellFormed(str[pos..])
        invariant seen + Scanned(str[pos..]) == Scanned(str) && numArgs == seen % 256
      {
        ghost var (d, n) := FrontOf(str[pos..]);
        ScannedRest(str[pos..]);
        FrontCases(str, pos);
        ghost var next := pos + n;
        assert str[pos..][n..] == str[next..];
        if str[pos] == '%' {
          pos := pos + 1;
          if str[pos] in {'h', 'l'} {
            pos := pos + 1;
            numArgs := (numArgs + 1) % 256;
          } else if str[pos] in {'c', 'd', 'i', 'e', 'E', 'f', 'g', 'G', 'o', 's', 'u', 'x', 'X', 'p', 'n'} {
            numArgs := (numArgs + 1) % 256;
          }
        }
        pos := pos + 1;
        seen := seen + if Counted(d) then 1 else 0;
      }
      assert str[pos..] == "";
      NothingScanned();
    }

    /** One round of PrintString's loop: the directive at `pos`. */
    method PrintDirective(str: string, pos: nat, fore: Color, back: Color, args: seq<int>)
      returns (next: nat, taken: nat)
      requires Valid() && g.Roomy() && pos < |str| && WellFormed(str[pos..])
      requires var d := FrontOf(str[pos..]).0;
               (Takes(d) ==> args != []) && Printable(Step(d, args, fore, back))
      modifies this, fb
      ensures var (d, n) := FrontOf(str[pos..]);
              && Valid() && printed == old(printed) + Step(d, args, fore, back)
              && next == pos + n && taken == if Takes(d) then 1 else 0
    {
      hide Valid, WellFormed, Front, Dangling, FrontOf, Puts, Printable;
      FrontCases(str, pos);
      StepPrintable(FrontOf(str[pos..]).0, args, fore, back);
      next, taken := pos, 0;
      if str[next] == '%' {
        next := next + 1;
        if str[next] == '%' {
          PrintCharacter('%' as int, fore, back);
        } else if str[next] == 'c' {
          PutsLast(AsUnsigned(args[0], 256), fore, back);
          PrintCharacter(AsUnsigned(args[0], 256), fore, back);
          taken := 1;
        } else if str[next] == 'l' {
          next := next + 1;
          taken := PrintConversion(Long, str[next], args, fore, back);
        } else if str[next] == 'h' {
          next := next + 1;
          taken := PrintConversion(Short, str[next], args, fore, back);
        } else {
          taken := PrintConversion(Plain, str[next], args, fore, back);
        }
      } else if str[next] == '\n' {
        StartNewLine();
      } else {
        PrintCharacter(str[next] as int, fore, back);
      }
      next := next + 1;
    }

    /** PrintString: exactly the output of the format, in order, on the screen. */
    method PrintString(str: string, fore: Color, back: Color, args: seq<int>)
      requires Valid() && g.Roomy() && WellFormed(str) && Needed(str) <= |args|
      requires Printable(Output(str, args, fore, back))
      modifies this, fb
      ensures Valid() && printed == old(printed) + Output(str, args, fore, back)
    {
      hide Valid, WellFormed, Output, Needed, Printable, Front, Dangling, Step, Takes;
      var numArgs := CountArguments(str);
      ghost var all := old(printed) + Output(str, args, fore, back);
      var pos, used := 0, 0;
      assert str[pos..] == str && args[used..] == args;
      while pos < |str|
        invariant 0 <= pos <= |str| && 0 <= used <= |args| && Valid()
        invariant WellFormed(str[pos..]) && Needed(str[pos..]) <= |args[used..]|
        invariant printed + Output(str[pos..], args[used..], fore, back) == all
        invariant Printable(Output(str[pos..], args[used..], fore, back))
      {
        ghost var (d, n) := FrontOf(str[pos..]);
        OutputStep(str[pos..], args[used..], fore, back);
        ghost var left := if Takes(d) then args[used..][1..] else args[used..];
        PrintableParts(Step(d, args[used..], fore, back), Output(str[pos..][n..], left, fore, back));
        Shift(printed, Step(d, args[used..], fore, back), Output(str[pos..][n..], left, fore, back));
        assert str[pos..][n..] == str[pos + n..];
        assert left == args[used + (if Takes(d) then 1 else 0)..];
        var taken;
        pos, taken := PrintDirective(str, pos, fore, back, args[used..]);
        used := used + taken;
      }
      assert str[pos..] == "";
      NothingLeft(args[used..], fore, back);
    }
  }

  // ------------------------------------------------------- the printing loops

  /** Every glyph printed is in the font. */
  ghost predicate Printable(ops: seq<Op>) {
    forall op | op in ops && op.Put? && op.cell.Glyph? :: op.cell.chr < 128
  }

  function FrontOf(fmt: string): (r: (Directive, nat))
    requires fmt != "" && WellFormed(fmt)
    ensures !Dangling(fmt) && r == Front(fmt)
  {
    Front(fmt)
  }

  /** The directive at `pos`, by its first characters. */
  lemma FrontCases(str: string, pos: nat)
    requires pos < |str| && WellFormed(str[pos..])
    ensures var r := FrontOf(str[pos..]);
            if str[pos] == '\n' then r == (Break, 1)
            else if str[pos] != '%' then r == (Text(str[pos]), 1)
            else pos + 1 < |str|
                 && if str[pos + 1] in {'l', 'h'}
                    then pos + 2 < |str| && r == (Convert(if str[pos + 1] == 'l' then Long else Short, str[pos + 2]), 3)
                    else r == (Convert(Plain, str[pos + 1]), 2)
  {
    var fmt := str[pos..];
    assert fmt[0] == str[pos];
    assert |fmt| > 1 ==> fmt[1] == str[pos + 1];
    assert |fmt| > 2 ==> fmt[2] == str[pos + 2];
  }

  lemma NothingScanned()
    ensures Scanned("") == 0
  {}

  lemma NothingLeft(args: seq<int>, fore: Color, back: Color)
    ensures Output("", args, fore, back) == []
  {}

  lemma ScannedRest(fmt: string)
    requires fmt != "" && WellFormed(fmt)
    ensures !Dangling(fmt) && WellFormed(fmt[Front(fmt).1..])
    ensures Scanned(fmt) == (if Counted(Front(fmt).0) then 1 else 0) + Scanned(fmt[Front(fmt).1..])
  {}

  lemma PrintableParts(step: seq<Op>, rest: seq<Op>)
    requires Printable(step + rest)
    ensures Printable(step) && Printable(rest)
  {
    assert forall op | op in rest :: op in step + rest;
    assert forall op | op in step :: op in step + rest;
  }

  lemma Shift<T>(a: seq<T>, b: seq<T>, c: seq<T>)
    ensures a + (b + c) == a + b + c
  {}

  lemma StepPrintable(d: Directive, args: seq<int>, fore: Color, back: Color)
    requires (Takes(d) ==> args != []) && Printable(Step(d, args, fore, back))
    ensures d.Text? ==> d.c as int < 128
    ensures d == Convert(Plain, 'c') ==> AsUnsigned(args[0], 256) < 128
  {
    var step := Step(d, args, fore, back);
    if d.Text? {
      assert step[0] in step;
    }
    if d == Convert(Plain, 'c') {
      PutsLast(AsUnsigned(args[0], 256), fore, back);
      assert step[0] in step;
    }
  }

  lemma PutsCons(c: nat, text: seq<nat>, fore: Color, back: Color)
    ensures Puts([c] + text, fore, back) == [Put(Glyph(c, fore, back))] + Puts(text, fore, back)
  {
    assert ([c] + text)[1..] == text;
  }

  lemma PutsLast(c: nat, fore: Color, back: Color)
    ensures Puts([c], fore, back) == [Put(Glyph(c, fore, back))]
  {}

  lemma PutsOne(d: nat, letters: nat, fore: Color, back: Color)
    ensures Puts(Symbols([d], letters), fore, back) == [Put(Glyph(Symbol(d, letters), fore, back))]
  {
    assert Symbols([d], letters) == [Symbol(d, letters)];
  }

  lemma NoDigits(shown: nat, base: nat, letters: nat, fore: Color, back: Color)
    requires 2 <= base
    ensures Puts(Symbols(Numeral(shown, base, 0), letters), fore, back) == []
  {}

  lemma DigitBelow(shown: nat, base: nat, e: nat)
    requires 2 <= base
    ensures Pow(base, e) > 0 && Rem(Quot(shown, Pow(base, e)), base) < base
  {
    PowPositive(base, e);
  }

  /** One digit moves from what is to be printed to what is printed. */
  lemma NextDigit(printed: seq<Op>, shown: nat, base: nat, places: nat, letters: nat, fore: Color, back: Color)
    requires 2 <= base && 0 < places
    ensures Pow(base, places - 1) > 0
    ensures printed + Puts(Symbols(Numeral(shown, base, places), letters), fore, back)
         == (printed + [Put(Glyph(Symbol(Rem(Quot(shown, Pow(base, places - 1)), base), letters), fore, back))])
            + Puts(Symbols(Numeral(shown, base, places - 1), letters), fore, back)
  {
    PowPositive(base, places - 1);
    var d := Digit(shown, base, places - 1);
    var rest := Numeral(shown, base, places - 1);
    assert ([d] + rest)[1..] == rest;
    PutsCons(Symbol(d, letters), Symbols(rest, letters), fore, back);
  }

  /** Negating a negative value of a width gives its magnitude, except that the
      most negative value stays what it is. */
  lemma NegationWraps(arg: int, width: nat)
    requires width in {0x1_0000, 0x1_0000_0000, U64}
    ensures var v := AsSigned(arg, width);
            && -(width as int) <= 2 * v < width
            && (v < 0 ==> AsSigned(-v, width) == if 2 * -v == width then v else -v)
  {
    var v := AsSigned(arg, width);
    if v < 0 {
      ModSmall(-v, width);
    }
  }

  lemma SignedTextCases(size: Size, arg: int)
    ensures var v := AsSigned(arg, Width(size));
            var text := SignedText(size, arg);
            && (v >= 0 ==> text == Symbols(Emitted(v, v, 10), 0))
            && (v < 0 ==> text != [] && text == [45] + text[1..])
            && (v < 0 && 2 * -v == Width(size) ==> text[1..] == Symbols(Emitted(0, 0, 10), 0))
            && (v < 0 && 2 * -v != Width(size) ==> text[1..] == Symbols(Emitted(-v, -v, 10), 0))
  {}

  lemma ModSmall(n: nat, m: nat)
    requires n < m
    ensures n % m == n
  {
    DivModIs(n, 0, n, m);
  }

  // ------------------------------------------------------------ proof pieces

  lemma BlankRendered(g: Geometry, font: Font, back: Color, buf: seq<Color>)
    requires g.Ok() && |buf| == g.ppsl * g.vres && 0 < g.Rows() && 0 < g.Cols()
    requires forall w | 0 <= w < |buf| && Rem(w, g.ppsl) < g.hres :: buf[w] == back
    ensures Rendered(g, font, back, Shown([], g.Rows(), g.Cols()).grid, buf)
  {
    hide Quot, Rem, Apply, Pixel;
    var grid := Blanks(g.Rows() * g.Cols());
    assert Shown([], g.Rows(), g.Cols()).grid == grid;
    BlankGrid(g.Rows() * g.Cols());
    forall w | 0 <= w < |buf| && Rem(w, g.ppsl) < g.hres
      ensures buf[w] == Pixel(g, font, back, grid, Quot(w, g.ppsl), Rem(w, g.ppsl))
    {
      BlankPixel(g, font, back, Quot(w, g.ppsl), Rem(w, g.ppsl));
    }
  }

  lemma BlankGrid(n: nat)
    ensures Drawable(Blanks(n))
  {
    assert forall c | c in Blanks(n) :: c == Blank;
  }

  lemma BlankPixel(g: Geometry, font: Font, back: Color, y: nat, x: nat)
    requires g.Ok() && Drawable(Blanks(g.Rows() * g.Cols()))
    ensures Pixel(g, font, back, Blanks(g.Rows() * g.Cols()), y, x) == back
  {
    hide Quot, Rem;
    var row, col := Quot(y, g.Unit()), Quot(x, g.Unit());
    if row < g.Rows() && col < g.Cols() {
      CellIndex(row, col, g.Rows(), g.Cols());
    }
  }

  /** The first `n` dots of the cell are drawn. */
  ghost predicate DotsDrawn(g: Geometry, font: Font, back: Color, row: nat, col: nat, cell: Cell, n: nat,
                            before: seq<Color>, after: seq<Color>)
    requires g.Ok() && cell.Glyph? && cell.chr < 128
  {
    |after| == |before| && forall w | 0 <= w < |before| ::
      var y, x := Quot(w, g.ppsl), Rem(w, g.ppsl);
      after[w] == if InCell(g, row, col, y, x) && DotAt(g, y, x) < n
                  then InkAt(g, font, back, cell, y, x) else before[w]
  }

  lemma DotFits(g: Geometry, row: nat, col: nat, i: nat)
    requires g.Ok() && i < 64 && (row + 1) * g.Unit() <= g.vres && (col + 1) * g.Unit() <= g.hres
    ensures row * g.Unit() + i % 8 * g.scale + g.scale <= g.vres
    ensures col * g.Unit() + i / 8 * g.scale + g.scale <= g.ppsl
  {
    Mul(i % 8 + 1, 8, g.scale);
    Mul(i / 8 + 1, 8, g.scale);
    assert (i % 8 + 1) * g.scale == i % 8 * g.scale + g.scale;
    assert (i / 8 + 1) * g.scale == i / 8 * g.scale + g.scale;
    assert (row + 1) * g.Unit() == row * g.Unit() + g.Unit();
    assert (col + 1) * g.Unit() == col * g.Unit() + g.Unit();
  }

  /** The ink of a pixel is the colour of its dot. */
  lemma InkOfDot(g: Geometry, font: Font, back: Color, cell: Cell, y: nat, x: nat, i: nat)
    requires g.Ok() && cell.Glyph? && cell.chr < 128 && i < 64 && DotAt(g, y, x) == i
    ensures InkAt(g, font, back, cell, y, x) == if Bit(font[cell.chr][i % 8], i / 8) then cell.fore else cell.back
  {
    hide Quot, Rem, Bit;
    DivMod(y, g.Unit());
    DotRow(Rem(y, g.Unit()), g.scale);
  }

  lemma OneMoreDot(g: Geometry, font: Font, back: Color, row: nat, col: nat, cell: Cell, i: nat,
                   before: seq<Color>, here: seq<Color>, after: seq<Color>)
    requires g.Ok() && cell.Glyph? && cell.chr < 128 && i < 64
    requires DotsDrawn(g, font, back, row, col, cell, i, before, here) && |after| == |here|
    requires forall w | 0 <= w < |here| ::
      after[w] == if DotRows(g, row, i, Quot(w, g.ppsl)) && DotCols(g, col, i, Rem(w, g.ppsl))
                  then (if Bit(font[cell.chr][i % 8], i / 8) then cell.fore else cell.back) else here[w]
    ensures DotsDrawn(g, font, back, row, col, cell, i + 1, before, after)
  {
    hide Quot, Rem, Bit, InkAt, InCell, DotAt, DotRows, DotCols;
    forall w | 0 <= w < |before|
      ensures var y, x := Quot(w, g.ppsl), Rem(w, g.ppsl);
              after[w] == if InCell(g, row, col, y, x) && DotAt(g, y, x) < i + 1
                          then InkAt(g, font, back, cell, y, x) else before[w]
    {
      var y, x := Quot(w, g.ppsl), Rem(w, g.ppsl);
      SquareOfDot(g, row, col, i, y, x);
      if DotAt(g, y, x) == i {
        InkOfDot(g, font, back, cell, y, x, i);
      }
    }
  }

  lemma AllDots(g: Geometry, font: Font, back: Color, row: nat, col: nat, cell: Cell,
                before: seq<Color>, after: seq<Color>)
    requires g.Ok() && cell.Glyph? && cell.chr < 128
    requires DotsDrawn(g, font, back, row, col, cell, 64, before, after)
    ensures CellDrawn(g, font, back, row, col, cell, before, after)
  {
    hide Quot, Rem, InkAt, InCell, DotAt;
    forall w | 0 <= w < |before|
      ensures DotAt(g, Quot(w, g.ppsl), Rem(w, g.ppsl)) < 64
    {
      SquareOfDot(g, row, col, 0, Quot(w, g.ppsl), Rem(w, g.ppsl));
    }
  }
}
