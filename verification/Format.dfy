/** What PrintString makes of a format and its arguments. */
module Format {
  import opened Words
  import opened TextGrid
  import opened Numerals

  // ------------------------------------------------------------- conversions

  datatype Size = Plain | Long | Short

  /** One step through the format. */
  datatype Directive = Text(c: char) | Break | Convert(size: Size, c: char)

  /** The directive at the front of a format, and the characters it takes.  A `%`
      with nothing after it, or `%l` or `%h` with nothing after that, is dangling. */
  predicate Dangling(fmt: string)
    requires fmt != ""
  {
    fmt[0] == '%' && (|fmt| == 1 || (fmt[1] in {'l', 'h'} && |fmt| == 2))
  }

  function Front(fmt: string): (r: (Directive, nat))
    requires fmt != "" && !Dangling(fmt)
    ensures 0 < r.1 <= |fmt|
  {
    if fmt[0] == '\n' then (Break, 1)
    else if fmt[0] != '%' then (Text(fmt[0]), 1)
    else if fmt[1] == 'l' then (Convert(Long, fmt[2]), 3)
    else if fmt[1] == 'h' then (Convert(Short, fmt[2]), 3)
    else (Convert(Plain, fmt[1]), 2)
  }

  predicate FloatConversion(d: Directive) {
    d.Convert? && d.size == Plain && d.c in {'e', 'E', 'f', 'g'}
  }

  /** The string's terminator, which is no part of it. */
  predicate Terminator(d: Directive) { !d.Break? && d.c == '\0' }

  /** No dangling `%`, no floating-point conversion and no terminator inside. */
  predicate WellFormed(fmt: string) {
    fmt == "" || (!Dangling(fmt) && !FloatConversion(Front(fmt).0) && !Terminator(Front(fmt).0)
                  && WellFormed(fmt[Front(fmt).1..]))
  }

  predicate Unsigned(c: char) { c in {'o', 'u', 'x', 'X'} }

  predicate Signed(c: char) { c in {'d', 'i'} }

  /** Whether the directive takes an argument when it is printed. */
  predicate Takes(d: Directive) {
    d.Convert? && match d.size
                  case Plain => d.c == 'c' || Signed(d.c) || Unsigned(d.c)
                  case Long => Signed(d.c) || Unsigned(d.c)
                  case Short => Signed(d.c) || Unsigned(d.c) || d.c == 's'
  }

  /** Whether the scanning pass counts an argument for it. */
  predicate Counted(d: Directive) {
    d.Convert? && (d.size != Plain
                   || d.c in {'c', 'd', 'i', 'e', 'E', 'f', 'g', 'G', 'o', 's', 'u', 'x', 'X', 'p', 'n'})
  }

  /** The arguments the printing pass takes. */
  function Needed(fmt: string): nat
    requires WellFormed(fmt)
  {
    if fmt == "" then 0
    else (if Takes(Front(fmt).0) then 1 else 0) + Needed(fmt[Front(fmt).1..])
  }

  /** The arguments the scanning pass counts. */
  function Scanned(fmt: string): nat
    requires WellFormed(fmt)
  {
    if fmt == "" then 0
    else (if Counted(Front(fmt).0) then 1 else 0) + Scanned(fmt[Front(fmt).1..])
  }

  // ----------------------------------------------------------------- numbers

  function Symbol(d: nat, letters: nat): nat
  {
    if d > 9 then d + letters else d + 48
  }

  function Symbols(ds: seq<nat>, letters: nat): seq<nat> {
    if ds == [] then [] else [Symbol(ds[0], letters)] + Symbols(ds[1..], letters)
  }

  function Base(c: char): nat {
    match c
    case 'o' => 8
    case 'x' => 16
    case 'X' => 16
    case _ => 10
  }

  /** The offset of digits above 9: 'a' - 10 or 'A' - 10. */
  function Letters(c: char): nat { if c == 'x' then 87 else 55 }

  /** 2 to the number of bits the conversion looks at. */
  function Width(size: Size): nat {
    match size
    case Plain => 0x1_0000_0000
    case Long => U64
    case Short => 0x1_0000
  }

  /** The argument as the unsigned or signed integer of the conversion's width. */
  function AsUnsigned(arg: int, width: nat): nat
    requires 0 < width
  {
    arg % width
  }

  function AsSigned(arg: int, width: nat): int
    requires 0 < width
  {
    var u := AsUnsigned(arg, width);
    if 2 * u < width then u else u - width
  }

  /** The characters of an unsigned conversion. */
  function UnsignedText(size: Size, c: char, arg: int): seq<nat> {
    var v := AsUnsigned(arg, Width(size));
    var shown := if size == Plain && c == 'o' then SignExtend32(v) else v;
    Symbols(Emitted(v, shown, Base(c)), Letters(c))
  }

  /** The characters of a signed conversion.  The most negative value stays
      negative when it is negated, so no place is counted for it. */
  function SignedText(size: Size, arg: int): seq<nat> {
    var v := AsSigned(arg, Width(size));
    if v >= 0 then Symbols(Emitted(v, v, 10), 0)
    else if 2 * -v == Width(size) then [45] + Symbols(Emitted(0, 0, 10), 0)
    else [45] + Symbols(Emitted(-v, -v, 10), 0)
  }

  /** What a directive that takes an argument puts on the screen. */
  function ArgumentText(d: Directive, arg: int): seq<nat>
    requires Takes(d)
  {
    if d.c == 'c' then [AsUnsigned(arg, 256)]
    else if Signed(d.c) then SignedText(d.size, arg)
    else UnsignedText(d.size, if d.c == 's' then 'u' else d.c, arg)
  }

  // ------------------------------------------------------------------ output

  function Puts(text: seq<nat>, fore: Color, back: Color): seq<Op> {
    if text == [] then [] else [Put(Glyph(text[0], fore, back))] + Puts(text[1..], fore, back)
  }

  function Step(d: Directive, args: seq<int>, fore: Color, back: Color): seq<Op>
    requires Takes(d) ==> args != []
  {
    if d.Break? then [NewLine]
    else if d.Text? then [Put(Glyph(d.c as int, fore, back))]
    else if Takes(d) then Puts(ArgumentText(d, args[0]), fore, back)
    else if d == Convert(Plain, '%') then [Put(Glyph('%' as int, fore, back))]
    else []
  }

  /** Everything PrintString does to the screen. */
  function Output(fmt: string, args: seq<int>, fore: Color, back: Color): seq<Op>
    requires WellFormed(fmt) && Needed(fmt) <= |args|
  {
    if fmt == "" then []
    else
      var (d, n) := Front(fmt);
      Step(d, args, fore, back) + Output(fmt[n..], if Takes(d) then args[1..] else args, fore, back)
  }

  // ---------------------------------------------------------------- theorems

  /** The printing pass never takes more arguments than the scan counted. */
  lemma {:induction false} NeverMoreThanScanned(fmt: string)
    requires WellFormed(fmt)
    ensures Needed(fmt) <= Scanned(fmt)
  {
    if fmt != "" {
      NeverMoreThanScanned(fmt[Front(fmt).1..]);
    }
  }

  lemma FrontAppend(f: string, g: string)
    requires f != "" && WellFormed(f)
    ensures !Dangling(f + g) && Front(f + g) == Front(f)
    ensures (f + g)[Front(f).1..] == f[Front(f).1..] + g
  {}

  lemma {:induction false} WellFormedAppend(f: string, g: string)
    requires WellFormed(f) && WellFormed(g)
    ensures WellFormed(f + g) && Needed(f + g) == Needed(f) + Needed(g)
    decreases |f|
  {
    if f == "" {
      assert f + g == g;
    } else {
      FrontAppend(f, g);
      WellFormedAppend(f[Front(f).1..], g);
    }
  }

  /** Printing f + g with the arguments of both is printing f and then g. */
  lemma {:induction false} OutputAppend(f: string, g: string, a: seq<int>, b: seq<int>, fore: Color, back: Color)
    requires WellFormed(f) && WellFormed(g) && |a| == Needed(f) && |b| == Needed(g)
    ensures WellFormed(f + g) && Needed(f + g) == |a + b|
    ensures Output(f + g, a + b, fore, back) == Output(f, a, fore, back) + Output(g, b, fore, back)
    decreases |f|, 1
  {
    WellFormedAppend(f, g);
    if f == "" {
      assert f + g == g && a + b == b;
    } else {
      OutputAppendRest(f, g, a, b, fore, back);
    }
  }

  lemma {:induction false} OutputAppendRest(f: string, g: string, a: seq<int>, b: seq<int>, fore: Color, back: Color)
    requires f != "" && WellFormed(f) && WellFormed(g) && |a| == Needed(f) && |b| == Needed(g)
    requires WellFormed(f + g) && Needed(f + g) == |a + b|
    ensures Output(f + g, a + b, fore, back) == Output(f, a, fore, back) + Output(g, b, fore, back)
    decreases |f|, 0
  {
    hide WellFormed, Output, Step, Takes, Needed, Front, Dangling;
    WellFormedRest(f);
    FrontLength(f);
    FrontAppend(f, g);
    WellFormedRest(f + g);
    var (d, n) := Front(f);
    var a' := if Takes(d) then a[1..] else a;
    OutputStep(f, a, fore, back);
    OutputStep(f + g, a + b, fore, back);
    OutputAppend(f[n..], g, a', b, fore, back);
    assert (if Takes(d) then (a + b)[1..] else a + b) == a' + b;
    StepAppend(d, a, b, fore, back);
  }

  lemma FrontLength(f: string)
    requires f != "" && !Dangling(f)
    ensures 0 < Front(f).1 <= |f|
  {}

  lemma OutputStep(f: string, a: seq<int>, fore: Color, back: Color)
    requires f != "" && WellFormed(f) && Needed(f) <= |a|
    ensures !Dangling(f) && (Takes(Front(f).0) ==> a != []) && WellFormed(f[Front(f).1..])
    ensures Needed(f[Front(f).1..]) <= |if Takes(Front(f).0) then a[1..] else a|
    ensures Output(f, a, fore, back)
         == Step(Front(f).0, a, fore, back)
            + Output(f[Front(f).1..], if Takes(Front(f).0) then a[1..] else a, fore, back)
  {}

  lemma StepAppend(d: Directive, a: seq<int>, b: seq<int>, fore: Color, back: Color)
    requires Takes(d) ==> a != []
    ensures Step(d, a + b, fore, back) == Step(d, a, fore, back)
  {}

  lemma WellFormedRest(f: string)
    requires f != "" && WellFormed(f)
    ensures !Dangling(f) && WellFormed(f[Front(f).1..])
    ensures Needed(f) == (if Takes(Front(f).0) then 1 else 0) + Needed(f[Front(f).1..])
  {}

  // ------------------------------------------- what the numbers should be

  /** The digit a character stands for. */
  function DigitOf(symbol: nat): nat {
    if symbol < 65 then if symbol < 48 then 0 else symbol - 48
    else if symbol < 97 then symbol - 55 else symbol - 87
  }

  function DigitsOf(text: seq<nat>): seq<nat> {
    if text == [] then [] else [DigitOf(text[0])] + DigitsOf(text[1..])
  }

  /** Reading a printed number back. */
  function Read(text: seq<nat>, base: nat): int {
    if text != [] && text[0] == 45 then 0 - (Parse(0, DigitsOf(text[1..]), base) as int)
    else Parse(0, DigitsOf(text), base)
  }

  lemma {:induction false} SymbolsRead(ds: seq<nat>, letters: nat)
    requires forall d | d in ds :: d < 16
    requires letters in {55, 87} || (letters == 0 && forall d | d in ds :: d < 10)
    ensures DigitsOf(Symbols(ds, letters)) == ds
    ensures |Symbols(ds, letters)| == |ds| && (ds != [] ==> Symbols(ds, letters)[0] != 45)
  {
    if ds != [] {
      assert forall d | d in ds[1..] :: d in ds;
      assert ds[0] in ds;
      SymbolsRead(ds[1..], letters);
      assert ds == [ds[0]] + ds[1..];
      assert Symbols(ds, letters)[1..] == Symbols(ds[1..], letters);
    }
  }

  /** `d` is a digit, or a letter of the case that the conversion prints. */
  predicate Plausible(c: char, d: nat) {
    48 <= d <= 57 || (c == 'x' && 97 <= d <= 102) || (c == 'X' && 65 <= d <= 70)
  }

  /** An unsigned conversion, `%hs` among them, reads back in its base as its argument
      modulo 2^32, 2^64 or 2^16, exactly unless it is a plain `%o` of 2^31 or more;
      and its letters are small for `%x` and capital for `%X`. */
  lemma UnsignedReads(size: Size, c: char, arg: int)
    requires Unsigned(c) || (size == Short && c == 's')
    ensures var modulus := match size case Plain => 4294967296 case Long => 18446744073709551616 case Short => 65536;
            var base := match c case 'o' => 8 case 'x' => 16 case 'X' => 16 case _ => 10;
            var text := ArgumentText(Convert(size, c), arg);
            && (Read(text, base) == arg % modulus <==> !(size == Plain && c == 'o' && arg % modulus >= 2147483648))
            && (size == Plain && c == 'o' && arg % modulus >= 2147483648 ==> Read(text, base) == arg % modulus + 4294967296)
            && text != [] && forall d | d in text :: Plausible(c, d)
  {
    var kind := if c == 's' then 'u' else c;
    var v := AsUnsigned(arg, Width(size));
    var shown := if size == Plain && kind == 'o' then SignExtend32(v) else v;
    var digits := Emitted(v, shown, Base(kind));
    SymbolsRead(digits, Letters(kind));
    SymbolsPlausible(digits, kind);
    RoundTrip(v, Base(kind));
    if size == Plain && kind == 'o' {
      OctalInt(v);
    }
  }

  lemma {:induction false} SymbolsPlausible(ds: seq<nat>, c: char)
    requires Unsigned(c) && forall d | d in ds :: d < Base(c)
    ensures forall d | d in Symbols(ds, Letters(c)) :: Plausible(c, d)
  {
    if ds != [] {
      assert ds[0] in ds && forall d | d in ds[1..] :: d in ds;
      SymbolsPlausible(ds[1..], c);
    }
  }

  /** A signed conversion reads back in base 10 as its argument in 32, 64 or 16 bits,
      exactly unless that is the most negative value, which prints as "-0". */
  lemma SignedReads(size: Size, c: char, arg: int)
    requires Signed(c)
    ensures var half := match size case Plain => 2147483648 case Long => 9223372036854775808 case Short => 32768;
            var v := (arg + half) % (2 * half) - half;
            var text := ArgumentText(Convert(size, c), arg);
            && (Read(text, 10) == v <==> v != -half)
            && (v == -half ==> text == ['-' as nat, '0' as nat])
  {
    SignedIs(size, arg);
    SignedTextReads(size, arg);
  }

  /** Two's complement. */
  lemma SignedIs(size: Size, arg: int)
    ensures AsSigned(arg, Width(size)) == match size
                                          case Plain => (arg + 2147483648) % 4294967296 - 2147483648
                                          case Long => (arg + 9223372036854775808) % 18446744073709551616 - 9223372036854775808
                                          case Short => (arg + 32768) % 65536 - 32768
  {
    Halves(arg, 2147483648);
    Halves(arg, 9223372036854775808);
    Halves(arg, 32768);
    hide AsSigned;
  }

  lemma Halves(arg: int, half: nat)
    requires 0 < half
    ensures AsSigned(arg, 2 * half) == (arg + half) % (2 * half) - half
  {
    var q, u := arg / (2 * half), arg % (2 * half);
    if u < half {
      Remainder(arg + half, q, u + half, 2 * half);
    } else {
      Remainder(arg + half, q + 1, u - half, 2 * half);
    }
  }

  lemma Remainder(n: int, q: int, r: nat, d: nat)
    requires n == q * d + r && r < d
    ensures n % d == r
  {
    if n / d < q {
      MulSigned(n / d + 1, q, d);
    } else if q < n / d {
      MulSigned(q + 1, n / d, d);
    }
  }

  lemma MulSigned(a: int, b: int, c: nat)
    requires a <= b
    ensures a * c <= b * c
  {}

  /** Any other argument that is taken is a character. */
  lemma CharacterText(arg: int)
    ensures ArgumentText(Convert(Plain, 'c'), arg) == [arg % 256]
  {}

  lemma SignedTextReads(size: Size, arg: int)
    ensures var v := AsSigned(arg, Width(size));
            && (Read(SignedText(size, arg), 10) == v <==> 2 * v + Width(size) != 0)
            && (2 * v + Width(size) == 0 ==> SignedText(size, arg) == [45, 48])
  {
    var v := AsSigned(arg, Width(size));
    if v >= 0 {
      SymbolsRead(Emitted(v, v, 10), 0);
      RoundTrip(v, 10);
    } else if 2 * -v == Width(size) {
      assert Places(0, 10) == 0 && Emitted(0, 0, 10) == [0];
      assert Symbols([0], 0) == [48] + Symbols([], 0) == [48];
      assert SignedText(size, arg) == [45, 48];
      assert DigitsOf([48]) == [0] + DigitsOf([]) == [0];
      assert Parse(0, [0], 10) == Parse(0, [], 10);
    } else {
      SymbolsRead(Emitted(-v, -v, 10), 0);
      RoundTrip(-v, 10);
      var text := Symbols(Emitted(-v, -v, 10), 0);
      assert ([45] + text)[1..] == text;
    }
  }
}
