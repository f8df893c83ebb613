/** The digit loops of PrintString: positional numerals, most significant digit
    first, and what reading them back gives. */
module Numerals {
  import opened Words
  import opened Arithmetic

  function Pow(base: nat, e: nat): nat {
    if e == 0 then 1 else base * Pow(base, e - 1)
  }

  /** How often the counting loop divides before reaching 0. */
  function Places(v: nat, base: nat): nat
    requires 2 <= base
    decreases v
  {
    if v == 0 then 0 else QuotLess(v, base); 1 + Places(Quot(v, base), base)
  }

  lemma QuotLess(v: nat, base: nat)
    requires 2 <= base && 0 < v
    ensures Quot(v, base) < v
  {
    DivMod(v, base);
    Mul(2, base, Quot(v, base));
  }

  lemma PowPositive(base: nat, e: nat)
    requires 2 <= base
    ensures Pow(base, e) > 0
  {}

  function Digit(shown: nat, base: nat, e: nat): (d: nat)
    requires 2 <= base
    ensures d < base
  {
    PowPositive(base, e);
    Rem(Quot(shown, Pow(base, e)), base)
  }

  /** The digits of `shown` at `places` places. */
  function Numeral(shown: nat, base: nat, places: nat): (ds: seq<nat>)
    requires 2 <= base
    ensures |ds| == places && forall d | d in ds :: d < base
  {
    if places == 0 then [] else [Digit(shown, base, places - 1)] + Numeral(shown, base, places - 1)
  }

  /** What PrintString emits: as many places as `counted` has, digits of `shown`. */
  function Emitted(counted: nat, shown: nat, base: nat): (ds: seq<nat>)
    requires 2 <= base
    ensures forall d | d in ds :: d < base
  {
    if Places(counted, base) == 0 then [0] else Numeral(shown, base, Places(counted, base))
  }

  /** Reading digits from left to right. */
  function Parse(acc: nat, ds: seq<nat>, base: nat): nat
    decreases |ds|
  {
    if ds == [] then acc else Parse(acc * base + ds[0], ds[1..], base)
  }

  /** n modulo p*b: one more digit in front. */
  lemma ModStep(n: nat, p: nat, b: nat)
    requires 0 < p && 0 < b
    ensures 0 < p * b && Rem(n, p * b) == Rem(Quot(n, p), b) * p + Rem(n, p)
  {
    hide Quot, Rem;
    var q, r := Quot(n, p), Rem(n, p);
    var h, d := Quot(q, b), Rem(q, b);
    DivMod(n, p);
    DivMod(q, b);
    assert n == (h * b + d) * p + r == h * (p * b) + (d * p + r);
    Mul(d + 1, b, p);
    assert (d + 1) * p == d * p + p;
    DivModIs(n, h, d * p + r, p * b);
  }

  /** Reading a numeral gives the value modulo base^places. */
  lemma {:induction false} ParseNumeral(acc: nat, shown: nat, base: nat, places: nat)
    requires 2 <= base
    ensures Pow(base, places) > 0
    ensures Parse(acc, Numeral(shown, base, places), base) == acc * Pow(base, places) + Rem(shown, Pow(base, places))
    decreases places
  {
    hide Quot, Rem;
    PowPositive(base, places);
    if places == 0 {
      DivMod(shown, 1);
    } else {
      var d, p := Digit(shown, base, places - 1), Pow(base, places - 1);
      PowPositive(base, places - 1);
      ParseNumeral(acc * base + d, shown, base, places - 1);
      ModStep(shown, p, base);
      Regroup(acc, base, d, p);
    }
  }

  lemma Regroup(acc: nat, base: nat, d: nat, p: nat)
    ensures (acc * base + d) * p == acc * (p * base) + d * p && p * base == base * p
  {}

  /** The counting loop finds the number of digits: base^(n-1) <= v < base^n. */
  lemma {:induction false} PlacesExact(v: nat, base: nat)
    requires 2 <= base
    ensures v < Pow(base, Places(v, base))
    ensures v > 0 ==> Places(v, base) > 0 && Pow(base, Places(v, base) - 1) <= v
    decreases v
  {
    hide Quot, Rem;
    if v > 0 {
      var q := Quot(v, base);
      QuotLess(v, base);
      DivMod(v, base);
      PlacesExact(q, base);
      OneMorePlace(v, base, q, Rem(v, base), Places(q, base));
    }
  }

  lemma OneMorePlace(v: nat, base: nat, q: nat, r: nat, n: nat)
    requires 2 <= base && v == q * base + r && r < base && 0 < v
    requires q < Pow(base, n) && (q > 0 ==> n > 0 && Pow(base, n - 1) <= q) && (q == 0 ==> n == 0)
    ensures v < Pow(base, n + 1) && Pow(base, n) <= v
  {
    Mul(q + 1, Pow(base, n), base);
    assert (q + 1) * base == q * base + base;
    if q > 0 {
      Mul(Pow(base, n - 1), q, base);
    }
  }

  /** Round trip: the emitted digits read back as the value, and only 0 starts
      with a zero. */
  lemma RoundTrip(v: nat, base: nat)
    requires 2 <= base
    ensures Parse(0, Emitted(v, v, base), base) == v
    ensures |Emitted(v, v, base)| > 0 && (Emitted(v, v, base)[0] == 0 <==> v == 0)
  {
    var n := Places(v, base);
    PlacesExact(v, base);
    if v == 0 {
      assert Parse(0, [0], base) == Parse(0, [], base);
    } else {
      ParseNumeral(0, v, base, n);
      SmallMod(v, Pow(base, n));
      LeadingDigit(v, base, n);
    }
  }

  lemma SmallMod(v: nat, m: nat)
    requires v < m
    ensures Rem(v, m) == v && Quot(v, m) == 0
  {
    DivModIs(v, 0, v, m);
  }

  lemma LeadingDigit(v: nat, base: nat, n: nat)
    requires 2 <= base && 0 < n && Pow(base, n - 1) <= v < Pow(base, n)
    ensures Digit(v, base, n - 1) > 0
  {
    hide Quot, Rem;
    var p := Pow(base, n - 1);
    PowPositive(base, n - 1);
    DivMod(v, p);
    if Quot(v, p) >= base {
      Mul(base, Quot(v, p), p);
    }
    SmallMod(Quot(v, p), base);
    MulIf(Quot(v, p), 0, p);
  }

  /** Unsigned 64-bit values have at most 22, 20 and 16 places, and the divisor
      recomputed for any place of the value stays below 2^64. */
  lemma DivisorFits(v: nat, base: nat, e: nat)
    requires v < U64 && base in {8, 10, 16} && e < Places(v, base)
    ensures Pow(base, e) <= v && Places(v, base) <= 22
    ensures Pow(base, e) <= match base case 8 => Pow(8, 21) case 10 => Pow(10, 19) case _ => Pow(16, 15)
  {
    PlacesExact(v, base);
    var n := Places(v, base);
    PowGrows(base, e, n - 1);
    PowLimits();
    PowGrows(8, 22, n - 1);
    PowGrows(10, 20, n - 1);
    PowGrows(16, 16, n - 1);
    PowGrows(base, e, if base == 8 then 21 else if base == 10 then 19 else 15);
  }

  lemma {:induction false} PowGrows(base: nat, e: nat, f: nat)
    requires 2 <= base
    ensures e <= f ==> Pow(base, e) <= Pow(base, f)
    decreases f
  {
    if e < f {
      PowGrows(base, e, f - 1);
      PowPositive(base, f - 1);
    }
  }

  lemma Assoc(a: nat, b: nat, c: nat)
    ensures a * (b * c) == a * b * c
  {}

  lemma {:induction false} PowAdd(base: nat, e: nat, f: nat)
    ensures Pow(base, e + f) == Pow(base, e) * Pow(base, f)
  {
    if e > 0 {
      PowAdd(base, e - 1, f);
      Assoc(base, Pow(base, e - 1), Pow(base, f));
    }
  }

  lemma PowLimits()
    ensures Pow(8, 22) >= U64 && Pow(10, 20) >= U64 && Pow(16, 16) >= U64
    ensures Pow(8, 10) == 0x4000_0000 && Pow(8, 11) == 0x2_0000_0000
  {
    assert Pow(8, 5) == 0x8000 && Pow(10, 5) == 100000 && Pow(16, 4) == 0x10000;
    PowAdd(8, 5, 5);
    PowAdd(8, 10, 10);
    PowAdd(8, 20, 2);
    PowAdd(10, 5, 5);
    PowAdd(10, 10, 10);
    PowAdd(16, 4, 4);
    PowAdd(16, 8, 8);
  }

  // ----------------------------------------------------- 32-bit octal

  /** An `int` converted to unsigned long: the top bit is spread upwards. */
  function SignExtend32(v: nat): nat
    requires v < 0x1_0000_0000
  {
    if v < 0x8000_0000 then v else v + U64 - 0x1_0000_0000
  }

  /** `%o` counts the places of the unsigned value but takes its digits from the
      value as a signed int: it reads back correctly exactly below 2^31, and is
      2^32 too large from there on. */
  lemma OctalInt(v: nat)
    requires v < 0x1_0000_0000
    ensures Parse(0, Emitted(v, SignExtend32(v), 8), 8) == v <==> v < 0x8000_0000
    ensures v >= 0x8000_0000 ==> Parse(0, Emitted(v, SignExtend32(v), 8), 8) == v + 0x1_0000_0000
  {
    if v < 0x8000_0000 {
      RoundTrip(v, 8);
    } else {
      var n := Places(v, 8);
      PlacesExact(v, 8);
      PowLimits();
      PowGrows(8, 11, n - 1);
      PowGrows(8, n, 10);
      assert n == 11;
      ParseNumeral(0, SignExtend32(v), 8, 11);
      var m := 0x2_0000_0000;
      assert SignExtend32(v) == 0x7FFF_FFFF * m + (v + 0x1_0000_0000);
      DivModIs(SignExtend32(v), 0x7FFF_FFFF, v + 0x1_0000_0000, m);
    }
  }
}
