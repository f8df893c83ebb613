/** Physical memory as the boot loader sees it: byte addressed, with 64-bit
    little-endian words laid over the bytes.  A byte that was never stored is 0,
    so every address can be read. */
module Memory {
  import opened Words
  import opened Arithmetic

  type Byte = b: nat | b < 256
  type Mem = map<nat, Byte>

  function LoadByte(m: Mem, a: nat): Byte {
    if a in m then m[a] else 0
  }

  function LoadLE(m: Mem, a: nat, n: nat): nat
    decreases n, a
  {
    if n == 0 then 0 else LoadByte(m, a) + 256 * LoadLE(m, a + 1, n - 1)
  }

  function StoreLE(m: Mem, a: nat, n: nat, w: nat): Mem
    decreases n, a
  {
    if n == 0 then m else StoreLE(m[a := w % 256], a + 1, n - 1, w / 256)
  }

  function Pow256(n: nat): (p: nat)
    ensures p >= 1
  {
    if n == 0 then 1 else 256 * Pow256(n - 1)
  }

  lemma {:induction false} LoadLEBound(m: Mem, a: nat, n: nat)
    ensures LoadLE(m, a, n) < Pow256(n)
    decreases n
  {
    if n > 0 {
      LoadLEBound(m, a + 1, n - 1);
    }
  }

  /** The 64-bit word at `a`. */
  function Load64(m: Mem, a: nat): Word {
    LoadLEBound(m, a, 8);
    Pow256Eight();
    LoadLE(m, a, 8)
  }

  function Store64(m: Mem, a: nat, w: Word): Mem {
    StoreLE(m, a, 8, w)
  }

  /** Clears `n` bytes, as ZeroMem does. */
  function Zero(m: Mem, a: nat, n: nat): Mem {
    map x | x in m && !(a <= x < a + n) :: m[x]
  }

  lemma Pow256Eight()
    ensures Pow256(8) == 0x1_0000_0000_0000_0000
  {
    assert Pow256(4) == 0x1_0000_0000;
    assert Pow256(6) == 256 * Pow256(5) == 65536 * Pow256(4);
    assert Pow256(8) == 256 * Pow256(7) == 65536 * Pow256(6);
  }

  lemma {:induction false} StoreLEBytes(m: Mem, a: nat, n: nat, w: nat, x: nat)
    requires x < a || a + n <= x
    ensures LoadByte(StoreLE(m, a, n, w), x) == LoadByte(m, x)
    decreases n
  {
    if n > 0 {
      StoreLEBytes(m[a := w % 256], a + 1, n - 1, w / 256, x);
    }
  }

  lemma {:induction false} StoreLELoadLE(m: Mem, a: nat, n: nat, w: nat)
    requires w < Pow256(n)
    ensures LoadLE(StoreLE(m, a, n, w), a, n) == w
    decreases n
  {
    if n > 0 {
      var m' := m[a := w % 256];
      StoreLELoadLE(m', a + 1, n - 1, w / 256);
      StoreLEBytes(m', a + 1, n - 1, w / 256, a);
    }
  }

  lemma {:induction false} LoadLECongruent(m: Mem, m': Mem, a: nat, n: nat)
    requires forall x | a <= x < a + n :: LoadByte(m, x) == LoadByte(m', x)
    ensures LoadLE(m, a, n) == LoadLE(m', a, n)
    decreases n
  {
    if n > 0 {
      LoadLECongruent(m, m', a + 1, n - 1);
    }
  }

  lemma {:induction false} LoadLEZero(m: Mem, a: nat, n: nat)
    requires forall x | a <= x < a + n :: LoadByte(m, x) == 0
    ensures LoadLE(m, a, n) == 0
    decreases n
  {
    if n > 0 {
      LoadLEZero(m, a + 1, n - 1);
    }
  }

  /** The lowest byte of a word is stored first. */
  lemma {:induction false} StoreLEOrder(m: Mem, a: nat, n: nat, w: nat, i: nat)
    requires i < n
    ensures LoadByte(StoreLE(m, a, n, w), a + i) == w / Pow256(i) % 256
    decreases n
  {
    var m' := m[a := w % 256];
    if i == 0 {
      StoreLEBytes(m', a + 1, n - 1, w / 256, a);
    } else {
      StoreLEOrder(m', a + 1, n - 1, w / 256, i - 1);
      DivideTwice(w, Pow256(i - 1));
    }
  }

  lemma DivideTwice(w: nat, p: nat)
    requires 0 < p
    ensures w / 256 / p == w / (256 * p)
  {
    var q, r := w / 256, w % 256;
    var h, l := q / p, q % p;
    assert w == 256 * q + r && q == p * h + l;
    assert w == (256 * p) * h + (256 * l + r);
    assert 256 * l + r < 256 * p;
    assert w == h * (256 * p) + (256 * l + r);
    DivModIs(w, h, 256 * l + r, 256 * p);
  }

  /** A stored word reads back, whatever was there before. */
  lemma Store64Load64(m: Mem, a: nat, w: Word)
    ensures Load64(Store64(m, a, w), a) == w
  {
    Pow256Eight();
    StoreLELoadLE(m, a, 8, w);
  }

  lemma Store64Byte(m: Mem, a: nat, w: Word, x: nat)
    requires x < a || a + 8 <= x
    ensures LoadByte(Store64(m, a, w), x) == LoadByte(m, x)
  {
    StoreLEBytes(m, a, 8, w, x);
  }

  /** A store leaves every word that does not overlap it alone. */
  lemma Store64Other(m: Mem, a: nat, w: Word, b: nat)
    requires b + 8 <= a || a + 8 <= b
    ensures Load64(Store64(m, a, w), b) == Load64(m, b)
  {
    forall x | b <= x < b + 8
      ensures LoadByte(Store64(m, a, w), x) == LoadByte(m, x)
    {
      Store64Byte(m, a, w, x);
    }
    LoadLECongruent(Store64(m, a, w), m, b, 8);
  }

  lemma ZeroOther(m: Mem, a: nat, n: nat, b: nat)
    requires b + 8 <= a || a + n <= b
    ensures Load64(Zero(m, a, n), b) == Load64(m, b)
  {
    LoadLECongruent(Zero(m, a, n), m, b, 8);
  }

  lemma ZeroInside(m: Mem, a: nat, n: nat, b: nat)
    requires a <= b && b + 8 <= a + n
    ensures Load64(Zero(m, a, n), b) == 0
  {
    LoadLEZero(Zero(m, a, n), b, 8);
  }
}
