/** Division by a variable.  Proofs mostly need only that n = q*d + r fixes q and
    r, so quotient and remainder have names that can be hidden. */
module Arithmetic {

  function Quot(n: nat, d: nat): nat
    requires 0 < d
  {
    n / d
  }

  function Rem(n: nat, d: nat): nat
    requires 0 < d
  {
    n % d
  }

  lemma Mul(a: nat, b: nat, c: nat)
    requires a <= b
    ensures a * c <= b * c
  {}

  lemma MulIf(a: nat, b: nat, c: nat)
    ensures a <= b ==> a * c <= b * c
  {}

  lemma DivMod(n: nat, d: nat)
    requires 0 < d
    ensures n == Quot(n, d) * d + Rem(n, d) && Rem(n, d) < d
  {}

  lemma DivModIs(n: nat, q: nat, r: nat, d: nat)
    requires n == q * d + r && r < d
    ensures Quot(n, d) == q && Rem(n, d) == r
  {
    hide Quot, Rem;
    DivMod(n, d);
    if Quot(n, d) < q {
      Mul(Quot(n, d) + 1, q, d);
    } else if q < Quot(n, d) {
      Mul(q + 1, Quot(n, d), d);
    }
  }
}
