/**
  Polynomials over GF(2) and the residue ring GF(2)[x] / POLY used by the
  decoder's CRC. A polynomial is the natural number whose bit i is the
  coefficient of x^i: addition is XOR, and a residue has degree below 16.
*/
module Gf2 {
  import opened Bits

  /** A residue modulo the generator: a polynomial of degree below 16. */
  type Poly = x: int | 0 <= x < 0x1_0000

  /** POLY = x^16 + x^14 + x^13 + x^11 + x^10 + x^9 + x^8 + x^6 + x^5 + x + 1. */
  const Generator: nat := 0x1_6f63

  /** ALPHA = x. */
  const Alpha: Poly := 0x2

  /** Addition of residues (`+` on `G2Poly`). */
  function Add(a: Poly, b: Poly): (r: Poly) {
    Pow2Values();
    XorBound(a, b, 16);
    Xor(a, b)
  }

  /** Reduction modulo the generator of a polynomial of degree at most 16 (`% POLY`). */
  function ModGenerator(a: nat): (r: Poly)
    requires a < 0x2_0000
  {
    if a >= 0x1_0000 then
      Pow2Values();
      TopBit(a, 16);
      TopBit(Generator, 16);
      BitXor(a, Generator, 16);
      XorBound(a, Generator, 17);
      TopBit(Xor(a, Generator), 16);
      Xor(a, Generator)
    else a
  }

  /** Multiplication by ALPHA, reduced. */
  function MulAlpha(a: Poly): (r: Poly) {
    ModGenerator(Alpha * a)
  }

  /** ALPHA^p mod POLY (`ALPHA.pow_mod(p, POLY)`). */
  function AlphaPow(p: nat): (r: Poly) {
    if p == 0 then 1 else MulAlpha(AlphaPow(p - 1))
  }

  lemma AddZero(a: Poly)
    ensures Add(a, 0) == a && Add(0, a) == a
  {
    XorZero(a);
  }

  lemma AddSelf(a: Poly)
    ensures Add(a, a) == 0
  {
    XorSelf(a);
  }

  lemma AddComm(a: Poly, b: Poly)
    ensures Add(a, b) == Add(b, a)
  {
    XorComm(a, b);
  }

  lemma AddAssoc(a: Poly, b: Poly, c: Poly)
    ensures Add(Add(a, b), c) == Add(a, Add(b, c))
  {
    XorAssoc(a, b, c);
  }

  /** Regrouping a sum of four residues. */
  lemma AddSwap(a: Poly, b: Poly, c: Poly, d: Poly)
    ensures Add(Add(a, b), Add(c, d)) == Add(Add(a, c), Add(b, d))
  {
    AddAssoc(a, b, Add(c, d));
    AddAssoc(b, c, d);
    AddComm(b, c);
    AddAssoc(c, b, d);
    AddAssoc(a, c, Add(b, d));
  }

  /** `(a + b) % POLY` is `a + b`: the sum of two residues is already reduced. */
  lemma SumIsReduced(a: Poly, b: Poly)
    ensures ModGenerator(Add(a, b)) == Add(a, b)
  {
  }

  /** Two residues add up to 0 only when they are equal. */
  lemma AddZeroEqual(a: Poly, b: Poly)
    requires Add(a, b) == 0
    ensures a == b
  {
    AddAssoc(a, b, b);
    AddSelf(b);
    AddZero(a);
    AddZero(b);
  }

  /** ALPHA is invertible modulo the generator, so no power of it is zero. */
  lemma {:induction false} AlphaPowNonZero(p: nat)
    ensures AlphaPow(p) != 0
  {
    if p > 0 {
      AlphaPowNonZero(p - 1);
      var a: nat := AlphaPow(p - 1);
      if 2 * a >= 0x1_0000 {
        // bit 0 of the generator is set while bit 0 of 2a is clear
        BitXor(2 * a, Generator, 0);
        BitOfZero(0);
      }
    }
  }
}
