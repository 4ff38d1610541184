/**
  Bitwise operations on naturals: what the source does with `^`, `>>`, `&`
  and `1 << k` on its unsigned integers. Bit s of a natural a is the
  coefficient of 2^s in its binary expansion.
*/
module Bits {

  /** An unsigned 8-bit value (`u8`). */
  type byte = x: int | 0 <= x < 256

  function Pow2(k: nat): (r: nat)
    ensures r >= 1
  {
    if k == 0 then 1 else 2 * Pow2(k - 1)
  }

  /** Bit s of a is set. */
  predicate Bit(a: nat, s: nat) {
    if s == 0 then a % 2 == 1 else Bit(a / 2, s - 1)
  }

  /** Bitwise exclusive or (`^`). */
  function Xor(a: nat, b: nat): nat
    decreases a + b
  {
    if a == 0 && b == 0 then 0
    else 2 * Xor(a / 2, b / 2) + (if a % 2 == b % 2 then 0 else 1)
  }

  lemma {:induction false} BitOfZero(s: nat)
    ensures !Bit(0, s)
  {
    if s > 0 {
      BitOfZero(s - 1);
    }
  }

  /** Each bit of a XOR b is the exclusive or of the two bits. */
  lemma {:induction false} BitXor(a: nat, b: nat, s: nat)
    ensures Bit(Xor(a, b), s) == (Bit(a, s) != Bit(b, s))
    decreases s
  {
    if a == 0 && b == 0 {
      BitOfZero(s);
    } else if s > 0 {
      BitXor(a / 2, b / 2, s - 1);
    }
  }

  /** XOR keeps values below a power of two. */
  lemma {:induction false} XorBound(a: nat, b: nat, w: nat)
    requires a < Pow2(w) && b < Pow2(w)
    ensures Xor(a, b) < Pow2(w)
  {
    if w > 0 && !(a == 0 && b == 0) {
      XorBound(a / 2, b / 2, w - 1);
    }
  }

  lemma {:induction false} XorZero(a: nat)
    ensures Xor(a, 0) == a && Xor(0, a) == a
  {
    if a > 0 {
      XorZero(a / 2);
    }
  }

  lemma {:induction false} XorSelf(a: nat)
    ensures Xor(a, a) == 0
  {
    if a > 0 {
      XorSelf(a / 2);
    }
  }

  lemma {:induction false} XorComm(a: nat, b: nat)
    ensures Xor(a, b) == Xor(b, a)
    decreases a + b
  {
    if !(a == 0 && b == 0) {
      XorComm(a / 2, b / 2);
    }
  }

  lemma {:induction false} XorAssoc(a: nat, b: nat, c: nat)
    ensures Xor(Xor(a, b), c) == Xor(a, Xor(b, c))
    decreases a + b + c
  {
    if !(a == 0 && b == 0 && c == 0) {
      XorHalves(a, b);
      XorHalves(b, c);
      XorHalves(Xor(a, b), c);
      XorHalves(a, Xor(b, c));
      XorAssoc(a / 2, b / 2, c / 2);
    }
  }

  /** The low bit and the rest of a XOR b. */
  lemma XorHalves(a: nat, b: nat)
    ensures Xor(a, b) / 2 == Xor(a / 2, b / 2)
    ensures Xor(a, b) % 2 == (if a % 2 == b % 2 then 0 else 1)
  {
    if a == 0 && b == 0 {
      assert Xor(a / 2, b / 2) == 0;
    }
  }

  /** Appending the binary digits i and j to a and b appends their XOR to a XOR b. */
  lemma XorStep(a: nat, b: nat, c: nat, i: nat, j: nat)
    requires i < 2 && j < 2 && Xor(a, b) == c
    ensures Xor(2 * a + i, 2 * b + j) == 2 * c + (if i == j then 0 else 1)
  {
    var x, y := 2 * a + i, 2 * b + j;
    assert x / 2 == a && x % 2 == i && y / 2 == b && y % 2 == j;
    if x == 0 && y == 0 {
      assert a == 0 && b == 0 && c == 0;
    }
  }

  /** The number of set bits among bits 0 .. w-1 of a (`count_ones` for w = 8). */
  function Pop(a: nat, w: nat): (r: nat)
    ensures r <= w
  {
    if w == 0 then 0 else a % 2 + Pop(a / 2, w - 1)
  }

  lemma Pow2Values()
    ensures Pow2(8) == 0x100 && Pow2(16) == 0x1_0000 && Pow2(17) == 0x2_0000
  {
  }

  lemma {:induction false} Pow2Monotone(s: nat, t: nat)
    requires s <= t
    ensures Pow2(s) <= Pow2(t)
  {
    if s < t {
      Pow2Monotone(s, t - 1);
    }
  }

  /** `1 << t` for a bit position t of a byte. */
  function Mask(t: nat): (r: byte)
    requires t < 8
    ensures r == Pow2(t)
  {
    Pow2Monotone(t, 7);
    Pow2(t)
  }

  /** `^` on bytes. */
  function XorByte(a: byte, b: byte): (r: byte) {
    Pow2Values();
    XorBound(a, b, 8);
    Xor(a, b)
  }

  /** Bit s of 2^t is set exactly when s = t. */
  lemma {:induction false} BitPow2(t: nat, s: nat)
    ensures Bit(Pow2(t), s) == (s == t)
  {
    if t == 0 {
      if s > 0 {
        BitOfZero(s - 1);
      }
    } else if s > 0 {
      BitPow2(t - 1, s - 1);
    }
  }

  /** For a below 2^(w+1), bit w is set exactly when a >= 2^w. */
  lemma {:induction false} TopBit(a: nat, w: nat)
    requires a < Pow2(w + 1)
    ensures Bit(a, w) <==> a >= Pow2(w)
  {
    if w > 0 {
      TopBit(a / 2, w - 1);
    }
  }

  /** Setting a clear bit below w adds one to the count of set bits below w. */
  lemma {:induction false} PopFlip(a: nat, t: nat, w: nat)
    requires t < w && !Bit(a, t)
    ensures Pop(Xor(a, Pow2(t)), w) == Pop(a, w) + 1
  {
    var x := Xor(a, Pow2(t));
    XorHalves(a, Pow2(t));
    if t == 0 {
      XorZero(a / 2);
    } else {
      PopFlip(a / 2, t - 1, w - 1);
    }
  }
}
