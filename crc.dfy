/**
  The CRC syndrome of a byte buffer (`Decoder::crc16_remainder`).

  Bit 7 - j of the byte i places from the end of the buffer stands for the
  term x^(8i + j); the syndrome is the sum of the set terms modulo the
  generator. It is linear, which is what lets the decoder precompute the
  syndromes of error patterns on all-zero buffers.
*/
module Crc {
  import opened Bits
  import opened Gf2
  import opened ByteOps

  /** The term bit s of a byte contributes when that bit stands for x^p. */
  function Term(b: byte, s: nat, p: nat): Poly
    requires s < 8
  {
    if Bit(b, s) then AlphaPow(p) else 0
  }

  /** The sum of the terms of the first j bits looked at in byte b (bits 7, 6, ...), the first weighted x^offset. */
  function ByteTerms(b: byte, offset: nat, j: nat): Poly
    requires j <= 8
  {
    if j == 0 then 0 else Add(ByteTerms(b, offset, j - 1), Term(b, 8 - j, offset + j - 1))
  }

  /** The syndrome of a buffer: the byte at index k of an n-byte buffer is weighted x^(8(n-1-k)). */
  function Residue(d: seq<byte>): Poly {
    if |d| == 0 then 0 else Add(ByteTerms(d[0], 8 * (|d| - 1), 8), Residue(d[1..]))
  }

  /**
    `crc16_remainder`: the bytes from the last to the first, in each the bits
    from 7 down to 0, adding x^(8i + j) for each set bit.
  */
  method Crc16Remainder(data: seq<byte>) returns (rem: Poly)
    ensures rem == Residue(data)
  {
    rem := 0;
    var n := |data|;
    for i := 0 to n
      invariant rem == Residue(data[n - i..])
    {
      ghost var done := rem;
      AddZero(done);
      for j := 0 to 8
        invariant rem == Add(ByteTerms(data[n - i - 1], 8 * i, j), done)
      {
        var offset := i * 8;
        // the shift right by 7 - j and the mask with 1
        if Bit(data[n - i - 1], 7 - j) {
          var pow := AlphaPow(j + offset);
          // `(rem + pow) % POLY`
          SumIsReduced(rem, pow);
          AddAssoc(ByteTerms(data[n - i - 1], 8 * i, j), done, pow);
          AddComm(done, pow);
          AddAssoc(ByteTerms(data[n - i - 1], 8 * i, j), pow, done);
          rem := ModGenerator(Add(rem, pow));
        } else {
          AddZero(ByteTerms(data[n - i - 1], 8 * i, j));
        }
      }
      assert data[n - i - 1..][1..] == data[n - i..];
    }
    assert data[n - n..] == data;
  }

  lemma {:induction false} ByteTermsOfZero(offset: nat, j: nat)
    requires j <= 8
    ensures ByteTerms(0, offset, j) == 0
  {
    if j > 0 {
      ByteTermsOfZero(offset, j - 1);
      BitOfZero(8 - j);
      AddZero(0);
    }
  }

  /** The all-zero buffer has syndrome 0. */
  lemma {:induction false} ResidueOfZeros(n: nat)
    ensures Residue(Zeros(n)) == 0
  {
    if n > 0 {
      assert Zeros(n)[1..] == Zeros(n - 1);
      ResidueOfZeros(n - 1);
      ByteTermsOfZero(8 * (n - 1), 8);
      AddZero(0);
    }
  }

  lemma TermLinear(a: byte, b: byte, s: nat, p: nat)
    requires s < 8
    ensures Term(XorByte(a, b), s, p) == Add(Term(a, s, p), Term(b, s, p))
  {
    BitXor(a, b, s);
    AddZero(AlphaPow(p));
    AddZero(0);
    AddSelf(AlphaPow(p));
  }

  lemma {:induction false} ByteTermsLinear(a: byte, b: byte, offset: nat, j: nat)
    requires j <= 8
    ensures ByteTerms(XorByte(a, b), offset, j) == Add(ByteTerms(a, offset, j), ByteTerms(b, offset, j))
  {
    if j > 0 {
      ByteTermsLinear(a, b, offset, j - 1);
      TermLinear(a, b, 8 - j, offset + j - 1);
      AddSwap(ByteTerms(a, offset, j - 1), ByteTerms(b, offset, j - 1),
              Term(a, 8 - j, offset + j - 1), Term(b, 8 - j, offset + j - 1));
    } else {
      AddZero(0);
    }
  }

  /** The syndrome is linear: res(a XOR b) = res(a) + res(b) for buffers of equal length. */
  lemma {:induction false} ResidueLinear(a: seq<byte>, b: seq<byte>)
    requires |a| == |b|
    ensures Residue(XorBytes(a, b)) == Add(Residue(a), Residue(b))
  {
    if |a| > 0 {
      var x := XorBytes(a, b);
      assert x[1..] == XorBytes(a[1..], b[1..]);
      ResidueLinear(a[1..], b[1..]);
      ByteTermsLinear(a[0], b[0], 8 * (|a| - 1), 8);
      AddSwap(ByteTerms(a[0], 8 * (|a| - 1), 8), ByteTerms(b[0], 8 * (|a| - 1), 8),
              Residue(a[1..]), Residue(b[1..]));
    } else {
      AddZero(0);
    }
  }

  /** The terms of the first j bits looked at in the byte 2^s: only bit s, weighted x^(offset + 7 - s), contributes. */
  lemma {:induction false} ByteTermsMask(s: nat, offset: nat, j: nat)
    requires s < 8 && j <= 8
    ensures ByteTerms(Mask(s), offset, j) == if j + s <= 7 then 0 else AlphaPow(offset + 7 - s)
  {
    if j > 0 {
      ByteTermsMask(s, offset, j - 1);
      BitPow2(s, 8 - j);
      var prev := ByteTerms(Mask(s), offset, j - 1);
      var term := Term(Mask(s), 8 - j, offset + j - 1);
      assert ByteTerms(Mask(s), offset, j) == Add(prev, term);
      if 8 - j == s {
        assert prev == 0 && term == AlphaPow(offset + 7 - s);
        AddZero(term);
      } else {
        assert term == 0;
        AddZero(prev);
      }
    }
  }

  /** A buffer that is zero except for byte k has the syndrome of that byte alone. */
  lemma {:induction false} ResidueOfOneByte(n: nat, k: nat, b: byte)
    requires k < n
    ensures Residue(Zeros(n)[k := b]) == ByteTerms(b, 8 * (n - 1 - k), 8)
  {
    var d := Zeros(n)[k := b];
    if k == 0 {
      assert d[1..] == Zeros(n - 1);
      ResidueOfZeros(n - 1);
      AddZero(ByteTerms(b, 8 * (n - 1), 8));
    } else {
      assert d[1..] == Zeros(n - 1)[k - 1 := b];
      ResidueOfOneByte(n - 1, k - 1, b);
      ByteTermsOfZero(8 * (n - 1), 8);
      AddZero(Residue(d[1..]));
    }
  }

  /** A single flipped bit never has syndrome 0, so it is never mistaken for a valid frame. */
  lemma SingleBitSyndrome(n: nat, q: nat)
    requires q < 8 * n
    ensures Residue(Pattern(n, [q])) == AlphaPow(8 * (n - 1 - q / 8) + 7 - q % 8)
    ensures Residue(Pattern(n, [q])) != 0
  {
    assert [q][..0] == [];
    XorZero(Mask(q % 8));
    assert Pattern(n, [q]) == Zeros(n)[q / 8 := Mask(q % 8)];
    ResidueOfOneByte(n, q / 8, Mask(q % 8));
    ByteTermsMask(q % 8, 8 * (n - 1 - q / 8), 8);
    AlphaPowNonZero(8 * (n - 1 - q / 8) + 7 - q % 8);
  }
}
