/**
  Byte buffers viewed as bit strings. Bit position q of a buffer is bit
  q % 8 of byte q / 8; a buffer of n bytes has positions 0 .. 8n-1. Error
  patterns are all-zero buffers with a few such positions flipped.
*/
module ByteOps {
  import opened Bits

  /** The all-zero buffer (`vec![0u8; n]`). */
  function Zeros(n: nat): (r: seq<byte>)
    ensures |r| == n
    ensures forall k :: 0 <= k < n ==> r[k] == 0
  {
    seq(n, _ => 0)
  }

  /** Byte-wise XOR of two buffers of equal length. */
  function XorBytes(a: seq<byte>, b: seq<byte>): (r: seq<byte>)
    requires |a| == |b|
    ensures |r| == |a|
    ensures forall k :: 0 <= k < |a| ==> r[k] == XorByte(a[k], b[k])
  {
    seq(|a|, k requires 0 <= k < |a| => XorByte(a[k], b[k]))
  }

  /** XOR with the same pattern twice restores the buffer. */
  lemma XorBytesTwice(a: seq<byte>, e: seq<byte>)
    requires |a| == |e|
    ensures XorBytes(XorBytes(a, e), e) == a
  {
    forall k | 0 <= k < |a| ensures XorByte(XorByte(a[k], e[k]), e[k]) == a[k] {
      XorAssoc(a[k], e[k], e[k]);
      XorSelf(e[k]);
      XorZero(a[k]);
    }
    assert XorBytes(XorBytes(a, e), e) == a;
  }

  /** XOR with the all-zero buffer changes nothing. */
  lemma XorBytesZeros(a: seq<byte>)
    ensures XorBytes(a, Zeros(|a|)) == a
  {
    forall k | 0 <= k < |a| ensures XorByte(a[k], 0) == a[k] {
      XorZero(a[k]);
    }
    assert XorBytes(a, Zeros(|a|)) == a;
  }

  /** XOR is commutative on buffers. */
  lemma XorBytesComm(a: seq<byte>, b: seq<byte>)
    requires |a| == |b|
    ensures XorBytes(a, b) == XorBytes(b, a)
  {
    forall k | 0 <= k < |a| ensures XorByte(a[k], b[k]) == XorByte(b[k], a[k]) {
      XorComm(a[k], b[k]);
    }
    assert XorBytes(a, b) == XorBytes(b, a);
  }

  /** Two XORs applied to a buffer can be swapped. */
  lemma XorBytesSwap(a: seq<byte>, b: seq<byte>, c: seq<byte>)
    requires |a| == |b| == |c|
    ensures XorBytes(XorBytes(a, b), c) == XorBytes(XorBytes(a, c), b)
  {
    forall k | 0 <= k < |a| ensures XorByte(XorByte(a[k], b[k]), c[k]) == XorByte(XorByte(a[k], c[k]), b[k]) {
      XorAssoc(a[k], b[k], c[k]);
      XorComm(b[k], c[k]);
      XorAssoc(a[k], c[k], b[k]);
    }
    assert XorBytes(XorBytes(a, b), c) == XorBytes(XorBytes(a, c), b);
  }

  /** XORing a buffer with e XOR p and then with p is XORing it with e. */
  lemma XorBytesShift(a: seq<byte>, e: seq<byte>, p: seq<byte>)
    requires |a| == |e| == |p|
    ensures XorBytes(XorBytes(a, XorBytes(e, p)), p) == XorBytes(a, e)
  {
    forall k | 0 <= k < |a| ensures XorByte(XorByte(a[k], XorByte(e[k], p[k])), p[k]) == XorByte(a[k], e[k]) {
      XorAssoc(a[k], e[k], p[k]);
      XorAssoc(XorByte(a[k], e[k]), p[k], p[k]);
      XorSelf(p[k]);
      XorZero(XorByte(a[k], e[k]));
    }
    assert XorBytes(XorBytes(a, XorBytes(e, p)), p) == XorBytes(a, e);
  }

  /** `count_ones` of a byte. */
  function ByteCount(b: byte): (r: nat)
    ensures r <= 8
  {
    Pop(b, 8)
  }

  /** The number of set bits of a buffer (the sum of `count_ones` over its bytes). */
  function PopCount(d: seq<byte>): (r: nat)
    ensures r <= 8 * |d|
  {
    if |d| == 0 then 0 else ByteCount(d[0]) + PopCount(d[1..])
  }

  /** Replacing one byte changes the count by the difference of the two bytes' counts. */
  lemma {:induction false} PopCountUpdate(d: seq<byte>, k: nat, b: byte)
    requires k < |d|
    ensures PopCount(d[k := b]) == PopCount(d) - ByteCount(d[k]) + ByteCount(b)
  {
    if k > 0 {
      PopCountUpdate(d[1..], k - 1, b);
      assert d[k := b][1..] == d[1..][k - 1 := b];
    } else {
      assert d[k := b][1..] == d[1..];
    }
  }

  lemma {:induction false} PopCountZeros(n: nat)
    ensures PopCount(Zeros(n)) == 0
  {
    if n > 0 {
      assert Zeros(n)[1..] == Zeros(n - 1);
      PopCountZeros(n - 1);
    }
  }

  /** Bit position q of a buffer is set. */
  predicate BitAt(d: seq<byte>, q: nat)
    requires q < 8 * |d|
  {
    Bit(d[q / 8], q % 8)
  }

  /** Flip bit position q: `data[q / 8] ^= 1 << (q % 8)`. */
  function Flip(d: seq<byte>, q: nat): (r: seq<byte>)
    requires q < 8 * |d|
    ensures |r| == |d|
  {
    d[q / 8 := XorByte(d[q / 8], Mask(q % 8))]
  }

  lemma FlipBitAt(d: seq<byte>, q: nat, p: nat)
    requires q < 8 * |d| && p < 8 * |d|
    ensures BitAt(Flip(d, q), p) == (BitAt(d, p) != (p == q))
  {
    if p / 8 == q / 8 {
      BitXor(d[q / 8], Mask(q % 8), p % 8);
      BitPow2(q % 8, p % 8);
    }
  }

  /** Flipping a bit is XOR with the single-bit pattern of that position. */
  lemma FlipIsXor(d: seq<byte>, q: nat)
    requires q < 8 * |d|
    ensures Flip(d, q) == XorBytes(d, Flip(Zeros(|d|), q))
  {
    var e := Flip(Zeros(|d|), q);
    forall k | 0 <= k < |d| ensures Flip(d, q)[k] == XorByte(d[k], e[k]) {
      XorZero(d[k]);
      XorZero(Mask(q % 8));
    }
    assert Flip(d, q) == XorBytes(d, e);
  }

  lemma PopCountFlip(d: seq<byte>, q: nat)
    requires q < 8 * |d| && !BitAt(d, q)
    ensures PopCount(Flip(d, q)) == PopCount(d) + 1
  {
    PopCountUpdate(d, q / 8, XorByte(d[q / 8], Mask(q % 8)));
    PopFlip(d[q / 8], q % 8, 8);
  }

  /** Every position of t is a bit position of an n-byte buffer, and no position repeats. */
  predicate DistinctPositions(n: nat, t: seq<nat>) {
    (forall k :: 0 <= k < |t| ==> t[k] < 8 * n) &&
    (forall a, b :: 0 <= a < b < |t| ==> t[a] != t[b])
  }

  /** The n-byte error pattern with the positions t flipped, in order (positions past the buffer are skipped). */
  function Pattern(n: nat, t: seq<nat>): (r: seq<byte>)
    ensures |r| == n
  {
    if |t| == 0 then Zeros(n)
    else if t[|t| - 1] < 8 * n then Flip(Pattern(n, t[..|t| - 1]), t[|t| - 1])
    else Pattern(n, t[..|t| - 1])
  }

  /** A pattern of distinct positions has exactly those positions set, and so |t| set bits. */
  lemma {:induction false} PatternBits(n: nat, t: seq<nat>)
    requires DistinctPositions(n, t)
    ensures forall q :: 0 <= q < 8 * n ==> (BitAt(Pattern(n, t), q) <==> q in t)
    ensures PopCount(Pattern(n, t)) == |t|
  {
    if |t| == 0 {
      PopCountZeros(n);
      forall q | 0 <= q < 8 * n ensures !BitAt(Zeros(n), q) {
        BitOfZero(q % 8);
      }
    } else {
      var init, last := t[..|t| - 1], t[|t| - 1];
      assert DistinctPositions(n, init);
      PatternBits(n, init);
      var p := Pattern(n, init);
      assert last !in init;
      forall q | 0 <= q < 8 * n ensures BitAt(Pattern(n, t), q) <==> q in t {
        FlipBitAt(p, last, q);
        assert q in t <==> q in init || q == last;
      }
      PopCountFlip(p, last);
    }
  }

  /** A two-bit pattern is the XOR of its two single-bit patterns. */
  lemma PairIsXor(n: nat, a: nat, b: nat)
    requires a < 8 * n && b < 8 * n
    ensures Pattern(n, [a, b]) == XorBytes(Pattern(n, [a]), Pattern(n, [b]))
  {
    assert [a, b][..1] == [a];
    assert [b][..0] == [];
    assert Pattern(n, [b]) == Flip(Zeros(n), b);
    FlipIsXor(Pattern(n, [a]), b);
  }

  /** A three-bit pattern is its first two bits XOR its third. */
  lemma TripleIsXor(n: nat, a: nat, b: nat, c: nat)
    requires a < 8 * n && b < 8 * n && c < 8 * n
    ensures Pattern(n, [a, b, c]) == XorBytes(Pattern(n, [a, b]), Pattern(n, [c]))
  {
    assert [a, b, c][..2] == [a, b];
    assert [c][..0] == [];
    assert Pattern(n, [c]) == Flip(Zeros(n), c);
    FlipIsXor(Pattern(n, [a, b]), c);
  }

  /** Single-bit patterns at different positions differ. */
  lemma SinglesDiffer(n: nat, a: nat, b: nat)
    requires a < 8 * n && b < 8 * n && a != b
    ensures Pattern(n, [a]) != Pattern(n, [b])
  {
    PatternBits(n, [a]);
    PatternBits(n, [b]);
    assert BitAt(Pattern(n, [a]), a) && !BitAt(Pattern(n, [b]), a);
  }

  /** A two-bit pattern has two bits set. */
  lemma PairWeight(n: nat, a: nat, b: nat)
    requires a < b < 8 * n
    ensures PopCount(Pattern(n, [a, b])) == 2
  {
    assert DistinctPositions(n, [a, b]);
    PatternBits(n, [a, b]);
  }

  /** A three-bit pattern has three bits set. */
  lemma TripleWeight(n: nat, a: nat, b: nat, c: nat)
    requires a < b < c < 8 * n
    ensures PopCount(Pattern(n, [a, b, c])) == 3
  {
    assert DistinctPositions(n, [a, b, c]);
    PatternBits(n, [a, b, c]);
  }
}
