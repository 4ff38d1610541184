/**
  Bit demodulation: the first loop of `Decoder::decode` and
  `Decoder::bit_to_bytes`. The radio front end delivers one value per bit,
  zero or non-zero; every group of nine carries one byte, least significant
  bit first, followed by one bit the decoder ignores.
*/
module Demod {
  import opened Bits

  /** The decoder never looks at more than 21 bytes. */
  const MaximumSize: nat := 21

  /** The value of the first k bits of a group, bit b weighted 2^b. */
  function Pack(data: seq<byte>, k: nat): (r: nat)
    requires k <= |data|
  {
    if k == 0 then 0 else Pack(data, k - 1) + (if data[k - 1] > 0 then Pow2(k - 1) else 0)
  }

  /** The byte a group of bit values stands for; 0 unless there are exactly 8 of them. */
  function ByteOfBits(data: seq<byte>): (r: byte) {
    if |data| != 8 then 0
    else
      PackBits(data, 8);
      Pow2Values();
      Pack(data, 8)
  }

  /** Adding 2^k to a value below 2^k sets bit k and keeps the others. */
  lemma {:induction false} BitAddPow2(x: nat, k: nat, s: nat)
    requires x < Pow2(k)
    ensures Bit(x + Pow2(k), s) == (s == k || Bit(x, s))
  {
    if k == 0 {
      BitPow2(0, s);
      BitOfZero(s);
    } else if s > 0 {
      assert Pow2(k) == 2 * Pow2(k - 1);
      assert (x + Pow2(k)) / 2 == x / 2 + Pow2(k - 1);
      BitAddPow2(x / 2, k - 1, s - 1);
    } else {
      assert (x + Pow2(k)) % 2 == x % 2;
    }
  }

  /** Bit b of the packed value is set exactly when b < k and entry b is non-zero. */
  lemma {:induction false} PackBits(data: seq<byte>, k: nat)
    requires k <= |data|
    ensures Pack(data, k) < Pow2(k)
    ensures forall s: nat :: Bit(Pack(data, k), s) <==> s < k && data[s] > 0
  {
    if k == 0 {
      forall s: nat ensures !Bit(0, s) {
        BitOfZero(s);
      }
    } else {
      PackBits(data, k - 1);
      var x := Pack(data, k - 1);
      forall s: nat ensures Bit(Pack(data, k), s) <==> s < k && data[s] > 0 {
        if data[k - 1] > 0 {
          BitAddPow2(x, k - 1, s);
        }
      }
    }
  }

  /** `bit_to_bytes`'s result, bit by bit. */
  lemma ByteOfBitsBits(data: seq<byte>)
    requires |data| == 8
    ensures forall b :: 0 <= b < 8 ==> (Bit(ByteOfBits(data), b) <==> data[b] > 0)
  {
    PackBits(data, 8);
  }

  /** `bit_to_bytes`: 0 unless exactly 8 values, else `byte_value += 1 << bit` for each non-zero one. */
  method BitToBytes(data: seq<byte>) returns (r: byte)
    ensures r == ByteOfBits(data)
  {
    if |data| != 8 {
      return 0;
    }
    var byteValue: nat := 0;
    for bit := 0 to 8
      invariant byteValue == Pack(data, bit)
    {
      if data[bit] > 0 {
        byteValue := byteValue + Mask(bit);
      }
    }
    ByteOfBitsBits(data);
    r := byteValue;
  }

  function Min(a: nat, b: nat): nat {
    if a < b then a else b
  }

  /** The bytes demodulated from a bit stream: one per complete group of nine, at most 21. */
  function Demodulated(bits: seq<byte>): (r: seq<byte>)
    ensures |r| == Min(MaximumSize, |bits| / 9)
  {
    seq(Min(MaximumSize, |bits| / 9), i requires 0 <= i < Min(MaximumSize, |bits| / 9) =>
      ByteOfBits(bits[9 * i .. 9 * i + 8]))
  }

  /** The first loop of `decode`: stop at 21 bytes or before an incomplete group. */
  method Demodulate(bits: seq<byte>) returns (byteArray: seq<byte>)
    ensures byteArray == Demodulated(bits)
  {
    byteArray := [];
    var i := 0;
    while i < MaximumSize
      invariant 0 <= i <= MaximumSize
      invariant i <= Min(MaximumSize, |bits| / 9)
      invariant byteArray == Demodulated(bits)[..i]
    {
      if (i + 1) * 9 - 1 >= |bits| {
        break;
      }
      var b := BitToBytes(bits[i * 9 .. (i + 1) * 9 - 1]);
      byteArray := byteArray + [b];
      i := i + 1;
    }
  }

  /** Byte i of the demodulated stream has bit b set exactly when input bit 9i + b is non-zero. */
  lemma DemodulatedBits(bits: seq<byte>, i: nat, b: nat)
    requires i < |Demodulated(bits)| && b < 8
    ensures Bit(Demodulated(bits)[i], b) <==> bits[9 * i + b] > 0
  {
    assert i < |bits| / 9;
    assert 9 * i + 9 <= |bits|;
    var group := bits[9 * i .. 9 * i + 8];
    ByteOfBitsBits(group);
    assert Demodulated(bits)[i] == ByteOfBits(group);
    assert group[b] == bits[9 * i + b];
  }

  /** The ninth bit of each group, and any bit past 21 groups, does not influence the result. */
  lemma SeparatorIgnored(bits: seq<byte>, other: seq<byte>)
    requires |bits| == |other|
    requires forall p :: 0 <= p < |bits| && p % 9 != 8 && p < 9 * MaximumSize ==> bits[p] == other[p]
    ensures Demodulated(bits) == Demodulated(other)
  {
    var r, s := Demodulated(bits), Demodulated(other);
    forall i | 0 <= i < |r| ensures r[i] == s[i] {
      assert bits[9 * i .. 9 * i + 8] == other[9 * i .. 9 * i + 8] by {
        forall p | 9 * i <= p < 9 * i + 8 ensures bits[p] == other[p] {
          assert p % 9 == p - 9 * i;
        }
      }
    }
  }
}
