/**
  Framing and repair: what the second loop of `Decoder::decode` makes of
  one candidate length L. The frame is the first L bytes of the
  demodulated stream with its two check bytes inverted; a zero syndrome
  means the frame is valid, a non-zero syndrome found in the table for L
  names the error pattern to XOR away, and anything else yields nothing.
*/
module Framing {
  import opened Wrappers
  import opened Bits
  import opened Gf2
  import opened ByteOps
  import opened Crc
  import opened Tables
  import opened TableFacts

  /** Three bytes of payload and two check bytes. */
  const MinimumSize: nat := 5

  /** A payload handed to classification (`RepairedTelegram`): the frame without its check bytes. */
  datatype Repaired = Repaired(data: seq<byte>, bitsRepaired: nat)

  /** A table fit for frames of length L: every entry is an L-byte pattern filed under its own syndrome. */
  predicate Filed(t: Table, L: nat) {
    forall v :: v in t ==> |t[v]| == L && Residue(t[v]) == v
  }

  /** The tables `Decoder::new` builds are fit for their length (which makes both `assert_eq!` of the repair hold). */
  lemma BuiltTableFiled(len: nat, disableErrorCorrection: bool)
    requires BuiltTable(len, disableErrorCorrection).Some?
    ensures Filed(BuiltTable(len, disableErrorCorrection).value, len)
  {
    if !disableErrorCorrection {
      var t := BuiltTable(len, false).value;
      forall v | v in t ensures |t[v]| == len && Residue(t[v]) == v {
        BuiltTableEntry(len, t, v);
      }
    }
  }

  /** The mask that inverts the last two bytes of an L-byte frame. */
  function Trailer(L: nat): (r: seq<byte>)
    requires 2 <= L
    ensures |r| == L
  {
    Zeros(L - 2) + [0xff, 0xff]
  }

  /** The frame of length L: the first L bytes with both check bytes XORed with 0xff. */
  function Framed(bytes: seq<byte>, L: nat): (r: seq<byte>)
    requires 2 <= L <= |bytes|
    ensures |r| == L
  {
    XorBytes(bytes[..L], Trailer(L))
  }

  /** The payload bytes pass through unchanged and the two check bytes are inverted. */
  lemma FramedBytes(bytes: seq<byte>, L: nat)
    requires 2 <= L <= |bytes|
    ensures forall k :: 0 <= k < L - 2 ==> Framed(bytes, L)[k] == bytes[k]
    ensures Framed(bytes, L)[L - 2] == XorByte(bytes[L - 2], 0xff)
    ensures Framed(bytes, L)[L - 1] == XorByte(bytes[L - 1], 0xff)
  {
    forall k | 0 <= k < L - 2 ensures XorByte(bytes[k], 0) == bytes[k] {
      XorZero(bytes[k]);
    }
  }

  /** The frame the decoder keeps: f itself when its syndrome is 0 or unknown, f repaired with the table entry otherwise. */
  function RepairedFrame(f: seq<byte>, t: Table): (r: seq<byte>)
    requires Filed(t, |f|)
    ensures |r| == |f|
  {
    if Residue(f) == 0 || Residue(f) !in t then f else XorBytes(f, t[Residue(f)])
  }

  /** What the decoder makes of candidate length L (one iteration of the framer loop). */
  function Candidate(bytes: seq<byte>, L: nat, t: Table): (r: Option<Repaired>)
    requires MinimumSize <= L <= |bytes| && Filed(t, L)
    ensures r.Some? ==> |r.value.data| == L - 2
  {
    var f := Framed(bytes, L);
    var rem := Residue(f);
    if rem == 0 then Some(Repaired(f[..L - 2], 0))
    else if rem in t then
      var error := t[rem];
      Some(Repaired(XorBytes(f, error)[..L - 2], PopCount(error)))
    else None
  }

  /** XORing a buffer with a changed copy of itself gives the change. */
  lemma XorBytesDiff(f: seq<byte>, e: seq<byte>)
    requires |f| == |e|
    ensures XorBytes(f, XorBytes(f, e)) == e
  {
    XorBytesComm(f, XorBytes(f, e));
    XorBytesSwap(f, e, f);
    XorBytesComm(f, f);
    XorBytesTwice(e, f);
    assert XorBytes(f, f) == Zeros(|f|) by {
      forall k | 0 <= k < |f| ensures XorByte(f[k], f[k]) == 0 {
        XorSelf(f[k]);
      }
    }
    XorBytesComm(e, Zeros(|f|));
    XorBytesZeros(e);
  }

  /**
    A candidate exists exactly when the syndrome is 0 or in the table. Its
    payload is the repaired frame without its check bytes, L - 2 bytes; the
    repaired frame has syndrome 0 (the second `assert_eq!`); and the repaired
    count is the number of bits the repair changed, 0 for a valid frame.
  */
  lemma CandidateSpec(bytes: seq<byte>, L: nat, t: Table)
    requires MinimumSize <= L <= |bytes| && Filed(t, L)
    ensures Candidate(bytes, L, t).Some? <==> Residue(Framed(bytes, L)) == 0 || Residue(Framed(bytes, L)) in t
    ensures Candidate(bytes, L, t).Some? ==>
      var c, g := Candidate(bytes, L, t).value, RepairedFrame(Framed(bytes, L), t);
      |c.data| == L - 2 && c.data == g[..L - 2] && Residue(g) == 0 &&
      c.bitsRepaired == PopCount(XorBytes(Framed(bytes, L), g))
    ensures Residue(Framed(bytes, L)) == 0 ==> Candidate(bytes, L, t) == Some(Repaired(Framed(bytes, L)[..L - 2], 0))
  {
    var f := Framed(bytes, L);
    var rem := Residue(f);
    if rem == 0 {
      assert XorBytes(f, f) == Zeros(L) by {
        forall k | 0 <= k < L ensures XorByte(f[k], f[k]) == 0 {
          XorSelf(f[k]);
        }
      }
      PopCountZeros(L);
    } else if rem in t {
      RepairChecks(f, t);
      XorBytesDiff(f, t[rem]);
    }
  }

  /** XORing a frame with the entry filed under its syndrome leaves syndrome 0 (the second `assert_eq!`). */
  lemma RepairChecks(f: seq<byte>, t: Table)
    requires Filed(t, |f|) && Residue(f) in t
    ensures Residue(XorBytes(f, t[Residue(f)])) == 0
  {
    ResidueLinear(f, t[Residue(f)]);
    AddSelf(Residue(f));
  }

  /** With a table from `Decoder::new`, a repaired count is at most 3, and non-zero exactly when the frame needed repair. */
  lemma CandidateCount(bytes: seq<byte>, L: nat, t: Table)
    requires MinimumSize <= L <= |bytes| && BuiltTable(L, false) == Some(t)
    ensures Filed(t, L)
    ensures Candidate(bytes, L, t).Some? ==>
      Candidate(bytes, L, t).value.bitsRepaired <= 3 &&
      (Candidate(bytes, L, t).value.bitsRepaired == 0 <==> Residue(Framed(bytes, L)) == 0)
  {
    BuiltTableFiled(L, false);
    var rem := Residue(Framed(bytes, L));
    if rem != 0 && rem in t {
      BuiltTableEntry(L, t, rem);
    }
  }

  // ---------------------------------------------------------------------
  // Correction

  /** A frame as sent: its check bytes, inverted, make its syndrome 0. */
  predicate ValidFrame(sent: seq<byte>) {
    2 <= |sent| && Residue(Framed(sent, |sent|)) == 0
  }

  /** A valid frame at the head of the stream yields its payload, with nothing repaired. */
  lemma ValidFrameAccepted(bytes: seq<byte>, L: nat, t: Table)
    requires MinimumSize <= L <= |bytes| && Filed(t, L) && ValidFrame(bytes[..L])
    ensures Candidate(bytes, L, t) == Some(Repaired(bytes[..L - 2], 0))
  {
    assert bytes[..L][..L] == bytes[..L];
    assert Framed(bytes[..L], L) == Framed(bytes, L);
    FramedBytes(bytes, L);
    assert Framed(bytes, L)[..L - 2] == bytes[..L - 2];
  }

  /** The error on the received bytes is the error on the frame. */
  lemma FramedError(sent: seq<byte>, bytes: seq<byte>, L: nat, e: seq<byte>)
    requires 2 <= L <= |bytes| && |sent| == L && |e| == L
    requires bytes[..L] == XorBytes(sent, e)
    ensures Framed(bytes, L) == XorBytes(Framed(sent, L), e)
  {
    assert sent[..L] == sent;
    XorBytesSwap(sent, e, Trailer(L));
  }

  /** Repairing the error restores the sent payload. */
  lemma ErrorUndone(sent: seq<byte>, L: nat, e: seq<byte>)
    requires 2 <= L && |sent| == L && |e| == L
    ensures XorBytes(XorBytes(Framed(sent, L), e), e)[..L - 2] == sent[..L - 2]
  {
    XorBytesTwice(Framed(sent, L), e);
    FramedBytes(sent, L);
    assert Framed(sent, L)[..L - 2] == sent[..L - 2];
  }

  /**
    A valid frame received with the error e, whose non-zero syndrome the
    table files under e itself, yields the sent payload with |e| bits
    counted as repaired.
  */
  lemma PatternRepaired(sent: seq<byte>, bytes: seq<byte>, L: nat, t: Table, e: seq<byte>)
    requires MinimumSize <= L <= |bytes| && Filed(t, L)
    requires |sent| == L && ValidFrame(sent) && |e| == L
    requires bytes[..L] == XorBytes(sent, e)
    requires Residue(e) != 0 && Residue(e) in t && t[Residue(e)] == e
    ensures Candidate(bytes, L, t) == Some(Repaired(sent[..L - 2], PopCount(e)))
  {
    var s := Framed(sent, L);
    FramedError(sent, bytes, L, e);
    ResidueLinear(s, e);
    AddZero(Residue(e));
    assert Residue(Framed(bytes, L)) == Residue(e);
    ErrorUndone(sent, L, e);
  }

  /** Any single flipped bit in a valid frame is repaired. */
  lemma SingleBitRepaired(sent: seq<byte>, bytes: seq<byte>, L: nat, t: Table, q: nat)
    requires MinimumSize <= L <= |bytes| && BuiltTable(L, false) == Some(t)
    requires |sent| == L && ValidFrame(sent) && q < 8 * L
    requires bytes[..L] == XorBytes(sent, Pattern(L, [q]))
    ensures Filed(t, L)
    ensures Candidate(bytes, L, t) == Some(Repaired(sent[..L - 2], 1))
  {
    BuiltTableFiled(L, false);
    SingleBitSyndrome(L, q);
    SingleCorrected(L, t, q);
    PatternBits(L, [q]);
    PatternRepaired(sent, bytes, L, t, Pattern(L, [q]));
  }

  /** Two distinct single-bit patterns have distinct syndromes once the table for their length is built. */
  lemma PairSyndromeNonZero(L: nat, t: Table, a: nat, b: nat)
    requires BuiltTable(L, false) == Some(t) && a < b < 8 * L
    ensures Residue(Pattern(L, [a, b])) != 0
  {
    var pa, pb := Pattern(L, [a]), Pattern(L, [b]);
    PairIsXor(L, a, b);
    ResidueLinear(pa, pb);
    SingleCorrected(L, t, a);
    SingleCorrected(L, t, b);
    SinglesDiffer(L, a, b);
    if Residue(Pattern(L, [a, b])) == 0 {
      AddZeroEqual(Residue(pa), Residue(pb));
      assert false;
    }
  }

  /** Any two flipped bits in a valid frame are repaired. */
  lemma TwoBitsRepaired(sent: seq<byte>, bytes: seq<byte>, L: nat, t: Table, a: nat, b: nat)
    requires MinimumSize <= L <= |bytes| && BuiltTable(L, false) == Some(t)
    requires |sent| == L && ValidFrame(sent) && a < b < 8 * L
    requires bytes[..L] == XorBytes(sent, Pattern(L, [a, b]))
    ensures Filed(t, L)
    ensures Candidate(bytes, L, t) == Some(Repaired(sent[..L - 2], 2))
  {
    BuiltTableFiled(L, false);
    PairSyndromeNonZero(L, t, a, b);
    PairCorrected(L, t, a, b);
    PairWeight(L, a, b);
    PatternRepaired(sent, bytes, L, t, Pattern(L, [a, b]));
  }

  /** Once the table for their length is built, no three flipped bits have syndrome 0: a pair and a single bit never share a syndrome. */
  lemma TripleSyndromeNonZero(L: nat, t: Table, a: nat, b: nat, c: nat)
    requires BuiltTable(L, false) == Some(t) && a < b < c < 8 * L
    ensures Residue(Pattern(L, [a, b, c])) != 0
  {
    var pab, pc := Pattern(L, [a, b]), Pattern(L, [c]);
    TripleIsXor(L, a, b, c);
    ResidueLinear(pab, pc);
    PairCorrected(L, t, a, b);
    SingleCorrected(L, t, c);
    PairWeight(L, a, b);
    PatternBits(L, [c]);
    if Residue(Pattern(L, [a, b, c])) == 0 {
      AddZeroEqual(Residue(pab), Residue(pc));
      assert false;
    }
  }

  /**
    Three flipped bits in a valid frame are repaired when the lower tiers
    leave their syndrome free and no other triple shares it.
  */
  lemma ThreeBitsRepaired(sent: seq<byte>, bytes: seq<byte>, L: nat, t: Table, a: nat, b: nat, c: nat)
    requires MinimumSize <= L <= |bytes| && BuiltTable(L, false) == Some(t) && L < ThreeBitLimit
    requires |sent| == L && ValidFrame(sent) && a < b < c < 8 * L
    requires bytes[..L] == XorBytes(sent, Pattern(L, [a, b, c]))
    requires Residue(Pattern(L, [a, b, c])) !in InsertAll(Some(map[]), LowWeight(L)).value
    requires Count(ThreeBit(L), Residue(Pattern(L, [a, b, c]))) == 1
    ensures Filed(t, L)
    ensures Candidate(bytes, L, t) == Some(Repaired(sent[..L - 2], 3))
  {
    BuiltTableFiled(L, false);
    TripleSyndromeNonZero(L, t, a, b, c);
    ThreeBitCorrected(L, t, a, b, c);
    TripleWeight(L, a, b, c);
    PatternRepaired(sent, bytes, L, t, Pattern(L, [a, b, c]));
  }

  /** Moving the error d XOR e from a valid frame to another frame keeps it valid when d and e share a syndrome. */
  lemma SameSyndromeValid(sent: seq<byte>, d: seq<byte>, e: seq<byte>)
    requires ValidFrame(sent) && |d| == |sent| && |e| == |sent|
    requires Residue(d) == Residue(e)
    ensures ValidFrame(XorBytes(sent, XorBytes(d, e)))
  {
    var L, x := |sent|, XorBytes(d, e);
    var other := XorBytes(sent, x);
    assert other[..L] == other;
    FramedError(sent, other, L, x);
    ResidueLinear(Framed(sent, L), x);
    ResidueLinear(d, e);
    AddSelf(Residue(e));
    AddZero(0);
  }

  /**
    An error e with the syndrome of two flipped bits a, b is repaired as
    those two bits, whatever e is: the payload handed on is that of the
    frame sent XOR e XOR the pair, which is the sent payload only when e is
    that pair.
  */
  lemma PairMiscorrects(sent: seq<byte>, bytes: seq<byte>, L: nat, t: Table, e: seq<byte>, a: nat, b: nat)
    requires MinimumSize <= L <= |bytes| && BuiltTable(L, false) == Some(t)
    requires |sent| == L && ValidFrame(sent) && |e| == L && a < b < 8 * L
    requires bytes[..L] == XorBytes(sent, e)
    requires Residue(e) == Residue(Pattern(L, [a, b]))
    ensures Filed(t, L)
    ensures Candidate(bytes, L, t) == Some(Repaired(XorBytes(sent, XorBytes(e, Pattern(L, [a, b])))[..L - 2], 2))
  {
    var p := Pattern(L, [a, b]);
    var other := XorBytes(sent, XorBytes(e, p));
    XorBytesShift(sent, e, p);
    SameSyndromeValid(sent, e, p);
    TwoBitsRepaired(other, bytes, L, t, a, b);
  }
}
