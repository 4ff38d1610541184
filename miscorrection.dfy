/**
  A three-bit error that the repair tiers mend into a wrong payload. The
  generator divides x^30 + x^22 + x^17 + x^14 + 1, so in an 11-byte frame
  (the length of an R09 telegram) the three flipped bits 57, 65 and 70
  have the syndrome of the two bits 73 and 87. The two-bit tier files that
  syndrome under the pair, so the frame is "repaired" by flipping two more
  bits, its residue is then 0, and a payload that was never sent goes on
  to classification as checked.
*/
module Miscorrection {
  import opened Wrappers
  import opened Bits
  import opened Gf2
  import opened ByteOps
  import opened Crc
  import opened Tables
  import opened Framing

  /** Up to ALPHA^15 the powers of ALPHA are the monomials x^p: nothing is reduced. */
  lemma AlphaTo15()
    ensures AlphaPow(14) == 0x4000 && AlphaPow(15) == 0x8000
  {
    assert AlphaPow(1) == MulAlpha(0x1) == 0x2;
    assert AlphaPow(2) == MulAlpha(0x2) == 0x4;
    assert AlphaPow(3) == MulAlpha(0x4) == 0x8;
    assert AlphaPow(4) == MulAlpha(0x8) == 0x10;
    assert AlphaPow(5) == MulAlpha(0x10) == 0x20;
    assert AlphaPow(6) == MulAlpha(0x20) == 0x40;
    assert AlphaPow(7) == MulAlpha(0x40) == 0x80;
    assert AlphaPow(8) == MulAlpha(0x80) == 0x100;
    assert AlphaPow(9) == MulAlpha(0x100) == 0x200;
    assert AlphaPow(10) == MulAlpha(0x200) == 0x400;
    assert AlphaPow(11) == MulAlpha(0x400) == 0x800;
    assert AlphaPow(12) == MulAlpha(0x800) == 0x1000;
    assert AlphaPow(13) == MulAlpha(0x1000) == 0x2000;
    assert AlphaPow(14) == MulAlpha(0x2000) == 0x4000;
    assert AlphaPow(15) == MulAlpha(0x4000) == 0x8000;
  }

  lemma AlphaTo16()
    ensures AlphaPow(16) == 0x6f63
  {
    AlphaTo15();
    XorStep(0x0, 0x0, 0x0, 1, 1);
    XorStep(0x1, 0x1, 0x0, 0, 0);
    XorStep(0x2, 0x2, 0x0, 0, 1);
    XorStep(0x4, 0x5, 0x1, 0, 1);
    XorStep(0x8, 0xb, 0x3, 0, 0);
    XorStep(0x10, 0x16, 0x6, 0, 1);
    XorStep(0x20, 0x2d, 0xd, 0, 1);
    XorStep(0x40, 0x5b, 0x1b, 0, 1);
    XorStep(0x80, 0xb7, 0x37, 0, 1);
    XorStep(0x100, 0x16f, 0x6f, 0, 0);
    XorStep(0x200, 0x2de, 0xde, 0, 1);
    XorStep(0x400, 0x5bd, 0x1bd, 0, 1);
    XorStep(0x800, 0xb7b, 0x37b, 0, 0);
    XorStep(0x1000, 0x16f6, 0x6f6, 0, 0);
    XorStep(0x2000, 0x2dec, 0xdec, 0, 0);
    XorStep(0x4000, 0x5bd8, 0x1bd8, 0, 1);
    XorStep(0x8000, 0xb7b1, 0x37b1, 0, 1);
    assert AlphaPow(16) == MulAlpha(0x8000) == Xor(0x10000, Generator);
  }

  lemma AlphaTo17()
    ensures AlphaPow(17) == 0xdec6
  {
    AlphaTo16();
    assert AlphaPow(17) == MulAlpha(0x6f63);
  }

  lemma AlphaTo18()
    ensures AlphaPow(18) == 0xd2ef
  {
    AlphaTo17();
    XorStep(0x0, 0x0, 0x0, 1, 1);
    XorStep(0x1, 0x1, 0x0, 1, 0);
    XorStep(0x3, 0x2, 0x1, 0, 1);
    XorStep(0x6, 0x5, 0x3, 1, 1);
    XorStep(0xd, 0xb, 0x6, 1, 0);
    XorStep(0x1b, 0x16, 0xd, 1, 1);
    XorStep(0x37, 0x2d, 0x1a, 1, 1);
    XorStep(0x6f, 0x5b, 0x34, 0, 1);
    XorStep(0xde, 0xb7, 0x69, 1, 1);
    XorStep(0x1bd, 0x16f, 0xd2, 1, 0);
    XorStep(0x37b, 0x2de, 0x1a5, 0, 1);
    XorStep(0x6f6, 0x5bd, 0x34b, 0, 1);
    XorStep(0xdec, 0xb7b, 0x697, 0, 0);
    XorStep(0x1bd8, 0x16f6, 0xd2e, 1, 0);
    XorStep(0x37b1, 0x2dec, 0x1a5d, 1, 0);
    XorStep(0x6f63, 0x5bd8, 0x34bb, 0, 1);
    XorStep(0xdec6, 0xb7b1, 0x6977, 0, 1);
    assert AlphaPow(18) == MulAlpha(0xdec6) == Xor(0x1bd8c, Generator);
  }

  lemma AlphaTo19()
    ensures AlphaPow(19) == 0xcabd
  {
    AlphaTo18();
    XorStep(0x0, 0x0, 0x0, 1, 1);
    XorStep(0x1, 0x1, 0x0, 1, 0);
    XorStep(0x3, 0x2, 0x1, 0, 1);
    XorStep(0x6, 0x5, 0x3, 1, 1);
    XorStep(0xd, 0xb, 0x6, 0, 0);
    XorStep(0x1a, 0x16, 0xc, 0, 1);
    XorStep(0x34, 0x2d, 0x19, 1, 1);
    XorStep(0x69, 0x5b, 0x32, 0, 1);
    XorStep(0xd2, 0xb7, 0x65, 1, 1);
    XorStep(0x1a5, 0x16f, 0xca, 1, 0);
    XorStep(0x34b, 0x2de, 0x195, 1, 1);
    XorStep(0x697, 0x5bd, 0x32a, 0, 1);
    XorStep(0xd2e, 0xb7b, 0x655, 1, 0);
    XorStep(0x1a5d, 0x16f6, 0xcab, 1, 0);
    XorStep(0x34bb, 0x2dec, 0x1957, 1, 0);
    XorStep(0x6977, 0x5bd8, 0x32af, 1, 1);
    XorStep(0xd2ef, 0xb7b1, 0x655e, 0, 1);
    assert AlphaPow(19) == MulAlpha(0xd2ef) == Xor(0x1a5de, Generator);
  }

  lemma AlphaTo20()
    ensures AlphaPow(20) == 0xfa19
  {
    AlphaTo19();
    XorStep(0x0, 0x0, 0x0, 1, 1);
    XorStep(0x1, 0x1, 0x0, 1, 0);
    XorStep(0x3, 0x2, 0x1, 0, 1);
    XorStep(0x6, 0x5, 0x3, 0, 1);
    XorStep(0xc, 0xb, 0x7, 1, 0);
    XorStep(0x19, 0x16, 0xf, 0, 1);
    XorStep(0x32, 0x2d, 0x1f, 1, 1);
    XorStep(0x65, 0x5b, 0x3e, 0, 1);
    XorStep(0xca, 0xb7, 0x7d, 1, 1);
    XorStep(0x195, 0x16f, 0xfa, 0, 0);
    XorStep(0x32a, 0x2de, 0x1f4, 1, 1);
    XorStep(0x655, 0x5bd, 0x3e8, 1, 1);
    XorStep(0xcab, 0xb7b, 0x7d0, 1, 0);
    XorStep(0x1957, 0x16f6, 0xfa1, 1, 0);
    XorStep(0x32af, 0x2dec, 0x1f43, 0, 0);
    XorStep(0x655e, 0x5bd8, 0x3e86, 1, 1);
    XorStep(0xcabd, 0xb7b1, 0x7d0c, 0, 1);
    assert AlphaPow(20) == MulAlpha(0xcabd) == Xor(0x1957a, Generator);
  }

  lemma AlphaTo21()
    ensures AlphaPow(21) == 0x9b51
  {
    AlphaTo20();
    XorStep(0x0, 0x0, 0x0, 1, 1);
    XorStep(0x1, 0x1, 0x0, 1, 0);
    XorStep(0x3, 0x2, 0x1, 1, 1);
    XorStep(0x7, 0x5, 0x2, 1, 1);
    XorStep(0xf, 0xb, 0x4, 1, 0);
    XorStep(0x1f, 0x16, 0x9, 0, 1);
    XorStep(0x3e, 0x2d, 0x13, 1, 1);
    XorStep(0x7d, 0x5b, 0x26, 0, 1);
    XorStep(0xfa, 0xb7, 0x4d, 0, 1);
    XorStep(0x1f4, 0x16f, 0x9b, 0, 0);
    XorStep(0x3e8, 0x2de, 0x136, 0, 1);
    XorStep(0x7d0, 0x5bd, 0x26d, 1, 1);
    XorStep(0xfa1, 0xb7b, 0x4da, 1, 0);
    XorStep(0x1f43, 0x16f6, 0x9b5, 0, 0);
    XorStep(0x3e86, 0x2dec, 0x136a, 0, 0);
    XorStep(0x7d0c, 0x5bd8, 0x26d4, 1, 1);
    XorStep(0xfa19, 0xb7b1, 0x4da8, 0, 1);
    assert AlphaPow(21) == MulAlpha(0xfa19) == Xor(0x1f432, Generator);
  }

  lemma AlphaTo22()
    ensures AlphaPow(22) == 0x59c1
  {
    AlphaTo21();
    XorStep(0x0, 0x0, 0x0, 1, 1);
    XorStep(0x1, 0x1, 0x0, 0, 0);
    XorStep(0x2, 0x2, 0x0, 0, 1);
    XorStep(0x4, 0x5, 0x1, 1, 1);
    XorStep(0x9, 0xb, 0x2, 1, 0);
    XorStep(0x13, 0x16, 0x5, 0, 1);
    XorStep(0x26, 0x2d, 0xb, 1, 1);
    XorStep(0x4d, 0x5b, 0x16, 1, 1);
    XorStep(0x9b, 0xb7, 0x2c, 0, 1);
    XorStep(0x136, 0x16f, 0x59, 1, 0);
    XorStep(0x26d, 0x2de, 0xb3, 0, 1);
    XorStep(0x4da, 0x5bd, 0x167, 1, 1);
    XorStep(0x9b5, 0xb7b, 0x2ce, 0, 0);
    XorStep(0x136a, 0x16f6, 0x59c, 0, 0);
    XorStep(0x26d4, 0x2dec, 0xb38, 0, 0);
    XorStep(0x4da8, 0x5bd8, 0x1670, 1, 1);
    XorStep(0x9b51, 0xb7b1, 0x2ce0, 0, 1);
    assert AlphaPow(22) == MulAlpha(0x9b51) == Xor(0x136a2, Generator);
  }

  lemma AlphaTo23()
    ensures AlphaPow(23) == 0xb382
  {
    AlphaTo22();
    assert AlphaPow(23) == MulAlpha(0x59c1);
  }

  lemma AlphaTo24()
    ensures AlphaPow(24) == 0x867
  {
    AlphaTo23();
    XorStep(0x0, 0x0, 0x0, 1, 1);
    XorStep(0x1, 0x1, 0x0, 0, 0);
    XorStep(0x2, 0x2, 0x0, 1, 1);
    XorStep(0x5, 0x5, 0x0, 1, 1);
    XorStep(0xb, 0xb, 0x0, 0, 0);
    XorStep(0x16, 0x16, 0x0, 0, 1);
    XorStep(0x2c, 0x2d, 0x1, 1, 1);
    XorStep(0x59, 0x5b, 0x2, 1, 1);
    XorStep(0xb3, 0xb7, 0x4, 1, 1);
    XorStep(0x167, 0x16f, 0x8, 0, 0);
    XorStep(0x2ce, 0x2de, 0x10, 0, 1);
    XorStep(0x59c, 0x5bd, 0x21, 0, 1);
    XorStep(0xb38, 0xb7b, 0x43, 0, 0);
    XorStep(0x1670, 0x16f6, 0x86, 0, 0);
    XorStep(0x2ce0, 0x2dec, 0x10c, 1, 0);
    XorStep(0x59c1, 0x5bd8, 0x219, 0, 1);
    XorStep(0xb382, 0xb7b1, 0x433, 0, 1);
    assert AlphaPow(24) == MulAlpha(0xb382) == Xor(0x16704, Generator);
  }

  lemma AlphaTo25()
    ensures AlphaPow(25) == 0x10ce
  {
    AlphaTo24();
    assert AlphaPow(25) == MulAlpha(0x867);
  }

  lemma AlphaTo26()
    ensures AlphaPow(26) == 0x219c
  {
    AlphaTo25();
    assert AlphaPow(26) == MulAlpha(0x10ce);
  }

  lemma AlphaTo27()
    ensures AlphaPow(27) == 0x4338
  {
    AlphaTo26();
    assert AlphaPow(27) == MulAlpha(0x219c);
  }

  lemma AlphaTo28()
    ensures AlphaPow(28) == 0x8670
  {
    AlphaTo27();
    assert AlphaPow(28) == MulAlpha(0x4338);
  }

  lemma AlphaTo29()
    ensures AlphaPow(29) == 0x6383
  {
    AlphaTo28();
    XorStep(0x0, 0x0, 0x0, 1, 1);
    XorStep(0x1, 0x1, 0x0, 0, 0);
    XorStep(0x2, 0x2, 0x0, 0, 1);
    XorStep(0x4, 0x5, 0x1, 0, 1);
    XorStep(0x8, 0xb, 0x3, 0, 0);
    XorStep(0x10, 0x16, 0x6, 1, 1);
    XorStep(0x21, 0x2d, 0xc, 1, 1);
    XorStep(0x43, 0x5b, 0x18, 0, 1);
    XorStep(0x86, 0xb7, 0x31, 0, 1);
    XorStep(0x10c, 0x16f, 0x63, 1, 0);
    XorStep(0x219, 0x2de, 0xc7, 1, 1);
    XorStep(0x433, 0x5bd, 0x18e, 1, 1);
    XorStep(0x867, 0xb7b, 0x31c, 0, 0);
    XorStep(0x10ce, 0x16f6, 0x638, 0, 0);
    XorStep(0x219c, 0x2dec, 0xc70, 0, 0);
    XorStep(0x4338, 0x5bd8, 0x18e0, 0, 1);
    XorStep(0x8670, 0xb7b1, 0x31c1, 0, 1);
    assert AlphaPow(29) == MulAlpha(0x8670) == Xor(0x10ce0, Generator);
  }

  lemma AlphaTo30()
    ensures AlphaPow(30) == 0xc706
  {
    AlphaTo29();
    assert AlphaPow(30) == MulAlpha(0x6383);
  }

  lemma SumOf30And22()
    ensures Xor(0xc706, 0x59c1) == 0x9ec7
  {
    XorStep(0x0, 0x0, 0x0, 1, 0);
    XorStep(0x1, 0x0, 0x1, 1, 1);
    XorStep(0x3, 0x1, 0x2, 0, 0);
    XorStep(0x6, 0x2, 0x4, 0, 1);
    XorStep(0xc, 0x5, 0x9, 0, 1);
    XorStep(0x18, 0xb, 0x13, 1, 0);
    XorStep(0x31, 0x16, 0x27, 1, 0);
    XorStep(0x63, 0x2c, 0x4f, 1, 1);
    XorStep(0xc7, 0x59, 0x9e, 0, 1);
    XorStep(0x18e, 0xb3, 0x13d, 0, 1);
    XorStep(0x31c, 0x167, 0x27b, 0, 0);
    XorStep(0x638, 0x2ce, 0x4f6, 0, 0);
    XorStep(0xc70, 0x59c, 0x9ec, 0, 0);
    XorStep(0x18e0, 0xb38, 0x13d8, 1, 0);
    XorStep(0x31c1, 0x1670, 0x27b1, 1, 0);
    XorStep(0x6383, 0x2ce0, 0x4f63, 0, 1);
  }

  lemma SumWith17()
    ensures Xor(0x9ec7, 0xdec6) == 0x4001
  {
    XorStep(0x0, 0x0, 0x0, 1, 1);
    XorStep(0x1, 0x1, 0x0, 0, 1);
    XorStep(0x2, 0x3, 0x1, 0, 0);
    XorStep(0x4, 0x6, 0x2, 1, 1);
    XorStep(0x9, 0xd, 0x4, 1, 1);
    XorStep(0x13, 0x1b, 0x8, 1, 1);
    XorStep(0x27, 0x37, 0x10, 1, 1);
    XorStep(0x4f, 0x6f, 0x20, 0, 0);
    XorStep(0x9e, 0xde, 0x40, 1, 1);
    XorStep(0x13d, 0x1bd, 0x80, 1, 1);
    XorStep(0x27b, 0x37b, 0x100, 0, 0);
    XorStep(0x4f6, 0x6f6, 0x200, 0, 0);
    XorStep(0x9ec, 0xdec, 0x400, 0, 0);
    XorStep(0x13d8, 0x1bd8, 0x800, 1, 1);
    XorStep(0x27b1, 0x37b1, 0x1000, 1, 1);
    XorStep(0x4f63, 0x6f63, 0x2000, 1, 0);
  }

  lemma SumOf14And0()
    ensures Xor(0x4000, 0x1) == 0x4001
  {
    XorStep(0x0, 0x0, 0x0, 1, 0);
    XorStep(0x1, 0x0, 0x1, 0, 0);
    XorStep(0x2, 0x0, 0x2, 0, 0);
    XorStep(0x4, 0x0, 0x4, 0, 0);
    XorStep(0x8, 0x0, 0x8, 0, 0);
    XorStep(0x10, 0x0, 0x10, 0, 0);
    XorStep(0x20, 0x0, 0x20, 0, 0);
    XorStep(0x40, 0x0, 0x40, 0, 0);
    XorStep(0x80, 0x0, 0x80, 0, 0);
    XorStep(0x100, 0x0, 0x100, 0, 0);
    XorStep(0x200, 0x0, 0x200, 0, 0);
    XorStep(0x400, 0x0, 0x400, 0, 0);
    XorStep(0x800, 0x0, 0x800, 0, 0);
    XorStep(0x1000, 0x0, 0x1000, 0, 0);
    XorStep(0x2000, 0x0, 0x2000, 0, 1);
  }

  /** x^30 + x^22 + x^17 = x^14 + 1 modulo the generator: x^30 + x^22 + x^17 + x^14 + 1 is a codeword of weight five. */
  lemma CodewordSum()
    ensures Add(Add(AlphaPow(30), AlphaPow(22)), AlphaPow(17)) == Add(AlphaPow(14), AlphaPow(0))
  {
    AlphaTo30();
    AlphaTo22();
    AlphaTo17();
    AlphaTo15();
    SumOf30And22();
    SumWith17();
    SumOf14And0();
  }

  /** The first bit of a triple is set in it and clear in a pair that does not hold it. */
  lemma FirstBitNotInPair(n: nat, a: nat, b: nat, c: nat, x: nat, y: nat)
    requires a < b < c < 8 * n && x < y < 8 * n && a != x && a != y
    ensures BitAt(Pattern(n, [a, b, c]), a) && !BitAt(Pattern(n, [x, y]), a)
  {
    assert DistinctPositions(n, [a, b, c]) && DistinctPositions(n, [x, y]);
    PatternBits(n, [a, b, c]);
    PatternBits(n, [x, y]);
  }

  /** XORing with e XOR p flips bit q when e has it and p does not, and so changes its byte. */
  lemma XorBitDiffers(d: seq<byte>, e: seq<byte>, p: seq<byte>, q: nat)
    requires |d| == |e| == |p| && q < 8 * |d|
    requires BitAt(e, q) && !BitAt(p, q)
    ensures XorBytes(d, XorBytes(e, p))[q / 8] != d[q / 8]
  {
    var k := q / 8;
    BitXor(e[k], p[k], q % 8);
    BitXor(d[k], XorByte(e[k], p[k]), q % 8);
  }

  /** The three bits 57, 65, 70 and the two bits 73, 87 of an 11-byte frame share a syndrome. */
  lemma TripleMatchesPair()
    ensures Residue(Pattern(11, [57, 65, 70])) == Residue(Pattern(11, [73, 87]))
  {
    TripleIsXor(11, 57, 65, 70);
    PairIsXor(11, 57, 65);
    PairIsXor(11, 73, 87);
    ResidueLinear(Pattern(11, [57, 65]), Pattern(11, [70]));
    ResidueLinear(Pattern(11, [57]), Pattern(11, [65]));
    ResidueLinear(Pattern(11, [73]), Pattern(11, [87]));
    SingleBitSyndrome(11, 57);
    SingleBitSyndrome(11, 65);
    SingleBitSyndrome(11, 70);
    SingleBitSyndrome(11, 73);
    SingleBitSyndrome(11, 87);
    CodewordSum();
  }

  /**
    A valid 11-byte frame received with bits 57, 65 and 70 flipped yields a
    payload with two bits counted as repaired whose byte 7 differs from
    the byte sent.
  */
  lemma ThreeBitMiscorrected(sent: seq<byte>, bytes: seq<byte>, t: Table)
    requires 11 <= |bytes| && BuiltTable(11, false) == Some(t)
    requires |sent| == 11 && ValidFrame(sent)
    requires bytes[..11] == XorBytes(sent, Pattern(11, [57, 65, 70]))
    ensures Filed(t, 11)
    ensures Candidate(bytes, 11, t).Some? && Candidate(bytes, 11, t).value.bitsRepaired == 2
    ensures Candidate(bytes, 11, t).value.data[7] != sent[7]
  {
    var e, p := Pattern(11, [57, 65, 70]), Pattern(11, [73, 87]);
    TripleMatchesPair();
    PairMiscorrects(sent, bytes, 11, t, e, 73, 87);
    FirstBitNotInPair(11, 57, 65, 70, 73, 87);
    XorBitDiffers(sent, e, p, 57);
    assert XorBytes(sent, XorBytes(e, p))[..9][7] == XorBytes(sent, XorBytes(e, p))[7];
  }
}
