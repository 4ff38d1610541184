/**
  What the error-correction table of `Decoder::new` holds for one frame
  length: every entry is a pattern of that length with one, two or three
  bits set, filed under its own syndrome; every one- and two-bit pattern is
  in it; a three-bit pattern is in it exactly when its syndrome is unique
  among the triples and not already taken by the lower tiers.
*/
module TableFacts {
  import opened Wrappers
  import opened Bits
  import opened Gf2
  import opened ByteOps
  import opened Crc
  import opened Tables

  // ---------------------------------------------------------------------
  // The weight of the enumerated patterns

  /** Every pattern of es is a len-byte buffer with between lo and hi bits set. */
  predicate Weighs(len: nat, es: seq<seq<byte>>, lo: nat, hi: nat) {
    forall k :: 0 <= k < |es| ==> |es[k]| == len && lo <= PopCount(es[k]) <= hi
  }

  lemma WeighsSnoc(len: nat, es: seq<seq<byte>>, e: seq<byte>, lo: nat, hi: nat)
    requires Weighs(len, es, lo, hi) && |e| == len && lo <= PopCount(e) <= hi
    ensures Weighs(len, es + [e], lo, hi)
  {
    forall k | 0 <= k < |es| + 1 ensures |(es + [e])[k]| == len && lo <= PopCount((es + [e])[k]) <= hi {
      if k < |es| {
        assert (es + [e])[k] == es[k];
      }
    }
  }

  lemma {:induction false} OnesWeigh(len: nat, i: nat)
    requires i <= 8 * len
    ensures Weighs(len, Ones(len, i), 1, 1)
  {
    if i > 0 {
      OnesWeigh(len, i - 1);
      PatternBits(len, [i - 1]);
      WeighsSnoc(len, Ones(len, i - 1), Pattern(len, [i - 1]), 1, 1);
    }
  }

  lemma {:induction false} LowStartWeighs(len: nat, i: nat)
    requires i <= 8 * len
    ensures Weighs(len, LowStart(len, i), 1, 2)
    decreases i, 0
  {
    if i == 0 {
      OnesWeigh(len, 8 * len);
    } else {
      LowBeforeWeighs(len, i - 1, 8 * len);
    }
  }

  lemma {:induction false} LowBeforeWeighs(len: nat, i: nat, j: nat)
    requires i < 8 * len && j <= 8 * len
    ensures Weighs(len, LowBefore(len, i, j), 1, 2)
    decreases i, j + 1
  {
    if j <= i + 1 {
      LowStartWeighs(len, i);
    } else {
      LowBeforeWeighs(len, i, j - 1);
      var t := [i, j - 1];
      assert DistinctPositions(len, t);
      PatternBits(len, t);
      WeighsSnoc(len, LowBefore(len, i, j - 1), Pattern(len, t), 1, 2);
    }
  }

  lemma {:induction false} PlaneStartWeighs(len: nat, i: nat)
    requires i <= 8 * len
    ensures Weighs(len, PlaneStart(len, i), 3, 3)
    decreases i, 0, 0
  {
    if i > 0 {
      RowStartWeighs(len, i - 1, 8 * len);
    }
  }

  lemma {:induction false} RowStartWeighs(len: nat, i: nat, j: nat)
    requires i < 8 * len && j <= 8 * len
    ensures Weighs(len, RowStart(len, i, j), 3, 3)
    decreases i, j + 1, 0
  {
    if j <= i + 1 {
      PlaneStartWeighs(len, i);
    } else {
      TripleBeforeWeighs(len, i, j - 1, 8 * len);
    }
  }

  lemma {:induction false} TripleBeforeWeighs(len: nat, i: nat, j: nat, k: nat)
    requires i < j < 8 * len && k <= 8 * len
    ensures Weighs(len, TripleBefore(len, i, j, k), 3, 3)
    decreases i, j + 1, k + 1
  {
    if k <= j + 1 {
      RowStartWeighs(len, i, j);
    } else {
      TripleBeforeWeighs(len, i, j, k - 1);
      var t := [i, j, k - 1];
      assert DistinctPositions(len, t);
      PatternBits(len, t);
      WeighsSnoc(len, TripleBefore(len, i, j, k - 1), Pattern(len, t), 3, 3);
    }
  }

  /** The one- and two-bit tiers try len-byte patterns with one or two bits set. */
  lemma LowWeightWeighs(len: nat)
    ensures forall e :: e in LowWeight(len) ==> |e| == len && 1 <= PopCount(e) <= 2
  {
    LowStartWeighs(len, 8 * len);
  }

  /** The three-bit tier tries len-byte patterns with three bits set. */
  lemma ThreeBitWeighs(len: nat)
    ensures forall e :: e in ThreeBit(len) ==> |e| == len && PopCount(e) == 3
  {
    PlaneStartWeighs(len, 8 * len);
  }

  // ---------------------------------------------------------------------
  // Every pattern of the right weight is tried

  lemma PrefixMember<T>(a: seq<T>, b: seq<T>, x: T)
    requires a <= b && x in a
    ensures x in b
  {
    var k :| 0 <= k < |a| && a[k] == x;
    assert b[k] == x;
  }

  lemma {:induction false} TripleBeforeGrows(len: nat, i: nat, j: nat, k: nat, k': nat)
    requires j < k <= k'
    ensures TripleBefore(len, i, j, k) <= TripleBefore(len, i, j, k')
    decreases k'
  {
    if k < k' {
      TripleBeforeGrows(len, i, j, k, k' - 1);
      TripleBeforeNext(len, i, j, k' - 1);
      PrefixTrans(TripleBefore(len, i, j, k), TripleBefore(len, i, j, k' - 1), TripleBefore(len, i, j, k'));
    }
  }

  lemma {:induction false} RowStartGrows(len: nat, i: nat, j: nat, j': nat)
    requires i < j <= j' && j' <= 8 * len
    ensures RowStart(len, i, j) <= RowStart(len, i, j')
    decreases j'
  {
    if j < j' {
      RowStartGrows(len, i, j, j' - 1);
      TripleBeforeGrows(len, i, j' - 1, j', 8 * len);
      assert TripleBefore(len, i, j' - 1, j') == RowStart(len, i, j' - 1);
      PrefixTrans(RowStart(len, i, j), RowStart(len, i, j' - 1), RowStart(len, i, j'));
    }
  }

  lemma {:induction false} PlaneStartGrows(len: nat, i: nat, i': nat)
    requires i <= i' <= 8 * len
    ensures PlaneStart(len, i) <= PlaneStart(len, i')
    decreases i'
  {
    if i < i' {
      PlaneStartGrows(len, i, i' - 1);
      RowStartGrows(len, i' - 1, i', 8 * len);
      assert RowStart(len, i' - 1, i') == PlaneStart(len, i' - 1);
      PrefixTrans(PlaneStart(len, i), PlaneStart(len, i' - 1), PlaneStart(len, i'));
    }
  }

  /** Every single-bit pattern of a len-byte buffer is tried by the one- and two-bit tiers. */
  lemma SingleTried(len: nat, q: nat)
    requires q < 8 * len
    ensures Pattern(len, [q]) in LowWeight(len)
  {
    assert Ones(len, q + 1)[q] == Pattern(len, [q]);
    OnesPrefix(len, q + 1, 8 * len);
    LowStartPrefix(len, 0);
    PrefixTrans(Ones(len, q + 1), Ones(len, 8 * len), LowWeight(len));
    PrefixMember(Ones(len, q + 1), LowWeight(len), Pattern(len, [q]));
  }

  /** Every two-bit pattern of a len-byte buffer is tried by the one- and two-bit tiers. */
  lemma PairTried(len: nat, a: nat, b: nat)
    requires a < b < 8 * len
    ensures Pattern(len, [a, b]) in LowWeight(len)
  {
    LowBeforeNext(len, a, b);
    assert LowBefore(len, a, b + 1)[|LowBefore(len, a, b)|] == Pattern(len, [a, b]);
    LowBeforePrefix(len, a, b + 1);
    PrefixMember(LowBefore(len, a, b + 1), LowWeight(len), Pattern(len, [a, b]));
  }

  /** Each row of the three-bit enumeration is a prefix of the whole of it. */
  lemma RowInThreeBit(len: nat, a: nat, b: nat)
    requires a < b < 8 * len
    ensures RowStart(len, a, b + 1) <= ThreeBit(len)
  {
    RowStartGrows(len, a, b + 1, 8 * len);
    assert RowStart(len, a, 8 * len) == PlaneStart(len, a + 1);
    PlaneStartGrows(len, a + 1, 8 * len);
    PrefixTrans(RowStart(len, a, b + 1), PlaneStart(len, a + 1), ThreeBit(len));
  }

  /** Every three-bit pattern of a len-byte buffer is tried by the three-bit tier. */
  lemma TripleTried(len: nat, a: nat, b: nat, c: nat)
    requires a < b < c < 8 * len
    ensures Pattern(len, [a, b, c]) in ThreeBit(len)
  {
    var p := Pattern(len, [a, b, c]);
    TripleBeforeNext(len, a, b, c);
    assert TripleBefore(len, a, b, c + 1)[|TripleBefore(len, a, b, c)|] == p;
    TripleBeforeGrows(len, a, b, c + 1, 8 * len);
    assert TripleBefore(len, a, b, 8 * len) == RowStart(len, a, b + 1);
    RowInThreeBit(len, a, b);
    PrefixTrans(TripleBefore(len, a, b, c + 1), RowStart(len, a, b + 1), ThreeBit(len));
    PrefixMember(TripleBefore(len, a, b, c + 1), ThreeBit(len), p);
  }

  // ---------------------------------------------------------------------
  // The table for one length

  /** The one- and two-bit tiers fail exactly when two of their patterns share a syndrome. */
  lemma BuiltTableFails(len: nat)
    ensures BuiltTable(len, false).None? <==> !NoCollision(LowWeight(len))
  {
    InsertAllSpec(LowWeight(len));
  }

  /** Every entry is a len-byte pattern filed under its own syndrome, with one to three bits set, and three only below ThreeBitLimit. */
  lemma BuiltTableEntry(len: nat, t: Table, v: Poly)
    requires BuiltTable(len, false) == Some(t) && v in t
    ensures |t[v]| == len && Residue(t[v]) == v
    ensures 1 <= PopCount(t[v]) <= 3
    ensures PopCount(t[v]) == 3 ==> len < ThreeBitLimit
  {
    InsertAllSpec(LowWeight(len));
    var m12 := InsertAll(Some(map[]), LowWeight(len)).value;
    LowWeightWeighs(len);
    if len < ThreeBitLimit {
      var m3 := Run3(m12, ThreeBit(len)).m3;
      if v in m3 {
        Run3Spec(m12, ThreeBit(len), v);
        ThreeBitWeighs(len);
        assert t[v] == m3[v];
      } else {
        assert t[v] == m12[v];
      }
    } else {
      assert t == m12;
    }
  }

  /** The lower-tier entry for v, whatever the three-bit tier adds. */
  lemma LowerTierKept(len: nat, t: Table, v: Poly)
    requires BuiltTable(len, false) == Some(t)
    requires InsertAll(Some(map[]), LowWeight(len)).Some? && v in InsertAll(Some(map[]), LowWeight(len)).value
    ensures v in t && t[v] == InsertAll(Some(map[]), LowWeight(len)).value[v]
  {
    var m12 := InsertAll(Some(map[]), LowWeight(len)).value;
    if len < ThreeBitLimit {
      Run3Spec(m12, ThreeBit(len), v);
    }
  }

  /** A single flipped bit is always in the table, under its syndrome. */
  lemma SingleCorrected(len: nat, t: Table, q: nat)
    requires BuiltTable(len, false) == Some(t) && q < 8 * len
    ensures Residue(Pattern(len, [q])) in t && t[Residue(Pattern(len, [q]))] == Pattern(len, [q])
  {
    InsertAllSpec(LowWeight(len));
    SingleTried(len, q);
    var k :| 0 <= k < |LowWeight(len)| && LowWeight(len)[k] == Pattern(len, [q]);
    LowerTierKept(len, t, Residue(Pattern(len, [q])));
  }

  /** Two flipped bits are always in the table, under their syndrome. */
  lemma PairCorrected(len: nat, t: Table, a: nat, b: nat)
    requires BuiltTable(len, false) == Some(t) && a < b < 8 * len
    ensures Residue(Pattern(len, [a, b])) in t && t[Residue(Pattern(len, [a, b]))] == Pattern(len, [a, b])
  {
    InsertAllSpec(LowWeight(len));
    PairTried(len, a, b);
    var k :| 0 <= k < |LowWeight(len)| && LowWeight(len)[k] == Pattern(len, [a, b]);
    LowerTierKept(len, t, Residue(Pattern(len, [a, b])));
  }

  /**
    Below ThreeBitLimit, the table holds a three-bit pattern under v exactly
    when the lower tiers do not use v and exactly one triple has syndrome v.
  */
  lemma ThreeBitKept(len: nat, t: Table, v: Poly)
    requires BuiltTable(len, false) == Some(t) && len < ThreeBitLimit
    ensures (v in t && PopCount(t[v]) == 3) <==>
            (v !in InsertAll(Some(map[]), LowWeight(len)).value && Count(ThreeBit(len), v) == 1)
  {
    InsertAllSpec(LowWeight(len));
    var m12 := InsertAll(Some(map[]), LowWeight(len)).value;
    Run3Spec(m12, ThreeBit(len), v);
    LowWeightWeighs(len);
    ThreeBitWeighs(len);
    var m3 := Run3(m12, ThreeBit(len)).m3;
    if v in m3 {
      assert t[v] == m3[v];
    } else if v in m12 {
      assert t[v] == m12[v];
    }
  }

  /** A pattern of es with syndrome v is counted. */
  lemma {:induction false} CountPositive(es: seq<seq<byte>>, v: Poly, x: seq<byte>)
    requires x in es && Residue(x) == v
    ensures Count(es, v) >= 1
  {
    var init := es[..|es| - 1];
    if x != es[|es| - 1] {
      assert x in init by {
        var k :| 0 <= k < |es| && es[k] == x;
        assert init[k] == x;
      }
      CountPositive(init, v, x);
    }
  }

  /** Two different patterns of es with syndrome v are both counted. */
  lemma {:induction false} CountTwo(es: seq<seq<byte>>, v: Poly, x: seq<byte>, y: seq<byte>)
    requires x in es && y in es && x != y && Residue(x) == v && Residue(y) == v
    ensures Count(es, v) >= 2
  {
    var init, last := es[..|es| - 1], es[|es| - 1];
    assert forall z :: z in es && z != last ==> z in init by {
      forall z | z in es && z != last ensures z in init {
        var k :| 0 <= k < |es| && es[k] == z;
        assert init[k] == z;
      }
    }
    if x == last {
      CountPositive(init, v, y);
    } else if y == last {
      CountPositive(init, v, x);
    } else {
      CountTwo(init, v, x, y);
    }
  }

  /**
    Three flipped bits whose syndrome the lower tiers leave free and no
    other triple shares are in the table, under their syndrome.
  */
  lemma ThreeBitCorrected(len: nat, t: Table, a: nat, b: nat, c: nat)
    requires BuiltTable(len, false) == Some(t) && len < ThreeBitLimit && a < b < c < 8 * len
    requires Residue(Pattern(len, [a, b, c])) !in InsertAll(Some(map[]), LowWeight(len)).value
    requires Count(ThreeBit(len), Residue(Pattern(len, [a, b, c]))) == 1
    ensures Residue(Pattern(len, [a, b, c])) in t && t[Residue(Pattern(len, [a, b, c]))] == Pattern(len, [a, b, c])
  {
    var p := Pattern(len, [a, b, c]);
    var v := Residue(p);
    var m12 := InsertAll(Some(map[]), LowWeight(len)).value;
    ThreeBitKept(len, t, v);
    Run3Spec(m12, ThreeBit(len), v);
    var m3 := Run3(m12, ThreeBit(len)).m3;
    assert t[v] == m3[v];
    TripleTried(len, a, b, c);
    if m3[v] != p {
      CountTwo(ThreeBit(len), v, m3[v], p);
    }
  }
}
