/**
  The error-correction tables of `Decoder::new`: for a frame length len, a
  map from CRC syndrome to the error pattern (a len-byte buffer with a few
  bits set) that produces it.

  The error patterns are enumerated in the order the source's loops visit
  them; the tables are folds of an insertion step over those enumerations,
  and the builder methods keep the source's loops.
*/
module Tables {
  import opened Wrappers
  import opened Bits
  import opened Gf2
  import opened ByteOps
  import opened Crc

  type Table = map<Poly, seq<byte>>

  /** Three-bit patterns are only tried for frames shorter than this. */
  const ThreeBitLimit: nat := 14

  // ---------------------------------------------------------------------
  // Enumerations of the error patterns, in loop order

  /** The single-bit patterns for the positions 0 .. i-1. */
  function Ones(len: nat, i: nat): (r: seq<seq<byte>>)
    ensures |r| == i
  {
    if i == 0 then [] else Ones(len, i - 1) + [Pattern(len, [i - 1])]
  }

  /** The patterns inserted before row i of the two-bit tier: all single-bit ones, then the pairs {i', j} with i' < i. */
  function LowStart(len: nat, i: nat): seq<seq<byte>>
    decreases i, 0
  {
    if i == 0 then Ones(len, 8 * len) else LowBefore(len, i - 1, 8 * len)
  }

  /** The patterns inserted before the pair {i, j}, for i < j. */
  function LowBefore(len: nat, i: nat, j: nat): seq<seq<byte>>
    decreases i, j + 1
  {
    if j <= i + 1 then LowStart(len, i) else LowBefore(len, i, j - 1) + [Pattern(len, [i, j - 1])]
  }

  lemma LowBeforeNext(len: nat, i: nat, j: nat)
    requires i < j
    ensures LowBefore(len, i, j + 1) == LowBefore(len, i, j) + [Pattern(len, [i, j])]
  {
  }

  /** All one- and two-bit patterns of a len-byte buffer, in the order they are inserted. */
  function LowWeight(len: nat): seq<seq<byte>> {
    LowStart(len, 8 * len)
  }

  /** The three-bit patterns tried before plane i (triples whose first position is below i). */
  function PlaneStart(len: nat, i: nat): seq<seq<byte>>
    decreases i, 0, 0
  {
    if i == 0 then [] else RowStart(len, i - 1, 8 * len)
  }

  /** The three-bit patterns tried before row {i, j, _}, for i < j. */
  function RowStart(len: nat, i: nat, j: nat): seq<seq<byte>>
    decreases i, j + 1, 0
  {
    if j <= i + 1 then PlaneStart(len, i) else TripleBefore(len, i, j - 1, 8 * len)
  }

  /** The three-bit patterns tried before the triple {i, j, k}, for i < j < k. */
  function TripleBefore(len: nat, i: nat, j: nat, k: nat): seq<seq<byte>>
    decreases i, j + 1, k + 1
  {
    if k <= j + 1 then RowStart(len, i, j) else TripleBefore(len, i, j, k - 1) + [Pattern(len, [i, j, k - 1])]
  }

  lemma TripleBeforeNext(len: nat, i: nat, j: nat, k: nat)
    requires j < k
    ensures TripleBefore(len, i, j, k + 1) == TripleBefore(len, i, j, k) + [Pattern(len, [i, j, k])]
  {
  }

  /** All three-bit patterns of a len-byte buffer, in the order they are tried. */
  function ThreeBit(len: nat): seq<seq<byte>> {
    PlaneStart(len, 8 * len)
  }

  // ---------------------------------------------------------------------
  // One- and two-bit tiers

  /** Inserting pattern e under syndrome v; a syndrome already present is the `assert!(false)`. */
  function Put(m: Option<Table>, v: Poly, e: seq<byte>): (r: Option<Table>)
    ensures r.Some? <==> m.Some? && v !in m.value
  {
    match m
    case None => None
    case Some(t) => if v in t then None else Some(t[v := e])
  }

  /** Inserting the patterns es in order, each under its syndrome. */
  function InsertAll(m: Option<Table>, es: seq<seq<byte>>): Option<Table> {
    if |es| == 0 then m else Put(InsertAll(m, es[..|es| - 1]), Residue(es[|es| - 1]), es[|es| - 1])
  }

  lemma InsertAllSnoc(m: Option<Table>, es: seq<seq<byte>>, e: seq<byte>)
    ensures InsertAll(m, es + [e]) == Put(InsertAll(m, es), Residue(e), e)
  {
    assert (es + [e])[..|es|] == es;
  }

  /** No two patterns of es share a syndrome. */
  predicate NoCollision(es: seq<seq<byte>>) {
    forall a, b :: 0 <= a < b < |es| ==> Residue(es[a]) != Residue(es[b])
  }

  /** t holds exactly the patterns of es, each under its syndrome. */
  predicate Holds(t: Table, es: seq<seq<byte>>) {
    (forall k :: 0 <= k < |es| ==> Residue(es[k]) in t && t[Residue(es[k])] == es[k]) &&
    (forall v :: v in t ==> t[v] in es && Residue(t[v]) == v)
  }

  /** Inserting into an empty table succeeds exactly when no syndromes collide, and then holds every pattern. */
  lemma {:induction false} InsertAllSpec(es: seq<seq<byte>>)
    ensures InsertAll(Some(map[]), es).Some? <==> NoCollision(es)
    ensures InsertAll(Some(map[]), es).Some? ==> Holds(InsertAll(Some(map[]), es).value, es)
  {
    if |es| > 0 {
      var init, e := es[..|es| - 1], es[|es| - 1];
      assert es == init + [e];
      InsertAllSpec(init);
      InsertAllSnoc(Some(map[]), init, e);
      var m := InsertAll(Some(map[]), init);
      if m.Some? {
        if Residue(e) in m.value {
          InsertCollides(m.value, init, e);
        } else {
          InsertExtends(m.value, init, e);
        }
      } else {
        CollisionExtends(init, e);
      }
    }
  }

  lemma InsertCollides(t: Table, init: seq<seq<byte>>, e: seq<byte>)
    requires Holds(t, init) && Residue(e) in t
    ensures !NoCollision(init + [e])
  {
    var es := init + [e];
    var k :| 0 <= k < |init| && init[k] == t[Residue(e)];
    assert Residue(es[k]) == Residue(es[|init|]);
  }

  lemma InsertExtends(t: Table, init: seq<seq<byte>>, e: seq<byte>)
    requires Holds(t, init) && NoCollision(init) && Residue(e) !in t
    ensures NoCollision(init + [e]) && Holds(t[Residue(e) := e], init + [e])
  {
    var es := init + [e];
    forall a, b | 0 <= a < b < |es| ensures Residue(es[a]) != Residue(es[b]) {
      if b == |init| {
        assert Residue(init[a]) in t;
      } else {
        assert es[a] == init[a] && es[b] == init[b];
      }
    }
    var t' := t[Residue(e) := e];
    forall k | 0 <= k < |es| ensures Residue(es[k]) in t' && t'[Residue(es[k])] == es[k] {
      if k < |init| {
        assert es[k] == init[k];
      }
    }
    forall v | v in t' ensures t'[v] in es && Residue(t'[v]) == v {
      if v != Residue(e) {
        assert t[v] in init;
      }
    }
  }

  lemma CollisionExtends(init: seq<seq<byte>>, e: seq<byte>)
    requires !NoCollision(init)
    ensures !NoCollision(init + [e])
  {
    var a, b :| 0 <= a < b < |init| && Residue(init[a]) == Residue(init[b]);
    assert (init + [e])[a] == init[a] && (init + [e])[b] == init[b];
  }

  /** Once an insertion fails, inserting more patterns does not help. */
  lemma {:induction false} InsertAllFailed(m: Option<Table>, es: seq<seq<byte>>, more: seq<seq<byte>>)
    requires InsertAll(m, es).None?
    ensures InsertAll(m, es + more).None?
    decreases |more|
  {
    if |more| > 0 {
      var init := more[..|more| - 1];
      InsertAllFailed(m, es, init);
      assert es + more == (es + init) + [more[|more| - 1]];
      InsertAllSnoc(m, es + init, more[|more| - 1]);
    } else {
      assert es + more == es;
    }
  }

  // ---------------------------------------------------------------------
  // Three-bit tier

  /** `map_3bit` and `blacklist` of the three-bit tier. */
  datatype Tier3 = Tier3(m3: Table, blacklist: seq<Poly>)

  /** One three-bit pattern e with syndrome v: skipped if v is in the lower tiers m12; otherwise a repeat is thrown out and blacklisted, and a new one kept unless blacklisted. */
  function Step3(m12: Table, st: Tier3, v: Poly, e: seq<byte>): Tier3 {
    if v in m12 then st
    else if v in st.m3 then Tier3(st.m3 - {v}, st.blacklist + [v])
    else if v !in st.blacklist then Tier3(st.m3[v := e], st.blacklist)
    else st
  }

  /** The three-bit tier after trying the patterns es in order. */
  function Run3(m12: Table, es: seq<seq<byte>>): Tier3 {
    if |es| == 0 then Tier3(map[], []) else Step3(m12, Run3(m12, es[..|es| - 1]), Residue(es[|es| - 1]), es[|es| - 1])
  }

  lemma Run3Snoc(m12: Table, es: seq<seq<byte>>, e: seq<byte>)
    ensures Run3(m12, es + [e]) == Step3(m12, Run3(m12, es), Residue(e), e)
  {
    assert (es + [e])[..|es|] == es;
  }

  /** How many patterns of es have syndrome v. */
  function Count(es: seq<seq<byte>>, v: Poly): nat {
    if |es| == 0 then 0 else Count(es[..|es| - 1], v) + (if Residue(es[|es| - 1]) == v then 1 else 0)
  }

  /**
    After the three-bit patterns es have been tried against the lower tiers
    m12: a syndrome of m12 is neither kept nor blacklisted; any other syndrome
    is kept exactly when one pattern of es produces it, under that pattern,
    and blacklisted exactly when two or more do.
  */
  lemma {:induction false} Run3Spec(m12: Table, es: seq<seq<byte>>, v: Poly)
    ensures v in m12 ==> v !in Run3(m12, es).m3 && v !in Run3(m12, es).blacklist
    ensures v !in m12 ==> (v in Run3(m12, es).m3 <==> Count(es, v) == 1)
    ensures v !in m12 ==> (v in Run3(m12, es).blacklist <==> Count(es, v) >= 2)
    ensures v in Run3(m12, es).m3 ==> Run3(m12, es).m3[v] in es && Residue(Run3(m12, es).m3[v]) == v
  {
    if |es| > 0 {
      var init := es[..|es| - 1];
      assert es == init + [es[|es| - 1]];
      Run3Snoc(m12, init, es[|es| - 1]);
      Run3Spec(m12, init, v);
      var st := Run3(m12, init);
      if v in st.m3 {
        assert st.m3[v] in es;
      }
    }
  }

  /** The blacklist only grows, so a thrown-out syndrome is never kept again. */
  lemma {:induction false} Run3BlacklistGrows(m12: Table, es: seq<seq<byte>>, more: seq<seq<byte>>)
    ensures Run3(m12, es).blacklist <= Run3(m12, es + more).blacklist
    decreases |more|
  {
    if |more| > 0 {
      var init := more[..|more| - 1];
      Run3BlacklistGrows(m12, es, init);
      assert es + more == (es + init) + [more[|more| - 1]];
      Run3Snoc(m12, es + init, more[|more| - 1]);
    } else {
      assert es + more == es;
    }
  }

  lemma BlacklistedNeverKept(m12: Table, es: seq<seq<byte>>, more: seq<seq<byte>>, v: Poly)
    requires v in Run3(m12, es).blacklist
    ensures v in Run3(m12, es + more).blacklist && v !in Run3(m12, es + more).m3
  {
    Run3BlacklistGrows(m12, es, more);
    Run3Spec(m12, es + more, v);
    Run3Spec(m12, es, v);
  }

  // ---------------------------------------------------------------------
  // The table for one length

  /** The table `new` builds for frame length len; None when the one- and two-bit tiers collide. */
  function BuiltTable(len: nat, disableErrorCorrection: bool): Option<Table> {
    if disableErrorCorrection then Some(map[])
    else
      match InsertAll(Some(map[]), LowWeight(len))
      case None => None
      case Some(m12) => Some(if len < ThreeBitLimit then m12 + Run3(m12, ThreeBit(len)).m3 else m12)
  }

  // ---------------------------------------------------------------------
  // The same folds with the syndromes supplied alongside the patterns; the
  // builder's loops carry these, so that their proofs never unfold Residue

  /** ks lists the syndromes of es. */
  predicate KeysOf(ks: seq<Poly>, es: seq<seq<byte>>) {
    |ks| == |es| && forall k {:trigger Residue(es[k])} :: 0 <= k < |es| ==> ks[k] == Residue(es[k])
  }

  /** Inserting the patterns es in order, es[k] under the syndrome ks[k]. */
  function PutAll(m: Option<Table>, ks: seq<Poly>, es: seq<seq<byte>>): Option<Table>
    requires |ks| == |es|
  {
    if |es| == 0 then m else Put(PutAll(m, ks[..|ks| - 1], es[..|es| - 1]), ks[|ks| - 1], es[|es| - 1])
  }

  /** Trying the patterns es in order, es[k] with the syndrome ks[k]. */
  function Step3All(m12: Table, ks: seq<Poly>, es: seq<seq<byte>>): Tier3
    requires |ks| == |es|
  {
    if |es| == 0 then Tier3(map[], [])
    else Step3(m12, Step3All(m12, ks[..|ks| - 1], es[..|es| - 1]), ks[|ks| - 1], es[|es| - 1])
  }

  lemma KeysOfSnoc(ks: seq<Poly>, es: seq<seq<byte>>, v: Poly, e: seq<byte>)
    requires KeysOf(ks, es) && v == Residue(e)
    ensures KeysOf(ks + [v], es + [e])
  {
    var ks', es' := ks + [v], es + [e];
    forall k | 0 <= k < |es'| ensures ks'[k] == Residue(es'[k]) {
      if k < |es| {
        assert ks'[k] == ks[k] && es'[k] == es[k];
      }
    }
  }

  lemma {:induction false} PutAllIsInsertAll(m: Option<Table>, ks: seq<Poly>, es: seq<seq<byte>>)
    requires KeysOf(ks, es)
    ensures PutAll(m, ks, es) == InsertAll(m, es)
  {
    if |es| > 0 {
      var ks', es' := ks[..|ks| - 1], es[..|es| - 1];
      forall k | 0 <= k < |es'| ensures ks'[k] == Residue(es'[k]) {
        assert ks'[k] == ks[k] && es'[k] == es[k];
      }
      PutAllIsInsertAll(m, ks', es');
      assert ks[|ks| - 1] == Residue(es[|es| - 1]);
    }
  }

  lemma {:induction false} Step3AllIsRun3(m12: Table, ks: seq<Poly>, es: seq<seq<byte>>)
    requires KeysOf(ks, es)
    ensures Step3All(m12, ks, es) == Run3(m12, es)
  {
    if |es| > 0 {
      var ks', es' := ks[..|ks| - 1], es[..|es| - 1];
      forall k | 0 <= k < |es'| ensures ks'[k] == Residue(es'[k]) {
        assert ks'[k] == ks[k] && es'[k] == es[k];
      }
      Step3AllIsRun3(m12, ks', es');
      assert ks[|ks| - 1] == Residue(es[|es| - 1]);
    }
  }

  // ---------------------------------------------------------------------
  // Prefixes of the enumerations, for the builder's early exit

  lemma InsertAllFailedPrefix(m: Option<Table>, es: seq<seq<byte>>, all: seq<seq<byte>>)
    requires es <= all && InsertAll(m, es).None?
    ensures InsertAll(m, all).None?
  {
    InsertAllFailed(m, es, all[|es|..]);
    assert es + all[|es|..] == all;
  }

  lemma {:induction false} OnesPrefix(len: nat, i: nat, n: nat)
    requires i <= n <= 8 * len
    ensures Ones(len, i) <= Ones(len, n)
    decreases n
  {
    if i < n {
      OnesPrefix(len, i, n - 1);
      PrefixTrans(Ones(len, i), Ones(len, n - 1), Ones(len, n));
    }
  }

  /** The patterns inserted before the pair {i, j} are a prefix of all one- and two-bit patterns. */
  lemma {:induction false} LowBeforePrefix(len: nat, i: nat, j: nat)
    requires i < j <= 8 * len
    ensures LowBefore(len, i, j) <= LowWeight(len)
    decreases 8 * len - i, 8 * len - j
  {
    if j < 8 * len {
      LowBeforePrefix(len, i, j + 1);
      PrefixTrans(LowBefore(len, i, j), LowBefore(len, i, j + 1), LowWeight(len));
    } else if i + 1 < 8 * len {
      LowBeforePrefix(len, i + 1, i + 2);
    }
  }

  lemma LowStartPrefix(len: nat, i: nat)
    requires i <= 8 * len
    ensures LowStart(len, i) <= LowWeight(len)
  {
    if i < 8 * len {
      LowBeforePrefix(len, i, i + 1);
    }
  }

  lemma PrefixTrans<T>(a: seq<T>, b: seq<T>, c: seq<T>)
    requires a <= b && b <= c
    ensures a <= c
  {
    assert c[..|a|] == b[..|a|];
  }

  // ---------------------------------------------------------------------
  // The builder's loops

  /**
    An error pattern as `new` builds it: `vec![0u8; len]`, then
    `data[idx] ^= 1 << pos` for each position in turn.
  */
  method ErrorPattern(len: nat, positions: seq<nat>) returns (data: seq<byte>)
    requires forall k :: 0 <= k < |positions| ==> positions[k] < 8 * len
    ensures data == Pattern(len, positions)
  {
    data := Zeros(len);
    for n := 0 to |positions|
      invariant data == Pattern(len, positions[..n])
    {
      var idx := positions[n] / 8;
      var pos := positions[n] % 8;
      data := data[idx := XorByte(data[idx], Mask(pos))];
      assert positions[..n + 1][..n] == positions[..n];
    }
    assert positions[..|positions|] == positions;
  }

  /** One insertion of `new`: the syndrome of data must not be in the table yet; None where `assert!(false)` would fire. */
  method InsertPattern(t: Table, ghost ks: seq<Poly>, ghost es: seq<seq<byte>>, data: seq<byte>, ghost next: seq<seq<byte>>)
    returns (r: Option<Table>, ghost ks': seq<Poly>)
    requires KeysOf(ks, es) && PutAll(Some(map[]), ks, es) == Some(t) && next == es + [data]
    ensures KeysOf(ks', next) && PutAll(Some(map[]), ks', next) == r
  {
    var value := Crc16Remainder(data);
    KeysOfSnoc(ks, es, value, data);
    ks' := ks + [value];
    assert ks'[..|ks|] == ks && next[..|es|] == es;
    if value in t {
      return None, ks';
    }
    r := Some(t[value := data]);
  }

  /** The single-bit tier of `new` for one length; None where `assert!(false)` would fire. */
  method SingleBitTier(len: nat) returns (m: Option<Table>, ghost ks: seq<Poly>)
    ensures m.Some? ==> KeysOf(ks, Ones(len, 8 * len)) && PutAll(Some(map[]), ks, Ones(len, 8 * len)) == m
    ensures m.None? ==> InsertAll(Some(map[]), Ones(len, 8 * len)).None?
  {
    var t: Table := map[];
    ks := [];
    for i := 0 to len * 8
      invariant KeysOf(ks, Ones(len, i)) && PutAll(Some(map[]), ks, Ones(len, i)) == Some(t)
    {
      var data := ErrorPattern(len, [i]);
      var r;
      r, ks := InsertPattern(t, ks, Ones(len, i), data, Ones(len, i + 1));
      if r.None? {
        PutAllIsInsertAll(Some(map[]), ks, Ones(len, i + 1));
        OnesPrefix(len, i + 1, 8 * len);
        InsertAllFailedPrefix(Some(map[]), Ones(len, i + 1), Ones(len, 8 * len));
        return None, ks;
      }
      t := r.value;
    }
    m := Some(t);
  }

  /** The pairs {i, j} with j > i of the two-bit tier; on a collision, tried is the prefix of the enumeration that met it. */
  method TwoBitRow(len: nat, i: nat, t0: Table, ghost ks0: seq<Poly>)
    returns (m: Option<Table>, ghost ks: seq<Poly>, ghost stop: nat)
    requires i < 8 * len && KeysOf(ks0, LowBefore(len, i, i + 1)) && PutAll(Some(map[]), ks0, LowBefore(len, i, i + 1)) == Some(t0)
    ensures i < stop <= 8 * len
    ensures KeysOf(ks, LowBefore(len, i, stop)) && PutAll(Some(map[]), ks, LowBefore(len, i, stop)) == m
    ensures m.Some? ==> stop == 8 * len
  {
    var t := t0;
    ks := ks0;
    for j := i + 1 to len * 8
      invariant KeysOf(ks, LowBefore(len, i, j)) && PutAll(Some(map[]), ks, LowBefore(len, i, j)) == Some(t)
    {
      var r;
      r, ks := TwoBitStep(len, i, j, t, ks);
      if r.None? {
        return None, ks, j + 1;
      }
      t := r.value;
    }
    m, stop := Some(t), 8 * len;
  }

  /** The pair {i, j} of the two-bit tier. */
  method TwoBitStep(len: nat, i: nat, j: nat, t: Table, ghost ks: seq<Poly>) returns (r: Option<Table>, ghost ks': seq<Poly>)
    requires i < j < 8 * len && KeysOf(ks, LowBefore(len, i, j)) && PutAll(Some(map[]), ks, LowBefore(len, i, j)) == Some(t)
    ensures KeysOf(ks', LowBefore(len, i, j + 1)) && PutAll(Some(map[]), ks', LowBefore(len, i, j + 1)) == r
  {
    var data := ErrorPattern(len, [i, j]);
    LowBeforeNext(len, i, j);
    r, ks' := InsertPattern(t, ks, LowBefore(len, i, j), data, LowBefore(len, i, j + 1));
  }

  /** The two-bit tier of `new`, continuing from the single-bit table t1; None where `assert!(false)` would fire. */
  method TwoBitTier(len: nat, t1: Table, ghost ks1: seq<Poly>) returns (m: Option<Table>)
    requires KeysOf(ks1, Ones(len, 8 * len)) && PutAll(Some(map[]), ks1, Ones(len, 8 * len)) == Some(t1)
    ensures m == InsertAll(Some(map[]), LowWeight(len))
  {
    var t := t1;
    ghost var ks := ks1;
    for i := 0 to len * 8
      invariant KeysOf(ks, LowStart(len, i)) && PutAll(Some(map[]), ks, LowStart(len, i)) == Some(t)
    {
      var r;
      ghost var stop;
      assert LowBefore(len, i, i + 1) == LowStart(len, i);
      r, ks, stop := TwoBitRow(len, i, t, ks);
      if r.None? {
        PutAllIsInsertAll(Some(map[]), ks, LowBefore(len, i, stop));
        LowBeforePrefix(len, i, stop);
        InsertAllFailedPrefix(Some(map[]), LowBefore(len, i, stop), LowWeight(len));
        return None;
      }
      assert LowBefore(len, i, 8 * len) == LowStart(len, i + 1);
      t := r.value;
    }
    PutAllIsInsertAll(Some(map[]), ks, LowWeight(len));
    m := Some(t);
  }

  /** The three-bit tier of `new`: `map_3bit` after every triple has been tried against the lower tiers m12. */
  method ThreeBitTable(len: nat, m12: Table) returns (m3: Table)
    ensures m3 == Run3(m12, ThreeBit(len)).m3
  {
    var blacklist: seq<Poly> := [];
    m3 := map[];
    ghost var ks: seq<Poly> := [];
    for i := 0 to len * 8
      invariant KeysOf(ks, PlaneStart(len, i)) && Step3All(m12, ks, PlaneStart(len, i)) == Tier3(m3, blacklist)
    {
      assert RowStart(len, i, i + 1) == PlaneStart(len, i);
      m3, blacklist, ks := ThreeBitPlane(len, m12, i, m3, blacklist, ks);
      assert RowStart(len, i, 8 * len) == PlaneStart(len, i + 1);
    }
    Step3AllIsRun3(m12, ks, ThreeBit(len));
  }

  /** The triples {i, _, _} of the three-bit tier. */
  method ThreeBitPlane(len: nat, m12: Table, i: nat, m0: Table, b0: seq<Poly>, ghost ks0: seq<Poly>)
    returns (m3: Table, blacklist: seq<Poly>, ghost ks: seq<Poly>)
    requires i < 8 * len && KeysOf(ks0, RowStart(len, i, i + 1)) && Step3All(m12, ks0, RowStart(len, i, i + 1)) == Tier3(m0, b0)
    ensures KeysOf(ks, RowStart(len, i, 8 * len)) && Step3All(m12, ks, RowStart(len, i, 8 * len)) == Tier3(m3, blacklist)
  {
    m3, blacklist, ks := m0, b0, ks0;
    for j := i + 1 to len * 8
      invariant KeysOf(ks, RowStart(len, i, j)) && Step3All(m12, ks, RowStart(len, i, j)) == Tier3(m3, blacklist)
    {
      assert TripleBefore(len, i, j, j + 1) == RowStart(len, i, j);
      m3, blacklist, ks := ThreeBitRow(len, m12, i, j, m3, blacklist, ks);
      assert TripleBefore(len, i, j, 8 * len) == RowStart(len, i, j + 1);
    }
  }

  /** The triples {i, j, _} of the three-bit tier. */
  method ThreeBitRow(len: nat, m12: Table, i: nat, j: nat, m0: Table, b0: seq<Poly>, ghost ks0: seq<Poly>)
    returns (m3: Table, blacklist: seq<Poly>, ghost ks: seq<Poly>)
    requires i < j < 8 * len && KeysOf(ks0, TripleBefore(len, i, j, j + 1)) && Step3All(m12, ks0, TripleBefore(len, i, j, j + 1)) == Tier3(m0, b0)
    ensures KeysOf(ks, TripleBefore(len, i, j, 8 * len)) && Step3All(m12, ks, TripleBefore(len, i, j, 8 * len)) == Tier3(m3, blacklist)
  {
    m3, blacklist, ks := m0, b0, ks0;
    for k := j + 1 to len * 8
      invariant KeysOf(ks, TripleBefore(len, i, j, k)) && Step3All(m12, ks, TripleBefore(len, i, j, k)) == Tier3(m3, blacklist)
    {
      m3, blacklist, ks := ThreeBitStep(len, m12, i, j, k, m3, blacklist, ks);
    }
  }

  /** The triple {i, j, k} of the three-bit tier. */
  method ThreeBitStep(len: nat, m12: Table, i: nat, j: nat, k: nat, m0: Table, b0: seq<Poly>, ghost ks0: seq<Poly>)
    returns (m3: Table, blacklist: seq<Poly>, ghost ks: seq<Poly>)
    requires i < j < k < 8 * len
    requires KeysOf(ks0, TripleBefore(len, i, j, k)) && Step3All(m12, ks0, TripleBefore(len, i, j, k)) == Tier3(m0, b0)
    ensures KeysOf(ks, TripleBefore(len, i, j, k + 1)) && Step3All(m12, ks, TripleBefore(len, i, j, k + 1)) == Tier3(m3, blacklist)
  {
    var data := ErrorPattern(len, [i, j, k]);
    TripleBeforeNext(len, i, j, k);
    m3, blacklist, ks := TryTriple(m12, m0, b0, ks0, TripleBefore(len, i, j, k), data, TripleBefore(len, i, j, k + 1));
  }

  /** One pattern of the three-bit tier: skipped when the lower tiers m12 hold its syndrome, a repeat thrown out and blacklisted for good, a new syndrome kept unless blacklisted. */
  method TryTriple(m12: Table, m0: Table, b0: seq<Poly>, ghost ks0: seq<Poly>, ghost es: seq<seq<byte>>, data: seq<byte>, ghost next: seq<seq<byte>>)
    returns (m3: Table, blacklist: seq<Poly>, ghost ks: seq<Poly>)
    requires KeysOf(ks0, es) && Step3All(m12, ks0, es) == Tier3(m0, b0) && next == es + [data]
    ensures KeysOf(ks, next) && Step3All(m12, ks, next) == Tier3(m3, blacklist)
  {
    m3, blacklist := m0, b0;
    var value := Crc16Remainder(data);
    KeysOfSnoc(ks0, es, value, data);
    ks := ks0 + [value];
    assert ks[..|ks0|] == ks0 && next[..|es|] == es;
    // only syndromes the one- and two-bit tiers do not already repair
    if value !in m12 {
      if value in m3 {
        // a repeated syndrome is thrown out for good
        m3 := m3 - {value};
        blacklist := blacklist + [value];
      } else if value !in blacklist {
        m3 := m3[value := data];
      }
    }
  }

  /** The table `new` builds for one frame length. */
  method BuildTable(len: nat, disableErrorCorrection: bool) returns (m: Option<Table>)
    ensures m == BuiltTable(len, disableErrorCorrection)
  {
    if disableErrorCorrection {
      return Some(map[]);
    }
    // first tier: single flipped bits
    ghost var ks;
    m, ks := SingleBitTier(len);
    if m.None? {
      LowStartPrefix(len, 0);
      InsertAllFailedPrefix(Some(map[]), Ones(len, 8 * len), LowWeight(len));
      return;
    }
    // second tier: pairs of flipped bits
    m := TwoBitTier(len, m.value, ks);
    if m.None? {
      return;
    }
    var t := m.value;
    // third tier, short frames only: triples of flipped bits
    if len < ThreeBitLimit {
      var m3 := ThreeBitTable(len, t);
      // `map.extend(map_3bit)`
      t := t + m3;
    }
    m := Some(t);
  }
}
