/**
  The decoder (`Decoder` in src/decoder/mod.rs): seventeen error-correction
  tables, one per frame length 5 to 21, built once, and a decode step that
  demodulates a bit stream, tries every candidate frame length, repairs
  what the tables can repair and sends what classification yields. The
  channels are modelled as the sequences of everything sent so far.
*/
module Decoding {
  import opened Wrappers
  import opened Bits
  import opened ByteOps
  import opened Crc
  import opened Tables
  import opened TableFacts
  import opened Framing
  import opened Telegrams
  import opened Dispatch
  import Demod

  /** One table for each length 5 to 21 (`for len in 5..22`). */
  const TableCount: nat := 17

  /** maps holds the tables `Decoder::new` builds for lengths 5 to 21, in order. */
  ghost predicate MapsFor(maps: seq<Table>, disableErrorCorrection: bool) {
    |maps| == TableCount &&
    forall len :: MinimumSize <= len < MinimumSize + TableCount ==>
      BuiltTable(len, disableErrorCorrection) == Some(maps[len - MinimumSize])
  }

  /** Every table of maps fits its length. */
  predicate FitMaps(maps: seq<Table>) {
    |maps| == TableCount && forall k :: 0 <= k < TableCount ==> Filed(maps[k], MinimumSize + k)
  }

  lemma BuiltMapsFit(maps: seq<Table>, disableErrorCorrection: bool)
    requires MapsFor(maps, disableErrorCorrection)
    ensures FitMaps(maps)
  {
    forall k | 0 <= k < TableCount ensures Filed(maps[k], MinimumSize + k) {
      var len := MinimumSize + k;
      BuiltTableFiled(len, disableErrorCorrection);
      assert maps[len - MinimumSize] == maps[k];
    }
  }

  /**
    The table loop of `Decoder::new`: the seventeen tables in order, or
    nothing when one of them hits a collision `assert!`.
  */
  method BuildMaps(disableErrorCorrection: bool) returns (maps: Option<seq<Table>>)
    ensures maps.Some? ==> MapsFor(maps.value, disableErrorCorrection)
    ensures maps.None? ==>
      exists len :: MinimumSize <= len < MinimumSize + TableCount && BuiltTable(len, disableErrorCorrection).None?
  {
    var built: seq<Table> := [];
    for len := MinimumSize to MinimumSize + TableCount
      invariant |built| == len - MinimumSize
      invariant forall n :: MinimumSize <= n < len ==> BuiltTable(n, disableErrorCorrection) == Some(built[n - MinimumSize])
    {
      var m := BuildTable(len, disableErrorCorrection);
      if m.None? {
        return None;
      }
      built := built + [m.value];
    }
    maps := Some(built);
  }

  /** With error correction disabled every table is empty. */
  lemma DisabledMapsEmpty(maps: seq<Table>)
    requires MapsFor(maps, true)
    ensures forall k :: 0 <= k < TableCount ==> maps[k] == map[]
  {
    forall k | 0 <= k < TableCount ensures maps[k] == map[] {
      assert BuiltTable(MinimumSize + k, true) == Some(maps[MinimumSize + k - MinimumSize]);
    }
  }

  // ---------------------------------------------------------------------
  // What one call of `decode` sends

  /** What the framer loop sends for candidate length L. */
  function SentAt(bytes: seq<byte>, maps: seq<Table>, L: nat): Sent
    requires FitMaps(maps) && MinimumSize <= L <= |bytes| && L < MinimumSize + TableCount
  {
    match Candidate(bytes, L, maps[L - MinimumSize])
    case None => Nothing
    case Some(p) => ParseTelegram(p)
  }

  /** What the candidate lengths from 5 up to, not including, hi send: one entry per length, in order. */
  function Tried(bytes: seq<byte>, maps: seq<Table>, hi: nat): (r: seq<Sent>)
    requires FitMaps(maps) && hi <= |bytes| && hi <= MinimumSize + TableCount
    ensures |r| == if hi <= MinimumSize then 0 else hi - MinimumSize
  {
    var n := if hi <= MinimumSize then 0 else hi - MinimumSize;
    seq(n, j requires 0 <= j < n => SentAt(bytes, maps, MinimumSize + j))
  }

  /** Everything a run of steps sends, in order. */
  function Collect(steps: seq<Sent>): Sent {
    if steps == [] then Nothing else Then(Collect(steps[..|steps| - 1]), steps[|steps| - 1])
  }

  lemma CollectSnoc(steps: seq<Sent>, step: Sent)
    ensures Collect(steps + [step]) == Then(Collect(steps), step)
  {
    assert (steps + [step])[..|steps|] == steps;
  }

  /** Trying one more length appends what that length sends. */
  lemma TriedNext(bytes: seq<byte>, maps: seq<Table>, L: nat)
    requires FitMaps(maps) && MinimumSize <= L < |bytes| && L < MinimumSize + TableCount
    ensures Tried(bytes, maps, L + 1) == Tried(bytes, maps, L) + [SentAt(bytes, maps, L)]
  {
  }

  /** What `decode` sends for a bit stream: every length from 5 to two less than the number of demodulated bytes is tried. */
  function Decoded(bits: seq<byte>, maps: seq<Table>): Sent
    requires FitMaps(maps)
  {
    var bytes := Demod.Demodulated(bits);
    if |bytes| < MinimumSize then Nothing
    else Collect(Tried(bytes, maps, |bytes| - 1))
  }

  /** `repaired_telegram[i] ^= error[i]` for every i: the frame XORed with the pattern. */
  method ApplyPattern(frame: seq<byte>, error: seq<byte>) returns (repaired: seq<byte>)
    requires |frame| == |error|
    ensures repaired == XorBytes(frame, error)
  {
    repaired := frame;
    for i := 0 to |error|
      invariant |repaired| == |frame|
      invariant forall k :: 0 <= k < i ==> repaired[k] == XorByte(frame[k], error[k])
      invariant forall k :: i <= k < |frame| ==> repaired[k] == frame[k]
    {
      repaired := repaired[i := XorByte(repaired[i], error[i])];
    }
  }

  /**
    One iteration of the framer loop. The frame is copied and its check
    bytes inverted in place, the syndrome computed, and, if the table for
    this length has an entry, the pattern XORed away; the repaired frame's
    syndrome is then 0, as the source asserts.
  */
  method TryLength(byteArray: seq<byte>, L: nat, table: Table) returns (c: Option<Repaired>)
    requires MinimumSize <= L <= |byteArray| && Filed(table, L)
    ensures c == Candidate(byteArray, L, table)
  {
    var telegramArray := byteArray[0..L];
    // undo the inversion of the two check bytes
    telegramArray := telegramArray[L - 2 := XorByte(telegramArray[L - 2], 0xff)];
    telegramArray := telegramArray[L - 1 := XorByte(telegramArray[L - 1], 0xff)];
    FramedBytes(byteArray, L);
    assert telegramArray == Framed(byteArray, L);
    var rem := Crc16Remainder(telegramArray);
    if rem == 0 {
      // syndrome 0: the frame is accepted as it is
      return Some(Repaired(telegramArray[0..L - 2], 0));
    }
    if rem !in table {
      return None;
    }
    var error := table[rem];
    var repairedTelegram := ApplyPattern(telegramArray, error);
    var check := Crc16Remainder(repairedTelegram);
    RepairChecks(telegramArray, table);
    assert check == 0;
    c := Some(Repaired(repairedTelegram[0..L - 2], PopCount(error)));
  }

  /** One iteration of the framer loop, with what its candidate sends (`for telegram in telegrams`). */
  method Step(byteArray: seq<byte>, maps: seq<Table>, L: nat) returns (sent: Sent)
    requires FitMaps(maps) && MinimumSize <= L < |byteArray| && L < MinimumSize + TableCount
    ensures sent == SentAt(byteArray, maps, L)
  {
    var candidate := TryLength(byteArray, L, maps[L - MinimumSize]);
    if candidate.None? {
      return Nothing;
    }
    sent := ParseTelegram(candidate.value);
  }

  /**
    The framer loop of `decode`: what is sent for every candidate length
    from 5 up to, not including, the number of bytes less one, in order.
  */
  method Frame(byteArray: seq<byte>, maps: seq<Table>) returns (sent: Sent)
    requires FitMaps(maps) && MinimumSize <= |byteArray| <= MinimumSize + TableCount
    ensures sent == Collect(Tried(byteArray, maps, |byteArray| - 1))
  {
    sent := Nothing;
    var telegramLength := MinimumSize;
    while telegramLength < |byteArray| - 1
      invariant MinimumSize <= telegramLength
      invariant telegramLength <= MinimumSize || telegramLength < |byteArray|
      invariant sent == Collect(Tried(byteArray, maps, telegramLength))
    {
      var step := Step(byteArray, maps, telegramLength);
      TriedNext(byteArray, maps, telegramLength);
      CollectSnoc(Tried(byteArray, maps, telegramLength), step);
      sent := Then(sent, step);
      telegramLength := telegramLength + 1;
    }
    if |byteArray| - 1 < MinimumSize {
      assert Tried(byteArray, maps, |byteArray| - 1) == [] == Tried(byteArray, maps, telegramLength);
    }
  }

  /** The decoder object: its tables, and everything it has sent to the R09 and raw channels. */
  class Decoder {
    const maps: seq<Table>
    ghost const disableErrorCorrection: bool
    var r09Sent: seq<R09Telegram>
    var rawSent: seq<RawTelegram>

    ghost predicate Valid() {
      MapsFor(maps, disableErrorCorrection) && FitMaps(maps)
    }

    constructor (maps: seq<Table>, ghost disableErrorCorrection: bool)
      requires MapsFor(maps, disableErrorCorrection)
      ensures this.maps == maps && this.disableErrorCorrection == disableErrorCorrection && Valid()
      ensures r09Sent == [] && rawSent == []
    {
      this.maps := maps;
      this.disableErrorCorrection := disableErrorCorrection;
      BuiltMapsFit(maps, disableErrorCorrection);
      r09Sent := [];
      rawSent := [];
    }

    /** `Decoder::new`: no decoder when a table collides, otherwise one holding the built tables and nothing sent. */
    static method New(disableErrorCorrection: bool) returns (d: Option<Decoder>)
      ensures d.None? <==> exists len :: MinimumSize <= len < MinimumSize + TableCount && BuiltTable(len, disableErrorCorrection).None?
      ensures d.Some? ==> fresh(d.value) && d.value.Valid() && d.value.disableErrorCorrection == disableErrorCorrection
      ensures d.Some? ==> d.value.r09Sent == [] && d.value.rawSent == []
    {
      var maps := BuildMaps(disableErrorCorrection);
      if maps.None? {
        return None;
      }
      var decoder := new Decoder(maps.value, disableErrorCorrection);
      d := Some(decoder);
    }

    /** `decode`: the records of `Decoded` are appended to the channels; the tables are unchanged. */
    method Decode(bits: seq<byte>)
      requires Valid()
      modifies this
      ensures r09Sent == old(r09Sent) + Decoded(bits, maps).r09
      ensures rawSent == old(rawSent) + Decoded(bits, maps).raw
    {
      var byteArray := Demod.Demodulate(bits);
      // fewer than five bytes: no frame length to try
      if |byteArray| < MinimumSize {
        return;
      }
      var sent := Frame(byteArray, maps);
      r09Sent := r09Sent + sent.r09;
      rawSent := rawSent + sent.raw;
    }

    /** `process`: decodes a copy of the input. */
    method Process(bits: seq<byte>)
      requires Valid()
      modifies this
      ensures r09Sent == old(r09Sent) + Decoded(bits, maps).r09
      ensures rawSent == old(rawSent) + Decoded(bits, maps).raw
    {
      var dataCopy := bits;
      Decode(dataCopy);
    }
  }
}
