/**
  What one call of `decode` sends, stated against the frames on the
  channel: short streams send nothing, only the 11-byte candidate can
  carry an R09 record, raw telegrams come only from frames whose check
  bytes fit, a valid R09 frame is delivered with up to two bits flipped,
  and the tables for lengths 20 and 21 are never consulted.
*/
module DecoderFacts {
  import opened Wrappers
  import opened Bits
  import opened ByteOps
  import opened Crc
  import opened Tables
  import opened TableFacts
  import opened Framing
  import opened Telegrams
  import opened Dispatch
  import opened Decoding
  import Demod

  /** The length of frame that carries an R09.16 telegram: nine payload bytes and two check bytes. */
  const R09FrameLength: nat := 11

  /** A payload `parse_telegram` forwards as a raw telegram (when nothing was repaired). */
  predicate IsRaw(data: seq<byte>)
    requires |data| >= 1
  {
    Mode(data) != 9 && |data| >= 3 && !((Mode(data) <= 4 || Mode(data) >= 10) && |data| > 4)
  }

  /** A payload `parse_telegram` turns into an R09.16 record. */
  predicate IsR09(data: seq<byte>) {
    |data| == 9 && Mode(data) == 9 && Lo(data[0]) == 1 && Lo(data[1]) == 6 && ParseR09Telegram(data).Some?
  }

  /** A stream of fewer than 63 bits has at most six bytes, which leaves no candidate length to try. */
  lemma ShortStreamSendsNothing(bits: seq<byte>, maps: seq<Table>)
    requires FitMaps(maps) && |bits| < 63
    ensures Decoded(bits, maps) == Nothing
  {
    var bytes := Demod.Demodulated(bits);
    assert |bytes| <= 6;
    if |bytes| >= MinimumSize {
      assert Tried(bytes, maps, |bytes| - 1) == [];
    }
  }

  /** Only the 11-byte candidate can send an R09 record: the repaired payload has two bytes fewer than the frame. */
  lemma R09OnlyAtEleven(bytes: seq<byte>, maps: seq<Table>, L: nat)
    requires FitMaps(maps) && MinimumSize <= L <= |bytes| && L < MinimumSize + TableCount
    ensures L != R09FrameLength ==> SentAt(bytes, maps, L).r09 == []
    ensures |SentAt(bytes, maps, L).r09| <= 1
  {
  }

  /** A run of steps in which only step k may send R09 records sends those of step k. */
  lemma {:induction false} CollectR09(steps: seq<Sent>, k: nat)
    requires forall j :: 0 <= j < |steps| && j != k ==> steps[j].r09 == []
    ensures Collect(steps).r09 == if k < |steps| then steps[k].r09 else []
  {
    if steps != [] {
      var init := steps[..|steps| - 1];
      assert forall j :: 0 <= j < |init| && j != k ==> init[j].r09 == [] by {
        forall j | 0 <= j < |init| && j != k ensures init[j].r09 == [] {
          assert init[j] == steps[j];
        }
      }
      CollectR09(init, k);
      if k < |init| {
        assert init[k] == steps[k];
        assert steps[|steps| - 1].r09 == [];
      }
    }
  }

  /** The R09 records the lengths below hi send are those of length 11, if it is below hi. */
  lemma R09Below(bytes: seq<byte>, maps: seq<Table>, hi: nat)
    requires FitMaps(maps) && hi <= |bytes| && hi <= MinimumSize + TableCount
    ensures Collect(Tried(bytes, maps, hi)).r09 ==
      if hi > R09FrameLength then SentAt(bytes, maps, R09FrameLength).r09 else []
  {
    var steps := Tried(bytes, maps, hi);
    var k := R09FrameLength - MinimumSize;
    forall j | 0 <= j < |steps| && j != k ensures steps[j].r09 == [] {
      R09OnlyAtEleven(bytes, maps, MinimumSize + j);
    }
    CollectR09(steps, k);
  }

  /**
    One call of `decode` sends at most one R09 record: the one of the
    11-byte candidate, which is tried only when at least 13 bytes were
    demodulated.
  */
  lemma DecodedR09(bits: seq<byte>, maps: seq<Table>)
    requires FitMaps(maps)
    ensures Decoded(bits, maps).r09 ==
      if |Demod.Demodulated(bits)| > R09FrameLength + 1 then SentAt(Demod.Demodulated(bits), maps, R09FrameLength).r09 else []
    ensures |Decoded(bits, maps).r09| <= 1
  {
    var bytes := Demod.Demodulated(bits);
    if |bytes| >= MinimumSize {
      R09Below(bytes, maps, |bytes| - 1);
      if |bytes| > R09FrameLength + 1 {
        R09OnlyAtEleven(bytes, maps, R09FrameLength);
      }
    }
  }

  /**
    With a table `Decoder::new` builds for length L, a raw telegram is sent
    for L exactly when the first L bytes are a valid frame and its payload
    is a raw one; it is the payload as received. A repaired frame is never
    forwarded raw.
  */
  lemma RawAt(bytes: seq<byte>, maps: seq<Table>, L: nat, disableErrorCorrection: bool)
    requires FitMaps(maps) && MinimumSize <= L <= |bytes| && L < MinimumSize + TableCount
    requires BuiltTable(L, disableErrorCorrection) == Some(maps[L - MinimumSize])
    ensures SentAt(bytes, maps, L).raw ==
      if ValidFrame(bytes[..L]) && IsRaw(bytes[..L - 2]) then [RawTelegram(Mode(bytes[..L - 2]), bytes[..L - 2])] else []
  {
    var t := maps[L - MinimumSize];
    assert bytes[..L][..L] == bytes[..L];
    assert Framed(bytes[..L], L) == Framed(bytes, L);
    if ValidFrame(bytes[..L]) {
      ValidFrameAccepted(bytes, L, t);
    } else if disableErrorCorrection {
      assert t == map[];
    } else {
      CandidateCount(bytes, L, t);
    }
  }

  /** A payload the 11-byte candidate yields, repaired or not, is delivered as an R09 record when it parses as one. */
  lemma R09Delivered(bytes: seq<byte>, maps: seq<Table>, payload: seq<byte>, n: nat)
    requires FitMaps(maps) && R09FrameLength + 1 < |bytes| <= Demod.MaximumSize
    requires Candidate(bytes, R09FrameLength, maps[R09FrameLength - MinimumSize]) == Some(Repaired(payload, n))
    requires IsR09(payload)
    ensures Collect(Tried(bytes, maps, |bytes| - 1)).r09 == [ParseR09Telegram(payload).value]
  {
    var sent := ParseTelegram(Repaired(payload, n));
    assert SentAt(bytes, maps, R09FrameLength) == sent;
    assert |sent.r09| == 1 && sent.r09[0] == ParseR09Telegram(payload).value;
    R09Below(bytes, maps, |bytes| - 1);
  }

  /** An R09.16 payload repaired at length 11 from the demodulated stream is the one R09 record decoding sends. */
  lemma R09PayloadDecoded(bits: seq<byte>, maps: seq<Table>, payload: seq<byte>, n: nat)
    requires FitMaps(maps) && |Demod.Demodulated(bits)| > R09FrameLength + 1
    requires Candidate(Demod.Demodulated(bits), R09FrameLength, maps[R09FrameLength - MinimumSize]) == Some(Repaired(payload, n))
    requires IsR09(payload)
    ensures Decoded(bits, maps).r09 == [ParseR09Telegram(payload).value]
  {
    R09Delivered(Demod.Demodulated(bits), maps, payload, n);
  }

  /** A valid R09 frame at the head of the stream is delivered, whatever the tables. */
  lemma ValidR09Decoded(bits: seq<byte>, maps: seq<Table>, sent: seq<byte>)
    requires FitMaps(maps) && |Demod.Demodulated(bits)| > R09FrameLength + 1
    requires |sent| == R09FrameLength && ValidFrame(sent) && Demod.Demodulated(bits)[..R09FrameLength] == sent
    requires IsR09(sent[..9])
    ensures Decoded(bits, maps).r09 == [ParseR09Telegram(sent[..9]).value]
  {
    var bytes := Demod.Demodulated(bits);
    ValidFrameAccepted(bytes, R09FrameLength, maps[R09FrameLength - MinimumSize]);
    assert bytes[..9] == sent[..9];
    R09PayloadDecoded(bits, maps, sent[..9], 0);
  }

  /** A valid R09 frame with one flipped bit at the head of the stream is repaired and delivered. */
  lemma OneBitR09Decoded(bits: seq<byte>, maps: seq<Table>, sent: seq<byte>, q: nat)
    requires FitMaps(maps) && BuiltTable(R09FrameLength, false) == Some(maps[R09FrameLength - MinimumSize])
    requires |Demod.Demodulated(bits)| > R09FrameLength + 1
    requires |sent| == R09FrameLength && ValidFrame(sent) && q < 8 * R09FrameLength
    requires Demod.Demodulated(bits)[..R09FrameLength] == XorBytes(sent, Pattern(R09FrameLength, [q]))
    requires IsR09(sent[..9])
    ensures Decoded(bits, maps).r09 == [ParseR09Telegram(sent[..9]).value]
  {
    var bytes := Demod.Demodulated(bits);
    SingleBitRepaired(sent, bytes, R09FrameLength, maps[R09FrameLength - MinimumSize], q);
    R09PayloadDecoded(bits, maps, sent[..9], 1);
  }

  /** A valid R09 frame with two flipped bits at the head of the stream is repaired and delivered. */
  lemma TwoBitsR09Decoded(bits: seq<byte>, maps: seq<Table>, sent: seq<byte>, a: nat, b: nat)
    requires FitMaps(maps) && BuiltTable(R09FrameLength, false) == Some(maps[R09FrameLength - MinimumSize])
    requires |Demod.Demodulated(bits)| > R09FrameLength + 1
    requires |sent| == R09FrameLength && ValidFrame(sent) && a < b < 8 * R09FrameLength
    requires Demod.Demodulated(bits)[..R09FrameLength] == XorBytes(sent, Pattern(R09FrameLength, [a, b]))
    requires IsR09(sent[..9])
    ensures Decoded(bits, maps).r09 == [ParseR09Telegram(sent[..9]).value]
  {
    var bytes := Demod.Demodulated(bits);
    TwoBitsRepaired(sent, bytes, R09FrameLength, maps[R09FrameLength - MinimumSize], a, b);
    R09PayloadDecoded(bits, maps, sent[..9], 2);
  }

  /** Two sets of tables that agree on lengths 5 to 19 send the same for every length below 20. */
  lemma TriedSameTables(bytes: seq<byte>, maps: seq<Table>, other: seq<Table>, hi: nat)
    requires FitMaps(maps) && FitMaps(other) && hi <= |bytes| && hi <= Demod.MaximumSize - 1
    requires maps[..15] == other[..15]
    ensures Tried(bytes, maps, hi) == Tried(bytes, other, hi)
  {
    forall j | 0 <= j < |Tried(bytes, maps, hi)| ensures Tried(bytes, maps, hi)[j] == Tried(bytes, other, hi)[j] {
      assert maps[MinimumSize + j - MinimumSize] == maps[..15][j] == other[MinimumSize + j - MinimumSize];
      assert SentAt(bytes, maps, MinimumSize + j) == SentAt(bytes, other, MinimumSize + j);
    }
  }

  /**
    At most 21 bytes are demodulated and the longest candidate is two
    bytes shorter, so the tables for lengths 20 and 21 are built but
    never consulted.
  */
  lemma LongTablesUnused(bits: seq<byte>, maps: seq<Table>, other: seq<Table>)
    requires FitMaps(maps) && FitMaps(other) && maps[..15] == other[..15]
    ensures Decoded(bits, maps) == Decoded(bits, other)
  {
    var bytes := Demod.Demodulated(bits);
    if |bytes| >= MinimumSize {
      TriedSameTables(bytes, maps, other, |bytes| - 1);
    }
  }
}
