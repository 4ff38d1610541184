/**
  Classification (`Decoder::parse_telegram` and `Decoder::parse_r09`): what
  one payload sends to the R09 channels and to the raw channels. The mode
  is the high nibble of the first byte; mode 9 carries R09 and C09
  telegrams of variable length, the other modes are forwarded unrepaired
  as raw telegrams.
*/
module Dispatch {
  import opened Wrappers
  import opened Bits
  import opened Telegrams
  import opened Framing

  /** A raw telegram (`RawTelegram`): the mode stands for the `TelegramType` it converts to. */
  datatype RawTelegram = RawTelegram(mode: nat, data: seq<byte>)

  /** What one step sends: R09 records to the R09 channels, raw telegrams to the raw channels. */
  datatype Sent = Sent(r09: seq<R09Telegram>, raw: seq<RawTelegram>)

  const Nothing := Sent([], [])

  /** Both kinds of output of a followed by those of b. */
  function Then(a: Sent, b: Sent): Sent
  {
    Sent(a.r09 + b.r09, a.raw + b.raw)
  }

  /** The mode nibble of a payload. */
  function Mode(data: seq<byte>): (r: nat)
    requires |data| >= 1
    ensures r < 16
  {
    Hi(data[0])
  }

  /** The R09 length test: the low nibble of byte 1 counts the bytes after the first three. */
  predicate IsR09Length(data: seq<byte>)
    requires |data| >= 3
  {
    3 + Lo(data[1]) == |data|
  }

  /** The C09 length test: the low nibble of byte 2 counts the bytes after the first four. */
  predicate IsC09Length(data: seq<byte>)
    requires |data| >= 3
  {
    4 + Lo(data[2]) == |data|
  }

  /**
    `parse_r09`, called once the R09 length test has passed (its `assert_eq!`):
    an R09.16 record is sent only for type 1 with six bytes of fields, and
    only when the BCD fields decode.
  */
  function ParseR09(data: seq<byte>): (r: seq<R09Telegram>)
    requires |data| >= 3 && IsR09Length(data)
    ensures |r| <= 1
    ensures |r| == 1 <==> Lo(data[0]) == 1 && Lo(data[1]) == 6 && ParseR09Telegram(data).Some?
    ensures |r| == 1 ==> |data| == 9 && r[0] == ParseR09Telegram(data).value
  {
    var r09Type := Lo(data[0]);
    var r09Length := Lo(data[1]);
    if r09Type == 1 && r09Length == 6 then
      match ParseR09Telegram(data)
      case Some(t) => [t]
      case None => []
    else []
  }

  /**
    `parse_telegram` (the source reads the mode byte before it checks the
    length). A raw telegram is sent exactly when the mode is not 9, the
    payload has at least 3 bytes, at most 4 unless the mode lies in 5..8,
    and no bit was repaired; it is the mode with the payload unchanged. An
    R09 record is sent exactly when the mode is 9, the R09 length test
    passes (whatever the C09 test says: R09 is tried first), the type is 1,
    the length nibble is 6, so that the payload is 9 bytes, and the BCD
    fields decode; repaired payloads are accepted. At most one record is
    sent.
  */
  function ParseTelegram(p: Repaired): (r: Sent)
    requires |p.data| >= 1
    ensures |r.raw| + |r.r09| <= 1
    ensures |r.raw| == 1 <==>
      Mode(p.data) != 9 && |p.data| >= 3 && !((Mode(p.data) <= 4 || Mode(p.data) >= 10) && |p.data| > 4) &&
      p.bitsRepaired == 0
    ensures |r.raw| == 1 ==> r.raw[0] == RawTelegram(Mode(p.data), p.data)
    ensures |r.r09| == 1 <==>
      |p.data| == 9 && Mode(p.data) == 9 && Lo(p.data[0]) == 1 && Lo(p.data[1]) == 6 &&
      ParseR09Telegram(p.data).Some?
    ensures |r.r09| == 1 ==> r.r09[0] == ParseR09Telegram(p.data).value
  {
    var mode := Mode(p.data);
    var length := |p.data|;
    if length < 3 then Nothing
    else if (mode <= 4 || mode >= 10) && length > 4 then Nothing
    else if mode == 9 then
      if IsR09Length(p.data) then Sent(ParseR09(p.data), [])
      // a C09 telegram is only logged
      else if IsC09Length(p.data) then Nothing
      else Nothing
    else if p.bitsRepaired > 0 then Nothing
    else Sent([], [RawTelegram(mode, p.data)])
  }
}
