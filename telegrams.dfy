/**
  R09 field extraction (src/decoder/structs.rs): `BCD::parse` reads
  nibbles as decimal digits, and `parse_r09_telegram` unpacks the
  reporting point, the delay and the BCD-coded line, run and destination
  numbers of an R09.16 payload.
*/
module Telegrams {
  import opened Wrappers
  import opened Bits

  /** `u32` arithmetic, taken as wrapping modulo 2^32 (the release-build behaviour). */
  const U32Modulus: nat := 0x1_0000_0000

  /** The high nibble of a byte (`b >> 4`). */
  function Hi(b: byte): (r: nat)
    ensures r < 16 && 16 * r <= b
  {
    b / 16
  }

  /** The low nibble of a byte (`b & 0xf`). */
  function Lo(b: byte): (r: byte)
    ensures r < 16 && b == 16 * Hi(b) + r
  {
    b % 16
  }

  // ---------------------------------------------------------------------
  // BCD

  /** Every value is a decimal digit. */
  predicate AllDigits(ds: seq<byte>) {
    forall k :: 0 <= k < |ds| ==> ds[k] <= 9
  }

  function Pow10(n: nat): (r: nat)
    ensures r >= 1
  {
    if n == 0 then 1 else 10 * Pow10(n - 1)
  }

  /** The digits read as a decimal number, most significant first. */
  function Decimal(ds: seq<byte>): nat {
    if |ds| == 0 then 0 else 10 * Decimal(ds[..|ds| - 1]) + ds[|ds| - 1]
  }

  /** Digits below 10 make a number with fewer than |ds| decimal places. */
  lemma {:induction false} DecimalBound(ds: seq<byte>)
    requires AllDigits(ds)
    ensures Decimal(ds) < Pow10(|ds|)
  {
    if |ds| > 0 {
      var init := ds[..|ds| - 1];
      assert AllDigits(init);
      DecimalBound(init);
    }
  }

  /** Nine digits or fewer never reach 2^32. */
  lemma ShortDecimalFits(ds: seq<byte>)
    requires AllDigits(ds) && |ds| <= 9
    ensures Decimal(ds) < U32Modulus
  {
    DecimalBound(ds);
    Pow10Monotone(|ds|, 9);
  }

  lemma {:induction false} Pow10Monotone(m: nat, n: nat)
    requires m <= n
    ensures Pow10(m) <= Pow10(n)
    decreases n
  {
    if m < n {
      Pow10Monotone(m, n - 1);
    }
  }

  /** What `BCD::parse` returns: nothing if some value is not a digit, else the decimal number in a `u32`. */
  function Bcd(ds: seq<byte>): Option<nat> {
    if AllDigits(ds) then Some(Decimal(ds) % U32Modulus) else None
  }

  /** `BCD::parse`: fails as soon as it meets a value above 9, else accumulates `number * 10 + val`. */
  method BcdParse(bytes: seq<byte>) returns (r: Option<nat>)
    ensures r == Bcd(bytes)
  {
    var number: nat := 0;
    for i := 0 to |bytes|
      invariant AllDigits(bytes[..i])
      invariant number == Decimal(bytes[..i]) % U32Modulus
    {
      if bytes[i] > 9 {
        assert !AllDigits(bytes);
        return None;
      }
      assert bytes[..i + 1][..i] == bytes[..i];
      DecimalStep(Decimal(bytes[..i]), bytes[i]);
      number := (number * 10 + bytes[i]) % U32Modulus;
    }
    assert bytes[..|bytes|] == bytes;
    r := Some(number);
  }

  /** The remainder is the unique r below 2^32 with n = 2^32 q + r. */
  lemma ModUnique(n: int, q: int, r: int)
    requires 0 <= r < U32Modulus && n == U32Modulus * q + r
    ensures n % U32Modulus == r
  {
  }

  /** Reducing before the step gives the same `u32` as reducing after it. */
  lemma DecimalStep(x: nat, d: nat)
    ensures ((x % U32Modulus) * 10 + d) % U32Modulus == (x * 10 + d) % U32Modulus
  {
    var q, m := x / U32Modulus, x % U32Modulus;
    var n := m * 10 + d;
    var q2, r2 := n / U32Modulus, n % U32Modulus;
    assert x * 10 + d == U32Modulus * (10 * q + q2) + r2;
    ModUnique(x * 10 + d, 10 * q + q2, r2);
  }

  /** `BCD::parse` fails exactly when some value is above 9; the empty input gives 0; short inputs give their decimal value. */
  lemma BcdSpec(ds: seq<byte>)
    ensures Bcd(ds).None? <==> exists k :: 0 <= k < |ds| && ds[k] > 9
    ensures Bcd([]) == Some(0)
    ensures Bcd(ds).Some? && |ds| <= 9 ==> Bcd(ds).value == Decimal(ds) < Pow10(|ds|)
  {
    if AllDigits(ds) && |ds| <= 9 {
      ShortDecimalFits(ds);
      DecimalBound(ds);
    }
  }

  // ---------------------------------------------------------------------
  // R09.16

  /** The only R09 variant the decoder produces. */
  datatype R09Type = R16

  /**
    An R09 record (`R09Telegram`). The source's fixed-width integer fields
    are mathematical integers here; the lemmas below bound each one.
  */
  datatype R09Telegram = R09Telegram(
    telegramType: R09Type,
    delay: Option<int>,
    reportingPoint: nat,
    junction: nat,
    direction: nat,
    requestStatus: nat,
    priority: Option<nat>,
    directionRequest: Option<nat>,
    line: Option<nat>,
    runNumber: Option<nat>,
    destinationNumber: Option<nat>,
    trainLength: Option<nat>,
    vehicleNumber: Option<nat>,
    operator: Option<nat>)

  /** The line number's digits: the low nibble of byte 4 and both nibbles of byte 5. */
  function LineDigits(b: seq<byte>): (r: seq<byte>)
    requires |b| >= 9
  {
    [Lo(b[4]), Hi(b[5]), Lo(b[5])]
  }

  /** The run number's digits: both nibbles of byte 6. */
  function RunDigits(b: seq<byte>): (r: seq<byte>)
    requires |b| >= 9
  {
    [Hi(b[6]), Lo(b[6])]
  }

  /** The destination number's digits: both nibbles of byte 7 and the high nibble of byte 8. */
  function DestinationDigits(b: seq<byte>): (r: seq<byte>)
    requires |b| >= 9
  {
    [Hi(b[7]), Lo(b[7]), Hi(b[8])]
  }

  /** The reporting point assembled from the four nibbles of bytes 2 and 3 (disjoint bits, so `|` is `+`). */
  function ReportingPoint(b: seq<byte>): (r: nat)
    requires |b| >= 9
    ensures r == (b[2] as int) * 256 + b[3] as int && r < 0x1_0000
  {
    Hi(b[2]) * 4096 + Lo(b[2]) * 256 + Hi(b[3]) * 16 + Lo(b[3])
  }

  /** `(sign * -2 + 1) * value` of byte 1: its three-bit magnitude, negated when bit 7 is set. */
  function Delay(b1: byte): (r: int)
    ensures -7 <= r <= 7
    ensures r == (if b1 < 128 then (b1 as int / 16) % 8 else -((b1 as int / 16) % 8))
  {
    var sign := b1 / 128;
    var value := Hi(b1) % 8;
    (sign * -2 + 1) * value
  }

  /** The record built from a payload and its three decoded BCD fields. */
  function Record(b: seq<byte>, line: nat, run: nat, destination: nat): (r: R09Telegram)
    requires |b| >= 9
    ensures r.reportingPoint == ReportingPoint(b)
    ensures r.junction * 10 + r.direction == r.reportingPoint / 4 && r.direction < 10
    ensures r.requestStatus == r.reportingPoint % 4
    ensures r.delay == Some(Delay(b[1]))
    ensures r.line == Some(line) && r.runNumber == Some(run) && r.destinationNumber == Some(destination)
    ensures r.priority == Some(b[4] / 64) && r.priority.value < 4
    ensures r.directionRequest == Some((b[4] / 16) % 4) && r.directionRequest.value < 4
    ensures r.trainLength == Some(b[8] % 8) && r.trainLength.value < 8
    ensures r.telegramType == R16 && r.vehicleNumber.None? && r.operator.None?
  {
    var rp := ReportingPoint(b);
    R09Telegram(
      telegramType := R16,
      delay := Some(Delay(b[1])),
      reportingPoint := rp,
      junction := (rp / 4) / 10,
      direction := (rp / 4) % 10,
      requestStatus := rp % 4,
      priority := Some(b[4] / 64),
      directionRequest := Some(Hi(b[4]) % 4),
      line := Some(line),
      runNumber := Some(run),
      destinationNumber := Some(destination),
      trainLength := Some(b[8] % 8),
      vehicleNumber := None,
      operator := None)
  }

  /**
    `parse_r09_telegram`: the payload holds at least the nine bytes it reads.
    There is no record exactly when a BCD field holds a nibble above 9;
    otherwise every field lies in the range its bits allow: the reporting
    point is bytes 2 and 3 read big-endian and splits into junction,
    direction and request status, the delay is byte 1's three-bit magnitude
    negated when bit 7 is set, and the line, run and destination numbers
    are the decimal values of their nibbles.
  */
  function ParseR09Telegram(b: seq<byte>): (r: Option<R09Telegram>)
    requires |b| >= 9
    ensures r.None? <==> !AllDigits(LineDigits(b)) || !AllDigits(RunDigits(b)) || !AllDigits(DestinationDigits(b))
    ensures r.Some? ==>
      r.value.reportingPoint == (b[2] as int) * 256 + b[3] as int && r.value.reportingPoint < 0x1_0000 &&
      r.value.junction * 10 + r.value.direction == r.value.reportingPoint / 4 && r.value.direction < 10 &&
      r.value.requestStatus == r.value.reportingPoint % 4
    ensures r.Some? ==>
      r.value.delay.Some? && -7 <= r.value.delay.value <= 7 &&
      r.value.delay.value == (if b[1] < 128 then (b[1] as int / 16) % 8 else -((b[1] as int / 16) % 8))
    ensures r.Some? ==>
      r.value.line == Some(Decimal(LineDigits(b))) && r.value.line.value <= 999 &&
      r.value.runNumber == Some(Decimal(RunDigits(b))) && r.value.runNumber.value <= 99 &&
      r.value.destinationNumber == Some(Decimal(DestinationDigits(b))) && r.value.destinationNumber.value <= 999
    ensures r.Some? ==>
      r.value.priority == Some(b[4] / 64) && r.value.priority.value < 4 &&
      r.value.directionRequest == Some((b[4] / 16) % 4) && r.value.directionRequest.value < 4 &&
      r.value.trainLength == Some(b[8] % 8) && r.value.trainLength.value < 8 &&
      r.value.telegramType == R16 && r.value.vehicleNumber.None? && r.value.operator.None?
  {
    BcdSpec(LineDigits(b));
    BcdSpec(RunDigits(b));
    BcdSpec(DestinationDigits(b));
    match Bcd(LineDigits(b))
    case None => None
    case Some(line) =>
      match Bcd(RunDigits(b))
      case None => None
      case Some(run) =>
        match Bcd(DestinationDigits(b))
        case None => None
        case Some(destination) => Some(Record(b, line, run, destination))
  }

  lemma DecimalOfThree(x: byte, y: byte, z: byte)
    ensures Decimal([x, y, z]) == 100 * x + 10 * y + z
  {
    assert [x][..0] == [];
    assert Decimal([x]) == x;
    assert [x, y][..1] == [x];
    assert Decimal([x, y]) == 10 * x + y;
    assert [x, y, z][..2] == [x, y];
  }

  /** An R09.16 payload: line 12, run 34, destination 567, reporting point 0x1234, delay -3. */
  const ExamplePayload: seq<byte> := [0x91, 0xb6, 0x12, 0x34, 0x00, 0x12, 0x34, 0x56, 0x75]

  lemma ExampleDecodes()
    ensures ParseR09Telegram(ExamplePayload) == Some(Record(ExamplePayload, 12, 34, 567))
  {
    var b := ExamplePayload;
    DecimalOfThree(0, 1, 2);
    DecimalOfThree(5, 6, 7);
    assert [3, 4][..1] == [3] && [3][..0] == [];
    assert LineDigits(b) == [0, 1, 2] && RunDigits(b) == [3, 4] && DestinationDigits(b) == [5, 6, 7];
    assert Bcd([0, 1, 2]) == Some(12) && Bcd([3, 4]) == Some(34) && Bcd([5, 6, 7]) == Some(567);
  }

  lemma ParseR09Example()
    ensures ParseR09Telegram(ExamplePayload)
      == Some(R09Telegram(R16, Some(-3), 0x1234, 116, 5, 0, Some(0), Some(0),
                          Some(12), Some(34), Some(567), Some(5), None, None))
  {
    ExampleDecodes();
    var b := ExamplePayload;
    assert ReportingPoint(b) == 0x1234;
    assert Delay(b[1]) == -3;
  }
}
