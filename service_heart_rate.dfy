/** The Heart Rate Measurement characteristic of the Bluetooth SIG Heart
    Rate Service (section 3.1 of its specification): a flags byte, an 8- or
    16-bit rate, an optional contact status, optional expended energy and a
    trailing list of RR intervals. */
module ServiceHeartRate {
  import opened Bytes

  const RATE_16_BITS: int := 0x1
  const CONTACT_DETECTED: int := 0x2
  const CONTACT_SENSOR_PRESENT: int := 0x4
  const ENERGY_PRESENT: int := 0x8
  const RR_INTERVAL_PRESENT: int := 0x10

  /** The object parseHeartRate returns; `None` is a field it does not set. */
  datatype HeartRateMeasurement = HeartRateMeasurement(
    heartRate: int,
    contactDetected: Option<bool>,
    energyExpended: Option<int>,
    rrIntervals: Option<seq<int>>)

  /** The offset just past the rate field. */
  function RateEnd(flags: byte): nat
  {
    if FlagSet(flags, RATE_16_BITS) then 3 else 2
  }

  /** The offset just past the optional energy field, where RR data starts. */
  function RrStart(flags: byte): nat
  {
    RateEnd(flags) + if FlagSet(flags, ENERGY_PRESENT) then 2 else 0
  }

  /** Every complete little-endian u16 from byte i to the end, in order. */
  function RrFrom(data: seq<byte>, i: nat): seq<int>
    decreases |data| - i
  {
    if i + 1 < |data| then [Uint16(data, i)] + RrFrom(data, i + 2) else []
  }

  /** What parseHeartRate returns, or the RangeError its reads throw. */
  function HeartRateOf(data: seq<byte>): (r: Result<HeartRateMeasurement>)
    ensures r.Ok? <==> |data| >= 1 && |data| >= RrStart(data[0])
    ensures r.Err? ==> r.failure == RangeError
    ensures r.Ok? ==> 0 <= r.value.heartRate < 0x1_0000
    ensures r.Ok? && !FlagSet(data[0], RATE_16_BITS) ==> r.value.heartRate < 256
    ensures r.Ok? ==> (r.value.rrIntervals.Some? <==> FlagSet(data[0], RR_INTERVAL_PRESENT))
  {
    if |data| < 1 then Err(RangeError)
    else
      var flags := data[0];
      if |data| < RrStart(flags) then Err(RangeError)
      else
        Ok(HeartRateMeasurement(
          if FlagSet(flags, RATE_16_BITS) then Uint16(data, 1) else data[1],
          if FlagSet(flags, CONTACT_SENSOR_PRESENT) then Some(FlagSet(flags, CONTACT_DETECTED)) else None,
          if FlagSet(flags, ENERGY_PRESENT) then Some(Uint16(data, RateEnd(flags))) else None,
          if FlagSet(flags, RR_INTERVAL_PRESENT) then Some(RrFrom(data, RrStart(flags))) else None))
  }

  /** parseHeartRate: the cursor `index` walks the fields the flags announce. */
  method ParseHeartRate(data: seq<byte>) returns (r: Result<HeartRateMeasurement>)
    ensures r == HeartRateOf(data)
  {
    if |data| < 1 {
      return Err(RangeError);
    }
    var flags := data[0];
    var index := 1;
    var heartRate: int;
    if FlagSet(flags, RATE_16_BITS) {
      if index + 2 > |data| {
        return Err(RangeError);
      }
      heartRate := Uint16(data, index);
      index := index + 2;
    } else {
      if index + 1 > |data| {
        return Err(RangeError);
      }
      heartRate := data[index];
      index := index + 1;
    }
    var contactDetected := None;
    if FlagSet(flags, CONTACT_SENSOR_PRESENT) {
      contactDetected := Some(FlagSet(flags, CONTACT_DETECTED));
    }
    var energyExpended := None;
    if FlagSet(flags, ENERGY_PRESENT) {
      if index + 2 > |data| {
        return Err(RangeError);
      }
      energyExpended := Some(Uint16(data, index));
      index := index + 2;
    }
    var rrIntervals := None;
    if FlagSet(flags, RR_INTERVAL_PRESENT) {
      var intervals := ReadRrIntervals(data, index);
      rrIntervals := Some(intervals);
    }
    return Ok(HeartRateMeasurement(heartRate, contactDetected, energyExpended, rrIntervals));
  }

  /** The `for (; index + 1 < data.byteLength; index += 2)` loop of parseHeartRate. */
  method ReadRrIntervals(data: seq<byte>, start: nat) returns (intervals: seq<int>)
    ensures intervals == RrFrom(data, start)
  {
    intervals := [];
    var index := start;
    while index + 1 < |data|
      invariant start <= index
      invariant RrFrom(data, start) == intervals + RrFrom(data, index)
      decreases |data| - index
    {
      intervals := intervals + [Uint16(data, index)];
      index := index + 2;
    }
    assert intervals + [] == intervals;
  }

  /** The rate is the u16 at bytes 1-2 when flag bit 0 is set and the byte
      at 1 otherwise; contact status is present exactly when bit 2 is set and
      is then bit 1; energy is present exactly when bit 3 is set and is the
      u16 right after the rate. */
  lemma HeaderFields(data: seq<byte>)
    requires HeartRateOf(data).Ok?
    ensures var m := HeartRateOf(data).value; var flags := data[0];
      && (FlagSet(flags, RATE_16_BITS) ==> m.heartRate == data[1] as int + 256 * data[2] as int)
      && (!FlagSet(flags, RATE_16_BITS) ==> m.heartRate == data[1] as int)
      && (m.contactDetected.Some? <==> FlagSet(flags, CONTACT_SENSOR_PRESENT))
      && (m.contactDetected.Some? ==> m.contactDetected.value == FlagSet(flags, CONTACT_DETECTED))
      && (m.energyExpended.Some? <==> FlagSet(flags, ENERGY_PRESENT))
      && (m.energyExpended.Some? ==> m.energyExpended.value == Uint16(data, RateEnd(flags)))
      && (m.rrIntervals.Some? <==> FlagSet(flags, RR_INTERVAL_PRESENT))
  {
  }

  /** A notification is read in full exactly when it holds every field its
      flags announce; RR data starts at 1 + (2 or 1) + (2 or 0). */
  lemma LengthNeeded(data: seq<byte>)
    requires |data| >= 1
    ensures HeartRateOf(data).Ok? <==> |data| >= RrStart(data[0])
    ensures RrStart(data[0]) ==
      1 + (if FlagSet(data[0], RATE_16_BITS) then 2 else 1) + (if FlagSet(data[0], ENERGY_PRESENT) then 2 else 0)
  {
  }

  /** The RR list holds every complete pair from i on, in order: an odd
      trailing byte is ignored. */
  lemma {:induction false} RrPairs(data: seq<byte>, i: nat)
    requires i <= |data|
    ensures |RrFrom(data, i)| == (|data| - i) / 2
    ensures forall k :: 0 <= k < |RrFrom(data, i)| ==> RrFrom(data, i)[k] == Uint16(data, i + 2 * k)
    decreases |data| - i
  {
    if i + 1 < |data| {
      RrPairs(data, i + 2);
      var rest := RrFrom(data, i + 2);
      var all := [Uint16(data, i)] + rest;
      assert RrFrom(data, i) == all;
      assert (|data| - i) / 2 == (|data| - (i + 2)) / 2 + 1;
      forall k | 0 <= k < |all|
        ensures all[k] == Uint16(data, i + 2 * k)
      {
        if k > 0 {
          assert all[k] == rest[k - 1];
          assert i + 2 * k == (i + 2) + 2 * (k - 1);
        }
      }
    } else {
      assert (|data| - i) / 2 == 0;
    }
  }

  /** A measurement a sensor can send: a rate that fits its field, and u16
      energy and RR values. */
  predicate Sendable(m: HeartRateMeasurement, wide: bool)
  {
    && 0 <= m.heartRate < (if wide then 0x1_0000 else 0x100)
    && (m.energyExpended.Some? ==> 0 <= m.energyExpended.value < 0x1_0000)
    && (m.rrIntervals.Some? ==> forall k :: 0 <= k < |m.rrIntervals.value| ==> 0 <= m.rrIntervals.value[k] < 0x1_0000)
  }

  /** The flags byte announcing the fields of m. */
  function FlagsFor(m: HeartRateMeasurement, wide: bool): byte
  {
    (if wide then RATE_16_BITS else 0)
    + (if m.contactDetected == Some(true) then CONTACT_DETECTED else 0)
    + (if m.contactDetected.Some? then CONTACT_SENSOR_PRESENT else 0)
    + (if m.energyExpended.Some? then ENERGY_PRESENT else 0)
    + (if m.rrIntervals.Some? then RR_INTERVAL_PRESENT else 0)
  }

  /** The characteristic value a sensor sends for m. */
  function EncodeHeartRate(m: HeartRateMeasurement, wide: bool): seq<byte>
    requires Sendable(m, wide)
  {
    [FlagsFor(m, wide)]
    + (if wide then EncodeUint16s([m.heartRate]) else [m.heartRate as byte])
    + (if m.energyExpended.Some? then EncodeUint16s([m.energyExpended.value]) else [])
    + (if m.rrIntervals.Some? then EncodeUint16s(m.rrIntervals.value) else [])
  }

  lemma FlagsForBits(m: HeartRateMeasurement, wide: bool)
    ensures var flags := FlagsFor(m, wide);
      && (FlagSet(flags, RATE_16_BITS) <==> wide)
      && (FlagSet(flags, CONTACT_DETECTED) <==> m.contactDetected == Some(true))
      && (FlagSet(flags, CONTACT_SENSOR_PRESENT) <==> m.contactDetected.Some?)
      && (FlagSet(flags, ENERGY_PRESENT) <==> m.energyExpended.Some?)
      && (FlagSet(flags, RR_INTERVAL_PRESENT) <==> m.rrIntervals.Some?)
  {
  }

  lemma {:induction false} RrRoundTrip(data: seq<byte>, i: nat, rr: seq<int>)
    requires forall k :: 0 <= k < |rr| ==> 0 <= rr[k] < 0x1_0000
    requires |data| == i + 2 * |rr| && data[i..] == EncodeUint16s(rr)
    ensures RrFrom(data, i) == rr
    decreases |rr|
  {
    if rr != [] {
      assert data[i + 2..] == EncodeUint16s(rr[1..]) by {
        assert data[i + 2..] == data[i..][2..];
      }
      RrRoundTrip(data, i + 2, rr[1..]);
      assert data[i] == data[i..][0] && data[i + 1] == data[i..][1];
    }
  }

  /** What a sensor sends parses back to exactly the measurement it encodes. */
  lemma HeartRateRoundTrip(m: HeartRateMeasurement, wide: bool)
    requires Sendable(m, wide)
    ensures HeartRateOf(EncodeHeartRate(m, wide)) == Ok(m)
  {
    var data := EncodeHeartRate(m, wide);
    var flags := FlagsFor(m, wide);
    FlagsForBits(m, wide);
    var rate: seq<byte> := if wide then EncodeUint16s([m.heartRate]) else [m.heartRate as byte];
    var energy: seq<byte> := if m.energyExpended.Some? then EncodeUint16s([m.energyExpended.value]) else [];
    var rr: seq<byte> := if m.rrIntervals.Some? then EncodeUint16s(m.rrIntervals.value) else [];
    assert data == [flags] + rate + energy + rr;
    assert |data| == RrStart(flags) + |rr|;
    assert data[RrStart(flags)..] == rr;
    if wide {
      assert data[1] == rate[0] && data[2] == rate[1];
    } else {
      assert data[1] == rate[0];
    }
    if m.energyExpended.Some? {
      assert data[RateEnd(flags)] == energy[0] && data[RateEnd(flags) + 1] == energy[1];
    }
    if m.rrIntervals.Some? {
      RrRoundTrip(data, RrStart(flags), m.rrIntervals.value);
    }
    if m.contactDetected.Some? {
      assert FlagSet(flags, CONTACT_DETECTED) == m.contactDetected.value;
    }
  }
}
