/** The PMD data-frame decoders: the envelope of a measurement notification,
    ECG frames, accelerometer frames in their 8-, 16- and 24-bit forms, and
    the PPG pass-through. Scaled samples are exact `real` quotients. */
module PolarFrames {
  import opened Bytes
  import opened PolarCodes

  /** The settings object a feature hands to a decoder. A field that is
      `None` is missing, and the decoder falls back on its default; an
      `undefined` settings object behaves as `{}`. */
  datatype Settings = Settings(channels: Option<int>, resolution: Option<int>)

  const NO_SETTINGS: Settings := Settings(None, None)

  function OrDefault(field: Option<int>, default: int): int
  {
    if field.Some? then field.value else default
  }

  // ---------------------------------------------------------------------------
  // ECG

  const ECG_DEFAULT_CHANNELS: int := 1
  const ECG_DEFAULT_RESOLUTION: int := 14

  /** What parseECGData returns: `channels` and one one-element row per sample. */
  datatype EcgFrame = EcgFrame(channels: int, data: seq<seq<real>>)

  /** One ECG sample: the 24-bit group `raw` shifted left and back right by
      32 - resolution bits, divided by `1 << (resolution - 1)`. */
  function EcgSample(raw: int, resolution: int): (r: real)
    ensures 1 <= resolution <= 31 ==> -1.0 <= r < 1.0
  {
    var shift := 32 - resolution;
    ShiftLeftOfOne(resolution - 1);
    var q := (ShiftRight(ShiftLeft(raw, shift), shift) as real) / (ShiftLeft(1, resolution - 1) as real);
    assert 1 <= resolution <= 31 ==> -1.0 <= q < 1.0 by {
      if 1 <= resolution <= 31 {
        SignExtendedQuotient(raw, resolution);
      }
    }
    q
  }

  /** The value an ECG sample divides: the raw group sign-extended from
      `resolution` bits, over 2^(resolution - 1). */
  lemma SignExtendedQuotient(raw: int, resolution: int)
    requires 1 <= resolution <= 31
    ensures var n := SignExtend(raw, resolution);
      && ShiftRight(ShiftLeft(raw, 32 - resolution), 32 - resolution) == n
      && ShiftLeft(1, resolution - 1) == Pow2(resolution - 1)
      && -1.0 <= n as real / Pow2(resolution - 1) as real < 1.0
  {
    var n := SignExtend(raw, resolution);
    var d := Pow2(resolution - 1);
    ShiftPairSignExtends(raw, resolution);
    ShiftLeftOfOne(resolution - 1);
    assert -(d as real) <= n as real < d as real;
    RealQuotientBounds(n as real, d as real);
  }

  /** The samples from byte i on; the group at i is read from its last byte
      first, so an incomplete group throws RangeError. */
  function EcgRows(data: seq<byte>, i: nat, resolution: int): (r: Result<seq<seq<real>>>)
    ensures r.Err? ==> r.failure == RangeError
    ensures r.Ok? ==> forall k :: 0 <= k < |r.value| ==> |r.value[k]| == 1
    decreases |data| - i
  {
    if i >= |data| then Ok([])
    else if i + 2 >= |data| then Err(RangeError)
    else Prepend([[EcgSample(Uint24(data, i), resolution)]], EcgRows(data, i + 3, resolution))
  }

  /** What parseECGData returns or throws for a body (frame type byte first). */
  function EcgFrameOf(data: seq<byte>, settings: Settings): (r: Result<EcgFrame>)
    ensures r.Err? ==> r.failure == RangeError
    ensures r.Ok? ==> forall k :: 0 <= k < |r.value.data| ==> |r.value.data[k]| == 1
    ensures r.Ok? ==> |data| >= 1 && (data[0] != ECG_RES14 ==> r.value.data == [])
  {
    var channels := OrDefault(settings.channels, ECG_DEFAULT_CHANNELS);
    var resolution := OrDefault(settings.resolution, ECG_DEFAULT_RESOLUTION);
    if |data| == 0 then Err(RangeError)
    else if data[0] != ECG_RES14 then Ok(EcgFrame(channels, []))
    else
      match EcgRows(data, 1, resolution)
      case Err(e) => Err(e)
      case Ok(rows) => Ok(EcgFrame(channels, rows))
  }

  /** parseECGData, with its cursor loop. */
  method ParseEcgData(data: seq<byte>, settings: Settings) returns (r: Result<EcgFrame>)
    ensures r == EcgFrameOf(data, settings)
  {
    var channels := OrDefault(settings.channels, ECG_DEFAULT_CHANNELS);
    var resolution := OrDefault(settings.resolution, ECG_DEFAULT_RESOLUTION);
    var i := 0;
    if i >= |data| {
      return Err(RangeError);
    }
    var frameType := data[i];
    i := i + 1;
    var result: seq<seq<real>> := [];
    if frameType == ECG_RES14 {
      var shift := 32 - resolution;
      PrependNil(EcgRows(data, 1, resolution));
      while i < |data|
        invariant 1 <= i
        invariant EcgRows(data, 1, resolution) == Prepend(result, EcgRows(data, i, resolution))
        decreases |data| - i
      {
        if i + 2 >= |data| {
          return Err(RangeError);
        }
        // b2 << 16 | b1 << 8 | b0: the three bytes occupy disjoint bits, so the
        // bitwise or is their little-endian sum
        var raw := Uint24(data, i);
        ShiftLeftOfOne(resolution - 1);
        var sample := (ShiftRight(ShiftLeft(raw, shift), shift) as real) / (ShiftLeft(1, resolution - 1) as real);
        PrependTwice(result, [[sample]], EcgRows(data, i + 3, resolution));
        result := result + [[sample]];
        i := i + 3;
      }
      assert result + [] == result;
    }
    return Ok(EcgFrame(channels, result));
  }

  /** For a resolution of 1 to 31 bits a sample is the raw group
      sign-extended from that many bits, over 2^(resolution - 1); so the
      integer before the division lies in [-2^(res-1), 2^(res-1) - 1] and
      the sample in [-1, 1). */
  lemma EcgSampleValue(raw: int, resolution: int)
    requires 1 <= resolution <= 31
    ensures var n := SignExtend(raw, resolution);
      && ShiftRight(ShiftLeft(raw, 32 - resolution), 32 - resolution) == n
      && -Pow2(resolution - 1) <= n < Pow2(resolution - 1)
      && EcgSample(raw, resolution) == n as real / Pow2(resolution - 1) as real
      && -1.0 <= EcgSample(raw, resolution) < 1.0
  {
    SignExtendedQuotient(raw, resolution);
  }

  lemma RealQuotientBounds(n: real, d: real)
    requires d > 0.0 && -d <= n < d
    ensures -1.0 <= n / d < 1.0
  {
  }

  /** A RES14 body parses exactly when its length after byte i is a
      multiple of three, into one row per three bytes. */
  lemma {:induction false} EcgRowsLength(data: seq<byte>, i: nat, resolution: int)
    requires i <= |data|
    ensures EcgRows(data, i, resolution).Ok? <==> (|data| - i) % 3 == 0
    ensures EcgRows(data, i, resolution).Ok? ==> |EcgRows(data, i, resolution).value| == (|data| - i) / 3
    decreases |data| - i
  {
    if i + 2 < |data| {
      var rest := EcgRows(data, i + 3, resolution);
      EcgRowsLength(data, i + 3, resolution);
      assert EcgRows(data, i, resolution) == Prepend([[EcgSample(Uint24(data, i), resolution)]], rest);
      ThreeMore(|data| - i);
    } else if i < |data| {
      assert EcgRows(data, i, resolution).Err?;
      assert 0 < |data| - i < 3;
    }
  }

  lemma ThreeMore(n: int)
    requires n >= 3
    ensures n % 3 == (n - 3) % 3 && n / 3 == (n - 3) / 3 + 1
  {
  }

  /** Row k of a parsed RES14 body is the sample of the group at i + 3k. */
  lemma {:induction false} EcgRowAt(data: seq<byte>, i: nat, resolution: int, k: nat)
    requires EcgRows(data, i, resolution).Ok? && k < |EcgRows(data, i, resolution).value|
    ensures i + 3 * k + 3 <= |data|
    ensures EcgRows(data, i, resolution).value[k] == [EcgSample(Uint24(data, i + 3 * k), resolution)]
    decreases k
  {
    var rest := EcgRows(data, i + 3, resolution);
    assert EcgRows(data, i, resolution) == Prepend([[EcgSample(Uint24(data, i), resolution)]], rest);
    if k > 0 {
      EcgRowAt(data, i + 3, resolution, k - 1);
      assert EcgRows(data, i, resolution).value[k] == rest.value[k - 1];
    }
  }

  /** The body of an ECG frame carrying the given samples, each written as
      its low 24 bits. */
  function EncodeEcgSamples(samples: seq<int>): (s: seq<byte>)
    ensures |s| == 3 * |samples|
  {
    if samples == [] then []
    else
      Pow2Constants();
      assert Pow2(24) == 0x100_0000 by { Pow2Add(8, 16); }
      EncodeUint24(samples[0] % Pow2(24)) + EncodeEcgSamples(samples[1..])
  }

  /** Samples of a resolution from 1 to 24 bits, written as 24-bit groups
      behind frame type 0x00, decode to themselves over 2^(resolution - 1). */
  lemma {:induction false} EcgRoundTrip(samples: seq<int>, resolution: int)
    requires 1 <= resolution <= 24
    requires forall k :: 0 <= k < |samples| ==> -Pow2(resolution - 1) <= samples[k] < Pow2(resolution - 1)
    ensures var frame := [ECG_RES14] + EncodeEcgSamples(samples);
      var r := EcgFrameOf(frame, Settings(None, Some(resolution)));
      && r.Ok? && r.value.channels == ECG_DEFAULT_CHANNELS && |r.value.data| == |samples|
      && forall k :: 0 <= k < |samples| ==>
           r.value.data[k] == [samples[k] as real / Pow2(resolution - 1) as real]
  {
    var frame := [ECG_RES14] + EncodeEcgSamples(samples);
    assert EcgRows(frame, 1, resolution).Ok? && |EcgRows(frame, 1, resolution).value| == |samples| by {
      assert |frame| - 1 == 3 * |samples|;
      DivModUnique(3 * |samples|, 3, |samples|, 0);
      EcgRowsLength(frame, 1, resolution);
    }
    var rows := EcgRows(frame, 1, resolution).value;
    forall k | 0 <= k < |samples|
      ensures rows[k] == [samples[k] as real / Pow2(resolution - 1) as real]
    {
      EcgRowAt(frame, 1, resolution, k);
      EncodedSampleDecodes(samples, resolution, k);
    }
  }

  /** The group of sample k decodes to that sample over 2^(resolution - 1). */
  lemma EncodedSampleDecodes(samples: seq<int>, resolution: int, k: nat)
    requires 1 <= resolution <= 24 && k < |samples|
    requires -Pow2(resolution - 1) <= samples[k] < Pow2(resolution - 1)
    ensures var frame := [ECG_RES14] + EncodeEcgSamples(samples);
      1 + 3 * k + 3 <= |frame| &&
      EcgSample(Uint24(frame, 1 + 3 * k), resolution) == samples[k] as real / Pow2(resolution - 1) as real
  {
    var frame := [ECG_RES14] + EncodeEcgSamples(samples);
    var x := samples[k] % Pow2(24);
    assert Uint24(frame, 1 + 3 * k) == x by {
      EncodedSampleAt(samples, k);
      assert frame[1 + 3 * k..1 + 3 * k + 3] == EncodeEcgSamples(samples)[3 * k..3 * k + 3];
      Uint24RoundTrip(x);
      Uint24Window(frame, 1 + 3 * k);
    }
    assert SignExtend(x, resolution) == samples[k] by {
      SignExtendOfResidue(samples[k], resolution, 24);
      SignExtendOfSigned(samples[k], resolution);
    }
    EcgSampleValue(x, resolution);
  }

  /** Sample k of an encoded body sits at bytes 3k..3k+2. */
  lemma {:induction false} EncodedSampleAt(samples: seq<int>, k: nat)
    requires k < |samples|
    ensures 0 <= samples[k] % Pow2(24) < 0x100_0000
    ensures EncodeEcgSamples(samples)[3 * k..3 * k + 3] == EncodeUint24(samples[k] % Pow2(24))
  {
    Pow2Constants();
    assert Pow2(24) == 0x100_0000 by { Pow2Add(8, 16); }
    var s := EncodeEcgSamples(samples);
    var head := EncodeUint24(samples[0] % Pow2(24));
    assert s == head + EncodeEcgSamples(samples[1..]);
    if k > 0 {
      EncodedSampleAt(samples[1..], k - 1);
      assert s[3 * k..3 * k + 3] == EncodeEcgSamples(samples[1..])[3 * (k - 1)..3 * (k - 1) + 3];
    }
  }

  /** Uint24 only looks at its three bytes. */
  lemma Uint24Window(s: seq<byte>, i: nat)
    requires i + 3 <= |s|
    ensures Uint24(s, i) == Uint24(s[i..i + 3], 0)
  {
  }

  // ---------------------------------------------------------------------------
  // Accelerometer

  const ACC_DEFAULT_CHANNELS: int := 3
  const ACC_DEFAULT_RESOLUTION: int := 16

  /** What parseAccelerationData returns: the metadata `frameType` label
      (only the 8-bit form sets one), `channels`, and one row of three
      values per sample. */
  datatype AccFrame = AccFrame(frameType: Option<string>, channels: int, data: seq<seq<real>>)

  function Res8Row(data: seq<byte>, i: nat): seq<real>
    requires i + 3 <= |data|
  {
    [Int8(data[i]) as real / 128.0, Int8(data[i + 1]) as real / 128.0, Int8(data[i + 2]) as real / 128.0]
  }

  /** The 8-bit rows from byte i on, taken while `i < byteLength - 3`. */
  function Res8Rows(data: seq<byte>, i: nat): (r: seq<seq<real>>)
    ensures forall k :: 0 <= k < |r| ==> |r[k]| == 3
    decreases |data| - i
  {
    if i < |data| - 3 then [Res8Row(data, i)] + Res8Rows(data, i + 3) else []
  }

  function Res16Row(data: seq<byte>, i: nat): seq<real>
    requires i + 6 <= |data|
  {
    [Int16(data, i) as real / 32768.0, Int16(data, i + 2) as real / 32768.0, Int16(data, i + 4) as real / 32768.0]
  }

  /** The 16-bit rows from byte i on; a short last group throws RangeError. */
  function Res16Rows(data: seq<byte>, i: nat): (r: Result<seq<seq<real>>>)
    ensures r.Err? ==> r.failure == RangeError
    ensures r.Ok? ==> forall k :: 0 <= k < |r.value| ==> |r.value[k]| == 3
    decreases |data| - i
  {
    if i >= |data| then Ok([])
    else if i + 6 > |data| then Err(RangeError)
    else Prepend([Res16Row(data, i)], Res16Rows(data, i + 6))
  }

  function Res24Row(data: seq<byte>, i: nat): seq<real>
    requires i + 10 <= |data|
  {
    [ShiftRight(Int32(data, i), 8) as real, ShiftRight(Int32(data, i + 3), 8) as real,
     ShiftRight(Int32(data, i + 6), 8) as real]
  }

  /** The 24-bit rows from byte i on: a 9-byte step whose third read,
      getInt32(i + 6), needs ten bytes. */
  function Res24Rows(data: seq<byte>, i: nat): (r: Result<seq<seq<real>>>)
    ensures r.Err? ==> r.failure == RangeError
    ensures r.Ok? ==> forall k :: 0 <= k < |r.value| ==> |r.value[k]| == 3
    decreases |data| - i
  {
    if i >= |data| then Ok([])
    else if i + 10 > |data| then Err(RangeError)
    else Prepend([Res24Row(data, i)], Res24Rows(data, i + 9))
  }

  /** What parseAccelerationData returns or throws for a body. A DELTA frame
      reads its two header bytes and then throws ReferenceError: its
      `deltaSampleBytes` line names an identifier declared nowhere. */
  function AccFrameOf(data: seq<byte>, settings: Settings): (r: Result<AccFrame>)
    ensures r.Err? ==> r.failure == RangeError || (r.failure == ReferenceError && |data| >= 3 && data[0] == ACC_DELTA)
    ensures r.Ok? ==> forall k :: 0 <= k < |r.value.data| ==> |r.value.data[k]| == 3
    ensures r.Ok? ==> |data| >= 1 && (r.value.frameType.Some? <==> data[0] == ACC_RES8)
  {
    var channels := OrDefault(settings.channels, ACC_DEFAULT_CHANNELS);
    if |data| == 0 then Err(RangeError)
    else if data[0] == ACC_RES8 then Ok(AccFrame(Some("8 bit"), channels, Res8Rows(data, 1)))
    else if data[0] == ACC_RES16 then
      match Res16Rows(data, 1)
      case Err(e) => Err(e)
      case Ok(rows) => Ok(AccFrame(None, channels, rows))
    else if data[0] == ACC_RES24 then
      match Res24Rows(data, 1)
      case Err(e) => Err(e)
      case Ok(rows) => Ok(AccFrame(None, channels, rows))
    else if data[0] == ACC_DELTA then
      if |data| < 3 then Err(RangeError) else Err(ReferenceError)
    else Ok(AccFrame(None, channels, []))
  }

  /** parseAccelerationData, with its per-frame-type loops. */
  method ParseAccelerationData(data: seq<byte>, settings: Settings) returns (r: Result<AccFrame>)
    ensures r == AccFrameOf(data, settings)
  {
    var channels := OrDefault(settings.channels, ACC_DEFAULT_CHANNELS);
    var i := 0;
    if i >= |data| {
      return Err(RangeError);
    }
    var frameType := data[i];
    i := i + 1;
    var result: seq<seq<real>> := [];
    if frameType == ACC_RES8 {
      while i < |data| - 3
        invariant 1 <= i
        invariant Res8Rows(data, 1) == result + Res8Rows(data, i)
        decreases |data| - i
      {
        var row := [Int8(data[i]) as real / 128.0, Int8(data[i + 1]) as real / 128.0, Int8(data[i + 2]) as real / 128.0];
        i := i + 3;
        result := result + [row];
      }
      assert result + [] == result;
      return Ok(AccFrame(Some("8 bit"), channels, result));
    } else if frameType == ACC_RES16 {
      PrependNil(Res16Rows(data, 1));
      while i < |data|
        invariant 1 <= i
        invariant Res16Rows(data, 1) == Prepend(result, Res16Rows(data, i))
        decreases |data| - i
      {
        if i + 6 > |data| {
          return Err(RangeError);
        }
        var row := [Int16(data, i) as real / 32768.0, Int16(data, i + 2) as real / 32768.0,
                    Int16(data, i + 4) as real / 32768.0];
        PrependTwice(result, [row], Res16Rows(data, i + 6));
        result := result + [row];
        i := i + 6;
      }
      assert result + [] == result;
      return Ok(AccFrame(None, channels, result));
    } else if frameType == ACC_RES24 {
      PrependNil(Res24Rows(data, 1));
      while i < |data|
        invariant 1 <= i
        invariant Res24Rows(data, 1) == Prepend(result, Res24Rows(data, i))
        decreases |data| - i
      {
        if i + 10 > |data| {
          return Err(RangeError);
        }
        var row := [ShiftRight(Int32(data, i), 8) as real, ShiftRight(Int32(data, i + 3), 8) as real,
                    ShiftRight(Int32(data, i + 6), 8) as real];
        PrependTwice(result, [row], Res24Rows(data, i + 9));
        result := result + [row];
        i := i + 9;
      }
      assert result + [] == result;
      return Ok(AccFrame(None, channels, result));
    } else if frameType == ACC_DELTA {
      if i >= |data| {
        return Err(RangeError);
      }
      var deltaResolutionPrChannel := data[i];
      i := i + 1;
      if i >= |data| {
        return Err(RangeError);
      }
      var deltaSampleCount := data[i];
      i := i + 1;
      return Err(ReferenceError);
    }
    return Ok(AccFrame(None, channels, []));
  }

  // ---------------------------------------------------------------------------
  // Properties of the accelerometer decoder

  /** The 8-bit loop runs while `i < byteLength - 3`: from byte i it yields
      (L - 1 - i) / 3 rows when i + 3 < L, and none otherwise. */
  lemma {:induction false} Res8RowCount(data: seq<byte>, i: nat)
    ensures |Res8Rows(data, i)| == if i + 3 < |data| then (|data| - 1 - i) / 3 else 0
    decreases |data| - i
  {
    if i + 3 < |data| {
      Res8RowCount(data, i + 3);
    }
  }

  /** Row k of the 8-bit rows is the three signed bytes at i + 3k, over 128. */
  lemma {:induction false} Res8RowAt(data: seq<byte>, i: nat, k: nat)
    requires k < |Res8Rows(data, i)|
    ensures i + 3 * k + 3 <= |data| && Res8Rows(data, i)[k] == Res8Row(data, i + 3 * k)
    decreases k
  {
    if k > 0 {
      Res8RowAt(data, i + 3, k - 1);
    }
  }

  /** A three-axis sample as a device sends it. */
  datatype Vec3 = Vec3(x: int, y: int, z: int)

  predicate InInt8(v: Vec3)
  {
    -128 <= v.x < 128 && -128 <= v.y < 128 && -128 <= v.z < 128
  }

  predicate InInt16(v: Vec3)
  {
    -0x8000 <= v.x < 0x8000 && -0x8000 <= v.y < 0x8000 && -0x8000 <= v.z < 0x8000
  }

  function EncodeRes8(samples: seq<Vec3>): (s: seq<byte>)
    ensures |s| == 3 * |samples|
  {
    if samples == [] then []
    else
      var v := samples[0];
      [(v.x % 256) as byte, (v.y % 256) as byte, (v.z % 256) as byte] + EncodeRes8(samples[1..])
  }

  function Scaled(v: Vec3, divisor: real): seq<real>
    requires divisor != 0.0
  {
    [v.x as real / divisor, v.y as real / divisor, v.z as real / divisor]
  }

  lemma {:induction false} EncodeRes8At(samples: seq<Vec3>, k: nat)
    requires k < |samples|
    ensures var s := EncodeRes8(samples); var v := samples[k];
      s[3 * k] == v.x % 256 && s[3 * k + 1] == v.y % 256 && s[3 * k + 2] == v.z % 256
  {
    if k > 0 {
      EncodeRes8At(samples[1..], k - 1);
    }
  }

  /** An 8-bit frame of n >= 1 samples decodes to its first n - 1 samples
      only: the loop guard `i < byteLength - 3` stops before the last group. */
  lemma Res8DropsLastSample(samples: seq<Vec3>)
    requires |samples| >= 1 && forall k :: 0 <= k < |samples| ==> InInt8(samples[k])
    ensures var r := AccFrameOf([ACC_RES8] + EncodeRes8(samples), NO_SETTINGS);
      && r.Ok? && r.value.frameType == Some("8 bit") && r.value.channels == ACC_DEFAULT_CHANNELS
      && |r.value.data| == |samples| - 1
      && forall k :: 0 <= k < |samples| - 1 ==> r.value.data[k] == Scaled(samples[k], 128.0)
  {
    var frame := [ACC_RES8] + EncodeRes8(samples);
    var rows := Res8Rows(frame, 1);
    assert |rows| == |samples| - 1 by {
      Res8RowCount(frame, 1);
      DivModUnique(3 * |samples| - 1, 3, |samples| - 1, 2);
    }
    forall k | 0 <= k < |samples| - 1
      ensures rows[k] == Scaled(samples[k], 128.0)
    {
      Res8RowAt(frame, 1, k);
      EncodeRes8At(samples, k);
      var v := samples[k];
      assert InInt8(v);
      Int8RoundTrip(v.x);
      Int8RoundTrip(v.y);
      Int8RoundTrip(v.z);
    }
  }

  /** A 16-bit body parses exactly when its length after the frame-type byte
      is a multiple of six, into one row per six bytes. */
  lemma {:induction false} Res16RowsLength(data: seq<byte>, i: nat)
    requires i <= |data|
    ensures Res16Rows(data, i).Ok? <==> (|data| - i) % 6 == 0
    ensures Res16Rows(data, i).Ok? ==> |Res16Rows(data, i).value| == (|data| - i) / 6
    decreases |data| - i
  {
    if i + 6 <= |data| {
      Res16RowsLength(data, i + 6);
    }
  }

  lemma {:induction false} Res16RowAt(data: seq<byte>, i: nat, k: nat)
    requires Res16Rows(data, i).Ok? && k < |Res16Rows(data, i).value|
    ensures i + 6 * k + 6 <= |data| && Res16Rows(data, i).value[k] == Res16Row(data, i + 6 * k)
    decreases k
  {
    var rest := Res16Rows(data, i + 6);
    assert Res16Rows(data, i) == Prepend([Res16Row(data, i)], rest);
    if k > 0 {
      Res16RowAt(data, i + 6, k - 1);
      assert Res16Rows(data, i).value[k] == rest.value[k - 1];
    }
  }

  function EncodeRes16(samples: seq<Vec3>): (s: seq<byte>)
    requires forall k :: 0 <= k < |samples| ==> InInt16(samples[k])
    ensures |s| == 6 * |samples|
  {
    if samples == [] then []
    else
      var v := samples[0];
      assert InInt16(v);
      EncodeInt16(v.x) + EncodeInt16(v.y) + EncodeInt16(v.z) + EncodeRes16(samples[1..])
  }

  lemma {:induction false} EncodeRes16At(samples: seq<Vec3>, k: nat)
    requires forall j :: 0 <= j < |samples| ==> InInt16(samples[j])
    requires k < |samples|
    ensures var s := EncodeRes16(samples); var v := samples[k];
      && s[6 * k..6 * k + 2] == EncodeInt16(v.x)
      && s[6 * k + 2..6 * k + 4] == EncodeInt16(v.y)
      && s[6 * k + 4..6 * k + 6] == EncodeInt16(v.z)
  {
    var s := EncodeRes16(samples);
    var v := samples[0];
    assert InInt16(v);
    assert s == EncodeInt16(v.x) + EncodeInt16(v.y) + EncodeInt16(v.z) + EncodeRes16(samples[1..]);
    if k > 0 {
      EncodeRes16At(samples[1..], k - 1);
      assert s[6 * k..] == EncodeRes16(samples[1..])[6 * (k - 1)..];
    }
  }

  /** Int16 only looks at its two bytes. */
  lemma Int16Window(s: seq<byte>, i: nat)
    requires i + 2 <= |s|
    ensures Int16(s, i) == Int16(s[i..i + 2], 0)
  {
  }

  lemma Res16RowDecodes(samples: seq<Vec3>, k: nat)
    requires forall j :: 0 <= j < |samples| ==> InInt16(samples[j])
    requires k < |samples|
    ensures var frame := [ACC_RES16] + EncodeRes16(samples);
      1 + 6 * k + 6 <= |frame| && Res16Row(frame, 1 + 6 * k) == Scaled(samples[k], 32768.0)
  {
    var frame := [ACC_RES16] + EncodeRes16(samples);
    var body := EncodeRes16(samples);
    var v := samples[k];
    assert InInt16(v);
    var at := 1 + 6 * k;
    EncodeRes16At(samples, k);
    Int16Behind(ACC_RES16, body, 6 * k, v.x);
    Int16Behind(ACC_RES16, body, 6 * k + 2, v.y);
    Int16Behind(ACC_RES16, body, 6 * k + 4, v.z);
    Res16RowOf(frame, at, v);
  }

  /** A row whose three int16 read back as v is v over 2^15. */
  lemma Res16RowOf(frame: seq<byte>, at: nat, v: Vec3)
    requires at + 6 <= |frame|
    requires Int16(frame, at) == v.x && Int16(frame, at + 2) == v.y && Int16(frame, at + 4) == v.z
    ensures Res16Row(frame, at) == Scaled(v, 32768.0)
  {
  }

  /** An int16 written at byte j of a body reads back at j + 1 behind a type byte. */
  lemma Int16Behind(head: byte, body: seq<byte>, j: nat, w: int)
    requires j + 2 <= |body| && -0x8000 <= w < 0x8000
    requires body[j..j + 2] == EncodeInt16(w)
    ensures Int16([head] + body, j + 1) == w
  {
    var frame := [head] + body;
    assert frame[j + 1..j + 3] == body[j..j + 2];
    Int16Window(frame, j + 1);
    Int16RoundTrip(w);
  }

  /** Samples written as three little-endian int16 behind frame type 0x01
      decode to themselves over 2^15, all of them and in order. */
  lemma Res16RoundTrip(samples: seq<Vec3>)
    requires forall k :: 0 <= k < |samples| ==> InInt16(samples[k])
    ensures var r := AccFrameOf([ACC_RES16] + EncodeRes16(samples), NO_SETTINGS);
      && r.Ok? && r.value.frameType == None && r.value.channels == ACC_DEFAULT_CHANNELS
      && |r.value.data| == |samples|
      && forall k :: 0 <= k < |samples| ==> r.value.data[k] == Scaled(samples[k], 32768.0)
  {
    var frame := [ACC_RES16] + EncodeRes16(samples);
    assert Res16Rows(frame, 1).Ok? && |Res16Rows(frame, 1).value| == |samples| by {
      assert |frame| - 1 == 6 * |samples|;
      DivModUnique(6 * |samples|, 6, |samples|, 0);
      Res16RowsLength(frame, 1);
    }
    var rows := Res16Rows(frame, 1).value;
    forall k | 0 <= k < |samples|
      ensures rows[k] == Scaled(samples[k], 32768.0)
    {
      Res16RowAt(frame, 1, k);
      Res16RowDecodes(samples, k);
    }
  }

  /** Every 24-bit step reads ten bytes but advances nine, so the last group
      of any non-empty body is read past its end: every RES24 frame with at
      least one body byte throws RangeError. */
  lemma {:induction false} Res24RowsThrow(data: seq<byte>, i: nat)
    requires i < |data|
    ensures Res24Rows(data, i) == Err(RangeError)
    decreases |data| - i
  {
    if i + 10 <= |data| {
      Res24RowsThrow(data, i + 9);
    }
  }

  /** What the accelerometer decoder does with each frame type: RES24 and
      DELTA throw on any non-empty body, and an unknown type gives no rows. */
  lemma AccFrameTypes(data: seq<byte>, settings: Settings)
    requires |data| >= 2
    ensures data[0] == ACC_RES24 ==> AccFrameOf(data, settings) == Err(RangeError)
    ensures data[0] == ACC_DELTA ==>
      AccFrameOf(data, settings) == (if |data| >= 3 then Err(ReferenceError) else Err(RangeError))
    ensures data[0] !in {ACC_RES8, ACC_RES16, ACC_RES24, ACC_DELTA} ==>
      AccFrameOf(data, settings) == Ok(AccFrame(None, OrDefault(settings.channels, ACC_DEFAULT_CHANNELS), []))
  {
    Res24RowsThrow(data, 1);
  }

  /** Were a 24-bit group readable, each channel would be `getInt32(j) >> 8`,
      the signed 24-bit value of bytes j + 1 .. j + 3. */
  lemma Res24Channels(data: seq<byte>, i: nat)
    requires i + 10 <= |data|
    ensures Res24Row(data, i) == [SignExtend(Uint24(data, i + 1), 24) as real,
                                  SignExtend(Uint24(data, i + 4), 24) as real,
                                  SignExtend(Uint24(data, i + 7), 24) as real]
  {
    Int32Shift8(data, i);
    Int32Shift8(data, i + 3);
    Int32Shift8(data, i + 6);
  }

  // ---------------------------------------------------------------------------
  // The measurement envelope

  /** The decoded body: ECG and accelerometer frames, or the PPG bytes and
      settings handed back as they came (`None` settings: `undefined`). */
  datatype Body =
    | EcgBody(ecg: EcgFrame)
    | PpgBody(raw: seq<byte>, settings: Option<Settings>)
    | AccBody(acc: AccFrame)

  /** What parseMeasurementData returns: the type code and its name, the
      64-bit tick count, and the decoded body. */
  datatype Measurement = Measurement(typeCode: byte, typeName: Option<string>, time: nat, body: Body)

  /** parseMeasurementData: byte 0 selects the decoder, bytes 1..8 are a
      little-endian u64 time, the body starts at offset 9. A notification
      shorter than nine bytes throws RangeError (the 8-byte time view does
      not fit); a type other than ECG, PPG and ACC gives `undefined`. */
  function ParseMeasurementData(data: seq<byte>, settings: Option<Settings>): (r: Result<Option<Measurement>>)
    ensures r.Ok? ==> |data| >= 9
    ensures r.Ok? && r.value.Some? ==>
      && r.value.value.typeCode == data[0] && data[0] in {ECG, PPG, ACCELERATION}
      && r.value.value.time == UintLE(data[1..9])
      && (r.value.value.body.PpgBody? <==> data[0] == PPG)
      && (data[0] == PPG ==> r.value.value.body.raw == data[9..])
  {
    if |data| < 9 then Err(RangeError)
    else
      var code := data[0];
      var time := BigUint64(data, 1);
      var body := data[9..];
      var given := if settings.Some? then settings.value else NO_SETTINGS;
      var header := Measurement(code, Lookup(MEASUREMENT_NAME, code), time, PpgBody(body, settings));
      if code == ECG then
        match EcgFrameOf(body, given)
        case Err(e) => Err(e)
        case Ok(frame) => Ok(Some(header.(body := EcgBody(frame))))
      else if code == PPG then Ok(Some(header))
      else if code == ACCELERATION then
        match AccFrameOf(body, given)
        case Err(e) => Err(e)
        case Ok(frame) => Ok(Some(header.(body := AccBody(frame))))
      else Ok(None)
  }

  /** A notification assembled from a type code, a 64-bit time and a body
      parses to that code and time, with the body decoded by the decoder for
      the code (with `{}` for undefined settings); PPG hands the body back
      unchanged, and any other code gives `undefined`. */
  lemma MeasurementEnvelope(code: byte, time: nat, body: seq<byte>, settings: Option<Settings>)
    requires time < Pow2(64)
    ensures var r := ParseMeasurementData([code] + EncodeLE(time, 8) + body, settings);
      var given := if settings.Some? then settings.value else NO_SETTINGS;
      && (code !in {ECG, PPG, ACCELERATION} ==> r == Ok(None))
      && (code == PPG ==> r == Ok(Some(Measurement(code, Some("ppg"), time, PpgBody(body, settings)))))
      && (code == ECG ==>
            && (r.Ok? <==> EcgFrameOf(body, given).Ok?)
            && (r.Ok? ==> r.value == Some(Measurement(code, Some("ecg"), time, EcgBody(EcgFrameOf(body, given).value)))))
      && (code == ACCELERATION ==>
            && (r.Ok? <==> AccFrameOf(body, given).Ok?)
            && (r.Ok? ==> r.value == Some(Measurement(code, Some("acceleration"), time, AccBody(AccFrameOf(body, given).value)))))
  {
    var data := [code] + EncodeLE(time, 8) + body;
    EnvelopeFields(code, time, body);
    EnvelopeParses(data, settings);
  }

  /** The assembled notification holds the code at 0, the time at 1..9 and the body after. */
  lemma EnvelopeFields(code: byte, time: nat, body: seq<byte>)
    requires time < Pow2(64)
    ensures var data := [code] + EncodeLE(time, 8) + body;
      |data| >= 9 && data[0] == code && BigUint64(data, 1) == time && data[9..] == body
  {
    var data := [code] + EncodeLE(time, 8) + body;
    assert data[1..9] == EncodeLE(time, 8);
    assert data[9..] == body;
  }

  /** The dispatch of ParseMeasurementData on the code byte of a notification of 9 bytes or more. */
  lemma EnvelopeParses(data: seq<byte>, settings: Option<Settings>)
    requires |data| >= 9
    ensures var r := ParseMeasurementData(data, settings);
      var code, time, body := data[0], BigUint64(data, 1), data[9..];
      var given := if settings.Some? then settings.value else NO_SETTINGS;
      && (code !in {ECG, PPG, ACCELERATION} ==> r == Ok(None))
      && (code == PPG ==> r == Ok(Some(Measurement(code, Some("ppg"), time, PpgBody(body, settings)))))
      && (code == ECG ==>
            && (r.Ok? <==> EcgFrameOf(body, given).Ok?)
            && (r.Ok? ==> r.value == Some(Measurement(code, Some("ecg"), time, EcgBody(EcgFrameOf(body, given).value)))))
      && (code == ACCELERATION ==>
            && (r.Ok? <==> AccFrameOf(body, given).Ok?)
            && (r.Ok? ==> r.value == Some(Measurement(code, Some("acceleration"), time, AccBody(AccFrameOf(body, given).value)))))
  {
  }
}
