/** The control-point side of the PMD codec: the feature-read bitmap and the
    measurement-control response (header, early returns, settings groups). */
module PolarParsers {
  import opened Bytes
  import opened PolarCodes

  // ---------------------------------------------------------------------------
  // Feature read

  /** The measurement codes in the order of the PMD_FLAG bits: bit k of the
      bitmap says whether MEASUREMENT_CODES[k] is supported. */
  const MEASUREMENT_CODES: seq<byte> := [ECG, PPG, ACCELERATION, PP_INTERVAL, GYROSCOPE, MAGNETOMETER]

  /** parseFeatureReadResponse: one `supported` boolean per measurement code,
      keyed by the code. Only byte 1 is read. */
  function ParseFeatureReadResponse(data: seq<byte>): (r: Result<map<int, bool>>)
    ensures r.Ok? <==> |data| >= 2
    ensures r.Ok? ==> r.value.Keys == {0, 1, 2, 3, 5, 6}
  {
    if |data| < 2 then Err(RangeError)
    else
      var flags := data[1];
      Ok(map[
        ECG := FlagSet(flags, ECG_SUPPORTED),
        PPG := FlagSet(flags, PPG_SUPPORTED),
        ACCELERATION := FlagSet(flags, ACC_SUPPORTED),
        PP_INTERVAL := FlagSet(flags, PPI_SUPPORTED),
        GYROSCOPE := FlagSet(flags, GYRO_SUPPORTED),
        MAGNETOMETER := FlagSet(flags, MAG_SUPPORTED)
      ])
  }

  /** The bitmap a device sends for a list of six support booleans, bit k for entry k. */
  function FeatureBits(support: seq<bool>): (b: nat)
    ensures b < Pow2(|support|)
  {
    if support == [] then 0
    else (if support[0] then 1 else 0) + 2 * FeatureBits(support[1..])
  }

  lemma {:induction false} FeatureBitsAt(support: seq<bool>, k: nat)
    requires k < |support|
    ensures (FeatureBits(support) / Pow2(k)) % 2 == (if support[k] then 1 else 0)
  {
    var b := FeatureBits(support);
    var rest := FeatureBits(support[1..]);
    var bit := if support[0] then 1 else 0;
    assert b == rest * 2 + bit;
    if k == 0 {
      assert b / Pow2(0) == b;
      DivModUnique(b, 2, rest, bit);
    } else {
      assert b / 2 == rest by {
        DivModUnique(b, 2, rest, bit);
      }
      FeatureBitsAt(support[1..], k - 1);
      assert support[1..][k - 1] == support[k];
      assert b / Pow2(k) == rest / Pow2(k - 1) by {
        assert Pow2(k) == 2 * Pow2(k - 1);
        DivDiv(b, 2, Pow2(k - 1));
      }
    }
  }

  lemma DivDiv(x: nat, a: int, b: int)
    requires a > 0 && b > 0
    ensures x / (a * b) == (x / a) / b
  {
    var q, r := x / a, x % a;
    var q2, r2 := q / b, q % b;
    assert x == q2 * (a * b) + (r2 * a + r);
    assert r2 * a + r < a * b by {
      if r2 + 1 < b {
        MulStrict(r2 + 1, b, a);
      }
      assert (r2 + 1) * a <= b * a;
      assert (r2 + 1) * a == r2 * a + a;
    }
    DivModUnique(x, a * b, q2, r2 * a + r);
  }

  /** A feature-read payload built from six support booleans decodes back to
      them: each `supported` equals the matching PMD_FLAG bit of byte 1. */
  lemma FeatureReadRoundTrip(support: seq<bool>)
    requires |support| == 6
    ensures FeatureBits(support) < 256
    ensures
      var r := ParseFeatureReadResponse([FEATURE_READ, FeatureBits(support) as byte]);
      r.Ok? && forall k :: 0 <= k < 6 ==> r.value[MEASUREMENT_CODES[k]] == support[k]
  {
    assert Pow2(6) == 64;
    var flags := FeatureBits(support) as byte;
    FeatureReadFlags([FEATURE_READ, flags]);
    forall k | 0 <= k < 6
      ensures FlagSet(flags, PMD_FLAGS[k]) == support[k]
    {
      FlagsAreDistinctBits();
      FeatureBitsAt(support, k);
    }
  }

  /** Entry k of the decoded map is the k-th PMD_FLAG bit of byte 1. */
  lemma FeatureReadFlags(data: seq<byte>)
    requires |data| >= 2
    ensures forall k :: 0 <= k < 6 ==>
      ParseFeatureReadResponse(data).value[MEASUREMENT_CODES[k]] == FlagSet(data[1], PMD_FLAGS[k])
  {
    var m := ParseFeatureReadResponse(data).value;
    forall k | 0 <= k < 6
      ensures m[MEASUREMENT_CODES[k]] == FlagSet(data[1], PMD_FLAGS[k])
    {
      if k == 0 { assert MEASUREMENT_CODES[k] == ECG && PMD_FLAGS[k] == ECG_SUPPORTED; }
      else if k == 1 { assert MEASUREMENT_CODES[k] == PPG && PMD_FLAGS[k] == PPG_SUPPORTED; }
      else if k == 2 { assert MEASUREMENT_CODES[k] == ACCELERATION && PMD_FLAGS[k] == ACC_SUPPORTED; }
      else if k == 3 { assert MEASUREMENT_CODES[k] == PP_INTERVAL && PMD_FLAGS[k] == PPI_SUPPORTED; }
      else if k == 4 { assert MEASUREMENT_CODES[k] == GYROSCOPE && PMD_FLAGS[k] == GYRO_SUPPORTED; }
      else { assert MEASUREMENT_CODES[k] == MAGNETOMETER && PMD_FLAGS[k] == MAG_SUPPORTED; }
    }
  }

  // ---------------------------------------------------------------------------
  // Measurement-control response

  /** One value of a settings group: the raw little-endian u16 and its label
      in SETTING_VALUES (`None` where the table has no entry). */
  datatype SettingValue = SettingValue(valueLabel: Option<int>, value: int)

  /** One settings group of a GET_MEASUREMENT_SETTINGS response. */
  datatype Parameter = Parameter(name: Option<string>, code: byte, unit: Option<string>, values: seq<SettingValue>)

  datatype Operation = Operation(name: string, code: byte)

  /** The object parseControlPointResponse returns. `Empty` is `{}`, the
      answer to a payload that is not a measurement-control response. */
  datatype ControlPointResponse =
    | Empty
    | MeasurementControl(
        measurementCode: byte,
        measurementName: Option<string>,
        statusCode: byte,
        statusMessage: Option<string>,
        error: bool,
        moreFrames: Option<byte>,
        operation: Option<Operation>,
        parameters: Option<seq<Parameter>>)

  /** The `unit` the parser attaches to a setting code. */
  function Unit(code: byte): Option<string>
  {
    if code == SAMPLE_RATE_SETTING then Some("Hz")
    else if code == RESOLUTION_SETTING then Some("bits")
    else if code == RANGE_SETTING then Some("G")
    else if code == CHANNELS_SETTING then Some("")
    else None
  }

  /** The `operation` field for an op code; unknown op codes get none. */
  function OperationOf(op: byte): Option<Operation>
  {
    if op == GET_MEASUREMENT_SETTINGS then Some(Operation("parameterMap", op))
    else if op == START_MEASUREMENT then Some(Operation("startStream", op))
    else if op == STOP_MEASUREMENT then Some(Operation("stopStream", op))
    else None
  }

  /** The `n` values of a group of setting `code`, starting at byte i. A read
      past the end throws RangeError; a code with no SETTING_VALUES table
      throws TypeError at its first value. */
  function ValuesAt(data: seq<byte>, code: byte, i: nat, n: nat): (r: Result<seq<SettingValue>>)
    ensures r.Ok? ==> |r.value| == n && (n > 0 ==> i + 2 * n <= |data|)
    ensures r.Err? ==> r.failure != ReferenceError
    decreases n
  {
    if n == 0 then Ok([])
    else if i + 2 > |data| then Err(RangeError)
    else if code !in SETTING_VALUES then Err(TypeError)
    else
      var value := Uint16(data, i);
      Prepend([SettingValue(Lookup(SETTING_VALUES[code], value), value)], ValuesAt(data, code, i + 2, n - 1))
  }

  /** The settings groups from byte i to the end of the payload. */
  function GroupsAt(data: seq<byte>, i: nat): (r: Result<seq<Parameter>>)
    ensures r.Ok? && i <= |data| ==> 2 * |r.value| <= |data| - i
    ensures r.Ok? && i < |data| ==> |r.value| >= 1
    ensures r.Err? ==> r.failure != ReferenceError
    decreases |data| - i
  {
    if i >= |data| then Ok([])
    else if i + 1 >= |data| then Err(RangeError)
    else
      var code, n := data[i], data[i + 1] as nat;
      match ValuesAt(data, code, i + 2, n)
      case Err(e) => Err(e)
      case Ok(values) =>
        Prepend([Parameter(Lookup(SETTING_TYPE_NAME, code), code, Unit(code), values)],
                GroupsAt(data, i + 2 + 2 * n))
  }

  /** The `error` flag of a response: its status message is not "SUCCESS",
      which holds exactly when the status is not 0. */
  function IsErrorStatus(status: byte): (r: bool)
    ensures r <==> status != 0
  {
    ErrorTableDomain();
    Lookup(POLAR_ERROR_CODES, status) != Some("SUCCESS")
  }

  /** What parseControlPointResponse returns, or the exception it throws. */
  function ParsedControlPoint(data: seq<byte>): (r: Result<ControlPointResponse>)
    ensures r == Ok(Empty) <==> |data| >= 1 && data[0] != MEASUREMENT_CONTROL
    ensures r.Ok? && r.value.MeasurementControl? ==>
      && |data| >= 5
      && r.value.measurementCode == data[2] && r.value.statusCode == data[3]
      && (r.value.error <==> data[3] != 0)
      && (r.value.parameters.None? <==> data[1] == STOP_MEASUREMENT || (data[1] == START_MEASUREMENT && |data| <= 6))
    ensures r.Err? ==> r.failure != ReferenceError
  {
    if |data| < 1 then Err(RangeError)
    else if data[0] != MEASUREMENT_CONTROL then Ok(Empty)
    else if |data| < 5 then Err(RangeError)
    else
      var op, code, status, more := data[1], data[2], data[3], data[4];
      var header := MeasurementControl(
        code, Lookup(MEASUREMENT_NAME, code),
        status, Lookup(POLAR_ERROR_CODES, status),
        IsErrorStatus(status),
        if more != 0 then Some(more) else None,
        OperationOf(op), None);
      if op == STOP_MEASUREMENT || (op == START_MEASUREMENT && 5 >= |data| - 1) then Ok(header)
      else
        match GroupsAt(data, 5)
        case Err(e) => Err(e)
        case Ok(ps) => Ok(header.(parameters := Some(ps)))
  }

  /** The `for (let j = i + length * 2; i < j; i += 2)` loop of
      parseControlPointResponse: `length` values of setting `code` from byte i. */
  method ReadSettingValues(data: seq<byte>, code: byte, i0: nat, length: nat) returns (r: Result<seq<SettingValue>>)
    ensures r == ValuesAt(data, code, i0, length)
  {
    var values: seq<SettingValue> := [];
    var i := i0;
    var j := i + length * 2;
    PrependNil(ValuesAt(data, code, i, length));
    while i < j
      invariant i0 <= i <= j && i == i0 + 2 * |values|
      invariant ValuesAt(data, code, i0, length) == Prepend(values, ValuesAt(data, code, i, (j - i) / 2))
      decreases j - i
    {
      if i + 2 > |data| {
        return Err(RangeError);
      }
      var value := Uint16(data, i);
      if code !in SETTING_VALUES {
        return Err(TypeError);
      }
      var valueLabel := Lookup(SETTING_VALUES[code], value);
      PrependTwice(values, [SettingValue(valueLabel, value)], ValuesAt(data, code, i + 2, (j - i) / 2 - 1));
      values := values + [SettingValue(valueLabel, value)];
      i := i + 2;
    }
    assert values + [] == values;
    return Ok(values);
  }

  /** The `while (i < data.byteLength)` loop of parseControlPointResponse:
      the settings groups from byte i0 to the end. */
  method ReadParameters(data: seq<byte>, i0: nat) returns (r: Result<seq<Parameter>>)
    ensures r == GroupsAt(data, i0)
  {
    var parameters: seq<Parameter> := [];
    var i := i0;
    PrependNil(GroupsAt(data, i0));
    while i < |data|
      invariant i0 <= i
      invariant GroupsAt(data, i0) == Prepend(parameters, GroupsAt(data, i))
      decreases |data| - i
    {
      var group := ReadGroup(data, i);
      if group.Err? {
        GroupsStop(data, i0, i, parameters, group.failure);
        return Err(group.failure);
      }
      var (parameter, next) := group.value;
      PrependTwice(parameters, [parameter], GroupsAt(data, next));
      parameters := parameters + [parameter];
      i := next;
    }
    assert parameters + [] == parameters;
    return Ok(parameters);
  }

  /** One pass of that loop: the code and count bytes at i, then the values;
      the parameter read and the offset of the next group. */
  method ReadGroup(data: seq<byte>, i0: nat) returns (r: Result<(Parameter, nat)>)
    requires i0 < |data|
    ensures r.Err? ==> GroupsAt(data, i0) == Err(r.failure)
    ensures r.Ok? ==> i0 < r.value.1 && GroupsAt(data, i0) == Prepend([r.value.0], GroupsAt(data, r.value.1))
  {
    var i := i0;
    var parameterCode := data[i];
    i := i + 1;
    if i >= |data| {
      return Err(RangeError);
    }
    var length := data[i] as nat;
    i := i + 1;
    var values := ReadSettingValues(data, parameterCode, i, length);
    if values.Err? {
      return Err(values.failure);
    }
    i := i + length * 2;
    var parameter := Parameter(Lookup(SETTING_TYPE_NAME, parameterCode), parameterCode, Unit(parameterCode), values.value);
    GroupStep(data, i0, values.value);
    return Ok((parameter, i));
  }

  /** An exception in the group loop is the exception of the whole loop. */
  lemma GroupsStop(data: seq<byte>, i0: nat, i: nat, done: seq<Parameter>, e: Failure)
    requires GroupsAt(data, i0) == Prepend(done, GroupsAt(data, i))
    requires GroupsAt(data, i) == Err(e)
    ensures GroupsAt(data, i0) == Err(e)
  {
  }

  /** parseControlPointResponse: the five header bytes, the per-operation
      early returns, then the settings groups. */
  method ParseControlPointResponse(data: seq<byte>) returns (r: Result<ControlPointResponse>)
    ensures r == ParsedControlPoint(data)
  {
    var i := 0;
    if i >= |data| { return Err(RangeError); }
    var responseType := data[i];
    i := i + 1;
    if responseType != MEASUREMENT_CONTROL {
      return Ok(Empty);
    }
    if |data| < 5 { return Err(RangeError); }
    var opCode := data[i];
    i := i + 1;
    var measurementCode := data[i];
    i := i + 1;
    var statusCode := data[i];
    i := i + 1;
    var message := Lookup(POLAR_ERROR_CODES, statusCode);
    var moreFrames := data[i];
    i := i + 1;
    var result := MeasurementControl(
      measurementCode, Lookup(MEASUREMENT_NAME, measurementCode),
      statusCode, message, message != Some("SUCCESS"),
      if moreFrames != 0 then Some(moreFrames) else None,
      OperationOf(opCode), None);
    if opCode == START_MEASUREMENT && i >= |data| - 1 {
      return Ok(result);
    }
    if opCode == STOP_MEASUREMENT {
      return Ok(result);
    }
    var parameters := ReadParameters(data, i);
    if parameters.Err? {
      return Err(parameters.failure);
    }
    return Ok(result.(parameters := Some(parameters.value)));
  }

  // ---------------------------------------------------------------------------
  // Properties of the measurement-control response

  /** The header fields: measurement code from byte 2, status from byte 3,
      `error` exactly when the status is not 0, `moreFrames` present exactly
      when byte 4 is non-zero, and an operation only for op codes 1..3. */
  lemma ControlPointHeader(data: seq<byte>)
    requires |data| >= 5 && data[0] == MEASUREMENT_CONTROL
    ensures var r := ParsedControlPoint(data);
      r.Ok? ==>
        && r.value.MeasurementControl?
        && r.value.measurementCode == data[2]
        && r.value.statusCode == data[3]
        && (r.value.error <==> data[3] != 0)
        && (r.value.statusMessage.Some? <==> data[3] < 14)
        && (r.value.moreFrames.Some? <==> data[4] != 0)
        && (r.value.operation.Some? <==> 1 <= data[1] <= 3)
  {
    ErrorTableDomain();
  }

  /** A START or STOP acknowledgement, whole: the header with its groups
      when a START carries more than six bytes. */
  lemma StartStopResponse(data: seq<byte>)
    requires |data| >= 5 && data[0] == MEASUREMENT_CONTROL
    requires data[1] == START_MEASUREMENT || data[1] == STOP_MEASUREMENT
    requires data[1] == START_MEASUREMENT && |data| > 6 ==> GroupsAt(data, 5).Ok?
    ensures ParsedControlPoint(data) == Ok(MeasurementControl(
      data[2], Lookup(MEASUREMENT_NAME, data[2]), data[3], Lookup(POLAR_ERROR_CODES, data[3]), data[3] != 0,
      if data[4] != 0 then Some(data[4]) else None, OperationOf(data[1]),
      if data[1] == START_MEASUREMENT && |data| > 6 then Some(GroupsAt(data, 5).value) else None))
  {
  }

  /** Any payload whose first byte is not MEASUREMENT_CONTROL gives `{}`,
      whatever follows it. */
  lemma OtherResponseTypesAreEmpty(data: seq<byte>)
    requires |data| >= 1 && data[0] != MEASUREMENT_CONTROL
    ensures ParsedControlPoint(data) == Ok(Empty)
  {
  }

  /** STOP never carries parameters, and a START no longer than six bytes
      returns before the groups; any other op code (GET or unknown) parses
      every group and succeeds exactly when the groups do. */
  lemma ParametersByOperation(data: seq<byte>)
    requires |data| >= 5 && data[0] == MEASUREMENT_CONTROL
    ensures var r := ParsedControlPoint(data);
      && (data[1] == STOP_MEASUREMENT ==> r.Ok? && r.value.parameters.None?)
      && (data[1] == START_MEASUREMENT && |data| <= 6 ==> r.Ok? && r.value.parameters.None?)
      && (data[1] != STOP_MEASUREMENT && (data[1] == START_MEASUREMENT ==> |data| > 6) ==>
            (r.Ok? <==> GroupsAt(data, 5).Ok?) &&
            (r.Ok? ==> r.value.parameters == Some(GroupsAt(data, 5).value)))
  {
  }

  /** A settings group as a device sends it: a code and its u16 values. */
  datatype SettingGroup = SettingGroup(code: byte, values: seq<int>)

  /** A group the parser can read: fewer than 256 values, each a u16, and a
      value table for its code unless it has no values. */
  predicate WellFormedGroup(g: SettingGroup)
  {
    && |g.values| < 256
    && (forall k :: 0 <= k < |g.values| ==> 0 <= g.values[k] < 0x1_0000)
    && (g.values != [] ==> g.code in SETTING_VALUES)
  }

  predicate WellFormedGroups(groups: seq<SettingGroup>)
  {
    groups != [] ==> WellFormedGroup(groups[0]) && WellFormedGroups(groups[1..])
  }

  function EncodeGroups(groups: seq<SettingGroup>): (s: seq<byte>)
    requires WellFormedGroups(groups)
  {
    if groups == [] then []
    else
      assert WellFormedGroup(groups[0]);
      [groups[0].code, |groups[0].values| as byte] + EncodeUint16s(groups[0].values) + EncodeGroups(groups[1..])
  }

  /** The labelled values the parser should report for a group. */
  function Labelled(code: byte, values: seq<int>): (r: seq<SettingValue>)
    requires values != [] ==> code in SETTING_VALUES
    ensures |r| == |values|
    ensures forall k :: 0 <= k < |r| ==> r[k].value == values[k]
  {
    if values == [] then []
    else [SettingValue(Lookup(SETTING_VALUES[code], values[0]), values[0])] + Labelled(code, values[1..])
  }

  function Expected(groups: seq<SettingGroup>): (r: seq<Parameter>)
    requires WellFormedGroups(groups)
    ensures |r| == |groups|
  {
    if groups == [] then []
    else
      assert WellFormedGroup(groups[0]);
      [ExpectedParameter(groups[0])] + Expected(groups[1..])
  }

  lemma {:induction false} ValuesRoundTrip(data: seq<byte>, code: byte, i: nat, values: seq<int>)
    requires forall k :: 0 <= k < |values| ==> 0 <= values[k] < 0x1_0000
    requires values != [] ==> code in SETTING_VALUES
    requires i + 2 * |values| <= |data| && data[i..i + 2 * |values|] == EncodeUint16s(values)
    ensures ValuesAt(data, code, i, |values|) == Ok(Labelled(code, values))
    decreases |values|
  {
    if values != [] {
      var v := values[0];
      var encoded := EncodeUint16s(values);
      assert encoded == [(v % 256) as byte, (v / 256) as byte] + EncodeUint16s(values[1..]);
      assert data[i + 2..i + 2 * |values|] == encoded[2..];
      ValuesRoundTrip(data, code, i + 2, values[1..]);
      assert data[i] == encoded[0] && data[i + 1] == encoded[1];
      assert Uint16(data, i) == v;
    }
  }

  /** One group step of GroupsAt, once its values are known to parse. */
  lemma GroupStep(data: seq<byte>, i: nat, values: seq<SettingValue>)
    requires i + 1 < |data|
    requires ValuesAt(data, data[i], i + 2, data[i + 1]) == Ok(values)
    ensures GroupsAt(data, i) ==
      Prepend([Parameter(Lookup(SETTING_TYPE_NAME, data[i]), data[i], Unit(data[i]), values)],
              GroupsAt(data, i + 2 + 2 * (data[i + 1] as nat)))
  {
  }

  lemma SliceOfSlice<T>(data: seq<T>, i: nat, j: nat, a: nat, b: nat)
    requires i <= j <= |data| && a <= b <= j - i
    ensures data[i..j][a..b] == data[i + a..i + b]
  {
    forall k | 0 <= k < b - a
      ensures data[i..j][a..b][k] == data[i + a..i + b][k]
    {
      assert data[i..j][a..b][k] == data[i..j][a + k] == data[i + a + k];
    }
  }

  /** The encoding of a non-empty group list: the first group's code, its
      count, its values, then the rest. */
  lemma EncodeGroupsSplit(groups: seq<SettingGroup>)
    requires WellFormedGroups(groups) && groups != []
    ensures WellFormedGroup(groups[0]) && WellFormedGroups(groups[1..])
    ensures EncodeGroups(groups) ==
      [groups[0].code, |groups[0].values| as byte] + EncodeUint16s(groups[0].values) + EncodeGroups(groups[1..])
  {
  }

  /** Where the parts of the first group lie in a payload holding the
      encoding of `groups` at byte i. */
  lemma EncodeGroupsLayout(data: seq<byte>, i: nat, groups: seq<SettingGroup>)
    requires WellFormedGroups(groups) && groups != []
    requires i + |EncodeGroups(groups)| <= |data| && data[i..i + |EncodeGroups(groups)|] == EncodeGroups(groups)
    ensures |EncodeGroups(groups)| == 2 + 2 * |groups[0].values| + |EncodeGroups(groups[1..])|
    ensures data[i] == groups[0].code && data[i + 1] == |groups[0].values|
    ensures data[i + 2..i + 2 + 2 * |groups[0].values|] == EncodeUint16s(groups[0].values)
    ensures data[i + 2 + 2 * |groups[0].values|..i + |EncodeGroups(groups)|] == EncodeGroups(groups[1..])
  {
    EncodeGroupsSplit(groups);
    var head: seq<byte> := [groups[0].code, |groups[0].values| as byte];
    LayoutParts(data, i, head, EncodeUint16s(groups[0].values), EncodeGroups(groups[1..]));
  }

  /** A slice that equals head + encoded + rest, with a two-byte head, holds
      each part at its offset. */
  lemma LayoutParts(data: seq<byte>, i: nat, head: seq<byte>, encoded: seq<byte>, rest: seq<byte>)
    requires |head| == 2
    requires i + |head + encoded + rest| <= |data| && data[i..i + |head + encoded + rest|] == head + encoded + rest
    ensures data[i] == head[0] && data[i + 1] == head[1]
    ensures data[i + 2..i + 2 + |encoded|] == encoded
    ensures data[i + 2 + |encoded|..i + |head + encoded + rest|] == rest
  {
    var all := head + encoded + rest;
    var end := i + |all|;
    assert data[i] == all[0] && data[i + 1] == all[1];
    assert all[2..2 + |encoded|] == encoded;
    assert all[2 + |encoded|..|all|] == rest;
    SliceOfSlice(data, i, end, 2, 2 + |encoded|);
    SliceOfSlice(data, i, end, 2 + |encoded|, |all|);
  }

  function ExpectedParameter(g: SettingGroup): Parameter
    requires WellFormedGroup(g)
  {
    Parameter(Lookup(SETTING_TYPE_NAME, g.code), g.code, Unit(g.code), Labelled(g.code, g.values))
  }

  /** The groups laid out one after another from byte i: code, count and
      values of the first, then the rest. */
  predicate GroupsEncodedAt(data: seq<byte>, i: nat, groups: seq<SettingGroup>)
    requires WellFormedGroups(groups)
    decreases |groups|
  {
    groups != [] ==>
      && i + 2 + 2 * |groups[0].values| <= |data|
      && data[i] == groups[0].code && data[i + 1] == |groups[0].values|
      && data[i + 2..i + 2 + 2 * |groups[0].values|] == EncodeUint16s(groups[0].values)
      && GroupsEncodedAt(data, i + 2 + 2 * |groups[0].values|, groups[1..])
  }

  /** A payload holding the encoding of the groups at byte i lays them out there. */
  lemma {:induction false} SliceLaysOutGroups(data: seq<byte>, i: nat, groups: seq<SettingGroup>)
    requires WellFormedGroups(groups)
    requires i + |EncodeGroups(groups)| <= |data| && data[i..i + |EncodeGroups(groups)|] == EncodeGroups(groups)
    ensures GroupsEncodedAt(data, i, groups)
    decreases |groups|
  {
    if groups != [] {
      EncodeGroupsLayout(data, i, groups);
      TailEncoded(data, i, groups);
      SliceLaysOutGroups(data, i + 2 + 2 * |groups[0].values|, groups[1..]);
    }
  }

  /** The encoding of the groups after the first one follows the first group. */
  lemma TailEncoded(data: seq<byte>, i: nat, groups: seq<SettingGroup>)
    requires WellFormedGroups(groups) && groups != []
    requires i + |EncodeGroups(groups)| <= |data| && data[i..i + |EncodeGroups(groups)|] == EncodeGroups(groups)
    ensures var n, tail := 2 + 2 * |groups[0].values|, EncodeGroups(groups[1..]);
      && WellFormedGroups(groups[1..])
      && |EncodeGroups(groups)| == n + |tail|
      && data[i + n..i + n + |tail|] == tail
  {
    EncodeGroupsLayout(data, i, groups);
  }

  /** Laid-out groups parse to their expected parameters, and parsing goes on
      right after them. */
  lemma {:induction false} LaidOutGroupsParse(data: seq<byte>, i: nat, groups: seq<SettingGroup>, end: nat)
    requires WellFormedGroups(groups) && GroupsEncodedAt(data, i, groups)
    requires end == i + |EncodeGroups(groups)|
    ensures GroupsAt(data, i) == Prepend(Expected(groups), GroupsAt(data, end))
    decreases |groups|
  {
    if groups == [] {
      PrependNil(GroupsAt(data, i));
    } else {
      var rest, n := groups[1..], 2 + 2 * |groups[0].values|;
      var first := [ExpectedParameter(groups[0])];
      GroupsLengthStep(groups);
      RestLaidOut(data, i, groups);
      FirstLaidOutGroupParses(data, i, groups);
      LaidOutGroupsParse(data, i + n, rest, end);
      PrependChain(GroupsAt(data, i), GroupsAt(data, i + n), GroupsAt(data, end), first, Expected(rest));
    }
  }

  /** The groups after the first are laid out right behind it. */
  lemma RestLaidOut(data: seq<byte>, i: nat, groups: seq<SettingGroup>)
    requires WellFormedGroups(groups) && groups != [] && GroupsEncodedAt(data, i, groups)
    ensures WellFormedGroups(groups[1..]) && GroupsEncodedAt(data, i + 2 + 2 * |groups[0].values|, groups[1..])
  {
  }

  lemma PrependChain(x: Result<seq<Parameter>>, y: Result<seq<Parameter>>, z: Result<seq<Parameter>>, a: seq<Parameter>, b: seq<Parameter>)
    requires x == Prepend(a, y) && y == Prepend(b, z)
    ensures x == Prepend(a + b, z)
  {
    PrependTwice(a, b, z);
  }

  /** The first laid-out group parses to its expected parameter. */
  lemma FirstLaidOutGroupParses(data: seq<byte>, i: nat, groups: seq<SettingGroup>)
    requires WellFormedGroups(groups) && groups != [] && GroupsEncodedAt(data, i, groups)
    ensures GroupsAt(data, i) == Prepend([ExpectedParameter(groups[0])], GroupsAt(data, i + 2 + 2 * |groups[0].values|))
  {
    var g := groups[0];
    ValuesRoundTrip(data, g.code, i + 2, g.values);
    GroupStep(data, i, Labelled(g.code, g.values));
  }

  /** The lengths and expected parameters of a non-empty group list, split
      into the first group and the rest. */
  lemma GroupsLengthStep(groups: seq<SettingGroup>)
    requires WellFormedGroups(groups) && groups != []
    ensures |EncodeGroups(groups)| == 2 + 2 * |groups[0].values| + |EncodeGroups(groups[1..])|
    ensures Expected(groups) == [ExpectedParameter(groups[0])] + Expected(groups[1..])
  {
    EncodeGroupsSplit(groups);
  }

  lemma GroupsRoundTrip(data: seq<byte>, i: nat, groups: seq<SettingGroup>)
    requires WellFormedGroups(groups)
    requires i + |EncodeGroups(groups)| <= |data| && data[i..i + |EncodeGroups(groups)|] == EncodeGroups(groups)
    ensures GroupsAt(data, i) == Prepend(Expected(groups), GroupsAt(data, i + |EncodeGroups(groups)|))
  {
    SliceLaysOutGroups(data, i, groups);
    LaidOutGroupsParse(data, i, groups, i + |EncodeGroups(groups)|);
  }

  /** A measurement-control response assembled from a header and well-formed
      groups parses back to that header and exactly those groups (for GET,
      for an unknown op code, and for a START that carries groups). */
  lemma ControlPointRoundTrip(op: byte, code: byte, status: byte, more: byte, groups: seq<SettingGroup>)
    requires WellFormedGroups(groups)
    requires op != STOP_MEASUREMENT && (op == START_MEASUREMENT ==> groups != [])
    ensures var r := ParsedControlPoint([MEASUREMENT_CONTROL, op, code, status, more] + EncodeGroups(groups));
      && r.Ok? && r.value.MeasurementControl?
      && r.value.measurementCode == code && r.value.statusCode == status
      && r.value.operation == OperationOf(op)
      && r.value.parameters == Some(Expected(groups))
  {
    var header: seq<byte> := [MEASUREMENT_CONTROL, op, code, status, more];
    var data := header + EncodeGroups(groups);
    GroupsBehindHeader(header, groups);
    NonEmptyGroupsBytes(groups);
    assert data[0] == MEASUREMENT_CONTROL && data[1] == op && data[2] == code && data[3] == status;
    ControlPointWithGroups(data, Expected(groups));
  }

  /** Encoded groups behind a five-byte header parse back from byte 5. */
  lemma GroupsBehindHeader(header: seq<byte>, groups: seq<SettingGroup>)
    requires |header| == 5 && WellFormedGroups(groups)
    ensures GroupsAt(header + EncodeGroups(groups), 5) == Ok(Expected(groups))
  {
    var data := header + EncodeGroups(groups);
    SliceOfConcat(header, EncodeGroups(groups), []);
    assert data + [] == data;
    GroupsRoundTrip(data, 5, groups);
    assert Expected(groups) + [] == Expected(groups);
  }

  /** At least one group encodes to at least two bytes. */
  lemma NonEmptyGroupsBytes(groups: seq<SettingGroup>)
    requires WellFormedGroups(groups)
    ensures groups != [] ==> |EncodeGroups(groups)| >= 2
  {
    if groups != [] {
      EncodeGroupsSplit(groups);
    }
  }

  /** A GET, an unknown op code or a START with more than six bytes whose
      groups parse: the header fields and exactly those groups. */
  lemma ControlPointWithGroups(data: seq<byte>, ps: seq<Parameter>)
    requires |data| >= 5 && data[0] == MEASUREMENT_CONTROL
    requires data[1] != STOP_MEASUREMENT && (data[1] == START_MEASUREMENT ==> |data| > 6)
    requires GroupsAt(data, 5) == Ok(ps)
    ensures var r := ParsedControlPoint(data);
      && r.Ok? && r.value.MeasurementControl?
      && r.value.measurementCode == data[2] && r.value.statusCode == data[3]
      && r.value.operation == OperationOf(data[1])
      && r.value.parameters == Some(ps)
  {
  }

  /** A settings code left on its own at the end of the payload, after
      well-formed groups, with no count byte after it, makes the parser throw
      RangeError. */
  lemma DanglingCodeThrows(data: seq<byte>, i: nat, groups: seq<SettingGroup>)
    requires WellFormedGroups(groups)
    requires |data| == i + |EncodeGroups(groups)| + 1
    requires data[i..i + |EncodeGroups(groups)|] == EncodeGroups(groups)
    ensures GroupsAt(data, i) == Err(RangeError)
  {
    GroupsRoundTrip(data, i, groups);
  }

  lemma SliceOfConcat<T>(prefix: seq<T>, middle: seq<T>, suffix: seq<T>)
    ensures (prefix + middle + suffix)[|prefix|..|prefix| + |middle|] == middle
  {
    var data := prefix + middle + suffix;
    forall k | 0 <= k < |middle|
      ensures data[|prefix|..|prefix| + |middle|][k] == middle[k]
    {
    }
  }

  /** A group whose code has no value table (such as 0x03, the code
      SETTING_TYPE_NAME calls "channels") throws TypeError as soon as it has
      a value, and is accepted, unlabelled, when its count is 0. */
  lemma CodeWithoutTable(data: seq<byte>, i: nat)
    requires i + 1 < |data| && data[i] !in SETTING_VALUES
    ensures data[i + 1] > 0 && i + 4 <= |data| ==> GroupsAt(data, i) == Err(TypeError)
    ensures data[i + 1] == 0 ==> GroupsAt(data, i) == Prepend(
      [Parameter(Lookup(SETTING_TYPE_NAME, data[i]), data[i], Unit(data[i]), [])], GroupsAt(data, i + 2))
  {
  }

  /** A device that sends a resolution, sample rate or range as the
      little-endian u16 of its value (the same byte pair the START requests
      use) gets that value back with no label: the tables are keyed by the
      big-endian reading. */
  lemma WireValuesGoUnlabelled(code: byte, v: int)
    requires code in {SAMPLE_RATE_SETTING, RESOLUTION_SETTING, RANGE_SETTING}
    requires code == SAMPLE_RATE_SETTING ==> v in SAMPLE_RATE_CODE
    requires code == RESOLUTION_SETTING ==> v in RESOLUTION_CODE
    requires code == RANGE_SETTING ==> v in RANGE_CODE
    ensures 0 <= v < 0x1_0000
    ensures Labelled(code, [v]) == [SettingValue(None, v)]
  {
    SampleRateKeyedBigEndian();
    ResolutionKeyedBigEndian();
    RangeKeyedBigEndian();
    SettingValuesPerType();
  }
}
