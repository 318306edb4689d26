/** The hook-based PMD service component: the features reducer, the rule
    that keeps one settings request in flight, the dispatch of control-point
    notifications, and the START/STOP request encoder. */
module ServicePolar {
  import opened Bytes
  import opened PolarCodes
  import opened PolarParsers

  // ---------------------------------------------------------------------------
  // State and actions

  /** One entry of `state.features`. The reducer only looks at `code` and
      `supported`; the rest belongs to the feature reducer. */
  datatype Feature = Feature(code: int, supported: bool, parameters: Option<seq<Parameter>>)

  /** The `featureSupport` payload of POLAR_FEATURES_SUPPORTED: an array of
      feature records, or the keyed object parseFeatureReadResponse builds. */
  datatype FeatureSupport =
    | SupportList(entries: seq<Feature>)
    | SupportObject(flags: map<int, bool>)

  /** The actions the component dispatches. The four measurement actions are
      the feature actions; StatusError is the status panel's ERROR action. */
  datatype Action =
    | FeaturesSupported(featureSupport: Option<FeatureSupport>)
    | MeasurementParameters(measurementCode: int, parameters: Option<seq<Parameter>>)
    | MeasurementStart(measurementCode: int, parameters: Option<seq<Parameter>>)
    | MeasurementStop(measurementCode: int)
    | MeasurementError(measurementCode: int, statusCode: int, statusMessage: Option<string>, operation: string)
    | StatusError(reason: StatusReason)

  datatype StatusReason = UnknownControlPointResponse | UnknownOperationCode(code: int)

  /** `Object.values(FEATURE_ACTION).indexOf(type) !== -1`. */
  predicate IsFeatureAction(action: Action)
  {
    action.MeasurementParameters? || action.MeasurementStart? || action.MeasurementStop? || action.MeasurementError?
  }

  /** `payload.measurementCode`, `None` when the payload has none. */
  function MeasurementCodeOf(action: Action): Option<int>
  {
    match action
    case MeasurementParameters(c, _) => Some(c)
    case MeasurementStart(c, _) => Some(c)
    case MeasurementStop(c) => Some(c)
    case MeasurementError(c, _, _, _) => Some(c)
    case _ => None
  }

  /** `features.findIndex(feature => feature.code === code)`. */
  function FindIndex(features: seq<Feature>, code: int): (r: int)
    ensures -1 <= r < |features|
    ensures r == -1 <==> forall j :: 0 <= j < |features| ==> features[j].code != code
    ensures r >= 0 ==> features[r].code == code && forall j :: 0 <= j < r ==> features[j].code != code
  {
    if features == [] then -1
    else if features[0].code == code then 0
    else
      var r := FindIndex(features[1..], code);
      if r == -1 then -1 else r + 1
  }

  /** `featureSupport.filter(feature => feature.supported)`. */
  function Supported(entries: seq<Feature>): (r: seq<Feature>)
    ensures |r| <= |entries|
    ensures forall f :: f in r <==> f in entries && f.supported
  {
    if entries == [] then []
    else if entries[0].supported then [entries[0]] + Supported(entries[1..])
    else Supported(entries[1..])
  }

  /** The component's reducer over `state.features`, with the feature
      reducer it delegates to passed in. A payload without `featureSupport`,
      or whose `featureSupport` is not an array, throws TypeError at `.filter`. */
  function Reducer(features: seq<Feature>, action: Action, featureReducer: (Feature, Action) -> Feature): (r: Result<seq<Feature>>)
    ensures r.Err? ==> action.FeaturesSupported? && r.failure == TypeError
    ensures r.Ok? && action.FeaturesSupported? ==> |features| <= |r.value| && r.value[..|features|] == features
    ensures !action.FeaturesSupported? ==> r.Ok? && |r.value| == |features|
  {
    if action.FeaturesSupported? then
      match action.featureSupport
      case Some(SupportList(entries)) => Ok(features + Supported(entries))
      case _ => Err(TypeError)
    else
      var index := if MeasurementCodeOf(action).Some? then FindIndex(features, MeasurementCodeOf(action).value) else -1;
      if IsFeatureAction(action) && index != -1 then
        Ok(features[..index] + [featureReducer(features[index], action)] + features[index + 1..])
      else Ok(features)
  }

  /** The filter keeps order: filtering a concatenation filters each part. */
  lemma {:induction false} SupportedSplits(a: seq<Feature>, b: seq<Feature>)
    ensures Supported(a + b) == Supported(a) + Supported(b)
  {
    if a != [] {
      assert (a + b)[1..] == a[1..] + b;
      SupportedSplits(a[1..], b);
    } else {
      assert a + b == b;
    }
  }

  /** POLAR_FEATURES_SUPPORTED keeps the existing features in front and
      appends the supported entries, in their order, without deduplication. */
  lemma FeaturesSupportedAppends(features: seq<Feature>, entries: seq<Feature>, featureReducer: (Feature, Action) -> Feature)
    ensures var r := Reducer(features, FeaturesSupported(Some(SupportList(entries))), featureReducer);
      && r.Ok?
      && |r.value| == |features| + |Supported(entries)|
      && r.value[..|features|] == features
      && r.value[|features|..] == Supported(entries)
      && (forall f :: f in r.value[|features|..] <==> f in entries && f.supported)
  {
  }

  /** The payload the component itself dispatches after a feature read is the
      keyed object, not an array, so the reducer throws on it. */
  lemma FeatureReadPayloadThrows(features: seq<Feature>, flags: map<int, bool>, featureReducer: (Feature, Action) -> Feature)
    ensures Reducer(features, FeaturesSupported(Some(SupportObject(flags))), featureReducer) == Err(TypeError)
    ensures Reducer(features, FeaturesSupported(None), featureReducer) == Err(TypeError)
  {
  }

  /** A feature action for the code first found at index k replaces only
      element k, by what the feature reducer makes of it. */
  lemma FeatureActionReplacesOne(features: seq<Feature>, action: Action, featureReducer: (Feature, Action) -> Feature, k: nat)
    requires IsFeatureAction(action)
    requires k < |features| && features[k].code == action.measurementCode
    requires forall j :: 0 <= j < k ==> features[j].code != action.measurementCode
    ensures var r := Reducer(features, action, featureReducer);
      && r.Ok? && |r.value| == |features|
      && r.value[k] == featureReducer(features[k], action)
      && forall j :: 0 <= j < |features| && j != k ==> r.value[j] == features[j]
  {
    var r := Reducer(features, action, featureReducer);
    assert FindIndex(features, action.measurementCode) == k;
    forall j | 0 <= j < |features| && j != k
      ensures r.value[j] == features[j]
    {
      if j > k {
        assert r.value[j] == features[k + 1..][j - k - 1];
      }
    }
  }

  /** A feature action for a code no feature has, and every action that is
      neither a feature action nor POLAR_FEATURES_SUPPORTED, leaves the
      features as they are. */
  lemma OtherActionsKeepState(features: seq<Feature>, action: Action, featureReducer: (Feature, Action) -> Feature)
    requires !action.FeaturesSupported?
    requires IsFeatureAction(action) ==> forall j :: 0 <= j < |features| ==> features[j].code != action.measurementCode
    ensures Reducer(features, action, featureReducer) == Ok(features)
  {
  }

  // ---------------------------------------------------------------------------
  // One settings request in flight

  /** getNextParameterRequest: the code after the one in flight, or `None` (null). */
  function GetNextParameterRequest(features: seq<Feature>, parameterRequest: Option<int>): (r: Option<int>)
    ensures r.Some? ==> exists j :: 0 <= j < |features| && features[j].code == r.value
  {
    if |features| == 0 then None
    else if parameterRequest.None? then Some(features[0].code)
    else
      var current := FindIndex(features, parameterRequest.value);
      if current == |features| - 1 || current == -1 then None
      else Some(features[current + 1].code)
  }

  predicate DistinctCodes(features: seq<Feature>)
  {
    forall i, j :: 0 <= i < j < |features| ==> features[i].code != features[j].code
  }

  /** The four cases of getNextParameterRequest. */
  lemma NextRequestCases(features: seq<Feature>, parameterRequest: Option<int>)
    ensures features == [] ==> GetNextParameterRequest(features, parameterRequest) == None
    ensures features != [] && parameterRequest.None? ==>
      GetNextParameterRequest(features, parameterRequest) == Some(features[0].code)
    ensures parameterRequest.Some? && (forall j :: 0 <= j < |features| ==> features[j].code != parameterRequest.value) ==>
      GetNextParameterRequest(features, parameterRequest) == None
    ensures DistinctCodes(features) && parameterRequest.Some? && features != [] &&
            features[|features| - 1].code == parameterRequest.value ==>
      GetNextParameterRequest(features, parameterRequest) == None
  {
    if DistinctCodes(features) && parameterRequest.Some? && features != [] &&
       features[|features| - 1].code == parameterRequest.value {
      assert FindIndex(features, parameterRequest.value) == |features| - 1;
    }
  }

  /** With distinct codes, the request after feature k is feature k + 1. */
  lemma NextRequestFollowsOrder(features: seq<Feature>, k: nat)
    requires DistinctCodes(features) && k < |features|
    ensures GetNextParameterRequest(features, Some(features[k].code)) ==
      if k + 1 < |features| then Some(features[k + 1].code) else None
  {
    assert FindIndex(features, features[k].code) == k;
  }

  /** The request in flight after n acknowledgements, starting from null. */
  function RequestAfter(features: seq<Feature>, n: nat): Option<int>
  {
    if n == 0 then GetNextParameterRequest(features, None)
    else GetNextParameterRequest(features, RequestAfter(features, n - 1))
  }

  /** Starting from null, the requests visit the features in order, one at a
      time, and stop (null) after the last one. */
  lemma {:induction false} RequestsWalkFeatures(features: seq<Feature>, n: nat)
    requires DistinctCodes(features) && n <= |features|
    ensures RequestAfter(features, n) == if n < |features| then Some(features[n].code) else None
  {
    if n > 0 {
      RequestsWalkFeatures(features, n - 1);
      NextRequestFollowsOrder(features, n - 1);
    }
  }

  /** The request in flight and the `parameterRequestInitialized` flag. */
  datatype RequestState = RequestState(parameterRequest: Option<int>, initialized: bool)

  /** The effect that runs when `features` changes: once the feature read has
      armed the flag, the first request is chosen and the flag cleared. */
  function OnFeaturesChanged(features: seq<Feature>, state: RequestState): (r: RequestState)
    ensures r.initialized <==> state.initialized && features == []
    ensures r.initialized ==> r == state
  {
    if |features| != 0 && state.initialized then
      RequestState(GetNextParameterRequest(features, state.parameterRequest), false)
    else state
  }

  /** Armed with nothing in flight, a non-empty feature list starts the walk
      at its first feature; the flag is then down, so later changes of the
      list leave the request alone, and an unarmed or empty list changes
      nothing. */
  lemma FeaturesStartTheWalk(features: seq<Feature>, later: seq<Feature>, state: RequestState)
    ensures features != [] && state == RequestState(None, true) ==>
      OnFeaturesChanged(features, state) == RequestState(Some(features[0].code), false)
    ensures !OnFeaturesChanged(features, state).initialized
      ==> OnFeaturesChanged(later, OnFeaturesChanged(features, state)) == OnFeaturesChanged(features, state)
    ensures features == [] || !state.initialized ==> OnFeaturesChanged(features, state) == state
  {
  }

  /** What a `writeValue` call on the control point receives, if made at all.
      `WriteValue(None)` is a call with `undefined`. */
  datatype ControlPointWrite = NoWrite | WriteValue(request: Option<seq<byte>>)

  /** The effect that runs when `parameterRequest` changes: the GET request
      for that measurement code. */
  function SettingsRequest(parameterRequest: Option<int>): (r: ControlPointWrite)
    ensures r.WriteValue? ==> parameterRequest.Some? && 0 <= parameterRequest.value < 256
    ensures r.WriteValue? && r.request.Some? ==>
      r.request.value == [GET_MEASUREMENT_SETTINGS, parameterRequest.value as byte]
  {
    PrebuiltRequests();
    if parameterRequest.None? then NoWrite
    else
      var code := parameterRequest.value;
      if code == ECG as int then WriteValue(Lookup(CONTROL_POINT_REQUEST, GET_ECG_STREAM_SETTINGS))
      else if code == PPG as int then WriteValue(Lookup(CONTROL_POINT_REQUEST, GET_PPG_STREAM_SETTINGS))
      else if code == ACCELERATION as int then WriteValue(Lookup(CONTROL_POINT_REQUEST, GET_ACC_STREAM_SETTINGS))
      else if code == PP_INTERVAL as int then WriteValue(Lookup(CONTROL_POINT_REQUEST, GET_PPI_STREAM_SETTINGS))
      else if code == GYROSCOPE as int then WriteValue(Lookup(CONTROL_POINT_REQUEST, GET_GYRO_STREAM_SETTINGS))
      else if code == MAGNETOMETER as int then WriteValue(Lookup(CONTROL_POINT_REQUEST, GET_MAG_STREAM_SETTINGS))
      else NoWrite
  }

  /** Every measurement code causes a write; ECG and acceleration get their
      GET request `[0x01, code]`, while the other four names are missing
      from CONTROL_POINT_REQUEST and are written as `undefined`. Any other
      code, and null, write nothing. */
  lemma SettingsRequestPerCode(code: int)
    ensures code in {ECG as int, ACCELERATION as int} ==>
      SettingsRequest(Some(code)) == WriteValue(Some([GET_MEASUREMENT_SETTINGS, code as byte]))
    ensures code in {PPG as int, PP_INTERVAL as int, GYROSCOPE as int, MAGNETOMETER as int} ==>
      SettingsRequest(Some(code)) == WriteValue(None)
    ensures SettingsRequest(Some(code)).WriteValue? <==> 0 <= code < 256 && code as byte in MEASUREMENT_CODES
    ensures SettingsRequest(None) == NoWrite
  {
    PrebuiltRequests();
  }

  // ---------------------------------------------------------------------------
  // Control-point notifications

  /** What the component does in response to a notification, in order. */
  datatype Effect =
    | Dispatch(action: Action)
    | SetParameterRequest(request: Option<int>)
    | InitializeParameterRequests(on: bool)

  /** handleControlPointChanged: the effects of one notification, or the
      exception it throws. A measurement-control response whose op code has
      no `operation` throws TypeError when its fields are destructured. */
  function HandleControlPointChanged(data: seq<byte>, features: seq<Feature>, parameterRequest: Option<int>): (r: Result<seq<Effect>>)
    ensures r.Err? ==> |data| == 0 || data[0] == FEATURE_READ || data[0] == MEASUREMENT_CONTROL
    ensures r.Ok? ==> |r.value| <= 2
  {
    if |data| < 1 then Err(RangeError)
    else if data[0] == FEATURE_READ then
      match ParseFeatureReadResponse(data)
      case Err(e) => Err(e)
      case Ok(support) =>
        Ok([InitializeParameterRequests(true), Dispatch(FeaturesSupported(Some(SupportObject(support))))])
    else if data[0] == MEASUREMENT_CONTROL then
      match ParsedControlPoint(data)
      case Err(e) => Err(e)
      case Ok(response) =>
        if !response.MeasurementControl? || response.operation.None? then Err(TypeError)
        else
          var op, code := response.operation.value, response.measurementCode as int;
          var failed := Dispatch(MeasurementError(code, response.statusCode, response.statusMessage, op.name));
          if op.code == GET_MEASUREMENT_SETTINGS then
            Ok([SetParameterRequest(GetNextParameterRequest(features, parameterRequest)),
                Dispatch(MeasurementParameters(code, response.parameters))])
          else if op.code == START_MEASUREMENT then
            if !response.error then Ok([Dispatch(MeasurementStart(code, response.parameters))]) else Ok([failed])
          else if op.code == STOP_MEASUREMENT then
            if !response.error then Ok([Dispatch(MeasurementStop(code))]) else Ok([failed])
          else Ok([])
    else Ok([Dispatch(StatusError(UnknownControlPointResponse))])
  }

  /** A feature read arms the request sequence and dispatches the keyed
      support object, whose flags are byte 1's PMD_FLAG bits. */
  lemma FeatureReadNotification(data: seq<byte>, features: seq<Feature>, parameterRequest: Option<int>)
    requires |data| >= 2 && data[0] == FEATURE_READ
    ensures var r := HandleControlPointChanged(data, features, parameterRequest);
      && r.Ok? && |r.value| == 2
      && r.value[0] == InitializeParameterRequests(true)
      && r.value[1].Dispatch? && r.value[1].action.FeaturesSupported?
      && r.value[1].action.featureSupport == Some(SupportObject(ParseFeatureReadResponse(data).value))
      && forall k :: 0 <= k < 6 ==>
           r.value[1].action.featureSupport.value.flags[MEASUREMENT_CODES[k] as int] == FlagSet(data[1], PMD_FLAGS[k])
  {
  }

  /** A GET-settings acknowledgement first moves the request pointer on and
      then dispatches the parsed settings groups for the measurement code. */
  lemma SettingsAckAdvancesFirst(data: seq<byte>, features: seq<Feature>, parameterRequest: Option<int>)
    requires |data| >= 5 && data[0] == MEASUREMENT_CONTROL && data[1] == GET_MEASUREMENT_SETTINGS
    requires GroupsAt(data, 5).Ok?
    ensures HandleControlPointChanged(data, features, parameterRequest) ==
      Ok([SetParameterRequest(GetNextParameterRequest(features, parameterRequest)),
          Dispatch(MeasurementParameters(data[2] as int, Some(GroupsAt(data, 5).value)))])
  {
  }

  /** The listener is added once, by the effect that runs when the control
      point arrives, so it keeps the `features` and `parameterRequest` of
      that render: `[]` and null. With those a GET acknowledgement sets the
      request to null, so the walk ends after its first request. */
  lemma StaleHandlerEndsTheWalk(data: seq<byte>)
    requires |data| >= 5 && data[0] == MEASUREMENT_CONTROL && data[1] == GET_MEASUREMENT_SETTINGS
    requires GroupsAt(data, 5).Ok?
    ensures HandleControlPointChanged(data, [], None) ==
      Ok([SetParameterRequest(None), Dispatch(MeasurementParameters(data[2] as int, Some(GroupsAt(data, 5).value)))])
    ensures forall features: seq<Feature> :: features != [] ==> OnFeaturesChanged(features, RequestState(None, true)).parameterRequest.Some?
  {
    SettingsAckAdvancesFirst(data, [], None);
  }

  /** A START acknowledgement dispatches START with its groups on status 0,
      and otherwise ERROR carrying the status and the operation name. */
  lemma StartAck(data: seq<byte>, features: seq<Feature>, parameterRequest: Option<int>)
    requires |data| >= 5 && data[0] == MEASUREMENT_CONTROL && data[1] == START_MEASUREMENT
    requires |data| > 6 ==> GroupsAt(data, 5).Ok?
    ensures var r := HandleControlPointChanged(data, features, parameterRequest);
      && (data[3] == 0 ==>
            r == Ok([Dispatch(MeasurementStart(data[2] as int,
                                               if |data| > 6 then Some(GroupsAt(data, 5).value) else None))]))
      && (data[3] != 0 ==>
            r == Ok([Dispatch(MeasurementError(data[2] as int, data[3], Lookup(POLAR_ERROR_CODES, data[3]), "startStream"))]))
  {
    StartStopResponse(data);
  }

  /** A STOP acknowledgement never reads past the header: it dispatches STOP
      on status 0 and otherwise ERROR carrying the status and the operation. */
  lemma StopAck(data: seq<byte>, features: seq<Feature>, parameterRequest: Option<int>)
    requires |data| >= 5 && data[0] == MEASUREMENT_CONTROL && data[1] == STOP_MEASUREMENT
    ensures var r := HandleControlPointChanged(data, features, parameterRequest);
      && (data[3] == 0 ==> r == Ok([Dispatch(MeasurementStop(data[2] as int))]))
      && (data[3] != 0 ==>
            r == Ok([Dispatch(MeasurementError(data[2] as int, data[3], Lookup(POLAR_ERROR_CODES, data[3]), "stopStream"))]))
  {
    StartStopResponse(data);
  }

  /** A measurement-control response with an op code other than 1, 2 or 3
      always throws: RangeError while its groups are read, or TypeError
      when its missing `operation` is destructured. */
  lemma UnknownOperationThrows(data: seq<byte>, features: seq<Feature>, parameterRequest: Option<int>)
    requires |data| >= 5 && data[0] == MEASUREMENT_CONTROL
    requires data[1] !in {GET_MEASUREMENT_SETTINGS, START_MEASUREMENT, STOP_MEASUREMENT}
    ensures var r := HandleControlPointChanged(data, features, parameterRequest);
      && r.Err?
      && (GroupsAt(data, 5).Ok? ==> r == Err(TypeError))
  {
  }

  /** Any other response type dispatches the status panel's error action. */
  lemma OtherResponseIsReported(data: seq<byte>, features: seq<Feature>, parameterRequest: Option<int>)
    requires |data| >= 1 && data[0] != FEATURE_READ && data[0] != MEASUREMENT_CONTROL
    ensures HandleControlPointChanged(data, features, parameterRequest) ==
      Ok([Dispatch(StatusError(UnknownControlPointResponse))])
  {
  }

  // ---------------------------------------------------------------------------
  // START and STOP requests

  /** One `[parameter, value]` pair of the submitted settings list. */
  datatype Setting = Setting(parameter: int, value: int)

  /** The four bytes a setting occupies: DataView's setUint8 and setUint16
      keep the value modulo 2^8 and 2^16. */
  function SettingBytes(s: Setting): seq<byte>
  {
    [s.parameter % 256, SETTING_LENGTH, (s.value % 0x1_0000) % 256, (s.value % 0x1_0000) / 256]
  }

  function SettingsBytes(settings: seq<Setting>): (r: seq<byte>)
    ensures |r| == 4 * |settings|
  {
    if settings == [] then [] else SettingBytes(settings[0]) + SettingsBytes(settings[1..])
  }

  /** The START request a feature submits. */
  function StartRequest(featureId: int, settings: seq<Setting>): (r: seq<byte>)
    ensures |r| == 2 + 4 * |settings|
  {
    [START_MEASUREMENT, featureId % 256] + SettingsBytes(settings)
  }

  lemma {:induction false} SettingsBytesAppend(settings: seq<Setting>, s: Setting)
    ensures SettingsBytes(settings + [s]) == SettingsBytes(settings) + SettingBytes(s)
  {
    if settings == [] {
      assert settings + [s] == [s];
      assert SettingsBytes([s]) == SettingBytes(s) + SettingsBytes([]);
    } else {
      assert (settings + [s])[1..] == settings[1..] + [s];
      SettingsBytesAppend(settings[1..], s);
    }
  }

  /** The ArrayBuffer filled through a DataView with the moving cursor `i`. */
  method EncodeStartRequest(featureId: int, settings: seq<Setting>) returns (request: seq<byte>)
    ensures request == StartRequest(featureId, settings)
  {
    var view := new byte[2 + 4 * |settings|];
    view[0] := START_MEASUREMENT;
    view[1] := featureId % 256;
    var i := 2;
    for k := 0 to |settings|
      invariant i == 2 + 4 * k
      invariant view[..i] == StartRequest(featureId, settings[..k])
    {
      var s := settings[k];
      ghost var before := view[..i];
      view[i] := s.parameter % 256;
      i := i + 1;
      view[i] := SETTING_LENGTH;
      i := i + 1;
      view[i] := (s.value % 0x1_0000) % 256;
      view[i + 1] := (s.value % 0x1_0000) / 256;
      i := i + 2;
      assert view[..i] == before + SettingBytes(s);
      assert settings[..k + 1] == settings[..k] + [s];
      SettingsBytesAppend(settings[..k], s);
    }
    assert settings[..|settings|] == settings;
    assert view[..] == view[..i];
    request := view[..];
  }

  lemma {:induction false} SettingsBytesAt(settings: seq<Setting>, k: nat, j: nat)
    requires k < |settings| && j < 4
    ensures SettingsBytes(settings)[4 * k + j] == SettingBytes(settings[k])[j]
  {
    if k > 0 {
      SettingsBytesAt(settings[1..], k - 1, j);
    }
  }

  /** A START request is 2 + 4n bytes: the op code, the feature id, then
      setting k at offset 2 + 4k as its code, SETTING_LENGTH and its value
      as a little-endian u16. */
  lemma StartRequestLayout(featureId: int, settings: seq<Setting>)
    ensures var r := StartRequest(featureId, settings);
      && |r| == 2 + 4 * |settings|
      && r[0] == START_MEASUREMENT && r[1] == featureId % 256
      && forall k :: 0 <= k < |settings| ==>
           && r[2 + 4 * k] == settings[k].parameter % 256
           && r[2 + 4 * k + 1] == SETTING_LENGTH
           && Uint16(r, 2 + 4 * k + 2) == settings[k].value % 0x1_0000
  {
    var r := StartRequest(featureId, settings);
    forall k | 0 <= k < |settings|
      ensures r[2 + 4 * k] == settings[k].parameter % 256
      ensures r[2 + 4 * k + 1] == SETTING_LENGTH
      ensures Uint16(r, 2 + 4 * k + 2) == settings[k].value % 0x1_0000
    {
      SettingsBytesAt(settings, k, 0);
      SettingsBytesAt(settings, k, 1);
      SettingsBytesAt(settings, k, 2);
      SettingsBytesAt(settings, k, 3);
    }
  }

  /** The encoder rebuilds both pre-built START requests from their settings. */
  lemma PrebuiltStartRequests()
    ensures StartRequest(ECG as int, [Setting(SAMPLE_RATE_SETTING as int, 130), Setting(RESOLUTION_SETTING as int, 14)]) ==
      CONTROL_POINT_REQUEST[ECG_START]
    ensures StartRequest(ACCELERATION as int,
                         [Setting(RANGE_SETTING as int, 8), Setting(SAMPLE_RATE_SETTING as int, 200),
                          Setting(RESOLUTION_SETTING as int, 16)]) ==
      CONTROL_POINT_REQUEST[ACC_START]
  {
    PrebuiltRequests();
    assert SettingsBytes([Setting(RESOLUTION_SETTING as int, 14)]) == [0x01, 0x01, 0x0E, 0x00];
    assert SettingsBytes([Setting(RESOLUTION_SETTING as int, 16)]) == [0x01, 0x01, 0x10, 0x00];
    assert SettingsBytes([Setting(SAMPLE_RATE_SETTING as int, 200), Setting(RESOLUTION_SETTING as int, 16)]) ==
      [0x00, 0x01, 0xC8, 0x00] + SettingsBytes([Setting(RESOLUTION_SETTING as int, 16)]);
  }

  /** Settings the control-point parser can read back: one-byte codes that
      have a value table, and u16 values. */
  predicate Encodable(settings: seq<Setting>)
  {
    forall k :: 0 <= k < |settings| ==>
      0 <= settings[k].parameter < 256 && settings[k].parameter in SETTING_VALUES && 0 <= settings[k].value < 0x1_0000
  }

  /** The settings as single-value groups. */
  function AsGroups(settings: seq<Setting>): (r: seq<SettingGroup>)
    requires Encodable(settings)
    ensures |r| == |settings| && WellFormedGroups(r)
  {
    if settings == [] then []
    else
      var rest := AsGroups(settings[1..]);
      assert ([SettingGroup(settings[0].parameter as byte, [settings[0].value])] + rest)[1..] == rest;
      [SettingGroup(settings[0].parameter as byte, [settings[0].value])] + rest
  }

  lemma {:induction false} SettingsAreGroups(settings: seq<Setting>)
    requires Encodable(settings)
    ensures SettingsBytes(settings) == EncodeGroups(AsGroups(settings))
  {
    if settings != [] {
      var s := settings[0];
      var groups := AsGroups(settings);
      SettingsAreGroups(settings[1..]);
      OneSettingIsGroup(s);
      assert groups[0] == SettingGroup(s.parameter as byte, [s.value]) && groups[1..] == AsGroups(settings[1..]);
      EncodeGroupsSplit(groups);
    }
  }

  /** The four bytes of one encodable setting are a group of one value. */
  lemma OneSettingIsGroup(s: Setting)
    requires 0 <= s.parameter < 256 && 0 <= s.value < 0x1_0000
    ensures SettingBytes(s) == [s.parameter as byte, 1 as byte] + EncodeUint16s([s.value])
  {
    assert EncodeUint16s([s.value]) == [(s.value % 256) as byte, (s.value / 256) as byte] + EncodeUint16s([]);
  }

  /** The settings of a START request, read with the control-point parser's
      group grammar from byte 2, come back as one group per setting, in order. */
  lemma StartRequestRoundTrip(featureId: int, settings: seq<Setting>)
    requires Encodable(settings)
    ensures GroupsAt(StartRequest(featureId, settings), 2) == Ok(Expected(AsGroups(settings)))
  {
    var data := StartRequest(featureId, settings);
    var groups := AsGroups(settings);
    StartRequestHoldsGroups(featureId, settings);
    GroupsRoundTrip(data, 2, groups);
    assert Expected(groups) + [] == Expected(groups);
  }

  /** After its two header bytes a START request is the encoding of its
      settings as groups, up to its last byte. */
  lemma StartRequestHoldsGroups(featureId: int, settings: seq<Setting>)
    requires Encodable(settings)
    ensures var data, encoded := StartRequest(featureId, settings), EncodeGroups(AsGroups(settings));
      && 2 + |encoded| == |data| && data[2..2 + |encoded|] == encoded
      && GroupsAt(data, 2 + |encoded|) == Ok([])
  {
    SettingsAreGroups(settings);
  }

  /** What featureCommandHandler does: write a request, or report an
      unknown op code on the status panel and write nothing. */
  datatype CommandOutcome = WriteRequest(request: seq<byte>) | ReportError(reason: StatusReason)

  method FeatureCommand(featureId: int, operationCode: int, settings: seq<Setting>) returns (outcome: CommandOutcome)
    ensures operationCode == START_MEASUREMENT as int ==> outcome == WriteRequest(StartRequest(featureId, settings))
    ensures operationCode == STOP_MEASUREMENT as int ==> outcome == WriteRequest([STOP_MEASUREMENT, featureId % 256])
    ensures operationCode != START_MEASUREMENT as int && operationCode != STOP_MEASUREMENT as int ==>
      outcome == ReportError(UnknownOperationCode(operationCode))
  {
    if operationCode == START_MEASUREMENT as int {
      var request := EncodeStartRequest(featureId, settings);
      outcome := WriteRequest(request);
    } else if operationCode == STOP_MEASUREMENT as int {
      outcome := WriteRequest([operationCode % 256, featureId % 256]);
    } else {
      outcome := ReportError(UnknownOperationCode(operationCode));
    }
  }
}
