/** The older class-based PMD service component: a feature map keyed by
    measurement code, a counter that walks the GET-settings requests in a
    fixed order, and the acknowledgement handlers that update the map. */
module PolarServiceComponent {
  import opened Bytes
  import opened PolarCodes
  import opened PolarParsers
  import ServicePolar

  /** `{status, operation}` recorded on a feature when the device refuses an operation. */
  datatype FeatureError = FeatureError(statusCode: int, statusMessage: Option<string>, operation: string)

  /** One value of `state.features`: the fields the handlers spread and set.
      `None` is a field the object does not have. */
  datatype Entry = Entry(
    supported: Option<bool>,
    parameters: Option<seq<Parameter>>,
    status: Option<string>,
    error: Option<FeatureError>)

  /** `{supported: true}`, the entry a feature read stores for a supported code. */
  const SUPPORTED_ENTRY: Entry := Entry(Some(true), None, None, None)

  /** One write on the control point: `writeValue` (with response) or
      `writeValueWithoutResponse`; `None` is a call with `undefined`. */
  datatype Sent = Sent(request: Option<seq<byte>>, withResponse: bool)

  /** The names getParameters writes, in the order of MEASUREMENT_CODES. */
  const GET_REQUEST_NAMES: seq<RequestName> := [
    GET_ECG_STREAM_SETTINGS, GET_PPG_STREAM_SETTINGS, GET_ACC_STREAM_SETTINGS,
    GET_PPI_STREAM_SETTINGS, GET_GYRO_STREAM_SETTINGS, GET_MAG_STREAM_SETTINGS]

  /** `{...features[code]}`: spreading a missing entry gives an empty object. */
  function EntryOf(features: map<int, Entry>, code: int): Entry
  {
    if code in features then features[code] else Entry(None, None, None, None)
  }

  function SupportedCodes(flags: map<int, bool>): set<int>
  {
    set code | code in flags && flags[code]
  }

  /** The feature map after a feature read: every supported code gets
      `{supported: true}`, every other entry stays. */
  function WithSupported(features: map<int, Entry>, flags: map<int, bool>): map<int, Entry>
  {
    map code | code in features.Keys + SupportedCodes(flags) ::
      if code in flags && flags[code] then SUPPORTED_ENTRY else features[code]
  }

  /** Where one call of getParameters leaves the counter, and the index into
      MEASUREMENT_CODES of the request it writes, if any. */
  datatype Step = Step(counter: nat, written: Option<nat>)

  /** The if-cascade of getParameters from counter p: each absent feature
      moves the counter on, the first present one is requested, and an absent
      magnetometer (the last) moves nothing. */
  function Cascade(features: map<int, Entry>, p: nat): (r: Step)
    ensures p <= r.counter
    ensures r.written.Some? ==> r.written.value == r.counter <= 5 && MEASUREMENT_CODES[r.counter] as int in features
    decreases 6 - p
  {
    if p > 5 then Step(p, None)
    else if MEASUREMENT_CODES[p] as int in features then Step(p, Some(p))
    else if p == 5 then Step(p, None)
    else Cascade(features, p + 1)
  }

  /** The writes of one getParameters call. */
  function CascadeWrites(features: map<int, Entry>, p: nat): seq<Sent>
  {
    var step := Cascade(features, p);
    if step.written.Some? && step.written.value < 6
    then [Sent(Lookup(CONTROL_POINT_REQUEST, GET_REQUEST_NAMES[step.written.value]), true)]
    else []
  }

  /** getParameters writes at most one request and never moves the counter
      back. The request is for the first present feature from the counter
      on, in the order ECG, PPG, ACC, PPI, GYRO, MAG; the counter stops on
      it. When none is present the counter stops at 5 (MAG) and nothing is
      written. */
  lemma {:induction false} CascadeWalksInOrder(features: map<int, Entry>, p: nat)
    ensures var step := Cascade(features, p);
      && step.counter >= p
      && (p <= 5 ==> step.counter <= 5)
      && (p > 5 ==> step == Step(p, None))
      && (step.written.Some? ==> step.written.value == step.counter && MEASUREMENT_CODES[step.counter] as int in features)
      && (forall q :: p <= q < step.counter && q < 6 ==> MEASUREMENT_CODES[q] as int !in features)
      && (p <= 5 && step.written.None? ==>
            step.counter == 5 && forall q :: p <= q < 6 ==> MEASUREMENT_CODES[q] as int !in features)
    decreases 6 - p
  {
    if p <= 5 && MEASUREMENT_CODES[p] as int !in features && p < 5 {
      CascadeWalksInOrder(features, p + 1);
    }
  }

  /** Where the blocks k..5 of getParameters take counter p: only a counter
      in k..5 enters the cascade; any other passes them untouched. */
  function StepFrom(features: map<int, Entry>, p: nat, k: nat): Step
  {
    if k <= p <= 5 then Cascade(features, p) else Step(p, None)
  }

  /** The writes of the blocks k..5 of getParameters from counter p. */
  function WritesFrom(features: map<int, Entry>, p: nat, k: nat): seq<Sent>
  {
    if k <= p <= 5 then CascadeWrites(features, p) else []
  }

  /** An absent feature before the magnetometer hands the cascade on to the next counter. */
  lemma CascadeSkip(features: map<int, Entry>, p: nat)
    requires p < 5 && MEASUREMENT_CODES[p] as int !in features
    ensures Cascade(features, p) == Cascade(features, p + 1)
    ensures CascadeWrites(features, p) == CascadeWrites(features, p + 1)
  {
  }

  /** A present feature stops the cascade and writes its GET request. */
  lemma CascadeHit(features: map<int, Entry>, p: nat)
    requires p <= 5 && MEASUREMENT_CODES[p] as int in features
    ensures Cascade(features, p) == Step(p, Some(p))
    ensures CascadeWrites(features, p) == [Sent(Lookup(CONTROL_POINT_REQUEST, GET_REQUEST_NAMES[p]), true)]
  {
  }

  /** Only the ECG and acceleration requests exist; the other four names
      are missing from CONTROL_POINT_REQUEST, so those writes carry `undefined`. */
  lemma CascadeRequests(features: map<int, Entry>, p: nat)
    ensures |CascadeWrites(features, p)| <= 1
    ensures var w := CascadeWrites(features, p); var step := Cascade(features, p);
      && (w != [] <==> step.written.Some?)
      && (w != [] ==> w[0].withResponse)
      && (w != [] && step.written.value in {0, 2} ==>
            w[0].request == Some([GET_MEASUREMENT_SETTINGS, MEASUREMENT_CODES[step.written.value]]))
      && (w != [] && step.written.value !in {0, 2} ==> w[0].request == None)
  {
    CascadeWalksInOrder(features, p);
    PrebuiltRequests();
  }

  /** What an acknowledgement makes of the state: the new feature map, the
      counter, whether getParameters runs (`refresh`), and whether the map is
      `stored` in `this.state.features` before that run. A map handed to
      `setState` is not: the walk still reads the earlier features. */
  datatype Update = Update(features: map<int, Entry>, parameterRequest: nat, refresh: bool, stored: bool)

  /** handleControlPointChanged on the state. Unknown response types reach
      `this.logger`, which the component never sets: TypeError. */
  function Acknowledge(features: map<int, Entry>, parameterRequest: nat, data: seq<byte>): (r: Result<Update>)
    ensures r.Ok? ==> |data| >= 1 && (data[0] == FEATURE_READ || data[0] == MEASUREMENT_CONTROL)
    ensures r.Ok? ==> features.Keys <= r.value.features.Keys
    ensures r.Ok? ==> parameterRequest <= r.value.parameterRequest <= parameterRequest + 1
    ensures r.Ok? && r.value.stored ==> r.value.refresh
  {
    if |data| < 1 then Err(RangeError)
    else if data[0] == FEATURE_READ then
      match ParseFeatureReadResponse(data)
      case Err(e) => Err(e)
      case Ok(flags) => Ok(Update(WithSupported(features, flags), parameterRequest, true, true))
    else if data[0] == MEASUREMENT_CONTROL then
      match ParsedControlPoint(data)
      case Err(e) => Err(e)
      case Ok(response) =>
        if !response.MeasurementControl? || response.operation.None? then Err(TypeError)
        else
          var op, code := response.operation.value, response.measurementCode as int;
          var entry := EntryOf(features, code);
          var refused := FeatureError(response.statusCode, response.statusMessage, op.name);
          if op.code == GET_MEASUREMENT_SETTINGS then
            Ok(Update(features[code := entry.(parameters := response.parameters)], parameterRequest + 1, true, false))
          else if op.code == START_MEASUREMENT then
            if !response.error then Ok(Update(features[code := entry.(status := Some("running"))], parameterRequest, false, false))
            else Ok(Update(features[code := entry.(error := Some(refused))], parameterRequest, false, false))
          else if op.code == STOP_MEASUREMENT then
            if !response.error then Ok(Update(features[code := entry.(status := Some("stopped"))], parameterRequest, false, false))
            else Ok(Update(features[code := entry.(error := Some(refused))], parameterRequest, false, false))
          else Ok(Update(features, parameterRequest, false, false))
    else Err(TypeError)
  }

  /** A feature read adds exactly the supported codes, resets each of them
      to `{supported: true}`, keeps every other entry and leaves the counter. */
  lemma FeatureReadAddsSupported(features: map<int, Entry>, parameterRequest: nat, data: seq<byte>)
    requires |data| >= 2 && data[0] == FEATURE_READ
    ensures var u := Acknowledge(features, parameterRequest, data); var flags := ParseFeatureReadResponse(data).value;
      && u.Ok? && u.value.refresh && u.value.stored && u.value.parameterRequest == parameterRequest
      && (forall code :: code in u.value.features <==> code in features || (code in flags && flags[code]))
      && (forall code :: code in flags && flags[code] ==> u.value.features[code] == SUPPORTED_ENTRY)
      && (forall code :: code in features && !(code in flags && flags[code]) ==> u.value.features[code] == features[code])
  {
  }

  /** A GET-settings acknowledgement moves the counter on by one and sets the
      `parameters` of that code only; the entry's other fields and every
      other entry stay. */
  lemma SettingsAckSetsParameters(features: map<int, Entry>, parameterRequest: nat, data: seq<byte>)
    requires |data| >= 5 && data[0] == MEASUREMENT_CONTROL && data[1] == GET_MEASUREMENT_SETTINGS
    requires GroupsAt(data, 5).Ok?
    ensures var u := Acknowledge(features, parameterRequest, data); var code := data[2] as int;
      && u.Ok? && u.value.refresh && !u.value.stored && u.value.parameterRequest == parameterRequest + 1
      && u.value.features.Keys == features.Keys + {code}
      && u.value.features[code] == EntryOf(features, code).(parameters := Some(GroupsAt(data, 5).value))
      && forall other :: other in features && other != code ==> u.value.features[other] == features[other]
  {
    var code := data[2] as int;
    SettingsAckUpdate(features, parameterRequest, data);
    UpdateOneEntry(features, code, EntryOf(features, code).(parameters := Some(GroupsAt(data, 5).value)));
  }

  /** Storing an entry under one code adds that code and keeps every other entry. */
  lemma UpdateOneEntry(features: map<int, Entry>, code: int, e: Entry)
    ensures features[code := e].Keys == features.Keys + {code}
    ensures features[code := e][code] == e
    ensures forall other :: other in features && other != code ==> features[code := e][other] == features[other]
  {
  }

  /** The update a GET-settings acknowledgement makes, in one piece. */
  lemma SettingsAckUpdate(features: map<int, Entry>, parameterRequest: nat, data: seq<byte>)
    requires |data| >= 5 && data[0] == MEASUREMENT_CONTROL && data[1] == GET_MEASUREMENT_SETTINGS
    requires GroupsAt(data, 5).Ok?
    ensures var code := data[2] as int;
      Acknowledge(features, parameterRequest, data) ==
        Ok(Update(features[code := EntryOf(features, code).(parameters := Some(GroupsAt(data, 5).value))], parameterRequest + 1, true, false))
  {
    ControlPointWithGroups(data, GroupsAt(data, 5).value);
  }

  /** A START acknowledgement marks the feature running on status 0; on any
      other status it records `{status, operation}` and leaves `status` as it was. */
  lemma StartAckUpdates(features: map<int, Entry>, parameterRequest: nat, data: seq<byte>)
    requires |data| >= 5 && data[0] == MEASUREMENT_CONTROL && data[1] == START_MEASUREMENT
    requires |data| > 6 ==> GroupsAt(data, 5).Ok?
    ensures var u := Acknowledge(features, parameterRequest, data); var code := data[2] as int;
      && u.Ok? && !u.value.refresh && u.value.parameterRequest == parameterRequest
      && (data[3] == 0 ==> u.value.features == features[code := EntryOf(features, code).(status := Some("running"))])
      && (data[3] != 0 ==>
            && u.value.features[code].status == EntryOf(features, code).status
            && u.value.features == features[code := EntryOf(features, code).(error := Some(
                 FeatureError(data[3], Lookup(POLAR_ERROR_CODES, data[3]), "startStream")))])
  {
    StartStopResponse(data);
  }

  /** A STOP acknowledgement marks the feature stopped on status 0 and
      otherwise records the error in the same way. */
  lemma StopAckUpdates(features: map<int, Entry>, parameterRequest: nat, data: seq<byte>)
    requires |data| >= 5 && data[0] == MEASUREMENT_CONTROL && data[1] == STOP_MEASUREMENT
    ensures var u := Acknowledge(features, parameterRequest, data); var code := data[2] as int;
      && u.Ok? && !u.value.refresh && u.value.parameterRequest == parameterRequest
      && (data[3] == 0 ==> u.value.features == features[code := EntryOf(features, code).(status := Some("stopped"))])
      && (data[3] != 0 ==>
            && u.value.features[code].status == EntryOf(features, code).status
            && u.value.features == features[code := EntryOf(features, code).(error := Some(
                 FeatureError(data[3], Lookup(POLAR_ERROR_CODES, data[3]), "stopStream")))])
  {
    StartStopResponse(data);
  }

  /** The GET walk reads the features from before the acknowledgement: with
      no features stored, a GET acknowledgement for PPG (code 1) at counter 0
      adds PPG to the map, yet the walk from counter 1 finds nothing, stops at
      5 and writes nothing, where the new map would have it request PPG. */
  lemma SettingsAckWalksEarlierFeatures()
    ensures var u := Acknowledge(map[], 0, [MEASUREMENT_CONTROL, GET_MEASUREMENT_SETTINGS, PPG, 0, 0]);
      && u.Ok? && u.value.refresh && !u.value.stored && PPG as int in u.value.features
      && Cascade(map[], u.value.parameterRequest) == Step(5, None)
      && CascadeWrites(map[], u.value.parameterRequest) == []
      && Cascade(u.value.features, u.value.parameterRequest) == Step(1, Some(1))
  {
    var data: seq<byte> := [MEASUREMENT_CONTROL, GET_MEASUREMENT_SETTINGS, PPG, 0, 0];
    assert GroupsAt(data, 5) == Ok([]);
    SettingsAckSetsParameters(map[], 0, data);
    CascadeWalksInOrder(map[], 1);
  }

  /** Any other response type throws at `this.logger`. */
  lemma UnknownResponseThrows(features: map<int, Entry>, parameterRequest: nat, data: seq<byte>)
    requires |data| >= 1 && data[0] != FEATURE_READ && data[0] != MEASUREMENT_CONTROL
    ensures Acknowledge(features, parameterRequest, data) == Err(TypeError)
  {
  }

  class PolarService {
    var features: map<int, Entry>
    var parameterRequest: nat
    /** Every request handed to the control point, in order. */
    var writes: seq<Sent>

    constructor ()
      ensures features == map[] && parameterRequest == 0 && writes == []
    {
      features := map[];
      parameterRequest := 0;
      writes := [];
    }

    /** Request the settings of the next present feature. */
    method GetParameters()
      modifies this
      ensures features == old(features)
      ensures parameterRequest == Cascade(old(features), old(parameterRequest)).counter
      ensures writes == old(writes) + CascadeWrites(old(features), old(parameterRequest))
    {
      RequestIfAt(0);
      RequestIfAt(1);
      RequestIfAt(2);
      RequestIfAt(3);
      RequestIfAt(4);
      RequestIfAt(5);
    }

    /** One `parameterRequest === k` block of getParameters: a present
        feature k is requested, an absent one moves the counter to k + 1,
        except the last block (k = 5), which has no else branch. */
    method RequestIfAt(k: nat)
      requires k <= 5
      modifies this
      ensures features == old(features)
      ensures StepFrom(features, parameterRequest, k + 1).counter == StepFrom(old(features), old(parameterRequest), k).counter
      ensures writes + WritesFrom(features, parameterRequest, k + 1) ==
        old(writes) + WritesFrom(old(features), old(parameterRequest), k)
    {
      if parameterRequest == k {
        if MEASUREMENT_CODES[k] as int in features {
          CascadeHit(features, k);
          writes := writes + [Sent(Lookup(CONTROL_POINT_REQUEST, GET_REQUEST_NAMES[k]), true)];
        } else if k < 5 {
          CascadeSkip(features, k);
          parameterRequest := parameterRequest + 1;
        }
      }
    }

    /** handleControlPointChanged: apply the acknowledgement and, after a
        feature read or a GET-settings acknowledgement, ask for the next
        settings. The feature read assigns the new map before the walk; the
        GET acknowledgement hands it to `setState`, so the walk reads the
        earlier features and the new map is in place when the handler ends.
        An exception leaves the state as it was. */
    method HandleControlPointChanged(data: seq<byte>) returns (failure: Option<Failure>)
      modifies this
      ensures var u := Acknowledge(old(features), old(parameterRequest), data);
        && (u.Err? ==>
              && failure == Some(u.failure)
              && features == old(features) && parameterRequest == old(parameterRequest) && writes == old(writes))
        && (u.Ok? ==> failure == None && features == u.value.features)
        && (u.Ok? && !u.value.refresh ==>
              parameterRequest == u.value.parameterRequest && writes == old(writes))
        && (u.Ok? && u.value.refresh ==>
              var seen := if u.value.stored then u.value.features else old(features);
              && parameterRequest == Cascade(seen, u.value.parameterRequest).counter
              && writes == old(writes) + CascadeWrites(seen, u.value.parameterRequest))
    {
      var u := Acknowledge(features, parameterRequest, data);
      if u.Err? {
        return Some(u.failure);
      }
      parameterRequest := u.value.parameterRequest;
      if u.value.stored {
        features := u.value.features;
      }
      if u.value.refresh {
        GetParameters();
      }
      features := u.value.features;
      return None;
    }

    /** featureCommandHandler: START and STOP requests go out without
        response; any other op code throws at `this.logger` before the write. */
    method FeatureCommand(featureId: int, operationCode: int, settings: seq<ServicePolar.Setting>) returns (failure: Option<Failure>)
      modifies this
      ensures features == old(features) && parameterRequest == old(parameterRequest)
      ensures operationCode == START_MEASUREMENT as int ==>
        failure == None && writes == old(writes) + [Sent(Some(ServicePolar.StartRequest(featureId, settings)), false)]
      ensures operationCode == STOP_MEASUREMENT as int ==>
        failure == None && writes == old(writes) + [Sent(Some([STOP_MEASUREMENT, featureId % 256]), false)]
      ensures operationCode != START_MEASUREMENT as int && operationCode != STOP_MEASUREMENT as int ==>
        failure == Some(TypeError) && writes == old(writes)
    {
      var request: seq<byte>;
      if operationCode == START_MEASUREMENT as int {
        request := ServicePolar.EncodeStartRequest(featureId, settings);
      } else if operationCode == STOP_MEASUREMENT as int {
        request := [operationCode % 256, featureId % 256];
      } else {
        return Some(TypeError);
      }
      writes := writes + [Sent(Some(request), false)];
      return None;
    }
  }
}
