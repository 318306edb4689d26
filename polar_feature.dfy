/** One PMD feature's panel: the settings it asks to start with, the
    properties those settings name, and how its samples are decoded and
    scaled for display. */
module PolarFeatureComponent {
  import opened Bytes
  import opened PolarCodes
  import opened PolarFrames
  import ServicePolar

  /** The properties object parameterList2Properties builds: keyed by the
      setting's name (`"undefined"` when SETTING_TYPE_NAME has none), holding
      its labelled value (`None`, `undefined`, when the value table has no
      such code). */
  type Properties = map<string, Option<int>>

  /** The computed key `[SETTING_TYPE_NAME[code]]`. */
  function PropertyKey(code: int): string
  {
    if code in SETTING_TYPE_NAME then SETTING_TYPE_NAME[code] else "undefined"
  }

  /** parameterList2Properties: a left fold over the pairs; a setting code
      with no SETTING_VALUES table throws TypeError. */
  function ParameterList2Properties(parameterList: seq<ServicePolar.Setting>): (r: Result<Properties>)
    ensures r.Ok? <==> forall j :: 0 <= j < |parameterList| ==> parameterList[j].parameter in SETTING_VALUES
  {
    if parameterList == [] then Ok(map[])
    else
      var last := parameterList[|parameterList| - 1];
      match ParameterList2Properties(parameterList[..|parameterList| - 1])
      case Err(e) => Err(e)
      case Ok(acc) =>
        if last.parameter !in SETTING_VALUES then Err(TypeError)
        else Ok(acc[PropertyKey(last.parameter) := Lookup(SETTING_VALUES[last.parameter], last.value)])
  }

  /** No later pair names the same property as pair j. */
  predicate LastForItsKey(parameterList: seq<ServicePolar.Setting>, j: nat)
    requires j < |parameterList|
  {
    forall later :: j < later < |parameterList| ==>
      PropertyKey(parameterList[later].parameter) != PropertyKey(parameterList[j].parameter)
  }

  /** A key is present exactly when some pair names it; the empty list gives `{}`. */
  lemma {:induction false} PropertyKeys(parameterList: seq<ServicePolar.Setting>)
    requires ParameterList2Properties(parameterList).Ok?
    ensures var props := ParameterList2Properties(parameterList).value;
      && (parameterList == [] ==> props == map[])
      && forall key :: key in props <==>
           exists j :: 0 <= j < |parameterList| && PropertyKey(parameterList[j].parameter) == key
  {
    if parameterList != [] {
      var n := |parameterList| - 1;
      var init, last := parameterList[..n], parameterList[n];
      assert init + [last] == parameterList;
      assert ParameterList2Properties(init).Ok? && last.parameter in SETTING_VALUES;
      PropertyKeys(init);
      LaterPairOverrides(init, last);
      KeysAfterAppend(init, last, ParameterList2Properties(init).value,
        Lookup(SETTING_VALUES[last.parameter], last.value));
    }
  }

  /** Appending a pair adds its key to the keys the earlier pairs name. */
  lemma KeysAfterAppend(init: seq<ServicePolar.Setting>, last: ServicePolar.Setting, acc: Properties, v: Option<int>)
    requires forall key :: key in acc <==> exists j :: 0 <= j < |init| && PropertyKey(init[j].parameter) == key
    ensures var all, props := init + [last], acc[PropertyKey(last.parameter) := v];
      forall key :: key in props <==> exists j :: 0 <= j < |all| && PropertyKey(all[j].parameter) == key
  {
    var all, props := init + [last], acc[PropertyKey(last.parameter) := v];
    forall key
      ensures key in props <==> exists j :: 0 <= j < |all| && PropertyKey(all[j].parameter) == key
    {
      if key in props && key != PropertyKey(last.parameter) {
        var j :| 0 <= j < |init| && PropertyKey(init[j].parameter) == key;
        assert all[j] == init[j];
      }
      if key == PropertyKey(last.parameter) {
        assert all[|init|] == last;
      }
      if j :| 0 <= j < |all| && PropertyKey(all[j].parameter) == key {
        if j < |init| {
          assert init[j] == all[j];
        }
      }
    }
  }

  /** Each key holds the value of the last pair that names it. */
  lemma {:induction false} LastPairWins(parameterList: seq<ServicePolar.Setting>, j: nat)
    requires ParameterList2Properties(parameterList).Ok?
    requires j < |parameterList| && LastForItsKey(parameterList, j)
    ensures parameterList[j].parameter in SETTING_VALUES
    ensures PropertyKey(parameterList[j].parameter) in ParameterList2Properties(parameterList).value
    ensures ParameterList2Properties(parameterList).value[PropertyKey(parameterList[j].parameter)] ==
      Lookup(SETTING_VALUES[parameterList[j].parameter], parameterList[j].value)
  {
    var n := |parameterList| - 1;
    var init := parameterList[..n];
    if j < n {
      assert init[j] == parameterList[j];
      assert LastForItsKey(init, j) by {
        forall later | j < later < |init|
          ensures PropertyKey(init[later].parameter) != PropertyKey(init[j].parameter)
        {
          assert init[later] == parameterList[later];
        }
      }
      LastPairWins(init, j);
    }
  }

  /** A later pair for the same setting overrides an earlier one. */
  lemma LaterPairOverrides(parameterList: seq<ServicePolar.Setting>, s: ServicePolar.Setting)
    requires ParameterList2Properties(parameterList).Ok? && s.parameter in SETTING_VALUES
    ensures ParameterList2Properties(parameterList + [s]) ==
      Ok(ParameterList2Properties(parameterList).value[PropertyKey(s.parameter) := Lookup(SETTING_VALUES[s.parameter], s.value)])
  {
    assert (parameterList + [s])[..|parameterList|] == parameterList;
  }

  /** The channels setting (code 4) has a value table but no name, so its
      value lands under the key `"undefined"`; code 3, which has the name
      "channels", has no value table and throws. */
  lemma ChannelsPropertyMisnamed(value: int)
    ensures ParameterList2Properties([ServicePolar.Setting(CHANNELS_SETTING as int, value)]) ==
      Ok(map["undefined" := Lookup(CHANNELS, value)])
    ensures ParameterList2Properties([ServicePolar.Setting(3, value)]) == Err(TypeError)
  {
    assert [ServicePolar.Setting(CHANNELS_SETTING as int, value)][..0] == [];
    assert [ServicePolar.Setting(3, value)][..0] == [];
  }

  /** The decoder settings a properties object carries: `channels` and
      `resolution`, each `undefined` when missing. */
  function SettingsOf(props: Properties): (s: Settings)
    ensures props == map[] ==> s == NO_SETTINGS
  {
    Settings(if "channels" in props then props["channels"] else None,
             if "resolution" in props then props["resolution"] else None)
  }

  /** The `data` of what parseMeasurementData returns: ECG and accelerometer
      rows, or the PPG bytes. */
  datatype Samples = Rows(rows: seq<seq<real>>) | Raw(bytes: seq<byte>)

  /** `parsedDataResponse.data`; an `undefined` response throws TypeError. */
  function DataOf(m: Option<Measurement>): Result<Samples>
  {
    match m
    case None => Err(TypeError)
    case Some(Measurement(_, _, _, EcgBody(frame))) => Ok(Rows(frame.data))
    case Some(Measurement(_, _, _, PpgBody(raw, _))) => Ok(Raw(raw))
    case Some(Measurement(_, _, _, AccBody(frame))) => Ok(Rows(frame.data))
  }

  /** One call of `commandFn`. */
  datatype Command = Command(featureId: int, operation: int, parameters: seq<ServicePolar.Setting>)

  class PolarFeature {
    const featureCode: int
    var requestedStreamProperties: seq<ServicePolar.Setting>
    var activeStreamProperties: seq<ServicePolar.Setting>
    var normalizeFactor: real
    /** Every command the panel has issued, in order. */
    var commands: seq<Command>

    /** Nothing in the panel assigns `activeStreamProperties` or the
        `normalizeFactor` field after construction (the normalize button
        sets a state entry of the same name instead). */
    predicate Valid()
      reads this
    {
      activeStreamProperties == [] && normalizeFactor == 1.0
    }

    constructor (featureCode: int)
      ensures this.featureCode == featureCode && Valid()
      ensures requestedStreamProperties == [] && commands == []
    {
      this.featureCode := featureCode;
      requestedStreamProperties := [];
      activeStreamProperties := [];
      normalizeFactor := 1.0;
      commands := [];
    }

    /** submitHandler: the command always goes out; only a START replaces the
        requested settings with the submitted list. */
    method SubmitHandler(operation: int, parameters: seq<ServicePolar.Setting>)
      modifies this
      requires Valid()
      ensures Valid()
      ensures commands == old(commands) + [Command(featureCode, operation, parameters)]
      ensures requestedStreamProperties ==
        if operation == START_MEASUREMENT as int then parameters else old(requestedStreamProperties)
    {
      commands := commands + [Command(featureCode, operation, parameters)];
      if operation == START_MEASUREMENT as int {
        requestedStreamProperties := parameters;
      }
    }

    /** normalize: the scaled sample clamped to [-1, 1]. */
    function Normalize(value: real): (r: real)
      reads this
      ensures -1.0 <= r <= 1.0
      ensures -1.0 <= value * normalizeFactor <= 1.0 ==> r == value * normalizeFactor
      ensures value * normalizeFactor > 1.0 ==> r == 1.0
      ensures value * normalizeFactor < -1.0 ==> r == -1.0
    {
      var scaled := value * normalizeFactor;
      var floored := if scaled > -1.0 then scaled else -1.0;
      if floored < 1.0 then floored else 1.0
    }

    /** parseData: decode with the properties of the active settings. */
    function ParseData(data: seq<byte>): (r: Result<Samples>)
      reads this
      ensures r.Ok? ==> |data| >= 9 && data[0] in {ECG, PPG, ACCELERATION}
      ensures r.Ok? && data[0] == PPG ==> r.value == Raw(data[9..])
      ensures r.Ok? && data[0] != PPG ==> r.value.Rows?
    {
      match ParameterList2Properties(activeStreamProperties)
      case Err(e) => Err(e)
      case Ok(props) =>
        match ParseMeasurementData(data, Some(SettingsOf(props)))
        case Err(e) => Err(e)
        case Ok(m) => DataOf(m)
    }
  }

  /** Since the active settings stay empty, every notification is decoded
      with `{}`, that is with the decoders' defaults. */
  lemma ParseDataUsesDefaults(feature: PolarFeature, data: seq<byte>)
    requires feature.Valid()
    ensures feature.ParseData(data) ==
      match ParseMeasurementData(data, Some(NO_SETTINGS))
      case Err(e) => Err(e)
      case Ok(m) => DataOf(m)
  {
  }

  /** With the factor the panel keeps, normalize is the plain clamp: it
      keeps a sample inside [-1, 1] and cuts everything else to the bound. */
  lemma NormalizeIsClamp(feature: PolarFeature, value: real)
    requires feature.Valid()
    ensures -1.0 <= value <= 1.0 ==> feature.Normalize(value) == value
    ensures value > 1.0 ==> feature.Normalize(value) == 1.0
    ensures value < -1.0 ==> feature.Normalize(value) == -1.0
  {
  }
}
