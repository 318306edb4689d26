/** The static tables of the Polar Measurement Data (PMD) protocol: op codes,
    response discriminators, measurement and setting codes, the value tables
    with the byte pairs that encode them, the feature flags, the device's
    status table and the pre-built control-point requests. */
module PolarCodes {
  import opened Bytes

  /** POLAR_ERROR_CODES: the status byte of a control-point response.
      Codes 14..255 are reserved and have no entry. */
  const POLAR_ERROR_CODES: map<int, string> := map[
    0 := "SUCCESS",
    1 := "ERROR INVALID OP CODE",
    2 := "ERROR INVALID MEASUREMENT TYPE",
    3 := "ERROR NOT SUPPORTED",
    4 := "ERROR INVALID LENGTH",
    5 := "ERROR INVALID PARAMETER",
    6 := "ERROR ALREADY IN STATE",
    7 := "ERROR INVALID RESOLUTION",
    8 := "ERROR INVALID SAMPLE RATE",
    9 := "ERROR INVALID RANGE",
    10 := "ERROR INVALID MTU",
    11 := "ERROR INVALID NUMBER OF CHANNELS",
    12 := "ERROR INVALID STATE",
    13 := "ERROR DEVICE IN CHARGER"
  ]

  // OP_CODE
  const GET_MEASUREMENT_SETTINGS: byte := 0x01
  const START_MEASUREMENT: byte := 0x02
  const STOP_MEASUREMENT: byte := 0x03

  // CONTROL_POINT_RESPONSE_TYPE
  const FEATURE_READ: byte := 0x0F
  const MEASUREMENT_CONTROL: byte := 0xF0

  // MEASUREMENT_TYPE (4 and 7..255 are reserved)
  const ECG: byte := 0x00
  const PPG: byte := 0x01
  const ACCELERATION: byte := 0x02
  const PP_INTERVAL: byte := 0x03
  const GYROSCOPE: byte := 0x05
  const MAGNETOMETER: byte := 0x06

  const MEASUREMENT_TYPE: map<string, byte> := map[
    "ECG" := ECG,
    "PPG" := PPG,
    "ACCELERATION" := ACCELERATION,
    "PP_INTERVAL" := PP_INTERVAL,
    "GYROSCOPE" := GYROSCOPE,
    "MAGNETOMETER" := MAGNETOMETER
  ]

  /** MEASUREMENT_NAME, as written: it is not the inverse of MEASUREMENT_TYPE. */
  const MEASUREMENT_NAME: map<int, string> := map[
    0x00 := "ecg",
    0x01 := "ppg",
    0x02 := "acceleration",
    0x03 := "ppInterval",
    0x04 := "gyroscope",
    0x05 := "magnetometer"
  ]

  // ACC_FRAMETYPE and ECG_FRAMETYPE
  const ACC_RES8: byte := 0x00
  const ACC_RES16: byte := 0x01
  const ACC_RES24: byte := 0x02
  const ACC_DELTA: byte := 0x80
  const ECG_RES14: byte := 0x00

  // The value tables, keyed by the big-endian reading of their code pairs,
  // and the code pairs themselves (the *_CODE tables).

  const RESOLUTION: map<int, int> := map[0x0E00 := 14, 0x1000 := 16, 0x1600 := 22]
  const RESOLUTION_CODE: map<int, seq<byte>> := map[14 := [0x0E, 0x00], 16 := [0x10, 0x00], 22 := [0x16, 0x00]]

  const SAMPLE_RATE: map<int, int> := map[
    0x1900 := 25, 0x3200 := 50, 0x3400 := 52, 0x6400 := 100, 0x8200 := 130, 0xC800 := 200
  ]
  const SAMPLE_RATE_CODE: map<int, seq<byte>> := map[
    25 := [0x19, 0x00], 50 := [0x32, 0x00], 52 := [0x34, 0x00],
    100 := [0x64, 0x00], 130 := [0x82, 0x00], 200 := [0xC8, 0x00]
  ]

  const RANGE: map<int, int> := map[0x0200 := 2, 0x0400 := 4, 0x0800 := 8]
  const RANGE_CODE: map<int, seq<byte>> := map[2 := [0x02, 0x00], 4 := [0x04, 0x00], 8 := [0x08, 0x00]]

  const CHANNELS: map<int, int> := map[0x03 := 3]

  // SETTING_TYPE
  const SAMPLE_RATE_SETTING: byte := 0x00
  const RESOLUTION_SETTING: byte := 0x01
  const RANGE_SETTING: byte := 0x02
  const CHANNELS_SETTING: byte := 0x04

  const SETTING_VALUES: map<int, map<int, int>> := map[
    SAMPLE_RATE_SETTING := SAMPLE_RATE,
    RESOLUTION_SETTING := RESOLUTION,
    RANGE_SETTING := RANGE,
    CHANNELS_SETTING := CHANNELS
  ]

  /** SETTING_TYPE_NAME, as written: it names 0x03, where CHANNELS is 0x04. */
  const SETTING_TYPE_NAME: map<int, string> := map[
    0x00 := "samplerate",
    0x01 := "resolution",
    0x02 := "range",
    0x03 := "channels"
  ]

  /** SETTING_LENGTH: the count byte written for every setting of a START request. */
  const SETTING_LENGTH: byte := 0x01

  // PMD_FLAG: the feature-read bitmap
  const ECG_SUPPORTED: int := 0x1
  const PPG_SUPPORTED: int := 0x2
  const ACC_SUPPORTED: int := 0x4
  const PPI_SUPPORTED: int := 0x8
  const GYRO_SUPPORTED: int := 0x10
  const MAG_SUPPORTED: int := 0x20

  const PMD_FLAGS: seq<int> :=
    [ECG_SUPPORTED, PPG_SUPPORTED, ACC_SUPPORTED, PPI_SUPPORTED, GYRO_SUPPORTED, MAG_SUPPORTED]

  /** The property names the components read from CONTROL_POINT_REQUEST:
      the six it defines and the four GET names it lacks. */
  datatype RequestName =
    | GET_ACC_STREAM_SETTINGS | GET_ECG_STREAM_SETTINGS | ECG_START | ECG_STOP | ACC_START | ACC_STOP
    | GET_PPG_STREAM_SETTINGS | GET_PPI_STREAM_SETTINGS | GET_GYRO_STREAM_SETTINGS | GET_MAG_STREAM_SETTINGS

  /** CONTROL_POINT_REQUEST: the pre-built requests, assembled from the
      constants the way the source's `Uint8Array.of` calls assemble them.
      Only these six names exist. */
  const CONTROL_POINT_REQUEST: map<RequestName, seq<byte>> := map[
    GET_ACC_STREAM_SETTINGS := [GET_MEASUREMENT_SETTINGS, ACCELERATION],
    GET_ECG_STREAM_SETTINGS := [GET_MEASUREMENT_SETTINGS, ECG],
    ECG_START := [START_MEASUREMENT, ECG,
                  SAMPLE_RATE_SETTING, SETTING_LENGTH] + SAMPLE_RATE_CODE[130] +
                 [RESOLUTION_SETTING, SETTING_LENGTH] + RESOLUTION_CODE[14],
    ECG_STOP := [STOP_MEASUREMENT, ECG],
    ACC_START := [START_MEASUREMENT, ACCELERATION,
                  RANGE_SETTING, SETTING_LENGTH] + RANGE_CODE[8] +
                 [SAMPLE_RATE_SETTING, SETTING_LENGTH] + SAMPLE_RATE_CODE[200] +
                 [RESOLUTION_SETTING, SETTING_LENGTH] + RESOLUTION_CODE[16],
    ACC_STOP := [STOP_MEASUREMENT, ACCELERATION]
  ]

  /** A property lookup on a JavaScript object: `None` stands for `undefined`. */
  function Lookup<K, V>(m: map<K, V>, k: K): (r: Option<V>)
    ensures r.Some? <==> k in m
    ensures r.Some? ==> r.value == m[k]
  {
    if k in m then Some(m[k]) else None
  }

  /** The big-endian reading of a code pair, the key the value tables use. */
  function BigEndian(pair: seq<byte>): (r: int)
    requires |pair| == 2
    ensures 0 <= r < 0x1_0000 && r / 256 == pair[0] && r % 256 == pair[1]
  {
    pair[0] as int * 256 + pair[1] as int
  }

  // ---------------------------------------------------------------------------
  // Properties of the tables

  /** The status table covers exactly 0..13 and only 0 means success. */
  lemma ErrorTableDomain()
    ensures forall c :: c in POLAR_ERROR_CODES <==> 0 <= c < 14
    ensures POLAR_ERROR_CODES[0] == "SUCCESS"
    ensures forall c :: c in POLAR_ERROR_CODES && POLAR_ERROR_CODES[c] == "SUCCESS" ==> c == 0
  {
  }

  /** Every value v of a code table is what the value table holds under the
      big-endian reading of v's code pair, and every key of the value table
      comes from such a pair. */
  ghost predicate KeyedBigEndian(table: map<int, int>, codes: map<int, seq<byte>>)
  {
    && (forall v :: v in codes ==>
          |codes[v]| == 2 && BigEndian(codes[v]) in table && table[BigEndian(codes[v])] == v)
    && (forall k :: k in table ==> exists v :: v in codes && |codes[v]| == 2 && BigEndian(codes[v]) == k)
  }

  /** Read little-endian, as the control-point parser reads values, a code
      pair gives back its own value, and that value is no key of the table. */
  ghost predicate WireValueUnlabelled(table: map<int, int>, codes: map<int, seq<byte>>)
  {
    forall v :: v in codes ==> |codes[v]| == 2 && Uint16(codes[v], 0) == v && v !in table
  }

  /** A table keyed by 256 * v for each value v whose code pair is [v, 0]
      is keyed by the big-endian reading of the pairs. */
  lemma KeyedOfLowPairs(table: map<int, int>, codes: map<int, seq<byte>>)
    requires forall v :: v in codes ==> 0 <= v < 256 && codes[v] == [v as byte, 0]
    requires forall v :: v in codes ==> 256 * v in table && table[256 * v] == v
    requires forall k :: k in table ==> k == 256 * (k / 256) && k / 256 in codes
    ensures KeyedBigEndian(table, codes)
  {
    forall v | v in codes
      ensures |codes[v]| == 2 && BigEndian(codes[v]) in table && table[BigEndian(codes[v])] == v
    {
      assert codes[v][0] as int == v && codes[v][1] == 0;
    }
    forall k | k in table
      ensures exists v :: v in codes && |codes[v]| == 2 && BigEndian(codes[v]) == k
    {
      var v := k / 256;
      assert codes[v][0] as int == v && codes[v][1] == 0;
      assert v in codes && |codes[v]| == 2 && BigEndian(codes[v]) == k;
    }
  }

  /** A table whose code pairs are all [v, 0] with v below 256, and whose
      keys are all at least 256, holds no wire value as a key. */
  lemma WireValuesOfLowPairs(table: map<int, int>, codes: map<int, seq<byte>>)
    requires forall v :: v in codes ==> 0 <= v < 256 && codes[v] == [v as byte, 0]
    requires forall k :: k in table ==> k >= 256
    ensures WireValueUnlabelled(table, codes)
  {
    forall v | v in codes
      ensures |codes[v]| == 2 && Uint16(codes[v], 0) == v && v !in table
    {
      assert codes[v][0] == v as byte && codes[v][1] == 0;
    }
  }

  lemma ResolutionKeyedBigEndian()
    ensures KeyedBigEndian(RESOLUTION, RESOLUTION_CODE)
    ensures WireValueUnlabelled(RESOLUTION, RESOLUTION_CODE)
  {
    assert RESOLUTION_CODE.Keys == {14, 16, 22};
    KeyedOfLowPairs(RESOLUTION, RESOLUTION_CODE);
    WireValuesOfLowPairs(RESOLUTION, RESOLUTION_CODE);
  }

  lemma SampleRateKeyedBigEndian()
    ensures KeyedBigEndian(SAMPLE_RATE, SAMPLE_RATE_CODE)
    ensures WireValueUnlabelled(SAMPLE_RATE, SAMPLE_RATE_CODE)
  {
    assert SAMPLE_RATE_CODE.Keys == {25, 50, 52, 100, 130, 200};
    KeyedOfLowPairs(SAMPLE_RATE, SAMPLE_RATE_CODE);
    WireValuesOfLowPairs(SAMPLE_RATE, SAMPLE_RATE_CODE);
  }

  lemma RangeKeyedBigEndian()
    ensures KeyedBigEndian(RANGE, RANGE_CODE)
    ensures WireValueUnlabelled(RANGE, RANGE_CODE)
  {
    assert RANGE_CODE.Keys == {2, 4, 8};
    KeyedOfLowPairs(RANGE, RANGE_CODE);
    WireValuesOfLowPairs(RANGE, RANGE_CODE);
  }

  /** The one table without code pairs, CHANNELS, is keyed by the plain value:
      its only entry is hit by the little-endian reading of [0x03, 0x00]. */
  lemma ChannelsKeyedByValue()
    ensures CHANNELS.Keys == {3} && Uint16([0x03, 0x00], 0) in CHANNELS
  {
  }

  /** The setting-type codes are 0, 1, 2 and 4, and SETTING_VALUES gives each
      exactly its own table. */
  lemma SettingValuesPerType()
    ensures SETTING_VALUES.Keys == {0, 1, 2, 4}
    ensures SETTING_VALUES[SAMPLE_RATE_SETTING] == SAMPLE_RATE
    ensures SETTING_VALUES[RESOLUTION_SETTING] == RESOLUTION
    ensures SETTING_VALUES[RANGE_SETTING] == RANGE
    ensures SETTING_VALUES[CHANNELS_SETTING] == CHANNELS
  {
  }

  /** The name tables are not inverses of the code tables. MEASUREMENT_NAME puts
      "gyroscope" and "magnetometer" at 0x04 and 0x05, where MEASUREMENT_TYPE
      has 0x05 and 0x06; SETTING_TYPE_NAME names 0x03 "channels", where the
      channels setting is 0x04, so one code has a name and no table and the
      other a table and no name. */
  lemma NameTablesDisagree()
    ensures MEASUREMENT_NAME[0x04] == "gyroscope" && MEASUREMENT_TYPE["GYROSCOPE"] == 0x05
    ensures MEASUREMENT_NAME[0x05] == "magnetometer" && MEASUREMENT_TYPE["MAGNETOMETER"] == 0x06
    ensures MEASUREMENT_TYPE["MAGNETOMETER"] !in MEASUREMENT_NAME
    ensures forall name :: name in MEASUREMENT_TYPE ==> MEASUREMENT_TYPE[name] != 0x04
    ensures 0x03 in SETTING_TYPE_NAME && 0x03 !in SETTING_VALUES
    ensures CHANNELS_SETTING in SETTING_VALUES && CHANNELS_SETTING !in SETTING_TYPE_NAME
  {
  }

  /** The measurement codes are pairwise distinct and 4 is unused. */
  lemma MeasurementCodesDistinct()
    ensures forall a, b :: a in MEASUREMENT_TYPE && b in MEASUREMENT_TYPE && a != b ==>
      MEASUREMENT_TYPE[a] != MEASUREMENT_TYPE[b]
    ensures MEASUREMENT_TYPE.Values == {0, 1, 2, 3, 5, 6}
  {
    assert MEASUREMENT_TYPE.Keys == {"ECG", "PPG", "ACCELERATION", "PP_INTERVAL", "GYROSCOPE", "MAGNETOMETER"};
  }

  /** The six feature flags are the distinct single bits 2^0 .. 2^5. */
  lemma FlagsAreDistinctBits()
    ensures |PMD_FLAGS| == 6
    ensures forall k :: 0 <= k < 6 ==> PMD_FLAGS[k] == Pow2(k)
    ensures forall j, k :: 0 <= j < k < 6 ==> PMD_FLAGS[j] != PMD_FLAGS[k]
  {
    assert Pow2(5) == 0x20;
  }

  /** The pre-built requests, byte for byte: GET requests are [0x01, code],
      STOP requests are [0x03, code], and the two START requests carry one
      [setting, 1, lo, hi] group per setting. */
  lemma PrebuiltRequests()
    ensures CONTROL_POINT_REQUEST.Keys ==
      {GET_ACC_STREAM_SETTINGS, GET_ECG_STREAM_SETTINGS, ECG_START, ECG_STOP, ACC_START, ACC_STOP}
    ensures CONTROL_POINT_REQUEST[GET_ACC_STREAM_SETTINGS] == [0x01, 0x02]
    ensures CONTROL_POINT_REQUEST[GET_ECG_STREAM_SETTINGS] == [0x01, 0x00]
    ensures CONTROL_POINT_REQUEST[ECG_STOP] == [0x03, 0x00]
    ensures CONTROL_POINT_REQUEST[ACC_STOP] == [0x03, 0x02]
    ensures CONTROL_POINT_REQUEST[ECG_START] == [0x02, 0x00, 0x00, 0x01, 0x82, 0x00, 0x01, 0x01, 0x0E, 0x00]
    ensures CONTROL_POINT_REQUEST[ACC_START] ==
      [0x02, 0x02, 0x02, 0x01, 0x08, 0x00, 0x00, 0x01, 0xC8, 0x00, 0x01, 0x01, 0x10, 0x00]
  {
  }
}
