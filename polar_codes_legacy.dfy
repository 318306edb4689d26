/** The older copy of two PMD tables, kept beside the current registry. */
module PolarCodesLegacy {
  import PolarCodes

  /** POLAR_ERROR_CODES of the older table file. */
  const POLAR_ERROR_CODES: map<int, string> := map[
    0 := "SUCCESS",
    1 := "ERROR INVALID OP CODE",
    2 := "ERROR INVALID MEASUREMENT TYPE",
    3 := "ERROR NOT SUPPORTED",
    4 := "ERROR INVALID LENGTH",
    5 := "ERROR INVALID PARAMETER",
    6 := "ERROR ALREADY IN STATE",
    7 := "ERROR INVALID RESOLUTION",
    8 := "ERROR INVALID SAMPLE RATE",
    9 := "ERROR INVALID RANGE",
    10 := "ERROR INVALID MTU",
    11 := "ERROR INVALID NUMBER OF CHANNELS",
    12 := "ERROR INVALID STATE",
    13 := "ERROR DEVICE IN CHARGER"
  ]

  /** MEASUREMENT_TYPE of the older table file. */
  const MEASUREMENT_TYPE: map<string, int> := map[
    "ECG" := 0x00,
    "PPG" := 0x01,
    "ACCELERATION" := 0x02,
    "PP_INTERVAL" := 0x03,
    "GYROSCOPE" := 0x05,
    "MAGNETOMETER" := 0x06
  ]

  /** The status table covers exactly 0..13, 0 is success, and no code of
      14 or above has an entry. */
  lemma ErrorTableDomain()
    ensures forall c :: c in POLAR_ERROR_CODES <==> 0 <= c <= 13
    ensures POLAR_ERROR_CODES[0] == "SUCCESS"
    ensures forall c :: c >= 14 ==> c !in POLAR_ERROR_CODES
  {
  }

  /** The measurement codes are 0, 1, 2, 3, 5 and 6, pairwise distinct; 4 is unused. */
  lemma MeasurementCodesDistinct()
    ensures MEASUREMENT_TYPE.Values == {0, 1, 2, 3, 5, 6}
    ensures forall a, b :: a in MEASUREMENT_TYPE && b in MEASUREMENT_TYPE && a != b ==>
      MEASUREMENT_TYPE[a] != MEASUREMENT_TYPE[b]
  {
    assert MEASUREMENT_TYPE.Keys == {"ECG", "PPG", "ACCELERATION", "PP_INTERVAL", "GYROSCOPE", "MAGNETOMETER"};
  }

  /** Both tables agree entry for entry with the current registry. */
  lemma AgreesWithRegistry()
    ensures POLAR_ERROR_CODES == PolarCodes.POLAR_ERROR_CODES
    ensures MEASUREMENT_TYPE.Keys == PolarCodes.MEASUREMENT_TYPE.Keys
    ensures forall name :: name in MEASUREMENT_TYPE ==>
      MEASUREMENT_TYPE[name] == PolarCodes.MEASUREMENT_TYPE[name] as int
  {
  }
}
