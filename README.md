# hardbeet PMD core in Dafny

This project models the protocol core of hardbeet, a browser front end for
Polar heart-rate sensors. The core has four parts:

- **The Polar Measurement Data (PMD) protocol.** This covers the code
  registry, the control-point codec, the data-frame decoders, the two
  service components that negotiate settings with a sensor, and the
  per-feature panel.
- **The Heart Rate Measurement parser** of the Bluetooth SIG Heart Rate
  Service (section 3.1 of its specification), with the component's
  change detection.
- **The MIDI bridge.** It turns normalized samples into MIDI 1.0 Pitch Bend
  Change messages.
- **The JavaScript semantics these rely on.** These are DataView reads,
  32-bit shifts and thrown exceptions.

Every JavaScript exception the core can raise is part of the model. A
function returns `Result<T>`: the value, or `Err(RangeError)` for a DataView
read past the end, `Err(TypeError)` for a read of a property of `undefined`,
or `Err(ReferenceError)` for an undeclared identifier. `Option<T>` stands for
`undefined`/`null`. `Lookup(m, k)` is a property read on a table object.

Code that works step by step is imperative Dafny:

- the parsers' cursor loops;
- the DataView encoder of START requests;
- the three class components (`PolarService`, `PolarFeature`,
  `HeartRateService`);
- the `Midi` class.

Each method is proved against a pure function, and the protocol properties
are lemmas about those functions.

| file | module | source |
|---|---|---|
| bytes.dfy | `Bytes` | DataView reads and writes, ToInt32, `<<` and `>>`, exceptions |
| polar_codes.dfy | `PolarCodes` | polar-codes.js |
| polar_codes_legacy.dfy | `PolarCodesLegacy` | polar_codes.js |
| polar_parsers.dfy | `PolarParsers` | polar-parsers.js: feature read and control point |
| polar_frames.dfy | `PolarFrames` | polar-parsers.js: ECG, PPG, accelerometer, envelope |
| service_polar.dfy | `ServicePolar` | service-polar.js |
| polar_service.dfy | `PolarServiceComponent` | polar-service.js |
| polar_feature.dfy | `PolarFeatureComponent` | polar-feature.js |
| service_heart_rate.dfy | `ServiceHeartRate` | service-heart-rate.js |
| heart_rate_service.dfy | `HeartRateServiceComponent` | heart-rate-service.js |
| midi.dfy | `Midi` | midi.js |

The main round trips are proved for every input:

- a feature-read bitmap;
- a measurement-control response with its settings groups;
- a START request read back with the response grammar;
- ECG samples of any resolution from 1 to 24 bits;
- 16-bit accelerometer samples;
- the measurement envelope;
- a Heart Rate Measurement with every combination of optional fields.

## Behaviour kept as the code has it

The model does what the code does, also where the code departs from the
protocol or from what its names suggest:

- **Value tables are keyed big-endian, but values are read little-endian.**
  RESOLUTION, SAMPLE_RATE and RANGE are keyed by the big-endian reading of
  their code pairs. The control-point parser reads values little-endian, so
  those values come back without a label. CHANNELS is keyed by the plain
  value.
- **The name tables do not invert the code tables.**
  - SETTING_TYPE_NAME names code 3 "channels", while the channels setting is
    code 4.
  - MEASUREMENT_NAME puts gyroscope and magnetometer one code below their
    MEASUREMENT_TYPE codes.
- **CONTROL_POINT_REQUEST has no PPG, PPI, gyroscope or magnetometer GET
  request.** Both service components therefore write `undefined` for those
  measurement codes.
- **Response handling in the hook-based component.**
  - A measurement-control response with an unknown op code has no
    `operation`, so its handlers throw TypeError when they destructure it.
  - The reducer calls `.filter` on the feature-read result, which is a
    keyed object and not an array, so it throws TypeError.
- **polar-service.js never sets `this.logger`.** Its two paths that log, an
  unknown response type and an unknown op code, throw TypeError, and nothing
  is written.
- **Accelerometer decoding.**
  - The 8-bit loop guard `i < byteLength - 3` drops the last sample.
  - Every 24-bit step reads ten bytes but advances nine, so a non-empty
    24-bit frame throws RangeError.
  - The DELTA branch names an undeclared identifier and throws
    ReferenceError.
- **The heart-rate component compares RR arrays by identity.** A
  notification that carries RR intervals therefore always counts as a
  change.
- **The feature panel never changes two of its fields.** It never assigns
  `activeStreamProperties` or its `normalizeFactor` field, so samples are
  decoded with the decoders' defaults and normalize is a plain clamp.

## Model

| member | source | states |
|---|---|---|
| Bytes.Int8 | polar-parsers.js:229 | getInt8 yields a value in [-128, 128) equal to the byte or the byte minus 256 |
| Bytes.Uint16 | polar-parsers.js:144 | getUint16(i, true) is in [0, 65536) with byte i as low byte and byte i+1 as high byte |
| Bytes.Int16 | polar-parsers.js:238 | getInt16(i, true) is in [-32768, 32768) and congruent to the unsigned reading |
| Bytes.Uint24 | polar-parsers.js:181-183 | the three bytes OR-ed together: byte i is the low byte and bytes i+1..i+2 the u16 above it |
| Bytes.Int32 | polar-parsers.js:246 | getInt32(i, true) lies in the signed 32-bit range and is congruent modulo 2^32 to the unsigned little-endian reading of the four bytes (it is that reading or the reading minus 2^32) |
| Bytes.BigUint64 | polar-parsers.js:278-279 | getBigUint64 of the 8-byte time view is below 2^64 |
| Bytes.EncodeLE | polar-parsers.js:278-279 | writing n little-endian in `width` bytes is inverted by the u64 read |
| Bytes.ToInt32 | polar-parsers.js:185-187 | ToInt32 lands in the int32 range and keeps the value modulo 2^32 |
| Bytes.ShiftLeft | polar-parsers.js:185 | `a << b` is a signed 32-bit value |
| Bytes.ShiftRight | polar-parsers.js:187 | `a >> b` is a signed 32-bit value q with q * 2^(b mod 32) <= ToInt32(a) < (q + 1) * 2^(b mod 32): division rounding towards minus infinity |
| Bytes.SignExtend | polar-parsers.js:185-187 | the low n bits read as an n-bit two's-complement number lie in [-2^(n-1), 2^(n-1)) |
| Bytes.ShiftPairSignExtends | polar-parsers.js:178-187 | `(x << (32 - n)) >> (32 - n)` is the low n bits of x sign-extended, for every n in 1..32 |
| Bytes.ShiftRightOfMultiple | polar-parsers.js:187 | `>>` by s undoes a non-overflowing multiplication by 2^s |
| Bytes.Int32Shift8 | polar-parsers.js:246-249 | `getInt32(i, true) >> 8` is the signed 24-bit value of bytes i+1..i+3 |
| Bytes.ShiftLeftOfOne | polar-parsers.js:188 | `1 << k` is 2^k for k up to 30 and never 0 |
| Bytes.SignExtendLowBits | polar-parsers.js:185-187 | sign extension from n bits keeps x modulo 2^n |
| Bytes.SignExtendOfSigned | polar-parsers.js:185-187 | sign extension leaves an n-bit signed value unchanged |
| Bytes.EncodeInt16 | polar-parsers.js:238-240 | a 16-bit two's-complement value occupies two bytes |
| Bytes.Int16RoundTrip | polar-parsers.js:238-240 | getInt16 inverts the two-byte encoding |
| Bytes.Int8RoundTrip | polar-parsers.js:229-231 | getInt8 inverts the byte of a signed 8-bit value |
| Bytes.EncodeUint24 | polar-parsers.js:181-183 | a 24-bit value occupies three bytes |
| Bytes.Uint24RoundTrip | polar-parsers.js:181-183 | the 24-bit read inverts the three-byte encoding |
| Bytes.EncodeUint16s | service-polar.js:256 | values written by setUint16(i, v, true) take two bytes each |
| PolarCodes.BigEndian | polar-codes.js:99-133 | the key of a code pair has the first byte as high byte and the second as low byte |
| PolarCodes.ErrorTableDomain | polar-codes.js:34-50 | the status table covers exactly 0..13 and only code 0 means success |
| PolarCodes.ResolutionKeyedBigEndian | polar-codes.js:93-103 | RESOLUTION is keyed by the big-endian reading of each RESOLUTION_CODE pair; the little-endian reading hits no key |
| PolarCodes.SampleRateKeyedBigEndian | polar-codes.js:105-121 | the same for SAMPLE_RATE and SAMPLE_RATE_CODE (for example 0x8200 gives 130) |
| PolarCodes.RangeKeyedBigEndian | polar-codes.js:123-133 | the same for RANGE and RANGE_CODE |
| PolarCodes.ChannelsKeyedByValue | polar-codes.js:135-137 | CHANNELS has the single key 3, which the little-endian read of [3, 0] hits |
| PolarCodes.SettingValuesPerType | polar-codes.js:139-152 | setting codes are 0, 1, 2, 4 and SETTING_VALUES maps each to exactly its table |
| PolarCodes.NameTablesDisagree | polar-codes.js:63-80 | MEASUREMENT_NAME and SETTING_TYPE_NAME disagree with the code tables at codes 3, 4, 5 and 6 |
| PolarCodes.MeasurementCodesDistinct | polar-codes.js:63-71 | the measurement codes are pairwise distinct, and code 4 is unused |
| PolarCodes.FlagsAreDistinctBits | polar-codes.js:172-179 | the six PMD_FLAG values are the distinct bits 2^0..2^5 |
| PolarCodes.PrebuiltRequests | polar-codes.js:163-170 | the six pre-built requests byte for byte, including ECG_START and ACC_START |
| PolarCodesLegacy.ErrorTableDomain | polar_codes.js:1-17 | the older status table covers exactly 0..13, with 0 meaning success |
| PolarCodesLegacy.MeasurementCodesDistinct | polar_codes.js:19-27 | the older measurement codes are 0, 1, 2, 3, 5, 6 and pairwise distinct |
| PolarCodesLegacy.AgreesWithRegistry | polar_codes.js:1-27 | both older tables agree entry for entry with polar-codes.js |
| PolarParsers.ParseFeatureReadResponse | polar-parsers.js:17-42 | succeeds exactly when byte 1 exists, and then keys the six measurement codes |
| PolarParsers.FeatureBitsAt | polar-parsers.js:19-38 | bit k of a built bitmap is support flag k |
| PolarParsers.FeatureReadRoundTrip | polar-parsers.js:17-42 | the bitmap of six support flags decodes back to those flags, code by code |
| PolarParsers.GroupsAt | polar-parsers.js:112-149 | the groups from byte i on: at least one group when bytes remain, at most one group per two bytes, and only RangeError or TypeError thrown |
| PolarParsers.ValuesAt | polar-parsers.js:143-147 | a successful read of n values has n entries and fits in the payload |
| PolarParsers.ReadSettingValues | polar-parsers.js:143-147 | the value loop returns what ValuesAt specifies, including its exceptions |
| PolarParsers.ReadParameters | polar-parsers.js:112-149 | the group loop returns what GroupsAt specifies, including its exceptions |
| PolarParsers.ReadGroup | polar-parsers.js:111-147 | one pass of the group loop returns the parameter GroupsAt lists first at i and the offset of the next group, which lies past i, or the exception GroupsAt throws at i |
| PolarParsers.ParseControlPointResponse | polar-parsers.js:45-152 | the whole parser returns what ParsedControlPoint specifies, including its exceptions |
| PolarParsers.ParsedControlPoint | polar-parsers.js:45-152 | `{}` exactly for a first byte other than MEASUREMENT_CONTROL; a response carries code byte 2 and status byte 3, `error` iff the status is not 0, no parameters iff it is a STOP or a START of at most six bytes; only RangeError or TypeError thrown |
| PolarParsers.IsErrorStatus | polar-parsers.js:73 | `error` (the status message is not "SUCCESS") holds exactly when the status code is not 0 |
| PolarParsers.ControlPointHeader | polar-parsers.js:56-105 | the header fields: code, status, `error` iff status is not 0, message iff status is below 14, moreFrames iff non-zero, operation iff the op code is 1..3 |
| PolarParsers.OtherResponseTypesAreEmpty | polar-parsers.js:52-54 | a first byte other than MEASUREMENT_CONTROL gives `{}` |
| PolarParsers.ParametersByOperation | polar-parsers.js:83-109 | STOP and a short START carry no parameters; otherwise the result succeeds iff the groups do and carries them |
| PolarParsers.Labelled | polar-parsers.js:144-146 | each value keeps its raw number, one entry per value |
| PolarParsers.Expected | polar-parsers.js:112-149 | one parameter per group |
| PolarParsers.ValuesRoundTrip | polar-parsers.js:143-147 | encoded u16 values read back as their labelled values |
| PolarParsers.GroupStep | polar-parsers.js:112-147 | one iteration of the group loop: name, code, unit, values, then the rest |
| PolarParsers.EncodeGroupsSplit | polar-parsers.js:112-147 | a group list is encoded as code, count, values, then the rest |
| PolarParsers.EncodeGroupsLayout | polar-parsers.js:112-147 | where the first group's code, count and values sit in a payload |
| PolarParsers.LaidOutGroupsParse | polar-parsers.js:112-149 | groups laid out from byte i parse to their expected parameters, followed by whatever parses after them |
| PolarParsers.GroupsRoundTrip | polar-parsers.js:112-149 | well-formed encoded groups parse back to exactly those groups, in order |
| PolarParsers.ControlPointRoundTrip | polar-parsers.js:45-152 | a header followed by well-formed groups parses back to that header, operation and groups |
| PolarParsers.DanglingCodeThrows | polar-parsers.js:112-141 | a code byte with no count byte after it makes the parser throw RangeError |
| PolarParsers.CodeWithoutTable | polar-parsers.js:140-147 | a code with no value table throws TypeError once it has a value, and is accepted when its count is 0 |
| PolarParsers.WireValuesGoUnlabelled | polar-parsers.js:144-145 | a rate, resolution or range sent as its little-endian value gets no label |
| PolarFrames.EcgSample | polar-parsers.js:178-188 | for a resolution of 1 to 31 bits a sample lies in [-1, 1) |
| PolarFrames.EcgFrameOf | polar-parsers.js:155-204 | parseECGData only throws RangeError, yields one-element rows, and no rows for a frame type other than RES14 |
| PolarFrames.ParseEcgData | polar-parsers.js:155-204 | parseECGData's loop returns what EcgFrameOf specifies |
| PolarFrames.EcgSampleValue | polar-parsers.js:178-188 | for resolution 1..31 a sample is the sign-extended group over 2^(res-1), in [-1, 1) |
| PolarFrames.RealQuotientBounds | polar-parsers.js:188 | a numerator in [-d, d) over d lies in [-1, 1) |
| PolarFrames.EcgRowsLength | polar-parsers.js:173-191 | a RES14 body parses iff its length is a multiple of 3, into one row per 3 bytes |
| PolarFrames.EcgRowAt | polar-parsers.js:173-191 | row k is the sample of the group at offset 3k |
| PolarFrames.EncodeEcgSamples | polar-parsers.js:173-191 | an encoded ECG body holds 3 bytes per sample |
| PolarFrames.EcgRoundTrip | polar-parsers.js:155-204 | samples of resolution 1..24 decode to themselves over 2^(res-1), all and in order |
| PolarFrames.EncodedSampleDecodes | polar-parsers.js:178-188 | the group of sample k decodes to that sample |
| PolarFrames.EncodedSampleAt | polar-parsers.js:173 | sample k sits at bytes 3k..3k+2 |
| PolarFrames.Uint24Window | polar-parsers.js:181-183 | the 24-bit read depends only on its three bytes |
| PolarFrames.AccFrameOf | polar-parsers.js:212-273 | parseAccelerationData throws RangeError, or ReferenceError only for a DELTA frame of at least three bytes; every row has three axes; only the 8-bit form carries a frameType label |
| PolarFrames.ParseAccelerationData | polar-parsers.js:212-273 | parseAccelerationData returns what AccFrameOf specifies, including its exceptions |
| PolarFrames.Res8RowCount | polar-parsers.js:228-234 | the 8-bit loop yields (L - 1 - i) / 3 rows when i + 3 < L, and none otherwise |
| PolarFrames.Res8RowAt | polar-parsers.js:228-234 | 8-bit row k is the three signed bytes at offset 3k, over 128 |
| PolarFrames.EncodeRes8 | polar-parsers.js:228-234 | an 8-bit body holds 3 bytes per sample |
| PolarFrames.EncodeRes8At | polar-parsers.js:229-231 | sample k's axes sit at bytes 3k, 3k+1, 3k+2 |
| PolarFrames.Res8DropsLastSample | polar-parsers.js:226-235 | an 8-bit frame of n samples decodes to its first n - 1 samples only |
| PolarFrames.Res16RowsLength | polar-parsers.js:237-242 | a 16-bit body parses iff its length is a multiple of 6, one row per 6 bytes |
| PolarFrames.Res16RowAt | polar-parsers.js:237-242 | 16-bit row k is read at offset 6k |
| PolarFrames.EncodeRes16 | polar-parsers.js:237-242 | a 16-bit body holds 6 bytes per sample |
| PolarFrames.EncodeRes16At | polar-parsers.js:238-240 | sample k's axes are the int16 pairs at 6k, 6k+2, 6k+4 |
| PolarFrames.Int16Window | polar-parsers.js:238 | the int16 read depends only on its two bytes |
| PolarFrames.Res16RowDecodes | polar-parsers.js:238-240 | the group of sample k decodes to its axes over 2^15 |
| PolarFrames.Res16RoundTrip | polar-parsers.js:236-243 | 16-bit samples decode to themselves over 2^15, all and in order |
| PolarFrames.Res24RowsThrow | polar-parsers.js:245-251 | every non-empty 24-bit body throws RangeError |
| PolarFrames.AccFrameTypes | polar-parsers.js:244-266 | RES24 and DELTA throw, and an unknown frame type gives no rows |
| PolarFrames.Res24Channels | polar-parsers.js:246-249 | a readable 24-bit group gives the signed 24-bit values of bytes j+1..j+3 |
| PolarFrames.ParseMeasurementData | polar-parsers.js:276-307 | success needs 9 bytes; a decoded measurement carries byte 0 (ECG, PPG or ACC) and the u64 time of bytes 1..8 |
| PolarFrames.MeasurementEnvelope | polar-parsers.js:276-307 | code, time and body round-trip: each code reaches its decoder, PPG passes through, other codes give `undefined` |
| ServicePolar.Reducer | service-polar.js:35-64 | only POLAR_FEATURES_SUPPORTED can throw, and then TypeError; it keeps the existing features in front; every other action keeps the number of features |
| ServicePolar.FindIndex | service-polar.js:39 | the index of the first feature with the code, or -1 exactly when none has it |
| ServicePolar.Supported | service-polar.js:47 | the filter keeps exactly the supported entries |
| ServicePolar.SupportedSplits | service-polar.js:47 | the filter keeps order: it distributes over concatenation |
| ServicePolar.FeaturesSupportedAppends | service-polar.js:42-49 | POLAR_FEATURES_SUPPORTED keeps the features and appends the supported entries in order |
| ServicePolar.FeatureReadPayloadThrows | service-polar.js:36-47 | the keyed feature-read payload, or none at all, makes the reducer throw TypeError |
| ServicePolar.FeatureActionReplacesOne | service-polar.js:52-61 | a feature action replaces only the first feature with its code, by the feature reducer's result |
| ServicePolar.OtherActionsKeepState | service-polar.js:35-64 | every other action, and a feature action for an absent code, leaves the features unchanged |
| ServicePolar.GetNextParameterRequest | service-polar.js:97-113 | a next request is always the code of one of the features |
| ServicePolar.NextRequestCases | service-polar.js:97-113 | no features gives null, null gives the first, an unknown code gives null, the last code gives null |
| ServicePolar.NextRequestFollowsOrder | service-polar.js:97-113 | with distinct codes the request after feature k is feature k + 1 |
| ServicePolar.RequestsWalkFeatures | service-polar.js:97-113 | applied to one list, from null, successive requests visit the features in order and end with null (the registered handler applies it to `[]`, see StaleHandlerEndsTheWalk) |
| ServicePolar.OnFeaturesChanged | service-polar.js:145-152 | the flag stays armed exactly when it was armed and the list is empty, and then nothing changes |
| ServicePolar.FeaturesStartTheWalk | service-polar.js:145-152 | an armed, non-empty feature list starts with the first feature and disarms; unarmed or empty changes nothing |
| ServicePolar.SettingsRequest | service-polar.js:115-143 | a write happens only for a byte-sized code in flight, and a defined request is the GET request [0x01, code] |
| ServicePolar.SettingsRequestPerCode | service-polar.js:115-143 | ECG and ACC write [0x01, code]; PPG, PPI, GYRO and MAG write `undefined`; other codes and null write nothing |
| ServicePolar.HandleControlPointChanged | service-polar.js:154-208 | only an empty payload, a feature read or a measurement-control response can throw; a notification has at most two effects |
| ServicePolar.FeatureReadNotification | service-polar.js:157-161 | a feature read arms the requests and dispatches the keyed support flags of byte 1 |
| ServicePolar.SettingsAckAdvancesFirst | service-polar.js:178-182 | a GET acknowledgement advances the request within the features the handler is given, then dispatches the parsed groups |
| ServicePolar.StaleHandlerEndsTheWalk | service-polar.js:211-221 | the registered handler sees the `[]` and null of the render that added it, so a GET acknowledgement sets the request to null, while the features effect starts the walk on the current non-empty list: the walk ends after its first request |
| ServicePolar.StartAck | service-polar.js:184-191 | START dispatches START with its groups on success, ERROR with status and "startStream" otherwise |
| ServicePolar.StopAck | service-polar.js:193-200 | STOP dispatches STOP on success, ERROR with status and "stopStream" otherwise |
| ServicePolar.UnknownOperationThrows | service-polar.js:163-175 | an op code other than 1..3 always throws, and throws TypeError once the groups parse |
| ServicePolar.OtherResponseIsReported | service-polar.js:204-205 | any other response type dispatches the status error |
| ServicePolar.SettingsBytes | service-polar.js:251-258 | each setting takes four bytes |
| ServicePolar.StartRequest | service-polar.js:244 | a START request has 2 + 4n bytes |
| ServicePolar.SettingsBytesAppend | service-polar.js:251-258 | encoding one more setting appends its four bytes |
| ServicePolar.EncodeStartRequest | service-polar.js:243-259 | the DataView fill with cursor `i` produces exactly StartRequest |
| ServicePolar.SettingsBytesAt | service-polar.js:251-258 | byte j of setting k sits at offset 4k + j |
| ServicePolar.StartRequestLayout | service-polar.js:244-258 | the op code, the id mod 256, then per setting its code mod 256, SETTING_LENGTH and value mod 2^16 |
| ServicePolar.PrebuiltStartRequests | service-polar.js:243-259 | the encoder rebuilds ECG_START and ACC_START from their settings |
| ServicePolar.AsGroups | service-polar.js:251-258 | settings become well-formed single-value groups, one per setting |
| ServicePolar.SettingsAreGroups | service-polar.js:251-258 | a settings list is encoded exactly as its single-value groups |
| ServicePolar.StartRequestRoundTrip | service-polar.js:243-259 | the control-point group grammar reads a START request's settings back in order |
| ServicePolar.FeatureCommand | service-polar.js:239-272 | START writes the encoded request, STOP writes [3, id], other op codes report an error and write nothing |
| PolarServiceComponent.Cascade | polar-service.js:276-322 | the counter never moves back, and a request written is for the feature the counter stops on, which is present |
| PolarServiceComponent.CascadeWalksInOrder | polar-service.js:276-322 | getParameters requests the first present feature from the counter on, never moves back, and stops at 5 |
| PolarServiceComponent.CascadeRequests | polar-service.js:276-322 | at most one write, with response: [0x01, code] for ECG and ACC, `undefined` for the other four |
| PolarServiceComponent.Acknowledge | polar-service.js:131-241 | only a feature read or a measurement-control response succeeds; no feature is ever removed; the counter moves on by at most one; a map stored before the walk always comes with the walk |
| PolarServiceComponent.FeatureReadAddsSupported | polar-service.js:134-148 | a feature read adds exactly the supported codes as `{supported: true}` and keeps the rest |
| PolarServiceComponent.SettingsAckSetsParameters | polar-service.js:165-177 | a GET acknowledgement advances the counter and sets only that code's parameters |
| PolarServiceComponent.StartAckUpdates | polar-service.js:180-206 | START sets status "running" on success and records the error otherwise |
| PolarServiceComponent.StopAckUpdates | polar-service.js:208-234 | STOP sets status "stopped" on success and records the error otherwise |
| PolarServiceComponent.SettingsAckWalksEarlierFeatures | polar-service.js:165-176 | after a GET acknowledgement the walk reads the features from before it: with no features it writes nothing, although the acknowledged code would have been requested |
| PolarServiceComponent.UnknownResponseThrows | polar-service.js:238-239 | any other response type throws TypeError at the unset logger |
| PolarServiceComponent.PolarService.constructor | polar-service.js:27-49 | empty features, counter 0, nothing written |
| PolarServiceComponent.PolarService.GetParameters | polar-service.js:276-322 | the six ifs leave the counter and the writes as the Cascade specifies |
| PolarServiceComponent.PolarService.RequestIfAt | polar-service.js:277-283 | one `parameterRequest === k` block requests a present feature k or moves the counter on, as the Cascade from k specifies |
| PolarServiceComponent.PolarService.HandleControlPointChanged | polar-service.js:131-241 | the state becomes the acknowledgement's update; when it refreshes, getParameters walks the map a feature read stored first, or, after a GET acknowledgement whose map still waits in `setState`, the features from before the acknowledgement; an exception changes nothing |
| PolarServiceComponent.PolarService.FeatureCommand | polar-service.js:243-274 | START and STOP write their request without response; other op codes throw TypeError and write nothing |
| PolarFeatureComponent.ParameterList2Properties | polar-feature.js:19-26 | the fold succeeds exactly when every setting code has a value table |
| PolarFeatureComponent.PropertyKeys | polar-feature.js:19-26 | a key is present exactly when some pair names it; the empty list gives `{}` |
| PolarFeatureComponent.LastPairWins | polar-feature.js:19-26 | each key holds the value of the last pair that names it |
| PolarFeatureComponent.LaterPairOverrides | polar-feature.js:20-24 | one more pair overrides its key and keeps everything else |
| PolarFeatureComponent.ChannelsPropertyMisnamed | polar-feature.js:23 | channels (code 4) lands under the key "undefined"; code 3 throws TypeError |
| PolarFeatureComponent.SettingsOf | polar-feature.js:125-126 | `{}` hands the decoders no settings |
| PolarFeatureComponent.PolarFeature.constructor | polar-feature.js:30-56 | no requested or active settings, a factor of 1, no commands |
| PolarFeatureComponent.PolarFeature.SubmitHandler | polar-feature.js:108-118 | the command always goes out; only START replaces the requested settings |
| PolarFeatureComponent.PolarFeature.Normalize | polar-feature.js:120-122 | the scaled sample clamped into [-1, 1] |
| PolarFeatureComponent.PolarFeature.ParseData | polar-feature.js:124-127 | a decoded notification has at least 9 bytes and type ECG, PPG or ACC; PPG gives the raw body after the header, the others rows |
| PolarFeatureComponent.ParseDataUsesDefaults | polar-feature.js:124-128 | notifications are decoded with `{}`, that is with the decoders' defaults |
| PolarFeatureComponent.NormalizeIsClamp | polar-feature.js:120-122 | with the factor the panel keeps, normalize is the identity on [-1, 1] and clips beyond |
| ServiceHeartRate.HeartRateOf | service-heart-rate.js:27-61 | succeeds iff byte 0 exists and every field its flags announce fits; throws only RangeError; the rate is below 2^16, and below 256 when bit 0 is clear; rrIntervals present iff bit 4 |
| ServiceHeartRate.ParseHeartRate | service-heart-rate.js:27-61 | the cursor parser returns what HeartRateOf specifies, including RangeError |
| ServiceHeartRate.ReadRrIntervals | service-heart-rate.js:52-58 | the RR loop returns every complete u16 pair from the cursor on |
| ServiceHeartRate.HeaderFields | service-heart-rate.js:27-51 | the rate width, contact status and energy presence follow flag bits 0, 1/2 and 3 |
| ServiceHeartRate.LengthNeeded | service-heart-rate.js:33-50 | a notification parses exactly when it holds every field its flags announce |
| ServiceHeartRate.RrPairs | service-heart-rate.js:54-56 | (L - i) / 2 intervals, interval k read at i + 2k, and an odd trailing byte ignored |
| ServiceHeartRate.FlagsForBits | service-heart-rate.js:9-15 | the flags byte a sensor sends sets exactly the bits of the fields present |
| ServiceHeartRate.RrRoundTrip | service-heart-rate.js:52-58 | encoded RR intervals read back exactly |
| ServiceHeartRate.HeartRateRoundTrip | service-heart-rate.js:27-61 | a measurement as a sensor encodes it parses back to exactly that measurement |
| HeartRateServiceComponent.RepeatsWriteOnlyWithRr | heart-rate-service.js:155-174 | a repeat without RR writes nothing, any RR list writes, and a new rate writes |
| HeartRateServiceComponent.HeartRateService.constructor | heart-rate-service.js:65-86 | every shown field starts null |
| HeartRateServiceComponent.HeartRateService.HeartRateChangedHandler | heart-rate-service.js:151-178 | the callback sees every rate; the state is written once, exactly when a field differs; a parse error changes nothing |
| Midi.PitchValue | midi.js:63 | a sample in [-1, 1] gives a value in [1, 0x3FFF]; non-negative samples land at or above the centre 0x2000, negative ones below it |
| Midi.PitchBend | midi.js:62-68 | a three-byte Pitch Bend message with a 7-bit low byte; an `undefined` sample gives [0xE0, 0, 0] |
| Midi.PitchSplit | midi.js:63-65 | `lvb < 128` and `lvb + 128 * mvb == pitchValue` |
| Midi.PitchRange | midi.js:63-65 | a sample in [-1, 1] gives a pitch value in [1, 16383], so both data bytes are below 128 |
| Midi.PitchAnchors | midi.js:63-67 | 0 gives [0xE0, 0, 64], 1 gives [0xE0, 127, 127], -1 gives [0xE0, 1, 0] |
| Midi.Broadcast | midi.js:66-68 | one send per output port, in port order |
| Midi.Firsts | midi.js:72 | the first component of each sample, in order, `undefined` for an empty one |
| Midi.FirstsAppend | midi.js:72 | queueing two batches equals queueing their concatenation |
| Midi.Midi.constructor | midi.js:12-34 | empty buffer and outputs, null rate, flag down, no timer |
| Midi.Midi.AddOutputs | midi.js:148-153 | the ports access lists are appended to the outputs in order |
| Midi.Midi.SendPitch | midi.js:62-69 | the bend message for the sample goes to every output, in order, and nothing else changes |
| Midi.Midi.PlayBuffer | midi.js:36-45 | removes and sends exactly the front sample; an empty buffer stays; a pending change reschedules with the stored rate, so a timer then runs, and clears the flag |
| Midi.Midi.SetSamplerate | midi.js:47-56 | the flag is raised only when the rate differs; the first rate starts the timer |
| Midi.Midi.AddModulationData | midi.js:71-80 | the first components join the back of the buffer in order; the rate (default 130) is set only when it differs |

## Left out

- **Web Bluetooth I/O.** Characteristic lookup, notifications, reads and
  listeners are not modelled. Writes to the control point are modelled as a
  log of requests (`writes`, or a returned value).
- **Preact rendering, hooks and the DOM.** `setState` is taken as applied
  when the handler ends, so code that runs inside the handler after a
  `setState` call, such as the walk after a GET acknowledgement, still sees
  the earlier state. The hook component's state changes are returned as
  a list of effects. The status panel's text and `new Date()` timestamps
  are not modelled.
- **The feature reducer is opaque.** `featureReducer`, and the
  `FEATURE_ACTION` and `reducer` exports that service-polar.js imports from
  polar-feature.js, are passed in as a function parameter. polar-feature.js
  exports neither, so the model takes the four measurement actions as the
  feature actions. This is a JavaScript module-linking error the model does
  not reproduce.
- ServicePolar.HandleControlPointChanged: takes `features` and
  `parameterRequest` as parameters. The program registers the handler once
  (service-polar.js:211-221), so it passes the values of the render in
  which the control point arrived, `[]` and null; the model does not track
  that closure, and StaleHandlerEndsTheWalk states its consequence.
- **midi-constants.js is not part of this model.** PITCH_BEND is 0xE0,
  Pitch Bend Change on channel 0 in the MIDI 1.0 Detailed Specification.
- **MIDI port objects, `checkboxHandler`, `connectHandler` and the
  `setInterval` timer are not modelled.** A tick is one call of
  `PlayBuffer`. `interval` records the rate the timer was last scheduled
  with.
- Midi.Midi.SetSamplerate: the rate is an integer, not any JavaScript value.
- **Floating point.** Scaled samples are exact reals.
  - Division of an int32 by a power of two is exact in doubles.
  - `Math.floor` in sendPitch is real floor.
  - Normalize's factor `1 / absoluteMax` and the min/max tracking of the
    feature panel are not modelled.
- PolarFeatureComponent.PolarFeature.ParseData: returns the value the source
  stores in `this.data`. The `data` setter that the store runs
  (polar-feature.js:142-160) is not modelled. It throws TypeError on every
  call: `class PolarFeature` does not extend a component class, so the
  instance has no `setState`; `this.max` reads the initial `null`, and
  the `max` setter it then runs (polar-feature.js:166-168) calls the
  missing `setState`. For a PPG body, a DataView, the missing `reduce`
  throws TypeError before that.
- **The feature panel's normalize button and visualizer are not modelled.**
  The normalize button's handler (polar-feature.js:99-101) calls the
  missing `setState` and throws TypeError.
- **Arrays passed as scalars.** The `[value]` arrays of normalize, of the
  control-point parser's settings values and of the MIDI samples are
  modelled as their single element. A property key of a one-element array is
  the same key as the element.
- **Data views are taken as the whole buffer.** `new DataView(data.buffer,
  9)` is taken as the notification from byte 9 on, that is the view's buffer
  is the notification itself.
- **Accelerometer DELTA frames have no decoder.** Their branch throws
  ReferenceError before any delta grammar would apply, and PPG bodies are
  handed back undecoded.
- **Heart-rate extras are not modelled.** The body sensor location, the
  `datetime` field, and the `rrHistory` comment are left out. The component
  never stores `energyExpended`, and the model keeps it unchanged.
- **Sensor wiring and the remaining modules are not modelled:**
  - sensor.js, sensors.js and polar-sensor.js;
  - the audio modules;
  - visualizer.js;
  - the MIDI port, input, output and transport modules;
  - the GATT name tables.

  None of them is in the modelled core.
