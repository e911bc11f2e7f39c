# hms-mqtt-publisher, modelled in Dafny

hms-mqtt-publisher polls a Hoymiles HMS DTU and republishes its readings on
MQTT. This project models the core of that program and proves properties of
the model:

- the request frame that each poll sends: the `HM` magic, the command, a
  wrapping sequence number, a CRC-16/MODBUS of the body, a 16-bit length and
  the protobuf body;
- the `HMSInverter` client state machine, in both copies of the source. The
  newer copy is `sources/hms/inverter.rs`; the older is `inverter.rs`. Each
  poll either returns a record or not, and moves the network state between
  `Unknown`, `Online` and `Offline`. A state change is logged only when the
  state actually changes.
- the `FakeInverter` test source;
- the projection of a decoded `HMSStateResponse` onto a topic/value map, by
  three publishers:
  - `HMSStateResponse::get_topics`, used by the `Mqtt` target;
  - the older `Mqtt::publish`;
  - `SimpleMqtt::publish`;
- the publish loops, which send every map entry retained with QoS
  `AtMostOnce` and only log client errors;
- the `RumqttcWrapper` adapter rules:
  - the QoS mapping in both directions;
  - the port default;
  - the credential table;
  - the status topic, with its `offline` last will and `online` birth message;
  - `publish` never returning an error;
- the in-memory `MqttTester` of the integration tests, and its
  `publish_one_message` test.

Files and modules:

| file | module | models |
|---|---|---|
| `wrappers.dfy` | `Wrappers` | `Option`, `Outcome` |
| `bytes.dfy` | `Bytes` | bytes, 16-bit words, `u16` numbers, big-endian encoding, `wrapping_add(1)` |
| `crc16.dfy` | `Crc16` | CRC-16/MODBUS, from section 6.2.2 and Appendix B of the MODBUS over Serial Line Specification and Implementation Guide V1.02 |
| `text.dfy` | `Text` | decimal rendering of integers, `/`-separated topic paths |
| `real_data.dfy` | `RealData` | the decoded `RealData` protobuf records |
| `inverter_source.dfy` | `InverterSource` | `NetworkState` and the change-gated `set_state` log |
| `hms_protocol.dfy` | `HmsProtocol` | framing, reading the reply, classifying an exchange, runs of polls |
| `hms_inverter.dfy` | `HmsSource` | the newer `HMSInverter` client class |
| `legacy_inverter.dfy` | `LegacySource` | the older `HMSInverter` client class |
| `fake.dfy` | `FakeSource` | `FakeInverter` |
| `projection.dfy` | `Projection` | the topic maps of the three publishers and their topic strings |
| `mqtt_wrapper.dfy` | `MqttWrapper` | the client interface, as a recording client, and the shared publish loop |
| `mqtt_target.dfy` | `MqttTarget` | `targets/mqtt/mqtt.rs` |
| `legacy_mqtt.dfy` | `LegacyPublisher` | `mqtt.rs` |
| `simple_mqtt.dfy` | `SimplePublisher` | `simple_mqtt.rs` |
| `rumqttc_wrapper.dfy` | `RumqttcWrapper` | `rumqttc_wrapper.rs`, plus the configuration record and `PublishEvent` |
| `integration_tests.dfy` | `IntegrationTests` | `MqttTester` and `publish_one_message` |

Modelling choices:

- **Network and decoder are parameters.** Resolving, connecting, writing and
  reading are one `Exchange` value per poll. The protobuf decoder is a
  `Parser` function.
- **Structured map keys.** The topic map is keyed by a `Key` datatype, `Render`
  spells each key as the source's topic string, and `RenderInjective` proves
  that no two keys share a string. The keyed map therefore has the same
  entries as the source's string-keyed map.
- **Readings are exact.** A reading is an exact rational (`Reading`), not an
  `f32`.
- **Publish order is open.** A publish loop takes the map's keys in any order,
  as a `HashMap` does; the ghost `order` it returns names the order used.

## Model

| member | source | states |
|---|---|---|
| Bytes.Be16 | hms2mqtt/src/sources/hms/inverter.rs:120-122 | `to_be_bytes` gives two bytes that `from_be_bytes` decodes back to the word |
| Bytes.Be16OfFromBe16 | hms2mqtt/src/sources/hms/inverter.rs:120-122 | the other round trip: decoding two bytes and re-encoding gives them back |
| Bytes.WrappingIncrement | hms2mqtt/src/sources/hms/inverter.rs:112 | `wrapping_add(1)` is `+1` modulo 65536 |
| Bytes.IncrementTimesIsModular | hms2mqtt/src/sources/hms/inverter.rs:112 | `n` increments add `n` modulo 65536 |
| Bytes.CounterPeriod | hms2mqtt/src/sources/hms/inverter.rs:112 | the counter returns to its start after exactly 65536 increments, and not before |
| Crc16.Checksum | hms2mqtt/src/sources/hms/inverter.rs:114 | the checksum of empty data is the preset 0xFFFF |
| Crc16.ShiftOnceInjective | hms2mqtt/src/sources/hms/inverter.rs:114 | one CRC shift step loses no information |
| Crc16.ShiftTimesInjective | hms2mqtt/src/sources/hms/inverter.rs:114 | neither do `n` shift steps |
| Crc16.AbsorbByteInjectiveInByte | hms2mqtt/src/sources/hms/inverter.rs:114 | from one register, distinct bytes give distinct registers |
| Crc16.AbsorbByteInjectiveInRegister | hms2mqtt/src/sources/hms/inverter.rs:114 | one byte into distinct registers gives distinct registers |
| Crc16.AbsorbInjectiveInRegister | hms2mqtt/src/sources/hms/inverter.rs:114 | the same data from distinct registers gives distinct checksums |
| Crc16.AbsorbDetectsSingleByteError | hms2mqtt/src/sources/hms/inverter.rs:114 | changing one byte of the data changes the register it leaves |
| Crc16.ChecksumDetectsSingleByteError | hms2mqtt/src/sources/hms/inverter.rs:114 | changing any single byte changes the checksum |
| Crc16.CheckValue | hms2mqtt/src/sources/hms/inverter.rs:114 | the CRC-16/MODBUS check value: "123456789" gives 0x4B37 |
| Text.DigitChar | hms2mqtt/src/sources/hms/inverter.rs:74 | a digit renders as a character between `'0'` and `'9'` |
| Text.NatToString | hms2mqtt/src/sources/hms/inverter.rs:74 | decimal rendering of a natural is non-empty, made of digits only, and two digits long from 10 up |
| Text.DecimalString | hms2mqtt/src/sources/hms/inverter.rs:74 | an integer's rendering is never empty |
| Text.DigitCharInjective | hms2mqtt/src/sources/hms/inverter.rs:74 | distinct digits render differently |
| Text.NatToStringInjective | hms2mqtt/src/sources/hms/inverter.rs:74 | distinct naturals render differently |
| Text.DecimalStringSign | hms2mqtt/src/sources/hms/inverter.rs:74 | a rendering starts with `-` iff the number is negative |
| Text.NegativeDigits | hms2mqtt/src/sources/hms/inverter.rs:74 | after the `-` come the digits of the magnitude |
| Text.DecimalStringInjective | hms2mqtt/src/sources/hms/inverter.rs:74 | distinct integers (ids, indices, port numbers) render differently |
| Text.Child | hms2mqtt/src/sources/hms/inverter.rs:74 | `format!("{}/{}")` is one character longer than the parent and the name together |
| Text.ChildOfSameParent | hms2mqtt/src/sources/hms/inverter.rs:74 | children of one parent are equal only for equal names |
| Text.ParentOfChild | hms2mqtt/src/sources/hms/inverter.rs:76-78 | the parent of `g/name`, for a slash-free name, is `g` |
| Text.GrandchildUnder | hms2mqtt/src/sources/hms/inverter.rs:74-78 | a topic two levels down starts with its base and a slash |
| Text.ParentIsPrefix | hms2mqtt/src/sources/hms/inverter.rs:74-78 | the parent of a topic is a prefix of it |
| Text.PrefixTransitive | hms2mqtt/src/sources/hms/inverter.rs:56-60 | topic prefixes compose |
| InverterSource.StateChange | hms2mqtt/src/sources/hms/inverter.rs:29-34 | `set_state` logs exactly one event, naming the new state, iff the state differs |
| HmsProtocol.LengthField | hms2mqtt/src/sources/hms/inverter.rs:115 | the length field is body length + 10 modulo 65536 |
| HmsProtocol.RequestFrame | hms2mqtt/src/sources/hms/inverter.rs:112-123 | the frame is `HM`, `A3 03`, the sequence, the CRC of the body, the length field, then the body, in 10 + body bytes |
| HmsProtocol.ComposeMessage | hms2mqtt/src/sources/hms/inverter.rs:116-123 | the six `extend_from_slice` steps build exactly that frame |
| HmsProtocol.LengthFieldIsFrameLength | hms2mqtt/src/sources/hms/inverter.rs:115 | when the frame fits in 16 bits, the length field is the frame's length |
| HmsProtocol.LengthFieldWraps | hms2mqtt/src/sources/hms/inverter.rs:115 | a body of 65526 bytes makes the length field 0 |
| HmsProtocol.DefaultRequestFrame | hms2mqtt/src/sources/hms/inverter.rs:36-40 | `update_state`'s request is the bare header with CRC 0xFFFF and length 10 |
| HmsProtocol.ChecksumIgnoresHeader | hms2mqtt/src/sources/hms/inverter.rs:114-121 | frames for two sequence numbers differ only in bytes 4 and 5 |
| HmsProtocol.CorruptedBodyChangesChecksumField | hms2mqtt/src/sources/hms/inverter.rs:114-123 | a one-byte change in the body changes the CRC field |
| HmsProtocol.ReadLength | hms2mqtt/src/sources/hms/inverter.rs:158-166 | the one `read` call takes the bytes it delivers, possibly fewer than the inverter sent, up to the 1024-byte buffer |
| HmsProtocol.ResponseBody | hms2mqtt/src/sources/hms/inverter.rs:166-167 | the body after the 10-byte header, or none exactly when fewer than 10 bytes were read |
| HmsProtocol.ReceiveBuffer | hms2mqtt/src/sources/hms/inverter.rs:158-159 | the 1024-byte buffer starts with the bytes read |
| HmsProtocol.ReadInto | hms2mqtt/src/sources/hms/inverter.rs:158-166 | reading into a fresh zeroed array yields that buffer and that length |
| HmsProtocol.SliceOrPanic | hms2mqtt/src/sources/hms/inverter.rs:167 | Rust range indexing panics iff the range is out of bounds |
| HmsProtocol.ShortReadPanicsAsWritten | hms2mqtt/src/sources/hms/inverter.rs:166-167 | as written, any read shorter than 10 bytes panics |
| HmsProtocol.ClosedConnectionPanicsAsWritten | hms2mqtt/src/inverter.rs:127-128 | a 0-byte read (peer closed) panics as written |
| HmsProtocol.ResponseBodyAgreesWhenLongEnough | hms2mqtt/src/sources/hms/inverter.rs:166-167 | the corrected body equals the source's slice wherever the source does not panic |
| HmsProtocol.Classify | hms2mqtt/src/sources/hms/inverter.rs:125-179 | an exchange is unresolved iff resolution fails or gives no address; it parses iff the reply is long enough and decodes; a short read is its own failure; a connect, write or read error and an undecodable body each map to their own failure kind, and only those inputs do |
| HmsProtocol.Reported | hms2mqtt/src/sources/hms/inverter.rs:138-179 | `set_state` is not called iff unresolved, and is called with `Online` iff parsed |
| HmsProtocol.NextState | hms2mqtt/src/sources/hms/inverter.rs:125-179 | unresolved keeps the state, any failure sets `Offline`, a record sets `Online` |
| HmsProtocol.AttemptEvents | hms2mqtt/src/sources/hms/inverter.rs:29-34 | an attempt logs one event, the new state, iff it changes the state |
| HmsProtocol.Returned | hms2mqtt/src/sources/hms/inverter.rs:169-179 | a record comes back iff the reply parsed, and it is the parsed record |
| HmsProtocol.EventsAreTransitions | hms2mqtt/src/sources/hms/inverter.rs:29-34 | the log has at most one event per poll and no two equal in a row; the first leaves the initial state, the last is the final state |
| HmsProtocol.UnknownNeverReentered | hms2mqtt/src/sources/hms/inverter.rs:99-105 | `Unknown` is never logged and never returns once any poll passes resolution |
| HmsProtocol.RepeatedOutcomeIsSilent | hms2mqtt/src/sources/hms/inverter.rs:29-34 | repeating an outcome changes neither the state nor the log |
| HmsProtocol.RunExtended | hms2mqtt/src/sources/hms/inverter.rs:36-40 | one more poll extends the state and the log by that poll's effect |
| HmsProtocol.FlappingConnection | hms2mqtt/src/sources/hms/inverter.rs:29-34 | fail, fail, ok, ok, fail logs exactly Offline, Online, Offline |
| HmsSource.HmsInverter.constructor | hms2mqtt/src/sources/hms/inverter.rs:99-105 | a new client is `Unknown` with sequence 0 |
| HmsSource.HmsInverter.SetState | hms2mqtt/src/sources/hms/inverter.rs:29-34 | the state becomes the argument, logged iff it changed, and nothing else changes |
| HmsSource.HmsInverter.SendRequest | hms2mqtt/src/sources/hms/inverter.rs:107-180 | the counter advances first; the frame uses the new value; state, log and result follow the classified exchange |
| HmsSource.HmsInverter.UpdateState | hms2mqtt/src/sources/hms/inverter.rs:36-40 | a request with the default body |
| HmsSource.AttemptsExtended | hms2mqtt/src/sources/hms/inverter.rs:36-40 | one more exchange adds its classification to the run |
| HmsSource.IncrementTracksCount | hms2mqtt/src/sources/hms/inverter.rs:112 | a counter at `i` mod 65536 is at `i+1` mod 65536 after one increment |
| HmsSource.PollRun | hms2mqtt/src/sources/hms/inverter.rs:36-40 | polling a fresh client: each result is that poll's, the final state and log are the run functions', the counter is the poll count mod 65536 |
| HmsSource.FirstPoll | hms2mqtt/src/sources/hms/inverter.rs:112 | the first frame of a fresh client carries sequence 1 |
| LegacySource.HmsInverter.constructor | hms2mqtt/src/inverter.rs:61-67 | a new client is `Unknown` with sequence 0 |
| LegacySource.HmsInverter.SetState | hms2mqtt/src/inverter.rs:44-49 | the state becomes the argument, logged iff it changed |
| LegacySource.HmsInverter.SendRequest | hms2mqtt/src/inverter.rs:69-141 | the counter is left alone; the frame uses the current value; state, log and result follow the classified exchange |
| LegacySource.HmsInverter.UpdateState | hms2mqtt/src/inverter.rs:143-149 | the counter advances, then a default request (identical to the trait method at 51-57) |
| LegacySource.CopiesAgree | hms2mqtt/src/inverter.rs:143-149 | over any run, the two copies return the same records and end in the same state with the same counter, the same state-change log and the same last frame |
| FakeSource.FakeInverter.constructor | hms2mqtt/src/sources/fake.rs:5-7 | the fake keeps its serial |
| FakeSource.FakeInverter.UpdateState | hms2mqtt/src/sources/fake.rs:12-19 | always a record: the default record with the serial set |
| FakeSource.PollTwice | hms2mqtt/src/inverter.rs:157-166 | `set_state` between two polls changes nothing: equal default records with the serial |
| Projection.FillTopics | hms2mqtt/src/sources/hms/inverter.rs:62-94 | the header inserts and the two loops fill exactly `Topics` |
| Projection.FillInverters | hms2mqtt/src/sources/hms/inverter.rs:70-79 | the inverter loop inserts every inverter in order |
| Projection.FillPorts | hms2mqtt/src/sources/hms/inverter.rs:81-93 | the port loop inserts every port in order |
| Projection.LastInverter | hms2mqtt/src/sources/hms/inverter.rs:70-79 | the last inverter filed under a tag, or none iff no inverter has that tag |
| Projection.LastPort | hms2mqtt/src/sources/hms/inverter.rs:81-93 | the last port with an id, or none iff no port has it |
| Projection.WithInvertersAt | hms2mqtt/src/sources/hms/inverter.rs:70-79 | after the loop a used tag's keys hold the last such inverter's scaled readings; all other keys are untouched |
| Projection.WithPortsAt | hms2mqtt/src/sources/hms/inverter.rs:81-93 | the same for ports |
| Projection.TopicsMeaning | hms2mqtt/src/sources/hms/inverter.rs:44-95 | the map holds exactly the keys `Expected` gives, with those readings |
| Projection.AddInverterSize | hms2mqtt/src/sources/hms/inverter.rs:76-78 | a new inverter tag adds three entries |
| Projection.AddPortSize | hms2mqtt/src/sources/hms/inverter.rs:88-92 | a new port id adds five entries |
| Projection.WithInvertersSize | hms2mqtt/src/sources/hms/inverter.rs:70-79 | with distinct tags, the inverter loop adds 3 entries per inverter |
| Projection.WithPortsSize | hms2mqtt/src/sources/hms/inverter.rs:81-93 | with distinct port ids, the port loop adds 5 entries per port |
| Projection.LastPortIsNew | hms2mqtt/src/sources/hms/inverter.rs:81-93 | with distinct ids, the last port's keys are not yet in the map |
| Projection.TopicsSize | hms2mqtt/src/sources/hms/inverter.rs:44-95 | with distinct ids the map has 3 + 3·inverters + 5·ports entries |
| Projection.SimpleMqttSize | hms2mqtt/src/simple_mqtt.rs:61-95 | `SimpleMqtt` numbers inverters by position, so only distinct port ids are needed for that count |
| Projection.LaterDuplicateWins | hms2mqtt/src/sources/hms/inverter.rs:70-79 | two inverters with one id share keys, and the later one's readings stay |
| Projection.Render | hms2mqtt/src/sources/hms/inverter.rs:62-92 | every topic lies strictly below `base/` |
| Projection.HeaderNameSlashFree | hms2mqtt/src/sources/hms/inverter.rs:62-68 | header names contain no `/` |
| Projection.InverterFieldNameSlashFree | hms2mqtt/src/sources/hms/inverter.rs:76-78 | inverter field names contain no `/` |
| Projection.PortFieldNameSlashFree | hms2mqtt/src/sources/hms/inverter.rs:88-92 | port field names contain no `/` |
| Projection.InverterBranchInjective | hms2mqtt/src/sources/hms/inverter.rs:74 | distinct tags give distinct `inverter/{id}` (or `inverter_{idx}`) branches |
| Projection.PortBranchInjective | hms2mqtt/src/sources/hms/inverter.rs:87 | distinct port ids give distinct `port/{n}` (or `port_{n}`) branches |
| Projection.HeaderPathApart | hms2mqtt/src/sources/hms/inverter.rs:62-92 | a header topic is never an inverter or port topic |
| Projection.InverterPortApart | hms2mqtt/src/sources/hms/inverter.rs:74-92 | an inverter topic is never a port topic |
| Projection.InverterPathInjective | hms2mqtt/src/sources/hms/inverter.rs:74-78 | inverter topics are equal only for equal tag and field |
| Projection.PortPathInjective | hms2mqtt/src/sources/hms/inverter.rs:87-92 | port topics are equal only for equal id and field |
| Projection.PathInjective | hms2mqtt/src/sources/hms/inverter.rs:62-92 | distinct keys have distinct paths below the base |
| Projection.RenderInjective | hms2mqtt/src/sources/hms/inverter.rs:62-92 | distinct keys render to distinct topics, so the keyed map is the source's string map |
| Projection.SerialSegment | hms2mqtt/src/sources/hms/inverter.rs:54 | the alias when one is configured, else the serial |
| Projection.GetTopicsBase | hms2mqtt/src/sources/hms/inverter.rs:56-60 | `prefix/dtu/S` with a prefix, `dtu/S` without |
| Projection.LegacyBase | hms2mqtt/src/mqtt.rs:46-52 | the older base topic lies under `base_topic/dtu/` |
| Projection.SimpleBase | hms2mqtt/src/simple_mqtt.rs:44 | the simple base lies directly below `base_topic/`, and what follows that prefix is `dtu_sn` |
| Projection.GetTopicsUnderPrefix | hms2mqtt/src/sources/hms/inverter.rs:56-57 | with a prefix, every `get_topics` topic starts with `prefix/dtu/` |
| Projection.ExampleReadings | hms2mqtt/src/sources/hms/inverter.rs:51-92 | a worked record: the divisors 10, 100 and 1 give 123.4, 50.0, 240.0, 1.5, 300.0, 500.0, 120.0 |
| Projection.ExampleKeyCount | hms2mqtt/src/sources/hms/inverter.rs:44-95 | the worked record has eleven topics |
| Projection.ExamplePortTopic | hms2mqtt/src/sources/hms/inverter.rs:87-88 | a worked topic `hms/dtu/roof-east/port/0/voltage` |
| Projection.ExampleIndexTopic | hms2mqtt/src/simple_mqtt.rs:61-65 | `SimpleMqtt` names inverter 7 at position 0 `inverter_0` |
| MqttWrapper.RecordingClient.constructor | hms2mqtt/src/mqtt_wrapper.rs:34 | a new client has recorded nothing |
| MqttWrapper.RecordingClient.Publish | hms2mqtt/src/mqtt_wrapper.rs:29-32 | each call is recorded; it fails iff the broker refuses the topic |
| MqttWrapper.Publications | hms2mqtt/src/targets/mqtt/mqtt.rs:36-46 | one publication per key of the order |
| MqttWrapper.PublicationsAt | hms2mqtt/src/targets/mqtt/mqtt.rs:36-46 | position `i` carries key `order[i]` |
| MqttWrapper.PublicationsExtended | hms2mqtt/src/targets/mqtt/mqtt.rs:36-46 | one more key appends its publication |
| MqttWrapper.ProgressStep | hms2mqtt/src/targets/mqtt/mqtt.rs:36-46 | publishing one remaining key keeps the loop's bookkeeping |
| MqttWrapper.ProgressDone | hms2mqtt/src/targets/mqtt/mqtt.rs:36-46 | when no key remains, the keys published enumerate the map |
| MqttWrapper.PublishEntry | hms2mqtt/src/targets/mqtt/mqtt.rs:39-45 | one loop iteration sends exactly one publication, the entry's, whatever the client answers |
| MqttWrapper.PublishAll | hms2mqtt/src/targets/mqtt/mqtt.rs:36-46 | every entry is published once, in some order, errors do not stop the loop, and nothing else is sent |
| MqttWrapper.PublishedOncePerEntry | hms2mqtt/src/targets/mqtt/mqtt.rs:36-46 | as many publications as entries, all `AtMostOnce` and retained, no topic twice, every entry's topic carries its value |
| MqttWrapper.PublishedUnder | hms2mqtt/src/targets/mqtt/mqtt.rs:33-34 | every publication lies under any prefix of `base/` |
| MqttWrapper.DistinctListCount | hms2mqtt/src/targets/mqtt/mqtt.rs:36-38 | a list of distinct keys holding all the map's keys is as long as the map |
| MqttTarget.Mqtt.constructor | hms2mqtt/src/targets/mqtt/mqtt.rs:20-28 | the target keeps its client and configuration |
| MqttTarget.Mqtt.Publish | hms2mqtt/src/targets/mqtt/mqtt.rs:31-47 | the client receives exactly the `get_topics` map under `base_topic/dtu/S`, one entry per call |
| MqttTarget.BaseUnderPrefix | hms2mqtt/src/targets/mqtt/mqtt.rs:33-34 | the level below the target's base lies under `base_topic/dtu/` |
| MqttTarget.PublishedRecord | hms2mqtt/src/targets/mqtt/mqtt.rs:31-47 | one publish sends as many retained `AtMostOnce` messages as the map has entries, no topic twice, all under `base_topic/dtu/` |
| LegacyPublisher.Mqtt.constructor | hms2mqtt/src/mqtt.rs:22-30 | the publisher keeps its client and configuration |
| LegacyPublisher.Mqtt.Publish | hms2mqtt/src/mqtt.rs:34-112 | the client receives exactly the older map under `base_topic/dtu/S`, one entry per call |
| LegacyPublisher.BaseUnderPrefix | hms2mqtt/src/mqtt.rs:52 | the level below the base lies under `base_topic/dtu/` |
| LegacyPublisher.PublishedRecord | hms2mqtt/src/mqtt.rs:104-111 | one publish: one retained `AtMostOnce` message per entry, no topic twice, all under `base_topic/dtu/` |
| SimplePublisher.SimpleMqtt.constructor | hms2mqtt/src/simple_mqtt.rs:22-28 | the base topic is the configured one, else `hms800wt2` |
| SimplePublisher.SimpleMqtt.Publish | hms2mqtt/src/simple_mqtt.rs:32-104 | the client receives exactly the flat map under `base_topic/dtu_sn`, one entry per call |
| SimplePublisher.PublishedRecord | hms2mqtt/src/simple_mqtt.rs:44-103 | with distinct port ids: 3 + 3·inverters + 5·ports retained `AtMostOnce` messages, no topic twice, all under `base_topic/dtu_sn/` |
| RumqttcWrapper.MatchQos | src/bin/hms-mqtt-publish/rumqttc_wrapper.rs:29-35 | `match_qos` keeps the QoS number |
| RumqttcWrapper.FromClientQos | src/bin/hms-mqtt-publish/rumqttc_wrapper.rs:19-27 | `From` keeps the QoS number |
| RumqttcWrapper.LevelsIdentify | src/bin/hms-mqtt-publish/rumqttc_wrapper.rs:19-35 | a QoS level, on either side, is determined by its number |
| RumqttcWrapper.QosRoundTrip | src/bin/hms-mqtt-publish/rumqttc_wrapper.rs:19-35 | the two conversions are inverse bijections |
| RumqttcWrapper.UseTls | src/bin/hms-mqtt-publish/rumqttc_wrapper.rs:60 | TLS is on iff `tls == Some(true)` |
| RumqttcWrapper.BrokerPort | src/bin/hms-mqtt-publish/rumqttc_wrapper.rs:62-71 | the configured port, else 8883 with TLS, else 1883 |
| RumqttcWrapper.Credentials | src/bin/hms-mqtt-publish/rumqttc_wrapper.rs:91-98 | credentials iff a user name is set; a missing password is empty; a lone password is ignored |
| RumqttcWrapper.StatusTopic | src/bin/hms-mqtt-publish/rumqttc_wrapper.rs:99 | the status topic is the child `status` of the base topic |
| RumqttcWrapper.StatusApartFromMetrics | src/bin/hms-mqtt-publish/rumqttc_wrapper.rs:99 | the status topic is never one of the target's metric topics under the same base |
| RumqttcWrapper.MqttOptions.constructor | src/bin/hms-mqtt-publish/rumqttc_wrapper.rs:62-71 | options start from client id, host and port, without TLS, credentials or will |
| RumqttcWrapper.MqttOptions.SetKeepAlive | src/bin/hms-mqtt-publish/rumqttc_wrapper.rs:72 | sets only the keep-alive |
| RumqttcWrapper.MqttOptions.SetTls | src/bin/hms-mqtt-publish/rumqttc_wrapper.rs:87 | sets only the transport to TLS |
| RumqttcWrapper.MqttOptions.SetCredentials | src/bin/hms-mqtt-publish/rumqttc_wrapper.rs:97 | sets only the credentials |
| RumqttcWrapper.MqttOptions.SetLastWill | src/bin/hms-mqtt-publish/rumqttc_wrapper.rs:101-106 | sets only the last will |
| RumqttcWrapper.Client.constructor | src/bin/hms-mqtt-publish/rumqttc_wrapper.rs:108 | a client holds its options and capacity, with no requests yet |
| RumqttcWrapper.Client.Publish | src/bin/hms-mqtt-publish/rumqttc_wrapper.rs:53-55 | the request is recorded; the library's answer is returned |
| RumqttcWrapper.Client.Subscribe | src/bin/hms-mqtt-publish/rumqttc_wrapper.rs:39 | the request is recorded; the library's answer is returned |
| RumqttcWrapper.RumqttcWrapper.constructor | src/bin/hms-mqtt-publish/rumqttc_wrapper.rs:59-131 | port by the rule, keep-alive 5 s, TLS iff enabled, credentials by the table, last will `offline` ExactlyOnce retained on the status topic, capacity 512, and the birth `online` ExactlyOnce retained as the only request |
| RumqttcWrapper.RumqttcWrapper.Subscribe | src/bin/hms-mqtt-publish/rumqttc_wrapper.rs:38-40 | the client's answer is passed through, with the QoS mapped |
| RumqttcWrapper.RumqttcWrapper.Publish | src/bin/hms-mqtt-publish/rumqttc_wrapper.rs:42-57 | never `Err`: `Ok` iff the client accepts, a panic otherwise |
| RumqttcWrapper.ToPublishEvent | src/bin/hms-mqtt-publish/rumqttc_wrapper.rs:119-125 | an incoming packet becomes an event with the same topic, retain, payload and QoS number |
| RumqttcWrapper.ForwardedQosRoundTrip | src/bin/hms-mqtt-publish/rumqttc_wrapper.rs:119-125 | a packet sent with a QoS comes back as an event with that QoS |
| IntegrationTests.MqttTester.constructor | tests/integration_tests.rs:43-47 | a new tester has an empty buffer |
| IntegrationTests.MqttTester.IsEmpty | tests/integration_tests.rs:17-20 | `is_empty` iff nothing is stored |
| IntegrationTests.MqttTester.Subscribe | tests/integration_tests.rs:24-26 | `subscribe` always succeeds and stores nothing |
| IntegrationTests.MqttTester.Publish | tests/integration_tests.rs:28-41 | `publish` appends exactly the pair, so `len` grows by one and the tester is no longer empty, and always succeeds |
| IntegrationTests.PublishOneMessage | tests/integration_tests.rs:50-70 | after one publish on a fresh tester: ok, not empty, length 1 |

## Left out

- `HmsProtocol.ReadLength`: a reply split across TCP segments is not reassembled. The source makes one `read` call, and `Received(data)` is taken to be what that call delivers.
- `HmsProtocol.LengthField`: models the wrap of `len as u16 + 10u16` in a release build. A debug build panics on that overflow for bodies of 65526 bytes or more; that panic is not modelled.
- Network I/O is not modelled. DNS resolution, the TCP connection, the timeouts and the socket calls are the `Exchange` value.
- The 500 ms connect timeout and the 5 s read and write timeouts are not modelled; a timeout shows up as the matching error.
- Failing to set a timeout does not change the model: the source only logs it.
- Protobuf encoding and decoding are not modelled. `write_to_bytes` of the default request is taken to be empty, and decoding is the `Parser` parameter.
- Log output other than the `Inverter is {state}` event is not modelled (`debug!`, `error!`, `warn!`). The state event is the ghost `events` log.
- `HMSInverter`'s host string is kept but never resolved.
- `f32` arithmetic and formatting are not modelled: readings are exact rationals, and the payload is the `Reading` before `to_string()`. For example, `self.time as f32` in `get_topics` rounds a present-day epoch time; the model keeps it exact.
- The chrono local-time formatting in `mqtt.rs` and `simple_mqtt.rs` is not modelled: the value is `LocalTime(epoch seconds)`.
- `MqttWrapper.Publications`: the payload is the unformatted `Reading`, not the string or bytes the client receives, because float and date formatting are outside the model.
- The topic map is keyed by `Key`, not by `String`. `Projection.RenderInjective` shows the two maps have the same entries; `HashMap` hashing is not modelled.
- `MqttTarget.Mqtt`, `LegacyPublisher.Mqtt` and `SimplePublisher.SimpleMqtt` receive their client instead of creating one with `MQTT::new`.
- The `"-sm"` argument and the channel that `MQTT::new` is given are not modelled.
- Threads and channels are not modelled: the event-loop thread, the `mpsc` sender, `connection.iter().flatten()` and `pub_tx.send(...).unwrap()`. Only the packet-to-event conversion is modelled.
- Loading the TLS root certificates (`load_native_certs`, `RootCertStore`, `ClientConfig`) is not modelled. TLS is the `tls` flag on the options.
- The broker's answer is not modelled: whether rumqttc accepts a request is a parameter (`accepted`, `birthAccepted`), and the 512-request queue is not simulated.
- rumqttc's default keep-alive before `set_keep_alive` is taken as 60 seconds (`LibraryKeepAliveSeconds`); the wrapper always overrides it with 5.
- `main.rs` is not part of this model, nor are the configuration file parsing and the random default client id of `mqtt_config.rs`. The configuration is the `MqttConfig` value.
- `MqttWrapper.RecordingClient`: the library's `MqttWrapper` trait is a class that records calls, since traits are outside the model. `RumqttcWrapper` and `MqttTester` are its two implementations, each modelled on its own.
- `FakeSource.FakeInverter.SetState` has no contract: `set_state` does nothing, so there is nothing to state.
- The integer widths of the protobuf fields (`u32`/`i32`) are not enforced on `RealData`. The projection only divides them.

## Differences between the source versions

The core files come from two generations of the library, and they disagree on configuration fields:

- `simple_mqtt.rs:26` (hms2mqtt/src/simple_mqtt.rs:26) treats `base_topic` as an `Option` with default `hms800wt2`. The `MqttConfig` of `mqtt_config.rs` has it as a `String` with the same serde default. The model follows `simple_mqtt.rs`: the constructor takes an optional base topic.
- `mqtt.rs` reads `serial_alias` (hms2mqtt/src/mqtt.rs:46-50) and `targets/mqtt/mqtt.rs` reads `serial_aliases` (hms2mqtt/src/targets/mqtt/mqtt.rs:33-34). Each is modelled as a map field of its own publisher.
- The older `update_state` in `inverter.rs` advances the counter before `send_request`; the newer one advances it inside `send_request`. `LegacySource.CopiesAgree` shows that callers of `update_state` see no difference.

## Findings

| source | as written | input that shows it | evidently intended | confidence | as-written member | corrected member |
|---|---|---|---|---|---|---|
| hms2mqtt/src/sources/hms/inverter.rs:166-167 | `&buf[10..read_length]` with no check of `read_length` | a reply of fewer than 10 bytes, e.g. a peer that closes the connection at once (0 bytes read) | treat a short reply like an undecodable one: `Offline`, no record | not executed | HmsProtocol.ShortReadPanicsAsWritten | HmsProtocol.ResponseBody |
| hms2mqtt/src/inverter.rs:127-128 | the same slice in the older copy | a 0-byte read | the same | not executed | HmsProtocol.ClosedConnectionPanicsAsWritten | HmsProtocol.Classify |

The rest of the model uses the corrected behaviour:

- `HmsSource.HmsInverter.SendRequest` and `LegacySource.HmsInverter.SendRequest` set `Offline` and return nothing on a short read.
- `HmsProtocol.ResponseBodyAgreesWhenLongEnough` proves that the correction differs from the source only on the inputs where the source panics.
