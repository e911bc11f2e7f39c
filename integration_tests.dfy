/**
 * `MqttTester` of the integration tests: an `MqttWrapper` that keeps every
 * published `(topic, payload)` pair in memory, and the `publish_one_message`
 * test that drives it.
 */
module IntegrationTests {
  import opened Wrappers
  import opened Bytes
  import opened MqttWrapper
  import opened RumqttcWrapper

  class MqttTester {
    var publishedValues: seq<(string, seq<byte>)>

    /** `new`: the configuration is ignored; the buffer starts empty. */
    constructor(config: MqttConfig)
      ensures publishedValues == []
    {
      publishedValues := [];
    }

    /** `len`: the number of stored pairs. */
    function Len(): nat
      reads this
    {
      |publishedValues|
    }

    /** `is_empty`: no pair stored yet. */
    predicate IsEmpty(): (empty: bool)
      reads this
      ensures empty <==> publishedValues == []
    {
      Len() == 0
    }

    /** `subscribe`: always succeeds and stores nothing. */
    method Subscribe(topic: string, qos: QoS) returns (result: Outcome)
      ensures result == Pass
    {
      result := Pass;
    }

    /** `publish`: the pair goes on the end of the buffer; QoS and retain are ignored. */
    method Publish(topic: string, qos: QoS, retain: bool, payload: seq<byte>) returns (result: Outcome)
      modifies this
      ensures publishedValues == old(publishedValues) + [(topic, payload)]
      ensures Len() == old(Len()) + 1 && !IsEmpty()
      ensures result == Pass
    {
      publishedValues := publishedValues + [(topic, payload)];
      result := Pass;
    }
  }

  /** `Hooray` in ASCII. */
  const Hooray: seq<byte> := [0x48, 0x6F, 0x6F, 0x72, 0x61, 0x79]

  /** `publish_one_message`: one publish on a fresh tester succeeds and leaves exactly one pair. */
  method PublishOneMessage() returns (ok: bool, empty: bool, len: nat)
    ensures ok && !empty && len == 1
  {
    var config := MqttConfig("frob", Some(1234), None, None, None, "hms", "hms_test");
    var mqtt := new MqttTester(config);
    var result := mqtt.Publish("hms/foo", AtMostOnce, true, Hooray);
    ok := result == Pass;
    empty := mqtt.IsEmpty();
    len := mqtt.Len();
  }
}
