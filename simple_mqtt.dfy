/**
 * `SimpleMqtt` of `simple_mqtt.rs`: the flat publisher.  The base topic falls
 * back to `hms800wt2` when none is configured; topics sit under
 * `base_topic/dtu_sn` with no alias, inverters are numbered by position
 * (`inverter_{idx}`) and ports by their number (`port_{pv_port}`).
 */
module SimplePublisher {
  import opened Wrappers
  import opened Text
  import opened RealData
  import opened Projection
  import opened MqttWrapper

  const DefaultBaseTopic := "hms800wt2"

  class SimpleMqtt {
    const client: RecordingClient
    const baseTopic: string

    /** `new`: the configured base topic, else the default. */
    constructor(client: RecordingClient, configuredBase: Option<string>)
      ensures this.client == client
      ensures configuredBase.Some? ==> baseTopic == configuredBase.value
      ensures configuredBase.None? ==> baseTopic == DefaultBaseTopic
    {
      this.client := client;
      baseTopic := configuredBase.GetOr(DefaultBaseTopic);
    }

    /** `publish`: the record's flat topic map, one call per entry and nothing else. */
    method Publish(r: HmsStateResponse) returns (ghost order: seq<Key>)
      modifies client
      ensures Enumerates(order, Topics(Projection.SimpleMqtt, r))
      ensures client.calls == old(client.calls) + Publications(SimpleBase(baseTopic, r.dtuSn), Projection.SimpleMqtt, Topics(Projection.SimpleMqtt, r), order)
    {
      var pairs := FillTopics(Projection.SimpleMqtt, r);
      order := PublishAll(client, SimpleBase(baseTopic, r.dtuSn), Projection.SimpleMqtt, pairs);
    }
  }

  /**
   * What one `publish` of a record sends: with distinct port numbers, three
   * topics for the header, three per inverter and five per port, each
   * retained at most once, no topic twice, all under `base_topic/dtu_sn/`.
   */
  lemma PublishedRecord(baseTopic: string, r: HmsStateResponse, order: seq<Key>)
    requires Enumerates(order, Topics(Projection.SimpleMqtt, r))
    requires DistinctPorts(r.portState)
    ensures var pubs := Publications(SimpleBase(baseTopic, r.dtuSn), Projection.SimpleMqtt, Topics(Projection.SimpleMqtt, r), order);
      && |pubs| == 3 + 3 * |r.inverterState| + 5 * |r.portState|
      && (forall i :: 0 <= i < |pubs| ==> pubs[i].qos == AtMostOnce && pubs[i].retain)
      && (forall i, j :: 0 <= i < j < |pubs| ==> pubs[i].topic != pubs[j].topic)
      && (forall i :: 0 <= i < |pubs| ==> HasPrefix(Child(baseTopic, r.dtuSn) + "/", pubs[i].topic))
  {
    var base := SimpleBase(baseTopic, r.dtuSn);
    var pubs := Publications(base, Projection.SimpleMqtt, Topics(Projection.SimpleMqtt, r), order);
    PublishedOncePerEntry(base, Projection.SimpleMqtt, Topics(Projection.SimpleMqtt, r), order);
    PublishedUnder(base + "/", base, Projection.SimpleMqtt, Topics(Projection.SimpleMqtt, r), order);
    SimpleMqttSize(r);
  }
}
