/**
 * `Mqtt` of `mqtt.rs`: the metric collector of the older tree.  It builds its
 * own topic map under `base_topic/dtu/S` (`S` the serial or its alias), with
 * the inverters keyed by id and the local time as a clock reading, and
 * publishes every entry, retained, at most once, ignoring client errors.
 */
module LegacyPublisher {
  import opened Wrappers
  import opened Text
  import opened RealData
  import opened Projection
  import opened MqttWrapper

  class Mqtt {
    const client: RecordingClient
    const baseTopic: string
    const serialAlias: map<string, string>

    constructor(client: RecordingClient, baseTopic: string, serialAlias: map<string, string>)
      ensures this.client == client && this.baseTopic == baseTopic && this.serialAlias == serialAlias
    {
      this.client := client;
      this.baseTopic := baseTopic;
      this.serialAlias := serialAlias;
    }

    /** `publish`: the record's topic map, one call per entry and nothing else. */
    method Publish(r: HmsStateResponse) returns (ghost order: seq<Key>)
      modifies client
      ensures Enumerates(order, Topics(LegacyMqtt, r))
      ensures client.calls == old(client.calls) + Publications(LegacyBase(baseTopic, serialAlias, r.dtuSn), LegacyMqtt, Topics(LegacyMqtt, r), order)
    {
      var pairs := FillTopics(LegacyMqtt, r);
      order := PublishAll(client, LegacyBase(baseTopic, serialAlias, r.dtuSn), LegacyMqtt, pairs);
    }
  }

  /** The level below the base lies under `base_topic/dtu/`. */
  lemma BaseUnderPrefix(baseTopic: string, aliases: map<string, string>, sn: string)
    ensures HasPrefix(baseTopic + "/dtu/", LegacyBase(baseTopic, aliases, sn) + "/")
  {
    var base := LegacyBase(baseTopic, aliases, sn);
    assert (base + "/")[..|baseTopic| + 5] == base[..|baseTopic| + 5];
  }

  /**
   * What one `publish` of a record sends: as many retained, at-most-once
   * publications as the map has entries, no topic twice, all under
   * `base_topic/dtu/`.
   */
  lemma PublishedRecord(baseTopic: string, aliases: map<string, string>, r: HmsStateResponse, order: seq<Key>)
    requires Enumerates(order, Topics(LegacyMqtt, r))
    ensures var pubs := Publications(LegacyBase(baseTopic, aliases, r.dtuSn), LegacyMqtt, Topics(LegacyMqtt, r), order);
      && |pubs| == |Topics(LegacyMqtt, r)|
      && (forall i :: 0 <= i < |pubs| ==> pubs[i].qos == AtMostOnce && pubs[i].retain)
      && (forall i, j :: 0 <= i < j < |pubs| ==> pubs[i].topic != pubs[j].topic)
      && (forall i :: 0 <= i < |pubs| ==> HasPrefix(baseTopic + "/dtu/", pubs[i].topic))
  {
    var base := LegacyBase(baseTopic, aliases, r.dtuSn);
    var pubs := Publications(base, LegacyMqtt, Topics(LegacyMqtt, r), order);
    PublishedOncePerEntry(base, LegacyMqtt, Topics(LegacyMqtt, r), order);
    BaseUnderPrefix(baseTopic, aliases, r.dtuSn);
    PublishedUnder(baseTopic + "/dtu/", base, LegacyMqtt, Topics(LegacyMqtt, r), order);
  }
}
