/**
 * `Mqtt` of `targets/mqtt/mqtt.rs`: the metric publisher of the newer tree.
 * It asks the record for its `get_topics` map under the configured base
 * topic and serial aliases and publishes every entry, retained, at most
 * once, ignoring client errors.
 */
module MqttTarget {
  import opened Wrappers
  import opened Text
  import opened RealData
  import opened Projection
  import opened MqttWrapper

  class Mqtt {
    const client: RecordingClient
    const baseTopic: string
    const serialAliases: map<string, string>

    constructor(client: RecordingClient, baseTopic: string, serialAliases: map<string, string>)
      ensures this.client == client && this.baseTopic == baseTopic && this.serialAliases == serialAliases
    {
      this.client := client;
      this.baseTopic := baseTopic;
      this.serialAliases := serialAliases;
    }

    /**
     * `publish`: one call per `get_topics` entry, in the map's iteration
     * order, and nothing else sent.
     */
    method Publish(r: HmsStateResponse) returns (ghost order: seq<Key>)
      modifies client
      ensures Enumerates(order, Topics(GetTopics, r))
      ensures client.calls == old(client.calls) + Publications(GetTopicsBase(Some(baseTopic), serialAliases, r.dtuSn), GetTopics, Topics(GetTopics, r), order)
    {
      var pairs := FillTopics(GetTopics, r);
      order := PublishAll(client, GetTopicsBase(Some(baseTopic), serialAliases, r.dtuSn), GetTopics, pairs);
    }
  }

  /** The level below a configured base lies under `base_topic/dtu/`. */
  lemma BaseUnderPrefix(baseTopic: string, aliases: map<string, string>, sn: string)
    ensures HasPrefix(baseTopic + "/dtu/", GetTopicsBase(Some(baseTopic), aliases, sn) + "/")
  {
    var base := GetTopicsBase(Some(baseTopic), aliases, sn);
    assert (base + "/")[..|baseTopic| + 5] == base[..|baseTopic| + 5];
  }

  /**
   * What one `publish` of a record sends: as many retained, at-most-once
   * publications as the record has topics, no topic twice, all of them
   * under `base_topic/dtu/`.
   */
  lemma PublishedRecord(baseTopic: string, aliases: map<string, string>, r: HmsStateResponse, order: seq<Key>)
    requires Enumerates(order, Topics(GetTopics, r))
    ensures var pubs := Publications(GetTopicsBase(Some(baseTopic), aliases, r.dtuSn), GetTopics, Topics(GetTopics, r), order);
      && |pubs| == |Topics(GetTopics, r)|
      && (forall i :: 0 <= i < |pubs| ==> pubs[i].qos == AtMostOnce && pubs[i].retain)
      && (forall i, j :: 0 <= i < j < |pubs| ==> pubs[i].topic != pubs[j].topic)
      && (forall i :: 0 <= i < |pubs| ==> HasPrefix(baseTopic + "/dtu/", pubs[i].topic))
  {
    var base := GetTopicsBase(Some(baseTopic), aliases, r.dtuSn);
    var pubs := Publications(base, GetTopics, Topics(GetTopics, r), order);
    PublishedOncePerEntry(base, GetTopics, Topics(GetTopics, r), order);
    BaseUnderPrefix(baseTopic, aliases, r.dtuSn);
    PublishedUnder(baseTopic + "/dtu/", base, GetTopics, Topics(GetTopics, r), order);
  }
}
