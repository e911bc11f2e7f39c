/**
 * The MQTT client interface the publishers talk to (`MqttWrapper`), and the
 * publish loop the three publishers share: every entry of the topic map goes
 * out once, with QoS `AtMostOnce` and the retain flag set, and an error from
 * the client is only logged.
 */
module MqttWrapper {
  import opened Wrappers
  import opened Text
  import opened Projection

  datatype QoS = AtMostOnce | AtLeastOnce | ExactlyOnce

  /** One `publish` call as the client receives it; the payload is the reading before it is formatted as text. */
  datatype Publication = Publication(topic: string, qos: QoS, retain: bool, payload: Reading)

  /**
   * A client seen through its `publish` calls.  The broker refuses the topics
   * in `refused` (the call returns an error); each call is recorded either way.
   */
  class RecordingClient {
    const refused: set<string>
    var calls: seq<Publication>

    constructor(refused: set<string>)
      ensures this.refused == refused && calls == []
    {
      this.refused := refused;
      calls := [];
    }

    method Publish(topic: string, qos: QoS, retain: bool, payload: Reading) returns (result: Outcome)
      modifies this
      ensures calls == old(calls) + [Publication(topic, qos, retain, payload)]
      ensures result == Fail <==> topic in refused
    {
      calls := calls + [Publication(topic, qos, retain, payload)];
      result := if topic in refused then Fail else Pass;
    }
  }

  /** `order` lists every key of the map exactly once. */
  ghost predicate Enumerates(order: seq<Key>, pairs: map<Key, Reading>)
  {
    && (forall i, j :: 0 <= i < j < |order| ==> order[i] != order[j])
    && (forall k :: k in pairs <==> k in order)
  }

  /** The publication that carries the entry of key `k`: its rendered topic, `AtMostOnce`, retained. */
  function Entry(base: string, p: Publisher, pairs: map<Key, Reading>, k: Key): Publication
    requires k in pairs
  {
    Publication(Render(base, p, k), AtMostOnce, true, pairs[k])
  }

  /** The publications for the keys of `order`, in that order. */
  function Publications(base: string, p: Publisher, pairs: map<Key, Reading>, order: seq<Key>): (pubs: seq<Publication>)
    requires forall j :: 0 <= j < |order| ==> order[j] in pairs
    ensures |pubs| == |order|
  {
    seq(|order|, i requires 0 <= i < |order| => Entry(base, p, pairs, order[i]))
  }

  /** The publication at position `i` carries the key `order[i]`. */
  lemma PublicationsAt(base: string, p: Publisher, pairs: map<Key, Reading>, order: seq<Key>)
    requires forall j :: 0 <= j < |order| ==> order[j] in pairs
    ensures forall i :: 0 <= i < |order| ==> Publications(base, p, pairs, order)[i] == Entry(base, p, pairs, order[i])
  {
  }

  /** Publishing one more key appends its publication. */
  lemma PublicationsExtended(base: string, p: Publisher, pairs: map<Key, Reading>, order: seq<Key>, k: Key)
    requires forall j :: 0 <= j < |order| ==> order[j] in pairs
    requires k in pairs
    ensures Publications(base, p, pairs, order + [k]) == Publications(base, p, pairs, order) + [Entry(base, p, pairs, k)]
  {
    var longer := order + [k];
    assert forall j :: 0 <= j < |order| ==> longer[j] == order[j];
  }

  /**
   * Loop bookkeeping of a publish loop: `order` lists the keys already
   * published, each once, and `remaining` holds exactly the others.
   */
  ghost predicate Progress(pairs: map<Key, Reading>, remaining: set<Key>, order: seq<Key>)
  {
    && remaining <= pairs.Keys
    && (forall k :: k in pairs ==> (k in remaining <==> k !in order))
    && (forall j :: 0 <= j < |order| ==> order[j] in pairs)
    && (forall i, j :: 0 <= i < j < |order| ==> order[i] != order[j])
  }

  /** Publishing one remaining key keeps the bookkeeping. */
  lemma ProgressStep(pairs: map<Key, Reading>, remaining: set<Key>, order: seq<Key>, k: Key)
    requires Progress(pairs, remaining, order)
    requires k in remaining
    ensures Progress(pairs, remaining - {k}, order + [k])
  {
    var longer := order + [k];
    assert forall j :: 0 <= j < |order| ==> longer[j] == order[j];
  }

  /** Once nothing remains, `order` enumerates the map. */
  lemma ProgressDone(pairs: map<Key, Reading>, order: seq<Key>)
    requires Progress(pairs, {}, order)
    ensures Enumerates(order, pairs)
  {
  }

  /** One iteration of a publish loop: the entry of `k` goes out, and its result is only logged. */
  method PublishEntry(client: RecordingClient, base: string, p: Publisher, pairs: map<Key, Reading>, k: Key)
    requires k in pairs
    modifies client
    ensures client.calls == old(client.calls) + [Entry(base, p, pairs, k)]
  {
    var pub := Entry(base, p, pairs, k);
    var result := client.Publish(pub.topic, pub.qos, pub.retain, pub.payload);
  }

  /**
   * Publish every entry of `pairs` under `base`.  The keys come out in an
   * unspecified order (a `HashMap` iteration); a failed call does not stop
   * the loop.
   */
  method PublishAll(client: RecordingClient, base: string, p: Publisher, pairs: map<Key, Reading>)
    returns (ghost order: seq<Key>)
    modifies client
    ensures Enumerates(order, pairs)
    ensures client.calls == old(client.calls) + Publications(base, p, pairs, order)
  {
    ghost var start := client.calls;
    var remaining := pairs.Keys;
    order := [];
    while remaining != {}
      invariant Progress(pairs, remaining, order)
      invariant client.calls == start + Publications(base, p, pairs, order)
      decreases remaining
    {
      var k :| k in remaining;
      PublishEntry(client, base, p, pairs, k);
      PublicationsExtended(base, p, pairs, order, k);
      ProgressStep(pairs, remaining, order, k);
      order, remaining := order + [k], remaining - {k};
      assert client.calls == start + Publications(base, p, pairs, order);
    }
    ProgressDone(pairs, order);
  }

  /**
   * What a publish loop over `pairs` sends: one publication per key, so as
   * many as the map has entries, each with `AtMostOnce` and retain, no topic
   * twice, and every key's rendered topic carrying its reading.
   */
  lemma PublishedOncePerEntry(base: string, p: Publisher, pairs: map<Key, Reading>, order: seq<Key>)
    requires Enumerates(order, pairs)
    ensures var pubs := Publications(base, p, pairs, order);
      && |pubs| == |pairs|
      && (forall i :: 0 <= i < |pubs| ==> pubs[i].qos == AtMostOnce && pubs[i].retain)
      && (forall i, j :: 0 <= i < j < |pubs| ==> pubs[i].topic != pubs[j].topic)
      && (forall k :: k in pairs ==> exists i :: 0 <= i < |pubs| && pubs[i].topic == Render(base, p, k) && pubs[i].payload == pairs[k])
  {
    var pubs := Publications(base, p, pairs, order);
    PublicationsAt(base, p, pairs, order);
    forall i, j | 0 <= i < j < |pubs|
      ensures pubs[i].topic != pubs[j].topic
    {
      if pubs[i].topic == pubs[j].topic {
        RenderInjective(base, p, order[i], order[j]);
      }
    }
    forall k | k in pairs
      ensures exists i :: 0 <= i < |pubs| && pubs[i].topic == Render(base, p, k) && pubs[i].payload == pairs[k]
    {
      var i :| 0 <= i < |order| && order[i] == k;
      assert pubs[i].topic == Render(base, p, k);
    }
    DistinctListCount(order, pairs);
  }

  /** Every publication lies below any prefix of `base/`, the level its topics are rendered under. */
  lemma PublishedUnder(prefix: string, base: string, p: Publisher, pairs: map<Key, Reading>, order: seq<Key>)
    requires forall j :: 0 <= j < |order| ==> order[j] in pairs
    requires HasPrefix(prefix, base + "/")
    ensures forall i :: 0 <= i < |order| ==> HasPrefix(prefix, Publications(base, p, pairs, order)[i].topic)
  {
    var pubs := Publications(base, p, pairs, order);
    PublicationsAt(base, p, pairs, order);
    forall i | 0 <= i < |order|
      ensures HasPrefix(prefix, pubs[i].topic)
    {
      PrefixTransitive(prefix, base + "/", pubs[i].topic);
    }
  }

  /** A list of distinct keys that holds exactly the keys of the map is as long as the map. */
  lemma {:induction false} DistinctListCount(order: seq<Key>, pairs: map<Key, Reading>)
    requires Enumerates(order, pairs)
    ensures |order| == |pairs|
    decreases |order|
  {
    if order == [] {
      assert pairs.Keys == {};
    } else {
      var n := |order| - 1;
      var k := order[n];
      var rest := map q | q in pairs && q != k :: pairs[q];
      forall i, j | 0 <= i < j < n
        ensures order[..n][i] != order[..n][j]
      {
        assert order[..n][i] == order[i] && order[..n][j] == order[j];
      }
      forall q
        ensures q in rest <==> q in order[..n]
      {
        if q in order[..n] {
          var i :| 0 <= i < n && order[..n][i] == q;
          assert order[i] == q;
        }
        if q in order && q != k {
          var i :| 0 <= i < |order| && order[i] == q;
          assert i != n;
          assert order[..n][i] == q;
        }
      }
      DistinctListCount(order[..n], rest);
      assert pairs.Keys == rest.Keys + {k};
    }
  }
}
