/**
 * `RumqttcWrapper` of the `hms-mqtt-publish` binary: the adapter from the
 * library's `MqttWrapper` interface to the rumqttc client.  It maps QoS
 * levels both ways, picks the broker port, decides whether to send
 * credentials, and registers the `status` topic as last will (`offline`) and
 * birth message (`online`).
 *
 * The rumqttc client is modelled by the requests it is handed; whether the
 * library accepts a request is a parameter.
 */
module RumqttcWrapper {
  import opened Wrappers
  import opened Bytes
  import opened Text
  import opened RealData
  import opened Projection
  import opened MqttWrapper

  /** rumqttc's own QoS enum. */
  datatype ClientQoS = ClientAtMostOnce | ClientAtLeastOnce | ClientExactlyOnce

  /** The QoS number MQTT puts on the wire (0, 1 or 2; section 4.3 of MQTT 3.1.1). */
  function Level(q: QoS): nat
  {
    match q
    case AtMostOnce => 0
    case AtLeastOnce => 1
    case ExactlyOnce => 2
  }

  function ClientLevel(c: ClientQoS): nat
  {
    match c
    case ClientAtMostOnce => 0
    case ClientAtLeastOnce => 1
    case ClientExactlyOnce => 2
  }

  /** `match_qos`: the rumqttc level with the same number. */
  function MatchQos(q: QoS): (c: ClientQoS)
    ensures ClientLevel(c) == Level(q)
  {
    match q
    case AtMostOnce => ClientAtMostOnce
    case AtLeastOnce => ClientAtLeastOnce
    case ExactlyOnce => ClientExactlyOnce
  }

  /** `From<RumqttcQosWrapper>`: the interface level with the same number. */
  function FromClientQos(c: ClientQoS): (q: QoS)
    ensures Level(q) == ClientLevel(c)
  {
    match c
    case ClientAtMostOnce => AtMostOnce
    case ClientAtLeastOnce => AtLeastOnce
    case ClientExactlyOnce => ExactlyOnce
  }

  /** A level is determined by its number, on either side. */
  lemma LevelsIdentify(q1: QoS, q2: QoS, c1: ClientQoS, c2: ClientQoS)
    ensures Level(q1) == Level(q2) ==> q1 == q2
    ensures ClientLevel(c1) == ClientLevel(c2) ==> c1 == c2
  {
  }

  /** The two conversions are inverse bijections. */
  lemma QosRoundTrip(q: QoS, c: ClientQoS)
    ensures FromClientQos(MatchQos(q)) == q
    ensures MatchQos(FromClientQos(c)) == c
  {
    LevelsIdentify(FromClientQos(MatchQos(q)), q, MatchQos(FromClientQos(c)), c);
  }

  // ---------------------------------------------------------------------------
  // Connection settings.

  /** The broker settings of `mqtt_config.rs`. */
  datatype MqttConfig = MqttConfig(
    host: string,
    port: Option<uint16>,
    username: Option<string>,
    password: Option<string>,
    tls: Option<bool>,
    baseTopic: string,
    clientId: string)

  const TlsPort: uint16 := 8883
  const PlainPort: uint16 := 1883
  const KeepAliveSeconds: nat := 5
  const RequestCapacity: nat := 512
  /** rumqttc's keep-alive before `set_keep_alive` overrides it. */
  const LibraryKeepAliveSeconds: nat := 60
  const OfflineMessage := "offline"
  const OnlineMessage := "online"

  /** `tls.is_some_and(|tls| tls)`: an unset flag means no TLS. */
  function UseTls(tls: Option<bool>): (on: bool)
    ensures on <==> tls == Some(true)
  {
    match tls
    case Some(flag) => flag
    case None => false
  }

  /** The configured port, else 8883 with TLS and 1883 without. */
  function BrokerPort(config: MqttConfig): (port: uint16)
    ensures config.port.Some? ==> port == config.port.value
    ensures config.port.None? && UseTls(config.tls) ==> port == TlsPort
    ensures config.port.None? && !UseTls(config.tls) ==> port == PlainPort
  {
    config.port.GetOr(if UseTls(config.tls) then TlsPort else PlainPort)
  }

  /** The credential table: a user name is needed; a missing password is empty. */
  function Credentials(username: Option<string>, password: Option<string>): (c: Option<(string, string)>)
    ensures c.Some? <==> username.Some?
    ensures c.Some? ==> c.value.0 == username.value
    ensures c.Some? && password.Some? ==> c.value.1 == password.value
    ensures c.Some? && password.None? ==> c.value.1 == ""
  {
    match (username, password)
    case (None, None) => None
    case (None, Some(_)) => None
    case (Some(user), None) => Some((user, ""))
    case (Some(user), Some(pass)) => Some((user, pass))
  }

  /** `{base_topic}/status`: the child `status` of the base topic. */
  function StatusTopic(baseTopic: string): (topic: string)
    ensures HasPrefix(baseTopic + "/", topic) && topic[|baseTopic| + 1..] == "status"
  {
    assert (baseTopic + "/status")[..|baseTopic| + 1] == baseTopic + "/";
    baseTopic + "/status"
  }

  /**
   * The status topic is never one of the metric topics `Mqtt` publishes
   * under the same base topic: those continue with `dtu/`.
   */
  lemma StatusApartFromMetrics(baseTopic: string, aliases: map<string, string>, sn: string, k: Key)
    ensures StatusTopic(baseTopic) != Render(GetTopicsBase(Some(baseTopic), aliases, sn), GetTopics, k)
  {
    var base := GetTopicsBase(Some(baseTopic), aliases, sn);
    var t := Render(base, GetTopics, k);
    var s := StatusTopic(baseTopic);
    assert t[..|base|] == base;
    assert base[..|baseTopic| + 5] == baseTopic + "/dtu/";
    assert t[|baseTopic| + 1] == base[|baseTopic| + 1] == 'd';
    assert s[|baseTopic| + 1] == 's';
  }

  // ---------------------------------------------------------------------------
  // The client as the wrapper drives it.

  datatype LastWill = LastWill(topic: string, message: string, qos: ClientQoS, retain: bool)

  /** rumqttc's `MqttOptions`, filled in setter by setter. */
  class MqttOptions {
    const clientId: string
    const host: string
    const port: uint16
    var keepAlive: nat
    var tls: bool
    var credentials: Option<(string, string)>
    var lastWill: Option<LastWill>

    constructor(clientId: string, host: string, port: uint16)
      ensures this.clientId == clientId && this.host == host && this.port == port
      ensures keepAlive == LibraryKeepAliveSeconds && !tls
      ensures credentials == None && lastWill == None
    {
      this.clientId := clientId;
      this.host := host;
      this.port := port;
      keepAlive := LibraryKeepAliveSeconds;
      tls := false;
      credentials := None;
      lastWill := None;
    }

    method SetKeepAlive(seconds: nat)
      modifies this
      ensures keepAlive == seconds
      ensures tls == old(tls) && credentials == old(credentials) && lastWill == old(lastWill)
    {
      keepAlive := seconds;
    }

    method SetTls()
      modifies this
      ensures tls
      ensures keepAlive == old(keepAlive) && credentials == old(credentials) && lastWill == old(lastWill)
    {
      tls := true;
    }

    method SetCredentials(username: string, password: string)
      modifies this
      ensures credentials == Some((username, password))
      ensures keepAlive == old(keepAlive) && tls == old(tls) && lastWill == old(lastWill)
    {
      credentials := Some((username, password));
    }

    method SetLastWill(will: LastWill)
      modifies this
      ensures lastWill == Some(will)
      ensures keepAlive == old(keepAlive) && tls == old(tls) && credentials == old(credentials)
    {
      lastWill := Some(will);
    }
  }

  /** A request handed to the rumqttc client. */
  datatype ClientRequest =
    | PublishRequest(topic: string, qos: ClientQoS, retain: bool, payload: string)
    | SubscribeRequest(topic: string, qos: ClientQoS)

  /** The rumqttc `Client`: its options, its request capacity and the requests it was handed. */
  class Client {
    const options: MqttOptions
    const capacity: nat
    var requests: seq<ClientRequest>

    constructor(options: MqttOptions, capacity: nat)
      ensures this.options == options && this.capacity == capacity && requests == []
    {
      this.options := options;
      this.capacity := capacity;
      requests := [];
    }

    /** Hand over a publish request; `accepted` is the library's answer. */
    method Publish(topic: string, qos: ClientQoS, retain: bool, payload: string, accepted: bool) returns (ok: bool)
      modifies this
      ensures requests == old(requests) + [PublishRequest(topic, qos, retain, payload)]
      ensures ok == accepted
    {
      requests := requests + [PublishRequest(topic, qos, retain, payload)];
      ok := accepted;
    }

    /** Hand over a subscribe request; `accepted` is the library's answer. */
    method Subscribe(topic: string, qos: ClientQoS, accepted: bool) returns (ok: bool)
      modifies this
      ensures requests == old(requests) + [SubscribeRequest(topic, qos)]
      ensures ok == accepted
    {
      requests := requests + [SubscribeRequest(topic, qos)];
      ok := accepted;
    }
  }

  /** What a wrapper call returns to its caller, or that the process panicked. */
  datatype CallOutcome = Ok | Err | Panicked

  class RumqttcWrapper {
    const client: Client

    /**
     * `new`: options from the configuration (port rule, keep-alive of five
     * seconds, TLS only when switched on, credentials by the table, last
     * will `offline` on the status topic), a client with capacity 512, and
     * the birth message `online` on the status topic, its result ignored.
     */
    constructor(config: MqttConfig, birthAccepted: bool)
      ensures fresh(client) && fresh(client.options)
      ensures client.options.clientId == config.clientId && client.options.host == config.host
      ensures client.options.port == BrokerPort(config)
      ensures client.options.keepAlive == KeepAliveSeconds
      ensures client.options.tls == UseTls(config.tls)
      ensures client.options.credentials == Credentials(config.username, config.password)
      ensures client.options.lastWill == Some(LastWill(StatusTopic(config.baseTopic), OfflineMessage, ClientExactlyOnce, true))
      ensures client.capacity == RequestCapacity
      ensures client.requests == [PublishRequest(StatusTopic(config.baseTopic), ClientExactlyOnce, true, OnlineMessage)]
    {
      var useTls := UseTls(config.tls);
      var options := new MqttOptions(config.clientId, config.host, BrokerPort(config));
      options.SetKeepAlive(KeepAliveSeconds);
      if useTls {
        options.SetTls();
      }
      match Credentials(config.username, config.password) {
        case Some((username, password)) =>
          options.SetCredentials(username, password);
        case None =>
      }
      var statusTopic := StatusTopic(config.baseTopic);
      options.SetLastWill(LastWill(statusTopic, OfflineMessage, ClientExactlyOnce, true));
      var c := new Client(options, RequestCapacity);
      var _ := c.Publish(statusTopic, ClientExactlyOnce, true, OnlineMessage, birthAccepted);
      client := c;
    }

    /** `subscribe`: the client's answer is passed on with `?`. */
    method Subscribe(topic: string, qos: QoS, accepted: bool) returns (outcome: CallOutcome)
      modifies client
      ensures client.requests == old(client.requests) + [SubscribeRequest(topic, MatchQos(qos))]
      ensures outcome == (if accepted then Ok else Err)
    {
      var ok := client.Subscribe(topic, MatchQos(qos), accepted);
      outcome := if ok then Ok else Err;
    }

    /** `publish`: a refused request is `unwrap`ped into a panic, so `Err` never comes back. */
    method Publish(topic: string, qos: QoS, retain: bool, payload: string, accepted: bool) returns (outcome: CallOutcome)
      modifies client
      ensures client.requests == old(client.requests) + [PublishRequest(topic, MatchQos(qos), retain, payload)]
      ensures outcome != Err
      ensures outcome == Ok <==> accepted
    {
      var ok := client.Publish(topic, MatchQos(qos), retain, payload, accepted);
      outcome := if ok then Ok else Panicked;
    }
  }

  // ---------------------------------------------------------------------------
  // Incoming publications.

  /** An incoming `Publish` packet from the broker. */
  datatype IncomingPublish = IncomingPublish(topic: string, qos: ClientQoS, retain: bool, payload: seq<byte>)

  /** `PublishEvent` of `mqtt_wrapper.rs`, as the event thread forwards it. */
  datatype PublishEvent = PublishEvent(topic: string, qos: QoS, retain: bool, payload: seq<byte>)

  /** The event the thread sends for a packet: the same topic, retain flag, payload and QoS number. */
  function ToPublishEvent(packet: IncomingPublish): (event: PublishEvent)
    ensures event.topic == packet.topic && event.retain == packet.retain && event.payload == packet.payload
    ensures Level(event.qos) == ClientLevel(packet.qos)
  {
    PublishEvent(packet.topic, FromClientQos(packet.qos), packet.retain, packet.payload)
  }

  /** A packet that the client could have sent is forwarded with the QoS it was sent with. */
  lemma ForwardedQosRoundTrip(topic: string, qos: QoS, retain: bool, payload: seq<byte>)
    ensures ToPublishEvent(IncomingPublish(topic, MatchQos(qos), retain, payload)) == PublishEvent(topic, qos, retain, payload)
  {
    QosRoundTrip(qos, ClientAtMostOnce);
  }
}
