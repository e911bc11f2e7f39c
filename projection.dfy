/**
 * The metric projection: a decoded `HMSStateResponse` becomes a map from topic
 * to reading.  Three publishers fill the same shape of map, one insert at a
 * time: `HMSStateResponse::get_topics` (used by the MQTT target), the older
 * `Mqtt::publish` and `SimpleMqtt::publish`.  They differ in the base topic, in
 * how an inverter branch is named, and in how the local time is shown.
 *
 * A topic is held as a `Key` naming its branch and field; `Render` spells it
 * out as the `/`-separated string the source formats, and `RenderInjective`
 * shows that no two keys share a string, so the keyed map and the source's
 * string-keyed map have the same entries.
 */
module Projection {
  import opened Wrappers
  import opened Text
  import opened RealData

  /** Which of the three map-filling publishers is meant. */
  datatype Publisher = GetTopics | LegacyMqtt | SimpleMqtt

  /**
   * A published value.  `get_topics` sends the clock as a number; the two older
   * publishers format it as a local date and time, kept here as the epoch seconds.
   */
  datatype Reading = Number(value: real) | LocalTime(epochSeconds: int)

  datatype HeaderField = InverterLocalTime | CurrentPower | DailyYield
  datatype InverterField = GridVoltage | GridFreq | Temperature
  datatype PortField = Voltage | Curr | Power | Energy | PortDailyYield

  /**
   * A topic below the base: a header field, an inverter field under the
   * inverter's tag (its id, or its position for `SimpleMqtt`), or a port field
   * under the port id.
   */
  datatype Key =
    | HeaderKey(header: HeaderField)
    | InverterKey(tag: int, field: InverterField)
    | PortKey(port: int, portField: PortField)

  function Tenths(raw: int): real { raw as real / 10.0 }
  function Hundredths(raw: int): real { raw as real / 100.0 }

  function HeaderReading(p: Publisher, r: HmsStateResponse, h: HeaderField): Reading
  {
    match h
    case InverterLocalTime => if p == GetTopics then Number(r.time as real) else LocalTime(r.time)
    case CurrentPower => Number(Tenths(r.pvCurrentPower))
    case DailyYield => Number(r.pvDailyYield as real)
  }

  function InverterReading(inv: InverterState, f: InverterField): Reading
  {
    match f
    case GridVoltage => Number(Tenths(inv.gridVoltage))
    case GridFreq => Number(Hundredths(inv.gridFreq))
    case Temperature => Number(Tenths(inv.temperature))
  }

  function PortReading(port: PortState, g: PortField): Reading
  {
    match g
    case Voltage => Number(Tenths(port.pvVol))
    case Curr => Number(Hundredths(port.pvCur))
    case Power => Number(Tenths(port.pvPower))
    case Energy => Number(port.pvEnergyTotal as real)
    case PortDailyYield => Number(port.pvDailyYield as real)
  }

  /** The inverter at `index` is filed under its id, or under its position for `SimpleMqtt`. */
  function InverterTag(p: Publisher, index: nat, inv: InverterState): int
  {
    if p == SimpleMqtt then index else inv.invId
  }

  // ---------------------------------------------------------------------------
  // Filling the map.

  function HeaderEntries(p: Publisher, r: HmsStateResponse): map<Key, Reading>
  {
    map[][HeaderKey(InverterLocalTime) := HeaderReading(p, r, InverterLocalTime)]
         [HeaderKey(CurrentPower) := HeaderReading(p, r, CurrentPower)]
         [HeaderKey(DailyYield) := HeaderReading(p, r, DailyYield)]
  }

  function AddInverter(m: map<Key, Reading>, tag: int, inv: InverterState): map<Key, Reading>
  {
    m[InverterKey(tag, GridVoltage) := InverterReading(inv, GridVoltage)]
     [InverterKey(tag, GridFreq) := InverterReading(inv, GridFreq)]
     [InverterKey(tag, Temperature) := InverterReading(inv, Temperature)]
  }

  function AddPort(m: map<Key, Reading>, port: PortState): map<Key, Reading>
  {
    var n := port.pvPort;
    m[PortKey(n, Voltage) := PortReading(port, Voltage)]
     [PortKey(n, Curr) := PortReading(port, Curr)]
     [PortKey(n, Power) := PortReading(port, Power)]
     [PortKey(n, Energy) := PortReading(port, Energy)]
     [PortKey(n, PortDailyYield) := PortReading(port, PortDailyYield)]
  }

  /** The inverters inserted in record order. */
  function WithInverters(m: map<Key, Reading>, p: Publisher, invs: seq<InverterState>): map<Key, Reading>
    decreases |invs|
  {
    if invs == [] then m
    else
      var n := |invs| - 1;
      AddInverter(WithInverters(m, p, invs[..n]), InverterTag(p, n, invs[n]), invs[n])
  }

  /** The ports inserted in record order. */
  function WithPorts(m: map<Key, Reading>, ports: seq<PortState>): map<Key, Reading>
    decreases |ports|
  {
    if ports == [] then m
    else
      var n := |ports| - 1;
      AddPort(WithPorts(m, ports[..n]), ports[n])
  }

  /** The map a publisher fills: the header, then every inverter, then every port. */
  function Topics(p: Publisher, r: HmsStateResponse): map<Key, Reading>
  {
    WithPorts(WithInverters(HeaderEntries(p, r), p, r.inverterState), r.portState)
  }

  /** The map-filling code of the three publishers: the header entries, then the two loops. */
  method FillTopics(p: Publisher, r: HmsStateResponse) returns (pairs: map<Key, Reading>)
    ensures pairs == Topics(p, r)
  {
    pairs := map[];
    pairs := pairs[HeaderKey(InverterLocalTime) := HeaderReading(p, r, InverterLocalTime)];
    pairs := pairs[HeaderKey(CurrentPower) := HeaderReading(p, r, CurrentPower)];
    pairs := pairs[HeaderKey(DailyYield) := HeaderReading(p, r, DailyYield)];
    pairs := FillInverters(pairs, p, r.inverterState);
    pairs := FillPorts(pairs, r.portState);
  }

  /** The inverter loop: three entries per inverter, under its tag. */
  method FillInverters(start: map<Key, Reading>, p: Publisher, invs: seq<InverterState>) returns (pairs: map<Key, Reading>)
    ensures pairs == WithInverters(start, p, invs)
  {
    pairs := start;
    var i := 0;
    while i < |invs|
      invariant 0 <= i <= |invs|
      invariant pairs == WithInverters(start, p, invs[..i])
    {
      var inv := invs[i];
      var tag := if p == SimpleMqtt then i else inv.invId;
      ghost var before := pairs;
      pairs := pairs[InverterKey(tag, GridVoltage) := Number(inv.gridVoltage as real / 10.0)];
      pairs := pairs[InverterKey(tag, GridFreq) := Number(inv.gridFreq as real / 100.0)];
      pairs := pairs[InverterKey(tag, Temperature) := Number(inv.temperature as real / 10.0)];
      assert pairs == AddInverter(before, InverterTag(p, i, inv), inv);
      assert invs[..i + 1][..i] == invs[..i];
      i := i + 1;
    }
    assert invs[..i] == invs;
  }

  /** The port loop: five entries per port, under its port number. */
  method FillPorts(start: map<Key, Reading>, ports: seq<PortState>) returns (pairs: map<Key, Reading>)
    ensures pairs == WithPorts(start, ports)
  {
    pairs := start;
    var j := 0;
    while j < |ports|
      invariant 0 <= j <= |ports|
      invariant pairs == WithPorts(start, ports[..j])
    {
      var port := ports[j];
      var n := port.pvPort;
      ghost var before := pairs;
      pairs := pairs[PortKey(n, Voltage) := Number(port.pvVol as real / 10.0)];
      pairs := pairs[PortKey(n, Curr) := Number(port.pvCur as real / 100.0)];
      pairs := pairs[PortKey(n, Power) := Number(port.pvPower as real / 10.0)];
      pairs := pairs[PortKey(n, Energy) := Number(port.pvEnergyTotal as real)];
      pairs := pairs[PortKey(n, PortDailyYield) := Number(port.pvDailyYield as real)];
      assert pairs == AddPort(before, port);
      assert ports[..j + 1][..j] == ports[..j];
      j := j + 1;
    }
    assert ports[..j] == ports;
  }

  // ---------------------------------------------------------------------------
  // What each key holds, stated without the insertion order.

  /** The last inverter in the record filed under `tag`, if any. */
  function LastInverter(p: Publisher, invs: seq<InverterState>, tag: int): (o: Option<nat>)
    ensures o.Some? ==>
      && o.value < |invs| && InverterTag(p, o.value, invs[o.value]) == tag
      && forall j :: o.value < j < |invs| ==> InverterTag(p, j, invs[j]) != tag
    ensures o.None? ==> forall j :: 0 <= j < |invs| ==> InverterTag(p, j, invs[j]) != tag
    decreases |invs|
  {
    if invs == [] then None
    else
      var n := |invs| - 1;
      if InverterTag(p, n, invs[n]) == tag then Some(n)
      else LastInverter(p, invs[..n], tag)
  }

  /** The last port in the record with id `id`, if any. */
  function LastPort(ports: seq<PortState>, id: int): (o: Option<nat>)
    ensures o.Some? ==>
      && o.value < |ports| && ports[o.value].pvPort == id
      && forall j :: o.value < j < |ports| ==> ports[j].pvPort != id
    ensures o.None? ==> forall j :: 0 <= j < |ports| ==> ports[j].pvPort != id
    decreases |ports|
  {
    if ports == [] then None
    else
      var n := |ports| - 1;
      if ports[n].pvPort == id then Some(n)
      else LastPort(ports[..n], id)
  }

  /**
   * The reading a key should carry: every header field, and the fields of the
   * last inverter or port filed under the key's tag; nothing for a tag no
   * record uses.
   */
  function Expected(p: Publisher, r: HmsStateResponse, k: Key): Option<Reading>
  {
    match k
    case HeaderKey(h) => Some(HeaderReading(p, r, h))
    case InverterKey(tag, f) =>
      (match LastInverter(p, r.inverterState, tag)
       case None => None
       case Some(i) => Some(InverterReading(r.inverterState[i], f)))
    case PortKey(id, g) =>
      (match LastPort(r.portState, id)
       case None => None
       case Some(i) => Some(PortReading(r.portState[i], g)))
  }

  /** Inserting the inverters sets exactly the keys of used tags, to the last such inverter's readings. */
  lemma {:induction false} WithInvertersAt(m: map<Key, Reading>, p: Publisher, invs: seq<InverterState>, k: Key)
    ensures var w := WithInverters(m, p, invs);
      if k.InverterKey? && LastInverter(p, invs, k.tag).Some? then
        k in w && w[k] == InverterReading(invs[LastInverter(p, invs, k.tag).value], k.field)
      else
        (k in w <==> k in m) && (k in m ==> w[k] == m[k])
    decreases |invs|
  {
    if invs != [] {
      var n := |invs| - 1;
      var prior := invs[..n];
      WithInvertersAt(m, p, prior, k);
      if k.InverterKey? && InverterTag(p, n, invs[n]) == k.tag {
        assert LastInverter(p, invs, k.tag) == Some(n);
        assert WithInverters(m, p, invs) == AddInverter(WithInverters(m, p, prior), k.tag, invs[n]);
        var a := AddInverter(WithInverters(m, p, prior), k.tag, invs[n]);
        match k.field
        case GridVoltage => assert a[k] == InverterReading(invs[n], GridVoltage);
        case GridFreq => assert a[k] == InverterReading(invs[n], GridFreq);
        case Temperature => assert a[k] == InverterReading(invs[n], Temperature);
      } else if k.InverterKey? {
        var o := LastInverter(p, prior, k.tag);
        if o.Some? {
          assert prior[o.value] == invs[o.value];
        }
      }
    }
  }

  lemma {:induction false} WithPortsAt(m: map<Key, Reading>, ports: seq<PortState>, k: Key)
    ensures var w := WithPorts(m, ports);
      if k.PortKey? && LastPort(ports, k.port).Some? then
        k in w && w[k] == PortReading(ports[LastPort(ports, k.port).value], k.portField)
      else
        (k in w <==> k in m) && (k in m ==> w[k] == m[k])
    decreases |ports|
  {
    if ports != [] {
      var n := |ports| - 1;
      var prior := ports[..n];
      WithPortsAt(m, prior, k);
      if k.PortKey? && ports[n].pvPort == k.port {
        assert LastPort(ports, k.port) == Some(n);
        assert WithPorts(m, ports) == AddPort(WithPorts(m, prior), ports[n]);
        var a := AddPort(WithPorts(m, prior), ports[n]);
        match k.portField
        case Voltage => assert a[k] == PortReading(ports[n], Voltage);
        case Curr => assert a[k] == PortReading(ports[n], Curr);
        case Power => assert a[k] == PortReading(ports[n], Power);
        case Energy => assert a[k] == PortReading(ports[n], Energy);
        case PortDailyYield => assert a[k] == PortReading(ports[n], PortDailyYield);
      } else if k.PortKey? {
        var o := LastPort(prior, k.port);
        if o.Some? {
          assert prior[o.value] == ports[o.value];
        }
      }
    }
  }

  /**
   * The filled map holds exactly the keys `Expected` gives a reading for, with
   * that reading: the scaled header values, and for each inverter tag and port
   * id the readings of the last record filed under it.
   */
  lemma TopicsMeaning(p: Publisher, r: HmsStateResponse)
    ensures forall k :: k in Topics(p, r) <==> Expected(p, r, k).Some?
    ensures forall k :: k in Topics(p, r) ==> Topics(p, r)[k] == Expected(p, r, k).value
  {
    var h := HeaderEntries(p, r);
    forall k
      ensures (k in Topics(p, r) <==> Expected(p, r, k).Some?)
      ensures k in Topics(p, r) ==> Topics(p, r)[k] == Expected(p, r, k).value
    {
      WithInvertersAt(h, p, r.inverterState, k);
      WithPortsAt(WithInverters(h, p, r.inverterState), r.portState, k);
    }
  }

  // ---------------------------------------------------------------------------
  // The number of keys.

  ghost predicate DistinctTags(p: Publisher, invs: seq<InverterState>)
  {
    forall i, j :: 0 <= i < j < |invs| ==> InverterTag(p, i, invs[i]) != InverterTag(p, j, invs[j])
  }

  ghost predicate DistinctPorts(ports: seq<PortState>)
  {
    forall i, j :: 0 <= i < j < |ports| ==> ports[i].pvPort != ports[j].pvPort
  }

  /** An inverter whose tag is new adds three keys. */
  lemma AddInverterSize(m: map<Key, Reading>, tag: int, inv: InverterState)
    requires forall f :: InverterKey(tag, f) !in m
    ensures |AddInverter(m, tag, inv)| == |m| + 3
  {
    assert InverterKey(tag, GridVoltage) !in m && InverterKey(tag, GridFreq) !in m && InverterKey(tag, Temperature) !in m;
  }

  /** A port whose id is new adds five keys. */
  lemma AddPortSize(m: map<Key, Reading>, port: PortState)
    requires forall g :: PortKey(port.pvPort, g) !in m
    ensures |AddPort(m, port)| == |m| + 5
  {
    var n := port.pvPort;
    assert PortKey(n, Voltage) !in m && PortKey(n, Curr) !in m && PortKey(n, Power) !in m;
    assert PortKey(n, Energy) !in m && PortKey(n, PortDailyYield) !in m;
  }

  /** With distinct tags, and no inverter key already present, each inverter adds three keys. */
  lemma {:induction false} WithInvertersSize(m: map<Key, Reading>, p: Publisher, invs: seq<InverterState>)
    requires DistinctTags(p, invs)
    requires forall k :: k in m ==> !k.InverterKey?
    ensures |WithInverters(m, p, invs)| == |m| + 3 * |invs|
    decreases |invs|
  {
    if invs != [] {
      var n := |invs| - 1;
      var prior, tag := invs[..n], InverterTag(p, n, invs[n]);
      forall i, j | 0 <= i < j < |prior|
        ensures InverterTag(p, i, prior[i]) != InverterTag(p, j, prior[j])
      {
        assert prior[i] == invs[i] && prior[j] == invs[j];
      }
      WithInvertersSize(m, p, prior);
      forall i | 0 <= i < |prior|
        ensures InverterTag(p, i, prior[i]) != tag
      {
        assert prior[i] == invs[i];
      }
      assert LastInverter(p, prior, tag) == None;
      forall f
        ensures InverterKey(tag, f) !in WithInverters(m, p, prior)
      {
        WithInvertersAt(m, p, prior, InverterKey(tag, f));
      }
      AddInverterSize(WithInverters(m, p, prior), tag, invs[n]);
    }
  }

  /** With distinct port ids, and no port key already present, each port adds five keys. */
  lemma {:induction false} WithPortsSize(m: map<Key, Reading>, ports: seq<PortState>)
    requires DistinctPorts(ports)
    requires forall k :: k in m ==> !k.PortKey?
    ensures |WithPorts(m, ports)| == |m| + 5 * |ports|
    decreases |ports|
  {
    if ports != [] {
      var n := |ports| - 1;
      var prior := ports[..n];
      forall i, j | 0 <= i < j < |prior|
        ensures prior[i].pvPort != prior[j].pvPort
      {
        assert prior[i] == ports[i] && prior[j] == ports[j];
      }
      WithPortsSize(m, prior);
      LastPortIsNew(m, ports, prior, ports[n].pvPort);
      AddPortSize(WithPorts(m, prior), ports[n]);
    }
  }

  /** With distinct port ids, the last port's keys are not among those the earlier ports set. */
  lemma LastPortIsNew(m: map<Key, Reading>, ports: seq<PortState>, prior: seq<PortState>, id: int)
    requires DistinctPorts(ports) && ports != []
    requires forall k :: k in m ==> !k.PortKey?
    requires prior == ports[..|ports| - 1] && id == ports[|ports| - 1].pvPort
    ensures forall g :: PortKey(id, g) !in WithPorts(m, prior)
  {
    var n := |ports| - 1;
    forall i | 0 <= i < |prior|
      ensures prior[i].pvPort != id
    {
      assert prior[i] == ports[i];
    }
    assert LastPort(prior, id) == None;
    forall g
      ensures PortKey(id, g) !in WithPorts(m, prior)
    {
      WithPortsAt(m, prior, PortKey(id, g));
    }
  }

  /** `3 + 3·|inverters| + 5·|ports|` keys when no two inverters share a tag and no two ports an id. */
  lemma TopicsSize(p: Publisher, r: HmsStateResponse)
    requires DistinctTags(p, r.inverterState)
    requires DistinctPorts(r.portState)
    ensures |Topics(p, r)| == 3 + 3 * |r.inverterState| + 5 * |r.portState|
  {
    var h := HeaderEntries(p, r);
    assert |h| == 3;
    WithInvertersSize(h, p, r.inverterState);
    var w := WithInverters(h, p, r.inverterState);
    forall k | k in w
      ensures !k.PortKey?
    {
      WithInvertersAt(h, p, r.inverterState, k);
    }
    WithPortsSize(w, r.portState);
  }

  /** `SimpleMqtt` files inverters by position, so only port ids need to be distinct for the full count. */
  lemma SimpleMqttSize(r: HmsStateResponse)
    requires DistinctPorts(r.portState)
    ensures |Topics(SimpleMqtt, r)| == 3 + 3 * |r.inverterState| + 5 * |r.portState|
  {
    TopicsSize(SimpleMqtt, r);
  }

  /** In the id layouts two inverters reporting the same id share keys, and the later one's readings stay. */
  lemma LaterDuplicateWins(p: Publisher, r: HmsStateResponse, i: nat, j: nat, f: InverterField)
    requires p != SimpleMqtt
    requires i < j < |r.inverterState|
    requires r.inverterState[i].invId == r.inverterState[j].invId
    requires forall k :: j < k < |r.inverterState| ==> r.inverterState[k].invId != r.inverterState[j].invId
    ensures var key := InverterKey(r.inverterState[i].invId, f);
      key in Topics(p, r) && Topics(p, r)[key] == InverterReading(r.inverterState[j], f)
  {
    TopicsMeaning(p, r);
  }

  // ---------------------------------------------------------------------------
  // Topic strings.

  function HeaderName(h: HeaderField): string
  {
    match h
    case InverterLocalTime => "inverter_local_time"
    case CurrentPower => "current_power"
    case DailyYield => "daily_yield"
  }

  function InverterFieldName(f: InverterField): string
  {
    match f
    case GridVoltage => "grid_voltage"
    case GridFreq => "grid_freq"
    case Temperature => "temperature"
  }

  function PortFieldName(g: PortField): string
  {
    match g
    case Voltage => "voltage"
    case Curr => "curr"
    case Power => "power"
    case Energy => "energy"
    case PortDailyYield => "daily_yield"
  }

  /** `inverter/{id}` or, for `SimpleMqtt`, `inverter_{idx}`. */
  function InverterBranch(p: Publisher, tag: int): string
  {
    (if p == SimpleMqtt then "inverter_" else "inverter/") + DecimalString(tag)
  }

  /** `port/{pv_port}` or, for `SimpleMqtt`, `port_{pv_port}`. */
  function PortBranch(p: Publisher, id: int): string
  {
    (if p == SimpleMqtt then "port_" else "port/") + DecimalString(id)
  }

  /** The topic below the base. */
  function Path(p: Publisher, k: Key): string
  {
    match k
    case HeaderKey(h) => HeaderName(h)
    case InverterKey(tag, f) => Child(InverterBranch(p, tag), InverterFieldName(f))
    case PortKey(id, g) => Child(PortBranch(p, id), PortFieldName(g))
  }

  /** The full topic string a key is published under; it always lies below `base/`. */
  function Render(base: string, p: Publisher, k: Key): (topic: string)
    ensures HasPrefix(base + "/", topic) && |topic| > |base| + 1
  {
    assert Child(base, Path(p, k))[..|base| + 1] == base + "/";
    Child(base, Path(p, k))
  }

  lemma HeaderNameSlashFree(h: HeaderField)
    ensures SlashFree(HeaderName(h))
  {
    match h
    case InverterLocalTime =>
    case CurrentPower =>
    case DailyYield =>
  }

  lemma InverterFieldNameSlashFree(f: InverterField)
    ensures SlashFree(InverterFieldName(f))
  {
    match f
    case GridVoltage =>
    case GridFreq =>
    case Temperature =>
  }

  lemma PortFieldNameSlashFree(g: PortField)
    ensures SlashFree(PortFieldName(g))
  {
    match g
    case Voltage =>
    case Curr =>
    case Power =>
    case Energy =>
    case PortDailyYield =>
  }

  /** Branch names spell out their tag. */
  lemma InverterBranchInjective(p: Publisher, a: int, b: int)
    requires InverterBranch(p, a) == InverterBranch(p, b)
    ensures a == b
  {
    assert DecimalString(a) == InverterBranch(p, a)[9..];
    DecimalStringInjective(a, b);
  }

  lemma PortBranchInjective(p: Publisher, a: int, b: int)
    requires PortBranch(p, a) == PortBranch(p, b)
    ensures a == b
  {
    assert DecimalString(a) == PortBranch(p, a)[5..];
    DecimalStringInjective(a, b);
  }

  /** A header name holds no `/`; every inverter or port path has one after its branch. */
  lemma HeaderPathApart(p: Publisher, h: HeaderField, k: Key)
    requires !k.HeaderKey?
    ensures Path(p, HeaderKey(h)) != Path(p, k)
  {
    HeaderNameSlashFree(h);
    var b := if k.InverterKey? then InverterBranch(p, k.tag) else PortBranch(p, k.port);
    assert Path(p, k)[|b|] == '/';
  }

  /** Inverter paths start with `i`, port paths with `p`. */
  lemma InverterPortApart(p: Publisher, tag: int, f: InverterField, id: int, g: PortField)
    ensures Path(p, InverterKey(tag, f)) != Path(p, PortKey(id, g))
  {
    assert Path(p, InverterKey(tag, f))[0] == 'i';
    assert Path(p, PortKey(id, g))[0] == 'p';
  }

  lemma InverterPathInjective(p: Publisher, t1: int, f1: InverterField, t2: int, f2: InverterField)
    requires Path(p, InverterKey(t1, f1)) == Path(p, InverterKey(t2, f2))
    ensures t1 == t2 && f1 == f2
  {
    InverterFieldNameSlashFree(f1);
    InverterFieldNameSlashFree(f2);
    ParentOfChild(InverterBranch(p, t1), InverterFieldName(f1));
    ParentOfChild(InverterBranch(p, t2), InverterFieldName(f2));
    InverterBranchInjective(p, t1, t2);
    ChildOfSameParent(InverterBranch(p, t1), InverterFieldName(f1), InverterFieldName(f2));
  }

  lemma PortPathInjective(p: Publisher, n1: int, g1: PortField, n2: int, g2: PortField)
    requires Path(p, PortKey(n1, g1)) == Path(p, PortKey(n2, g2))
    ensures n1 == n2 && g1 == g2
  {
    PortFieldNameSlashFree(g1);
    PortFieldNameSlashFree(g2);
    ParentOfChild(PortBranch(p, n1), PortFieldName(g1));
    ParentOfChild(PortBranch(p, n2), PortFieldName(g2));
    PortBranchInjective(p, n1, n2);
    ChildOfSameParent(PortBranch(p, n1), PortFieldName(g1), PortFieldName(g2));
  }

  /** Different paths for different keys. */
  lemma PathInjective(p: Publisher, k1: Key, k2: Key)
    requires Path(p, k1) == Path(p, k2)
    ensures k1 == k2
  {
    match k1
    case HeaderKey(h1) =>
      if !k2.HeaderKey? {
        HeaderPathApart(p, h1, k2);
      }
    case InverterKey(t1, f1) =>
      if k2.HeaderKey? {
        HeaderPathApart(p, k2.header, k1);
      } else if k2.InverterKey? {
        InverterPathInjective(p, t1, f1, k2.tag, k2.field);
      } else {
        InverterPortApart(p, t1, f1, k2.port, k2.portField);
      }
    case PortKey(n1, g1) =>
      if k2.HeaderKey? {
        HeaderPathApart(p, k2.header, k1);
      } else if k2.PortKey? {
        PortPathInjective(p, n1, g1, k2.port, k2.portField);
      } else {
        InverterPortApart(p, k2.tag, k2.field, n1, g1);
      }
  }

  /** No two keys are published under one topic string. */
  lemma RenderInjective(base: string, p: Publisher, k1: Key, k2: Key)
    requires Render(base, p, k1) == Render(base, p, k2)
    ensures k1 == k2
  {
    ChildOfSameParent(base, Path(p, k1), Path(p, k2));
    PathInjective(p, k1, k2);
  }

  // ---------------------------------------------------------------------------
  // Base topics.

  /** The serial as published: its alias when one is configured, else the serial itself. */
  function SerialSegment(aliases: map<string, string>, sn: string): (s: string)
    ensures sn in aliases ==> s == aliases[sn]
    ensures sn !in aliases ==> s == sn
  {
    if sn in aliases then aliases[sn] else sn
  }

  /** `get_topics`: `prefix/dtu/S` with a prefix, `dtu/S` without. */
  function GetTopicsBase(prefix: Option<string>, aliases: map<string, string>, sn: string): (base: string)
    ensures prefix.Some? ==> base == prefix.value + "/dtu/" + SerialSegment(aliases, sn)
    ensures prefix.None? ==> base == "dtu/" + SerialSegment(aliases, sn)
    ensures prefix.Some? ==> HasPrefix(prefix.value + "/dtu/", base)
  {
    match prefix
    case Some(q) =>
      assert (q + "/dtu/" + SerialSegment(aliases, sn))[..|q| + 5] == q + "/dtu/";
      q + "/dtu/" + SerialSegment(aliases, sn)
    case None => "dtu/" + SerialSegment(aliases, sn)
  }

  /** `Mqtt::publish` of the older copy: `base_topic/dtu/S`. */
  function LegacyBase(baseTopic: string, aliases: map<string, string>, sn: string): (base: string)
    ensures HasPrefix(baseTopic + "/dtu/", base)
  {
    assert (baseTopic + "/dtu/" + SerialSegment(aliases, sn))[..|baseTopic| + 5] == baseTopic + "/dtu/";
    baseTopic + "/dtu/" + SerialSegment(aliases, sn)
  }

  /** `SimpleMqtt::publish`: `base_topic/dtu_sn`, with no alias and no `dtu` level. */
  function SimpleBase(baseTopic: string, sn: string): (base: string)
    ensures HasPrefix(baseTopic + "/", base) && base[|baseTopic| + 1..] == sn
  {
    baseTopic + "/" + sn
  }

  /** With a prefix, every `get_topics` topic starts with `prefix/dtu/`. */
  lemma GetTopicsUnderPrefix(prefix: string, aliases: map<string, string>, r: HmsStateResponse, k: Key)
    ensures HasPrefix(prefix + "/dtu/", Render(GetTopicsBase(Some(prefix), aliases, r.dtuSn), GetTopics, k))
  {
    var base := GetTopicsBase(Some(prefix), aliases, r.dtuSn);
    var t := Render(base, GetTopics, k);
    assert base[..|prefix| + 5] == prefix + "/dtu/";
    assert t[..|base|] == base;
    PrefixTransitive(prefix + "/dtu/", base, t);
  }

  // ---------------------------------------------------------------------------
  // A worked record.

  /** One inverter and one port, with the serial `SN123`. */
  function ExampleRecord(): HmsStateResponse
  {
    HmsStateResponse("SN123", 1700000000, 1234, 500,
                     [InverterState(7, 2301, 5000, 355)],
                     [PortState(0, 2400, 150, 3000, 500, 120)])
  }

  /** `get_topics` scales the example's readings by the fixed divisors. */
  lemma ExampleReadings()
    ensures var t := Topics(GetTopics, ExampleRecord());
      && t[HeaderKey(CurrentPower)] == Number(123.4)
      && t[InverterKey(7, GridFreq)] == Number(50.0)
      && t[PortKey(0, Voltage)] == Number(240.0)
      && t[PortKey(0, Curr)] == Number(1.5)
      && t[PortKey(0, Power)] == Number(300.0)
      && t[PortKey(0, Energy)] == Number(500.0)
      && t[PortKey(0, PortDailyYield)] == Number(120.0)
  {
    var r := ExampleRecord();
    var w := WithInverters(HeaderEntries(GetTopics, r), GetTopics, r.inverterState);
    assert r.portState[..0] == [] && r.inverterState[..0] == [];
    assert Topics(GetTopics, r) == AddPort(w, r.portState[0]);
  }

  /** The example record has three header keys, three for its inverter and five for its port. */
  lemma ExampleKeyCount()
    ensures |Topics(GetTopics, ExampleRecord())| == 11
  {
    TopicsSize(GetTopics, ExampleRecord());
  }

  /** The example's first port voltage topic, in the id layout. */
  lemma ExamplePortTopic()
    ensures Render("hms/dtu/roof-east", GetTopics, PortKey(0, Voltage)) == "hms/dtu/roof-east/port/0/voltage"
  {
    assert DecimalString(0) == "0";
    assert PortBranch(GetTopics, 0) == "port/0";
    assert Path(GetTopics, PortKey(0, Voltage)) == "port/0/voltage";
  }

  /** The example's inverter temperature topic, in the index layout: `inverter_0`, not the id 7. */
  lemma ExampleIndexTopic()
    ensures Render("hms/SN123", SimpleMqtt, InverterKey(InverterTag(SimpleMqtt, 0, ExampleRecord().inverterState[0]), Temperature))
      == "hms/SN123/inverter_0/temperature"
  {
    assert DecimalString(0) == "0";
    assert InverterBranch(SimpleMqtt, 0) == "inverter_0";
    assert Path(SimpleMqtt, InverterKey(0, Temperature)) == "inverter_0/temperature";
  }
}
