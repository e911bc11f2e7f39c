/**
 * `HMSInverter` of `sources/hms/inverter.rs`: the client that polls one HMS
 * DTU.  Each request bumps the sequence counter first, composes the frame,
 * and then walks resolve, connect, write, read and parse; every failure past
 * name resolution marks the inverter offline, a parsed record online.
 *
 * The network exchange and the protobuf decoder are parameters; the
 * state-change log (`Inverter is {state}`) is the ghost `events`, the last
 * composed frame the ghost `lastFrame`.
 */
module HmsSource {
  import opened Wrappers
  import opened Bytes
  import opened RealData
  import opened InverterSource
  import opened HmsProtocol

  class HmsInverter {
    const host: string
    var state: NetworkState
    var sequence: uint16
    ghost var events: seq<NetworkState>
    ghost var lastFrame: seq<byte>

    /** `HMSInverter::new`: state unknown, counter zero. */
    constructor(host: string)
      ensures this.host == host
      ensures state == Unknown && sequence == 0
      ensures events == [] && lastFrame == []
    {
      this.host := host;
      state := Unknown;
      sequence := 0;
      events := [];
      lastFrame := [];
    }

    /** Change-gated: the state becomes `newState`, logged only when it differs. */
    method SetState(newState: NetworkState)
      modifies this
      ensures state == newState
      ensures events == old(events) + StateChange(old(state), newState)
      ensures sequence == old(sequence) && lastFrame == old(lastFrame)
    {
      if state != newState {
        state := newState;
        events := events + [newState];
      }
    }

    /**
     * One request.  The counter advances before anything can fail; the state
     * and the log then follow the attempt's outcome, and a record comes back
     * exactly when the reply parsed.
     */
    method SendRequest(request: seq<byte>, exchange: Exchange, parse: Parser) returns (response: Option<HmsStateResponse>)
      modifies this
      ensures sequence == WrappingIncrement(old(sequence))
      ensures lastFrame == RequestFrame(sequence, request)
      ensures state == NextState(old(state), Classify(exchange, parse))
      ensures events == old(events) + AttemptEvents(old(state), Classify(exchange, parse))
      ensures response == Returned(Classify(exchange, parse))
    {
      sequence := WrappingIncrement(sequence);
      var message := ComposeMessage(sequence, request);
      lastFrame := message;
      match exchange
      case ResolveError =>
        return None;
      case NoAddress =>
        return None;
      case ConnectError =>
        SetState(Offline);
        return None;
      case WriteError =>
        SetState(Offline);
        return None;
      case ReadError =>
        SetState(Offline);
        return None;
      case Received(data) =>
        var buf, readLength := ReadInto(data);
        if readLength < HeaderLength {
          SetState(Offline);
          return None;
        }
        ResponseBodyAgreesWhenLongEnough(data);
        var parsed := parse(buf[HeaderLength..readLength]);
        match parsed
        case Some(r) =>
          SetState(Online);
          response := Some(r);
        case None =>
          SetState(Offline);
          response := None;
    }

    /** `update_state`: a request with the default (empty) body. */
    method UpdateState(exchange: Exchange, parse: Parser) returns (response: Option<HmsStateResponse>)
      modifies this
      ensures sequence == WrappingIncrement(old(sequence))
      ensures lastFrame == RequestFrame(sequence, DefaultRequestBody)
      ensures state == NextState(old(state), Classify(exchange, parse))
      ensures events == old(events) + AttemptEvents(old(state), Classify(exchange, parse))
      ensures response == Returned(Classify(exchange, parse))
    {
      response := SendRequest(DefaultRequestBody, exchange, parse);
    }
  }

  lemma AttemptsExtended(exchanges: seq<Exchange>, parse: Parser, i: nat)
    requires i < |exchanges|
    ensures Attempts(exchanges[..i + 1], parse) == Attempts(exchanges[..i], parse) + [Classify(exchanges[i], parse)]
  {
    var longer, shorter := Attempts(exchanges[..i + 1], parse), Attempts(exchanges[..i], parse);
    assert longer[..i] == shorter;
  }

  /** A counter equal to `i` modulo 65536 equals `i + 1` after one wrapping increment. */
  lemma IncrementTracksCount(w: uint16, i: nat)
    requires w as int == i % Uint16Modulus
    ensures WrappingIncrement(w) as int == (i + 1) % Uint16Modulus
  {
  }

  /**
   * A fresh client polled over a run of exchanges: the counter has advanced
   * once per poll, and the state, the log and every returned record are those
   * the run functions give for the run's attempts.
   */
  method PollRun(host: string, exchanges: seq<Exchange>, parse: Parser)
    returns (responses: seq<Option<HmsStateResponse>>, finalState: NetworkState, finalSequence: uint16, ghost log: seq<NetworkState>)
    ensures |responses| == |exchanges|
    ensures forall i :: 0 <= i < |exchanges| ==> responses[i] == Returned(Classify(exchanges[i], parse))
    ensures finalState == StateAfter(Unknown, Attempts(exchanges, parse))
    ensures finalSequence as int == |exchanges| % Uint16Modulus
    ensures log == EventsDuring(Unknown, Attempts(exchanges, parse))
  {
    var inverter := new HmsInverter(host);
    responses := [];
    var i := 0;
    while i < |exchanges|
      invariant 0 <= i <= |exchanges|
      invariant |responses| == i
      invariant forall j :: 0 <= j < i ==> responses[j] == Returned(Classify(exchanges[j], parse))
      invariant inverter.state == StateAfter(Unknown, Attempts(exchanges[..i], parse))
      invariant inverter.events == EventsDuring(Unknown, Attempts(exchanges[..i], parse))
      invariant inverter.sequence as int == i % Uint16Modulus
    {
      ghost var before := Attempts(exchanges[..i], parse);
      IncrementTracksCount(inverter.sequence, i);
      var response := inverter.UpdateState(exchanges[i], parse);
      ghost var earlier := responses;
      responses := responses + [response];
      forall j | 0 <= j < i + 1
        ensures responses[j] == Returned(Classify(exchanges[j], parse))
      {
        if j < i {
          assert responses[j] == earlier[j];
        }
      }
      AttemptsExtended(exchanges, parse, i);
      RunExtended(Unknown, before, Classify(exchanges[i], parse));
      i := i + 1;
    }
    assert exchanges[..i] == exchanges;
    finalState, finalSequence, log := inverter.state, inverter.sequence, inverter.events;
  }

  /** The first poll of a fresh client carries sequence number 1. */
  method FirstPoll(host: string, exchange: Exchange, parse: Parser) returns (frameSequence: uint16, response: Option<HmsStateResponse>)
    ensures frameSequence == 1
    ensures response == Returned(Classify(exchange, parse))
  {
    var inverter := new HmsInverter(host);
    response := inverter.UpdateState(exchange, parse);
    frameSequence := inverter.sequence;
  }
}
