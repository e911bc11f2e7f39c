/**
 * The older `HMSInverter` of `inverter.rs`.  It is the same client as
 * `HmsSource.HmsInverter` except for where the counter moves: `update_state`
 * (both the trait method and the inherent one, whose bodies are identical)
 * bumps the sequence and `send_request` leaves it alone.
 */
module LegacySource {
  import opened Wrappers
  import opened Bytes
  import opened RealData
  import opened InverterSource
  import opened HmsProtocol
  import HmsSource

  class HmsInverter {
    const host: string
    var state: NetworkState
    var sequence: uint16
    ghost var events: seq<NetworkState>
    ghost var lastFrame: seq<byte>

    /** `HMSInverter::new`: state unknown, counter zero. */
    constructor(host: string)
      ensures this.host == host
      ensures state == Unknown && sequence == 0
      ensures events == [] && lastFrame == []
    {
      this.host := host;
      state := Unknown;
      sequence := 0;
      events := [];
      lastFrame := [];
    }

    /** Change-gated: the state becomes `newState`, logged only when it differs. */
    method SetState(newState: NetworkState)
      modifies this
      ensures state == newState
      ensures events == old(events) + StateChange(old(state), newState)
      ensures sequence == old(sequence) && lastFrame == old(lastFrame)
    {
      if state != newState {
        state := newState;
        events := events + [newState];
      }
    }

    /** One request under the current counter, which this copy does not advance. */
    method SendRequest(request: seq<byte>, exchange: Exchange, parse: Parser) returns (response: Option<HmsStateResponse>)
      modifies this
      ensures sequence == old(sequence)
      ensures lastFrame == RequestFrame(sequence, request)
      ensures state == NextState(old(state), Classify(exchange, parse))
      ensures events == old(events) + AttemptEvents(old(state), Classify(exchange, parse))
      ensures response == Returned(Classify(exchange, parse))
    {
      var message := ComposeMessage(sequence, request);
      lastFrame := message;
      match exchange
      case ResolveError =>
        return None;
      case NoAddress =>
        return None;
      case ConnectError =>
        SetState(Offline);
        return None;
      case WriteError =>
        SetState(Offline);
        return None;
      case ReadError =>
        SetState(Offline);
        return None;
      case Received(data) =>
        var buf, readLength := ReadInto(data);
        if readLength < HeaderLength {
          SetState(Offline);
          return None;
        }
        ResponseBodyAgreesWhenLongEnough(data);
        var parsed := parse(buf[HeaderLength..readLength]);
        match parsed
        case Some(r) =>
          SetState(Online);
          response := Some(r);
        case None =>
          SetState(Offline);
          response := None;
    }

    /** `update_state`: advance the counter once, then request with the default body. */
    method UpdateState(exchange: Exchange, parse: Parser) returns (response: Option<HmsStateResponse>)
      modifies this
      ensures sequence == WrappingIncrement(old(sequence))
      ensures lastFrame == RequestFrame(sequence, DefaultRequestBody)
      ensures state == NextState(old(state), Classify(exchange, parse))
      ensures events == old(events) + AttemptEvents(old(state), Classify(exchange, parse))
      ensures response == Returned(Classify(exchange, parse))
    {
      sequence := WrappingIncrement(sequence);
      response := SendRequest(DefaultRequestBody, exchange, parse);
    }
  }

  /**
   * The two copies polled side by side over the same exchanges return the same
   * records and end in the same state with the same counter, log and last frame: moving
   * the increment from `send_request` to `update_state` changed nothing a
   * caller of `update_state` can see.
   */
  method CopiesAgree(host: string, exchanges: seq<Exchange>, parse: Parser)
    returns (newer: seq<Option<HmsStateResponse>>, older: seq<Option<HmsStateResponse>>,
             newerState: NetworkState, olderState: NetworkState,
             newerSequence: uint16, olderSequence: uint16,
             ghost newerLog: seq<NetworkState>, ghost olderLog: seq<NetworkState>,
             ghost newerFrame: seq<byte>, ghost olderFrame: seq<byte>)
    ensures |newer| == |exchanges| && newer == older
    ensures newerState == olderState
    ensures newerSequence == olderSequence
    ensures newerLog == olderLog && newerFrame == olderFrame
  {
    var a := new HmsSource.HmsInverter(host);
    var b := new HmsInverter(host);
    newer, older := [], [];
    var i := 0;
    while i < |exchanges|
      invariant 0 <= i <= |exchanges|
      invariant newer == older && |newer| == i
      invariant a.state == b.state && a.sequence == b.sequence && a.events == b.events
      invariant a.lastFrame == b.lastFrame
    {
      var x := a.UpdateState(exchanges[i], parse);
      var y := b.UpdateState(exchanges[i], parse);
      newer, older := newer + [x], older + [y];
      i := i + 1;
    }
    newerState, olderState := a.state, b.state;
    newerSequence, olderSequence := a.sequence, b.sequence;
    newerLog, olderLog, newerFrame, olderFrame := a.events, b.events, a.lastFrame, b.lastFrame;
  }
}
