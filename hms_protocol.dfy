/**
 * What both copies of the HMS inverter client (`sources/hms/inverter.rs` and
 * the older `inverter.rs`) do in one `send_request`: compose the request frame,
 * and turn the outcome of the network exchange into a returned record and a
 * new network state.
 */
module HmsProtocol {
  import opened Wrappers
  import opened Bytes
  import opened Crc16
  import opened RealData
  import opened InverterSource

  const CmdHeader: seq<byte> := [0x48, 0x4D]   // "HM"
  const CmdGetData: seq<byte> := [0xA3, 0x03]
  const HeaderLength: nat := 10
  const ReceiveBufferSize: nat := 1024
  const InverterPort: string := "10081"

  /** `RealDataResDTO::default()` serialised: a proto3 message with no field set is empty. */
  const DefaultRequestBody: seq<byte> := []

  /**
   * The length field `len as u16 + 10u16`: the cast keeps the low 16 bits of the
   * payload length, and the addition wraps as in a release build.
   */
  function LengthField(payloadLength: nat): (n: uint16)
    ensures n as int == (payloadLength + HeaderLength) % Uint16Modulus
  {
    ((payloadLength % Uint16Modulus + HeaderLength) % Uint16Modulus) as uint16
  }

  /** The request frame: magic, command, sequence, CRC of the body, length, body. */
  function RequestFrame(sequence: uint16, payload: seq<byte>): (frame: seq<byte>)
    ensures |frame| == HeaderLength + |payload|
    ensures frame[..2] == CmdHeader && frame[2..4] == CmdGetData
    ensures FromBe16(frame[4], frame[5]) == Bits(sequence)
    ensures FromBe16(frame[6], frame[7]) == Checksum(frame[HeaderLength..])
    ensures FromBe16(frame[8], frame[9]) == Bits(LengthField(|payload|))
    ensures frame[HeaderLength..] == payload
  {
    CmdHeader + CmdGetData + Be16(Bits(sequence)) + Be16(Checksum(payload))
      + Be16(Bits(LengthField(|payload|))) + payload
  }

  /** The message `send_request` composes, one `extend_from_slice` at a time. */
  method ComposeMessage(sequence: uint16, request: seq<byte>) returns (message: seq<byte>)
    ensures message == RequestFrame(sequence, request)
  {
    var crc := Checksum(request);
    var len := LengthField(|request|);
    message := [];
    message := message + CmdHeader;
    message := message + CmdGetData;
    message := message + Be16(Bits(sequence));
    message := message + Be16(crc);
    message := message + Be16(Bits(len));
    message := message + request;
  }

  /** Whenever the frame fits in 16 bits the length field is the frame's own length. */
  lemma LengthFieldIsFrameLength(sequence: uint16, payload: seq<byte>)
    requires |payload| <= Uint16Modulus - 1 - HeaderLength
    ensures LengthField(|payload|) as int == |RequestFrame(sequence, payload)|
  {
  }

  /** A body of 65526 bytes or more makes the 16-bit length field wrap. */
  lemma LengthFieldWraps()
    ensures LengthField(Uint16Modulus - HeaderLength) == 0
    ensures LengthField(Uint16Modulus) == HeaderLength as uint16
  {
  }

  /** The default request is the bare 10-byte header: CRC 0xFFFF and length 10. */
  lemma DefaultRequestFrame(sequence: uint16)
    ensures RequestFrame(sequence, DefaultRequestBody)
      == [0x48, 0x4D, 0xA3, 0x03] + Be16(Bits(sequence)) + [0xFF, 0xFF, 0x00, 0x0A]
  {
    assert Checksum([]) == 0xFFFF;
    assert Bits(LengthField(0)) == 0x000A;
  }

  /**
   * The CRC is computed over the body only: frames for different sequence
   * numbers differ in bytes 4 and 5 and nowhere else.
   */
  lemma ChecksumIgnoresHeader(s1: uint16, s2: uint16, payload: seq<byte>)
    ensures RequestFrame(s1, payload)[..4] == RequestFrame(s2, payload)[..4]
    ensures RequestFrame(s1, payload)[6..] == RequestFrame(s2, payload)[6..]
  {
    var f1, f2 := RequestFrame(s1, payload), RequestFrame(s2, payload);
    assert f1[6..] == Be16(Checksum(payload)) + Be16(Bits(LengthField(|payload|))) + payload;
    assert f2[6..] == Be16(Checksum(payload)) + Be16(Bits(LengthField(|payload|))) + payload;
  }

  /** Corrupting one body byte is visible in the frame's CRC field. */
  lemma CorruptedBodyChangesChecksumField(sequence: uint16, payload: seq<byte>, corrupted: seq<byte>, i: nat)
    requires DifferAt(payload, corrupted, i)
    ensures RequestFrame(sequence, payload)[6..8] != RequestFrame(sequence, corrupted)[6..8]
  {
    var f, g := RequestFrame(sequence, payload), RequestFrame(sequence, corrupted);
    ChecksumDetectsSingleByteError(payload, corrupted, i);
    assert FromBe16(f[6], f[7]) != FromBe16(g[6], g[7]);
  }

  /** How one exchange with the inverter went, from name resolution to the bytes read. */
  datatype Exchange =
    | ResolveError               // `to_socket_addrs` failed
    | NoAddress                  // it succeeded with an empty address list
    | ConnectError
    | WriteError
    | ReadError
    | Received(data: seq<byte>)  // what the one `read` call delivers

  /** A protobuf decoder: the record the bytes encode, or `None` when they are malformed. */
  type Parser = seq<byte> -> Option<HmsStateResponse>

  /** `stream.read` into the 1024-byte buffer returns at most that many bytes. */
  function ReadLength(data: seq<byte>): (n: nat)
    ensures n <= ReceiveBufferSize && n <= |data|
    ensures n == |data| || n == ReceiveBufferSize
  {
    if |data| < ReceiveBufferSize then |data| else ReceiveBufferSize
  }

  /**
   * The bytes after the 10-byte response header, or `None` when fewer than 10
   * bytes were read (where the source's `buf[10..read_length]` would panic).
   */
  function ResponseBody(data: seq<byte>): (body: Option<seq<byte>>)
    ensures body.None? <==> ReadLength(data) < HeaderLength
    ensures body.Some? ==> data[..HeaderLength] + body.value == data[..ReadLength(data)]
  {
    var n := ReadLength(data);
    if n < HeaderLength then None else Some(data[HeaderLength..n])
  }

  /** The 1024-byte receive buffer after `stream.read`: the bytes read, then the initial zeros. */
  function ReceiveBuffer(data: seq<byte>): (buf: seq<byte>)
    ensures |buf| == ReceiveBufferSize
    ensures buf[..ReadLength(data)] == data[..ReadLength(data)]
  {
    data[..ReadLength(data)] + seq(ReceiveBufferSize - ReadLength(data), _ => 0)
  }

  /** `stream.read(&mut buf)` into a fresh zeroed buffer: the bytes received land at its start. */
  method ReadInto(data: seq<byte>) returns (buf: array<byte>, readLength: nat)
    ensures fresh(buf)
    ensures readLength == ReadLength(data)
    ensures buf[..] == ReceiveBuffer(data)
  {
    buf := new byte[ReceiveBufferSize](_ => 0);
    readLength := ReadLength(data);
    var i := 0;
    while i < readLength
      invariant 0 <= i <= readLength
      invariant buf[..i] == data[..i]
      invariant forall j :: i <= j < buf.Length ==> buf[j] == 0
    {
      buf[i] := data[i];
      i := i + 1;
    }
    assert buf[..] == ReceiveBuffer(data);
  }

  /** Rust slice indexing: the elements, or a panic when the range is out of bounds. */
  datatype SliceOutcome = Slice(elements: seq<byte>) | Panic

  function SliceOrPanic(buf: seq<byte>, from: nat, to: nat): (r: SliceOutcome)
    ensures r.Panic? <==> !(from <= to <= |buf|)
    ensures r.Slice? ==> |r.elements| == to - from
  {
    if from <= to <= |buf| then Slice(buf[from..to]) else Panic
  }

  /** The body as the source takes it, `&buf[10..read_length]`, with no length check. */
  function BodyAsWritten(data: seq<byte>): SliceOutcome
  {
    SliceOrPanic(ReceiveBuffer(data), HeaderLength, ReadLength(data))
  }

  /** As written, any read shorter than the header makes the client panic. */
  lemma ShortReadPanicsAsWritten(data: seq<byte>)
    requires |data| < HeaderLength
    ensures BodyAsWritten(data).Panic?
  {
  }

  /** A peer that closes the connection without answering (a read of 0 bytes) is such a read. */
  lemma ClosedConnectionPanicsAsWritten()
    ensures BodyAsWritten([]).Panic?
  {
    ShortReadPanicsAsWritten([]);
  }

  /** `ResponseBody` differs from the source only where the source panics. */
  lemma ResponseBodyAgreesWhenLongEnough(data: seq<byte>)
    ensures BodyAsWritten(data).Slice? <==> ResponseBody(data).Some?
    ensures ResponseBody(data).Some? ==> BodyAsWritten(data).elements == ResponseBody(data).value
  {
    var n := ReadLength(data);
    if n >= HeaderLength {
      assert ReceiveBuffer(data)[HeaderLength..n] == data[HeaderLength..n];
    }
  }

  datatype Failure = ConnectFailed | WriteFailed | ReadFailed | ShortResponse | DecodeFailed

  /** What a `send_request` amounts to: no contact, a failure past resolution, or a record. */
  datatype Attempt = Unresolved | Failed(failure: Failure) | Parsed(response: HmsStateResponse)

  function Classify(e: Exchange, parse: Parser): (a: Attempt)
    ensures a.Unresolved? <==> e.ResolveError? || e.NoAddress?
    ensures a.Parsed? <==> e.Received? && ResponseBody(e.data).Some?
                           && parse(ResponseBody(e.data).value).Some?
    ensures a.Parsed? ==> parse(ResponseBody(e.data).value) == Some(a.response)
    ensures a == Failed(ShortResponse) <==> e.Received? && ResponseBody(e.data).None?
    ensures a == Failed(ConnectFailed) <==> e.ConnectError?
    ensures a == Failed(WriteFailed) <==> e.WriteError?
    ensures a == Failed(ReadFailed) <==> e.ReadError?
    ensures a == Failed(DecodeFailed) <==>
      (e.Received? && ResponseBody(e.data).Some? && parse(ResponseBody(e.data).value).None?)
  {
    match e
    case ResolveError => Unresolved
    case NoAddress => Unresolved
    case ConnectError => Failed(ConnectFailed)
    case WriteError => Failed(WriteFailed)
    case ReadError => Failed(ReadFailed)
    case Received(data) =>
      match ResponseBody(data)
      case None => Failed(ShortResponse)
      case Some(body) =>
        match parse(body)
        case Some(r) => Parsed(r)
        case None => Failed(DecodeFailed)
  }

  /** The state `send_request` hands to `set_state`, if it gets that far. */
  function Reported(a: Attempt): (s: Option<NetworkState>)
    ensures s.None? <==> a.Unresolved?
    ensures s.Some? ==> (s.value == Online <==> a.Parsed?) && s.value != Unknown
  {
    match a
    case Unresolved => None
    case Failed(_) => Some(Offline)
    case Parsed(_) => Some(Online)
  }

  function NextState(current: NetworkState, a: Attempt): (next: NetworkState)
    ensures a.Unresolved? ==> next == current
    ensures a.Failed? ==> next == Offline
    ensures a.Parsed? ==> next == Online
  {
    Reported(a).GetOr(current)
  }

  /** The log events one attempt emits when the state before it is `current`. */
  function AttemptEvents(current: NetworkState, a: Attempt): (events: seq<NetworkState>)
    ensures events == [] <==> NextState(current, a) == current
    ensures events != [] ==> events == [NextState(current, a)]
  {
    match Reported(a)
    case None => []
    case Some(s) => StateChange(current, s)
  }

  /** The record `send_request` returns. */
  function Returned(a: Attempt): (r: Option<HmsStateResponse>)
    ensures r.Some? <==> a.Parsed?
    ensures r.Some? ==> r.value == a.response
  {
    if a.Parsed? then Some(a.response) else None
  }

  /** The attempts a run of exchanges amounts to. */
  function Attempts(exchanges: seq<Exchange>, parse: Parser): seq<Attempt>
  {
    seq(|exchanges|, i requires 0 <= i < |exchanges| => Classify(exchanges[i], parse))
  }

  /** The state after a run of attempts, starting in `initial`. */
  function StateAfter(initial: NetworkState, attempts: seq<Attempt>): NetworkState
    decreases |attempts|
  {
    if attempts == [] then initial
    else NextState(StateAfter(initial, attempts[..|attempts| - 1]), attempts[|attempts| - 1])
  }

  /** Every state-change event logged during a run of attempts, in order. */
  function EventsDuring(initial: NetworkState, attempts: seq<Attempt>): seq<NetworkState>
    decreases |attempts|
  {
    if attempts == [] then []
    else
      var prior := attempts[..|attempts| - 1];
      EventsDuring(initial, prior) + AttemptEvents(StateAfter(initial, prior), attempts[|attempts| - 1])
  }

  /**
   * The log is a list of genuine transitions: at most one event per attempt, no
   * two consecutive events alike, the first leaves `initial`, the last names the
   * final state, and a silent run ends where it began.
   */
  lemma {:induction false} EventsAreTransitions(initial: NetworkState, attempts: seq<Attempt>)
    ensures var events := EventsDuring(initial, attempts);
      && |events| <= |attempts|
      && (forall i :: 0 <= i < |events| - 1 ==> events[i] != events[i + 1])
      && (events != [] ==> events[0] != initial && events[|events| - 1] == StateAfter(initial, attempts))
      && (events == [] ==> StateAfter(initial, attempts) == initial)
    decreases |attempts|
  {
    if attempts != [] {
      var prior := attempts[..|attempts| - 1];
      EventsAreTransitions(initial, prior);
    }
  }

  /**
   * `Unknown` is only ever the state a client starts in: no event names it, and
   * once any attempt gets past name resolution the state is never `Unknown` again.
   */
  lemma {:induction false} UnknownNeverReentered(initial: NetworkState, attempts: seq<Attempt>)
    ensures Unknown !in EventsDuring(initial, attempts)
    ensures (exists i :: 0 <= i < |attempts| && !attempts[i].Unresolved?) ==> StateAfter(initial, attempts) != Unknown
    decreases |attempts|
  {
    if attempts != [] {
      var prior := attempts[..|attempts| - 1];
      UnknownNeverReentered(initial, prior);
      if exists i :: 0 <= i < |attempts| && !attempts[i].Unresolved? {
        var i :| 0 <= i < |attempts| && !attempts[i].Unresolved?;
        if i < |prior| {
          assert !prior[i].Unresolved?;
        }
      }
    }
  }

  /** Repeating an attempt's outcome changes neither the state nor the log. */
  lemma RepeatedOutcomeIsSilent(initial: NetworkState, attempts: seq<Attempt>, a: Attempt)
    ensures StateAfter(initial, attempts + [a, a]) == StateAfter(initial, attempts + [a])
    ensures EventsDuring(initial, attempts + [a, a]) == EventsDuring(initial, attempts + [a])
  {
    assert (attempts + [a, a])[..|attempts| + 1] == attempts + [a];
    assert (attempts + [a])[..|attempts|] == attempts;
  }

  /** One more attempt at the end of a run: the unfolding both run functions use. */
  lemma RunExtended(initial: NetworkState, attempts: seq<Attempt>, a: Attempt)
    ensures StateAfter(initial, attempts + [a]) == NextState(StateAfter(initial, attempts), a)
    ensures EventsDuring(initial, attempts + [a])
      == EventsDuring(initial, attempts) + AttemptEvents(StateAfter(initial, attempts), a)
  {
    assert (attempts + [a])[..|attempts|] == attempts;
  }

  /** Outcomes fail, fail, ok, ok, fail from a fresh client log exactly three events. */
  lemma FlappingConnection(first: HmsStateResponse, second: HmsStateResponse)
    ensures EventsDuring(Unknown, [Failed(ConnectFailed), Failed(ConnectFailed), Parsed(first), Parsed(second), Failed(ReadFailed)])
      == [Offline, Online, Offline]
  {
    var fail, read := Failed(ConnectFailed), Failed(ReadFailed);
    var run := [fail, fail, Parsed(first), Parsed(second), read];
    RunExtended(Unknown, [], fail);
    assert [] + [fail] == run[..1];
    RunExtended(Unknown, run[..1], fail);
    assert run[..1] + [fail] == run[..2];
    assert EventsDuring(Unknown, run[..2]) == [Offline];
    RunExtended(Unknown, run[..2], Parsed(first));
    assert run[..2] + [Parsed(first)] == run[..3];
    RunExtended(Unknown, run[..3], Parsed(second));
    assert run[..3] + [Parsed(second)] == run[..4];
    assert EventsDuring(Unknown, run[..4]) == [Offline, Online];
    RunExtended(Unknown, run[..4], read);
    assert run[..4] + [read] == run;
  }
}
