/**
 * The signed WebSocket (crates/relay-ws/src/signed.rs) and the byte stream on
 * top of it (crates/relay-tunnel-core/src/ws_io.rs), with tungstenite messages.
 * What the transport answers to a poll is a parameter; what it has delivered is
 * a queue.
 */
module WsIo {
  import opened Wrappers
  import opened Protocol
  import opened SigningText
  import opened WsCrypto

  /** A native message on the transport: its type, and the parse of its payload. */
  datatype NetMessage = NetMessage(msgType: MessageType, body: Raw)

  datatype TransportItem = Delivered(message: NetMessage) | Broken

  /** `Poll<Option<Result<M, _>>>` */
  datatype NextResult = NextPending | NextEnded | NextFailed | NextMessage(message: TungsteniteMessage)

  /** `Poll<io::Result<()>>` together with the bytes put into the caller's buffer. */
  datatype ReadResult = ReadPending | ReadFailed | ReadReady(bytes: seq<Byte>)

  /** What the transport answers to a poll. */
  datatype Answer = NotYet | Failure | Done

  datatype WriteResult = WritePending | WriteFailed | WriteReady(n: nat)

  datatype Inbound = Inbound(queue: seq<TransportItem>, ended: bool, inboundSeq: U64)

  // ----- specification: reading -----

  /** One `poll_next`: control frames are skipped, a close ends the stream, a refused message is an error. */
  function Next(ch: Channel, s: Inbound): (r: (NextResult, Inbound))
    ensures r.0.NextMessage? ==> |r.1.queue| < |s.queue|
    ensures |r.1.queue| <= |s.queue|
    decreases |s.queue|
  {
    if s.queue == [] then
      (if s.ended then NextEnded else NextPending, s)
    else
      var rest := s.(queue := s.queue[1..]);
      match s.queue[0]
      case Broken => (NextFailed, rest)
      case Delivered(m) =>
        match m.msgType
        case PingType => Next(ch, rest)
        case PongType => Next(ch, rest)
        case CloseType => (NextEnded, rest)
        case _ =>
          match DecodeAt(ch, s.inboundSeq, m.body)
          case Err(_) => (NextFailed, rest)
          case Ok(frame) =>
            var accepted := rest.(inboundSeq := SaturatingSucc(s.inboundSeq));
            match TungsteniteTryFromFrame(frame)
            case Err(_) => (NextFailed, accepted)
            case Ok(message) => (NextMessage(message), accepted)
  }

  datatype Mapped = Data(bytes: seq<Byte>) | Skip | Eof

  /** `read_tungstenite_message` */
  function ReadMessage(m: TungsteniteMessage): Mapped {
    match m
    case TBinary(data) => Data(data)
    case TText(text) => Data(TungsteniteIntoFrame(m).payload)
    case TClose(_) => Eof
    case _ => Skip
  }

  /** `write_tungstenite_message`, as a frame */
  function WriteFrame(bytes: seq<Byte>): Frame {
    TungsteniteIntoFrame(TBinary(bytes))
  }

  /** One `poll_read` into a buffer with `room` bytes left. */
  function Read(ch: Channel, s: Inbound, readBuf: seq<Byte>, room: nat): (ReadResult, Inbound, seq<Byte>)
    decreases |s.queue|
  {
    if readBuf != [] then
      var n := if room < |readBuf| then room else |readBuf|;
      (ReadReady(readBuf[..n]), s, readBuf[n..])
    else
      var (next, s') := Next(ch, s);
      match next
      case NextPending => (ReadPending, s', [])
      case NextFailed => (ReadFailed, s', [])
      case NextEnded => (ReadReady([]), s', [])
      case NextMessage(m) =>
        match ReadMessage(m)
        case Data(bytes) => Read(ch, s', bytes, room)
        case Skip => Read(ch, s', [], room)
        case Eof => (ReadReady([]), s', [])
  }

  // ----- specification: writing -----

  datatype Outbound = Outbound(outboundSeq: U64, outbox: seq<NetMessage>, flushing: bool)

  /** `poll_flush`, and `poll_shutdown` with the answer to `poll_close`. */
  function Flush(s: Outbound, flush: Answer): Outbound {
    if flush.Done? then s.(flushing := false) else s
  }

  /** The part of `poll_write` that waits for a started message to be flushed. */
  function FinishWrite(s: Outbound, n: nat, flush: Answer): (WriteResult, Outbound) {
    match flush
    case NotYet => (WritePending, s)
    case Failure => (WriteFailed, s)
    case Done => (WriteReady(n), Flush(s, flush))
  }

  /**
   * One `poll_write`; `ready`, `accepted` and `flush` are what the transport
   * answers to poll_ready, start_send and poll_flush, as far as it is asked. A
   * message is signed before it is handed over, so the counter moves even when
   * the transport refuses it.
   */
  function Write(ch: Channel, s: Outbound, buf: seq<Byte>, ready: Answer, accepted: bool, flush: Answer): (WriteResult, Outbound) {
    if buf == [] then (WriteReady(0), s)
    else if s.flushing then FinishWrite(s, |buf|, flush)
    else
      match ready
      case NotYet => (WritePending, s)
      case Failure => (WriteFailed, s)
      case Done =>
        var seqNo := SaturatingSucc(s.outboundSeq);
        if accepted then
          var message := NetMessage(BinaryType, EncodeAt(ch, seqNo, WriteFrame(buf)));
          FinishWrite(Outbound(seqNo, s.outbox + [message], true), |buf|, flush)
        else
          (WriteFailed, s.(outboundSeq := seqNo))
  }

  // ----- the signed socket -----

  class SignedWebSocket {
    const signer: WsFrameSigner
    const verifier: WsFrameVerifier
    var queue: seq<TransportItem>
    var ended: bool
    var outbox: seq<NetMessage>

    constructor (signer: WsFrameSigner, verifier: WsFrameVerifier)
      ensures this.signer == signer && this.verifier == verifier
      ensures queue == [] && !ended && outbox == []
    {
      this.signer, this.verifier := signer, verifier;
      queue, ended, outbox := [], false, [];
    }

    ghost function State(): Inbound
      reads this, verifier
    {
      Inbound(queue, ended, verifier.inboundSeq)
    }

    method PollNext() returns (r: NextResult)
      modifies this`queue, verifier
      ensures (r, State()) == Next(verifier.channel, old(State()))
    {
      while queue != []
        invariant ended == old(ended)
        invariant Next(verifier.channel, State()) == Next(verifier.channel, old(State()))
        decreases |queue|
      {
        var item := queue[0];
        queue := queue[1..];
        if item.Broken? {
          return NextFailed;
        }
        match item.message.msgType {
          case PingType =>
          case PongType =>
          case CloseType =>
            return NextEnded;
          case _ =>
            var decoded := verifier.Decode(item.message.body);
            if decoded.Err? {
              return NextFailed;
            }
            var message := TungsteniteTryFromFrame(decoded.value);
            return if message.Ok? then NextMessage(message.value) else NextFailed;
        }
      }
      r := if ended then NextEnded else NextPending;
    }

    /** Signs before it hands over: the counter moves even when the transport refuses the message. */
    method StartSend(item: TungsteniteMessage, accepted: bool) returns (ok: bool)
      modifies this`outbox, signer
      ensures ok == accepted
      ensures signer.outboundSeq == SaturatingSucc(old(signer.outboundSeq))
      ensures outbox == if accepted
                        then old(outbox) + [NetMessage(BinaryType, EncodeAt(signer.channel, signer.outboundSeq, TungsteniteIntoFrame(item)))]
                        else old(outbox)
    {
      var raw := signer.Encode(TungsteniteIntoFrame(item));
      if accepted {
        outbox := outbox + [NetMessage(BinaryType, raw)];
      }
      ok := accepted;
    }
  }

  // ----- the byte stream -----

  class WsMessageStreamIo {
    const ws: SignedWebSocket
    var readBuf: seq<Byte>
    var flushing: bool

    constructor (ws: SignedWebSocket)
      ensures this.ws == ws && readBuf == [] && !flushing
    {
      this.ws := ws;
      readBuf, flushing := [], false;
    }

    method PollRead(room: nat) returns (r: ReadResult)
      modifies this`readBuf, ws`queue, ws.verifier
      ensures (r, ws.State(), readBuf) == Read(ws.verifier.channel, old(ws.State()), old(readBuf), room)
    {
      while true
        invariant ws.ended == old(ws.ended)
        invariant Read(ws.verifier.channel, ws.State(), readBuf, room)
                  == Read(ws.verifier.channel, old(ws.State()), old(readBuf), room)
        decreases |ws.queue|, if readBuf == [] then 1 else 0
      {
        if readBuf != [] {
          var n := if room < |readBuf| then room else |readBuf|;
          var bytes := readBuf[..n];
          readBuf := readBuf[n..];
          return ReadReady(bytes);
        }
        var next := ws.PollNext();
        match next {
          case NextPending => return ReadPending;
          case NextFailed => return ReadFailed;
          case NextEnded => return ReadReady([]);
          case NextMessage(m) =>
            match ReadMessage(m) {
              case Data(bytes) =>
                readBuf := readBuf + bytes;
                assert readBuf == bytes;
              case Skip =>
              case Eof => return ReadReady([]);
            }
        }
      }
    }

    ghost function Out(): Outbound
      reads this, ws, ws.signer
    {
      Outbound(ws.signer.outboundSeq, ws.outbox, flushing)
    }

    method PollWrite(buf: seq<Byte>, ready: Answer, accepted: bool, flush: Answer) returns (r: WriteResult)
      modifies this`flushing, ws`outbox, ws.signer
      ensures (r, Out()) == Write(ws.signer.channel, old(Out()), buf, ready, accepted, flush)
    {
      if buf == [] {
        return WriteReady(0);
      }
      if !flushing {
        if ready.NotYet? { return WritePending; }
        if ready.Failure? { return WriteFailed; }
        var ok := ws.StartSend(TBinary(buf), accepted);
        if !ok { return WriteFailed; }
        flushing := true;
      }
      if flush.NotYet? { return WritePending; }
      if flush.Failure? { return WriteFailed; }
      flushing := false;
      return WriteReady(|buf|);
    }

    /** `poll_flush`, and `poll_shutdown` with the answer to `poll_close`. */
    method PollFlush(flush: Answer) returns (r: Answer)
      modifies this`flushing
      ensures r == flush && Out() == Flush(old(Out()), flush)
    {
      if flush.Done? {
        flushing := false;
      }
      r := flush;
    }
  }
}
