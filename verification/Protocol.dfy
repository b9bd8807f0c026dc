/**
 * Conversions between native WebSocket messages and relay frames
 * (crates/relay-ws/src/protocol.rs), and between the two native message types
 * (crates/relay-tunnel-core/src/ws_io.rs).
 */
module Protocol {
  import opened Wrappers
  import Utf8

  datatype MessageType = TextType | BinaryType | PingType | PongType | CloseType

  datatype Frame = Frame(msgType: MessageType, payload: seq<Byte>)

  type U16 = n: nat | n < 0x1_0000

  datatype CloseFrame = CloseFrame(code: U16, reason: string)

  datatype AxumMessage =
    | Text(text: string)
    | Binary(data: seq<Byte>)
    | Ping(data: seq<Byte>)
    | Pong(data: seq<Byte>)
    | Close(frame: Option<CloseFrame>)

  /** tungstenite has one more case: a raw frame, which is never read from a socket. */
  datatype TungsteniteMessage =
    | TText(text: string)
    | TBinary(data: seq<Byte>)
    | TPing(data: seq<Byte>)
    | TPong(data: seq<Byte>)
    | TClose(frame: Option<CloseFrame>)
    | TRawFrame(raw: seq<Byte>)

  datatype FrameError = InvalidUtf8Text | InvalidClosePayload | InvalidUtf8Reason

  function ClosePayload(frame: Option<CloseFrame>): seq<Byte> {
    match frame
    case None => []
    case Some(f) => [f.code / 256, f.code % 256] + Utf8.Encode(f.reason)
  }

  function ParseClose(payload: seq<Byte>): Result<Option<CloseFrame>, FrameError> {
    if payload == [] then
      Ok(None)
    else if |payload| < 2 then
      Err(InvalidClosePayload)
    else
      match Utf8.Decode(payload[2..])
      case None => Err(InvalidUtf8Reason)
      case Some(reason) => Ok(Some(CloseFrame(payload[0] as int * 256 + payload[1], reason)))
  }

  function AxumIntoFrame(m: AxumMessage): Frame {
    match m
    case Text(text) => Frame(TextType, Utf8.Encode(text))
    case Binary(data) => Frame(BinaryType, data)
    case Ping(data) => Frame(PingType, data)
    case Pong(data) => Frame(PongType, data)
    case Close(frame) => Frame(CloseType, ClosePayload(frame))
  }

  function AxumTryFromFrame(f: Frame): Result<AxumMessage, FrameError> {
    match f.msgType
    case TextType =>
      (match Utf8.Decode(f.payload)
       case None => Err(InvalidUtf8Text)
       case Some(text) => Ok(Text(text)))
    case BinaryType => Ok(Binary(f.payload))
    case PingType => Ok(Ping(f.payload))
    case PongType => Ok(Pong(f.payload))
    case CloseType =>
      match ParseClose(f.payload)
      case Err(e) => Err(e)
      case Ok(frame) => Ok(Close(frame))
  }

  function TungsteniteIntoFrame(m: TungsteniteMessage): Frame {
    match m
    case TText(text) => Frame(TextType, Utf8.Encode(text))
    case TBinary(data) => Frame(BinaryType, data)
    case TPing(data) => Frame(PingType, data)
    case TPong(data) => Frame(PongType, data)
    case TClose(frame) => Frame(CloseType, ClosePayload(frame))
    case TRawFrame(_) => Frame(BinaryType, [])
  }

  function TungsteniteTryFromFrame(f: Frame): Result<TungsteniteMessage, FrameError> {
    match f.msgType
    case TextType =>
      (match Utf8.Decode(f.payload)
       case None => Err(InvalidUtf8Text)
       case Some(text) => Ok(TText(text)))
    case BinaryType => Ok(TBinary(f.payload))
    case PingType => Ok(TPing(f.payload))
    case PongType => Ok(TPong(f.payload))
    case CloseType =>
      match ParseClose(f.payload)
      case Err(e) => Err(e)
      case Ok(frame) => Ok(TClose(frame))
  }

  function AxumToTungstenite(m: AxumMessage): TungsteniteMessage {
    match m
    case Text(text) => TText(text)
    case Binary(data) => TBinary(data)
    case Ping(data) => TPing(data)
    case Pong(data) => TPong(data)
    case Close(frame) => TClose(frame)
  }

  function TungsteniteToAxum(m: TungsteniteMessage): AxumMessage {
    match m
    case TText(text) => Text(text)
    case TBinary(data) => Binary(data)
    case TPing(data) => Ping(data)
    case TPong(data) => Pong(data)
    case TClose(frame) => Close(frame)
    case TRawFrame(_) => Binary([])
  }

  /** A close payload is empty, or a big-endian code followed by a UTF-8 reason (RFC 6455, section 5.5.1). */
  lemma CloseRoundTrip(frame: Option<CloseFrame>, payload: seq<Byte>)
    ensures ParseClose(ClosePayload(frame)) == Ok(frame)
    ensures ParseClose(payload) == Ok(frame) <==> payload == ClosePayload(frame)
  {
    CloseIff(frame, payload);
    CloseIff(frame, ClosePayload(frame));
  }

  /** The code stands first, its high byte before its low one; a payload of two bytes or more is read so whatever they are. */
  lemma CodeIsBigEndian(hi: Byte, lo: Byte, rest: seq<Byte>, frame: Option<CloseFrame>)
    ensures ParseClose([hi, lo] + rest) == Ok(frame) <==>
              frame.Some? && frame.value.code == 256 * hi as int + lo && rest == Utf8.Encode(frame.value.reason)
  {
    CloseIff(frame, [hi, lo] + rest);
    assert ([hi, lo] + rest)[2..] == rest;
    if frame.Some? { CodeAndReason([hi, lo] + rest, frame.value.code, Utf8.Encode(frame.value.reason)); }
  }

  lemma CloseIff(frame: Option<CloseFrame>, payload: seq<Byte>)
    ensures ParseClose(payload) == Ok(frame) <==> payload == ClosePayload(frame)
  {
    if |payload| >= 2 && frame.Some? {
      Utf8.DecodeIff(payload[2..], frame.value.reason);
      CodeAndReason(payload, frame.value.code, Utf8.Encode(frame.value.reason));
    }
  }

  /** A payload is a code and a reason exactly if its first two bytes are the code and the others the reason. */
  lemma CodeAndReason(payload: seq<Byte>, code: U16, reason: seq<Byte>)
    requires |payload| >= 2
    ensures payload == [code / 256, code % 256] + reason <==> payload[0] as int * 256 + payload[1] == code && payload[2..] == reason
  {
    assert payload == [payload[0], payload[1]] + payload[2..];
    if payload == [code / 256, code % 256] + reason {
      assert ([code / 256, code % 256] + reason)[2..] == reason;
    }
  }

  lemma TextReads(f: Frame, text: string)
    ensures AxumTryFromFrame(f) == Ok(Text(text)) <==> f == Frame(TextType, Utf8.Encode(text))
    ensures TungsteniteTryFromFrame(f) == Ok(TText(text)) <==> f == Frame(TextType, Utf8.Encode(text))
  {
    Utf8.DecodeIff(f.payload, text);
  }

  lemma CloseReads(f: Frame, frame: Option<CloseFrame>, payload: seq<Byte>)
    requires payload == ClosePayload(frame)
    ensures AxumTryFromFrame(f) == Ok(Close(frame)) <==> f == Frame(CloseType, payload)
    ensures TungsteniteTryFromFrame(f) == Ok(TClose(frame)) <==> f == Frame(CloseType, payload)
  {
    if f.msgType.CloseType? { ParseCloseIff(frame, f.payload, payload); }
  }

  lemma ParseCloseIff(frame: Option<CloseFrame>, payload: seq<Byte>, expected: seq<Byte>)
    requires expected == ClosePayload(frame)
    ensures ParseClose(payload) == Ok(frame) <==> payload == expected
  {
    CloseIff(frame, payload);
  }

  /** For axum the two conversions are inverse: a frame reads as m exactly when it is the frame of m. */
  lemma AxumRoundTrip(m: AxumMessage, f: Frame)
    ensures AxumTryFromFrame(f) == Ok(m) <==> f == AxumIntoFrame(m)
  {
    match m
    case Text(text) => TextReads(f, text);
    case Close(frame) => CloseReads(f, frame, ClosePayload(frame));
    case _ =>
  }

  /** For tungstenite the same holds, except that no frame reads as a raw frame. */
  lemma TungsteniteRoundTrip(m: TungsteniteMessage, f: Frame)
    ensures TungsteniteTryFromFrame(f) == Ok(m) <==> f == TungsteniteIntoFrame(m) && !m.TRawFrame?
  {
    match m
    case TText(text) => TextReads(f, text);
    case TClose(frame) => CloseReads(f, frame, ClosePayload(frame));
    case _ =>
  }

  /** Which frames are refused, and as what: a text that is not UTF-8, a one-byte close payload, a reason that is not UTF-8. */
  lemma RefusedFrames(f: Frame)
    ensures AxumTryFromFrame(f) == Err(InvalidUtf8Text) <==> f.msgType == TextType && forall s :: f.payload != Utf8.Encode(s)
    ensures AxumTryFromFrame(f) == Err(InvalidClosePayload) <==> f.msgType == CloseType && |f.payload| == 1
    ensures AxumTryFromFrame(f) == Err(InvalidUtf8Reason) <==>
              f.msgType == CloseType && |f.payload| >= 2 && forall s :: f.payload[2..] != Utf8.Encode(s)
  {
    NotUtf8(if f.msgType == CloseType && |f.payload| >= 2 then f.payload[2..] else f.payload);
  }

  lemma NotUtf8(payload: seq<Byte>)
    ensures Utf8.Decode(payload).None? <==> forall s :: payload != Utf8.Encode(s)
  {
    if s :| payload == Utf8.Encode(s) {
      Utf8.DecodeEncode(s);
    } else if Utf8.Decode(payload).Some? {
      Utf8.EncodeDecode(payload);
    }
  }

  /** Crossing from one library to the other keeps the frame, and crossing back gives the message again. */
  lemma BridgesAgree(a: AxumMessage, t: TungsteniteMessage, f: Frame)
    ensures TungsteniteIntoFrame(AxumToTungstenite(a)) == AxumIntoFrame(a)
    ensures AxumIntoFrame(TungsteniteToAxum(t)) == TungsteniteIntoFrame(t)
    ensures TungsteniteToAxum(AxumToTungstenite(a)) == a
    ensures AxumToTungstenite(TungsteniteToAxum(t)) == t <==> !t.TRawFrame?
    ensures AxumTryFromFrame(f).Err? <==> TungsteniteTryFromFrame(f).Err?
    ensures AxumTryFromFrame(f).Err? ==> TungsteniteTryFromFrame(f) == Err(AxumTryFromFrame(f).error)
    ensures AxumTryFromFrame(f).Ok? ==> TungsteniteTryFromFrame(f) == Ok(AxumToTungstenite(AxumTryFromFrame(f).value))
  {
  }
}
