/**
 * The signed frame codec (crates/relay-ws/src/crypto.rs). Signatures are ideal:
 * only the holder of a key makes a signature that verifies under it.
 */
module WsCrypto {
  import opened Wrappers
  import opened Protocol
  import opened SigningText

  type Key = nat

  datatype Signature = Signed(key: Key, text: string) | Forged(tag: nat)

  predicate Verifies(key: Key, text: string, signature: Signature) {
    signature == Signed(key, text)
  }

  /** A parsed envelope; a field is None when its base64 text does not decode. */
  datatype Envelope = Envelope(version: nat, seqNo: U64, msgType: MessageType,
                               payload: Option<seq<Byte>>, signature: Option<Signature>)

  /** What `serde_json` makes of the bytes of a message. */
  datatype Raw = NotJson | Json(envelope: Envelope)

  datatype DecodeError =
    | InvalidJson
    | UnsupportedVersion
    | InvalidSequence(expected: U64, got: U64)
    | InvalidPayload
    | InvalidSignatureEncoding
    | InvalidSignature

  /** One direction of a signed channel: the session and nonce it is bound to, and the key that signs it. */
  datatype Channel = Channel(session: Uuid, nonce: Uuid, key: Key)

  const MaxSeq: U64 := 0xFFFF_FFFF_FFFF_FFFF
  const EnvelopeVersion := 1

  /** `saturating_add(1)` on a u64. */
  function SaturatingSucc(n: U64): U64 {
    if n == MaxSeq then MaxSeq else n + 1
  }

  function FrameText(ch: Channel, seqNo: U64, f: Frame): string {
    WsInput(ch.session, ch.nonce, seqNo, f.msgType, f.payload)
  }

  function EncodeAt(ch: Channel, seqNo: U64, f: Frame): Raw {
    Json(Envelope(EnvelopeVersion, seqNo, f.msgType, Some(f.payload), Some(Signed(ch.key, FrameText(ch, seqNo, f)))))
  }

  function DecodeAt(ch: Channel, inboundSeq: U64, raw: Raw): Result<Frame, DecodeError> {
    if raw.NotJson? then Err(InvalidJson)
    else
      var e := raw.envelope;
      if e.version != EnvelopeVersion then Err(UnsupportedVersion)
      else if e.seqNo != SaturatingSucc(inboundSeq) then Err(InvalidSequence(SaturatingSucc(inboundSeq), e.seqNo))
      else if e.payload.None? then Err(InvalidPayload)
      else if e.signature.None? then Err(InvalidSignatureEncoding)
      else
        var f := Frame(e.msgType, e.payload.value);
        if Verifies(ch.key, FrameText(ch, e.seqNo, f), e.signature.value) then Ok(f) else Err(InvalidSignature)
  }

  class WsFrameSigner {
    const channel: Channel
    var outboundSeq: U64

    constructor (channel: Channel)
      ensures this.channel == channel && outboundSeq == 0
    {
      this.channel := channel;
      outboundSeq := 0;
    }

    method Encode(frame: Frame) returns (raw: Raw)
      modifies this`outboundSeq
      ensures outboundSeq == SaturatingSucc(old(outboundSeq))
      ensures raw == EncodeAt(channel, outboundSeq, frame)
    {
      outboundSeq := SaturatingSucc(outboundSeq);
      var signature := Signed(channel.key,
                              WsInput(channel.session, channel.nonce, outboundSeq, frame.msgType, frame.payload));
      raw := Json(Envelope(EnvelopeVersion, outboundSeq, frame.msgType, Some(frame.payload), Some(signature)));
    }
  }

  class WsFrameVerifier {
    const channel: Channel
    var inboundSeq: U64

    constructor (channel: Channel)
      ensures this.channel == channel && inboundSeq == 0
    {
      this.channel := channel;
      inboundSeq := 0;
    }

    /** Accepts exactly the peer's encoding of some frame at the next sequence number; a refusal changes nothing. */
    method Decode(raw: Raw) returns (r: Result<Frame, DecodeError>)
      modifies this`inboundSeq
      ensures r == DecodeAt(channel, old(inboundSeq), raw)
      ensures r.Ok? <==> exists f :: raw == EncodeAt(channel, SaturatingSucc(old(inboundSeq)), f)
      ensures inboundSeq == if r.Ok? then SaturatingSucc(old(inboundSeq)) else old(inboundSeq)
    {
      forall f {
        DecodeAccepts(channel, inboundSeq, raw, f);
      }
      match raw
      case NotJson => return Err(InvalidJson);
      case Json(e) =>
        if e.version != EnvelopeVersion {
          return Err(UnsupportedVersion);
        }
        var expected := SaturatingSucc(inboundSeq);
        if e.seqNo != expected {
          return Err(InvalidSequence(expected, e.seqNo));
        }
        if e.payload.None? {
          return Err(InvalidPayload);
        }
        var text := WsInput(channel.session, channel.nonce, e.seqNo, e.msgType, e.payload.value);
        if e.signature.None? {
          return Err(InvalidSignatureEncoding);
        }
        if !Verifies(channel.key, text, e.signature.value) {
          return Err(InvalidSignature);
        }
        inboundSeq := e.seqNo;
        return Ok(Frame(e.msgType, e.payload.value));
    }
  }

  /** A message is accepted as f exactly when it is the peer's encoding of f at the next sequence number. */
  lemma DecodeAccepts(ch: Channel, inboundSeq: U64, raw: Raw, f: Frame)
    ensures DecodeAt(ch, inboundSeq, raw) == Ok(f) <==> raw == EncodeAt(ch, SaturatingSucc(inboundSeq), f)
  {
  }

  // ----- whole runs -----

  /** The counter of a signer or verifier after n frames. */
  function CounterAfter(n: nat): U64 {
    if n < MaxSeq then n else MaxSeq
  }

  /** The sequence number of the i-th frame. */
  function SeqAt(i: nat): U64 {
    CounterAfter(i + 1)
  }

  /** The messages a signer makes of a list of frames. */
  function EncodeAll(ch: Channel, frames: seq<Frame>): seq<Raw> {
    seq(|frames|, i requires 0 <= i < |frames| => EncodeAt(ch, SeqAt(i), frames[i]))
  }

  /** The frames a verifier accepts from a list of messages, and its counter afterwards. */
  function Receive(ch: Channel, inboundSeq: U64, raws: seq<Raw>): (seq<Frame>, U64)
    decreases raws
  {
    if raws == [] then
      ([], inboundSeq)
    else
      match DecodeAt(ch, inboundSeq, raws[0])
      case Err(_) => Receive(ch, inboundSeq, raws[1..])
      case Ok(f) =>
        var (rest, last) := Receive(ch, SaturatingSucc(inboundSeq), raws[1..]);
        ([f] + rest, last)
  }

  /** Texts signed with the channel's key that are no frame of this channel: other channels, requests, responses. */
  ghost predicate Elsewhere(ch: Channel, others: set<string>) {
    forall text, k, f | text in others :: text != FrameText(ch, k, f)
  }

  /** The texts the sender's key has signed once it has encoded `frames` on the channel. */
  ghost function SignedTexts(ch: Channel, frames: seq<Frame>, others: set<string>): set<string> {
    (set i | 0 <= i < |frames| :: FrameText(ch, SeqAt(i), frames[i])) + others
  }

  /** A network can drop, repeat, reorder, alter and inject, but signs nothing itself. */
  ghost predicate Authentic(ch: Channel, texts: set<string>, raw: Raw) {
    raw.Json? && raw.envelope.signature.Some? && raw.envelope.signature.value.Signed?
    && raw.envelope.signature.value.key == ch.key
    ==> raw.envelope.signature.value.text in texts
  }

  ghost predicate AllAuthentic(ch: Channel, texts: set<string>, raws: seq<Raw>) {
    forall raw | raw in raws :: Authentic(ch, texts, raw)
  }

  /** An accepted message is the encoding of the very frame the sender numbered next. */
  lemma AcceptedWasSent(ch: Channel, frames: seq<Frame>, others: set<string>, inboundSeq: U64, raw: Raw)
    requires |frames| < MaxSeq && inboundSeq <= |frames| && Elsewhere(ch, others)
    requires Authentic(ch, SignedTexts(ch, frames, others), raw)
    requires DecodeAt(ch, inboundSeq, raw).Ok?
    ensures inboundSeq < |frames| && DecodeAt(ch, inboundSeq, raw).value == frames[inboundSeq]
    ensures raw == EncodeAll(ch, frames)[inboundSeq]
  {
    var f := DecodeAt(ch, inboundSeq, raw).value;
    var k := SaturatingSucc(inboundSeq);
    DecodeAccepts(ch, inboundSeq, raw, f);
    assert FrameText(ch, k, f) in SignedTexts(ch, frames, others);
    var i :| 0 <= i < |frames| && FrameText(ch, SeqAt(i), frames[i]) == FrameText(ch, k, f);
    WsInputInjective(ch.session, ch.nonce, SeqAt(i), frames[i].msgType, frames[i].payload,
                     ch.session, ch.nonce, k, f.msgType, f.payload);
  }

  /** Whatever the network does, the accepted frames continue the sent ones. */
  lemma {:induction false} ReceivePrefix(ch: Channel, frames: seq<Frame>, others: set<string>, inboundSeq: U64, raws: seq<Raw>)
    requires |frames| < MaxSeq && inboundSeq <= |frames| && Elsewhere(ch, others)
    requires AllAuthentic(ch, SignedTexts(ch, frames, others), raws)
    ensures Receive(ch, inboundSeq, raws).0 <= frames[inboundSeq..]
    ensures Receive(ch, inboundSeq, raws).1 == inboundSeq + |Receive(ch, inboundSeq, raws).0|
    decreases raws
  {
    if raws != [] {
      assert raws[0] in raws;
      if DecodeAt(ch, inboundSeq, raws[0]).Ok? {
        AcceptedWasSent(ch, frames, others, inboundSeq, raws[0]);
        ReceivePrefix(ch, frames, others, inboundSeq + 1, raws[1..]);
        assert frames[inboundSeq..] == [frames[inboundSeq]] + frames[inboundSeq + 1..];
      } else {
        ReceivePrefix(ch, frames, others, inboundSeq, raws[1..]);
      }
    }
  }

  ghost predicate Subsequence<T>(part: seq<T>, whole: seq<T>) {
    if part == [] then true
    else if whole == [] then false
    else if part[0] == whole[0] then Subsequence(part[1..], whole[1..])
    else Subsequence(part, whole[1..])
  }

  /**
   * A refused message costs nothing: if the sent messages arrive in order among
   * any others, every frame is accepted.
   */
  lemma {:induction false} ReceiveAll(ch: Channel, frames: seq<Frame>, others: set<string>, inboundSeq: U64, raws: seq<Raw>)
    requires |frames| < MaxSeq && inboundSeq <= |frames| && Elsewhere(ch, others)
    requires AllAuthentic(ch, SignedTexts(ch, frames, others), raws)
    requires Subsequence(EncodeAll(ch, frames)[inboundSeq..], raws)
    ensures Receive(ch, inboundSeq, raws).0 == frames[inboundSeq..]
    decreases raws
  {
    var sent := EncodeAll(ch, frames);
    if raws == [] {
      assert sent[inboundSeq..] == [];
    } else {
      assert raws[0] in raws;
      if DecodeAt(ch, inboundSeq, raws[0]).Ok? {
        AcceptedWasSent(ch, frames, others, inboundSeq, raws[0]);
        assert sent[inboundSeq..][1..] == sent[inboundSeq + 1..];
        ReceiveAll(ch, frames, others, inboundSeq + 1, raws[1..]);
        assert frames[inboundSeq..] == [frames[inboundSeq]] + frames[inboundSeq + 1..];
      } else {
        if inboundSeq < |frames| {
          DecodeAccepts(ch, inboundSeq, raws[0], frames[inboundSeq]);
        }
        ReceiveAll(ch, frames, others, inboundSeq, raws[1..]);
      }
    }
  }

  lemma ReceiveNext(ch: Channel, inboundSeq: U64, f: Frame, rest: seq<Raw>)
    ensures Receive(ch, inboundSeq, [EncodeAt(ch, SaturatingSucc(inboundSeq), f)] + rest).0
            == [f] + Receive(ch, SaturatingSucc(inboundSeq), rest).0
  {
    var raws := [EncodeAt(ch, SaturatingSucc(inboundSeq), f)] + rest;
    DecodeAccepts(ch, inboundSeq, raws[0], f);
    assert raws[1..] == rest;
  }

  lemma HeadFirst<T>(s: seq<T>, n: nat, tail: seq<T>)
    requires n < |s|
    ensures s[n..] + tail == [s[n]] + (s[n + 1..] + tail)
  {
  }

  /** In-order delivery of everything, with no bound on its length: both counters saturate alike. */
  lemma {:induction false} ReceiveInOrder(ch: Channel, frames: seq<Frame>, n: nat, tail: seq<Raw>)
    requires n <= |frames|
    ensures Receive(ch, CounterAfter(n), EncodeAll(ch, frames)[n..] + tail).0
            == frames[n..] + Receive(ch, CounterAfter(|frames|), tail).0
    decreases |frames| - n
  {
    var sent := EncodeAll(ch, frames);
    if n == |frames| {
      assert sent[n..] + tail == tail;
    } else {
      ReceiveNext(ch, CounterAfter(n), frames[n], sent[n + 1..] + tail);
      ReceiveInOrder(ch, frames, n + 1, tail);
      HeadFirst(sent, n, tail);
      HeadFirst(frames, n, Receive(ch, CounterAfter(|frames|), tail).0);
    }
  }

  /** With saturated counters the last message is accepted twice. */
  lemma SaturatedRepeats(ch: Channel, frames: seq<Frame>, others: set<string>) returns (raws: seq<Raw>)
    requires |frames| >= MaxSeq
    ensures AllAuthentic(ch, SignedTexts(ch, frames, others), raws) && |Receive(ch, 0, raws).0| == |frames| + 1
  {
    var sent := EncodeAll(ch, frames);
    var last := |frames| - 1;
    raws := sent + [sent[last]];
    forall raw | raw in raws ensures Authentic(ch, SignedTexts(ch, frames, others), raw) {
      var i :| 0 <= i < |frames| && raw == sent[i];
    }
    ReceiveInOrder(ch, frames, 0, [sent[last]]);
    DecodeAccepts(ch, MaxSeq, sent[last], frames[last]);
    assert sent[0..] == sent;
  }

  /**
   * The channel is safe exactly below the saturation point: with 2^64 - 1 frames
   * or more, the last message is accepted a second time.
   */
  lemma PrefixSafetyIff(ch: Channel, frames: seq<Frame>, others: set<string>)
    requires Elsewhere(ch, others)
    ensures (forall raws | AllAuthentic(ch, SignedTexts(ch, frames, others), raws) :: Receive(ch, 0, raws).0 <= frames)
            <==> |frames| < MaxSeq
  {
    if |frames| < MaxSeq {
      forall raws | AllAuthentic(ch, SignedTexts(ch, frames, others), raws)
        ensures Receive(ch, 0, raws).0 <= frames
      {
        ReceivePrefix(ch, frames, others, 0, raws);
        assert frames[0..] == frames;
      }
    } else {
      var raws := SaturatedRepeats(ch, frames, others);
    }
  }
}
