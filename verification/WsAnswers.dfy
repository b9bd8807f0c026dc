/**
 * When each poll of the signed socket and of the byte stream gives which answer
 * (crates/relay-ws/src/signed.rs `poll_next`, crates/relay-tunnel-core/src/ws_io.rs
 * `poll_read` and `poll_write`), stated over what the transport has delivered.
 */
module WsAnswers {
  import opened Wrappers
  import opened Protocol
  import opened SigningText
  import opened WsCrypto
  import opened WsIo

  predicate Skipped(item: TransportItem) {
    item.Delivered? && (item.message.msgType.PingType? || item.message.msgType.PongType?)
  }

  /** The queue without the pings and pongs a transport may put between the frames. */
  function Relevant(queue: seq<TransportItem>): seq<TransportItem> {
    if queue == [] then []
    else if Skipped(queue[0]) then Relevant(queue[1..])
    else [queue[0]] + Relevant(queue[1..])
  }

  predicate IsClose(item: TransportItem) {
    item.Delivered? && item.message.msgType.CloseType?
  }

  /** The item is the peer's encoding of m at number n. */
  predicate Carries(ch: Channel, item: TransportItem, n: U64, m: TungsteniteMessage) {
    && item.Delivered? && (item.message.msgType.TextType? || item.message.msgType.BinaryType?)
    && !m.TRawFrame? && item.message.body == EncodeAt(ch, n, TungsteniteIntoFrame(m))
  }

  /** The item is broken, or is nothing the peer can have encoded at number n. */
  ghost predicate Fails(ch: Channel, item: TransportItem, n: U64) {
    !Skipped(item) && !IsClose(item) && forall m :: !Carries(ch, item, n, m)
  }

  /** The item is the peer's encoding of some frame at number n, whether or not that reads as a message. */
  ghost predicate Numbered(ch: Channel, item: TransportItem, n: U64) {
    && item.Delivered? && (item.message.msgType.TextType? || item.message.msgType.BinaryType?)
    && exists f :: item.message.body == EncodeAt(ch, n, f)
  }

  /** The number of the i-th frame after `inboundSeq` have been accepted. */
  function NumberAfter(inboundSeq: U64, i: nat): U64 {
    if inboundSeq + i < 0x1_0000_0000_0000_0000 then inboundSeq + i else 0xFFFF_FFFF_FFFF_FFFF
  }

  // ----- decode -----

  /** Which message is refused for what: the first of the checks that it does not pass. */
  lemma RefusedIff(ch: Channel, inboundSeq: U64, raw: Raw)
    ensures var r, n := DecodeAt(ch, inboundSeq, raw), NumberAfter(inboundSeq, 1);
            && (r == Err(InvalidJson) <==> raw.NotJson?)
            && (r == Err(UnsupportedVersion) <==> raw.Json? && raw.envelope.version != 1)
            && (r.Err? && r.error.InvalidSequence? <==> raw.Json? && raw.envelope.version == 1 && raw.envelope.seqNo != n)
            && (r.Err? && r.error.InvalidSequence? ==> r.error.expected == n && r.error.got == raw.envelope.seqNo)
            && (r == Err(InvalidPayload) <==>
                  raw.Json? && raw.envelope.version == 1 && raw.envelope.seqNo == n && raw.envelope.payload.None?)
            && (r == Err(InvalidSignatureEncoding) <==>
                  raw.Json? && raw.envelope.version == 1 && raw.envelope.seqNo == n && raw.envelope.payload.Some?
                  && raw.envelope.signature.None?)
            && (r == Err(InvalidSignature) <==>
                  raw.Json? && raw.envelope.version == 1 && raw.envelope.seqNo == n && raw.envelope.payload.Some?
                  && raw.envelope.signature.Some? && raw.envelope.signature.value !=
                       Signed(ch.key, WsInput(ch.session, ch.nonce, n, raw.envelope.msgType, raw.envelope.payload.value)))
  {
  }

  // ----- poll_next -----

  /** What an item that is no ping, pong or close is taken for. */
  lemma CarriesIff(ch: Channel, s: Inbound, item: TransportItem, m: TungsteniteMessage)
    requires !Skipped(item) && !IsClose(item) && item.Delivered?
    ensures var d := DecodeAt(ch, s.inboundSeq, item.message.body);
            Carries(ch, item, NumberAfter(s.inboundSeq, 1), m) <==> d.Ok? && TungsteniteTryFromFrame(d.value) == Ok(m)
  {
    DecodeAccepts(ch, s.inboundSeq, item.message.body, TungsteniteIntoFrame(m));
    var d := DecodeAt(ch, s.inboundSeq, item.message.body);
    if d.Ok? {
      DecodeAccepts(ch, s.inboundSeq, item.message.body, d.value);
      TungsteniteRoundTrip(m, d.value);
    }
  }

  lemma NumberedIff(ch: Channel, s: Inbound, item: TransportItem)
    requires !Skipped(item) && !IsClose(item) && item.Delivered?
    ensures Numbered(ch, item, NumberAfter(s.inboundSeq, 1)) <==> DecodeAt(ch, s.inboundSeq, item.message.body).Ok?
  {
    var d := DecodeAt(ch, s.inboundSeq, item.message.body);
    if d.Ok? { DecodeAccepts(ch, s.inboundSeq, item.message.body, d.value); }
    if f :| item.message.body == EncodeAt(ch, NumberAfter(s.inboundSeq, 1), f) {
      DecodeAccepts(ch, s.inboundSeq, item.message.body, f);
    }
  }

  /** `poll_next` on a queue whose first item counts. */
  lemma FirstItem(ch: Channel, s: Inbound)
    requires s.queue != [] && !Skipped(s.queue[0])
    ensures var (r, s') := Next(ch, s);
            && s'.queue == s.queue[1..] && s'.ended == s.ended
            && (r.NextEnded? <==> IsClose(s.queue[0]))
            && (r.NextFailed? <==> Fails(ch, s.queue[0], NumberAfter(s.inboundSeq, 1)))
            && !r.NextPending?
            && (forall m :: r == NextMessage(m) <==> Carries(ch, s.queue[0], NumberAfter(s.inboundSeq, 1), m))
            && s'.inboundSeq == if Numbered(ch, s.queue[0], NumberAfter(s.inboundSeq, 1)) then NumberAfter(s.inboundSeq, 1) else s.inboundSeq
  {
    var item := s.queue[0];
    if item.Delivered? && !IsClose(item) {
      NumberedIff(ch, s, item);
      forall m ensures Next(ch, s).0 == NextMessage(m) <==> Carries(ch, item, NumberAfter(s.inboundSeq, 1), m) {
        CarriesIff(ch, s, item, m);
      }
      if Next(ch, s).0.NextMessage? {
        assert Carries(ch, item, NumberAfter(s.inboundSeq, 1), Next(ch, s).0.message);
      }
    }
  }

  /**
   * `poll_next` answers by the first item that is no ping or pong: pending without
   * one on an open transport; ended without one on a transport that has ended, or
   * at a close; the message the item carries at the next number; and a failure for
   * any other item. It takes that item and no more, and its number is used up
   * exactly if the peer has encoded some frame in it.
   */
  lemma {:induction false} NextIff(ch: Channel, s: Inbound)
    ensures var (r, s') := Next(ch, s);
            var queue, n := Relevant(s.queue), NumberAfter(s.inboundSeq, 1);
            && (r.NextPending? <==> queue == [] && !s.ended)
            && (r.NextEnded? <==> (queue == [] && s.ended) || (queue != [] && IsClose(queue[0])))
            && (r.NextFailed? <==> queue != [] && Fails(ch, queue[0], n))
            && (forall m :: r == NextMessage(m) <==> queue != [] && Carries(ch, queue[0], n, m))
            && Relevant(s'.queue) == (if queue == [] then [] else queue[1..]) && s'.ended == s.ended
            && s'.inboundSeq == if queue != [] && Numbered(ch, queue[0], n) then n else s.inboundSeq
    decreases |s.queue|
  {
    if s.queue != [] {
      var rest := s.(queue := s.queue[1..]);
      if Skipped(s.queue[0]) {
        NextIff(ch, rest);
      } else {
        FirstItem(ch, s);
        assert Relevant(s.queue) == [s.queue[0]] + Relevant(rest.queue);
      }
    }
  }

  // ----- poll_read -----

  /** The bytes a message brings, if it is one that brings bytes. */
  function Brought(m: TungsteniteMessage): seq<Byte> {
    match m
    case TBinary(data) => data
    case TText(text) => Utf8Bytes(text)
    case _ => []
  }

  function Utf8Bytes(text: string): seq<Byte> {
    TungsteniteIntoFrame(TText(text)).payload
  }

  /** A message that neither ends the stream nor brings bytes. */
  predicate Idle(m: TungsteniteMessage) {
    !m.TClose? && Brought(m) == []
  }

  /** The first k items carry idle messages at the numbers after `inboundSeq`. */
  ghost predicate IdleBefore(ch: Channel, queue: seq<TransportItem>, inboundSeq: U64, k: nat) {
    k <= |queue| && forall i | 0 <= i < k :: exists m :: Idle(m) && Carries(ch, queue[i], NumberAfter(inboundSeq, i + 1), m)
  }

  /** What a read comes to at the first item that is not idle, or past them all. */
  datatype Outcome = Waits | Ends | Breaks | Brings(bytes: seq<Byte>)

  ghost predicate At(ch: Channel, queue: seq<TransportItem>, inboundSeq: U64, ended: bool, k: nat, o: Outcome)
    requires k <= |queue|
  {
    var n := NumberAfter(inboundSeq, k + 1);
    match o
    case Waits => k == |queue| && !ended
    case Ends => (k == |queue| && ended) || (k < |queue| && (IsClose(queue[k]) || exists m: TungsteniteMessage :: m.TClose? && Carries(ch, queue[k], n, m)))
    case Breaks => k < |queue| && Fails(ch, queue[k], n)
    case Brings(bytes) => bytes != [] && k < |queue| && exists m: TungsteniteMessage :: !m.TClose? && Brought(m) == bytes && Carries(ch, queue[k], n, m)
  }

  /** After some idle messages the read comes to that. */
  ghost predicate ComesTo(ch: Channel, queue: seq<TransportItem>, inboundSeq: U64, ended: bool, o: Outcome) {
    exists k | 0 <= k <= |queue| :: IdleBefore(ch, queue, inboundSeq, k) && At(ch, queue, inboundSeq, ended, k, o)
  }

  function Answered(o: Outcome, room: nat): ReadResult {
    match o
    case Waits => ReadPending
    case Breaks => ReadFailed
    case Ends => ReadReady([])
    case Brings(bytes) => ReadReady(if room < |bytes| then bytes[..room] else bytes)
  }

  lemma NumbersShift(inboundSeq: U64, i: nat)
    ensures NumberAfter(NumberAfter(inboundSeq, 1), i) == NumberAfter(inboundSeq, i + 1)
  {
  }

  /** One idle message in front changes nothing but the number. */
  lemma ComesToAfterIdle(ch: Channel, item: TransportItem, m: TungsteniteMessage, rest: seq<TransportItem>, inboundSeq: U64,
                         ended: bool, o: Outcome)
    requires Idle(m) && Carries(ch, item, NumberAfter(inboundSeq, 1), m)
    requires ComesTo(ch, rest, NumberAfter(inboundSeq, 1), ended, o)
    ensures ComesTo(ch, [item] + rest, inboundSeq, ended, o)
  {
    var next := NumberAfter(inboundSeq, 1);
    var k :| 0 <= k <= |rest| && IdleBefore(ch, rest, next, k) && At(ch, rest, next, ended, k, o);
    var queue := [item] + rest;
    IdleInFront(ch, item, m, rest, inboundSeq, k);
    NumbersShift(inboundSeq, k + 1);
    assert k < |rest| ==> queue[k + 1] == rest[k];
    assert At(ch, queue, inboundSeq, ended, k + 1, o);
  }

  lemma IdleInFront(ch: Channel, item: TransportItem, m: TungsteniteMessage, rest: seq<TransportItem>, inboundSeq: U64, k: nat)
    requires Idle(m) && Carries(ch, item, NumberAfter(inboundSeq, 1), m)
    requires IdleBefore(ch, rest, NumberAfter(inboundSeq, 1), k)
    ensures IdleBefore(ch, [item] + rest, inboundSeq, k + 1)
  {
    var queue, next := [item] + rest, NumberAfter(inboundSeq, 1);
    forall i | 0 <= i < k + 1 ensures exists x :: Idle(x) && Carries(ch, queue[i], NumberAfter(inboundSeq, i + 1), x) {
      if i == 0 {
        assert Carries(ch, queue[0], NumberAfter(inboundSeq, 1), m);
      } else {
        NumbersShift(inboundSeq, i);
        var x :| Idle(x) && Carries(ch, rest[i - 1], NumberAfter(next, i), x);
        assert Carries(ch, queue[i], NumberAfter(inboundSeq, i + 1), x);
      }
    }
  }

  lemma ComesToHere(ch: Channel, queue: seq<TransportItem>, inboundSeq: U64, ended: bool, o: Outcome)
    requires At(ch, queue, inboundSeq, ended, 0, o)
    ensures ComesTo(ch, queue, inboundSeq, ended, o)
  {
    assert IdleBefore(ch, queue, inboundSeq, 0);
  }

  /** What the message that is not idle brings the read to. */
  lemma MessageComesTo(ch: Channel, s: Inbound, m: TungsteniteMessage) returns (o: Outcome)
    requires Relevant(s.queue) != [] && Carries(ch, Relevant(s.queue)[0], NumberAfter(s.inboundSeq, 1), m) && !Idle(m)
    ensures ComesTo(ch, Relevant(s.queue), s.inboundSeq, s.ended, o)
    ensures o == if m.TClose? then Ends else Brings(Brought(m))
  {
    o := if m.TClose? then Ends else Brings(Brought(m));
    ComesToHere(ch, Relevant(s.queue), s.inboundSeq, s.ended, o);
  }

  /** How a read goes on from the message it got. */
  lemma ReadOfMessage(ch: Channel, s: Inbound, room: nat)
    requires Next(ch, s).0.NextMessage?
    ensures var (next, s') := Next(ch, s);
            var m := next.message;
            Read(ch, s, [], room).0 ==
              if Idle(m) then Read(ch, s', [], room).0
              else if m.TClose? then ReadReady([])
              else ReadReady(if room < |Brought(m)| then Brought(m)[..room] else Brought(m))
  {
    var m := Next(ch, s).0.message;
    assert !m.TClose? && !Idle(m) ==> Brought(m)[..|Brought(m)|] == Brought(m);
  }

  /** Every read into an empty buffer comes to one of the four, and answers by it. */
  lemma {:induction false} ReadComesTo(ch: Channel, s: Inbound, room: nat) returns (o: Outcome)
    ensures ComesTo(ch, Relevant(s.queue), s.inboundSeq, s.ended, o) && Read(ch, s, [], room).0 == Answered(o, room)
    decreases |s.queue|
  {
    var queue := Relevant(s.queue);
    var (r, s') := Next(ch, s);
    NextIff(ch, s);
    match r
    case NextPending =>
      o := Waits;
      ComesToHere(ch, queue, s.inboundSeq, s.ended, o);
    case NextEnded =>
      o := Ends;
      ComesToHere(ch, queue, s.inboundSeq, s.ended, o);
    case NextFailed =>
      o := Breaks;
      ComesToHere(ch, queue, s.inboundSeq, s.ended, o);
    case NextMessage(m) =>
      ReadOfMessage(ch, s, room);
      if Idle(m) {
        o := ReadComesTo(ch, s', room);
        ComesToAfterIdle(ch, queue[0], m, queue[1..], s.inboundSeq, s.ended, o);
        assert [queue[0]] + queue[1..] == queue;
      } else {
        o := MessageComesTo(ch, s, m);
      }
  }

  /** An item carries at most one message at a number. */
  lemma CarriesOne(ch: Channel, item: TransportItem, n: U64, m: TungsteniteMessage, m': TungsteniteMessage)
    requires Carries(ch, item, n, m) && Carries(ch, item, n, m')
    ensures m == m'
  {
    var f := TungsteniteIntoFrame(m);
    assert f == TungsteniteIntoFrame(m');
    TungsteniteRoundTrip(m, f);
    TungsteniteRoundTrip(m', f);
  }

  /** What a queue comes to at one item excludes that the item is idle. */
  lemma NotIdleAt(ch: Channel, queue: seq<TransportItem>, inboundSeq: U64, ended: bool, k: nat, o: Outcome, j: nat)
    requires k <= |queue| && At(ch, queue, inboundSeq, ended, k, o) && IdleBefore(ch, queue, inboundSeq, j)
    ensures j <= k
  {
    if k < j {
      var n := NumberAfter(inboundSeq, k + 1);
      var m :| Idle(m) && Carries(ch, queue[k], n, m);
      if o.Ends? && !IsClose(queue[k]) {
        var x: TungsteniteMessage :| x.TClose? && Carries(ch, queue[k], n, x);
        CarriesOne(ch, queue[k], n, m, x);
      } else if o.Brings? {
        var x: TungsteniteMessage :| !x.TClose? && Brought(x) == o.bytes && Carries(ch, queue[k], n, x);
        CarriesOne(ch, queue[k], n, m, x);
      }
      assert false;
    }
  }

  /** A queue comes to one outcome only. */
  lemma ComesToOne(ch: Channel, queue: seq<TransportItem>, inboundSeq: U64, ended: bool, o: Outcome, o': Outcome)
    requires ComesTo(ch, queue, inboundSeq, ended, o) && ComesTo(ch, queue, inboundSeq, ended, o')
    ensures o == o'
  {
    var k :| 0 <= k <= |queue| && IdleBefore(ch, queue, inboundSeq, k) && At(ch, queue, inboundSeq, ended, k, o);
    var l :| 0 <= l <= |queue| && IdleBefore(ch, queue, inboundSeq, l) && At(ch, queue, inboundSeq, ended, l, o');
    NotIdleAt(ch, queue, inboundSeq, ended, k, o, l);
    NotIdleAt(ch, queue, inboundSeq, ended, l, o', k);
    OneOutcomeAt(ch, queue, inboundSeq, ended, k, o, o');
  }

  lemma OneOutcomeAt(ch: Channel, queue: seq<TransportItem>, inboundSeq: U64, ended: bool, k: nat, o: Outcome, o': Outcome)
    requires k <= |queue| && At(ch, queue, inboundSeq, ended, k, o) && At(ch, queue, inboundSeq, ended, k, o')
    ensures o == o'
  {
    if k < |queue| {
      var n := NumberAfter(inboundSeq, k + 1);
      forall m, m' | Carries(ch, queue[k], n, m) && Carries(ch, queue[k], n, m') ensures m == m' {
        CarriesOne(ch, queue[k], n, m, m');
      }
    }
  }

  /**
   * `poll_read` with nothing buffered, for any room: it is pending exactly if all
   * that counts is idle and the transport is open, reads as the end exactly at the
   * end of the transport or at a close, fails exactly at an item the peer cannot
   * have encoded, and otherwise brings the first bytes there are.
   */
  lemma ReadIff(ch: Channel, s: Inbound, room: nat, o: Outcome)
    ensures ComesTo(ch, Relevant(s.queue), s.inboundSeq, s.ended, o) ==> Read(ch, s, [], room).0 == Answered(o, room)
    ensures exists x :: ComesTo(ch, Relevant(s.queue), s.inboundSeq, s.ended, x)
    ensures Read(ch, s, [], room).0.ReadPending? <==> ComesTo(ch, Relevant(s.queue), s.inboundSeq, s.ended, Waits)
    ensures Read(ch, s, [], room).0.ReadFailed? <==> ComesTo(ch, Relevant(s.queue), s.inboundSeq, s.ended, Breaks)
    ensures room > 0 ==>
              (Read(ch, s, [], room).0 == ReadReady([]) <==> ComesTo(ch, Relevant(s.queue), s.inboundSeq, s.ended, Ends))
  {
    var queue := Relevant(s.queue);
    var x := ReadComesTo(ch, s, room);
    forall y | ComesTo(ch, queue, s.inboundSeq, s.ended, y) ensures y == x {
      ComesToOne(ch, queue, s.inboundSeq, s.ended, x, y);
    }
    BringsSome(ch, queue, s.inboundSeq, s.ended, x);
  }

  lemma BringsSome(ch: Channel, queue: seq<TransportItem>, inboundSeq: U64, ended: bool, o: Outcome)
    requires ComesTo(ch, queue, inboundSeq, ended, o)
    ensures o.Brings? ==> o.bytes != []
  {
  }

  /** With bytes buffered a read gives as many of them as there is room for, and asks nobody. */
  lemma ReadBuffered(ch: Channel, s: Inbound, readBuf: seq<Byte>, room: nat)
    requires readBuf != []
    ensures var (r, s', readBuf') := Read(ch, s, readBuf, room);
            && r.ReadReady? && r.bytes + readBuf' == readBuf && s' == s
            && |r.bytes| == if room < |readBuf| then room else |readBuf|
  {
  }

  // ----- poll_write -----

  /**
   * `poll_write`: nothing to write is written at once; a buffer in flight waits
   * for its flush alone; and a new one waits for the transport to be ready, is
   * handed over, and is then flushed.
   */
  lemma WriteIff(ch: Channel, s: Outbound, buf: seq<Byte>, ready: Answer, accepted: bool, flush: Answer)
    ensures var r := Write(ch, s, buf, ready, accepted, flush).0;
            && (r.WriteReady? <==> buf == [] || ((s.flushing || (ready.Done? && accepted)) && flush.Done?))
            && (r.WriteReady? ==> r.n == |buf|)
            && (r.WritePending? <==> buf != [] && if s.flushing then flush.NotYet? else ready.NotYet? || (ready.Done? && accepted && flush.NotYet?))
  {
  }

  /** After a write a message is in flight exactly if one was started, now or before, and its flush has not completed. */
  lemma InFlightIff(ch: Channel, s: Outbound, buf: seq<Byte>, ready: Answer, accepted: bool, flush: Answer)
    ensures var s' := Write(ch, s, buf, ready, accepted, flush).1;
            && (s'.flushing <==> if buf == [] then s.flushing else (s.flushing || (ready.Done? && accepted)) && !flush.Done?)
            && (|s'.outbox| == |s.outbox| + if buf != [] && !s.flushing && ready.Done? && accepted then 1 else 0)
            && (s'.outboundSeq == s.outboundSeq <==> buf == [] || s.flushing || !ready.Done? || s.outboundSeq == 0xFFFF_FFFF_FFFF_FFFF)
  {
  }
}
