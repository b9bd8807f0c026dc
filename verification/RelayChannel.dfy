/**
 * The relay tunnel end to end, as crates/desktop-bridge/src/tunnel.rs stacks it:
 * a byte stream over a signed WebSocket at both ends, and between them a network
 * that may drop, repeat, reorder, alter and inject messages.
 */
module RelayChannel {
  import opened Wrappers
  import opened Protocol
  import opened SigningText
  import opened WsCrypto
  import opened WsIo
  import opened WsAnswers

  /** Both endpoints, and the history the claims speak of. */
  datatype System = System(
    out: Outbound,
    inb: Inbound,
    readBuf: seq<Byte>,
    frames: seq<Frame>,      // frames signed on this channel
    others: set<string>,     // texts signed with the same key for other purposes
    accepted: seq<Byte>,     // bytes `poll_write` has reported as written
    inFlight: seq<Byte>,     // the buffer started but not yet reported
    refused: bool,           // the transport has refused a started message
    delivered: seq<Byte>)    // bytes `poll_read` has returned

  datatype Step =
    | WriteStep(buf: seq<Byte>, ready: Answer, took: bool, flush: Answer)
    | FlushStep(answer: Answer)
    | SignElsewhere(text: string)
    | Arrive(item: TransportItem)
    | EndTransport
    | ReadStep(room: nat)

  const Init := System(Outbound(0, [], false), Inbound([], false, 0), [], [], {}, [], [], false, [])

  /** Whether a `poll_write` gets as far as starting a message. */
  predicate Starts(s: System, step: Step)
    requires step.WriteStep?
  {
    step.buf != [] && !s.out.flushing && step.ready.Done?
  }

  function Apply(ch: Channel, s: System, step: Step): System {
    match step
    case WriteStep(buf, ready, took, flush) =>
      var (r, out) := Write(ch, s.out, buf, ready, took, flush);
      s.(out := out,
         frames := if Starts(s, step) then s.frames + [WriteFrame(buf)] else s.frames,
         refused := s.refused || (Starts(s, step) && !took),
         accepted := if r.WriteReady? && r.n <= |buf| then s.accepted + buf[..r.n] else s.accepted,
         inFlight := if !out.flushing then [] else if Starts(s, step) then buf else s.inFlight)
    case FlushStep(answer) =>
      var out := Flush(s.out, answer);
      s.(out := out, inFlight := if out.flushing then s.inFlight else [])
    case SignElsewhere(text) => s.(others := s.others + {text})
    case Arrive(item) => s.(inb := s.inb.(queue := s.inb.queue + [item]))
    case EndTransport => s.(inb := s.inb.(ended := true))
    case ReadStep(room) =>
      var (r, inb, readBuf) := Read(ch, s.inb, s.readBuf, room);
      s.(inb := inb, readBuf := readBuf, delivered := s.delivered + Bytes(r))
  }

  function Bytes(r: ReadResult): seq<Byte> {
    if r.ReadReady? then r.bytes else []
  }

  /**
   * The network carries only signatures the key has made, and sequence numbers
   * stay below saturation. The caller may do what it likes.
   */
  ghost predicate Allowed(ch: Channel, s: System, step: Step) {
    match step
    case WriteStep(_, _, _, _) => |s.frames| + 1 < MaxSeq
    case SignElsewhere(text) => Elsewhere(ch, {text})
    case Arrive(item) => ItemAuthentic(ch, SignedTexts(ch, s.frames, s.others), item)
    case _ => true
  }

  ghost predicate ItemAuthentic(ch: Channel, texts: set<string>, item: TransportItem) {
    item.Delivered? ==> Authentic(ch, texts, item.message.body)
  }

  ghost predicate QueueAuthentic(ch: Channel, texts: set<string>, queue: seq<TransportItem>) {
    forall item | item in queue :: ItemAuthentic(ch, texts, item)
  }

  ghost predicate Run(ch: Channel, s: System, steps: seq<Step>, end: System)
    decreases |steps|
  {
    if steps == [] then s == end
    else Allowed(ch, s, steps[0]) && Run(ch, Apply(ch, s, steps[0]), steps[1..], end)
  }

  /** The bytes the frames carry. */
  function Payloads(frames: seq<Frame>): seq<Byte> {
    if frames == [] then [] else Payloads(frames[..|frames| - 1]) + frames[|frames| - 1].payload
  }

  lemma PayloadsAppend(frames: seq<Frame>, f: Frame)
    ensures Payloads(frames + [f]) == Payloads(frames) + f.payload
  {
    assert (frames + [f])[..|frames|] == frames;
  }

  lemma {:induction false} PayloadsPrefix(frames: seq<Frame>, n: nat)
    requires n <= |frames|
    ensures Payloads(frames[..n]) <= Payloads(frames)
  {
    if n == |frames| {
      assert frames[..n] == frames;
    } else {
      var init := frames[..|frames| - 1];
      PayloadsPrefix(init, n);
      assert init[..n] == frames[..n];
    }
  }

  ghost predicate BinaryFrames(frames: seq<Frame>) {
    forall i | 0 <= i < |frames| :: frames[i].msgType == BinaryType
  }

  /** What holds whatever the caller does. */
  ghost predicate Invariant(ch: Channel, s: System) {
    && BinaryFrames(s.frames)
    && |s.frames| < MaxSeq
    && s.out.outboundSeq == |s.frames|
    && Elsewhere(ch, s.others)
    && ReaderInvariant(ch, s.frames, s.others, s.inb, s.readBuf, s.delivered)
    && (s.out.flushing <==> s.inFlight != [])
  }

  /** The bytes given to the sink are those reported as written and the buffer in flight, unless a message was refused. */
  predicate Accounted(s: System) {
    s.refused || Payloads(s.frames) == s.accepted + s.inFlight
  }

  /**
   * What the caller must not do while a buffer is in flight: complete a flush or
   * a shutdown, or complete a write of other bytes. Polls that do not complete
   * and writes of nothing do no harm.
   */
  predicate KeepsAccount(s: System, step: Step) {
    s.refused || !s.out.flushing ||
    match step
    case WriteStep(buf, _, _, flush) => buf == [] || !flush.Done? || buf == s.inFlight
    case FlushStep(answer) => !answer.Done?
    case _ => true
  }

  // ----- the reader -----

  /** A `poll_next` that yields a message yields the next frame's; otherwise the counter stands still. */
  lemma {:induction false} NextFollowsFrames(ch: Channel, frames: seq<Frame>, others: set<string>, s: Inbound)
    requires BinaryFrames(frames) && |frames| < MaxSeq && s.inboundSeq <= |frames| && Elsewhere(ch, others)
    requires QueueAuthentic(ch, SignedTexts(ch, frames, others), s.queue)
    ensures var (r, s') := Next(ch, s);
            && QueueAuthentic(ch, SignedTexts(ch, frames, others), s'.queue)
            && if r.NextMessage?
               then s.inboundSeq < |frames| && s'.inboundSeq == s.inboundSeq + 1
                    && r.message == TBinary(frames[s.inboundSeq].payload)
               else s'.inboundSeq == s.inboundSeq
    decreases |s.queue|
  {
    if s.queue != [] && s.queue[0].Delivered? {
      var m := s.queue[0].message;
      var rest := s.(queue := s.queue[1..]);
      assert ItemAuthentic(ch, SignedTexts(ch, frames, others), s.queue[0]);
      if m.msgType.PingType? || m.msgType.PongType? {
        NextFollowsFrames(ch, frames, others, rest);
      } else if !m.msgType.CloseType? && DecodeAt(ch, s.inboundSeq, m.body).Ok? {
        AcceptedWasSent(ch, frames, others, s.inboundSeq, m.body);
      }
    }
  }

  lemma ReadAfterNext(ch: Channel, s: Inbound, s': Inbound, bytes: seq<Byte>, room: nat)
    requires Next(ch, s) == (NextMessage(TBinary(bytes)), s')
    ensures Read(ch, s, [], room) == Read(ch, s', bytes, room)
  {
  }

  /** The reader's side of the invariant, after `delivered` bytes have been returned. */
  ghost predicate ReaderInvariant(ch: Channel, frames: seq<Frame>, others: set<string>, s: Inbound, readBuf: seq<Byte>, delivered: seq<Byte>) {
    && QueueAuthentic(ch, SignedTexts(ch, frames, others), s.queue)
    && s.inboundSeq <= |frames|
    && delivered + readBuf == Payloads(frames[..s.inboundSeq])
  }

  lemma NextPayload(ch: Channel, frames: seq<Frame>, others: set<string>, s: Inbound, delivered: seq<Byte>)
    requires BinaryFrames(frames) && |frames| < MaxSeq && Elsewhere(ch, others)
    requires ReaderInvariant(ch, frames, others, s, [], delivered) && Next(ch, s).0.NextMessage?
    ensures var (r, s') := Next(ch, s);
            r.message.TBinary? && ReaderInvariant(ch, frames, others, s', r.message.data, delivered)
  {
    NextFollowsFrames(ch, frames, others, s);
    var k := s.inboundSeq;
    assert frames[..k + 1] == frames[..k] + [frames[k]];
    PayloadsAppend(frames[..k], frames[k]);
    assert delivered + [] == delivered;
  }

  /** A `poll_read` moves bytes from the next frames to the caller and loses or adds none. */
  lemma {:induction false} ReadConserves(ch: Channel, frames: seq<Frame>, others: set<string>,
                                         s: Inbound, readBuf: seq<Byte>, room: nat, delivered: seq<Byte>)
    requires BinaryFrames(frames) && |frames| < MaxSeq && Elsewhere(ch, others)
    requires ReaderInvariant(ch, frames, others, s, readBuf, delivered)
    ensures var (r, s', readBuf') := Read(ch, s, readBuf, room);
            ReaderInvariant(ch, frames, others, s', readBuf', delivered + Bytes(r))
    decreases |s.queue|
  {
    if readBuf == [] {
      var (next, s') := Next(ch, s);
      if next.NextMessage? {
        NextPayload(ch, frames, others, s, delivered);
        ReadAfterNext(ch, s, s', next.message.data, room);
        ReadConserves(ch, frames, others, s', next.message.data, room, delivered);
      } else {
        NextFollowsFrames(ch, frames, others, s);
        assert delivered + [] == delivered;
      }
    } else {
      var n := if room < |readBuf| then room else |readBuf|;
      assert delivered + readBuf[..n] + readBuf[n..] == delivered + readBuf;
    }
  }

  // ----- the whole system -----

  lemma TextsGrow(ch: Channel, frames: seq<Frame>, f: Frame, others: set<string>, text: string)
    ensures SignedTexts(ch, frames, others) <= SignedTexts(ch, frames + [f], others)
    ensures SignedTexts(ch, frames, others) <= SignedTexts(ch, frames, others + {text})
  {
    forall t | t in SignedTexts(ch, frames, others) ensures t in SignedTexts(ch, frames + [f], others) {
      if t !in others {
        var i :| 0 <= i < |frames| && t == FrameText(ch, SeqAt(i), frames[i]);
        assert (frames + [f])[i] == frames[i];
      }
    }
  }

  lemma WriteKeepsInvariant(ch: Channel, s: System, step: Step)
    requires Invariant(ch, s) && Allowed(ch, s, step) && step.WriteStep?
    ensures Invariant(ch, Apply(ch, s, step))
  {
    var s' := Apply(ch, s, step);
    WriteMoves(ch, s, step);
    if Starts(s, step) {
      TextsGrow(ch, s.frames, WriteFrame(step.buf), s.others, "");
      assert s'.frames[..s.inb.inboundSeq] == s.frames[..s.inb.inboundSeq];
    }
  }

  /** What a `poll_write` does to the sender, case by case. */
  lemma WriteMoves(ch: Channel, s: System, step: Step)
    requires step.WriteStep? && s.out.outboundSeq == |s.frames| && |s.frames| + 1 < MaxSeq
    requires s.out.flushing <==> s.inFlight != []
    ensures var s' := Apply(ch, s, step);
            && s'.out.outboundSeq == |s'.frames| && (s'.out.flushing <==> s'.inFlight != [])
            && s'.frames == (if Starts(s, step) then s.frames + [WriteFrame(step.buf)] else s.frames)
            && s'.inb == s.inb && s'.readBuf == s.readBuf && s'.delivered == s.delivered && s'.others == s.others
  {
  }

  lemma AccountOfWrite(ch: Channel, s: System, step: Step)
    requires step.WriteStep? && !s.refused && Accounted(s) && (s.out.flushing <==> s.inFlight != [])
    ensures Accounted(Apply(ch, s, step)) <==> KeepsAccount(s, step)
  {
    var s' := Apply(ch, s, step);
    assert step.buf[..|step.buf|] == step.buf;
    if Starts(s, step) {
      PayloadsAppend(s.frames, WriteFrame(step.buf));
      assert s'.refused || s'.accepted + s'.inFlight == s.accepted + step.buf;
      assert s.inFlight == [] && s.accepted + [] == s.accepted;
    } else if step.buf != [] && s.out.flushing && step.flush.Done? {
      assert s'.accepted + s'.inFlight == s.accepted + step.buf;
      SameTail(s.accepted, s.inFlight, step.buf);
    } else {
      assert s'.accepted + s'.inFlight == s.accepted + s.inFlight;
    }
  }

  lemma SameTail<T>(a: seq<T>, x: seq<T>, y: seq<T>)
    ensures a + x == a + y <==> x == y
  {
    assert x == (a + x)[|a|..] && y == (a + y)[|a|..];
  }

  /** One step keeps the account exactly if it is none of the three. */
  lemma AccountKeptIff(ch: Channel, s: System, step: Step)
    requires Invariant(ch, s) && Accounted(s)
    ensures Accounted(Apply(ch, s, step)) <==> KeepsAccount(s, step)
  {
    if !s.refused {
      match step
      case WriteStep(_, _, _, _) => AccountOfWrite(ch, s, step);
      case FlushStep(_) => SameTail(s.accepted, s.inFlight, []);
      case _ =>
    }
  }

  lemma StepKeepsInvariant(ch: Channel, s: System, step: Step)
    requires Invariant(ch, s) && Allowed(ch, s, step)
    ensures Invariant(ch, Apply(ch, s, step))
  {
    match step
    case WriteStep(_, _, _, _) => WriteKeepsInvariant(ch, s, step);
    case SignElsewhere(text) => TextsGrow(ch, s.frames, WriteFrame([]), s.others, text);
    case ReadStep(room) => ReadConserves(ch, s.frames, s.others, s.inb, s.readBuf, room, s.delivered);
    case _ =>
  }

  lemma {:induction false} RunKeepsInvariant(ch: Channel, s: System, steps: seq<Step>, end: System)
    requires Invariant(ch, s) && Run(ch, s, steps, end)
    ensures Invariant(ch, end)
    decreases |steps|
  {
    if steps != [] {
      StepKeepsInvariant(ch, s, steps[0]);
      RunKeepsInvariant(ch, Apply(ch, s, steps[0]), steps[1..], end);
    }
  }

  /**
   * In every run, whatever the callers and the network do, the bytes read are a
   * prefix of the bytes given to the far sink; with the bytes still buffered they
   * are exactly the payloads of the frames accepted so far.
   */
  lemma EndToEnd(ch: Channel, steps: seq<Step>, end: System)
    requires Run(ch, Init, steps, end)
    ensures end.delivered <= Payloads(end.frames)
    ensures end.inb.inboundSeq <= |end.frames|
    ensures end.delivered + end.readBuf == Payloads(end.frames[..end.inb.inboundSeq])
    ensures end.out.flushing <==> end.inFlight != []
  {
    RunKeepsInvariant(ch, Init, steps, end);
    PayloadsPrefix(end.frames, end.inb.inboundSeq);
  }

  ghost predicate AllKeepAccount(ch: Channel, s: System, steps: seq<Step>)
    decreases |steps|
  {
    steps == [] || (KeepsAccount(s, steps[0]) && AllKeepAccount(ch, Apply(ch, s, steps[0]), steps[1..]))
  }

  ghost predicate AccountedThroughout(ch: Channel, s: System, steps: seq<Step>)
    decreases |steps|
  {
    Accounted(s) && (steps == [] || AccountedThroughout(ch, Apply(ch, s, steps[0]), steps[1..]))
  }

  /** Over a whole run the account holds at every moment exactly if every step keeps it. */
  lemma {:induction false} AccountedIff(ch: Channel, s: System, steps: seq<Step>, end: System)
    requires Invariant(ch, s) && Accounted(s) && Run(ch, s, steps, end)
    ensures AccountedThroughout(ch, s, steps) <==> AllKeepAccount(ch, s, steps)
    ensures AllKeepAccount(ch, s, steps) ==> Accounted(end)
    decreases |steps|
  {
    if steps != [] {
      var s' := Apply(ch, s, steps[0]);
      AccountKeptIff(ch, s, steps[0]);
      if KeepsAccount(s, steps[0]) {
        StepKeepsInvariant(ch, s, steps[0]);
        AccountedIff(ch, s', steps[1..], end);
      }
    }
  }

  /** The two together: with a caller that keeps the account, what is read is a prefix of what was reported or is in flight. */
  lemma ReadIsWritten(ch: Channel, steps: seq<Step>, end: System)
    requires Run(ch, Init, steps, end) && AllKeepAccount(ch, Init, steps)
    ensures !end.refused ==> end.delivered <= end.accepted + end.inFlight
  {
    EndToEnd(ch, steps, end);
    AccountedIff(ch, Init, steps, end);
  }

  /** A `poll_write` that starts a message. */
  lemma WriteStarts(ch: Channel, s: System, buf: seq<Byte>, flush: Answer)
    requires !s.out.flushing && buf != [] && !flush.Failure?
    ensures var s' := Apply(ch, s, WriteStep(buf, Done, true, flush));
            && s'.frames == s.frames + [WriteFrame(buf)] && (s'.out.flushing <==> flush.NotYet?)
            && s'.accepted == if flush.Done? then s.accepted + buf else s.accepted
  {
    assert buf[..|buf|] == buf;
  }

  /** Without the caller's contract a buffer can be sent twice: a flush that completes between two polls of one write. */
  lemma FlushBetweenPollsDuplicates(ch: Channel, b: Byte)
    ensures var pending := Apply(ch, Init, WriteStep([b], Done, true, NotYet));
            var flushed := Apply(ch, pending, FlushStep(Done));
            var end := Apply(ch, flushed, WriteStep([b], Done, true, Done));
            end.accepted == [b] && Payloads(end.frames) == [b, b]
  {
    var f := WriteFrame([b]);
    WriteStarts(ch, Init, [b], NotYet);
    var pending := Apply(ch, Init, WriteStep([b], Done, true, NotYet));
    WriteStarts(ch, Apply(ch, pending, FlushStep(Done)), [b], Done);
    SentTwice(f, b);
  }

  lemma SentTwice(f: Frame, b: Byte)
    requires f.payload == [b]
    ensures Payloads([] + [f] + [f]) == [b, b] && [] + [b] == [b]
  {
    PayloadsAppend([], f);
    PayloadsAppend([] + [f], f);
  }

  // ----- nothing is lost in order -----

  /** The k-th buffer on its way. */
  function Sent(ch: Channel, bufs: seq<seq<Byte>>, k: nat): TransportItem
    requires k < |bufs| < MaxSeq
  {
    Delivered(NetMessage(BinaryType, EncodeAt(ch, k + 1, WriteFrame(bufs[k]))))
  }

  /** The queue a faithful network leaves behind when it carries the buffers k, k+1, ... in order. */
  ghost predicate InOrder(ch: Channel, bufs: seq<seq<Byte>>, s: Inbound) {
    && s.inboundSeq <= |bufs| < MaxSeq
    && var queue := Relevant(s.queue);
       && |queue| == |bufs| - s.inboundSeq
       && forall i | 0 <= i < |queue| :: queue[i] == Sent(ch, bufs, s.inboundSeq + i)
  }

  /** What is still to come: the buffered bytes and the buffers not yet read. */
  function Remaining(bufs: seq<seq<Byte>>, k: nat, readBuf: seq<Byte>): seq<Byte>
    requires k <= |bufs|
    decreases |bufs| - k
  {
    if k == |bufs| then readBuf else readBuf + Remaining(bufs, k + 1, bufs[k])
  }

  lemma RemainingSplit(bufs: seq<seq<Byte>>, k: nat, readBuf: seq<Byte>, n: nat)
    requires k <= |bufs| && n <= |readBuf|
    ensures Remaining(bufs, k, readBuf) == readBuf[..n] + Remaining(bufs, k, readBuf[n..])
  {
    assert readBuf == readBuf[..n] + readBuf[n..];
  }

  lemma NextDelivered(ch: Channel, buf: seq<Byte>, s: Inbound)
    requires s.queue != [] && s.inboundSeq < MaxSeq
    requires s.queue[0] == Delivered(NetMessage(BinaryType, EncodeAt(ch, s.inboundSeq + 1, WriteFrame(buf))))
    ensures Next(ch, s) == (NextMessage(TBinary(buf)), Inbound(s.queue[1..], s.ended, s.inboundSeq + 1))
  {
    DecodeAccepts(ch, s.inboundSeq, s.queue[0].message.body, WriteFrame(buf));
  }

  lemma TailInOrder(ch: Channel, bufs: seq<seq<Byte>>, s: Inbound)
    requires InOrder(ch, bufs, s) && s.queue != [] && !Skipped(s.queue[0])
    ensures s.inboundSeq < |bufs| && Relevant(s.queue)[0] == s.queue[0]
    ensures InOrder(ch, bufs, Inbound(s.queue[1..], s.ended, s.inboundSeq + 1))
  {
    var queue := Relevant(s.queue);
    var rest := Relevant(s.queue[1..]);
    assert queue == [s.queue[0]] + rest;
    forall i | 0 <= i < |rest| ensures rest[i] == Sent(ch, bufs, s.inboundSeq + 1 + i) {
      assert rest[i] == queue[i + 1];
    }
  }

  lemma FirstInOrder(ch: Channel, bufs: seq<seq<Byte>>, s: Inbound)
    requires InOrder(ch, bufs, s) && s.queue != [] && !Skipped(s.queue[0])
    ensures s.inboundSeq < |bufs|
    ensures Next(ch, s) == (NextMessage(TBinary(bufs[s.inboundSeq])), Inbound(s.queue[1..], s.ended, s.inboundSeq + 1))
    ensures InOrder(ch, bufs, Inbound(s.queue[1..], s.ended, s.inboundSeq + 1))
  {
    TailInOrder(ch, bufs, s);
    NextDelivered(ch, bufs[s.inboundSeq], s);
  }

  lemma {:induction false} NextInOrder(ch: Channel, bufs: seq<seq<Byte>>, s: Inbound)
    requires InOrder(ch, bufs, s)
    ensures var (r, s') := Next(ch, s);
            && InOrder(ch, bufs, s')
            && if s.inboundSeq < |bufs| then r == NextMessage(TBinary(bufs[s.inboundSeq])) && s'.inboundSeq == s.inboundSeq + 1
               else (r.NextPending? || r.NextEnded?) && s'.inboundSeq == s.inboundSeq
    decreases |s.queue|
  {
    if s.queue != [] {
      if Skipped(s.queue[0]) {
        NextInOrder(ch, bufs, s.(queue := s.queue[1..]));
      } else {
        FirstInOrder(ch, bufs, s);
      }
    }
  }

  /** Each read into a non-empty room returns the next bytes, and at least one while any remain. */
  lemma {:induction false} ReadInOrder(ch: Channel, bufs: seq<seq<Byte>>, s: Inbound, readBuf: seq<Byte>, room: nat)
    requires room > 0 && InOrder(ch, bufs, s)
    ensures var (r, s', readBuf') := Read(ch, s, readBuf, room);
            && InOrder(ch, bufs, s')
            && Remaining(bufs, s.inboundSeq, readBuf) == Bytes(r) + Remaining(bufs, s'.inboundSeq, readBuf')
            && (Remaining(bufs, s.inboundSeq, readBuf) != [] ==> Bytes(r) != [])
    decreases |s.queue|
  {
    var k := s.inboundSeq;
    if readBuf != [] {
      RemainingSplit(bufs, k, readBuf, if room < |readBuf| then room else |readBuf|);
    } else {
      NextInOrder(ch, bufs, s);
      if k < |bufs| {
        var s' := Next(ch, s).1;
        RemainingNext(bufs, k);
        ReadAfterNext(ch, s, s', bufs[k], room);
        ReadInOrder(ch, bufs, s', bufs[k], room);
      }
    }
  }

  /** With nothing buffered what comes next is the next buffer. */
  lemma RemainingNext(bufs: seq<seq<Byte>>, k: nat)
    requires k < |bufs|
    ensures Remaining(bufs, k, []) == Remaining(bufs, k + 1, bufs[k])
  {
  }

  /** The bytes a series of reads returns. */
  function ReadMany(ch: Channel, s: Inbound, readBuf: seq<Byte>, rooms: seq<nat>): seq<Byte>
    decreases |rooms|
  {
    if rooms == [] then []
    else
      var (r, s', readBuf') := Read(ch, s, readBuf, rooms[0]);
      Bytes(r) + ReadMany(ch, s', readBuf', rooms[1..])
  }

  /** If the network delivers in order, enough reads into non-empty rooms of any size return every byte written. */
  lemma {:induction false} InOrderLosesNothing(ch: Channel, bufs: seq<seq<Byte>>, s: Inbound, readBuf: seq<Byte>, rooms: seq<nat>)
    requires InOrder(ch, bufs, s) && |rooms| >= |Remaining(bufs, s.inboundSeq, readBuf)|
    requires forall i | 0 <= i < |rooms| :: rooms[i] > 0
    ensures ReadMany(ch, s, readBuf, rooms) == Remaining(bufs, s.inboundSeq, readBuf)
    decreases |rooms|
  {
    if rooms != [] {
      var (r, s', readBuf') := Read(ch, s, readBuf, rooms[0]);
      ReadInOrder(ch, bufs, s, readBuf, rooms[0]);
      InOrderLosesNothing(ch, bufs, s', readBuf', rooms[1..]);
    }
  }
}
