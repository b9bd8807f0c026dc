/**
 * Queued follow-up messages (crates/services/src/services/queued_message.rs), one
 * for each session, shared by every exit monitor of the session.
 */
module MessageQueue {
  import opened Wrappers
  import opened ExitMonitor

  type SessionId = nat
  type MonitorId = nat

  type Queue = map<SessionId, Message>

  function Waiting(queue: Queue, session: SessionId): Option<Message> {
    if session in queue then Some(queue[session]) else None
  }

  /** `queue_message`: the message replaces the one that is there. */
  function Put(queue: Queue, session: SessionId, m: Message): Queue {
    queue[session := m]
  }

  /** `take_queued` and `cancel_queued`: what was there, and the queue without it. */
  function TakeOut(queue: Queue, session: SessionId): (Option<Message>, Queue) {
    (Waiting(queue, session), queue - {session})
  }

  class QueuedMessageService {
    var queue: Queue

    constructor ()
      ensures queue == map[]
    {
      queue := map[];
    }

    method QueueMessage(session: SessionId, m: Message)
      modifies this
      ensures queue == Put(old(queue), session, m)
      ensures Waiting(queue, session) == Some(m) && queue - {session} == old(queue) - {session}
    {
      queue := queue[session := m];
    }

    method TakeQueued(session: SessionId) returns (found: Option<Message>)
      modifies this
      ensures (found, queue) == TakeOut(old(queue), session)
      ensures found == if session in old(queue) then Some(old(queue)[session]) else None
      ensures Waiting(queue, session).None? && queue - {session} == old(queue) - {session}
    {
      found := if session in queue then Some(queue[session]) else None;
      queue := queue - {session};
    }
  }

  // ----- monitors over one queue -----

  datatype Phase = Ended | Took | Done

  /** A monitor with what the services answer it; `w.queued` is what it finds when it takes the queue. */
  datatype Monitor = Monitor(session: SessionId, w: World, shouldFinalize: bool, phase: Phase)

  /** `queued` are all messages ever queued, `log` the effects of all monitors. */
  datatype System = System(queue: Queue, queued: set<Message>, monitors: map<MonitorId, Monitor>, log: seq<Effect>)

  datatype Step =
    | Enqueue(session: SessionId, m: Message)
    | Cancel(session: SessionId)
    | End(a: MonitorId, session: SessionId, w: World, shouldFinalize: bool)
    | Take(a: MonitorId)
    | Act(a: MonitorId)

  const Init := System(map[], {}, map[], [])

  predicate Enabled(s: System, step: Step) {
    match step
    case Enqueue(_, m) => m !in s.queued
    case Cancel(_) => true
    case End(a, _, _, _) => a !in s.monitors
    case Take(a) => a in s.monitors && s.monitors[a].phase.Ended?
    case Act(a) => a in s.monitors && s.monitors[a].phase.Took?
  }

  function Apply(s: System, step: Step): System
    requires Enabled(s, step)
  {
    match step
    case Enqueue(session, m) => s.(queue := Put(s.queue, session, m), queued := s.queued + {m})
    case Cancel(session) => s.(queue := TakeOut(s.queue, session).1)
    case End(a, session, w, shouldFinalize) =>
      s.(monitors := s.monitors[a := Monitor(session, w.(queued := None), shouldFinalize, Ended)])
    case Take(a) =>
      var x := s.monitors[a];
      if TakesAtEnd(x.w, x.shouldFinalize) || TakesAfterSetup(x.w, x.shouldFinalize) then
        var (found, queue) := TakeOut(s.queue, x.session);
        s.(queue := queue, monitors := s.monitors[a := x.(w := x.w.(queued := found), phase := Took)])
      else
        s.(monitors := s.monitors[a := x.(phase := Took)])
    case Act(a) =>
      var x := s.monitors[a];
      s.(monitors := s.monitors[a := x.(phase := Done)], log := s.log + Log(x.w, x.shouldFinalize))
  }

  ghost predicate Run(s: System, steps: seq<Step>, end: System)
    decreases |steps|
  {
    if steps == [] then s == end
    else Enabled(s, steps[0]) && Run(Apply(s, steps[0]), steps[1..], end)
  }

  /** A monitor that has taken m and not acted yet. */
  predicate Holds(s: System, a: MonitorId, m: Message) {
    a in s.monitors && s.monitors[a].phase.Took? && s.monitors[a].w.queued == Some(m)
  }

  predicate IsWaiting(s: System, m: Message) {
    exists session | session in s.queue :: s.queue[session] == m
  }

  function Starts(s: System, m: Message): nat {
    Count(s.log, StartFollowUp(m))
  }

  /** A message waits in one session, or one monitor holds it, or it is out of play; it is started only once it is out. */
  ghost predicate Invariant(s: System) {
    && (forall k | k in s.queue :: s.queue[k] in s.queued)
    && (forall k, l | k in s.queue && l in s.queue && s.queue[k] == s.queue[l] :: k == l)
    && (forall a, m | Holds(s, a, m) :: m in s.queued && !IsWaiting(s, m) && Starts(s, m) == 0)
    && (forall a, b, m | Holds(s, a, m) && Holds(s, b, m) :: a == b)
    && (forall m | m !in s.queued || IsWaiting(s, m) :: Starts(s, m) == 0)
    && (forall m :: Starts(s, m) <= 1)
    && (forall a | a in s.monitors && s.monitors[a].phase.Ended? :: s.monitors[a].w.queued.None?)
  }

  /** What one monitor adds to the log. */
  lemma ActStarts(s: System, a: MonitorId, m: Message)
    requires Enabled(s, Act(a))
    ensures Starts(Apply(s, Act(a)), m) <= Starts(s, m) + if Holds(s, a, m) then 1 else 0
    ensures Starts(Apply(s, Act(a)), m) >= Starts(s, m)
  {
    var x := s.monitors[a];
    OnlyQueuedIsStarted(x.w, x.shouldFinalize, m);
    assert multiset(s.log + Log(x.w, x.shouldFinalize)) == multiset(s.log) + multiset(Log(x.w, x.shouldFinalize));
  }

  lemma TakeKeepsInvariant(s: System, a: MonitorId)
    requires Invariant(s) && Enabled(s, Take(a))
    ensures Invariant(Apply(s, Take(a)))
  {
    var s' := Apply(s, Take(a));
    assert forall m :: Starts(s', m) == Starts(s, m);
    forall b, m | Holds(s', b, m) ensures m in s'.queued && !IsWaiting(s', m) && Starts(s', m) == 0 {
      if b != a {
        assert Holds(s, b, m);
      } else {
        assert IsWaiting(s, m);
      }
    }
    forall b, c, m | Holds(s', b, m) && Holds(s', c, m) ensures b == c {
      assert b != a ==> Holds(s, b, m);
      assert c != a ==> Holds(s, c, m);
      assert b == a || c == a ==> IsWaiting(s, m);
    }
    forall m | IsWaiting(s', m) ensures IsWaiting(s, m) {
      var k :| k in s'.queue && s'.queue[k] == m;
      assert s.queue[k] == m;
    }
  }

  lemma ActKeepsInvariant(s: System, a: MonitorId)
    requires Invariant(s) && Enabled(s, Act(a))
    ensures Invariant(Apply(s, Act(a)))
  {
    var s' := Apply(s, Act(a));
    assert s'.queue == s.queue;
    assert forall b, m | Holds(s', b, m) :: b != a && Holds(s, b, m);
    forall m
      ensures Starts(s', m) <= 1 && (m !in s.queued || IsWaiting(s, m) ==> Starts(s', m) == 0)
      ensures forall b | Holds(s', b, m) :: Starts(s', m) == 0
    {
      ActStarts(s, a, m);
    }
  }

  lemma QueueKeepsInvariant(s: System, step: Step)
    requires Invariant(s) && Enabled(s, step) && !step.Take? && !step.Act?
    ensures Invariant(Apply(s, step))
  {
    var s' := Apply(s, step);
    assert forall b, m :: Holds(s', b, m) <==> Holds(s, b, m);
    assert forall m :: Starts(s', m) == Starts(s, m);
    forall m | IsWaiting(s', m) ensures IsWaiting(s, m) || (step.Enqueue? && m == step.m) {
      var k :| k in s'.queue && s'.queue[k] == m;
      assert (k in s.queue && s.queue[k] == m) || (step.Enqueue? && m == step.m);
    }
    forall m | m !in s'.queued || IsWaiting(s', m) ensures Starts(s', m) == 0 {
      assert m !in s.queued || IsWaiting(s, m);
    }
    forall k, l | k in s'.queue && l in s'.queue && s'.queue[k] == s'.queue[l] ensures k == l {
      assert k in s.queue && l in s.queue && s.queue[k] == s'.queue[k] && s.queue[l] == s'.queue[l] ==> k == l;
    }
  }

  lemma {:induction false} RunKeepsInvariant(s: System, steps: seq<Step>, end: System)
    requires Invariant(s) && Run(s, steps, end)
    ensures Invariant(end)
    decreases |steps|
  {
    if steps != [] {
      match steps[0] {
        case Take(a) => TakeKeepsInvariant(s, a);
        case Act(a) => ActKeepsInvariant(s, a);
        case _ => QueueKeepsInvariant(s, steps[0]);
      }
      RunKeepsInvariant(Apply(s, steps[0]), steps[1..], end);
    }
  }

  /** Over every interleaving of queueing, cancelling and any number of monitors, each message is started at most once. */
  lemma EachStartsOnce(steps: seq<Step>, s: System, m: Message)
    requires Run(Init, steps, s)
    ensures Starts(s, m) <= 1
    ensures forall a, b | Holds(s, a, m) && Holds(s, b, m) :: a == b
    ensures Starts(s, m) == 1 ==> m in s.queued && !IsWaiting(s, m) && forall a :: !Holds(s, a, m)
  {
    RunKeepsInvariant(Init, steps, s);
  }

  /** A step that may change what waits in the session. */
  predicate IsAbout(s: System, step: Step, session: SessionId) {
    match step
    case Enqueue(k, _) => k == session
    case Cancel(k) => k == session
    case Take(a) => a in s.monitors && s.monitors[a].session == session
    case _ => false
  }

  ghost predicate Untouched(s: System, steps: seq<Step>, end: System, session: SessionId)
    decreases |steps|
  {
    if steps == [] then s == end
    else Enabled(s, steps[0]) && !IsAbout(s, steps[0], session) && Untouched(Apply(s, steps[0]), steps[1..], end, session)
  }

  lemma {:induction false} WaitsOn(s: System, steps: seq<Step>, end: System, session: SessionId)
    requires Untouched(s, steps, end, session)
    ensures Waiting(end.queue, session) == Waiting(s.queue, session)
    decreases |steps|
  {
    if steps != [] { WaitsOn(Apply(s, steps[0]), steps[1..], end, session); }
  }

  /**
   * A queued message is the one that the next monitor of its session to take the
   * queue gets, whatever happens in other sessions in between.
   */
  lemma QueuedIsTaken(s: System, session: SessionId, m: Message, steps: seq<Step>, mid: System, a: MonitorId)
    requires m !in s.queued && Untouched(Apply(s, Enqueue(session, m)), steps, mid, session)
    requires Enabled(mid, Take(a)) && mid.monitors[a].session == session
    ensures var x, s' := mid.monitors[a], Apply(mid, Take(a));
            if TakesAtEnd(x.w, x.shouldFinalize) || TakesAfterSetup(x.w, x.shouldFinalize) then
              Holds(s', a, m) && session !in s'.queue && s'.queue == mid.queue - {session}
            else
              session in s'.queue && s'.queue[session] == m
  {
    WaitsOn(Apply(s, Enqueue(session, m)), steps, mid, session);
  }

  /** A message that was queued and neither waits nor is held: started, dropped, replaced or cancelled. */
  ghost predicate OutOfPlay(s: System, m: Message) {
    m in s.queued && !IsWaiting(s, m) && forall a :: !Holds(s, a, m)
  }

  /** Cancelling puts the waiting message out of play, and so does queueing another one; it has not been started. */
  lemma WithdrawingPutsOut(steps: seq<Step>, s: System, session: SessionId, m: Message, next: Message)
    requires Run(Init, steps, s) && Waiting(s.queue, session) == Some(m)
    ensures Starts(s, m) == 0
    ensures OutOfPlay(Apply(s, Cancel(session)), m)
    ensures next !in s.queued ==> OutOfPlay(Apply(s, Enqueue(session, next)), m)
  {
    RunKeepsInvariant(Init, steps, s);
    assert IsWaiting(s, m);
    var cancelled := Apply(s, Cancel(session));
    assert forall a :: Holds(cancelled, a, m) <==> Holds(s, a, m);
    if next !in s.queued {
      var replaced := Apply(s, Enqueue(session, next));
      assert forall a :: Holds(replaced, a, m) <==> Holds(s, a, m);
    }
  }

  /** What is out of play stays so. */
  lemma StaysOutOfPlay(before: seq<Step>, s: System, steps: seq<Step>, end: System, m: Message)
    requires Run(Init, before, s) && OutOfPlay(s, m) && Run(s, steps, end)
    ensures OutOfPlay(end, m) && Starts(end, m) == Starts(s, m)
  {
    RunKeepsInvariant(Init, before, s);
    StaysOut(s, steps, end, m);
  }

  /** A message that is cancelled or replaced while it waits is never started. */
  lemma WithdrawnStaysOut(before: seq<Step>, s: System, session: SessionId, m: Message, step: Step, after: seq<Step>, end: System)
    requires Run(Init, before, s) && Waiting(s.queue, session) == Some(m)
    requires step == Cancel(session) || (step.Enqueue? && step.session == session)
    requires Enabled(s, step) && Run(Apply(s, step), after, end)
    ensures OutOfPlay(end, m) && Starts(end, m) == 0
  {
    WithdrawingPutsOut(before, s, session, m, if step.Enqueue? then step.m else m);
    RunKeepsInvariant(Init, before, s);
    QueueKeepsInvariant(s, step);
    StaysOut(Apply(s, step), after, end, m);
  }

  lemma {:induction false} StaysOut(s: System, steps: seq<Step>, end: System, m: Message)
    requires Invariant(s) && OutOfPlay(s, m) && Run(s, steps, end)
    ensures OutOfPlay(end, m) && Starts(end, m) == Starts(s, m)
    decreases |steps|
  {
    if steps != [] {
      StepStaysOut(s, steps[0], m);
      RunKeepsInvariant(s, [steps[0]], Apply(s, steps[0]));
      StaysOut(Apply(s, steps[0]), steps[1..], end, m);
    }
  }

  lemma StepStaysOut(s: System, step: Step, m: Message)
    requires Invariant(s) && OutOfPlay(s, m) && Enabled(s, step)
    ensures OutOfPlay(Apply(s, step), m) && Starts(Apply(s, step), m) == Starts(s, m)
  {
    var s' := Apply(s, step);
    if step.Act? { ActStarts(s, step.a, m); }
    forall a ensures !Holds(s', a, m) {
      assert !Holds(s, a, m);
      assert step.Take? && a == step.a && Holds(s', a, m) ==> IsWaiting(s, m);
    }
    forall k | k in s'.queue ensures s'.queue[k] != m {
      assert k in s.queue && s.queue[k] == s'.queue[k] ==> s'.queue[k] != m;
    }
  }
}
