/**
 * The exit monitor racing with `stop_execution` and with the end of
 * `start_execution_inner` over shared tables
 * (crates/local-deployment/src/container.rs): message stores, child processes,
 * cancellation tokens, monitor handles and log-stream handles, each under its
 * own lock. Any number of stops may run against one execution.
 */
module Shutdown {
  type ExecId = nat
  type ActorId = nat

  /** The tables of running executions. */
  datatype Table = Stores | Children | Tokens | Monitors | Streams

  type Entries = set<(Table, ExecId)>

  /** Storing an entry, and taking one: whether it was there, and what is left. */
  function Put(entries: Entries, table: Table, e: ExecId): Entries {
    entries + {(table, e)}
  }

  function TakeOut(entries: Entries, table: Table, e: ExecId): (bool, Entries) {
    ((table, e) in entries, entries - {(table, e)})
  }

  class Container {
    var stores: set<ExecId>
    var children: set<ExecId>
    var tokens: set<ExecId>
    var monitors: set<ExecId>
    var streams: set<ExecId>

    ghost function State(): Entries
      reads this
    {
      (set e | e in stores :: (Stores, e)) + (set e | e in children :: (Children, e)) + (set e | e in tokens :: (Tokens, e))
      + (set e | e in monitors :: (Monitors, e)) + (set e | e in streams :: (Streams, e))
    }

    method AddChildToStore(e: ExecId)
      modifies this`children
      ensures State() == Put(old(State()), Children, e)
    {
      children := children + {e};
    }

    method AddCancellationToken(e: ExecId)
      modifies this`tokens
      ensures State() == Put(old(State()), Tokens, e)
    {
      tokens := tokens + {e};
    }

    method AddExitMonitorHandle(e: ExecId)
      modifies this`monitors
      ensures State() == Put(old(State()), Monitors, e)
    {
      monitors := monitors + {e};
    }

    /** The `take_…` methods remove an entry and say whether it was there. */
    method TakeCancellationToken(e: ExecId) returns (taken: bool)
      modifies this`tokens
      ensures taken == TakeOut(old(State()), Tokens, e).0 && State() == TakeOut(old(State()), Tokens, e).1
    {
      taken := e in tokens;
      tokens := tokens - {e};
    }

    method TakeExitMonitorHandle(e: ExecId) returns (taken: bool)
      modifies this`monitors
      ensures taken == TakeOut(old(State()), Monitors, e).0 && State() == TakeOut(old(State()), Monitors, e).1
    {
      taken := e in monitors;
      monitors := monitors - {e};
    }

    method TakeDbStreamHandle(e: ExecId) returns (taken: bool)
      modifies this`streams
      ensures taken == TakeOut(old(State()), Streams, e).0 && State() == TakeOut(old(State()), Streams, e).1
    {
      taken := e in streams;
      streams := streams - {e};
    }

    /** Removes the message store; the one who finds it finishes it, still under the lock. */
    method RemoveMsgStore(e: ExecId) returns (finished: bool)
      modifies this`stores
      ensures finished == TakeOut(old(State()), Stores, e).0 && State() == TakeOut(old(State()), Stores, e).1
    {
      finished := e in stores;
      stores := stores - {e};
    }

    method RemoveChildFromStore(e: ExecId)
      modifies this`children
      ensures State() == TakeOut(old(State()), Children, e).1
    {
      children := children - {e};
    }
  }

  // ----- the interleaved system -----

  /** Where a monitor or a stop is: what it does next. */
  datatype Phase =
    | Monitoring      // a monitor's body, before its clean-up
    | Stopping        // a stop has found the child, and takes the token next
    | Cancelling      // it has taken and cancelled the token, and takes the monitor's handle next
    | Killing         // it has waited for the monitor, if it had its handle, and kills the child next
    | Killed          // it removes the child next
    | CleaningUp      // takes the log-stream handle next
    | TookStream      // removes the store next
    | FinishedStore   // awaits the handle, if it has one, next
    | DroppingChild   // a monitor removes the child last
    | Over
    | Refused         // no child, or the child could not be killed

  /** `took` are the tables in which it found the execution's entry. */
  datatype Actor = Actor(exec: ExecId, monitors: bool, phase: Phase, took: set<Table>)

  /** `added` is every entry ever made. */
  datatype System = System(entries: Entries, added: Entries, actors: map<ActorId, Actor>, spawned: set<ExecId>)

  /**
   * One lock region each. Only an execution that can be cancelled gets a token.
   * `StoreStream` may come at any time or never.
   */
  datatype Step =
    | AddStore(e: ExecId)
    | AddChild(e: ExecId)
    | AddToken(e: ExecId)
    | SpawnMonitor(a: ActorId, e: ExecId)
    | AddMonitor(e: ExecId)
    | StoreStream(e: ExecId)
    | Stop(a: ActorId, e: ExecId)
    | TakeToken(a: ActorId)
    | TakeMonitor(a: ActorId)
    | Kill(a: ActorId, ok: bool)
    | Exit(a: ActorId)
    | RemoveChild(a: ActorId)
    | TakeStream(a: ActorId)
    | FinishStore(a: ActorId)
    | Await(a: ActorId)

  const Init := System({}, {}, map[], {})

  predicate At(s: System, a: ActorId, phase: Phase) {
    a in s.actors && s.actors[a].phase == phase
  }

  predicate Enabled(s: System, step: Step) {
    match step
    case AddStore(e) => (Stores, e) !in s.added
    case AddChild(e) => (Stores, e) in s.added && (Children, e) !in s.added
    case AddToken(e) => (Children, e) in s.added && (Tokens, e) !in s.added && e !in s.spawned
    case SpawnMonitor(a, e) => (Children, e) in s.added && e !in s.spawned && a !in s.actors
    case AddMonitor(e) => e in s.spawned && (Monitors, e) !in s.added
    case StoreStream(e) => (Streams, e) !in s.added
    case Stop(a, e) => a !in s.actors
    case TakeToken(a) => At(s, a, Stopping)
    case TakeMonitor(a) => At(s, a, Cancelling)
    case Kill(a, _) => At(s, a, Killing)
    case Exit(a) => At(s, a, Monitoring)
    case RemoveChild(a) => At(s, a, Killed) || At(s, a, DroppingChild)
    case TakeStream(a) => At(s, a, CleaningUp)
    case FinishStore(a) => At(s, a, TookStream)
    case Await(a) => At(s, a, FinishedStore)
  }

  function Add(s: System, table: Table, e: ExecId): System {
    s.(entries := Put(s.entries, table, e), added := Put(s.added, table, e))
  }

  function Move(s: System, a: ActorId, phase: Phase): System
    requires a in s.actors
  {
    s.(actors := s.actors[a := s.actors[a].(phase := phase)])
  }

  /** Looks the actor's execution up in a table, and removes the entry if it is there. */
  function Take(s: System, a: ActorId, table: Table, phase: Phase): System
    requires a in s.actors
  {
    var (found, rest) := TakeOut(s.entries, table, s.actors[a].exec);
    var took := if found then s.actors[a].took + {table} else s.actors[a].took;
    s.(entries := rest, actors := s.actors[a := s.actors[a].(phase := phase, took := took)])
  }

  function Apply(s: System, step: Step): System
    requires Enabled(s, step)
  {
    match step
    case AddStore(e) => Add(s, Stores, e)
    case AddChild(e) => Add(s, Children, e)
    case AddToken(e) => Add(s, Tokens, e)
    case SpawnMonitor(a, e) => s.(actors := s.actors[a := Actor(e, true, Monitoring, {})], spawned := s.spawned + {e})
    case AddMonitor(e) => Add(s, Monitors, e)
    case StoreStream(e) => Add(s, Streams, e)
    case Stop(a, e) => s.(actors := s.actors[a := Actor(e, false, if (Children, e) in s.entries then Stopping else Refused, {})])
    case TakeToken(a) => Take(s, a, Tokens, if (Tokens, s.actors[a].exec) in s.entries then Cancelling else Killing)
    case TakeMonitor(a) => Take(s, a, Monitors, Killing)
    case Kill(a, ok) => Move(s, a, if ok then Killed else Refused)
    case Exit(a) => Move(s, a, CleaningUp)
    case RemoveChild(a) => Take(s, a, Children, if s.actors[a].monitors then Over else CleaningUp)
    case TakeStream(a) => Take(s, a, Streams, TookStream)
    case FinishStore(a) => Take(s, a, Stores, FinishedStore)
    case Await(a) => Move(s, a, if s.actors[a].monitors then DroppingChild else Over)
  }

  ghost predicate Run(s: System, steps: seq<Step>, end: System)
    decreases |steps|
  {
    if steps == [] then s == end
    else Enabled(s, steps[0]) && Run(Apply(s, steps[0]), steps[1..], end)
  }

  // ----- the invariant -----

  predicate Took(s: System, a: ActorId, table: Table, e: ExecId) {
    a in s.actors && s.actors[a].exec == e && table in s.actors[a].took
  }

  /** An entry that was made is in its table, or exactly one actor has taken it. */
  ghost predicate TakenOnce(s: System) {
    && s.entries <= s.added
    && (forall a, t, e: ExecId | Took(s, a, t, e) :: (t, e) in s.added && (t, e) !in s.entries)
    && (forall a, b, t, e: ExecId | Took(s, a, t, e) && Took(s, b, t, e) :: a == b)
    && (forall t, e: ExecId | (t, e) in s.added && (t, e) !in s.entries :: exists a :: Took(s, a, t, e))
  }

  predicate PastStore(x: Actor) {
    x.phase.FinishedStore? || x.phase.DroppingChild? || x.phase.Over?
  }

  predicate PastChild(x: Actor) {
    x.phase.Over? || (!x.monitors && (x.phase.CleaningUp? || x.phase.TookStream? || x.phase.FinishedStore?))
  }

  /** What an actor's place says of its execution's entries. */
  ghost predicate EntriesFit(s: System, x: Actor) {
    && (x.phase.Refused? || ((Stores, x.exec) in s.added && (Children, x.exec) in s.added))
    && (PastStore(x) ==> (Stores, x.exec) !in s.entries)
    && (PastChild(x) ==> (Children, x.exec) !in s.entries)
  }

  /** And of what it has taken. */
  predicate TookFits(x: Actor) {
    && (x.phase.Monitoring? || x.phase.DroppingChild? ==> x.monitors)
    && (x.phase.Stopping? ==> x.took == {})
    && (Monitors in x.took || x.phase.Cancelling? ==> Tokens in x.took)
    && (x.monitors ==> Tokens !in x.took && (x.phase.Monitoring? || x.phase.CleaningUp? || x.phase.TookStream? || PastStore(x)))
    && (Streams in x.took ==> x.phase.TookStream? || PastStore(x))
  }

  ghost predicate ActorInvariant(s: System, x: Actor) {
    EntriesFit(s, x) && TookFits(x)
  }

  ghost predicate Invariant(s: System) {
    && TakenOnce(s)
    && (forall e | (Children, e) in s.added :: (Stores, e) in s.added)
    && (forall a | a in s.actors :: ActorInvariant(s, s.actors[a]))
  }

  lemma AddKeepsTaken(s: System, table: Table, e: ExecId)
    requires TakenOnce(s) && (table, e) !in s.added
    ensures TakenOnce(Add(s, table, e))
  {
    var s' := Add(s, table, e);
    assert forall a, t, x: ExecId :: Took(s', a, t, x) <==> Took(s, a, t, x);
  }

  lemma TakeKeepsTaken(s: System, a: ActorId, table: Table, phase: Phase)
    requires TakenOnce(s) && a in s.actors
    ensures TakenOnce(Take(s, a, table, phase))
  {
    var s' := Take(s, a, table, phase);
    var entry := (table, s.actors[a].exec);
    assert forall b, t, e: ExecId :: Took(s', b, t, e) <==> Took(s, b, t, e) || (b == a && (t, e) == entry && entry in s.entries);
    forall t, e: ExecId | (t, e) in s'.added && (t, e) !in s'.entries ensures exists b :: Took(s', b, t, e) {
      if (t, e) in s.entries {
        assert Took(s', a, t, e);
      } else {
        var b :| Took(s, b, t, e);
        assert Took(s', b, t, e);
      }
    }
  }

  /** Steps that touch no table, and new actors, which have taken nothing. */
  lemma SameKeepsTaken(s: System, s': System)
    requires TakenOnce(s) && s'.entries == s.entries && s'.added == s.added
    requires forall a, t, e: ExecId :: Took(s', a, t, e) <==> Took(s, a, t, e)
    ensures TakenOnce(s')
  {
  }

  lemma StepKeepsTaken(s: System, step: Step)
    requires TakenOnce(s) && Enabled(s, step)
    ensures TakenOnce(Apply(s, step))
  {
    match step
    case AddStore(e) => AddKeepsTaken(s, Stores, e);
    case AddChild(e) => AddKeepsTaken(s, Children, e);
    case AddToken(e) => AddKeepsTaken(s, Tokens, e);
    case AddMonitor(e) => AddKeepsTaken(s, Monitors, e);
    case StoreStream(e) => AddKeepsTaken(s, Streams, e);
    case TakeToken(a) => TakeKeepsTaken(s, a, Tokens, Apply(s, step).actors[a].phase);
    case TakeMonitor(a) => TakeKeepsTaken(s, a, Monitors, Killing);
    case RemoveChild(a) => TakeKeepsTaken(s, a, Children, Apply(s, step).actors[a].phase);
    case TakeStream(a) => TakeKeepsTaken(s, a, Streams, TookStream);
    case FinishStore(a) => TakeKeepsTaken(s, a, Stores, FinishedStore);
    case _ => SameKeepsTaken(s, Apply(s, step));
  }

  lemma StepKeepsActors(s: System, step: Step)
    requires Invariant(s) && Enabled(s, step)
    ensures var s' := Apply(s, step); forall a | a in s'.actors :: ActorInvariant(s', s'.actors[a])
  {
    var s' := Apply(s, step);
    forall a | a in s'.actors ensures ActorInvariant(s', s'.actors[a]) {
      if a in s.actors {
        assert ActorInvariant(s, s.actors[a]);
        EntriesStillFit(s, step, a);
        TookStillFits(s, step, a);
      }
    }
  }

  lemma EntriesStillFit(s: System, step: Step, a: ActorId)
    requires Enabled(s, step) && a in s.actors && ActorInvariant(s, s.actors[a])
    ensures var s' := Apply(s, step); a in s'.actors && EntriesFit(s', s'.actors[a])
  {
  }

  lemma TookStillFits(s: System, step: Step, a: ActorId)
    requires Enabled(s, step) && a in s.actors && TookFits(s.actors[a])
    ensures var s' := Apply(s, step); a in s'.actors && TookFits(s'.actors[a])
  {
  }

  lemma {:induction false} RunKeepsInvariant(s: System, steps: seq<Step>, end: System)
    requires Invariant(s) && Run(s, steps, end)
    ensures Invariant(end)
    decreases |steps|
  {
    if steps != [] {
      StepKeepsTaken(s, steps[0]);
      StepKeepsActors(s, steps[0]);
      RunKeepsInvariant(Apply(s, steps[0]), steps[1..], end);
    }
  }

  // ----- main results -----

  /**
   * Under every interleaving, for each table: at most one actor takes an
   * execution's entry, and the entry is there from when it is made until one
   * does. So each store is finished at most once, each log-stream handle is
   * awaited by at most one side, and a token or a monitor's handle stays exactly
   * as long as no stop has come across it.
   */
  lemma EveryInterleaving(steps: seq<Step>, s: System, t: Table, e: ExecId)
    requires Run(Init, steps, s)
    ensures forall a, b | Took(s, a, t, e) && Took(s, b, t, e) :: a == b
    ensures (t, e) in s.entries <==> (t, e) in s.added && !exists a :: Took(s, a, t, e)
  {
    RunKeepsInvariant(Init, steps, s);
  }

  /** The step in which an actor looks its execution up in a table. */
  predicate LooksUp(step: Step, a: ActorId, t: Table) {
    match t
    case Stores => step == FinishStore(a)
    case Children => step == RemoveChild(a)
    case Tokens => step == TakeToken(a)
    case Monitors => step == TakeMonitor(a)
    case Streams => step == TakeStream(a)
  }

  /**
   * Whatever has happened: who looks has the entry exactly if it was there, leaves
   * none, and touches no other; and only who has the token goes on to the monitor's handle.
   */
  lemma TakesWhatIsThere(steps: seq<Step>, s: System, a: ActorId, step: Step, t: Table)
    requires Run(Init, steps, s) && Enabled(s, step) && LooksUp(step, a, t)
    ensures var e, s' := s.actors[a].exec, Apply(s, step);
            && ((t, e) in s.entries ==> Took(s', a, t, e) && forall b :: !Took(s, b, t, e))
            && ((t, e) !in s.entries ==> forall b :: Took(s', b, t, e) <==> Took(s, b, t, e))
            && s'.entries == s.entries - {(t, e)}
            && (t == Tokens ==> (At(s', a, Cancelling) <==> (t, e) in s.entries))
  {
    RunKeepsInvariant(Init, steps, s);
  }

  /** Who is past the store's removal, or over, leaves a store that has been finished and a child that is gone. */
  lemma NothingToStop(steps: seq<Step>, s: System, a: ActorId)
    requires Run(Init, steps, s) && a in s.actors
    ensures PastStore(s.actors[a]) ==>
              (Stores, s.actors[a].exec) !in s.entries && exists b :: Took(s, b, Stores, s.actors[a].exec)
    ensures s.actors[a].phase.Over? ==> (Children, s.actors[a].exec) !in s.entries
  {
    RunKeepsInvariant(Init, steps, s);
    assert ActorInvariant(s, s.actors[a]);
  }

  /** Tokens and monitor handles are left to stops: a stop takes a handle only with the token. */
  lemma OnlyStopsTake(steps: seq<Step>, s: System, e: ExecId)
    requires Run(Init, steps, s)
    ensures (Tokens, e) in s.entries <==>
              (Tokens, e) in s.added && !exists a :: Took(s, a, Tokens, e) && !s.actors[a].monitors
    ensures (Monitors, e) in s.added && ((Tokens, e) in s.entries || (Tokens, e) !in s.added) ==> (Monitors, e) in s.entries
  {
    RunKeepsInvariant(Init, steps, s);
    assert forall a | a in s.actors :: ActorInvariant(s, s.actors[a]);
    if exists a :: Took(s, a, Tokens, e) {
      var a :| Took(s, a, Tokens, e);
      assert !s.actors[a].monitors;
    }
    if exists a :: Took(s, a, Monitors, e) {
      var a :| Took(s, a, Monitors, e);
      assert Took(s, a, Tokens, e);
    }
  }

  /** An execution that ends without a stop leaves every token and monitor handle it has in the tables. */
  lemma EndingLeavesBoth(steps: seq<Step>, s: System, e: ExecId)
    requires Run(Init, steps, s) && forall a | a in s.actors && s.actors[a].exec == e :: s.actors[a].monitors
    ensures (Tokens, e) in s.entries <==> (Tokens, e) in s.added
    ensures (Monitors, e) in s.entries <==> (Monitors, e) in s.added
  {
    RunKeepsInvariant(Init, steps, s);
    OnlyStopsTake(steps, s, e);
  }

  /** A stop that looks for the token before it is stored misses it: both entries then stay although the stop succeeds. */
  lemma EarlyStopMissesToken(before: seq<Step>, s: System, a: ActorId, after: seq<Step>, end: System)
    requires Run(Init, before, s) && At(s, a, Stopping) && (Tokens, s.actors[a].exec) !in s.added
    requires Run(Apply(s, TakeToken(a)), after, end)
    requires forall b | b in end.actors && end.actors[b].exec == s.actors[a].exec && !end.actors[b].monitors :: b == a
    ensures (Tokens, s.actors[a].exec) in end.entries <==> (Tokens, s.actors[a].exec) in end.added
    ensures (Monitors, s.actors[a].exec) in end.entries <==> (Monitors, s.actors[a].exec) in end.added
  {
    var e := s.actors[a].exec;
    RunKeepsInvariant(Init, before, s);
    StepKeepsTaken(s, TakeToken(a));
    StepKeepsActors(s, TakeToken(a));
    assert ActorInvariant(s, s.actors[a]);
    PastToken(Apply(s, TakeToken(a)), after, end, a);
    RunKeepsInvariant(Apply(s, TakeToken(a)), after, end);
    assert forall b | b in end.actors :: ActorInvariant(end, end.actors[b]);
    assert !exists b :: Took(end, b, Tokens, e);
    assert !exists b :: Took(end, b, Monitors, e);
  }

  /** What a stop past the token has, and the execution it stops, do not change as far as tokens and monitors go. */
  lemma {:induction false} PastToken(s: System, steps: seq<Step>, end: System, a: ActorId)
    requires Run(s, steps, end) && a in s.actors && Missed(s.actors[a])
    ensures a in end.actors && end.actors[a].exec == s.actors[a].exec && Missed(end.actors[a])
    decreases |steps|
  {
    if steps != [] {
      PastToken(Apply(s, steps[0]), steps[1..], end, a);
    }
  }

  predicate Missed(x: Actor) {
    !x.monitors && !x.phase.Stopping? && !x.phase.Cancelling? && Tokens !in x.took && Monitors !in x.took
  }

  /** If no log-stream handle is ever stored, nobody takes one and nobody waits for persistence. */
  lemma {:induction false} NoStreamNoWait(s: System, steps: seq<Step>, end: System)
    requires Run(s, steps, end) && forall i | 0 <= i < |steps| :: !steps[i].StoreStream?
    requires NoStream(s)
    ensures NoStream(end)
    decreases |steps|
  {
    if steps != [] {
      assert forall i | 0 <= i < |steps[1..]| :: steps[1..][i] == steps[i + 1];
      NoStreamNoWait(Apply(s, steps[0]), steps[1..], end);
    }
  }

  ghost predicate NoStream(s: System) {
    && (forall e :: (Streams, e) !in s.entries && (Streams, e) !in s.added)
    && (forall a | a in s.actors :: Streams !in s.actors[a].took)
  }
}
