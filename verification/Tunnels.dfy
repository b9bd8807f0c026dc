/**
 * The tunnel manager (crates/desktop-bridge/src/tunnel.rs): check, bind,
 * re-check, insert, spawn and clean up over a shared map. Each lock region is
 * one atomic step; between two regions anything else may run.
 */
module Tunnels {
  import opened Wrappers

  type Id = nat

  datatype TunnelKey = TunnelKey(hostId: string, apiPath: string)

  datatype ActiveTunnel = ActiveTunnel(id: Id, localPort: nat, baseUrl: string, session: string)

  type TunnelMap = map<TunnelKey, ActiveTunnel>

  /** What a caller asks for. */
  datatype Want = Want(key: TunnelKey, baseUrl: string, session: string)

  predicate Serves(t: ActiveTunnel, w: Want) {
    t.session == w.session && t.baseUrl == w.baseUrl
  }

  // ----- the lock regions -----

  /**
   * The look-up both lock regions start with: a live tunnel for the same sessions
   * is reused, one for rotated sessions is cancelled and removed.
   */
  function LookUp(tunnels: TunnelMap, cancelled: set<Id>, w: Want): (Option<ActiveTunnel>, TunnelMap, set<Id>) {
    if w.key in tunnels && tunnels[w.key].id !in cancelled then
      var t := tunnels[w.key];
      if Serves(t, w) then (Some(t), tunnels, cancelled) else (None, tunnels - {w.key}, cancelled + {t.id})
    else
      (None, tunnels, cancelled)
  }

  /** The second region: look up again, and insert the new tunnel if there is still none to reuse. */
  function Insert(tunnels: TunnelMap, cancelled: set<Id>, w: Want, id: Id, port: nat): (Option<ActiveTunnel>, TunnelMap, set<Id>) {
    var (found, tunnels', cancelled') := LookUp(tunnels, cancelled, w);
    if found.Some? then (found, tunnels', cancelled')
    else (None, tunnels'[w.key := ActiveTunnel(id, port, w.baseUrl, w.session)], cancelled')
  }

  /** The task's clean-up: remove the entry if it is still the task's own. */
  function CleanUp(tunnels: TunnelMap, key: TunnelKey, id: Id): TunnelMap {
    if key in tunnels && tunnels[key].id == id then tunnels - {key} else tunnels
  }

  /** The shared map, and the tokens that have been cancelled. */
  class TunnelManager {
    var tunnels: TunnelMap
    var cancelled: set<Id>

    constructor ()
      ensures tunnels == map[] && cancelled == {}
    {
      tunnels, cancelled := map[], {};
    }

    method CheckExisting(w: Want) returns (found: Option<ActiveTunnel>)
      modifies this
      ensures (found, tunnels, cancelled) == LookUp(old(tunnels), old(cancelled), w)
      ensures found.Some? <==> w.key in old(tunnels) && old(tunnels)[w.key].id !in old(cancelled) && Serves(old(tunnels)[w.key], w)
      ensures found.Some? ==> found.value == tunnels[w.key] && tunnels == old(tunnels) && cancelled == old(cancelled)
      ensures found.None? ==> w.key !in tunnels || tunnels[w.key].id in cancelled
      ensures tunnels - {w.key} == old(tunnels) - {w.key}
    {
      if w.key in tunnels && tunnels[w.key].id !in cancelled {
        var tunnel := tunnels[w.key];
        if tunnel.session == w.session && tunnel.baseUrl == w.baseUrl {
          return Some(tunnel);
        }
        cancelled := cancelled + {tunnel.id};
        tunnels := tunnels - {w.key};
      }
      return None;
    }

    method InsertTunnel(w: Want, id: Id, port: nat) returns (found: Option<ActiveTunnel>)
      modifies this
      ensures (found, tunnels, cancelled) == Insert(old(tunnels), old(cancelled), w, id, port)
      ensures found.Some? <==> w.key in old(tunnels) && old(tunnels)[w.key].id !in old(cancelled) && Serves(old(tunnels)[w.key], w)
      ensures w.key in tunnels && Serves(tunnels[w.key], w)
      ensures tunnels[w.key] == if found.Some? then found.value else ActiveTunnel(id, port, w.baseUrl, w.session)
      ensures tunnels - {w.key} == old(tunnels) - {w.key}
    {
      found := CheckExisting(w);
      if found.None? {
        tunnels := tunnels[w.key := ActiveTunnel(id, port, w.baseUrl, w.session)];
      }
    }

    method CleanUpAfterExit(key: TunnelKey, id: Id)
      modifies this
      ensures tunnels == CleanUp(old(tunnels), key, id) && cancelled == old(cancelled)
      ensures key in tunnels ==> tunnels[key].id != id
      ensures tunnels - {key} == old(tunnels) - {key}
    {
      if key in tunnels && tunnels[key].id == id {
        tunnels := tunnels - {key};
      }
    }
  }

  // ----- the interleaved system -----

  datatype Caller =
    | Checking(want: Want)
    | Binding(want: Want)
    | Inserting(want: Want, id: Id, port: nat)
    | Spawning(want: Want, id: Id)
    | Returned(want: Want, id: Id, port: nat)
    | Gone

  datatype Task = Running | Exited | CleanedUp

  /** `made` records every tunnel ever inserted, under its key. */
  datatype System = System(tunnels: TunnelMap, cancelled: set<Id>, callers: map<nat, Caller>, tasks: map<Id, Task>,
                           nextId: Id, made: map<Id, (TunnelKey, ActiveTunnel)>)

  datatype Step =
    | Call(c: nat, want: Want)
    | Check(c: nat)
    | Bind(c: nat, port: nat)
    | BindFails(c: nat)
    | InsertStep(c: nat)
    | Spawn(c: nat)
    | Drop(c: nat)
    | Exit(id: Id)
    | Clean(id: Id)

  const Init := System(map[], {}, map[], map[], 0, map[])

  /** A caller can be dropped where it waits; from the insertion to the spawn it does not wait. */
  predicate Enabled(s: System, step: Step) {
    match step
    case Call(c, _) => c !in s.callers
    case Check(c) => c in s.callers && s.callers[c].Checking?
    case Bind(c, _) => c in s.callers && s.callers[c].Binding?
    case BindFails(c) => c in s.callers && s.callers[c].Binding?
    case InsertStep(c) => c in s.callers && s.callers[c].Inserting?
    case Spawn(c) => c in s.callers && s.callers[c].Spawning?
    case Drop(c) => c in s.callers && (s.callers[c].Checking? || s.callers[c].Binding? || s.callers[c].Inserting?)
    // the listener stops when its token is cancelled, or when accepting fails
    case Exit(id) => id in s.tasks && s.tasks[id].Running?
    case Clean(id) => id in s.tasks && s.tasks[id].Exited? && id in s.made
  }

  function Apply(s: System, step: Step): System
    requires Enabled(s, step)
  {
    match step
    case Call(c, want) => s.(callers := s.callers[c := Checking(want)])
    case Check(c) =>
      var w := s.callers[c].want;
      var (found, tunnels, cancelled) := LookUp(s.tunnels, s.cancelled, w);
      s.(tunnels := tunnels, cancelled := cancelled,
         callers := s.callers[c := if found.Some? then Returned(w, found.value.id, found.value.localPort) else Binding(w)])
    case Bind(c, port) =>
      s.(callers := s.callers[c := Inserting(s.callers[c].want, s.nextId, port)], nextId := s.nextId + 1)
    case BindFails(c) => s.(callers := s.callers[c := Gone])
    case InsertStep(c) =>
      var Inserting(w, id, port) := s.callers[c];
      var (found, tunnels, cancelled) := Insert(s.tunnels, s.cancelled, w, id, port);
      if found.Some? then
        s.(tunnels := tunnels, cancelled := cancelled,
           callers := s.callers[c := Returned(w, found.value.id, found.value.localPort)])
      else
        s.(tunnels := tunnels, cancelled := cancelled, callers := s.callers[c := Spawning(w, id)],
           made := s.made[id := (w.key, ActiveTunnel(id, port, w.baseUrl, w.session))])
    case Spawn(c) =>
      var Spawning(w, id) := s.callers[c];
      s.(tasks := s.tasks[id := Running],
         callers := s.callers[c := Returned(w, id, if id in s.made then s.made[id].1.localPort else 0)])
    case Drop(c) => s.(callers := s.callers[c := Gone])
    case Exit(id) => s.(tasks := s.tasks[id := Exited])
    case Clean(id) => s.(tasks := s.tasks[id := CleanedUp], tunnels := CleanUp(s.tunnels, s.made[id].0, id))
  }

  ghost predicate Run(s: System, steps: seq<Step>, end: System)
    decreases |steps|
  {
    if steps == [] then s == end
    else Enabled(s, steps[0]) && Run(Apply(s, steps[0]), steps[1..], end)
  }

  // ----- the invariant -----

  predicate InMap(s: System, id: Id)
    requires id in s.made
  {
    s.made[id].0 in s.tunnels && s.tunnels[s.made[id].0].id == id
  }

  /** The listener task of a tunnel has ended. */
  predicate Ended(s: System, id: Id) {
    id in s.tasks && !s.tasks[id].Running?
  }

  ghost predicate MapInvariant(s: System) {
    && (forall k | k in s.tunnels :: s.tunnels[k].id in s.made && s.made[s.tunnels[k].id] == (k, s.tunnels[k]))
    && (forall k | k in s.tunnels :: s.tunnels[k].id !in s.cancelled)
    && (forall id | id in s.made :: id < s.nextId && s.made[id].1.id == id)
    && s.cancelled <= s.made.Keys
    && s.tasks.Keys <= s.made.Keys
    && (forall id | id in s.made :: InMap(s, id) || id in s.cancelled || Ended(s, id))
    && (forall id | id in s.tasks && s.tasks[id].CleanedUp? :: !InMap(s, id))
  }

  ghost predicate CallerInvariant(s: System, c: Caller) {
    match c
    case Inserting(w, id, port) => id < s.nextId && id !in s.made
    case Spawning(w, id) => id in s.made && id !in s.tasks && s.made[id].0 == w.key && Serves(s.made[id].1, w)
    case Returned(w, id, port) =>
      id in s.made && s.made[id].0 == w.key && Serves(s.made[id].1, w) && s.made[id].1.localPort == port
    case _ => true
  }

  /** The identifier a caller holds before its task runs. */
  function Holds(c: Caller): Option<Id> {
    match c
    case Inserting(_, id, _) => Some(id)
    case Spawning(_, id) => Some(id)
    case _ => None
  }

  ghost predicate CallersInvariant(s: System) {
    forall c | c in s.callers :: CallerInvariant(s, s.callers[c])
  }

  /** No two callers hold the same identifier. */
  ghost predicate HoldApart(s: System) {
    forall c, d | c in s.callers && d in s.callers && c != d && Holds(s.callers[c]).Some? ::
      Holds(s.callers[c]) != Holds(s.callers[d])
  }

  predicate IsSpawning(s: System, c: nat, id: Id) {
    c in s.callers && s.callers[c].Spawning? && s.callers[c].id == id
  }

  /** A tunnel whose task has not started is about to be started by some caller. */
  ghost predicate WillSpawn(s: System) {
    forall id | id in s.made && id !in s.tasks :: exists c :: IsSpawning(s, c, id)
  }

  ghost predicate Invariant(s: System) {
    MapInvariant(s) && CallersInvariant(s) && HoldApart(s) && WillSpawn(s)
  }

  lemma LookUpKeepsMap(s: System, w: Want)
    requires MapInvariant(s)
    ensures var (_, tunnels, cancelled) := LookUp(s.tunnels, s.cancelled, w);
            MapInvariant(s.(tunnels := tunnels, cancelled := cancelled))
    ensures LookUp(s.tunnels, s.cancelled, w).0.None? ==> w.key !in LookUp(s.tunnels, s.cancelled, w).1
  {
  }

  /** Putting a new tunnel where there is none. */
  lemma AddKeepsMap(s: System, key: TunnelKey, t: ActiveTunnel)
    requires MapInvariant(s) && key !in s.tunnels && t.id !in s.made && t.id < s.nextId
    ensures MapInvariant(s.(tunnels := s.tunnels[key := t], made := s.made[t.id := (key, t)]))
  {
    var s' := s.(tunnels := s.tunnels[key := t], made := s.made[t.id := (key, t)]);
    forall id | id in s'.made ensures InMap(s', id) || id in s'.cancelled || Ended(s', id) {
      if id != t.id { assert InMap(s, id) || id in s.cancelled || Ended(s, id); }
    }
  }

  /** A task starts, or ends. */
  lemma TaskStepKeepsMap(s: System, id: Id, task: Task)
    requires MapInvariant(s) && id in s.made && (task.Running? ==> id !in s.tasks) && !task.CleanedUp?
    requires id in s.tasks ==> s.tasks[id].Running?
    ensures MapInvariant(s.(tasks := s.tasks[id := task]))
  {
    var s' := s.(tasks := s.tasks[id := task]);
    forall i | i in s'.made ensures InMap(s', i) || i in s'.cancelled || Ended(s', i) {
      assert InMap(s, i) || i in s.cancelled || Ended(s, i);
    }
  }

  lemma CleanKeepsMap(s: System, id: Id)
    requires MapInvariant(s) && id in s.made && id in s.tasks && s.tasks[id].Exited?
    ensures MapInvariant(s.(tasks := s.tasks[id := CleanedUp], tunnels := CleanUp(s.tunnels, s.made[id].0, id)))
  {
    var s' := s.(tasks := s.tasks[id := CleanedUp], tunnels := CleanUp(s.tunnels, s.made[id].0, id));
    forall i | i in s'.made ensures InMap(s', i) || i in s'.cancelled || Ended(s', i) {
      assert InMap(s, i) || i in s.cancelled || Ended(s, i);
    }
  }

  lemma MapInvariantFrame(s: System, s': System)
    requires MapInvariant(s) && s.nextId <= s'.nextId
    requires s'.tunnels == s.tunnels && s'.cancelled == s.cancelled && s'.tasks == s.tasks && s'.made == s.made
    ensures MapInvariant(s')
  {
    forall id | id in s'.made ensures InMap(s', id) || id in s'.cancelled || Ended(s', id) {
      assert InMap(s, id) || id in s.cancelled || Ended(s, id);
    }
  }

  lemma InsertKeepsMap(s: System, c: nat)
    requires MapInvariant(s) && Enabled(s, InsertStep(c)) && CallerInvariant(s, s.callers[c])
    ensures MapInvariant(Apply(s, InsertStep(c)))
  {
    var Inserting(w, id, port) := s.callers[c];
    var (found, tunnels, cancelled) := LookUp(s.tunnels, s.cancelled, w);
    LookUpKeepsMap(s, w);
    var mid := s.(tunnels := tunnels, cancelled := cancelled);
    if found.Some? {
      MapInvariantFrame(mid, Apply(s, InsertStep(c)));
    } else {
      var t := ActiveTunnel(id, port, w.baseUrl, w.session);
      AddKeepsMap(mid, w.key, t);
      MapInvariantFrame(mid.(tunnels := mid.tunnels[w.key := t], made := mid.made[id := (w.key, t)]), Apply(s, InsertStep(c)));
    }
  }

  lemma StepKeepsMap(s: System, step: Step)
    requires MapInvariant(s) && Enabled(s, step)
    requires step.InsertStep? || step.Spawn? ==> CallerInvariant(s, s.callers[step.c])
    ensures MapInvariant(Apply(s, step))
  {
    var s' := Apply(s, step);
    match step
    case Check(c) =>
      var (_, tunnels, cancelled) := LookUp(s.tunnels, s.cancelled, s.callers[c].want);
      LookUpKeepsMap(s, s.callers[c].want);
      MapInvariantFrame(s.(tunnels := tunnels, cancelled := cancelled), s');
    case InsertStep(c) => InsertKeepsMap(s, c);
    case Spawn(c) =>
      TaskStepKeepsMap(s, s.callers[c].id, Running);
      MapInvariantFrame(s.(tasks := s.tasks[s.callers[c].id := Running]), s');
    case Exit(id) => TaskStepKeepsMap(s, id, Exited);
    case Clean(id) => CleanKeepsMap(s, id);
    case _ => MapInvariantFrame(s, s');
  }

  lemma StepKeepsCallers(s: System, step: Step)
    requires Invariant(s) && Enabled(s, step)
    ensures CallersInvariant(Apply(s, step))
  {
    var s' := Apply(s, step);
    forall d | d in s'.callers ensures CallerInvariant(s', s'.callers[d]) {
      if step.InsertStep? || step.Spawn? {
        OneCallerStays(s, step, d);
      } else {
        assert d in s.callers ==> CallerInvariant(s, s.callers[d]);
      }
    }
  }

  lemma OneCallerStays(s: System, step: Step, d: nat)
    requires Invariant(s) && Enabled(s, step) && (step.InsertStep? || step.Spawn?) && d in Apply(s, step).callers
    ensures CallerInvariant(Apply(s, step), Apply(s, step).callers[d])
  {
    assert CallerInvariant(s, s.callers[step.c]);
    if d != step.c { OtherCallerStays(s, step, d); }
  }

  lemma OtherCallerStays(s: System, step: Step, d: nat)
    requires CallersInvariant(s) && HoldApart(s) && Enabled(s, step) && (step.InsertStep? || step.Spawn?)
    requires d in s.callers && d != step.c
    ensures d in Apply(s, step).callers && CallerInvariant(Apply(s, step), Apply(s, step).callers[d])
  {
    assert CallerInvariant(s, s.callers[step.c]) && CallerInvariant(s, s.callers[d]);
    assert Holds(s.callers[d]) != Holds(s.callers[step.c]);
  }

  lemma StepKeepsApart(s: System, step: Step)
    requires Invariant(s) && Enabled(s, step)
    ensures HoldApart(Apply(s, step))
  {
    var s' := Apply(s, step);
    forall c, d | c in s'.callers && d in s'.callers && c != d && Holds(s'.callers[c]).Some?
      ensures Holds(s'.callers[c]) != Holds(s'.callers[d])
    {
      PairStaysApart(s, step, c, d);
    }
  }

  lemma PairStaysApart(s: System, step: Step, c: nat, d: nat)
    requires Invariant(s) && Enabled(s, step)
    requires var s' := Apply(s, step); c in s'.callers && d in s'.callers && c != d && Holds(s'.callers[c]).Some?
    ensures var s' := Apply(s, step); Holds(s'.callers[c]) != Holds(s'.callers[d])
  {
    assert c in s.callers ==> CallerInvariant(s, s.callers[c]);
    assert d in s.callers ==> CallerInvariant(s, s.callers[d]);
  }

  lemma SpawningStays(s: System, step: Step, d: nat, id: Id)
    requires Invariant(s) && Enabled(s, step) && IsSpawning(s, d, id) && id !in Apply(s, step).tasks
    ensures IsSpawning(Apply(s, step), d, id)
  {
  }

  lemma StepKeepsWillSpawn(s: System, step: Step)
    requires Invariant(s) && Enabled(s, step)
    ensures WillSpawn(Apply(s, step))
  {
    var s' := Apply(s, step);
    forall id | id in s'.made && id !in s'.tasks ensures exists d :: IsSpawning(s', d, id) {
      if id in s.made {
        var d :| IsSpawning(s, d, id);
        SpawningStays(s, step, d, id);
      } else {
        assert IsSpawning(s', step.c, id);
      }
    }
  }

  lemma {:induction false} RunKeepsInvariant(s: System, steps: seq<Step>, end: System)
    requires Invariant(s) && Run(s, steps, end)
    ensures Invariant(end)
    decreases |steps|
  {
    if steps != [] {
      assert steps[0].InsertStep? || steps[0].Spawn? ==> CallerInvariant(s, s.callers[steps[0].c]);
      StepKeepsMap(s, steps[0]);
      StepKeepsCallers(s, steps[0]);
      StepKeepsApart(s, steps[0]);
      StepKeepsWillSpawn(s, steps[0]);
      RunKeepsInvariant(Apply(s, steps[0]), steps[1..], end);
    }
  }

  // ----- main results -----

  /**
   * After any interleaving: no entry's token is cancelled; of the tunnels with
   * one key at most one is live (neither cancelled nor ended); every tunnel ever
   * inserted is in the map under its own key, cancelled, or ended; and each port
   * handed out belongs to a tunnel with the caller's key and sessions.
   */
  lemma EveryInterleaving(steps: seq<Step>, end: System)
    requires Run(Init, steps, end)
    ensures forall k | k in end.tunnels :: end.tunnels[k].id !in end.cancelled
    ensures forall a, b | a in end.made && b in end.made && end.made[a].0 == end.made[b].0
                          && a !in end.cancelled && b !in end.cancelled && !Ended(end, a) && !Ended(end, b) :: a == b
    ensures forall id | id in end.made :: InMap(end, id) || id in end.cancelled || Ended(end, id)
    ensures forall c | c in end.callers && end.callers[c].Returned? ::
              var r := end.callers[c];
              r.id in end.made && end.made[r.id] == (r.want.key, ActiveTunnel(r.id, r.port, r.want.baseUrl, r.want.session))
  {
    RunKeepsInvariant(Init, steps, end);
    forall c | c in end.callers && end.callers[c].Returned?
      ensures var r := end.callers[c];
              r.id in end.made && end.made[r.id] == (r.want.key, ActiveTunnel(r.id, r.port, r.want.baseUrl, r.want.session))
    {
      assert CallerInvariant(end, end.callers[c]);
    }
  }

  /** The map holds a tunnel for the caller's key with its two sessions. */
  predicate IsThere(s: System, w: Want) {
    w.key in s.tunnels && s.tunnels[w.key].session == w.session && s.tunnels[w.key].baseUrl == w.baseUrl
  }

  /** What a look for a tunnel, the first or the second, leaves for its caller. */
  predicate Reused(s: System, s': System, c: nat)
    requires c in s.callers && (s.callers[c].Checking? || s.callers[c].Inserting?)
  {
    var w := s.callers[c].want;
    && c in s'.callers && (s'.callers[c].Returned? <==> IsThere(s, w))
    && (IsThere(s, w) ==>
          s'.callers[c].id == s.tunnels[w.key].id && s'.callers[c].port == s.tunnels[w.key].localPort
          && s'.tunnels == s.tunnels && s'.cancelled == s.cancelled)
    && (!IsThere(s, w) ==> s'.cancelled == if w.key in s.tunnels then s.cancelled + {s.tunnels[w.key].id} else s.cancelled)
  }

  lemma CheckReuses(s: System, c: nat)
    requires MapInvariant(s) && Enabled(s, Check(c))
    ensures Reused(s, Apply(s, Check(c)), c)
    ensures !IsThere(s, s.callers[c].want) ==> Apply(s, Check(c)).tunnels == s.tunnels - {s.callers[c].want.key}
  {
  }

  lemma InsertReuses(s: System, c: nat)
    requires MapInvariant(s) && Enabled(s, InsertStep(c))
    ensures Reused(s, Apply(s, InsertStep(c)), c)
    ensures var Inserting(w, id, port) := s.callers[c];
            !IsThere(s, w) ==> Apply(s, InsertStep(c)).tunnels == s.tunnels[w.key := ActiveTunnel(id, port, w.baseUrl, w.session)]
  {
  }

  /** A caller is given the map's tunnel exactly if there is one for its key with its two sessions, at either look. */
  lemma ReuseIff(steps: seq<Step>, s: System, c: nat)
    requires Run(Init, steps, s)
    ensures Enabled(s, Check(c)) ==> Reused(s, Apply(s, Check(c)), c)
    ensures Enabled(s, InsertStep(c)) ==> Reused(s, Apply(s, InsertStep(c)), c)
  {
    RunKeepsInvariant(Init, steps, s);
    if Enabled(s, Check(c)) {
      CheckReuses(s, c);
    } else if Enabled(s, InsertStep(c)) {
      InsertReuses(s, c);
    }
  }

  /** Two callers for one key whose tunnels both live have been given one tunnel, on one port. */
  lemma OnePortPerKey(steps: seq<Step>, s: System, c: nat, d: nat)
    requires Run(Init, steps, s) && c in s.callers && d in s.callers && s.callers[c].Returned? && s.callers[d].Returned?
    requires s.callers[c].want.key == s.callers[d].want.key
    requires s.callers[c].id !in s.cancelled && !Ended(s, s.callers[c].id)
    requires s.callers[d].id !in s.cancelled && !Ended(s, s.callers[d].id)
    ensures s.callers[c].id == s.callers[d].id && s.callers[c].port == s.callers[d].port
  {
    EveryInterleaving(steps, s);
  }

  /** A clean-up removes at most its own tunnel's entry, and leaves every other entry as it was. */
  lemma CleanUpOnlyItsOwn(steps: seq<Step>, s: System, id: Id)
    requires Run(Init, steps, s) && Enabled(s, Clean(id))
    ensures var s' := Apply(s, Clean(id));
            && (forall k :: k in s'.tunnels <==> k in s.tunnels && s.tunnels[k].id != id)
            && (forall k | k in s'.tunnels :: s'.tunnels[k] == s.tunnels[k])
  {
    RunKeepsInvariant(Init, steps, s);
  }

  /** Cancelling is final: a cancelled tunnel is never in the map again. */
  lemma CancelledStaysOut(steps: seq<Step>, s: System, more: seq<Step>, end: System, id: Id)
    requires Run(Init, steps, s) && Run(s, more, end) && id in s.cancelled
    ensures id in end.cancelled && forall k | k in end.tunnels :: end.tunnels[k].id != id
    decreases |more|
  {
    RunKeepsInvariant(Init, steps, s);
    RunKeepsInvariant(s, more, end);
    CancelledGrows(s, more, end);
  }

  lemma {:induction false} CancelledGrows(s: System, steps: seq<Step>, end: System)
    requires Run(s, steps, end)
    ensures s.cancelled <= end.cancelled
    decreases |steps|
  {
    if steps != [] {
      CancelledGrows(Apply(s, steps[0]), steps[1..], end);
    }
  }

  /** Once no caller is between insertion and spawn, the live tunnels are exactly the map's entries that have not ended. */
  lemma NothingLeaks(steps: seq<Step>, s: System, id: Id)
    requires Run(Init, steps, s)
    requires forall c | c in s.callers :: !s.callers[c].Spawning?
    ensures id in s.tasks && s.tasks[id].Running? && id !in s.cancelled
            <==> (exists k :: k in s.tunnels && s.tunnels[k].id == id) && !Ended(s, id)
  {
    RunKeepsInvariant(Init, steps, s);
    assert id in s.made ==> id in s.tasks by {
      assert forall c :: !IsSpawning(s, c, id);
    }
  }
}
