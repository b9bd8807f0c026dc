/**
 * Forgetting is not observable: the signing service, which drops expired
 * sessions and old nonces, answers as one that keeps everything.
 */
module Forgetting {
  import opened Wrappers
  import opened SigningText
  import opened WsCrypto
  import opened SigningService

  // ----- the reference: nothing is ever dropped -----

  function KeepVerify(epoch: nat, sessions: Sessions, req: Request, t: Readings): (Result<(), ValidationError>, Sessions) {
    if !InDrift(WallSecs(epoch, t.wall), req.timestamp) then (Err(TimestampOutOfDrift), sessions)
    else if req.signature.None? then (Err(ValidationError.InvalidSignature), sessions)
    else if req.session !in sessions || !Alive(sessions[req.session], t.session) then (Err(MissingSigningSession), sessions)
    else
      var s := sessions[req.session];
      if req.nonce in s.seenNonces then (Err(ReplayNonce), sessions)
      else if !SignedBy(s.peerKey, req) then (Err(ValidationError.InvalidSignature), sessions)
      else
        (Ok(()), sessions[req.session := s.(seenNonces := s.seenNonces[req.nonce := t.stamp], lastUsedAt := t.used)])
  }

  function KeepApply(epoch: nat, sessions: Sessions, e: Event): (Answer, Sessions) {
    if e.VerifyEvent? then
      var (r, s) := KeepVerify(epoch, sessions, e.req, e.t);
      (Verified(r), s)
    else
      Apply(epoch, sessions, e)
  }

  function KeepTable(epoch: nat, events: seq<Event>, i: nat): Sessions
    requires i <= |events|
  {
    if i == 0 then map[] else KeepApply(epoch, KeepTable(epoch, events, i - 1), events[i - 1]).1
  }

  function KeepAnswerAt(epoch: nat, events: seq<Event>, i: nat): Answer
    requires i < |events|
  {
    KeepApply(epoch, KeepTable(epoch, events, i), events[i]).0
  }

  /** A peer signs at most one timestamp with each nonce of a session. */
  ghost predicate NoncesAreFresh(events: seq<Event>) {
    forall a, b, key | 0 <= a < |events| && 0 <= b < |events| && events[a].VerifyEvent? && events[b].VerifyEvent?
                       && SignedBy(key, events[a].req) && SignedBy(key, events[b].req)
                       && events[a].req.session == events[b].req.session && events[a].req.nonce == events[b].req.nonce ::
      events[a].req.timestamp == events[b].req.timestamp
  }

  // ----- the simulation -----

  /** What is missing from the pruned table at `now` no longer counts. */
  ghost predicate Simulates(sys: Sessions, keep: Sessions, now: Instant) {
    && (forall id | id in sys :: id in keep && SameSession(sys[id], keep[id], now))
    && (forall id | id in keep && id !in sys :: !Alive(keep[id], now))
  }

  ghost predicate SameSession(s: Session, k: Session, now: Instant) {
    && s.peerKey == k.peerKey && s.createdAt == k.createdAt && s.lastUsedAt == k.lastUsedAt
    && (forall n | n in s.seenNonces :: n in k.seenNonces && k.seenNonces[n] == s.seenNonces[n])
    && (forall n | n in k.seenNonces && n !in s.seenNonces :: k.seenNonces[n] + NonceTtl < now)
  }

  /** The event that put a nonce into a session. */
  ghost predicate Source(epoch: nat, e: Event, id: Uuid, n: Uuid, s: Session)
    requires n in s.seenNonces
  {
    e.VerifyEvent? && e.req.session == id && e.req.nonce == n && e.t.stamp == s.seenNonces[n]
    && InDrift(WallSecs(epoch, e.t.wall), e.req.timestamp) && SignedBy(s.peerKey, e.req)
  }

  lemma {:induction false} EveryNonceHasASource(epoch: nat, events: seq<Event>, i: nat, id: Uuid, n: Uuid) returns (k: nat)
    requires i <= |events| && id in KeepTable(epoch, events, i) && n in KeepTable(epoch, events, i)[id].seenNonces
    ensures k < i && Source(epoch, events[k], id, n, KeepTable(epoch, events, i)[id])
    decreases i
  {
    var e := events[i - 1];
    var before := KeepTable(epoch, events, i - 1);
    if e.VerifyEvent? && KeepApply(epoch, before, e).0 == Verified(Ok(())) && e.req.session == id && e.req.nonce == n {
      k := i - 1;
    } else {
      k := EveryNonceHasASource(epoch, events, i - 1, id, n);
    }
  }

  /** Two answers differ at most in the reason for refusing a request whose signature is bad. */
  predicate SameAnswer(a: Answer, keep: Answer) {
    || a == keep
    || (a == Verified(Err(ValidationError.InvalidSignature)) && keep == Verified(Err(ReplayNonce)))
  }

  lemma SimulatesLater(sys: Sessions, keep: Sessions, now: Instant, later: Instant)
    requires Simulates(sys, keep, now) && now <= later
    ensures Simulates(sys, keep, later)
  {
  }

  lemma SimulatesPruned(sys: Sessions, keep: Sessions, now: Instant)
    requires Simulates(sys, keep, now)
    ensures Simulates(LiveSessions(sys, now), keep, now)
  {
  }

  lemma SimulatesUpdate(sys: Sessions, keep: Sessions, now: Instant, id: Uuid, s: Session, k: Session)
    requires Simulates(sys, keep, now) && SameSession(s, k, now)
    ensures Simulates(sys[id := s], keep[id := k], now)
  {
  }

  lemma SameSessionPruned(s: Session, k: Session, at: Uuid -> Instant, now: Instant)
    requires SameSession(s, k, now) && forall n: Uuid :: at(n) <= now
    ensures SameSession(s.(seenNonces := FreshNonces(s.seenNonces, at)), k, now)
  {
  }

  lemma SameSessionAccepts(s: Session, k: Session, now: Instant, later: Instant, n: Uuid, t: Readings)
    requires SameSession(s, k, now) && now <= later
    ensures SameSession(s.(seenNonces := s.seenNonces[n := t.stamp], lastUsedAt := t.used),
                        k.(seenNonces := k.seenNonces[n := t.stamp], lastUsedAt := t.used), later)
  {
  }

  /** A stale nonce does not come back with a good signature: its timestamp has left the drift window by then. */
  ghost predicate NotStale(epoch: nat, keep: Sessions, e: Event) {
    e.VerifyEvent? && InDrift(WallSecs(epoch, e.t.wall), e.req.timestamp)
    && e.req.session in keep && e.req.nonce in keep[e.req.session].seenNonces && SignedBy(keep[e.req.session].peerKey, e.req)
    ==> e.t.nonces(e.req.nonce) <= keep[e.req.session].seenNonces[e.req.nonce] + NonceTtl
  }

  /** A verification keeps the two tables in step, given that no stale nonce comes back with a good signature. */
  lemma VerifyInStep(epoch: nat, sys: Sessions, keep: Sessions, now: Instant, req: Request, t: Readings)
    requires Simulates(sys, keep, now) && now <= t.session && InTurn(t)
    requires NotStale(epoch, keep, VerifyEvent(req, t))
    ensures var (_, sys') := Verify(epoch, sys, req, t);
            var (_, keep') := KeepVerify(epoch, keep, req, t);
            Simulates(sys', keep', t.used)
  {
    SimulatesLater(sys, keep, now, t.used);
    SimulatesLater(sys, keep, now, t.session);
    SimulatesPruned(sys, keep, t.session);
    var live := LiveSessions(sys, t.session);
    SimulatesLater(live, keep, t.session, t.used);
    if InDrift(WallSecs(epoch, t.wall), req.timestamp) && req.signature.Some? && req.session in live {
      LiveInStep(epoch, sys, keep, req, t);
    }
  }

  lemma LiveInStep(epoch: nat, sys: Sessions, keep: Sessions, req: Request, t: Readings)
    requires var live := LiveSessions(sys, t.session); Simulates(live, keep, t.session) && req.session in live
    requires InTurn(t) && NotStale(epoch, keep, VerifyEvent(req, t))
    requires InDrift(WallSecs(epoch, t.wall), req.timestamp) && req.signature.Some?
    ensures Simulates(Verify(epoch, sys, req, t).1, KeepVerify(epoch, keep, req, t).1, t.used)
  {
    assert t.session <= t.nonces(req.nonce);
    SessionInStep(LiveSessions(sys, t.session), keep, req, t);
  }

  lemma SessionInStep(live: Sessions, keep: Sessions, req: Request, t: Readings)
    requires Simulates(live, keep, t.session) && req.session in live && InTurn(t)
    ensures var id := req.session;
            var s := live[id].(seenNonces := FreshNonces(live[id].seenNonces, t.nonces));
            && Simulates(live[id := s], keep, t.used)
            && Simulates(live[id := s.(seenNonces := s.seenNonces[req.nonce := t.stamp], lastUsedAt := t.used)],
                         keep[id := keep[id].(seenNonces := keep[id].seenNonces[req.nonce := t.stamp], lastUsedAt := t.used)],
                         t.used)
  {
    var id := req.session;
    var s := live[id].(seenNonces := FreshNonces(live[id].seenNonces, t.nonces));
    SimulatesLater(live, keep, t.session, t.stamp);
    SameSessionPruned(live[id], keep[id], t.nonces, t.stamp);
    SimulatesUpdate(live, keep, t.stamp, id, s, keep[id]);
    assert keep[id := keep[id]] == keep;
    SimulatesLater(live[id := s], keep, t.stamp, t.used);
    SimulatesLater(live, keep, t.session, t.used);
    SameSessionAccepts(s, keep[id], t.stamp, t.used, req.nonce, t);
    SimulatesUpdate(live, keep, t.used, id, s.(seenNonces := s.seenNonces[req.nonce := t.stamp], lastUsedAt := t.used),
                    keep[id].(seenNonces := keep[id].seenNonces[req.nonce := t.stamp], lastUsedAt := t.used));
  }

  lemma NothingIsStale(epoch: nat, events: seq<Event>, delay: nat, i: nat)
    requires i < |events| && Timed(events, delay) && delay <= SafeDelay && NoncesAreFresh(events)
    ensures NotStale(epoch, KeepTable(epoch, events, i), events[i])
  {
    var e := events[i];
    var keep := KeepTable(epoch, events, i);
    if e.VerifyEvent? && InDrift(WallSecs(epoch, e.t.wall), e.req.timestamp) && e.req.session in keep
       && e.req.nonce in keep[e.req.session].seenNonces && SignedBy(keep[e.req.session].peerKey, e.req) {
      var k := EveryNonceHasASource(epoch, events, i, e.req.session, e.req.nonce);
      DriftWindow(epoch, events[k].t.wall, e.t.wall, e.req.timestamp);
    }
  }

  /** A badly signed request in drift, on a live session, with a nonce used more than its retention ago. */
  predicate ForgottenNonce(epoch: nat, keep: Sessions, e: Event) {
    && e.VerifyEvent? && InDrift(WallSecs(epoch, e.t.wall), e.req.timestamp) && e.req.signature.Some?
    && e.req.session in keep
    && var s := keep[e.req.session];
       && Alive(s, e.t.session)
       && e.req.nonce in s.seenNonces && s.seenNonces[e.req.nonce] + NonceTtl < e.t.nonces(e.req.nonce)
       && !SignedBy(s.peerKey, e.req)
  }

  lemma StepInStep(epoch: nat, sys: Sessions, keep: Sessions, now: Instant, e: Event)
    requires Simulates(sys, keep, now) && now <= Start(e) && NotStale(epoch, keep, e)
    requires e.VerifyEvent? ==> InTurn(e.t)
    ensures Simulates(Apply(epoch, sys, e).1, KeepApply(epoch, keep, e).1, End(e))
  {
    if e.VerifyEvent? {
      VerifyInStep(epoch, sys, keep, now, e.req, e.t);
    } else {
      SimulatesLater(sys, keep, now, Start(e));
    }
  }

  lemma AnswersDifferIff(epoch: nat, sys: Sessions, keep: Sessions, now: Instant, e: Event)
    requires Simulates(sys, keep, now) && now <= Start(e) && NotStale(epoch, keep, e)
    requires e.VerifyEvent? ==> InTurn(e.t)
    ensures Apply(epoch, sys, e).0 != KeepApply(epoch, keep, e).0 <==> ForgottenNonce(epoch, keep, e)
    ensures SameAnswer(Apply(epoch, sys, e).0, KeepApply(epoch, keep, e).0)
  {
    SimulatesLater(sys, keep, now, Start(e));
    if e.VerifyEvent? {
      SimulatesPruned(sys, keep, e.t.session);
      assert e.t.session <= e.t.nonces(e.req.nonce);
    }
  }

  lemma {:induction false} TablesInStep(epoch: nat, events: seq<Event>, delay: nat, i: nat)
    requires i <= |events| && Timed(events, delay) && delay <= SafeDelay && NoncesAreFresh(events)
    ensures Simulates(Table(epoch, events, i), KeepTable(epoch, events, i), Clock(events, i))
    decreases i
  {
    if i > 0 {
      TablesInStep(epoch, events, delay, i - 1);
      NothingIsStale(epoch, events, delay, i - 1);
      StepInStep(epoch, Table(epoch, events, i - 1), KeepTable(epoch, events, i - 1), Clock(events, i - 1), events[i - 1]);
    }
  }

  /** When the lock was last let go before event i. */
  function Clock(events: seq<Event>, i: nat): Instant
    requires i <= |events|
  {
    if i == 0 then 0 else End(events[i - 1])
  }

  /**
   * In every run with fresh nonces the pruning service gives the answers of one
   * that never forgets, except exactly that a badly signed request with a
   * forgotten nonce is refused for its signature instead of for its nonce.
   */
  lemma ForgettingIsUnobservable(epoch: nat, events: seq<Event>, delay: nat, i: nat)
    requires i < |events| && Timed(events, delay) && delay <= SafeDelay && NoncesAreFresh(events)
    ensures AnswerAt(epoch, events, i) != KeepAnswerAt(epoch, events, i)
            <==> ForgottenNonce(epoch, KeepTable(epoch, events, i), events[i])
    ensures SameAnswer(AnswerAt(epoch, events, i), KeepAnswerAt(epoch, events, i))
  {
    TablesInStep(epoch, events, delay, i);
    NothingIsStale(epoch, events, delay, i);
    AnswersDifferIff(epoch, Table(epoch, events, i), KeepTable(epoch, events, i), Clock(events, i), events[i]);
  }

  /** The one difference does occur: a repeated nonce, a new timestamp and no signature, after the nonce was dropped. */
  lemma ReasonsDiffer(req: Request, key: Key, forged: Request)
    requires req.timestamp == 0 && SignedBy(key, req)
    requires forged.session == req.session && forged.nonce == req.nonce && forged.timestamp == 200
             && forged.signature == Some(Forged(0))
    ensures var late := 200 * Second;
            var events := [Register(req.session, key, 0, 0), VerifyEvent(req, Readings(0, 0, n => 0, 0, 0)),
                           VerifyEvent(forged, Readings(late, late, n => late, late, late))];
            && AnswerAt(0, events, 2) == Verified(Err(ValidationError.InvalidSignature))
            && KeepAnswerAt(0, events, 2) == Verified(Err(ReplayNonce))
  {
    var late := 200 * Second;
    var events := [Register(req.session, key, 0, 0), VerifyEvent(req, Readings(0, 0, n => 0, 0, 0)),
                   VerifyEvent(forged, Readings(late, late, n => late, late, late))];
    assert Table(0, events, 0) == map[] == KeepTable(0, events, 0);
    var t1 := Table(0, events, 1);
    assert t1 == map[req.session := Session(key, 0, 0, map[])] == KeepTable(0, events, 1);
    var used := Session(key, 0, 0, map[req.nonce := 0]);
    assert KeepTable(0, events, 2) == map[req.session := used];
    assert Table(0, events, 2) == map[req.session := used] by {
      assert LiveSessions(t1, 0) == t1;
    }
    assert req.session in LiveSessions(map[req.session := used], late);
  }
}
