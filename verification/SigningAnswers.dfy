/**
 * When the request signing service accepts, refuses and finds
 * (crates/relay-control/src/signing.rs), with every duration as a number of
 * nanoseconds or seconds, and over whole runs.
 */
module SigningAnswers {
  import opened Wrappers
  import opened SigningText
  import opened WsCrypto
  import opened SigningService

  /** The timestamp is within 30 s of the wall clock, read in whole seconds. */
  predicate InWindow(epoch: nat, wall: Instant, timestamp: I64) {
    var secs := (wall + epoch) / 1_000_000_000;
    secs < 0x8000_0000_0000_0000 && timestamp - 30 <= secs <= timestamp + 30
  }

  /** Made at most an hour ago, and used at most 15 minutes ago. */
  predicate Usable(s: Session, now: Instant) {
    now <= s.createdAt + 3_600_000_000_000 && now <= s.lastUsedAt + 900_000_000_000
  }

  predicate HasSignature(key: Key, req: Request) {
    req.signature == Some(Signed(key, RequestInput(req.timestamp, req.verb, req.path, req.session, req.nonce, req.body)))
  }

  /** The nonce was used at most two minutes before it is looked at. */
  predicate UsedNonce(s: Session, n: Uuid, now: Instant) {
    n in s.seenNonces && now <= s.seenNonces[n] + 120_000_000_000
  }

  lemma UsableIsAlive(s: Session, now: Instant)
    ensures Usable(s, now) <==> Alive(s, now)
  {
  }

  lemma WindowIsDrift(epoch: nat, wall: Instant, timestamp: I64)
    ensures InWindow(epoch, wall, timestamp) <==> InDrift(WallSecs(epoch, wall), timestamp)
  {
    assert WallSecs(epoch, wall) == (wall + epoch) / 1_000_000_000;
    if WallSecs(epoch, wall) < 0x8000_0000_0000_0000 { DriftExact(WallSecs(epoch, wall), timestamp); }
  }

  // ----- one call -----

  /** Which of the five answers `verify_request` gives. */
  lemma VerifyIff(epoch: nat, sessions: Sessions, req: Request, t: Readings)
    ensures var r := Verify(epoch, sessions, req, t).0;
            var inWindow := InWindow(epoch, t.wall, req.timestamp);
            var found := req.session in sessions && Usable(sessions[req.session], t.session);
            && (r == Err(TimestampOutOfDrift) <==> !inWindow)
            && (r == Err(MissingSigningSession) <==> inWindow && req.signature.Some? && !found)
            && (r == Err(ReplayNonce) <==>
                  inWindow && req.signature.Some? && found && UsedNonce(sessions[req.session], req.nonce, t.nonces(req.nonce)))
            && (r == Err(ValidationError.InvalidSignature) <==>
                  inWindow && (req.signature.None?
                               || (found && !UsedNonce(sessions[req.session], req.nonce, t.nonces(req.nonce))
                                   && !HasSignature(sessions[req.session].peerKey, req))))
            && (r == Ok(()) <==>
                  inWindow && found && HasSignature(sessions[req.session].peerKey, req)
                  && !UsedNonce(sessions[req.session], req.nonce, t.nonces(req.nonce)))
  {
    WindowIsDrift(epoch, t.wall, req.timestamp);
    if req.session in sessions { UsableIsAlive(sessions[req.session], t.session); }
  }

  /** What a verification leaves of each session. */
  lemma VerifyLeaves(epoch: nat, sessions: Sessions, req: Request, t: Readings, id: Uuid)
    ensures var (r, after) := Verify(epoch, sessions, req, t);
            var looked := InWindow(epoch, t.wall, req.timestamp) && req.signature.Some?;
            && (id in after <==> id in sessions && (looked ==> Usable(sessions[id], t.session)))
            && (id in after ==>
                  && after[id].peerKey == sessions[id].peerKey && after[id].createdAt == sessions[id].createdAt
                  && after[id].lastUsedAt == (if r == Ok(()) && id == req.session then t.used else sessions[id].lastUsedAt)
                  && (id != req.session ==> after[id] == sessions[id]))
            && (r == Ok(()) ==> req.session in after && req.nonce in after[req.session].seenNonces
                                && after[req.session].seenNonces[req.nonce] == t.stamp)
  {
    WindowIsDrift(epoch, t.wall, req.timestamp);
    if id in sessions { UsableIsAlive(sessions[id], t.session); }
  }

  /** And of each nonce of the request's session: it stays if it is fresh when it is looked at. */
  lemma VerifyLeavesNonces(epoch: nat, sessions: Sessions, req: Request, t: Readings, n: Uuid)
    requires req.session in Verify(epoch, sessions, req, t).1
    requires InWindow(epoch, t.wall, req.timestamp) && req.signature.Some? && n != req.nonce
    ensures var s, s' := sessions[req.session], Verify(epoch, sessions, req, t).1[req.session];
            && (n in s'.seenNonces <==> UsedNonce(s, n, t.nonces(n)))
            && (n in s'.seenNonces ==> s'.seenNonces[n] == s.seenNonces[n])
  {
    WindowIsDrift(epoch, t.wall, req.timestamp);
  }

  lemma LookUpsIff(sessions: Sessions, id: Uuid, key: Key, now: Instant)
    ensures PeerKey(sessions, id, now) == Some(key) <==> id in sessions && Usable(sessions[id], now) && sessions[id].peerKey == key
    ensures PeerKey(sessions, id, now) == None <==> id !in sessions || !Usable(sessions[id], now)
    ensures HasKey(sessions, key, now) <==> exists i :: i in sessions && Usable(sessions[i], now) && sessions[i].peerKey == key
    ensures id in LiveSessions(sessions, now) <==> id in sessions && Usable(sessions[id], now)
  {
    forall i | i in sessions ensures Usable(sessions[i], now) <==> Alive(sessions[i], now) {
      UsableIsAlive(sessions[i], now);
    }
  }

  // ----- over runs -----

  /** Event k is a request accepted on the session made by event r. */
  predicate IsUse(epoch: nat, events: seq<Event>, r: nat, k: nat)
    requires r < |events| && events[r].Register? && k < |events|
  {
    events[k].VerifyEvent? && events[k].req.session == events[r].id && AcceptedAt(epoch, events, k)
  }

  /** The last index from r to j that has the property, or else r. */
  function LastOf(p: nat -> bool, r: nat, j: nat): (k: nat)
    requires r < j
    ensures r <= k < j && (k == r || p(k)) && forall i | k < i < j :: !p(i)
  {
    if j == r + 1 then r else if p(j - 1) then j - 1 else LastOf(p, r, j - 1)
  }

  function Uses(epoch: nat, events: seq<Event>, r: nat): nat -> bool
    requires r < |events| && events[r].Register?
  {
    (k: nat) => k < |events| && IsUse(epoch, events, r, k)
  }

  /** When the session made by event r was last used, or made, as far as the first j events go. */
  function LastUse(epoch: nat, events: seq<Event>, r: nat, j: nat): Instant
    requires r < j <= |events| && events[r].Register?
  {
    var k := LastOf(Uses(epoch, events, r), r, j);
    if k == r then events[r].now else events[k].t.used
  }

  lemma {:induction false} LastUseIsPast(epoch: nat, events: seq<Event>, delay: nat, r: nat, j: nat)
    requires r < j <= |events| && events[r].Register? && Timed(events, delay)
    ensures events[r].now <= LastUse(epoch, events, r, j) <= End(events[j - 1])
    decreases j
  {
    if j > r + 1 {
      LastUseIsPast(epoch, events, delay, r, j - 1);
      LastUseStep(epoch, events, r, j);
      assert End(events[j - 2]) <= Start(events[j - 1]) <= End(events[j - 1]);
    }
  }

  /** No request accepted on the session comes after its last use. */
  lemma LastUseIsLast(epoch: nat, events: seq<Event>, r: nat, j: nat, i: nat)
    requires r < j <= |events| && events[r].Register? && LastOf(Uses(epoch, events, r), r, j) < i < j
    ensures !IsUse(epoch, events, r, i)
  {
    assert !Uses(epoch, events, r)(i);
  }

  lemma LastUseStep(epoch: nat, events: seq<Event>, r: nat, j: nat)
    requires r + 1 < j <= |events| && events[r].Register?
    ensures LastUse(epoch, events, r, j) ==
              if IsUse(epoch, events, r, j - 1) then events[j - 1].t.used else LastUse(epoch, events, r, j - 1)
  {
    assert Uses(epoch, events, r)(j - 1) <==> IsUse(epoch, events, r, j - 1);
  }

  /** The session is in the table as it was made and last used, or it has been unusable before now. */
  ghost predicate Tracked(sessions: Sessions, id: Uuid, made: Session, now: Instant) {
    if id in sessions then
      sessions[id].peerKey == made.peerKey && sessions[id].createdAt == made.createdAt && sessions[id].lastUsedAt == made.lastUsedAt
    else !Usable(made, now)
  }

  function Made(epoch: nat, events: seq<Event>, r: nat, j: nat): Session
    requires r < j <= |events| && events[r].Register?
  {
    Session(events[r].key, events[r].now, LastUse(epoch, events, r, j), map[])
  }

  lemma TrackedStep(epoch: nat, sessions: Sessions, id: Uuid, made: Session, now: Instant, e: Event)
    requires Tracked(sessions, id, made, now) && now <= Start(e) <= End(e)
    requires e.Register? ==> e.id != id
    ensures var (a, after) := Apply(epoch, sessions, e);
            var used := e.VerifyEvent? && e.req.session == id && a == Verified(Ok(()));
            Tracked(after, id, if used then made.(lastUsedAt := e.t.used) else made, End(e))
  {
    if e.VerifyEvent? {
      VerifyLeaves(epoch, sessions, e.req, e.t, id);
      VerifyIff(epoch, sessions, e.req, e.t);
    }
  }

  lemma {:induction false} SessionIsTracked(epoch: nat, events: seq<Event>, delay: nat, r: nat, j: nat)
    requires Timed(events, delay) && OnceRegistered(events) && r < j <= |events| && events[r].Register?
    ensures Tracked(Table(epoch, events, j), events[r].id, Made(epoch, events, r, j), End(events[j - 1]))
    decreases j
  {
    if j == r + 1 {
      assert Table(epoch, events, j) == Registered(Table(epoch, events, r), events[r].id, events[r].key, events[r].now);
    } else {
      SessionIsTracked(epoch, events, delay, r, j - 1);
      LastUseStep(epoch, events, r, j);
      TrackedStep(epoch, Table(epoch, events, j - 1), events[r].id, Made(epoch, events, r, j - 1), End(events[j - 2]), events[j - 1]);
    }
  }

  /**
   * A session registered once is found exactly while it is at most an hour old and
   * was last used at most 15 minutes ago, whatever has been pruned in between: so
   * a session whose uses are at most 15 minutes apart is found for an hour, and
   * refused from then on.
   */
  lemma FoundIff(epoch: nat, events: seq<Event>, delay: nat, r: nat, j: nat, now: Instant)
    requires Timed(events, delay) && OnceRegistered(events) && r < j <= |events| && events[r].Register?
    requires End(events[j - 1]) <= now
    ensures var found := now <= events[r].now + 3_600_000_000_000 && now <= LastUse(epoch, events, r, j) + 900_000_000_000;
            && PeerKey(Table(epoch, events, j), events[r].id, now) == (if found then Some(events[r].key) else None)
            && (events[r].id in LiveSessions(Table(epoch, events, j), now) <==> found)
  {
    SessionIsTracked(epoch, events, delay, r, j);
    LookUpsIff(Table(epoch, events, j), events[r].id, events[r].key, now);
  }

  // ----- nonces over runs -----

  /** A nonce in the table was put there by a request accepted on its session. */
  lemma {:induction false} NonceHasUse(epoch: nat, events: seq<Event>, r: nat, j: nat, n: Uuid) returns (k: nat)
    requires OnceRegistered(events) && r < j <= |events| && events[r].Register?
    requires events[r].id in Table(epoch, events, j) && n in Table(epoch, events, j)[events[r].id].seenNonces
    ensures r < k < j && IsUse(epoch, events, r, k) && events[k].req.nonce == n
    ensures events[k].t.stamp == Table(epoch, events, j)[events[r].id].seenNonces[n]
    decreases j
  {
    var id, e, before := events[r].id, events[j - 1], Table(epoch, events, j - 1);
    if j == r + 1 {
      assert false;
    } else if IsUse(epoch, events, r, j - 1) && e.req.nonce == n {
      AcceptedIsStored(epoch, before, e.req, e.t);
      k := j - 1;
    } else {
      NonceWasThere(epoch, before, e, id, n);
      k := NonceHasUse(epoch, events, r, j - 1, n);
    }
  }

  lemma NonceWasThere(epoch: nat, sessions: Sessions, e: Event, id: Uuid, n: Uuid)
    requires var after := Apply(epoch, sessions, e).1; id in after && n in after[id].seenNonces
    requires e.Register? ==> e.id != id
    requires !(e.VerifyEvent? && e.req.session == id && Apply(epoch, sessions, e).0 == Verified(Ok(())) && e.req.nonce == n)
    ensures id in sessions && n in sessions[id].seenNonces
    ensures sessions[id].seenNonces[n] == Apply(epoch, sessions, e).1[id].seenNonces[n]
  {
  }

  /** The nonce was used at most two minutes before `now` by a request accepted on the session made by event r. */
  ghost predicate UsedBefore(epoch: nat, events: seq<Event>, r: nat, j: nat, n: Uuid, now: Instant)
    requires r < |events| && events[r].Register? && j <= |events|
  {
    exists k | r < k < j :: IsUse(epoch, events, r, k) && events[k].req.nonce == n && now <= events[k].t.stamp + 120_000_000_000
  }

  lemma UsedBeforeIff(epoch: nat, events: seq<Event>, delay: nat, r: nat, j: nat, n: Uuid, now: Instant)
    requires Timed(events, delay) && OnceRegistered(events) && r < j <= |events| && events[r].Register?
    requires events[r].id in Table(epoch, events, j) && End(events[j - 1]) <= now
    ensures UsedNonce(Table(epoch, events, j)[events[r].id], n, now) <==> UsedBefore(epoch, events, r, j, n, now)
  {
    var s := Table(epoch, events, j)[events[r].id];
    if UsedNonce(s, n, now) {
      var k := NonceHasUse(epoch, events, r, j, n);
    }
    if k :| r < k < j && IsUse(epoch, events, r, k) && events[k].req.nonce == n && now <= events[k].t.stamp + 120_000_000_000 {
      RemembersAccepted(epoch, events, delay, k, j);
    }
  }

  /**
   * Over any run: a request on a once-registered session is accepted exactly if it
   * is in its window and signed, the session is at most an hour old and was last
   * used at most 15 minutes ago, and its nonce was not used by a request accepted
   * in the two minutes before.
   */
  lemma AcceptedIff(epoch: nat, events: seq<Event>, delay: nat, r: nat, j: nat)
    requires Timed(events, delay) && OnceRegistered(events) && r < j < |events| && events[r].Register?
    requires events[j].VerifyEvent? && events[j].req.session == events[r].id
    ensures var (req, t) := (events[j].req, events[j].t);
            AcceptedAt(epoch, events, j) <==>
              && InWindow(epoch, t.wall, req.timestamp) && HasSignature(events[r].key, req)
              && t.session <= events[r].now + 3_600_000_000_000 && t.session <= LastUse(epoch, events, r, j) + 900_000_000_000
              && !UsedBefore(epoch, events, r, j, req.nonce, t.nonces(req.nonce))
  {
    var (req, t) := (events[j].req, events[j].t);
    assert End(events[j - 1]) <= t.session <= t.nonces(req.nonce);
    SessionIsTracked(epoch, events, delay, r, j);
    VerifyIff(epoch, Table(epoch, events, j), req, t);
    if events[r].id in Table(epoch, events, j) {
      UsedBeforeIff(epoch, events, delay, r, j, req.nonce, t.nonces(req.nonce));
    }
  }

  /** 59 s and 1 ns: the delay up to which replay freedom holds. */
  lemma ReplayFreeUpTo(delay: nat)
    ensures (forall epoch: nat, events | Timed(events, delay) && OnceRegistered(events) :: ReplayFree(epoch, events))
            <==> delay <= 59_000_000_001
  {
    ReplayFreeIff(delay);
  }
}
