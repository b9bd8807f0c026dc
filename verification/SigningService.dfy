/**
 * The request signing service (crates/relay-control/src/signing.rs): sessions
 * with two lifetimes, a nonce table per session that forgets, and a clock drift
 * window. Instants are nanoseconds of the monotonic clock; the wall clock runs
 * `epoch` nanoseconds ahead of it.
 */
module SigningService {
  import opened Wrappers
  import opened SigningText
  import opened WsCrypto

  type Instant = nat

  const Second: nat := 1_000_000_000
  const MaxDriftSecs: nat := 30
  const SessionTtl: nat := 60 * 60 * Second
  const IdleTtl: nat := 15 * 60 * Second
  const NonceTtl: nat := 2 * 60 * Second

  datatype Session = Session(peerKey: Key, createdAt: Instant, lastUsedAt: Instant, seenNonces: map<Uuid, Instant>)

  type Sessions = map<Uuid, Session>

  /** A request with its signature; None when the signature's base64 does not parse. */
  datatype Request = Request(session: Uuid, timestamp: I64, nonce: Uuid, signature: Option<Signature>,
                             verb: string, path: string, body: seq<Byte>)

  datatype ValidationError = TimestampOutOfDrift | MissingSigningSession | InvalidNonce | ReplayNonce | InvalidSignature

  /**
   * The clock readings of one `verify_request`, in program order; all but the
   * first are taken under the lock, and one for each nonce that is looked at.
   */
  datatype Readings = Readings(wall: Instant, session: Instant, nonces: Uuid -> Instant, stamp: Instant, used: Instant)

  ghost predicate InTurn(t: Readings) {
    t.session <= t.stamp <= t.used && forall n: Uuid :: t.session <= t.nonces(n) <= t.stamp
  }

  // ----- the two checks on time -----

  /** `saturating_sub` on i64 */
  function SaturatingSub(a: I64, b: I64): I64 {
    if a - b < -0x8000_0000_0000_0000 then -0x8000_0000_0000_0000
    else if a - b >= 0x8000_0000_0000_0000 then 0x7FFF_FFFF_FFFF_FFFF
    else a - b
  }

  /** `abs` on i64, which overflows on the least value. */
  function Abs(a: I64): I64
    requires a != -0x8000_0000_0000_0000
  {
    if a < 0 then -a else a
  }

  /** `validate_timestamp`; that this is well-formed says the drift arithmetic never overflows. */
  predicate InDrift(wallSecs: nat, timestamp: I64) {
    wallSecs < 0x8000_0000_0000_0000 && Abs(SaturatingSub(wallSecs, timestamp)) <= MaxDriftSecs
  }

  /** The saturating arithmetic decides the drift exactly, for every i64 timestamp. */
  lemma DriftExact(wallSecs: nat, timestamp: I64)
    requires wallSecs < 0x8000_0000_0000_0000
    ensures InDrift(wallSecs, timestamp) <==> timestamp - MaxDriftSecs <= wallSecs <= timestamp + MaxDriftSecs
  {
  }

  /** `duration_since`, which is zero for a later instant. */
  function Elapsed(now: Instant, since: Instant): nat {
    if now >= since then now - since else 0
  }

  predicate Alive(s: Session, now: Instant) {
    Elapsed(now, s.createdAt) <= SessionTtl && Elapsed(now, s.lastUsedAt) <= IdleTtl
  }

  function WallSecs(epoch: nat, t: Instant): nat {
    (t + epoch) / Second
  }

  predicate SignedBy(key: Key, req: Request) {
    req.signature.Some?
    && Verifies(key, RequestInput(req.timestamp, req.verb, req.path, req.session, req.nonce, req.body), req.signature.value)
  }

  // ----- specification -----

  function LiveSessions(sessions: Sessions, now: Instant): Sessions {
    map id | id in sessions && Alive(sessions[id], now) :: sessions[id]
  }

  function FreshNonces(seen: map<Uuid, Instant>, now: Uuid -> Instant): map<Uuid, Instant> {
    map n | n in seen && Elapsed(now(n), seen[n]) <= NonceTtl :: seen[n]
  }

  function Verify(epoch: nat, sessions: Sessions, req: Request, t: Readings): (Result<(), ValidationError>, Sessions) {
    if !InDrift(WallSecs(epoch, t.wall), req.timestamp) then (Err(TimestampOutOfDrift), sessions)
    else if req.signature.None? then (Err(ValidationError.InvalidSignature), sessions)
    else
      var live := LiveSessions(sessions, t.session);
      if req.session !in live then (Err(MissingSigningSession), live)
      else
        var s := live[req.session];
        var seen := FreshNonces(s.seenNonces, t.nonces);
        var pruned := live[req.session := s.(seenNonces := seen)];
        if req.nonce in seen then (Err(ReplayNonce), pruned)
        else if !SignedBy(s.peerKey, req) then (Err(ValidationError.InvalidSignature), pruned)
        else (Ok(()), live[req.session := s.(seenNonces := seen[req.nonce := t.stamp], lastUsedAt := t.used)])
  }

  function Registered(sessions: Sessions, id: Uuid, key: Key, now: Instant): Sessions {
    sessions[id := Session(key, now, now, map[])]
  }

  function PeerKey(sessions: Sessions, id: Uuid, now: Instant): Option<Key> {
    if id in sessions && Alive(sessions[id], now) then Some(sessions[id].peerKey) else None
  }

  predicate HasKey(sessions: Sessions, key: Key, now: Instant) {
    exists id | id in sessions :: Alive(sessions[id], now) && sessions[id].peerKey == key
  }

  // ----- the service -----

  class RelaySigningService {
    var sessions: Sessions

    constructor ()
      ensures sessions == map[]
    {
      sessions := map[];
    }

    method RegisterSession(id: Uuid, peerKey: Key, now: Instant)
      modifies this
      ensures sessions == Registered(old(sessions), id, peerKey, now)
      ensures PeerKey(sessions, id, now) == Some(peerKey)
      ensures sessions - {id} == old(sessions) - {id}
    {
      sessions := sessions[id := Session(peerKey, now, now, map[])];
    }

    /** Prunes every expired session, and finds the one asked for among the rest. */
    method GetValidSession(id: Uuid, now: Instant) returns (r: Result<Session, ValidationError>)
      modifies this
      ensures sessions == LiveSessions(old(sessions), now)
      ensures r == if id in sessions then Ok(sessions[id]) else Err(MissingSigningSession)
    {
      sessions := map k | k in sessions && Alive(sessions[k], now) :: sessions[k];
      if id in sessions {
        return Ok(sessions[id]);
      }
      return Err(MissingSigningSession);
    }

    method VerifyRequest(epoch: nat, req: Request, t: Readings) returns (r: Result<(), ValidationError>)
      modifies this
      ensures (r, sessions) == Verify(epoch, old(sessions), req, t)
    {
      if !InDrift(WallSecs(epoch, t.wall), req.timestamp) {
        return Err(TimestampOutOfDrift);
      }
      if req.signature.None? {
        return Err(ValidationError.InvalidSignature);
      }
      var found := GetValidSession(req.session, t.session);
      if found.Err? {
        return Err(found.error);
      }
      var session := found.value;
      session := session.(seenNonces := FreshNonces(session.seenNonces, t.nonces));
      sessions := sessions[req.session := session];
      if req.nonce in session.seenNonces {
        return Err(ReplayNonce);
      }
      if !SignedBy(session.peerKey, req) {
        return Err(ValidationError.InvalidSignature);
      }
      session := session.(seenNonces := session.seenNonces[req.nonce := t.stamp]);
      session := session.(lastUsedAt := t.used);
      sessions := sessions[req.session := session];
      assert sessions == LiveSessions(old(sessions), t.session)[req.session := session];
      return Ok(());
    }

    method GetSessionPeerKey(id: Uuid, now: Instant) returns (r: Option<Key>)
      ensures r == PeerKey(sessions, id, now)
      ensures r.Some? <==> id in LiveSessions(sessions, now)
    {
      if id in sessions && Elapsed(now, sessions[id].createdAt) <= SessionTtl
         && Elapsed(now, sessions[id].lastUsedAt) <= IdleTtl {
        return Some(sessions[id].peerKey);
      }
      return None;
    }

    method HasActiveSessionWithKey(key: Key, now: Instant) returns (found: bool)
      ensures found == HasKey(sessions, key, now)
    {
      var rest := sessions.Keys;
      while rest != {}
        invariant rest <= sessions.Keys
        invariant forall id | id in sessions && id !in rest :: !(Alive(sessions[id], now) && sessions[id].peerKey == key)
        decreases |rest|
      {
        var id :| id in rest;
        if Alive(sessions[id], now) && sessions[id].peerKey == key {
          return true;
        }
        rest := rest - {id};
      }
      return false;
    }
  }

  // ----- runs -----

  /** One access to the table. A registration reads the clock at `now`, before it gets the lock at `at`. */
  datatype Event =
    | Register(id: Uuid, key: Key, now: Instant, at: Instant)
    | VerifyEvent(req: Request, t: Readings)
    | PeerKeyQuery(id: Uuid, now: Instant)
    | HasKeyQuery(key: Key, now: Instant)

  datatype Answer = Done | Verified(result: Result<(), ValidationError>) | FoundKey(key: Option<Key>) | Has(found: bool)

  function Apply(epoch: nat, sessions: Sessions, e: Event): (Answer, Sessions) {
    match e
    case Register(id, key, now, _) => (Done, Registered(sessions, id, key, now))
    case VerifyEvent(req, t) => var (r, s) := Verify(epoch, sessions, req, t); (Verified(r), s)
    case PeerKeyQuery(id, now) => (FoundKey(PeerKey(sessions, id, now)), sessions)
    case HasKeyQuery(key, now) => (Has(HasKey(sessions, key, now)), sessions)
  }

  /** The table after the first i events, and the answer to event i. */
  function Table(epoch: nat, events: seq<Event>, i: nat): Sessions
    requires i <= |events|
  {
    if i == 0 then map[] else Apply(epoch, Table(epoch, events, i - 1), events[i - 1]).1
  }

  function AnswerAt(epoch: nat, events: seq<Event>, i: nat): Answer
    requires i < |events|
  {
    Apply(epoch, Table(epoch, events, i), events[i]).0
  }

  predicate AcceptedAt(epoch: nat, events: seq<Event>, i: nat)
    requires i < |events|
  {
    AnswerAt(epoch, events, i) == Verified(Ok(()))
  }

  /** When an event takes the lock, and when it lets go. */
  function Start(e: Event): Instant {
    match e
    case Register(_, _, _, at) => at
    case VerifyEvent(_, t) => t.session
    case PeerKeyQuery(_, now) => now
    case HasKeyQuery(_, now) => now
  }

  function End(e: Event): Instant {
    if e.VerifyEvent? then e.t.used else Start(e)
  }

  /** The lock orders the events in time, and from a request's drift check to its nonce check at most `delay` passes. */
  ghost predicate Timed(events: seq<Event>, delay: nat) {
    && (forall i | 0 <= i < |events| :: Start(events[i]) <= End(events[i]))
    && (forall i, j | 0 <= i < j < |events| :: End(events[i]) <= Start(events[j]))
    && (forall i | 0 <= i < |events| && events[i].VerifyEvent? ::
          var t := events[i].t;
          t.wall <= t.session && InTurn(t) && forall n: Uuid :: t.nonces(n) <= t.wall + delay)
    && (forall i | 0 <= i < |events| && events[i].Register? :: events[i].now <= events[i].at)
  }

  ghost predicate OnceRegistered(events: seq<Event>) {
    forall i, j | 0 <= i < j < |events| && events[i].Register? && events[j].Register? :: events[i].id != events[j].id
  }

  predicate SameRequest(a: Request, b: Request) {
    a.session == b.session && a.nonce == b.nonce && a.timestamp == b.timestamp
  }

  ghost predicate ReplayFree(epoch: nat, events: seq<Event>) {
    forall i, j | 0 <= i < j < |events| && events[i].VerifyEvent? && events[j].VerifyEvent?
                  && SameRequest(events[i].req, events[j].req) ::
      !(AcceptedAt(epoch, events, i) && AcceptedAt(epoch, events, j))
  }

  /** 120 s of nonce retention, less the 60 s of drift and the fraction a whole-second clock hides. */
  const SafeDelay: nat := NonceTtl - (2 * MaxDriftSecs + 1) * Second + 1

  /** If a timestamp is in drift at two moments, they are less than 61 s apart. */
  lemma DriftWindow(epoch: nat, t: Instant, t': Instant, timestamp: I64)
    requires InDrift(WallSecs(epoch, t), timestamp) && InDrift(WallSecs(epoch, t'), timestamp)
    ensures t' < t + (2 * MaxDriftSecs + 1) * Second
  {
    DriftExact(WallSecs(epoch, t), timestamp);
    DriftExact(WallSecs(epoch, t'), timestamp);
  }

  lemma {:induction false} SessionWasRegistered(epoch: nat, events: seq<Event>, i: nat, id: Uuid) returns (k: nat)
    requires i <= |events| && id in Table(epoch, events, i)
    ensures k < i && events[k].Register? && events[k].id == id
    decreases i
  {
    if events[i - 1].Register? && events[i - 1].id == id {
      k := i - 1;
    } else {
      k := SessionWasRegistered(epoch, events, i - 1, id);
    }
  }

  /** What the table knows of a request accepted with this stamp: the session is gone, the nonce is there, or it is stale. */
  ghost predicate Remembers(sessions: Sessions, req: Request, stamp: Instant, now: Instant) {
    req.session in sessions ==>
      || (req.nonce in sessions[req.session].seenNonces && sessions[req.session].seenNonces[req.nonce] >= stamp)
      || stamp + NonceTtl < now
  }

  lemma RemembersStep(epoch: nat, sessions: Sessions, req: Request, stamp: Instant, e: Event, now: Instant)
    requires Remembers(sessions, req, stamp, now) && now <= Start(e) <= End(e) && stamp <= now
    requires e.Register? ==> e.id != req.session
    requires e.VerifyEvent? ==> InTurn(e.t)
    ensures Remembers(Apply(epoch, sessions, e).1, req, stamp, End(e))
  {
  }

  lemma AcceptedIsStored(epoch: nat, sessions: Sessions, req: Request, t: Readings)
    requires Verify(epoch, sessions, req, t).0.Ok?
    ensures var after := Verify(epoch, sessions, req, t).1;
            && req.session in sessions && req.session in after
            && req.nonce in after[req.session].seenNonces && after[req.session].seenNonces[req.nonce] == t.stamp
  {
  }

  lemma StampBefore(events: seq<Event>, delay: nat, i: nat, j: nat)
    requires Timed(events, delay) && i <= j < |events| && events[i].VerifyEvent?
    ensures events[i].t.stamp <= End(events[j])
  {
  }

  lemma NotRegisteredLater(epoch: nat, events: seq<Event>, i: nat, j: nat)
    requires OnceRegistered(events) && i <= j < |events| && events[i].VerifyEvent? && AcceptedAt(epoch, events, i)
    ensures !(events[j].Register? && events[j].id == events[i].req.session)
  {
    AcceptedIsStored(epoch, Table(epoch, events, i), events[i].req, events[i].t);
    var k := SessionWasRegistered(epoch, events, i, events[i].req.session);
  }

  /** What was accepted is remembered until it is too old to matter. */
  lemma RemembersAccepted(epoch: nat, events: seq<Event>, delay: nat, i: nat, j: nat)
    requires Timed(events, delay) && OnceRegistered(events) && i < j <= |events|
    requires events[i].VerifyEvent? && AcceptedAt(epoch, events, i)
    ensures Remembers(Table(epoch, events, j), events[i].req, events[i].t.stamp, End(events[j - 1]))
  {
    RemembersFirst(epoch, events, i);
    forall k | i < k < |events| ensures !(events[k].Register? && events[k].id == events[i].req.session) {
      NotRegisteredLater(epoch, events, i, k);
    }
    StampBefore(events, delay, i, i);
    RemembersOn(epoch, events, delay, events[i].req, events[i].t.stamp, i, j);
  }

  /** What is remembered at one moment is remembered later, if the session is not registered again. */
  lemma {:induction false} RemembersOn(epoch: nat, events: seq<Event>, delay: nat, req: Request, stamp: Instant, i: nat, j: nat)
    requires Timed(events, delay) && i < j <= |events| && stamp <= End(events[i])
    requires forall k | i < k < |events| :: !(events[k].Register? && events[k].id == req.session)
    requires Remembers(Table(epoch, events, i + 1), req, stamp, End(events[i]))
    ensures Remembers(Table(epoch, events, j), req, stamp, End(events[j - 1])) && stamp <= End(events[j - 1])
    decreases j
  {
    if j > i + 1 {
      RemembersOn(epoch, events, delay, req, stamp, i, j - 1);
      RemembersNext(epoch, events, delay, req, stamp, j - 1);
    }
  }

  lemma RemembersFirst(epoch: nat, events: seq<Event>, i: nat)
    requires i < |events| && events[i].VerifyEvent? && AcceptedAt(epoch, events, i)
    ensures Remembers(Table(epoch, events, i + 1), events[i].req, events[i].t.stamp, End(events[i]))
  {
    AcceptedIsStored(epoch, Table(epoch, events, i), events[i].req, events[i].t);
  }

  lemma RemembersNext(epoch: nat, events: seq<Event>, delay: nat, req: Request, stamp: Instant, j: nat)
    requires Timed(events, delay) && 0 < j < |events| && stamp <= End(events[j - 1])
    requires Remembers(Table(epoch, events, j), req, stamp, End(events[j - 1]))
    requires !(events[j].Register? && events[j].id == req.session)
    ensures Remembers(Table(epoch, events, j + 1), req, stamp, End(events[j]))
  {
    RemembersStep(epoch, Table(epoch, events, j), req, stamp, events[j], End(events[j - 1]));
  }

  /** While the nonce is remembered and not too old, the request is not accepted again. */
  lemma RememberedIsRefused(epoch: nat, sessions: Sessions, req: Request, stamp: Instant, now: Instant, t: Readings)
    requires Remembers(sessions, req, stamp, now) && now <= t.session && InTurn(t)
    requires t.nonces(req.nonce) <= stamp + NonceTtl
    ensures Verify(epoch, sessions, req, t).0 != Ok(())
  {
  }

  lemma StampIsRecent(epoch: nat, events: seq<Event>, delay: nat, i: nat, j: nat)
    requires Timed(events, delay) && delay <= SafeDelay && i < |events| && j < |events|
    requires events[i].VerifyEvent? && events[j].VerifyEvent? && events[i].req.timestamp == events[j].req.timestamp
    requires InDrift(WallSecs(epoch, events[i].t.wall), events[i].req.timestamp)
    requires InDrift(WallSecs(epoch, events[j].t.wall), events[j].req.timestamp)
    ensures forall n: Uuid :: events[j].t.nonces(n) <= events[i].t.stamp + NonceTtl
  {
    DriftWindow(epoch, events[i].t.wall, events[j].t.wall, events[i].req.timestamp);
  }

  /**
   * No request is accepted twice, in any run on once-registered sessions, even
   * though sessions and nonces are forgotten, as long as no request waits longer
   * than `SafeDelay` (59 s and 1 ns) between its two checks.
   */
  lemma NoReplay(epoch: nat, events: seq<Event>, delay: nat)
    requires Timed(events, delay) && OnceRegistered(events) && delay <= SafeDelay
    ensures ReplayFree(epoch, events)
  {
    forall i, j | 0 <= i < j < |events| && events[i].VerifyEvent? && events[j].VerifyEvent?
                  && SameRequest(events[i].req, events[j].req)
      ensures !(AcceptedAt(epoch, events, i) && AcceptedAt(epoch, events, j))
    {
      if AcceptedAt(epoch, events, i) && AcceptedAt(epoch, events, j) {
        StampIsRecent(epoch, events, delay, i, j);
        RemembersAccepted(epoch, events, delay, i, j);
        RememberedIsRefused(epoch, Table(epoch, events, j), events[j].req, events[i].t.stamp, End(events[j - 1]), events[j].t);
        assert false;
      }
    }
  }

  /** A run that replays: the request waits just over `SafeDelay` before its second nonce check. */
  function ReplayRun(req: Request, key: Key): seq<Event> {
    var late := 61 * Second - 1;
    var waited := late + SafeDelay + 1;
    [Register(req.session, key, 0, 0),
     VerifyEvent(req, Readings(0, 0, n => 0, 0, 0)),
     VerifyEvent(req, Readings(late, waited, n => waited, waited, waited))]
  }

  lemma ReplayRunReplays(req: Request, key: Key)
    requires req.timestamp == MaxDriftSecs && SignedBy(key, req)
    ensures AcceptedAt(0, ReplayRun(req, key), 1) && AcceptedAt(0, ReplayRun(req, key), 2)
  {
    var events := ReplayRun(req, key);
    var t1 := Table(0, events, 1);
    assert Table(0, events, 0) == map[];
    assert t1 == map[req.session := Session(key, 0, 0, map[])];
    assert LiveSessions(t1, 0) == t1;
    var t2 := Table(0, events, 2);
    assert t2 == map[req.session := Session(key, 0, 0, map[req.nonce := 0])];
    var late := events[2].t.session;
    assert LiveSessions(t2, late) == t2;
    assert FreshNonces(map[req.nonce := 0], events[2].t.nonces) == map[];
  }

  lemma ReplayRunIsTimed(req: Request, key: Key, delay: nat)
    requires delay > SafeDelay
    ensures Timed(ReplayRun(req, key), delay) && OnceRegistered(ReplayRun(req, key))
  {
  }

  /** The bound is exact: replay freedom over all runs holds for delays up to `SafeDelay` and for no longer ones. */
  lemma ReplayFreeIff(delay: nat)
    ensures (forall epoch: nat, events | Timed(events, delay) && OnceRegistered(events) :: ReplayFree(epoch, events))
            <==> delay <= SafeDelay
  {
    if delay <= SafeDelay {
      forall epoch: nat, events | Timed(events, delay) && OnceRegistered(events) ensures ReplayFree(epoch, events) {
        NoReplay(epoch, events, delay);
      }
    } else {
      var req := Request(NilUuid, MaxDriftSecs, NilUuid,
                         Some(Signed(0, RequestInput(MaxDriftSecs, "GET", "/", NilUuid, NilUuid, []))), "GET", "/", []);
      var events := ReplayRun(req, 0);
      ReplayRunReplays(req, 0);
      ReplayRunIsTimed(req, 0, delay);
      assert SameRequest(events[1].req, events[2].req);
      assert !ReplayFree(0, events);
    }
  }
}
