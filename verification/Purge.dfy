/**
 The periodic purge of the SQL identity store. Each request is one step here. A
 run that purges whenever it likes has at every moment the store of the same
 run without purges, purged once at the time of the latest purge; only a
 revocation can tell the two apart.
 */
module Purge {

  import opened Wrappers
  import opened Sessions
  import opened Sets

  datatype Challenge = Challenge(expiresAt: Time, attempts: nat, consumed: bool)

  datatype Store = Store(
    sessions: map<SessionId, Session>,
    keys: map<KeyId, ApiKey>,
    active: set<AccountId>,
    challenges: map<nat, Challenge>)

  datatype Request =
    | CreateSession(id: SessionId, account: AccountId, digest: string, mintedFrom: Option<KeyId>)
    | Authenticate(account: AccountId, id: SessionId, kind: Kind, digest: string)
    | RevokeOne(account: AccountId, id: SessionId)
    | RevokeAll(account: AccountId)
    | PutKey(key: KeyId, row: ApiKey)
    | RevokeKeyAndSessions(account: AccountId, key: KeyId)
    | ListLive(account: AccountId)             // the account page, and the sessions a recycle may delete
    | Recycle(ids: set<SessionId>)
    | SetActive(account: AccountId, on: bool)
    | PutChallenge(challenge: nat, lifetime: nat)
    | Consume(challenge: nat, maxAttempts: nat)
    | Fail(challenge: nat, maxAttempts: nat)   // a wrong code
    | Purge

  datatype Timed = Timed(now: Time, request: Request)

  datatype Reply =
    | Done
    | Refused
    | Granted(session: Session)
    | Live(sessions: map<SessionId, Session>)
    | Changed(row: bool)                       // whether a row was revoked; the API answers 404 otherwise
    | Count(rows: nat)                         // how many rows were revoked, printed by the API

  /** `absolute_expires_at < now OR expires_at < now - 30 days OR revoked_at < now - 30 days`. */
  predicate Purgeable(s: Session, now: Time) {
    || s.absoluteExpiresAt < now
    || s.expiresAt < now - 30 * DAY
    || (s.revokedAt.Some? && s.revokedAt.value < now - 30 * DAY)
  }

  predicate PurgeableChallenge(c: Challenge, now: Time) { c.expiresAt < now - DAY }

  predicate IsLive(s: Session, account: AccountId, now: Time) {
    s.account == account && s.revokedAt.None? && s.expiresAt > now && s.absoluteExpiresAt > now
  }

  function LiveSessions(sessions: map<SessionId, Session>, account: AccountId, now: Time): map<SessionId, Session> {
    map id | id in sessions && IsLive(sessions[id], account, now) :: sessions[id]
  }

  /** An authentication as one step: all its checks, then the touch when one is due. */
  function Authenticated(db: Store, r: Request, now: Time): (Store, Reply)
    requires r.Authenticate?
  {
    if r.id !in db.sessions then (db, Refused) else
    var s := db.sessions[r.id];
    if s.account != r.account || !Accepts(s, r.kind, r.digest, now) || s.account !in db.active then (db, Refused)
    else if s.keyId.Some? && (s.keyId.value !in db.keys || !KeyAccepts(db.keys[s.keyId.value], s.account, now)) then (db, Refused)
    else if now - s.lastSeenAt >= SESSION_TOUCH_INTERVAL then
      var touched := s.(lastSeenAt := now, expiresAt := TouchedExpiry(s, now));
      (db.(sessions := db.sessions[r.id := touched]), Granted(touched))
    else (db, Granted(s))
  }

  /** The rows `UPDATE ... WHERE ... AND revoked_at IS NULL` changes, for one ID or one account. */
  function Unrevoked(sessions: map<SessionId, Session>, account: AccountId): set<SessionId> {
    set id | id in sessions && sessions[id].account == account && sessions[id].revokedAt.None?
  }

  predicate Tryable(c: Challenge, now: Time, maxAttempts: nat) {
    !c.consumed && c.expiresAt > now && c.attempts < maxAttempts
  }

  function WithSessions(db: Store, sessions: map<SessionId, Session>): Store { db.(sessions := sessions) }

  function Handle(db: Store, t: Timed, purging: bool): (Store, Reply) {
    match t.request
    case CreateSession(id, account, digest, mintedFrom) =>
      (WithSessions(db, db.sessions[id := NewSession(account, digest, mintedFrom, t.now)]), Done)
    case Authenticate(_, _, _, _) => Authenticated(db, t.request, t.now)
    case RevokeOne(account, id) =>
      var rows := Unrevoked(db.sessions, account) * {id};
      (WithSessions(db, Revoke(db.sessions, rows, t.now)), Changed(id in rows))
    case RevokeAll(account) =>
      var rows := Unrevoked(db.sessions, account);
      (WithSessions(db, Revoke(db.sessions, rows, t.now)), Count(|rows|))
    case PutKey(key, row) => (db.(keys := db.keys[key := row]), Done)
    case RevokeKeyAndSessions(account, key) =>
      if key in db.keys && db.keys[key].account == account && db.keys[key].revokedAt.None? then
        (db.(keys := db.keys[key := db.keys[key].(revokedAt := Some(t.now))],
             sessions := Revoke(db.sessions, OfKey(db.sessions, account, key), t.now)), Done)
      else (db, Refused)
    case ListLive(account) => (db, Live(LiveSessions(db.sessions, account, t.now)))
    case Recycle(ids) => (WithSessions(db, db.sessions - ids), Done)
    case SetActive(account, on) => (db.(active := if on then db.active + {account} else db.active - {account}), Done)
    case PutChallenge(challenge, lifetime) =>
      (db.(challenges := db.challenges[challenge := Challenge(t.now + lifetime, 0, false)]), Done)
    case Consume(challenge, maxAttempts) =>
      if challenge in db.challenges && Tryable(db.challenges[challenge], t.now, maxAttempts)
      then (db.(challenges := db.challenges[challenge := db.challenges[challenge].(consumed := true)]), Done)
      else (db, Refused)
    case Fail(challenge, maxAttempts) =>
      if challenge in db.challenges && Tryable(db.challenges[challenge], t.now, maxAttempts)
      then (db.(challenges := db.challenges[challenge := db.challenges[challenge].(attempts := db.challenges[challenge].attempts + 1)]),
            Done)
      else (db, Refused)
    case Purge => (if purging then Purged(db, t.now) else db, Done)
  }

  function PurgedSessions(sessions: map<SessionId, Session>, now: Time): map<SessionId, Session> {
    map id | id in sessions && !Purgeable(sessions[id], now) :: sessions[id]
  }

  function PurgedChallenges(challenges: map<nat, Challenge>, now: Time): map<nat, Challenge> {
    map c | c in challenges && !PurgeableChallenge(challenges[c], now) :: challenges[c]
  }

  function Purged(db: Store, now: Time): Store {
    db.(sessions := PurgedSessions(db.sessions, now), challenges := PurgedChallenges(db.challenges, now))
  }

  // ---- Requests on a purged store ----

  /** The unrevoked sessions of an account that a purge at `last` removed. */
  function Lost(sessions: map<SessionId, Session>, account: AccountId, last: Time): set<SessionId> {
    set id | id in Unrevoked(sessions, account) && Purgeable(sessions[id], last)
  }

  /** The requests whose answer shows that a purge at `last` removed an ended but unrevoked session. */
  predicate SeesPurge(db: Store, last: Time, r: Request) {
    match r
    case RevokeOne(account, id) => id in Lost(db.sessions, account, last)
    case RevokeAll(account) => Lost(db.sessions, account, last) != {}
    case _ => false
  }

  /** What a request does to a store that was purged at `last`, said of the unpurged store. */
  ghost predicate Commutes(db: Store, last: Time, t: Timed) {
    && Handle(Purged(db, last), t, true).0
       == (if t.request.Purge? then Purged(db, t.now) else Purged(Handle(db, t, false).0, last))
    && (Handle(Purged(db, last), t, true).1 == Handle(db, t, false).1 <==> !SeesPurge(db, last, t.request))
  }

  lemma AuthenticateCommutes(db: Store, last: Time, t: Timed)
    requires last <= t.now && t.request.Authenticate?
    ensures Commutes(db, last, t)
  {
    var r := t.request;
    if r.id in db.sessions && !Purgeable(db.sessions[r.id], last) {
      var touched := db.sessions[r.id].(lastSeenAt := t.now, expiresAt := TouchedExpiry(db.sessions[r.id], t.now));
      assert PurgedSessions(db.sessions, last)[r.id] == db.sessions[r.id];
      if Authenticated(db, r, t.now).1 == Granted(touched) {
        assert PurgedSessions(db.sessions[r.id := touched], last) == PurgedSessions(db.sessions, last)[r.id := touched];
      }
    }
  }

  /** Revoking at `now` makes no session purgeable at an earlier purge. */
  lemma RevokeCommutes(sessions: map<SessionId, Session>, ids: set<SessionId>, kept: set<SessionId>, last: Time, now: Time)
    requires last <= now && forall id <- PurgedSessions(sessions, last) :: id in ids <==> id in kept
    ensures Revoke(PurgedSessions(sessions, last), kept, now) == PurgedSessions(Revoke(sessions, ids, now), last)
  {}

  lemma StrictSubset<T>(a: set<T>, b: set<T>)
    requires a <= b
    ensures |a| == |b| <==> a == b
  {
    if b - a == {} {
      assert a == b;
    } else {
      var x :| x in b - a;
      SubsetBound(a, b - {x});
    }
  }

  lemma LostIsTheDifference(sessions: map<SessionId, Session>, account: AccountId, last: Time)
    ensures Unrevoked(PurgedSessions(sessions, last), account) == Unrevoked(sessions, account) - Lost(sessions, account, last)
  {}

  lemma RevocationCommutes(db: Store, last: Time, t: Timed)
    requires last <= t.now && (t.request.RevokeOne? || t.request.RevokeAll?)
    ensures Commutes(db, last, t)
  {
    var account := t.request.account;
    var all, kept := Unrevoked(db.sessions, account), Unrevoked(PurgedSessions(db.sessions, last), account);
    LostIsTheDifference(db.sessions, account, last);
    if t.request.RevokeOne? {
      RevokeCommutes(db.sessions, all * {t.request.id}, kept * {t.request.id}, last, t.now);
    } else {
      RevokeCommutes(db.sessions, all, kept, last, t.now);
      StrictSubset(kept, all);
    }
  }

  lemma KeyRevocationCommutes(db: Store, last: Time, t: Timed)
    requires last <= t.now && t.request.RevokeKeyAndSessions?
    ensures Commutes(db, last, t)
  {
    var account, key := t.request.account, t.request.key;
    RevokeCommutes(db.sessions, OfKey(db.sessions, account, key),
                   OfKey(PurgedSessions(db.sessions, last), account, key), last, t.now);
  }

  /** The store changes in the same way, and the answer is the same. */
  lemma SessionsCommute(db: Store, last: Time, t: Timed)
    requires last <= t.now && (t.request.CreateSession? || t.request.Recycle? || t.request.ListLive?)
    ensures Commutes(db, last, t)
  {
    match t.request
    case CreateSession(id, account, digest, mintedFrom) =>
      var row := NewSession(account, digest, mintedFrom, t.now);
      assert PurgedSessions(db.sessions[id := row], last) == PurgedSessions(db.sessions, last)[id := row];
    case Recycle(ids) => assert PurgedSessions(db.sessions - ids, last) == PurgedSessions(db.sessions, last) - ids;
    case ListLive(account) =>
      assert LiveSessions(PurgedSessions(db.sessions, last), account, t.now) == LiveSessions(db.sessions, account, t.now);
  }

  lemma StoringCommutes(challenges: map<nat, Challenge>, c: nat, row: Challenge, last: Time)
    requires !PurgeableChallenge(row, last)
    ensures PurgedChallenges(challenges[c := row], last) == PurgedChallenges(challenges, last)[c := row]
  {}

  lemma ChallengesCommute(db: Store, last: Time, t: Timed)
    requires last <= t.now && (t.request.Consume? || t.request.Fail?)
    ensures Commutes(db, last, t)
  {
    var c := t.request.challenge;
    if c in db.challenges && !PurgeableChallenge(db.challenges[c], last) {
      var row := db.challenges[c];
      StoringCommutes(db.challenges, c, if t.request.Consume? then row.(consumed := true) else row.(attempts := row.attempts + 1), last);
    }
  }

  /** A later purge removes all that an earlier one did. */
  lemma PurgesCompose(db: Store, last: Time, now: Time)
    requires last <= now
    ensures Purged(Purged(db, last), now) == Purged(db, now)
  {
    assert PurgedSessions(PurgedSessions(db.sessions, last), now) == PurgedSessions(db.sessions, now);
    assert PurgedChallenges(PurgedChallenges(db.challenges, last), now) == PurgedChallenges(db.challenges, now);
  }

  lemma RequestCommutes(db: Store, last: Time, t: Timed)
    requires last <= t.now
    ensures Commutes(db, last, t)
  {
    match t.request
    case Authenticate(_, _, _, _) => AuthenticateCommutes(db, last, t);
    case RevokeOne(_, _) => RevocationCommutes(db, last, t);
    case RevokeAll(_) => RevocationCommutes(db, last, t);
    case RevokeKeyAndSessions(_, _) => KeyRevocationCommutes(db, last, t);
    case PutChallenge(c, lifetime) => StoringCommutes(db.challenges, c, Challenge(t.now + lifetime, 0, false), last);
    case Consume(_, _) => ChallengesCommute(db, last, t);
    case Fail(_, _) => ChallengesCommute(db, last, t);
    case Purge => PurgesCompose(db, last, t.now);
    case PutKey(_, _) =>
    case SetActive(_, _) =>
    case _ => SessionsCommute(db, last, t);
  }

  // ---- Whole runs ----

  function Serve(db: Store, ts: seq<Timed>, purging: bool): (Store, seq<Reply>) {
    if ts == [] then (db, []) else
    var (before, replies) := Serve(db, ts[..|ts| - 1], purging);
    var (after, reply) := Handle(before, ts[|ts| - 1], purging);
    (after, replies + [reply])
  }

  ghost predicate Ordered(ts: seq<Timed>) { forall i, j :: 0 <= i <= j < |ts| ==> ts[i].now <= ts[j].now }

  /** The time of the latest purge. */
  function LastPurge(ts: seq<Timed>): Option<Time> {
    if ts == [] then None
    else if ts[|ts| - 1].request.Purge? then Some(ts[|ts| - 1].now)
    else LastPurge(ts[..|ts| - 1])
  }

  function PurgedAt(db: Store, last: Option<Time>): Store { if last.None? then db else Purged(db, last.value) }

  predicate TellsApart(db: Store, last: Option<Time>, r: Request) { last.Some? && SeesPurge(db, last.value, r) }

  lemma {:induction false} LastPurgeIsEarlier(ts: seq<Timed>, now: Time)
    requires forall t <- ts :: t.now <= now
    ensures LastPurge(ts).Some? ==> LastPurge(ts).value <= now
  {
    if ts != [] && !ts[|ts| - 1].request.Purge? {
      LastPurgeIsEarlier(ts[..|ts| - 1], now);
    }
  }

  /** One more request, after any number of purges or none. */
  lemma StepIsPurged(db: Store, last: Option<Time>, t: Timed)
    requires last.Some? ==> last.value <= t.now
    ensures var last' := if t.request.Purge? then Some(t.now) else last;
      Handle(PurgedAt(db, last), t, true).0 == PurgedAt(Handle(db, t, false).0, last')
    ensures Handle(PurgedAt(db, last), t, true).1 == Handle(db, t, false).1 <==> !TellsApart(db, last, t.request)
  {
    if last.Some? { RequestCommutes(db, last.value, t); }
  }

  lemma ServePush(db: Store, ts: seq<Timed>, t: Timed, purging: bool)
    ensures var (before, replies) := Serve(db, ts, purging);
      Serve(db, ts + [t], purging) == (Handle(before, t, purging).0, replies + [Handle(before, t, purging).1])
  {
    assert (ts + [t])[..|ts|] == ts;
  }

  /**
   However often it purged, the store is that of the same run without purges,
   purged once at the time of the latest purge.
   */
  lemma {:induction false} PurgedOnce(db: Store, ts: seq<Timed>)
    requires Ordered(ts)
    ensures Serve(db, ts, true).0 == PurgedAt(Serve(db, ts, false).0, LastPurge(ts))
  {
    if ts != [] {
      var before, t := ts[..|ts| - 1], ts[|ts| - 1];
      PurgedOnce(db, before);
      LastPurgeIsEarlier(before, t.now);
      StepIsPurged(Serve(db, before, false).0, LastPurge(before), t);
    }
  }

  lemma {:induction false} ReplyOf(db: Store, ts: seq<Timed>, purging: bool, n: nat)
    requires n < |ts|
    ensures |Serve(db, ts, purging).1| == |ts|
    ensures Serve(db, ts, purging).1[n] == Handle(Serve(db, ts[..n], purging).0, ts[n], purging).1
    decreases |ts|
  {
    var before := ts[..|ts| - 1];
    if n < |before| {
      assert before[..n] == ts[..n];
      ReplyOf(db, before, purging, n);
    } else if n > 0 {
      ReplyOf(db, before, purging, n - 1);
    }
  }

  /**
   A purging run answers request `n` as the same run without purges, unless it is
   a revocation of sessions and one of them, unrevoked, had ended long enough
   before the latest purge to be removed by it: then, and only then, the answer
   differs.
   */
  lemma RepliesDifferExactly(db: Store, ts: seq<Timed>, n: nat)
    requires Ordered(ts) && n < |ts|
    ensures |Serve(db, ts, true).1| == |Serve(db, ts, false).1| == |ts|
    ensures Serve(db, ts, true).1[n] == Serve(db, ts, false).1[n]
       <==> !TellsApart(Serve(db, ts[..n], false).0, LastPurge(ts[..n]), ts[n].request)
  {
    ReplyOf(db, ts, true, n);
    ReplyOf(db, ts, false, n);
    PurgedOnce(db, ts[..n]);
    LastPurgeIsEarlier(ts[..n], ts[n].now);
    StepIsPurged(Serve(db, ts[..n], false).0, LastPurge(ts[..n]), ts[n]);
  }

  predicate IsRevocation(r: Request) { r.RevokeOne? || r.RevokeAll? }

  /** Nothing that could later be accepted is removed: without revocations of sessions every reply is the same. */
  lemma PurgingChangesNoReply(db: Store, ts: seq<Timed>)
    requires Ordered(ts) && forall t <- ts :: !IsRevocation(t.request)
    ensures Serve(db, ts, true).1 == Serve(db, ts, false).1
  {
    if ts != [] {
      RepliesDifferExactly(db, ts, 0);
      forall n | 0 <= n < |ts| ensures Serve(db, ts, true).1[n] == Serve(db, ts, false).1[n] {
        RepliesDifferExactly(db, ts, n);
        assert ts[n] in ts;
      }
    }
  }

  lemma ServeThree(db: Store, a: Timed, b: Timed, c: Timed, purging: bool)
    ensures var (one, r) := Handle(db, a, purging);
      var (two, r') := Handle(one, b, purging);
      Serve(db, [a, b, c], purging).1 == [r, r', Handle(two, c, purging).1]
  {
    ServePush(db, [], a, purging);
    ServePush(db, [a], b, purging);
    ServePush(db, [a, b], c, purging);
    assert [] + [a] == [a] && [a] + [b] == [a, b] && [a, b] + [c] == [a, b, c];
  }

  /** A session that ended 31 days ago, unrevoked: revoking it succeeds without a purge, and finds no session after one. */
  lemma RevocationSeesPurge(id: SessionId, account: AccountId)
    ensures var ts := [Timed(0, Request.CreateSession(id, account, "", None)), Timed(61 * DAY, Purge),
                       Timed(61 * DAY, RevokeOne(account, id))];
      var db := Store(map[], map[], {}, map[]);
      && Ordered(ts)
      && Serve(db, ts, false).1 == [Done, Done, Changed(true)]
      && Serve(db, ts, true).1 == [Done, Done, Changed(false)]
  {
    var first, second := Timed(0, Request.CreateSession(id, account, "", None)), Timed(61 * DAY, Purge);
    var third := Timed(61 * DAY, RevokeOne(account, id));
    var ts := [first, second, third];
    var db := Store(map[], map[], {}, map[]);
    ServeThree(db, first, second, third, true);
    ServeThree(db, first, second, third, false);
    var row := NewSession(account, "", None, 0);
    var stored := WithSessions(db, map[id := row]);
    assert Handle(db, first, true) == Handle(db, first, false) == (stored, Done);
    assert Purgeable(row, 61 * DAY);
    assert Handle(stored, second, true).0.sessions == map[];
    assert id in Unrevoked(stored.sessions, account);
  }

  // ---- What is left ----

  ghost predicate AllWithinLifetime(db: Store) { forall id <- db.sessions :: LifetimeOk(db.sessions[id]) }

  lemma RevokeKeepsLifetimes(sessions: map<SessionId, Session>, ids: set<SessionId>, now: Time)
    requires forall id <- sessions :: LifetimeOk(sessions[id])
    ensures forall id <- Revoke(sessions, ids, now) :: LifetimeOk(Revoke(sessions, ids, now)[id])
  {}

  lemma OthersKeepLifetimes(db: Store, t: Timed, purging: bool)
    requires AllWithinLifetime(db)
    requires !IsRevocation(t.request) && !t.request.RevokeKeyAndSessions? && !t.request.Authenticate?
    ensures AllWithinLifetime(Handle(db, t, purging).0)
  {}

  lemma HandleKeepsLifetimes(db: Store, t: Timed, purging: bool)
    requires AllWithinLifetime(db)
    ensures AllWithinLifetime(Handle(db, t, purging).0)
  {
    match t.request
    case RevokeOne(account, id) => RevokeKeepsLifetimes(db.sessions, Unrevoked(db.sessions, account) * {id}, t.now);
    case RevokeAll(account) => RevokeKeepsLifetimes(db.sessions, Unrevoked(db.sessions, account), t.now);
    case RevokeKeyAndSessions(account, key) => RevokeKeepsLifetimes(db.sessions, OfKey(db.sessions, account, key), t.now);
    case Authenticate(_, _, _, _) =>
    case _ => OthersKeepLifetimes(db, t, purging);
  }

  lemma {:induction false} ServeKeepsLifetimes(db: Store, ts: seq<Timed>, purging: bool)
    requires AllWithinLifetime(db)
    ensures AllWithinLifetime(Serve(db, ts, purging).0)
  {
    if ts != [] {
      ServeKeepsLifetimes(db, ts[..|ts| - 1], purging);
      HandleKeepsLifetimes(Serve(db, ts[..|ts| - 1], purging).0, ts[|ts| - 1], purging);
    }
  }

  /** In every run no session outlives a purge by 90 days of age, nor by 30 days after it ended or was revoked. */
  lemma OldSessionsAreGone(db: Store, ts: seq<Timed>, id: SessionId)
    requires Ordered(ts) && AllWithinLifetime(db) && LastPurge(ts).Some?
    requires id in Serve(db, ts, true).0.sessions
    ensures var s, purge := Serve(db, ts, true).0.sessions[id], LastPurge(ts).value;
      && purge <= s.createdAt + SESSION_ABSOLUTE_LIFETIME
      && purge <= s.expiresAt + 30 * DAY
      && (s.revokedAt.Some? ==> purge <= s.revokedAt.value + 30 * DAY)
  {
    PurgedOnce(db, ts);
    ServeKeepsLifetimes(db, ts, true);
  }

  /**
   What a purging run stores is exactly what the run without purges stores, less
   the sessions that at the latest purge were past their absolute end, or had ended
   or been revoked more than 30 days before, and the challenges a day past their end.
   */
  lemma StoredExactly(db: Store, ts: seq<Timed>, last: Time)
    requires Ordered(ts) && LastPurge(ts) == Some(last)
    ensures var all, kept := Serve(db, ts, false).0, Serve(db, ts, true).0;
      && kept.keys == all.keys && kept.active == all.active
      && (forall id :: id in kept.sessions <==>
            && id in all.sessions && last <= all.sessions[id].absoluteExpiresAt
            && last <= all.sessions[id].expiresAt + 30 * 86_400
            && (all.sessions[id].revokedAt.Some? ==> last <= all.sessions[id].revokedAt.value + 30 * 86_400))
      && (forall id <- kept.sessions :: kept.sessions[id] == all.sessions[id])
      && (forall c :: c in kept.challenges <==> c in all.challenges && last <= all.challenges[c].expiresAt + 86_400)
      && (forall c <- kept.challenges :: kept.challenges[c] == all.challenges[c])
  {
    PurgedOnce(db, ts);
  }

  // ---- Revocations hold ----

  predicate GoneOrRevoked(db: Store, id: SessionId) { id in db.sessions ==> db.sessions[id].revokedAt.Some? }

  lemma RevokedStaysRevoked(db: Store, t: Timed, purging: bool, id: SessionId)
    requires GoneOrRevoked(db, id) && !(t.request.CreateSession? && t.request.id == id)
    ensures GoneOrRevoked(Handle(db, t, purging).0, id)
    ensures t.request.Authenticate? && t.request.id == id ==> Handle(db, t, purging).1 == Refused
  {}

  lemma {:induction false} StaysRevoked(db: Store, ts: seq<Timed>, purging: bool, n: nat, id: SessionId)
    requires n <= |ts| && GoneOrRevoked(Serve(db, ts[..n], purging).0, id)
    requires forall k :: n <= k < |ts| ==> !(ts[k].request.CreateSession? && ts[k].request.id == id)
    ensures GoneOrRevoked(Serve(db, ts, purging).0, id)
    decreases |ts|
  {
    if n == |ts| {
      assert ts[..n] == ts;
    } else {
      var before := ts[..|ts| - 1];
      assert before[..n] == ts[..n];
      StaysRevoked(db, before, purging, n, id);
      RevokedStaysRevoked(Serve(db, before, purging).0, ts[|ts| - 1], purging, id);
    }
  }

  /** The request revokes the session, as its row says before: by ID, with all of its account, or with its key. */
  predicate Revokes(db: Store, r: Request, id: SessionId) {
    && id in db.sessions
    && var s := db.sessions[id];
    match r
    case RevokeOne(account, one) => one == id && s.account == account
    case RevokeAll(account) => s.account == account
    case RevokeKeyAndSessions(account, key) =>
      && s.account == account && s.keyId == Some(key)
      && key in db.keys && db.keys[key].account == account && db.keys[key].revokedAt.None?
    case _ => false
  }

  lemma RevocationIsStored(db: Store, t: Timed, purging: bool, id: SessionId)
    requires Revokes(db, t.request, id)
    ensures id in Handle(db, t, purging).0.sessions && Handle(db, t, purging).0.sessions[id].revokedAt.Some?
  {}

  /** After a revocation of a session no later authentication of it is granted, with purges or without. */
  lemma RevokedIsRefused(db: Store, ts: seq<Timed>, purging: bool, n: nat, m: nat, id: SessionId)
    requires n < m < |ts| && Revokes(Serve(db, ts[..n], purging).0, ts[n].request, id)
    requires forall k :: n < k < m ==> !(ts[k].request.CreateSession? && ts[k].request.id == id)
    requires ts[m].request.Authenticate? && ts[m].request.id == id
    ensures |Serve(db, ts, purging).1| == |ts| && Serve(db, ts, purging).1[m] == Refused
  {
    RevocationIsStored(Serve(db, ts[..n], purging).0, ts[n], purging, id);
    assert ts[..m][..n + 1] == ts[..n + 1] && ts[..n + 1][..n] == ts[..n];
    StaysRevoked(db, ts[..m], purging, n + 1, id);
    RevokedStaysRevoked(Serve(db, ts[..m], purging).0, ts[m], purging, id);
    ReplyOf(db, ts, purging, m);
  }
}
