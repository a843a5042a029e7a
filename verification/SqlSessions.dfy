/**
 The SQL store and the calls of `Sessions`. A request that the store serves in one
 transaction does what the interleaved requests of `Sessions` do when nothing
 interrupts them, and it answers what it did.
 */
module SqlSessions {

  import opened Wrappers
  import opened Sessions
  import opened Purge

  /** The rows that both modules model, with no call under way. */
  function AsTable(db: Store): Table { Sessions.NEW.(sessions := db.sessions, keys := db.keys, active := db.active) }

  predicate Agree(db: Store, t: Table) { db.sessions == t.sessions && db.keys == t.keys && db.active == t.active }

  /** An authentication is granted exactly when every check holds, and stores what the four requests of the call store. */
  lemma AuthenticationAgrees(db: Store, t: Timed, purging: bool, p: Proc)
    requires t.request.Authenticate?
    ensures var r, (after, reply) := t.request, Handle(db, t, purging);
      && Agree(after, Sessions.Authenticated(AsTable(db), p, r.account, r.id, r.kind, r.digest, t.now))
      && after.challenges == db.challenges
      && if IsValid(AsTable(db), r.account, r.id, r.kind, r.digest, t.now)
         then r.id in after.sessions && reply == Granted(after.sessions[r.id]) else reply == Refused
  {
    var r := t.request;
    UndisturbedAuthentication(AsTable(db), p, r.account, r.id, r.kind, r.digest, t.now);
    CallKeepsKeys(AsTable(db), p, r, t.now);
  }

  lemma RequestKeepsKeys(t: Table, s: Step)
    requires s.ReadSession? || s.ReadAccount? || s.ReadKey? || s.TouchAndAccept?
    ensures Exec(t, s).keys == t.keys && Exec(t, s).active == t.active
  {}

  lemma CallKeepsKeys(t: Table, p: Proc, r: Request, now: Time)
    requires r.Authenticate?
    ensures var after := Sessions.Authenticated(t, p, r.account, r.id, r.kind, r.digest, now);
      after.keys == t.keys && after.active == t.active
  {
    var begun := Exec(t, ReadSession(p, r.account, r.id, r.kind, r.digest, now));
    RequestKeepsKeys(t, ReadSession(p, r.account, r.id, r.kind, r.digest, now));
    RequestKeepsKeys(begun, ReadAccount(p));
    RequestKeepsKeys(Exec(begun, ReadAccount(p)), ReadKey(p));
    RequestKeepsKeys(Exec(Exec(begun, ReadAccount(p)), ReadKey(p)), TouchAndAccept(p));
  }

  /** Revoking one session answers whether it was the account's and unrevoked. */
  lemma RevocationAgrees(db: Store, t: Timed, purging: bool)
    requires t.request.RevokeOne?
    ensures var account, id := t.request.account, t.request.id;
      && Agree(Handle(db, t, purging).0, Exec(AsTable(db), RevokeSession(account, id, t.now)))
      && Handle(db, t, purging).1
           == Changed(id in db.sessions && db.sessions[id].account == account && db.sessions[id].revokedAt.None?)
  {}

  /** Revoking all sessions of an account revokes each as by itself, and answers how many were unrevoked. */
  lemma RevokingAllAgrees(db: Store, t: Timed, purging: bool, id: SessionId)
    requires t.request.RevokeAll?
    ensures var account, after := t.request.account, Handle(db, t, purging).0;
      && after.keys == db.keys && after.active == db.active && after.sessions.Keys == db.sessions.Keys
      && (id in db.sessions ==>
            after.sessions[id] == Exec(AsTable(db), RevokeSession(account, id, t.now)).sessions[id])
      && Handle(db, t, purging).1
           == Count(|set k | k in db.sessions && db.sessions[k].account == account && db.sessions[k].revokedAt.None?|)
  {
    if id in db.sessions {
      RevocationIsExact(AsTable(db), RevokeSession(t.request.account, id, t.now), id);
    }
    assert Unrevoked(db.sessions, t.request.account)
        == set k | k in db.sessions && db.sessions[k].account == t.request.account && db.sessions[k].revokedAt.None?;
  }

  /** The revocation of a key reaches every session minted from it. */
  lemma KeyRevocationAgrees(db: Store, t: Timed, purging: bool)
    requires t.request.RevokeKeyAndSessions?
    ensures var account, key := t.request.account, t.request.key;
      && Agree(Handle(db, t, purging).0, Exec(AsTable(db), RevokeKey(account, key, t.now, db.sessions.Keys)))
      && Handle(db, t, purging).1
           == if key in db.keys && db.keys[key].account == account && db.keys[key].revokedAt.None? then Done else Refused
  {
    assert OfKey(db.sessions, t.request.account, t.request.key) * db.sessions.Keys
        == OfKey(db.sessions, t.request.account, t.request.key);
  }

  /** Creations, deletions and the status of an account are the same in both. */
  lemma CreationAgrees(db: Store, now: Time, purging: bool, account: AccountId, id: SessionId, digest: string, key: KeyId,
                       expires: Option<Time>, mintedFrom: Option<KeyId>)
    ensures Agree(Handle(db, Timed(now, PutKey(key, ApiKey(account, expires, None))), purging).0,
                  Exec(AsTable(db), CreateKey(key, account, expires)))
    ensures Agree(Handle(db, Timed(now, Request.CreateSession(id, account, digest, mintedFrom)), purging).0,
                  Exec(AsTable(db), Step.CreateSession(id, account, digest, mintedFrom, now)))
  {}

  lemma RemovalAgrees(db: Store, now: Time, purging: bool, account: AccountId, id: SessionId, on: bool)
    ensures Agree(Handle(db, Timed(now, Recycle({id})), purging).0, Exec(AsTable(db), DeleteSession(id)))
    ensures Agree(Handle(db, Timed(now, Request.SetActive(account, on)), purging).0,
                  Exec(AsTable(db), Step.SetActive(account, on)))
  {}

  /** A listing holds exactly the account's unrevoked sessions that have not ended, and none after all were revoked. */
  lemma ListingIsExact(db: Store, now: Time, purging: bool, account: AccountId, id: SessionId)
    ensures var listing := Handle(db, Timed(now, ListLive(account)), purging).1;
      && listing.Live?
      && (id in listing.sessions <==>
            && id in db.sessions && db.sessions[id].account == account && db.sessions[id].revokedAt.None?
            && now < db.sessions[id].expiresAt && now < db.sessions[id].absoluteExpiresAt)
      && (id in listing.sessions ==> listing.sessions[id] == db.sessions[id])
    ensures var after := Handle(db, Timed(now, RevokeAll(account)), purging).0;
      Handle(after, Timed(now, ListLive(account)), purging).1 == Live(map[])
  {}

  // ---- Challenges ----

  /** How many of the requests are wrong codes for the challenge that were counted. */
  function Counted(db: Store, ts: seq<Timed>, purging: bool, c: nat): nat {
    if ts == [] then 0 else
    var before, t := ts[..|ts| - 1], ts[|ts| - 1];
    Counted(db, before, purging, c)
    + if t.request.Fail? && t.request.challenge == c && Handle(Serve(db, before, purging).0, t, purging).1 == Done then 1 else 0
  }

  /** No request of the run puts this challenge again or consumes it. */
  predicate Leaves(ts: seq<Timed>, c: nat) {
    forall t <- ts :: !((t.request.PutChallenge? || t.request.Consume?) && t.request.challenge == c)
  }

  predicate IsRow(db: Store, c: nat, row: Challenge) { c in db.challenges && db.challenges[c] == row }

  lemma ChallengeStep(db: Store, t: Timed, purging: bool, c: nat, row: Challenge)
    requires IsRow(db, c, row) && !row.consumed && t.now <= row.expiresAt + DAY
    requires !((t.request.PutChallenge? || t.request.Consume?) && t.request.challenge == c)
    ensures var counted := t.request.Fail? && t.request.challenge == c && Handle(db, t, purging).1 == Done;
      IsRow(Handle(db, t, purging).0, c, if counted then row.(attempts := row.attempts + 1) else row)
  {}

  lemma {:induction false} AttemptsAreCounted(db: Store, ts: seq<Timed>, purging: bool, c: nat, row: Challenge)
    requires IsRow(db, c, row) && !row.consumed && Leaves(ts, c)
    requires forall t <- ts :: t.now <= row.expiresAt + DAY
    ensures IsRow(Serve(db, ts, purging).0, c, row.(attempts := row.attempts + Counted(db, ts, purging, c)))
  {
    if ts != [] {
      var before, t := ts[..|ts| - 1], ts[|ts| - 1];
      AttemptsAreCounted(db, before, purging, c, row);
      ChallengeStep(Serve(db, before, purging).0, t, purging, c,
                    row.(attempts := row.attempts + Counted(db, before, purging, c)));
    }
  }

  /**
   After a challenge is put, with purges or without, a code is accepted exactly
   before the challenge ends and while fewer wrong codes were counted than the
   caller allows; and it is accepted once.
   */
  lemma ChallengeIsConsumedOnce(db: Store, ts: seq<Timed>, purging: bool, c: nat, now: Time, lifetime: nat,
                                later: Time, maxAttempts: nat, again: nat)
    requires Leaves(ts, c) && forall t <- ts :: t.now <= now + lifetime + DAY
    ensures var put := Handle(db, Timed(now, PutChallenge(c, lifetime)), purging).0;
      var (after, reply) := Handle(Serve(put, ts, purging).0, Timed(later, Consume(c, maxAttempts)), purging);
      && reply == (if later < now + lifetime && Counted(put, ts, purging, c) < maxAttempts then Done else Refused)
      && (reply == Done ==> Handle(after, Timed(later, Consume(c, again)), purging).1 == Refused)
  {
    var put := Handle(db, Timed(now, PutChallenge(c, lifetime)), purging).0;
    AttemptsAreCounted(put, ts, purging, c, Challenge(now + lifetime, 0, false));
  }

  /** A wrong code is counted exactly when the right one would be accepted. */
  lemma WrongCodeIsCounted(db: Store, now: Time, purging: bool, c: nat, maxAttempts: nat)
    ensures Handle(db, Timed(now, Fail(c, maxAttempts)), purging).1 == Handle(db, Timed(now, Consume(c, maxAttempts)), purging).1
  {}
}
