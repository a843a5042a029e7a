/**
 Browser and Astrometry sessions. An authentication reads the session, the
 account and, for a session minted from an API key, the key again; then it may
 extend the session. Requests of different calls interleave freely, sessions
 and keys may be revoked, swept or deleted at any moment.
 */
module Sessions {

  import opened Wrappers

  type Time = int // seconds
  type AccountId = nat
  type SessionId = nat
  type KeyId = nat
  type Proc = nat

  const DAY: nat := 86_400
  const SESSION_IDLE_LIFETIME: nat := 30 * DAY
  const SESSION_ABSOLUTE_LIFETIME: nat := 90 * DAY
  const SESSION_TOUCH_INTERVAL: nat := 15 * 60

  datatype Kind = Browser | Astrometry

  datatype Session = Session(
    account: AccountId, kind: Kind, digest: string, keyId: Option<KeyId>,
    createdAt: Time, lastSeenAt: Time, expiresAt: Time, absoluteExpiresAt: Time, revokedAt: Option<Time>)

  datatype ApiKey = ApiKey(account: AccountId, expiresAt: Option<Time>, revokedAt: Option<Time>)

  /** How far an authentication has come. */
  datatype Stage = SessionRead | AccountRead | KeyRead

  /** An authentication in progress: the session it read, and the step at which it began. */
  datatype Call = Call(id: SessionId, session: Session, now: Time, stage: Stage, began: nat)

  datatype Acceptance = Acceptance(id: SessionId, keyId: Option<KeyId>, began: nat)

  datatype Table = Table(
    sessions: map<SessionId, Session>,
    keys: map<KeyId, ApiKey>,
    active: set<AccountId>,
    calls: map<Proc, Call>,
    drawnSessions: set<SessionId>,
    drawnKeys: set<KeyId>,
    accepted: seq<Acceptance>,
    steps: nat)

  const NEW := Table(map[], map[], {}, map[], {}, {}, [], 0)

  datatype Step =
    | CreateKey(key: KeyId, account: AccountId, expires: Option<Time>)
    | CreateSession(id: SessionId, account: AccountId, digest: string, mintedFrom: Option<KeyId>, now: Time)
    | ReadSession(p: Proc, account: AccountId, id: SessionId, kind: Kind, digest: string, now: Time)
    | ReadAccount(p: Proc)
    | ReadKey(p: Proc)
    | TouchAndAccept(p: Proc)
    | RevokeSession(account: AccountId, id: SessionId, now: Time)
    | RevokeKey(account: AccountId, key: KeyId, now: Time, swept: set<SessionId>) // and the part of the sweep done with it
    | DeleteSession(id: SessionId)                            // recycled, purged, or removed by the table itself
    | DeleteKey(key: KeyId)
    | SetActive(account: AccountId, on: bool)
    | Abandon(p: Proc)

  /** IDs are fresh. A session is minted by an earlier, possibly outdated, check of its key. */
  predicate Possible(t: Table, s: Step) {
    match s
    case CreateKey(key, _, _) => key !in t.drawnKeys
    case CreateSession(id, _, _, mintedFrom, _) =>
      id !in t.drawnSessions && (mintedFrom.Some? ==> mintedFrom.value in t.drawnKeys)
    case _ => true
  }

  /** A new session: Astrometry when minted from a key, Browser otherwise. */
  function NewSession(account: AccountId, digest: string, mintedFrom: Option<KeyId>, now: Time): Session {
    Session(account, if mintedFrom.Some? then Astrometry else Browser, digest, mintedFrom,
            now, now, now + SESSION_IDLE_LIFETIME, now + SESSION_ABSOLUTE_LIFETIME, None)
  }

  /** The checks on the session itself. */
  predicate Accepts(s: Session, kind: Kind, digest: string, now: Time) {
    s.kind == kind && s.revokedAt.None? && s.expiresAt > now && s.absoluteExpiresAt > now && s.digest == digest
  }

  /** The checks on the minting key, which is read under the session's account. */
  predicate KeyAccepts(k: ApiKey, account: AccountId, now: Time) {
    k.account == account && k.revokedAt.None? && (k.expiresAt.Some? ==> k.expiresAt.value > now)
  }

  function Earlier(a: Time, b: Time): Time { if a <= b then a else b }

  /** The expiry a touch writes: the idle lifetime, capped by the absolute expiry of the session that was read. */
  function TouchedExpiry(read: Session, now: Time): Time { Earlier(now + SESSION_IDLE_LIFETIME, read.absoluteExpiresAt) }

  /** `touch_session`: conditional on the stored row being unrevoked and before its absolute expiry. */
  function Touch(sessions: map<SessionId, Session>, id: SessionId, now: Time, expires: Time): map<SessionId, Session> {
    if id in sessions && sessions[id].revokedAt.None? && sessions[id].absoluteExpiresAt > now
    then sessions[id := sessions[id].(lastSeenAt := now, expiresAt := expires)] else sessions
  }

  function Revoke(sessions: map<SessionId, Session>, ids: set<SessionId>, now: Time): map<SessionId, Session> {
    map id <- sessions ::
      if id in ids && sessions[id].revokedAt.None? then sessions[id].(revokedAt := Some(now)) else sessions[id]
  }

  /** The sessions among `ids` that are the account's. */
  function OfAccount(sessions: map<SessionId, Session>, account: AccountId, ids: set<SessionId>): set<SessionId> {
    set id | id in ids && id in sessions && sessions[id].account == account
  }

  /** The account's sessions minted from a key. */
  function OfKey(sessions: map<SessionId, Session>, account: AccountId, key: KeyId): set<SessionId> {
    set id | id in sessions && sessions[id].account == account && sessions[id].keyId == Some(key)
  }

  function SetCall(t: Table, p: Proc, c: Call): Table { t.(calls := t.calls[p := c]) }

  function Drop(t: Table, p: Proc): Table { t.(calls := t.calls - {p}) }

  function Exec'(t: Table, s: Step): Table {
    match s
    case CreateKey(key, account, expires) =>
      t.(keys := t.keys[key := ApiKey(account, expires, None)], drawnKeys := t.drawnKeys + {key})
    case CreateSession(id, account, digest, mintedFrom, now) =>
      t.(sessions := t.sessions[id := NewSession(account, digest, mintedFrom, now)], drawnSessions := t.drawnSessions + {id})
    case ReadSession(p, account, id, kind, digest, now) =>
      if id in t.sessions && t.sessions[id].account == account && Accepts(t.sessions[id], kind, digest, now)
      then SetCall(t, p, Call(id, t.sessions[id], now, SessionRead, t.steps)) else Drop(t, p)
    case ReadAccount(p) =>
      if p in t.calls && t.calls[p].stage == SessionRead then
        if t.calls[p].session.account in t.active then SetCall(t, p, t.calls[p].(stage := AccountRead)) else Drop(t, p)
      else t
    case ReadKey(p) =>
      if p in t.calls && t.calls[p].stage == AccountRead then
        var c := t.calls[p];
        if c.session.keyId.None? || (c.session.keyId.value in t.keys && KeyAccepts(t.keys[c.session.keyId.value], c.session.account, c.now))
        then SetCall(t, p, c.(stage := KeyRead)) else Drop(t, p)
      else t
    case TouchAndAccept(p) =>
      if p in t.calls && t.calls[p].stage == KeyRead then
        var c := t.calls[p];
        var sessions := if c.now - c.session.lastSeenAt >= SESSION_TOUCH_INTERVAL
                        then Touch(t.sessions, c.id, c.now, TouchedExpiry(c.session, c.now)) else t.sessions;
        Drop(t, p).(sessions := sessions, accepted := t.accepted + [Acceptance(c.id, c.session.keyId, c.began)])
      else t
    case RevokeSession(account, id, now) => t.(sessions := Revoke(t.sessions, OfAccount(t.sessions, account, {id}), now))
    case RevokeKey(account, key, now, swept) =>
      if key in t.keys && t.keys[key].account == account && t.keys[key].revokedAt.None?
      then t.(keys := t.keys[key := t.keys[key].(revokedAt := Some(now))],
              sessions := Revoke(t.sessions, OfKey(t.sessions, account, key) * swept, now))
      else t
    case DeleteSession(id) => t.(sessions := t.sessions - {id})
    case DeleteKey(key) => t.(keys := t.keys - {key})
    case SetActive(account, on) => t.(active := if on then t.active + {account} else t.active - {account})
    case Abandon(p) => Drop(t, p)
  }

  function Exec(t: Table, s: Step): Table { Exec'(t, s).(steps := t.steps + 1) }

  function Run(ss: seq<Step>): Table {
    if ss == [] then NEW else Exec(Run(ss[..|ss| - 1]), ss[|ss| - 1])
  }

  predicate IsTrace(ss: seq<Step>) {
    ss != [] ==> IsTrace(ss[..|ss| - 1]) && Possible(Run(ss[..|ss| - 1]), ss[|ss| - 1])
  }

  // ---- Lifetimes ----

  /** What creation fixes for good. */
  predicate SameIdentity(a: Session, b: Session) {
    a.account == b.account && a.kind == b.kind && a.digest == b.digest && a.keyId == b.keyId
    && a.createdAt == b.createdAt && a.absoluteExpiresAt == b.absoluteExpiresAt
  }

  predicate LifetimeOk(s: Session) {
    && s.expiresAt <= s.absoluteExpiresAt == s.createdAt + SESSION_ABSOLUTE_LIFETIME && s.lastSeenAt < s.absoluteExpiresAt
    && (s.kind == Browser <==> s.keyId.None?)
  }

  ghost predicate Inv(t: Table) {
    && t.sessions.Keys <= t.drawnSessions && t.keys.Keys <= t.drawnKeys
    && (forall id <- t.sessions :: LifetimeOk(t.sessions[id]))
    && (forall p <- t.calls :: t.calls[p].id in t.drawnSessions)
    && (forall p <- t.calls :: t.calls[p].id in t.sessions ==> SameIdentity(t.calls[p].session, t.sessions[t.calls[p].id]))
  }

  /** A session row that keeps its identity and its lifetime can replace the stored one. */
  lemma SessionsKeepInv(t: Table, t': Table)
    requires Inv(t)
    requires t'.drawnSessions == t.drawnSessions && t'.drawnKeys == t.drawnKeys
    requires t'.keys.Keys <= t.drawnKeys && t'.sessions.Keys <= t.sessions.Keys
    requires forall id <- t'.sessions :: LifetimeOk(t'.sessions[id]) && SameIdentity(t.sessions[id], t'.sessions[id])
    requires forall p <- t'.calls :: p in t.calls && t'.calls[p] == t.calls[p]
    ensures Inv(t')
  {}

  /** The expiry a touch writes is within the lifetime of the stored session, even if it was read long ago. */
  lemma TouchKeepsInv(t: Table, p: Proc)
    requires Inv(t)
    ensures Inv(Exec(t, TouchAndAccept(p)))
  {
    SessionsKeepInv(t, Exec(t, TouchAndAccept(p)));
  }

  lemma RevokeKeepsInv(t: Table, s: Step)
    requires Inv(t) && (s.RevokeSession? || s.RevokeKey? || s.DeleteSession? || s.DeleteKey?)
    ensures Inv(Exec(t, s))
  {
    SessionsKeepInv(t, Exec(t, s));
  }

  lemma CreateKeepsInv(t: Table, s: Step)
    requires Inv(t) && Possible(t, s) && (s.CreateKey? || s.CreateSession?)
    ensures Inv(Exec(t, s))
  {
    assert forall p <- t.calls :: t.calls[p].id in t.drawnSessions;
  }

  /** A call that read the stored session, or read it earlier and moves on. */
  lemma CallsKeepInv(t: Table, t': Table)
    requires Inv(t)
    requires t'.sessions == t.sessions && t'.keys == t.keys
    requires t'.drawnSessions == t.drawnSessions && t'.drawnKeys == t.drawnKeys
    requires forall p <- t'.calls ::
      || (t'.calls[p].id in t.sessions && t'.calls[p].session == t.sessions[t'.calls[p].id])
      || (p in t.calls && t'.calls[p].id == t.calls[p].id && t'.calls[p].session == t.calls[p].session)
    ensures Inv(t')
  {}

  lemma ReadKeepsInv(t: Table, s: Step)
    requires Inv(t) && (s.ReadSession? || s.ReadAccount? || s.ReadKey? || s.SetActive? || s.Abandon?)
    ensures Inv(Exec(t, s))
  {
    CallsKeepInv(t, Exec(t, s));
  }

  lemma StepKeepsInv(t: Table, s: Step)
    requires Inv(t) && Possible(t, s)
    ensures Inv(Exec(t, s))
  {
    if s.TouchAndAccept? {
      TouchKeepsInv(t, s.p);
    } else if s.CreateKey? || s.CreateSession? {
      CreateKeepsInv(t, s);
    } else if s.RevokeSession? || s.RevokeKey? || s.DeleteSession? || s.DeleteKey? {
      RevokeKeepsInv(t, s);
    } else {
      ReadKeepsInv(t, s);
    }
  }

  /** In every run every stored session is last seen and ends within 90 days of its creation, however often it is touched. */
  lemma {:induction false} SessionLifetime(ss: seq<Step>)
    requires IsTrace(ss)
    ensures Inv(Run(ss))
    ensures forall id <- Run(ss).sessions ::
      var s := Run(ss).sessions[id];
      s.expiresAt <= s.absoluteExpiresAt == s.createdAt + 90 * 86_400 && s.lastSeenAt < s.createdAt + 90 * 86_400
  {
    if ss != [] {
      SessionLifetime(ss[..|ss| - 1]);
      StepKeepsInv(Run(ss[..|ss| - 1]), ss[|ss| - 1]);
    }
  }

  // ---- Revocation ----

  /** Revoked, or already deleted after it was created. */
  predicate SessionGone(t: Table, id: SessionId) {
    id in t.drawnSessions && (id in t.sessions ==> t.sessions[id].revokedAt.Some?)
  }

  predicate KeyGone(t: Table, key: KeyId) {
    key in t.drawnKeys && (key in t.keys ==> t.keys[key].revokedAt.Some?)
  }

  lemma GoneStaysGone(t: Table, s: Step, id: SessionId, key: KeyId)
    requires Possible(t, s)
    ensures SessionGone(t, id) ==> SessionGone(Exec(t, s), id)
    ensures KeyGone(t, key) ==> KeyGone(Exec(t, s), key)
  {}

  /** Calls and acceptances on the session, or past the key check of the key, all began before step `n`. */
  ghost predicate BeganBefore(t: Table, n: nat, id: Option<SessionId>, key: Option<KeyId>) {
    && (forall p <- t.calls :: Late(t.calls[p], n) ==> !Concerns(t.calls[p], id, key))
    && (forall a <- t.accepted :: id == Some(a.id) || (key.Some? && a.keyId == key) ==> a.began < n)
  }

  predicate Late(c: Call, n: nat) { c.began >= n }

  predicate Concerns(c: Call, id: Option<SessionId>, key: Option<KeyId>) {
    id == Some(c.id) || (key.Some? && c.session.keyId == key && c.stage == KeyRead)
  }

  ghost predicate StepsCounted(t: Table) {
    && (forall p <- t.calls :: t.calls[p].began < t.steps)
    && (forall a <- t.accepted :: a.began < t.steps)
  }

  lemma StepKeepsBegan(t: Table, s: Step, n: nat, id: Option<SessionId>, key: Option<KeyId>)
    requires Possible(t, s) && BeganBefore(t, n, id, key)
    requires id.Some? ==> SessionGone(t, id.value)
    requires key.Some? ==> KeyGone(t, key.value)
    ensures BeganBefore(Exec(t, s), n, id, key)
  {}

  lemma StepKeepsCount(t: Table, s: Step)
    requires StepsCounted(t)
    ensures StepsCounted(Exec(t, s)) && Exec(t, s).steps == t.steps + 1
  {}

  lemma {:induction false} StepsAreCounted(ss: seq<Step>)
    ensures Run(ss).steps == |ss| && StepsCounted(Run(ss))
  {
    if ss != [] {
      StepsAreCounted(ss[..|ss| - 1]);
      StepKeepsCount(Run(ss[..|ss| - 1]), ss[|ss| - 1]);
    }
  }

  lemma {:induction false} GoneForever(ss: seq<Step>, n: nat, id: Option<SessionId>, key: Option<KeyId>)
    requires IsTrace(ss) && n <= |ss|
    requires id.Some? ==> SessionGone(Run(ss[..n]), id.value)
    requires key.Some? ==> KeyGone(Run(ss[..n]), key.value)
    ensures id.Some? ==> SessionGone(Run(ss), id.value)
    ensures key.Some? ==> KeyGone(Run(ss), key.value)
    ensures BeganBefore(Run(ss), n, id, key)
    decreases |ss|
  {
    if n == |ss| {
      assert ss[..n] == ss;
      StepsAreCounted(ss);
    } else {
      var before := ss[..|ss| - 1];
      assert before[..n] == ss[..n];
      GoneForever(before, n, id, key);
      GoneStaysGone(Run(before), ss[|ss| - 1], if id.Some? then id.value else 0, if key.Some? then key.value else 0);
      StepKeepsBegan(Run(before), ss[|ss| - 1], n, id, key);
    }
  }

  /** A revocation revokes exactly the sessions it is asked for among its account's own, and changes no other row. */
  lemma RevocationIsExact(t: Table, s: Step, id: SessionId)
    requires id in t.sessions && (s.RevokeSession? || s.RevokeKey?)
    ensures id in Exec(t, s).sessions
    ensures var row := t.sessions[id];
      var asked := row.account == s.account && (if s.RevokeSession? then s.id == id else
        && id in s.swept && row.keyId == Some(s.key)
        && s.key in t.keys && t.keys[s.key].account == s.account && t.keys[s.key].revokedAt.None?);
      Exec(t, s).sessions[id] == if asked && row.revokedAt.None? then row.(revokedAt := Some(s.now)) else row
  {}

  /** So does the revocation of a key: only its account can revoke it, and only once. */
  lemma KeyRevocationIsExact(t: Table, account: AccountId, key: KeyId, now: Time, swept: set<SessionId>, k: KeyId)
    requires k in t.keys
    ensures var t', row := Exec(t, RevokeKey(account, key, now, swept)), t.keys[k];
      && k in t'.keys
      && t'.keys[k] == if k == key && row.account == account && row.revokedAt.None?
                       then row.(revokedAt := Some(now)) else row
  {}

  /** The session is stored as this revoked row or not at all, and its ID is used up. */
  predicate Settled(t: Table, id: SessionId, row: Option<Session>) {
    && id in t.drawnSessions && (row.Some? ==> row.value.revokedAt.Some?)
    && (id in t.sessions ==> row == Some(t.sessions[id]))
  }

  lemma StaysSettled(t: Table, s: Step, id: SessionId, row: Option<Session>)
    requires Possible(t, s) && Settled(t, id, row)
    ensures Settled(Exec(t, s), id, row)
  {}

  lemma {:induction false} SettledForever(ss: seq<Step>, n: nat, id: SessionId, row: Option<Session>)
    requires IsTrace(ss) && n <= |ss| && Settled(Run(ss[..n]), id, row)
    ensures Settled(Run(ss), id, row)
    decreases |ss|
  {
    if n == |ss| {
      assert ss[..n] == ss;
    } else {
      var before := ss[..|ss| - 1];
      assert before[..n] == ss[..n];
      SettledForever(before, n, id, row);
      StaysSettled(Run(before), ss[|ss| - 1], id, row);
    }
  }

  /** A settled session keeps its row while it is stored, and no authentication of it that begins later is accepted. */
  lemma SettledIsRefused(ss: seq<Step>, n: nat, id: SessionId, row: Option<Session>)
    requires IsTrace(ss) && n < |ss| && id in Run(ss[..n]).sessions && Settled(Run(ss[..n + 1]), id, row)
    ensures id in Run(ss).sessions ==> row == Some(Run(ss).sessions[id])
    ensures forall a <- Run(ss).accepted :: a.id == id ==> a.began <= n
  {
    SettledForever(ss, n + 1, id, row);
    GoneForever(ss, n + 1, Some(id), None);
  }

  lemma StoredIsDrawn(ss: seq<Step>, n: nat, id: SessionId)
    requires IsTrace(ss) && n < |ss| && id in Run(ss[..n]).sessions
    ensures id in Run(ss[..n + 1]).drawnSessions && ss[..n + 1][..n] == ss[..n]
  {
    assert ss[..n + 1][..n] == ss[..n];
    TracePrefix(ss, n);
    SessionLifetime(ss[..n]);
  }

  /**
   From its revocation on, a session's row never changes while it is stored, not
   even by a touch that is under way, and no authentication of it that begins
   later is accepted.
   */
  lemma RevokedSessionIsRefused(ss: seq<Step>, n: nat, account: AccountId, id: SessionId, now: Time)
    requires IsTrace(ss) && n < |ss| && ss[n] == RevokeSession(account, id, now)
    requires id in Run(ss[..n]).sessions && Run(ss[..n]).sessions[id].account == account
    ensures id in Run(ss).sessions ==> var row := Run(ss[..n]).sessions[id];
      Run(ss).sessions[id] == if row.revokedAt.Some? then row else row.(revokedAt := Some(now))
    ensures forall a <- Run(ss).accepted :: a.id == id ==> a.began <= n
  {
    StoredIsDrawn(ss, n, id);
    RevocationIsExact(Run(ss[..n]), ss[n], id);
    SettledIsRefused(ss, n, id, Some(Run(ss[..n + 1]).sessions[id]));
  }

  /** A deleted session never comes back, and no authentication of it that begins later is accepted. */
  lemma DeletedSessionIsRefused(ss: seq<Step>, n: nat, id: SessionId)
    requires IsTrace(ss) && n < |ss| && ss[n] == DeleteSession(id) && id in Run(ss[..n]).sessions
    ensures id !in Run(ss).sessions
    ensures forall a <- Run(ss).accepted :: a.id == id ==> a.began <= n
  {
    StoredIsDrawn(ss, n, id);
    SettledIsRefused(ss, n, id, None);
  }

  lemma {:induction false} TracePrefix(ss: seq<Step>, n: nat)
    requires IsTrace(ss) && n <= |ss|
    ensures IsTrace(ss[..n])
    decreases |ss|
  {
    if n == |ss| {
      assert ss[..n] == ss;
    } else {
      assert ss[..|ss| - 1][..n] == ss[..n];
      TracePrefix(ss[..|ss| - 1], n);
    }
  }

  /** What the sweep of a key's revocation reaches is refused from then on like a session revoked by itself. */
  lemma SweptSessionIsRefused(ss: seq<Step>, n: nat, account: AccountId, key: KeyId, now: Time, swept: set<SessionId>, id: SessionId)
    requires IsTrace(ss) && n < |ss| && ss[n] == RevokeKey(account, key, now, swept)
    requires var t := Run(ss[..n]);
      && key in t.keys && t.keys[key].account == account && t.keys[key].revokedAt.None?
      && id in swept && id in t.sessions && t.sessions[id].account == account && t.sessions[id].keyId == Some(key)
    ensures id in Run(ss).sessions ==> var row := Run(ss[..n]).sessions[id];
      Run(ss).sessions[id] == if row.revokedAt.Some? then row else row.(revokedAt := Some(now))
    ensures forall a <- Run(ss).accepted :: a.id == id ==> a.began <= n
  {
    StoredIsDrawn(ss, n, id);
    RevocationIsExact(Run(ss[..n]), ss[n], id);
    SettledIsRefused(ss, n, id, Some(Run(ss[..n + 1]).sessions[id]));
  }

  /**
   From the revocation of an API key on, the key stays revoked while it is
   stored, and no authentication that begins later is accepted for any session
   minted from it: whether the sweep reached the session, missed it, or ran before
   the session was even stored.
   */
  lemma RevokedKeyIsRefused(ss: seq<Step>, n: nat, account: AccountId, key: KeyId, now: Time, swept: set<SessionId>)
    requires IsTrace(ss) && n < |ss| && ss[n] == RevokeKey(account, key, now, swept)
    requires key in Run(ss[..n]).keys && Run(ss[..n]).keys[key].account == account
    ensures key in Run(ss).keys ==> Run(ss).keys[key].revokedAt.Some?
    ensures forall a <- Run(ss).accepted :: a.keyId == Some(key) ==> a.began <= n
  {
    assert ss[..n + 1][..n] == ss[..n];
    TracePrefix(ss, n + 1);
    SessionLifetime(ss[..n + 1]);
    GoneForever(ss, n + 1, None, Some(key));
  }

  /** The same for the sessions minted from a key that was deleted. */
  lemma DeletedKeyIsRefused(ss: seq<Step>, n: nat, key: KeyId)
    requires IsTrace(ss) && n < |ss| && ss[n] == DeleteKey(key) && key in Run(ss[..n]).keys
    ensures forall a <- Run(ss).accepted :: a.keyId == Some(key) ==> a.began <= n
  {
    assert ss[..n + 1][..n] == ss[..n];
    TracePrefix(ss, n);
    SessionLifetime(ss[..n]);
    GoneForever(ss, n + 1, None, Some(key));
  }

  // ---- What an acceptance rests on ----

  /** At step `n` an authentication began that read the stored session `s`, and the session passed every check. */
  ghost predicate BeganWith(ss: seq<Step>, n: nat, id: SessionId, s: Session) {
    && n < |ss| && ss[n].ReadSession? && ss[n].id == id
    && id in Run(ss[..n]).sessions && s == Run(ss[..n]).sessions[id]
    && s.account == ss[n].account && s.kind == ss[n].kind && s.digest == ss[n].digest && s.revokedAt.None?
    && s.expiresAt > ss[n].now && s.absoluteExpiresAt > ss[n].now
  }

  /** The account was active at a later step. */
  ghost predicate AccountSeen(ss: seq<Step>, n: nat, account: AccountId) {
    exists m :: n < m < |ss| && account in Run(ss[..m]).active
  }

  predicate KeyIsValid(keys: map<KeyId, ApiKey>, key: KeyId, account: AccountId, now: Time) {
    && key in keys && keys[key].account == account && keys[key].revokedAt.None?
    && (keys[key].expiresAt.Some? ==> keys[key].expiresAt.value > now)
  }

  /** At a later step the minting key was stored under the session's account, unrevoked and unexpired. */
  ghost predicate KeySeen(ss: seq<Step>, n: nat, s: Session)
    requires n < |ss| && ss[n].ReadSession?
  {
    s.keyId.Some? ==> exists m :: n < m < |ss| && KeyIsValid(Run(ss[..m]).keys, s.keyId.value, s.account, ss[n].now)
  }

  ghost predicate Justified(ss: seq<Step>, n: nat, id: SessionId, s: Session, stage: Stage) {
    && BeganWith(ss, n, id, s)
    && (stage != SessionRead ==> AccountSeen(ss, n, s.account))
    && (stage == KeyRead ==> KeySeen(ss, n, s))
  }

  lemma JustifiedStays(before: seq<Step>, ss: seq<Step>, n: nat, id: SessionId, s: Session, stage: Stage)
    requires before <= ss && Justified(before, n, id, s, stage)
    ensures Justified(ss, n, id, s, stage)
  {
    assert before[..n] == ss[..n];
    if stage != SessionRead {
      var m :| n < m < |before| && s.account in Run(before[..m]).active;
      assert before[..m] == ss[..m];
    }
    if stage == KeyRead && s.keyId.Some? {
      var m :| n < m < |before| && KeyIsValid(Run(before[..m]).keys, s.keyId.value, s.account, before[n].now);
      assert before[..m] == ss[..m];
    }
  }

  ghost predicate CallJustified(ss: seq<Step>, c: Call) {
    Justified(ss, c.began, c.id, c.session, c.stage) && ss[c.began].now == c.now
  }

  ghost predicate AcceptanceJustified(ss: seq<Step>, a: Acceptance) {
    exists s :: Justified(ss, a.began, a.id, s, KeyRead) && s.keyId == a.keyId
  }

  /** The call began in this step, with a session that passed every check. */
  predicate BeginsHere(t: Table, s: Step, c: Call) {
    && s.ReadSession? && s.id in t.sessions && c == Call(s.id, t.sessions[s.id], s.now, SessionRead, t.steps)
    && var row := t.sessions[s.id];
    && row.account == s.account && row.kind == s.kind && row.digest == s.digest && row.revokedAt.None?
    && row.expiresAt > s.now && row.absoluteExpiresAt > s.now
  }

  /** The call passed one more check in this step. */
  predicate AdvancesTo(t: Table, d: Call, c: Call) {
    || (c == d.(stage := AccountRead) && c.session.account in t.active)
    || (c == d.(stage := KeyRead) && d.stage == AccountRead
        && (c.session.keyId.Some? ==> KeyIsValid(t.keys, c.session.keyId.value, c.session.account, c.now)))
  }

  lemma CallOrigin(t: Table, s: Step, p: Proc)
    requires p in Exec(t, s).calls
    ensures var c := Exec(t, s).calls[p];
      BeginsHere(t, s, c) || (p in t.calls && (c == t.calls[p] || AdvancesTo(t, t.calls[p], c)))
  {}

  lemma BeginsJustified(before: seq<Step>, ss: seq<Step>, c: Call)
    requires |ss| > 0 && before == ss[..|ss| - 1] && Run(before).steps == |before|
    requires BeginsHere(Run(before), ss[|ss| - 1], c)
    ensures CallJustified(ss, c)
  {
    assert ss[..|before|] == before;
  }

  lemma AdvanceJustified(before: seq<Step>, ss: seq<Step>, d: Call, c: Call)
    requires |ss| > 0 && before == ss[..|ss| - 1]
    requires CallJustified(before, d) && AdvancesTo(Run(before), d, c)
    ensures CallJustified(ss, c)
  {
    assert ss[..|before|] == before;
    JustifiedStays(before, ss, d.began, d.id, d.session, d.stage);
  }

  lemma CallStep(before: seq<Step>, ss: seq<Step>, was: Option<Call>, c: Call)
    requires |ss| > 0 && before == ss[..|ss| - 1] && Run(before).steps == |before|
    requires was.Some? ==> CallJustified(before, was.value)
    requires BeginsHere(Run(before), ss[|ss| - 1], c)
      || (was.Some? && (c == was.value || AdvancesTo(Run(before), was.value, c)))
    ensures CallJustified(ss, c)
  {
    if BeginsHere(Run(before), ss[|ss| - 1], c) {
      BeginsJustified(before, ss, c);
    } else if c == was.value {
      JustifiedStays(before, ss, c.began, c.id, c.session, c.stage);
    } else {
      AdvanceJustified(before, ss, was.value, c);
    }
  }

  /** The call that this step accepts. */
  predicate AcceptsHere(t: Table, s: Step, a: Acceptance) {
    && s.TouchAndAccept? && s.p in t.calls && t.calls[s.p].stage == KeyRead
    && a == Acceptance(t.calls[s.p].id, t.calls[s.p].session.keyId, t.calls[s.p].began)
  }

  lemma AcceptanceOrigin(t: Table, s: Step, a: Acceptance)
    requires a in Exec(t, s).accepted
    ensures a in t.accepted || AcceptsHere(t, s, a)
  {}

  lemma AcceptanceStep(before: seq<Step>, ss: seq<Step>, a: Acceptance)
    requires |ss| > 0 && before == ss[..|ss| - 1] && a in Run(ss).accepted
    requires a in Run(before).accepted ==> AcceptanceJustified(before, a)
    requires forall p <- Run(before).calls :: CallJustified(before, Run(before).calls[p])
    ensures AcceptanceJustified(ss, a)
  {
    AcceptanceOrigin(Run(before), ss[|before|], a);
    if a in Run(before).accepted {
      var row :| Justified(before, a.began, a.id, row, KeyRead) && row.keyId == a.keyId;
      JustifiedStays(before, ss, a.began, a.id, row, KeyRead);
    } else {
      var c := Run(before).calls[ss[|before|].p];
      assert CallJustified(before, c);
      JustifiedStays(before, ss, c.began, c.id, c.session, c.stage);
    }
  }

  lemma {:induction false} TraceJustified(ss: seq<Step>)
    ensures forall p <- Run(ss).calls :: CallJustified(ss, Run(ss).calls[p])
    ensures forall a <- Run(ss).accepted :: AcceptanceJustified(ss, a)
  {
    if ss != [] {
      var before := ss[..|ss| - 1];
      TraceJustified(before);
      StepsAreCounted(before);
      forall p <- Run(ss).calls ensures CallJustified(ss, Run(ss).calls[p]) {
        CallOrigin(Run(before), ss[|before|], p);
        CallStep(before, ss, if p in Run(before).calls then Some(Run(before).calls[p]) else None, Run(ss).calls[p]);
      }
      forall a <- Run(ss).accepted ensures AcceptanceJustified(ss, a) { AcceptanceStep(before, ss, a); }
    }
  }

  /**
   Whatever is accepted was asked for with the stored digest, kind and account
   when the session was unrevoked and unexpired, with its account active and its
   key valid at some later moment before the acceptance.
   */
  lemma AcceptedWasValid(ss: seq<Step>, a: Acceptance) returns (s: Session)
    requires a in Run(ss).accepted
    ensures BeganWith(ss, a.began, a.id, s) && s.keyId == a.keyId
    ensures AccountSeen(ss, a.began, s.account) && KeySeen(ss, a.began, s)
  {
    TraceJustified(ss);
    s :| Justified(ss, a.began, a.id, s, KeyRead) && s.keyId == a.keyId;
  }

  lemma {:induction false} StaysInactive(ss: seq<Step>, n: nat, account: AccountId)
    requires n < |ss| && ss[n] == SetActive(account, false)
    requires forall k :: n < k < |ss| ==> ss[k] != SetActive(account, true)
    ensures account !in Run(ss).active
    decreases |ss|
  {
    var before := ss[..|ss| - 1];
    if n < |before| {
      StaysInactive(before, n, account);
      assert ss[|before|] != SetActive(account, true);
    }
  }

  /** Until an account is made active again, no authentication for it that began after it was made inactive is accepted. */
  lemma InactiveAccountIsRefused(ss: seq<Step>, n: nat, account: AccountId, a: Acceptance)
    requires n < |ss| && ss[n] == SetActive(account, false)
    requires forall k :: n < k < |ss| ==> ss[k] != SetActive(account, true)
    requires a in Run(ss).accepted && n <= a.began
    ensures a.began < |ss| && ss[a.began].ReadSession? && ss[a.began].account != account
  {
    var s := AcceptedWasValid(ss, a);
    if s.account == account {
      var m :| a.began < m < |ss| && account in Run(ss[..m]).active;
      StaysInactive(ss[..m], n, account);
    }
  }

  // ---- Undisturbed authentications ----

  function Authenticated(t: Table, p: Proc, account: AccountId, id: SessionId, kind: Kind, digest: string, now: Time): Table {
    var read := Exec(t, ReadSession(p, account, id, kind, digest, now));
    Exec(Exec(Exec(read, ReadAccount(p)), ReadKey(p)), TouchAndAccept(p))
  }

  /** Every check of an authentication, on one state. */
  predicate IsValid(t: Table, account: AccountId, id: SessionId, kind: Kind, digest: string, now: Time) {
    && id in t.sessions
    && var s := t.sessions[id];
    && s.account == account && s.kind == kind && s.digest == digest && s.revokedAt.None?
    && now < s.expiresAt && now < s.absoluteExpiresAt
    && account in t.active
    && (s.keyId.Some? ==> KeyIsValid(t.keys, s.keyId.value, account, now))
  }

  lemma ReadsValidSession(t: Table, p: Proc, id: SessionId, now: Time)
    requires id in t.sessions && IsValid(t, t.sessions[id].account, id, t.sessions[id].kind, t.sessions[id].digest, now)
    ensures var s := t.sessions[id];
      Authenticated(t, p, s.account, id, s.kind, s.digest, now)
        == Exec(SetCall(t, p, Call(id, s, now, KeyRead, t.steps)).(steps := t.steps + 3), TouchAndAccept(p))
  {
    var s := t.sessions[id];
    var t1 := Exec(t, ReadSession(p, s.account, id, s.kind, s.digest, now));
    assert t1.calls[p] == Call(id, s, now, SessionRead, t.steps);
    var t2 := Exec(t1, ReadAccount(p));
    assert t2.calls[p] == Call(id, s, now, AccountRead, t.steps);
    var t3 := Exec(t2, ReadKey(p));
    assert t3.calls == t.calls[p := Call(id, s, now, KeyRead, t.steps)];
  }

  /**
   An authentication that nothing interrupts is accepted exactly when every check
   holds. A session last seen 15 minutes before is then extended to 30 days, but
   not past its absolute end.
   */
  lemma UndisturbedAuthentication(t: Table, p: Proc, account: AccountId, id: SessionId, kind: Kind, digest: string, now: Time)
    ensures var t' := Authenticated(t, p, account, id, kind, digest, now);
      if IsValid(t, account, id, kind, digest, now) then
        var s := t.sessions[id];
        && t'.accepted == t.accepted + [Acceptance(id, s.keyId, t.steps)]
        && t'.sessions == if now - s.lastSeenAt < 15 * 60 then t.sessions else
             t.sessions[id := s.(lastSeenAt := now,
                                 expiresAt := if now + 30 * 86_400 <= s.absoluteExpiresAt then now + 30 * 86_400
                                              else s.absoluteExpiresAt)]
      else t'.accepted == t.accepted && t'.sessions == t.sessions
  {
    if IsValid(t, account, id, kind, digest, now) {
      ReadsValidSession(t, p, id, now);
    } else {
      InvalidIsDropped(t, p, account, id, kind, digest, now);
    }
  }

  lemma InvalidIsDropped(t: Table, p: Proc, account: AccountId, id: SessionId, kind: Kind, digest: string, now: Time)
    requires !IsValid(t, account, id, kind, digest, now)
    ensures var t' := Authenticated(t, p, account, id, kind, digest, now);
      t'.accepted == t.accepted && t'.sessions == t.sessions
  {
    var t1 := Exec(t, ReadSession(p, account, id, kind, digest, now));
    var t2 := Exec(t1, ReadAccount(p));
    if p in t1.calls {
      assert t1.calls[p] == Call(id, t.sessions[id], now, SessionRead, t.steps);
      if p in t2.calls {
        assert t2.calls[p] == Call(id, t.sessions[id], now, AccountRead, t.steps);
        assert p !in Exec(t2, ReadKey(p)).calls;
      }
    }
  }

  /**
   A new session of an active account is valid for the kind of its minting and its
   digest for exactly 30 days if nothing extends it, and not past the end of a new
   key it was minted from.
   */
  lemma NewSessionIsValid(t: Table, id: SessionId, account: AccountId, digest: string, key: KeyId, keyExpires: Option<Time>,
                          minted: bool, now: Time, kind: Kind, presented: string, later: Time)
    ensures var t' := Exec(Exec(t, SetActive(account, true)), CreateKey(key, account, keyExpires));
      var created := Exec(t', CreateSession(id, account, digest, if minted then Some(key) else None, now));
      var expected := kind == (if minted then Astrometry else Browser) && presented == digest
                      && later < now + 30 * 86_400 && (minted && keyExpires.Some? ==> later < keyExpires.value);
      IsValid(created, account, id, kind, presented, later) == expected
  {}
}
