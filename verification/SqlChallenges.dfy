/**
 Email sign-in challenges in the SQL identity store. Each operation is one
 serial transaction. The live cap is kept by consuming the oldest live rows when
 a challenge is stored; unlike the DynamoDB tracker it compares expiries with
 the clock, so it holds from the last creation on, and not before.
 */
module SqlChallenges {

  import opened Sets
  import opened Wrappers

  type ChallengeId = nat
  type AccountId = nat
  type SessionId = nat
  type Email = string
  type Time = int

  const DAY: nat := 86_400

  datatype Purpose = EmailLogin | Passkey

  datatype Challenge = Challenge(
    purpose: Purpose, email: Option<Email>, createdAt: Time, expiresAt: Time, attempts: nat, consumedAt: Option<Time>)

  datatype Account = Account(email: Email, active: bool, updatedAt: Time, authenticatedAt: Time)

  /** The challenges, the accounts, and the account each session is for. */
  datatype Db = Db(
    challenges: map<ChallengeId, Challenge>, accounts: map<AccountId, Account>, sessions: map<SessionId, AccountId>)

  const EMPTY := Db(map[], map[], map[])

  // ---- What each transaction does ----

  /** Unconsumed, unexpired at `at`, and for this email. */
  predicate IsLive(c: Challenge, email: Email, at: Time) {
    c.email == Some(email) && c.purpose == EmailLogin && c.consumedAt.None? && c.expiresAt > at
  }

  function LiveIds(challenges: map<ChallengeId, Challenge>, email: Email, at: Time): set<ChallengeId> {
    set id | id in challenges && IsLive(challenges[id], email, at)
  }

  /** `UPDATE ... SET consumed_at = now WHERE id = ... AND consumed_at IS NULL`, for every ID. */
  function Consume(challenges: map<ChallengeId, Challenge>, ids: set<ChallengeId>, now: Time): map<ChallengeId, Challenge> {
    map id <- challenges ::
      if id in ids && challenges[id].consumedAt.None? then challenges[id].(consumedAt := Some(now)) else challenges[id]
  }

  ghost predicate NewestFirstOf(rows: seq<ChallengeId>, challenges: map<ChallengeId, Challenge>) {
    forall i, j :: 0 <= i < j < |rows| ==>
      rows[i] != rows[j] && rows[i] in challenges && rows[j] in challenges
      && challenges[rows[i]].createdAt >= challenges[rows[j]].createdAt
  }

  lemma OlderLast(rows: seq<ChallengeId>, challenges: map<ChallengeId, Challenge>, id: ChallengeId)
    requires NewestFirstOf(rows, challenges) && id in challenges && id !in rows
    requires forall r <- rows :: r in challenges && challenges[r].createdAt >= challenges[id].createdAt
    ensures NewestFirstOf(rows + [id], challenges)
  {}

  /** The live rows, newest first; equally old rows come in any order. */
  ghost predicate IsListing(rows: seq<ChallengeId>, challenges: map<ChallengeId, Challenge>, email: Email, at: Time) {
    && (forall id :: id in rows <==> id in LiveIds(challenges, email, at))
    && NewestFirstOf(rows, challenges)
  }

  /** The rows beyond the first `maxLive`. */
  function Excess(rows: seq<ChallengeId>, maxLive: nat): seq<ChallengeId> {
    if |rows| <= maxLive then [] else rows[maxLive..]
  }

  predicate MayStore(db: Db, id: ChallengeId, c: Challenge, maxLive: nat) {
    c.purpose == EmailLogin && maxLive > 0 && c.email.Some? && id !in db.challenges
  }

  ghost predicate Created(db: Db, id: ChallengeId, c: Challenge, maxLive: nat, db': Db)
    requires MayStore(db, id, c, maxLive)
  {
    exists rows ::
      && IsListing(rows, db.challenges[id := c], c.email.value, c.createdAt)
      && db' == db.(challenges := Consume(db.challenges[id := c], Elements(Excess(rows, maxLive)), c.createdAt))
  }

  predicate Usable(db: Db, id: ChallengeId, now: Time, maxAttempts: nat) {
    && id in db.challenges && db.challenges[id].email.Some?
    && IsLive(db.challenges[id], db.challenges[id].email.value, now)
    && db.challenges[id].attempts < maxAttempts
  }

  function Holders(accounts: map<AccountId, Account>, email: Email): set<AccountId> {
    set a | a in accounts && accounts[a].email == email
  }

  /** The account is inserted only if no row has the email or the ID. */
  function WithAccount(accounts: map<AccountId, Account>, email: Email, newId: AccountId, candidate: Account)
    : map<AccountId, Account>
  {
    if Holders(accounts, email) != {} || newId in accounts || Holders(accounts, candidate.email) != {} then accounts
    else accounts[newId := candidate]
  }

  function EmailIds(challenges: map<ChallengeId, Challenge>, email: Email): set<ChallengeId> {
    set id | id in challenges && challenges[id].email == Some(email) && challenges[id].purpose == EmailLogin
  }

  /** What one call to complete a challenge brings along. */
  datatype SignIn = SignIn(id: ChallengeId, now: Time, maxAttempts: nat, newId: AccountId, candidate: Account, session: SessionId)

  /** The accounts of the challenge's email once the candidate has been offered. */
  function Offered(db: Db, s: SignIn): map<AccountId, Account>
    requires Usable(db, s.id, s.now, s.maxAttempts)
  {
    WithAccount(db.accounts, db.challenges[s.id].email.value, s.newId, s.candidate)
  }

  /** Every condition on the way to the commit, for signing in to `account`. */
  predicate MayComplete(db: Db, s: SignIn, account: AccountId) {
    && Usable(db, s.id, s.now, s.maxAttempts)
    && account in Holders(Offered(db, s), db.challenges[s.id].email.value)
    && Offered(db, s)[account].active && s.session !in db.sessions
  }

  /**
   Everything a committed completion writes: all the email's challenges consumed,
   the account in place and its times set, a session for that account.
   */
  function Completed(db: Db, s: SignIn, account: AccountId): Db
    requires MayComplete(db, s, account)
  {
    var accounts := Offered(db, s);
    Db(Consume(db.challenges, EmailIds(db.challenges, db.challenges[s.id].email.value), s.now),
       accounts[account := accounts[account].(updatedAt := s.now, authenticatedAt := s.now)],
       db.sessions[s.session := account])
  }

  class SqlxIdentityRepository {
    var challenges: map<ChallengeId, Challenge>
    var accounts: map<AccountId, Account>
    var sessions: map<SessionId, AccountId>

    ghost function View(): Db reads this { Db(challenges, accounts, sessions) }

    constructor ()
      ensures View() == EMPTY
    {
      challenges, accounts, sessions := map[], map[], map[];
    }

    /** `SELECT id ... ORDER BY created_at DESC`. */
    method NewestFirst(email: Email, at: Time) returns (rows: seq<ChallengeId>)
      ensures IsListing(rows, challenges, email, at)
    {
      rows := [];
      var todo := LiveIds(challenges, email, at);
      while todo != {}
        invariant todo <= LiveIds(challenges, email, at)
        invariant forall id :: id in rows <==> id in LiveIds(challenges, email, at) - todo
        invariant forall r <- rows, id <- todo :: r in challenges && challenges[r].createdAt >= challenges[id].createdAt
        invariant NewestFirstOf(rows, challenges)
      {
        NewestExists(challenges, todo);
        var id :| id in todo && forall k <- todo :: challenges[k].createdAt <= challenges[id].createdAt;
        OlderLast(rows, challenges, id);
        rows := rows + [id];
        todo := todo - {id};
      }
    }

    /** An error result stands for a refused argument or a database error; nothing is stored then. */
    method CreateEmailChallenge(id: ChallengeId, c: Challenge, maxLive: nat) returns (r: Result<(), string>)
      modifies this`challenges
      ensures r.Ok? <==> MayStore(old(View()), id, c, maxLive)
      ensures if r.Ok? then Created(old(View()), id, c, maxLive, View()) else View() == old(View())
    {
      if c.purpose != EmailLogin || maxLive == 0 || c.email.None? || id in challenges {
        return Err("the challenge cannot be stored");
      }
      challenges := challenges[id := c];
      var live := NewestFirst(c.email.value, c.createdAt);
      ConsumeEach(Excess(live, maxLive), c.createdAt);
      r := Ok(());
    }

    method ConsumeEach(ids: seq<ChallengeId>, now: Time)
      modifies this`challenges
      ensures challenges == Consume(old(challenges), Elements(ids), now)
    {
      for i := 0 to |ids|
        invariant challenges == Consume(old(challenges), Elements(ids[..i]), now)
      {
        assert Elements(ids[..i + 1]) == Elements(ids[..i]) + {ids[i]};
        if ids[i] in challenges && challenges[ids[i]].consumedAt.None? {
          challenges := challenges[ids[i] := challenges[ids[i]].(consumedAt := Some(now))];
        }
        assert challenges == Consume(old(challenges), Elements(ids[..i + 1]), now);
      }
      assert ids[..|ids|] == ids;
    }

    /**
     The account signed in to, if the challenge is accepted. Every refusal rolls
     back, also those found after the challenge was consumed: no result where the
     challenge is not usable or the account is inactive, an error where the
     candidate account or the session cannot be stored.
     */
    method CompleteEmailChallenge(s: SignIn) returns (r: Result<Option<AccountId>, string>)
      modifies this
      ensures r.Ok? && r.value.Some? ==>
        MayComplete(old(View()), s, r.value.value) && View() == Completed(old(View()), s, r.value.value)
      ensures r.Err? || r.value.None? ==> View() == old(View())
      ensures !Usable(old(View()), s.id, s.now, s.maxAttempts) ==> r == Ok(None)
      ensures Usable(old(View()), s.id, s.now, s.maxAttempts) ==>
        var holders := Holders(Offered(old(View()), s), old(challenges)[s.id].email.value);
        && (r == Ok(None) ==> exists a <- holders :: !Offered(old(View()), s)[a].active)
        && (r.Err? ==> holders == {} || (s.session in old(sessions) && exists a <- holders :: Offered(old(View()), s)[a].active))
        && (holders == {} ==> r.Err?)
    {
      if s.id !in challenges || challenges[s.id].email.None? || challenges[s.id].purpose != EmailLogin
         || challenges[s.id].consumedAt.Some? || challenges[s.id].expiresAt <= s.now
         || challenges[s.id].attempts >= s.maxAttempts {
        return Ok(None);
      }
      var email := challenges[s.id].email.value;
      var written := WithAccount(accounts, email, s.newId, s.candidate);
      var found := Holders(written, email);
      if found == {} {
        return Err("the account was not stored");
      }
      var account :| account in found;
      if !written[account].active {
        return Ok(None);
      }
      if s.session in sessions {
        return Err("the session was not stored");
      }
      sessions := sessions[s.session := account];
      challenges := Consume(challenges, EmailIds(challenges, email), s.now);
      accounts := written[account := written[account].(updatedAt := s.now, authenticatedAt := s.now)];
      r := Ok(Some(account));
    }

    method RecordChallengeFailure(id: ChallengeId, now: Time, maxAttempts: nat) returns (counted: bool)
      modifies this`challenges
      ensures counted <==> id in old(challenges) && old(challenges)[id].consumedAt.None?
                           && old(challenges)[id].expiresAt > now && old(challenges)[id].attempts < maxAttempts
      ensures View() == if counted then Failed(old(View()), id) else old(View())
    {
      counted := id in challenges && challenges[id].consumedAt.None? && challenges[id].expiresAt > now
                 && challenges[id].attempts < maxAttempts;
      if counted {
        challenges := challenges[id := challenges[id].(attempts := challenges[id].attempts + 1)];
      }
    }
  }

  function Failed(db: Db, id: ChallengeId): Db
    requires id in db.challenges
  {
    db.(challenges := db.challenges[id := db.challenges[id].(attempts := db.challenges[id].attempts + 1)])
  }

  lemma {:induction false} NewestExists(challenges: map<ChallengeId, Challenge>, ids: set<ChallengeId>)
    requires ids != {} && forall id <- ids :: id in challenges
    ensures exists id <- ids :: forall k <- ids :: challenges[k].createdAt <= challenges[id].createdAt
  {
    var x :| x in ids;
    if ids != {x} {
      NewestExists(challenges, ids - {x});
      var y :| y in ids - {x} && forall k <- ids - {x} :: challenges[k].createdAt <= challenges[y].createdAt;
      var z := if challenges[x].createdAt <= challenges[y].createdAt then y else x;
      forall k <- ids ensures challenges[k].createdAt <= challenges[z].createdAt {
        if k != x { assert k in ids - {x}; }
      }
    }
  }

  // ---- Runs ----

  datatype Tx =
    | Create(id: ChallengeId, c: Challenge, maxLive: nat)
    | PutPasskey(id: ChallengeId, c: Challenge)
    | Complete(signIn: SignIn, holder: AccountId)
    | Fail(id: ChallengeId)
    | ConsumePasskey(id: ChallengeId, now: Time)
    | PutAccount(id: AccountId, account: Account)
    | SetActive(id: AccountId, active: bool)
    | Purge(now: Time)

  /** A committed transaction; one that was refused or rolled back changes nothing and is no step. */
  ghost predicate Next(db: Db, tx: Tx, db': Db) {
    match tx
    case Create(id, c, maxLive) => MayStore(db, id, c, maxLive) && Created(db, id, c, maxLive, db')
    case PutPasskey(id, c) =>
      id !in db.challenges && c.purpose == Passkey && db' == db.(challenges := db.challenges[id := c])
    case Complete(signIn, account) => MayComplete(db, signIn, account) && db' == Completed(db, signIn, account)
    case Fail(id) => id in db.challenges && db' == Failed(db, id)
    case ConsumePasskey(id, now) =>
      && id in db.challenges && db.challenges[id].purpose == Passkey
      && db' == db.(challenges := Consume(db.challenges, {id}, now))
    case PutAccount(id, account) =>
      && id !in db.accounts && Holders(db.accounts, account.email) == {}
      && db' == db.(accounts := db.accounts[id := account])
    case SetActive(id, active) =>
      id in db.accounts && db' == db.(accounts := db.accounts[id := db.accounts[id].(active := active)])
    case Purge(now) =>
      db' == db.(challenges := map id | id in db.challenges && db.challenges[id].expiresAt >= now - DAY :: db.challenges[id])
  }

  ghost predicate IsRun(dbs: seq<Db>, txs: seq<Tx>) {
    && |dbs| == |txs| + 1 && dbs[0] == EMPTY
    && forall i :: 0 <= i < |txs| ==> Next(dbs[i], txs[i], dbs[i + 1])
  }

  // ---- What a transaction does, row by row ----

  /** The condition under which a completion signs in to `account`, in the rows. */
  predicate MaySignIn(db: Db, s: SignIn, account: AccountId) {
    && s.id in db.challenges && s.session !in db.sessions
    && var c := db.challenges[s.id];
    && c.purpose == EmailLogin && c.email.Some? && c.consumedAt.None? && s.now < c.expiresAt && c.attempts < s.maxAttempts
    && if account in db.accounts then db.accounts[account].email == c.email.value && db.accounts[account].active
       else account == s.newId && s.candidate == Account(c.email.value, true, s.candidate.updatedAt, s.candidate.authenticatedAt)
            && forall a <- db.accounts :: db.accounts[a].email != c.email.value
  }

  /**
   A completion commits exactly for an unconsumed, unexpired email challenge with
   attempts left, and signs in to the active account of its email or, if there is
   none, to the new one.
   */
  lemma SignInIsExact(db: Db, s: SignIn, account: AccountId)
    ensures MayComplete(db, s, account) <==> MaySignIn(db, s, account)
  {
    if s.id in db.challenges && db.challenges[s.id].email.Some? {
      var email := db.challenges[s.id].email.value;
      if Holders(db.accounts, email) != {} {
        var a :| a in Holders(db.accounts, email);
        assert db.accounts[a].email == email;
      }
      assert forall a <- db.accounts :: a in Holders(db.accounts, db.accounts[a].email);
    }
  }

  /** It consumes all unconsumed sign-in challenges of the email and no other, and changes no other account or session. */
  lemma CompletionIsExact(db: Db, s: SignIn, account: AccountId)
    requires MayComplete(db, s, account)
    ensures var db', email := Completed(db, s, account), db.challenges[s.id].email;
      && db'.challenges.Keys == db.challenges.Keys
      && (forall k <- db.challenges :: var c := db.challenges[k];
            db'.challenges[k] == if c.email == email && c.purpose == EmailLogin && c.consumedAt.None?
                                 then c.(consumedAt := Some(s.now)) else c)
      && db'.accounts.Keys == db.accounts.Keys + {account} && db'.accounts[account].authenticatedAt == s.now
      && db'.accounts[account].email == email.value
      && (forall a <- db.accounts :: a != account ==> db'.accounts[a] == db.accounts[a])
      && db'.sessions == db.sessions[s.session := account]
  {
    SignInIsExact(db, s, account);
    assert account in db.accounts ==> account in Holders(db.accounts, db.challenges[s.id].email.value);
  }

  /** A challenge row leaves only by a purge, and exactly when it ended more than a day before. */
  lemma OnlyPurgeDeletes(db: Db, tx: Tx, db': Db, id: ChallengeId)
    requires Next(db, tx, db') && id in db.challenges
    ensures id !in db'.challenges <==> tx.Purge? && db.challenges[id].expiresAt + 86_400 < tx.now
  {}

  /** The transaction may consume this email challenge: by a completion or a creation for its email. */
  predicate MayConsume(db: Db, tx: Tx, id: ChallengeId)
    requires id in db.challenges
  {
    match tx
    case Complete(s, _) => s.id in db.challenges && db.challenges[s.id].email == db.challenges[id].email
    case Create(_, c, _) => c.email == db.challenges[id].email
    case _ => false
  }

  /** Only sign-ins and new challenges of its own email consume an email challenge, and only its own use a passkey challenge. */
  lemma OnlyUseConsumes(db: Db, tx: Tx, db': Db, id: ChallengeId)
    requires Next(db, tx, db') && id in db.challenges && id in db'.challenges && db.challenges[id].consumedAt.None?
    ensures db.challenges[id].purpose == EmailLogin && db'.challenges[id].consumedAt.Some? ==> MayConsume(db, tx, id)
    ensures db.challenges[id].purpose == Passkey ==>
      (db'.challenges[id].consumedAt.Some? <==> tx.ConsumePasskey? && tx.id == id)
  {
    match tx
    case Create(newId, c, maxLive) => CreationSpares(db, newId, c, maxLive, db', id);
    case Complete(s, account) => CompletionIsExact(db, s, account);
    case _ =>
  }

  lemma CreationSpares(db: Db, newId: ChallengeId, c: Challenge, maxLive: nat, db': Db, id: ChallengeId)
    requires MayStore(db, newId, c, maxLive) && Created(db, newId, c, maxLive, db') && id in db.challenges
    ensures id in db'.challenges
    ensures db'.challenges[id] != db.challenges[id] ==> db.challenges[id].purpose == EmailLogin && db.challenges[id].email == c.email
  {
    var rows :| IsListing(rows, db.challenges[newId := c], c.email.value, c.createdAt)
      && db' == db.(challenges := Consume(db.challenges[newId := c], Elements(Excess(rows, maxLive)), c.createdAt));
    if id in Elements(Excess(rows, maxLive)) { assert id in rows; }
  }

  lemma NewRowsAreStored(db: Db, tx: Tx, db': Db)
    requires Next(db, tx, db')
    ensures tx.PutPasskey? ==> tx.id !in db.challenges && db'.challenges == db.challenges[tx.id := tx.c]
    ensures tx.PutAccount? ==> tx.id !in db.accounts && db'.accounts == db.accounts[tx.id := tx.account]
  {}

  /** Accounts are never dropped, keep their email, and only `SetActive` changes whether they are active. */
  lemma AccountsStay(db: Db, tx: Tx, db': Db, a: AccountId)
    requires Next(db, tx, db') && a in db.accounts
    ensures a in db'.accounts && db'.accounts[a].email == db.accounts[a].email
    ensures db'.accounts[a].active == if tx.SetActive? && tx.id == a then tx.active else db.accounts[a].active
  {}

  /** No completion signs in to an account between the transaction that makes it inactive and the next that makes it active. */
  lemma {:induction false} InactiveAccountIsNotSignedIn(dbs: seq<Db>, txs: seq<Tx>, n: nat, m: nat, a: AccountId)
    requires IsRun(dbs, txs) && n < m < |txs| && txs[n] == SetActive(a, false)
    requires forall k :: n < k < m ==> txs[k] != SetActive(a, true)
    ensures a in dbs[m].accounts && !dbs[m].accounts[a].active
    ensures txs[m].Complete? ==> txs[m].holder != a
    decreases m
  {
    assert Next(dbs[m], txs[m], dbs[m + 1]) && Next(dbs[m - 1], txs[m - 1], dbs[m]);
    if n < m - 1 {
      InactiveAccountIsNotSignedIn(dbs, txs, n, m - 1, a);
      AccountsStay(dbs[m - 1], txs[m - 1], dbs[m], a);
    }
    if txs[m].Complete? { SignInIsExact(dbs[m], txs[m].signIn, txs[m].holder); }
  }

  predicate Stores(tx: Tx, id: ChallengeId) { (tx.Create? || tx.PutPasskey?) && tx.id == id }

  /** Fresh UUIDs: no challenge ID is stored twice. */
  ghost predicate FreshIds(txs: seq<Tx>) {
    forall i, j, id :: 0 <= i < j < |txs| && Stores(txs[i], id) ==> !Stores(txs[j], id)
  }

  // ---- Consumption is final, whatever the clocks say ----

  predicate Gone(db: Db, id: ChallengeId) { id in db.challenges ==> db.challenges[id].consumedAt.Some? }

  lemma GoneStays(db: Db, tx: Tx, db': Db, id: ChallengeId)
    requires Next(db, tx, db') && Gone(db, id) && !Stores(tx, id)
    ensures Gone(db', id)
  {
    if tx.Create? {
      var rows :| IsListing(rows, db.challenges[tx.id := tx.c], tx.c.email.value, tx.c.createdAt)
        && db' == db.(challenges := Consume(db.challenges[tx.id := tx.c], Elements(Excess(rows, tx.maxLive)), tx.c.createdAt));
    }
  }

  lemma {:induction false} GoneForever(dbs: seq<Db>, txs: seq<Tx>, n: nat, m: nat, id: ChallengeId)
    requires IsRun(dbs, txs) && n <= m <= |txs| && Gone(dbs[n], id)
    requires forall k :: n <= k < m ==> !Stores(txs[k], id)
    ensures Gone(dbs[m], id)
    decreases m
  {
    if n < m {
      GoneForever(dbs, txs, n, m - 1, id);
      GoneStays(dbs[m - 1], txs[m - 1], dbs[m], id);
    }
  }

  lemma {:induction false} StoredBefore(dbs: seq<Db>, txs: seq<Tx>, n: nat, id: ChallengeId)
    requires IsRun(dbs, txs) && n <= |txs| && id in dbs[n].challenges
    ensures exists i :: 0 <= i < n && Stores(txs[i], id)
  {
    if n > 0 && !Stores(txs[n - 1], id) {
      OnlyStoringAdds(dbs[n - 1], txs[n - 1], dbs[n], id);
      StoredBefore(dbs, txs, n - 1, id);
    }
  }

  lemma OnlyStoringAdds(db: Db, tx: Tx, db': Db, id: ChallengeId)
    requires Next(db, tx, db') && !Stores(tx, id) && id in db'.challenges
    ensures id in db.challenges
  {
    if tx.Create? { CreatedKeys(db, tx, db'); }
  }

  lemma CreatedKeys(db: Db, tx: Tx, db': Db)
    requires Next(db, tx, db') && tx.Create?
    ensures db'.challenges.Keys == db.challenges.Keys + {tx.id} && db'.accounts == db.accounts
  {}

  function EmailOf(db: Db, id: ChallengeId): Option<Email> {
    if id in db.challenges then db.challenges[id].email else None
  }

  /**
   A completion disables every challenge of its email that is stored then, its
   own included: none of them is ever usable again, at any clock reading.
   */
  lemma CompletionDisablesAll(dbs: seq<Db>, txs: seq<Tx>, n: nat, m: nat, id: ChallengeId)
    requires IsRun(dbs, txs) && FreshIds(txs) && n < m <= |txs| && txs[n].Complete?
    requires id in dbs[n].challenges && dbs[n].challenges[id].purpose == EmailLogin
    requires EmailOf(dbs[n], id) == EmailOf(dbs[n], txs[n].signIn.id)
    ensures Gone(dbs[m], id)
  {
    StoredBefore(dbs, txs, n, id);
    assert Next(dbs[n], txs[n], dbs[n + 1]);
    assert Gone(dbs[n + 1], id);
    GoneForever(dbs, txs, n + 1, m, id);
  }

  /** No challenge is completed twice. */
  lemma CompletesAtMostOnce(dbs: seq<Db>, txs: seq<Tx>, n: nat, m: nat)
    requires IsRun(dbs, txs) && FreshIds(txs) && n < m < |txs| && txs[n].Complete? && txs[m].Complete?
    ensures txs[n].signIn.id != txs[m].signIn.id
  {
    if txs[n].signIn.id == txs[m].signIn.id {
      assert Next(dbs[n], txs[n], dbs[n + 1]) && Next(dbs[m], txs[m], dbs[m + 1]);
      CompletionDisablesAll(dbs, txs, n, m, txs[n].signIn.id);
    }
  }

  /** Each email has at most one account. */
  lemma {:induction false} OneAccountPerEmail(dbs: seq<Db>, txs: seq<Tx>, n: nat, a: AccountId, b: AccountId)
    requires IsRun(dbs, txs) && n <= |txs|
    requires a in dbs[n].accounts && b in dbs[n].accounts && dbs[n].accounts[a].email == dbs[n].accounts[b].email
    ensures a == b
  {
    if n > 0 {
      var db, tx := dbs[n - 1], txs[n - 1];
      assert Next(db, tx, dbs[n]);
      if tx.Create? { CreatedKeys(db, tx, dbs[n]); }
      forall k <- db.accounts ensures k in Holders(db.accounts, db.accounts[k].email) {}
      if a in db.accounts && b in db.accounts {
        OneAccountPerEmail(dbs, txs, n - 1, a, b);
      }
    }
  }

  // ---- The live cap ----

  predicate CreatesFor(tx: Tx, email: Email) { tx.Create? && tx.c.email == Some(email) }

  /** The clock reading of the email's latest creation among the first `n` transactions. */
  function LatestCreation(txs: seq<Tx>, n: nat, email: Email): Option<Time>
    requires n <= |txs|
  {
    if n == 0 then None
    else if CreatesFor(txs[n - 1], email) then Some(txs[n - 1].c.createdAt)
    else LatestCreation(txs, n - 1, email)
  }

  /** After a creation, only the first `maxLive` of the listing are live. */
  lemma CreationCaps(db: Db, tx: Tx, db': Db, now: Time)
    requires Next(db, tx, db') && tx.Create? && tx.c.createdAt <= now
    ensures |LiveIds(db'.challenges, tx.c.email.value, now)| <= tx.maxLive
  {
    var email := tx.c.email.value;
    var rows :| IsListing(rows, db.challenges[tx.id := tx.c], email, tx.c.createdAt)
      && db' == db.(challenges := Consume(db.challenges[tx.id := tx.c], Elements(Excess(rows, tx.maxLive)), tx.c.createdAt));
    var kept := if |rows| <= tx.maxLive then rows else rows[..tx.maxLive];
    assert rows == kept + Excess(rows, tx.maxLive);
    forall id <- LiveIds(db'.challenges, email, now) ensures id in Elements(kept) {
      assert id in LiveIds(db.challenges[tx.id := tx.c], email, tx.c.createdAt);
    }
    SubsetBound(LiveIds(db'.challenges, email, now), Elements(kept));
    ElementsBound(kept);
  }

  /** Other transactions bring no challenge of the email to life. */
  lemma NothingRevives(db: Db, tx: Tx, db': Db, email: Email, now: Time)
    requires Next(db, tx, db') && (tx.Create? ==> tx.c.email != Some(email))
    ensures LiveIds(db'.challenges, email, now) <= LiveIds(db.challenges, email, now)
  {
    if tx.Create? {
      var rows :| IsListing(rows, db.challenges[tx.id := tx.c], tx.c.email.value, tx.c.createdAt)
        && db' == db.(challenges := Consume(db.challenges[tx.id := tx.c], Elements(Excess(rows, tx.maxLive)), tx.c.createdAt));
    }
  }

  /**
   At most `maxLive` challenges of an email are live, at every clock reading not
   before the one of the email's latest creation.
   */
  lemma {:induction false} AtMostMaxLive(dbs: seq<Db>, txs: seq<Tx>, n: nat, email: Email, maxLive: nat, now: Time)
    requires IsRun(dbs, txs) && n <= |txs|
    requires forall i :: 0 <= i < n && CreatesFor(txs[i], email) ==> txs[i].maxLive == maxLive
    requires var latest := LatestCreation(txs, n, email); latest.Some? ==> latest.value <= now
    ensures |LiveIds(dbs[n].challenges, email, now)| <= maxLive
  {
    if n == 0 {
      assert LiveIds(EMPTY.challenges, email, now) == {};
    } else if CreatesFor(txs[n - 1], email) {
      CreationCaps(dbs[n - 1], txs[n - 1], dbs[n], now);
    } else {
      AtMostMaxLive(dbs, txs, n - 1, email, maxLive, now);
      NothingRevives(dbs[n - 1], txs[n - 1], dbs[n], email, now);
      SubsetBound(LiveIds(dbs[n].challenges, email, now), LiveIds(dbs[n - 1].challenges, email, now));
    }
  }

  // ---- The cap holds exactly from the latest creation on ----

  lemma {:induction false} ListingExists(challenges: map<ChallengeId, Challenge>, todo: set<ChallengeId>)
    returns (rows: seq<ChallengeId>)
    requires forall id <- todo :: id in challenges
    ensures (forall id :: id in rows <==> id in todo) && NewestFirstOf(rows, challenges) && |rows| == |todo|
    decreases todo
  {
    rows := [];
    if todo != {} {
      var oldest := OldestOf(challenges, todo);
      rows := ListingExists(challenges, todo - {oldest});
      OlderLast(rows, challenges, oldest);
      rows := rows + [oldest];
    }
  }

  lemma {:induction false} OldestOf(challenges: map<ChallengeId, Challenge>, ids: set<ChallengeId>) returns (id: ChallengeId)
    requires ids != {} && forall id <- ids :: id in challenges
    ensures id in ids && forall k <- ids :: challenges[k].createdAt >= challenges[id].createdAt
    decreases ids
  {
    id :| id in ids;
    if ids != {id} {
      var y := OldestOf(challenges, ids - {id});
      if challenges[y].createdAt < challenges[id].createdAt { id := y; }
    }
  }

  /** While no more than `maxLive` are live, a creation consumes nothing. */
  lemma RoomForOneMore(db: Db, id: ChallengeId, c: Challenge, maxLive: nat)
    requires MayStore(db, id, c, maxLive)
    requires |LiveIds(db.challenges[id := c], c.email.value, c.createdAt)| <= maxLive
    ensures Next(db, Create(id, c, maxLive), db.(challenges := db.challenges[id := c]))
  {
    var inserted := db.challenges[id := c];
    var rows := ListingExists(inserted, LiveIds(inserted, c.email.value, c.createdAt));
    assert IsListing(rows, inserted, c.email.value, c.createdAt);
    assert Consume(inserted, Elements(Excess(rows, maxLive)), c.createdAt) == inserted;
  }

  /** A run of creations for one email with one cap and one lifetime. */
  ghost predicate IsCappedRun(dbs: seq<Db>, txs: seq<Tx>, email: Email, maxLive: nat, lifetime: nat) {
    && IsRun(dbs, txs) && FreshIds(txs)
    && forall i :: 0 <= i < |txs| ==>
         txs[i].Create? && txs[i].maxLive == maxLive && txs[i].c.email == Some(email) && txs[i].c.consumedAt.None?
         && txs[i].c.expiresAt == txs[i].c.createdAt + lifetime
  }

  function Below(k: nat): (ids: set<ChallengeId>)
    ensures |ids| == k && forall i: nat :: i in ids <==> i < k
  {
    if k == 0 then {} else Below(k - 1) + {k - 1}
  }

  /** The challenges 0 to k - 1 of the email, all created at one moment. */
  function Batch(k: nat, c: Challenge): map<ChallengeId, Challenge> { map i | i in Below(k) :: c }

  lemma BatchIsLive(k: nat, c: Challenge, email: Email, at: Time)
    requires IsLive(c, email, at)
    ensures LiveIds(Batch(k, c), email, at) == Below(k)
  {}

  lemma BatchHasRoom(k: nat, c: Challenge, email: Email, maxLive: nat)
    requires k <= maxLive && IsLive(c, email, c.createdAt)
    ensures |LiveIds(Batch(k, c), email, c.createdAt)| <= maxLive
  {
    BatchIsLive(k, c, email, c.createdAt);
  }

  lemma BatchGrows(k: nat, c: Challenge)
    ensures k !in Batch(k, c) && Batch(k, c)[k := c] == Batch(k + 1, c)
  {}

  lemma OneMoreFits(before: map<ChallengeId, Challenge>, after: map<ChallengeId, Challenge>,
                    id: ChallengeId, c: Challenge, maxLive: nat)
    requires MayStore(Db(before, map[], map[]), id, c, maxLive) && after == before[id := c]
    requires |LiveIds(after, c.email.value, c.createdAt)| <= maxLive
    ensures Next(Db(before, map[], map[]), Create(id, c, maxLive), Db(after, map[], map[]))
  {
    RoomForOneMore(Db(before, map[], map[]), id, c, maxLive);
  }

  lemma FillOne(k: nat, c: Challenge, email: Email, maxLive: nat)
    requires k < maxLive && c.email == Some(email) && IsLive(c, email, c.createdAt)
    ensures Next(Db(Batch(k, c), map[], map[]), Create(k, c, maxLive), Db(Batch(k + 1, c), map[], map[]))
  {
    BatchGrows(k, c);
    BatchHasRoom(k + 1, c, email, maxLive);
    OneMoreFits(Batch(k, c), Batch(k + 1, c), k, c, maxLive);
  }

  /** `k` challenges up to the cap, created at one moment, are all stored and stay. */
  lemma {:induction false} FillUp(k: nat, c: Challenge, email: Email, maxLive: nat, lifetime: nat)
    returns (dbs: seq<Db>, txs: seq<Tx>)
    requires k <= maxLive && lifetime > 0
    requires c == Challenge(EmailLogin, Some(email), c.createdAt, c.createdAt + lifetime, 0, None)
    ensures IsCappedRun(dbs, txs, email, maxLive, lifetime) && |txs| == k
    ensures dbs[k] == Db(Batch(k, c), map[], map[])
    ensures forall i :: 0 <= i < k ==> txs[i].id < k
    decreases k
  {
    if k == 0 {
      dbs, txs := [EMPTY], [];
      assert Batch(0, c) == map[];
    } else {
      dbs, txs := FillUp(k - 1, c, email, maxLive, lifetime);
      FillOne(k - 1, c, email, maxLive);
      dbs, txs := Extended(dbs, txs, Create(k - 1, c, maxLive), Db(Batch(k, c), map[], map[]), email, maxLive, lifetime);
    }
  }

  /** One more creation at the end of a run. */
  lemma Extended(dbs: seq<Db>, txs: seq<Tx>, tx: Tx, db: Db, email: Email, maxLive: nat, lifetime: nat)
    returns (dbs': seq<Db>, txs': seq<Tx>)
    requires IsCappedRun(dbs, txs, email, maxLive, lifetime) && Next(dbs[|txs|], tx, db)
    requires tx.Create? && tx.maxLive == maxLive && tx.c.email == Some(email) && tx.c.consumedAt.None?
    requires tx.c.expiresAt == tx.c.createdAt + lifetime
    requires forall i :: 0 <= i < |txs| ==> txs[i].id != tx.id
    ensures dbs' == dbs + [db] && txs' == txs + [tx] && IsCappedRun(dbs', txs', email, maxLive, lifetime)
  {
    dbs', txs' := dbs + [db], txs + [tx];
    forall i | 0 <= i < |txs'| ensures Next(dbs'[i], txs'[i], dbs'[i + 1]) {
      if i < |txs| { assert Next(dbs[i], txs[i], dbs[i + 1]); }
    }
  }

  /**
   At every reading before the latest creation the cap can be passed: `maxLive`
   challenges that have expired when one more is created are, with that one, all
   live at the earlier reading.
   */
  lemma EarlierClockSeesMore(email: Email, maxLive: nat, lifetime: nat, latest: Time, now: Time)
    returns (dbs: seq<Db>, txs: seq<Tx>)
    requires maxLive > 0 && lifetime > 0 && now < latest
    ensures IsCappedRun(dbs, txs, email, maxLive, lifetime) && LatestCreation(txs, |txs|, email) == Some(latest)
    ensures |LiveIds(dbs[|txs|].challenges, email, now)| == maxLive + 1
  {
    var expired := Challenge(EmailLogin, Some(email), now + 1 - lifetime, now + 1, 0, None);
    var last := Challenge(EmailLogin, Some(email), latest, latest + lifetime, 0, None);
    dbs, txs := FillUp(maxLive, expired, email, maxLive, lifetime);
    var before, after := dbs[maxLive].challenges, dbs[maxLive].challenges[maxLive := last];
    assert LiveIds(after, email, latest) == {maxLive};
    RoomForOneMore(dbs[maxLive], maxLive, last, maxLive);
    dbs, txs := Extended(dbs, txs, Create(maxLive, last, maxLive), Db(after, map[], map[]), email, maxLive, lifetime);
    BatchIsLive(maxLive, expired, email, now);
    assert LiveIds(after, email, now) == LiveIds(before, email, now) + {maxLive};
  }

  /** The cap holds at reading `now` after every such run whose latest creation was at `latest`. */
  ghost predicate CapHolds(email: Email, maxLive: nat, lifetime: nat, latest: Time, now: Time) {
    forall dbs: seq<Db>, txs: seq<Tx> | IsCappedRun(dbs, txs, email, maxLive, lifetime) ::
      LatestCreation(txs, |txs|, email) == Some(latest) ==> |LiveIds(dbs[|txs|].challenges, email, now)| <= maxLive
  }

  /** The cap holds at exactly the clock readings not before the latest creation. */
  lemma CapHoldsFromLatestCreation(email: Email, maxLive: nat, lifetime: nat, latest: Time, now: Time)
    requires maxLive > 0 && lifetime > 0
    ensures CapHolds(email, maxLive, lifetime, latest, now) <==> latest <= now
  {
    if latest <= now {
      forall dbs: seq<Db>, txs: seq<Tx>
        | IsCappedRun(dbs, txs, email, maxLive, lifetime) && LatestCreation(txs, |txs|, email) == Some(latest)
        ensures |LiveIds(dbs[|txs|].challenges, email, now)| <= maxLive
      {
        AtMostMaxLive(dbs, txs, |txs|, email, maxLive, now);
      }
    } else {
      var dbs, txs := EarlierClockSeesMore(email, maxLive, lifetime, latest, now);
    }
  }

  /** A challenge newer than every live one of its email is live once it is stored. */
  lemma NewestSurvives(db: Db, tx: Tx, db': Db)
    requires Next(db, tx, db') && tx.Create? && tx.c.consumedAt.None? && tx.c.expiresAt > tx.c.createdAt
    requires forall id <- LiveIds(db.challenges, tx.c.email.value, tx.c.createdAt) ::
      db.challenges[id].createdAt < tx.c.createdAt
    ensures tx.id in LiveIds(db'.challenges, tx.c.email.value, tx.c.createdAt)
  {
    var inserted := db.challenges[tx.id := tx.c];
    var rows :| IsListing(rows, inserted, tx.c.email.value, tx.c.createdAt)
      && db' == db.(challenges := Consume(inserted, Elements(Excess(rows, tx.maxLive)), tx.c.createdAt));
    assert tx.id in LiveIds(inserted, tx.c.email.value, tx.c.createdAt);
    forall r <- rows | r != tx.id ensures r in inserted && inserted[r].createdAt < tx.c.createdAt {
      assert r in LiveIds(inserted, tx.c.email.value, tx.c.createdAt);
      assert r in LiveIds(db.challenges, tx.c.email.value, tx.c.createdAt);
    }
    NewestIsFirst(rows, inserted, tx.id);
    assert tx.id !in Excess(rows, tx.maxLive);
  }

  lemma NewestIsFirst(rows: seq<ChallengeId>, challenges: map<ChallengeId, Challenge>, id: ChallengeId)
    requires NewestFirstOf(rows, challenges) && id in rows && id in challenges
    requires forall r <- rows :: r in challenges && (r != id ==> challenges[r].createdAt < challenges[id].createdAt)
    ensures rows[0] == id && id !in rows[1..]
  {
    var j :| 0 <= j < |rows| && rows[j] == id;
  }
}
