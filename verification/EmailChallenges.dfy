/**
 Email sign-in challenges in DynamoDB. Each email has a tracker item: a version
 and the IDs of its live challenges. Creating and completing a challenge read
 items one by one, then write one transaction conditional on the version read;
 calls of different processes interleave between any two requests.
 */
module EmailChallenges {

  import opened Sets
  import opened Wrappers

  type ChallengeId = nat
  type AccountId = nat
  type Email = string
  type Proc = nat
  type Time = int

  datatype Purpose = EmailLogin | Passkey

  datatype Challenge = Challenge(purpose: Purpose, email: Email, attempts: nat, expiresAt: Time, consumed: bool)

  datatype Tracker = Tracker(version: nat, ids: seq<ChallengeId>)

  datatype Account = Account(email: Email, active: bool)

  /** A call in progress, with what it has read. */
  datatype Call =
    | Drafted(id: ChallengeId, email: Email, expiresAt: Time)
    | Creating(id: ChallengeId, email: Email, expiresAt: Time, tracker: Option<Tracker>)
    | Opened(id: ChallengeId, now: Time, maxAttempts: nat, newAccount: AccountId)
    | Checked(id: ChallengeId, now: Time, maxAttempts: nat, newAccount: AccountId, email: Email)
    | Tracked(id: ChallengeId, now: Time, maxAttempts: nat, newAccount: AccountId, email: Email, tracker: Option<Tracker>)
    | Ready(id: ChallengeId, now: Time, maxAttempts: nat, newAccount: AccountId, email: Email, tracker: Option<Tracker>,
            existing: Option<AccountId>)

  /**
   The table, the calls in progress, every challenge ID ever drawn, the completions
   in order, and the account each of them signed in to.
   */
  datatype Table = Table(
    challenges: map<ChallengeId, Challenge>,
    trackers: map<Email, Tracker>,
    accounts: map<AccountId, Account>,
    aliases: map<Email, AccountId>,
    calls: map<Proc, Call>,
    drawn: set<ChallengeId>,
    completed: seq<ChallengeId>,
    signIns: map<ChallengeId, AccountId>)

  const NEW := Table(map[], map[], map[], map[], map[], {}, [], map[])

  datatype Step =
    | Draft(p: Proc, id: ChallengeId, email: Email, expiresAt: Time)
    | ReadForCreate(p: Proc)
    | WriteCreate(p: Proc)
    | Open(p: Proc, id: ChallengeId, now: Time, maxAttempts: nat, newAccount: AccountId)
    | ReadChallenge(p: Proc)
    | ReadTracker(p: Proc)
    | ReadAccount(p: Proc)
    | WriteComplete(p: Proc)
    | RecordFailure(id: ChallengeId, now: Time, maxAttempts: nat)
    | PutPasskeyChallenge(id: ChallengeId, expiresAt: Time)
    | ConsumePasskeyChallenge(id: ChallengeId)
    | ExpireItem(id: ChallengeId)                       // the table's own deletion of old items
    | PutAccount(id: AccountId, email: Email)
    | SetActive(id: AccountId, active: bool)
    | Abandon(p: Proc)

  /** UUIDs are fresh: an ID drawn for a challenge was never drawn before. */
  predicate Possible(t: Table, s: Step) {
    match s
    case Draft(_, id, _, _) => id !in t.drawn
    case PutPasskeyChallenge(id, _) => id !in t.drawn
    case _ => true
  }

  // ---- What each request does ----

  function Lookup(t: Table, email: Email): Option<Tracker> {
    if email in t.trackers then Some(t.trackers[email]) else None
  }

  /** The condition on the tracker: the version read is still stored, or there is still no tracker. */
  predicate Unchanged(t: Table, email: Email, read: Option<Tracker>) {
    match read
    case Some(tracker) => email in t.trackers && t.trackers[email].version == tracker.version
    case None => email !in t.trackers
  }

  function Version(read: Option<Tracker>): nat { if read.Some? then read.value.version else 0 }

  function Without(ids: seq<ChallengeId>, id: ChallengeId): seq<ChallengeId> {
    if ids == [] then [] else
    var rest := Without(ids[1..], id);
    if ids[0] == id then rest else [ids[0]] + rest
  }

  /** The tracker list with a new challenge in front. */
  function Listed(read: Option<Tracker>, id: ChallengeId): seq<ChallengeId> {
    [id] + Without(if read.Some? then read.value.ids else [], id) // retain, then insert at 0
  }

  function Min(a: nat, b: nat): nat { if a <= b then a else b }

  /** Store the challenge, keep the newest `maxLive` in the tracker, delete the rest. */
  function Created(t: Table, c: Call, maxLive: nat): Table
    requires c.Creating?
  {
    var ids := Listed(c.tracker, c.id);
    var n := Min(|ids|, maxLive);
    t.(challenges := (t.challenges - (set id <- ids[n..]))[c.id := Challenge(EmailLogin, c.email, 0, c.expiresAt, false)],
       trackers := t.trackers[c.email := Tracker(Version(c.tracker) + 1, ids[..n])])
  }

  predicate Usable(c: Challenge, now: Time, maxAttempts: nat) {
    c.purpose == EmailLogin && !c.consumed && c.expiresAt > now && c.attempts < maxAttempts
  }

  /** Every condition of the completion transaction. */
  predicate MayComplete(t: Table, c: Call)
    requires c.Ready?
  {
    && c.id in t.challenges && Usable(t.challenges[c.id], c.now, c.maxAttempts)
    && Unchanged(t, c.email, c.tracker)
    && match c.existing {
         case None => c.newAccount !in t.accounts && c.email !in t.aliases
         case Some(a) => a in t.accounts && t.accounts[a].active
       }
  }

  /** The IDs the completion deletes: everything listed in the tracker it read, but not itself. */
  function Siblings(c: Call): set<ChallengeId>
    requires c.Ready?
  {
    var ids := if c.tracker.Some? then c.tracker.value.ids else [];
    set id | id in ids && id != c.id
  }

  /** Consume the challenge, delete its siblings, empty the tracker, create the account if there is none. */
  function Completed(t: Table, c: Call): Table
    requires c.Ready? && c.id in t.challenges
  {
    var consumed := t.challenges[c.id].(consumed := true);
    var t' := t.(challenges := (t.challenges - Siblings(c))[c.id := consumed],
                 trackers := t.trackers[c.email := Tracker(Version(c.tracker) + 1, [])],
                 completed := t.completed + [c.id],
                 signIns := t.signIns[c.id := if c.existing.Some? then c.existing.value else c.newAccount]);
    if c.existing.None? then PutNewAccount(t', c.newAccount, c.email) else t'
  }

  function PutNewAccount(t: Table, id: AccountId, email: Email): Table {
    t.(accounts := t.accounts[id := Account(email, true)], aliases := t.aliases[email := id])
  }

  function SetCall(t: Table, p: Proc, c: Call): Table { t.(calls := t.calls[p := c]) }

  function Drop(t: Table, p: Proc): Table { t.(calls := t.calls - {p}) }

  function FindAccount(t: Table, email: Email): Option<AccountId> {
    if email in t.aliases && t.aliases[email] in t.accounts then Some(t.aliases[email]) else None
  }

  /** One request. Steps that do not fit the state change nothing. */
  function Exec(t: Table, s: Step, maxLive: nat): Table {
    match s
    case Draft(p, id, email, expiresAt) => SetCall(t, p, Drafted(id, email, expiresAt)).(drawn := t.drawn + {id})
    case ReadForCreate(p) =>
      if p in t.calls && (t.calls[p].Drafted? || t.calls[p].Creating?)
      then var c := t.calls[p]; SetCall(t, p, Creating(c.id, c.email, c.expiresAt, Lookup(t, c.email))) else t
    case WriteCreate(p) =>
      if p in t.calls && t.calls[p].Creating? && t.calls[p].id !in t.challenges
         && Unchanged(t, t.calls[p].email, t.calls[p].tracker)
      then Drop(Created(t, t.calls[p], maxLive), p) else t // canceled: read again or give up
    case Open(p, id, now, maxAttempts, newAccount) => SetCall(t, p, Opened(id, now, maxAttempts, newAccount))
    case ReadChallenge(p) =>
      if p in t.calls && (t.calls[p].Opened? || t.calls[p].Ready?) then
        var c := t.calls[p];
        if c.id in t.challenges && Usable(t.challenges[c.id], c.now, c.maxAttempts)
        then SetCall(t, p, Checked(c.id, c.now, c.maxAttempts, c.newAccount, t.challenges[c.id].email))
        else Drop(t, p)
      else t
    case ReadTracker(p) =>
      if p in t.calls && t.calls[p].Checked? then
        var c := t.calls[p];
        SetCall(t, p, Tracked(c.id, c.now, c.maxAttempts, c.newAccount, c.email, Lookup(t, c.email)))
      else t
    case ReadAccount(p) =>
      if p in t.calls && t.calls[p].Tracked? then
        var c := t.calls[p];
        var existing := FindAccount(t, c.email);
        if existing.Some? && !t.accounts[existing.value].active then Drop(t, p)
        else SetCall(t, p, Ready(c.id, c.now, c.maxAttempts, c.newAccount, c.email, c.tracker, existing))
      else t
    case WriteComplete(p) =>
      if p in t.calls && t.calls[p].Ready? && MayComplete(t, t.calls[p])
      then Drop(Completed(t, t.calls[p]), p) else t // canceled: start over from the challenge
    case RecordFailure(id, now, maxAttempts) =>
      if id in t.challenges && !t.challenges[id].consumed && t.challenges[id].expiresAt > now
         && t.challenges[id].attempts < maxAttempts
      then t.(challenges := t.challenges[id := t.challenges[id].(attempts := t.challenges[id].attempts + 1)]) else t
    case PutPasskeyChallenge(id, expiresAt) =>
      t.(challenges := t.challenges[id := Challenge(Passkey, "", 0, expiresAt, false)], drawn := t.drawn + {id})
    case ConsumePasskeyChallenge(id) =>
      if id in t.challenges && t.challenges[id].purpose == Passkey
      then t.(challenges := t.challenges[id := t.challenges[id].(consumed := true)]) else t
    case ExpireItem(id) => t.(challenges := t.challenges - {id})
    case PutAccount(id, email) =>
      if id !in t.accounts && email !in t.aliases then PutNewAccount(t, id, email) else t
    case SetActive(id, active) =>
      if id in t.accounts then t.(accounts := t.accounts[id := t.accounts[id].(active := active)]) else t
    case Abandon(p) => Drop(t, p)
  }

  // ---- Invariants ----

  /** A challenge that could still be completed, whatever the clock says. */
  predicate Live(t: Table, id: ChallengeId) {
    id in t.challenges && t.challenges[id].purpose == EmailLogin && !t.challenges[id].consumed
  }

  predicate ListedIn(t: Table, id: ChallengeId, email: Email) { email in t.trackers && id in t.trackers[email].ids }

  ghost predicate NoDuplicates(ids: seq<ChallengeId>) {
    forall i, j :: 0 <= i < j < |ids| ==> ids[i] != ids[j]
  }

  /** Each unconsumed email challenge is listed in its email's tracker. */
  ghost predicate AllListed(t: Table) {
    forall id <- t.challenges :: Live(t, id) ==> ListedIn(t, id, t.challenges[id].email)
  }

  ghost predicate TrackersBounded(t: Table, maxLive: nat) {
    forall e <- t.trackers :: |t.trackers[e].ids| <= maxLive && forall id <- t.trackers[e].ids :: id in t.drawn
  }

  /** A tracker read at some version still says what the table says, as long as the version matches. */
  predicate ReadOk(t: Table, email: Email, read: Option<Tracker>) {
    read.Some? ==>
      && email in t.trackers && read.value.version <= t.trackers[email].version
      && (read.value.version == t.trackers[email].version ==> read.value.ids == t.trackers[email].ids)
  }

  /** The ID was drawn and no call is about to store it. */
  predicate Placed(t: Table, id: ChallengeId) {
    id in t.drawn && forall p <- t.calls :: Pending(t.calls[p]) ==> t.calls[p].id != id
  }

  predicate CallOk(t: Table, c: Call) {
    match c
    case Drafted(id, _, _) => id in t.drawn && id !in t.challenges
    case Creating(id, email, _, tracker) => id in t.drawn && id !in t.challenges && ReadOk(t, email, tracker)
    case Opened(_, _, _, _) => true
    case Checked(id, _, _, _, email) => EmailOk(t, id, email)
    case Tracked(id, _, _, _, email, tracker) => EmailOk(t, id, email) && ReadOk(t, email, tracker)
    case Ready(id, _, _, _, email, tracker, _) => EmailOk(t, id, email) && ReadOk(t, email, tracker)
  }

  predicate EmailOk(t: Table, id: ChallengeId, email: Email) {
    Placed(t, id) && (id in t.challenges ==> t.challenges[id].email == email)
  }

  predicate Pending(c: Call) { c.Drafted? || c.Creating? }

  ghost predicate CallsOk(t: Table) {
    && (forall p <- t.calls :: CallOk(t, t.calls[p]))
    && (forall p, q :: p in t.calls && q in t.calls && p != q && Pending(t.calls[p]) && Pending(t.calls[q])
          ==> t.calls[p].id != t.calls[q].id)
  }

  ghost predicate AccountsOk(t: Table) {
    forall a <- t.accounts :: t.accounts[a].email in t.aliases && t.aliases[t.accounts[a].email] == a
  }

  /** The challenge can never be completed again. */
  predicate Dead(t: Table, id: ChallengeId) { Placed(t, id) && !Live(t, id) }

  ghost predicate CompletionsOk(t: Table) {
    NoDuplicates(t.completed) && forall id <- t.completed :: Dead(t, id)
  }

  ghost predicate Inv(t: Table, maxLive: nat) {
    && t.challenges.Keys <= t.drawn
    && AllListed(t) && TrackersBounded(t, maxLive) && CallsOk(t) && AccountsOk(t) && CompletionsOk(t)
  }

  // ---- Every step keeps them ----

  lemma {:induction false} WithoutKeeps(ids: seq<ChallengeId>, id: ChallengeId)
    ensures forall x :: x in Without(ids, id) <==> x in ids && x != id
  {
    if ids != [] { WithoutKeeps(ids[1..], id); }
  }

  /** A call that moves on without storing anything. */
  lemma SetCallKeeps(t: Table, p: Proc, c: Call, maxLive: nat)
    requires Inv(t, maxLive) && CallOk(t, c)
    requires Pending(c) ==> p in t.calls && Pending(t.calls[p]) && t.calls[p].id == c.id
    ensures Inv(SetCall(t, p, c), maxLive)
  {
    var t' := SetCall(t, p, c);
    PlacedKeeps(t, t');
    forall q <- t'.calls ensures CallOk(t', t'.calls[q]) {
      if q != p { assert CallOk(t, t.calls[q]); }
    }
  }

  lemma DropKeeps(t: Table, p: Proc, maxLive: nat)
    requires Inv(t, maxLive)
    ensures Inv(Drop(t, p), maxLive)
  {
    PlacedKeeps(t, Drop(t, p));
    forall q <- Drop(t, p).calls ensures CallOk(Drop(t, p), t.calls[q]) {
      assert CallOk(t, t.calls[q]);
    }
  }

  lemma PlacedKeeps(t: Table, t': Table)
    requires t.drawn <= t'.drawn
    requires forall p <- t'.calls :: Pending(t'.calls[p]) ==>
      t'.calls[p].id !in t.drawn || (exists q <- t.calls :: Pending(t.calls[q]) && t.calls[q].id == t'.calls[p].id)
    ensures forall id :: Placed(t, id) ==> Placed(t', id)
  {}

  lemma DraftKeeps(t: Table, p: Proc, id: ChallengeId, email: Email, expiresAt: Time, maxLive: nat)
    requires Inv(t, maxLive) && id !in t.drawn
    ensures Inv(Exec(t, Draft(p, id, email, expiresAt), maxLive), maxLive)
  {
    var t' := Exec(t, Draft(p, id, email, expiresAt), maxLive);
    PlacedKeeps(t, t');
    forall q <- t'.calls ensures CallOk(t', t'.calls[q]) {
      if q != p { assert CallOk(t, t.calls[q]); }
    }
  }

  /** Changes that leave every tracker alone and bring no challenge to life. */
  lemma ChallengesKeep(t: Table, t': Table, maxLive: nat)
    requires Inv(t, maxLive)
    requires t' == t.(challenges := t'.challenges, drawn := t'.drawn)
    requires t.drawn <= t'.drawn && t'.challenges.Keys <= t'.drawn
    requires forall id <- t'.challenges :: id in t.challenges || id !in t.drawn
    requires forall id <- t'.challenges :: id in t.challenges ==> t'.challenges[id].email == t.challenges[id].email
    requires forall id :: Live(t', id) ==> Live(t, id)
    ensures Inv(t', maxLive)
  {
    PlacedKeeps(t, t');
    forall q <- t'.calls ensures CallOk(t', t'.calls[q]) {
      assert CallOk(t, t.calls[q]);
    }
  }

  lemma AccountsKeep(t: Table, t': Table, maxLive: nat)
    requires Inv(t, maxLive) && AccountsOk(t')
    requires t' == t.(accounts := t'.accounts, aliases := t'.aliases)
    ensures Inv(t', maxLive)
  {
    PlacedKeeps(t, t');
    forall q <- t'.calls ensures CallOk(t', t'.calls[q]) {
      assert CallOk(t, t.calls[q]);
    }
  }

  /** What a matching version tells a writer: the IDs it read are the IDs stored. */
  lemma VersionMeansSameIds(t: Table, email: Email, read: Option<Tracker>)
    requires ReadOk(t, email, read) && Unchanged(t, email, read)
    ensures read == Lookup(t, email)
  {}

  lemma CreatedListed(t: Table, c: Call, maxLive: nat)
    requires maxLive >= 1 && Inv(t, maxLive) && c.Creating? && CallOk(t, c) && Unchanged(t, c.email, c.tracker)
    ensures AllListed(Created(t, c, maxLive)) && TrackersBounded(Created(t, c, maxLive), maxLive)
  {
    var t' := Created(t, c, maxLive);
    var ids := Listed(c.tracker, c.id);
    var n := Min(|ids|, maxLive);
    VersionMeansSameIds(t, c.email, c.tracker);
    WithoutKeeps(if c.tracker.Some? then c.tracker.value.ids else [], c.id);
    forall id <- t'.challenges | Live(t', id) ensures ListedIn(t', id, t'.challenges[id].email) {
      if id == c.id {
        assert ids[..n][0] == id;
      } else {
        assert Live(t, id) && ListedIn(t, id, t.challenges[id].email);
        if t.challenges[id].email == c.email {
          assert id in ids && id !in ids[n..];
          assert ids == ids[..n] + ids[n..];
        }
      }
    }
    forall id <- ids[..n] ensures id in t'.drawn { assert id in ids; }
  }

  lemma CreatedKeeps(t: Table, p: Proc, maxLive: nat)
    requires maxLive >= 1 && Inv(t, maxLive) && p in t.calls && t.calls[p].Creating?
    requires Unchanged(t, t.calls[p].email, t.calls[p].tracker)
    ensures Inv(Drop(Created(t, t.calls[p], maxLive), p), maxLive)
  {
    var c := t.calls[p];
    assert CallOk(t, c);
    CreatedListed(t, c, maxLive);
    VersionMeansSameIds(t, c.email, c.tracker);
    var t' := Drop(Created(t, c, maxLive), p);
    PlacedKeeps(t, t');
    forall q <- t'.calls ensures CallOk(t', t'.calls[q]) {
      assert CallOk(t, t.calls[q]);
    }
    forall id <- t'.completed ensures Dead(t', id) {
      assert Dead(t, id) && id != c.id;
    }
  }

  lemma CompletedListed(t: Table, c: Call, maxLive: nat)
    requires Inv(t, maxLive) && c.Ready? && CallOk(t, c) && MayComplete(t, c)
    ensures AllListed(Completed(t, c)) && TrackersBounded(Completed(t, c), maxLive)
    ensures forall id :: Live(Completed(t, c), id) ==> Live(t, id) && t.challenges[id].email != c.email
  {
    var t' := Completed(t, c);
    VersionMeansSameIds(t, c.email, c.tracker);
    forall id | Live(t', id) ensures Live(t, id) && t.challenges[id].email != c.email {
      assert id != c.id && Live(t, id) && ListedIn(t, id, t.challenges[id].email);
    }
  }

  lemma CompletedKeeps(t: Table, p: Proc, maxLive: nat)
    requires Inv(t, maxLive) && p in t.calls && t.calls[p].Ready? && MayComplete(t, t.calls[p])
    ensures Inv(Drop(Completed(t, t.calls[p]), p), maxLive)
  {
    var c := t.calls[p];
    assert CallOk(t, c);
    CompletedListed(t, c, maxLive);
    VersionMeansSameIds(t, c.email, c.tracker);
    var t' := Drop(Completed(t, c), p);
    PlacedKeeps(t, t');
    forall q <- t'.calls ensures CallOk(t', t'.calls[q]) {
      assert CallOk(t, t.calls[q]);
    }
    assert Live(t, c.id) && c.id !in t.completed;
    forall id <- t'.completed ensures Dead(t', id) {
      assert id in t.completed || id == c.id;
    }
  }

  /** A read that goes on stores a call that still agrees with the table. */
  lemma ReadCallOk(t: Table, s: Step, maxLive: nat)
    requires Inv(t, maxLive)
    requires s.ReadForCreate? || s.ReadChallenge? || s.ReadTracker? || s.ReadAccount? || s.Open? || s.Abandon?
    requires Exec(t, s, maxLive) != t && Exec(t, s, maxLive) != Drop(t, s.p)
    ensures s.p in Exec(t, s, maxLive).calls
    ensures var c := Exec(t, s, maxLive).calls[s.p];
      && Exec(t, s, maxLive) == SetCall(t, s.p, c) && CallOk(t, c)
      && (Pending(c) ==> s.p in t.calls && Pending(t.calls[s.p]) && t.calls[s.p].id == c.id)
  {
    if s.p in t.calls { assert CallOk(t, t.calls[s.p]); }
    if s.ReadChallenge? {
      forall q <- t.calls | Pending(t.calls[q]) ensures t.calls[q].id != t.calls[s.p].id { assert CallOk(t, t.calls[q]); }
    }
  }

  lemma ReadKeeps(t: Table, s: Step, maxLive: nat)
    requires Inv(t, maxLive)
    requires s.ReadForCreate? || s.ReadChallenge? || s.ReadTracker? || s.ReadAccount? || s.Open? || s.Abandon?
    ensures Inv(Exec(t, s, maxLive), maxLive)
  {
    DropKeeps(t, s.p, maxLive);
    var t' := Exec(t, s, maxLive);
    if t' != t && t' != Drop(t, s.p) {
      ReadCallOk(t, s, maxLive);
      SetCallKeeps(t, s.p, t'.calls[s.p], maxLive);
    }
  }

  /** An item updated in place, keeping its email and purpose and never losing its consumption. */
  lemma UpdateKeeps(t: Table, id: ChallengeId, c: Challenge, maxLive: nat)
    requires Inv(t, maxLive) && id in t.challenges
    requires c.email == t.challenges[id].email && c.purpose == t.challenges[id].purpose
    requires t.challenges[id].consumed ==> c.consumed
    ensures Inv(t.(challenges := t.challenges[id := c]), maxLive)
  {
    ChallengesKeep(t, t.(challenges := t.challenges[id := c]), maxLive);
  }

  lemma FailureKeeps(t: Table, id: ChallengeId, now: Time, maxAttempts: nat, maxLive: nat)
    requires Inv(t, maxLive)
    ensures Inv(Exec(t, RecordFailure(id, now, maxAttempts), maxLive), maxLive)
  {
    if id in t.challenges {
      UpdateKeeps(t, id, t.challenges[id].(attempts := t.challenges[id].attempts + 1), maxLive);
    }
  }

  lemma PasskeyKeeps(t: Table, s: Step, maxLive: nat)
    requires Inv(t, maxLive) && Possible(t, s)
    requires s.PutPasskeyChallenge? || s.ConsumePasskeyChallenge?
    ensures Inv(Exec(t, s, maxLive), maxLive)
  {
    if s.PutPasskeyChallenge? {
      ChallengesKeep(t, Exec(t, s, maxLive), maxLive);
    } else if s.id in t.challenges {
      UpdateKeeps(t, s.id, t.challenges[s.id].(consumed := true), maxLive);
    }
  }

  lemma ExpiryKeeps(t: Table, id: ChallengeId, maxLive: nat)
    requires Inv(t, maxLive)
    ensures Inv(Exec(t, ExpireItem(id), maxLive), maxLive)
  {
    ChallengesKeep(t, Exec(t, ExpireItem(id), maxLive), maxLive);
  }

  lemma AccountKeeps(t: Table, s: Step, maxLive: nat)
    requires Inv(t, maxLive) && (s.PutAccount? || s.SetActive?)
    ensures Inv(Exec(t, s, maxLive), maxLive)
  {
    AccountsKeep(t, Exec(t, s, maxLive), maxLive);
  }

  lemma StepKeepsInv(t: Table, s: Step, maxLive: nat)
    requires maxLive >= 1 && Inv(t, maxLive) && Possible(t, s)
    ensures Inv(Exec(t, s, maxLive), maxLive)
  {
    if s.Draft? {
      DraftKeeps(t, s.p, s.id, s.email, s.expiresAt, maxLive);
    } else if s.WriteCreate? {
      if Exec(t, s, maxLive) != t { CreatedKeeps(t, s.p, maxLive); }
    } else if s.WriteComplete? {
      if Exec(t, s, maxLive) != t { CompletedKeeps(t, s.p, maxLive); }
    } else if s.RecordFailure? {
      FailureKeeps(t, s.id, s.now, s.maxAttempts, maxLive);
    } else if s.PutPasskeyChallenge? || s.ConsumePasskeyChallenge? {
      PasskeyKeeps(t, s, maxLive);
    } else if s.ExpireItem? {
      ExpiryKeeps(t, s.id, maxLive);
    } else if s.PutAccount? || s.SetActive? {
      AccountKeeps(t, s, maxLive);
    } else {
      ReadKeeps(t, s, maxLive);
    }
  }

  // ---- Whole traces ----

  function Run(ss: seq<Step>, maxLive: nat): Table {
    if ss == [] then NEW else Exec(Run(ss[..|ss| - 1], maxLive), ss[|ss| - 1], maxLive)
  }

  predicate IsTrace(ss: seq<Step>, maxLive: nat) {
    ss != [] ==> IsTrace(ss[..|ss| - 1], maxLive) && Possible(Run(ss[..|ss| - 1], maxLive), ss[|ss| - 1])
  }

  lemma {:induction false} TraceKeepsInv(ss: seq<Step>, maxLive: nat)
    requires maxLive >= 1 && IsTrace(ss, maxLive)
    ensures Inv(Run(ss, maxLive), maxLive)
  {
    if ss != [] {
      TraceKeepsInv(ss[..|ss| - 1], maxLive);
      StepKeepsInv(Run(ss[..|ss| - 1], maxLive), ss[|ss| - 1], maxLive);
    }
  }

  function LiveFor(t: Table, email: Email): set<ChallengeId> {
    set id | id in t.challenges && Live(t, id) && t.challenges[id].email == email
  }

  /** Under every interleaving at most `maxLive` challenges of an email can still be completed. */
  lemma AtMostMaxLiveUsable(ss: seq<Step>, maxLive: nat, email: Email)
    requires maxLive >= 1 && IsTrace(ss, maxLive)
    ensures |LiveFor(Run(ss, maxLive), email)| <= maxLive
    ensures forall id <- LiveFor(Run(ss, maxLive), email) :: ListedIn(Run(ss, maxLive), id, email)
  {
    var t := Run(ss, maxLive);
    TraceKeepsInv(ss, maxLive);
    if email in t.trackers {
      var ids := t.trackers[email].ids;
      ElementsBound(ids);
      SubsetBound(LiveFor(t, email), Elements(ids));
    } else {
      assert LiveFor(t, email) == {};
    }
  }

  /** Under every interleaving no challenge is completed twice. */
  lemma CompletesAtMostOnce(ss: seq<Step>, maxLive: nat)
    requires maxLive >= 1 && IsTrace(ss, maxLive)
    ensures NoDuplicates(Run(ss, maxLive).completed)
  {
    TraceKeepsInv(ss, maxLive);
  }

  /** Under every interleaving each email has at most one account. */
  lemma OneAccountPerEmail(ss: seq<Step>, maxLive: nat, a: AccountId, b: AccountId)
    requires maxLive >= 1 && IsTrace(ss, maxLive)
    requires var t := Run(ss, maxLive); a in t.accounts && b in t.accounts && t.accounts[a].email == t.accounts[b].email
    ensures a == b
  {
    TraceKeepsInv(ss, maxLive);
  }

  lemma DeadStaysDead(t: Table, s: Step, maxLive: nat, id: ChallengeId)
    requires Possible(t, s) && Dead(t, id)
    ensures Dead(Exec(t, s, maxLive), id)
  {
    PlacedStays(t, s, maxLive, id);
    if Live(Exec(t, s, maxLive), id) { OnlyCreationRevives(t, s, maxLive, id); }
  }

  lemma PlacedStays(t: Table, s: Step, maxLive: nat, id: ChallengeId)
    requires Possible(t, s) && Placed(t, id)
    ensures Placed(Exec(t, s, maxLive), id)
  {}

  lemma OnlyCreationRevives(t: Table, s: Step, maxLive: nat, id: ChallengeId)
    requires Possible(t, s) && Placed(t, id) && Live(Exec(t, s, maxLive), id)
    ensures Live(t, id)
  {}

  lemma {:induction false} DeadForever(ss: seq<Step>, maxLive: nat, n: nat, id: ChallengeId)
    requires maxLive >= 1 && IsTrace(ss, maxLive) && n <= |ss| && Dead(Run(ss[..n], maxLive), id)
    ensures Dead(Run(ss, maxLive), id)
    decreases |ss|
  {
    if n == |ss| {
      assert ss[..n] == ss;
    } else {
      var before := ss[..|ss| - 1];
      assert before[..n] == ss[..n];
      DeadForever(before, maxLive, n, id);
      DeadStaysDead(Run(before, maxLive), ss[|ss| - 1], maxLive, id);
    }
  }

  lemma StoredIsPlaced(t: Table, maxLive: nat, id: ChallengeId)
    requires Inv(t, maxLive) && id in t.challenges
    ensures Placed(t, id)
  {
    forall q <- t.calls | Pending(t.calls[q]) ensures t.calls[q].id != id { assert CallOk(t, t.calls[q]); }
  }

  /** A completion leaves every stored challenge of its email dead. */
  lemma CompletionKills(t: Table, p: Proc, maxLive: nat, id: ChallengeId)
    requires Inv(t, maxLive) && p in t.calls && t.calls[p].Ready? && MayComplete(t, t.calls[p])
    requires id in t.challenges && t.challenges[id].email == t.calls[p].email && t.challenges[id].purpose == EmailLogin
    ensures Dead(Exec(t, WriteComplete(p), maxLive), id)
  {
    var c := t.calls[p];
    assert CallOk(t, c);
    CompletedListed(t, c, maxLive);
    assert Exec(t, WriteComplete(p), maxLive) == Drop(Completed(t, c), p);
    StoredIsPlaced(t, maxLive, id);
    PlacedStays(t, WriteComplete(p), maxLive, id);
  }

  /**
   A completion disables every earlier sibling: once a challenge of an email is
   completed at step `n`, no challenge of that email stored before it is ever
   usable again.
   */
  lemma CompletionDisablesSiblings(ss: seq<Step>, maxLive: nat, n: nat, p: Proc, id: ChallengeId)
    requires maxLive >= 1 && IsTrace(ss, maxLive) && n < |ss| && ss[n] == WriteComplete(p)
    requires var t := Run(ss[..n], maxLive);
      && p in t.calls && t.calls[p].Ready? && MayComplete(t, t.calls[p])
      && id in t.challenges && t.challenges[id].email == t.calls[p].email && t.challenges[id].purpose == EmailLogin
    ensures Dead(Run(ss, maxLive), id)
  {
    TracePrefix(ss, maxLive, n);
    TraceKeepsInv(ss[..n], maxLive);
    CompletionKills(Run(ss[..n], maxLive), p, maxLive, id);
    assert ss[..n + 1][..n] == ss[..n];
    DeadForever(ss, maxLive, n + 1, id);
  }

  lemma {:induction false} TracePrefix(ss: seq<Step>, maxLive: nat, n: nat)
    requires IsTrace(ss, maxLive) && n <= |ss|
    ensures IsTrace(ss[..n], maxLive)
    decreases |ss|
  {
    if n == |ss| {
      assert ss[..n] == ss;
    } else {
      assert ss[..|ss| - 1][..n] == ss[..n];
      TracePrefix(ss[..|ss| - 1], maxLive, n);
    }
  }
}
