/**
 What each email sign-in rests on, told from the stored fields and the steps of
 the trace alone, and what creations and completions do when nothing interrupts.
 */
module EmailSignIns {

  import opened EmailChallenges
  import opened Wrappers

  // ---- Accounts ----

  /** Aliases and accounts name each other, and a call about to complete holds its email's account. */
  ghost predicate AccountsMatch(t: Table) {
    && (forall e <- t.aliases :: t.aliases[e] in t.accounts && t.accounts[t.aliases[e]].email == e)
    && (forall p <- t.calls :: t.calls[p].Ready? && t.calls[p].existing.Some? ==>
          t.calls[p].existing.value in t.accounts && t.accounts[t.calls[p].existing.value].email == t.calls[p].email)
  }

  predicate StoresCall(s: Step) {
    s.Draft? || s.ReadForCreate? || s.Open? || s.ReadChallenge? || s.ReadTracker? || s.ReadAccount?
  }

  lemma BeginningsStoreOneCall(t: Table, s: Step, maxLive: nat, q: Proc)
    requires (s.Draft? || s.ReadForCreate? || s.Open?) && q != s.p
    ensures q in Exec(t, s, maxLive).calls ==> q in t.calls && Exec(t, s, maxLive).calls[q] == t.calls[q]
  {}

  lemma ReadsStoreOneCall(t: Table, s: Step, maxLive: nat, q: Proc)
    requires StoresCall(s) && q != s.p
    ensures q in Exec(t, s, maxLive).calls ==> q in t.calls && Exec(t, s, maxLive).calls[q] == t.calls[q]
  {
    if s.Draft? || s.ReadForCreate? || s.Open? { BeginningsStoreOneCall(t, s, maxLive, q); }
  }

  lemma WritesOnlyDropCalls(t: Table, s: Step, maxLive: nat, q: Proc)
    requires s.WriteCreate? || s.WriteComplete? || s.Abandon?
    ensures q in Exec(t, s, maxLive).calls ==> q in t.calls && Exec(t, s, maxLive).calls[q] == t.calls[q]
  {}

  lemma OthersKeepCalls(t: Table, s: Step, maxLive: nat)
    requires !StoresCall(s) && !s.WriteCreate? && !s.WriteComplete? && !s.Abandon?
    ensures Exec(t, s, maxLive).calls == t.calls
  {}

  /** A step stores at most one call, under its own process. */
  lemma OtherCallsStay(t: Table, s: Step, maxLive: nat, q: Proc)
    requires q in Exec(t, s, maxLive).calls
    ensures (q in t.calls && Exec(t, s, maxLive).calls[q] == t.calls[q]) || (StoresCall(s) && s.p == q)
  {
    if StoresCall(s) {
      if q != s.p { ReadsStoreOneCall(t, s, maxLive, q); }
    } else if s.WriteCreate? || s.WriteComplete? || s.Abandon? {
      WritesOnlyDropCalls(t, s, maxLive, q);
    } else {
      OthersKeepCalls(t, s, maxLive);
    }
  }

  lemma WritesKeepAliases(t: Table, s: Step, maxLive: nat)
    requires AccountsMatch(t) && (s.WriteComplete? || s.PutAccount? || s.SetActive?)
    ensures var t' := Exec(t, s, maxLive);
      && (forall e <- t'.aliases :: t'.aliases[e] in t'.accounts && t'.accounts[t'.aliases[e]].email == e)
      && (forall a <- t.accounts :: a in t'.accounts && t'.accounts[a].email == t.accounts[a].email)
  {}

  lemma ReadsKeepAccounts(t: Table, s: Step, maxLive: nat)
    requires StoresCall(s)
    ensures Exec(t, s, maxLive).aliases == t.aliases && Exec(t, s, maxLive).accounts == t.accounts
  {}

  lemma OthersKeepAccounts(t: Table, s: Step, maxLive: nat)
    requires !s.WriteComplete? && !s.PutAccount? && !s.SetActive?
    ensures Exec(t, s, maxLive).aliases == t.aliases && Exec(t, s, maxLive).accounts == t.accounts
  {
    if StoresCall(s) { ReadsKeepAccounts(t, s, maxLive); }
  }

  lemma AliasesStay(t: Table, s: Step, maxLive: nat)
    requires AccountsMatch(t)
    ensures var t' := Exec(t, s, maxLive);
      && (forall e <- t'.aliases :: t'.aliases[e] in t'.accounts && t'.accounts[t'.aliases[e]].email == e)
      && (forall a <- t.accounts :: a in t'.accounts && t'.accounts[a].email == t.accounts[a].email)
  {
    if s.WriteComplete? || s.PutAccount? || s.SetActive? {
      WritesKeepAliases(t, s, maxLive);
    } else {
      OthersKeepAccounts(t, s, maxLive);
    }
  }

  // ---- Calls ----

  predicate IsCompletion(c: Call) { !c.Drafted? && !c.Creating? }

  /** Step `m` opened the call. */
  predicate OpenedAt(ss: seq<Step>, m: nat, p: Proc, c: Call)
    requires IsCompletion(c)
  {
    m < |ss| && ss[m] == Open(p, c.id, c.now, c.maxAttempts, c.newAccount)
  }

  /** The same call, at whatever point. */
  predicate SameCall(c: Call, d: Call) {
    && IsCompletion(c) && IsCompletion(d)
    && c.id == d.id && c.now == d.now && c.maxAttempts == d.maxAttempts && c.newAccount == d.newAccount
  }

  /** The call a step leaves under its process, from the call before. */
  predicate Follows(t: Table, s: Step, p: Proc, c: Call) {
    match s
    case Draft(_, id, _, _) => Pending(c) && c.id == id
    case Open(_, id, now, maxAttempts, newAccount) => c == Opened(id, now, maxAttempts, newAccount)
    case _ =>
      && p in t.calls
      && (c == t.calls[p] || SameCall(t.calls[p], c) || (Pending(c) && Pending(t.calls[p]) && c.id == t.calls[p].id))
      && (c.Ready? ==> c == t.calls[p] || c.existing == FindAccount(t, c.email))
  }

  lemma AfterDraft(t: Table, p: Proc, id: ChallengeId, email: Email, expiresAt: Time, maxLive: nat)
    ensures Follows(t, Draft(p, id, email, expiresAt), p, Exec(t, Draft(p, id, email, expiresAt), maxLive).calls[p])
  {}

  lemma AfterOpen(t: Table, p: Proc, id: ChallengeId, now: Time, maxAttempts: nat, newAccount: AccountId, maxLive: nat)
    ensures Follows(t, Open(p, id, now, maxAttempts, newAccount), p,
                    Exec(t, Open(p, id, now, maxAttempts, newAccount), maxLive).calls[p])
  {}

  lemma AfterReadForCreate(t: Table, p: Proc, maxLive: nat)
    requires p in Exec(t, ReadForCreate(p), maxLive).calls
    ensures Follows(t, ReadForCreate(p), p, Exec(t, ReadForCreate(p), maxLive).calls[p])
  {}

  lemma AfterReadChallenge(t: Table, p: Proc, maxLive: nat)
    requires p in Exec(t, ReadChallenge(p), maxLive).calls
    ensures Follows(t, ReadChallenge(p), p, Exec(t, ReadChallenge(p), maxLive).calls[p])
  {}

  lemma AfterReadTracker(t: Table, p: Proc, maxLive: nat)
    requires p in Exec(t, ReadTracker(p), maxLive).calls
    ensures Follows(t, ReadTracker(p), p, Exec(t, ReadTracker(p), maxLive).calls[p])
  {}

  lemma AfterReadAccount(t: Table, p: Proc, maxLive: nat)
    requires p in Exec(t, ReadAccount(p), maxLive).calls
    ensures Follows(t, ReadAccount(p), p, Exec(t, ReadAccount(p), maxLive).calls[p])
  {}

  lemma CallFollows(t: Table, s: Step, p: Proc, maxLive: nat)
    requires p in Exec(t, s, maxLive).calls
    ensures (p in t.calls && Exec(t, s, maxLive).calls[p] == t.calls[p])
      || ((s.Draft? || s.Open? || s.ReadForCreate? || s.ReadChallenge? || s.ReadTracker? || s.ReadAccount?) && s.p == p
          && Follows(t, s, p, Exec(t, s, maxLive).calls[p]))
  {
    OtherCallsStay(t, s, maxLive, p);
    match s
    case Draft(_, id, email, expiresAt) => AfterDraft(t, s.p, id, email, expiresAt, maxLive);
    case Open(_, id, now, maxAttempts, newAccount) => AfterOpen(t, s.p, id, now, maxAttempts, newAccount, maxLive);
    case ReadForCreate(_) => if s.p == p { AfterReadForCreate(t, p, maxLive); }
    case ReadChallenge(_) => if s.p == p { AfterReadChallenge(t, p, maxLive); }
    case ReadTracker(_) => if s.p == p { AfterReadTracker(t, p, maxLive); }
    case ReadAccount(_) => if s.p == p { AfterReadAccount(t, p, maxLive); }
    case _ =>
  }

  /** Only the read of the account makes a call ready, with what it found. */
  lemma ReadyOrigin(t: Table, s: Step, maxLive: nat, p: Proc)
    requires p in Exec(t, s, maxLive).calls && Exec(t, s, maxLive).calls[p].Ready?
    ensures (p in t.calls && Exec(t, s, maxLive).calls[p] == t.calls[p])
      || Exec(t, s, maxLive).calls[p].existing == FindAccount(t, Exec(t, s, maxLive).calls[p].email)
  {
    CallFollows(t, s, p, maxLive);
  }

  lemma StepKeepsAccounts(t: Table, s: Step, maxLive: nat)
    requires AccountsMatch(t)
    ensures AccountsMatch(Exec(t, s, maxLive))
  {
    var t' := Exec(t, s, maxLive);
    AliasesStay(t, s, maxLive);
    forall p <- t'.calls | t'.calls[p].Ready? && t'.calls[p].existing.Some?
      ensures t'.calls[p].existing.value in t'.accounts
      ensures t'.accounts[t'.calls[p].existing.value].email == t'.calls[p].email
    {
      ReadyOrigin(t, s, maxLive, p);
    }
  }

  lemma {:induction false} TraceKeepsAccounts(ss: seq<Step>, maxLive: nat)
    ensures AccountsMatch(Run(ss, maxLive))
  {
    if ss != [] {
      TraceKeepsAccounts(ss[..|ss| - 1], maxLive);
      StepKeepsAccounts(Run(ss[..|ss| - 1], maxLive), ss[|ss| - 1], maxLive);
    }
  }

  lemma {:induction false} CallWasOpened(ss: seq<Step>, maxLive: nat, p: Proc) returns (m: nat)
    requires p in Run(ss, maxLive).calls && IsCompletion(Run(ss, maxLive).calls[p])
    ensures OpenedAt(ss, m, p, Run(ss, maxLive).calls[p])
  {
    var n := |ss| - 1;
    var before, c := ss[..n], Run(ss, maxLive).calls[p];
    CallFollows(Run(before, maxLive), ss[n], p, maxLive);
    if ss[n] == Open(p, c.id, c.now, c.maxAttempts, c.newAccount) {
      m := n;
    } else {
      m := CallWasOpened(before, maxLive, p);
    }
  }

  // ---- Failures ----

  /** Wrong codes recorded against a challenge: each while it was unconsumed, unexpired and below the request's limit. */
  function FailureCount(ss: seq<Step>, maxLive: nat, id: ChallengeId): nat {
    if ss == [] then 0 else
    var stored, s := Run(ss[..|ss| - 1], maxLive).challenges, ss[|ss| - 1];
    FailureCount(ss[..|ss| - 1], maxLive, id) + if Records(stored, s, id) then 1 else 0
  }

  /** A stored challenge counts its failures; one not stored yet has none. */
  ghost predicate AttemptsCounted(ss: seq<Step>, maxLive: nat, id: ChallengeId) {
    var t := Run(ss, maxLive);
    && (id in t.challenges ==> t.challenges[id].attempts == FailureCount(ss, maxLive, id))
    && (id !in t.drawn ==> FailureCount(ss, maxLive, id) == 0)
    && (forall p <- t.calls :: Pending(t.calls[p]) && t.calls[p].id == id ==> FailureCount(ss, maxLive, id) == 0)
  }

  /** The step records a failure of the challenge. */
  predicate Records(stored: map<ChallengeId, Challenge>, s: Step, id: ChallengeId) {
    && s.RecordFailure? && s.id == id && id in stored && !stored[id].consumed && s.now < stored[id].expiresAt
    && stored[id].attempts < s.maxAttempts
  }

  lemma AttemptsAfterWrite(t: Table, s: Step, maxLive: nat, id: ChallengeId)
    requires s.WriteCreate? || s.WriteComplete?
    requires id in Exec(t, s, maxLive).challenges
    ensures Exec(t, s, maxLive).challenges[id].attempts == if id in t.challenges then t.challenges[id].attempts else 0
  {}

  lemma AttemptsAfterFailure(t: Table, failed: ChallengeId, now: Time, maxAttempts: nat, maxLive: nat, id: ChallengeId)
    requires id in Exec(t, RecordFailure(failed, now, maxAttempts), maxLive).challenges
    ensures id in t.challenges
    ensures Exec(t, RecordFailure(failed, now, maxAttempts), maxLive).challenges[id].attempts
         == t.challenges[id].attempts + if Records(t.challenges, RecordFailure(failed, now, maxAttempts), id) then 1 else 0
  {}

  /** A challenge is new with no attempts, or keeps its attempts but for a failure recorded. */
  lemma AttemptsAfter(t: Table, s: Step, maxLive: nat, id: ChallengeId)
    requires id in Exec(t, s, maxLive).challenges
    ensures var c := Exec(t, s, maxLive).challenges[id];
      if id in t.challenges && !s.PutPasskeyChallenge?
      then c.attempts == t.challenges[id].attempts + if Records(t.challenges, s, id) then 1 else 0
      else if id in t.challenges && s.id != id then c == t.challenges[id]
      else c.attempts == 0
  {
    if s.WriteCreate? || s.WriteComplete? {
      AttemptsAfterWrite(t, s, maxLive, id);
    } else if s.RecordFailure? {
      AttemptsAfterFailure(t, s.id, s.now, s.maxAttempts, maxLive, id);
    }
  }

  /** A challenge is stored under an ID that was just drawn, or that a call was about to store. */
  lemma StoredFrom(t: Table, s: Step, maxLive: nat, id: ChallengeId)
    requires Possible(t, s) && id in Exec(t, s, maxLive).challenges && id !in t.challenges
    ensures id !in t.drawn || exists p <- t.calls :: Pending(t.calls[p]) && t.calls[p].id == id
  {}

  lemma DrawnStays(t: Table, s: Step, maxLive: nat)
    ensures t.drawn <= Exec(t, s, maxLive).drawn
  {}

  lemma {:induction false} AttemptsAreFailures(ss: seq<Step>, maxLive: nat, id: ChallengeId)
    requires maxLive >= 1 && IsTrace(ss, maxLive)
    ensures AttemptsCounted(ss, maxLive, id)
  {
    if ss != [] {
      var before, s := ss[..|ss| - 1], ss[|ss| - 1];
      var t := Run(before, maxLive);
      AttemptsAreFailures(before, maxLive, id);
      TraceKeepsInv(before, maxLive);
      DrawnStays(t, s, maxLive);
      if id in Run(ss, maxLive).challenges {
        AttemptsAfter(t, s, maxLive, id);
        if id !in t.challenges { StoredFrom(t, s, maxLive, id); }
      }
      forall p <- Run(ss, maxLive).calls | Pending(Run(ss, maxLive).calls[p]) && Run(ss, maxLive).calls[p].id == id
        ensures FailureCount(ss, maxLive, id) == 0
      {
        CallFollows(t, s, p, maxLive);
        if p in t.calls { assert CallOk(t, t.calls[p]); }
      }
    }
  }

  // ---- What a completion rests on ----

  /** A completion consumes a challenge and signs in to an account. */
  lemma CompletionOrigin(t: Table, s: Step, maxLive: nat)
    requires Exec(t, s, maxLive).completed != t.completed
    ensures s.WriteComplete? && s.p in t.calls && t.calls[s.p].Ready? && t.calls[s.p].id in t.challenges
    ensures var t', c := Exec(t, s, maxLive), t.calls[s.p];
      var row := t.challenges[c.id];
      && row.purpose == EmailLogin && !row.consumed && c.now < row.expiresAt && row.attempts < c.maxAttempts
      && t'.completed == t.completed + [c.id]
      && c.id in t'.challenges && t'.challenges[c.id] == row.(consumed := true)
      && c.id in t'.signIns && t'.signIns[c.id] in t'.accounts && t'.accounts[t'.signIns[c.id]].active
      && (c.existing.Some? ==> t'.signIns[c.id] == c.existing.value && t'.accounts == t.accounts)
      && (c.existing.None? ==> t'.accounts[t'.signIns[c.id]].email == c.email)
  {}

  /**
   Every completion was asked for by a call opened before it, with a clock reading
   before the challenge's expiry and a limit above the failures recorded against
   it; it consumes an unconsumed email challenge and signs in to the active account
   of that challenge's email.
   */
  lemma CompletionWasAllowed(ss: seq<Step>, maxLive: nat, n: nat) returns (m: nat)
    requires maxLive >= 1 && IsTrace(ss, maxLive) && n < |ss|
    requires Run(ss[..n + 1], maxLive).completed != Run(ss[..n], maxLive).completed
    ensures m < n && ss[m].Open?
    ensures var t, t', id := Run(ss[..n], maxLive), Run(ss[..n + 1], maxLive), ss[m].id;
      && t'.completed == t.completed + [id]
      && id in t.challenges && t.challenges[id].purpose == EmailLogin && !t.challenges[id].consumed
      && ss[m].now < t.challenges[id].expiresAt && FailureCount(ss[..n], maxLive, id) < ss[m].maxAttempts
      && id in t'.challenges && t'.challenges[id].consumed
      && id in t'.signIns && t'.signIns[id] in t'.accounts
      && t'.accounts[t'.signIns[id]] == Account(t.challenges[id].email, true)
  {
    var before, t := ss[..n], Run(ss[..n], maxLive);
    TracePrefix(ss, maxLive, n);
    assert ss[..n + 1][..n] == before;
    CompletionOrigin(t, ss[n], maxLive);
    var c := t.calls[ss[n].p];
    m := CallWasOpened(before, maxLive, ss[n].p);
    AttemptsAreFailures(before, maxLive, c.id);
    TraceKeepsInv(before, maxLive);
    TraceKeepsAccounts(before, maxLive);
    assert CallOk(t, c);
  }

  // ---- What cannot sign in ----

  lemma WriteCreateConsumesNothing(t: Table, p: Proc, maxLive: nat, id: ChallengeId)
    requires Inv(t, maxLive) && id in t.challenges && id in Exec(t, WriteCreate(p), maxLive).challenges
    ensures Exec(t, WriteCreate(p), maxLive).challenges[id] == t.challenges[id]
  {
    if p in t.calls { assert CallOk(t, t.calls[p]); }
  }

  lemma CompletionConsumesItsOwn(t: Table, p: Proc, maxLive: nat, id: ChallengeId)
    requires id in t.challenges && id in Exec(t, WriteComplete(p), maxLive).challenges && !t.challenges[id].consumed
    ensures var t' := Exec(t, WriteComplete(p), maxLive);
      if t'.completed == t.completed + [id] then t.challenges[id].purpose == EmailLogin && t'.challenges[id].consumed
      else t'.challenges[id] == t.challenges[id]
  {
    if p in t.calls {
      assert (t.completed + [t.calls[p].id])[|t.completed|] == t.calls[p].id;
      assert (t.completed + [id])[|t.completed|] == id;
    }
  }

  lemma OthersConsumeNothing(t: Table, s: Step, maxLive: nat, id: ChallengeId)
    requires Inv(t, maxLive) && Possible(t, s) && id in t.challenges && id in Exec(t, s, maxLive).challenges
    requires !s.WriteCreate? && !s.WriteComplete? && s != ConsumePasskeyChallenge(id)
    ensures Exec(t, s, maxLive).challenges[id].consumed == t.challenges[id].consumed
  {}

  /** Only its completion consumes an email challenge, and only its own use a passkey challenge. */
  lemma OnlyUseConsumes(t: Table, s: Step, maxLive: nat, id: ChallengeId)
    requires Inv(t, maxLive) && Possible(t, s) && id in t.challenges && !t.challenges[id].consumed
    requires id in Exec(t, s, maxLive).challenges
    ensures var used := if t.challenges[id].purpose == EmailLogin
                        then s.WriteComplete? && Exec(t, s, maxLive).completed == t.completed + [id]
                        else s == ConsumePasskeyChallenge(id);
      Exec(t, s, maxLive).challenges[id].consumed == used
  {
    if s.WriteCreate? {
      WriteCreateConsumesNothing(t, s.p, maxLive, id);
    } else if s.WriteComplete? {
      CompletionConsumesItsOwn(t, s.p, maxLive, id);
    } else if s != ConsumePasskeyChallenge(id) {
      OthersConsumeNothing(t, s, maxLive, id);
    }
  }

  lemma DeadIsNotCompleted(t: Table, s: Step, maxLive: nat, id: ChallengeId)
    requires Dead(t, id)
    ensures id in Exec(t, s, maxLive).completed ==> id in t.completed
  {
    if Exec(t, s, maxLive).completed != t.completed { CompletionOrigin(t, s, maxLive); }
  }

  lemma {:induction false} DeadIsNeverCompleted(ss: seq<Step>, maxLive: nat, n: nat, id: ChallengeId)
    requires maxLive >= 1 && IsTrace(ss, maxLive) && n <= |ss| && Dead(Run(ss[..n], maxLive), id)
    ensures id in Run(ss, maxLive).completed ==> id in Run(ss[..n], maxLive).completed
    decreases |ss|
  {
    if n == |ss| {
      assert ss[..n] == ss;
    } else {
      var before := ss[..|ss| - 1];
      assert before[..n] == ss[..n];
      DeadIsNeverCompleted(before, maxLive, n, id);
      DeadForever(before, maxLive, n, id);
      DeadIsNotCompleted(Run(before, maxLive), ss[|ss| - 1], maxLive, id);
    }
  }

  /** A challenge that the table deleted is never completed afterwards, by whatever call is still under way. */
  lemma DeletedIsNeverCompleted(ss: seq<Step>, maxLive: nat, n: nat, id: ChallengeId)
    requires maxLive >= 1 && IsTrace(ss, maxLive) && n < |ss| && ss[n] == ExpireItem(id)
    requires id in Run(ss[..n], maxLive).challenges
    ensures id in Run(ss, maxLive).completed ==> id in Run(ss[..n], maxLive).completed
  {
    assert ss[..n + 1][..n] == ss[..n];
    TracePrefix(ss, maxLive, n);
    TraceKeepsInv(ss[..n], maxLive);
    StoredIsPlaced(Run(ss[..n], maxLive), maxLive, id);
    PlacedStays(Run(ss[..n], maxLive), ss[n], maxLive, id);
    DeadIsNeverCompleted(ss, maxLive, n + 1, id);
  }

  predicate IsInactive(t: Table, a: AccountId) { a in t.accounts && !t.accounts[a].active }

  lemma StaysInactive(t: Table, s: Step, maxLive: nat, a: AccountId)
    requires IsInactive(t, a) && s != SetActive(a, true)
    ensures IsInactive(Exec(t, s, maxLive), a)
  {}

  lemma BecomesInactive(t: Table, maxLive: nat, a: AccountId)
    requires a in t.accounts
    ensures IsInactive(Exec(t, SetActive(a, false), maxLive), a)
  {}

  lemma {:induction false} InactiveFrom(ss: seq<Step>, maxLive: nat, n: nat, a: AccountId)
    requires n <= |ss| && IsInactive(Run(ss[..n], maxLive), a)
    requires forall k :: n <= k < |ss| ==> ss[k] != SetActive(a, true)
    ensures IsInactive(Run(ss, maxLive), a)
    decreases |ss|
  {
    if n == |ss| {
      assert ss[..n] == ss;
    } else {
      var before := ss[..|ss| - 1];
      assert before[..n] == ss[..n];
      InactiveFrom(before, maxLive, n, a);
      StaysInactive(Run(before, maxLive), ss[|ss| - 1], maxLive, a);
    }
  }

  lemma InactiveAfter(ss: seq<Step>, maxLive: nat, n: nat, a: AccountId)
    requires n < |ss| && ss[n] == SetActive(a, false) && a in Run(ss[..n], maxLive).accounts
    requires forall k :: n < k < |ss| ==> ss[k] != SetActive(a, true)
    ensures IsInactive(Run(ss, maxLive), a)
  {
    assert ss[..n + 1][..n] == ss[..n];
    BecomesInactive(Run(ss[..n], maxLive), maxLive, a);
    InactiveFrom(ss, maxLive, n + 1, a);
  }

  lemma CompletionNeedsActive(t: Table, s: Step, maxLive: nat, a: AccountId) returns (id: ChallengeId)
    requires Exec(t, s, maxLive).completed != t.completed && IsInactive(Exec(t, s, maxLive), a)
    ensures var t' := Exec(t, s, maxLive);
      t'.completed == t.completed + [id] && id in t'.signIns && t'.signIns[id] != a
  {
    CompletionOrigin(t, s, maxLive);
    id := t.calls[s.p].id;
  }

  /** No completion signs in to an account between the step that makes it inactive and the next that makes it active. */
  lemma InactiveAccountIsNotSignedIn(ss: seq<Step>, maxLive: nat, n: nat, a: AccountId) returns (id: ChallengeId)
    requires n < |ss| && ss[n] == SetActive(a, false) && a in Run(ss[..n], maxLive).accounts
    requires forall k :: n < k < |ss| ==> ss[k] != SetActive(a, true)
    requires Run(ss, maxLive).completed != Run(ss[..|ss| - 1], maxLive).completed
    ensures var t, t' := Run(ss[..|ss| - 1], maxLive), Run(ss, maxLive);
      t'.completed == t.completed + [id] && id in t'.signIns && t'.signIns[id] != a
  {
    InactiveAfter(ss, maxLive, n, a);
    id := CompletionNeedsActive(Run(ss[..|ss| - 1], maxLive), ss[|ss| - 1], maxLive, a);
  }

  // ---- Undisturbed creations ----

  lemma {:induction false} WithoutNothing(ids: seq<ChallengeId>, id: ChallengeId)
    requires id !in ids
    ensures Without(ids, id) == ids
  {
    if ids != [] { WithoutNothing(ids[1..], id); }
  }

  function TrackedIds(t: Table, email: Email): seq<ChallengeId> {
    if email in t.trackers then t.trackers[email].ids else []
  }

  /**
   A creation that nothing interrupts stores its challenge with no attempts, puts it
   first in the tracker of its email, keeps the newest `maxLive` listed there and
   deletes the others.
   */
  lemma UndisturbedCreation(t: Table, p: Proc, id: ChallengeId, email: Email, expiresAt: Time, maxLive: nat)
    requires maxLive >= 1 && Inv(t, maxLive) && id !in t.drawn
    ensures var listed, t1 := [id] + TrackedIds(t, email), Exec(t, Draft(p, id, email, expiresAt), maxLive);
      var t3 := Exec(Exec(t1, ReadForCreate(p), maxLive), WriteCreate(p), maxLive);
      var n := if |listed| <= maxLive then |listed| else maxLive;
      && email in t3.trackers && t3.trackers[email].ids == listed[..n]
      && t3.challenges == (t.challenges - (set k <- listed[n..]))[id := Challenge(EmailLogin, email, 0, expiresAt, false)]
  {
    var t1 := Exec(t, Draft(p, id, email, expiresAt), maxLive);
    assert t1.calls[p] == Drafted(id, email, expiresAt);
    var t2 := Exec(t1, ReadForCreate(p), maxLive);
    assert t2.calls[p] == Creating(id, email, expiresAt, Lookup(t, email));
    assert id !in t2.challenges && Unchanged(t2, email, Lookup(t, email));
    assert Exec(t2, WriteCreate(p), maxLive) == Drop(Created(t2, t2.calls[p], maxLive), p);
    WithoutNothing(TrackedIds(t, email), id);
    assert Listed(Lookup(t, email), id) == [id] + TrackedIds(t, email);
  }

  // ---- Undisturbed completions ----

  /** The email's account is there and active, or nothing stands in the way of creating it. */
  predicate AccountReady(t: Table, email: Email, newAccount: AccountId) {
    match FindAccount(t, email)
    case Some(a) => t.accounts[a].active
    case None => newAccount !in t.accounts && email !in t.aliases
  }

  /** Every test of a completion, on one state. */
  predicate MaySignIn(t: Table, id: ChallengeId, now: Time, maxAttempts: nat, newAccount: AccountId) {
    && id in t.challenges
    && t.challenges[id].purpose == EmailLogin && !t.challenges[id].consumed
    && now < t.challenges[id].expiresAt && t.challenges[id].attempts < maxAttempts
    && AccountReady(t, t.challenges[id].email, newAccount)
  }

  function AfterReads(t: Table, p: Proc, id: ChallengeId, now: Time, maxAttempts: nat, newAccount: AccountId, maxLive: nat)
    : Table
  {
    var begun := Exec(t, Open(p, id, now, maxAttempts, newAccount), maxLive);
    Exec(Exec(Exec(begun, ReadChallenge(p), maxLive), ReadTracker(p), maxLive), ReadAccount(p), maxLive)
  }

  lemma SetCallTwice(t: Table, p: Proc, c: Call, d: Call)
    ensures SetCall(SetCall(t, p, c), p, d) == SetCall(t, p, d) && Drop(SetCall(t, p, c), p) == Drop(t, p)
  {}

  /** The read of the challenge, with its call just opened. */
  lemma ReadsChallenge(t: Table, p: Proc, c: Call, maxLive: nat)
    requires c.Opened?
    ensures Exec(SetCall(t, p, c), ReadChallenge(p), maxLive)
         == if c.id in t.challenges && Usable(t.challenges[c.id], c.now, c.maxAttempts)
            then SetCall(t, p, Checked(c.id, c.now, c.maxAttempts, c.newAccount, t.challenges[c.id].email))
            else Drop(t, p)
  {
    SetCallTwice(t, p, c, if c.id in t.challenges
                          then Checked(c.id, c.now, c.maxAttempts, c.newAccount, t.challenges[c.id].email) else c);
  }

  lemma ReadsTracker(t: Table, p: Proc, c: Call, maxLive: nat)
    requires c.Checked?
    ensures Exec(SetCall(t, p, c), ReadTracker(p), maxLive)
         == SetCall(t, p, Tracked(c.id, c.now, c.maxAttempts, c.newAccount, c.email, Lookup(t, c.email)))
  {
    SetCallTwice(t, p, c, Tracked(c.id, c.now, c.maxAttempts, c.newAccount, c.email, Lookup(t, c.email)));
  }

  lemma ReadsAccount(t: Table, p: Proc, c: Call, maxLive: nat)
    requires c.Tracked?
    ensures var found := FindAccount(t, c.email);
      Exec(SetCall(t, p, c), ReadAccount(p), maxLive)
        == if found.Some? && !t.accounts[found.value].active then Drop(t, p)
           else SetCall(t, p, Ready(c.id, c.now, c.maxAttempts, c.newAccount, c.email, c.tracker, found))
  {
    SetCallTwice(t, p, c, Ready(c.id, c.now, c.maxAttempts, c.newAccount, c.email, c.tracker, FindAccount(t, c.email)));
  }

  lemma NothingToRead(t: Table, p: Proc, maxLive: nat)
    ensures Exec(Drop(t, p), ReadTracker(p), maxLive) == Exec(Drop(t, p), ReadAccount(p), maxLive) == Drop(t, p)
    ensures Exec(Drop(t, p), WriteComplete(p), maxLive) == Drop(t, p)
  {}

  /** Where the reads lead: to a call that knows its email's tracker and account, or to none. */
  lemma UndisturbedReads(t: Table, p: Proc, id: ChallengeId, now: Time, maxAttempts: nat, newAccount: AccountId, maxLive: nat)
    ensures var t' := AfterReads(t, p, id, now, maxAttempts, newAccount, maxLive);
      if id in t.challenges && Usable(t.challenges[id], now, maxAttempts)
         && (FindAccount(t, t.challenges[id].email).Some? ==> AccountReady(t, t.challenges[id].email, newAccount))
      then
        var email := t.challenges[id].email;
        t' == SetCall(t, p, Ready(id, now, maxAttempts, newAccount, email, Lookup(t, email), FindAccount(t, email)))
      else t' == Drop(t, p)
  {
    NothingToRead(t, p, maxLive);
    ReadsChallenge(t, p, Opened(id, now, maxAttempts, newAccount), maxLive);
    if id in t.challenges && Usable(t.challenges[id], now, maxAttempts) {
      var email := t.challenges[id].email;
      ReadsTracker(t, p, Checked(id, now, maxAttempts, newAccount, email), maxLive);
      ReadsAccount(t, p, Tracked(id, now, maxAttempts, newAccount, email, Lookup(t, email)), maxLive);
    }
  }

  lemma ReadyWrites(t: Table, p: Proc, c: Call, maxLive: nat)
    requires c.Ready? && c.existing == FindAccount(t, c.email) && c.tracker == Lookup(t, c.email)
    requires c.id in t.challenges && t.challenges[c.id].email == c.email
    ensures var t' := Exec(SetCall(t, p, c), WriteComplete(p), maxLive);
      if MaySignIn(t, c.id, c.now, c.maxAttempts, c.newAccount) then
        && t'.completed == t.completed + [c.id] && c.id in t'.signIns
        && FindAccount(t', c.email) == Some(t'.signIns[c.id]) && t'.accounts[t'.signIns[c.id]].active
        && t'.signIns[c.id] == (if c.existing.Some? then c.existing.value else c.newAccount)
      else t'.completed == t.completed
  {
    assert SetCall(t, p, c).calls[p] == c;
  }

  /**
   A completion that nothing interrupts signs in exactly when every test holds: to
   the active account of the challenge's email, created if there was none.
   */
  lemma UndisturbedCompletion(t: Table, p: Proc, id: ChallengeId, now: Time, maxAttempts: nat, newAccount: AccountId,
                              maxLive: nat)
    ensures var t' := Exec(AfterReads(t, p, id, now, maxAttempts, newAccount, maxLive), WriteComplete(p), maxLive);
      if MaySignIn(t, id, now, maxAttempts, newAccount) then
        var email := t.challenges[id].email;
        && t'.completed == t.completed + [id] && id in t'.signIns
        && FindAccount(t', email) == Some(t'.signIns[id]) && t'.accounts[t'.signIns[id]].active
        && t'.signIns[id] == (if FindAccount(t, email).Some? then FindAccount(t, email).value else newAccount)
      else t'.completed == t.completed
  {
    UndisturbedReads(t, p, id, now, maxAttempts, newAccount, maxLive);
    NothingToRead(t, p, maxLive);
    if id in t.challenges {
      var email := t.challenges[id].email;
      ReadyWrites(t, p, Ready(id, now, maxAttempts, newAccount, email, Lookup(t, email), FindAccount(t, email)), maxLive);
    }
  }
}
