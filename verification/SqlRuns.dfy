/**
 What every run of serial SQL transactions keeps, said of the transactions
 themselves: leases on one job never overlap, and a job accepts one completion,
 from its latest claim.
 */
module SqlRuns {

  import opened Wrappers
  import opened LeaseQueue
  import opened QueueRuns
  import opened QueueTerms
  import opened SqlxQueue

  /** The transaction is a claim that returned a lease. */
  predicate Grants(tx: Tx) { tx.TxClaim? && tx.lease.Some? }

  /** The transaction performs its own event, not only requeues. */
  ghost predicate Acts(qs: seq<Queue>, txs: seq<Tx>, k: nat)
    requires k < |txs| < |qs|
  {
    OwnEvents(qs[k], txs[k]) != []
  }

  /** Where in the run of events a transaction's own event stands. */
  ghost function OwnIndex(txs: seq<Tx>, steps: seq<seq<Event>>, k: nat): nat
    requires k < |txs| == |steps|
  {
    |Flatten(steps, k)| + |ReclaimEvents(txs[k])|
  }

  lemma OwnEventOf(qs: seq<Queue>, txs: seq<Tx>, steps: seq<seq<Event>>, k: nat)
    requires IsSqlRun(qs, txs, steps) && k < |txs| && Acts(qs, txs, k)
    ensures steps[k] == ReclaimEvents(txs[k]) + [OwnEvent(txs[k]).value]
  {
    assert Commits(qs, txs, steps, k);
  }

  lemma StateForOwnEvent(qs: seq<Queue>, txs: seq<Tx>, steps: seq<seq<Event>>, k: nat)
    requires IsSqlRun(qs, txs, steps) && k < |txs|
    ensures At(Flatten(steps, k) + ReclaimEvents(txs[k])) == Reclaimed(qs[k], txs[k])
  {
    SqlRunRefines(qs, txs, steps, k);
    assert Commits(qs, txs, steps, k);
    ReclaimRun(qs[k], txs[k], qs[k + 1]);
    ApplyAllConcat(EMPTY, Flatten(steps, k), ReclaimEvents(txs[k]));
  }

  /** A transaction's own event stands at its index, in the state after the transaction's requeues. */
  lemma OwnEventAt(qs: seq<Queue>, txs: seq<Tx>, steps: seq<seq<Event>>, k: nat, n: nat)
    requires IsSqlRun(qs, txs, steps) && k < n <= |txs| && Acts(qs, txs, k)
    ensures var es, i := Flatten(steps, n), OwnIndex(txs, steps, k);
      && i < |es| && es[i] == OwnEvent(txs[k]).value && At(es[..i]) == Reclaimed(qs[k], txs[k])
  {
    OwnEventOf(qs, txs, steps, k);
    OwnAt(steps, k, ReclaimEvents(txs[k]), OwnEvent(txs[k]).value, n);
    StateForOwnEvent(qs, txs, steps, k);
  }

  lemma OwnEventsInOrder(qs: seq<Queue>, txs: seq<Tx>, steps: seq<seq<Event>>, i: nat, j: nat)
    requires IsSqlRun(qs, txs, steps) && i < j < |txs| && Acts(qs, txs, i)
    ensures OwnIndex(txs, steps, i) < OwnIndex(txs, steps, j)
  {
    OwnEventOf(qs, txs, steps, i);
    FlattenInOrder(steps, i, |ReclaimEvents(txs[i])|, j, |ReclaimEvents(txs[j])|);
  }

  /** It happens at the wall time of its transaction. */
  lemma OwnWall(qs: seq<Queue>, txs: seq<Tx>, steps: seq<seq<Event>>, walls: seq<Time>, k: nat, n: nat)
    requires IsSqlRun(qs, txs, steps) && k < n <= |txs| == |walls| && Acts(qs, txs, k)
    ensures |FlattenWalls(steps, walls, n)| == |Flatten(steps, n)| > OwnIndex(txs, steps, k)
    ensures FlattenWalls(steps, walls, n)[OwnIndex(txs, steps, k)] == walls[k]
  {
    OwnEventOf(qs, txs, steps, k);
    FlattenWallAt(steps, walls, k, |ReclaimEvents(txs[k])|, n);
  }

  // ---- Fencing ----

  /** The most recent of the first `n` transactions that granted a lease on the job. */
  function LatestGrant(txs: seq<Tx>, n: nat, id: JobId): (r: Option<nat>)
    requires n <= |txs|
    ensures r.Some? ==> r.value < n && Grants(txs[r.value]) && txs[r.value].lease.value.id == id
  {
    if n == 0 then None
    else if Grants(txs[n - 1]) && txs[n - 1].lease.value.id == id then Some(n - 1)
    else LatestGrant(txs, n - 1, id)
  }

  lemma LatestClaimAfterTx(qs: seq<Queue>, txs: seq<Tx>, steps: seq<seq<Event>>, k: nat, es: seq<Event>, id: JobId)
    requires IsSqlRun(qs, txs, steps) && k < |txs|
    ensures LatestClaim(es + steps[k], id) == if Grants(txs[k]) && txs[k].lease.value.id == id
                                              then Some(|es| + |ReclaimEvents(txs[k])|) else LatestClaim(es, id)
  {
    assert Commits(qs, txs, steps, k);
    LatestClaimStep(es, ReclaimEvents(txs[k]), OwnEvents(qs[k], txs[k]), id);
  }

  /** Where in the run of events the most recent grant stands. */
  ghost function GrantIndex(txs: seq<Tx>, steps: seq<seq<Event>>, n: nat, id: JobId): Option<nat>
    requires n <= |txs| == |steps|
  {
    var grant := LatestGrant(txs, n, id);
    if grant.Some? then Some(OwnIndex(txs, steps, grant.value)) else None
  }

  lemma GrantIndexStep(txs: seq<Tx>, steps: seq<seq<Event>>, n: nat, id: JobId)
    requires 0 < n <= |txs| == |steps|
    ensures GrantIndex(txs, steps, n, id)
      == if Grants(txs[n - 1]) && txs[n - 1].lease.value.id == id
         then Some(|Flatten(steps, n - 1)| + |ReclaimEvents(txs[n - 1])|) else GrantIndex(txs, steps, n - 1, id)
  {}

  lemma FlattenStep(steps: seq<seq<Event>>, n: nat)
    requires 0 < n <= |steps|
    ensures Flatten(steps, n) == Flatten(steps, n - 1) + steps[n - 1]
  {}

  lemma {:induction false} LatestClaimIsLatestGrant(qs: seq<Queue>, txs: seq<Tx>, steps: seq<seq<Event>>, n: nat, id: JobId)
    requires IsSqlRun(qs, txs, steps) && n <= |txs|
    ensures LatestClaim(Flatten(steps, n), id) == GrantIndex(txs, steps, n, id)
  {
    if n > 0 {
      LatestClaimIsLatestGrant(qs, txs, steps, n - 1, id);
      FlattenStep(steps, n);
      LatestClaimAfterTx(qs, txs, steps, n - 1, Flatten(steps, n - 1), id);
      GrantIndexStep(txs, steps, n, id);
    }
  }

  /** In every committed state each row is consistent, and a lease stored is the latest one granted, up to its end. */
  lemma StoredLeaseIsLatest(qs: seq<Queue>, txs: seq<Tx>, steps: seq<seq<Event>>, n: nat, id: JobId)
    requires IsSqlRun(qs, txs, steps) && n <= |txs| && id in qs[n].jobs
    ensures RowFacts(qs[n].jobs[id])
    ensures qs[n].jobs[id].status == Solving ==>
      var i := LatestGrant(txs, n, id);
      && i.Some? && qs[n].jobs[id].leaseToken == Some(txs[i.value].token)
      && qs[n].jobs[id].leaseExpires == Some(SqlLeaseEnd(qs, txs, i.value, n))
  {
    SqlRunRefines(qs, txs, steps, n);
    JobHistory(Flatten(steps, n), id);
    LeaseStays(Flatten(steps, n), id);
    LatestClaimIsLatestGrant(qs, txs, steps, n, id);
    var i := LatestGrant(txs, n, id);
    if i.Some? { LeaseEndsAgree(qs, txs, steps, i.value, n); }
  }

  /** A heartbeat or a completion that is accepted. */
  predicate Accepted(qs: seq<Queue>, txs: seq<Tx>, k: nat)
    requires k < |txs| < |qs|
  {
    (txs[k].TxHeartbeat? || txs[k].TxComplete?) && Enabled(qs[k], OwnEvent(txs[k]).value)
  }

  /**
   Every accepted heartbeat and completion presents the token of the latest lease
   granted on the job, at a clock reading before the last expiry granted to it.
   */
  lemma OnlyHolderIsAccepted(qs: seq<Queue>, txs: seq<Tx>, steps: seq<seq<Event>>, k: nat)
    requires IsSqlRun(qs, txs, steps) && k < |txs| && Accepted(qs, txs, k)
    ensures var i := LatestGrant(txs, k, txs[k].id);
      i.Some? && txs[k].token == txs[i.value].token && txs[k].now < SqlLeaseEnd(qs, txs, i.value, k)
  {
    StoredLeaseIsLatest(qs, txs, steps, k, txs[k].id);
  }

  /** Transaction `j` neither requeues the job nor completes it. */
  predicate LeavesLease(qs: seq<Queue>, txs: seq<Tx>, j: nat, id: JobId)
    requires j < |txs| < |qs|
  {
    && !(Reclaims(txs[j]) && id in txs[j].requeued)
    && !(txs[j].TxComplete? && txs[j].id == id && Accepted(qs, txs, j))
  }

  /** Job `id` is solving under the lease of transaction `i`, renewed up to `n`. */
  predicate UnderLease(qs: seq<Queue>, txs: seq<Tx>, i: nat, n: nat, id: JobId)
    requires i < n <= |txs| < |qs| && Grants(txs[i])
  {
    && id in qs[n].jobs && qs[n].jobs[id].status == Solving
    && qs[n].jobs[id].leaseToken == Some(txs[i].token)
    && qs[n].jobs[id].leaseExpires == Some(SqlLeaseEnd(qs, txs, i, n))
  }

  lemma LeaseSurvivesTx(qs: seq<Queue>, txs: seq<Tx>, i: nat, n: nat, id: JobId)
    requires i < n < |txs| < |qs| && Grants(txs[i]) && txs[i].lease.value.id == id && TxStep(qs[n], txs[n], qs[n + 1])
    requires UnderLease(qs, txs, i, n, id) && LeavesLease(qs, txs, n, id)
    ensures UnderLease(qs, txs, i, n + 1, id)
  {}

  lemma {:induction false} LeaseSurvives(qs: seq<Queue>, txs: seq<Tx>, steps: seq<seq<Event>>, i: nat, n: nat, id: JobId)
    requires IsSqlRun(qs, txs, steps) && i < n <= |txs| && Grants(txs[i]) && txs[i].lease.value.id == id
    requires forall j :: i < j < n ==> LeavesLease(qs, txs, j, id)
    ensures UnderLease(qs, txs, i, n, id)
    decreases n
  {
    assert Commits(qs, txs, steps, n - 1);
    if n > i + 1 {
      LeaseSurvives(qs, txs, steps, i, n - 1, id);
      LeaseSurvivesTx(qs, txs, i, n - 1, id);
    }
  }

  /**
   Every heartbeat and completion with the token of a lease granted before, at a
   clock reading before the last expiry granted to it, is accepted, if no
   transaction in between requeued or completed the job.
   */
  lemma HolderIsAccepted(qs: seq<Queue>, txs: seq<Tx>, steps: seq<seq<Event>>, i: nat, k: nat)
    requires IsSqlRun(qs, txs, steps) && i < k < |txs| && Grants(txs[i])
    requires txs[k].TxHeartbeat? || (txs[k].TxComplete? && (txs[k].solution.Some? || txs[k].error.Some?))
    requires txs[k].id == txs[i].lease.value.id && txs[k].token == txs[i].token
    requires txs[k].now < SqlLeaseEnd(qs, txs, i, k)
    requires forall j :: i < j < k ==> LeavesLease(qs, txs, j, txs[k].id)
    ensures Accepted(qs, txs, k)
  {
    LeaseSurvives(qs, txs, steps, i, k, txs[k].id);
  }

  lemma {:induction false} CompletionIsCounted(es: seq<Event>, i: nat)
    requires i < |es| && es[i].Complete?
    ensures CompletionCount(es, es[i].id) >= 1
    decreases |es|
  {
    if i < |es| - 1 {
      assert es[..|es| - 1][i] == es[i];
      CompletionIsCounted(es[..|es| - 1], i);
    }
  }

  /** A job accepts at most one completion over the whole run. */
  lemma OneAcceptedCompletion(qs: seq<Queue>, txs: seq<Tx>, steps: seq<seq<Event>>, i: nat, j: nat)
    requires IsSqlRun(qs, txs, steps) && i < j < |txs| && txs[i].TxComplete? && txs[j].TxComplete?
    requires Accepted(qs, txs, i) && Accepted(qs, txs, j)
    ensures txs[i].id != txs[j].id
  {
    var es, first, second := Flatten(steps, |txs|), OwnIndex(txs, steps, i), OwnIndex(txs, steps, j);
    OwnEventAt(qs, txs, steps, i, |txs|);
    OwnEventAt(qs, txs, steps, j, |txs|);
    OwnEventsInOrder(qs, txs, steps, i, j);
    SqlRunRefines(qs, txs, steps, |txs|);
    AcceptedCompletion(es, second);
    assert es[..second][first] == es[first];
    CompletionIsCounted(es[..second], first);
  }

  // ---- Exclusivity ----

  /** The transaction is an accepted heartbeat of the lease with this token. */
  predicate Renews(q: Queue, tx: Tx, id: JobId, token: Token) {
    tx.TxHeartbeat? && tx.id == id && tx.token == token && Enabled(q, OwnEvent(tx).value)
  }

  /** The last expiry granted to the lease of transaction `i`, renewals among the first `n` transactions included. */
  function SqlLeaseEnd(qs: seq<Queue>, txs: seq<Tx>, i: nat, n: nat): Time
    requires i < n <= |txs| < |qs| && Grants(txs[i])
  {
    if n == i + 1 then txs[i].lease.value.expires
    else if Renews(qs[n - 1], txs[n - 1], txs[i].lease.value.id, txs[i].token)
    then LeaseUntil(txs[n - 1].now, txs[n - 1].leaseSeconds)
    else SqlLeaseEnd(qs, txs, i, n - 1)
  }

  lemma TxIsStep(q: Queue, tx: Tx)
    ensures IsStep(TxEvents(q, tx))
  {}

  /** A transaction moves the end of a lease exactly when it renews it. */
  lemma EndAfterTx(q: Queue, tx: Tx, claim: Event, end: Time)
    requires claim.Claim?
    ensures EndAfter(TxEvents(q, tx), claim, end)
         == if Renews(q, tx, claim.id, claim.token) then LeaseUntil(tx.now, tx.leaseSeconds) else end
  {}

  lemma {:induction false} EndOverTxs(qs: seq<Queue>, txs: seq<Tx>, steps: seq<seq<Event>>, i: nat, n: nat)
    requires IsSqlRun(qs, txs, steps) && i < n <= |txs| && Grants(txs[i])
    ensures EndOver(steps, i + 1, n, OwnEvent(txs[i]).value, txs[i].lease.value.expires) == SqlLeaseEnd(qs, txs, i, n)
    decreases n
  {
    if n > i + 1 {
      EndOverTxs(qs, txs, steps, i, n - 1);
      assert Commits(qs, txs, steps, n - 1);
      EndAfterTx(qs[n - 1], txs[n - 1], OwnEvent(txs[i]).value, SqlLeaseEnd(qs, txs, i, n - 1));
    }
  }

  lemma LeaseBegins(qs: seq<Queue>, txs: seq<Tx>, steps: seq<seq<Event>>, i: nat)
    requires IsSqlRun(qs, txs, steps) && i < |txs| && Grants(txs[i])
    ensures var es, c := Flatten(steps, i + 1), OwnIndex(txs, steps, i);
      |es| == c + 1 && es[c] == OwnEvent(txs[i]).value && LeaseEnd(es, c) == txs[i].lease.value.expires
  {
    assert Commits(qs, txs, steps, i);
    OwnEventOf(qs, txs, steps, i);
  }

  /** The end of the lease in the run of events is its end in the run of transactions. */
  lemma LeaseEndsAgree(qs: seq<Queue>, txs: seq<Tx>, steps: seq<seq<Event>>, i: nat, n: nat)
    requires IsSqlRun(qs, txs, steps) && i < n <= |txs| && Grants(txs[i])
    ensures var es, c := Flatten(steps, n), OwnIndex(txs, steps, i);
      c < |es| && es[c] == OwnEvent(txs[i]).value && LeaseEnd(es, c) == SqlLeaseEnd(qs, txs, i, n)
  {
    LeaseBegins(qs, txs, steps, i);
    forall k | i + 1 <= k < n ensures IsStep(steps[k]) {
      assert Commits(qs, txs, steps, k);
      TxIsStep(qs[k], txs[k]);
    }
    LeaseEndOver(steps, i + 1, n, OwnIndex(txs, steps, i));
    EndOverTxs(qs, txs, steps, i, n);
  }

  /**
   Leases on one job never overlap: when transaction `j` grants one on a job that
   transaction `i` leased before, the last expiry granted to the earlier lease,
   renewals included, has passed on the wall clock.
   */
  lemma SqlLeasesNeverOverlap(qs: seq<Queue>, txs: seq<Tx>, steps: seq<seq<Event>>, walls: seq<Time>, i: nat, j: nat)
    requires IsSqlRun(qs, txs, steps) && FreshClaimTokens(txs) && ClockedTxs(txs, walls)
    requires i < j < |txs| && Grants(txs[i]) && Grants(txs[j]) && txs[i].lease.value.id == txs[j].lease.value.id
    ensures SqlLeaseEnd(qs, txs, i, |txs|) <= walls[j]
  {
    var n := |txs|;
    SqlRunRefines(qs, txs, steps, n);
    SqlTokensAreDistinct(qs, txs, steps, n);
    SqlRunIsClocked(qs, txs, steps, walls, n);
    OwnEventAt(qs, txs, steps, i, n);
    OwnEventAt(qs, txs, steps, j, n);
    OwnEventsInOrder(qs, txs, steps, i, j);
    OwnWall(qs, txs, steps, walls, j, n);
    LeaseEndsAgree(qs, txs, steps, i, n);
    LeasesNeverOverlap(Flatten(steps, n), FlattenWalls(steps, walls, n), OwnIndex(txs, steps, i), OwnIndex(txs, steps, j));
  }
}
