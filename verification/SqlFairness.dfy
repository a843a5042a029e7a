/**
 Bounded overtaking over runs of serial SQL transactions: every claim for no
 particular job takes the scheduler's best one, so the bounds proved of scheduled
 claims hold of them.
 */
module SqlFairness {

  import opened Wrappers
  import opened LeaseQueue
  import opened QueueRuns
  import opened Scheduler
  import opened Fairness
  import opened SqlxQueue
  import opened SqlRuns

  /** A claim for no particular job is scheduled: its event takes the best of the jobs queued after its requeues. */
  lemma ClaimIsScheduled(qs: seq<Queue>, txs: seq<Tx>, steps: seq<seq<Event>>, k: nat, n: nat)
    requires IsSqlRun(qs, txs, steps) && k < n <= |txs| && Grants(txs[k]) && txs[k].requested.None?
    ensures var es, i := Flatten(steps, n), OwnIndex(txs, steps, k);
      i < |es| && es[i] == OwnEvent(txs[k]).value && Scheduled(es, i)
  {
    assert Commits(qs, txs, steps, k);
    OwnEventAt(qs, txs, steps, k, n);
  }

  /**
   A claim for no particular job leases the job that comes first of all that are
   queued after its requeues, told from elapsed times, stored weights and creation.
   */
  lemma FirstIsLeased(q: Queue, tx: Tx, q': Queue)
    requires TxStep(q, tx, q') && tx.TxClaim? && tx.requested.None?
    requires forall k <- Reclaimed(q, tx).jobs ::
      Reclaimed(q, tx).jobs[k].status == Queued ==> IsRegular(Reclaimed(q, tx).jobs[k], q.served, tx.now)
    ensures var jobs := Reclaimed(q, tx).jobs;
      if tx.lease.None? then forall k <- jobs :: jobs[k].status != Queued else
        && tx.lease.value.id in jobs && jobs[tx.lease.value.id].status == Queued
        && forall k <- jobs :: jobs[k].status == Queued ==>
             ComesFirst(jobs[tx.lease.value.id], jobs[k], q.served, tx.now)
  {
    if tx.lease.Some? { ChoiceIsExact(Reclaimed(q, tx).jobs, q.served, tx.now, tx.lease.value.id); }
  }

  // ---- Clock readings ----

  /** Leases are granted at strictly increasing whole milliseconds. */
  ghost predicate GrantsTick(txs: seq<Tx>) {
    && (forall k :: 0 <= k < |txs| && Grants(txs[k]) ==> txs[k].now % MILLISECOND == 0)
    && (forall i, j :: 0 <= i < j < |txs| && Grants(txs[i]) && Grants(txs[j]) ==> txs[i].now < txs[j].now)
  }

  /** Every claim event of the first `n` transactions was made at the time of one of their grants. */
  ghost predicate ClaimsAreGrants(es: seq<Event>, txs: seq<Tx>, n: nat)
    requires n <= |txs|
  {
    forall e <- es :: e.Claim? ==> GrantedAt(txs, n, e.now)
  }

  ghost predicate GrantedAt(txs: seq<Tx>, n: nat, at: Time)
    requires n <= |txs|
  {
    exists k :: 0 <= k < n && Grants(txs[k]) && txs[k].now == at
  }

  lemma GrantedBefore(txs: seq<Tx>, n: nat, at: Time)
    requires GrantsTick(txs) && n < |txs| && GrantedAt(txs, n, at)
    ensures GrantedAt(txs, n + 1, at) && at % MILLISECOND == 0
    ensures Grants(txs[n]) ==> at < txs[n].now
  {
    var k :| 0 <= k < n && Grants(txs[k]) && txs[k].now == at;
  }

  lemma TickConcat(es: seq<Event>, requeues: seq<Event>, own: seq<Event>, now: Time)
    requires ClaimsTick(es) && OnlyRequeues(requeues) && |own| <= 1
    requires own != [] && own[0].Claim? ==> own[0].now == now && now % MILLISECOND == 0
    requires own != [] && own[0].Claim? ==> forall e <- es :: e.Claim? ==> e.now < now
    ensures ClaimsTick(es + (requeues + own))
  {
    var all := es + (requeues + own);
    forall i | |es| <= i < |all| ensures all[i].Claim? ==> own == [all[i]] && i == |all| - 1 {
      if i < |es| + |requeues| { assert all[i] == requeues[i - |es|] && all[i] in requeues; }
    }
    forall i | 0 <= i < |es| ensures all[i] in es {}
  }

  lemma {:induction false} SqlClaimsTick(qs: seq<Queue>, txs: seq<Tx>, steps: seq<seq<Event>>, n: nat)
    requires IsSqlRun(qs, txs, steps) && GrantsTick(txs) && n <= |txs|
    ensures ClaimsTick(Flatten(steps, n)) && ClaimsAreGrants(Flatten(steps, n), txs, n)
  {
    if n > 0 {
      var es, q, tx := Flatten(steps, n - 1), qs[n - 1], txs[n - 1];
      SqlClaimsTick(qs, txs, steps, n - 1);
      assert Commits(qs, txs, steps, n - 1);
      forall e <- es | e.Claim?
        ensures GrantedAt(txs, n, e.now) && (Grants(tx) ==> e.now < tx.now)
      {
        GrantedBefore(txs, n - 1, e.now);
      }
      OwnClaim(q, tx);
      TickConcat(es, ReclaimEvents(tx), OwnEvents(q, tx), if Grants(tx) then tx.now else 0);
      NewClaims(es, ReclaimEvents(tx), OwnEvents(q, tx), txs, n);
    }
  }

  lemma OwnClaim(q: Queue, tx: Tx)
    ensures OnlyRequeues(ReclaimEvents(tx)) && |OwnEvents(q, tx)| <= 1
    ensures OwnEvents(q, tx) != [] && OwnEvents(q, tx)[0].Claim? ==> Grants(tx) && OwnEvents(q, tx)[0].now == tx.now
  {}

  lemma NewClaims(es: seq<Event>, requeues: seq<Event>, own: seq<Event>, txs: seq<Tx>, n: nat)
    requires 0 < n <= |txs| && ClaimsAreGrants(es, txs, n) && OnlyRequeues(requeues) && |own| <= 1
    requires own != [] && own[0].Claim? ==> Grants(txs[n - 1]) && own[0].now == txs[n - 1].now
    ensures ClaimsAreGrants(es + (requeues + own), txs, n)
  {
    forall e <- es + (requeues + own) | e.Claim? ensures GrantedAt(txs, n, e.now) {
      assert e in es || e in requeues || e in own;
      if e !in es { assert own == [e]; }
    }
  }

  // ---- Bounded overtaking ----

  /** Transaction `k` leases a job of the owner, with the given stored weight. */
  ghost predicate Leases(qs: seq<Queue>, txs: seq<Tx>, k: nat, owner: Owner, weight: real)
    requires k < |txs| < |qs|
  {
    && Grants(txs[k]) && txs[k].lease.value.id in qs[k].jobs
    && qs[k].jobs[txs[k].lease.value.id].owner == owner
    && qs[k].jobs[txs[k].lease.value.id].weight == weight
  }

  /** When transaction `k` chooses, the owner has a queued job of the given stored weight. */
  ghost predicate Queues(qs: seq<Queue>, txs: seq<Tx>, k: nat, owner: Owner, weight: real)
    requires k < |txs| < |qs|
  {
    exists id :: id in Reclaimed(qs[k], txs[k]).jobs && IsWaiting(Reclaimed(qs[k], txs[k]).jobs[id], owner, weight)
  }

  /** A is leased to by the transactions `ks`; all but the first are claims for no particular job. */
  ghost predicate LeasesAt(qs: seq<Queue>, txs: seq<Tx>, ks: seq<nat>, owner: Owner, weight: real) {
    && |txs| < |qs| && |ks| > 0
    && (forall m :: 0 <= m < |ks| ==> ks[m] < |txs| && Leases(qs, txs, ks[m], owner, weight))
    && (forall l, m :: 0 <= l < m < |ks| ==> ks[l] < ks[m])
    && (forall m :: 0 < m < |ks| ==> txs[ks[m]].requested.None?)
  }

  /** At each of the transactions but the first the owner has a queued job, and was last served at `t`. */
  ghost predicate QueuesSince(qs: seq<Queue>, txs: seq<Tx>, ks: seq<nat>, owner: Owner, weight: real, t: Time) {
    && |txs| < |qs|
    && (forall m :: 0 < m < |ks| ==> ks[m] < |txs| && Queues(qs, txs, ks[m], owner, weight))
    && (forall m :: 0 < m < |ks| ==> owner in qs[ks[m]].served && qs[ks[m]].served[owner] == t)
  }

  /** The same of an owner never served. */
  ghost predicate QueuesUnserved(qs: seq<Queue>, txs: seq<Tx>, ks: seq<nat>, owner: Owner, weight: real) {
    && |txs| < |qs|
    && (forall m :: 0 < m < |ks| ==> ks[m] < |txs| && Queues(qs, txs, ks[m], owner, weight))
    && (forall m :: 0 < m < |ks| ==> owner !in qs[ks[m]].served)
  }

  lemma LeaseIsServed(qs: seq<Queue>, txs: seq<Tx>, steps: seq<seq<Event>>, k: nat, owner: Owner, weight: real)
    requires IsSqlRun(qs, txs, steps) && k < |txs| && Leases(qs, txs, k, owner, weight)
    ensures var es, i := Flatten(steps, |txs|), OwnIndex(txs, steps, k);
      && i < |es| && es[i] == OwnEvent(txs[k]).value && At(es[..i]) == Reclaimed(qs[k], txs[k])
      && Serves(es, i, owner, weight)
  {
    assert Commits(qs, txs, steps, k);
    OwnEventAt(qs, txs, steps, k, |txs|);
  }

  /** What the run of events shows where transaction `k` chooses. */
  lemma ChoiceAt(qs: seq<Queue>, txs: seq<Tx>, steps: seq<seq<Event>>, k: nat, a: Owner, wA: real, b: Owner, wB: real)
    requires IsSqlRun(qs, txs, steps) && k < |txs| && Leases(qs, txs, k, a, wA)
    ensures var es, i := Flatten(steps, |txs|), OwnIndex(txs, steps, k);
      && i < |es| && es[i].Claim? && es[i].now == txs[k].now && At(es[..i]).served == qs[k].served
      && (Queues(qs, txs, k, b, wB) ==> Waits(es, i, b, wB))
  {
    LeaseIsServed(qs, txs, steps, k, a, wA);
  }

  /** The claim events of the transactions `ks`. */
  ghost function Indices(txs: seq<Tx>, steps: seq<seq<Event>>, ks: seq<nat>): (idx: seq<nat>)
    requires |txs| == |steps| && forall m :: 0 <= m < |ks| ==> ks[m] < |txs|
    ensures |idx| == |ks| && forall m :: 0 <= m < |ks| ==> idx[m] == OwnIndex(txs, steps, ks[m])
  {
    seq(|ks|, m requires 0 <= m < |ks| && ks[m] < |txs| == |steps| => OwnIndex(txs, steps, ks[m]))
  }

  lemma LeasesOvertake(qs: seq<Queue>, txs: seq<Tx>, steps: seq<seq<Event>>, ks: seq<nat>, owner: Owner, weight: real)
    requires IsSqlRun(qs, txs, steps) && LeasesAt(qs, txs, ks, owner, weight)
    ensures Overtakes(Flatten(steps, |txs|), Indices(txs, steps, ks), owner, weight)
  {
    var es, idx := Flatten(steps, |txs|), Indices(txs, steps, ks);
    forall m | 0 <= m < |ks| ensures idx[m] < |es| && Serves(es, idx[m], owner, weight) {
      LeaseIsServed(qs, txs, steps, ks[m], owner, weight);
    }
    forall l, m | 0 <= l < m < |ks| ensures idx[l] < idx[m] {
      OwnEventsInOrder(qs, txs, steps, ks[l], ks[m]);
    }
    forall m | 0 < m < |ks| ensures Scheduled(es, idx[m]) {
      ClaimIsScheduled(qs, txs, steps, ks[m], |txs|);
    }
  }

  lemma RunOvertakes(qs: seq<Queue>, txs: seq<Tx>, steps: seq<seq<Event>>, ks: seq<nat>, owner: Owner, weight: real)
    requires IsSqlRun(qs, txs, steps) && GrantsTick(txs) && LeasesAt(qs, txs, ks, owner, weight)
    ensures var es := Flatten(steps, |txs|);
      IsRun(es) && ClaimsTick(es) && Overtakes(es, Indices(txs, steps, ks), owner, weight)
  {
    SqlRunRefines(qs, txs, steps, |txs|);
    SqlClaimsTick(qs, txs, steps, |txs|);
    LeasesOvertake(qs, txs, steps, ks, owner, weight);
  }

  ghost predicate WaitsUnserved(es: seq<Event>, idx: seq<nat>, owner: Owner, weight: real) {
    forall k :: 0 < k < |idx| ==>
      idx[k] < |es| && Waits(es, idx[k], owner, weight) && owner !in At(es[..idx[k]]).served
  }

  lemma WaitsAsQueued(qs: seq<Queue>, txs: seq<Tx>, steps: seq<seq<Event>>, ks: seq<nat>,
                      a: Owner, b: Owner, wA: real, wB: real, t: Time)
    requires IsSqlRun(qs, txs, steps) && LeasesAt(qs, txs, ks, a, wA)
    requires QueuesSince(qs, txs, ks, b, wB, t)
    ensures WaitsSince(Flatten(steps, |txs|), Indices(txs, steps, ks), b, wB, t)
  {
    forall m | 0 < m < |ks|
      ensures var es, i := Flatten(steps, |txs|), Indices(txs, steps, ks)[m];
        i < |es| && Waits(es, i, b, wB) && At(es[..i]).served == qs[ks[m]].served
    {
      ChoiceAt(qs, txs, steps, ks[m], a, wA, b, wB);
    }
  }

  lemma WaitsUnservedAsQueued(qs: seq<Queue>, txs: seq<Tx>, steps: seq<seq<Event>>, ks: seq<nat>,
                              a: Owner, b: Owner, wA: real, wB: real)
    requires IsSqlRun(qs, txs, steps) && LeasesAt(qs, txs, ks, a, wA)
    requires QueuesUnserved(qs, txs, ks, b, wB)
    ensures WaitsUnserved(Flatten(steps, |txs|), Indices(txs, steps, ks), b, wB)
  {
    forall m | 0 < m < |ks|
      ensures var es, i := Flatten(steps, |txs|), Indices(txs, steps, ks)[m];
        i < |es| && Waits(es, i, b, wB) && At(es[..i]).served == qs[ks[m]].served
    {
      ChoiceAt(qs, txs, steps, ks[m], a, wA, b, wB);
    }
  }

  lemma ChoiceTime(qs: seq<Queue>, txs: seq<Tx>, steps: seq<seq<Event>>, ks: seq<nat>, m: nat, owner: Owner, weight: real)
    requires IsSqlRun(qs, txs, steps) && LeasesAt(qs, txs, ks, owner, weight) && m < |ks|
    ensures var es, i := Flatten(steps, |txs|), Indices(txs, steps, ks)[m];
      i < |es| && es[i].Claim? && es[i].now == txs[ks[m]].now
  {
    LeaseIsServed(qs, txs, steps, ks[m], owner, weight);
  }

  /**
   In every run of serial transactions: owner A is leased to, with jobs of the
   stored weight `wA`, by the transactions `ks`, first at `s0` and last at `sn`,
   all but the first of them claims for no particular job, while owner B, last
   served at `tB` before `s0`, has a queued job of the stored weight `wB` at each
   of the others. Then `wA^n * (s0 - tB) <= (wA - wB)^n * (sn - tB)`, and without
   a larger weight A never overtakes B at all. A weight below 0.01 counts as 0.01.
   */
  lemma SqlBoundedOvertaking(qs: seq<Queue>, txs: seq<Tx>, steps: seq<seq<Event>>, ks: seq<nat>, n: nat,
                             a: Owner, b: Owner, wA: real, wB: real, tB: Time, s0: Time, sn: Time)
    requires IsSqlRun(qs, txs, steps) && GrantsTick(txs) && LeasesAt(qs, txs, ks, a, wA)
    requires |ks| == n + 1 && txs[ks[0]].now == s0 && txs[ks[n]].now == sn
    requires QueuesSince(qs, txs, ks, b, wB, tB) && tB < s0
    ensures wA > wB >= 0.01 ==> GrowsTo(wA, wB, n, s0, sn, tB)
    ensures wA > 0.01 >= wB ==> GrowsTo(wA, 0.01, n, s0, sn, tB)
    ensures wA <= wB || wA <= 0.01 ==> n == 0
  {
    RunOvertakes(qs, txs, steps, ks, a, wA);
    WaitsAsQueued(qs, txs, steps, ks, a, b, wA, wB, tB);
    ChoiceTime(qs, txs, steps, ks, 0, a, wA);
    ChoiceTime(qs, txs, steps, ks, n, a, wA);
    BoundedOvertaking(Flatten(steps, |txs|), Indices(txs, steps, ks), a, b, wA, wB, tB, n, s0, sn);
  }

  /** An owner never served is not overtaken at all, for weights the server gives out and times of the years 0 to 9999. */
  lemma SqlNewcomerIsNext(qs: seq<Queue>, txs: seq<Tx>, steps: seq<seq<Event>>, ks: seq<nat>,
                          a: Owner, b: Owner, wA: real, wB: real)
    requires IsSqlRun(qs, txs, steps) && GrantsTick(txs) && LeasesAt(qs, txs, ks, a, wA) && wA <= MAX_WEIGHT
    requires forall k :: 0 <= k < |txs| && Grants(txs[k]) ==> 0 <= txs[k].now < END_OF_TIME
    requires QueuesUnserved(qs, txs, ks, b, wB)
    ensures |ks| == 1
  {
    var es, idx := Flatten(steps, |txs|), Indices(txs, steps, ks);
    RunOvertakes(qs, txs, steps, ks, a, wA);
    WaitsUnservedAsQueued(qs, txs, steps, ks, a, b, wA, wB);
    forall m | 0 <= m < |idx| ensures idx[m] < |es| && es[idx[m]].Claim? && 0 <= es[idx[m]].now < END_OF_TIME {
      ChoiceTime(qs, txs, steps, ks, m, a, wA);
      assert Leases(qs, txs, ks[m], a, wA);
    }
    NewcomerIsNext(es, idx, a, b, wA, wB);
  }
}
