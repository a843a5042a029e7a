/**
 The SQL job repository. Each operation is one serial transaction over three
 tables, so each method is one atomic change of the fields.
 */
module SqlxQueue {

  import opened Wrappers
  import opened LeaseQueue
  import opened QueueRuns
  import opened Scheduler
  import opened Sets

  // ---- What each transaction does to the tables ----

  function ExpiredIds(jobs: map<JobId, Job>, now: Time): set<JobId> {
    set id | id in jobs && Expired(jobs[id], now)
  }

  function RequeueSome(jobs: map<JobId, Job>, ids: set<JobId>): map<JobId, Job> {
    map id <- jobs :: if id in ids then RequeuedRow(jobs[id]) else jobs[id]
  }

  function RequeueAll(jobs: map<JobId, Job>, now: Time): map<JobId, Job> {
    RequeueSome(jobs, ExpiredIds(jobs, now))
  }

  lemma RequeueOneMore(jobs: map<JobId, Job>, ids: set<JobId>, id: JobId)
    requires id in jobs && id !in ids
    ensures RequeueSome(jobs, ids)[id := RequeuedRow(jobs[id])] == RequeueSome(jobs, ids + {id})
  {}

  function ReopenSome(outbox: map<JobId, Option<Time>>, ids: set<JobId>): map<JobId, Option<Time>> {
    outbox + map id <- ids :: None
  }

  lemma ReopenOneMore(outbox: map<JobId, Option<Time>>, ids: set<JobId>, id: JobId)
    ensures ReopenSome(outbox, ids)[id := None] == ReopenSome(outbox, ids + {id})
  {}

  /** Each requeued job's notification becomes pending again. */
  function ReopenNotifications(jobs: map<JobId, Job>, outbox: map<JobId, Option<Time>>, now: Time)
    : map<JobId, Option<Time>>
  {
    ReopenSome(outbox, ExpiredIds(jobs, now))
  }

  /** A claim: requeue everything expired, then take the requested job or the best queued one. */
  predicate ClaimTx(q: Queue, requested: Option<JobId>, leaseSeconds: nat, now: Time, token: Token,
                    lease: Option<JobLease>, q': Queue)
  {
    var jobs := RequeueAll(q.jobs, now);
    match lease
    case None =>
      && q' == Queue(jobs, q.served)
      && match requested {
           case Some(id) => id !in jobs || jobs[id].status != Queued
           case None => forall k <- jobs :: jobs[k].status != Queued
         }
    case Some(JobLease(id, t, expires, filename, options)) =>
      && id in jobs && jobs[id].status == Queued
      && (if requested.Some? then id == requested.value else IsBest(jobs, q.served, now, id))
      && t == token && expires == LeaseUntil(now, leaseSeconds)
      && filename == jobs[id].filename && options == jobs[id].options
      && q' == Queue(jobs[id := ClaimedRow(jobs[id], token, now, expires)], q.served[jobs[id].owner := now])
  }

  function WithKey(jobs: map<JobId, Job>, objectKey: string): set<JobId> {
    set id | id in jobs && jobs[id].objectKey == objectKey
  }

  /** The jobs that the primary key and the unique Astrometry ID clash with. */
  function SameIds(jobs: map<JobId, Job>, id: JobId): set<JobId> {
    set k | k in jobs && (k == id || AstrometryId(k) == AstrometryId(id))
  }

  class SqlxJobRepository {
    var jobs: map<JobId, Job>
    var outbox: map<JobId, Option<Time>>
    var served: map<Owner, Time>

    ghost function View(): Queue reads this { Queue(jobs, served) }

    constructor ()
      ensures View() == EMPTY && outbox == map[]
    {
      jobs, outbox, served := map[], map[], map[];
    }

    /** `SELECT ... WHERE status = 'solving' AND lease_expires_at <= now`, then one update per row, in some order. */
    method ReclaimExpired(now: Time) returns (ghost requeued: seq<JobId>)
      modifies this`jobs, this`outbox
      ensures jobs == RequeueAll(old(jobs), now)
      ensures jobs.Keys == old(jobs).Keys
      ensures forall id <- jobs :: var j := old(jobs)[id];
        jobs[id] == if j.status == Solving && j.leaseExpires.Some? && j.leaseExpires.value <= now
                    then j.(status := Queued, leaseToken := None, leaseExpires := None) else j
      ensures TxStep(old(View()), TxReclaim(now, requeued), View())
      ensures outbox == ReopenNotifications(old(jobs), old(outbox), now)
    {
      var expired := ExpiredIds(jobs, now);
      var done: set<JobId> := {};
      requeued := [];
      assert jobs == RequeueSome(jobs, {}) && outbox == ReopenSome(outbox, {});
      while expired - done != {}
        invariant done <= expired && Lists(requeued, done)
        invariant jobs == RequeueSome(old(jobs), done)
        invariant outbox == ReopenSome(old(outbox), done)
        decreases expired - done
      {
        var id :| id in expired - done;
        RequeueOneMore(old(jobs), done, id);
        ReopenOneMore(old(outbox), done, id);
        if jobs[id].status == Solving { // the update re-tests the status only
          jobs := jobs[id := RequeuedRow(jobs[id])];
        }
        outbox := outbox[id := None];
        done := done + {id};
        requeued := requeued + [id];
      }
      assert done == expired;
    }

    method QueuedRows() returns (rows: seq<(JobId, Job)>)
      ensures forall r <- rows :: r.0 in jobs && r.1 == jobs[r.0] && r.1.status == Queued
      ensures forall id <- jobs :: jobs[id].status == Queued ==> (id, jobs[id]) in rows
    {
      rows := [];
      var todo := set id | id in jobs && jobs[id].status == Queued;
      while todo != {}
        invariant forall r <- rows :: r.0 in jobs && r.1 == jobs[r.0] && r.1.status == Queued
        invariant forall id <- jobs :: jobs[id].status == Queued ==> id in todo || (id, jobs[id]) in rows
        invariant forall id <- todo :: id in jobs && jobs[id].status == Queued
        decreases todo
      {
        var id :| id in todo;
        rows := rows + [(id, jobs[id])];
        todo := todo - {id};
      }
    }

    method SelectCandidate(requested: Option<JobId>, now: Time) returns (candidate: Option<JobId>)
      ensures candidate.Some? ==> candidate.value in jobs && jobs[candidate.value].status == Queued
      ensures requested.Some? ==>
          candidate == if requested.value in jobs && jobs[requested.value].status == Queued then requested else None
      ensures requested.None? && candidate.Some? ==> IsBest(jobs, served, now, candidate.value)
      ensures requested.None? && candidate.None? ==> forall k <- jobs :: jobs[k].status != Queued
    {
      if requested.Some? {
        var found := requested.value in jobs && jobs[requested.value].status == Queued;
        return if found then requested else None;
      }
      var rows := QueuedRows();
      var best := SelectBest(rows, served, now);
      candidate := if best.Some? then Some(best.value.0) else None;
    }

    method Claim(requested: Option<JobId>, leaseSeconds: nat, now: Time, token: Token)
      returns (lease: Option<JobLease>, ghost requeued: seq<JobId>)
      modifies this
      ensures ClaimTx(old(View()), requested, leaseSeconds, now, token, lease, View())
      ensures TxStep(old(View()), TxClaim(requested, leaseSeconds, now, token, requeued, lease), View())
      ensures lease.Some? ==>
        && lease.value.token == token
        && lease.value.expires == now + (if leaseSeconds < 1 then 1 else leaseSeconds) * 1_000_000_000
        && lease.value.id in old(jobs) && lease.value.id in jobs
        && lease.value.filename == old(jobs)[lease.value.id].filename
        && lease.value.options == old(jobs)[lease.value.id].options
        && var j, j' := old(jobs)[lease.value.id], jobs[lease.value.id];
        j' == j.(status := Solving, startedAt := Some(now), leaseToken := Some(token),
                 leaseExpires := Some(lease.value.expires), attempts := j.attempts + 1)
      ensures outbox == ReopenNotifications(old(jobs), old(outbox), now)
    {
      requeued := ReclaimExpired(now);
      lease := None;
      var candidate := SelectCandidate(requested, now);
      if candidate.None? {
        return;
      }
      var id := candidate.value;
      var expires := LeaseUntil(now, leaseSeconds);
      lease := Some(JobLease(id, token, expires, jobs[id].filename, jobs[id].options));
      served := served[jobs[id].owner := now];
      jobs := jobs[id := ClaimedRow(jobs[id], token, now, expires)];
    }

    method Heartbeat(id: JobId, token: Token, leaseSeconds: nat, now: Time) returns (renewed: bool)
      modifies this`jobs
      ensures renewed <==> id in old(jobs) && var j := old(jobs)[id];
        j.status == Solving && j.leaseToken == Some(token) && j.leaseExpires.Some? && j.leaseExpires.value > now
      ensures jobs == if !renewed then old(jobs) else
        var seconds := if leaseSeconds < 1 then 1 else leaseSeconds;
        old(jobs)[id := old(jobs)[id].(leaseExpires := Some(now + seconds * 1_000_000_000))]
      ensures TxStep(old(View()), TxHeartbeat(id, token, leaseSeconds, now), View())
    {
      renewed := id in jobs && HoldsLease(jobs[id], token, now);
      if renewed {
        jobs := jobs[id := jobs[id].(leaseExpires := Some(LeaseUntil(now, leaseSeconds)))];
      }
    }

    /** An error result stands for the refusal of a completion with neither solution nor error. */
    method Complete(id: JobId, token: Token, solution: Option<string>, error: Option<string>, now: Time)
      returns (r: Result<bool, string>)
      modifies this`jobs
      ensures r.Err? <==> solution.None? && error.None?
      ensures r.Ok? ==> (r.value <==> id in old(jobs) && var j := old(jobs)[id];
        j.status == Solving && j.leaseToken == Some(token) && j.leaseExpires.Some? && j.leaseExpires.value > now)
      ensures jobs == if r.Err? || !r.value then old(jobs) else
        old(jobs)[id := old(jobs)[id].(status := if solution.Some? then Succeeded else Failed, completedAt := Some(now),
                                       solution := solution, error := error, leaseToken := None, leaseExpires := None)]
      ensures TxStep(old(View()), TxComplete(id, token, solution, error, now), View())
    {
      if solution.None? && error.None? {
        return Err("worker completion requires a solution or an error");
      }
      var done := id in jobs && HoldsLease(jobs[id], token, now);
      if done {
        jobs := jobs[id := CompletedRow(jobs[id], now, solution, error)];
      }
      r := Ok(done);
    }

    /**
     `INSERT ... ON CONFLICT(object_key) DO NOTHING` with its outbox row. A known
     object key returns the job that has it; a reused job ID or Astrometry ID is a
     database error.
     */
    method Enqueue(id: JobId, job: Job) returns (r: Result<JobId, string>)
      modifies this
      ensures TxStep(old(View()), TxEnqueue(id, job), View())
      ensures r.Ok? ==> r.value in WithKey(jobs, job.objectKey)
      ensures r.Err? <==> SameIds(old(jobs), id) != {} && WithKey(old(jobs), job.objectKey) == {}
      ensures r.Err? || old(jobs) == jobs || (r == Ok(id) && id !in old(jobs) && jobs == old(jobs)[id := jobs[id]]
        && SameUpload(jobs[id], job) && jobs[id].status == Queued && jobs[id].attempts == 0)
      ensures outbox == if Enabled(old(View()), Event.Enqueue(id, job)) then old(outbox)[id := None] else old(outbox)
    {
      var existing := WithKey(jobs, job.objectKey);
      if existing != {} {
        var found :| found in existing;
        return Ok(found);
      }
      assert forall k <- jobs :: jobs[k].objectKey == job.objectKey ==> k in existing;
      var sameIds := SameIds(jobs, id);
      assert forall k <- jobs :: AstrometryId(k) == AstrometryId(id) ==> k in sameIds;
      if sameIds != {} {
        return Err("the job ID or its Astrometry ID is already in use");
      }
      jobs := jobs[id := QueuedRow(job)];
      outbox := outbox[id := None];
      r := Ok(id);
    }
  }

  // ---- Refinement of the abstract queue ----

  /** A committed transaction, with the jobs it requeued in the order of its loop and the lease it returned. */
  datatype Tx =
    | TxEnqueue(id: JobId, job: Job)
    | TxClaim(requested: Option<JobId>, leaseSeconds: nat, now: Time, token: Token, requeued: seq<JobId>,
              lease: Option<JobLease>)
    | TxReclaim(now: Time, requeued: seq<JobId>) // pending_notifications
    | TxHeartbeat(id: JobId, token: Token, leaseSeconds: nat, now: Time)
    | TxComplete(id: JobId, token: Token, solution: Option<string>, error: Option<string>, now: Time)

  /** The event a transaction stands for, if it is a single one. */
  function OwnEvent(tx: Tx): Option<Event> {
    match tx
    case TxEnqueue(id, job) => Some(Event.Enqueue(id, job))
    case TxClaim(_, leaseSeconds, now, token, _, lease) =>
      if lease.Some? then Some(Event.Claim(lease.value.id, token, now, LeaseUntil(now, leaseSeconds))) else None
    case TxReclaim(_, _) => None
    case TxHeartbeat(id, token, leaseSeconds, now) => Some(Event.Heartbeat(id, token, now, LeaseUntil(now, leaseSeconds)))
    case TxComplete(id, token, solution, error, now) => Some(Event.Complete(id, token, now, solution, error))
  }

  predicate Reclaims(tx: Tx) { tx.TxClaim? || tx.TxReclaim? }

  /** The rows a reclaim visits: each expired one, once. */
  ghost predicate Lists(ids: seq<JobId>, wanted: set<JobId>) {
    && (forall id :: id in ids <==> id in wanted)
    && (forall i, j :: 0 <= i < j < |ids| ==> ids[i] != ids[j])
  }

  ghost predicate TxStep(q: Queue, tx: Tx, q': Queue) {
    && (Reclaims(tx) ==> Lists(tx.requeued, ExpiredIds(q.jobs, tx.now)))
    && match tx {
         case TxClaim(requested, leaseSeconds, now, token, _, lease) =>
           ClaimTx(q, requested, leaseSeconds, now, token, lease, q')
         case TxReclaim(now, _) => q' == q.(jobs := RequeueAll(q.jobs, now))
         case _ => q' == Apply(q, OwnEvent(tx).value)
       }
  }

  function Requeues(ids: seq<JobId>, now: Time): seq<Event> {
    seq(|ids|, i requires 0 <= i < |ids| => Requeue(ids[i], now))
  }

  function ReclaimEvents(tx: Tx): seq<Event> { if Reclaims(tx) then Requeues(tx.requeued, tx.now) else [] }

  /**
   The events of a transaction: a claim or a reclaim requeues what has expired;
   then comes its own event, if there is one and it is accepted.
   */
  function TxEvents(q: Queue, tx: Tx): seq<Event> { ReclaimEvents(tx) + OwnEvents(q, tx) }

  function OwnEvents(q: Queue, tx: Tx): seq<Event> {
    if OwnEvent(tx).Some? && (tx.TxClaim? || Enabled(q, OwnEvent(tx).value)) then [OwnEvent(tx).value] else []
  }

  /** Requeueing expired jobs one by one is a run of requeue events. */
  lemma {:induction false} RequeuesRun(q: Queue, now: Time, ids: seq<JobId>)
    requires forall i :: 0 <= i < |ids| ==> ids[i] in ExpiredIds(q.jobs, now)
    requires forall i, j :: 0 <= i < j < |ids| ==> ids[i] != ids[j]
    ensures AllEnabled(q, Requeues(ids, now))
    ensures ApplyAll(q, Requeues(ids, now)) == q.(jobs := RequeueSome(q.jobs, Elements(ids)))
  {
    if ids == [] {
      assert q.jobs == RequeueSome(q.jobs, {});
    } else {
      var before, id := ids[..|ids| - 1], ids[|ids| - 1];
      RequeuesRun(q, now, before);
      assert Requeues(ids, now)[..|before|] == Requeues(before, now);
      assert ApplyAll(q, Requeues(before, now)).jobs[id] == q.jobs[id];
      assert Elements(ids) == Elements(before) + {id};
      assert ApplyAll(q, Requeues(ids, now)).jobs == RequeueSome(q.jobs, Elements(ids));
    }
  }

  /** The state in which a transaction's own event happens. */
  function Reclaimed(q: Queue, tx: Tx): Queue { if Reclaims(tx) then q.(jobs := RequeueAll(q.jobs, tx.now)) else q }

  lemma ReclaimRun(q: Queue, tx: Tx, q': Queue)
    requires TxStep(q, tx, q')
    ensures AllEnabled(q, ReclaimEvents(tx)) && ApplyAll(q, ReclaimEvents(tx)) == Reclaimed(q, tx)
  {
    if Reclaims(tx) {
      assert Elements(tx.requeued) == ExpiredIds(q.jobs, tx.now);
      RequeuesRun(q, tx.now, tx.requeued);
    }
  }

  /** A transaction's own event is accepted in the state after its requeues, and leads to the committed state. */
  lemma OwnEventRun(q: Queue, tx: Tx, q': Queue)
    requires TxStep(q, tx, q')
    ensures AllEnabled(Reclaimed(q, tx), OwnEvents(q, tx))
    ensures ApplyAll(Reclaimed(q, tx), OwnEvents(q, tx)) == q'
  {
    if OwnEvents(q, tx) != [] { ApplyOne(Reclaimed(q, tx), OwnEvent(tx).value); }
  }

  /** The events of every transaction are enabled and lead exactly to the committed state. */
  lemma TxRefines(q: Queue, tx: Tx, q': Queue)
    requires TxStep(q, tx, q')
    ensures AllEnabled(q, TxEvents(q, tx)) && ApplyAll(q, TxEvents(q, tx)) == q'
  {
    ReclaimRun(q, tx, q');
    OwnEventRun(q, tx, q');
    AllEnabledConcat(q, ReclaimEvents(tx), OwnEvents(q, tx));
    ApplyAllConcat(q, ReclaimEvents(tx), OwnEvents(q, tx));
  }

  // ---- Runs ----

  /** Transaction `k` commits, and `steps[k]` are its events. */
  ghost predicate Commits(qs: seq<Queue>, txs: seq<Tx>, steps: seq<seq<Event>>, k: nat)
    requires k < |txs| == |steps| < |qs|
  {
    TxStep(qs[k], txs[k], qs[k + 1]) && steps[k] == TxEvents(qs[k], txs[k])
  }

  /**
   The states between serial transactions, from empty tables, and the events of
   each transaction. `Flatten(steps, n)` is the run of events of the first `n`.
   */
  ghost predicate IsSqlRun(qs: seq<Queue>, txs: seq<Tx>, steps: seq<seq<Event>>) {
    && |qs| == |txs| + 1 && |steps| == |txs| && qs[0] == EMPTY
    && forall k :: 0 <= k < |txs| ==> Commits(qs, txs, steps, k)
  }

  /** Every run of transactions has its events. */
  lemma RunHasEvents(qs: seq<Queue>, txs: seq<Tx>) returns (steps: seq<seq<Event>>)
    requires |qs| == |txs| + 1 && qs[0] == EMPTY
    requires forall k :: 0 <= k < |txs| ==> TxStep(qs[k], txs[k], qs[k + 1])
    ensures IsSqlRun(qs, txs, steps)
  {
    steps := seq(|txs|, k requires 0 <= k < |txs| < |qs| => TxEvents(qs[k], txs[k]));
    forall k | 0 <= k < |txs| ensures Commits(qs, txs, steps, k) {
      assert TxStep(qs[k], txs[k], qs[k + 1]);
    }
  }

  /** Fresh UUIDs: no two claims draw the same token. */
  ghost predicate FreshClaimTokens(txs: seq<Tx>) {
    forall i, j :: 0 <= i < j < |txs| && txs[i].TxClaim? && txs[j].TxClaim? ==> txs[i].token != txs[j].token
  }

  /** Wall times of the commits; a transaction that requeues read its clock no later. */
  ghost predicate ClockedTxs(txs: seq<Tx>, walls: seq<Time>) {
    && |walls| == |txs|
    && (forall i, j :: 0 <= i <= j < |walls| ==> walls[i] <= walls[j])
    && (forall i :: 0 <= i < |txs| && Reclaims(txs[i]) ==> txs[i].now <= walls[i])
  }

  lemma RunGrows(es: seq<Event>, q: Queue, tx: Tx, q': Queue)
    requires IsRun(es) && At(es) == q && TxStep(q, tx, q')
    ensures IsRun(es + TxEvents(q, tx)) && At(es + TxEvents(q, tx)) == q'
  {
    TxRefines(q, tx, q');
    AllEnabledConcat(EMPTY, es, TxEvents(q, tx));
    ApplyAllConcat(EMPTY, es, TxEvents(q, tx));
  }

  /** At every boundary between transactions the run of events has reached exactly the committed state. */
  lemma {:induction false} SqlRunRefines(qs: seq<Queue>, txs: seq<Tx>, steps: seq<seq<Event>>, n: nat)
    requires IsSqlRun(qs, txs, steps) && n <= |txs|
    ensures IsRun(Flatten(steps, n)) && At(Flatten(steps, n)) == qs[n]
  {
    if n > 0 {
      SqlRunRefines(qs, txs, steps, n - 1);
      assert Commits(qs, txs, steps, n - 1);
      RunGrows(Flatten(steps, n - 1), qs[n - 1], txs[n - 1], qs[n]);
    }
  }

  /** The tokens drawn by the first `n` transactions. */
  function Drawn(txs: seq<Tx>, n: nat): set<Token>
    requires n <= |txs|
  {
    if n == 0 then {} else Drawn(txs, n - 1) + if txs[n - 1].TxClaim? then {txs[n - 1].token} else {}
  }

  lemma {:induction false} DrawnBefore(txs: seq<Tx>, n: nat, token: Token)
    requires n <= |txs| && token in Drawn(txs, n)
    ensures exists k :: 0 <= k < n && txs[k].TxClaim? && txs[k].token == token
  {
    if !(txs[n - 1].TxClaim? && txs[n - 1].token == token) { DrawnBefore(txs, n - 1, token); }
  }

  /** Only a claim transaction performs a claim event: one, with its own token. */
  lemma ClaimsOf(q: Queue, tx: Tx)
    ensures forall e <- TxEvents(q, tx) :: e.Claim? ==> tx.TxClaim? && e.token == tx.token
    ensures DistinctTokens(TxEvents(q, tx))
  {}

  lemma {:induction false} SqlTokensAreDistinct(qs: seq<Queue>, txs: seq<Tx>, steps: seq<seq<Event>>, n: nat)
    requires IsSqlRun(qs, txs, steps) && FreshClaimTokens(txs) && n <= |txs|
    ensures DistinctTokens(Flatten(steps, n))
    ensures forall e <- Flatten(steps, n) :: e.Claim? ==> e.token in Drawn(txs, n)
  {
    if n > 0 {
      var es, tx := Flatten(steps, n - 1), txs[n - 1];
      SqlTokensAreDistinct(qs, txs, steps, n - 1);
      assert Commits(qs, txs, steps, n - 1);
      ClaimsOf(qs[n - 1], tx);
      if tx.TxClaim? && tx.token in Drawn(txs, n - 1) { DrawnBefore(txs, n - 1, tx.token); }
      DistinctTokensConcat(es, steps[n - 1], Drawn(txs, n - 1));
      assert forall e <- Flatten(steps, n) :: e in es || e in steps[n - 1];
    }
  }

  lemma RequeueClocks(q: Queue, tx: Tx)
    ensures forall e <- TxEvents(q, tx) :: e.Requeue? ==> Reclaims(tx) && e.now == tx.now
  {}

  /** Each event happens at the wall time of its own transaction, and a requeue no earlier than its clock reading. */
  lemma {:induction false} SqlRunIsClocked(qs: seq<Queue>, txs: seq<Tx>, steps: seq<seq<Event>>, walls: seq<Time>, n: nat)
    requires IsSqlRun(qs, txs, steps) && ClockedTxs(txs, walls) && n <= |txs|
    ensures Clocked(Flatten(steps, n), FlattenWalls(steps, walls, n))
    ensures forall w <- FlattenWalls(steps, walls, n) :: n > 0 && w <= walls[n - 1]
  {
    if n > 0 {
      SqlRunIsClocked(qs, txs, steps, walls, n - 1);
      assert Commits(qs, txs, steps, n - 1);
      assert n > 1 ==> walls[n - 2] <= walls[n - 1];
      RequeueClocks(qs[n - 1], txs[n - 1]);
      ClockedConcat(Flatten(steps, n - 1), FlattenWalls(steps, walls, n - 1), steps[n - 1], walls[n - 1]);
    }
  }
}
