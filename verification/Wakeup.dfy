/**
 The embedded workers: each registers with the notifier, then claims, then
 either solves or sleeps until it is notified or its fallback poll fires.
 Enqueuers commit a job, then notify every registered worker. Other processes,
 remote workers and the outbox dispatcher share the store and notify nobody.
 */
module Wakeup {

  import opened Wrappers
  import opened LeaseQueue
  import opened Scheduler
  import opened SqlxQueue

  type WorkerId = nat
  type Enqueuer = nat

  datatype Worker =
    | Starting                      // top of the loop, not registered
    | Registered(notified: bool)    // about to claim
    | Solving(lease: JobLease)
    | Sleeping(notified: bool)      // the claim found nothing
    | BackingOff                    // the claim failed with an error

  datatype State = State(queue: Queue, workers: map<WorkerId, Worker>, committed: set<Enqueuer>)

  datatype Step =
    | Register(w: WorkerId)
    | ClaimFrom(w: WorkerId, leaseSeconds: nat, now: Time, token: Token)
    | ClaimError(w: WorkerId)
    | Finish(w: WorkerId)           // the solve ended, whatever its outcome
    | WakeUp(w: WorkerId)           // notified, or the fallback poll fired
    | Renew(id: JobId, token: Token, leaseSeconds: nat, now: Time)
    | CompleteJob(id: JobId, token: Token, now: Time, solution: Option<string>, error: Option<string>)
    | Commit(e: Enqueuer, id: JobId, job: Job)
    | Notify(e: Enqueuer)
    | Renotify                      // an upload found its job already queued
    | Other(tx: Tx)                 // a transaction of a remote worker, another process or the dispatcher

  function Signal(worker: Worker): Worker {
    match worker
    case Registered(_) => Registered(true)
    case Sleeping(_) => Sleeping(true)
    case _ => worker
  }

  /** `notify_waiters`: every worker registered at this moment is notified, the others are not. */
  function SignalAll(workers: map<WorkerId, Worker>): map<WorkerId, Worker> {
    map w <- workers :: Signal(workers[w])
  }

  predicate Is(s: State, w: WorkerId, worker: Worker) { w in s.workers && s.workers[w] == worker }

  function Set(s: State, w: WorkerId, worker: Worker): State { s.(workers := s.workers[w := worker]) }

  function AfterClaim(worker: Worker, lease: Option<JobLease>): Worker
    requires worker.Registered?
  {
    if lease.Some? then Worker.Solving(lease.value) else Sleeping(worker.notified)
  }

  ghost predicate Next(s: State, step: Step, s': State) {
    match step
    case Register(w) => Is(s, w, Starting) && s' == Set(s, w, Registered(false))
    case ClaimFrom(w, leaseSeconds, now, token) =>
      && w in s.workers && s.workers[w].Registered?
      && s'.committed == s.committed
      && exists lease ::
           && ClaimTx(s.queue, None, leaseSeconds, now, token, lease, s'.queue)
           && s'.workers == s.workers[w := AfterClaim(s.workers[w], lease)]
    case ClaimError(w) => w in s.workers && s.workers[w].Registered? && s' == Set(s, w, BackingOff)
    case Finish(w) => w in s.workers && s.workers[w].Solving? && s' == Set(s, w, Starting)
    case WakeUp(w) => w in s.workers && (s.workers[w].Sleeping? || s.workers[w].BackingOff?) && s' == Set(s, w, Starting)
    case Renew(id, token, leaseSeconds, now) =>
      s' == s.(queue := Apply(s.queue, Heartbeat(id, token, now, LeaseUntil(now, leaseSeconds))))
    case CompleteJob(id, token, now, solution, error) =>
      s' == s.(queue := Apply(s.queue, Complete(id, token, now, solution, error)))
    case Commit(e, id, job) =>
      e !in s.committed
      && s' == s.(queue := Apply(s.queue, Enqueue(id, job)), committed := s.committed + {e})
    case Notify(e) => e in s.committed && s' == s.(workers := SignalAll(s.workers), committed := s.committed - {e})
    case Renotify => s' == s.(workers := SignalAll(s.workers))
    case Other(tx) => TxStep(s.queue, tx, s'.queue) && s' == s.(queue := s'.queue)
  }

  /** The server refuses to start without a worker. */
  ghost predicate Initial(s: State) {
    s.workers != map[] && s.committed == {} && forall w <- s.workers :: s.workers[w] == Starting
  }

  ghost predicate IsRun(states: seq<State>, steps: seq<Step>) {
    && |states| == |steps| + 1 && Initial(states[0])
    && forall i :: 0 <= i < |steps| ==> Next(states[i], steps[i], states[i + 1])
  }

  predicate AllAsleep(s: State) { forall w <- s.workers :: s.workers[w] == Sleeping(false) }

  predicate NothingQueued(q: Queue) { forall id <- q.jobs :: q.jobs[id].status != Queued }

  /** No worker will look at the queue before its fallback poll, and no notification is on its way. */
  predicate Quiet(s: State) { AllAsleep(s) && s.committed == {} }

  /** Someone is still going to look at the queue, or there is nothing to find. */
  predicate Attended(s: State) { NothingQueued(s.queue) || !Quiet(s) }

  // ---- What a transaction that notifies nobody may do ----

  /**
   The transaction leaves nothing queued behind. A claim of a particular job may
   find no other lease expired, any other claim at most one, and the dispatcher
   none; an enqueue must be refused.
   */
  predicate TakesAll(q: Queue, tx: Tx) {
    match tx
    case TxEnqueue(id, job) => !MayEnqueue(q.jobs, id, job.objectKey)
    case TxClaim(Some(wanted), _, now, _, _, _) => ExpiredIds(q.jobs, now) <= {wanted}
    case TxClaim(None, _, now, _, _, _) =>
      forall i, j :: i in ExpiredIds(q.jobs, now) && j in ExpiredIds(q.jobs, now) ==> i == j
    case TxReclaim(now, _) => ExpiredIds(q.jobs, now) == {}
    case _ => true
  }

  /** It strands a job: it leaves one queued while nobody is going to look. */
  predicate Strands(s: State, step: Step) {
    step.Other? && Quiet(s) && !TakesAll(s.queue, step.tx)
  }

  /** From a queue with nothing queued, a transaction leaves nothing queued exactly when it takes all. */
  lemma TakesAllIsExact(q: Queue, tx: Tx, q': Queue)
    requires NothingQueued(q) && TxStep(q, tx, q')
    ensures NothingQueued(q') <==> TakesAll(q, tx)
  {
    match tx
    case TxEnqueue(id, job) => if MayEnqueue(q.jobs, id, job.objectKey) { assert q'.jobs[id].status == Queued; }
    case TxClaim(requested, leaseSeconds, now, token, _, lease) =>
      ClaimTakesAll(q, requested, leaseSeconds, now, token, lease, q');
      ExpiredLeft(q, requested, leaseSeconds, now, token, lease, q');
    case TxReclaim(now, _) =>
      forall id <- ExpiredIds(q.jobs, now) ensures q'.jobs[id].status == Queued {}
    case _ =>
  }

  /** Of the expired leases, all but the one leased again are queued after a claim, and nothing else is. */
  lemma ClaimTakesAll(q: Queue, requested: Option<JobId>, leaseSeconds: nat, now: Time, token: Token,
                      lease: Option<JobLease>, q': Queue)
    requires NothingQueued(q) && ClaimTx(q, requested, leaseSeconds, now, token, lease, q')
    ensures NothingQueued(q') <==> forall id <- ExpiredIds(q.jobs, now) :: lease.Some? && lease.value.id == id
  {
    forall id <- ExpiredIds(q.jobs, now)
      ensures id in q'.jobs && (q'.jobs[id].status == Queued <==> !(lease.Some? && lease.value.id == id))
    {}
  }

  lemma ExpiredLeft(q: Queue, requested: Option<JobId>, leaseSeconds: nat, now: Time, token: Token,
                    lease: Option<JobLease>, q': Queue)
    requires NothingQueued(q) && ClaimTx(q, requested, leaseSeconds, now, token, lease, q')
    ensures lease.Some? ==> lease.value.id in ExpiredIds(q.jobs, now)
    ensures lease.Some? && requested.Some? ==> lease.value.id == requested.value
    ensures lease.None? ==> ExpiredIds(q.jobs, now) == {} || (requested.Some? && requested.value !in ExpiredIds(q.jobs, now))
  {
    var jobs := RequeueAll(q.jobs, now);
    forall id <- ExpiredIds(q.jobs, now) ensures id in jobs && jobs[id].status == Queued {}
  }

  // ---- Runs ----

  /** A step of the embedded workers keeps the queue attended; another transaction does exactly when it strands nothing. */
  lemma StepKeepsAttended(s: State, step: Step, s': State)
    requires Next(s, step, s') && Attended(s) && s.workers != map[]
    ensures Attended(s') <==> !Strands(s, step)
    ensures s'.workers.Keys == s.workers.Keys
  {
    if step.Notify? || step.Renotify? {
      var w :| w in s.workers;
      assert s'.workers[w] != Sleeping(false);
    } else if step.Register? || step.ClaimError? || step.Finish? || step.WakeUp? {
      assert s'.workers[step.w] != Sleeping(false);
    } else if step.ClaimFrom? {
      var lease :| ClaimTx(s.queue, None, step.leaseSeconds, step.now, step.token, lease, s'.queue)
        && s'.workers == s.workers[step.w := AfterClaim(s.workers[step.w], lease)];
      if lease.Some? { assert s'.workers[step.w] != Sleeping(false); }
    } else if step.Other? && NothingQueued(s.queue) {
      TakesAllIsExact(s.queue, step.tx, s'.queue);
    }
  }

  lemma {:induction false} RunIsAttended(states: seq<State>, steps: seq<Step>, n: nat)
    requires IsRun(states, steps) && n <= |steps|
    requires forall k :: 0 <= k < n ==> !Strands(states[k], steps[k])
    ensures Attended(states[n]) && states[n].workers != map[]
  {
    if n == 0 {
      var w :| w in states[0].workers;
      assert states[0].workers[w] != Sleeping(false);
    } else {
      RunIsAttended(states, steps, n - 1);
      StepKeepsAttended(states[n - 1], steps[n - 1], states[n]);
      assert states[n].workers.Keys != {};
    }
  }

  /**
   No lost wakeup: as long as no transaction of another process strands a job,
   in every state where all workers sleep un-notified and no enqueue stands
   between its commit and its notification, no job is queued, although one claim
   may requeue many expired jobs and take only one.
   */
  lemma NoLostWakeup(states: seq<State>, steps: seq<Step>, n: nat)
    requires IsRun(states, steps) && n <= |steps|
    requires forall k :: 0 <= k < n ==> !Strands(states[k], steps[k])
    requires Quiet(states[n])
    ensures NothingQueued(states[n].queue)
  {
    RunIsAttended(states, steps, n);
  }

  /** The condition is exact: a run loses a wakeup if and only if one of its steps strands a job. */
  lemma WakeupLostExactlyByStranding(states: seq<State>, steps: seq<Step>)
    requires IsRun(states, steps)
    ensures (forall n :: 0 <= n < |states| ==> Attended(states[n]))
       <==> (forall k :: 0 <= k < |steps| ==> !Strands(states[k], steps[k]))
  {
    if some: nat :| some < |steps| && Strands(states[some], steps[some]) {
      var k := FirstStranding(states, steps, some);
      RunIsAttended(states, steps, k);
      StepKeepsAttended(states[k], steps[k], states[k + 1]);
      assert !Attended(states[k + 1]);
    } else {
      forall n: nat | n < |states| ensures Attended(states[n]) {
        RunIsAttended(states, steps, n);
      }
    }
  }

  lemma FirstStranding(states: seq<State>, steps: seq<Step>, k: nat) returns (first: nat)
    requires |states| == |steps| + 1 && k < |steps| && Strands(states[k], steps[k])
    ensures first <= k && Strands(states[first], steps[first])
    ensures forall i :: 0 <= i < first ==> !Strands(states[i], steps[i])
  {
    if i: nat :| i < k && Strands(states[i], steps[i]) {
      first := FirstStranding(states, steps, i);
    } else {
      first := k;
    }
  }

  // ---- A wakeup arrives ----

  /** The one queued job is the best. */
  lemma OnlyIsBest(jobs: map<JobId, Job>, served: map<Owner, Time>, now: Time, id: JobId)
    requires id in jobs && jobs[id].status == Queued && forall k <- jobs :: k != id ==> jobs[k].status != Queued
    ensures IsBest(jobs, served, now, id)
  {
    assert !Beats(jobs[id], jobs[id], served, now);
  }

  lemma TakesTheNewJob(q: Queue, id: JobId, job: Job, leaseSeconds: nat, now: Time, token: Token)
    returns (q': Queue, q'': Queue)
    requires NothingQueued(q) && ExpiredIds(q.jobs, now) == {} && MayEnqueue(q.jobs, id, job.objectKey)
    ensures q' == Apply(q, Enqueue(id, job)) && q'.jobs == q.jobs[id := QueuedRow(job)]
    ensures ClaimTx(q', None, leaseSeconds, now, token,
                    Some(JobLease(id, token, LeaseUntil(now, leaseSeconds), job.filename, job.options)), q'')
  {
    q' := Apply(q, Enqueue(id, job));
    assert forall k <- q.jobs :: !Expired(q.jobs[k], now) by {
      forall k <- q.jobs ensures !Expired(q.jobs[k], now) { assert k !in ExpiredIds(q.jobs, now); }
    }
    assert ExpiredIds(q'.jobs, now) == {};
    NothingExpired(q', now);
    OnlyIsBest(q'.jobs, q.served, now, id);
    q'' := Queue(q'.jobs[id := ClaimedRow(q'.jobs[id], token, now, LeaseUntil(now, leaseSeconds))],
                 q'.served[job.owner := now]);
  }

  /**
   When all workers sleep over an empty queue, an enqueue and its notification
   reach every one of them; the one that claims first solves the job, and then
   looks again.
   */
  lemma NotifiedWorkerSolves(s: State, w: WorkerId, e: Enqueuer, id: JobId, job: Job, leaseSeconds: nat, now: Time, token: Token)
    returns (states: seq<State>)
    requires Quiet(s) && w in s.workers && NothingQueued(s.queue) && ExpiredIds(s.queue.jobs, now) == {}
    requires MayEnqueue(s.queue.jobs, id, job.objectKey)
    ensures |states| == 7 && states[0] == s
    ensures Next(states[0], Commit(e, id, job), states[1]) && Next(states[1], Notify(e), states[2])
    ensures Next(states[2], WakeUp(w), states[3]) && Next(states[3], Register(w), states[4])
    ensures Next(states[4], ClaimFrom(w, leaseSeconds, now, token), states[5]) && Next(states[5], Finish(w), states[6])
    ensures states[2].committed == {} && forall k <- s.workers :: Is(states[2], k, Sleeping(true))
    ensures Is(states[5], w, Worker.Solving(JobLease(id, token, LeaseUntil(now, leaseSeconds), job.filename, job.options)))
    ensures Is(states[6], w, Starting)
  {
    var q', q'' := TakesTheNewJob(s.queue, id, job, leaseSeconds, now, token);
    var lease := JobLease(id, token, LeaseUntil(now, leaseSeconds), job.filename, job.options);
    var s1 := State(q', s.workers, {e});
    var s2 := State(q', SignalAll(s.workers), {});
    assert s1.committed - {e} == {};
    var s3 := Set(s2, w, Starting);
    var s4 := Set(s3, w, Registered(false));
    var s5 := State(q'', s4.workers[w := Worker.Solving(lease)], {});
    var s6 := Set(s5, w, Starting);
    assert s.committed + {e} == {e};
    states := [s, s1, s2, s3, s4, s5, s6];
  }

  // ---- Stranding happens ----

  /**
   Whatever leases a server finds at startup, if none has run out at `t0` and a
   later transaction does not take all that has, then there is a run in which
   that transaction leaves a job queued while every embedded worker sleeps.
   */
  lemma StrandingRun(q: Queue, t0: Time, token: Token, tx: Tx, q': Queue) returns (states: seq<State>, steps: seq<Step>)
    requires NothingQueued(q) && ExpiredIds(q.jobs, t0) == {}
    requires TxStep(q, tx, q') && !TakesAll(q, tx)
    ensures IsRun(states, steps) && states[0].queue == q
    ensures steps == [Register(0), ClaimFrom(0, 1, t0, token), Other(tx)]
    ensures Quiet(states[3]) && !NothingQueued(states[3].queue)
  {
    var starting, registered := State(q, map[0 := Starting], {}), State(q, map[0 := Registered(false)], {});
    var asleep, stranded := State(q, map[0 := Sleeping(false)], {}), State(q', map[0 := Sleeping(false)], {});
    states := [starting, registered, asleep, stranded];
    steps := [Register(0), ClaimFrom(0, 1, t0, token), Other(tx)];
    NothingToClaim(q, 1, t0, token);
    assert map[0 := Registered(false)][0 := AfterClaim(Registered(false), None)] == asleep.workers;
    assert Next(starting, steps[0], registered) && Next(registered, steps[1], asleep) && Next(asleep, steps[2], stranded);
    TakesAllIsExact(q, tx, q');
    OneAsleep(stranded);
  }

  lemma OneAsleep(s: State)
    requires s.workers == map[0 := Sleeping(false)] && s.committed == {}
    ensures Quiet(s)
  {}

  lemma NothingToClaim(q: Queue, leaseSeconds: nat, now: Time, token: Token)
    requires NothingQueued(q) && ExpiredIds(q.jobs, now) == {}
    ensures ClaimTx(q, None, leaseSeconds, now, token, None, q)
  {
    NothingExpired(q, now);
  }

  lemma NothingExpired(q: Queue, now: Time)
    requires ExpiredIds(q.jobs, now) == {}
    ensures RequeueAll(q.jobs, now) == q.jobs
  {
    forall id <- q.jobs ensures !Expired(q.jobs[id], now) {
      assert id !in ExpiredIds(q.jobs, now);
    }
  }

  /** The claim transaction that leases job `id` for a minute when no lease has expired. */
  function LeaseTx(q: Queue, id: JobId, now: Time, token: Token): Tx
    requires id in q.jobs
  {
    var job := q.jobs[id];
    TxClaim(Some(id), 60, now, token, [], Some(JobLease(id, token, LeaseUntil(now, 60), job.filename, job.options)))
  }

  lemma LeaseLeads(q: Queue, id: JobId, now: Time, token: Token)
    requires ExpiredIds(q.jobs, now) == {} && id in q.jobs && q.jobs[id].status == Queued
    ensures var job := q.jobs[id];
      TxStep(q, LeaseTx(q, id, now, token),
             Queue(q.jobs[id := ClaimedRow(job, token, now, LeaseUntil(now, 60))], q.served[job.owner := now]))
  {
    NothingExpired(q, now);
  }

  function SampleJob(key: string, createdAt: Time): Job {
    Job("owner", 1.0, key, "image", "", createdAt, Queued, None, None, None, None, None, None, 0)
  }

  lemma SameScore(a: Job, b: Job, served: map<Owner, Time>, now: Time)
    requires a.owner == b.owner && a.weight == b.weight
    ensures Score(a, served, now) == Score(b, served, now)
  {}

  /** Among jobs of one owner and one weight the oldest is the best. */
  lemma OldestIsBest(jobs: map<JobId, Job>, served: map<Owner, Time>, now: Time, id: JobId)
    requires id in jobs && jobs[id].status == Queued
    requires forall k <- jobs ::
      jobs[k].owner == jobs[id].owner && jobs[k].weight == jobs[id].weight && jobs[id].createdAt <= jobs[k].createdAt
    ensures IsBest(jobs, served, now, id)
  {
    forall k <- jobs ensures !Beats(jobs[k], jobs[id], served, now) {
      SameScore(jobs[k], jobs[id], served, now);
    }
  }

  /** The state of two jobs of one owner, both leased at time 0 for a minute, is a committed one. */
  lemma TwoLeased() returns (qs: seq<Queue>, txs: seq<Tx>, events: seq<seq<Event>>)
    ensures IsSqlRun(qs, txs, events) && |txs| == 4 && qs[4].jobs == LeasedJobs()
  {
    var a, b := SampleJob("a", 1), SampleJob("b", 2);
    var q1, q2 := Queue(map[1 := a], map[]), Queue(map[1 := a, 2 := b], map[]);
    var q3 := Queue(map[1 := Leased("a", 1), 2 := b], map["owner" := 0]);
    var q4 := Queue(LeasedJobs(), map["owner" := 0]);
    EnqueueLeads(EMPTY, 1, a);
    EnqueueLeads(q1, 2, b);
    LeaseLeads(q2, 1, 0, 1);
    LeaseLeads(q3, 2, 0, 2);
    assert q1.jobs[2 := b] == q2.jobs;
    assert q2.jobs[1 := Leased("a", 1)] == q3.jobs;
    assert q3.jobs[2 := Leased("b", 2)] == q4.jobs;
    qs := [EMPTY, q1, q2, q3, q4];
    txs := [TxEnqueue(1, a), TxEnqueue(2, b), LeaseTx(q2, 1, 0, 1), LeaseTx(q3, 2, 0, 2)];
    events := RunHasEvents(qs, txs);
  }

  lemma EnqueueLeads(q: Queue, id: JobId, job: Job)
    requires MayEnqueue(q.jobs, id, job.objectKey)
    ensures TxStep(q, TxEnqueue(id, job), q.(jobs := q.jobs[id := QueuedRow(job)]))
  {}

  function Leased(key: string, id: JobId): Job { ClaimedRow(SampleJob(key, id), id, 0, LeaseUntil(0, 60)) }

  function LeasedJobs(): map<JobId, Job> { map[1 := Leased("a", 1), 2 := Leased("b", 2)] }

  /** Once both leases have run out, a claim for no particular job requeues both and takes the older one. */
  lemma ClaimTakesOneOfTwo(q: Queue, now: Time) returns (tx: Tx, q': Queue)
    requires q.jobs == LeasedJobs() && now >= LeaseUntil(0, 60)
    ensures tx.TxClaim? && tx.requested.None? && tx.lease.Some? && tx.now == now
    ensures TxStep(q, tx, q') && !TakesAll(q, tx)
  {
    var jobs := RequeueAll(q.jobs, now);
    assert ExpiredIds(q.jobs, now) == {1, 2};
    OldestIsBest(jobs, q.served, now, 1);
    tx := TxClaim(None, 60, now, 3, [1, 2], Some(JobLease(1, 3, LeaseUntil(now, 60), jobs[1].filename, jobs[1].options)));
    q' := Queue(jobs[1 := ClaimedRow(jobs[1], 3, now, LeaseUntil(now, 60))], q.served[jobs[1].owner := now]);
    assert 1 in ExpiredIds(q.jobs, now) && 2 in ExpiredIds(q.jobs, now);
  }

  /**
   An ordinary claim by a remote worker, for no particular job, strands a job: two
   leases run out while the one embedded worker sleeps, the remote worker takes
   one of the jobs, and the other stays queued.
   */
  lemma RemoteClaimStrandsAJob()
    returns (qs: seq<Queue>, txs: seq<Tx>, events: seq<seq<Event>>, states: seq<State>, steps: seq<Step>, tx: Tx)
    ensures IsSqlRun(qs, txs, events) && IsRun(states, steps) && states[0].queue == qs[|txs|]
    ensures |steps| == 3 && steps[2] == Other(tx) && tx.TxClaim? && tx.requested.None? && tx.lease.Some?
    ensures Quiet(states[3]) && !NothingQueued(states[3].queue)
  {
    var q': Queue;
    qs, txs, events := TwoLeased();
    tx, q' := ClaimTakesOneOfTwo(qs[4], LeaseUntil(0, 60));
    assert ExpiredIds(qs[4].jobs, SECOND) == {};
    states, steps := StrandingRun(qs[4], SECOND, 4, tx, q');
  }
}
