/**
 The durable job queue as both storage backends promise it: job rows, the time
 each owner was last served, and five atomic events. A lease is a token and an
 expiry stored in the job row; every later write must present the token.

 Event sequences start at the empty queue. No theorem here assumes that the
 clock readings carried by events are ordered, except where a wall clock is
 named explicitly.
 */
module LeaseQueue {

  import opened Wrappers

  type JobId = nat
  type Token = nat
  type Owner = string
  type Time = int // nanoseconds

  datatype Status = Queued | Solving | Succeeded | Failed

  /** One row of `jobs_v2`, or one `JOB#` item. */
  datatype Job = Job(
    owner: Owner,
    weight: real,
    objectKey: string,
    filename: string,
    options: string,
    createdAt: Time,
    status: Status,
    startedAt: Option<Time>,
    completedAt: Option<Time>,
    solution: Option<string>,
    error: Option<string>,
    leaseToken: Option<Token>,
    leaseExpires: Option<Time>,
    attempts: nat)

  datatype JobLease = JobLease(id: JobId, token: Token, expires: Time, filename: string, options: string)

  datatype Queue = Queue(jobs: map<JobId, Job>, served: map<Owner, Time>)

  const EMPTY := Queue(map[], map[])
  const SECOND: int := 1_000_000_000

  datatype Event =
    | Enqueue(id: JobId, job: Job)
    | Claim(id: JobId, token: Token, now: Time, expires: Time)
    | Requeue(id: JobId, now: Time)
    | Heartbeat(id: JobId, token: Token, now: Time, expires: Time)
    | Complete(id: JobId, token: Token, now: Time, solution: Option<string>, error: Option<string>)

  predicate Terminal(s: Status) { s == Succeeded || s == Failed }

  /** The fields an upload fixes and no later write touches. */
  predicate SameUpload(a: Job, b: Job) {
    a.owner == b.owner && a.weight == b.weight && a.objectKey == b.objectKey && a.filename == b.filename
    && a.options == b.options && a.createdAt == b.createdAt
  }

  /** `lease_expires_at <= now` on a solving row; a missing expiry never satisfies it. */
  predicate Expired(j: Job, now: Time) {
    j.status == Solving && j.leaseExpires.Some? && j.leaseExpires.value <= now
  }

  /** `status = 'solving' AND lease_token = token AND lease_expires_at > now`. */
  predicate HoldsLease(j: Job, token: Token, now: Time) {
    j.status == Solving && j.leaseToken == Some(token) && j.leaseExpires.Some? && j.leaseExpires.value > now
  }

  /** `now + max(1, lease_seconds)`. */
  function LeaseUntil(now: Time, leaseSeconds: nat): Time {
    now + (if leaseSeconds < 1 then 1 else leaseSeconds) * SECOND
  }

  function QueuedRow(j: Job): Job {
    j.(status := Queued, startedAt := None, completedAt := None, solution := None, error := None,
       leaseToken := None, leaseExpires := None, attempts := 0)
  }

  function ClaimedRow(j: Job, token: Token, now: Time, expires: Time): Job {
    j.(status := Solving, startedAt := Some(now), leaseToken := Some(token), leaseExpires := Some(expires),
       attempts := j.attempts + 1)
  }

  function RequeuedRow(j: Job): Job {
    j.(status := Queued, leaseToken := None, leaseExpires := None)
  }

  function CompletedRow(j: Job, now: Time, solution: Option<string>, error: Option<string>): Job {
    j.(status := if solution.Some? then Succeeded else Failed, completedAt := Some(now),
       solution := solution, error := error, leaseToken := None, leaseExpires := None)
  }

  /** The low 63 bits of the UUID, and never zero. Two jobs cannot share it. */
  function AstrometryId(id: JobId): (a: nat)
    ensures 1 <= a < 0x8000_0000_0000_0000
    ensures a != 1 ==> (id - a) % 0x8000_0000_0000_0000 == 0
  {
    var v := id % 0x8000_0000_0000_0000;
    if v < 1 then 1 else v
  }

  /** Neither the ID, nor the Astrometry ID, nor the object key is in use. */
  predicate MayEnqueue(jobs: map<JobId, Job>, id: JobId, objectKey: string) {
    id !in jobs && forall k <- jobs :: AstrometryId(k) != AstrometryId(id) && jobs[k].objectKey != objectKey
  }

  predicate Enabled(q: Queue, e: Event) {
    match e
    case Enqueue(id, job) => MayEnqueue(q.jobs, id, job.objectKey)
    case Claim(id, _, _, _) => id in q.jobs && q.jobs[id].status == Queued
    case Requeue(id, now) => id in q.jobs && Expired(q.jobs[id], now)
    case Heartbeat(id, token, now, _) => id in q.jobs && HoldsLease(q.jobs[id], token, now)
    case Complete(id, token, now, solution, error) =>
      id in q.jobs && HoldsLease(q.jobs[id], token, now) && (solution.Some? || error.Some?)
  }

  /** The queue after an event; an event that is not enabled changes nothing. */
  function Apply(q: Queue, e: Event): Queue {
    if !Enabled(q, e) then q else
    match e
    case Enqueue(id, job) => q.(jobs := q.jobs[id := QueuedRow(job)])
    case Claim(id, token, now, expires) =>
      Queue(q.jobs[id := ClaimedRow(q.jobs[id], token, now, expires)], q.served[q.jobs[id].owner := now])
    case Requeue(id, _) => q.(jobs := q.jobs[id := RequeuedRow(q.jobs[id])])
    case Heartbeat(id, _, _, expires) => q.(jobs := q.jobs[id := q.jobs[id].(leaseExpires := Some(expires))])
    case Complete(id, _, now, solution, error) =>
      q.(jobs := q.jobs[id := CompletedRow(q.jobs[id], now, solution, error)])
  }

  function ApplyAll(q: Queue, es: seq<Event>): Queue {
    if es == [] then q else Apply(ApplyAll(q, es[..|es| - 1]), es[|es| - 1])
  }

  predicate AllEnabled(q: Queue, es: seq<Event>) {
    es != [] ==> AllEnabled(q, es[..|es| - 1]) && Enabled(ApplyAll(q, es[..|es| - 1]), es[|es| - 1])
  }

  /** A run is a sequence of events, each enabled where it happens. */
  predicate IsRun(es: seq<Event>) { AllEnabled(EMPTY, es) }

  function At(es: seq<Event>): Queue { ApplyAll(EMPTY, es) }

  lemma {:induction false} RunPrefix(es: seq<Event>, n: nat)
    requires IsRun(es) && n <= |es|
    ensures IsRun(es[..n])
    ensures n < |es| ==> Enabled(At(es[..n]), es[n])
    decreases |es|
  {
    if n == |es| {
      assert es[..n] == es;
    } else if n < |es| - 1 {
      assert es[..|es| - 1][..n] == es[..n];
      RunPrefix(es[..|es| - 1], n);
    }
  }

  lemma {:induction false} ApplyAllConcat(q: Queue, a: seq<Event>, b: seq<Event>)
    ensures ApplyAll(q, a + b) == ApplyAll(ApplyAll(q, a), b)
    decreases |b|
  {
    if b == [] {
      assert a + b == a;
    } else {
      assert (a + b)[..|a + b| - 1] == a + b[..|b| - 1];
      ApplyAllConcat(q, a, b[..|b| - 1]);
    }
  }

  lemma {:induction false} AllEnabledConcat(q: Queue, a: seq<Event>, b: seq<Event>)
    requires AllEnabled(q, a) && AllEnabled(ApplyAll(q, a), b)
    ensures AllEnabled(q, a + b)
    decreases |b|
  {
    if b == [] {
      assert a + b == a;
    } else {
      assert (a + b)[..|a + b| - 1] == a + b[..|b| - 1];
      AllEnabledConcat(q, a, b[..|b| - 1]);
      ApplyAllConcat(q, a, b[..|b| - 1]);
    }
  }

  lemma RunPush(es: seq<Event>, e: Event)
    requires IsRun(es)
    ensures IsRun(es + [e]) <==> Enabled(At(es), e)
    ensures At(es + [e]) == Apply(At(es), e)
  {
    assert (es + [e])[..|es|] == es;
  }

  lemma ApplyOne(q: Queue, e: Event)
    requires Enabled(q, e)
    ensures AllEnabled(q, [e]) && ApplyAll(q, [e]) == Apply(q, e)
  {
    assert [e][..0] == [];
  }

  lemma ApplyTwo(q: Queue, e: Event, f: Event)
    requires Enabled(q, e) && Enabled(Apply(q, e), f)
    ensures AllEnabled(q, [e] + [f]) && ApplyAll(q, [e] + [f]) == Apply(Apply(q, e), f)
  {
    ApplyOne(q, e);
    assert ([e] + [f])[..1] == [e];
  }
}
