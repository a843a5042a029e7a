/**
 The DynamoDB job repository. An operation is a series of requests: reads that
 may be stale, then one conditional write or transaction. Steps of different
 processes interleave freely; a process may stop between any two requests.
 */
module DynamoQueue {

  import opened Wrappers
  import opened LeaseQueue
  import opened QueueRuns
  import opened QueueTerms

  type Proc = nat

  datatype Eligibility = QueuedJob | ExpiredLease

  /** What a `claim` call has read and not yet written back. */
  datatype Candidate = Candidate(id: JobId, job: Job, eligibility: Eligibility, now: Time, leaseSeconds: nat)

  /**
   The table, what each process holds in memory, every version of every job
   item ever stored (a stale read returns one of them), and the tokens drawn.
   */
  datatype Table = Table(
    jobs: map<JobId, Job>,
    objectIndex: map<string, JobId>,
    astrometryIndex: map<nat, JobId>,
    served: map<Owner, Time>,
    versions: set<(JobId, Job)>,
    candidates: map<Proc, Candidate>,
    tokens: set<Token>)

  const NEW := Table(map[], map[], map[], map[], {}, map[], {})

  datatype Step =
    | PutJob(id: JobId, job: Job)                                               // enqueue transaction
    | RequeueIfExpired(id: JobId, now: Time)                                    // one write of reclaim_expired
    | ReadRequested(proc: Proc, id: JobId, now: Time, leaseSeconds: nat)        // consistent read
    | ReadQueued(proc: Proc, id: JobId, job: Job, now: Time, leaseSeconds: nat) // stale reads, any queued version
    | WriteClaim(proc: Proc, token: Token)                                      // job and client transaction
    | WriteHeartbeat(id: JobId, token: Token, now: Time, leaseSeconds: nat)
    | WriteComplete(id: JobId, token: Token, now: Time, solution: Option<string>, error: Option<string>)
    | Stop(proc: Proc)

  /** What a step may be: a stale read returns some stored version, a token is fresh. */
  predicate Possible(t: Table, s: Step) {
    match s
    case ReadQueued(_, id, job, _, _) => (id, job) in t.versions && job.status == Queued
    case WriteClaim(proc, token) => proc in t.candidates && token !in t.tokens
    case _ => true
  }

  /** The candidate a consistent read of the requested job yields. */
  function RequestedCandidate(jobs: map<JobId, Job>, id: JobId, now: Time, leaseSeconds: nat): Option<Candidate> {
    if id !in jobs then None
    else if jobs[id].status == Queued then Some(Candidate(id, jobs[id], QueuedJob, now, leaseSeconds))
    else if Expired(jobs[id], now) then Some(Candidate(id, jobs[id], ExpiredLease, now, leaseSeconds))
    else None
  }

  /** The condition expression of the claim transaction, tested against the stored item. */
  predicate ClaimCondition(jobs: map<JobId, Job>, c: Candidate) {
    c.id in jobs &&
    match c.eligibility
    case QueuedJob => jobs[c.id].status == Queued
    case ExpiredLease => Expired(jobs[c.id], c.now)
  }

  /** The conditions on the job item and on its two index items. */
  predicate MayPut(t: Table, id: JobId, job: Job) {
    id !in t.jobs && job.objectKey !in t.objectIndex && AstrometryId(id) !in t.astrometryIndex
  }

  function Store(t: Table, id: JobId, job: Job): Table {
    t.(jobs := t.jobs[id := job], versions := t.versions + {(id, job)})
  }

  function Forget(t: Table, proc: Proc): Table { t.(candidates := t.candidates - {proc}) }

  /** What a claim call does to the table whether or not its condition holds. */
  function Drawn(t: Table, proc: Proc, token: Token): Table { Forget(t, proc).(tokens := t.tokens + {token}) }

  /** One request. A failed condition leaves the table as it was. */
  function Exec(t: Table, s: Step): Table {
    match s
    case PutJob(id, job) =>
      if !MayPut(t, id, job) then t
      else Store(t, id, QueuedRow(job)).(objectIndex := t.objectIndex[job.objectKey := id],
                                         astrometryIndex := t.astrometryIndex[AstrometryId(id) := id])
    case RequeueIfExpired(id, now) =>
      if id in t.jobs && Expired(t.jobs[id], now) then Store(t, id, RequeuedRow(t.jobs[id])) else t
    case ReadRequested(proc, id, now, leaseSeconds) =>
      var c := RequestedCandidate(t.jobs, id, now, leaseSeconds);
      if c.Some? then t.(candidates := t.candidates[proc := c.value]) else Forget(t, proc)
    case ReadQueued(proc, id, job, now, leaseSeconds) =>
      t.(candidates := t.candidates[proc := Candidate(id, job, QueuedJob, now, leaseSeconds)])
    case WriteClaim(proc, token) =>
      if proc !in t.candidates then t else
      var c := t.candidates[proc];
      var drawn := Drawn(t, proc, token);
      if !ClaimCondition(t.jobs, c) then drawn else
      Store(drawn, c.id, ClaimedRow(t.jobs[c.id], token, c.now, LeaseUntil(c.now, c.leaseSeconds)))
        .(served := t.served[c.job.owner := c.now])
    case WriteHeartbeat(id, token, now, leaseSeconds) =>
      if id in t.jobs && HoldsLease(t.jobs[id], token, now)
      then Store(t, id, t.jobs[id].(leaseExpires := Some(LeaseUntil(now, leaseSeconds)))) else t
    case WriteComplete(id, token, now, solution, error) =>
      if id in t.jobs && HoldsLease(t.jobs[id], token, now) && (solution.Some? || error.Some?)
      then Store(t, id, CompletedRow(t.jobs[id], now, solution, error)) else t
    case Stop(proc) => Forget(t, proc)
  }

  /** The lease `claim` returns: assembled from the candidate it read, not from the stored item. */
  function ReturnedLease(t: Table, s: Step): Option<JobLease> {
    if s.WriteClaim? && s.proc in t.candidates && ClaimCondition(t.jobs, t.candidates[s.proc]) then
      var c := t.candidates[s.proc];
      Some(JobLease(c.id, s.token, LeaseUntil(c.now, c.leaseSeconds), c.job.filename, c.job.options))
    else None
  }

  // ---- Refinement of the abstract queue ----

  function Abs(t: Table): Queue { Queue(t.jobs, t.served) }

  /** The abstract events one request performs; a takeover of an expired lease is a requeue and a claim. */
  function EventsOf(t: Table, s: Step): seq<Event> {
    match s
    case PutJob(id, job) => if MayPut(t, id, job) then [Enqueue(id, job)] else []
    case RequeueIfExpired(id, now) => if id in t.jobs && Expired(t.jobs[id], now) then [Requeue(id, now)] else []
    case WriteClaim(proc, token) =>
      if proc !in t.candidates || !ClaimCondition(t.jobs, t.candidates[proc]) then [] else
      var c := t.candidates[proc];
      (if c.eligibility == ExpiredLease then [Requeue(c.id, c.now)] else [])
      + [Claim(c.id, token, c.now, LeaseUntil(c.now, c.leaseSeconds))]
    case WriteHeartbeat(id, token, now, leaseSeconds) =>
      if id in t.jobs && HoldsLease(t.jobs[id], token, now)
      then [Heartbeat(id, token, now, LeaseUntil(now, leaseSeconds))] else []
    case WriteComplete(id, token, now, solution, error) =>
      if id in t.jobs && HoldsLease(t.jobs[id], token, now) && (solution.Some? || error.Some?)
      then [Complete(id, token, now, solution, error)] else []
    case _ => []
  }

  ghost predicate VersionsAgree(jobs: map<JobId, Job>, versions: set<(JobId, Job)>) {
    && (forall v <- versions :: v.0 in jobs && SameUpload(v.1, jobs[v.0]))
    && (forall id <- jobs :: (id, jobs[id]) in versions)
  }

  ghost predicate IndexesAgree(jobs: map<JobId, Job>, objectIndex: map<string, JobId>, astrometryIndex: map<nat, JobId>) {
    && (forall id <- jobs :: jobs[id].objectKey in objectIndex && objectIndex[jobs[id].objectKey] == id)
    && (forall id <- jobs :: AstrometryId(id) in astrometryIndex)
  }

  ghost predicate CandidatesAgree(candidates: map<Proc, Candidate>, versions: set<(JobId, Job)>) {
    forall p <- candidates :: (candidates[p].id, candidates[p].job) in versions
  }

  ghost predicate Inv(t: Table) {
    && VersionsAgree(t.jobs, t.versions)
    && IndexesAgree(t.jobs, t.objectIndex, t.astrometryIndex)
    && CandidatesAgree(t.candidates, t.versions)
  }

  lemma StoreKeepsInv(t: Table, id: JobId, job: Job)
    requires Inv(t) && id in t.jobs && SameUpload(job, t.jobs[id])
    ensures Inv(Store(t, id, job))
  {
    var t' := Store(t, id, job);
    forall v <- t'.versions ensures v.0 in t'.jobs && SameUpload(v.1, t'.jobs[v.0]) {
      if v in t.versions { assert v.0 in t.jobs && SameUpload(v.1, t.jobs[v.0]); }
    }
  }

  lemma PutKeepsInv(t: Table, id: JobId, job: Job)
    requires Inv(t)
    ensures Inv(Exec(t, PutJob(id, job)))
  {
    var t' := Exec(t, PutJob(id, job));
    forall v <- t'.versions ensures v.0 in t'.jobs && SameUpload(v.1, t'.jobs[v.0]) {
      if v in t.versions { assert v.0 in t.jobs && SameUpload(v.1, t.jobs[v.0]); }
    }
  }

  lemma DrawnKeepsInv(t: Table, proc: Proc, token: Token)
    requires Inv(t)
    ensures Inv(Drawn(t, proc, token))
  {}

  lemma WriteClaimKeepsInv(t: Table, proc: Proc, token: Token)
    requires Inv(t) && Possible(t, WriteClaim(proc, token))
    ensures Inv(Exec(t, WriteClaim(proc, token)))
  {
    var c := t.candidates[proc];
    var drawn := Drawn(t, proc, token);
    DrawnKeepsInv(t, proc, token);
    if c.id in t.jobs {
      StoreKeepsInv(drawn, c.id, ClaimedRow(t.jobs[c.id], token, c.now, LeaseUntil(c.now, c.leaseSeconds)));
    }
  }

  lemma InvHolds(t: Table, s: Step)
    requires Inv(t) && Possible(t, s)
    ensures Inv(Exec(t, s))
  {
    match s
    case PutJob(id, job) => PutKeepsInv(t, id, job);
    case RequeueIfExpired(id, now) =>
      if id in t.jobs { StoreKeepsInv(t, id, RequeuedRow(t.jobs[id])); }
    case ReadRequested(_, _, _, _) =>
    case ReadQueued(_, _, _, _, _) =>
    case WriteClaim(proc, token) => WriteClaimKeepsInv(t, proc, token);
    case WriteHeartbeat(id, _, now, leaseSeconds) =>
      if id in t.jobs { StoreKeepsInv(t, id, t.jobs[id].(leaseExpires := Some(LeaseUntil(now, leaseSeconds)))); }
    case WriteComplete(id, _, now, solution, error) =>
      if id in t.jobs { StoreKeepsInv(t, id, CompletedRow(t.jobs[id], now, solution, error)); }
    case Stop(_) =>
  }

  /** A takeover of an expired lease is exactly a requeue followed by a claim. */
  lemma ClaimRefines(t: Table, proc: Proc, token: Token)
    requires Inv(t) && proc in t.candidates && ClaimCondition(t.jobs, t.candidates[proc])
    ensures var s := WriteClaim(proc, token);
      && AllEnabled(Abs(t), EventsOf(t, s))
      && ApplyAll(Abs(t), EventsOf(t, s)) == Abs(Exec(t, s))
  {
    var c := t.candidates[proc];
    var claim := Claim(c.id, token, c.now, LeaseUntil(c.now, c.leaseSeconds));
    assert (c.id, c.job) in t.versions && SameUpload(c.job, t.jobs[c.id]);
    match c.eligibility
    case QueuedJob =>
      assert EventsOf(t, WriteClaim(proc, token)) == [claim];
      ApplyOne(Abs(t), claim);
    case ExpiredLease =>
      var requeued := Apply(Abs(t), Requeue(c.id, c.now));
      ApplyTwo(Abs(t), Requeue(c.id, c.now), claim);
      assert Apply(requeued, claim).jobs == Abs(Exec(t, WriteClaim(proc, token))).jobs;
  }

  /** Every request refines the abstract queue: its events are enabled and lead exactly to the new table. */
  lemma StepRefines(t: Table, s: Step)
    requires Inv(t) && Possible(t, s)
    ensures AllEnabled(Abs(t), EventsOf(t, s))
    ensures ApplyAll(Abs(t), EventsOf(t, s)) == Abs(Exec(t, s))
  {
    var es := EventsOf(t, s);
    if s.WriteClaim? && es != [] {
      ClaimRefines(t, s.proc, s.token);
    } else if es != [] {
      assert es == [es[0]];
      ApplyOne(Abs(t), es[0]);
    }
  }

  /** A lease built from a stale candidate still names the stored token, expiry, filename and options. */
  lemma StaleCandidateLease(t: Table, s: Step)
    requires Inv(t) && Possible(t, s) && ReturnedLease(t, s).Some?
    ensures var lease := ReturnedLease(t, s).value; var t' := Exec(t, s);
      && lease.id in t'.jobs
      && t'.jobs[lease.id].leaseToken == Some(lease.token)
      && t'.jobs[lease.id].leaseExpires == Some(lease.expires)
      && t'.jobs[lease.id].filename == lease.filename
      && t'.jobs[lease.id].options == lease.options
      && t'.served == t.served[t'.jobs[lease.id].owner := t.candidates[s.proc].now]
  {
    var c := t.candidates[s.proc];
    assert (c.id, c.job) in t.versions;
    assert SameUpload(c.job, t.jobs[c.id]);
  }

  /**
   A claim that nothing interrupts gets the lease: of the requested job when it is
   queued or its lease has run out, or of the queued job it chose. The lease lasts
   `leaseSeconds`, and at least one, and the call is over.
   */
  lemma UndisturbedClaim(t: Table, proc: Proc, requested: bool, id: JobId, now: Time, leaseSeconds: nat, token: Token)
    requires id in t.jobs
    requires var j := t.jobs[id];
      j.status == Queued || (requested && j.status == Solving && j.leaseExpires.Some? && j.leaseExpires.value <= now)
    ensures var read := Exec(t, if requested then ReadRequested(proc, id, now, leaseSeconds)
                                else ReadQueued(proc, id, t.jobs[id], now, leaseSeconds));
      var lease, t' := ReturnedLease(read, WriteClaim(proc, token)), Exec(read, WriteClaim(proc, token));
      var j, end := t.jobs[id], now + (if leaseSeconds < 1 then 1 else leaseSeconds) * 1_000_000_000;
      && lease == Some(JobLease(id, token, end, j.filename, j.options))
      && t'.jobs == t.jobs[id := j.(status := Solving, startedAt := Some(now), leaseToken := Some(token),
                                    leaseExpires := Some(end), attempts := j.attempts + 1)]
      && t'.served == t.served[j.owner := now]
      && proc !in t'.candidates
  {
    var read := Exec(t, if requested then ReadRequested(proc, id, now, leaseSeconds)
                        else ReadQueued(proc, id, t.jobs[id], now, leaseSeconds));
    assert read.candidates[proc].id == id && ClaimCondition(read.jobs, read.candidates[proc]);
  }

  // ---- Whole traces ----

  function Run(ss: seq<Step>): Table {
    if ss == [] then NEW else Exec(Run(ss[..|ss| - 1]), ss[|ss| - 1])
  }

  predicate IsTrace(ss: seq<Step>) {
    ss != [] ==> IsTrace(ss[..|ss| - 1]) && Possible(Run(ss[..|ss| - 1]), ss[|ss| - 1])
  }

  function TraceEvents(ss: seq<Step>): seq<Event> {
    if ss == [] then [] else TraceEvents(ss[..|ss| - 1]) + EventsOf(Run(ss[..|ss| - 1]), ss[|ss| - 1])
  }

  /** A claim hands out a token no earlier claim drew, and remembers it. */
  lemma StepDrawsFreshToken(t: Table, s: Step)
    requires Possible(t, s)
    ensures t.tokens <= Exec(t, s).tokens
    ensures forall e <- EventsOf(t, s) :: e.Claim? ==> e.token !in t.tokens && e.token in Exec(t, s).tokens
    ensures DistinctTokens(EventsOf(t, s))
  {}

  /** Every trace of interleaved requests is a run of the abstract queue with fresh tokens. */
  lemma {:induction false} TraceRefines(ss: seq<Step>)
    requires IsTrace(ss)
    ensures Inv(Run(ss))
    ensures IsRun(TraceEvents(ss)) && At(TraceEvents(ss)) == Abs(Run(ss))
    ensures DistinctTokens(TraceEvents(ss))
    ensures forall e <- TraceEvents(ss) :: e.Claim? ==> e.token in Run(ss).tokens
  {
    if ss != [] {
      var before, s := ss[..|ss| - 1], ss[|ss| - 1];
      var t, es := Run(before), TraceEvents(before);
      TraceRefines(before);
      InvHolds(t, s);
      StepRefines(t, s);
      AllEnabledConcat(EMPTY, es, EventsOf(t, s));
      ApplyAllConcat(EMPTY, es, EventsOf(t, s));
      StepDrawsFreshToken(t, s);
      DistinctTokensConcat(es, EventsOf(t, s), t.tokens);
      forall e <- es + EventsOf(t, s) | e.Claim? ensures e.token in Exec(t, s).tokens {
        assert e in es || e in EventsOf(t, s);
      }
    }
  }

  /** The wall time of each event is the wall time of the request that performed it. */
  function TraceWalls(ss: seq<Step>, walls: seq<Time>): seq<Time>
    requires |ss| == |walls|
  {
    if ss == [] then [] else
    var n := |ss| - 1;
    TraceWalls(ss[..n], walls[..n]) + seq(|EventsOf(Run(ss[..n]), ss[n])|, _ => walls[n])
  }

  /** Each write's clock was read no later than the write; the wall clock does not run backwards. */
  ghost predicate ClockedTrace(ss: seq<Step>, walls: seq<Time>) {
    && |walls| == |ss|
    && (forall i, j :: 0 <= i <= j < |walls| ==> walls[i] <= walls[j])
    && (forall i :: 0 <= i < |ss| && (ss[i].RequeueIfExpired? || ss[i].ReadRequested?) ==> ss[i].now <= walls[i])
  }

  ghost predicate CandidatesRead(t: Table, wall: Time) {
    forall p <- t.candidates :: t.candidates[p].eligibility == ExpiredLease ==> t.candidates[p].now <= wall
  }

  lemma StepIsClocked(t: Table, s: Step, wall: Time)
    requires CandidatesRead(t, wall)
    requires s.RequeueIfExpired? || s.ReadRequested? ==> s.now <= wall
    ensures CandidatesRead(Exec(t, s), wall)
    ensures forall e <- EventsOf(t, s) :: e.Requeue? ==> e.now <= wall
  {}

  lemma {:induction false} TraceIsClocked(ss: seq<Step>, walls: seq<Time>)
    requires IsTrace(ss) && ClockedTrace(ss, walls)
    ensures Clocked(TraceEvents(ss), TraceWalls(ss, walls))
    ensures forall w <- TraceWalls(ss, walls) :: |walls| > 0 && w <= walls[|walls| - 1]
    ensures |walls| > 0 ==> CandidatesRead(Run(ss), walls[|walls| - 1])
  {
    if ss != [] {
      var n := |ss| - 1;
      var t, es, past := Run(ss[..n]), TraceEvents(ss[..n]), TraceWalls(ss[..n], walls[..n]);
      TraceIsClocked(ss[..n], walls[..n]);
      assert n > 0 ==> walls[n - 1] <= walls[n];
      assert CandidatesRead(t, walls[n]);
      StepIsClocked(t, ss[n], walls[n]);
      ClockedConcat(es, past, EventsOf(t, ss[n]), walls[n]);
    }
  }

  /**
   Lease exclusivity under every interleaving of stale reads and conditional
   writes: when a job is claimed again, every expiry its earlier lease last
   held, renewals included, has passed on the wall clock.
   */
  lemma LeasesNeverOverlapInDynamo(ss: seq<Step>, walls: seq<Time>, i: nat, j: nat)
    requires IsTrace(ss) && ClockedTrace(ss, walls)
    requires var es := TraceEvents(ss); i < j < |es| && es[i].Claim? && es[j].Claim? && es[i].id == es[j].id
    ensures |TraceWalls(ss, walls)| == |TraceEvents(ss)|
    ensures LeaseEnd(TraceEvents(ss), i) <= TraceWalls(ss, walls)[j]
  {
    TraceRefines(ss);
    TraceIsClocked(ss, walls);
    LeasesNeverOverlap(TraceEvents(ss), TraceWalls(ss, walls), i, j);
  }

  // ---- Acceptance ----

  /** The index items name jobs that have what they stand for. */
  ghost predicate IndexesName(jobs: map<JobId, Job>, objectIndex: map<string, JobId>, astrometryIndex: map<nat, JobId>) {
    && (forall k <- objectIndex :: objectIndex[k] in jobs && jobs[objectIndex[k]].objectKey == k)
    && (forall a <- astrometryIndex :: astrometryIndex[a] in jobs && AstrometryId(astrometryIndex[a]) == a)
  }

  /** Only an enqueue stores index items; a row keeps its object key. */
  lemma RowsKeepKeys(t: Table, s: Step)
    requires !s.PutJob?
    ensures Exec(t, s).objectIndex == t.objectIndex && Exec(t, s).astrometryIndex == t.astrometryIndex
    ensures forall id <- t.jobs :: id in Exec(t, s).jobs && Exec(t, s).jobs[id].objectKey == t.jobs[id].objectKey
  {
    if s.WriteClaim? { ClaimKeepsKeys(t, s.proc, s.token); }
  }

  lemma ClaimKeepsKeys(t: Table, proc: Proc, token: Token)
    ensures var t' := Exec(t, WriteClaim(proc, token));
      && t'.objectIndex == t.objectIndex && t'.astrometryIndex == t.astrometryIndex
      && forall id <- t.jobs :: id in t'.jobs && t'.jobs[id].objectKey == t.jobs[id].objectKey
  {}

  lemma {:induction false} TraceIndexesName(ss: seq<Step>)
    ensures IndexesName(Run(ss).jobs, Run(ss).objectIndex, Run(ss).astrometryIndex)
  {
    if ss != [] {
      TraceIndexesName(ss[..|ss| - 1]);
      if !ss[|ss| - 1].PutJob? { RowsKeepKeys(Run(ss[..|ss| - 1]), ss[|ss| - 1]); }
    }
  }

  lemma MayPutIsExact(t: Table, id: JobId, job: Job)
    requires Inv(t) && IndexesName(t.jobs, t.objectIndex, t.astrometryIndex)
    ensures MayPut(t, id, job) <==>
      id !in t.jobs && forall k <- t.jobs :: AstrometryId(k) != AstrometryId(id) && t.jobs[k].objectKey != job.objectKey
  {
    if job.objectKey in t.objectIndex { assert t.objectIndex[job.objectKey] in t.jobs; }
    if AstrometryId(id) in t.astrometryIndex { assert t.astrometryIndex[AstrometryId(id)] in t.jobs; }
  }

  /** An enqueue request stores its job exactly when its ID, its Astrometry ID and its object key are new. */
  lemma EnqueueWrite(ss: seq<Step>, id: JobId, job: Job)
    requires IsTrace(ss)
    ensures var t := Run(ss);
      Exec(t, PutJob(id, job)).jobs ==
        if id !in t.jobs && forall k <- t.jobs :: AstrometryId(k) != AstrometryId(id) && t.jobs[k].objectKey != job.objectKey
        then t.jobs[id := job.(status := Queued, startedAt := None, completedAt := None, solution := None, error := None,
                               leaseToken := None, leaseExpires := None, attempts := 0)]
        else t.jobs
  {
    TraceRefines(ss);
    TraceIndexesName(ss);
    MayPutIsExact(Run(ss), id, job);
  }

  /** A write of the reclaim requeues its job exactly when its lease has run out. */
  lemma RequeueWrite(t: Table, id: JobId, now: Time)
    ensures Exec(t, RequeueIfExpired(id, now)).jobs ==
      if id in t.jobs && t.jobs[id].status == Solving && t.jobs[id].leaseExpires.Some? && t.jobs[id].leaseExpires.value <= now
      then t.jobs[id := t.jobs[id].(status := Queued, leaseToken := None, leaseExpires := None)] else t.jobs
  {}

  lemma HolderIsEnabled(ss: seq<Step>, id: JobId, token: Token, now: Time)
    requires IsTrace(ss)
    ensures IsHolder(TraceEvents(ss), id, token, now) <==> id in Run(ss).jobs && HoldsLease(Run(ss).jobs[id], token, now)
  {
    TraceRefines(ss);
    HeartbeatIsHolders(TraceEvents(ss), id, token, now, now);
    RunPush(TraceEvents(ss), Heartbeat(id, token, now, now));
  }

  lemma HeartbeatStep(t: Table, id: JobId, token: Token, now: Time, leaseSeconds: nat)
    ensures var t' := Exec(t, WriteHeartbeat(id, token, now, leaseSeconds));
      if id in t.jobs && HoldsLease(t.jobs[id], token, now)
      then var seconds := if leaseSeconds < 1 then 1 else leaseSeconds;
        t'.jobs == t.jobs[id := t.jobs[id].(leaseExpires := Some(now + seconds * 1_000_000_000))]
      else t' == t
  {}

  /** A heartbeat request renews exactly when it comes from the holder, for `leaseSeconds` and at least one. */
  lemma HeartbeatWrite(ss: seq<Step>, id: JobId, token: Token, now: Time, leaseSeconds: nat)
    requires IsTrace(ss)
    ensures IsHolder(TraceEvents(ss), id, token, now) ==> id in Run(ss).jobs
    ensures var t, t' := Run(ss), Exec(Run(ss), WriteHeartbeat(id, token, now, leaseSeconds));
      if IsHolder(TraceEvents(ss), id, token, now)
      then var seconds := if leaseSeconds < 1 then 1 else leaseSeconds;
        t'.jobs == t.jobs[id := t.jobs[id].(leaseExpires := Some(now + seconds * 1_000_000_000))]
      else t' == t
  {
    HolderIsEnabled(ss, id, token, now);
    HeartbeatStep(Run(ss), id, token, now, leaseSeconds);
  }

  /** A completion request ends the job exactly when it comes from the holder and has a result. */
  lemma CompletionWrite(ss: seq<Step>, id: JobId, token: Token, now: Time, solution: Option<string>, error: Option<string>)
    requires IsTrace(ss)
    ensures var t, t' := Run(ss), Exec(Run(ss), WriteComplete(id, token, now, solution, error));
      if IsHolder(TraceEvents(ss), id, token, now) && (solution.Some? || error.Some?) then
        && id in t'.jobs && t'.jobs[id].status == (if solution.Some? then Succeeded else Failed)
        && t'.jobs[id].solution == solution && t'.jobs[id].error == error && t'.jobs[id].completedAt == Some(now)
      else t' == t
  {
    HolderIsEnabled(ss, id, token, now);
  }
}
