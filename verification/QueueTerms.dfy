/**
 When a worker's request is accepted, told from the events and clock readings
 alone, and what a job keeps of its upload.
 */
module QueueTerms {

  import opened Wrappers
  import opened LeaseQueue
  import opened QueueRuns

  // ---- The current lease of a job ----

  /** The most recent claim of the job. */
  function LatestClaim(es: seq<Event>, id: JobId): (r: Option<nat>)
    ensures r.Some? ==> r.value < |es| && es[r.value].Claim? && es[r.value].id == id
    ensures forall k :: (if r.Some? then r.value + 1 else 0) <= k < |es| ==> !(es[k].Claim? && es[k].id == id)
  {
    if es == [] then None else
    var n := |es| - 1;
    if es[n].Claim? && es[n].id == id then Some(n) else LatestClaim(es[..n], id)
  }

  lemma {:induction false} RequeuesClaimNothing(es: seq<Event>, requeues: seq<Event>, id: JobId)
    requires OnlyRequeues(requeues)
    ensures LatestClaim(es + requeues, id) == LatestClaim(es, id)
    decreases |requeues|
  {
    if requeues == [] {
      assert es + requeues == es;
    } else {
      var n := |requeues| - 1;
      assert (es + requeues)[..|es| + n] == es + requeues[..n];
      assert (es + requeues)[|es| + n] == requeues[n] && requeues[n] in requeues;
      RequeuesClaimNothing(es, requeues[..n], id);
    }
  }

  /** Some requeues, then at most one event of another kind. */
  lemma LatestClaimStep(es: seq<Event>, requeues: seq<Event>, own: seq<Event>, id: JobId)
    requires OnlyRequeues(requeues) && |own| <= 1
    ensures LatestClaim(es + (requeues + own), id)
         == if own != [] && own[0].Claim? && own[0].id == id then Some(|es| + |requeues|) else LatestClaim(es, id)
  {
    RequeuesClaimNothing(es, requeues, id);
    if own == [] {
      assert es + (requeues + own) == es + requeues;
    } else {
      assert es + (requeues + own) == (es + requeues) + [own[0]];
      assert ((es + requeues) + [own[0]])[..|es + requeues|] == es + requeues;
    }
  }

  /** Neither requeued nor completed since event `i`. */
  ghost predicate Undisturbed(es: seq<Event>, i: nat, id: JobId) {
    forall k :: i < k < |es| && es[k].id == id ==> !es[k].Requeue? && !es[k].Complete?
  }

  /** The token is that of the job's latest claim, nothing has ended that lease, and it has not run out at `now`. */
  ghost predicate IsHolder(es: seq<Event>, id: JobId, token: Token, now: Time) {
    var i := LatestClaim(es, id);
    i.Some? && es[i.value].token == token && Undisturbed(es, i.value, id) && now < LeaseEnd(es, i.value)
  }

  ghost predicate RowOfLease(es: seq<Event>, id: JobId, i: nat)
    requires i < |es| && es[i].Claim?
  {
    && id in At(es).jobs
    && At(es).jobs[id].leaseToken == Some(es[i].token)
    && At(es).jobs[id].leaseExpires == Some(LeaseEnd(es, i))
  }

  /** A job is solving exactly while nothing has ended its latest lease; then its row holds that lease's token and end. */
  ghost predicate LeaseIsStored(es: seq<Event>, id: JobId) {
    match LatestClaim(es, id)
    case None => id in At(es).jobs ==> At(es).jobs[id].status != Solving
    case Some(i) =>
      && id in At(es).jobs
      && (At(es).jobs[id].status == Solving <==> Undisturbed(es, i, id))
      && (At(es).jobs[id].status == Solving ==> RowOfLease(es, id, i))
  }

  lemma LeaseAfter(before: seq<Event>, e: Event, es: seq<Event>, id: JobId)
    requires es == before + [e] && IsRun(es) && LeaseIsStored(before, id)
    ensures LeaseIsStored(es, id)
  {
    assert es[..|before|] == before;
    var i := LatestClaim(before, id);
    if i.Some? && !(e.Claim? && e.id == id) {
      assert Undisturbed(es, i.value, id) <==> Undisturbed(before, i.value, id) && !(e.id == id && (e.Requeue? || e.Complete?)) by {
        assert forall k :: i.value < k < |before| ==> es[k] == before[k];
        assert es[|before|] == e;
      }
    }
  }

  lemma {:induction false} LeaseStays(es: seq<Event>, id: JobId)
    requires IsRun(es)
    ensures LeaseIsStored(es, id)
  {
    if es != [] {
      var n := |es| - 1;
      LeaseStays(es[..n], id);
      LeaseAfter(es[..n], es[n], es, id);
    }
  }

  /**
   A heartbeat is accepted exactly when it comes from the holder: with the token
   of the job's latest claim, before the last expiry granted to that lease, and
   with no requeue or completion of the job in between. It then renews the lease.
   */
  lemma HeartbeatIsHolders(es: seq<Event>, id: JobId, token: Token, now: Time, expires: Time)
    requires IsRun(es)
    ensures IsRun(es + [Heartbeat(id, token, now, expires)]) <==> IsHolder(es, id, token, now)
    ensures IsHolder(es, id, token, now) ==>
      var q := At(es + [Heartbeat(id, token, now, expires)]);
      id in q.jobs && q.jobs[id] == At(es).jobs[id].(leaseExpires := Some(expires))
  {
    RunPush(es, Heartbeat(id, token, now, expires));
    LeaseStays(es, id);
    JobHistory(es, id);
  }

  /** So is a completion with a result; it then ends the job. */
  lemma CompletionIsHolders(es: seq<Event>, id: JobId, token: Token, now: Time, solution: Option<string>, error: Option<string>)
    requires IsRun(es)
    ensures IsRun(es + [Complete(id, token, now, solution, error)])
       <==> IsHolder(es, id, token, now) && (solution.Some? || error.Some?)
    ensures IsHolder(es, id, token, now) && (solution.Some? || error.Some?) ==>
      var q := At(es + [Complete(id, token, now, solution, error)]);
      && id in q.jobs && q.jobs[id].status == (if solution.Some? then Succeeded else Failed)
      && q.jobs[id].solution == solution && q.jobs[id].error == error && q.jobs[id].completedAt == Some(now)
  {
    RunPush(es, Complete(id, token, now, solution, error));
    LeaseStays(es, id);
    JobHistory(es, id);
  }

  /** In every run each accepted heartbeat and completion came from the holder of the time. */
  lemma AcceptedFromHolder(es: seq<Event>, k: nat)
    requires IsRun(es) && k < |es| && (es[k].Heartbeat? || es[k].Complete?)
    ensures IsHolder(es[..k], es[k].id, es[k].token, es[k].now)
  {
    RunPrefix(es, k);
    RunPrefix(es, k + 1);
    assert es[..k + 1] == es[..k] + [es[k]];
    if es[k].Heartbeat? {
      HeartbeatIsHolders(es[..k], es[k].id, es[k].token, es[k].now, es[k].expires);
    } else {
      CompletionIsHolders(es[..k], es[k].id, es[k].token, es[k].now, es[k].solution, es[k].error);
    }
  }

  // ---- Requeues and claims ----

  /** A lease can be taken away exactly from its end on. */
  lemma RequeueIsAfterEnd(es: seq<Event>, id: JobId, now: Time)
    requires IsRun(es)
    ensures IsRun(es + [Requeue(id, now)]) <==>
      var i := LatestClaim(es, id); i.Some? && Undisturbed(es, i.value, id) && LeaseEnd(es, i.value) <= now
  {
    RunPush(es, Requeue(id, now));
    LeaseStays(es, id);
    JobHistory(es, id);
  }

  // ---- Uploads ----

  /** The event that enqueued the job. */
  ghost predicate EnqueuedAt(es: seq<Event>, i: nat, id: JobId) {
    i < |es| && es[i].Enqueue? && es[i].id == id
  }

  /** A job keeps for good the owner, weight, key, name, options and creation time it was enqueued with, once. */
  lemma {:induction false} UploadIsKept(es: seq<Event>, id: JobId) returns (i: nat)
    requires IsRun(es) && id in At(es).jobs
    ensures EnqueuedAt(es, i, id) && SameUpload(At(es).jobs[id], es[i].job)
    ensures forall k: nat :: EnqueuedAt(es, k, id) ==> k == i
  {
    var n := |es| - 1;
    var before := es[..n];
    if id in At(before).jobs {
      i := UploadIsKept(before, id);
      forall k: nat | EnqueuedAt(es, k, id) ensures k == i {
        if k < n { assert before[k] == es[k] && EnqueuedAt(before, k, id); }
      }
    } else {
      i := n;
      forall k: nat | EnqueuedAt(es, k, id) ensures k == i {
        if k < n {
          assert before[k] == es[k];
          EnqueuedStays(before, k);
        }
      }
    }
  }

  lemma {:induction false} EnqueuedStays(es: seq<Event>, k: nat)
    requires IsRun(es) && k < |es| && es[k].Enqueue?
    ensures es[k].id in At(es).jobs
    decreases |es|
  {
    if k < |es| - 1 {
      assert es[..|es| - 1][k] == es[k];
      EnqueuedStays(es[..|es| - 1], k);
    }
  }

  /** No two jobs ever share an object key or an Astrometry ID. */
  lemma {:induction false} KeysAreUnique(es: seq<Event>, i: JobId, j: JobId)
    requires IsRun(es) && i in At(es).jobs && j in At(es).jobs && i != j
    ensures At(es).jobs[i].objectKey != At(es).jobs[j].objectKey && AstrometryId(i) != AstrometryId(j)
  {
    var before := es[..|es| - 1];
    if i in At(before).jobs && j in At(before).jobs { KeysAreUnique(before, i, j); }
  }

  /** An enqueue is accepted exactly when its ID, its Astrometry ID and its object key are new; the row is then queued. */
  lemma NewJobIsAccepted(es: seq<Event>, id: JobId, job: Job)
    requires IsRun(es)
    ensures IsRun(es + [Enqueue(id, job)]) <==>
      && id !in At(es).jobs
      && forall k <- At(es).jobs :: AstrometryId(k) != AstrometryId(id) && At(es).jobs[k].objectKey != job.objectKey
    ensures IsRun(es + [Enqueue(id, job)]) ==>
      var q := At(es + [Enqueue(id, job)]);
      q.jobs == At(es).jobs[id := job.(status := Queued, startedAt := None, completedAt := None, solution := None,
                                       error := None, leaseToken := None, leaseExpires := None, attempts := 0)]
  {
    RunPush(es, Enqueue(id, job));
  }

  /** A claim is accepted exactly of a queued job; it stores the lease and charges the owner. */
  lemma QueuedJobIsClaimed(es: seq<Event>, id: JobId, token: Token, now: Time, expires: Time)
    requires IsRun(es)
    ensures IsRun(es + [Claim(id, token, now, expires)]) <==> id in At(es).jobs && At(es).jobs[id].status == Queued
    ensures IsRun(es + [Claim(id, token, now, expires)]) ==>
      var q, q' := At(es), At(es + [Claim(id, token, now, expires)]);
      && q'.jobs == q.jobs[id := q.jobs[id].(status := Solving, startedAt := Some(now), leaseToken := Some(token),
                                             leaseExpires := Some(expires), attempts := q.jobs[id].attempts + 1)]
      && q'.served == q.served[q.jobs[id].owner := now]
  {
    RunPush(es, Claim(id, token, now, expires));
  }
}
