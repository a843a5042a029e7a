/**
 The weighted least-recently-served choice for an unrequested claim. SQL makes it
 over all queued rows inside the claim's transaction, DynamoDB over rows that may
 be stale by the time the claim is written.
 */
module Scheduler {

  import opened Wrappers
  import opened LeaseQueue

  const MILLISECOND: int := 1_000_000

  const TWO_TO_242: int := 0x4000000000000000000000000000000000000000000000000000000000000

  /** A quarter of the largest 64-bit float: `(2^53 - 1) * 2^971 / 4`. */
  const NEVER_SERVED: real :=
    (0x3F_FFFF_FFFF_FFFE * TWO_TO_242 * TWO_TO_242 * TWO_TO_242 * TWO_TO_242) as real

  /** `num_milliseconds`: whole milliseconds, truncated toward zero. */
  function Milliseconds(d: int): (ms: int)
    ensures d >= 0 ==> ms * MILLISECOND <= d < (ms + 1) * MILLISECOND
    ensures d <= 0 ==> (ms - 1) * MILLISECOND < d <= ms * MILLISECOND
  {
    if d >= 0 then d / MILLISECOND else -((-d) / MILLISECOND)
  }

  /** The stored weight, and at least 0.01. */
  function EffectiveWeight(w: real): (r: real)
    ensures r >= w && r >= 0.01 && (r == w || r == 0.01)
  {
    if w > 0.01 then w else 0.01
  }

  function Weighted(elapsedMs: int, w: real): real { elapsedMs as real / 1000.0 * w }

  function Score(j: Job, served: map<Owner, Time>, now: Time): real {
    if j.owner in served
    then Weighted(Milliseconds(now - served[j.owner]), EffectiveWeight(j.weight))
    else NEVER_SERVED
  }

  /** `a` replaces `b` as the best job seen so far. */
  predicate Beats(a: Job, b: Job, served: map<Owner, Time>, now: Time) {
    || Score(a, served, now) > Score(b, served, now)
    || (Score(a, served, now) == Score(b, served, now) && a.createdAt < b.createdAt)
  }

  /** No queued job has a higher score, or the same score and an earlier creation. */
  predicate IsBest(jobs: map<JobId, Job>, served: map<Owner, Time>, now: Time, id: JobId) {
    && id in jobs && jobs[id].status == Queued
    && forall k <- jobs :: jobs[k].status == Queued ==> !Beats(jobs[k], jobs[id], served, now)
  }

  /** The selection loop over the queued rows, in whatever order the store returned them. */
  method SelectBest(rows: seq<(JobId, Job)>, served: map<Owner, Time>, now: Time)
    returns (best: Option<(JobId, Job)>)
    ensures best.None? <==> rows == []
    ensures best.Some? ==> best.value in rows && forall r <- rows :: !Beats(r.1, best.value.1, served, now)
  {
    best := None;
    for i := 0 to |rows|
      invariant best.None? <==> i == 0
      invariant best.Some? ==> best.value in rows[..i]
      invariant best.Some? ==> forall k :: 0 <= k < i ==> !Beats(rows[k].1, best.value.1, served, now)
    {
      if best.None? || Beats(rows[i].1, best.value.1, served, now) {
        best := Some(rows[i]);
      }
    }
  }
}
