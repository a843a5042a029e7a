/**
 What every run of the lease queue keeps: one accepted completion per job, only
 from the latest claim, and leases on one job that never overlap in wall time.
 */
module QueueRuns {

  import opened Wrappers
  import opened LeaseQueue

  // ---- The history of one job, read off the events alone ----

  function ClaimCount(es: seq<Event>, id: JobId): nat {
    if es == [] then 0 else
    ClaimCount(es[..|es| - 1], id) + if es[|es| - 1].Claim? && es[|es| - 1].id == id then 1 else 0
  }

  function CompletionCount(es: seq<Event>, id: JobId): nat {
    if es == [] then 0 else
    CompletionCount(es[..|es| - 1], id) + if es[|es| - 1].Complete? && es[|es| - 1].id == id then 1 else 0
  }

  /** The token handed out by the most recent claim of the job. */
  function LatestToken(es: seq<Event>, id: JobId): Option<Token> {
    if es == [] then None
    else if es[|es| - 1].Claim? && es[|es| - 1].id == id then Some(es[|es| - 1].token)
    else LatestToken(es[..|es| - 1], id)
  }

  /** When the most recent claim of the job was made. */
  function LatestStart(es: seq<Event>, id: JobId): Option<Time> {
    if es == [] then None
    else if es[|es| - 1].Claim? && es[|es| - 1].id == id then Some(es[|es| - 1].now)
    else LatestStart(es[..|es| - 1], id)
  }

  /** The last expiry granted to the lease taken by the claim at index `i`, renewals included. */
  function LeaseEnd(es: seq<Event>, i: nat): Time
    requires i < |es| && es[i].Claim?
    decreases |es|
  {
    var e := es[|es| - 1];
    if i == |es| - 1 then e.expires
    else if e.Heartbeat? && e.id == es[i].id && e.token == es[i].token then e.expires
    else LeaseEnd(es[..|es| - 1], i)
  }

  /** Fresh UUIDs: no two claims of a run hand out the same token. */
  ghost predicate DistinctTokens(es: seq<Event>) {
    forall i, j :: 0 <= i < j < |es| && es[i].Claim? && es[j].Claim? ==> es[i].token != es[j].token
  }

  /** Wall times of the writes; each requeue tests the expiry against a clock reading no later than its write. */
  ghost predicate Clocked(es: seq<Event>, walls: seq<Time>) {
    && |walls| == |es|
    && (forall i, j :: 0 <= i <= j < |walls| ==> walls[i] <= walls[j])
    && (forall i :: 0 <= i < |es| && es[i].Requeue? ==> es[i].now <= walls[i])
  }

  // ---- Fencing: arbitrary clocks ----

  ghost predicate RowFacts(j: Job) {
    && (j.status == Solving <==> j.leaseToken.Some?)
    && (j.status == Solving <==> j.leaseExpires.Some?)
    && (j.status == Succeeded <==> j.solution.Some?)
    && (j.status == Failed ==> j.error.Some?)
    && (Terminal(j.status) <==> j.completedAt.Some?)
  }

  ghost predicate JobFacts(es: seq<Event>, id: JobId) {
    if id in At(es).jobs then
      var j := At(es).jobs[id];
      && RowFacts(j)
      && j.attempts == ClaimCount(es, id)
      && j.startedAt == LatestStart(es, id)
      && CompletionCount(es, id) == (if Terminal(j.status) then 1 else 0)
      && (j.status == Solving ==> j.leaseToken == LatestToken(es, id))
    else
      ClaimCount(es, id) == 0 && CompletionCount(es, id) == 0 && LatestToken(es, id) == None && LatestStart(es, id) == None
  }

  /**
   In every run, with arbitrary clock readings: a job is solving exactly when a
   lease is stored, succeeded exactly when a solution is stored, has been
   claimed `attempts` times and last started by its latest claim, has accepted
   one completion if it is terminal and none otherwise, and while solving stores
   the token of its latest claim.
   */
  lemma {:induction false} JobHistory(es: seq<Event>, id: JobId)
    requires IsRun(es)
    ensures JobFacts(es, id)
  {
    if es != [] {
      var before := es[..|es| - 1];
      JobHistory(before, id);
    }
  }

  /** Every accepted completion carries the token of the latest claim, and is the job's first. */
  lemma AcceptedCompletion(es: seq<Event>, i: nat)
    requires IsRun(es) && i < |es| && es[i].Complete?
    ensures LatestToken(es[..i], es[i].id) == Some(es[i].token)
    ensures CompletionCount(es[..i], es[i].id) == 0
  {
    RunPrefix(es, i);
    JobHistory(es[..i], es[i].id);
  }

  /** A terminal row never changes again, and no later event of the run names the job. */
  lemma {:induction false} TerminalIsAbsorbing(es: seq<Event>, i: nat, id: JobId)
    requires IsRun(es) && i <= |es|
    requires id in At(es[..i]).jobs && Terminal(At(es[..i]).jobs[id].status)
    ensures id in At(es).jobs && At(es).jobs[id] == At(es[..i]).jobs[id]
    ensures forall k :: i <= k < |es| ==> es[k].id != id
    decreases |es|
  {
    if i == |es| {
      assert es[..i] == es;
    } else {
      var before := es[..|es| - 1];
      assert before[..i] == es[..i];
      TerminalIsAbsorbing(before, i, id);
      forall k | i <= k < |es| ensures es[k].id != id {
        if k < |es| - 1 {
          assert before[k] == es[k];
        }
      }
    }
  }

  /** The result of the accepted completion is the one the job keeps. */
  lemma AcceptedResultStays(es: seq<Event>, i: nat)
    requires IsRun(es) && i < |es| && es[i].Complete?
    ensures es[i].id in At(es).jobs
    ensures var j := At(es).jobs[es[i].id];
      && j.status == (if es[i].solution.Some? then Succeeded else Failed)
      && j.solution == es[i].solution && j.error == es[i].error && j.completedAt == Some(es[i].now)
  {
    RunPrefix(es, i);
    assert es[..i + 1][..i] == es[..i];
    TerminalIsAbsorbing(es, i + 1, es[i].id);
  }

  lemma {:induction false} LatestTokenIsAClaim(es: seq<Event>, id: JobId, j: nat)
    requires j < |es| && es[j].Claim? && es[j].id == id
    ensures exists m :: j <= m < |es| && es[m].Claim? && es[m].id == id && LatestToken(es, id) == Some(es[m].token)
    decreases |es|
  {
    var last := es[|es| - 1];
    if !(last.Claim? && last.id == id) {
      var before := es[..|es| - 1];
      assert before[j] == es[j];
      LatestTokenIsAClaim(before, id, j);
      var m :| j <= m < |before| && before[m].Claim? && before[m].id == id && LatestToken(before, id) == Some(before[m].token);
      assert es[m] == before[m];
    }
  }

  /** Once a job is claimed again, the earlier worker's token is never accepted again. */
  lemma StaleWorkerIsRefused(es: seq<Event>, i: nat, j: nat, k: nat)
    requires IsRun(es) && DistinctTokens(es)
    requires i < j < k < |es| && es[i].Claim? && es[j].Claim? && es[i].id == es[j].id == es[k].id
    requires es[k].Heartbeat? || es[k].Complete?
    ensures es[k].token != es[i].token
  {
    RunPrefix(es, k);
    JobHistory(es[..k], es[k].id);
    assert es[..k][j] == es[j];
    LatestTokenIsAClaim(es[..k], es[k].id, j);
    var m :| j <= m < k && es[..k][m].Claim? && LatestToken(es[..k], es[k].id) == Some(es[..k][m].token);
    assert es[m] == es[..k][m];
  }

  // ---- Exclusivity: clock readings no later than the writes they guard ----

  /** The lease taken at `i` is still stored with its last granted expiry, has run out, or ended the job. */
  ghost predicate LeaseFate(es: seq<Event>, walls: seq<Time>, i: nat)
    requires i < |es| == |walls| && es[i].Claim?
  {
    && es[i].id in At(es).jobs
    && var j := At(es).jobs[es[i].id];
    || (j.status == Solving && j.leaseToken == Some(es[i].token) && j.leaseExpires == Some(LeaseEnd(es, i)))
    || Terminal(j.status)
    || LeaseEnd(es, i) <= walls[|walls| - 1]
  }

  lemma {:induction false} LeaseFateHolds(es: seq<Event>, walls: seq<Time>, i: nat)
    requires IsRun(es) && DistinctTokens(es) && Clocked(es, walls)
    requires i < |es| && es[i].Claim?
    ensures LeaseFate(es, walls, i)
    decreases |es|
  {
    var n := |es| - 1;
    var before := es[..n];
    if i < n {
      assert before[i] == es[i];
      LeaseFateHolds(before, walls[..n], i);
      JobHistory(before, es[i].id);
      assert walls[n - 1] <= walls[n];
      if es[n].Heartbeat? && es[n].id == es[i].id && es[n].token == es[i].token {
        // The renewal was accepted, so the row still holds this very lease.
        assert At(es).jobs[es[i].id].leaseExpires == Some(es[n].expires);
      }
    }
  }

  /**
   Two leases on one job are never live together: when the job is claimed again
   at `j`, the last expiry granted to the lease taken at `i` has passed.
   */
  lemma LeasesNeverOverlap(es: seq<Event>, walls: seq<Time>, i: nat, j: nat)
    requires IsRun(es) && DistinctTokens(es) && Clocked(es, walls)
    requires i < j < |es| && es[i].Claim? && es[j].Claim? && es[i].id == es[j].id
    ensures LeaseEnd(es, i) <= walls[j]
  {
    var before := es[..j];
    RunPrefix(es, j);
    assert before[i] == es[i];
    LeaseFateHolds(before, walls[..j], i);
    assert LeaseEnd(before, i) <= walls[j - 1] <= walls[j];
    forall k | j <= k < |es| && es[k].Heartbeat? && es[k].id == es[i].id ensures es[k].token != es[i].token {
      StaleWorkerIsRefused(es, i, j, k);
    }
    LeaseEndIsFinal(es, i, j);
  }

  /** Events that do not renew the lease leave its end where it was. */
  lemma {:induction false} LeaseEndIsFinal(es: seq<Event>, i: nat, j: nat)
    requires i < j < |es| && es[i].Claim?
    requires forall k :: j <= k < |es| && es[k].Heartbeat? && es[k].id == es[i].id ==> es[k].token != es[i].token
    ensures es[..j][i] == es[i] && LeaseEnd(es, i) == LeaseEnd(es[..j], i)
    decreases |es|
  {
    var n := |es| - 1;
    if j < n {
      var before := es[..n];
      assert before[..j] == es[..j];
      LeaseEndIsFinal(before, i, j);
    }
  }

  // ---- Runs put together from parts ----

  lemma DistinctTokensConcat(a: seq<Event>, b: seq<Event>, drawn: set<Token>)
    requires DistinctTokens(a) && DistinctTokens(b)
    requires forall e <- a :: e.Claim? ==> e.token in drawn
    requires forall e <- b :: e.Claim? ==> e.token !in drawn
    ensures DistinctTokens(a + b)
  {}

  lemma ClockedConcat(a: seq<Event>, walls: seq<Time>, b: seq<Event>, wall: Time)
    requires Clocked(a, walls)
    requires forall w <- walls :: w <= wall
    requires forall e <- b :: e.Requeue? ==> e.now <= wall
    ensures Clocked(a + b, walls + seq(|b|, _ => wall))
  {
    var es, ws := a + b, walls + seq(|b|, _ => wall);
    forall i | 0 <= i < |ws| ensures ws[i] <= wall && (i >= |a| ==> ws[i] == wall) {
      if i < |a| { assert walls[i] in walls; }
    }
    forall i | 0 <= i < |es| && es[i].Requeue? ensures es[i].now <= ws[i] {
      if i >= |a| { assert b[i - |a|] in b; }
    }
  }

  // ---- Runs in steps ----

  /** The events of the first `n` steps. */
  function Flatten(steps: seq<seq<Event>>, n: nat): seq<Event>
    requires n <= |steps|
  {
    if n == 0 then [] else Flatten(steps, n - 1) + steps[n - 1]
  }

  /** Each event at the wall time of its own step. */
  function FlattenWalls(steps: seq<seq<Event>>, walls: seq<Time>, n: nat): seq<Time>
    requires n <= |steps| == |walls|
  {
    if n == 0 then [] else FlattenWalls(steps, walls, n - 1) + seq(|steps[n - 1]|, _ => walls[n - 1])
  }

  /** The last event of step `k` comes after the steps before and the rest of its step. */
  lemma OwnAt(steps: seq<seq<Event>>, k: nat, before: seq<Event>, own: Event, n: nat)
    requires k < n <= |steps| && steps[k] == before + [own]
    ensures var i := |Flatten(steps, k)| + |before|;
      i < |Flatten(steps, n)| && Flatten(steps, n)[i] == own && Flatten(steps, n)[..i] == Flatten(steps, k) + before
  {
    assert steps[k][..|before|] == before;
    FlattenAt(steps, k, |before|, n);
  }

  /** Event `j` of step `k` comes after all the steps before and the events before it in its step. */
  lemma {:induction false} FlattenAt(steps: seq<seq<Event>>, k: nat, j: nat, n: nat)
    requires k < n <= |steps| && j < |steps[k]|
    ensures var i := |Flatten(steps, k)| + j;
      i < |Flatten(steps, n)| && Flatten(steps, n)[i] == steps[k][j]
      && Flatten(steps, n)[..i] == Flatten(steps, k) + steps[k][..j]
    decreases n
  {
    if k < n - 1 {
      FlattenAt(steps, k, j, n - 1);
      var i := |Flatten(steps, k)| + j;
      assert Flatten(steps, n)[..i] == Flatten(steps, n - 1)[..i];
    }
  }

  lemma FlattenInOrder(steps: seq<seq<Event>>, i: nat, a: nat, j: nat, b: nat)
    requires i < j < |steps| && a < |steps[i]|
    ensures |Flatten(steps, i)| + a < |Flatten(steps, j)| + b
  {
    FlattenGrows(steps, i + 1, j);
  }

  lemma {:induction false} FlattenGrows(steps: seq<seq<Event>>, k: nat, n: nat)
    requires k <= n <= |steps|
    ensures |Flatten(steps, k)| <= |Flatten(steps, n)|
    decreases n
  {
    if k < n { FlattenGrows(steps, k, n - 1); }
  }

  lemma {:induction false} FlattenWallAt(steps: seq<seq<Event>>, walls: seq<Time>, k: nat, j: nat, n: nat)
    requires k < n <= |steps| == |walls| && j < |steps[k]|
    ensures |FlattenWalls(steps, walls, n)| == |Flatten(steps, n)| > |Flatten(steps, k)| + j
    ensures FlattenWalls(steps, walls, n)[|Flatten(steps, k)| + j] == walls[k]
    decreases n
  {
    FlattenWallsMatch(steps, walls, n - 1);
    FlattenAt(steps, k, j, n);
    if k < n - 1 {
      FlattenWallAt(steps, walls, k, j, n - 1);
    }
  }

  lemma {:induction false} FlattenWallsMatch(steps: seq<seq<Event>>, walls: seq<Time>, n: nat)
    requires n <= |steps| == |walls|
    ensures |FlattenWalls(steps, walls, n)| == |Flatten(steps, n)|
  {
    if n > 0 { FlattenWallsMatch(steps, walls, n - 1); }
  }

  // ---- Steps of some requeues and then at most one event of another kind ----

  predicate OnlyRequeues(es: seq<Event>) { forall e <- es :: e.Requeue? }

  lemma LeaseEndStep(es: seq<Event>, c: nat, requeues: seq<Event>, own: seq<Event>)
    requires OnlyRequeues(requeues) && |own| <= 1 && c < |es| && es[c].Claim?
    ensures var all := es + (requeues + own);
      && all[c] == es[c]
      && LeaseEnd(all, c) == if own != [] && own[0].Heartbeat? && own[0].id == es[c].id && own[0].token == es[c].token
                             then own[0].expires else LeaseEnd(es, c)
  {
    var middle, all := es + requeues, es + (requeues + own);
    assert middle[..|es|] == es;
    forall k | |es| <= k < |middle| ensures middle[k].Requeue? { assert middle[k] in requeues; }
    if requeues != [] { LeaseEndIsFinal(middle, c, |es|); } else { assert middle == es; }
    if own == [] {
      assert all == middle;
    } else {
      assert all == middle + [own[0]] && all[..|middle|] == middle;
    }
  }

  predicate IsStep(step: seq<Event>) {
    step != [] ==> OnlyRequeues(step[..|step| - 1])
  }

  /** The expiry of a lease after one more step. */
  function EndAfter(step: seq<Event>, claim: Event, end: Time): Time
    requires claim.Claim?
  {
    if step != [] then
      var own := step[|step| - 1];
      if own.Heartbeat? && own.id == claim.id && own.token == claim.token then own.expires else end
    else end
  }

  function EndOver(steps: seq<seq<Event>>, i: nat, n: nat, claim: Event, end: Time): Time
    requires i <= n <= |steps| && claim.Claim?
  {
    if n == i then end else EndAfter(steps[n - 1], claim, EndOver(steps, i, n - 1, claim, end))
  }

  lemma LeaseEndOfStep(es: seq<Event>, c: nat, step: seq<Event>)
    requires IsStep(step) && c < |es| && es[c].Claim?
    ensures (es + step)[c] == es[c] && LeaseEnd(es + step, c) == EndAfter(step, es[c], LeaseEnd(es, c))
  {
    if step == [] {
      assert es + step == es;
    } else {
      var requeues, own := step[..|step| - 1], [step[|step| - 1]];
      assert step == requeues + own;
      LeaseEndStep(es, c, requeues, own);
    }
  }

  /** The end of a lease over any number of steps. */
  lemma {:induction false} LeaseEndOver(steps: seq<seq<Event>>, i: nat, n: nat, c: nat)
    requires i <= n <= |steps| && forall k :: i <= k < n ==> IsStep(steps[k])
    requires c < |Flatten(steps, i)| && Flatten(steps, i)[c].Claim?
    ensures c < |Flatten(steps, n)| && Flatten(steps, n)[c] == Flatten(steps, i)[c]
    ensures LeaseEnd(Flatten(steps, n), c)
         == EndOver(steps, i, n, Flatten(steps, i)[c], LeaseEnd(Flatten(steps, i), c))
  {
    if i < n {
      LeaseEndOver(steps, i, n - 1, c);
      LeaseEndOfStep(Flatten(steps, n - 1), c, steps[n - 1]);
    }
  }
}
