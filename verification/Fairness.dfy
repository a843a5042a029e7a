/**
 How long one owner can overtake another while claims take the best job: the
 queued job with the largest `elapsed since its owner was served * weight`. A
 waiting owner's score grows until it must win, at a geometric rate.
 */
module Fairness {

  import opened Wrappers
  import opened LeaseQueue
  import opened Scheduler

  /** Claims happen at strictly increasing whole milliseconds. */
  ghost predicate ClaimsTick(es: seq<Event>) {
    && (forall i :: 0 <= i < |es| && es[i].Claim? ==> es[i].now % MILLISECOND == 0)
    && (forall i, j :: 0 <= i < j < |es| && es[i].Claim? && es[j].Claim? ==> es[i].now < es[j].now)
  }

  /** The event at `i` serves `owner` with a job of the given stored weight. */
  ghost predicate Serves(es: seq<Event>, i: nat, owner: Owner, weight: real)
    requires i < |es|
  {
    && es[i].Claim? && es[i].id in At(es[..i]).jobs
    && At(es[..i]).jobs[es[i].id].owner == owner
    && At(es[..i]).jobs[es[i].id].weight == weight
  }

  /** The claim at `i` took the scheduler's best job, as `SqlFairness` proves of every unrequested SQL claim. */
  ghost predicate Scheduled(es: seq<Event>, i: nat)
    requires i < |es| && es[i].Claim?
  {
    IsBest(At(es[..i]).jobs, At(es[..i]).served, es[i].now, es[i].id)
  }

  /** Just before event `i`, `owner` has a queued job of the given stored weight. */
  ghost predicate Waits(es: seq<Event>, i: nat, owner: Owner, weight: real)
    requires i < |es|
  {
    exists b :: b in At(es[..i]).jobs && IsWaiting(At(es[..i]).jobs[b], owner, weight)
  }

  predicate IsWaiting(j: Job, owner: Owner, weight: real) {
    j.status == Queued && j.owner == owner && j.weight == weight
  }

  /** The owner was served at the claims listed, and at each but the first it was the scheduler's choice. */
  ghost predicate Overtakes(es: seq<Event>, idx: seq<nat>, owner: Owner, weight: real) {
    && |idx| > 0
    && (forall k :: 0 <= k < |idx| ==> idx[k] < |es| && Serves(es, idx[k], owner, weight))
    && (forall k, l :: 0 <= k < l < |idx| ==> idx[k] < idx[l])
    && (forall k :: 0 < k < |idx| ==> Scheduled(es, idx[k]))
  }

  function Pow(x: real, n: nat): real { if n == 0 then 1.0 else x * Pow(x, n - 1) }

  lemma {:induction false} PowNonnegative(x: real, n: nat)
    requires x >= 0.0
    ensures Pow(x, n) >= 0.0
  {
    if n > 0 { PowNonnegative(x, n - 1); }
  }

  // ---- Last-served times ----

  lemma {:induction false} ServedIsAClaimTime(es: seq<Event>, owner: Owner)
    requires IsRun(es) && owner in At(es).served
    ensures exists k :: 0 <= k < |es| && es[k].Claim? && es[k].now == At(es).served[owner]
    decreases |es|
  {
    var n := |es| - 1;
    var before := es[..n];
    if !(es[n].Claim? && At(es).served[owner] == es[n].now) {
      assert owner in At(before).served && At(before).served[owner] == At(es).served[owner];
      ServedIsAClaimTime(before, owner);
      var k :| 0 <= k < n && before[k].Claim? && before[k].now == At(es).served[owner];
      assert es[k] == before[k];
    }
  }

  lemma {:induction false} ServedSince(es: seq<Event>, i: nat, owner: Owner, weight: real)
    requires IsRun(es) && ClaimsTick(es) && i < |es| && Serves(es, i, owner, weight)
    ensures owner in At(es).served && At(es).served[owner] >= es[i].now
    decreases |es|
  {
    var n := |es| - 1;
    var before := es[..n];
    if i < n {
      assert before[..i] == es[..i] && before[i] == es[i];
      ServedSince(before, i, owner, weight);
      assert es[n].Claim? ==> es[i].now < es[n].now;
    }
  }

  // ---- One overtaking step ----

  lemma WholeMilliseconds(a: int, b: int)
    requires a % MILLISECOND == 0 && b % MILLISECOND == 0
    ensures Milliseconds(a - b) * MILLISECOND == a - b
  {}

  /** Waiting since `t` with weight `w` scores at least as much as since `t'` with weight `w'`. */
  predicate Outweighs(now: Time, t: Time, w: real, t': Time, w': real) {
    (now as real - t' as real) * w' <= (now as real - t as real) * w
  }

  /** If `a` is best while `b` waits, then weighted elapsed times compare the same way. */
  lemma BestOutscores(q: Queue, now: Time, a: JobId, b: JobId)
    requires IsBest(q.jobs, q.served, now, a) && b in q.jobs && q.jobs[b].status == Queued
    requires q.jobs[a].owner in q.served && q.jobs[b].owner in q.served && now % MILLISECOND == 0
    requires q.served[q.jobs[a].owner] % MILLISECOND == 0 && q.served[q.jobs[b].owner] % MILLISECOND == 0
    ensures Outweighs(now, q.served[q.jobs[a].owner], EffectiveWeight(q.jobs[a].weight),
                      q.served[q.jobs[b].owner], EffectiveWeight(q.jobs[b].weight))
    ensures q.jobs[a].weight >= 0.01 && q.jobs[b].weight >= 0.01 ==>
      (now as real - q.served[q.jobs[b].owner] as real) * q.jobs[b].weight
        <= (now as real - q.served[q.jobs[a].owner] as real) * q.jobs[a].weight
  {
    assert !Beats(q.jobs[b], q.jobs[a], q.served, now);
    ScoresOutweigh(q.jobs[a], q.jobs[b], q.served, now);
  }

  predicate NotOutscored(now: Time, sa: Time, wa: real, sb: Time, wb: real) {
    Weighted(Milliseconds(now - sb), wb) <= Weighted(Milliseconds(now - sa), wa)
  }

  lemma ScoresOutweigh(ja: Job, jb: Job, served: map<Owner, Time>, now: Time)
    requires ja.owner in served && jb.owner in served && Score(jb, served, now) <= Score(ja, served, now)
    requires now % MILLISECOND == 0 && served[ja.owner] % MILLISECOND == 0 && served[jb.owner] % MILLISECOND == 0
    ensures Outweighs(now, served[ja.owner], EffectiveWeight(ja.weight), served[jb.owner], EffectiveWeight(jb.weight))
  {
    assert NotOutscored(now, served[ja.owner], EffectiveWeight(ja.weight), served[jb.owner], EffectiveWeight(jb.weight));
    OutweighsByScore(now, served[ja.owner], EffectiveWeight(ja.weight), served[jb.owner], EffectiveWeight(jb.weight));
  }

  lemma OutweighsByScore(now: Time, sa: Time, wa: real, sb: Time, wb: real)
    requires now % MILLISECOND == 0 && sa % MILLISECOND == 0 && sb % MILLISECOND == 0
    requires NotOutscored(now, sa, wa, sb, wb)
    ensures Outweighs(now, sa, wa, sb, wb)
  {
    WholeMilliseconds(now, sa);
    WholeMilliseconds(now, sb);
    Rescale(Milliseconds(now - sa), Milliseconds(now - sb), wa, wb);
  }

  lemma Rescale(a: int, b: int, wa: real, wb: real)
    requires b as real / 1000.0 * wb <= a as real / 1000.0 * wa
    ensures (b * MILLISECOND) as real * wb <= (a * MILLISECOND) as real * wa
  {
    assert (b * MILLISECOND) as real * wb == (b as real / 1000.0 * wb) * 1_000_000_000.0;
    assert (a * MILLISECOND) as real * wa == (a as real / 1000.0 * wa) * 1_000_000_000.0;
  }

  /** One overtaking step: `wA * (s - t) <= (wA - wB) * (next - t)`. */
  predicate GapGrows(wA: real, wB: real, s: Time, next: Time, t: Time) {
    wA * (s as real - t as real) <= (wA - wB) * (next as real - t as real)
  }

  lemma ServedOnTick(es: seq<Event>, owner: Owner)
    requires IsRun(es) && ClaimsTick(es) && owner in At(es).served
    ensures At(es).served[owner] % MILLISECOND == 0
  {
    ServedIsAClaimTime(es, owner);
  }

  lemma TickPrefix(es: seq<Event>, n: nat)
    requires ClaimsTick(es) && n <= |es|
    ensures ClaimsTick(es[..n])
  {}

  /** At a later service of A, A was last served no earlier than at the earlier one. */
  lemma ServedBefore(es: seq<Event>, i: nat, j: nat, a: Owner, wA: real)
    requires IsRun(es) && ClaimsTick(es) && i < j < |es| && Serves(es, i, a, wA)
    ensures a in At(es[..j]).served && At(es[..j]).served[a] >= es[i].now
    ensures IsRun(es[..j]) && ClaimsTick(es[..j])
  {
    RunPrefix(es, j);
    TickPrefix(es, j);
    assert es[..j][..i] == es[..i] && es[..j][i] == es[i];
    ServedSince(es[..j], i, a, wA);
  }

  /** Between two services of A while B waits since `tB`, the gap grows. */
  lemma OvertakingStep(es: seq<Event>, i: nat, j: nat, a: Owner, b: Owner, wA: real, wB: real, tB: Time)
    requires IsRun(es) && ClaimsTick(es) && i < j < |es|
    requires Serves(es, i, a, wA) && Serves(es, j, a, wA) && Scheduled(es, j) && Waits(es, j, b, wB)
    requires b in At(es[..j]).served && At(es[..j]).served[b] == tB
    ensures GapGrows(EffectiveWeight(wA), EffectiveWeight(wB), es[i].now, es[j].now, tB)
  {
    ServedBefore(es, i, j, a, wA);
    ServedOnTick(es[..j], a);
    ServedOnTick(es[..j], b);
    StepAtState(At(es[..j]), es[i].now, es[j].now, es[j].id, b, wA, wB);
  }

  lemma StepAtState(q: Queue, s: Time, now: Time, id: JobId, b: Owner, wA: real, wB: real)
    requires IsBest(q.jobs, q.served, now, id) && q.jobs[id].weight == wA
    requires exists w :: w in q.jobs && IsWaiting(q.jobs[w], b, wB)
    requires q.jobs[id].owner in q.served && b in q.served && s <= q.served[q.jobs[id].owner]
    requires now % MILLISECOND == 0 && q.served[q.jobs[id].owner] % MILLISECOND == 0 && q.served[b] % MILLISECOND == 0
    ensures GapGrows(EffectiveWeight(wA), EffectiveWeight(wB), s, now, q.served[b])
  {
    var w :| w in q.jobs && IsWaiting(q.jobs[w], b, wB);
    BestOutscores(q, now, id, w);
    Rearrange(EffectiveWeight(wA), EffectiveWeight(wB), s, q.served[q.jobs[id].owner], now, q.served[b]);
  }

  lemma Rearrange(wA: real, wB: real, s: Time, last: Time, next: Time, t: Time)
    requires wA >= 0.0 && s <= last && Outweighs(next, last, wA, t, wB)
    ensures GapGrows(wA, wB, s, next, t)
  {
    var s', last', next', t' := s as real, last as real, next as real, t as real;
    MulMonotone(next' - last', next' - s', wA);
    assert (wA - wB) * (next' - t') - wA * (s' - t') == (next' - s') * wA - (next' - t') * wB;
  }

  lemma Chain(p: real, r: real, wA: real, diff: real, d0: real, d: real, next: real)
    requires r >= 0.0 && wA >= 0.0
    requires p * d0 <= r * d && wA * d <= diff * next
    ensures (wA * p) * d0 <= (diff * r) * next
  {
    assert (wA * p) * d0 == wA * (p * d0) <= wA * (r * d);
    assert wA * (r * d) == r * (wA * d) <= r * (diff * next);
    assert r * (diff * next) == (diff * r) * next;
  }

  // ---- Bounded overtaking ----

  lemma NoGrowthWithoutWeight(wA: real, wB: real, s: Time, next: Time, t: Time)
    requires GapGrows(wA, wB, s, next, t) && wA > 0.0 && t < s && t < next
    ensures wA > wB
  {
    var gap, wider := s as real - t as real, next as real - t as real;
    assert 0.0 < wA * gap <= (wA - wB) * wider;
    if wA <= wB {
      MulMonotone(wA - wB, 0.0, wider);
    }
  }

  /** Gaps that grow by the factor `wA / (wA - wB)` at every step. */
  lemma {:induction false} GeometricGrowth(s: seq<Time>, t: Time, wA: real, wB: real)
    requires |s| > 0 && wA > wB && wA > 0.0
    requires forall k :: 0 < k < |s| ==> GapGrows(wA, wB, s[k - 1], s[k], t)
    ensures GrowsTo(wA, wB, |s| - 1, s[0], s[|s| - 1], t)
    decreases |s|
  {
    var n := |s| - 1;
    if n > 0 {
      GeometricGrowth(s[..n], t, wA, wB);
      assert GapGrows(wA, wB, s[n - 1], s[n], t);
      PowNonnegative(wA - wB, n - 1);
      Chain(Pow(wA, n - 1), Pow(wA - wB, n - 1), wA, wA - wB,
            s[0] as real - t as real, s[n - 1] as real - t as real, s[n] as real - t as real);
    }
  }

  function PowTimes(w: real, n: nat, s: Time, t: Time): real { Pow(w, n) * (s as real - t as real) }

  /** `wA^n * (s0 - t) <= (wA - wB)^n * (sn - t)`. */
  predicate GrowsTo(wA: real, wB: real, n: nat, s0: Time, sn: Time, t: Time) {
    PowTimes(wA, n, s0, t) <= PowTimes(wA - wB, n, sn, t)
  }

  /** The times of the claims. */
  ghost function Times(es: seq<Event>, idx: seq<nat>): (s: seq<Time>)
    requires forall k :: 0 <= k < |idx| ==> idx[k] < |es| && es[idx[k]].Claim?
    ensures |s| == |idx| && forall k :: 0 <= k < |idx| ==> s[k] == es[idx[k]].now
  {
    seq(|idx|, k requires 0 <= k < |idx| => es[idx[k]].now)
  }

  lemma BoundedByEffective(es: seq<Event>, idx: seq<nat>, a: Owner, b: Owner, wA: real, wB: real, tB: Time)
    requires IsRun(es) && ClaimsTick(es) && Overtakes(es, idx, a, wA)
    requires tB < es[idx[0]].now
    requires forall k :: 0 < k < |idx| ==> Waits(es, idx[k], b, wB)
    requires forall k :: 0 < k < |idx| ==> b in At(es[..idx[k]]).served && At(es[..idx[k]]).served[b] == tB
    ensures var uA, uB := EffectiveWeight(wA), EffectiveWeight(wB);
      && (uA > uB ==> GrowsTo(uA, uB, |idx| - 1, es[idx[0]].now, es[idx[|idx| - 1]].now, tB))
      && (uA <= uB ==> |idx| == 1)
  {
    var uA, uB, s := EffectiveWeight(wA), EffectiveWeight(wB), Times(es, idx);
    forall k | 0 < k < |idx| ensures GapGrows(uA, uB, s[k - 1], s[k], tB) {
      assert idx[k - 1] < idx[k] && Serves(es, idx[k - 1], a, wA) && Serves(es, idx[k], a, wA);
      OvertakingStep(es, idx[k - 1], idx[k], a, b, wA, wB, tB);
    }
    assert Serves(es, idx[0], a, wA);
    if uA > uB {
      GeometricGrowth(s, tB, uA, uB);
    } else if |idx| > 1 {
      NoGrowthWithoutWeight(uA, uB, s[0], s[1], tB);
    }
  }

  /**
   Owner A, with jobs of the stored weight `wA`, is served at claims `idx` while
   owner B, last served at `tB` before the first of them, waits with a queued job
   of the stored weight `wB` at every later one. With n + 1 services from `s0` to
   `sn`, `wA^n * (s0 - tB) <= (wA - wB)^n * (sn - tB)`: the gap must grow by the
   factor `wA / (wA - wB)` each time. Without a larger weight, A never overtakes B
   at all. A weight below 0.01 counts as 0.01.
   */
  lemma BoundedOvertaking(es: seq<Event>, idx: seq<nat>, a: Owner, b: Owner, wA: real, wB: real, tB: Time,
                          n: nat, s0: Time, sn: Time)
    requires IsRun(es) && ClaimsTick(es) && Overtakes(es, idx, a, wA) && |idx| == n + 1
    requires es[idx[0]].now == s0 && es[idx[n]].now == sn && tB < s0
    requires WaitsSince(es, idx, b, wB, tB)
    ensures wA > wB >= 0.01 ==> GrowsTo(wA, wB, n, s0, sn, tB)
    ensures wA > 0.01 >= wB ==> GrowsTo(wA, 0.01, n, s0, sn, tB)
    ensures wA <= wB || wA <= 0.01 ==> n == 0
  {
    BoundedByEffective(es, idx, a, b, wA, wB, tB);
  }

  /** At each of the claims but the first the owner waits with a job of the given stored weight, last served at `t`. */
  ghost predicate WaitsSince(es: seq<Event>, idx: seq<nat>, owner: Owner, weight: real, t: Time) {
    forall k :: 0 < k < |idx| ==>
      && idx[k] < |es| && Waits(es, idx[k], owner, weight)
      && owner in At(es[..idx[k]]).served && At(es[..idx[k]]).served[owner] == t
  }

  /** The score of an owner with weight `w` last served at `s`. */
  predicate ScoreReaches(now: Time, s: Time, w: real, bound: real) {
    bound <= Weighted(Milliseconds(now - s), w)
  }

  lemma ReachesEarlier(now: Time, last: Time, s: Time, w: real, bound: real)
    requires s <= last && w >= 0.0 && ScoreReaches(now, last, w, bound)
    ensures ScoreReaches(now, s, w, bound)
  {
    MulMonotone(Milliseconds(now - last) as real / 1000.0, Milliseconds(now - s) as real / 1000.0, w);
  }

  lemma OutscoredByNewcomer(q: Queue, now: Time, id: JobId, b: Owner, wB: real)
    requires IsBest(q.jobs, q.served, now, id) && q.jobs[id].owner in q.served
    requires exists w :: w in q.jobs && IsWaiting(q.jobs[w], b, wB)
    requires b !in q.served
    ensures ScoreReaches(now, q.served[q.jobs[id].owner], EffectiveWeight(q.jobs[id].weight), NEVER_SERVED)
  {
    var w :| w in q.jobs && IsWaiting(q.jobs[w], b, wB);
    assert !Beats(q.jobs[w], q.jobs[id], q.served, now);
  }

  /** A never-served owner is not overtaken, unless the rival's score reaches the never-served score. */
  lemma NeverServedIsNotOvertaken(es: seq<Event>, idx: seq<nat>, a: Owner, b: Owner, wA: real, wB: real)
    requires IsRun(es) && ClaimsTick(es) && Overtakes(es, idx, a, wA)
    requires forall k :: 0 < k < |idx| ==> Waits(es, idx[k], b, wB) && b !in At(es[..idx[k]]).served
    requires forall k :: 0 < k < |idx| ==> !ScoreReaches(es[idx[k]].now, es[idx[0]].now, EffectiveWeight(wA), NEVER_SERVED)
    ensures |idx| == 1
  {
    if |idx| > 1 {
      var i, j := idx[0], idx[1];
      assert i < j && Scheduled(es, j) && Serves(es, i, a, wA) && Serves(es, j, a, wA) && Waits(es, j, b, wB);
      ServedBefore(es, i, j, a, wA);
      OutscoredByNewcomer(At(es[..j]), es[j].now, es[j].id, b, wB);
      ReachesEarlier(es[j].now, At(es[..j]).served[a], es[i].now, EffectiveWeight(wA), NEVER_SERVED);
    }
  }

  /** The largest weight the server gives an owner. */
  const MAX_WEIGHT: real := 100.0

  /** A bound past the end of the year 9999, in nanoseconds since the year 0. */
  const END_OF_TIME: int := 1_000_000_000_000_000_000_000

  /** No score of such a weight over such times comes near the never-served score. */
  lemma ScoresStayBelow(now: Time, s: Time, w: real)
    requires 0 <= s < END_OF_TIME && 0 <= now < END_OF_TIME && 0.0 <= w <= MAX_WEIGHT
    ensures !ScoreReaches(now, s, w, NEVER_SERVED)
  {
    NeverServedIsHuge();
    StaysBelow(now, s, w, NEVER_SERVED);
  }

  lemma StaysBelow(now: Time, s: Time, w: real, bound: real)
    requires 0 <= s < END_OF_TIME && 0 <= now < END_OF_TIME && 0.0 <= w <= MAX_WEIGHT && bound > 100_000_000_000_000.0
    ensures !ScoreReaches(now, s, w, bound)
  {
    var ms := Milliseconds(now - s);
    assert ms <= 1_000_000_000_000_000;
    ScoreBound(ms as real / 1000.0, w);
  }

  lemma ScoreBound(elapsed: real, w: real)
    requires elapsed <= 1_000_000_000_000.0 && 0.0 <= w <= 100.0
    ensures elapsed * w <= 100_000_000_000_000.0
  {
    MulMonotone(elapsed, 1_000_000_000_000.0, w);
  }

  lemma NeverServedIsHuge()
    ensures NEVER_SERVED > 100_000_000_000_000.0
  {
    var a := 0x3F_FFFF_FFFF_FFFE;
    Scaled(a, TWO_TO_242);
    Scaled(a * TWO_TO_242, TWO_TO_242);
    Scaled(a * TWO_TO_242 * TWO_TO_242, TWO_TO_242);
    Scaled(a * TWO_TO_242 * TWO_TO_242 * TWO_TO_242, TWO_TO_242);
  }

  lemma Scaled(x: int, factor: int)
    requires x >= 0 && factor >= 1
    ensures x * factor >= x
  {}

  /** A never-served owner is not overtaken at all. */
  lemma NewcomerIsNext(es: seq<Event>, idx: seq<nat>, a: Owner, b: Owner, wA: real, wB: real)
    requires IsRun(es) && ClaimsTick(es) && Overtakes(es, idx, a, wA) && wA <= MAX_WEIGHT
    requires forall k :: 0 <= k < |idx| ==> 0 <= es[idx[k]].now < END_OF_TIME
    requires forall k :: 0 < k < |idx| ==> Waits(es, idx[k], b, wB) && b !in At(es[..idx[k]]).served
    ensures |idx| == 1
  {
    assert Serves(es, idx[0], a, wA);
    forall k | 0 < k < |idx| ensures !ScoreReaches(es[idx[k]].now, es[idx[0]].now, EffectiveWeight(wA), NEVER_SERVED) {
      ScoresStayBelow(es[idx[k]].now, es[idx[0]].now, EffectiveWeight(wA));
    }
    NeverServedIsNotOvertaken(es, idx, a, b, wA, wB);
  }

  // ---- The choice, in the fields of the rows ----

  /** The elapsed time since the owner was served, times the stored weight. */
  function Urgency(j: Job, served: map<Owner, Time>, now: Time): real
    requires j.owner in served
  {
    (now as real - served[j.owner] as real) * j.weight
  }

  /**
   Owners never served come before all others; then the larger product of elapsed
   time and stored weight; then the earlier creation.
   */
  predicate ComesFirst(a: Job, b: Job, served: map<Owner, Time>, now: Time) {
    if a.owner !in served then b.owner in served || a.createdAt <= b.createdAt
    else
      && b.owner in served
      && (Urgency(b, served, now) < Urgency(a, served, now)
          || (Urgency(b, served, now) == Urgency(a, served, now) && a.createdAt <= b.createdAt))
  }

  /** A weight the server gives out, and times in whole milliseconds of the years 0 to 9999. */
  predicate IsRegular(j: Job, served: map<Owner, Time>, now: Time) {
    && 0.01 <= j.weight <= MAX_WEIGHT && 0 <= now < END_OF_TIME && now % MILLISECOND == 0
    && (j.owner in served ==> 0 <= served[j.owner] < END_OF_TIME && served[j.owner] % MILLISECOND == 0)
  }

  lemma ScaleBack(ms: int, w: real)
    ensures Weighted(ms, w) * 1_000_000_000.0 == (ms * MILLISECOND) as real * w
  {
    assert Weighted(ms, w) * 1_000_000_000.0 == (ms as real / 1000.0 * w) * 1_000_000_000.0;
  }

  lemma ScoreIsUrgency(j: Job, served: map<Owner, Time>, now: Time)
    requires j.owner in served && j.weight >= 0.01
    requires now % MILLISECOND == 0 && served[j.owner] % MILLISECOND == 0
    ensures Score(j, served, now) * 1_000_000_000.0 == Urgency(j, served, now)
  {
    WholeMilliseconds(now, served[j.owner]);
    ScaleBack(Milliseconds(now - served[j.owner]), j.weight);
  }

  lemma ServedScoresLess(j: Job, served: map<Owner, Time>, now: Time)
    requires IsRegular(j, served, now) && j.owner in served
    ensures Score(j, served, now) < NEVER_SERVED
  {
    ScoresStayBelow(now, served[j.owner], j.weight);
  }

  lemma BeatsAmongServed(a: Job, b: Job, served: map<Owner, Time>, now: Time)
    requires IsRegular(a, served, now) && IsRegular(b, served, now) && a.owner in served && b.owner in served
    ensures !Beats(b, a, served, now) <==> ComesFirst(a, b, served, now)
  {
    ScoreIsUrgency(a, served, now);
    ScoreIsUrgency(b, served, now);
  }

  lemma BeatsIsExact(a: Job, b: Job, served: map<Owner, Time>, now: Time)
    requires IsRegular(a, served, now) && IsRegular(b, served, now)
    ensures !Beats(b, a, served, now) <==> ComesFirst(a, b, served, now)
  {
    if a.owner in served && b.owner in served {
      BeatsAmongServed(a, b, served, now);
    } else if a.owner in served {
      ServedScoresLess(a, served, now);
    } else if b.owner in served {
      ServedScoresLess(b, served, now);
    }
  }

  /** The best job is exactly the one that comes first among the queued ones. */
  lemma ChoiceIsExact(jobs: map<JobId, Job>, served: map<Owner, Time>, now: Time, id: JobId)
    requires forall k <- jobs :: jobs[k].status == Queued ==> IsRegular(jobs[k], served, now)
    ensures IsBest(jobs, served, now, id) <==>
      && id in jobs && jobs[id].status == Queued
      && forall k <- jobs :: jobs[k].status == Queued ==> ComesFirst(jobs[id], jobs[k], served, now)
  {
    if id in jobs && jobs[id].status == Queued {
      forall k <- jobs | jobs[k].status == Queued
        ensures !Beats(jobs[k], jobs[id], served, now) <==> ComesFirst(jobs[id], jobs[k], served, now)
      {
        BeatsIsExact(jobs[id], jobs[k], served, now);
      }
    }
  }

  /** A weight of at most 0.01 counts as 0.01. */
  lemma SmallWeightsCountAlike(j: Job, served: map<Owner, Time>, now: Time)
    requires j.weight <= 0.01
    ensures Score(j, served, now) == Score(j.(weight := 0.01), served, now)
  {}

  lemma MulMonotone(x: real, y: real, w: real)
    requires x <= y && w >= 0.0
    ensures x * w <= y * w
  {}
}
