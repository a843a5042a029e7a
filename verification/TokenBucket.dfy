/** The per-identity token bucket, with its sweep of refilled buckets, against one that never forgets. */
module TokenBucket {

  import opened Wrappers

  type Time = int // nanoseconds

  const SWEEP_THRESHOLD_BUCKETS: nat := 10_000

  datatype Bucket = Bucket(tokens: real, updatedAt: Time)

  datatype Rate = Rate(capacity: real, perSecond: real)

  /** What the configuration guarantees: room for one request, and a positive refill. */
  predicate Sound(r: Rate) { r.capacity >= 1.0 && r.perSecond > 0.0 }

  function Seconds(from: Time, now: Time): real { if now >= from then (now - from) as real / 1_000_000_000.0 else 0.0 }

  function Refill(r: Rate, b: Bucket, now: Time): real { b.tokens + Seconds(b.updatedAt, now) * r.perSecond }

  function Level(r: Rate, b: Bucket, now: Time): real {
    if Refill(r, b, now) < r.capacity then Refill(r, b, now) else r.capacity
  }

  function Ceiling(x: real): int { -((-x).Floor) }

  function RetryAfter(r: Rate, level: real): nat
    requires r.perSecond > 0.0
  {
    var seconds := Ceiling((1.0 - level) / r.perSecond);
    if seconds < 1 then 1 else seconds
  }

  predicate Admits(r: Rate, b: Bucket, now: Time) { Level(r, b, now) >= 1.0 }

  function Charged(r: Rate, b: Bucket, now: Time): Bucket {
    Bucket(if Admits(r, b, now) then Level(r, b, now) - 1.0 else Level(r, b, now), now)
  }

  function Reply(r: Rate, b: Bucket, now: Time): Result<(), nat>
    requires Sound(r)
  {
    if Admits(r, b, now) then Ok(()) else Err(RetryAfter(r, Level(r, b, now)))
  }

  /** The bucket an identity has, or a full one if it has none. */
  function Current(r: Rate, m: map<string, Bucket>, id: string, now: Time): Bucket {
    if id in m then m[id] else Bucket(r.capacity, now)
  }

  /** A swept table agrees with the full history: what it lacks is full again. */
  ghost predicate Represents(r: Rate, kept: map<string, Bucket>, all: map<string, Bucket>, now: Time) {
    && (forall id <- kept :: id in all && all[id] == kept[id])
    && (forall id <- all :: all[id].updatedAt <= now && (id !in kept ==> Refill(r, all[id], now) >= r.capacity))
  }

  lemma SecondsGrow(from: Time, now: Time, later: Time)
    requires from <= now <= later
    ensures Seconds(from, later) == Seconds(from, now) + Seconds(now, later)
    ensures Seconds(now, later) >= 0.0
  {
    var a, b := (now - from) as real, (later - now) as real;
    assert (later - from) as real == a + b;
  }

  lemma RefillGrows(r: Rate, b: Bucket, now: Time, later: Time)
    requires Sound(r) && b.updatedAt <= now <= later
    ensures Refill(r, b, later) == Refill(r, b, now) + Seconds(now, later) * r.perSecond
    ensures Refill(r, b, later) >= Refill(r, b, now)
  {
    SecondsGrow(b.updatedAt, now, later);
    assert Seconds(b.updatedAt, later) * r.perSecond
        == Seconds(b.updatedAt, now) * r.perSecond + Seconds(now, later) * r.perSecond;
    assert Seconds(now, later) * r.perSecond >= 0.0;
  }

  lemma RepresentsLater(r: Rate, kept: map<string, Bucket>, all: map<string, Bucket>, now: Time, later: Time)
    requires Sound(r) && Represents(r, kept, all, now) && now <= later
    ensures Represents(r, kept, all, later)
  {
    forall id <- all | id !in kept ensures Refill(r, all[id], later) >= r.capacity {
      RefillGrows(r, all[id], now, later);
    }
  }

  /** A swept bucket and the full one that replaces it decide alike and end alike. */
  lemma SameDecision(r: Rate, kept: map<string, Bucket>, all: map<string, Bucket>, id: string, now: Time)
    requires Represents(r, kept, all, now)
    ensures Level(r, Current(r, kept, id, now), now) == Level(r, Current(r, all, id, now), now)
  {}

  /** Checks in lock order. */
  datatype Request = Request(id: string, at: Time)

  ghost predicate Ordered(rs: seq<Request>) { forall i, j :: 0 <= i <= j < |rs| ==> rs[i].at <= rs[j].at }

  /** The buckets of a limiter that never sweeps, after the checks. */
  function History(r: Rate, rs: seq<Request>): map<string, Bucket> {
    if rs == [] then map[] else
    var before, last := History(r, rs[..|rs| - 1]), rs[|rs| - 1];
    before[last.id := Charged(r, Current(r, before, last.id, last.at), last.at)]
  }

  predicate LastAdmitted(r: Rate, rs: seq<Request>)
    requires rs != []
  {
    var last := rs[|rs| - 1];
    Admits(r, Current(r, History(r, rs[..|rs| - 1]), last.id, last.at), last.at)
  }

  lemma HistoryPush(r: Rate, rs: seq<Request>, q: Request)
    ensures History(r, rs + [q])
         == History(r, rs)[q.id := Charged(r, Current(r, History(r, rs), q.id, q.at), q.at)]
    ensures LastAdmitted(r, rs + [q]) <==> Admits(r, Current(r, History(r, rs), q.id, q.at), q.at)
  {
    assert (rs + [q])[..|rs|] == rs;
  }

  /** What the table keeps after the checks `rs`, up to `clock`. */
  ghost predicate Keeps(r: Rate, kept: map<string, Bucket>, rs: seq<Request>, clock: Time) {
    match r
    case Rate(_, _) =>
      && Sound(r) && Represents(r, kept, History(r, rs), clock)
      && Ordered(rs) && forall q <- rs :: q.at <= clock
  }

  lemma KeepsLater(r: Rate, kept: map<string, Bucket>, rs: seq<Request>, clock: Time, now: Time)
    requires Keeps(r, kept, rs, clock) && clock <= now
    ensures Keeps(r, kept, rs, now)
  {
    RepresentsLater(r, kept, History(r, rs), clock, now);
  }

  function Unfilled(r: Rate, kept: map<string, Bucket>, now: Time): map<string, Bucket> {
    map id | id in kept && Refill(r, kept[id], now) < r.capacity :: kept[id]
  }

  lemma KeepsSwept(r: Rate, kept: map<string, Bucket>, rs: seq<Request>, now: Time)
    requires Keeps(r, kept, rs, now)
    ensures Keeps(r, Unfilled(r, kept, now), rs, now)
  {}

  /** A check charges the kept bucket as it would the one of the full history. */
  lemma KeepsCharged(r: Rate, kept: map<string, Bucket>, rs: seq<Request>, id: string, now: Time)
    requires Keeps(r, kept, rs, now)
    ensures Keeps(r, kept[id := Charged(r, Current(r, kept, id, now), now)], rs + [Request(id, now)], now)
    ensures Level(r, Current(r, kept, id, now), now) == Level(r, Current(r, History(r, rs), id, now), now)
  {
    SameDecision(r, kept, History(r, rs), id, now);
    HistoryPush(r, rs, Request(id, now));
  }

  /** A bucket stays stored until a new identity finds 10,000 of them and this one is full again. */
  ghost predicate Stays(r: Rate, kept: map<string, Bucket>, id: string, now: Time, k: string) {
    k in kept && (|kept| >= 10_000 && id !in kept ==> Refill(r, kept[k], now) < r.capacity)
  }

  lemma SweptStays(r: Rate, kept: map<string, Bucket>, id: string, now: Time, k: string)
    ensures |kept| >= 10_000 && id !in kept ==> (k in Unfilled(r, kept, now) <==> Stays(r, kept, id, now, k))
  {}

  class RateLimiter {
    const rate: Rate
    var buckets: map<string, Bucket>

    /** Every check so far, and the latest time seen. */
    ghost var requests: seq<Request>
    ghost var clock: Time

    ghost predicate Valid()
      reads this
    {
      Sound(rate) && Keeps(rate, buckets, requests, clock)
    }

    constructor (perMinute: real, capacity: real)
      requires capacity >= 1.0 && perMinute > 0.0
      ensures Valid() && requests == [] && rate == Rate(capacity, perMinute / 60.0)
    {
      rate := Rate(capacity, perMinute / 60.0);
      buckets, requests, clock := map[], [], 0;
    }

    /**
     One check. It answers as a limiter that never swept would, and admits exactly when that one
     does. A new identity that finds 10,000 buckets stored drops those that are full again.
     */
    method Check(id: string, now: Time) returns (reply: Result<(), nat>)
      requires Valid() && clock <= now
      modifies this
      ensures Valid() && clock == now && requests == old(requests) + [Request(id, now)]
      ensures reply == Reply(rate, Current(rate, History(rate, old(requests)), id, now), now)
      ensures reply.Ok? <==> LastAdmitted(rate, requests)
      ensures forall k :: k in buckets <==> k == id || Stays(rate, old(buckets), id, now, k)
    {
      KeepsLater(rate, buckets, requests, clock, now);
      if |buckets| >= SWEEP_THRESHOLD_BUCKETS && id !in buckets {
        KeepsSwept(rate, buckets, requests, now);
        forall k { SweptStays(rate, buckets, id, now, k); }
        buckets := Unfilled(rate, buckets, now);
      }
      var bucket := Current(rate, buckets, id, now);
      KeepsCharged(rate, buckets, requests, id, now);
      HistoryPush(rate, requests, Request(id, now));
      reply := Reply(rate, bucket, now);
      buckets := buckets[id := Charged(rate, bucket, now)];
      requests, clock := requests + [Request(id, now)], now;
    }
  }

  // ---- Admission over an interval ----

  /** How often `id` was admitted at times in `[from, to]`. */
  function Admitted(r: Rate, rs: seq<Request>, id: string, from: Time, to: Time): nat {
    if rs == [] then 0 else
    var last := rs[|rs| - 1];
    Admitted(r, rs[..|rs| - 1], id, from, to)
    + if last.id == id && from <= last.at <= to && LastAdmitted(r, rs) then 1 else 0
  }

  lemma {:induction false} HistoryTimes(r: Rate, rs: seq<Request>, now: Time, id: string)
    requires Ordered(rs) && forall q <- rs :: q.at <= now
    ensures id in History(r, rs) ==> History(r, rs)[id].updatedAt <= now
  {
    if rs != [] { HistoryTimes(r, rs[..|rs| - 1], now, id); }
  }

  /** Tokens left plus `n` admissions since `from` are within a full bucket plus what was refilled since. */
  predicate Paid(r: Rate, b: Bucket, from: Time, n: real) {
    && b.tokens >= 0.0
    && if b.updatedAt >= from then b.tokens + n <= r.capacity + Seconds(from, b.updatedAt) * r.perSecond else n == 0.0
  }

  ghost predicate Conserved(r: Rate, rs: seq<Request>, id: string, from: Time, to: Time) {
    var n := Admitted(r, rs, id, from, to) as real;
    if id in History(r, rs) then Paid(r, History(r, rs)[id], from, n) else n == 0.0
  }

  lemma LevelBounds(r: Rate, b: Bucket, now: Time)
    requires Sound(r) && b.updatedAt <= now && b.tokens >= 0.0
    ensures 0.0 <= Level(r, b, now) <= r.capacity
    ensures Level(r, b, now) <= b.tokens + Seconds(b.updatedAt, now) * r.perSecond
  {
    assert Seconds(b.updatedAt, now) * r.perSecond >= 0.0;
  }

  lemma FullIsPaid(r: Rate, from: Time, now: Time)
    requires Sound(r)
    ensures Paid(r, Bucket(r.capacity, now), from, 0.0)
  {
    assert Seconds(from, now) * r.perSecond >= 0.0;
  }

  /** One check spends at most one token and refills at most what time allows. */
  lemma ChargePays(r: Rate, b: Bucket, from: Time, now: Time, n: real)
    requires Sound(r) && b.updatedAt <= now && Paid(r, b, from, n)
    ensures Paid(r, Charged(r, b, now), from, if from <= now && Admits(r, b, now) then n + 1.0 else n)
  {
    LevelBounds(r, b, now);
    if from <= now {
      assert Seconds(from, now) * r.perSecond >= 0.0;
      if b.updatedAt >= from { Spend(r, b, from, now); }
    }
  }

  lemma {:induction false} TokensConserved(r: Rate, rs: seq<Request>, id: string, from: Time, to: Time)
    requires Sound(r) && Ordered(rs) && forall q <- rs :: q.at <= to
    ensures Conserved(r, rs, id, from, to)
  {
    if rs != [] {
      var before, last := rs[..|rs| - 1], rs[|rs| - 1];
      TokensConserved(r, before, id, from, to);
      if last.id == id {
        FullIsPaid(r, from, last.at);
        assert forall q <- before :: q.at <= last.at;
        HistoryTimes(r, before, last.at, id);
        assert last.at <= to;
        ChargePays(r, Current(r, History(r, before), id, last.at), from, last.at, Admitted(r, before, id, from, to) as real);
      }
    }
  }

  lemma Spend(r: Rate, b: Bucket, from: Time, now: Time)
    requires from <= b.updatedAt <= now
    ensures Seconds(from, b.updatedAt) * r.perSecond + Seconds(b.updatedAt, now) * r.perSecond == Seconds(from, now) * r.perSecond
  {
    SecondsGrow(from, b.updatedAt, now);
  }

  lemma PaidBound(r: Rate, b: Bucket, from: Time, to: Time, n: real)
    requires Sound(r) && Paid(r, b, from, n) && b.updatedAt <= to && from <= to
    ensures n <= r.capacity + Seconds(from, to) * r.perSecond
  {
    assert Seconds(from, to) * r.perSecond >= 0.0;
    if b.updatedAt >= from {
      Spend(r, b, from, to);
      assert Seconds(b.updatedAt, to) * r.perSecond >= 0.0;
    }
  }

  /** Over any interval of T seconds each identity is admitted at most capacity + rate * T times. */
  lemma {:induction false} AdmissionBound(r: Rate, rs: seq<Request>, id: string, from: Time, to: Time)
    requires Sound(r) && Ordered(rs) && from <= to
    ensures Admitted(r, rs, id, from, to) as real <= r.capacity + Seconds(from, to) * r.perSecond
  {
    if rs == [] || rs[|rs| - 1].at <= to {
      TokensConserved(r, rs, id, from, to);
      HistoryTimes(r, rs, to, id);
      FullIsPaid(r, from, to);
      var b := if id in History(r, rs) then History(r, rs)[id] else Bucket(r.capacity, to);
      PaidBound(r, b, from, to, Admitted(r, rs, id, from, to) as real);
    } else {
      AdmissionBound(r, rs[..|rs| - 1], id, from, to);
    }
  }

  // ---- Retry times ----

  lemma CeilingIsLeast(x: real, k: int)
    ensures k as real >= x <==> k >= Ceiling(x)
  {}

  /** After a refusal, with nothing else charged, waiting `k` seconds suffices exactly when `k` is at least the answer. */
  lemma RetryIsExact(r: Rate, b: Bucket, now: Time, k: nat)
    requires Sound(r) && !Admits(r, b, now)
    ensures Admits(r, Charged(r, b, now), now + k * 1_000_000_000) <==> k >= RetryAfter(r, Level(r, b, now))
  {
    var level := Level(r, b, now);
    assert Seconds(now, now + k * 1_000_000_000) == k as real;
    var x := (1.0 - level) / r.perSecond;
    assert x > 0.0;
    CeilingIsLeast(x, k);
    CeilingIsLeast(x, 0);
    DivideBy(k as real, 1.0 - level, r.perSecond);
  }

  lemma DivideBy(k: real, d: real, p: real)
    requires p > 0.0
    ensures k >= d / p <==> k * p >= d
  {
    assert (d / p) * p == d;
    if k < d / p { MulStrict(k, d / p, p); } else if k > d / p { MulStrict(d / p, k, p); }
  }

  lemma MulStrict(x: real, y: real, p: real)
    requires x < y && p > 0.0
    ensures x * p < y * p
  {}

  // ---- Bursts ----

  function Burst(id: string, at: Time, n: nat): seq<Request> {
    if n == 0 then [] else Burst(id, at, n - 1) + [Request(id, at)]
  }

  function Least(a: int, b: int): int { if a <= b then a else b }

  /** The whole tokens `k` requests have taken from a full bucket. */
  function Taken(capacity: real, k: nat): int { Least(k, capacity.Floor) }

  lemma LevelAtOnce(r: Rate, b: Bucket)
    requires b.tokens <= r.capacity
    ensures Level(r, b, b.updatedAt) == b.tokens
  {
    assert Seconds(b.updatedAt, b.updatedAt) == 0.0;
  }

  /** What is left of a full bucket after `k` simultaneous requests. */
  predicate LeftAfter(r: Rate, m: map<string, Bucket>, id: string, at: Time, k: nat) {
    match r
    case Rate(capacity, _) => Current(r, m, id, at) == Bucket(capacity - Taken(capacity, k) as real, at)
  }

  lemma NextOfBurst(r: Rate, m: map<string, Bucket>, id: string, at: Time, k: nat)
    requires Sound(r) && LeftAfter(r, m, id, at, k)
    ensures Admits(r, Current(r, m, id, at), at) <==> k < r.capacity.Floor
    ensures LeftAfter(r, m[id := Charged(r, Current(r, m, id, at), at)], id, at, k + 1)
  {
    assert Taken(r.capacity, k) >= 0;
    LevelAtOnce(r, Current(r, m, id, at));
  }

  /** One more request of the burst. */
  lemma BurstGrows(r: Rate, rs: seq<Request>, id: string, at: Time, k: nat)
    requires Sound(r) && LeftAfter(r, History(r, rs), id, at, k)
    ensures LeftAfter(r, History(r, rs + [Request(id, at)]), id, at, k + 1)
    ensures Admitted(r, rs + [Request(id, at)], id, at, at) - Admitted(r, rs, id, at, at)
         == Taken(r.capacity, k + 1) - Taken(r.capacity, k)
  {
    NextOfBurst(r, History(r, rs), id, at, k);
    HistoryPush(r, rs, Request(id, at));
    assert (rs + [Request(id, at)])[..|rs|] == rs;
  }

  /** Of `n` simultaneous requests of a new identity exactly the whole capacity is admitted, each for one token. */
  lemma {:induction false} BurstIsExact(r: Rate, id: string, at: Time, n: nat)
    requires Sound(r)
    ensures Admitted(r, Burst(id, at, n), id, at, at) == Taken(r.capacity, n)
    ensures LeftAfter(r, History(r, Burst(id, at, n)), id, at, n)
  {
    if n == 0 {
      assert r.capacity.Floor >= 1;
    } else {
      var before := Burst(id, at, n - 1);
      BurstIsExact(r, id, at, n - 1);
      BurstGrows(r, before, id, at, n - 1);
      assert Burst(id, at, n) == before + [Request(id, at)];
    }
  }
}
