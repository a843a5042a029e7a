/**
 The limiter the server runs: per-source and per-recipient queues, pruned on
 every check and swept when there are too many, against the naive limiter that
 scans the log of every accepted send.
 */
module EmailLimiter {

  import opened Wrappers
  import opened EmailLimits
  import opened EmailBudgets

  const SWEEP_THRESHOLD_BUCKETS: nat := 10_000

  function Max(a: nat, b: nat): nat { if a >= b then a else b }

  function SourceRetention(l: Limits): nat { Max(l.sourceWindow, l.sourceDailyWindow) }

  function RecipientRetention(l: Limits): nat {
    Max(Max(l.recipientCooldown, l.recipientHourWindow), l.recipientDailyWindow)
  }

  function GlobalRetention(l: Limits): nat { Max(l.globalHourWindow, l.globalDailyWindow) }

  // ---- Pruned queues ----

  /** `kept` is `full` without some front part that left the window by `now`. */
  ghost predicate Covers<T>(kept: seq<T>, full: seq<T>, at: T -> Time, now: Time, window: nat) {
    && |kept| <= |full|
    && kept == full[|full| - |kept|..]
    && forall i :: 0 <= i < |full| - |kept| ==> Elapsed(now, at(full[i])) >= window
  }

  /** A pruned queue answers every window up to its retention like the full history. */
  lemma CoversSameRecent<T>(kept: seq<T>, full: seq<T>, at: T -> Time, now: Time, retention: nat, window: nat)
    requires Covers(kept, full, at, now, retention) && window <= retention
    ensures Recent(kept, at, now, window) == Recent(full, at, now, window)
  {
    var dropped := full[..|full| - |kept|];
    assert full == dropped + kept;
    RecentConcat(dropped, kept, at, now, window);
    RecentNone(dropped, at, now, window);
  }

  lemma CoversLater<T>(kept: seq<T>, full: seq<T>, at: T -> Time, now: Time, later: Time, window: nat)
    requires Covers(kept, full, at, now, window) && now <= later
    ensures Covers(kept, full, at, later, window)
  {}

  lemma CoversPush<T>(kept: seq<T>, full: seq<T>, e: T, at: T -> Time, now: Time, window: nat)
    requires Covers(kept, full, at, now, window)
    ensures Covers(kept + [e], full + [e], at, now, window)
  {}

  lemma CoversSameWeighted(kept: seq<SourceSend>, full: seq<SourceSend>, now: Time, retention: nat, window: nat,
                           budget: nat, incoming: nat, daily: bool)
    requires Covers(kept, full, SendAt, now, retention) && window <= retention
    ensures WeightedRetryAfter(kept, now, window, budget, incoming, daily)
         == WeightedRetryAfter(full, now, window, budget, incoming, daily)
  {
    CoversSameRecent(kept, full, SendAt, now, retention, window);
  }

  lemma CoversSameCount(kept: seq<Time>, full: seq<Time>, now: Time, retention: nat, window: nat, limit: nat)
    requires Covers(kept, full, TimeAt, now, retention) && window <= retention && limit >= 1
    ensures CountRetryAfter(kept, now, window, limit) == CountRetryAfter(full, now, window, limit)
  {
    CoversSameRecent(kept, full, TimeAt, now, retention, window);
  }

  // ---- The loops ----

  method RetainRecent<T>(events: seq<T>, at: T -> Time, now: Time, window: nat) returns (kept: seq<T>)
    ensures Covers(kept, events, at, now, window)
    ensures kept != [] ==> Elapsed(now, at(kept[0])) < window
  {
    kept := events;
    while kept != [] && Elapsed(now, at(kept[0])) >= window
      invariant Covers(kept, events, at, now, window)
    {
      kept := kept[1..];
    }
  }

  method RecentEvents<T>(events: seq<T>, at: T -> Time, now: Time, window: nat) returns (recent: seq<T>)
    ensures recent == Recent(events, at, now, window)
  {
    recent := [];
    for i := 0 to |events|
      invariant recent == Recent(events[..i], at, now, window)
    {
      assert events[..i + 1][..i] == events[..i];
      if Elapsed(now, at(events[i])) < window {
        recent := recent + [events[i]];
      }
    }
    assert events[..|events|] == events;
  }

  method CostFor(events: seq<SourceSend>, recipient: string, now: Time, window: nat) returns (cost: nat)
    ensures cost == RecipientCost(Recent(events, SendAt, now, window), recipient)
  {
    var recent := RecentEvents(events, SendAt, now, window);
    var hasRecentSend := false;
    for i := 0 to |recent|
      invariant hasRecentSend <==> i > 0
      invariant forall k :: 0 <= k < i ==> recent[k].recipient != recipient
    {
      hasRecentSend := true;
      if recent[i].recipient == recipient {
        return 1;
      }
    }
    cost := if hasRecentSend then 2 else 1;
  }

  method TotalCost(active: seq<SourceSend>, daily: bool) returns (total: nat)
    ensures total == Sum(active, daily)
  {
    total := 0;
    for i := 0 to |active|
      invariant total == Sum(active[..i], daily)
    {
      assert active[..i + 1][..i] == active[..i];
      total := total + Cost(active[i], daily);
    }
    assert active[..|active|] == active;
  }

  method FindRelease(active: seq<SourceSend>, needed: nat, daily: bool) returns (release: Option<nat>)
    ensures release == ReleaseIndex(active, needed, daily, 0)
  {
    var released: nat := 0;
    for i := 0 to |active|
      invariant released == Sum(active[..i], daily)
      invariant ReleaseIndex(active, needed, daily, 0) == ReleaseIndex(active, needed, daily, i)
    {
      assert active[..i + 1][..i] == active[..i];
      released := released + Cost(active[i], daily);
      if released >= needed {
        return Some(i);
      }
    }
    release := None;
  }

  method WeightedRetry(events: seq<SourceSend>, now: Time, window: nat, budget: nat, incoming: nat, daily: bool)
    returns (retry: Option<nat>)
    requires CountedWithin(events, now, window, budget, daily) && budget < U32_MAX // the u32 sum does not overflow
    ensures retry == WeightedRetryAfter(events, now, window, budget, incoming, daily)
  {
    var active := RecentEvents(events, SendAt, now, window);
    var total := TotalCost(active, daily);
    if SaturatingAdd(total, incoming) <= budget {
      return None;
    }
    var release := FindRelease(active, SaturatingAdd(total, incoming) - budget, daily);
    retry := Some(if release.Some? then SecondsUntilExpiry(active[release.value].at, now, window)
                  else if window / SECOND < 1 then 1 else window / SECOND);
  }

  method CountRetry(events: seq<Time>, now: Time, window: nat, limit: nat) returns (retry: Option<nat>)
    requires limit >= 1
    ensures retry == CountRetryAfter(events, now, window, limit)
  {
    var active := RecentEvents(events, TimeAt, now, window);
    if |active| < limit {
      return None;
    }
    var releaseIndex := |active| + 1 - limit;
    retry := Some(SecondsUntilExpiry(active[releaseIndex - 1], now, window));
  }

  // ---- The limiter ----

  function Get<T>(m: map<string, seq<T>>, key: string): seq<T> { if key in m then m[key] else [] }

  datatype RateState = RateState(sources: map<string, seq<SourceSend>>, recipients: map<string, seq<Time>>, global: seq<Time>)

  ghost predicate SourcesCover(sources: map<string, seq<SourceSend>>, log: seq<Send>, now: Time, window: nat) {
    forall s :: Covers(Get(sources, s), SourceLog(log, s), SendAt, now, window)
  }

  ghost predicate RecipientsCover(recipients: map<string, seq<Time>>, log: seq<Send>, now: Time, window: nat) {
    forall r :: Covers(Get(recipients, r), RecipientLog(log, r), TimeAt, now, window)
  }

  lemma SourcesLater(sources: map<string, seq<SourceSend>>, log: seq<Send>, now: Time, later: Time, window: nat)
    requires SourcesCover(sources, log, now, window) && now <= later
    ensures SourcesCover(sources, log, later, window)
  {
    forall s ensures Covers(Get(sources, s), SourceLog(log, s), SendAt, later, window) {
      CoversLater(Get(sources, s), SourceLog(log, s), SendAt, now, later, window);
    }
  }

  lemma RecipientsLater(recipients: map<string, seq<Time>>, log: seq<Send>, now: Time, later: Time, window: nat)
    requires RecipientsCover(recipients, log, now, window) && now <= later
    ensures RecipientsCover(recipients, log, later, window)
  {
    forall r ensures Covers(Get(recipients, r), RecipientLog(log, r), TimeAt, later, window) {
      CoversLater(Get(recipients, r), RecipientLog(log, r), TimeAt, now, later, window);
    }
  }

  lemma SourcesPush(sources: map<string, seq<SourceSend>>, log: seq<Send>, send: Send, now: Time, window: nat)
    requires SourcesCover(sources, log, now, window)
    ensures SourcesCover(sources[send.source := Get(sources, send.source) + [send.event]], log + [send], now, window)
  {
    var sources' := sources[send.source := Get(sources, send.source) + [send.event]];
    CoversPush(Get(sources, send.source), SourceLog(log, send.source), send.event, SendAt, now, window);
    forall s ensures Covers(Get(sources', s), SourceLog(log + [send], s), SendAt, now, window) {
      LogsPush(log, send, s, "");
      assert s != send.source ==> Get(sources', s) == Get(sources, s);
    }
  }

  lemma RecipientsPush(recipients: map<string, seq<Time>>, log: seq<Send>, send: Send, now: Time, window: nat)
    requires RecipientsCover(recipients, log, now, window)
    ensures var r := send.event.recipient;
      RecipientsCover(recipients[r := Get(recipients, r) + [send.event.at]], log + [send], now, window)
  {
    var k := send.event.recipient;
    var recipients' := recipients[k := Get(recipients, k) + [send.event.at]];
    CoversPush(Get(recipients, k), RecipientLog(log, k), send.event.at, TimeAt, now, window);
    forall r ensures Covers(Get(recipients', r), RecipientLog(log + [send], r), TimeAt, now, window) {
      LogsPush(log, send, "", r);
      assert r != k ==> Get(recipients', r) == Get(recipients, r);
    }
  }

  lemma CoversTwice<T>(kept: seq<T>, middle: seq<T>, full: seq<T>, at: T -> Time, now: Time, window: nat)
    requires Covers(kept, middle, at, now, window) && Covers(middle, full, at, now, window)
    ensures Covers(kept, full, at, now, window)
  {
    var k := |full| - |middle|;
    forall i | 0 <= i < |full| - |kept| ensures Elapsed(now, at(full[i])) >= window {
      if i >= k { assert full[i] == middle[i - k]; }
    }
  }

  /** The sweep of a whole table: prune every queue, drop the empty ones. */
  method SweepQueues<T>(queues: map<string, seq<T>>, at: T -> Time, now: Time, window: nat)
    returns (kept: map<string, seq<T>>)
    ensures kept.Keys <= queues.Keys
    ensures forall k <- kept :: kept[k] != [] && Elapsed(now, at(kept[k][0])) < window
    ensures forall k :: Covers(Get(kept, k), Get(queues, k), at, now, window)
  {
    kept := map[];
    var todo := queues.Keys;
    while todo != {}
      invariant todo <= queues.Keys && kept.Keys <= queues.Keys && kept.Keys !! todo
      invariant forall k <- kept :: kept[k] != [] && Elapsed(now, at(kept[k][0])) < window
      invariant forall k :: k !in todo ==> Covers(Get(kept, k), Get(queues, k), at, now, window)
    {
      var k :| k in todo;
      var events := RetainRecent(queues[k], at, now, window);
      if events != [] {
        kept := kept[k := events];
      }
      todo := todo - {k};
    }
  }

  /** A newcomer that finds 10,000 queues has the empty ones dropped, and otherwise leaves the table as it is. */
  predicate Swept<T(==)>(kept: map<string, seq<T>>, queues: map<string, seq<T>>) {
    if |queues| >= 10_000 then kept.Keys <= queues.Keys && forall k <- kept :: kept[k] != [] else kept == queues
  }

  /** The three tables hold, of every queue of the log, all that a check at `now` or later can count. */
  ghost predicate Represents(l: Limits, q: RateState, log: seq<Send>, now: Time) {
    match q
    case RateState(sources, recipients, global) =>
      && SourcesCover(sources, log, now, SourceRetention(l))
      && RecipientsCover(recipients, log, now, RecipientRetention(l))
      && Covers(global, GlobalLog(log), TimeAt, now, GlobalRetention(l))
  }

  lemma RepresentsLater(l: Limits, q: RateState, log: seq<Send>, now: Time, later: Time)
    requires Represents(l, q, log, now) && now <= later
    ensures Represents(l, q, log, later)
  {
    SourcesLater(q.sources, log, now, later, SourceRetention(l));
    RecipientsLater(q.recipients, log, now, later, RecipientRetention(l));
    CoversLater(q.global, GlobalLog(log), TimeAt, now, later, GlobalRetention(l));
  }

  /** `entry(..).or_default()`: a check leaves an empty queue behind even when it is rejected. */
  function Opened(q: RateState, source: string, recipient: string): RateState {
    RateState(q.sources[source := Get(q.sources, source)], q.recipients[recipient := Get(q.recipients, recipient)], q.global)
  }

  /** An empty queue stands for an absent one. */
  lemma OpeningKeeps(l: Limits, q: RateState, log: seq<Send>, now: Time, source: string, recipient: string)
    requires Represents(l, q, log, now)
    ensures Represents(l, Opened(q, source, recipient), log, now)
  {
    OpeningIsNothing(q.sources, source);
    OpeningIsNothing(q.recipients, recipient);
  }

  lemma OpeningIsNothing<T>(queues: map<string, seq<T>>, key: string)
    ensures forall k :: Get(queues[key := Get(queues, key)], k) == Get(queues, k)
  {}

  lemma RepresentsPush(l: Limits, q: RateState, log: seq<Send>, send: Send)
    requires Represents(l, q, log, send.event.at)
    ensures Represents(l, Pushed(q, send), log + [send], send.event.at)
  {
    SourcesPush(q.sources, log, send, send.event.at, SourceRetention(l));
    RecipientsPush(q.recipients, log, send, send.event.at, RecipientRetention(l));
    CoversPush(q.global, GlobalLog(log), send.event.at, TimeAt, send.event.at, GlobalRetention(l));
    LogsPush(log, send, "", "");
  }

  function Pushed(q: RateState, send: Send): RateState {
    var s, r := send.source, send.event.recipient;
    RateState(q.sources[s := Get(q.sources, s) + [send.event]],
           q.recipients[r := Get(q.recipients, r) + [send.event.at]],
           q.global + [send.event.at])
  }

  /** What the tables keep of the log of accepted sends, up to `clock`. */
  ghost predicate Keeps(l: SoundLimits, q: RateState, log: seq<Send>, clock: Time) {
    match q
    case RateState(_, _, _) => IsLog(l, log) && (forall s <- log :: s.event.at <= clock) && Represents(l, q, log, clock)
  }

  lemma KeepsOpened(l: SoundLimits, q: RateState, log: seq<Send>, clock: Time, source: string, recipient: string)
    requires Keeps(l, q, log, clock)
    ensures Keeps(l, Opened(q, source, recipient), log, clock)
  {
    OpeningKeeps(l, q, log, clock, source, recipient);
  }

  /** An accepted send is pushed onto its three queues. */
  lemma KeepsCharged(l: SoundLimits, q: RateState, log: seq<Send>, send: Send)
    requires Keeps(l, q, log, send.event.at)
    requires NaiveCheck(l, log, send.source, send.event.recipient, send.event.at)
          == Accept(send.event.windowCost, send.event.dailyCost)
    ensures Keeps(l, Pushed(q, send), log + [send], send.event.at)
  {
    RepresentsPush(l, q, log, send);
    IsLogPush(l, log, send);
  }

  function Answer(d: Decision): Result<(), nat> { if d.Accept? then Ok(()) else Err(d.retryAfter) }

  class EmailSendRateLimiter {
    const limits: SoundLimits
    var state: RateState

    /** Every accepted send, and the latest time a check has seen. */
    ghost var log: seq<Send>
    ghost var clock: Time

    ghost predicate Valid()
      reads this
    {
      Keeps(limits, state, log, clock)
    }

    constructor (limits: SoundLimits)
      ensures Valid() && this.limits == limits && log == []
    {
      this.limits := limits;
      state := RateState(map[], map[], []);
      log, clock := [], 0;
    }

    method Sweep(source: string, recipient: string, now: Time)
      requires Valid() && clock <= now
      modifies this`state, this`clock
      ensures Valid() && clock == now
      ensures source !in old(state.sources) ==> Swept(state.sources, old(state.sources))
      ensures recipient !in old(state.recipients) ==> Swept(state.recipients, old(state.recipients))
    {
      RepresentsLater(limits, state, log, clock, now);
      var sources := SweepSources(source, now);
      var recipients := SweepRecipients(recipient, now);
      var global := RetainRecent(state.global, TimeAt, now, GlobalRetention(limits));
      CoversTwice(global, state.global, GlobalLog(log), TimeAt, now, GlobalRetention(limits));
      state, clock := RateState(sources, recipients, global), now;
    }

    method SweepSources(source: string, now: Time) returns (sources: map<string, seq<SourceSend>>)
      requires SourcesCover(state.sources, log, now, SourceRetention(limits))
      ensures SourcesCover(sources, log, now, SourceRetention(limits))
      ensures source !in state.sources ==> Swept(sources, state.sources)
    {
      sources := state.sources;
      if source in sources {
        var kept := RetainRecent(sources[source], SendAt, now, SourceRetention(limits));
        CoversTwice(kept, sources[source], SourceLog(log, source), SendAt, now, SourceRetention(limits));
        sources := sources[source := kept];
      } else if |sources| >= SWEEP_THRESHOLD_BUCKETS {
        var kept := SweepQueues(sources, SendAt, now, SourceRetention(limits));
        forall s ensures Covers(Get(kept, s), SourceLog(log, s), SendAt, now, SourceRetention(limits)) {
          CoversTwice(Get(kept, s), Get(sources, s), SourceLog(log, s), SendAt, now, SourceRetention(limits));
        }
        sources := kept;
      }
    }

    method SweepRecipients(recipient: string, now: Time) returns (recipients: map<string, seq<Time>>)
      requires RecipientsCover(state.recipients, log, now, RecipientRetention(limits))
      ensures RecipientsCover(recipients, log, now, RecipientRetention(limits))
      ensures recipient !in state.recipients ==> Swept(recipients, state.recipients)
    {
      recipients := state.recipients;
      if recipient in recipients {
        var kept := RetainRecent(recipients[recipient], TimeAt, now, RecipientRetention(limits));
        CoversTwice(kept, recipients[recipient], RecipientLog(log, recipient), TimeAt, now, RecipientRetention(limits));
        recipients := recipients[recipient := kept];
      } else if |recipients| >= SWEEP_THRESHOLD_BUCKETS {
        var kept := SweepQueues(recipients, TimeAt, now, RecipientRetention(limits));
        forall r ensures Covers(Get(kept, r), RecipientLog(log, r), TimeAt, now, RecipientRetention(limits)) {
          CoversTwice(Get(kept, r), Get(recipients, r), RecipientLog(log, r), TimeAt, now, RecipientRetention(limits));
        }
        recipients := kept;
      }
    }

    /** The seven budgets, each by its own loop over the pruned queues. */
    method Evaluate(source: string, recipient: string, now: Time) returns (d: Decision)
      requires Valid() && now == clock
      ensures d == NaiveCheck(limits, log, source, recipient, now)
    {
      var sends, times := Get(state.sources, source), Get(state.recipients, recipient);
      ghost var full, allTimes := SourceLog(log, source), RecipientLog(log, recipient);
      CostsNeverOverflow(limits, log, source, now);
      var r1, windowCost := CheckCost(sends, full, recipient, now, limits.sourceWindow, limits.sourceBudget, false);
      var r2, dailyCost := CheckCost(sends, full, recipient, now, limits.sourceDailyWindow, limits.sourceDailyBudget, true);
      var r3 := CheckCount(times, allTimes, now, RecipientRetention(limits), limits.recipientCooldown, 1);
      var r4 := CheckCount(times, allTimes, now, RecipientRetention(limits),
                           limits.recipientHourWindow, limits.recipientHourLimit);
      var r5 := CheckCount(times, allTimes, now, RecipientRetention(limits),
                           limits.recipientDailyWindow, limits.recipientDailyLimit);
      var r6 := CheckCount(state.global, GlobalLog(log), now, GlobalRetention(limits),
                           limits.globalHourWindow, limits.globalHourLimit);
      var r7 := CheckCount(state.global, GlobalLog(log), now, GlobalRetention(limits),
                           limits.globalDailyWindow, limits.globalDailyLimit);
      var retry := Later(r1, Later(r2, Later(r3, Later(r4, Later(r5, Later(r6, r7))))));
      d := if retry.Some? then Reject(retry.value) else Accept(windowCost, dailyCost);
    }

    method CheckCost(sends: seq<SourceSend>, ghost full: seq<SourceSend>, recipient: string, now: Time,
                     window: nat, budget: nat, daily: bool)
      returns (retry: Option<nat>, cost: nat)
      requires Covers(sends, full, SendAt, now, SourceRetention(limits)) && window <= SourceRetention(limits)
      requires CountedWithin(full, now, window, budget, daily) && budget < U32_MAX
      ensures cost == RecipientCost(Recent(full, SendAt, now, window), recipient)
      ensures retry == WeightedRetryAfter(full, now, window, budget, cost, daily)
    {
      CoversSameRecent(sends, full, SendAt, now, SourceRetention(limits), window);
      cost := CostFor(sends, recipient, now, window);
      CoversSameWeighted(sends, full, now, SourceRetention(limits), window, budget, cost, daily);
      retry := WeightedRetry(sends, now, window, budget, cost, daily);
    }

    method CheckCount(times: seq<Time>, ghost full: seq<Time>, now: Time, ghost retention: nat, window: nat, limit: nat)
      returns (retry: Option<nat>)
      requires Covers(times, full, TimeAt, now, retention) && window <= retention && limit >= 1
      ensures retry == CountRetryAfter(full, now, window, limit)
    {
      CoversSameCount(times, full, now, retention, window, limit);
      retry := CountRetry(times, now, window, limit);
    }

    /** Charges an accepted send to its source, its recipient and the process. */
    method Charge(source: string, event: SourceSend)
      requires Valid() && clock == event.at
      requires NaiveCheck(limits, log, source, event.recipient, event.at) == Accept(event.windowCost, event.dailyCost)
      modifies this`state, this`log
      ensures log == old(log) + [Send(source, event)] && Valid()
    {
      KeepsCharged(limits, state, log, Send(source, event));
      state := state.(sources := state.sources[source := Get(state.sources, source) + [event]],
                      recipients := state.recipients[event.recipient := Get(state.recipients, event.recipient) + [event.at]],
                      global := state.global + [event.at]);
      log := log + [Send(source, event)];
    }

    /**
     One check. Whatever was pruned or swept before, it answers as the naive
     limiter does on the full log; a rejected check leaves that log unchanged.
     */
    method CheckAt(source: string, recipient: string, now: Time) returns (r: Result<(), nat>)
      requires Valid() && clock <= now
      modifies this
      ensures Valid() && clock == now
      ensures r == Answer(NaiveCheck(limits, old(log), source, recipient, now))
      ensures log == NaiveLog(old(log), NaiveCheck(limits, old(log), source, recipient, now), source, recipient, now)
    {
      Sweep(source, recipient, now);
      KeepsOpened(limits, state, log, clock, source, recipient);
      state := Opened(state, source, recipient);
      var d := Evaluate(source, recipient, now);
      if d.Accept? {
        Charge(source, SourceSend(now, recipient, d.windowCost, d.dailyCost));
      }
      r := Answer(d);
    }
  }
}
