/** Every log the limiter can build keeps all seven budgets, in every window position. */
module EmailBudgets {

  import opened Wrappers
  import opened EmailLimits

  /** A log of accepted sends: times never go back, and each send was accepted against the log before it. */
  ghost predicate IsLog(l: Limits, log: seq<Send>)
    requires Sound(l)
  {
    log != [] ==>
      var before, last := log[..|log| - 1], log[|log| - 1];
      && IsLog(l, before)
      && (forall s <- before :: s.event.at <= last.event.at)
      && NaiveCheck(l, before, last.source, last.event.recipient, last.event.at)
         == Accept(last.event.windowCost, last.event.dailyCost)
  }

  /** The events at times in `[start, start + window)`. */
  function Within<T>(es: seq<T>, at: T -> Time, start: Time, window: nat): seq<T> {
    if es == [] then [] else
    var before, last := Within(es[..|es| - 1], at, start, window), es[|es| - 1];
    if start <= at(last) < start + window then before + [last] else before
  }

  ghost predicate SourceBudgetsHold(l: Limits, es: seq<SourceSend>, start: Time) {
    && Sum(Within(es, SendAt, start, l.sourceWindow), false) <= l.sourceBudget
    && Sum(Within(es, SendAt, start, l.sourceDailyWindow), true) <= l.sourceDailyBudget
  }

  ghost predicate RecipientBudgetsHold(l: Limits, ts: seq<Time>, start: Time) {
    && |Within(ts, TimeAt, start, l.recipientCooldown)| <= 1
    && |Within(ts, TimeAt, start, l.recipientHourWindow)| <= l.recipientHourLimit
    && |Within(ts, TimeAt, start, l.recipientDailyWindow)| <= l.recipientDailyLimit
  }

  ghost predicate GlobalBudgetsHold(l: Limits, ts: seq<Time>, start: Time) {
    && |Within(ts, TimeAt, start, l.globalHourWindow)| <= l.globalHourLimit
    && |Within(ts, TimeAt, start, l.globalDailyWindow)| <= l.globalDailyLimit
  }

  /** A window that reaches `now` holds no more than what a check at `now` counts. */
  lemma {:induction false} WithinIsRecent<T>(es: seq<T>, at: T -> Time, start: Time, now: Time, window: nat)
    requires start <= now < start + window && forall e <- es :: at(e) <= now
    ensures |Within(es, at, start, window)| <= |Recent(es, at, now, window)|
  {
    if es != [] { WithinIsRecent(es[..|es| - 1], at, start, now, window); }
  }

  lemma {:induction false} CostWithinIsRecent(es: seq<SourceSend>, start: Time, now: Time, window: nat, daily: bool)
    requires start <= now < start + window && forall e <- es :: e.at <= now
    ensures Sum(Within(es, SendAt, start, window), daily) <= Sum(Recent(es, SendAt, now, window), daily)
  {
    if es != [] {
      var before, last := es[..|es| - 1], es[|es| - 1];
      CostWithinIsRecent(before, start, now, window, daily);
      assert last in es;
      SumPush(Within(before, SendAt, start, window), last, daily);
      SumPush(Recent(before, SendAt, now, window), last, daily);
    }
  }

  lemma WithinPush<T>(es: seq<T>, e: T, at: T -> Time, start: Time, window: nat)
    ensures Within(es + [e], at, start, window)
         == if start <= at(e) < start + window then Within(es, at, start, window) + [e] else Within(es, at, start, window)
  {
    assert (es + [e])[..|es|] == es;
  }

  lemma {:induction false} LogTimes(log: seq<Send>, now: Time, source: string, recipient: string)
    requires forall s <- log :: s.event.at <= now
    ensures forall e <- SourceLog(log, source) :: e.at <= now
    ensures forall t <- RecipientLog(log, recipient) :: t <= now
    ensures forall t <- GlobalLog(log) :: t <= now
  {
    if log != [] { LogTimes(log[..|log| - 1], now, source, recipient); }
  }

  /** One more send at `now` keeps a count budget whose check at `now` passed. */
  lemma CountStep(es: seq<Time>, now: Time, start: Time, window: nat, limit: nat)
    requires limit >= 1 && forall t <- es :: t <= now
    requires |Within(es, TimeAt, start, window)| <= limit
    requires CountRetryAfter(es, now, window, limit).None?
    ensures |Within(es + [now], TimeAt, start, window)| <= limit
  {
    WithinPush(es, now, TimeAt, start, window);
    if start <= now < start + window { WithinIsRecent(es, TimeAt, start, now, window); }
  }

  /** One more send at `now` keeps a cost budget whose check at `now` passed. */
  lemma CostStep(es: seq<SourceSend>, e: SourceSend, start: Time, window: nat, budget: nat, daily: bool)
    requires budget < U32_MAX && forall s <- es :: s.at <= e.at
    requires Sum(Within(es, SendAt, start, window), daily) <= budget
    requires WeightedRetryAfter(es, e.at, window, budget, Cost(e, daily), daily).None?
    ensures Sum(Within(es + [e], SendAt, start, window), daily) <= budget
  {
    WithinPush(es, e, SendAt, start, window);
    SumPush(Within(es, SendAt, start, window), e, daily);
    if start <= e.at < start + window { CostWithinIsRecent(es, start, e.at, window, daily); }
  }

  /** In every run and at every window position, the two cost budgets of every source hold. */
  lemma {:induction false} SourceBudgets(l: Limits, log: seq<Send>, source: string, start: Time)
    requires Sound(l) && IsLog(l, log)
    ensures SourceBudgetsHold(l, SourceLog(log, source), start)
  {
    if log != [] {
      var before, last := log[..|log| - 1], log[|log| - 1];
      var e, es := last.event, SourceLog(before, source);
      SourceBudgets(l, before, source, start);
      if last.source == source {
        LogTimes(before, e.at, source, e.recipient);
        AcceptedByAll(l, es, RecipientLog(before, e.recipient), GlobalLog(before), e.recipient, e.at);
        CostStep(es, e, start, l.sourceWindow, l.sourceBudget, false);
        CostStep(es, e, start, l.sourceDailyWindow, l.sourceDailyBudget, true);
      }
    }
  }

  /** In every run and at every window position, the three budgets of every recipient hold. */
  lemma {:induction false} RecipientBudgets(l: Limits, log: seq<Send>, recipient: string, start: Time)
    requires Sound(l) && IsLog(l, log)
    ensures RecipientBudgetsHold(l, RecipientLog(log, recipient), start)
  {
    if log != [] {
      var before, last := log[..|log| - 1], log[|log| - 1];
      var now, ts := last.event.at, RecipientLog(before, recipient);
      RecipientBudgets(l, before, recipient, start);
      if last.event.recipient == recipient {
        LogTimes(before, now, last.source, recipient);
        AcceptedByAll(l, SourceLog(before, last.source), ts, GlobalLog(before), recipient, now);
        CountStep(ts, now, start, l.recipientCooldown, 1);
        CountStep(ts, now, start, l.recipientHourWindow, l.recipientHourLimit);
        CountStep(ts, now, start, l.recipientDailyWindow, l.recipientDailyLimit);
      }
    }
  }

  /** In every run and at every window position, the two process-wide budgets hold. */
  lemma {:induction false} GlobalBudgets(l: Limits, log: seq<Send>, start: Time)
    requires Sound(l) && IsLog(l, log)
    ensures GlobalBudgetsHold(l, GlobalLog(log), start)
  {
    if log != [] {
      var before, last := log[..|log| - 1], log[|log| - 1];
      var e, ts := last.event, GlobalLog(before);
      GlobalBudgets(l, before, start);
      LogTimes(before, e.at, last.source, e.recipient);
      AcceptedByAll(l, SourceLog(before, last.source), RecipientLog(before, e.recipient), ts, e.recipient, e.at);
      CountStep(ts, e.at, start, l.globalHourWindow, l.globalHourLimit);
      CountStep(ts, e.at, start, l.globalDailyWindow, l.globalDailyLimit);
    }
  }

  function SourceWindow(l: Limits, daily: bool): nat { if daily then l.sourceDailyWindow else l.sourceWindow }

  function SourceBudget(l: Limits, daily: bool): nat { if daily then l.sourceDailyBudget else l.sourceBudget }

  /** The cost a check at `now` counts is within the budget. */
  predicate CountedWithin(es: seq<SourceSend>, now: Time, window: nat, budget: nat, daily: bool) {
    Sum(Recent(es, SendAt, now, window), daily) <= budget
  }

  lemma RecentCost(es: seq<SourceSend>, now: Time, window: nat, budget: nat, daily: bool)
    requires forall e <- es :: e.at <= now
    requires Sum(Within(es, SendAt, now - window + 1, window), daily) <= budget
    ensures CountedWithin(es, now, window, budget, daily)
  {
    RecentIsWithin(es, now, window);
  }

  /** Costs a check counts never pass the budget, so their u32 sum cannot overflow. */
  lemma CostsNeverOverflow(l: Limits, log: seq<Send>, source: string, now: Time)
    requires Sound(l) && IsLog(l, log) && forall s <- log :: s.event.at <= now
    ensures CountedWithin(SourceLog(log, source), now, l.sourceWindow, l.sourceBudget, false)
    ensures CountedWithin(SourceLog(log, source), now, l.sourceDailyWindow, l.sourceDailyBudget, true)
    ensures l.sourceBudget < U32_MAX && l.sourceDailyBudget < U32_MAX
  {
    CountedCost(l, log, source, now, false);
    CountedCost(l, log, source, now, true);
  }

  lemma BudgetHolds(l: Limits, es: seq<SourceSend>, start: Time, daily: bool)
    requires SourceBudgetsHold(l, es, start)
    ensures Sum(Within(es, SendAt, start, SourceWindow(l, daily)), daily) <= SourceBudget(l, daily)
  {}

  lemma CountedCost(l: Limits, log: seq<Send>, source: string, now: Time, daily: bool)
    requires Sound(l) && IsLog(l, log) && forall s <- log :: s.event.at <= now
    ensures CountedWithin(SourceLog(log, source), now, SourceWindow(l, daily), SourceBudget(l, daily), daily)
  {
    var start := now - SourceWindow(l, daily) + 1;
    LogTimes(log, now, source, source);
    SourceBudgets(l, log, source, start);
    BudgetHolds(l, SourceLog(log, source), start, daily);
    RecentCost(SourceLog(log, source), now, SourceWindow(l, daily), SourceBudget(l, daily), daily);
  }

  lemma {:induction false} RecentIsWithin(es: seq<SourceSend>, now: Time, window: nat)
    requires forall e <- es :: e.at <= now
    ensures Recent(es, SendAt, now, window) == Within(es, SendAt, now - window + 1, window)
  {
    if es != [] {
      assert es[|es| - 1] in es;
      RecentIsWithin(es[..|es| - 1], now, window);
    }
  }

  /**
   The saturating budget test differs from the exact one in a single case: a
   budget of the largest u32 admits a cost that takes the sum past it. Hence
   `Sound` keeps budgets below that.
   */
  lemma SaturatingTestIsExact(total: nat, incoming: nat, budget: nat)
    requires total <= U32_MAX && budget <= U32_MAX
    ensures (SaturatingAdd(total, incoming) <= budget <==> total + incoming <= budget)
       <==> !(budget == U32_MAX && total + incoming > U32_MAX)
  {}

  /** A cost budget accepts the send after those of the log, at its cost then. */
  ghost predicate AcceptsNext(es: seq<SourceSend>, e: SourceSend, window: nat, budget: nat, daily: bool) {
    && (forall s <- es :: s.at <= e.at)
    && Cost(e, daily) == RecipientCost(Recent(es, SendAt, e.at, window), e.recipient)
    && WeightedRetryAfter(es, e.at, window, budget, Cost(e, daily), daily).None?
  }

  ghost predicate AcceptsAt(es: seq<SourceSend>, i: nat, window: nat, budget: nat, daily: bool)
    requires i < |es|
  {
    AcceptsNext(es[..i], es[i], window, budget, daily)
  }

  /** The sends of one source, each accepted by one cost budget, at times that never go back. */
  ghost predicate IsCostLog(es: seq<SourceSend>, window: nat, budget: nat, daily: bool) {
    forall i :: 0 <= i < |es| ==> AcceptsAt(es, i, window, budget, daily)
  }

  /** It keeps the budget at every window position. */
  ghost predicate CostBudgetHolds(es: seq<SourceSend>, window: nat, budget: nat, daily: bool) {
    forall start :: Sum(Within(es, SendAt, start, window), daily) <= budget
  }

  /** A cost budget is kept by everything it accepts if and only if it is below the largest u32. */
  lemma CostBudgetIsKept(window: nat, budget: nat, daily: bool)
    requires window > 0 && budget <= U32_MAX
    ensures (forall es :: IsCostLog(es, window, budget, daily) ==> CostBudgetHolds(es, window, budget, daily))
       <==> budget < U32_MAX
  {
    if budget < U32_MAX {
      forall es | IsCostLog(es, window, budget, daily) ensures CostBudgetHolds(es, window, budget, daily) {
        forall start ensures Sum(Within(es, SendAt, start, window), daily) <= budget {
          CostLogFits(es, window, budget, daily, start);
        }
      }
    } else {
      var es := Repeated(U32_MAX + 1);
      RepeatedIsAccepted(U32_MAX + 1, window, daily);
      RepeatedSum(U32_MAX + 1, window, daily);
      assert IsCostLog(es, window, budget, daily) && !CostBudgetHolds(es, window, budget, daily);
    }
  }

  lemma CostLogPrefix(es: seq<SourceSend>, n: nat, window: nat, budget: nat, daily: bool)
    requires IsCostLog(es, window, budget, daily) && n <= |es|
    ensures IsCostLog(es[..n], window, budget, daily)
  {
    forall i | 0 <= i < n ensures AcceptsAt(es[..n], i, window, budget, daily) {
      assert AcceptsAt(es, i, window, budget, daily) && es[..n][..i] == es[..i];
    }
  }

  lemma AcceptedFits(es: seq<SourceSend>, e: SourceSend, all: seq<SourceSend>, window: nat, budget: nat, daily: bool, start: Time)
    requires budget < U32_MAX && AcceptsNext(es, e, window, budget, daily) && all == es + [e]
    requires Sum(Within(es, SendAt, start, window), daily) <= budget
    ensures Sum(Within(all, SendAt, start, window), daily) <= budget
  {
    CostStep(es, e, start, window, budget, daily);
  }

  lemma {:induction false} CostLogFits(es: seq<SourceSend>, window: nat, budget: nat, daily: bool, start: Time)
    requires budget < U32_MAX && IsCostLog(es, window, budget, daily)
    ensures Sum(Within(es, SendAt, start, window), daily) <= budget
  {
    if es != [] {
      var n := |es| - 1;
      CostLogPrefix(es, n, window, budget, daily);
      assert AcceptsAt(es, n, window, budget, daily);
      CostLogFits(es[..n], window, budget, daily, start);
      AcceptedFits(es[..n], es[n], es, window, budget, daily, start);
    }
  }

  /** Messages to one recipient at one moment. */
  const SAMPLE := SourceSend(0, "recipient", 1, 1)

  function Repeated(n: nat): (es: seq<SourceSend>)
    ensures |es| == n && forall i :: 0 <= i < n ==> es[i] == SAMPLE
  {
    seq(n, _ => SAMPLE)
  }

  /** A budget of the largest u32 accepts any number of them. */
  lemma RepeatedIsAccepted(n: nat, window: nat, daily: bool)
    requires window > 0
    ensures IsCostLog(Repeated(n), window, U32_MAX, daily)
  {
    forall i | 0 <= i < n ensures AcceptsAt(Repeated(n), i, window, U32_MAX, daily) {
      SampleIsAccepted(Repeated(n)[..i], window, daily);
    }
  }

  lemma SampleIsAccepted(es: seq<SourceSend>, window: nat, daily: bool)
    requires window > 0 && forall i :: 0 <= i < |es| ==> es[i] == SAMPLE
    ensures AcceptsNext(es, SAMPLE, window, U32_MAX, daily)
  {
    RecentAll(es, SendAt, 0, window);
    if es != [] { assert SentTo(es, SAMPLE.recipient) by { assert es[0] in es; } }
  }

  lemma RepeatedSum(n: nat, window: nat, daily: bool)
    requires window > 0
    ensures Sum(Within(Repeated(n), SendAt, 1 - window, window), daily) == n
  {
    AllWithin(Repeated(n), window);
    SumOfSamples(Repeated(n), daily);
  }

  lemma AllWithin(es: seq<SourceSend>, window: nat)
    requires window > 0 && forall i :: 0 <= i < |es| ==> es[i] == SAMPLE
    ensures Within(es, SendAt, 1 - window, window) == es
  {
    RecentAll(es, SendAt, 0, window);
    RecentIsWithin(es, 0, window);
  }

  lemma {:induction false} SumOfSamples(es: seq<SourceSend>, daily: bool)
    requires forall i :: 0 <= i < |es| ==> es[i] == SAMPLE
    ensures Sum(es, daily) == |es|
  {
    if es != [] { SumOfSamples(es[..|es| - 1], daily); }
  }

  /** A send touches the logs of its own source and recipient only. */
  lemma LogsPush(log: seq<Send>, send: Send, source: string, recipient: string)
    ensures SourceLog(log + [send], source)
         == if source == send.source then SourceLog(log, source) + [send.event] else SourceLog(log, source)
    ensures RecipientLog(log + [send], recipient)
         == if recipient == send.event.recipient
            then RecipientLog(log, recipient) + [send.event.at] else RecipientLog(log, recipient)
    ensures GlobalLog(log + [send]) == GlobalLog(log) + [send.event.at]
  {
    assert (log + [send])[..|log|] == log;
  }

  lemma IsLogPush(l: Limits, log: seq<Send>, send: Send)
    requires Sound(l) && IsLog(l, log) && forall s <- log :: s.event.at <= send.event.at
    requires NaiveCheck(l, log, send.source, send.event.recipient, send.event.at)
          == Accept(send.event.windowCost, send.event.dailyCost)
    ensures IsLog(l, log + [send])
  {
    assert (log + [send])[..|log|] == log;
  }

  // ---- What a send costs ----

  function Recipients(es: seq<SourceSend>): set<string> { set e | e in es :: e.recipient }

  predicate AllRecent(es: seq<SourceSend>, now: Time, window: nat) { forall e <- es :: Elapsed(now, e.at) < window }

  /** Every send costs one, and every further recipient one more. */
  predicate CostIs(es: seq<SourceSend>, daily: bool) {
    Sum(es, daily) == if es == [] then 0 else |es| + |Recipients(es)| - 1
  }

  lemma CostGrows(es: seq<SourceSend>, e: SourceSend, daily: bool)
    requires CostIs(es, daily) && Cost(e, daily) == RecipientCost(es, e.recipient)
    ensures CostIs(es + [e], daily)
  {
    SumPush(es, e, daily);
    assert Recipients(es + [e]) == Recipients(es) + {e.recipient};
    assert e.recipient in Recipients(es) <==> SentTo(es, e.recipient);
    if es == [] { assert Recipients(es) == {}; }
  }

  /** While all sends of a source lie in one window, they cost one each and one more per further recipient. */
  lemma {:induction false} FirstWindowCost(l: Limits, log: seq<Send>, source: string, now: Time, daily: bool)
    requires Sound(l) && IsLog(l, log) && forall s <- log :: s.event.at <= now
    requires AllRecent(SourceLog(log, source), now, SourceWindow(l, daily))
    ensures CostIs(SourceLog(log, source), daily)
  {
    if log != [] {
      var before, last := log[..|log| - 1], log[|log| - 1];
      var es, e := SourceLog(before, source), last.event;
      assert last in log;
      FirstWindowCost(l, before, source, now, daily);
      if last.source == source {
        RecentAll(es, SendAt, e.at, SourceWindow(l, daily));
        CostGrows(es, e, daily);
      }
    }
  }

  /** So `n` messages from one source to `d` recipients inside one window fit the budget `b` only if `n + d <= b + 1`. */
  lemma FirstWindowBound(l: Limits, log: seq<Send>, source: string, now: Time, daily: bool)
    requires Sound(l) && IsLog(l, log) && forall s <- log :: s.event.at <= now
    requires var es := SourceLog(log, source); es != [] && AllRecent(es, now, SourceWindow(l, daily))
    ensures var es := SourceLog(log, source); |es| + |Recipients(es)| <= SourceBudget(l, daily) + 1
  {
    FirstWindowCost(l, log, source, now, daily);
    CostsNeverOverflow(l, log, source, now);
    RecentAll(SourceLog(log, source), SendAt, now, SourceWindow(l, daily));
  }
}
