/**
 How exact the retry times are. With no further sends, each budget keeps refusing
 until its releasing event leaves the window and frees from then on, and the
 answer is the least whole number of seconds that reaches that moment.
 */
module EmailRetry {

  import opened Wrappers
  import opened EmailLimits
  import opened EmailBudgets

  ghost predicate Sorted<T>(es: seq<T>, at: T -> Time) {
    forall i, j :: 0 <= i <= j < |es| ==> at(es[i]) <= at(es[j])
  }

  lemma {:induction false} RecentIsSorted<T>(es: seq<T>, at: T -> Time, now: Time, window: nat)
    requires Sorted(es, at)
    ensures Sorted(Recent(es, at, now, window), at)
    ensures forall e <- Recent(es, at, now, window) :: e in es && Elapsed(now, at(e)) < window
  {
    if es != [] {
      RecentIsSorted(es[..|es| - 1], at, now, window);
    }
  }

  /** What is outside a window now stays outside it. */
  lemma {:induction false} RecentOfRecent<T>(es: seq<T>, at: T -> Time, now: Time, later: Time, window: nat)
    requires now <= later
    ensures Recent(Recent(es, at, now, window), at, later, window) == Recent(es, at, later, window)
  {
    if es != [] {
      var before, last := es[..|es| - 1], es[|es| - 1];
      RecentOfRecent(before, at, now, later, window);
      var recent := Recent(before, at, now, window);
      assert (recent + [last])[..|recent|] == recent;
    }
  }

  /** In a sorted window, before the event at `r` expires it and all after it count. */
  lemma BeforeExpiry<T>(es: seq<T>, at: T -> Time, r: nat, later: Time, window: nat)
    requires Sorted(es, at) && r < |es| && window > 0 && later < at(es[r]) + window
    ensures Recent(es, at, later, window) == Recent(es[..r], at, later, window) + es[r..]
  {
    var counted := es[r..];
    assert es[..r] + counted == es;
    forall i | 0 <= i < |counted| ensures Elapsed(later, at(counted[i])) < window {
      assert at(es[r]) <= at(es[r + i]);
    }
    RecentConcat(es[..r], counted, at, later, window);
    RecentAll(counted, at, later, window);
  }

  /** Once it has expired, it and all before it do not. */
  lemma AfterExpiry<T>(es: seq<T>, at: T -> Time, r: nat, later: Time, window: nat)
    requires Sorted(es, at) && r < |es| && later >= at(es[r]) + window
    ensures Recent(es, at, later, window) == Recent(es[r + 1..], at, later, window)
  {
    var gone := es[..r + 1];
    assert gone + es[r + 1..] == es;
    forall i | 0 <= i < |gone| ensures Elapsed(later, at(gone[i])) >= window {
      assert at(es[i]) <= at(es[r]);
    }
    RecentConcat(gone, es[r + 1..], at, later, window);
    RecentNone(gone, at, later, window);
  }

  /** The answer is the least whole number of seconds that reaches the expiry. */
  lemma LeastSeconds(at: Time, now: Time, window: nat, k: nat)
    requires at <= now && Elapsed(now, at) < window
    ensures now + k * 1_000_000_000 >= at + window <==> k >= SecondsUntilExpiry(at, now, window)
  {}

  /** A count budget frees exactly when its releasing event expires. */
  lemma CountFreesAtRelease(es: seq<Time>, now: Time, window: nat, limit: nat, later: Time)
    requires limit >= 1 && Sorted(es, TimeAt) && now <= later
    requires CountRetryAfter(es, now, window, limit).Some?
    ensures var recent := Recent(es, TimeAt, now, window);
      CountRetryAfter(es, later, window, limit).None? <==> later >= recent[|recent| - limit] + window
  {
    var recent := Recent(es, TimeAt, now, window);
    var r := |recent| - limit;
    RecentIsSorted(es, TimeAt, now, window);
    RecentOfRecent(es, TimeAt, now, later, window);
    assert recent[r] in recent;
    if later < recent[r] + window {
      BeforeExpiry(recent, TimeAt, r, later, window);
    } else {
      AfterExpiry(recent, TimeAt, r, later, window);
    }
  }

  /** A count budget's retry time: waiting `k` seconds suffices exactly when `k` is at least the answer. */
  lemma CountRetryIsExact(es: seq<Time>, now: Time, window: nat, limit: nat, k: nat)
    requires limit >= 1 && Sorted(es, TimeAt) && forall t <- es :: t <= now
    requires CountRetryAfter(es, now, window, limit).Some?
    ensures CountRetryAfter(es, now + k * SECOND, window, limit).None?
       <==> k >= CountRetryAfter(es, now, window, limit).value
  {
    var recent := Recent(es, TimeAt, now, window);
    CountFreesAtRelease(es, now, window, limit, now + k * SECOND);
    RecentIsSorted(es, TimeAt, now, window);
    var release := recent[|recent| - limit];
    assert release in recent;
    LeastSeconds(release, now, window, k);
  }

  /** Cost still counted at a later time, either side of the expiry of the event at `i`. */
  lemma CostAfter(recent: seq<SourceSend>, i: nat, later: Time, window: nat, daily: bool)
    requires Sorted(recent, SendAt) && i < |recent| && window > 0
    ensures var left := Sum(Recent(recent, SendAt, later, window), daily);
      && (later < recent[i].at + window ==> left + Sum(recent[..i], daily) >= Sum(recent, daily))
      && (later >= recent[i].at + window ==> left + Sum(recent[..i + 1], daily) <= Sum(recent, daily))
  {
    if later < recent[i].at + window {
      BeforeExpiry(recent, SendAt, i, later, window);
      SumSplit(recent, i, daily);
      SumConcat(Recent(recent[..i], SendAt, later, window), recent[i..], daily);
    } else {
      AfterExpiry(recent, SendAt, i, later, window);
      SumSplit(recent, i + 1, daily);
      SumOfRecent(recent[i + 1..], later, window, daily);
    }
  }

  /** The event whose expiry releases enough cost for `incoming`. */
  function Releasing(recent: seq<SourceSend>, budget: nat, incoming: nat, daily: bool): Option<nat>
    requires Sum(recent, daily) + incoming > budget
  {
    ReleaseIndex(recent, Sum(recent, daily) + incoming - budget, daily, 0)
  }

  lemma ReleasingSums(recent: seq<SourceSend>, budget: nat, incoming: nat, daily: bool)
    requires Sum(recent, daily) + incoming > budget && incoming <= budget
    ensures var i := Releasing(recent, budget, incoming, daily);
      && i.Some? && i.value < |recent|
      && Sum(recent[..i.value + 1], daily) >= Sum(recent, daily) + incoming - budget
      && Sum(recent[..i.value], daily) < Sum(recent, daily) + incoming - budget
  {
    ReleaseIndexFound(recent, Sum(recent, daily) + incoming - budget, daily, 0);
  }

  /** The cost of the events inside the window at `now`. */
  function Counted(es: seq<SourceSend>, now: Time, window: nat, daily: bool): nat {
    Sum(Recent(es, SendAt, now, window), daily)
  }

  /** When the releasing event was sent. */
  function ReleaseAt(es: seq<SourceSend>, now: Time, window: nat, budget: nat, incoming: nat, daily: bool): Time
    requires Counted(es, now, window, daily) + incoming > budget
  {
    var recent := Recent(es, SendAt, now, window);
    var i := Releasing(recent, budget, incoming, daily);
    if i.Some? then recent[i.value].at else now
  }

  /** A cost budget, asked again for the same cost, frees exactly when its releasing event expires. */
  lemma WeightedFreesAtRelease(es: seq<SourceSend>, now: Time, window: nat, budget: nat, incoming: nat, daily: bool,
                               later: Time)
    requires Sorted(es, SendAt) && now <= later && incoming <= budget
    requires Counted(es, now, window, daily) + incoming > budget
    ensures Counted(es, later, window, daily) + incoming <= budget
       <==> later >= ReleaseAt(es, now, window, budget, incoming, daily) + window
  {
    var recent := Recent(es, SendAt, now, window);
    ReleasingSums(recent, budget, incoming, daily);
    var i := Releasing(recent, budget, incoming, daily).value;
    RecentIsSorted(es, SendAt, now, window);
    assert recent[i] in recent;
    RecentOfRecent(es, SendAt, now, later, window);
    CostAfter(recent, i, later, window, daily);
  }

  lemma SumSplit(es: seq<SourceSend>, i: nat, daily: bool)
    requires i <= |es|
    ensures Sum(es, daily) == Sum(es[..i], daily) + Sum(es[i..], daily)
  {
    assert es[..i] + es[i..] == es;
    SumConcat(es[..i], es[i..], daily);
  }

  lemma {:induction false} SumOfRecent(es: seq<SourceSend>, now: Time, window: nat, daily: bool)
    ensures Sum(Recent(es, SendAt, now, window), daily) <= Sum(es, daily)
  {
    if es != [] {
      var before := es[..|es| - 1];
      SumOfRecent(before, now, window, daily);
      SumPush(Recent(before, SendAt, now, window), es[|es| - 1], daily);
    }
  }

  lemma CountedShrinks(es: seq<SourceSend>, now: Time, later: Time, window: nat, daily: bool)
    requires now <= later
    ensures Counted(es, later, window, daily) <= Counted(es, now, window, daily)
  {
    RecentOfRecent(es, SendAt, now, later, window);
    SumOfRecent(Recent(es, SendAt, now, window), later, window, daily);
  }

  lemma ReleaseIsRecent(es: seq<SourceSend>, now: Time, window: nat, budget: nat, incoming: nat, daily: bool)
    requires Sorted(es, SendAt) && (forall e <- es :: e.at <= now) && incoming <= budget
    requires Counted(es, now, window, daily) + incoming > budget
    ensures ReleaseAt(es, now, window, budget, incoming, daily) <= now
    ensures Elapsed(now, ReleaseAt(es, now, window, budget, incoming, daily)) < window
  {
    var recent := Recent(es, SendAt, now, window);
    ReleasingSums(recent, budget, incoming, daily);
    RecentIsSorted(es, SendAt, now, window);
    assert recent[Releasing(recent, budget, incoming, daily).value] in recent;
  }

  /** Without saturation, the budget refuses exactly when the exact sum is over it, and names the releasing event. */
  lemma WeightedMeaning(es: seq<SourceSend>, now: Time, window: nat, budget: nat, incoming: nat, daily: bool)
    requires Counted(es, now, window, daily) + incoming <= U32_MAX && incoming <= budget
    ensures var retry := WeightedRetryAfter(es, now, window, budget, incoming, daily);
      && (retry.None? <==> Counted(es, now, window, daily) + incoming <= budget)
      && (retry.Some? ==>
            retry.value == SecondsUntilExpiry(ReleaseAt(es, now, window, budget, incoming, daily), now, window))
  {
    var recent := Recent(es, SendAt, now, window);
    if Counted(es, now, window, daily) + incoming > budget {
      ReleasingSums(recent, budget, incoming, daily);
    }
  }

  /** A cost budget's retry time for a fixed cost: waiting `k` seconds suffices exactly when `k` is at least the answer. */
  lemma WeightedRetryIsExact(es: seq<SourceSend>, now: Time, window: nat, budget: nat, incoming: nat, daily: bool, k: nat)
    requires Sorted(es, SendAt) && (forall e <- es :: e.at <= now) && incoming <= budget
    requires Counted(es, now, window, daily) + incoming <= U32_MAX
    requires WeightedRetryAfter(es, now, window, budget, incoming, daily).Some?
    ensures WeightedRetryAfter(es, now + k * SECOND, window, budget, incoming, daily).None?
       <==> k >= WeightedRetryAfter(es, now, window, budget, incoming, daily).value
  {
    var later := now + k * SECOND;
    var free := Counted(es, later, window, daily) + incoming <= budget;
    assert WeightedRetryAfter(es, later, window, budget, incoming, daily).None? <==> free by {
      CountedShrinks(es, now, later, window, daily);
      WeightedMeaning(es, later, window, budget, incoming, daily);
    }
    WeightedMeaning(es, now, window, budget, incoming, daily);
    var release := ReleaseAt(es, now, window, budget, incoming, daily);
    assert free <==> later >= release + window by {
      WeightedFreesAtRelease(es, now, window, budget, incoming, daily, later);
    }
    ReleaseIsRecent(es, now, window, budget, incoming, daily);
    LeastSeconds(release, now, window, k);
  }

  // ---- The logs of the limiter ----

  lemma SortedPush<T>(es: seq<T>, e: T, at: T -> Time)
    requires Sorted(es, at) && forall x <- es :: at(x) <= at(e)
    ensures Sorted(es + [e], at)
  {
    forall i | 0 <= i < |es| ensures at(es[i]) <= at(e) { assert es[i] in es; }
  }

  /** The limiter's logs are in order of time. */
  lemma {:induction false} LogIsSorted(l: Limits, log: seq<Send>, source: string, recipient: string)
    requires Sound(l) && IsLog(l, log)
    ensures Sorted(SourceLog(log, source), SendAt)
    ensures Sorted(RecipientLog(log, recipient), TimeAt)
    ensures Sorted(GlobalLog(log), TimeAt)
  {
    if log != [] {
      var before, e := log[..|log| - 1], log[|log| - 1].event;
      LogIsSorted(l, before, source, recipient);
      LogTimes(before, e.at, source, recipient);
      SortedPush(SourceLog(before, source), e, SendAt);
      SortedPush(RecipientLog(before, recipient), e.at, TimeAt);
      SortedPush(GlobalLog(before), e.at, TimeAt);
    }
  }

  /** A budget's answer is met after `k` seconds. */
  predicate Met(retry: Option<nat>, k: nat) { retry.None? || k >= retry.value }

  predicate CountFits(es: seq<Time>, now: Time, window: nat, limit: nat) { |Recent(es, TimeAt, now, window)| < limit }

  predicate CostFits(es: seq<SourceSend>, now: Time, window: nat, budget: nat, incoming: nat, daily: bool) {
    SaturatingAdd(Counted(es, now, window, daily), incoming) <= budget
  }

  /** A count budget has room after `k` seconds exactly when its answer is met. */
  lemma CountFitsAfter(es: seq<Time>, now: Time, window: nat, limit: nat, k: nat)
    requires limit >= 1 && Sorted(es, TimeAt) && forall t <- es :: t <= now
    ensures CountFits(es, now + k * SECOND, window, limit) <==> Met(CountRetryAfter(es, now, window, limit), k)
  {
    if CountRetryAfter(es, now, window, limit).Some? {
      CountRetryIsExact(es, now, window, limit, k);
    } else {
      RecentOfRecent(es, TimeAt, now, now + k * SECOND, window);
    }
  }

  /** So does a cost budget, asked again for the same cost. */
  lemma CostFitsAfter(es: seq<SourceSend>, now: Time, window: nat, budget: nat, incoming: nat, daily: bool, k: nat)
    requires Sorted(es, SendAt) && (forall e <- es :: e.at <= now) && incoming <= budget
    requires Counted(es, now, window, daily) + incoming <= U32_MAX
    ensures CostFits(es, now + k * SECOND, window, budget, incoming, daily)
       <==> Met(WeightedRetryAfter(es, now, window, budget, incoming, daily), k)
  {
    if WeightedRetryAfter(es, now, window, budget, incoming, daily).Some? {
      WeightedRetryIsExact(es, now, window, budget, incoming, daily, k);
    } else {
      CountedShrinks(es, now, now + k * SECOND, window, daily);
    }
  }

  /** The cost of one more message to the recipient. */
  function IncomingCost(l: Limits, sends: seq<SourceSend>, recipient: string, now: Time, daily: bool): (c: nat)
    ensures 1 <= c <= 2
  {
    RecipientCost(Recent(sends, SendAt, now, SourceWindow(l, daily)), recipient)
  }

  function CostAnswer(l: Limits, sends: seq<SourceSend>, incoming: nat, now: Time, daily: bool): Option<nat> {
    WeightedRetryAfter(sends, now, SourceWindow(l, daily), SourceBudget(l, daily), incoming, daily)
  }

  predicate SourceFits(l: Limits, sends: seq<SourceSend>, incoming: nat, now: Time, daily: bool) {
    CostFits(sends, now, SourceWindow(l, daily), SourceBudget(l, daily), incoming, daily)
  }

  /** Budgets with room for a message to a new recipient, and for one more cost of two below the top of the u32 range. */
  predicate Roomy(l: Limits) {
    2 <= l.sourceBudget <= U32_MAX - 2 && 2 <= l.sourceDailyBudget <= U32_MAX - 2
  }

  /** Three logs in order of time, none of it after `now`, with the costs counted at `now` within their budgets. */
  ghost predicate InOrder(l: Limits, sends: seq<SourceSend>, times: seq<Time>, global: seq<Time>, now: Time) {
    && Sorted(sends, SendAt) && (forall e <- sends :: e.at <= now)
    && Sorted(times, TimeAt) && (forall t <- times :: t <= now)
    && Sorted(global, TimeAt) && (forall t <- global :: t <= now)
    && (forall daily :: CountedWithin(sends, now, SourceWindow(l, daily), SourceBudget(l, daily), daily))
  }

  /** The logs of the limiter are. */
  lemma LogIsInOrder(l: Limits, log: seq<Send>, source: string, recipient: string, now: Time)
    requires Sound(l) && IsLog(l, log) && forall s <- log :: s.event.at <= now
    ensures InOrder(l, SourceLog(log, source), RecipientLog(log, recipient), GlobalLog(log), now)
  {
    LogIsSorted(l, log, source, recipient);
    LogTimes(log, now, source, recipient);
    forall daily ensures CountedWithin(SourceLog(log, source), now, SourceWindow(l, daily), SourceBudget(l, daily), daily) {
      CountedCost(l, log, source, now, daily);
    }
  }

  /** The cost budgets of a source. */
  lemma SourceFitsAfter(l: Limits, sends: seq<SourceSend>, incoming: nat, now: Time, daily: bool, k: nat)
    requires Roomy(l) && Sorted(sends, SendAt) && (forall e <- sends :: e.at <= now) && incoming <= 2
    requires CountedWithin(sends, now, SourceWindow(l, daily), SourceBudget(l, daily), daily)
    ensures SourceFits(l, sends, incoming, now + k * SECOND, daily) <==> Met(CostAnswer(l, sends, incoming, now, daily), k)
  {
    CostFitsAfter(sends, now, SourceWindow(l, daily), SourceBudget(l, daily), incoming, daily, k);
  }

  /** The five count budgets of a check have room. */
  ghost predicate CountsFit(l: Limits, times: seq<Time>, global: seq<Time>, now: Time) {
    && CountFits(times, now, l.recipientCooldown, 1)
    && CountFits(times, now, l.recipientHourWindow, l.recipientHourLimit)
    && CountFits(times, now, l.recipientDailyWindow, l.recipientDailyLimit)
    && CountFits(global, now, l.globalHourWindow, l.globalHourLimit)
    && CountFits(global, now, l.globalDailyWindow, l.globalDailyLimit)
  }

  ghost predicate CountsMet(l: Limits, times: seq<Time>, global: seq<Time>, now: Time, k: nat)
    requires Sound(l)
  {
    && Met(CountRetryAfter(times, now, l.recipientCooldown, 1), k)
    && Met(CountRetryAfter(times, now, l.recipientHourWindow, l.recipientHourLimit), k)
    && Met(CountRetryAfter(times, now, l.recipientDailyWindow, l.recipientDailyLimit), k)
    && Met(CountRetryAfter(global, now, l.globalHourWindow, l.globalHourLimit), k)
    && Met(CountRetryAfter(global, now, l.globalDailyWindow, l.globalDailyLimit), k)
  }

  lemma CountsFitAfter(l: Limits, times: seq<Time>, global: seq<Time>, now: Time, k: nat)
    requires Sound(l) && Sorted(times, TimeAt) && (forall t <- times :: t <= now)
    requires Sorted(global, TimeAt) && (forall t <- global :: t <= now)
    ensures CountsFit(l, times, global, now + k * SECOND) <==> CountsMet(l, times, global, now, k)
  {
    CountFitsAfter(times, now, l.recipientCooldown, 1, k);
    CountFitsAfter(times, now, l.recipientHourWindow, l.recipientHourLimit, k);
    CountFitsAfter(times, now, l.recipientDailyWindow, l.recipientDailyLimit, k);
    CountFitsAfter(global, now, l.globalHourWindow, l.globalHourLimit, k);
    CountFitsAfter(global, now, l.globalDailyWindow, l.globalDailyLimit, k);
  }

  // ---- The retry time of a whole check ----

  /** The costs the recipient has by now fit both cost budgets. */
  predicate CostsFit(l: Limits, sends: seq<SourceSend>, recipient: string, now: Time) {
    && SourceFits(l, sends, IncomingCost(l, sends, recipient, now, false), now, false)
    && SourceFits(l, sends, IncomingCost(l, sends, recipient, now, true), now, true)
  }

  /** Every budget has room for one more message. */
  ghost predicate AllFit(l: Limits, sends: seq<SourceSend>, times: seq<Time>, global: seq<Time>, recipient: string, now: Time) {
    CostsFit(l, sends, recipient, now) && CountsFit(l, times, global, now)
  }

  /** The answers of all budgets are met after `k` seconds. */
  ghost predicate AllMet(l: Limits, sends: seq<SourceSend>, times: seq<Time>, global: seq<Time>, recipient: string, now: Time,
                         k: nat)
    requires Sound(l)
  {
    && Met(CostAnswer(l, sends, IncomingCost(l, sends, recipient, now, false), now, false), k)
    && Met(CostAnswer(l, sends, IncomingCost(l, sends, recipient, now, true), now, true), k)
    && CountsMet(l, times, global, now, k)
  }

  lemma AcceptsWhenAllFit(l: Limits, sends: seq<SourceSend>, times: seq<Time>, global: seq<Time>, recipient: string, now: Time)
    requires Sound(l)
    ensures Decide(l, sends, times, global, recipient, now).Accept? <==> AllFit(l, sends, times, global, recipient, now)
  {}

  /** The answer of a rejected check is met exactly when the answers of all its budgets are. */
  lemma MetWhenAllAre(l: Limits, sends: seq<SourceSend>, times: seq<Time>, global: seq<Time>, recipient: string, now: Time,
                      k: nat)
    requires Sound(l) && Decide(l, sends, times, global, recipient, now).Reject?
    ensures k >= Decide(l, sends, times, global, recipient, now).retryAfter
       <==> AllMet(l, sends, times, global, recipient, now, k)
  {}

  /** While anything is left in the window, the cost of a recipient does not fall. */
  lemma CostOnlyRises(sends: seq<SourceSend>, now: Time, later: Time, window: nat, recipient: string)
    requires now <= later && Recent(sends, SendAt, later, window) != []
    ensures RecipientCost(Recent(sends, SendAt, now, window), recipient)
         <= RecipientCost(Recent(sends, SendAt, later, window), recipient)
  {
    RecentOfRecent(sends, SendAt, now, later, window);
    RecentIsSubset(Recent(sends, SendAt, now, window), later, window);
  }

  lemma {:induction false} RecentIsSubset(es: seq<SourceSend>, now: Time, window: nat)
    ensures forall e <- Recent(es, SendAt, now, window) :: e in es
  {
    if es != [] { RecentIsSubset(es[..|es| - 1], now, window); }
  }

  /** A full cost budget does not get room early because the cost of the recipient changes. */
  lemma FitsAtOldCost(l: Limits, sends: seq<SourceSend>, recipient: string, now: Time, later: Time, daily: bool)
    requires Roomy(l) && now <= later
    requires SourceFits(l, sends, IncomingCost(l, sends, recipient, later, daily), later, daily)
    ensures SourceFits(l, sends, IncomingCost(l, sends, recipient, now, daily), later, daily)
  {
    if Recent(sends, SendAt, later, SourceWindow(l, daily)) != [] {
      CostOnlyRises(sends, now, later, SourceWindow(l, daily), recipient);
    }
  }

  /** The costs of the recipient in both windows. */
  predicate CostsTheSame(l: Limits, sends: seq<SourceSend>, recipient: string, now: Time, later: Time) {
    && IncomingCost(l, sends, recipient, later, false) == IncomingCost(l, sends, recipient, now, false)
    && IncomingCost(l, sends, recipient, later, true) == IncomingCost(l, sends, recipient, now, true)
  }

  lemma CostMetOnceFits(l: Limits, sends: seq<SourceSend>, recipient: string, now: Time, daily: bool, k: nat)
    requires Roomy(l) && Sorted(sends, SendAt) && forall e <- sends :: e.at <= now
    requires CountedWithin(sends, now, SourceWindow(l, daily), SourceBudget(l, daily), daily)
    requires SourceFits(l, sends, IncomingCost(l, sends, recipient, now + k * SECOND, daily), now + k * SECOND, daily)
    ensures Met(CostAnswer(l, sends, IncomingCost(l, sends, recipient, now, daily), now, daily), k)
  {
    FitsAtOldCost(l, sends, recipient, now, now + k * SECOND, daily);
    SourceFitsAfter(l, sends, IncomingCost(l, sends, recipient, now, daily), now, daily, k);
  }

  lemma MetOnceAllFit(l: Limits, sends: seq<SourceSend>, times: seq<Time>, global: seq<Time>, recipient: string, now: Time,
                      k: nat)
    requires Sound(l) && Roomy(l) && InOrder(l, sends, times, global, now)
    requires AllFit(l, sends, times, global, recipient, now + k * SECOND)
    ensures AllMet(l, sends, times, global, recipient, now, k)
  {
    CostMetOnceFits(l, sends, recipient, now, false, k);
    CostMetOnceFits(l, sends, recipient, now, true, k);
    CountsFitAfter(l, times, global, now, k);
  }

  lemma AllFitOnceMet(l: Limits, sends: seq<SourceSend>, times: seq<Time>, global: seq<Time>, recipient: string, now: Time,
                      k: nat)
    requires Sound(l) && Roomy(l) && InOrder(l, sends, times, global, now)
    requires AllMet(l, sends, times, global, recipient, now, k)
    requires CostsTheSame(l, sends, recipient, now, now + k * SECOND)
    ensures AllFit(l, sends, times, global, recipient, now + k * SECOND)
  {
    SourceFitsAfter(l, sends, IncomingCost(l, sends, recipient, now, false), now, false, k);
    SourceFitsAfter(l, sends, IncomingCost(l, sends, recipient, now, true), now, true, k);
    CountsFitAfter(l, times, global, now, k);
  }

  lemma RetryOfDecision(l: Limits, sends: seq<SourceSend>, times: seq<Time>, global: seq<Time>, recipient: string, now: Time,
                        later: Time, k: nat)
    requires Sound(l) && Roomy(l) && InOrder(l, sends, times, global, now) && later == now + k * SECOND
    requires Decide(l, sends, times, global, recipient, now).Reject?
    ensures var retry := Decide(l, sends, times, global, recipient, now).retryAfter;
      Decide(l, sends, times, global, recipient, later).Accept? <==> k >= retry && CostsFit(l, sends, recipient, later)
    ensures var retry := Decide(l, sends, times, global, recipient, now).retryAfter;
      k >= retry && CostsTheSame(l, sends, recipient, now, later) ==> CostsFit(l, sends, recipient, later)
  {
    MetWhenAllAre(l, sends, times, global, recipient, now, k);
    AcceptsWhenAllFit(l, sends, times, global, recipient, later);
    if AllFit(l, sends, times, global, recipient, later) {
      MetOnceAllFit(l, sends, times, global, recipient, now, k);
    } else if AllMet(l, sends, times, global, recipient, now, k) {
      CountsFitAfter(l, times, global, now, k);
      if CostsTheSame(l, sends, recipient, now, later) {
        AllFitOnceMet(l, sends, times, global, recipient, now, k);
      }
    }
  }

  /**
   The retry time of a rejected check, with no further sends: a later check is
   accepted exactly from that time on, provided the costs the recipient has by
   then fit; if they are the costs of the rejected check, they do.
   */
  lemma RetryIsExact(l: Limits, log: seq<Send>, source: string, recipient: string, now: Time, later: Time, k: nat)
    requires Sound(l) && Roomy(l) && IsLog(l, log) && (forall s <- log :: s.event.at <= now) && later == now + k * SECOND
    requires NaiveCheck(l, log, source, recipient, now).Reject?
    ensures var retry, sends := NaiveCheck(l, log, source, recipient, now).retryAfter, SourceLog(log, source);
      NaiveCheck(l, log, source, recipient, later).Accept? <==> k >= retry && CostsFit(l, sends, recipient, later)
    ensures var retry, sends := NaiveCheck(l, log, source, recipient, now).retryAfter, SourceLog(log, source);
      k >= retry && CostsTheSame(l, sends, recipient, now, later) ==> CostsFit(l, sends, recipient, later)
  {
    LogIsInOrder(l, log, source, recipient, now);
    RetryOfDecision(l, SourceLog(log, source), RecipientLog(log, recipient), GlobalLog(log), recipient, now, later, k);
  }

  // ---- A retry time that falls short ----

  /** A source budget of three in ten seconds, and no other limit in reach. */
  const SAMPLE_LIMITS := Limits(10 * SECOND, 3, 10 * SECOND, 100, 0, 0, 1, 0, 1, 0, 1, 0, 1)

  const FIRST := SourceSend(0, "a", 1, 1)
  const SECOND_SEND := SourceSend(SECOND, "b", 2, 2)

  lemma RecentOfTwo(now: Time)
    requires SECOND <= now
    ensures Recent([FIRST], SendAt, now, 10 * SECOND) == if now < 10 * SECOND then [FIRST] else []
    ensures now < 11 * SECOND ==>
      Recent([FIRST, SECOND_SEND], SendAt, now, 10 * SECOND)
        == (if now < 10 * SECOND then [FIRST] else []) + [SECOND_SEND]
  {
    assert [FIRST][..0] == [] && [FIRST, SECOND_SEND][..1] == [FIRST];
  }

  lemma SumOfTwo(daily: bool)
    ensures Sum([], daily) == 0 && Sum([FIRST], daily) == 1 && Sum([SECOND_SEND], daily) == 2
    ensures Sum([FIRST, SECOND_SEND], daily) == 3
  {
    assert [FIRST][..0] == [] && [SECOND_SEND][..0] == [] && [FIRST, SECOND_SEND][..1] == [FIRST];
  }

  /** A count budget over an empty window never refuses. */
  lemma NoWindow(times: seq<Time>, now: Time)
    ensures CountFits(times, now, 0, 1)
  {
    RecentNone(times, TimeAt, now, 0);
  }

  lemma OnlyCostsMatter(sends: seq<SourceSend>, times: seq<Time>, global: seq<Time>, recipient: string, now: Time)
    ensures Decide(SAMPLE_LIMITS, sends, times, global, recipient, now).Accept?
       <==> CostsFit(SAMPLE_LIMITS, sends, recipient, now)
  {
    NoWindow(times, now);
    NoWindow(global, now);
    AcceptsWhenAllFit(SAMPLE_LIMITS, sends, times, global, recipient, now);
  }

  lemma TwoSendsAreALog()
    ensures IsLog(SAMPLE_LIMITS, [Send("s", FIRST), Send("s", SECOND_SEND)])
    ensures SourceLog([Send("s", FIRST), Send("s", SECOND_SEND)], "s") == [FIRST, SECOND_SEND]
  {
    var l, first, second := SAMPLE_LIMITS, Send("s", FIRST), Send("s", SECOND_SEND);
    assert [first][..0] == [] && [first, second][..1] == [first];
    assert SourceLog([first], "s") == [FIRST];
    RecentOfTwo(SECOND);
    SumOfTwo(false);
    SumOfTwo(true);
    assert [FIRST][0] in [FIRST];
    OnlyCostsMatter([], [], [], "a", 0);
    OnlyCostsMatter([FIRST], RecipientLog([first], "b"), GlobalLog([first]), "b", SECOND);
    IsLogPush(l, [], first);
    assert [] + [first] == [first] && [first] + [second] == [first, second];
    IsLogPush(l, [first], second);
  }

  lemma RejectedAtTwo(times: seq<Time>, global: seq<Time>)
    ensures Decide(SAMPLE_LIMITS, [FIRST, SECOND_SEND], times, global, "a", 2 * SECOND) == Reject(8)
  {
    RecentOfTwo(2 * SECOND);
    SumOfTwo(false);
    SumOfTwo(true);
    assert SentTo([FIRST, SECOND_SEND], "a") by { assert FIRST in [FIRST, SECOND_SEND]; }
    NoWindow(times, 2 * SECOND);
    NoWindow(global, 2 * SECOND);
  }

  lemma RejectedAtTen(times: seq<Time>, global: seq<Time>)
    ensures Decide(SAMPLE_LIMITS, [FIRST, SECOND_SEND], times, global, "a", 10 * SECOND).Reject?
  {
    RecentOfTwo(10 * SECOND);
    SumOfTwo(false);
    OnlyCostsMatter([FIRST, SECOND_SEND], times, global, "a", 10 * SECOND);
  }

  /**
   Costs do change: the check of recipient "a" two seconds in is told to wait
   eight, but by then "a" has left the window, costs two, and is rejected again.
   */
  lemma RetryCanFallShort() returns (log: seq<Send>)
    ensures IsLog(SAMPLE_LIMITS, log) && Roomy(SAMPLE_LIMITS)
    ensures NaiveCheck(SAMPLE_LIMITS, log, "s", "a", 2 * SECOND) == Reject(8)
    ensures NaiveCheck(SAMPLE_LIMITS, log, "s", "a", 10 * SECOND).Reject?
  {
    log := [Send("s", FIRST), Send("s", SECOND_SEND)];
    TwoSendsAreALog();
    RejectedAtTwo(RecipientLog(log, "a"), GlobalLog(log));
    RejectedAtTen(RecipientLog(log, "a"), GlobalLog(log));
  }
}
