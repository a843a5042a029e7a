/**
 The seven budgets on sending authentication email, stated over a plain log of
 every accepted send: what a check decides, and how long it tells callers to wait.
 */
module EmailLimits {

  import opened Wrappers

  type Time = int // nanoseconds

  const SECOND: nat := 1_000_000_000
  const U32_MAX: nat := 0xFFFF_FFFF

  datatype Limits = Limits(
    sourceWindow: nat, sourceBudget: nat,
    sourceDailyWindow: nat, sourceDailyBudget: nat,
    recipientCooldown: nat,
    recipientHourWindow: nat, recipientHourLimit: nat,
    recipientDailyWindow: nat, recipientDailyLimit: nat,
    globalHourWindow: nat, globalHourLimit: nat,
    globalDailyWindow: nat, globalDailyLimit: nat)

  /** Count limits of at least one, and cost budgets below the top of the u32 range. */
  predicate Sound(l: Limits) {
    && l.recipientHourLimit >= 1 && l.recipientDailyLimit >= 1 && l.globalHourLimit >= 1 && l.globalDailyLimit >= 1
    && l.sourceBudget < U32_MAX && l.sourceDailyBudget < U32_MAX
  }

  type SoundLimits = l: Limits | Sound(l) witness Limits(0, 0, 0, 0, 0, 0, 1, 0, 1, 0, 1, 0, 1)

  datatype SourceSend = SourceSend(at: Time, recipient: string, windowCost: nat, dailyCost: nat)

  datatype Send = Send(source: string, event: SourceSend)

  datatype Decision = Accept(windowCost: nat, dailyCost: nat) | Reject(retryAfter: nat)

  function SendAt(e: SourceSend): Time { e.at }
  function TimeAt(t: Time): Time { t }

  /** `now.duration_since(at)`, zero when `at` is later. */
  function Elapsed(now: Time, at: Time): nat { if now >= at then now - at else 0 }

  /** The events still inside a window that ends at `now`. */
  function Recent<T>(es: seq<T>, at: T -> Time, now: Time, window: nat): (r: seq<T>)
    ensures |r| <= |es|
  {
    if es == [] then [] else
    var before, last := Recent(es[..|es| - 1], at, now, window), es[|es| - 1];
    if Elapsed(now, at(last)) < window then before + [last] else before
  }

  function Cost(e: SourceSend, daily: bool): nat { if daily then e.dailyCost else e.windowCost }

  function Sum(es: seq<SourceSend>, daily: bool): nat {
    if es == [] then 0 else Sum(es[..|es| - 1], daily) + Cost(es[|es| - 1], daily)
  }

  function SaturatingAdd(a: nat, b: nat): nat { if a + b > U32_MAX then U32_MAX else a + b }

  /** One for a recipient already sent to inside the window, or when nothing was sent; two for a new recipient. */
  predicate SentTo(recent: seq<SourceSend>, recipient: string) { exists e <- recent :: e.recipient == recipient }

  function RecipientCost(recent: seq<SourceSend>, recipient: string): nat {
    if recent == [] || SentTo(recent, recipient) then 1 else 2
  }

  /** Whole seconds until an event leaves the window, at least one. */
  function SecondsUntilExpiry(at: Time, now: Time, window: nat): nat {
    var left := if window >= Elapsed(now, at) then window - Elapsed(now, at) else 0;
    var seconds := (left + SECOND - 1) / SECOND;
    if seconds < 1 then 1 else seconds
  }

  /** The first event whose expiry, with all before it, releases `needed` cost. */
  function ReleaseIndex(recent: seq<SourceSend>, needed: nat, daily: bool, i: nat): (r: Option<nat>)
    requires i <= |recent|
    ensures r.Some? ==> i <= r.value < |recent|
    decreases |recent| - i
  {
    if i == |recent| then None
    else if Sum(recent[..i + 1], daily) >= needed then Some(i)
    else ReleaseIndex(recent, needed, daily, i + 1)
  }

  lemma {:induction false} ReleaseIndexFound(recent: seq<SourceSend>, needed: nat, daily: bool, i: nat)
    requires i <= |recent|
    ensures match ReleaseIndex(recent, needed, daily, i) {
      case Some(k) => i <= k < |recent| && Sum(recent[..k + 1], daily) >= needed && (k > i ==> Sum(recent[..k], daily) < needed)
      case None => i < |recent| ==> Sum(recent, daily) < needed
    }
    decreases |recent| - i
  {
    if i < |recent| {
      assert i + 1 == |recent| ==> recent[..i + 1] == recent;
      ReleaseIndexFound(recent, needed, daily, i + 1);
    }
  }

  function WeightedRetryAfter(es: seq<SourceSend>, now: Time, window: nat, budget: nat, incoming: nat, daily: bool): Option<nat> {
    var recent := Recent(es, SendAt, now, window);
    var total := SaturatingAdd(Sum(recent, daily), incoming);
    if total <= budget then None else
    match ReleaseIndex(recent, total - budget, daily, 0)
    case Some(i) => Some(SecondsUntilExpiry(recent[i].at, now, window))
    case None => Some(if window / SECOND < 1 then 1 else window / SECOND)
  }

  function CountRetryAfter(es: seq<Time>, now: Time, window: nat, limit: nat): Option<nat>
    requires limit >= 1
  {
    var recent := Recent(es, TimeAt, now, window);
    if |recent| < limit then None else Some(SecondsUntilExpiry(recent[|recent| - limit], now, window))
  }

  /** The largest of the refusals, if any. */
  function Later(a: Option<nat>, b: Option<nat>): Option<nat> {
    if a.None? then b else if b.None? || a.value >= b.value then a else b
  }

  function Decide(l: Limits, sends: seq<SourceSend>, times: seq<Time>, global: seq<Time>, recipient: string, now: Time): Decision
    requires Sound(l)
  {
    var windowCost := RecipientCost(Recent(sends, SendAt, now, l.sourceWindow), recipient);
    var dailyCost := RecipientCost(Recent(sends, SendAt, now, l.sourceDailyWindow), recipient);
    var retry :=
      Later(WeightedRetryAfter(sends, now, l.sourceWindow, l.sourceBudget, windowCost, false),
      Later(WeightedRetryAfter(sends, now, l.sourceDailyWindow, l.sourceDailyBudget, dailyCost, true),
      Later(CountRetryAfter(times, now, l.recipientCooldown, 1),
      Later(CountRetryAfter(times, now, l.recipientHourWindow, l.recipientHourLimit),
      Later(CountRetryAfter(times, now, l.recipientDailyWindow, l.recipientDailyLimit),
      Later(CountRetryAfter(global, now, l.globalHourWindow, l.globalHourLimit),
            CountRetryAfter(global, now, l.globalDailyWindow, l.globalDailyLimit)))))));
    if retry.Some? then Reject(retry.value) else Accept(windowCost, dailyCost)
  }

  // ---- The naive limiter: a scan of the full log ----

  function SourceLog(log: seq<Send>, source: string): seq<SourceSend> {
    if log == [] then [] else
    var before, last := SourceLog(log[..|log| - 1], source), log[|log| - 1];
    if last.source == source then before + [last.event] else before
  }

  function RecipientLog(log: seq<Send>, recipient: string): seq<Time> {
    if log == [] then [] else
    var before, last := RecipientLog(log[..|log| - 1], recipient), log[|log| - 1].event;
    if last.recipient == recipient then before + [last.at] else before
  }

  function GlobalLog(log: seq<Send>): seq<Time> {
    if log == [] then [] else GlobalLog(log[..|log| - 1]) + [log[|log| - 1].event.at]
  }

  function NaiveCheck(l: Limits, log: seq<Send>, source: string, recipient: string, now: Time): Decision
    requires Sound(l)
  {
    Decide(l, SourceLog(log, source), RecipientLog(log, recipient), GlobalLog(log), recipient, now)
  }

  /** The log after a check: an accepted send is appended, a rejected one leaves no trace. */
  function NaiveLog(log: seq<Send>, d: Decision, source: string, recipient: string, now: Time): seq<Send> {
    match d
    case Accept(windowCost, dailyCost) => log + [Send(source, SourceSend(now, recipient, windowCost, dailyCost))]
    case Reject(_) => log
  }

  // ---- Facts about windows ----

  lemma {:induction false} RecentConcat<T>(a: seq<T>, b: seq<T>, at: T -> Time, now: Time, window: nat)
    ensures Recent(a + b, at, now, window) == Recent(a, at, now, window) + Recent(b, at, now, window)
    decreases |b|
  {
    if b == [] {
      assert a + b == a;
    } else {
      assert (a + b)[..|a + b| - 1] == a + b[..|b| - 1];
      RecentConcat(a, b[..|b| - 1], at, now, window);
    }
  }

  lemma {:induction false} RecentNone<T>(es: seq<T>, at: T -> Time, now: Time, window: nat)
    requires forall i :: 0 <= i < |es| ==> Elapsed(now, at(es[i])) >= window
    ensures Recent(es, at, now, window) == []
  {
    if es != [] { RecentNone(es[..|es| - 1], at, now, window); }
  }

  lemma {:induction false} RecentAll<T>(es: seq<T>, at: T -> Time, now: Time, window: nat)
    requires forall i :: 0 <= i < |es| ==> Elapsed(now, at(es[i])) < window
    ensures Recent(es, at, now, window) == es
  {
    if es != [] { RecentAll(es[..|es| - 1], at, now, window); }
  }

  lemma {:induction false} SumConcat(a: seq<SourceSend>, b: seq<SourceSend>, daily: bool)
    ensures Sum(a + b, daily) == Sum(a, daily) + Sum(b, daily)
    decreases |b|
  {
    if b == [] {
      assert a + b == a;
    } else {
      assert (a + b)[..|a + b| - 1] == a + b[..|b| - 1];
      SumConcat(a, b[..|b| - 1], daily);
    }
  }

  lemma SumPush(es: seq<SourceSend>, e: SourceSend, daily: bool)
    ensures Sum(es + [e], daily) == Sum(es, daily) + Cost(e, daily)
  {
    assert (es + [e])[..|es|] == es;
  }

  /** An acceptance means that none of the seven budgets refused. */
  lemma AcceptedByAll(l: Limits, sends: seq<SourceSend>, times: seq<Time>, global: seq<Time>, recipient: string, now: Time)
    requires Sound(l) && Decide(l, sends, times, global, recipient, now).Accept?
    ensures var d := Decide(l, sends, times, global, recipient, now);
      && WeightedRetryAfter(sends, now, l.sourceWindow, l.sourceBudget, d.windowCost, false).None?
      && WeightedRetryAfter(sends, now, l.sourceDailyWindow, l.sourceDailyBudget, d.dailyCost, true).None?
      && CountRetryAfter(times, now, l.recipientCooldown, 1).None?
      && CountRetryAfter(times, now, l.recipientHourWindow, l.recipientHourLimit).None?
      && CountRetryAfter(times, now, l.recipientDailyWindow, l.recipientDailyLimit).None?
      && CountRetryAfter(global, now, l.globalHourWindow, l.globalHourLimit).None?
      && CountRetryAfter(global, now, l.globalDailyWindow, l.globalDailyLimit).None?
  {}

  predicate IsLargest(retry: nat, refusals: set<Option<nat>>) {
    Some(retry) in refusals && forall r <- refusals :: r.Some? ==> r.value <= retry
  }

  /** A rejection carries the longest of the refusing budgets' times. */
  lemma RejectionIsTheLongest(l: Limits, sends: seq<SourceSend>, times: seq<Time>, global: seq<Time>,
                              recipient: string, now: Time)
    requires Sound(l) && Decide(l, sends, times, global, recipient, now).Reject?
    ensures var windowCost := RecipientCost(Recent(sends, SendAt, now, l.sourceWindow), recipient);
      var dailyCost := RecipientCost(Recent(sends, SendAt, now, l.sourceDailyWindow), recipient);
      IsLargest(Decide(l, sends, times, global, recipient, now).retryAfter, {
        WeightedRetryAfter(sends, now, l.sourceWindow, l.sourceBudget, windowCost, false),
        WeightedRetryAfter(sends, now, l.sourceDailyWindow, l.sourceDailyBudget, dailyCost, true),
        CountRetryAfter(times, now, l.recipientCooldown, 1),
        CountRetryAfter(times, now, l.recipientHourWindow, l.recipientHourLimit),
        CountRetryAfter(times, now, l.recipientDailyWindow, l.recipientDailyLimit),
        CountRetryAfter(global, now, l.globalHourWindow, l.globalHourLimit),
        CountRetryAfter(global, now, l.globalDailyWindow, l.globalDailyLimit)})
  {
    LargestOfSeven(
      WeightedRetryAfter(sends, now, l.sourceWindow, l.sourceBudget,
                         RecipientCost(Recent(sends, SendAt, now, l.sourceWindow), recipient), false),
      WeightedRetryAfter(sends, now, l.sourceDailyWindow, l.sourceDailyBudget,
                         RecipientCost(Recent(sends, SendAt, now, l.sourceDailyWindow), recipient), true),
      CountRetryAfter(times, now, l.recipientCooldown, 1),
      CountRetryAfter(times, now, l.recipientHourWindow, l.recipientHourLimit),
      CountRetryAfter(times, now, l.recipientDailyWindow, l.recipientDailyLimit),
      CountRetryAfter(global, now, l.globalHourWindow, l.globalHourLimit),
      CountRetryAfter(global, now, l.globalDailyWindow, l.globalDailyLimit));
  }

  lemma LargestOfSeven(a: Option<nat>, b: Option<nat>, c: Option<nat>, d: Option<nat>, e: Option<nat>, f: Option<nat>,
                       g: Option<nat>)
    requires Later(a, Later(b, Later(c, Later(d, Later(e, Later(f, g)))))).Some?
    ensures IsLargest(Later(a, Later(b, Later(c, Later(d, Later(e, Later(f, g)))))).value, {a, b, c, d, e, f, g})
  {}
}
