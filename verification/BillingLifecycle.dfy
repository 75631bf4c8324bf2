/**
 The subscription lifecycle: a state machine that moves only when it is polled.
 Times are milliseconds since the epoch.
 */
module BillingLifecycle {
  import opened Common

  const DAY: int := 24 * 60 * 60 * 1000
  const EXPIRING_WINDOW: int := 5 * DAY
  const GRACE_PERIOD: int := 7 * DAY
  const RESTRICTED_PERIOD: int := 7 * DAY

  datatype Status = Trialing | Active | PastDue | Restricted | Suspended | Canceled | Expired

  datatype AccessMode = Full | ReadOnly | BillingOnly

  datatype LifecycleState = ACTIVE | TRIAL | EXPIRING | GRACE_PERIOD_STATE | RESTRICTED | SUSPENDED

  datatype Subscription = Subscription(
    id: string, plan: string, features: seq<string>,
    status: Status, trialEndsAt: Option<int>, periodEnd: int,
    graceEndsAt: Option<int>, restrictedAt: Option<int>, suspendedAt: Option<int>,
    reason: Option<string>)

  datatype Overview = Overview(
    state: LifecycleState, mode: AccessMode,
    warningStartsAt: int, graceEndsAt: int, restrictedAt: Option<int>, suspendedAt: Option<int>,
    reason: Option<string>, renewalRequired: bool)

  datatype Transition = Transition(
    should: bool, status: Status,
    graceEndsAt: Option<int>, restrictedAt: Option<int>, suspendedAt: Option<int>, reason: Option<string>)

  function OrElse<T>(o: Option<T>, d: T): T {
    if o.Some? then o.value else d
  }

  function StatusName(s: Status): string {
    if s == Canceled then "canceled" else "expired"
  }

  function RenewalBoundary(s: Subscription): int {
    if s.status == Trialing && s.trialEndsAt.Some? then s.trialEndsAt.value else s.periodEnd
  }

  function BuildOverview(s: Subscription, now: int): Overview {
    var boundary := RenewalBoundary(s);
    var warning := boundary - EXPIRING_WINDOW;
    var grace := OrElse(s.graceEndsAt, boundary + GRACE_PERIOD);
    var suspendedAt :=
      if s.suspendedAt.Some? then s.suspendedAt
      else if s.restrictedAt.Some? then Some(s.restrictedAt.value + RESTRICTED_PERIOD) else None;
    if s.status == Canceled || s.status == Expired then
      Overview(SUSPENDED, BillingOnly, warning, grace, s.restrictedAt, suspendedAt,
               Some(OrElse(s.reason, StatusName(s.status))), true)
    else if s.status == Suspended || (suspendedAt.Some? && now >= suspendedAt.value) then
      Overview(SUSPENDED, BillingOnly, warning, grace, s.restrictedAt, Some(OrElse(suspendedAt, now)), s.reason, true)
    else if s.status == Restricted || (s.restrictedAt.Some? && now >= s.restrictedAt.value) then
      Overview(RESTRICTED, ReadOnly, warning, grace, Some(OrElse(s.restrictedAt, now)), suspendedAt, s.reason, true)
    else if s.status == PastDue || now > boundary then
      Overview(GRACE_PERIOD_STATE, Full, warning, grace, s.restrictedAt, suspendedAt, s.reason, true)
    else if s.status == Trialing then
      Overview(if now >= warning then EXPIRING else TRIAL, Full, warning, grace, s.restrictedAt, suspendedAt,
               s.reason, now >= warning)
    else if now >= warning then
      Overview(EXPIRING, Full, warning, grace, s.restrictedAt, suspendedAt, s.reason, true)
    else
      Overview(ACTIVE, Full, warning, grace, s.restrictedAt, suspendedAt, s.reason, false)
  }

  function GraceEnd(s: Subscription): int {
    OrElse(s.graceEndsAt, RenewalBoundary(s) + GRACE_PERIOD)
  }

  function SuspensionDue(s: Subscription, now: int): int {
    OrElse(s.suspendedAt, OrElse(s.restrictedAt, now) + RESTRICTED_PERIOD)
  }

  function ResolveTransition(s: Subscription, now: int): Transition {
    var boundary, grace, due := RenewalBoundary(s), GraceEnd(s), SuspensionDue(s, now);
    if now > boundary && now <= grace && s.status != PastDue then
      Transition(true, PastDue, Some(grace), None, None, None)
    else if now > grace && now < due
            && (s.status != Restricted || s.restrictedAt.None? || s.suspendedAt.None?) then
      Transition(true, Restricted, Some(grace), Some(OrElse(s.restrictedAt, now)), Some(due), Some("renewal_required"))
    else if now >= due && s.status != Suspended then
      Transition(true, Suspended, Some(grace), Some(OrElse(s.restrictedAt, now)), Some(due),
                 Some(OrElse(s.reason, "renewal_required")))
    else
      Transition(false, s.status, None, None, None, None)
  }

  /** The repository's UPDATE: COALESCE keeps the column where no value is given. */
  function ApplyLifecycleWindow(s: Subscription, t: Transition): Subscription {
    s.(status := t.status,
       graceEndsAt := if t.graceEndsAt.Some? then t.graceEndsAt else s.graceEndsAt,
       restrictedAt := if t.restrictedAt.Some? then t.restrictedAt else s.restrictedAt,
       suspendedAt := if t.suspendedAt.Some? then t.suspendedAt else s.suspendedAt,
       reason := if t.reason.Some? then t.reason else s.reason)
  }

  /** The stored subscription after one poll. */
  function Step(s: Subscription, now: int): Subscription {
    var t := ResolveTransition(s, now);
    if t.should then ApplyLifecycleWindow(s, t) else s
  }

  predicate Notifies(state: LifecycleState) {
    state in {EXPIRING, GRACE_PERIOD_STATE, RESTRICTED, SUSPENDED}
  }

  datatype Notice = Notice(subscription: Subscription, overview: Overview)

  /** The service over the tenants' current subscription rows, one row a tenant. */
  class BillingLifecycleService {
    var subscriptions: map<string, Subscription>
    var queued: seq<Notice>

    constructor (rows: map<string, Subscription>)
      ensures subscriptions == rows && queued == []
    {
      subscriptions := rows;
      queued := [];
    }

    method EnsureCurrentLifecycle(tenant: string, now: int)
      returns (subscription: Option<Subscription>, overview: Option<Overview>)
      modifies this
      ensures tenant !in old(subscriptions) ==>
                subscription == None && overview == None
                && subscriptions == old(subscriptions) && queued == old(queued)
      ensures tenant in old(subscriptions) ==>
                var next := Step(old(subscriptions)[tenant], now);
                && subscriptions == old(subscriptions)[tenant := next]
                && subscription == Some(next) && overview == Some(BuildOverview(next, now))
                && queued == old(queued)
                             + if Notifies(overview.value.state) then [Notice(next, overview.value)] else []
    {
      if tenant !in subscriptions {
        return None, None;
      }
      var current := subscriptions[tenant];
      var transition := ResolveTransition(current, now);
      var resolved := current;
      if transition.should {
        resolved := ApplyLifecycleWindow(current, transition);
        subscriptions := subscriptions[tenant := resolved];
      }
      var next := BuildOverview(resolved, now);
      if Notifies(next.state) {
        queued := queued + [Notice(resolved, next)];
      }
      return Some(resolved), Some(next);
    }
  }

  // ----- Poll runs -----

  predicate Fresh(s: Subscription) {
    (s.status == Trialing || s.status == Active)
    && s.graceEndsAt == None && s.restrictedAt == None && s.suspendedAt == None
  }

  predicate NonDecreasing(polls: seq<int>) {
    forall i, j :: 0 <= i < j < |polls| ==> polls[i] <= polls[j]
  }

  function Last(polls: seq<int>): int
    requires polls != []
  {
    polls[|polls| - 1]
  }

  function Polled(s: Subscription, polls: seq<int>): Subscription
    decreases |polls|
  {
    if polls == [] then s else Step(Polled(s, polls[..|polls| - 1]), Last(polls))
  }

  /** The first poll later than `d`. */
  function FirstAfter(polls: seq<int>, d: int): Option<int>
    decreases |polls|
  {
    if polls == [] then None
    else
      var earlier := FirstAfter(polls[..|polls| - 1], d);
      if earlier.Some? then earlier else if Last(polls) > d then Some(Last(polls)) else None
  }

  lemma {:induction false} FirstAfterIsFirst(polls: seq<int>, d: int)
    ensures FirstAfter(polls, d) == None <==> forall i :: 0 <= i < |polls| ==> polls[i] <= d
    ensures FirstAfter(polls, d).Some? ==>
              exists i :: 0 <= i < |polls| && polls[i] == FirstAfter(polls, d).value > d
                          && forall j :: 0 <= j < i ==> polls[j] <= d
    decreases |polls|
  {
    if polls != [] {
      var before := polls[..|polls| - 1];
      FirstAfterIsFirst(before, d);
      if FirstAfter(before, d).Some? {
        var i :| 0 <= i < |before| && before[i] == FirstAfter(before, d).value > d
                 && forall j :: 0 <= j < i ==> before[j] <= d;
        assert polls[i] == before[i] && forall j :: 0 <= j < i ==> polls[j] == before[j];
      } else {
        assert forall j :: 0 <= j < |before| ==> polls[j] == before[j];
      }
    }
  }

  /** What the stored row is after `polls`, with no reference to the steps between. */
  function ClosedForm(s: Subscription, polls: seq<int>): Subscription {
    var graceEnd := RenewalBoundary(s) + GRACE_PERIOD;
    var r := FirstAfter(polls, graceEnd);
    if polls == [] || Last(polls) <= RenewalBoundary(s) then s
    else if r.None? then s.(status := PastDue, graceEndsAt := Some(graceEnd))
    else
      s.(status := if Last(polls) < r.value + RESTRICTED_PERIOD then Restricted else Suspended,
         graceEndsAt := Some(graceEnd),
         restrictedAt := Some(r.value),
         suspendedAt := Some(r.value + RESTRICTED_PERIOD),
         reason := Some("renewal_required"))
  }

  lemma ClosedFormStep(s: Subscription, polls: seq<int>)
    requires Fresh(s) && polls != []
    requires |polls| > 1 ==> polls[|polls| - 2] <= Last(polls)
    requires FirstAfter(polls[..|polls| - 1], RenewalBoundary(s) + GRACE_PERIOD).Some? ==>
               |polls| > 1 && polls[|polls| - 2] > RenewalBoundary(s) + GRACE_PERIOD
    ensures ClosedForm(s, polls) == Step(ClosedForm(s, polls[..|polls| - 1]), Last(polls))
  {
    var before := polls[..|polls| - 1];
    assert before != [] ==> Last(before) == polls[|polls| - 2];
  }

  /** For a fresh subscription and any non-decreasing polls, trials included, the stored
      row is the closed form. */
  lemma {:induction false} PolledIsClosedForm(s: Subscription, polls: seq<int>)
    requires Fresh(s) && NonDecreasing(polls)
    ensures Polled(s, polls) == ClosedForm(s, polls)
    decreases |polls|
  {
    if polls != [] {
      var before := polls[..|polls| - 1];
      PolledIsClosedForm(s, before);
      if FirstAfter(before, RenewalBoundary(s) + GRACE_PERIOD).Some? {
        FirstAfterReached(before, RenewalBoundary(s) + GRACE_PERIOD);
      }
      ClosedFormStep(s, polls);
    }
  }

  /** In non-decreasing polls, the last one is late once any is. */
  lemma FirstAfterReached(polls: seq<int>, d: int)
    requires NonDecreasing(polls) && FirstAfter(polls, d).Some?
    ensures polls != [] && d < FirstAfter(polls, d).value <= Last(polls)
  {
    FirstAfterIsFirst(polls, d);
  }

  lemma AppendPoll(s: Subscription, polls: seq<int>, now: int)
    requires NonDecreasing(polls) && (polls != [] ==> Last(polls) <= now)
    ensures NonDecreasing(polls + [now]) && Last(polls + [now]) == now
    ensures Polled(s, polls + [now]) == Step(Polled(s, polls), now)
  {
    assert (polls + [now])[..|polls|] == polls;
    forall i | 0 <= i < |polls| ensures polls[i] <= now {
      assert polls[i] <= Last(polls);
    }
  }

  predicate Spaced(polls: seq<int>, delta: int) {
    forall i :: 0 <= i && i + 1 < |polls| ==> polls[i + 1] - polls[i] <= delta
  }

  lemma FirstAfterWithin(polls: seq<int>, d: int, delta: int)
    requires polls != [] && polls[0] <= d + delta && Spaced(polls, delta)
    ensures FirstAfter(polls, d).Some? ==> FirstAfter(polls, d).value <= d + delta
  {
    var r := FirstAfter(polls, d);
    FirstAfterIsFirst(polls, d);
    if r.Some? {
      var i :| 0 <= i < |polls| && polls[i] == r.value > d && forall j :: 0 <= j < i ==> polls[j] <= d;
      if i > 0 {
        assert polls[i - 1] <= d;
        assert polls[(i - 1) + 1] - polls[i - 1] <= delta;
      }
    }
  }

  /** Polls at most `delta` apart have suspended the subscription once one of them comes
      two periods and `delta` after the boundary. */
  lemma SuspendedInTime(s: Subscription, polls: seq<int>, delta: int)
    requires Fresh(s) && NonDecreasing(polls) && Spaced(polls, delta) && polls != []
    requires polls[0] <= RenewalBoundary(s) + GRACE_PERIOD + delta
    requires Last(polls) >= RenewalBoundary(s) + GRACE_PERIOD + RESTRICTED_PERIOD + delta && delta >= 0
    ensures Polled(s, polls).status == Suspended
  {
    PolledIsClosedForm(s, polls);
    FirstAfterWithin(polls, RenewalBoundary(s) + GRACE_PERIOD, delta);
  }

  /** The polls up to and with the first one after `d`. */
  lemma PrefixToFirstAfter(polls: seq<int>, d: int, delta: int) returns (k: nat)
    requires NonDecreasing(polls) && Spaced(polls, delta) && polls != [] && Last(polls) > d
    ensures k < |polls| && FirstAfter(polls, d) == Some(polls[k]) && polls[k] > d
    ensures var prefix := polls[..k + 1];
      NonDecreasing(prefix) && Spaced(prefix, delta) && Last(prefix) == polls[k] && prefix[0] == polls[0]
  {
    FirstAfterIsFirst(polls, d);
    k :| k < |polls| && polls[k] == FirstAfter(polls, d).value > d && forall j :: 0 <= j < k ==> polls[j] <= d;
  }

  /** So some poll no later than B + 14 days + 2 delta finds it suspended. */
  lemma SuspendedByDeadline(s: Subscription, polls: seq<int>, delta: int) returns (k: nat)
    requires Fresh(s) && NonDecreasing(polls) && Spaced(polls, delta) && polls != []
    requires polls[0] <= RenewalBoundary(s) + GRACE_PERIOD + delta
    requires Last(polls) >= RenewalBoundary(s) + GRACE_PERIOD + RESTRICTED_PERIOD + delta && delta >= 0
    ensures k < |polls|
    ensures polls[k] <= RenewalBoundary(s) + 14 * DAY + 2 * delta
    ensures Polled(s, polls[..k + 1]).status == Suspended
  {
    var deadline := RenewalBoundary(s) + GRACE_PERIOD + RESTRICTED_PERIOD + delta;
    k := PrefixToFirstAfter(polls, deadline - 1, delta);
    FirstAfterWithin(polls, deadline - 1, delta);
    SuspendedInTime(s, polls[..k + 1], delta);
  }

  // ----- The overview a caller gets -----

  /** The end of the trial, or of the paid period. */
  function Boundary(s: Subscription): int {
    match s.status
    case Trialing => (match s.trialEndsAt case Some(end) => end case None => s.periodEnd)
    case _ => s.periodEnd
  }

  /** The overview after `polls` of a fresh row: five days of warning before the boundary, a
      grace week after it, then a restricted week from the first later poll. Once the boundary
      has passed the warning counts back from the end of the paid period. */
  function ToldOverview(s: Subscription, polls: seq<int>): Overview
    requires polls != []
  {
    var b, now := Boundary(s), Last(polls);
    var late := FirstAfter(polls, b + 604_800_000);
    var suspended := match late case Some(r) => Some(r + 604_800_000) case None => None;
    var (state, mode) :=
      if late.Some? && now >= late.value + 604_800_000 then (SUSPENDED, BillingOnly)
      else if late.Some? then (RESTRICTED, ReadOnly)
      else if now > b then (GRACE_PERIOD_STATE, Full)
      else if now >= b - 432_000_000 then (EXPIRING, Full)
      else if s.status == Trialing then (TRIAL, Full)
      else (ACTIVE, Full);
    Overview(state, mode, if now > b then s.periodEnd - 432_000_000 else b - 432_000_000, b + 604_800_000,
             late, suspended, if late.Some? then Some("renewal_required") else s.reason, now >= b - 432_000_000)
  }

  lemma OverviewBefore(s: Subscription, polls: seq<int>)
    requires Fresh(s) && polls != [] && Last(polls) <= Boundary(s)
    requires FirstAfter(polls, Boundary(s) + 604_800_000).None?
    ensures BuildOverview(ClosedForm(s, polls), Last(polls)) == ToldOverview(s, polls)
  {
  }

  lemma OverviewInGrace(s: Subscription, polls: seq<int>)
    requires Fresh(s) && polls != [] && Last(polls) > Boundary(s)
    requires FirstAfter(polls, Boundary(s) + 604_800_000).None?
    ensures BuildOverview(ClosedForm(s, polls), Last(polls)) == ToldOverview(s, polls)
  {
  }

  lemma OverviewLate(s: Subscription, polls: seq<int>, r: int)
    requires Fresh(s) && polls != [] && Boundary(s) + 604_800_000 < r <= Last(polls)
    requires FirstAfter(polls, Boundary(s) + 604_800_000) == Some(r)
    ensures BuildOverview(ClosedForm(s, polls), Last(polls)) == ToldOverview(s, polls)
  {
  }

  /** After any polls of a fresh row the overview is told from the polls alone. */
  lemma OverviewAsTold(s: Subscription, polls: seq<int>)
    requires Fresh(s) && NonDecreasing(polls) && polls != []
    ensures BuildOverview(Polled(s, polls), Last(polls)) == ToldOverview(s, polls)
  {
    var late := FirstAfter(polls, Boundary(s) + 604_800_000);
    LateOrNot(s, polls);
    PolledIsClosedForm(s, polls);
    if late.Some? {
      OverviewLate(s, polls, late.value);
    } else if Last(polls) > Boundary(s) {
      OverviewInGrace(s, polls);
    } else {
      OverviewBefore(s, polls);
    }
  }

  lemma LateOrNot(s: Subscription, polls: seq<int>)
    requires NonDecreasing(polls) && polls != []
    ensures var late := FirstAfter(polls, Boundary(s) + 604_800_000);
            if late.Some? then Boundary(s) + 604_800_000 < late.value <= Last(polls)
            else Last(polls) <= Boundary(s) + 604_800_000
  {
    FirstAfterIsFirst(polls, Boundary(s) + 604_800_000);
    if FirstAfter(polls, Boundary(s) + 604_800_000).Some? {
      FirstAfterReached(polls, Boundary(s) + 604_800_000);
    }
  }

  /** So an untroubled state is shown exactly until five days before the boundary, and a poll
      queues a notice exactly from then on. */
  lemma NoticeFromWarningOn(s: Subscription, polls: seq<int>)
    requires Fresh(s) && NonDecreasing(polls) && polls != []
    ensures var o := BuildOverview(Polled(s, polls), Last(polls));
            && (o.state == TRIAL || o.state == ACTIVE <==> Last(polls) < Boundary(s) - 432_000_000)
            && (Notifies(o.state) <==> Last(polls) >= Boundary(s) - 432_000_000)
            && (o.state == TRIAL ==> s.status == Trialing) && (o.state == ACTIVE ==> s.status == Active)
  {
    OverviewAsTold(s, polls);
    LateOrNot(s, polls);
  }

  /** One poll of any row at all, the ended and hand-set ones included: the row it leaves, by
      the dates and status on it. */
  lemma StepByDates(s: Subscription, now: int)
    ensures var b, after := Boundary(s), Step(s, now);
            var grace := match s.graceEndsAt case Some(d) => d case None => b + 604_800_000;
            var from := match s.restrictedAt case Some(d) => d case None => now;
            var due := match s.suspendedAt case Some(d) => d case None => from + 604_800_000;
            var dated := s.(graceEndsAt := Some(grace), restrictedAt := Some(from), suspendedAt := Some(due));
            && (b < now <= grace && s.status != PastDue ==> after == s.(status := PastDue, graceEndsAt := Some(grace)))
            && (grace < now < due ==>
                  after == if s.status == Restricted && s.restrictedAt.Some? && s.suspendedAt.Some? then s
                           else dated.(status := Restricted, reason := Some("renewal_required")))
            && (due <= now && (now <= b || now > grace || s.status == PastDue) ==>
                  after == if s.status == Suspended then s
                           else dated.(status := Suspended,
                                       reason := if s.reason.Some? then s.reason else Some("renewal_required")))
            && (now <= grace && now < due && (now <= b || s.status == PastDue) ==> after == s)
  {
  }

  /** The overview of any row at all, by the dates and status on it. */
  lemma OverviewOfAnyRow(s: Subscription, now: int)
    ensures var o, b := BuildOverview(s, now), Boundary(s);
            var due := match s.suspendedAt
                       case Some(d) => Some(d)
                       case None => (match s.restrictedAt case Some(d) => Some(d + 604_800_000) case None => None);
            var ended := s.status in {Canceled, Expired};
            && (o.state == SUSPENDED <==> ended || s.status == Suspended || (due.Some? && due.value <= now))
            && (o.state == RESTRICTED <==>
                  && !(o.state == SUSPENDED)
                  && (s.status == Restricted || (s.restrictedAt.Some? && s.restrictedAt.value <= now)))
            && (o.state == GRACE_PERIOD_STATE <==>
                  o.state !in {SUSPENDED, RESTRICTED} && (s.status == PastDue || b < now))
            && (o.state == EXPIRING <==>
                  s.status in {Trialing, Active} && o.mode == Full && b - 432_000_000 <= now <= b)
            && (o.state == TRIAL ==> s.status == Trialing) && (o.state == ACTIVE ==> s.status == Active)
            && (o.mode == BillingOnly <==> o.state == SUSPENDED) && (o.mode == ReadOnly <==> o.state == RESTRICTED)
            && (o.renewalRequired <==> o.state !in {TRIAL, ACTIVE})
            && o.warningStartsAt == b - 432_000_000
            && o.graceEndsAt == (match s.graceEndsAt case Some(d) => d case None => b + 604_800_000)
            && o.restrictedAt == (if o.state == RESTRICTED && s.restrictedAt == None then Some(now) else s.restrictedAt)
            && o.suspendedAt == (if s.status == Suspended && due == None then Some(now) else due)
            && o.reason == (if s.reason == None && s.status == Canceled then Some("canceled")
                            else if s.reason == None && s.status == Expired then Some("expired") else s.reason)
  {
  }

  // ----- One step -----

  function Rank(s: Status): nat {
    match s
    case Trialing => 0
    case Active => 0
    case PastDue => 1
    case Restricted => 2
    case Suspended => 3
    case Canceled => 4
    case Expired => 4
  }

  /** The states a stored status may show to a caller. */
  predicate Shows(status: Status, state: LifecycleState) {
    match status
    case Trialing => state == TRIAL || state == EXPIRING
    case Active => state == ACTIVE || state == EXPIRING
    case PastDue => state == GRACE_PERIOD_STATE
    case Restricted => state == RESTRICTED
    case _ => state == SUSPENDED
  }

  /** A row as the closed form describes it. */
  predicate InClosedForm(s: Subscription, x: Subscription, now: int) {
    var boundary, graceEnd := RenewalBoundary(s), RenewalBoundary(s) + GRACE_PERIOD;
    || (x == s && now <= boundary)
    || (boundary < now <= graceEnd && x == s.(status := PastDue, graceEndsAt := Some(graceEnd)))
    || (x.restrictedAt.Some? && graceEnd < x.restrictedAt.value <= now
        && x.id == s.id && x.plan == s.plan && x.features == s.features
        && x.graceEndsAt == Some(graceEnd)
        && x.suspendedAt == Some(x.restrictedAt.value + RESTRICTED_PERIOD)
        && x.status == if now < x.suspendedAt.value then Restricted else Suspended)
  }

  lemma PolledInClosedForm(s: Subscription, polls: seq<int>)
    requires Fresh(s) && NonDecreasing(polls) && polls != []
    ensures InClosedForm(s, Polled(s, polls), Last(polls))
  {
    PolledIsClosedForm(s, polls);
    var d := RenewalBoundary(s) + GRACE_PERIOD;
    FirstAfterIsFirst(polls, d);
    if FirstAfter(polls, d).Some? {
      FirstAfterReached(polls, d);
    }
  }

  lemma StepInClosedForm(s: Subscription, x: Subscription, earlier: int, now: int)
    requires Fresh(s) && (x == s || InClosedForm(s, x, earlier)) && earlier <= now
    ensures var after := Step(x, now);
            && InClosedForm(s, after, now)
            && Step(after, now) == after
            && Rank(x.status) <= Rank(after.status)
            && Shows(after.status, BuildOverview(after, now).state)
            && (BuildOverview(after, now).mode == Full <==> now <= RenewalBoundary(s) + GRACE_PERIOD)
  {
  }

  /** In every state reached from a fresh subscription, one more poll is idempotent, lowers
      no rank, shows the status it stores, and gives full access exactly until the end of
      the grace period of the original boundary. */
  lemma {:induction false} StepInEveryReachableState(s: Subscription, polls: seq<int>, now: int)
    requires Fresh(s) && NonDecreasing(polls) && (polls != [] ==> Last(polls) <= now)
    ensures var before := Polled(s, polls);
            var after := Step(before, now);
            && Step(after, now) == after
            && Rank(before.status) <= Rank(after.status)
            && Shows(after.status, BuildOverview(after, now).state)
            && (BuildOverview(after, now).mode == Full <==> now <= RenewalBoundary(s) + GRACE_PERIOD)
  {
    if polls != [] {
      PolledInClosedForm(s, polls);
    }
    StepInClosedForm(s, Polled(s, polls), if polls == [] then now else Last(polls), now);
  }

  /** Of any subscription at all, a step writes each date only where there is none. */
  lemma StepWritesDatesOnce(s: Subscription, now: int)
    ensures var after := Step(s, now);
            && (s.graceEndsAt.Some? ==> after.graceEndsAt == s.graceEndsAt)
            && (s.restrictedAt.Some? ==> after.restrictedAt == s.restrictedAt)
            && (s.suspendedAt.Some? ==> after.suspendedAt == s.suspendedAt)
            && after.(status := s.status, graceEndsAt := s.graceEndsAt, restrictedAt := s.restrictedAt,
                      suspendedAt := s.suspendedAt, reason := s.reason) == s
  {
  }

  /** Beyond the reachable states a step can lower the rank, exactly here: inside the grace
      window for any status above past_due; after it and before the suspension date for a
      suspended or ended one; and after that date for an ended one. */
  lemma StepLowersRankIff(s: Subscription, now: int)
    ensures Rank(Step(s, now).status) < Rank(s.status) <==>
              || (RenewalBoundary(s) < now <= GraceEnd(s) && s.status in {Restricted, Suspended, Canceled, Expired})
              || (GraceEnd(s) < now < SuspensionDue(s, now) && s.status in {Suspended, Canceled, Expired})
              || (SuspensionDue(s, now) <= now && s.status in {Canceled, Expired})
  {
  }

  /** A canceled or expired subscription with no lifecycle dates stays billing-only exactly
      while it is polled no later than the end of its paid period; a poll in the week after
      that gives it full access again, and a later one read-only access. */
  lemma EndedSubscriptionRevives(s: Subscription, now: int)
    requires s.status == Canceled || s.status == Expired
    requires s.graceEndsAt == None && s.restrictedAt == None && s.suspendedAt == None
    ensures var mode := BuildOverview(Step(s, now), now).mode;
            && (mode == BillingOnly <==> now <= s.periodEnd)
            && (mode == Full <==> s.periodEnd < now <= s.periodEnd + GRACE_PERIOD)
            && (mode == ReadOnly <==> s.periodEnd + GRACE_PERIOD < now)
  {
  }
}
