/**
 The access record of a tenant: resolved from the subscription lifecycle, cached in
 Redis, and turned into permitted requests by the billing guard.
 */
module BillingAccess {
  import opened Common
  import opened BillingLifecycle

  datatype Access = Access(
    subscriptionId: Option<string>, plan: Option<string>, status: Option<Status>,
    overview: Option<Overview>, features: seq<string>, periodEnd: Option<int>, isActive: bool)

  datatype CacheEntry = CacheEntry(access: Access, writtenAt: int)

  datatype Metrics = Metrics(hits: nat, misses: nat, writes: nat, invalidations: nat, errors: nat)

  /** The tenant and access record the current request carries already. */
  datatype RequestStore = RequestStore(tenant: string, billing: Option<Access>)

  const ABSENT := Access(None, None, None, None, [], None, false)

  function BuildAccessState(subscription: Option<Subscription>, overview: Option<Overview>): Access {
    if subscription.None? || overview.None? then ABSENT
    else
      var s := subscription.value;
      Access(Some(s.id), Some(s.plan), Some(s.status), overview, s.features, Some(s.periodEnd),
             overview.value.mode != BillingOnly)
  }

  predicate ShouldBypassCache(a: Access) {
    a.overview.Some? && a.overview.value.state != ACTIVE && a.overview.value.state != TRIAL
  }

  predicate HasFeature(access: Option<Access>, feature: string) {
    access.Some? && access.value.isActive
    && ("*" in access.value.features || feature in access.value.features)
  }

  /** What Redis answers at `now`: EX drops the entry `ttl` seconds after the SET. */
  function Lookup(cache: map<string, CacheEntry>, ttl: nat, tenant: string, now: int): Option<Access> {
    if tenant in cache && now < cache[tenant].writtenAt + ttl * 1000 then Some(cache[tenant].access) else None
  }

  /** The record an uncached resolution at `now` gives. */
  function Uncached(rows: map<string, Subscription>, tenant: string, now: int): Access {
    if tenant !in rows then ABSENT
    else
      var next := Step(rows[tenant], now);
      BuildAccessState(Some(next), Some(BuildOverview(next, now)))
  }

  function Advanced(rows: map<string, Subscription>, tenant: string, now: int): map<string, Subscription> {
    if tenant in rows then rows[tenant := Step(rows[tenant], now)] else rows
  }

  predicate Memoized(store: Option<RequestStore>, tenant: string) {
    store.Some? && store.value.billing.Some? && store.value.tenant == tenant
  }

  /** The request's own record is used exactly when it carries one of that tenant. */
  lemma MemoizedIff(store: Option<RequestStore>, tenant: string)
    ensures Memoized(store, tenant) <==> exists a :: store == Some(RequestStore(tenant, Some(a)))
  {
    if Memoized(store, tenant) {
      assert store == Some(RequestStore(tenant, Some(store.value.billing.value)));
    }
  }

  class BillingAccessService {
    const lifecycle: BillingLifecycleService
    const hasRedis: bool
    const ttl: nat
    var cache: map<string, CacheEntry>
    var metrics: Metrics

    constructor (lifecycle: BillingLifecycleService, hasRedis: bool, ttl: nat)
      ensures this.lifecycle == lifecycle && this.hasRedis == hasRedis && this.ttl == ttl
      ensures cache == map[] && metrics == Metrics(0, 0, 0, 0, 0)
    {
      this.lifecycle := lifecycle;
      this.hasRedis := hasRedis;
      this.ttl := ttl;
      cache := map[];
      metrics := Metrics(0, 0, 0, 0, 0);
    }

    predicate CacheEnabled() {
      hasRedis && ttl > 0
    }

    /** The cached record a call would be served, given whether the GET succeeds. */
    function Served(tenant: string, now: int, readOk: bool): Option<Access>
      reads this
    {
      var cached := if CacheEnabled() && readOk then Lookup(cache, ttl, tenant, now) else None;
      if cached.Some? && !ShouldBypassCache(cached.value) then cached else None
    }

    /** A record is served exactly while Redis answers with one it still has, written in the
        last `ttl` seconds by a service with a cache, that shows neither warning nor grace. */
    lemma ServedIff(tenant: string, now: int, readOk: bool, a: Access)
      ensures Served(tenant, now, readOk) == Some(a) <==>
                && hasRedis && ttl != 0 && readOk
                && tenant in cache && cache[tenant].access == a && now - cache[tenant].writtenAt < 1000 * ttl
                && (a.overview == None || a.overview.value.state in {ACTIVE, TRIAL})
      ensures CacheEnabled() <==> hasRedis && ttl != 0
    {
    }

    function Snapshot(): World
      reads this, lifecycle
    {
      World(lifecycle.subscriptions, cache)
    }

    method ReadFromCache(tenant: string, now: int, readOk: bool) returns (access: Option<Access>)
      modifies this
      ensures cache == old(cache)
      ensures access == if CacheEnabled() && readOk then Lookup(cache, ttl, tenant, now) else None
      ensures metrics == if CacheEnabled() && !readOk then old(metrics).(errors := old(metrics).errors + 1)
                         else old(metrics)
    {
      if !CacheEnabled() {
        return None;
      }
      if !readOk {
        metrics := metrics.(errors := metrics.errors + 1);
        return None;
      }
      return Lookup(cache, ttl, tenant, now);
    }

    method WriteToCache(tenant: string, access: Access, now: int, writeOk: bool)
      modifies this
      ensures var skip := !CacheEnabled() || ShouldBypassCache(access);
              && cache == (if skip || !writeOk then old(cache)
                           else old(cache)[tenant := CacheEntry(access, now)])
              && metrics == (if skip then old(metrics)
                             else if writeOk then old(metrics).(writes := old(metrics).writes + 1)
                             else old(metrics).(errors := old(metrics).errors + 1))
    {
      if !CacheEnabled() || ShouldBypassCache(access) {
        return;
      }
      if writeOk {
        cache := cache[tenant := CacheEntry(access, now)];
        metrics := metrics.(writes := metrics.writes + 1);
      } else {
        metrics := metrics.(errors := metrics.errors + 1);
      }
    }

    /** `readOk` and `writeOk` say whether the two Redis commands succeed. */
    method ResolveForTenant(store: Option<RequestStore>, tenant: string, now: int, readOk: bool, writeOk: bool)
      returns (access: Access)
      requires lifecycle as object != this
      modifies this, lifecycle
      ensures Memoized(store, tenant) ==>
                access == store.value.billing.value && unchanged(this) && unchanged(lifecycle)
      ensures !Memoized(store, tenant) && old(Served(tenant, now, readOk)).Some? ==>
                && access == old(Served(tenant, now, readOk)).value && unchanged(lifecycle)
                && cache == old(cache) && metrics == old(metrics).(hits := old(metrics).hits + 1)
      ensures !Memoized(store, tenant) && old(Served(tenant, now, readOk)).None? ==>
                && access == Uncached(old(lifecycle.subscriptions), tenant, now)
                && lifecycle.subscriptions == Advanced(old(lifecycle.subscriptions), tenant, now)
                && cache == (if CacheEnabled() && !ShouldBypassCache(access) && writeOk
                             then old(cache)[tenant := CacheEntry(access, now)] else old(cache))
                && metrics == old(metrics).(
                     misses := old(metrics).misses + 1,
                     writes := old(metrics).writes
                               + (if CacheEnabled() && !ShouldBypassCache(access) && writeOk then 1 else 0),
                     errors := old(metrics).errors + (if CacheEnabled() && !readOk then 1 else 0)
                               + (if CacheEnabled() && !ShouldBypassCache(access) && !writeOk then 1 else 0))
      ensures !Memoized(store, tenant) && CacheEnabled() ==>
                Snapshot() == Next(old(Snapshot()), ttl, Resolve(tenant, now, readOk, writeOk))
    {
      if store.Some? && store.value.billing.Some? && store.value.tenant == tenant {
        return store.value.billing.value;
      }
      var cached := ReadFromCache(tenant, now, readOk);
      if cached.Some? && !ShouldBypassCache(cached.value) {
        metrics := metrics.(hits := metrics.hits + 1);
        return cached.value;
      }
      metrics := metrics.(misses := metrics.misses + 1);
      var subscription, overview := lifecycle.EnsureCurrentLifecycle(tenant, now);
      access := BuildAccessState(subscription, overview);
      WriteToCache(tenant, access, now, writeOk);
    }

    method InvalidateTenant(tenant: string, now: int, ok: bool)
      requires lifecycle as object != this
      modifies this
      ensures CacheEnabled() && ok ==> Snapshot() == Next(old(Snapshot()), ttl, Invalidate(tenant, now))
      ensures cache == if CacheEnabled() && ok then old(cache) - {tenant} else old(cache)
      ensures metrics == if !CacheEnabled() then old(metrics)
                         else if ok then old(metrics).(invalidations := old(metrics).invalidations + 1)
                         else old(metrics).(errors := old(metrics).errors + 1)
    {
      if !CacheEnabled() {
        return;
      }
      if ok {
        cache := cache - {tenant};
        metrics := metrics.(invalidations := metrics.invalidations + 1);
      } else {
        metrics := metrics.(errors := metrics.errors + 1);
      }
    }
  }

  // ----- The guard -----

  const BILLING_PREFIXES := ["/billing", "/health", "/auth", "/observability", "/platform", "/support"]
  const EXPORT_PREFIXES := ["/compliance/me/export"]
  const SYSTEM_PATHS := ["/", "/dashboard", "/app", "/ops"]
  const READ_ONLY_METHODS := ["GET", "HEAD", "OPTIONS"]

  datatype Decision = Permit | RefuseSuspended | RefuseReadOnly

  predicate IsAlwaysAllowedPath(path: string) {
    path in SYSTEM_PATHS
    || (exists p :: p in BILLING_PREFIXES && p <= path)
    || (exists p :: p in EXPORT_PREFIXES && p <= path)
  }

  /** `method` is in upper case already. */
  function CanActivate(tenant: Option<string>, path: string, verb: string, access: Option<Access>): Decision {
    if tenant.None? || tenant.value == "" || IsAlwaysAllowedPath(path) then Permit
    else if access.None? || access.value.subscriptionId.None? || access.value.subscriptionId.value == ""
            || Mode(access.value) == Some(BillingOnly) then RefuseSuspended
    else if Mode(access.value) == Some(ReadOnly) && verb !in READ_ONLY_METHODS then RefuseReadOnly
    else Permit
  }

  function Mode(a: Access): Option<AccessMode> {
    if a.overview.Some? then Some(a.overview.value.mode) else None
  }

  // ----- Runs of the cached service -----

  /** The rows and the cache, as values. */
  datatype World = World(rows: map<string, Subscription>, cache: map<string, CacheEntry>)

  datatype Event =
    | Resolve(tenant: string, at: int, readOk: bool, writeOk: bool)
    | Poll(tenant: string, at: int)
    | Invalidate(tenant: string, at: int)

  function ServedFrom(w: World, ttl: nat, tenant: string, now: int): Option<Access> {
    var cached := Lookup(w.cache, ttl, tenant, now);
    if cached.Some? && !ShouldBypassCache(cached.value) then cached else None
  }

  /** One event, with the cache enabled. */
  function Next(w: World, ttl: nat, e: Event): World {
    match e
    case Resolve(tenant, at, readOk, writeOk) =>
      if readOk && ServedFrom(w, ttl, tenant, at).Some? then w
      else
        var access := Uncached(w.rows, tenant, at);
        World(Advanced(w.rows, tenant, at),
              if !ShouldBypassCache(access) && writeOk then w.cache[tenant := CacheEntry(access, at)] else w.cache)
    case Poll(tenant, at) => World(Advanced(w.rows, tenant, at), w.cache)
    case Invalidate(tenant, _) => World(w.rows, w.cache - {tenant})
  }

  function Run(w: World, ttl: nat, es: seq<Event>): World
    decreases |es|
  {
    if es == [] then w else Next(Run(w, ttl, es[..|es| - 1]), ttl, es[|es| - 1])
  }

  predicate InOrder(es: seq<Event>) {
    forall i, j :: 0 <= i < j < |es| ==> es[i].at <= es[j].at
  }

  predicate EndsBy(es: seq<Event>, now: int) {
    forall i :: 0 <= i < |es| ==> es[i].at <= now
  }

  predicate AllFresh(rows: map<string, Subscription>) {
    forall t :: t in rows ==> Fresh(rows[t])
  }

  /** Two records that grant the same things. */
  predicate SameGrant(a: Access, b: Access) {
    a.subscriptionId == b.subscriptionId && a.plan == b.plan && a.features == b.features
    && a.isActive == b.isActive && Mode(a) == Mode(b)
  }

  /** A stored row that some polls up to `now` made of the fresh row `s`. */
  ghost predicate ReachedBy(s: Subscription, x: Subscription, now: int) {
    exists polls :: NonDecreasing(polls) && (polls != [] ==> Last(polls) <= now) && Polled(s, polls) == x
  }

  /** A cached record was resolved more than the warning window before the boundary. */
  predicate EntryInv(s: Subscription, e: CacheEntry) {
    var a := e.access;
    && a.subscriptionId == Some(s.id) && a.plan == Some(s.plan) && a.features == s.features && a.isActive
    && Mode(a) == Some(Full)
    && e.writtenAt < RenewalBoundary(s) - EXPIRING_WINDOW
  }

  predicate EntryFor(rows: map<string, Subscription>, tenant: string, e: CacheEntry) {
    if tenant in rows then EntryInv(rows[tenant], e) else e.access == ABSENT
  }

  ghost predicate RowsInv(rows: map<string, Subscription>, current: map<string, Subscription>, now: int) {
    current.Keys == rows.Keys && forall t :: t in rows ==> ReachedBy(rows[t], current[t], now)
  }

  predicate CacheInv(rows: map<string, Subscription>, cache: map<string, CacheEntry>) {
    forall t :: t in cache ==> EntryFor(rows, t, cache[t])
  }

  ghost predicate Inv(rows: map<string, Subscription>, w: World, now: int) {
    RowsInv(rows, w.rows, now) && CacheInv(rows, w.cache)
  }

  lemma ReachedByStep(s: Subscription, x: Subscription, earlier: int, now: int)
    requires ReachedBy(s, x, earlier) && earlier <= now
    ensures ReachedBy(s, x, now) && ReachedBy(s, Step(x, now), now)
  {
    var polls :| NonDecreasing(polls) && (polls != [] ==> Last(polls) <= earlier) && Polled(s, polls) == x;
    AppendPoll(s, polls, now);
    assert Polled(s, polls + [now]) == Step(x, now);
  }

  lemma ReachedInClosedForm(s: Subscription, x: Subscription, earlier: int)
    requires Fresh(s) && ReachedBy(s, x, earlier)
    ensures x == s || exists at :: at <= earlier && InClosedForm(s, x, at)
  {
    var polls :| NonDecreasing(polls) && (polls != [] ==> Last(polls) <= earlier) && Polled(s, polls) == x;
    if polls != [] {
      PolledInClosedForm(s, polls);
    }
  }

  lemma ClosedFormGrant(s: Subscription, x: Subscription, now: int)
    requires Fresh(s) && InClosedForm(s, x, now)
    ensures x.id == s.id && x.plan == s.plan && x.features == s.features
    ensures var o := BuildOverview(x, now);
            && (o.mode == Full <==> now <= RenewalBoundary(s) + GRACE_PERIOD)
            && (o.state == ACTIVE || o.state == TRIAL ==> now < RenewalBoundary(s) - EXPIRING_WINDOW)
  {
  }

  /** What an uncached resolution grants a subscription reached by polling. */
  lemma UncachedGrant(s: Subscription, x: Subscription, earlier: int, now: int)
    requires Fresh(s) && ReachedBy(s, x, earlier) && earlier <= now
    ensures var next := Step(x, now);
            var o := BuildOverview(next, now);
            && next.id == s.id && next.plan == s.plan && next.features == s.features
            && (o.mode == Full <==> now <= RenewalBoundary(s) + GRACE_PERIOD)
            && (o.state == ACTIVE || o.state == TRIAL ==> now < RenewalBoundary(s) - EXPIRING_WINDOW)
  {
    ReachedInClosedForm(s, x, earlier);
    var at :| at <= earlier && (x == s || InClosedForm(s, x, at));
    StepInClosedForm(s, x, at, now);
    ClosedFormGrant(s, Step(x, now), now);
  }

  lemma NewEntryInv(rows: map<string, Subscription>, current: map<string, Subscription>, tenant: string,
                    earlier: int, now: int)
    requires AllFresh(rows) && RowsInv(rows, current, earlier) && earlier <= now
    ensures var access := Uncached(current, tenant, now);
            !ShouldBypassCache(access) ==> EntryFor(rows, tenant, CacheEntry(access, now))
  {
    if tenant in rows {
      UncachedGrant(rows[tenant], current[tenant], earlier, now);
    }
  }

  lemma AdvancedKeepsRows(rows: map<string, Subscription>, current: map<string, Subscription>, tenant: string,
                          earlier: int, now: int)
    requires RowsInv(rows, current, earlier) && earlier <= now
    ensures RowsInv(rows, current, now) && RowsInv(rows, Advanced(current, tenant, now), now)
  {
    forall t | t in rows
      ensures ReachedBy(rows[t], current[t], now) && ReachedBy(rows[t], Advanced(current, tenant, now)[t], now)
    {
      ReachedByStep(rows[t], current[t], earlier, now);
    }
  }

  predicate NewEntry(w: World, e: Event, entry: CacheEntry) {
    var access := Uncached(w.rows, e.tenant, e.at);
    entry == CacheEntry(access, e.at) && !ShouldBypassCache(access)
  }

  lemma NextMoves(w: World, ttl: nat, e: Event)
    ensures var next := Next(w, ttl, e);
            && (next.rows == w.rows || next.rows == Advanced(w.rows, e.tenant, e.at))
            && forall t :: t in next.cache ==>
                 (t in w.cache && next.cache[t] == w.cache[t]) || (t == e.tenant && NewEntry(w, e, next.cache[t]))
  {
  }

  lemma NextKeepsInv(rows: map<string, Subscription>, w: World, ttl: nat, e: Event, earlier: int)
    requires AllFresh(rows) && Inv(rows, w, earlier) && earlier <= e.at
    ensures Inv(rows, Next(w, ttl, e), e.at)
  {
    NextMoves(w, ttl, e);
    AdvancedKeepsRows(rows, w.rows, e.tenant, earlier, e.at);
    NewEntryInv(rows, w.rows, e.tenant, earlier, e.at);
    var cache := Next(w, ttl, e).cache;
    forall t | t in cache ensures EntryFor(rows, t, cache[t]) {
      if t in w.cache && cache[t] == w.cache[t] {
        assert EntryFor(rows, t, w.cache[t]);
      }
    }
  }

  lemma {:induction false} RunKeepsInv(rows: map<string, Subscription>, ttl: nat, es: seq<Event>, start: int)
    requires AllFresh(rows) && InOrder(es) && (es != [] ==> start <= es[0].at)
    ensures Inv(rows, Run(World(rows, map[]), ttl, es), if es == [] then start else es[|es| - 1].at)
    decreases |es|
  {
    if es == [] {
      forall t | t in rows ensures ReachedBy(rows[t], rows[t], start) {
        assert Polled(rows[t], []) == rows[t];
      }
    } else {
      var before := es[..|es| - 1];
      RunKeepsInv(rows, ttl, before, start);
      NextKeepsInv(rows, Run(World(rows, map[]), ttl, before), ttl, es[|es| - 1],
                   if before == [] then start else before[|before| - 1].at);
    }
  }

  const AGREEMENT_BOUND: int := EXPIRING_WINDOW + GRACE_PERIOD

  /** With a TTL of at most twelve days, what a tenant is served from the cache grants just
      what an uncached resolution would at that moment. */
  lemma {:induction false} CachedGrantIsCurrent(
    rows: map<string, Subscription>, ttl: nat, es: seq<Event>, tenant: string, now: int)
    requires AllFresh(rows) && InOrder(es) && EndsBy(es, now) && ttl * 1000 <= AGREEMENT_BOUND
    requires ServedFrom(Run(World(rows, map[]), ttl, es), ttl, tenant, now).Some?
    ensures var w := Run(World(rows, map[]), ttl, es);
            SameGrant(ServedFrom(w, ttl, tenant, now).value, Uncached(w.rows, tenant, now))
  {
    var w := Run(World(rows, map[]), ttl, es);
    var start := if es == [] then now else es[0].at;
    RunKeepsInv(rows, ttl, es, start);
    if tenant in rows {
      UncachedGrant(rows[tenant], w.rows[tenant], if es == [] then start else es[|es| - 1].at, now);
    }
  }

  /** The bound is exact: any longer TTL serves some tenant full access after the grace
      period, when an uncached resolution gives read-only access. */
  lemma LongerTtlServesStaleGrant(ttl: nat)
    requires ttl * 1000 > AGREEMENT_BOUND
    ensures exists rows, es, tenant, now :: StaleServe(rows, ttl, es, tenant, now)
  {
    var end := 100 * DAY;
    var s := Subscription("s", "starter", [], Active, None, end, None, None, None, None);
    var rows, at, now := map["t" := s], end - EXPIRING_WINDOW - 1, end + GRACE_PERIOD + 1;
    var es := [Resolve("t", at, true, true)];
    var w := World(rows, map[]);
    assert es[..0] == [] && Run(w, ttl, []) == w;
    assert Run(w, ttl, es) == Next(w, ttl, es[0]);
    var access := Uncached(rows, "t", at);
    assert access.overview == Some(BuildOverview(s, at)) && access.overview.value.state == ACTIVE;
    assert Run(w, ttl, es).cache == map["t" := CacheEntry(access, at)];
    assert Step(s, now).status == Restricted;
    assert StaleServe(rows, ttl, es, "t", now);
  }

  predicate StaleServe(rows: map<string, Subscription>, ttl: nat, es: seq<Event>, tenant: string, now: int) {
    && AllFresh(rows) && InOrder(es) && EndsBy(es, now)
    && var w := Run(World(rows, map[]), ttl, es);
       var served := ServedFrom(w, ttl, tenant, now);
       && served.Some? && Mode(served.value) == Some(Full)
       && Mode(Uncached(w.rows, tenant, now)) == Some(ReadOnly)
  }

  /** So the guard and the feature gate decide the same from the cache as without it. */
  lemma {:induction false} CachedDecisionIsCurrent(
    rows: map<string, Subscription>, ttl: nat, es: seq<Event>, tenant: string, now: int,
    path: string, verb: string, feature: string)
    requires AllFresh(rows) && InOrder(es) && EndsBy(es, now) && ttl * 1000 <= AGREEMENT_BOUND
    requires ServedFrom(Run(World(rows, map[]), ttl, es), ttl, tenant, now).Some?
    ensures var w := Run(World(rows, map[]), ttl, es);
            var cached, current := ServedFrom(w, ttl, tenant, now).value, Uncached(w.rows, tenant, now);
            && CanActivate(Some(tenant), path, verb, Some(cached))
               == CanActivate(Some(tenant), path, verb, Some(current))
            && HasFeature(Some(cached), feature) == HasFeature(Some(current), feature)
  {
    CachedGrantIsCurrent(rows, ttl, es, tenant, now);
  }

  /** The access record a poll at the last of `polls` gives. */
  function AccessAfter(s: Subscription, polls: seq<int>): Access
    requires polls != []
  {
    var x := Polled(s, polls);
    BuildAccessState(Some(x), Some(BuildOverview(x, Last(polls))))
  }

  lemma {:induction false} RankGrows(s: Subscription, polls: seq<int>, more: seq<int>)
    requires Fresh(s) && NonDecreasing(polls + more)
    ensures Rank(Polled(s, polls).status) <= Rank(Polled(s, polls + more).status)
    decreases |more|
  {
    if more == [] {
      assert polls + more == polls;
    } else {
      var fewer := more[..|more| - 1];
      var all := polls + more;
      assert all[..|all| - 1] == polls + fewer;
      assert Last(all) == Last(more);
      RankGrows(s, polls, fewer);
      assert polls + fewer != [] ==> Last(polls + fewer) == all[|all| - 2];
      StepInEveryReachableState(s, polls + fewer, Last(all));
    }
  }

  /** The access mode is a function of the stored status in every reachable state. */
  lemma ModeFollowsStatus(s: Subscription, polls: seq<int>)
    requires Fresh(s) && NonDecreasing(polls) && polls != []
    ensures Mode(AccessAfter(s, polls)) == Some(match Polled(s, polls).status
                                                case Restricted => ReadOnly
                                                case Suspended => BillingOnly
                                                case _ => Full)
  {
    PolledInClosedForm(s, polls);
  }

  /** Along any polls without renewal the guard only ever permits less. */
  lemma PermittedRequestsShrink(s: Subscription, polls: seq<int>, more: seq<int>,
                                tenant: Option<string>, path: string, verb: string)
    requires Fresh(s) && NonDecreasing(polls + more) && polls != []
    requires CanActivate(tenant, path, verb, Some(AccessAfter(s, polls + more))) == Permit
    ensures CanActivate(tenant, path, verb, Some(AccessAfter(s, polls))) == Permit
  {
    RankGrows(s, polls, more);
    assert NonDecreasing(polls) by {
      forall i, j | 0 <= i < j < |polls| ensures polls[i] <= polls[j] {
        assert (polls + more)[i] <= (polls + more)[j];
      }
    }
    ModeFollowsStatus(s, polls);
    ModeFollowsStatus(s, polls + more);
    PolledIsClosedForm(s, polls);
    PolledIsClosedForm(s, polls + more);
  }

  /** The whole access record after any polls of a fresh row: the tenant is active exactly
      until it is suspended. */
  lemma AccessAsTold(s: Subscription, polls: seq<int>)
    requires Fresh(s) && NonDecreasing(polls) && polls != []
    ensures var a := AccessAfter(s, polls);
            && a.subscriptionId == Some(s.id) && a.plan == Some(s.plan) && a.features == s.features
            && a.periodEnd == Some(s.periodEnd) && a.overview == Some(ToldOverview(s, polls))
            && (a.isActive <==> ToldOverview(s, polls).state != SUSPENDED)
            && a.status == Some(Polled(s, polls).status)
  {
    OverviewAsTold(s, polls);
    PolledIsClosedForm(s, polls);
  }

  lemma GuardAsTold(a: Access, s: Subscription, polls: seq<int>, tenant: Option<string>, path: string, verb: string)
    requires polls != [] && a.overview == Some(ToldOverview(s, polls)) && a.subscriptionId == Some(s.id) && s.id != ""
    requires tenant.Some? && tenant.value != "" && !IsAlwaysAllowedPath(path)
    ensures var late := FirstAfter(polls, Boundary(s) + 604_800_000);
            CanActivate(tenant, path, verb, Some(a))
            == if late.None? then Permit
               else if Last(polls) >= late.value + 604_800_000 then RefuseSuspended
               else if verb == "GET" || verb == "HEAD" || verb == "OPTIONS" then Permit
               else RefuseReadOnly
  {
  }

  /** What the guard decides, in terms of the polls alone: everything up to the first poll
      after the grace week, reads only for a week from that poll, and then nothing. */
  lemma RequestsPermittedWhen(s: Subscription, polls: seq<int>, tenant: Option<string>, path: string, verb: string)
    requires Fresh(s) && s.id != "" && NonDecreasing(polls) && polls != []
    requires tenant.Some? && tenant.value != "" && !IsAlwaysAllowedPath(path)
    ensures var late := FirstAfter(polls, Boundary(s) + 604_800_000);
            CanActivate(tenant, path, verb, Some(AccessAfter(s, polls)))
            == if late.None? then Permit
               else if Last(polls) >= late.value + 604_800_000 then RefuseSuspended
               else if verb == "GET" || verb == "HEAD" || verb == "OPTIONS" then Permit
               else RefuseReadOnly
  {
    AccessAsTold(s, polls);
    GuardAsTold(AccessAfter(s, polls), s, polls, tenant, path, verb);
  }

  /** A feature is open exactly while the tenant is not suspended and the plan lists it, by
      name or by the star. */
  lemma FeatureAsTold(s: Subscription, polls: seq<int>, feature: string)
    requires Fresh(s) && NonDecreasing(polls) && polls != []
    ensures HasFeature(Some(AccessAfter(s, polls)), feature) <==>
              ToldOverview(s, polls).state != SUSPENDED
              && exists i :: 0 <= i < |s.features| && (s.features[i] == "*" || s.features[i] == feature)
  {
    AccessAsTold(s, polls);
  }

  lemma BypassFromWarningOn(s: Subscription, polls: seq<int>, at: int)
    requires Fresh(s) && NonDecreasing(polls + [at])
    ensures var next := Step(Polled(s, polls), at);
            ShouldBypassCache(BuildAccessState(Some(next), Some(BuildOverview(next, at)))) <==>
              at >= Boundary(s) - 432_000_000
  {
    assert (polls + [at])[..|polls|] == polls && Last(polls + [at]) == at;
    NoticeFromWarningOn(s, polls + [at]);
  }

  lemma ServedAfterResolve(w: World, ttl: nat, tenant: string, at: int, now: int, readOk: bool)
    requires tenant !in w.cache && at <= now
    ensures ServedFrom(Next(w, ttl, Resolve(tenant, at, readOk, true)), ttl, tenant, now).Some? <==>
              now < at + ttl * 1000 && !ShouldBypassCache(Uncached(w.rows, tenant, at))
  {
  }

  /** What a working cache keeps of one resolution: a record of no subscription, or one
      resolved more than five days before the boundary, and either for `ttl` seconds. */
  lemma ServedUntilTtl(s: Option<Subscription>, polls: seq<int>, w: World, ttl: nat, tenant: string,
                       at: int, now: int, readOk: bool)
    requires tenant !in w.cache && at <= now
    requires if s.Some? then Fresh(s.value) && NonDecreasing(polls + [at])
                             && tenant in w.rows && w.rows[tenant] == Polled(s.value, polls)
             else tenant !in w.rows
    ensures ServedFrom(Next(w, ttl, Resolve(tenant, at, readOk, true)), ttl, tenant, now).Some? <==>
              now < at + ttl * 1000 && (s.Some? ==> at < Boundary(s.value) - 432_000_000)
  {
    ServedAfterResolve(w, ttl, tenant, at, now, readOk);
    if s.Some? {
      BypassFromWarningOn(s.value, polls, at);
    }
  }

  predicate Begins(path: string, prefix: string) {
    |path| >= |prefix| && path[..|prefix|] == prefix
  }

  /** The paths the guard leaves open to every tenant. */
  lemma AlwaysAllowedIff(path: string)
    ensures IsAlwaysAllowedPath(path) <==>
              || path == "/" || path == "/dashboard" || path == "/app" || path == "/ops"
              || Begins(path, "/billing") || Begins(path, "/health") || Begins(path, "/auth")
              || Begins(path, "/observability") || Begins(path, "/platform") || Begins(path, "/support")
              || Begins(path, "/compliance/me/export")
  {
    assert forall p :: p in BILLING_PREFIXES <==>
             || p == "/billing" || p == "/health" || p == "/auth"
             || p == "/observability" || p == "/platform" || p == "/support";
    assert forall p :: p in EXPORT_PREFIXES <==> p == "/compliance/me/export";
    assert forall p :: p in SYSTEM_PATHS <==> p == "/" || p == "/dashboard" || p == "/app" || p == "/ops";
    forall prefix: string ensures Begins(path, prefix) <==> prefix <= path {
    }
    assert "/billing" in BILLING_PREFIXES && "/health" in BILLING_PREFIXES && "/auth" in BILLING_PREFIXES;
    assert "/observability" in BILLING_PREFIXES && "/platform" in BILLING_PREFIXES && "/support" in BILLING_PREFIXES;
    assert "/compliance/me/export" in EXPORT_PREFIXES;
  }

  /** Who else is let through; a tenant without a subscription is not, and has no feature. */
  lemma GuardWithoutSubscription(
    rows: map<string, Subscription>, id: string, now: int, tenant: Option<string>, path: string, verb: string,
    access: Option<Access>, feature: string)
    requires access.None? || (id !in rows && access == Some(Uncached(rows, id, now)))
    ensures CanActivate(tenant, path, verb, access)
         == if tenant.None? || tenant == Some("") || IsAlwaysAllowedPath(path) then Permit else RefuseSuspended
    ensures !HasFeature(access, feature)
  {
  }
}
