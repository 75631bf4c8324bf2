/**
 Login, refresh and logout over the stored sessions, and the check that a session with
 a sensitive permission belongs to a user whose e-mail is verified. Token signatures,
 passwords and the multi-factor challenge are inputs; accounts, memberships and role
 permissions are whatever the repositories answer at the time of each call.
 */
module AuthService {
  import opened Common
  import opened SessionService

  const SUPERADMIN := "superadmin"
  const PORTAL := "portal"
  const SCHOOL := "school"
  const SUPERADMIN_ROLE_OWNER := "platform_owner"

  datatype Account = Account(id: string, active: bool, verifiedAt: Option<string>)
  datatype Membership = Membership(tenant: string, role: string, granted: seq<string>)

  /** The claims of a verified access or refresh token. */
  datatype Claims = Claims(
    user: string, tenant: Option<string>, role: string, audience: string, sid: string, token: string)

  /** The ids and instants drawn for one new token pair. */
  datatype Issue = Issue(sid: string, token: string, now: int, expiresAt: int)

  // ----- Permissions -----

  predicate EndsWith(s: string, suffix: string) {
    |s| >= |suffix| && s[|s| - |suffix|..] == suffix
  }

  predicate SensitivePermission(p: string) {
    || p == "*:*"
    || EndsWith(p, ":write")
    || EndsWith(p, ":manage")
    || EndsWith(p, ":create")
    || EndsWith(p, ":delete")
    || EndsWith(p, ":*")
  }

  predicate HasSensitivePermission(permissions: seq<string>) {
    exists i :: 0 <= i < |permissions| && SensitivePermission(permissions[i])
  }

  /** A null or empty date is falsy. */
  predicate IsVerified(verifiedAt: Option<string>) {
    verifiedAt.Some? && verifiedAt.value != ""
  }

  function FormatVerifiedAt(verifiedAt: Option<string>): (r: Option<string>)
    ensures IsVerified(r) <==> IsVerified(verifiedAt)
  {
    if IsVerified(verifiedAt) then verifiedAt else None
  }

  function ResolvePermissions(verifiedAt: Option<string>, granted: seq<string>): (r: seq<string>)
    ensures HasSensitivePermission(r) ==> IsVerified(verifiedAt)
    ensures !HasSensitivePermission(granted) || IsVerified(verifiedAt) <==> r == granted
    ensures r == granted || r == ["auth:read"]
  {
    if !HasSensitivePermission(granted) || IsVerified(verifiedAt) then granted
    else
      assert forall i :: 0 <= i < |["auth:read"]| ==> !SensitivePermission(["auth:read"][i]);
      ["auth:read"]
  }

  predicate EndsIn(p: string, suffix: string) {
    |p| >= |suffix| && forall i :: 0 <= i < |suffix| ==> p[|p| - |suffix| + i] == suffix[i]
  }

  /** The permissions that call for a verified e-mail: those to write, manage, create or delete
      something, or to do anything with it. */
  lemma SensitiveIff(permissions: seq<string>)
    ensures HasSensitivePermission(permissions) <==>
              exists i :: 0 <= i < |permissions| &&
                (|| EndsIn(permissions[i], ":write") || EndsIn(permissions[i], ":manage")
                 || EndsIn(permissions[i], ":create") || EndsIn(permissions[i], ":delete")
                 || EndsIn(permissions[i], ":*"))
  {
    forall p: string, suffix: string ensures EndsWith(p, suffix) <==> EndsIn(p, suffix) {
      if EndsIn(p, suffix) {
        assert p[|p| - |suffix|..] == suffix;
      }
    }
  }

  // ----- Login -----

  datatype LoginResult =
    | LoggedIn(session: Session)
    | InvalidCredentials | OwnerNotConfigured | NoMembership | ChallengeFailed

  /** `account` and `membership` are what the repositories found; `ownerEmail` says whether
      a system owner is configured and, if so, whether the e-mail given is the owner's. */
  datatype LoginRequest = LoginRequest(
    audience: Option<string>, ownerEmail: Option<bool>, account: Option<Account>, passwordMatches: bool,
    membership: Option<Membership>, challengePassed: bool, issue: Issue)

  function NewSession(account: Account, tenant: Option<string>, role: string, audience: string,
                      permissions: seq<string>, issue: Issue): Session {
    Session(issue.sid, account.id, tenant, role, audience, permissions, FormatVerifiedAt(account.verifiedAt),
            issue.token, issue.now, issue.now, issue.expiresAt)
  }

  function Login(q: LoginRequest): LoginResult {
    if q.audience == Some(SUPERADMIN) then
      if q.ownerEmail.None? then OwnerNotConfigured
      else if !q.ownerEmail.value || q.account.None? || !q.account.value.active || !q.passwordMatches then
        InvalidCredentials
      else if !q.challengePassed then ChallengeFailed
      else LoggedIn(NewSession(q.account.value, None, SUPERADMIN_ROLE_OWNER, SUPERADMIN,
                               ResolvePermissions(q.account.value.verifiedAt, ["*:*"]), q.issue))
    else if q.account.None? || !q.account.value.active || !q.passwordMatches then InvalidCredentials
    else if q.membership.None? then NoMembership
    else if !q.challengePassed then ChallengeFailed
    else
      var m := q.membership.value;
      var audience := if q.audience.Some? then q.audience.value else SCHOOL;
      LoggedIn(NewSession(q.account.value, Some(m.tenant), m.role, audience,
                          ResolvePermissions(q.account.value.verifiedAt, m.granted), q.issue))
  }

  /** The parent portal's one-time-code login: full permissions, verified as of now. */
  function PortalSession(user: string, m: Membership, verifiedNow: string, issue: Issue): Session {
    Session(issue.sid, user, Some(m.tenant), m.role, PORTAL, m.granted, Some(verifiedNow),
            issue.token, issue.now, issue.now, issue.expiresAt)
  }

  // ----- Refresh -----

  datatype RefreshResult =
    | Refreshed(session: Session)
    | NoTenant | OtherTenant | NotPlatform
    | SessionGone | Reuse | AccountInactive | NoAccess | Conflicted

  datatype RefreshRequest = RefreshRequest(
    claims: Claims, contextTenant: Option<string>, account: Option<Account>, membership: Option<Membership>,
    next: string, now: int, expiresAt: int)

  predicate IsPlatform(q: RefreshRequest) {
    q.claims.audience == SUPERADMIN
  }

  /** The stored session is the one the refresh token was issued for. */
  predicate Matches(s: Session, c: Claims) {
    && s.user == c.user && s.tenant == c.tenant && s.token == c.token
    && (c.audience == SUPERADMIN ==> s.audience == SUPERADMIN)
  }

  /** Everything `refresh` decides before it rotates; None when it goes on to rotate. */
  function Refusal(session: Option<Session>, q: RefreshRequest): Option<RefreshResult> {
    if IsPlatform(q) && q.claims.tenant.Some? then Some(NotPlatform)
    else if !IsPlatform(q) && q.contextTenant.None? then Some(NoTenant)
    else if !IsPlatform(q) && q.claims.tenant != q.contextTenant then Some(OtherTenant)
    else if session.None? then Some(SessionGone)
    else if !Matches(session.value, q.claims) then Some(Reuse)
    else if q.account.None? || !q.account.value.active then Some(AccountInactive)
    else if !IsPlatform(q) && q.membership.None? then Some(NoAccess)
    else None
  }

  function RotationOf(q: RefreshRequest): Rotation
    requires q.account.Some? && (IsPlatform(q) || q.membership.Some?)
  {
    var verifiedAt := q.account.value.verifiedAt;
    var (role, granted) := if IsPlatform(q) then (SUPERADMIN_ROLE_OWNER, ["*:*"])
                           else (q.membership.value.role, q.membership.value.granted);
    Rotation(q.claims.sid, q.claims.token, q.next, role, ResolvePermissions(verifiedAt, granted),
             FormatVerifiedAt(verifiedAt), q.expiresAt)
  }

  predicate EndsSession(refusal: RefreshResult) {
    refusal.Reuse? || refusal.AccountInactive? || refusal.NoAccess?
  }

  function Outcome(result: RotateResult): RefreshResult {
    match result
    case Rotated(session) => Refreshed(session)
    case SessionExpired => SessionGone
    case ReuseDetected => Reuse
    case Conflict => Conflicted
  }

  /** The answer, and the session key it leaves; `others` act on the key meanwhile. */
  function Refresh(session: Option<Session>, q: RefreshRequest, others: seq<Attempt>):
    (RefreshResult, Option<Session>)
  {
    var refusal := Refusal(session, q);
    if refusal.Some? then (refusal.value, if EndsSession(refusal.value) then None else session)
    else
      var (result, left) := RotationFrom(session, RotationOf(q), q.now, others);
      (Outcome(result), left)
  }

  // ----- When a call succeeds -----

  /** The permissions and verification date a session of the account is given. */
  predicate SessionRights(account: Account, granted: seq<string>, s: Session) {
    && s.verifiedAt == (if account.verifiedAt == Some("") then None else account.verifiedAt)
    && s.permissions == if HasSensitivePermission(granted) && s.verifiedAt == None then ["auth:read"] else granted
  }

  /** A login succeeds exactly for an active account with its password and its challenge
      passed: the system owner's for the superadmin audience, and one with a membership for
      any other. */
  lemma LoginIff(q: LoginRequest)
    ensures Login(q).LoggedIn? <==>
              && q.account.Some? && q.account.value.active && q.passwordMatches && q.challengePassed
              && if q.audience == Some("superadmin") then q.ownerEmail == Some(true) else q.membership.Some?
  {
  }

  /** The session a login stores. */
  lemma LoginSession(q: LoginRequest)
    requires Login(q).LoggedIn?
    ensures var s, a := Login(q).session, q.account.value;
            && s.sid == q.issue.sid && s.user == a.id && s.token == q.issue.token
            && s.createdAt == q.issue.now && s.updatedAt == q.issue.now && s.expiresAt == q.issue.expiresAt
            && if q.audience == Some("superadmin") then
                 && s.tenant == None && s.role == "platform_owner" && s.audience == "superadmin"
                 && SessionRights(a, ["*:*"], s)
               else
                 && s.tenant == Some(q.membership.value.tenant) && s.role == q.membership.value.role
                 && s.audience == (match q.audience case Some(x) => x case None => "school")
                 && SessionRights(a, q.membership.value.granted, s)
  {
  }

  /** The session a parent's one-time code stores: all the role's permissions, verified. */
  lemma ParentSession(user: string, m: Membership, verifiedNow: string, issue: Issue)
    ensures var s := PortalSession(user, m, verifiedNow, issue);
            && s.sid == issue.sid && s.user == user && s.tenant == Some(m.tenant) && s.role == m.role
            && s.audience == "portal" && s.permissions == m.granted && s.verifiedAt == Some(verifiedNow)
            && s.token == issue.token && s.createdAt == issue.now && s.updatedAt == issue.now
            && s.expiresAt == issue.expiresAt
  {
  }

  /** A refresh gets as far as the rotation exactly when the tenant of the token is the
      request's, or the platform's; the session is there and is the token's; the account is
      active; and, but for the platform, it still has a membership. */
  lemma RefreshAllowedIff(session: Option<Session>, q: RefreshRequest)
    ensures Refusal(session, q) == None <==>
              && (if q.claims.audience == "superadmin" then q.claims.tenant == None
                  else q.contextTenant.Some? && q.claims.tenant == q.contextTenant && q.membership.Some?)
              && session.Some? && session.value.user == q.claims.user && session.value.tenant == q.claims.tenant
              && session.value.token == q.claims.token
              && (q.claims.audience == "superadmin" ==> session.value.audience == "superadmin")
              && q.account.Some? && q.account.value.active
  {
  }

  /** What a refresh that succeeds stores: the same session with the account's role and rights
      of now and the new token. */
  lemma RefreshedSession(session: Option<Session>, q: RefreshRequest, others: seq<Attempt>)
    requires Refresh(session, q, others).0.Refreshed?
    ensures var (result, left) := Refresh(session, q, others);
            var s := result.session;
            && session.Some? && left == Some(s) && SameIdentity(session.value, s)
            && s.token == q.next && s.updatedAt == q.now && s.expiresAt == q.expiresAt && q.account.Some?
            && if q.claims.audience == "superadmin" then
                 s.role == "platform_owner" && SessionRights(q.account.value, ["*:*"], s)
               else
                 q.membership.Some? && s.role == q.membership.value.role
                 && SessionRights(q.account.value, q.membership.value.granted, s)
  {
    RotationRenews(session, RotationOf(q), q.now, others);
  }

  /** With nobody else at the session, a refresh that is allowed succeeds. */
  lemma AloneItRefreshes(session: Option<Session>, q: RefreshRequest)
    ensures var quiet := Attempt(Quiet, Quiet, Quiet);
            var result := Refresh(session, q, [quiet, quiet, quiet]).0;
            result.Refreshed? <==> Refusal(session, q) == None
  {
  }

  // ----- Runs -----

  datatype Event =
    | LoginEvent(q: LoginRequest)
    | PortalLoginEvent(user: string, m: Membership, verifiedNow: string, issue: Issue)
    | RefreshEvent(r: RefreshRequest, others: seq<Attempt>)
    | LogoutEvent(sid: string)
    | ExpireEvent(gone: string)

  function Stored(sessions: map<string, Session>, sid: string): Option<Session> {
    if sid in sessions then Some(sessions[sid]) else None
  }

  function Next(sessions: map<string, Session>, e: Event): map<string, Session> {
    match e
    case LoginEvent(q) =>
      var result := Login(q);
      if result.LoggedIn? then sessions[q.issue.sid := result.session] else sessions
    case PortalLoginEvent(user, m, verifiedNow, issue) =>
      sessions[issue.sid := PortalSession(user, m, verifiedNow, issue)]
    case RefreshEvent(r, others) => Put(sessions, r.claims.sid, Refresh(Stored(sessions, r.claims.sid), r, others).1)
    case LogoutEvent(sid) => sessions - {sid}
    case ExpireEvent(gone) => sessions - {gone}
  }

  /** A rotation as this service asks for it, of a session with this audience. */
  predicate RotationOk(r: Rotation, audience: string) {
    && (HasSensitivePermission(r.permissions) ==> IsVerified(r.verifiedAt))
    && (audience == SUPERADMIN ==> r.role == SUPERADMIN_ROLE_OWNER)
  }

  predicate MeanwhileOk(m: Meanwhile, audience: string) {
    m.Rewritten? ==> RotationOk(m.other, audience)
  }

  predicate AttemptOk(a: Attempt, audience: string) {
    MeanwhileOk(a.beforeWatch, audience) && MeanwhileOk(a.beforeGet, audience) && MeanwhileOk(a.beforeExec, audience)
  }

  /** What callers and other processes guarantee: an ISO date is not empty, a new session id
      is new, and the rotations other processes write are this service's too. */
  predicate Allowed(sessions: map<string, Session>, e: Event) {
    && (e.LoginEvent? ==> e.q.issue.sid !in sessions)
    && (e.PortalLoginEvent? ==> e.issue.sid !in sessions && e.verifiedNow != "")
    && (e.RefreshEvent? ==>
          |e.others| == ATTEMPTS
          && forall i, sid :: 0 <= i < |e.others| && sid == e.r.claims.sid && sid in sessions ==>
               AttemptOk(e.others[i], sessions[sid].audience))
  }

  predicate Run(sessions: map<string, Session>, events: seq<Event>)
    decreases |events|
  {
    events == [] || (Allowed(sessions, events[0]) && Run(Next(sessions, events[0]), events[1..]))
  }

  function Final(sessions: map<string, Session>, events: seq<Event>): map<string, Session>
    decreases |events|
  {
    if events == [] then sessions else Final(Next(sessions, events[0]), events[1..])
  }

  /** A stored session is of its own id; it holds a sensitive permission only for a verified
      user; the superadmin audience goes with no tenant and the owner role, and back. */
  predicate SessionOk(sid: string, s: Session) {
    && s.sid == sid
    && (HasSensitivePermission(s.permissions) ==> IsVerified(s.verifiedAt))
    && (s.audience == SUPERADMIN <==> s.tenant.None?)
    && (s.audience == SUPERADMIN ==> s.role == SUPERADMIN_ROLE_OWNER)
  }

  ghost predicate Inv(sessions: map<string, Session>) {
    forall sid :: sid in sessions ==> SessionOk(sid, sessions[sid])
  }

  /** The session is still in order, and the same user's, tenant's and audience's. */
  predicate KeepsScope(sid: string, s: Session, next: Option<Session>) {
    next.Some? ==>
      && SessionOk(sid, next.value)
      && next.value.user == s.user && next.value.tenant == s.tenant && next.value.audience == s.audience
  }

  lemma RotatedKeepsScope(sid: string, s: Session, session: Session, r: Rotation, at: int)
    requires KeepsScope(sid, s, Some(session)) && RotationOk(r, s.audience)
    ensures KeepsScope(sid, s, Some(RotatedSession(session, r, at)))
  {
  }

  lemma AfterKeepsScope(sid: string, s: Session, session: Option<Session>, m: Meanwhile)
    requires KeepsScope(sid, s, session) && MeanwhileOk(m, s.audience)
    ensures KeepsScope(sid, s, After(session, m))
  {
    if m.Rewritten? && session.Some? {
      RotatedKeepsScope(sid, s, session.value, m.other, m.at);
    }
  }

  lemma AttemptKeepsScope(sid: string, s: Session, session: Option<Session>, r: Rotation, now: int, a: Attempt)
    requires KeepsScope(sid, s, session) && RotationOk(r, s.audience) && AttemptOk(a, s.audience)
    ensures KeepsScope(sid, s, Attempted(session, r, now, a).1)
  {
    var watched := After(session, a.beforeWatch);
    AfterKeepsScope(sid, s, session, a.beforeWatch);
    AfterKeepsScope(sid, s, watched, a.beforeGet);
    var seen := Seen(session, a);
    AfterKeepsScope(sid, s, seen, a.beforeExec);
    if seen.Some? {
      RotatedKeepsScope(sid, s, seen.value, r, now);
    }
  }

  lemma {:induction false} RotationKeepsScope(
    sid: string, s: Session, session: Option<Session>, r: Rotation, now: int, others: seq<Attempt>)
    requires KeepsScope(sid, s, session) && RotationOk(r, s.audience)
    requires forall i :: 0 <= i < |others| ==> AttemptOk(others[i], s.audience)
    ensures KeepsScope(sid, s, RotationFrom(session, r, now, others).1)
    decreases |others|
  {
    if others != [] {
      AttemptKeepsScope(sid, s, session, r, now, others[0]);
      if Attempted(session, r, now, others[0]).0.None? {
        RotationKeepsScope(sid, s, Attempted(session, r, now, others[0]).1, r, now, others[1..]);
      }
    }
  }

  lemma RefreshKeepsOk(sid: string, s: Session, q: RefreshRequest, others: seq<Attempt>)
    requires SessionOk(sid, s) && q.claims.sid == sid
    requires forall i :: 0 <= i < |others| ==> AttemptOk(others[i], s.audience)
    ensures KeepsScope(sid, s, Refresh(Some(s), q, others).1)
  {
    if Refusal(Some(s), q).None? {
      assert Matches(s, q.claims);
      assert IsPlatform(q) <==> s.tenant.None?;
      RotationKeepsScope(sid, s, Some(s), RotationOf(q), q.now, others);
    }
  }

  lemma StepKeepsInv(sessions: map<string, Session>, e: Event)
    requires Inv(sessions) && Allowed(sessions, e)
    ensures Inv(Next(sessions, e))
  {
    var after := Next(sessions, e);
    forall sid | sid in after ensures SessionOk(sid, after[sid]) {
      if sid in sessions && e.RefreshEvent? && sid == e.r.claims.sid {
        RefreshKeepsOk(sid, sessions[sid], e.r, e.others);
      }
    }
  }

  lemma {:induction false} RunKeepsInv(sessions: map<string, Session>, events: seq<Event>)
    requires Inv(sessions) && Run(sessions, events)
    ensures forall sid :: sid in Final(sessions, events) ==> SessionOk(sid, Final(sessions, events)[sid])
    decreases |events|
  {
    if events != [] {
      StepKeepsInv(sessions, events[0]);
      RunKeepsInv(Next(sessions, events[0]), events[1..]);
    }
  }

  // ----- Reading a session -----

  datatype AccessResult = Accepted(session: Session) | WrongAudience | WrongTenant | Gone | OutOfSync | EmailUnverified

  function Authenticate(session: Option<Session>, c: Claims, tenant: Option<string>, audience: string): AccessResult {
    if c.audience != audience then WrongAudience
    else if c.tenant != tenant then WrongTenant
    else if session.None? then Gone
    else if session.value.user != c.user || session.value.tenant != c.tenant || session.value.role != c.role
         || session.value.audience != c.audience then OutOfSync
    else if HasSensitivePermission(session.value.permissions) && !IsVerified(session.value.verifiedAt) then
      EmailUnverified
    else Accepted(session.value)
  }

  /** After any run from the empty store, the sensitive-session check rejects nothing: an
      access token is accepted exactly when it agrees with the request and with a live
      session. */
  lemma SensitiveCheckNeverRejects(events: seq<Event>, c: Claims, tenant: Option<string>, audience: string)
    requires Run(map[], events)
    ensures var sessions := Final(map[], events);
      var result := Authenticate(Stored(sessions, c.sid), c, tenant, audience);
      && !result.EmailUnverified?
      && (result.Accepted? <==>
            && c.audience == audience && c.tenant == tenant && c.sid in sessions
            && var s := sessions[c.sid];
               s.user == c.user && s.tenant == tenant && s.role == c.role && s.audience == audience)
  {
    RunKeepsInv(map[], events);
    if c.sid in Final(map[], events) {
      assert SessionOk(c.sid, Final(map[], events)[c.sid]);
    }
  }

  /** Whatever happens in between, a session still stored under its id and not created
      anew belongs to the same user, tenant and audience as before. */
  lemma {:induction false} SessionKeepsItsScope(sessions: map<string, Session>, events: seq<Event>, sid: string)
    requires Inv(sessions) && Run(sessions, events) && sid in sessions
    requires forall e :: e in events ==>
               (e.LoginEvent? ==> e.q.issue.sid != sid) && (e.PortalLoginEvent? ==> e.issue.sid != sid)
    ensures var after := Final(sessions, events);
      sid in after ==> after[sid].user == sessions[sid].user && after[sid].tenant == sessions[sid].tenant
                       && after[sid].audience == sessions[sid].audience
    decreases |events|
  {
    if events != [] {
      var next := Next(sessions, events[0]);
      assert events[0] in events;
      StepKeepsInv(sessions, events[0]);
      if events[0].RefreshEvent? && events[0].r.claims.sid == sid {
        RefreshKeepsOk(sid, sessions[sid], events[0].r, events[0].others);
      }
      if sid in next {
        SessionKeepsItsScope(next, events[1..], sid);
      } else {
        StaysAway(next, events[1..], sid);
      }
    }
  }

  lemma {:induction false} StaysAway(sessions: map<string, Session>, events: seq<Event>, sid: string)
    requires sid !in sessions
    requires forall e :: e in events ==>
               (e.LoginEvent? ==> e.q.issue.sid != sid) && (e.PortalLoginEvent? ==> e.issue.sid != sid)
    ensures sid !in Final(sessions, events)
    decreases |events|
  {
    if events != [] {
      var next := Next(sessions, events[0]);
      assert events[0] in events;
      assert sid !in next;
      StaysAway(next, events[1..], sid);
    }
  }

  /** Of a session in order, a refresh that the tenant checks let through reports reuse before
      it rotates exactly when the token names another user, tenant or token id; whatever the
      audience it claims, that is already among these. Then the session is gone. */
  lemma {:induction false} StaleTokenEndsSession(sid: string, s: Session, q: RefreshRequest, others: seq<Attempt>)
    requires SessionOk(sid, s)
    requires if IsPlatform(q) then q.claims.tenant.None?
             else q.contextTenant.Some? && q.claims.tenant == q.contextTenant
    ensures var stale := s.user != q.claims.user || s.tenant != q.claims.tenant || s.token != q.claims.token;
      && (Refusal(Some(s), q) == Some(Reuse) <==> stale)
      && (stale ==> Refresh(Some(s), q, others) == (Reuse, None))
  {
    assert s.tenant == q.claims.tenant && IsPlatform(q) ==> s.audience == SUPERADMIN;
  }

  // ----- The service -----

  class AuthService {
    const store: SessionStore

    constructor (store: SessionStore)
      ensures this.store == store
    {
      this.store := store;
    }

    ghost predicate Valid()
      reads this, store
    {
      store.Valid() && Inv(store.sessions)
    }

    method LoginUser(q: LoginRequest) returns (result: LoginResult)
      requires Valid() && q.issue.sid !in store.owner
      modifies store
      ensures Valid() && result == Login(q)
      ensures store.sessions == Next(old(store.sessions), LoginEvent(q))
    {
      StepKeepsInv(store.sessions, LoginEvent(q));
      result := Login(q);
      if result.LoggedIn? {
        store.CreateSession(result.session);
      }
    }

    method LoginParent(user: string, m: Membership, verifiedNow: string, issue: Issue) returns (session: Session)
      requires Valid() && issue.sid !in store.owner && verifiedNow != ""
      modifies store
      ensures Valid() && session == PortalSession(user, m, verifiedNow, issue)
      ensures store.sessions == Next(old(store.sessions), PortalLoginEvent(user, m, verifiedNow, issue))
    {
      StepKeepsInv(store.sessions, PortalLoginEvent(user, m, verifiedNow, issue));
      session := PortalSession(user, m, verifiedNow, issue);
      store.CreateSession(session);
    }

    /** The checks of a refresh, in order; None when the rotation may go ahead. */
    method CheckRefresh(q: RefreshRequest) returns (refusal: Option<RefreshResult>)
      ensures refusal == Refusal(store.GetSession(q.claims.sid), q)
    {
      var platform := q.claims.audience == SUPERADMIN;
      if platform {
        if q.claims.tenant.Some? { return Some(NotPlatform); }
      } else {
        if q.contextTenant.None? { return Some(NoTenant); }
        if q.claims.tenant != q.contextTenant { return Some(OtherTenant); }
      }
      var session := store.GetSession(q.claims.sid);
      if session.None? { return Some(SessionGone); }
      var s := session.value;
      if s.user != q.claims.user || s.tenant != q.claims.tenant || s.token != q.claims.token
         || (platform && s.audience != SUPERADMIN) {
        return Some(Reuse);
      }
      if q.account.None? || !q.account.value.active { return Some(AccountInactive); }
      if !platform && q.membership.None? { return Some(NoAccess); }
      return None;
    }

    /** `others` is what other processes do to the session key while this one rotates it. */
    method RefreshTokens(q: RefreshRequest, others: seq<Attempt>) returns (result: RefreshResult)
      requires Valid() && Allowed(store.sessions, RefreshEvent(q, others))
      modifies store
      ensures Valid() && result == Refresh(old(store.GetSession(q.claims.sid)), q, others).0
      ensures store.sessions == Next(old(store.sessions), RefreshEvent(q, others))
    {
      StepKeepsInv(store.sessions, RefreshEvent(q, others));
      var refusal := CheckRefresh(q);
      if refusal.Some? {
        if EndsSession(refusal.value) {
          store.InvalidateSession(q.claims.sid);
        }
        return refusal.value;
      }
      var rotated := store.RotateRefreshToken(RotationOf(q), q.now, others);
      result := Outcome(rotated);
    }

    method Logout(sid: string)
      requires Valid()
      modifies store
      ensures Valid() && store.sessions == Next(old(store.sessions), LogoutEvent(sid))
    {
      StepKeepsInv(store.sessions, LogoutEvent(sid));
      store.InvalidateSession(sid);
    }

    /** The check deletes a sensitive session that is not verified; `Valid` leaves none. */
    method AuthenticateAccessToken(c: Claims, tenant: Option<string>, audience: string) returns (result: AccessResult)
      requires Valid()
      modifies store
      ensures Valid() && store.sessions == old(store.sessions)
      ensures result == Authenticate(old(store.GetSession(c.sid)), c, tenant, audience) && !result.EmailUnverified?
    {
      var session := store.GetSession(c.sid);
      result := Authenticate(session, c, tenant, audience);
      if session.Some? {
        assert SessionOk(c.sid, session.value);
      }
    }
  }
}
