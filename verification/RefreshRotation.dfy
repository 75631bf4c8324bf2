/**
 Refresh-token rotation as a protocol: any number of rotations, logins and
 invalidations of `SessionService` interleave, one Redis command at a time, over
 one store. WATCH remembers the version of a session key; EXEC applies its SET
 only when that version has not moved.

 Every key write and every delete of an existing key moves the version; a delete
 of an absent key does not. Expiry is a delete that WATCH sees.
 */
module RefreshRotation {
  import opened Common

  type SessionId = string
  type TokenId = string
  type UserId = string
  type CallId = nat

  datatype Session = Session(user: UserId, token: TokenId)

  /** The input of one `rotateRefreshToken` call and how far its retry loop is.
      `heldAtStart` and `superseded` record, for the theorems only, what was true of
      the presented token when the call began. */
  datatype Rotation = Rotation(sid: SessionId, cur: TokenId, next: TokenId,
                               attempt: nat, heldAtStart: bool, superseded: bool)

  datatype Outcome =
    | Rotated(r: Rotation)
    | SessionExpired(r: Rotation)
    | ReuseDetected(r: Rotation)
    | Conflict(r: Rotation)
    | Finished
    | UserDropped(user: UserId, read: seq<SessionId>)

  /** Why `invalidateSession` runs: a caller asked for it, or a rotation saw reuse. */
  datatype Cause = Requested | Reuse(r: Rotation)

  /** A call, at the Redis command it will send next. An invalidation of all of a user's
      sessions keeps the members it read, and how many of them it has deleted. */
  datatype Call =
    | RotateWatch(r: Rotation)
    | RotateGet(r: Rotation, watched: nat)
    | RotateExec(r: Rotation, watched: nat, seen: Session)
    | DropGet(sid: SessionId, cause: Cause)
    | DropDel(sid: SessionId, owner: Option<UserId>, cause: Cause)
    | DropSrem(sid: SessionId, member: UserId, cause: Cause)
    | UserMembers(user: UserId)
    | UserDel(user: UserId, read: seq<SessionId>, at: nat)
    | UserIndexDel(user: UserId, read: seq<SessionId>)
    | LoginSet(user: UserId, sid: SessionId, token: TokenId)
    | LoginSadd(user: UserId, sid: SessionId, token: TokenId)
    | Done(outcome: Outcome)

  /** The store and the calls in flight. `held` lists the refresh-token ids each session
      has had, oldest first; `issued` and `named` are the ids drawn so far. */
  datatype System = System(
    sessions: map<SessionId, Session>,
    versions: map<SessionId, nat>,
    index: map<UserId, set<SessionId>>,
    calls: map<CallId, Call>,
    held: map<SessionId, seq<TokenId>>,
    issued: set<TokenId>,
    named: set<SessionId>)

  const INITIAL := System(map[], map[], map[], map[], map[], {}, {})

  datatype Event =
    | StartRotate(id: CallId, sid: SessionId, cur: TokenId, next: TokenId)
    | StartLogin(id: CallId, user: UserId, sid: SessionId, token: TokenId)
    | StartLogout(id: CallId, sid: SessionId)
    | StartUserLogout(id: CallId, user: UserId)
    | Advance(id: CallId)
    | ReadMembers(id: CallId, order: seq<SessionId>)
    | Expire(sid: SessionId)

  // ----- The store -----

  function Version(s: System, sid: SessionId): nat {
    if sid in s.versions then s.versions[sid] else 0
  }

  function Members(s: System, user: UserId): set<SessionId> {
    if user in s.index then s.index[user] else {}
  }

  function HeldBy(s: System, sid: SessionId): seq<TokenId> {
    if sid in s.held then s.held[sid] else []
  }

  /** SET of a session key. */
  function Put(s: System, sid: SessionId, session: Session): System {
    s.(sessions := s.sessions[sid := session],
       versions := s.versions[sid := Version(s, sid) + 1],
       held := s.held[sid := HeldBy(s, sid) + [session.token]])
  }

  /** DEL of a session key. */
  function Delete(s: System, sid: SessionId): System {
    if sid !in s.sessions then s
    else s.(sessions := s.sessions - {sid}, versions := s.versions[sid := Version(s, sid) + 1])
  }

  function SidsOf(order: seq<SessionId>): set<SessionId> {
    set sid | sid in order
  }

  // ----- Steps -----

  predicate Enabled(s: System, e: Event) {
    match e
    case StartRotate(id, sid, cur, next) => id !in s.calls && next !in s.issued
    case StartLogin(id, user, sid, token) => id !in s.calls && token !in s.issued && sid !in s.named
    case StartLogout(id, sid) => id !in s.calls
    case StartUserLogout(id, user) => id !in s.calls
    case Advance(id) => id in s.calls && !s.calls[id].Done? && !s.calls[id].UserMembers?
    case ReadMembers(id, order) =>
      id in s.calls && s.calls[id].UserMembers?
      && SidsOf(order) == Members(s, s.calls[id].user)
    case Expire(sid) => true
  }

  /** One step: one Redis command of one call, the start of a call, or an expiry. */
  function Next(s: System, e: Event): System
    requires Enabled(s, e)
  {
    var w := Written(s, e);
    match e
    case StartRotate(id, sid, cur, next) =>
      var r := Rotation(sid, cur, next, 0, cur in HeldBy(s, sid), Superseded(s, sid, cur));
      w.(calls := s.calls[id := RotateWatch(r)], issued := s.issued + {next})
    case StartLogin(id, user, sid, token) =>
      w.(calls := s.calls[id := LoginSet(user, sid, token)],
         issued := s.issued + {token}, named := s.named + {sid})
    case StartLogout(id, sid) => w.(calls := s.calls[id := DropGet(sid, Requested)])
    case StartUserLogout(id, user) => w.(calls := s.calls[id := UserMembers(user)])
    case Advance(id) =>
      w.(calls := s.calls[id := Command(s, s.calls[id])], index := Indexed(s, s.calls[id]))
    case ReadMembers(id, order) => w.(calls := s.calls[id := UserDel(s.calls[id].user, order, 0)])
    case Expire(sid) => w
  }

  /** The session keys after the SET or DEL of a step, if it sends one. */
  function Written(s: System, e: Event): System
    requires Enabled(s, e)
  {
    match e
    case Expire(sid) => Delete(s, sid)
    case Advance(id) => WrittenBy(s, s.calls[id])
    case _ => s
  }

  function WrittenBy(s: System, c: Call): System {
    match c
    case RotateExec(r, watched, seen) =>
      if Version(s, r.sid) == watched then Put(s, r.sid, seen.(token := r.next)) else s
    case DropDel(sid, _, _) => Delete(s, sid)
    case UserDel(_, read, at) => if at < |read| then Delete(s, read[at]) else s
    case LoginSet(user, sid, token) => Put(s, sid, Session(user, token))
    case _ => s
  }

  /** The user index after the SADD, SREM or DEL of a step, if it sends one. */
  function Indexed(s: System, c: Call): map<UserId, set<SessionId>> {
    match c
    case DropSrem(sid, member, _) => s.index[member := Members(s, member) - {sid}]
    case UserIndexDel(user, _) => s.index - {user}
    case LoginSadd(user, sid, _) => s.index[user := Members(s, user) + {sid}]
    case _ => s.index
  }

  /** Where a call is after its next Redis command, which runs in state `s`. */
  function Command(s: System, c: Call): Call {
    match c
    case RotateWatch(r) => RotateGet(r, Version(s, r.sid))
    case RotateGet(r, watched) =>
      if r.sid !in s.sessions then Done(SessionExpired(r))
      else if s.sessions[r.sid].token != r.cur then DropGet(r.sid, Reuse(r))
      else RotateExec(r, watched, s.sessions[r.sid])
    case RotateExec(r, watched, _) =>
      if Version(s, r.sid) == watched then Done(Rotated(r)) else AfterFailedExec(r)
    case DropGet(sid, cause) =>
      DropDel(sid, if sid in s.sessions then Some(s.sessions[sid].user) else None, cause)
    case DropDel(sid, owner, cause) =>
      if owner.Some? then DropSrem(sid, owner.value, cause) else Done(Verdict(cause))
    case DropSrem(_, _, cause) => Done(Verdict(cause))
    case UserMembers(user) => UserDel(user, [], 0)
    case UserDel(user, read, at) => if at < |read| then UserDel(user, read, at + 1) else UserIndexDel(user, read)
    case UserIndexDel(user, read) => Done(UserDropped(user, read))
    case LoginSet(user, sid, token) => LoginSadd(user, sid, token)
    case LoginSadd(_, _, _) => Done(Finished)
    case Done(outcome) => Done(outcome)
  }

  /** The head of the retry loop: three attempts, then ConflictException. */
  function AfterFailedExec(r: Rotation): Call {
    if r.attempt + 1 < 3 then RotateWatch(r.(attempt := r.attempt + 1)) else Done(Conflict(r))
  }

  function Verdict(cause: Cause): Outcome {
    match cause
    case Requested => Finished
    case Reuse(r) => ReuseDetected(r)
  }

  // ----- Runs -----

  predicate Allowed(s: System, es: seq<Event>)
    decreases |es|
  {
    es == [] || (Enabled(s, es[0]) && Allowed(Next(s, es[0]), es[1..]))
  }

  function Run(s: System, es: seq<Event>): System
    requires Allowed(s, es)
    decreases |es|
  {
    if es == [] then s else Run(Next(s, es[0]), es[1..])
  }

  // ----- What is known of a token id -----

  /** The session had `cur` and has moved on: it is deleted, or has another token now. */
  predicate Superseded(s: System, sid: SessionId, cur: TokenId) {
    cur in HeldBy(s, sid) && (sid in s.sessions ==> s.sessions[sid].token != cur)
  }

  predicate Gone(s: System, sid: SessionId) {
    sid in s.held && sid !in s.sessions
  }

  predicate NoRepeat(ts: seq<TokenId>) {
    forall i, j :: 0 <= i < j < |ts| ==> ts[i] != ts[j]
  }

  /** The rotation a call carries out, if it can still write or has written. */
  function RotationOf(c: Call): Option<Rotation> {
    match c
    case RotateWatch(r) => Some(r)
    case RotateGet(r, _) => Some(r)
    case RotateExec(r, _, _) => Some(r)
    case Done(Rotated(r)) => Some(r)
    case _ => None
  }

  /** The fresh token id a call owns. */
  function TokenOf(c: Call): Option<TokenId> {
    match c
    case LoginSet(_, _, token) => Some(token)
    case LoginSadd(_, _, token) => Some(token)
    case _ => if RotationOf(c).Some? then Some(RotationOf(c).value.next) else None
  }

  predicate Unwritten(c: Call) {
    c.RotateWatch? || c.RotateGet? || c.RotateExec? || c.LoginSet?
  }

  // ----- The invariant -----

  /** What the store and the record of held ids say of one session. */
  predicate SessionInv(s: System, sid: SessionId) {
    && (sid in s.held <==> HeldBy(s, sid) != [])
    && NoRepeat(HeldBy(s, sid))
    && (sid in s.held ==> sid in s.named)
    && (sid in s.sessions ==>
          sid in s.held && s.sessions[sid].token == s.held[sid][|s.held[sid]| - 1])
  }

  /** The presented id is one the session has had, once a first EXEC has failed. */
  predicate Known(s: System, r: Rotation) {
    (r.heldAtStart || r.attempt >= 1 ==> r.cur in HeldBy(s, r.sid))
    && (r.superseded ==> Superseded(s, r.sid, r.cur))
  }

  /** After a failed EXEC the id is superseded: at once if it was held when the call
      began, otherwise after one more failure. */
  predicate Settled(s: System, r: Rotation) {
    (r.heldAtStart && r.attempt >= 1) || r.attempt >= 2 ==> Superseded(s, r.sid, r.cur)
  }

  /** The session has gone on from the presented id, if it had it when the call began. */
  ghost predicate Overtaken(s: System, r: Rotation) {
    r.heldAtStart ==> exists i :: InChain(s, r.sid, i) && HeldBy(s, r.sid)[i] == r.cur
  }

  lemma OvertakenStays(s: System, s': System, r: Rotation)
    requires Overtaken(s, r) && HeldBy(s, r.sid) <= HeldBy(s', r.sid)
    ensures Overtaken(s', r)
  {
    if r.heldAtStart {
      var i :| InChain(s, r.sid, i) && HeldBy(s, r.sid)[i] == r.cur;
      assert InChain(s', r.sid, i) && HeldBy(s', r.sid)[i] == r.cur;
    }
  }

  /** What an in-flight or finished call may rely on. */
  ghost predicate CallInv(s: System, c: Call) {
    match c
    case RotateWatch(r) => Known(s, r) && Settled(s, r) && r.attempt <= 2
    case RotateGet(r, watched) =>
      && Known(s, r) && Settled(s, r) && r.attempt <= 2
      && watched <= Version(s, r.sid)
      && (r.heldAtStart || r.attempt >= 1 ==> Version(s, r.sid) == watched || Superseded(s, r.sid, r.cur))
    case RotateExec(r, watched, seen) =>
      && Known(s, r) && !r.superseded
      && r.attempt <= (if r.heldAtStart then 0 else 1)
      && watched <= Version(s, r.sid)
      && seen.token == r.cur && r.cur in HeldBy(s, r.sid)
      && (Version(s, r.sid) == watched ==> r.sid in s.sessions && s.sessions[r.sid] == seen)
      && (r.heldAtStart || r.attempt >= 1 ==> Version(s, r.sid) == watched || Superseded(s, r.sid, r.cur))
    case DropGet(sid, Reuse(r)) => sid == r.sid && Known(s, r) && sid in s.held && Overtaken(s, r)
    case DropDel(sid, _, Reuse(r)) => sid == r.sid && Known(s, r) && sid in s.held && Overtaken(s, r)
    case DropSrem(sid, _, Reuse(r)) => sid == r.sid && Known(s, r) && Gone(s, sid) && Overtaken(s, r)
    case Done(Rotated(r)) =>
      && !r.superseded
      && exists i :: Link(s, r.sid, i, r.cur, r.next)
    case Done(SessionExpired(r)) => r.heldAtStart || r.superseded ==> Gone(s, r.sid)
    case Done(ReuseDetected(r)) => Gone(s, r.sid) && Overtaken(s, r)
    case Done(Conflict(r)) => false
    case UserDel(_, read, at) => AllHeld(s, read) && at <= |read| && AllGone(s, read[..at])
    case UserIndexDel(_, read) => AllGone(s, read)
    case Done(UserDropped(_, read)) => AllGone(s, read)
    case LoginSadd(_, sid, _) => sid in s.held
    case _ => true
  }

  predicate AllHeld(s: System, ids: seq<SessionId>) {
    forall i :: 0 <= i < |ids| ==> ids[i] in s.held
  }

  predicate AllGone(s: System, ids: seq<SessionId>) {
    forall i :: 0 <= i < |ids| ==> Gone(s, ids[i])
  }

  /** An index names sessions that were stored. */
  ghost predicate IndexInv(s: System) {
    forall user, sid :: user in s.index && sid in s.index[user] ==> sid in s.held
  }

  /** `next` was the id held right after `cur`. */
  predicate Link(s: System, sid: SessionId, i: int, cur: TokenId, next: TokenId) {
    0 <= i && i + 1 < |HeldBy(s, sid)| && HeldBy(s, sid)[i] == cur && HeldBy(s, sid)[i + 1] == next
  }

  /** The fresh id of a call has been drawn; before the call writes, no session has it. */
  ghost predicate OwnsToken(s: System, c: Call) {
    && (TokenOf(c).Some? ==> TokenOf(c).value in s.issued)
    && (Unwritten(c) ==> forall sid :: TokenOf(c).value !in HeldBy(s, sid))
    && (c.LoginSet? ==> c.sid !in s.held && c.sid in s.named)
  }

  /** Two calls own different fresh ids. */
  predicate Apart(c: Call, d: Call) {
    && (TokenOf(c).Some? ==> TokenOf(c) != TokenOf(d))
    && (c.LoginSet? && d.LoginSet? ==> c.sid != d.sid)
  }

  ghost predicate HeldIssued(s: System) {
    forall sid, t :: t in HeldBy(s, sid) ==> t in s.issued
  }

  ghost predicate TokensInv(s: System) {
    && (forall id :: id in s.calls ==> OwnsToken(s, s.calls[id]))
    && (forall i, j :: i in s.calls && j in s.calls && i != j ==> Apart(s.calls[i], s.calls[j]))
    && HeldIssued(s)
  }

  /** Every link of every chain was made by a rotation that succeeded. */
  ghost predicate LinksInv(s: System) {
    forall sid, i :: InChain(s, sid, i) ==> exists id :: MadeLink(s, id, sid, i)
  }

  predicate InChain(s: System, sid: SessionId, i: int) {
    0 <= i && i + 1 < |HeldBy(s, sid)|
  }

  predicate MadeLink(s: System, id: CallId, sid: SessionId, i: int)
    requires InChain(s, sid, i)
  {
    id in s.calls && s.calls[id].Done? && s.calls[id].outcome.Rotated?
    && s.calls[id].outcome.r.sid == sid
    && s.calls[id].outcome.r.cur == HeldBy(s, sid)[i]
    && s.calls[id].outcome.r.next == HeldBy(s, sid)[i + 1]
  }

  ghost predicate SessionsInv(s: System) {
    forall sid :: SessionInv(s, sid)
  }

  ghost predicate CallsInv(s: System) {
    forall id :: id in s.calls ==> CallInv(s, s.calls[id])
  }

  ghost predicate Inv(s: System) {
    SessionsInv(s) && CallsInv(s) && TokensInv(s) && LinksInv(s) && IndexInv(s)
  }

  // ----- How the store may move -----

  /** The effect of any step on one session, seen from a call that is elsewhere. */
  ghost predicate SessionEvolves(s: System, s': System, sid: SessionId) {
    && HeldBy(s, sid) <= HeldBy(s', sid)
    && Version(s, sid) <= Version(s', sid)
    && (Version(s, sid) == Version(s', sid) ==>
          HeldBy(s, sid) == HeldBy(s', sid)
          && (sid in s.sessions <==> sid in s'.sessions)
          && (sid in s.sessions ==> s.sessions[sid] == s'.sessions[sid]))
    && (Version(s, sid) != Version(s', sid) ==>
          forall cur :: cur in HeldBy(s, sid) ==> Superseded(s', sid, cur))
    && (sid in s.held ==> sid in s'.held)
    && (Gone(s, sid) ==> Gone(s', sid))
    && (forall cur :: Superseded(s, sid, cur) ==> Superseded(s', sid, cur))
  }

  ghost predicate Evolves(s: System, s': System) {
    forall sid :: SessionEvolves(s, s', sid)
  }

  lemma PutEvolves(s: System, sid: SessionId, session: Session)
    requires SessionsInv(s)
    requires session.token !in HeldBy(s, sid)
    requires sid in s.held ==> sid in s.sessions
    ensures Evolves(s, Put(s, sid, session))
    ensures sid in s.named ==> SessionsInv(Put(s, sid, session))
  {
    var s' := Put(s, sid, session);
    assert HeldBy(s', sid) == HeldBy(s, sid) + [session.token];
    forall x ensures SessionEvolves(s, s', x) {
      assert SessionInv(s, x);
    }
    if sid in s.named {
      forall x ensures SessionInv(s', x) {
        assert SessionInv(s, x);
      }
    }
  }

  lemma DeleteEvolves(s: System, sid: SessionId)
    requires SessionsInv(s)
    ensures Evolves(s, Delete(s, sid))
    ensures SessionsInv(Delete(s, sid))
    ensures sid in s.held ==> Gone(Delete(s, sid), sid)
  {
    var s' := Delete(s, sid);
    forall x ensures SessionEvolves(s, s', x) && SessionInv(s', x) {
      assert SessionInv(s, x);
    }
  }

  lemma DropStable(s: System, s': System, sid: SessionId, cause: Cause)
    requires Evolves(s, s')
    ensures SessionEvolves(s, s', sid)
    ensures cause.Reuse? && cause.r.sid == sid && Overtaken(s, cause.r) ==> Overtaken(s', cause.r)
  {
    assert SessionEvolves(s, s', sid);
    if cause.Reuse? && cause.r.sid == sid && Overtaken(s, cause.r) {
      OvertakenStays(s, s', cause.r);
    }
  }

  /** What a call relies on survives any step of the others. */
  lemma CallInvStable(s: System, s': System, c: Call)
    requires CallInv(s, c) && Evolves(s, s')
    ensures CallInv(s', c)
  {
    match c
    case RotateWatch(r) => assert SessionEvolves(s, s', r.sid);
    case RotateGet(r, _) => assert SessionEvolves(s, s', r.sid);
    case RotateExec(r, _, _) => assert SessionEvolves(s, s', r.sid);
    case DropGet(sid, cause) => DropStable(s, s', sid, cause);
    case DropDel(sid, _, cause) => DropStable(s, s', sid, cause);
    case DropSrem(sid, _, cause) => DropStable(s, s', sid, cause);
    case Done(Rotated(r)) =>
      assert SessionEvolves(s, s', r.sid);
      var i :| Link(s, r.sid, i, r.cur, r.next);
      assert Link(s', r.sid, i, r.cur, r.next);
    case Done(SessionExpired(r)) => assert SessionEvolves(s, s', r.sid);
    case Done(ReuseDetected(r)) => DropStable(s, s', r.sid, Reuse(r));
    case UserDel(_, read, at) => HeldAndGoneStay(s, s', read); HeldAndGoneStay(s, s', read[..at]);
    case UserIndexDel(_, read) => HeldAndGoneStay(s, s', read);
    case Done(UserDropped(_, read)) => HeldAndGoneStay(s, s', read);
    case LoginSadd(_, sid, _) => assert SessionEvolves(s, s', sid);
    case _ =>
  }

  lemma HeldAndGoneStay(s: System, s': System, ids: seq<SessionId>)
    requires Evolves(s, s')
    ensures AllHeld(s, ids) ==> AllHeld(s', ids)
    ensures AllGone(s, ids) ==> AllGone(s', ids)
  {
    forall i | 0 <= i < |ids| ensures SessionEvolves(s, s', ids[i]) {
    }
  }

  // ----- One step keeps the invariant -----

  /** Steps that touch only calls, the index or the drawn ids leave sessions alone. */
  lemma SameStore(s: System, mid: System, s': System)
    requires s'.sessions == mid.sessions && s'.versions == mid.versions && s'.held == mid.held
    requires mid.named <= s'.named
    requires Evolves(s, mid) && SessionsInv(mid)
    ensures Evolves(s, s') && SessionsInv(s')
  {
    forall x ensures SessionEvolves(s, s', x) && SessionInv(s', x) {
      assert SessionEvolves(s, mid, x) && SessionInv(mid, x);
    }
  }

  lemma EvolvesReflexive(s: System)
    ensures Evolves(s, s)
  {
  }

  lemma WrittenEvolves(s: System, e: Event)
    requires SessionsInv(s) && CallsInv(s) && TokensInv(s) && Enabled(s, e)
    ensures Evolves(s, Written(s, e)) && SessionsInv(Written(s, e))
  {
    EvolvesReflexive(s);
    match e {
      case Expire(sid) => DeleteEvolves(s, sid);
      case Advance(id) =>
        match s.calls[id] {
          case RotateExec(r, watched, seen) =>
            assert CallInv(s, s.calls[id]) && SessionInv(s, r.sid);
            if Version(s, r.sid) == watched {
              PutEvolves(s, r.sid, seen.(token := r.next));
            }
          case DropDel(sid, _, _) => DeleteEvolves(s, sid);
          case UserDel(_, read, at) => if at < |read| { DeleteEvolves(s, read[at]); }
          case LoginSet(user, sid, token) => PutEvolves(s, sid, Session(user, token));
          case _ =>
        }
      case _ =>
    }
  }

  lemma StepEvolves(s: System, e: Event)
    requires SessionsInv(s) && CallsInv(s) && TokensInv(s) && Enabled(s, e)
    ensures Evolves(s, Next(s, e)) && SessionsInv(Next(s, e))
  {
    WrittenEvolves(s, e);
    SameStore(s, Written(s, e), Next(s, e));
  }

  /** The session a call is about, if any. */
  function Subject(c: Call): Option<SessionId> {
    match c
    case RotateWatch(r) => Some(r.sid)
    case RotateGet(r, _) => Some(r.sid)
    case RotateExec(r, _, _) => Some(r.sid)
    case DropGet(sid, _) => Some(sid)
    case DropDel(sid, _, _) => Some(sid)
    case DropSrem(sid, _, _) => Some(sid)
    case _ => None
  }

  lemma AdvancedCallInv(s: System, s': System, c: Call)
    requires CallInv(s, c) && !c.UserMembers? && !c.UserDel? && !c.UserIndexDel? && !c.Done?
    requires var w := WrittenBy(s, c);
             s'.sessions == w.sessions && s'.versions == w.versions && s'.held == w.held
    requires var x := Subject(c); x.Some? ==> SessionInv(s, x.value) && SessionEvolves(s, s', x.value)
    ensures CallInv(s', Command(s, c))
  {
    match c {
      case RotateExec(r, watched, seen) =>
        if Version(s, r.sid) == watched {
          var n := |HeldBy(s, r.sid)|;
          assert HeldBy(s', r.sid) == HeldBy(s, r.sid) + [r.next];
          assert Link(s', r.sid, n - 1, r.cur, r.next);
        }
      case _ =>
    }
  }

  lemma AdvancedUserCallInv(s: System, s': System, c: Call)
    requires CallInv(s, c) && (c.UserDel? || c.UserIndexDel?) && Evolves(s, s')
    requires s'.sessions == WrittenBy(s, c).sessions && s'.held == WrittenBy(s, c).held
    ensures CallInv(s', Command(s, c))
  {
    HeldAndGoneStay(s, s', c.read);
    if c.UserDel? {
      HeldAndGoneStay(s, s', c.read[..c.at]);
      if c.at < |c.read| {
        assert Gone(s', c.read[c.at]) by { assert c.read[c.at] in s.held; }
        assert c.read[..c.at + 1] == c.read[..c.at] + [c.read[c.at]];
      } else {
        assert c.read[..c.at] == c.read;
      }
    }
  }

  lemma MembersHeld(s: System, e: Event)
    requires IndexInv(s) && e.ReadMembers? && Enabled(s, e)
    ensures AllHeld(Next(s, e), e.order)
  {
    var user := s.calls[e.id].user;
    forall i | 0 <= i < |e.order| ensures e.order[i] in s.held {
      assert e.order[i] in SidsOf(e.order);
      assert user in s.index && e.order[i] in s.index[user];
    }
  }

  lemma StepIndex(s: System, e: Event)
    requires SessionsInv(s) && CallsInv(s) && TokensInv(s) && IndexInv(s) && Enabled(s, e)
    ensures IndexInv(Next(s, e))
  {
    var s' := Next(s, e);
    StepEvolves(s, e);
    forall user, sid | user in s'.index && sid in s'.index[user] ensures sid in s'.held {
      assert SessionEvolves(s, s', sid);
      if !(user in s.index && sid in s.index[user]) {
        assert CallInv(s, s.calls[e.id]);
      }
    }
  }

  lemma StepCalls(s: System, e: Event)
    requires SessionsInv(s) && CallsInv(s) && TokensInv(s) && IndexInv(s) && Enabled(s, e)
    ensures CallsInv(Next(s, e))
  {
    var s' := Next(s, e);
    StepEvolves(s, e);
    forall id | id in s'.calls ensures CallInv(s', s'.calls[id]) {
      if id in s.calls && s'.calls[id] == s.calls[id] {
        CallInvStable(s, s', s.calls[id]);
      } else if e == Advance(id) && (s.calls[id].UserDel? || s.calls[id].UserIndexDel?) {
        AdvancedUserCallInv(s, s', s.calls[id]);
      } else if e.ReadMembers? && e.id == id {
        MembersHeld(s, e);
      } else if e == Advance(id) {
        var x := Subject(s.calls[id]);
        assert x.Some? ==> SessionInv(s, x.value) && SessionEvolves(s, s', x.value);
        AdvancedCallInv(s, s', s.calls[id]);
      }
    }
  }

  /** The effect of a command of `c` on one session's chain: it may append the id `c` owns. */
  ghost predicate Appends(s: System, s': System, c: Call, c': Call, sid: SessionId) {
    && (HeldBy(s', sid) == HeldBy(s, sid)
        || (Unwritten(c) && !Unwritten(c') && HeldBy(s', sid) == HeldBy(s, sid) + [TokenOf(c).value]))
    && (sid in s'.held ==> sid in s.held || (c.LoginSet? && c.sid == sid))
  }

  lemma CommandAppends(s: System, c: Call, sid: SessionId)
    requires CallInv(s, c) && !c.Done?
    ensures Appends(s, WrittenBy(s, c), c, Command(s, c), sid)
  {
  }

  lemma CommandToken(s: System, c: Call)
    requires CallInv(s, c) && !c.Done?
    ensures TokenOf(Command(s, c)) == TokenOf(c) || TokenOf(Command(s, c)) == None
    ensures !Command(s, c).LoginSet?
    ensures Unwritten(Command(s, c)) ==> Unwritten(c)
  {
  }

  /** The calls that stand still keep their ids when `c` moves to `c'`. */
  lemma OwnsTokenStable(s: System, s': System, c: Call, c': Call, d: Call)
    requires OwnsToken(s, c) && OwnsToken(s, d) && Apart(c, d) && Apart(d, c)
    requires s.issued <= s'.issued && s.named <= s'.named
    requires forall sid :: Appends(s, s', c, c', sid)
    ensures OwnsToken(s', d)
  {
    forall sid | Unwritten(d) ensures TokenOf(d).value !in HeldBy(s', sid) {
      assert Appends(s, s', c, c', sid);
    }
    assert d.LoginSet? ==> Appends(s, s', c, c', d.sid);
  }

  /** The ids a moving call owns stay its own. */
  lemma OwnsTokenMoves(s: System, s': System, c: Call, c': Call)
    requires OwnsToken(s, c) && s.issued <= s'.issued && s.named <= s'.named
    requires TokenOf(c') == TokenOf(c) || TokenOf(c') == None
    requires !c'.LoginSet? && (Unwritten(c') ==> Unwritten(c))
    requires forall sid :: Appends(s, s', c, c', sid)
    ensures OwnsToken(s', c')
  {
    forall sid | Unwritten(c') ensures TokenOf(c').value !in HeldBy(s', sid) {
      assert Appends(s, s', c, c', sid);
    }
  }

  lemma AppendsIssued(s: System, s': System, c: Call, c': Call)
    requires HeldIssued(s) && OwnsToken(s, c) && s.issued <= s'.issued
    requires forall sid :: Appends(s, s', c, c', sid)
    ensures HeldIssued(s')
  {
    forall sid, t | t in HeldBy(s', sid) ensures t in s'.issued {
      assert Appends(s, s', c, c', sid);
    }
  }

  lemma AdvanceAppends(s: System, id: CallId)
    requires CallsInv(s) && Enabled(s, Advance(id))
    ensures var s' := Next(s, Advance(id));
      forall sid :: Appends(s, s', s.calls[id], Command(s, s.calls[id]), sid)
  {
    var c := s.calls[id];
    forall sid ensures Appends(s, Next(s, Advance(id)), c, Command(s, c), sid) {
      CommandAppends(s, c, sid);
    }
  }

  lemma AdvanceTokens(s: System, id: CallId)
    requires CallsInv(s) && TokensInv(s) && Enabled(s, Advance(id))
    ensures TokensInv(Next(s, Advance(id)))
  {
    var c, c', s' := s.calls[id], Command(s, s.calls[id]), Next(s, Advance(id));
    CommandToken(s, c);
    AdvanceAppends(s, id);
    AppendsIssued(s, s', c, c');
    forall i | i in s'.calls ensures OwnsToken(s', s'.calls[i]) {
      if i != id {
        OwnsTokenStable(s, s', c, c', s.calls[i]);
      } else {
        OwnsTokenMoves(s, s', c, c');
      }
    }
  }

  /** A call that starts takes an id nobody has drawn; other steps draw none. */
  lemma StartTokens(s: System, e: Event)
    requires SessionsInv(s) && TokensInv(s) && Enabled(s, e) && !e.Advance?
    ensures TokensInv(Next(s, e))
  {
    var s' := Next(s, e);
    forall sid ensures HeldBy(s', sid) == HeldBy(s, sid) && (sid in s'.held <==> sid in s.held) {
      assert SessionInv(s, sid);
    }
    forall i | i in s'.calls ensures OwnsToken(s', s'.calls[i]) {
      if i in s.calls {
        assert OwnsToken(s, s.calls[i]);
      }
      assert e.StartLogin? ==> SessionInv(s, e.sid);
    }
    forall i, j | i in s'.calls && j in s'.calls && i != j ensures Apart(s'.calls[i], s'.calls[j]) {
      assert i in s.calls ==> OwnsToken(s, s.calls[i]);
      assert j in s.calls ==> OwnsToken(s, s.calls[j]);
    }
  }

  lemma StepTokens(s: System, e: Event)
    requires SessionsInv(s) && CallsInv(s) && TokensInv(s) && Enabled(s, e)
    ensures TokensInv(Next(s, e))
  {
    if e.Advance? {
      AdvanceTokens(s, e.id);
    } else {
      StartTokens(s, e);
    }
  }

  /** A chain grows only by the successful EXEC of the advancing call. */
  lemma NewLink(s: System, e: Event, sid: SessionId, i: int)
    requires SessionsInv(s) && CallsInv(s) && TokensInv(s) && Enabled(s, e)
    requires InChain(Next(s, e), sid, i) && !InChain(s, sid, i)
    ensures e.Advance? && MadeLink(Next(s, e), e.id, sid, i)
  {
    assert SessionInv(s, sid);
    assert CallInv(s, s.calls[e.id]) && OwnsToken(s, s.calls[e.id]);
  }

  lemma OldLink(s: System, e: Event, id: CallId, sid: SessionId, i: int)
    requires SessionsInv(s) && CallsInv(s) && TokensInv(s) && Enabled(s, e)
    requires InChain(s, sid, i) && MadeLink(s, id, sid, i)
    ensures InChain(Next(s, e), sid, i) && MadeLink(Next(s, e), id, sid, i)
  {
    StepEvolves(s, e);
    assert SessionEvolves(s, Next(s, e), sid);
  }

  lemma StepLinks(s: System, e: Event)
    requires SessionsInv(s) && CallsInv(s) && TokensInv(s) && LinksInv(s) && Enabled(s, e)
    ensures LinksInv(Next(s, e))
  {
    var s' := Next(s, e);
    forall sid, i | InChain(s', sid, i) ensures exists id :: MadeLink(s', id, sid, i) {
      if InChain(s, sid, i) {
        var id :| MadeLink(s, id, sid, i);
        OldLink(s, e, id, sid, i);
      } else {
        NewLink(s, e, sid, i);
      }
    }
  }

  lemma StepKeepsInv(s: System, e: Event)
    requires Inv(s) && Enabled(s, e)
    ensures Inv(Next(s, e))
  {
    StepEvolves(s, e);
    StepCalls(s, e);
    StepTokens(s, e);
    StepLinks(s, e);
    StepIndex(s, e);
  }

  lemma {:induction false} RunKeepsInv(s: System, es: seq<Event>)
    requires Inv(s) && Allowed(s, es)
    ensures Inv(Run(s, es))
    decreases |es|
  {
    if es != [] {
      StepKeepsInv(s, es[0]);
      RunKeepsInv(Next(s, es[0]), es[1..]);
    }
  }

  lemma ReachableInv(es: seq<Event>)
    requires Allowed(INITIAL, es)
    ensures Inv(Run(INITIAL, es))
  {
    assert forall sid :: SessionInv(INITIAL, sid);
    RunKeepsInv(INITIAL, es);
  }

  // ----- The theorems -----

  predicate Succeeded(s: System, id: CallId, sid: SessionId, cur: TokenId) {
    id in s.calls && s.calls[id].Done? && s.calls[id].outcome.Rotated?
    && s.calls[id].outcome.r.sid == sid && s.calls[id].outcome.r.cur == cur
  }

  /** In every interleaving at most one rotation succeeds for a session and token id. */
  lemma AtMostOneSuccess(es: seq<Event>, i: CallId, j: CallId, sid: SessionId, cur: TokenId)
    requires Allowed(INITIAL, es)
    requires Succeeded(Run(INITIAL, es), i, sid, cur) && Succeeded(Run(INITIAL, es), j, sid, cur)
    ensures i == j
  {
    var s := Run(INITIAL, es);
    ReachableInv(es);
    assert CallInv(s, s.calls[i]) && CallInv(s, s.calls[j]);
    var k :| Link(s, sid, k, cur, s.calls[i].outcome.r.next);
    var l :| Link(s, sid, l, cur, s.calls[j].outcome.r.next);
    assert k == l by { assert SessionInv(s, sid); }
    assert TokenOf(s.calls[i]) == TokenOf(s.calls[j]);
  }

  /** The ids a session has held never repeat; each one after the first was put there by
      exactly one successful rotation, the one presenting its predecessor; and a live
      session has the last of them. */
  lemma HeldIdsAreAChain(es: seq<Event>, sid: SessionId)
    requires Allowed(INITIAL, es)
    ensures var s := Run(INITIAL, es);
            && NoRepeat(HeldBy(s, sid))
            && (forall i :: InChain(s, sid, i) ==>
                  exists id :: MadeLink(s, id, sid, i) && forall j :: MadeLink(s, j, sid, i) ==> j == id)
            && (sid in s.sessions ==>
                  HeldBy(s, sid) != [] && s.sessions[sid].token == HeldBy(s, sid)[|HeldBy(s, sid)| - 1])
  {
    var s := Run(INITIAL, es);
    ReachableInv(es);
    assert SessionInv(s, sid);
    forall i | InChain(s, sid, i)
      ensures exists id :: MadeLink(s, id, sid, i) && forall j :: MadeLink(s, j, sid, i) ==> j == id
    {
      var id :| MadeLink(s, id, sid, i);
      forall j | MadeLink(s, j, sid, i) ensures j == id {
        AtMostOneSuccess(es, id, j, sid, HeldBy(s, sid)[i]);
      }
    }
  }

  /** ConflictException is unreachable: a third EXEC is never sent, because a second
      failed EXEC leaves the presented id superseded. */
  lemma ConflictUnreachable(es: seq<Event>, id: CallId)
    requires Allowed(INITIAL, es) && id in Run(INITIAL, es).calls
    ensures var c := Run(INITIAL, es).calls[id];
            && !(c.Done? && c.outcome.Conflict?)
            && (c.RotateExec? ==> c.r.attempt <= 1)
  {
    ReachableInv(es);
    assert CallInv(Run(INITIAL, es), Run(INITIAL, es).calls[id]);
  }

  /** A call presenting an id the session had when the call began sends EXEC once only; if
      that EXEC fails, the next GET finds no session or another id, whatever runs between. */
  lemma EndsBySecondAttempt(es: seq<Event>, id: CallId)
    requires Allowed(INITIAL, es) && id in Run(INITIAL, es).calls
    requires var c := Run(INITIAL, es).calls[id]; RotationOf(c).Some? && RotationOf(c).value.heldAtStart
    ensures var s := Run(INITIAL, es);
            var c := s.calls[id];
            && (c.RotateExec? ==> c.r.attempt == 0)
            && (c.RotateGet? && c.r.attempt >= 1 ==>
                  c.r.sid !in s.sessions || s.sessions[c.r.sid].token != c.r.cur)
  {
    ReachableInv(es);
    assert CallInv(Run(INITIAL, es), Run(INITIAL, es).calls[id]);
  }

  lemma {:induction false} RunEvolves(s: System, es: seq<Event>)
    requires Inv(s) && Allowed(s, es)
    ensures forall sid :: Gone(s, sid) ==> Gone(Run(s, es), sid)
    decreases |es|
  {
    if es != [] {
      StepEvolves(s, es[0]);
      StepKeepsInv(s, es[0]);
      RunEvolves(Next(s, es[0]), es[1..]);
      forall sid | Gone(s, sid) ensures Gone(Run(s, es), sid) {
        assert SessionEvolves(s, Next(s, es[0]), sid);
      }
    }
  }

  /** A session that was stored and is now deleted stays deleted, however the run goes on. */
  lemma DeletedStaysDeleted(es: seq<Event>, more: seq<Event>, sid: SessionId)
    requires Allowed(INITIAL, es) && Allowed(Run(INITIAL, es), more)
    requires Gone(Run(INITIAL, es), sid)
    ensures sid !in Run(Run(INITIAL, es), more).sessions
  {
    ReachableInv(es);
    RunEvolves(Run(INITIAL, es), more);
  }

  /** The rotation a finished call was. */
  function FinishedRotation(c: Call): Option<Rotation> {
    match c
    case Done(Rotated(r)) => Some(r)
    case Done(SessionExpired(r)) => Some(r)
    case Done(ReuseDetected(r)) => Some(r)
    case Done(Conflict(r)) => Some(r)
    case _ => None
  }

  /** Once a rotation that presented a superseded id has finished, it has failed and its
      session is gone for the rest of the run. A reuse verdict always means that. */
  lemma SupersededTokenEndsSession(es: seq<Event>, more: seq<Event>, id: CallId)
    requires Allowed(INITIAL, es) && Allowed(Run(INITIAL, es), more)
    requires id in Run(INITIAL, es).calls
    requires var c := Run(INITIAL, es).calls[id];
             FinishedRotation(c).Some? && (FinishedRotation(c).value.superseded || c.outcome.ReuseDetected?)
    ensures var c := Run(INITIAL, es).calls[id];
            !c.outcome.Rotated? && FinishedRotation(c).value.sid !in Run(Run(INITIAL, es), more).sessions
  {
    var s := Run(INITIAL, es);
    ReachableInv(es);
    assert CallInv(s, s.calls[id]);
    DeletedStaysDeleted(es, more, FinishedRotation(s.calls[id]).value.sid);
  }

  /** Once an invalidation of all of a user's sessions has finished, every session in the
      members it read is gone for the rest of the run. */
  lemma UserInvalidationIsFinal(es: seq<Event>, more: seq<Event>, id: CallId, i: nat)
    requires Allowed(INITIAL, es) && Allowed(Run(INITIAL, es), more)
    requires id in Run(INITIAL, es).calls
    requires var c := Run(INITIAL, es).calls[id]; c.Done? && c.outcome.UserDropped? && i < |c.outcome.read|
    ensures Run(INITIAL, es).calls[id].outcome.read[i] !in Run(Run(INITIAL, es), more).sessions
  {
    var s := Run(INITIAL, es);
    ReachableInv(es);
    assert CallInv(s, s.calls[id]);
    DeletedStaysDeleted(es, more, s.calls[id].outcome.read[i]);
  }

  /** A rotation that presented an id the session had fails for one of two reasons only:
      another rotation has succeeded with the same id, so that the session's last id is
      another one; or the session is gone. */
  lemma FailureIsExplained(es: seq<Event>, id: CallId)
    requires Allowed(INITIAL, es) && id in Run(INITIAL, es).calls
    requires var c := Run(INITIAL, es).calls[id]; FinishedRotation(c).Some? && FinishedRotation(c).value.heldAtStart
    ensures var s := Run(INITIAL, es);
            var r := FinishedRotation(s.calls[id]).value;
            match s.calls[id].outcome
            case Rotated(_) => true
            case ReuseDetected(_) =>
              && HeldBy(s, r.sid) != [] && HeldBy(s, r.sid)[|HeldBy(s, r.sid)| - 1] != r.cur
              && exists j :: Succeeded(s, j, r.sid, r.cur)
            case SessionExpired(_) => Gone(s, r.sid)
            case _ => false
  {
    var s := Run(INITIAL, es);
    var r := FinishedRotation(s.calls[id]).value;
    ReachableInv(es);
    assert CallInv(s, s.calls[id]) && SessionInv(s, r.sid);
    if s.calls[id].outcome.ReuseDetected? {
      var i :| InChain(s, r.sid, i) && HeldBy(s, r.sid)[i] == r.cur;
      var j :| MadeLink(s, j, r.sid, i);
      assert Succeeded(s, j, r.sid, r.cur);
    }
  }

  /** The rotation a call is or was, whatever it is doing now, as it was asked for. */
  function AskedFor(c: Call): Option<Rotation> {
    match c
    case DropGet(_, Reuse(r)) => Some(r.(attempt := 0))
    case DropDel(_, _, Reuse(r)) => Some(r.(attempt := 0))
    case DropSrem(_, _, Reuse(r)) => Some(r.(attempt := 0))
    case _ =>
      if RotationOf(c).Some? then Some(RotationOf(c).value.(attempt := 0))
      else if FinishedRotation(c).Some? then Some(FinishedRotation(c).value.(attempt := 0))
      else None
  }

  lemma CommandKeepsAskedFor(s: System, c: Call)
    requires AskedFor(c).Some?
    ensures AskedFor(Command(s, c)) == AskedFor(c)
  {
  }

  lemma {:induction false} RunKeepsAskedFor(s: System, es: seq<Event>, id: CallId)
    requires Allowed(s, es) && id in s.calls && AskedFor(s.calls[id]).Some?
    ensures id in Run(s, es).calls && AskedFor(Run(s, es).calls[id]) == AskedFor(s.calls[id])
    decreases |es|
  {
    if es != [] {
      CommandKeepsAskedFor(s, s.calls[id]);
      assert id in Next(s, es[0]).calls && AskedFor(Next(s, es[0]).calls[id]) == AskedFor(s.calls[id]);
      RunKeepsAskedFor(Next(s, es[0]), es[1..], id);
    }
  }

  /** How a rotation started with an id the session has had can end, in any interleaving: it
      succeeds, but not with a superseded id; or another rotation has succeeded with that id
      and the session is gone; or the session is gone. */
  lemma StartedRotationEnds(
    before: seq<Event>, after: seq<Event>, id: CallId, sid: SessionId, cur: TokenId, next: TokenId)
    requires Allowed(INITIAL, before) && Enabled(Run(INITIAL, before), StartRotate(id, sid, cur, next))
    requires Allowed(Next(Run(INITIAL, before), StartRotate(id, sid, cur, next)), after)
    requires cur in HeldBy(Run(INITIAL, before), sid)
    ensures var s := Run(INITIAL, before);
            var t := Run(Next(s, StartRotate(id, sid, cur, next)), after);
            id in t.calls && (t.calls[id].Done? ==>
              match t.calls[id].outcome
              case Rotated(r) => r.sid == sid && r.cur == cur && r.next == next && !Superseded(s, sid, cur)
              case ReuseDetected(r) => r.sid == sid && Gone(t, sid) && exists j :: Succeeded(t, j, sid, cur)
              case SessionExpired(r) => r.sid == sid && Gone(t, sid)
              case _ => false)
  {
    var s := Run(INITIAL, before);
    var start := StartRotate(id, sid, cur, next);
    ReachableInv(before);
    StepKeepsInv(s, start);
    RunKeepsInv(Next(s, start), after);
    RunKeepsAskedFor(Next(s, start), after, id);
    var t := Run(Next(s, start), after);
    assert CallInv(t, t.calls[id]);
    if t.calls[id].Done? && t.calls[id].outcome.ReuseDetected? {
      var i :| InChain(t, sid, i) && HeldBy(t, sid)[i] == cur;
      var j :| MadeLink(t, j, sid, i);
      assert Succeeded(t, j, sid, cur);
    }
  }

  // ----- Calls that run alone -----

  /** `n` commands of one call, with nothing in between. */
  function Times(id: CallId, n: nat): seq<Event> {
    if n == 0 then [] else [Advance(id)] + Times(id, n - 1)
  }

  lemma TimesStep(s: System, id: CallId, n: nat)
    requires Enabled(s, Advance(id)) && Allowed(Next(s, Advance(id)), Times(id, n))
    ensures Allowed(s, Times(id, n + 1)) && Run(s, Times(id, n + 1)) == Run(Next(s, Advance(id)), Times(id, n))
  {
    assert Times(id, n + 1)[0] == Advance(id) && Times(id, n + 1)[1..] == Times(id, n);
  }

  lemma RotationWrites(s: System, id: CallId)
    requires id in s.calls && s.calls[id].RotateWatch?
    requires var r := s.calls[id].r; r.sid in s.sessions && s.sessions[r.sid].token == r.cur
    ensures var r := s.calls[id].r;
            && Enabled(s, Advance(id))
            && var one := Next(s, Advance(id));
               && Enabled(one, Advance(id))
               && var two := Next(one, Advance(id));
                  && Enabled(two, Advance(id))
                  && var three := Next(two, Advance(id));
                     && three.calls == s.calls[id := Done(Rotated(r))]
                     && three.sessions == s.sessions[r.sid := Session(s.sessions[r.sid].user, r.next)]
                     && HeldBy(three, r.sid) == HeldBy(s, r.sid) + [r.next] && three.index == s.index
  {
    var r := s.calls[id].r;
    var one := Next(s, Advance(id));
    var two := Next(one, Advance(id));
    assert one == s.(calls := s.calls[id := RotateGet(r, Version(s, r.sid))]);
    assert two.calls[id] == RotateExec(r, Version(s, r.sid), s.sessions[r.sid]);
    assert two == s.(calls := two.calls) && Version(two, r.sid) == Version(s, r.sid);
  }

  /** A rotation that presents the current id, run alone, succeeds: the session is the same
      user's with the next id, and nothing else has changed. */
  lemma AloneItRotates(s: System, id: CallId)
    requires id in s.calls && s.calls[id].RotateWatch?
    requires var r := s.calls[id].r; r.sid in s.sessions && s.sessions[r.sid].token == r.cur
    ensures var r := s.calls[id].r;
            && Allowed(s, Times(id, 3))
            && var t := Run(s, Times(id, 3));
               && t.calls == s.calls[id := Done(Rotated(r))]
               && t.sessions == s.sessions[r.sid := Session(s.sessions[r.sid].user, r.next)]
               && HeldBy(t, r.sid) == HeldBy(s, r.sid) + [r.next] && t.index == s.index
  {
    var one := Next(s, Advance(id));
    var two := Next(one, Advance(id));
    var three := Next(two, Advance(id));
    RotationWrites(s, id);
    assert Allowed(three, Times(id, 0)) && Run(three, Times(id, 0)) == three;
    TimesStep(two, id, 0);
    TimesStep(one, id, 1);
    TimesStep(s, id, 2);
  }

  /** One that presents another id, run alone, reports reuse and deletes the session and its
      entry in its user's index. */
  lemma AloneItDetectsReuse(s: System, id: CallId)
    requires id in s.calls && s.calls[id].RotateWatch?
    requires var r := s.calls[id].r; r.sid in s.sessions && s.sessions[r.sid].token != r.cur
    ensures var r := s.calls[id].r;
            var user := s.sessions[r.sid].user;
            && Allowed(s, Times(id, 5))
            && var t := Run(s, Times(id, 5));
               && t.calls == s.calls[id := Done(ReuseDetected(r))]
               && t.sessions == s.sessions - {r.sid}
               && t.index == s.index[user := Members(s, user) - {r.sid}]
  {
    var one := Next(s, Advance(id));
    var two := Next(one, Advance(id));
    assert two.calls[id] == DropGet(s.calls[id].r.sid, Reuse(s.calls[id].r));
    AloneItDrops(two, id);
    TimesStep(one, id, 3);
    TimesStep(s, id, 4);
  }

  /** And one whose session is gone says so and changes nothing. */
  lemma AloneItExpires(s: System, id: CallId)
    requires id in s.calls && s.calls[id].RotateWatch? && s.calls[id].r.sid !in s.sessions
    ensures Allowed(s, Times(id, 2))
    ensures Run(s, Times(id, 2)) == s.(calls := s.calls[id := Done(SessionExpired(s.calls[id].r))])
  {
    var one := Next(s, Advance(id));
    var two := Next(one, Advance(id));
    assert Allowed(two, Times(id, 0)) && Run(two, Times(id, 0)) == two;
    TimesStep(one, id, 0);
    TimesStep(s, id, 1);
  }

  /** An invalidation of a live session, run alone, deletes it and its index entry. */
  lemma AloneItDrops(s: System, id: CallId)
    requires id in s.calls && s.calls[id].DropGet? && s.calls[id].sid in s.sessions
    ensures var sid := s.calls[id].sid;
            var user := s.sessions[sid].user;
            && Allowed(s, Times(id, 3))
            && var t := Run(s, Times(id, 3));
               && t.calls == s.calls[id := Done(Verdict(s.calls[id].cause))]
               && t.sessions == s.sessions - {sid}
               && t.index == s.index[user := Members(s, user) - {sid}]
  {
    var one := Next(s, Advance(id));
    var two := Next(one, Advance(id));
    var three := Next(two, Advance(id));
    assert Allowed(three, Times(id, 0)) && Run(three, Times(id, 0)) == three;
    TimesStep(two, id, 0);
    TimesStep(one, id, 1);
    TimesStep(s, id, 2);
  }

  /** A login, run alone, stores the session with its token id and indexes it. */
  lemma AloneItLogsIn(s: System, id: CallId)
    requires id in s.calls && s.calls[id].LoginSet?
    ensures var c := s.calls[id];
            && Allowed(s, Times(id, 2))
            && var t := Run(s, Times(id, 2));
               && t.calls == s.calls[id := Done(Finished)]
               && t.sessions == s.sessions[c.sid := Session(c.user, c.token)]
               && t.index == s.index[c.user := Members(s, c.user) + {c.sid}]
  {
    var one := Next(s, Advance(id));
    var two := Next(one, Advance(id));
    assert Allowed(two, Times(id, 0)) && Run(two, Times(id, 0)) == two;
    TimesStep(one, id, 0);
    TimesStep(s, id, 1);
  }

  lemma AloneKeepsIssued(s: System, id: CallId)
    requires id in s.calls && s.calls[id].LoginSet?
    ensures Allowed(s, Times(id, 2)) && Run(s, Times(id, 2)).issued == s.issued
  {
    var one := Next(s, Advance(id));
    var two := Next(one, Advance(id));
    assert Allowed(two, Times(id, 0)) && Run(two, Times(id, 0)) == two;
    TimesStep(one, id, 0);
    TimesStep(s, id, 1);
  }

  lemma StartedAloneItRotates(s: System, id: CallId, sid: SessionId, cur: TokenId, next: TokenId)
    requires Enabled(s, StartRotate(id, sid, cur, next)) && sid in s.sessions && s.sessions[sid].token == cur
    ensures var start := Next(s, StartRotate(id, sid, cur, next));
            && Allowed(start, Times(id, 3))
            && var t := Run(start, Times(id, 3));
               && t.sessions == s.sessions[sid := Session(s.sessions[sid].user, next)] && Succeeded(t, id, sid, cur)
               && t.index == s.index
  {
    AloneItRotates(Next(s, StartRotate(id, sid, cur, next)), id);
  }

  lemma SetTwice<K, V>(m: map<K, V>, k: K, first: V, second: V)
    ensures m[k := first][k := second] == m[k := second]
  {
  }

  /** A user who logs in and then refreshes with the token given, with nobody in between,
      gets the next token in the same session. */
  lemma LoginThenRotation(
    s: System, i: CallId, user: UserId, sid: SessionId, token: TokenId, j: CallId, next: TokenId)
    requires Enabled(s, StartLogin(i, user, sid, token)) && j !in s.calls && j != i
    requires next !in s.issued && next != token
    ensures var login := Next(s, StartLogin(i, user, sid, token));
            && Allowed(login, Times(i, 2))
            && var mid := Run(login, Times(i, 2));
               && Enabled(mid, StartRotate(j, sid, token, next))
               && var refresh := Next(mid, StartRotate(j, sid, token, next));
                  && Allowed(refresh, Times(j, 3))
                  && var t := Run(refresh, Times(j, 3));
                     && t.sessions == s.sessions[sid := Session(user, next)] && Succeeded(t, j, sid, token)
                     && t.index == s.index[user := Members(s, user) + {sid}]
  {
    var login := Next(s, StartLogin(i, user, sid, token));
    AloneItLogsIn(login, i);
    AloneKeepsIssued(login, i);
    var mid := Run(login, Times(i, 2));
    StartedAloneItRotates(mid, j, sid, token, next);
    SetTwice(s.sessions, sid, Session(user, token), Session(user, next));
  }

  lemma OneDropped(s: System, id: CallId)
    requires id in s.calls && s.calls[id].UserDel? && s.calls[id].at < |s.calls[id].read|
    ensures var c := s.calls[id]; var one := Next(s, Advance(id));
            && one.calls == s.calls[id := UserDel(c.user, c.read, c.at + 1)]
            && one.sessions == s.sessions - {c.read[c.at]} && one.index == s.index
  {
  }

  lemma SidsSplit(read: seq<SessionId>, at: nat, sessions: map<SessionId, Session>)
    requires at < |read|
    ensures sessions - {read[at]} - SidsOf(read[at + 1..]) == sessions - SidsOf(read[at..])
  {
    assert read[at..] == [read[at]] + read[at + 1..];
    assert SidsOf(read[at..]) == {read[at]} + SidsOf(read[at + 1..]);
  }

  lemma AloneItDropsTheIndex(s: System, id: CallId)
    requires id in s.calls && s.calls[id].UserDel? && s.calls[id].at == |s.calls[id].read|
    ensures var c := s.calls[id];
            && Allowed(s, Times(id, 2))
            && var t := Run(s, Times(id, 2));
               && t.calls == s.calls[id := Done(UserDropped(c.user, c.read))]
               && t.sessions == s.sessions && t.index == s.index - {c.user}
  {
    var one := Next(s, Advance(id));
    var two := Next(one, Advance(id));
    assert Allowed(two, Times(id, 0)) && Run(two, Times(id, 0)) == two;
    TimesStep(one, id, 0);
    TimesStep(s, id, 1);
  }

  /** An invalidation of all of a user's sessions, alone once it has read the members,
      deletes those keys, and no others, and the index. */
  lemma {:induction false} AloneItDropsAll(s: System, id: CallId)
    requires id in s.calls && s.calls[id].UserDel? && s.calls[id].at <= |s.calls[id].read|
    ensures var c := s.calls[id];
            var n := |c.read| - c.at + 2;
            && Allowed(s, Times(id, n))
            && var t := Run(s, Times(id, n));
               && t.calls == s.calls[id := Done(UserDropped(c.user, c.read))]
               && t.sessions == s.sessions - SidsOf(c.read[c.at..])
               && t.index == s.index - {c.user}
    decreases |s.calls[id].read| - s.calls[id].at
  {
    var c := s.calls[id];
    if c.at == |c.read| {
      AloneItDropsTheIndex(s, id);
      assert SidsOf(c.read[c.at..]) == {};
      assert s.sessions - {} == s.sessions;
    } else {
      OneDropped(s, id);
      AloneItDropsAll(Next(s, Advance(id)), id);
      TimesStep(s, id, |c.read| - c.at + 1);
      SidsSplit(c.read, c.at, s.sessions);
      SetTwice(s.calls, id, UserDel(c.user, c.read, c.at + 1), Done(UserDropped(c.user, c.read)));
    }
  }

  /** So, alone from the start, it deletes exactly the sessions its user's index lists. */
  lemma AloneItLogsOutAll(s: System, id: CallId, order: seq<SessionId>)
    requires id in s.calls && s.calls[id].UserMembers? && SidsOf(order) == Members(s, s.calls[id].user)
    ensures var user := s.calls[id].user;
            && Enabled(s, ReadMembers(id, order))
            && var begun := Next(s, ReadMembers(id, order));
               && Allowed(begun, Times(id, |order| + 2))
               && var t := Run(begun, Times(id, |order| + 2));
                  && t.calls == s.calls[id := Done(UserDropped(user, order))]
                  && t.sessions == s.sessions - Members(s, user) && t.index == s.index - {user}
  {
    var begun := Next(s, ReadMembers(id, order));
    AloneItDropsAll(begun, id);
    assert order[0..] == order;
    assert begun.calls[id := Done(UserDropped(s.calls[id].user, order))]
        == s.calls[id := Done(UserDropped(s.calls[id].user, order))];
  }

  /** A refused EXEC writes nothing; the call goes round again after its first and second. */
  lemma RefusedExec(s: System, id: CallId)
    requires id in s.calls && s.calls[id].RotateExec? && Version(s, s.calls[id].r.sid) != s.calls[id].watched
    ensures var r := s.calls[id].r;
            Next(s, Advance(id)) ==
              s.(calls := s.calls[id :=
                   if r.attempt == 0 || r.attempt == 1 then RotateWatch(r.(attempt := r.attempt + 1))
                   else Done(Conflict(r))])
  {
  }

  /** A session may expire at any moment, and every watcher of its key sees it. */
  lemma ExpiryMayStrike(s: System, sid: SessionId)
    ensures Allowed(s, [Expire(sid)])
    ensures var t := Run(s, [Expire(sid)]);
            && t.sessions == s.sessions - {sid} && t.calls == s.calls && t.index == s.index && t.held == s.held
            && (Version(t, sid) != Version(s, sid) <==> sid in s.sessions)
  {
    assert Run(s, [Expire(sid)]) == Next(s, Expire(sid)) by {
      assert [Expire(sid)][1..] == [];
    }
  }
}
