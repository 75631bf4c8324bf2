/**
 Sessions in Redis, methods run one at a time: the session keys, the per-user index, and
 the listing and bulk invalidation built on it. `owner` remembers, for the contracts
 only, whose every session id ever stored was.
 */
module SessionService {
  import opened Common

  datatype Session = Session(
    sid: string, user: string, tenant: Option<string>, role: string, audience: string,
    permissions: seq<string>, verifiedAt: Option<string>, token: string,
    createdAt: int, updatedAt: int, expiresAt: int)

  /** The listed part of a session: no token and no verification date. */
  datatype SafeRecord = SafeRecord(
    sid: string, user: string, tenant: Option<string>, role: string, audience: string,
    permissions: seq<string>, createdAt: int, updatedAt: int, expiresAt: int)

  function ToSafe(s: Session): SafeRecord {
    SafeRecord(s.sid, s.user, s.tenant, s.role, s.audience, s.permissions, s.createdAt, s.updatedAt, s.expiresAt)
  }

  /** The ids of each user's sessions. */
  type Index = map<string, set<string>>

  datatype Rotation = Rotation(
    sid: string, cur: string, next: string, role: string, permissions: seq<string>,
    verifiedAt: Option<string>, expiresAt: int)

  datatype RotateResult = Rotated(session: Session) | SessionExpired | ReuseDetected | Conflict

  /** What other processes did to the session key in some stretch of time: nothing; a
      delete; or another rotation's write at `at`, the last of any number. */
  datatype Meanwhile = Quiet | Deleted | Rewritten(other: Rotation, at: int)

  /** What other processes did around one attempt: since the last command before its WATCH,
      between WATCH and GET, and between GET and EXEC. */
  datatype Attempt = Attempt(beforeWatch: Meanwhile, beforeGet: Meanwhile, beforeExec: Meanwhile)

  function RotatedSession(s: Session, r: Rotation, now: int): Session {
    s.(role := r.role, permissions := r.permissions, verifiedAt := r.verifiedAt, token := r.next,
       expiresAt := r.expiresAt, updatedAt := now)
  }

  // ----- Newest first -----

  predicate NewestFirst(rs: seq<SafeRecord>) {
    forall i, j :: 0 <= i < j < |rs| ==> rs[i].updatedAt >= rs[j].updatedAt
  }

  /** Array.prototype.sort by updated_at, newest first; equal ones keep their order. */
  function SortNewest(rs: seq<SafeRecord>): seq<SafeRecord>
    decreases |rs|
  {
    if rs == [] then [] else InsertNewest(SortNewest(rs[..|rs| - 1]), rs[|rs| - 1])
  }

  function InsertNewest(rs: seq<SafeRecord>, r: SafeRecord): seq<SafeRecord>
    decreases |rs|
  {
    if rs == [] || rs[|rs| - 1].updatedAt >= r.updatedAt then rs + [r]
    else InsertNewest(rs[..|rs| - 1], r) + [rs[|rs| - 1]]
  }

  lemma {:induction false} InsertNewestKeeps(rs: seq<SafeRecord>, r: SafeRecord)
    ensures multiset(InsertNewest(rs, r)) == multiset(rs) + multiset{r}
    decreases |rs|
  {
    if rs != [] && rs[|rs| - 1].updatedAt < r.updatedAt {
      InsertNewestKeeps(rs[..|rs| - 1], r);
      assert rs == rs[..|rs| - 1] + [rs[|rs| - 1]];
    }
  }

  predicate NoneOlder(rs: seq<SafeRecord>, at: int) {
    forall i :: 0 <= i < |rs| ==> rs[i].updatedAt >= at
  }

  lemma InsertNewestStaysYoung(rs: seq<SafeRecord>, r: SafeRecord, at: int)
    requires NoneOlder(rs, at) && r.updatedAt >= at
    ensures NoneOlder(InsertNewest(rs, r), at)
  {
    InsertNewestKeeps(rs, r);
    var t := InsertNewest(rs, r);
    forall i | 0 <= i < |t| ensures t[i].updatedAt >= at {
      assert t[i] in multiset(t);
      assert t[i] == r || t[i] in rs;
    }
  }

  lemma NewestFirstEnds(rs: seq<SafeRecord>, r: SafeRecord)
    requires NewestFirst(rs) && NoneOlder(rs, r.updatedAt)
    ensures NewestFirst(rs + [r])
  {
  }

  lemma {:induction false} InsertNewestSorts(rs: seq<SafeRecord>, r: SafeRecord)
    requires NewestFirst(rs)
    ensures NewestFirst(InsertNewest(rs, r)) && multiset(InsertNewest(rs, r)) == multiset(rs) + multiset{r}
    decreases |rs|
  {
    InsertNewestKeeps(rs, r);
    if rs != [] && rs[|rs| - 1].updatedAt < r.updatedAt {
      InsertNewestSorts(rs[..|rs| - 1], r);
      InsertNewestStaysYoung(rs[..|rs| - 1], r, rs[|rs| - 1].updatedAt);
      NewestFirstEnds(InsertNewest(rs[..|rs| - 1], r), rs[|rs| - 1]);
    } else {
      NewestFirstEnds(rs, r);
    }
  }

  lemma {:induction false} SortNewestSorts(rs: seq<SafeRecord>)
    ensures NewestFirst(SortNewest(rs)) && multiset(SortNewest(rs)) == multiset(rs)
    decreases |rs|
  {
    if rs != [] {
      SortNewestSorts(rs[..|rs| - 1]);
      InsertNewestSorts(SortNewest(rs[..|rs| - 1]), rs[|rs| - 1]);
      assert rs == rs[..|rs| - 1] + [rs[|rs| - 1]];
    }
  }

  ghost predicate Listed(rs: seq<SafeRecord>, sid: string) {
    exists i :: 0 <= i < |rs| && rs[i].sid == sid
  }

  /** `rs` lists the records of exactly the sessions `ids`, each once. */
  ghost predicate Lists(rs: seq<SafeRecord>, ids: set<string>, sessions: map<string, Session>) {
    && (forall i :: 0 <= i < |rs| ==>
          rs[i].sid in ids && rs[i].sid in sessions && rs[i] == ToSafe(sessions[rs[i].sid]))
    && (forall sid {:trigger Listed(rs, sid)} :: sid in ids ==> Listed(rs, sid))
    && (forall i, j :: 0 <= i < j < |rs| ==> rs[i].sid != rs[j].sid)
  }

  lemma SortKeepsListing(rs: seq<SafeRecord>, ids: set<string>, sessions: map<string, Session>)
    requires Lists(rs, ids, sessions)
    ensures Lists(SortNewest(rs), ids, sessions)
  {
    var ts := SortNewest(rs);
    SortNewestSorts(rs);
    forall i | 0 <= i < |ts|
      ensures ts[i].sid in ids && ts[i].sid in sessions && ts[i] == ToSafe(sessions[ts[i].sid])
    {
      assert ts[i] in multiset(rs);
      assert ts[i] in rs;
    }
    forall sid | sid in ids ensures Listed(ts, sid) {
      assert Listed(rs, sid);
      var i :| 0 <= i < |rs| && rs[i].sid == sid;
      assert rs[i] in multiset(ts);
      assert rs[i] in ts;
    }
    forall i, j | 0 <= i < j < |ts| ensures ts[i].sid != ts[j].sid {
      if ts[i].sid == ts[j].sid {
        assert ts[i] == ts[j];
        TwiceInMultiset(ts, i, j);
        OnceInMultiset(rs, ts[i]);
      }
    }
  }

  lemma TwiceInMultiset(ts: seq<SafeRecord>, i: nat, j: nat)
    requires i < j < |ts| && ts[i] == ts[j]
    ensures multiset(ts)[ts[i]] >= 2
  {
    assert ts == ts[..i] + [ts[i]] + ts[i + 1..j] + [ts[j]] + ts[j + 1..];
  }

  lemma {:induction false} OnceInMultiset(rs: seq<SafeRecord>, r: SafeRecord)
    requires forall i, j :: 0 <= i < j < |rs| ==> rs[i].sid != rs[j].sid
    ensures multiset(rs)[r] <= 1
    decreases |rs|
  {
    if rs != [] {
      assert rs == [rs[0]] + rs[1..];
      OnceInMultiset(rs[1..], r);
      if rs[0] == r {
        assert r !in rs[1..];
      }
    }
  }

  lemma ListsOneMore(rs: seq<SafeRecord>, ids: set<string>, sessions: map<string, Session>, sid: string)
    requires Lists(rs, ids, sessions) && sid !in ids && sid in sessions && sessions[sid].sid == sid
    ensures Lists(rs + [ToSafe(sessions[sid])], ids + {sid}, sessions)
  {
    var ts := rs + [ToSafe(sessions[sid])];
    forall x | x in ids + {sid} ensures Listed(ts, x) {
      if x in ids {
        assert Listed(rs, x);
        var i :| 0 <= i < |rs| && rs[i].sid == x;
        assert ts[i].sid == x;
      } else {
        assert ts[|rs|].sid == x;
      }
    }
  }

  // ----- Rotation -----

  const ATTEMPTS := 3

  /** The session key once others have been at it. Nobody stores a session under an id that
      was deleted. */
  function After(session: Option<Session>, m: Meanwhile): Option<Session> {
    match m
    case Quiet => session
    case Deleted => None
    case Rewritten(other, at) => if session.Some? then Some(RotatedSession(session.value, other, at)) else None
  }

  /** What the attempt's GET finds. */
  function Seen(session: Option<Session>, a: Attempt): Option<Session> {
    After(After(session, a.beforeWatch), a.beforeGet)
  }

  /** Nobody wrote the key after the attempt's WATCH, so its EXEC applies. */
  predicate Undisturbed(a: Attempt) {
    a.beforeGet.Quiet? && a.beforeExec.Quiet?
  }

  predicate Holds(session: Option<Session>, token: string) {
    session.Some? && session.value.token == token
  }

  /** One attempt: the verdict, or none when its EXEC is refused; and the key it leaves. */
  function Attempted(session: Option<Session>, r: Rotation, now: int, a: Attempt):
    (Option<RotateResult>, Option<Session>)
  {
    var seen := Seen(session, a);
    if seen.None? then (Some(SessionExpired), None)
    else if seen.value.token != r.cur then (Some(ReuseDetected), None)
    else if Undisturbed(a) then
      var next := RotatedSession(seen.value, r, now);
      (Some(Rotated(next)), Some(next))
    else (None, After(seen, a.beforeExec))
  }

  /** Result of the attempts that are left, and the session key they leave. */
  function RotationFrom(session: Option<Session>, r: Rotation, now: int, others: seq<Attempt>):
    (RotateResult, Option<Session>)
    decreases |others|
  {
    if others == [] then (Conflict, session)
    else
      var (verdict, left) := Attempted(session, r, now, others[0]);
      if verdict.Some? then (verdict.value, left) else RotationFrom(left, r, now, others[1..])
  }

  /** What the GET of attempt `k` finds if none of the attempts before it ends the call: the
      key as the other processes alone have left it. */
  function SeenAt(session: Option<Session>, others: seq<Attempt>, k: nat): Option<Session>
    requires k < |others|
    decreases k
  {
    if k == 0 then Seen(session, others[0])
    else SeenAt(After(Seen(session, others[0]), others[0].beforeExec), others[1..], k - 1)
  }

  /** Attempt `i` finds the presented token id, and its EXEC is refused. */
  predicate GoesRound(session: Option<Session>, r: Rotation, others: seq<Attempt>, i: nat)
    requires i < |others|
  {
    Holds(SeenAt(session, others, i), r.cur) && !Undisturbed(others[i])
  }

  /** The call is still trying at attempt `k`. */
  ghost predicate Reaches(session: Option<Session>, r: Rotation, others: seq<Attempt>, k: nat)
    requires k <= |others|
  {
    forall i :: 0 <= i < k ==> GoesRound(session, r, others, i)
  }

  lemma ReachesOneMore(session: Option<Session>, r: Rotation, others: seq<Attempt>, k: nat)
    requires k < |others| && GoesRound(session, r, others, 0)
    ensures var next := After(Seen(session, others[0]), others[0].beforeExec);
            Reaches(session, r, others, k + 1) <==> Reaches(next, r, others[1..], k)
  {
    var next := After(Seen(session, others[0]), others[0].beforeExec);
    if Reaches(session, r, others, k + 1) {
      forall i | 0 <= i < k ensures GoesRound(next, r, others[1..], i) {
        assert GoesRound(session, r, others, i + 1);
      }
    }
    if Reaches(next, r, others[1..], k) {
      forall i | 0 <= i < k + 1 ensures GoesRound(session, r, others, i) {
        assert i > 0 ==> GoesRound(next, r, others[1..], i - 1);
      }
    }
  }

  /** The first attempt whose EXEC is not refused, or whose GET does not find the presented
      token id, decides the call; without one it gives up. */
  lemma {:induction false} DecidedBy(session: Option<Session>, r: Rotation, now: int, others: seq<Attempt>)
    returns (k: nat)
    ensures k <= |others| && Reaches(session, r, others, k)
    ensures var result := RotationFrom(session, r, now, others).0;
            if k == |others| then result == Conflict
            else
              var seen := SeenAt(session, others, k);
              !GoesRound(session, r, others, k)
              && result == if seen.None? then SessionExpired
                           else if seen.value.token != r.cur then ReuseDetected
                           else Rotated(RotatedSession(seen.value, r, now))
    decreases |others|
  {
    if others == [] || !GoesRound(session, r, others, 0) {
      k := 0;
    } else {
      var next := After(Seen(session, others[0]), others[0].beforeExec);
      k := DecidedBy(next, r, now, others[1..]);
      ReachesOneMore(session, r, others, k);
      k := k + 1;
    }
  }

  /** No attempt goes further than the first that ends the call. */
  lemma OneDecides(session: Option<Session>, r: Rotation, others: seq<Attempt>, k: nat, l: nat)
    requires k < |others| && Reaches(session, r, others, k) && !GoesRound(session, r, others, k)
    requires l <= |others| && Reaches(session, r, others, l) && (l < |others| ==> !GoesRound(session, r, others, l))
    ensures k == l
  {
  }

  /** The loop gives up exactly when every attempt finds the presented token id and has its
      EXEC refused. */
  lemma ConflictIffTokenRewritten(session: Option<Session>, r: Rotation, now: int, others: seq<Attempt>)
    ensures RotationFrom(session, r, now, others).0.Conflict? <==> Reaches(session, r, others, |others|)
  {
    var k := DecidedBy(session, r, now, others);
  }

  /** A rotation presented with a token id that another rotation's write or the session
      itself has overtaken by the time of some GET, with every earlier attempt refused,
      reports reuse, and so ends the session; nothing else makes it. */
  lemma ReuseDetectedIff(session: Option<Session>, r: Rotation, now: int, others: seq<Attempt>)
    ensures RotationFrom(session, r, now, others).0.ReuseDetected? <==>
              exists k :: 0 <= k < |others| && Reaches(session, r, others, k)
                          && SeenAt(session, others, k).Some? && !Holds(SeenAt(session, others, k), r.cur)
  {
    var k := DecidedBy(session, r, now, others);
    if l :| 0 <= l < |others| && Reaches(session, r, others, l)
            && SeenAt(session, others, l).Some? && !Holds(SeenAt(session, others, l), r.cur) {
      OneDecides(session, r, others, l, k);
    }
  }

  /** A rotation succeeds exactly when some GET finds the presented token id, its EXEC is not
      refused, and every attempt before it went round. */
  lemma RotatesIff(session: Option<Session>, r: Rotation, now: int, others: seq<Attempt>)
    ensures RotationFrom(session, r, now, others).0.Rotated? <==>
              exists k :: 0 <= k < |others| && Reaches(session, r, others, k)
                          && Holds(SeenAt(session, others, k), r.cur) && Undisturbed(others[k])
  {
    var k := DecidedBy(session, r, now, others);
    if l :| 0 <= l < |others| && Reaches(session, r, others, l)
            && Holds(SeenAt(session, others, l), r.cur) && Undisturbed(others[l]) {
      OneDecides(session, r, others, l, k);
    }
  }

  /** The same session: its id, owner, tenant, audience and date of creation. */
  predicate SameIdentity(was: Session, next: Session) {
    && next.sid == was.sid && next.user == was.user && next.tenant == was.tenant
    && next.audience == was.audience && next.createdAt == was.createdAt
  }

  lemma SeenKeepsIdentity(session: Option<Session>, a: Attempt)
    ensures Seen(session, a).Some? ==> session.Some? && SameIdentity(session.value, Seen(session, a).value)
  {
  }

  /** What a successful rotation stores and returns: the same session with everything the
      call brought, whatever others wrote before. */
  lemma {:induction false} RotationRenews(session: Option<Session>, r: Rotation, now: int, others: seq<Attempt>)
    requires RotationFrom(session, r, now, others).0.Rotated?
    ensures var (result, left) := RotationFrom(session, r, now, others);
            var next := result.session;
            && session.Some? && left == Some(next) && SameIdentity(session.value, next)
            && next.token == r.next && next.role == r.role && next.permissions == r.permissions
            && next.verifiedAt == r.verifiedAt && next.expiresAt == r.expiresAt && next.updatedAt == now
    decreases |others|
  {
    SeenKeepsIdentity(session, others[0]);
    if Attempted(session, r, now, others[0]).0.None? {
      RotationRenews(Attempted(session, r, now, others[0]).1, r, now, others[1..]);
    }
  }

  /** A listed record is the session's, and tells nothing of its token or verification. */
  lemma SafeRecordIsTheSession(s: Session, token: string, verifiedAt: Option<string>)
    ensures var r := ToSafe(s);
            && r.sid == s.sid && r.user == s.user && r.tenant == s.tenant && r.role == s.role
            && r.audience == s.audience && r.permissions == s.permissions
            && r.createdAt == s.createdAt && r.updatedAt == s.updatedAt && r.expiresAt == s.expiresAt
            && ToSafe(s.(token := token, verifiedAt := verifiedAt)) == r
  {
  }

  predicate Writes(m: Meanwhile, token: string) {
    m.Rewritten? && m.other.next == token
  }

  /** No other process writes `token`: rotations draw fresh ids. */
  predicate NeverWrites(others: seq<Attempt>, token: string) {
    forall i :: 0 <= i < |others| ==>
      && !Writes(others[i].beforeWatch, token) && !Writes(others[i].beforeGet, token)
      && !Writes(others[i].beforeExec, token)
  }

  /** EXEC of attempt `k` is the first refused by a write that replaced the token id. */
  predicate OvertakenAt(others: seq<Attempt>, token: string, k: nat)
    requires k < |others|
  {
    && (forall i :: 0 <= i < k ==> Writes(others[i].beforeExec, token))
    && others[k].beforeExec.Rewritten? && !Writes(others[k].beforeExec, token)
  }

  predicate OnlyBeforeExec(others: seq<Attempt>) {
    forall i :: 0 <= i < |others| ==> others[i].beforeWatch.Quiet? && others[i].beforeGet.Quiet?
  }

  /** When others write only between GET and EXEC: reuse is reported exactly when the session
      has another token id from the start, or some EXEC but the last is refused by a write of
      another id, with only writes of the presented id before it. */
  lemma {:induction false} OvertakenIff(session: Session, r: Rotation, now: int, others: seq<Attempt>)
    requires others != [] && OnlyBeforeExec(others)
    ensures RotationFrom(Some(session), r, now, others).0.ReuseDetected? <==>
              session.token != r.cur || exists k :: 0 <= k < |others| - 1 && OvertakenAt(others, r.cur, k)
    decreases |others|
  {
    var m := others[0].beforeExec;
    if session.token == r.cur && m.Rewritten? && |others| > 1 {
      var next := RotatedSession(session, m.other, m.at);
      OvertakenIff(next, r, now, others[1..]);
      if m.other.next != r.cur {
        assert OvertakenAt(others, r.cur, 0);
      } else {
        OvertakenLater(others, r.cur);
      }
    }
  }

  lemma OvertakenLater(others: seq<Attempt>, token: string)
    requires |others| > 1 && Writes(others[0].beforeExec, token)
    ensures (exists k :: 0 <= k < |others| - 1 && OvertakenAt(others, token, k)) <==>
            (exists k :: 0 <= k < |others[1..]| - 1 && OvertakenAt(others[1..], token, k))
  {
    if k :| 0 <= k < |others| - 1 && OvertakenAt(others, token, k) {
      assert OvertakenAt(others[1..], token, k - 1);
    }
    if k :| 0 <= k < |others[1..]| - 1 && OvertakenAt(others[1..], token, k) {
      assert forall i :: 1 <= i < |others| ==> others[i] == others[1..][i - 1];
      assert OvertakenAt(others, token, k + 1);
    }
  }

  /** With fresh token ids a second attempt never finds the presented id: the call goes round
      at most once, and it never gives up. */
  lemma {:induction false} FreshTokensGoRoundOnce(session: Option<Session>, r: Rotation, now: int, others: seq<Attempt>)
    requires |others| >= 2 && NeverWrites(others, r.cur)
    ensures !GoesRound(session, r, others, 0) || !Holds(SeenAt(session, others, 1), r.cur)
    ensures !RotationFrom(session, r, now, others).0.Conflict?
  {
    if GoesRound(session, r, others, 0) {
      assert others[0].beforeGet.Quiet? && !others[0].beforeExec.Quiet?;
      var next := After(Seen(session, others[0]), others[0].beforeExec);
      assert SeenAt(session, others, 1) == Seen(next, others[1..][0]);
      assert !Holds(next, r.cur);
    }
    ConflictIffTokenRewritten(session, r, now, others);
    assert Reaches(session, r, others, |others|) ==>
             GoesRound(session, r, others, 0) && GoesRound(session, r, others, 1);
  }

  /** Losing the race to another rotation ends the session: the loser goes round, finds the
      winner's token id and deletes the key, unless somebody deleted it first. */
  lemma {:induction false} LoserEndsTheSession(session: Session, r: Rotation, now: int, others: seq<Attempt>)
    requires |others| >= 2 && NeverWrites(others, r.cur) && GoesRound(Some(session), r, others, 0)
    ensures RotationFrom(Some(session), r, now, others).1 == None
    ensures RotationFrom(Some(session), r, now, others).0 ==
            if SeenAt(Some(session), others, 1).Some? then ReuseDetected else SessionExpired
  {
    FreshTokensGoRoundOnce(Some(session), r, now, others);
    var next := After(Seen(Some(session), others[0]), others[0].beforeExec);
    assert SeenAt(Some(session), others, 1) == Seen(next, others[1..][0]);
    assert RotationFrom(Some(session), r, now, others) == RotationFrom(next, r, now, others[1..]);
  }

  /** The store with one key set or deleted. */
  function Put(sessions: map<string, Session>, sid: string, session: Option<Session>): map<string, Session> {
    if session.Some? then sessions[sid := session.value] else sessions - {sid}
  }

  lemma PutTwice(sessions: map<string, Session>, sid: string, first: Option<Session>, second: Option<Session>)
    ensures Put(Put(sessions, sid, first), sid, second) == Put(sessions, sid, second)
  {
  }

  // ----- Sessions and their index -----

  function MembersIn(index: Index, user: string): set<string> {
    if user in index then index[user] else {}
  }

  /** The session, if it is still there, is the same user's. */
  predicate SameUser(was: Option<Session>, session: Option<Session>) {
    session.Some? ==> was.Some? && session.value.user == was.value.user
  }

  /** The id leaves the index of the user whose session it was, and no other. */
  ghost predicate IndexDrops(was: Index, index: Index, session: Option<Session>, sid: string) {
    forall user :: MembersIn(index, user) ==
      if session.Some? && session.value.user == user then MembersIn(was, user) - {sid} else MembersIn(was, user)
  }

  ghost predicate OnlyDiffersAt(index: Index, was: Index, user: string) {
    forall other :: other != user ==>
      (other in index <==> other in was) && (other in index ==> index[other] == was[other])
  }

  /** The user's live sessions. */
  function LiveIn(sessions: map<string, Session>, user: string): set<string> {
    set sid | sid in sessions && sessions[sid].user == user
  }

  /** Every live session is in its user's index, and an index names its own user's only. */
  ghost predicate Consistent(sessions: map<string, Session>, index: Index, owner: map<string, string>) {
    && (forall sid :: sid in sessions ==>
          sessions[sid].sid == sid && sid in owner && owner[sid] == sessions[sid].user
          && sid in MembersIn(index, sessions[sid].user))
    && (forall user, sid :: user in index && sid in index[user] ==> sid in owner && owner[sid] == user)
  }

  /** Deleting the keys an index names deletes exactly the user's live sessions. */
  lemma IndexNamesTheLive(sessions: map<string, Session>, index: Index, owner: map<string, string>, user: string)
    requires Consistent(sessions, index, owner)
    ensures LiveIn(sessions, user) <= MembersIn(index, user)
    ensures sessions - MembersIn(index, user) == sessions - LiveIn(sessions, user)
    ensures forall sid :: sid in MembersIn(index, user) && sid in sessions ==> sessions[sid].user == user
  {
    forall sid | sid in MembersIn(index, user) && sid in sessions ensures sessions[sid].user == user {
      assert sid in index[user];
    }
  }

  lemma InvalidationKeepsConsistent(
    sessions: map<string, Session>, index: Index, owner: map<string, string>, user: string)
    requires Consistent(sessions, index, owner)
    ensures Consistent(sessions - LiveIn(sessions, user), index - {user}, owner)
    ensures LiveIn(sessions - LiveIn(sessions, user), user) == {}
  {
    var kept := sessions - LiveIn(sessions, user);
    forall sid | sid in kept ensures sid in MembersIn(index - {user}, kept[sid].user) {
      assert kept[sid] == sessions[sid];
    }
  }

  /** Half-way through a listing: `todo` of `all` is to be visited; of the rest, the live
      ones are listed and kept in the index. */
  ghost predicate Swept(all: set<string>, todo: set<string>, listed: set<string>, members: set<string>,
                        live: set<string>) {
    todo <= all && listed == (all - todo) * live && members == todo + listed
  }

  lemma SweptOne(all: set<string>, todo: set<string>, listed: set<string>, members: set<string>, live: set<string>,
                 sid: string)
    requires Swept(all, todo, listed, members, live) && sid in todo
    ensures sid in live ==> sid !in listed && Swept(all, todo - {sid}, listed + {sid}, members, live)
    ensures sid !in live ==> Swept(all, todo - {sid}, listed, members - {sid}, live)
  {
  }

  // ----- The service -----

  class SessionStore {
    var sessions: map<string, Session>
    var index: Index
    var versions: map<string, nat>
    ghost var owner: map<string, string>

    constructor ()
      ensures Valid() && sessions == map[] && index == map[] && owner == map[]
    {
      sessions, index, versions, owner := map[], map[], map[], map[];
    }

    function Members(user: string): set<string>
      reads this`index
    {
      MembersIn(index, user)
    }

    function Live(user: string): set<string>
      reads this`sessions
    {
      LiveIn(sessions, user)
    }

    ghost predicate Valid()
      reads this
    {
      Consistent(sessions, index, owner)
    }

    function GetSession(sid: string): Option<Session>
      reads this`sessions
    {
      if sid in sessions then Some(sessions[sid]) else None
    }

    function Version(sid: string): nat
      reads this`versions
    {
      if sid in versions then versions[sid] else 0
    }

    method Set(sid: string, session: Session)
      modifies `sessions, `versions
      ensures sessions == old(sessions)[sid := session]
      ensures Version(sid) == old(Version(sid)) + 1
    {
      sessions := sessions[sid := session];
      versions := versions[sid := Version(sid) + 1];
    }

    method Del(sid: string)
      modifies `sessions, `versions
      ensures sessions == old(sessions) - {sid}
      ensures Version(sid) == old(Version(sid)) + if sid in old(sessions) then 1 else 0
    {
      if sid in sessions {
        versions := versions[sid := Version(sid) + 1];
      }
      sessions := sessions - {sid};
    }

    method CreateSession(session: Session)
      requires Valid() && session.sid !in owner
      modifies this
      ensures Valid() && sessions == old(sessions)[session.sid := session]
      ensures owner == old(owner)[session.sid := session.user]
      ensures index == old(index)[session.user := old(Members(session.user)) + {session.sid}]
    {
      Set(session.sid, session);
      owner := owner[session.sid := session.user];
      index := index[session.user := Members(session.user) + {session.sid}];
    }

    method InvalidateSession(sid: string)
      requires Valid()
      modifies `sessions, `versions, `index
      ensures Valid() && sessions == old(sessions) - {sid}
      ensures IndexDrops(old(index), index, old(GetSession(sid)), sid)
    {
      var session := GetSession(sid);
      Del(sid);
      if session.Some? {
        index := index[session.value.user := Members(session.value.user) - {sid}];
      }
    }

    /** A session key whose TTL runs out; the index keeps the id until someone lists it. */
    method Expire(sid: string)
      requires Valid()
      modifies `sessions, `versions
      ensures Valid() && sessions == old(sessions) - {sid}
    {
      Del(sid);
    }

    /** One DEL per id, as the service loops over the members it read. */
    method DelAll(ids: set<string>)
      modifies `sessions, `versions
      ensures sessions == old(sessions) - ids
    {
      var todo := ids;
      while todo != {}
        invariant todo <= ids && sessions == old(sessions) - (ids - todo)
        decreases |todo|
      {
        var sid :| sid in todo;
        Del(sid);
        assert (ids - todo) + {sid} == ids - (todo - {sid});
        todo := todo - {sid};
      }
    }

    method InvalidateUserSessions(user: string)
      requires Valid()
      modifies `sessions, `versions, `index
      ensures Valid() && Live(user) == {} && Members(user) == {}
      ensures sessions == old(sessions) - old(Live(user))
      ensures index == old(index) - {user}
    {
      IndexNamesTheLive(sessions, index, owner, user);
      InvalidationKeepsConsistent(sessions, index, owner, user);
      var sessionIds := Members(user);
      DelAll(sessionIds);
      index := index - {user};
    }

    /** One turn of the listing loop: a GET, then an SREM if the session is gone. */
    method ListOne(user: string, sid: string, records: seq<SafeRecord>,
                   ghost all: set<string>, ghost todo: set<string>, ghost listed: set<string>)
      returns (more: seq<SafeRecord>, ghost moreListed: set<string>)
      requires Swept(all, todo, listed, Members(user), sessions.Keys) && sid in todo
      requires Lists(records, listed, sessions) && (sid in sessions ==> sessions[sid].sid == sid)
      modifies `index
      ensures Swept(all, todo - {sid}, moreListed, Members(user), sessions.Keys)
      ensures OnlyDiffersAt(index, old(index), user)
      ensures Lists(more, moreListed, sessions)
    {
      SweptOne(all, todo, listed, Members(user), sessions.Keys, sid);
      more, moreListed := records, listed;
      if sid !in sessions {
        index := index[user := Members(user) - {sid}];
      } else {
        ListsOneMore(records, listed, sessions, sid);
        more, moreListed := records + [ToSafe(sessions[sid])], listed + {sid};
      }
    }

    method CollectListed(user: string) returns (records: seq<SafeRecord>)
      requires forall sid :: sid in Members(user) && sid in sessions ==> sessions[sid].sid == sid
      modifies `index
      ensures Members(user) == old(Members(user)) * sessions.Keys
      ensures OnlyDiffersAt(index, old(index), user)
      ensures Lists(records, Members(user), sessions)
    {
      ghost var all, listed := Members(user), {};
      var todo := Members(user);
      records := [];
      while todo != {}
        invariant Swept(all, todo, listed, Members(user), sessions.Keys)
        invariant OnlyDiffersAt(index, old(index), user)
        invariant Lists(records, listed, sessions)
        decreases |todo|
      {
        var sid :| sid in todo;
        records, listed := ListOne(user, sid, records, all, todo, listed);
        todo := todo - {sid};
      }
    }

    method ListUserSessions(user: string) returns (records: seq<SafeRecord>)
      requires Valid()
      modifies `index
      ensures Valid() && Members(user) == Live(user)
      ensures Lists(records, Live(user), sessions) && NewestFirst(records)
      ensures forall other :: other != user ==> Members(other) == old(Members(other))
    {
      IndexNamesTheLive(sessions, index, owner, user);
      records := CollectListed(user);
      assert Members(user) == Live(user);
      SortKeepsListing(records, Live(user), sessions);
      SortNewestSorts(records);
      records := SortNewest(records);
    }

    /** SET of a live session's key to another version of the same session. */
    method Overwrite(sid: string, session: Session)
      requires Valid() && sid in sessions && session.sid == sid && session.user == sessions[sid].user
      modifies `sessions, `versions
      ensures Valid() && sessions == old(sessions)[sid := session]
      ensures Version(sid) == old(Version(sid)) + 1
    {
      Set(sid, session);
    }

    /** `others[k]` is what other processes do to the key around attempt k. A reuse verdict
        takes the id out of its user's index; nothing else touches an index. */
    method RotateRefreshToken(r: Rotation, now: int, others: seq<Attempt>) returns (result: RotateResult)
      requires Valid() && |others| == 3
      modifies `sessions, `versions, `index
      ensures Valid()
      ensures var outcome := RotationFrom(old(GetSession(r.sid)), r, now, others);
        result == outcome.0 && sessions == Put(old(sessions), r.sid, outcome.1)
      ensures if result.ReuseDetected? then IndexDrops(old(index), index, old(GetSession(r.sid)), r.sid)
              else index == old(index)
    {
      var attempt := 0;
      while attempt < ATTEMPTS
        invariant 0 <= attempt <= ATTEMPTS && Valid() && index == old(index)
        invariant RotationFrom(GetSession(r.sid), r, now, others[attempt..])
               == RotationFrom(old(GetSession(r.sid)), r, now, others)
        invariant sessions == Put(old(sessions), r.sid, GetSession(r.sid))
        invariant SameUser(old(GetSession(r.sid)), GetSession(r.sid))
      {
        ghost var before := GetSession(r.sid);
        var verdict := AttemptRotation(r, now, others[attempt]);
        PutTwice(old(sessions), r.sid, before, GetSession(r.sid));
        assert others[attempt..][1..] == others[attempt + 1..];
        if verdict.Some? {
          return verdict.value;
        }
        attempt := attempt + 1;
      }
      return Conflict;
    }

    /** WATCH, GET, the checks and EXEC, once. */
    method AttemptRotation(r: Rotation, now: int, a: Attempt) returns (verdict: Option<RotateResult>)
      requires Valid()
      modifies `sessions, `versions, `index
      ensures Valid() && (verdict, GetSession(r.sid)) == Attempted(old(GetSession(r.sid)), r, now, a)
      ensures sessions == Put(old(sessions), r.sid, GetSession(r.sid))
      ensures SameUser(old(GetSession(r.sid)), GetSession(r.sid))
      ensures if verdict == Some(ReuseDetected) then IndexDrops(old(index), index, old(GetSession(r.sid)), r.sid)
              else index == old(index)
    {
      Interfere(r.sid, a.beforeWatch);
      var watched := Version(r.sid);
      Interfere(r.sid, a.beforeGet);
      PutTwice(old(sessions), r.sid, After(old(GetSession(r.sid)), a.beforeWatch), GetSession(r.sid));
      if r.sid !in sessions {
        return Some(SessionExpired);
      }
      var current := sessions[r.sid];
      if current.token != r.cur {
        PutTwice(old(sessions), r.sid, Some(current), None);
        InvalidateSession(r.sid);
        return Some(ReuseDetected);
      }
      Interfere(r.sid, a.beforeExec);
      ghost var meanwhile := GetSession(r.sid);
      PutTwice(old(sessions), r.sid, Some(current), meanwhile);
      if Version(r.sid) != watched {
        return None;
      }
      var next := RotatedSession(current, r, now);
      PutTwice(old(sessions), r.sid, meanwhile, Some(next));
      Overwrite(r.sid, next);
      return Some(Rotated(next));
    }

    /** Other processes at the session key. */
    method Interfere(sid: string, m: Meanwhile)
      requires Valid()
      modifies `sessions, `versions
      ensures Valid() && GetSession(sid) == After(old(GetSession(sid)), m)
      ensures sessions == Put(old(sessions), sid, GetSession(sid))
      ensures SameUser(old(GetSession(sid)), GetSession(sid))
      ensures Version(sid) == old(Version(sid)) + if m.Quiet? || sid !in old(sessions) then 0 else 1
    {
      match m {
        case Quiet =>
        case Deleted => Del(sid);
        case Rewritten(other, at) =>
          if sid in sessions {
            Overwrite(sid, RotatedSession(sessions[sid], other, at));
          }
      }
    }
  }
}
