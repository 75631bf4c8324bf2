/**
 Nested database work of one request: `query`, `withRequestTransaction` and `withClient`
 join the client the request context holds, or open a session of their own.

 The database follows PostgreSQL: a failed statement aborts the transaction, every later
 statement in it fails, and a COMMIT of an aborted transaction succeeds as a rollback.
 */
module RequestTransactions {
  import opened Common

  type Write = string
  type Client = nat

  /** Which statements of a session of its own fail: the connect, the BEGIN with its SET
      LOCALs, and the COMMIT. (A failing ROLLBACK changes only which error is thrown.) */
  datatype Faults = Faults(connect: bool, begin: bool, commit: bool)

  /** What a request does with the database service. */
  datatype Program =
    | Skip
    | Throw
    | Query(write: Write, fails: bool, faults: Faults)
    | Transaction(body: Program, faults: Faults)
    | WithClient(body: Program, faults: Faults)
    | Seq(first: Program, second: Program)
    | TryCatch(body: Program, handler: Program)

  datatype Outcome = Returned | Threw

  datatype Event =
    | Acquired(c: Client)
    | Begin(c: Client)
    | Wrote(c: Client, write: Write)
    | QueryFailed(c: Client)
    | Commit(c: Client)
    | CommitFailed(c: Client)
    | Rollback(c: Client)
    | Released(c: Client)

  /** The request context's client; the state of its transaction; what other sessions can
      see; and the statements sent so far. */
  datatype State = State(
    client: Option<Client>, next: Client,
    pending: seq<Write>, aborted: bool, visible: seq<Write>, log: seq<Event>)

  // ----- The meaning of a program -----

  function Log(s: State, e: Event): State {
    s.(log := s.log + [e])
  }

  /** A statement on the client in the context. */
  function Statement(s: State, c: Client, write: Write, fails: bool): (State, Outcome) {
    if s.aborted || fails then (Log(s, QueryFailed(c)).(aborted := true), Threw)
    else (Log(s, Wrote(c, write)).(pending := s.pending + [write]), Returned)
  }

  /** A client is acquired, BEGIN is sent, and the context holds the client. */
  function Opened(s: State): State {
    Log(Log(s, Acquired(s.next)), Begin(s.next))
      .(client := Some(s.next), next := s.next + 1, pending := [], aborted := false)
  }

  /** COMMIT, or ROLLBACK; then the context is cleared and the client released. */
  function Closed(s: State, c: Client, outcome: Outcome, commitFails: bool): (State, Outcome) {
    var ended :=
      if outcome == Returned && !commitFails then
        Log(s, Commit(c)).(visible := if s.aborted then s.visible else s.visible + s.pending)
      else if outcome == Returned then Log(Log(s, CommitFailed(c)), Rollback(c))
      else Log(s, Rollback(c));
    (Log(ended, Released(c)).(client := None, pending := [], aborted := false),
     if outcome == Returned && !commitFails then Returned else Threw)
  }

  function Session(body: Program, s: State, f: Faults): (State, Outcome)
    requires s.client.None?
    decreases body, 1
  {
    if f.connect then (s, Threw)
    else
      var begun := Opened(s);
      if f.begin then Closed(Log(begun, QueryFailed(s.next)).(aborted := true), s.next, Threw, false)
      else
        var (after, outcome) := Run(body, begun);
        Closed(after, s.next, outcome, f.commit)
  }

  function Run(p: Program, s: State): (State, Outcome)
    decreases p, if s.client.None? then 2 else 0
  {
    match p
    case Skip => (s, Returned)
    case Throw => (s, Threw)
    case Query(write, fails, f) =>
      if s.client.Some? then Statement(s, s.client.value, write, fails) else Session(p, s, f)
    case Transaction(body, f) => if s.client.Some? then Run(body, s) else Session(body, s, f)
    case WithClient(body, f) => if s.client.Some? then Run(body, s) else Session(body, s, f)
    case Seq(first, second) =>
      var (after, outcome) := Run(first, s);
      if outcome == Threw then (after, Threw) else Run(second, after)
    case TryCatch(body, handler) =>
      var (after, outcome) := Run(body, s);
      if outcome == Threw then Run(handler, after) else (after, Returned)
  }

  // ----- The service -----

  class DatabaseService {
    var dbClient: Option<Client>
    var next: Client
    var pending: seq<Write>
    var aborted: bool
    var visible: seq<Write>
    var log: seq<Event>

    function Value(): State
      reads this
    {
      State(dbClient, next, pending, aborted, visible, log)
    }

    method AcquireClient(fails: bool) returns (client: Option<Client>)
      modifies this
      ensures client == if fails then None else Some(old(next))
      ensures Value() == if fails then old(Value())
                         else Log(old(Value()), Acquired(old(next))).(next := old(next) + 1)
    {
      if fails {
        return None;
      }
      client := Some(next);
      next := next + 1;
      log := log + [Acquired(client.value)];
    }

    method InitializeRequestSession(client: Client, fails: bool) returns (outcome: Outcome)
      modifies this
      ensures outcome == if fails then Threw else Returned
      ensures var s := Log(old(Value()), Begin(client)).(pending := [], aborted := false);
              Value() == if fails then Log(s, QueryFailed(client)).(aborted := true) else s
    {
      log := log + [Begin(client)];
      pending, aborted := [], false;
      if fails {
        log := log + [QueryFailed(client)];
        aborted := true;
        return Threw;
      }
      return Returned;
    }

    /** `client.query` on the context's client. */
    method ClientQuery(client: Client, write: Write, fails: bool) returns (outcome: Outcome)
      modifies this
      ensures (Value(), outcome) == Statement(old(Value()), client, write, fails)
    {
      if aborted || fails {
        log := log + [QueryFailed(client)];
        aborted := true;
        return Threw;
      }
      log := log + [Wrote(client, write)];
      pending := pending + [write];
      return Returned;
    }

    /** try { ...; COMMIT } catch { ROLLBACK } finally { clear the context; release }, from
        the end of the callback on. */
    method EndSession(client: Client, result: Outcome, commitFails: bool) returns (outcome: Outcome)
      modifies this
      ensures (Value(), outcome) == Closed(old(Value()), client, result, commitFails)
    {
      outcome := result;
      if outcome == Returned {
        if commitFails {
          log := log + [CommitFailed(client)];
          outcome := Threw;
        } else {
          log := log + [Commit(client)];
          if !aborted {
            visible := visible + pending;
          }
        }
      }
      if outcome == Threw {
        log := log + [Rollback(client)];
      }
      dbClient := None;
      pending, aborted := [], false;
      log := log + [Released(client)];
    }

    method ExecuteInScopedRequestSession(callback: Program, f: Faults) returns (outcome: Outcome)
      requires dbClient.None?
      modifies this
      decreases callback, 2
      ensures (Value(), outcome) == Session(callback, old(Value()), f)
    {
      var client := AcquireClient(f.connect);
      if client.None? {
        return Threw;
      }
      outcome := InitializeRequestSession(client.value, f.begin);
      if outcome == Threw {
        outcome := EndSession(client.value, Threw, false);
        return;
      }
      dbClient := client;
      assert Value() == Opened(old(Value()));
      outcome := Execute(callback);
      outcome := EndSession(client.value, outcome, f.commit);
    }

    method Query(write: Write, fails: bool, f: Faults) returns (outcome: Outcome)
      modifies this
      decreases Program.Query(write, fails, f), if dbClient.None? then 3 else 0
      ensures (Value(), outcome) == Run(Program.Query(write, fails, f), old(Value()))
    {
      if dbClient.Some? {
        outcome := ClientQuery(dbClient.value, write, fails);
        return;
      }
      outcome := ExecuteInScopedRequestSession(Program.Query(write, fails, f), f);
    }

    method WithRequestTransaction(callback: Program, f: Faults) returns (outcome: Outcome)
      modifies this
      decreases callback, 3
      ensures (Value(), outcome) == Run(Transaction(callback, f), old(Value()))
    {
      if dbClient.Some? {
        outcome := Execute(callback);
        return;
      }
      outcome := ExecuteInScopedRequestSession(callback, f);
    }

    method Execute(p: Program) returns (outcome: Outcome)
      modifies this
      decreases p, if dbClient.None? then 4 else 1
      ensures (Value(), outcome) == Run(p, old(Value()))
    {
      match p {
        case Skip => outcome := Returned;
        case Throw => outcome := Threw;
        case Query(write, fails, f) => outcome := Query(write, fails, f);
        case Transaction(body, f) => outcome := WithRequestTransaction(body, f);
        case WithClient(body, f) =>
          if dbClient.Some? {
            outcome := Execute(body);
          } else {
            outcome := ExecuteInScopedRequestSession(body, f);
          }
        case Seq(first, second) =>
          outcome := Execute(first);
          if outcome == Returned {
            outcome := Execute(second);
          }
        case TryCatch(body, handler) =>
          outcome := Execute(body);
          if outcome == Threw {
            outcome := Execute(handler);
          }
      }
    }
  }

  // ----- Sessions in the log -----

  datatype Ending = ByCommit | ByFailedCommit | ByRollback

  /** One session as the log shows it: the statements between BEGIN and the end. */
  datatype Scope = Scope(client: Client, body: seq<Event>, ending: Ending)

  function EndingLog(c: Client, e: Ending): seq<Event> {
    match e
    case ByCommit => [Commit(c)]
    case ByFailedCommit => [CommitFailed(c), Rollback(c)]
    case ByRollback => [Rollback(c)]
  }

  /** Acquired once, one BEGIN, one end, released once. */
  function ScopeLog(x: Scope): seq<Event> {
    [Acquired(x.client), Begin(x.client)] + x.body + EndingLog(x.client, x.ending) + [Released(x.client)]
  }

  function Flatten<T>(xss: seq<seq<T>>): seq<T> {
    if xss == [] then [] else xss[0] + Flatten(xss[1..])
  }

  function ScopesLog(xs: seq<Scope>): seq<Event> {
    Flatten(seq(|xs|, i requires 0 <= i < |xs| => ScopeLog(xs[i])))
  }

  predicate IsStatement(e: Event, c: Client) {
    e.c == c && (e.Wrote? || e.QueryFailed?)
  }

  predicate StatementsOf(es: seq<Event>, c: Client) {
    forall i :: 0 <= i < |es| ==> IsStatement(es[i], c)
  }

  function WritesOf(es: seq<Event>): seq<Write> {
    if es == [] then [] else (if es[0].Wrote? then [es[0].write] else []) + WritesOf(es[1..])
  }

  predicate NoneFailed(es: seq<Event>) {
    forall i :: 0 <= i < |es| ==> !es[i].QueryFailed?
  }

  /** All the writes of a session, or none: all when it committed and no statement failed. */
  function ShownBy(x: Scope): seq<Write> {
    if x.ending == ByCommit && NoneFailed(x.body) then WritesOf(x.body) else []
  }

  function ShownByAll(xs: seq<Scope>): seq<Write> {
    Flatten(seq(|xs|, i requires 0 <= i < |xs| => ShownBy(xs[i])))
  }

  /** Each session has the next client, and its statements are its client's. */
  predicate Proper(xs: seq<Scope>, first: Client) {
    forall i :: 0 <= i < |xs| ==> xs[i].client == first + i && StatementsOf(xs[i].body, xs[i].client)
  }

  // ----- Inside a session -----

  /** Running inside a session adds statements of its client and nothing else. */
  ghost predicate Joined(s: State, t: State, es: seq<Event>) {
    && s.client.Some? && t.client == s.client && t.next == s.next && t.visible == s.visible
    && t.log == s.log + es && StatementsOf(es, s.client.value)
    && (t.aborted <==> s.aborted || !NoneFailed(es))
    && t.pending == s.pending + WritesOf(es)
  }

  lemma Associates<T>(a: seq<T>, b: seq<T>, c: seq<T>)
    ensures a + b + c == a + (b + c) && b + [] == b
  {
  }

  lemma {:induction false} WritesConcat(es: seq<Event>, fs: seq<Event>)
    ensures WritesOf(es + fs) == WritesOf(es) + WritesOf(fs)
    decreases |es|
  {
    var all := es + fs;
    if es == [] {
      assert all == fs;
    } else {
      WritesConcat(es[1..], fs);
      assert all[0] == es[0] && all[1..] == es[1..] + fs;
      Associates(if es[0].Wrote? then [es[0].write] else [], WritesOf(es[1..]), WritesOf(fs));
    }
  }

  lemma NoneFailedConcat(es: seq<Event>, fs: seq<Event>)
    ensures NoneFailed(es + fs) <==> NoneFailed(es) && NoneFailed(fs)
  {
    if NoneFailed(es + fs) {
      forall i | 0 <= i < |es| ensures !es[i].QueryFailed? {
        assert (es + fs)[i] == es[i];
      }
      forall i | 0 <= i < |fs| ensures !fs[i].QueryFailed? {
        assert (es + fs)[|es| + i] == fs[i];
      }
    }
  }

  lemma JoinedConcat(s: State, t: State, u: State, es: seq<Event>, fs: seq<Event>)
    requires Joined(s, t, es) && Joined(t, u, fs)
    ensures Joined(s, u, es + fs)
  {
    WritesConcat(es, fs);
    NoneFailedConcat(es, fs);
  }

  lemma QueryInside(p: Program, s: State) returns (es: seq<Event>)
    requires p.Query? && s.client.Some?
    ensures Joined(s, Run(p, s).0, es)
  {
    var e := if s.aborted || p.fails then QueryFailed(s.client.value) else Wrote(s.client.value, p.write);
    es := [e];
    assert es[0] == e && es[1..] == [];
    assert NoneFailed(es) <==> !e.QueryFailed?;
    assert WritesOf(es) == if e.Wrote? then [e.write] else [];
  }

  lemma {:induction false} RunInside(p: Program, s: State) returns (es: seq<Event>)
    requires s.client.Some?
    ensures Joined(s, Run(p, s).0, es)
    decreases p
  {
    match p {
      case Skip => es := [];
      case Throw => es := [];
      case Query(write, fails, f) =>
        es := QueryInside(p, s);
      case Transaction(body, f) => es := RunInside(body, s);
      case WithClient(body, f) => es := RunInside(body, s);
      case Seq(first, second) =>
        es := RunInside(first, s);
        var (t, outcome) := Run(first, s);
        if outcome == Returned {
          var fs := RunInside(second, t);
          JoinedConcat(s, t, Run(second, t).0, es, fs);
          es := es + fs;
        }
      case TryCatch(body, handler) =>
        es := RunInside(body, s);
        var (t, outcome) := Run(body, s);
        if outcome == Threw {
          var fs := RunInside(handler, t);
          JoinedConcat(s, t, Run(handler, t).0, es, fs);
          es := es + fs;
        }
    }
  }

  // ----- What a program will do, told before it runs -----

  /** How a program started in a healthy transaction goes: it returns or throws without a
      failing statement; a failing statement's error leaves it; or a failing statement was
      reached inside the body of a catch. */
  datatype Fate = Completes | Throws | Fails | Swallows

  function FateOf(p: Program): Fate {
    match p
    case Skip => Completes
    case Throw => Throws
    case Query(_, fails, _) => if fails then Fails else Completes
    case Transaction(body, _) => FateOf(body)
    case WithClient(body, _) => FateOf(body)
    case Seq(first, second) => if FateOf(first) == Completes then FateOf(second) else FateOf(first)
    case TryCatch(body, handler) =>
      match FateOf(body)
      case Completes => Completes
      case Throws => FateOf(handler)
      case Fails => Swallows
      case Swallows => Swallows
  }

  /** A failing statement is reached inside the body of a catch. */
  predicate SwallowsFailure(p: Program) {
    FateOf(p) == Swallows
  }

  predicate Aborts(p: Program) {
    FateOf(p) == Fails || FateOf(p) == Swallows
  }

  /** The program returns, in a transaction that is aborted already or is not. */
  predicate Returns(p: Program, aborted: bool) {
    match p
    case Skip => true
    case Throw => false
    case Query(_, fails, _) => !aborted && !fails
    case Transaction(body, _) => Returns(body, aborted)
    case WithClient(body, _) => Returns(body, aborted)
    case Seq(first, second) => Returns(first, aborted) && Returns(second, aborted || Aborts(first))
    case TryCatch(body, handler) => Returns(body, aborted) || Returns(handler, aborted || Aborts(body))
  }

  /** The writes of a program none of whose statements fails. */
  function PlannedWrites(p: Program): seq<Write> {
    match p
    case Skip => []
    case Throw => []
    case Query(write, _, _) => [write]
    case Transaction(body, _) => PlannedWrites(body)
    case WithClient(body, _) => PlannedWrites(body)
    case Seq(first, second) =>
      PlannedWrites(first) + if FateOf(first) == Completes then PlannedWrites(second) else []
    case TryCatch(body, handler) =>
      PlannedWrites(body) + if FateOf(body) == Throws then PlannedWrites(handler) else []
  }

  /** The state and outcome agree with what was told. */
  ghost predicate AsTold(p: Program, s: State, t: State, outcome: Outcome) {
    && t.client == s.client
    && (outcome == Returned <==> Returns(p, s.aborted))
    && (t.aborted <==> s.aborted || Aborts(p))
    && (!t.aborted ==> t.pending == s.pending + PlannedWrites(p))
  }

  lemma {:induction false} ReturnsByFate(p: Program)
    ensures FateOf(p) == Completes ==> Returns(p, false)
    ensures FateOf(p) == Throws || FateOf(p) == Fails ==> !Returns(p, false)
  {
    match p
    case Transaction(body, _) => ReturnsByFate(body);
    case WithClient(body, _) => ReturnsByFate(body);
    case Seq(first, second) => ReturnsByFate(first); ReturnsByFate(second);
    case TryCatch(body, handler) => ReturnsByFate(body); ReturnsByFate(handler);
    case _ =>
  }

  lemma SeqGoesAsTold(first: Program, second: Program, s: State, t: State, one: Outcome, u: State, two: Outcome)
    requires AsTold(first, s, t, one) && AsTold(second, t, u, two)
    ensures if one == Threw then AsTold(Seq(first, second), s, t, Threw) else AsTold(Seq(first, second), s, u, two)
  {
    ReturnsByFate(first);
    Associates(s.pending, PlannedWrites(first), PlannedWrites(second));
  }

  lemma CatchGoesAsTold(body: Program, handler: Program, s: State, t: State, one: Outcome, u: State, two: Outcome)
    requires AsTold(body, s, t, one) && AsTold(handler, t, u, two)
    ensures if one == Threw then AsTold(TryCatch(body, handler), s, u, two)
            else AsTold(TryCatch(body, handler), s, t, Returned)
  {
    ReturnsByFate(body);
    Associates(s.pending, PlannedWrites(body), PlannedWrites(handler));
  }

  /** Inside a session every program goes as told before it runs. */
  lemma {:induction false} RunGoesAsTold(p: Program, s: State)
    requires s.client.Some?
    ensures AsTold(p, s, Run(p, s).0, Run(p, s).1)
    decreases p
  {
    match p
    case Skip =>
    case Throw =>
    case Query(_, _, _) =>
    case Transaction(body, _) => RunGoesAsTold(body, s);
    case WithClient(body, _) => RunGoesAsTold(body, s);
    case Seq(first, second) =>
      var (t, one) := Run(first, s);
      RunGoesAsTold(first, s);
      RunGoesAsTold(second, t);
      var (u, two) := Run(second, t);
      SeqGoesAsTold(first, second, s, t, one, u, two);
    case TryCatch(body, handler) =>
      var (t, one) := Run(body, s);
      RunGoesAsTold(body, s);
      RunGoesAsTold(handler, t);
      var (u, two) := Run(handler, t);
      CatchGoesAsTold(body, handler, s, t, one, u, two);
  }

  // ----- At the top of a request -----

  /** No client in the context, no transaction open. */
  predicate Idle(s: State) {
    s.client.None? && s.pending == [] && !s.aborted
  }

  ghost predicate Opens(s: State, t: State, xs: seq<Scope>) {
    && Idle(t) && t.next == s.next + |xs|
    && t.log == s.log + ScopesLog(xs) && Proper(xs, s.next)
    && t.visible == s.visible + ShownByAll(xs)
  }

  lemma FlattenOne<T>(xs: seq<T>)
    ensures Flatten([xs]) == xs
  {
    assert [xs][1..] == [];
    assert xs + [] == xs;
  }

  lemma {:induction false} FlattenConcat<T>(xss: seq<seq<T>>, yss: seq<seq<T>>)
    ensures Flatten(xss + yss) == Flatten(xss) + Flatten(yss)
    decreases |xss|
  {
    var all := xss + yss;
    if xss == [] {
      assert all == yss;
    } else {
      FlattenConcat(xss[1..], yss);
      assert all[0] == xss[0] && all[1..] == xss[1..] + yss;
      Associates(xss[0], Flatten(xss[1..]), Flatten(yss));
    }
  }

  lemma ScopesConcat(xs: seq<Scope>, ys: seq<Scope>)
    ensures ScopesLog(xs + ys) == ScopesLog(xs) + ScopesLog(ys)
    ensures ShownByAll(xs + ys) == ShownByAll(xs) + ShownByAll(ys)
  {
    var zs := xs + ys;
    var a := seq(|xs|, i requires 0 <= i < |xs| => ScopeLog(xs[i]));
    var b := seq(|ys|, i requires 0 <= i < |ys| => ScopeLog(ys[i]));
    assert seq(|zs|, i requires 0 <= i < |zs| => ScopeLog(zs[i])) == a + b;
    FlattenConcat(a, b);
    var c := seq(|xs|, i requires 0 <= i < |xs| => ShownBy(xs[i]));
    var d := seq(|ys|, i requires 0 <= i < |ys| => ShownBy(ys[i]));
    assert seq(|zs|, i requires 0 <= i < |zs| => ShownBy(zs[i])) == c + d;
    FlattenConcat(c, d);
  }

  lemma ProperConcat(xs: seq<Scope>, ys: seq<Scope>, first: Client)
    requires Proper(xs, first) && Proper(ys, first + |xs|)
    ensures Proper(xs + ys, first)
  {
    forall i | 0 <= i < |xs + ys|
      ensures (xs + ys)[i].client == first + i && StatementsOf((xs + ys)[i].body, (xs + ys)[i].client)
    {
      assert i >= |xs| ==> (xs + ys)[i] == ys[i - |xs|];
    }
  }

  lemma OpensConcat(s: State, t: State, u: State, xs: seq<Scope>, ys: seq<Scope>)
    requires Opens(s, t, xs) && Opens(t, u, ys)
    ensures Opens(s, u, xs + ys)
  {
    ScopesConcat(xs, ys);
    ProperConcat(xs, ys, s.next);
  }

  lemma OneScope(x: Scope)
    ensures ScopesLog([x]) == ScopeLog(x) && ShownByAll([x]) == ShownBy(x)
  {
    assert seq(1, i requires 0 <= i < 1 => ScopeLog([x][i])) == [ScopeLog(x)];
    assert seq(1, i requires 0 <= i < 1 => ShownBy([x][i])) == [ShownBy(x)];
    FlattenOne(ScopeLog(x));
    FlattenOne(ShownBy(x));
  }

  function EndOf(outcome: Outcome, commitFails: bool): Ending {
    if outcome == Threw then ByRollback else if commitFails then ByFailedCommit else ByCommit
  }

  lemma ClosedLog(s: State, t: State, es: seq<Event>, outcome: Outcome, commitFails: bool)
    requires t.log == Opened(s).log + es
    ensures Closed(t, s.next, outcome, commitFails).0.log
            == s.log + ScopeLog(Scope(s.next, es, EndOf(outcome, commitFails)))
  {
    assert Opened(s).log == s.log + [Acquired(s.next), Begin(s.next)];
  }

  lemma ClosedScope(s: State, t: State, es: seq<Event>, outcome: Outcome, commitFails: bool)
    requires Idle(s) && Joined(Opened(s), t, es)
    ensures Opens(s, Closed(t, s.next, outcome, commitFails).0, [Scope(s.next, es, EndOf(outcome, commitFails))])
  {
    OneScope(Scope(s.next, es, EndOf(outcome, commitFails)));
    ClosedLog(s, t, es, outcome, commitFails);
    assert [] + WritesOf(es) == WritesOf(es);
  }

  /** A session of its own is one scope, or none when no client could be acquired. */
  lemma {:induction false} SessionScope(body: Program, s: State, f: Faults) returns (xs: seq<Scope>)
    requires Idle(s)
    ensures Opens(s, Session(body, s, f).0, xs) && |xs| == (if f.connect then 0 else 1)
    ensures |xs| == 1 ==> (xs[0].ending == ByCommit <==> Session(body, s, f).1 == Returned)
    ensures |xs| == 1 && !f.begin ==> (NoneFailed(xs[0].body) <==> !Run(body, Opened(s)).0.aborted)
  {
    if f.connect {
      xs := [];
    } else if f.begin {
      var es := [QueryFailed(s.next)];
      var t := Log(Opened(s), QueryFailed(s.next)).(aborted := true);
      assert es[1..] == [] && es[0].QueryFailed?;
      ClosedScope(s, t, es, Threw, false);
      xs := [Scope(s.next, es, ByRollback)];
    } else {
      var es := RunInside(body, Opened(s));
      var (t, outcome) := Run(body, Opened(s));
      ClosedScope(s, t, es, outcome, f.commit);
      xs := [Scope(s.next, es, EndOf(outcome, f.commit))];
    }
  }

  /** For every program of a request, the statements sent form whole sessions one after
      another: each on a client of its own, with one BEGIN, ended by COMMIT or ROLLBACK and
      released once; the context's client is back to none; and what becomes visible is, for
      each session in turn, all of its writes or none. */
  lemma {:induction false} RequestRunsInSessions(p: Program, s: State) returns (xs: seq<Scope>)
    requires Idle(s)
    ensures Opens(s, Run(p, s).0, xs)
    decreases p
  {
    match p {
      case Skip => xs := [];
      case Throw => xs := [];
      case Query(write, fails, f) => xs := SessionScope(p, s, f);
      case Transaction(body, f) => xs := SessionScope(body, s, f);
      case WithClient(body, f) => xs := SessionScope(body, s, f);
      case Seq(first, second) =>
        xs := RequestRunsInSessions(first, s);
        var (t, outcome) := Run(first, s);
        if outcome == Returned {
          var ys := RequestRunsInSessions(second, t);
          OpensConcat(s, t, Run(second, t).0, xs, ys);
          xs := xs + ys;
        }
      case TryCatch(body, handler) =>
        xs := RequestRunsInSessions(body, s);
        var (t, outcome) := Run(body, s);
        if outcome == Threw {
          var ys := RequestRunsInSessions(handler, t);
          OpensConcat(s, t, Run(handler, t).0, xs, ys);
          xs := xs + ys;
        }
    }
  }

  /** Nested calls leave the context as they found it. */
  lemma ClientRestored(p: Program, s: State)
    requires Idle(s) || s.client.Some?
    ensures Run(p, s).0.client == s.client
  {
    if s.client.Some? {
      var es := RunInside(p, s);
    } else {
      var xs := RequestRunsInSessions(p, s);
    }
  }

  lemma ClosedAsTold(body: Program, s: State, t: State, outcome: Outcome, commitFails: bool)
    requires Idle(s) && AsTold(body, Opened(s), t, outcome) && t.visible == s.visible
    ensures var (u, end) := Closed(t, s.next, outcome, commitFails);
            && (end == Returned <==> !commitFails && Returns(body, false))
            && u.visible == s.visible + if end == Returned && !SwallowsFailure(body) then PlannedWrites(body) else []
  {
    ReturnsByFate(body);
    assert [] + PlannedWrites(body) == PlannedWrites(body);
    assert s.visible + [] == s.visible;
  }

  /** What an outermost transaction returns and shows, told before it runs: it returns
      exactly when neither BEGIN nor COMMIT fails and its body returns, and what it shows is
      all of its writes, unless it throws or swallows a failing statement. */
  lemma TransactionGoesAsTold(body: Program, f: Faults, s: State)
    requires Idle(s) && !f.connect
    ensures var (t, outcome) := Run(Transaction(body, f), s);
            && (outcome == Returned <==> !f.begin && !f.commit && Returns(body, false))
            && t.visible ==
               s.visible + if outcome == Returned && !SwallowsFailure(body) then PlannedWrites(body) else []
  {
    var es := RunInside(body, Opened(s));
    RunGoesAsTold(body, Opened(s));
    ClosedAsTold(body, s, Run(body, Opened(s)).0, Run(body, Opened(s)).1, f.commit);
    assert s.visible + [] == s.visible;
  }

  /** An outermost transaction is one session. If it throws, nothing of it is visible. If it
      returns, its writes are lost exactly when it swallows a failing statement: a failure
      the callback caught turns the COMMIT into a rollback. */
  lemma OutermostTransaction(body: Program, f: Faults, s: State) returns (es: seq<Event>)
    requires Idle(s) && !f.connect
    ensures var (t, outcome) := Run(Transaction(body, f), s);
            && (exists ending :: t.log == s.log + ScopeLog(Scope(s.next, es, ending)))
            && StatementsOf(es, s.next)
            && (outcome == Threw ==> t.visible == s.visible)
            && (outcome == Returned ==>
                  && (NoneFailed(es) <==> !SwallowsFailure(body))
                  && t.visible == s.visible + if SwallowsFailure(body) then [] else WritesOf(es))
  {
    var xs := SessionScope(body, s, f);
    OneScope(xs[0]);
    assert xs == [xs[0]];
    es := xs[0].body;
    assert Run(Transaction(body, f), s).0.log == s.log + ScopeLog(Scope(s.next, es, xs[0].ending));
    assert s.visible + [] == s.visible;
    RunGoesAsTold(body, Opened(s));
    ReturnsByFate(body);
  }

  // ----- What a request will do, told before it runs -----

  /** The outcome of a request outside any session, the sessions it opens, and the writes
      that become visible. */
  datatype Told = Told(outcome: Outcome, sessions: nat, shown: seq<Write>)

  function OneSession(f: Faults, bodyReturns: bool, writes: seq<Write>): Told {
    if f.connect then Told(Threw, 0, [])
    else if f.begin || f.commit || !bodyReturns then Told(Threw, 1, [])
    else Told(Returned, 1, writes)
  }

  function Then(first: Told, second: Told): Told {
    Told(second.outcome, first.sessions + second.sessions, first.shown + second.shown)
  }

  function InSequence(first: Told, second: Told): Told {
    if first.outcome == Threw then first else Then(first, second)
  }

  function Caught(body: Told, handler: Told): Told {
    if body.outcome == Threw then Then(body, handler) else body
  }

  /** A query, transaction or client of its own is one session; what fails in one session
      does not touch another. */
  function ToldOf(p: Program): Told {
    match p
    case Skip => Told(Returned, 0, [])
    case Throw => Told(Threw, 0, [])
    case Query(write, fails, f) => OneSession(f, !fails, [write])
    case Transaction(body, f) =>
      OneSession(f, Returns(body, false), if SwallowsFailure(body) then [] else PlannedWrites(body))
    case WithClient(body, f) =>
      OneSession(f, Returns(body, false), if SwallowsFailure(body) then [] else PlannedWrites(body))
    case Seq(first, second) => InSequence(ToldOf(first), ToldOf(second))
    case TryCatch(body, handler) => Caught(ToldOf(body), ToldOf(handler))
  }

  ghost predicate DoesAsTold(s: State, t: State, outcome: Outcome, told: Told) {
    && Idle(t) && outcome == told.outcome && t.next == s.next + told.sessions && t.visible == s.visible + told.shown
  }

  lemma SessionDoesAsTold(body: Program, s: State, f: Faults)
    requires Idle(s)
    ensures var (t, outcome) := Session(body, s, f);
            DoesAsTold(s, t, outcome,
                       OneSession(f, Returns(body, false), if SwallowsFailure(body) then [] else PlannedWrites(body)))
  {
    if f.connect {
      assert s.visible + [] == s.visible;
    } else {
      var es := RunInside(body, Opened(s));
      RunGoesAsTold(body, Opened(s));
      ClosedAsTold(body, s, Run(body, Opened(s)).0, Run(body, Opened(s)).1, f.commit);
      assert s.visible + [] == s.visible;
    }
  }

  lemma ThenDoesAsTold(s: State, t: State, u: State, one: Outcome, two: Outcome, first: Told, second: Told)
    requires DoesAsTold(s, t, one, first) && DoesAsTold(t, u, two, second)
    ensures DoesAsTold(s, u, two, Then(first, second))
  {
    assert s.visible + first.shown + second.shown == s.visible + (first.shown + second.shown);
  }

  lemma QueryDoesAsTold(write: Write, fails: bool, f: Faults, s: State)
    requires Idle(s)
    ensures var p := Query(write, fails, f); DoesAsTold(s, Run(p, s).0, Run(p, s).1, ToldOf(p))
  {
    var p := Query(write, fails, f);
    SessionDoesAsTold(p, s, f);
    assert Run(p, s) == Session(p, s, f);
    assert Returns(p, false) == !fails && !SwallowsFailure(p) && PlannedWrites(p) == [write];
  }

  lemma SeqDoesAsTold(first: Told, second: Told, s: State, t: State, one: Outcome, u: State, two: Outcome)
    requires DoesAsTold(s, t, one, first) && (one == Returned ==> DoesAsTold(t, u, two, second))
    ensures if one == Threw then DoesAsTold(s, t, Threw, InSequence(first, second))
            else DoesAsTold(s, u, two, InSequence(first, second))
  {
    if one == Returned {
      ThenDoesAsTold(s, t, u, one, two, first, second);
    }
  }

  lemma CatchDoesAsTold(body: Told, handler: Told, s: State, t: State, one: Outcome, u: State, two: Outcome)
    requires DoesAsTold(s, t, one, body) && (one == Threw ==> DoesAsTold(t, u, two, handler))
    ensures if one == Threw then DoesAsTold(s, u, two, Caught(body, handler))
            else DoesAsTold(s, t, Returned, Caught(body, handler))
  {
    if one == Threw {
      ThenDoesAsTold(s, t, u, one, two, body, handler);
    }
  }

  ghost predicate RunsAsTold(p: Program, s: State) {
    DoesAsTold(s, Run(p, s).0, Run(p, s).1, ToldOf(p))
  }

  lemma RunOfSeq(first: Program, second: Program, s: State)
    requires RunsAsTold(first, s)
    requires Run(first, s).1 == Returned ==> RunsAsTold(second, Run(first, s).0)
    ensures RunsAsTold(Seq(first, second), s)
  {
    var (t, one) := Run(first, s);
    var (u, two) := Run(second, t);
    SeqDoesAsTold(ToldOf(first), ToldOf(second), s, t, one, u, two);
    assert Run(Seq(first, second), s) == if one == Threw then (t, Threw) else (u, two);
  }

  lemma RunOfCatch(body: Program, handler: Program, s: State)
    requires RunsAsTold(body, s)
    requires Run(body, s).1 == Threw ==> RunsAsTold(handler, Run(body, s).0)
    ensures RunsAsTold(TryCatch(body, handler), s)
  {
    var (t, one) := Run(body, s);
    var (u, two) := Run(handler, t);
    CatchDoesAsTold(ToldOf(body), ToldOf(handler), s, t, one, u, two);
    assert Run(TryCatch(body, handler), s) == if one == Threw then (u, two) else (t, Returned);
  }

  /** Every request, run outside any session, returns or throws, opens as many sessions and
      shows the writes told before it runs. */
  lemma {:induction false} RequestGoesAsTold(p: Program, s: State)
    requires Idle(s)
    ensures RunsAsTold(p, s)
    decreases p
  {
    match p
    case Skip => assert s.visible + [] == s.visible;
    case Throw => assert s.visible + [] == s.visible;
    case Query(write, fails, f) => QueryDoesAsTold(write, fails, f, s);
    case Transaction(body, f) => SessionDoesAsTold(body, s, f);
    case WithClient(body, f) => SessionDoesAsTold(body, s, f);
    case Seq(first, second) =>
      RequestGoesAsTold(first, s);
      if Run(first, s).1 == Returned {
        RequestGoesAsTold(second, Run(first, s).0);
      }
      RunOfSeq(first, second, s);
    case TryCatch(body, handler) =>
      RequestGoesAsTold(body, s);
      if Run(body, s).1 == Threw {
        RequestGoesAsTold(handler, Run(body, s).0);
      }
      RunOfCatch(body, handler, s);
  }

  /** A query of its own: it returns exactly when nothing of its session fails, and then its
      write is visible; it takes a client unless there is none to have. Its session is one
      BEGIN, the query, and COMMIT or ROLLBACK. */
  lemma QueryOfItsOwn(write: Write, fails: bool, f: Faults, s: State)
    requires Idle(s)
    ensures var (t, outcome) := Run(Query(write, fails, f), s);
            && (outcome == Returned <==> !f.connect && !f.begin && !f.commit && !fails)
            && t.visible == s.visible + (if outcome == Returned then [write] else [])
            && t.next == s.next + (if f.connect then 0 else 1)
            && (outcome == Returned ==>
                  t.log == s.log + [Acquired(s.next), Begin(s.next), Wrote(s.next, write), Commit(s.next),
                                    Released(s.next)])
            && (!f.connect && !f.begin && fails ==>
                  t.log == s.log + [Acquired(s.next), Begin(s.next), QueryFailed(s.next), Rollback(s.next),
                                    Released(s.next)])
  {
    RequestGoesAsTold(Query(write, fails, f), s);
    if !f.connect && !f.begin && (fails || !f.commit) {
      QueryLog(write, fails, f, s);
    }
  }

  lemma QueryLog(write: Write, fails: bool, f: Faults, s: State)
    requires Idle(s) && !f.connect && !f.begin && (fails || !f.commit)
    ensures Run(Query(write, fails, f), s).0.log ==
              s.log + if fails then [Acquired(s.next), Begin(s.next), QueryFailed(s.next), Rollback(s.next),
                                     Released(s.next)]
                      else [Acquired(s.next), Begin(s.next), Wrote(s.next, write), Commit(s.next), Released(s.next)]
  {
    var c := s.next;
    var (after, outcome) := Statement(Opened(s), c, write, fails);
    assert Run(Query(write, fails, f), s) == Closed(after, c, outcome, f.commit) by {
      assert Run(Query(write, fails, f), Opened(s)) == (after, outcome);
    }
    if fails {
      assert after.log == s.log + [Acquired(c)] + [Begin(c)] + [QueryFailed(c)];
      FiveEvents(s, Acquired(c), Begin(c), QueryFailed(c), Rollback(c), Released(c));
    } else {
      assert after.log == s.log + [Acquired(c)] + [Begin(c)] + [Wrote(c, write)];
      FiveEvents(s, Acquired(c), Begin(c), Wrote(c, write), Commit(c), Released(c));
    }
  }

  lemma FiveEvents(s: State, a: Event, b: Event, c: Event, d: Event, e: Event)
    ensures s.log + [a] + [b] + [c] + [d] + [e] == s.log + [a, b, c, d, e]
  {
  }

  /** A transaction that writes, then catches a failing query, returns with its write lost. */
  lemma CaughtFailureLosesWrites(s: State, write: Write)
    requires Idle(s)
    ensures var ok := Faults(false, false, false);
            var body := Seq(Query(write, false, ok), TryCatch(Query(write, true, ok), Skip));
            var (t, outcome) := Run(Transaction(body, ok), s);
            outcome == Returned && t.visible == s.visible
  {
    var ok := Faults(false, false, false);
    var body := Seq(Query(write, false, ok), TryCatch(Query(write, true, ok), Skip));
    var caught := TryCatch(Query(write, true, ok), Skip);
    assert FateOf(Query(write, true, ok)) == Fails && Returns(Skip, true);
    assert FateOf(caught) == Swallows && Returns(caught, false);
    assert FateOf(Query(write, false, ok)) == Completes && Returns(Query(write, false, ok), false);
    assert FateOf(body) == Swallows && Returns(body, false);
    TransactionGoesAsTold(body, ok, s);
    assert s.visible + [] == s.visible;
  }
}
