/**
 The in-process circuit breaker. `execute` is split at its await: a start that admits or
 rejects, and later a completion that may find the circuit in any state.
 */
module CircuitBreaker {
  import opened Common

  datatype State = Closed | Open | HalfOpen

  datatype Config = Config(failureThreshold: nat, resetTimeout: nat, successThreshold: nat) {
    predicate Valid() {
      failureThreshold >= 1 && successThreshold >= 1
    }
  }

  const DEFAULT_CONFIG := Config(5, 30_000, 2)

  /** What a caller configures; the rest is the default. */
  datatype PartialConfig = PartialConfig(
    failureThreshold: Option<nat>, resetTimeout: Option<nat>, successThreshold: Option<nat>)

  function OrElse(given: Option<nat>, usual: nat): nat {
    if given.Some? then given.value else usual
  }

  function WithDefaults(p: PartialConfig): Config {
    Config(OrElse(p.failureThreshold, DEFAULT_CONFIG.failureThreshold),
           OrElse(p.resetTimeout, DEFAULT_CONFIG.resetTimeout),
           OrElse(p.successThreshold, DEFAULT_CONFIG.successThreshold))
  }

  /** A circuit record as a value. */
  datatype Circuit = Circuit(state: State, failures: nat, successes: nat, lastFailureAt: Option<int>, changedAt: int)

  function NewCircuit(now: int): Circuit {
    Circuit(Closed, 0, 0, None, now)
  }

  predicate Admits(c: Circuit, g: Config, now: int) {
    c.state != Open || now - c.changedAt >= g.resetTimeout
  }

  function AfterStart(c: Circuit, g: Config, now: int): Circuit {
    if c.state == Open && Admits(c, g, now) then c.(state := HalfOpen, changedAt := now) else c
  }

  function AfterSuccess(c: Circuit, g: Config, now: int): Circuit {
    if c.state != HalfOpen then c.(failures := 0)
    else if c.successes + 1 >= g.successThreshold then
      c.(state := Closed, changedAt := now, failures := 0, successes := 0)
    else c.(successes := c.successes + 1)
  }

  function AfterFailure(c: Circuit, g: Config, now: int): Circuit {
    var d := c.(failures := c.failures + 1, lastFailureAt := Some(now));
    if c.state == HalfOpen then d.(state := Open, changedAt := now, successes := 0)
    else if d.failures >= g.failureThreshold then d.(state := Open, changedAt := now)
    else d
  }

  function AfterReset(c: Circuit, now: int): Circuit {
    c.(state := Closed, changedAt := now, failures := 0, successes := 0)
  }

  // ----- The service -----

  class CircuitRecord {
    var state: State
    var failures: nat
    var successes: nat
    var lastFailureAt: Option<int>
    var changedAt: int

    constructor (now: int)
      ensures Value() == NewCircuit(now)
    {
      state, failures, successes, lastFailureAt, changedAt := Closed, 0, 0, None, now;
    }

    function Value(): Circuit
      reads this
    {
      Circuit(state, failures, successes, lastFailureAt, changedAt)
    }

    method TransitionTo(newState: State, now: int)
      modifies this
      ensures Value() == old(Value()).(state := newState, changedAt := now)
    {
      state := newState;
      changedAt := now;
    }

    method OnSuccess(g: Config, now: int)
      modifies this
      ensures Value() == AfterSuccess(old(Value()), g, now)
    {
      if state == HalfOpen {
        successes := successes + 1;
        if successes >= g.successThreshold {
          TransitionTo(Closed, now);
          failures := 0;
          successes := 0;
        }
        return;
      }
      failures := 0;
    }

    method OnFailure(g: Config, now: int)
      modifies this
      ensures Value() == AfterFailure(old(Value()), g, now)
    {
      failures := failures + 1;
      lastFailureAt := Some(now);
      if state == HalfOpen {
        TransitionTo(Open, now);
        successes := 0;
        return;
      }
      if failures >= g.failureThreshold {
        TransitionTo(Open, now);
      }
    }
  }

  /** Named circuits. A call keeps the record it started with, so completions go to it
      directly. */
  class CircuitBreakerService {
    var circuits: map<string, CircuitRecord>
    var configs: map<string, Config>

    constructor ()
      ensures circuits == map[] && configs == map[] && Valid()
    {
      circuits, configs := map[], map[];
    }

    /** Two names never share a record. */
    predicate Valid()
      reads this
    {
      forall n, m :: n in circuits && m in circuits && n != m ==> circuits[n] != circuits[m]
    }

    method Register(name: string, config: PartialConfig)
      requires Valid()
      modifies this
      ensures Valid() && configs == old(configs)[name := WithDefaults(config)] && circuits == old(circuits)
    {
      var g := DEFAULT_CONFIG;
      if config.failureThreshold.Some? {
        g := g.(failureThreshold := config.failureThreshold.value);
      }
      if config.resetTimeout.Some? {
        g := g.(resetTimeout := config.resetTimeout.value);
      }
      if config.successThreshold.Some? {
        g := g.(successThreshold := config.successThreshold.value);
      }
      configs := configs[name := g];
    }

    function ConfigOf(name: string): Config
      reads this
    {
      if name in configs then configs[name] else DEFAULT_CONFIG
    }

    /** `execute` up to the operation: the record to complete, or how long to wait. */
    method Start(name: string, now: int) returns (circuit: CircuitRecord, rejected: Option<int>)
      requires Valid()
      modifies this, if name in circuits then {circuits[name]} else {}
      ensures Valid() && configs == old(configs)
      ensures name in circuits && circuit == circuits[name]
      ensures name in old(circuits) ==> circuits == old(circuits)
      ensures name !in old(circuits) ==> circuits == old(circuits)[name := circuit] && fresh(circuit)
      ensures var was := if name in old(circuits) then old(circuits[name].Value()) else NewCircuit(now);
              && circuit.Value() == AfterStart(was, ConfigOf(name), now)
              && (rejected.None? <==> Admits(was, ConfigOf(name), now))
              && (rejected.Some? ==> rejected.value == was.changedAt + ConfigOf(name).resetTimeout - now > 0)
    {
      if name in circuits {
        circuit := circuits[name];
      } else {
        circuit := new CircuitRecord(now);
        circuits := circuits[name := circuit];
      }
      var g := ConfigOf(name);
      if circuit.state == Open {
        var elapsed := now - circuit.changedAt;
        if elapsed < g.resetTimeout {
          return circuit, Some(g.resetTimeout - elapsed);
        }
        circuit.TransitionTo(HalfOpen, now);
      }
      return circuit, None;
    }

    method Reset(name: string, now: int)
      requires Valid()
      modifies if name in circuits then {circuits[name]} else {}
      ensures name in circuits ==> circuits[name].Value() == AfterReset(old(circuits[name].Value()), now)
    {
      if name in circuits {
        var circuit := circuits[name];
        circuit.TransitionTo(Closed, now);
        circuit.failures := 0;
        circuit.successes := 0;
      }
    }
  }

  // ----- Runs of one circuit -----

  datatype Event = Start(at: int) | Success(at: int) | Failure(at: int) | Reset(at: int)

  function Next(c: Circuit, g: Config, e: Event): Circuit {
    match e
    case Start(at) => AfterStart(c, g, at)
    case Success(at) => AfterSuccess(c, g, at)
    case Failure(at) => AfterFailure(c, g, at)
    case Reset(at) => AfterReset(c, at)
  }

  function Front<T>(es: seq<T>): seq<T>
    requires es != []
  {
    es[..|es| - 1]
  }

  function Last<T>(es: seq<T>): T
    requires es != []
  {
    es[|es| - 1]
  }

  /** A new circuit after any events: completions may come late and in any number. */
  function Run(g: Config, born: int, es: seq<Event>): Circuit
    decreases |es|
  {
    if es == [] then NewCircuit(born) else Next(Run(g, born, Front(es)), g, Last(es))
  }

  /** How many of `es` had run when the circuit entered its present state. A reset enters
      closed anew. */
  function EnteredAt(g: Config, born: int, es: seq<Event>): (i: nat)
    ensures i <= |es|
    decreases |es|
  {
    if es == [] then 0
    else if Last(es).Reset? || Run(g, born, es).state != Run(g, born, Front(es)).state then |es|
    else EnteredAt(g, born, Front(es))
  }

  function SinceEntry(g: Config, born: int, es: seq<Event>): seq<Event> {
    es[EnteredAt(g, born, es)..]
  }

  /** The failures completed after the last completed success. */
  function TrailingFailures(es: seq<Event>): nat
    decreases |es|
  {
    if es == [] then 0
    else match Last(es)
      case Failure(_) => TrailingFailures(Front(es)) + 1
      case Success(_) => 0
      case _ => TrailingFailures(Front(es))
  }

  function SuccessCount(es: seq<Event>): nat
    decreases |es|
  {
    if es == [] then 0 else SuccessCount(Front(es)) + if Last(es).Success? then 1 else 0
  }

  predicate NoFailure(es: seq<Event>) {
    forall i :: 0 <= i < |es| ==> !es[i].Failure?
  }

  predicate NoReset(es: seq<Event>) {
    forall i :: 0 <= i < |es| ==> !es[i].Reset?
  }

  /** What the counters claim of the events since the present state was entered. */
  predicate CountersMean(c: Circuit, g: Config, since: seq<Event>) {
    && (c.state == Closed ==> c.failures == TrailingFailures(since) < g.failureThreshold)
    && (c.state == HalfOpen ==>
          c.successes == SuccessCount(since) < g.successThreshold && NoFailure(since) && NoReset(since))
    && (c.state != HalfOpen ==> c.successes == 0)
  }

  lemma CountersStep(c: Circuit, g: Config, since: seq<Event>, e: Event)
    requires g.Valid() && CountersMean(c, g, since)
    ensures var d := Next(c, g, e);
            CountersMean(d, g, if e.Reset? || d.state != c.state then [] else since + [e])
  {
    assert Front(since + [e]) == since;
  }

  /** In every interleaving of starts, late completions and resets the counters mean what
      they claim. */
  lemma {:induction false} CountersMeanWhatTheyClaim(g: Config, born: int, es: seq<Event>)
    requires g.Valid()
    ensures CountersMean(Run(g, born, es), g, SinceEntry(g, born, es))
    decreases |es|
  {
    if es != [] {
      var before := SinceEntry(g, born, Front(es));
      CountersMeanWhatTheyClaim(g, born, Front(es));
      CountersStep(Run(g, born, Front(es)), g, before, Last(es));
      assert es == Front(es) + [Last(es)];
      assert SinceEntry(g, born, es) == []  || SinceEntry(g, born, es) == before + [Last(es)];
    }
  }

  /** The next state, told from what has completed since the present state was entered:
      closed opens at the run of failures that reaches the threshold; open goes half open at
      the first start a timeout after the last change; half open opens at any failure and
      closes at the success that reaches the threshold; a reset closes. */
  function ToldNext(g: Config, state: State, changedAt: int, since: seq<Event>, e: Event): State {
    match (state, e)
    case (_, Reset(_)) => Closed
    case (Closed, Failure(_)) => if TrailingFailures(since) + 1 >= g.failureThreshold then Open else Closed
    case (Open, Start(at)) => if at >= changedAt + g.resetTimeout then HalfOpen else Open
    case (HalfOpen, Failure(_)) => Open
    case (HalfOpen, Success(_)) => if SuccessCount(since) + 1 >= g.successThreshold then Closed else HalfOpen
    case _ => state
  }

  /** After every run, whatever failed before, each event does as told; a circuit that closes
      has both counters at zero, and a change of state is dated by its event. */
  lemma NextAsTold(g: Config, born: int, es: seq<Event>, e: Event)
    requires g.Valid()
    ensures var c, d := Run(g, born, es), Run(g, born, es + [e]);
            && d.state == ToldNext(g, c.state, c.changedAt, SinceEntry(g, born, es), e)
            && (d.state == Closed && (c.state != Closed || e.Reset?) ==> d.failures == 0 && d.successes == 0)
            && (d.state != c.state || e.Reset? ==> d.changedAt == e.at)
            && (d.state == c.state && !e.Reset? && !e.Failure? ==> d.changedAt == c.changedAt)
            && (e.Failure? ==> d.lastFailureAt == Some(e.at))
  {
    CountersMeanWhatTheyClaim(g, born, es);
    assert Front(es + [e]) == es && Last(es + [e]) == e;
  }

  /** The success that makes up the threshold closes the circuit, with both counters at zero. */
  lemma LastSuccessCloses(g: Config, born: int, es: seq<Event>, at: int)
    requires g.Valid() && Run(g, born, es).state == HalfOpen
    requires SuccessCount(SinceEntry(g, born, es)) == g.successThreshold - 1
    ensures var d := Run(g, born, es + [Success(at)]);
            d.state == Closed && d.failures == 0 && d.successes == 0 && d.changedAt == at
  {
    NextAsTold(g, born, es, Success(at));
  }

  lemma {:induction false} HalfOpenUntilThreshold(g: Config, born: int, es: seq<Event>, more: seq<Event>)
    requires g.Valid() && Run(g, born, es).state == HalfOpen && Run(g, born, es).successes == 0
    requires NoFailure(more) && NoReset(more)
    ensures var d := Run(g, born, es + more);
            if SuccessCount(more) >= g.successThreshold then d.state == Closed && d.failures == 0 && d.successes == 0
            else d.state == HalfOpen && d.successes == SuccessCount(more)
    decreases |more|
  {
    if more == [] {
      assert es + more == es;
    } else {
      assert Front(es + more) == es + Front(more) && Last(es + more) == Last(more);
      HalfOpenUntilThreshold(g, born, es, Front(more));
    }
  }

  /** An open circuit whose timeout has passed closes after as many completed successes as
      the threshold asks for, with no failure or reset among them, and not before. */
  lemma SuccessesClose(g: Config, born: int, es: seq<Event>, at: int, more: seq<Event>)
    requires g.Valid() && Run(g, born, es).state == Open && at >= Run(g, born, es).changedAt + g.resetTimeout
    requires NoFailure(more) && NoReset(more)
    ensures var d := Run(g, born, es + [Start(at)] + more);
            && (SuccessCount(more) >= g.successThreshold <==> d.state == Closed)
            && (SuccessCount(more) < g.successThreshold <==> d.state == HalfOpen)
            && (d.state == Closed ==> d.failures == 0 && d.successes == 0)
  {
    CountersMeanWhatTheyClaim(g, born, es);
    assert Front(es + [Start(at)]) == es && Last(es + [Start(at)]) == Start(at);
    HalfOpenUntilThreshold(g, born, es + [Start(at)], more);
  }

  /** What is not configured: five failures, thirty seconds, two successes. */
  lemma Defaults()
    ensures WithDefaults(PartialConfig(None, None, None)) == Config(5, 30_000, 2) == DEFAULT_CONFIG
  {
  }

  lemma {:induction false} EntryIsLater(g: Config, born: int, es: seq<Event>, more: seq<Event>)
    requires Run(g, born, es + more).state != Run(g, born, es).state
    ensures EnteredAt(g, born, es + more) > |es|
    decreases |more|
  {
    var all := es + more;
    assert more == [] ==> all == es;
    if more != [] {
      assert Front(all) == es + Front(more);
      if !(Last(all).Reset? || Run(g, born, all).state != Run(g, born, Front(all)).state) {
        EntryIsLater(g, born, es, Front(more));
      }
    }
  }

  predicate RecoveredIn(g: Config, more: seq<Event>, i: int, j: int) {
    0 <= i <= j <= |more| && NoFailure(more[i..j]) && SuccessCount(more[i..j]) >= g.successThreshold
  }

  lemma ClosingNeedsSuccesses(c: Circuit, g: Config, since: seq<Event>, e: Event)
    requires g.Valid() && CountersMean(c, g, since) && c.state != Closed && Next(c, g, e).state == Closed && !e.Reset?
    ensures NoFailure(since + [e]) && SuccessCount(since + [e]) >= g.successThreshold
  {
    assert Front(since + [e]) == since;
  }

  lemma EntrySplits(es: seq<Event>, before: seq<Event>, e: Event, at: nat)
    requires |es| <= at <= |es + before|
    ensures (es + before)[at..] + [e] == (before + [e])[at - |es|..|before| + 1]
  {
  }

  /** An open circuit is closed again only by a reset, or after at least `successThreshold`
      completed successes with no completed failure among them. */
  lemma {:induction false} ClosesOnlyAfterSuccesses(g: Config, born: int, es: seq<Event>, more: seq<Event>)
    requires g.Valid() && Run(g, born, es).state == Open && Run(g, born, es + more).state == Closed
    requires NoReset(more)
    ensures exists i, j :: RecoveredIn(g, more, i, j)
    decreases |more|
  {
    assert more == [] ==> es + more == es;
    if more != [] {
      var before, e := Front(more), Last(more);
      assert Front(es + more) == es + before && Last(es + more) == e && more == before + [e];
      if Run(g, born, es + before).state == Closed {
        ClosesOnlyAfterSuccesses(g, born, es, before);
        var i, j :| RecoveredIn(g, before, i, j);
        assert before[i..j] == more[i..j];
        assert RecoveredIn(g, more, i, j);
      } else {
        var at := EnteredAt(g, born, es + before);
        CountersMeanWhatTheyClaim(g, born, es + before);
        ClosingNeedsSuccesses(Run(g, born, es + before), g, SinceEntry(g, born, es + before), e);
        EntryIsLater(g, born, es, before);
        EntrySplits(es, before, e, at);
        assert RecoveredIn(g, more, at - |es|, |more|);
      }
    }
  }

  /** The comments promise a single probe. The code admits every start while half open: once
      the timeout has passed, any number of starts in a row are admitted. */
  lemma {:induction false} HalfOpenAdmitsEveryStart(c: Circuit, g: Config, at: seq<int>)
    requires c.state == HalfOpen || (c.state == Open && at != [] && at[0] - c.changedAt >= g.resetTimeout)
    ensures AdmittedOf(c, g, at) == |at|
    decreases |at|
  {
    if at != [] {
      HalfOpenAdmitsEveryStart(AfterStart(c, g, at[0]), g, at[1..]);
    }
  }

  function AdmittedOf(c: Circuit, g: Config, at: seq<int>): nat
    decreases |at|
  {
    if at == [] then 0
    else (if Admits(c, g, at[0]) then 1 else 0) + AdmittedOf(AfterStart(c, g, at[0]), g, at[1..])
  }

  predicate InOrder(at: seq<int>) {
    forall i, j :: 0 <= i < j < |at| ==> at[i] <= at[j]
  }

  /** How many of the starts come at or after `due`. */
  function StartsFrom(at: seq<int>, due: int): nat
    decreases |at|
  {
    if at == [] then 0 else (if at[0] >= due then 1 else 0) + StartsFrom(at[1..], due)
  }

  lemma {:induction false} AllFrom(at: seq<int>, due: int)
    requires InOrder(at) && (at == [] || at[0] >= due)
    ensures StartsFrom(at, due) == |at|
    decreases |at|
  {
    if at != [] {
      assert |at| > 1 ==> at[1..][0] == at[1];
      assert InOrder(at[1..]);
      AllFrom(at[1..], due);
    }
  }

  lemma {:induction false} AdmittedAreLate(c: Circuit, g: Config, at: seq<int>)
    requires c.state == Open && InOrder(at)
    ensures AdmittedOf(c, g, at) == StartsFrom(at, c.changedAt + g.resetTimeout)
    decreases |at|
  {
    if at != [] {
      assert InOrder(at[1..]);
      if at[0] >= c.changedAt + g.resetTimeout {
        HalfOpenAdmitsEveryStart(c, g, at);
        AllFrom(at, c.changedAt + g.resetTimeout);
      } else {
        AdmittedAreLate(c, g, at[1..]);
      }
    }
  }

  /** While nothing completes, an open circuit keeps to one probe exactly when at most one
      start comes once the timeout has passed. */
  lemma {:induction false} OneProbeOfStartsIff(c: Circuit, g: Config, at: seq<int>)
    requires c.state == Open && InOrder(at)
    ensures AdmittedOf(c, g, at) <= 1 <==> StartsFrom(at, c.changedAt + g.resetTimeout) <= 1
  {
    AdmittedAreLate(c, g, at);
  }

  // ----- One probe at a time -----

  /** Starts and completions of calls that are told apart. */
  datatype CallEvent = Begin(call: nat, at: int) | Done(call: nat, ok: bool, at: int) | ResetAt(at: int)

  /** The circuit and the admitted calls that have not completed. */
  datatype Traffic = Traffic(circuit: Circuit, inFlight: set<nat>)

  function NextTraffic(t: Traffic, g: Config, e: CallEvent): Traffic {
    match e
    case Begin(call, at) =>
      Traffic(AfterStart(t.circuit, g, at), if Admits(t.circuit, g, at) then t.inFlight + {call} else t.inFlight)
    case Done(call, ok, at) =>
      Traffic(if ok then AfterSuccess(t.circuit, g, at) else AfterFailure(t.circuit, g, at), t.inFlight - {call})
    case ResetAt(at) => Traffic(AfterReset(t.circuit, at), t.inFlight)
  }

  function TrafficAfter(g: Config, born: int, es: seq<CallEvent>): Traffic
    decreases |es|
  {
    if es == [] then Traffic(NewCircuit(born), {}) else NextTraffic(TrafficAfter(g, born, Front(es)), g, Last(es))
  }

  function EventOf(e: CallEvent): Event {
    match e
    case Begin(_, at) => Start(at)
    case Done(_, ok, at) => if ok then Success(at) else Failure(at)
    case ResetAt(at) => Reset(at)
  }

  function EventsOf(es: seq<CallEvent>): (r: seq<Event>)
    ensures |r| == |es|
  {
    seq(|es|, i requires 0 <= i < |es| => EventOf(es[i]))
  }

  /** Telling calls apart does not change what the circuit does. */
  lemma {:induction false} TrafficRuns(g: Config, born: int, es: seq<CallEvent>)
    ensures TrafficAfter(g, born, es).circuit == Run(g, born, EventsOf(es))
    decreases |es|
  {
    if es != [] {
      TrafficRuns(g, born, Front(es));
      assert Front(EventsOf(es)) == EventsOf(Front(es));
    }
  }

  /** A call begins once; only a call in flight completes. */
  predicate Possible(g: Config, born: int, es: seq<CallEvent>)
    decreases |es|
  {
    es == [] ||
    var t := TrafficAfter(g, born, Front(es));
    && Possible(g, born, Front(es))
    && (Last(es).Begin? ==> Last(es).call !in t.inFlight)
    && (Last(es).Done? ==> Last(es).call in t.inFlight)
  }

  /** At every moment of the run, a half-open circuit has at most one call in flight. */
  predicate OneInFlight(g: Config, born: int, es: seq<CallEvent>)
    decreases |es|
  {
    es == [] ||
    var t := TrafficAfter(g, born, es);
    OneInFlight(g, born, Front(es)) && (t.circuit.state == HalfOpen ==> |t.inFlight| <= 1)
  }

  /** A caller begins this call where the circuit lets it probe. */
  predicate Probes(c: Circuit, g: Config, e: CallEvent) {
    e.Begin? && c.state != Closed && Admits(c, g, e.at)
  }

  /** No call begins as a probe while another call is still in flight. */
  predicate ProbesDoNotOverlap(g: Config, born: int, es: seq<CallEvent>)
    decreases |es|
  {
    es == [] ||
    var t := TrafficAfter(g, born, Front(es));
    ProbesDoNotOverlap(g, born, Front(es)) && (Probes(t.circuit, g, Last(es)) ==> t.inFlight == {})
  }

  lemma ProbeStep(t: Traffic, g: Config, e: CallEvent)
    requires e.Begin? ==> e.call !in t.inFlight
    requires e.Done? ==> e.call in t.inFlight
    requires t.circuit.state == HalfOpen ==> |t.inFlight| <= 1
    ensures var u := NextTraffic(t, g, e);
            (u.circuit.state == HalfOpen ==> |u.inFlight| <= 1) <==> (Probes(t.circuit, g, e) ==> t.inFlight == {})
  {
    var u := NextTraffic(t, g, e);
    if Probes(t.circuit, g, e) {
      assert u.inFlight == t.inFlight + {e.call} && |u.inFlight| == |t.inFlight| + 1;
    } else if e.Done? {
      assert |u.inFlight| == |t.inFlight| - 1;
    }
  }

  /** In every interleaving of starts, completions and resets, the circuit has at most one
      call in flight while half open exactly when no call begins there while another is in
      flight: the single probe is the callers' doing. */
  lemma {:induction false} SingleProbeIff(g: Config, born: int, es: seq<CallEvent>)
    requires Possible(g, born, es)
    ensures OneInFlight(g, born, es) <==> ProbesDoNotOverlap(g, born, es)
    decreases |es|
  {
    if es != [] {
      var t := TrafficAfter(g, born, Front(es));
      SingleProbeIff(g, born, Front(es));
      if OneInFlight(g, born, Front(es)) {
        NowOneInFlight(g, born, Front(es));
        ProbeStep(t, g, Last(es));
      }
    }
  }

  lemma NowOneInFlight(g: Config, born: int, es: seq<CallEvent>)
    requires OneInFlight(g, born, es)
    ensures var t := TrafficAfter(g, born, es); t.circuit.state == HalfOpen ==> |t.inFlight| <= 1
  {
  }

  // ----- How often a failing operation is attempted -----

  /** One call of `execute` on an operation that fails. */
  datatype Call = Call(start: int, end: int)

  predicate NonOverlapping(born: int, calls: seq<Call>) {
    && (forall i :: 0 <= i < |calls| ==> born <= calls[i].start <= calls[i].end)
    && (forall i :: 0 <= i && i + 1 < |calls| ==> calls[i].end <= calls[i + 1].start)
  }

  function FailedCalls(g: Config, born: int, calls: seq<Call>): Circuit
    decreases |calls|
  {
    if calls == [] then NewCircuit(born)
    else
      var c, call := FailedCalls(g, born, Front(calls)), Last(calls);
      if Admits(c, g, call.start) then AfterFailure(AfterStart(c, g, call.start), g, call.end) else c
  }

  /** The calls that reached the operation. */
  function Attempts(g: Config, born: int, calls: seq<Call>): seq<Call>
    decreases |calls|
  {
    if calls == [] then []
    else
      var earlier := Attempts(g, born, Front(calls));
      if Admits(FailedCalls(g, born, Front(calls)), g, Last(calls).start) then earlier + [Last(calls)] else earlier
  }

  /** From the attempt that opens the circuit on, each attempt starts at least the timeout
      after the one before it ended. */
  predicate WellSpaced(g: Config, attempts: seq<Call>) {
    forall i :: 1 <= i && g.failureThreshold <= i < |attempts| ==>
      attempts[i].start >= attempts[i - 1].end + g.resetTimeout
  }

  lemma {:induction false} FailingCircuit(g: Config, born: int, calls: seq<Call>)
    requires g.Valid() && NonOverlapping(born, calls)
    ensures var c, attempts := FailedCalls(g, born, calls), Attempts(g, born, calls);
            && c.failures == |attempts|
            && (|attempts| < g.failureThreshold ==> c.state == Closed)
            && (|attempts| >= g.failureThreshold ==> c.state == Open && c.changedAt == Last(attempts).end)
            && WellSpaced(g, attempts)
            && (forall i :: 0 <= i < |attempts| ==> attempts[i].start <= attempts[i].end)
    decreases |calls|
  {
    if calls != [] {
      assert NonOverlapping(born, Front(calls));
      FailingCircuit(g, born, Front(calls));
    }
  }

  lemma {:induction false} SpacingAddsUp(g: Config, attempts: seq<Call>, i: nat, j: nat)
    requires g.Valid() && WellSpaced(g, attempts)
    requires forall k :: 0 <= k < |attempts| ==> attempts[k].start <= attempts[k].end
    requires g.failureThreshold - 1 <= i < j < |attempts|
    ensures attempts[j].start >= attempts[i].end + (j - i) * g.resetTimeout
    decreases j
  {
    if i + 1 < j {
      SpacingAddsUp(g, attempts, i, j - 1);
      assert (j - i) * g.resetTimeout == (j - 1 - i) * g.resetTimeout + g.resetTimeout;
    }
  }

  /** With non-overlapping calls to an operation that always fails, attempt number
      failureThreshold + k starts no earlier than k timeouts after the circuit first opened. */
  lemma AttemptsBackOff(g: Config, born: int, calls: seq<Call>, k: nat)
    requires g.Valid() && NonOverlapping(born, calls)
    requires k >= 1 && g.failureThreshold + k <= |Attempts(g, born, calls)|
    ensures var attempts := Attempts(g, born, calls);
            var openedAt := attempts[g.failureThreshold - 1].end;
            attempts[g.failureThreshold + k - 1].start >= openedAt + k * g.resetTimeout
  {
    FailingCircuit(g, born, calls);
    SpacingAddsUp(g, Attempts(g, born, calls), g.failureThreshold - 1, g.failureThreshold + k - 1);
  }

  /** So a span of any length holds at most failureThreshold + length / timeout attempts. */
  lemma {:induction false} AttemptsInSpan(g: Config, born: int, calls: seq<Call>, i: nat, j: nat, length: nat)
    requires g.Valid() && g.resetTimeout > 0 && NonOverlapping(born, calls)
    requires i <= j < |Attempts(g, born, calls)|
    requires Attempts(g, born, calls)[j].start - Attempts(g, born, calls)[i].start <= length
    ensures j - i + 1 <= g.failureThreshold + length / g.resetTimeout
  {
    FailingCircuit(g, born, calls);
    forall k, l | 0 <= k <= l < |Attempts(g, born, calls)|
      ensures Attempts(g, born, calls)[k].start <= Attempts(g, born, calls)[l].start
    {
      AttemptsInOrder(g, born, calls, k, l);
    }
    SpanBound(g, Attempts(g, born, calls), i, j, length);
  }

  lemma SpanBound(g: Config, attempts: seq<Call>, i: nat, j: nat, length: nat)
    requires g.Valid() && g.resetTimeout > 0 && WellSpaced(g, attempts)
    requires forall k :: 0 <= k < |attempts| ==> attempts[k].start <= attempts[k].end
    requires forall k, l :: 0 <= k <= l < |attempts| ==> attempts[k].start <= attempts[l].start
    requires i <= j < |attempts| && attempts[j].start - attempts[i].start <= length
    ensures j - i + 1 <= g.failureThreshold + length / g.resetTimeout
  {
    var q := length / g.resetTimeout;
    var m := if i < g.failureThreshold - 1 then g.failureThreshold - 1 else i;
    if m < j {
      SpacingAddsUp(g, attempts, m, j);
      assert attempts[i].start <= attempts[m].start;
      DivisionBound(j - m, g.resetTimeout, length);
      assert j - m <= q;
    }
  }

  lemma DivisionBound(n: nat, t: nat, length: nat)
    requires t > 0 && n * t <= length
    ensures n <= length / t
  {
    var q := length / t;
    assert q * t + t > length;
    if n > q {
      ProductGrows(q + 1, n, t);
    }
  }

  lemma ProductGrows(a: nat, b: nat, t: nat)
    requires a <= b
    ensures a * t <= b * t
  {
  }

  lemma {:induction false} AttemptsInOrder(g: Config, born: int, calls: seq<Call>, i: nat, j: nat)
    requires NonOverlapping(born, calls) && i <= j < |Attempts(g, born, calls)|
    ensures Attempts(g, born, calls)[i].start <= Attempts(g, born, calls)[j].start
    ensures calls != [] && Attempts(g, born, calls)[j].start <= Last(calls).start
    decreases |calls|
  {
    var n := |Attempts(g, born, Front(calls))|;
    assert NonOverlapping(born, Front(calls));
    if j < n {
      AttemptsInOrder(g, born, Front(calls), i, j);
    } else if i < n {
      AttemptsInOrder(g, born, Front(calls), i, i);
    }
  }
}
