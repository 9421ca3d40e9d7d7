/**
 The second breaker, `Breaker` (libs/go/resilience/circuitbreaker/breaker.go, the code outside the unresolved
 merge markers).  It stamps the opening time instead of the latest failure, compares the timeout with `>=`,
 and clears the success count on entering half-open.
 */
module ResilienceBreaker {
  import opened Options
  import opened FaultBreaker

  datatype Circuit = Circuit(state: State, failureCount: int, successCount: int, openedAt: int,
                             lastFailure: Option<int>, lastChange: int, version: int)

  // ---------- value model ----------

  function NewCircuit(epoch: int, now: int): Circuit {
    Circuit(Closed, 0, 0, epoch, None, now, 0)
  }

  function MoveTo(b: Circuit, s: State, now: int): Circuit {
    if b.state == s then b else
      var d := b.(state := s, lastChange := now, version := b.version + 1);
      match s
      case Open => d.(openedAt := now)
      case Closed => d.(failureCount := 0, successCount := 0)
      case HalfOpen => d.(successCount := 0)
  }

  function AllowRequest(c: Config, b: Circuit, now: int): (Circuit, bool) {
    match b.state
    case Closed => (b, true)
    case Open => if now - b.openedAt >= c.timeout then (MoveTo(b, HalfOpen, now), true) else (b, false)
    case HalfOpen => (b, true)
  }

  function OnSuccess(c: Config, b: Circuit, now: int): Circuit {
    match b.state
    case Closed => b.(failureCount := 0)
    case HalfOpen =>
      var d := b.(successCount := b.successCount + 1);
      if d.successCount >= c.successThreshold then MoveTo(d, Closed, now) else d
    case Open => b
  }

  function OnFailure(c: Config, b: Circuit, now: int): Circuit {
    var d := b.(lastFailure := Some(now));
    match d.state
    case Closed =>
      var e := d.(failureCount := d.failureCount + 1);
      if e.failureCount >= c.failureThreshold then MoveTo(e, Open, now) else e
    case HalfOpen => MoveTo(d, Open, now)
    case Open => d
  }

  function ForceClosed(b: Circuit, now: int): Circuit {
    MoveTo(b, Closed, now).(failureCount := 0, successCount := 0)
  }

  // ---------- sequential runs of both breakers ----------

  /** A call that starts, and if admitted finishes with an outcome, before the next action; or a reset. */
  datatype Action = Call(start: int, finish: int, ok: bool) | ResetAt(at: int)

  /** What a caller sees: whether the call was admitted, and the state afterwards. */
  datatype Seen = Seen(admitted: bool, state: State)

  function FaultAct(c: Config, b: Breaker, a: Action): (Breaker, Seen) {
    match a
    case Call(start, finish, ok) =>
      var r := CanExecute(c, b, start);
      var d := if r.1 then RecordResult(c, r.0, ok, finish) else r.0;
      (d, Seen(r.1, d.state))
    case ResetAt(_) => (DoReset(b), Seen(true, Closed))
  }

  function CircuitAct(c: Config, b: Circuit, a: Action): (Circuit, Seen) {
    match a
    case Call(start, finish, ok) =>
      var r := AllowRequest(c, b, start);
      var d := if !r.1 then r.0 else if ok then OnSuccess(c, r.0, finish) else OnFailure(c, r.0, finish);
      (d, Seen(r.1, d.state))
    case ResetAt(now) => (ForceClosed(b, now), Seen(true, Closed))
  }

  function FaultTrace(c: Config, b: Breaker, actions: seq<Action>): seq<Seen>
    decreases |actions|
  {
    if actions == [] then []
    else [FaultAct(c, b, actions[0]).1] + FaultTrace(c, FaultAct(c, b, actions[0]).0, actions[1..])
  }

  function CircuitTrace(c: Config, b: Circuit, actions: seq<Action>): seq<Seen>
    decreases |actions|
  {
    if actions == [] then []
    else [CircuitAct(c, b, actions[0]).1] + CircuitTrace(c, CircuitAct(c, b, actions[0]).0, actions[1..])
  }

  /** Some call of the run lands exactly on the timeout instant of an open breaker. */
  predicate Tie(c: Config, b: Breaker, actions: seq<Action>)
    decreases |actions|
  {
    actions != [] &&
    (|| (b.state == Open && actions[0].Call? && actions[0].start - b.lastFailure == c.timeout)
     || Tie(c, FaultAct(c, b, actions[0]).0, actions[1..]))
  }

  // ---------- the simulation ----------

  /** The two breakers agree on everything but when they opened. */
  ghost predicate Related(b: Breaker, d: Circuit) {
    && b.state == d.state
    && (b.state == Closed ==> b.failures == d.failureCount)
    && (b.state == HalfOpen ==> b.successes == d.successCount)
    && (b.state != HalfOpen ==> b.successes == 0)
  }

  /** Without overlapping calls they agree on that too. */
  ghost predicate InStep(b: Breaker, d: Circuit) {
    Related(b, d) && (b.state == Open ==> b.lastFailure == d.openedAt)
  }

  lemma ActRelated(c: Config, b: Breaker, d: Circuit, a: Action)
    requires c.Valid() && InStep(b, d)
    requires !(b.state == Open && a.Call? && a.start - b.lastFailure == c.timeout)
    ensures InStep(FaultAct(c, b, a).0, CircuitAct(c, d, a).0)
    ensures FaultAct(c, b, a).1 == CircuitAct(c, d, a).1
  { }

  lemma {:induction false} SequentialAgreeIff(c: Config, b: Breaker, d: Circuit, actions: seq<Action>)
    requires c.Valid() && InStep(b, d)
    ensures FaultTrace(c, b, actions) == CircuitTrace(c, d, actions) <==> !Tie(c, b, actions)
    decreases |actions|
  {
    if actions != [] {
      var a := actions[0];
      if b.state == Open && a.Call? && a.start - b.lastFailure == c.timeout {
        assert FaultTrace(c, b, actions)[0] != CircuitTrace(c, d, actions)[0];
      } else {
        ActRelated(c, b, d, a);
        SequentialAgreeIff(c, FaultAct(c, b, a).0, CircuitAct(c, d, a).0, actions[1..]);
        assert FaultTrace(c, b, actions)[1..] == FaultTrace(c, FaultAct(c, b, a).0, actions[1..]);
        assert CircuitTrace(c, d, actions)[1..] == CircuitTrace(c, CircuitAct(c, d, a).0, actions[1..]);
      }
    }
  }

  /**
   With the same thresholds and timeout, over every sequential run of calls, outcomes and resets, the two
   breakers make the same decisions and go through the same states if and only if no call lands exactly on
   the timeout instant.
   */
  lemma BreakersAgreeIff(c: Config, epoch: int, now: int, actions: seq<Action>)
    requires c.Valid()
    ensures FaultTrace(c, New(epoch), actions) == CircuitTrace(c, NewCircuit(epoch, now), actions)
            <==> !Tie(c, New(epoch), actions)
  {
    SequentialAgreeIff(c, New(epoch), NewCircuit(epoch, now), actions);
  }

  // ---------- any interleaving of any number of callers ----------

  function CircuitStep(c: Config, d: Circuit, e: Event): Circuit {
    match e
    case Ask(now) => AllowRequest(c, d, now).0
    case Record(ok, now) => if ok then OnSuccess(c, d, now) else OnFailure(c, d, now)
    case Reset(now) => ForceClosed(d, now)
  }

  function FaultSees(c: Config, b: Breaker, e: Event): Seen {
    Seen(e.Ask? ==> CanExecute(c, b, e.at).1, Step(c, b, e).state)
  }

  function CircuitSees(c: Config, d: Circuit, e: Event): Seen {
    Seen(e.Ask? ==> AllowRequest(c, d, e.at).1, CircuitStep(c, d, e).state)
  }

  function FaultLog(c: Config, b: Breaker, events: seq<Event>): seq<Seen>
    decreases |events|
  {
    if events == [] then [] else [FaultSees(c, b, events[0])] + FaultLog(c, Step(c, b, events[0]), events[1..])
  }

  function CircuitLog(c: Config, d: Circuit, events: seq<Event>): seq<Seen>
    decreases |events|
  {
    if events == [] then [] else
      [CircuitSees(c, d, events[0])] + CircuitLog(c, CircuitStep(c, d, events[0]), events[1..])
  }

  /** At `now` one open breaker has waited long enough and the other has not. */
  predicate Apart(c: Config, b: Breaker, d: Circuit, now: int) {
    (now - b.lastFailure > c.timeout) != (now - d.openedAt >= c.timeout)
  }

  /** Some request of the run reaches the open breakers while they are apart. */
  predicate Divided(c: Config, b: Breaker, d: Circuit, events: seq<Event>)
    decreases |events|
  {
    events != [] &&
    (|| (b.state == Open && events[0].Ask? && Apart(c, b, d, events[0].at))
     || Divided(c, Step(c, b, events[0]), CircuitStep(c, d, events[0]), events[1..]))
  }

  lemma StepRelated(c: Config, b: Breaker, d: Circuit, e: Event)
    requires c.Valid() && Related(b, d)
    requires !(b.state == Open && e.Ask? && Apart(c, b, d, e.at))
    ensures Related(Step(c, b, e), CircuitStep(c, d, e))
    ensures FaultSees(c, b, e) == CircuitSees(c, d, e)
  { }

  lemma {:induction false} LogsAgreeIff(c: Config, b: Breaker, d: Circuit, events: seq<Event>)
    requires c.Valid() && Related(b, d)
    ensures FaultLog(c, b, events) == CircuitLog(c, d, events) <==> !Divided(c, b, d, events)
    decreases |events|
  {
    if events != [] {
      var e := events[0];
      if b.state == Open && e.Ask? && Apart(c, b, d, e.at) {
        assert FaultLog(c, b, events)[0] != CircuitLog(c, d, events)[0];
      } else {
        StepRelated(c, b, d, e);
        LogsAgreeIff(c, Step(c, b, e), CircuitStep(c, d, e), events[1..]);
        assert FaultLog(c, b, events)[1..] == FaultLog(c, Step(c, b, e), events[1..]);
        assert CircuitLog(c, d, events)[1..] == CircuitLog(c, CircuitStep(c, d, e), events[1..]);
      }
    }
  }

  /** The clock starts at `from` or later and never goes back. */
  ghost predicate OrderedFrom(events: seq<Event>, from: int)
    decreases |events|
  {
    events == [] || (from <= events[0].at && OrderedFrom(events[1..], events[0].at))
  }

  /** Some request of the run reaches an open breaker in the time from `openedAt + timeout` to
      `lastFailure + timeout`, both included: after the opening has aged, but not the latest failure. */
  predicate Contested(c: Config, b: Breaker, d: Circuit, events: seq<Event>)
    decreases |events|
  {
    events != [] &&
    (|| (b.state == Open && events[0].Ask? && d.openedAt + c.timeout <= events[0].at <= b.lastFailure + c.timeout)
     || Contested(c, Step(c, b, events[0]), CircuitStep(c, d, events[0]), events[1..]))
  }

  /** Up to `now`, an open breaker opened no later than its latest failure. */
  ghost predicate InOrder(b: Breaker, d: Circuit, now: int) {
    b.state == Open ==> d.openedAt <= b.lastFailure <= now
  }

  lemma {:induction false} DividedIsContested(c: Config, b: Breaker, d: Circuit, events: seq<Event>, from: int)
    requires c.Valid() && Related(b, d) && InOrder(b, d, from) && OrderedFrom(events, from)
    ensures Divided(c, b, d, events) <==> Contested(c, b, d, events)
    decreases |events|
  {
    if events != [] {
      var e := events[0];
      if !(b.state == Open && e.Ask? && Apart(c, b, d, e.at)) {
        StepRelated(c, b, d, e);
        DividedIsContested(c, Step(c, b, e), CircuitStep(c, d, e), events[1..], e.at);
      }
    }
  }

  /**
   With the same thresholds and timeout, over every interleaving of the steps of any number of callers and resets
   at nondecreasing times, the two breakers make the same decisions and go through the same states if and only if
   no request reaches an open breaker in the time from `openedAt + timeout` to `lastFailure + timeout`.
   */
  lemma InterleavingsAgreeIff(c: Config, epoch: int, now: int, events: seq<Event>)
    requires c.Valid() && OrderedFrom(events, now)
    ensures FaultLog(c, New(epoch), events) == CircuitLog(c, NewCircuit(epoch, now), events)
            <==> !Contested(c, New(epoch), NewCircuit(epoch, now), events)
  {
    LogsAgreeIff(c, New(epoch), NewCircuit(epoch, now), events);
    DividedIsContested(c, New(epoch), NewCircuit(epoch, now), events, now);
  }

  /** With overlapping callers the time in question can be long: a late failure while open postpones the probe of one
      breaker but not of the other. */
  lemma OverlappingCallersDiffer()
    ensures var c := Config(1, 1, 10, 1);
            var b := RecordResult(c, RecordResult(c, New(0), false, 1), false, 5);
            var d := OnFailure(c, OnFailure(c, NewCircuit(0, 0), 1), 5);
            && b.state == d.state == Open
            && 12 - b.lastFailure != c.timeout && 12 - d.openedAt != c.timeout
            && !CanExecute(c, b, 12).1 && AllowRequest(c, d, 12).1
  { }

  // ---------- what the history alone says of the second breaker ----------

  function CircuitAfter(c: Config, epoch: int, now: int, events: seq<Event>): Circuit {
    if events == [] then NewCircuit(epoch, now)
    else CircuitStep(c, CircuitAfter(c, epoch, now, events[..|events| - 1]), events[|events| - 1])
  }

  /** How many events of the run changed the state. */
  function StateChanges(c: Config, epoch: int, now: int, events: seq<Event>): nat {
    if events == [] then 0 else
      var past := events[..|events| - 1];
      StateChanges(c, epoch, now, past)
      + (if CircuitAfter(c, epoch, now, events).state == CircuitAfter(c, epoch, now, past).state then 0 else 1)
  }

  /** When the state last changed, or the breaker was made. */
  function LastChangeAt(c: Config, epoch: int, now: int, events: seq<Event>): int {
    if events == [] then now else
      var past := events[..|events| - 1];
      if CircuitAfter(c, epoch, now, events).state == CircuitAfter(c, epoch, now, past).state
      then LastChangeAt(c, epoch, now, past) else events[|events| - 1].at
  }

  /**
   The invariant of every run of the second breaker, for any interleaving: while closed, the failure count is the
   trailing failures of the history and below its threshold; the version counts the state changes, the change time
   is that of the last one, an open breaker's opening time is its change time, and every recorded failure is
   remembered as the latest.
   */
  lemma {:induction false} CircuitHistory(c: Config, epoch: int, now: int, events: seq<Event>)
    requires c.Valid()
    ensures var d := CircuitAfter(c, epoch, now, events);
            && (d.state == Closed ==> d.failureCount == TrailingFailures(events) < c.failureThreshold)
            && d.version == StateChanges(c, epoch, now, events)
            && d.lastChange == LastChangeAt(c, epoch, now, events)
            && (d.state == Open ==> d.openedAt == d.lastChange)
            && d.lastFailure == LatestFailure(events)
  {
    if events != [] { CircuitHistory(c, epoch, now, events[..|events| - 1]); }
  }

  // ---------- the object ----------

  class CircuitObject {
    const config: Config
    var state: State
    var failureCount: int
    var successCount: int
    var openedAt: int
    var lastFailure: Option<int>
    var lastChange: int
    var version: int

    ghost function Value(): Circuit
      reads this
    {
      Circuit(state, failureCount, successCount, openedAt, lastFailure, lastChange, version)
    }

    constructor (config: Config, epoch: int, now: int)
      ensures this.config == config && Value() == NewCircuit(epoch, now)
    {
      this.config, state, failureCount, successCount := config, Closed, 0, 0;
      openedAt, lastFailure, lastChange, version := epoch, None, now, 0;
    }

    method Transition(newState: State, now: int)
      modifies this
      ensures Value() == MoveTo(old(Value()), newState, now)
    {
      if state == newState {
        return;
      }
      state := newState;
      lastChange := now;
      version := version + 1;
      if newState == Open {
        openedAt := now;
      }
      if newState == Closed {
        failureCount := 0;
        successCount := 0;
      }
      if newState == HalfOpen {
        successCount := 0;
      }
    }

    method Allow(now: int) returns (ok: bool)
      modifies this
      ensures (Value(), ok) == AllowRequest(config, old(Value()), now)
    {
      match state {
        case Closed => return true;
        case Open =>
          if now - openedAt >= config.timeout {
            Transition(HalfOpen, now);
            return true;
          }
          return false;
        case HalfOpen => return true;
      }
    }

    method RecordSuccess(now: int)
      modifies this
      ensures Value() == OnSuccess(config, old(Value()), now)
    {
      match state {
        case Closed => failureCount := 0;
        case HalfOpen =>
          successCount := successCount + 1;
          if successCount >= config.successThreshold {
            Transition(Closed, now);
          }
        case Open =>
      }
    }

    method RecordFailure(now: int)
      modifies this
      ensures Value() == OnFailure(config, old(Value()), now)
    {
      lastFailure := Some(now);
      match state {
        case Closed =>
          failureCount := failureCount + 1;
          if failureCount >= config.failureThreshold {
            Transition(Open, now);
          }
        case HalfOpen => Transition(Open, now);
        case Open =>
      }
    }

    method Reset(now: int)
      modifies this
      ensures Value() == ForceClosed(old(Value()), now)
    {
      Transition(Closed, now);
      failureCount := 0;
      successCount := 0;
    }

    /** `Execute` with the operation's outcome and the two clock readings as arguments. */
    method Execute(start: int, ok: bool, finish: int) returns (admitted: bool)
      modifies this
      ensures (Value(), Seen(admitted, state)) == CircuitAct(config, old(Value()), Call(start, finish, ok))
    {
      admitted := Allow(start);
      if !admitted {
        return;
      }
      if !ok {
        RecordFailure(finish);
        return;
      }
      RecordSuccess(finish);
    }
  }
}
