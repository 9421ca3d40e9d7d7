/**
 `fault.CircuitBreaker` (libs/go/src/fault/circuitbreaker.go).  Every step holds the lock, so any number of
 concurrent callers is exactly an interleaving of `canExecute`, `recordResult` and `Reset` steps; a run is
 any finite sequence of such steps, each with its own clock reading.
 */
module FaultBreaker {
  import opened Options

  datatype State = Closed | Open | HalfOpen

  /** A configuration that `Validate` accepts. */
  datatype Config = Config(failureThreshold: int, successThreshold: int, timeout: int, halfOpenRequests: int) {
    predicate Valid() {
      failureThreshold > 0 && successThreshold > 0 && timeout > 0 && halfOpenRequests > 0
    }
  }

  datatype Breaker = Breaker(state: State, failures: int, successes: int, lastFailure: int)

  datatype Event = Ask(at: int) | Record(ok: bool, at: int) | Reset(at: int)

  // ---------- value model ----------

  function New(epoch: int): Breaker {
    Breaker(Closed, 0, 0, epoch)
  }

  function TransitionTo(b: Breaker, s: State): Breaker {
    if s == Closed then b.(state := s, failures := 0, successes := 0) else b.(state := s)
  }

  function CanExecute(c: Config, b: Breaker, now: int): (Breaker, bool) {
    match b.state
    case Closed => (b, true)
    case Open => if now - b.lastFailure > c.timeout then (TransitionTo(b, HalfOpen), true) else (b, false)
    case HalfOpen => (b, true)
  }

  function RecordFailure(c: Config, b: Breaker, now: int): Breaker {
    var d := b.(failures := b.failures + 1, lastFailure := now, successes := 0);
    match d.state
    case Closed => if d.failures >= c.failureThreshold then TransitionTo(d, Open) else d
    case HalfOpen => TransitionTo(d, Open)
    case Open => d
  }

  function RecordSuccess(c: Config, b: Breaker): Breaker {
    match b.state
    case Closed => b.(failures := 0)
    case HalfOpen =>
      var d := b.(successes := b.successes + 1);
      if d.successes >= c.successThreshold then TransitionTo(d, Closed) else d
    case Open => b
  }

  function RecordResult(c: Config, b: Breaker, ok: bool, now: int): Breaker {
    if ok then RecordSuccess(c, b) else RecordFailure(c, b, now)
  }

  function DoReset(b: Breaker): Breaker {
    b.(state := Closed, failures := 0, successes := 0)
  }

  function Step(c: Config, b: Breaker, e: Event): Breaker {
    match e
    case Ask(now) => CanExecute(c, b, now).0
    case Record(ok, now) => RecordResult(c, b, ok, now)
    case Reset(_) => DoReset(b)
  }

  function After(c: Config, epoch: int, events: seq<Event>): Breaker {
    if events == [] then New(epoch) else Step(c, After(c, epoch, events[..|events| - 1]), events[|events| - 1])
  }

  // ---------- what the history alone says ----------

  /** Failures recorded since the last recorded success or reset. */
  function TrailingFailures(events: seq<Event>): nat {
    if events == [] then 0 else
      var past := TrailingFailures(events[..|events| - 1]);
      match events[|events| - 1]
      case Ask(_) => past
      case Record(ok, _) => if ok then 0 else past + 1
      case Reset(_) => 0
  }

  /** When the latest failure was recorded. */
  function LatestFailure(events: seq<Event>): Option<int> {
    if events == [] then None else
      match events[|events| - 1]
      case Record(false, now) => Some(now)
      case _ => LatestFailure(events[..|events| - 1])
  }

  /** Successes recorded since the breaker last became half-open; zero when it is not. */
  function ProbeSuccesses(c: Config, epoch: int, events: seq<Event>): nat {
    if events == [] || After(c, epoch, events).state != HalfOpen then 0 else
      var past := events[..|events| - 1];
      if After(c, epoch, past).state != HalfOpen then 0
      else ProbeSuccesses(c, epoch, past) + (if events[|events| - 1].Record? then 1 else 0)
  }

  /**
   The invariant of every run, for any number of interleaved callers: closed exactly while the failure count
   is below its threshold; while closed that count is the trailing failures of the history; successes are
   zero outside half-open and inside it count exactly the successes since it was entered, below their
   threshold; and outside closed the remembered failure is the latest one recorded.
   */
  lemma {:induction false} HistoryInvariant(c: Config, epoch: int, events: seq<Event>)
    requires c.Valid()
    ensures var b := After(c, epoch, events);
            && 0 <= b.failures
            && (b.state == Closed <==> b.failures < c.failureThreshold)
            && (b.state == Closed ==> b.failures == TrailingFailures(events))
            && (b.state != HalfOpen ==> b.successes == 0)
            && (b.state == HalfOpen ==> b.successes == ProbeSuccesses(c, epoch, events) < c.successThreshold)
            && (b.state != Closed ==> LatestFailure(events).Some?)
            && (LatestFailure(events).Some? ==> b.lastFailure == LatestFailure(events).value)
  {
    if events != [] {
      HistoryInvariant(c, epoch, events[..|events| - 1]);
    }
  }

  /** An open breaker admits exactly when more than the timeout has passed since the latest failure, and then
      half-open starts with no successes. */
  lemma {:induction false} OpenAdmitsIff(c: Config, epoch: int, events: seq<Event>, now: int)
    requires c.Valid() && After(c, epoch, events).state == Open
    ensures LatestFailure(events).Some?
    ensures var r := CanExecute(c, After(c, epoch, events), now);
            && (r.1 <==> now - LatestFailure(events).value > c.timeout)
            && (r.1 ==> r.0.state == HalfOpen && r.0.successes == 0)
  {
    HistoryInvariant(c, epoch, events);
  }

  /** The breaker opens from closed only on a failure that makes `FailureThreshold` in a row. */
  lemma OpensOnThreshold(c: Config, epoch: int, events: seq<Event>, e: Event)
    requires c.Valid() && After(c, epoch, events).state == Closed
    ensures Step(c, After(c, epoch, events), e).state == Open
            <==> e.Record? && !e.ok && TrailingFailures(events + [e]) == c.failureThreshold
  {
    HistoryInvariant(c, epoch, events);
    assert (events + [e])[..|events|] == events;
  }

  // ---------- the reference breaker: it keeps the events and no counters ----------

  /** More than the timeout has passed since the latest failure. */
  predicate Aged(c: Config, events: seq<Event>, now: int) {
    LatestFailure(events).Some? && LatestFailure(events).value + c.timeout < now
  }

  /** The state that the events alone describe. */
  function Phase(c: Config, events: seq<Event>): State
    decreases |events|, 0
  {
    if events == [] then Closed else
      var past := events[..|events| - 1];
      var was := Phase(c, past);
      match events[|events| - 1]
      case Ask(now) => if was == Open && Aged(c, past, now) then HalfOpen else was
      case Record(true, _) => if was == HalfOpen && Won(c, past) + 1 >= c.successThreshold then Closed else was
      case Record(false, _) => if was == Closed && TrailingFailures(events) < c.failureThreshold then Closed else Open
      case Reset(_) => Closed
  }

  /** Successes recorded since the state last became half-open. */
  function Won(c: Config, events: seq<Event>): nat
    decreases |events|, 1
  {
    if events == [] || Phase(c, events) != HalfOpen then 0 else
      var past, last := events[..|events| - 1], events[|events| - 1];
      if Phase(c, past) != HalfOpen then 0 else Won(c, past) + (if last.Record? && last.ok then 1 else 0)
  }

  ghost predicate Follows(c: Config, b: Breaker, events: seq<Event>) {
    && b.state == Phase(c, events)
    && (b.state == Closed ==> b.failures == TrailingFailures(events))
    && (b.state != Closed ==> LatestFailure(events) == Some(b.lastFailure))
    && b.successes == Won(c, events)
  }

  lemma StepFollows(c: Config, b: Breaker, events: seq<Event>)
    requires c.Valid() && events != [] && Follows(c, b, events[..|events| - 1])
    ensures Follows(c, Step(c, b, events[|events| - 1]), events)
  { }

  lemma {:induction false} RunFollows(c: Config, epoch: int, events: seq<Event>)
    requires c.Valid()
    ensures Follows(c, After(c, epoch, events), events)
  {
    if events != [] {
      RunFollows(c, epoch, events[..|events| - 1]);
      StepFollows(c, After(c, epoch, events[..|events| - 1]), events);
    }
  }

  /**
   For every run, of any number of interleaved callers, the breaker is in the state that the events alone describe,
   and a request is admitted exactly when that state is not open or the latest failure has aged.
   */
  lemma FollowsHistory(c: Config, epoch: int, events: seq<Event>, now: int)
    requires c.Valid()
    ensures After(c, epoch, events).state == Phase(c, events)
    ensures CanExecute(c, After(c, epoch, events), now).1 <==> Phase(c, events) != Open || Aged(c, events, now)
  {
    RunFollows(c, epoch, events);
  }

  /** The clock never goes back, and has not passed `now`. */
  ghost predicate Ordered(events: seq<Event>, now: int) {
    events == [] || (events[|events| - 1].at <= now && Ordered(events[..|events| - 1], events[|events| - 1].at))
  }

  lemma {:induction false} LatestIsLatest(events: seq<Event>, now: int)
    requires Ordered(events, now)
    ensures LatestFailure(events).Some? ==> LatestFailure(events).value <= now
    ensures forall i :: 0 <= i < |events| && events[i].Record? && !events[i].ok
                        ==> LatestFailure(events).Some? && events[i].at <= LatestFailure(events).value
  {
    if events != [] {
      var last, past := events[|events| - 1], events[..|events| - 1];
      LatestIsLatest(past, last.at);
      assert forall i :: 0 <= i < |past| ==> events[i] == past[i];
    }
  }

  /** A quiet period before every probe: in a run at nondecreasing times, when an open breaker admits at
      `now`, every failure ever recorded is more than the timeout ago. */
  lemma QuietBeforeProbe(c: Config, epoch: int, events: seq<Event>, now: int)
    requires c.Valid() && Ordered(events, now)
    requires After(c, epoch, events).state == Open && CanExecute(c, After(c, epoch, events), now).1
    ensures forall i :: 0 <= i < |events| && events[i].Record? && !events[i].ok ==> now - events[i].at > c.timeout
  {
    OpenAdmitsIff(c, epoch, events, now);
    LatestIsLatest(events, now);
  }

  // ---------- the object ----------

  class CircuitBreaker {
    const config: Config
    var state: State
    var failures: int
    var successes: int
    var lastFailure: int

    ghost function Value(): Breaker
      reads this
    {
      Breaker(state, failures, successes, lastFailure)
    }

    constructor (config: Config, epoch: int)
      ensures this.config == config && Value() == New(epoch)
    {
      this.config, state, failures, successes, lastFailure := config, Closed, 0, 0, epoch;
    }

    method Transition(newState: State)
      modifies this
      ensures Value() == TransitionTo(old(Value()), newState)
    {
      state := newState;
      if newState == Closed {
        failures := 0;
        successes := 0;
      }
    }

    method CanExecuteNow(now: int) returns (ok: bool)
      modifies this
      ensures (Value(), ok) == CanExecute(config, old(Value()), now)
    {
      match state {
        case Closed => return true;
        case Open =>
          if now - lastFailure > config.timeout {
            Transition(HalfOpen);
            return true;
          }
          return false;
        case HalfOpen => return true;
      }
    }

    method RecordOutcome(ok: bool, now: int)
      modifies this
      ensures Value() == RecordResult(config, old(Value()), ok, now)
    {
      if !ok {
        failures := failures + 1;
        lastFailure := now;
        successes := 0;
        match state {
          case Closed =>
            if failures >= config.failureThreshold {
              Transition(Open);
            }
          case HalfOpen => Transition(Open);
          case Open =>
        }
      } else {
        match state {
          case Closed => failures := 0;
          case HalfOpen =>
            successes := successes + 1;
            if successes >= config.successThreshold {
              Transition(Closed);
            }
          case Open =>
        }
      }
    }

    method ResetBreaker()
      modifies this
      ensures Value() == DoReset(old(Value()))
    {
      state := Closed;
      failures := 0;
      successes := 0;
    }
  }

  /** `NewCircuitBreaker`: nothing for a configuration that does not validate. */
  method NewCircuitBreaker(config: Config, epoch: int) returns (cb: CircuitBreaker?)
    ensures cb == null <==> !config.Valid()
    ensures cb != null ==> fresh(cb) && cb.config == config && cb.Value() == New(epoch)
  {
    if !config.Valid() {
      return null;
    }
    cb := new CircuitBreaker(config, epoch);
  }
}
