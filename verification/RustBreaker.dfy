/**
 The Rust breaker (libs/rust/rust-common/src/circuit_breaker.rs) with its half-open quota.  Each method is one
 atomic step; a run is any finite sequence of steps of any number of callers.
 */
module RustBreaker {
  import opened Options
  import opened FaultBreaker

  datatype Limits = Limits(failureThreshold: nat, successThreshold: nat, timeout: nat, halfOpenMax: nat)

  datatype Gate = Gate(state: State, failures: nat, successes: nat, lastFailure: Option<int>, halfOpenRequests: nat)

  datatype Move = Allow(at: int) | Success | Failure(at: int) | ResetGate

  // ---------- value model ----------

  function NewGate(): Gate {
    Gate(Closed, 0, 0, None, 0)
  }

  function AllowRequest(c: Limits, g: Gate, now: int): (Gate, bool) {
    match g.state
    case Closed => (g, true)
    case Open =>
      if g.lastFailure.Some? && now - g.lastFailure.value >= c.timeout
      then (g.(state := HalfOpen, halfOpenRequests := 0, successes := 0), true)
      else (g, false)
    case HalfOpen => (g.(halfOpenRequests := g.halfOpenRequests + 1), g.halfOpenRequests < c.halfOpenMax)
  }

  function OnSuccess(c: Limits, g: Gate): Gate {
    match g.state
    case HalfOpen =>
      var n := g.successes + 1;
      if n >= c.successThreshold then g.(state := Closed, failures := 0, successes := 0) else g.(successes := n)
    case Closed => g.(failures := 0)
    case Open => g
  }

  function OnFailure(c: Limits, g: Gate, now: int): Gate {
    var h := g.(failures := g.failures + 1, lastFailure := Some(now));
    if h.state != Open && h.failures >= c.failureThreshold then h.(state := Open, successes := 0) else h
  }

  function Step(c: Limits, g: Gate, m: Move): Gate {
    match m
    case Allow(now) => AllowRequest(c, g, now).0
    case Success => OnSuccess(c, g)
    case Failure(now) => OnFailure(c, g, now)
    case ResetGate => NewGate()
  }

  function After(c: Limits, moves: seq<Move>): Gate {
    if moves == [] then NewGate() else Step(c, After(c, moves[..|moves| - 1]), moves[|moves| - 1])
  }

  // ---------- the reference breaker: it keeps the moves and no counters ----------

  /** Failures since the last success or reset. */
  function InARow(moves: seq<Move>): nat {
    if moves == [] then 0 else
      var past := InARow(moves[..|moves| - 1]);
      match moves[|moves| - 1]
      case Allow(_) => past
      case Success => 0
      case Failure(_) => past + 1
      case ResetGate => 0
  }

  /** When the latest failure since the last reset was recorded. */
  function LatestFailure(moves: seq<Move>): Option<int> {
    if moves == [] then None else
      match moves[|moves| - 1]
      case Failure(now) => Some(now)
      case ResetGate => None
      case _ => LatestFailure(moves[..|moves| - 1])
  }

  /** The timeout has passed since the latest failure. */
  predicate Aged(c: Limits, moves: seq<Move>, now: int) {
    LatestFailure(moves).Some? && LatestFailure(moves).value + c.timeout <= now
  }

  /** The state that the moves alone describe. */
  function Phase(c: Limits, moves: seq<Move>): State
    decreases |moves|, 0
  {
    if moves == [] then Closed else
      var past := moves[..|moves| - 1];
      var was := Phase(c, past);
      match moves[|moves| - 1]
      case Allow(now) => if was == Open && Aged(c, past, now) then HalfOpen else was
      case Success => if was == HalfOpen && Won(c, past) + 1 >= c.successThreshold then Closed else was
      case Failure(_) => if was == Closed && InARow(moves) < c.failureThreshold then Closed else Open
      case ResetGate => Closed
  }

  /** Successes recorded since the state last became half-open. */
  function Won(c: Limits, moves: seq<Move>): nat
    decreases |moves|, 1
  {
    if moves == [] || Phase(c, moves) != HalfOpen then 0 else
      var past := moves[..|moves| - 1];
      if Phase(c, past) != HalfOpen then 0 else Won(c, past) + (if moves[|moves| - 1].Success? then 1 else 0)
  }

  /** Requests made, admitted or not, since the one that made the state half-open. */
  function Asked(c: Limits, moves: seq<Move>): nat {
    if moves == [] || Phase(c, moves) != HalfOpen then 0 else
      var past := moves[..|moves| - 1];
      if Phase(c, past) != HalfOpen then 0 else Asked(c, past) + (if moves[|moves| - 1].Allow? then 1 else 0)
  }

  /** Whether a request after these moves should be admitted. */
  predicate Admits(c: Limits, moves: seq<Move>, now: int) {
    match Phase(c, moves)
    case Closed => true
    case Open => Aged(c, moves, now)
    case HalfOpen => Asked(c, moves) < c.halfOpenMax
  }

  /** The counters mean what the moves say. */
  ghost predicate Follows(c: Limits, g: Gate, moves: seq<Move>) {
    && g.state == Phase(c, moves)
    && g.lastFailure == LatestFailure(moves)
    && (if g.state == Closed then g.failures == InARow(moves) else g.failures >= c.failureThreshold)
    && (g.state == HalfOpen ==> g.successes == Won(c, moves))
    && (g.state == HalfOpen ==> g.halfOpenRequests == Asked(c, moves))
  }

  lemma StepFollows(c: Limits, g: Gate, moves: seq<Move>)
    requires moves != [] && Follows(c, g, moves[..|moves| - 1])
    ensures Follows(c, Step(c, g, moves[|moves| - 1]), moves)
  { }

  lemma {:induction false} RunFollows(c: Limits, moves: seq<Move>)
    ensures Follows(c, After(c, moves), moves)
  {
    if moves != [] {
      RunFollows(c, moves[..|moves| - 1]);
      StepFollows(c, After(c, moves[..|moves| - 1]), moves);
    }
  }

  /**
   For every run the breaker is in the state that the moves alone describe, and every request is decided by them:
   admitted while closed, after the timeout while open, and within the quota while half-open.
   */
  lemma FollowsHistory(c: Limits, moves: seq<Move>, now: int)
    ensures After(c, moves).state == Phase(c, moves)
    ensures AllowRequest(c, After(c, moves), now).1 <==> Admits(c, moves, now)
  {
    RunFollows(c, moves);
  }

  /** From closed it opens exactly on a failure that makes `failure_threshold` in a row, or any if that is zero. */
  lemma OpensIff(c: Limits, moves: seq<Move>, m: Move)
    requires After(c, moves).state == Closed
    ensures After(c, moves + [m]).state == Open
            <==> m.Failure? && InARow(moves + [m]) == (if c.failureThreshold == 0 then 1 else c.failureThreshold)
    ensures After(c, moves + [m]).state != HalfOpen
  {
    RunFollows(c, moves);
    StillBelow(c, moves);
    AfterOne(c, moves, m);
    assert (moves + [m])[..|moves|] == moves;
  }

  lemma {:induction false} StillBelow(c: Limits, moves: seq<Move>)
    requires Phase(c, moves) == Closed
    ensures InARow(moves) == 0 || InARow(moves) < c.failureThreshold
  {
    if moves != [] {
      var past := moves[..|moves| - 1];
      if Phase(c, past) == Closed { StillBelow(c, past); }
    }
  }

  // ---------- half-open episodes, read off the run ----------

  /** Requests admitted in the current half-open episode, the one that opened it included. */
  function EpisodeAdmits(c: Limits, moves: seq<Move>): nat {
    if moves == [] || After(c, moves).state != HalfOpen then 0 else
      var past, last := moves[..|moves| - 1], moves[|moves| - 1];
      if After(c, past).state != HalfOpen then 1
      else EpisodeAdmits(c, past) + (if last.Allow? && AllowRequest(c, After(c, past), last.at).1 then 1 else 0)
  }

  /** Outcomes recorded in the current half-open episode. */
  function EpisodeReports(c: Limits, moves: seq<Move>): nat {
    if moves == [] || After(c, moves).state != HalfOpen then 0 else
      var past, last := moves[..|moves| - 1], moves[|moves| - 1];
      if After(c, past).state != HalfOpen then 0
      else EpisodeReports(c, past) + (if last.Success? || last.Failure? then 1 else 0)
  }

  /**
   The invariant of every run: an open breaker knows when it failed; outside closed the failures have reached
   their threshold, so that any failure while half-open reopens; in half-open the counters are the episode's
   admissions and outcomes, and at most `half_open_max_requests + 1` requests are admitted.
   */
  lemma {:induction false} EpisodeInvariant(c: Limits, moves: seq<Move>)
    ensures var g := After(c, moves);
            && (g.state == Open ==> g.lastFailure.Some?)
            && (g.state != Closed ==> g.failures >= c.failureThreshold)
            && (g.state != HalfOpen ==> g.successes == 0)
            && (g.state == HalfOpen ==>
                && EpisodeAdmits(c, moves)
                   == 1 + (if g.halfOpenRequests < c.halfOpenMax then g.halfOpenRequests else c.halfOpenMax)
                && EpisodeReports(c, moves) == g.successes
                && (g.successes == 0 || g.successes < c.successThreshold))
  {
    if moves != [] { EpisodeInvariant(c, moves[..|moves| - 1]); }
  }

  lemma EpisodeQuota(c: Limits, moves: seq<Move>)
    ensures EpisodeAdmits(c, moves) <= c.halfOpenMax + 1
  {
    EpisodeInvariant(c, moves);
  }

  lemma HalfOpenFailureReopens(c: Limits, moves: seq<Move>, now: int)
    requires After(c, moves).state == HalfOpen
    ensures After(c, moves + [Failure(now)]).state == Open
  {
    EpisodeInvariant(c, moves);
    assert (moves + [Failure(now)])[..|moves|] == moves;
  }

  /** The whole quota of an episode has been used and has reported, and the breaker is still half-open. */
  ghost predicate Stuck(c: Limits, moves: seq<Move>) {
    && After(c, moves).state == HalfOpen
    && EpisodeAdmits(c, moves) == c.halfOpenMax + 1 == EpisodeReports(c, moves)
  }

  // ---------- a run that gets stuck ----------

  lemma AfterOne(c: Limits, moves: seq<Move>, m: Move)
    ensures After(c, moves + [m]) == Step(c, After(c, moves), m)
  {
    assert (moves + [m])[..|moves|] == moves;
  }

  /** Failures from the start open the breaker at their threshold, or at the first if that is zero. */
  lemma {:induction false} FailuresOpen(c: Limits, n: nat) returns (moves: seq<Move>)
    ensures var g := After(c, moves);
            && g.failures == n && (n > 0 ==> g.lastFailure == Some(0))
            && g.state == (if n > 0 && n >= c.failureThreshold then Open else Closed)
  {
    if n == 0 {
      moves := [];
    } else {
      var fewer := FailuresOpen(c, n - 1);
      moves := fewer + [Failure(0)];
      AfterOne(c, fewer, Failure(0));
    }
  }

  /** A run whose last move opens a fresh half-open episode. */
  lemma ProbingRun(c: Limits) returns (moves: seq<Move>)
    ensures var g := After(c, moves); g.state == HalfOpen && g.successes == 0 && g.halfOpenRequests == 0
  {
    var tripped := FailuresOpen(c, if c.failureThreshold == 0 then 1 else c.failureThreshold);
    moves := tripped + [Allow(c.timeout)];
    AfterOne(c, tripped, Allow(c.timeout));
  }

  lemma {:induction false} AllowsCount(c: Limits, start: seq<Move>, n: nat) returns (moves: seq<Move>)
    requires After(c, start).state == HalfOpen
    ensures var g := After(c, start); After(c, moves) == g.(halfOpenRequests := g.halfOpenRequests + n)
  {
    if n == 0 {
      moves := start;
    } else {
      var fewer := AllowsCount(c, start, n - 1);
      moves := fewer + [Allow(0)];
      AfterOne(c, fewer, Allow(0));
    }
  }

  lemma {:induction false} SuccessesCount(c: Limits, start: seq<Move>, n: nat) returns (moves: seq<Move>)
    requires After(c, start).state == HalfOpen && After(c, start).successes + n < c.successThreshold
    ensures var g := After(c, start); After(c, moves) == g.(successes := g.successes + n)
  {
    if n == 0 {
      moves := start;
    } else {
      var fewer := SuccessesCount(c, start, n - 1);
      moves := fewer + [Success];
      AfterOne(c, fewer, Success);
    }
  }

  /** Trip, probe, use the whole quota, and let all of it succeed: too few successes to close. */
  lemma StuckRun(c: Limits) returns (moves: seq<Move>)
    requires c.successThreshold > c.halfOpenMax + 1
    ensures Stuck(c, moves)
  {
    var probing := ProbingRun(c);
    var asked := AllowsCount(c, probing, c.halfOpenMax);
    moves := SuccessesCount(c, asked, c.halfOpenMax + 1);
    EpisodeInvariant(c, moves);
  }

  /** An episode can use up and hear back from its whole quota without leaving half-open exactly when the
      success threshold exceeds the quota. */
  lemma StuckIff(c: Limits)
    ensures (exists moves :: Stuck(c, moves)) <==> c.successThreshold > c.halfOpenMax + 1
  {
    if c.successThreshold > c.halfOpenMax + 1 {
      var moves := StuckRun(c);
    } else {
      forall moves ensures !Stuck(c, moves) { EpisodeInvariant(c, moves); }
    }
  }

  ghost predicate OnlyAllows(moves: seq<Move>) {
    forall i :: 0 <= i < |moves| ==> moves[i].Allow?
  }

  /** Once stuck, every later request is rejected at whatever time, until an outcome or a reset arrives. */
  lemma {:induction false} StuckRejectsForever(c: Limits, moves: seq<Move>, later: seq<Move>, now: int)
    requires Stuck(c, moves) && OnlyAllows(later)
    ensures var g := After(c, moves + later);
            && g.state == HalfOpen && g.halfOpenRequests >= c.halfOpenMax
            && !AllowRequest(c, g, now).1
  {
    if later == [] {
      assert moves + later == moves;
      EpisodeInvariant(c, moves);
    } else {
      var n := |later| - 1;
      StuckRejectsForever(c, moves, later[..n], now);
      assert moves + later == (moves + later[..n]) + [later[n]];
      AfterOne(c, moves + later[..n], later[n]);
    }
  }

  // ---------- the object ----------

  class RustCircuit {
    const limits: Limits
    var state: State
    var failures: nat
    var successes: nat
    var lastFailure: Option<int>
    var halfOpenRequests: nat

    ghost function Value(): Gate
      reads this
    {
      Gate(state, failures, successes, lastFailure, halfOpenRequests)
    }

    constructor (limits: Limits)
      ensures this.limits == limits && Value() == NewGate()
    {
      this.limits, state, failures, successes, lastFailure, halfOpenRequests := limits, Closed, 0, 0, None, 0;
    }

    method Request(now: int) returns (ok: bool)
      modifies this
      ensures (Value(), ok) == AllowRequest(limits, old(Value()), now)
    {
      match state {
        case Closed => return true;
        case Open =>
          if lastFailure.Some? {
            if now - lastFailure.value >= limits.timeout {
              state := HalfOpen;
              halfOpenRequests := 0;
              successes := 0;
              return true;
            }
          }
          return false;
        case HalfOpen =>
          var current := halfOpenRequests;
          halfOpenRequests := halfOpenRequests + 1;
          return current < limits.halfOpenMax;
      }
    }

    method RecordSuccess()
      modifies this
      ensures Value() == OnSuccess(limits, old(Value()))
    {
      match state {
        case HalfOpen =>
          successes := successes + 1;
          if successes >= limits.successThreshold {
            state := Closed;
            failures := 0;
            successes := 0;
          }
        case Closed => failures := 0;
        case Open =>
      }
    }

    method RecordFailure(now: int)
      modifies this
      ensures Value() == OnFailure(limits, old(Value()), now)
    {
      failures := failures + 1;
      lastFailure := Some(now);
      match state {
        case Closed =>
          if failures >= limits.failureThreshold {
            state := Open;
            successes := 0;
          }
        case HalfOpen =>
          if failures >= limits.failureThreshold {
            state := Open;
            successes := 0;
          }
        case Open =>
      }
    }

    method Reset()
      modifies this
      ensures Value() == NewGate()
    {
      state := Closed;
      failures := 0;
      successes := 0;
      halfOpenRequests := 0;
      lastFailure := None;
    }
  }
}
