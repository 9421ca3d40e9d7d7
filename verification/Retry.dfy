/**
 Retry with exponential backoff (libs/go/resilience/retry/handler.go) composed with the resilience breaker.
 The operation's outcomes, the clock, the context's cancellation and the random draws are parameters,
 indexed by attempt.
 */
module Retry {
  import opened FaultBreaker
  import opened ResilienceBreaker

  datatype Policy = Policy(maxAttempts: int, baseDelay: int, maxDelay: int, multiplier: real, jitter: real)

  /** Everything an execution reads from outside, per attempt. */
  datatype World = World(succeeds: nat -> bool, clock: nat -> int, draw: nat -> real,
                         cancelledBefore: nat -> bool, cancelledWaiting: nat -> bool)

  datatype Outcome = Success | CircuitOpen | Cancelled | Exhausted

  /** The outcome, how often the operation ran, the delays scheduled, and the breaker afterwards. */
  datatype Report = Report(outcome: Outcome, runs: nat, delays: seq<int>, circuit: Circuit)

  // ---------- backoff ----------

  function Pow(m: real, n: nat): real {
    if n == 0 then 1.0 else m * Pow(m, n - 1)
  }

  function Min(a: real, b: real): real {
    if a > b then b else a
  }

  /** The delay before jitter, capped. */
  function Backoff(p: Policy, attempt: nat): real {
    Min(p.baseDelay as real * Pow(p.multiplier, attempt), p.maxDelay as real)
  }

  function JitterRange(base: real, jitter: real): real {
    base * jitter
  }

  /** A share of the jitter range, up or down. */
  function Share(range: real, part: real): real {
    part * range
  }

  /** Not below zero, and then not above the cap. */
  function Clamp(x: real, cap: real): real {
    Min(if x < 0.0 then 0.0 else x, cap)
  }

  /** `CalculateDelay` with the random draw as an argument; the duration drops the fraction. */
  function CalculateDelay(p: Policy, attempt: nat, draw: real): (d: int)
    ensures d <= p.maxDelay
    ensures 0 <= p.maxDelay ==> 0 <= d
  {
    var base := Backoff(p, attempt);
    Clamp(base + Share(JitterRange(base, p.jitter), draw * 2.0 - 1.0), p.maxDelay as real).Floor
  }

  lemma Scales(m: real, x: real)
    requires 1.0 <= m && 0.0 <= x
    ensures x <= m * x
  { }

  lemma {:induction false} PowGrows(m: real, n: nat)
    requires 1.0 <= m
    ensures 1.0 <= Pow(m, n) <= Pow(m, n + 1)
  {
    if n > 0 { PowGrows(m, n - 1); }
    Scales(m, Pow(m, n));
  }

  lemma CappedGrows(base: real, x: real, y: real, cap: real)
    requires 0.0 <= base && 0.0 <= x <= y && 0.0 <= cap
    ensures 0.0 <= Min(base * x, cap) <= Min(base * y, cap)
  {
    Product(base, x);
    Product(base, y - x);
    assert base * y == base * x + base * (y - x);
  }

  /** The backoff is never negative and never shrinks. */
  lemma BackoffMonotone(p: Policy, attempt: nat)
    requires 1.0 <= p.multiplier && 0 <= p.baseDelay && 0 <= p.maxDelay
    ensures 0.0 <= Backoff(p, attempt) <= Backoff(p, attempt + 1)
  {
    PowGrows(p.multiplier, attempt);
    CappedGrows(p.baseDelay as real, Pow(p.multiplier, attempt), Pow(p.multiplier, attempt + 1), p.maxDelay as real);
  }

  function Times(multiplier: real): real -> real {
    (x: real) => multiplier * x
  }

  /** A step taken `k` times. */
  function Grown(x: real, step: real -> real, k: nat): real {
    if k == 0 then x else step(Grown(x, step, k - 1))
  }

  ghost predicate Expands(step: real -> real) {
    forall x :: 0.0 <= x ==> x <= step(x)
  }

  lemma TimesExpands(m: real)
    requires 1.0 <= m
    ensures Expands(Times(m))
  {
    forall x | 0.0 <= x ensures x <= Times(m)(x) { Scales(m, x); }
  }

  lemma {:induction false} GrownAdds(x: real, step: real -> real, n: nat, k: nat)
    ensures Grown(x, step, n + k) == Grown(Grown(x, step, n), step, k)
  {
    if k > 0 { GrownAdds(x, step, n, k - 1); }
  }

  /** Capping first changes nothing once the end is capped. */
  lemma {:induction false} CapEarly(x: real, step: real -> real, k: nat, cap: real)
    requires Expands(step) && 0.0 <= x && 0.0 <= cap
    ensures 0.0 <= Grown(x, step, k) && 0.0 <= Grown(Min(x, cap), step, k)
    ensures Min(Grown(x, step, k), cap) == Min(Grown(Min(x, cap), step, k), cap)
  {
    if k > 0 { CapEarly(x, step, k - 1, cap); }
  }

  lemma CapMidway(x: real, step: real -> real, n: nat, k: nat, cap: real)
    requires Expands(step) && 0.0 <= x && 0.0 <= cap
    ensures Min(Grown(x, step, n + k), cap) == Min(Grown(Min(Grown(x, step, n), cap), step, k), cap)
  {
    GrownAdds(x, step, n, k);
    CapEarly(x, step, n, cap);
    CapEarly(Grown(x, step, n), step, k, cap);
  }

  lemma Swap(base: real, m: real, x: real)
    ensures base * (m * x) == m * (base * x)
  { }

  lemma {:induction false} PowIsGrown(base: real, m: real, n: nat)
    ensures base * Pow(m, n) == Grown(base, Times(m), n)
  {
    if n > 0 {
      PowIsGrown(base, m, n - 1);
      Swap(base, m, Pow(m, n - 1));
    }
  }

  lemma BackoffIsGrown(p: Policy, n: nat)
    ensures Backoff(p, n) == Min(Grown(p.baseDelay as real, Times(p.multiplier), n), p.maxDelay as real)
  {
    PowIsGrown(p.baseDelay as real, p.multiplier, n);
  }

  /** `k` attempts later the backoff has been multiplied `k` times, up to the cap. */
  lemma BackoffMultiplies(p: Policy, attempt: nat, k: nat)
    requires 1.0 <= p.multiplier && 0 <= p.baseDelay && 0 <= p.maxDelay
    ensures Backoff(p, attempt + k) == Min(Grown(Backoff(p, attempt), Times(p.multiplier), k), p.maxDelay as real)
  {
    BackoffIsGrown(p, attempt);
    BackoffIsGrown(p, attempt + k);
    TimesExpands(p.multiplier);
    CapMidway(p.baseDelay as real, Times(p.multiplier), attempt, k, p.maxDelay as real);
  }

  /** The first backoff is the base delay and each next one the multiplier times the one before, all capped. */
  lemma BackoffStep(p: Policy, attempt: nat)
    requires 1.0 <= p.multiplier && 0 <= p.baseDelay && 0 <= p.maxDelay
    ensures Backoff(p, 0) == Min(p.baseDelay as real, p.maxDelay as real)
    ensures Backoff(p, attempt + 1) == Min(p.multiplier * Backoff(p, attempt), p.maxDelay as real)
  {
    BackoffMultiplies(p, attempt, 1);
    assert Grown(Backoff(p, attempt), Times(p.multiplier), 1) == Times(p.multiplier)(Backoff(p, attempt));
  }

  /** Exponential backoff: without jitter the delay of attempt `k` is the base delay multiplied `k` times, capped,
      less the fraction. */
  lemma DelayIsExponential(p: Policy, k: nat, draw: real)
    requires p.jitter == 0.0 && 1.0 <= p.multiplier && 0 <= p.baseDelay && 0 <= p.maxDelay && 0.0 <= draw <= 1.0
    ensures CalculateDelay(p, k, draw)
            == Min(Grown(p.baseDelay as real, Times(p.multiplier), k), p.maxDelay as real).Floor
  {
    BackoffIsGrown(p, k);
    BackoffMonotone(p, k);
    DelayWithinJitter(p, k, draw);
  }

  lemma ShareBand(range: real, part: real)
    requires 0.0 <= range && -1.0 <= part <= 1.0
    ensures -range <= Share(range, part) <= range
    ensures part == 0.0 || range == 0.0 ==> Share(range, part) == 0.0
  {
    Product(1.0 - part, range);
    Product(1.0 + part, range);
    Expand(part, range);
  }

  lemma Product(a: real, b: real)
    requires 0.0 <= a && 0.0 <= b
    ensures 0.0 <= a * b
  { }

  lemma Expand(x: real, y: real)
    ensures (1.0 - x) * y == y - x * y && (1.0 + x) * y == y + x * y && y * (1.0 - x) == y - y * x
  { }

  lemma RangeBand(base: real, jitter: real)
    requires 0.0 <= base && 0.0 <= jitter <= 1.0
    ensures 0.0 <= JitterRange(base, jitter) <= base
    ensures jitter == 0.0 ==> JitterRange(base, jitter) == 0.0
  {
    Product(base, jitter);
    Product(base, 1.0 - jitter);
    Expand(jitter, base);
  }

  lemma ClampBand(x: real, lo: real, base: real, hi: real, cap: real)
    requires 0.0 <= lo <= x <= hi && lo <= base <= cap
    ensures lo <= Clamp(x, cap) <= hi
    ensures x == base ==> Clamp(x, cap) == base
  { }

  lemma FloorBand(x: real, lo: real, hi: real)
    requires lo <= x <= hi
    ensures lo - 1.0 < x.Floor as real <= hi
  { }

  /** With a draw in `[0, 1]` the delay stays, up to the dropped fraction, within the jitter band around the
      backoff; a draw of one half, or no jitter, gives the backoff itself. */
  lemma DelayWithinJitter(p: Policy, attempt: nat, draw: real)
    requires 0.0 <= p.jitter <= 1.0 && 0.0 <= draw <= 1.0 && 0.0 <= Backoff(p, attempt)
    ensures var b := Backoff(p, attempt);
            var range := JitterRange(b, p.jitter);
            b - range - 1.0 < CalculateDelay(p, attempt, draw) as real <= b + range
    ensures draw == 0.5 || p.jitter == 0.0 ==> CalculateDelay(p, attempt, draw) == Backoff(p, attempt).Floor
  {
    var b, cap := Backoff(p, attempt), p.maxDelay as real;
    var range := JitterRange(b, p.jitter);
    var x := b + Share(range, draw * 2.0 - 1.0);
    RangeBand(b, p.jitter);
    ShareBand(range, draw * 2.0 - 1.0);
    ClampBand(x, b - range, b, b + range, cap);
    FloorBand(Clamp(x, cap), b - range, b + range);
  }

  lemma FloorMonotone(x: real, y: real)
    requires x <= y
    ensures x.Floor <= y.Floor
  { }

  lemma ShareGrows(range: real, part: real, more: real)
    requires 0.0 <= range && part <= more
    ensures Share(range, part) <= Share(range, more)
  {
    Product(more - part, range);
    assert (more - part) * range == more * range - part * range;
  }

  lemma ShareEnds(range: real)
    ensures Share(range, -1.0) == -range && Share(range, 1.0) == range
  { }

  /** A higher draw never gives a shorter delay. */
  lemma DelayGrowsWithDraw(p: Policy, attempt: nat, draw: real, draw': real)
    requires 0.0 <= p.jitter <= 1.0 && 0.0 <= Backoff(p, attempt) && draw <= draw'
    ensures CalculateDelay(p, attempt, draw) <= CalculateDelay(p, attempt, draw')
  {
    var b, cap := Backoff(p, attempt), p.maxDelay as real;
    var range := JitterRange(b, p.jitter);
    RangeBand(b, p.jitter);
    ShareGrows(range, draw * 2.0 - 1.0, draw' * 2.0 - 1.0);
    FloorMonotone(Clamp(b + Share(range, draw * 2.0 - 1.0), cap), Clamp(b + Share(range, draw' * 2.0 - 1.0), cap));
  }

  lemma DelayAt(p: Policy, attempt: nat, draw: real, part: real)
    requires part == draw * 2.0 - 1.0
    ensures var b := Backoff(p, attempt); var shift := Share(JitterRange(b, p.jitter), part);
            CalculateDelay(p, attempt, draw) == Clamp(b + shift, p.maxDelay as real).Floor
  { }

  lemma BandEnds(b: real, jitter: real, cap: real)
    requires 0.0 <= b <= cap && 0.0 <= jitter <= 1.0
    ensures Clamp(b + Share(JitterRange(b, jitter), -1.0), cap) == b - b * jitter
    ensures Clamp(b + Share(JitterRange(b, jitter), 1.0), cap) == Min(b + b * jitter, cap)
  {
    RangeBand(b, jitter);
    ShareEnds(JitterRange(b, jitter));
  }

  /** The draws spread the delay over the whole band: the lowest takes the whole jitter off the backoff ... */
  lemma LowestDraw(p: Policy, attempt: nat)
    requires 0.0 <= p.jitter <= 1.0 && 0.0 <= Backoff(p, attempt)
    ensures CalculateDelay(p, attempt, 0.0) == (Backoff(p, attempt) - Backoff(p, attempt) * p.jitter).Floor
  {
    BandEnds(Backoff(p, attempt), p.jitter, p.maxDelay as real);
    DelayAt(p, attempt, 0.0, -1.0);
  }

  /** ... and the highest adds it, up to the cap. */
  lemma HighestDraw(p: Policy, attempt: nat)
    requires 0.0 <= p.jitter <= 1.0 && 0.0 <= Backoff(p, attempt)
    ensures var b := Backoff(p, attempt);
            CalculateDelay(p, attempt, 1.0) == Min(b + b * p.jitter, p.maxDelay as real).Floor
  {
    BandEnds(Backoff(p, attempt), p.jitter, p.maxDelay as real);
    DelayAt(p, attempt, 1.0, 1.0);
  }

  /** Without jitter the delays never shrink from one attempt to the next. */
  lemma DelaysGrow(p: Policy, attempt: nat, draw: real, draw': real)
    requires p.jitter == 0.0 && 1.0 <= p.multiplier && 0 <= p.baseDelay && 0 <= p.maxDelay
    requires 0.0 <= draw <= 1.0 && 0.0 <= draw' <= 1.0
    ensures CalculateDelay(p, attempt, draw) <= CalculateDelay(p, attempt + 1, draw')
  {
    BackoffMonotone(p, attempt);
    FloorMonotone(Backoff(p, attempt), Backoff(p, attempt + 1));
    DelayWithinJitter(p, attempt, draw);
    DelayWithinJitter(p, attempt + 1, draw');
  }

  /** The delay scheduled after each attempt. */
  function Waits(p: Policy, w: World): nat -> int {
    (attempt: nat) => CalculateDelay(p, attempt, w.draw(attempt))
  }

  // ---------- value model of ExecuteWithCircuitBreaker ----------

  /** The loop from `attempt` on, with the delays it would schedule. */
  function Attempts(p: Policy, c: Config, w: World, wait: nat -> int, b: Circuit, attempt: nat): Report
    decreases p.maxAttempts - attempt
  {
    if attempt >= p.maxAttempts then Report(Exhausted, 0, [], b)
    else if w.cancelledBefore(attempt) then Report(Cancelled, 0, [], b)
    else if b.state == Open then Report(CircuitOpen, 0, [], b)
    else if w.succeeds(attempt) then Report(Success, 1, [], OnSuccess(c, b, w.clock(attempt)))
    else
      var d := OnFailure(c, b, w.clock(attempt));
      if d.state == Open then Report(CircuitOpen, 1, [], d)
      else if attempt < p.maxAttempts - 1 then
        var delay := wait(attempt);
        if w.cancelledWaiting(attempt) then Report(Cancelled, 1, [delay], d)
        else
          var rest := Attempts(p, c, w, wait, d, attempt + 1);
          rest.(runs := rest.runs + 1, delays := [delay] + rest.delays)
      else Report(Exhausted, 1, [], d)
  }

  function Executed(p: Policy, c: Config, w: World, b: Circuit): Report {
    if b.state == Open then Report(CircuitOpen, 0, [], b) else Attempts(p, c, w, Waits(p, w), b, 0)
  }

  function Sum(s: seq<int>): int {
    if s == [] then 0 else s[0] + Sum(s[1..])
  }

  // ---------- what one execution does ----------

  /** The loop on a breaker nobody else uses, closed with `f` failures below its threshold. */
  ghost predicate Sound(p: Policy, c: Config, w: World, b: Circuit, attempt: nat, r: Report) {
    && r.runs <= c.failureThreshold - b.failureCount
    && r.runs <= (if attempt < p.maxAttempts then p.maxAttempts - attempt else 0)
    && (r.outcome == Success <==> r.runs > 0 && w.succeeds(attempt + r.runs - 1))
    && (forall i :: attempt <= i < attempt + r.runs - 1 ==> !w.succeeds(i))
    && (r.outcome == CircuitOpen <==> r.circuit.state == Open)
    && (r.outcome == CircuitOpen <==> r.runs == c.failureThreshold - b.failureCount && r.runs > 0
                                      && !w.succeeds(attempt + r.runs - 1))
    && (r.outcome == Exhausted ==> r.runs == if attempt < p.maxAttempts then p.maxAttempts - attempt else 0)
    && (r.outcome == Cancelled ==> || w.cancelledBefore(attempt + r.runs)
                                   || (r.runs > 0 && w.cancelledWaiting(attempt + r.runs - 1)))
    && (r.outcome == CircuitOpen ==> r.circuit.openedAt == w.clock(attempt + r.runs - 1))
    && (r.outcome == Success ==> r.circuit.state == Closed && r.circuit.failureCount == 0)
    && (r.circuit.state == Closed && r.outcome != Success ==> r.circuit.failureCount == b.failureCount + r.runs)
  }

  lemma {:induction false} ClosedIsSound(p: Policy, c: Config, w: World, wait: nat -> int, b: Circuit, attempt: nat)
    requires c.Valid() && b.state == Closed && 0 <= b.failureCount < c.failureThreshold
    ensures Sound(p, c, w, b, attempt, Attempts(p, c, w, wait, b, attempt))
    decreases p.maxAttempts - attempt
  {
    if attempt < p.maxAttempts - 1 {
      var d := OnFailure(c, b, w.clock(attempt));
      if d.state == Closed { ClosedIsSound(p, c, w, wait, d, attempt + 1); }
    }
  }

  /** No run started after the context had ended, and no wait went on past it. */
  ghost predicate Live(p: Policy, w: World, attempt: nat, r: Report) {
    && (forall i :: attempt <= i < attempt + r.runs ==> !w.cancelledBefore(i))
    && (forall i :: attempt <= i < attempt + r.runs - 1 ==> !w.cancelledWaiting(i))
    && (r.outcome == Cancelled ==> attempt + r.runs < p.maxAttempts)
  }

  lemma {:induction false} StaysLive(p: Policy, c: Config, w: World, wait: nat -> int, b: Circuit, attempt: nat)
    ensures Live(p, w, attempt, Attempts(p, c, w, wait, b, attempt))
    decreases p.maxAttempts - attempt
  {
    if attempt < p.maxAttempts - 1 {
      StaysLive(p, c, w, wait, OnFailure(c, b, w.clock(attempt)), attempt + 1);
    }
  }

  /** No report that meets both descriptions stops earlier than another one. */
  lemma NotShorter(p: Policy, c: Config, w: World, b: Circuit, r: Report, q: Report)
    requires Sound(p, c, w, b, 0, r) && Live(p, w, 0, r) && Sound(p, c, w, b, 0, q) && Live(p, w, 0, q)
    ensures r.runs >= q.runs
  { }

  /** The description leaves nothing open: it fixes the outcome and the number of runs of every execution. */
  lemma OutcomeDetermined(p: Policy, c: Config, w: World, b: Circuit, r: Report)
    requires c.Valid() && b.state == Closed && 0 <= b.failureCount < c.failureThreshold
    requires Sound(p, c, w, b, 0, r) && Live(p, w, 0, r)
    ensures r.runs == Executed(p, c, w, b).runs && r.outcome == Executed(p, c, w, b).outcome
  {
    var q := Executed(p, c, w, b);
    ClosedIsSound(p, c, w, Waits(p, w), b, 0);
    StaysLive(p, c, w, Waits(p, w), b, 0);
    NotShorter(p, c, w, b, r, q);
    NotShorter(p, c, w, b, q, r);
  }

  /** An execution that gets to attempt `k` with its context ended is cancelled there, without another run. */
  lemma CancelledThere(p: Policy, c: Config, w: World, b: Circuit, k: nat)
    requires c.Valid() && b.state == Closed && 0 <= b.failureCount < c.failureThreshold
    requires k < p.maxAttempts && (w.cancelledBefore(k) || (k > 0 && w.cancelledWaiting(k - 1)))
    ensures var r := Executed(p, c, w, b);
            && r.runs <= k
            && (r.runs == k ==> r.outcome == Cancelled || (k > 0 && w.succeeds(k - 1)) || r.circuit.state == Open)
  {
    ClosedIsSound(p, c, w, Waits(p, w), b, 0);
    StaysLive(p, c, w, Waits(p, w), b, 0);
  }

  ghost predicate AllWithin(s: seq<int>, max: int) {
    forall i :: 0 <= i < |s| ==> 0 <= s[i] <= max
  }

  /** One delay between two runs; one more only when the context ends the execution while waiting. */
  lemma {:induction false} DelaysBounded(p: Policy, c: Config, w: World, wait: nat -> int, b: Circuit, attempt: nat)
    requires forall i: nat :: 0 <= wait(i) <= p.maxDelay
    ensures var r := Attempts(p, c, w, wait, b, attempt);
            && |r.delays| == (if r.outcome == Cancelled || r.runs == 0 then r.runs else r.runs - 1)
            && AllWithin(r.delays, p.maxDelay)
            && forall i :: 0 <= i < |r.delays| ==> r.delays[i] == wait(attempt + i)
    decreases p.maxAttempts - attempt
  {
    if attempt < p.maxAttempts - 1 {
      DelaysBounded(p, c, w, wait, OnFailure(c, b, w.clock(attempt)), attempt + 1);
    }
  }

  lemma {:induction false} SumBounded(s: seq<int>, max: int)
    requires AllWithin(s, max)
    ensures 0 <= Sum(s) <= |s| * max
  {
    if s != [] {
      SumBounded(s[1..], max);
      assert |s| * max == max + (|s| - 1) * max;
    }
  }

  lemma WaitsBounded(p: Policy, w: World, i: nat)
    requires 0 <= p.maxDelay
    ensures 0 <= Waits(p, w)(i) <= p.maxDelay
  {
    assert Waits(p, w)(i) == CalculateDelay(p, i, w.draw(i));
  }

  /**
   `ExecuteWithCircuitBreaker` on a breaker nobody else uses, closed with `f` recorded failures: it runs the
   operation at most `min(MaxAttempts, FailureThreshold - f)` times, stops at the first success, succeeds exactly
   when the last run did, and leaves the breaker open exactly when the runs reached the threshold without one.
   */
  lemma ExecutionIsSound(p: Policy, c: Config, w: World, b: Circuit)
    requires c.Valid() && b.state == Closed && 0 <= b.failureCount < c.failureThreshold
    ensures Sound(p, c, w, b, 0, Executed(p, c, w, b)) && Live(p, w, 0, Executed(p, c, w, b))
    ensures p.maxAttempts <= 0 ==> Executed(p, c, w, b) == Report(Exhausted, 0, [], b)
  {
    ClosedIsSound(p, c, w, Waits(p, w), b, 0);
    StaysLive(p, c, w, Waits(p, w), b, 0);
  }

  /** From any state of the breaker: the delays scheduled are those of the attempts in order, one between two
      runs and one more only if the context was cancelled, and add up to at most `MaxDelay` each. */
  lemma ExecutionDelays(p: Policy, c: Config, w: World, b: Circuit)
    requires 0 <= p.maxDelay
    ensures var r := Executed(p, c, w, b);
            && |r.delays| == (if r.outcome == Cancelled || r.runs == 0 then r.runs else r.runs - 1)
            && (forall i :: 0 <= i < |r.delays| ==> r.delays[i] == CalculateDelay(p, i, w.draw(i)))
            && 0 <= Sum(r.delays) <= |r.delays| * p.maxDelay
  {
    if b.state != Open {
      var wait := Waits(p, w);
      forall i: nat ensures 0 <= wait(i) <= p.maxDelay { WaitsBounded(p, w, i); }
      DelaysBounded(p, c, w, wait, b, 0);
      SumBounded(Attempts(p, c, w, wait, b, 0).delays, p.maxDelay);
    }
  }

  /** From half-open the operation runs exactly once, unless there is no attempt to make: a failure reopens the
      breaker and ends the execution. */
  lemma HalfOpenRunsOnce(p: Policy, c: Config, w: World, b: Circuit)
    requires b.state == HalfOpen
    ensures var r := Executed(p, c, w, b);
            && r.runs == (if p.maxAttempts > 0 && !w.cancelledBefore(0) then 1 else 0)
            && (r.runs == 1 ==> r.outcome == if w.succeeds(0) then Success else CircuitOpen)
            && (r.circuit.state == Open <==> r.outcome == CircuitOpen)
  { }

  // ---------- many executions on one breaker ----------

  datatype Job = Job(policy: Policy, world: World)

  function RunJobs(c: Config, b: Circuit, jobs: seq<Job>): (r: (Circuit, seq<Report>))
    ensures |r.1| == |jobs|
    decreases |jobs|
  {
    if jobs == [] then (b, []) else
      var r := Executed(jobs[0].policy, c, jobs[0].world, b);
      var rest := RunJobs(c, r.circuit, jobs[1..]);
      (rest.0, [r] + rest.1)
  }

  /** The outcomes of the first `n` runs of an operation. */
  function Outcomes(w: World, n: nat): seq<bool> {
    if n == 0 then [] else Outcomes(w, n - 1) + [w.succeeds(n - 1)]
  }

  /** The outcomes of all runs of all jobs, one after the other. */
  function AllOutcomes(c: Config, b: Circuit, jobs: seq<Job>): seq<bool>
    decreases |jobs|
  {
    if jobs == [] then [] else
      var r := Executed(jobs[0].policy, c, jobs[0].world, b);
      Outcomes(jobs[0].world, r.runs) + AllOutcomes(c, r.circuit, jobs[1..])
  }

  /** Failures in a row at the end of a history that began after `f` of them. */
  function Trailing(f: int, outcomes: seq<bool>): int {
    if outcomes == [] then f
    else if outcomes[|outcomes| - 1] then 0
    else Trailing(f, outcomes[..|outcomes| - 1]) + 1
  }

  lemma {:induction false} TrailingConcat(f: int, a: seq<bool>, b: seq<bool>)
    ensures Trailing(f, a + b) == Trailing(Trailing(f, a), b)
  {
    if b == [] {
      assert a + b == a;
    } else {
      TrailingConcat(f, a, b[..|b| - 1]);
      assert (a + b)[..|a + b| - 1] == a + b[..|b| - 1];
    }
  }

  lemma {:induction false} TrailingFails(f: int, w: World, n: nat)
    requires forall i :: 0 <= i < n ==> !w.succeeds(i)
    ensures Trailing(f, Outcomes(w, n)) == f + n
  {
    if n > 0 {
      TrailingFails(f, w, n - 1);
      assert Outcomes(w, n)[..|Outcomes(w, n)| - 1] == Outcomes(w, n - 1);
    }
  }

  /** One execution moves the trailing failures by its own outcomes, and opens exactly at the threshold. */
  lemma JobFollowsHistory(c: Config, b: Circuit, job: Job)
    requires c.Valid() && b.state == Closed && 0 <= b.failureCount < c.failureThreshold
    ensures var r := Executed(job.policy, c, job.world, b);
            var n := Trailing(b.failureCount, Outcomes(job.world, r.runs));
            if n == c.failureThreshold then r.circuit.state == Open
            else r.circuit.state == Closed && r.circuit.failureCount == n && 0 <= n < c.failureThreshold
  {
    var w, r := job.world, Executed(job.policy, c, job.world, b);
    ExecutionIsSound(job.policy, c, w, b);
    NeverHalfOpen(job.policy, c, w, Waits(job.policy, w), b, 0);
    if r.outcome == Success {
      assert Outcomes(w, r.runs)[|Outcomes(w, r.runs)| - 1];
    } else {
      assert forall i :: 0 <= i < r.runs ==> !w.succeeds(i) by {
        assert r.runs > 0 ==> !w.succeeds(r.runs - 1);
      }
      TrailingFails(b.failureCount, w, r.runs);
    }
  }

  lemma {:induction false} NeverHalfOpen(p: Policy, c: Config, w: World, wait: nat -> int, b: Circuit, attempt: nat)
    requires b.state != HalfOpen
    ensures Attempts(p, c, w, wait, b, attempt).circuit.state != HalfOpen
    decreases p.maxAttempts - attempt
  {
    if attempt < p.maxAttempts - 1 && b.state == Closed {
      NeverHalfOpen(p, c, w, wait, OnFailure(c, b, w.clock(attempt)), attempt + 1);
    }
  }

  /** An open breaker is left as it is by every later execution, at whatever time: the execution asks for the state
      and never for admission, so nothing runs. */
  lemma {:induction false} OpenIsForever(c: Config, b: Circuit, jobs: seq<Job>)
    requires b.state == Open
    ensures RunJobs(c, b, jobs).0 == b && AllOutcomes(c, b, jobs) == []
    ensures forall i :: 0 <= i < |jobs| ==> RunJobs(c, b, jobs).1[i] == Report(CircuitOpen, 0, [], b)
    decreases |jobs|
  {
    if jobs != [] { OpenIsForever(c, b, jobs[1..]); }
  }

  /**
   Any sequence of executions, with any policies, worlds and clocks, on a breaker nobody else uses that starts
   closed with `f` failures: it is never left half-open, it ends open if and only if the outcomes of all runs of all
   jobs in order, after `f` failures, end in `FailureThreshold` failures in a row, and otherwise its count is that
   number.  So once the threshold is reached the breaker never recovers, however long its timeout has passed.
   */
  lemma {:induction false} JobsFollowHistory(c: Config, b: Circuit, jobs: seq<Job>)
    requires c.Valid() && b.state == Closed && 0 <= b.failureCount < c.failureThreshold
    ensures var d := RunJobs(c, b, jobs).0; var n := Trailing(b.failureCount, AllOutcomes(c, b, jobs));
            && d.state != HalfOpen
            && (d.state == Open <==> n == c.failureThreshold)
            && (d.state == Closed ==> d.failureCount == n && 0 <= n < c.failureThreshold)
    decreases |jobs|
  {
    if jobs != [] {
      var r := Executed(jobs[0].policy, c, jobs[0].world, b);
      var outs := Outcomes(jobs[0].world, r.runs);
      JobFollowsHistory(c, b, jobs[0]);
      TrailingConcat(b.failureCount, outs, AllOutcomes(c, r.circuit, jobs[1..]));
      if r.circuit.state == Open {
        OpenIsForever(c, r.circuit, jobs[1..]);
      } else {
        JobsFollowHistory(c, r.circuit, jobs[1..]);
      }
    }
  }

  /** Nothing runs after opening: if job `i` of a sequence leaves the breaker open, every later job reports an
      open circuit, runs nothing and leaves the breaker as it was. */
  lemma {:induction false} NothingAfterOpening(c: Config, b: Circuit, jobs: seq<Job>, i: nat, j: nat)
    requires i < j < |jobs| && RunJobs(c, b, jobs).1[i].circuit.state == Open
    ensures RunJobs(c, b, jobs).1[j] == Report(CircuitOpen, 0, [], RunJobs(c, b, jobs).1[i].circuit)
    decreases i
  {
    var r := Executed(jobs[0].policy, c, jobs[0].world, b);
    if i == 0 {
      OpenIsForever(c, r.circuit, jobs[1..]);
    } else {
      NothingAfterOpening(c, r.circuit, jobs[1..], i - 1, j - 1);
    }
  }

  // ---------- the loop ----------

  method ExecuteWithCircuitBreaker(p: Policy, cb: CircuitObject, w: World)
    returns (outcome: Outcome, runs: nat, delays: seq<int>)
    modifies cb
    ensures Report(outcome, runs, delays, cb.Value()) == Executed(p, cb.config, w, old(cb.Value()))
  {
    if cb.state == Open {
      return CircuitOpen, 0, [];
    }
    outcome, runs, delays := AttemptLoop(p, cb, w, Waits(p, w));
  }

  method AttemptLoop(p: Policy, cb: CircuitObject, w: World, wait: nat -> int)
    returns (outcome: Outcome, runs: nat, delays: seq<int>)
    modifies cb
    ensures Report(outcome, runs, delays, cb.Value()) == Attempts(p, cb.config, w, wait, old(cb.Value()), 0)
  {
    runs, delays := 0, [];
    ghost var whole := Attempts(p, cb.config, w, wait, cb.Value(), 0);
    ghost var rest := whole;
    var attempt := 0;
    while attempt < p.maxAttempts
      invariant 0 <= attempt && rest == Attempts(p, cb.config, w, wait, cb.Value(), attempt)
      invariant Onward(whole, runs, delays, rest)
      decreases p.maxAttempts - attempt
    {
      ghost var mid := rest;
      var done, result, ran, waited := OneAttempt(p, cb, w, wait, attempt);
      rest := if done then Report(result, 0, [], cb.Value())
              else Attempts(p, cb.config, w, wait, cb.Value(), attempt + 1);
      OnwardChains(whole, runs, delays, mid, ran, waited, rest);
      runs, delays := runs + ran, delays + waited;
      if done {
        outcome := result;
        Arrived(whole, runs, delays, rest);
        return;
      }
      attempt := attempt + 1;
    }
    outcome := Exhausted;
    Arrived(whole, runs, delays, rest);
  }

  /** The body of the loop: it either ends the execution or leaves the rest to the next attempt. */
  method OneAttempt(p: Policy, cb: CircuitObject, w: World, wait: nat -> int, attempt: nat)
    returns (done: bool, outcome: Outcome, ran: nat, waited: seq<int>)
    requires attempt < p.maxAttempts
    modifies cb
    ensures var rest := if done then Report(outcome, 0, [], cb.Value())
                        else Attempts(p, cb.config, w, wait, cb.Value(), attempt + 1);
            Onward(Attempts(p, cb.config, w, wait, old(cb.Value()), attempt), ran, waited, rest)
  {
    done, ran, waited := true, 0, [];
    if w.cancelledBefore(attempt) {
      return true, Cancelled, ran, waited;
    }
    if cb.state == Open {
      return true, CircuitOpen, ran, waited;
    }
    var ok := w.succeeds(attempt);
    ran := 1;
    if ok {
      cb.RecordSuccess(w.clock(attempt));
      return true, Success, ran, waited;
    }
    cb.RecordFailure(w.clock(attempt));
    if cb.state == Open {
      return true, CircuitOpen, ran, waited;
    }
    if attempt < p.maxAttempts - 1 {
      var delay := wait(attempt);
      waited := [delay];
      if w.cancelledWaiting(attempt) {
        return true, Cancelled, ran, waited;
      }
    }
    return false, Exhausted, ran, waited;
  }

  /** What has been done so far, followed by what is left, is the whole execution. */
  ghost predicate Onward(whole: Report, runs: nat, delays: seq<int>, rest: Report) {
    whole == rest.(runs := runs + rest.runs, delays := delays + rest.delays)
  }

  lemma OnwardChains(whole: Report, runs: nat, delays: seq<int>, mid: Report, ran: nat, waited: seq<int>, rest: Report)
    requires Onward(whole, runs, delays, mid) && Onward(mid, ran, waited, rest)
    ensures Onward(whole, runs + ran, delays + waited, rest)
  {
    assert delays + (waited + rest.delays) == (delays + waited) + rest.delays;
  }

  /** When nothing is left, what has been done is the whole. */
  lemma Arrived(whole: Report, runs: nat, delays: seq<int>, rest: Report)
    requires Onward(whole, runs, delays, rest) && rest.runs == 0 && rest.delays == []
    ensures whole == Report(rest.outcome, runs, delays, rest.circuit)
  {
    assert delays + [] == delays;
  }
}
