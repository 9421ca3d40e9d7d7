/**
 The real-valued token bucket (libs/go/resilience/ratelimit/token_bucket.go): floats as `real`, time in
 seconds as `real`, one clock reading per call.
 */
module TokenBucket {
  import opened Options

  datatype Bucket = Bucket(capacity: real, tokens: real, refillRate: real, lastRefill: real)

  /** `Allow`, or a call that only refills: `GetHeaders`, `GetTokenCount`. */
  datatype Call = Allow(at: real) | Observe(at: real)

  // ---------- value model ----------

  function New(capacity: int, refillRate: int, window: real, now: real): Bucket
    requires window != 0.0
  {
    Bucket(capacity as real, capacity as real, refillRate as real / window, now)
  }

  /** What the time since the last refill is worth. */
  function Gain(b: Bucket, now: real): real {
    (now - b.lastRefill) * b.refillRate
  }

  function Refill(b: Bucket, now: real): Bucket {
    var filled := b.tokens + Gain(b, now);
    b.(tokens := if filled > b.capacity then b.capacity else filled, lastRefill := now)
  }

  function DoAllow(b: Bucket, now: real): (Bucket, bool) {
    var r := Refill(b, now);
    if r.tokens >= 1.0 then (r.(tokens := r.tokens - 1.0), true) else (r, false)
  }

  /** The advertised wait; `None` stands for the infinite wait of a bucket that never refills. */
  function RetryAfter(b: Bucket): Option<real> {
    if b.tokens >= 1.0 then Some(0.0)
    else if b.refillRate == 0.0 then None
    else Some((1.0 - b.tokens) / b.refillRate)
  }

  function Step(b: Bucket, call: Call): Bucket {
    match call
    case Allow(now) => DoAllow(b, now).0
    case Observe(now) => Refill(b, now)
  }

  function After(b: Bucket, calls: seq<Call>): Bucket
    decreases |calls|
  {
    if calls == [] then b else After(Step(b, calls[0]), calls[1..])
  }

  /** The decisions of the `Allow` calls, in order. */
  function Decisions(b: Bucket, calls: seq<Call>): seq<bool>
    decreases |calls|
  {
    if calls == [] then []
    else if calls[0].Allow? then [DoAllow(b, calls[0].at).1] + Decisions(Step(b, calls[0]), calls[1..])
    else Decisions(Step(b, calls[0]), calls[1..])
  }

  /** How many requests were admitted at a time in `[s, t]`. */
  function Admitted(b: Bucket, calls: seq<Call>, s: real, t: real): real
    decreases |calls|
  {
    if calls == [] then 0.0 else
      (if calls[0].Allow? && s <= calls[0].at <= t && DoAllow(b, calls[0].at).1 then 1.0 else 0.0)
      + Admitted(Step(b, calls[0]), calls[1..], s, t)
  }

  /** The clock starts at `from` or later and never goes back. */
  predicate Ordered(calls: seq<Call>, from: real)
    decreases |calls|
  {
    calls == [] || (from <= calls[0].at && Ordered(calls[1..], calls[0].at))
  }

  function AllowsOnly(calls: seq<Call>): seq<Call> {
    if calls == [] then []
    else if calls[0].Allow? then [calls[0]] + AllowsOnly(calls[1..]) else AllowsOnly(calls[1..])
  }

  /** A configured bucket in range. */
  ghost predicate Valid(b: Bucket) {
    0.0 <= b.refillRate && 0.0 <= b.tokens <= b.capacity
  }

  // ---------- range and bounds ----------

  lemma GainNonNegative(b: Bucket, now: real)
    requires 0.0 <= b.refillRate && b.lastRefill <= now
    ensures 0.0 <= Gain(b, now)
  { }

  /** Gains add up over time. */
  lemma GainAdds(b: Bucket, c: Bucket, t: real)
    requires c.refillRate == b.refillRate
    ensures Gain(b, c.lastRefill) + Gain(c, t) == Gain(b, t)
  { }

  lemma RefillKeeps(b: Bucket, now: real)
    requires Valid(b) && b.lastRefill <= now
    ensures Valid(Refill(b, now)) && Refill(b, now).lastRefill == now
    ensures Refill(b, now).capacity == b.capacity && Refill(b, now).refillRate == b.refillRate
    ensures Refill(b, now).tokens <= b.tokens + Gain(b, now)
  {
    GainNonNegative(b, now);
  }

  /** In every run the tokens stay between zero and the capacity. */
  lemma {:induction false} TokensInRange(b: Bucket, calls: seq<Call>)
    requires Valid(b) && Ordered(calls, b.lastRefill)
    ensures Valid(After(b, calls)) && After(b, calls).capacity == b.capacity
    decreases |calls|
  {
    if calls != [] {
      RefillKeeps(b, calls[0].at);
      TokensInRange(Step(b, calls[0]), calls[1..]);
    }
  }

  /** The tokens held plus what time alone would add by `t`, ignoring the cap. */
  ghost function Worth(b: Bucket, t: real): real {
    b.tokens + Gain(b, t)
  }

  lemma WorthNonNegative(b: Bucket, t: real)
    requires Valid(b) && b.lastRefill <= t
    ensures 0.0 <= Worth(b, t)
  {
    GainNonNegative(b, t);
  }

  /** Refilling never raises the worth. */
  lemma RefillWorth(b: Bucket, now: real, t: real)
    requires Valid(b) && b.lastRefill <= now
    ensures Worth(Refill(b, now), t) <= Worth(b, t)
  {
    RefillKeeps(b, now);
    GainAdds(b, Refill(b, now), t);
  }

  /** A call spends what it grants. */
  lemma StepPays(b: Bucket, call: Call, t: real)
    requires Valid(b) && b.lastRefill <= call.at
    ensures Valid(Step(b, call)) && Step(b, call).lastRefill == call.at
    ensures Step(b, call).capacity == b.capacity && Step(b, call).refillRate == b.refillRate
    ensures Worth(Step(b, call), t) + (if call.Allow? && DoAllow(b, call.at).1 then 1.0 else 0.0) <= Worth(b, t)
  {
    var r, d := Refill(b, call.at), Step(b, call);
    RefillKeeps(b, call.at);
    RefillWorth(b, call.at, t);
    assert Gain(d, t) == Gain(r, t);
  }

  /** From any state: what is admitted up to `t` is paid for by the tokens held and the time passed. */
  lemma {:induction false} AdmittedUpTo(b: Bucket, calls: seq<Call>, s: real, t: real)
    requires Valid(b) && Ordered(calls, b.lastRefill) && b.lastRefill <= t
    ensures Admitted(b, calls, s, t) <= Worth(b, t)
    decreases |calls|
  {
    WorthNonNegative(b, t);
    if calls != [] {
      if calls[0].at <= t {
        StepPays(b, calls[0], t);
        AdmittedUpTo(Step(b, calls[0]), calls[1..], s, t);
      } else {
        NothingLater(b, calls, s, t, b.lastRefill);
      }
    }
  }

  lemma {:induction false} NothingLater(b: Bucket, calls: seq<Call>, s: real, t: real, from: real)
    requires Ordered(calls, from) && (calls == [] || t < calls[0].at)
    ensures Admitted(b, calls, s, t) == 0.0
    decreases |calls|
  {
    if calls != [] { NothingLater(Step(b, calls[0]), calls[1..], s, t, calls[0].at); }
  }

  /**
   The bound over every interval of every run: at most `capacity + refillRate * (t - s)` requests are
   admitted at times in `[s, t]`, whatever happened before.
   */
  lemma {:induction false} IntervalBound(b: Bucket, calls: seq<Call>, s: real, t: real)
    requires Valid(b) && Ordered(calls, b.lastRefill) && s <= t
    ensures Admitted(b, calls, s, t) <= Worth(Bucket(b.capacity, b.capacity, b.refillRate, s), t)
    decreases |calls|
  {
    WorthNonNegative(Bucket(b.capacity, b.capacity, b.refillRate, s), t);
    if calls != [] {
      var now := calls[0].at;
      if now < s {
        StepPays(b, calls[0], t);
        IntervalBound(Step(b, calls[0]), calls[1..], s, t);
      } else if now <= t {
        RefillKeeps(b, now);
        AdmittedFromFirst(b, Refill(b, now), calls, s, t);
        AdmittedUpTo(Refill(b, now), calls, s, t);
        FullIsWorthMore(Refill(b, now), s, t);
      } else {
        NothingLater(b, calls, s, t, b.lastRefill);
      }
    }
  }

  /** A full bucket at an earlier instant is worth more. */
  lemma FullIsWorthMore(b: Bucket, s: real, t: real)
    requires Valid(b) && s <= b.lastRefill
    ensures Worth(b, t) <= Worth(Bucket(b.capacity, b.capacity, b.refillRate, s), t)
  {
    var full := Bucket(b.capacity, b.capacity, b.refillRate, s);
    GainAdds(full, b, t);
    GainNonNegative(full, b.lastRefill);
  }

  /** The same for a bucket made by `NewTokenBucket` from a sound configuration, spelled out. */
  lemma IntervalBoundFromNew(capacity: int, rate: int, window: real, t0: real, calls: seq<Call>, s: real, t: real)
    requires 0 <= capacity && 0 <= rate && window > 0.0 && Ordered(calls, t0) && s <= t
    ensures Admitted(New(capacity, rate, window, t0), calls, s, t)
            <= capacity as real + (t - s) * (rate as real / window)
  {
    IntervalBound(New(capacity, rate, window, t0), calls, s, t);
  }

  lemma NoGain(elapsed: real, rate: real)
    requires elapsed == 0.0 || rate == 0.0
    ensures elapsed * rate == 0.0
  { }

  lemma RefillAgain(b: Bucket)
    requires b.tokens <= b.capacity
    ensures Refill(b, b.lastRefill) == b
  {
    NoGain(b.lastRefill - b.lastRefill, b.refillRate);
  }

  /** Refilling at the time of the first call changes nothing that follows. */
  lemma AdmittedFromFirst(b: Bucket, r: Bucket, calls: seq<Call>, s: real, t: real)
    requires calls != [] && Valid(b) && b.lastRefill <= calls[0].at && r == Refill(b, calls[0].at)
    ensures Admitted(b, calls, s, t) == Admitted(r, calls, s, t)
  {
    RefillKeeps(b, calls[0].at);
    RefillAgain(r);
  }

  // ---------- what is admitted, exactly ----------

  function CountTrue(d: seq<bool>): nat {
    if d == [] then 0 else (if d[0] then 1 else 0) + CountTrue(d[1..])
  }

  /** What a refill at `now` loses to the cap. */
  function Spill(b: Bucket, now: real): real {
    if b.tokens + Gain(b, now) > b.capacity then b.tokens + Gain(b, now) - b.capacity else 0.0
  }

  function Spilled(b: Bucket, calls: seq<Call>): real
    decreases |calls|
  {
    if calls == [] then 0.0 else Spill(b, calls[0].at) + Spilled(Step(b, calls[0]), calls[1..])
  }

  lemma StepConserves(b: Bucket, call: Call)
    ensures var d := Step(b, call); var admitted := call.Allow? && DoAllow(b, call.at).1;
            && d.refillRate == b.refillRate && d.lastRefill == call.at
            && d.tokens + (if admitted then 1.0 else 0.0) + Spill(b, call.at) == b.tokens + Gain(b, call.at)
  { }

  /** In every run each admission costs exactly one token: what is held, what was admitted and what was lost to the
      cap add up to the tokens at the start and the income of the time that passed. */
  lemma {:induction false} Conservation(b: Bucket, calls: seq<Call>)
    ensures var d := After(b, calls);
            && d.refillRate == b.refillRate
            && d.tokens + CountTrue(Decisions(b, calls)) as real + Spilled(b, calls) == b.tokens + Gain(b, d.lastRefill)
    decreases |calls|
  {
    if calls == [] {
      NoGain(b.lastRefill - b.lastRefill, b.refillRate);
    } else {
      var c := Step(b, calls[0]);
      StepConserves(b, calls[0]);
      Conservation(c, calls[1..]);
      GainAdds(b, c, After(c, calls[1..]).lastRefill);
      if calls[0].Allow? { assert Decisions(b, calls)[1..] == Decisions(c, calls[1..]); }
    }
  }

  /** The time alone never fills the bucket over its capacity. */
  predicate NeverFull(b: Bucket, calls: seq<Call>)
    decreases |calls|
  {
    calls == [] || (b.tokens + Gain(b, calls[0].at) <= b.capacity && NeverFull(Step(b, calls[0]), calls[1..]))
  }

  lemma {:induction false} NothingSpilled(b: Bucket, calls: seq<Call>)
    requires NeverFull(b, calls)
    ensures Spilled(b, calls) == 0.0
    decreases |calls|
  {
    if calls != [] { NothingSpilled(Step(b, calls[0]), calls[1..]); }
  }

  /** In every run that never reaches the cap, tokens held and admissions are the starting tokens and the income. */
  lemma ExactBelowCap(b: Bucket, calls: seq<Call>)
    requires NeverFull(b, calls)
    ensures var d := After(b, calls);
            d.tokens + CountTrue(Decisions(b, calls)) as real
            == b.tokens + (d.lastRefill - b.lastRefill) * b.refillRate
  {
    Conservation(b, calls);
    NothingSpilled(b, calls);
  }

  /** `n` requests at one instant. */
  function Burst(t: real, n: nat): seq<Call> {
    if n == 0 then [] else [Allow(t)] + Burst(t, n - 1)
  }

  lemma {:induction false} BurstFrom(b: Bucket, n: nat, i: nat)
    requires b.tokens <= b.capacity && i < n
    ensures |Decisions(b, Burst(b.lastRefill, n))| == n
    ensures Decisions(b, Burst(b.lastRefill, n))[i] <==> i as real + 1.0 <= b.tokens
    decreases n
  {
    var calls := Burst(b.lastRefill, n);
    RefillAgain(b);
    assert calls[1..] == Burst(b.lastRefill, n - 1);
    if n > 1 { BurstFrom(Step(b, calls[0]), n - 1, if i == 0 then 0 else i - 1); }
  }

  /** Of any number of requests at the instant of creation exactly the first `capacity` are admitted. */
  lemma BurstFromNew(capacity: int, rate: int, window: real, t0: real, n: nat, i: nat)
    requires window != 0.0 && i < n
    ensures var d := Decisions(New(capacity, rate, window, t0), Burst(t0, n)); |d| == n && (d[i] <==> i < capacity)
  {
    BurstFrom(New(capacity, rate, window, t0), n, i);
  }

  // ---------- observing changes nothing ----------

  /** Capped lazy refill splits over time: refilling on the way does not change where it ends. */
  lemma RefillSplits(b: Bucket, u: real, t: real)
    requires Valid(b) && b.lastRefill <= u <= t
    ensures Refill(Refill(b, u), t) == Refill(b, t)
  {
    var r := Refill(b, u);
    GainAdds(b, r, t);
    GainNonNegative(b, u);
    GainNonNegative(r, t);
  }

  lemma {:induction false} ObservingIsSilent(b: Bucket, c: Bucket, calls: seq<Call>)
    requires Valid(b) && Valid(c) && c.lastRefill <= b.lastRefill && b == Refill(c, b.lastRefill)
    requires Ordered(calls, b.lastRefill)
    ensures Decisions(b, calls) == Decisions(c, AllowsOnly(calls))
    decreases |calls|
  {
    if calls != [] {
      var now := calls[0].at;
      RefillSplits(c, b.lastRefill, now);
      RefillKeeps(b, now);
      RefillKeeps(c, now);
      var d := Step(b, calls[0]);
      if calls[0].Allow? {
        assert DoAllow(b, now) == DoAllow(c, now);
        RefillAgain(d);
        ObservingIsSilent(d, d, calls[1..]);
        assert AllowsOnly(calls)[1..] == AllowsOnly(calls[1..]);
      } else {
        ObservingIsSilent(d, c, calls[1..]);
      }
    }
  }

  /** Inserting `GetHeaders` and `GetTokenCount` calls anywhere in a run changes no `Allow` decision. */
  lemma ObservationsInvisible(b: Bucket, calls: seq<Call>)
    requires Valid(b) && Ordered(calls, b.lastRefill)
    ensures Decisions(b, calls) == Decisions(b, AllowsOnly(calls))
  {
    RefillAgain(b);
    ObservingIsSilent(b, b, calls);
  }

  // ---------- the advertised wait ----------

  lemma DivideBack(x: real, rate: real)
    requires rate > 0.0
    ensures x / rate * rate == x
  { }

  lemma CancelRate(a: real, b: real, rate: real)
    requires rate > 0.0
    ensures a <= b <==> a * rate <= b * rate
  { }

  /** The gain reaches `x` exactly after `x / rate`. */
  lemma GainReaches(b: Bucket, t: real, x: real)
    requires b.refillRate > 0.0
    ensures Gain(b, t) >= x <==> b.lastRefill + x / b.refillRate <= t
  {
    DivideBack(x, b.refillRate);
    CancelRate(x / b.refillRate, t - b.lastRefill, b.refillRate);
  }

  /** A refilled bucket holds a whole token exactly when the wait is over and it can hold one at all. */
  lemma TokenArrives(b: Bucket, t: real)
    requires Valid(b) && b.refillRate > 0.0 && b.tokens < 1.0
    ensures Refill(b, t).tokens >= 1.0
            <==> b.lastRefill + (1.0 - b.tokens) / b.refillRate <= t && 1.0 <= b.capacity
  {
    GainReaches(b, t, 1.0 - b.tokens);
  }

  /** The clock runs from `from` to `to` over these calls, and every `Allow` among them comes before `until`. */
  ghost predicate Early(calls: seq<Call>, from: real, to: real, until: real)
    decreases |calls|
  {
    if calls == [] then from <= to else
      && from <= calls[0].at && (calls[0].Allow? ==> calls[0].at < until)
      && Early(calls[1..], calls[0].at, to, until)
  }

  /** Before the wait is over nothing is admitted and the bucket only refills. */
  lemma {:induction false} DryRun(b: Bucket, c: Bucket, calls: seq<Call>, t: real)
    requires Valid(b) && b.refillRate > 0.0 && b.tokens < 1.0
    requires b.lastRefill <= c.lastRefill && c == Refill(b, c.lastRefill)
    requires Early(calls, c.lastRefill, t, b.lastRefill + (1.0 - b.tokens) / b.refillRate)
    ensures true !in Decisions(c, calls)
    ensures Refill(After(c, calls), t) == Refill(b, t)
    decreases |calls|
  {
    if calls == [] {
      RefillSplits(b, c.lastRefill, t);
    } else {
      var now := calls[0].at;
      RefillSplits(b, c.lastRefill, now);
      TokenArrives(b, now);
      DryRun(b, Refill(b, now), calls[1..], t);
    }
  }

  /**
   After a rejection at `now`, whatever calls are made in between: every `Allow` before `now + RetryAfter` is
   rejected, and an `Allow` at `t` after them is admitted exactly when `t` is at least `RetryAfter` later and
   the bucket can hold a whole token at all.
   */
  lemma RetryAfterExact(b: Bucket, now: real, between: seq<Call>, t: real)
    requires Valid(b) && b.refillRate > 0.0 && b.lastRefill <= now && !DoAllow(b, now).1
    requires var wait := RetryAfter(DoAllow(b, now).0);
             wait.Some? ==> Early(between, now, t, now + wait.value)
    ensures var r := DoAllow(b, now).0;
            && RetryAfter(r).Some?
            && true !in Decisions(r, between)
            && (DoAllow(After(r, between), t).1 <==> now + RetryAfter(r).value <= t && 1.0 <= b.capacity)
  {
    RefillKeeps(b, now);
    var r := DoAllow(b, now).0;
    RefillAgain(r);
    DryRun(r, r, between, t);
    TokenArrives(r, t);
  }

  /** Without a refill rate the wait is infinite, and indeed nothing is admitted after a rejection. */
  lemma {:induction false} NoRateNoRetry(b: Bucket, calls: seq<Call>)
    requires b.refillRate == 0.0 && b.tokens < 1.0
    ensures RetryAfter(b).None? && true !in Decisions(b, calls)
    decreases |calls|
  {
    if calls != [] {
      NoGain(calls[0].at - b.lastRefill, b.refillRate);
      NoRateNoRetry(Refill(b, calls[0].at), calls[1..]);
    }
  }

  // ---------- the object ----------

  class Limiter {
    var capacity: real
    var tokens: real
    var refillRate: real
    var lastRefill: real

    ghost function State(): Bucket
      reads this
    {
      Bucket(capacity, tokens, refillRate, lastRefill)
    }

    constructor (capacity: int, refillRate: int, window: real, now: real)
      requires window != 0.0
      ensures State() == New(capacity, refillRate, window, now)
    {
      this.capacity, tokens := capacity as real, capacity as real;
      this.refillRate, lastRefill := refillRate as real / window, now;
    }

    method FillUp(now: real)
      modifies this
      ensures State() == Refill(old(State()), now)
    {
      var elapsed := now - lastRefill;
      tokens := tokens + elapsed * refillRate;
      assert tokens == old(tokens) + Gain(old(State()), now);
      if tokens > capacity {
        tokens := capacity;
      }
      lastRefill := now;
    }

    method Allow(now: real) returns (allowed: bool, retryAfter: Option<real>)
      modifies this
      ensures (State(), allowed) == DoAllow(old(State()), now)
      ensures retryAfter == if allowed then Some(0.0) else RetryAfter(State())
    {
      FillUp(now);
      retryAfter := Some(0.0);
      if tokens >= 1.0 {
        tokens := tokens - 1.0;
        allowed := true;
      } else {
        allowed := false;
        retryAfter := if refillRate == 0.0 then None else Some((1.0 - tokens) / refillRate);
      }
    }

    method GetTokenCount(now: real) returns (count: real)
      modifies this
      ensures State() == Refill(old(State()), now) && count == tokens
    {
      FillUp(now);
      count := tokens;
    }
  }
}
