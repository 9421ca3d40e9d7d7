/**
 The integer, window-granular token bucket `fault.RateLimiter` (libs/go/src/fault/ratelimit.go).  Refilling
 divides before it multiplies, so tokens arrive only for whole windows and the remainder is dropped.
 */
module RateLimiter {
  /** A configuration that `Validate` accepts. */
  datatype Config = Config(rate: int, burst: int, window: int) {
    predicate Valid() {
      rate > 0 && window > 0 && burst >= 0
    }

    function Max(): int {
      rate + burst
    }
  }

  datatype Bucket = Bucket(tokens: int, lastRefill: int)

  datatype Call = Allow(at: int) | AllowN(n: int, at: int) | Tokens(at: int)

  // ---------- value model ----------

  /** Go's integer division of durations truncates toward zero. */
  function TruncDiv(a: int, b: int): int
    requires b > 0
  {
    if a >= 0 then a / b else -((-a) / b)
  }

  function Refill(c: Config, b: Bucket, now: int): Bucket
    requires c.Valid()
  {
    var add := TruncDiv(now - b.lastRefill, c.window) * c.rate;
    if add > 0 then
      Bucket(if b.tokens + add > c.Max() then c.Max() else b.tokens + add, now)
    else b
  }

  function Take(c: Config, b: Bucket, n: int, now: int): (Bucket, bool)
    requires c.Valid()
  {
    var r := Refill(c, b, now);
    if r.tokens >= n then (r.(tokens := r.tokens - n), true) else (r, false)
  }

  /** The new state and the number of tokens granted. */
  function Step(c: Config, b: Bucket, call: Call): (Bucket, int)
    requires c.Valid()
  {
    match call
    case Allow(now) => var r := Take(c, b, 1, now); (r.0, if r.1 then 1 else 0)
    case AllowN(n, now) => var r := Take(c, b, n, now); (r.0, if r.1 then n else 0)
    case Tokens(now) => (Refill(c, b, now), 0)
  }

  function After(c: Config, b: Bucket, calls: seq<Call>): Bucket
    requires c.Valid()
    decreases |calls|
  {
    if calls == [] then b else After(c, Step(c, b, calls[0]).0, calls[1..])
  }

  /** Tokens granted at times in `[s, t]`. */
  function Granted(c: Config, b: Bucket, calls: seq<Call>, s: int, t: int): int
    requires c.Valid()
    decreases |calls|
  {
    if calls == [] then 0 else
      (if s <= calls[0].at <= t then Step(c, b, calls[0]).1 else 0)
      + Granted(c, Step(c, b, calls[0]).0, calls[1..], s, t)
  }

  /** The clock starts at `from` or later and never goes back, and nobody asks for a negative number. */
  ghost predicate Proper(calls: seq<Call>, from: int)
    decreases |calls|
  {
    calls == [] || (from <= calls[0].at && Sane(calls[0]) && Proper(calls[1..], calls[0].at))
  }

  ghost predicate InRange(c: Config, b: Bucket) {
    0 <= b.tokens <= c.Max()
  }

  // ---------- bounds ----------

  lemma CancelFactor(a: int, b: int, w: int)
    requires w > 0 && a * w < b * w
    ensures a < b
  { }

  lemma Divided(a: int, w: int)
    requires w > 0
    ensures a / w * w <= a < (a / w + 1) * w
  {
    assert (a / w + 1) * w == a / w * w + w;
  }

  lemma NonNegative(a: int, w: int)
    requires a >= 0 && w > 0
    ensures a / w >= 0
  { }

  lemma MultiplesAdd(a: int, b: int, w: int, p: int, q: int, r: int)
    requires w > 0 && p * w <= a && q * w <= b && a + b < (r + 1) * w
    ensures p + q <= r
  {
    assert (p + q) * w == p * w + q * w;
    CancelFactor(p + q, r + 1, w);
  }

  /** Whole windows in two stretches of time are no more than whole windows in both together. */
  lemma FloorAdds(a: int, b: int, w: int)
    requires a >= 0 && b >= 0 && w > 0
    ensures 0 <= a / w + b / w <= (a + b) / w
  {
    NonNegative(a, w);
    NonNegative(b, w);
    Divided(a, w);
    Divided(b, w);
    Divided(a + b, w);
    MultiplesAdd(a, b, w, a / w, b / w, (a + b) / w);
  }

  lemma FloorMonotone(a: int, b: int, w: int)
    requires 0 <= a <= b && w > 0
    ensures 0 <= a / w <= b / w
  {
    FloorAdds(a, b - a, w);
  }

  lemma Times(rate: int, a: int, b: int)
    requires rate > 0 && a <= b
    ensures rate * a <= rate * b
  { }

  /** `Rate` for every whole window in a stretch of time. */
  ghost function Income(c: Config, elapsed: int): int
    requires c.Valid()
  {
    c.rate * (elapsed / c.window)
  }

  lemma IncomeAdds(c: Config, a: int, b: int)
    requires c.Valid() && a >= 0 && b >= 0
    ensures 0 <= Income(c, a) && 0 <= Income(c, b) && Income(c, a) + Income(c, b) <= Income(c, a + b)
  {
    FloorAdds(a, b, c.window);
    FloorAdds(a, 0, c.window);
    FloorAdds(b, 0, c.window);
    Times(c.rate, 0, a / c.window);
    Times(c.rate, 0, b / c.window);
    Times(c.rate, a / c.window + b / c.window, (a + b) / c.window);
    assert c.rate * (a / c.window + b / c.window) == c.rate * (a / c.window) + c.rate * (b / c.window);
  }

  /** The refill adds exactly the income of the time since the last one, up to the cap, and afterwards less
      than a window is outstanding. */
  lemma RefillAddsIncome(c: Config, b: Bucket, now: int)
    requires c.Valid() && InRange(c, b) && b.lastRefill <= now
    ensures var r := Refill(c, b, now); var income := Income(c, now - b.lastRefill);
            && InRange(c, r)
            && (if income > 0 then r.lastRefill == now else r == b)
            && r.tokens == (if b.tokens + income > c.Max() then c.Max() else b.tokens + income)
            && (income > 0 <==> now - b.lastRefill >= c.window)
            && now - r.lastRefill < c.window
  {
    var k := (now - b.lastRefill) / c.window;
    assert TruncDiv(now - b.lastRefill, c.window) * c.rate == c.rate * k;
    IncomeAdds(c, now - b.lastRefill, 0);
    if now - b.lastRefill >= c.window {
      FloorMonotone(c.window, now - b.lastRefill, c.window);
      assert c.window / c.window == 1;
      Times(c.rate, 1, k);
    } else {
      assert k == 0;
    }
  }

  /** The tokens held plus the income of the time until `t`, ignoring the cap. */
  ghost function Worth(c: Config, b: Bucket, t: int): int
    requires c.Valid()
  {
    b.tokens + Income(c, t - b.lastRefill)
  }

  lemma RefillWorth(c: Config, b: Bucket, now: int, t: int)
    requires c.Valid() && InRange(c, b) && b.lastRefill <= now <= t
    ensures Worth(c, Refill(c, b, now), t) <= Worth(c, b, t)
  {
    RefillAddsIncome(c, b, now);
    IncomeAdds(c, now - b.lastRefill, t - now);
  }

  ghost predicate Sane(call: Call) {
    call.AllowN? ==> call.n >= 0
  }

  /** One call keeps the range, moves the bucket's clock forward to within a window, and spends what it grants. */
  lemma StepPays(c: Config, b: Bucket, call: Call)
    requires c.Valid() && InRange(c, b) && b.lastRefill <= call.at && Sane(call)
    ensures var r := Step(c, b, call);
            && InRange(c, r.0) && b.lastRefill <= r.0.lastRefill <= call.at
            && 0 <= r.1 && r.0.tokens + r.1 == Refill(c, b, call.at).tokens
            && r.0.lastRefill == Refill(c, b, call.at).lastRefill
            && call.at - r.0.lastRefill < c.window
  {
    RefillAddsIncome(c, b, call.at);
  }

  /** From any state: what is granted up to `t` is paid by the tokens held and the whole windows passed. */
  lemma {:induction false} GrantedUpTo(c: Config, b: Bucket, calls: seq<Call>, s: int, t: int)
    requires c.Valid() && InRange(c, b) && Proper(calls, b.lastRefill) && b.lastRefill <= t
    ensures Granted(c, b, calls, s, t) <= Worth(c, b, t)
    decreases |calls|
  {
    IncomeAdds(c, t - b.lastRefill, 0);
    if calls != [] {
      if calls[0].at <= t {
        StepPays(c, b, calls[0]);
        RefillWorth(c, b, calls[0].at, t);
        var d := Step(c, b, calls[0]).0;
        ProperEarlier(calls[1..], calls[0].at, d.lastRefill);
        GrantedUpTo(c, d, calls[1..], s, t);
      } else {
        NothingLater(c, b, calls, s, t, b.lastRefill);
      }
    }
  }

  lemma ProperEarlier(calls: seq<Call>, from: int, earlier: int)
    requires Proper(calls, from) && earlier <= from
    ensures Proper(calls, earlier)
  { }

  lemma {:induction false} NothingLater(c: Config, b: Bucket, calls: seq<Call>, s: int, t: int, from: int)
    requires c.Valid() && Proper(calls, from) && (calls == [] || t < calls[0].at)
    ensures Granted(c, b, calls, s, t) == 0
    decreases |calls|
  {
    if calls != [] { NothingLater(c, Step(c, b, calls[0]).0, calls[1..], s, t, calls[0].at); }
  }

  /** In every run the tokens stay in `[0, Rate + BurstSize]`. */
  lemma {:induction false} TokensInRange(c: Config, b: Bucket, calls: seq<Call>)
    requires c.Valid() && InRange(c, b) && Proper(calls, b.lastRefill)
    ensures InRange(c, After(c, b, calls))
    decreases |calls|
  {
    if calls != [] {
      StepPays(c, b, calls[0]);
      var d := Step(c, b, calls[0]).0;
      ProperEarlier(calls[1..], calls[0].at, d.lastRefill);
      TokensInRange(c, d, calls[1..]);
    }
  }

  /** From creation at `t0` to `t`: at most a full bucket plus `Rate` for every whole window since. */
  lemma GrantedSinceCreation(c: Config, t0: int, calls: seq<Call>, t: int)
    requires c.Valid() && Proper(calls, t0) && t0 <= t
    ensures Granted(c, Bucket(c.Max(), t0), calls, t0, t) <= c.Max() + Income(c, t - t0)
  {
    GrantedUpTo(c, Bucket(c.Max(), t0), calls, t0, t);
  }

  /**
   Over every interval `[s, t]` of every run, for every mix of `Allow`, `AllowN` and `Tokens` calls: at most
   `Rate + BurstSize + Rate * (floor((t - s) / Window) + 1)` tokens.
   */
  lemma {:induction false} IntervalBound(c: Config, b: Bucket, calls: seq<Call>, s: int, t: int)
    requires c.Valid() && InRange(c, b) && Proper(calls, b.lastRefill) && s <= t
    ensures Granted(c, b, calls, s, t) <= c.Max() + Income(c, t - s + c.window)
    decreases |calls|
  {
    IncomeAdds(c, t - s + c.window, 0);
    if calls != [] {
      var now := calls[0].at;
      StepPays(c, b, calls[0]);
      var d := Step(c, b, calls[0]).0;
      ProperEarlier(calls[1..], now, d.lastRefill);
      if now < s {
        IntervalBound(c, d, calls[1..], s, t);
      } else if now <= t {
        // After the first call inside the interval the bucket's clock is less than a window behind.
        RefillAddsIncome(c, b, now);
        GrantedUpTo(c, d, calls[1..], s, t);
        IncomeAdds(c, t - d.lastRefill, (t - s + c.window) - (t - d.lastRefill));
      } else {
        NothingLater(c, b, calls, s, t, b.lastRefill);
      }
    }
  }

  lemma OneMoreWindow(c: Config, elapsed: int)
    requires c.Valid() && 0 <= elapsed
    ensures Income(c, elapsed + c.window) == c.rate * (elapsed / c.window + 1)
  {
    var q, r, w := elapsed / c.window, (elapsed + c.window) / c.window, c.window;
    Divided(elapsed, w);
    Divided(elapsed + w, w);
    assert (q + 2) * w == (q + 1) * w + w && (q + 1) * w == q * w + w;
    CancelFactor(r, q + 2, w);
    CancelFactor(q + 1, r + 1, w);
  }

  /** The interval bound in the configuration's own numbers. */
  lemma IntervalBoundInWindows(c: Config, t0: int, calls: seq<Call>, s: int, t: int)
    requires c.Valid() && Proper(calls, t0) && s <= t
    ensures Granted(c, Bucket(c.Max(), t0), calls, s, t)
            <= c.rate + c.burst + c.rate * ((t - s) / c.window + 1)
  {
    IntervalBound(c, Bucket(c.Max(), t0), calls, s, t);
    OneMoreWindow(c, t - s);
  }

  // ---------- what is granted, exactly ----------

  /** A request is granted, whatever its size, exactly when the tokens held and the income of the time since the
      last refill cover it, up to the cap; and then exactly that many are taken. */
  lemma GrantedIff(c: Config, b: Bucket, n: int, now: int)
    requires c.Valid() && InRange(c, b) && b.lastRefill <= now
    ensures var held := b.tokens + Income(c, now - b.lastRefill); var r := Take(c, b, n, now);
            && (r.1 <==> n <= held && n <= c.Max())
            && r.0.tokens == (if held < c.Max() then held else c.Max()) - (if r.1 then n else 0)
            && Step(c, b, AllowN(n, now)) == (r.0, if r.1 then n else 0)
  {
    RefillAddsIncome(c, b, now);
  }

  /** `k` single requests at one instant. */
  function Burst(t: int, k: nat): seq<Call> {
    if k == 0 then [] else [Allow(t)] + Burst(t, k - 1)
  }

  lemma {:induction false} BurstFrom(c: Config, b: Bucket, k: nat)
    requires c.Valid() && InRange(c, b)
    ensures Granted(c, b, Burst(b.lastRefill, k), b.lastRefill, b.lastRefill) == if k <= b.tokens then k else b.tokens
    decreases k
  {
    if k > 0 {
      var calls := Burst(b.lastRefill, k);
      RefillAddsIncome(c, b, b.lastRefill);
      assert calls[1..] == Burst(b.lastRefill, k - 1);
      BurstFrom(c, Step(c, b, calls[0]).0, k - 1);
    }
  }

  /** Of any number of requests at the instant of creation exactly `Rate + BurstSize` are granted. */
  lemma BurstAtCreation(c: Config, t0: int, k: nat)
    requires c.Valid()
    ensures Granted(c, Bucket(c.Max(), t0), Burst(t0, k), t0, t0)
            == if k <= c.rate + c.burst then k else c.rate + c.burst
  {
    BurstFrom(c, Bucket(c.Max(), t0), k);
  }

  // ---------- where the code falls short ----------

  /** `AllowN` accepts a negative number and then adds tokens: the range survives exactly when the request is
      not below what is missing from a full bucket. */
  lemma AllowNKeepsRangeIff(c: Config, b: Bucket, n: int, now: int)
    requires c.Valid() && InRange(c, b) && b.lastRefill <= now
    ensures InRange(c, Step(c, b, AllowN(n, now)).0) <==> n >= Refill(c, b, now).tokens - c.Max()
  {
    RefillAddsIncome(c, b, now);
  }

  lemma NegativeRequestOverflows()
    ensures var c := Config(2, 0, 10); !InRange(c, Step(c, Bucket(2, 0), AllowN(-1, 0)).0)
  { }

  /** `AllowN(n)` at any time from any bucket in range leaves it in range. */
  ghost predicate AlwaysInRange(c: Config, n: int)
    requires c.Valid()
  {
    forall b: Bucket, now: int :: InRange(c, b) && b.lastRefill <= now ==> InRange(c, Take(c, b, n, now).0)
  }

  /** What a caller can know: the range is safe exactly from requests that are not negative. */
  lemma AllowNSafeIff(c: Config, n: int)
    requires c.Valid()
    ensures AlwaysInRange(c, n) <==> n >= 0
  {
    if n >= 0 {
      forall b: Bucket, now: int | InRange(c, b) && b.lastRefill <= now ensures InRange(c, Take(c, b, n, now).0) {
        AllowNKeepsRangeIff(c, b, n, now);
      }
    } else {
      var full := Bucket(c.Max(), 0);
      RefillAddsIncome(c, full, 0);
      assert !InRange(c, Take(c, full, n, 0).0);
    }
  }

  /** `rateLimitError` advertises `Window / Rate`.  After a rejection at `now`, retrying after a wait of `d`
      succeeds exactly when a whole window has passed since the last refill. */
  lemma RetrySucceedsIff(c: Config, b: Bucket, now: int, d: int)
    requires c.Valid() && InRange(c, b) && b.lastRefill <= now && d >= 0
    requires !Take(c, b, 1, now).1
    ensures var r := Take(c, b, 1, now).0;
            Take(c, r, 1, now + d).1 <==> now + d - r.lastRefill >= c.window
  {
    RefillAddsIncome(c, b, now);
    RefillAddsIncome(c, Take(c, b, 1, now).0, now + d);
  }

  /** The advertised wait is therefore not a guarantee. */
  lemma AdvertisedWaitCanFail()
    ensures var c := Config(2, 0, 10); var b := Bucket(0, 0);
            !Take(c, b, 1, 0).1 && !Take(c, Take(c, b, 1, 0).0, 1, 0 + c.window / c.rate).1
  { }

  /** Retrying after the advertised wait succeeds. */
  ghost predicate WaitSuffices(c: Config, b: Bucket, now: int)
    requires c.Valid()
  {
    Take(c, Take(c, b, 1, now).0, 1, now + c.window / c.rate).1
  }

  /** Retrying after the advertised wait succeeds whenever a request was rejected. */
  ghost predicate WaitAlwaysSuffices(c: Config)
    requires c.Valid()
  {
    forall b: Bucket, now: int ::
      InRange(c, b) && b.lastRefill <= now && !Take(c, b, 1, now).1 ==> WaitSuffices(c, b, now)
  }

  lemma SharedWindow(window: int, rate: int)
    requires window > 0 && rate > 0
    ensures 0 <= window / rate
    ensures window / rate >= window <==> rate == 1
  {
    var q := window / rate;
    Divided(window, rate);
    NonNegative(window, rate);
    if rate >= 2 && q >= window {
      AtLeast(2, rate, q);
    }
  }

  lemma AtLeast(low: int, rate: int, q: int)
    requires low <= rate && q >= 0
    ensures low * q <= q * rate
  { }

  lemma WaitOfAWindow(c: Config, b: Bucket, now: int)
    requires c.Valid() && c.rate == 1 && InRange(c, b) && b.lastRefill <= now && !Take(c, b, 1, now).1
    ensures WaitSuffices(c, b, now)
  {
    SharedWindow(c.window, c.rate);
    RefillAddsIncome(c, b, now);
    RetrySucceedsIff(c, b, now, c.window / c.rate);
  }

  lemma WaitTooShort(c: Config, t0: int)
    requires c.Valid() && c.rate > 1
    ensures !Take(c, Bucket(0, t0), 1, t0).1 && !WaitSuffices(c, Bucket(0, t0), t0)
  {
    SharedWindow(c.window, c.rate);
    RefillAddsIncome(c, Bucket(0, t0), t0);
    RetrySucceedsIff(c, Bucket(0, t0), t0, c.window / c.rate);
  }

  /** The advertised wait is a guarantee exactly when the configuration asks for one token per window. */
  lemma AdvertisedWaitSufficesIff(c: Config)
    requires c.Valid()
    ensures WaitAlwaysSuffices(c) <==> c.rate == 1
  {
    if c.rate == 1 {
      forall b: Bucket, now: int | InRange(c, b) && b.lastRefill <= now && !Take(c, b, 1, now).1
        ensures WaitSuffices(c, b, now)
      {
        WaitOfAWindow(c, b, now);
      }
    } else {
      WaitTooShort(c, 0);
    }
  }

  // ---------- the object ----------

  class Limiter {
    const config: Config
    var tokens: int
    var lastRefill: int

    ghost function State(): Bucket
      reads this
    {
      Bucket(tokens, lastRefill)
    }

    constructor (config: Config, now: int)
      requires config.Valid()
      ensures this.config == config && State() == Bucket(config.Max(), now)
    {
      this.config, tokens, lastRefill := config, config.rate + config.burst, now;
    }

    method FillUp(now: int)
      requires config.Valid()
      modifies this
      ensures State() == Refill(config, old(State()), now)
    {
      var elapsed := now - lastRefill;
      var tokensToAdd := TruncDiv(elapsed, config.window) * config.rate;
      if tokensToAdd > 0 {
        tokens := tokens + tokensToAdd;
        var maxTokens := config.rate + config.burst;
        if tokens > maxTokens {
          tokens := maxTokens;
        }
        lastRefill := now;
      }
    }

    method Allow(now: int) returns (ok: bool)
      requires config.Valid()
      modifies this
      ensures (State(), if ok then 1 else 0) == Step(config, old(State()), Call.Allow(now))
    {
      FillUp(now);
      if tokens > 0 {
        tokens := tokens - 1;
        return true;
      }
      return false;
    }

    method AllowN(n: int, now: int) returns (ok: bool)
      requires config.Valid()
      modifies this
      ensures (State(), if ok then n else 0) == Step(config, old(State()), Call.AllowN(n, now))
    {
      FillUp(now);
      if tokens >= n {
        tokens := tokens - n;
        return true;
      }
      return false;
    }

    method Tokens(now: int) returns (count: int)
      requires config.Valid()
      modifies this
      ensures State() == Step(config, old(State()), Call.Tokens(now)).0 && count == tokens
    {
      FillUp(now);
      count := tokens;
    }
  }

  /** `NewRateLimiter`: nothing for a configuration that does not validate. */
  method NewRateLimiter(config: Config, now: int) returns (rl: Limiter?)
    ensures rl == null <==> !config.Valid()
    ensures rl != null ==> fresh(rl) && rl.config == config && rl.State() == Bucket(config.Max(), now)
  {
    if !config.Valid() {
      return null;
    }
    rl := new Limiter(config, now);
  }
}
