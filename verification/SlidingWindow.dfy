/**
 The sliding-window limiter (libs/go/resilience/ratelimit/sliding_window.go).  Every call reads the clock
 once; the reading is an argument.
 */
module SlidingWindow {
  datatype Decision = Decision(allowed: bool, limit: int, remaining: int, resetAt: int, retryAfter: int)

  datatype Window = Window(limit: int, span: int, requests: seq<int>)

  /** `Allow`, or one of the calls that only prune: `GetHeaders`, `GetRequestCount`, `GetRequests`. */
  datatype Call = Allow(at: int) | Observe(at: int)

  // ---------- value model ----------

  function Prune(requests: seq<int>, cutoff: int): seq<int> {
    if requests == [] || requests[0] > cutoff then requests else Prune(requests[1..], cutoff)
  }

  function ResetTime(w: Window, now: int): int {
    if w.requests == [] then now else w.requests[0] + w.span
  }

  function RetryAfter(w: Window, now: int): int {
    if w.requests == [] then 0
    else if w.requests[0] + w.span > now then w.requests[0] + w.span - now else 0
  }

  function Pruned(w: Window, now: int): Window {
    w.(requests := Prune(w.requests, now - w.span))
  }

  function DoAllow(w: Window, now: int): (Window, Decision) {
    var p := Pruned(w, now);
    if |p.requests| < p.limit then
      var q := p.(requests := p.requests + [now]);
      (q, Decision(true, p.limit, p.limit - |q.requests|, ResetTime(p, now), 0))
    else
      (p, Decision(false, p.limit, p.limit - |p.requests|, ResetTime(p, now), RetryAfter(p, now)))
  }

  function Step(w: Window, call: Call): Window {
    match call
    case Allow(now) => DoAllow(w, now).0
    case Observe(now) => Pruned(w, now)
  }

  function After(w: Window, calls: seq<Call>): Window {
    if calls == [] then w else Step(After(w, calls[..|calls| - 1]), calls[|calls| - 1])
  }

  /** The decisions of the `Allow` calls of a run, in order, and their times. */
  function Decisions(w: Window, calls: seq<Call>): seq<bool> {
    if calls == [] then [] else
      var rest, last := calls[..|calls| - 1], calls[|calls| - 1];
      if last.Allow? then Decisions(w, rest) + [DoAllow(After(w, rest), last.at).1.allowed] else Decisions(w, rest)
  }

  function Times(calls: seq<Call>): seq<int> {
    if calls == [] then [] else
      var rest, last := calls[..|calls| - 1], calls[|calls| - 1];
      if last.Allow? then Times(rest) + [last.at] else Times(rest)
  }

  /** The clock never goes back. */
  ghost predicate Ordered(calls: seq<Call>) {
    calls == [] || (Ordered(calls[..|calls| - 1]) && CallsBy(calls[..|calls| - 1], calls[|calls| - 1].at))
  }

  ghost predicate LastBy(s: seq<int>, hi: int) {
    s == [] || s[|s| - 1] <= hi
  }

  ghost predicate Sorted(s: seq<int>) {
    s == [] || (Sorted(s[..|s| - 1]) && LastBy(s[..|s| - 1], s[|s| - 1]))
  }

  /** The last call was made by `now`. */
  ghost predicate CallsBy(calls: seq<Call>, now: int) {
    calls == [] || calls[|calls| - 1].at <= now
  }

  // ---------- the reference limiter: it keeps the whole history ----------

  function CountTrue(sel: seq<bool>): nat {
    if sel == [] then 0 else CountTrue(sel[..|sel| - 1]) + (if sel[|sel| - 1] then 1 else 0)
  }

  /** How many of the selected times lie in the half-open interval `(lo, hi]`. */
  function CountIn(times: seq<int>, sel: seq<bool>, lo: int, hi: int): nat
    requires |times| == |sel|
  {
    if times == [] then 0 else
      var n := |times| - 1;
      CountIn(times[..n], sel[..n], lo, hi) + (if sel[n] && lo < times[n] <= hi then 1 else 0)
  }

  /** Admit when fewer than `limit` admissions of the whole history lie in the window ending now. */
  function Reference(limit: int, span: int, times: seq<int>): (sel: seq<bool>)
    ensures |sel| == |times|
  {
    if times == [] then [] else
      var n := |times| - 1;
      var past := Reference(limit, span, times[..n]);
      past + [CountIn(times[..n], past, times[n] - span, times[n]) < limit]
  }

  // ---------- refinement ----------

  /** The selected times after `cutoff`, in order. */
  ghost function Since(times: seq<int>, sel: seq<bool>, cutoff: int): seq<int>
    requires |times| == |sel|
  {
    if times == [] then [] else
      var n := |times| - 1;
      var rest := Since(times[..n], sel[..n], cutoff);
      if sel[n] && times[n] > cutoff then rest + [times[n]] else rest
  }

  /** No element is above `hi`. */
  ghost predicate AtMost(s: seq<int>, hi: int) {
    s == [] || (s[0] <= hi && AtMost(s[1..], hi))
  }

  lemma {:induction false} AtMostSnoc(s: seq<int>, t: int, hi: int)
    requires AtMost(s, hi) && t <= hi
    ensures AtMost(s + [t], hi)
  {
    if s != [] {
      AtMostSnoc(s[1..], t, hi);
      assert (s + [t])[1..] == s[1..] + [t];
    }
  }

  lemma {:induction false} PruneAppend(s: seq<int>, t: int, cutoff: int)
    requires AtMost(s, t)
    ensures Prune(s + [t], cutoff) == Prune(s, cutoff) + (if t > cutoff then [t] else [])
  {
    if s != [] && s[0] <= cutoff {
      PruneAppend(s[1..], t, cutoff);
      assert (s + [t])[1..] == s[1..] + [t];
    }
  }

  lemma {:induction false} SinceCounts(times: seq<int>, sel: seq<bool>, cutoff: int, hi: int)
    requires |times| == |sel| && Sorted(times) && LastBy(times, hi)
    ensures AtMost(Since(times, sel, cutoff), hi)
    ensures |Since(times, sel, cutoff)| == CountIn(times, sel, cutoff, hi)
  {
    if times != [] {
      var n := |times| - 1;
      SinceCounts(times[..n], sel[..n], cutoff, hi);
      AtMostSnoc(Since(times[..n], sel[..n], cutoff), times[n], hi);
    }
  }

  /** Raising the right end beyond every time counts nothing more. */
  lemma {:induction false} CountBeyond(times: seq<int>, sel: seq<bool>, lo: int, hi: int, higher: int)
    requires |times| == |sel| && hi <= higher
    requires Sorted(times) && LastBy(times, hi)
    ensures CountIn(times, sel, lo, hi) == CountIn(times, sel, lo, higher)
  {
    if times != [] { CountBeyond(times[..|times| - 1], sel[..|times| - 1], lo, hi, higher); }
  }

  lemma {:induction false} PruneSince(times: seq<int>, sel: seq<bool>, c: int, d: int)
    requires |times| == |sel| && Sorted(times) && c <= d
    ensures Prune(Since(times, sel, c), d) == Since(times, sel, d)
  {
    if times != [] {
      var n := |times| - 1;
      PruneSince(times[..n], sel[..n], c, d);
      if sel[n] && times[n] > c {
        SinceCounts(times[..n], sel[..n], c, times[n]);
        PruneAppend(Since(times[..n], sel[..n], c), times[n], d);
      }
    }
  }

  lemma {:induction false} TimesSorted(calls: seq<Call>, now: int)
    requires Ordered(calls) && CallsBy(calls, now)
    ensures Sorted(Times(calls)) && LastBy(Times(calls), now)
  {
    if calls != [] { TimesSorted(calls[..|calls| - 1], calls[|calls| - 1].at); }
  }

  lemma {:induction false} SinceSnoc(times: seq<int>, sel: seq<bool>, now: int, b: bool, d: int)
    requires |times| == |sel|
    ensures Since(times + [now], sel + [b], d) == Since(times, sel, d) + (if b && now > d then [now] else [])
  {
    assert (times + [now])[..|times|] == times && (sel + [b])[..|sel|] == sel;
  }

  lemma {:induction false} ReferenceSnoc(limit: int, span: int, times: seq<int>, now: int)
    ensures var sel := Reference(limit, span, times);
            Reference(limit, span, times + [now]) == sel + [CountIn(times, sel, now - span, now) < limit]
  {
    assert (times + [now])[..|times|] == times;
  }

  /** The list kept for a history at one cutoff, after one more `Allow` and pruned at a later cutoff, is the
      list kept for the longer history. */
  lemma {:induction false} KeptAfter(times: seq<int>, sel: seq<bool>, now: int, allowed: bool, c: int, d: int)
    requires |times| == |sel| && Sorted(times) && LastBy(times, now) && c <= d
    ensures var kept := Since(times, sel, c);
            Prune(if allowed then kept + [now] else kept, d) == Since(times + [now], sel + [allowed], d)
  {
    PruneSince(times, sel, c, d);
    SinceSnoc(times, sel, now, allowed, d);
    SinceCounts(times, sel, c, now);
    PruneAppend(Since(times, sel, c), now, d);
  }

  /** One `Allow` on a limiter that keeps the window of a history decides by counting the history. */
  lemma {:induction false} AllowCounts(w: Window, now: int, times: seq<int>, sel: seq<bool>)
    requires |times| == |sel| && Sorted(times) && LastBy(times, now)
    requires Prune(w.requests, now - w.span) == Since(times, sel, now - w.span)
    ensures var r := DoAllow(w, now); var kept := Since(times, sel, now - w.span);
            && r.1.allowed == (CountIn(times, sel, now - w.span, now) < w.limit)
            && r.0 == w.(requests := if r.1.allowed then kept + [now] else kept)
            && r.1.remaining == w.limit - |r.0.requests|
  {
    SinceCounts(times, sel, now - w.span, now);
  }

  /** ... and then keeps the window of the longer history. */
  lemma {:induction false} AllowKeeps(w: Window, times: seq<int>, sel: seq<bool>, now: int, d: int)
    requires |times| == |sel| && Sorted(times) && LastBy(times, now) && now - w.span <= d
    requires Prune(w.requests, now - w.span) == Since(times, sel, now - w.span)
    ensures var r := DoAllow(w, now); Prune(r.0.requests, d) == Since(times + [now], sel + [r.1.allowed], d)
  {
    var r, kept := DoAllow(w, now), Since(times, sel, now - w.span);
    assert r.0.requests == (if r.1.allowed then kept + [now] else kept);
    KeptAfter(times, sel, now, r.1.allowed, now - w.span, d);
  }

  /** The limiter keeps the part after `cutoff` of what the reference admits of `times`. */
  ghost predicate KeepsAfter(w: Window, times: seq<int>, cutoff: int) {
    Prune(w.requests, cutoff) == Since(times, Reference(w.limit, w.span, times), cutoff)
  }

  lemma {:induction false} ObserveKeeps(w: Window, times: seq<int>, now: int, d: int)
    requires Sorted(times) && now - w.span <= d && KeepsAfter(w, times, now - w.span)
    ensures KeepsAfter(Pruned(w, now), times, d)
  {
    PruneSince(times, Reference(w.limit, w.span, times), now - w.span, d);
  }

  lemma {:induction false} StepKeeps(w: Window, times: seq<int>, call: Call, d: int)
    requires Sorted(times) && LastBy(times, call.at) && call.at - w.span <= d
    requires KeepsAfter(w, times, call.at - w.span)
    ensures Step(w, call).limit == w.limit && Step(w, call).span == w.span
    ensures KeepsAfter(Step(w, call), if call.Allow? then times + [call.at] else times, d)
    ensures call.Allow? ==> Reference(w.limit, w.span, times + [call.at])
                            == Reference(w.limit, w.span, times) + [DoAllow(w, call.at).1.allowed]
  {
    if call.Allow? {
      var sel := Reference(w.limit, w.span, times);
      AllowKeeps(w, times, sel, call.at, d);
      assert Reference(w.limit, w.span, times + [call.at]) == sel + [DoAllow(w, call.at).1.allowed] by {
        AllowCounts(w, call.at, times, sel);
        ReferenceSnoc(w.limit, w.span, times, call.at);
      }
    } else {
      ObserveKeeps(w, times, call.at, d);
    }
  }

  lemma {:induction false} RunKeeps(limit: int, span: int, calls: seq<Call>, now: int)
    requires Ordered(calls) && CallsBy(calls, now)
    ensures var w := After(Window(limit, span, []), calls);
            w.limit == limit && w.span == span && KeepsAfter(w, Times(calls), now - span)
  {
    if calls != [] {
      var rest, last := calls[..|calls| - 1], calls[|calls| - 1];
      RunKeeps(limit, span, rest, last.at);
      TimesSorted(rest, last.at);
      StepKeeps(After(Window(limit, span, []), rest), Times(rest), last, now - span);
    }
  }

  lemma {:induction false} RunDecides(limit: int, span: int, calls: seq<Call>)
    requires Ordered(calls)
    ensures Decisions(Window(limit, span, []), calls) == Reference(limit, span, Times(calls))
  {
    if calls != [] {
      var rest, last := calls[..|calls| - 1], calls[|calls| - 1];
      RunDecides(limit, span, rest);
      RunKeeps(limit, span, rest, last.at);
      TimesSorted(rest, last.at);
      StepKeeps(After(Window(limit, span, []), rest), Times(rest), last, last.at - span);
    }
  }

  /**
   The limiter refines the history-keeping one, for every run of calls at nondecreasing times: every
   decision is the one made by counting the whole history, and pruned at any `now` from the last call on,
   the kept requests are exactly the admitted times in `(now - span, now]`.
   */
  lemma {:induction false} RefinesHistory(limit: int, span: int, calls: seq<Call>, now: int)
    requires Ordered(calls) && CallsBy(calls, now)
    ensures Decisions(Window(limit, span, []), calls) == Reference(limit, span, Times(calls))
    ensures var w := After(Window(limit, span, []), calls);
            && w.limit == limit && w.span == span
            && KeepsAfter(w, Times(calls), now - span)
  {
    RunDecides(limit, span, calls);
    RunKeeps(limit, span, calls, now);
  }

  // ---------- the bound on every window ----------

  lemma {:induction false} CountShrinks(times: seq<int>, sel: seq<bool>, lo: int, lower: int, hi: int)
    requires |times| == |sel| && lower <= lo
    ensures CountIn(times, sel, lo, hi) <= CountIn(times, sel, lower, hi)
  {
    if times != [] { CountShrinks(times[..|times| - 1], sel[..|times| - 1], lo, lower, hi); }
  }

  /** In every window `(t - span, t]`, at any instant `t`, the reference admits at most `limit`. */
  lemma {:induction false} WindowBound(limit: int, span: int, times: seq<int>, t: int)
    requires Sorted(times)
    ensures CountIn(times, Reference(limit, span, times), t - span, t) <= if limit < 0 then 0 else limit
  {
    if times != [] {
      var n := |times| - 1;
      var past, now := Reference(limit, span, times[..n]), times[n];
      WindowBound(limit, span, times[..n], t);
      assert Reference(limit, span, times)[..n] == past;
      if t - span < now <= t {
        CountBeyond(times[..n], past, t - span, now, t);
        CountShrinks(times[..n], past, t - span, now - span, now);
      }
    }
  }

  /** The same bound for the limiter itself, over every run with any mix of `Allow` and observing calls. */
  lemma {:induction false} EveryWindowBounded(limit: int, span: int, calls: seq<Call>, t: int)
    requires Ordered(calls)
    ensures var sel := Decisions(Window(limit, span, []), calls);
            && |sel| == |Times(calls)|
            && CountIn(Times(calls), sel, t - span, t) <= if limit < 0 then 0 else limit
  {
    var now := if calls == [] then 0 else calls[|calls| - 1].at;
    RefinesHistory(limit, span, calls, now);
    TimesSorted(calls, now);
    WindowBound(limit, span, Times(calls), t);
  }

  // ---------- optimality ----------

  /** How many selected requests lie in the window of length `span` that ends at `t`. */
  function InWindow(times: seq<int>, sel: seq<bool>, span: int, t: int): nat
    requires |times| == |sel|
  {
    CountIn(times, sel, t - span, t)
  }

  /** A selection of the requests that keeps every window at or below the limit. */
  ghost predicate Legal(limit: int, span: int, times: seq<int>, sel: seq<bool>)
    requires |times| == |sel|
  {
    forall t :: InWindow(times, sel, span, t) <= limit
  }

  lemma {:induction false} CountPrefix(times: seq<int>, sel: seq<bool>, n: nat, lo: int, hi: int)
    requires |times| == |sel| && n <= |times|
    ensures CountIn(times[..n], sel[..n], lo, hi) <= CountIn(times, sel, lo, hi)
  {
    if n < |times| {
      var m := |times| - 1;
      CountPrefix(times[..m], sel[..m], n, lo, hi);
      assert times[..m][..n] == times[..n] && sel[..m][..n] == sel[..n];
    } else {
      assert times[..n] == times && sel[..n] == sel;
    }
  }

  /** How many times are at or before `lo`. */
  ghost function Position(times: seq<int>, lo: int): (p: nat)
    ensures p <= |times|
  {
    if times == [] then 0
    else if times[|times| - 1] <= lo then |times| else Position(times[..|times| - 1], lo)
  }

  lemma {:induction false} CountBelow(times: seq<int>, sel: seq<bool>, lo: int, hi: int)
    requires |times| == |sel| && Sorted(times) && LastBy(times, lo)
    ensures CountIn(times, sel, lo, hi) == 0
  {
    if times != [] { CountBelow(times[..|times| - 1], sel[..|times| - 1], lo, hi); }
  }

  /** The count after `lo` is a difference of two counts of a prefix. */
  lemma {:induction false} CountSplit(times: seq<int>, sel: seq<bool>, lo: int, hi: int)
    requires |times| == |sel| && Sorted(times) && LastBy(times, hi)
    ensures CountIn(times, sel, lo, hi) + CountTrue(sel[..Position(times, lo)]) == CountTrue(sel)
  {
    if times == [] || times[|times| - 1] <= lo {
      CountBelow(times, sel, lo, hi);
      assert sel[..|sel|] == sel;
    } else {
      var n := |times| - 1;
      CountSplit(times[..n], sel[..n], lo, hi);
      assert sel[..n][..Position(times, lo)] == sel[..Position(times, lo)];
    }
  }

  lemma {:induction false} ReferencePrefix(limit: int, span: int, times: seq<int>, n: nat)
    requires n <= |times|
    ensures Reference(limit, span, times)[..n] == Reference(limit, span, times[..n])
  {
    if n < |times| {
      var m := |times| - 1;
      ReferencePrefix(limit, span, times[..m], n);
      assert times[..m][..n] == times[..n];
      assert Reference(limit, span, times)[..n] == Reference(limit, span, times[..m])[..n];
    } else {
      assert times[..n] == times;
    }
  }

  lemma {:induction false} SortedPrefix(times: seq<int>, n: nat)
    requires Sorted(times) && n <= |times|
    ensures Sorted(times[..n])
  {
    if n < |times| {
      SortedPrefix(times[..|times| - 1], n);
      assert times[..|times| - 1][..n] == times[..n];
    } else {
      assert times[..n] == times;
    }
  }

  /**
   The exchange step: if another selection has room for a request at `now` and ours has none, then since some
   shorter prefix ours has gained more.
   */
  lemma {:induction false} Exchange(limit: int, span: int, past: seq<int>, ours: seq<bool>, theirs: seq<bool>, now: int)
    returns (p: nat)
    requires |past| == |ours| == |theirs| && Sorted(past) && LastBy(past, now) && span > 0
    requires CountIn(past, theirs, now - span, now) + 1 <= limit <= CountIn(past, ours, now - span, now)
    ensures p <= |past|
    ensures CountTrue(theirs) - CountTrue(theirs[..p]) < CountTrue(ours) - CountTrue(ours[..p])
  {
    p := Position(past, now - span);
    CountSplit(past, ours, now - span, now);
    CountSplit(past, theirs, now - span, now);
  }

  /** A selection that takes each request for which its past leaves room, as the reference does. */
  ghost predicate Greedy(limit: int, span: int, times: seq<int>, sel: seq<bool>)
    requires |times| == |sel|
  {
    times == [] ||
    var n := |times| - 1;
    && Greedy(limit, span, times[..n], sel[..n])
    && sel[n] == (CountIn(times[..n], sel[..n], times[n] - span, times[n]) < limit)
  }

  lemma {:induction false} ReferenceIsGreedy(limit: int, span: int, times: seq<int>)
    ensures Greedy(limit, span, times, Reference(limit, span, times))
  {
    if times != [] {
      var n := |times| - 1;
      ReferenceIsGreedy(limit, span, times[..n]);
      assert Reference(limit, span, times)[..n] == Reference(limit, span, times[..n]);
    }
  }

  lemma {:induction false} GreedyPrefix(limit: int, span: int, times: seq<int>, sel: seq<bool>, n: nat)
    requires |times| == |sel| && Greedy(limit, span, times, sel) && n <= |times|
    ensures Greedy(limit, span, times[..n], sel[..n])
  {
    if n < |times| {
      var m := |times| - 1;
      GreedyPrefix(limit, span, times[..m], sel[..m], n);
      assert times[..m][..n] == times[..n] && sel[..m][..n] == sel[..n];
    } else {
      assert times[..n] == times && sel[..n] == sel;
    }
  }

  /** Where ours rejects the last request and another selection takes it within the limit, the other gained no
      more than ours since some shorter prefix. */
  lemma {:induction false} NoMoreSince(limit: int, span: int, times: seq<int>, ours: seq<bool>, alt: seq<bool>)
    returns (p: nat)
    requires times != [] && |times| == |ours| == |alt| && Sorted(times) && span > 0
    requires Greedy(limit, span, times, ours) && InWindow(times, alt, span, times[|times| - 1]) <= limit
    requires alt[|times| - 1] && !ours[|times| - 1]
    ensures p < |times|
    ensures CountTrue(alt) - CountTrue(alt[..p]) <= CountTrue(ours) - CountTrue(ours[..p])
  {
    var m := |times| - 1;
    p := Exchange(limit, span, times[..m], ours[..m], alt[..m], times[m]);
    assert ours[..m][..p] == ours[..p] && alt[..m][..p] == alt[..p];
  }

  /** Greedy stays ahead: strong induction on the length of the prefix. */
  lemma {:induction false} StaysAhead(limit: int, span: int, times: seq<int>, ours: seq<bool>, alt: seq<bool>)
    requires |times| == |ours| == |alt| && Sorted(times) && span > 0
    requires Greedy(limit, span, times, ours) && Legal(limit, span, times, alt)
    ensures CountTrue(alt) <= CountTrue(ours)
    decreases |times|
  {
    if times != [] {
      var p := |times| - 1;
      if alt[p] && !ours[p] {
        assert InWindow(times, alt, span, times[p]) <= limit;
        p := NoMoreSince(limit, span, times, ours, alt);
      }
      SortedPrefix(times, p);
      GreedyPrefix(limit, span, times, ours, p);
      LegalPrefix(limit, span, times, alt, p);
      StaysAhead(limit, span, times[..p], ours[..p], alt[..p]);
    }
  }

  lemma {:induction false} LegalPrefix(limit: int, span: int, times: seq<int>, alt: seq<bool>, n: nat)
    requires |times| == |alt| && n <= |times| && Legal(limit, span, times, alt)
    ensures Legal(limit, span, times[..n], alt[..n])
  {
    forall t ensures InWindow(times[..n], alt[..n], span, t) <= limit {
      assert InWindow(times, alt, span, t) <= limit;
      CountPrefix(times, alt, n, t - span, t);
    }
  }

  /**
   Optimality: for every nondecreasing request sequence and every prefix of it, the limiter has admitted at
   least as many requests as any other selection that keeps each window `(t - span, t]` at or below the
   limit.  A window of no length counts nothing, so there a limit of zero is the one exception.
   */
  lemma {:induction false} GreedyIsOptimal(limit: int, span: int, calls: seq<Call>, alt: seq<bool>, n: nat)
    requires Ordered(calls) && (span > 0 || limit != 0)
    requires |alt| == |Times(calls)| && n <= |alt|
    requires Legal(limit, span, Times(calls), alt)
    ensures |Decisions(Window(limit, span, []), calls)| == |alt|
    ensures CountTrue(alt[..n]) <= CountTrue(Decisions(Window(limit, span, []), calls)[..n])
  {
    var now := if calls == [] then 0 else calls[|calls| - 1].at;
    RefinesHistory(limit, span, calls, now);
    TimesSorted(calls, now);
    SortedPrefix(Times(calls), n);
    LegalPrefix(limit, span, Times(calls), alt, n);
    if span > 0 {
      ReferenceIsGreedy(limit, span, Times(calls)[..n]);
      StaysAhead(limit, span, Times(calls)[..n], Reference(limit, span, Times(calls)[..n]), alt[..n]);
    } else {
      assert 0 <= InWindow(Times(calls), alt, span, now) <= limit;
      EmptyWindowAdmitsAll(limit, span, Times(calls)[..n]);
      CountAtMost(alt[..n]);
    }
    ReferencePrefix(limit, span, Times(calls), n);
  }

  lemma {:induction false} CountAtMost(sel: seq<bool>)
    ensures CountTrue(sel) <= |sel|
  {
    if sel != [] { CountAtMost(sel[..|sel| - 1]); }
  }

  lemma {:induction false} EmptyWindowCountsNothing(times: seq<int>, sel: seq<bool>, lo: int, hi: int)
    requires |times| == |sel| && hi <= lo
    ensures CountIn(times, sel, lo, hi) == 0
  {
    if times != [] { EmptyWindowCountsNothing(times[..|times| - 1], sel[..|times| - 1], lo, hi); }
  }

  lemma {:induction false} EmptyWindowAdmitsAll(limit: int, span: int, times: seq<int>)
    requires span <= 0 && limit > 0
    ensures CountTrue(Reference(limit, span, times)) == |times|
  {
    if times != [] {
      var n := |times| - 1;
      var past := Reference(limit, span, times[..n]);
      EmptyWindowAdmitsAll(limit, span, times[..n]);
      EmptyWindowCountsNothing(times[..n], past, times[n] - span, times[n]);
      assert Reference(limit, span, times)[..n] == past;
    }
  }

  lemma {:induction false} NonPositiveAdmitsNothing(limit: int, span: int, times: seq<int>)
    requires limit <= 0
    ensures CountTrue(Reference(limit, span, times)) == 0
  {
    if times != [] {
      NonPositiveAdmitsNothing(limit, span, times[..|times| - 1]);
      assert Reference(limit, span, times)[..|times| - 1] == Reference(limit, span, times[..|times| - 1]);
    }
  }

  ghost function Everything(n: nat): (sel: seq<bool>)
    ensures |sel| == n == CountTrue(sel)
  {
    if n == 0 then [] else
      var sel := Everything(n - 1) + [true];
      assert sel[..n - 1] == Everything(n - 1);
      sel
  }

  lemma {:induction false} EverythingIsLegal(span: int, times: seq<int>)
    requires span <= 0
    ensures Legal(0, span, times, Everything(|times|))
  {
    forall t ensures InWindow(times, Everything(|times|), span, t) <= 0 {
      EmptyWindowCountsNothing(times, Everything(|times|), t - span, t);
    }
  }

  /** No selection of the run's requests that keeps every window at or below the limit admits more. */
  ghost predicate NoneBetter(limit: int, span: int, calls: seq<Call>) {
    forall alt :: |alt| == |Times(calls)| && Legal(limit, span, Times(calls), alt)
                  ==> CountTrue(alt) <= CountTrue(Decisions(Window(limit, span, []), calls))
  }

  /** The limiter admits as many requests of a run as any legal selection, except exactly when the limit is
      zero, the window has no length, and something is asked: then all is legal and nothing is admitted. */
  lemma {:induction false} OptimalIff(limit: int, span: int, calls: seq<Call>)
    requires Ordered(calls)
    ensures NoneBetter(limit, span, calls) <==> span > 0 || limit != 0 || Times(calls) == []
  {
    var sel := Decisions(Window(limit, span, []), calls);
    RefinesHistory(limit, span, calls, if calls == [] then 0 else calls[|calls| - 1].at);
    if span > 0 || limit != 0 {
      forall alt | |alt| == |Times(calls)| && Legal(limit, span, Times(calls), alt)
        ensures CountTrue(alt) <= CountTrue(sel)
      {
        GreedyIsOptimal(limit, span, calls, alt, |alt|);
        assert alt[..|alt|] == alt && sel[..|alt|] == sel;
      }
    } else {
      NonPositiveAdmitsNothing(limit, span, Times(calls));
      EverythingIsLegal(span, Times(calls));
      assert CountTrue(Everything(|Times(calls)|)) == |Times(calls)|;
    }
  }

  // ---------- the reported numbers ----------

  lemma {:induction false} CountSnoc(times: seq<int>, sel: seq<bool>, now: int, b: bool, span: int)
    requires |times| == |sel| && span > 0
    ensures InWindow(times + [now], sel + [b], span, now) == InWindow(times, sel, span, now) + (if b then 1 else 0)
  {
    assert (times + [now])[..|times|] == times && (sel + [b])[..|sel|] == sel;
  }

  /** In every run, `Remaining` is the limit less the admissions in the window that ends with this call. */
  lemma {:induction false} RemainingCounts(limit: int, span: int, calls: seq<Call>, now: int)
    requires Ordered(calls) && CallsBy(calls, now) && span > 0
    ensures var d := DoAllow(After(Window(limit, span, []), calls), now).1;
            var times, sel := Times(calls), Reference(limit, span, Times(calls));
            d.remaining == limit - InWindow(times + [now], sel + [d.allowed], span, now)
  {
    var times, sel := Times(calls), Reference(limit, span, Times(calls));
    var w := After(Window(limit, span, []), calls);
    RefinesHistory(limit, span, calls, now);
    TimesSorted(calls, now);
    RemainingAfter(w, now, times, sel);
  }

  lemma {:induction false} RemainingAfter(w: Window, now: int, times: seq<int>, sel: seq<bool>)
    requires |times| == |sel| && Sorted(times) && LastBy(times, now) && w.span > 0
    requires Prune(w.requests, now - w.span) == Since(times, sel, now - w.span)
    ensures var d := DoAllow(w, now).1;
            d.remaining == w.limit - InWindow(times + [now], sel + [d.allowed], w.span, now)
  {
    AllowCounts(w, now, times, sel);
    SinceCounts(times, sel, now - w.span, now);
    CountSnoc(times, sel, now, DoAllow(w, now).1.allowed, w.span);
  }

  // ---------- ResetAt ----------

  /** By `t` some request that `w` counts has left the window. */
  ghost predicate Leaves(w: Window, t: int) {
    |Pruned(w, t).requests| < |w.requests|
  }

  /** `t0` is the first instant at which a counted request has left. */
  ghost predicate LeavesFrom(w: Window, t0: int) {
    forall t :: Leaves(w, t) <==> t0 <= t
  }

  lemma {:induction false} LeavesIff(w: Window, t: int)
    ensures Leaves(w, t) <==> w.requests != [] && w.requests[0] + w.span <= t
  {
    PruneFacts(w.requests, t - w.span);
  }

  /** The instant `ResetAt` should name is when the oldest counted request leaves. */
  lemma {:induction false} LeavesFromIff(w: Window, t0: int)
    ensures LeavesFrom(w, t0) <==> w.requests != [] && t0 == w.requests[0] + w.span
  {
    forall t ensures Leaves(w, t) <==> w.requests != [] && w.requests[0] + w.span <= t { LeavesIff(w, t); }
    if LeavesFrom(w, t0) {
      assert Leaves(w, t0) && !Leaves(w, t0 - 1);
    }
  }

  /** The first admission of a limiter reports its own time, although its window ends `span` later. */
  lemma {:induction false} FirstResetIsNow(limit: int, span: int, now: int)
    requires limit > 0
    ensures var r := DoAllow(Window(limit, span, []), now);
            r.1.allowed && r.1.resetAt == now && LeavesFrom(r.0, now + span)
  {
    LeavesFromIff(DoAllow(Window(limit, span, []), now).0, now + span);
  }

  /**
   `ResetAt` is read before the request is appended.  In every run it is the first instant at which a request
   counted after the call leaves the window, exactly when the window held an admission before the call: an
   admission into an empty window reports its own time instead (the same instant only if the window has no
   length), and a rejection by a limit that is not positive has nothing to report.
   */
  lemma {:induction false} ResetAtExact(limit: int, span: int, calls: seq<Call>, now: int)
    requires Ordered(calls) && CallsBy(calls, now)
    ensures var r := DoAllow(After(Window(limit, span, []), calls), now);
            LeavesFrom(r.0, r.1.resetAt)
            <==> InWindow(Times(calls), Reference(limit, span, Times(calls)), span, now) > 0
                 || (limit > 0 && span == 0)
  {
    var times, sel := Times(calls), Reference(limit, span, Times(calls));
    var w := After(Window(limit, span, []), calls);
    RefinesHistory(limit, span, calls, now);
    TimesSorted(calls, now);
    SinceCounts(times, sel, now - span, now);
    ResetOnAllow(w, now);
  }

  lemma {:induction false} ResetOnAllow(w: Window, now: int)
    ensures var r := DoAllow(w, now);
            LeavesFrom(r.0, r.1.resetAt) <==> Pruned(w, now).requests != [] || (w.limit > 0 && w.span == 0)
  {
    LeavesFromIff(DoAllow(w, now).0, DoAllow(w, now).1.resetAt);
  }

  // ---------- RetryAfter is tight ----------

  lemma {:induction false} PruneFacts(s: seq<int>, cutoff: int)
    ensures |Prune(s, cutoff)| <= |s|
    ensures Prune(s, cutoff) != [] ==> Prune(s, cutoff)[0] > cutoff
    ensures s != [] && s[0] <= cutoff ==> |Prune(s, cutoff)| < |s|
  {
    if s != [] && s[0] <= cutoff { PruneFacts(s[1..], cutoff); }
  }

  /** Every reachable limiter keeps at most `limit` requests. */
  lemma {:induction false} ReachableWithinLimit(w: Window, calls: seq<Call>)
    requires |w.requests| <= (if w.limit < 0 then 0 else w.limit)
    ensures var v := After(w, calls);
            v.limit == w.limit && v.span == w.span && |v.requests| <= (if w.limit < 0 then 0 else w.limit)
  {
    if calls != [] {
      var rest, last := calls[..|calls| - 1], calls[|calls| - 1];
      ReachableWithinLimit(w, rest);
      PruneFacts(After(w, rest).requests, last.at - w.span);
    }
  }

  /** Before the oldest request leaves the window a full limiter neither changes nor admits. */
  lemma {:induction false} FullStaysFull(w: Window, calls: seq<Call>)
    requires 1 <= w.limit == |w.requests|
    requires forall i :: 0 <= i < |calls| ==> calls[i].at < w.requests[0] + w.span
    ensures After(w, calls) == w
    ensures forall i :: 0 <= i < |Decisions(w, calls)| ==> !Decisions(w, calls)[i]
  {
    if calls != [] { FullStaysFull(w, calls[..|calls| - 1]); }
  }

  /** A rejecting limiter is full, and its oldest request leaves the window in `retryAfter`. */
  lemma {:induction false} RejectedIsFull(v: Window, now: int)
    requires 1 <= v.limit && |v.requests| <= v.limit && !DoAllow(v, now).1.allowed
    ensures var r := DoAllow(v, now);
            && r.0.limit == v.limit == |r.0.requests| && r.0.span == v.span
            && 0 < r.1.retryAfter == r.0.requests[0] + v.span - now
  {
    PruneFacts(v.requests, now - v.span);
  }

  /** A full limiter whose oldest request has left the window admits. */
  lemma {:induction false} RoomAgain(w: Window, t: int)
    requires 1 <= w.limit == |w.requests| && w.requests[0] + w.span <= t
    ensures DoAllow(w, t).1.allowed
  {
    PruneFacts(w.requests, t - w.span);
  }

  /**
   After a rejection at `now` with `RetryAfter` `d`, on any reachable limiter with a positive limit: `d` is
   positive, every call before `now + d` is rejected, and the first `Allow` at or after `now + d` is
   admitted.
   */
  lemma RetryAfterIsTight(limit: int, span: int, before: seq<Call>, now: int, between: seq<Call>, t: int)
    requires 1 <= limit
    requires var r := DoAllow(After(Window(limit, span, []), before), now);
             && !r.1.allowed && now + r.1.retryAfter <= t
             && (forall i :: 0 <= i < |between| ==> between[i].at < now + r.1.retryAfter)
    ensures var r := DoAllow(After(Window(limit, span, []), before), now);
            && 0 < r.1.retryAfter
            && (forall i :: 0 <= i < |Decisions(r.0, between)| ==> !Decisions(r.0, between)[i])
            && DoAllow(After(r.0, between), t).1.allowed
  {
    var v := After(Window(limit, span, []), before);
    ReachableWithinLimit(Window(limit, span, []), before);
    RejectedIsFull(v, now);
    FullStaysFull(DoAllow(v, now).0, between);
    RoomAgain(DoAllow(v, now).0, t);
  }

  /** In every run a decision carries the limit, and a delay exactly when it rejects and there is one to give. */
  lemma RetryAfterIff(limit: int, span: int, calls: seq<Call>, now: int)
    ensures var d := DoAllow(After(Window(limit, span, []), calls), now).1;
            d.limit == limit && 0 <= d.retryAfter && (d.retryAfter == 0 <==> d.allowed || limit <= 0)
  {
    ReachableWithinLimit(Window(limit, span, []), calls);
    var w := After(Window(limit, span, []), calls);
    if 1 <= limit && !DoAllow(w, now).1.allowed { RejectedIsFull(w, now); }
  }

  /** Without a positive limit there is nothing to wait for: every call is rejected with no delay given. */
  lemma {:induction false} NonPositiveLimitRejects(limit: int, span: int, calls: seq<Call>, now: int)
    requires limit <= 0
    ensures var d := DoAllow(After(Window(limit, span, []), calls), now).1; !d.allowed && d.retryAfter == 0
  {
    ReachableWithinLimit(Window(limit, span, []), calls);
  }

  // ---------- the object ----------

  class Limiter {
    var limit: int
    var window: int
    var requests: seq<int>

    ghost function State(): Window
      reads this
    {
      Window(limit, window, requests)
    }

    constructor (limit: int, window: int)
      ensures State() == Window(limit, window, [])
    {
      this.limit, this.window, requests := limit, window, [];
    }

    /** The scan for the first request inside the window. */
    method PruneOldRequests(now: int)
      modifies this
      ensures State() == Pruned(old(State()), now)
    {
      var windowStart := now - window;
      var firstValid, i := 0, 0;
      while i < |requests|
        invariant 0 <= i <= |requests| && firstValid == i
        invariant requests == old(requests)
        invariant Prune(requests[i..], windowStart) == Prune(requests, windowStart)
      {
        if requests[i] > windowStart {
          firstValid := i;
          break;
        }
        firstValid := i + 1;
        assert requests[i..][1..] == requests[i + 1..];
        i := i + 1;
      }
      if firstValid > 0 {
        requests := requests[firstValid..];
      }
    }

    method Allow(now: int) returns (decision: Decision)
      modifies this
      ensures (State(), decision) == DoAllow(old(State()), now)
    {
      PruneOldRequests(now);
      decision := Decision(false, limit, limit - |requests|, CalculateResetTime(now), 0);
      if |requests| < limit {
        requests := requests + [now];
        decision := decision.(allowed := true, remaining := limit - |requests|);
      } else {
        decision := decision.(retryAfter := CalculateRetryAfter(now));
      }
    }

    method GetHeaders(now: int) returns (headers: (int, int, int))
      modifies this
      ensures State() == Pruned(old(State()), now)
      ensures headers == (limit, limit - |requests|, ResetTime(State(), now))
    {
      PruneOldRequests(now);
      headers := (limit, limit - |requests|, CalculateResetTime(now));
    }

    function CalculateResetTime(now: int): (r: int)
      reads this
      ensures r == ResetTime(State(), now)
    {
      if |requests| == 0 then now else requests[0] + window
    }

    function CalculateRetryAfter(now: int): (r: int)
      reads this
      ensures r == RetryAfter(State(), now)
    {
      if |requests| == 0 then 0 else
        var oldestExpiry := requests[0] + window;
        if oldestExpiry > now then oldestExpiry - now else 0
    }
  }
}
