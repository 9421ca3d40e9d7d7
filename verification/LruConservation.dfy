/**
 Conservation of entries in `LRUCache`: every inserted key is still listed, was reported to the eviction
 callback exactly once, or was dropped by `Clear`.
 */
module LruConservation {
  import opened LruModel
  import opened LruInclusion

  /** How many listed entries have a key of interest. */
  function Listed<K, V>(s: seq<Entry<K, V>>, q: K -> bool): nat {
    if s == [] then 0 else (if q(s[0].key) then 1 else 0) + Listed(s[1..], q)
  }

  /** How many callback calls were about a key of interest. */
  function Reported<K, V>(log: seq<(K, V)>, q: K -> bool): nat {
    if log == [] then 0 else (if q(log[0].0) then 1 else 0) + Reported(log[1..], q)
  }

  /** What a trace asked for and was told: new keys put in and keys dropped by `Clear` (those of interest), and
      all successful removals, lookups, lookups that found something, and entries found expired. */
  datatype Ledger = Ledger(inserted: nat, cleared: nat, removals: nat, gets: nat, found: nat, expired: nat)

  const NOTHING := Ledger(0, 0, 0, 0, 0, 0)

  function Booked<K(==), V>(c: Cache<K, V>, op: Op<K, V>, q: K -> bool): Ledger {
    match op
    case Put(k, _, _, _) => NOTHING.(inserted := if Find(c.order, k).None? && q(k) then 1 else 0)
    case Get(k, now) =>
      NOTHING.(gets := 1, found := if DoGet(c, k, now).1.Some? then 1 else 0,
               expired := if Find(c.order, k).Some? && Expired(Find(c.order, k).value, now) then 1 else 0)
    case Remove(k) => NOTHING.(removals := if DoRemove(c, k).1 then 1 else 0)
    case Cleanup(now) => NOTHING.(expired := |c.order| - |Live(c.order, now)|)
    case Clear => NOTHING.(cleared := Listed(c.order, q))
    case Resize(_) => NOTHING
  }

  /** The entries not expired at `now`. */
  function Live<K, V>(s: seq<Entry<K, V>>, now: int): (r: seq<Entry<K, V>>)
    ensures |r| <= |s|
  {
    KeepLength(s, AliveAt(now));
    Keep(s, AliveAt(now))
  }

  function Plus(a: Ledger, b: Ledger): Ledger {
    Ledger(a.inserted + b.inserted, a.cleared + b.cleared, a.removals + b.removals, a.gets + b.gets,
           a.found + b.found, a.expired + b.expired)
  }

  function Totals<K(==), V>(c: Cache<K, V>, ops: seq<Op<K, V>>, q: K -> bool): Ledger
    decreases |ops|
  {
    if ops == [] then NOTHING else Plus(Booked(c, ops[0], q), Totals(Step(c, ops[0]).0, ops[1..], q))
  }

  /** The balance between two states of one cache and what was booked in between. */
  ghost predicate Balanced<K, V>(c: Cache<K, V>, d: Cache<K, V>, l: Ledger, q: K -> bool) {
    && Listed(c.order, q) + Reported(c.evicted, q) + l.inserted
       == Listed(d.order, q) + Reported(d.evicted, q) + l.cleared
    && c.evicted <= d.evicted
    && |d.evicted| - |c.evicted| == d.stats.evictions - c.stats.evictions
                                    + d.stats.expirations - c.stats.expirations + l.removals
    && d.stats.hits == c.stats.hits + l.found
    && d.stats.hits + d.stats.misses == c.stats.hits + c.stats.misses + l.gets
    && d.stats.expirations == c.stats.expirations + l.expired
  }

  // ---------- counting ----------

  lemma {:induction false} ReportedConcat<K, V>(a: seq<(K, V)>, b: seq<(K, V)>, q: K -> bool)
    ensures Reported(a + b, q) == Reported(a, q) + Reported(b, q)
  {
    if a == [] {
      assert a + b == b;
    } else {
      ReportedConcat(a[1..], b, q);
      assert (a + b)[1..] == a[1..] + b;
    }
  }

  lemma {:induction false} ListedLast<K, V>(s: seq<Entry<K, V>>, q: K -> bool)
    requires s != []
    ensures Listed(s, q) == Listed(s[..|s| - 1], q) + (if q(s[|s| - 1].key) then 1 else 0)
  {
    if |s| > 1 {
      ListedLast(s[1..], q);
      assert s[1..][..|s| - 2] == s[..|s| - 1][1..];
    }
  }

  lemma ListedPush<K, V>(e: Entry<K, V>, s: seq<Entry<K, V>>, q: K -> bool)
    ensures Listed([e] + s, q) == (if q(e.key) then 1 else 0) + Listed(s, q)
  {
    assert ([e] + s)[1..] == s;
  }

  lemma {:induction false} KeepSplits<K, V>(s: seq<Entry<K, V>>, p: Entry<K, V> -> bool, q: K -> bool)
    ensures Listed(s, q) == Listed(Keep(s, p), q) + Reported(Dropped(s, p), q)
  {
    if s != [] {
      KeepSplits(s[1..], p, q);
      if p(s[0]) {
        ListedPush(s[0], Keep(s[1..], p), q);
      } else {
        ReportedConcat(Dropped(s[1..], p), [(s[0].key, s[0].value)], q);
      }
    }
  }

  // ---------- one operation ----------

  lemma EvictOldestBalanced<K, V>(c: Cache<K, V>, q: K -> bool)
    ensures Balanced(c, EvictOldest(c), NOTHING, q)
  {
    if c.order != [] {
      var e := c.order[|c.order| - 1];
      ListedLast(c.order, q);
      ReportedConcat(c.evicted, [(e.key, e.value)], q);
    }
  }

  lemma {:induction false} EvictDownToBalanced<K, V>(c: Cache<K, V>, n: nat, q: K -> bool)
    ensures Balanced(c, EvictDownTo(c, n), NOTHING, q)
    decreases |c.order|
  {
    if |c.order| > n {
      EvictOldestBalanced(c, q);
      EvictDownToBalanced(EvictOldest(c), n, q);
    }
  }

  lemma RemoveKeyBalanced<K, V>(c: Cache<K, V>, k: K, q: K -> bool)
    requires Unique(c.order) && Find(c.order, k).Some?
    ensures var e := Find(c.order, k).value; var d := RemoveKey(c, e);
            && e.key == k && d.stats == c.stats.(size := |d.order|) && c.evicted + [(k, e.value)] == d.evicted
            && Listed(c.order, q) + Reported(c.evicted, q) == Listed(d.order, q) + Reported(d.evicted, q)
  {
    var e := Find(c.order, k).value;
    FindMembers(c.order, k);
    KeepSplits(c.order, OtherThan(k), q);
    KeepOthers(c.order, k);
    ReportedConcat(c.evicted, [(k, e.value)], q);
  }

  lemma PutBalanced<K, V>(c: Cache<K, V>, op: Op<K, V>, q: K -> bool)
    requires Valid(c) && op.Put?
    ensures Balanced(c, Step(c, op).0, Booked(c, op, q), q)
  {
    var e := Entry(op.key, op.value, Deadline(op.ttl, op.now));
    if Find(c.order, op.key).Some? {
      MoveBalanced(c.order, op.key, e, q);
    } else {
      EvictOldestBalanced(c, q);
      ListedPush(e, if |c.order| >= c.capacity then EvictOldest(c).order else c.order, q);
    }
  }

  lemma GetBalanced<K, V>(c: Cache<K, V>, op: Op<K, V>, q: K -> bool)
    requires Valid(c) && op.Get?
    ensures Balanced(c, Step(c, op).0, Booked(c, op, q), q)
  {
    if Find(c.order, op.key).Some? {
      RemoveKeyBalanced(c, op.key, q);
      MoveBalanced(c.order, op.key, Find(c.order, op.key).value, q);
    }
  }

  lemma StepBalanced<K, V>(c: Cache<K, V>, op: Op<K, V>, q: K -> bool)
    requires Valid(c)
    ensures Balanced(c, Step(c, op).0, Booked(c, op, q), q)
  {
    match op
    case Put(_, _, _, _) => PutBalanced(c, op, q);
    case Get(_, _) => GetBalanced(c, op, q);
    case Remove(k) =>
      if Find(c.order, k).Some? { RemoveKeyBalanced(c, k, q); }
    case Cleanup(now) =>
      KeepUnique(c.order, AliveAt(now));
      KeepSplits(c.order, AliveAt(now), q);
      ReportedConcat(c.evicted, Dropped(c.order, AliveAt(now)), q);
    case Clear =>
    case Resize(capacity) =>
      var n := if capacity <= 0 then 1 else capacity;
      EvictDownToBalanced(c.(capacity := n, stats := c.stats.(capacity := n)), n, q);
  }

  /** Moving or overwriting an entry changes no bag. */
  lemma MoveBalanced<K, V>(s: seq<Entry<K, V>>, k: K, e: Entry<K, V>, q: K -> bool)
    requires Unique(s) && Find(s, k).Some? && e.key == k
    ensures Listed([e] + Keep(s, OtherThan(k)), q) == Listed(s, q)
  {
    KeepSplits(s, OtherThan(k), q);
    KeepOthers(s, k);
    ListedPush(e, Keep(s, OtherThan(k)), q);
  }

  // ---------- whole runs ----------

  lemma {:induction false} RunBalanced<K, V>(c: Cache<K, V>, ops: seq<Op<K, V>>, q: K -> bool)
    requires Valid(c)
    ensures Balanced(c, Run(c, ops), Totals(c, ops, q), q)
    decreases |ops|
  {
    if ops != [] {
      var d := Step(c, ops[0]).0;
      StepBalanced(c, ops[0], q);
      StepKeepsValid(c, ops[0]);
      RunBalanced(d, ops[1..], q);
    }
  }

  lemma {:induction false} CountAll<K, V>(s: seq<Entry<K, V>>, log: seq<(K, V)>, q: K -> bool)
    requires forall k :: q(k)
    ensures Listed(s, q) == |s| && Reported(log, q) == |log|
    decreases |s| + |log|
  {
    if s != [] { CountAll(s[1..], log, q); } else if log != [] { CountAll(s, log[1..], q); }
  }

  /**
   In every run from a new cache, over all operations including `Resize`, and for any choice `q` of keys
   (one key, or all of them): the number of new-key insertions is the number listed now, plus the number
   reported to the callback, plus the number dropped by `Clear`; callbacks are exactly the evictions,
   expirations and successful removals; `Hits` counts the lookups that found something, `Hits + Misses` all of
   them, `Expirations` the entries found expired; and `Size` is the list's length.
   */
  lemma Conservation<K, V>(capacity: int, ops: seq<Op<K, V>>, q: K -> bool)
    ensures var d := Run(New(capacity), ops); var t := Totals<K, V>(New(capacity), ops, q);
            && t.inserted == Listed(d.order, q) + Reported(d.evicted, q) + t.cleared
            && |d.evicted| == d.stats.evictions + d.stats.expirations + t.removals
            && d.stats.hits == t.found && d.stats.hits + d.stats.misses == t.gets
            && d.stats.expirations == t.expired
            && d.stats.size == |d.order|
  {
    RunBalanced<K, V>(New(capacity), ops, q);
    RunKeepsValid<K, V>(New(capacity), ops);
  }

  /** The same balance in the counters of `Stats`, over all keys together. */
  lemma StatsBalance<K, V>(capacity: int, ops: seq<Op<K, V>>)
    ensures var d := Run(New(capacity), ops); var t := Totals<K, V>(New(capacity), ops, _ => true);
            t.inserted == d.stats.size + d.stats.evictions + d.stats.expirations + t.removals + t.cleared
  {
    var all: K -> bool := _ => true;
    var d := Run<K, V>(New(capacity), ops);
    Conservation<K, V>(capacity, ops, all);
    CountAll(d.order, d.evicted, all);
  }

  // ---------- what the callback is told ----------

  /** A pair that is listed: this key, with this value. */
  ghost predicate ListedPair<K, V>(s: seq<Entry<K, V>>, x: (K, V)) {
    Find(s, x.0).Some? && Find(s, x.0).value.value == x.1
  }

  lemma {:induction false} DroppedEntry<K, V>(s: seq<Entry<K, V>>, p: Entry<K, V> -> bool, i: nat)
    returns (e: Entry<K, V>)
    requires i < |Dropped(s, p)|
    ensures e in s && Dropped(s, p)[i] == (e.key, e.value)
  {
    if i < |Dropped(s[1..], p)| { e := DroppedEntry(s[1..], p, i); } else { e := s[0]; }
  }

  lemma {:induction false} EvictedEntry<K, V>(c: Cache<K, V>, n: nat, i: nat) returns (e: Entry<K, V>)
    requires |c.evicted| <= i < |EvictDownTo(c, n).evicted|
    ensures e in c.order && EvictDownTo(c, n).evicted[i] == (e.key, e.value)
    decreases |c.order|
  {
    e := c.order[|c.order| - 1];
    if i > |c.evicted| {
      e := EvictedEntry(EvictOldest(c), n, i);
    } else {
      EvictDownToBalanced(EvictOldest(c), n, _ => true);
    }
  }

  /** Every callback call of an operation reports a key that was listed just before, with its value. */
  lemma CallbackSeesListed<K, V>(c: Cache<K, V>, op: Op<K, V>, i: nat)
    requires Valid(c) && |c.evicted| <= i < |Step(c, op).0.evicted|
    ensures ListedPair(c.order, Step(c, op).0.evicted[i])
  {
    match op
    case Put(_, _, _, _) => SameKey(c.order, c.order[|c.order| - 1]);
    case Get(k, _) => FindMembers(c.order, k);
    case Remove(k) => FindMembers(c.order, k);
    case Cleanup(now) => var e := DroppedEntry(c.order, AliveAt(now), i - |c.evicted|); SameKey(c.order, e);
    case Clear =>
    case Resize(capacity) =>
      var n := if capacity <= 0 then 1 else capacity;
      var e := EvictedEntry(c.(capacity := n, stats := c.stats.(capacity := n)), n, i);
      SameKey(c.order, e);
  }

  /** `Cleanup` removes the expired entries and no others, keeps the order of the rest, and counts them. */
  lemma CleanupExact<K, V>(c: Cache<K, V>, now: int)
    requires Valid(c)
    ensures var d := Step(c, Cleanup(now));
            && (forall e :: e in d.0.order <==> e in c.order && !Expired(e, now))
            && Sub(d.0.order, c.order)
            && d.1.Count? && d.1.n + |d.0.order| == |c.order|
  {
    var p := AliveAt<K, V>(now);
    var s := Keep(c.order, p);
    KeepUnique(c.order, p);
    forall e ensures e in s <==> e in c.order && !Expired(e, now) { KeepMembers(c.order, p, e); }
    KeepIsSub(c.order, p);
  }

  lemma {:induction false} KeepIsSub<K, V>(s: seq<Entry<K, V>>, p: Entry<K, V> -> bool)
    ensures Sub(Keep(s, p), s)
  {
    if s != [] {
      KeepIsSub(s[1..], p);
      assert s == [s[0]] + s[1..];
      if p(s[0]) {
        SubPush(Keep(s[1..], p), s[1..], s[0]);
      } else {
        SubWiden(Keep(s, p), s[1..], s[0]);
      }
    }
  }
}
