/**
 Value model of `LRUCache` (libs/go/src/collections/lru.go): the recency list with the most recently
 used entry first, the statistics, and the calls made to the eviction callback.  Time is an argument of
 every operation that reads the clock.
 */
module LruModel {
  import opened Options

  datatype Entry<K, V> = Entry(key: K, value: V, expiresAt: Option<int>)

  datatype Stats = Stats(hits: nat, misses: nat, evictions: nat, expirations: nat, size: nat, capacity: int)

  datatype Cache<K, V> = Cache(capacity: int, order: seq<Entry<K, V>>, stats: Stats, evicted: seq<(K, V)>)

  datatype Op<K, V> =
    | Put(key: K, value: V, ttl: int, now: int)
    | Get(key: K, now: int)
    | Remove(key: K)
    | Cleanup(now: int)
    | Clear
    | Resize(capacity: int)

  datatype Reply<V> = Done | Found(value: Option<V>) | Removed(ok: bool) | Count(n: nat)

  // ---------- entries and lists of entries ----------

  predicate Expired<K, V>(e: Entry<K, V>, now: int) {
    e.expiresAt.Some? && now > e.expiresAt.value
  }

  function Deadline(ttl: int, now: int): Option<int> {
    if ttl > 0 then Some(now + ttl) else None
  }

  /** The selection that keeps every key but `k`. */
  function OtherThan<K(==), V>(k: K): Entry<K, V> -> bool {
    (e: Entry<K, V>) => e.key != k
  }

  /** The selection that keeps what has not expired at `now`. */
  function AliveAt<K, V>(now: int): Entry<K, V> -> bool {
    (e: Entry<K, V>) => !Expired(e, now)
  }

  function Keep<K, V>(s: seq<Entry<K, V>>, p: Entry<K, V> -> bool): seq<Entry<K, V>> {
    if s == [] then [] else if p(s[0]) then [s[0]] + Keep(s[1..], p) else Keep(s[1..], p)
  }

  /** What `Keep` drops, in the order of a scan from the back, as the callback sees it. */
  function Dropped<K, V>(s: seq<Entry<K, V>>, p: Entry<K, V> -> bool): seq<(K, V)> {
    if s == [] then []
    else if p(s[0]) then Dropped(s[1..], p)
    else Dropped(s[1..], p) + [(s[0].key, s[0].value)]
  }

  function Find<K(==), V>(s: seq<Entry<K, V>>, k: K): Option<Entry<K, V>> {
    if s == [] then None else if s[0].key == k then Some(s[0]) else Find(s[1..], k)
  }

  ghost predicate Unique<K, V>(s: seq<Entry<K, V>>) {
    forall i, j :: 0 <= i < j < |s| ==> s[i].key != s[j].key
  }

  // ---------- operations ----------

  function New<K, V>(capacity: int): Cache<K, V> {
    var c := if capacity <= 0 then 1 else capacity;
    Cache(c, [], Stats(0, 0, 0, 0, 0, c), [])
  }

  ghost predicate Valid<K, V>(c: Cache<K, V>) {
    && 1 <= c.capacity
    && |c.order| <= c.capacity
    && Unique(c.order)
    && c.stats.size == |c.order|
    && c.stats.capacity == c.capacity
  }

  /** `removeElement`: unlink the entry of key `k` and report it to the callback. */
  function RemoveKey<K(==), V>(c: Cache<K, V>, e: Entry<K, V>): Cache<K, V> {
    var order := Keep(c.order, OtherThan(e.key));
    c.(order := order, stats := c.stats.(size := |order|), evicted := c.evicted + [(e.key, e.value)])
  }

  /** `evictOldest`: drop the back of the list, if there is one. */
  function EvictOldest<K, V>(c: Cache<K, V>): Cache<K, V> {
    if c.order == [] then c else
      var e := c.order[|c.order| - 1];
      c.(order := c.order[..|c.order| - 1],
         stats := c.stats.(size := |c.order| - 1, evictions := c.stats.evictions + 1),
         evicted := c.evicted + [(e.key, e.value)])
  }

  function EvictDownTo<K, V>(c: Cache<K, V>, n: nat): Cache<K, V>
    decreases |c.order|
  {
    if |c.order| <= n then c else EvictDownTo(EvictOldest(c), n)
  }

  function DoPut<K(==), V>(c: Cache<K, V>, key: K, value: V, ttl: int, now: int): Cache<K, V> {
    var e := Entry(key, value, Deadline(ttl, now));
    if Find(c.order, key).Some? then
      c.(order := [e] + Keep(c.order, OtherThan(key)))
    else
      var d := if |c.order| >= c.capacity then EvictOldest(c) else c;
      d.(order := [e] + d.order, stats := d.stats.(size := |d.order| + 1))
  }

  function DoGet<K(==), V>(c: Cache<K, V>, key: K, now: int): (Cache<K, V>, Option<V>) {
    match Find(c.order, key)
    case None => (c.(stats := c.stats.(misses := c.stats.misses + 1)), None)
    case Some(e) =>
      if Expired(e, now) then
        var d := RemoveKey(c, e);
        (d.(stats := d.stats.(expirations := d.stats.expirations + 1, misses := d.stats.misses + 1)), None)
      else
        (c.(order := [e] + Keep(c.order, OtherThan(key)), stats := c.stats.(hits := c.stats.hits + 1)),
         Some(e.value))
  }

  function DoRemove<K(==), V>(c: Cache<K, V>, key: K): (Cache<K, V>, bool) {
    match Find(c.order, key)
    case None => (c, false)
    case Some(e) => (RemoveKey(c, e), true)
  }

  function DoCleanup<K, V>(c: Cache<K, V>, now: int): Cache<K, V> {
    var order := Keep(c.order, AliveAt(now));
    var dropped := Dropped(c.order, AliveAt(now));
    c.(order := order, evicted := c.evicted + dropped,
       stats := c.stats.(size := |order|, expirations := c.stats.expirations + |dropped|))
  }

  function DoClear<K, V>(c: Cache<K, V>): Cache<K, V> {
    c.(order := [], stats := c.stats.(size := 0))
  }

  function DoResize<K, V>(c: Cache<K, V>, capacity: int): Cache<K, V> {
    var n := if capacity <= 0 then 1 else capacity;
    EvictDownTo(c.(capacity := n, stats := c.stats.(capacity := n)), n)
  }

  function Step<K(==), V>(c: Cache<K, V>, op: Op<K, V>): (Cache<K, V>, Reply<V>) {
    match op
    case Put(key, value, ttl, now) => (DoPut(c, key, value, ttl, now), Done)
    case Get(key, now) => var r := DoGet(c, key, now); (r.0, Found(r.1))
    case Remove(key) => var r := DoRemove(c, key); (r.0, Removed(r.1))
    case Cleanup(now) => (DoCleanup(c, now), Count(|Dropped(c.order, AliveAt(now))|))
    case Clear => (DoClear(c), Done)
    case Resize(capacity) => (DoResize(c, capacity), Done)
  }

  function Run<K(==), V>(c: Cache<K, V>, ops: seq<Op<K, V>>): Cache<K, V>
    decreases |ops|
  {
    if ops == [] then c else Run(Step(c, ops[0]).0, ops[1..])
  }

  function Replies<K(==), V>(c: Cache<K, V>, ops: seq<Op<K, V>>): (r: seq<Reply<V>>)
    ensures |r| == |ops|
    decreases |ops|
  {
    if ops == [] then [] else [Step(c, ops[0]).1] + Replies(Step(c, ops[0]).0, ops[1..])
  }

  // ---------- facts about lists of entries ----------

  lemma {:induction false} KeepMembers<K, V>(s: seq<Entry<K, V>>, p: Entry<K, V> -> bool, e: Entry<K, V>)
    ensures e in Keep(s, p) <==> e in s && p(e)
  {
    if s != [] {
      KeepMembers(s[1..], p, e);
      assert s == [s[0]] + s[1..];
    }
  }

  lemma {:induction false} KeepUnique<K, V>(s: seq<Entry<K, V>>, p: Entry<K, V> -> bool)
    requires Unique(s)
    ensures Unique(Keep(s, p)) && |Keep(s, p)| + |Dropped(s, p)| == |s|
  {
    if s != [] {
      KeepUnique(s[1..], p);
      forall e | e in Keep(s[1..], p) ensures e.key != s[0].key { KeepMembers(s[1..], p, e); }
    }
  }

  lemma {:induction false} FindMembers<K, V>(s: seq<Entry<K, V>>, k: K)
    ensures Find(s, k).Some? ==> Find(s, k).value in s && Find(s, k).value.key == k
    ensures Find(s, k).None? ==> forall e :: e in s ==> e.key != k
  {
    if s != [] {
      FindMembers(s[1..], k);
      assert s == [s[0]] + s[1..];
    }
  }

  /** Searching finds the one entry of a key. */
  lemma SameKey<K, V>(s: seq<Entry<K, V>>, e: Entry<K, V>)
    requires Unique(s) && e in s
    ensures Find(s, e.key) == Some(e)
  {
    FindMembers(s, e.key);
  }

  lemma {:induction false} KeepAll<K, V>(s: seq<Entry<K, V>>, p: Entry<K, V> -> bool)
    requires forall e :: e in s ==> p(e)
    ensures Keep(s, p) == s && Dropped(s, p) == []
  {
    if s != [] { KeepAll(s[1..], p); }
  }

  /** Removing the key of a listed entry shortens the list by exactly one. */
  lemma {:induction false} KeepOthers<K, V>(s: seq<Entry<K, V>>, k: K)
    requires Unique(s)
    ensures |Keep(s, OtherThan(k))| == |s| - (if Find(s, k).Some? then 1 else 0)
    ensures Find(s, k).Some? ==> Dropped(s, OtherThan(k)) == [(k, Find(s, k).value.value)]
    ensures Unique(Keep(s, OtherThan(k)))
    ensures forall e :: e in Keep(s, OtherThan(k)) ==> e.key != k
  {
    KeepUnique(s, OtherThan(k));
    if s != [] {
      KeepOthers(s[1..], k);
      if s[0].key == k {
        KeepAll(s[1..], OtherThan(k));
        FindMembers(s[1..], k);
      }
    }
    forall e | e in Keep(s, OtherThan(k)) ensures e.key != k { KeepMembers(s, OtherThan(k), e); }
  }

  // ---------- validity is kept by every operation ----------

  lemma {:induction false} EvictDownToKeeps<K, V>(c: Cache<K, V>, n: nat)
    requires Unique(c.order) && c.stats.size == |c.order| && c.stats.capacity == c.capacity
    ensures var d := EvictDownTo(c, n);
            && d.order == (if |c.order| <= n then c.order else c.order[..n])
            && d.stats.size == |d.order|
            && d.stats == c.stats.(size := |d.order|, evictions := c.stats.evictions + |c.order| - |d.order|)
            && d.capacity == c.capacity
    decreases |c.order|
  {
    if |c.order| > n { EvictDownToKeeps(EvictOldest(c), n); }
  }

  /** The keys and values of a list, from the back. */
  function FromBack<K, V>(s: seq<Entry<K, V>>): seq<(K, V)> {
    if s == [] then [] else
      var e := s[|s| - 1];
      [(e.key, e.value)] + FromBack(s[..|s| - 1])
  }

  lemma {:induction false} EvictDownToReports<K, V>(c: Cache<K, V>, n: nat)
    requires n <= |c.order|
    ensures EvictDownTo(c, n).evicted == c.evicted + FromBack(c.order[n..])
    decreases |c.order|
  {
    if |c.order| > n {
      EvictDownToReports(EvictOldest(c), n);
      assert c.order[n..][..|c.order| - n - 1] == EvictOldest(c).order[n..];
    }
  }

  /** `Resize` sets the capacity, at least one, keeps the most recent entries that fit, and reports and counts
      the others from the back. */
  lemma ResizeExact<K, V>(c: Cache<K, V>, capacity: int)
    requires Valid(c)
    ensures var n := if capacity <= 0 then 1 else capacity; var d := DoResize(c, capacity);
            && d.capacity == n == d.stats.capacity
            && (if |c.order| <= n then d.order == c.order && d.evicted == c.evicted
                else d.order == c.order[..n] && d.evicted == c.evicted + FromBack(c.order[n..]))
            && d.stats.evictions - c.stats.evictions == |c.order| - |d.order|
            && d.stats.hits == c.stats.hits && d.stats.misses == c.stats.misses
            && d.stats.expirations == c.stats.expirations
  {
    var n := if capacity <= 0 then 1 else capacity;
    var b := c.(capacity := n, stats := c.stats.(capacity := n));
    EvictDownToKeeps(b, n);
    if n <= |c.order| { EvictDownToReports(b, n); }
  }

  lemma PushUnique<K, V>(e: Entry<K, V>, s: seq<Entry<K, V>>)
    requires Unique(s) && forall x :: x in s ==> x.key != e.key
    ensures Unique([e] + s)
  {
    forall i, j | 0 <= i < j < |s| + 1 ensures ([e] + s)[i].key != ([e] + s)[j].key {
      if i == 0 { assert s[j - 1] in s; }
    }
  }

  lemma PutKeepsValid<K, V>(c: Cache<K, V>, key: K, value: V, ttl: int, now: int)
    requires Valid(c)
    ensures Valid(DoPut(c, key, value, ttl, now))
  {
    var e := Entry(key, value, Deadline(ttl, now));
    if Find(c.order, key).Some? {
      KeepOthers(c.order, key);
      PushUnique(e, Keep(c.order, OtherThan(key)));
    } else {
      FindMembers(c.order, key);
      PushUnique(e, if |c.order| >= c.capacity then c.order[..|c.order| - 1] else c.order);
    }
  }

  lemma GetKeepsValid<K, V>(c: Cache<K, V>, key: K, now: int)
    requires Valid(c)
    ensures Valid(DoGet(c, key, now).0)
  {
    if Find(c.order, key).Some? {
      var e := Find(c.order, key).value;
      FindMembers(c.order, key);
      KeepOthers(c.order, key);
      PushUnique(e, Keep(c.order, OtherThan(key)));
    }
  }

  lemma StepKeepsValid<K, V>(c: Cache<K, V>, op: Op<K, V>)
    requires Valid(c)
    ensures Valid(Step(c, op).0)
  {
    match op
    case Put(key, value, ttl, now) => PutKeepsValid(c, key, value, ttl, now);
    case Get(key, now) => GetKeepsValid(c, key, now);
    case Remove(key) => KeepOthers(c.order, key); FindMembers(c.order, key);
    case Cleanup(now) => KeepUnique(c.order, AliveAt(now));
    case Clear =>
    case Resize(capacity) =>
      var n := if capacity <= 0 then 1 else capacity;
      EvictDownToKeeps(c.(capacity := n, stats := c.stats.(capacity := n)), n);
  }

  /** In every run the list holds distinct keys, never exceeds the capacity, and `Size` counts it. */
  lemma {:induction false} RunKeepsValid<K, V>(c: Cache<K, V>, ops: seq<Op<K, V>>)
    requires Valid(c)
    ensures Valid(Run(c, ops))
    decreases |ops|
  {
    if ops != [] {
      StepKeepsValid(c, ops[0]);
      RunKeepsValid(Step(c, ops[0]).0, ops[1..]);
    }
  }

  /** The capacity last asked for. */
  function Asked<K, V>(capacity: int, ops: seq<Op<K, V>>): int {
    if ops == [] then capacity
    else if ops[|ops| - 1].Resize? then ops[|ops| - 1].capacity else Asked(capacity, ops[..|ops| - 1])
  }

  lemma {:induction false} RunSnoc<K, V>(c: Cache<K, V>, ops: seq<Op<K, V>>, op: Op<K, V>)
    ensures Run(c, ops + [op]) == Step(Run(c, ops), op).0
    decreases |ops|
  {
    if ops == [] {
      assert ops + [op] == [op] && [op][1..] == [];
    } else {
      RunSnoc(Step(c, ops[0]).0, ops[1..], op);
      assert (ops + [op])[1..] == ops[1..] + [op];
    }
  }

  /** In every run the list fits the capacity last asked for, counted as one when that is not positive. */
  lemma {:induction false} RunKeepsCapacity<K, V>(capacity: int, ops: seq<Op<K, V>>)
    ensures var n := Asked(capacity, ops); var c := Run<K, V>(New(capacity), ops);
            c.capacity == (if n <= 0 then 1 else n) && |c.order| <= c.capacity
  {
    RunKeepsValid<K, V>(New(capacity), ops);
    if ops != [] {
      var past, last := ops[..|ops| - 1], ops[|ops| - 1];
      RunKeepsCapacity<K, V>(capacity, past);
      RunKeepsValid<K, V>(New(capacity), past);
      RunSnoc<K, V>(New(capacity), past, last);
      assert past + [last] == ops;
      if last.Resize? { ResizeExact(Run(New(capacity), past), last.capacity); }
    }
  }
}
