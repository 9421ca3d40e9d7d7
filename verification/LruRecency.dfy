/**
 As long as no lookup finds an expired entry, `LRUCache` refines a cache that keeps the whole touch history: its list
 is always the first `capacity` distinct keys of the reversed history, and a lookup hits exactly by reuse distance.
 */
module LruRecency {
  import opened Options
  import opened LruModel

  /** Entries touched (put, or found by a lookup), latest first, with the value they then had. */
  type History<K, V> = seq<Entry<K, V>>

  /** The distinct keys of a history, by latest touch. */
  function Distinct<K(==), V>(h: History<K, V>): seq<Entry<K, V>> {
    if h == [] then [] else [h[0]] + Keep(Distinct(h[1..]), OtherThan(h[0].key))
  }

  function Take<T>(s: seq<T>, n: nat): seq<T> {
    if n == 0 || s == [] then [] else [s[0]] + Take(s[1..], n - 1)
  }

  function Recent<K(==), V>(h: History<K, V>, capacity: nat): seq<Entry<K, V>> {
    Take(Distinct(h), capacity)
  }

  /** Puts, lookups and `Clear`. */
  predicate Plain<K, V>(op: Op<K, V>) {
    op.Put? || op.Get? || op.Clear?
  }

  /** The reference cache: it forgets nothing and answers by looking at the history. */
  function RefStep<K(==), V>(h: History<K, V>, capacity: nat, op: Op<K, V>): (History<K, V>, Reply<V>)
    requires Plain(op)
  {
    match op
    case Put(k, v, ttl, now) => ([Entry(k, v, if ttl > 0 then Some(now + ttl) else None)] + h, Done)
    case Get(k, _) =>
      (match Find(Recent(h, capacity), k)
       case Some(e) => ([e] + h, Found(Some(e.value)))
       case None => (h, Found(None)))
    case Clear => ([], Done)
  }

  /** A lookup does not come after the deadline of the entry it finds. */
  predicate InTime<K(==), V>(h: History<K, V>, capacity: nat, op: Op<K, V>) {
    op.Get? ==> var e := Find(Recent(h, capacity), op.key); e.Some? ==> Alive(e.value, op.now)
  }

  predicate Alive<K, V>(e: Entry<K, V>, now: int) {
    e.expiresAt.Some? ==> now <= e.expiresAt.value
  }

  ghost predicate AllPlain<K, V>(ops: seq<Op<K, V>>) {
    forall i :: 0 <= i < |ops| ==> Plain(ops[i])
  }

  ghost predicate AllInTime<K, V>(h: History<K, V>, capacity: nat, ops: seq<Op<K, V>>)
    requires AllPlain(ops)
    decreases |ops|
  {
    ops == [] || (InTime(h, capacity, ops[0]) && AllInTime(RefStep(h, capacity, ops[0]).0, capacity, ops[1..]))
  }

  ghost function RefRun<K, V>(h: History<K, V>, capacity: nat, ops: seq<Op<K, V>>): History<K, V>
    requires AllPlain(ops)
    decreases |ops|
  {
    if ops == [] then h else RefRun(RefStep(h, capacity, ops[0]).0, capacity, ops[1..])
  }

  ghost function RefReplies<K, V>(h: History<K, V>, capacity: nat, ops: seq<Op<K, V>>): seq<Reply<V>>
    requires AllPlain(ops)
    decreases |ops|
  {
    if ops == [] then [] else
      var r := RefStep(h, capacity, ops[0]);
      [r.1] + RefReplies(r.0, capacity, ops[1..])
  }

  /** The cache holds what the history predicts. */
  ghost predicate Refines<K, V>(c: Cache<K, V>, h: History<K, V>) {
    1 <= c.capacity && c.order == Recent(h, c.capacity)
  }

  // ---------- lists without repeated keys ----------

  lemma UniqueTail<K, V>(s: seq<Entry<K, V>>)
    requires Unique(s) && s != []
    ensures Unique(s[1..]) && Find(s[1..], s[0].key).None?
  {
    FindMembers(s[1..], s[0].key);
  }

  lemma {:induction false} FindKeep<K, V>(s: seq<Entry<K, V>>, k: K, j: K)
    ensures Find(Keep(s, OtherThan(k)), j) == if j == k then None else Find(s, j)
  {
    if s != [] {
      FindKeep(s[1..], k, j);
      assert Keep(s, OtherThan(k)) != [] && s[0].key != k ==> Keep(s, OtherThan(k))[1..] == Keep(s[1..], OtherThan(k));
    }
  }

  lemma PushUnfound<K, V>(e: Entry<K, V>, s: seq<Entry<K, V>>)
    requires Unique(s) && Find(s, e.key).None?
    ensures Unique([e] + s)
  {
    FindMembers(s, e.key);
    PushUnique(e, s);
  }

  lemma {:induction false} DistinctUnique<K, V>(h: History<K, V>)
    ensures Unique(Distinct(h))
  {
    if h != [] {
      var d, k := Distinct(h[1..]), h[0].key;
      DistinctUnique(h[1..]);
      KeepUnique(d, OtherThan(k));
      FindKeep(d, k, k);
      PushUnfound(h[0], Keep(d, OtherThan(k)));
    }
  }

  lemma {:induction false} KeepNone<K, V>(s: seq<Entry<K, V>>, k: K)
    requires Find(s, k).None?
    ensures Keep(s, OtherThan(k)) == s
  {
    if s != [] { KeepNone(s[1..], k); }
  }

  // ---------- taking a prefix ----------

  lemma {:induction false} TakeIsPrefix<T>(s: seq<T>, n: nat)
    ensures Take(s, n) == if |s| <= n then s else s[..n]
  {
    if n > 0 && s != [] { TakeIsPrefix(s[1..], n - 1); }
  }

  lemma TakeCons<T>(x: T, s: seq<T>, n: nat)
    requires 1 <= n
    ensures Take([x] + s, n) == [x] + Take(s, n - 1)
  {
    assert ([x] + s)[1..] == s;
  }

  lemma KeepCons<K, V>(e: Entry<K, V>, s: seq<Entry<K, V>>, p: Entry<K, V> -> bool)
    ensures Keep([e] + s, p) == if p(e) then [e] + Keep(s, p) else Keep(s, p)
  {
    assert ([e] + s)[1..] == s;
  }

  lemma FindCons<K, V>(e: Entry<K, V>, s: seq<Entry<K, V>>, k: K)
    ensures Find([e] + s, k) == if e.key == k then Some(e) else Find(s, k)
  {
    assert ([e] + s)[1..] == s;
  }

  lemma {:induction false} TakeFind<K, V>(s: seq<Entry<K, V>>, n: nat, k: K)
    requires Find(s, k).None?
    ensures Find(Take(s, n), k).None?
  {
    if n > 0 && s != [] {
      TakeFind(s[1..], n - 1, k);
      FindCons(s[0], Take(s[1..], n - 1), k);
    }
  }

  /** Dropping a key before taking a prefix: one more element fits. */
  lemma {:induction false} TakeDrop<K, V>(d: seq<Entry<K, V>>, n: nat, k: K)
    requires Unique(d) && 1 <= n
    ensures Take(Keep(d, OtherThan(k)), n - 1)
            == if Find(Take(d, n), k).Some? then Keep(Take(d, n), OtherThan(k)) else Take(Take(d, n), n - 1)
  {
    if d != [] {
      var e, rest, other := d[0], d[1..], OtherThan<K, V>(k);
      UniqueTail(d);
      FindCons(e, Take(rest, n - 1), k);
      KeepCons(e, Take(rest, n - 1), other);
      if e.key == k {
        KeepNone(rest, k);
        TakeFind(rest, n - 1, k);
        KeepNone(Take(rest, n - 1), k);
      } else if n > 1 {
        TakeDrop(rest, n - 1, k);
        TakeCons(e, Keep(rest, other), n - 1);
        TakeCons(e, Take(rest, n - 1), n - 1);
      }
    }
  }

  // ---------- the refinement, step by step ----------

  /** How one more touch changes the recent entries. */
  lemma RecentPush<K, V>(h: History<K, V>, n: nat, e: Entry<K, V>)
    requires 1 <= n
    ensures var r := Recent(h, n);
            Recent([e] + h, n)
            == [e] + (if Find(r, e.key).Some? then Keep(r, OtherThan(e.key)) else Take(r, n - 1))
  {
    DistinctUnique(h);
    TakeDrop(Distinct(h), n, e.key);
    assert ([e] + h)[1..] == h;
    TakeCons(e, Keep(Distinct(h), OtherThan(e.key)), n);
  }

  /** `Put` pushes its entry in front of what it leaves: the others, or all that fit. */
  lemma PutShape<K, V>(c: Cache<K, V>, k: K, v: V, ttl: int, now: int)
    requires 1 <= c.capacity && |c.order| <= c.capacity
    ensures DoPut(c, k, v, ttl, now).order
            == [Entry(k, v, Deadline(ttl, now))]
               + (if Find(c.order, k).Some? then Keep(c.order, OtherThan(k)) else Take(c.order, c.capacity - 1))
  {
    TakeIsPrefix(c.order, c.capacity - 1);
  }

  lemma PutRefines<K, V>(c: Cache<K, V>, h: History<K, V>, op: Op<K, V>)
    requires Refines(c, h) && op.Put?
    ensures Refines(Step(c, op).0, RefStep(h, c.capacity, op).0)
    ensures Step(c, op).0.capacity == c.capacity
  {
    assert |c.order| <= c.capacity by { TakeIsPrefix(Distinct(h), c.capacity); }
    PutShape(c, op.key, op.value, op.ttl, op.now);
    RecentPush(h, c.capacity, Entry(op.key, op.value, Deadline(op.ttl, op.now)));
  }

  lemma GetRefines<K, V>(c: Cache<K, V>, h: History<K, V>, op: Op<K, V>)
    requires Refines(c, h) && op.Get? && InTime(h, c.capacity, op)
    ensures Refines(Step(c, op).0, RefStep(h, c.capacity, op).0)
    ensures Step(c, op).1 == RefStep(h, c.capacity, op).1
  {
    if Find(c.order, op.key).Some? {
      FindMembers(c.order, op.key);
      RecentPush(h, c.capacity, Find(c.order, op.key).value);
    }
  }

  lemma StepRefines<K, V>(c: Cache<K, V>, h: History<K, V>, op: Op<K, V>)
    requires Refines(c, h) && Plain(op) && InTime(h, c.capacity, op)
    ensures Refines(Step(c, op).0, RefStep(h, c.capacity, op).0)
    ensures Step(c, op).1 == RefStep(h, c.capacity, op).1
    ensures Step(c, op).0.capacity == c.capacity
  {
    match op
    case Clear =>
    case Put(_, _, _, _) => PutRefines(c, h, op);
    case Get(_, _) => GetRefines(c, h, op);
  }

  lemma {:induction false} RunRefines<K, V>(c: Cache<K, V>, h: History<K, V>, ops: seq<Op<K, V>>)
    requires Refines(c, h) && AllPlain(ops) && AllInTime(h, c.capacity, ops)
    ensures Refines(Run(c, ops), RefRun(h, c.capacity, ops))
    ensures Replies(c, ops) == RefReplies(h, c.capacity, ops)
    ensures Run(c, ops).capacity == c.capacity
    decreases |ops|
  {
    if ops != [] {
      StepRefines(c, h, ops[0]);
      RunRefines(Step(c, ops[0]).0, RefStep(h, c.capacity, ops[0]).0, ops[1..]);
    }
  }

  /**
   For every trace of puts, lookups and clears on a new cache in which no lookup finds an expired entry: all replies
   are those of the history-keeping reference, and the list is the first `n` distinct keys of the reversed touch
   history, each with the value and deadline of its last put, where `n` is the capacity, at least one.
   */
  lemma RecencyRefinement<K, V>(capacity: int, ops: seq<Op<K, V>>)
    requires AllPlain(ops) && AllInTime([], New<K, V>(capacity).capacity, ops)
    ensures var n := New<K, V>(capacity).capacity;
            && Run(New(capacity), ops).order == Recent(RefRun([], n, ops), n)
            && Replies(New(capacity), ops) == RefReplies([], n, ops)
  {
    RunRefines<K, V>(New(capacity), [], ops);
  }

  // ---------- traces without deadlines ----------

  /** Puts that never expire, lookups and `Clear`. */
  predicate Timeless<K, V>(op: Op<K, V>) {
    (op.Put? && op.ttl <= 0) || op.Get? || op.Clear?
  }

  /** Nothing in the history has a deadline. */
  ghost predicate Undated<K, V>(h: History<K, V>) {
    h == [] || (h[0].expiresAt.None? && Undated(h[1..]))
  }

  lemma {:induction false} FindUndated<K, V>(h: History<K, V>, k: K)
    requires Undated(h)
    ensures Find(h, k).Some? ==> Find(h, k).value.expiresAt.None?
  {
    if h != [] { FindUndated(h[1..], k); }
  }

  lemma UndatedPush<K, V>(e: Entry<K, V>, h: History<K, V>)
    requires Undated(h) && e.expiresAt.None?
    ensures Undated([e] + h)
  {
    assert ([e] + h)[1..] == h;
  }

  lemma StaysUndated<K, V>(h: History<K, V>, capacity: nat, op: Op<K, V>)
    requires Undated(h) && Timeless(op)
    ensures InTime(h, capacity, op) && Undated(RefStep(h, capacity, op).0)
  {
    match op
    case Put(k, v, _, _) => UndatedPush(Entry(k, v, None), h);
    case Get(k, _) =>
      RecentFind(h, capacity, k);
      FindUndated(h, k);
      if Find(Recent(h, capacity), k).Some? { UndatedPush(Find(h, k).value, h); }
    case Clear =>
  }

  /** Without deadlines every lookup is in time, so the refinement covers every such trace. */
  lemma {:induction false} TimelessIsInTime<K, V>(h: History<K, V>, capacity: nat, ops: seq<Op<K, V>>)
    requires Undated(h) && forall i :: 0 <= i < |ops| ==> Timeless(ops[i])
    ensures AllPlain(ops) && AllInTime(h, capacity, ops)
    decreases |ops|
  {
    if ops != [] {
      StaysUndated(h, capacity, ops[0]);
      TimelessIsInTime(RefStep(h, capacity, ops[0]).0, capacity, ops[1..]);
    }
  }

  // ---------- reuse distance ----------

  /** The touches since the last touch of `k`. */
  function Before<K(==), V>(s: seq<Entry<K, V>>, k: K): seq<Entry<K, V>> {
    if s == [] || s[0].key == k then [] else [s[0]] + Before(s[1..], k)
  }

  ghost function KeySet<K, V>(s: seq<Entry<K, V>>): set<K> {
    if s == [] then {} else {s[0].key} + KeySet(s[1..])
  }

  lemma {:induction false} KeySetFind<K, V>(s: seq<Entry<K, V>>, x: K)
    ensures x in KeySet(s) <==> Find(s, x).Some?
  {
    if s != [] { KeySetFind(s[1..], x); }
  }

  lemma {:induction false} UniqueSize<K, V>(s: seq<Entry<K, V>>)
    requires Unique(s)
    ensures |KeySet(s)| == |s|
  {
    if s != [] {
      UniqueTail(s);
      UniqueSize(s[1..]);
      KeySetFind(s[1..], s[0].key);
    }
  }

  lemma {:induction false} BeforeKeep<K, V>(s: seq<Entry<K, V>>, x: K, k: K)
    requires x != k
    ensures Before(Keep(s, OtherThan(x)), k) == Keep(Before(s, k), OtherThan(x))
  {
    if s != [] {
      BeforeKeep(s[1..], x, k);
      if s[0].key != x { assert Keep(s, OtherThan(x))[1..] == Keep(s[1..], OtherThan(x)); }
      if s[0].key != k { KeepCons(s[0], Before(s[1..], k), OtherThan(x)); }
    }
  }

  lemma {:induction false} FindBefore<K, V>(s: seq<Entry<K, V>>, k: K, x: K)
    requires Find(s, x).None?
    ensures Find(Before(s, k), x).None?
  {
    if s != [] && s[0].key != k {
      FindBefore(s[1..], k, x);
      FindCons(s[0], Before(s[1..], k), x);
    }
  }

  lemma {:induction false} BeforeUnique<K, V>(s: seq<Entry<K, V>>, k: K)
    requires Unique(s)
    ensures Unique(Before(s, k))
  {
    if s != [] && s[0].key != k {
      UniqueTail(s);
      BeforeUnique(s[1..], k);
      FindBefore(s[1..], k, s[0].key);
      PushUnfound(s[0], Before(s[1..], k));
    }
  }

  /** Keeping only the latest touch of each key changes neither which keys were touched nor since when. */
  lemma {:induction false} DistinctFind<K, V>(h: History<K, V>, k: K)
    ensures Find(Distinct(h), k) == Find(h, k)
  {
    if h != [] {
      DistinctFind(h[1..], k);
      FindKeep(Distinct(h[1..]), h[0].key, k);
      FindCons(h[0], Keep(Distinct(h[1..]), OtherThan(h[0].key)), k);
    }
  }

  lemma {:induction false} KeySetKeep<K, V>(s: seq<Entry<K, V>>, x: K)
    ensures KeySet(Keep(s, OtherThan(x))) == KeySet(s) - {x}
  {
    if s != [] {
      KeySetKeep(s[1..], x);
      if s[0].key != x { assert Keep(s, OtherThan(x))[1..] == Keep(s[1..], OtherThan(x)); }
    }
  }

  lemma KeySetCons<K, V>(e: Entry<K, V>, s: seq<Entry<K, V>>)
    ensures KeySet([e] + s) == {e.key} + KeySet(s)
  {
    assert ([e] + s)[1..] == s;
  }

  lemma {:induction false} DistinctBefore<K, V>(h: History<K, V>, k: K)
    ensures KeySet(Before(Distinct(h), k)) == KeySet(Before(h, k))
  {
    if h != [] && h[0].key != k {
      var e, d := h[0], Distinct(h[1..]);
      DistinctBefore(h[1..], k);
      BeforeKeep(d, e.key, k);
      KeySetKeep(Before(d, k), e.key);
      assert Distinct(h)[1..] == Keep(d, OtherThan(e.key));
      KeySetCons(e, Keep(Before(d, k), OtherThan(e.key)));
      KeySetCons(e, Before(h[1..], k));
    }
  }

  /** The first `n` entries reach exactly the keys with fewer than `n` entries before them. */
  lemma {:induction false} TakeReaches<K, V>(s: seq<Entry<K, V>>, n: nat, k: K)
    ensures Find(Take(s, n), k).Some? <==> Find(s, k).Some? && |Before(s, k)| < n
  {
    if n > 0 && s != [] {
      TakeReaches(s[1..], n - 1, k);
      FindCons(s[0], Take(s[1..], n - 1), k);
    }
  }

  lemma {:induction false} TakeFinds<K, V>(s: seq<Entry<K, V>>, n: nat, k: K)
    ensures Find(Take(s, n), k).Some? ==> Find(Take(s, n), k) == Find(s, k)
  {
    if n > 0 && s != [] {
      TakeFinds(s[1..], n - 1, k);
      FindCons(s[0], Take(s[1..], n - 1), k);
    }
  }

  /** What is found among the recent entries is the latest touch. */
  lemma RecentFind<K, V>(h: History<K, V>, n: nat, k: K)
    ensures Find(Recent(h, n), k).Some? ==> Find(Recent(h, n), k) == Find(h, k)
  {
    TakeFinds(Distinct(h), n, k);
    DistinctFind(h, k);
  }

  /** Reuse distance: a key is among the `n` recent ones exactly when it was touched and fewer than `n`
      distinct other keys were touched since. */
  lemma RecentIffReuseDistance<K, V>(h: History<K, V>, n: nat, k: K)
    ensures Find(Recent(h, n), k).Some? <==> Find(h, k).Some? && |KeySet(Before(h, k))| < n
  {
    var d := Distinct(h);
    TakeReaches(d, n, k);
    DistinctFind(h, k);
    DistinctUnique(h);
    BeforeUnique(d, k);
    UniqueSize(Before(d, k));
    DistinctBefore(h, k);
  }

  /** After such a trace a lookup hits exactly when its key was touched, fewer than `n` distinct keys were touched
      since, and the deadline it then had has not passed. */
  lemma HitIffReuseDistance<K, V>(capacity: int, ops: seq<Op<K, V>>, k: K, now: int)
    requires AllPlain(ops) && AllInTime([], New<K, V>(capacity).capacity, ops)
    ensures var n := New<K, V>(capacity).capacity; var h := RefRun<K, V>([], n, ops);
            DoGet(Run<K, V>(New(capacity), ops), k, now).1.Some?
            <==> Find(h, k).Some? && |KeySet(Before(h, k))| < n && Alive(Find(h, k).value, now)
  {
    var n := New<K, V>(capacity).capacity;
    var h := RefRun<K, V>([], n, ops);
    RunRefines<K, V>(New(capacity), [], ops);
    RecentIffReuseDistance(h, n, k);
    RecentFind(h, n, k);
  }
}
