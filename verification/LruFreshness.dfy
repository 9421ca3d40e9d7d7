/**
 What `LRUCache` answers: in every run a hit returns the value last put under its key, unexpired; and as long
 as nothing was evicted the cache is exactly the map with deadlines that the trace describes.
 */
module LruFreshness {
  import opened Options
  import opened LruModel

  /** A value that was put, with the time to live asked for and the clock reading of the put. */
  datatype Stored<V> = Stored(value: V, ttl: int, at: int)

  /** What the trace alone says about a key: the latest put not undone by a removal or a clear. */
  function LastPut<K(==), V>(ops: seq<Op<K, V>>, k: K): Option<Stored<V>> {
    if ops == [] then None else
      var past := LastPut(ops[..|ops| - 1], k);
      match ops[|ops| - 1]
      case Put(key, value, ttl, now) => if key == k then Some(Stored(value, ttl, now)) else past
      case Remove(key) => if key == k then None else past
      case Clear => None
      case _ => past
  }

  /** The value a lookup at `t` should give, if nothing is ever evicted: a positive time to live ends `ttl` after
      the put, that instant still included. */
  function Fresh<V>(p: Option<Stored<V>>, t: int): Option<V> {
    match p
    case None => None
    case Some(x) => if x.ttl > 0 && t > x.at + x.ttl then None else Some(x.value)
  }

  /** The entry holds this value until its time to live is over. */
  ghost predicate Holds<K, V>(e: Entry<K, V>, p: Option<Stored<V>>) {
    && p.Some? && e.value == p.value.value
    && forall t :: Expired(e, t) <==> p.value.ttl > 0 && t > p.value.at + p.value.ttl
  }

  /** Every listed entry is what the trace last put under its key. */
  ghost predicate Backed<K, V>(c: Cache<K, V>, past: seq<Op<K, V>>) {
    forall e :: e in c.order ==> Holds(e, LastPut(past, e.key))
  }

  /** Where an entry listed after an operation comes from. */
  lemma StepMembers<K, V>(c: Cache<K, V>, op: Op<K, V>, e: Entry<K, V>)
    requires Valid(c) && e in Step(c, op).0.order
    ensures || (op.Put? && e == Entry(op.key, op.value, Deadline(op.ttl, op.now)))
            || (e in c.order && !op.Clear? && (op.Put? || op.Remove? ==> e.key != op.key))
  {
    match op
    case Put(k, _, _, _) => FindMembers(c.order, k); KeepMembers(c.order, OtherThan(k), e);
    case Get(k, _) => FindMembers(c.order, k); KeepMembers(c.order, OtherThan(k), e);
    case Remove(k) => FindMembers(c.order, k); KeepMembers(c.order, OtherThan(k), e);
    case Cleanup(now) => KeepMembers(c.order, AliveAt(now), e);
    case Clear =>
    case Resize(n) => ResizeShape(c, n);
  }

  lemma ResizeShape<K, V>(c: Cache<K, V>, capacity: int)
    requires Valid(c)
    ensures var d := Step(c, Resize(capacity)).0;
            d.order <= c.order && d.stats.evictions == c.stats.evictions + |c.order| - |d.order|
  {
    var n := if capacity <= 0 then 1 else capacity;
    EvictDownToKeeps(c.(capacity := n, stats := c.stats.(capacity := n)), n);
  }

  lemma LastPutSnoc<K, V>(past: seq<Op<K, V>>, op: Op<K, V>)
    ensures (past + [op])[..|past|] == past
  { }

  lemma StepBacked<K, V>(c: Cache<K, V>, past: seq<Op<K, V>>, op: Op<K, V>)
    requires Valid(c) && Backed(c, past)
    ensures Backed(Step(c, op).0, past + [op])
  {
    LastPutSnoc(past, op);
    forall e | e in Step(c, op).0.order ensures Holds(e, LastPut(past + [op], e.key)) {
      StepMembers(c, op, e);
    }
  }

  lemma {:induction false} RunBacked<K, V>(c: Cache<K, V>, past: seq<Op<K, V>>, ops: seq<Op<K, V>>)
    requires Valid(c) && Backed(c, past)
    ensures Backed(Run(c, ops), past + ops)
    decreases |ops|
  {
    if ops == [] {
      assert past + ops == past;
    } else {
      StepBacked(c, past, ops[0]);
      StepKeepsValid(c, ops[0]);
      RunBacked(Step(c, ops[0]).0, past + [ops[0]], ops[1..]);
      assert past + ops == past + [ops[0]] + ops[1..];
    }
  }

  /** In every run, over all operations, a hit returns the value last put under the key, before its deadline. */
  lemma HitsAreFresh<K, V>(capacity: int, ops: seq<Op<K, V>>, k: K, t: int)
    ensures var r := DoGet(Run(New(capacity), ops), k, t).1;
            r.Some? ==> r == Fresh(LastPut(ops, k), t)
  {
    var c := Run<K, V>(New(capacity), ops);
    RunBacked<K, V>(New(capacity), [], ops);
    assert [] + ops == ops;
    FindMembers(c.order, k);
  }

  // ---------- exactness without evictions ----------

  predicate ReadsClockBy<K, V>(op: Op<K, V>, t: int) {
    op.Put? || op.Get? || op.Cleanup? ==> op.now <= t
  }

  lemma EvictionsGrow<K, V>(c: Cache<K, V>, op: Op<K, V>)
    requires Valid(c)
    ensures c.stats.evictions <= Step(c, op).0.stats.evictions
  {
    if op.Resize? { ResizeShape(c, op.capacity); }
  }

  /** An operation that evicts nothing keeps every entry it does not replace, remove or find expired. */
  lemma StepKeepsEntry<K, V>(c: Cache<K, V>, op: Op<K, V>, e: Entry<K, V>, t: int)
    requires Valid(c) && e in c.order && !Expired(e, t) && ReadsClockBy(op, t)
    requires Step(c, op).0.stats.evictions == c.stats.evictions
    requires !op.Clear? && (op.Put? || op.Remove? ==> op.key != e.key)
    ensures e in Step(c, op).0.order
  {
    match op
    case Put(k, _, _, _) => KeepMembers(c.order, OtherThan(k), e);
    case Get(k, _) =>
      KeepMembers(c.order, OtherThan(k), e);
      FindMembers(c.order, k);
      if e.key == k { SameKey(c.order, e); }
    case Remove(k) => KeepMembers(c.order, OtherThan(k), e); FindMembers(c.order, k);
    case Cleanup(now) => KeepMembers(c.order, AliveAt(now), e);
    case Resize(n) => ResizeShape(c, n);
  }

  lemma StepComplete<K, V>(c: Cache<K, V>, past: seq<Op<K, V>>, op: Op<K, V>, k: K, t: int)
    requires Valid(c) && Backed(c, past) && ReadsClockBy(op, t)
    requires Step(c, op).0.stats.evictions == c.stats.evictions
    requires Fresh(LastPut(past, k), t).Some? ==> Find(c.order, k).Some?
    ensures Fresh(LastPut(past + [op], k), t).Some? ==> Find(Step(c, op).0.order, k).Some?
  {
    LastPutSnoc(past, op);
    var d := Step(c, op).0;
    FindMembers(d.order, k);
    if op.Put? && op.key == k {
      assert d.order[0].key == k;
    } else if Fresh(LastPut(past + [op], k), t).Some? {
      FindMembers(c.order, k);
      StepKeepsEntry(c, op, Find(c.order, k).value, t);
    }
  }

  lemma {:induction false} RunComplete<K, V>(c: Cache<K, V>, past: seq<Op<K, V>>, ops: seq<Op<K, V>>, k: K, t: int)
    requires Valid(c) && Backed(c, past)
    requires Fresh(LastPut(past, k), t).Some? ==> Find(c.order, k).Some?
    requires forall i :: 0 <= i < |ops| ==> ReadsClockBy(ops[i], t)
    requires Run(c, ops).stats.evictions == c.stats.evictions
    ensures Fresh(LastPut(past + ops, k), t).Some? ==> Find(Run(c, ops).order, k).Some?
    decreases |ops|
  {
    if ops == [] {
      assert past + ops == past;
    } else {
      var d := Step(c, ops[0]).0;
      StepKeepsValid(c, ops[0]);
      EvictionsGrow(c, ops[0]);
      RunEvictionsGrow(d, ops[1..]);
      StepBacked(c, past, ops[0]);
      StepComplete(c, past, ops[0], k, t);
      RunComplete(d, past + [ops[0]], ops[1..], k, t);
      assert past + ops == past + [ops[0]] + ops[1..];
    }
  }

  lemma {:induction false} RunEvictionsGrow<K, V>(c: Cache<K, V>, ops: seq<Op<K, V>>)
    requires Valid(c)
    ensures c.stats.evictions <= Run(c, ops).stats.evictions
    decreases |ops|
  {
    if ops != [] {
      StepKeepsValid(c, ops[0]);
      EvictionsGrow(c, ops[0]);
      RunEvictionsGrow(Step(c, ops[0]).0, ops[1..]);
    }
  }

  /** As long as nothing was evicted, a lookup not earlier than any clock reading of the run returns exactly
      what the trace describes: the last value put, if it was not removed, cleared or expired. */
  lemma ExactWithoutEvictions<K, V>(capacity: int, ops: seq<Op<K, V>>, k: K, t: int)
    requires forall i :: 0 <= i < |ops| ==> ReadsClockBy(ops[i], t)
    requires Run<K, V>(New(capacity), ops).stats.evictions == 0
    ensures DoGet(Run(New(capacity), ops), k, t).1 == Fresh(LastPut(ops, k), t)
  {
    var c := Run<K, V>(New(capacity), ops);
    HitsAreFresh(capacity, ops, k, t);
    RunBacked<K, V>(New(capacity), [], ops);
    RunComplete<K, V>(New(capacity), [], ops, k, t);
    assert [] + ops == ops;
    FindMembers(c.order, k);
  }
}
