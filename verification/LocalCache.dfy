/**
 `LocalCache` (libs/go/src/cache/local_cache.go): the smaller twin of `LRUCache`, which evicts in a loop and
 keeps no statistics, and the proof that no caller can tell the two apart.
 */
module LocalCache {
  import opened Options
  import opened LruModel
  import opened ListIndex

  type Bytes = seq<bv8>
  type LocalEntry = Entry<string, Bytes>
  type LocalOp = Op<string, Bytes>

  // ---------- value model ----------

  datatype Local = Local(capacity: int, order: seq<LocalEntry>)

  /** The eviction loop: drop the back while the list is at capacity. */
  function EvictWhileFull(order: seq<LocalEntry>, capacity: int): seq<LocalEntry> {
    if |order| < capacity || order == [] then order else EvictWhileFull(order[..|order| - 1], capacity)
  }

  function DoSet(c: Local, key: string, value: Bytes, ttl: int, now: int): Local {
    var e := Entry(key, value, Deadline(ttl, now));
    c.(order := [e] + (if Find(c.order, key).Some? then Keep(c.order, OtherThan(key))
                       else EvictWhileFull(c.order, c.capacity)))
  }

  function DoGetLocal(c: Local, key: string, now: int): (Local, Option<Bytes>) {
    match Find(c.order, key)
    case None => (c, None)
    case Some(e) =>
      var rest := Keep(c.order, OtherThan(key));
      if Expired(e, now) then (c.(order := rest), None) else (c.(order := [e] + rest), Some(e.value))
  }

  function DoDelete(c: Local, key: string): (Local, bool) {
    if Find(c.order, key).None? then (c, false) else (c.(order := Keep(c.order, OtherThan(key))), true)
  }

  /** The operations that both caches have. */
  predicate Shared(op: LocalOp) {
    op.Put? || op.Get? || op.Remove? || op.Clear?
  }

  function LocalStep(c: Local, op: LocalOp): (Local, Reply<Bytes>)
    requires Shared(op)
  {
    match op
    case Put(key, value, ttl, now) => (DoSet(c, key, value, ttl, now), Done)
    case Get(key, now) => var r := DoGetLocal(c, key, now); (r.0, Found(r.1))
    case Remove(key) => var r := DoDelete(c, key); (r.0, Removed(r.1))
    case Clear => (c.(order := []), Done)
  }

  function LocalRun(c: Local, ops: seq<LocalOp>): Local
    requires forall i :: 0 <= i < |ops| ==> Shared(ops[i])
    decreases |ops|
  {
    if ops == [] then c else LocalRun(LocalStep(c, ops[0]).0, ops[1..])
  }

  function LocalReplies(c: Local, ops: seq<LocalOp>): seq<Reply<Bytes>>
    requires forall i :: 0 <= i < |ops| ==> Shared(ops[i])
    decreases |ops|
  {
    if ops == [] then [] else [LocalStep(c, ops[0]).1] + LocalReplies(LocalStep(c, ops[0]).0, ops[1..])
  }

  // ---------- observational equivalence ----------

  ghost predicate Same(l: Local, c: Cache<string, Bytes>) {
    l.capacity == c.capacity && l.order == c.order && Valid(c)
  }

  lemma StepsAgree(l: Local, c: Cache<string, Bytes>, op: LocalOp)
    requires Same(l, c) && Shared(op)
    ensures Same(LocalStep(l, op).0, Step(c, op).0)
    ensures LocalStep(l, op).1 == Step(c, op).1
  {
    StepKeepsValid(c, op);
    if !op.Clear? { FindMembers(c.order, op.key); }
    if op.Put? && |c.order| == c.capacity {
      assert EvictWhileFull(c.order, c.capacity) == EvictWhileFull(c.order[..|c.order| - 1], c.capacity);
    }
  }

  lemma {:induction false} RunsAgree(l: Local, c: Cache<string, Bytes>, ops: seq<LocalOp>)
    requires Same(l, c)
    requires forall i :: 0 <= i < |ops| ==> Shared(ops[i])
    ensures Same(LocalRun(l, ops), Run(c, ops))
    ensures LocalReplies(l, ops) == Replies(c, ops)
    decreases |ops|
  {
    if ops != [] {
      StepsAgree(l, c, ops[0]);
      RunsAgree(LocalStep(l, ops[0]).0, Step(c, ops[0]).0, ops[1..]);
    }
  }

  /** For every positive capacity and every trace of the shared operations at the same clock readings, the
      two caches give the same replies and hold the same recency list. */
  lemma CachesEquivalent(capacity: nat, ops: seq<LocalOp>)
    requires 1 <= capacity
    requires forall i :: 0 <= i < |ops| ==> Shared(ops[i])
    ensures LocalRun(Local(capacity, []), ops).order == Run(New(capacity), ops).order
    ensures LocalReplies(Local(capacity, []), ops) == Replies(New(capacity), ops)
  {
    RunsAgree(Local(capacity, []), New(capacity), ops);
  }

  // ---------- the object ----------

  class LocalCache {
    var capacity: int
    var items: map<string, LocalEntry>
    var order: seq<LocalEntry>

    ghost function State(): Local
      reads this
    {
      Local(capacity, order)
    }

    ghost predicate Ok()
      reads this
    {
      1 <= capacity && Linked(items, order)
    }

    constructor (capacity: int)
      ensures Ok() && State() == Local(if capacity <= 0 then 10000 else capacity, [])
    {
      this.capacity := if capacity <= 0 then 10000 else capacity;
      items, order := map[], [];
    }

    method RemoveElement(elem: LocalEntry)
      requires Ok()
      modifies this
      ensures Ok() && capacity == old(capacity) && order == Keep(old(order), OtherThan(elem.key))
    {
      UnlinkKeepsLinked(order, elem.key);
      items := items - {elem.key};
      order := Keep(order, OtherThan(elem.key));
    }

    method EvictBack()
      requires Ok()
      modifies this
      ensures Ok() && capacity == old(capacity)
      ensures order == if old(order) == [] then [] else old(order)[..|old(order)| - 1]
    {
      if order != [] {
        KeepAt(order, |order| - 1);
        RemoveElement(order[|order| - 1]);
      }
    }

    method Get(key: string, now: int) returns (value: Bytes, ok: bool)
      requires Ok()
      modifies this
      ensures Ok() && (State(), if ok then Some(value) else None) == DoGetLocal(old(State()), key, now)
    {
      LookupIsFind(order, key);
      if key !in items {
        return [], false;
      }
      var elem := items[key];
      if elem.expiresAt.Some? && now > elem.expiresAt.value {
        RemoveElement(elem);
        return [], false;
      }
      MoveKeepsLinked(order, elem);
      assert items[elem.key := elem] == items;
      order := [elem] + Keep(order, OtherThan(key));
      return elem.value, true;
    }

    method Set(key: string, value: Bytes, ttl: int, now: int)
      requires Ok()
      modifies this
      ensures Ok() && State() == DoSet(old(State()), key, value, ttl, now)
    {
      var elem := Entry(key, value, Deadline(ttl, now));
      LookupIsFind(order, key);
      if key in items {
        MoveKeepsLinked(order, elem);
        order := [elem] + Keep(order, OtherThan(key));
        items := items[key := elem];
        return;
      }
      FindMembers(order, key);
      while |order| >= capacity
        invariant Ok() && capacity == old(capacity)
        invariant EvictWhileFull(order, capacity) == EvictWhileFull(old(order), capacity)
        invariant order <= old(order)
        decreases |order|
      {
        EvictBack();
      }
      LookupIsFind(order, key);
      FindMembers(order, key);
      PushKeepsLinked(order, elem);
      order := [elem] + order;
      items := items[key := elem];
    }

    method Delete(key: string) returns (ok: bool)
      requires Ok()
      modifies this
      ensures Ok() && (State(), ok) == DoDelete(old(State()), key)
    {
      LookupIsFind(order, key);
      if key !in items {
        return false;
      }
      RemoveElement(items[key]);
      return true;
    }

    method Clear()
      requires Ok()
      modifies this
      ensures Ok() && State() == LocalStep(old(State()), Op.Clear).0
    {
      items, order := map[], [];
    }
  }
}
