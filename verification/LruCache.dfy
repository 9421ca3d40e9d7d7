/** `LRUCache` (libs/go/src/collections/lru.go) as an object, each method proved against `LruModel`. */
module LruCache {
  import opened Options
  import opened LruModel
  import opened ListIndex

  class LRUCache<K(==), V> {
    var capacity: int
    var items: map<K, Entry<K, V>>
    var order: seq<Entry<K, V>>
    var ttl: int
    var stats: Stats
    /** The calls made to `onEvict`, in order. */
    var evicted: seq<(K, V)>

    ghost function State(): Cache<K, V>
      reads this
    {
      Cache(capacity, order, stats, evicted)
    }

    /** The map and the list agree. */
    ghost predicate Ok()
      reads this
    {
      Linked(items, order)
    }

    constructor (capacity: int)
      ensures Ok() && State() == New(capacity) && ttl == 0
    {
      var c := if capacity <= 0 then 1 else capacity;
      this.capacity, items, order, ttl, evicted := c, map[], [], 0, [];
      stats := Stats(0, 0, 0, 0, 0, c);
    }

    method RemoveElement(elem: Entry<K, V>)
      requires Ok()
      modifies this
      ensures Ok() && State() == RemoveKey(old(State()), elem) && ttl == old(ttl)
    {
      UnlinkKeepsLinked(order, elem.key);
      items := items - {elem.key};
      order := Keep(order, OtherThan(elem.key));
      stats := stats.(size := |order|);
      evicted := evicted + [(elem.key, elem.value)];
    }

    method EvictBack()
      requires Ok()
      modifies this
      ensures Ok() && State() == EvictOldest(old(State())) && ttl == old(ttl)
    {
      if order != [] {
        KeepAt(order, |order| - 1);
        RemoveElement(order[|order| - 1]);
        stats := stats.(evictions := stats.evictions + 1);
      }
    }

    method Get(key: K, now: int) returns (r: Option<V>)
      requires Ok()
      modifies this
      ensures Ok() && ttl == old(ttl)
      ensures (State(), r) == DoGet(old(State()), key, now)
    {
      LookupIsFind(order, key);
      if key !in items {
        stats := stats.(misses := stats.misses + 1);
        return None;
      }
      var elem := items[key];
      if elem.expiresAt.Some? && now > elem.expiresAt.value {
        RemoveElement(elem);
        stats := stats.(expirations := stats.expirations + 1);
        stats := stats.(misses := stats.misses + 1);
        return None;
      }
      MoveKeepsLinked(order, elem);
      assert items[elem.key := elem] == items;
      order := [elem] + Keep(order, OtherThan(key));
      stats := stats.(hits := stats.hits + 1);
      r := Some(elem.value);
    }

    method Put(key: K, value: V, now: int)
      requires Ok()
      modifies this
      ensures Ok() && ttl == old(ttl)
      ensures State() == DoPut(old(State()), key, value, ttl, now)
    {
      PutWithTTL(key, value, ttl, now);
    }

    method PutWithTTL(key: K, value: V, ttl: int, now: int)
      requires Ok()
      modifies this
      ensures Ok() && this.ttl == old(this.ttl)
      ensures State() == DoPut(old(State()), key, value, ttl, now)
    {
      var elem := Entry(key, value, Deadline(ttl, now));
      LookupIsFind(order, key);
      if key in items {
        MoveKeepsLinked(order, elem);
        order := [elem] + Keep(order, OtherThan(key));
        items := items[key := elem];
        return;
      }
      FindMembers(order, key);
      if |order| >= capacity {
        EvictBack();
      }
      LookupIsFind(order, key);
      FindMembers(order, key);
      PushKeepsLinked(order, elem);
      order := [elem] + order;
      items := items[key := elem];
      stats := stats.(size := |order|);
    }

    method Remove(key: K) returns (ok: bool)
      requires Ok()
      modifies this
      ensures Ok() && ttl == old(ttl)
      ensures (State(), ok) == DoRemove(old(State()), key)
    {
      LookupIsFind(order, key);
      if key in items {
        RemoveElement(items[key]);
        return true;
      }
      return false;
    }

    method Clear()
      requires Ok()
      modifies this
      ensures Ok() && ttl == old(ttl)
      ensures State() == DoClear(old(State()))
    {
      items, order := map[], [];
      stats := stats.(size := 0);
    }

    method RemoveExpired(i: nat)
      requires Ok() && i < |order|
      modifies this
      ensures Ok() && ttl == old(ttl) && capacity == old(capacity)
      ensures order == old(order)[..i] + old(order)[i + 1..]
      ensures evicted == old(evicted) + [(old(order)[i].key, old(order)[i].value)]
      ensures stats == old(stats).(size := |order|, expirations := old(stats).expirations + 1)
    {
      KeepAt(order, i);
      RemoveElement(order[i]);
      stats := stats.(expirations := stats.expirations + 1);
    }

    /** What the scan has done when only the first `i` positions of the original list are left to look at. */
    ghost predicate Swept(was: Cache<K, V>, i: nat, now: int, removed: nat)
      reads this
    {
      && i <= |was.order|
      && order == was.order[..i] + Keep(was.order[i..], AliveAt(now))
      && evicted == was.evicted + Dropped(was.order[i..], AliveAt(now))
      && removed == |Dropped(was.order[i..], AliveAt(now))|
      && capacity == was.capacity
      && stats.(size := 0) == was.stats.(size := 0, expirations := was.stats.expirations + removed)
    }

    method SweepOne(ghost was: Cache<K, V>, i: nat, now: int, removed: nat) returns (n: nat)
      requires Ok() && Swept(was, i + 1, now, removed)
      modifies this
      ensures Ok() && Swept(was, i, now, n) && ttl == old(ttl)
    {
      var elem := order[i];
      ghost var tail := Keep(was.order[i + 1..], AliveAt(now));
      assert elem == was.order[i] && was.order[i..][1..] == was.order[i + 1..];
      assert order == was.order[..i] + [elem] + tail;
      n := removed;
      if elem.expiresAt.Some? && now > elem.expiresAt.value {
        RemoveExpired(i);
        n := n + 1;
      }
    }

    /** The scan from the back of the list, removing what has expired. */
    method Cleanup(now: int) returns (removed: nat)
      requires Ok()
      modifies this
      ensures Ok() && ttl == old(ttl)
      ensures State() == DoCleanup(old(State()), now)
      ensures removed == |Dropped(old(order), AliveAt(now))|
    {
      ghost var was := State();
      removed := 0;
      var i := |order|;
      while i > 0
        invariant 0 <= i && Ok() && Swept(was, i, now, removed) && ttl == old(ttl)
      {
        i := i - 1;
        removed := SweepOne(was, i, now, removed);
      }
      assert was.order[0..] == was.order;
      stats := stats.(size := |order|);
    }

    /** The eviction loop of `Resize`. */
    method Resize(capacity: int)
      requires Ok()
      modifies this
      ensures Ok() && ttl == old(ttl)
      ensures State() == DoResize(old(State()), capacity)
    {
      var n := if capacity <= 0 then 1 else capacity;
      this.capacity := n;
      stats := stats.(capacity := n);
      ghost var start := State();
      while |order| > n
        invariant Ok() && ttl == old(ttl)
        invariant EvictDownTo(State(), n) == EvictDownTo(start, n)
        decreases |order|
      {
        EvictBack();
      }
    }
  }
}
