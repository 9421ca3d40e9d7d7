/**
 The inclusion property of LRU: the same trace at the same clock readings, on a smaller and a larger
 capacity, keeps the smaller recency list a subsequence of the larger one.
 */
module LruInclusion {
  import opened Options
  import opened LruModel

  /** `s` is a subsequence of `l`; leftmost matching suffices. */
  ghost predicate Sub<T>(s: seq<T>, l: seq<T>) {
    s == [] || (l != [] && if s[0] == l[0] then Sub(s[1..], l[1..]) else Sub(s, l[1..]))
  }

  /** The operations the property speaks about: all but `Resize`. */
  ghost predicate NoResize<K, V>(ops: seq<Op<K, V>>) {
    forall i :: 0 <= i < |ops| ==> !ops[i].Resize?
  }

  /** The simulation relation: a subsequence, and at least as many free slots in the larger cache. */
  ghost predicate Included<K, V>(small: Cache<K, V>, large: Cache<K, V>) {
    && Valid(small) && Valid(large)
    && small.capacity <= large.capacity
    && Sub(small.order, large.order)
    && small.capacity - |small.order| <= large.capacity - |large.order|
  }

  predicate Hit<V>(r: Reply<V>) {
    r.Found? && r.value.Some?
  }

  // ---------- subsequences ----------

  lemma {:induction false} SubLength<T>(s: seq<T>, l: seq<T>)
    requires Sub(s, l)
    ensures |s| <= |l|
  {
    if s != [] { if s[0] == l[0] { SubLength(s[1..], l[1..]); } else { SubLength(s, l[1..]); } }
  }

  lemma {:induction false} SubMember<T>(s: seq<T>, l: seq<T>, x: T)
    requires Sub(s, l) && x in s
    ensures x in l
  {
    if s[0] == l[0] {
      if x != s[0] { SubMember(s[1..], l[1..], x); }
    } else {
      SubMember(s, l[1..], x);
    }
  }

  /** Growing the longer sequence at its head. */
  lemma {:induction false} SubWiden<T>(s: seq<T>, l: seq<T>, x: T)
    requires Sub(s, l)
    ensures Sub(s, [x] + l)
    decreases |l|, 1
  {
    assert ([x] + l)[1..] == l;
    if s != [] && s[0] == x { SubTail(s, l); }
  }

  /** Dropping the head of the subsequence. */
  lemma {:induction false} SubTail<T>(s: seq<T>, l: seq<T>)
    requires Sub(s, l) && s != []
    ensures Sub(s[1..], l)
    decreases |l|, 0
  {
    assert l == [l[0]] + l[1..];
    if s[0] != l[0] { SubTail(s, l[1..]); }
    SubWiden(s[1..], l[1..], l[0]);
  }

  lemma {:induction false} SubDropLast<T>(s: seq<T>, l: seq<T>)
    requires Sub(s, l) && s != []
    ensures Sub(s[..|s| - 1], l[..|l| - 1])
    decreases |l|
  {
    SubLength(s, l);
    var s', l' := s[..|s| - 1], l[..|l| - 1];
    if |s| > 1 {
      if s[0] == l[0] {
        SubDropLast(s[1..], l[1..]);
        SubLength(s[1..], l[1..]);
        assert s'[1..] == s[1..][..|s| - 2] && l'[1..] == l[1..][..|l| - 2];
      } else {
        SubDropLast(s, l[1..]);
        SubLength(s, l[1..]);
        assert l'[1..] == l[1..][..|l| - 2];
      }
    }
  }

  lemma {:induction false} SubInit<T>(s: seq<T>, l: seq<T>)
    requires Sub(s, l) && s != []
    ensures Sub(s[..|s| - 1], l)
    decreases |l|
  {
    if s[0] == l[0] {
      if |s| > 1 {
        SubInit(s[1..], l[1..]);
        assert s[..|s| - 1][1..] == s[1..][..|s| - 2];
      }
    } else {
      SubInit(s, l[1..]);
    }
  }

  /** The same selection on both sides keeps the relation and drops no more on the smaller side. */
  lemma {:induction false} SubKeep<K, V>(s: seq<Entry<K, V>>, l: seq<Entry<K, V>>, p: Entry<K, V> -> bool)
    requires Sub(s, l)
    ensures Sub(Keep(s, p), Keep(l, p))
    ensures |s| - |Keep(s, p)| <= |l| - |Keep(l, p)|
    decreases |l|
  {
    if s == [] {
      KeepLength(l, p);
    } else if s[0] == l[0] {
      SubKeep(s[1..], l[1..], p);
      if p(s[0]) {
        SubPush(Keep(s[1..], p), Keep(l[1..], p), s[0]);
      }
    } else {
      SubKeep(s, l[1..], p);
      if p(l[0]) {
        SubWiden(Keep(s, p), Keep(l[1..], p), l[0]);
      }
    }
  }

  lemma {:induction false} KeepLength<K, V>(s: seq<Entry<K, V>>, p: Entry<K, V> -> bool)
    ensures |Keep(s, p)| <= |s|
  {
    if s != [] { KeepLength(s[1..], p); }
  }

  // ---------- one operation on both caches ----------

  /** Pushing the same entry in front of both lists, after dropping its key from both. */
  lemma SubPush<K, V>(s: seq<Entry<K, V>>, l: seq<Entry<K, V>>, e: Entry<K, V>)
    requires Sub(s, l)
    ensures Sub([e] + s, [e] + l)
  {
    assert ([e] + s)[1..] == s && ([e] + l)[1..] == l;
  }

  /** An entry found in the smaller list is the entry found in the larger one. */
  lemma SubFind<K, V>(s: seq<Entry<K, V>>, l: seq<Entry<K, V>>, k: K)
    requires Sub(s, l) && Unique(l)
    ensures Find(s, k).Some? ==> Find(l, k) == Find(s, k)
    ensures Find(l, k).Some? ==> Find(l, k).value.key == k
    ensures Find(s, k).None? ==> Keep(s, OtherThan(k)) == s
  {
    FindMembers(s, k);
    FindMembers(l, k);
    if Find(s, k).Some? { SubMember(s, l, Find(s, k).value); } else { KeepAll(s, OtherThan(k)); }
  }

  /** What `Put` leaves of the list behind the entry it pushes. */
  ghost function PutRest<K, V>(c: Cache<K, V>, k: K): seq<Entry<K, V>> {
    if Find(c.order, k).Some? then Keep(c.order, OtherThan(k))
    else if |c.order| >= c.capacity && c.order != [] then c.order[..|c.order| - 1]
    else c.order
  }

  lemma PutRestIncluded<K, V>(s: Cache<K, V>, l: Cache<K, V>, k: K)
    requires Included(s, l)
    ensures Sub(PutRest(s, k), PutRest(l, k))
  {
    SubFind(s.order, l.order, k);
    SubKeep(s.order, l.order, OtherThan(k));
    if Find(s.order, k).None? && |s.order| >= s.capacity {
      if Find(l.order, k).Some? {
        SubInit(s.order, Keep(l.order, OtherThan(k)));
      } else if |l.order| >= l.capacity {
        SubDropLast(s.order, l.order);
      } else {
        SubInit(s.order, l.order);
      }
    }
  }

  lemma PutKeepsInclusion<K, V>(s: Cache<K, V>, l: Cache<K, V>, op: Op<K, V>)
    requires Included(s, l) && op.Put?
    ensures Included(Step(s, op).0, Step(l, op).0)
  {
    var k := op.key;
    StepKeepsValid(s, op);
    StepKeepsValid(l, op);
    PutRestIncluded(s, l, k);
    SubPush(PutRest(s, k), PutRest(l, k), Entry(k, op.value, Deadline(op.ttl, op.now)));
    assert Find(s.order, k).Some? ==> Find(l.order, k).Some? by { SubFind(s.order, l.order, k); }
    KeepOthers(s.order, k);
    KeepOthers(l.order, k);
  }

  lemma GetKeepsInclusion<K, V>(s: Cache<K, V>, l: Cache<K, V>, op: Op<K, V>)
    requires Included(s, l) && op.Get?
    ensures Included(Step(s, op).0, Step(l, op).0)
    ensures Hit(Step(s, op).1) ==> Step(l, op).1 == Step(s, op).1
  {
    StepKeepsValid(s, op);
    StepKeepsValid(l, op);
    var k := op.key;
    SubFind(s.order, l.order, k);
    SubKeep(s.order, l.order, OtherThan(k));
    KeepOthers(s.order, k);
    KeepOthers(l.order, k);
    var s', l' := Keep(s.order, OtherThan(k)), Keep(l.order, OtherThan(k));
    if Find(l.order, k).Some? {
      var e := Find(l.order, k).value;
      SubPush(s', l', e);
      SubWiden(s', l', e);
    }
  }

  lemma StepKeepsInclusion<K, V>(s: Cache<K, V>, l: Cache<K, V>, op: Op<K, V>)
    requires Included(s, l) && !op.Resize?
    ensures Included(Step(s, op).0, Step(l, op).0)
    ensures Hit(Step(s, op).1) ==> Step(l, op).1 == Step(s, op).1
  {
    match op
    case Put(_, _, _, _) => PutKeepsInclusion(s, l, op);
    case Get(_, _) => GetKeepsInclusion(s, l, op);
    case Remove(k) =>
      StepKeepsValid(s, op);
      StepKeepsValid(l, op);
      SubFind(s.order, l.order, k);
      SubKeep(s.order, l.order, OtherThan(k));
      KeepOthers(s.order, k);
      KeepOthers(l.order, k);
    case Cleanup(now) =>
      StepKeepsValid(s, op);
      StepKeepsValid(l, op);
      SubKeep(s.order, l.order, AliveAt(now));
    case Clear =>
  }

  // ---------- whole runs ----------

  lemma {:induction false} RunKeepsInclusion<K, V>(s: Cache<K, V>, l: Cache<K, V>, ops: seq<Op<K, V>>)
    requires Included(s, l) && NoResize(ops)
    ensures Included(Run(s, ops), Run(l, ops))
    ensures forall i :: 0 <= i < |ops| && Hit(Replies(s, ops)[i])
                        ==> Replies(l, ops)[i] == Replies(s, ops)[i]
    decreases |ops|
  {
    if ops != [] {
      StepKeepsInclusion(s, l, ops[0]);
      RunKeepsInclusion(Step(s, ops[0]).0, Step(l, ops[0]).0, ops[1..]);
    }
  }

  /**
   For every trace without `Resize` and capacities `c <= d`: the smaller cache's list is a subsequence of
   the larger's (same keys, values and expiries in the same order), and every hit in the smaller cache is
   a hit in the larger one with the same value.
   */
  lemma Inclusion<K, V>(c: int, d: int, ops: seq<Op<K, V>>)
    requires c <= d && NoResize(ops)
    ensures Sub(Run(New(c), ops).order, Run(New(d), ops).order)
    ensures forall i :: 0 <= i < |ops| && Hit(Replies(New(c), ops)[i])
                        ==> Replies(New(d), ops)[i] == Replies(New(c), ops)[i]
  {
    RunKeepsInclusion(New(c), New(d), ops);
  }

  /** With `Resize` in the trace the property fails: a hit only in the larger cache changes who survives. */
  lemma ResizeBreaksInclusion()
    ensures exists ops: seq<Op<int, int>> :: !Sub(Run(New(1), ops).order, Run(New(2), ops).order)
  {
    var ops: seq<Op<int, int>> := [Put(1, 1, 0, 0), Put(2, 2, 0, 0), Get(1, 0), Resize(1)];
    SmallSurvivor(ops);
    LargeSurvivor(ops);
  }

  lemma SmallSurvivor(ops: seq<Op<int, int>>)
    requires ops == [Put(1, 1, 0, 0), Put(2, 2, 0, 0), Get(1, 0), Resize(1)]
    ensures Run(New(1), ops).order == [Entry(2, 2, None)]
  {
    RunFour(New(1), ops);
    var c := Step(Step(New(1), ops[0]).0, ops[1]).0;
    assert c.order == [Entry(2, 2, None)];
    assert Step(c, ops[2]).0.order == [Entry(2, 2, None)];
  }

  lemma LargeSurvivor(ops: seq<Op<int, int>>)
    requires ops == [Put(1, 1, 0, 0), Put(2, 2, 0, 0), Get(1, 0), Resize(1)]
    ensures Run(New(2), ops).order == [Entry(1, 1, None)]
  {
    var e1, e2 := Entry(1, 1, None), Entry(2, 2, None);
    RunFour(New(2), ops);
    var c := Step(Step(New(2), ops[0]).0, ops[1]).0;
    assert c.order == [e2, e1];
    assert Find(c.order, 1) == Some(e1) && Keep(c.order[1..], OtherThan(1)) == [];
    var d := Step(c, ops[2]).0;
    assert d.order == [e1, e2];
    EvictDownToKeeps(d.(capacity := 1, stats := d.stats.(capacity := 1)), 1);
  }

  lemma RunFour<K, V>(c: Cache<K, V>, ops: seq<Op<K, V>>)
    requires |ops| == 4
    ensures Run(c, ops) == Step(Step(Step(Step(c, ops[0]).0, ops[1]).0, ops[2]).0, ops[3]).0
  {
    var c1 := Step(c, ops[0]).0;
    var c2 := Step(c1, ops[1]).0;
    var c3 := Step(c2, ops[2]).0;
    assert Run(c1, ops[1..]) == Run(c2, ops[2..]) by { assert ops[1..][1..] == ops[2..]; }
    assert Run(c2, ops[2..]) == Run(c3, ops[3..]) by { assert ops[2..][1..] == ops[3..]; }
    assert Run(c3, ops[3..]) == Run(Step(c3, ops[3]).0, []) by { assert ops[3..][1..] == []; }
  }
}
