/**
 The two views both caches keep of their entries: the recency list and the map that finds an entry by its
 key.  The map must always be the index of the list.
 */
module ListIndex {
  import opened Options
  import opened LruModel

  /** The map that finds every listed entry by its key. */
  ghost function Index<K, V>(s: seq<Entry<K, V>>): map<K, Entry<K, V>> {
    if s == [] then map[] else Index(s[1..])[s[0].key := s[0]]
  }

  ghost predicate Linked<K, V>(items: map<K, Entry<K, V>>, order: seq<Entry<K, V>>) {
    items == Index(order) && Unique(order)
  }

  /** Looking a key up in the map is searching the list. */
  lemma {:induction false} LookupIsFind<K, V>(s: seq<Entry<K, V>>, k: K)
    ensures Find(s, k) == if k in Index(s) then Some(Index(s)[k]) else None
    ensures k in Index(s) ==> Index(s)[k].key == k
  {
    if s != [] { LookupIsFind(s[1..], k); }
  }

  /** Deleting a key from the list deletes it from the map. */
  lemma {:induction false} IndexWithout<K, V>(s: seq<Entry<K, V>>, k: K)
    ensures Index(Keep(s, OtherThan(k))) == Index(s) - {k}
  {
    if s != [] { IndexWithout(s[1..], k); }
  }

  lemma UnlinkKeepsLinked<K, V>(s: seq<Entry<K, V>>, k: K)
    requires Unique(s)
    ensures Linked(Index(s) - {k}, Keep(s, OtherThan(k)))
  {
    IndexWithout(s, k);
    KeepUnique(s, OtherThan(k));
  }

  /** Pushing an entry whose key is not listed. */
  lemma PushKeepsLinked<K, V>(s: seq<Entry<K, V>>, e: Entry<K, V>)
    requires Unique(s) && e.key !in Index(s)
    ensures Linked(Index(s)[e.key := e], [e] + s)
  {
    LookupIsFind(s, e.key);
    FindMembers(s, e.key);
    assert ([e] + s)[1..] == s;
  }

  /** Putting an entry in front of a list from which its key was taken out. */
  lemma MoveKeepsLinked<K, V>(s: seq<Entry<K, V>>, e: Entry<K, V>)
    requires Unique(s)
    ensures Linked(Index(s)[e.key := e], [e] + Keep(s, OtherThan(e.key)))
  {
    UnlinkKeepsLinked(s, e.key);
    PushKeepsLinked(Keep(s, OtherThan(e.key)), e);
    assert (Index(s) - {e.key})[e.key := e] == Index(s)[e.key := e];
  }

  /** The entry at position `i` is the only one with its key. */
  lemma {:induction false} KeepAt<K, V>(s: seq<Entry<K, V>>, i: nat)
    requires i < |s| && Unique(s)
    ensures Keep(s, OtherThan(s[i].key)) == s[..i] + s[i + 1..]
    ensures Find(s, s[i].key) == Some(s[i])
  {
    if i == 0 {
      KeepAll(s[1..], OtherThan(s[0].key));
    } else {
      KeepAt(s[1..], i - 1);
      assert s[..i] + s[i + 1..] == [s[0]] + (s[1..][..i - 1] + s[1..][i..]);
    }
  }
}
