/**
 A bounded least-recently-used map, and the argument for relying on one in front of a store
 that lags behind: what was used recently enough cannot have been evicted.
 */
module LruCache {
  import opened Headers

  /** Entries are ordered by recency, the most recently used first. */
  datatype Lru<K(==), V> = Lru(cap: nat, entries: seq<(K, V)>) {

    ghost predicate Valid() {
      && 1 <= cap
      && |entries| <= cap
      && forall i, j :: 0 <= i < j < |entries| ==> entries[i].0 != entries[j].0
    }

    /** Position of `k`, or the length when it is not resident. */
    function IndexOf(k: K): (i: nat)
      ensures i <= |entries|
      ensures i < |entries| ==> entries[i].0 == k
      ensures forall j :: 0 <= j < i ==> entries[j].0 != k
    {
      Search(entries, k)
    }

    predicate Has(k: K) {
      IndexOf(k) < |entries|
    }

    function Peek(k: K): Option<V> {
      if Has(k) then Some(entries[IndexOf(k)].1) else None
    }

    function Pop(k: K): Lru<K, V> {
      if Has(k) then Lru(cap, entries[..IndexOf(k)] + entries[IndexOf(k) + 1..]) else this
    }

    function Put(k: K, v: V): Lru<K, V>
      requires Valid()
    {
      PopKeeps(k);
      var rest := Pop(k).entries;
      Lru(cap, [(k, v)] + if |rest| == cap then rest[..cap - 1] else rest)
    }

    /** Read through to `loaded`, what the loader behind the cache returns for `k`. */
    function Read(k: K, loaded: Option<V>): (Lru<K, V>, Option<V>)
      requires Valid()
    {
      if Has(k) then (Put(k, Peek(k).value), Peek(k))
      else if loaded.Some? then (Put(k, loaded.value), loaded)
      else (this, None)
    }

    function Resize(newCap: nat): Lru<K, V>
      requires newCap >= 1
    {
      Lru(newCap, if |entries| <= newCap then entries else entries[..newCap])
    }

    function Clear(): Lru<K, V> {
      Lru(cap, [])
    }

    ghost function Keys(): set<K> {
      set i | 0 <= i < |entries| :: entries[i].0
    }

    lemma PopLacks(k: K, other: K)
      requires !Has(other)
      ensures !Pop(k).Has(other)
    {
      var rest := Pop(k).entries;
      forall i | 0 <= i < |rest|
        ensures rest[i].0 != other
      {
        assert rest[i] == entries[if Has(k) && i >= IndexOf(k) then i + 1 else i];
      }
    }

    lemma PopKeeps(k: K)
      requires Valid()
      ensures Pop(k).Valid()
      ensures !Pop(k).Has(k)
      ensures |Pop(k).entries| == if Has(k) then |entries| - 1 else |entries|
    {
    }

    lemma PutKeeps(k: K, v: V)
      requires Valid()
      ensures Put(k, v).Valid()
      ensures Put(k, v).Peek(k) == Some(v)
      ensures forall o :: o != k && Put(k, v).Has(o) ==> Has(o) && Put(k, v).Peek(o) == Peek(o)
    {
      PopKeeps(k);
      PopOthers(k);
      var next := Put(k, v);
      forall o | o != k && next.Has(o)
        ensures Has(o) && next.Peek(o) == Peek(o)
      {
        var i := next.IndexOf(o);
        assert next.entries[i] == Pop(k).entries[i - 1];
        Pop(k).PeekAt(i - 1);
      }
    }

    /** Removing a key leaves the other entries as they were, in the same order. */
    lemma PopOthers(k: K)
      requires Valid()
      ensures forall o :: o != k ==> Pop(k).Peek(o) == Peek(o)
    {
      PopKeeps(k);
      forall o | o != k
        ensures Pop(k).Peek(o) == Peek(o)
      {
        if Has(k) {
          var at, i := IndexOf(k), IndexOf(o);
          if i < |entries| {
            var i' := if i < at then i else i - 1;
            assert Pop(k).entries[i'] == entries[i];
            Pop(k).PeekAt(i');
          }
        }
      }
    }

    lemma PeekAt(i: nat)
      requires Valid() && i < |entries|
      ensures Has(entries[i].0) && IndexOf(entries[i].0) == i
      ensures Peek(entries[i].0) == Some(entries[i].1)
    {
    }

    lemma ReadKeeps(k: K, loaded: Option<V>)
      requires Valid()
      ensures Read(k, loaded).0.Valid()
      ensures Read(k, loaded).1 == if Has(k) then Peek(k) else loaded
      ensures Read(k, loaded).0.Peek(k) == Read(k, loaded).1
      ensures forall o :: o != k && Read(k, loaded).0.Has(o) ==> Has(o) && Read(k, loaded).0.Peek(o) == Peek(o)
    {
      if Has(k) {
        PutKeeps(k, Peek(k).value);
      } else if loaded.Some? {
        PutKeeps(k, loaded.value);
      }
    }

    // ---- Residency ----

    /** `k` is resident with value `v`, and everything used since then lies in `window`. */
    ghost predicate Held(k: K, v: V, window: set<K>) {
      exists i: nat :: HeldAt(i, k, v, window)
    }

    ghost predicate HeldAt(i: nat, k: K, v: V, window: set<K>) {
      i < |entries| && entries[i] == (k, v) && forall j :: 0 <= j <= i ==> entries[j].0 in window
    }

    lemma HeldIsResident(k: K, v: V, window: set<K>)
      requires Valid() && Held(k, v, window)
      ensures Peek(k) == Some(v)
      ensures k in window
    {
      var i: nat :| HeldAt(i, k, v, window);
      PeekAt(i);
    }

    lemma {:induction false} PrefixFits(n: nat, window: set<K>)
      requires Valid() && n <= |entries|
      requires forall j :: 0 <= j < n ==> entries[j].0 in window
      ensures n <= |window|
      ensures n == |window| ==> forall k :: k in window ==> exists j :: 0 <= j < n && entries[j].0 == k
      decreases n
    {
      if n > 0 {
        var last := entries[n - 1].0;
        PrefixFits(n - 1, window - {last});
        assert |window| == |window - {last}| + 1;
        forall k | n == |window| && k in window
          ensures exists j :: 0 <= j < n && entries[j].0 == k
        {
          if k == last {
            assert entries[n - 1].0 == k;
          } else {
            assert k in window - {last};
          }
        }
      } else if |window| == 0 {
        assert window == {};
      }
    }

    /** Using a key of the window cannot push out another one held there, if the window fits the cache. */
    lemma PutHolds(k: K, w: V, o: K, v: V, window: set<K>)
      requires Valid() && Held(o, v, window) && o != k
      requires k in window && |window| <= cap
      ensures Put(k, w).Valid() && Put(k, w).Held(o, v, window)
    {
      PutKeeps(k, w);
      PopKeeps(k);
      var i: nat :| HeldAt(i, o, v, window);
      var at, next := IndexOf(k), Put(k, w);
      if Has(k) {
        if i < at {
          assert next.entries[i + 1] == entries[i];
          assert next.HeldAt(i + 1, o, v, window);
        } else {
          assert next.entries[i] == entries[i];
          assert forall j :: 0 < j <= at ==> next.entries[j] == entries[j - 1];
          assert next.HeldAt(i, o, v, window);
        }
      } else {
        assert i < cap - 1 by {
          if i == cap - 1 {
            PrefixFits(cap, window);
          }
        }
        assert next.entries[i + 1] == entries[i];
        assert next.HeldAt(i + 1, o, v, window);
      }
    }

    lemma PutHoldsItself(k: K, v: V, window: set<K>)
      requires Valid() && k in window
      ensures Put(k, v).Valid() && Put(k, v).Held(k, v, window)
    {
      PutKeeps(k, v);
      assert Put(k, v).HeldAt(0, k, v, window);
    }

    lemma PopHolds(k: K, o: K, v: V, window: set<K>)
      requires Valid() && Held(o, v, window) && o != k
      ensures Pop(k).Valid() && Pop(k).Held(o, v, window)
    {
      PopKeeps(k);
      var i: nat :| HeldAt(i, o, v, window);
      if Has(k) {
        var at, rest := IndexOf(k), Pop(k);
        var left := if i < at then i else i - 1;
        forall j | 0 <= j <= left
          ensures rest.entries[j] == entries[if j < at then j else j + 1]
        {
        }
        assert rest.HeldAt(left, o, v, window);
      }
    }

    lemma ResizeHolds(newCap: nat, o: K, v: V, window: set<K>)
      requires Valid() && Held(o, v, window)
      requires |window| <= newCap && newCap >= 1
      ensures Resize(newCap).Valid() && Resize(newCap).Held(o, v, window)
    {
      var i: nat :| HeldAt(i, o, v, window);
      PrefixFits(i + 1, window);
      assert Resize(newCap).HeldAt(i, o, v, window);
    }
  }

  function Search<K(==), V>(entries: seq<(K, V)>, k: K): (i: nat)
    ensures i <= |entries|
    ensures i < |entries| ==> entries[i].0 == k
    ensures forall j :: 0 <= j < i ==> entries[j].0 != k
  {
    if entries == [] || entries[0].0 == k then 0 else 1 + Search(entries[1..], k)
  }
}
