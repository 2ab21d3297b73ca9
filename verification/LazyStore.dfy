/**
 The header and score caches in front of the store. The store lags behind the chain, so what
 matters is that a height either reads back from the loader or cannot have been evicted.
 */
module LazyStore {
  import opened Seals
  import opened Headers
  import opened LruCache
  import opened Store

  /** `k` reads as `v`: it is held in the cache, or the loader agrees and nothing stale shadows it. */
  ghost predicate Resolves<V>(cache: Lru<nat, V>, view: map<nat, V>, k: nat, v: V, window: set<nat>) {
    cache.Held(k, v, window) || Clean(cache, view, k, v)
  }

  ghost predicate Clean<V>(cache: Lru<nat, V>, view: map<nat, V>, k: nat, v: V) {
    Get(view, k) == Some(v) && (cache.Has(k) ==> cache.Peek(k) == Some(v))
  }

  /** Every height from `base` up reads as the corresponding element of `truth`. */
  ghost predicate Pinned<V>(cache: Lru<nat, V>, view: map<nat, V>, base: nat, truth: seq<V>, window: set<nat>) {
    forall i {:trigger Pin(i)} :: Pin(i) && 0 <= i < |truth| ==> Resolves(cache, view, base + i, truth[i], window)
  }

  lemma ReadResolves<V>(cache: Lru<nat, V>, view: map<nat, V>, k: nat, o: nat, v: V, window: set<nat>)
    requires cache.Valid() && Resolves(cache, view, o, v, window)
    requires k in window && |window| <= cache.cap
    ensures Resolves(cache.Read(k, Get(view, k)).0, view, o, v, window)
    ensures o == k ==> cache.Read(k, Get(view, k)).1 == Some(v)
  {
    var next := cache.Read(k, Get(view, k)).0;
    cache.ReadKeeps(k, Get(view, k));
    if cache.Held(o, v, window) {
      cache.HeldIsResident(o, v, window);
      if o == k {
        cache.PutHoldsItself(k, v, window);
      } else if cache.Has(k) {
        cache.PutHolds(k, cache.Peek(k).value, o, v, window);
      } else if k in view {
        cache.PutHolds(k, view[k], o, v, window);
      }
    }
  }

  lemma ReadPinned<V>(cache: Lru<nat, V>, view: map<nat, V>, base: nat, truth: seq<V>, window: set<nat>, k: nat)
    requires cache.Valid() && Pinned(cache, view, base, truth, window)
    requires k in window && |window| <= cache.cap
    ensures Pinned(cache.Read(k, Get(view, k)).0, view, base, truth, window)
    ensures base <= k < base + |truth| ==> cache.Read(k, Get(view, k)).1 == Some(truth[k - base])
  {
    forall i | 0 <= i < |truth|
      ensures Resolves(cache.Read(k, Get(view, k)).0, view, base + i, truth[i], window)
      ensures base + i == k ==> cache.Read(k, Get(view, k)).1 == Some(truth[i])
    {
      assert Pin(i);
      ReadResolves(cache, view, k, base + i, truth[i], window);
    }
  }

  lemma PushPinned<V>(cache: Lru<nat, V>, view: map<nat, V>, base: nat, truth: seq<V>, window: set<nat>, k: nat, v: V)
    requires cache.Valid() && Pinned(cache, view, base, truth, window)
    requires k == base + |truth| && k in window && |window| <= cache.cap
    ensures Pinned(cache.Put(k, v), view, base, truth + [v], window)
  {
    cache.PutKeeps(k, v);
    forall i | 0 <= i < |truth + [v]|
      ensures Resolves(cache.Put(k, v), view, base + i, (truth + [v])[i], window)
    {
      if i == |truth| {
        cache.PutHoldsItself(k, v, window);
      } else {
        assert Pin(i);
        if cache.Held(base + i, truth[i], window) {
          cache.PutHolds(k, v, base + i, truth[i], window);
        }
      }
    }
  }

  lemma PopPinned<V>(cache: Lru<nat, V>, view: map<nat, V>, base: nat, truth: seq<V>, window: set<nat>, k: nat, m: nat)
    requires cache.Valid() && Pinned(cache, view, base, truth, window)
    requires m <= |truth| && base + m <= k
    ensures Pinned(cache.Pop(k), view, base, truth[..m], window)
  {
    cache.PopKeeps(k);
    cache.PopOthers(k);
    forall i | 0 <= i < m
      ensures Resolves(cache.Pop(k), view, base + i, truth[..m][i], window)
    {
      assert Pin(i);
      if cache.Held(base + i, truth[i], window) {
        cache.PopHolds(k, base + i, truth[i], window);
      }
    }
  }

  lemma ResizePinned<V>(cache: Lru<nat, V>, view: map<nat, V>, base: nat, truth: seq<V>, window: set<nat>, newCap: nat)
    requires cache.Valid() && Pinned(cache, view, base, truth, window)
    requires |window| <= newCap && newCap >= 1
    ensures Pinned(cache.Resize(newCap), view, base, truth, window)
  {
    var next := cache.Resize(newCap);
    forall i | 0 <= i < |truth|
      ensures Resolves(next, view, base + i, truth[i], window)
    {
      assert Pin(i);
      if cache.Held(base + i, truth[i], window) {
        cache.ResizeHolds(newCap, base + i, truth[i], window);
      } else if next.Has(base + i) {
        cache.PeekAt(next.IndexOf(base + i));
      }
    }
  }

  /** The loader learnt new heights or the truth about old ones, and forgot nothing. */
  ghost predicate Improves<V>(view: map<nat, V>, now: map<nat, V>, base: nat, truth: seq<V>) {
    forall i {:trigger Pin(i)} :: Pin(i) && 0 <= i < |truth| ==>
      base + i !in view || Get(now, base + i) == Get(view, base + i) || Get(now, base + i) == Some(truth[i])
  }

  lemma ImprovePinned<V>(cache: Lru<nat, V>, view: map<nat, V>, now: map<nat, V>, base: nat, truth: seq<V>, window: set<nat>)
    requires Pinned(cache, view, base, truth, window) && Improves(view, now, base, truth)
    ensures Pinned(cache, now, base, truth, window)
  {
    forall i | 0 <= i < |truth|
      ensures Resolves(cache, now, base + i, truth[i], window)
    {
      assert Pin(i);
    }
  }

  // ---- A loader that has caught up ----

  /** The loader has every element of `truth`, and nothing stale is resident. */
  ghost predicate AllClean<V>(cache: Lru<nat, V>, view: map<nat, V>, base: nat, truth: seq<V>) {
    forall i {:trigger Pin(i)} :: Pin(i) && 0 <= i < |truth| ==> Clean(cache, view, base + i, truth[i])
  }

  lemma CleanPinned<V>(cache: Lru<nat, V>, view: map<nat, V>, base: nat, truth: seq<V>, window: set<nat>)
    requires AllClean(cache, view, base, truth)
    ensures Pinned(cache, view, base, truth, window)
  {
  }

  /** Pinned heights are clean once the loader has them all. */
  lemma PinnedClean<V>(cache: Lru<nat, V>, view: map<nat, V>, base: nat, truth: seq<V>, window: set<nat>)
    requires cache.Valid() && Pinned(cache, view, base, truth, window)
    requires forall i {:trigger truth[i]} :: 0 <= i < |truth| ==> Get(view, base + i) == Some(truth[i])
    ensures AllClean(cache, view, base, truth)
  {
    forall i | 0 <= i < |truth|
      ensures Clean(cache, view, base + i, truth[i])
    {
      assert Pin(i) && Get(view, base + i) == Some(truth[i]);
      if cache.Held(base + i, truth[i], window) {
        cache.HeldIsResident(base + i, truth[i], window);
      }
    }
  }

  /** Reading any height, however many, leaves every height readable. */
  lemma ReadClean<V>(cache: Lru<nat, V>, view: map<nat, V>, base: nat, truth: seq<V>, k: nat)
    requires cache.Valid() && AllClean(cache, view, base, truth)
    ensures AllClean(cache.Read(k, Get(view, k)).0, view, base, truth)
    ensures base <= k < base + |truth| ==> cache.Read(k, Get(view, k)).1 == Some(truth[k - base])
  {
    var next := cache.Read(k, Get(view, k)).0;
    cache.ReadKeeps(k, Get(view, k));
    forall i | 0 <= i < |truth|
      ensures Clean(next, view, base + i, truth[i])
      ensures base + i == k ==> cache.Read(k, Get(view, k)).1 == Some(truth[i])
    {
      assert Pin(i);
    }
  }

  lemma PopClean<V>(cache: Lru<nat, V>, view: map<nat, V>, base: nat, truth: seq<V>, k: nat)
    requires cache.Valid() && AllClean(cache, view, base, truth)
    ensures AllClean(cache.Pop(k), view, base, truth)
  {
    cache.PopKeeps(k);
    cache.PopOthers(k);
    forall i | 0 <= i < |truth|
      ensures Clean(cache.Pop(k), view, base + i, truth[i])
    {
      assert Pin(i);
      assert base + i != k ==> cache.Pop(k).Peek(base + i) == cache.Peek(base + i);
    }
  }

  lemma ResizeClean<V>(cache: Lru<nat, V>, view: map<nat, V>, base: nat, truth: seq<V>, newCap: nat)
    requires cache.Valid() && newCap >= 1 && AllClean(cache, view, base, truth)
    ensures AllClean(cache.Resize(newCap), view, base, truth)
  {
    var next := cache.Resize(newCap);
    forall i | 0 <= i < |truth|
      ensures Clean(next, view, base + i, truth[i])
    {
      assert Pin(i);
      if next.Has(base + i) {
        cache.PeekAt(next.IndexOf(base + i));
      }
    }
  }

  lemma ImproveClean<V>(cache: Lru<nat, V>, view: map<nat, V>, now: map<nat, V>, base: nat, truth: seq<V>)
    requires AllClean(cache, view, base, truth) && Improves(view, now, base, truth)
    ensures AllClean(cache, now, base, truth)
  {
    forall i | 0 <= i < |truth|
      ensures Clean(cache, now, base + i, truth[i])
    {
      assert Pin(i);
    }
  }

  lemma PrefixClean<V>(cache: Lru<nat, V>, view: map<nat, V>, base: nat, truth: seq<V>, k: nat)
    requires AllClean(cache, view, base, truth) && k <= |truth|
    ensures AllClean(cache, view, base, truth[..k])
  {
  }

  class LazyHeaderStore {
    var headers: Lru<nat, Header>
    var scores: Lru<nat, nat>
    /** What the registered loaders read; null until they are wired. */
    var loader: ModifierStore?
    /** The loader has all that is being served, so that no read can do harm. */
    ghost var calm: bool
    /** While it has not: heights foreseen to be used until it has caught up. */
    ghost var window: set<nat>
    /** Whether a height outside the window has been used meanwhile. */
    ghost var strayed: bool

    constructor (capacity: nat)
      requires capacity >= 1
      ensures Valid() && Capacity() == capacity
      ensures headers.entries == [] && scores.entries == [] && loader == null
      ensures calm && window == {} && !strayed
    {
      headers, scores := Lru(capacity, []), Lru(capacity, []);
      loader := null;
      calm, window, strayed := true, {}, false;
    }

    /** Residency never exceeds the capacity, which both caches share. */
    ghost predicate Valid()
      reads this`headers, this`scores
    {
      headers.Valid() && scores.Valid() && headers.cap == scores.cap
    }

    ghost function Capacity(): nat
      reads this`headers
    {
      headers.cap
    }

    /** Only heights of the window have been used, and the caches have room for all of them. */
    ghost predicate Fits()
      reads this`headers, this`window, this`strayed
    {
      !strayed && |window| <= Capacity()
    }

    ghost function HeaderView(): map<nat, Header>
      reads this`loader, loader
    {
      if loader == null then map[] else loader.HeaderView()
    }

    ghost function ScoreView(): map<nat, nat>
      reads this`loader, loader
    {
      if loader == null then map[] else loader.ScoreView()
    }

    /** The loader has `hs` from `base` up and their scores, and nothing stale is resident. */
    ghost predicate Settled(base: nat, hs: seq<Header>, ss: seq<nat>)
      reads this, loader
    {
      && AllClean(headers, HeaderView(), base, hs)
      && AllClean(scores, ScoreView(), base, ss)
    }

    /**
     As long as the heights in use fit, `base + i` reads as `hs[i]` and its score as `ss[i]`. While
     the loader has everything, no height counts as being in use.
     */
    ghost predicate Serves(base: nat, hs: seq<Header>, ss: seq<nat>)
      reads this, loader
    {
      Fits() ==>
        && (calm ==> Settled(base, hs, ss))
        && Pinned(headers, HeaderView(), base, hs, window)
        && Pinned(scores, ScoreView(), base, ss, window)
    }

    /** `Serves`, sealed. */
    ghost function Serving(base: nat, hs: seq<Header>, ss: seq<nat>): Health
      reads this, loader
    {
      if forall k: int {:trigger Unsealed((base, hs, ss), k)} :: Unsealed((base, hs, ss), k) ==> Serves(base, hs, ss) then Intact else Broken
    }

    lemma OpenServing(base: nat, hs: seq<Header>, ss: seq<nat>)
      requires Serving(base, hs, ss) == Intact
      ensures Serves(base, hs, ss)
    {
      assert Unsealed((base, hs, ss), 0);
    }

    lemma ServesNothing(base: nat)
      ensures Serving(base, [], []) == Intact
    {
    }

    /** What reading a header would find: the resident one, or what the loader has. */
    ghost function Seen(height: nat): Option<Header>
      reads this, loader
    {
      if headers.Has(height) then headers.Peek(height) else Get(HeaderView(), height)
    }

    /** Every header resident between `lo` and `hi` is also the loader's. */
    ghost predicate Mirrors(lo: int, hi: int)
      reads this, loader
    {
      forall h: nat {:trigger Seen(h)} :: lo <= h <= hi ==> Seen(h) == Get(HeaderView(), h)
    }

    lemma ServesPrefix(base: nat, hs: seq<Header>, ss: seq<nat>, k: nat)
      requires Serving(base, hs, ss) == Intact && k <= |hs| && k <= |ss|
      ensures Serving(base, hs[..k], ss[..k]) == Intact
    {
      OpenServing(base, hs, ss);
      if Fits() {
        if calm {
          PrefixClean(headers, HeaderView(), base, hs, k);
          PrefixClean(scores, ScoreView(), base, ss, k);
        }
        forall i | 0 <= i < k
          ensures Resolves(headers, HeaderView(), base + i, hs[..k][i], window)
          ensures Resolves(scores, ScoreView(), base + i, ss[..k][i], window)
        {
          assert Pin(i);
        }
      }
    }

    /** The caches serve `hs` on top of these views, as `Serves` says of the loader's own. */
    ghost predicate ServesOver(base: nat, hs: seq<Header>, ss: seq<nat>, headerView: map<nat, Header>, scoreView: map<nat, nat>)
      reads this
    {
      Fits() ==>
        && (calm ==> AllClean(headers, headerView, base, hs) && AllClean(scores, scoreView, base, ss))
        && Pinned(headers, headerView, base, hs, window)
        && Pinned(scores, scoreView, base, ss, window)
    }

    /** The loader may improve behind the caches' back. */
    lemma ServesImproved(base: nat, hs: seq<Header>, ss: seq<nat>, headerView: map<nat, Header>, scoreView: map<nat, nat>)
      requires ServesOver(base, hs, ss, headerView, scoreView)
      requires Fits() ==>
                 Improves(headerView, HeaderView(), base, hs) && Improves(scoreView, ScoreView(), base, ss)
      ensures Serving(base, hs, ss) == Intact
    {
      if Fits() {
        if calm {
          ImproveClean(headers, headerView, HeaderView(), base, hs);
          ImproveClean(scores, scoreView, ScoreView(), base, ss);
        }
        ImprovePinned(headers, headerView, HeaderView(), base, hs, window);
        ImprovePinned(scores, scoreView, ScoreView(), base, ss, window);
      }
    }

    /** A loader that has caught up with a fitting cache leaves it settled. */
    lemma CaughtUp(base: nat, hs: seq<Header>, ss: seq<nat>)
      requires Valid() && Fits() && Serving(base, hs, ss) == Intact
      requires forall i {:trigger hs[i]} :: 0 <= i < |hs| ==> Get(HeaderView(), base + i) == Some(hs[i])
      requires forall i {:trigger ss[i]} :: 0 <= i < |ss| ==> Get(ScoreView(), base + i) == Some(ss[i])
      ensures Settled(base, hs, ss)
    {
      OpenServing(base, hs, ss);
      PinnedClean(headers, HeaderView(), base, hs, window);
      PinnedClean(scores, ScoreView(), base, ss, window);
    }

    /** From here on, until the next header is put, any height may be read. */
    ghost method Settle(base: nat, hs: seq<Header>, ss: seq<nat>)
      requires Settled(base, hs, ss)
      modifies this`calm, this`window, this`strayed
      ensures calm && window == {} && !strayed && Serving(base, hs, ss) == Intact
    {
      calm, window, strayed := true, {}, false;
      CleanPinned(headers, HeaderView(), base, hs, window);
      CleanPinned(scores, ScoreView(), base, ss, window);
    }

    /** While the loader has everything, any set of heights can be foreseen. */
    ghost method Foresee(next: set<nat>, base: nat, hs: seq<Header>, ss: seq<nat>)
      requires calm && Fits() && Serving(base, hs, ss) == Intact
      modifies this`window, this`strayed
      ensures window == next && !strayed && Serving(base, hs, ss) == Intact
    {
      OpenServing(base, hs, ss);
      window, strayed := next, false;
      CleanPinned(headers, HeaderView(), base, hs, window);
      CleanPinned(scores, ScoreView(), base, ss, window);
    }

    /** Where the loader has caught up, the caches hold nothing that it does not. */
    lemma SettledMirrors(base: nat, hs: seq<Header>, ss: seq<nat>, lo: nat, hi: nat)
      requires Settled(base, hs, ss) && base <= lo <= hi < base + |hs|
      ensures Mirrors(lo, hi)
    {
      forall h: nat | lo <= h <= hi
        ensures Seen(h) == Get(HeaderView(), h)
      {
        assert Pin(h - base) && base + (h - base) == h;
      }
    }

    method SetLoader(store: ModifierStore)
      modifies this`loader
      ensures loader == store
    {
      loader := store;
    }

    /**
     Read a header through the cache. Where the loader has caught up the answer is exact for every
     height, whatever the cache holds or evicts; otherwise it is while the window fits.
     */
    method GetHeader(height: nat) returns (r: Option<Header>)
      requires Valid()
      modifies this`headers, this`strayed
      ensures Valid() && Capacity() == old(Capacity())
      ensures strayed == (old(strayed) || (!calm && height !in window))
      ensures r == old(Seen(height)) && headers == old(headers).Read(height, old(Get(HeaderView(), height))).0
      ensures forall lo, hi {:trigger old(Mirrors(lo, hi))} :: old(Mirrors(lo, hi)) && lo <= height <= hi ==> Mirrors(lo, hi)
      ensures forall base: nat, hs: seq<Header>, ss: seq<nat> {:trigger old(Settled(base, hs, ss))} ::
                old(Settled(base, hs, ss)) ==>
                  && Settled(base, hs, ss)
                  && (base <= height < base + |hs| ==> r == Some(hs[height - base]))
      ensures forall base: nat, hs: seq<Header>, ss: seq<nat> {:trigger old(Serving(base, hs, ss))} ::
                old(Serving(base, hs, ss)) == Intact ==>
                  && Serving(base, hs, ss) == Intact
                  && (Fits() && base <= height < base + |hs| ==> r == Some(hs[height - base]))
    {
      r := if headers.Has(height) then headers.Peek(height)
           else if loader == null then None
           else loader.ReadHeaderAt(height);
      headers.ReadKeeps(height, Get(HeaderView(), height));
      assert r == Seen(height);
      ghost var before := headers;
      strayed := strayed || (!calm && height !in window);
      if r.Some? {
        headers := headers.Put(height, r.value);
      }
      forall lo, hi, h: nat | old(Mirrors(lo, hi)) && lo <= height <= hi && lo <= h <= hi
        ensures Seen(h) == Get(HeaderView(), h)
      {
        assert old(Seen(h)) == Get(HeaderView(), h);
        assert headers.Has(h) ==> headers.Peek(h) == if h == height then r else before.Peek(h);
      }
      forall base: nat, hs: seq<Header>, ss: seq<nat> | old(Settled(base, hs, ss))
        ensures Settled(base, hs, ss) && (base <= height < base + |hs| ==> r == Some(hs[height - base]))
      {
        ReadClean(before, HeaderView(), base, hs, height);
      }
      forall base: nat, hs: seq<Header>, ss: seq<nat> | old(Serving(base, hs, ss)) == Intact
        ensures Serving(base, hs, ss) == Intact
        ensures Fits() && base <= height < base + |hs| ==> r == Some(hs[height - base])
      {
        assert Unsealed((base, hs, ss), 0);
        if Fits() && calm {
          ReadClean(before, HeaderView(), base, hs, height);
          CleanPinned(headers, HeaderView(), base, hs, window);
        } else if Fits() {
          ReadPinned(before, HeaderView(), base, hs, window, height);
        }
      }
    }

    method GetScore(height: nat) returns (r: Option<nat>)
      requires Valid()
      modifies this`scores, this`strayed
      ensures Valid() && Capacity() == old(Capacity())
      ensures strayed == (old(strayed) || (!calm && height !in window))
      ensures (scores, r) == old(scores).Read(height, old(Get(ScoreView(), height)))
      ensures forall base: nat, hs: seq<Header>, ss: seq<nat> {:trigger old(Settled(base, hs, ss))} ::
                old(Settled(base, hs, ss)) ==>
                  && Settled(base, hs, ss)
                  && (base <= height < base + |ss| ==> r == Some(ss[height - base]))
      ensures forall base: nat, hs: seq<Header>, ss: seq<nat> {:trigger old(Serving(base, hs, ss))} ::
                old(Serving(base, hs, ss)) == Intact ==>
                  && Serving(base, hs, ss) == Intact
                  && (Fits() && base <= height < base + |ss| ==> r == Some(ss[height - base]))
    {
      r := if scores.Has(height) then scores.Peek(height)
           else if loader == null then None
           else loader.ReadScoreAt(height);
      scores.ReadKeeps(height, Get(ScoreView(), height));
      ghost var before := scores;
      strayed := strayed || (!calm && height !in window);
      if r.Some? {
        scores := scores.Put(height, r.value);
      }
      forall base: nat, hs: seq<Header>, ss: seq<nat> | old(Settled(base, hs, ss))
        ensures Settled(base, hs, ss) && (base <= height < base + |ss| ==> r == Some(ss[height - base]))
      {
        ReadClean(before, ScoreView(), base, ss, height);
      }
      forall base: nat, hs: seq<Header>, ss: seq<nat> | old(Serving(base, hs, ss)) == Intact
        ensures Serving(base, hs, ss) == Intact
        ensures Fits() && base <= height < base + |ss| ==> r == Some(ss[height - base])
      {
        assert Unsealed((base, hs, ss), 0);
        if Fits() && calm {
          ReadClean(before, ScoreView(), base, ss, height);
          CleanPinned(scores, ScoreView(), base, ss, window);
        } else if Fits() {
          ReadPinned(before, ScoreView(), base, ss, window, height);
        }
      }
    }

    /** Write through: the next height up reads as what was put there, though the loader has not got it yet. */
    method Put(height: nat, header: Header, score: nat)
      requires Valid()
      modifies this`headers, this`scores, this`strayed, this`calm
      ensures Valid() && Capacity() == old(Capacity())
      ensures strayed == (old(strayed) || height !in window) && !calm
      ensures forall base: nat, hs: seq<Header>, ss: seq<nat> {:trigger old(Serving(base, hs, ss))} ::
                old(Serving(base, hs, ss)) == Intact && height == base + |hs| == base + |ss| ==>
                  Serving(base, hs + [header], ss + [score]) == Intact
    {
      ghost var before, scored := headers, scores;
      headers.PutKeeps(height, header);
      scores.PutKeeps(height, score);
      headers, scores := headers.Put(height, header), scores.Put(height, score);
      strayed, calm := strayed || height !in window, false;
      forall base: nat, hs: seq<Header>, ss: seq<nat> | old(Serving(base, hs, ss)) == Intact && height == base + |hs| == base + |ss|
        ensures Serving(base, hs + [header], ss + [score]) == Intact
      {
        assert Unsealed((base, hs, ss), 0);
        if Fits() {
          PushPinned(before, HeaderView(), base, hs, window, height, header);
          PushPinned(scored, ScoreView(), base, ss, window, height, score);
        }
      }
    }

    /** Forget one height; everything below it still reads the same, and it too if the loader has it. */
    method Evict(height: nat)
      requires Valid()
      modifies this`headers, this`scores
      ensures Valid() && Capacity() == old(Capacity())
      ensures !headers.Has(height) && !scores.Has(height)
      ensures headers == old(headers).Pop(height) && scores == old(scores).Pop(height)
      ensures forall base: nat, hs: seq<Header>, ss: seq<nat> {:trigger old(Settled(base, hs, ss))} ::
                old(Settled(base, hs, ss)) ==> Settled(base, hs, ss)
      ensures forall base: nat, hs: seq<Header>, ss: seq<nat> {:trigger old(Serving(base, hs, ss))} ::
                old(Serving(base, hs, ss)) == Intact && |hs| == |ss| && base <= height ==>
                  if base + |hs| <= height then Serving(base, hs, ss) == Intact
                  else Serving(base, hs[..height - base], ss[..height - base]) == Intact
    {
      ghost var before, scored := headers, scores;
      headers.PopKeeps(height);
      scores.PopKeeps(height);
      headers, scores := headers.Pop(height), scores.Pop(height);
      forall base: nat, hs: seq<Header>, ss: seq<nat> | old(Settled(base, hs, ss))
        ensures Settled(base, hs, ss)
      {
        PopClean(before, HeaderView(), base, hs, height);
        PopClean(scored, ScoreView(), base, ss, height);
      }
      forall base: nat, hs: seq<Header>, ss: seq<nat> | old(Serving(base, hs, ss)) == Intact && |hs| == |ss| && base <= height
        ensures if base + |hs| <= height then Serving(base, hs, ss) == Intact
                else Serving(base, hs[..height - base], ss[..height - base]) == Intact
      {
        assert Unsealed((base, hs, ss), 0);
        var m := if base + |hs| <= height then |hs| else height - base;
        assert m == |hs| ==> hs[..m] == hs && ss[..m] == ss;
        if Fits() {
          if calm {
            PrefixClean(headers, HeaderView(), base, hs, m);
            PrefixClean(scores, ScoreView(), base, ss, m);
          }
          PopPinned(before, HeaderView(), base, hs, window, height, m);
          PopPinned(scored, ScoreView(), base, ss, window, height, m);
        }
      }
    }

    /** Forget everything; from then on every read is the loader's. */
    method Clear()
      requires Valid()
      modifies this`headers, this`scores
      ensures Valid() && Capacity() == old(Capacity())
      ensures headers.entries == [] && scores.entries == []
      ensures forall height: nat {:trigger Seen(height)} :: Seen(height) == Get(HeaderView(), height)
      ensures forall base: nat, hs: seq<Header>, ss: seq<nat> {:trigger old(Settled(base, hs, ss))} ::
                old(Settled(base, hs, ss)) ==> Settled(base, hs, ss)
    {
      ghost var before, scored := headers, scores;
      headers, scores := headers.Clear(), scores.Clear();
      forall base: nat, hs: seq<Header>, ss: seq<nat> | old(Settled(base, hs, ss))
        ensures Settled(base, hs, ss)
      {
        forall i | 0 <= i < |hs|
          ensures Clean(headers, HeaderView(), base + i, hs[i])
        {
          assert Pin(i);
        }
        forall i | 0 <= i < |ss|
          ensures Clean(scores, ScoreView(), base + i, ss[i])
        {
          assert Pin(i);
        }
      }
    }

    /** Any size will do if the loader has caught up; otherwise the window has to fit before and after. */
    method Resize(capacity: nat)
      requires Valid() && capacity >= 1
      modifies this`headers, this`scores, this`strayed
      ensures Valid() && Capacity() == capacity
      ensures strayed == (old(strayed) || !old(Fits()))
      ensures forall base: nat, hs: seq<Header>, ss: seq<nat> {:trigger old(Settled(base, hs, ss))} ::
                old(Settled(base, hs, ss)) ==> Settled(base, hs, ss)
      ensures forall base: nat, hs: seq<Header>, ss: seq<nat> {:trigger old(Serving(base, hs, ss))} ::
                old(Serving(base, hs, ss)) == Intact ==> Serving(base, hs, ss) == Intact
    {
      ghost var before, scored := headers, scores;
      strayed := strayed || !Fits();
      headers, scores := headers.Resize(capacity), scores.Resize(capacity);
      forall base: nat, hs: seq<Header>, ss: seq<nat> | old(Settled(base, hs, ss))
        ensures Settled(base, hs, ss)
      {
        ResizeClean(before, HeaderView(), base, hs, capacity);
        ResizeClean(scored, ScoreView(), base, ss, capacity);
      }
      forall base: nat, hs: seq<Header>, ss: seq<nat> | old(Serving(base, hs, ss)) == Intact
        ensures Serving(base, hs, ss) == Intact
      {
        assert Unsealed((base, hs, ss), 0);
        if Fits() && calm {
          CleanPinned(headers, HeaderView(), base, hs, window);
          CleanPinned(scores, ScoreView(), base, ss, window);
        } else if Fits() {
          ResizePinned(before, HeaderView(), base, hs, window, capacity);
          ResizePinned(scored, ScoreView(), base, ss, window, capacity);
        }
      }
    }
  }
}
