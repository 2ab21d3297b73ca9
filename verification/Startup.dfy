/** Start-up: the chain is rebuilt from the BEST_CHAIN table, which carries no parent ids. */
module Startup {
  import opened Seals
  import opened Headers
  import opened Difficulty
  import opened Store
  import opened LazyStore
  import opened ChainSpec
  import opened ChainProofs
  import opened Linkage
  import opened HeaderChains

  type Slots = seq<(nat, Id)>

  datatype RestoreError = NonContiguous(expected: nat, got: nat) | Duplicate(height: nat)

  datatype Indexing = Index(base: Option<nat>, byId: map<Id, nat>) | Failed(error: RestoreError)

  ghost predicate Contiguous(slots: Slots) {
    forall i {:trigger slots[i].0} :: 0 <= i < |slots| ==> slots[i].0 == slots[0].0 + i
  }

  ghost predicate Distinct(slots: Slots) {
    forall i, j :: 0 <= i < j < |slots| ==> slots[i].1 != slots[j].1
  }

  /** `k` is the first slot out of place; a gap is noticed before a repeated id. */
  ghost predicate FirstBad(slots: Slots, k: nat, error: RestoreError) {
    && k < |slots|
    && Contiguous(slots[..k]) && Distinct(slots[..k])
    && if k > 0 && slots[k].0 != slots[k - 1].0 + 1 then error == NonContiguous(slots[k - 1].0 + 1, slots[k].0)
       else error == Duplicate(slots[k].0) && exists j :: 0 <= j < k && slots[j].1 == slots[k].1
  }

  /** The index says of every slot which height its id is at, and of nothing else. */
  ghost predicate IndexOf(byId: map<Id, nat>, slots: Slots) {
    && (forall i :: 0 <= i < |slots| ==> Get(byId, slots[i].1) == Some(slots[i].0))
    && (forall id :: id in byId ==> exists i :: 0 <= i < |slots| && slots[i].1 == id)
  }

  method BuildIndex(slots: Slots) returns (r: Indexing)
    ensures r.Index? <==> Contiguous(slots) && Distinct(slots)
    ensures r.Index? ==> r.base == (if slots == [] then None else Some(slots[0].0)) && IndexOf(r.byId, slots) && |r.byId| == |slots|
    ensures r.Failed? ==> exists k :: FirstBad(slots, k, r.error)
  {
    var byId: map<Id, nat> := map[];
    for i := 0 to |slots|
      invariant Contiguous(slots[..i]) && Distinct(slots[..i]) && IndexOf(byId, slots[..i]) && |byId| == i
    {
      var (height, id) := slots[i];
      if i > 0 && height != slots[i - 1].0 + 1 {
        GapIsBad(slots, i);
        return Failed(NonContiguous(slots[i - 1].0 + 1, height));
      }
      if id in byId {
        DuplicateIsBad(byId, slots, i);
        return Failed(Duplicate(height));
      }
      IndexPush(byId, slots, i);
      byId := byId[id := height];
    }
    assert slots[..|slots|] == slots;
    r := Index(if slots == [] then None else Some(slots[0].0), byId);
  }

  lemma GapIsBad(slots: Slots, i: nat)
    requires 0 < i < |slots| && Contiguous(slots[..i]) && Distinct(slots[..i]) && slots[i].0 != slots[i - 1].0 + 1
    ensures FirstBad(slots, i, NonContiguous(slots[i - 1].0 + 1, slots[i].0)) && !Contiguous(slots)
  {
    assert slots[i - 1] == slots[..i][i - 1] && slots[0] == slots[..i][0];
  }

  lemma DuplicateIsBad(byId: map<Id, nat>, slots: Slots, i: nat)
    requires i < |slots| && Contiguous(slots[..i]) && Distinct(slots[..i]) && IndexOf(byId, slots[..i])
    requires (i == 0 || slots[i].0 == slots[i - 1].0 + 1) && slots[i].1 in byId
    ensures FirstBad(slots, i, Duplicate(slots[i].0)) && !Distinct(slots)
  {
    var j :| 0 <= j < i && slots[..i][j].1 == slots[i].1;
    assert slots[j].1 == slots[i].1;
  }

  lemma IndexPush(byId: map<Id, nat>, slots: Slots, i: nat)
    requires i < |slots| && Contiguous(slots[..i]) && Distinct(slots[..i]) && IndexOf(byId, slots[..i])
    requires (i == 0 || slots[i].0 == slots[i - 1].0 + 1) && slots[i].1 !in byId
    ensures Contiguous(slots[..i + 1]) && Distinct(slots[..i + 1]) && IndexOf(byId[slots[i].1 := slots[i].0], slots[..i + 1])
  {
    forall j | 0 <= j < i
      ensures slots[j].1 != slots[i].1
    {
      assert slots[..i][j] == slots[j];
    }
    NextSlot(slots, i);
    assert slots[..i + 1] == slots[..i] + [slots[i]];
    IndexExtends(byId, slots[..i], slots[i]);
  }

  lemma IndexExtends(byId: map<Id, nat>, slots: Slots, slot: (nat, Id))
    requires IndexOf(byId, slots) && slot.1 !in byId
    ensures IndexOf(byId[slot.1 := slot.0], slots + [slot])
  {
    var more, now := slots + [slot], byId[slot.1 := slot.0];
    forall id | id in now
      ensures exists i :: 0 <= i < |more| && more[i].1 == id
    {
      if id == slot.1 {
        assert more[|slots|].1 == id;
      } else {
        var i :| 0 <= i < |slots| && slots[i].1 == id;
        assert more[i].1 == id;
      }
    }
  }

  lemma NextSlot(slots: Slots, i: nat)
    requires i < |slots| && Contiguous(slots[..i]) && Distinct(slots[..i])
    requires i > 0 ==> slots[i].0 == slots[i - 1].0 + 1
    requires forall j :: 0 <= j < i ==> slots[j].1 != slots[i].1
    ensures Contiguous(slots[..i + 1]) && Distinct(slots[..i + 1])
  {
    forall j | 0 <= j <= i
      ensures slots[j].0 == slots[0].0 + j
    {
      assert j < i ==> slots[..i][j].0 == slots[0].0 + j;
      assert i > 0 ==> slots[..i][i - 1].0 == slots[0].0 + i - 1;
    }
  }

  /** What a table scan in key order yields. */
  ghost predicate ScanOf(best: map<nat, Id>, slots: Slots) {
    && (forall i, j :: 0 <= i < j < |slots| ==> slots[i].0 < slots[j].0)
    && (forall i :: 0 <= i < |slots| ==> Get(best, slots[i].0) == Some(slots[i].1))
    && (forall h :: h in best ==> exists i :: 0 <= i < |slots| && slots[i].0 == h)
  }

  function SlotsOf(hs: seq<Header>): (slots: Slots)
    ensures |slots| == |hs| && forall i :: 0 <= i < |hs| ==> slots[i] == (hs[i].height, IdOf(hs[i]))
  {
    seq(|hs|, i requires 0 <= i < |hs| => (hs[i].height, IdOf(hs[i])))
  }

  /** Every height of the chain has its slot. */
  ghost predicate SlotsAgree(best: map<nat, Id>, hs: seq<Header>) {
    forall i {:trigger hs[i]} :: 0 <= i < |hs| ==> Get(best, hs[i].height) == Some(IdOf(hs[i]))
  }

  lemma {:induction false} ScanAt(best: map<nat, Id>, slots: Slots, hs: seq<Header>, i: nat)
    requires ScanOf(best, slots) && Linked(hs) && SlotsAgree(best, hs) && i < |hs|
    requires forall h :: h in best ==> hs[0].height <= h
    ensures i < |slots| && slots[i].0 == hs[0].height + i
  {
    assert hs[i].height in best;
    var j :| 0 <= j < |slots| && slots[j].0 == hs[i].height;
    if i == 0 {
      assert slots[0].0 in best;
    } else {
      ScanAt(best, slots, hs, i - 1);
      assert slots[i - 1].0 < slots[i].0 <= slots[j].0;
    }
  }

  /**
   A table that agrees with the chain is read back as that chain exactly when it has no slot
   below the base or above the tip.
   */
  lemma RestoreIsExact(best: map<nat, Id>, slots: Slots, hs: seq<Header>)
    requires ScanOf(best, slots) && hs != [] && Linked(hs) && SlotsAgree(best, hs)
    ensures slots == SlotsOf(hs) <==> forall h :: h in best ==> hs[0].height <= h <= TipHeight(hs)
  {
    if forall h :: h in best ==> hs[0].height <= h <= TipHeight(hs) {
      ScanIsChain(best, slots, hs);
    }
    if slots == SlotsOf(hs) {
      forall h | h in best
        ensures hs[0].height <= h <= TipHeight(hs)
      {
        var i :| 0 <= i < |slots| && slots[i].0 == h;
        assert SlotsOf(hs)[i].0 == h && hs[i].height == hs[0].height + i;
      }
    }
  }

  lemma ScanIsChain(best: map<nat, Id>, slots: Slots, hs: seq<Header>)
    requires ScanOf(best, slots) && hs != [] && Linked(hs) && SlotsAgree(best, hs)
    requires forall h :: h in best ==> hs[0].height <= h <= TipHeight(hs)
    ensures slots == SlotsOf(hs)
  {
    forall i | 0 <= i < |hs|
      ensures i < |slots| && slots[i] == SlotsOf(hs)[i]
    {
      ScanAt(best, slots, hs, i);
      assert hs[i].height == hs[0].height + i;
    }
    ScanAt(best, slots, hs, |hs| - 1);
    assert Get(best, slots[|slots| - 1].0).Some?;
  }

  /** The chain's index is that of the slots. */
  ghost predicate Indexes(chain: HeaderChain, slots: Slots)
    reads chain
  {
    && IndexOf(chain.byId, slots)
    && chain.baseHeight == (if slots == [] then None else Some(slots[0].0))
    && (slots != [] ==> chain.Height() == slots[0].0 + |slots| - 1)
  }

  method Restore(law: Law, slots: Slots, lazy: LazyHeaderStore, ghost hs: seq<Header>, ghost ss: seq<nat>)
    returns (chain: HeaderChain?, error: Option<RestoreError>)
    ensures chain != null <==> Contiguous(slots) && Distinct(slots)
    ensures chain == null ==> error.Some? && exists k :: FirstBad(slots, k, error.value)
    ensures chain != null ==>
              && fresh(chain) && chain.law == law && chain.lazy == lazy && chain.hs == hs && chain.ss == ss
              && Indexes(chain, slots)
              && chain.light == (slots != [] && slots[0].0 > 1)
  {
    var r := BuildIndex(slots);
    if r.Failed? {
      return null, Some(r.error);
    }
    error := None;
    chain := new HeaderChain.Restored(law, lazy, r.base, r.byId, hs, ss);
  }

  const LINKAGE_CHECK_DEPTH: nat := 4096

  /** The store holds exactly this chain: its slots and no others, each with its header and score. */
  ghost predicate Holds(store: ModifierStore, hs: seq<Header>, ss: seq<nat>)
    reads store
  {
    && |ss| == |hs|
    && (forall h :: h in store.best ==> hs != [] && hs[0].height <= h <= TipHeight(hs))
    && (forall i {:trigger hs[i]} {:trigger ss[i]} :: 0 <= i < |hs| ==>
          && store.ReadHeaderAt(hs[0].height + i) == Some(hs[i])
          && store.ReadScoreAt(hs[0].height + i) == Some(ss[i]))
  }

  /** A sound chain, with its scores, that the store holds; a full chain starts at genesis. */
  ghost predicate Persisted(law: Law, store: ModifierStore, hs: seq<Header>, ss: seq<nat>)
    reads store
  {
    && Lawful(law)
    && store.Keyed()
    && Holds(store, hs, ss)
    && Trail(law, hs != [] && hs[0].height > 1, hs, ss, true).Good()
  }

  /** `Persisted`, sealed. */
  ghost function Standing(law: Law, store: ModifierStore, hs: seq<Header>, ss: seq<nat>): Health
    reads store
  {
    if forall k: int {:trigger Unsealed((law, hs, ss), k)} :: Unsealed((law, hs, ss), k) ==> Persisted(law, store, hs, ss) then Intact else Broken
  }

  lemma OpenStanding(law: Law, store: ModifierStore, hs: seq<Header>, ss: seq<nat>)
    requires Standing(law, store, hs, ss) == Intact
    ensures Persisted(law, store, hs, ss)
  {
    assert Unsealed((law, hs, ss), 0);
  }

  /**
   Restore, wire the loaders, audit. Of any store the verdict is that of the audit of its slots; see
   `AuditDecides`. A store that holds a chain yields that chain with caches that serve it.
   */
  method Start(law: Law, store: ModifierStore, slots: Slots, lazy: LazyHeaderStore, ghost hs: seq<Header>, ghost ss: seq<nat>)
    returns (chain: HeaderChain?, verdict: Option<ChainError>)
    requires ScanOf(store.best, slots)
    requires lazy.Valid() && lazy.headers.entries == [] && lazy.scores.entries == []
    modifies lazy
    ensures chain != null <==> Contiguous(slots) && Distinct(slots)
    ensures chain != null ==> fresh(chain) && chain.law == law && chain.lazy == lazy && lazy.loader == store
    ensures lazy.Capacity() == old(lazy.Capacity())
    ensures chain != null ==> Indexes(chain, slots) && Audited(store, chain, verdict)
    ensures Persisted(law, store, hs, ss) ==>
              && chain != null && chain.Sound() && chain.hs == hs && chain.ss == ss && chain.light == (hs != [] && hs[0].height > 1)
              && lazy.calm && lazy.Fits() && verdict.None?
  {
    verdict := None;
    ghost var held := Standing(law, store, hs, ss) == Intact;
    if held {
      HeldIsScanned(law, store, slots, hs, ss);
    }
    chain := RestoreAndWire(law, store, slots, lazy, hs, ss);
    if chain != null {
      verdict := AuditAtStart(chain, store);
    }
  }

  /** The verdict on the last 4096 links of the slots, as the store resolves them. */
  ghost predicate Audited(store: ModifierStore, chain: HeaderChain, verdict: Option<ChainError>)
    reads store, chain
  {
    Decides(Shelf(store.HeaderView(), chain.byId), chain.baseHeight, chain.Height(), Some(4096), verdict)
  }

  method AuditAtStart(chain: HeaderChain, store: ModifierStore) returns (verdict: Option<ChainError>)
    requires chain.lazy.Valid() && chain.lazy.loader == store && chain.lazy.headers.entries == []
    modifies chain.lazy`headers, chain.lazy`strayed
    ensures Audited(store, chain, verdict)
    ensures chain.lazy.Capacity() == old(chain.lazy.Capacity())
    ensures old(chain.Sound() && chain.lazy.calm && chain.lazy.Fits()) ==> chain.Sound() && chain.lazy.Fits() && verdict.None?
  {
    NothingCached(chain.lazy, chain.Height() - chain.CheckedLinks(Some(LINKAGE_CHECK_DEPTH)), chain.Height());
    verdict := chain.VerifyLinkage(Some(LINKAGE_CHECK_DEPTH));
  }

  lemma NothingCached(lazy: LazyHeaderStore, lo: int, hi: int)
    requires lazy.headers.entries == []
    ensures lazy.Mirrors(lo, hi)
  {
  }

  method RestoreAndWire(law: Law, store: ModifierStore, slots: Slots, lazy: LazyHeaderStore, ghost hs: seq<Header>, ghost ss: seq<nat>)
    returns (chain: HeaderChain?)
    requires lazy.Valid() && lazy.headers.entries == [] && lazy.scores.entries == []
    modifies lazy`loader, lazy`calm, lazy`window, lazy`strayed
    ensures lazy.Valid() && lazy.loader == store
    ensures chain != null <==> Contiguous(slots) && Distinct(slots)
    ensures chain != null ==> fresh(chain) && chain.law == law && chain.lazy == lazy && chain.hs == hs && chain.ss == ss && Indexes(chain, slots)
    ensures slots == SlotsOf(hs) && Standing(law, store, hs, ss) == Intact ==>
              chain != null && chain.Sound() && chain.light == (hs != [] && hs[0].height > 1) && lazy.calm && lazy.Fits()
  {
    var error;
    chain, error := Restore(law, slots, lazy, hs, ss);
    lazy.SetLoader(store);
    if slots == SlotsOf(hs) && Standing(law, store, hs, ss) == Intact {
      StandingSlots(law, store, hs, ss);
      StandingSettles(law, lazy, store, hs, ss);
      lazy.Settle(if hs == [] then 0 else hs[0].height, hs, ss);
      RestoredSound(chain, store);
    }
  }

  lemma SlotNames(store: ModifierStore, h: nat)
    requires store.Keyed() && store.ReadHeaderAt(h).Some?
    ensures Get(store.best, h) == Some(IdOf(store.ReadHeaderAt(h).value))
  {
  }

  lemma HeldSlots(store: ModifierStore, hs: seq<Header>, ss: seq<nat>)
    requires store.Keyed() && Holds(store, hs, ss) && Linked(hs)
    ensures SlotsAgree(store.best, hs)
  {
    forall i | 0 <= i < |hs|
      ensures Get(store.best, hs[i].height) == Some(IdOf(hs[i]))
    {
      assert store.ReadHeaderAt(hs[0].height + i) == Some(hs[i]);
      SlotNames(store, hs[i].height);
    }
  }

  lemma HeldIsScanned(law: Law, store: ModifierStore, slots: Slots, hs: seq<Header>, ss: seq<nat>)
    requires Standing(law, store, hs, ss) == Intact && ScanOf(store.best, slots)
    ensures slots == SlotsOf(hs)
  {
    OpenStanding(law, store, hs, ss);
    if hs == [] {
      assert |slots| > 0 ==> Get(store.best, slots[0].0).Some?;
    } else {
      HeldSlots(store, hs, ss);
      RestoreIsExact(store.best, slots, hs);
    }
  }

  lemma ChainSlots(hs: seq<Header>)
    requires Linked(hs)
    ensures Contiguous(SlotsOf(hs)) && Distinct(SlotsOf(hs))
  {
    var slots := SlotsOf(hs);
    forall i | 0 <= i < |slots|
      ensures slots[i].0 == slots[0].0 + i
    {
      assert hs[i].height == hs[0].height + i;
    }
    forall i, j | 0 <= i < j < |slots|
      ensures slots[i].1 != slots[j].1
    {
      assert hs[i].height != hs[j].height;
    }
  }

  lemma SlotsIndex(byId: map<Id, nat>, hs: seq<Header>)
    requires hs != [] && Linked(hs) && IndexOf(byId, SlotsOf(hs))
    ensures Indexed(byId, hs[0].height, hs)
  {
    var slots := SlotsOf(hs);
    forall i | 0 <= i < |hs|
      ensures Get(byId, IdOf(hs[i])) == Some(hs[0].height + i)
    {
      assert Get(byId, slots[i].1) == Some(slots[i].0) && hs[i].height == hs[0].height + i;
    }
    forall id | id in byId
      ensures hs[0].height <= byId[id] < hs[0].height + |hs| && IdOf(hs[byId[id] - hs[0].height]) == id
    {
      var i :| 0 <= i < |slots| && slots[i].1 == id;
      assert hs[i].height == hs[0].height + i;
    }
  }

  lemma StandingSettles(law: Law, lazy: LazyHeaderStore, store: ModifierStore, hs: seq<Header>, ss: seq<nat>)
    requires Standing(law, store, hs, ss) == Intact
    requires lazy.loader == store && lazy.headers.entries == [] && lazy.scores.entries == []
    ensures lazy.Settled(if hs == [] then 0 else hs[0].height, hs, ss)
  {
    OpenStanding(law, store, hs, ss);
    forall i | 0 <= i < |hs|
      ensures Clean(lazy.headers, store.HeaderView(), hs[0].height + i, hs[i])
      ensures Clean(lazy.scores, store.ScoreView(), hs[0].height + i, ss[i])
    {
      assert store.ReadHeaderAt(hs[0].height + i) == Some(hs[i]);
    }
  }

  lemma StandingSlots(law: Law, store: ModifierStore, hs: seq<Header>, ss: seq<nat>)
    requires Standing(law, store, hs, ss) == Intact
    ensures Contiguous(SlotsOf(hs)) && Distinct(SlotsOf(hs))
  {
    OpenStanding(law, store, hs, ss);
    ChainSlots(hs);
  }

  lemma StandingIndex(law: Law, store: ModifierStore, hs: seq<Header>, ss: seq<nat>, byId: map<Id, nat>)
    requires Standing(law, store, hs, ss) == Intact && IndexOf(byId, SlotsOf(hs))
    ensures Indexed(byId, if hs == [] then 0 else hs[0].height, hs)
  {
    OpenStanding(law, store, hs, ss);
    if hs != [] {
      SlotsIndex(byId, hs);
    }
  }

  lemma RestoredSound(chain: HeaderChain, store: ModifierStore)
    requires Standing(chain.law, store, chain.hs, chain.ss) == Intact && IndexOf(chain.byId, SlotsOf(chain.hs))
    requires chain.lazy.Valid() && chain.lazy.Serving(if chain.hs == [] then 0 else chain.hs[0].height, chain.hs, chain.ss) == Intact
    requires chain.baseHeight == if chain.hs == [] then None else Some(chain.hs[0].height)
    requires chain.light == (chain.hs != [] && chain.hs[0].height > 1)
    ensures chain.Sound()
  {
    StandingIndex(chain.law, store, chain.hs, chain.ss, chain.byId);
    StandingTrail(chain.law, store, chain.hs, chain.ss, chain.lazy.Fits());
    Close(chain.Now());
  }

  lemma StandingTrail(law: Law, store: ModifierStore, hs: seq<Header>, ss: seq<nat>, fits: bool)
    requires Standing(law, store, hs, ss) == Intact
    ensures Lawful(law) && |ss| == |hs|
    ensures Trail(law, hs != [] && hs[0].height > 1, hs, ss, fits).Seal() == Intact
  {
    OpenStanding(law, store, hs, ss);
  }
}
