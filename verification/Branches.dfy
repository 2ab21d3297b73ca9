/** Assembling a fork branch from the store, back to where it leaves the best chain. */
module Branches {
  import opened Seals
  import opened Headers
  import opened Store
  import opened ChainSpec

  const MAX_FORK_WALK: nat := 1000

  datatype Fork = Fork(forkPoint: nat, branch: seq<Header>)

  /** Walk from `h` back through stored headers to the chain, looking at no more than `steps` parents. */
  function FindFork(hs: seq<Header>, primary: map<Id, Header>, h: Header, steps: nat): Option<Fork>
    decreases steps
  {
    if steps == 0 then None
    else if HeightOf(hs, h.parentId).Some? then
      if h.height == HeightOf(hs, h.parentId).value + 1 then Some(Fork(h.height - 1, [h])) else None
    else if h.parentId !in primary then None
    else Onto(FindFork(hs, primary, primary[h.parentId], steps - 1), [h])
  }

  /** A fork found lower down, with the headers above it put on top. */
  function Onto(f: Option<Fork>, above: seq<Header>): Option<Fork> {
    if f.Some? then Some(Fork(f.value.forkPoint, f.value.branch + above)) else None
  }

  lemma OntoNothing(f: Option<Fork>)
    ensures Onto(f, []) == f
  {
    if f.Some? {
      assert f.value.branch + [] == f.value.branch;
    }
  }

  /** One step of the walk. */
  lemma FindForkStep(hs: seq<Header>, primary: map<Id, Header>, h: Header, above: seq<Header>, steps: nat)
    requires steps > 0 && HeightOf(hs, h.parentId).None? && h.parentId in primary
    ensures Onto(FindFork(hs, primary, h, steps), above) == Onto(FindFork(hs, primary, primary[h.parentId], steps - 1), [h] + above)
  {
    var f := FindFork(hs, primary, primary[h.parentId], steps - 1);
    if f.Some? {
      assert f.value.branch + [h] + above == f.value.branch + ([h] + above);
    }
  }

  lemma {:induction false} FindForkEnds(hs: seq<Header>, primary: map<Id, Header>, h: Header, steps: nat)
    requires FindFork(hs, primary, h, steps).Some?
    ensures var f := FindFork(hs, primary, h, steps).value;
            hs != [] && f.forkPoint <= TipHeight(hs) && 0 < |f.branch| <= steps && Last(f.branch) == h
    decreases steps
  {
    if HeightOf(hs, h.parentId).None? {
      FindForkEnds(hs, primary, primary[h.parentId], steps - 1);
    }
  }

  /** From `h` back through headers that are known to where they meet the chain, no height below `floor` is named. */
  ghost predicate Shallow(hs: seq<Header>, known: set<Id>, h: Header, floor: nat)
    decreases h
  {
    && (h.height == 0 || floor < h.height)
    && if HeightOf(hs, h.parentId).Some? then floor <= HeightOf(hs, h.parentId).value
       else h.parentId.IdOf? && h.parentId in known ==> Shallow(hs, known, h.parentId.header, floor)
  }

  lemma {:induction false} ShallowAtZero(hs: seq<Header>, known: set<Id>, h: Header)
    ensures Shallow(hs, known, h, 0)
    decreases h
  {
    if HeightOf(hs, h.parentId).None? && h.parentId.IdOf? {
      ShallowAtZero(hs, known, h.parentId.header);
    }
  }

  /** Growing the chain can only bring the meeting point up. */
  lemma {:induction false} ShallowGrows(hs: seq<Header>, more: seq<Header>, known: set<Id>, h: Header, floor: nat)
    requires Shallow(hs, known, h, floor) && hs <= more && floor <= TipHeight(hs)
    ensures Shallow(more, known, h, floor)
    decreases h
  {
    if HeightOf(hs, h.parentId).None? && h.parentId.IdOf? && h.parentId in known {
      ShallowGrows(hs, more, known, h.parentId.header, floor);
    }
  }

  /** Stored headers, each the parent of the next, from just above a header of the chain up to `h`. */
  ghost predicate LeadsTo(hs: seq<Header>, primary: map<Id, Header>, f: Fork, h: Header) {
    && f.branch != [] && Last(f.branch) == h
    && HeightOf(hs, f.branch[0].parentId) == Some(f.forkPoint)
    && f.branch[0].height == f.forkPoint + 1
    && forall i {:trigger Slot(i)} :: Slot(i) && 0 < i < |f.branch| ==>
         && f.branch[i].parentId == IdOf(f.branch[i - 1])
         && f.branch[i].parentId in primary
         && HeightOf(hs, f.branch[i].parentId).None?
  }

  /** Whatever the walk returns is such a branch. */
  lemma {:induction false} FindForkSound(hs: seq<Header>, primary: map<Id, Header>, scores: map<Id, nat>, h: Header, steps: nat)
    requires RowsKeyed(primary, scores) && FindFork(hs, primary, h, steps).Some?
    ensures LeadsTo(hs, primary, FindFork(hs, primary, h, steps).value, h)
    ensures |FindFork(hs, primary, h, steps).value.branch| <= steps
    decreases steps
  {
    if HeightOf(hs, h.parentId).None? {
      FindForkSound(hs, primary, scores, primary[h.parentId], steps - 1);
      var rest := FindFork(hs, primary, primary[h.parentId], steps - 1).value;
      var f := FindFork(hs, primary, h, steps).value;
      forall i | 0 < i < |f.branch|
        ensures f.branch[i].parentId == IdOf(f.branch[i - 1]) && f.branch[i].parentId in primary
        ensures HeightOf(hs, f.branch[i].parentId).None?
      {
        assert Slot(i) && (i < |rest.branch| ==> f.branch[i] == rest.branch[i]);
      }
    }
  }

  /** Every such branch that is short enough is found, and there is only one. */
  lemma {:induction false} FindForkComplete(hs: seq<Header>, primary: map<Id, Header>, scores: map<Id, nat>, f: Fork, h: Header, steps: nat)
    requires RowsKeyed(primary, scores) && LeadsTo(hs, primary, f, h) && |f.branch| <= steps
    ensures FindFork(hs, primary, h, steps) == Some(f)
    decreases steps
  {
    var n := |f.branch| - 1;
    if n == 0 {
      assert f.branch == [h];
    } else {
      var rest := Fork(f.forkPoint, f.branch[..n]);
      assert Slot(n);
      forall i | 0 < i < n
        ensures rest.branch[i].parentId == IdOf(rest.branch[i - 1]) && rest.branch[i].parentId in primary
        ensures HeightOf(hs, rest.branch[i].parentId).None?
      {
        assert Slot(i) && rest.branch[i] == f.branch[i];
      }
      FindForkComplete(hs, primary, scores, rest, f.branch[n - 1], steps - 1);
      assert f.branch == rest.branch + [h];
    }
  }
}
