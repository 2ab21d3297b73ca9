/**
 The linkage audit. It walks the height view from the tip down; what it decides is whether the
 view and the index describe one linked chain.
 */
module Linkage {
  import opened Headers
  import opened Store
  import opened ChainSpec

  /** A height view and an id index, as they were restored. */
  datatype Shelf = Shelf(view: map<nat, Header>, byId: map<Id, nat>) {
    function SlotFault(h: nat): (fault: Option<ChainError>)
      ensures fault.None? ==> h in view
    {
      if h !in view then Some(IndexInconsistency(h, Unresolvable))
      else if view[h].height != h then Some(IndexInconsistency(h, Misfiled))
      else
        match Get(byId, IdOf(view[h]))
        case None => Some(IndexInconsistency(h, NotIndexed))
        case Some(mapped) => if mapped == h then None else Some(IndexInconsistency(h, MappedElsewhere))
    }

    function LinkFault(h: nat): Option<ChainError>
      requires h > 0 && h in view && h - 1 in view
    {
      if view[h].parentId == IdOf(view[h - 1]) then None
      else Some(BrokenParentLink(h, IdOf(view[h]), view[h].parentId, IdOf(view[h - 1])))
    }

    /** First fault on the way from a checked child at `child` down to `lo`. */
    function Walk(lo: nat, child: nat): Option<ChainError>
      requires child in view
      decreases child
    {
      if child <= lo then None
      else if SlotFault(child - 1).Some? then SlotFault(child - 1)
      else Or(LinkFault(child), Walk(lo, child - 1))
    }

    function Audit(lo: nat, tip: nat): Option<ChainError> {
      if tip <= lo then None
      else if SlotFault(tip).Some? then SlotFault(tip)
      else Walk(lo, tip)
    }

    /** From `lo` to `tip` every slot resolves, sits at its height, is indexed and links down. */
    ghost predicate Coherent(lo: nat, tip: nat) {
      && (forall h :: lo <= h <= tip ==> h in view && view[h].height == h && Get(byId, IdOf(view[h])) == Some(h))
      && (forall h: nat {:trigger view[h].parentId} :: lo < h <= tip ==> view[h].parentId == IdOf(view[h - 1]))
    }
  }

  /** The height at which a reported fault was found. */
  function FaultHeight(e: ChainError): (h: int) {
    match e
    case BrokenParentLink(at, _, _, _) => at - 1
    case IndexInconsistency(at, _) => at
    case _ => -1
  }

  lemma CoherentSlot(s: Shelf, h: nat)
    ensures s.Coherent(h, h) <==> s.SlotFault(h).None?
  {
  }

  lemma CoherentStep(s: Shelf, lo: nat, mid: nat, child: nat)
    requires lo <= mid == child - 1
    ensures s.Coherent(lo, child) <==>
              s.Coherent(lo, mid) && s.SlotFault(child).None? && s.SlotFault(mid).None? && s.LinkFault(child).None?
  {
    if s.Coherent(lo, child) {
      assert s.view[child].parentId == IdOf(s.view[child - 1]);
    }
  }

  lemma {:induction false} WalkIffCoherent(s: Shelf, lo: nat, child: nat)
    requires lo <= child && s.SlotFault(child).None?
    ensures s.Walk(lo, child).None? <==> s.Coherent(lo, child)
    decreases child
  {
    CoherentSlot(s, child);
    if child > lo {
      CoherentStep(s, lo, child - 1, child);
      if s.SlotFault(child - 1).None? {
        WalkIffCoherent(s, lo, child - 1);
      }
    }
  }

  lemma {:induction false} WalkReports(s: Shelf, lo: nat, child: nat)
    requires lo <= child && s.SlotFault(child).None? && s.Walk(lo, child).Some?
    ensures ReportsHighest(s, lo, child, s.Walk(lo, child).value)
    decreases child
  {
    CoherentSlot(s, child);
    if s.SlotFault(child - 1).None? && s.LinkFault(child).None? {
      WalkReports(s, lo, child - 1);
      ReportFrom(s, lo, child - 1, child, s.Walk(lo, child - 1).value);
    }
  }

  lemma ReportFrom(s: Shelf, lo: nat, mid: nat, child: nat, e: ChainError)
    requires mid == child - 1 && ReportsHighest(s, lo, mid, e)
    requires s.SlotFault(child).None? && s.SlotFault(mid).None? && s.LinkFault(child).None?
    ensures ReportsHighest(s, lo, child, e)
  {
    if FaultHeight(e) < mid {
      CoherentStep(s, FaultHeight(e) + 1, mid, child);
    } else {
      CoherentSlot(s, child);
    }
  }

  /** What is wrong with the slot at `k`. */
  ghost predicate Wrong(s: Shelf, k: nat, slip: Slip) {
    match slip
    case Unresolvable => k !in s.view
    case Misfiled => k in s.view && s.view[k].height != k
    case NotIndexed => k in s.view && s.view[k].height == k && IdOf(s.view[k]) !in s.byId
    case MappedElsewhere => k in s.view && s.view[k].height == k && IdOf(s.view[k]) in s.byId && s.byId[IdOf(s.view[k])] != k
  }

  /** The fault is real, and everything above it is in order. */
  ghost predicate ReportsHighest(s: Shelf, lo: nat, tip: nat, e: ChainError) {
    var k := FaultHeight(e);
    && lo <= k <= tip
    && (k < tip ==> s.Coherent(k + 1, tip))
    && match e
       case IndexInconsistency(at, slip) => at == k && Wrong(s, k, slip)
       case BrokenParentLink(at, child, expected, found) =>
         && at == k + 1 && k + 1 in s.view && s.Coherent(k, k)
         && child == IdOf(s.view[k + 1]) && expected == s.view[k + 1].parentId && found == IdOf(s.view[k]) && expected != found
       case _ => false
  }

  /** What an audit of at most `depth` links, from the tip down to the base, has to say. */
  ghost predicate Decides(s: Shelf, base: Option<nat>, tip: nat, depth: Option<nat>, r: Option<ChainError>) {
    if base.None? || tip <= base.value || depth == Some(0) then r.None?
    else
      var lo := if depth.Some? && tip - depth.value > base.value then tip - depth.value else base.value;
      (r.None? <==> s.Coherent(lo, tip)) && (r.Some? ==> ReportsHighest(s, lo, tip, r.value))
  }

  /** The audit passes exactly the coherent shelves, and otherwise reports the highest fault. */
  lemma AuditDecides(s: Shelf, lo: nat, tip: nat)
    requires lo < tip
    ensures s.Audit(lo, tip).None? <==> s.Coherent(lo, tip)
    ensures s.Audit(lo, tip).Some? ==> ReportsHighest(s, lo, tip, s.Audit(lo, tip).value)
  {
    if s.SlotFault(tip).None? {
      WalkIffCoherent(s, lo, tip);
      if s.Walk(lo, tip).Some? {
        WalkReports(s, lo, tip);
      }
    }
  }

  /** Checking fewer links never finds a fault that checking more would not. */
  lemma DeeperAuditsAgree(s: Shelf, lo: nat, lower: nat, tip: nat)
    requires lower <= lo < tip
    ensures s.Audit(lo, tip).Some? ==> s.Audit(lower, tip) == s.Audit(lo, tip)
  {
    if s.SlotFault(tip).None? {
      DeeperWalksAgree(s, lo, lower, tip);
    }
  }

  lemma {:induction false} DeeperWalksAgree(s: Shelf, lo: nat, lower: nat, child: nat)
    requires lower <= lo <= child && child in s.view
    ensures s.Walk(lo, child).Some? ==> s.Walk(lower, child) == s.Walk(lo, child)
    decreases child
  {
    if child > lo && s.SlotFault(child - 1).None? {
      DeeperWalksAgree(s, lo, lower, child - 1);
    }
  }
}
