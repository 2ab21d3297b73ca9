/**
 What the store says about a chain in the middle of a batch. Headers appended in the batch are
 written only at its end, and a reorganisation in between may demote some of them again.
 */
module Ledgers {
  import opened Seals
  import opened Headers
  import opened Store
  import opened LazyStore
  import opened ChainSpec
  import opened ChainProofs
  import opened HeaderChains

  /** Every stored score is the work along that header's ancestry. */
  ghost predicate AllWork(rules: Rules, origin: Option<Header>, scores: map<Id, nat>) {
    forall id {:trigger scores[id]} {:trigger id in scores} :: id in scores ==> id.IdOf? && scores[id] == Work(rules, origin, id.header)
  }

  ghost predicate WorkEntries(rules: Rules, origin: Option<Header>, entries: seq<Entry>) {
    forall i {:trigger entries[i]} :: 0 <= i < |entries| ==> entries[i].score == Work(rules, origin, entries[i].header)
  }

  /** BEST_CHAIN names this header at its height, and its row and score are there. */
  ghost predicate Slotted(b: Books, h: Header) {
    Get(b.best, h.height) == Some(IdOf(h)) && IdOf(h) in b.primary && IdOf(h) in b.scores
  }

  ghost predicate SlottedOutside(b: Books, hs: seq<Header>, lo: nat, hi: nat) {
    forall i {:trigger hs[i]} :: 0 <= i < |hs| && (i < lo || hi <= i) ==> Slotted(b, hs[i])
  }

  /** `entries` are the headers of the chain from position `lo` on. */
  ghost predicate Awaited(hs: seq<Header>, lo: nat, entries: seq<Entry>) {
    && lo + |entries| <= |hs|
    && forall i {:trigger entries[i]} :: 0 <= i < |entries| ==> entries[i].header == hs[lo + i] && hs[lo + i].height > 0
  }

  datatype Books = Books(primary: map<Id, Header>, scores: map<Id, nat>, best: map<nat, Id>) {
    ghost function WithFork(h: Header, score: nat): Books {
      Books(primary[IdOf(h) := h], scores[IdOf(h) := score], if h.height in best then best else best[h.height := IdOf(h)])
    }

    ghost function WithBatch(entries: seq<Entry>): Books {
      Books(PrimaryAfter(primary, entries), ScoresAfter(scores, entries), BestAfter(best, entries))
    }
  }

  /**
   The chain `hs`, of which `entries`, starting at position `lo`, are still to be written; and the
   ids of some headers whose rows must not be lost.
   */
  datatype Ledger = Ledger(
    rules: Rules, origin: Option<Header>, hs: seq<Header>, lo: nat, entries: seq<Entry>, books: Books, rows: set<Id>, fits: bool)
  {
    ghost predicate Good() {
      && rows <= books.primary.Keys
      && Awaited(hs, lo, entries)
      && SlottedOutside(books, hs, lo, lo + |entries|)
      && RowsKeyed(books.primary, books.scores)
      && (fits ==> AllWork(rules, origin, books.scores) && WorkEntries(rules, origin, entries))
    }

    /** `Good`, sealed. */
    ghost function Seal(): Health {
      if forall k: int {:trigger Unsealed(this, k)} :: Unsealed(this, k) ==> Good() then Intact else Broken
    }
  }

  lemma OpenLedger(l: Ledger)
    requires l.Seal() == Intact
    ensures l.Good()
  {
    assert Unsealed(l, 0);
  }

  lemma CloseLedger(l: Ledger)
    requires l.Good()
    ensures l.Seal() == Intact
  {
  }

  lemma WeakerLedger(l: Ledger, fits: bool)
    requires l.Seal() == Intact && (fits ==> l.fits)
    ensures l.(fits := fits).Seal() == Intact
  {
    OpenLedger(l);
  }

  /** The rows there are now are the ones not to be lost. */
  lemma LedgerStock(l: Ledger)
    requires l.Seal() == Intact
    ensures l.(rows := l.books.primary.Keys).Seal() == Intact
  {
    OpenLedger(l);
  }

  /** Appending a header to the chain adds an entry. */
  lemma LedgerAppend(l: Ledger, h: Header, score: nat, fits: bool)
    requires l.Seal() == Intact && (fits ==> l.fits) && l.lo + |l.entries| == |l.hs|
    requires h.height > 0 && (fits ==> score == Work(l.rules, l.origin, h))
    ensures l.(hs := l.hs + [h], entries := l.entries + [Entry(h, score)], fits := fits).Seal() == Intact
  {
    OpenLedger(l);
    var next := l.(hs := l.hs + [h], entries := l.entries + [Entry(h, score)], fits := fits);
    assert SlottedOutside(next.books, next.hs, next.lo, next.lo + |next.entries|) by {
      assert forall i {:trigger next.hs[i]} :: 0 <= i < |l.hs| ==> next.hs[i] == l.hs[i];
    }
    CloseLedger(next);
  }

  /** Storing a fork header disturbs no slot of the chain. */
  lemma LedgerFork(l: Ledger, h: Header, score: nat)
    requires l.Seal() == Intact
    requires l.fits ==> score == Work(l.rules, l.origin, h)
    ensures l.(books := l.books.WithFork(h, score)).Seal() == Intact
  {
    OpenLedger(l);
    ForkSlots(l.books, l.hs, l.lo, l.lo + |l.entries|, h, score);
    ForkRows(l.books.primary, l.books.scores, h, score);
    CloseLedger(l.(books := l.books.WithFork(h, score)));
  }

  lemma ForkSlots(b: Books, hs: seq<Header>, lo: nat, hi: nat, h: Header, score: nat)
    requires SlottedOutside(b, hs, lo, hi)
    ensures SlottedOutside(b.WithFork(h, score), hs, lo, hi)
  {
    forall i | 0 <= i < |hs| && (i < lo || hi <= i)
      ensures Slotted(b.WithFork(h, score), hs[i])
    {
      assert Slotted(b, hs[i]);
    }
  }

  lemma ForkRows(primary: map<Id, Header>, scores: map<Id, nat>, h: Header, score: nat)
    requires RowsKeyed(primary, scores)
    ensures RowsKeyed(primary[IdOf(h) := h], scores[IdOf(h) := score])
  {
  }

  // ---- Batches ----

  /** Entries one height apart, none of them at height zero. */
  ghost predicate Stepped(entries: seq<Entry>) {
    forall i {:trigger entries[i]} :: 0 <= i < |entries| ==> entries[i].header.height == entries[0].header.height + i > 0
  }

  lemma {:induction false} BatchBest(best: map<nat, Id>, entries: seq<Entry>)
    requires Stepped(entries)
    ensures forall i {:trigger entries[i]} :: 0 <= i < |entries| ==>
              Get(BestAfter(best, entries), entries[i].header.height) == Some(IdOf(entries[i].header))
    ensures forall h: nat {:trigger Get(BestAfter(best, entries), h)} ::
              (entries == [] || h < entries[0].header.height || h >= entries[0].header.height + |entries|) ==>
                Get(BestAfter(best, entries), h) == Get(best, h)
  {
    if entries != [] {
      var init := entries[..|entries| - 1];
      BatchBest(best, init);
      forall i | 0 <= i < |entries|
        ensures Get(BestAfter(best, entries), entries[i].header.height) == Some(IdOf(entries[i].header))
      {
        assert i < |init| ==> init[i] == entries[i];
      }
      assert Last(entries).header.height == entries[0].header.height + |init|;
      forall h: nat | h < entries[0].header.height || h >= entries[0].header.height + |entries|
        ensures Get(BestAfter(best, entries), h) == Get(best, h)
      {
        assert Get(BestAfter(best, init), h) == Get(best, h);
      }
    }
  }

  lemma {:induction false} BatchRows(primary: map<Id, Header>, scores: map<Id, nat>, entries: seq<Entry>)
    requires RowsKeyed(primary, scores)
    ensures RowsKeyed(PrimaryAfter(primary, entries), ScoresAfter(scores, entries))
    ensures primary.Keys <= PrimaryAfter(primary, entries).Keys && scores.Keys <= ScoresAfter(scores, entries).Keys
    ensures forall i {:trigger entries[i]} :: 0 <= i < |entries| ==>
              IdOf(entries[i].header) in PrimaryAfter(primary, entries) && IdOf(entries[i].header) in ScoresAfter(scores, entries)
  {
    if entries != [] {
      var init := entries[..|entries| - 1];
      BatchRows(primary, scores, init);
      forall i | 0 <= i < |entries|
        ensures IdOf(entries[i].header) in PrimaryAfter(primary, entries) && IdOf(entries[i].header) in ScoresAfter(scores, entries)
      {
        assert i < |init| ==> init[i] == entries[i];
      }
    }
  }

  lemma {:induction false} BatchWork(rules: Rules, origin: Option<Header>, scores: map<Id, nat>, entries: seq<Entry>)
    requires AllWork(rules, origin, scores) && WorkEntries(rules, origin, entries)
    ensures AllWork(rules, origin, ScoresAfter(scores, entries))
  {
    if entries != [] {
      assert forall i {:trigger entries[..|entries| - 1][i]} :: 0 <= i < |entries| - 1 ==> entries[..|entries| - 1][i] == entries[i];
      BatchWork(rules, origin, scores, entries[..|entries| - 1]);
    }
  }

  lemma LedgerStepped(l: Ledger)
    requires l.Good() && Linked(l.hs)
    ensures Stepped(l.entries)
    ensures l.entries != [] ==> l.entries[0].header.height == l.hs[0].height + l.lo
  {
    forall i | 0 <= i < |l.entries|
      ensures l.entries[i].header.height == l.hs[0].height + l.lo + i > 0
    {
      assert l.hs[l.lo + i].height == l.hs[0].height + l.lo + i;
    }
  }

  /** Writing the entries that are left brings the store in step with the whole chain. */
  lemma LedgerFlush(l: Ledger)
    requires l.Seal() == Intact && Linked(l.hs)
    ensures l.(lo := |l.hs|, entries := [], books := l.books.WithBatch(l.entries)).Seal() == Intact
  {
    OpenLedger(l);
    LedgerStepped(l);
    BatchBest(l.books.best, l.entries);
    BatchRows(l.books.primary, l.books.scores, l.entries);
    if l.fits {
      BatchWork(l.rules, l.origin, l.books.scores, l.entries);
    }
    forall i | 0 <= i < |l.hs|
      ensures Slotted(l.books.WithBatch(l.entries), l.hs[i])
    {
      assert l.hs[i].height == l.hs[0].height + i;
      if l.lo <= i < l.lo + |l.entries| {
        assert l.entries[i - l.lo].header == l.hs[i];
      } else {
        assert Get(BestAfter(l.books.best, l.entries), l.hs[i].height) == Get(l.books.best, l.hs[i].height);
      }
    }
  }

  /** The entries that are still on the chain after a reorganisation that kept `keep` headers. */
  ghost function Surviving(lo: nat, entries: seq<Entry>, keep: nat): seq<Entry> {
    if keep <= lo then [] else if keep - lo <= |entries| then entries[..keep - lo] else entries
  }

  /** A reorganisation's branch is written first; its slots are then the branch's. */
  lemma LedgerReorg(l: Ledger, keep: nat, branch: seq<Entry>, hs: seq<Header>, fits: bool)
    requires l.Seal() == Intact && (fits ==> l.fits) && l.lo + |l.entries| == |l.hs|
    requires 0 < keep <= |l.hs| && hs == l.hs[..keep] + Written(branch) && Linked(hs)
    requires fits ==> WorkEntries(l.rules, l.origin, branch)
    ensures Ledger(l.rules, l.origin, hs, if keep < l.lo then keep else l.lo, Surviving(l.lo, l.entries, keep),
                   l.books.WithBatch(branch), l.rows, fits).Seal() == Intact
  {
    OpenLedger(l);
    var next := Ledger(l.rules, l.origin, hs, if keep < l.lo then keep else l.lo, Surviving(l.lo, l.entries, keep),
                       l.books.WithBatch(branch), l.rows, fits);
    SurvivingOnChain(l, keep, hs);
    BatchRows(l.books.primary, l.books.scores, branch);
    if fits {
      BatchWork(l.rules, l.origin, l.books.scores, branch);
    }
    ReorgSlots(l, keep, branch, hs, next.lo, keep);
    CloseLedger(next);
  }

  lemma ReorgSlots(l: Ledger, keep: nat, branch: seq<Entry>, hs: seq<Header>, lo: nat, hi: nat)
    requires l.Good() && l.lo + |l.entries| == |l.hs|
    requires 0 < keep <= |l.hs| && hs == l.hs[..keep] + Written(branch) && Linked(hs)
    requires lo <= l.lo && hi == keep
    ensures SlottedOutside(l.books.WithBatch(branch), hs, lo, hi)
  {
    forall i | 0 <= i < |hs| && (i < lo || hi <= i)
      ensures Slotted(l.books.WithBatch(branch), hs[i])
    {
      SlottedAfterReorg(l, keep, branch, hs, i);
    }
  }

  lemma SurvivingOnChain(l: Ledger, keep: nat, hs: seq<Header>)
    requires l.Good() && l.lo + |l.entries| == |l.hs| && keep <= |l.hs| && keep <= |hs| && hs[..keep] == l.hs[..keep]
    ensures var lo, entries := if keep < l.lo then keep else l.lo, Surviving(l.lo, l.entries, keep);
            && lo + |entries| == keep
            && Awaited(hs, lo, entries)
            && (l.fits ==> WorkEntries(l.rules, l.origin, entries))
  {
    var lo, entries := if keep < l.lo then keep else l.lo, Surviving(l.lo, l.entries, keep);
    forall i | 0 <= i < |entries|
      ensures entries[i].header == hs[lo + i] && hs[lo + i].height > 0
      ensures l.fits ==> entries[i].score == Work(l.rules, l.origin, entries[i].header)
    {
      assert lo == l.lo && entries[i] == l.entries[i];
      assert hs[..keep][lo + i] == l.hs[..keep][lo + i];
    }
  }

  lemma BranchStepped(l: Ledger, keep: nat, branch: seq<Entry>, hs: seq<Header>)
    requires 0 < keep <= |l.hs| && hs == l.hs[..keep] + Written(branch) && Linked(hs)
    ensures Stepped(branch) && (branch != [] ==> branch[0].header.height == hs[0].height + keep)
  {
    forall j | 0 <= j < |branch|
      ensures branch[j].header == hs[keep + j] && branch[j].header.height == hs[0].height + keep + j > 0
    {
      assert hs[keep + j].height == hs[0].height + keep + j;
    }
  }

  lemma SlottedAfterReorg(l: Ledger, keep: nat, branch: seq<Entry>, hs: seq<Header>, i: nat)
    requires l.Good() && l.lo + |l.entries| == |l.hs|
    requires 0 < keep <= |l.hs| && hs == l.hs[..keep] + Written(branch) && Linked(hs)
    requires i < |hs| && (i < keep ==> i < l.lo)
    ensures Slotted(l.books.WithBatch(branch), hs[i])
  {
    BranchStepped(l, keep, branch, hs);
    BatchBest(l.books.best, branch);
    BatchRows(l.books.primary, l.books.scores, branch);
    assert hs[i].height == hs[0].height + i;
    if i < keep {
      assert hs[i] == l.hs[i];
      assert Get(BestAfter(l.books.best, branch), hs[i].height) == Get(l.books.best, hs[i].height);
    } else {
      assert branch[i - keep].header == hs[i];
    }
  }

  function Written(entries: seq<Entry>): (hs: seq<Header>)
    ensures |hs| == |entries| && forall i :: 0 <= i < |hs| ==> hs[i] == entries[i].header
  {
    seq(|entries|, i requires 0 <= i < |entries| => entries[i].header)
  }

  /** A store in step with the chain serves every header, and under `fits` every score. */
  lemma LedgerServes(l: Ledger, i: nat)
    requires l.Seal() == Intact && l.entries == [] && Linked(l.hs) && i < |l.hs|
    ensures Get(BySlot(l.books.best, l.books.primary), l.hs[0].height + i) == Some(l.hs[i])
    ensures l.fits ==> Get(BySlot(l.books.best, l.books.scores), l.hs[0].height + i) == Some(Work(l.rules, l.origin, l.hs[i]))
  {
    OpenLedger(l);
    assert l.hs[i].height == l.hs[0].height + i;
    assert Slotted(l.books, l.hs[i]);
  }

  /** A fork header hides nothing that the loaders already served. */
  lemma ForkHidesNothing(l: Ledger, h: Header, score: nat, k: nat)
    requires l.Seal() == Intact
    requires l.fits ==> score == Work(l.rules, l.origin, h)
    ensures var b, n := l.books, l.books.WithFork(h, score);
            && (k in BySlot(b.best, b.primary) ==> Get(BySlot(n.best, n.primary), k) == Get(BySlot(b.best, b.primary), k))
            && (l.fits && k in BySlot(b.best, b.scores) ==> Get(BySlot(n.best, n.scores), k) == Get(BySlot(b.best, b.scores), k))
  {
    OpenLedger(l);
  }

  lemma ForkImproves(l: Ledger, h: Header, score: nat, base: nat, hs: seq<Header>, ss: seq<nat>)
    requires l.Seal() == Intact
    requires l.fits ==> score == Work(l.rules, l.origin, h)
    ensures var b, n := l.books, l.books.WithFork(h, score);
            && Improves(BySlot(b.best, b.primary), BySlot(n.best, n.primary), base, hs)
            && (l.fits ==> Improves(BySlot(b.best, b.scores), BySlot(n.best, n.scores), base, ss))
  {
    forall k: nat
      ensures var b, n := l.books, l.books.WithFork(h, score);
              && (k in BySlot(b.best, b.primary) ==> Get(BySlot(n.best, n.primary), k) == Get(BySlot(b.best, b.primary), k))
              && (l.fits && k in BySlot(b.best, b.scores) ==> Get(BySlot(n.best, n.scores), k) == Get(BySlot(b.best, b.scores), k))
    {
      ForkHidesNothing(l, h, score, k);
    }
  }

  // ---- The heights that have a slot ----

  ghost function Heights(hs: seq<Header>): set<nat> {
    set i | 0 <= i < |hs| :: hs[i].height
  }

  lemma HeightsAdd(hs: seq<Header>, more: seq<Header>)
    ensures Heights(hs + more) == Heights(hs) + Heights(more)
  {
    var both := hs + more;
    forall i | 0 <= i < |hs|
      ensures hs[i].height in Heights(both)
    {
      assert both[i] == hs[i];
    }
    forall i | 0 <= i < |more|
      ensures more[i].height in Heights(both)
    {
      assert both[|hs| + i] == more[i];
    }
  }

  lemma {:induction false} BestKeys(best: map<nat, Id>, entries: seq<Entry>)
    requires Stepped(entries)
    ensures BestAfter(best, entries).Keys == best.Keys + Heights(Written(entries))
  {
    if entries != [] {
      var init := entries[..|entries| - 1];
      assert forall i {:trigger init[i]} :: 0 <= i < |init| ==> init[i] == entries[i];
      BestKeys(best, init);
      assert Last(entries) == entries[|entries| - 1] && Last(entries).header.height > 0;
      assert Written(entries) == Written(init) + [Last(entries).header];
      HeightsAdd(Written(init), [Last(entries).header]);
    }
  }

  lemma LedgerKeys(l: Ledger)
    requires l.Seal() == Intact && Linked(l.hs) && l.lo + |l.entries| == |l.hs|
    ensures Written(l.entries) == l.hs[l.lo..]
    ensures BestAfter(l.books.best, l.entries).Keys == l.books.best.Keys + Heights(l.hs[l.lo..])
  {
    OpenLedger(l);
    LedgerStepped(l);
    BestKeys(l.books.best, l.entries);
    assert Written(l.entries) == l.hs[l.lo..];
  }

  lemma SplitEntries(best: seq<Entry>, demoted: seq<Entry>, rules: Rules, origin: Option<Header>)
    ensures Heights(Written(best + demoted)) == Heights(Written(best)) + Heights(Written(demoted))
    ensures Stepped(best + demoted) ==> Stepped(best)
    ensures WorkEntries(rules, origin, best + demoted) ==> WorkEntries(rules, origin, demoted)
  {
    var entries := best + demoted;
    assert Written(entries) == Written(best) + Written(demoted);
    HeightsAdd(Written(best), Written(demoted));
    assert forall i {:trigger best[i]} :: 0 <= i < |best| ==> best[i] == entries[i];
    assert forall i {:trigger demoted[i]} :: 0 <= i < |demoted| ==> demoted[i] == entries[|best| + i];
  }

  lemma LedgerKeyed(l: Ledger)
    requires l.Seal() == Intact
    ensures RowsKeyed(l.books.primary, l.books.scores)
    ensures l.fits ==> AllWork(l.rules, l.origin, l.books.scores)
  {
    OpenLedger(l);
  }

  lemma EntriesStepped(l: Ledger)
    requires l.Seal() == Intact && Linked(l.hs)
    ensures Stepped(l.entries) && (l.entries != [] ==> l.hs != [] && l.entries[0].header.height == l.hs[0].height + l.lo)
    ensures l.fits ==> WorkEntries(l.rules, l.origin, l.entries)
  {
    OpenLedger(l);
    LedgerStepped(l);
  }

  /** A store in step with the chain improves on whatever the loaders served before. */
  lemma LedgerImproves(l: Ledger, t: Trail, headerView: map<nat, Header>, scoreView: map<nat, nat>)
    requires l.Seal() == Intact && l.entries == [] && Linked(l.hs) && l.hs != []
    requires t.Seal() == Intact && t.hs == l.hs && t.fits == l.fits && t.law.rules == l.rules && Origin(t.light, t.hs) == l.origin
    ensures Improves(headerView, BySlot(l.books.best, l.books.primary), l.hs[0].height, l.hs)
    ensures l.fits ==> Improves(scoreView, BySlot(l.books.best, l.books.scores), l.hs[0].height, t.ss)
  {
    OpenTrail(t);
    forall i | 0 <= i < |l.hs|
      ensures Get(BySlot(l.books.best, l.books.primary), l.hs[0].height + i) == Some(l.hs[i])
      ensures l.fits ==> Get(BySlot(l.books.best, l.books.scores), l.hs[0].height + i) == Some(t.ss[i])
    {
      LedgerServes(l, i);
      if l.fits {
        TrailWork(t, i);
      }
    }
  }
}
