/** Two nodes: one announces anchors, the other answers with the ids that come next. */
module CatchUp {
  import opened Seals
  import opened Headers
  import opened Difficulty
  import opened ChainSpec
  import opened ChainProofs
  import opened HeaderChains

  const SYNC_OFFSETS: seq<nat> := [0, 16, 128, 512]

  // ---- What a node announces ----

  function AnchorAt(hs: seq<Header>, offset: nat): seq<Header>
    requires hs != []
  {
    if offset <= TipHeight(hs) && TipHeight(hs) - offset >= hs[0].height
    then [hs[TipHeight(hs) - offset - hs[0].height]] else []
  }

  /** The tip and a few headers below it, as far down as the chain goes. */
  function SyncHeaders(hs: seq<Header>, offsets: seq<nat>): seq<Header> {
    if hs == [] || offsets == [] then []
    else SyncHeaders(hs, offsets[..|offsets| - 1]) + AnchorAt(hs, Last(offsets))
  }

  /** The anchors as they are read from the chain; none is announced that is not on it. */
  method SelectAnchors(chain: HeaderChain) returns (selected: seq<Header>)
    requires chain.Sound()
    modifies chain.lazy`headers, chain.lazy`strayed
    ensures chain.Sound()
    ensures forall h :: h in selected ==> HeightOf(chain.hs, IdOf(h)) == Some(h.height)
    ensures chain.lazy.Fits() ==> selected == SyncHeaders(chain.hs, SYNC_OFFSETS)
  {
    selected := [];
    chain.Sizes();
    if chain.IsEmpty() {
      return;
    }
    var tip := chain.Height();
    var lowest := chain.HeaderAt(tip - (|chain.byId| - 1));
    var base := if lowest.Some? then lowest.value.height else 1;
    for i := 0 to |SYNC_OFFSETS|
      invariant chain.Sound()
      invariant forall h :: h in selected ==> HeightOf(chain.hs, IdOf(h)) == Some(h.height)
      invariant chain.lazy.Fits() ==> base == chain.hs[0].height && selected == SyncHeaders(chain.hs, SYNC_OFFSETS[..i])
    {
      assert SYNC_OFFSETS[..i + 1][..i] == SYNC_OFFSETS[..i] && Last(SYNC_OFFSETS[..i + 1]) == SYNC_OFFSETS[i];
      var more := SelectOne(chain, tip, base, SYNC_OFFSETS[i]);
      selected := selected + more;
    }
    assert SYNC_OFFSETS[..|SYNC_OFFSETS|] == SYNC_OFFSETS;
  }

  method SelectOne(chain: HeaderChain, tip: nat, base: nat, offset: nat) returns (more: seq<Header>)
    requires chain.Sound() && chain.hs != [] && tip == TipHeight(chain.hs)
    modifies chain.lazy`headers, chain.lazy`strayed
    ensures chain.Sound()
    ensures forall h :: h in more ==> HeightOf(chain.hs, IdOf(h)) == Some(h.height)
    ensures chain.lazy.Fits() ==> old(chain.lazy.Fits())
    ensures chain.lazy.Fits() && base == chain.hs[0].height ==> more == AnchorAt(chain.hs, offset)
  {
    more := [];
    if offset <= tip && tip - offset >= base {
      var h := chain.HeaderAt(tip - offset);
      if h.Some? {
        chain.SlotHeader(tip - offset);
        more := [h.value];
      }
    }
  }

  // ---- What a node answers ----

  /** Height of the highest anchor that is on the chain. */
  function BestAnchor(hs: seq<Header>, anchors: seq<Id>): Option<nat> {
    if anchors == [] then None
    else
      var rest, last := BestAnchor(hs, anchors[..|anchors| - 1]), HeightOf(hs, Last(anchors));
      if rest.None? || (last.Some? && last.value > rest.value) then last else rest
  }

  /** Ids of the headers found at the `count` heights from `from` on. */
  function IdsFrom(hs: seq<Header>, from: nat, count: nat): seq<Id> {
    if count == 0 then []
    else
      IdsFrom(hs, from, count - 1)
      + match HeaderAt(hs, from + count - 1) { case Some(h) => [IdOf(h)] case None => [] }
  }

  function ContinuationIds(hs: seq<Header>, anchors: seq<Id>, limit: nat): seq<Id> {
    var anchor := if anchors == [] then Some(0) else BestAnchor(hs, anchors);
    if anchor.None? then [] else IdsAfter(hs, anchor.value, limit)
  }

  function IdsAfter(hs: seq<Header>, anchor: nat, limit: nat): seq<Id> {
    if anchor >= TipHeight(hs) then []
    else
      var gap := TipHeight(hs) - anchor;
      IdsFrom(hs, anchor + 1, if limit < gap then limit else gap)
  }

  lemma {:induction false} IdsFromChain(hs: seq<Header>, at: nat, count: nat)
    requires hs != [] && at + count <= |hs|
    ensures IdsFrom(hs, hs[0].height + at, count) == Ids(hs[at..at + count])
  {
    if count > 0 {
      IdsFromChain(hs, at, count - 1);
      assert hs[at..at + count] == hs[at..at + count - 1] + [hs[at + count - 1]];
    }
  }

  // ---- Where two chains part ----

  /** Number of headers two chains have in common. */
  function Common(one: seq<Header>, two: seq<Header>): nat {
    if one == [] || two == [] || one[0] != two[0] then 0 else 1 + Common(one[1..], two[1..])
  }

  lemma {:induction false} CommonPrefix(one: seq<Header>, two: seq<Header>)
    ensures var c := Common(one, two);
            && c <= |one| && c <= |two| && one[..c] == two[..c]
            && (c < |one| && c < |two| ==> one[c] != two[c])
    decreases |one|
  {
    if one != [] && two != [] && one[0] == two[0] {
      CommonPrefix(one[1..], two[1..]);
      var c := Common(one, two);
      assert one[..c] == [one[0]] + one[1..][..c - 1];
      assert two[..c] == [two[0]] + two[1..][..c - 1];
    }
  }

  /** A header pins down everything below it, so chains that part never meet again. */
  lemma {:induction false} SameBelow(one: seq<Header>, two: seq<Header>, i: nat)
    requires Linked(one) && Linked(two) && i < |one| && i < |two| && one[i] == two[i]
    ensures one[..i + 1] == two[..i + 1]
    decreases i
  {
    if i == 0 {
      assert one[..1] == [one[0]] && two[..1] == [two[0]];
    } else {
      assert Slot(i);
      SameBelow(one, two, i - 1);
      assert one[..i + 1] == one[..i] + [one[i]] && two[..i + 1] == two[..i] + [two[i]];
    }
  }

  lemma KnownIffCommon(ours: seq<Header>, theirs: seq<Header>, i: nat)
    requires ours != [] && Linked(ours) && Linked(theirs) && i < |theirs| && ours[0].height == theirs[0].height
    ensures HeightOf(ours, IdOf(theirs[i])) == if i < Common(theirs, ours) then Some(theirs[i].height) else None
  {
    var c := Common(theirs, ours);
    CommonPrefix(theirs, ours);
    assert theirs[i].height == theirs[0].height + i;
    if i < c {
      assert theirs[..c][i] == ours[..c][i];
    } else if i < |ours| && theirs[i] == ours[i] {
      SameBelow(theirs, ours, i);
    }
  }

  /** How many headers of the chain lie below a height. */
  function Below(hs: seq<Header>, base: nat): nat
    requires hs != []
  {
    if hs[0].height < base then base - hs[0].height else 0
  }

  /** The headers of the chain from a height up. */
  function From(hs: seq<Header>, base: nat): seq<Header>
    requires hs != []
  {
    if Below(hs, base) <= |hs| then hs[Below(hs, base)..] else []
  }

  /** The position in `theirs` where the two chains part; a light client's chain starts above the other. */
  function SharedEnd(theirs: seq<Header>, ours: seq<Header>): nat
    requires theirs != [] && ours != []
  {
    Below(theirs, ours[0].height) + Common(From(theirs, ours[0].height), From(ours, theirs[0].height))
  }

  lemma HeightOfFrom(hs: seq<Header>, base: nat, id: Id)
    requires hs != [] && Linked(hs) && id.IdOf? && base <= id.header.height
    ensures HeightOf(From(hs, base), id) == HeightOf(hs, id)
  {
    var d := Below(hs, base);
    if d < |hs| {
      assert hs[d].height == hs[0].height + d;
    }
  }

  lemma FromLinked(hs: seq<Header>, base: nat)
    requires hs != [] && Linked(hs)
    ensures Linked(From(hs, base))
    ensures From(hs, base) != [] ==> From(hs, base)[0].height == if hs[0].height < base then base else hs[0].height
  {
    var d := Below(hs, base);
    if d < |hs| {
      var rest := hs[d..];
      assert hs[d].height == hs[0].height + d;
      forall i | 0 <= i < |rest|
        ensures rest[i].height == rest[0].height + i
      {
        assert hs[d + i].height == hs[0].height + d + i;
      }
      forall i | 0 < i < |rest|
        ensures rest[i].parentId == IdOf(rest[i - 1])
      {
        assert Slot(d + i);
      }
    }
  }

  /** The other chain knows exactly the headers from where the two start overlapping to where they part. */
  lemma KnownIffShared(ours: seq<Header>, theirs: seq<Header>, i: nat)
    requires ours != [] && Linked(ours) && Linked(theirs) && i < |theirs|
    ensures HeightOf(ours, IdOf(theirs[i]))
         == if Below(theirs, ours[0].height) <= i < SharedEnd(theirs, ours) then Some(theirs[i].height) else None
  {
    var d := Below(theirs, ours[0].height);
    assert theirs[i].height == theirs[0].height + i;
    if d <= i {
      var mine, yours := From(ours, theirs[0].height), From(theirs, ours[0].height);
      FromLinked(ours, theirs[0].height);
      FromLinked(theirs, ours[0].height);
      HeightOfFrom(ours, theirs[0].height, IdOf(theirs[i]));
      assert yours[i - d] == theirs[i];
      if mine != [] {
        KnownIffCommon(mine, yours, i - d);
      }
    }
  }

  lemma SharedBounds(ours: seq<Header>, theirs: seq<Header>)
    requires ours != [] && theirs != []
    ensures var lo, hi := Below(theirs, ours[0].height), SharedEnd(theirs, ours);
            lo < hi ==> hi <= |theirs| && ours[0].height <= theirs[0].height + lo && theirs[0].height + hi <= ours[0].height + |ours|
  {
    CommonPrefix(From(theirs, ours[0].height), From(ours, theirs[0].height));
  }

  // ---- The answer to an announcement ----

  /** Height of the highest announced header between the positions `lo` and `hi`. */
  ghost function HighestShared(theirs: seq<Header>, offsets: seq<nat>, lo: nat, hi: nat): Option<nat> {
    if theirs == [] || offsets == [] then None
    else
      var rest := HighestShared(theirs, offsets[..|offsets| - 1], lo, hi);
      var o := Last(offsets);
      if o < |theirs| && lo <= |theirs| - 1 - o < hi && (rest.None? || TipHeight(theirs) - o > rest.value)
      then Some(TipHeight(theirs) - o) else rest
  }

  lemma {:induction false} BestAnchorPush(hs: seq<Header>, anchors: seq<Id>, more: seq<Id>)
    requires |more| <= 1
    ensures BestAnchor(hs, anchors + more) ==
            if more == [] then BestAnchor(hs, anchors)
            else if BestAnchor(hs, anchors).None?
                    || (HeightOf(hs, more[0]).Some? && HeightOf(hs, more[0]).value > BestAnchor(hs, anchors).value)
            then HeightOf(hs, more[0]) else BestAnchor(hs, anchors)
  {
    if more == [] {
      assert anchors + more == anchors;
    } else {
      assert (anchors + more)[..|anchors + more| - 1] == anchors;
    }
  }

  /** Of everything announced, the answering node finds the highest shared header. */
  lemma AnchorIsShared(ours: seq<Header>, theirs: seq<Header>, offsets: seq<nat>)
    requires ours != [] && theirs != [] && Linked(ours) && Linked(theirs)
    ensures BestAnchor(ours, Ids(SyncHeaders(theirs, offsets)))
         == HighestShared(theirs, offsets, Below(theirs, ours[0].height), SharedEnd(theirs, ours))
  {
    forall i | 0 <= i < |theirs|
      ensures KnownBetween(ours, theirs[i], i, Below(theirs, ours[0].height), SharedEnd(theirs, ours))
    {
      KnownIffShared(ours, theirs, i);
    }
    AnchorBetween(ours, theirs, offsets, Below(theirs, ours[0].height), SharedEnd(theirs, ours));
  }

  ghost predicate KnownBetween(ours: seq<Header>, h: Header, i: nat, lo: nat, hi: nat) {
    HeightOf(ours, IdOf(h)) == if lo <= i < hi then Some(h.height) else None
  }

  lemma {:induction false} AnchorBetween(ours: seq<Header>, theirs: seq<Header>, offsets: seq<nat>, lo: nat, hi: nat)
    requires theirs != [] && Linked(theirs)
    requires forall i {:trigger theirs[i]} :: 0 <= i < |theirs| ==> KnownBetween(ours, theirs[i], i, lo, hi)
    ensures BestAnchor(ours, Ids(SyncHeaders(theirs, offsets))) == HighestShared(theirs, offsets, lo, hi)
    decreases |offsets|
  {
    if offsets != [] {
      var init, o := offsets[..|offsets| - 1], Last(offsets);
      AnchorBetween(ours, theirs, init, lo, hi);
      var last := AnchorAt(theirs, o);
      assert Ids(SyncHeaders(theirs, offsets)) == Ids(SyncHeaders(theirs, init)) + Ids(last);
      BestAnchorPush(ours, Ids(SyncHeaders(theirs, init)), Ids(last));
      if o < |theirs| {
        assert theirs[|theirs| - 1 - o].height == TipHeight(theirs) - o;
      }
    }
  }

  /** Announced are the headers 0, 16, 128 and 512 below the tip, as far as the chain goes. */
  lemma AnnouncedIff(hs: seq<Header>, i: nat)
    requires Linked(hs) && i < |hs|
    ensures hs[i] in SyncHeaders(hs, SYNC_OFFSETS) <==> |hs| - 1 - i in {0, 16, 128, 512}
  {
    InSyncHeaders(hs, SYNC_OFFSETS, i);
    assert |hs| - 1 - i in SYNC_OFFSETS <==> |hs| - 1 - i in {0, 16, 128, 512};
  }

  lemma {:induction false} InSyncHeaders(hs: seq<Header>, offsets: seq<nat>, i: nat)
    requires Linked(hs) && i < |hs|
    ensures hs[i] in SyncHeaders(hs, offsets) <==> |hs| - 1 - i in offsets
    decreases |offsets|
  {
    if offsets != [] {
      var init, o := offsets[..|offsets| - 1], Last(offsets);
      InSyncHeaders(hs, init, i);
      assert offsets == init + [o];
      assert hs[i].height == hs[0].height + i;
      if o < |hs| {
        assert hs[|hs| - 1 - o].height == hs[0].height + (|hs| - 1 - o);
      }
    }
  }

  lemma {:induction false} BestAnchorAtLeast(hs: seq<Header>, anchors: seq<Id>, id: Id)
    requires id in anchors && HeightOf(hs, id).Some?
    ensures BestAnchor(hs, anchors).Some? && BestAnchor(hs, anchors).value >= HeightOf(hs, id).value
  {
    var init := anchors[..|anchors| - 1];
    assert anchors == init + [Last(anchors)];
    if id in init {
      BestAnchorAtLeast(hs, init, id);
    }
  }

  /** A peer whose header 512 below its tip is ours too always gets an answer, from there or from higher up. */
  lemma PartedLately(ours: seq<Header>, theirs: seq<Header>)
    requires Linked(theirs) && |theirs| > 512 && HeightOf(ours, IdOf(theirs[|theirs| - 513])).Some?
    ensures var at := BestAnchor(ours, Ids(SyncHeaders(theirs, SYNC_OFFSETS)));
            at.Some? && at.value + 512 >= TipHeight(theirs)
  {
    var i := |theirs| - 513;
    AnnouncedIff(theirs, i);
    var announced := SyncHeaders(theirs, SYNC_OFFSETS);
    var k :| 0 <= k < |announced| && announced[k] == theirs[i];
    assert Ids(announced)[k] == IdOf(theirs[i]);
    BestAnchorAtLeast(ours, Ids(announced), IdOf(theirs[i]));
    assert theirs[i].height == theirs[0].height + i;
  }

  /** The ids of at most `limit` headers that follow the one at height `at`. */
  ghost function NextIds(hs: seq<Header>, at: nat, limit: nat): seq<Id>
    requires hs != [] && hs[0].height <= at <= TipHeight(hs)
  {
    var next := at - hs[0].height + 1;
    Ids(hs[next..if next + limit < |hs| then next + limit else |hs|])
  }

  lemma IdsAfterAreNext(ours: seq<Header>, at: nat, limit: nat)
    requires ours != [] && ours[0].height <= at <= TipHeight(ours)
    ensures IdsAfter(ours, at, limit) == NextIds(ours, at, limit)
  {
    var next, gap := at - ours[0].height + 1, TipHeight(ours) - at;
    IdsFromChain(ours, next, if limit < gap then limit else gap);
  }

  lemma ServedAfter(ours: seq<Header>, anchors: seq<Id>, at: nat, limit: nat)
    requires ours != [] && anchors != [] && BestAnchor(ours, anchors) == Some(at) && ours[0].height <= at <= TipHeight(ours)
    ensures ContinuationIds(ours, anchors, limit) == NextIds(ours, at, limit)
  {
    IdsAfterAreNext(ours, at, limit);
  }

  /**
   A peer is served what follows its highest announced header that we share, and nothing if we
   share none of them; wherever the two chains start.
   */
  lemma ServedFromHighestShared(ours: seq<Header>, theirs: seq<Header>, offsets: seq<nat>, limit: nat)
    requires ours != [] && theirs != [] && Linked(ours) && Linked(theirs)
    requires SyncHeaders(theirs, offsets) != []
    ensures var shared := HighestShared(theirs, offsets, Below(theirs, ours[0].height), SharedEnd(theirs, ours));
            var served := ContinuationIds(ours, Ids(SyncHeaders(theirs, offsets)), limit);
            if shared.None? then served == []
            else ours[0].height <= shared.value <= TipHeight(ours) && served == NextIds(ours, shared.value, limit)
  {
    AnchorIsShared(ours, theirs, offsets);
    var lo, hi := Below(theirs, ours[0].height), SharedEnd(theirs, ours);
    var shared := HighestShared(theirs, offsets, lo, hi);
    if shared.Some? {
      SharedBounds(ours, theirs);
      SharedInRange(theirs, offsets, lo, hi);
      ServedAfter(ours, Ids(SyncHeaders(theirs, offsets)), shared.value, limit);
    }
  }

  lemma {:induction false} SharedInRange(theirs: seq<Header>, offsets: seq<nat>, lo: nat, hi: nat)
    requires theirs != [] && HighestShared(theirs, offsets, lo, hi).Some?
    ensures theirs[0].height + lo <= HighestShared(theirs, offsets, lo, hi).value < theirs[0].height + hi
    decreases |offsets|
  {
    var init, o := offsets[..|offsets| - 1], Last(offsets);
    if HighestShared(theirs, init, lo, hi).Some? {
      SharedInRange(theirs, init, lo, hi);
    }
  }

  /** An announcement always starts with the tip. */
  lemma {:induction false} AnnouncesTip(hs: seq<Header>, n: nat)
    requires hs != [] && 0 < n <= |SYNC_OFFSETS|
    ensures SyncHeaders(hs, SYNC_OFFSETS[..n]) != [] && SyncHeaders(hs, SYNC_OFFSETS[..n])[0] == Last(hs)
    decreases n
  {
    var offsets := SYNC_OFFSETS[..n];
    assert offsets[..n - 1] == SYNC_OFFSETS[..n - 1];
    if n == 1 {
      assert offsets == [0];
    } else {
      AnnouncesTip(hs, n - 1);
    }
  }

  lemma Offsets(hs: seq<Header>)
    requires hs != []
    ensures 0 in SYNC_OFFSETS && SyncHeaders(hs, SYNC_OFFSETS) != [] && SyncHeaders(hs, SYNC_OFFSETS)[0] == Last(hs)
  {
    AnnouncesTip(hs, |SYNC_OFFSETS|);
    assert SYNC_OFFSETS[..|SYNC_OFFSETS|] == SYNC_OFFSETS && SYNC_OFFSETS[0] == 0;
  }

  // ---- A peer that is merely behind ----

  lemma {:induction false} SharesAll(theirs: seq<Header>, offsets: seq<nat>)
    requires theirs != [] && 0 in offsets
    ensures HighestShared(theirs, offsets, 0, |theirs|) == Some(TipHeight(theirs))
    decreases |offsets|
  {
    var init, o := offsets[..|offsets| - 1], Last(offsets);
    if 0 in init {
      SharesAll(theirs, init);
    } else {
      if HighestShared(theirs, init, 0, |theirs|).Some? {
        SharedBelowTip(theirs, init, 0, |theirs|);
      }
    }
  }

  lemma {:induction false} SharedBelowTip(theirs: seq<Header>, offsets: seq<nat>, lo: nat, hi: nat)
    requires theirs != [] && 0 !in offsets && HighestShared(theirs, offsets, lo, hi).Some?
    ensures HighestShared(theirs, offsets, lo, hi).value < TipHeight(theirs)
    decreases |offsets|
  {
    var init := offsets[..|offsets| - 1];
    assert Last(offsets) in offsets;
    if HighestShared(theirs, init, lo, hi).Some? {
      SharedBelowTip(theirs, init, lo, hi);
    }
  }

  lemma {:induction false} PrefixIsCommon(theirs: seq<Header>, ours: seq<Header>)
    requires theirs <= ours
    ensures Common(theirs, ours) == |theirs|
  {
    if theirs != [] {
      PrefixIsCommon(theirs[1..], ours[1..]);
    }
  }

  /** A peer whose chain is a stretch of ours is served exactly the ids that come next. */
  lemma ServedNext(ours: seq<Header>, d: nat, n: nat, offsets: seq<nat>, limit: nat)
    requires d < n <= |ours| && Linked(ours)
    requires 0 in offsets && SyncHeaders(ours[d..n], offsets) != []
    ensures ContinuationIds(ours, Ids(SyncHeaders(ours[d..n], offsets)), limit) == Ids(ours[n..if n + limit < |ours| then n + limit else |ours|])
  {
    AnchorIsTip(ours, d, n, offsets);
    assert TipHeight(ours[d..n]) == ours[0].height + n - 1 by {
      assert ours[d].height == ours[0].height + d;
    }
    ServedAfter(ours, Ids(SyncHeaders(ours[d..n], offsets)), TipHeight(ours[d..n]), limit);
  }

  lemma AnchorIsTip(ours: seq<Header>, d: nat, n: nat, offsets: seq<nat>)
    requires d < n <= |ours| && Linked(ours) && 0 in offsets
    ensures BestAnchor(ours, Ids(SyncHeaders(ours[d..n], offsets))) == Some(TipHeight(ours[d..n]))
  {
    PartIsShared(ours, d, n);
    TipIsShared(ours, ours[d..n], offsets);
  }

  lemma TipIsShared(ours: seq<Header>, theirs: seq<Header>, offsets: seq<nat>)
    requires ours != [] && theirs != [] && Linked(ours) && Linked(theirs) && 0 in offsets
    requires Below(theirs, ours[0].height) == 0 && SharedEnd(theirs, ours) == |theirs|
    ensures BestAnchor(ours, Ids(SyncHeaders(theirs, offsets))) == Some(TipHeight(theirs))
  {
    SharesAll(theirs, offsets);
    AnchorIsShared(ours, theirs, offsets);
  }

  /** A stretch of our own chain is shared to its end. */
  lemma PartIsShared(ours: seq<Header>, d: nat, n: nat)
    requires d < n <= |ours| && Linked(ours)
    ensures Linked(ours[d..n]) && Below(ours[d..n], ours[0].height) == 0 && SharedEnd(ours[d..n], ours) == n - d
  {
    var theirs := ours[d..n];
    assert ours[d].height == ours[0].height + d;
    FromLinked(ours, theirs[0].height);
    PrefixLinked(From(ours, theirs[0].height), n - d);
    assert theirs == ours[d..][..n - d];
    PrefixIsCommon(theirs, ours[d..]);
    assert theirs[0..] == theirs;
  }

  /** A fresh peer starts at height one. */
  lemma ServedFromGenesis(ours: seq<Header>, limit: nat)
    requires ours != [] && ours[0].height == 1
    ensures ContinuationIds(ours, Ids(SyncHeaders([], SYNC_OFFSETS)), limit) == Ids(ours[..if limit < |ours| then limit else |ours|])
  {
    var n := if limit < |ours| then limit else |ours|;
    assert Ids(SyncHeaders([], SYNC_OFFSETS)) == [];
    IdsFromChain(ours, 0, n);
    assert ours[0..n] == ours[..n];
  }

  /** What a node has after trying to append the header with this id. */
  ghost function Take(law: Law, light: bool, hs: seq<Header>, id: Id, env: nat -> Env): seq<Header> {
    if id.IdOf? then AfterAppend(hs, id.header, Append(law, light, hs, id.header, env(id.header.height))) else hs
  }

  type Taking = (seq<Header>, Id) -> seq<Header>

  /** The same for several ids, in order. */
  ghost function Receive(take: Taking, hs: seq<Header>, ids: seq<Id>): seq<Header> {
    if ids == [] then hs else take(Receive(take, hs, ids[..|ids| - 1]), Last(ids))
  }

  /** Neither the clock nor the seal of any header of the chain stands in its way. */
  ghost predicate Acceptable(law: Law, hs: seq<Header>, env: nat -> Env) {
    forall i {:trigger hs[i]} :: 0 <= i < |hs| ==>
      Cleared(law.rules, hs[i], env(hs[i].height), 0)
  }

  /** A full node has the chain from its start; a light client may lack any part of it below its tip. */
  ghost predicate Starts(light: bool, d: nat, n: nat) {
    if light then d < n else d == 0
  }

  lemma AppendNext(law: Law, light: bool, hs: seq<Header>, d: nat, n: nat, env: nat -> Env)
    requires Accepted(law, hs) && Acceptable(law, hs, env) && Starts(light, d, n) && n < |hs|
    ensures Append(law, light, hs[d..n], hs[n], env(hs[n].height)).Extended?
  {
    if n > 0 {
      var below := hs[d..n];
      assert Last(below) == hs[n - 1] && Slot(n) && Slot(n - 1);
      assert hs[n].height == hs[0].height + n && hs[n - 1].height == hs[0].height + n - 1;
      assert d == 0 ==> below == hs[..n];
    }
  }

  lemma TakeNext(law: Law, light: bool, hs: seq<Header>, d: nat, n: nat, env: nat -> Env)
    requires Accepted(law, hs) && Acceptable(law, hs, env) && Starts(light, d, n) && n < |hs|
    ensures Take(law, light, hs[d..n], IdOf(hs[n]), env) == hs[d..n + 1]
  {
    AppendNext(law, light, hs, d, n, env);
    assert hs[d..n + 1] == hs[d..n] + [hs[n]];
  }

  /** The headers of the chain from position `n` on can be taken one by one. */
  ghost predicate Takeable(take: Taking, hs: seq<Header>, d: nat, n: nat) {
    forall m {:trigger Slot(m)} :: Slot(m) && d <= m && n <= m < |hs| ==> take(hs[d..m], IdOf(hs[m])) == hs[d..m + 1]
  }

  lemma {:induction false} ReceiveAll(take: Taking, hs: seq<Header>, d: nat, from: nat, end: nat)
    requires Takeable(take, hs, d, from) && d <= from <= end <= |hs|
    ensures Receive(take, hs[d..from], Ids(hs[from..end])) == hs[d..end]
    decreases end
  {
    var ids := Ids(hs[from..end]);
    if from < end {
      assert hs[from..end][..end - 1 - from] == hs[from..end - 1];
      assert ids[..|ids| - 1] == Ids(hs[from..end - 1]);
      ReceiveAll(take, hs, d, from, end - 1);
      assert Slot(end - 1);
    }
  }

  /** One announcement, one answer, and what the peer then has. */
  ghost function Round(take: Taking, ours: seq<Header>, theirs: seq<Header>, limit: nat): seq<Header> {
    Receive(take, theirs, ContinuationIds(ours, Ids(SyncHeaders(theirs, SYNC_OFFSETS)), limit))
  }

  lemma RoundAdvances(take: Taking, ours: seq<Header>, d: nat, n: nat, limit: nat)
    requires ours != [] && Linked(ours) && ours[0].height == 1 && Takeable(take, ours, d, n)
    requires (d < n || d == n == 0) && n <= |ours|
    ensures Round(take, ours, ours[d..n], limit) == ours[d..if n + limit < |ours| then n + limit else |ours|]
  {
    var end := if n + limit < |ours| then n + limit else |ours|;
    if n == 0 {
      assert ours[d..n] == [];
      ServedFromGenesis(ours, limit);
      assert ours[..end] == ours[n..end];
    } else {
      Offsets(ours[d..n]);
      ServedNext(ours, d, n, SYNC_OFFSETS, limit);
    }
    ReceiveAll(take, ours, d, n, end);
  }

  ghost function Rounds(round: seq<Header> -> seq<Header>, theirs: seq<Header>, k: nat): seq<Header> {
    if k == 0 then theirs else round(Rounds(round, theirs, k - 1))
  }

  /** How many headers a peer has after `k` rounds. */
  ghost function Reached(n: nat, size: nat, limit: nat, k: nat): nat
    requires n <= size
    ensures n <= Reached(n, size, limit, k) <= size
  {
    if k == 0 then n
    else
      var m := Reached(n, size, limit, k - 1);
      if m + limit < size then m + limit else size
  }

  lemma {:induction false} ReachedIs(n: nat, size: nat, limit: nat, k: nat)
    requires n <= size
    ensures Reached(n, size, limit, k) == if n + k * limit < size then n + k * limit else size
  {
    if k > 0 {
      ReachedIs(n, size, limit, k - 1);
      assert k * limit == (k - 1) * limit + limit;
    }
  }

  lemma {:induction false} RoundsReach(round: seq<Header> -> seq<Header>, ours: seq<Header>, d: nat, n: nat, limit: nat, k: nat)
    requires d <= n <= |ours|
    requires forall m {:trigger Slot(m)} :: Slot(m) && n <= m <= |ours| ==> round(ours[d..m]) == ours[d..if m + limit < |ours| then m + limit else |ours|]
    ensures Rounds(round, ours[d..n], k) == ours[d..Reached(n, |ours|, limit, k)]
  {
    if k > 0 {
      RoundsReach(round, ours, d, n, limit, k - 1);
      assert Slot(Reached(n, |ours|, limit, k - 1));
    }
  }

  /**
   A peer whose chain is the start of ours, or any stretch of it if the peer is a light client,
   reaches our tip with the first round that covers the gap, and with no earlier one; on the way
   it has exactly what it was served.
   */
  lemma CatchesUp(law: Law, light: bool, ours: seq<Header>, d: nat, n: nat, limit: nat, env: nat -> Env, k: nat)
    requires ours != [] && Accepted(law, ours) && Acceptable(law, ours, env) && Starts(light, d, n) && n <= |ours|
    ensures var take: Taking := (hs, id) => Take(law, light, hs, id, env);
            var after := Rounds((hs: seq<Header>) => Round(take, ours, hs, limit), ours[d..n], k);
            && after == ours[d..Reached(n, |ours|, limit, k)]
            && (after == ours[d..] <==> k * limit >= |ours| - n)
  {
    var take: Taking := (hs, id) => Take(law, light, hs, id, env);
    var round := (hs: seq<Header>) => Round(take, ours, hs, limit);
    forall m | n <= m < |ours|
      ensures take(ours[d..m], IdOf(ours[m])) == ours[d..m + 1]
    {
      TakeNext(law, light, ours, d, m, env);
    }
    forall m | n <= m <= |ours|
      ensures round(ours[d..m]) == ours[d..if m + limit < |ours| then m + limit else |ours|]
    {
      RoundAdvances(take, ours, d, m, limit);
    }
    RoundsReach(round, ours, d, n, limit, k);
    ReachedIs(n, |ours|, limit, k);
    WholeIffAll(ours, d, Reached(n, |ours|, limit, k));
  }

  lemma WholeIffAll(hs: seq<Header>, d: nat, m: nat)
    requires d <= m <= |hs|
    ensures hs[d..m] == hs[d..] <==> m == |hs|
  {
    assert |hs[d..m]| == m - d && |hs[d..]| == |hs| - d;
    assert hs[d..|hs|] == hs[d..];
  }
}
