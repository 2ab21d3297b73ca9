/**
 The header chain: an id-to-height index over a bounded cache over a store. It appends,
 reports forks and reorganises with rollback.

 Two kinds of promise run through the contracts. What depends only on the index holds for
 every loader and every cache size: a header read back is the accepted one or none at all.
 What depends on reading all of it back (scores, difficulties, not panicking) holds as long
 as the heights used since the store last agreed with the chain fit the cache.
 */
module HeaderChains {
  import opened Seals
  import opened Headers
  import opened Difficulty
  import opened Adjustment
  import opened LruCache
  import opened Store
  import opened LazyStore
  import opened ChainSpec
  import opened ChainProofs
  import opened Linkage

  /** A call either returns or panics on a read that it takes for granted. */
  datatype Attempt<+T> = Returned(value: T) | Panicked

  /** What comes of a verdict: the one about a zero divisor is never given, the call panics. */
  ghost function Faced(fault: Option<ChainError>): Attempt<Option<ChainError>> {
    if fault == Some(DivisionPanic) then Panicked else Returned(fault)
  }

  ghost function Concluded(r: Reorged): Attempt<Reorged> {
    if r == Refused(DivisionPanic) then Panicked else Returned(r)
  }

  /** The index maps exactly the ids of `hs` to consecutive heights from `base`. */
  ghost predicate Indexed(byId: map<Id, nat>, base: nat, hs: seq<Header>) {
    && (forall i {:trigger Slot(i)} :: Slot(i) && 0 <= i < |hs| ==> IdOf(hs[i]) in byId && byId[IdOf(hs[i])] == base + i)
    && (forall id :: id in byId ==> base <= byId[id] < base + |hs| && IdOf(hs[byId[id] - base]) == id)
  }

  lemma {:induction false} IndexedSize(byId: map<Id, nat>, base: nat, hs: seq<Header>)
    requires Indexed(byId, base, hs)
    ensures |byId| == |hs|
    decreases |hs|
  {
    if hs == [] {
      assert forall id :: id !in byId;
      assert byId == map[];
    } else {
      var last := IdOf(Last(hs));
      var rest := byId - {last};
      IndexedPop(byId, base, hs);
      IndexedSize(rest, base, hs[..|hs| - 1]);
      assert byId.Keys == rest.Keys + {last};
      assert |byId.Keys| == |rest.Keys| + 1;
    }
  }

  lemma IndexedPush(byId: map<Id, nat>, base: nat, hs: seq<Header>, h: Header)
    requires Indexed(byId, base, hs)
    requires forall i {:trigger hs[i].height} :: 0 <= i < |hs| ==> hs[i].height == base + i
    requires h.height == base + |hs|
    ensures Indexed(byId[IdOf(h) := h.height], base, hs + [h])
  {
    assert IdOf(h) !in byId;
  }

  lemma IndexedPop(byId: map<Id, nat>, base: nat, hs: seq<Header>)
    requires Indexed(byId, base, hs) && hs != []
    ensures Get(byId, IdOf(Last(hs))) == Some(base + |hs| - 1)
    ensures Indexed(byId - {IdOf(Last(hs))}, base, hs[..|hs| - 1])
  {
    assert Slot(|hs| - 1);
  }

  lemma IndexedPrefix(byId: map<Id, nat>, base: nat, hs: seq<Header>, keep: nat, gone: set<Id>)
    requires Indexed(byId, base, hs) && keep <= |hs|
    requires forall id :: id in gone <==> exists j :: keep <= j < |hs| && IdOf(hs[j]) == id
    ensures Indexed(byId - gone, base, hs[..keep])
  {
    forall id | id in byId - gone
      ensures byId[id] < base + keep
    {
      assert IdOf(hs[byId[id] - base]) == id;
    }
    forall i | 0 <= i < keep
      ensures IdOf(hs[i]) in byId - gone && byId[IdOf(hs[i])] == base + i
    {
      assert Slot(i);
      if IdOf(hs[i]) in gone {
        var j :| keep <= j < |hs| && IdOf(hs[j]) == IdOf(hs[i]);
        assert Slot(j);
      }
    }
  }

  lemma IndexedUnique(one: map<Id, nat>, two: map<Id, nat>, base: nat, hs: seq<Header>)
    requires Indexed(one, base, hs) && Indexed(two, base, hs)
    ensures one == two
  {
    forall id | id in one
      ensures id in two && two[id] == one[id]
    {
      assert Slot(one[id] - base);
    }
    forall id | id in two
      ensures id in one
    {
      assert Slot(two[id] - base);
    }
  }

  /** The law's difficulty rule is the one this network recalculates with. */
  ghost predicate Lawful(law: Law) {
    forall hs: seq<Header> {:trigger Computes(hs)} :: Computes(hs) && hs != [] ==> law.next(hs) == ExpectedNBits(law.rules, hs)
  }

  // ---- When a reorganisation panics ----

  /** The fault of the i-th header of a branch, if all before it are in order. */
  function StepFault(law: Law, prefix: seq<Header>, branch: seq<Header>, env: Env, i: nat): Option<ChainError>
    requires prefix != [] && i < |branch|
  {
    var current, h, expected := prefix + branch[..i], branch[i], TipHeight(prefix) + 1 + i;
    if i > 0 && h.parentId != IdOf(Last(current)) then Some(ParentNotFound(h.parentId))
    else if h.height != expected then Some(NonSequentialHeight(expected, h.height))
    else ReorgFault(law, current, h, env, i)
  }

  /** The i-th header is in its place and in time, and its difficulty cannot be computed. */
  ghost predicate DividesAt(law: Law, prefix: seq<Header>, branch: seq<Header>, env: Env, i: nat)
    requires prefix != [] && i < |branch|
  {
    var current, h := prefix + branch[..i], branch[i];
    && (i > 0 ==> h.parentId == IdOf(Last(current)))
    && h.height == TipHeight(prefix) + 1 + i
    && TimeFault(law.rules, Last(current), h, env.clock(i)).None?
    && NextDividesByZero(law.rules, current)
  }

  lemma StepPanicsIff(law: Law, prefix: seq<Header>, branch: seq<Header>, env: Env, i: nat)
    requires Lawful(law) && prefix != [] && i < |branch| && Linked(prefix + branch[..i])
    ensures StepFault(law, prefix, branch, env, i) == Some(DivisionPanic) <==> DividesAt(law, prefix, branch, env, i)
  {
    var current := prefix + branch[..i];
    assert Computes(current);
    ExpectedDividesByZeroIff(law.rules, current);
  }

  /** All before the i-th header are in order and that one divides by zero. */
  ghost predicate PanicsAt(law: Law, prefix: seq<Header>, branch: seq<Header>, env: Env, from: nat, i: nat)
    requires prefix != []
  {
    && from <= i < |branch|
    && (forall j {:trigger Slot(j)} :: Slot(j) && from <= j < i ==> StepFault(law, prefix, branch, env, j).None?)
    && DividesAt(law, prefix, branch, env, i)
  }

  /** Applying a branch meets a zero divisor exactly at a header whose predecessors all pass. */
  lemma {:induction false} BranchPanicsIff(law: Law, prefix: seq<Header>, branch: seq<Header>, env: Env, k: nat)
    requires Lawful(law) && prefix != [] && k <= |branch| && Linked(prefix + branch[..k])
    requires branch != [] ==> branch[0].parentId == IdOf(Last(prefix))
    ensures BranchFault(law, prefix, branch, env, k) == Some(DivisionPanic) <==> exists i: nat :: PanicsAt(law, prefix, branch, env, k, i)
    decreases |branch| - k
  {
    if k < |branch| {
      StepPanicsIff(law, prefix, branch, env, k);
      var fault := StepFault(law, prefix, branch, env, k);
      assert BranchFault(law, prefix, branch, env, k) == Or(fault, BranchFault(law, prefix, branch, env, k + 1));
      if fault.None? {
        NextLinked(law, prefix, branch, env, k);
        BranchPanicsIff(law, prefix, branch, env, k + 1);
        PanicsLater(law, prefix, branch, env, k, k + 1);
      } else {
        forall i: nat | PanicsAt(law, prefix, branch, env, k, i)
          ensures i == k
        {
          assert Slot(k);
        }
        if fault == Some(DivisionPanic) {
          assert PanicsAt(law, prefix, branch, env, k, k);
        }
      }
    }
  }

  lemma NextLinked(law: Law, prefix: seq<Header>, branch: seq<Header>, env: Env, k: nat)
    requires prefix != [] && k < |branch| && Linked(prefix + branch[..k]) && branch[0].parentId == IdOf(Last(prefix))
    requires StepFault(law, prefix, branch, env, k).None?
    ensures Linked(prefix + branch[..k + 1])
  {
    var current := prefix + branch[..k];
    assert current[0] == prefix[0] && (k == 0 ==> current == prefix);
    assert prefix + branch[..k + 1] == current + [branch[k]];
    ExtendLinked(current, branch[k]);
  }

  lemma PanicsLater(law: Law, prefix: seq<Header>, branch: seq<Header>, env: Env, k: nat, next: nat)
    requires prefix != [] && k < |branch| && next == k + 1
    requires StepFault(law, prefix, branch, env, k).None? && !DividesAt(law, prefix, branch, env, k)
    ensures (exists i: nat :: PanicsAt(law, prefix, branch, env, k, i)) <==> exists i: nat :: PanicsAt(law, prefix, branch, env, next, i)
  {
    forall i: nat | PanicsAt(law, prefix, branch, env, k, i)
      ensures PanicsAt(law, prefix, branch, env, next, i)
    {
    }
    forall i: nat | PanicsAt(law, prefix, branch, env, next, i)
      ensures PanicsAt(law, prefix, branch, env, k, i)
    {
    }
  }

  /** The same for a whole reorganisation, on any linked chain. */
  lemma DeepPanicsIff(law: Law, hs: seq<Header>, forkPoint: nat, branch: seq<Header>, env: Env)
    requires Lawful(law) && Linked(hs)
    ensures DeepReorg(law, hs, forkPoint, branch, env) == Refused(DivisionPanic) <==>
            && branch != [] && hs != [] && hs[0].height <= forkPoint <= TipHeight(hs)
            && var prefix := hs[..forkPoint - hs[0].height + 1];
               branch[0].parentId == IdOf(Last(prefix)) && exists i: nat :: PanicsAt(law, prefix, branch, env, 0, i)
  {
    if branch != [] && hs != [] && hs[0].height <= forkPoint <= TipHeight(hs) {
      var keep := forkPoint - hs[0].height + 1;
      PrefixLinked(hs, keep);
      if branch[0].parentId == IdOf(Last(hs[..keep])) {
        assert hs[..keep] + branch[..0] == hs[..keep];
        BranchPanicsIff(law, hs[..keep], branch, env, 0);
      }
    }
  }

  /** A branch on a chain with rising timestamps never meets a zero divisor. */
  lemma {:induction false} BranchNeverPanics(law: Law, prefix: seq<Header>, branch: seq<Header>, env: Env, i: nat)
    requires Lawful(law) && prefix != [] && i <= |branch| && Grown(law.next, prefix + branch[..i])
    requires branch != [] ==> branch[0].parentId == IdOf(Last(prefix))
    ensures BranchFault(law, prefix, branch, env, i) != Some(DivisionPanic)
    decreases |branch| - i
  {
    if i < |branch| {
      var current := prefix + branch[..i];
      FaultIsNoPanic(law, current, branch[i], env, i);
      if StepFault(law, prefix, branch, env, i).None? {
        assert current[0] == prefix[0] && (i == 0 ==> current == prefix);
        assert prefix + branch[..i + 1] == current + [branch[i]];
        ExtendGrown(law.next, current, branch[i]);
        BranchNeverPanics(law, prefix, branch, env, i + 1);
      }
    }
  }

  lemma FullNeverPanics(law: Law, hs: seq<Header>, forkPoint: nat, branch: seq<Header>, env: Env)
    requires Lawful(law) && Accepted(law, hs)
    ensures DeepReorg(law, hs, forkPoint, branch, env) != Refused(DivisionPanic)
  {
    if branch != [] && hs != [] && hs[0].height <= forkPoint <= TipHeight(hs) {
      var keep := forkPoint - hs[0].height + 1;
      PrefixGrown(law.next, hs, keep);
      if branch[0].parentId == IdOf(Last(hs[..keep])) {
        assert hs[..keep] + branch[..0] == hs[..keep];
        BranchNeverPanics(law, hs[..keep], branch, env, 0);
      }
    }
  }

  lemma FaultIsNoPanic(law: Law, hs: seq<Header>, h: Header, env: Env, i: nat)
    requires Lawful(law) && hs != [] && Grown(law.next, hs)
    ensures ReorgFault(law, hs, h, env, i) != Some(DivisionPanic)
  {
    assert Computes(hs);
    NoZeroDivisor(law.rules, hs);
  }

  lemma FullTipNeverPanics(law: Law, hs: seq<Header>, alternative: Header, continuation: Header, env: Env)
    requires Lawful(law) && Accepted(law, hs)
    ensures TipReorg(law, hs, alternative, continuation, env) != Refused(DivisionPanic)
  {
    if |hs| >= 2 {
      var below := hs[..|hs| - 1];
      PrefixGrown(law.next, hs, |hs| - 1);
      FaultIsNoPanic(law, below, alternative, env, 0);
      assert Slot(|hs| - 1) && hs[|hs| - 1].parentId == IdOf(Last(below));
      if alternative.height == TipHeight(hs) && alternative.parentId == Last(hs).parentId && ReorgFault(law, below, alternative, env, 0).None? {
        ExtendGrown(law.next, below, alternative);
        FaultIsNoPanic(law, below + [alternative], continuation, env, 1);
      }
    }
  }

  /**
   A light client's chain that does panic: three headers with one timestamp, installed as they
   are, and a header on top of them where an EIP-37 epoch starts.
   */
  lemma LightChainPanics(rules: Rules, env: Env)
    requires rules.epochLength == 2 && rules.useLastEpochs == 1 && rules.v2NBits.None?
    requires rules.eip37Height == Some(0) && rules.eip37EpochLength.None?
    requires (forall h :: rules.powOk(h)) && env.clock(0) >= 1
    ensures var law := LawOf(rules);
            var head := Header(Raw(0), 2, 0, 1, 0);
            var second := Header(IdOf(head), 3, 0, 1, 0);
            var third := Header(IdOf(second), 4, 0, 1, 0);
            var next := Header(IdOf(third), 5, 1, 1, 0);
            && InstallFault(rules, [], head, [second, third]).None?
            && DeepReorg(law, [head, second, third], 4, [next], env) == Refused(DivisionPanic)
  {
    var law := LawOf(rules);
    var head := Header(Raw(0), 2, 0, 1, 0);
    var second := Header(IdOf(head), 3, 0, 1, 0);
    var third := Header(IdOf(second), 4, 0, 1, 0);
    var next := Header(IdOf(third), 5, 1, 1, 0);
    var hs := [head, second, third];
    assert [head] + [second, third] == hs;
    TailFaultIff(rules, head, [second, third]);
    assert Linked(hs);
    assert Lawful(law);
    DeepPanicsIff(law, hs, 4, [next], env);
    assert hs[..3] == hs && hs + [next][..0] == hs;
    LightAnchors(rules, hs);
    assert PanicsAt(law, hs, [next], env, 0, 0);
  }

  lemma LightAnchors(rules: Rules, hs: seq<Header>)
    requires rules.epochLength == 2 && rules.useLastEpochs == 1 && rules.v2NBits.None?
    requires rules.eip37Height == Some(0) && rules.eip37EpochLength.None?
    requires |hs| == 3 && Linked(hs) && hs[0].height == 2 && hs[0].timestamp == hs[2].timestamp
    ensures NextDividesByZero(rules, hs)
  {
    assert hs[2].height == 4;
    assert Ladder(4, 2, 0) == [4] && Ladder(4, 2, 1) == [2] + [4];
    assert AnchorHeightsAfter(rules, 4) == [2, 4];
    assert [2, 4][..1] == [2] && [2][..0] == [];
    assert Anchors(hs, []) == [] && Anchors(hs, [2]) == [hs[0]];
    assert Anchors(hs, [2, 4]) == [hs[0], hs[2]];
  }

  function Larger(a: int, b: int): int {
    if a > b then a else b
  }

  ghost function Smaller(a: int, b: int): int {
    if a < b then a else b
  }

  ghost predicate Covers(window: set<nat>, lo: int, hi: int) {
    forall x: nat :: lo <= x <= hi ==> x in window
  }

  /** The heights between `lo` and `hi`. */
  ghost function Span(lo: int, hi: int): set<nat>
    decreases hi - lo
  {
    if lo > hi then {} else Span(lo, hi - 1) + (if hi < 0 then {} else {hi})
  }

  lemma {:induction false} SpanSize(lo: int, hi: int)
    requires lo <= hi + 1
    ensures Covers(Span(lo, hi), lo, hi) && |Span(lo, hi)| <= hi - lo + 1
    decreases hi - lo
  {
    if lo <= hi {
      SpanSize(lo, hi - 1);
    }
  }

  /** How far below `height` a difficulty recalculation can look. */
  ghost function Reach(rules: Rules, height: int): (low: int)
    ensures low <= height
  {
    ScaleUp(rules.useLastEpochs, 0, MaxEpoch(rules));
    height - rules.useLastEpochs * MaxEpoch(rules)
  }

  ghost function MaxEpoch(rules: Rules): nat {
    if rules.eip37EpochLength.Some? && rules.eip37EpochLength.value > rules.epochLength
    then rules.eip37EpochLength.value else rules.epochLength
  }

  lemma AnchorsWithinReach(rules: Rules, height: nat, x: nat)
    requires Recalculates(rules, height) && x in AnchorHeightsAfter(rules, height)
    ensures Reach(rules, height) <= x <= height
  {
    var step := rules.EpochLengthAt(height + 1);
    LadderUp(height, step, rules.useLastEpochs);
    ScaleUp(rules.useLastEpochs, step, MaxEpoch(rules));
  }

  lemma ScaleUp(c: nat, a: nat, b: nat)
    requires a <= b
    ensures 0 <= c * a <= c * b
  {
  }

  /** A run of headers with their scores. */
  datatype Trail = Trail(law: Law, light: bool, hs: seq<Header>, ss: seq<nat>, fits: bool) {
    /** Only a light client starts above genesis, or takes headers whose timestamps it has not checked. */
    ghost predicate Good() {
      && Linked(hs)
      && Worked(law.rules, hs)
      && (light || (Rooted(hs) && Rising(hs)))
      && |ss| == |hs|
      && (fits ==> Scored(law.rules, light, hs, ss) && (light || Accepted(law, hs)))
    }

    /** `Good`, sealed. */
    ghost function Seal(): Health {
      if forall k: int {:trigger Unsealed(this, k)} :: Unsealed(this, k) ==> Good() then Intact else Broken
    }
  }

  lemma OpenTrail(t: Trail)
    requires t.Seal() == Intact
    ensures t.Good()
  {
    assert Unsealed(t, 0);
  }

  lemma TrailWork(t: Trail, i: nat)
    requires t.Seal() == Intact && t.fits && i < |t.hs|
    ensures |t.ss| == |t.hs| && t.ss[i] == Work(t.law.rules, Origin(t.light, t.hs), t.hs[i])
  {
    OpenTrail(t);
    ScoreIsWork(t.law.rules, t.light, t.hs, t.ss, i);
  }

  /** A header that forks off the chain carries its parent's work and its own. */
  lemma TrailForkWork(t: Trail, h: Header, i: nat)
    requires t.Seal() == Intact && t.fits && i < |t.hs|
    requires h.parentId == IdOf(t.hs[i]) && HeightOf(t.hs, IdOf(h)).None?
    ensures |t.ss| == |t.hs| && Work(t.law.rules, Origin(t.light, t.hs), h) == t.ss[i] + t.law.rules.Difficulty(h)
  {
    TrailWork(t, i);
    NotOrigin(t.hs, t.light, h);
    WorkStep(t.law.rules, Origin(t.light, t.hs), h);
  }

  lemma WeakerTrail(t: Trail, fits: bool)
    requires t.Seal() == Intact && (fits ==> t.fits)
    ensures t.(fits := fits).Seal() == Intact
  {
    OpenTrail(t);
  }

  lemma LongerTrail(t: Trail, h: Header, score: nat)
    requires t.Seal() == Intact
    requires t.hs != [] ==>
               && h.parentId == IdOf(Last(t.hs))
               && h.height == TipHeight(t.hs) + 1
               && (t.light || Last(t.hs).timestamp < h.timestamp)
    requires t.law.rules.powOk(h)
    requires t.hs == [] ==> t.light || Rooted([h])
    requires t.fits && !t.light ==> NextValid(t.law, t.hs, h)
    requires t.fits ==> score == NextScore(t.law.rules, t.light, t.ss, h)
    ensures t.(hs := t.hs + [h], ss := t.ss + [score]).Seal() == Intact
  {
    OpenTrail(t);
    ExtendLinked(t.hs, h);
    if !t.light {
      ExtendRising(t.hs, h);
    }
    if t.fits {
      ScoredPush(t.law.rules, t.light, t.hs, t.ss, h);
      if !t.light {
        ExtendAccepted(t.law, t.hs, h);
      }
    }
  }

  lemma ShorterTrail(t: Trail, keep: nat)
    requires t.Seal() == Intact && keep <= |t.hs| && keep <= |t.ss|
    ensures t.(hs := t.hs[..keep], ss := t.ss[..keep]).Seal() == Intact
  {
    OpenTrail(t);
    PrefixLinked(t.hs, keep);
    if !t.light {
      PrefixRising(t.hs, keep);
    }
    if t.fits {
      ScoredPrefix(t.law.rules, t.light, t.hs, t.ss, keep);
      if !t.light {
        PrefixAccepted(t.law, t.hs, keep);
      }
    }
  }

  /** Everything the invariant speaks of, as one value. */
  datatype State = State(base: Option<nat>, byId: map<Id, nat>, trail: Trail, serves: bool) {
    ghost function Base(): nat {
      if base.Some? then base.value else 0
    }

    /** The index is in step with a linked chain, every height of which can be read back. */
    ghost predicate Invariant() {
      && Lawful(trail.law)
      && base == (if trail.hs == [] then None else Some(trail.hs[0].height))
      && Indexed(byId, Base(), trail.hs)
      && trail.Seal() == Intact
      && (trail.hs == [] ==> !trail.light)
      && serves
    }

    /** The invariant, sealed. */
    ghost function Seal(): Health {
      if forall k: int {:trigger Unsealed(this, k)} :: Unsealed(this, k) ==> Invariant() then Intact else Broken
    }
  }

  lemma Open(s: State)
    requires s.Seal() == Intact
    ensures s.Invariant() && s.trail.Good()
  {
    assert Unsealed(s, 0);
    OpenTrail(s.trail);
  }

  lemma Close(s: State)
    requires s.Invariant()
    ensures s.Seal() == Intact
  {
  }

  /** Heights may have been used since, but nothing else has changed. */
  lemma StillSound(s: State, fits: bool, serves: bool)
    requires s.Seal() == Intact && serves && (fits ==> s.trail.fits)
    ensures s.(trail := s.trail.(fits := fits), serves := serves).Seal() == Intact
  {
    Open(s);
  }

  lemma LongerState(s: State, h: Header, score: nat, fits: bool)
    requires s.Seal() == Intact && (fits ==> s.trail.fits)
    requires s.trail.hs != [] ==>
               && h.parentId == IdOf(Last(s.trail.hs))
               && h.height == TipHeight(s.trail.hs) + 1
               && (s.trail.light || Last(s.trail.hs).timestamp < h.timestamp)
    requires s.trail.law.rules.powOk(h)
    requires s.trail.hs == [] ==> s.trail.light || Rooted([h])
    requires fits && !s.trail.light ==> NextValid(s.trail.law, s.trail.hs, h)
    requires fits ==> score == NextScore(s.trail.law.rules, s.trail.light, s.trail.ss, h)
    ensures var t := s.trail.(hs := s.trail.hs + [h], ss := s.trail.ss + [score], fits := fits);
            State(Some(if s.base.Some? then s.base.value else h.height), s.byId[IdOf(h) := h.height], t, true).Seal() == Intact
  {
    Open(s);
    LongerTrail(s.trail.(fits := fits), h, score);
    IndexedPush(s.byId, if s.base.Some? then s.base.value else h.height, s.trail.hs, h);
  }

  lemma ShorterState(s: State, keep: nat, gone: set<Id>, fits: bool)
    requires s.Seal() == Intact && (fits ==> s.trail.fits)
    requires 0 < keep <= |s.trail.hs| && keep <= |s.trail.ss|
    requires forall id :: id in gone <==> exists j :: keep <= j < |s.trail.hs| && IdOf(s.trail.hs[j]) == id
    ensures var t := s.trail.(hs := s.trail.hs[..keep], ss := s.trail.ss[..keep], fits := fits);
            State(s.base, s.byId - gone, t, true).Seal() == Intact
  {
    Open(s);
    ShorterTrail(s.trail.(fits := fits), keep);
    IndexedPrefix(s.byId, s.Base(), s.trail.hs, keep, gone);
  }

  lemma PoppedState(s: State, fits: bool)
    requires s.Seal() == Intact && (fits ==> s.trail.fits)
    requires |s.trail.hs| >= 2 && |s.trail.ss| == |s.trail.hs|
    ensures var n := |s.trail.hs| - 1;
            var t := s.trail.(hs := s.trail.hs[..n], ss := s.trail.ss[..n], fits := fits);
            State(s.base, s.byId - {IdOf(Last(s.trail.hs))}, t, true).Seal() == Intact
  {
    ShorterState(s, |s.trail.hs| - 1, {IdOf(Last(s.trail.hs))}, fits);
  }

  lemma HeadTrail(law: Law, head: Header, fits: bool)
    requires law.rules.powOk(head)
    ensures Trail(law, true, [head], [0], fits).Seal() == Intact
  {
    assert Trail(law, true, [head], [0], fits).Good();
  }

  lemma HeadState(s: State, head: Header, fits: bool)
    requires s.Seal() == Intact && s.trail.hs == [] && s.trail.law.rules.powOk(head)
    ensures State(Some(head.height), map[IdOf(head) := head.height], Trail(s.trail.law, true, [] + [head], [] + [0], fits), true).Seal() == Intact
  {
    Open(s);
    HeadTrail(s.trail.law, head, fits);
    Close(State(Some(head.height), map[IdOf(head) := head.height], Trail(s.trail.law, true, [head], [0], fits), true));
    assert [] + [head] == [head] && [] + [0] == [0];
  }

  lemma SameIndex(one: State, two: State)
    requires one.Seal() == Intact && two.Seal() == Intact && one.trail.hs == two.trail.hs
    ensures one.byId == two.byId && one.base == two.base
  {
    Open(one);
    Open(two);
    IndexedUnique(one.byId, two.byId, one.Base(), one.trail.hs);
  }

  /** What an installed header is reported as. */
  datatype InstalledHeader = InstalledHeader(id: Id, height: nat, score: nat)

  class HeaderChain {
    const law: Law
    var baseHeight: Option<nat>
    var byId: map<Id, nat>
    var light: bool
    const lazy: LazyHeaderStore
    /** The accepted headers, lowest first. */
    ghost var hs: seq<Header>
    /** Their cumulative scores, as they were written to the cache. */
    ghost var ss: seq<nat>

    constructor (law: Law, lazy: LazyHeaderStore)
      requires Lawful(law) && lazy.Valid()
      ensures Sound() && hs == [] && !light
      ensures this.law == law && this.lazy == lazy
    {
      this.law, this.lazy := law, lazy;
      baseHeight, byId, light := None, map[], false;
      hs, ss := [], [];
      new;
      Close(Now());
    }

    /** A chain read back from an index; only a chain from genesis counts as a full one. */
    constructor Restored(law: Law, lazy: LazyHeaderStore, base: Option<nat>, byId: map<Id, nat>, ghost hs: seq<Header>, ghost ss: seq<nat>)
      ensures this.law == law && this.lazy == lazy && baseHeight == base && this.byId == byId
      ensures light == (base.Some? && base.value > 1)
      ensures this.hs == hs && this.ss == ss
    {
      this.law, this.lazy := law, lazy;
      baseHeight, this.byId, light := base, byId, base.Some? && base.value > 1;
      this.hs, this.ss := hs, ss;
    }

    ghost function Now(): State
      reads this, lazy, lazy.loader
    {
      State(baseHeight, byId, Trail(law, light, hs, ss, lazy.Fits()),
            lazy.Valid() && lazy.Serving(if baseHeight.Some? then baseHeight.value else 0, hs, ss) == Intact)
    }

    /** A chain built by the operations below: see `State.Invariant`. */
    ghost predicate Sound()
      reads this, lazy, lazy.loader
    {
      |ss| == |hs| && Now().Seal() == Intact
    }

    /**
     The call used no other heights than those between `lo` and `hi`; and if the store still has
     everything after it, it used none that mattered.
     */
    twostate predicate Used(lo: int, hi: int)
      reads this, lazy
    {
      && lazy.Capacity() == old(lazy.Capacity())
      && (old(lazy.strayed) ==> lazy.strayed)
      && (lazy.strayed ==> old(lazy.strayed) || !Covers(lazy.window, lo, hi))
      && (lazy.calm ==> old(lazy.calm) && lazy.strayed == old(lazy.strayed))
    }

    /** While the store has everything, the heights of what is to come can be foreseen. */
    ghost method Foresee(next: set<nat>)
      requires Sound() && lazy.calm && lazy.Fits()
      modifies lazy`window, lazy`strayed
      ensures Sound() && lazy.window == next && !lazy.strayed
    {
      Served();
      var before := Now();
      lazy.Foresee(next, if hs == [] then 0 else hs[0].height, hs, ss);
      StillSound(before, lazy.Fits(), true);
    }

    /** The store has caught up: until the next append anything may be read. */
    ghost method Settle()
      requires Sound() && lazy.Fits() && Stored()
      modifies lazy`calm, lazy`window, lazy`strayed
      ensures Sound() && lazy.calm && lazy.Fits()
    {
      Served();
      var before := Now();
      var base := if hs == [] then 0 else hs[0].height;
      lazy.CaughtUp(base, hs, ss);
      lazy.Settle(base, hs, ss);
      StillSound(before, lazy.Fits(), true);
    }

    // ---- Reads ----

    predicate IsEmpty()
      reads this
    {
      |byId| == 0
    }

    function Height(): nat
      reads this
    {
      if baseHeight.Some? && !IsEmpty() then baseHeight.value + |byId| - 1 else 0
    }

    lemma Sizes()
      requires Sound()
      ensures |byId| == |hs|
      ensures hs == [] ==> !light
      ensures Height() == TipHeight(hs)
      ensures baseHeight == if hs == [] then None else Some(hs[0].height)
    {
      Open(Now());
      IndexedSize(byId, Now().Base(), hs);
    }

    /** The index answers exactly as a search through the accepted headers would. */
    lemma Lookup(id: Id)
      requires Sound()
      ensures Get(byId, id) == HeightOf(hs, id)
    {
      Open(Now());
      if id.IdOf? && ChainSpec.HeaderAt(hs, id.header.height) == Some(id.header) {
        assert Slot(id.header.height - hs[0].height);
      }
    }

    lemma Shape()
      requires Sound()
      ensures Now().trail.Seal() == Intact
    {
      Open(Now());
    }

    lemma Lawfulness()
      requires Sound()
      ensures Lawful(law)
    {
      Open(Now());
    }

    /** A full chain is valid from genesis on, header by header. */
    lemma Validity()
      requires Sound() && lazy.Fits() && !light
      ensures Accepted(law, hs)
    {
      Open(Now());
    }

    lemma Linkage()
      requires Sound()
      ensures Linked(hs)
    {
      Open(Now());
    }

    /** The score at each position is the work along that header's ancestry. */
    lemma WorkOf(i: nat)
      requires Sound() && lazy.Fits() && i < |hs|
      ensures ss[i] == Work(law.rules, Origin(light, hs), hs[i])
    {
      Shape();
      TrailWork(Now().trail, i);
    }

    lemma Served()
      requires Sound()
      ensures lazy.Valid() && lazy.Serving(if hs == [] then 0 else hs[0].height, hs, ss) == Intact
      ensures baseHeight == if hs == [] then None else Some(hs[0].height)
    {
      Open(Now());
    }

    lemma ServedOver()
      requires Sound()
      ensures lazy.ServesOver(if hs == [] then 0 else hs[0].height, hs, ss, lazy.HeaderView(), lazy.ScoreView())
    {
      Served();
      lazy.OpenServing(if hs == [] then 0 else hs[0].height, hs, ss);
    }

    lemma TipIsLast()
      requires Sound() && hs != []
      ensures ChainSpec.HeaderAt(hs, TipHeight(hs)) == Some(Last(hs))
      ensures Last(hs).height == TipHeight(hs)
    {
      Open(Now());
    }

    /** None, or exactly the header accepted at that height, whatever the loader says. */
    method HeaderAt(height: nat) returns (r: Option<Header>)
      requires Sound()
      modifies lazy`headers, lazy`strayed
      ensures Sound()
      ensures r.Some? ==> r == ChainSpec.HeaderAt(hs, height)
      ensures lazy.Fits() ==> r == ChainSpec.HeaderAt(hs, height)
      ensures Used(height, Smaller(height, TipHeight(hs)))
    {
      Sizes();
      if baseHeight.None? || height < baseHeight.value || height > Height() {
        return None;
      }
      r := Fetch(height);
      if r.Some? {
        Lookup(IdOf(r.value));
        if Get(byId, IdOf(r.value)) != Some(height) {
          r := None;
        }
      }
      SlotHeader(height);
    }

    lemma SlotHeader(height: nat)
      requires Sound() && ChainSpec.HeaderAt(hs, height).Some?
      ensures HeightOf(hs, IdOf(ChainSpec.HeaderAt(hs, height).value)) == Some(height)
    {
      Open(Now());
    }

    method Fetch(height: nat) returns (r: Option<Header>)
      requires Sound() && hs != [] && hs[0].height <= height <= TipHeight(hs)
      modifies lazy`headers, lazy`strayed
      ensures Sound()
      ensures lazy.Fits() ==> r == ChainSpec.HeaderAt(hs, height)
      ensures Used(height, height)
    {
      Served();
      ghost var before := Now();
      r := lazy.GetHeader(height);
      StillSound(before, lazy.Fits(), true);
    }

    method ScoreAt(height: nat) returns (r: Option<nat>)
      requires Sound()
      modifies lazy`scores, lazy`strayed
      ensures Sound()
      ensures r.Some? ==> ChainSpec.HeaderAt(hs, height).Some?
      ensures lazy.Fits() ==> r == ScoreOf(height)
      ensures Used(height, Smaller(height, TipHeight(hs)))
    {
      Sizes();
      if baseHeight.None? || height < baseHeight.value || height > Height() {
        return None;
      }
      Served();
      ghost var before := Now();
      r := lazy.GetScore(height);
      StillSound(before, lazy.Fits(), true);
    }

    ghost function ScoreOf(height: nat): Option<nat>
      reads this
    {
      if hs != [] && hs[0].height <= height < hs[0].height + |ss| then Some(ss[height - hs[0].height]) else None
    }

    /** The score of the tip, or zero when there is none to be read. */
    method CumulativeScore() returns (r: nat)
      requires Sound()
      modifies lazy`scores, lazy`strayed
      ensures Sound()
      ensures lazy.Fits() ==> r == if ss == [] then 0 else Last(ss)
      ensures Used(TipHeight(hs), TipHeight(hs))
    {
      Sizes();
      if IsEmpty() {
        return 0;
      }
      var s := ScoreAt(Height());
      r := if s.Some? then s.value else 0;
    }

    /** The tip, or a panic when it cannot be read back. */
    method Tip() returns (r: Attempt<Header>)
      requires Sound() && hs != []
      modifies lazy`headers, lazy`strayed
      ensures Sound()
      ensures r.Returned? ==> r.value == Last(hs)
      ensures lazy.Fits() ==> r == Returned(Last(hs))
      ensures Used(TipHeight(hs), TipHeight(hs))
    {
      Sizes();
      TipIsLast();
      var tip := HeaderAt(Height());
      r := if tip.Some? then Returned(tip.value) else Panicked;
    }

    // ---- Validation ----

    /** nBits the next header must carry, from whichever anchors can be read back. */
    method ExpectedDifficulty(parent: Header) returns (expected: Outcome)
      requires Sound() && hs != [] && parent == Last(hs)
      modifies lazy`headers, lazy`strayed
      ensures Sound()
      ensures !light ==> !expected.DivideByZero?
      ensures lazy.Fits() ==> expected == law.next(hs)
      ensures Used(Reach(law.rules, TipHeight(hs)), TipHeight(hs))
    {
      TipIsLast();
      NextIsExpected();
      var anchors: seq<Header> := [];
      if Recalculates(law.rules, parent.height) {
        anchors := ReadAnchors(parent.height);
        if !light {
          AscendingNeverDividesByZero(law.rules, parent, anchors);
        }
      }
      expected := NextNBits(law.rules, parent, anchors);
    }

    lemma NextIsExpected()
      requires Sound() && hs != []
      ensures law.next(hs) == ExpectedNBits(law.rules, hs)
    {
      Open(Now());
      assert Computes(hs);
    }

    method ReadAnchors(parentHeight: nat) returns (anchors: seq<Header>)
      requires Sound() && hs != []
      requires parentHeight == TipHeight(hs) && Recalculates(law.rules, parentHeight)
      modifies lazy`headers, lazy`strayed
      ensures Sound()
      ensures !light ==> Ascending(anchors)
      ensures lazy.Fits() ==> anchors == Anchors(hs, AnchorHeightsAfter(law.rules, parentHeight))
      ensures Used(Reach(law.rules, parentHeight), parentHeight)
    {
      var heights := AnchorHeightsAfter(law.rules, parentHeight);
      AnchorHeightsUp(law.rules, parentHeight);
      anchors := [];
      for i := 0 to |heights|
        invariant Sound()
        invariant Picked(anchors, heights[..i])
        invariant lazy.Fits() ==> anchors == Anchors(hs, heights[..i])
        invariant Used(Reach(law.rules, parentHeight), parentHeight)
      {
        AnchorsWithinReach(law.rules, parentHeight, heights[i]);
        anchors := ReadAnchor(anchors, heights, i);
      }
      assert heights[..|heights|] == heights;
    }

    /** Add the header at the i-th height to the anchors, if it can be read. */
    method ReadAnchor(anchors: seq<Header>, heights: seq<nat>, i: nat) returns (more: seq<Header>)
      requires Sound() && i < |heights| && StrictlyUp(heights) && Picked(anchors, heights[..i])
      modifies lazy`headers, lazy`strayed
      ensures Sound() && Picked(more, heights[..i + 1])
      ensures lazy.Fits() && anchors == Anchors(hs, heights[..i]) ==> more == Anchors(hs, heights[..i + 1])
      ensures Used(heights[i], heights[i])
    {
      var h := HeaderAt(heights[i]);
      PickNext(anchors, heights, i, h);
      more := if h.Some? then anchors + [h.value] else anchors;
    }

    /** Accepted headers at some of `heights`, in order. */
    ghost predicate Picked(anchors: seq<Header>, heights: seq<nat>)
      reads this
    {
      (light || Ascending(anchors))
      && forall a :: a in anchors ==> ChainSpec.HeaderAt(hs, a.height) == Some(a) && a.height in heights
    }

    lemma PickNext(anchors: seq<Header>, heights: seq<nat>, i: nat, h: Option<Header>)
      requires Sound()
      requires i < |heights| && StrictlyUp(heights) && Picked(anchors, heights[..i])
      requires h.Some? ==> h == ChainSpec.HeaderAt(hs, heights[i])
      ensures Picked(if h.Some? then anchors + [h.value] else anchors, heights[..i + 1])
      ensures anchors == Anchors(hs, heights[..i]) && h == ChainSpec.HeaderAt(hs, heights[i]) ==>
                Anchors(hs, heights[..i + 1]) == if h.Some? then anchors + [h.value] else anchors
    {
      Open(Now());
      assert heights[..i + 1] == heights[..i] + [heights[i]];
      if h.Some? && !light {
        PickedAscend(hs, anchors, h.value);
      }
    }

    method ValidateChild(h: Header, env: Env) returns (r: Attempt<Option<ChainError>>)
      requires Sound() && hs != []
      modifies lazy`headers, lazy`strayed
      ensures Sound()
      ensures r == Returned(None) ==> h.height == TipHeight(hs) + 1 && Last(hs).timestamp < h.timestamp && Cleared(law.rules, h, env, 0)
      ensures r.Returned? && r.value.Some? ==> !Misplaced(r.value.value)
      ensures lazy.Fits() ==> r == Returned(ChildFault(law, light, hs, h, env))
      ensures Used(Reach(law.rules, TipHeight(hs)), TipHeight(hs))
    {
      TipIsLast();
      var tip := Tip();
      if tip.Panicked? {
        return Panicked;
      }
      if h.height != tip.value.height + 1 {
        return Returned(Some(NonSequentialHeight(tip.value.height + 1, h.height)));
      }
      var fault := TimeFault(law.rules, tip.value, h, env.clock(0));
      if fault.None? && !light {
        var expected := ExpectedDifficulty(tip.value);
        fault := DifficultyFault(expected, h);
      }
      r := Returned(Or(fault, SealFault(law.rules, h, env)));
    }

    method ValidateReorgHeader(h: Header, env: Env, i: nat) returns (r: Attempt<Option<ChainError>>)
      requires Sound() && hs != []
      modifies lazy`headers, lazy`strayed
      ensures Sound()
      ensures r == Returned(None) ==> Last(hs).timestamp < h.timestamp && Cleared(law.rules, h, env, i)
      ensures lazy.Fits() ==> r == Faced(ReorgFault(law, hs, h, env, i))
      ensures Used(Reach(law.rules, TipHeight(hs)), TipHeight(hs))
    {
      var tip := Tip();
      if tip.Panicked? {
        return Panicked;
      }
      var fault := TimeFault(law.rules, tip.value, h, env.clock(i));
      if fault.None? {
        var expected := ExpectedDifficulty(tip.value);
        if expected.DivideByZero? {
          return Panicked;
        }
        fault := DifficultyFault(expected, h);
      }
      r := Returned(Or(fault, SealFault(law.rules, h, env)));
    }

    // ---- Push and pop ----

    ghost predicate Extends(h: Header)
      reads this
    {
      && law.rules.powOk(h)
      && if hs == [] then light || Rooted([h])
         else
           && h.parentId == IdOf(Last(hs))
           && h.height == TipHeight(hs) + 1
           && (light || Last(hs).timestamp < h.timestamp)
    }

    /** Put a validated header on top; panics when the parent's score cannot be read back. */
    method PushHeader(h: Header) returns (panicked: bool)
      requires Sound() && Extends(h) && (lazy.Fits() && !light ==> NextValid(law, hs, h))
      modifies this`baseHeight, this`byId, this`hs, this`ss, lazy`headers, lazy`scores, lazy`strayed, lazy`calm
      ensures lazy.Fits() ==> !panicked
      ensures !panicked ==> Sound() && hs == old(hs) + [h] && old(ss) <= ss
      ensures Used(h.height - 1, h.height)
    {
      Sizes();
      var parentScore := 0;
      if baseHeight.Some? {
        var s := ScoreAt(h.height - 1);
        if s.None? {
          return true;
        }
        parentScore := s.value;
      }
      RestoreHeader(h, parentScore + law.rules.Difficulty(h));
      panicked := false;
    }

    /** Put a header and its known score on top. */
    method RestoreHeader(h: Header, score: nat)
      requires Sound() && Extends(h) && (lazy.Fits() && !light ==> NextValid(law, hs, h))
      requires lazy.Fits() ==> score == NextScore(law.rules, light, ss, h)
      modifies this`baseHeight, this`byId, this`hs, this`ss, lazy`headers, lazy`scores, lazy`strayed, lazy`calm
      ensures Sound() && hs == old(hs) + [h] && ss == old(ss) + [score]
      ensures Used(h.height, h.height)
    {
      Served();
      ghost var before := Now();
      if baseHeight.None? {
        baseHeight := Some(h.height);
        lazy.ServesNothing(h.height);
      }
      assert lazy.Serving(baseHeight.value, hs, ss) == Intact;
      lazy.Put(h.height, h, score);
      byId := byId[IdOf(h) := h.height];
      LongerState(before, h, score, lazy.Fits());
      hs, ss := hs + [h], ss + [score];
    }

    /** Take the tip off again, with its score, so that it can be put back. */
    method PopHeader() returns (r: Attempt<(Header, nat)>)
      requires Sound() && |hs| >= 2
      modifies this`baseHeight, this`byId, this`hs, this`ss, lazy`headers, lazy`scores, lazy`strayed, lazy`calm
      ensures r.Returned? ==> Sound() && hs == old(hs)[..|old(hs)| - 1] && ss == old(ss)[..|old(hs)| - 1]
      ensures r.Returned? ==> r.value.0 == Last(old(hs))
      ensures lazy.Fits() ==> r == Returned((Last(old(hs)), Last(old(ss))))
      ensures Used(TipHeight(old(hs)), TipHeight(old(hs)))
    {
      Sizes();
      TipIsLast();
      var tip := HeaderAt(Height());
      if tip.None? {
        return Panicked;
      }
      var score := ScoreAt(Height());
      DropTip(tip.value);
      r := Returned((tip.value, if score.Some? then score.value else 0));
    }

    method DropTip(tip: Header)
      requires Sound() && |hs| >= 2 && tip == Last(hs)
      modifies this`byId, this`hs, this`ss, lazy`headers, lazy`scores
      ensures Sound() && hs == old(hs)[..|old(hs)| - 1] && ss == old(ss)[..|old(hs)| - 1]
      ensures Used(tip.height, tip.height)
    {
      Served();
      TipIsLast();
      ghost var before, n, base := Now(), |hs| - 1, hs[0].height;
      PoppedState(before, lazy.Fits());
      assert tip.height - base == n;
      lazy.Evict(tip.height);
      assert lazy.Serving(base, hs[..n], ss[..n]) == Intact;
      byId := byId - {IdOf(tip)};
      hs, ss := hs[..n], ss[..n];
    }

    // ---- Append ----

    /** Extend the chain, report a fork, or reject; only the first changes anything. */
    method TryAppend(h: Header, env: Env) returns (r: Attempt<Appended>)
      requires Sound()
      modifies this`baseHeight, this`byId, this`hs, this`ss, lazy`headers, lazy`scores, lazy`strayed, lazy`calm
      ensures r.Returned? ==> Sound() && hs == AfterAppend(old(hs), h, r.value) && old(ss) <= ss
      ensures r.Returned? ==> Placed(old(hs), h, r.value)
      ensures lazy.Fits() ==> r == Returned(Append(law, light, old(hs), h, env))
      ensures Used(Reach(law.rules, TipHeight(old(hs))), TipHeight(old(hs)) + 1)
    {
      TipIsLastIfAny();
      r := Judge(h, env);
      if r == Returned(Extended) {
        if lazy.Fits() && !light {
          ExtendedIsValid(law, hs, h, env);
        }
        var panicked := PushHeader(h);
        if panicked {
          r := Panicked;
        }
      }
    }

    /** Decide what a header is to this chain. */
    method Judge(h: Header, env: Env) returns (r: Attempt<Appended>)
      requires Sound()
      modifies lazy`headers, lazy`strayed
      ensures Sound()
      ensures lazy.Fits() ==> r == Returned(Append(law, light, hs, h, env))
      ensures r == Returned(Extended) ==> Extends(h) && h.height == TipHeight(hs) + 1
      ensures r.Returned? ==> Placed(hs, h, r.value)
      ensures Used(Reach(law.rules, TipHeight(hs)), TipHeight(hs) + 1)
    {
      Sizes();
      if IsEmpty() {
        var fault := GenesisFault(law.rules, h);
        r := Returned(if fault.Some? then Rejected(fault.value) else Extended);
        return;
      }
      var tip := Tip();
      if tip.Panicked? {
        r := Panicked;
      } else if h.parentId == IdOf(tip.value) {
        var fault := ValidateChild(h, env);
        r := if fault.Panicked? then Panicked
             else Returned(if fault.value.Some? then Rejected(fault.value.value) else Extended);
      } else {
        Lookup(h.parentId);
        r := Returned(
          if h.parentId !in byId then Rejected(ParentNotFound(h.parentId))
          else if h.height != byId[h.parentId] + 1 then Rejected(NonSequentialHeight(byId[h.parentId] + 1, h.height))
          else Forked(byId[h.parentId]));
      }
    }

    // ---- Reorganisation ----

    /** Validate a header against the tip and put it on top if nothing is wrong with it. */
    method TryOnTop(h: Header, env: Env, i: nat) returns (r: Attempt<Option<ChainError>>)
      requires Sound() && hs != [] && h.parentId == IdOf(Last(hs)) && h.height == TipHeight(hs) + 1
      modifies this`baseHeight, this`byId, this`hs, this`ss, lazy`headers, lazy`scores, lazy`strayed, lazy`calm
      ensures r.Returned? ==> Sound() && hs == (if r.value.None? then old(hs) + [h] else old(hs)) && old(ss) <= ss
      ensures lazy.Fits() ==> r == Faced(ReorgFault(law, old(hs), h, env, i))
      ensures Used(Reach(law.rules, TipHeight(old(hs))), TipHeight(old(hs)) + 1)
    {
      r := ValidateReorgHeader(h, env, i);
      if r == Returned(None) {
        if lazy.Fits() {
          FaultlessIsValid(law, hs, h, env, i);
        }
        var panicked := PushHeader(h);
        if panicked {
          r := Panicked;
        }
      }
    }

    method ReadBoth(height: nat) returns (header: Option<Header>, score: Option<nat>)
      requires Sound() && hs != [] && hs[0].height <= height <= TipHeight(hs)
      modifies lazy`headers, lazy`scores, lazy`strayed
      ensures Sound()
      ensures header.Some? ==> header.value == hs[height - hs[0].height]
      ensures lazy.Fits() ==> header.Some? && score == Some(ss[height - hs[0].height])
      ensures Used(height, height)
    {
      score := None;
      header := HeaderAt(height);
      if header.Some? {
        score := ScoreAt(height);
      }
    }

    /** Read headers and scores above the fork point, or nothing if one of them is missing. */
    method CollectAbove(forkPoint: nat, ghost keep: nat) returns (r: Option<(seq<Header>, seq<nat>)>)
      requires Sound() && 0 < keep <= |hs| && forkPoint == hs[0].height + keep - 1
      modifies lazy`headers, lazy`scores, lazy`strayed
      ensures Sound()
      ensures r.Some? ==> r.value.0 == hs[keep..] && |r.value.1| == |r.value.0|
      ensures lazy.Fits() ==> r.Some? && r.value.1 == ss[keep..]
      ensures Used(forkPoint + 1, TipHeight(hs))
    {
      Sizes();
      var headers: seq<Header>, scores: seq<nat> := [], [];
      for h := forkPoint + 1 to Height() + 1
        invariant Sound()
        invariant |headers| == |scores| == h - forkPoint - 1
        invariant headers <= hs[keep..]
        invariant lazy.Fits() ==> scores <= ss[keep..]
        invariant Used(forkPoint + 1, TipHeight(hs))
      {
        assert h - hs[0].height == keep + |headers|;
        var header, score := ReadBoth(h);
        if header.None? || score.None? {
          return None;
        }
        headers, scores := headers + [header.value], scores + [score.value];
      }
      r := Some((headers, scores));
    }

    /** Take everything above the fork point out of the index and the caches. */
    method Drain(saved: seq<Header>, ghost keep: nat)
      requires Sound() && 0 < keep <= |hs| && saved == hs[keep..]
      modifies this`byId, this`hs, this`ss, lazy`headers, lazy`scores
      ensures Sound()
      ensures hs == old(hs)[..keep] && ss == old(ss)[..keep] && NoneCached(saved)
      ensures Used(0, -1)
    {
      Served();
      ghost var before, base := Now(), hs[0].height;
      lazy.ServesPrefix(base, hs, ss, keep);
      assert forall i :: 0 <= i < |saved| ==> saved[i].height >= base + keep by {
        Linkage();
      }
      ghost var gone := Forget(saved, base + keep, base, hs[..keep], ss[..keep]);
      ShorterState(before, keep, gone, lazy.Fits());
      hs, ss := hs[..keep], ss[..keep];
    }

    /** Nothing is cached at the heights of these headers. */
    ghost predicate NoneCached(saved: seq<Header>)
      reads lazy
    {
      Uncached(lazy.headers, lazy.scores, saved)
    }

    static ghost predicate Uncached(headers: Lru<nat, Header>, scores: Lru<nat, nat>, saved: seq<Header>) {
      forall i {:trigger saved[i]} :: 0 <= i < |saved| ==> !headers.Has(saved[i].height) && !scores.Has(saved[i].height)
    }

    static lemma ForgetMore(headers: Lru<nat, Header>, scores: Lru<nat, nat>, saved: seq<Header>, i: nat)
      requires headers.Valid() && scores.Valid() && i < |saved| && Uncached(headers, scores, saved[..i])
      ensures Uncached(headers.Pop(saved[i].height), scores.Pop(saved[i].height), saved[..i + 1])
    {
      headers.PopKeeps(saved[i].height);
      scores.PopKeeps(saved[i].height);
      forall j | 0 <= j < i
        ensures !headers.Pop(saved[i].height).Has(saved[j].height) && !scores.Pop(saved[i].height).Has(saved[j].height)
      {
        assert saved[..i][j] == saved[j];
        headers.PopLacks(saved[i].height, saved[j].height);
        scores.PopLacks(saved[i].height, saved[j].height);
      }
    }

    /** Drop headers at or above `from` from the index and the caches. */
    method Forget(saved: seq<Header>, ghost from: nat, ghost base: nat, ghost below: seq<Header>, ghost belowScores: seq<nat>)
      returns (ghost gone: set<Id>)
      requires lazy.Valid() && lazy.Serving(base, below, belowScores) == Intact
      requires |below| == |belowScores| && base + |below| <= from
      requires forall i :: 0 <= i < |saved| ==> saved[i].height >= from
      modifies this`byId, lazy`headers, lazy`scores
      ensures byId == old(byId) - gone
      ensures forall id :: id in gone <==> exists j :: 0 <= j < |saved| && IdOf(saved[j]) == id
      ensures lazy.Valid() && lazy.Serving(base, below, belowScores) == Intact && lazy.Capacity() == old(lazy.Capacity())
      ensures NoneCached(saved)
    {
      gone := {};
      for i := 0 to |saved|
        invariant lazy.Valid() && lazy.Serving(base, below, belowScores) == Intact && lazy.Capacity() == old(lazy.Capacity())
        invariant byId == old(byId) - gone
        invariant forall id :: id in gone <==> exists j :: 0 <= j < i && IdOf(saved[j]) == id
        invariant NoneCached(saved[..i])
      {
        ForgetMore(lazy.headers, lazy.scores, saved, i);
        lazy.Evict(saved[i].height);
        byId := byId - {IdOf(saved[i])};
        gone := gone + {IdOf(saved[i])};
      }
    }

    /** Put the branch on top header by header, stopping at the first fault. */
    method ApplyBranch(branch: seq<Header>, env: Env) returns (r: Attempt<Option<ChainError>>, n: nat)
      requires Sound() && hs != []
      requires branch != [] && branch[0].parentId == IdOf(Last(hs))
      modifies this`baseHeight, this`byId, this`hs, this`ss, lazy`headers, lazy`scores, lazy`strayed, lazy`calm
      ensures n <= |branch| && (r == Returned(None) ==> n == |branch|)
      ensures r.Returned? ==> Sound() && hs == old(hs) + branch[..n] && old(ss) <= ss
      ensures lazy.Fits() ==> r == Faced(BranchFault(law, old(hs), branch, env, 0))
      ensures Used(Reach(law.rules, TipHeight(old(hs))), TipHeight(old(hs)) + |branch|)
    {
      n := 0;
      assert hs == old(hs) + branch[..0];
      while n < |branch|
        invariant n <= |branch|
        invariant Sound() && hs == old(hs) + branch[..n] && old(ss) <= ss
        invariant lazy.Fits() ==> BranchFault(law, old(hs), branch, env, 0) == BranchFault(law, old(hs), branch, env, n)
        invariant Used(Reach(law.rules, TipHeight(old(hs))), TipHeight(old(hs)) + |branch|)
      {
        var step := ApplyOne(branch[n], env, n, old(hs), branch);
        if step != Returned(None) {
          return step, n;
        }
        n := n + 1;
      }
      r := Returned(None);
    }

    /** One header of a branch: does it continue the tip, at the next height, and is it valid? */
    method ApplyOne(h: Header, env: Env, n: nat, ghost prefix: seq<Header>, ghost branch: seq<Header>) returns (r: Attempt<Option<ChainError>>)
      requires Sound() && prefix != []
      requires n < |branch| && h == branch[n] && hs == prefix + branch[..n]
      requires branch[0].parentId == IdOf(Last(prefix))
      modifies this`baseHeight, this`byId, this`hs, this`ss, lazy`headers, lazy`scores, lazy`strayed, lazy`calm
      ensures r.Returned? ==> Sound() && hs == prefix + branch[..if r.value.None? then n + 1 else n] && old(ss) <= ss
      ensures lazy.Fits() ==> r != Returned(Some(DivisionPanic))
      ensures lazy.Fits() ==>
                BranchFault(law, prefix, branch, env, n) == Or(if r.Panicked? then Some(DivisionPanic) else r.value, BranchFault(law, prefix, branch, env, n + 1))
      ensures Used(Reach(law.rules, TipHeight(prefix)), TipHeight(prefix) + n + 1)
    {
      assert hs[0] == prefix[0] && TipHeight(hs) == TipHeight(prefix) + n;
      assert n == 0 ==> hs == prefix;
      assert hs + [h] == prefix + branch[..n + 1];
      Sizes();
      if n > 0 {
        var tip := Tip();
        if tip.Panicked? {
          return Panicked;
        }
        if h.parentId != IdOf(tip.value) {
          return Returned(Some(ParentNotFound(h.parentId)));
        }
      }
      if h.height != Height() + 1 {
        return Returned(Some(NonSequentialHeight(Height() + 1, h.height)));
      }
      r := TryOnTop(h, env, n);
    }

    /** Undo a partly applied branch and put the drained headers back. */
    method Rollback(forkPoint: nat, saved: seq<Header>, scores: seq<nat>, ghost keep: nat) returns (panicked: bool)
      requires Sound() && 0 < keep <= |hs| && forkPoint == hs[0].height + keep - 1
      requires Trail(law, light, hs[..keep] + saved, ss[..keep] + scores, lazy.Fits()).Seal() == Intact && |scores| == |saved|
      modifies this`baseHeight, this`byId, this`hs, this`ss, lazy`headers, lazy`scores, lazy`strayed, lazy`calm
      ensures lazy.Fits() ==> !panicked
      ensures !panicked ==> Sound() && hs == old(hs)[..keep] + saved && ss == old(ss)[..keep] + scores
      ensures Used(forkPoint, forkPoint + if |saved| > |old(hs)| - keep then |saved| else |old(hs)| - keep)
    {
      ghost var top := forkPoint + if |saved| > |hs| - keep then |saved| else |hs| - keep;
      Sizes();
      while Height() > forkPoint
        invariant Sound() && keep <= |hs| <= |old(hs)| && Height() == forkPoint + |hs| - keep
        invariant hs == old(hs)[..|hs|] && ss == old(ss)[..|hs|]
        invariant Used(forkPoint, top)
        decreases |hs|
      {
        var popped := PopHeader();
        if popped.Panicked? {
          return true;
        }
        Sizes();
      }
      assert hs == old(hs)[..keep] && ss == old(ss)[..keep];
      WeakerTrail(Trail(law, light, hs + saved, ss + scores, old(lazy.Fits())), lazy.Fits());
      PutBack(saved, scores);
      panicked := false;
    }

    method PutBack(saved: seq<Header>, scores: seq<nat>)
      requires Sound() && hs != [] && |scores| == |saved|
      requires Trail(law, light, hs + saved, ss + scores, lazy.Fits()).Seal() == Intact
      modifies this`baseHeight, this`byId, this`hs, this`ss, lazy`headers, lazy`scores, lazy`strayed, lazy`calm
      ensures Sound() && hs == old(hs) + saved && ss == old(ss) + scores
      ensures Used(TipHeight(old(hs)), TipHeight(old(hs)) + |saved|)
    {
      for i := 0 to |saved|
        invariant Sound() && hs == old(hs) + saved[..i] && ss == old(ss) + scores[..i]
        invariant Used(TipHeight(old(hs)), TipHeight(old(hs)) + |saved|)
      {
        NextSaved(old(hs), old(ss), saved, scores, i, old(lazy.Fits()));
        RestoreHeader(saved[i], scores[i]);
        assert saved[..i + 1] == saved[..i] + [saved[i]];
        assert scores[..i + 1] == scores[..i] + [scores[i]];
      }
    }

    lemma NextSaved(prefix: seq<Header>, below: seq<nat>, saved: seq<Header>, scores: seq<nat>, i: nat, fits: bool)
      requires prefix != [] && |below| == |prefix| && |scores| == |saved| && i < |saved|
      requires hs == prefix + saved[..i] && ss == below + scores[..i]
      requires Trail(law, light, prefix + saved, below + scores, fits).Seal() == Intact
      ensures Extends(saved[i]) && saved[i].height == TipHeight(prefix) + 1 + i
      ensures fits ==> scores[i] == NextScore(law.rules, light, ss, saved[i])
      ensures fits && !light ==> NextValid(law, hs, saved[i])
    {
      OpenTrail(Trail(law, light, prefix + saved, below + scores, fits));
      var all := prefix + saved;
      assert Slot(|prefix| + i) && Slot(|prefix| + i - 1);
      assert all[|prefix| + i] == saved[i] && all[|prefix| + i - 1] == Last(hs);
      assert all[|prefix| + i].height == all[0].height + |prefix| + i;
      assert (below + scores)[|prefix| + i] == scores[i] && (below + scores)[|prefix| + i - 1] == Last(ss);
      if fits && !light {
        NextOfAccepted(law, all, |prefix| + i);
        assert all[..|prefix| + i] == hs;
      }
    }

    /** Swap what is above the fork point for the branch, or leave the chain as it was. */
    method SwitchBranch(forkPoint: nat, saved: seq<Header>, scores: seq<nat>, branch: seq<Header>, env: Env, ghost keep: nat)
      returns (r: Attempt<Option<ChainError>>)
      requires Sound() && 0 < keep <= |hs| && forkPoint == hs[0].height + keep - 1
      requires saved == hs[keep..] && |scores| == |saved| && (lazy.Fits() ==> scores == ss[keep..])
      requires branch != [] && branch[0].parentId == IdOf(hs[keep - 1])
      modifies this`baseHeight, this`byId, this`hs, this`ss, lazy`headers, lazy`scores, lazy`strayed, lazy`calm
      ensures r.Returned? ==> Sound()
      ensures r.Returned? ==> hs == if r.value.None? then old(hs)[..keep] + branch else old(hs)
      ensures r.Returned? && r.value.Some? && lazy.Fits() ==> ss == old(ss)
      ensures lazy.Fits() ==> r == Faced(BranchFault(law, old(hs)[..keep], branch, env, 0))
      ensures Used(Reach(law.rules, forkPoint), Larger(TipHeight(old(hs)), forkPoint + |branch|))
    {
      ghost var backup := Backup(saved, scores, keep);
      Drain(saved, keep);
      WeakerTrail(backup, lazy.Fits());
      r := ApplyOrRestore(forkPoint, saved, scores, branch, env);
    }

    method ApplyOrRestore(forkPoint: nat, saved: seq<Header>, scores: seq<nat>, branch: seq<Header>, env: Env)
      returns (r: Attempt<Option<ChainError>>)
      requires Sound() && hs != [] && forkPoint == TipHeight(hs) && |scores| == |saved|
      requires Trail(law, light, hs + saved, ss + scores, lazy.Fits()).Seal() == Intact
      requires branch != [] && branch[0].parentId == IdOf(Last(hs))
      modifies this`baseHeight, this`byId, this`hs, this`ss, lazy`headers, lazy`scores, lazy`strayed, lazy`calm
      ensures r.Returned? ==> Sound() && hs == old(hs) + if r.value.None? then branch else saved
      ensures r.Returned? && r.value.Some? ==> ss == old(ss) + scores
      ensures lazy.Fits() ==> r == Faced(BranchFault(law, old(hs), branch, env, 0))
      ensures Used(Reach(law.rules, forkPoint), forkPoint + Larger(|saved|, |branch|))
    {
      ghost var keep, backup := |hs|, Trail(law, light, hs + saved, ss + scores, lazy.Fits());
      var n;
      r, n := ApplyBranch(branch, env);
      if r.Returned? && r.value.Some? {
        assert hs[..keep] == old(hs) && ss[..keep] == old(ss);
        WeakerTrail(backup, lazy.Fits());
        var panicked := Rollback(forkPoint, saved, scores, keep);
        if panicked {
          r := Panicked;
        }
      }
    }

    /** What was drained can be put back. */
    lemma Backup(saved: seq<Header>, scores: seq<nat>, keep: nat) returns (t: Trail)
      requires Sound() && keep <= |hs| && saved == hs[keep..] && |scores| == |saved|
      requires lazy.Fits() ==> scores == ss[keep..]
      ensures t == Trail(law, light, hs[..keep] + saved, ss[..keep] + scores, lazy.Fits())
      ensures t.Seal() == Intact && hs[..keep] + saved == hs && (lazy.Fits() ==> ss[..keep] + scores == ss)
    {
      Shape();
      OpenTrail(Now().trail);
      t := Trail(law, light, hs[..keep] + saved, ss[..keep] + scores, lazy.Fits());
      assert hs[..keep] + saved == hs && (lazy.Fits() ==> ss[..keep] + scores == ss);
    }

    /** On a full chain that can be read back neither reorganisation panics. */
    lemma DeepIsSafe(forkPoint: nat, branch: seq<Header>, env: Env)
      requires Sound() && lazy.Fits() && !light
      ensures DeepReorg(law, hs, forkPoint, branch, env) != Refused(DivisionPanic)
    {
      Validity();
      Lawfulness();
      FullNeverPanics(law, hs, forkPoint, branch, env);
    }

    lemma TipIsSafe(alternative: Header, continuation: Header, env: Env)
      requires Sound() && lazy.Fits() && !light
      ensures TipReorg(law, hs, alternative, continuation, env) != Refused(DivisionPanic)
    {
      Validity();
      Lawfulness();
      FullTipNeverPanics(law, hs, alternative, continuation, env);
    }

    /** Rewind to `forkPoint` and apply `branch`; on any fault the chain is as it was. */
    method TryReorgDeep(forkPoint: nat, branch: seq<Header>, env: Env) returns (r: Attempt<Reorged>)
      requires Sound()
      modifies this`baseHeight, this`byId, this`hs, this`ss, lazy`headers, lazy`scores, lazy`strayed, lazy`calm
      ensures r.Returned? ==> Sound() && hs == AfterDeep(old(hs), forkPoint, branch, r.value)
      ensures r.Returned? && r.value.Refused? ==> byId == old(byId) && baseHeight == old(baseHeight) && hs == old(hs)
      ensures r.Returned? && r.value.Refused? && lazy.Fits() ==> ss == old(ss)
      ensures r.Returned? && r.value.Switched? ==>
                && old(hs) != [] && old(hs)[0].height <= forkPoint <= TipHeight(old(hs))
                && r.value.demoted == Ids(old(hs)[forkPoint - old(hs)[0].height + 1..])
      ensures lazy.Fits() ==> r == Concluded(DeepReorg(law, old(hs), forkPoint, branch, env))
      ensures Used(Reach(law.rules, forkPoint), Larger(TipHeight(old(hs)), forkPoint + |branch|))
    {
      Sizes();
      if branch == [] {
        return Returned(Refused(Reorg(EmptyBranch)));
      }
      if IsEmpty() {
        return Returned(Refused(Reorg(EmptyChain)));
      }
      if forkPoint < baseHeight.value {
        return Returned(Refused(Reorg(BelowFloor)));
      }
      if forkPoint > Height() {
        return Returned(Refused(Reorg(AboveTip)));
      }
      r := ReorgFrom(forkPoint, branch, env, forkPoint - hs[0].height + 1);
    }

    method ReorgFrom(forkPoint: nat, branch: seq<Header>, env: Env, ghost keep: nat) returns (r: Attempt<Reorged>)
      requires Sound() && branch != [] && 0 < keep <= |hs| && forkPoint == hs[0].height + keep - 1
      modifies this`baseHeight, this`byId, this`hs, this`ss, lazy`headers, lazy`scores, lazy`strayed, lazy`calm
      ensures r.Returned? ==> Sound() && hs == if r.value.Switched? then old(hs)[..keep] + branch else old(hs)
      ensures r.Returned? && r.value.Refused? ==> byId == old(byId) && baseHeight == old(baseHeight)
      ensures r.Returned? && r.value.Refused? && lazy.Fits() ==> ss == old(ss)
      ensures r.Returned? && r.value.Switched? ==> r.value.demoted == Ids(old(hs)[keep..])
      ensures lazy.Fits() ==> r == Concluded(DeepReorg(law, old(hs), forkPoint, branch, env))
      ensures Used(Reach(law.rules, forkPoint), Larger(TipHeight(old(hs)), forkPoint + |branch|))
    {
      var fault, saved, scores := PrepareReorg(forkPoint, branch, keep);
      if fault.Some? {
        return Returned(Refused(fault.value));
      }
      var switched := SwitchOrKeep(forkPoint, saved, scores, branch, env, keep);
      r := if switched.Panicked? then Panicked
           else Returned(if switched.value.Some? then Refused(switched.value.value) else Switched(Ids(saved)));
    }

    /** Everything that can stop a reorganisation before it has changed anything. */
    method PrepareReorg(forkPoint: nat, branch: seq<Header>, ghost keep: nat)
      returns (fault: Option<ChainError>, saved: seq<Header>, scores: seq<nat>)
      requires Sound() && branch != [] && 0 < keep <= |hs| && forkPoint == hs[0].height + keep - 1
      modifies lazy`headers, lazy`scores, lazy`strayed
      ensures Sound()
      ensures lazy.Fits() ==> fault == if branch[0].parentId != IdOf(hs[keep - 1]) then Some(Reorg(NotOnForkPoint)) else None
      ensures fault.None? ==> branch[0].parentId == IdOf(hs[keep - 1]) && saved == hs[keep..] && |scores| == |saved|
      ensures fault.None? && lazy.Fits() ==> scores == ss[keep..]
      ensures Used(forkPoint, TipHeight(hs))
    {
      fault, saved, scores := None, [], [];
      var at := HeaderAt(forkPoint);
      if at.None? {
        fault := Some(Reorg(ForkPointUnavailable));
      } else if branch[0].parentId != IdOf(at.value) {
        fault := Some(Reorg(NotOnForkPoint));
      } else {
        var above := CollectAbove(forkPoint, keep);
        if above.None? {
          fault := Some(Reorg(DrainUnavailable));
        } else {
          saved, scores := above.value.0, above.value.1;
        }
      }
    }

    method SwitchOrKeep(forkPoint: nat, saved: seq<Header>, scores: seq<nat>, branch: seq<Header>, env: Env, ghost keep: nat)
      returns (r: Attempt<Option<ChainError>>)
      requires Sound() && 0 < keep <= |hs| && forkPoint == hs[0].height + keep - 1
      requires saved == hs[keep..] && |scores| == |saved| && (lazy.Fits() ==> scores == ss[keep..])
      requires branch != [] && branch[0].parentId == IdOf(hs[keep - 1])
      modifies this`baseHeight, this`byId, this`hs, this`ss, lazy`headers, lazy`scores, lazy`strayed, lazy`calm
      ensures r.Returned? ==> Sound()
      ensures r.Returned? ==> hs == if r.value.None? then old(hs)[..keep] + branch else old(hs)
      ensures r.Returned? && r.value.Some? ==> byId == old(byId) && baseHeight == old(baseHeight)
      ensures r.Returned? && r.value.Some? && lazy.Fits() ==> ss == old(ss)
      ensures lazy.Fits() ==> r == Faced(BranchFault(law, old(hs)[..keep], branch, env, 0))
      ensures Used(Reach(law.rules, forkPoint), Larger(TipHeight(old(hs)), forkPoint + |branch|))
    {
      ghost var before := Now();
      r := SwitchBranch(forkPoint, saved, scores, branch, env, keep);
      if r.Returned? && r.value.Some? {
        SameIndex(before, Now());
      }
    }

    /** Replace the tip by `alternative` and put `continuation` on top, or leave the chain as it was. */
    method TryReorg(alternative: Header, continuation: Header, env: Env) returns (r: Attempt<Reorged>)
      requires Sound()
      modifies this`baseHeight, this`byId, this`hs, this`ss, lazy`headers, lazy`scores, lazy`strayed, lazy`calm
      ensures r.Returned? ==> Sound() && hs == AfterTip(old(hs), alternative, continuation, r.value)
      ensures r.Returned? && r.value.Refused? ==> byId == old(byId) && baseHeight == old(baseHeight) && hs == old(hs)
      ensures r.Returned? && r.value.Refused? && lazy.Fits() ==> ss == old(ss)
      ensures r.Returned? && r.value.Switched? ==> |old(hs)| >= 2 && r.value.demoted == [IdOf(Last(old(hs)))]
      ensures lazy.Fits() ==> r == Concluded(TipReorg(law, old(hs), alternative, continuation, env))
      ensures Used(Reach(law.rules, TipHeight(old(hs)) - 1), TipHeight(old(hs)) + 1)
    {
      Sizes();
      TipIsLastIfAny();
      if |byId| < 2 {
        return Returned(Refused(Reorg(TooShort)));
      }
      var tip := Tip();
      if tip.Panicked? {
        return Panicked;
      }
      var misfit := Misfit(tip.value, alternative, continuation);
      if misfit.Some? {
        return Returned(Refused(misfit.value));
      }
      var fault := ReplaceOrKeep(alternative, continuation, env);
      if fault.Panicked? {
        return Panicked;
      }
      r := Returned(if fault.value.Some? then Refused(fault.value.value) else Switched([IdOf(tip.value)]));
    }

    lemma TipIsLastIfAny()
      requires Sound()
      ensures hs != [] ==> Last(hs).height == TipHeight(hs)
    {
      Open(Now());
    }

    /** The alternative must compete with the tip, and the continuation must build on it. */
    static function Misfit(tip: Header, alternative: Header, continuation: Header): Option<ChainError> {
      if alternative.height != tip.height then Some(Reorg(WrongAlternativeHeight))
      else if alternative.parentId != tip.parentId then Some(Reorg(WrongAlternativeParent))
      else if continuation.parentId != IdOf(alternative) then Some(Reorg(NotOnAlternative))
      else if continuation.height != alternative.height + 1 then
        Some(NonSequentialHeight(alternative.height + 1, continuation.height))
      else None
    }

    method ReplaceOrKeep(alternative: Header, continuation: Header, env: Env) returns (r: Attempt<Option<ChainError>>)
      requires Sound() && |hs| >= 2 && Misfit(Last(hs), alternative, continuation).None?
      modifies this`baseHeight, this`byId, this`hs, this`ss, lazy`headers, lazy`scores, lazy`strayed, lazy`calm
      ensures r.Returned? ==> Sound()
      ensures r.Returned? ==> hs == if r.value.None? then old(hs)[..|old(hs)| - 1] + [alternative, continuation] else old(hs)
      ensures r.Returned? && r.value.Some? ==> byId == old(byId) && baseHeight == old(baseHeight)
      ensures r.Returned? && r.value.Some? && lazy.Fits() ==> ss == old(ss)
      ensures lazy.Fits() ==>
                var below := old(hs)[..|old(hs)| - 1];
                r == Faced(Or(ReorgFault(law, below, alternative, env, 0),
                              ReorgFault(law, below + [alternative], continuation, env, 1)))
      ensures Used(Reach(law.rules, TipHeight(old(hs)) - 1), TipHeight(old(hs)) + 1)
    {
      ghost var before := Now();
      r := ReplaceTip(alternative, continuation, env);
      if r.Returned? && r.value.Some? {
        SameIndex(before, Now());
      }
    }

    method ReplaceTip(alternative: Header, continuation: Header, env: Env) returns (r: Attempt<Option<ChainError>>)
      requires Sound() && |hs| >= 2 && Misfit(Last(hs), alternative, continuation).None?
      modifies this`baseHeight, this`byId, this`hs, this`ss, lazy`headers, lazy`scores, lazy`strayed, lazy`calm
      ensures r.Returned? ==> Sound()
      ensures r.Returned? ==> hs == if r.value.None? then old(hs)[..|old(hs)| - 1] + [alternative, continuation] else old(hs)
      ensures r.Returned? && r.value.Some? && lazy.Fits() ==> ss == old(ss)
      ensures lazy.Fits() ==>
                var below := old(hs)[..|old(hs)| - 1];
                r == Faced(Or(ReorgFault(law, below, alternative, env, 0),
                              ReorgFault(law, below + [alternative], continuation, env, 1)))
      ensures Used(Reach(law.rules, TipHeight(old(hs)) - 1), TipHeight(old(hs)) + 1)
    {
      Shape();
      Linkage();
      assert Slot(|hs| - 1);
      ghost var trail := Now().trail;
      var popped := PopHeader();
      if popped.Panicked? {
        return Panicked;
      }
      assert hs + [popped.value.0] == old(hs) && (lazy.Fits() ==> ss + [popped.value.1] == old(ss));
      assert Trail(law, light, hs + [popped.value.0], ss + [popped.value.1], lazy.Fits()).Seal() == Intact by {
        OpenTrail(trail);
      }
      r := AlternativeOrUndo(alternative, continuation, env, popped.value.0, popped.value.1);
    }

    method AlternativeOrUndo(alternative: Header, continuation: Header, env: Env, oldTip: Header, oldScore: nat)
      returns (r: Attempt<Option<ChainError>>)
      requires Sound() && hs != [] && alternative.parentId == IdOf(Last(hs)) && alternative.height == TipHeight(hs) + 1
      requires continuation.parentId == IdOf(alternative) && continuation.height == alternative.height + 1
      requires Trail(law, light, hs + [oldTip], ss + [oldScore], lazy.Fits()).Seal() == Intact
      modifies this`baseHeight, this`byId, this`hs, this`ss, lazy`headers, lazy`scores, lazy`strayed, lazy`calm
      ensures r.Returned? ==> Sound()
      ensures r.Returned? ==> hs == old(hs) + if r.value.None? then [alternative, continuation] else [oldTip]
      ensures r.Returned? && r.value.Some? ==> ss == old(ss) + [oldScore]
      ensures lazy.Fits() ==>
                r == Faced(Or(ReorgFault(law, old(hs), alternative, env, 0),
                              ReorgFault(law, old(hs) + [alternative], continuation, env, 1)))
      ensures Used(Reach(law.rules, TipHeight(old(hs))), TipHeight(old(hs)) + 2)
    {
      ghost var backup := Trail(law, light, hs + [oldTip], ss + [oldScore], lazy.Fits());
      r := TryOnTop(alternative, env, 0);
      if r.Panicked? {
        return;
      }
      WeakerTrail(backup, lazy.Fits());
      if r.value.Some? {
        assert ss == old(ss);
        PutBack([oldTip], [oldScore]);
      } else {
        r := ContinueOrUndo(continuation, env, oldTip, oldScore, old(hs), old(ss));
        assert old(hs) + [alternative] + [continuation] == old(hs) + [alternative, continuation];
      }
    }

    method ContinueOrUndo(continuation: Header, env: Env, oldTip: Header, oldScore: nat, ghost below: seq<Header>, ghost scores: seq<nat>)
      returns (r: Attempt<Option<ChainError>>)
      requires Sound() && below != [] && below <= hs && scores <= ss && |hs| == |below| + 1 && |scores| == |below|
      requires continuation.parentId == IdOf(Last(hs)) && continuation.height == TipHeight(hs) + 1
      requires Trail(law, light, below + [oldTip], scores + [oldScore], lazy.Fits()).Seal() == Intact
      modifies this`baseHeight, this`byId, this`hs, this`ss, lazy`headers, lazy`scores, lazy`strayed, lazy`calm
      ensures r.Returned? ==> Sound()
      ensures r.Returned? ==> hs == if r.value.None? then old(hs) + [continuation] else below + [oldTip]
      ensures r.Returned? && r.value.Some? ==> ss == scores + [oldScore]
      ensures lazy.Fits() ==> r == Faced(ReorgFault(law, old(hs), continuation, env, 1))
      ensures Used(Reach(law.rules, TipHeight(old(hs)) - 1), TipHeight(old(hs)) + 1)
    {
      ghost var backup := Trail(law, light, below + [oldTip], scores + [oldScore], lazy.Fits());
      r := TryOnTop(continuation, env, 1);
      if r.Returned? && r.value.Some? {
        var popped := PopHeader();
        if popped.Panicked? {
          return Panicked;
        }
        assert hs == below && ss == scores;
        WeakerTrail(backup, lazy.Fits());
        PutBack([oldTip], [oldScore]);
      }
    }

    // ---- Light-client install ----

    /** Take over a verified suffix, or leave the empty chain empty. */
    method Install(head: Header, tail: seq<Header>) returns (r: Attempt<Option<ChainError>>, rows: seq<InstalledHeader>)
      requires Sound()
      modifies this`baseHeight, this`byId, this`light, this`hs, this`ss, lazy`headers, lazy`scores, lazy`strayed, lazy`calm
      ensures r.Returned? ==> Sound()
      ensures r.Returned? && r.value.None? ==> old(hs) == [] && hs == [head] + tail && light
      ensures r.Returned? && r.value.None? ==> |rows| == |hs| && RowsMatch(rows, hs) && (lazy.Fits() ==> ScoresMatch(rows, ss))
      ensures r.Returned? && r.value.Some? ==>
                hs == old(hs) && byId == old(byId) && baseHeight == old(baseHeight) && light == old(light) && rows == []
      ensures lazy.Fits() ==> r == Returned(InstallFault(law.rules, old(hs), head, tail))
      ensures Used(head.height, head.height + |tail|)
    {
      Sizes();
      if !IsEmpty() {
        return Returned(Some(ChainNotEmpty)), [];
      }
      if !law.rules.powOk(head) {
        return Returned(Some(PowInvalid)), [];
      }
      assert byId == map[];
      PlaceHead(head);
      r, rows := InstallTail(head, tail);
      if r.Returned? && r.value.Some? {
        RollbackInstall();
        rows := [];
      }
    }

    static ghost predicate RowsMatch(rows: seq<InstalledHeader>, hs: seq<Header>) {
      |rows| == |hs| && forall i :: 0 <= i < |rows| ==> rows[i].id == IdOf(hs[i]) && rows[i].height == hs[i].height
    }

    static ghost predicate ScoresMatch(rows: seq<InstalledHeader>, ss: seq<nat>) {
      |rows| == |ss| && forall i :: 0 <= i < |rows| ==> rows[i].score == ss[i]
    }

    /** The first installed header counts no work. */
    method PlaceHead(head: Header)
      requires Sound() && hs == [] && law.rules.powOk(head)
      modifies this`baseHeight, this`byId, this`light, this`hs, this`ss, lazy`headers, lazy`scores, lazy`strayed, lazy`calm
      ensures Sound() && hs == [head] && ss == [0] && light
      ensures Used(head.height, head.height)
    {
      Served();
      ghost var before := Now();
      baseHeight, byId, light := Some(head.height), map[IdOf(head) := head.height], true;
      lazy.ServesNothing(head.height);
      lazy.Put(head.height, head, 0);
      HeadState(before, head, lazy.Fits());
      hs, ss := [] + [head], [] + [0];
    }

    method RollbackInstall()
      requires Sound()
      modifies this`baseHeight, this`byId, this`light, this`hs, this`ss, lazy`headers, lazy`scores
      ensures Sound() && hs == [] && byId == map[] && baseHeight == None && !light
      ensures lazy.headers.entries == [] && lazy.scores.entries == []
      ensures Used(0, -1)
    {
      Open(Now());
      baseHeight, byId, light := None, map[], false;
      lazy.Clear();
      lazy.ServesNothing(0);
      hs, ss := [], [];
      Close(Now());
    }

    method InstallTail(head: Header, tail: seq<Header>) returns (r: Attempt<Option<ChainError>>, rows: seq<InstalledHeader>)
      requires Sound() && light && hs == [head] && ss == [0]
      modifies this`baseHeight, this`byId, this`hs, this`ss, lazy`headers, lazy`scores, lazy`strayed, lazy`calm
      ensures r.Returned? ==> Sound()
      ensures r == Returned(None) ==> hs == [head] + tail && RowsMatch(rows, hs) && (lazy.Fits() ==> ScoresMatch(rows, ss))
      ensures lazy.Fits() ==> r == Returned(TailFault(law.rules, head, tail))
      ensures Used(head.height, head.height + |tail|)
    {
      rows := [InstalledHeader(IdOf(head), head.height, 0)];
      assert tail[0..] == tail;
      for i := 0 to |tail|
        invariant Sound() && light && hs == [head] + tail[..i]
        invariant RowsMatch(rows, hs) && (lazy.Fits() ==> ScoresMatch(rows, ss))
        invariant lazy.Fits() ==> TailFault(law.rules, head, tail) == TailFault(law.rules, Last(hs), tail[i..])
        invariant Used(head.height, head.height + |tail|)
      {
        var step, score := InstallOne(tail[i]);
        if step != Returned(None) {
          return step, rows;
        }
        assert tail[..i + 1] == tail[..i] + [tail[i]] && tail[i..][1..] == tail[i + 1..];
        rows := rows + [InstalledHeader(IdOf(tail[i]), tail[i].height, score)];
      }
      assert tail[..|tail|] == tail;
      r := Returned(None);
    }

    method InstallOne(h: Header) returns (r: Attempt<Option<ChainError>>, score: nat)
      requires Sound() && light && hs != []
      modifies this`baseHeight, this`byId, this`hs, this`ss, lazy`headers, lazy`scores, lazy`strayed, lazy`calm
      ensures r.Returned? ==> Sound()
      ensures r == Returned(None) ==> hs == old(hs) + [h] && old(ss) <= ss
      ensures lazy.Fits() ==> r == Returned(SuffixFault(law.rules, Last(old(hs)), h))
      ensures Used(TipHeight(old(hs)), TipHeight(old(hs)) + 1)
      ensures r == Returned(None) && lazy.Fits() ==> score == Last(ss)
    {
      score := 0;
      TipIsLast();
      var tip := Tip();
      if tip.Panicked? {
        return Panicked, 0;
      }
      var fault := SuffixFault(law.rules, tip.value, h);
      if fault.Some? {
        return Returned(fault), 0;
      }
      r, score := PushScored(h);
    }

    method PushScored(h: Header) returns (r: Attempt<Option<ChainError>>, score: nat)
      requires Sound() && light && hs != [] && h.parentId == IdOf(Last(hs)) && h.height == TipHeight(hs) + 1 && law.rules.powOk(h)
      modifies this`baseHeight, this`byId, this`hs, this`ss, lazy`headers, lazy`scores, lazy`strayed, lazy`calm
      ensures r.Returned? ==> Sound() && r.value.None? && hs == old(hs) + [h] && old(ss) <= ss
      ensures lazy.Fits() ==> r.Returned? && score == Last(ss)
      ensures Used(TipHeight(old(hs)), TipHeight(old(hs)) + 1)
    {
      var panicked := PushHeader(h);
      if panicked {
        return Panicked, 0;
      }
      var s := ScoreAt(h.height);
      if s.None? {
        return Panicked, 0;
      }
      r, score := Returned(None), s.value;
    }

    // ---- Linkage audit ----

    ghost function Shelved(): Shelf
      reads this, lazy, lazy.loader
    {
      Shelf(lazy.HeaderView(), byId)
    }

    /** How many parent links an audit of the given depth looks at. */
    function CheckedLinks(maxDepth: Option<nat>): nat
      reads this
    {
      if baseHeight.None? || Height() <= baseHeight.value then 0
      else
        var links := Height() - baseHeight.value;
        if maxDepth.Some? && maxDepth.value < links then maxDepth.value else links
    }

    /**
     Walk the chain from the tip down. A sound chain that can be read back passes at every depth.
     Of any other index: where the caches hold nothing that the loader does not, the verdict is
     that of `Shelf.Audit`, which is right about all the links it has to look at.
     */
    method VerifyLinkage(maxDepth: Option<nat>) returns (r: Option<ChainError>)
      requires lazy.Valid()
      modifies lazy`headers, lazy`strayed
      ensures lazy.Valid() && (old(Sound()) ==> Sound())
      ensures old(Sound()) && lazy.Fits() ==> r.None?
      ensures var lo := Height() - CheckedLinks(maxDepth);
              old(lazy.Mirrors(lo, Height())) ==> lazy.Mirrors(lo, Height()) && Decides(Shelved(), baseHeight, Height(), maxDepth, r)
      ensures Used(Height() - CheckedLinks(maxDepth), Height())
    {
      r := WalkLinks(maxDepth);
      AuditIsRight(maxDepth);
    }

    lemma AuditIsRight(maxDepth: Option<nat>)
      ensures Decides(Shelved(), baseHeight, Height(), maxDepth, Shelved().Audit(Height() - CheckedLinks(maxDepth), Height()))
    {
      if CheckedLinks(maxDepth) > 0 {
        AuditDecides(Shelved(), Height() - CheckedLinks(maxDepth), Height());
      }
    }

    method WalkLinks(maxDepth: Option<nat>) returns (r: Option<ChainError>)
      requires lazy.Valid()
      modifies lazy`headers, lazy`strayed
      ensures lazy.Valid() && (old(Sound()) ==> Sound())
      ensures old(Sound()) && lazy.Fits() ==> r.None?
      ensures var lo := Height() - CheckedLinks(maxDepth);
              old(lazy.Mirrors(lo, Height())) ==> lazy.Mirrors(lo, Height()) && r == Shelved().Audit(lo, Height())
      ensures Used(Height() - CheckedLinks(maxDepth), Height())
    {
      var checked := CheckedLinks(maxDepth);
      if checked == 0 {
        return None;
      }
      var lo := Height() - checked;
      ghost var mirrored, sound := lazy.Mirrors(lo, Height()), Sound();
      var fault, tip := LoadForWalk(Height(), lo);
      r := fault;
      if fault.None? {
        r := WalkDown(tip, lo, mirrored, sound);
      }
    }

    method WalkDown(tip: Header, lo: nat, ghost mirrored: bool, ghost sound: bool) returns (r: Option<ChainError>)
      requires lazy.Valid() && baseHeight.Some? && baseHeight.value <= lo <= Height()
      requires mirrored ==> lazy.Mirrors(lo, Height()) && Get(lazy.HeaderView(), Height()) == Some(tip)
      requires sound ==> Sound() && (lazy.Fits() ==> ChainSpec.HeaderAt(hs, Height()) == Some(tip))
      modifies lazy`headers, lazy`strayed
      ensures lazy.Valid()
      ensures sound ==> Sound() && (lazy.Fits() ==> r.None?)
      ensures mirrored ==> lazy.Mirrors(lo, Height()) && r == Shelved().Walk(lo, Height())
      ensures Used(lo, Height())
    {
      var h, child := Height(), tip;
      while h > lo
        invariant lo <= h <= Height() && lazy.Valid()
        invariant mirrored ==> lazy.Mirrors(lo, Height()) && Get(lazy.HeaderView(), h) == Some(child)
        invariant mirrored ==> Shelved().Walk(lo, Height()) == Shelved().Walk(lo, h)
        invariant sound ==> Sound() && (lazy.Fits() ==> ChainSpec.HeaderAt(hs, h) == Some(child))
        invariant Used(lo, Height())
      {
        r, child := CheckLink(h, child, lo, mirrored, sound);
        if r.Some? {
          return;
        }
        h := h - 1;
      }
      r := None;
    }

    /** Load the parent of `child`, which sits at `h`, and compare the link. */
    method CheckLink(h: nat, child: Header, ghost lo: nat, ghost mirrored: bool, ghost sound: bool)
      returns (fault: Option<ChainError>, parent: Header)
      requires lazy.Valid() && baseHeight.Some? && baseHeight.value <= lo < h <= Height()
      requires mirrored ==> lazy.Mirrors(lo, Height()) && Get(lazy.HeaderView(), h) == Some(child)
      requires sound ==> Sound() && (lazy.Fits() ==> ChainSpec.HeaderAt(hs, h) == Some(child))
      modifies lazy`headers, lazy`strayed
      ensures lazy.Valid()
      ensures sound ==> Sound() && (lazy.Fits() ==> fault.None? && ChainSpec.HeaderAt(hs, h - 1) == Some(parent))
      ensures mirrored ==> lazy.Mirrors(lo, Height()) && (fault.None? ==> Get(lazy.HeaderView(), h - 1) == Some(parent))
      ensures mirrored ==> Shelved().Walk(lo, h) == if fault.None? then Shelved().Walk(lo, h - 1) else fault
      ensures Used(h - 1, h - 1)
    {
      if sound {
        ParentBelow(h);
      }
      fault, parent := LoadForWalk(h - 1, lo);
      if fault.None? && child.parentId != IdOf(parent) {
        fault := Some(BrokenParentLink(h, IdOf(child), child.parentId, IdOf(parent)));
      }
    }

    lemma ParentBelow(h: nat)
      requires Sound() && h > 0
      ensures ChainSpec.HeaderAt(hs, h).Some? && ChainSpec.HeaderAt(hs, h - 1).Some? ==>
                ChainSpec.HeaderAt(hs, h).value.parentId == IdOf(ChainSpec.HeaderAt(hs, h - 1).value)
    {
      if ChainSpec.HeaderAt(hs, h).Some? && ChainSpec.HeaderAt(hs, h - 1).Some? {
        Linkage();
        assert Slot(h - hs[0].height);
      }
    }

    /** Resolve a header and compare its slot, its height field and the index. */
    method LoadForWalk(height: nat, ghost lo: nat) returns (fault: Option<ChainError>, header: Header)
      requires lazy.Valid() && baseHeight.Some? && baseHeight.value <= lo <= height <= Height()
      modifies lazy`headers, lazy`strayed
      ensures lazy.Valid() && (old(Sound()) ==> Sound())
      ensures old(Sound()) && lazy.Fits() ==> fault.None? && ChainSpec.HeaderAt(hs, height) == Some(header)
      ensures old(lazy.Mirrors(lo, Height())) ==>
                && lazy.Mirrors(lo, Height())
                && fault == Shelved().SlotFault(height)
                && (fault.None? ==> Get(lazy.HeaderView(), height) == Some(header))
      ensures Used(height, height)
    {
      var found := Resolve(height, lo);
      if found.None? {
        header := *;
        return Some(IndexInconsistency(height, Unresolvable)), header;
      }
      header := found.value;
      fault :=
        if header.height != height then Some(IndexInconsistency(height, Misfiled))
        else match Get(byId, IdOf(header))
             case None => Some(IndexInconsistency(height, NotIndexed))
             case Some(mapped) => if mapped == height then None else Some(IndexInconsistency(height, MappedElsewhere));
    }

    method Resolve(height: nat, ghost lo: nat) returns (found: Option<Header>)
      requires lazy.Valid() && baseHeight.Some? && baseHeight.value <= lo <= height <= Height()
      modifies lazy`headers, lazy`strayed
      ensures lazy.Valid() && (old(Sound()) ==> Sound())
      ensures old(Sound()) && lazy.Fits() ==>
                found.Some? && found == ChainSpec.HeaderAt(hs, height) && found.value.height == height
                && Get(byId, IdOf(found.value)) == Some(height)
      ensures old(lazy.Mirrors(lo, Height())) ==> lazy.Mirrors(lo, Height()) && found == Get(lazy.HeaderView(), height)
      ensures Used(height, height)
    {
      ghost var mirrored := lazy.Mirrors(lo, Height());
      assert mirrored ==> lazy.Seen(height) == Get(lazy.HeaderView(), height);
      ghost var before, sound := Now(), Sound();
      if sound {
        Served();
        Sizes();
        SlotIndexed(height);
      }
      found := lazy.GetHeader(height);
      if sound {
        StillSound(before, lazy.Fits(), true);
      }
    }

    lemma SlotIndexed(height: nat)
      requires Sound() && hs != [] && hs[0].height <= height <= TipHeight(hs)
      ensures var h := hs[height - hs[0].height]; h.height == height && Get(byId, IdOf(h)) == Some(height)
    {
      Open(Now());
      assert Slot(height - hs[0].height);
    }

    /** The store has caught up with the chain, for headers and for scores. */
    ghost predicate Stored()
      reads this, lazy, lazy.loader
    {
      hs != [] ==> forall i {:trigger hs[i]} {:trigger ss[i]} :: 0 <= i < |hs| && i < |ss| ==>
        && Get(lazy.HeaderView(), hs[0].height + i) == Some(hs[i])
        && Get(lazy.ScoreView(), hs[0].height + i) == Some(ss[i])
    }

    /** Once the store has caught up, the audit passes at every depth. */
    lemma StoredChainPasses(maxDepth: Option<nat>, r: Option<ChainError>)
      requires Sound() && Stored() && Decides(Shelved(), baseHeight, Height(), maxDepth, r)
      ensures r.None?
      ensures lazy.Fits() && hs != [] ==> lazy.Mirrors(hs[0].height, Height())
    {
      Sizes();
      if hs != [] {
        var depth := if maxDepth.Some? && maxDepth.value < |hs| - 1 then maxDepth.value else |hs| - 1;
        StoredIsCoherent(Height() - depth);
        if lazy.Fits() {
          StoredMirrors(hs[0].height);
        }
      }
    }

    lemma StoredMirrors(lo: nat)
      requires Sound() && lazy.Fits() && Stored() && hs != [] && hs[0].height <= lo <= TipHeight(hs)
      ensures lazy.Mirrors(lo, TipHeight(hs))
    {
      Served();
      lazy.CaughtUp(hs[0].height, hs, ss);
      lazy.SettledMirrors(hs[0].height, hs, ss, lo, TipHeight(hs));
    }

    lemma StoredIsCoherent(lo: nat)
      requires Sound() && Stored() && hs != [] && hs[0].height <= lo <= TipHeight(hs)
      ensures Shelved().Coherent(lo, TipHeight(hs))
    {
      Open(Now());
      ChainIsCoherent(Shelved(), hs[0].height, hs, lo, TipHeight(hs));
    }
  }

  lemma ChainIsCoherent(s: Shelf, base: nat, hs: seq<Header>, lo: nat, tip: nat)
    requires hs != [] && hs[0].height == base && base <= lo <= tip == base + |hs| - 1
    requires Linked(hs) && Indexed(s.byId, base, hs)
    requires forall i {:trigger hs[i]} :: 0 <= i < |hs| ==> Get(s.view, base + i) == Some(hs[i])
    ensures s.Coherent(lo, tip)
  {
    forall h: nat | lo <= h <= tip
      ensures h in s.view && s.view[h].height == h && Get(s.byId, IdOf(s.view[h])) == Some(h)
      ensures h > lo ==> h - 1 in s.view && s.view[h].parentId == IdOf(s.view[h - 1])
    {
      assert Slot(h - base);
      assert Get(s.view, base + (h - base)) == Some(hs[h - base]);
      if h > lo {
        assert Get(s.view, base + (h - 1 - base)) == Some(hs[h - 1 - base]);
      }
    }
  }

  /** An index and a height view that pass an audit of every link describe one linked chain. */
  lemma PassedShelfIsChain(s: Shelf, base: nat, hs: seq<Header>)
    requires s.byId != map[] && hs != [] && |hs| == |s.byId|
    requires forall i :: 0 <= i < |hs| ==> Get(s.view, base + i) == Some(hs[i])
    requires |hs| == 1 ==> s.SlotFault(base).None?
    requires s.Audit(base, base + |hs| - 1).None?
    ensures Linked(hs) && hs[0].height == base && Indexed(s.byId, base, hs)
  {
    if |hs| > 1 {
      AuditDecides(s, base, base + |hs| - 1);
    } else {
      CoherentSlot(s, base);
    }
    CoherentIsLinked(s, base, hs);
    IndexedByCount(s.byId, base, hs);
  }

  lemma CoherentIsLinked(s: Shelf, base: nat, hs: seq<Header>)
    requires hs != [] && s.Coherent(base, base + |hs| - 1)
    requires forall i :: 0 <= i < |hs| ==> Get(s.view, base + i) == Some(hs[i])
    ensures Linked(hs) && hs[0].height == base
    ensures forall i {:trigger hs[i]} :: 0 <= i < |hs| ==> Get(s.byId, IdOf(hs[i])) == Some(base + i)
  {
    forall i | 0 <= i < |hs|
      ensures hs[i].height == base + i && Get(s.byId, IdOf(hs[i])) == Some(base + i)
      ensures i > 0 ==> hs[i].parentId == IdOf(hs[i - 1])
    {
      assert Get(s.view, base + i) == Some(hs[i]);
      if i > 0 {
        assert Get(s.view, base + (i - 1)) == Some(hs[i - 1]);
        assert s.view[base + i].parentId == IdOf(s.view[base + i - 1]);
      }
    }
  }

  lemma IndexedByCount(byId: map<Id, nat>, base: nat, hs: seq<Header>)
    requires |byId| == |hs|
    requires forall i {:trigger hs[i]} :: 0 <= i < |hs| ==> Get(byId, IdOf(hs[i])) == Some(base + i)
    ensures Indexed(byId, base, hs)
  {
    var ids := set i | 0 <= i < |hs| :: IdOf(hs[i]);
    DistinctIds(hs, |hs|);
    assert ids <= byId.Keys && |ids| == |byId.Keys|;
    SubsetOfSameSize(ids, byId.Keys);
    forall id | id in byId
      ensures base <= byId[id] < base + |hs| && IdOf(hs[byId[id] - base]) == id
    {
      assert id in ids;
    }
  }

  lemma {:induction false} DistinctIds(hs: seq<Header>, n: nat)
    requires n <= |hs| && forall i, j :: 0 <= i < j < |hs| ==> hs[i] != hs[j]
    ensures |set i | 0 <= i < n :: IdOf(hs[i])| == n
  {
    if n > 0 {
      DistinctIds(hs, n - 1);
      assert (set i | 0 <= i < n :: IdOf(hs[i])) == (set i | 0 <= i < n - 1 :: IdOf(hs[i])) + {IdOf(hs[n - 1])};
    }
  }

  lemma SubsetOfSameSize<T>(a: set<T>, b: set<T>)
    requires a <= b && |a| == |b|
    ensures a == b
  {
    assert |b - a| == |b| - |a|;
  }
}
