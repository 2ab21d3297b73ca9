/** What every run of chain operations keeps. */
module ChainProofs {
  import opened Seals
  import opened Headers
  import opened Difficulty
  import opened Adjustment
  import opened ChainSpec

  // ---- No zero divisor ----

  ghost predicate StrictlyUp(heights: seq<nat>) {
    forall i, j :: 0 <= i < j < |heights| ==> heights[i] < heights[j]
  }

  lemma {:induction false} LadderUp(top: nat, step: nat, count: nat)
    requires step > 0
    ensures StrictlyUp(Ladder(top, step, count))
    ensures forall x :: x in Ladder(top, step, count) ==> x <= top && top - count * step <= x
    decreases count
  {
    if count > 0 {
      LadderUp(top, step, count - 1);
      assert count * step == (count - 1) * step + step;
      var rest := Ladder(top, step, count - 1);
      forall i | 0 <= i < |rest|
        ensures top - count * step < rest[i]
      {
        assert rest[i] in rest;
      }
    }
  }

  lemma AnchorHeightsUp(rules: Rules, parentHeight: nat)
    requires Recalculates(rules, parentHeight)
    ensures StrictlyUp(AnchorHeightsAfter(rules, parentHeight))
  {
    LadderUp(parentHeight, rules.EpochLengthAt(parentHeight + 1), rules.useLastEpochs);
  }

  lemma {:induction false} AnchorsAscend(hs: seq<Header>, heights: seq<nat>)
    requires Linked(hs) && Rising(hs) && StrictlyUp(heights)
    ensures Ascending(Anchors(hs, heights))
    ensures forall a :: a in Anchors(hs, heights) ==> a.height in heights && HeaderAt(hs, a.height) == Some(a)
  {
    if heights != [] {
      var init, last := heights[..|heights| - 1], Last(heights);
      AnchorsAscend(hs, init);
      var below := Anchors(hs, init);
      forall i | 0 <= i < |below|
        ensures below[i].height < last
        ensures HeaderAt(hs, last).Some? ==> below[i].timestamp < HeaderAt(hs, last).value.timestamp
      {
        assert below[i] in below;
        var j :| 0 <= j < |init| && init[j] == below[i].height;
        assert heights[j] == init[j];
        assert HeaderAt(hs, last).Some? ==> Slot(below[i].height - hs[0].height) && Slot(last - hs[0].height);
      }
    }
  }

  /** Headers of the chain picked at rising heights have rising timestamps too. */
  lemma PickedAscend(hs: seq<Header>, picked: seq<Header>, h: Header)
    requires Linked(hs) && Rising(hs) && Ascending(picked)
    requires forall a :: a in picked ==> HeaderAt(hs, a.height) == Some(a) && a.height < h.height
    requires HeaderAt(hs, h.height) == Some(h)
    ensures Ascending(picked + [h])
  {
    forall i | 0 <= i < |picked|
      ensures picked[i].height < h.height && picked[i].timestamp < h.timestamp
    {
      assert picked[i] in picked;
      assert Slot(picked[i].height - hs[0].height) && Slot(h.height - hs[0].height);
    }
  }

  /** On a linked chain with rising timestamps the next difficulty is always defined. */
  lemma NoZeroDivisor(rules: Rules, hs: seq<Header>)
    requires hs != [] && Linked(hs) && Rising(hs)
    ensures !ExpectedNBits(rules, hs).DivideByZero?
  {
    if Recalculates(rules, Last(hs).height) {
      var heights := AnchorHeightsAfter(rules, Last(hs).height);
      AnchorHeightsUp(rules, Last(hs).height);
      AnchorsAscend(hs, heights);
      AscendingNeverDividesByZero(rules, Last(hs), Anchors(hs, heights));
    }
  }

  lemma {:induction false} AnchorsRise(hs: seq<Header>, heights: seq<nat>)
    requires Linked(hs) && StrictlyUp(heights)
    ensures HeightsRise(Anchors(hs, heights))
    ensures forall a :: a in Anchors(hs, heights) ==> a.height in heights
  {
    if heights != [] {
      var init, last := heights[..|heights| - 1], Last(heights);
      AnchorsRise(hs, init);
      var below := Anchors(hs, init);
      forall i | 0 <= i < |below|
        ensures below[i].height < last
      {
        assert below[i] in below;
        var j :| 0 <= j < |init| && init[j] == below[i].height;
        assert heights[j] == init[j];
      }
      if HeaderAt(hs, last).Some? {
        assert HeaderAt(hs, last).value.height == last;
      }
    }
  }

  ghost predicate NextDividesByZero(rules: Rules, hs: seq<Header>)
    requires hs != []
  {
    ZeroDivisor(rules, Last(hs).height, Anchors(hs, AnchorHeightsAfter(rules, Last(hs).height)))
  }

  /** On any linked chain the next difficulty divides by zero exactly when its anchors say so. */
  lemma ExpectedDividesByZeroIff(rules: Rules, hs: seq<Header>)
    requires hs != [] && Linked(hs)
    ensures ExpectedNBits(rules, hs).DivideByZero? <==> NextDividesByZero(rules, hs)
  {
    if Recalculates(rules, Last(hs).height) {
      var heights := AnchorHeightsAfter(rules, Last(hs).height);
      AnchorHeightsUp(rules, Last(hs).height);
      AnchorsRise(hs, heights);
      DividesByZeroIff(rules, Last(hs), Anchors(hs, heights));
    }
  }

  // ---- When there is too little history ----

  lemma {:induction false} LadderEnds(top: nat, step: nat, count: nat)
    ensures Ladder(top, step, count) != [] && Last(Ladder(top, step, count)) == top
    decreases count
  {
    if count > 0 {
      LadderEnds(top, step, count - 1);
    }
  }

  lemma {:induction false} NoAnchorIff(hs: seq<Header>, heights: seq<nat>)
    ensures Anchors(hs, heights) == [] <==> forall x :: x in heights ==> HeaderAt(hs, x).None?
  {
    if heights != [] {
      var init := heights[..|heights| - 1];
      NoAnchorIff(hs, init);
      assert heights == init + [Last(heights)];
    }
  }

  /** Besides the parent itself the recalculation would look at nothing but height zero. */
  ghost predicate FirstEpoch(rules: Rules, parentHeight: nat) {
    forall x :: x in AnchorHeightsAfter(rules, parentHeight) ==> x == 0 || x == parentHeight
  }

  lemma OneAnchorIff(rules: Rules, hs: seq<Header>)
    requires hs != [] && Linked(hs) && hs[0].height == 1 && Recalculates(rules, TipHeight(hs))
    ensures Anchors(hs, AnchorHeightsAfter(rules, TipHeight(hs))) != []
    ensures |Anchors(hs, AnchorHeightsAfter(rules, TipHeight(hs)))| == 1 <==> FirstEpoch(rules, TipHeight(hs))
  {
    AnchorHeightsUp(rules, TipHeight(hs));
    LadderEnds(TipHeight(hs), rules.EpochLengthAt(TipHeight(hs) + 1), rules.useLastEpochs);
    OnlyTipIff(hs, AnchorHeightsAfter(rules, TipHeight(hs)));
  }

  lemma OnlyTipIff(hs: seq<Header>, heights: seq<nat>)
    requires hs != [] && hs[0].height == 1 && StrictlyUp(heights) && heights != [] && Last(heights) == TipHeight(hs)
    ensures Anchors(hs, heights) != []
    ensures |Anchors(hs, heights)| == 1 <==> forall x :: x in heights ==> x == 0 || x == TipHeight(hs)
  {
    var tip, init := TipHeight(hs), heights[..|heights| - 1];
    NoAnchorIff(hs, init);
    forall x
      ensures x in heights <==> x in init || x == tip
      ensures x in init ==> x < tip
    {
      if x in heights {
        var i :| 0 <= i < |heights| && heights[i] == x;
        assert i < |init| ==> init[i] == x;
      }
      if x in init {
        var i :| 0 <= i < |init| && init[i] == x;
        assert heights[i] == x;
      }
    }
  }

  // ---- Which headers anchor a recalculation ----

  function EpochsBelow(top: nat, epoch: nat, i: nat): int {
    top - i * epoch
  }

  lemma {:induction false} LadderIff(top: nat, step: nat, count: nat, x: nat)
    ensures x in Ladder(top, step, count) <==> exists i: nat :: i <= count && x == EpochsBelow(top, step, i)
    decreases count
  {
    if count == 0 {
      assert EpochsBelow(top, step, 0) == top;
    } else {
      LadderIff(top, step, count - 1, x);
      if x == EpochsBelow(top, step, count) {
        assert x in Ladder(top, step, count);
      }
    }
  }

  lemma {:induction false} AnchorsIff(hs: seq<Header>, heights: seq<nat>, h: Header)
    requires Linked(hs)
    ensures h in Anchors(hs, heights) <==> h.height in heights && HeaderAt(hs, h.height) == Some(h)
  {
    if heights != [] {
      AnchorsIff(hs, heights[..|heights| - 1], h);
      assert heights == heights[..|heights| - 1] + [Last(heights)];
      if HeaderAt(hs, Last(heights)).Some? {
        assert HeaderAt(hs, Last(heights)).value.height == Last(heights);
      }
    }
  }

  /**
   After a header at the end of an epoch the anchors are the headers of the chain a whole number of
   epochs below it, as many as the rules ask for, in rising order. Epochs of one block are special:
   unless the chain is long enough for all of them, the header itself is the only anchor.
   */
  lemma AnchorsAre(rules: Rules, hs: seq<Header>)
    requires hs != [] && Linked(hs) && Recalculates(rules, TipHeight(hs))
    ensures var tip, epoch := TipHeight(hs), rules.EpochLengthAt(TipHeight(hs) + 1);
            var back := if epoch == 1 && tip < rules.useLastEpochs then 0 else rules.useLastEpochs;
            var anchors := Anchors(hs, AnchorHeightsAfter(rules, tip));
            && HeightsRise(anchors)
            && forall h :: h in anchors <==>
                 HeaderAt(hs, h.height) == Some(h) && exists i: nat :: i <= back && h.height == EpochsBelow(tip, epoch, i)
  {
    var tip, epoch := TipHeight(hs), rules.EpochLengthAt(TipHeight(hs) + 1);
    var back := if epoch == 1 && tip < rules.useLastEpochs then 0 else rules.useLastEpochs;
    var heights := AnchorHeightsAfter(rules, tip);
    AnchorHeightsUp(rules, tip);
    AnchorsRise(hs, heights);
    assert epoch == 1 ==> epoch * rules.useLastEpochs == rules.useLastEpochs;
    assert heights == Ladder(tip, epoch, back);
    forall h: Header
      ensures h in Anchors(hs, heights) <==>
                HeaderAt(hs, h.height) == Some(h) && exists i: nat :: i <= back && h.height == EpochsBelow(tip, epoch, i)
    {
      AnchorsIff(hs, heights, h);
      LadderIff(tip, epoch, back, h.height);
    }
  }

  // ---- Validity over whole runs ----

  /** `h` follows `hs` by every rule that relates the two. */
  ghost predicate Follows(next: NextRule, hs: seq<Header>, h: Header) {
    && hs != []
    && h.parentId == IdOf(Last(hs))
    && h.height == TipHeight(hs) + 1
    && Last(hs).timestamp < h.timestamp
    && next(hs) == Bits(h.nBits)
  }

  /** Every header but the first follows the ones below it. */
  ghost predicate Grown(next: NextRule, hs: seq<Header>) {
    && Linked(hs)
    && Rising(hs)
    && forall i :: 0 < i < |hs| ==> next(hs[..i]) == Bits(hs[i].nBits)
  }

  /** The first header of the network. */
  ghost predicate IsGenesis(rules: Rules, h: Header) {
    && h.parentId == GENESIS_PARENT
    && h.height == 1
    && h.nBits == rules.initialNBits
    && rules.powOk(h)
    && (rules.genesisId.Some? ==> rules.genesisId.value == IdOf(h))
  }

  /** Every header has its proof of work. */
  ghost predicate Worked(rules: Rules, hs: seq<Header>) {
    forall i {:trigger hs[i]} :: 0 <= i < |hs| ==> rules.powOk(hs[i])
  }

  /** A full chain as consensus wants it: every header checked against its own prefix. */
  ghost predicate Accepted(law: Law, hs: seq<Header>) {
    hs == [] || (IsGenesis(law.rules, hs[0]) && Grown(law.next, hs) && Worked(law.rules, hs))
  }

  lemma ExtendLinked(hs: seq<Header>, h: Header)
    requires Linked(hs)
    requires hs != [] ==> h.parentId == IdOf(Last(hs)) && h.height == TipHeight(hs) + 1
    ensures Linked(hs + [h])
  {
    var next := hs + [h];
    forall i | 0 < i < |next|
      ensures next[i].parentId == IdOf(next[i - 1])
    {
      assert Slot(i);
    }
  }

  lemma PrefixLinked(hs: seq<Header>, k: nat)
    requires Linked(hs) && k <= |hs|
    ensures Linked(hs[..k])
  {
    forall i | 0 < i < k
      ensures hs[..k][i].parentId == IdOf(hs[..k][i - 1])
    {
      assert Slot(i);
    }
  }

  lemma ExtendRising(hs: seq<Header>, h: Header)
    requires Rising(hs) && (hs != [] ==> Last(hs).timestamp < h.timestamp)
    ensures Rising(hs + [h])
  {
    assert Slot(|hs| - 1);
  }

  lemma PrefixRising(hs: seq<Header>, k: nat)
    requires Rising(hs) && k <= |hs|
    ensures Rising(hs[..k])
  {
  }

  lemma ExtendGrown(next: NextRule, hs: seq<Header>, h: Header)
    requires Grown(next, hs) && Follows(next, hs, h)
    ensures Grown(next, hs + [h])
  {
    ExtendLinked(hs, h);
    ExtendRising(hs, h);
    var more := hs + [h];
    assert more[..|hs|] == hs;
    forall i | 0 < i < |hs|
      ensures next(more[..i]) == Bits(more[i].nBits)
    {
      assert more[..i] == hs[..i];
    }
  }

  lemma PrefixGrown(next: NextRule, hs: seq<Header>, k: nat)
    requires Grown(next, hs) && k <= |hs|
    ensures Grown(next, hs[..k])
  {
    PrefixLinked(hs, k);
    forall i | 0 < i < k
      ensures next(hs[..k][..i]) == Bits(hs[..k][i].nBits)
    {
      assert hs[..k][..i] == hs[..i];
    }
  }

  /** `h` may be the next header of a full chain `hs`. */
  ghost predicate NextValid(law: Law, hs: seq<Header>, h: Header) {
    if hs == [] then IsGenesis(law.rules, h) else Follows(law.next, hs, h) && law.rules.powOk(h)
  }

  lemma ExtendAccepted(law: Law, hs: seq<Header>, h: Header)
    requires Accepted(law, hs) && NextValid(law, hs, h)
    ensures Accepted(law, hs + [h])
  {
    if hs == [] {
      assert hs + [h] == [h];
    } else {
      ExtendGrown(law.next, hs, h);
    }
  }

  lemma PrefixAccepted(law: Law, hs: seq<Header>, k: nat)
    requires Accepted(law, hs) && k <= |hs|
    ensures Accepted(law, hs[..k])
  {
    if hs != [] && k > 0 {
      PrefixGrown(law.next, hs, k);
    }
  }

  /** In an accepted chain each header is the valid next one of its own prefix. */
  lemma NextOfAccepted(law: Law, hs: seq<Header>, n: nat)
    requires Accepted(law, hs) && n < |hs|
    ensures NextValid(law, hs[..n], hs[n])
  {
    if n > 0 {
      assert Slot(n) && Slot(n - 1);
      assert Last(hs[..n]) == hs[n - 1] && hs[n].height == hs[0].height + n;
    }
  }

  // ---- Exactly which headers are taken ----

  /** The clock, the proof of work and the vote rules have nothing against the header. */
  ghost predicate Cleared(rules: Rules, h: Header, env: Env, i: nat) {
    h.timestamp <= env.clock(i) + rules.maxTimeDriftMs && rules.powOk(h) && env.votesOk(h)
  }

  /** `h` may come after the tip of `hs`; `priced` says whether its nBits matter. */
  ghost predicate MayFollow(law: Law, priced: bool, hs: seq<Header>, h: Header, env: Env, i: nat) {
    && hs != []
    && h.parentId == IdOf(Last(hs))
    && h.height == TipHeight(hs) + 1
    && Last(hs).timestamp < h.timestamp
    && (priced ==> law.next(hs) == Bits(h.nBits))
    && Cleared(law.rules, h, env, i)
  }

  /** The header with this id is on the chain, at this height. */
  lemma HeightOfIff(hs: seq<Header>, id: Id, height: nat)
    requires Linked(hs)
    ensures HeightOf(hs, id) == Some(height) <==> exists j :: 0 <= j < |hs| && IdOf(hs[j]) == id && hs[j].height == height
  {
    if HeightOf(hs, id) == Some(height) {
      assert IdOf(hs[height - hs[0].height]) == id;
    }
  }

  /** When a header extends the chain, forks it, or has no parent on it. */
  lemma AppendIff(law: Law, light: bool, hs: seq<Header>, h: Header, env: Env)
    requires Linked(hs)
    ensures Append(law, light, hs, h, env).Extended? <==> if hs == [] then IsGenesis(law.rules, h) else MayFollow(law, !light, hs, h, env, 0)
    ensures forall f: nat :: Append(law, light, hs, h, env) == Forked(f) <==>
              hs != [] && h.parentId != IdOf(Last(hs)) && h.height == f + 1 && exists j :: 0 <= j < |hs| && IdOf(hs[j]) == h.parentId && hs[j].height == f
    ensures Append(law, light, hs, h, env) == Rejected(ParentNotFound(h.parentId)) <==>
              hs != [] && forall j :: 0 <= j < |hs| ==> IdOf(hs[j]) != h.parentId
  {
    if hs != [] {
      assert Last(hs).height == TipHeight(hs);
      forall f: nat
        ensures HeightOf(hs, h.parentId) == Some(f) <==> exists j :: 0 <= j < |hs| && IdOf(hs[j]) == h.parentId && hs[j].height == f
      {
        HeightOfIff(hs, h.parentId, f);
      }
      if j :| 0 <= j < |hs| && IdOf(hs[j]) == h.parentId {
        HeightOfIff(hs, h.parentId, hs[j].height);
      }
    }
  }

  lemma {:induction false} BranchFaultIff(law: Law, prefix: seq<Header>, branch: seq<Header>, env: Env, i: nat)
    requires prefix != [] && i <= |branch| && (branch != [] ==> branch[0].parentId == IdOf(Last(prefix)))
    ensures BranchFault(law, prefix, branch, env, i).None? <==>
              forall k {:trigger branch[k]} :: i <= k < |branch| ==> MayFollow(law, true, prefix + branch[..k], branch[k], env, k)
    decreases |branch| - i
  {
    if i < |branch| {
      BranchFaultIff(law, prefix, branch, env, i + 1);
      BranchStepIff(law, prefix, branch, env, i);
      assert branch[i] == branch[i];
    }
  }

  lemma BranchStepIff(law: Law, prefix: seq<Header>, branch: seq<Header>, env: Env, i: nat)
    requires prefix != [] && i < |branch| && branch[0].parentId == IdOf(Last(prefix))
    ensures BranchFault(law, prefix, branch, env, i).None? <==>
              MayFollow(law, true, prefix + branch[..i], branch[i], env, i) && BranchFault(law, prefix, branch, env, i + 1).None?
  {
    var current := prefix + branch[..i];
    assert current[0] == prefix[0] && (i == 0 ==> current == prefix);
  }

  /** A deep reorganisation is carried out exactly if it starts on the chain and every header may follow those before it. */
  lemma DeepReorgIff(law: Law, hs: seq<Header>, forkPoint: nat, branch: seq<Header>, env: Env)
    ensures DeepReorg(law, hs, forkPoint, branch, env).Switched? <==>
              && branch != [] && hs != [] && hs[0].height <= forkPoint <= TipHeight(hs)
              && var prefix := hs[..forkPoint - hs[0].height + 1];
                 forall k {:trigger branch[k]} :: 0 <= k < |branch| ==> MayFollow(law, true, prefix + branch[..k], branch[k], env, k)
  {
    if branch != [] && hs != [] && hs[0].height <= forkPoint <= TipHeight(hs) {
      var prefix := hs[..forkPoint - hs[0].height + 1];
      assert prefix + branch[..0] == prefix;
      if branch[0].parentId == IdOf(Last(prefix)) {
        BranchFaultIff(law, prefix, branch, env, 0);
      }
    }
  }

  /** Which fault of a child of the tip is reported, if it has several. */
  lemma ChildFaultReported(law: Law, light: bool, hs: seq<Header>, h: Header, env: Env)
    requires hs != []
    ensures var fault, tip := ChildFault(law, light, hs, h, env), Last(hs);
            if h.height != tip.height + 1 then fault == Some(NonSequentialHeight(tip.height + 1, h.height))
            else if tip.timestamp >= h.timestamp then fault == Some(TimestampNotIncreasing(tip.timestamp, h.timestamp))
            else if h.timestamp > env.clock(0) + law.rules.maxTimeDriftMs then fault.Some? && fault.value.TimestampTooFarInFuture?
            else if !light && !law.next(hs).Bits? then fault.Some? && (fault.value.DifficultyCalc? || fault.value.DivisionPanic?)
            else if !light && law.next(hs).nBits != h.nBits then fault == Some(WrongDifficulty(h.height, law.next(hs).nBits, h.nBits))
            else if !law.rules.powOk(h) then fault == Some(PowInvalid)
            else if !env.votesOk(h) then fault == Some(VotesInvalid)
            else fault.None?
  {
  }

  lemma ExtendedIsValid(law: Law, hs: seq<Header>, h: Header, env: Env)
    requires Append(law, false, hs, h, env).Extended?
    requires hs != [] ==> Last(hs).height == TipHeight(hs)
    ensures NextValid(law, hs, h)
  {
  }

  lemma FaultlessIsValid(law: Law, hs: seq<Header>, h: Header, env: Env, i: nat)
    requires hs != [] && ReorgFault(law, hs, h, env, i).None?
    requires h.parentId == IdOf(Last(hs)) && h.height == TipHeight(hs) + 1
    ensures NextValid(law, hs, h)
  {
  }

  lemma AppendAccepted(law: Law, hs: seq<Header>, h: Header, env: Env)
    requires Accepted(law, hs)
    ensures Accepted(law, AfterAppend(hs, h, Append(law, false, hs, h, env)))
  {
    if Append(law, false, hs, h, env).Extended? {
      if hs == [] {
        assert hs + [h] == [h];
      } else {
        ExtendGrown(law.next, hs, h);
      }
    }
  }

  /** A branch in which no fault is found extends the prefix header by header. */
  lemma {:induction false} BranchGrown(law: Law, prefix: seq<Header>, branch: seq<Header>, env: Env, i: nat)
    requires prefix != [] && i <= |branch|
    requires Grown(law.next, prefix + branch[..i])
    requires branch != [] ==> branch[0].parentId == IdOf(Last(prefix))
    requires BranchFault(law, prefix, branch, env, i).None?
    requires Worked(law.rules, prefix + branch[..i])
    ensures Grown(law.next, prefix + branch) && Worked(law.rules, prefix + branch)
    decreases |branch| - i
  {
    if i == |branch| {
      assert branch[..i] == branch;
    } else {
      var current := prefix + branch[..i];
      assert current[0] == prefix[0];
      assert i == 0 ==> current == prefix;
      assert ReorgFault(law, current, branch[i], env, i).None?;
      ExtendGrown(law.next, current, branch[i]);
      assert current + [branch[i]] == prefix + branch[..i + 1];
      BranchGrown(law, prefix, branch, env, i + 1);
    }
  }

  lemma DeepReorgAccepted(law: Law, hs: seq<Header>, forkPoint: nat, branch: seq<Header>, env: Env)
    requires Accepted(law, hs)
    ensures Accepted(law, AfterDeep(hs, forkPoint, branch, DeepReorg(law, hs, forkPoint, branch, env)))
  {
    if DeepReorg(law, hs, forkPoint, branch, env).Switched? {
      var keep := forkPoint - hs[0].height + 1;
      PrefixGrown(law.next, hs, keep);
      assert hs[..keep] + branch[..0] == hs[..keep];
      BranchGrown(law, hs[..keep], branch, env, 0);
    }
  }

  lemma TwoHeaderBranch(law: Law, prefix: seq<Header>, first: Header, second: Header, env: Env)
    requires prefix != []
    ensures BranchFault(law, prefix, [first, second], env, 0).None?
            <==> && first.height == TipHeight(prefix) + 1 && ReorgFault(law, prefix, first, env, 0).None?
                 && second.parentId == IdOf(first) && second.height == TipHeight(prefix) + 2
                 && ReorgFault(law, prefix + [first], second, env, 1).None?
  {
    var branch := [first, second];
    assert prefix + branch[..0] == prefix;
    assert prefix + branch[..1] == prefix + [first];
    assert BranchFault(law, prefix, branch, env, 2).None?;
    assert BranchFault(law, prefix, branch, env, 1).None?
      <==> second.parentId == IdOf(first) && second.height == TipHeight(prefix) + 2
           && ReorgFault(law, prefix + [first], second, env, 1).None?;
  }

  /**
   The one-deep reorganisation succeeds exactly when the chain has two headers and the deep
   one, from just below the tip, accepts the two new ones; it leaves the same chain.
   */
  lemma TipReorgIsDeep(law: Law, hs: seq<Header>, alternative: Header, continuation: Header, env: Env)
    requires Linked(hs)
    ensures var r := TipReorg(law, hs, alternative, continuation, env);
            var fp := TipHeight(hs) - 1;
            (r.Switched? <==> |hs| >= 2 && DeepReorg(law, hs, fp, [alternative, continuation], env).Switched?)
            && (r.Switched? ==>
                  && r == DeepReorg(law, hs, fp, [alternative, continuation], env)
                  && AfterTip(hs, alternative, continuation, r) == AfterDeep(hs, fp, [alternative, continuation], r))
  {
    if |hs| >= 2 {
      TwoHeaderBranch(law, hs[..|hs| - 1], alternative, continuation, env);
      assert Slot(|hs| - 1);
      assert Ids(hs[|hs| - 1..]) == [IdOf(Last(hs))];
    }
  }

  datatype Call =
    | TryAppend(h: Header, env: Env)
    | TryReorg(alternative: Header, continuation: Header, env: Env)
    | TryReorgDeep(forkPoint: nat, branch: seq<Header>, env: Env)

  function Step(law: Law, hs: seq<Header>, call: Call): seq<Header> {
    match call
    case TryAppend(h, env) => AfterAppend(hs, h, Append(law, false, hs, h, env))
    case TryReorg(alternative, continuation, env) =>
      AfterTip(hs, alternative, continuation, TipReorg(law, hs, alternative, continuation, env))
    case TryReorgDeep(forkPoint, branch, env) =>
      AfterDeep(hs, forkPoint, branch, DeepReorg(law, hs, forkPoint, branch, env))
  }

  function Run(law: Law, calls: seq<Call>): seq<Header> {
    if calls == [] then [] else Step(law, Run(law, calls[..|calls| - 1]), Last(calls))
  }

  /** A run is the last of the chains that the calls lead through, one after the other. */
  lemma {:induction false} RunIs(law: Law, calls: seq<Call>, chains: seq<seq<Header>>)
    requires |chains| == |calls| + 1 && chains[0] == []
    requires forall i {:trigger calls[i]} :: 0 <= i < |calls| ==> chains[i + 1] == Step(law, chains[i], calls[i])
    ensures Run(law, calls) == Last(chains)
    decreases |calls|
  {
    if calls != [] {
      var n := |calls| - 1;
      RunIs(law, calls[..n], chains[..n + 1]);
      assert chains[n + 1] == Step(law, chains[n], calls[n]);
    }
  }

  /** Whatever is asked of an empty full chain, in whatever order, it stays a valid chain. */
  lemma {:induction false} RunAccepted(law: Law, calls: seq<Call>)
    ensures Accepted(law, Run(law, calls))
  {
    if calls != [] {
      var hs := Run(law, calls[..|calls| - 1]);
      RunAccepted(law, calls[..|calls| - 1]);
      match Last(calls) {
        case TryAppend(h, env) => AppendAccepted(law, hs, h, env);
        case TryReorg(alternative, continuation, env) =>
          TipReorgIsDeep(law, hs, alternative, continuation, env);
          DeepReorgAccepted(law, hs, if |hs| < 2 then 0 else TipHeight(hs) - 1, [alternative, continuation], env);
        case TryReorgDeep(forkPoint, branch, env) => DeepReorgAccepted(law, hs, forkPoint, branch, env);
      }
    }
  }

  /**
   In no state that a full chain can reach does the next difficulty divide by zero; and it is
   defined in all of them but one kind, an EIP-37 epoch that starts with no earlier anchor.
   */
  lemma ReachableDifficulty(rules: Rules, calls: seq<Call>)
    requires Run(LawOf(rules), calls) != []
    ensures var hs := Run(LawOf(rules), calls);
            && !ExpectedNBits(rules, hs).DivideByZero?
            && (ExpectedNBits(rules, hs).Bits? <==>
                  !(Recalculates(rules, TipHeight(hs)) && rules.Eip37Active(TipHeight(hs) + 1) && FirstEpoch(rules, TipHeight(hs))))
  {
    var hs := Run(LawOf(rules), calls);
    RunAccepted(LawOf(rules), calls);
    NoZeroDivisor(rules, hs);
    assert Last(hs).height == TipHeight(hs);
    if Recalculates(rules, TipHeight(hs)) {
      OneAnchorIff(rules, hs);
    }
  }

  /** A suffix can be installed exactly when it is linked and every header has its proof of work. */
  lemma {:induction false} TailFaultIff(rules: Rules, head: Header, tail: seq<Header>)
    ensures TailFault(rules, head, tail).None? <==> Linked([head] + tail) && forall h :: h in tail ==> rules.powOk(h)
    decreases tail
  {
    var all := [head] + tail;
    if tail != [] {
      var rest := [tail[0]] + tail[1..];
      TailFaultIff(rules, tail[0], tail[1..]);
      assert all[1..] == rest == tail;
      if Linked(all) {
        assert Slot(1) && all[1] == tail[0] && all[1].height == all[0].height + 1;
        forall i | 0 <= i < |rest|
          ensures rest[i].height == rest[0].height + i && (i > 0 ==> rest[i].parentId == IdOf(rest[i - 1]))
        {
          assert rest[i] == all[i + 1] && Slot(i + 1) && all[i + 1].height == all[0].height + i + 1;
        }
      }
      if tail[0].parentId == IdOf(head) && tail[0].height == head.height + 1 && Linked(rest) {
        forall i | 0 <= i < |all|
          ensures all[i].height == all[0].height + i && (i > 0 ==> all[i].parentId == IdOf(all[i - 1]))
        {
          if i > 0 {
            assert all[i] == rest[i - 1] && Slot(i - 1) && rest[i - 1].height == rest[0].height + i - 1;
          }
        }
      }
    }
  }

  // ---- Work ----

  lemma ScoredPush(rules: Rules, light: bool, hs: seq<Header>, ss: seq<nat>, h: Header)
    requires Scored(rules, light, hs, ss)
    ensures Scored(rules, light, hs + [h], ss + [NextScore(rules, light, ss, h)])
  {
  }

  lemma ScoredPrefix(rules: Rules, light: bool, hs: seq<Header>, ss: seq<nat>, k: nat)
    requires Scored(rules, light, hs, ss) && k <= |hs|
    ensures Scored(rules, light, hs[..k], ss[..k])
  {
  }

  ghost function Origin(light: bool, hs: seq<Header>): Option<Header> {
    if light && hs != [] then Some(hs[0]) else None
  }

  /** A chain's score at each height is the work along that header's ancestry. */
  lemma {:induction false} ScoreIsWork(rules: Rules, light: bool, hs: seq<Header>, ss: seq<nat>, i: nat)
    requires Linked(hs) && Scored(rules, light, hs, ss) && i < |hs|
    requires light || hs[0].parentId.Raw?
    ensures ss[i] == Work(rules, Origin(light, hs), hs[i])
    decreases i
  {
    if i > 0 {
      assert Slot(i);
      ScoreIsWork(rules, light, hs, ss, i - 1);
      assert hs[i].height != hs[0].height;
    }
  }

  lemma WorkStep(rules: Rules, origin: Option<Header>, h: Header)
    requires origin != Some(h) && h.parentId.IdOf?
    ensures Work(rules, origin, h) == Work(rules, origin, h.parentId.header) + rules.Difficulty(h)
  {
  }

  /** What a light client takes over: into an empty chain, linked, and all of it with its proof of work. */
  lemma InstallIff(rules: Rules, hs: seq<Header>, head: Header, tail: seq<Header>)
    ensures InstallFault(rules, hs, head, tail).None? <==> hs == [] && Linked([head] + tail) && Worked(rules, [head] + tail)
  {
    var all := [head] + tail;
    TailFaultIff(rules, head, tail);
    if Worked(rules, all) {
      assert rules.powOk(all[0]);
      assert forall j :: 0 <= j < |tail| ==> tail[j] == all[j + 1];
    }
  }

  lemma FoundAt(hs: seq<Header>, id: Id)
    requires HeightOf(hs, id).Some?
    ensures hs != [] && hs[0].height <= HeightOf(hs, id).value <= TipHeight(hs)
    ensures IdOf(hs[HeightOf(hs, id).value - hs[0].height]) == id
  {
  }

  lemma NotOrigin(hs: seq<Header>, light: bool, h: Header)
    requires HeightOf(hs, IdOf(h)).None?
    ensures Origin(light, hs) != Some(h)
  {
  }
}
