/**
 What the header chain means, as functions of the accepted headers: which header may come
 next, what a reorganisation leaves behind, and how much work a chain carries.
 */
module ChainSpec {
  import opened Seals
  import opened Headers
  import opened Difficulty
  import opened Adjustment

  datatype ReorgReason =
    | TooShort | WrongAlternativeHeight | WrongAlternativeParent | NotOnAlternative
    | EmptyBranch | EmptyChain | BelowFloor | AboveTip | ForkPointUnavailable | NotOnForkPoint
    | DrainUnavailable

  datatype ChainError =
    | ParentNotFound(parentId: Id)
    | NonSequentialHeight(expected: nat, got: nat)
    | TimestampNotIncreasing(parentTs: nat, gotTs: nat)
    | TimestampTooFarInFuture(timestamp: nat, maxAllowed: nat)
    | WrongDifficulty(height: nat, expectedBits: nat, gotBits: nat)
    | InvalidGenesisParent(gotParent: Id)
    | InvalidGenesisHeight(gotHeight: nat)
    | GenesisIdMismatch
    | DifficultyCalc
    | DivisionPanic
    | PowInvalid
    | VotesInvalid
    | Reorg(reason: ReorgReason)
    | ChainNotEmpty
    | BrokenParentLink(at: nat, childId: Id, expectedParent: Id, foundParent: Id)
    | IndexInconsistency(atHeight: nat, slip: Slip)

  /** How a height's header can disagree with the index. */
  datatype Slip = Unresolvable | Misfiled | MappedElsewhere | NotIndexed

  // ---- Shape ----

  /** Heights rise by one and every header names the one below it as its parent. */
  ghost predicate Linked(hs: seq<Header>) {
    && (forall i {:trigger hs[i].height} :: 0 <= i < |hs| ==> hs[i].height == hs[0].height + i)
    && (forall i {:trigger Slot(i)} :: Slot(i) && 0 < i < |hs| ==> hs[i].parentId == IdOf(hs[i - 1]))
  }

  ghost predicate Rising(hs: seq<Header>) {
    forall i, j {:trigger Slot(i), Slot(j)} :: Slot(i) && Slot(j) && 0 <= i < j < |hs| ==> hs[i].timestamp < hs[j].timestamp
  }

  /** A full chain starts at genesis. */
  ghost predicate Rooted(hs: seq<Header>) {
    hs != [] ==> hs[0].parentId == GENESIS_PARENT && hs[0].height == 1
  }

  function HeaderAt(hs: seq<Header>, height: nat): Option<Header> {
    if hs != [] && hs[0].height <= height < hs[0].height + |hs| then Some(hs[height - hs[0].height]) else None
  }

  function HeightOf(hs: seq<Header>, id: Id): Option<nat> {
    if id.IdOf? && HeaderAt(hs, id.header.height) == Some(id.header) then Some(id.header.height) else None
  }

  function TipHeight(hs: seq<Header>): nat {
    if hs == [] then 0 else hs[0].height + |hs| - 1
  }

  // ---- Difficulty ----

  /** The headers found at `heights`; heights outside the chain are skipped. */
  function Anchors(hs: seq<Header>, heights: seq<nat>): seq<Header> {
    if heights == [] then []
    else
      Anchors(hs, heights[..|heights| - 1])
      + match HeaderAt(hs, Last(heights)) { case Some(h) => [h] case None => [] }
  }

  /** nBits the header after `hs` must carry. */
  function ExpectedNBits(rules: Rules, hs: seq<Header>): Outcome
    requires hs != []
  {
    NextNBits(rules, Last(hs), Anchors(hs, AnchorHeightsAfter(rules, Last(hs).height)))
  }

  /** What the nBits after a given chain must be. */
  type NextRule = seq<Header> -> Outcome

  /** The rules of a network together with its difficulty rule. */
  datatype Law = Law(rules: Rules, next: NextRule)

  function LawOf(rules: Rules): Law {
    Law(rules, (hs: seq<Header>) => if hs == [] then NoHistory else ExpectedNBits(rules, hs))
  }

  function DifficultyFault(expected: Outcome, h: Header): Option<ChainError> {
    match expected
    case NoHistory => Some(DifficultyCalc)
    case DivideByZero => Some(DivisionPanic)
    case Bits(nBits) => if h.nBits != nBits then Some(WrongDifficulty(h.height, nBits, h.nBits)) else None
  }

  // ---- Validation ----

  function GenesisFault(rules: Rules, h: Header): Option<ChainError> {
    if h.parentId != GENESIS_PARENT then Some(InvalidGenesisParent(h.parentId))
    else if h.height != 1 then Some(InvalidGenesisHeight(h.height))
    else if h.nBits != rules.initialNBits then Some(WrongDifficulty(h.height, rules.initialNBits, h.nBits))
    else if !rules.powOk(h) then Some(PowInvalid)
    else if rules.genesisId.Some? && rules.genesisId.value != IdOf(h) then Some(GenesisIdMismatch)
    else None
  }

  function TimeFault(rules: Rules, tip: Header, h: Header, now: nat): Option<ChainError> {
    if h.timestamp <= tip.timestamp then Some(TimestampNotIncreasing(tip.timestamp, h.timestamp))
    else if h.timestamp > now + rules.maxTimeDriftMs then
      Some(TimestampTooFarInFuture(h.timestamp, now + rules.maxTimeDriftMs))
    else None
  }

  function SealFault(rules: Rules, h: Header, env: Env): Option<ChainError> {
    if !rules.powOk(h) then Some(PowInvalid)
    else if !env.votesOk(h) then Some(VotesInvalid)
    else None
  }

  function Or(first: Option<ChainError>, second: Option<ChainError>): Option<ChainError> {
    if first.Some? then first else second
  }

  /** Light clients cannot recompute the difficulty and skip it. */
  function ChildFault(law: Law, light: bool, hs: seq<Header>, h: Header, env: Env): Option<ChainError>
    requires hs != []
  {
    var tip := Last(hs);
    if h.height != tip.height + 1 then Some(NonSequentialHeight(tip.height + 1, h.height))
    else
      Or(TimeFault(law.rules, tip, h, env.clock(0)),
         Or(if light then None else DifficultyFault(law.next(hs), h), SealFault(law.rules, h, env)))
  }

  /** Inside a reorganisation the difficulty is always checked. */
  function ReorgFault(law: Law, hs: seq<Header>, h: Header, env: Env, i: nat): Option<ChainError>
    requires hs != []
  {
    Or(TimeFault(law.rules, Last(hs), h, env.clock(i)),
       Or(DifficultyFault(law.next(hs), h), SealFault(law.rules, h, env)))
  }

  // ---- Operations ----

  datatype Appended = Extended | Forked(forkHeight: nat) | Rejected(error: ChainError)

  function Append(law: Law, light: bool, hs: seq<Header>, h: Header, env: Env): Appended {
    if hs == [] then
      match GenesisFault(law.rules, h) case Some(e) => Rejected(e) case None => Extended
    else if h.parentId == IdOf(Last(hs)) then
      match ChildFault(law, light, hs, h, env) case Some(e) => Rejected(e) case None => Extended
    else
      match HeightOf(hs, h.parentId)
      case None => Rejected(ParentNotFound(h.parentId))
      case Some(parentHeight) =>
        if h.height != parentHeight + 1 then Rejected(NonSequentialHeight(parentHeight + 1, h.height))
        else Forked(parentHeight)
  }

  /** What an outcome says about where the header belongs. */
  ghost predicate Placed(hs: seq<Header>, h: Header, r: Appended) {
    match r
    case Extended => h.height == TipHeight(hs) + 1 && (hs != [] ==> h.parentId == IdOf(Last(hs)))
    case Forked(f) => HeightOf(hs, h.parentId) == Some(f) && h.height == f + 1
    case Rejected(e) => Misplaced(e) ==> HeightOf(hs, h.parentId).None?
  }

  /** The header may belong on a part of the chain that is not known yet. */
  predicate Misplaced(e: ChainError) {
    e.ParentNotFound? || e.InvalidGenesisParent? || e.InvalidGenesisHeight?
  }

  datatype Reorged = Switched(demoted: seq<Id>) | Refused(error: ChainError)

  /** First fault in `branch[i..]` laid on top of `prefix + branch[..i]`. */
  function BranchFault(law: Law, prefix: seq<Header>, branch: seq<Header>, env: Env, i: nat): Option<ChainError>
    requires prefix != [] && i <= |branch|
    decreases |branch| - i
  {
    if i == |branch| then None
    else
      var current, h := prefix + branch[..i], branch[i];
      var expected := TipHeight(prefix) + 1 + i;
      if i > 0 && h.parentId != IdOf(Last(current)) then Some(ParentNotFound(h.parentId))
      else if h.height != expected then Some(NonSequentialHeight(expected, h.height))
      else Or(ReorgFault(law, current, h, env, i), BranchFault(law, prefix, branch, env, i + 1))
  }

  function Ids(hs: seq<Header>): (ids: seq<Id>)
    ensures |ids| == |hs|
    ensures forall i :: 0 <= i < |hs| ==> ids[i] == IdOf(hs[i])
  {
    seq(|hs|, i requires 0 <= i < |hs| => IdOf(hs[i]))
  }

  function DeepReorg(law: Law, hs: seq<Header>, forkPoint: nat, branch: seq<Header>, env: Env): Reorged {
    if branch == [] then Refused(Reorg(EmptyBranch))
    else if hs == [] then Refused(Reorg(EmptyChain))
    else if forkPoint < hs[0].height then Refused(Reorg(BelowFloor))
    else if forkPoint > TipHeight(hs) then Refused(Reorg(AboveTip))
    else
      var keep := forkPoint - hs[0].height + 1;
      if branch[0].parentId != IdOf(hs[keep - 1]) then Refused(Reorg(NotOnForkPoint))
      else
        match BranchFault(law, hs[..keep], branch, env, 0)
        case Some(e) => Refused(e)
        case None => Switched(Ids(hs[keep..]))
  }

  /** Replace the tip by `alternative` and put `continuation` on top. */
  function TipReorg(law: Law, hs: seq<Header>, alternative: Header, continuation: Header, env: Env): Reorged {
    if |hs| < 2 then Refused(Reorg(TooShort))
    else if alternative.height != TipHeight(hs) then Refused(Reorg(WrongAlternativeHeight))
    else if alternative.parentId != Last(hs).parentId then Refused(Reorg(WrongAlternativeParent))
    else if continuation.parentId != IdOf(alternative) then Refused(Reorg(NotOnAlternative))
    else if continuation.height != alternative.height + 1 then
      Refused(NonSequentialHeight(alternative.height + 1, continuation.height))
    else
      var below := hs[..|hs| - 1];
      match Or(ReorgFault(law, below, alternative, env, 0),
               ReorgFault(law, below + [alternative], continuation, env, 1))
      case Some(e) => Refused(e)
      case None => Switched([IdOf(Last(hs))])
  }

  /** A light client's suffix needs links and proof of work, and nothing else. */
  function SuffixFault(rules: Rules, below: Header, h: Header): Option<ChainError> {
    if h.parentId != IdOf(below) then Some(ParentNotFound(h.parentId))
    else if h.height != below.height + 1 then Some(NonSequentialHeight(below.height + 1, h.height))
    else if !rules.powOk(h) then Some(PowInvalid)
    else None
  }

  /** First fault in a suffix on top of `below`. */
  function TailFault(rules: Rules, below: Header, tail: seq<Header>): Option<ChainError>
    decreases |tail|
  {
    if tail == [] then None else Or(SuffixFault(rules, below, tail[0]), TailFault(rules, tail[0], tail[1..]))
  }

  function InstallFault(rules: Rules, hs: seq<Header>, head: Header, tail: seq<Header>): Option<ChainError> {
    if hs != [] then Some(ChainNotEmpty)
    else if !rules.powOk(head) then Some(PowInvalid)
    else TailFault(rules, head, tail)
  }

  function AfterAppend(hs: seq<Header>, h: Header, r: Appended): seq<Header> {
    if r.Extended? then hs + [h] else hs
  }

  function AfterDeep(hs: seq<Header>, forkPoint: nat, branch: seq<Header>, r: Reorged): seq<Header> {
    if r.Switched? && hs != [] && hs[0].height <= forkPoint <= TipHeight(hs)
    then hs[..forkPoint - hs[0].height + 1] + branch
    else hs
  }

  function AfterTip(hs: seq<Header>, alternative: Header, continuation: Header, r: Reorged): seq<Header> {
    if r.Switched? && hs != [] then hs[..|hs| - 1] + [alternative, continuation] else hs
  }

  // ---- Work ----

  /** The score of `h` on top of a chain scored `ss`; a light client starts counting at zero. */
  function NextScore(rules: Rules, light: bool, ss: seq<nat>, h: Header): nat {
    if ss != [] then Last(ss) + rules.Difficulty(h) else if light then 0 else rules.Difficulty(h)
  }

  /** `ss` are the cumulative scores of `hs`. */
  ghost predicate Scored(rules: Rules, light: bool, hs: seq<Header>, ss: seq<nat>) {
    && |ss| == |hs|
    && (hs != [] ==> ss[0] == if light then 0 else rules.Difficulty(hs[0]))
    && (forall i {:trigger Slot(i)} :: Slot(i) && 0 < i < |hs| ==> ss[i] == ss[i - 1] + rules.Difficulty(hs[i]))
  }

  /** Difficulty summed along the ancestry of `h`, down to (and leaving out) `origin`. */
  function Work(rules: Rules, origin: Option<Header>, h: Header): nat {
    if origin == Some(h) then 0
    else rules.Difficulty(h) + match h.parentId { case IdOf(p) => Work(rules, origin, p) case Raw(_) => 0 }
  }
}
