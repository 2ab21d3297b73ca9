/**
 The validation pipeline: it feeds batches of headers to the chain, buffers orphans, scores
 forks, carries out at most one reorganisation per batch and writes the store at the end.
 */
module Pipelines {
  import opened Seals
  import opened Headers
  import opened Difficulty
  import opened LruCache
  import opened Store
  import opened LazyStore
  import opened ChainSpec
  import opened ChainProofs
  import opened HeaderChains
  import Startup
  import opened Requests
  import opened Branches
  import opened Intake
  import opened Ledgers

  const BUFFER_CAPACITY: nat := 8192

  /** What the sync machine is told about a reorganisation. */
  datatype ReorgEvent = ReorgEvent(forkPoint: nat, oldTip: nat, newTip: nat)

  /** The fork took over from `was`, and the event says so. */
  ghost predicate Reorganised(was: seq<Header>, fork: Fork, event: ReorgEvent, now: seq<Header>) {
    && was != [] && fork.branch != []
    && was[0].height <= fork.forkPoint <= TipHeight(was)
    && now == was[..fork.forkPoint - was[0].height + 1] + fork.branch
    && event == ReorgEvent(fork.forkPoint, TipHeight(was), TipHeight(now))
  }

  /** `Reorganised`, sealed. */
  ghost function Takeover(was: seq<Header>, fork: Fork, event: ReorgEvent, now: seq<Header>): Health {
    if forall k: int {:trigger Unsealed((was, now), k)} :: Unsealed((was, now), k) ==> Reorganised(was, fork, event, now) then Intact else Broken
  }

  lemma OpenTakeover(was: seq<Header>, fork: Fork, event: ReorgEvent, now: seq<Header>)
    requires Takeover(was, fork, event, now) == Intact
    ensures Reorganised(was, fork, event, now)
  {
    assert Unsealed((was, now), 0);
  }

  /**
   A reorganisation that may be carried out: it starts on the chain and, as far as can be told from
   scores that could all be read, outweighed the chain as it was with `beaten` headers.
   */
  ghost predicate Justified(rules: Rules, light: bool, hs: seq<Header>, fits: bool, floor: nat, lo: nat, beaten: nat, fork: Fork) {
    && hs != [] && floor <= fork.forkPoint <= TipHeight(hs)
    && 0 < |fork.branch| <= MAX_FORK_WALK
    && lo <= beaten <= |hs|
    && (fits ==> Work(rules, Origin(light, hs), Last(fork.branch)) > Weight(rules, Origin(light, hs), hs[..beaten]))
  }

  /** `Justified`, sealed. */
  ghost function Justification(rules: Rules, light: bool, hs: seq<Header>, fits: bool, floor: nat, lo: nat, beaten: nat, fork: Fork): Health {
    if forall k: int {:trigger Unsealed((hs, fork), k)} :: Unsealed((hs, fork), k) ==> Justified(rules, light, hs, fits, floor, lo, beaten, fork)
    then Intact else Broken
  }

  lemma OpenJustification(rules: Rules, light: bool, hs: seq<Header>, fits: bool, floor: nat, lo: nat, beaten: nat, fork: Fork)
    requires Justification(rules, light, hs, fits, floor, lo, beaten, fork) == Intact
    ensures Justified(rules, light, hs, fits, floor, lo, beaten, fork)
  {
    assert Unsealed((hs, fork), 0);
  }

  lemma JustifiedStill(rules: Rules, light: bool, hs: seq<Header>, fits: bool, floor: nat, lo: nat, beaten: nat, fork: Fork, more: seq<Header>, still: bool)
    requires Justification(rules, light, hs, fits, floor, lo, beaten, fork) == Intact
    requires hs <= more && (still ==> fits)
    ensures Justification(rules, light, more, still, floor, lo, beaten, fork) == Intact
  {
    OpenJustification(rules, light, hs, fits, floor, lo, beaten, fork);
    assert more[..beaten] == hs[..beaten];
    assert Origin(light, more) == Origin(light, hs);
    assert Justified(rules, light, more, still, floor, lo, beaten, fork);
  }

  lemma JustifiedNow(rules: Rules, light: bool, hs: seq<Header>, fits: bool, floor: nat, lo: nat, fork: Fork)
    requires hs != [] && floor <= fork.forkPoint <= TipHeight(hs) && 0 < |fork.branch| <= MAX_FORK_WALK && lo <= |hs|
    requires fits ==> Work(rules, Origin(light, hs), Last(fork.branch)) > Weight(rules, Origin(light, hs), hs)
    ensures Justification(rules, light, hs, fits, floor, lo, |hs|, fork) == Intact
  {
    assert hs[..|hs|] == hs;
    assert Justified(rules, light, hs, fits, floor, lo, |hs|, fork);
  }

  ghost predicate AllShallow(hs: seq<Header>, known: set<Id>, batch: seq<Header>, floor: nat) {
    forall h :: h in batch ==> Shallow(hs, known, h, floor)
  }

  /** The headers that the store or the batch itself has. */
  ghost function KnownIds(primary: map<Id, Header>, batch: seq<Header>): set<Id> {
    primary.Keys + (set h | h in batch :: IdOf(h))
  }

  lemma AllShallowAtZero(hs: seq<Header>, known: set<Id>, batch: seq<Header>)
    ensures AllShallow(hs, known, batch, 0)
  {
    forall h | h in batch
      ensures Shallow(hs, known, h, 0)
    {
      ShallowAtZero(hs, known, h);
    }
  }

  lemma AllShallowGrows(hs: seq<Header>, more: seq<Header>, known: set<Id>, batch: seq<Header>, floor: nat)
    requires AllShallow(hs, known, batch, floor) && hs <= more && floor <= TipHeight(hs)
    ensures AllShallow(more, known, batch, floor)
  {
    forall h | h in batch
      ensures Shallow(more, known, h, floor)
    {
      ShallowGrows(hs, more, known, h, floor);
    }
  }

  /** Every header of the batch is known and goes no deeper than `floor`; sealed. */
  ghost function Foresight(hs: seq<Header>, known: set<Id>, batch: seq<Header>, floor: nat): Health {
    if forall k: int {:trigger Unsealed((hs, batch), k)} ::
         Unsealed((hs, batch), k) ==> AllShallow(hs, known, batch, floor) && forall h :: h in batch ==> IdOf(h) in known
    then Intact else Broken
  }

  lemma ForesightAt(hs: seq<Header>, known: set<Id>, batch: seq<Header>, floor: nat, i: nat)
    requires Foresight(hs, known, batch, floor) == Intact && i < |batch|
    ensures Shallow(hs, known, batch[i], floor) && IdOf(batch[i]) in known
  {
    assert Unsealed((hs, batch), 0);
  }

  lemma ForesightGrows(hs: seq<Header>, more: seq<Header>, known: set<Id>, batch: seq<Header>, floor: nat)
    requires Foresight(hs, known, batch, floor) == Intact && hs <= more && floor <= TipHeight(hs)
    ensures Foresight(more, known, batch, floor) == Intact
  {
    assert Unsealed((hs, batch), 0);
    AllShallowGrows(hs, more, known, batch, floor);
  }

  /** What became of a batch, besides the state it left. */
  datatype BatchLog = BatchLog(
    desk: Desk,              // after its last header, before the reorganisation and the writing
    beaten: nat,             // how many headers the chain had when the reorganisation was chosen
    fitted: bool)            // whether all that was looked at could be read back

  // ---- The chain's answer to the reorganisation that was chosen ----

  ghost predicate IsReply(law: Law, hs: seq<Header>, fork: Fork, env: Env, r: Attempt<Reorged>) {
    r == Concluded(DeepReorg(law, hs, fork.forkPoint, fork.branch, env))
  }

  ghost function Reply(law: Law, hs: seq<Header>, fork: Fork, env: Env, r: Attempt<Reorged>): Health {
    if forall k: int {:trigger Unsealed((hs, r), k)} :: Unsealed((hs, r), k) ==> IsReply(law, hs, fork, env, r) then Intact else Broken
  }

  /** The batch panics exactly at a zero divisor, and otherwise reorganises exactly if the chain accepts. */
  ghost predicate Answers(o: Office, d: Desk, panicked: bool, happened: bool) {
    && (panicked <==> Asked(o, d) == Some(Refused(DivisionPanic)))
    && (!panicked ==> (happened <==> Reorganises(o, d)))
  }

  ghost function Answer(o: Office, d: Desk, panicked: bool, happened: bool): Health {
    if forall k: int {:trigger Unsealed(d, k)} :: Unsealed(d, k) ==> Answers(o, d, panicked, happened) then Intact else Broken
  }

  lemma AnswerNone(o: Office, d: Desk)
    requires d.pending.None?
    ensures Answer(o, d, false, false) == Intact
  {
  }

  lemma AnswerReply(o: Office, d: Desk, r: Attempt<Reorged>, happened: bool)
    requires d.pending.Some? && Reply(o.law, d.hs, d.pending.value, o.oracle(d.calls), r) == Intact
    requires r.Returned? ==> happened == r.value.Switched?
    ensures Answer(o, d, r.Panicked?, happened) == Intact
  {
    assert Unsealed((d.hs, r), 0);
  }

  lemma OpenAnswer(o: Office, d: Desk, panicked: bool, happened: bool)
    requires Answer(o, d, panicked, happened) == Intact
    ensures Answers(o, d, panicked, happened)
  {
    assert Unsealed(d, 0);
  }

  // ---- The buffer of orphans ----

  /** The slots are those from before the batch and those its forks took; what is stored was foreseen. */
  ghost function Account(slots: set<nat>, shelved: set<nat>, forks: set<nat>, stored: set<Id>, known: set<Id>): Health {
    if forall k: int {:trigger Unsealed((slots, stored), k)} :: Unsealed((slots, stored), k) ==> slots == shelved + forks && stored <= known
    then Intact else Broken
  }

  lemma OpenAccount(slots: set<nat>, shelved: set<nat>, forks: set<nat>, stored: set<Id>, known: set<Id>)
    requires Account(slots, shelved, forks, stored, known) == Intact
    ensures slots == shelved + forks && stored <= known
  {
    assert Unsealed((slots, stored), 0);
  }

  lemma AccountMore(slots: set<nat>, shelved: set<nat>, forks: set<nat>, stored: set<Id>, known: set<Id>, h: Header)
    requires Account(slots, shelved, forks, stored, known) == Intact && IdOf(h) in known
    ensures Account(slots + {h.height}, shelved, forks + {h.height}, stored + {IdOf(h)}, known) == Intact
  {
    OpenAccount(slots, shelved, forks, stored, known);
  }

  /** The slots that the write-out adds: of what was appended, and of the branch that took over. */
  ghost predicate Filled(before: set<nat>, hs: seq<Header>, lo: nat, pending: Option<Fork>, happened: bool, after: set<nat>) {
    lo <= |hs| && after == before + Heights(hs[lo..]) + (if happened && pending.Some? then Heights(pending.value.branch) else {})
  }

  ghost function Filling(before: set<nat>, hs: seq<Header>, lo: nat, pending: Option<Fork>, happened: bool, after: set<nat>): Health {
    if forall k: int {:trigger Unsealed((before, after), k)} :: Unsealed((before, after), k) ==> Filled(before, hs, lo, pending, happened, after)
    then Intact else Broken
  }

  lemma FilledByReorg(before: set<nat>, hs: seq<Header>, lo: nat, fork: Fork, after: set<nat>)
    requires lo <= |hs| && after == before + Heights(hs[lo..]) + Heights(fork.branch)
    ensures Filling(before, hs, lo, Some(fork), true, after) == Intact
  {
  }

  /** The same over a whole batch, whose forks have taken slots of their own. */
  ghost function Totalling(shelved: set<nat>, desk: Desk, lo: nat, happened: bool, after: set<nat>): Health {
    if forall k: int {:trigger Unsealed((shelved, after), k)} ::
         Unsealed((shelved, after), k) ==> Filled(shelved + desk.forks, desk.hs, lo, desk.pending, happened, after)
    then Intact else Broken
  }

  lemma Totals(slots: set<nat>, shelved: set<nat>, desk: Desk, stored: set<Id>, known: set<Id>, lo: nat, happened: bool, after: set<nat>)
    requires Account(slots, shelved, desk.forks, stored, known) == Intact
    requires Filling(slots, desk.hs, lo, desk.pending, happened, after) == Intact
    ensures Totalling(shelved, desk, lo, happened, after) == Intact
  {
    OpenAccount(slots, shelved, desk.forks, stored, known);
    assert Unsealed((slots, after), 0);
  }

  lemma OpenTotalling(shelved: set<nat>, desk: Desk, lo: nat, happened: bool, after: set<nat>)
    requires Totalling(shelved, desk, lo, happened, after) == Intact
    ensures Filled(shelved + desk.forks, desk.hs, lo, desk.pending, happened, after)
  {
    assert Unsealed((shelved, after), 0);
  }

  /** The window reaches from what a fork at `floor` requires up to `top`. */
  ghost function Coverage(window: set<nat>, rules: Rules, floor: nat, top: nat): Health {
    if forall k: int {:trigger Unsealed(window, k)} :: Unsealed(window, k) ==> Covers(window, Reach(rules, floor), top) then Intact else Broken
  }

  /** `Placed`, sealed. */
  ghost function Placement(hs: seq<Header>, h: Header, r: Appended): Health {
    if forall k: int {:trigger Unsealed((hs, h), k)} :: Unsealed((hs, h), k) ==> Placed(hs, h, r) then Intact else Broken
  }

  lemma OpenPlacement(hs: seq<Header>, h: Header, r: Appended)
    requires Placement(hs, h, r) == Intact
    ensures Placed(hs, h, r)
  {
    assert Unsealed((hs, h), 0);
  }

  ghost predicate UnderParents(b: Lru<Id, Header>) {
    b.Valid() && forall i {:trigger b.entries[i]} :: 0 <= i < |b.entries| ==> b.entries[i].1.parentId == b.entries[i].0
  }

  ghost function Filing(b: Lru<Id, Header>): Health {
    if forall k: int {:trigger Unsealed(b, k)} :: Unsealed(b, k) ==> UnderParents(b) then Intact else Broken
  }

  lemma OpenFiling(b: Lru<Id, Header>)
    requires Filing(b) == Intact
    ensures UnderParents(b)
  {
    assert Unsealed(b, 0);
  }

  lemma FilingPop(b: Lru<Id, Header>, key: Id)
    requires Filing(b) == Intact
    ensures Filing(b.Pop(key)) == Intact && !b.Pop(key).Has(key)
    ensures |b.Pop(key).entries| == if b.Has(key) then |b.entries| - 1 else |b.entries|
  {
    OpenFiling(b);
    b.PopKeeps(key);
  }

  lemma FilingPut(b: Lru<Id, Header>, h: Header)
    requires Filing(b) == Intact
    ensures b.Valid() && Filing(b.Put(h.parentId, h)) == Intact
    ensures b.Put(h.parentId, h).Peek(h.parentId) == Some(h) && |b.Put(h.parentId, h).entries| <= |b.entries| + 1
  {
    OpenFiling(b);
    b.PopKeeps(h.parentId);
    b.PutKeeps(h.parentId, h);
    var next := b.Put(h.parentId, h);
    forall i | 0 <= i < |next.entries|
      ensures next.entries[i].1.parentId == next.entries[i].0
    {
      next.PeekAt(i);
      var k := next.entries[i].0;
      if k != h.parentId {
        assert b.Peek(k) == Some(next.entries[i].1);
        assert b.entries[b.IndexOf(k)].1.parentId == k;
      }
    }
    assert UnderParents(next);
  }

  /** No orphan but those under `except` waits for a header of the chain. */
  ghost predicate Separate(b: Lru<Id, Header>, hs: seq<Header>, except: Option<Id>) {
    forall k {:trigger b.Has(k)} :: b.Has(k) && Some(k) != except ==> HeightOf(hs, k).None?
  }

  ghost function Separation(b: Lru<Id, Header>, hs: seq<Header>, except: Option<Id>): Health {
    if forall k: int {:trigger Unsealed((b, hs), k)} :: Unsealed((b, hs), k) ==> Separate(b, hs, except) then Intact else Broken
  }

  lemma OpenSeparation(b: Lru<Id, Header>, hs: seq<Header>, except: Option<Id>)
    requires Separation(b, hs, except) == Intact
    ensures Separate(b, hs, except)
  {
    assert Unsealed((b, hs), 0);
  }

  lemma SeparatePop(b: Lru<Id, Header>, hs: seq<Header>, key: Id)
    requires Filing(b) == Intact && Separation(b, hs, Some(key)) == Intact
    ensures Separation(b.Pop(key), hs, None) == Intact
  {
    OpenFiling(b);
    OpenSeparation(b, hs, Some(key));
    b.PopKeeps(key);
    b.PopOthers(key);
    forall k | b.Pop(key).Has(k)
      ensures HeightOf(hs, k).None?
    {
      assert b.Pop(key).Peek(k) == b.Peek(k);
    }
  }

  lemma SeparatePush(b: Lru<Id, Header>, hs: seq<Header>, h: Header)
    requires Separation(b, hs, None) == Intact
    ensures Separation(b, hs + [h], Some(IdOf(h))) == Intact
  {
    OpenSeparation(b, hs, None);
    forall k | b.Has(k) && k != IdOf(h)
      ensures HeightOf(hs + [h], k).None?
    {
      assert HeightOf(hs, k).None?;
    }
  }

  lemma SeparatePut(b: Lru<Id, Header>, hs: seq<Header>, h: Header)
    requires Filing(b) == Intact && b.Valid() && Separation(b, hs, None) == Intact && HeightOf(hs, h.parentId).None?
    ensures Separation(b.Put(h.parentId, h), hs, None) == Intact
  {
    OpenSeparation(b, hs, None);
    b.PutKeeps(h.parentId, h);
  }

  lemma SeparateEnds(b: Lru<Id, Header>, hs: seq<Header>, next: Option<Id>)
    requires Separation(b, hs, next) == Intact && (next.Some? ==> !b.Has(next.value))
    ensures Separation(b, hs, None) == Intact
  {
    OpenSeparation(b, hs, next);
  }

  lemma SeparateFewer(b: Lru<Id, Header>, fewer: Lru<Id, Header>, hs: seq<Header>)
    requires Separation(b, hs, None) == Intact
    requires forall k {:trigger fewer.Has(k)} :: fewer.Has(k) ==> b.Has(k)
    ensures Separation(fewer, hs, None) == Intact
  {
    OpenSeparation(b, hs, None);
  }

  class ValidationPipeline {
    const chain: HeaderChain
    const store: ModifierStore
    const requests: ParentRequests
    /** Orphans by the parent they wait for. */
    var buffer: Lru<Id, Header>
    /** What the n-th call into the chain sees of the clock and the vote rules. */
    const oracle: nat -> Env
    /** The monotonic time after the n-th call, in milliseconds. */
    const timer: nat -> nat
    var calls: nat
    /** During a batch nothing is looked at above `top` or further down than a fork from `floor` requires. */
    ghost var top: nat
    ghost var floor: nat
    /** How many headers the chain had when the pending reorganisation was chosen. */
    ghost var beaten: nat
    /** The heights BEST_CHAIN had before the batch, and those of the forks stored since. */
    ghost var shelved: set<nat>
    ghost var forks: set<nat>
    /** The headers that were stored before the batch, and all that can be stored during it. */
    ghost var rows: set<Id>
    ghost var known: set<Id>

    constructor (chain: HeaderChain, store: ModifierStore, requests: ParentRequests, oracle: nat -> Env, timer: nat -> nat)
      ensures this.chain == chain && this.store == store && this.requests == requests
      ensures this.oracle == oracle && this.timer == timer
      ensures Tidy() && buffer == Lru(8192, []) && rows == {} && forks == {} && calls == 0
    {
      this.chain, this.store, this.requests, this.oracle, this.timer := chain, store, requests, oracle, timer;
      buffer, calls := Lru(BUFFER_CAPACITY, []), 0;
      top, floor, beaten, shelved, forks, rows, known := 0, 0, 0, {}, {}, {}, {};
      assert UnderParents(Lru(BUFFER_CAPACITY, []));
    }

    // ---- Invariants ----

    /** Every buffered header waits under its own parent. */
    ghost predicate Tidy()
      reads this`buffer
    {
      Filing(buffer) == Intact
    }

    /** No buffered header's parent is on the best chain. */
    ghost predicate Apart()
      reads this`buffer, chain`hs
    {
      ApartExcept(None)
    }

    ghost predicate ApartExcept(id: Option<Id>)
      reads this`buffer, chain`hs
    {
      Separation(buffer, chain.hs, id) == Intact
    }

    ghost function Page(lo: nat, entries: seq<Entry>): Ledger
      reads this`rows, chain, chain.lazy, store
    {
      Ledger(chain.law.rules, Origin(chain.light, chain.hs), chain.hs, lo, entries,
             Books(store.primary, store.scores, store.best), rows, chain.lazy.Fits())
    }

    /** In the middle of a batch: all but the last `entries` headers of the chain are in the store. */
    ghost predicate OnBooks(lo: nat, entries: seq<Entry>)
      reads this`rows, chain, chain.lazy, chain.lazy.loader, store
    {
      && chain.lazy.loader == store
      && chain.Sound()
      && Page(lo, entries).Seal() == Intact
    }

    /** The same, sealed. */
    ghost function Booked(lo: nat, entries: seq<Entry>): Health
      reads this`rows, chain, chain.lazy, chain.lazy.loader, store
    {
      if forall k: int {:trigger Unsealed((lo, entries), k)} :: Unsealed((lo, entries), k) ==> OnBooks(lo, entries) then Intact else Broken
    }

    ghost predicate InBatch(lo: nat, entries: seq<Entry>)
      reads this`rows, chain, chain.lazy, chain.lazy.loader, store
    {
      lo + |entries| == |chain.hs| && Booked(lo, entries) == Intact
    }

    lemma OpenBooks(lo: nat, entries: seq<Entry>)
      requires InBatch(lo, entries)
      ensures OnBooks(lo, entries)
    {
      assert Unsealed((lo, entries), 0);
    }

    /** Between batches: BEST_CHAIN, headers and scores are in step with the chain. */
    ghost predicate Resting()
      reads this`buffer, this`rows, requests, chain, chain.lazy, chain.lazy.loader, store
    {
      && Tidy()
      && requests.Bounded()
      && InBatch(|chain.hs|, [])
      && (chain.lazy.Fits() ==> chain.lazy.calm)
    }

    /** `Resting`, sealed. */
    ghost function Rested(): Health
      reads this`buffer, this`rows, requests, chain, chain.lazy, chain.lazy.loader, store
    {
      if forall k: int {:trigger Unsealed(this, k)} :: Unsealed(this, k) ==> Resting() then Intact else Broken
    }

    ghost predicate Idle()
      reads this`buffer, this`rows, requests, chain, chain.lazy, chain.lazy.loader, store
    {
      Rested() == Intact
    }

    lemma OpenIdle()
      requires Idle()
      ensures Resting()
    {
      assert Unsealed(this, 0);
    }

    ghost predicate InRange()
      reads this`top, this`floor, chain`hs
    {
      floor <= TipHeight(chain.hs) <= top
    }

    /** The chain can grow by `n` headers, by all that are buffered and by a fork without passing `top`. */
    ghost predicate Room(n: nat)
      reads this`top, this`floor, this`buffer, chain`hs
    {
      InRange() && TipHeight(chain.hs) + |buffer.entries| + n + MAX_FORK_WALK <= top
    }

    /** Nothing was used from below what a fork at `floor` requires, or from above `top`. */
    twostate predicate Looked()
      reads this`top, this`floor, chain, chain.lazy
    {
      && chain.lazy.Capacity() == old(chain.lazy.Capacity())
      && (old(chain.lazy.strayed) ==> chain.lazy.strayed)
      && (chain.lazy.strayed ==> old(chain.lazy.strayed) || Coverage(chain.lazy.window, chain.law.rules, floor, top) == Broken)
      && (chain.lazy.calm ==> old(chain.lazy.calm) && chain.lazy.strayed == old(chain.lazy.strayed))
    }

    /** Heights between `lo` and `hi` are no others. */
    lemma Looks(lo: int, hi: int)
      requires Reach(chain.law.rules, floor) <= lo && hi <= top
      ensures !Covers(chain.lazy.window, lo, hi) ==> Coverage(chain.lazy.window, chain.law.rules, floor, top) == Broken
    {
      if Coverage(chain.lazy.window, chain.law.rules, floor, top) == Intact {
        assert Unsealed(chain.lazy.window, 0);
      }
    }

    /** The slots there are: those from before the batch and those its forks took. */
    ghost predicate Filed()
      reads this`shelved, this`forks, this`known, store
    {
      Account(store.best.Keys, shelved, forks, store.primary.Keys, known) == Intact
    }

    ghost function Circumstances(): Office
      reads chain`light
    {
      Office(chain.law, chain.light, oracle, timer)
    }

    /** The state that decides what becomes of a header. */
    ghost function DeskNow(pending: Option<Fork>): Desk
      reads this`buffer, this`forks, this`calls, chain`hs, store, requests
    {
      Desk(chain.hs, buffer, store.primary, store.scores.Keys, forks, pending, calls, requests.inFlight)
    }

    ghost predicate PendingOk(pending: Option<Fork>, lo: nat)
      reads this`floor, this`beaten, chain, chain.lazy
    {
      pending.Some? ==> Justification(chain.law.rules, chain.light, chain.hs, chain.lazy.Fits(), floor, lo, beaten, pending.value) == Intact
    }

    /** All that is kept from one header of a batch to the next. */
    ghost predicate Steady(lo: nat, entries: seq<Entry>, pending: Option<Fork>)
      reads this, requests, chain, chain.lazy, chain.lazy.loader, store
    {
      InBatch(lo, entries) && Tidy() && Filed() && requests.Bounded() && PendingOk(pending, lo)
    }

    /** `Steady`, sealed. */
    ghost function Seal(lo: nat, entries: seq<Entry>, pending: Option<Fork>): Health
      reads this, requests, chain, chain.lazy, chain.lazy.loader, store
    {
      if forall k: int {:trigger Unsealed((lo, entries, pending), k)} :: Unsealed((lo, entries, pending), k) ==> Steady(lo, entries, pending)
      then Intact else Broken
    }

    lemma OpenBatch(lo: nat, entries: seq<Entry>, pending: Option<Fork>)
      requires Seal(lo, entries, pending) == Intact
      ensures Steady(lo, entries, pending)
    {
      assert Unsealed((lo, entries, pending), 0);
    }

    lemma Recognised(h: Header, lo: nat, entries: seq<Entry>, pending: Option<Fork>)
      requires Seal(lo, entries, pending) == Intact
      ensures IdOf(h) in chain.byId <==> HeightOf(chain.hs, IdOf(h)).Some?
      ensures buffer.Valid()
    {
      OpenBatch(lo, entries, pending);
      OpenFiling(buffer);
      Known(IdOf(h), lo, entries);
    }

    lemma Foundations(lo: nat, entries: seq<Entry>, pending: Option<Fork>)
      requires Seal(lo, entries, pending) == Intact
      ensures Linked(chain.hs) && PendingOk(pending, lo) && Filed()
    {
      OpenBatch(lo, entries, pending);
      ChainLinked(lo, entries);
    }

    lemma ChainLinked(lo: nat, entries: seq<Entry>)
      requires InBatch(lo, entries)
      ensures Linked(chain.hs)
    {
      OpenBooks(lo, entries);
      chain.Linkage();
    }

    /** The index knows the chain, and rows are found under their own id. */
    lemma Known(id: Id, lo: nat, entries: seq<Entry>)
      requires InBatch(lo, entries)
      ensures id in chain.byId <==> HeightOf(chain.hs, id).Some?
      ensures id in store.primary ==> IdOf(store.primary[id]) == id
    {
      OpenBooks(lo, entries);
      chain.Lookup(id);
      LedgerKeyed(Page(lo, entries));
    }

    // ---- Appending ----

    /** Offer a header to the chain; if it extends it, there is one more entry to write. */
    method Append(h: Header, entries: seq<Entry>, ghost lo: nat, ghost pending: Option<Fork>) returns (panicked: bool, r: Appended, more: seq<Entry>)
      requires InBatch(lo, entries) && requests.Bounded() && InRange() && TipHeight(chain.hs) < top
      modifies this`calls, requests, chain`baseHeight, chain`byId, chain`hs, chain`ss
      modifies chain.lazy`headers, chain.lazy`scores, chain.lazy`strayed, chain.lazy`calm
      ensures !panicked ==> InBatch(lo, more) && Placement(old(chain.hs), h, r) == Intact
      ensures !panicked && r.Extended? ==> chain.hs == old(chain.hs) + [h] && TipHeight(chain.hs) == old(TipHeight(chain.hs)) + 1 && entries <= more
      ensures !panicked && !r.Extended? ==> chain.hs == old(chain.hs) && more == entries
      ensures !panicked && old(Apart()) ==> ApartExcept(if r.Extended? then Some(IdOf(h)) else None)
      ensures Looked() && requests.Bounded()
      ensures chain.lazy.Fits() ==> !panicked && Offering(Circumstances(), old(DeskNow(pending)), h, r, DeskNow(pending)) == Intact
    {
      ghost var before := chain.hs;
      panicked, r, more := Accept(h, entries, lo, pending);
      if !panicked && old(Apart()) && r.Extended? {
        SeparatePush(buffer, before, h);
      }
    }

    method Accept(h: Header, entries: seq<Entry>, ghost lo: nat, ghost pending: Option<Fork>) returns (panicked: bool, r: Appended, more: seq<Entry>)
      requires InBatch(lo, entries) && requests.Bounded() && InRange() && TipHeight(chain.hs) < top
      modifies this`calls, requests, chain`baseHeight, chain`byId, chain`hs, chain`ss
      modifies chain.lazy`headers, chain.lazy`scores, chain.lazy`strayed, chain.lazy`calm
      ensures !panicked ==> InBatch(lo, more) && Placement(old(chain.hs), h, r) == Intact
      ensures !panicked && r.Extended? ==> chain.hs == old(chain.hs) + [h] && TipHeight(chain.hs) == old(TipHeight(chain.hs)) + 1 && entries <= more
      ensures !panicked && !r.Extended? ==> chain.hs == old(chain.hs) && more == entries
      ensures Looked() && requests.Bounded()
      ensures chain.lazy.Fits() ==> !panicked && Offering(Circumstances(), old(DeskNow(pending)), h, r, DeskNow(pending)) == Intact
    {
      ghost var start := DeskNow(pending);
      panicked, r, more := OfferAndRecord(h, entries, lo);
      if chain.lazy.Fits() {
        OfferedSo(Circumstances(), start, h, r, chain.hs, requests.inFlight);
      }
    }

    method OfferAndRecord(h: Header, entries: seq<Entry>, ghost lo: nat) returns (panicked: bool, r: Appended, more: seq<Entry>)
      requires InBatch(lo, entries) && requests.Bounded() && InRange() && TipHeight(chain.hs) < top
      modifies this`calls, requests, chain`baseHeight, chain`byId, chain`hs, chain`ss
      modifies chain.lazy`headers, chain.lazy`scores, chain.lazy`strayed, chain.lazy`calm
      ensures !panicked ==> InBatch(lo, more) && Placement(old(chain.hs), h, r) == Intact
      ensures !panicked && r.Extended? ==> chain.hs == old(chain.hs) + [h] && TipHeight(chain.hs) == old(TipHeight(chain.hs)) + 1 && entries <= more
      ensures !panicked && !r.Extended? ==> chain.hs == old(chain.hs) && more == entries
      ensures Looked() && requests.Bounded() && calls == old(calls) + 1
      ensures !panicked ==> Noting(old(requests.inFlight), h, r, requests.inFlight) == Intact
      ensures chain.lazy.Fits() ==> !panicked && Judging(chain.law, chain.light, old(chain.hs), h, oracle(old(calls)), r) == Intact
    {
      OpenBooks(lo, entries);
      more, r, panicked := entries, ChainSpec.Extended, true;
      ghost var page := Page(lo, entries);
      var a := Offer(h);
      if a.Returned? {
        panicked, r := false, a.value;
        WeakerLedger(page, chain.lazy.Fits());
        if r.Extended? {
          panicked, more := Record(h, entries, lo, page);
        } else {
          NotedNothing(requests.inFlight, h, r);
        }
      }
    }

    method Offer(h: Header) returns (a: Attempt<Appended>)
      requires chain.Sound() && InRange() && TipHeight(chain.hs) < top
      modifies this`calls, chain`baseHeight, chain`byId, chain`hs, chain`ss
      modifies chain.lazy`headers, chain.lazy`scores, chain.lazy`strayed, chain.lazy`calm
      ensures a.Returned? ==> chain.Sound() && Placement(old(chain.hs), h, a.value) == Intact
      ensures a.Returned? && a.value.Extended? ==>
                chain.hs == old(chain.hs) + [h] && old(TipHeight(chain.hs)) + 1 == TipHeight(chain.hs) == h.height
      ensures a.Returned? && !a.value.Extended? ==> chain.hs == old(chain.hs)
      ensures a.Returned? ==> Origin(chain.light, chain.hs) == Origin(chain.light, old(chain.hs))
      ensures Looked() && calls == old(calls) + 1
      ensures chain.lazy.Fits() ==> a.Returned? && Judging(chain.law, chain.light, old(chain.hs), h, oracle(old(calls)), a.value) == Intact
    {
      chain.Sizes();
      ghost var tip := TipHeight(chain.hs);
      a := chain.TryAppend(h, oracle(calls));
      Looks(Reach(chain.law.rules, tip), tip + 1);
      calls := calls + 1;
    }

    /** Note the score of the header just appended. */
    method Record(h: Header, entries: seq<Entry>, ghost lo: nat, ghost page: Ledger) returns (panicked: bool, more: seq<Entry>)
      requires chain.lazy.loader == store && chain.Sound()
      requires page.Seal() == Intact && (chain.lazy.Fits() ==> page.fits) && lo + |entries| == |page.hs|
      requires chain.hs == page.hs + [h] && 0 < h.height == TipHeight(chain.hs) && InRange() && requests.Bounded()
      requires page == Page(lo, entries).(hs := page.hs, fits := page.fits)
      modifies requests, chain.lazy`scores, chain.lazy`strayed
      ensures !panicked ==> InBatch(lo, more) && |more| == |entries| + 1 && entries <= more
      ensures Looked() && requests.Bounded() && (chain.lazy.Fits() ==> !panicked)
      ensures Noting(old(requests.inFlight), h, ChainSpec.Extended, requests.inFlight) == Intact
    {
      more := entries;
      requests.Resolved(IdOf(h));
      NotedArrival(old(requests.inFlight), h, requests.inFlight);
      var s := chain.ScoreAt(h.height);
      Looks(h.height, Smaller(h.height, TipHeight(chain.hs)));
      if s.None? {
        return true, more;
      }
      more := entries + [Entry(h, s.value)];
      if chain.lazy.Fits() {
        chain.WorkOf(|chain.hs| - 1);
      }
      LedgerAppend(page, h, s.value, chain.lazy.Fits());
      panicked := false;
    }

    /** Follow the chain of buffered children; each turn takes one out of the buffer. */
    method Drain(from: Id, entries: seq<Entry>, ghost lo: nat, ghost pending: Option<Fork>) returns (panicked: bool, more: seq<Entry>)
      requires InBatch(lo, entries) && Tidy() && requests.Bounded() && Room(0)
      modifies this`calls, this`buffer, requests, chain`baseHeight, chain`byId, chain`hs, chain`ss
      modifies chain.lazy`headers, chain.lazy`scores, chain.lazy`strayed, chain.lazy`calm
      ensures !panicked ==> InBatch(lo, more) && Tidy() && entries <= more && old(chain.hs) <= chain.hs
      ensures !panicked ==> TipHeight(chain.hs) + |buffer.entries| <= old(TipHeight(chain.hs) + |buffer.entries|)
      ensures !panicked && old(ApartExcept(Some(from))) ==> Apart()
      ensures chain.lazy.Fits() ==> Draining(Circumstances(), old(DeskNow(pending)), from, None, DeskNow(pending)) == Intact
      ensures Looked() && requests.Bounded() && (chain.lazy.Fits() ==> !panicked)
    {
      more := entries;
      var next := Some(from);
      ghost var apart, start := ApartExcept(next), DeskNow(pending);
      OpenFiling(buffer);
      DrainStarts(Circumstances(), start, from);
      while next.Some? && buffer.Has(next.value)
        invariant InBatch(lo, more) && Tidy() && entries <= more && old(chain.hs) <= chain.hs
        invariant apart ==> ApartExcept(next)
        invariant chain.lazy.Fits() ==> Draining(Circumstances(), start, from, next, DeskNow(pending)) == Intact
        invariant Looked() && requests.Bounded() && TipHeight(chain.hs) + |buffer.entries| <= old(TipHeight(chain.hs) + |buffer.entries|)
        decreases |buffer.entries|
      {
        panicked, next, more := DrainNext(next.value, more, lo, pending, start, from);
        if panicked {
          return;
        }
      }
      if apart {
        SeparateEnds(buffer, chain.hs, next);
      }
      if chain.lazy.Fits() {
        DrainEnds(Circumstances(), start, from, next, DeskNow(pending));
      }
      panicked := false;
    }

    /** One more turn. */
    method DrainNext(key: Id, entries: seq<Entry>, ghost lo: nat, ghost pending: Option<Fork>, ghost start: Desk, ghost from: Id)
      returns (panicked: bool, next: Option<Id>, more: seq<Entry>)
      requires InBatch(lo, entries) && Tidy() && requests.Bounded() && buffer.Has(key) && Room(0)
      requires chain.lazy.Fits() ==> Draining(Circumstances(), start, from, Some(key), DeskNow(pending)) == Intact
      modifies this`calls, this`buffer, requests, chain`baseHeight, chain`byId, chain`hs, chain`ss
      modifies chain.lazy`headers, chain.lazy`scores, chain.lazy`strayed, chain.lazy`calm
      ensures |buffer.entries| < |old(buffer).entries|
      ensures !panicked ==> InBatch(lo, more) && Tidy() && entries <= more && old(chain.hs) <= chain.hs
      ensures !panicked ==> TipHeight(chain.hs) + |buffer.entries| <= old(TipHeight(chain.hs) + |buffer.entries|)
      ensures !panicked && old(ApartExcept(Some(key))) ==> ApartExcept(next)
      ensures chain.lazy.Fits() ==> Draining(Circumstances(), start, from, next, DeskNow(pending)) == Intact
      ensures Looked() && requests.Bounded() && (chain.lazy.Fits() ==> !panicked)
    {
      ghost var m := DeskNow(pending);
      panicked, next, more := DrainOne(key, entries, lo, pending);
      if chain.lazy.Fits() {
        OpenFiling(buffer);
        DrainGoesOn(Circumstances(), start, from, m, key, next, DeskNow(pending));
      }
    }

    /** Offer the child buffered under `key`; if it extends the chain, its own children are next. */
    method DrainOne(key: Id, entries: seq<Entry>, ghost lo: nat, ghost pending: Option<Fork>) returns (panicked: bool, next: Option<Id>, more: seq<Entry>)
      requires InBatch(lo, entries) && Tidy() && requests.Bounded() && buffer.Has(key) && Room(0)
      modifies this`calls, this`buffer, requests, chain`baseHeight, chain`byId, chain`hs, chain`ss
      modifies chain.lazy`headers, chain.lazy`scores, chain.lazy`strayed, chain.lazy`calm
      ensures |buffer.entries| < |old(buffer).entries|
      ensures !panicked ==> InBatch(lo, more) && Tidy() && entries <= more && old(chain.hs) <= chain.hs
      ensures !panicked ==> TipHeight(chain.hs) + |buffer.entries| <= old(TipHeight(chain.hs) + |buffer.entries|)
      ensures !panicked && old(ApartExcept(Some(key))) ==> ApartExcept(next)
      ensures chain.lazy.Fits() ==> DrainStep(Circumstances(), old(DeskNow(pending)), key, next, DeskNow(pending)) == Intact
      ensures Looked() && requests.Bounded() && (chain.lazy.Fits() ==> !panicked)
    {
      var h := buffer.Peek(key).value;
      ghost var start := DeskNow(pending);
      if ApartExcept(Some(key)) {
        SeparatePop(buffer, chain.hs, key);
      }
      TakeOut(key);
      var r;
      panicked, r, more := Append(h, entries, lo, pending);
      next := if r.Extended? then Some(IdOf(h)) else None;
      if chain.lazy.Fits() {
        DrainedOne(Circumstances(), start, key, h, r, DeskNow(pending));
      }
    }

    method TakeOut(key: Id)
      requires Tidy() && buffer.Has(key)
      modifies this`buffer
      ensures buffer == old(buffer).Pop(key)
      ensures Tidy() && !buffer.Has(key) && |buffer.entries| < |old(buffer).entries|
    {
      FilingPop(buffer, key);
      buffer := buffer.Pop(key);
    }

    // ---- Forks ----

    /** The header was stored as a fork, and nothing else. */
    twostate predicate Shelved(h: Header)
      reads this`forks, store
    {
      && store.primary == old(store.primary)[IdOf(h) := h]
      && store.scores.Keys == old(store.scores.Keys) + {IdOf(h)}
      && store.best == (if h.height in old(store.best) then old(store.best) else old(store.best)[h.height := IdOf(h)])
      && forks == old(forks) + {h.height}
    }

    /** Store a header that is not on the best chain, with its score. */
    method StoreFork(h: Header, score: nat, ghost lo: nat, ghost entries: seq<Entry>)
      requires InBatch(lo, entries) && Filed() && IdOf(h) in known
      requires chain.lazy.Fits() ==> score == Work(chain.law.rules, Origin(chain.light, chain.hs), h)
      modifies store, this`forks
      ensures InBatch(lo, entries) && Filed() && Shelved(h)
    {
      ghost var slots, stored := store.best.Keys, store.primary.Keys;
      AccountMore(slots, shelved, forks, stored, known, h);
      StoreRow(h, score, lo, entries);
      forks := forks + {h.height};
      assert store.best.Keys == slots + {h.height} && store.primary.Keys == stored + {IdOf(h)};
    }

    method StoreRow(h: Header, score: nat, ghost lo: nat, ghost entries: seq<Entry>)
      requires InBatch(lo, entries)
      requires chain.lazy.Fits() ==> score == Work(chain.law.rules, Origin(chain.light, chain.hs), h)
      modifies store
      ensures InBatch(lo, entries)
      ensures store.primary == old(store.primary)[IdOf(h) := h] && store.scores.Keys == old(store.scores.Keys) + {IdOf(h)}
      ensures store.best == if h.height in old(store.best) then old(store.best) else old(store.best)[h.height := IdOf(h)]
    {
      OpenBooks(lo, entries);
      ghost var page, before := Page(lo, entries), chain.Now();
      LedgerKeyed(page);
      chain.Served();
      chain.ServedOver();
      ghost var base := if chain.hs == [] then 0 else chain.hs[0].height;
      ghost var headerView, scoreView := store.HeaderView(), store.ScoreView();
      store.PutHeader(h, score);
      LedgerFork(page, h, score);
      ForkImproves(page, h, score, base, chain.hs, chain.ss);
      chain.lazy.ServesImproved(base, chain.hs, chain.ss, headerView, scoreView);
      StillSound(before, chain.lazy.Fits(), true);
    }

    /** A fork from the best chain: score it, store it, and choose it if it is heavier. */
    method ForkFrom(h: Header, forkHeight: nat, pending: Option<Fork>, ghost lo: nat, ghost entries: seq<Entry>)
      returns (chosen: Option<Fork>)
      requires InBatch(lo, entries) && Filed() && requests.Bounded() && PendingOk(pending, lo) && InRange() && floor <= forkHeight
      requires IdOf(h) in known && buffer.Valid()
      requires HeightOf(chain.hs, h.parentId) == Some(forkHeight) && HeightOf(chain.hs, IdOf(h)).None?
      modifies requests, store, this`forks, this`beaten, chain.lazy`scores, chain.lazy`strayed
      ensures InBatch(lo, entries) && Filed() && requests.Bounded() && PendingOk(chosen, lo)
      ensures chosen == pending || (pending.None? && chosen == Some(Fork(forkHeight, [h])))
      ensures Looked()
      ensures chain.lazy.Fits() ==> Aside(Circumstances(), old(DeskNow(pending)), h, Forked(forkHeight), DeskNow(chosen)) == Intact
    {
      ghost var start := DeskNow(pending);
      requests.Resolved(IdOf(h));
      var better := WeighFork(h, forkHeight, pending, lo, entries);
      chosen := if better && pending.None? then Some(Fork(forkHeight, [h])) else pending;
      if chain.lazy.Fits() {
        AsideFork(Circumstances(), start, h, forkHeight, requests.inFlight, DeskNow(pending), better);
      }
      if better && pending.None? {
        Choose(chosen.value, lo);
      }
    }

    /** Note that the fork was chosen over the chain as it is now. */
    ghost method Choose(fork: Fork, lo: nat)
      requires lo <= |chain.hs| && 0 < |fork.branch| <= MAX_FORK_WALK
      requires chain.hs != [] && floor <= fork.forkPoint <= TipHeight(chain.hs)
      requires chain.lazy.Fits() ==> Outweighs(Circumstances(), chain.hs, Last(fork.branch))
      modifies this`beaten
      ensures PendingOk(Some(fork), lo)
    {
      beaten := |chain.hs|;
      JustifiedNow(chain.law.rules, chain.light, chain.hs, chain.lazy.Fits(), floor, lo, fork);
    }

    /** Store a fork header and compare its score with that of the chain. */
    method Weigh(h: Header, score: nat, ghost pending: Option<Fork>, ghost lo: nat, ghost entries: seq<Entry>) returns (better: bool)
      requires InBatch(lo, entries) && Filed() && InRange() && IdOf(h) in known
      requires chain.lazy.Fits() ==> score == Work(chain.law.rules, Origin(chain.light, chain.hs), h)
      modifies store, this`forks, chain.lazy`scores, chain.lazy`strayed
      ensures InBatch(lo, entries) && Filed() && Looked() && Storing(old(DeskNow(pending)), h, DeskNow(pending)) == Intact
      ensures chain.lazy.Fits() ==> (better <==> Outweighs(Circumstances(), chain.hs, h))
    {
      StoreFork(h, score, lo, entries);
      var best := BestScore(lo, entries);
      better := score > best;
    }

    method WeighFork(h: Header, forkHeight: nat, ghost pending: Option<Fork>, ghost lo: nat, ghost entries: seq<Entry>) returns (better: bool)
      requires InBatch(lo, entries) && Filed() && InRange() && IdOf(h) in known && floor <= forkHeight
      requires HeightOf(chain.hs, h.parentId) == Some(forkHeight) && HeightOf(chain.hs, IdOf(h)).None?
      modifies store, this`forks, chain.lazy`scores, chain.lazy`strayed
      ensures InBatch(lo, entries) && Filed() && Looked() && Storing(old(DeskNow(pending)), h, DeskNow(pending)) == Intact
      ensures chain.hs != [] && forkHeight <= TipHeight(chain.hs)
      ensures chain.lazy.Fits() ==> (better <==> Outweighs(Circumstances(), chain.hs, h))
    {
      FoundAt(chain.hs, h.parentId);
      var score := ForkScore(h, forkHeight, lo, entries);
      better := Weigh(h, score, pending, lo, entries);
    }

    method WeighExtension(h: Header, ghost pending: Option<Fork>, ghost lo: nat, ghost entries: seq<Entry>) returns (better: bool)
      requires InBatch(lo, entries) && Filed() && InRange() && IdOf(h) in known && h.parentId in store.scores && HeightOf(chain.hs, IdOf(h)).None?
      modifies store, this`forks, chain.lazy`scores, chain.lazy`strayed
      ensures InBatch(lo, entries) && Filed() && Looked() && Storing(old(DeskNow(pending)), h, DeskNow(pending)) == Intact
      ensures chain.lazy.Fits() ==> (better <==> Outweighs(Circumstances(), chain.hs, h))
    {
      var score := ExtendedScore(h, lo, entries);
      better := Weigh(h, score, pending, lo, entries);
    }

    /** The parent's score and the header's own difficulty. */
    method ForkScore(h: Header, forkHeight: nat, ghost lo: nat, ghost entries: seq<Entry>) returns (score: nat)
      requires InBatch(lo, entries) && InRange() && floor <= forkHeight
      requires HeightOf(chain.hs, h.parentId) == Some(forkHeight) && HeightOf(chain.hs, IdOf(h)).None?
      modifies chain.lazy`scores, chain.lazy`strayed
      ensures InBatch(lo, entries) && Looked()
      ensures chain.lazy.Fits() ==> score == Work(chain.law.rules, Origin(chain.light, chain.hs), h)
    {
      OpenBooks(lo, entries);
      ghost var page := Page(lo, entries);
      var parentScore := chain.ScoreAt(forkHeight);
      Looks(forkHeight, Smaller(forkHeight, TipHeight(chain.hs)));
      WeakerLedger(page, chain.lazy.Fits());
      if chain.lazy.Fits() {
        FoundAt(chain.hs, h.parentId);
        chain.Shape();
        TrailForkWork(chain.Now().trail, h, forkHeight - chain.hs[0].height);
      }
      score := (if parentScore.Some? then parentScore.value else 0) + chain.law.rules.Difficulty(h);
    }

    method BestScore(ghost lo: nat, ghost entries: seq<Entry>) returns (best: nat)
      requires InBatch(lo, entries) && InRange()
      modifies chain.lazy`scores, chain.lazy`strayed
      ensures InBatch(lo, entries)
      ensures Looked() && (chain.lazy.Fits() ==> best == Weight(chain.law.rules, Origin(chain.light, chain.hs), chain.hs))
    {
      OpenBooks(lo, entries);
      ghost var page := Page(lo, entries);
      best := chain.CumulativeScore();
      Looks(TipHeight(chain.hs), TipHeight(chain.hs));
      WeakerLedger(page, chain.lazy.Fits());
      if chain.lazy.Fits() && chain.hs != [] {
        chain.WorkOf(|chain.hs| - 1);
      }
    }

    /** Walk back through the store to the chain; see `FindFork`. */
    method AssembleFork(h: Header, ghost lo: nat, ghost entries: seq<Entry>) returns (r: Option<Fork>)
      requires InBatch(lo, entries) && InRange() && Shallow(chain.hs, known, h, floor) && Filed()
      modifies chain.lazy`headers, chain.lazy`strayed
      ensures InBatch(lo, entries)
      ensures r.Some? ==> floor <= r.value.forkPoint
      ensures r.Some? ==> r == FindFork(chain.hs, store.primary, h, MAX_FORK_WALK)
      ensures Looked() && (chain.lazy.Fits() ==> r == FindFork(chain.hs, store.primary, h, MAX_FORK_WALK))
    {
      var current, above := h, [];
      OpenAccount(store.best.Keys, shelved, forks, store.primary.Keys, known);
      OntoNothing(FindFork(chain.hs, store.primary, h, MAX_FORK_WALK));
      for step := 0 to MAX_FORK_WALK
        invariant InBatch(lo, entries) && Looked() && Shallow(chain.hs, known, current, floor)
        invariant FindFork(chain.hs, store.primary, h, MAX_FORK_WALK)
               == Onto(FindFork(chain.hs, store.primary, current, MAX_FORK_WALK - step), above)
      {
        Known(current.parentId, lo, entries);
        if current.parentId in chain.byId {
          var leaves := LeavesAt(current, lo, entries);
          r := if leaves then Some(Fork(current.height - 1, [current] + above)) else None;
          return;
        }
        if current.parentId !in store.primary {
          return None;
        }
        FindForkStep(chain.hs, store.primary, current, above, MAX_FORK_WALK - step);
        current, above := store.primary[current.parentId], [current] + above;
      }
      r := None;
    }

    /** Is the parent at the height just below? At height zero the subtraction wraps and nothing is found. */
    method LeavesAt(h: Header, ghost lo: nat, ghost entries: seq<Entry>) returns (r: bool)
      requires InBatch(lo, entries) && HeightOf(chain.hs, h.parentId).Some? && InRange() && Shallow(chain.hs, known, h, floor)
      modifies chain.lazy`headers, chain.lazy`strayed
      ensures InBatch(lo, entries)
      ensures r ==> HeightOf(chain.hs, h.parentId).value + 1 == h.height
      ensures Looked() && (chain.lazy.Fits() ==> (r <==> HeightOf(chain.hs, h.parentId).value + 1 == h.height))
    {
      OpenBooks(lo, entries);
      if h.height == 0 {
        return false;
      }
      ghost var page := Page(lo, entries);
      var at := chain.HeaderAt(h.height - 1);
      Looks(h.height - 1, Smaller(h.height - 1, TipHeight(chain.hs)));
      WeakerLedger(page, chain.lazy.Fits());
      if ChainSpec.HeaderAt(chain.hs, h.height - 1).Some? {
        chain.SlotHeader(h.height - 1);
      }
      r := at.Some? && IdOf(at.value) == h.parentId;
    }

    /** A header on top of a stored fork. */
    method ExtendFork(h: Header, pending: Option<Fork>, ghost lo: nat, ghost entries: seq<Entry>) returns (chosen: Option<Fork>)
      requires InBatch(lo, entries) && Filed() && PendingOk(pending, lo) && InRange() && Shallow(chain.hs, known, h, floor)
      requires IdOf(h) in known && h.parentId in store.scores && HeightOf(chain.hs, IdOf(h)).None?
      modifies store, this`forks, this`beaten, chain.lazy`headers, chain.lazy`scores, chain.lazy`strayed
      ensures InBatch(lo, entries) && Filed() && PendingOk(chosen, lo)
      ensures chosen == pending || (pending.None? && chosen == FindFork(chain.hs, store.primary, h, MAX_FORK_WALK))
      ensures Looked() && Storing(old(DeskNow(pending)), h, DeskNow(pending)) == Intact
      ensures chain.lazy.Fits() && pending.None? ==>
                chosen == if Outweighs(Circumstances(), chain.hs, h) then FindFork(chain.hs, store.primary, h, MAX_FORK_WALK) else None
    {
      var better := WeighExtension(h, pending, lo, entries);
      chosen := pending;
      if better && pending.None? {
        chosen := AssembleFork(h, lo, entries);
        if chosen.Some? {
          FindForkEnds(chain.hs, store.primary, h, MAX_FORK_WALK);
          Choose(chosen.value, lo);
        }
      }
    }

    method ExtendedScore(h: Header, ghost lo: nat, ghost entries: seq<Entry>) returns (score: nat)
      requires InBatch(lo, entries) && h.parentId in store.scores && HeightOf(chain.hs, IdOf(h)).None?
      ensures chain.lazy.Fits() ==> score == Work(chain.law.rules, Origin(chain.light, chain.hs), h)
    {
      OpenBooks(lo, entries);
      LedgerKeyed(Page(lo, entries));
      assert chain.lazy.Fits() ==> store.scores[h.parentId] == Work(chain.law.rules, Origin(chain.light, chain.hs), h.parentId.header);
      NotOrigin(chain.hs, chain.light, h);
      score := store.scores[h.parentId] + chain.law.rules.Difficulty(h);
    }

    // ---- One header ----

    /** Keep an orphan until its parent turns up, displacing what was longest untouched. */
    method Park(h: Header)
      requires Tidy()
      modifies this`buffer
      ensures old(buffer).Valid() && buffer == old(buffer).Put(h.parentId, h)
      ensures Tidy() && buffer.Peek(h.parentId) == Some(h) && |buffer.entries| <= |old(buffer).entries| + 1
      ensures old(Apart()) && HeightOf(chain.hs, h.parentId).None? ==> Apart()
    {
      FilingPut(buffer, h);
      if Apart() && HeightOf(chain.hs, h.parentId).None? {
        SeparatePut(buffer, chain.hs, h);
      }
      buffer := buffer.Put(h.parentId, h);
    }

    /** A header whose parent is not on the best chain. */
    method Orphan(h: Header, ghost r: Appended, pending: Option<Fork>, ghost lo: nat, ghost entries: seq<Entry>) returns (chosen: Option<Fork>)
      requires InBatch(lo, entries) && Tidy() && Filed() && requests.Bounded() && PendingOk(pending, lo)
      requires InRange() && Shallow(chain.hs, known, h, floor)
      requires IdOf(h) in known && HeightOf(chain.hs, IdOf(h)).None? && HeightOf(chain.hs, h.parentId).None?
      requires r.Rejected? && r.error.ParentNotFound?
      modifies this`buffer, requests, store, this`forks, this`beaten, chain.lazy`headers, chain.lazy`scores, chain.lazy`strayed
      ensures InBatch(lo, entries) && Tidy() && Filed() && requests.Bounded() && PendingOk(chosen, lo) && (old(Apart()) ==> Apart())
      ensures chosen == pending || (pending.None? && chosen == FindFork(chain.hs, store.primary, h, MAX_FORK_WALK))
      ensures Looked() && |buffer.entries| <= |old(buffer).entries| + 1
      ensures chain.lazy.Fits() ==> Aside(Circumstances(), old(DeskNow(pending)), h, r, DeskNow(chosen)) == Intact
    {
      ghost var start := DeskNow(pending);
      if h.parentId in store.scores {
        chosen := ExtendOrphan(h, pending, lo, entries);
      } else {
        AwaitParent(h, pending);
        chosen := pending;
      }
      if chain.lazy.Fits() {
        AsideOrphan(Circumstances(), start, h, r, DeskNow(chosen));
      }
    }

    /** A first header that cannot be one: it waits too. */
    method ParkFirst(h: Header, ghost r: Appended, ghost pending: Option<Fork>)
      requires Tidy() && r.Rejected? && (r.error.InvalidGenesisParent? || r.error.InvalidGenesisHeight?)
      modifies this`buffer
      ensures Tidy() && |buffer.entries| <= |old(buffer).entries| + 1
      ensures old(Apart()) && HeightOf(chain.hs, h.parentId).None? ==> Apart()
      ensures Aside(Circumstances(), old(DeskNow(pending)), h, r, DeskNow(pending)) == Intact
    {
      ghost var start := DeskNow(pending);
      Park(h);
      AsideParked(Circumstances(), start, h, r);
    }

    /** Ask for an unknown parent, if the budget allows, and keep the header until it comes. */
    method AwaitParent(h: Header, ghost pending: Option<Fork>)
      requires Tidy() && requests.Bounded() && h.parentId !in store.scores
      modifies this`buffer, requests
      ensures Tidy() && requests.Bounded() && |buffer.entries| <= |old(buffer).entries| + 1
      ensures old(Apart()) && HeightOf(chain.hs, h.parentId).None? ==> Apart()
      ensures Orphaning(Circumstances(), old(DeskNow(pending)), h, DeskNow(pending)) == Intact
    {
      ghost var start := DeskNow(pending);
      var granted := requests.ShouldRequest(h.parentId, timer(calls));
      Park(h);
      OrphanWaits(Circumstances(), start, h, requests.inFlight);
    }

    method ExtendOrphan(h: Header, pending: Option<Fork>, ghost lo: nat, ghost entries: seq<Entry>) returns (chosen: Option<Fork>)
      requires InBatch(lo, entries) && Tidy() && Filed() && PendingOk(pending, lo) && InRange() && Shallow(chain.hs, known, h, floor)
      requires IdOf(h) in known && h.parentId in store.scores && HeightOf(chain.hs, IdOf(h)).None?
      modifies store, this`forks, this`beaten, chain.lazy`headers, chain.lazy`scores, chain.lazy`strayed
      ensures InBatch(lo, entries) && Filed() && PendingOk(chosen, lo)
      ensures chosen == pending || (pending.None? && chosen == FindFork(chain.hs, store.primary, h, MAX_FORK_WALK))
      ensures Looked()
      ensures chain.lazy.Fits() ==> Orphaning(Circumstances(), old(DeskNow(pending)), h, DeskNow(chosen)) == Intact
    {
      ghost var start := DeskNow(pending);
      OpenFiling(buffer);
      chosen := ExtendFork(h, pending, lo, entries);
      if chain.lazy.Fits() {
        OrphanExtends(Circumstances(), start, h, DeskNow(pending), chosen);
      }
    }

    /** Offer one header: it extends the chain, or forks it, or waits, or is dropped. */
    method Handle(h: Header, entries: seq<Entry>, pending: Option<Fork>, ghost lo: nat)
      returns (panicked: bool, more: seq<Entry>, chosen: Option<Fork>)
      requires Seal(lo, entries, pending) == Intact && Room(1) && Shallow(chain.hs, known, h, floor) && IdOf(h) in known
      modifies this`calls, this`buffer, this`forks, this`beaten, requests, store, chain`baseHeight, chain`byId, chain`hs, chain`ss
      modifies chain.lazy`headers, chain.lazy`scores, chain.lazy`strayed, chain.lazy`calm
      ensures !panicked ==> Seal(lo, more, chosen) == Intact && entries <= more && old(chain.hs) <= chain.hs
      ensures !panicked && old(Apart()) ==> Apart()
      ensures !panicked && pending.Some? ==> chosen == pending
      ensures !panicked ==> TipHeight(chain.hs) + |buffer.entries| <= old(TipHeight(chain.hs) + |buffer.entries|) + 1
      ensures chain.lazy.Fits() ==> Took(Circumstances(), old(DeskNow(pending)), h, DeskNow(chosen)) == Intact
      ensures Looked() && (chain.lazy.Fits() ==> !panicked)
    {
      panicked, more, chosen := false, entries, pending;
      Recognised(h, lo, entries, pending);
      if IdOf(h) in chain.byId {
        TookKnown(Circumstances(), DeskNow(pending), h);
      } else {
        panicked, more, chosen := Admit(h, entries, pending, lo);
      }
    }

    /** The same for a header that is not on the chain. */
    method Admit(h: Header, entries: seq<Entry>, pending: Option<Fork>, ghost lo: nat)
      returns (panicked: bool, more: seq<Entry>, chosen: Option<Fork>)
      requires Seal(lo, entries, pending) == Intact && Room(1) && Shallow(chain.hs, known, h, floor) && IdOf(h) in known
      requires HeightOf(chain.hs, IdOf(h)).None?
      modifies this`calls, this`buffer, this`forks, this`beaten, requests, store, chain`baseHeight, chain`byId, chain`hs, chain`ss
      modifies chain.lazy`headers, chain.lazy`scores, chain.lazy`strayed, chain.lazy`calm
      ensures !panicked ==> Seal(lo, more, chosen) == Intact && entries <= more && old(chain.hs) <= chain.hs
      ensures !panicked && old(Apart()) ==> Apart()
      ensures !panicked && pending.Some? ==> chosen == pending
      ensures !panicked ==> TipHeight(chain.hs) + |buffer.entries| <= old(TipHeight(chain.hs) + |buffer.entries|) + 1
      ensures chain.lazy.Fits() ==> Took(Circumstances(), old(DeskNow(pending)), h, DeskNow(chosen)) == Intact
      ensures Looked() && (chain.lazy.Fits() ==> !panicked)
    {
      chosen := pending;
      ghost var start := DeskNow(pending);
      var r;
      panicked, r, more := Grow(h, entries, pending, lo);
      ghost var m := DeskNow(pending);
      if !panicked && !r.Extended? {
        chosen := SetAside(h, r, pending, lo, entries);
      }
      if chain.lazy.Fits() {
        TookBoth(Circumstances(), start, h, r, m, DeskNow(chosen));
      }
    }

    /** Append a header and then the buffered ones that follow from it. */
    method Grow(h: Header, entries: seq<Entry>, ghost pending: Option<Fork>, ghost lo: nat) returns (panicked: bool, r: Appended, more: seq<Entry>)
      requires Seal(lo, entries, pending) == Intact && Room(1)
      modifies this`calls, this`buffer, requests, chain`baseHeight, chain`byId, chain`hs, chain`ss
      modifies chain.lazy`headers, chain.lazy`scores, chain.lazy`strayed, chain.lazy`calm
      ensures !panicked ==> Seal(lo, more, pending) == Intact && entries <= more && old(chain.hs) <= chain.hs
      ensures !panicked && !r.Extended? ==> more == entries && chain.hs == old(chain.hs) && buffer == old(buffer) && Placement(chain.hs, h, r) == Intact
      ensures !panicked ==> TipHeight(chain.hs) + |buffer.entries| <= old(TipHeight(chain.hs) + |buffer.entries|) + 1
      ensures !panicked && old(Apart()) ==> Apart()
      ensures chain.lazy.Fits() ==> !panicked && Growth(Circumstances(), old(DeskNow(pending)), h, r, DeskNow(pending)) == Intact
      ensures Looked()
    {
      OpenBatch(lo, entries, pending);
      ghost var before, fits := chain.hs, chain.lazy.Fits();
      panicked, r, more := AppendAll(h, entries, lo, pending);
      if !panicked && pending.Some? {
        JustifiedStill(chain.law.rules, chain.light, before, fits, floor, lo, beaten, pending.value, chain.hs, chain.lazy.Fits());
      }
    }

    method AppendAll(h: Header, entries: seq<Entry>, ghost lo: nat, ghost pending: Option<Fork>) returns (panicked: bool, r: Appended, more: seq<Entry>)
      requires InBatch(lo, entries) && Tidy() && requests.Bounded() && Room(1)
      modifies this`calls, this`buffer, requests, chain`baseHeight, chain`byId, chain`hs, chain`ss
      modifies chain.lazy`headers, chain.lazy`scores, chain.lazy`strayed, chain.lazy`calm
      ensures !panicked ==> InBatch(lo, more) && Tidy() && entries <= more && old(chain.hs) <= chain.hs
      ensures !panicked && !r.Extended? ==> more == entries && chain.hs == old(chain.hs) && buffer == old(buffer) && Placement(chain.hs, h, r) == Intact
      ensures !panicked ==> TipHeight(chain.hs) + |buffer.entries| <= old(TipHeight(chain.hs) + |buffer.entries|) + 1
      ensures !panicked && old(Apart()) ==> Apart()
      ensures chain.lazy.Fits() ==> !panicked && Growth(Circumstances(), old(DeskNow(pending)), h, r, DeskNow(pending)) == Intact
      ensures Looked() && requests.Bounded()
    {
      ghost var start := DeskNow(pending);
      OpenFiling(buffer);
      panicked, r, more := Append(h, entries, lo, pending);
      ghost var m := DeskNow(pending);
      if !panicked && r.Extended? {
        panicked, more := Drain(IdOf(h), more, lo, pending);
        if chain.lazy.Fits() {
          GrowthDrained(Circumstances(), start, h, m, DeskNow(pending));
        }
      } else if chain.lazy.Fits() {
        GrowthPlain(Circumstances(), start, h, r, m);
      }
    }

    /** What to do with a header that did not extend the chain. */
    method SetAside(h: Header, r: Appended, pending: Option<Fork>, ghost lo: nat, ghost entries: seq<Entry>) returns (chosen: Option<Fork>)
      requires Seal(lo, entries, pending) == Intact && InRange() && Shallow(chain.hs, known, h, floor) && IdOf(h) in known
      requires !r.Extended? && Placement(chain.hs, h, r) == Intact && HeightOf(chain.hs, IdOf(h)).None?
      modifies this`buffer, requests, store, this`forks, this`beaten, chain.lazy`headers, chain.lazy`scores, chain.lazy`strayed
      ensures Seal(lo, entries, chosen) == Intact && (old(Apart()) ==> Apart())
      ensures pending.Some? ==> chosen == pending
      ensures chain.lazy.Fits() ==> Aside(Circumstances(), old(DeskNow(pending)), h, r, DeskNow(chosen)) == Intact
      ensures Looked() && |buffer.entries| <= |old(buffer).entries| + 1
    {
      chosen := pending;
      OpenBatch(lo, entries, pending);
      OpenFiling(buffer);
      OpenPlacement(chain.hs, h, r);
      if r.Forked? {
        chosen := ForkFrom(h, r.forkHeight, pending, lo, entries);
      } else if r.error.ParentNotFound? {
        chosen := Orphan(h, r, pending, lo, entries);
      } else if r.error.InvalidGenesisParent? || r.error.InvalidGenesisHeight? {
        ParkFirst(h, r, pending);
      } else {
        AsideDropped(Circumstances(), DeskNow(pending), h, r);
      }
    }

    /** Offer every header of a batch, in order. */
    method HandleAll(batch: seq<Header>) returns (panicked: bool, entries: seq<Entry>, pending: Option<Fork>)
      requires Seal(|chain.hs|, [], None) == Intact && Room(|batch|) && Foresight(chain.hs, known, batch, floor) == Intact
      modifies this`calls, this`buffer, this`forks, this`beaten, requests, store, chain`baseHeight, chain`byId, chain`hs, chain`ss
      modifies chain.lazy`headers, chain.lazy`scores, chain.lazy`strayed, chain.lazy`calm
      ensures !panicked ==> Room(0) && Seal(|old(chain.hs)|, entries, pending) == Intact && old(chain.hs) <= chain.hs
      ensures !panicked && old(Apart()) ==> Apart()
      ensures chain.lazy.Fits() ==> TookAll(Circumstances(), old(DeskNow(None)), batch, DeskNow(pending)) == Intact
      ensures Looked() && (chain.lazy.Fits() ==> !panicked)
    {
      ghost var lo, start := |chain.hs|, DeskNow(None);
      panicked, entries, pending := false, [], None;
      OpenBatch(lo, [], None);
      OpenFiling(buffer);
      TookNone(Circumstances(), start, batch);
      for i := 0 to |batch|
        invariant Seal(lo, entries, pending) == Intact && old(chain.hs) <= chain.hs
        invariant old(Apart()) ==> Apart()
        invariant Looked() && Room(|batch| - i) && Foresight(chain.hs, known, batch, floor) == Intact
        invariant chain.lazy.Fits() ==> TookAll(Circumstances(), start, batch[..i], DeskNow(pending)) == Intact
        invariant !panicked
      {
        panicked, entries, pending := HandleNext(batch, i, entries, pending, lo, start);
        if panicked {
          return;
        }
      }
      assert batch[..|batch|] == batch;
    }

    /** The header at `i`, after those before it. */
    method HandleNext(batch: seq<Header>, i: nat, entries: seq<Entry>, pending: Option<Fork>, ghost lo: nat, ghost start: Desk)
      returns (panicked: bool, more: seq<Entry>, chosen: Option<Fork>)
      requires i < |batch| && Seal(lo, entries, pending) == Intact && Room(|batch| - i) && Foresight(chain.hs, known, batch, floor) == Intact
      requires chain.lazy.Fits() ==> TookAll(Circumstances(), start, batch[..i], DeskNow(pending)) == Intact
      modifies this`calls, this`buffer, this`forks, this`beaten, requests, store, chain`baseHeight, chain`byId, chain`hs, chain`ss
      modifies chain.lazy`headers, chain.lazy`scores, chain.lazy`strayed, chain.lazy`calm
      ensures !panicked ==> Seal(lo, more, chosen) == Intact && old(chain.hs) <= chain.hs
      ensures !panicked && old(Apart()) ==> Apart()
      ensures !panicked ==> Room(|batch| - i - 1) && Foresight(chain.hs, known, batch, floor) == Intact
      ensures chain.lazy.Fits() ==> TookAll(Circumstances(), start, batch[..i + 1], DeskNow(chosen)) == Intact
      ensures Looked() && (chain.lazy.Fits() ==> !panicked)
    {
      ghost var before, m := chain.hs, DeskNow(pending);
      ForesightAt(chain.hs, known, batch, floor, i);
      panicked, more, chosen := Handle(batch[i], entries, pending, lo);
      if !panicked {
        ForesightGrows(before, chain.hs, known, batch, floor);
      }
      if chain.lazy.Fits() {
        TookOneMore(Circumstances(), start, batch, i, m, DeskNow(chosen));
      }
    }

    // ---- Writing the store ----

    /** The chain is as sound as it was once the store has caught up with it. */
    lemma Resettle(before: State, headerView: map<nat, Header>, scoreView: map<nat, nat>)
      requires before.Seal() == Intact && chain.Now().(serves := true) == before.(serves := true)
      requires chain.lazy.loader == store && chain.lazy.Valid() && |chain.ss| == |chain.hs| && Linked(chain.hs)
      requires chain.lazy.ServesOver(before.Base(), chain.hs, chain.ss, headerView, scoreView)
      requires before.base == if chain.hs == [] then None else Some(chain.hs[0].height)
      requires before.trail.Seal() == Intact
      requires Page(|chain.hs|, []).Seal() == Intact
      ensures chain.Sound()
    {
      if chain.hs != [] {
        LedgerImproves(Page(|chain.hs|, []), before.trail, headerView, scoreView);
      }
      chain.lazy.ServesImproved(before.Base(), chain.hs, chain.ss, headerView, scoreView);
      StillSound(before, chain.lazy.Fits(), true);
    }

    /** No reorganisation: write what was appended. */
    method Flush(entries: seq<Entry>, ghost lo: nat)
      requires InBatch(lo, entries)
      modifies store
      ensures InBatch(|chain.hs|, [])
      ensures lo <= |chain.hs| && store.best.Keys == old(store.best.Keys) + Heights(chain.hs[lo..])
    {
      OpenBooks(lo, entries);
      ghost var page, before := Page(lo, entries), chain.Now();
      LedgerKeyed(page);
      chain.Linkage();
      chain.Served();
      chain.ServedOver();
      chain.Shape();
      LedgerKeys(page);
      ghost var headerView, scoreView := store.HeaderView(), store.ScoreView();
      LedgerFlush(page);
      store.PutBatch(entries);
      Resettle(before, headerView, scoreView);
    }

    /** Scores for a branch that has just become the best chain. */
    method BranchRows(branch: seq<Header>, ghost keep: nat) returns (panicked: bool, rows: seq<Entry>)
      requires chain.Sound() && 0 < keep <= |chain.hs| && chain.hs[keep..] == branch
      requires floor <= chain.hs[0].height + keep && TipHeight(chain.hs) <= top
      modifies chain.lazy`scores, chain.lazy`strayed
      ensures chain.Sound()
      ensures !panicked ==> Written(rows) == branch
      ensures !panicked && chain.lazy.Fits() ==> WorkEntries(chain.law.rules, Origin(chain.light, chain.hs), rows)
      ensures Looked() && (chain.lazy.Fits() ==> !panicked)
    {
      rows := [];
      for i := 0 to |branch|
        invariant chain.Sound() && Looked()
        invariant |rows| == i && Written(rows) == branch[..i]
        invariant chain.lazy.Fits() ==> WorkEntries(chain.law.rules, Origin(chain.light, chain.hs), rows)
      {
        var s := ScoreOnChain(branch[i], keep + i);
        if s.None? {
          return true, rows;
        }
        rows := rows + [Entry(branch[i], s.value)];
        assert Written(rows) == branch[..i + 1];
      }
      assert branch[..|branch|] == branch;
      panicked := false;
    }

    method ScoreOnChain(h: Header, ghost at: nat) returns (s: Option<nat>)
      requires chain.Sound() && at < |chain.hs| && chain.hs[at] == h && floor <= chain.hs[0].height + at && TipHeight(chain.hs) <= top
      modifies chain.lazy`scores, chain.lazy`strayed
      ensures chain.Sound()
      ensures Looked() && (chain.lazy.Fits() ==> s == Some(Work(chain.law.rules, Origin(chain.light, chain.hs), h)))
    {
      chain.Linkage();
      assert chain.hs[at].height == chain.hs[0].height + at;
      s := chain.ScoreAt(h.height);
      Looks(h.height, Smaller(h.height, TipHeight(chain.hs)));
      if chain.lazy.Fits() {
        chain.WorkOf(at);
      }
    }

    /** Split what was appended at the fork point: what is still on the chain, and what was demoted. */
    method Partition(entries: seq<Entry>, forkPoint: nat, ghost lo: nat, ghost base: nat, ghost keep: nat) returns (best: seq<Entry>, demoted: seq<Entry>)
      requires Stepped(entries) && (entries != [] ==> entries[0].header.height == base + lo)
      requires forkPoint == base + keep - 1
      ensures best == Surviving(lo, entries, keep) && best + demoted == entries
    {
      best, demoted := [], [];
      for i := 0 to |entries|
        invariant best == Surviving(lo, entries[..i], keep) && best + demoted == entries[..i]
      {
        assert entries[i].header.height == base + lo + i;
        assert entries[..i + 1] == entries[..i] + [entries[i]];
        if entries[i].header.height <= forkPoint {
          assert demoted == [];
          best := best + [entries[i]];
        } else {
          demoted := demoted + [entries[i]];
        }
      }
      assert entries[..|entries|] == entries;
    }

    /** Demoted headers keep their rows but take no slot from the new branch. */
    method Demote(demoted: seq<Entry>, ghost l: Ledger)
      requires l.Seal() == Intact && l.books == Books(store.primary, store.scores, store.best)
      requires l.fits ==> WorkEntries(l.rules, l.origin, demoted)
      modifies store
      ensures l.(books := Books(store.primary, store.scores, store.best)).Seal() == Intact
      ensures store.best.Keys == old(store.best.Keys) + Heights(Written(demoted))
    {
      ghost var current := l;
      for i := 0 to |demoted|
        invariant store.best.Keys == old(store.best.Keys) + Heights(Written(demoted[..i]))
        invariant current == l.(books := Books(store.primary, store.scores, store.best)) && current.Seal() == Intact
      {
        LedgerKeyed(current);
        LedgerFork(current, demoted[i].header, demoted[i].score);
        store.PutHeader(demoted[i].header, demoted[i].score);
        current := current.(books := current.books.WithFork(demoted[i].header, demoted[i].score));
        assert Written(demoted[..i + 1]) == Written(demoted[..i]) + [demoted[i].header];
        HeightsAdd(Written(demoted[..i]), [demoted[i].header]);
      }
      assert demoted[..|demoted|] == demoted;
    }

    /** First the new branch, then what it demoted, then what was appended below it. */
    method WriteReorg(rows: seq<Entry>, entries: seq<Entry>, forkPoint: nat, ghost page: Ledger, ghost keep: nat, ghost hs: seq<Header>, ghost fits: bool)
      requires page.Seal() == Intact && page.entries == entries && page.books == Books(store.primary, store.scores, store.best)
      requires page.lo + |entries| == |page.hs| && Linked(page.hs) && Linked(hs) && (fits ==> page.fits)
      requires 0 < keep <= |page.hs| && forkPoint == page.hs[0].height + keep - 1 && hs == page.hs[..keep] + Written(rows)
      requires fits ==> WorkEntries(page.rules, page.origin, rows)
      modifies store
      ensures Ledger(page.rules, page.origin, hs, |hs|, [], Books(store.primary, store.scores, store.best), page.rows, fits).Seal() == Intact
      ensures store.best.Keys == old(store.best.Keys) + Heights(Written(entries)) + Heights(Written(rows))
    {
      LedgerKeyed(page);
      LedgerReorg(page, keep, rows, hs, fits);
      BranchStepped(page, keep, rows, hs);
      BestKeys(store.best, rows);
      store.PutBatch(rows);
      ghost var l := Ledger(page.rules, page.origin, hs, if keep < page.lo then keep else page.lo, Surviving(page.lo, entries, keep),
                            Books(store.primary, store.scores, store.best), page.rows, fits);
      EntriesStepped(page);
      WriteEntries(entries, forkPoint, l, page.lo, page.hs[0].height, keep);
      InEitherOrder(page.books.best.Keys, Heights(Written(rows)), Heights(Written(entries)));
    }

    method WriteEntries(entries: seq<Entry>, forkPoint: nat, ghost l: Ledger, ghost lo: nat, ghost base: nat, ghost keep: nat)
      requires l.Seal() == Intact && Linked(l.hs) && l.books == Books(store.primary, store.scores, store.best)
      requires l.entries == Surviving(lo, entries, keep) && forkPoint == base + keep - 1
      requires Stepped(entries) && (entries != [] ==> entries[0].header.height == base + lo)
      requires l.fits ==> WorkEntries(l.rules, l.origin, entries)
      modifies store
      ensures l.(lo := |l.hs|, entries := [], books := Books(store.primary, store.scores, store.best)).Seal() == Intact
      ensures store.best.Keys == old(store.best.Keys) + Heights(Written(entries))
    {
      var best, demoted := Partition(entries, forkPoint, lo, base, keep);
      SplitEntries(best, demoted, l.rules, l.origin);
      Demote(demoted, l);
      ghost var now := l.(books := Books(store.primary, store.scores, store.best));
      LedgerKeyed(now);
      LedgerFlush(now);
      BestKeys(store.best, best);
      store.PutBatch(best);
    }

    /** The branch is on the chain; bring the store in step. */
    method CommitReorg(fork: Fork, entries: seq<Entry>, ghost page: Ledger, ghost keep: nat) returns (panicked: bool)
      requires chain.lazy.loader == store && chain.Sound()
      requires page.Seal() == Intact && Linked(page.hs) && page.entries == entries && page.lo + |entries| == |page.hs|
      requires page.books == Books(store.primary, store.scores, store.best) && page.rows == rows && (chain.lazy.Fits() ==> page.fits)
      requires page.rules == chain.law.rules && page.origin == Origin(chain.light, chain.hs)
      requires 0 < keep <= |page.hs| && fork.forkPoint == page.hs[0].height + keep - 1
      requires chain.hs == page.hs[..keep] + fork.branch && floor <= fork.forkPoint && TipHeight(chain.hs) <= top
      modifies store, chain.lazy`scores, chain.lazy`strayed
      ensures !panicked ==> InBatch(|chain.hs|, [])
      ensures !panicked ==> store.best.Keys == old(store.best.Keys) + Heights(Written(entries)) + Heights(fork.branch)
      ensures Looked() && (chain.lazy.Fits() ==> !panicked)
    {
      var rows;
      panicked, rows := BranchRows(fork.branch, keep);
      if panicked {
        return;
      }
      ghost var before := chain.Now();
      chain.Linkage();
      chain.Served();
      chain.ServedOver();
      chain.Shape();
      ghost var headerView, scoreView := store.HeaderView(), store.ScoreView();
      WriteReorg(rows, entries, fork.forkPoint, page, keep, chain.hs, chain.lazy.Fits());
      Resettle(before, headerView, scoreView);
    }

    /** Carry out the chosen reorganisation, or just write what was appended if the chain refuses it. */
    method ExecuteReorg(fork: Fork, entries: seq<Entry>, ghost lo: nat) returns (panicked: bool, event: Option<ReorgEvent>)
      requires InBatch(lo, entries) && PendingOk(Some(fork), lo) && TipHeight(chain.hs) + MAX_FORK_WALK <= top
      modifies this`calls, store, chain`baseHeight, chain`byId, chain`hs, chain`ss
      modifies chain.lazy`headers, chain.lazy`scores, chain.lazy`strayed, chain.lazy`calm
      ensures !panicked ==> InBatch(|chain.hs|, [])
      ensures !panicked && event.None? ==> chain.hs == old(chain.hs)
      ensures !panicked && event.Some? ==> Takeover(old(chain.hs), fork, event.value, chain.hs) == Intact
      ensures !panicked ==> Filling(old(store.best.Keys), old(chain.hs), lo, Some(fork), event.Some?, store.best.Keys) == Intact
      ensures !panicked && event.Some? ==>
                (Within(store.best.Keys, chain.hs) <==>
                   Within(old(store.best.Keys), chain.hs) && TipHeight(old(chain.hs)) <= fork.forkPoint + |fork.branch|)
      ensures chain.lazy.Fits() ==> Answer(Circumstances(), old(DeskNow(Some(fork))), panicked, event.Some?) == Intact
      ensures Looked() && (chain.lazy.Fits() && !chain.light ==> !panicked)
    {
      OpenBooks(lo, entries);
      OpenJustification(chain.law.rules, chain.light, chain.hs, chain.lazy.Fits(), floor, lo, beaten, fork);
      ghost var page, desk := Page(lo, entries), DeskNow(Some(fork));
      chain.Linkage();
      var r, oldTip := Switch(fork);
      panicked, event := true, None;
      if r.Returned? {
        panicked, event := WriteReply(fork, entries, r.value, oldTip, lo, page);
      }
      if chain.lazy.Fits() {
        AnswerReply(Circumstances(), desk, r, event.Some?);
      }
    }

    /** Write what was appended and, if the chain accepted it, the branch. */
    method WriteReply(fork: Fork, entries: seq<Entry>, reply: Reorged, oldTip: nat, ghost lo: nat, ghost page: Ledger)
      returns (panicked: bool, event: Option<ReorgEvent>)
      requires chain.lazy.loader == store && chain.Sound()
      requires page.Seal() == Intact && Linked(page.hs) && page.entries == entries && page.lo == lo && lo + |entries| == |page.hs|
      requires page.books == Books(store.primary, store.scores, store.best) && page.rows == rows && (chain.lazy.Fits() ==> page.fits)
      requires page.rules == chain.law.rules && page.origin == Origin(chain.light, page.hs)
      requires reply.Refused? ==> chain.hs == page.hs
      requires reply.Switched? ==>
                 && page.hs != [] && page.hs[0].height <= fork.forkPoint <= TipHeight(page.hs) == oldTip && fork.branch != []
                 && chain.hs == page.hs[..fork.forkPoint - page.hs[0].height + 1] + fork.branch
                 && floor <= fork.forkPoint && TipHeight(chain.hs) <= top
      modifies store, chain.lazy`scores, chain.lazy`strayed
      ensures !panicked ==> InBatch(|chain.hs|, []) && (event.Some? <==> reply.Switched?)
      ensures !panicked && event.Some? ==> Takeover(page.hs, fork, event.value, chain.hs) == Intact
      ensures !panicked ==> Filling(old(store.best.Keys), page.hs, lo, Some(fork), event.Some?, store.best.Keys) == Intact
      ensures !panicked && event.Some? ==>
                (Within(store.best.Keys, chain.hs) <==>
                   Within(old(store.best.Keys), chain.hs) && TipHeight(page.hs) <= fork.forkPoint + |fork.branch|)
      ensures Looked() && (chain.lazy.Fits() ==> !panicked)
    {
      if reply.Refused? {
        Keep(fork, entries, lo, page);
        panicked, event := false, None;
      } else {
        panicked, event := Commit(fork, entries, oldTip, page);
      }
    }

    /** The chain refused the branch and is as it was. */
    method Keep(ghost fork: Fork, entries: seq<Entry>, ghost lo: nat, ghost page: Ledger)
      requires chain.lazy.loader == store && chain.Sound() && lo + |entries| == |chain.hs|
      requires page.Seal() == Intact && (chain.lazy.Fits() ==> page.fits) && page.(fits := chain.lazy.Fits()) == Page(lo, entries)
      modifies store
      ensures InBatch(|chain.hs|, [])
      ensures Filling(old(store.best.Keys), chain.hs, lo, Some(fork), false, store.best.Keys) == Intact
    {
      WeakerLedger(page, chain.lazy.Fits());
      Flush(entries, lo);
    }

    /** Bring the store in step with the branch that took over, and report it. */
    method Commit(fork: Fork, entries: seq<Entry>, oldTip: nat, ghost page: Ledger) returns (panicked: bool, event: Option<ReorgEvent>)
      requires chain.lazy.loader == store && chain.Sound()
      requires page.Seal() == Intact && Linked(page.hs) && page.entries == entries && page.lo + |entries| == |page.hs|
      requires page.books == Books(store.primary, store.scores, store.best) && page.rows == rows && (chain.lazy.Fits() ==> page.fits)
      requires page.rules == chain.law.rules && page.origin == Origin(chain.light, page.hs)
      requires page.hs != [] && page.hs[0].height <= fork.forkPoint <= TipHeight(page.hs) == oldTip && fork.branch != []
      requires chain.hs == page.hs[..fork.forkPoint - page.hs[0].height + 1] + fork.branch
      requires floor <= fork.forkPoint && TipHeight(chain.hs) <= top
      modifies store, chain.lazy`scores, chain.lazy`strayed
      ensures !panicked ==> InBatch(|chain.hs|, [])
      ensures !panicked ==> event.Some? && Takeover(page.hs, fork, event.value, chain.hs) == Intact
      ensures !panicked ==> Filling(old(store.best.Keys), page.hs, page.lo, Some(fork), true, store.best.Keys) == Intact
      ensures !panicked ==>
                (Within(store.best.Keys, chain.hs) <==>
                   Within(old(store.best.Keys), chain.hs) && TipHeight(page.hs) <= fork.forkPoint + |fork.branch|)
      ensures Looked() && (chain.lazy.Fits() ==> !panicked)
    {
      event := None;
      LedgerKeys(page);
      panicked := CommitReorg(fork, entries, page, fork.forkPoint - page.hs[0].height + 1);
      if panicked {
        return;
      }
      OpenBooks(|chain.hs|, []);
      chain.Sizes();
      chain.Linkage();
      event := Some(ReorgEvent(fork.forkPoint, oldTip, chain.Height()));
      ReorgWithinIff(page, fork, event.value, chain.hs);
      FilledByReorg(page.books.best.Keys, page.hs, page.lo, fork, store.best.Keys);
    }

    /** The reorganisation itself, with the tips read before and after for the log. */
    method Switch(fork: Fork) returns (r: Attempt<Reorged>, oldTip: nat)
      requires chain.Sound() && chain.hs != [] && floor <= fork.forkPoint <= TipHeight(chain.hs)
      requires 0 < |fork.branch| <= MAX_FORK_WALK && TipHeight(chain.hs) + MAX_FORK_WALK <= top
      modifies this`calls, chain`baseHeight, chain`byId, chain`hs, chain`ss
      modifies chain.lazy`headers, chain.lazy`scores, chain.lazy`strayed, chain.lazy`calm
      ensures r.Returned? ==> chain.Sound() && (r.value.Refused? ==> chain.hs == old(chain.hs))
      ensures r.Returned? && r.value.Switched? ==>
                && old(chain.hs)[0].height <= fork.forkPoint <= TipHeight(old(chain.hs)) == oldTip && TipHeight(chain.hs) <= top
                && chain.hs == old(chain.hs)[..fork.forkPoint - old(chain.hs)[0].height + 1] + fork.branch
      ensures Looked() && (chain.lazy.Fits() && !chain.light ==> r.Returned?)
      ensures chain.lazy.Fits() ==> Reply(chain.law, old(chain.hs), fork, oracle(old(calls)), r) == Intact
    {
      chain.Sizes();
      oldTip := chain.Height();
      var read := ReadTip();
      if !read {
        return Panicked, oldTip;
      }
      r := Reorganise(fork);
      if r.Returned? && r.value.Switched? {
        read := ReadTip();
        if !read {
          r := Panicked;
        }
      }
    }

    /** Read the tip for the log. */
    method ReadTip() returns (read: bool)
      requires chain.Sound() && chain.hs != [] && floor <= TipHeight(chain.hs) <= top
      modifies chain.lazy`headers, chain.lazy`strayed
      ensures chain.Sound() && Looked() && (chain.lazy.Fits() ==> read)
    {
      var tip := chain.Tip();
      Looks(TipHeight(chain.hs), TipHeight(chain.hs));
      read := tip.Returned?;
    }

    method Reorganise(fork: Fork) returns (r: Attempt<Reorged>)
      requires chain.Sound() && chain.hs != [] && floor <= fork.forkPoint <= TipHeight(chain.hs)
      requires 0 < |fork.branch| <= MAX_FORK_WALK && TipHeight(chain.hs) + MAX_FORK_WALK <= top
      modifies this`calls, chain`baseHeight, chain`byId, chain`hs, chain`ss
      modifies chain.lazy`headers, chain.lazy`scores, chain.lazy`strayed, chain.lazy`calm
      ensures r.Returned? ==> chain.Sound() && (r.value.Refused? ==> chain.hs == old(chain.hs))
      ensures r.Returned? && r.value.Switched? ==>
                && old(chain.hs)[0].height <= fork.forkPoint <= TipHeight(old(chain.hs)) && chain.hs != [] && TipHeight(chain.hs) <= top
                && chain.hs == old(chain.hs)[..fork.forkPoint - old(chain.hs)[0].height + 1] + fork.branch
      ensures Looked() && (chain.lazy.Fits() && !chain.light ==> r.Returned?) && calls == old(calls) + 1
      ensures chain.lazy.Fits() ==> Reply(chain.law, old(chain.hs), fork, oracle(old(calls)), r) == Intact
    {
      if chain.lazy.Fits() && !chain.light {
        chain.DeepIsSafe(fork.forkPoint, fork.branch, oracle(calls));
      }
      ghost var tip := TipHeight(chain.hs);
      r := chain.TryReorgDeep(fork.forkPoint, fork.branch, oracle(calls));
      Looks(Reach(chain.law.rules, fork.forkPoint), Larger(tip, fork.forkPoint + |fork.branch|));
      calls := calls + 1;
    }

    // ---- The batch ----

    /** Drop what is at or below the tip and nothing else. */
    method Purge(tip: nat)
      requires Tidy()
      modifies this`buffer
      ensures Tidy()
      ensures forall k {:trigger buffer.Peek(k)} :: buffer.Peek(k) == Above(old(buffer.Peek(k)), tip)
      ensures forall k {:trigger buffer.Has(k)} :: buffer.Has(k) ==> old(buffer).Has(k)
    {
      var all := buffer.entries;
      ghost var before := buffer;
      for i := 0 to |all|
        invariant Tidy()
        invariant forall k {:trigger buffer.Peek(k)} :: buffer.Peek(k) == if Stale(all[..i], k, tip) then None else before.Peek(k)
      {
        var (key, h) := all[i];
        assert all[..i + 1] == all[..i] + [all[i]];
        forall k
          ensures Stale(all[..i + 1], k, tip) <==> Stale(all[..i], k, tip) || (k == key && h.height <= tip)
        {
          StalePush(all[..i], all[i], k, tip);
        }
        if h.height <= tip && buffer.Has(key) {
          OpenFiling(buffer);
          buffer.PopKeeps(key);
          buffer.PopOthers(key);
          TakeOut(key);
        }
      }
      assert all[..|all|] == all;
      forall k
        ensures Stale(all, k, tip) <==> before.Peek(k).Some? && before.Peek(k).value.height <= tip
      {
        OpenFiling(before);
        StaleIff(before, k, tip);
      }
      forall k | buffer.Has(k)
        ensures before.Has(k)
      {
        assert buffer.Peek(k) == Above(before.Peek(k), tip);
      }
    }

    /** Of what was buffered there is left exactly what is above the tip. */
    ghost predicate Swept(before: Lru<Id, Header>)
      reads this`buffer, chain`hs
    {
      forall k {:trigger buffer.Peek(k)} :: buffer.Peek(k) == Above(before.Peek(k), TipHeight(chain.hs))
    }

    /** Every slot from the base to the tip names the chain's header at that height. */
    lemma IdleSlots(i: nat)
      requires InBatch(|chain.hs|, []) && i < |chain.hs|
      ensures Get(store.best, chain.hs[i].height) == Some(IdOf(chain.hs[i]))
      ensures store.ReadHeaderAt(chain.hs[i].height) == Some(chain.hs[i])
      ensures |chain.ss| == |chain.hs|
      ensures chain.lazy.Fits() ==> store.ReadScoreAt(chain.hs[i].height) == Some(chain.ss[i])
    {
      OpenBooks(|chain.hs|, []);
      OpenLedger(Page(|chain.hs|, []));
      assert Slotted(Page(|chain.hs|, []).books, chain.hs[i]);
      if chain.lazy.Fits() {
        chain.WorkOf(i);
      }
    }

    lemma StoredNow()
      requires InBatch(|chain.hs|, []) && chain.lazy.Fits()
      ensures chain.Stored()
    {
      OpenBooks(|chain.hs|, []);
      chain.Linkage();
      forall i | 0 <= i < |chain.hs|
        ensures Get(chain.lazy.HeaderView(), chain.hs[0].height + i) == Some(chain.hs[i])
        ensures Get(chain.lazy.ScoreView(), chain.hs[0].height + i) == Some(chain.ss[i])
      {
        IdleSlots(i);
        assert chain.hs[i].height == chain.hs[0].height + i;
      }
    }

    /** The score at every height, and every score in the store, is the work along that ancestry. */
    ghost predicate ScoresAreWork()
      reads chain, store
    {
      && |chain.ss| == |chain.hs|
      && (forall i {:trigger chain.ss[i]} :: 0 <= i < |chain.hs| ==>
            chain.ss[i] == Work(chain.law.rules, Origin(chain.light, chain.hs), chain.hs[i]))
      && AllWork(chain.law.rules, Origin(chain.light, chain.hs), store.scores)
    }

    /** Between batches, as long as everything could be read back, scores are work and a full chain is valid. */
    lemma IdleScores()
      requires Idle() && chain.lazy.Fits()
      ensures ScoresAreWork() && (!chain.light ==> Accepted(chain.law, chain.hs))
    {
      OpenIdle();
      OpenBooks(|chain.hs|, []);
      if !chain.light {
        chain.Validity();
      }
      LedgerKeyed(Page(|chain.hs|, []));
      forall i | 0 <= i < |chain.hs|
        ensures chain.ss[i] == Work(chain.law.rules, Origin(chain.light, chain.hs), chain.hs[i])
      {
        chain.WorkOf(i);
      }
    }

    /** Write what the batch appended, after the reorganisation it called for, if any. */
    method Conclude(entries: seq<Entry>, pending: Option<Fork>, ghost lo: nat) returns (panicked: bool, event: Option<ReorgEvent>)
      requires Seal(lo, entries, pending) == Intact && Room(0)
      modifies this`calls, this`buffer, store, chain`baseHeight, chain`byId, chain`hs, chain`ss
      modifies chain.lazy`headers, chain.lazy`scores, chain.lazy`strayed, chain.lazy`calm
      ensures lo <= |old(chain.hs)|
      ensures !panicked ==> Tidy() && requests.Bounded() && InBatch(|chain.hs|, []) && Swept(old(buffer))
      ensures chain.lazy.Fits() ==> Answer(Circumstances(), old(DeskNow(pending)), panicked, event.Some?) == Intact
      ensures !panicked && event.None? ==> chain.hs == old(chain.hs) && (old(Apart()) ==> Apart())
      ensures !panicked && event.Some? ==> pending.Some? && Takeover(old(chain.hs), pending.value, event.value, chain.hs) == Intact
      ensures !panicked ==> Filling(old(store.best.Keys), old(chain.hs), lo, pending, event.Some?, store.best.Keys) == Intact
      ensures Looked() && (chain.lazy.Fits() && !chain.light ==> !panicked)
    {
      OpenBatch(lo, entries, pending);
      panicked, event := WriteOut(entries, pending, lo);
      if panicked {
        return;
      }
      Sweep();
    }

    /** Drop what has been overtaken by the chain. */
    method Sweep()
      requires Tidy() && InBatch(|chain.hs|, [])
      modifies this`buffer
      ensures Tidy() && Swept(old(buffer)) && (old(Apart()) ==> Apart())
    {
      OpenBooks(|chain.hs|, []);
      chain.Sizes();
      ghost var before := buffer;
      Purge(chain.Height());
      if old(Apart()) {
        SeparateFewer(before, buffer, chain.hs);
      }
    }

    method WriteOut(entries: seq<Entry>, pending: Option<Fork>, ghost lo: nat) returns (panicked: bool, event: Option<ReorgEvent>)
      requires InBatch(lo, entries) && PendingOk(pending, lo) && TipHeight(chain.hs) + MAX_FORK_WALK <= top
      modifies this`calls, store, chain`baseHeight, chain`byId, chain`hs, chain`ss
      modifies chain.lazy`headers, chain.lazy`scores, chain.lazy`strayed, chain.lazy`calm
      ensures !panicked ==> InBatch(|chain.hs|, [])
      ensures !panicked && event.None? ==> chain.hs == old(chain.hs)
      ensures !panicked && event.Some? ==> pending.Some? && Takeover(old(chain.hs), pending.value, event.value, chain.hs) == Intact
      ensures !panicked ==> Filling(old(store.best.Keys), old(chain.hs), lo, pending, event.Some?, store.best.Keys) == Intact
      ensures chain.lazy.Fits() ==> Answer(Circumstances(), old(DeskNow(pending)), panicked, event.Some?) == Intact
      ensures Looked() && (chain.lazy.Fits() && !chain.light ==> !panicked)
    {
      panicked, event := false, None;
      if pending.None? {
        AnswerNone(Circumstances(), DeskNow(pending));
        Flush(entries, lo);
      } else {
        panicked, event := ExecuteReorg(pending.value, entries, lo);
      }
    }

    /** Nothing above this height can be looked at while a batch is processed. */
    ghost function Ceiling(batch: seq<Header>): nat
      reads this`buffer, chain`hs
    {
      TipHeight(chain.hs) + |buffer.entries| + |batch| + MAX_FORK_WALK
    }

    /**
     The batch names no height below `deepest` and the caches have room for all that can be looked
     at from there up, whatever the length of the chain.
     */
    ghost predicate Snug(batch: seq<Header>, deepest: nat)
      reads this`buffer, chain, chain.lazy, store
    {
      && chain.lazy.Fits()
      && deepest <= TipHeight(chain.hs)
      && AllShallow(chain.hs, KnownIds(store.primary, batch), batch, deepest)
      && Ceiling(batch) - Reach(chain.law.rules, deepest) < chain.lazy.Capacity()
    }

    /** Foresee the heights between what the deepest fork requires and the ceiling. */
    ghost method Prepare(batch: seq<Header>, deepest: nat)
      requires Idle()
      modifies this`top, this`floor, this`shelved, this`forks, this`rows, this`known, chain.lazy`window, chain.lazy`strayed
      ensures Seal(|chain.hs|, [], None) == Intact && Room(|batch|) && Foresight(chain.hs, known, batch, floor) == Intact
      ensures shelved == store.best.Keys && forks == {} && rows == store.primary.Keys
      ensures chain.lazy.Fits() ==> old(chain.lazy.Fits())
      ensures old(Snug(batch, deepest)) ==> chain.lazy.Fits() && Coverage(chain.lazy.window, chain.law.rules, floor, top) == Intact
    {
      Bracket(batch, deepest);
      TakeStock();
      SpanSize(Reach(chain.law.rules, floor), top);
      LookAhead(Span(Reach(chain.law.rules, floor), top));
    }

    /** Fix the heights between which the batch will move. */
    ghost method Bracket(batch: seq<Header>, deepest: nat)
      modifies this`top, this`floor, this`shelved, this`forks, this`known
      ensures Room(|batch|) && AllShallow(chain.hs, known, batch, floor) && Filed()
      ensures top == Ceiling(batch) && shelved == store.best.Keys && forks == {} && known == KnownIds(store.primary, batch)
      ensures deepest <= TipHeight(chain.hs) && AllShallow(chain.hs, known, batch, deepest) ==> floor == deepest
    {
      known := KnownIds(store.primary, batch);
      AllShallowAtZero(chain.hs, known, batch);
      floor := if deepest <= TipHeight(chain.hs) && AllShallow(chain.hs, known, batch, deepest) then deepest else 0;
      top, shelved, forks := Ceiling(batch), store.best.Keys, {};
    }

    ghost method TakeStock()
      requires Idle()
      modifies this`rows
      ensures Resting() && rows == store.primary.Keys
    {
      OpenIdle();
      OpenBooks(|chain.hs|, []);
      LedgerStock(Page(|chain.hs|, []));
      rows := store.primary.Keys;
    }

    ghost method LookAhead(next: set<nat>)
      requires Resting() && Filed()
      modifies chain.lazy`window, chain.lazy`strayed
      ensures Seal(|chain.hs|, [], None) == Intact
      ensures chain.lazy.Fits() ==> old(chain.lazy.Fits())
      ensures old(chain.lazy.Fits()) ==> chain.lazy.window == next && !chain.lazy.strayed
    {
      OpenBooks(|chain.hs|, []);
      if chain.lazy.Fits() {
        var page := Page(|chain.hs|, []);
        chain.Foresee(next);
        WeakerLedger(page, chain.lazy.Fits());
      }
    }

    /** The store has caught up: until the next batch anything may be read. */
    ghost method Rest()
      requires Tidy() && requests.Bounded() && InBatch(|chain.hs|, [])
      modifies chain.lazy`calm, chain.lazy`window, chain.lazy`strayed
      ensures Idle() && (old(chain.lazy.Fits()) ==> chain.lazy.Fits())
    {
      OpenBooks(|chain.hs|, []);
      if chain.lazy.Fits() {
        var page := Page(|chain.hs|, []);
        StoredNow();
        chain.Settle();
        WeakerLedger(page, chain.lazy.Fits());
      }
    }

    /**
     One batch. The log says whether all that was looked at could be read back (`fitted`), which is
     certain when the batch goes no deeper than `deepest` and the caches have room from there up.
     Then the batch does exactly what `TakenAll` and `Final` say.
     */
    method ProcessHeaders(batch: seq<Header>, ghost deepest: nat) returns (panicked: bool, event: Option<ReorgEvent>, ghost log: BatchLog)
      requires Idle()
      modifies this`calls, this`buffer, this`top, this`floor, this`beaten, this`shelved, this`forks, this`rows, this`known
      modifies requests, store, chain`baseHeight, chain`byId, chain`hs, chain`ss
      modifies chain.lazy`headers, chain.lazy`scores, chain.lazy`strayed, chain.lazy`window, chain.lazy`calm
      ensures log.fitted ==> old(chain.lazy.Fits()) && (!chain.light ==> !panicked)
      ensures old(Snug(batch, deepest)) ==> log.fitted
      ensures old(buffer).Valid()
      ensures log.fitted ==> log.desk == TakenAll(Circumstances(), old(DeskNow(None)).(forks := {}), batch)
      ensures log.fitted ==> CalledFor(Circumstances(), old(DeskNow(None)).(forks := {}), batch, log.desk.pending)
      ensures log.fitted ==> Answers(Circumstances(), log.desk, panicked, event.Some?)
      ensures log.fitted && !panicked ==> chain.hs == Final(Circumstances(), log.desk) && requests.inFlight == log.desk.inFlight
      ensures !panicked ==> Idle() && Swept(log.desk.buffer) && old(chain.hs) <= log.desk.hs
      ensures !panicked && event.None? ==> chain.hs == log.desk.hs && (old(Apart()) ==> Apart())
      ensures !panicked && event.Some? ==> log.desk.pending.Some? && Reorganised(log.desk.hs, log.desk.pending.value, event.value, chain.hs)
      ensures !panicked && event.Some? && log.fitted ==> Surpassed(log, |old(chain.hs)|)
      ensures !panicked && log.fitted ==> chain.lazy.Fits() && ScoresAreWork() && (!chain.light ==> Accepted(chain.law, chain.hs))
      ensures !panicked ==> store.best.Keys == old(store.best.Keys) + log.desk.forks + Heights(log.desk.hs) + Heights(chain.hs)
      ensures !panicked ==> old(store.primary.Keys) <= store.primary.Keys
      ensures !panicked ==> (Within(store.best.Keys, chain.hs) <==>
                               && Within(old(store.best.Keys), chain.hs)
                               && Within(log.desk.forks, chain.hs)
                               && TipHeight(log.desk.hs) <= TipHeight(chain.hs))
    {
      ghost var hs, kept, start := chain.hs, store.best.Keys, DeskNow(None).(forks := {});
      OldSlots();
      IdleOrder();
      Prepare(batch, deepest);
      panicked, event, log := RunBatch(batch);
      Conclusions(hs, kept, start, batch, panicked, event, log);
    }

    /** What follows from the desk and the answer. */
    lemma Conclusions(hs: seq<Header>, kept: set<nat>, start: Desk, batch: seq<Header>, panicked: bool, event: Option<ReorgEvent>, log: BatchLog)
      requires Heights(hs) <= kept && InOrder(start) && start.pending.None?
      requires log.fitted ==> TookAll(Circumstances(), start, batch, log.desk) == Intact
      requires log.fitted ==> Answer(Circumstances(), log.desk, panicked, event.Some?) == Intact
      requires !panicked ==> Idle() && Linked(log.desk.hs) && hs <= log.desk.hs && (log.fitted ==> chain.lazy.Fits())
      requires !panicked && event.None? ==> chain.hs == log.desk.hs
      requires !panicked && event.Some? ==> log.desk.pending.Some? && Takeover(log.desk.hs, log.desk.pending.value, event.value, chain.hs) == Intact
      requires !panicked && event.Some? ==> WasJustified(log, |hs|)
      requires !panicked ==> Totalling(kept, log.desk, |hs|, event.Some?, store.best.Keys) == Intact
      ensures !panicked && event.Some? ==> Reorganised(log.desk.hs, log.desk.pending.value, event.value, chain.hs)
      ensures log.fitted ==> log.desk == TakenAll(Circumstances(), start, batch)
      ensures log.fitted ==> CalledFor(Circumstances(), start, batch, log.desk.pending)
      ensures log.fitted ==> Answers(Circumstances(), log.desk, panicked, event.Some?)
      ensures log.fitted && !panicked ==> chain.hs == Final(Circumstances(), log.desk)
      ensures !panicked && event.Some? && log.fitted ==> Surpassed(log, |hs|)
      ensures !panicked && log.fitted ==> ScoresAreWork() && (!chain.light ==> Accepted(chain.law, chain.hs))
      ensures !panicked ==> rows <= store.primary.Keys
      ensures !panicked ==> store.best.Keys == kept + log.desk.forks + Heights(log.desk.hs) + Heights(chain.hs)
      ensures !panicked ==> (Within(store.best.Keys, chain.hs) <==>
                               && Within(kept, chain.hs)
                               && Within(log.desk.forks, chain.hs)
                               && TipHeight(log.desk.hs) <= TipHeight(chain.hs))
    {
      if log.fitted {
        OpenTookAll(Circumstances(), start, batch, log.desk);
        CalledForFirst(Circumstances(), start, batch);
        OpenAnswer(Circumstances(), log.desk, panicked, event.Some?);
      }
      if !panicked {
        if event.Some? {
          OpenTakeover(log.desk.hs, log.desk.pending.value, event.value, chain.hs);
        }
        SlotsAfter(kept, hs, log.desk, event, chain.hs, store.best.Keys);
        IdleLinked();
        IdleRows();
        NoneStranded(kept, log.desk, event, chain.hs);
        if log.fitted {
          FinalIs(Circumstances(), log.desk, event, chain.hs);
          IdleScores();
          if event.Some? {
            TookOver(log, event.value, |hs|);
          }
        }
      }
    }

    /** No row is ever lost, and every header of the chain has one. */
    lemma IdleRows()
      requires Idle()
      ensures rows <= store.primary.Keys
      ensures forall id :: id in chain.byId ==> id in store.primary
    {
      OpenIdle();
      OpenBooks(|chain.hs|, []);
      OpenLedger(Page(|chain.hs|, []));
      forall id | id in chain.byId
        ensures id in store.primary
      {
        chain.Lookup(id);
        FoundAt(chain.hs, id);
        assert Slotted(Page(|chain.hs|, []).books, chain.hs[id.header.height - chain.hs[0].height]);
      }
    }

    lemma IdleOrder()
      requires Idle()
      ensures InOrder(DeskNow(None))
    {
      OpenIdle();
      OpenFiling(buffer);
      OpenBooks(|chain.hs|, []);
      LedgerKeyed(Page(|chain.hs|, []));
      chain.Linkage();
    }

    lemma IdleLinked()
      requires Idle()
      ensures Linked(chain.hs)
    {
      OpenIdle();
      ChainLinked(|chain.hs|, []);
    }

    lemma TookOver(log: BatchLog, event: ReorgEvent, start: nat)
      requires log.desk.pending.Some? && log.fitted && WasJustified(log, start)
      requires Reorganised(log.desk.hs, log.desk.pending.value, event, chain.hs)
      requires ScoresAreWork()
      ensures Surpassed(log, start)
    {
      OriginAfter(chain.light, log.desk.hs, log.desk.pending.value, event, chain.hs);
      var floor: nat :| Justification(chain.law.rules, chain.light, log.desk.hs, log.fitted, floor, start, log.beaten, log.desk.pending.value) == Intact;
      OpenJustification(chain.law.rules, chain.light, log.desk.hs, log.fitted, floor, start, log.beaten, log.desk.pending.value);
      assert chain.ss[|chain.hs| - 1] == Work(chain.law.rules, Origin(chain.light, chain.hs), Last(chain.hs));
    }

    /** Handle every header, write what came of it, and come to rest. */
    method RunBatch(batch: seq<Header>) returns (panicked: bool, event: Option<ReorgEvent>, ghost log: BatchLog)
      requires Seal(|chain.hs|, [], None) == Intact && Room(|batch|) && Foresight(chain.hs, known, batch, floor) == Intact
      modifies this`calls, this`buffer, this`beaten, this`forks
      modifies requests, store, chain`baseHeight, chain`byId, chain`hs, chain`ss
      modifies chain.lazy`headers, chain.lazy`scores, chain.lazy`strayed, chain.lazy`window, chain.lazy`calm
      ensures log.fitted ==> old(chain.lazy.Fits()) && (!chain.light ==> !panicked)
      ensures old(chain.lazy.Fits() && Coverage(chain.lazy.window, chain.law.rules, floor, top) == Intact) ==> log.fitted
      ensures log.fitted ==> TookAll(Circumstances(), old(DeskNow(None)), batch, log.desk) == Intact
      ensures log.fitted ==> Answer(Circumstances(), log.desk, panicked, event.Some?) == Intact
      ensures !panicked ==> requests.inFlight == log.desk.inFlight && Swept(log.desk.buffer)
      ensures !panicked ==> Idle() && Linked(log.desk.hs) && old(chain.hs) <= log.desk.hs && (log.fitted ==> chain.lazy.Fits())
      ensures !panicked && event.None? ==> chain.hs == log.desk.hs && (old(Apart()) ==> Apart())
      ensures !panicked && event.Some? ==> log.desk.pending.Some? && Takeover(log.desk.hs, log.desk.pending.value, event.value, chain.hs) == Intact
      ensures !panicked && event.Some? ==> WasJustified(log, |old(chain.hs)|)
      ensures !panicked ==> Totalling(shelved, log.desk, |old(chain.hs)|, event.Some?, store.best.Keys) == Intact
    {
      ghost var lo := |chain.hs|;
      var entries, pending;
      panicked, entries, pending := HandleAll(batch);
      event, log := None, BatchLog(DeskNow(pending), beaten, chain.lazy.Fits());
      if !panicked {
        panicked, event, log := Finish(entries, pending, lo);
      }
    }

    /** Conclude the batch and come to rest. */
    method Finish(entries: seq<Entry>, pending: Option<Fork>, ghost lo: nat) returns (panicked: bool, event: Option<ReorgEvent>, ghost log: BatchLog)
      requires Seal(lo, entries, pending) == Intact && Room(0)
      modifies this`calls, this`buffer, store, chain`baseHeight, chain`byId, chain`hs, chain`ss
      modifies chain.lazy`headers, chain.lazy`scores, chain.lazy`strayed, chain.lazy`window, chain.lazy`calm
      ensures lo <= |old(chain.hs)| && log == BatchLog(old(DeskNow(pending)), beaten, log.fitted)
      ensures log.fitted ==> old(chain.lazy.Fits()) && (!chain.light ==> !panicked)
      ensures old(chain.lazy.Fits() && Coverage(chain.lazy.window, chain.law.rules, floor, top) == Intact) ==> log.fitted
      ensures log.fitted ==> Answer(Circumstances(), log.desk, panicked, event.Some?) == Intact
      ensures !panicked ==> Idle() && Swept(log.desk.buffer) && Linked(log.desk.hs) && (log.fitted ==> chain.lazy.Fits())
      ensures !panicked && event.None? ==> chain.hs == old(chain.hs) && (old(Apart()) ==> Apart())
      ensures !panicked && event.Some? ==> pending.Some? && Takeover(old(chain.hs), pending.value, event.value, chain.hs) == Intact
      ensures !panicked && event.Some? ==> WasJustified(log, lo)
      ensures !panicked ==> Totalling(shelved, log.desk, lo, event.Some?, store.best.Keys) == Intact
    {
      ghost var desk, fits := DeskNow(pending), chain.lazy.Fits();
      ghost var slots, stored := store.best.Keys, store.primary.Keys;
      Foundations(lo, entries, pending);
      panicked, event := Conclude(entries, pending, lo);
      log := BatchLog(desk, beaten, chain.lazy.Fits());
      if !panicked {
        Totals(slots, shelved, desk, stored, known, lo, event.Some?, store.best.Keys);
        if event.Some? {
          JustifiedStill(chain.law.rules, chain.light, desk.hs, fits, floor, lo, beaten, pending.value, desk.hs, log.fitted);
        }
        Rest();
      }
    }

    /** The reorganisation in the log was a justified one. */
    ghost predicate WasJustified(log: BatchLog, start: nat)
      requires log.desk.pending.Some?
      reads chain
    {
      exists floor: nat :: Justification(chain.law.rules, chain.light, log.desk.hs, log.fitted, floor, start, log.beaten, log.desk.pending.value) == Intact
    }

    lemma OldSlots()
      requires Idle()
      ensures Heights(chain.hs) <= store.best.Keys
    {
      OpenIdle();
      forall i | 0 <= i < |chain.hs|
        ensures chain.hs[i].height in store.best
      {
        IdleSlots(i);
      }
    }

    /**
     The branch that took over had more work than the chain when it was chosen, and the chain's
     score is now that work. What the batch appended after the choice was not compared.
     */
    ghost predicate Surpassed(log: BatchLog, start: nat)
      requires log.desk.pending.Some?
      reads chain
    {
      var rules, origin, branch := chain.law.rules, Origin(chain.light, chain.hs), log.desk.pending.value.branch;
      && start <= log.beaten <= |log.desk.hs| && branch != [] && chain.ss != []
      && Work(rules, origin, Last(branch)) > Weight(rules, origin, log.desk.hs[..log.beaten])
      && Last(chain.ss) == Work(rules, origin, Last(branch))
    }

    // ---- Between batches ----

    /**
     Peers and clients read whatever heights they like, in any number: each answer is exact, and the
     next batch finds everything as the last one left it.
     */
    method ReadBack(heights: seq<nat>) returns (found: seq<Option<Header>>)
      requires Idle()
      modifies chain.lazy`headers, chain.lazy`strayed
      ensures Idle() && |found| == |heights| && chain.lazy.Fits() == old(chain.lazy.Fits())
      ensures forall i :: 0 <= i < |heights| ==>
                if chain.lazy.Fits() then found[i] == ChainSpec.HeaderAt(chain.hs, heights[i])
                else found[i].None? || found[i] == ChainSpec.HeaderAt(chain.hs, heights[i])
    {
      found := [];
      for i := 0 to |heights|
        invariant Idle() && |found| == i && chain.lazy.Fits() == old(chain.lazy.Fits())
        invariant forall j :: 0 <= j < i ==>
                    if chain.lazy.Fits() then found[j] == ChainSpec.HeaderAt(chain.hs, heights[j])
                    else found[j].None? || found[j] == ChainSpec.HeaderAt(chain.hs, heights[j])
      {
        var h := ReadOne(heights[i]);
        found := found + [h];
      }
    }

    method ReadOne(height: nat) returns (h: Option<Header>)
      requires Idle()
      modifies chain.lazy`headers, chain.lazy`strayed
      ensures Idle() && chain.lazy.Fits() == old(chain.lazy.Fits())
      ensures if chain.lazy.Fits() then h == ChainSpec.HeaderAt(chain.hs, height) else h.None? || h == ChainSpec.HeaderAt(chain.hs, height)
    {
      OpenIdle();
      OpenBooks(|chain.hs|, []);
      ghost var page := Page(|chain.hs|, []);
      h := chain.HeaderAt(height);
      WeakerLedger(page, chain.lazy.Fits());
    }

    // ---- Before the first batch and after the last ----

    /** A pipeline over a chain that the store holds is ready for its first batch. */
    lemma StartsIdle()
      requires Tidy() && chain.Sound() && chain.lazy.loader == store && store.Keyed()
      requires rows <= store.primary.Keys
      requires Startup.Holds(store, chain.hs, chain.ss) && requests.Bounded() && (chain.lazy.Fits() ==> chain.lazy.calm)
      requires chain.lazy.Fits() ==> AllWork(chain.law.rules, Origin(chain.light, chain.hs), store.scores)
      ensures Idle()
    {
      chain.Linkage();
      var page := Page(|chain.hs|, []);
      forall i | 0 <= i < |chain.hs|
        ensures Slotted(page.books, chain.hs[i])
      {
        assert store.ReadHeaderAt(chain.hs[0].height + i) == Some(chain.hs[i]);
        assert chain.hs[i].height == chain.hs[0].height + i;
        Startup.SlotNames(store, chain.hs[i].height);
      }
      CloseLedger(page);
    }

    /** A restart reads the slots back as this chain exactly when none lies outside it. */
    lemma ReadBackIff(slots: Startup.Slots)
      requires Idle() && Startup.ScanOf(store.best, slots)
      ensures slots == Startup.SlotsOf(chain.hs) <==> Within(store.best.Keys, chain.hs)
    {
      IdleLinked();
      if chain.hs == [] {
        assert slots != [] ==> slots[0].0 in store.best;
      } else {
        assert Startup.SlotsAgree(store.best, chain.hs) by {
          OpenIdle();
          forall i | 0 <= i < |chain.hs|
            ensures Get(store.best, chain.hs[i].height) == Some(IdOf(chain.hs[i]))
          {
            IdleSlots(i);
          }
        }
        Startup.RestoreIsExact(store.best, slots, chain.hs);
      }
    }

    /**
     What a restart finds: the same chain with the same scores, provided that no slot lies outside
     it and that a light client did not start at height one.
     */
    lemma SurvivesRestart()
      requires Idle() && chain.lazy.Fits() && Within(store.best.Keys, chain.hs)
      requires chain.light == (chain.hs != [] && chain.hs[0].height > 1)
      ensures Startup.Persisted(chain.law, store, chain.hs, chain.ss)
      ensures AllWork(chain.law.rules, Origin(chain.light, chain.hs), store.scores)
    {
      OpenIdle();
      OpenBooks(|chain.hs|, []);
      LedgerKeyed(Page(|chain.hs|, []));
      chain.Lawfulness();
      chain.Shape();
      OpenTrail(chain.Now().trail);
      HoldsChain();
    }

    lemma HoldsChain()
      requires Idle() && chain.lazy.Fits() && Within(store.best.Keys, chain.hs)
      ensures Startup.Holds(store, chain.hs, chain.ss)
    {
      OpenIdle();
      IdleLinked();
      forall i | 0 <= i < |chain.hs|
        ensures store.ReadHeaderAt(chain.hs[0].height + i) == Some(chain.hs[i])
        ensures |chain.ss| == |chain.hs| && store.ReadScoreAt(chain.hs[0].height + i) == Some(chain.ss[i])
      {
        IdleSlots(i);
        assert chain.hs[i].height == chain.hs[0].height + i;
      }
      OpenBooks(|chain.hs|, []);
    }
  }

  /**
   From the store to the first batch: restore the chain, wire the caches, audit the linkage and
   process a batch. A store that holds a chain yields a pipeline that is idle over that chain, and
   with caches of the right size the batch keeps every promise.
   */
  method RestartAndProcess(law: Law, store: ModifierStore, slots: Startup.Slots, lazy: LazyHeaderStore, oracle: nat -> Env, timer: nat -> nat,
                           batch: seq<Header>, ghost hs: seq<Header>, ghost ss: seq<nat>, ghost deepest: nat)
    returns (pipeline: ValidationPipeline, panicked: bool, event: Option<ReorgEvent>, ghost log: BatchLog)
    requires Startup.ScanOf(store.best, slots) && Startup.Persisted(law, store, hs, ss)
    requires AllWork(law.rules, Origin(hs != [] && hs[0].height > 1, hs), store.scores)
    requires lazy.Valid() && lazy.headers.entries == [] && lazy.scores.entries == []
    modifies store, lazy
    ensures fresh(pipeline) && pipeline.store == store && pipeline.chain.law == law
    ensures pipeline.Circumstances() == Office(law, hs != [] && hs[0].height > 1, oracle, timer)
    ensures !panicked ==> pipeline.Idle() && hs <= log.desk.hs
    ensures !panicked && event.None? ==> pipeline.chain.hs == log.desk.hs
    ensures !panicked && event.Some? ==>
              log.desk.pending.Some? && Reorganised(log.desk.hs, log.desk.pending.value, event.value, pipeline.chain.hs)
    ensures log.fitted ==>
              && log.desk == TakenAll(pipeline.Circumstances(), CleanDesk(hs, old(store.primary), old(store.scores)), batch)
              && CalledFor(pipeline.Circumstances(), CleanDesk(hs, old(store.primary), old(store.scores)), batch, log.desk.pending)
              && Answers(pipeline.Circumstances(), log.desk, panicked, event.Some?)
              && (!panicked ==> pipeline.chain.hs == Final(pipeline.Circumstances(), log.desk))
    ensures (&& deepest <= TipHeight(hs)
             && AllShallow(hs, KnownIds(old(store.primary), batch), batch, deepest)
             && TipHeight(hs) + |batch| + MAX_FORK_WALK - Reach(law.rules, deepest) < old(lazy.Capacity())) ==> log.fitted
    ensures log.fitted && !pipeline.chain.light ==> !panicked && Accepted(law, pipeline.chain.hs)
    ensures log.fitted && !panicked ==> pipeline.ScoresAreWork()
    ensures !panicked ==> store.best.Keys == old(store.best.Keys) + log.desk.forks + Heights(log.desk.hs) + Heights(pipeline.chain.hs)
  {
    pipeline := Boot(law, store, slots, lazy, oracle, timer, hs, ss);
    panicked, event, log := pipeline.ProcessHeaders(batch, deepest);
  }

  /** The desk of a node that has just started. */
  ghost function CleanDesk(hs: seq<Header>, primary: map<Id, Header>, scores: map<Id, nat>): Desk {
    Desk(hs, Lru(8192, []), primary, scores.Keys, {}, None, 0, map[])
  }

  method Boot(law: Law, store: ModifierStore, slots: Startup.Slots, lazy: LazyHeaderStore, oracle: nat -> Env, timer: nat -> nat,
              ghost hs: seq<Header>, ghost ss: seq<nat>)
    returns (pipeline: ValidationPipeline)
    requires Startup.ScanOf(store.best, slots) && Startup.Persisted(law, store, hs, ss)
    requires AllWork(law.rules, Origin(hs != [] && hs[0].height > 1, hs), store.scores)
    requires lazy.Valid() && lazy.headers.entries == [] && lazy.scores.entries == []
    modifies lazy
    ensures fresh(pipeline) && fresh(pipeline.chain) && fresh(pipeline.requests) && pipeline.store == store && pipeline.chain.lazy == lazy
    ensures pipeline.Idle() && lazy.Fits() && lazy.Capacity() == old(lazy.Capacity())
    ensures pipeline.chain.law == law && pipeline.chain.hs == hs && pipeline.chain.ss == ss
    ensures pipeline.Circumstances() == Office(law, hs != [] && hs[0].height > 1, oracle, timer)
    ensures pipeline.DeskNow(None) == CleanDesk(hs, store.primary, store.scores)
  {
    var chain, verdict := Startup.Start(law, store, slots, lazy, hs, ss);
    pipeline := Assemble(chain, store, oracle, timer);
  }

  method Assemble(chain: HeaderChain, store: ModifierStore, oracle: nat -> Env, timer: nat -> nat) returns (pipeline: ValidationPipeline)
    requires chain.Sound() && chain.lazy.loader == store && store.Keyed() && chain.lazy.calm && chain.lazy.Fits()
    requires Startup.Holds(store, chain.hs, chain.ss) && AllWork(chain.law.rules, Origin(chain.light, chain.hs), store.scores)
    ensures fresh(pipeline) && fresh(pipeline.requests) && pipeline.store == store && pipeline.chain == chain
    ensures pipeline.Idle() && pipeline.oracle == oracle && pipeline.timer == timer
    ensures pipeline.DeskNow(None) == CleanDesk(chain.hs, store.primary, store.scores)
  {
    var requests := new ParentRequests();
    pipeline := new ValidationPipeline(chain, store, requests, oracle, timer);
    pipeline.StartsIdle();
  }

  lemma InEitherOrder(a: set<nat>, b: set<nat>, c: set<nat>)
    ensures a + b + c == a + c + b
  {
  }

  lemma SlotsAfter(shelved: set<nat>, hs: seq<Header>, desk: Desk, event: Option<ReorgEvent>, now: seq<Header>, after: set<nat>)
    requires Totalling(shelved, desk, |hs|, event.Some?, after) == Intact
    requires Heights(hs) <= shelved && hs <= desk.hs
    requires event.None? ==> now == desk.hs
    requires event.Some? ==> desk.pending.Some? && Reorganised(desk.hs, desk.pending.value, event.value, now)
    ensures after == shelved + desk.forks + Heights(desk.hs) + Heights(now)
  {
    OpenTotalling(shelved, desk, |hs|, event.Some?, after);
    assert desk.hs == hs + desk.hs[|hs|..];
    HeightsAdd(hs, desk.hs[|hs|..]);
    if event.Some? {
      var keep := desk.pending.value.forkPoint - desk.hs[0].height + 1;
      HeightsAdd(desk.hs[..keep], desk.pending.value.branch);
      assert desk.hs == desk.hs[..keep] + desk.hs[keep..];
      HeightsAdd(desk.hs[..keep], desk.hs[keep..]);
    }
  }

  /** No slot lies outside the chain. */
  ghost predicate Within(slots: set<nat>, hs: seq<Header>) {
    forall h :: h in slots ==> hs != [] && hs[0].height <= h <= TipHeight(hs)
  }

  lemma WithinItself(hs: seq<Header>)
    requires Linked(hs)
    ensures Within(Heights(hs), hs)
  {
    forall i | 0 <= i < |hs|
      ensures hs[0].height <= hs[i].height <= TipHeight(hs)
    {
      assert hs[i].height == hs[0].height + i;
    }
  }

  /**
   After a batch there are slots outside the chain exactly if some were there before, or a fork
   header took one, or a reorganisation made the chain shorter.
   */
  lemma NoneStranded(shelved: set<nat>, desk: Desk, event: Option<ReorgEvent>, now: seq<Header>)
    requires Linked(desk.hs)
    requires event.None? ==> now == desk.hs
    requires event.Some? ==> desk.pending.Some? && Reorganised(desk.hs, desk.pending.value, event.value, now)
    requires Linked(now)
    ensures Within(shelved + desk.forks + Heights(desk.hs) + Heights(now), now) <==>
              Within(shelved, now) && Within(desk.forks, now) && TipHeight(desk.hs) <= TipHeight(now)
  {
    WithinItself(now);
    WithinItself(desk.hs);
    if desk.hs != [] {
      assert Last(desk.hs).height == TipHeight(desk.hs);
      assert Last(desk.hs).height in Heights(desk.hs);
      assert now[0] == desk.hs[0];
    }
    var all := shelved + desk.forks + Heights(desk.hs) + Heights(now);
    if Within(all, now) {
      assert desk.hs != [] ==> Last(desk.hs).height in all;
    }
  }

  /** A fork header leaves a slot outside the chain exactly if it takes an empty one there. */
  lemma ForkWithinIff(books: Books, hs: seq<Header>, h: Header, score: nat)
    ensures Within(books.WithFork(h, score).best.Keys, hs) <==>
              Within(books.best.Keys, hs) && (h.height in books.best || HeaderAt(hs, h.height).Some?)
  {
    assert books.WithFork(h, score).best.Keys == books.best.Keys + {h.height};
  }

  /** A reorganisation that ends below the old tip leaves the slot of that tip behind. */
  lemma ShorterReorgStrandsSlots(l: Ledger, keep: nat, branch: seq<Header>, hs: seq<Header>)
    requires l.Seal() == Intact && l.lo + |l.entries| == |l.hs| && Linked(l.hs)
    requires 0 < keep <= |l.hs| && hs == l.hs[..keep] + branch && |hs| < |l.hs|
    ensures !Within(l.books.best.Keys + Heights(Written(l.entries)) + Heights(branch), hs)
  {
    OpenLedger(l);
    var n := |l.hs| - 1;
    assert l.hs[n].height == TipHeight(l.hs) > TipHeight(hs);
    if l.entries == [] {
      assert Slotted(l.books, l.hs[n]);
    } else {
      var last := |l.entries| - 1;
      assert Written(l.entries)[last] == l.entries[last].header == l.hs[l.lo + last];
    }
    assert l.hs[n].height in l.books.best.Keys + Heights(Written(l.entries)) + Heights(branch);
  }

  lemma WithinAll(a: set<nat>, b: set<nat>, c: set<nat>, hs: seq<Header>)
    ensures Within(a + b + c, hs) <==> Within(a, hs) && Within(b, hs) && Within(c, hs)
  {
  }

  lemma StretchWithin(hs: seq<Header>, lo: nat, now: seq<Header>)
    requires Linked(hs) && lo < |hs| && now != [] && now[0].height <= hs[0].height + lo
    ensures Within(Heights(hs[lo..]), now) <==> TipHeight(hs) <= TipHeight(now)
  {
    var rest := hs[lo..];
    forall i | 0 <= i < |rest|
      ensures rest[i].height == hs[0].height + lo + i
    {
      assert hs[lo + i].height == hs[0].height + lo + i;
    }
    assert rest[|rest| - 1].height == TipHeight(hs);
    assert rest[|rest| - 1].height in Heights(rest);
  }

  /** The slots that a reorganisation leaves, in terms of what it starts from. */
  lemma ReorgWithinIff(l: Ledger, fork: Fork, event: ReorgEvent, now: seq<Header>)
    requires l.Seal() == Intact && l.lo + |l.entries| == |l.hs| && Linked(l.hs) && Linked(now)
    requires Reorganised(l.hs, fork, event, now)
    ensures Within(l.books.best.Keys + Heights(l.hs[l.lo..]) + Heights(fork.branch), now) <==>
              Within(l.books.best.Keys, now) && TipHeight(l.hs) <= fork.forkPoint + |fork.branch|
    ensures Takeover(l.hs, fork, event, now) == Intact
  {
    WithinAll(l.books.best.Keys, Heights(l.hs[l.lo..]), Heights(fork.branch), now);
    var keep := fork.forkPoint - l.hs[0].height + 1;
    assert now[0] == l.hs[0] && now[keep..] == fork.branch;
    StretchWithin(now, keep, now);
    if l.lo < |l.hs| {
      StretchWithin(l.hs, l.lo, now);
    } else {
      OpenLedger(l);
      var tip := l.hs[|l.hs| - 1];
      assert Slotted(l.books, tip) && tip.height == TipHeight(l.hs);
      assert Within(l.books.best.Keys, now) ==> tip.height in l.books.best.Keys && tip.height <= TipHeight(now);
      assert l.hs[l.lo..] == [];
    }
  }

  lemma FinalIs(o: Office, d: Desk, event: Option<ReorgEvent>, now: seq<Header>)
    requires event.Some? <==> Reorganises(o, d)
    requires event.None? ==> now == d.hs
    requires event.Some? ==> d.pending.Some? && Reorganised(d.hs, d.pending.value, event.value, now)
    ensures now == Final(o, d)
  {
  }

  lemma OriginAfter(light: bool, was: seq<Header>, fork: Fork, event: ReorgEvent, now: seq<Header>)
    requires Reorganised(was, fork, event, now)
    ensures Origin(light, now) == Origin(light, was) && now != [] && Last(now) == Last(fork.branch)
  {
  }

  ghost function Above(h: Option<Header>, tip: nat): Option<Header> {
    if h.Some? && h.value.height > tip then h else None
  }

  ghost predicate Stale(entries: seq<(Id, Header)>, k: Id, tip: nat) {
    exists j :: 0 <= j < |entries| && entries[j].0 == k && entries[j].1.height <= tip
  }

  lemma StaleIff(buffer: Lru<Id, Header>, k: Id, tip: nat)
    requires buffer.Valid()
    ensures Stale(buffer.entries, k, tip) <==> buffer.Peek(k).Some? && buffer.Peek(k).value.height <= tip
  {
    if Stale(buffer.entries, k, tip) {
      var j :| 0 <= j < |buffer.entries| && buffer.entries[j].0 == k && buffer.entries[j].1.height <= tip;
      buffer.PeekAt(j);
    }
  }

  lemma StalePush(entries: seq<(Id, Header)>, e: (Id, Header), k: Id, tip: nat)
    ensures Stale(entries + [e], k, tip) <==> Stale(entries, k, tip) || (k == e.0 && e.1.height <= tip)
  {
    if Stale(entries, k, tip) {
      var j :| 0 <= j < |entries| && entries[j].0 == k && entries[j].1.height <= tip;
      assert (entries + [e])[j] == entries[j];
    }
    if k == e.0 && e.1.height <= tip {
      assert (entries + [e])[|entries|] == e;
    }
  }
}
