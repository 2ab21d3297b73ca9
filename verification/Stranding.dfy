/**
 A batch that leaves a BEST_CHAIN slot above the tip. A new node receives six headers in one
 batch, sorted by height: a chain of four and a fork of two that leaves it at genesis.

   first <- second <- third <- fourth
        \- other <- next

 The fork is chosen when `next` arrives, at a moment when the chain ends with `second`. By the end
 of the batch the chain has grown past it; the reorganisation is carried out all the same, and the
 slot of `fourth` stays behind.
 */
module Stranding {
  import opened Headers
  import opened Difficulty
  import opened LruCache
  import opened ChainSpec
  import opened ChainProofs
  import opened Branches
  import opened Intake
  import opened Store
  import opened LazyStore
  import opened HeaderChains
  import opened Ledgers
  import opened Pipelines
  import Startup

  function Child(parent: Header, body: nat): Header {
    Header(IdOf(parent), parent.height + 1, parent.timestamp + 1, parent.nBits, body)
  }

  function Second(first: Header): Header { Child(first, 0) }
  function Third(first: Header): Header { Child(Second(first), 0) }
  function Fourth(first: Header): Header { Child(Third(first), 0) }
  function Other(first: Header): Header { Child(first, 1) }
  function Next(first: Header): Header { Child(Other(first), 0) }

  function Batch(first: Header): seq<Header> {
    [first, Second(first), Other(first), Next(first), Third(first), Fourth(first)]
  }

  /** The nBits do not change after a header of this height. */
  predicate Plain(rules: Rules, height: nat) {
    !V2Override(rules, height) && !Recalculates(rules, height)
  }

  /** A full node on whose network these six headers are valid. */
  ghost predicate Stage(o: Office, first: Header) {
    var rules := o.law.rules;
    && o.law == LawOf(rules) && !o.light
    && IsGenesis(rules, first) && rules.Difficulty(first) > 0
    && Plain(rules, 1) && Plain(rules, 2) && Plain(rules, 3)
    && (forall h :: h in Batch(first) ==> rules.powOk(h))
    && (forall k: nat, h :: h in Batch(first) ==> o.oracle(k).votesOk(h))
    && (forall k: nat, i: nat :: o.oracle(k).clock(i) >= first.timestamp + 3)
  }

  function SmallNetwork(): Rules {
    Rules(128, 120_000, 8, 1, None, 0, None, 1_200_000, None, None, n => n, d => if d < 0 then 0 else d, h => true)
  }

  /** There are such networks: epochs of 128 blocks, as on the test network. */
  lemma StageIsSet()
    ensures Stage(Office(LawOf(SmallNetwork()), false, k => Env(i => 3, h => true), k => 0), Header(GENESIS_PARENT, 1, 0, 1, 0))
  {
    assert !IsMultipleOf(1, 128) && !IsMultipleOf(2, 128) && !IsMultipleOf(3, 128);
  }

  /** A child of the tip with the parent's nBits is valid. */
  lemma NoFault(o: Office, first: Header, hs: seq<Header>, h: Header, k: nat, i: nat)
    requires Stage(o, first) && h in Batch(first) && hs != [] && h == Child(Last(hs), h.body)
    requires 1 <= Last(hs).height <= 3 && Last(hs).timestamp <= first.timestamp + 2
    ensures ReorgFault(o.law, hs, h, o.oracle(k), i).None? && ChildFault(o.law, false, hs, h, o.oracle(k)).None?
  {
    assert Plain(o.law.rules, Last(hs).height);
    assert o.law.next(hs) == ExpectedNBits(o.law.rules, hs) == Bits(Last(hs).nBits);
    assert o.oracle(k).clock(i) >= h.timestamp && o.oracle(k).clock(0) >= h.timestamp;
    assert o.law.rules.powOk(h) && o.oracle(k).votesOk(h);
  }

  lemma TakenPush(o: Office, d: Desk, batch: seq<Header>, h: Header)
    requires d.buffer.Valid()
    ensures TakenAll(o, d, batch + [h]) == Taken(o, TakenAll(o, d, batch), h)
  {
    assert (batch + [h])[..|batch|] == batch;
  }

  /** A child of the tip extends the chain. */
  lemma Extends(o: Office, first: Header, d: Desk, h: Header)
    requires Stage(o, first) && h in Batch(first) && d.hs != [] && h == Child(Last(d.hs), h.body)
    requires 1 <= TipHeight(d.hs) == Last(d.hs).height <= 3 && Last(d.hs).timestamp <= first.timestamp + 2
    requires d.buffer == Lru(BUFFER_CAPACITY, [])
    ensures d.buffer.Valid() && Taken(o, d, h) == Intake.Extended(d, h)
  {
    NoFault(o, first, d.hs, h, d.calls, 0);
    ContinuesOne(o, d, h);
  }

  lemma TakesFirst(o: Office, first: Header, d: Desk)
    requires Stage(o, first) && d.hs == [] && d.buffer == Lru(BUFFER_CAPACITY, [])
    ensures d.buffer.Valid() && Taken(o, d, first) == Intake.Extended(d, first)
  {
    ContinuesOne(o, d, first);
  }

  lemma ChildWork(rules: Rules, parent: Header, body: nat)
    ensures Work(rules, None, Child(parent, body)) == rules.Difficulty(parent) + Work(rules, None, parent)
  {
  }

  /** The first fork header is as heavy as the tip, so nothing is chosen. */
  lemma TakesOther(o: Office, first: Header, d: Desk)
    requires Stage(o, first) && d.hs == [first, Second(first)] && d.buffer.Valid()
    ensures var next := Taken(o, d, Other(first));
            && next.hs == d.hs && next.buffer == d.buffer && next.pending == d.pending
            && IdOf(Other(first)) in next.scored && Peeks(next.primary, Other(first))
  {
    var other := Other(first);
    assert Verdict(o, d, other) == Forked(1);
    ChildWork(o.law.rules, first, 0);
    ChildWork(o.law.rules, first, 1);
  }

  /** The second one is heavier; the walk back through the store ends at the first header. */
  lemma TakesNext(o: Office, first: Header, d: Desk)
    requires Stage(o, first) && d.hs == [first, Second(first)] && d.buffer.Valid() && d.pending.None?
    requires IdOf(Other(first)) in d.scored && Peeks(d.primary, Other(first))
    ensures var next := Taken(o, d, Next(first));
            && next.hs == d.hs && next.buffer == d.buffer && next.pending == Some(Fork(1, [Other(first), Next(first)]))
  {
    var other, next := Other(first), Next(first);
    var stored := d.primary[IdOf(next) := next];
    assert Verdict(o, d, next) == Rejected(ParentNotFound(IdOf(other)));
    ChildWork(o.law.rules, first, 0);
    ChildWork(o.law.rules, first, 1);
    ChildWork(o.law.rules, other, 0);
    FindsTwo(d.hs, stored, other, next, MAX_FORK_WALK);
  }

  lemma FindsTwo(hs: seq<Header>, primary: map<Id, Header>, lower: Header, upper: Header, steps: nat)
    requires steps > 1 && HeightOf(hs, lower.parentId).Some? && lower.height == HeightOf(hs, lower.parentId).value + 1
    requires upper.parentId == IdOf(lower) && HeightOf(hs, IdOf(lower)).None? && Peeks(primary, lower)
    ensures FindFork(hs, primary, upper, steps) == Some(Fork(lower.height - 1, [lower, upper]))
  {
    assert FindFork(hs, primary, lower, steps - 1) == Some(Fork(lower.height - 1, [lower]));
    assert [lower] + [upper] == [lower, upper];
  }

  ghost predicate Peeks(primary: map<Id, Header>, h: Header) {
    IdOf(h) in primary && primary[IdOf(h)] == h
  }

  lemma TakesTwo(o: Office, first: Header, d: Desk)
    requires Stage(o, first) && d.hs == [] && d.buffer == Lru(BUFFER_CAPACITY, [])
    ensures d.buffer.Valid()
    ensures TakenAll(o, d, [first, Second(first)]) == Intake.Extended(Intake.Extended(d, first), Second(first))
  {
    TakesFirst(o, first, d);
    TakenPush(o, d, [], first);
    TakenPush(o, d, [first], Second(first));
    Extends(o, first, Intake.Extended(d, first), Second(first));
    assert [] + [first] == [first] && [first] + [Second(first)] == [first, Second(first)];
  }

  lemma TakesThree(o: Office, first: Header, d: Desk)
    requires Stage(o, first) && d.hs == [] && d.buffer == Lru(BUFFER_CAPACITY, []) && d.pending.None?
    ensures d.buffer.Valid()
    ensures var mid := TakenAll(o, d, [first, Second(first), Other(first)]);
            && mid.hs == [first, Second(first)] && mid.buffer == d.buffer && mid.pending.None?
            && IdOf(Other(first)) in mid.scored && Peeks(mid.primary, Other(first))
  {
    TakesTwo(o, first, d);
    var two := [first, Second(first)];
    TakenPush(o, d, two, Other(first));
    TakesOther(o, first, TakenAll(o, d, two));
    assert two + [Other(first)] == [first, Second(first), Other(first)];
  }

  lemma TakesFork(o: Office, first: Header, d: Desk)
    requires Stage(o, first) && d.hs == [] && d.buffer == Lru(BUFFER_CAPACITY, []) && d.pending.None?
    ensures d.buffer.Valid()
    ensures var mid := TakenAll(o, d, [first, Second(first), Other(first), Next(first)]);
            && mid.hs == [first, Second(first)] && mid.buffer == d.buffer
            && mid.pending == Some(Fork(1, [Other(first), Next(first)]))
  {
    TakesThree(o, first, d);
    var three := [first, Second(first), Other(first)];
    TakenPush(o, d, three, Next(first));
    TakesNext(o, first, TakenAll(o, d, three));
    assert three + [Next(first)] == [first, Second(first), Other(first), Next(first)];
  }

  /** At the end the chain has four headers and the fork of two is still the one to switch to. */
  lemma TakesBatch(o: Office, first: Header, d: Desk)
    requires Stage(o, first) && d.hs == [] && d.buffer == Lru(BUFFER_CAPACITY, []) && d.pending.None?
    ensures d.buffer.Valid()
    ensures var end := TakenAll(o, d, Batch(first));
            && end.hs == [first, Second(first), Third(first), Fourth(first)]
            && end.pending == Some(Fork(1, [Other(first), Next(first)]))
  {
    TakesFork(o, first, d);
    var four := [first, Second(first), Other(first), Next(first)];
    var mid := TakenAll(o, d, four);
    TakenPush(o, d, four, Third(first));
    Extends(o, first, mid, Third(first));
    TakenPush(o, d, four + [Third(first)], Fourth(first));
    Extends(o, first, Intake.Extended(mid, Third(first)), Fourth(first));
    assert four + [Third(first)] + [Fourth(first)] == Batch(first);
  }

  /** The switch is carried out and the chain ends below its old tip. */
  lemma Switches(o: Office, first: Header, d: Desk)
    requires Stage(o, first) && d.hs == [first, Second(first), Third(first), Fourth(first)]
    requires d.pending == Some(Fork(1, [Other(first), Next(first)]))
    ensures Reorganises(o, d) && Final(o, d) == [first, Other(first), Next(first)]
  {
    var branch, env := [Other(first), Next(first)], o.oracle(d.calls);
    assert d.hs[..1] == [first] && [first] + branch[..0] == [first] && [first] + branch[..1] == [first, Other(first)];
    NoFault(o, first, [first], Other(first), d.calls, 0);
    NoFault(o, first, [first, Other(first)], Next(first), d.calls, 1);
    assert BranchFault(o.law, [first], branch, env, 2).None?;
    assert BranchFault(o.law, [first], branch, env, 1).None?;
    assert BranchFault(o.law, [first], branch, env, 0).None?;
  }

  lemma Outcome(o: Office, first: Header)
    requires Stage(o, first)
    ensures var end := TakenAll(o, CleanDesk([], map[], map[]), Batch(first));
            && end.hs == [first, Second(first), Third(first), Fourth(first)]
            && Reorganises(o, end) && Final(o, end) == [first, Other(first), Next(first)]
  {
    var start := CleanDesk([], map[], map[]);
    TakesBatch(o, first, start);
    Switches(o, first, TakenAll(o, start, Batch(first)));
  }

  lemma SlotLeft(slots: set<nat>, forks: set<nat>, first: Header)
    requires first.height == 1
    requires slots == {} + forks + Heights([first, Second(first), Third(first), Fourth(first)]) + Heights([first, Other(first), Next(first)])
    ensures 4 in slots && !Within(slots, [first, Other(first), Next(first)])
  {
    assert [first, Second(first), Third(first), Fourth(first)][3].height == 4;
  }

  lemma NothingStored(law: Law, store: ModifierStore)
    requires law == LawOf(law.rules) && store.primary == map[] && store.scores == map[] && store.best == map[]
    ensures Startup.ScanOf(store.best, []) && Startup.Persisted(law, store, [], []) && AllWork(law.rules, None, store.scores)
  {
  }

  /** A new node that receives this batch ends with a slot above its tip. */
  method FreshNode(law: Law, store: ModifierStore, lazy: LazyHeaderStore, oracle: nat -> Env, timer: nat -> nat, first: Header)
    returns (pipeline: ValidationPipeline, panicked: bool, event: Option<ReorgEvent>)
    requires store.primary == map[] && store.scores == map[] && store.best == map[]
    requires lazy.Valid() && lazy.headers.entries == [] && lazy.scores.entries == []
    requires Stage(Office(law, false, oracle, timer), first)
    requires |Batch(first)| + MAX_FORK_WALK - Reach(law.rules, 0) < lazy.Capacity()
    modifies store, lazy
    ensures !panicked && event.Some? && pipeline.Idle() && pipeline.store == store
    ensures pipeline.chain.hs == [first, Other(first), Next(first)]
    ensures 4 in store.best && !Within(store.best.Keys, pipeline.chain.hs)
  {
    ghost var log;
    NothingStored(law, store);
    AllShallowAtZero([], KnownIds(map[], Batch(first)), Batch(first));
    Outcome(Office(law, false, oracle, timer), first);
    pipeline, panicked, event, log := RestartAndProcess(law, store, [], lazy, oracle, timer, Batch(first), [], [], 0);
    SlotLeft(store.best.Keys, log.desk.forks, first);
  }
}
