/**
 What a batch of headers does, as a function of the state before it: which header extends the
 chain, which is stored as a fork, which waits, and which reorganisation is chosen. The pipeline
 does exactly this as long as everything it looks at can be read back.
 */
module Intake {
  import opened Seals
  import opened Headers
  import opened Store
  import opened LruCache
  import opened ChainSpec
  import opened ChainProofs
  import opened Requests
  import opened Branches

  /** What stays the same during a batch: the rules, the clocks and the kind of node. */
  datatype Office = Office(law: Law, light: bool, oracle: nat -> Env, timer: nat -> nat)

  /** Chain, orphans, stored headers, chosen reorganisation, calls made so far and requests. */
  datatype Desk = Desk(
    hs: seq<Header>,
    buffer: Lru<Id, Header>,
    primary: map<Id, Header>,
    scored: set<Id>,
    forks: set<nat>,
    pending: Option<Fork>,
    calls: nat,
    inFlight: map<Id, nat>)

  /** The work of the tip of `hs`. */
  ghost function Weight(rules: Rules, origin: Option<Header>, hs: seq<Header>): nat {
    if hs == [] then 0 else Work(rules, origin, Last(hs))
  }

  /** The header's ancestry carries more work than the chain. */
  ghost predicate Outweighs(o: Office, hs: seq<Header>, h: Header) {
    Work(o.law.rules, Origin(o.light, hs), h) > Weight(o.law.rules, Origin(o.light, hs), hs)
  }

  ghost function Verdict(o: Office, d: Desk, h: Header): Appended {
    Append(o.law, o.light, d.hs, h, o.oracle(d.calls))
  }

  ghost function Extended(d: Desk, h: Header): Desk {
    d.(hs := d.hs + [h], calls := d.calls + 1, inFlight := After(d.inFlight, Arrived(IdOf(h))))
  }

  /** Offer the orphan that waits for `key`, and if it extends the chain the one that waits for it, and so on. */
  ghost function Drained(o: Office, d: Desk, key: Id): (r: Desk)
    requires d.buffer.Valid()
    ensures r.buffer.Valid()
    decreases |d.buffer.entries|
  {
    if !d.buffer.Has(key) then d
    else
      d.buffer.PopKeeps(key);
      var h, rest := d.buffer.Peek(key).value, d.(buffer := d.buffer.Pop(key));
      if Verdict(o, rest, h).Extended? then Drained(o, Extended(rest, h), IdOf(h)) else rest.(calls := rest.calls + 1)
  }

  ghost function Stored(d: Desk, h: Header): Desk {
    d.(primary := d.primary[IdOf(h) := h], scored := d.scored + {IdOf(h)}, forks := d.forks + {h.height})
  }

  /** A fork is chosen if it is heavier than the chain and none was chosen before. */
  ghost function Chosen(o: Office, d: Desk, h: Header, fork: Option<Fork>): Desk {
    if d.pending.None? && Outweighs(o, d.hs, h) then d.(pending := fork) else d
  }

  ghost function Parked(d: Desk, h: Header): (r: Desk)
    requires d.buffer.Valid()
    ensures r.buffer.Valid()
  {
    d.buffer.PutKeeps(h.parentId, h);
    d.(buffer := d.buffer.Put(h.parentId, h))
  }

  /** A header whose parent is not on the chain: it continues a stored fork, or waits for its parent. */
  ghost function Orphaned(o: Office, d: Desk, h: Header): (r: Desk)
    requires d.buffer.Valid()
    ensures r.buffer.Valid()
  {
    if h.parentId in d.scored then
      var s := Stored(d, h);
      Chosen(o, s, h, FindFork(s.hs, s.primary, h, MAX_FORK_WALK))
    else
      Parked(d.(inFlight := After(d.inFlight, Ask(h.parentId, o.timer(d.calls)))), h)
  }

  /** A header that did not extend the chain. */
  ghost function PutAside(o: Office, d: Desk, h: Header, r: Appended): (next: Desk)
    requires d.buffer.Valid()
    ensures next.buffer.Valid()
  {
    match r
    case Extended => d
    case Forked(f) => Chosen(o, Stored(d.(inFlight := After(d.inFlight, Arrived(IdOf(h)))), h), h, Some(Fork(f, [h])))
    case Rejected(e) =>
      if e.ParentNotFound? then Orphaned(o, d, h)
      else if e.InvalidGenesisParent? || e.InvalidGenesisHeight? then Parked(d, h)
      else d
  }

  /** A header of which the chain has said `r`. */
  ghost function Treated(o: Office, d: Desk, h: Header, r: Appended): (next: Desk)
    requires d.buffer.Valid()
    ensures next.buffer.Valid()
  {
    if r.Extended? then Drained(o, Extended(d, h), IdOf(h)) else PutAside(o, d.(calls := d.calls + 1), h, r)
  }

  /** One header. */
  ghost function Taken(o: Office, d: Desk, h: Header): (r: Desk)
    requires d.buffer.Valid()
    ensures r.buffer.Valid()
  {
    if HeightOf(d.hs, IdOf(h)).Some? then d else Treated(o, d, h, Verdict(o, d, h))
  }

  /** A whole batch. */
  ghost function TakenAll(o: Office, d: Desk, batch: seq<Header>): (r: Desk)
    requires d.buffer.Valid()
    ensures r.buffer.Valid()
  {
    if batch == [] then d else Taken(o, TakenAll(o, d, batch[..|batch| - 1]), Last(batch))
  }

  /** What the chain says to the reorganisation that was chosen, if one was. */
  ghost function Asked(o: Office, d: Desk): Option<Reorged> {
    if d.pending.None? then None
    else Some(DeepReorg(o.law, d.hs, d.pending.value.forkPoint, d.pending.value.branch, o.oracle(d.calls)))
  }

  ghost predicate Reorganises(o: Office, d: Desk) {
    Asked(o, d).Some? && Asked(o, d).value.Switched?
  }

  /** The chain that a batch ends with. */
  ghost function Final(o: Office, d: Desk): seq<Header> {
    if Reorganises(o, d) then AfterDeep(d.hs, d.pending.value.forkPoint, d.pending.value.branch, Asked(o, d).value) else d.hs
  }

  // ---- The same, as sealed relations between desks ----

  /** The chain was offered a header, and if that extended it nothing waits for it any more. */
  ghost predicate IsOffered(o: Office, d: Desk, h: Header, r: Appended, next: Desk) {
    r == Verdict(o, d, h) && next == if r.Extended? then Extended(d, h) else d.(calls := d.calls + 1)
  }

  ghost function Offering(o: Office, d: Desk, h: Header, r: Appended, next: Desk): Health {
    if forall k: int {:trigger Unsealed((d, next), k)} :: Unsealed((d, next), k) ==> IsOffered(o, d, h, r, next) then Intact else Broken
  }

  lemma OpenOffering(o: Office, d: Desk, h: Header, r: Appended, next: Desk)
    requires Offering(o, d, h, r, next) == Intact
    ensures IsOffered(o, d, h, r, next)
  {
    assert Unsealed((d, next), 0);
  }

  /** A header that extended the chain is no longer asked for. */
  ghost function Noting(inFlight: map<Id, nat>, h: Header, r: Appended, now: map<Id, nat>): Health {
    if forall k: int {:trigger Unsealed((inFlight, now), k)} ::
         Unsealed((inFlight, now), k) ==> now == if r.Extended? then After(inFlight, Arrived(IdOf(h))) else inFlight
    then Intact else Broken
  }

  lemma NotedArrival(inFlight: map<Id, nat>, h: Header, now: map<Id, nat>)
    requires now == After(inFlight, Arrived(IdOf(h)))
    ensures Noting(inFlight, h, ChainSpec.Extended, now) == Intact
  {
  }

  lemma NotedNothing(inFlight: map<Id, nat>, h: Header, r: Appended)
    requires !r.Extended?
    ensures Noting(inFlight, h, r, inFlight) == Intact
  {
  }

  /** `r` is what the chain says to the header. */
  ghost function Judging(law: Law, light: bool, hs: seq<Header>, h: Header, env: Env, r: Appended): Health {
    if forall k: int {:trigger Unsealed((hs, h), k)} :: Unsealed((hs, h), k) ==> r == Append(law, light, hs, h, env) then Intact else Broken
  }

  lemma OfferedSo(o: Office, d: Desk, h: Header, r: Appended, hs: seq<Header>, inFlight: map<Id, nat>)
    requires Judging(o.law, o.light, d.hs, h, o.oracle(d.calls), r) == Intact && hs == AfterAppend(d.hs, h, r)
    requires Noting(d.inFlight, h, r, inFlight) == Intact
    ensures Offering(o, d, h, r, d.(hs := hs, calls := d.calls + 1, inFlight := inFlight)) == Intact
  {
    assert Unsealed((d.hs, h), 0);
    assert Unsealed((d.inFlight, inFlight), 0);
  }

  /** One orphan was offered: `next` is whose children come next. */
  ghost predicate OneDrained(o: Office, d: Desk, key: Id, next: Option<Id>, r: Desk) {
    && d.buffer.Has(key)
    && var h, rest := d.buffer.Peek(key).value, d.(buffer := d.buffer.Pop(key));
       if Verdict(o, rest, h).Extended? then next == Some(IdOf(h)) && r == Extended(rest, h)
       else next.None? && r == rest.(calls := rest.calls + 1)
  }

  ghost function DrainStep(o: Office, d: Desk, key: Id, next: Option<Id>, r: Desk): Health {
    if forall k: int {:trigger Unsealed((d, r), k)} :: Unsealed((d, r), k) ==> OneDrained(o, d, key, next, r) then Intact else Broken
  }

  /** Draining `d` from `key` on comes to what is left to do: draining `r` from `next` on. */
  ghost predicate DrainsLike(o: Office, d: Desk, key: Id, next: Option<Id>, r: Desk) {
    d.buffer.Valid() && r.buffer.Valid() && Drained(o, d, key) == if next.Some? then Drained(o, r, next.value) else r
  }

  ghost function Draining(o: Office, d: Desk, key: Id, next: Option<Id>, r: Desk): Health {
    if forall k: int {:trigger Unsealed((d, r), k)} :: Unsealed((d, r), k) ==> DrainsLike(o, d, key, next, r) then Intact else Broken
  }

  lemma DrainStarts(o: Office, d: Desk, key: Id)
    requires d.buffer.Valid()
    ensures Draining(o, d, key, Some(key), d) == Intact
  {
  }

  lemma DrainGoesOn(o: Office, d: Desk, key: Id, m: Desk, at: Id, next: Option<Id>, r: Desk)
    requires Draining(o, d, key, Some(at), m) == Intact && DrainStep(o, m, at, next, r) == Intact && r.buffer.Valid()
    ensures Draining(o, d, key, next, r) == Intact
  {
    assert Unsealed((d, m), 0) && Unsealed((m, r), 0);
    m.buffer.PopKeeps(at);
  }

  lemma DrainEnds(o: Office, d: Desk, key: Id, next: Option<Id>, r: Desk)
    requires Draining(o, d, key, next, r) == Intact && (next.Some? ==> !r.buffer.Has(next.value))
    ensures Draining(o, d, key, None, r) == Intact
  {
    assert Unsealed((d, r), 0);
  }

  ghost predicate IsPutAside(o: Office, d: Desk, h: Header, r: Appended, next: Desk) {
    d.buffer.Valid() && next == PutAside(o, d, h, r)
  }

  ghost function Aside(o: Office, d: Desk, h: Header, r: Appended, next: Desk): Health {
    if forall k: int {:trigger Unsealed((d, next), k)} :: Unsealed((d, next), k) ==> IsPutAside(o, d, h, r, next) then Intact else Broken
  }

  lemma DrainedOne(o: Office, d: Desk, key: Id, h: Header, r: Appended, next: Desk)
    requires d.buffer.Has(key) && h == d.buffer.Peek(key).value
    requires Offering(o, d.(buffer := d.buffer.Pop(key)), h, r, next) == Intact
    ensures DrainStep(o, d, key, if r.Extended? then Some(IdOf(h)) else None, next) == Intact
  {
    OpenOffering(o, d.(buffer := d.buffer.Pop(key)), h, r, next);
  }

  /** The header was stored as a fork, and nothing else. */
  ghost function Storing(d: Desk, h: Header, next: Desk): Health {
    if forall k: int {:trigger Unsealed((d, next), k)} :: Unsealed((d, next), k) ==> next == Stored(d, h) then Intact else Broken
  }

  lemma OpenStoring(d: Desk, h: Header, next: Desk)
    requires Storing(d, h, next) == Intact
    ensures next == Stored(d, h)
  {
    assert Unsealed((d, next), 0);
  }

  lemma AsideFork(o: Office, d: Desk, h: Header, f: nat, inFlight: map<Id, nat>, s: Desk, better: bool)
    requires d.buffer.Valid() && better == Outweighs(o, d.hs, h) && inFlight == After(d.inFlight, Arrived(IdOf(h)))
    requires Storing(d.(inFlight := inFlight), h, s) == Intact
    ensures Aside(o, d, h, Forked(f), s.(pending := if better && d.pending.None? then Some(Fork(f, [h])) else d.pending)) == Intact
  {
    OpenStoring(d.(inFlight := inFlight), h, s);
  }

  ghost predicate IsOrphaned(o: Office, d: Desk, h: Header, next: Desk) {
    d.buffer.Valid() && next == Orphaned(o, d, h)
  }

  ghost function Orphaning(o: Office, d: Desk, h: Header, next: Desk): Health {
    if forall k: int {:trigger Unsealed((d, next), k)} :: Unsealed((d, next), k) ==> IsOrphaned(o, d, h, next) then Intact else Broken
  }

  lemma OrphanExtends(o: Office, d: Desk, h: Header, s: Desk, fork: Option<Fork>)
    requires d.buffer.Valid() && h.parentId in d.scored && Storing(d, h, s) == Intact
    requires fork == if d.pending.None? && Outweighs(o, d.hs, h) then FindFork(d.hs, s.primary, h, MAX_FORK_WALK) else d.pending
    ensures Orphaning(o, d, h, s.(pending := fork)) == Intact
  {
    OpenStoring(d, h, s);
  }

  lemma OrphanWaits(o: Office, d: Desk, h: Header, inFlight: map<Id, nat>)
    requires d.buffer.Valid() && h.parentId !in d.scored && inFlight == After(d.inFlight, Ask(h.parentId, o.timer(d.calls)))
    ensures Orphaning(o, d, h, d.(buffer := d.buffer.Put(h.parentId, h), inFlight := inFlight)) == Intact
  {
  }

  lemma AsideOrphan(o: Office, d: Desk, h: Header, r: Appended, next: Desk)
    requires r.Rejected? && r.error.ParentNotFound? && Orphaning(o, d, h, next) == Intact
    ensures Aside(o, d, h, r, next) == Intact
  {
    assert Unsealed((d, next), 0);
  }

  lemma AsideParked(o: Office, d: Desk, h: Header, r: Appended)
    requires d.buffer.Valid() && r.Rejected? && (r.error.InvalidGenesisParent? || r.error.InvalidGenesisHeight?)
    ensures Aside(o, d, h, r, d.(buffer := d.buffer.Put(h.parentId, h))) == Intact
  {
  }

  lemma AsideDropped(o: Office, d: Desk, h: Header, r: Appended)
    requires d.buffer.Valid() && r.Rejected? && !Misplaced(r.error)
    ensures Aside(o, d, h, r, d) == Intact
  {
  }

  ghost predicate IsTaken(o: Office, d: Desk, h: Header, next: Desk) {
    d.buffer.Valid() && next == Taken(o, d, h)
  }

  ghost function Took(o: Office, d: Desk, h: Header, next: Desk): Health {
    if forall k: int {:trigger Unsealed((d, next), k)} :: Unsealed((d, next), k) ==> IsTaken(o, d, h, next) then Intact else Broken
  }

  lemma TookKnown(o: Office, d: Desk, h: Header)
    requires d.buffer.Valid() && HeightOf(d.hs, IdOf(h)).Some?
    ensures Took(o, d, h, d) == Intact
  {
  }

  /** A header was offered and, if it extended the chain, what waited for it was drained. */
  ghost predicate IsGrown(o: Office, d: Desk, h: Header, r: Appended, next: Desk) {
    && d.buffer.Valid()
    && r == Verdict(o, d, h)
    && next == if r.Extended? then Drained(o, Extended(d, h), IdOf(h)) else d.(calls := d.calls + 1)
  }

  ghost function Growth(o: Office, d: Desk, h: Header, r: Appended, next: Desk): Health {
    if forall k: int {:trigger Unsealed((d, next), k)} :: Unsealed((d, next), k) ==> IsGrown(o, d, h, r, next) then Intact else Broken
  }

  lemma GrowthPlain(o: Office, d: Desk, h: Header, r: Appended, next: Desk)
    requires d.buffer.Valid() && Offering(o, d, h, r, next) == Intact && !r.Extended?
    ensures Growth(o, d, h, r, next) == Intact
  {
    OpenOffering(o, d, h, r, next);
  }

  lemma GrowthDrained(o: Office, d: Desk, h: Header, m: Desk, next: Desk)
    requires d.buffer.Valid() && Offering(o, d, h, ChainSpec.Extended, m) == Intact && Draining(o, m, IdOf(h), None, next) == Intact
    ensures Growth(o, d, h, ChainSpec.Extended, next) == Intact
  {
    OpenOffering(o, d, h, ChainSpec.Extended, m);
    assert Unsealed((m, next), 0);
  }

  lemma OpenGrowth(o: Office, d: Desk, h: Header, r: Appended, next: Desk)
    requires Growth(o, d, h, r, next) == Intact
    ensures IsGrown(o, d, h, r, next)
  {
    assert Unsealed((d, next), 0);
  }

  /** A header that was not on the chain was offered and, unless it extended the chain, set aside. */
  lemma TookBoth(o: Office, d: Desk, h: Header, r: Appended, m: Desk, next: Desk)
    requires HeightOf(d.hs, IdOf(h)).None? && Growth(o, d, h, r, m) == Intact
    requires if r.Extended? then next == m else Aside(o, m, h, r, next) == Intact
    ensures Took(o, d, h, next) == Intact
  {
    OpenGrowth(o, d, h, r, m);
    if !r.Extended? {
      OpenAside(o, m, h, r, next);
      TakenAside(o, d, h);
    }
    CloseTook(o, d, h, next);
  }

  lemma OpenAside(o: Office, d: Desk, h: Header, r: Appended, next: Desk)
    requires Aside(o, d, h, r, next) == Intact
    ensures d.buffer.Valid() && next == PutAside(o, d, h, r)
  {
    assert Unsealed((d, next), 0);
  }

  lemma CloseTook(o: Office, d: Desk, h: Header, next: Desk)
    requires d.buffer.Valid() && next == Taken(o, d, h)
    ensures Took(o, d, h, next) == Intact
  {
  }

  lemma TakenAside(o: Office, d: Desk, h: Header)
    requires d.buffer.Valid() && HeightOf(d.hs, IdOf(h)).None? && !Verdict(o, d, h).Extended?
    ensures Taken(o, d, h) == PutAside(o, d.(calls := d.calls + 1), h, Verdict(o, d, h))
  {
  }

  ghost predicate IsTakenAll(o: Office, d: Desk, batch: seq<Header>, next: Desk) {
    d.buffer.Valid() && next == TakenAll(o, d, batch)
  }

  ghost function TookAll(o: Office, d: Desk, batch: seq<Header>, next: Desk): Health {
    if forall k: int {:trigger Unsealed((d, next), k)} :: Unsealed((d, next), k) ==> IsTakenAll(o, d, batch, next) then Intact else Broken
  }

  lemma TookNone(o: Office, d: Desk, batch: seq<Header>)
    requires d.buffer.Valid()
    ensures TookAll(o, d, batch[..0], d) == Intact
  {
  }

  lemma TookOneMore(o: Office, d: Desk, batch: seq<Header>, i: nat, m: Desk, next: Desk)
    requires i < |batch| && TookAll(o, d, batch[..i], m) == Intact && Took(o, m, batch[i], next) == Intact
    ensures TookAll(o, d, batch[..i + 1], next) == Intact
  {
    assert Unsealed((d, m), 0) && Unsealed((m, next), 0);
    assert batch[..i + 1][..i] == batch[..i] && Last(batch[..i + 1]) == batch[i];
  }

  lemma OpenTookAll(o: Office, d: Desk, batch: seq<Header>, next: Desk)
    requires TookAll(o, d, batch, next) == Intact
    ensures d.buffer.Valid() && next == TakenAll(o, d, batch)
  {
    assert Unsealed((d, next), 0);
  }

  // ---- A batch that continues the chain ----

  /** Each header of the batch extends the chain and the headers before it, and no orphan waits for any of them. */
  ghost predicate Continues(o: Office, d: Desk, batch: seq<Header>) {
    forall i {:trigger batch[i]} :: 0 <= i < |batch| ==>
      && Append(o.law, o.light, d.hs + batch[..i], batch[i], o.oracle(d.calls + i)).Extended?
      && !d.buffer.Has(IdOf(batch[i]))
  }

  /** What extends a linked chain leaves it linked and was not on it before. */
  lemma ExtendsLinked(law: Law, light: bool, hs: seq<Header>, h: Header, env: Env)
    requires Linked(hs) && Append(law, light, hs, h, env).Extended?
    ensures Linked(hs + [h]) && HeightOf(hs, IdOf(h)).None?
  {
    if hs != [] {
      assert Last(hs).height == TipHeight(hs);
      ExtendLinked(hs, h);
    }
  }

  lemma {:induction false} ContinuesLinked(o: Office, d: Desk, batch: seq<Header>)
    requires Linked(d.hs) && Continues(o, d, batch)
    ensures Linked(d.hs + batch)
  {
    if batch == [] {
      assert d.hs + batch == d.hs;
    } else {
      var n := |batch| - 1;
      ContinuesPrefix(o, d, batch);
      ContinuesLinked(o, d, batch[..n]);
      ContinuesAt(o, d, batch, n);
      ExtendsLinked(o.law, o.light, d.hs + batch[..n], batch[n], o.oracle(d.calls + n));
      assert d.hs + batch[..n] + [batch[n]] == d.hs + batch;
    }
  }

  ghost function ArrivedAll(inFlight: map<Id, nat>, batch: seq<Header>): map<Id, nat> {
    if batch == [] then inFlight else After(ArrivedAll(inFlight, batch[..|batch| - 1]), Arrived(IdOf(Last(batch))))
  }

  ghost function Continued(d: Desk, batch: seq<Header>): Desk {
    d.(hs := d.hs + batch, calls := d.calls + |batch|, inFlight := ArrivedAll(d.inFlight, batch))
  }

  lemma ContinuesPrefix(o: Office, d: Desk, batch: seq<Header>)
    requires Continues(o, d, batch) && batch != []
    ensures Continues(o, d, batch[..|batch| - 1])
  {
    var init := batch[..|batch| - 1];
    assert forall i {:trigger init[i]} :: 0 <= i < |init| ==> init[i] == batch[i] && init[..i] == batch[..i];
  }

  lemma ContinuesOne(o: Office, d: Desk, h: Header)
    requires d.buffer.Valid() && Verdict(o, d, h).Extended? && HeightOf(d.hs, IdOf(h)).None? && !d.buffer.Has(IdOf(h))
    ensures Taken(o, d, h) == Extended(d, h)
  {
  }

  lemma ContinuesAt(o: Office, d: Desk, batch: seq<Header>, i: nat)
    requires Continues(o, d, batch) && i < |batch|
    ensures Append(o.law, o.light, d.hs + batch[..i], batch[i], o.oracle(d.calls + i)).Extended? && !d.buffer.Has(IdOf(batch[i]))
  {
  }

  lemma LastIsNew(o: Office, d: Desk, batch: seq<Header>)
    requires Linked(d.hs) && Continues(o, d, batch) && batch != []
    ensures HeightOf(d.hs + batch[..|batch| - 1], IdOf(Last(batch))).None?
  {
    var n := |batch| - 1;
    ContinuesPrefix(o, d, batch);
    ContinuesLinked(o, d, batch[..n]);
    ContinuesAt(o, d, batch, n);
    ExtendsLinked(o.law, o.light, d.hs + batch[..n], batch[n], o.oracle(d.calls + n));
  }

  lemma LastContinues(o: Office, d: Desk, batch: seq<Header>)
    requires Continues(o, d, batch) && batch != []
    ensures var before := Continued(d, batch[..|batch| - 1]);
            Verdict(o, before, Last(batch)).Extended? && !before.buffer.Has(IdOf(Last(batch)))
  {
    var n := |batch| - 1;
    ContinuesAt(o, d, batch, n);
    Extending(o, Continued(d, batch[..n]), d.hs + batch[..n], d.calls + n, batch[n]);
  }

  lemma Extending(o: Office, d: Desk, hs: seq<Header>, calls: nat, h: Header)
    requires d.hs == hs && d.calls == calls && Append(o.law, o.light, hs, h, o.oracle(calls)).Extended?
    ensures Verdict(o, d, h).Extended?
  {
  }

  lemma ContinuedPush(d: Desk, batch: seq<Header>)
    requires batch != []
    ensures Extended(Continued(d, batch[..|batch| - 1]), Last(batch)) == Continued(d, batch)
  {
    assert d.hs + batch[..|batch| - 1] + [Last(batch)] == d.hs + batch;
  }

  /** Such a batch is appended whole and changes nothing else. */
  lemma {:induction false} AppendedWhole(o: Office, d: Desk, batch: seq<Header>)
    requires d.buffer.Valid() && Linked(d.hs) && Continues(o, d, batch)
    ensures TakenAll(o, d, batch) == Continued(d, batch)
  {
    if batch == [] {
      assert d.hs + batch == d.hs;
    } else {
      var init := batch[..|batch| - 1];
      ContinuesPrefix(o, d, batch);
      AppendedWhole(o, d, init);
      LastContinues(o, d, batch);
      LastIsNew(o, d, batch);
      ContinuesOne(o, Continued(d, init), Last(batch));
      ContinuedPush(d, batch);
    }
  }

  lemma ValidExtends(o: Office, hs: seq<Header>, h: Header, call: nat)
    requires !o.light && NextValid(o.law, hs, h) && Cleared(o.law.rules, h, o.oracle(call), 0)
    requires hs != [] ==> Last(hs).height == TipHeight(hs)
    ensures Append(o.law, o.light, hs, h, o.oracle(call)).Extended?
  {
  }

  lemma AcceptedContinues(o: Office, d: Desk, batch: seq<Header>, i: nat)
    requires !o.light && Accepted(o.law, d.hs + batch) && i < |batch| && Cleared(o.law.rules, batch[i], o.oracle(d.calls + i), 0)
    ensures Append(o.law, o.light, d.hs + batch[..i], batch[i], o.oracle(d.calls + i)).Extended?
  {
    var all, n := d.hs + batch, |d.hs| + i;
    assert all[..n] == d.hs + batch[..i] && all[n] == batch[i];
    NextOfAccepted(o.law, all, n);
    if n > 0 {
      assert Last(all[..n]) == all[n - 1] && all[n - 1].height == all[0].height + (n - 1);
    }
    ValidExtends(o, d.hs + batch[..i], batch[i], d.calls + i);
  }

  /** A batch that makes a valid chain of what the node has, and that no orphan waits for, is appended whole. */
  lemma ValidBatchAppended(o: Office, d: Desk, batch: seq<Header>)
    requires d.buffer.Valid() && !o.light && Accepted(o.law, d.hs + batch)
    requires forall i {:trigger batch[i]} :: 0 <= i < |batch| ==> Cleared(o.law.rules, batch[i], o.oracle(d.calls + i), 0) && !d.buffer.Has(IdOf(batch[i]))
    ensures TakenAll(o, d, batch) == Continued(d, batch)
  {
    forall i: nat | i < |batch|
      ensures Append(o.law, o.light, d.hs + batch[..i], batch[i], o.oracle(d.calls + i)).Extended?
    {
      AcceptedContinues(o, d, batch, i);
    }
    if d.hs + batch != [] {
      PrefixLinked(d.hs + batch, |d.hs|);
      assert (d.hs + batch)[..|d.hs|] == d.hs;
    }
    AppendedWhole(o, d, batch);
  }

  // ---- Which reorganisation is chosen ----

  /** A chain of linked headers, and rows under their own ids. */
  ghost predicate InOrder(d: Desk) {
    d.buffer.Valid() && Linked(d.hs) && RowsKeyed(d.primary, map[])
  }

  /**
   The header is off the chain and not on its tip; the work along its ancestry is more than that of
   the tip; and the fork leads to it from the chain through at most a thousand stored headers, the
   last of which has a score.
   */
  ghost predicate Prefers(o: Office, d: Desk, h: Header, fork: Fork) {
    && d.hs != [] && h !in d.hs && h.parentId != IdOf(Last(d.hs))
    && Work(o.law.rules, Origin(o.light, d.hs), h) > Work(o.law.rules, Origin(o.light, d.hs), Last(d.hs))
    && |fork.branch| <= 1000
    && LeadsTo(d.hs, d.primary[IdOf(h) := h], fork, h)
    && (HeightOf(d.hs, h.parentId).None? ==> h.parentId in d.scored)
  }

  /** The branch that a header offers as a better chain, if it does. */
  ghost function Offered(o: Office, d: Desk, h: Header): Option<Fork> {
    if HeightOf(d.hs, IdOf(h)).Some? || !Outweighs(o, d.hs, h) then None
    else
      match Verdict(o, d, h)
      case Forked(f) => Some(Fork(f, [h]))
      case Rejected(ParentNotFound(_)) =>
        if h.parentId in d.scored then FindFork(d.hs, d.primary[IdOf(h) := h], h, MAX_FORK_WALK) else None
      case _ => None
  }

  lemma {:induction false} DrainedKeepsPending(o: Office, d: Desk, key: Id)
    requires d.buffer.Valid()
    ensures Drained(o, d, key).pending == d.pending
    decreases |d.buffer.entries|
  {
    if d.buffer.Has(key) {
      d.buffer.PopKeeps(key);
      var h, rest := d.buffer.Peek(key).value, d.(buffer := d.buffer.Pop(key));
      if Verdict(o, rest, h).Extended? {
        DrainedKeepsPending(o, Extended(rest, h), IdOf(h));
      }
    }
  }

  lemma TakenChooses(o: Office, d: Desk, h: Header)
    requires d.buffer.Valid()
    ensures Taken(o, d, h).pending == if d.pending.Some? then d.pending else Offered(o, d, h)
  {
    if HeightOf(d.hs, IdOf(h)).None? && Verdict(o, d, h).Extended? {
      DrainedKeepsPending(o, Extended(d, h), IdOf(h));
      ExtendedIsNoFork(o, d, h);
    }
  }

  lemma ExtendedIsNoFork(o: Office, d: Desk, h: Header)
    requires Verdict(o, d, h).Extended?
    ensures Offered(o, d, h).None?
  {
  }

  /** A header is off the chain exactly if its id is not found on it. */
  lemma OffChainIff(hs: seq<Header>, h: Header)
    requires Linked(hs)
    ensures HeightOf(hs, IdOf(h)).None? <==> h !in hs
  {
    if h in hs {
      var j :| 0 <= j < |hs| && hs[j] == h;
      assert h.height == hs[0].height + j;
    }
  }

  /** What a chain says to a header that is not on its tip. */
  lemma OffTip(o: Office, d: Desk, h: Header)
    requires Linked(d.hs) && d.hs != [] && h.parentId != IdOf(Last(d.hs))
    ensures HeightOf(d.hs, h.parentId).None? ==> Verdict(o, d, h) == Rejected(ParentNotFound(h.parentId))
    ensures HeightOf(d.hs, h.parentId).Some? ==>
              Verdict(o, d, h) == if h.height == HeightOf(d.hs, h.parentId).value + 1 then Forked(h.height - 1)
                                  else Rejected(NonSequentialHeight(HeightOf(d.hs, h.parentId).value + 1, h.height))
  {
  }

  lemma OnTip(o: Office, d: Desk, h: Header)
    requires d.hs == [] || h.parentId == IdOf(Last(d.hs))
    ensures !Verdict(o, d, h).Forked? && (Verdict(o, d, h).Rejected? ==> !Verdict(o, d, h).error.ParentNotFound?)
  {
  }

  /** A header whose parent is on the chain leads there by itself. */
  lemma AloneLeads(hs: seq<Header>, primary: map<Id, Header>, fork: Fork, h: Header)
    requires HeightOf(hs, h.parentId).Some?
    ensures LeadsTo(hs, primary, fork, h) <==> fork.branch == [h] && HeightOf(hs, h.parentId) == Some(fork.forkPoint) && h.height == fork.forkPoint + 1
  {
    if LeadsTo(hs, primary, fork, h) && |fork.branch| > 1 {
      assert Slot(|fork.branch| - 1);
    }
  }

  /** What is offered is exactly what is preferred. */
  lemma OfferedIff(o: Office, d: Desk, h: Header, fork: Fork)
    requires InOrder(d)
    ensures Offered(o, d, h) == Some(fork) <==> Prefers(o, d, h, fork)
  {
    OffChainIff(d.hs, h);
    if d.hs == [] || h.parentId == IdOf(Last(d.hs)) {
      OnTip(o, d, h);
    } else if HeightOf(d.hs, h.parentId).Some? {
      OffTip(o, d, h);
      AloneLeads(d.hs, d.primary[IdOf(h) := h], fork, h);
    } else {
      OffTip(o, d, h);
      FoundIff(d.hs, d.primary[IdOf(h) := h], fork, h);
    }
  }

  lemma FoundIff(hs: seq<Header>, primary: map<Id, Header>, fork: Fork, h: Header)
    requires RowsKeyed(primary, map[])
    ensures FindFork(hs, primary, h, 1000) == Some(fork) <==> |fork.branch| <= 1000 && LeadsTo(hs, primary, fork, h)
  {
    if FindFork(hs, primary, h, 1000) == Some(fork) {
      FindForkSound(hs, primary, map[], h, 1000);
    }
    if |fork.branch| <= 1000 && LeadsTo(hs, primary, fork, h) {
      FindForkComplete(hs, primary, map[], fork, h, 1000);
    }
  }

  /** With nothing chosen before, a header's fork is chosen exactly if the header makes it preferable. */
  lemma TakenPrefers(o: Office, d: Desk, h: Header, fork: Fork)
    requires InOrder(d) && d.pending.None?
    ensures Taken(o, d, h).pending == Some(fork) <==> Prefers(o, d, h, fork)
  {
    TakenChooses(o, d, h);
    OfferedIff(o, d, h, fork);
  }

  // ---- What every header keeps ----

  lemma {:induction false} DrainedKeepsOrder(o: Office, d: Desk, key: Id)
    requires InOrder(d)
    ensures InOrder(Drained(o, d, key)) && d.hs <= Drained(o, d, key).hs
    decreases |d.buffer.entries|
  {
    if d.buffer.Has(key) {
      d.buffer.PopKeeps(key);
      var h, rest := d.buffer.Peek(key).value, d.(buffer := d.buffer.Pop(key));
      if Verdict(o, rest, h).Extended? {
        ExtendsLinked(o.law, o.light, rest.hs, h, o.oracle(rest.calls));
        DrainedKeepsOrder(o, Extended(rest, h), IdOf(h));
      }
    }
  }

  lemma TakenKeepsOrder(o: Office, d: Desk, h: Header)
    requires InOrder(d)
    ensures InOrder(Taken(o, d, h)) && d.hs <= Taken(o, d, h).hs
  {
    if HeightOf(d.hs, IdOf(h)).None? {
      if Verdict(o, d, h).Extended? {
        ExtendsLinked(o.law, o.light, d.hs, h, o.oracle(d.calls));
        DrainedKeepsOrder(o, Extended(d, h), IdOf(h));
      } else {
        AsideKeepsOrder(o, d.(calls := d.calls + 1), h, Verdict(o, d, h));
      }
    }
  }

  lemma AsideKeepsOrder(o: Office, d: Desk, h: Header, r: Appended)
    requires InOrder(d)
    ensures InOrder(PutAside(o, d, h, r)) && PutAside(o, d, h, r).hs == d.hs
  {
  }

  lemma {:induction false} TakenAllKeepsOrder(o: Office, d: Desk, batch: seq<Header>)
    requires InOrder(d)
    ensures InOrder(TakenAll(o, d, batch)) && d.hs <= TakenAll(o, d, batch).hs
  {
    if batch != [] {
      TakenAllKeepsOrder(o, d, batch[..|batch| - 1]);
      TakenKeepsOrder(o, TakenAll(o, d, batch[..|batch| - 1]), Last(batch));
    }
  }

  // ---- What becomes of a header ----

  /** The header is in the buffer of orphans. */
  ghost predicate Waits(b: Lru<Id, Header>, h: Header) {
    exists i :: 0 <= i < |b.entries| && b.entries[i].1 == h
  }

  lemma PopWaits(b: Lru<Id, Header>, key: Id, h: Header)
    requires Waits(b.Pop(key), h)
    ensures Waits(b, h)
  {
    if b.Has(key) {
      var rest := b.Pop(key).entries;
      var i :| 0 <= i < |rest| && rest[i].1 == h;
      assert rest[i] == b.entries[if i < b.IndexOf(key) then i else i + 1];
    }
  }

  /** Draining appends headers that were waiting and touches nothing that is stored. */
  lemma {:induction false} DrainedAppends(o: Office, d: Desk, key: Id)
    requires d.buffer.Valid()
    ensures var r := Drained(o, d, key);
            && d.hs <= r.hs && r.primary == d.primary && r.scored == d.scored && r.forks == d.forks && r.pending == d.pending
            && forall i {:trigger r.hs[i]} :: |d.hs| <= i < |r.hs| ==> Waits(d.buffer, r.hs[i])
    decreases |d.buffer.entries|
  {
    if d.buffer.Has(key) {
      d.buffer.PopKeeps(key);
      var h, rest := d.buffer.Peek(key).value, d.(buffer := d.buffer.Pop(key));
      if Verdict(o, rest, h).Extended? {
        DrainedAppends(o, Extended(rest, h), IdOf(h));
        var r := Drained(o, d, key);
        forall i | |d.hs| <= i < |r.hs|
          ensures Waits(d.buffer, r.hs[i])
        {
          if i == |d.hs| {
            assert d.buffer.entries[d.buffer.IndexOf(key)].1 == h;
          } else {
            PopWaits(d.buffer, key, r.hs[i]);
          }
        }
      }
    }
  }

  /** A header that may come next is appended, and after it only headers that were waiting; nothing that is stored changes. */
  lemma AppendsHeader(o: Office, d: Desk, h: Header)
    requires InOrder(d)
    requires if d.hs == [] then IsGenesis(o.law.rules, h) else MayFollow(o.law, !o.light, d.hs, h, o.oracle(d.calls), 0)
    ensures var r := Taken(o, d, h);
            && d.hs + [h] <= r.hs && r.primary == d.primary && r.scored == d.scored && r.forks == d.forks && r.pending == d.pending
            && forall i {:trigger r.hs[i]} :: |d.hs| < i < |r.hs| ==> Waits(d.buffer, r.hs[i])
  {
    AppendIff(o.law, o.light, d.hs, h, o.oracle(d.calls));
    ExtendsLinked(o.law, o.light, d.hs, h, o.oracle(d.calls));
    DrainedAppends(o, Extended(d, h), IdOf(h));
  }

  /** A header whose parent is on the chain, below the tip, is stored with a score, takes a slot and is no longer asked for. */
  lemma StoresFork(o: Office, d: Desk, h: Header, j: nat)
    requires InOrder(d) && h !in d.hs && j + 1 < |d.hs| && h.parentId == IdOf(d.hs[j]) && h.height == d.hs[j].height + 1
    ensures var r := Taken(o, d, h);
            r == Desk(d.hs, d.buffer, d.primary[IdOf(h) := h], d.scored + {IdOf(h)}, d.forks + {h.height}, r.pending, d.calls + 1, d.inFlight - {IdOf(h)})
  {
    OffChainIff(d.hs, h);
    HeightOfIff(d.hs, h.parentId, d.hs[j].height);
    assert d.hs[|d.hs| - 1].height == d.hs[0].height + |d.hs| - 1;
    OffTip(o, d, h);
  }

  /** A header whose parent is not on the chain but has a score is stored too. */
  lemma StoresOnFork(o: Office, d: Desk, h: Header)
    requires InOrder(d) && d.hs != [] && h !in d.hs && (forall j :: 0 <= j < |d.hs| ==> h.parentId != IdOf(d.hs[j])) && h.parentId in d.scored
    ensures var r := Taken(o, d, h);
            r == Desk(d.hs, d.buffer, d.primary[IdOf(h) := h], d.scored + {IdOf(h)}, d.forks + {h.height}, r.pending, d.calls + 1, d.inFlight)
  {
    OffChainIff(d.hs, h);
    AppendIff(o.law, o.light, d.hs, h, o.oracle(d.calls));
  }

  /** If the parent is not known at all, it is asked for and the header waits under its id. */
  lemma AwaitsParent(o: Office, d: Desk, h: Header)
    requires InOrder(d) && d.hs != [] && h !in d.hs && (forall j :: 0 <= j < |d.hs| ==> h.parentId != IdOf(d.hs[j])) && h.parentId !in d.scored
    ensures var r := Taken(o, d, h);
            && r == d.(calls := d.calls + 1, buffer := r.buffer, inFlight := After(d.inFlight, Ask(h.parentId, o.timer(d.calls + 1))))
            && r.buffer == d.buffer.Put(h.parentId, h) && r.buffer.Peek(h.parentId) == Some(h)
  {
    OffChainIff(d.hs, h);
    AppendIff(o.law, o.light, d.hs, h, o.oracle(d.calls));
    d.buffer.PutKeeps(h.parentId, h);
  }

  /** On an empty chain a header that does not claim to be the first one waits, and nobody is asked. */
  lemma AwaitsFirst(o: Office, d: Desk, h: Header)
    requires d.buffer.Valid() && d.hs == [] && (h.parentId != GENESIS_PARENT || h.height != 1)
    ensures var r := Taken(o, d, h);
            && r == d.(calls := d.calls + 1, buffer := r.buffer)
            && r.buffer == d.buffer.Put(h.parentId, h) && r.buffer.Peek(h.parentId) == Some(h)
  {
    d.buffer.PutKeeps(h.parentId, h);
  }

  /** A child of the tip that may not follow it, a fork at the wrong height and a false genesis are dropped. */
  lemma Drops(o: Office, d: Desk, h: Header)
    requires InOrder(d) && h !in d.hs
    requires if d.hs == [] then h.parentId == GENESIS_PARENT && h.height == 1 && !IsGenesis(o.law.rules, h)
             else if h.parentId == IdOf(Last(d.hs)) then !MayFollow(o.law, !o.light, d.hs, h, o.oracle(d.calls), 0)
             else exists j :: 0 <= j < |d.hs| && h.parentId == IdOf(d.hs[j]) && h.height != d.hs[j].height + 1
    ensures Taken(o, d, h) == d.(calls := d.calls + 1)
  {
    OffChainIff(d.hs, h);
    AppendIff(o.law, o.light, d.hs, h, o.oracle(d.calls));
    if d.hs == [] || h.parentId == IdOf(Last(d.hs)) {
      OnTipDrops(o, d, h);
    } else {
      var j :| 0 <= j < |d.hs| && h.parentId == IdOf(d.hs[j]) && h.height != d.hs[j].height + 1;
      HeightOfIff(d.hs, h.parentId, d.hs[j].height);
      OffTip(o, d, h);
    }
  }

  lemma OnTipDrops(o: Office, d: Desk, h: Header)
    requires if d.hs == [] then h.parentId == GENESIS_PARENT && h.height == 1 else h.parentId == IdOf(Last(d.hs))
    requires !Verdict(o, d, h).Extended?
    ensures Verdict(o, d, h).Rejected? && !Misplaced(Verdict(o, d, h).error)
  {
  }

  /** A header that is on the chain changes nothing. */
  lemma Ignores(o: Office, d: Desk, h: Header)
    requires InOrder(d) && h in d.hs
    ensures Taken(o, d, h) == d
  {
    OffChainIff(d.hs, h);
  }

  // ---- Over a batch ----

  /** The i-th header of the batch, when its turn comes, makes this fork preferable. */
  ghost predicate PrefersAt(o: Office, d: Desk, batch: seq<Header>, i: nat, fork: Fork)
    requires d.buffer.Valid()
  {
    i < |batch| && Prefers(o, TakenAll(o, d, batch[..i]), batch[i], fork)
  }

  /** None of the first `n` headers of the batch makes any fork preferable. */
  ghost predicate NonePreferred(o: Office, d: Desk, batch: seq<Header>, n: nat)
    requires d.buffer.Valid()
  {
    forall i: nat, fork: Fork :: i < n ==> !PrefersAt(o, d, batch, i, fork)
  }

  /** The fork is the first that any header of the batch makes preferable. */
  ghost predicate FirstPreferred(o: Office, d: Desk, batch: seq<Header>, fork: Fork)
    requires d.buffer.Valid()
  {
    exists i: nat :: PrefersAt(o, d, batch, i, fork) && NonePreferred(o, d, batch, i)
  }

  /** What the i-th header of the batch offers when its turn comes. */
  ghost function OfferedAt(o: Office, d: Desk, batch: seq<Header>, i: nat): Option<Fork>
    requires d.buffer.Valid() && i < |batch|
  {
    Offered(o, TakenAll(o, d, batch[..i]), batch[i])
  }

  ghost predicate NoneOffered(o: Office, d: Desk, batch: seq<Header>, n: nat)
    requires d.buffer.Valid() && n <= |batch|
  {
    forall i: nat {:trigger OfferedAt(o, d, batch, i)} :: i < n ==> OfferedAt(o, d, batch, i).None?
  }

  /** The choice after the i-th header is the choice before it, or else what the header offers. */
  lemma ChoosesAt(o: Office, d: Desk, batch: seq<Header>, i: nat)
    requires d.buffer.Valid() && i < |batch|
    ensures var chosen := TakenAll(o, d, batch[..i]).pending;
            TakenAll(o, d, batch[..i + 1]).pending == if chosen.Some? then chosen else OfferedAt(o, d, batch, i)
  {
    assert batch[..i + 1][..i] == batch[..i] && Last(batch[..i + 1]) == batch[i];
    TakenChooses(o, TakenAll(o, d, batch[..i]), batch[i]);
  }

  lemma {:induction false} NothingChosenBy(o: Office, d: Desk, batch: seq<Header>, n: nat)
    requires d.buffer.Valid() && d.pending.None? && n <= |batch| && NoneOffered(o, d, batch, n)
    ensures TakenAll(o, d, batch[..n]).pending.None?
  {
    if n > 0 {
      NothingChosenBy(o, d, batch, n - 1);
      ChoosesAt(o, d, batch, n - 1);
      assert OfferedAt(o, d, batch, n - 1).None?;
    }
  }

  lemma {:induction false} ChosenBy(o: Office, d: Desk, batch: seq<Header>, i: nat, n: nat)
    requires d.buffer.Valid() && d.pending.None? && i < n <= |batch|
    requires NoneOffered(o, d, batch, i) && OfferedAt(o, d, batch, i).Some?
    ensures TakenAll(o, d, batch[..n]).pending == OfferedAt(o, d, batch, i)
    decreases n
  {
    ChoosesAt(o, d, batch, n - 1);
    if i < n - 1 {
      ChosenBy(o, d, batch, i, n - 1);
    } else {
      NothingChosenBy(o, d, batch, i);
    }
  }

  lemma {:induction false} LeastOffer(o: Office, d: Desk, batch: seq<Header>, n: nat) returns (i: nat)
    requires d.buffer.Valid() && n <= |batch| && !NoneOffered(o, d, batch, n)
    ensures i < n && NoneOffered(o, d, batch, i) && OfferedAt(o, d, batch, i).Some?
  {
    if NoneOffered(o, d, batch, n - 1) {
      i := n - 1;
    } else {
      i := LeastOffer(o, d, batch, n - 1);
    }
  }

  lemma OnlyFirstOffer(o: Office, d: Desk, batch: seq<Header>, i: nat, j: nat)
    requires d.buffer.Valid() && i < |batch| && j < |batch|
    requires NoneOffered(o, d, batch, i) && OfferedAt(o, d, batch, i).Some? && NoneOffered(o, d, batch, j) && OfferedAt(o, d, batch, j).Some?
    ensures i == j
  {
  }

  lemma PrefersAtIff(o: Office, d: Desk, batch: seq<Header>, i: nat, fork: Fork)
    requires InOrder(d)
    ensures PrefersAt(o, d, batch, i, fork) <==> i < |batch| && OfferedAt(o, d, batch, i) == Some(fork)
  {
    if i < |batch| {
      TakenAllKeepsOrder(o, d, batch[..i]);
      OfferedIff(o, TakenAll(o, d, batch[..i]), batch[i], fork);
    }
  }

  lemma NonePreferredIff(o: Office, d: Desk, batch: seq<Header>, n: nat)
    requires InOrder(d) && n <= |batch|
    ensures NonePreferred(o, d, batch, n) <==> NoneOffered(o, d, batch, n)
  {
    if NoneOffered(o, d, batch, n) {
      forall i: nat, fork: Fork | i < n
        ensures !PrefersAt(o, d, batch, i, fork)
      {
        PrefersAtIff(o, d, batch, i, fork);
      }
    } else {
      var i := LeastOffer(o, d, batch, n);
      PrefersAtIff(o, d, batch, i, OfferedAt(o, d, batch, i).value);
    }
  }

  lemma FirstPreferredIff(o: Office, d: Desk, batch: seq<Header>, fork: Fork)
    requires InOrder(d)
    ensures FirstPreferred(o, d, batch, fork) <==>
              exists i: nat {:trigger OfferedAt(o, d, batch, i)} :: i < |batch| && OfferedAt(o, d, batch, i) == Some(fork) && NoneOffered(o, d, batch, i)
  {
    if i: nat :| PrefersAt(o, d, batch, i, fork) && NonePreferred(o, d, batch, i) {
      PrefersAtIff(o, d, batch, i, fork);
      NonePreferredIff(o, d, batch, i);
    }
    if i: nat :| i < |batch| && OfferedAt(o, d, batch, i) == Some(fork) && NoneOffered(o, d, batch, i) {
      PrefersAtIff(o, d, batch, i, fork);
      NonePreferredIff(o, d, batch, i);
    }
  }

  /** The reorganisation that a batch calls for is the first preferable one, and if there is none there is none. */
  lemma ChosenIff(o: Office, d: Desk, batch: seq<Header>, fork: Fork)
    requires InOrder(d) && d.pending.None?
    ensures TakenAll(o, d, batch).pending == Some(fork) <==> FirstPreferred(o, d, batch, fork)
  {
    FirstPreferredIff(o, d, batch, fork);
    assert batch[..|batch|] == batch;
    if NoneOffered(o, d, batch, |batch|) {
      NothingChosenBy(o, d, batch, |batch|);
    } else {
      var i := LeastOffer(o, d, batch, |batch|);
      ChosenBy(o, d, batch, i, |batch|);
      forall j: nat | j < |batch| && OfferedAt(o, d, batch, j) == Some(fork) && NoneOffered(o, d, batch, j)
        ensures j == i
      {
        OnlyFirstOffer(o, d, batch, i, j);
      }
    }
  }

  /** `pending` is the first preferable fork, or none if there is none. */
  ghost predicate CalledFor(o: Office, d: Desk, batch: seq<Header>, pending: Option<Fork>) {
    d.buffer.Valid() && forall fork: Fork :: pending == Some(fork) <==> FirstPreferred(o, d, batch, fork)
  }

  lemma CalledForFirst(o: Office, d: Desk, batch: seq<Header>)
    requires InOrder(d) && d.pending.None?
    ensures CalledFor(o, d, batch, TakenAll(o, d, batch).pending)
  {
    forall fork: Fork
      ensures TakenAll(o, d, batch).pending == Some(fork) <==> FirstPreferred(o, d, batch, fork)
    {
      ChosenIff(o, d, batch, fork);
    }
  }
}
