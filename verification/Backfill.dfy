/** The one-time backfill of cumulative scores, written in chunks and safe to kill at any point. */
module Backfill {
  import opened Seals
  import opened Headers
  import opened Store
  import opened ChainSpec
  import opened ChainProofs
  import opened Startup

  const CHUNK_SIZE: nat := 50_000

  /** The rows of a table scan, as far as they can be read. */
  predicate Readable(rules: Rules, primary: map<Id, Header>, slot: (nat, Id)) {
    slot.1 in primary && rules.decode(primary[slot.1].nBits) >= 0
  }

  ghost predicate AllReadable(rules: Rules, primary: map<Id, Header>, slots: Slots, n: nat)
    requires n <= |slots|
  {
    forall i {:trigger Readable(rules, primary, slots[i])} :: 0 <= i < n ==> Readable(rules, primary, slots[i])
  }

  function Difficulty(rules: Rules, primary: map<Id, Header>, id: Id): nat {
    if id in primary then rules.Difficulty(primary[id]) else 0
  }

  /** The score of the i-th slot; a chain that does not start at height one starts counting at zero. */
  ghost function ScoreOf(rules: Rules, primary: map<Id, Header>, slots: Slots, i: nat): nat
    requires i < |slots|
  {
    if i > 0 then ScoreOf(rules, primary, slots, i - 1) + Difficulty(rules, primary, slots[i].1)
    else if slots[0].0 == 1 then Difficulty(rules, primary, slots[0].1)
    else 0
  }

  /** `scores` after the first `n` slots have been written. */
  ghost function Overlay(scores: map<Id, nat>, rules: Rules, primary: map<Id, Header>, slots: Slots, n: nat): map<Id, nat>
    requires n <= |slots|
  {
    if n == 0 then scores
    else Overlay(scores, rules, primary, slots, n - 1)[slots[n - 1].1 := ScoreOf(rules, primary, slots, n - 1)]
  }

  datatype BackfillError = MissingHeader(height: nat) | BadBits(height: nat)

  datatype Progress = Done | Killed | Stopped(error: BackfillError)

  function RowFault(rules: Rules, primary: map<Id, Header>, slot: (nat, Id)): Option<BackfillError> {
    if slot.1 !in primary then Some(MissingHeader(slot.0))
    else if rules.decode(primary[slot.1].nBits) < 0 then Some(BadBits(slot.0))
    else None
  }

  /**
   Walk the slots in order and write their scores chunk by chunk. The process may be killed
   before any write: `alive` tells whether it lives to see the n-th. Whatever happens, what has
   been written is the scores of the first `written` slots, each once and in order, as `log` records.
   */
  method Run(rules: Rules, store: ModifierStore, slots: Slots, alive: nat -> bool)
    returns (outcome: Progress, chunks: nat, ghost written: nat, ghost log: seq<Id>)
    modifies store`scores
    ensures written <= |slots| && log == IdsOf(slots[..written])
    ensures store.scores == Overlay(old(store.scores), rules, store.primary, slots, written)
    ensures written == |slots| || written == chunks * 50_000
    ensures outcome.Done? ==> written == |slots|
    ensures outcome.Stopped? ==>
              exists k :: && 0 <= k < |slots| && RowFault(rules, store.primary, slots[k]) == Some(outcome.error)
                          && AllReadable(rules, store.primary, slots, k)
    ensures (forall n :: alive(n)) ==> (outcome.Done? <==> AllReadable(rules, store.primary, slots, |slots|))
  {
    written, chunks, log := 0, 0, [];
    var previous: nat := 0;
    var batch: seq<(Id, nat)> := [];
    for i := 0 to |slots|
      invariant AllReadable(rules, store.primary, slots, i)
      invariant written + |batch| == i && |batch| < CHUNK_SIZE && log == IdsOf(slots[..written])
      invariant if i == |slots| then batch == [] else written == chunks * CHUNK_SIZE
      invariant i > 0 ==> previous == ScoreOf(rules, store.primary, slots, i - 1)
      invariant Matches(batch, rules, store.primary, slots, written)
      invariant store.scores == Overlay(old(store.scores), rules, store.primary, slots, written)
    {
      var fault, score := NextScore(rules, store, slots, i, previous);
      if fault.Some? {
        return Stopped(fault.value), chunks, written, log;
      }
      MatchesPush(batch, rules, store.primary, slots, written, score);
      batch, previous := batch + [(slots[i].1, score)], score;
      if |batch| >= CHUNK_SIZE || i + 1 == |slots| {
        if !alive(chunks) {
          return Killed, chunks, written, log;
        }
        log := PutScores(rules, store, batch, slots, written, old(store.scores), log);
        batch, chunks, written := [], chunks + 1, i + 1;
      }
    }
    outcome := Done;
  }

  method NextScore(rules: Rules, store: ModifierStore, slots: Slots, i: nat, previous: nat) returns (fault: Option<BackfillError>, score: nat)
    requires i < |slots| && (i > 0 ==> previous == ScoreOf(rules, store.primary, slots, i - 1))
    ensures fault == RowFault(rules, store.primary, slots[i]) && (fault.None? <==> Readable(rules, store.primary, slots[i]))
    ensures fault.None? ==> score == ScoreOf(rules, store.primary, slots, i)
  {
    fault, score := RowFault(rules, store.primary, slots[i]), 0;
    if fault.None? {
      var difficulty := rules.decode(store.primary[slots[i].1].nBits);
      score := if i == 0 && slots[i].0 == 1 then difficulty else if i == 0 then 0 else previous + difficulty;
    }
  }

  ghost predicate Matches(batch: seq<(Id, nat)>, rules: Rules, primary: map<Id, Header>, slots: Slots, from: nat) {
    && from + |batch| <= |slots|
    && forall j {:trigger batch[j]} :: 0 <= j < |batch| ==> batch[j] == (slots[from + j].1, ScoreOf(rules, primary, slots, from + j))
  }

  lemma MatchesPush(batch: seq<(Id, nat)>, rules: Rules, primary: map<Id, Header>, slots: Slots, from: nat, score: nat)
    requires Matches(batch, rules, primary, slots, from) && from + |batch| < |slots|
    requires score == ScoreOf(rules, primary, slots, from + |batch|)
    ensures Matches(batch + [(slots[from + |batch|].1, score)], rules, primary, slots, from)
  {
  }

  /** The ids whose scores are written, in order. */
  ghost function IdsOf(slots: Slots): (ids: seq<Id>)
    ensures |ids| == |slots| && forall i :: 0 <= i < |slots| ==> ids[i] == slots[i].1
  {
    seq(|slots|, i requires 0 <= i < |slots| => slots[i].1)
  }

  method PutScores(ghost rules: Rules, store: ModifierStore, batch: seq<(Id, nat)>, ghost slots: Slots, ghost from: nat, ghost was: map<Id, nat>,
                   ghost before: seq<Id>)
    returns (ghost log: seq<Id>)
    requires Matches(batch, rules, store.primary, slots, from)
    requires store.scores == Overlay(was, rules, store.primary, slots, from)
    requires before == IdsOf(slots[..from])
    modifies store`scores
    ensures store.scores == Overlay(was, rules, store.primary, slots, from + |batch|)
    ensures log == IdsOf(slots[..from + |batch|])
  {
    log := before;
    for i := 0 to |batch|
      invariant log == IdsOf(slots[..from + i])
      invariant store.scores == Overlay(was, rules, store.primary, slots, from + i)
    {
      store.scores := store.scores[batch[i].0 := batch[i].1];
      log := log + [batch[i].0];
    }
  }

  /** At start-up: once the sentinel is set nothing is touched again. */
  method Migrate(rules: Rules, store: ModifierStore, slots: Slots, sentinel: bool, alive: nat -> bool, ghost hs: seq<Header>, ghost ss: seq<nat>)
    returns (migrated: bool, ghost written: nat)
    modifies store`scores
    ensures migrated && !sentinel && slots == SlotsOf(hs) && Held(rules, store.primary, hs, ss) ==> ScoresHeld(store.scores, hs, ss)
    ensures sentinel ==> migrated && store.scores == old(store.scores)
    ensures written <= |slots|
    ensures store.scores == Overlay(old(store.scores), rules, store.primary, slots, written)
    ensures migrated && !sentinel ==> written == |slots|
    ensures !sentinel && (forall n :: alive(n)) ==> (migrated <==> AllReadable(rules, store.primary, slots, |slots|))
  {
    written, migrated := 0, sentinel;
    if !sentinel {
      var outcome, chunks;
      ghost var log;
      outcome, chunks, written, log := Run(rules, store, slots, alive);
      migrated := outcome.Done?;
      if migrated && slots == SlotsOf(hs) && Held(rules, store.primary, hs, ss) {
        CompleteRunHoldsScores(old(store.scores), rules, store.primary, hs, ss);
      }
    }
  }

  // ---- Killed and run again ----

  /** Runs that got as far as `attempts` say, one after the other. */
  ghost function AfterAttempts(scores: map<Id, nat>, rules: Rules, primary: map<Id, Header>, slots: Slots, attempts: seq<nat>): map<Id, nat>
    requires forall k :: 0 <= k < |attempts| ==> attempts[k] <= |slots|
  {
    if attempts == [] then scores
    else Overlay(AfterAttempts(scores, rules, primary, slots, attempts[..|attempts| - 1]), rules, primary, slots, Last(attempts))
  }

  lemma {:induction false} OverlayAt(scores: map<Id, nat>, rules: Rules, primary: map<Id, Header>, slots: Slots, n: nat)
    requires n <= |slots| && Distinct(slots)
    ensures forall i :: 0 <= i < n ==> Get(Overlay(scores, rules, primary, slots, n), slots[i].1) == Some(ScoreOf(rules, primary, slots, i))
    ensures forall id {:trigger Get(Overlay(scores, rules, primary, slots, n), id)} ::
              (forall i :: 0 <= i < n ==> slots[i].1 != id) ==> Get(Overlay(scores, rules, primary, slots, n), id) == Get(scores, id)
  {
    if n > 0 {
      OverlayAt(scores, rules, primary, slots, n - 1);
      var part, whole := Overlay(scores, rules, primary, slots, n - 1), Overlay(scores, rules, primary, slots, n);
      forall i | 0 <= i < n
        ensures Get(whole, slots[i].1) == Some(ScoreOf(rules, primary, slots, i))
      {
        assert i < n - 1 ==> Get(part, slots[i].1) == Some(ScoreOf(rules, primary, slots, i)) && slots[i].1 != slots[n - 1].1;
      }
      forall id | forall i :: 0 <= i < n ==> slots[i].1 != id
        ensures Get(whole, id) == Get(scores, id)
      {
        assert slots[n - 1].1 != id && Get(part, id) == Get(scores, id);
      }
    }
  }

  /** However often the backfill was killed before, one complete run ends with the same scores. */
  lemma {:induction false} KilledRunsDoNotMatter(scores: map<Id, nat>, rules: Rules, primary: map<Id, Header>, slots: Slots, attempts: seq<nat>)
    requires Distinct(slots) && forall k :: 0 <= k < |attempts| ==> attempts[k] <= |slots|
    ensures Overlay(AfterAttempts(scores, rules, primary, slots, attempts), rules, primary, slots, |slots|)
         == Overlay(scores, rules, primary, slots, |slots|)
  {
    if attempts != [] {
      var before := AfterAttempts(scores, rules, primary, slots, attempts[..|attempts| - 1]);
      KilledRunsDoNotMatter(scores, rules, primary, slots, attempts[..|attempts| - 1]);
      RerunIsComplete(before, rules, primary, slots, Last(attempts));
    }
  }

  lemma RerunIsComplete(scores: map<Id, nat>, rules: Rules, primary: map<Id, Header>, slots: Slots, n: nat)
    requires n <= |slots| && Distinct(slots)
    ensures Overlay(Overlay(scores, rules, primary, slots, n), rules, primary, slots, |slots|) == Overlay(scores, rules, primary, slots, |slots|)
  {
    var part := Overlay(scores, rules, primary, slots, n);
    var one, two := Overlay(part, rules, primary, slots, |slots|), Overlay(scores, rules, primary, slots, |slots|);
    OverlayAt(scores, rules, primary, slots, n);
    OverlayAt(part, rules, primary, slots, |slots|);
    OverlayAt(scores, rules, primary, slots, |slots|);
    forall id
      ensures Get(one, id) == Get(two, id)
    {
      if i: nat :| i < |slots| && slots[i].1 == id {
        assert Get(one, slots[i].1) == Get(two, slots[i].1);
      } else {
        assert Get(part, id) == Get(scores, id);
      }
    }
    SameRows(one, two);
  }

  lemma SameRows(one: map<Id, nat>, two: map<Id, nat>)
    requires forall id :: Get(one, id) == Get(two, id)
    ensures one == two
  {
    forall id
      ensures (id in one <==> id in two) && (id in one ==> one[id] == two[id])
    {
      assert Get(one, id) == Get(two, id);
    }
  }

  // ---- The scores are the chain's ----

  /** A linked chain, with its cumulative scores, whose headers are all stored. */
  ghost predicate Held(rules: Rules, primary: map<Id, Header>, hs: seq<Header>, ss: seq<nat>) {
    && Linked(hs)
    && (hs != [] ==> hs[0].height >= 1 && Scored(rules, hs[0].height > 1, hs, ss))
    && forall j :: 0 <= j < |hs| ==> IdOf(hs[j]) in primary && primary[IdOf(hs[j])] == hs[j]
  }

  /** The stored score of every header of the chain is the chain's own. */
  ghost predicate ScoresHeld(scores: map<Id, nat>, hs: seq<Header>, ss: seq<nat>) {
    |ss| >= |hs| && forall i :: 0 <= i < |hs| ==> Get(scores, IdOf(hs[i])) == Some(ss[i])
  }

  /** After a complete run the stored scores are those of the chain, whatever was stored before. */
  lemma CompleteRunHoldsScores(scores: map<Id, nat>, rules: Rules, primary: map<Id, Header>, hs: seq<Header>, ss: seq<nat>)
    requires Held(rules, primary, hs, ss)
    ensures ScoresHeld(Overlay(scores, rules, primary, SlotsOf(hs), |hs|), hs, ss)
  {
    var slots := SlotsOf(hs);
    ChainSlots(hs);
    OverlayAt(scores, rules, primary, slots, |hs|);
    forall i | 0 <= i < |hs|
      ensures Get(Overlay(scores, rules, primary, slots, |hs|), IdOf(hs[i])) == Some(ss[i])
    {
      assert slots[i].1 == IdOf(hs[i]);
      BackfillIsScore(rules, primary, hs, ss, i);
    }
  }

  /** On the slots of a chain the backfill computes the cumulative scores the chain itself keeps. */
  lemma {:induction false} BackfillIsScore(rules: Rules, primary: map<Id, Header>, hs: seq<Header>, ss: seq<nat>, i: nat)
    requires hs != [] && i < |hs| && hs[0].height >= 1 && Scored(rules, hs[0].height > 1, hs, ss)
    requires forall j :: 0 <= j < |hs| ==> IdOf(hs[j]) in primary && primary[IdOf(hs[j])] == hs[j]
    ensures ScoreOf(rules, primary, SlotsOf(hs), i) == ss[i]
  {
    if i > 0 {
      BackfillIsScore(rules, primary, hs, ss, i - 1);
      assert Slot(i);
    }
  }
}
