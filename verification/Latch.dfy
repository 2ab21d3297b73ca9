/**
 The solved latch: concurrent solution handlers claim it before they hand a block to the
 submitter, and applying a block releases it. Every lock operation is one step.
 */
module Latch {
  import opened Headers

  datatype Reply = Rejected | Accepted | SubmitFailed | NoSubmitter

  /** Where a handler is: before the first check, before the claim, holding the claim, or releasing it. */
  datatype Stage = Arrived | Ready | Claimed | Failing(missing: bool) | Replied(reply: Reply)

  /** The latch remembers whose solution it is and at what height. */
  datatype Held = Held(owner: nat, height: nat)

  datatype State = State(latch: Option<Held>, handlers: seq<Stage>)

  datatype Submission = Sent | Refused | Missing

  datatype Event =
    | Check(i: nat, valid: bool)
    | Claim(i: nat, height: nat)
    | Submit(i: nat, outcome: Submission)
    | Release(i: nat)
    | Apply(height: nat)

  function At(s: State, i: nat): Option<Stage> {
    if i < |s.handlers| then Some(s.handlers[i]) else None
  }

  function Move(s: State, i: nat, stage: Stage): State
    requires i < |s.handlers|
  {
    s.(handlers := s.handlers[i := stage])
  }

  /** One step; a handler that is not at the stage the event belongs to does nothing. */
  function Next(s: State, e: Event): State {
    match e
    case Check(i, valid) =>
      if At(s, i) != Some(Arrived) then s
      else Move(s, i, if s.latch.Some? || !valid then Replied(Rejected) else Ready)
    case Claim(i, height) =>
      if At(s, i) != Some(Ready) then s
      else if s.latch.Some? then Move(s, i, Replied(Rejected))
      else Move(s, i, Claimed).(latch := Some(Held(i, height)))
    case Submit(i, outcome) =>
      if At(s, i) != Some(Claimed) then s
      else
        Move(s, i, match outcome
                   case Sent => Replied(Accepted)
                   case Refused => Failing(false)
                   case Missing => Failing(true))
    case Release(i) =>
      if i < |s.handlers| && s.handlers[i].Failing?
      then Move(s, i, Replied(if s.handlers[i].missing then NoSubmitter else SubmitFailed)).(latch := None)
      else s
    case Apply(height) =>
      if s.latch.Some? && height >= s.latch.value.height then s.(latch := None) else s
  }

  function Run(n: nat, events: seq<Event>): State {
    if events == [] then State(None, seq(n, _ => Arrived))
    else Next(Run(n, events[..|events| - 1]), Last(events))
  }

  predicate Holding(stage: Stage) {
    stage.Claimed? || stage.Failing?
  }

  /** Whoever holds a claim, or was accepted since block `since`, owns the latch. */
  ghost predicate Owned(s: State, settled: set<nat>) {
    && (forall i {:trigger s.handlers[i]} :: 0 <= i < |s.handlers| && (Holding(s.handlers[i]) || (s.handlers[i] == Replied(Accepted) && i !in settled)) ==>
          s.latch.Some? && s.latch.value.owner == i)
    && (s.latch.Some? ==>
          var i := s.latch.value.owner;
          i < |s.handlers| && (Holding(s.handlers[i]) || (s.handlers[i] == Replied(Accepted) && i !in settled)))
  }

  /** Handlers whose solution was accepted before the latch was last released by a block. */
  ghost function Settled(n: nat, events: seq<Event>): set<nat> {
    if events == [] then {}
    else
      var before, s := Settled(n, events[..|events| - 1]), Run(n, events[..|events| - 1]);
      if Last(events).Apply? && Next(s, Last(events)) != s
      then before + (set i | 0 <= i < |s.handlers| && s.handlers[i] == Replied(Accepted))
      else before
  }

  /** No block releases the latch while a handler is between its claim and its reply. */
  ghost predicate Undisturbed(n: nat, events: seq<Event>) {
    forall k {:trigger events[..k]} :: 0 <= k < |events| && events[k].Apply? ==>
      var s := Run(n, events[..k]);
      Next(s, events[k]) == s || forall i :: 0 <= i < |s.handlers| ==> !Holding(s.handlers[i])
  }

  lemma {:induction false} RunOwned(n: nat, events: seq<Event>)
    requires Undisturbed(n, events)
    ensures Owned(Run(n, events), Settled(n, events)) && |Run(n, events).handlers| == n
    decreases |events|
  {
    if events != [] {
      var k := |events| - 1;
      var init, s := events[..k], Run(n, events[..k]);
      UndisturbedPrefix(n, events);
      RunOwned(n, init);
      assert events[k].Apply? ==> Next(s, events[k]) == s || forall i :: 0 <= i < |s.handlers| ==> !Holding(s.handlers[i]) by {
        assert events[..k] == init;
      }
      SettledReplied(n, init);
      StepOwned(s, Settled(n, init), events[k]);
    }
  }

  lemma UndisturbedPrefix(n: nat, events: seq<Event>)
    requires Undisturbed(n, events) && events != []
    ensures Undisturbed(n, events[..|events| - 1])
  {
    var init := events[..|events| - 1];
    forall k | 0 <= k < |init| && init[k].Apply?
      ensures var s := Run(n, init[..k]); Next(s, init[k]) == s || forall i :: 0 <= i < |s.handlers| ==> !Holding(s.handlers[i])
    {
      assert init[..k] == events[..k];
    }
  }

  /** A reply once given is never taken back. */
  lemma {:induction false} SettledReplied(n: nat, events: seq<Event>)
    ensures forall i :: i in Settled(n, events) ==> At(Run(n, events), i) == Some(Replied(Accepted))
    decreases |events|
  {
    if events != [] {
      SettledReplied(n, events[..|events| - 1]);
    }
  }

  lemma StepOwned(s: State, settled: set<nat>, e: Event)
    requires Owned(s, settled) && forall i :: i in settled ==> At(s, i) == Some(Replied(Accepted))
    requires e.Apply? ==> Next(s, e) == s || forall i :: 0 <= i < |s.handlers| ==> !Holding(s.handlers[i])
    ensures |Next(s, e).handlers| == |s.handlers|
    ensures var now := if e.Apply? && Next(s, e) != s
                       then settled + (set i | 0 <= i < |s.handlers| && s.handlers[i] == Replied(Accepted)) else settled;
            Owned(Next(s, e), now)
  {
  }

  /** At most one solution is accepted between two blocks, unless a block interrupts a submission. */
  lemma AtMostOneAccepted(n: nat, events: seq<Event>, i: nat, j: nat)
    requires Undisturbed(n, events)
    requires At(Run(n, events), i) == Some(Replied(Accepted)) && i !in Settled(n, events)
    requires At(Run(n, events), j) == Some(Replied(Accepted)) && j !in Settled(n, events)
    ensures i == j
  {
    RunOwned(n, events);
  }

  lemma {:induction false} NothingSettled(n: nat, events: seq<Event>)
    requires forall e :: e in events ==> !e.Apply?
    ensures Undisturbed(n, events) && Settled(n, events) == {}
    decreases |events|
  {
    if events != [] {
      NothingSettled(n, events[..|events| - 1]);
      assert Last(events) in events;
    }
  }

  /** In any interleaving of any number of handlers, without a block, at most one is accepted. */
  lemma OneWinner(n: nat, events: seq<Event>, i: nat, j: nat)
    requires forall e :: e in events ==> !e.Apply?
    requires At(Run(n, events), i) == Some(Replied(Accepted)) && At(Run(n, events), j) == Some(Replied(Accepted))
    ensures i == j
  {
    NothingSettled(n, events);
    AtMostOneAccepted(n, events, i, j);
  }

  /** Every hand-off to the submitter happens under the handler's own claim. */
  lemma HandOffIsOwn(n: nat, events: seq<Event>, k: nat)
    requires Undisturbed(n, events) && k < |events| && events[k].Submit?
    requires At(Run(n, events[..k]), events[k].i) == Some(Claimed)
    ensures var latch := Run(n, events[..k]).latch; latch.Some? && latch.value.owner == events[k].i
  {
    UndisturbedTo(n, events, k);
    RunOwned(n, events[..k]);
  }

  lemma UndisturbedTo(n: nat, events: seq<Event>, m: nat)
    requires Undisturbed(n, events) && m <= |events|
    ensures Undisturbed(n, events[..m])
  {
    var init := events[..m];
    forall k | 0 <= k < |init| && init[k].Apply?
      ensures var s := Run(n, init[..k]); Next(s, init[k]) == s || forall i :: 0 <= i < |s.handlers| ==> !Holding(s.handlers[i])
    {
      assert init[..k] == events[..k];
    }
  }

  /** When nobody is mid-submission and nothing was accepted, the latch is free. */
  lemma FreeUnlessAccepted(n: nat, events: seq<Event>)
    requires Undisturbed(n, events)
    requires forall i :: At(Run(n, events), i).Some? ==> !Holding(At(Run(n, events), i).value)
    requires forall i :: At(Run(n, events), i) == Some(Replied(Accepted)) ==> i in Settled(n, events)
    ensures Run(n, events).latch.None?
  {
    RunOwned(n, events);
    var s := Run(n, events);
    assert s.latch.Some? ==> At(s, s.latch.value.owner).Some?;
  }

  lemma RunPush(n: nat, events: seq<Event>, e: Event)
    ensures Run(n, events + [e]) == Next(Run(n, events), e)
    ensures var s := Run(n, events);
            Settled(n, events + [e]) ==
            if e.Apply? && Next(s, e) != s
            then Settled(n, events) + (set i | 0 <= i < |s.handlers| && s.handlers[i] == Replied(Accepted)) else Settled(n, events)
  {
    assert (events + [e])[..|events + [e]| - 1] == events;
  }

  /** At every moment of the run the latch is with the one who holds a claim or was accepted since. */
  ghost predicate AlwaysOwned(n: nat, events: seq<Event>) {
    forall m: nat {:trigger events[..m]} :: m <= |events| ==> Owned(Run(n, events[..m]), Settled(n, events[..m]))
  }

  /** That no block interrupts a submission is not only enough but exactly what it takes. */
  lemma OwnedIff(n: nat, events: seq<Event>)
    ensures AlwaysOwned(n, events) <==> Undisturbed(n, events)
  {
    if Undisturbed(n, events) {
      forall m: nat | m <= |events|
        ensures Owned(Run(n, events[..m]), Settled(n, events[..m]))
      {
        UndisturbedTo(n, events, m);
        RunOwned(n, events[..m]);
      }
    }
    if AlwaysOwned(n, events) {
      forall k | 0 <= k < |events| && events[k].Apply?
        ensures var s := Run(n, events[..k]); Next(s, events[k]) == s || forall i :: 0 <= i < |s.handlers| ==> !Holding(s.handlers[i])
      {
        assert events[..k + 1] == events[..k] + [events[k]];
        RunPush(n, events[..k], events[k]);
        assert Owned(Run(n, events[..k + 1]), Settled(n, events[..k + 1]));
      }
    }
  }

  // ---- What an interrupted submission can lead to ----

  function After(s: State, events: seq<Event>): State
    decreases |events|
  {
    if events == [] then s else After(Next(s, events[0]), events[1..])
  }

  lemma {:induction false} AfterAdd(s: State, one: seq<Event>, two: seq<Event>)
    ensures After(s, one + two) == After(After(s, one), two)
    decreases |one|
  {
    if one == [] {
      assert one + two == two;
    } else {
      assert (one + two)[1..] == one[1..] + two;
      AfterAdd(Next(s, one[0]), one[1..], two);
    }
  }

  lemma {:induction false} RunAdd(n: nat, events: seq<Event>, more: seq<Event>)
    requires forall e :: e in more ==> !e.Apply?
    ensures Run(n, events + more) == After(Run(n, events), more) && Settled(n, events + more) == Settled(n, events)
    decreases |more|
  {
    if more == [] {
      assert events + more == events;
    } else {
      assert events + more == events + [more[0]] + more[1..];
      assert more[0] in more;
      RunPush(n, events, more[0]);
      RunAdd(n, events + [more[0]], more[1..]);
    }
  }

  function Winning(i: nat, height: nat): seq<Event> {
    [Check(i, true)] + [Claim(i, height)] + [Submit(i, Sent)]
  }

  function Losing(i: nat): seq<Event> {
    [Submit(i, Refused)] + [Release(i)]
  }

  lemma Wins(s: State, i: nat, height: nat)
    requires s.latch.None? && At(s, i) == Some(Arrived)
    ensures After(s, Winning(i, height)) == Move(s, i, Replied(Accepted)).(latch := Some(Held(i, height)))
  {
    var ready := Next(s, Check(i, true));
    var claimed := Next(ready, Claim(i, height));
    AfterAdd(s, [Check(i, true)] + [Claim(i, height)], [Submit(i, Sent)]);
    AfterAdd(s, [Check(i, true)], [Claim(i, height)]);
    assert Next(claimed, Submit(i, Sent)).handlers == s.handlers[i := Replied(Accepted)];
  }

  /** A submission that fails frees the latch, whoever holds it by then. */
  lemma Loses(s: State, i: nat)
    requires At(s, i).Some? && Holding(At(s, i).value)
    ensures After(s, Losing(i)).latch.None? && |After(s, Losing(i)).handlers| == |s.handlers|
    ensures forall j: nat :: j != i ==> At(After(s, Losing(i)), j) == At(s, j)
  {
    AfterAdd(s, [Submit(i, Refused)], [Release(i)]);
  }

  /** One handler wins, the interrupted one fails, another wins. */
  function Straddling(a: nat, b: nat, c: nat, height: nat): seq<Event> {
    Winning(a, height) + Losing(c) + Winning(b, height)
  }

  lemma StraddlingWins(s: State, a: nat, b: nat, c: nat, height: nat)
    requires s.latch.None? && At(s, a) == Some(Arrived) && At(s, b) == Some(Arrived) && a != b
    requires At(s, c).Some? && Holding(At(s, c).value)
    ensures var last := After(s, Straddling(a, b, c, height));
            At(last, a) == Some(Replied(Accepted)) && At(last, b) == Some(Replied(Accepted))
  {
    AfterAdd(s, Winning(a, height) + Losing(c), Winning(b, height));
    AfterAdd(s, Winning(a, height), Losing(c));
    Wins(s, a, height);
    Loses(After(s, Winning(a, height)), c);
    Wins(After(After(s, Winning(a, height)), Losing(c)), b, height);
  }

  /**
   Wherever a block takes the latch from a handler between claim and reply, two others that have
   only arrived can both still be accepted before the next block: the interrupted submission fails
   and frees the latch from under the first of them.
   */
  lemma InterruptedSubmission(n: nat, events: seq<Event>, height: nat, a: nat, b: nat, c: nat)
    requires Next(Run(n, events), Apply(height)) != Run(n, events)
    requires At(Run(n, events), c).Some? && Holding(At(Run(n, events), c).value)
    requires At(Run(n, events), a) == Some(Arrived) && At(Run(n, events), b) == Some(Arrived) && a != b
    ensures var all := events + [Apply(height)] + Straddling(a, b, c, height + 1);
            && At(Run(n, all), a) == Some(Replied(Accepted)) && a !in Settled(n, all)
            && At(Run(n, all), b) == Some(Replied(Accepted)) && b !in Settled(n, all)
            && !AlwaysOwned(n, all)
  {
    var blocked, more := events + [Apply(height)], Straddling(a, b, c, height + 1);
    var all := blocked + more;
    RunPush(n, events, Apply(height));
    RunAdd(n, blocked, more);
    StraddlingWins(Run(n, blocked), a, b, c, height + 1);
    SettledReplied(n, blocked);
    if AlwaysOwned(n, all) {
      OwnedIff(n, all);
      AtMostOneAccepted(n, all, a, b);
    }
  }

  /** Such a run needs no more than three handlers and one block. */
  lemma InterruptedRun(height: nat)
    ensures var all := [Check(0, true)] + [Claim(0, height)] + [Apply(height)] + Straddling(1, 2, 0, height + 1);
            && At(Run(3, all), 1) == Some(Replied(Accepted)) && 1 !in Settled(3, all)
            && At(Run(3, all), 2) == Some(Replied(Accepted)) && 2 !in Settled(3, all)
  {
    RunPush(3, [], Check(0, true));
    assert [] + [Check(0, true)] == [Check(0, true)];
    RunPush(3, [Check(0, true)], Claim(0, height));
    InterruptedSubmission(3, [Check(0, true)] + [Claim(0, height)], height, 1, 2, 0);
  }
}
