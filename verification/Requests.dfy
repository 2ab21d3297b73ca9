/** The budget for asking peers about unknown parents. */
module Requests {
  import opened Headers
  import opened Store

  const MAX_PARENT_REQUESTS: nat := 3

  const PARENT_REQUEST_TTL: nat := 60_000

  /** Requests still holding their slot; a clock that steps back ages nothing. */
  function Live(inFlight: map<Id, nat>, now: nat): map<Id, nat> {
    map id | id in inFlight && now < inFlight[id] + PARENT_REQUEST_TTL :: inFlight[id]
  }

  predicate Grants(inFlight: map<Id, nat>, id: Id, now: nat) {
    id !in Live(inFlight, now) && |Live(inFlight, now)| < MAX_PARENT_REQUESTS
  }

  class ParentRequests {
    var inFlight: map<Id, nat>

    constructor ()
      ensures inFlight == map[] && Bounded()
    {
      inFlight := map[];
    }

    /** Never more than the budget allows. */
    ghost predicate Bounded()
      reads this
    {
      |inFlight| <= MAX_PARENT_REQUESTS
    }

    method ShouldRequest(id: Id, now: nat) returns (granted: bool)
      requires Bounded()
      modifies this
      ensures Bounded()
      ensures granted == Grants(old(inFlight), id, now)
      ensures inFlight == After(old(inFlight), Ask(id, now))
    {
      StepBounded(inFlight, Ask(id, now));
      inFlight := Live(inFlight, now);
      if id in inFlight || |inFlight| >= MAX_PARENT_REQUESTS {
        return false;
      }
      inFlight := inFlight[id := now];
      granted := true;
    }

    method Resolved(id: Id)
      requires Bounded()
      modifies this
      ensures Bounded()
      ensures inFlight == After(old(inFlight), Arrived(id))
    {
      StepBounded(inFlight, Arrived(id));
      inFlight := inFlight - {id};
    }
  }

  datatype Event = Ask(id: Id, now: nat) | Arrived(id: Id)

  function After(inFlight: map<Id, nat>, e: Event): map<Id, nat> {
    match e
    case Ask(id, now) => if Grants(inFlight, id, now) then Live(inFlight, now)[id := now] else Live(inFlight, now)
    case Arrived(id) => inFlight - {id}
  }

  function AfterAll(events: seq<Event>): map<Id, nat> {
    if events == [] then map[] else After(AfterAll(events[..|events| - 1]), Last(events))
  }

  lemma LiveShrinks(inFlight: map<Id, nat>, now: nat)
    ensures |Live(inFlight, now)| <= |inFlight|
  {
    SubmapIsSmaller(Live(inFlight, now), inFlight);
  }

  lemma SubmapIsSmaller(a: map<Id, nat>, b: map<Id, nat>)
    requires a.Keys <= b.Keys
    ensures |a| <= |b|
  {
    assert b.Keys == a.Keys + (b.Keys - a.Keys);
    assert |a.Keys| == |a| && |b.Keys| == |b|;
  }

  lemma StepBounded(inFlight: map<Id, nat>, e: Event)
    requires |inFlight| <= MAX_PARENT_REQUESTS
    ensures |After(inFlight, e)| <= MAX_PARENT_REQUESTS
  {
    match e {
      case Ask(id, now) => LiveShrinks(inFlight, now);
      case Arrived(id) => SubmapIsSmaller(inFlight - {id}, inFlight);
    }
  }

  /** However requests and arrivals interleave, at most three requests are ever in flight. */
  lemma {:induction false} NeverOverBudget(events: seq<Event>)
    ensures |AfterAll(events)| <= 3
  {
    if events != [] {
      NeverOverBudget(events[..|events| - 1]);
      StepBounded(AfterAll(events[..|events| - 1]), Last(events));
    }
  }

  /** Whoever is in flight was asked for, at the time that is remembered. */
  lemma {:induction false} InFlightWasGranted(events: seq<Event>, id: Id)
    requires id in AfterAll(events)
    ensures Ask(id, AfterAll(events)[id]) in events
  {
    var n := |events| - 1;
    var before := AfterAll(events[..n]);
    if events[n].Ask? && events[n].id == id && Grants(before, id, events[n].now) {
      assert events[n] == Ask(id, AfterAll(events)[id]);
    } else {
      InFlightWasGranted(events[..n], id);
    }
  }

  /** The i-th event granted `id`: it was asked for and the budget allowed it. */
  ghost predicate GrantedAt(events: seq<Event>, i: nat, id: Id) {
    i < |events| && events[i].Ask? && events[i].id == id && Grants(AfterAll(events[..i]), id, events[i].now)
  }

  /** An event that ends the wait for what was asked at `since`: it arrives, or a question finds it aged. */
  ghost predicate Ends(e: Event, id: Id, since: nat) {
    match e
    case Ask(_, now) => since + 60_000 <= now
    case Arrived(other) => other == id
  }

  ghost predicate PendingSince(events: seq<Event>, i: nat, id: Id) {
    GrantedAt(events, i, id) && forall j :: i < j < |events| ==> !Ends(events[j], id, events[i].now)
  }

  lemma PendingStep(events: seq<Event>, i: nat, id: Id)
    requires i + 1 < |events|
    ensures var n := |events| - 1;
            PendingSince(events, i, id) <==> PendingSince(events[..n], i, id) && !Ends(events[n], id, events[i].now)
  {
    var n := |events| - 1;
    var init := events[..n];
    assert init[..i] == events[..i] && init[i] == events[i];
    if PendingSince(events, i, id) {
      forall j | i < j < n
        ensures !Ends(init[j], id, events[i].now)
      {
        assert init[j] == events[j];
      }
    }
    if PendingSince(init, i, id) && !Ends(events[n], id, events[i].now) {
      forall j | i < j <= n
        ensures !Ends(events[j], id, events[i].now)
      {
        assert j < n ==> init[j] == events[j];
      }
    }
  }

  lemma {:induction false} PendingIsInFlight(events: seq<Event>, i: nat, id: Id)
    requires PendingSince(events, i, id)
    ensures Get(AfterAll(events), id) == Some(events[i].now)
  {
    var n := |events| - 1;
    if i < n {
      PendingStep(events, i, id);
      PendingIsInFlight(events[..n], i, id);
    }
  }

  lemma {:induction false} InFlightIsPending(events: seq<Event>, id: Id) returns (i: nat)
    requires id in AfterAll(events)
    ensures PendingSince(events, i, id)
  {
    var n := |events| - 1;
    if GrantedAt(events, n, id) {
      i := n;
    } else {
      i := InFlightIsPending(events[..n], id);
      PendingIsInFlight(events[..n], i, id);
      PendingStep(events, i, id);
    }
  }

  /** Exactly the requests that were granted, have not arrived and have not been seen to age are in flight. */
  lemma InFlightIff(events: seq<Event>, id: Id)
    ensures id in AfterAll(events) <==> exists i: nat :: PendingSince(events, i, id)
  {
    if id in AfterAll(events) {
      var i := InFlightIsPending(events, id);
    }
    forall i: nat | PendingSince(events, i, id)
      ensures id in AfterAll(events)
    {
      PendingIsInFlight(events, i, id);
    }
  }

  /** The ids still being waited for at `now`, read off the history alone. */
  ghost function Waiting(events: seq<Event>, now: nat): set<Id> {
    set i: nat | i < |events| && PendingSince(events, i, events[i].id) && now < events[i].now + 60_000 :: events[i].id
  }

  /**
   A request is granted if and only if its id is not being waited for and fewer than three others
   are, where waiting ends on arrival or with the time to live. Refused questions cost nothing.
   */
  lemma GrantedIff(events: seq<Event>, id: Id, now: nat)
    ensures Grants(AfterAll(events), id, now) <==> id !in Waiting(events, now) && |Waiting(events, now)| < 3
  {
    var live := Live(AfterAll(events), now);
    forall other
      ensures other in live <==> other in Waiting(events, now)
    {
      if other in live {
        var i := InFlightIsPending(events, other);
        PendingIsInFlight(events, i, other);
        assert events[i].id == other;
      }
      if other in Waiting(events, now) {
        var i: nat :| i < |events| && PendingSince(events, i, events[i].id) && now < events[i].now + PARENT_REQUEST_TTL && events[i].id == other;
        PendingIsInFlight(events, i, other);
      }
    }
    assert live.Keys == Waiting(events, now);
    assert |live| == |live.Keys|;
  }

  /** Once every request in flight has aged past its time to live, the next one is granted. */
  lemma AgedOutIsGranted(events: seq<Event>, id: Id, now: nat)
    requires forall i: nat, other :: PendingSince(events, i, other) ==> events[i].now + 60_000 <= now
    ensures Grants(AfterAll(events), id, now)
  {
    var inFlight := AfterAll(events);
    forall other | other in inFlight
      ensures inFlight[other] + PARENT_REQUEST_TTL <= now
    {
      var i := InFlightIsPending(events, other);
      PendingIsInFlight(events, i, other);
    }
    assert Live(inFlight, now) == map[];
  }
}
