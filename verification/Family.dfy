/**
 Family weight: a transaction that spends unconfirmed outputs lends its fee weight to the pool
 transactions that produced them, and on to their ancestors.
 */
module Family {
  import opened Headers

  /** Transaction and box ids are ideal hashes: a box names the transaction that made it. */
  datatype Tx = Tx(inputs: seq<Box>, tag: nat)

  datatype Box = Output(tx: Tx, index: nat) | Confirmed(tag: nat)

  const MAX_PARENT_SCAN_DEPTH: nat := 500

  class OrderedPool {
    var weights: map<Tx, nat>
    /** Which pool transaction makes a box. */
    var producer: map<Box, Tx>

    constructor ()
      ensures weights == map[] && producer == map[]
    {
      weights, producer := map[], map[];
    }

    method UpdateWeight(tx: Tx, weight: nat)
      modifies this`weights
      ensures weights == if tx in old(weights) then old(weights)[tx := weight] else old(weights)
    {
      if tx in weights {
        weights := weights[tx := weight];
      }
    }
  }

  /** The table lists boxes under the transactions that made them. */
  ghost predicate Coherent(producer: map<Box, Tx>) {
    forall b :: b in producer ==> b.Output? && producer[b] == b.tx
  }

  // ---- Paths ----

  /** Number of spend-edge paths from `t` to `a` through the pool. */
  function Paths(pool: set<Tx>, producer: map<Box, Tx>, t: Tx, a: Tx): nat
    decreases t
  {
    if t !in pool then 0 else (if t == a then 1 else 0) + PathsThrough(pool, producer, t.inputs, a)
  }

  /** Number of paths to `a` that start by spending one of `boxes`. */
  function PathsThrough(pool: set<Tx>, producer: map<Box, Tx>, boxes: seq<Box>, a: Tx): nat
    decreases boxes
  {
    if boxes == [] then 0 else PathsVia(pool, producer, boxes[0], a) + PathsThrough(pool, producer, boxes[1..], a)
  }

  function PathsVia(pool: set<Tx>, producer: map<Box, Tx>, box: Box, a: Tx): nat
    decreases box
  {
    if box.Output? && box in producer then Paths(pool, producer, box.tx, a) else 0
  }

  ghost function PathsFrom(pool: set<Tx>, producer: map<Box, Tx>, stack: seq<Tx>, a: Tx): nat {
    if stack == [] then 0
    else PathsFrom(pool, producer, stack[..|stack| - 1], a) + Paths(pool, producer, Last(stack), a)
  }

  /** Number of paths from `t` to anything in the pool. */
  function AllPaths(pool: set<Tx>, producer: map<Box, Tx>, t: Tx): nat
    decreases t
  {
    if t !in pool then 0 else 1 + AllPathsThrough(pool, producer, t.inputs)
  }

  function AllPathsThrough(pool: set<Tx>, producer: map<Box, Tx>, boxes: seq<Box>): nat
    decreases boxes
  {
    if boxes == [] then 0 else AllPathsVia(pool, producer, boxes[0]) + AllPathsThrough(pool, producer, boxes[1..])
  }

  function AllPathsVia(pool: set<Tx>, producer: map<Box, Tx>, box: Box): nat
    decreases box
  {
    if box.Output? && box in producer then AllPaths(pool, producer, box.tx) else 0
  }

  ghost function AllPathsFrom(pool: set<Tx>, producer: map<Box, Tx>, stack: seq<Tx>): nat {
    if stack == [] then 0
    else AllPathsFrom(pool, producer, stack[..|stack| - 1]) + AllPaths(pool, producer, Last(stack))
  }

  // ---- The walk ----

  /** The pool transactions that make `boxes`, in order. */
  function Makers(producer: map<Box, Tx>, boxes: seq<Box>): seq<Tx> {
    if boxes == [] then []
    else Makers(producer, boxes[..|boxes| - 1]) + if Last(boxes) in producer then [producer[Last(boxes)]] else []
  }

  method PushMakers(producer: map<Box, Tx>, boxes: seq<Box>, stack: seq<Tx>) returns (next: seq<Tx>)
    ensures next == stack + Makers(producer, boxes)
  {
    next := stack;
    for i := 0 to |boxes|
      invariant next == stack + Makers(producer, boxes[..i])
    {
      assert boxes[..i + 1][..i] == boxes[..i];
      if boxes[i] in producer {
        next := next + [producer[boxes[i]]];
      }
    }
    assert boxes[..|boxes|] == boxes;
  }

  lemma {:induction false} PathsFromConcat(pool: set<Tx>, producer: map<Box, Tx>, one: seq<Tx>, two: seq<Tx>, a: Tx)
    ensures PathsFrom(pool, producer, one + two, a) == PathsFrom(pool, producer, one, a) + PathsFrom(pool, producer, two, a)
    ensures AllPathsFrom(pool, producer, one + two) == AllPathsFrom(pool, producer, one) + AllPathsFrom(pool, producer, two)
    decreases |two|
  {
    if two == [] {
      assert one + two == one;
    } else {
      assert (one + two)[..|one + two| - 1] == one + two[..|two| - 1];
      PathsFromConcat(pool, producer, one, two[..|two| - 1], a);
    }
  }

  lemma {:induction false} MakersPaths(pool: set<Tx>, producer: map<Box, Tx>, boxes: seq<Box>, a: Tx)
    requires Coherent(producer)
    ensures PathsFrom(pool, producer, Makers(producer, boxes), a) == PathsThrough(pool, producer, boxes, a)
    ensures AllPathsFrom(pool, producer, Makers(producer, boxes)) == AllPathsThrough(pool, producer, boxes)
    decreases |boxes|
  {
    if boxes != [] {
      var n := |boxes| - 1;
      MakersPaths(pool, producer, boxes[..n], a);
      ThroughLast(pool, producer, boxes, a);
      var last := if boxes[n] in producer then [producer[boxes[n]]] else [];
      PathsFromConcat(pool, producer, Makers(producer, boxes[..n]), last, a);
    }
  }

  lemma {:induction false} ThroughLast(pool: set<Tx>, producer: map<Box, Tx>, boxes: seq<Box>, a: Tx)
    requires boxes != []
    ensures PathsThrough(pool, producer, boxes, a)
         == PathsThrough(pool, producer, boxes[..|boxes| - 1], a) + PathsVia(pool, producer, Last(boxes), a)
    ensures AllPathsThrough(pool, producer, boxes)
         == AllPathsThrough(pool, producer, boxes[..|boxes| - 1]) + AllPathsVia(pool, producer, Last(boxes))
    decreases |boxes|
  {
    if |boxes| > 1 {
      ThroughLast(pool, producer, boxes[1..], a);
      assert boxes[1..][..|boxes| - 2] == boxes[..|boxes| - 1][1..];
    }
  }

  /** Visiting `t` uses up one path to it and opens those through its inputs. */
  lemma Visit(pool: set<Tx>, producer: map<Box, Tx>, stack: seq<Tx>, a: Tx)
    requires Coherent(producer) && stack != []
    ensures var rest, t := stack[..|stack| - 1], Last(stack);
            var next := if t in pool then rest + Makers(producer, t.inputs) else rest;
            && PathsFrom(pool, producer, stack, a) == PathsFrom(pool, producer, next, a) + (if t in pool && t == a then 1 else 0)
            && AllPathsFrom(pool, producer, stack) == AllPathsFrom(pool, producer, next) + (if t in pool then 1 else 0)
  {
    var rest, t := stack[..|stack| - 1], Last(stack);
    PathsFromConcat(pool, producer, rest, Makers(producer, t.inputs), a);
    MakersPaths(pool, producer, t.inputs, a);
  }

  /** What is left of `total` paths to `a` after the visits so far. */
  ghost predicate Tally(pool: set<Tx>, producer: map<Box, Tx>, boxes: seq<Box>, visits: seq<Tx>, stack: seq<Tx>) {
    && (forall a {:trigger PathsThrough(pool, producer, boxes, a)} :: a in pool ==>
          multiset(visits)[a] + PathsFrom(pool, producer, stack, a) == PathsThrough(pool, producer, boxes, a))
    && |visits| + AllPathsFrom(pool, producer, stack) == AllPathsThrough(pool, producer, boxes)
  }

  lemma TallyStart(pool: set<Tx>, producer: map<Box, Tx>, boxes: seq<Box>)
    requires Coherent(producer)
    ensures Tally(pool, producer, boxes, [], Makers(producer, boxes))
  {
    forall a
      ensures PathsFrom(pool, producer, Makers(producer, boxes), a) == PathsThrough(pool, producer, boxes, a)
    {
      MakersPaths(pool, producer, boxes, a);
    }
    MakersPaths(pool, producer, boxes, Tx([], 0));
  }

  lemma TallyStep(pool: set<Tx>, producer: map<Box, Tx>, boxes: seq<Box>, visits: seq<Tx>, stack: seq<Tx>)
    requires Coherent(producer) && stack != [] && Tally(pool, producer, boxes, visits, stack)
    ensures var rest, t := stack[..|stack| - 1], Last(stack);
            if t in pool then Tally(pool, producer, boxes, visits + [t], rest + Makers(producer, t.inputs))
            else Tally(pool, producer, boxes, visits, rest)
  {
    var rest, t := stack[..|stack| - 1], Last(stack);
    var next := if t in pool then rest + Makers(producer, t.inputs) else rest;
    forall a | a in pool
      ensures PathsFrom(pool, producer, stack, a) == PathsFrom(pool, producer, next, a) + (if t in pool && t == a then 1 else 0)
      ensures multiset(visits + [t])[a] == multiset(visits)[a] + if t == a then 1 else 0
    {
      Visit(pool, producer, stack, a);
    }
    Visit(pool, producer, stack, t);
  }

  /** The number of stack entries the walk can still go through. */
  function Steps(producer: map<Box, Tx>, t: Tx): nat
    decreases t
  {
    1 + StepsThrough(producer, t.inputs)
  }

  function StepsThrough(producer: map<Box, Tx>, boxes: seq<Box>): nat
    decreases boxes
  {
    if boxes == [] then 0 else StepsVia(producer, boxes[0]) + StepsThrough(producer, boxes[1..])
  }

  function StepsVia(producer: map<Box, Tx>, box: Box): nat
    decreases box
  {
    if box.Output? && box in producer then Steps(producer, box.tx) else 0
  }

  ghost function StepsFrom(producer: map<Box, Tx>, stack: seq<Tx>): nat {
    if stack == [] then 0 else StepsFrom(producer, stack[..|stack| - 1]) + Steps(producer, Last(stack))
  }

  lemma {:induction false} StepsConcat(producer: map<Box, Tx>, one: seq<Tx>, two: seq<Tx>)
    ensures StepsFrom(producer, one + two) == StepsFrom(producer, one) + StepsFrom(producer, two)
    decreases |two|
  {
    if two == [] {
      assert one + two == one;
    } else {
      assert (one + two)[..|one + two| - 1] == one + two[..|two| - 1];
      StepsConcat(producer, one, two[..|two| - 1]);
    }
  }

  lemma {:induction false} StepsThroughLast(producer: map<Box, Tx>, boxes: seq<Box>)
    requires boxes != []
    ensures StepsThrough(producer, boxes) == StepsThrough(producer, boxes[..|boxes| - 1]) + StepsVia(producer, Last(boxes))
    decreases |boxes|
  {
    if |boxes| > 1 {
      StepsThroughLast(producer, boxes[1..]);
      assert boxes[1..][..|boxes| - 2] == boxes[..|boxes| - 1][1..];
    }
  }

  lemma {:induction false} MakersSteps(producer: map<Box, Tx>, boxes: seq<Box>)
    requires Coherent(producer)
    ensures StepsFrom(producer, Makers(producer, boxes)) == StepsThrough(producer, boxes)
    decreases |boxes|
  {
    if boxes != [] {
      var n := |boxes| - 1;
      MakersSteps(producer, boxes[..n]);
      StepsThroughLast(producer, boxes);
      StepsConcat(producer, Makers(producer, boxes[..n]), if boxes[n] in producer then [producer[boxes[n]]] else []);
    }
  }

  /** Spending is acyclic, so every visit brings the walk closer to its end. */
  lemma VisitEnds(producer: map<Box, Tx>, stack: seq<Tx>)
    requires Coherent(producer) && stack != []
    ensures var rest, t := stack[..|stack| - 1], Last(stack);
            && StepsFrom(producer, rest) < StepsFrom(producer, stack)
            && StepsFrom(producer, rest + Makers(producer, t.inputs)) < StepsFrom(producer, stack)
  {
    var rest, t := stack[..|stack| - 1], Last(stack);
    StepsConcat(producer, rest, Makers(producer, t.inputs));
    MakersSteps(producer, t.inputs);
  }

  lemma {:induction false} SomePathLeft(pool: set<Tx>, producer: map<Box, Tx>, stack: seq<Tx>)
    requires AllPathsFrom(pool, producer, stack) > 0
    ensures exists a :: a in pool && PathsFrom(pool, producer, stack, a) > 0
  {
    var rest, t := stack[..|stack| - 1], Last(stack);
    if AllPaths(pool, producer, t) > 0 {
      assert PathsFrom(pool, producer, stack, t) > 0;
    } else {
      SomePathLeft(pool, producer, rest);
      var a :| a in pool && PathsFrom(pool, producer, rest, a) > 0;
      assert PathsFrom(pool, producer, stack, a) > 0;
    }
  }

  lemma {:induction false} NoPathLeft(pool: set<Tx>, producer: map<Box, Tx>, stack: seq<Tx>, a: Tx)
    requires AllPathsFrom(pool, producer, stack) == 0
    ensures PathsFrom(pool, producer, stack, a) == 0
  {
    if stack != [] {
      NoPathLeft(pool, producer, stack[..|stack| - 1], a);
    }
  }

  /** `factor`, `n` times over. */
  ghost function Times(factor: nat, n: nat): nat {
    if n == 0 then 0 else Times(factor, n - 1) + factor
  }

  lemma {:induction false} TimesIsProduct(factor: nat, n: nat)
    ensures Times(factor, n) == factor * n
  {
    if n > 0 {
      TimesIsProduct(factor, n - 1);
    }
  }

  lemma {:induction false} TimesPlus(factor: nat, m: nat, n: nat)
    ensures Times(factor, m + n) == Times(factor, m) + Times(factor, n)
  {
    if n > 0 {
      TimesPlus(factor, m, n - 1);
    }
  }

  /** Every visit has lent `factor` to the transaction visited. */
  ghost predicate Lent(was: map<Tx, nat>, now: map<Tx, nat>, factor: nat, visits: seq<Tx>) {
    && now.Keys == was.Keys
    && forall a {:trigger now[a]} :: a in now ==> now[a] == was[a] + Times(factor, multiset(visits)[a])
  }

  lemma LendOnce(was: map<Tx, nat>, now: map<Tx, nat>, factor: nat, visits: seq<Tx>, t: Tx)
    requires Lent(was, now, factor, visits) && t in now
    ensures Lent(was, now[t := now[t] + factor], factor, visits + [t])
  {
    forall a | a in now
      ensures multiset(visits + [t])[a] == multiset(visits)[a] + if a == t then 1 else 0
    {
    }
  }

  /** Each ancestor was visited once per path to it. */
  ghost predicate Complete(pool: set<Tx>, producer: map<Box, Tx>, boxes: seq<Box>, visits: seq<Tx>) {
    forall a {:trigger PathsThrough(pool, producer, boxes, a)} :: a in pool ==> multiset(visits)[a] == PathsThrough(pool, producer, boxes, a)
  }

  /** The walk is complete exactly when no path is left on the stack. */
  lemma CompleteIff(pool: set<Tx>, producer: map<Box, Tx>, boxes: seq<Box>, visits: seq<Tx>, stack: seq<Tx>)
    requires Tally(pool, producer, boxes, visits, stack)
    ensures Complete(pool, producer, boxes, visits) <==> AllPathsFrom(pool, producer, stack) == 0
  {
    if AllPathsFrom(pool, producer, stack) == 0 {
      forall a | a in pool
        ensures multiset(visits)[a] == PathsThrough(pool, producer, boxes, a)
      {
        NoPathLeft(pool, producer, stack, a);
      }
    } else {
      SomePathLeft(pool, producer, stack);
      var a :| a in pool && PathsFrom(pool, producer, stack, a) > 0;
      assert multiset(visits)[a] != PathsThrough(pool, producer, boxes, a);
    }
  }

  /**
   Lend `factor` to every ancestor, once per path. `late` tells, before the n-th turn, whether
   the time budget has run out. The walk visits at most 500 transactions, each visit lends
   `factor` to one of them, and no ancestor is visited more often than there are paths to it;
   with time to spare it is exactly as often if and only if there are at most 500 paths in all.
   */
  method PropagateFamilyWeight(pool: OrderedPool, childInputs: seq<Box>, factor: nat, late: nat -> bool)
    returns (ghost visits: seq<Tx>)
    requires Coherent(pool.producer)
    modifies pool`weights
    ensures Lent(old(pool.weights), pool.weights, factor, visits)
    ensures |visits| <= 500
    ensures forall a :: a in pool.weights ==> multiset(visits)[a] <= PathsThrough(pool.weights.Keys, pool.producer, childInputs, a)
    ensures (forall n :: !late(n)) ==>
              (Complete(pool.weights.Keys, pool.producer, childInputs, visits)
               <==> AllPathsThrough(pool.weights.Keys, pool.producer, childInputs) <= 500)
  {
    ghost var left;
    visits, left := Walk(pool, childInputs, factor, late);
    CompleteIff(pool.weights.Keys, pool.producer, childInputs, visits, left);
  }

  /** Lend to `t`, if the pool still has it, and line up whoever made its inputs. */
  method VisitTop(pool: OrderedPool, t: Tx, rest: seq<Tx>, factor: nat) returns (next: seq<Tx>)
    modifies pool`weights
    ensures pool.weights == if t in old(pool.weights) then old(pool.weights)[t := old(pool.weights)[t] + factor] else old(pool.weights)
    ensures next == if t in old(pool.weights) then rest + Makers(pool.producer, t.inputs) else rest
  {
    next := rest;
    if t in pool.weights {
      pool.UpdateWeight(t, pool.weights[t] + factor);
      next := PushMakers(pool.producer, t.inputs, rest);
    }
  }

  /** The walk itself; `left` is what it left unvisited. */
  method Walk(pool: OrderedPool, childInputs: seq<Box>, factor: nat, late: nat -> bool)
    returns (ghost visits: seq<Tx>, ghost left: seq<Tx>)
    requires Coherent(pool.producer)
    modifies pool`weights
    ensures Lent(old(pool.weights), pool.weights, factor, visits) && |visits| <= MAX_PARENT_SCAN_DEPTH
    ensures Tally(pool.weights.Keys, pool.producer, childInputs, visits, left)
    ensures left == [] || |visits| == MAX_PARENT_SCAN_DEPTH || exists n :: late(n)
  {
    ghost var members, producer := pool.weights.Keys, pool.producer;
    visits := [];
    var stack := PushMakers(pool.producer, childInputs, []);
    TallyStart(members, producer, childInputs);
    assert [] + Makers(producer, childInputs) == Makers(producer, childInputs);
    var depth, turn := 0, 0;
    while stack != [] && depth < MAX_PARENT_SCAN_DEPTH && !late(turn)
      invariant Lent(old(pool.weights), pool.weights, factor, visits) && |visits| == depth <= MAX_PARENT_SCAN_DEPTH
      invariant Tally(members, producer, childInputs, visits, stack)
      decreases StepsFrom(producer, stack)
    {
      TallyStep(members, producer, childInputs, visits, stack);
      VisitEnds(producer, stack);
      var t := Last(stack);
      if t in pool.weights {
        LendOnce(old(pool.weights), pool.weights, factor, visits, t);
        depth, visits := depth + 1, visits + [t];
      }
      stack := VisitTop(pool, t, stack[..|stack| - 1], factor);
      turn := turn + 1;
    }
    left := stack;
  }

  // ---- How much weight is added in all ----

  /** Weight added over the transactions of `ids`. */
  ghost function Added(was: map<Tx, nat>, now: map<Tx, nat>, ids: seq<Tx>): int
    requires forall a :: a in ids ==> a in was && a in now
  {
    if ids == [] then 0 else Added(was, now, ids[1..]) + now[ids[0]] - was[ids[0]]
  }

  ghost function Count(visits: seq<Tx>, ids: seq<Tx>): nat {
    if ids == [] then 0 else multiset(visits)[ids[0]] + Count(visits, ids[1..])
  }

  lemma {:induction false} AddedIsCount(was: map<Tx, nat>, now: map<Tx, nat>, factor: nat, visits: seq<Tx>, ids: seq<Tx>)
    requires Lent(was, now, factor, visits) && forall a :: a in ids ==> a in was
    ensures Added(was, now, ids) == Times(factor, Count(visits, ids))
  {
    if ids != [] {
      AddedIsCount(was, now, factor, visits, ids[1..]);
      assert ids[0] in ids;
      TimesPlus(factor, multiset(visits)[ids[0]], Count(visits, ids[1..]));
    }
  }

  lemma {:induction false} CountAtMost(visits: seq<Tx>, ids: seq<Tx>)
    requires forall i, j :: 0 <= i < j < |ids| ==> ids[i] != ids[j]
    ensures Count(visits, ids) <= |visits|
    decreases |visits|
  {
    if visits == [] {
      CountNothing(ids);
    } else {
      var n := |visits| - 1;
      CountAtMost(visits[..n], ids);
      CountOnce(visits[..n], visits[n], ids);
      assert visits == visits[..n] + [visits[n]];
    }
  }

  lemma {:induction false} CountNothing(ids: seq<Tx>)
    ensures Count([], ids) == 0
  {
    if ids != [] {
      CountNothing(ids[1..]);
    }
  }

  lemma {:induction false} CountOnce(visits: seq<Tx>, t: Tx, ids: seq<Tx>)
    requires forall i, j :: 0 <= i < j < |ids| ==> ids[i] != ids[j]
    ensures Count(visits + [t], ids) == Count(visits, ids) + if t in ids then 1 else 0
  {
    if ids != [] {
      CountOnce(visits, t, ids[1..]);
      assert multiset(visits + [t])[ids[0]] == multiset(visits)[ids[0]] + if t == ids[0] then 1 else 0;
      assert t in ids <==> t == ids[0] || t in ids[1..];
    }
  }

  /** Whatever was cut off, a child never lends more than 500 times its factor in all. */
  lemma AddedAtMost(was: map<Tx, nat>, now: map<Tx, nat>, factor: nat, visits: seq<Tx>, ids: seq<Tx>)
    requires Lent(was, now, factor, visits) && |visits| <= 500
    requires (forall a :: a in ids ==> a in was) && forall i, j :: 0 <= i < j < |ids| ==> ids[i] != ids[j]
    ensures Added(was, now, ids) <= Times(factor, 500) == 500 * factor
  {
    AddedIsCount(was, now, factor, visits, ids);
    CountAtMost(visits, ids);
    TimesPlus(factor, Count(visits, ids), MAX_PARENT_SCAN_DEPTH - Count(visits, ids));
    TimesIsProduct(factor, MAX_PARENT_SCAN_DEPTH);
  }
}
