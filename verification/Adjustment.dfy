/** What one difficulty recalculation can and cannot do. */
module Adjustment {
  import opened Seals
  import opened Headers
  import opened Difficulty
  import opened Regression

  // ---- No zero divisor ----

  /** Heights and timestamps both rise strictly. */
  ghost predicate Ascending(anchors: seq<Header>) {
    forall i, j {:trigger Slot(i), Slot(j)} :: Slot(i) && Slot(j) && 0 <= i < j < |anchors| ==>
                     anchors[i].height < anchors[j].height && anchors[i].timestamp < anchors[j].timestamp
  }

  lemma AscendingDeltas(anchors: seq<Header>)
    requires Ascending(anchors)
    ensures !SomeDeltaIsZero(anchors)
    ensures |anchors| >= 2 ==> anchors[0].timestamp < Last(anchors).timestamp
  {
    forall i | 0 < i < |anchors|
      ensures TimeDelta(anchors[i - 1], anchors[i]) > 0
    {
      assert Slot(i - 1) && Slot(i);
    }
    assert Slot(0) && Slot(|anchors| - 1);
  }

  lemma AscendingPoints(rules: Rules, desiredMs: int, anchors: seq<Header>)
    requires |anchors| >= 3 && Ascending(anchors)
    ensures !SomeDeltaIsZero(anchors)
    ensures !AtOneHeight(EpochPoints(rules, desiredMs, anchors))
  {
    AscendingDeltas(anchors);
    var data := EpochPoints(rules, desiredMs, anchors);
    assert Slot(1) && Slot(2);
    assert data[0].0 == anchors[1].height < anchors[2].height == data[1].0;
  }

  /** Anchors in rising order never make the recalculation divide by zero. */
  lemma AscendingNeverDividesByZero(rules: Rules, parent: Header, anchors: seq<Header>)
    requires Ascending(anchors)
    ensures !NextNBits(rules, parent, anchors).DivideByZero?
  {
    if |anchors| >= 2 {
      var epochLength := rules.EpochLengthAt(parent.height + 1);
      var desiredMs := rules.blockIntervalMs * epochLength;
      AscendingDeltas(anchors);
      var data := EpochPoints(rules, desiredMs, anchors);
      if |anchors| >= 3 {
        AscendingPoints(rules, desiredMs, anchors);
        DenominatorSign(data);
      }
      assert Interpolate(data, epochLength).Some?;
    }
  }

  // ---- When the divisor is zero ----

  /** Heights rise strictly; timestamps may do anything, as on a light client's chain. */
  ghost predicate HeightsRise(anchors: seq<Header>) {
    forall i, j {:trigger Slot(i), Slot(j)} :: Slot(i) && Slot(j) && 0 <= i < j < |anchors| ==> anchors[i].height < anchors[j].height
  }

  /** Two anchors that the rule divides by the time between have the same timestamp. */
  ghost predicate ZeroDivisor(rules: Rules, parentHeight: nat, anchors: seq<Header>) {
    && Recalculates(rules, parentHeight)
    && |anchors| >= 2
    && (|| (anchors[0].timestamp < Last(anchors).timestamp && SomeDeltaIsZero(anchors))
        || (rules.Eip37Active(parentHeight + 1) && TimeDelta(anchors[|anchors| - 2], Last(anchors)) == 0))
  }

  lemma RisingPoints(rules: Rules, desiredMs: int, anchors: seq<Header>, epochLength: int)
    requires |anchors| >= 2 && HeightsRise(anchors) && !SomeDeltaIsZero(anchors)
    ensures Interpolate(EpochPoints(rules, desiredMs, anchors), epochLength).Some?
  {
    var data := EpochPoints(rules, desiredMs, anchors);
    if |anchors| >= 3 {
      assert Slot(1) && Slot(2);
      assert data[0].0 == anchors[1].height < anchors[2].height == data[1].0;
      DenominatorSign(data);
    }
  }

  /** Exactly then does the recalculation divide by zero. */
  lemma DividesByZeroIff(rules: Rules, parent: Header, anchors: seq<Header>)
    requires HeightsRise(anchors)
    ensures NextNBits(rules, parent, anchors).DivideByZero? <==> ZeroDivisor(rules, parent.height, anchors)
  {
    if |anchors| >= 2 && !SomeDeltaIsZero(anchors) {
      var epochLength := rules.EpochLengthAt(parent.height + 1);
      RisingPoints(rules, rules.blockIntervalMs * epochLength, anchors, epochLength);
    }
    if |anchors| >= 2 && TimeDelta(anchors[|anchors| - 2], anchors[|anchors| - 1]) == 0 {
      assert SomeDeltaIsZero(anchors);
    }
  }

  // ---- The EIP-37 step ----

  /** The clamp keeps every estimate within half of the reference, up to rounding, whatever the sign. */
  lemma CapRange(diff: int, reference: int)
    ensures 2 * Abs(Cap(diff, reference) - reference) <= Abs(reference) + 1
    ensures reference >= 0 ==> reference / 2 <= Cap(diff, reference) <= 3 * reference / 2
  {
  }

  /** One EIP-37 epoch moves the difficulty by at most half, whatever the anchors were. */
  lemma Eip37Step(rules: Rules, epochLength: nat, anchors: seq<Header>, predictive: int)
    requires |anchors| >= 2
    requires Eip37Difficulty(rules, epochLength, anchors, predictive).Some?
    ensures var last := rules.decode(Last(anchors).nBits);
            var next := Eip37Difficulty(rules, epochLength, anchors, predictive).value;
            && 2 * Abs(next - last) <= Abs(last) + 1
            && (last >= 0 ==> last / 2 <= next <= 3 * last / 2)
  {
    var last := rules.decode(Last(anchors).nBits);
    var n := |anchors|;
    var classic := EpochDifficulty(rules, rules.blockIntervalMs * epochLength, anchors[n - 2], anchors[n - 1]);
    CapRange(TDiv(classic + Cap(predictive, last), 2), last);
  }

  // ---- What exactly is computed ----

  /** nBits of a difficulty: its compact form, or the network's first nBits if that is zero. */
  ghost predicate Encodes(rules: Rules, difficulty: int, nBits: nat) {
    nBits == if rules.encode(difficulty) == 0 then rules.initialNBits else rules.encode(difficulty)
  }

  /** The difficulty of the header that ends the epoch, times the desired over the actual duration. */
  function Quotient(rules: Rules, epochLength: nat, start: Header, end: Header): int
    requires end.timestamp != start.timestamp
  {
    TDiv(rules.decode(end.nBits) * (rules.blockIntervalMs * epochLength), end.timestamp - start.timestamp)
  }

  /** One point for each epoch: the height of the header that ends it, and what it asks for. */
  ghost predicate PointsOf(rules: Rules, epochLength: nat, anchors: seq<Header>, data: seq<Point>) {
    && |data| == |anchors| - 1
    && forall i {:trigger data[i]} :: 0 <= i < |data| ==>
         && anchors[i + 1].timestamp != anchors[i].timestamp
         && data[i] == (anchors[i + 1].height, Quotient(rules, epochLength, anchors[i], anchors[i + 1]))
  }

  lemma EpochPointsAre(rules: Rules, epochLength: nat, anchors: seq<Header>, data: seq<Point>)
    requires anchors != [] && PointsOf(rules, epochLength, anchors, data)
    ensures !SomeDeltaIsZero(anchors) && EpochPoints(rules, rules.blockIntervalMs * epochLength, anchors) == data
  {
    forall i | 0 < i < |anchors|
      ensures TimeDelta(anchors[i - 1], anchors[i]) != 0
    {
      assert data[i - 1].0 == anchors[i].height;
    }
    var points := EpochPoints(rules, rules.blockIntervalMs * epochLength, anchors);
    forall i | 0 <= i < |data|
      ensures points[i] == data[i]
    {
    }
  }

  /** The rule before EIP-37: the regression through those points, the first difficulty if it falls below one. */
  lemma CalculateIs(rules: Rules, epochLength: nat, anchors: seq<Header>, data: seq<Point>, prediction: int)
    requires |anchors| >= 2 && anchors[0].timestamp < Last(anchors).timestamp
    requires PointsOf(rules, epochLength, anchors, data) && Interpolate(data, epochLength) == Some(prediction)
    ensures var r := Calculate(rules, epochLength, anchors);
            r.Bits? && Encodes(rules, if prediction < 1 then rules.decode(rules.initialNBits) else prediction, r.nBits)
  {
    EpochPointsAre(rules, epochLength, anchors, data);
  }

  /** With two anchors there is one point, and the regression is its value. */
  lemma TwoAnchors(rules: Rules, epochLength: nat, start: Header, end: Header)
    requires start.timestamp < end.timestamp
    ensures var r, d := Calculate(rules, epochLength, [start, end]), Quotient(rules, epochLength, start, end);
            r.Bits? && Encodes(rules, if d < 1 then rules.decode(rules.initialNBits) else d, r.nBits)
  {
    var data := [(end.height, Quotient(rules, epochLength, start, end))];
    CalculateIs(rules, epochLength, [start, end], data, data[0].1);
  }

  /** With one anchor, or if time has not moved on, the difficulty stays that of the first anchor. */
  lemma StandingStill(rules: Rules, epochLength: nat, anchors: seq<Header>)
    requires anchors != [] && (|anchors| == 1 || anchors[0].timestamp >= Last(anchors).timestamp)
    ensures var r := Calculate(rules, epochLength, anchors); r.Bits? && Encodes(rules, rules.decode(anchors[0].nBits), r.nBits)
  {
  }

  /** The fixed-point line through several points, read one epoch past the highest. */
  lemma InterpolateIs(data: seq<Point>, epochLength: int, highest: int, slope: int, start: int)
    requires |data| >= 2 && (exists i :: 0 <= i < |data| && data[i].0 == highest) && forall i :: 0 <= i < |data| ==> data[i].0 <= highest
    requires SumXX(data) * |data| - SumX(data) * SumX(data) != 0
    requires slope == TDiv((SumXY(data) * |data| - SumX(data) * SumY(data)) * 1_000_000_000, SumXX(data) * |data| - SumX(data) * SumX(data))
    requires start == TDiv(TDiv(SumY(data) * 1_000_000_000 - slope * SumX(data), |data|), 1_000_000_000)
    ensures Interpolate(data, epochLength) == Some(start + TDiv(slope * (highest + epochLength), 1_000_000_000))
  {
    MaxXIs(data, highest);
    LineIs(|data|, Denominator(data), SumX(data), SumY(data), Numerator(data), highest + epochLength, slope, start);
  }

  lemma LineIs(n: int, denominator: int, xSum: int, ySum: int, numerator: int, point: int, slope: int, start: int)
    requires n != 0 && denominator != 0
    requires slope == TDiv(numerator * 1_000_000_000, denominator)
    requires start == TDiv(TDiv(ySum * 1_000_000_000 - slope * xSum, n), 1_000_000_000)
    ensures LineAt(n, denominator, xSum, ySum, numerator, point) == start + TDiv(slope * point, 1_000_000_000)
  {
  }

  lemma MaxXIs(data: seq<Point>, highest: int)
    requires data != []
    requires (exists i :: 0 <= i < |data| && data[i].0 == highest) && forall i :: 0 <= i < |data| ==> data[i].0 <= highest
    ensures MaxX(data) == highest
  {
    MaxXBounds(data);
    var i :| 0 <= i < |data| && data[i].0 == highest;
  }

  lemma {:induction false} MaxXBounds(data: seq<Point>)
    requires data != []
    ensures forall i :: 0 <= i < |data| ==> data[i].0 <= MaxX(data)
    ensures exists i :: 0 <= i < |data| && data[i].0 == MaxX(data)
  {
    if |data| == 1 {
      assert data[0].0 == MaxX(data);
    } else {
      var init := data[..|data| - 1];
      MaxXBounds(init);
      var i :| 0 <= i < |init| && init[i].0 == MaxX(init);
      assert data[i].0 == MaxX(init) && data[|data| - 1] == Last(data);
    }
  }

  /** The clamp: what lies between half and one and a half of the reference stays, the rest goes to the nearer bound. */
  lemma CapIs(diff: int, reference: int)
    ensures var lower, upper := TDiv(reference, 2), TDiv(reference * 3, 2);
            && (lower <= diff <= upper ==> Cap(diff, reference) == diff)
            && (diff > upper ==> Cap(diff, reference) == upper)
            && (diff < lower && diff <= upper ==> Cap(diff, reference) == lower)
  {
  }

  /** The EIP-37 rule: the mean of what the last epoch asks for and the clamped prediction, clamped again. */
  lemma Eip37Is(rules: Rules, epochLength: nat, anchors: seq<Header>, predicted: nat)
    requires |anchors| >= 2 && Calculate(rules, epochLength, anchors) == Bits(predicted)
    requires anchors[|anchors| - 2].timestamp != Last(anchors).timestamp
    ensures var reference := rules.decode(Last(anchors).nBits);
            var asked := Quotient(rules, epochLength, anchors[|anchors| - 2], Last(anchors));
            var r := Eip37Calculate(rules, epochLength, anchors);
            r.Bits? && Encodes(rules, Cap(TDiv(asked + Cap(rules.decode(predicted), reference), 2), reference), r.nBits)
  {
  }

  /** Which rule gives the nBits after a header: the switch to version 2, the parent, or a recalculation. */
  lemma NextNBitsIs(rules: Rules, parent: Header, anchors: seq<Header>)
    ensures var height, next := parent.height, NextNBits(rules, parent, anchors);
            var epoch := if rules.eip37Height.Some? && rules.eip37EpochLength.Some? && rules.eip37Height.value <= height + 1
                         then rules.eip37EpochLength.value else rules.epochLength;
            if rules.v2NBits.Some? && rules.v2Height > 0 && rules.v2Height <= height + 1 <= rules.v2Height + 1 then next == Bits(rules.v2NBits.value)
            else if height == 0 || epoch == 0 || height % epoch != 0 then next == Bits(parent.nBits)
            else if anchors == [] then next == Bits(rules.initialNBits)
            else if rules.eip37Height.Some? && rules.eip37Height.value <= height + 1 then next == Eip37Calculate(rules, epoch, anchors)
            else next == Calculate(rules, epoch, anchors)
  {
  }

  // ---- Steady state ----

  /** Every epoch took exactly the desired time at one and the same nBits. */
  predicate Steady(anchors: seq<Header>, desiredMs: int) {
    forall i :: 0 < i < |anchors| ==>
                  anchors[i].nBits == anchors[0].nBits
                  && TimeDelta(anchors[i - 1], anchors[i]) == desiredMs
  }

  lemma SteadyPoints(rules: Rules, desiredMs: int, anchors: seq<Header>)
    requires |anchors| >= 2 && Ascending(anchors) && Steady(anchors, desiredMs)
    ensures desiredMs > 0 && !SomeDeltaIsZero(anchors)
    ensures forall i :: 0 <= i < |anchors| - 1 ==>
                          EpochPoints(rules, desiredMs, anchors)[i].1 == rules.decode(anchors[0].nBits)
  {
    assert Slot(0) && Slot(1);
    assert TimeDelta(anchors[0], anchors[1]) == desiredMs;
    AscendingDeltas(anchors);
    var difficulty := rules.decode(anchors[0].nBits);
    TDivExact(difficulty, desiredMs);
    var data := EpochPoints(rules, desiredMs, anchors);
    forall i | 0 <= i < |data|
      ensures data[i].1 == difficulty
    {
      assert anchors[i + 1].nBits == anchors[0].nBits;
    }
  }

  lemma ConstantIsExact(data: seq<Point>, epochLength: int, difficulty: int)
    requires |data| >= 2 && !AtOneHeight(data)
    requires forall i :: 0 <= i < |data| ==> data[i].1 == difficulty
    ensures Interpolate(data, epochLength) == Some(difficulty)
  {
    LineIsExact(data, epochLength, difficulty, 0);
  }

  lemma SteadyPrediction(rules: Rules, epochLength: nat, anchors: seq<Header>)
    requires anchors != [] && Ascending(anchors)
    requires Steady(anchors, rules.blockIntervalMs * epochLength)
    requires rules.decode(anchors[0].nBits) >= 1
    ensures PredictiveDifficulty(rules, epochLength, anchors) == Some(rules.decode(anchors[0].nBits))
  {
    var desiredMs := rules.blockIntervalMs * epochLength;
    if |anchors| >= 2 {
      SteadyPoints(rules, desiredMs, anchors);
    }
    if |anchors| >= 3 {
      AscendingPoints(rules, desiredMs, anchors);
      ConstantIsExact(EpochPoints(rules, desiredMs, anchors), epochLength, rules.decode(anchors[0].nBits));
    }
  }

  /**
   If every epoch was on target at one difficulty, both rules keep the last nBits, provided
   those nBits are the canonical encoding of a positive difficulty.
   */
  lemma SteadyKeepsNBits(rules: Rules, epochLength: nat, anchors: seq<Header>)
    requires |anchors| >= 2 && Ascending(anchors)
    requires Steady(anchors, rules.blockIntervalMs * epochLength)
    requires var bits := Last(anchors).nBits;
             bits != 0 && rules.decode(bits) >= 1 && rules.encode(rules.decode(bits)) == bits
    ensures Calculate(rules, epochLength, anchors) == Bits(Last(anchors).nBits)
    ensures Eip37Calculate(rules, epochLength, anchors) == Bits(Last(anchors).nBits)
  {
    var n, desiredMs := |anchors|, rules.blockIntervalMs * epochLength;
    assert anchors[n - 1].nBits == anchors[0].nBits;
    SteadyPrediction(rules, epochLength, anchors);
    var difficulty := rules.decode(anchors[0].nBits);
    assert TimeDelta(anchors[n - 2], anchors[n - 1]) == desiredMs;
    SteadyPoints(rules, desiredMs, anchors);
    TDivExact(difficulty, desiredMs);
    TDivExact(difficulty, 2);
  }
}
