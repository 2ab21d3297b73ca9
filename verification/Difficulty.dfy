/**
 Difficulty adjustment: which headers anchor a recalculation, the integer linear regression,
 and the EIP-37 average with its 50%-150% clamp.
 */
module Difficulty {
  import opened Headers

  /** Fixed-point scale of the regression slope. */
  const PRECISION: int := 1_000_000_000

  function Abs(x: int): nat {
    if x < 0 then -x else x
  }

  /** Division that truncates toward zero, as big-integer division does. */
  function TDiv(a: int, b: int): (q: int)
    requires b != 0
    ensures Abs(a - q * b) < Abs(b)
    ensures a >= 0 ==> a - q * b >= 0
    ensures a <= 0 ==> a - q * b <= 0
  {
    var m := Abs(a) / Abs(b);
    DivisionRemainder(Abs(a), Abs(b));
    MulSigns(m, b);
    if (a < 0) == (b < 0) then m else -m
  }

  lemma DivisionRemainder(a: nat, b: nat)
    requires b > 0
    ensures 0 <= a - (a / b) * b < b
  {
    assert a == b * (a / b) + a % b;
  }

  lemma MulSigns(m: int, b: int)
    ensures (-m) * b == -(m * b) == m * (-b)
  {
  }

  // ---- Regression ----

  /** A data point: height and the difficulty its epoch called for. */
  type Point = (int, int)

  function SumX(data: seq<Point>): int {
    if data == [] then 0 else SumX(data[..|data| - 1]) + Last(data).0
  }

  function SumY(data: seq<Point>): int {
    if data == [] then 0 else SumY(data[..|data| - 1]) + Last(data).1
  }

  function SumXY(data: seq<Point>): int {
    if data == [] then 0 else SumXY(data[..|data| - 1]) + Last(data).0 * Last(data).1
  }

  function SumXX(data: seq<Point>): int {
    if data == [] then 0 else SumXX(data[..|data| - 1]) + Last(data).0 * Last(data).0
  }

  function Denominator(data: seq<Point>): int {
    SumXX(data) * |data| - SumX(data) * SumX(data)
  }

  function Numerator(data: seq<Point>): int {
    SumXY(data) * |data| - SumX(data) * SumY(data)
  }

  function MaxX(data: seq<Point>): int
    requires data != []
  {
    if |data| == 1 then data[0].0
    else
      var m := MaxX(data[..|data| - 1]);
      if m < Last(data).0 then Last(data).0 else m
  }

  /** Fit a line and read it one epoch past the last point. `None` is a division by zero. */
  function Interpolate(data: seq<Point>, epochLength: int): Option<int> {
    if |data| == 1 then Some(data[0].1)
    else if Denominator(data) == 0 then None
    else Some(Extrapolate(data, MaxX(data) + epochLength))
  }

  function Extrapolate(data: seq<Point>, point: int): int
    requires data != [] && Denominator(data) != 0
  {
    LineAt(|data|, Denominator(data), SumX(data), SumY(data), Numerator(data), point)
  }

  /** The fixed-point line y = a + b * x, read at `point`. */
  function LineAt(n: int, denominator: int, xSum: int, ySum: int, numerator: int, point: int): int
    requires n != 0 && denominator != 0
  {
    var b := TDiv(numerator * PRECISION, denominator);
    var a := TDiv(TDiv(ySum * PRECISION - b * xSum, n), PRECISION);
    a + TDiv(b * point, PRECISION)
  }

  // ---- Recalculation ----

  /** Result of asking for the next nBits. `DivideByZero` is a panic in big-integer division. */
  datatype Outcome = Bits(nBits: nat) | NoHistory | DivideByZero

  function Normalize(rules: Rules, difficulty: int): nat {
    var nBits := rules.encode(difficulty);
    if nBits == 0 then rules.initialNBits else nBits
  }

  function TimeDelta(first: Header, second: Header): int {
    second.timestamp - first.timestamp
  }

  predicate SomeDeltaIsZero(anchors: seq<Header>) {
    exists i :: 0 < i < |anchors| && TimeDelta(anchors[i - 1], anchors[i]) == 0
  }

  /** The difficulty that would have given the epoch ending at `second` its desired length. */
  function EpochDifficulty(rules: Rules, desiredMs: int, first: Header, second: Header): int
    requires TimeDelta(first, second) != 0
  {
    TDiv(rules.decode(second.nBits) * desiredMs, TimeDelta(first, second))
  }

  function EpochPoints(rules: Rules, desiredMs: int, anchors: seq<Header>): (data: seq<Point>)
    requires anchors != [] && !SomeDeltaIsZero(anchors)
    ensures |data| == |anchors| - 1
    ensures forall i :: 0 <= i < |data| ==>
                          data[i].0 == anchors[i + 1].height
                          && TimeDelta(anchors[i], anchors[i + 1]) != 0
                          && data[i].1 == EpochDifficulty(rules, desiredMs, anchors[i], anchors[i + 1])
  {
    if |anchors| == 1 then []
    else
      var n := |anchors|;
      assert TimeDelta(anchors[n - 2], anchors[n - 1]) != 0;
      assert !SomeDeltaIsZero(anchors[..n - 1]);
      EpochPoints(rules, desiredMs, anchors[..n - 1])
      + [(anchors[n - 1].height, EpochDifficulty(rules, desiredMs, anchors[n - 2], anchors[n - 1]))]
  }

  /** The pre-EIP-37 difficulty, before it is squeezed through compact nBits. */
  function PredictiveDifficulty(rules: Rules, epochLength: nat, anchors: seq<Header>): Option<int>
    requires anchors != []
  {
    if |anchors| == 1 || anchors[0].timestamp >= Last(anchors).timestamp then
      Some(rules.decode(anchors[0].nBits))
    else if SomeDeltaIsZero(anchors) then
      None
    else
      var desiredMs := rules.blockIntervalMs * epochLength;
      match Interpolate(EpochPoints(rules, desiredMs, anchors), epochLength)
      case None => None
      case Some(diff) => if diff >= 1 then Some(diff) else Some(rules.decode(rules.initialNBits))
  }

  function Calculate(rules: Rules, epochLength: nat, anchors: seq<Header>): Outcome {
    if anchors == [] then NoHistory
    else
      match PredictiveDifficulty(rules, epochLength, anchors)
      case None => DivideByZero
      case Some(diff) => Bits(Normalize(rules, diff))
  }

  /** Clamp to between half and one and a half times the reference. */
  function Cap(diff: int, reference: int): int {
    var upper := TDiv(reference * 3, 2);
    var lower := TDiv(reference, 2);
    if diff > upper then upper else if diff < lower then lower else diff
  }

  /** The difficulty EIP-37 hands to normalisation: the clamped mean of both estimates. */
  function Eip37Difficulty(rules: Rules, epochLength: nat, anchors: seq<Header>, predictive: int): Option<int>
    requires |anchors| >= 2
  {
    var last := rules.decode(Last(anchors).nBits);
    var n := |anchors|;
    if TimeDelta(anchors[n - 2], anchors[n - 1]) == 0 then None
    else
      var classic := EpochDifficulty(rules, rules.blockIntervalMs * epochLength, anchors[n - 2], anchors[n - 1]);
      Some(Cap(TDiv(classic + Cap(predictive, last), 2), last))
  }

  function Eip37Calculate(rules: Rules, epochLength: nat, anchors: seq<Header>): Outcome {
    if |anchors| < 2 then NoHistory
    else
      match Calculate(rules, epochLength, anchors)
      case Bits(predictive) =>
        (match Eip37Difficulty(rules, epochLength, anchors, rules.decode(predictive))
         case None => DivideByZero
         case Some(diff) => Bits(Normalize(rules, diff)))
      case other => other
  }

  /** `u32::is_multiple_of`: only zero is a multiple of zero. */
  predicate IsMultipleOf(a: nat, b: nat) {
    if b == 0 then a == 0 else a % b == 0
  }

  /** `top - count * step, ..., top - step, top`, leaving out what would be negative. */
  function Ladder(top: nat, step: nat, count: nat): seq<nat>
    decreases count
  {
    if count == 0 then [top]
    else (if top >= count * step then [top - count * step] else []) + Ladder(top, step, count - 1)
  }

  /** Heights of the headers a recalculation for `height` looks at, lowest first. */
  function AnchorHeights(height: nat, epochLength: nat, useLastEpochs: nat): seq<nat>
    requires height > 0
  {
    if IsMultipleOf(height - 1, epochLength) && epochLength > 1 then
      Ladder(height - 1, epochLength, useLastEpochs)
    else if IsMultipleOf(height - 1, epochLength) && height > epochLength * useLastEpochs then
      Ladder(height - 1, epochLength, useLastEpochs)
    else
      [height - 1]
  }

  /** The Autolykos v2 switch overrides the difficulty of the two headers around it. */
  predicate V2Override(rules: Rules, parentHeight: nat) {
    rules.v2NBits.Some? && rules.v2Height > 0
    && (parentHeight == rules.v2Height || parentHeight + 1 == rules.v2Height)
  }

  /** Whether the child of a header at `parentHeight` starts a difficulty epoch. */
  predicate Recalculates(rules: Rules, parentHeight: nat) {
    !V2Override(rules, parentHeight)
    && IsMultipleOf(parentHeight, rules.EpochLengthAt(parentHeight + 1)) && parentHeight > 0
  }

  function AnchorHeightsAfter(rules: Rules, parentHeight: nat): seq<nat> {
    AnchorHeights(parentHeight + 1, rules.EpochLengthAt(parentHeight + 1), rules.useLastEpochs)
  }

  /** nBits of the child of `parent`, given the anchors that could be read. */
  function NextNBits(rules: Rules, parent: Header, anchors: seq<Header>): Outcome {
    if V2Override(rules, parent.height) then Bits(rules.v2NBits.value)
    else if !Recalculates(rules, parent.height) then Bits(parent.nBits)
    else if anchors == [] then Bits(rules.initialNBits)
    else
      var epochLength := rules.EpochLengthAt(parent.height + 1);
      if rules.Eip37Active(parent.height + 1) then Eip37Calculate(rules, epochLength, anchors)
      else Calculate(rules, epochLength, anchors)
  }
}
