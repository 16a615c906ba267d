/**
 The piecewise marginal fee curve of the NARA/USDC hook.

 `ExactFee` is the reference: the integral of the marginal rate, unit of input by
 unit of input, in ten-thousandths of a unit. `SegmentedFee` floors each of the four
 segments on its own, which is what the script computes.
 */
module FeeCurve {
  import opened Arithmetic

  const BPS: nat := 10000

  datatype Curve = Curve(
    mediumPressureBps: nat, highPressureBps: nat, extremePressureBps: nat,
    baseFeeBps: nat, mediumFeeBps: nat, highFeeBps: nat, extremeFeeBps: nat, maxFeeBps: nat)
  {
    ghost predicate Ordered() {
      mediumPressureBps <= highPressureBps <= extremePressureBps
    }

    ghost predicate Progressive() {
      baseFeeBps <= mediumFeeBps <= highFeeBps <= extremeFeeBps
    }
  }

  const REVIEWED_BALANCED_CURVE: Curve := Curve(1000, 2500, 5000, 75, 75, 100, 200, 200)

  /** The least depth other than zero that the deployed hook accepts. */
  const MIN_PROTOCOL_DEPTH: nat := 1_000_000

  /** The input amounts at which the medium, high and extreme rates start. */
  datatype Tiers = Tiers(medium: nat, high: nat, extreme: nat)
  {
    ghost predicate Ordered() {
      medium <= high <= extreme
    }

    ghost predicate AtMost(other: Tiers) {
      medium <= other.medium && high <= other.high && extreme <= other.extreme
    }
  }

  function CeilMulDiv(value: nat, multiplier: nat, denominator: nat): (r: nat)
    requires denominator > 0
    ensures r * denominator >= value * multiplier
    ensures r > 0 ==> (r - 1) * denominator < value * multiplier
  {
    var product := value * multiplier;
    if product == 0 then 0 else (product - 1) / denominator + 1
  }

  function ScriptTiers(c: Curve, depth: nat): Tiers {
    Tiers(CeilMulDiv(depth, c.mediumPressureBps, BPS),
          CeilMulDiv(depth, c.highPressureBps, BPS),
          CeilMulDiv(depth, c.extremePressureBps, BPS))
  }

  /** The thresholds of the deployed hook, which rounds them down. */
  function HookTiers(c: Curve, depth: nat): Tiers {
    Tiers(depth * c.mediumPressureBps / BPS, depth * c.highPressureBps / BPS, depth * c.extremePressureBps / BPS)
  }

  function MarginalRate(c: Curve, t: Tiers, unit: nat): nat {
    if unit < t.medium then c.baseFeeBps
    else if unit < t.high then c.mediumFeeBps
    else if unit < t.extreme then c.highFeeBps
    else c.extremeFeeBps
  }

  function ExactFee(c: Curve, t: Tiers, amount: nat): nat {
    if amount == 0 then 0 else ExactFee(c, t, amount - 1) + MarginalRate(c, t, amount - 1)
  }

  /** How much of the first `amount` units lies in the segment from `lo` to `hi`. */
  function Clip(amount: nat, lo: nat, hi: nat): nat {
    if amount <= lo then 0 else if amount <= hi then amount - lo else if hi <= lo then 0 else hi - lo
  }

  function Above(amount: nat, lo: nat): nat {
    if amount <= lo then 0 else amount - lo
  }

  function Charge(units: nat, rateBps: nat): nat {
    units * rateBps / BPS
  }

  function SegmentedFee(c: Curve, t: Tiers, amount: nat): nat {
    Charge(Clip(amount, 0, t.medium), c.baseFeeBps)
    + Charge(Clip(amount, t.medium, t.high), c.mediumFeeBps)
    + Charge(Clip(amount, t.high, t.extreme), c.highFeeBps)
    + Charge(Above(amount, t.extreme), c.extremeFeeBps)
  }

  method CumulativeFee(c: Curve, amountIn: nat, depth: nat) returns (fee: int)
    ensures c.Ordered() ==> fee == SegmentedFee(c, ScriptTiers(c, depth), amountIn)
  {
    if amountIn == 0 {
      return 0;
    }
    if depth == 0 {
      return amountIn * c.extremeFeeBps / BPS;
    }
    var mediumAt := CeilMulDiv(depth, c.mediumPressureBps, BPS);
    var highAt := CeilMulDiv(depth, c.highPressureBps, BPS);
    var extremeAt := CeilMulDiv(depth, c.extremePressureBps, BPS);
    if c.Ordered() {
      ScriptTiersOrdered(c, depth);
    }
    var end := if amountIn < mediumAt then amountIn else mediumAt;
    fee := end * c.baseFeeBps / BPS;
    if amountIn <= mediumAt {
      return;
    }
    end := if amountIn < highAt then amountIn else highAt;
    fee := fee + (end - mediumAt) * c.mediumFeeBps / BPS;
    if amountIn <= highAt {
      return;
    }
    end := if amountIn < extremeAt then amountIn else extremeAt;
    fee := fee + (end - highAt) * c.highFeeBps / BPS;
    if amountIn <= extremeAt {
      return;
    }
    fee := fee + (amountIn - extremeAt) * c.extremeFeeBps / BPS;
  }

  // ----- thresholds

  lemma CeilMonotone(v: nat, m: nat, v': nat, m': nat)
    requires v * m <= v' * m'
    ensures CeilMulDiv(v, m, BPS) <= CeilMulDiv(v', m', BPS)
  {}

  lemma ScriptTiersOrdered(c: Curve, depth: nat)
    requires c.Ordered()
    ensures ScriptTiers(c, depth).Ordered() && HookTiers(c, depth).Ordered()
  {
    ProductMonotone(c.mediumPressureBps, c.highPressureBps, depth);
    ProductMonotone(c.highPressureBps, c.extremePressureBps, depth);
    CeilMonotone(depth, c.mediumPressureBps, depth, c.highPressureBps);
    CeilMonotone(depth, c.highPressureBps, depth, c.extremePressureBps);
  }

  lemma ScriptTiersGrowWithDepth(c: Curve, depth: nat, deeper: nat)
    requires depth <= deeper
    ensures ScriptTiers(c, depth).AtMost(ScriptTiers(c, deeper))
  {
    ProductMonotone(depth, deeper, c.mediumPressureBps);
    ProductMonotone(depth, deeper, c.highPressureBps);
    ProductMonotone(depth, deeper, c.extremePressureBps);
    CeilMonotone(depth, c.mediumPressureBps, deeper, c.mediumPressureBps);
    CeilMonotone(depth, c.highPressureBps, deeper, c.highPressureBps);
    CeilMonotone(depth, c.extremePressureBps, deeper, c.extremePressureBps);
  }

  // ----- the segments add up to the integral

  lemma {:induction false} ExactFeeIsSegmentSum(c: Curve, t: Tiers, amount: nat)
    requires t.Ordered()
    ensures ExactFee(c, t, amount) ==
            Clip(amount, 0, t.medium) * c.baseFeeBps + Clip(amount, t.medium, t.high) * c.mediumFeeBps
            + Clip(amount, t.high, t.extreme) * c.highFeeBps + Above(amount, t.extreme) * c.extremeFeeBps
  {
    if amount > 0 {
      var k := amount - 1;
      ExactFeeIsSegmentSum(c, t, k);
      SegmentGrowth(k, 0, t.medium, c.baseFeeBps);
      SegmentGrowth(k, t.medium, t.high, c.mediumFeeBps);
      SegmentGrowth(k, t.high, t.extreme, c.highFeeBps);
      OneMore(Above(k, t.extreme), c.extremeFeeBps);
    }
  }

  lemma SegmentGrowth(k: nat, lo: nat, hi: nat, rate: nat)
    requires lo <= hi
    ensures Clip(k + 1, lo, hi) * rate == Clip(k, lo, hi) * rate + if lo <= k < hi then rate else 0
  {
    OneMore(Clip(k, lo, hi), rate);
  }

  lemma OneMore(units: nat, rate: nat)
    ensures (units + 1) * rate == units * rate + rate
  {}

  /** Each of the four floors loses less than one unit, so the fee is at most four units low and never high. */
  lemma FeeWithinFourFloors(c: Curve, t: Tiers, amount: nat)
    requires t.Ordered()
    ensures BPS * SegmentedFee(c, t, amount) <= ExactFee(c, t, amount)
            <= BPS * SegmentedFee(c, t, amount) + 4 * (BPS - 1)
  {
    ExactFeeIsSegmentSum(c, t, amount);
    FloorLoss(Clip(amount, 0, t.medium), c.baseFeeBps);
    FloorLoss(Clip(amount, t.medium, t.high), c.mediumFeeBps);
    FloorLoss(Clip(amount, t.high, t.extreme), c.highFeeBps);
    FloorLoss(Above(amount, t.extreme), c.extremeFeeBps);
  }

  lemma FloorLoss(units: nat, rateBps: nat)
    ensures BPS * Charge(units, rateBps) <= units * rateBps <= BPS * Charge(units, rateBps) + BPS - 1
  {}

  // ----- shape of the exact fee

  lemma {:induction false} ExactFeeSuperadditive(c: Curve, t: Tiers, x: nat, y: nat)
    requires t.Ordered() && c.Progressive()
    ensures ExactFee(c, t, x) + ExactFee(c, t, y) <= ExactFee(c, t, x + y)
  {
    if y > 0 {
      ExactFeeSuperadditive(c, t, x, y - 1);
      assert x + y - 1 == x + (y - 1);
    }
  }

  lemma {:induction false} ExactFeeBetweenFlatRates(c: Curve, t: Tiers, amount: nat)
    requires c.Progressive()
    ensures c.baseFeeBps * amount <= ExactFee(c, t, amount) <= c.extremeFeeBps * amount
  {
    if amount > 0 {
      ExactFeeBetweenFlatRates(c, t, amount - 1);
      assert c.baseFeeBps * amount == c.baseFeeBps * (amount - 1) + c.baseFeeBps;
      assert c.extremeFeeBps * amount == c.extremeFeeBps * (amount - 1) + c.extremeFeeBps;
    }
  }

  lemma {:induction false} ExactFeeFallsWithHigherTiers(c: Curve, t: Tiers, u: Tiers, amount: nat)
    requires c.Progressive() && t.Ordered() && u.Ordered() && t.AtMost(u)
    ensures ExactFee(c, u, amount) <= ExactFee(c, t, amount)
  {
    if amount > 0 {
      ExactFeeFallsWithHigherTiers(c, t, u, amount - 1);
    }
  }

  // ----- main results

  /** Paying more never costs less, and the fee never grows faster than the amount: net output is monotone. */
  lemma FeeMonotoneAndNonExpansive(c: Curve, t: Tiers, amount: nat, larger: nat)
    requires t.Ordered() && amount <= larger
    requires c.baseFeeBps <= BPS && c.mediumFeeBps <= BPS && c.highFeeBps <= BPS && c.extremeFeeBps <= BPS
    ensures SegmentedFee(c, t, amount) <= SegmentedFee(c, t, larger)
    ensures amount - SegmentedFee(c, t, amount) <= larger - SegmentedFee(c, t, larger)
    ensures SegmentedFee(c, t, larger) <= larger
  {
    SegmentStep(Clip(amount, 0, t.medium), Clip(larger, 0, t.medium), c.baseFeeBps);
    SegmentStep(Clip(amount, t.medium, t.high), Clip(larger, t.medium, t.high), c.mediumFeeBps);
    SegmentStep(Clip(amount, t.high, t.extreme), Clip(larger, t.high, t.extreme), c.highFeeBps);
    SegmentStep(Above(amount, t.extreme), Above(larger, t.extreme), c.extremeFeeBps);
    SegmentStep(0, Clip(larger, 0, t.medium), c.baseFeeBps);
    SegmentStep(0, Clip(larger, t.medium, t.high), c.mediumFeeBps);
    SegmentStep(0, Clip(larger, t.high, t.extreme), c.highFeeBps);
    SegmentStep(0, Above(larger, t.extreme), c.extremeFeeBps);
  }

  lemma SegmentStep(s: nat, s': nat, rate: nat)
    requires s <= s' && rate <= BPS
    ensures Charge(s, rate) <= Charge(s', rate) <= Charge(s, rate) + (s' - s)
  {
    assert s' * rate == s * rate + (s' - s) * rate;
    ProductMonotone(rate, BPS, s' - s);
    assert s' * rate <= s * rate + (s' - s) * BPS;
    assert (s * rate + (s' - s) * BPS) / BPS == s * rate / BPS + (s' - s);
  }

  /** The fee never exceeds the flat extreme rate, which is exactly what the depth-zero branch charges. */
  lemma FeeAtMostFlatExtreme(c: Curve, t: Tiers, amount: nat)
    requires t.Ordered() && c.Progressive()
    ensures SegmentedFee(c, t, amount) <= amount * c.extremeFeeBps / BPS == SegmentedFee(c, ScriptTiers(c, 0), amount)
  {
    FeeAtMostFlat(c, t, amount);
    FlatAtDepthZero(c, amount);
  }

  lemma FeeAtMostFlat(c: Curve, t: Tiers, amount: nat)
    requires t.Ordered() && c.Progressive()
    ensures SegmentedFee(c, t, amount) <= amount * c.extremeFeeBps / BPS
  {
    FeeWithinFourFloors(c, t, amount);
    ExactFeeBetweenFlatRates(c, t, amount);
    FloorKeepsBound(SegmentedFee(c, t, amount), ExactFee(c, t, amount), c.extremeFeeBps, amount);
  }

  lemma FloorKeepsBound(fee: nat, exact: nat, rate: nat, amount: nat)
    requires BPS * fee <= exact <= rate * amount
    ensures fee <= amount * rate / BPS
  {
    assert amount * rate == rate * amount;
  }

  lemma FlatAtDepthZero(c: Curve, amount: nat)
    ensures SegmentedFee(c, ScriptTiers(c, 0), amount) == amount * c.extremeFeeBps / BPS
  {
    assert ScriptTiers(c, 0) == Tiers(0, 0, 0);
    NothingCharged(c.baseFeeBps);
    NothingCharged(c.mediumFeeBps);
    NothingCharged(c.highFeeBps);
  }

  /** A deeper pool charges no more, up to the three units the separate floors can hide. */
  lemma FeeFallsWithDepth(c: Curve, amount: nat, depth: nat, deeper: nat)
    requires c.Ordered() && c.Progressive() && depth <= deeper
    ensures SegmentedFee(c, ScriptTiers(c, deeper), amount) <= SegmentedFee(c, ScriptTiers(c, depth), amount) + 3
  {
    var t, u := ScriptTiers(c, depth), ScriptTiers(c, deeper);
    ScriptTiersOrdered(c, depth);
    ScriptTiersOrdered(c, deeper);
    ScriptTiersGrowWithDepth(c, depth, deeper);
    FeeWithinFourFloors(c, t, amount);
    FeeWithinFourFloors(c, u, amount);
    ExactFeeFallsWithHigherTiers(c, t, u, amount);
  }

  function SeparateFees(c: Curve, t: Tiers, amounts: seq<nat>): nat {
    if amounts == [] then 0 else SegmentedFee(c, t, amounts[0]) + SeparateFees(c, t, amounts[1..])
  }

  lemma OnePieceMore(c: Curve, t: Tiers, x: nat, others: nat)
    requires t.Ordered() && c.Progressive()
    ensures BPS * SegmentedFee(c, t, x) + ExactFee(c, t, others) <= ExactFee(c, t, x + others)
    ensures BPS * SegmentedFee(c, t, x) + 4 * (BPS - 1) >= c.baseFeeBps * (x + others) - c.baseFeeBps * others
  {
    FeeWithinFourFloors(c, t, x);
    ExactFeeBetweenFlatRates(c, t, x);
    ExactFeeSuperadditive(c, t, x, others);
    ShareOfBaseRate(c.baseFeeBps, x, others, BPS * SegmentedFee(c, t, x) + 4 * (BPS - 1));
  }

  lemma ShareOfBaseRate(rate: nat, x: nat, others: nat, covered: nat)
    requires rate * x <= covered
    ensures covered >= rate * (x + others) - rate * others
  {
    assert rate * (x + others) == rate * x + rate * others;
  }

  lemma {:induction false} SeparateFeesWithinExact(c: Curve, t: Tiers, amounts: seq<nat>)
    requires t.Ordered() && c.Progressive()
    ensures BPS * SeparateFees(c, t, amounts) <= ExactFee(c, t, Sum(amounts))
    ensures BPS * SeparateFees(c, t, amounts) + 4 * (BPS - 1) * |amounts| >= c.baseFeeBps * Sum(amounts)
  {
    if amounts != [] {
      var x, rest := amounts[0], amounts[1..];
      SeparateFeesWithinExact(c, t, rest);
      OnePieceMore(c, t, x, Sum(rest));
    }
  }

  /** What "the floor is independent of trade splitting" amounts to once rounding is counted. */
  lemma SplittingBound(c: Curve, depth: nat, amounts: seq<nat>)
    requires c.Ordered() && c.Progressive()
    ensures var t := ScriptTiers(c, depth);
            && SeparateFees(c, t, amounts) <= SegmentedFee(c, t, Sum(amounts)) + 3
            && BPS * SeparateFees(c, t, amounts) >= c.baseFeeBps * Sum(amounts) - 4 * (BPS - 1) * |amounts|
  {
    var t := ScriptTiers(c, depth);
    ScriptTiersOrdered(c, depth);
    SeparateFeesWithinExact(c, t, amounts);
    FeeWithinFourFloors(c, t, Sum(amounts));
  }

  /** The three units are really lost: five trades of 4 pay 15, one trade of 20 pays 12. */
  lemma SplittingBoundIsTight()
    ensures var c := Curve(5, 10, 15, 7500, 7500, 7500, 7500, 7500);
            var t := ScriptTiers(c, 10000);
            && c.Ordered() && c.Progressive()
            && SeparateFees(c, t, [4, 4, 4, 4, 4]) == SegmentedFee(c, t, Sum([4, 4, 4, 4, 4])) + 3
  {
    var c := Curve(5, 10, 15, 7500, 7500, 7500, 7500, 7500);
    var t := ScriptTiers(c, 10000);
    assert t == Tiers(5, 10, 15);
    assert SegmentedFee(c, t, 4) == 3 && SegmentedFee(c, t, 20) == 12;
    var one, two, three, four, five := [4], [4, 4], [4, 4, 4], [4, 4, 4, 4], [4, 4, 4, 4, 4];
    assert five[1..] == four && four[1..] == three && three[1..] == two && two[1..] == one && one[1..] == [];
    assert Sum(one) == 4 && Sum(two) == 8 && Sum(three) == 12 && Sum(four) == 16 && Sum(five) == 20;
    assert SeparateFees(c, t, one) == 3 && SeparateFees(c, t, two) == 6 && SeparateFees(c, t, three) == 9;
    assert SeparateFees(c, t, four) == 12 && SeparateFees(c, t, five) == 15;
  }

  // ----- the base-rate floor, taken literally

  function Lost(units: nat, rateBps: nat): nat {
    units * rateBps % BPS
  }

  /** What the four floors drop, in ten-thousandths of a unit. */
  function Dropped(c: Curve, t: Tiers, amount: nat): nat {
    Lost(Clip(amount, 0, t.medium), c.baseFeeBps)
    + Lost(Clip(amount, t.medium, t.high), c.mediumFeeBps)
    + Lost(Clip(amount, t.high, t.extreme), c.highFeeBps)
    + Lost(Above(amount, t.extreme), c.extremeFeeBps)
  }

  /** What the rates above the base rate add, in ten-thousandths of a unit. */
  function Surplus(c: Curve, t: Tiers, amount: nat): int {
    (c.mediumFeeBps - c.baseFeeBps) * Clip(amount, t.medium, t.high)
    + (c.highFeeBps - c.baseFeeBps) * Clip(amount, t.high, t.extreme)
    + (c.extremeFeeBps - c.baseFeeBps) * Above(amount, t.extreme)
  }

  lemma ChargeAndLoss(units: nat, rateBps: nat, baseBps: nat)
    ensures BPS * Charge(units, rateBps) + Lost(units, rateBps) == baseBps * units + (rateBps - baseBps) * units
  {
    assert units * rateBps == baseBps * units + (rateBps - baseBps) * units;
  }

  lemma SegmentsCover(t: Tiers, amount: nat, k: nat)
    requires t.Ordered()
    ensures k * Clip(amount, 0, t.medium) + k * Clip(amount, t.medium, t.high) + k * Clip(amount, t.high, t.extreme)
            + k * Above(amount, t.extreme) == k * amount
  {
    var a, b := Clip(amount, 0, t.medium), Clip(amount, t.medium, t.high);
    var d, e := Clip(amount, t.high, t.extreme), Above(amount, t.extreme);
    assert a + b + d + e == amount;
    assert k * (a + b + d + e) == k * a + k * b + k * d + k * e;
  }

  lemma FeeAgainstBaseRate(c: Curve, t: Tiers, amount: nat)
    requires t.Ordered()
    ensures BPS * SegmentedFee(c, t, amount) + Dropped(c, t, amount) == c.baseFeeBps * amount + Surplus(c, t, amount)
  {
    ChargeAndLoss(Clip(amount, 0, t.medium), c.baseFeeBps, c.baseFeeBps);
    ChargeAndLoss(Clip(amount, t.medium, t.high), c.mediumFeeBps, c.baseFeeBps);
    ChargeAndLoss(Clip(amount, t.high, t.extreme), c.highFeeBps, c.baseFeeBps);
    ChargeAndLoss(Above(amount, t.extreme), c.extremeFeeBps, c.baseFeeBps);
    SegmentsCover(t, amount, c.baseFeeBps);
  }

  function TotalDropped(c: Curve, t: Tiers, amounts: seq<nat>): nat {
    if amounts == [] then 0 else Dropped(c, t, amounts[0]) + TotalDropped(c, t, amounts[1..])
  }

  function TotalSurplus(c: Curve, t: Tiers, amounts: seq<nat>): int {
    if amounts == [] then 0 else Surplus(c, t, amounts[0]) + TotalSurplus(c, t, amounts[1..])
  }

  lemma OneTradeAgainstBaseRate(c: Curve, t: Tiers, x: nat, others: nat)
    requires t.Ordered()
    ensures BPS * SegmentedFee(c, t, x) + Dropped(c, t, x) + c.baseFeeBps * others
            == c.baseFeeBps * (x + others) + Surplus(c, t, x)
  {
    FeeAgainstBaseRate(c, t, x);
    assert c.baseFeeBps * (x + others) == c.baseFeeBps * x + c.baseFeeBps * others;
  }

  /** Any list of trades pays the base rate in full exactly when the higher rates make up for what the floors drop. */
  lemma {:induction false} BaseFloorExactly(c: Curve, t: Tiers, amounts: seq<nat>)
    requires t.Ordered()
    ensures BPS * SeparateFees(c, t, amounts) + TotalDropped(c, t, amounts)
            == c.baseFeeBps * Sum(amounts) + TotalSurplus(c, t, amounts)
    ensures BPS * SeparateFees(c, t, amounts) >= c.baseFeeBps * Sum(amounts)
            <==> TotalDropped(c, t, amounts) <= TotalSurplus(c, t, amounts)
  {
    if amounts != [] {
      var x, rest := amounts[0], amounts[1..];
      BaseFloorExactly(c, t, rest);
      OneTradeAgainstBaseRate(c, t, x, Sum(rest));
    }
  }

  /**
   With no step at the medium threshold, as in the reviewed curve, one trade up to the high
   threshold pays the base rate in full exactly when neither of its two segments needs rounding.
   */
  lemma BaseFloorBelowHigh(c: Curve, t: Tiers, amount: nat)
    requires t.Ordered() && c.baseFeeBps == c.mediumFeeBps && amount <= t.high
    ensures BPS * SegmentedFee(c, t, amount) >= c.baseFeeBps * amount
            <==> Clip(amount, 0, t.medium) * c.baseFeeBps % BPS == 0
                 && Clip(amount, t.medium, t.high) * c.baseFeeBps % BPS == 0
  {
    FeeAgainstBaseRate(c, t, amount);
    assert Clip(amount, t.high, t.extreme) == 0 && Above(amount, t.extreme) == 0;
    assert Surplus(c, t, amount) == 0;
  }

  lemma SurplusAboveHigh(c: Curve, t: Tiers, amount: nat)
    requires t.Ordered() && c.Progressive() && amount >= t.high
    ensures Surplus(c, t, amount) >= (c.highFeeBps - c.baseFeeBps) * (amount - t.high)
  {
    var d, e, step := Clip(amount, t.high, t.extreme), Above(amount, t.extreme), c.highFeeBps - c.baseFeeBps;
    assert d + e == amount - t.high;
    assert step * (d + e) == step * d + step * e;
    ProductMonotone(step, c.extremeFeeBps - c.baseFeeBps, e);
    ProductMonotone(0, c.mediumFeeBps - c.baseFeeBps, Clip(amount, t.medium, t.high));
  }

  lemma DroppedBound(c: Curve, t: Tiers, amount: nat)
    ensures Dropped(c, t, amount) <= 4 * (BPS - 1)
  {}

  /** Far enough above the high threshold the floor is always met. */
  lemma BaseFloorFarAboveHigh(c: Curve, t: Tiers, amount: nat)
    requires t.Ordered() && c.Progressive() && amount >= t.high
    requires (c.highFeeBps - c.baseFeeBps) * (amount - t.high) >= 4 * (BPS - 1)
    ensures BPS * SegmentedFee(c, t, amount) >= c.baseFeeBps * amount
  {
    FeeAgainstBaseRate(c, t, amount);
    SurplusAboveHigh(c, t, amount);
    DroppedBound(c, t, amount);
  }

  /**
   The reviewed curve at any depth: the floor fails for the smallest trade, and holds 1600 units above
   the high threshold.
   */
  lemma ReviewedFloor(depth: nat, amount: nat)
    ensures var r := REVIEWED_BALANCED_CURVE;
            var t := ScriptTiers(r, depth);
            && BPS * SegmentedFee(r, t, 1) < r.baseFeeBps * 1
            && (amount >= t.high + 1600 ==> BPS * SegmentedFee(r, t, amount) >= r.baseFeeBps * amount)
  {
    var r := REVIEWED_BALANCED_CURVE;
    var t := ScriptTiers(r, depth);
    ScriptTiersOrdered(r, depth);
    if amount >= t.high + 1600 {
      BaseFloorFarAboveHigh(r, t, amount);
    }
  }

  // ----- the script against the hook it describes

  /** The hook rounds its thresholds down, so it starts each higher rate at most one unit of input earlier. */
  lemma {:induction false} ExactFeeShiftedTiers(c: Curve, low: Tiers, up: Tiers, amount: nat)
    requires c.Progressive() && low.Ordered() && up.Ordered() && low.AtMost(up)
    requires up.medium <= low.medium + 1 && up.high <= low.high + 1 && up.extreme <= low.extreme + 1
    ensures ExactFee(c, low, amount) <=
            ExactFee(c, up, amount)
            + (if amount > low.medium then c.mediumFeeBps - c.baseFeeBps else 0)
            + (if amount > low.high then c.highFeeBps - c.mediumFeeBps else 0)
            + (if amount > low.extreme then c.extremeFeeBps - c.highFeeBps else 0)
  {
    if amount > 0 {
      ExactFeeShiftedTiers(c, low, up, amount - 1);
    }
  }

  lemma ScriptAndHookDiffer(c: Curve, depth: nat, amount: nat)
    requires c.Ordered() && c.Progressive() && c.extremeFeeBps <= BPS
    ensures var script := SegmentedFee(c, ScriptTiers(c, depth), amount);
            var hook := SegmentedFee(c, HookTiers(c, depth), amount);
            script - 3 <= hook <= script + 4
  {
    var low, up := HookTiers(c, depth), ScriptTiers(c, depth);
    ScriptTiersOrdered(c, depth);
    CeilAboveFloor(depth * c.mediumPressureBps, up.medium);
    CeilAboveFloor(depth * c.highPressureBps, up.high);
    CeilAboveFloor(depth * c.extremePressureBps, up.extreme);
    ExactFeeShiftedTiers(c, low, up, amount);
    ExactFeeFallsWithHigherTiers(c, low, up, amount);
    FeeWithinFourFloors(c, low, amount);
    FeeWithinFourFloors(c, up, amount);
  }

  lemma CeilAboveFloor(product: nat, ceil: nat)
    requires ceil * BPS >= product && (ceil > 0 ==> (ceil - 1) * BPS < product)
    ensures product / BPS <= ceil <= product / BPS + 1
    ensures ceil == product / BPS <==> product % BPS == 0
  {}

  /** The thresholds coincide exactly when none of them needs rounding. */
  lemma ThresholdsAgreeExactly(c: Curve, depth: nat)
    ensures ScriptTiers(c, depth) == HookTiers(c, depth)
            <==> depth * c.mediumPressureBps % BPS == 0 && depth * c.highPressureBps % BPS == 0
                 && depth * c.extremePressureBps % BPS == 0
  {
    CeilAboveFloor(depth * c.mediumPressureBps, ScriptTiers(c, depth).medium);
    CeilAboveFloor(depth * c.highPressureBps, ScriptTiers(c, depth).high);
    CeilAboveFloor(depth * c.extremePressureBps, ScriptTiers(c, depth).extreme);
  }

  ghost predicate SameFees(c: Curve, t: Tiers, u: Tiers) {
    forall amount: nat :: SegmentedFee(c, t, amount) == SegmentedFee(c, u, amount)
  }

  /** The thresholds of the reviewed curve are a tenth, a quarter and a half of the depth. */
  lemma ReviewedTiers(depth: nat)
    ensures HookTiers(REVIEWED_BALANCED_CURVE, depth) == Tiers(depth / 10, depth / 4, depth / 2)
    ensures ScriptTiers(REVIEWED_BALANCED_CURVE, depth) == Tiers((depth + 9) / 10, (depth + 3) / 4, (depth + 1) / 2)
  {}

  /** A unit moved across the medium threshold shows in one of two amounts, 133 units apart. */
  lemma MediumUnitShows(m: nat)
    ensures var x := if Charge(m + 1, 75) == Charge(m, 75) then 133 else 0;
            Charge(m + 1, 75) + Charge(x, 75) != Charge(m, 75) + Charge(x + 1, 75)
  {}

  /** A unit moved across the high threshold shows in one of two amounts, 99 units apart. */
  lemma HighUnitShows(length: nat)
    ensures var x := if Charge(length + 1, 75) == Charge(length, 75) then 99 else 0;
            Charge(length + 1, 75) + Charge(x, 100) != Charge(length, 75) + Charge(x + 1, 100)
  {}

  lemma FeeInMediumSegment(c: Curve, t: Tiers, amount: nat)
    requires t.medium <= amount <= t.high <= t.extreme
    ensures SegmentedFee(c, t, amount) == Charge(t.medium, c.baseFeeBps) + Charge(amount - t.medium, c.mediumFeeBps)
  {
    assert Clip(amount, 0, t.medium) == t.medium;
    NothingCharged(c.highFeeBps);
    NothingCharged(c.extremeFeeBps);
  }

  lemma FeeInHighSegment(c: Curve, t: Tiers, amount: nat)
    requires t.medium <= t.high <= amount <= t.extreme
    ensures SegmentedFee(c, t, amount)
            == Charge(t.medium, c.baseFeeBps) + Charge(t.high - t.medium, c.mediumFeeBps)
              + Charge(amount - t.high, c.highFeeBps)
  {
    assert Clip(amount, 0, t.medium) == t.medium && Clip(amount, t.medium, t.high) == t.high - t.medium;
    NothingCharged(c.extremeFeeBps);
  }

  lemma NothingCharged(rateBps: nat)
    ensures Charge(0, rateBps) == 0
  {}

  /** A medium threshold one unit later shows just above it, or 133 units further. */
  lemma LaterMediumShows(t: Tiers, u: Tiers) returns (amount: nat)
    requires t.medium == u.medium + 1 && t.Ordered() && u.Ordered() && t.medium + 133 <= u.high <= t.high
    ensures SegmentedFee(REVIEWED_BALANCED_CURVE, t, amount) != SegmentedFee(REVIEWED_BALANCED_CURVE, u, amount)
  {
    var m := u.medium;
    amount := m + 1 + if Charge(m + 1, 75) == Charge(m, 75) then 133 else 0;
    MediumUnitShows(m);
    FeeInMediumSegment(REVIEWED_BALANCED_CURVE, t, amount);
    FeeInMediumSegment(REVIEWED_BALANCED_CURVE, u, amount);
  }

  /** A high threshold one unit later shows just above it, or 99 units further. */
  lemma LaterHighShows(t: Tiers, u: Tiers) returns (amount: nat)
    requires t.medium == u.medium && t.high == u.high + 1 && t.Ordered() && u.Ordered()
            && t.high + 99 <= u.extreme <= t.extreme
    ensures SegmentedFee(REVIEWED_BALANCED_CURVE, t, amount) != SegmentedFee(REVIEWED_BALANCED_CURVE, u, amount)
  {
    var length := u.high - u.medium;
    amount := u.high + 1 + if Charge(length + 1, 75) == Charge(length, 75) then 99 else 0;
    HighUnitShows(length);
    FeeInHighSegment(REVIEWED_BALANCED_CURVE, t, amount);
    FeeInHighSegment(REVIEWED_BALANCED_CURVE, u, amount);
  }

  lemma RoundUp(n: nat, d: nat)
    requires d > 0
    ensures (n + d - 1) / d == n / d + if n % d == 0 then 0 else 1
  {
    var q, r := n / d, n % d;
    assert n == d * q + r;
    if r == 0 {
      DivideExactly(n + d - 1, d, q, d - 1);
    } else {
      assert d * (q + 1) == d * q + d;
      DivideExactly(n + d - 1, d, q + 1, r - 1);
    }
  }

  lemma DivideExactly(n: nat, d: nat, q: nat, r: nat)
    requires r < d && n == d * q + r
    ensures n / d == q && n % d == r
  {
    var q', r' := n / d, n % d;
    assert d * q' + r' == d * q + r;
    assert d * (q' - q) == r - r' && d * (q - q') == r' - r;
    if q' > q {
      ProductMonotone(1, q' - q, d);
    } else if q' < q {
      ProductMonotone(1, q - q', d);
    }
  }

  /** Multiples of 20 are the depths all three thresholds divide. */
  lemma DepthParts(depth: nat)
    ensures depth % 20 == 0 ==> depth % 10 == 0 && depth % 4 == 0 && depth % 2 == 0
    ensures depth % 20 == 10 ==> depth % 10 == 0 && depth % 4 == 2
    ensures depth % 10 == 0 ==> depth % 20 == 0 || depth % 20 == 10
  {
    var q, r := depth / 20, depth % 20;
    assert depth == 10 * (2 * q + r / 10) + r % 10;
    assert depth == 4 * (5 * q + r / 4) + r % 4;
    assert depth == 2 * (10 * q + r / 2) + r % 2;
    DivideExactly(depth, 10, 2 * q + r / 10, r % 10);
    DivideExactly(depth, 4, 5 * q + r / 4, r % 4);
    DivideExactly(depth, 2, 10 * q + r / 2, r % 2);
  }

  lemma ThresholdsApart(depth: nat)
    requires depth >= MIN_PROTOCOL_DEPTH
    ensures depth / 10 + 1 + 133 <= depth / 4 && depth / 4 + 1 + 99 <= depth / 2
  {}

  /** Which of the reviewed thresholds need rounding, and how far apart they are. */
  lemma ReviewedRounding(depth: nat)
    ensures depth % 20 == 0 ==>
              (depth + 9) / 10 == depth / 10 && (depth + 3) / 4 == depth / 4 && (depth + 1) / 2 == depth / 2
    ensures depth % 10 != 0 ==> (depth + 9) / 10 == depth / 10 + 1
    ensures depth % 10 == 0 && depth % 20 != 0 ==>
              (depth + 9) / 10 == depth / 10 && (depth + 3) / 4 == depth / 4 + 1
    ensures depth >= MIN_PROTOCOL_DEPTH ==> (depth + 9) / 10 + 133 <= depth / 4 && (depth + 3) / 4 + 99 <= depth / 2
    ensures depth / 4 <= (depth + 3) / 4 && depth / 2 <= (depth + 1) / 2
    ensures depth / 10 <= depth / 4 <= depth / 2 && (depth + 9) / 10 <= (depth + 3) / 4 <= (depth + 1) / 2
  {
    RoundUp(depth, 10);
    RoundUp(depth, 4);
    RoundUp(depth, 2);
    DepthParts(depth);
    if depth >= MIN_PROTOCOL_DEPTH {
      ThresholdsApart(depth);
    }
  }

  lemma RoundedTiersAgree(t: Tiers, u: Tiers, depth: nat)
    requires depth == 0 || depth >= MIN_PROTOCOL_DEPTH
    requires t == Tiers((depth + 9) / 10, (depth + 3) / 4, (depth + 1) / 2)
            && u == Tiers(depth / 10, depth / 4, depth / 2)
    ensures SameFees(REVIEWED_BALANCED_CURVE, t, u) <==> depth % 20 == 0
  {
    ReviewedRounding(depth);
    if depth % 20 == 0 {
      assert t == u;
    } else if depth % 10 != 0 {
      var amount := LaterMediumShows(t, u);
    } else {
      var amount := LaterHighShows(t, u);
    }
  }

  /** At every depth the hook accepts, the reviewed curve's fees agree at all amounts exactly for multiples of 20. */
  lemma ReviewedFeesAgreeExactly(depth: nat)
    requires depth == 0 || depth >= MIN_PROTOCOL_DEPTH
    ensures var r := REVIEWED_BALANCED_CURVE;
            SameFees(r, ScriptTiers(r, depth), HookTiers(r, depth)) <==> depth % 20 == 0
  {
    ReviewedTiers(depth);
    RoundedTiersAgree(ScriptTiers(REVIEWED_BALANCED_CURVE, depth), HookTiers(REVIEWED_BALANCED_CURVE, depth), depth);
  }

  /** For example, a depth of 1.000001 USDC and an input of 0.100134. */
  lemma ReviewedFeesCanDiffer()
    ensures SegmentedFee(REVIEWED_BALANCED_CURVE, ScriptTiers(REVIEWED_BALANCED_CURVE, 1_000_001), 100_134) == 750
    ensures SegmentedFee(REVIEWED_BALANCED_CURVE, HookTiers(REVIEWED_BALANCED_CURVE, 1_000_001), 100_134) == 751
  {
    ReviewedTiers(1_000_001);
  }
}
