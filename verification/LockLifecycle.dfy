/**
 Lock weight in fixed point, the terms of a smoke-test lock, and the planner that
 recommends one lifecycle action at a time.
 */
module LockLifecycle {
  import opened Wrappers
  import opened Arithmetic

  const WAD: nat := 1_000_000_000_000_000_000
  const BPS_DENOMINATOR: nat := 10000
  const MAX_JIT_SAFE_BACKLOG: nat := 7
  const UNLIMITED: nat := 0xFFFFFFFFFFFFFFFF_FFFFFFFFFFFFFFFF_FFFFFFFFFFFFFFFF_FFFFFFFFFFFFFFFF

  datatype WeightConfig = WeightConfig(
    durationLinearWad: nat, durationQuadraticWad: nat, activationDelayEpochs: nat, maxLockEpochs: nat)

  function MulDivDown(value: nat, multiplier: nat, denominator: nat): nat
    requires denominator > 0
  {
    value * multiplier / denominator
  }

  function RatioWad(c: WeightConfig, duration: nat): nat
    requires c.maxLockEpochs > 0
  {
    MulDivDown(duration, WAD, c.maxLockEpochs)
  }

  function LinearWad(c: WeightConfig, duration: nat): nat
    requires c.maxLockEpochs > 0
  {
    MulDivDown(c.durationLinearWad, RatioWad(c, duration), WAD)
  }

  function QuadraticWad(c: WeightConfig, duration: nat): nat
    requires c.maxLockEpochs > 0
  {
    var ratioWad := RatioWad(c, duration);
    var ratioSquaredWad := MulDivDown(ratioWad, ratioWad, WAD);
    MulDivDown(c.durationQuadraticWad, ratioSquaredWad, WAD)
  }

  function MultiplierWad(c: WeightConfig, duration: nat): nat
    requires c.maxLockEpochs > 0
  {
    WAD + LinearWad(c, duration) + QuadraticWad(c, duration)
  }

  function Weight(c: WeightConfig, netAmount: nat, duration: nat): nat
    requires c.maxLockEpochs > 0
  {
    MulDivDown(netAmount, MultiplierWad(c, duration), WAD)
  }

  function ComputeWeight(c: WeightConfig, netAmount: nat, duration: nat): Result<nat> {
    if c.maxLockEpochs == 0 then Err("maxLockEpochs must be positive") else Ok(Weight(c, netAmount, duration))
  }

  // ----- monotone and bounded

  lemma MulDivMonotone(a: nat, b: nat, a': nat, b': nat, d: nat)
    requires d > 0 && a <= a' && b <= b'
    ensures MulDivDown(a, b, d) <= MulDivDown(a', b', d)
  {
    ProductMonotone(a, a', b);
    ProductMonotone(b, b', a');
    DivMonotone(a * b, a' * b', d);
  }

  lemma DivMonotone(x: nat, y: nat, d: nat)
    requires d > 0 && x <= y
    ensures x / d <= y / d
  {
    QuotientBracket(x, d);
    QuotientBracket(y, d);
    if x / d >= y / d + 1 {
      ProductMonotone(y / d + 1, x / d, d);
    }
  }

  lemma WholeQuotient(k: nat, d: nat)
    requires d > 0
    ensures MulDivDown(k, d, d) == k
  {
    QuotientBracket(k * d, d);
    FactorOrder(k * d / d, k, d);
    FactorOrder(k, k * d / d + 1, d);
  }

  lemma FactorOrder(a: nat, b: nat, d: nat)
    requires d > 0
    ensures a * d <= b * d ==> a <= b
    ensures a * d < b * d ==> a < b
  {}

  lemma WeightMonotone(c: WeightConfig, net: nat, net': nat, duration: nat, duration': nat)
    requires c.maxLockEpochs > 0 && net <= net' && duration <= duration'
    ensures Weight(c, net, duration) <= Weight(c, net', duration')
  {
    var r, r' := RatioWad(c, duration), RatioWad(c, duration');
    MulDivMonotone(duration, WAD, duration', WAD, c.maxLockEpochs);
    MulDivMonotone(r, r, r', r', WAD);
    MulDivMonotone(c.durationLinearWad, r, c.durationLinearWad, r', WAD);
    MulDivMonotone(c.durationQuadraticWad, MulDivDown(r, r, WAD), c.durationQuadraticWad, MulDivDown(r', r', WAD), WAD);
    MulDivMonotone(net, MultiplierWad(c, duration), net', MultiplierWad(c, duration'), WAD);
  }

  /** A lock weighs at least its principal, and at most what the full duration would give it. */
  lemma WeightBounds(c: WeightConfig, net: nat, duration: nat)
    requires c.maxLockEpochs > 0
    ensures net <= Weight(c, net, duration)
    ensures duration <= c.maxLockEpochs ==>
              Weight(c, net, duration) <= MulDivDown(net, WAD + c.durationLinearWad + c.durationQuadraticWad, WAD)
  {
    WholeQuotient(net, WAD);
    MulDivMonotone(net, WAD, net, MultiplierWad(c, duration), WAD);
    if duration <= c.maxLockEpochs {
      WeightMonotone(c, net, net, duration, c.maxLockEpochs);
      WholeQuotient(WAD, c.maxLockEpochs);
      assert RatioWad(c, c.maxLockEpochs) == WAD;
      WholeQuotient(WAD, WAD);
      WholeQuotient(c.durationLinearWad, WAD);
      WholeQuotient(c.durationQuadraticWad, WAD);
      assert MultiplierWad(c, c.maxLockEpochs) == WAD + c.durationLinearWad + c.durationQuadraticWad;
    }
  }

  // ----- distance from the exact quadratic

  /** The share of the longest lock, as an exact rational. */
  ghost function Share(c: WeightConfig, duration: nat): real
    requires c.maxLockEpochs > 0
  {
    duration as real / c.maxLockEpochs as real
  }

  /** 10^-18, the rounding step of every WAD ratio. */
  ghost const STEP: real := 0.000000000000000001

  ghost function ExactLinear(c: WeightConfig, duration: nat): real
    requires c.maxLockEpochs > 0
  {
    c.durationLinearWad as real * Share(c, duration)
  }

  ghost function ExactQuadratic(c: WeightConfig, duration: nat): real
    requires c.maxLockEpochs > 0
  {
    c.durationQuadraticWad as real * (Share(c, duration) * Share(c, duration))
  }

  /** WAD * (1 + linear*x + quadratic*x^2) for the share x, without any rounding. */
  ghost function ExactMultiplier(c: WeightConfig, duration: nat): real
    requires c.maxLockEpochs > 0
  {
    WAD as real + ExactLinear(c, duration) + ExactQuadratic(c, duration)
  }

  ghost function ExactWeight(c: WeightConfig, net: nat, duration: nat): real
    requires c.maxLockEpochs > 0
  {
    OfNet(net, ExactMultiplier(c, duration))
  }

  ghost function OfNet(net: nat, multiplier: real): real {
    net as real * (multiplier * STEP)
  }

  ghost function LinearGap(c: WeightConfig): real {
    1.0 + c.durationLinearWad as real * STEP
  }

  ghost function QuadraticGap(c: WeightConfig): real {
    1.0 + c.durationQuadraticWad as real * (3.0 * STEP)
  }

  /** The fixed-point multiplier lies below the exact one by less than 2 + (linear + 3*quadratic)/WAD. */
  ghost function MultiplierGap(c: WeightConfig): real {
    LinearGap(c) + QuadraticGap(c)
  }

  ghost function WeightGap(c: WeightConfig, net: nat): real {
    1.0 + OfNet(net, MultiplierGap(c))
  }

  ghost predicate Floors(q: nat, exact: real) {
    q as real <= exact < q as real + 1.0
  }

  lemma RealOrder(a: real, b: real, d: real)
    requires d > 0.0
    ensures a * d <= b * d ==> a <= b
    ensures a * d < b * d ==> a < b
  {}

  lemma RealScale(a: real, b: real, k: real)
    requires a <= b && k >= 0.0
    ensures k * a <= k * b && a * k <= b * k
  {}

  /** Integer division by d floors the product with the reciprocal e of d. */
  lemma FloorTimes(n: nat, d: nat, e: real)
    requires d > 0 && e * d as real == 1.0
    ensures Floors(n / d, n as real * e)
  {
    QuotientBracket(n, d);
    Reassociate(n as real, e, d as real);
    OrderFloors(n / d, n as real * e, d, n);
  }

  lemma DifferenceOfSquares(x: real, a: real)
    ensures x * x == a * a + (x + a) * (x - a)
  {}

  /** With ratio a of x and squared ratio b both rounded down by less than e, the square is off by less than 3e. */
  lemma SquareError(x: real, a: real, b: real, e: real)
    requires 0.0 <= a <= x < a + e && x <= 1.0 && b <= a * a < b + e
    ensures b <= x * x < b + 3.0 * e
  {
    DifferenceOfSquares(x, a);
    SmallProduct(x + a, x - a, e);
  }

  lemma SmallProduct(v: real, u: real, e: real)
    requires 0.0 <= v <= 2.0 && 0.0 <= u <= e
    ensures 0.0 <= v * u <= 2.0 * e
  {
    RealScale(v, 2.0, u);
  }

  lemma Interval(k: real, low: real, x: real, width: real)
    requires k >= 0.0 && low <= x < low + width
    ensures k * low <= k * x <= k * low + k * width
  {
    RealScale(low, x, k);
    RealScale(x, low + width, k);
    assert k * (low + width) == k * low + k * width;
  }

  lemma ScaleFloors(q: nat, z: real, e: real)
    requires Floors(q, z) && e > 0.0
    ensures q as real * e <= z * e < q as real * e + e
  {
    RealScale(q as real, z, e);
    StrictScale(z, q as real + 1.0, e);
    assert (q as real + 1.0) * e == q as real * e + e;
  }

  /** The ratio r of a share x, in steps of e. */
  lemma RatioError(duration: nat, longest: nat, w: nat, e: real, x: real)
    requires 0 < longest && w > 0 && e > 0.0 && e * w as real == 1.0
    requires x * longest as real == duration as real
    ensures var r := duration * w / longest; 0.0 <= r as real * e <= x < r as real * e + e
  {
    RatioFloors(duration, longest, w, x);
    ScaleFloors(duration * w / longest, x * w as real, e);
    Reassociate(x, w as real, e);
  }

  lemma Reassociate(a: real, b: real, c: real)
    ensures a * b * c == a * (c * b)
  {}

  lemma RatioFloors(duration: nat, longest: nat, w: nat, x: real)
    requires 0 < longest && x * longest as real == duration as real
    ensures Floors(duration * w / longest, x * w as real)
  {
    var n, r, z := duration * w, duration * w / longest, x * w as real;
    QuotientBracket(n, longest);
    Reassociate(x, w as real, longest as real);
    assert n as real == z * longest as real;
    OrderFloors(r, z, longest, n);
  }

  lemma RealProduct(a: nat, b: nat)
    ensures (a * b) as real == a as real * b as real
  {}

  lemma CastOrder(m: nat, n: nat)
    ensures m <= n ==> m as real <= n as real
    ensures m < n ==> m as real < n as real
  {}

  lemma OrderFloors(r: nat, z: real, d: nat, n: nat)
    requires d > 0 && r * d <= n < (r + 1) * d && n as real == z * d as real
    ensures Floors(r, z)
  {
    RealProduct(r, d);
    RealProduct(r + 1, d);
    CastOrder(r * d, n);
    CastOrder(n, (r + 1) * d);
    CancelFactor(r as real, z, (r + 1) as real, d as real, (r * d) as real, n as real, ((r + 1) * d) as real);
  }

  lemma CancelFactor(low: real, z: real, high: real, d: real, lowProduct: real, product: real, highProduct: real)
    requires d > 0.0 && lowProduct == low * d && product == z * d && highProduct == high * d
    requires lowProduct <= product < highProduct
    ensures low <= z < high
  {
    RealOrder(low, z, d);
    RealOrder(z, high, d);
  }

  lemma StrictScale(a: real, b: real, k: real)
    requires a < b && k > 0.0
    ensures k * a < k * b
  {}

  lemma SquaredRatioError(r: nat, w: nat, e: real)
    requires w > 0 && e * w as real == 1.0 && e > 0.0
    ensures var a, b := r as real * e, (r * r / w) as real * e; b <= a * a < b + e
  {
    var z := (r * r) as real * e;
    FloorTimes(r * r, w, e);
    ScaleFloors(r * r / w, z, e);
    assert z * e == (r as real * e) * (r as real * e);
  }

  /**
   A term k*y whose factor was rounded down to r by at most `width` loses less than one more unit to
   its own floor.
   */
  lemma TermError(k: nat, r: nat, y: real, width: real, w: nat, e: real)
    requires w > 0 && e * w as real == 1.0 && r as real * e <= y < r as real * e + width
    ensures 0.0 <= k as real * y - (k * r / w) as real < 1.0 + k as real * width
  {
    ProductFloor(k, r, w, e);
    Interval(k as real, r as real * e, y, width);
  }

  lemma QuadraticTermError(quad: nat, x: real, r: nat, w: nat, e: real)
    requires w > 0 && e * w as real == 1.0 && e > 0.0
    requires 0.0 <= r as real * e <= x < r as real * e + e && x <= 1.0
    ensures 0.0 <= quad as real * (x * x) - (quad * (r * r / w) / w) as real < 1.0 + quad as real * (3.0 * e)
  {
    SquaredRatioError(r, w, e);
    SquareError(x, r as real * e, (r * r / w) as real * e, e);
    TermError(quad, r * r / w, x * x, 3.0 * e, w, e);
  }

  lemma ProductFloor(k: nat, r: nat, w: nat, e: real)
    requires w > 0 && e * w as real == 1.0
    ensures Floors(k * r / w, k as real * (r as real * e))
  {
    FloorTimes(k * r, w, e);
    assert (k * r) as real == k as real * r as real;
    assert k as real * r as real * e == k as real * (r as real * e);
  }

  lemma FinalError(net: nat, m: nat, exact: real, gap: real)
    requires 0.0 <= exact - m as real < gap
    ensures 0.0 <= OfNet(net, exact) - MulDivDown(net, m, WAD) as real < 1.0 + OfNet(net, gap)
  {
    RealScale(m as real, exact, STEP);
    StrictScale(exact, m as real + gap, STEP);
    TermError(net, m, exact * STEP, gap * STEP, WAD, STEP);
  }

  lemma ShareIsQuotient(c: WeightConfig, duration: nat)
    requires c.maxLockEpochs > 0
    ensures Share(c, duration) * c.maxLockEpochs as real == duration as real
  {}

  lemma ShareError(c: WeightConfig, duration: nat)
    requires 0 < c.maxLockEpochs && duration <= c.maxLockEpochs
    ensures var x, a := Share(c, duration), RatioWad(c, duration) as real * STEP; 0.0 <= a <= x < a + STEP && x <= 1.0
  {
    ShareIsQuotient(c, duration);
    AtMostOne(Share(c, duration), duration, c.maxLockEpochs);
    RatioError(duration, c.maxLockEpochs, WAD, STEP, Share(c, duration));
  }

  lemma AtMostOne(x: real, n: nat, d: nat)
    requires 0 < d && n <= d && x * d as real == n as real
    ensures x <= 1.0
  {
    RealOrder(x, 1.0, d as real);
  }

  lemma LinearPart(c: WeightConfig, duration: nat)
    requires 0 < c.maxLockEpochs && duration <= c.maxLockEpochs
    ensures 0.0 <= ExactLinear(c, duration) - LinearWad(c, duration) as real < LinearGap(c)
  {
    ShareError(c, duration);
    TermError(c.durationLinearWad, RatioWad(c, duration), Share(c, duration), STEP, WAD, STEP);
  }

  lemma QuadraticPart(c: WeightConfig, duration: nat)
    requires 0 < c.maxLockEpochs && duration <= c.maxLockEpochs
    ensures 0.0 <= ExactQuadratic(c, duration) - QuadraticWad(c, duration) as real < QuadraticGap(c)
  {
    ShareError(c, duration);
    QuadraticTermError(c.durationQuadraticWad, Share(c, duration), RatioWad(c, duration), WAD, STEP);
  }

  lemma MultiplierError(c: WeightConfig, duration: nat)
    requires 0 < c.maxLockEpochs && duration <= c.maxLockEpochs
    ensures 0.0 <= ExactMultiplier(c, duration) - MultiplierWad(c, duration) as real < MultiplierGap(c)
  {
    LinearPart(c, duration);
    QuadraticPart(c, duration);
  }

  /** The fixed-point weight never exceeds the exact quadratic and falls short of it by a bounded amount. */
  lemma WeightUndershoot(c: WeightConfig, net: nat, duration: nat)
    requires 0 < c.maxLockEpochs && duration <= c.maxLockEpochs
    ensures 0.0 <= ExactWeight(c, net, duration) - Weight(c, net, duration) as real < WeightGap(c, net)
  {
    MultiplierError(c, duration);
    FinalError(net, MultiplierWad(c, duration), ExactMultiplier(c, duration), MultiplierGap(c));
  }

  // ----- lock terms

  datatype LockTerms = LockTerms(
    grossAmount: nat, tokenFee: nat, netAmount: nat, durationEpochs: nat,
    minWeight: nat, createdEpoch: nat, activationEpoch: nat, unlockEpoch: nat)

  function BuildLockTerms(c: WeightConfig, grossAmount: nat, lockFeeBps: nat, createdEpoch: nat): Result<LockTerms> {
    var durationEpochs := c.activationDelayEpochs + 1;
    if durationEpochs > c.maxLockEpochs then Err("Shortest lifecycle duration exceeds maxLockEpochs")
    else
      var tokenFee := MulDivDown(grossAmount, lockFeeBps, BPS_DENOMINATOR);
      if grossAmount - tokenFee <= 0 then Err("Lock fee consumes the lifecycle smoke amount")
      else
        var netAmount: nat := grossAmount - tokenFee;
        var minWeight := ComputeWeight(c, netAmount, durationEpochs);
        if minWeight.Err? then Err(minWeight.reason)
        else if minWeight.value == 0 then Err("Lifecycle smoke would create zero position weight")
        else
          Ok(LockTerms(grossAmount, tokenFee, netAmount, durationEpochs, minWeight.value, createdEpoch,
                       createdEpoch + c.activationDelayEpochs + 1, createdEpoch + durationEpochs + 1))
  }

  /** The audit script's recomputation from the epochs and amount stored with a position. */
  function AuditWeight(c: WeightConfig, amount: nat, createdEpoch: nat, unlockEpoch: nat): int
    requires c.maxLockEpochs > 0 && createdEpoch < unlockEpoch
  {
    var duration := unlockEpoch - createdEpoch - 1;
    var r := duration * WAD / c.maxLockEpochs;
    var r2 := r * r / WAD;
    var m := WAD + c.durationLinearWad * r / WAD + c.durationQuadraticWad * r2 / WAD;
    amount * m / WAD
  }

  /** Terms exist exactly when the duration fits and the fee leaves something; the zero-weight refusal never fires. */
  lemma LockTermsExactly(c: WeightConfig, gross: nat, feeBps: nat, created: nat)
    ensures BuildLockTerms(c, gross, feeBps, created).Ok?
            <==> c.activationDelayEpochs < c.maxLockEpochs && gross > 0 && feeBps < BPS_DENOMINATOR
  {
    var fee := MulDivDown(gross, feeBps, BPS_DENOMINATOR);
    if feeBps < BPS_DENOMINATOR && gross > 0 {
      ProductMonotone(feeBps + 1, BPS_DENOMINATOR, gross);
      assert gross * (feeBps + 1) == gross * feeBps + gross;
      assert fee < gross;
    } else {
      MulDivMonotone(gross, BPS_DENOMINATOR, gross, if gross == 0 then BPS_DENOMINATOR else feeBps, BPS_DENOMINATOR);
      WholeQuotient(gross, BPS_DENOMINATOR);
    }
    if c.activationDelayEpochs < c.maxLockEpochs && fee < gross {
      WeightBounds(c, gross - fee, c.activationDelayEpochs + 1);
    }
  }

  /** What the terms promise: conservation of the amount, the audit's weight, and one reward epoch before unlock. */
  lemma LockTermsReconcile(c: WeightConfig, gross: nat, feeBps: nat, created: nat)
    requires BuildLockTerms(c, gross, feeBps, created).Ok?
    ensures var t := BuildLockTerms(c, gross, feeBps, created).value;
            && t.grossAmount == gross && t.tokenFee + t.netAmount == gross
            && t.tokenFee * 10000 <= gross * feeBps < (t.tokenFee + 1) * 10000
            && t.createdEpoch == created && t.durationEpochs == c.activationDelayEpochs + 1
            && AuditWeight(c, t.netAmount, t.createdEpoch, t.unlockEpoch) == t.minWeight >= t.netAmount > 0
            && t.unlockEpoch == t.activationEpoch + 1
            && t.unlockEpoch - t.createdEpoch - 1 == t.durationEpochs
  {
    var t := BuildLockTerms(c, gross, feeBps, created).value;
    QuotientBracket(gross * feeBps, 10000);
    WeightBounds(c, t.netAmount, t.durationEpochs);
  }

  // ----- the planner

  datatype Position = Position(
    amount: nat, activationEpoch: nat, unlockEpoch: nat, claimableNara: nat, claimableEth: nat)

  datatype State = State(
    config: WeightConfig, lockFeeBps: nat, amount: nat,
    settledEpoch: nat, currentEpoch: nat,
    naraBalance: nat, allowance: nat, position: Option<Position>)
  {
    ghost predicate Valid() {
      && settledEpoch <= currentEpoch
      && 0 < amount < UNLIMITED
    }
  }

  datatype Action =
    | FundNara(missing: nat) | Approve | Lock(terms: LockTerms)
    | Revoke | Claim | Unlock
    | WaitForActivation | WaitForRewardOrUnlock | Complete
  {
    /** Recommendations a wallet has to sign, as opposed to a wait, a funding request or completion. */
    predicate Signed() {
      Approve? || Lock? || Revoke? || Claim? || Unlock?
    }
  }

  function NextAction(s: State): Result<Action> {
    if s.settledEpoch > s.currentEpoch then Err("Engine settled epoch is ahead of its clock")
    else if s.currentEpoch - s.settledEpoch > MAX_JIT_SAFE_BACKLOG then Err("Engine backlog is above the JIT limit")
    else
      var terms := BuildLockTerms(s.config, s.amount, s.lockFeeBps, s.currentEpoch);
      if terms.Err? then Err(terms.reason)
      else
        Ok(match s.position
           case None =>
             if s.naraBalance < s.amount then FundNara(s.amount - s.naraBalance)
             else if s.allowance < s.amount then Approve
             else Lock(terms.value)
           case Some(p) =>
             if s.allowance > 0 then Revoke
             else if p.amount == 0 then Complete
             else if s.settledEpoch < p.activationEpoch then WaitForActivation
             else if p.claimableNara > 0 || p.claimableEth > 0 then Claim
             else if s.settledEpoch < p.unlockEpoch then WaitForRewardOrUnlock
             else Unlock)
  }

  /** The stated effect of a signed action; the others change nothing. */
  function Apply(s: State, a: Action): State {
    match a
    case Approve => s.(allowance := s.amount)
    case Lock(t) =>
      if t.grossAmount <= s.naraBalance && t.grossAmount <= s.allowance then
        s.(naraBalance := s.naraBalance - t.grossAmount,
           allowance := if s.allowance == UNLIMITED then UNLIMITED else s.allowance - t.grossAmount,
           position := Some(Position(t.netAmount, t.activationEpoch, t.unlockEpoch, 0, 0)))
      else s
    case Revoke => s.(allowance := 0)
    case Claim =>
      if s.position.Some? then s.(position := Some(s.position.value.(claimableNara := 0, claimableEth := 0)))
      else s
    case Unlock => if s.position.Some? then s.(position := Some(s.position.value.(amount := 0))) else s
    case _ => s
  }

  /** Signed actions still ahead while the settled epoch stands still. */
  ghost function Remaining(s: State): nat {
    match s.position
    case None =>
      if s.naraBalance < s.amount then 0
      else if s.allowance <= s.amount then 1 + (if s.allowance < s.amount then 1 else 0)
      else 2
    case Some(p) =>
      (if s.allowance > 0 then 1 else 0)
      + (if p.amount > 0 && s.settledEpoch >= p.activationEpoch
        && (p.claimableNara > 0 || p.claimableEth > 0) then 1 else 0)
      + (if p.amount > 0 && s.settledEpoch >= p.activationEpoch && s.settledEpoch >= p.unlockEpoch then 1 else 0)
  }

  lemma SignedActionIsProgress(s: State)
    requires s.Valid() && NextAction(s).Ok? && NextAction(s).value.Signed()
    ensures var s' := Apply(s, NextAction(s).value); s'.Valid() && Remaining(s') + 1 == Remaining(s)
  {
    if s.position.None? && s.naraBalance >= s.amount && s.allowance >= s.amount {
      LockTermsReconcile(s.config, s.amount, s.lockFeeBps, s.currentEpoch);
    }
  }

  /** A planner whose every signed recommendation uses up one unit of the measure. */
  ghost predicate Progresses(plan: State -> Result<Action>) {
    forall s: State | s.Valid() && plan(s).Ok? && plan(s).value.Signed() ::
      Apply(s, plan(s).value).Valid() && Remaining(Apply(s, plan(s).value)) + 1 == Remaining(s)
  }

  lemma PlannerProgresses()
    ensures Progresses(NextAction)
  {
    forall s: State | s.Valid() && NextAction(s).Ok? && NextAction(s).value.Signed()
      ensures Apply(s, NextAction(s).value).Valid() && Remaining(Apply(s, NextAction(s).value)) + 1 == Remaining(s)
    {
      SignedActionIsProgress(s);
    }
  }

  /** The signed actions recommended one after another until the planner stops asking for a signature. */
  ghost function Session(s: State, plan: State -> Result<Action>): seq<Action>
    requires s.Valid() && Progresses(plan)
    decreases Remaining(s)
  {
    var next := plan(s);
    if next.Err? || !next.value.Signed() then [] else [next.value] + Session(Apply(s, next.value), plan)
  }

  lemma {:induction false} SessionWithinMeasure(s: State, plan: State -> Result<Action>)
    requires s.Valid() && Progresses(plan)
    ensures |Session(s, plan)| <= Remaining(s)
    decreases Remaining(s)
  {
    var next := plan(s);
    if next.Ok? && next.value.Signed() {
      SessionWithinMeasure(Apply(s, next.value), plan);
    }
  }

  /** With the settled epoch fixed, at most three signatures are asked for, and at most two without a position. */
  lemma SessionIsShort(s: State)
    requires s.Valid()
    ensures Progresses(NextAction)
    ensures |Session(s, NextAction)| <= Remaining(s) <= if s.position.None? then 2 else 3
  {
    PlannerProgresses();
    SessionWithinMeasure(s, NextAction);
  }

  /** The planner answers unless the epochs are out of step, the backlog is above 7, or no terms exist. */
  lemma PlannerAnswers(s: State)
    ensures NextAction(s).Ok?
            <==> s.settledEpoch <= s.currentEpoch <= s.settledEpoch + 7
                 && s.config.activationDelayEpochs < s.config.maxLockEpochs && s.amount > 0 && s.lockFeeBps < 10000
  {
    LockTermsExactly(s.config, s.amount, s.lockFeeBps, s.currentEpoch);
  }

  /** Without a position: fund what is missing, then approve, then lock on the terms of this epoch. */
  lemma BeforeTheLock(s: State)
    requires NextAction(s).Ok? && s.position.None?
    ensures var next := NextAction(s).value;
            && (next.FundNara? <==> s.naraBalance < s.amount)
            && (next.FundNara? ==> s.naraBalance + next.missing == s.amount)
            && (next.Approve? <==> s.naraBalance >= s.amount > s.allowance)
            && (next.Lock? <==> s.naraBalance >= s.amount && s.allowance >= s.amount)
            && (next.Lock? ==> Ok(next.terms) == BuildLockTerms(s.config, s.amount, s.lockFeeBps, s.currentEpoch))
  {}

  /** Following the recommended lock moves exactly the amount into the position and its fee. */
  lemma LockConserves(s: State)
    requires NextAction(s).Ok? && NextAction(s).value.Lock?
    ensures var after := Apply(s, NextAction(s).value);
            && after.naraBalance + s.amount == s.naraBalance
            && after.position.Some? && after.position.value.amount + NextAction(s).value.terms.tokenFee == s.amount
            && after.position.value.activationEpoch == s.currentEpoch + s.config.activationDelayEpochs + 1
            && after.position.value.claimableNara == after.position.value.claimableEth == 0
            && (s.allowance == s.amount < UNLIMITED ==> after.allowance == 0)
  {
    LockTermsReconcile(s.config, s.amount, s.lockFeeBps, s.currentEpoch);
  }

  /** A session of signed actions ends at a funding request, a wait or completion only. */
  lemma SignedExactly(a: Action)
    ensures a.Signed() <==> !a.FundNara? && !a.WaitForActivation? && !a.WaitForRewardOrUnlock? && !a.Complete?
  {}

  /** With a position: each answer's condition, leftover allowance first. */
  lemma AfterTheLock(s: State)
    requires NextAction(s).Ok? && s.position.Some?
    ensures var next, p, at := NextAction(s).value, s.position.value, s.settledEpoch;
            var rewards := p.claimableNara > 0 || p.claimableEth > 0;
            && (next.Revoke? <==> s.allowance > 0)
            && (next.Complete? <==> s.allowance == 0 && p.amount == 0)
            && (next.WaitForActivation? <==> s.allowance == 0 && p.amount > 0 && at < p.activationEpoch)
            && (next.Claim? <==> s.allowance == 0 && p.amount > 0 && at >= p.activationEpoch && rewards)
            && (next.WaitForRewardOrUnlock?
                <==> s.allowance == 0 && p.amount > 0 && !rewards && p.activationEpoch <= at < p.unlockEpoch)
            && (next.Unlock?
                <==> s.allowance == 0 && p.amount > 0 && !rewards && at >= p.activationEpoch && at >= p.unlockEpoch)
  {}

  /** Principal is only released with no allowance left, nothing to claim and the unlock epoch settled. */
  lemma UnlockOnlyWhenSafe(s: State)
    requires NextAction(s).Ok?
    ensures NextAction(s).value.Unlock? <==>
              && s.position.Some? && s.position.value.amount > 0 && s.allowance == 0
              && s.position.value.claimableNara == 0 && s.position.value.claimableEth == 0
              && s.position.value.activationEpoch <= s.settledEpoch && s.position.value.unlockEpoch <= s.settledEpoch
  {}

  // ----- whole lifecycles, with time passing and rewards arriving in between

  datatype Move = Follow | Tick(epochs: nat) | Settle(epochs: nat) | Accrue(nara: nat, eth: nat) | Fund(nara: nat)

  function Step(s: State, m: Move): State {
    match m
    case Follow => if NextAction(s).Ok? then Apply(s, NextAction(s).value) else s
    case Tick(n) => s.(currentEpoch := s.currentEpoch + n)
    case Settle(n) =>
      if s.settledEpoch + n <= s.currentEpoch then s.(settledEpoch := s.settledEpoch + n) else s
    case Accrue(nara, eth) =>
      if s.position.None? || s.position.value.amount == 0 then s
      else
        var p := s.position.value;
        s.(position := Some(p.(claimableNara := p.claimableNara + nara, claimableEth := p.claimableEth + eth)))
    case Fund(n) => s.(naraBalance := s.naraBalance + n)
  }

  ghost function Run(s: State, moves: seq<Move>): State
    decreases |moves|
  {
    if moves == [] then s else Run(Step(s, moves[0]), moves[1..])
  }

  ghost predicate Moving(s: State, m: Move) {
    m.Follow? && NextAction(s).Ok? && NextAction(s).value.Signed() && !NextAction(s).value.Claim?
  }

  /** Signed actions other than claims taken along a run. */
  ghost function NonClaims(s: State, moves: seq<Move>): nat
    decreases |moves|
  {
    if moves == [] then 0
    else (if Moving(s, moves[0]) then 1 else 0) + NonClaims(Step(s, moves[0]), moves[1..])
  }

  ghost function Budget(s: State): nat {
    match s.position
    case None => if s.allowance == s.amount then 2 else 3
    case Some(p) => (if s.allowance > 0 then 1 else 0) + (if p.amount > 0 then 1 else 0)
  }

  lemma StepKeepsBudget(s: State, m: Move)
    requires s.Valid()
    ensures Step(s, m).Valid()
    ensures Budget(Step(s, m)) + (if Moving(s, m) then 1 else 0) == Budget(s)
  {
    if m.Follow? && s.position.None? && NextAction(s).Ok? {
      LockTermsReconcile(s.config, s.amount, s.lockFeeBps, s.currentEpoch);
    }
  }

  /** However time passes and rewards accrue, following the planner costs at most three signatures besides claims. */
  lemma {:induction false} LifecycleSignatures(s: State, moves: seq<Move>)
    requires s.Valid()
    ensures NonClaims(s, moves) + Budget(Run(s, moves)) == Budget(s) <= 3
    decreases |moves|
  {
    if moves != [] {
      StepKeepsBudget(s, moves[0]);
      LifecycleSignatures(Step(s, moves[0]), moves[1..]);
    }
  }
}
