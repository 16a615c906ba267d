/** Integer square root and the Q64.96 pool price computed from it. */
module PoolPrice {
  import opened Wrappers
  import opened Arithmetic

  /** 2^192 */
  const Q192: nat := 0x1_000000000000000000000000_000000000000000000000000

  /** 192 = 128 + 64 bits. */
  lemma PriceScale()
    ensures Q192 == Tower(7) * Tower(6)
  {
    Towers();
  }

  ghost predicate IsFloorSqrt(n: nat, r: nat) {
    r * r <= n < (r + 1) * (r + 1)
  }

  lemma SquareMonotone(a: nat, b: nat)
    requires a <= b
    ensures a * a <= b * b
  {}

  lemma FloorSqrtUnique(n: nat, r: nat, s: nat)
    requires IsFloorSqrt(n, r) && IsFloorSqrt(n, s)
    ensures r == s
  {
    if r < s {
      SquareMonotone(r + 1, s);
    } else if s < r {
      SquareMonotone(s + 1, r);
    }
  }

  ghost predicate NotBelowRoot(n: nat, x: nat) {
    n < (x + 1) * (x + 1)
  }

  function NewtonStep(n: nat, x: nat): nat
    requires x > 0
  {
    (x + n / x) / 2
  }

  /** One Newton step never falls below the root, whatever positive estimate it starts from. */
  lemma NewtonStaysAbove(n: nat, x: nat)
    requires x > 0
    ensures NotBelowRoot(n, NewtonStep(n, x))
    ensures n >= 2 ==> NewtonStep(n, x) > 0
  {
    var q := n / x;
    QuotientBracket(n, x);
    ArithmeticGeometric(x, q + 1, NewtonStep(n, x) + 1);
    if x == 1 {
      assert q == n;
    }
  }

  lemma ArithmeticGeometric(a: int, b: int, m: int)
    requires a + b <= 2 * m && 0 <= a && 0 <= b
    ensures a * b <= m * m
  {
    SquareOfSum(a, b);
    SquareMonotone(a + b, 2 * m);
    assert (2 * m) * (2 * m) == 4 * (m * m);
  }

  lemma SquareOfSum(a: int, b: int)
    ensures 4 * (a * b) <= (a + b) * (a + b)
  {
    assert (a + b) * (a + b) == 4 * (a * b) + (a - b) * (a - b);
  }

  lemma NewtonStopsAtRoot(n: nat, x: nat)
    requires x > 0 && NewtonStep(n, x) >= x
    ensures x * x <= n
  {
    QuotientBracket(n, x);
    ProductMonotone(x, n / x, x);
  }

  lemma SquareExceeds(n: nat)
    ensures NotBelowRoot(n, n)
  {}

  method Isqrt(value: int) returns (root: Result<nat>)
    ensures root.Err? <==> value < 0
    ensures root.Ok? ==> IsFloorSqrt(value, root.value)
  {
    if value < 0 {
      return Err("isqrt only accepts unsigned integers");
    }
    if value < 2 {
      return Ok(value);
    }
    var x0: nat := value;
    var x1 := NewtonStep(value, x0);
    SquareExceeds(value);
    while x1 < x0
      invariant 0 < x0 && x1 == NewtonStep(value, x0)
      invariant NotBelowRoot(value, x0)
      decreases x0
    {
      NewtonStaysAbove(value, x0);
      x0 := x1;
      x1 := NewtonStep(value, x0);
    }
    NewtonStopsAtRoot(value, x0);
    return Ok(x0);
  }

  // ----- the pool price

  /** `s` is the largest root whose square does not exceed amount1/amount0, scaled by `scale`. */
  ghost predicate IsScaledRoot(amount0: nat, amount1: nat, scale: nat, s: nat) {
    s * s * amount0 <= amount1 * scale < (s + 1) * (s + 1) * amount0
  }

  /** The square root price in Q64.96. */
  ghost predicate IsSqrtPrice(amount0: nat, amount1: nat, s: nat) {
    IsScaledRoot(amount0, amount1, Q192, s)
  }

  lemma FloorQuotientSqrt(n: nat, d: nat, s: nat)
    requires d > 0 && IsFloorSqrt(n / d, s)
    ensures s * s * d <= n < (s + 1) * (s + 1) * d
  {
    var q := n / d;
    QuotientBracket(n, d);
    ProductMonotone(s * s, q, d);
    ProductMonotone(q + 1, (s + 1) * (s + 1), d);
  }

  method SqrtPriceX96FromRawAmounts(amount0: int, amount1: int) returns (price: Result<nat>)
    ensures price.Err? <==> amount0 <= 0 || amount1 <= 0
    ensures price.Ok? ==> IsSqrtPrice(amount0, amount1, price.value)
  {
    if amount0 <= 0 || amount1 <= 0 {
      return Err("Initial pool amounts must be positive");
    }
    var quotient := amount1 * Q192 / amount0;
    price := Isqrt(quotient);
    FloorQuotientSqrt(amount1 * Q192, amount0, price.value);
  }

  /** Addresses are compared as the unsigned numbers they spell. */
  function SortAddresses(a: nat, b: nat): (sorted: (nat, nat))
    ensures sorted.0 <= sorted.1
    ensures multiset{sorted.0, sorted.1} == multiset{a, b}
  {
    if a < b then (a, b) else (b, a)
  }

  /**
   The deployment's pool configuration: the price is always currency1 per currency0, whichever side the
   token is on.
   */
  method InitialPool(token: nat, usdc: nat, naraAmount: int, usdcAmount: int)
    returns (currency0: nat, currency1: nat, price: Result<nat>)
    requires token != usdc
    ensures currency0 < currency1 && multiset{currency0, currency1} == multiset{token, usdc}
    ensures price.Ok? <==> naraAmount > 0 && usdcAmount > 0
    ensures price.Ok? && token < usdc ==> IsSqrtPrice(naraAmount, usdcAmount, price.value)
    ensures price.Ok? && usdc < token ==> IsSqrtPrice(usdcAmount, naraAmount, price.value)
  {
    var sorted := SortAddresses(token, usdc);
    currency0, currency1 := sorted.0, sorted.1;
    var tokenIsCurrency0 := currency0 == token;
    var amount0 := if tokenIsCurrency0 then naraAmount else usdcAmount;
    var amount1 := if tokenIsCurrency0 then usdcAmount else naraAmount;
    price := SqrtPriceX96FromRawAmounts(amount0, amount1);
  }

  /** Quoting the pair the other way round gives the reciprocal price, as closely as integers allow. */
  lemma OppositeOrdersAreReciprocal(amount0: nat, amount1: nat, scale: nat, s: nat, t: nat)
    requires amount0 > 0 && amount1 > 0
    requires IsScaledRoot(amount0, amount1, scale, s) && IsScaledRoot(amount1, amount0, scale, t)
    ensures s * t <= scale < (s + 1) * (t + 1)
  {
    ReciprocalBound(amount0, amount1, s, t, scale);
    ReciprocalBound(amount0, amount1, s + 1, t + 1, scale);
  }

  /** Multiplying the two inequalities cancels the amounts and leaves the squares of s*t and q. */
  lemma ReciprocalBound(a: nat, b: nat, s: nat, t: nat, q: nat)
    requires a > 0 && b > 0
    ensures s * s * a <= b * q && t * t * b <= a * q ==> s * t <= q
    ensures b * q < s * s * a && a * q < t * t * b ==> q < s * t
  {
    SquaresMultiply(s, a, t, b);
    Interchange(b, q, a, q);
    CompareRoots(s * s * a, t * t * b, b * q, a * q, s * t, q, a * b);
  }

  lemma SquaresMultiply(s: nat, a: nat, t: nat, b: nat)
    ensures (s * s * a) * (t * t * b) == (s * t) * (s * t) * (a * b)
  {
    Interchange(s * s, a, t * t, b);
    Interchange(s, s, t, t);
  }

  lemma CompareRoots(left: nat, right: nat, up: nat, down: nat, p: nat, q: nat, k: nat)
    requires k > 0 && left * right == p * p * k && up * down == k * (q * q)
    ensures left <= up && right <= down ==> p <= q
    ensures up < left && down < right ==> q < p
  {
    if left <= up && right <= down {
      ProductsCompare(left, up, right, down);
      SquareBelow(q, p, k);
    }
    if up < left && down < right {
      ProductsCompareStrictly(up, left, down, right);
      SquareBelow(q, p, k);
    }
  }

  lemma ProductsCompareStrictly(a: nat, b: nat, c: nat, d: nat)
    requires a < b && c < d
    ensures a * c < b * d
  {
    ProductMonotone(a + 1, b, d);
    ProductMonotone(c, d, a);
  }

  lemma Interchange(a: nat, b: nat, c: nat, d: nat)
    ensures (a * b) * (c * d) == (a * c) * (b * d)
  {}

  lemma ProductsCompare(a: nat, b: nat, c: nat, d: nat)
    requires a <= b && c <= d
    ensures a * c <= b * d
  {
    ProductMonotone(a, b, c);
    ProductMonotone(c, d, b);
  }

  lemma SquareBelow(q: nat, p: nat, k: nat)
    requires k > 0
    ensures q * q * k < p * p * k <==> q < p
  {
    if q < p {
      SquareMonotone(q + 1, p);
      ProductMonotone(q * q + 1, p * p, k);
    } else {
      SquareMonotone(p, q);
      ProductMonotone(p * p, q * q, k);
    }
  }

  /** The price of given amounts is unique, so the predicate above determines what is written on chain. */
  lemma SqrtPriceUnique(amount0: nat, amount1: nat, scale: nat, s: nat, t: nat)
    requires IsScaledRoot(amount0, amount1, scale, s) && IsScaledRoot(amount0, amount1, scale, t)
    ensures s == t
  {
    if s < t {
      SquareMonotone(s + 1, t);
      ProductMonotone((s + 1) * (s + 1), t * t, amount0);
    } else if t < s {
      SquareMonotone(t + 1, s);
      ProductMonotone((t + 1) * (t + 1), s * s, amount0);
    }
  }
}
