/**
 Fee-growth accounting over wrapping 256-bit accumulators.

 The script reads four kinds of word from pool storage (the global accumulators, the
 current tick, and each boundary tick's outside accumulators) and derives what a
 position has earned. The pool itself is the environment: `Step` is the bookkeeping
 those words obey, and `Earned` is the plain ledger the derived fees must agree with.
 */
module FeeGrowth {
  import opened Arithmetic

  /** 2^24, 2^128, 2^160 and 2^256 */
  const TWO24: nat := 0x100_0000
  const Q128: nat := 0x1_0000000000000000_0000000000000000
  const TWO160: nat := 0x1_0000000000000000_0000000000000000_00000000
  const TWO256: nat := 0x1_0000000000000000_0000000000000000_0000000000000000_0000000000000000

  /** 24 = 16 + 8, 160 = 128 + 32 and 256 = 128 + 128 bits. */
  lemma WordSizes()
    ensures TWO24 == Tower(4) * Tower(3) && Q128 == Tower(7)
    ensures TWO160 == Tower(7) * Tower(5) && TWO256 == Tower(7) * Tower(7)
  {
    Towers();
  }

  type Word = w: nat | w < TWO256

  /** One value per pool currency. */
  datatype Pair<T> = Pair(amount0: T, amount1: T)

  // ----- word arithmetic

  /** Masking a difference with 2^256 - 1 is reduction modulo 2^256, for negative differences too. */
  function Masked(x: int): Word {
    x % TWO256
  }

  /** The first value less all the others, modulo 2^256; a single value is left alone. */
  function Subtracted(values: seq<nat>): int
    requires values != []
  {
    if |values| == 1 then values[0] else Masked(values[0] - Sum(values[1..]))
  }

  method SubtractModulo256(values: seq<nat>) returns (result: int)
    requires values != []
    ensures result == Subtracted(values)
  {
    result := values[0];
    for i := 1 to |values|
      invariant result == if i == 1 then values[0] else Masked(values[0] - Sum(values[1..i]))
    {
      SumAppend(values[1..i], values[i]);
      assert values[1..i + 1] == values[1..i] + [values[i]];
      result := Masked(result - values[i]);
    }
    assert values[1..|values|] == values[1..];
  }

  function Subtract(a: Word, b: Word): Word {
    Masked(a - b)
  }

  function Signed24(value: nat): (tick: int)
    ensures -0x80_0000 <= tick < 0x80_0000
    ensures (tick - value) % TWO24 == 0
  {
    var raw := value % TWO24;
    if raw >= 0x80_0000 then raw - TWO24 else raw
  }

  function Unsigned24(tick: int): nat
    requires -0x80_0000 <= tick < 0x80_0000
  {
    if tick < 0 then tick + TWO24 else tick
  }

  /** Slot 0 packs the price below the tick: both fields come back whatever lies above them. */
  lemma Slot0RoundTrip(price: nat, tick: int, rest: nat)
    requires price < TWO160 && -0x80_0000 <= tick < 0x80_0000
    ensures var word := price + TWO160 * (Unsigned24(tick) + TWO24 * rest);
            word % TWO160 == price && Signed24(word / TWO160) == tick
  {
    var upper := Unsigned24(tick) + TWO24 * rest;
    DivideOut(price, upper, TWO160);
    DivideOut(Unsigned24(tick), rest, TWO24);
  }

  lemma DivideOut(low: nat, high: nat, base: nat)
    requires low < base
    ensures (low + base * high) % base == low && (low + base * high) / base == high
  {
    var x := low + base * high;
    var q := x / base;
    assert x == base * q + x % base;
    assert base * (high - q) == x % base - low;
    SmallMultiple(base, high - q);
  }

  lemma SmallMultiple(base: nat, k: int)
    ensures k >= 1 ==> base * k >= base
    ensures k <= -1 ==> base * k <= -(base as int)
  {}

  // ----- masks absorb inner masks

  lemma SameMask(x: int, y: int, k: int)
    requires x == y + k * TWO256
    ensures Masked(x) == Masked(y)
  {}

  lemma MaskedSum(x: int, y: int)
    ensures Masked(Masked(x) + Masked(y)) == Masked(x + y)
  {
    SameMask(x + y, Masked(x) + Masked(y), x / TWO256 + y / TWO256);
  }

  lemma MaskedDifference(x: int, y: int)
    ensures Masked(Masked(x) - Masked(y)) == Masked(x - y)
  {
    SameMask(x - y, Masked(x) - Masked(y), x / TWO256 - y / TWO256);
  }

  lemma WordIsItsOwnMask(w: Word)
    ensures Masked(w) == w
  {}

  lemma MaskedDifferenceOfThree(x: int, y: int, z: int)
    ensures Masked(Masked(Masked(x) - Masked(y)) - Masked(z)) == Masked(x - y - z)
  {
    MaskedDifference(x, y);
    MaskedDifference(x - y, z);
  }

  // ----- growth inside a range, as the script computes it

  function InsideWord(currentTick: int, global: Word, lower: Word, upper: Word, tickLower: int, tickUpper: int): Word {
    if currentTick < tickLower then Subtract(lower, upper)
    else if currentTick >= tickUpper then Subtract(upper, lower)
    else Subtract(Subtract(global, lower), upper)
  }

  datatype Pool = Pool(tick: int, global: Pair<Word>, outside: map<int, Pair<Word>>)

  /** Storage that was never written reads as zero. */
  function Outside(p: Pool, tick: int): Pair<Word> {
    if tick in p.outside then p.outside[tick] else Pair(0, 0)
  }

  function FeeGrowthInside(p: Pool, tickLower: int, tickUpper: int): Pair<Word> {
    var lower, upper := Outside(p, tickLower), Outside(p, tickUpper);
    Pair(InsideWord(p.tick, p.global.amount0, lower.amount0, upper.amount0, tickLower, tickUpper),
         InsideWord(p.tick, p.global.amount1, lower.amount1, upper.amount1, tickLower, tickUpper))
  }

  /** Before either boundary was ever initialized a range reads as if it had existed from the start. */
  lemma UninitializedRange(p: Pool, tickLower: int, tickUpper: int)
    requires tickLower < tickUpper && tickLower !in p.outside && tickUpper !in p.outside
    ensures FeeGrowthInside(p, tickLower, tickUpper)
         == if tickLower <= p.tick < tickUpper then p.global else Pair(0, 0)
  {
    WordIsItsOwnMask(p.global.amount0);
    WordIsItsOwnMask(p.global.amount1);
  }

  /** The script's own form of `FeeGrowthInside`, over the words it has just loaded. */
  method ReadFeeGrowthInside(p: Pool, tickLower: int, tickUpper: int) returns (inside: Pair<Word>)
    ensures inside == FeeGrowthInside(p, tickLower, tickUpper)
  {
    var lower, upper := Outside(p, tickLower), Outside(p, tickUpper);
    var amount0, amount1;
    if p.tick < tickLower {
      amount0 := SubtractModulo256([lower.amount0, upper.amount0]);
      amount1 := SubtractModulo256([lower.amount1, upper.amount1]);
      SubtractedTwo(lower.amount0, upper.amount0);
      SubtractedTwo(lower.amount1, upper.amount1);
    } else if p.tick >= tickUpper {
      amount0 := SubtractModulo256([upper.amount0, lower.amount0]);
      amount1 := SubtractModulo256([upper.amount1, lower.amount1]);
      SubtractedTwo(upper.amount0, lower.amount0);
      SubtractedTwo(upper.amount1, lower.amount1);
    } else {
      amount0 := SubtractModulo256([p.global.amount0, lower.amount0, upper.amount0]);
      amount1 := SubtractModulo256([p.global.amount1, lower.amount1, upper.amount1]);
      SubtractedThree(p.global.amount0, lower.amount0, upper.amount0);
      SubtractedThree(p.global.amount1, lower.amount1, upper.amount1);
    }
    return Pair(amount0, amount1);
  }

  lemma SubtractedTwo(a: Word, b: Word)
    ensures Subtracted([a, b]) == Subtract(a, b)
  {
    assert [a, b][1..] == [b] && [b][1..] == [];
    assert Sum([b]) == b;
  }

  lemma SubtractedThree(a: Word, b: Word, c: Word)
    ensures Subtracted([a, b, c]) == Subtract(Subtract(a, b), c)
  {
    assert [a, b, c][1..] == [b, c] && [b, c][1..] == [c] && [c][1..] == [];
    assert Sum([c]) == c + Sum([c][1..]);
    assert Sum([b, c]) == b + Sum([b, c][1..]);
    MaskTwice(a - b, -(c as int));
  }

  function PositionFee(inside: Word, insideLast: Word, liquidity: nat): nat {
    Subtract(inside, insideLast) * liquidity / Q128
  }

  function FeesSince(inside: Pair<Word>, insideLast: Pair<Word>, liquidity: nat): Pair<nat> {
    Pair(PositionFee(inside.amount0, insideLast.amount0, liquidity),
         PositionFee(inside.amount1, insideLast.amount1, liquidity))
  }

  function PositionFees(p: Pool, tickLower: int, tickUpper: int, insideLast: Pair<Word>, liquidity: nat): Pair<nat> {
    FeesSince(FeeGrowthInside(p, tickLower, tickUpper), insideLast, liquidity)
  }

  // ----- a snapshot against a ledger of growth below each tick

  ghost predicate StandsFor(word: Word, tick: int, currentTick: int, total: int, below: int -> int) {
    word == Masked(if tick <= currentTick then below(tick) else total - below(tick))
  }

  lemma InsideIsLedgerDifference(
      currentTick: int, total: int, below: int -> int, lower: Word, upper: Word, a: int, b: int)
    requires a <= b
    requires StandsFor(lower, a, currentTick, total, below) && StandsFor(upper, b, currentTick, total, below)
    ensures InsideWord(currentTick, Masked(total), lower, upper, a, b) == Masked(below(b) - below(a))
  {
    InsideOfMasks(currentTick, total, if a <= currentTick then below(a) else total - below(a),
                  if b <= currentTick then below(b) else total - below(b), a, b);
  }

  /** The value `InsideWord` would have if nothing wrapped. */
  function Unwrapped(currentTick: int, global: int, lower: int, upper: int, tickLower: int, tickUpper: int): int {
    if currentTick < tickLower then lower - upper
    else if currentTick >= tickUpper then upper - lower
    else global - lower - upper
  }

  lemma InsideOfMasks(currentTick: int, global: int, lower: int, upper: int, a: int, b: int)
    ensures InsideWord(currentTick, Masked(global), Masked(lower), Masked(upper), a, b)
            == Masked(Unwrapped(currentTick, global, lower, upper, a, b))
  {
    MaskedDifference(lower, upper);
    MaskedDifference(upper, lower);
    MaskedDifferenceOfThree(global, lower, upper);
  }

  lemma InsideOfWords(currentTick: int, global: Word, lower: Word, upper: Word, a: int, b: int)
    ensures InsideWord(currentTick, global, lower, upper, a, b)
            == Masked(Unwrapped(currentTick, global, lower, upper, a, b))
  {
    WordIsItsOwnMask(global);
    WordIsItsOwnMask(lower);
    WordIsItsOwnMask(upper);
    InsideOfMasks(currentTick, global, lower, upper, a, b);
  }

  /** Adjacent ranges add up, whatever the words are and wherever the price is. */
  lemma AdjacentRangesAddUp(currentTick: int, global: Word, x: Word, y: Word, z: Word, a: int, b: int, c: int)
    requires a <= b <= c
    ensures Masked(InsideWord(currentTick, global, x, y, a, b) + InsideWord(currentTick, global, y, z, b, c))
            == InsideWord(currentTick, global, x, z, a, c)
  {
    InsideOfWords(currentTick, global, x, y, a, b);
    InsideOfWords(currentTick, global, y, z, b, c);
    InsideOfWords(currentTick, global, x, z, a, c);
    MaskedSum(Unwrapped(currentTick, global, x, y, a, b), Unwrapped(currentTick, global, y, z, b, c));
  }

  // ----- whole runs of the pool

  datatype Event = Accrue(amount: Pair<nat>) | MoveTo(tick: int) | Initialize(tick: int)

  predicate Crossed(boundary: int, from: int, to: int) {
    from < boundary <= to || to < boundary <= from
  }

  function Flip(global: Pair<Word>, outside: Pair<Word>): Pair<Word> {
    Pair(Subtract(global.amount0, outside.amount0), Subtract(global.amount1, outside.amount1))
  }

  function Step(p: Pool, e: Event): Pool {
    match e
    case Accrue(x) =>
      p.(global := Pair(Masked(p.global.amount0 + x.amount0), Masked(p.global.amount1 + x.amount1)))
    case MoveTo(to) =>
      Pool(to, p.global, map t | t in p.outside ::
        if Crossed(t, p.tick, to) then Flip(p.global, p.outside[t]) else p.outside[t])
    case Initialize(t) =>
      if t in p.outside then p
      else p.(outside := p.outside[t := if t <= p.tick then p.global else Pair(0, 0)])
  }

  function Run(p: Pool, events: seq<Event>): Pool
    decreases |events|
  {
    if events == [] then p else Run(Step(p, events[0]), events[1..])
  }

  function Share(p: Pool, e: Event, tickLower: int, tickUpper: int): Pair<nat> {
    if e.Accrue? && tickLower <= p.tick < tickUpper then e.amount else Pair(0, 0)
  }

  /** The ledger: everything accrued while the price was inside the range, never wrapped. */
  function Earned(p: Pool, events: seq<Event>, tickLower: int, tickUpper: int): Pair<nat>
    decreases |events|
  {
    if events == [] then Pair(0, 0)
    else
      var now := Share(p, events[0], tickLower, tickUpper);
      var later := Earned(Step(p, events[0]), events[1..], tickLower, tickUpper);
      Pair(now.amount0 + later.amount0, now.amount1 + later.amount1)
  }

  ghost predicate Grew(before: Pair<Word>, after: Pair<Word>, gain: Pair<nat>) {
    after == Pair(Masked(before.amount0 + gain.amount0), Masked(before.amount1 + gain.amount1))
  }

  lemma StepGrowsInside(p: Pool, e: Event, tickLower: int, tickUpper: int)
    requires tickLower < tickUpper && tickLower in p.outside && tickUpper in p.outside
    ensures Grew(FeeGrowthInside(p, tickLower, tickUpper), FeeGrowthInside(Step(p, e), tickLower, tickUpper),
                 Share(p, e, tickLower, tickUpper))
  {
    match e
    case Accrue(x) => AccrueGrowsInside(p, tickLower, tickUpper, x);
    case MoveTo(to) =>
      MoveKeepsInside(p, tickLower, tickUpper, to);
      NoGrowth(FeeGrowthInside(p, tickLower, tickUpper));
    case Initialize(_) => NoGrowth(FeeGrowthInside(p, tickLower, tickUpper));
  }

  lemma NoGrowth(x: Pair<Word>)
    ensures Grew(x, x, Pair(0, 0))
  {
    WordIsItsOwnMask(x.amount0);
    WordIsItsOwnMask(x.amount1);
  }

  lemma AccrueGrowsInside(p: Pool, tickLower: int, tickUpper: int, x: Pair<nat>)
    requires tickLower < tickUpper && tickLower in p.outside && tickUpper in p.outside
    ensures Grew(FeeGrowthInside(p, tickLower, tickUpper), FeeGrowthInside(Step(p, Accrue(x)), tickLower, tickUpper),
                 Share(p, Accrue(x), tickLower, tickUpper))
  {
    var g, l, u := p.global, p.outside[tickLower], p.outside[tickUpper];
    AccrualStep(p.tick, g.amount0, l.amount0, u.amount0, tickLower, tickUpper, x.amount0);
    AccrualStep(p.tick, g.amount1, l.amount1, u.amount1, tickLower, tickUpper, x.amount1);
  }

  lemma MoveKeepsInside(p: Pool, tickLower: int, tickUpper: int, to: int)
    requires tickLower < tickUpper && tickLower in p.outside && tickUpper in p.outside
    ensures FeeGrowthInside(Step(p, MoveTo(to)), tickLower, tickUpper) == FeeGrowthInside(p, tickLower, tickUpper)
  {
    var g, l, u := p.global, p.outside[tickLower], p.outside[tickUpper];
    MoveStep(p.tick, g.amount0, l.amount0, u.amount0, tickLower, tickUpper, to);
    MoveStep(p.tick, g.amount1, l.amount1, u.amount1, tickLower, tickUpper, to);
  }

  lemma AccrualStep(tick: int, global: Word, lower: Word, upper: Word, a: int, b: int, gain: nat)
    requires a < b
    ensures InsideWord(tick, Masked(global + gain), lower, upper, a, b)
            == Masked(InsideWord(tick, global, lower, upper, a, b) + if a <= tick < b then gain else 0)
  {
    var raw := Unwrapped(tick, global, lower, upper, a, b);
    var gained := if a <= tick < b then gain else 0;
    InsideOfWords(tick, global, lower, upper, a, b);
    WordIsItsOwnMask(lower);
    WordIsItsOwnMask(upper);
    InsideOfMasks(tick, global + gain, lower, upper, a, b);
    MaskTwice(raw, gained);
  }

  lemma MoveStep(tick: int, global: Word, lower: Word, upper: Word, a: int, b: int, to: int)
    requires a < b
    ensures InsideWord(to, global, if Crossed(a, tick, to) then Subtract(global, lower) else lower,
                       if Crossed(b, tick, to) then Subtract(global, upper) else upper, a, b)
            == InsideWord(tick, global, lower, upper, a, b)
  {
    InsideOfWords(tick, global, lower, upper, a, b);
    WordIsItsOwnMask(global);
    WordIsItsOwnMask(lower);
    WordIsItsOwnMask(upper);
    InsideOfMasks(to, global, if Crossed(a, tick, to) then global - lower else lower,
                  if Crossed(b, tick, to) then global - upper else upper, a, b);
  }

  /** Over every run, the inside growth a script reads moves by exactly what the ledger earned, modulo 2^256. */
  lemma {:induction false} RunGrowsInsideByEarned(p: Pool, events: seq<Event>, tickLower: int, tickUpper: int)
    requires tickLower < tickUpper && tickLower in p.outside && tickUpper in p.outside
    ensures Grew(FeeGrowthInside(p, tickLower, tickUpper), FeeGrowthInside(Run(p, events), tickLower, tickUpper),
                 Earned(p, events, tickLower, tickUpper))
    decreases |events|
  {
    var before := FeeGrowthInside(p, tickLower, tickUpper);
    if events == [] {
      NoGrowth(before);
    } else {
      var next := Step(p, events[0]);
      StepGrowsInside(p, events[0], tickLower, tickUpper);
      RunGrowsInsideByEarned(next, events[1..], tickLower, tickUpper);
      GrowthComposes(before, FeeGrowthInside(next, tickLower, tickUpper),
                     FeeGrowthInside(Run(p, events), tickLower, tickUpper),
                     Share(p, events[0], tickLower, tickUpper), Earned(next, events[1..], tickLower, tickUpper));
    }
  }

  lemma GrowthComposes(before: Pair<Word>, middle: Pair<Word>, after: Pair<Word>, now: Pair<nat>, later: Pair<nat>)
    requires Grew(before, middle, now) && Grew(middle, after, later)
    ensures Grew(before, after, Pair(now.amount0 + later.amount0, now.amount1 + later.amount1))
  {
    MaskTwice(before.amount0 + now.amount0, later.amount0);
    MaskTwice(before.amount1 + now.amount1, later.amount1);
  }

  lemma MaskTwice(x: int, y: int)
    ensures Masked(Masked(x) + y) == Masked(x + y)
  {
    SameMask(x + y, Masked(x) + y, x / TWO256);
  }

  /**
   The fees the script reports for a position are the unwrapped floor of what its range earned
   since its last snapshot, as long as that is less than 2^256 per unit of liquidity.
   */
  lemma ReportedFeesAreEarned(p: Pool, events: seq<Event>, tickLower: int, tickUpper: int, liquidity: nat)
    requires tickLower < tickUpper && tickLower in p.outside && tickUpper in p.outside
    ensures var snapshot := FeeGrowthInside(p, tickLower, tickUpper);
            var earned := Earned(p, events, tickLower, tickUpper);
            var fees := PositionFees(Run(p, events), tickLower, tickUpper, snapshot, liquidity);
            && (earned.amount0 < TWO256 ==> fees.amount0 == earned.amount0 * liquidity / Q128)
            && (earned.amount1 < TWO256 ==> fees.amount1 == earned.amount1 * liquidity / Q128)
  {
    RunGrowsInsideByEarned(p, events, tickLower, tickUpper);
    FeesSinceGrowth(FeeGrowthInside(p, tickLower, tickUpper), FeeGrowthInside(Run(p, events), tickLower, tickUpper),
                    Earned(p, events, tickLower, tickUpper), liquidity);
  }

  lemma FeesSinceGrowth(before: Pair<Word>, after: Pair<Word>, gain: Pair<nat>, liquidity: nat)
    requires Grew(before, after, gain)
    ensures gain.amount0 < TWO256 ==>
              FeesSince(after, before, liquidity).amount0 == gain.amount0 * liquidity / Q128
    ensures gain.amount1 < TWO256 ==>
              FeesSince(after, before, liquidity).amount1 == gain.amount1 * liquidity / Q128
  {
    SubtractUndoesGrowth(before.amount0, gain.amount0);
    SubtractUndoesGrowth(before.amount1, gain.amount1);
  }

  lemma SubtractUndoesGrowth(before: Word, gain: nat)
    ensures Subtract(Masked(before + gain), before) == Masked(gain)
    ensures gain < TWO256 ==> Masked(gain) == gain
  {
    MaskTwice(before + gain, -(before as int));
  }

  // ----- several positions on one range

  function SeparateFees(growth: nat, liquidity: seq<nat>): nat {
    if liquidity == [] then 0
    else growth * liquidity[0] / Q128 + SeparateFees(growth, liquidity[1..])
  }

  /** Positions sharing a range are never paid more than the pooled floor, and each loses less than one unit. */
  lemma {:induction false} SeparateFeesNearPooledFee(growth: nat, liquidity: seq<nat>)
    requires liquidity != []
    ensures SeparateFees(growth, liquidity) <= growth * Sum(liquidity) / Q128
            <= SeparateFees(growth, liquidity) + |liquidity| - 1
  {
    var first, rest := liquidity[0], liquidity[1..];
    if rest == [] {
      assert Sum(rest) == 0 && Sum(liquidity) == first;
    } else {
      SeparateFeesNearPooledFee(growth, rest);
      OnePositionMore(growth, Sum(rest), first);
    }
  }

  lemma OnePositionMore(growth: nat, others: nat, last: nat)
    ensures growth * others / Q128 + growth * last / Q128 <= growth * (others + last) / Q128
            <= growth * others / Q128 + growth * last / Q128 + 1
  {
    assert growth * (others + last) == growth * others + growth * last;
    FloorsAdd(growth * others, growth * last);
  }

  lemma FloorsAdd(x: nat, y: nat)
    ensures x / Q128 + y / Q128 <= (x + y) / Q128 <= x / Q128 + y / Q128 + 1
  {}
}
