/** Sums and products the fixed-point modules share. */
module Arithmetic {

  function Min(a: int, b: int): int {
    if a < b then a else b
  }

  function Sum(s: seq<nat>): nat {
    if s == [] then 0 else s[0] + Sum(s[1..])
  }

  lemma {:induction false} SumAppend(s: seq<nat>, x: nat)
    ensures Sum(s + [x]) == Sum(s) + x
  {
    if s == [] {
      assert [] + [x] == [x] && [x][1..] == [];
    } else {
      assert (s + [x])[1..] == s[1..] + [x];
      SumAppend(s[1..], x);
    }
  }

  lemma ProductMonotone(a: int, b: int, c: nat)
    requires a <= b
    ensures a * c <= b * c && c * a <= c * b
  {}

  lemma QuotientBracket(n: nat, d: nat)
    requires d > 0
    ensures (n / d) * d <= n < (n / d + 1) * d
    ensures (n / d + 1) * d == (n / d) * d + d
  {
    assert n == d * (n / d) + n % d;
  }

  /** 2^(2^k): two, squared k times. */
  function Tower(k: nat): nat {
    if k == 0 then 2 else Tower(k - 1) * Tower(k - 1)
  }

  lemma Towers()
    ensures Tower(3) == 0x100 && Tower(4) == 0x1_0000 && Tower(5) == 0x1_0000_0000
    ensures Tower(6) == 0x1_0000000000000000 && Tower(7) == 0x1_0000000000000000_0000000000000000
  {
    assert Tower(1) == 4 && Tower(2) == 16;
  }
}
