/** Candidate identifiers: profile name, whole-token budget and a suffix, joined by dashes. */
module CandidateIds {

  const NARA_UNIT: nat := 1_000_000_000_000_000_000

  function Digit(d: nat): char
    requires d < 10
  {
    '0' + d as char
  }

  function Decimal(n: nat): string {
    if n < 10 then [Digit(n)] else Decimal(n / 10) + [Digit(n % 10)]
  }

  lemma {:induction false} DecimalHasNoDash(n: nat)
    ensures Decimal(n) != [] && '-' !in Decimal(n)
  {
    if n >= 10 {
      DecimalHasNoDash(n / 10);
    }
  }

  /** The number a decimal text spells. */
  ghost function Spelled(s: string): int {
    if s == "" then 0 else 10 * Spelled(s[..|s| - 1]) + (s[|s| - 1] as int - '0' as int)
  }

  lemma {:induction false} DecimalSpells(n: nat)
    ensures Spelled(Decimal(n)) == n
    ensures forall i | 0 <= i < |Decimal(n)| :: '0' <= Decimal(n)[i] <= '9'
    ensures n > 0 ==> Decimal(n)[0] != '0'
  {
    if n >= 10 {
      DecimalSpells(n / 10);
      DecimalHasNoDash(n / 10);
      assert Decimal(n)[..|Decimal(n)| - 1] == Decimal(n / 10);
    } else {
      assert Decimal(n)[..0] == "";
      assert Spelled("") == 0;
    }
  }

  lemma {:induction false} DecimalInjective(m: nat, n: nat)
    requires Decimal(m) == Decimal(n)
    ensures m == n
  {
    DecimalHasNoDash(m / 10);
    DecimalHasNoDash(n / 10);
    var s, t := Decimal(m), Decimal(n);
    assert s[|s| - 1] == Digit(m % 10) && t[|t| - 1] == Digit(n % 10);
    assert |s| == 1 <==> m < 10;
    assert |t| == 1 <==> n < 10;
    if m >= 10 {
      assert s[..|s| - 1] == Decimal(m / 10) && t[..|t| - 1] == Decimal(n / 10);
      DecimalInjective(m / 10, n / 10);
    }
  }

  function CandidateId(profile: string, naraBudget: nat): string {
    profile + "-" + Decimal(naraBudget / NARA_UNIT) + "-NARA"
  }

  ghost function FirstDash(s: string): nat {
    if s == "" || s[0] == '-' then 0 else 1 + FirstDash(s[1..])
  }

  lemma {:induction false} FirstDashOf(a: string, x: string)
    requires '-' !in a
    ensures FirstDash(a + "-" + x) == |a|
  {
    if a != "" {
      assert (a + "-" + x)[1..] == a[1..] + "-" + x;
      FirstDashOf(a[1..], x);
    }
  }

  lemma SplitAtDash(a: string, b: string, x: string, y: string)
    requires '-' !in a && '-' !in b && a + "-" + x == b + "-" + y
    ensures a == b && x == y
  {
    FirstDashOf(a, x);
    FirstDashOf(b, y);
    var s := a + "-" + x;
    assert a == s[..|a|] && b == s[..|b|];
    assert x == s[|a| + 1..] && y == s[|b| + 1..];
  }

  /** Different profiles or different whole budgets never share an identifier. */
  lemma CandidateIdInjective(p: string, b: nat, p': string, b': nat)
    requires '-' !in p && '-' !in p' && CandidateId(p, b) == CandidateId(p', b')
    ensures p == p' && b / NARA_UNIT == b' / NARA_UNIT
  {
    var d, d' := Decimal(b / NARA_UNIT), Decimal(b' / NARA_UNIT);
    DecimalHasNoDash(b / NARA_UNIT);
    DecimalHasNoDash(b' / NARA_UNIT);
    assert p + "-" + d + "-NARA" == p + "-" + (d + "-NARA");
    assert p' + "-" + d' + "-NARA" == p' + "-" + (d' + "-NARA");
    SplitAtDash(p, p', d + "-NARA", d' + "-NARA");
    assert d + "-NARA" == d + "-" + "NARA" && d' + "-NARA" == d' + "-" + "NARA";
    SplitAtDash(d, d', "NARA", "NARA");
    DecimalInjective(b / NARA_UNIT, b' / NARA_UNIT);
  }

  lemma WholeBudget(raw: nat)
    ensures raw * NARA_UNIT / NARA_UNIT == raw
  {}
}
