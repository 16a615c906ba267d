/**
 Treasury-range optimizer: Pareto dominance, the deterministic tie-break, and the gates
 under which a candidate may be selected.
 */
module Selection {
  import opened Wrappers
  import opened Sorting
  import opened CandidateIds

  const BPS: nat := 10000
  const USDC_UNIT: nat := 1_000_000
  const NOMINAL_USDC_BUDGET: nat := 500 * USDC_UNIT
  const MINIMUM_PROTECTED_USDC_BPS: nat := 6000
  const CANARY_CANDIDATE_ID: string := "CONSERVATIVE-100000-NARA"
  const CANARY_NARA_BUDGET: nat := 100000 * NARA_UNIT
  const CANARY_EXPOSED_USDC: nat := 200 * USDC_UNIT
  const CANARY_PROTECTED_USDC: nat := 300 * USDC_UNIT
  const REQUIRED_NARA_BUDGETS: seq<nat> := [15000, 25000, 35000, 45000, 60000, 75000, 100000]
  const REQUIRED_PROFILE_NAMES: seq<string> := ["CONSERVATIVE", "AGGRESSIVE", "ADVERSARIAL"]
  const ROUTE_CONTINUITY_SIZES: seq<string> := ["10", "25", "50", "100", "250"]

  datatype Metrics = Metrics(
    candidateId: string, exactInputOnly: bool, normalBuyExecution: map<string, bool>,
    crystallizedUsdc: nat, treasuryNaraAccumulated: nat, nearMarketNaraSold: nat,
    nextTransactionRoundTripLossUsdc: nat, maximumObservedSlippageBps: nat)

  datatype Profile = Profile(
    name: string, totalNaraInput: nat, exposedUsdcInput: nat, protectedUsdc: nat, twentyPercentBandCompatible: bool)

  datatype HardGates = HardGates(
    approvedCanaryCandidate: bool, exactApprovedCanaryAllocation: bool, exactCanaryUsdcBudget: bool,
    majorityUsdcProtected: bool, routeContinuity: bool, oneSidedTwentyPercent: bool,
    exactInputOnly: bool, exactForkScenarioCoverage: bool)
  {
    predicate AllPass() {
      && approvedCanaryCandidate && exactApprovedCanaryAllocation && exactCanaryUsdcBudget
      && majorityUsdcProtected && routeContinuity && oneSidedTwentyPercent
      && exactInputOnly && exactForkScenarioCoverage
    }
  }

  datatype Candidate = Candidate(
    candidateId: string, profile: Profile, naraBudget: nat, metrics: Option<Metrics>,
    hardGatePass: bool, buildRefused: bool, paretoOptimal: bool)

  // ----- dominance

  predicate NoWorse(a: Candidate, b: Candidate)
    requires a.metrics.Some? && b.metrics.Some?
  {
    var x, y := a.metrics.value, b.metrics.value;
    && x.crystallizedUsdc >= y.crystallizedUsdc
    && x.treasuryNaraAccumulated >= y.treasuryNaraAccumulated
    && x.nextTransactionRoundTripLossUsdc >= y.nextTransactionRoundTripLossUsdc
    && x.nearMarketNaraSold <= y.nearMarketNaraSold
    && x.maximumObservedSlippageBps <= y.maximumObservedSlippageBps
    && a.profile.exposedUsdcInput <= b.profile.exposedUsdcInput
  }

  predicate StrictlyBetter(a: Candidate, b: Candidate)
    requires a.metrics.Some? && b.metrics.Some?
  {
    var x, y := a.metrics.value, b.metrics.value;
    || x.crystallizedUsdc > y.crystallizedUsdc
    || x.treasuryNaraAccumulated > y.treasuryNaraAccumulated
    || x.nextTransactionRoundTripLossUsdc > y.nextTransactionRoundTripLossUsdc
    || x.nearMarketNaraSold < y.nearMarketNaraSold
    || x.maximumObservedSlippageBps < y.maximumObservedSlippageBps
    || a.profile.exposedUsdcInput < b.profile.exposedUsdcInput
  }

  predicate Dominates(a: Candidate, b: Candidate) {
    a.metrics.Some? && b.metrics.Some? && NoWorse(a, b) && StrictlyBetter(a, b)
  }

  /** Dominance is a strict partial order. */
  lemma DominanceIsStrictOrder(a: Candidate, b: Candidate, c: Candidate)
    ensures !Dominates(a, a)
    ensures Dominates(a, b) ==> !Dominates(b, a)
    ensures Dominates(a, b) && Dominates(b, c) ==> Dominates(a, c)
  {}

  /** Dominance, criterion by criterion: both measured, at least as good in all six and not the same in all six. */
  lemma DominatesExactly(a: Candidate, b: Candidate)
    ensures Dominates(a, b) <==>
              && a.metrics.Some? && b.metrics.Some?
              && var x, y := a.metrics.value, b.metrics.value;
              && x.crystallizedUsdc >= y.crystallizedUsdc
              && x.treasuryNaraAccumulated >= y.treasuryNaraAccumulated
              && x.nextTransactionRoundTripLossUsdc >= y.nextTransactionRoundTripLossUsdc
              && x.nearMarketNaraSold <= y.nearMarketNaraSold
              && x.maximumObservedSlippageBps <= y.maximumObservedSlippageBps
              && a.profile.exposedUsdcInput <= b.profile.exposedUsdcInput
              && !(x.crystallizedUsdc == y.crystallizedUsdc
                   && x.treasuryNaraAccumulated == y.treasuryNaraAccumulated
                   && x.nextTransactionRoundTripLossUsdc == y.nextTransactionRoundTripLossUsdc
                   && x.nearMarketNaraSold == y.nearMarketNaraSold
                   && x.maximumObservedSlippageBps == y.maximumObservedSlippageBps
                   && a.profile.exposedUsdcInput == b.profile.exposedUsdcInput)
  {}

  // ----- the deterministic order

  datatype Comparison = Comparison(left: nat, right: nat, higherIsBetter: bool)

  function FirstDifference(comparisons: seq<Comparison>): int {
    if comparisons == [] then 0
    else
      var c := comparisons[0];
      if c.left == c.right then FirstDifference(comparisons[1..])
      else if c.higherIsBetter then (if c.left > c.right then -1 else 1)
      else (if c.left < c.right then -1 else 1)
  }

  /** Only gated candidates are ever ordered, and those have metrics; the zeros make the order total. */
  function MetricsOf(a: Candidate): Metrics {
    if a.metrics.Some? then a.metrics.value else Metrics("", false, map[], 0, 0, 0, 0, 0)
  }

  function Comparisons(a: Candidate, b: Candidate): seq<Comparison> {
    var x, y := MetricsOf(a), MetricsOf(b);
    [Comparison(x.maximumObservedSlippageBps, y.maximumObservedSlippageBps, false),
     Comparison(x.nextTransactionRoundTripLossUsdc, y.nextTransactionRoundTripLossUsdc, true),
     Comparison(x.crystallizedUsdc, y.crystallizedUsdc, true),
     Comparison(x.nearMarketNaraSold, y.nearMarketNaraSold, false),
     Comparison(a.profile.protectedUsdc, b.profile.protectedUsdc, true),
     Comparison(x.treasuryNaraAccumulated, y.treasuryNaraAccumulated, true),
     Comparison(a.naraBudget, b.naraBudget, false)]
  }

  /** Negative when a comes first. `idBefore` stands for the locale's order of identifiers. */
  function SelectionOrder(a: Candidate, b: Candidate, idBefore: (string, string) -> bool): int {
    var d := FirstDifference(Comparisons(a, b));
    if d != 0 then d
    else if idBefore(a.candidateId, b.candidateId) then -1
    else if idBefore(b.candidateId, a.candidateId) then 1
    else 0
  }

  function Precedes(idBefore: (string, string) -> bool): (Candidate, Candidate) -> bool {
    (a: Candidate, b: Candidate) => SelectionOrder(a, b, idBefore) < 0
  }

  /** One criterion after another: the first that tells two candidates apart decides, and then the identifier. */
  lemma SelectionOrderExactly(a: Candidate, b: Candidate, idBefore: (string, string) -> bool)
    requires a.metrics.Some? && b.metrics.Some?
    ensures var x, y := a.metrics.value, b.metrics.value;
            var p, q := a.profile, b.profile;
            SelectionOrder(a, b, idBefore) < 0 <==>
              if x.maximumObservedSlippageBps != y.maximumObservedSlippageBps
              then x.maximumObservedSlippageBps < y.maximumObservedSlippageBps
              else if x.nextTransactionRoundTripLossUsdc != y.nextTransactionRoundTripLossUsdc
              then x.nextTransactionRoundTripLossUsdc > y.nextTransactionRoundTripLossUsdc
              else if x.crystallizedUsdc != y.crystallizedUsdc then x.crystallizedUsdc > y.crystallizedUsdc
              else if x.nearMarketNaraSold != y.nearMarketNaraSold then x.nearMarketNaraSold < y.nearMarketNaraSold
              else if p.protectedUsdc != q.protectedUsdc then p.protectedUsdc > q.protectedUsdc
              else if x.treasuryNaraAccumulated != y.treasuryNaraAccumulated
              then x.treasuryNaraAccumulated > y.treasuryNaraAccumulated
              else if a.naraBudget != b.naraBudget then a.naraBudget < b.naraBudget
              else idBefore(a.candidateId, b.candidateId)
  {
    var cs := Comparisons(a, b);
    SevenComparisons(cs);
  }

  /** Comparing the other way round gives the opposite answer, and no answer only when neither comes first. */
  lemma SelectionOrderMirrors(a: Candidate, b: Candidate, idBefore: (string, string) -> bool)
    requires StrictWeak(idBefore)
    ensures SelectionOrder(a, b, idBefore) < 0 <==> SelectionOrder(b, a, idBefore) > 0
  {
    FirstDifferenceMirrors(Comparisons(a, b), Comparisons(b, a));
  }

  /** What the loop over seven comparisons amounts to. */
  lemma SevenComparisons(cs: seq<Comparison>)
    requires |cs| == 7
    ensures FirstDifference(cs)
            == if cs[0].left != cs[0].right then Verdict(cs[0]) else if cs[1].left != cs[1].right then Verdict(cs[1])
               else if cs[2].left != cs[2].right then Verdict(cs[2])
               else if cs[3].left != cs[3].right then Verdict(cs[3])
               else if cs[4].left != cs[4].right then Verdict(cs[4])
               else if cs[5].left != cs[5].right then Verdict(cs[5])
               else if cs[6].left != cs[6].right then Verdict(cs[6]) else 0
  {
    DecidedAt(cs, 0);
    DecidedAt(cs, 1);
    DecidedAt(cs, 2);
    DecidedAt(cs, 3);
    DecidedAt(cs, 4);
    DecidedAt(cs, 5);
    DecidedAt(cs, 6);
    assert FirstDifference(cs[7..]) == 0;
  }

  ghost function Verdict(c: Comparison): int {
    if c.higherIsBetter == (c.left > c.right) then -1 else 1
  }

  lemma DecidedAt(cs: seq<Comparison>, i: nat)
    requires i < |cs|
    ensures FirstDifference(cs[i..])
            == if cs[i].left != cs[i].right then Verdict(cs[i]) else FirstDifference(cs[i + 1..])
    ensures cs[0..] == cs
  {
    assert cs[i..][0] == cs[i] && cs[i..][1..] == cs[i + 1..];
  }

  /** The same comparison list seen from three candidates at once. */
  ghost predicate Chained(p: seq<Comparison>, q: seq<Comparison>, r: seq<Comparison>) {
    && |p| == |q| == |r|
    && forall i | 0 <= i < |p| ::
         && p[i].left == r[i].left && p[i].right == q[i].left && q[i].right == r[i].right
         && p[i].higherIsBetter == q[i].higherIsBetter == r[i].higherIsBetter
  }

  lemma {:induction false} FirstDifferenceChains(p: seq<Comparison>, q: seq<Comparison>, r: seq<Comparison>)
    requires Chained(p, q, r)
    ensures FirstDifference(p) >= 0 && FirstDifference(q) >= 0 ==> FirstDifference(r) >= 0
    ensures FirstDifference(p) >= 0 && FirstDifference(q) >= 0 && FirstDifference(r) == 0 ==>
              FirstDifference(p) == 0 && FirstDifference(q) == 0
    ensures FirstDifference(p) == 0 && FirstDifference(q) == 0 ==> FirstDifference(r) == 0
  {
    if p != [] {
      FirstDifferenceChains(p[1..], q[1..], r[1..]);
    }
  }

  ghost predicate Mirrored(p: seq<Comparison>, q: seq<Comparison>) {
    |p| == |q| && forall i | 0 <= i < |p| :: q[i] == Comparison(p[i].right, p[i].left, p[i].higherIsBetter)
  }

  lemma {:induction false} FirstDifferenceMirrors(p: seq<Comparison>, q: seq<Comparison>)
    requires Mirrored(p, q)
    ensures FirstDifference(q) == -FirstDifference(p)
  {
    if p != [] {
      FirstDifferenceMirrors(p[1..], q[1..]);
    }
  }

  lemma OrderIsStrictWeak(idBefore: (string, string) -> bool)
    requires StrictWeak(idBefore)
    ensures StrictWeak(Precedes(idBefore))
  {
    var before := Precedes(idBefore);
    forall a, b
      ensures before(a, b) ==> !before(b, a)
    {
      FirstDifferenceMirrors(Comparisons(a, b), Comparisons(b, a));
    }
    forall a, b, c
      ensures !before(a, b) && !before(b, c) ==> !before(a, c)
    {
      FirstDifferenceChains(Comparisons(a, b), Comparisons(b, c), Comparisons(a, c));
    }
  }

  /** With the USDC split fixed, a dominating candidate always comes first in the deterministic order. */
  lemma DominanceImpliesPrecedence(a: Candidate, b: Candidate, idBefore: (string, string) -> bool)
    requires Dominates(a, b)
    requires a.profile.exposedUsdcInput + a.profile.protectedUsdc
            == b.profile.exposedUsdcInput + b.profile.protectedUsdc
    ensures SelectionOrder(a, b, idBefore) < 0
  {
    var cs := Comparisons(a, b);
    var i := if cs[0].left != cs[0].right then 0 else if cs[1].left != cs[1].right then 1
             else if cs[2].left != cs[2].right then 2 else if cs[3].left != cs[3].right then 3
             else if cs[4].left != cs[4].right then 4 else 5;
    assert cs[i].left != cs[i].right;
    FirstNonZero(cs, 6);
  }

  lemma {:induction false} FirstNonZero(cs: seq<Comparison>, n: nat)
    requires n <= |cs|
    requires forall i | 0 <= i < n ::
            if cs[i].higherIsBetter then cs[i].left >= cs[i].right else cs[i].left <= cs[i].right
    requires exists i | 0 <= i < n :: cs[i].left != cs[i].right
    ensures FirstDifference(cs) < 0
  {
    if cs[0].left == cs[0].right {
      var i :| 0 <= i < n && cs[i].left != cs[i].right;
      assert cs[1..][i - 1] == cs[i];
      FirstNonZero(cs[1..], n - 1);
    }
  }

  // ----- frontier and selection, for any gate

  predicate Dominated(c: Candidate, gated: seq<Candidate>) {
    exists other | other in gated :: Dominates(other, c)
  }

  function Frontier(gated: seq<Candidate>): seq<Candidate> {
    Filter(gated, c => !Dominated(c, gated))
  }

  function FrontierIds(gated: seq<Candidate>): set<string> {
    set c | c in Frontier(gated) :: c.candidateId
  }

  /** The frontier is what nothing dominates: all of it and nothing else. */
  lemma FrontierExactly(gated: seq<Candidate>, c: Candidate)
    ensures c in Frontier(gated) <==> c in gated && forall other | other in gated :: !Dominates(other, c)
  {}

  /** Every gated candidate is on the frontier or dominated by a member of it. */
  lemma FrontierCovers(gated: seq<Candidate>, c: Candidate)
    requires c in gated
    ensures c in Frontier(gated) || exists f | f in Frontier(gated) :: Dominates(f, c)
  {
    if c !in Frontier(gated) {
      ClimbToFrontier(gated, c);
    }
  }

  ghost function Dominators(gated: seq<Candidate>, c: Candidate): set<Candidate> {
    set x | x in gated && Dominates(x, c)
  }

  lemma {:induction false} ClimbToFrontier(gated: seq<Candidate>, c: Candidate)
    requires c in gated && Dominated(c, gated)
    ensures exists f | f in Frontier(gated) :: Dominates(f, c)
    decreases |Dominators(gated, c)|
  {
    var d :| d in gated && Dominates(d, c);
    if Dominated(d, gated) {
      forall x | x in Dominators(gated, d)
        ensures x in Dominators(gated, c)
      {
        DominanceIsStrictOrder(x, d, c);
      }
      DominanceIsStrictOrder(d, d, d);
      assert d in Dominators(gated, c) && d !in Dominators(gated, d);
      StrictSubsetSmaller(Dominators(gated, d), Dominators(gated, c));
      ClimbToFrontier(gated, d);
      var f :| f in Frontier(gated) && Dominates(f, d);
      DominanceIsStrictOrder(f, d, c);
    } else {
      assert d in Frontier(gated);
    }
  }

  lemma {:induction false} StrictSubsetSmaller<T>(a: set<T>, b: set<T>)
    requires a < b
    ensures |a| < |b|
  {
    var x :| x in b && x !in a;
    SubsetAtMost(a, b - {x});
  }

  lemma {:induction false} SubsetAtMost<T>(a: set<T>, b: set<T>)
    requires a <= b
    ensures |a| <= |b|
  {
    if a != {} {
      var x :| x in a;
      SubsetAtMost(a - {x}, b - {x});
    }
  }

  function Gated(draft: seq<Candidate>, evidenceComplete: bool): seq<Candidate> {
    if evidenceComplete then Filter(draft, (c: Candidate) => c.hardGatePass) else []
  }

  function MarkPareto(draft: seq<Candidate>, ids: set<string>): (marked: seq<Candidate>)
    ensures |marked| == |draft|
    ensures forall i | 0 <= i < |draft| :: marked[i] == draft[i].(paretoOptimal := draft[i].candidateId in ids)
  {
    seq(|draft|, i requires 0 <= i < |draft| => draft[i].(paretoOptimal := draft[i].candidateId in ids))
  }

  /** The draft with the frontier flagged, and only the flagged part of it. */
  function Flagged(draft: seq<Candidate>, evidenceComplete: bool): seq<Candidate> {
    Filter(MarkPareto(draft, FrontierIds(Gated(draft, evidenceComplete))), (c: Candidate) => c.paretoOptimal)
  }

  function Pareto(draft: seq<Candidate>, evidenceComplete: bool, idBefore: (string, string) -> bool): seq<Candidate> {
    Sort(Flagged(draft, evidenceComplete), Precedes(idBefore))
  }

  ghost predicate DistinctIds(draft: seq<Candidate>) {
    forall i, j | 0 <= i < j < |draft| :: draft[i].candidateId != draft[j].candidateId
  }

  /** The gate fixes the USDC budget and requires metrics. */
  ghost predicate FixesBudget(gated: seq<Candidate>, budget: nat) {
    forall c | c in gated :: c.metrics.Some? && c.profile.exposedUsdcInput + c.profile.protectedUsdc == budget
  }

  lemma LexMinimumIsOnFrontier(gated: seq<Candidate>, budget: nat, idBefore: (string, string) -> bool, m: Candidate)
    requires FixesBudget(gated, budget) && m in gated
    requires forall c | c in gated :: SelectionOrder(c, m, idBefore) >= 0
    ensures m in Frontier(gated)
  {
    if Dominated(m, gated) {
      var d :| d in gated && Dominates(d, m);
      DominanceImpliesPrecedence(d, m, idBefore);
    }
  }

  /** Marking by identifier flags exactly the frontier, because identifiers are distinct. */
  lemma FlaggedIsFrontier(draft: seq<Candidate>, complete: bool)
    requires DistinctIds(draft)
    ensures forall p | p in Flagged(draft, complete) ::
              exists f | f in Frontier(Gated(draft, complete)) :: p == f.(paretoOptimal := true)
    ensures forall f | f in Frontier(Gated(draft, complete)) :: f.(paretoOptimal := true) in Flagged(draft, complete)
  {
    var gated := Gated(draft, complete);
    var marked := MarkPareto(draft, FrontierIds(gated));
    forall p | p in Flagged(draft, complete)
      ensures exists f | f in Frontier(gated) :: p == f.(paretoOptimal := true)
    {
      var i :| 0 <= i < |marked| && marked[i] == p;
      var f :| f in Frontier(gated) && f.candidateId == draft[i].candidateId;
      var j :| 0 <= j < |draft| && draft[j] == f;
      assert i == j;
    }
    forall f | f in Frontier(gated)
      ensures f.(paretoOptimal := true) in Flagged(draft, complete)
    {
      var j :| 0 <= j < |draft| && draft[j] == f;
      assert marked[j] == f.(paretoOptimal := true);
    }
  }

  lemma FirstPrecedesAll(s: seq<Candidate>, idBefore: (string, string) -> bool)
    requires StrictWeak(idBefore) && s != []
    ensures Sort(s, Precedes(idBefore)) != [] && Sort(s, Precedes(idBefore))[0] in s
    ensures forall x | x in s :: SelectionOrder(x, Sort(s, Precedes(idBefore))[0], idBefore) >= 0
  {
    var before := Precedes(idBefore);
    OrderIsStrictWeak(idBefore);
    SortMembers(s, before);
    SortSorted(s, before);
    var t := Sort(s, before);
    forall x | x in s
      ensures SelectionOrder(x, t[0], idBefore) >= 0
    {
      var i :| 0 <= i < |t| && t[i] == x;
      if i == 0 {
        assert before(x, x) ==> !before(x, x);
      } else {
        assert !before(t[i], t[0]);
      }
    }
  }

  lemma OrderChains(a: Candidate, b: Candidate, c: Candidate, idBefore: (string, string) -> bool)
    requires StrictWeak(idBefore) && SelectionOrder(a, b, idBefore) >= 0 && SelectionOrder(b, c, idBefore) >= 0
    ensures SelectionOrder(a, c, idBefore) >= 0
  {
    OrderIsStrictWeak(idBefore);
    var before := Precedes(idBefore);
    assert !before(a, b) && !before(b, c);
    assert !before(a, c);
  }

  /**
   The candidate the optimizer picks off the sorted frontier is the minimum of the whole gated
   set in the deterministic order, and there is one whenever anything passed the gate.
   */
  lemma SelectedIsMinimumOfGated(draft: seq<Candidate>, complete: bool, budget: nat, idBefore: (string, string) -> bool)
    requires StrictWeak(idBefore) && DistinctIds(draft) && FixesBudget(Gated(draft, complete), budget)
    requires Gated(draft, complete) != []
    ensures Pareto(draft, complete, idBefore) != []
    ensures var picked := Pareto(draft, complete, idBefore)[0];
            && (exists f | f in Frontier(Gated(draft, complete)) :: picked == f.(paretoOptimal := true))
            && forall g | g in Gated(draft, complete) :: SelectionOrder(g, picked, idBefore) >= 0
  {
    var gated := Gated(draft, complete);
    FirstPrecedesAll(gated, idBefore);
    var m := Sort(gated, Precedes(idBefore))[0];
    LexMinimumIsOnFrontier(gated, budget, idBefore, m);
    FlaggedIsFrontier(draft, complete);
    var flagged, m' := Flagged(draft, complete), m.(paretoOptimal := true);
    assert m' in flagged;
    FirstPrecedesAll(flagged, idBefore);
    var picked := Pareto(draft, complete, idBefore)[0];
    forall g | g in gated
      ensures SelectionOrder(g, picked, idBefore) >= 0
    {
      FlagDoesNotMatter(g, m, m', idBefore);
      OrderChains(g, m', picked, idBefore);
    }
  }

  lemma FlagDoesNotMatter(g: Candidate, m: Candidate, m': Candidate, idBefore: (string, string) -> bool)
    requires m' == m.(paretoOptimal := true)
    ensures SelectionOrder(g, m', idBefore) == SelectionOrder(g, m, idBefore)
  {
    assert Comparisons(g, m') == Comparisons(g, m);
  }

  /** What is selected is one of the drafts that passed, marked. */
  lemma SelectedIsGatedDraft(draft: seq<Candidate>, complete: bool, idBefore: (string, string) -> bool)
    returns (i: nat)
    requires DistinctIds(draft) && Pareto(draft, complete, idBefore) != []
    ensures i < |draft| && draft[i] in Gated(draft, complete)
    ensures Pareto(draft, complete, idBefore)[0] == draft[i].(paretoOptimal := true)
  {
    var pareto := Pareto(draft, complete, idBefore);
    SortMembers(Flagged(draft, complete), Precedes(idBefore));
    assert pareto[0] in pareto;
    FlaggedIsFrontier(draft, complete);
    var f :| f in Frontier(Gated(draft, complete)) && pareto[0] == f.(paretoOptimal := true);
    i :| 0 <= i < |draft| && draft[i] == f;
  }

  /** When all that passes shares one identifier, the frontier's identifiers are the selected one, if any. */
  lemma FrontierIdsAreSelected(draft: seq<Candidate>, complete: bool, idBefore: (string, string) -> bool, id: string)
    requires DistinctIds(draft) && forall c | c in Gated(draft, complete) :: c.candidateId == id
    ensures var pareto := Pareto(draft, complete, idBefore);
            FrontierIds(Gated(draft, complete)) == if pareto == [] then {} else {id}
  {
    var gated, pareto := Gated(draft, complete), Pareto(draft, complete, idBefore);
    FlaggedIsFrontier(draft, complete);
    SortMembers(Flagged(draft, complete), Precedes(idBefore));
    forall f | f in Frontier(gated)
      ensures pareto != []
    {
      assert f.(paretoOptimal := true) in pareto;
    }
    if pareto != [] {
      assert pareto[0] in pareto;
      var f :| f in Frontier(gated) && pareto[0] == f.(paretoOptimal := true);
      assert f.candidateId in FrontierIds(gated);
    }
  }

  /** Nothing is selected when nothing passes. */
  lemma NothingGatedNothingSelected(draft: seq<Candidate>, complete: bool, idBefore: (string, string) -> bool)
    requires DistinctIds(draft) && Gated(draft, complete) == []
    ensures Pareto(draft, complete, idBefore) == []
  {
    FlaggedIsFrontier(draft, complete);
    if Flagged(draft, complete) != [] {
      HasFirst(Flagged(draft, complete));
      assert false;
    }
  }

  lemma HasFirst(s: seq<Candidate>)
    requires s != []
    ensures exists x :: x in s
  {
    assert s[0] in s;
  }
}
