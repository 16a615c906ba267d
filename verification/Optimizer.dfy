/** The optimizer run: canonical candidate set, complete evidence, hard gates, selection. */
module Optimizer {
  import opened Wrappers
  import opened Sorting
  import opened CandidateIds
  import opened Selection

  /** The two inputs the script takes from elsewhere: evidence validation and profile finalization. */
  datatype Environment = Environment(
    evidenceHolds: (string, Metrics) -> bool,
    finalize: (Profile, Option<Metrics>) -> Profile,
    safeNara: nat, safeUsdc: nat,
    idBefore: (string, string) -> bool)

  datatype Status = SelectedExecutionBlocked | SelectedBuildable | BlockedExactForkResultsRequired

  datatype OptimizerResult = OptimizerResult(
    candidates: seq<Candidate>, pareto: seq<Candidate>, selected: Option<string>, status: Status)

  function RescaleStrategyProfile(p: Profile, naraBudget: nat): Profile {
    p.(totalNaraInput := naraBudget)
  }

  predicate RouteContinuity(metrics: Option<Metrics>) {
    && metrics.Some?
    && forall size | size in ROUTE_CONTINUITY_SIZES ::
         size in metrics.value.normalBuyExecution && metrics.value.normalBuyExecution[size]
  }

  function Gates(id: string, p: Profile, naraBudget: nat, metrics: Option<Metrics>): HardGates {
    var totalUsdc := p.exposedUsdcInput + p.protectedUsdc;
    HardGates(
      id == CANARY_CANDIDATE_ID,
      p.name == "CONSERVATIVE" && naraBudget == CANARY_NARA_BUDGET && p.totalNaraInput == CANARY_NARA_BUDGET
        && p.exposedUsdcInput == CANARY_EXPOSED_USDC && p.protectedUsdc == CANARY_PROTECTED_USDC,
      totalUsdc == NOMINAL_USDC_BUDGET,
      p.protectedUsdc * BPS >= totalUsdc * MINIMUM_PROTECTED_USDC_BPS,
      RouteContinuity(metrics),
      p.twentyPercentBandCompatible,
      metrics.Some? && metrics.value.exactInputOnly,
      metrics.Some?)
  }

  function Lookup(metrics: map<string, Metrics>, id: string): Option<Metrics> {
    if id in metrics then Some(metrics[id]) else None
  }

  function Draft(
      base: Profile, rawBudget: nat, complete: bool, metrics: map<string, Metrics>, env: Environment): Candidate {
    var naraBudget := rawBudget * NARA_UNIT;
    var scaled := RescaleStrategyProfile(base, naraBudget);
    var id := CandidateId(scaled.name, naraBudget);
    var m := if complete then Lookup(metrics, id) else None;
    var profile := env.finalize(scaled, m);
    Candidate(id, profile, naraBudget, m, Gates(id, profile, naraBudget, m).AllPass(),
              profile.exposedUsdcInput + profile.protectedUsdc > env.safeUsdc || naraBudget > env.safeNara, false)
  }

  // ----- the canonical identifiers

  function IdOf(profile: string, rawBudget: nat): string {
    CandidateId(profile, rawBudget * NARA_UNIT)
  }

  /** Each required profile name is supplied, and nothing else is. */
  ghost predicate Canonical(profiles: seq<Profile>) {
    && |profiles| == 3
    && forall name | name in REQUIRED_PROFILE_NAMES :: exists k | 0 <= k < 3 :: profiles[k].name == name
  }

  lemma CanonicalNames(profiles: seq<Profile>)
    requires |profiles| == 3
    ensures var names := set p | p in profiles :: p.name;
            Canonical(profiles) <==> |names| == 3 && forall name | name in REQUIRED_PROFILE_NAMES :: name in names
    ensures Canonical(profiles) ==>
              && (forall k | 0 <= k < 3 :: profiles[k].name in REQUIRED_PROFILE_NAMES)
              && profiles[0].name != profiles[1].name && profiles[0].name != profiles[2].name
              && profiles[1].name != profiles[2].name
  {
    var names := set p | p in profiles :: p.name;
    var n0, n1, n2 := profiles[0].name, profiles[1].name, profiles[2].name;
    assert names == {n0, n1, n2} by {
      assert profiles[0] in profiles && profiles[1] in profiles && profiles[2] in profiles;
    }
    var a, b, c := REQUIRED_PROFILE_NAMES[0], REQUIRED_PROFILE_NAMES[1], REQUIRED_PROFILE_NAMES[2];
    assert |a| == 12 && |b| == 10 && |c| == 11;
    if Canonical(profiles) {
      assert a in REQUIRED_PROFILE_NAMES && b in REQUIRED_PROFILE_NAMES && c in REQUIRED_PROFILE_NAMES;
      assert {a, b, c} <= names;
      assert n0 != n1 && n0 != n2 && n1 != n2;
    }
  }

  /** The 21 identifiers of every required profile at every required budget. */
  ghost function RequiredIds(): set<string> {
    set name, raw | name in REQUIRED_PROFILE_NAMES && raw in REQUIRED_NARA_BUDGETS :: IdOf(name, raw)
  }

  /** The n-th candidate in the order the script visits them. */
  function IdAt(profiles: seq<Profile>, n: nat): string
    requires |profiles| == 3 && n < 21
  {
    IdOf(profiles[n / 7].name, REQUIRED_NARA_BUDGETS[n % 7])
  }

  lemma IdOfInjective(p: string, raw: nat, p': string, raw': nat)
    requires p in REQUIRED_PROFILE_NAMES && p' in REQUIRED_PROFILE_NAMES && IdOf(p, raw) == IdOf(p', raw')
    ensures p == p' && raw == raw'
  {
    WholeBudget(raw);
    WholeBudget(raw');
    CandidateIdInjective(p, raw * NARA_UNIT, p', raw' * NARA_UNIT);
  }

  lemma IdAtInjective(profiles: seq<Profile>, m: nat, n: nat)
    requires Canonical(profiles) && m < 21 && n < 21 && IdAt(profiles, m) == IdAt(profiles, n)
    ensures m == n
  {
    var k, l, i, j := m / 7, n / 7, m % 7, n % 7;
    CanonicalNames(profiles);
    IdOfInjective(profiles[k].name, REQUIRED_NARA_BUDGETS[i], profiles[l].name, REQUIRED_NARA_BUDGETS[j]);
    BudgetsDistinct(i, j);
    assert k == l;
  }

  lemma BudgetsDistinct(i: nat, j: nat)
    requires i < 7 && j < 7 && REQUIRED_NARA_BUDGETS[i] == REQUIRED_NARA_BUDGETS[j]
    ensures i == j
  {}

  ghost function Elements(s: seq<string>): set<string> {
    set x | x in s
  }

  lemma ElementsAppend(s: seq<string>, x: string)
    ensures Elements(s + [x]) == Elements(s) + {x}
  {}

  lemma {:induction false} DistinctElementsCount(s: seq<string>)
    requires forall i, j | 0 <= i < j < |s| :: s[i] != s[j]
    ensures |Elements(s)| == |s|
  {
    if s != [] {
      var init, last := s[..|s| - 1], s[|s| - 1];
      DistinctElementsCount(init);
      ElementsAppend(init, last);
      assert s == init + [last];
      assert last !in Elements(init);
    }
  }

  function IdList(profiles: seq<Profile>, n: nat): seq<string>
    requires |profiles| == 3 && n <= 21
  {
    seq(n, k requires 0 <= k < n => IdAt(profiles, k))
  }

  lemma NextId(profiles: seq<Profile>, n: nat)
    requires |profiles| == 3 && n < 21
    ensures Elements(IdList(profiles, n + 1)) == Elements(IdList(profiles, n)) + {IdAt(profiles, n)}
  {
    assert IdList(profiles, n + 1) == IdList(profiles, n) + [IdAt(profiles, n)];
    ElementsAppend(IdList(profiles, n), IdAt(profiles, n));
  }

  lemma IdListDistinct(profiles: seq<Profile>)
    requires Canonical(profiles)
    ensures |Elements(IdList(profiles, 21))| == 21
  {
    var ids := IdList(profiles, 21);
    forall i, j | 0 <= i < j < |ids|
      ensures ids[i] != ids[j]
    {
      if ids[i] == ids[j] {
        IdAtInjective(profiles, i, j);
      }
    }
    DistinctElementsCount(ids);
  }

  lemma RequiredIdListed(profiles: seq<Profile>, name: string, raw: nat)
    requires Canonical(profiles) && name in REQUIRED_PROFILE_NAMES && raw in REQUIRED_NARA_BUDGETS
    ensures IdOf(name, raw) in IdList(profiles, 21)
  {
    var k :| 0 <= k < 3 && profiles[k].name == name;
    var j :| 0 <= j < 7 && REQUIRED_NARA_BUDGETS[j] == raw;
    Position(k, j);
    assert IdList(profiles, 21)[7 * k + j] == IdOf(name, raw);
  }

  lemma ListedIdRequired(profiles: seq<Profile>, n: nat)
    requires Canonical(profiles) && n < 21
    ensures IdAt(profiles, n) in RequiredIds()
  {
    CanonicalNames(profiles);
    assert REQUIRED_NARA_BUDGETS[n % 7] in REQUIRED_NARA_BUDGETS;
  }

  lemma IdsAreRequired(profiles: seq<Profile>)
    requires Canonical(profiles)
    ensures Elements(IdList(profiles, 21)) == RequiredIds()
  {
    var ids := IdList(profiles, 21);
    forall id | id in RequiredIds()
      ensures id in ids
    {
      var name, raw :| name in REQUIRED_PROFILE_NAMES && raw in REQUIRED_NARA_BUDGETS && id == IdOf(name, raw);
      RequiredIdListed(profiles, name, raw);
    }
    forall id | id in ids
      ensures id in RequiredIds()
    {
      var n :| 0 <= n < 21 && ids[n] == id;
      ListedIdRequired(profiles, n);
    }
  }

  method RequiredCandidateIds(profiles: seq<Profile>) returns (ids: Result<set<string>>)
    ensures ids.Ok? <==> Canonical(profiles)
    ensures ids.Ok? ==> ids.value == RequiredIds() && |ids.value| == 21
  {
    var names: set<string> := set p | p in profiles :: p.name;
    if |profiles| == 3 {
      CanonicalNames(profiles);
    }
    if |profiles| != 3 || |names| != 3 || !(forall name | name in REQUIRED_PROFILE_NAMES :: name in names) {
      return Err("Optimizer requires exactly the canonical profiles");
    }
    var found := CollectIds(profiles);
    IdListDistinct(profiles);
    IdsAreRequired(profiles);
    return Ok(found);
  }

  /** The script's duplicate-identifier stop is unreachable, because the listed identifiers are distinct. */
  method CollectIds(profiles: seq<Profile>) returns (found: set<string>)
    requires |profiles| == 3
    ensures found == Elements(IdList(profiles, 21))
  {
    found := {};
    for i := 0 to 3
      invariant found == Elements(IdList(profiles, 7 * i))
    {
      for j := 0 to 7
        invariant found == Elements(IdList(profiles, 7 * i + j))
      {
        var id := IdOf(profiles[i].name, REQUIRED_NARA_BUDGETS[j]);
        Position(i, j);
        NextId(profiles, 7 * i + j);
        found := found + {id};
      }
    }
  }

  lemma Position(i: nat, j: nat)
    requires j < 7
    ensures (7 * i + j) / 7 == i && (7 * i + j) % 7 == j
  {}

  predicate HasExactCandidateMetrics(expected: set<string>, metrics: map<string, Metrics>) {
    && |metrics| == |expected|
    && (forall id | id in expected :: id in metrics && metrics[id].candidateId == id)
    && (forall id | id in metrics.Keys :: id in expected)
  }

  predicate EvidenceComplete(expected: set<string>, metrics: map<string, Metrics>, env: Environment) {
    && HasExactCandidateMetrics(expected, metrics)
    && forall id | id in expected :: id in metrics && env.evidenceHolds(id, metrics[id])
  }

  /**
   The count and the two scans together say no more and no less than: the keys are the expected ones,
   each self-named.
   */
  lemma ExactMetricsMeansExactKeys(expected: set<string>, metrics: map<string, Metrics>)
    ensures HasExactCandidateMetrics(expected, metrics)
            <==> metrics.Keys == expected && forall id | id in expected :: metrics[id].candidateId == id
  {
    assert |metrics| == |metrics.Keys|;
  }

  // ----- the run

  function Drafts(
      profiles: seq<Profile>, complete: bool, metrics: map<string, Metrics>, env: Environment, n: nat): seq<Candidate>
    requires |profiles| == 3 && n <= 21
  {
    seq(n, k requires 0 <= k < n => Draft(profiles[k / 7], REQUIRED_NARA_BUDGETS[k % 7], complete, metrics, env))
  }

  lemma NextDraft(profiles: seq<Profile>, complete: bool, metrics: map<string, Metrics>, env: Environment, n: nat)
    requires |profiles| == 3 && n < 21
    ensures Drafts(profiles, complete, metrics, env, n + 1)
            == Drafts(profiles, complete, metrics, env, n)
               + [Draft(profiles[n / 7], REQUIRED_NARA_BUDGETS[n % 7], complete, metrics, env)]
  {}

  method BuildDraft(profiles: seq<Profile>, complete: bool, metrics: map<string, Metrics>, env: Environment)
    returns (draft: seq<Candidate>)
    requires |profiles| == 3
    ensures draft == Drafts(profiles, complete, metrics, env, 21)
  {
    draft := [];
    for i := 0 to 3
      invariant draft == Drafts(profiles, complete, metrics, env, 7 * i)
    {
      for j := 0 to 7
        invariant draft == Drafts(profiles, complete, metrics, env, 7 * i + j)
      {
        Position(i, j);
        NextDraft(profiles, complete, metrics, env, 7 * i + j);
        draft := draft + [Draft(profiles[i], REQUIRED_NARA_BUDGETS[j], complete, metrics, env)];
      }
    }
  }

  lemma DraftIds(profiles: seq<Profile>, complete: bool, metrics: map<string, Metrics>, env: Environment)
    requires Canonical(profiles)
    ensures var draft := Drafts(profiles, complete, metrics, env, 21);
            DistinctIds(draft) && forall n | 0 <= n < 21 :: draft[n].candidateId == IdAt(profiles, n)
  {
    var draft := Drafts(profiles, complete, metrics, env, 21);
    forall i, j | 0 <= i < j < 21
      ensures draft[i].candidateId != draft[j].candidateId
    {
      if IdAt(profiles, i) == IdAt(profiles, j) {
        IdAtInjective(profiles, i, j);
      }
    }
  }

  /** Passing every gate means being the approved canary on a fully evidenced run, with its exact USDC split. */
  lemma GatedIsCanary(
      profiles: seq<Profile>, complete: bool, metrics: map<string, Metrics>, env: Environment, c: Candidate)
    requires Canonical(profiles) && c in Gated(Drafts(profiles, complete, metrics, env, 21), complete)
    ensures complete && c.candidateId == CANARY_CANDIDATE_ID && c.metrics.Some?
    ensures c.profile.exposedUsdcInput == CANARY_EXPOSED_USDC && c.profile.protectedUsdc == CANARY_PROTECTED_USDC
    ensures c.profile.exposedUsdcInput + c.profile.protectedUsdc == NOMINAL_USDC_BUDGET
  {
    var draft := Drafts(profiles, complete, metrics, env, 21);
    var n :| 0 <= n < 21 && draft[n] == c;
    assert c == Draft(profiles[n / 7], REQUIRED_NARA_BUDGETS[n % 7], complete, metrics, env);
  }

  /**
   What the optimizer can select: only the canary, exactly when the metrics carry the 21 canonical
   identifiers with valid evidence and the canary's own draft passes every gate; and the selected
   candidate is then the minimum of everything that passed.
   */
  lemma SelectionExactly(profiles: seq<Profile>, metrics: map<string, Metrics>, env: Environment)
    requires Canonical(profiles) && StrictWeak(env.idBefore)
    ensures var complete := EvidenceComplete(RequiredIds(), metrics, env);
            var draft := Drafts(profiles, complete, metrics, env, 21);
            var pareto := Pareto(draft, complete, env.idBefore);
            && (complete ==> metrics.Keys == RequiredIds())
            && (pareto != [] <==> complete && exists c | c in draft :: c.hardGatePass)
            && (pareto != [] ==> pareto[0].candidateId == CANARY_CANDIDATE_ID
                                 && forall g | g in Gated(draft, complete) ::
                                    SelectionOrder(g, pareto[0], env.idBefore) >= 0)
  {
    var complete := EvidenceComplete(RequiredIds(), metrics, env);
    var draft := Drafts(profiles, complete, metrics, env, 21);
    var gated := Gated(draft, complete);
    ExactMetricsMeansExactKeys(RequiredIds(), metrics);
    DraftIds(profiles, complete, metrics, env);
    forall c | c in gated
      ensures c.metrics.Some? && c.candidateId == CANARY_CANDIDATE_ID
      ensures c.profile.exposedUsdcInput + c.profile.protectedUsdc == NOMINAL_USDC_BUDGET
    {
      GatedIsCanary(profiles, complete, metrics, env, c);
    }
    if gated == [] {
      NothingGatedNothingSelected(draft, complete, env.idBefore);
    } else {
      HasFirst(gated);
      SelectedIsMinimumOfGated(draft, complete, NOMINAL_USDC_BUDGET, env.idBefore);
    }
  }

  /** The approved canary is one of the 21 candidates, so the condition above can be met. */
  lemma CanaryIsRequired()
    ensures IdOf("CONSERVATIVE", 100000) == CANARY_CANDIDATE_ID
  {
    WholeBudget(100000);
    assert Decimal(1) == "1" && Decimal(10) == "10" && Decimal(100) == "100" && Decimal(1000) == "1000";
    assert Decimal(10000) == "10000" && Decimal(100000) == "100000";
  }

  // ----- the selection, spelled out

  /** What the run demands of the evidence: one self-named, valid record for each required candidate, and no other. */
  ghost predicate EvidenceHolds(metrics: map<string, Metrics>, env: Environment) {
    && metrics.Keys == RequiredIds()
    && forall id | id in metrics :: metrics[id].candidateId == id && env.evidenceHolds(id, metrics[id])
  }

  /** What is demanded of the finalized canary profile and of what was measured with it. */
  ghost predicate CanaryApproved(p: Profile, m: Metrics) {
    && p.name == "CONSERVATIVE" && p.totalNaraInput == 100_000 * 1_000_000_000_000_000_000
    && p.exposedUsdcInput == 200_000_000 && p.protectedUsdc == 300_000_000
    && BuysAt(m, "10") && BuysAt(m, "25") && BuysAt(m, "50") && BuysAt(m, "100") && BuysAt(m, "250")
    && p.twentyPercentBandCompatible && m.exactInputOnly
  }

  ghost predicate BuysAt(m: Metrics, size: string) {
    size in m.normalBuyExecution && m.normalBuyExecution[size] == true
  }

  /** The CONSERVATIVE profile at 100000 NARA, finalized with its measurements. */
  function CanaryProfile(base: Profile, m: Metrics, env: Environment): Profile {
    env.finalize(base.(totalNaraInput := 100_000 * 1_000_000_000_000_000_000), Some(m))
  }

  lemma GatesExactly(p: Profile, m: Metrics)
    ensures Gates(CANARY_CANDIDATE_ID, p, CANARY_NARA_BUDGET, Some(m)).AllPass() <==> CanaryApproved(p, m)
  {
    RouteSizes(m);
  }

  /** Each gate on its own, for any candidate. */
  lemma GatesSpelledOut(id: string, p: Profile, budget: nat, m: Option<Metrics>)
    ensures var g := Gates(id, p, budget, m);
            && (g.approvedCanaryCandidate <==> id == "CONSERVATIVE-100000-NARA")
            && (g.exactApprovedCanaryAllocation
                <==> p.name == "CONSERVATIVE" && budget == p.totalNaraInput == 100_000 * 1_000_000_000_000_000_000
                     && p.exposedUsdcInput == 200_000_000 && p.protectedUsdc == 300_000_000)
            && (g.exactCanaryUsdcBudget <==> p.exposedUsdcInput + p.protectedUsdc == 500_000_000)
            && (g.majorityUsdcProtected <==> 10 * p.protectedUsdc >= 6 * (p.exposedUsdcInput + p.protectedUsdc))
            && (g.routeContinuity
                <==> m.Some? && BuysAt(m.value, "10") && BuysAt(m.value, "25") && BuysAt(m.value, "50")
                     && BuysAt(m.value, "100") && BuysAt(m.value, "250"))
            && (g.oneSidedTwentyPercent <==> p.twentyPercentBandCompatible)
            && (g.exactInputOnly <==> m.Some? && m.value.exactInputOnly)
            && (g.exactForkScenarioCoverage <==> m.Some?)
  {
    if m.Some? {
      RouteSizes(m.value);
    }
  }

  lemma RouteSizes(m: Metrics)
    ensures RouteContinuity(Some(m))
            <==> BuysAt(m, "10") && BuysAt(m, "25") && BuysAt(m, "50") && BuysAt(m, "100") && BuysAt(m, "250")
  {
    var sizes := ROUTE_CONTINUITY_SIZES;
    assert sizes[0] == "10" && sizes[1] == "25" && sizes[2] == "50" && sizes[3] == "100" && sizes[4] == "250";
    assert "10" in sizes && "25" in sizes && "50" in sizes && "100" in sizes && "250" in sizes;
  }

  lemma EvidenceExactly(metrics: map<string, Metrics>, env: Environment)
    ensures EvidenceComplete(RequiredIds(), metrics, env) <==> EvidenceHolds(metrics, env)
  {
    ExactMetricsMeansExactKeys(RequiredIds(), metrics);
  }

  /** Among the drafts only the CONSERVATIVE one at the seventh budget carries the canary's identifier. */
  lemma CanaryPlace(profiles: seq<Profile>, k: nat, n: nat)
    requires Canonical(profiles) && k < 3 && profiles[k].name == "CONSERVATIVE" && n < 21
    ensures IdAt(profiles, 7 * k + 6) == CANARY_CANDIDATE_ID
    ensures IdAt(profiles, n) == CANARY_CANDIDATE_ID ==> n == 7 * k + 6
  {
    Position(k, 6);
    CanaryIsRequired();
    if IdAt(profiles, n) == CANARY_CANDIDATE_ID {
      IdAtInjective(profiles, n, 7 * k + 6);
    }
  }

  lemma CanaryDraft(
      profiles: seq<Profile>, metrics: map<string, Metrics>, env: Environment, k: nat)
    requires Canonical(profiles) && k < 3 && profiles[k].name == "CONSERVATIVE" && CANARY_CANDIDATE_ID in metrics
    ensures var m := metrics[CANARY_CANDIDATE_ID];
            var p := CanaryProfile(profiles[k], m, env);
            Draft(profiles[k], 100000, true, metrics, env)
            == Candidate(CANARY_CANDIDATE_ID, p, CANARY_NARA_BUDGET, Some(m),
                         Gates(CANARY_CANDIDATE_ID, p, CANARY_NARA_BUDGET, Some(m)).AllPass(),
                         p.exposedUsdcInput + p.protectedUsdc > env.safeUsdc || CANARY_NARA_BUDGET > env.safeNara,
                         false)
  {
    CanaryIsRequired();
  }

  /** A draft passes exactly when it is the canary's, and the canary is approved. */
  lemma PassingDraft(profiles: seq<Profile>, metrics: map<string, Metrics>, env: Environment, k: nat)
    requires Canonical(profiles) && k < 3 && profiles[k].name == "CONSERVATIVE" && CANARY_CANDIDATE_ID in metrics
    ensures var m := metrics[CANARY_CANDIDATE_ID];
            (exists c | c in Drafts(profiles, true, metrics, env, 21) :: c.hardGatePass)
            <==> CanaryApproved(CanaryProfile(profiles[k], m, env), m)
  {
    CanaryDraftPasses(profiles, metrics, env, k);
    var draft := Drafts(profiles, true, metrics, env, 21);
    forall i | 0 <= i < 21 && draft[i].hardGatePass
      ensures i == 7 * k + 6
    {
      PassingIsCanary(profiles, metrics, env, i);
      CanaryPlace(profiles, k, i);
    }
    OnlyOnePasses(draft, 7 * k + 6);
  }

  lemma OnlyOnePasses(draft: seq<Candidate>, n: nat)
    requires n < |draft| && forall i | 0 <= i < |draft| && draft[i].hardGatePass :: i == n
    ensures (exists c | c in draft :: c.hardGatePass) <==> draft[n].hardGatePass
  {
    assert draft[n] in draft;
  }

  lemma CanaryDraftPasses(profiles: seq<Profile>, metrics: map<string, Metrics>, env: Environment, k: nat)
    requires Canonical(profiles) && k < 3 && profiles[k].name == "CONSERVATIVE" && CANARY_CANDIDATE_ID in metrics
    ensures var m := metrics[CANARY_CANDIDATE_ID];
            Drafts(profiles, true, metrics, env, 21)[7 * k + 6].hardGatePass
            <==> CanaryApproved(CanaryProfile(profiles[k], m, env), m)
  {
    var m := metrics[CANARY_CANDIDATE_ID];
    Position(k, 6);
    CanaryDraft(profiles, metrics, env, k);
    GatesExactly(CanaryProfile(profiles[k], m, env), m);
  }

  lemma PassingIsCanary(profiles: seq<Profile>, metrics: map<string, Metrics>, env: Environment, i: nat)
    requires |profiles| == 3 && i < 21 && Drafts(profiles, true, metrics, env, 21)[i].hardGatePass
    ensures IdAt(profiles, i) == CANARY_CANDIDATE_ID
  {}

  /**
   The whole selection without its gates: the canary is selected exactly when the evidence holds and
   the finalized CONSERVATIVE profile at 100000 NARA is approved with its measurements.
   */
  lemma SelectionSpelledOut(profiles: seq<Profile>, metrics: map<string, Metrics>, env: Environment, k: nat)
    requires Canonical(profiles) && StrictWeak(env.idBefore) && k < 3 && profiles[k].name == "CONSERVATIVE"
    ensures var complete := EvidenceComplete(RequiredIds(), metrics, env);
            var pareto := Pareto(Drafts(profiles, complete, metrics, env, 21), complete, env.idBefore);
            && (pareto != [] <==>
                  && EvidenceHolds(metrics, env) && "CONSERVATIVE-100000-NARA" in metrics
                  && var m := metrics["CONSERVATIVE-100000-NARA"];
                     CanaryApproved(CanaryProfile(profiles[k], m, env), m))
            && (pareto != [] ==>
                  && pareto[0].candidateId == "CONSERVATIVE-100000-NARA"
                  && (pareto[0].buildRefused
                      <==> 500_000_000 > env.safeUsdc || 100_000 * 1_000_000_000_000_000_000 > env.safeNara))
  {
    var complete := EvidenceComplete(RequiredIds(), metrics, env);
    EvidenceExactly(metrics, env);
    SelectionExactly(profiles, metrics, env);
    CanaryIsRequired();
    if complete {
      CanaryInEvidence(metrics);
      PassingDraft(profiles, metrics, env, k);
      SelectedIsCanaryDraft(profiles, metrics, env);
    }
  }

  lemma CanaryInEvidence(metrics: map<string, Metrics>)
    requires metrics.Keys == RequiredIds()
    ensures CANARY_CANDIDATE_ID in metrics
  {
    CanaryIsRequired();
    assert REQUIRED_PROFILE_NAMES[0] == "CONSERVATIVE" && REQUIRED_NARA_BUDGETS[6] == 100000;
    assert IdOf("CONSERVATIVE", 100000) in RequiredIds();
  }

  /** What is selected is the canary, refused exactly when the Safe cannot fund it. */
  lemma SelectedIsCanaryDraft(profiles: seq<Profile>, metrics: map<string, Metrics>, env: Environment)
    requires Canonical(profiles)
    ensures var pareto := Pareto(Drafts(profiles, true, metrics, env, 21), true, env.idBefore);
            pareto != [] ==>
              (pareto[0].buildRefused
               <==> 500_000_000 > env.safeUsdc || 100_000 * 1_000_000_000_000_000_000 > env.safeNara)
  {
    var draft := Drafts(profiles, true, metrics, env, 21);
    if Pareto(draft, true, env.idBefore) != [] {
      DraftIds(profiles, true, metrics, env);
      var i := SelectedIsGatedDraft(draft, true, env.idBefore);
      PassingRefused(profiles, metrics, env, i);
    }
  }

  lemma PassingRefused(profiles: seq<Profile>, metrics: map<string, Metrics>, env: Environment, i: nat)
    requires |profiles| == 3 && i < 21 && Drafts(profiles, true, metrics, env, 21)[i].hardGatePass
    ensures Drafts(profiles, true, metrics, env, 21)[i].buildRefused
            <==> 500_000_000 > env.safeUsdc || 100_000 * 1_000_000_000_000_000_000 > env.safeNara
  {}

  /** The frontier consists of what is selected. */
  lemma FrontierIsSelected(profiles: seq<Profile>, complete: bool, metrics: map<string, Metrics>, env: Environment)
    requires Canonical(profiles)
    ensures var draft := Drafts(profiles, complete, metrics, env, 21);
            FrontierIds(Gated(draft, complete))
            == if Pareto(draft, complete, env.idBefore) == [] then {} else {CANARY_CANDIDATE_ID}
  {
    var draft := Drafts(profiles, complete, metrics, env, 21);
    DraftIds(profiles, complete, metrics, env);
    forall c | c in Gated(draft, complete)
      ensures c.candidateId == CANARY_CANDIDATE_ID
    {
      GatedIsCanary(profiles, complete, metrics, env, c);
    }
    FrontierIdsAreSelected(draft, complete, env.idBefore, CANARY_CANDIDATE_ID);
  }

  /** A draft, field by field. */
  lemma DraftSpelledOut(base: Profile, raw: nat, complete: bool, metrics: map<string, Metrics>, env: Environment)
    ensures var c := Draft(base, raw, complete, metrics, env);
            var budget := raw * 1_000_000_000_000_000_000;
            && c.candidateId == base.name + "-" + Decimal(raw) + "-NARA"
            && c.naraBudget == budget
            && c.metrics == (if complete && c.candidateId in metrics then Some(metrics[c.candidateId]) else None)
            && c.profile == env.finalize(base.(totalNaraInput := budget), c.metrics)
            && (c.buildRefused
                <==> c.profile.exposedUsdcInput + c.profile.protectedUsdc > env.safeUsdc || budget > env.safeNara)
  {
    WholeBudget(raw);
  }

  /** The listed candidates are the drafts of every profile at every budget, in that order. */
  lemma DraftsSpelledOut(
      profiles: seq<Profile>, complete: bool, metrics: map<string, Metrics>, env: Environment, i: nat, j: nat)
    requires |profiles| == 3 && i < 3 && j < 7
    ensures Drafts(profiles, complete, metrics, env, 21)[7 * i + j]
         == Draft(profiles[i], REQUIRED_NARA_BUDGETS[j], complete, metrics, env)
  {
    Position(i, j);
  }

  /** The result, with no reference to drafts, gates or the frontier. */
  ghost predicate SelectedAsApproved(
      profiles: seq<Profile>, metrics: map<string, Metrics>, env: Environment, r: OptimizerResult)
    requires |profiles| == 3
  {
    && (r.selected == Some("CONSERVATIVE-100000-NARA") || r.selected == None)
    && (forall k | 0 <= k < 3 && profiles[k].name == "CONSERVATIVE" ::
          r.selected.Some? <==>
            && EvidenceHolds(metrics, env) && "CONSERVATIVE-100000-NARA" in metrics
            && var m := metrics["CONSERVATIVE-100000-NARA"];
               CanaryApproved(CanaryProfile(profiles[k], m, env), m))
    && (r.status.BlockedExactForkResultsRequired? <==> r.selected == None)
    && (r.status.SelectedExecutionBlocked? <==>
          && r.selected.Some?
          && (500_000_000 > env.safeUsdc || 100_000 * 1_000_000_000_000_000_000 > env.safeNara))
  }

  /** Exactly what is selected is marked. */
  ghost predicate MarkedAsSelected(r: OptimizerResult) {
    forall i | 0 <= i < |r.candidates| ::
      r.candidates[i].paretoOptimal <==> r.selected == Some(r.candidates[i].candidateId)
  }

  /** The result put together from drafts, frontier and selection. */
  ghost predicate Assembled(
      profiles: seq<Profile>, complete: bool, metrics: map<string, Metrics>, env: Environment, r: OptimizerResult)
    requires |profiles| == 3
  {
    var draft := Drafts(profiles, complete, metrics, env, 21);
    var pareto := Pareto(draft, complete, env.idBefore);
    && r.candidates == MarkPareto(draft, FrontierIds(Gated(draft, complete)))
    && r.pareto == pareto
    && r.selected == (if pareto == [] then None else Some(pareto[0].candidateId))
    && (r.status.BlockedExactForkResultsRequired? <==> pareto == [])
    && (pareto != [] ==> (r.status.SelectedExecutionBlocked? <==> pareto[0].buildRefused))
  }

  lemma AssembledIsApproved(
      profiles: seq<Profile>, metrics: map<string, Metrics>, env: Environment, r: OptimizerResult)
    requires Canonical(profiles) && StrictWeak(env.idBefore)
    requires Assembled(profiles, EvidenceComplete(RequiredIds(), metrics, env), metrics, env, r)
    ensures SelectedAsApproved(profiles, metrics, env, r)
  {
    SelectionExactly(profiles, metrics, env);
    assert "CONSERVATIVE" in REQUIRED_PROFILE_NAMES by {
      assert REQUIRED_PROFILE_NAMES[0] == "CONSERVATIVE";
    }
    forall k | 0 <= k < 3 && profiles[k].name == "CONSERVATIVE" {
      SelectionSpelledOut(profiles, metrics, env, k);
    }
  }

  lemma AssembledIsMarked(
      profiles: seq<Profile>, complete: bool, metrics: map<string, Metrics>, env: Environment, r: OptimizerResult)
    requires Canonical(profiles) && StrictWeak(env.idBefore)
    requires complete == EvidenceComplete(RequiredIds(), metrics, env) && Assembled(profiles, complete, metrics, env, r)
    ensures MarkedAsSelected(r)
  {
    FrontierIsSelected(profiles, complete, metrics, env);
    SelectionExactly(profiles, metrics, env);
  }

  method OptimizeTreasuryRanges(profiles: seq<Profile>, metrics: map<string, Metrics>, env: Environment)
    returns (result: Result<OptimizerResult>)
    ensures result.Ok? <==> Canonical(profiles)
    ensures result.Ok? ==>
              Assembled(profiles, EvidenceComplete(RequiredIds(), metrics, env), metrics, env, result.value)
    ensures result.Ok? && StrictWeak(env.idBefore) ==> SelectedAsApproved(profiles, metrics, env, result.value)
    ensures result.Ok? && StrictWeak(env.idBefore) ==> MarkedAsSelected(result.value)
  {
    var ids := RequiredCandidateIds(profiles);
    if ids.Err? {
      return Err(ids.reason);
    }
    var complete := EvidenceComplete(ids.value, metrics, env);
    var draft := BuildDraft(profiles, complete, metrics, env);
    var candidates := MarkPareto(draft, FrontierIds(Gated(draft, complete)));
    var pareto := Sort(Filter(candidates, (c: Candidate) => c.paretoOptimal), Precedes(env.idBefore));
    var status := if pareto == [] then BlockedExactForkResultsRequired
                  else if pareto[0].buildRefused then SelectedExecutionBlocked
                  else SelectedBuildable;
    var r := OptimizerResult(candidates, pareto, if pareto == [] then None else Some(pareto[0].candidateId), status);
    if StrictWeak(env.idBefore) {
      AssembledIsApproved(profiles, metrics, env, r);
      AssembledIsMarked(profiles, complete, metrics, env, r);
    }
    result := Ok(r);
  }
}
