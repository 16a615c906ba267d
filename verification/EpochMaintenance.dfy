/**
 Epoch catch-up: the static batch plan, the live loop that replans after every confirmed
 transaction while the clock keeps moving, and the padded recovery plan for a Safe.
 */
module EpochMaintenance {
  import opened Wrappers
  import opened Arithmetic

  /** ceil(backlog / size) */
  function BatchesNeeded(backlog: nat, size: nat): nat
    requires size > 0
  {
    (backlog + size - 1) / size
  }

  // ----- the static plan

  function Batches(backlog: nat, size: nat, maxBatches: nat): seq<nat>
    decreases maxBatches
  {
    if backlog == 0 || maxBatches == 0 then []
    else
      var next := Min(backlog, size);
      [next] + Batches(backlog - next, size, maxBatches - 1)
  }

  method PlanEpochBatches(backlog: int, size: nat, maxBatches: nat) returns (plan: Result<seq<nat>>)
    ensures plan.Err? <==> backlog < 0
    ensures plan.Ok? ==> plan.value == Batches(backlog, size, maxBatches)
  {
    if backlog < 0 {
      return Err("Epoch backlog cannot be negative");
    }
    var batches: seq<nat> := [];
    var remaining: nat := backlog;
    while remaining > 0 && |batches| < maxBatches
      invariant |batches| <= maxBatches
      invariant Batches(backlog, size, maxBatches) == batches + Batches(remaining, size, maxBatches - |batches|)
      decreases maxBatches - |batches|
    {
      var next := if remaining < size then remaining else size;
      assert batches + ([next] + Batches(remaining - next, size, maxBatches - |batches| - 1))
          == (batches + [next]) + Batches(remaining - next, size, maxBatches - |batches| - 1);
      batches := batches + [next];
      remaining := remaining - next;
    }
    return Ok(batches);
  }

  /** Every batch is full except possibly the last one needed, and the plan covers what its capacity allows. */
  lemma {:induction false} PlanShape(backlog: nat, size: nat, maxBatches: nat)
    requires size > 0
    ensures var plan := Batches(backlog, size, maxBatches);
            && |plan| == Min(BatchesNeeded(backlog, size), maxBatches)
            && Sum(plan) == Min(backlog, size * maxBatches)
    decreases maxBatches
  {
    if backlog == 0 {
      NeededBracket(0, size);
      assert size * maxBatches >= 0;
    } else if maxBatches > 0 {
      var next := Min(backlog, size);
      PlanShape(backlog - next, size, maxBatches - 1);
      OneBatchFewer(backlog, size);
      assert Batches(backlog, size, maxBatches)[1..] == Batches(backlog - next, size, maxBatches - 1);
      OneMoreMultiple(size, maxBatches - 1);
    }
  }

  lemma {:induction false} PlanEntry(backlog: nat, size: nat, maxBatches: nat, i: nat)
    requires size > 0 && i < |Batches(backlog, size, maxBatches)|
    ensures 0 < Batches(backlog, size, maxBatches)[i] == Min(size, backlog - size * i)
    decreases maxBatches
  {
    if i > 0 {
      var next := Min(backlog, size);
      PlanEntry(backlog - next, size, maxBatches - 1, i - 1);
      OneMoreMultiple(size, i - 1);
    } else {
      assert size * i == 0;
    }
  }

  lemma OneMoreMultiple(size: nat, n: nat)
    ensures size * (n + 1) == size * n + size >= size
  {}

  lemma OneBatchFewer(backlog: nat, size: nat)
    requires size > 0 && backlog > 0
    ensures BatchesNeeded(backlog, size) == 1 + BatchesNeeded(backlog - Min(backlog, size), size)
  {
    var rest := backlog - Min(backlog, size);
    var k' := BatchesNeeded(rest, size);
    NeededBracket(backlog, size);
    NeededBracket(rest, size);
    OneMoreMultiple(size, k');
    if rest == 0 {
      assert size * k' == 0;
    } else {
      OneMoreMultiple(size, k' - 1);
    }
    UniqueBracket(backlog, size, BatchesNeeded(backlog, size), 1 + k');
  }

  /** ceil(b/size) is the only k with size*(k-1) < b <= size*k. */
  lemma NeededBracket(backlog: nat, size: nat)
    requires size > 0
    ensures var k := BatchesNeeded(backlog, size); size * (k - 1) < backlog <= size * k
    ensures BatchesNeeded(backlog, size) == 0 <==> backlog == 0
  {
    var x := backlog + size - 1;
    var k := x / size;
    assert x == size * k + x % size;
    assert size * (k - 1) == size * k - size;
  }

  lemma UniqueBracket(backlog: int, size: nat, k: int, k': int)
    requires size > 0
    requires size * (k - 1) < backlog <= size * k && size * (k' - 1) < backlog <= size * k'
    ensures k == k'
  {
    MultipleOrder(size, k - 1, k');
    MultipleOrder(size, k' - 1, k);
  }

  lemma MultipleOrder(size: nat, a: int, b: int)
    requires size > 0
    ensures size * a < size * b ==> a < b
    ensures a <= b ==> size * a <= size * b
  {}

  method ValidateAutomaticPlan(backlog: int, size: nat, maxBatches: nat, maxBacklog: Option<nat>)
    returns (plan: Result<seq<nat>>)
    requires size > 0
    ensures plan.Ok? <==> 0 <= backlog <= size * maxBatches && (maxBacklog.Some? ==> backlog <= maxBacklog.value)
    ensures plan.Ok? ==> plan.value == Batches(backlog, size, maxBatches) && Sum(plan.value) == backlog
  {
    if maxBacklog.Some? && backlog > maxBacklog.value {
      return Err("Observed backlog exceeds the automatic limit; manual recovery review required");
    }
    plan := PlanEpochBatches(backlog, size, maxBatches);
    if plan.Err? {
      return;
    }
    PlanShape(backlog, size, maxBatches);
    if Sum(plan.value) < backlog {
      return Err("Configured batch limit cannot clear the observed backlog");
    }
  }

  // ----- the engine, as its contract states it

  /** `untracked` is what was sent to the engine directly and its reserve accounting does not know. */
  datatype Engine = Engine(settled: nat, clock: nat, untracked: nat)
  {
    ghost predicate Valid() {
      settled <= clock
    }

    function Backlog(): nat
      requires settled <= clock
    {
      clock - settled
    }

    /** syncEmissionReserve takes the untracked reserve into account. */
    function Sync(): Engine {
      this.(untracked := 0)
    }

    /** advanceEpochs settles up to maxSteps epochs, and reverts when there is nothing to settle. */
    function Advance(maxSteps: nat): Result<Engine>
      requires settled <= clock
    {
      if maxSteps == 0 then Err("ZeroValue")
      else if Backlog() == 0 then Err("EpochNotReady")
      else Ok(this.(settled := settled + Min(maxSteps, Backlog())))
    }
  }

  // ----- the live loop

  /** How many epochs begin while batch i is pending. */
  function TickAt(ticks: seq<nat>, i: nat): (n: nat)
    ensures i < |ticks| ==> n == ticks[i]
    ensures i >= |ticks| ==> n == 0
  {
    if i < |ticks| then ticks[i] else 0
  }

  /** The backlog after n confirmed batches, were every one of them sent. */
  ghost function LiveBacklog(backlog: nat, size: nat, ticks: seq<nat>, n: nat): nat {
    if n == 0 then backlog
    else
      var before := LiveBacklog(backlog, size, ticks, n - 1);
      before - Min(before, size) + TickAt(ticks, n - 1)
  }

  ghost function Ticks(ticks: seq<nat>, first: nat, end: nat): nat
    requires first <= end
    decreases end
  {
    if first == end then 0 else Ticks(ticks, first, end - 1) + TickAt(ticks, end - 1)
  }

  /** Every batch was sized from the backlog of its moment, and none was sent to a current engine. */
  ghost predicate Replanned(backlog: nat, size: nat, ticks: seq<nat>, sent: seq<nat>) {
    forall i | 0 <= i < |sent| ::
      0 < LiveBacklog(backlog, size, ticks, i) && sent[i] == Min(size, LiveBacklog(backlog, size, ticks, i))
  }

  method CatchUp(start: Engine, size: nat, maxBatches: nat, ticks: seq<nat>)
    returns (sent: seq<nat>, engine: Engine, outcome: Result<nat>)
    requires start.Valid() && size > 0
    ensures engine.Valid() && |sent| <= maxBatches
    ensures engine.settled == start.settled + Sum(sent)
    ensures engine.clock == start.clock + Ticks(ticks, 0, |sent|)
    ensures Replanned(start.Backlog(), size, ticks, sent)
    ensures engine.Backlog() == LiveBacklog(start.Backlog(), size, ticks, |sent|)
    ensures outcome.Ok? <==> engine.Backlog() == 0
    ensures outcome.Err? ==> |sent| == maxBatches
    ensures outcome.Ok? <==> exists n | 0 <= n <= maxBatches :: Clears(start.Backlog(), size, ticks, n, 0)
    ensures BatchesNeeded(start.Backlog(), size) + Ticks(ticks, 0, maxBatches) <= maxBatches ==> outcome.Ok?
  {
    engine := start;
    sent := [];
    var batchesUsed := 0;
    while engine.Backlog() > 0 && batchesUsed < maxBatches
      invariant engine.Valid() && |sent| == batchesUsed <= maxBatches
      invariant engine.settled == start.settled + Sum(sent)
      invariant engine.clock == start.clock + Ticks(ticks, 0, |sent|)
      invariant engine.Backlog() == LiveBacklog(start.Backlog(), size, ticks, |sent|)
      invariant Replanned(start.Backlog(), size, ticks, sent)
      decreases maxBatches - batchesUsed
    {
      var steps := if engine.Backlog() < size then engine.Backlog() else size;
      var pending := engine.(clock := engine.clock + TickAt(ticks, batchesUsed));
      var confirmed := pending.Advance(steps);
      SumAppend(sent, steps);
      sent := sent + [steps];
      batchesUsed := batchesUsed + 1;
      // The script's "did not move the settled epoch" stop is unreachable against this engine.
      assert confirmed.value.settled > engine.settled;
      engine := confirmed.value;
    }
    OutcomeExactly(start.Backlog(), size, ticks, maxBatches, |sent|);
    if engine.Backlog() != 0 {
      outcome := Err("Epoch backlog remains");
    } else {
      outcome := Ok(batchesUsed);
    }
  }

  lemma {:induction false} StillClockFollowsPlan(backlog: nat, size: nat, maxBatches: nat, n: nat)
    requires size > 0 && n <= |Batches(backlog, size, maxBatches)|
    ensures LiveBacklog(backlog, size, [], n) == backlog - Min(backlog, size * n)
    ensures n < |Batches(backlog, size, maxBatches)| ==>
              Batches(backlog, size, maxBatches)[n] == Min(size, LiveBacklog(backlog, size, [], n)) > 0
  {
    if n == 0 {
      assert size * n == 0;
    } else {
      StillClockFollowsPlan(backlog, size, maxBatches, n - 1);
      OneMoreMultiple(size, n - 1);
    }
    if n < |Batches(backlog, size, maxBatches)| {
      PlanEntry(backlog, size, maxBatches, n);
    }
  }

  /** With a still clock the loop sends exactly the validated plan. */
  lemma StillClockSendsPlan(backlog: nat, size: nat, maxBatches: nat, sent: seq<nat>)
    requires size > 0 && |sent| <= maxBatches && Replanned(backlog, size, [], sent)
    requires LiveBacklog(backlog, size, [], |sent|) == 0 || |sent| == maxBatches
    ensures sent == Batches(backlog, size, maxBatches)
  {
    var plan := Batches(backlog, size, maxBatches);
    PlanShape(backlog, size, maxBatches);
    if |sent| < |plan| {
      StillClockFollowsPlan(backlog, size, maxBatches, |sent|);
    } else {
      StillClockFollowsPlan(backlog, size, maxBatches, |plan|);
      NeededBracket(backlog, size);
    }
    forall i | 0 <= i < |plan| && i < |sent|
      ensures sent[i] == plan[i]
    {
      StillClockFollowsPlan(backlog, size, maxBatches, i);
    }
  }

  /** The loop can only be outrun: at most one extra batch is needed per tick. */
  lemma {:induction false} BatchesNeededAfter(backlog: nat, size: nat, ticks: seq<nat>, n: nat)
    requires size > 0
    requires forall i | 0 <= i < n :: LiveBacklog(backlog, size, ticks, i) > 0
    ensures BatchesNeeded(LiveBacklog(backlog, size, ticks, n), size) + n
            <= BatchesNeeded(backlog, size) + Ticks(ticks, 0, n)
  {
    if n > 0 {
      BatchesNeededAfter(backlog, size, ticks, n - 1);
      var before := LiveBacklog(backlog, size, ticks, n - 1);
      OneBatchFewer(before, size);
      TicksAddBatches(before - Min(before, size), TickAt(ticks, n - 1), size);
    }
  }

  lemma {:induction false} TicksAddBatches(backlog: nat, more: nat, size: nat)
    requires size > 0
    ensures BatchesNeeded(backlog + more, size) <= BatchesNeeded(backlog, size) + more
  {
    if more > 0 {
      TicksAddBatches(backlog, more - 1, size);
      var x := backlog + more - 1;
      NeededBracket(x, size);
      NeededBracket(x + 1, size);
      var k, k' := BatchesNeeded(x, size), BatchesNeeded(x + 1, size);
      assert size * (k + 1) == size * k + size;
      assert size * (k' - 1) < size * (k + 1);
      MultipleOrder(size, k' - 1, k + 1);
    }
  }

  /**
   The arrivals during batches j..n-1 fit in the capacity of the batches sent after the first of them,
   plus `left`.
   */
  ghost predicate SuffixFits(size: nat, ticks: seq<nat>, j: nat, n: nat, left: int)
    requires j < n
  {
    Ticks(ticks, j, n) <= size * (n - 1 - j) + left
  }

  ghost predicate Clears(backlog: nat, size: nat, ticks: seq<nat>, n: nat, left: int) {
    && backlog + Ticks(ticks, 0, n) <= size * n + left
    && forall j | 0 <= j < n :: SuffixFits(size, ticks, j, n, left)
  }

  /** The exact condition: the backlog after n batches is at most `left` just when every suffix of arrivals fits. */
  lemma {:induction false} LiveBacklogExactly(backlog: nat, size: nat, ticks: seq<nat>, n: nat, left: nat)
    ensures LiveBacklog(backlog, size, ticks, n) <= left <==> Clears(backlog, size, ticks, n, left)
    decreases n
  {
    if n == 0 {
      assert size * n == 0;
    } else if TickAt(ticks, n - 1) <= left {
      LiveBacklogExactly(backlog, size, ticks, n - 1, left - TickAt(ticks, n - 1) + size);
      ClearsStep(backlog, size, ticks, n, left);
    } else {
      LastSuffix(size, ticks, n, left);
    }
  }

  lemma LastSuffix(size: nat, ticks: seq<nat>, n: nat, left: nat)
    requires n > 0
    ensures SuffixFits(size, ticks, n - 1, n, left) <==> TickAt(ticks, n - 1) <= left
  {
    assert Ticks(ticks, n - 1, n) == TickAt(ticks, n - 1);
    assert size * (n - 1 - (n - 1)) == 0;
  }

  lemma ClearsStep(backlog: nat, size: nat, ticks: seq<nat>, n: nat, left: nat)
    requires n > 0 && TickAt(ticks, n - 1) <= left
    ensures Clears(backlog, size, ticks, n, left)
            <==> Clears(backlog, size, ticks, n - 1, left - TickAt(ticks, n - 1) + size)
  {
    OneMoreMultiple(size, n - 1);
    LastSuffix(size, ticks, n, left);
    var m, roomier := n - 1, left - TickAt(ticks, n - 1) + size;
    if Clears(backlog, size, ticks, n, left) {
      forall j | 0 <= j < m
        ensures SuffixFits(size, ticks, j, m, roomier)
      {
        OneMoreMultiple(size, m - 1 - j);
        assert SuffixFits(size, ticks, j, n, left);
      }
    }
    if Clears(backlog, size, ticks, m, roomier) {
      forall j | 0 <= j < n
        ensures SuffixFits(size, ticks, j, n, left)
      {
        if j < m {
          OneMoreMultiple(size, m - 1 - j);
          assert SuffixFits(size, ticks, j, m, roomier);
        }
      }
    }
  }

  lemma OutcomeExactly(backlog: nat, size: nat, ticks: seq<nat>, maxBatches: nat, sent: nat)
    requires size > 0 && sent <= maxBatches
    requires forall i | 0 <= i < sent :: LiveBacklog(backlog, size, ticks, i) > 0
    requires LiveBacklog(backlog, size, ticks, sent) == 0 || sent == maxBatches
    ensures LiveBacklog(backlog, size, ticks, sent) == 0
            <==> exists n | 0 <= n <= maxBatches :: Clears(backlog, size, ticks, n, 0)
    ensures BatchesNeeded(backlog, size) + Ticks(ticks, 0, maxBatches) <= maxBatches ==>
            LiveBacklog(backlog, size, ticks, sent) == 0
  {
    forall n | 0 <= n <= maxBatches
      ensures Clears(backlog, size, ticks, n, 0) <==> LiveBacklog(backlog, size, ticks, n) == 0
    {
      LiveBacklogExactly(backlog, size, ticks, n, 0);
    }
    if sent == maxBatches {
      BatchesNeededAfter(backlog, size, ticks, maxBatches);
      NeededBracket(LiveBacklog(backlog, size, ticks, maxBatches), size);
    }
  }

  // ----- recovery plans executed later

  datatype RecoveryCall = SyncEmissionReserve | AdvanceEpochs(steps: nat)

  function Repeat(call: RecoveryCall, n: nat): seq<RecoveryCall> {
    if n == 0 then [] else [call] + Repeat(call, n - 1)
  }

  /** One full-size call per planned batch, so a signing delay does not make the plan stale. */
  function RecoveryCallPlan(
      backlog: int, includeReserveSync: bool, size: nat, maxBatches: nat): Result<seq<RecoveryCall>> {
    if backlog < 0 then Err("Epoch backlog cannot be negative")
    else
      var batches := Batches(backlog, size, maxBatches);
      if Sum(batches) < backlog then Err("Configured Safe batch cannot clear the observed backlog")
      else Ok((if includeReserveSync then [SyncEmissionReserve] else []) + Repeat(AdvanceEpochs(size), |batches|))
  }

  /** The calls of one Safe transaction: any revert undoes them all. */
  function ExecuteTogether(calls: seq<RecoveryCall>, e: Engine): Result<Engine>
    requires e.settled <= e.clock
    decreases |calls|
  {
    if calls == [] then Ok(e)
    else
      match calls[0]
      case SyncEmissionReserve => ExecuteTogether(calls[1..], e.Sync())
      case AdvanceEpochs(steps) =>
        var next := e.Advance(steps);
        if next.Err? then next else ExecuteTogether(calls[1..], next.value)
  }

  /** The calls as separate transactions: a reverting one changes nothing and the next still runs. */
  function ExecuteSeparately(calls: seq<RecoveryCall>, e: Engine): (after: Engine)
    requires e.settled <= e.clock
    ensures after.settled <= after.clock
    decreases |calls|
  {
    if calls == [] then e
    else
      match calls[0]
      case SyncEmissionReserve => ExecuteSeparately(calls[1..], e.Sync())
      case AdvanceEpochs(steps) =>
        var next := e.Advance(steps);
        ExecuteSeparately(calls[1..], if next.Err? then e else next.value)
  }

  lemma {:induction false} TogetherOutcome(size: nat, n: nat, e: Engine)
    requires size > 0 && e.Valid()
    ensures var r := ExecuteTogether(Repeat(AdvanceEpochs(size), n), e);
            && (r.Ok? <==> n == 0 || size * (n - 1) < e.Backlog())
            && (r.Ok? ==> r.value == e.(settled := e.settled + Min(e.Backlog(), size * n)))
  {
    if n == 0 {
      assert size * n == 0;
    } else {
      var calls := Repeat(AdvanceEpochs(size), n);
      assert calls[1..] == Repeat(AdvanceEpochs(size), n - 1);
      assert size * n == size * (n - 1) + size;
      if n > 1 {
        assert size * (n - 1) == size * (n - 2) + size;
      } else {
        assert size * (n - 1) == 0;
      }
      var next := e.Advance(size);
      if next.Ok? {
        TogetherOutcome(size, n - 1, next.value);
      } else {
        assert size * (n - 1) >= 0;
      }
    }
  }

  lemma {:induction false} SeparateOutcome(size: nat, n: nat, e: Engine)
    requires size > 0 && e.Valid()
    ensures ExecuteSeparately(Repeat(AdvanceEpochs(size), n), e)
            == e.(settled := e.settled + Min(e.Backlog(), size * n))
  {
    if n == 0 {
      assert size * n == 0;
    } else {
      var calls := Repeat(AdvanceEpochs(size), n);
      assert calls[1..] == Repeat(AdvanceEpochs(size), n - 1);
      assert size * n == size * (n - 1) + size;
      assert size * (n - 1) >= 0;
      var next := e.Advance(size);
      SeparateOutcome(size, n - 1, if next.Err? then e else next.value);
    }
  }

  /**
   A plan built for backlog b and executed against a later backlog b': separate parts clear it
   exactly when b' <= size*ceil(b/size). Executed as one Safe transaction it must also be large
   enough to leave work for the last call, because a call on a current engine reverts.
   */
  lemma PaddedPlanClearsExactly(backlog: nat, includeReserveSync: bool, size: nat, maxBatches: nat, later: Engine)
    requires size > 0 && later.Valid()
    ensures var plan := RecoveryCallPlan(backlog, includeReserveSync, size, maxBatches);
            var k := BatchesNeeded(backlog, size);
            && (plan.Err? <==> backlog > size * maxBatches)
            && (plan.Ok? ==>
                  && ExecuteSeparately(plan.value, later).untracked
                     == (if includeReserveSync then 0 else later.untracked)
                  && (ExecuteSeparately(plan.value, later).Backlog() == 0 <==> later.Backlog() <= size * k)
                  && (ExecuteTogether(plan.value, later).Ok? <==> k == 0 || size * (k - 1) < later.Backlog())
                  && (ExecuteTogether(plan.value, later).Ok? ==>
                        ExecuteTogether(plan.value, later).value == ExecuteSeparately(plan.value, later)))
  {
    PlanShape(backlog, size, maxBatches);
    var plan := RecoveryCallPlan(backlog, includeReserveSync, size, maxBatches);
    if plan.Ok? {
      var k := |Batches(backlog, size, maxBatches)|;
      NeededBracket(backlog, size);
      MultipleOrder(size, maxBatches, BatchesNeeded(backlog, size) - 1);
      assert k == BatchesNeeded(backlog, size);
      var calls := Repeat(AdvanceEpochs(size), k);
      if includeReserveSync {
        assert plan.value[1..] == calls;
      } else {
        assert plan.value == calls;
      }
      var synced := if includeReserveSync then later.Sync() else later;
      TogetherOutcome(size, k, synced);
      SeparateOutcome(size, k, synced);
    }
  }

  lemma {:induction false} RepeatIs(call: RecoveryCall, n: nat)
    ensures |Repeat(call, n)| == n && forall i | 0 <= i < n :: Repeat(call, n)[i] == call
  {
    if n > 0 {
      RepeatIs(call, n - 1);
    }
  }

  /** The calls themselves: the sync first if it is asked for, and then one full batch each, as many as needed. */
  lemma RecoveryPlanCalls(backlog: nat, includeReserveSync: bool, size: nat, maxBatches: nat)
    requires size > 0
    ensures var plan := RecoveryCallPlan(backlog, includeReserveSync, size, maxBatches);
            var first := if includeReserveSync then 1 else 0;
            plan.Ok? ==>
              && |plan.value| == first + BatchesNeeded(backlog, size)
              && (includeReserveSync ==> plan.value[0].SyncEmissionReserve?)
              && forall i | first <= i < |plan.value| :: plan.value[i] == AdvanceEpochs(size)
  {
    PlanShape(backlog, size, maxBatches);
    NeededBracket(backlog, size);
    MultipleOrder(size, maxBatches, BatchesNeeded(backlog, size) - 1);
    RepeatIs(AdvanceEpochs(size), |Batches(backlog, size, maxBatches)|);
  }

  /** Calls leave the untracked reserve alone unless a sync is among them. */
  lemma {:induction false} UntrackedAfter(calls: seq<RecoveryCall>, e: Engine)
    requires e.Valid()
    ensures ExecuteSeparately(calls, e).untracked == if SyncEmissionReserve in calls then 0 else e.untracked
    decreases |calls|
  {
    if calls != [] {
      assert calls == [calls[0]] + calls[1..];
      match calls[0]
      case SyncEmissionReserve => UntrackedAfter(calls[1..], e.Sync());
      case AdvanceEpochs(steps) =>
        var next := e.Advance(steps);
        UntrackedAfter(calls[1..], if next.Err? then e else next.value);
    }
  }

  /** When an advance runs, the reserve is fully tracked exactly if the sync was asked for or it already was. */
  lemma AdvancesSeeTrackedReserve(
      backlog: nat, includeReserveSync: bool, size: nat, maxBatches: nat, later: Engine, i: nat)
    requires size > 0 && later.Valid() && RecoveryCallPlan(backlog, includeReserveSync, size, maxBatches).Ok?
    requires var plan := RecoveryCallPlan(backlog, includeReserveSync, size, maxBatches).value;
             i < |plan| && plan[i].AdvanceEpochs?
    ensures var plan := RecoveryCallPlan(backlog, includeReserveSync, size, maxBatches).value;
            ExecuteSeparately(plan[..i], later).untracked == 0 <==> includeReserveSync || later.untracked == 0
  {
    var plan := RecoveryCallPlan(backlog, includeReserveSync, size, maxBatches).value;
    RecoveryPlanCalls(backlog, includeReserveSync, size, maxBatches);
    UntrackedAfter(plan[..i], later);
    if includeReserveSync {
      assert plan[..i][0] == SyncEmissionReserve;
    }
  }

  /**
   A plan for one epoch more than a batch, executed when one batch is left (101 and 100 for the
   batch size of 100): separate parts clear the backlog, but in one Safe transaction the second
   call finds the engine current and reverts everything.
   */
  lemma CaughtUpCallUndoesThePlan(includeReserveSync: bool, size: nat, maxBatches: nat, later: Engine)
    requires size > 0 && maxBatches >= 2 && later.Valid() && later.Backlog() == size
    ensures var plan := RecoveryCallPlan(size + 1, includeReserveSync, size, maxBatches);
            && plan.Ok?
            && ExecuteSeparately(plan.value, later).Backlog() == 0
            && ExecuteTogether(plan.value, later).Err?
  {
    NeededBracket(size + 1, size);
    assert size * (2 - 1) < size + 1 <= size * 2;
    UniqueBracket(size + 1, size, BatchesNeeded(size + 1, size), 2);
    MultipleOrder(size, 2, maxBatches);
    PaddedPlanClearsExactly(size + 1, includeReserveSync, size, maxBatches, later);
  }

  function ExactCalls(batches: seq<nat>): seq<RecoveryCall> {
    if batches == [] then [] else [AdvanceEpochs(batches[0])] + ExactCalls(batches[1..])
  }

  /** Encoding the exact remainder instead clears exactly the backlogs up to the one observed. */
  lemma {:induction false} ExactPlanClearsExactly(batches: seq<nat>, later: Engine)
    requires later.Valid()
    ensures ExecuteSeparately(ExactCalls(batches), later)
            == later.(settled := later.settled + Min(later.Backlog(), Sum(batches)))
    ensures ExecuteSeparately(ExactCalls(batches), later).Backlog() == 0 <==> later.Backlog() <= Sum(batches)
  {
    if batches != [] {
      var calls := ExactCalls(batches);
      assert calls[1..] == ExactCalls(batches[1..]);
      var next := later.Advance(batches[0]);
      ExactPlanClearsExactly(batches[1..], if next.Err? then later else next.value);
    }
  }
}
