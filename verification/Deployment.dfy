/** The two deployment scripts as runs of recorded transactions against an arbitrary provider. */
module Deployment {
  import opened Wrappers
  import opened Arithmetic
  import opened Journal

  /** What handing a transaction over did: threw, perhaps after it got out, or returned it. */
  datatype Send = Threw(broadcast: bool) | Returned(hash: string, nonce: nat)

  /** `Mined` stands for a receipt with status 1 and canonical evidence. */
  datatype Wait = Mined | NotMined

  /** Everything the outside world answers during one step. */
  datatype Reply = Reply(
    guard: bool,        // the code before the transaction, its own checks included, did not throw
    latest: nat,        // the deployer's nonce at the latest block
    pending: nat,       // and including the mempool
    code: bool,         // the predicted address already has code
    send: Send,
    wait: Wait)

  ghost predicate GotOut(send: Send) {
    send.Returned? || send.broadcast
  }

  // ----- the two try blocks every recorded transaction goes through

  /** Prepares a step in the journal, then hands its transaction over when it gets that far. */
  method PrepareAndSend(journal: DeploymentJournal, transaction: Transaction, expected: Option<Address>, out: bool)
    returns (i: nat)
    requires journal.Valid() && journal.status.InProgress? && AllConfirmed(journal.steps)
    requires journal.machine.budget > 0 ==> |journal.machine.sent| == |journal.steps|
    modifies journal`steps, journal.machine
    ensures journal.Valid()
    ensures i == |old(journal.steps)|
    ensures journal.steps == old(journal.steps) + [Step(i, transaction.name, Prepared, expected, None, None)]
    ensures HandedOnce(old(journal.machine.Now()), journal.machine.Now(), transaction, out)
  {
    i := journal.Prepare(transaction.name, expected);
    if out {
      SendKeeps(journal.machine.Now(), journal.Payload(), transaction);
      journal.machine.HandToProvider(transaction);
    }
  }

  /**
   The first try block: if the checks let it proceed, the transaction is handed over; its hash is
   journaled when the provider returned it and it is accepted, and the step fails otherwise.
   */
  method HandOver(journal: DeploymentJournal, transaction: Transaction, expected: Option<Address>,
                  proceed: bool, send: Send, accept: bool)
    returns (ok: bool)
    requires journal.Valid() && journal.status.InProgress? && AllConfirmed(journal.steps)
    requires journal.machine.budget > 0 ==> |journal.machine.sent| == |journal.steps|
    modifies journal`steps, journal.machine
    ensures journal.Valid()
    ensures ok <==> proceed && send.Returned? && accept
    ensures journal.steps == old(journal.steps) + [Step(|old(journal.steps)|, transaction.name,
              if ok then Submitted else Failed, expected, if ok then Some(send.hash) else None, None)]
    ensures HandedOnce(old(journal.machine.Now()), journal.machine.Now(), transaction, proceed && GotOut(send))
  {
    var i := PrepareAndSend(journal, transaction, expected, proceed && (send.Returned? || send.broadcast));
    ok := proceed && send.Returned? && accept;
    if ok {
      journal.Submitted(i, send.hash);
    } else {
      journal.FailedStep(i);
    }
  }

  /** A transaction that got out is on the list of sent ones, unless the machine had stopped. */
  ghost predicate HandedOnce(before: Image, after: Image, t: Transaction, out: bool) {
    && after.budget <= before.budget
    && (after.sent == before.sent || (before.budget > 0 && out && after.sent == before.sent + [t]))
    && (after.budget > 0 && out ==> after.sent == before.sent + [t])
  }

  /** Waits for the submitted last step and confirms or fails it. */
  method Settle(journal: DeploymentJournal, ok: bool, contract: Option<Address>, learned: Option<Address>)
    requires journal.Valid() && journal.status.InProgress? && journal.steps != []
    requires var last := journal.steps[|journal.steps| - 1];
             last.state.Submitted? && (last.expected.Some? ==> learned.None?)
    modifies journal`steps, journal.machine
    ensures journal.Valid()
    ensures var i := |old(journal.steps)| - 1;
            var last := old(journal.steps)[i];
            journal.steps == old(journal.steps)[i :=
              if ok then last.(state := Confirmed, receipt := Some(Receipt(last.hash.value, contract)),
                               expected := if learned.Some? then learned else last.expected)
              else last.(state := Failed)]
    ensures journal.machine.sent == old(journal.machine.sent)
    ensures journal.machine.budget <= old(journal.machine.budget)
  {
    var i := |journal.steps| - 1;
    if ok {
      journal.Confirmed(i, Receipt(journal.steps[i].hash.value, contract), learned);
    } else {
      journal.FailedStep(i);
    }
  }

  // ----- the Base deployment

  /** A planned transaction: a call, perhaps creating a known address, or a plain deployment. */
  datatype Planned = Call(name: string, creates: Option<Address>) | Creation(name: string)

  ghost predicate Succeeds(reply: Reply) {
    reply.guard && reply.send.Returned? && reply.wait.Mined?
  }

  /** Confirmed with the hash it was sent under, and with the address the source of the transaction gives it. */
  ghost predicate ConfirmedAs(step: Step, deployer: Address, planned: Planned, send: Send) {
    && send.Returned? && step.state.Confirmed? && step.name == planned.name
    && step.hash == Some(send.hash)
    && step.receipt.Some? && step.receipt.value.hash == send.hash
    && (planned.Creation? ==> step.expected == step.receipt.value.contract == Some(Created(deployer, send.nonce)))
    && (planned.Call? ==> step.expected == step.receipt.value.contract == planned.creates)
  }

  /** A transaction awaited through `waitTx` or `deployContractRecorded`. */
  method SendRecorded(journal: DeploymentJournal, attempt: nat, deployer: Address, planned: Planned, reply: Reply)
    returns (ok: bool)
    requires journal.Valid() && journal.status.InProgress? && AllConfirmed(journal.steps) && reply.guard
    requires journal.machine.budget > 0 ==> |journal.machine.sent| == |journal.steps|
    modifies journal`steps, journal.machine
    ensures journal.Valid()
    ensures ok <==> Succeeds(reply)
    ensures var n := |old(journal.steps)|;
            && |journal.steps| == n + 1 && journal.steps[..n] == old(journal.steps)
            && journal.steps[n].name == planned.name
            && if ok then ConfirmedAs(journal.steps[n], deployer, planned, reply.send)
               else journal.steps[n].state.Failed?
    ensures HandedOnce(old(journal.machine.Now()), journal.machine.Now(),
                       Transaction(attempt, planned.name, None), GotOut(reply.send))
  {
    var expected := if planned.Call? then planned.creates else None;
    ok := HandOver(journal, Transaction(attempt, planned.name, None), expected, true, reply.send, true);
    if ok {
      ok := reply.wait.Mined?;
      if planned.Creation? {
        var address := Created(deployer, reply.send.nonce);
        Settle(journal, ok, Some(address), Some(address));
      } else {
        Settle(journal, ok, expected, None);
      }
    }
  }

  /** How far the plan gets: up to the first reply that is not a success. */
  ghost function GoodReplies(replies: seq<Reply>): (n: nat)
    ensures n <= |replies| && forall i | 0 <= i < n :: Succeeds(replies[i])
    ensures n < |replies| ==> !Succeeds(replies[n])
  {
    if replies == [] || !Succeeds(replies[0]) then 0 else 1 + GoodReplies(replies[1..])
  }

  lemma {:induction false} GoodRepliesIs(replies: seq<Reply>, n: nat)
    requires n <= |replies| && forall i | 0 <= i < n :: Succeeds(replies[i])
    requires n < |replies| ==> !Succeeds(replies[n])
    ensures GoodReplies(replies) == n
  {
    if n > 0 {
      GoodRepliesIs(replies[1..], n - 1);
    }
  }

  /** The first `done` steps of a journal are the first `done` planned transactions, confirmed. */
  ghost predicate Confirmedly(steps: seq<Step>, deployer: Address, plan: seq<Planned>, replies: seq<Reply>, done: nat)
    requires |plan| == |replies|
  {
    done <= |steps| && done <= |plan|
    && forall i | 0 <= i < done :: Succeeds(replies[i]) && ConfirmedAs(steps[i], deployer, plan[i], replies[i].send)
  }

  lemma ConfirmedlyKept(
      steps: seq<Step>, next: seq<Step>, deployer: Address, plan: seq<Planned>, replies: seq<Reply>, done: nat)
    requires |plan| == |replies| && Confirmedly(steps, deployer, plan, replies, done)
    requires |steps| == done && |next| > done && next[..done] == steps
    ensures Confirmedly(next, deployer, plan, replies, done)
  {
    forall i | 0 <= i < done
      ensures next[i] == steps[i]
    {
      assert next[..done][i] == next[i];
    }
  }

  /** A growing list of sent transactions stays the start of the list of planned ones. */
  lemma SentGrows(before: Image, after: Image, planned: seq<Transaction>, done: nat, out: bool)
    requires done < |planned| && before.sent <= planned[..done] && (before.budget > 0 ==> |before.sent| == done)
    requires HandedOnce(before, after, planned[done], out)
    ensures after.sent <= planned[..done + 1]
    ensures after.budget > 0 ==> |after.sent| == if out then done + 1 else done
  {}

  /** How many transactions get as far as being prepared: those that succeed, and the one that fails. */
  ghost function Attempted(replies: seq<Reply>): (n: nat)
    ensures GoodReplies(replies) <= n <= |replies|
  {
    var good := GoodReplies(replies);
    if good < |replies| && replies[good].guard then good + 1 else good
  }

  /** The transactions a plan amounts to. */
  ghost function Orders(attempt: nat, plan: seq<Planned>): seq<Transaction> {
    seq(|plan|, i requires 0 <= i < |plan| => Transaction(attempt, plan[i].name, None))
  }

  /** `done` transactions of the plan are confirmed and nothing else was sent. */
  ghost predicate PlanAt(journal: DeploymentJournal, attempt: nat, deployer: Address, plan: seq<Planned>,
                         replies: seq<Reply>, done: nat)
    reads journal, journal.machine
  {
    && journal.Valid() && journal.status.InProgress? && AllConfirmed(journal.steps) && |journal.steps| == done
    && |replies| == |plan| && Confirmedly(journal.steps, deployer, plan, replies, done)
    && journal.machine.sent <= Orders(attempt, plan)[..done]
    && (journal.machine.budget > 0 ==> |journal.machine.sent| == done)
  }

  method SendNext(journal: DeploymentJournal, attempt: nat, deployer: Address, plan: seq<Planned>,
                  replies: seq<Reply>, done: nat)
    returns (ok: bool)
    requires done < |plan| && PlanAt(journal, attempt, deployer, plan, replies, done) && replies[done].guard
    modifies journal`steps, journal.machine
    ensures ok <==> Succeeds(replies[done])
    ensures ok ==> PlanAt(journal, attempt, deployer, plan, replies, done + 1)
    ensures !ok ==> journal.Valid() && Confirmedly(journal.steps, deployer, plan, replies, done)
    ensures !ok ==> |journal.steps| == done + 1 && journal.steps[done].state.Failed?
    ensures !ok ==> journal.machine.sent <= Orders(attempt, plan)[..done + 1]
    ensures !ok && journal.machine.budget > 0 ==> |journal.machine.sent| >= done
  {
    ghost var before := journal.machine.Now();
    ghost var steps := journal.steps;
    ok := SendRecorded(journal, attempt, deployer, plan[done], replies[done]);
    SentGrows(before, journal.machine.Now(), Orders(attempt, plan), done, GotOut(replies[done].send));
    ConfirmedlyKept(steps, journal.steps, deployer, plan, replies, done);
  }

  /** The transactions of the plan in order, up to the first that does not succeed. */
  method SendPlan(journal: DeploymentJournal, attempt: nat, deployer: Address, plan: seq<Planned>, replies: seq<Reply>)
    returns (done: nat)
    requires journal.Valid() && journal.status.InProgress? && journal.steps == [] && journal.machine.sent == []
    requires |replies| == |plan|
    modifies journal`steps, journal.machine
    ensures journal.Valid()
    ensures done == GoodReplies(replies)
    ensures Confirmedly(journal.steps, deployer, plan, replies, done)
    ensures done == |plan| ==> AllConfirmed(journal.steps)
    ensures |journal.steps| == Attempted(replies)
    ensures done < Attempted(replies) ==> journal.steps[done].state.Failed?
    ensures journal.machine.sent <= Orders(attempt, plan)[..Attempted(replies)]
    ensures journal.machine.budget > 0 ==> |journal.machine.sent| >= done
  {
    done := 0;
    while done < |plan| && replies[done].guard
      invariant done <= |plan| && PlanAt(journal, attempt, deployer, plan, replies, done)
    {
      var ok := SendNext(journal, attempt, deployer, plan, replies, done);
      if !ok {
        break;
      }
      done := done + 1;
    }
    GoodRepliesIs(replies, done);
  }

  /** What follows the last transaction: its own checks, and then the manifest. */
  datatype Ending = Ending(checked: bool, manifest: Option<string>, reason: string)

  /** Completed with its manifest exactly when nothing stood in the way, failed with the reason otherwise. */
  ghost predicate Concluded(s: Snapshot, confirmed: bool, ending: Ending) {
    if confirmed && ending.checked && ending.manifest.Some?
    then s.status == Completed && s.manifest == ending.manifest && s.failure == None
    else s.status == FailedNoResume && s.manifest == None && s.failure.Some? && s.failure.value.reason == ending.reason
  }

  /** The end of `main`: with everything confirmed the ending is tried; any failure is final. */
  method Conclude(journal: DeploymentJournal, confirmed: bool, ending: Ending)
    requires journal.Valid() && journal.status.InProgress?
    requires confirmed ==> AllConfirmed(journal.steps)
    modifies journal`status, journal`manifest, journal`failure, journal.machine
    ensures journal.Valid()
    ensures Concluded(journal.Payload(), confirmed, ending)
    ensures !(confirmed && ending.checked) ==>
            journal.machine.Now() == Persisted(old(journal.machine.Now()), journal.Payload())
    ensures journal.machine.sent == old(journal.machine.sent)
    ensures journal.machine.budget <= old(journal.machine.budget)
  {
    if confirmed && ending.checked {
      journal.MarkTransactionsComplete();
      if ending.manifest.Some? {
        journal.Complete(ending.manifest.value);
        return;
      }
    }
    journal.Fail(ending.reason);
  }

  /**
   One attempt at the Base deployment. An existing checkpoint of this protocol, readable or not,
   stops it before anything happens.
   */
  method DeployBase(
      machine: Machine, attempt: nat, deployer: Address, plan: seq<Planned>, replies: seq<Reply>, ending: Ending)
    returns (outcome: Option<Snapshot>)
    requires Recorded(machine.Now()) && |replies| == |plan|
    modifies machine
    ensures Recorded(machine.Now())
    ensures outcome.None? <==> !old(machine.checkpoint).Absent?
    ensures outcome.None? ==> machine.Now() == old(machine.Now())
    ensures outcome.Some? ==>
              var done := GoodReplies(replies);
              && Tracks(machine.Now(), outcome.value)
              && machine.sent <= Orders(attempt, plan)[..Attempted(replies)]
              && (machine.budget > 0 ==> |machine.sent| >= done)
              && |outcome.value.steps| == Attempted(replies)
              && (done < Attempted(replies) ==> outcome.value.steps[done].state.Failed?)
              && Confirmedly(outcome.value.steps, deployer, plan, replies, done)
              && (forall i | 0 <= i < done ::
                    var step := outcome.value.steps[i];
                    step.receipt.Some? && step.expected == step.receipt.value.contract
                    == match plan[i]
                       case Creation(_) => Some(Created(deployer, replies[i].send.nonce))
                       case Call(_, creates) => creates)
              && Concluded(outcome.value, done == |plan|, ending)
  {
    if !machine.checkpoint.Absent? {
      return None;
    }
    var journal := new DeploymentJournal(machine);
    var done := SendPlan(journal, attempt, deployer, plan, replies);
    Conclude(journal, done == |plan|, ending);
    outcome := Some(journal.Payload());
  }

  // ----- the seven Position NFT deployments

  const CONTRACTS: seq<string> := [
    "NARAArtMetadataV1", "NARAArtSecurityPrintV1", "NARAArtCorePlateV1", "NARAArtGenesisPlateV1",
    "NARAPositionRendererV5", "NARAPositionAccountV4", "NARAPositionNFTV4"]

  /** What each constructor is given: the contracts that have to be there before it. */
  ghost function Uses(name: string): seq<string> {
    match name
    case "NARAArtCorePlateV1" => ["NARAArtSecurityPrintV1"]
    case "NARAPositionRendererV5" =>
      ["NARAArtMetadataV1", "NARAArtCorePlateV1", "NARAArtGenesisPlateV1", "NARAArtSecurityPrintV1"]
    case "NARAPositionNFTV4" => ["NARAPositionAccountV4", "NARAPositionRendererV5"]
    case _ => []
  }

  /** Every contract comes after the ones it uses, and none is deployed twice. */
  lemma EverythingUsedComesFirst(k: nat, used: string)
    requires k < |CONTRACTS| && used in Uses(CONTRACTS[k])
    ensures used in CONTRACTS[..k]
    ensures CONTRACTS[k] !in CONTRACTS[..k]
  {
    assert |CONTRACTS[0]| == 17 && |CONTRACTS[1]| == 22 && |CONTRACTS[2]| == 18 && |CONTRACTS[3]| == 21;
    assert |CONTRACTS[4]| == 22 && |CONTRACTS[5]| == 21 && |CONTRACTS[6]| == 17;
  }

  /** The checks just before the transaction: nobody else used the nonce or the address. */
  ghost predicate Undisturbed(reply: Reply, nonce: nat) {
    reply.guard && reply.latest == nonce && reply.pending == nonce && !reply.code
  }

  ghost predicate Lands(reply: Reply, nonce: nat) {
    Undisturbed(reply, nonce) && reply.send.Returned? && reply.send.nonce == nonce && reply.wait.Mined?
  }

  ghost predicate LandedAt(step: Step, name: string, address: Address, send: Send) {
    && send.Returned? && step.state.Confirmed? && step.name == name && step.expected == Some(address)
    && step.hash == Some(send.hash) && step.receipt == Some(Receipt(send.hash, Some(address)))
  }

  method DeployRecorded(journal: DeploymentJournal, attempt: nat, deployer: Address, name: string,
                        expected: Address, nonce: nat, reply: Reply)
    returns (ok: bool)
    requires journal.Valid() && journal.status.InProgress? && AllConfirmed(journal.steps)
    requires journal.machine.budget > 0 ==> |journal.machine.sent| == |journal.steps|
    modifies journal`steps, journal.machine
    ensures journal.Valid()
    ensures ok <==> Lands(reply, nonce) && expected == Created(deployer, nonce)
    ensures var n := |old(journal.steps)|;
            && |journal.steps| == n + 1 && journal.steps[..n] == old(journal.steps)
            && journal.steps[n].name == name && journal.steps[n].expected == Some(expected)
            && if ok then LandedAt(journal.steps[n], name, Created(deployer, nonce), reply.send)
               else journal.steps[n].state.Failed?
    ensures HandedOnce(old(journal.machine.Now()), journal.machine.Now(),
                       Transaction(attempt, name, Some(nonce)), Undisturbed(reply, nonce) && GotOut(reply.send))
  {
    var proceed := reply.guard && reply.latest == nonce && reply.pending == nonce && !reply.code;
    var accept := reply.send.Returned? && reply.send.nonce == nonce;
    ok := HandOver(journal, Transaction(attempt, name, Some(nonce)), Some(expected), proceed, reply.send, accept);
    if ok {
      var address := Created(deployer, reply.send.nonce);
      ok := reply.wait.Mined? && address == expected;
      Settle(journal, ok, Some(address), None);
    }
  }

  /** How many leading replies let a deployment land, the first one using nonce `start`. */
  ghost function Landings(replies: seq<Reply>, start: nat): (n: nat)
    ensures n <= |replies| && forall i | 0 <= i < n :: Lands(replies[i], start + i)
    ensures n < |replies| ==> !Lands(replies[n], start + n)
  {
    if replies == [] || !Lands(replies[0], start) then 0 else 1 + Landings(replies[1..], start + 1)
  }

  /** How many transactions may get out: those that land, and an undisturbed one that does not. */
  ghost function Sendable(replies: seq<Reply>, start: nat): (n: nat)
    ensures Landings(replies, start) <= n <= |replies|
  {
    var done := Landings(replies, start);
    if done < |replies| && Undisturbed(replies[done], start + done) then done + 1 else done
  }

  lemma {:induction false} LandingsIs(replies: seq<Reply>, start: nat, n: nat)
    requires n <= |replies| && forall i | 0 <= i < n :: Lands(replies[i], start + i)
    requires n < |replies| ==> !Lands(replies[n], start + n)
    ensures Landings(replies, start) == n
  {
    if n > 0 {
      forall i | 0 <= i < n - 1
        ensures Lands(replies[1..][i], start + 1 + i)
      {
        assert Lands(replies[i + 1], start + (i + 1));
      }
      LandingsIs(replies[1..], start + 1, n - 1);
    }
  }

  /** The first `done` contracts sit at the addresses predicted from the planned nonce. */
  ghost predicate LandedInOrder(
      steps: seq<Step>, names: seq<string>, deployer: Address, start: nat, replies: seq<Reply>, done: nat)
    requires |replies| == |names|
  {
    done <= |steps| && done <= |names|
    && forall i | 0 <= i < done :: LandedAt(steps[i], names[i], Created(deployer, start + i), replies[i].send)
  }

  lemma LandedKept(
      steps: seq<Step>, next: seq<Step>, names: seq<string>, deployer: Address, start: nat, replies: seq<Reply>,
      done: nat)
    requires |replies| == |names| && LandedInOrder(steps, names, deployer, start, replies, done)
    requires |steps| == done && |next| > done && next[..done] == steps
    ensures LandedInOrder(next, names, deployer, start, replies, done)
  {
    forall i | 0 <= i < done
      ensures next[i] == steps[i]
    {
      assert next[..done][i] == next[i];
    }
  }

  ghost function SuiteOrders(attempt: nat, names: seq<string>, start: nat): seq<Transaction> {
    seq(|names|, i requires 0 <= i < |names| => Transaction(attempt, names[i], Some(start + i)))
  }

  ghost predicate SuiteAt(journal: DeploymentJournal, attempt: nat, deployer: Address, names: seq<string>, start: nat,
                          replies: seq<Reply>, done: nat)
    reads journal, journal.machine
  {
    && journal.Valid() && journal.status.InProgress? && AllConfirmed(journal.steps) && |journal.steps| == done
    && |replies| == |names| && LandedInOrder(journal.steps, names, deployer, start, replies, done)
    && journal.machine.sent <= SuiteOrders(attempt, names, start)[..done]
    && (journal.machine.budget > 0 ==> |journal.machine.sent| == done)
  }

  /** `done` contracts landed, and the next step failed. */
  ghost predicate SuiteStopped(
      journal: DeploymentJournal, attempt: nat, deployer: Address, names: seq<string>, start: nat,
      replies: seq<Reply>, done: nat)
    reads journal, journal.machine
  {
    && journal.Valid() && done < |names| == |replies|
    && |journal.steps| == done + 1 && journal.steps[done].state.Failed?
    && LandedInOrder(journal.steps, names, deployer, start, replies, done)
    && journal.machine.sent
       <= SuiteOrders(attempt, names, start)[..if Undisturbed(replies[done], start + done) then done + 1 else done]
    && (journal.machine.budget > 0 ==> |journal.machine.sent| >= done)
  }

  method DeployNext(journal: DeploymentJournal, attempt: nat, deployer: Address, names: seq<string>, start: nat,
                    replies: seq<Reply>, done: nat)
    returns (ok: bool)
    requires done < |names| && SuiteAt(journal, attempt, deployer, names, start, replies, done)
    modifies journal`steps, journal.machine
    ensures ok <==> Lands(replies[done], start + done)
    ensures ok ==> SuiteAt(journal, attempt, deployer, names, start, replies, done + 1)
    ensures !ok ==> SuiteStopped(journal, attempt, deployer, names, start, replies, done)
  {
    ghost var before := journal.machine.Now();
    ghost var steps := journal.steps;
    var nonce := start + done;
    ok := DeployRecorded(journal, attempt, deployer, names[done], Created(deployer, nonce), nonce, replies[done]);
    SentGrows(before, journal.machine.Now(), SuiteOrders(attempt, names, start), done,
              Undisturbed(replies[done], start + done) && GotOut(replies[done].send));
    LandedKept(steps, journal.steps, names, deployer, start, replies, done);
  }

  /** The named deployments in order, each awaited; the first failure ends the sequence. */
  method SendSuite(
      journal: DeploymentJournal, attempt: nat, deployer: Address, names: seq<string>, start: nat, replies: seq<Reply>)
    returns (done: nat)
    requires journal.Valid() && journal.status.InProgress? && journal.steps == [] && journal.machine.sent == []
    requires |replies| == |names|
    modifies journal`steps, journal.machine
    ensures journal.Valid()
    ensures done == Landings(replies, start)
    ensures if done == |names| then SuiteAt(journal, attempt, deployer, names, start, replies, done)
            else SuiteStopped(journal, attempt, deployer, names, start, replies, done)
  {
    done := 0;
    while done < |names|
      invariant done <= |names| && SuiteAt(journal, attempt, deployer, names, start, replies, done)
      invariant forall i | 0 <= i < done :: Lands(replies[i], start + i)
    {
      var ok := DeployNext(journal, attempt, deployer, names, start, replies, done);
      if !ok {
        LandingsIs(replies, start, done);
        return;
      }
      done := done + 1;
    }
    LandingsIs(replies, start, done);
  }

  /**
   One attempt at the Position NFT deployment, planned at nonce `start`. A manifest or Safe artifact
   of an earlier attempt (`otherRecord`) or a checkpoint of this protocol stops it before anything
   happens.
   */
  method DeploySuite(machine: Machine, attempt: nat, deployer: Address, start: nat, replies: seq<Reply>,
                     otherRecord: bool, ending: Ending)
    returns (outcome: Option<Snapshot>)
    requires Recorded(machine.Now()) && |replies| == |CONTRACTS|
    modifies machine
    ensures Recorded(machine.Now())
    ensures outcome.None? <==> otherRecord || !old(machine.checkpoint).Absent?
    ensures outcome.None? ==> machine.Now() == old(machine.Now())
    ensures outcome.Some? ==>
              var done := Landings(replies, start);
              && Tracks(machine.Now(), outcome.value)
              && LandedInOrder(outcome.value.steps, CONTRACTS, deployer, start, replies, done)
              && |outcome.value.steps| == (if done == |CONTRACTS| then done else done + 1)
              && (done < |CONTRACTS| ==> outcome.value.steps[done].state.Failed?)
              && machine.sent <= SuiteOrders(attempt, CONTRACTS, start)[..Sendable(replies, start)]
              && (machine.budget > 0 ==> |machine.sent| >= done)
              && Concluded(outcome.value, done == |CONTRACTS|, ending)
    ensures outcome.Some? ==>
              forall others: Others, k
                | Truthful(replies, start, others) && 0 <= k < |replies| && Interferes(others, k) ::
                machine.sent <= SuiteOrders(attempt, CONTRACTS, start)[..k]
  {
    if otherRecord || !machine.checkpoint.Absent? {
      return None;
    }
    var snapshot := RunSuite(machine, attempt, deployer, CONTRACTS, start, replies, ending);
    outcome := Some(snapshot);
    NothingSentAfterInterference(machine.sent, SuiteOrders(attempt, CONTRACTS, start), replies, start);
  }

  /** The attempt past its first checks, for any list of contracts. */
  method RunSuite(
      machine: Machine, attempt: nat, deployer: Address, names: seq<string>, start: nat, replies: seq<Reply>,
      ending: Ending)
    returns (outcome: Snapshot)
    requires Recorded(machine.Now()) && machine.checkpoint.Absent? && |replies| == |names|
    modifies machine
    ensures Tracks(machine.Now(), outcome)
    ensures var done := Landings(replies, start);
            && LandedInOrder(outcome.steps, names, deployer, start, replies, done)
            && |outcome.steps| == (if done == |names| then done else done + 1)
            && (done < |names| ==> outcome.steps[done].state.Failed?)
            && machine.sent <= SuiteOrders(attempt, names, start)[..Sendable(replies, start)]
            && (machine.budget > 0 ==> |machine.sent| >= done)
            && Concluded(outcome, done == |names|, ending)
  {
    var journal := new DeploymentJournal(machine);
    var done := SendSuite(journal, attempt, deployer, names, start, replies);
    Conclude(journal, done == |names|, ending);
    outcome := journal.Payload();
  }

  lemma NothingSentAfterInterference(sent: seq<Transaction>, orders: seq<Transaction>, replies: seq<Reply>, start: nat)
    requires |orders| == |replies| && sent <= orders[..Sendable(replies, start)]
    ensures forall others: Others, k
              | Truthful(replies, start, others) && 0 <= k < |replies| && Interferes(others, k) ::
              sent <= orders[..k]
  {
    forall others: Others, k | Truthful(replies, start, others) && 0 <= k < |replies| && Interferes(others, k)
      ensures sent <= orders[..k]
    {
      ForeignSenderStopsTheRun(replies, start, others, k);
    }
  }

  /**
   Other users of the deployer's key: `mined[k]` transactions of theirs enter the chain before
   step k is checked, and `waiting[k]` are in the mempool then.
   */
  datatype Others = Others(mined: seq<nat>, waiting: seq<nat>)

  /** A provider that reports the run's own k transactions and everybody else's. */
  ghost predicate Truthful(replies: seq<Reply>, start: nat, others: Others) {
    && |others.mined| == |others.waiting| == |replies|
    && forall k | 0 <= k < |replies| ::
         && replies[k].latest == start + k + Sum(others.mined[..k + 1])
         && replies[k].pending == replies[k].latest + others.waiting[k]
  }

  ghost predicate Interferes(others: Others, k: nat) {
    k < |others.mined| == |others.waiting| && (others.mined[k] > 0 || others.waiting[k] > 0)
  }

  /** One foreign transaction before step k, and neither step k nor any later one may get out. */
  lemma ForeignSenderStopsTheRun(replies: seq<Reply>, start: nat, others: Others, k: nat)
    requires Truthful(replies, start, others) && k < |replies| && Interferes(others, k)
    ensures Sendable(replies, start) <= k
  {
    assert others.mined[..k + 1] == others.mined[..k] + [others.mined[k]];
    SumAppend(others.mined[..k], others.mined[k]);
    assert !Undisturbed(replies[k], start + k);
  }

  // ----- any number of attempts

  /** Both protocols' files: neither script looks at the other's checkpoint. */
  class Workspace {
    const base: Machine
    const suite: Machine

    constructor ()
      ensures Valid() && base.sent == [] && suite.sent == []
      ensures fresh(base) && fresh(suite)
    {
      base := new Machine();
      suite := new Machine();
    }

    ghost predicate Valid()
      reads this, base, suite
    {
      base != suite && Recorded(base.Now()) && Recorded(suite.Now())
    }
  }

  datatype Attempt =
    | Base(plan: seq<Planned>, answers: seq<Reply>, ending: Ending, budget: nat)
    | Suite(start: nat, answers: seq<Reply>, otherRecord: bool, ending: Ending, budget: nat)

  ghost predicate FullyAnswered(a: Attempt) {
    |a.answers| == if a.Base? then |a.plan| else |CONTRACTS|
  }

  /** Everything attempt k may hand over: its plan, up to and with the first transaction that fails. */
  ghost function MayBeSent(a: Attempt, k: nat): seq<Transaction>
    requires FullyAnswered(a)
  {
    match a
    case Base(plan, answers, _, _) => Orders(k, plan)[..Attempted(answers)]
    case Suite(start, answers, _, _, _) => SuiteOrders(k, CONTRACTS, start)[..Sendable(answers, start)]
  }

  /** One attempt of the given kind accounts for everything its protocol ever sent. */
  ghost predicate SentByOne(sent: seq<Transaction>, attempts: seq<Attempt>, base: bool) {
    sent == []
    || exists k | 0 <= k < |attempts| ::
         attempts[k].Base? == base && FullyAnswered(attempts[k]) && sent <= MayBeSent(attempts[k], k)
  }

  /**
   Any interleaving of attempts at the two deployments, each stopping where its budget ends: of each
   protocol only one attempt ever sends, and only the start of its plan.
   */
  method Attempts(w: Workspace, deployer: Address, attempts: seq<Attempt>)
    requires w.Valid() && w.base.sent == [] && w.suite.sent == []
    requires forall k | 0 <= k < |attempts| :: FullyAnswered(attempts[k])
    modifies w.base, w.suite
    ensures w.Valid()
    ensures SentByOne(w.base.sent, attempts, true)
    ensures SentByOne(w.suite.sent, attempts, false)
  {
    for i := 0 to |attempts|
      invariant w.Valid()
      invariant SentByOne(w.base.sent, attempts, true)
      invariant SentByOne(w.suite.sent, attempts, false)
    {
      var outcome := TryOnce(w, deployer, i, attempts[i]);
    }
  }

  /** One attempt touches its own protocol's files only, and sends only when its own checkpoint is absent. */
  method TryOnce(w: Workspace, deployer: Address, k: nat, a: Attempt) returns (outcome: Option<Snapshot>)
    requires w.Valid() && FullyAnswered(a)
    modifies w.base, w.suite
    ensures w.Valid()
    ensures a.Base? ==> w.suite.Now() == old(w.suite.Now())
    ensures a.Suite? ==> w.base.Now() == old(w.base.Now())
    ensures outcome.None?
            <==> if a.Base? then !old(w.base.checkpoint).Absent? else a.otherRecord || !old(w.suite.checkpoint).Absent?
    ensures outcome.None? ==> w.base.sent == old(w.base.sent) && w.suite.sent == old(w.suite.sent)
    ensures outcome.None? ==> (if a.Base? then w.base.budget else w.suite.budget) == a.budget
    ensures outcome.Some? ==> (if a.Base? then w.base.sent else w.suite.sent) <= MayBeSent(a, k)
  {
    match a {
      case Base(plan, answers, ending, budget) =>
        w.base.budget := budget;
        outcome := DeployBase(w.base, k, deployer, plan, answers, ending);
      case Suite(start, answers, otherRecord, ending, budget) =>
        w.suite.budget := budget;
        outcome := DeploySuite(w.suite, k, deployer, start, answers, otherRecord, ending);
    }
  }
}
