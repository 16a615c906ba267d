/**
 The receipt journal of the two deployment scripts: an append-only log of snapshots and a
 checkpoint that is rewritten after every change. The machine may stop between any two effects.
 */
module Journal {
  import opened Wrappers

  /** Addresses of created contracts: injective in the creator and its nonce. */
  datatype Address = Named(text: string) | Created(creator: Address, nonce: nat)

  datatype Receipt = Receipt(hash: string, contract: Option<Address>)

  datatype State = Prepared | Submitted | Confirmed | Failed

  datatype Step = Step(
    index: nat, name: string, state: State,
    expected: Option<Address>, hash: Option<string>, receipt: Option<Receipt>)

  datatype Status = InProgress | TransactionsComplete | Completed | FailedNoResume

  datatype Failure = Failure(step: Option<string>, reason: string)

  datatype Snapshot = Snapshot(
    status: Status, steps: seq<Step>, manifest: Option<string>, failure: Option<Failure>)

  // ----- what one snapshot says

  predicate AllConfirmed(steps: seq<Step>) {
    forall i | 0 <= i < |steps| :: steps[i].state.Confirmed?
  }

  ghost predicate StepCoherent(s: Step) {
    match s.state
    case Prepared => s.hash.None? && s.receipt.None?
    case Submitted => s.hash.Some? && s.receipt.None?
    case Confirmed => s.hash.Some? && s.receipt.Some? && s.receipt.value.hash == s.hash.value
    case Failed => s.receipt.None?
  }

  /** The step a failure is pinned on: the last one, unless it was confirmed. */
  ghost function OpenStep(steps: seq<Step>): Option<string> {
    if steps == [] || steps[|steps| - 1].state.Confirmed? then None else Some(steps[|steps| - 1].name)
  }

  ghost predicate Coherent(s: Snapshot) {
    && (forall i | 0 <= i < |s.steps| :: s.steps[i].index == i && StepCoherent(s.steps[i]))
    && (forall i | 0 <= i < |s.steps| - 1 :: s.steps[i].state.Confirmed?)
    && (s.status.TransactionsComplete? || s.status.Completed? ==> AllConfirmed(s.steps))
    && (s.manifest.Some? <==> s.status.Completed?)
    && (s.failure.Some? <==> s.status.FailedNoResume?)
    && (s.failure.Some? ==> s.failure.value.step == OpenStep(s.steps))
  }

  /** A recorded failure names the one unconfirmed step, or no step when all are confirmed. */
  lemma FailureNamesTheOpenStep(s: Snapshot, name: string)
    requires Coherent(s) && s.status.FailedNoResume?
    ensures s.failure.value.step.None? <==> AllConfirmed(s.steps)
    ensures s.failure.value.step == Some(name) ==>
              exists i | 0 <= i < |s.steps| ::
                && s.steps[i].name == name && !s.steps[i].state.Confirmed?
                && forall j | 0 <= j < |s.steps| && !s.steps[j].state.Confirmed? :: j == i
  {
    if s.steps != [] {
      var last := |s.steps| - 1;
      if !s.steps[last].state.Confirmed? {
        assert forall j | 0 <= j < |s.steps| && !s.steps[j].state.Confirmed? :: j == last;
      }
    }
  }

  /** In a coherent list of steps the last unconfirmed one is the open one. */
  lemma LastUnconfirmedIsOpen(s: Snapshot, i: nat)
    requires Coherent(s) && i < |s.steps| && !s.steps[i].state.Confirmed?
    ensures i == |s.steps| - 1 && OpenStep(s.steps) == Some(s.steps[i].name)
  {}

  // ----- how one snapshot may follow another

  ghost function Rank(s: State): nat {
    match s
    case Prepared => 0
    case Submitted => 1
    case Confirmed => 2
    case Failed => 2
  }

  ghost predicate StepExtends(a: Step, b: Step) {
    && a.index == b.index && a.name == b.name
    && (a.expected.Some? ==> b.expected == a.expected)
    && (a.hash.Some? ==> b.hash == a.hash)
    && (a.receipt.Some? ==> b.receipt == a.receipt)
    && Rank(a.state) <= Rank(b.state)
    && (Rank(a.state) == 2 ==> a == b)
  }

  ghost predicate StatusExtends(p: Status, q: Status) {
    p == q || p.InProgress? || (p.TransactionsComplete? && !q.InProgress?)
  }

  /** `completed` and `failed_no_resume` are final; steps are only added and only move forward. */
  ghost predicate Extends(p: Snapshot, q: Snapshot) {
    && StatusExtends(p.status, q.status)
    && (p.status.Completed? || p.status.FailedNoResume? ==> q == p)
    && |p.steps| <= |q.steps|
    && forall i | 0 <= i < |p.steps| :: StepExtends(p.steps[i], q.steps[i])
  }

  /** What one snapshot's extension of another means, field by field. */
  lemma ExtendsSpelledOut(p: Snapshot, q: Snapshot, k: nat)
    requires Extends(p, q)
    ensures q.status.InProgress? ==> p.status.InProgress?
    ensures p.status.TransactionsComplete? && q.status != p.status ==> q.status.Completed? || q.status.FailedNoResume?
    ensures p.status.Completed? || p.status.FailedNoResume? ==> q == p
    ensures |p.steps| <= |q.steps|
    ensures k < |p.steps| ==>
              var a, b := p.steps[k], q.steps[k];
              && b.index == a.index && b.name == a.name
              && (a.hash.Some? ==> b.hash == a.hash) && (a.expected.Some? ==> b.expected == a.expected)
              && (a.receipt.Some? ==> b.receipt == a.receipt)
              && (a.state.Confirmed? || a.state.Failed? ==> b == a)
              && (a.state.Submitted? ==> !b.state.Prepared?)
  {
    if k < |p.steps| {
      assert StepExtends(p.steps[k], q.steps[k]);
    }
  }

  ghost function Abandoned(s: Snapshot, reason: string): Snapshot {
    s.(status := FailedNoResume, failure := Some(Failure(OpenStep(s.steps), reason)))
  }

  lemma AbandonedExtends(s: Snapshot, reason: string)
    requires Coherent(s) && (s.status.InProgress? || s.status.TransactionsComplete?)
    ensures Coherent(Abandoned(s, reason)) && Extends(s, Abandoned(s, reason))
  {}

  lemma ExtendsTransitive(p: Snapshot, q: Snapshot, r: Snapshot)
    requires Extends(p, q) && Extends(q, r)
    ensures Extends(p, r)
  {
    forall i | 0 <= i < |p.steps|
      ensures StepExtends(p.steps[i], r.steps[i])
    {
      assert StepExtends(p.steps[i], q.steps[i]) && StepExtends(q.steps[i], r.steps[i]);
    }
  }

  ghost predicate History(log: seq<Snapshot>) {
    && (forall i | 0 <= i < |log| :: Coherent(log[i]))
    && (forall i | 0 < i < |log| :: Extends(log[i - 1], log[i]))
  }

  /** Any later snapshot extends any earlier one; nothing different follows a completed one. */
  lemma {:induction false} HistoryIsMonotone(log: seq<Snapshot>, i: nat, j: nat)
    requires History(log) && i <= j < |log|
    ensures Extends(log[i], log[j])
    ensures log[i].status.Completed? ==> log[j] == log[i]
    decreases j
  {
    if i < j {
      HistoryIsMonotone(log, i, j - 1);
      ExtendsTransitive(log[i], log[j - 1], log[j]);
    }
  }

  // ----- the machine and its effects

  datatype File = Absent | Torn | Complete(snapshot: Snapshot)

  /** A transaction handed to the provider; the signer picks the nonce when none is given. */
  datatype Transaction = Transaction(attempt: nat, name: string, nonce: Option<nat>)

  /** A journal file: its complete lines, and whether an unfinished one follows. */
  datatype LogFile = LogFile(lines: seq<Snapshot>, torn: bool)

  /**
   One protocol's files and transactions. `budget` is the number of effects left before the machine
   stops, `log` with its tail the current journal file, `archived` the files of earlier journals.
   */
  datatype Image = Image(
    budget: nat, archived: seq<LogFile>, log: seq<Snapshot>, tornTail: bool, checkpoint: File, sent: seq<Transaction>)

  function AppendBegun(m: Image): Image {
    if m.budget == 0 then m else m.(budget := m.budget - 1, tornTail := true)
  }

  function AppendDone(m: Image, s: Snapshot): Image {
    if m.budget == 0 then m else m.(budget := m.budget - 1, tornTail := false, log := m.log + [s])
  }

  function Truncated(m: Image): Image {
    if m.budget == 0 then m else m.(budget := m.budget - 1, checkpoint := Torn)
  }

  function Filled(m: Image, s: Snapshot): Image {
    if m.budget == 0 then m else m.(budget := m.budget - 1, checkpoint := Complete(s))
  }

  function Handed(m: Image, t: Transaction): Image {
    if m.budget == 0 then m else m.(budget := m.budget - 1, sent := m.sent + [t])
  }

  /** The log line is completed before the checkpoint is touched. */
  function Persisted(m: Image, s: Snapshot): Image {
    Filled(Truncated(AppendDone(AppendBegun(m), s)), s)
  }

  ghost predicate CheckpointFollows(checkpoint: File, log: seq<Snapshot>) {
    match checkpoint
    case Absent => |log| <= 1
    case Torn => log != []
    case Complete(s) =>
      || (|log| >= 1 && s == log[|log| - 1])
      || (|log| >= 2 && s == log[|log| - 2])
  }

  /** What the machine holds at every moment, stopped or not. */
  ghost predicate Recorded(m: Image) {
    && History(m.log)
    && CheckpointFollows(m.checkpoint, m.log)
    && (m.checkpoint.Absent? ==> m.sent == [])
    && Witnessed(m)
    && NeverStarted(m.archived)
  }

  /** Journals another one could follow stopped before their checkpoint was created. */
  ghost predicate NeverStarted(archived: seq<LogFile>) {
    forall i | 0 <= i < |archived| :: |archived[i].lines| <= 1
  }

  /** Every transaction handed over was prepared in the log before, in the same position. */
  ghost predicate Witnessed(m: Image) {
    m.sent == []
    || (m.log != [] && var steps := m.log[|m.log| - 1].steps;
        |m.sent| <= |steps| && forall i | 0 <= i < |m.sent| :: m.sent[i].name == steps[i].name)
  }

  ghost predicate InSync(m: Image, s: Snapshot) {
    m.log != [] && m.log[|m.log| - 1] == s && !m.tornTail && m.checkpoint == Complete(s)
  }

  /** A running journal with contents `s`: its files agree with it, or the machine has stopped. */
  ghost predicate Tracks(m: Image, s: Snapshot) {
    && Recorded(m) && Coherent(s)
    && (m.budget > 0 ==> InSync(m, s))
    && (m.log != [] ==> Extends(m.log[|m.log| - 1], s))
  }

  lemma AppendKeepsHistory(log: seq<Snapshot>, s: Snapshot)
    requires History(log) && Coherent(s) && (log != [] ==> Extends(log[|log| - 1], s))
    ensures History(log + [s])
  {}

  lemma PersistKeeps(m: Image, s: Snapshot, next: Snapshot)
    requires Tracks(m, s) && Coherent(next) && Extends(s, next)
    ensures Tracks(Persisted(m, next), next)
    ensures Persisted(m, next).sent == m.sent
    ensures Persisted(m, next).budget == (if m.budget < 4 then 0 else m.budget - 4)
  {
    if m.log != [] {
      ExtendsTransitive(m.log[|m.log| - 1], s, next);
    }
    if m.budget > 1 {
      var checkpoint := if m.budget == 2 then m.checkpoint else if m.budget == 3 then Torn else Complete(next);
      LoggedTracks(m, s, next, checkpoint, if m.budget < 4 then 0 else m.budget - 4);
    }
  }

  lemma LoggedTracks(m: Image, s: Snapshot, next: Snapshot, checkpoint: File, budget: nat)
    requires Tracks(m, s) && m.budget > 0 && Coherent(next) && Extends(s, next)
    requires checkpoint == Complete(next) || (budget == 0 && (checkpoint == m.checkpoint || checkpoint == Torn))
    ensures Tracks(m.(budget := budget, log := m.log + [next], tornTail := false, checkpoint := checkpoint), next)
  {
    LoggedKeeps(m, s, next);
    SelfExtends(next);
  }

  lemma SelfExtends(s: Snapshot)
    ensures Extends(s, s)
  {}

  /** With the new line in the log, the old checkpoint, a torn one and the new one are all in order. */
  lemma LoggedKeeps(m: Image, s: Snapshot, next: Snapshot)
    requires Tracks(m, s) && m.budget > 0 && Coherent(next) && Extends(s, next)
    ensures var log := m.log + [next];
            && History(log) && Witnessed(m.(log := log))
            && CheckpointFollows(m.checkpoint, log) && CheckpointFollows(Torn, log)
            && CheckpointFollows(Complete(next), log)
  {
    AppendKeepsHistory(m.log, next);
    forall i | 0 <= i < |m.sent|
      ensures m.sent[i].name == next.steps[i].name
    {
      assert StepExtends(s.steps[i], next.steps[i]);
    }
  }

  /** The first snapshot goes to a new log and creates the checkpoint. */
  lemma StartTracks(m: Image, s: Snapshot)
    requires m.log == [] && !m.tornTail && m.checkpoint.Absent? && m.sent == [] && NeverStarted(m.archived)
    requires Coherent(s)
    ensures Tracks(Persisted(m, s), s)
    ensures Persisted(m, s).sent == []
  {
    AppendKeepsHistory([], s);
  }

  /** The checkpoint and the prepared step are there before anything is handed over. */
  lemma SendKeeps(m: Image, s: Snapshot, t: Transaction)
    requires Tracks(m, s)
    requires m.budget > 0 ==> |m.sent| < |s.steps| && s.steps[|m.sent|].name == t.name
    ensures Tracks(Handed(m, t), s)
  {}

  /** Whatever the stopped machine shows, in log or checkpoint, the run went on from there. */
  lemma DiskIsStartOfRun(m: Image, s: Snapshot, i: nat)
    requires Tracks(m, s)
    ensures i < |m.log| ==> Extends(m.log[i], s)
    ensures m.checkpoint.Complete? ==> Extends(m.checkpoint.snapshot, s)
  {
    var n := |m.log|;
    if i < n {
      HistoryIsMonotone(m.log, i, n - 1);
      ExtendsTransitive(m.log[i], m.log[n - 1], s);
    }
    if n > 1 {
      ExtendsTransitive(m.log[n - 2], m.log[n - 1], s);
    }
  }

  /** The machine a deployment script runs on, as that script's protocol uses it. */
  class Machine {
    var budget: nat
    var archived: seq<LogFile>
    var log: seq<Snapshot>
    var tornTail: bool
    var checkpoint: File
    var sent: seq<Transaction>

    constructor ()
      ensures Recorded(Now()) && sent == []
    {
      budget, archived, log, tornTail, checkpoint, sent := 0, [], [], false, Absent, [];
    }

    function Now(): Image
      reads this
    {
      Image(budget, archived, log, tornTail, checkpoint, sent)
    }

    /** A journal started later names a file of its own; earlier files stay as they are. */
    method OpenLog()
      modifies this`archived, this`log, this`tornTail
      ensures Now() == old(Now()).(
                archived := old(archived) + [LogFile(old(log), old(tornTail))], log := [], tornTail := false)
    {
      archived, log, tornTail := archived + [LogFile(log, tornTail)], [], false;
    }

    method DurableAppend(s: Snapshot)
      modifies this
      ensures Now() == AppendDone(AppendBegun(old(Now())), s)
    {
      if budget > 0 { budget, tornTail := budget - 1, true; }
      if budget > 0 { budget, tornTail, log := budget - 1, false, log + [s]; }
    }

    method DurableReplace(s: Snapshot)
      modifies this
      ensures Now() == Filled(Truncated(old(Now())), s)
    {
      if budget > 0 { budget, checkpoint := budget - 1, Torn; }
      if budget > 0 { budget, checkpoint := budget - 1, Complete(s); }
    }

    method HandToProvider(t: Transaction)
      modifies this
      ensures Now() == Handed(old(Now()), t)
    {
      if budget > 0 { budget, sent := budget - 1, sent + [t]; }
    }
  }

  /** The last unconfirmed step, searched from the end. */
  method LastUnconfirmed(steps: seq<Step>) returns (found: Option<nat>)
    ensures found.None? <==> AllConfirmed(steps)
    ensures found.Some? ==>
              && found.value < |steps| && !steps[found.value].state.Confirmed?
              && forall j | found.value < j < |steps| :: steps[j].state.Confirmed?
  {
    var i := |steps|;
    while i > 0
      invariant 0 <= i <= |steps|
      invariant forall j | i <= j < |steps| :: steps[j].state.Confirmed?
    {
      i := i - 1;
      if !steps[i].state.Confirmed? {
        return Some(i);
      }
    }
    found := None;
  }

  class DeploymentJournal {
    const machine: Machine
    var status: Status
    var steps: seq<Step>
    var manifest: Option<string>
    var failure: Option<Failure>

    function Payload(): Snapshot
      reads this
    {
      Snapshot(status, steps, manifest, failure)
    }

    ghost predicate Valid()
      reads this, machine
    {
      Tracks(machine.Now(), Payload())
    }

    constructor (machine: Machine)
      requires Recorded(machine.Now()) && machine.checkpoint.Absent?
      modifies machine
      ensures Valid() && this.machine == machine
      ensures Payload() == Snapshot(InProgress, [], None, None)
      ensures machine.sent == []
    {
      this.machine := machine;
      status, steps, manifest, failure := InProgress, [], None, None;
      new;
      machine.OpenLog();
      StartTracks(machine.Now(), Payload());
      Persist();
    }

    method Persist()
      modifies machine
      ensures machine.Now() == Persisted(old(machine.Now()), Payload())
    {
      machine.DurableAppend(Payload());
      machine.DurableReplace(Payload());
    }

    method Prepare(name: string, expected: Option<Address>) returns (i: nat)
      requires Valid() && status.InProgress? && AllConfirmed(steps)
      modifies this`steps, machine
      ensures Valid() && Extends(old(Payload()), Payload())
      ensures i == |old(steps)| && steps == old(steps) + [Step(i, name, Prepared, expected, None, None)]
      ensures machine.sent == old(machine.sent) && machine.budget <= old(machine.budget)
    {
      i := |steps|;
      steps := steps + [Step(i, name, Prepared, expected, None, None)];
      PersistKeeps(machine.Now(), old(Payload()), Payload());
      Persist();
    }

    method Submitted(i: nat, hash: string)
      requires Valid() && status.InProgress? && i == |steps| - 1 && steps[i].state.Prepared?
      modifies this`steps, machine
      ensures Valid() && Extends(old(Payload()), Payload())
      ensures steps == old(steps)[i := old(steps)[i].(state := State.Submitted, hash := Some(hash))]
      ensures machine.sent == old(machine.sent) && machine.budget <= old(machine.budget)
    {
      steps := steps[i := steps[i].(state := State.Submitted, hash := Some(hash))];
      PersistKeeps(machine.Now(), old(Payload()), Payload());
      Persist();
    }

    /** A recorded deployment learns its expected address only now; a call keeps the one it has. */
    method Confirmed(i: nat, receipt: Receipt, learned: Option<Address>)
      requires Valid() && status.InProgress? && i == |steps| - 1 && steps[i].state.Submitted?
      requires Some(receipt.hash) == steps[i].hash
      requires steps[i].expected.Some? ==> learned.None?
      modifies this`steps, machine
      ensures Valid() && Extends(old(Payload()), Payload())
      ensures steps == old(steps)[i := old(steps)[i].(
                         state := State.Confirmed, receipt := Some(receipt),
                         expected := if learned.Some? then learned else old(steps)[i].expected)]
      ensures machine.sent == old(machine.sent) && machine.budget <= old(machine.budget)
    {
      steps := steps[i := steps[i].(state := State.Confirmed, receipt := Some(receipt),
                                    expected := if learned.Some? then learned else steps[i].expected)];
      PersistKeeps(machine.Now(), old(Payload()), Payload());
      Persist();
    }

    method FailedStep(i: nat)
      requires Valid() && status.InProgress? && i == |steps| - 1
      requires steps[i].state.Prepared? || steps[i].state.Submitted?
      modifies this`steps, machine
      ensures Valid() && Extends(old(Payload()), Payload())
      ensures steps == old(steps)[i := old(steps)[i].(state := Failed)]
      ensures machine.sent == old(machine.sent) && machine.budget <= old(machine.budget)
    {
      steps := steps[i := steps[i].(state := Failed)];
      PersistKeeps(machine.Now(), old(Payload()), Payload());
      Persist();
    }

    method MarkTransactionsComplete()
      requires Valid() && status.InProgress? && AllConfirmed(steps)
      modifies this`status, machine
      ensures Valid() && Extends(old(Payload()), Payload()) && status.TransactionsComplete?
      ensures machine.sent == old(machine.sent) && machine.budget <= old(machine.budget)
    {
      status := TransactionsComplete;
      PersistKeeps(machine.Now(), old(Payload()), Payload());
      Persist();
    }

    method Complete(path: string)
      requires Valid() && status.TransactionsComplete?
      modifies this`status, this`manifest, machine
      ensures Valid() && Extends(old(Payload()), Payload()) && status.Completed? && manifest == Some(path)
      ensures machine.sent == old(machine.sent) && machine.budget <= old(machine.budget)
    {
      status, manifest := Completed, Some(path);
      PersistKeeps(machine.Now(), old(Payload()), Payload());
      Persist();
    }

    /** Ignored once completed: whatever goes wrong afterwards cannot undo the record. */
    method Fail(reason: string)
      requires Valid() && !status.FailedNoResume?
      modifies this`status, this`failure, machine
      ensures Valid() && Extends(old(Payload()), Payload())
      ensures old(status).Completed? ==> Payload() == old(Payload()) && machine.Now() == old(machine.Now())
      ensures !old(status).Completed? ==>
                && status.FailedNoResume? && failure == Some(Failure(OpenStep(steps), reason))
                && machine.Now() == Persisted(old(machine.Now()), Payload())
      ensures machine.sent == old(machine.sent) && machine.budget <= old(machine.budget)
    {
      if status.Completed? {
        return;
      }
      var current := LastUnconfirmed(steps);
      if current.Some? {
        LastUnconfirmedIsOpen(Payload(), current.value);
      }
      AbandonedExtends(Payload(), reason);
      status := FailedNoResume;
      failure := Some(Failure(if current.Some? then Some(steps[current.value].name) else None, reason));
      assert Payload() == Abandoned(old(Payload()), reason);
      PersistKeeps(machine.Now(), old(Payload()), Payload());
      Persist();
    }
  }
}
