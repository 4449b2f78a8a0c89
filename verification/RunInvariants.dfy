/** What every sequence of calls on an execution run preserves. */
module RunInvariants {
  import opened Wrappers
  import opened Dag
  import opened StorageModel
  import opened Plan
  import opened EventRing
  import opened Execution

  // ---------------------------------------------------------------------------
  // Runs as folds over calls

  /** A run together with every event it ever published. */
  datatype History = History(run: Run, log: seq<RunEvent>)

  /** A rejected call changes nothing; an accepted one also extends the log. */
  function Apply(h: History, call: Call): (r: History)
    requires WellSized(h.run)
    ensures WellSized(r.run) && r.run.plan == h.run.plan && r.run.id == h.run.id && r.run.aspects == h.run.aspects
    ensures h.log <= r.log
  {
    match Transition(h.run, call)
    case Err(_) => h
    case Ok(change) => History(change.next, h.log + Numbered(h.run.id, |h.log|, change.published))
  }

  function Execute(h: History, calls: seq<Call>): (r: History)
    requires WellSized(h.run)
    ensures WellSized(r.run) && r.run.plan == h.run.plan && r.run.id == h.run.id && r.run.aspects == h.run.aspects
    ensures h.log <= r.log
    decreases |calls|
  {
    if calls == [] then h else Apply(Execute(h, calls[..|calls| - 1]), calls[|calls| - 1])
  }

  function Start(id: nat, plan: ExecutionPlan, aspects: seq<GoalAspect>): History {
    History(FreshRun(id, plan, aspects), [])
  }

  // ---------------------------------------------------------------------------
  // Evidence chain of one action

  ghost predicate IsAdmission(id: nat, a: nat, contract: ActionContract, report: AdmissionReport) {
    && report.run == id && report.action == a
    && report.observation.wellFormed && report.observation.reference.instance != 0
    && ChecksCover(contract.prerequisites, report.checks)
    && AllLeased(report.held, contract.resources)
  }

  ghost predicate Passed(report: AdmissionReport) {
    report.applicability.LiveSatisfied? && AllSatisfied(report.checks)
  }

  ghost predicate Violated<T>(checks: seq<LiveCheck<T>>) {
    exists i :: 0 <= i < |checks| && checks[i].status.LiveViolated?
  }

  /** Live evidence contradicts the action: it does not apply, or a condition is violated. */
  ghost predicate Refuted(report: AdmissionReport) {
    report.applicability.LiveViolated? || Violated(report.checks)
  }

  ghost predicate Admissible(id: nat, a: nat, contract: ActionContract, r: ActionRun) {
    r.admission.Some? && IsAdmission(id, a, contract, r.admission.value) && Passed(r.admission.value)
  }

  /** A completion observed later than its admission by the same probe instance. */
  ghost predicate Completes(id: nat, a: nat, r: ActionRun) {
    && r.admission.Some? && r.completion.Some?
    && var done := r.completion.value;
    && var before := r.admission.value.observation.reference;
    && done.run == id && done.action == a && done.observation.wellFormed
    && done.observation.reference.instance == before.instance
    && before.epoch < done.observation.reference.epoch
  }

  /** Postcondition evidence about exactly the observation of the completion. */
  ghost predicate Verifies(id: nat, a: nat, contract: ActionContract, r: ActionRun) {
    && r.completion.Some? && r.verification.Some?
    && r.verification.value.run == id && r.verification.value.action == a
    && r.verification.value.observation == r.completion.value.observation.reference
    && ChecksCover(contract.postconditions, r.verification.value.checks)
  }

  /** The evidence that each lifecycle state stands for. */
  ghost predicate Chain(id: nat, a: nat, contract: ActionContract, r: ActionRun) {
    && (!r.state.Failed? ==> r.preDispatchFailure.None?)
    && (!r.state.OutcomeUnknown? ==> r.unknownReason.None?)
    && match r.state
       case Waiting => r.admission.None? && r.completion.None? && r.verification.None?
       case Checking =>
         && r.completion.None? && r.verification.None?
         && (r.admission.Some? ==>
               && IsAdmission(id, a, contract, r.admission.value)
               && !Passed(r.admission.value) && !Refuted(r.admission.value))
       case Admitted => r.completion.None? && r.verification.None? && Admissible(id, a, contract, r)
       case Running => r.completion.None? && r.verification.None? && Admissible(id, a, contract, r)
       case Verifying =>
         && Admissible(id, a, contract, r) && Completes(id, a, r) && r.completion.value.outcome.Succeeded?
         && r.verification.None?
       case Verified =>
         && Admissible(id, a, contract, r) && Completes(id, a, r) && r.completion.value.outcome.Succeeded?
         && Verifies(id, a, contract, r) && AllSatisfied(r.verification.value.checks)
       case Failed =>
         || (r.admission.Some? && IsAdmission(id, a, contract, r.admission.value) && Refuted(r.admission.value)
             && r.completion.None?)
         || (Admissible(id, a, contract, r) && r.preDispatchFailure.Some? && r.completion.None?)
         || (Admissible(id, a, contract, r) && Completes(id, a, r) && r.completion.value.outcome.BackendFailed?)
         || (Admissible(id, a, contract, r) && Completes(id, a, r) && r.completion.value.outcome.Succeeded?
             && Verifies(id, a, contract, r) && Violated(r.verification.value.checks))
       case OutcomeUnknown =>
         && Admissible(id, a, contract, r)
         && (r.completion.Some? ==> Completes(id, a, r))
         && (|| r.unknownReason.Some?
             || (r.completion.Some? && r.completion.value.outcome.BackendUnknown?)
             || (Verifies(id, a, contract, r) && !AllSatisfied(r.verification.value.checks)
                 && !Violated(r.verification.value.checks)))
  }

  // ---------------------------------------------------------------------------
  // Invariant of a whole run

  predicate Unsettled(state: ActionRunState) {
    !state.Waiting? && !state.Verified?
  }

  ghost predicate Sequential(actions: seq<ActionRun>) {
    forall i, j :: 0 <= i < |actions| && 0 <= j < |actions| && Unsettled(actions[i].state)
        && Unsettled(actions[j].state)
      ==> i == j
  }

  /** The observation is the latest one or an older one of the same probe instance. */
  ghost predicate Seen(latest: Option<LiveObservation>, reference: ObservationReference) {
    && latest.Some?
    && latest.value.reference.instance == reference.instance
    && reference.epoch <= latest.value.reference.epoch
  }

  ghost predicate Timed(latest: Option<LiveObservation>, r: ActionRun) {
    && (r.admission.Some? ==> Seen(latest, r.admission.value.observation.reference))
    && (r.completion.Some? ==> Seen(latest, r.completion.value.observation.reference))
  }

  /** The first action was verified against a state older than the one that admits the second. */
  ghost predicate Precedes(x: ActionRun, y: ActionRun) {
    && x.state.Verified? && x.completion.Some? && y.admission.Some?
    && x.completion.value.observation.reference.epoch < y.admission.value.observation.reference.epoch
  }

  ghost predicate Separated(actions: seq<ActionRun>) {
    forall i, j :: 0 <= i < |actions| && 0 <= j < |actions| && i != j
                   && actions[i].admission.Some? && actions[j].admission.Some?
      ==> Precedes(actions[i], actions[j]) || Precedes(actions[j], actions[i])
  }

  /** The edge is honoured: its target only leaves Waiting once its source is verified. */
  ghost predicate Honoured(actions: seq<ActionRun>, edge: ActionDependency) {
    edge.after < |actions| && !actions[edge.after].state.Waiting? ==>
      && edge.before < |actions|
      && actions[edge.before].state.Verified?
      && (actions[edge.after].admission.Some? ==> Precedes(actions[edge.before], actions[edge.after]))
  }

  ghost predicate AllHonoured(actions: seq<ActionRun>, deps: seq<ActionDependency>) {
    forall k :: 0 <= k < |deps| ==> Honoured(actions, deps[k])
  }

  ghost predicate GoalBacked(run: Run) {
    run.goal.Some? ==>
      && (forall i :: 0 <= i < |run.actions| ==> run.actions[i].state.Verified?)
      && run.goal.value.run == run.id
      && run.latest == Some(run.goal.value.observation)
      && ChecksCover(run.aspects, run.goal.value.checks)
      && forall i :: 0 <= i < |run.actions| && run.actions[i].completion.Some?
           ==> run.actions[i].completion.value.observation.reference.epoch < run.goal.value.observation.reference.epoch
  }

  ghost predicate AllChained(run: Run)
    requires WellSized(run)
  {
    forall i :: 0 <= i < |run.actions| ==> Chain(run.id, i, run.plan.actions[i].contract, run.actions[i])
  }

  ghost predicate AllTimed(run: Run) {
    && (run.latest.Some? ==> run.latest.value.reference.instance != 0)
    && forall i :: 0 <= i < |run.actions| ==> Timed(run.latest, run.actions[i])
  }

  ghost predicate Sound(run: Run) {
    && WellSized(run)
    && run.ring.run == run.id
    && Sequential(run.actions)
    && AllChained(run)
    && AllTimed(run)
    && Separated(run.actions)
    && AllHonoured(run.actions, run.plan.dependencies)
    && GoalBacked(run)
  }

  // ---------------------------------------------------------------------------
  // One action moves

  /** The latest observation stays or is replaced by a newer one. */
  ghost predicate Advances(old_: Option<LiveObservation>, new_: Option<LiveObservation>) {
    || new_ == old_
    || (new_.Some? && IsFresh(old_, new_.value.reference))
  }

  /** A record keeps its admission or takes the newest observation's while it is checked. */
  ghost predicate KeepsAdmission(run: Run, latest: Option<LiveObservation>, a: nat, r: ActionRun)
    requires a < |run.actions|
  {
    || r.admission == run.actions[a].admission
    || (run.actions[a].state.Checking? && r.admission.Some? && latest == Some(r.admission.value.observation)
        && IsFresh(run.latest, r.admission.value.observation.reference))
  }

  /** The action may move: it is the one unsettled action, or a waiting one that nothing blocks. */
  ghost predicate MayMove(run: Run, a: nat)
    requires a < |run.actions|
  {
    || InFlight(run.actions[a].state)
    || (&& run.actions[a].state.Waiting?
        && (forall i :: 0 <= i < |run.actions| ==> !Unsettled(run.actions[i].state))
        && forall k :: 0 <= k < |run.plan.dependencies| && run.plan.dependencies[k].after == a ==>
             && run.plan.dependencies[k].before < |run.actions|
             && run.actions[run.plan.dependencies[k].before].state.Verified?)
  }

  lemma OthersSettled(run: Run, a: nat, i: nat)
    requires Sequential(run.actions) && a < |run.actions| && i < |run.actions| && i != a && MayMove(run, a)
    ensures !Unsettled(run.actions[i].state)
  {
  }

  lemma MoveSeparates(run: Run, a: nat, latest: Option<LiveObservation>, r: ActionRun)
    requires Sound(run) && a < |run.actions| && MayMove(run, a) && KeepsAdmission(run, latest, a, r)
    requires r.state.Waiting? ==> r.admission.None?
    ensures Separated(run.actions[a := r])
  {
    var next := run.actions[a := r];
    forall i, j | 0 <= i < |next| && 0 <= j < |next| && i != j && next[i].admission.Some? && next[j].admission.Some?
      ensures Precedes(next[i], next[j]) || Precedes(next[j], next[i])
    {
      if i == a {
        MovePrecedes(run, a, latest, r, j);
      } else if j == a {
        MovePrecedes(run, a, latest, r, i);
      }
    }
  }

  /** Whatever was admitted before the moving action precedes it. */
  lemma MovePrecedes(run: Run, a: nat, latest: Option<LiveObservation>, r: ActionRun, i: nat)
    requires Sound(run) && a < |run.actions| && MayMove(run, a) && KeepsAdmission(run, latest, a, r)
    requires i < |run.actions| && i != a && run.actions[i].admission.Some? && r.admission.Some?
    ensures Precedes(run.actions[i], r)
  {
    assert Chain(run.id, i, run.plan.actions[i].contract, run.actions[i]);
    assert Chain(run.id, a, run.plan.actions[a].contract, run.actions[a]);
    OthersSettled(run, a, i);
    assert run.actions[i].state.Verified?;
    assert Timed(run.latest, run.actions[i]);
    if r.admission == run.actions[a].admission {
      assert !run.actions[a].state.Verified?;
    }
  }

  lemma MoveHonours(run: Run, a: nat, latest: Option<LiveObservation>, r: ActionRun)
    requires Sound(run) && a < |run.actions| && MayMove(run, a) && KeepsAdmission(run, latest, a, r)
    ensures AllHonoured(run.actions[a := r], run.plan.dependencies)
  {
    var deps := run.plan.dependencies;
    var next := run.actions[a := r];
    forall k | 0 <= k < |deps| ensures Honoured(next, deps[k]) {
      assert Honoured(run.actions, deps[k]);
      var x, y := deps[k].before, deps[k].after;
      if y == a && !r.state.Waiting? {
        assert x < |run.actions| && run.actions[x].state.Verified?;
        assert x != a;
        assert Chain(run.id, x, run.plan.actions[x].contract, run.actions[x]);
        if r.admission.Some? {
          MovePrecedes(run, a, latest, r, x);
        }
      }
    }
  }

  /** A justified move of one action keeps the whole invariant. */
  lemma MoveKeepsSound(run: Run, a: nat, latest: Option<LiveObservation>, r: ActionRun, ring: Ring)
    requires Sound(run) && a < |run.actions| && MayMove(run, a)
    requires Advances(run.latest, latest) && KeepsAdmission(run, latest, a, r) && Timed(latest, r)
    requires Chain(run.id, a, run.plan.actions[a].contract, r) && ring.run == run.id
    ensures Sound(run.(actions := run.actions[a := r], latest := latest, ring := ring))
  {
    var next := run.(actions := run.actions[a := r], latest := latest, ring := ring);
    MoveSeparates(run, a, latest, r);
    MoveHonours(run, a, latest, r);
    forall i | 0 <= i < |next.actions| ensures Timed(latest, next.actions[i]) {
      if i != a {
        assert Timed(run.latest, run.actions[i]);
      }
    }
    forall i, j | 0 <= i < |next.actions| && 0 <= j < |next.actions| && i != j && Unsettled(next.actions[i].state)
      ensures !Unsettled(next.actions[j].state)
    {
      if i == a {
        OthersSettled(run, a, j);
      } else {
        OthersSettled(run, a, i);
      }
    }
    assert run.goal.None?;
  }

  // ---------------------------------------------------------------------------
  // Each call keeps the invariant

  lemma {:induction false} FirstBlockedNone(run: Run, a: nat, k: nat)
    requires k <= |run.plan.dependencies| && FirstBlocked(run, a, k).None?
    ensures forall i :: k <= i < |run.plan.dependencies| && run.plan.dependencies[i].after == a ==>
              && run.plan.dependencies[i].before < |run.actions|
              && run.actions[run.plan.dependencies[i].before].state.Verified?
    decreases |run.plan.dependencies| - k
  {
    if k < |run.plan.dependencies| {
      FirstBlockedNone(run, a, k + 1);
    }
  }

  /** A verdict is satisfied, unknown or failed exactly as its statuses say. */
  lemma EvidenceVerdict<T>(checks: seq<LiveCheck<T>>, satisfied: ActionRunState, unknown: ActionRunState)
    ensures var state := EvidenceState(Statuses(checks), satisfied, unknown);
      && (Violated(checks) ==> state == Failed)
      && (AllSatisfied(checks) ==> state == satisfied)
      && (!Violated(checks) && !AllSatisfied(checks) ==> state == unknown)
  {
    var statuses := Statuses(checks);
    if Violated(checks) {
      var i :| 0 <= i < |checks| && checks[i].status.LiveViolated?;
      assert statuses[i].LiveViolated?;
    } else if !AllSatisfied(checks) {
      var i :| 0 <= i < |checks| && !checks[i].status.LiveSatisfied?;
      assert statuses[i].LiveUnknown?;
    }
  }

  /** The verdict on the statuses of a report, read off the report itself. */
  lemma ReportStatuses(report: AdmissionReport)
    ensures var statuses := [report.applicability] + Statuses(report.checks);
      && (Refuted(report) <==> exists i :: 0 <= i < |statuses| && statuses[i].LiveViolated?)
      && (Passed(report) <==> forall i :: 0 <= i < |statuses| ==> statuses[i].LiveSatisfied?)
  {
    var statuses := [report.applicability] + Statuses(report.checks);
    assert statuses[0] == report.applicability;
    assert forall i :: 0 < i < |statuses| ==> statuses[i] == report.checks[i - 1].status;
    if Violated(report.checks) {
      var i :| 0 <= i < |report.checks| && report.checks[i].status.LiveViolated?;
      assert statuses[i + 1].LiveViolated?;
    }
    if forall i :: 0 <= i < |statuses| ==> statuses[i].LiveSatisfied? {
      forall i | 0 <= i < |report.checks| ensures report.checks[i].status.LiveSatisfied? {
        assert statuses[i + 1].LiveSatisfied?;
      }
    }
  }

  lemma StatusesDecide(statuses: seq<LiveCheckStatus>)
    ensures EvidenceState(statuses, Admitted, Checking)
            == if exists i :: 0 <= i < |statuses| && statuses[i].LiveViolated? then Failed
               else if forall i :: 0 <= i < |statuses| ==> statuses[i].LiveSatisfied? then Admitted
               else Checking
  {
    assert forall i :: 0 <= i < |statuses| ==>
        statuses[i].LiveSatisfied? || statuses[i].LiveViolated? || statuses[i].LiveUnknown?;
  }

  /** A report admits, fails or leaves open exactly as its applicability and checks say together. */
  lemma AdmissionVerdict(report: AdmissionReport)
    ensures AdmissionState(report)
            == if Refuted(report) then Failed else if Passed(report) then Admitted else Checking
  {
    ReportStatuses(report);
    StatusesDecide([report.applicability] + Statuses(report.checks));
  }

  lemma PushAllRun(ring: Ring, kinds: seq<RunEventKind>)
    ensures PushAll(ring, kinds).run == ring.run
    decreases |kinds|
  {
  }

  lemma AdmissionKeepsSound(run: Run, report: AdmissionReport)
    requires Sound(run) && Admission(run, report).Ok?
    ensures Sound(Admission(run, report).value.next)
  {
    var a := report.action;
    var state := AdmissionState(report);
    var change := Admission(run, report).value;
    AdmissionVerdict(report);
    PushAllRun(run.ring, change.published);
    var r := run.actions[a].(state := state, admission := Some(report));
    assert Chain(run.id, a, run.plan.actions[a].contract, run.actions[a]);
    MoveKeepsSound(run, a, Some(report.observation), r, change.next.ring);
  }

  lemma CompletionKeepsSound(run: Run, completion: BackendCompletion)
    requires Sound(run) && Completion(run, completion).Ok?
    ensures Sound(Completion(run, completion).value.next)
  {
    var a := completion.action;
    var change := Completion(run, completion).value;
    PushAllRun(run.ring, change.published);
    var r := run.actions[a].(state := CompletionState(completion.outcome), completion := Some(completion));
    assert Chain(run.id, a, run.plan.actions[a].contract, run.actions[a]);
    assert Timed(run.latest, run.actions[a]);
    MoveKeepsSound(run, a, Some(completion.observation), r, change.next.ring);
  }

  lemma VerificationKeepsSound(run: Run, report: VerificationReport)
    requires Sound(run) && Verification(run, report).Ok?
    ensures Sound(Verification(run, report).value.next)
  {
    var a := report.action;
    var change := Verification(run, report).value;
    PushAllRun(run.ring, change.published);
    EvidenceVerdict(report.checks, Verified, OutcomeUnknown);
    var state := EvidenceState(Statuses(report.checks), Verified, OutcomeUnknown);
    var r := run.actions[a].(state := state, verification := Some(report));
    assert Chain(run.id, a, run.plan.actions[a].contract, run.actions[a]);
    assert Timed(run.latest, run.actions[a]);
    MoveKeepsSound(run, a, run.latest, r, change.next.ring);
  }

  lemma GoalKeepsSound(run: Run, report: GoalReport)
    requires Sound(run) && GoalVerification(run, report).Ok?
    ensures Sound(GoalVerification(run, report).value.next)
  {
    var change := GoalVerification(run, report).value;
    PushAllRun(run.ring, change.published);
    forall i | 0 <= i < |run.actions| ensures Timed(change.next.latest, run.actions[i]) {
      assert Timed(run.latest, run.actions[i]);
    }
    forall i | 0 <= i < |run.actions| && run.actions[i].completion.Some?
      ensures run.actions[i].completion.value.observation.reference.epoch < report.observation.reference.epoch
    {
      assert Timed(run.latest, run.actions[i]);
    }
  }

  /** Transitions that only change the state or a reason of one action. */
  lemma RelabelKeepsSound(run: Run, a: nat, r: ActionRun, published: seq<RunEventKind>)
    requires Sound(run) && a < |run.actions| && MayMove(run, a)
    requires r.admission == run.actions[a].admission && r.completion == run.actions[a].completion
    requires Chain(run.id, a, run.plan.actions[a].contract, r)
    ensures Sound(run.(actions := run.actions[a := r], ring := PushAll(run.ring, published)))
  {
    PushAllRun(run.ring, published);
    assert Timed(run.latest, run.actions[a]);
    MoveKeepsSound(run, a, run.latest, r, PushAll(run.ring, published));
    assert run.(actions := run.actions[a := r], latest := run.latest, ring := PushAll(run.ring, published))
        == run.(actions := run.actions[a := r], ring := PushAll(run.ring, published));
  }

  lemma MarkKeepsSound(run: Run, call: Call)
    requires Sound(run) && Transition(run, call).Ok?
    requires call.BeginCheck? || call.MarkDispatchStarted? || call.MarkPreDispatchFailed? || call.MarkOutcomeUnknown?
    ensures Sound(Transition(run, call).value.next)
  {
    var published := Transition(run, call).value.published;
    assert Chain(run.id, call.action, run.plan.actions[call.action].contract, run.actions[call.action]);
    match call
    case BeginCheck(a) =>
      FirstBlockedNone(run, a, 0);
      RelabelKeepsSound(run, a, run.actions[a].(state := Checking), published);
    case MarkDispatchStarted(a) =>
      RelabelKeepsSound(run, a, run.actions[a].(state := Running), published);
    case MarkPreDispatchFailed(a, reason) =>
      RelabelKeepsSound(run, a, run.actions[a].(state := Failed, preDispatchFailure := Some(reason)), published);
    case MarkOutcomeUnknown(a, reason) =>
      RelabelKeepsSound(run, a, run.actions[a].(state := OutcomeUnknown, unknownReason := Some(reason)), published);
  }

  lemma StepKeepsSound(run: Run, call: Call)
    requires Sound(run) && Transition(run, call).Ok?
    ensures Sound(Transition(run, call).value.next)
  {
    match call
    case RecordAdmission(report) => AdmissionKeepsSound(run, report);
    case RecordCompletion(completion) => CompletionKeepsSound(run, completion);
    case RecordVerification(report) => VerificationKeepsSound(run, report);
    case RecordGoalVerification(report) => GoalKeepsSound(run, report);
    case RecordProgress(a, detail) => PushAllRun(run.ring, Transition(run, call).value.published);
    case _ => MarkKeepsSound(run, call);
  }

  /** Whatever is called in whatever order, the run stays sound. */
  lemma {:induction false} EveryRunIsSound(id: nat, plan: ExecutionPlan, aspects: seq<GoalAspect>, calls: seq<Call>)
    ensures Sound(Execute(Start(id, plan, aspects), calls).run)
    decreases |calls|
  {
    if calls != [] {
      EveryRunIsSound(id, plan, aspects, calls[..|calls| - 1]);
      var before := Execute(Start(id, plan, aspects), calls[..|calls| - 1]);
      if Transition(before.run, calls[|calls| - 1]).Ok? {
        StepKeepsSound(before.run, calls[|calls| - 1]);
      }
    }
  }
}
