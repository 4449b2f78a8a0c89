/** Lifecycle of one execution attempt as a pure transition system over its reports. */
module Execution {
  import opened Wrappers
  import opened StorageModel
  import opened Plan
  import opened EventRing

  // ---------------------------------------------------------------------------
  // Live evidence

  datatype LiveCheckStatus = LiveSatisfied | LiveViolated(reason: string) | LiveUnknown(missing: string)

  datatype LiveCheck<T> = LiveCheck(condition: T, status: LiveCheckStatus)

  /** Probe instance zero is the nil identity; epochs grow with every publication. */
  datatype ObservationReference = ObservationReference(instance: nat, epoch: nat)

  /** `wellFormed` is the outcome of validating the snapshot's representation. */
  datatype LiveObservation = LiveObservation(reference: ObservationReference, snapshot: CurrentState, wellFormed: bool)

  datatype AdmissionReport = AdmissionReport(
    run: nat, action: nat, observation: LiveObservation, applicability: LiveCheckStatus,
    held: seq<ResourceAccess>, checks: seq<LiveCheck<ActionPrerequisite>>)

  datatype BackendOutcome = Succeeded | BackendFailed(reason: string) | BackendUnknown(reason: string)

  datatype BackendCompletion = BackendCompletion(run: nat, action: nat, outcome: BackendOutcome,
                                                 observation: LiveObservation)

  datatype VerificationReport = VerificationReport(
    run: nat, action: nat, observation: ObservationReference, checks: seq<LiveCheck<Postcondition>>)

  datatype GoalReport = GoalReport(
    run: nat, observation: LiveObservation, checks: seq<LiveCheck<GoalAspect>>, preservation: LiveCheckStatus)

  // ---------------------------------------------------------------------------
  // Run state

  datatype ActionRun = ActionRun(
    state: ActionRunState,
    admission: Option<AdmissionReport>,
    completion: Option<BackendCompletion>,
    verification: Option<VerificationReport>,
    preDispatchFailure: Option<string>,
    unknownReason: Option<string>)

  datatype Run = Run(
    id: nat,
    plan: ExecutionPlan,
    aspects: seq<GoalAspect>,
    actions: seq<ActionRun>,
    latest: Option<LiveObservation>,
    goal: Option<GoalReport>,
    ring: Ring)

  datatype RunError =
    | UnknownAction(action: nat)
    | InvalidTransition(action: nat, state: ActionRunState)
    | PredecessorNotVerified(action: nat, predecessor: nat)
    | ActiveAction
    | RunStopped
    | ReportMismatch
    | IncompleteChecks
    | MissingResources
    | StaleObservation
    | InvalidObservation
    | ActionsNotVerified
    | EventSequenceExhausted
    | ProgressTooLarge

  const MAX_PROGRESS_BYTES: nat := 4096

  /** One record per planned action, as every attempt starts out. */
  predicate WellSized(run: Run) {
    |run.actions| == |run.plan.actions|
  }

  /** A waiting attempt over a frozen plan. */
  function FreshRun(id: nat, plan: ExecutionPlan, aspects: seq<GoalAspect>): Run {
    Run(id, plan, aspects,
        seq(|plan.actions|, _ => ActionRun(Waiting, None, None, None, None, None)),
        None, None, Ring(id, [], 1))
  }

  // ---------------------------------------------------------------------------
  // Evidence rules

  function Conditions<T>(checks: seq<LiveCheck<T>>): (r: seq<T>)
    ensures |r| == |checks| && forall i :: 0 <= i < |checks| ==> r[i] == checks[i].condition
  {
    seq(|checks|, i requires 0 <= i < |checks| => checks[i].condition)
  }

  predicate Attested<T(==)>(checks: seq<LiveCheck<T>>, condition: T) {
    exists j :: 0 <= j < |checks| && checks[j].condition == condition
  }

  /** Each required condition appears, and each entry is required and new. */
  predicate ChecksCover<T(==)>(required: seq<T>, checks: seq<LiveCheck<T>>) {
    && (forall i :: 0 <= i < |required| ==> Attested(checks, required[i]))
    && forall j :: 0 <= j < |checks| ==>
         && checks[j].condition in required
         && forall k :: 0 <= k < j ==> checks[k].condition != checks[j].condition
  }

  /** Coverage is exact: the same set of conditions, each attested once. */
  lemma CoverIsExact<T(!new)>(required: seq<T>, checks: seq<LiveCheck<T>>)
    ensures ChecksCover(required, checks)
            <==> Elements(Conditions(checks)) == Elements(required) && Distinct(Conditions(checks))
  {
    var conditions := Conditions(checks);
    if ChecksCover(required, checks) {
      forall x: T | x in required ensures x in conditions {
        var i :| 0 <= i < |required| && required[i] == x;
        assert Attested(checks, required[i]);
        var j :| 0 <= j < |checks| && checks[j].condition == required[i];
        assert conditions[j] == x;
      }
      forall x: T | x in conditions ensures x in required {
        var j :| 0 <= j < |conditions| && conditions[j] == x;
        assert checks[j].condition in required;
      }
      forall i, j | 0 <= i < j < |conditions| ensures conditions[i] != conditions[j] {
        assert checks[i].condition != checks[j].condition;
      }
      assert Elements(conditions) == Elements(required);
    }
    if Elements(conditions) == Elements(required) && Distinct(conditions) {
      ExactIsCover(required, checks);
    }
  }

  lemma ExactIsCover<T(!new)>(required: seq<T>, checks: seq<LiveCheck<T>>)
    requires Elements(Conditions(checks)) == Elements(required) && Distinct(Conditions(checks))
    ensures ChecksCover(required, checks)
  {
    var conditions := Conditions(checks);
    forall i | 0 <= i < |required| ensures Attested(checks, required[i]) {
      assert required[i] in Elements(conditions);
      var j :| 0 <= j < |conditions| && conditions[j] == required[i];
      assert checks[j].condition == required[i];
    }
    forall j | 0 <= j < |checks|
      ensures checks[j].condition in required
      ensures forall k :: 0 <= k < j ==> checks[k].condition != checks[j].condition
    {
      assert conditions[j] in Elements(conditions);
      forall k | 0 <= k < j ensures checks[k].condition != checks[j].condition {
        assert conditions[k] != conditions[j];
      }
    }
  }

  predicate AllSatisfied<T>(checks: seq<LiveCheck<T>>) {
    forall i :: 0 <= i < |checks| ==> checks[i].status.LiveSatisfied?
  }

  function Statuses<T>(checks: seq<LiveCheck<T>>): (r: seq<LiveCheckStatus>)
    ensures |r| == |checks| && forall i :: 0 <= i < |checks| ==> r[i] == checks[i].status
  {
    seq(|checks|, i requires 0 <= i < |checks| => checks[i].status)
  }

  /** Verdict of a whole list of statuses, whatever their order. */
  function EvidenceState(statuses: seq<LiveCheckStatus>, satisfied: ActionRunState,
                         unknown: ActionRunState): ActionRunState
  {
    if exists i :: 0 <= i < |statuses| && statuses[i].LiveViolated? then Failed
    else if exists i :: 0 <= i < |statuses| && statuses[i].LiveUnknown? then unknown
    else satisfied
  }

  predicate Leased(held: seq<ResourceAccess>, required: ResourceAccess) {
    exists i :: 0 <= i < |held| && held[i].resource == required.resource
                && (held[i].mode.Write? || held[i].mode == required.mode)
  }

  predicate AllLeased(held: seq<ResourceAccess>, required: seq<ResourceAccess>) {
    forall i :: 0 <= i < |required| ==> Leased(held, required[i])
  }

  /** A new publication of the same probe instance, or the first one. */
  predicate IsFresh(latest: Option<LiveObservation>, reference: ObservationReference) {
    && reference.instance != 0
    && (latest.Some? ==> latest.value.reference.instance == reference.instance
                         && latest.value.reference.epoch < reference.epoch)
  }

  // ---------------------------------------------------------------------------
  // Transitions

  datatype Call =
    | BeginCheck(action: nat)
    | RecordAdmission(admission: AdmissionReport)
    | MarkDispatchStarted(action: nat)
    | MarkPreDispatchFailed(action: nat, reason: string)
    | RecordCompletion(completion: BackendCompletion)
    | RecordVerification(verification: VerificationReport)
    | MarkOutcomeUnknown(action: nat, reason: string)
    | RecordProgress(action: nat, detail: string)
    | RecordGoalVerification(goal: GoalReport)

  /** The changed fields and the events that announce them. */
  datatype Change = Change(next: Run, published: seq<RunEventKind>, value: bool)

  predicate IsStopped(run: Run) {
    exists i :: 0 <= i < |run.actions| && (run.actions[i].state.Failed? || run.actions[i].state.OutcomeUnknown?)
  }

  predicate InFlight(state: ActionRunState) {
    state.Checking? || state.Admitted? || state.Running? || state.Verifying?
  }

  predicate HasActive(run: Run) {
    exists i :: 0 <= i < |run.actions| && InFlight(run.actions[i].state)
  }

  predicate HasCapacity(run: Run, count: nat) {
    run.ring.next + count <= U64_MAX
  }

  /** The lookup or state error for an action that must be in one exact state. */
  function StateError(run: Run, action: nat, expected: ActionRunState): Option<RunError> {
    if action >= |run.actions| then Some(UnknownAction(action))
    else if run.actions[action].state != expected then Some(InvalidTransition(action, run.actions[action].state))
    else None
  }

  /** The first listed dependency of the action that is not verified, from edge k on. */
  function FirstBlocked(run: Run, action: nat, k: nat): Option<RunError>
    requires k <= |run.plan.dependencies|
    decreases |run.plan.dependencies| - k
  {
    if k == |run.plan.dependencies| then None
    else
      var edge := run.plan.dependencies[k];
      if edge.after != action then FirstBlocked(run, action, k + 1)
      else if edge.before >= |run.actions| then Some(UnknownAction(edge.before))
      else if !run.actions[edge.before].state.Verified? then Some(PredecessorNotVerified(action, edge.before))
      else FirstBlocked(run, action, k + 1)
  }

  function WithAction(run: Run, action: nat, value: ActionRun): Run
    requires action < |run.actions|
  {
    run.(actions := run.actions[action := value])
  }

  function Publish(run: Run, published: seq<RunEventKind>, value: bool): Change {
    Change(run.(ring := PushAll(run.ring, published)), published, value)
  }

  /** Moves one action to a new state and announces it. */
  function Enter(run: Run, action: nat, value: ActionRun, result: bool): Change
    requires action < |run.actions|
  {
    Publish(WithAction(run, action, value), [ActionState(action, value.state)], result)
  }

  function ObservationError(run: Run, observation: LiveObservation): Option<RunError> {
    if !IsFresh(run.latest, observation.reference) then Some(StaleObservation)
    else if !observation.wellFormed then Some(InvalidObservation)
    else None
  }

  function AdmissionState(report: AdmissionReport): ActionRunState {
    EvidenceState([report.applicability] + Statuses(report.checks), Admitted, Checking)
  }

  function Admission(run: Run, report: AdmissionReport): Result<Change, RunError>
    requires WellSized(run)
  {
    var a := report.action;
    var wrong := StateError(run, a, Checking);
    if wrong.Some? then Err(wrong.value)
    else if report.run != run.id then Err(ReportMismatch)
    else if ObservationError(run, report.observation).Some? then Err(ObservationError(run, report.observation).value)
    else
      var contract := run.plan.actions[a].contract;
      var state := AdmissionState(report);
      if !ChecksCover(contract.prerequisites, report.checks) then Err(IncompleteChecks)
      else if !AllLeased(report.held, contract.resources) then Err(MissingResources)
      else if !HasCapacity(run, if state.Checking? then 1 else 2) then Err(EventSequenceExhausted)
      else
        var next := WithAction(run.(latest := Some(report.observation)), a,
                               run.actions[a].(state := state, admission := Some(report)));
        var checked := [AdmissionChecked(a, state.Admitted?)];
        Ok(Publish(next, if state.Checking? then checked else checked + [ActionState(a, state)], state.Admitted?))
  }

  function CompletionState(outcome: BackendOutcome): ActionRunState {
    match outcome
    case Succeeded => Verifying
    case BackendFailed(_) => Failed
    case BackendUnknown(_) => OutcomeUnknown
  }

  function Completion(run: Run, completion: BackendCompletion): Result<Change, RunError> {
    var a := completion.action;
    var wrong := StateError(run, a, Running);
    if wrong.Some? then Err(wrong.value)
    else if completion.run != run.id then Err(ReportMismatch)
    else if ObservationError(run, completion.observation).Some?
    then Err(ObservationError(run, completion.observation).value)
    else if !HasCapacity(run, 1) then Err(EventSequenceExhausted)
    else Ok(Enter(run.(latest := Some(completion.observation)), a,
                  run.actions[a].(state := CompletionState(completion.outcome), completion := Some(completion)), true))
  }

  function Verification(run: Run, report: VerificationReport): Result<Change, RunError>
    requires WellSized(run)
  {
    var a := report.action;
    var wrong := StateError(run, a, Verifying);
    if wrong.Some? then Err(wrong.value)
    else if report.run != run.id then Err(ReportMismatch)
    else if run.actions[a].completion.None?
        || run.actions[a].completion.value.observation.reference != report.observation
    then Err(ReportMismatch)
    else if !ChecksCover(run.plan.actions[a].contract.postconditions, report.checks) then Err(IncompleteChecks)
    else if !HasCapacity(run, 1) then Err(EventSequenceExhausted)
    else
      var state := EvidenceState(Statuses(report.checks), Verified, OutcomeUnknown);
      Ok(Enter(run, a, run.actions[a].(state := state, verification := Some(report)), state.Verified?))
  }

  predicate GoalMet(report: GoalReport) {
    report.preservation.LiveSatisfied? && AllSatisfied(report.checks)
  }

  function GoalVerification(run: Run, report: GoalReport): Result<Change, RunError> {
    if !forall i :: 0 <= i < |run.actions| ==> run.actions[i].state.Verified? then Err(ActionsNotVerified)
    else if report.run != run.id then Err(ReportMismatch)
    else if ObservationError(run, report.observation).Some? then Err(ObservationError(run, report.observation).value)
    else if !ChecksCover(run.aspects, report.checks) then Err(IncompleteChecks)
    else if !HasCapacity(run, 1) then Err(EventSequenceExhausted)
    else Ok(Publish(run.(latest := Some(report.observation), goal := Some(report)), [GoalChecked(GoalMet(report))],
                    GoalMet(report)))
  }

  /** One call on the run: either a rejected report or the complete next state. */
  function Transition(run: Run, call: Call): (r: Result<Change, RunError>)
    requires WellSized(run)
    ensures r.Ok? ==> WellSized(r.value.next) && r.value.next.plan == run.plan && r.value.next.id == run.id
                      && r.value.next.aspects == run.aspects
  {
    match call
    case BeginCheck(a) =>
      var wrong := StateError(run, a, Waiting);
      if wrong.Some? then Err(wrong.value)
      else if IsStopped(run) then Err(RunStopped)
      else if FirstBlocked(run, a, 0).Some? then Err(FirstBlocked(run, a, 0).value)
      else if HasActive(run) then Err(ActiveAction)
      else if !HasCapacity(run, 1) then Err(EventSequenceExhausted)
      else Ok(Enter(run, a, run.actions[a].(state := Checking), true))
    case RecordAdmission(report) => Admission(run, report)
    case MarkDispatchStarted(a) =>
      var wrong := StateError(run, a, Admitted);
      if wrong.Some? then Err(wrong.value)
      else if !HasCapacity(run, 1) then Err(EventSequenceExhausted)
      else Ok(Enter(run, a, run.actions[a].(state := Running), true))
    case MarkPreDispatchFailed(a, reason) =>
      var wrong := StateError(run, a, Admitted);
      if wrong.Some? then Err(wrong.value)
      else if !HasCapacity(run, 1) then Err(EventSequenceExhausted)
      else Ok(Enter(run, a, run.actions[a].(state := Failed, preDispatchFailure := Some(reason)), true))
    case RecordCompletion(completion) => Completion(run, completion)
    case RecordVerification(report) => Verification(run, report)
    case MarkOutcomeUnknown(a, reason) =>
      if a >= |run.actions| then Err(UnknownAction(a))
      else if !(run.actions[a].state.Running? || run.actions[a].state.Verifying?)
      then Err(InvalidTransition(a, run.actions[a].state))
      else if !HasCapacity(run, 1) then Err(EventSequenceExhausted)
      else Ok(Enter(run, a, run.actions[a].(state := OutcomeUnknown, unknownReason := Some(reason)), true))
    case RecordProgress(a, detail) =>
      var wrong := StateError(run, a, Running);
      if wrong.Some? then Err(wrong.value)
      else if |detail| > MAX_PROGRESS_BYTES then Err(ProgressTooLarge)
      else if !HasCapacity(run, 1) then Err(EventSequenceExhausted)
      else Ok(Publish(run, [Progress(a, detail)], true))
    case RecordGoalVerification(report) => GoalVerification(run, report)
  }
}
