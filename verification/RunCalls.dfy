/** Each call on an execution run: exactly when it is accepted, what it then leaves, and why it is not. */
module RunCalls {
  import opened Wrappers
  import opened Dag
  import opened StorageModel
  import opened Plan
  import opened EventRing
  import opened Execution
  import opened RunInvariants

  // ---------------------------------------------------------------------------
  // Conditions a report must meet

  /** Every required condition is attested once and nothing else is. */
  ghost predicate AttestsExactly<T(!new)>(required: seq<T>, checks: seq<LiveCheck<T>>) {
    Elements(Conditions(checks)) == Elements(required) && Distinct(Conditions(checks))
  }

  /** A read is covered by any lease on its resource, a write only by a write lease. */
  ghost predicate Holds(held: seq<ResourceAccess>, required: ResourceAccess) {
    || ResourceAccess(required.resource, Write) in held
    || (required.mode == Read && ResourceAccess(required.resource, Read) in held)
  }

  ghost predicate HoldsAll(held: seq<ResourceAccess>, required: seq<ResourceAccess>) {
    forall i :: 0 <= i < |required| ==> Holds(held, required[i])
  }

  lemma LeasedIsHeld(held: seq<ResourceAccess>, required: ResourceAccess)
    ensures Leased(held, required) <==> Holds(held, required)
  {
    if i :| 0 <= i < |held| && held[i].resource == required.resource
            && (held[i].mode.Write? || held[i].mode == required.mode) {
      assert held[i] == ResourceAccess(required.resource, held[i].mode);
    }
    if Holds(held, required) {
      var mode := if ResourceAccess(required.resource, Write) in held then Write else Read;
      var i :| 0 <= i < |held| && held[i] == ResourceAccess(required.resource, mode);
      assert held[i].resource == required.resource;
    }
  }

  lemma AllLeasedIsHeld(held: seq<ResourceAccess>, required: seq<ResourceAccess>)
    ensures AllLeased(held, required) <==> HoldsAll(held, required)
  {
    forall i | 0 <= i < |required| ensures Leased(held, required[i]) <==> Holds(held, required[i]) {
      LeasedIsHeld(held, required[i]);
    }
  }

  /** Later than everything seen so far, by the same non-nil probe instance. */
  ghost predicate IsNewer(run: Run, reference: ObservationReference) {
    && reference.instance > 0
    && (run.latest.Some? ==>
          && reference.instance == run.latest.value.reference.instance
          && reference.epoch > run.latest.value.reference.epoch)
  }

  /** Every event still gets its own 64-bit sequence number. */
  ghost predicate HasRoom(run: Run, events: nat) {
    run.ring.next <= U64_MAX - events
  }

  predicate IsIdle(state: ActionRunState) {
    state == Waiting || state == Verified
  }

  ghost predicate IsIn(run: Run, a: nat, state: ActionRunState) {
    a < |run.actions| && run.actions[a].state == state
  }

  /** Nothing is under way or stopped, and everything the action depends on is verified. */
  ghost predicate MayBegin(run: Run, a: nat) {
    && IsIn(run, a, Waiting)
    && (forall i :: 0 <= i < |run.actions| ==> IsIdle(run.actions[i].state))
    && forall x: nat :: HasEdge(run.plan.dependencies, x, a) ==> IsIn(run, x, Verified)
  }

  /** What the system demands of a call before it changes anything. */
  ghost predicate Permits(run: Run, call: Call)
    requires WellSized(run)
  {
    match call
    case BeginCheck(a) => MayBegin(run, a) && HasRoom(run, 1)
    case RecordAdmission(report) =>
      && IsIn(run, report.action, Checking) && report.run == run.id
      && IsNewer(run, report.observation.reference) && report.observation.wellFormed
      && AttestsExactly(run.plan.actions[report.action].contract.prerequisites, report.checks)
      && HoldsAll(report.held, run.plan.actions[report.action].contract.resources)
      && HasRoom(run, if Passed(report) || Refuted(report) then 2 else 1)
    case MarkDispatchStarted(a) => IsIn(run, a, Admitted) && HasRoom(run, 1)
    case MarkPreDispatchFailed(a, _) => IsIn(run, a, Admitted) && HasRoom(run, 1)
    case RecordCompletion(completion) =>
      && IsIn(run, completion.action, Running) && completion.run == run.id
      && IsNewer(run, completion.observation.reference) && completion.observation.wellFormed
      && HasRoom(run, 1)
    case RecordVerification(report) =>
      && IsIn(run, report.action, Verifying) && report.run == run.id
      && run.actions[report.action].completion.Some?
      && report.observation == run.actions[report.action].completion.value.observation.reference
      && AttestsExactly(run.plan.actions[report.action].contract.postconditions, report.checks)
      && HasRoom(run, 1)
    case MarkOutcomeUnknown(a, _) => (IsIn(run, a, Running) || IsIn(run, a, Verifying)) && HasRoom(run, 1)
    case RecordProgress(a, detail) => IsIn(run, a, Running) && |detail| <= MAX_PROGRESS_BYTES && HasRoom(run, 1)
    case RecordGoalVerification(report) =>
      && (forall i :: 0 <= i < |run.actions| ==> run.actions[i].state == Verified) && report.run == run.id
      && IsNewer(run, report.observation.reference) && report.observation.wellFormed
      && AttestsExactly(run.aspects, report.checks)
      && HasRoom(run, 1)
  }

  // ---------------------------------------------------------------------------
  // Acceptance

  lemma {:induction false} BlockedIff(run: Run, a: nat, k: nat)
    requires k <= |run.plan.dependencies|
    ensures FirstBlocked(run, a, k).None?
            <==> forall i :: k <= i < |run.plan.dependencies| && run.plan.dependencies[i].after == a ==>
                   IsIn(run, run.plan.dependencies[i].before, Verified)
    decreases |run.plan.dependencies| - k
  {
    if k < |run.plan.dependencies| {
      BlockedIff(run, a, k + 1);
    }
  }

  lemma BeginAcceptedIff(run: Run, a: nat)
    requires WellSized(run)
    ensures Transition(run, BeginCheck(a)).Ok? <==> Permits(run, BeginCheck(a))
  {
    var deps := run.plan.dependencies;
    BlockedIff(run, a, 0);
    assert (forall x: nat :: HasEdge(deps, x, a) ==> IsIn(run, x, Verified))
        <==> forall i :: 0 <= i < |deps| && deps[i].after == a ==> IsIn(run, deps[i].before, Verified) by {
      if forall x: nat :: HasEdge(deps, x, a) ==> IsIn(run, x, Verified) {
        forall i | 0 <= i < |deps| && deps[i].after == a ensures IsIn(run, deps[i].before, Verified) {
          assert HasEdge(deps, deps[i].before, a);
        }
      }
    }
    assert (forall i :: 0 <= i < |run.actions| ==> IsIdle(run.actions[i].state))
        <==> !IsStopped(run) && !HasActive(run);
  }

  /** A call is accepted exactly when the system permits it. */
  lemma CallAcceptedIff(run: Run, call: Call)
    requires WellSized(run)
    ensures Transition(run, call).Ok? <==> Permits(run, call)
  {
    match call
    case BeginCheck(a) => BeginAcceptedIff(run, a);
    case RecordAdmission(report) =>
      AdmissionVerdict(report);
      if report.action < |run.actions| {
        CoverIsExact(run.plan.actions[report.action].contract.prerequisites, report.checks);
        AllLeasedIsHeld(report.held, run.plan.actions[report.action].contract.resources);
      }
    case RecordVerification(report) =>
      if report.action < |run.actions| {
        CoverIsExact(run.plan.actions[report.action].contract.postconditions, report.checks);
      }
    case RecordGoalVerification(report) => CoverIsExact(run.aspects, report.checks);
    case _ =>
  }

  // ---------------------------------------------------------------------------
  // What an accepted call leaves

  /** The next run differs in one action's record, the latest observation and the published events. */
  ghost predicate Becomes(run: Run, change: Change, a: nat, r: ActionRun, latest: Option<LiveObservation>,
                          published: seq<RunEventKind>)
    requires a < |run.actions|
  {
    && change.next == run.(actions := run.actions[a := r], latest := latest, ring := PushAll(run.ring, published))
    && change.published == published
  }

  /**
   An accepted admission fails the action, and with it the run, exactly when the
   evidence refutes it; admits it exactly when all evidence is satisfied; and
   otherwise leaves it in checking.  The answer and the announcement say which.
   */
  lemma AdmissionOutcome(run: Run, report: AdmissionReport)
    requires WellSized(run) && Transition(run, RecordAdmission(report)).Ok?
    ensures var change := Transition(run, RecordAdmission(report)).value;
      var a := report.action;
      var state := if Refuted(report) then Failed else if Passed(report) then Admitted else Checking;
      && a < |run.actions|
      && Becomes(run, change, a, run.actions[a].(state := state, admission := Some(report)), Some(report.observation),
                 if state == Checking then [AdmissionChecked(a, false)]
                 else [AdmissionChecked(a, Passed(report)), ActionState(a, state)])
      && change.value == Passed(report)
      && (Refuted(report) ==> IsStopped(change.next))
      && (IsStopped(change.next) ==> Refuted(report) || IsStopped(run))
  {
    AdmissionVerdict(report);
    var change := Transition(run, RecordAdmission(report)).value;
    var a := report.action;
    assert Refuted(report) ==> change.next.actions[a].state.Failed?;
    assert Passed(report) ==> !Refuted(report);
    if IsStopped(change.next) && !Refuted(report) {
      var i :| 0 <= i < |run.actions|
               && (change.next.actions[i].state.Failed? || change.next.actions[i].state.OutcomeUnknown?);
      assert run.actions[i] == change.next.actions[i];
    }
  }

  /** The backend's own word decides: success must be verified, failure and silence stop the run. */
  lemma CompletionOutcome(run: Run, completion: BackendCompletion)
    requires WellSized(run) && Transition(run, RecordCompletion(completion)).Ok?
    ensures var change := Transition(run, RecordCompletion(completion)).value;
      var a := completion.action;
      && a < |run.actions|
      && var state := change.next.actions[a].state;
      && (completion.outcome.Succeeded? <==> state == Verifying)
      && (completion.outcome.BackendFailed? <==> state == Failed)
      && (completion.outcome.BackendUnknown? <==> state == OutcomeUnknown)
      && Becomes(run, change, a, run.actions[a].(state := state, completion := Some(completion)),
                 Some(completion.observation), [ActionState(a, state)])
      && change.value
      && (!completion.outcome.Succeeded? ==> IsStopped(change.next))
  {
    var change := Transition(run, RecordCompletion(completion)).value;
    assert !completion.outcome.Succeeded? ==>
        change.next.actions[completion.action].state.Failed?
        || change.next.actions[completion.action].state.OutcomeUnknown?;
  }

  /** Violated postconditions fail the action, missing evidence leaves its outcome unknown. */
  lemma VerificationOutcome(run: Run, report: VerificationReport)
    requires WellSized(run) && Transition(run, RecordVerification(report)).Ok?
    ensures var change := Transition(run, RecordVerification(report)).value;
      var a := report.action;
      var state := if Violated(report.checks) then Failed
                   else if AllSatisfied(report.checks) then Verified else OutcomeUnknown;
      && a < |run.actions|
      && Becomes(run, change, a, run.actions[a].(state := state, verification := Some(report)), run.latest,
                 [ActionState(a, state)])
      && change.value == AllSatisfied(report.checks)
      && (!AllSatisfied(report.checks) ==> IsStopped(change.next))
  {
    EvidenceVerdict(report.checks, Verified, OutcomeUnknown);
    var change := Transition(run, RecordVerification(report)).value;
    assert !AllSatisfied(report.checks) ==>
        change.next.actions[report.action].state.Failed? || change.next.actions[report.action].state.OutcomeUnknown?;
    if Violated(report.checks) {
      var i :| 0 <= i < |report.checks| && report.checks[i].status.LiveViolated?;
      assert !report.checks[i].status.LiveSatisfied?;
    }
  }

  /** Nothing outside was harmed and each requested aspect is attested as satisfied. */
  ghost predicate Achieves(aspects: seq<GoalAspect>, report: GoalReport) {
    && report.preservation == LiveSatisfied
    && forall i :: 0 <= i < |aspects| ==> LiveCheck(aspects[i], LiveSatisfied) in report.checks
  }

  lemma MetIsAchieved(aspects: seq<GoalAspect>, report: GoalReport)
    requires ChecksCover(aspects, report.checks)
    ensures GoalMet(report) <==> Achieves(aspects, report)
  {
    var checks := report.checks;
    if GoalMet(report) {
      forall i | 0 <= i < |aspects| ensures LiveCheck(aspects[i], LiveSatisfied) in checks {
        assert Attested(checks, aspects[i]);
        var j :| 0 <= j < |checks| && checks[j].condition == aspects[i];
        assert checks[j] == LiveCheck(aspects[i], LiveSatisfied);
      }
    }
    if Achieves(aspects, report) {
      forall j | 0 <= j < |checks| ensures checks[j].status.LiveSatisfied? {
        var i :| 0 <= i < |aspects| && aspects[i] == checks[j].condition;
        var m :| 0 <= m < |checks| && checks[m] == LiveCheck(aspects[i], LiveSatisfied);
        assert !(j < m) && !(m < j);
      }
    }
  }

  /** The goal verdict returned and announced is whether every requested aspect was attested. */
  lemma GoalOutcome(run: Run, report: GoalReport)
    requires WellSized(run) && Transition(run, RecordGoalVerification(report)).Ok?
    ensures var change := Transition(run, RecordGoalVerification(report)).value;
      var achieved := Achieves(run.aspects, report);
      && change.value == achieved
      && change.published == [GoalChecked(achieved)]
      && change.next == run.(latest := Some(report.observation), goal := Some(report),
                             ring := PushAll(run.ring, [GoalChecked(achieved)]))
  {
    MetIsAchieved(run.aspects, report);
  }

  /** Progress changes nothing but the log. */
  lemma ProgressOutcome(run: Run, a: nat, detail: string)
    requires WellSized(run) && Transition(run, RecordProgress(a, detail)).Ok?
    ensures var change := Transition(run, RecordProgress(a, detail)).value;
      && change.published == [Progress(a, detail)] && change.value
      && change.next == run.(ring := PushAll(run.ring, [Progress(a, detail)]))
  {
  }

  /** The state a marking call moves its action to. */
  function MarkedState(call: Call): ActionRunState
    requires call.BeginCheck? || call.MarkDispatchStarted? || call.MarkPreDispatchFailed? || call.MarkOutcomeUnknown?
  {
    match call
    case BeginCheck(_) => Checking
    case MarkDispatchStarted(_) => Running
    case MarkPreDispatchFailed(_, _) => Failed
    case MarkOutcomeUnknown(_, _) => OutcomeUnknown
  }

  /** Marking calls move one action, keep its evidence and record the reason they were given. */
  lemma MarkOutcome(run: Run, call: Call)
    requires WellSized(run) && Transition(run, call).Ok?
    requires call.BeginCheck? || call.MarkDispatchStarted? || call.MarkPreDispatchFailed? || call.MarkOutcomeUnknown?
    ensures var change := Transition(run, call).value;
      && call.action < |run.actions|
      && var before, after := run.actions[call.action], change.next.actions[call.action];
      && after == before.(
           state := MarkedState(call),
           preDispatchFailure := if call.MarkPreDispatchFailed? then Some(call.reason) else before.preDispatchFailure,
           unknownReason := if call.MarkOutcomeUnknown? then Some(call.reason) else before.unknownReason)
      && Becomes(run, change, call.action, after, run.latest, [ActionState(call.action, MarkedState(call))])
      && change.value
  {
  }

  // ---------------------------------------------------------------------------
  // Why a call is rejected

  ghost function Subject(call: Call): Option<nat> {
    match call
    case RecordAdmission(report) => Some(report.action)
    case RecordCompletion(completion) => Some(completion.action)
    case RecordVerification(report) => Some(report.action)
    case RecordGoalVerification(_) => None
    case BeginCheck(a) => Some(a)
    case MarkDispatchStarted(a) => Some(a)
    case MarkPreDispatchFailed(a, _) => Some(a)
    case MarkOutcomeUnknown(a, _) => Some(a)
    case RecordProgress(a, _) => Some(a)
  }

  /** The states in which the call's action may be. */
  ghost predicate Expects(call: Call, state: ActionRunState) {
    match call
    case BeginCheck(_) => state == Waiting
    case RecordAdmission(_) => state == Checking
    case MarkDispatchStarted(_) => state == Admitted
    case MarkPreDispatchFailed(_, _) => state == Admitted
    case RecordCompletion(_) => state == Running
    case RecordProgress(_, _) => state == Running
    case RecordVerification(_) => state == Verifying
    case MarkOutcomeUnknown(_, _) => state == Running || state == Verifying
    case RecordGoalVerification(_) => false
  }

  ghost function ObservationOf(call: Call): Option<LiveObservation> {
    match call
    case RecordAdmission(report) => Some(report.observation)
    case RecordCompletion(completion) => Some(completion.observation)
    case RecordGoalVerification(report) => Some(report.observation)
    case _ => None
  }

  /** The report was made for another attempt or about another observation. */
  ghost predicate IsForeign(run: Run, call: Call) {
    match call
    case RecordAdmission(report) => report.run != run.id
    case RecordCompletion(completion) => completion.run != run.id
    case RecordGoalVerification(report) => report.run != run.id
    case RecordVerification(report) =>
      || report.run != run.id
      || (report.action < |run.actions|
          && var completion := run.actions[report.action].completion;
          completion.None? || completion.value.observation.reference != report.observation)
    case _ => false
  }

  ghost predicate IsIncomplete(run: Run, call: Call)
    requires WellSized(run)
  {
    match call
    case RecordAdmission(report) =>
      report.action < |run.actions|
      && !AttestsExactly(run.plan.actions[report.action].contract.prerequisites, report.checks)
    case RecordVerification(report) =>
      report.action < |run.actions|
      && !AttestsExactly(run.plan.actions[report.action].contract.postconditions, report.checks)
    case RecordGoalVerification(report) => !AttestsExactly(run.aspects, report.checks)
    case _ => false
  }

  /** The fault that each rejection names is really there. */
  ghost predicate Explains(run: Run, call: Call, error: RunError)
    requires WellSized(run)
  {
    match error
    case UnknownAction(a) =>
      && a >= |run.actions|
      && (Subject(call) == Some(a) || (call.BeginCheck? && HasEdge(run.plan.dependencies, a, call.action)))
    case InvalidTransition(a, state) => Subject(call) == Some(a) && IsIn(run, a, state) && !Expects(call, state)
    case PredecessorNotVerified(a, b) =>
      && call == BeginCheck(a) && HasEdge(run.plan.dependencies, b, a)
      && b < |run.actions| && run.actions[b].state != Verified
    case ActiveAction => call.BeginCheck? && HasActive(run)
    case RunStopped => call.BeginCheck? && IsStopped(run)
    case ReportMismatch => IsForeign(run, call)
    case IncompleteChecks => IsIncomplete(run, call)
    case MissingResources =>
      && call.RecordAdmission? && call.admission.action < |run.actions|
      && !HoldsAll(call.admission.held, run.plan.actions[call.admission.action].contract.resources)
    case StaleObservation => ObservationOf(call).Some? && !IsNewer(run, ObservationOf(call).value.reference)
    case InvalidObservation => ObservationOf(call).Some? && !ObservationOf(call).value.wellFormed
    case ActionsNotVerified =>
      call.RecordGoalVerification? && exists i :: 0 <= i < |run.actions| && run.actions[i].state != Verified
    case EventSequenceExhausted =>
      !HasRoom(run, if call.RecordAdmission? && (Passed(call.admission) || Refuted(call.admission)) then 2 else 1)
    case ProgressTooLarge => call.RecordProgress? && |call.detail| > MAX_PROGRESS_BYTES
  }

  lemma {:induction false} BlockerExplained(run: Run, a: nat, k: nat)
    requires WellSized(run) && k <= |run.plan.dependencies| && FirstBlocked(run, a, k).Some?
    ensures Explains(run, BeginCheck(a), FirstBlocked(run, a, k).value)
    decreases |run.plan.dependencies| - k
  {
    var edge := run.plan.dependencies[k];
    if edge.after == a {
      assert HasEdge(run.plan.dependencies, edge.before, a);
    }
    if edge.after != a || (edge.before < |run.actions| && run.actions[edge.before].state.Verified?) {
      BlockerExplained(run, a, k + 1);
    }
  }

  lemma AdmissionRejection(run: Run, report: AdmissionReport)
    requires WellSized(run) && Admission(run, report).Err?
    ensures Explains(run, RecordAdmission(report), Admission(run, report).error)
  {
    AdmissionVerdict(report);
    if report.action < |run.actions| {
      CoverIsExact(run.plan.actions[report.action].contract.prerequisites, report.checks);
      AllLeasedIsHeld(report.held, run.plan.actions[report.action].contract.resources);
    }
  }

  lemma VerificationRejection(run: Run, report: VerificationReport)
    requires WellSized(run) && Verification(run, report).Err?
    ensures Explains(run, RecordVerification(report), Verification(run, report).error)
  {
    if report.action < |run.actions| {
      CoverIsExact(run.plan.actions[report.action].contract.postconditions, report.checks);
    }
  }

  lemma GoalRejection(run: Run, report: GoalReport)
    requires WellSized(run) && GoalVerification(run, report).Err?
    ensures Explains(run, RecordGoalVerification(report), GoalVerification(run, report).error)
  {
    CoverIsExact(run.aspects, report.checks);
  }

  lemma BeginRejection(run: Run, a: nat)
    requires WellSized(run) && Transition(run, BeginCheck(a)).Err?
    ensures Explains(run, BeginCheck(a), Transition(run, BeginCheck(a)).error)
  {
    if FirstBlocked(run, a, 0).Some? {
      BlockerExplained(run, a, 0);
    }
  }

  /** Every rejection names a fault of the call that is really there. */
  lemma RejectionExplained(run: Run, call: Call)
    requires WellSized(run) && Transition(run, call).Err?
    ensures Explains(run, call, Transition(run, call).error)
  {
    match call
    case BeginCheck(a) => BeginRejection(run, a);
    case RecordAdmission(report) => AdmissionRejection(run, report);
    case RecordVerification(report) => VerificationRejection(run, report);
    case RecordGoalVerification(report) => GoalRejection(run, report);
    case _ =>
  }
}
