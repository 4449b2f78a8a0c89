/** The mutable execution attempt, proved to perform exactly the specified transitions. */
module ExecutionRuns {
  import opened Wrappers
  import opened StorageModel
  import opened Plan
  import opened EventRing
  import opened Execution
  import opened RunInvariants
  import opened RunSafety

  datatype CursorError = InvalidEventCursor(requested: nat, latest: nat)

  /** The answer of a call agrees with its transition; a rejection leaves everything as it was. */
  ghost predicate Answers(before: Run, call: Call, after: Run, answer: Result<bool, RunError>)
    requires WellSized(before)
  {
    match Transition(before, call)
    case Err(error) => answer == Err(error) && after == before
    case Ok(change) => answer == Ok(change.value) && after == change.next
  }

  /** Scans statuses once: a violation ends the scan, unknown evidence is remembered. */
  method EvaluateEvidence(statuses: seq<LiveCheckStatus>, satisfied: ActionRunState, unknown: ActionRunState)
    returns (result: ActionRunState)
    ensures result == EvidenceState(statuses, satisfied, unknown)
  {
    result := satisfied;
    for i := 0 to |statuses|
      invariant forall j :: 0 <= j < i ==> !statuses[j].LiveViolated?
      invariant result == if exists j :: 0 <= j < i && statuses[j].LiveUnknown? then unknown else satisfied
    {
      match statuses[i]
      case LiveViolated(_) => return Failed;
      case LiveUnknown(_) => result := unknown;
      case LiveSatisfied =>
    }
  }

  class ExecutionRun {
    const id: nat
    const plan: ExecutionPlan
    const aspects: seq<GoalAspect>
    var actions: seq<ActionRun>
    var latest: Option<LiveObservation>
    var goal: Option<GoalReport>
    var events: seq<RunEvent>
    var next: nat
    /** Every call made on this object, accepted or not. */
    ghost var calls: seq<Call>

    ghost function View(): Run
      reads this
    {
      Run(id, plan, aspects, actions, latest, goal, Ring(id, events, next))
    }

    ghost function Log(): seq<RunEvent>
      reads this
    {
      Execute(Start(id, plan, aspects), calls).log
    }

    /** The fields are what the specification computes from the calls made so far. */
    ghost predicate Valid()
      reads this
    {
      && View() == Execute(Start(id, plan, aspects), calls).run
      && 1 <= next <= U64_MAX
    }

    lemma CallKeepsValid(earlier: seq<Call>, before: Run, call: Call, answer: Result<bool, RunError>)
      requires before == Execute(Start(id, plan, aspects), earlier).run
      requires Answers(before, call, View(), answer)
      requires calls == earlier + [call] && 1 <= before.ring.next <= U64_MAX
      ensures Valid()
    {
      assert calls[..|calls| - 1] == earlier;
      CursorStaysInRange(Execute(Start(id, plan, aspects), earlier), call);
    }

    /** The fields' ring is the newest part of the log of all calls. */
    lemma RingRefinesLog()
      requires Valid()
      ensures Refines(View().ring, Log())
    {
      EveryLogIsTruthful(id, plan, aspects, calls);
    }

    constructor (id: nat, plan: ExecutionPlan, aspects: seq<GoalAspect>)
      ensures Valid() && View() == FreshRun(id, plan, aspects) && calls == []
    {
      this.id, this.plan, this.aspects := id, plan, aspects;
      actions := seq(|plan.actions|, _ => ActionRun(Waiting, None, None, None, None, None));
      latest, goal, events, next, calls := None, None, [], 1, [];
    }

    // -------------------------------------------------------------------------
    // Shared steps

    method RequireState(action: nat, expected: ActionRunState) returns (error: Option<RunError>)
      ensures error == StateError(View(), action, expected)
    {
      if action >= |actions| {
        return Some(UnknownAction(action));
      }
      if actions[action].state != expected {
        return Some(InvalidTransition(action, actions[action].state));
      }
      return None;
    }

    method CheckFreshObservation(observation: LiveObservation) returns (error: Option<RunError>)
      ensures error == ObservationError(View(), observation)
    {
      if observation.reference.instance == 0 {
        return Some(StaleObservation);
      }
      if latest.Some? {
        var known := latest.value.reference;
        if known.instance != observation.reference.instance || known.epoch >= observation.reference.epoch {
          return Some(StaleObservation);
        }
      }
      return if observation.wellFormed then None else Some(InvalidObservation);
    }

    method EnsureEventCapacity(count: nat) returns (error: Option<RunError>)
      ensures error == if HasCapacity(View(), count) then None else Some(EventSequenceExhausted)
    {
      return if count > U64_MAX || next > U64_MAX - count then Some(EventSequenceExhausted) else None;
    }

    method PushEvent(kind: RunEventKind) returns (error: Option<RunError>)
      modifies this`events, this`next
      ensures error == if HasCapacity(old(View()), 1) then None else Some(EventSequenceExhausted)
      ensures error.None? ==> Ring(id, events, next) == Push(old(View()).ring, kind)
      ensures error.Some? ==> View() == old(View())
    {
      error := EnsureEventCapacity(1);
      if error.Some? {
        return;
      }
      if |events| == MAX_RUN_EVENTS {
        events := events[1..];
      }
      events := events + [RunEvent(id, next, kind)];
      next := next + 1;
    }

    method SetState(action: nat, state: ActionRunState) returns (error: Option<RunError>)
      requires action < |actions|
      modifies this`actions, this`events, this`next
      ensures error == if HasCapacity(old(View()), 1) then None else Some(EventSequenceExhausted)
      ensures error.None? ==> View() == Enter(old(View()), action, old(actions)[action].(state := state), true).next
      ensures error.Some? ==> View() == old(View())
    {
      error := EnsureEventCapacity(1);
      if error.Some? {
        return;
      }
      actions := actions[action := actions[action].(state := state)];
      error := PushEvent(ActionState(action, state));
      assert PushAll(old(View()).ring, [ActionState(action, state)]) == Ring(id, events, next) by {
        PushOne(old(View()).ring, ActionState(action, state));
      }
    }

    /** The first listed predecessor that is not verified. */
    method FindBlocker(action: nat) returns (error: Option<RunError>)
      ensures error == FirstBlocked(View(), action, 0)
    {
      for k := 0 to |plan.dependencies|
        invariant FirstBlocked(View(), action, 0) == FirstBlocked(View(), action, k)
      {
        var edge := plan.dependencies[k];
        if edge.after == action {
          if edge.before >= |actions| {
            return Some(UnknownAction(edge.before));
          }
          if !actions[edge.before].state.Verified? {
            return Some(PredecessorNotVerified(action, edge.before));
          }
        }
      }
      return None;
    }

    // -------------------------------------------------------------------------
    // Transitions

    method BeginCheck(action: nat) returns (answer: Result<bool, RunError>)
      requires WellSized(View())
      modifies this`actions, this`events, this`next
      ensures Answers(old(View()), Call.BeginCheck(action), View(), answer)
    {
      var error := RequireState(action, Waiting);
      if error.Some? {
        return Err(error.value);
      }
      if exists i :: 0 <= i < |actions| && (actions[i].state.Failed? || actions[i].state.OutcomeUnknown?) {
        return Err(RunStopped);
      }
      error := FindBlocker(action);
      if error.Some? {
        return Err(error.value);
      }
      if exists i :: 0 <= i < |actions| && InFlight(actions[i].state) {
        return Err(ActiveAction);
      }
      error := SetState(action, Checking);
      return if error.Some? then Err(error.value) else Ok(true);
    }

    method RecordAdmission(report: AdmissionReport) returns (answer: Result<bool, RunError>)
      requires WellSized(View())
      modifies this`actions, this`latest, this`events, this`next
      ensures Answers(old(View()), Call.RecordAdmission(report), View(), answer)
    {
      var action := report.action;
      var error := RequireState(action, Checking);
      if error.Some? {
        return Err(error.value);
      }
      if report.run != id {
        return Err(ReportMismatch);
      }
      error := CheckFreshObservation(report.observation);
      if error.Some? {
        return Err(error.value);
      }
      var contract := plan.actions[action].contract;
      if !ChecksCover(contract.prerequisites, report.checks) {
        return Err(IncompleteChecks);
      }
      if exists i :: 0 <= i < |contract.resources| && !Leased(report.held, contract.resources[i]) {
        return Err(MissingResources);
      }
      var state := EvaluateEvidence([report.applicability] + Statuses(report.checks), Admitted, Checking);
      error := EnsureEventCapacity(if state.Checking? then 1 else 2);
      if error.Some? {
        return Err(error.value);
      }
      latest := Some(report.observation);
      actions := actions[action := actions[action].(admission := Some(report))];
      error := PushEvent(AdmissionChecked(action, state.Admitted?));
      if error.Some? {
        assert false;
        return Err(EventSequenceExhausted);
      }
      if !state.Checking? {
        error := SetState(action, state);
        if error.Some? {
          assert false;
          return Err(EventSequenceExhausted);
        }
      }
      AdmissionPublished(old(View()), report, state, View());
      return Ok(state.Admitted?);
    }

    method MarkDispatchStarted(action: nat) returns (answer: Result<bool, RunError>)
      requires WellSized(View())
      modifies this`actions, this`events, this`next
      ensures Answers(old(View()), Call.MarkDispatchStarted(action), View(), answer)
    {
      var error := RequireState(action, Admitted);
      if error.Some? {
        return Err(error.value);
      }
      error := SetState(action, Running);
      return if error.Some? then Err(error.value) else Ok(true);
    }

    method MarkPreDispatchFailed(action: nat, reason: string) returns (answer: Result<bool, RunError>)
      requires WellSized(View())
      modifies this`actions, this`events, this`next
      ensures Answers(old(View()), Call.MarkPreDispatchFailed(action, reason), View(), answer)
    {
      var error := RequireState(action, Admitted);
      if error.Some? {
        return Err(error.value);
      }
      error := EnsureEventCapacity(1);
      if error.Some? {
        return Err(error.value);
      }
      actions := actions[action := actions[action].(preDispatchFailure := Some(reason))];
      error := SetState(action, Failed);
      if error.Some? {
        assert false;
        return Err(EventSequenceExhausted);
      }
      assert actions
          == old(actions)[action := old(actions)[action].(state := Failed, preDispatchFailure := Some(reason))];
      return Ok(true);
    }

    method RecordCompletion(completion: BackendCompletion) returns (answer: Result<bool, RunError>)
      requires WellSized(View())
      modifies this`actions, this`latest, this`events, this`next
      ensures Answers(old(View()), Call.RecordCompletion(completion), View(), answer)
    {
      var action := completion.action;
      var error := RequireState(action, Running);
      if error.Some? {
        return Err(error.value);
      }
      if completion.run != id {
        return Err(ReportMismatch);
      }
      error := CheckFreshObservation(completion.observation);
      if error.Some? {
        return Err(error.value);
      }
      var state := CompletionState(completion.outcome);
      error := EnsureEventCapacity(1);
      if error.Some? {
        return Err(error.value);
      }
      latest := Some(completion.observation);
      actions := actions[action := actions[action].(completion := Some(completion))];
      error := SetState(action, state);
      if error.Some? {
        assert false;
        return Err(EventSequenceExhausted);
      }
      assert actions == old(actions)[action := old(actions)[action].(state := state, completion := Some(completion))];
      return Ok(true);
    }

    method RecordVerification(report: VerificationReport) returns (answer: Result<bool, RunError>)
      requires WellSized(View())
      modifies this`actions, this`events, this`next
      ensures Answers(old(View()), Call.RecordVerification(report), View(), answer)
    {
      var action := report.action;
      var error := RequireState(action, Verifying);
      if error.Some? {
        return Err(error.value);
      }
      if report.run != id {
        return Err(ReportMismatch);
      }
      var completion := actions[action].completion;
      if completion.None? || completion.value.observation.reference != report.observation {
        return Err(ReportMismatch);
      }
      if !ChecksCover(plan.actions[action].contract.postconditions, report.checks) {
        return Err(IncompleteChecks);
      }
      var state := EvaluateEvidence(Statuses(report.checks), Verified, OutcomeUnknown);
      error := EnsureEventCapacity(1);
      if error.Some? {
        return Err(error.value);
      }
      actions := actions[action := actions[action].(verification := Some(report))];
      error := SetState(action, state);
      if error.Some? {
        assert false;
        return Err(EventSequenceExhausted);
      }
      assert actions == old(actions)[action := old(actions)[action].(state := state, verification := Some(report))];
      return Ok(state.Verified?);
    }

    method MarkOutcomeUnknown(action: nat, reason: string) returns (answer: Result<bool, RunError>)
      requires WellSized(View())
      modifies this`actions, this`events, this`next
      ensures Answers(old(View()), Call.MarkOutcomeUnknown(action, reason), View(), answer)
    {
      if action >= |actions| {
        return Err(UnknownAction(action));
      }
      var state := actions[action].state;
      if !state.Running? && !state.Verifying? {
        return Err(InvalidTransition(action, state));
      }
      var error := EnsureEventCapacity(1);
      if error.Some? {
        return Err(error.value);
      }
      actions := actions[action := actions[action].(unknownReason := Some(reason))];
      error := SetState(action, OutcomeUnknown);
      if error.Some? {
        assert false;
        return Err(EventSequenceExhausted);
      }
      assert actions
          == old(actions)[action := old(actions)[action].(state := OutcomeUnknown, unknownReason := Some(reason))];
      return Ok(true);
    }

    method RecordProgress(action: nat, detail: string) returns (answer: Result<bool, RunError>)
      requires WellSized(View())
      modifies this`events, this`next
      ensures Answers(old(View()), Call.RecordProgress(action, detail), View(), answer)
    {
      var error := RequireState(action, Running);
      if error.Some? {
        return Err(error.value);
      }
      if |detail| > MAX_PROGRESS_BYTES {
        return Err(ProgressTooLarge);
      }
      error := PushEvent(Progress(action, detail));
      PushOne(old(View()).ring, Progress(action, detail));
      return if error.Some? then Err(error.value) else Ok(true);
    }

    method RecordGoalVerification(report: GoalReport) returns (answer: Result<bool, RunError>)
      requires WellSized(View())
      modifies this`latest, this`goal, this`events, this`next
      ensures Answers(old(View()), Call.RecordGoalVerification(report), View(), answer)
    {
      if exists i :: 0 <= i < |actions| && !actions[i].state.Verified? {
        return Err(ActionsNotVerified);
      }
      if report.run != id {
        return Err(ReportMismatch);
      }
      var error := CheckFreshObservation(report.observation);
      if error.Some? {
        return Err(error.value);
      }
      if !ChecksCover(aspects, report.checks) {
        return Err(IncompleteChecks);
      }
      var verified := GoalMet(report);
      error := EnsureEventCapacity(1);
      if error.Some? {
        return Err(error.value);
      }
      latest := Some(report.observation);
      goal := Some(report);
      error := PushEvent(GoalChecked(verified));
      if error.Some? {
        assert false;
        return Err(EventSequenceExhausted);
      }
      PushOne(old(View()).ring, GoalChecked(verified));
      return Ok(verified);
    }

    // -------------------------------------------------------------------------
    // Whole runs

    /** Whichever transition a host calls, the object stays the state of a specified run. */
    method Perform(call: Call) returns (answer: Result<bool, RunError>)
      requires Valid()
      modifies this
      ensures Valid() && calls == old(calls) + [call]
      ensures Answers(old(View()), call, View(), answer)
      ensures answer.Err? ==> View() == old(View()) && Log() == old(Log())
    {
      match call {
        case BeginCheck(action) => answer := BeginCheck(action);
        case RecordAdmission(report) => answer := RecordAdmission(report);
        case MarkDispatchStarted(action) => answer := MarkDispatchStarted(action);
        case MarkPreDispatchFailed(action, reason) => answer := MarkPreDispatchFailed(action, reason);
        case RecordCompletion(completion) => answer := RecordCompletion(completion);
        case RecordVerification(report) => answer := RecordVerification(report);
        case MarkOutcomeUnknown(action, reason) => answer := MarkOutcomeUnknown(action, reason);
        case RecordProgress(action, detail) => answer := RecordProgress(action, detail);
        case RecordGoalVerification(report) => answer := RecordGoalVerification(report);
      }
      calls := calls + [call];
      CallKeepsValid(old(calls), old(View()), call, answer);
      assert calls[..|calls| - 1] == old(calls);
    }

    /** Replay after an exclusive cursor, refused for cursors that were never published. */
    method ReadEvents(since: nat) returns (page: Result<EventsPage, CursorError>)
      requires Valid()
      ensures page.Ok? <==> since <= |Log()|
      ensures page.Err? ==> page.error == InvalidEventCursor(since, |Log()|)
      ensures page.Ok? ==>
        && Some(page.value) == PageOf(View().ring, since)
        && page.value.nextSequence == |Log()|
        && page.value.events == Log()[if since < Evicted(|Log()|) then Evicted(|Log()|) else since..]
        && (!page.value.gap <==> page.value.events == Log()[since..])
    {
      RingRefinesLog();
      GapIsExact(View().ring, Log(), since);
      var latest := next - 1;
      if since > latest {
        return Err(InvalidEventCursor(since, latest));
      }
      SinceRefines(View().ring, Log(), since);
      var lost := events != [] && since < events[0].sequence - 1;
      return Ok(EventsPage(EventsSince(events, since), latest, lost));
    }
  }

  lemma AdmissionPublished(before: Run, report: AdmissionReport, state: ActionRunState, after: Run)
    requires WellSized(before) && Admission(before, report).Ok? && state == AdmissionState(report)
    requires var a := report.action;
      after == before.(latest := Some(report.observation),
                       actions := after.actions,
                       ring := if state.Checking? then Push(before.ring, AdmissionChecked(a, state.Admitted?))
                               else PushAll(Push(before.ring, AdmissionChecked(a, state.Admitted?)),
                                            [ActionState(a, state)]))
    requires after.actions
        == before.actions[report.action := before.actions[report.action].(state := state, admission := Some(report))]
    ensures after == Admission(before, report).value.next
  {
    var checked := AdmissionChecked(report.action, state.Admitted?);
    PushOne(before.ring, checked);
    PushOne(Push(before.ring, checked), ActionState(report.action, state));
    assert [checked, ActionState(report.action, state)][1..] == [ActionState(report.action, state)];
  }

  lemma PushOne(ring: Ring, kind: RunEventKind)
    ensures PushAll(ring, [kind]) == Push(ring, kind)
  {
    assert [kind][1..] == [];
  }
}
