/** Whole-plan analysis: obligations, goal comparison and completeness of the report. */
module Analysis {
  import opened Wrappers
  import TopologicalSort
  import opened StorageModel
  import opened Prerequisites
  import opened Evidence
  import opened Effects
  import opened Plan
  import opened Replay
  import opened Goal

  datatype Obligation =
    | PrerequisiteObligation(action: nat, prerequisite: ActionPrerequisite)
    | GoalObligation(aspect: GoalAspect)

  /** Intent coverage and protected-area checks are decided outside this model. */
  datatype Review = Review(
    scopeValid: bool,
    intents: nat,
    covers: (nat, seq<ProviderAction>) -> bool,
    violations: ReplayResult -> seq<nat>)

  /** Which actions one intent is credited with, in plan order, and whether they cover it. */
  datatype IntentCoverage = IntentCoverage(index: nat, covered: bool, actions: seq<nat>)

  datatype SimulationReport = SimulationReport(
    replay: ReplayResult,
    goalChecks: seq<GoalCheck>,
    coverage: seq<IntentCoverage>,
    obligations: seq<Obligation>,
    violations: seq<nat>)

  datatype AnalysisError =
    | GoalStructure
    | InvalidProtectedMount
    | UnknownIntentOrigin(action: nat, index: nat)
    | ReplayFailed(error: ReplayError)

  predicate IsComplete(report: SimulationReport) {
    && report.violations == []
    && report.obligations == []
    && AllMet(report.goalChecks)
    && forall i :: 0 <= i < |report.coverage| ==> report.coverage[i].covered
  }

  // ---------------------------------------------------------------------------
  // Obligations

  function UnknownChecks(action: nat, checks: seq<PrerequisiteCheck>): seq<Obligation> {
    if checks == [] then []
    else
      var last := checks[|checks| - 1];
      UnknownChecks(action, checks[..|checks| - 1])
      + if last.status.Unknown? then [PrerequisiteObligation(action, last.prerequisite)] else []
  }

  function UnknownSteps(steps: seq<SimulatedStep>): seq<Obligation> {
    if steps == [] then []
    else UnknownSteps(steps[..|steps| - 1]) + UnknownChecks(steps[|steps| - 1].action, steps[|steps| - 1].checks)
  }

  function UnknownGoals(checks: seq<GoalCheck>): seq<Obligation> {
    if checks == [] then []
    else
      var last := checks[|checks| - 1];
      UnknownGoals(checks[..|checks| - 1]) + if last.status.GoalUnknown? then [GoalObligation(last.aspect)] else []
  }

  ghost predicate NoUnknown(checks: seq<PrerequisiteCheck>) {
    forall i :: 0 <= i < |checks| ==> !checks[i].status.Unknown?
  }

  lemma {:induction false} ChecksOweNothing(action: nat, checks: seq<PrerequisiteCheck>)
    ensures UnknownChecks(action, checks) == [] <==> NoUnknown(checks)
  {
    if checks != [] {
      var init := checks[..|checks| - 1];
      ChecksOweNothing(action, init);
      assert NoUnknown(checks) <==> NoUnknown(init) && !checks[|init|].status.Unknown? by {
        assert checks == init + [checks[|init|]];
      }
    }
  }

  lemma {:induction false} StepsOweNothing(steps: seq<SimulatedStep>)
    ensures UnknownSteps(steps) == [] <==> forall j :: 0 <= j < |steps| ==> NoUnknown(steps[j].checks)
  {
    if steps != [] {
      var init, last := steps[..|steps| - 1], steps[|steps| - 1];
      StepsOweNothing(init);
      ChecksOweNothing(last.action, last.checks);
      assert steps == init + [last];
      assert forall j :: 0 <= j < |init| ==> steps[j] == init[j];
    }
  }

  /** Exactly the unknown conditions are owed, each by the action whose check it is. */
  lemma {:induction false} ChecksOwe(action: nat, checks: seq<PrerequisiteCheck>, o: Obligation)
    ensures o in UnknownChecks(action, checks)
            <==> exists i :: 0 <= i < |checks| && checks[i].status == Unknown
                             && o == PrerequisiteObligation(action, checks[i].prerequisite)
  {
    if checks != [] {
      ChecksOwe(action, checks[..|checks| - 1], o);
      assert checks == checks[..|checks| - 1] + [checks[|checks| - 1]];
    }
  }

  ghost predicate OwedBy(step: SimulatedStep, o: Obligation) {
    exists i :: 0 <= i < |step.checks| && step.checks[i].status == Unknown
                && o == PrerequisiteObligation(step.action, step.checks[i].prerequisite)
  }

  lemma {:induction false} StepsOwe(steps: seq<SimulatedStep>, o: Obligation)
    ensures o in UnknownSteps(steps) <==> exists j :: 0 <= j < |steps| && OwedBy(steps[j], o)
  {
    if steps != [] {
      var init, last := steps[..|steps| - 1], steps[|steps| - 1];
      StepsOwe(init, o);
      ChecksOwe(last.action, last.checks, o);
      assert steps == init + [last];
      assert forall j :: 0 <= j < |init| ==> steps[j] == init[j];
    }
  }

  lemma {:induction false} GoalsOwe(checks: seq<GoalCheck>, o: Obligation)
    ensures o in UnknownGoals(checks)
            <==> exists i :: 0 <= i < |checks| && checks[i].status == GoalUnknown
                             && o == GoalObligation(checks[i].aspect)
  {
    if checks != [] {
      GoalsOwe(checks[..|checks| - 1], o);
      assert checks == checks[..|checks| - 1] + [checks[|checks| - 1]];
    }
  }

  /** A condition of the plan that its own step's state leaves open. */
  ghost predicate LeftOpen(cat: Catalogue, plan: ExecutionPlan, order: seq<nat>, states: seq<Simulation>, j: nat,
                           o: Obligation)
  {
    && j < |order| && j < |states| && order[j] < |plan.actions|
    && var conditions := cat.describe(plan.actions[order[j]].operation, states[j].desired.graph).prerequisites;
    exists i :: 0 <= i < |conditions| && EvaluatePrerequisite(states[j], conditions[i]) == Unknown
                && o == PrerequisiteObligation(order[j], conditions[i])
  }

  /** The obligations of a replay are the open conditions of its steps, no more and no fewer. */
  lemma ObligationsExact(cat: Catalogue, plan: ExecutionPlan, order: seq<nat>, states: seq<Simulation>,
                         result: ReplayResult, o: Obligation)
    requires IsReplayOutcome(cat, plan, order, states, result)
    ensures o in UnknownSteps(result.steps) <==> exists j: nat :: LeftOpen(cat, plan, order, states, j, o)
  {
    StepsOwe(result.steps, o);
    forall j: nat | j < |order|
      ensures OwedBy(result.steps[j], o) <==> LeftOpen(cat, plan, order, states, j, o)
    {
      assert StepReported(cat, plan, order, states, result.trusted.actions, result.steps, j);
    }
  }

  lemma {:induction false} MetGoalsOweNothing(checks: seq<GoalCheck>)
    requires AllMet(checks)
    ensures UnknownGoals(checks) == []
  {
    if checks != [] {
      MetGoalsOweNothing(checks[..|checks| - 1]);
    }
  }

  method CollectObligations(steps: seq<SimulatedStep>) returns (obligations: seq<Obligation>)
    ensures obligations == UnknownSteps(steps)
  {
    obligations := [];
    for i := 0 to |steps|
      invariant obligations == UnknownSteps(steps[..i])
    {
      var step := steps[i];
      for j := 0 to |step.checks|
        invariant obligations == UnknownSteps(steps[..i]) + UnknownChecks(step.action, step.checks[..j])
      {
        assert step.checks[..j + 1][..j] == step.checks[..j];
        if step.checks[j].status.Unknown? {
          obligations := obligations + [PrerequisiteObligation(step.action, step.checks[j].prerequisite)];
        }
      }
      assert step.checks[..|step.checks|] == step.checks;
      assert steps[..i + 1][..i] == steps[..i];
    }
    assert steps[..|steps|] == steps;
  }

  method CollectGoalObligations(obligations: seq<Obligation>, checks: seq<GoalCheck>) returns (all: seq<Obligation>)
    ensures all == obligations + UnknownGoals(checks)
  {
    all := obligations;
    for i := 0 to |checks|
      invariant all == obligations + UnknownGoals(checks[..i])
    {
      assert checks[..i + 1][..i] == checks[..i];
      if checks[i].status.GoalUnknown? {
        all := all + [GoalObligation(checks[i].aspect)];
      }
    }
    assert checks[..|checks|] == checks;
  }

  // ---------------------------------------------------------------------------
  // Completeness

  /** Every condition of every recalculated contract is satisfied in its own predecessor state. */
  ghost predicate EveryPrerequisiteHolds(cat: Catalogue, plan: ExecutionPlan, order: seq<nat>,
                                         states: seq<Simulation>)
  {
    forall j :: 0 <= j < |order| && j < |states| ==> PrerequisitesHold(cat, plan, order[j], states[j])
  }

  ghost predicate PrerequisitesHold(cat: Catalogue, plan: ExecutionPlan, a: nat, s: Simulation) {
    && a < |plan.actions|
    && var conditions := cat.describe(plan.actions[a].operation, s.desired.graph).prerequisites;
    forall i :: 0 <= i < |conditions| ==> EvaluatePrerequisite(s, conditions[i]).Satisfied?
  }

  /** Without obligations every check is satisfied, because violated ones stop the replay. */
  lemma NoObligationsMeansSatisfied(cat: Catalogue, plan: ExecutionPlan, order: seq<nat>, states: seq<Simulation>,
                                    result: ReplayResult)
    requires IsReplayOutcome(cat, plan, order, states, result)
    ensures UnknownSteps(result.steps) == [] <==> EveryPrerequisiteHolds(cat, plan, order, states)
  {
    StepsOweNothing(result.steps);
    forall j | 0 <= j < |order|
      ensures NoUnknown(result.steps[j].checks) <==> PrerequisitesHold(cat, plan, order[j], states[j])
    {
      assert StepReported(cat, plan, order, states, result.trusted.actions, result.steps, j);
      StepHoldsIff(cat, plan, order[j], states[j], result.steps[j].checks);
    }
  }

  lemma StepHoldsIff(cat: Catalogue, plan: ExecutionPlan, a: nat, s: Simulation, checks: seq<PrerequisiteCheck>)
    requires a < |plan.actions| && !AnyViolated(checks)
    requires checks == EvaluatePrerequisites(s, cat.describe(plan.actions[a].operation, s.desired.graph).prerequisites)
    ensures NoUnknown(checks) <==> PrerequisitesHold(cat, plan, a, s)
  {
    var conditions := cat.describe(plan.actions[a].operation, s.desired.graph).prerequisites;
    forall i | 0 <= i < |conditions|
      ensures !checks[i].status.Unknown? <==> EvaluatePrerequisite(s, conditions[i]).Satisfied?
    {
      assert !checks[i].status.Violated?;
    }
  }

  ghost predicate OriginsKnown(plan: ExecutionPlan, intents: nat) {
    forall i :: 0 <= i < |plan.actions| && plan.actions[i].origin.Some? ==> plan.actions[i].origin.value < intents
  }

  method CheckOrigins(plan: ExecutionPlan, intents: nat) returns (unknown: Option<(nat, nat)>)
    ensures unknown.None? <==> OriginsKnown(plan, intents)
    ensures unknown.Some? ==>
      exists i :: 0 <= i < |plan.actions| && plan.actions[i].id == unknown.value.0
                  && plan.actions[i].origin == Some(unknown.value.1) && unknown.value.1 >= intents
  {
    for i := 0 to |plan.actions|
      invariant forall j :: 0 <= j < i && plan.actions[j].origin.Some? ==> plan.actions[j].origin.value < intents
    {
      var origin := plan.actions[i].origin;
      if origin.Some? && origin.value >= intents {
        return Some((plan.actions[i].id, origin.value));
      }
    }
    unknown := None;
  }

  /** The actions attributed to one intent, in the given order. */
  function AttributedTo(ordered: seq<PlannedAction>, index: nat): seq<PlannedAction> {
    if ordered == [] then []
    else
      var last := ordered[|ordered| - 1];
      AttributedTo(ordered[..|ordered| - 1], index) + if last.origin == Some(index) then [last] else []
  }

  ghost predicate StandsBefore(order: seq<nat>, a: nat, b: nat) {
    exists i, j :: 0 <= i < j < |order| && order[i] == a && order[j] == b
  }

  /** Exactly the actions whose origin is this intent, listed as the plan runs them. */
  ghost predicate IsAttribution(plan: ExecutionPlan, order: seq<nat>, index: nat, ids: seq<nat>) {
    && (forall a: nat :: a in ids <==> a in order && a < |plan.actions| && plan.actions[a].origin == Some(index))
    && forall i, j :: 0 <= i < j < |ids| ==> StandsBefore(order, ids[i], ids[j])
  }

  ghost predicate CoverageReported(plan: ExecutionPlan, order: seq<nat>, review: Review, k: nat,
                                   coverage: IntentCoverage)
  {
    && coverage.index == k
    && IsAttribution(plan, order, k, coverage.actions)
    && (forall i :: 0 <= i < |coverage.actions| ==> coverage.actions[i] < |plan.actions|)
    && coverage.covered == review.covers(k, Operations(plan, coverage.actions))
  }

  lemma StandsBeforeGrows(order: seq<nat>, last: nat, a: nat, b: nat)
    ensures StandsBefore(order, a, b) ==> StandsBefore(order + [last], a, b)
    ensures a in order && b == last ==> StandsBefore(order + [last], a, b)
  {
    var all := order + [last];
    if StandsBefore(order, a, b) {
      var i, j :| 0 <= i < j < |order| && order[i] == a && order[j] == b;
      assert all[i] == a && all[j] == b;
    }
    if a in order && b == last {
      var i :| 0 <= i < |order| && order[i] == a;
      assert all[i] == a && all[|order|] == b;
    }
  }

  /** The attributed actions are planned ones and their identities form the attribution. */
  lemma {:induction false} AttributionListed(plan: ExecutionPlan, order: seq<nat>, ordered: seq<PlannedAction>,
                                             index: nat, ids: seq<nat>)
    requires |order| == |ordered|
    requires forall i :: 0 <= i < |order| ==>
      order[i] < |plan.actions| && ordered[i] == plan.actions[order[i]] && ordered[i].id == order[i]
    requires var found := AttributedTo(ordered, index);
      |ids| == |found| && forall i :: 0 <= i < |ids| ==> ids[i] == found[i].id
    ensures IsAttribution(plan, order, index, ids)
    ensures forall i :: 0 <= i < |ids| ==>
      ids[i] < |plan.actions| && AttributedTo(ordered, index)[i] == plan.actions[ids[i]]
    decreases |order|
  {
    if order != [] {
      var front, last := order[..|order| - 1], order[|order| - 1];
      var init := ordered[..|ordered| - 1];
      var found := AttributedTo(init, index);
      var before := ids[..|found|];
      AttributionListed(plan, front, init, index, before);
      assert order == front + [last];
      if plan.actions[last].origin == Some(index) {
        assert ids == before + [last];
      } else {
        assert ids == before;
      }
      forall i, j | 0 <= i < j < |ids| ensures StandsBefore(order, ids[i], ids[j]) {
        StandsBeforeGrows(front, last, ids[i], ids[j]);
        assert j < |before| ==> StandsBefore(front, before[i], before[j]);
        assert before[i] in before;
      }
    }
  }

  method CoverIntent(plan: ExecutionPlan, review: Review, ordered: seq<PlannedAction>, k: nat, ghost order: seq<nat>)
    returns (coverage: IntentCoverage)
    requires |order| == |ordered|
    requires forall i :: 0 <= i < |order| ==>
      order[i] < |plan.actions| && ordered[i] == plan.actions[order[i]] && ordered[i].id == order[i]
    ensures CoverageReported(plan, order, review, k, coverage)
  {
    var found := AttributedTo(ordered, k);
    var ids := seq(|found|, i requires 0 <= i < |found| => found[i].id);
    var operations := seq(|found|, i requires 0 <= i < |found| => found[i].operation);
    AttributionListed(plan, order, ordered, k, ids);
    assert operations == Operations(plan, ids);
    coverage := IntentCoverage(k, review.covers(k, operations), ids);
  }

  ghost predicate AllReported(plan: ExecutionPlan, order: seq<nat>, review: Review, coverage: seq<IntentCoverage>) {
    && |coverage| == review.intents
    && forall k: nat :: k < |coverage| ==> CoverageReported(plan, order, review, k, coverage[k])
  }

  method CoverIntents(plan: ExecutionPlan, review: Review, ghost order: seq<nat>)
    returns (coverage: seq<IntentCoverage>)
    requires IsFrozen(plan) && IsPlanOrder(plan, order)
    ensures AllReported(plan, order, review, coverage)
  {
    var ordered, again := OrderedActions(plan);
    SameOrder(plan, order, again);
    coverage := [];
    for k := 0 to review.intents
      invariant |coverage| == k
      invariant forall i: nat :: i < k ==> CoverageReported(plan, order, review, i, coverage[i])
    {
      var next := CoverIntent(plan, review, ordered, k, order);
      coverage := coverage + [next];
    }
  }

  /** What an analysis without a goal establishes about the replayed plan. */
  ghost predicate IsAnalysis(
    cat: Catalogue, plan: ExecutionPlan, start: Simulation, review: Review, order: seq<nat>, states: seq<Simulation>,
    report: SimulationReport)
  {
    && ReplaysFully(cat, plan, start, order, states)
    && IsReplayOutcome(cat, plan, order, states, report.replay)
    && report.violations == review.violations(report.replay)
    && AllReported(plan, order, review, report.coverage)
  }

  /** Replays the plan and lists what its own prerequisites leave unknown. */
  method AnalysePlan(cat: Catalogue, current: CurrentState, plan: ExecutionPlan, capacity: seq<CapacityEvidence>,
                     review: Review)
    returns (r: Result<SimulationReport, AnalysisError>, ghost order: seq<nat>, ghost states: seq<Simulation>)
    requires IsFrozen(plan)
    ensures r == Err(InvalidProtectedMount) <==> !review.scopeValid
    ensures r.Err? && r.error.UnknownIntentOrigin? <==> review.scopeValid && !OriginsKnown(plan, review.intents)
    ensures r != Err(GoalStructure)
    ensures r.Ok? ==> IsAnalysis(cat, plan, InitialState(current, capacity), review, order, states, r.value)
    ensures r.Ok? ==> r.value.goalChecks == [] && r.value.obligations == UnknownSteps(r.value.replay.steps)
    ensures r.Ok? ==> (r.value.obligations == [] <==> EveryPrerequisiteHolds(cat, plan, order, states))
  {
    order, states := [], [];
    if !review.scopeValid {
      return Err(InvalidProtectedMount), order, states;
    }
    var unknown := CheckOrigins(plan, review.intents);
    if unknown.Some? {
      return Err(UnknownIntentOrigin(unknown.value.0, unknown.value.1)), order, states;
    }
    var replayed;
    replayed, order, states := ReplayPlan(cat, current, plan, capacity);
    if replayed.Err? {
      return Err(ReplayFailed(replayed.error)), order, states;
    }
    var coverage := CoverIntents(plan, review, order);
    var owed := CollectObligations(replayed.value.steps);
    NoObligationsMeansSatisfied(cat, plan, order, states, replayed.value);
    r := Ok(SimulationReport(replayed.value, [], coverage, owed, review.violations(replayed.value)));
  }

  /**
   Replays the plan, compares the goal and lists what remains unknown.  A report is
   complete exactly when every prerequisite of every step is satisfied in the state
   that step starts from, the final state meets the goal, every intent is covered
   and nothing protected is touched.
   */
  method SimulateForGoal(
    cat: Catalogue, current: CurrentState, plan: ExecutionPlan, goal: DesiredState, capacity: seq<CapacityEvidence>,
    review: Review)
    returns (r: Result<SimulationReport, AnalysisError>, ghost order: seq<nat>, ghost states: seq<Simulation>)
    requires IsFrozen(plan)
    ensures r == Err(GoalStructure) <==> !cat.structure(goal.graph)
    ensures r == Err(InvalidProtectedMount) <==> cat.structure(goal.graph) && !review.scopeValid
    ensures (r.Err? && r.error.UnknownIntentOrigin?)
            <==> cat.structure(goal.graph) && review.scopeValid && !OriginsKnown(plan, review.intents)
    ensures r.Ok? ==> IsAnalysis(cat, plan, InitialState(current, capacity), review, order, states, r.value)
    ensures r.Ok? ==> ReportsGoal(r.value.replay.final, goal, r.value.goalChecks)
    ensures r.Ok? ==> forall o: Obligation ::
      o in r.value.obligations <==>
        || (exists j: nat :: LeftOpen(cat, plan, order, states, j, o))
        || exists i :: 0 <= i < |r.value.goalChecks| && r.value.goalChecks[i].status == GoalUnknown
                       && o == GoalObligation(r.value.goalChecks[i].aspect)
    ensures r.Ok? ==>
      (IsComplete(r.value) <==>
        && EveryPrerequisiteHolds(cat, plan, order, states)
        && MeetsGoal(r.value.replay.final, goal)
        && (forall i :: 0 <= i < |r.value.coverage| ==> r.value.coverage[i].covered)
        && review.violations(r.value.replay) == [])
  {
    order, states := [], [];
    if !cat.structure(goal.graph) {
      return Err(GoalStructure), order, states;
    }
    r, order, states := AnalysePlan(cat, current, plan, capacity, review);
    if r.Err? {
      return;
    }
    var checks := CompareGoal(r.value.replay.final, goal);
    var all := CollectGoalObligations(r.value.obligations, checks);
    if AllMet(checks) {
      MetGoalsOweNothing(checks);
    }
    forall o: Obligation
      ensures o in r.value.obligations <==> exists j: nat :: LeftOpen(cat, plan, order, states, j, o)
      ensures o in UnknownGoals(checks)
              <==> exists i :: 0 <= i < |checks| && checks[i].status == GoalUnknown
                               && o == GoalObligation(checks[i].aspect)
    {
      ObligationsExact(cat, plan, order, states, r.value.replay, o);
      GoalsOwe(checks, o);
    }
    r := Ok(r.value.(goalChecks := checks, obligations := all));
  }

  lemma SameOrder(plan: ExecutionPlan, a: seq<nat>, b: seq<nat>)
    requires IsPlanOrder(plan, a) && IsPlanOrder(plan, b)
    ensures a == b
    ensures |a| == |plan.actions| && forall i :: 0 <= i < |a| ==> a[i] < |plan.actions|
  {
    PlanOrderInRange(plan, a);
    TopologicalSort.LeastOrderUnique(|plan.actions|, plan.dependencies, a, b);
  }
}
