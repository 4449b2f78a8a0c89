/** Replay of a frozen plan through the shared interpreter. */
module Replay {
  import opened Wrappers
  import opened Dag
  import opened TopologicalSort
  import opened StorageModel
  import opened Prerequisites
  import opened Evidence
  import opened Effects
  import opened Traces
  import opened Plan

  datatype ReplayError =
    | BaselineStructure
    | DuplicateCapacity(domain: AllocationDomain)
    | ContractMismatch(action: nat)
    | ActionFailed(action: nat, error: ActionError)

  datatype SimulatedStep = SimulatedStep(action: nat, checks: seq<PrerequisiteCheck>, facts: set<FactInvalidation>)

  datatype ReplayResult = ReplayResult(trusted: ExecutionPlan, final: Simulation, steps: seq<SimulatedStep>)

  /** The stored contract equals the recalculated one, literally or canonically. */
  predicate AcceptsContract(cat: Catalogue, action: PlannedAction, graph: NodeGraph) {
    var trusted := cat.describe(action.operation, graph);
    || trusted == action.contract
    || (cat.canonical(trusted).Some? && cat.canonical(trusted) == cat.canonical(action.contract))
  }

  /** A stored contract says what the recalculated one says, word for word or in one canonical form. */
  ghost predicate Agrees(cat: Catalogue, stored: ActionContract, trusted: ActionContract) {
    || stored == trusted
    || exists form :: cat.canonical(stored) == Some(form) && cat.canonical(trusted) == Some(form)
  }

  /** The action's stored contract agrees with its description in this graph. */
  ghost predicate StaysTrue(cat: Catalogue, action: PlannedAction, graph: NodeGraph) {
    Agrees(cat, action.contract, cat.describe(action.operation, graph))
  }

  ghost function InitialState(current: CurrentState, capacity: seq<CapacityEvidence>): Simulation {
    Simulation(FromCurrent(current), InitialEvidence(capacity))
  }

  /** The operations of the plan in a given order of its actions. */
  ghost function Operations(plan: ExecutionPlan, order: seq<nat>): seq<ProviderAction>
    requires forall i :: 0 <= i < |order| ==> order[i] < |plan.actions|
  {
    seq(|order|, i requires 0 <= i < |order| => plan.actions[order[i]].operation)
  }

  /** The first |states|-1 actions replay from `start`, each with a contract that agrees. */
  ghost predicate ReplaysUpTo(cat: Catalogue, plan: ExecutionPlan, start: Simulation, order: seq<nat>,
                              states: seq<Simulation>)
  {
    && IsPlanOrder(plan, order)
    && 0 < |states| <= |order| + 1
    && states[0] == start
    && forall i :: 0 <= i < |states| - 1 ==> ReplaysAt(cat, plan, order, states, i)
  }

  ghost predicate ReplaysAt(cat: Catalogue, plan: ExecutionPlan, order: seq<nat>, states: seq<Simulation>, i: nat)
    requires i < |states| - 1 <= |order|
  {
    && order[i] < |plan.actions|
    && StaysTrue(cat, plan.actions[order[i]], states[i].desired.graph)
    && Leads(cat, states[i], plan.actions[order[i]].operation, states[i + 1])
  }

  ghost predicate ReplaysFully(cat: Catalogue, plan: ExecutionPlan, start: Simulation, order: seq<nat>,
                               states: seq<Simulation>)
  {
    ReplaysUpTo(cat, plan, start, order, states) && |states| == |order| + 1
  }

  /** The whole plan replays from the baseline and recalculates exactly its stored contracts. */
  ghost predicate ReplaysExactly(cat: Catalogue, plan: ExecutionPlan, current: CurrentState,
                                 capacity: seq<CapacityEvidence>)
  {
    && cat.structure(current.graph) && DistinctDomains(capacity)
    && exists order, states ::
         && ReplaysFully(cat, plan, InitialState(current, capacity), order, states)
         && StoresContracts(cat, plan, order, states)
  }

  ghost predicate StoresContracts(cat: Catalogue, plan: ExecutionPlan, order: seq<nat>, states: seq<Simulation>)
    requires |states| == |order| + 1
  {
    forall i :: 0 <= i < |order| ==>
      && order[i] < |plan.actions|
      && plan.actions[order[i]].contract == cat.describe(plan.actions[order[i]].operation, states[i].desired.graph)
  }

  /** A replay is determined by plan and start: any two agree as far as both go. */
  lemma {:induction false} ReplayDeterministic(cat: Catalogue, plan: ExecutionPlan, start: Simulation,
                                               order: seq<nat>, states: seq<Simulation>, order': seq<nat>,
                                               states': seq<Simulation>, k: nat)
    requires ReplaysUpTo(cat, plan, start, order, states) && ReplaysUpTo(cat, plan, start, order', states')
    requires k < |states| && k < |states'|
    ensures order == order' && states[k] == states'[k]
    decreases k
  {
    LeastOrderUnique(|plan.actions|, plan.dependencies, order, order');
    if k > 0 {
      ReplayDeterministic(cat, plan, start, order, states, order', states', k - 1);
      assert ReplaysAt(cat, plan, order, states, k - 1) && ReplaysAt(cat, plan, order', states', k - 1);
    }
  }

  /** A full replay is a trace, so every whole-trace theorem applies to it. */
  lemma FullReplayIsTrace(cat: Catalogue, plan: ExecutionPlan, start: Simulation, order: seq<nat>,
                          states: seq<Simulation>)
    requires ReplaysFully(cat, plan, start, order, states)
    ensures forall i :: 0 <= i < |order| ==> order[i] < |plan.actions|
    ensures IsTrace(cat, states, Operations(plan, order))
  {
    PlanOrderInRange(plan, order);
    forall i | 0 <= i < |order| ensures StepsAt(cat, states, Operations(plan, order), i) {
      assert ReplaysAt(cat, plan, order, states, i);
    }
  }

  /**
   After the states replayed so far the next action in plan order cannot follow: its
   stored contract disagrees, or it agrees and the action itself is refused.
   */
  ghost predicate StopsWith(cat: Catalogue, plan: ExecutionPlan, start: Simulation, order: seq<nat>,
                            states: seq<Simulation>, error: ReplayError)
  {
    && ReplaysUpTo(cat, plan, start, order, states) && |states| <= |order| && order[|states| - 1] < |plan.actions|
    && var action := plan.actions[order[|states| - 1]];
    && var s := states[|states| - 1];
    match error
    case ContractMismatch(a) => a == order[|states| - 1] && !StaysTrue(cat, action, s.desired.graph)
    case ActionFailed(a, reason) =>
      && a == order[|states| - 1] && StaysTrue(cat, action, s.desired.graph)
      && Step(cat, s, action.operation) == Err(reason)
    case _ => false
  }

  /** A position that some replay gets past stops no replay. */
  lemma PassedIsNotStuck(cat: Catalogue, plan: ExecutionPlan, start: Simulation, order: seq<nat>,
                         states: seq<Simulation>, further: seq<Simulation>, error: ReplayError)
    requires ReplaysUpTo(cat, plan, start, order, further) && 0 < |states| < |further|
    requires states[|states| - 1] == further[|states| - 1]
    ensures !StopsWith(cat, plan, start, order, states, error)
  {
    assert ReplaysAt(cat, plan, order, further, |states| - 1);
  }

  /** No replay of the plan goes further than one that stops. */
  lemma StopIsLast(cat: Catalogue, plan: ExecutionPlan, start: Simulation, order: seq<nat>, states: seq<Simulation>,
                   error: ReplayError, order': seq<nat>, states': seq<Simulation>)
    requires StopsWith(cat, plan, start, order, states, error) && ReplaysUpTo(cat, plan, start, order', states')
    ensures |states'| <= |states|
  {
    if |states| < |states'| {
      ReplayDeterministic(cat, plan, start, order, states, order', states', |states| - 1);
      PassedIsNotStuck(cat, plan, start, order, states, states', error);
    }
  }

  /** A replay stops at one place for one reason. */
  lemma StopIsUnique(cat: Catalogue, plan: ExecutionPlan, start: Simulation, order: seq<nat>,
                     states: seq<Simulation>, error: ReplayError, order': seq<nat>, states': seq<Simulation>,
                     error': ReplayError)
    requires StopsWith(cat, plan, start, order, states, error) && StopsWith(cat, plan, start, order', states', error')
    ensures error == error'
  {
    StopIsLast(cat, plan, start, order, states, error, order', states');
    StopIsLast(cat, plan, start, order', states', error', order, states);
    ReplayDeterministic(cat, plan, start, order, states, order', states', |states| - 1);
  }

  /** The first action in plan order that cannot follow the earlier ones is stopped for this reason. */
  ghost predicate IsReplayError(cat: Catalogue, plan: ExecutionPlan, start: Simulation, error: ReplayError) {
    exists order, states :: StopsWith(cat, plan, start, order, states, error)
  }

  /** How far one replay got decides which error there is, if any. */
  lemma ReplayErrorsExact(cat: Catalogue, plan: ExecutionPlan, start: Simulation, order: seq<nat>,
                          states: seq<Simulation>, stopped: Option<ReplayError>)
    requires stopped.None? ==> ReplaysFully(cat, plan, start, order, states)
    requires stopped.Some? ==> StopsWith(cat, plan, start, order, states, stopped.value)
    ensures forall error: ReplayError :: IsReplayError(cat, plan, start, error) <==> stopped == Some(error)
  {
    forall error: ReplayError ensures IsReplayError(cat, plan, start, error) <==> stopped == Some(error) {
      if order', states' :| StopsWith(cat, plan, start, order', states', error) {
        if stopped.None? {
          LeastOrderUnique(|plan.actions|, plan.dependencies, order, order');
          StopIsLast(cat, plan, start, order', states', error, order, states);
        } else {
          StopIsUnique(cat, plan, start, order, states, stopped.value, order', states', error);
        }
      }
    }
  }

  /**
   Steps through the plan order; every contract in the result is a recalculated one.
   The ghost results name the order followed and the predecessor state of each step.
   */
  method ReplayPlan(cat: Catalogue, current: CurrentState, plan: ExecutionPlan, capacity: seq<CapacityEvidence>)
    returns (r: Result<ReplayResult, ReplayError>, ghost order: seq<nat>, ghost states: seq<Simulation>)
    requires IsFrozen(plan)
    ensures r == Err(BaselineStructure) <==> !cat.structure(current.graph)
    ensures r.Err? && r.error.DuplicateCapacity? <==> cat.structure(current.graph) && !DistinctDomains(capacity)
    ensures cat.structure(current.graph) && DistinctDomains(capacity)
            ==> ReplaysUpTo(cat, plan, InitialState(current, capacity), order, states)
    ensures r.Ok? ==> ReplaysFully(cat, plan, InitialState(current, capacity), order, states)
                      && IsReplayOutcome(cat, plan, order, states, r.value)
    ensures r.Err? && (r.error.ContractMismatch? || r.error.ActionFailed?) ==>
      StopsWith(cat, plan, InitialState(current, capacity), order, states, r.error)
    ensures cat.structure(current.graph) && DistinctDomains(capacity) ==>
      forall error: ReplayError :: IsReplayError(cat, plan, InitialState(current, capacity), error) <==> r == Err(error)
  {
    order, states := [], [];
    if !cat.structure(current.graph) {
      return Err(BaselineStructure), order, states;
    }
    var ledger := NewEvidence(capacity);
    if ledger.Err? {
      return Err(DuplicateCapacity(ledger.error)), order, states;
    }
    var actions, o := OrderedActions(plan);
    order := o;
    var projection := new Projection(Simulation(FromCurrent(current), ledger.value));
    states := [projection.State()];
    var trusted := plan.actions;
    var steps: seq<SimulatedStep> := [];
    for i := 0 to |actions|
      invariant order == o
      invariant fresh(projection)
      invariant |states| == i + 1 && states[i] == projection.State()
      invariant ReplaysUpTo(cat, plan, InitialState(current, capacity), order, states)
      invariant StepsReported(cat, plan, order, states, trusted, steps, i)
    {
      var action := actions[i];
      if !AcceptsContract(cat, action, projection.desired.graph) {
        assert !StaysTrue(cat, plan.actions[order[i]], states[i].desired.graph);
        ReplayErrorsExact(cat, plan, InitialState(current, capacity), order, states, Some(ContractMismatch(action.id)));
        return Err(ContractMismatch(action.id)), order, states;
      }
      var result := projection.SimulateAction(cat, action.operation);
      if result.Err? {
        ReplayErrorsExact(cat, plan, InitialState(current, capacity), order, states,
                          Some(ActionFailed(action.id, result.error)));
        return Err(ActionFailed(action.id, result.error)), order, states;
      }
      var step := SimulatedStep(action.id, result.value.checks, result.value.facts);
      ReplaysExtend(cat, plan, InitialState(current, capacity), order, states, projection.State());
      ReportExtend(cat, plan, order, states, projection.State(), trusted, steps, result.value.contract, step);
      states := states + [projection.State()];
      trusted := trusted[action.id := action.(contract := result.value.contract)];
      steps := steps + [step];
    }
    ReplayErrorsExact(cat, plan, InitialState(current, capacity), order, states, None);
    r := Ok(ReplayResult(ExecutionPlan(trusted, plan.dependencies),
                         Simulation(projection.desired, projection.evidence), steps));
  }

  lemma ReplaysExtend(cat: Catalogue, plan: ExecutionPlan, start: Simulation, order: seq<nat>, states: seq<Simulation>,
                      next: Simulation)
    requires ReplaysUpTo(cat, plan, start, order, states) && |states| <= |order|
    requires order[|states| - 1] < |plan.actions|
    requires StaysTrue(cat, plan.actions[order[|states| - 1]], states[|states| - 1].desired.graph)
    requires Leads(cat, states[|states| - 1], plan.actions[order[|states| - 1]].operation, next)
    ensures ReplaysUpTo(cat, plan, start, order, states + [next])
  {
    var all := states + [next];
    forall j | 0 <= j < |all| - 1 ensures ReplaysAt(cat, plan, order, all, j) {
      if j < |states| - 1 {
        assert ReplaysAt(cat, plan, order, states, j);
      }
    }
  }

  lemma ReportExtend(cat: Catalogue, plan: ExecutionPlan, order: seq<nat>, states: seq<Simulation>, next: Simulation,
                     trusted: seq<PlannedAction>, steps: seq<SimulatedStep>, contract: ActionContract,
                     step: SimulatedStep)
    requires IsPlanOrder(plan, order) && |states| == |steps| + 1 <= |order|
    requires StepsReported(cat, plan, order, states, trusted, steps, |steps|)
    requires order[|steps|] < |plan.actions|
    requires contract == cat.describe(plan.actions[order[|steps|]].operation, states[|steps|].desired.graph)
    requires step.action == order[|steps|] && !AnyViolated(step.checks)
    requires step.checks == EvaluatePrerequisites(states[|steps|], contract.prerequisites)
    requires step.facts == ExpandedFacts(states[|steps|].desired.graph, contract.invalidations)
    ensures StepsReported(cat, plan, order, states + [next],
                          trusted[order[|steps|] := plan.actions[order[|steps|]].(contract := contract)],
                          steps + [step], |steps| + 1)
  {
    PlanOrderInRange(plan, order);
    var trusted' := trusted[order[|steps|] := plan.actions[order[|steps|]].(contract := contract)];
    forall j: nat | j < |steps| + 1
      ensures StepReported(cat, plan, order, states + [next], trusted', steps + [step], j)
    {
      if j < |steps| {
        assert StepReported(cat, plan, order, states, trusted, steps, j);
      }
    }
  }

  /** What the report says about step j: the recalculated contract, its predecessor checks and stale facts. */
  ghost predicate StepReported(cat: Catalogue, plan: ExecutionPlan, order: seq<nat>, states: seq<Simulation>,
                               trusted: seq<PlannedAction>, steps: seq<SimulatedStep>, j: nat)
  {
    && j < |order| && j < |states| && j < |steps| && order[j] < |plan.actions| == |trusted|
    && var contract := cat.describe(plan.actions[order[j]].operation, states[j].desired.graph);
    && trusted[order[j]] == plan.actions[order[j]].(contract := contract)
    && steps[j].action == order[j]
    && steps[j].checks == EvaluatePrerequisites(states[j], contract.prerequisites)
    && !AnyViolated(steps[j].checks)
    && steps[j].facts == ExpandedFacts(states[j].desired.graph, contract.invalidations)
  }

  ghost predicate StepsReported(cat: Catalogue, plan: ExecutionPlan, order: seq<nat>, states: seq<Simulation>,
                                trusted: seq<PlannedAction>, steps: seq<SimulatedStep>, k: nat)
  {
    && |trusted| == |plan.actions| && |steps| == k
    && forall j: nat :: j < k ==> StepReported(cat, plan, order, states, trusted, steps, j)
  }

  ghost predicate IsReplayOutcome(cat: Catalogue, plan: ExecutionPlan, order: seq<nat>, states: seq<Simulation>,
                                  result: ReplayResult)
  {
    && |states| == |order| + 1
    && result.final == states[|order|]
    && result.trusted.dependencies == plan.dependencies
    && StepsReported(cat, plan, order, states, result.trusted.actions, result.steps, |order|)
  }

  /** A plan known to replay exactly does so: no error, no mismatch, its own contracts back. */
  method ReplayExact(cat: Catalogue, current: CurrentState, plan: ExecutionPlan, capacity: seq<CapacityEvidence>)
    returns (r: Result<ReplayResult, ReplayError>)
    requires IsFrozen(plan) && ReplaysExactly(cat, plan, current, capacity)
    ensures r.Ok? && r.value.trusted == plan
  {
    ghost var start := InitialState(current, capacity);
    ghost var order, states :|
      ReplaysFully(cat, plan, start, order, states) && StoresContracts(cat, plan, order, states);
    ghost var order', states';
    r, order', states' := ReplayPlan(cat, current, plan, capacity);
    ghost var last := |states'| - 1;
    ReplayDeterministic(cat, plan, start, order, states, order', states', last);
    assert last < |order| ==> ReplaysAt(cat, plan, order, states, last);
    ExactReplayReturnsPlan(cat, plan, start, order, states, states', r.value);
  }

  lemma ExactReplayReturnsPlan(cat: Catalogue, plan: ExecutionPlan, start: Simulation, order: seq<nat>,
                               states: seq<Simulation>, states': seq<Simulation>, result: ReplayResult)
    requires ReplaysFully(cat, plan, start, order, states) && StoresContracts(cat, plan, order, states)
    requires ReplaysFully(cat, plan, start, order, states') && IsReplayOutcome(cat, plan, order, states', result)
    ensures result.trusted == plan
  {
    PlanOrderInRange(plan, order);
    PermutationCovers(|plan.actions|, order);
    forall a: nat | a < |plan.actions| ensures result.trusted.actions[a] == plan.actions[a] {
      assert a in order;
      var j :| 0 <= j < |order| && order[j] == a;
      ReplayDeterministic(cat, plan, start, order, states, order, states', j);
      assert StepReported(cat, plan, order, states', result.trusted.actions, result.steps, j);
    }
  }
}
