/** The immutable execution plan and its deterministic action order. */
module Plan {
  import opened Wrappers
  import opened Dag
  import opened TopologicalSort
  import opened StorageModel

  datatype PlannedAction = PlannedAction(
    id: nat,
    operation: ProviderAction,
    fragment: nat,
    localId: nat,
    origin: Option<nat>,
    contract: ActionContract)

  datatype ExecutionPlan = ExecutionPlan(actions: seq<PlannedAction>, dependencies: seq<ActionDependency>)

  /** What composition establishes before it freezes a plan. */
  ghost predicate IsFrozen(plan: ExecutionPlan) {
    && |plan.actions| <= U32_MAX + 1
    && (forall i :: 0 <= i < |plan.actions| ==> plan.actions[i].id == i)
    && InRange(|plan.actions|, plan.dependencies)
    && Acyclic(plan.dependencies)
  }

  /** `order` is the deterministic order of the plan's actions. */
  ghost predicate IsPlanOrder(plan: ExecutionPlan, order: seq<nat>) {
    IsLeastOrder(|plan.actions|, plan.dependencies, order)
  }

  lemma PlanOrderInRange(plan: ExecutionPlan, order: seq<nat>)
    requires IsPlanOrder(plan, order)
    ensures |order| == |plan.actions| && IsOrder(|plan.actions|, plan.dependencies, order)
    ensures forall i :: 0 <= i < |order| ==> order[i] < |plan.actions|
  {
    LeastOrderIsOrder(|plan.actions|, plan.dependencies, order);
  }

  /** Lists the actions of a frozen plan; the sort cannot fail on it. */
  method OrderedActions(plan: ExecutionPlan) returns (ordered: seq<PlannedAction>, ghost order: seq<nat>)
    requires IsFrozen(plan)
    ensures IsPlanOrder(plan, order) && IsOrder(|plan.actions|, plan.dependencies, order)
    ensures |ordered| == |plan.actions|
    ensures forall i :: 0 <= i < |ordered| ==> ordered[i] == plan.actions[order[i]] && ordered[i].id == order[i]
  {
    var sorted := TopologicalOrder(|plan.actions|, plan.dependencies);
    match sorted {
      case Err(_) =>
        assert false;
        ordered := [];
        order := [];
      case Ok(ids) =>
        PlanOrderInRange(plan, ids);
        ordered := seq(|ids|, i requires 0 <= i < |ids| => plan.actions[ids[i]]);
        order := ids;
    }
  }
}
