/** The composer: freezing bound drafts and the stages that lead there. */
module Composer {
  import opened Wrappers
  import opened Dag
  import opened TopologicalSort
  import opened StorageModel
  import opened Prerequisites
  import opened Evidence
  import opened Plan
  import opened Requirements
  import opened Fragments
  import opened Binding
  import opened ContextualBinding
  import opened Resolution
  import Replay
  import ResourceOrder

  // ---------------------------------------------------------------------------
  // Freezing

  ghost function PlanContracts(plan: ExecutionPlan): map<nat, ActionContract> {
    map a: nat | a < |plan.actions| :: plan.actions[a].contract
  }

  /** The plan carries the drafted actions with the contracts of their final predecessor states. */
  ghost predicate Freezes(plan: ExecutionPlan, draft: seq<DraftAction>, contracts: map<nat, ActionContract>,
                          deps: seq<ActionDependency>)
  {
    && plan.dependencies == deps && |plan.actions| == |draft|
    && forall a: nat :: a < |draft| ==>
         && a in contracts
         && plan.actions[a]
             == PlannedAction(a, draft[a].operation, draft[a].fragment, draft[a].localId, draft[a].origin, contracts[a])
  }

  lemma FrozenReplays(cat: Catalogue, current: CurrentState, capacity: seq<CapacityEvidence>, draft: seq<DraftAction>,
                      deps: seq<ActionDependency>, order: seq<nat>, states: seq<Simulation>, trace: AnalysedOrder,
                      plan: ExecutionPlan)
    requires cat.structure(current.graph) && DistinctDomains(capacity)
    requires Analysed(cat, Replay.InitialState(current, capacity), draft, deps, order, states, trace)
    requires Freezes(plan, draft, trace.contracts, deps)
    ensures Replay.ReplaysExactly(cat, plan, current, capacity)
  {
    forall i: nat | i < |order|
      ensures Replay.ReplaysAt(cat, plan, order, states, i)
      ensures plan.actions[order[i]].contract == cat.describe(plan.actions[order[i]].operation, states[i].desired.graph)
    {
      assert AnalysedAt(cat, draft, order, states, trace, i);
    }
    assert Replay.ReplaysFully(cat, plan, Replay.InitialState(current, capacity), order, states);
    assert Replay.StoresContracts(cat, plan, order, states);
  }

  /** Every requirement still names a condition of its action's frozen contract. */
  ghost predicate RequirementsFrozen(plan: ExecutionPlan, requirements: seq<PendingRequirement>) {
    forall i :: 0 <= i < |requirements| ==>
      && requirements[i].action < |plan.actions|
      && requirements[i].prerequisite in plan.actions[requirements[i].action].contract.prerequisites
  }

  /** What analysis of a bound draft promises about the plan it freezes. */
  ghost predicate IsSoundPlan(cat: Catalogue, current: CurrentState, capacity: seq<CapacityEvidence>,
                              draft: seq<DraftAction>,
                              requirements: seq<PendingRequirement>, deps: seq<ActionDependency>, plan: ExecutionPlan)
  {
    && IsFrozen(plan)
    && |plan.actions| == |draft|
    && (forall a: nat :: a < |draft| ==>
          plan.actions[a]
              == PlannedAction(a, draft[a].operation, draft[a].fragment, draft[a].localId, draft[a].origin,
                               plan.actions[a].contract))
    && Covers(plan.dependencies, deps)
    && RequirementsFrozen(plan, requirements)
    && ResourceOrder.Accepted(|plan.actions|, PlanContracts(plan), plan.dependencies)
    && Replay.ReplaysExactly(cat, plan, current, capacity)
  }

  lemma FreezeIsSound(cat: Catalogue, current: CurrentState, capacity: seq<CapacityEvidence>, draft: seq<DraftAction>,
                      requirements: seq<PendingRequirement>, deps: seq<ActionDependency>,
                      contracts: map<nat, ActionContract>, plan: ExecutionPlan)
    requires |draft| <= U32_MAX + 1 && InRange(|draft|, deps) && Acyclic(deps)
    requires forall i :: 0 <= i < |requirements| ==> requirements[i].action < |draft|
    requires forall a: nat :: a < |draft| <==> a in contracts
    requires Freezes(plan, draft, contracts, deps)
    requires RequirementsDeclared(requirements, contracts) && ResourceOrder.AllConflictsOrdered(contracts, deps)
    requires Replay.ReplaysExactly(cat, plan, current, capacity)
    ensures IsSoundPlan(cat, current, capacity, draft, requirements, deps, plan)
  {
    assert PlanContracts(plan) == contracts;
  }

  /** Edges the composer may try, and the order it then follows. */
  ghost predicate IsCandidate(cat: Catalogue, draft: seq<DraftAction>, requirements: seq<PendingRequirement>,
                              deps: seq<ActionDependency>, edges: seq<ActionDependency>, order: seq<nat>)
  {
    OnlyProviders(cat, draft, requirements, deps, edges) && IsLeastOrder(|draft|, edges, order)
  }

  ghost predicate SomePassFails(cat: Catalogue, start: Simulation, draft: seq<DraftAction>,
                                requirements: seq<PendingRequirement>,
                                deps: seq<ActionDependency>, error: CompositionError)
  {
    exists order, states, asked, edges ::
      && PassFails(cat, start, draft, order, states, asked, edges, error)
      && IsCandidate(cat, draft, requirements, deps, edges, order)
      && (asked == requirements || asked == [])
  }

  /** Recorded contracts, true to some predecessor states, leave the fault no way out. */
  ghost predicate SomeResolutionFails(cat: Catalogue, draft: seq<DraftAction>, requirements: seq<PendingRequirement>,
                                      deps: seq<ActionDependency>, error: CompositionError)
  {
    exists contracts ::
      ResolutionFails(cat, draft, requirements, deps, contracts, error) && Describes(cat, draft, contracts)
  }

  /** Some candidate's edges leave the order of two conflicting actions open. */
  ghost predicate SomeOrderIsOpen(cat: Catalogue, draft: seq<DraftAction>, requirements: seq<PendingRequirement>,
                                  deps: seq<ActionDependency>, first: nat, second: nat, resource: ActionResource)
  {
    exists contracts, edges ::
      && OnlyProviders(cat, draft, requirements, deps, edges)
      && ResourceOrder.Ambiguous(contracts, edges, first, second) && first < second
      && Describes(cat, draft, contracts) && ResourceOrder.ConflictOver(contracts[first], contracts[second], resource)
  }

  /** Why the analysis of structurally bound actions may fail, and for no other reason. */
  ghost predicate AnalysisFails(cat: Catalogue, current: CurrentState, capacity: seq<CapacityEvidence>,
                                draft: seq<DraftAction>,
                                requirements: seq<PendingRequirement>, deps: seq<ActionDependency>,
                                error: CompositionError)
  {
    match error
    case BaselineStructure => false
    case DependencyCycle => !Acyclic(deps)
    case DuplicateCapacity(domain) => IsFirstRepeat(capacity, domain)
    case AmbiguousResourceOrder(first, second, resource) =>
      SomeOrderIsOpen(cat, draft, requirements, deps, first, second, resource)
    case _ =>
      || SomePassFails(cat, Replay.InitialState(current, capacity), draft, requirements, deps, error)
      || SomeResolutionFails(cat, draft, requirements, deps, error)
  }

  /** A failed pass is never taken for one of the other faults. */
  lemma PassFailureExplains(cat: Catalogue, current: CurrentState, capacity: seq<CapacityEvidence>,
                            draft: seq<DraftAction>,
                            requirements: seq<PendingRequirement>, deps: seq<ActionDependency>, order: seq<nat>,
                            states: seq<Simulation>,
                            asked: seq<PendingRequirement>, edges: seq<ActionDependency>, error: CompositionError)
    requires PassFails(cat, Replay.InitialState(current, capacity), draft, order, states, asked, edges, error)
    requires IsCandidate(cat, draft, requirements, deps, edges, order) && (asked == requirements || asked == [])
    ensures AnalysisFails(cat, current, capacity, draft, requirements, deps, error)
  {
    assert SomePassFails(cat, Replay.InitialState(current, capacity), draft, requirements, deps, error);
    assert !error.DependencyCycle? && !error.DuplicateCapacity? && !error.AmbiguousResourceOrder?
        && !error.BaselineStructure?;
  }

  /** The frozen actions: each draft with the contract recorded for it. */
  function FrozenActions(draft: seq<DraftAction>, contracts: map<nat, ActionContract>): seq<PlannedAction>
    requires forall a: nat :: a < |draft| ==> a in contracts
  {
    seq(|draft|, a requires 0 <= a < |draft| =>
      PlannedAction(draft[a].id, draft[a].operation, draft[a].fragment, draft[a].localId, draft[a].origin,
                    contracts[a]))
  }

  /** Whichever first ambiguity is found, it is the same one. */
  lemma AmbiguityDecides(contracts: map<nat, ActionContract>, edges: seq<ActionDependency>, r: ResourceOrder.Ambiguity)
    requires ResourceOrder.IsFirstAmbiguity(contracts, edges, r)
    ensures forall r' :: ResourceOrder.IsFirstAmbiguity(contracts, edges, r') ==> r' == r
  {
    forall r' | ResourceOrder.IsFirstAmbiguity(contracts, edges, r') ensures r' == r {
      ResourceOrder.FirstAmbiguityUnique(contracts, edges, r, r');
    }
  }

  /** What freezing a completed trace amounts to. */
  ghost function TraceFreeze(draft: seq<DraftAction>, requirements: seq<PendingRequirement>,
                             contracts: map<nat, ActionContract>, edges: seq<ActionDependency>)
    : Result<ExecutionPlan, CompositionError>
  {
    if UndeclaredFrom(requirements, contracts, 0).Some? then Err(UndeclaredFrom(requirements, contracts, 0).value)
    else if exists r :: ResourceOrder.IsFirstAmbiguity(contracts, edges, r) then
      var r :| ResourceOrder.IsFirstAmbiguity(contracts, edges, r);
      Err(AmbiguousResourceOrder(r.first, r.second, r.resource))
    else if forall a: nat :: a < |draft| ==> a in contracts
    then Ok(ExecutionPlan(FrozenActions(draft, contracts), edges))
    else Err(MissingAnalysedContract(0))
  }

  /** What freezing edges amounts to. */
  ghost function FreezeResult(cat: Catalogue, current: CurrentState, capacity: seq<CapacityEvidence>,
                              draft: seq<DraftAction>, requirements: seq<PendingRequirement>,
                              deps: seq<ActionDependency>)
    : Result<ExecutionPlan, CompositionError>
  {
    match Fixpoint(cat, current, capacity, draft, [], deps)
    case Err(error) => Err(error)
    case Ok((trace, edges)) => TraceFreeze(draft, requirements, trace.contracts, edges)
  }

  /** The checks that turn a completed trace into a plan. */
  method FreezeTrace(ghost cat: Catalogue, draft: seq<DraftAction>, requirements: seq<PendingRequirement>,
                     ghost structural: seq<ActionDependency>, contracts: map<nat, ActionContract>,
                     edges: seq<ActionDependency>)
    returns (r: Result<ExecutionPlan, CompositionError>)
    requires IsDense(draft) && Describes(cat, draft, contracts) && forall a: nat :: a < |draft| <==> a in contracts
    requires forall i :: 0 <= i < |requirements| ==> requirements[i].action < |draft|
    requires OnlyProviders(cat, draft, requirements, structural, edges)
    ensures r == TraceFreeze(draft, requirements, contracts, edges)
    ensures r.Ok? ==> Freezes(r.value, draft, contracts, edges) && RequirementsDeclared(requirements, contracts)
                      && ResourceOrder.AllConflictsOrdered(contracts, edges)
    ensures r.Err? ==>
      || ResolutionFails(cat, draft, requirements, structural, contracts, r.error)
      || (r.error.AmbiguousResourceOrder?
          && SomeOrderIsOpen(cat, draft, requirements, structural, r.error.first, r.error.second, r.error.resource))
  {
    var undeclared := ValidateDeclaredRequirements(requirements, contracts);
    if undeclared.Some? {
      return Err(undeclared.value);
    }
    var ambiguity := ResourceOrder.ValidateResourceOrder(contracts, edges);
    if ambiguity.Some? {
      AmbiguityDecides(contracts, edges, ambiguity.value);
      return Err(AmbiguousResourceOrder(ambiguity.value.first, ambiguity.value.second, ambiguity.value.resource));
    }
    r := Ok(ExecutionPlan(FrozenActions(draft, contracts), edges));
  }

  /** The final replay, with no requirement left to bind, and the checks that freeze its result. */
  method FreezeDraft(cat: Catalogue, current: CurrentState, capacity: seq<CapacityEvidence>, draft: seq<DraftAction>,
                     requirements: seq<PendingRequirement>, ghost structural: seq<ActionDependency>,
                     deps: seq<ActionDependency>)
    returns (r: Result<ExecutionPlan, CompositionError>)
    requires cat.structure(current.graph)
    requires IsDense(draft) && |draft| <= U32_MAX + 1 && InRange(|draft|, deps) && Acyclic(deps)
    requires forall i :: 0 <= i < |requirements| ==> requirements[i].action < |draft|
    requires OnlyProviders(cat, draft, requirements, structural, deps)
    ensures r.Ok? ==>
      IsSoundPlan(cat, current, capacity, draft, requirements, deps, r.value) && r.value.dependencies == deps
    ensures r.Err? ==>
      !r.error.DependencyCycle? && AnalysisFails(cat, current, capacity, draft, requirements, structural, r.error)
    ensures r == FreezeResult(cat, current, capacity, draft, requirements, deps)
  {
    ghost var start := Replay.InitialState(current, capacity);
    var final, edges, order, states, _ := SimulateOrder(cat, current, capacity, draft, [], deps);
    if final.Err? {
      if !final.error.DuplicateCapacity? {
        PassFailureExplains(cat, current, capacity, draft, requirements, structural, order, states, [], edges,
                            final.error);
      }
      return Err(final.error);
    }
    var contracts := final.value.contracts;
    AnalysedDescribes(cat, start, draft, order, states, final.value);
    AnalysedCovers(cat, start, draft, edges, order, states, final.value);
    r := FreezeTrace(cat, draft, requirements, structural, contracts, edges);
    if r.Ok? {
      FrozenReplays(cat, current, capacity, draft, edges, order, states, final.value, r.value);
      FreezeIsSound(cat, current, capacity, draft, requirements, edges, contracts, r.value);
    }
  }

  /**
   A complete pass in which no position asks for another edge, and after which every
   requirement was observed, has a direct supplier in `all`, or has none to be found.
   */
  ghost predicate IsBindingTrace(cat: Catalogue, start: Simulation, draft: seq<DraftAction>,
                                 requirements: seq<PendingRequirement>,
                                 all: seq<ActionDependency>, bound: seq<ActionDependency>, order: seq<nat>,
                                 states: seq<Simulation>,
                                 trace: AnalysedOrder)
  {
    && Analysed(cat, start, draft, bound, order, states, trace)
    && SettledUpTo(cat, draft, order, states, requirements, bound, |draft|)
    && Covers(all, bound)
    && AllResolved(requirements, trace, all)
  }

  /** The edges come from binding every declared output as far as it can be. */
  ghost predicate OutputsBound(cat: Catalogue, current: CurrentState, capacity: seq<CapacityEvidence>,
                               draft: seq<DraftAction>,
                               requirements: seq<PendingRequirement>, all: seq<ActionDependency>)
  {
    exists bound, order, states, trace ::
      IsBindingTrace(cat, Replay.InitialState(current, capacity), draft, requirements, all, bound, order, states, trace)
  }

  /** A fault over grown candidate edges is one over the structural edges, too. */
  lemma ResolutionFailureExplains(cat: Catalogue, draft: seq<DraftAction>, requirements: seq<PendingRequirement>,
                                  deps: seq<ActionDependency>, bound: seq<ActionDependency>,
                                  contracts: map<nat, ActionContract>, error: CompositionError)
    requires OnlyProviders(cat, draft, requirements, deps, bound) && Describes(cat, draft, contracts)
    requires ResolutionFails(cat, draft, requirements, bound, contracts, error)
    ensures SomeResolutionFails(cat, draft, requirements, deps, error)
  {
    if error.AmbiguousRequirement? {
      var i, edges :| 0 <= i < |requirements| && requirements[i].action == error.action
        && OnlyProviders(cat, draft, requirements, bound, edges) && IsAnswer(requirements[i], contracts, edges, None);
      ProvidersOnProviders(cat, draft, requirements, deps, bound, edges);
    }
    assert ResolutionFails(cat, draft, requirements, deps, contracts, error);
  }

  /** The whole analysis as a function of its inputs. */
  ghost function AnalysisResult(cat: Catalogue, current: CurrentState, capacity: seq<CapacityEvidence>,
                                draft: seq<DraftAction>, requirements: seq<PendingRequirement>,
                                deps: seq<ActionDependency>)
    : Result<ExecutionPlan, CompositionError>
  {
    match BindingResult(cat, current, capacity, draft, requirements, deps)
    case Err(error) => Err(error)
    case Ok(all) => FreezeResult(cat, current, capacity, draft, requirements, all)
  }

  ghost function BindingResult(cat: Catalogue, current: CurrentState, capacity: seq<CapacityEvidence>,
                               draft: seq<DraftAction>, requirements: seq<PendingRequirement>,
                               deps: seq<ActionDependency>)
    : Result<seq<ActionDependency>, CompositionError>
  {
    match Fixpoint(cat, current, capacity, draft, requirements, deps)
    case Err(error) => Err(error)
    case Ok((trace, bound)) => ResolutionResult(requirements, trace, bound)
  }

  /** Binds outputs in context until nothing changes, then resolves what was only predicted. */
  method BindOutputs(cat: Catalogue, current: CurrentState, capacity: seq<CapacityEvidence>, draft: seq<DraftAction>,
                     requirements: seq<PendingRequirement>, deps: seq<ActionDependency>)
    returns (r: Result<seq<ActionDependency>, CompositionError>)
    requires IsDense(draft) && |draft| <= U32_MAX + 1 && InRange(|draft|, deps)
    requires forall i :: 0 <= i < |requirements| ==> requirements[i].action < |draft|
    ensures r.Ok? ==> InRange(|draft|, r.value) && Covers(r.value, deps) && Acyclic(r.value)
    ensures r.Ok? ==> OnlyProviders(cat, draft, requirements, deps, r.value)
    ensures r.Ok? ==> OutputsBound(cat, current, capacity, draft, requirements, r.value)
    ensures r == BindingResult(cat, current, capacity, draft, requirements, deps)
    ensures r == Err(CompositionError.DependencyCycle) <==> !Acyclic(deps)
    ensures r.Err? ==> AnalysisFails(cat, current, capacity, draft, requirements, deps, r.error)
  {
    ghost var start := Replay.InitialState(current, capacity);
    var first, bound, order, states, _ := SimulateOrder(cat, current, capacity, draft, requirements, deps);
    if first.Err? {
      if !first.error.DependencyCycle? && !first.error.DuplicateCapacity? {
        PassFailureExplains(cat, current, capacity, draft, requirements, deps, order, states, requirements, bound,
                            first.error);
      }
      return Err(first.error);
    }
    AnalysedCovers(cat, start, draft, bound, order, states, first.value);
    AnalysedDescribes(cat, start, draft, order, states, first.value);
    r := ResolveRequirements(cat, draft, requirements, first.value, bound);
    if r.Err? {
      ResolutionFailureExplains(cat, draft, requirements, deps, bound, first.value.contracts, r.error);
      return;
    }
    ProvidersOnProviders(cat, draft, requirements, deps, bound, r.value);
    assert IsBindingTrace(cat, start, draft, requirements, r.value, bound, order, states, first.value);
  }

  /**
   Everything after the structural edges are bound.  A cycle is reported exactly
   when those edges have one; no later stage can create a cycle or a self edge.
   */
  method AnalyseDraft(cat: Catalogue, current: CurrentState, capacity: seq<CapacityEvidence>, draft: seq<DraftAction>,
                      requirements: seq<PendingRequirement>, deps: seq<ActionDependency>)
    returns (r: Result<ExecutionPlan, CompositionError>)
    requires cat.structure(current.graph)
    requires IsDense(draft) && |draft| <= U32_MAX + 1 && InRange(|draft|, deps)
    requires forall i :: 0 <= i < |requirements| ==> requirements[i].action < |draft|
    ensures r.Ok? ==> IsSoundPlan(cat, current, capacity, draft, requirements, deps, r.value)
    ensures r.Ok? ==> OnlyProviders(cat, draft, requirements, deps, r.value.dependencies)
    ensures r.Ok? ==> OutputsBound(cat, current, capacity, draft, requirements, r.value.dependencies)
    ensures r == AnalysisResult(cat, current, capacity, draft, requirements, deps)
    ensures r == Err(CompositionError.DependencyCycle) <==> !Acyclic(deps)
    ensures r.Err? ==> AnalysisFails(cat, current, capacity, draft, requirements, deps, r.error)
  {
    var bound := BindOutputs(cat, current, capacity, draft, requirements, deps);
    if bound.Err? {
      return Err(bound.error);
    }
    r := FreezeDraft(cat, current, capacity, draft, requirements, deps, bound.value);
    AcyclicCovers(bound.value, deps);
  }

  // ---------------------------------------------------------------------------
  // The public composer

  /** What a returned plan promises about the fragments and orderings it was composed from. */
  ghost predicate IsComposition(cat: Catalogue, current: CurrentState, fragments: seq<PlanFragment>,
                                ordering: seq<FragmentOrdering>,
                                capacity: seq<CapacityEvidence>, plan: ExecutionPlan, flat: Flattened)
  {
    && IsFlattened(fragments, flat)
    && IsSoundPlan(cat, current, capacity, flat.actions, flat.requirements, flat.dependencies, plan)
    && KeepsOrdering(flat.ids, ordering, plan.dependencies)
    && InputsBound(current.graph, flat.actions, plan.dependencies)
    && MountsOrdered(flat.actions, plan.dependencies)
    && OutputsBound(cat, current, capacity, flat.actions, flat.requirements, plan.dependencies)
    && forall i :: 0 <= i < |plan.dependencies| ==>
        IsJustified(cat, current.graph, fragments, ordering, flat, plan.dependencies[i])
  }

  /** The edge has one of the five reasons a composer may give, with the facts behind it. */
  ghost predicate IsJustified(cat: Catalogue, graph: NodeGraph, fragments: seq<PlanFragment>,
                              ordering: seq<FragmentOrdering>,
                              flat: Flattened, e: ActionDependency)
  {
    || IsStructuralEdge(graph, fragments, ordering, flat, e)
    || IsProviderEdge(cat, flat.actions, flat.requirements, e)
  }

  lemma KeepsOrderingCovers(ids: map<FragmentActionRef, nat>, ordering: seq<FragmentOrdering>,
                            big: seq<ActionDependency>, small: seq<ActionDependency>)
    requires Covers(big, small) && KeepsOrdering(ids, ordering, small)
    ensures KeepsOrdering(ids, ordering, big)
  {
  }

  /** Edges of the flattened fragments, the requested orderings, creations and mount nesting, and no others. */
  ghost predicate IsStructural(graph: NodeGraph, fragments: seq<PlanFragment>, ordering: seq<FragmentOrdering>,
                               flat: Flattened,
                               edges: seq<ActionDependency>)
  {
    && IsFlattened(fragments, flat)
    && Covers(edges, flat.dependencies)
    && KeepsOrdering(flat.ids, ordering, edges)
    && InputsBound(graph, flat.actions, edges)
    && MountsOrdered(flat.actions, edges)
    && forall i :: 0 <= i < |edges| ==> IsStructuralEdge(graph, fragments, ordering, flat, edges[i])
  }

  ghost predicate IsStructuralEdge(graph: NodeGraph, fragments: seq<PlanFragment>, ordering: seq<FragmentOrdering>,
                                   flat: Flattened,
                                   e: ActionDependency)
  {
    || IsLocalEdge(fragments, flat.ids, e)
    || IsOrderingEdge(flat.ids, ordering, e)
    || IsCreationEdge(graph, flat.actions, e)
    || IsMountEdge(flat.actions, e)
  }

  /** Why a composition may fail, stage by stage, and for no other reason. */
  ghost predicate CompositionFails(cat: Catalogue, current: CurrentState, fragments: seq<PlanFragment>,
                                   ordering: seq<FragmentOrdering>,
                                   capacity: seq<CapacityEvidence>, flat: Flattened, structural: seq<ActionDependency>,
                                   error: CompositionError)
  {
    if !cat.structure(current.graph) then error.BaselineStructure?
    else
      || FlatteningFails(fragments, error)
      || (IsFlattened(fragments, flat) && OrderingFails(flat.ids, ordering, error))
      || (IsFlattened(fragments, flat) && CreationFails(current.graph, flat.actions, error))
      || (IsStructural(current.graph, fragments, ordering, flat, structural)
          && AnalysisFails(cat, current, capacity, flat.actions, flat.requirements, structural, error))
  }

  lemma StagesAreStructural(graph: NodeGraph, fragments: seq<PlanFragment>, ordering: seq<FragmentOrdering>,
                            flat: Flattened,
                            ordered: seq<ActionDependency>, created: seq<ActionDependency>,
                            mounted: seq<ActionDependency>)
    requires OnlyLocalEdges(fragments, flat.ids, flat.dependencies)
    requires OnlyOrderings(flat.ids, ordering, flat.dependencies, ordered)
    requires OnlyCreations(graph, flat.actions, ordered, created)
    requires OnlyMountEdges(flat.actions, created, mounted)
    ensures forall i :: 0 <= i < |mounted| ==> IsStructuralEdge(graph, fragments, ordering, flat, mounted[i])
  {
    forall i | 0 <= i < |mounted| ensures IsStructuralEdge(graph, fragments, ordering, flat, mounted[i]) {
      if i < |flat.dependencies| {
        assert mounted[i] == flat.dependencies[i];
      } else if i < |ordered| {
        assert mounted[i] == ordered[i];
      } else if i < |created| {
        assert mounted[i] == created[i];
      }
    }
  }

  /** The structural edges as a function of the flattened fragments. */
  ghost function StructureResult(graph: NodeGraph, flat: Flattened, ordering: seq<FragmentOrdering>)
    : Result<seq<ActionDependency>, CompositionError>
  {
    match OrderingsFrom(flat.ids, ordering, flat.dependencies, 0)
    case Err(error) => Err(error)
    case Ok(ordered) =>
      match CreationResult(graph, flat.actions, ordered)
      case Err(error) => Err(error)
      case Ok(created) => Ok(MountsFrom(flat.actions, created, 0))
  }

  /** Adds the structural edges of all three kinds. */
  method BindStructure(graph: NodeGraph, ghost fragments: seq<PlanFragment>, flat: Flattened,
                       ordering: seq<FragmentOrdering>)
    returns (r: Result<seq<ActionDependency>, CompositionError>)
    requires IsFlattened(fragments, flat)
    ensures r.Ok? ==> InRange(|flat.actions|, r.value) && IsStructural(graph, fragments, ordering, flat, r.value)
    ensures r.Err? ==> OrderingFails(flat.ids, ordering, r.error) || CreationFails(graph, flat.actions, r.error)
    ensures r == StructureResult(graph, flat, ordering)
  {
    var Flattened(draft, deps, _, ids) := flat;
    var ordered := BindOrdering(ids, ordering, |draft|, deps);
    if ordered.Err? {
      return ordered;
    }
    var created := BindPlannedNodes(graph, draft, ordered.value);
    if created.Err? {
      return created;
    }
    var mounted := BindMountOrder(draft, created.value);
    KeepsOrderingCovers(ids, ordering, mounted, ordered.value);
    InputBoundCovers(graph, draft, mounted, created.value);
    StagesAreStructural(graph, fragments, ordering, flat, ordered.value, created.value, mounted);
    r := Ok(mounted);
  }

  /** A plan analysed over structural edges is a composition of its fragments. */
  lemma AnalysedIsComposition(cat: Catalogue, current: CurrentState, fragments: seq<PlanFragment>,
                              ordering: seq<FragmentOrdering>,
                              capacity: seq<CapacityEvidence>, plan: ExecutionPlan, flat: Flattened,
                              structural: seq<ActionDependency>)
    requires IsStructural(current.graph, fragments, ordering, flat, structural)
    requires IsSoundPlan(cat, current, capacity, flat.actions, flat.requirements, structural, plan)
    requires OnlyProviders(cat, flat.actions, flat.requirements, structural, plan.dependencies)
    requires OutputsBound(cat, current, capacity, flat.actions, flat.requirements, plan.dependencies)
    ensures IsComposition(cat, current, fragments, ordering, capacity, plan, flat)
  {
    var edges := plan.dependencies;
    KeepsOrderingCovers(flat.ids, ordering, edges, structural);
    InputBoundCovers(current.graph, flat.actions, edges, structural);
    MountsOrderedCovers(flat.actions, edges, structural);
    forall i | 0 <= i < |edges| ensures IsJustified(cat, current.graph, fragments, ordering, flat, edges[i]) {
      if i < |structural| {
        assert edges[i] == structural[i];
        assert IsStructuralEdge(current.graph, fragments, ordering, flat, structural[i]);
      }
    }
  }

  /** What composing flattened fragments amounts to. */
  ghost function FlatResult(cat: Catalogue, current: CurrentState, flat: Flattened, ordering: seq<FragmentOrdering>,
                            capacity: seq<CapacityEvidence>)
    : Result<ExecutionPlan, CompositionError>
  {
    match StructureResult(current.graph, flat, ordering)
    case Err(error) => Err(error)
    case Ok(edges) => AnalysisResult(cat, current, capacity, flat.actions, flat.requirements, edges)
  }

  /**
   The composed plan or its error as a function of the arguments.  Nothing in it
   depends on the order in which contract maps happen to be enumerated.
   */
  ghost function CompositionResult(cat: Catalogue, current: CurrentState, fragments: seq<PlanFragment>,
                                   ordering: seq<FragmentOrdering>, capacity: seq<CapacityEvidence>)
    : Result<ExecutionPlan, CompositionError>
  {
    if !cat.structure(current.graph) then Err(CompositionError.BaselineStructure)
    else
      match FlattenResult(fragments)
      case Err(error) => Err(error)
      case Ok(flat) => FlatResult(cat, current, flat, ordering, capacity)
  }

  /** A fault found by the analysis is one of the composition. */
  lemma AnalysisFailureExplains(cat: Catalogue, current: CurrentState, fragments: seq<PlanFragment>,
                                ordering: seq<FragmentOrdering>, capacity: seq<CapacityEvidence>, flat: Flattened,
                                structural: seq<ActionDependency>, error: CompositionError)
    requires cat.structure(current.graph) && IsStructural(current.graph, fragments, ordering, flat, structural)
    requires AnalysisFails(cat, current, capacity, flat.actions, flat.requirements, structural, error)
    ensures CompositionFails(cat, current, fragments, ordering, capacity, flat, structural, error)
  {
  }

  /** The stages after the structural edges, seen from the fragments. */
  method AnalyseStructure(cat: Catalogue, current: CurrentState, ghost fragments: seq<PlanFragment>, flat: Flattened,
                          ghost ordering: seq<FragmentOrdering>, capacity: seq<CapacityEvidence>,
                          structural: seq<ActionDependency>)
    returns (r: Result<ExecutionPlan, CompositionError>)
    requires cat.structure(current.graph) && InRange(|flat.actions|, structural)
    requires IsStructural(current.graph, fragments, ordering, flat, structural)
    ensures r == AnalysisResult(cat, current, capacity, flat.actions, flat.requirements, structural)
    ensures r.Ok? ==> Acyclic(structural) && IsComposition(cat, current, fragments, ordering, capacity, r.value, flat)
    ensures r.Err? ==> CompositionFails(cat, current, fragments, ordering, capacity, flat, structural, r.error)
    ensures r != Err(CompositionError.BaselineStructure)
  {
    r := AnalyseDraft(cat, current, capacity, flat.actions, flat.requirements, structural);
    if r.Ok? {
      AnalysedIsComposition(cat, current, fragments, ordering, capacity, r.value, flat, structural);
    } else {
      AnalysisFailureExplains(cat, current, fragments, ordering, capacity, flat, structural, r.error);
    }
  }

  /** All stages in sequence; the ghost results expose the flattened fragments and the structural edges. */
  method ComposePlanWithOrdering(cat: Catalogue, current: CurrentState, fragments: seq<PlanFragment>,
                                 ordering: seq<FragmentOrdering>, capacity: seq<CapacityEvidence>)
    returns (r: Result<ExecutionPlan, CompositionError>, ghost flat: Flattened, ghost structural: seq<ActionDependency>)
    ensures r == CompositionResult(cat, current, fragments, ordering, capacity)
    ensures r == Err(CompositionError.BaselineStructure) <==> !cat.structure(current.graph)
    ensures r.Ok? ==> IsFrozen(r.value) && Replay.ReplaysExactly(cat, r.value, current, capacity)
    ensures r.Err? ==> CompositionFails(cat, current, fragments, ordering, capacity, flat, structural, r.error)
    ensures r.Ok? ==>
      cat.structure(current.graph) && IsComposition(cat, current, fragments, ordering, capacity, r.value, flat)
    ensures r.Ok? ==> IsStructural(current.graph, fragments, ordering, flat, structural) && Acyclic(structural)
  {
    flat, structural := Flattened([], [], [], map[]), [];
    if !cat.structure(current.graph) {
      return Err(CompositionError.BaselineStructure), flat, structural;
    }
    var flattened := FlattenFragments(fragments);
    if flattened.Err? {
      return Err(flattened.error), flat, structural;
    }
    flat := flattened.value;
    var bound := BindStructure(current.graph, fragments, flattened.value, ordering);
    if bound.Err? {
      return Err(bound.error), flat, structural;
    }
    structural := bound.value;
    r := AnalyseStructure(cat, current, fragments, flattened.value, ordering, capacity, bound.value);
  }

  /** Composer and replayer agree: what one accepts the other reproduces, contract by contract. */
  method ComposeThenReplay(cat: Catalogue, current: CurrentState, fragments: seq<PlanFragment>,
                           ordering: seq<FragmentOrdering>, capacity: seq<CapacityEvidence>)
    returns (composed: Result<ExecutionPlan, CompositionError>,
             replayed: Result<Replay.ReplayResult, Replay.ReplayError>)
    ensures composed.Ok? ==> replayed.Ok? && replayed.value.trusted == composed.value
  {
    ghost var flat, structural;
    composed, flat, structural := ComposePlanWithOrdering(cat, current, fragments, ordering, capacity);
    if composed.Err? {
      return composed, Err(Replay.ReplayError.BaselineStructure);
    }
    replayed := Replay.ReplayExact(cat, current, composed.value, capacity);
  }
}
