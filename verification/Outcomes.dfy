/** When a simulated action succeeds after a trace, and what it is refused for otherwise. */
module Outcomes {
  import opened Wrappers
  import opened StorageModel
  import opened Prerequisites
  import opened Evidence
  import opened Effects
  import opened Traces
  import opened GraphHistory
  import opened MountTable

  // ---------------------------------------------------------------------------
  // Graph effects

  ghost predicate PresentAfter(start: NodeGraph, past: seq<GraphEffect>, n: NodeId) {
    IsPresent(past, n, n in start.nodes)
  }

  ghost function KindLeft(start: NodeGraph, past: seq<GraphEffect>, n: NodeId): Option<NodeKind> {
    KindAfter(past, n, if n in start.nodes then Some(start.nodes[n].spec.kind) else None)
  }

  /** A property change needs its node, with a kind that has the property. */
  ghost function ChangeFault(start: NodeGraph, past: seq<GraphEffect>, n: NodeId, has: NodeKind -> bool)
    : Option<EffectError>
  {
    if !PresentAfter(start, past, n) then Some(MissingNode(n))
    else if KindLeft(start, past, n).Some? && has(KindLeft(start, past, n).value) then None
    else Some(WrongNodeKind(n))
  }

  /** Why an effect cannot follow the earlier ones, in terms of what they left in the graph. */
  ghost function GraphFault(start: NodeGraph, past: seq<GraphEffect>, effect: GraphEffect): Option<EffectError> {
    match effect
    case InsertNode(id, _) => if PresentAfter(start, past, id) then Some(DuplicateNode(id)) else None
    case RemoveNode(id) => if PresentAfter(start, past, id) then None else Some(MissingNode(id))
    case SetActivation(id, _) => if PresentAfter(start, past, id) then None else Some(MissingNode(id))
    case SetNodeSize(id, _) => ChangeFault(start, past, id, _ => true)
    case InvalidateNodeSize(id) => ChangeFault(start, past, id, _ => true)
    case SetPartitionAttributes(id, _) => ChangeFault(start, past, id, (kind: NodeKind) => kind.Partition?)
    case SetFilesystemLabel(id, _) => ChangeFault(start, past, id, (kind: NodeKind) => kind.FilesystemNode?)
    case SetBtrfsAllocation(id, _) =>
      ChangeFault(start, past, id, (kind: NodeKind) => kind.FilesystemNode? && kind.filesystem.Btrfs?)
    case RemoveDependency(d) =>
      if HasDependency(past, d, d in start.dependencies) then None else Some(MissingDependency)
    case RemoveRelation(l) => if HasRelation(past, l, l in start.relations) then None else Some(MissingRelation)
    case InsertDependency(_) => None
    case InsertRelation(_) => None
  }

  /** The first effect that cannot follow those before it. */
  ghost function GraphFaults(start: NodeGraph, past: seq<GraphEffect>, effects: seq<GraphEffect>): Option<EffectError>
    decreases |effects|
  {
    if effects == [] then None
    else
      var fault := GraphFault(start, past, effects[0]);
      if fault.Some? then fault else GraphFaults(start, past + [effects[0]], effects[1..])
  }

  ghost predicate GraphAgrees(start: NodeGraph, s: Simulation, past: seq<GraphEffect>) {
    && (forall n: NodeId :: NodeAgrees(start, s, past, n))
    && forall d: Dependency, l: Relation :: EdgesAgree(start, s, past, d, l)
  }

  lemma GraphFails(start: NodeGraph, s: Simulation, past: seq<GraphEffect>, effect: GraphEffect)
    requires GraphAgrees(start, s, past)
    ensures match GraphFault(start, past, effect)
            case Some(error) => ApplyGraph(s, effect) == Err(error)
            case None => ApplyGraph(s, effect).Ok?
  {
    var someEdge, someRelation := Dependency(0, 0, Backs), Relation(0, 0, "");
    match effect {
      case InsertDependency(_) =>
      case InsertRelation(_) =>
      case RemoveDependency(d) => assert EdgesAgree(start, s, past, d, someRelation);
      case RemoveRelation(l) => assert EdgesAgree(start, s, past, someEdge, l);
      case _ => assert NodeAgrees(start, s, past, effect.id);
    }
  }

  lemma GraphAgreesStep(start: NodeGraph, s: Simulation, past: seq<GraphEffect>, effect: GraphEffect)
    requires GraphAgrees(start, s, past) && ApplyGraph(s, effect).Ok?
    ensures GraphAgrees(start, ApplyGraph(s, effect).value, past + [effect])
  {
    forall n: NodeId ensures NodeAgrees(start, ApplyGraph(s, effect).value, past + [effect], n) {
      NodeStep(start, s, past, effect, n);
    }
    forall d: Dependency, l: Relation
      ensures EdgesAgree(start, ApplyGraph(s, effect).value, past + [effect], d, l)
    {
      EdgeStep(start, s, past, effect, d, l);
    }
  }

  lemma {:induction false} GraphListFails(start: NodeGraph, s: Simulation, past: seq<GraphEffect>,
                                          effects: seq<GraphEffect>)
    requires GraphAgrees(start, s, past)
    ensures match GraphFaults(start, past, effects)
            case Some(error) => ApplyGraphs(s, effects) == Err(error)
            case None => ApplyGraphs(s, effects).Ok?
    decreases |effects|
  {
    if effects != [] {
      GraphFails(start, s, past, effects[0]);
      if ApplyGraph(s, effects[0]).Ok? {
        GraphAgreesStep(start, s, past, effects[0]);
        GraphListFails(start, ApplyGraph(s, effects[0]).value, past + [effects[0]], effects[1..]);
      }
    }
  }

  // ---------------------------------------------------------------------------
  // Mount effects

  ghost function MountFaults(start: seq<MountEntry>, past: seq<MountEffect>, effects: seq<MountEffect>)
    : Option<EffectError>
    decreases |effects|
  {
    if effects == [] then None
    else
      var fault := MountFault(start, past, effects[0]);
      if fault.Some? then fault else MountFaults(start, past + [effects[0]], effects[1..])
  }

  lemma {:induction false} MountListFails(start: seq<MountEntry>, s: Simulation, past: seq<MountEffect>,
                                          effects: seq<MountEffect>)
    requires TableAgrees(start, s, past)
    ensures match MountFaults(start, past, effects)
            case Some(error) => ApplyMounts(s, effects) == Err(error)
            case None => ApplyMounts(s, effects).Ok?
    decreases |effects|
  {
    if effects != [] {
      MountFails(start, s, past, effects[0]);
      if ApplyMount(s, effects[0]).Ok? {
        TableStep(start, s, past, effects[0]);
        MountListFails(start, ApplyMount(s, effects[0]).value, past + [effects[0]], effects[1..]);
      }
    }
  }

  // ---------------------------------------------------------------------------
  // Allocation effects

  /** The domain's capacity is known and no earlier effect made it unknown. */
  ghost predicate StaysKnown(capacity: map<AllocationDomain, nat>, past: seq<AllocationEffect>, d: AllocationDomain) {
    d in capacity && !Invalidates(past, d)
  }

  /** Known capacity after the earlier reservations and releases. */
  ghost function Balance(capacity: map<AllocationDomain, nat>, past: seq<AllocationEffect>, d: AllocationDomain): int
    requires d in capacity
  {
    capacity[d] + Released(past, d) - Reserved(past, d)
  }

  /** A reservation must be covered and a release must fit 64 bits; unknown domains refuse nothing. */
  ghost function AllocationFault(capacity: map<AllocationDomain, nat>, past: seq<AllocationEffect>,
                                 effect: AllocationEffect): Option<EffectError>
  {
    if !StaysKnown(capacity, past, effect.domain) then None
    else
      match effect
      case Invalidate(_) => None
      case Reserve(d, amount) => if Balance(capacity, past, d) < amount then Some(InsufficientCapacity(d)) else None
      case Release(d, amount) =>
        if Balance(capacity, past, d) + amount > U64_MAX then Some(CapacityOverflow(d)) else None
  }

  ghost function AllocationFaults(capacity: map<AllocationDomain, nat>, past: seq<AllocationEffect>,
                                  effects: seq<AllocationEffect>): Option<EffectError>
    decreases |effects|
  {
    if effects == [] then None
    else
      var fault := AllocationFault(capacity, past, effects[0]);
      if fault.Some? then fault else AllocationFaults(capacity, past + [effects[0]], effects[1..])
  }

  ghost predicate CapacityAgrees(capacity: map<AllocationDomain, nat>, evidence: SimulationEvidence,
                                 past: seq<AllocationEffect>)
  {
    && (forall d: AllocationDomain :: d in evidence.capacity <==> StaysKnown(capacity, past, d))
    && forall d: AllocationDomain :: d in evidence.capacity ==> evidence.capacity[d] == Balance(capacity, past, d)
  }

  lemma {:induction false} TotalsGrow(past: seq<AllocationEffect>, effect: AllocationEffect, d: AllocationDomain)
    ensures Reserved(past + [effect], d) == Reserved(past, d) + Reserved([effect], d)
    ensures Released(past + [effect], d) == Released(past, d) + Released([effect], d)
  {
    if past == [] {
      assert past + [effect] == [effect];
    } else {
      assert (past + [effect])[1..] == past[1..] + [effect];
      TotalsGrow(past[1..], effect, d);
    }
  }

  lemma CapacityAgreesStep(capacity: map<AllocationDomain, nat>, evidence: SimulationEvidence,
                           past: seq<AllocationEffect>, effect: AllocationEffect)
    requires CapacityAgrees(capacity, evidence, past) && ApplyAllocation(evidence, effect).Ok?
    ensures CapacityAgrees(capacity, ApplyAllocation(evidence, effect).value, past + [effect])
  {
    var next := ApplyAllocation(evidence, effect).value;
    assert [effect][1..] == [];
    forall d: AllocationDomain
      ensures d in next.capacity <==> StaysKnown(capacity, past + [effect], d)
      ensures d in next.capacity ==> next.capacity[d] == Balance(capacity, past + [effect], d)
    {
      TotalsGrow(past, effect, d);
      assert d in evidence.capacity <==> StaysKnown(capacity, past, d);
    }
  }

  lemma {:induction false} AllocationListFails(capacity: map<AllocationDomain, nat>, evidence: SimulationEvidence,
                                               past: seq<AllocationEffect>, effects: seq<AllocationEffect>)
    requires CapacityAgrees(capacity, evidence, past)
    ensures match AllocationFaults(capacity, past, effects)
            case Some(error) => ApplyAllocations(evidence, effects) == Err(error)
            case None => ApplyAllocations(evidence, effects).Ok?
    decreases |effects|
  {
    if effects != [] && ApplyAllocation(evidence, effects[0]).Ok? {
      CapacityAgreesStep(capacity, evidence, past, effects[0]);
      AllocationListFails(capacity, ApplyAllocation(evidence, effects[0]).value, past + [effects[0]], effects[1..]);
    }
  }

  // ---------------------------------------------------------------------------
  // One action after a trace

  /** Nothing is predicted before the first step. */
  ghost predicate IsBaseline(s: Simulation) {
    s.evidence.projectedNodes == {} && !s.evidence.projectedMounts
  }

  /** Why the effects of a contract cannot follow the first k steps: graph, mounts, capacity, then structure. */
  ghost function EffectRefusal(cat: Catalogue, states: seq<Simulation>, actions: seq<ProviderAction>, k: nat,
                               contract: ActionContract): Option<EffectError>
    requires IsTrace(cat, states, actions) && k <= |actions|
  {
    var start := states[0].desired;
    var effect := contract.effect;
    var graph := GraphFaults(start.graph, EffectHistory(cat, states, actions, k), effect.graph);
    var mounts := MountFaults(start.runtime, MountHistory(cat, states, actions, k), effect.mounts);
    var allocations := AllocationFaults(states[k].evidence.capacity, [], effect.allocations);
    var result := ApplyGraphs(states[k], effect.graph);
    if graph.Some? then graph
    else if mounts.Some? then mounts
    else if allocations.Some? then allocations
    else if result.Ok? && !cat.structure(result.value.desired.graph) then Some(InvalidStructure)
    else None
  }

  /** Why an action is refused after the first k steps, if it is. */
  ghost function Refusal(cat: Catalogue, states: seq<Simulation>, actions: seq<ProviderAction>, k: nat,
                         action: ProviderAction): Option<ActionError>
    requires IsTrace(cat, states, actions) && k <= |actions|
  {
    var s := states[k];
    var contract := cat.describe(action, s.desired.graph);
    var conditions := contract.prerequisites;
    if !cat.valid(action, s.desired.graph) then Some(ValidationFailed)
    else if exists i :: 0 <= i < |conditions| && EvaluatePrerequisite(s, conditions[i]) == Violated
    then Some(PrerequisitesViolated(EvaluatePrerequisites(s, conditions)))
    else
      match EffectRefusal(cat, states, actions, k, contract)
      case Some(error) => Some(EffectFailed(error))
      case None => None
  }

  lemma GraphAgreesAt(cat: Catalogue, states: seq<Simulation>, actions: seq<ProviderAction>, k: nat)
    requires IsTrace(cat, states, actions) && k <= |actions| && IsBaseline(states[0])
    ensures GraphAgrees(states[0].desired.graph, states[k], EffectHistory(cat, states, actions, k))
  {
    var start, past := states[0].desired.graph, EffectHistory(cat, states, actions, k);
    forall n: NodeId ensures NodeAgrees(start, states[k], past, n) {
      NodeIsLastWrite(cat, states, actions, k, n);
    }
    forall d: Dependency, l: Relation ensures EdgesAgree(start, states[k], past, d, l) {
      EdgesAreLastWrites(cat, states, actions, k, d, l);
    }
  }

  /** Which graph a list of effects leads to does not depend on the ledger. */
  lemma {:induction false} GraphIgnoresLedger(s: Simulation, t: Simulation, effects: seq<GraphEffect>)
    requires s.desired.graph == t.desired.graph
    ensures ApplyGraphs(s, effects).Ok? <==> ApplyGraphs(t, effects).Ok?
    ensures ApplyGraphs(s, effects).Ok? ==>
      ApplyGraphs(s, effects).value.desired.graph == ApplyGraphs(t, effects).value.desired.graph
    decreases |effects|
  {
    if effects != [] && ApplyGraph(s, effects[0]).Ok? {
      GraphIgnoresLedger(ApplyGraph(s, effects[0]).value, ApplyGraph(t, effects[0]).value, effects[1..]);
    }
  }

  lemma EffectsFail(cat: Catalogue, states: seq<Simulation>, actions: seq<ProviderAction>, k: nat,
                    contract: ActionContract)
    requires IsTrace(cat, states, actions) && k <= |actions| && IsBaseline(states[0])
    ensures match EffectRefusal(cat, states, actions, k, contract)
            case Some(error) => Projected(cat, states[k], contract) == Err(error)
            case None => Projected(cat, states[k], contract).Ok?
  {
    var s := states[k];
    var start, effect := states[0].desired, contract.effect;
    var invalidated := Invalidated(s, contract);
    GraphAgreesAt(cat, states, actions, k);
    RuntimeIsLastWrite(cat, states, actions, k);
    GraphListFails(start.graph, s, EffectHistory(cat, states, actions, k), effect.graph);
    InvalidatedAgrees(start.graph, s, contract, EffectHistory(cat, states, actions, k));
    GraphListFails(start.graph, invalidated, EffectHistory(cat, states, actions, k), effect.graph);
    GraphIgnoresLedger(s, invalidated, effect.graph);
    if ApplyGraphs(invalidated, effect.graph).Ok? {
      var graphed := ApplyGraphs(invalidated, effect.graph).value;
      GraphsKeepMounts(invalidated, effect.graph);
      GraphsFrame(invalidated, effect.graph);
      MountListFails(start.runtime, graphed, MountHistory(cat, states, actions, k), effect.mounts);
      if ApplyMounts(graphed, effect.mounts).Ok? {
        var mounted := ApplyMounts(graphed, effect.mounts).value;
        MountsFrame(graphed, effect.mounts);
        MountsKeepGraph(graphed, effect.mounts);
        AllocationListFails(s.evidence.capacity, mounted.evidence, [], effect.allocations);
      }
    }
  }

  lemma InvalidatedAgrees(start: NodeGraph, s: Simulation, contract: ActionContract, past: seq<GraphEffect>)
    requires GraphAgrees(start, s, past)
    ensures GraphAgrees(start, Invalidated(s, contract), past)
  {
    var invalidated := Invalidated(s, contract);
    forall n: NodeId ensures NodeAgrees(start, invalidated, past, n) {
      assert NodeAgrees(start, s, past, n);
    }
    forall d: Dependency, l: Relation ensures EdgesAgree(start, invalidated, past, d, l) {
      assert EdgesAgree(start, s, past, d, l);
    }
  }

  /**
   After every trace, any action at all steps exactly when it is valid there, violates
   no condition, and each of its effects can follow all effects before it; otherwise
   it is refused for the first of these that fails, in that order.
   */
  lemma StepOutcome(cat: Catalogue, states: seq<Simulation>, actions: seq<ProviderAction>, k: nat,
                    action: ProviderAction)
    requires IsTrace(cat, states, actions) && k <= |actions| && IsBaseline(states[0])
    ensures match Refusal(cat, states, actions, k, action)
            case Some(error) => Step(cat, states[k], action) == Err(error)
            case None => Step(cat, states[k], action).Ok?
  {
    var s := states[k];
    var contract := cat.describe(action, s.desired.graph);
    var checks := EvaluatePrerequisites(s, contract.prerequisites);
    assert AnyViolated(checks) <==>
      exists i :: 0 <= i < |checks| && EvaluatePrerequisite(s, contract.prerequisites[i]) == Violated by {
      assert forall i :: 0 <= i < |checks| ==> checks[i].status == EvaluatePrerequisite(s, contract.prerequisites[i]);
    }
    EffectsFail(cat, states, actions, k, contract);
  }
}
