/** The interpreter: what one simulated action does to its predecessor state, all or nothing. */
module Effects {
  import opened Wrappers
  import opened StorageModel
  import opened Prerequisites
  import opened Closure
  import opened Evidence

  // ---------------------------------------------------------------------------
  // Graph effects

  function WithNode(s: Simulation, id: NodeId, node: Node): Simulation {
    s.(desired := s.desired.(graph := s.desired.graph.(nodes := s.desired.graph.nodes[id := node])),
       evidence := s.evidence.(projectedNodes := s.evidence.projectedNodes + {id}))
  }

  /** Type-specific property change; None when the node has the wrong kind. */
  function ChangedNode(node: Node, effect: GraphEffect): Option<Node> {
    match effect
    case SetNodeSize(_, size) => Some(node.(spec := node.spec.(size := Some(size))))
    case InvalidateNodeSize(_) => Some(node.(spec := node.spec.(size := None)))
    case SetPartitionAttributes(_, attributes) =>
      if node.spec.kind.Partition? then Some(node.(spec := node.spec.(kind := Partition(attributes)))) else None
    case SetFilesystemLabel(_, name) =>
      if node.spec.kind.FilesystemNode?
      then Some(node.(spec := node.spec.(kind := node.spec.kind.(name := name)))) else None
    case SetBtrfsAllocation(_, allocation) =>
      if node.spec.kind.FilesystemNode? && node.spec.kind.filesystem.Btrfs?
      then Some(node.(spec := node.spec.(kind := node.spec.kind.(filesystem := Btrfs(allocation))))) else None
    case _ => None
  }

  function UpdateNode(s: Simulation, id: NodeId, effect: GraphEffect): Result<Simulation, EffectError> {
    if id !in s.desired.graph.nodes then Err(MissingNode(id))
    else
      match ChangedNode(s.desired.graph.nodes[id], effect)
      case None => Err(WrongNodeKind(id))
      case Some(node) => Ok(WithNode(s, id, node))
  }

  /** One graph change on an unpublished candidate. */
  function ApplyGraph(s: Simulation, effect: GraphEffect): Result<Simulation, EffectError> {
    var graph, evidence := s.desired.graph, s.evidence;
    match effect
    case InsertNode(id, spec) =>
      if id in graph.nodes then Err(DuplicateNode(id)) else Ok(WithNode(s, id, Node(spec, None)))
    case RemoveNode(id) =>
      if id !in graph.nodes then Err(MissingNode(id))
      else Ok(Simulation(
        s.desired.(graph := graph.(nodes := graph.nodes - {id})),
        evidence.(projectedNodes := evidence.projectedNodes - {id},
                  activations := evidence.activations - {id},
                  interfaces := evidence.interfaces - {id})))
    case InsertDependency(d) =>
      Ok(s.(desired := s.desired.(graph := graph.(dependencies := graph.dependencies + {d}))))
    case RemoveDependency(d) =>
      if d !in graph.dependencies then Err(MissingDependency)
      else Ok(s.(desired := s.desired.(graph := graph.(dependencies := graph.dependencies - {d}))))
    case InsertRelation(l) =>
      Ok(s.(desired := s.desired.(graph := graph.(relations := graph.relations + {l}))))
    case RemoveRelation(l) =>
      if l !in graph.relations then Err(MissingRelation)
      else Ok(s.(desired := s.desired.(graph := graph.(relations := graph.relations - {l}))))
    case SetActivation(id, active) =>
      if id !in graph.nodes then Err(MissingNode(id))
      else Ok(s.(evidence := evidence.(
        activations := evidence.activations[id := active],
        interfaces := if active then evidence.interfaces else evidence.interfaces - {id})))
    case SetNodeSize(id, _) => UpdateNode(s, id, effect)
    case InvalidateNodeSize(id) => UpdateNode(s, id, effect)
    case SetPartitionAttributes(id, _) => UpdateNode(s, id, effect)
    case SetFilesystemLabel(id, _) => UpdateNode(s, id, effect)
    case SetBtrfsAllocation(id, _) => UpdateNode(s, id, effect)
  }

  // ---------------------------------------------------------------------------
  // Mount effects

  /** The list without every entry at one target. */
  function Without(entries: seq<MountEntry>, target: Path, context: MountContext): (r: seq<MountEntry>)
    ensures forall e :: e in r <==> e in entries && (e.target != target || e.context != context)
  {
    if entries == [] then []
    else
      var rest := Without(entries[1..], target, context);
      if entries[0].target != target || entries[0].context != context then [entries[0]] + rest else rest
  }

  /** Mounting a filesystem voids its clean check; an unresolved source voids all of them. */
  function ChecksAfterMount(checked: set<NodeId>, source: MountSource): set<NodeId> {
    if source.Filesystem? then checked - {source.node}
    else if UnresolvedSource(source) then {}
    else checked
  }

  /** One mount change; runtime and persistent configuration never mix. */
  function ApplyMount(s: Simulation, effect: MountEffect): Result<Simulation, EffectError> {
    var desired, evidence := s.desired, s.evidence;
    match effect
    case AddRuntime(entry) =>
      if MountAt(desired.runtime, entry.target, entry.context) then Err(OccupiedMountTarget(entry.target))
      else if HasMountedDescendant(desired.runtime, entry.target, entry.context)
      then Err(MountedDescendant(entry.target))
      else Ok(Simulation(
        desired.(runtime := desired.runtime + [entry]),
        evidence.(checkedFilesystems := ChecksAfterMount(evidence.checkedFilesystems, entry.source),
                  projectedMounts := true)))
    case RemoveRuntime(target, context) =>
      if HasMountedDescendant(desired.runtime, target, context) then Err(MountedDescendant(target))
      else Ok(Simulation(
        desired.(runtime := Without(desired.runtime, target, context)),
        evidence.(projectedMounts := true)))
    case SetPersistent(entry) =>
      Ok(Simulation(
        desired.(persistent := Without(desired.persistent, entry.target, entry.context) + [entry]),
        evidence.(persistentTargets := evidence.persistentTargets + {(entry.target, entry.context)})))
    case RemovePersistentEntry(target, context) =>
      Ok(Simulation(
        desired.(persistent := Without(desired.persistent, target, context)),
        evidence.(persistentTargets := evidence.persistentTargets + {(target, context)})))
  }

  // ---------------------------------------------------------------------------
  // Effect lists

  function ApplyGraphs(s: Simulation, effects: seq<GraphEffect>): Result<Simulation, EffectError>
    decreases |effects|
  {
    if effects == [] then Ok(s)
    else
      match ApplyGraph(s, effects[0])
      case Err(error) => Err(error)
      case Ok(next) => ApplyGraphs(next, effects[1..])
  }

  function ApplyMounts(s: Simulation, effects: seq<MountEffect>): Result<Simulation, EffectError>
    decreases |effects|
  {
    if effects == [] then Ok(s)
    else
      match ApplyMount(s, effects[0])
      case Err(error) => Err(error)
      case Ok(next) => ApplyMounts(next, effects[1..])
  }

  method ApplyGraphEffects(s: Simulation, effects: seq<GraphEffect>) returns (r: Result<Simulation, EffectError>)
    ensures r == ApplyGraphs(s, effects)
  {
    var next := s;
    for i := 0 to |effects|
      invariant ApplyGraphs(s, effects) == ApplyGraphs(next, effects[i..])
    {
      assert effects[i..][1..] == effects[i + 1..];
      match ApplyGraph(next, effects[i]) {
        case Err(error) => return Err(error);
        case Ok(value) => next := value;
      }
    }
    r := Ok(next);
  }

  method ApplyMountEffects(s: Simulation, effects: seq<MountEffect>) returns (r: Result<Simulation, EffectError>)
    ensures r == ApplyMounts(s, effects)
  {
    var next := s;
    for i := 0 to |effects|
      invariant ApplyMounts(s, effects) == ApplyMounts(next, effects[i..])
    {
      assert effects[i..][1..] == effects[i + 1..];
      match ApplyMount(next, effects[i]) {
        case Err(error) => return Err(error);
        case Ok(value) => next := value;
      }
    }
    r := Ok(next);
  }

  // ---------------------------------------------------------------------------
  // One action

  datatype ActionError =
    | ValidationFailed
    | PrerequisitesViolated(checks: seq<PrerequisiteCheck>)
    | EffectFailed(error: EffectError)

  /** What one simulated action reports about its own predecessor state. */
  datatype StepReport = StepReport(contract: ActionContract, checks: seq<PrerequisiteCheck>,
                                   facts: set<FactInvalidation>)

  datatype StepResult = StepResult(next: Simulation, report: StepReport)

  predicate AnyViolated(checks: seq<PrerequisiteCheck>) {
    exists i :: 0 <= i < |checks| && checks[i].status.Violated?
  }

  /** Evidence after every invalidation of the contract, before any effect. */
  ghost function Invalidated(s: Simulation, contract: ActionContract): Simulation {
    var graph := s.desired.graph;
    var revoked := Revoke(s.evidence, ExpandedFacts(graph, contract.invalidations));
    s.(evidence := revoked.(checkedFilesystems :=
      revoked.checkedFilesystems - ClosureOf(ContentEdges(graph), ContentRoots(contract.invalidations))))
  }

  /** State after the contract's invalidations and effects, before its outputs. */
  ghost function Projected(cat: Catalogue, s: Simulation, contract: ActionContract): Result<Simulation, EffectError> {
    match ApplyGraphs(Invalidated(s, contract), contract.effect.graph)
    case Err(error) => Err(error)
    case Ok(afterGraph) =>
      match ApplyMounts(afterGraph, contract.effect.mounts)
      case Err(error) => Err(error)
      case Ok(afterMounts) =>
        match ApplyAllocations(afterMounts.evidence, contract.effect.allocations)
        case Err(error) => Err(error)
        case Ok(evidence) =>
          if cat.structure(afterMounts.desired.graph) then Ok(Simulation(afterMounts.desired, evidence))
          else Err(InvalidStructure)
  }

  /** The successor state and report of one action, or the first reason it has none. */
  ghost function Step(cat: Catalogue, s: Simulation, action: ProviderAction): Result<StepResult, ActionError> {
    if !cat.valid(action, s.desired.graph) then Err(ValidationFailed)
    else
      var contract := cat.describe(action, s.desired.graph);
      var checks := EvaluatePrerequisites(s, contract.prerequisites);
      if AnyViolated(checks) then Err(PrerequisitesViolated(checks))
      else
        match Projected(cat, s, contract)
        case Err(error) => Err(EffectFailed(error))
        case Ok(next) =>
          Ok(StepResult(next.(evidence := OutputsFrom(next.evidence, contract.outputs)),
                        StepReport(contract, checks, ExpandedFacts(s.desired.graph, contract.invalidations))))
  }

  /** The mutable projection: configuration and evidence change together or not at all. */
  class Projection {
    var desired: DesiredState
    var evidence: SimulationEvidence

    ghost function State(): Simulation
      reads this
    {
      Simulation(desired, evidence)
    }

    constructor (start: Simulation)
      ensures State() == start
    {
      desired := start.desired;
      evidence := start.evidence;
    }

    /** Moves to `Projected`, or reports its error with both fields as they were. */
    method ApplyEffect(cat: Catalogue, contract: ActionContract)
      returns (r: Result<seq<FactInvalidation>, EffectError>)
      modifies this
      ensures r.Ok? ==> Projected(cat, old(State()), contract) == Ok(State())
                        && Elements(r.value) == ExpandedFacts(old(desired).graph, contract.invalidations)
      ensures r.Err? ==> Projected(cat, old(State()), contract) == Err(r.error) && State() == old(State())
    {
      var revoked, expanded := InvalidateObservations(desired.graph, evidence, contract.invalidations);
      revoked := InvalidateFilesystemChecks(desired.graph, revoked, contract.invalidations);
      var candidate := Simulation(desired, revoked);
      var graphed := ApplyGraphEffects(candidate, contract.effect.graph);
      if graphed.Err? {
        return Err(graphed.error);
      }
      var mounted := ApplyMountEffects(graphed.value, contract.effect.mounts);
      if mounted.Err? {
        return Err(mounted.error);
      }
      var accounted := ApplyAllocationEffects(mounted.value.evidence, contract.effect.allocations);
      if accounted.Err? {
        return Err(accounted.error);
      }
      if !cat.structure(mounted.value.desired.graph) {
        return Err(InvalidStructure);
      }
      desired := mounted.value.desired;
      evidence := accounted.value;
      r := Ok(expanded);
    }

    /** A known violation or a failed effect leaves both halves untouched. */
    method SimulateAction(cat: Catalogue, action: ProviderAction) returns (r: Result<StepReport, ActionError>)
      modifies this
      ensures r.Ok? ==> Step(cat, old(State()), action) == Ok(StepResult(State(), r.value))
      ensures r.Err? ==> Step(cat, old(State()), action) == Err(r.error) && State() == old(State())
    {
      if !cat.valid(action, desired.graph) {
        return Err(ValidationFailed);
      }
      var contract := cat.describe(action, desired.graph);
      var checks := EvaluatePrerequisites(Simulation(desired, evidence), contract.prerequisites);
      if AnyViolated(checks) {
        return Err(PrerequisitesViolated(checks));
      }
      var applied := ApplyEffect(cat, contract);
      if applied.Err? {
        return Err(EffectFailed(applied.error));
      }
      evidence := ApplyOutputs(evidence, contract.outputs);
      r := Ok(StepReport(contract, checks, Elements(applied.value)));
    }
  }
}
