/** Verdicts on contract conditions in one predecessor state: satisfied, violated or unknown. */
module Prerequisites {
  import opened Wrappers
  import opened StorageModel

  /** The ledger half of a simulation: claims that later steps may revoke. */
  datatype SimulationEvidence = SimulationEvidence(
    persistentTargets: set<(Path, MountContext)>,
    activations: map<NodeId, bool>,
    interfaces: map<NodeId, BlockInterfaceAccess>,
    capacity: map<AllocationDomain, nat>,
    projectedAllocations: set<AllocationDomain>,
    projectedNodes: set<NodeId>,
    checkedFilesystems: set<NodeId>,
    projectedMounts: bool,
    invalidated: set<FactInvalidation>)

  /** One predecessor state: the projected configuration and what is known about it. */
  datatype Simulation = Simulation(desired: DesiredState, evidence: SimulationEvidence)

  datatype CheckEvidence = ObservedSnapshot | PredictedEvidence

  datatype CheckStatus = Satisfied(source: CheckEvidence) | Violated | Unknown

  datatype PrerequisiteCheck = PrerequisiteCheck(prerequisite: ActionPrerequisite, status: CheckStatus)

  predicate IsStale(evidence: SimulationEvidence, node: NodeId, kind: FactKind) {
    FactInvalidation(NodeScope(node), kind) in evidence.invalidated
  }

  function SatisfiedForNode(evidence: SimulationEvidence, node: NodeId): CheckStatus {
    Satisfied(if node in evidence.projectedNodes then PredictedEvidence else ObservedSnapshot)
  }

  function MountEvidence(evidence: SimulationEvidence): CheckEvidence {
    if evidence.projectedMounts then PredictedEvidence else ObservedSnapshot
  }

  predicate MatchesKind(kind: NodeKind, expected: NodeKindClass) {
    match expected
    case BlockClass => kind.Disk? || kind.Partition? || kind.LogicalVolume?
    case PartitionClass => kind.Partition?
    case FilesystemClass => kind.FilesystemNode?
    case BtrfsClass => kind.FilesystemNode? && kind.filesystem.Btrfs?
    case VolumeGroupClass => kind.VolumeGroup?
  }

  predicate UnresolvedSource(source: MountSource) {
    source.Bind? || source.Other?
  }

  predicate MountedFrom(source: MountSource, node: NodeId) {
    source == Filesystem(node) || source == BtrfsSubvolume(node) || source == ZfsDataset(node)
  }

  /** Some runtime mount occupies exactly this target. */
  predicate MountAt(runtime: seq<MountEntry>, target: Path, context: MountContext) {
    exists i :: 0 <= i < |runtime| && runtime[i].target == target && runtime[i].context == context
  }

  /** The entry hangs strictly below the target: `target` is a proper prefix of its path. */
  predicate IsBelow(entry: MountEntry, target: Path, context: MountContext) {
    entry.context == context && entry.target != target && target <= entry.target
  }

  predicate HasMountedDescendant(runtime: seq<MountEntry>, target: Path, context: MountContext) {
    exists i :: 0 <= i < |runtime| && IsBelow(runtime[i], target, context)
  }

  /** Predicted claims decide first; the snapshot counts only while it is not stale. */
  function EvaluateEndpoint(s: Simulation, node: NodeId, writable: bool): CheckStatus {
    var evidence := s.evidence;
    if node !in s.desired.graph.nodes then Violated
    else if node in evidence.activations && !evidence.activations[node] then Violated
    else if node in evidence.interfaces then
      match evidence.interfaces[node]
      case ReadWrite => Satisfied(PredictedEvidence)
      case ReadOnly => if writable then Violated else Satisfied(PredictedEvidence)
    else if IsStale(evidence, node, Activation) || IsStale(evidence, node, Presence) then Unknown
    else
      var block := s.desired.graph.nodes[node].block;
      if !writable then
        if block.Some? then Satisfied(ObservedSnapshot) else Unknown
      else if block.None? || block.value.readOnly.None? then Unknown
      else if block.value.readOnly.value then Violated
      else Satisfied(ObservedSnapshot)
  }

  /** Edges through which some lower layer backs `node`. */
  function Backings(graph: NodeGraph, node: NodeId): set<Dependency> {
    set d | d in graph.dependencies && d.dst == node && d.kind.Backs?
  }

  /** Edges through which `node` backs some upper layer. */
  function Dependents(graph: NodeGraph, node: NodeId): set<Dependency> {
    set d | d in graph.dependencies && d.src == node && d.kind.Backs?
  }

  lemma SingletonMember<T>(s: set<T>, x: T, y: T)
    requires |s| == 1 && x in s && y in s
    ensures x == y
  {
    assert |s - {x}| == 0;
  }

  function Only<T(==)>(s: set<T>): (x: T)
    requires |s| == 1
    ensures s == {x}
  {
    assert s != {};
    assert forall x, y :: x in s && y in s ==> x == y by {
      forall x, y | x in s && y in s ensures x == y { SingletonMember(s, x, y); }
    }
    var x :| x in s;
    x
  }

  function EvaluateMountSource(s: Simulation, source: MountSource): CheckStatus {
    if !(source.Filesystem? || source.BtrfsSubvolume? || source.ZfsDataset?) then Unknown
    else if source.node !in s.desired.graph.nodes then Violated
    else
      var kind := s.desired.graph.nodes[source.node].spec.kind;
      var compatible :=
        || (source.Filesystem? && kind.FilesystemNode?)
        || (source.BtrfsSubvolume? && kind.SubvolumeNode?)
        || (source.ZfsDataset? && kind.DatasetNode?);
      var backings := Backings(s.desired.graph, source.node);
      if !compatible then Violated
      else if kind.FilesystemNode? && !kind.filesystem.Btrfs? && |backings| == 1 then
        var backing := Only(backings).src;
        if backing in s.desired.graph.nodes
           && MatchesKind(s.desired.graph.nodes[backing].spec.kind, BlockClass)
        then EvaluateEndpoint(s, backing, false)
        else Unknown
      else Unknown
  }

  /** The dependent is missing or larger than the proposed capacity. */
  predicate Overflows(graph: NodeGraph, d: Dependency, size: nat) {
    d.dst !in graph.nodes || (graph.nodes[d.dst].spec.size.Some? && graph.nodes[d.dst].spec.size.value > size)
  }

  predicate Unmeasured(graph: NodeGraph, d: Dependency) {
    d.dst in graph.nodes && graph.nodes[d.dst].spec.size.None?
  }

  /** A known contradiction wins over unknown sizes, whatever order the edges are visited in. */
  function DependentSizes(s: Simulation, node: NodeId, size: nat): CheckStatus {
    var graph, projected := s.desired.graph, s.evidence.projectedNodes;
    var dependents := Dependents(graph, node);
    if node !in graph.nodes then Violated
    else if exists d :: d in dependents && Overflows(graph, d, size) then Violated
    else if exists d :: d in dependents && Unmeasured(graph, d) then Unknown
    else if node in projected || exists d :: d in dependents && d.dst in projected
    then Satisfied(PredictedEvidence)
    else Satisfied(ObservedSnapshot)
  }

  /** What the three flags know about the edges visited so far. */
  ghost predicate FlagsKnow(s: Simulation, node: NodeId, size: nat, seen: set<Dependency>, found: bool, unknown: bool,
                            predicted: bool)
  {
    && (found <==> seen != {})
    && (forall d :: d in seen ==> !Overflows(s.desired.graph, d, size))
    && (unknown <==> exists d :: d in seen && Unmeasured(s.desired.graph, d))
    && (predicted <==> node in s.evidence.projectedNodes || exists d :: d in seen && d.dst in s.evidence.projectedNodes)
  }

  lemma FlagsLearn(s: Simulation, node: NodeId, size: nat, seen: set<Dependency>, d: Dependency, found: bool,
                   unknown: bool, predicted: bool)
    requires FlagsKnow(s, node, size, seen, found, unknown, predicted) && !Overflows(s.desired.graph, d, size)
    ensures FlagsKnow(s, node, size, seen + {d}, true, unknown || Unmeasured(s.desired.graph, d),
                      predicted || d.dst in s.evidence.projectedNodes)
  {
    var all := seen + {d};
    assert d in all;
    assert forall e :: e in all <==> e in seen || e == d;
  }

  lemma FlagsDecide(s: Simulation, node: NodeId, size: nat, found: bool, unknown: bool, predicted: bool)
    requires FlagsKnow(s, node, size, Dependents(s.desired.graph, node), found, unknown, predicted)
    requires node in s.desired.graph.nodes
    ensures DependentSizes(s, node, size)
            == if unknown then Unknown
               else if found then Satisfied(if predicted then PredictedEvidence else ObservedSnapshot)
               else SatisfiedForNode(s.evidence, node)
  {
  }

  /** A single pass with three flags, over an arbitrary enumeration of the edge set. */
  method VisitEdges(s: Simulation, node: NodeId, size: nat, all: set<Dependency>)
    returns (overflow: bool, found: bool, unknown: bool, predicted: bool)
    ensures overflow ==> exists d :: d in all && Overflows(s.desired.graph, d, size)
    ensures !overflow ==> FlagsKnow(s, node, size, all, found, unknown, predicted)
  {
    var rest := all;
    ghost var seen: set<Dependency> := {};
    overflow, found, unknown, predicted := false, false, false, node in s.evidence.projectedNodes;
    while rest != {}
      invariant seen + rest == all
      invariant FlagsKnow(s, node, size, seen, found, unknown, predicted)
      decreases |rest|
    {
      var d :| d in rest;
      if Overflows(s.desired.graph, d, size) {
        overflow := true;
        return;
      }
      FlagsLearn(s, node, size, seen, d, found, unknown, predicted);
      found := true;
      unknown := unknown || Unmeasured(s.desired.graph, d);
      predicted := predicted || d.dst in s.evidence.projectedNodes;
      rest := rest - {d};
      seen := seen + {d};
    }
    assert seen == all;
  }

  method EvaluateDependentSizes(s: Simulation, node: NodeId, size: nat) returns (status: CheckStatus)
    ensures status == DependentSizes(s, node, size)
  {
    if node !in s.desired.graph.nodes {
      return Violated;
    }
    var overflow, found, unknown, predicted := VisitEdges(s, node, size, Dependents(s.desired.graph, node));
    if overflow {
      return Violated;
    }
    FlagsDecide(s, node, size, found, unknown, predicted);
    if unknown {
      return Unknown;
    }
    if found {
      return Satisfied(if predicted then PredictedEvidence else ObservedSnapshot);
    }
    status := SatisfiedForNode(s.evidence, node);
  }

  function EvaluateBackingSize(s: Simulation, node: NodeId, size: nat): CheckStatus {
    var graph := s.desired.graph;
    var backings := Backings(graph, node);
    if node !in graph.nodes then Violated
    else if |backings| != 1 then Unknown
    else
      var backing := Only(backings).src;
      if backing !in graph.nodes then Violated
      else if graph.nodes[backing].spec.size.None? then Unknown
      else if graph.nodes[backing].spec.size.value < size then Violated
      else if node in s.evidence.projectedNodes || backing in s.evidence.projectedNodes
      then Satisfied(PredictedEvidence)
      else Satisfied(ObservedSnapshot)
  }

  function EvaluateCapacity(evidence: SimulationEvidence, domain: AllocationDomain, amount: Option<nat>): CheckStatus {
    if amount.None? || domain !in evidence.capacity then Unknown
    else if evidence.capacity[domain] < amount.value then Violated
    else if domain in evidence.projectedAllocations then Satisfied(PredictedEvidence)
    else Satisfied(ObservedSnapshot)
  }

  /** Evaluates one condition without changing the projection. */
  function EvaluatePrerequisite(s: Simulation, p: ActionPrerequisite): CheckStatus {
    var graph, runtime, evidence := s.desired.graph, s.desired.runtime, s.evidence;
    match p
    case NodeExists(node) =>
      if node in graph.nodes then SatisfiedForNode(evidence, node) else Violated
    case NodeOfKind(node, expected) =>
      if node in graph.nodes && MatchesKind(graph.nodes[node].spec.kind, expected)
      then SatisfiedForNode(evidence, node) else Violated
    case NoUnexpectedConsumers(node) =>
      if || node !in graph.nodes
         || (exists d :: d in graph.dependencies && d.src == node)
         || (exists i :: 0 <= i < |runtime| && MountedFrom(runtime[i].source, node))
      then Violated
      else if exists i :: 0 <= i < |runtime| && UnresolvedSource(runtime[i].source) then Unknown
      else SatisfiedForNode(evidence, node)
    case NoUnexpectedRelations(node) =>
      if node !in graph.nodes || exists l :: l in graph.relations && (l.src == node || l.dst == node)
      then Violated else SatisfiedForNode(evidence, node)
    case Writable(node) => EvaluateEndpoint(s, node, true)
    case MountSourceAvailable(source) => EvaluateMountSource(s, source)
    case FilesystemUnmounted(node) =>
      if node !in graph.nodes || exists i :: 0 <= i < |runtime| && runtime[i].source == Filesystem(node) then Violated
      else if exists i :: 0 <= i < |runtime| && UnresolvedSource(runtime[i].source) then Unknown
      else Satisfied(MountEvidence(evidence))
    case FilesystemCheckRequired(node) =>
      if node in evidence.checkedFilesystems then Satisfied(PredictedEvidence) else Violated
    case FilesystemMinimumSize(_, _) => Unknown
    case DestructiveApproval(_) => Unknown
    case CredentialAvailable(_) => Unknown
    case ExtentAvailable(_, _, _) => Unknown
    case DistinctNodes(nodes) =>
      if |Elements(nodes)| == |nodes| then Satisfied(PredictedEvidence) else Violated
    case DependentsFitWithin(node, size) => DependentSizes(s, node, size)
    case BackingSizeAtLeast(node, size) => EvaluateBackingSize(s, node, size)
    case CapacityAvailable(domain, amount) => EvaluateCapacity(evidence, domain, amount)
    case MountTargetAvailable(target, context) =>
      if MountAt(runtime, target, context) then Violated else Satisfied(MountEvidence(evidence))
    case MountDescendantsAbsent(target, context) =>
      if HasMountedDescendant(runtime, target, context) then Violated else Satisfied(MountEvidence(evidence))
  }

  /** Evaluates a whole condition list in order, each tied to its exact condition. */
  function EvaluatePrerequisites(s: Simulation, conditions: seq<ActionPrerequisite>): (checks: seq<PrerequisiteCheck>)
    ensures |checks| == |conditions|
    ensures forall i :: 0 <= i < |conditions| ==>
      checks[i].prerequisite == conditions[i] && checks[i].status == EvaluatePrerequisite(s, conditions[i])
  {
    seq(|conditions|, i requires 0 <= i < |conditions| =>
      PrerequisiteCheck(conditions[i], EvaluatePrerequisite(s, conditions[i])))
  }
}
