/**
 Values shared by planning and simulation: the storage graph, mounts, provider
 actions and the contracts that describe them.  Diagnostic texts are dropped and
 the long catalogues of node kinds and provider operations are represented by a
 few members each; the provider catalogue itself is a parameter.
 */
module StorageModel {
  import opened Wrappers

  type NodeId = nat

  /** A mount path as its sequence of components. */
  type Path = seq<string>

  // ---------------------------------------------------------------------------
  // Storage graph

  datatype FilesystemKind = Btrfs(allocation: nat) | Plain(name: string)

  datatype NodeKind =
    | Disk
    | Partition(attributes: nat)
    | FilesystemNode(filesystem: FilesystemKind, name: Option<string>)
    | SubvolumeNode
    | DatasetNode
    | VolumeGroup
    | LogicalVolume

  datatype NodeKindClass = BlockClass | PartitionClass | FilesystemClass | BtrfsClass | VolumeGroupClass

  datatype NodeSpec = NodeSpec(kind: NodeKind, size: Option<nat>)

  /** Historical endpoint observation of a block node. */
  datatype BlockFacts = BlockFacts(readOnly: Option<bool>)

  datatype Node = Node(spec: NodeSpec, block: Option<BlockFacts>)

  datatype DependencyKind = Backs | Contains(offset: nat) | Provides | MemberOf(slot: nat) | Caches | PathOf

  datatype Dependency = Dependency(src: NodeId, dst: NodeId, kind: DependencyKind)

  datatype Relation = Relation(src: NodeId, dst: NodeId, kind: string)

  datatype NodeGraph = NodeGraph(
    nodes: map<NodeId, Node>,
    dependencies: set<Dependency>,
    relations: set<Relation>)

  // ---------------------------------------------------------------------------
  // Mounts and states

  datatype MountContext = Host | TargetRoot(root: Path) | Namespace(name: string)

  datatype MountSource =
    | Filesystem(node: NodeId)
    | BtrfsSubvolume(node: NodeId)
    | ZfsDataset(node: NodeId)
    | Bind(path: Path)
    | Tmpfs
    | Network(server: string)
    | Other(name: string)

  datatype MountEntry = MountEntry(source: MountSource, target: Path, options: seq<string>, context: MountContext)

  datatype BootSpec = Unmanaged | Managed(loader: string)

  /** Observed snapshot; its diagnostics and environment never influence planning. */
  datatype CurrentState = CurrentState(graph: NodeGraph, mounts: seq<MountEntry>)

  datatype DesiredState = DesiredState(
    graph: NodeGraph,
    runtime: seq<MountEntry>,
    persistent: seq<MountEntry>,
    boot: BootSpec)

  /** Copies observed configuration; persistent mounts and boot stay unclaimed. */
  function FromCurrent(current: CurrentState): DesiredState {
    DesiredState(current.graph, current.mounts, [], Unmanaged)
  }

  // ---------------------------------------------------------------------------
  // Contracts

  datatype AllocationDomain = LvmVolumeGroup(node: NodeId)

  datatype ActionPrerequisite =
    | NodeExists(node: NodeId)
    | NodeOfKind(node: NodeId, expected: NodeKindClass)
    | NoUnexpectedConsumers(node: NodeId)
    | NoUnexpectedRelations(node: NodeId)
    | Writable(node: NodeId)
    | MountSourceAvailable(source: MountSource)
    | FilesystemUnmounted(node: NodeId)
    | FilesystemCheckRequired(node: NodeId)
    | FilesystemMinimumSize(node: NodeId, size: nat)
    | DestructiveApproval(node: NodeId)
    | CredentialAvailable(reference: string)
    | ExtentAvailable(node: NodeId, offset: nat, size: nat)
    | DistinctNodes(nodes: seq<NodeId>)
    | DependentsFitWithin(node: NodeId, size: nat)
    | BackingSizeAtLeast(node: NodeId, size: nat)
    | CapacityAvailable(domain: AllocationDomain, amount: Option<nat>)
    | MountTargetAvailable(target: Path, context: MountContext)
    | MountDescendantsAbsent(target: Path, context: MountContext)

  datatype BlockInterfaceAccess = ReadOnly | ReadWrite

  datatype ActionOutput =
    | NodeOutput(id: NodeId, spec: NodeSpec)
    | BlockInterface(node: NodeId, access: BlockInterfaceAccess)
    | MountOutput(entry: MountEntry)
    | PersistentMountOutput(entry: MountEntry)
    | FilesystemCheckPassed(node: NodeId)

  datatype ActionResource =
    | RuntimeMountState
    | NodeResource(node: NodeId)
    | PartitionTable(node: NodeId)
    | LvmMetadata(node: NodeId)
    | MountTargetResource(target: Path, context: MountContext)
    | PersistentMountConfig(context: MountContext)

  datatype ResourceAccessMode = Read | Write

  datatype ResourceAccess = ResourceAccess(resource: ActionResource, mode: ResourceAccessMode)

  datatype AllocationEffect =
    | Invalidate(domain: AllocationDomain)
    | Reserve(domain: AllocationDomain, amount: nat)
    | Release(domain: AllocationDomain, amount: nat)

  datatype GraphEffect =
    | InsertNode(id: NodeId, spec: NodeSpec)
    | RemoveNode(id: NodeId)
    | SetNodeSize(id: NodeId, size: nat)
    | InvalidateNodeSize(id: NodeId)
    | SetPartitionAttributes(id: NodeId, attributes: nat)
    | SetFilesystemLabel(id: NodeId, name: Option<string>)
    | SetBtrfsAllocation(id: NodeId, allocation: nat)
    | InsertDependency(dependency: Dependency)
    | RemoveDependency(dependency: Dependency)
    | InsertRelation(relation: Relation)
    | RemoveRelation(relation: Relation)
    | SetActivation(id: NodeId, active: bool)

  datatype MountEffect =
    | AddRuntime(entry: MountEntry)
    | RemoveRuntime(target: Path, context: MountContext)
    | SetPersistent(entry: MountEntry)
    | RemovePersistentEntry(target: Path, context: MountContext)

  datatype PredictedEffect = PredictedEffect(
    graph: seq<GraphEffect>,
    mounts: seq<MountEffect>,
    allocations: seq<AllocationEffect>)

  datatype FactScope =
    | NodeScope(node: NodeId)
    | MountTargetScope(target: Path, context: MountContext)
    | PersistentScope(context: MountContext)

  datatype FactKind = Presence | Geometry | Identity | Topology | Content | Activation | Mount

  datatype FactInvalidation = FactInvalidation(scope: FactScope, kind: FactKind)

  /** A condition to verify once an action has completed; only its identity matters here. */
  datatype Postcondition = Postcondition(subject: string, node: NodeId)

  datatype RestartPolicy = Idempotent | ReprobeThenRetry | VerifyThenRetry | ManualRecovery

  datatype ActionContract = ActionContract(
    prerequisites: seq<ActionPrerequisite>,
    outputs: seq<ActionOutput>,
    resources: seq<ResourceAccess>,
    effect: PredictedEffect,
    invalidations: seq<FactInvalidation>,
    postconditions: seq<Postcondition>,
    restart: RestartPolicy)

  // ---------------------------------------------------------------------------
  // Provider actions

  /** Creating and modifying operations carry the nodes they touch; mounts are explicit. */
  datatype ProviderAction =
    | Create(planned: NodeId, inputs: seq<NodeId>, operation: string)
    | Modify(inputs: seq<NodeId>, operation: string)
    | MountRuntime(entry: MountEntry)
    | UnmountRuntime(target: Path, context: MountContext)
    | Persist(entry: MountEntry)
    | RemovePersistent(target: Path, context: MountContext)

  function MountSourceNode(source: MountSource): seq<NodeId> {
    match source
    case Filesystem(node) => [node]
    case BtrfsSubvolume(node) => [node]
    case ZfsDataset(node) => [node]
    case _ => []
  }

  /** Graph nodes an action needs as inputs. */
  function ReferencedNodes(action: ProviderAction): seq<NodeId> {
    match action
    case Create(_, inputs, _) => inputs
    case Modify(inputs, _) => inputs
    case MountRuntime(entry) => MountSourceNode(entry.source)
    case Persist(entry) => MountSourceNode(entry.source)
    case UnmountRuntime(_, _) => []
    case RemovePersistent(_, _) => []
  }

  /** Requested aspect of a final configuration. */
  datatype GoalAspect =
    | GraphAspect
    | RuntimeMountAspect(target: Path, context: MountContext)
    | PersistentMountAspect(target: Path, context: MountContext)
    | BootAspect

  /**
   The trusted provider layer, deterministic in the action and the graph:
   contract description, technology validation, graph structure validation and
   contract canonicalisation (which may fail to serialise).
   */
  datatype Catalogue = Catalogue(
    describe: (ProviderAction, NodeGraph) -> ActionContract,
    valid: (ProviderAction, NodeGraph) -> bool,
    structure: NodeGraph -> bool,
    canonical: ActionContract -> Option<ActionContract>)
}
