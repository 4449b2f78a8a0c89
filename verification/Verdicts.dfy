/**
 What every condition's verdict means: at any moment of any trace it follows from
 the observed baseline and from what the earlier steps did, and from nothing else.
 */
module Verdicts {
  import opened Wrappers
  import opened StorageModel
  import opened Prerequisites
  import opened Evidence
  import opened Flow
  import opened Effects
  import opened Traces
  import opened GraphHistory
  import opened MountTable
  import opened Endpoints
  import Replay

  /** The state after the first k steps of a trace that starts from an observed configuration. */
  datatype Moment = Moment(
    cat: Catalogue, current: CurrentState, capacity: seq<CapacityEvidence>, states: seq<Simulation>,
    actions: seq<ProviderAction>, k: nat)

  ghost predicate IsMoment(m: Moment) {
    && IsTrace(m.cat, m.states, m.actions) && m.k <= |m.actions|
    && m.states[0] == Replay.InitialState(m.current, m.capacity)
  }

  // ---------------------------------------------------------------------------
  // Readings of the past

  ghost function Changes(m: Moment): seq<GraphEffect>
    requires IsMoment(m)
  {
    EffectHistory(m.cat, m.states, m.actions, m.k)
  }

  ghost function Mountings(m: Moment): seq<MountEffect>
    requires IsMoment(m)
  {
    MountHistory(m.cat, m.states, m.actions, m.k)
  }

  ghost predicate Exists(m: Moment, n: NodeId)
    requires IsMoment(m)
  {
    IsPresent(Changes(m), n, n in m.current.graph.nodes)
  }

  ghost function KindOf(m: Moment, n: NodeId): Option<NodeKind>
    requires IsMoment(m)
  {
    KindAfter(Changes(m), n,
              if n in m.current.graph.nodes then Some(m.current.graph.nodes[n].spec.kind) else None)
  }

  ghost function SizeOf(m: Moment, n: NodeId): Option<nat>
    requires IsMoment(m)
  {
    SizeAfter(Changes(m), n, if n in m.current.graph.nodes then m.current.graph.nodes[n].spec.size else None)
  }

  /** The historical endpoint observation, which an insertion under the same identity voids. */
  ghost function Observation(m: Moment, n: NodeId): Option<BlockFacts>
    requires IsMoment(m)
  {
    if WasInserted(Changes(m), n) || n !in m.current.graph.nodes then None else m.current.graph.nodes[n].block
  }

  ghost predicate Depends(m: Moment, d: Dependency)
    requires IsMoment(m)
  {
    HasDependency(Changes(m), d, d in m.current.graph.dependencies)
  }

  ghost predicate Relates(m: Moment, l: Relation)
    requires IsMoment(m)
  {
    HasRelation(Changes(m), l, l in m.current.graph.relations)
  }

  ghost predicate Mounted(m: Moment, entry: MountEntry)
    requires IsMoment(m)
  {
    IsMounted(m.current.mounts, Mountings(m), entry)
  }

  ghost function BasisOf(predicted: bool): CheckEvidence {
    if predicted then PredictedEvidence else ObservedSnapshot
  }

  /** A satisfied statement about a node rests on a prediction once some step set its value. */
  ghost function HoldsFor(m: Moment, n: NodeId): CheckStatus
    requires IsMoment(m)
  {
    Satisfied(BasisOf(IsPredicted(Changes(m), n)))
  }

  ghost function HoldsForMounts(m: Moment): CheckStatus
    requires IsMoment(m)
  {
    Satisfied(BasisOf(ChangesRuntime(Mountings(m))))
  }

  lemma NodeRecalled(m: Moment, n: NodeId)
    requires IsMoment(m)
    ensures var s := m.states[m.k];
      && (n in s.desired.graph.nodes <==> Exists(m, n))
      && SatisfiedForNode(s.evidence, n) == HoldsFor(m, n)
      && (n in s.evidence.projectedNodes <==> IsPredicted(Changes(m), n))
      && (Exists(m, n) ==>
            && KindOf(m, n) == Some(s.desired.graph.nodes[n].spec.kind)
            && SizeOf(m, n) == s.desired.graph.nodes[n].spec.size
            && Observation(m, n) == s.desired.graph.nodes[n].block)
  {
    NodeIsLastWrite(m.cat, m.states, m.actions, m.k, n);
    assert NodeAgreesAt(m.cat, m.states, m.actions, m.k, n);
  }

  lemma EdgesRecalled(m: Moment)
    requires IsMoment(m)
    ensures forall d: Dependency :: d in m.states[m.k].desired.graph.dependencies <==> Depends(m, d)
    ensures forall l: Relation :: l in m.states[m.k].desired.graph.relations <==> Relates(m, l)
  {
    var someEdge, someRelation := Dependency(0, 0, Backs), Relation(0, 0, "");
    forall d: Dependency ensures d in m.states[m.k].desired.graph.dependencies <==> Depends(m, d) {
      EdgesAreLastWrites(m.cat, m.states, m.actions, m.k, d, someRelation);
      assert EdgesAgreeAt(m.cat, m.states, m.actions, m.k, d, someRelation);
    }
    forall l: Relation ensures l in m.states[m.k].desired.graph.relations <==> Relates(m, l) {
      EdgesAreLastWrites(m.cat, m.states, m.actions, m.k, someEdge, l);
      assert EdgesAgreeAt(m.cat, m.states, m.actions, m.k, someEdge, l);
    }
  }

  lemma MountsRecalled(m: Moment)
    requires IsMoment(m)
    ensures forall entry: MountEntry :: entry in m.states[m.k].desired.runtime <==> Mounted(m, entry)
    ensures Satisfied(MountEvidence(m.states[m.k].evidence)) == HoldsForMounts(m)
  {
    RuntimeIsLastWrite(m.cat, m.states, m.actions, m.k);
    assert TableAgreesAt(m.cat, m.states, m.actions, m.k);
  }

  // ---------------------------------------------------------------------------
  // Nodes, edges and mounts

  /** The kinds each class admits. */
  predicate Admits(expected: NodeKindClass, kind: NodeKind) {
    match kind
    case Disk => expected == BlockClass
    case Partition(_) => expected == BlockClass || expected == PartitionClass
    case LogicalVolume => expected == BlockClass
    case FilesystemNode(Btrfs(_), _) => expected == FilesystemClass || expected == BtrfsClass
    case FilesystemNode(Plain(_), _) => expected == FilesystemClass
    case VolumeGroup => expected == VolumeGroupClass
    case SubvolumeNode => false
    case DatasetNode => false
  }

  ghost function ExistsVerdict(m: Moment, n: NodeId): CheckStatus
    requires IsMoment(m)
  {
    if Exists(m, n) then HoldsFor(m, n) else Violated
  }

  ghost function KindVerdict(m: Moment, n: NodeId, expected: NodeKindClass): CheckStatus
    requires IsMoment(m)
  {
    if Exists(m, n) && KindOf(m, n).Some? && Admits(expected, KindOf(m, n).value) then HoldsFor(m, n) else Violated
  }

  ghost predicate HasUnclearMount(m: Moment)
    requires IsMoment(m)
  {
    exists e :: Mounted(m, e) && (e.source.Bind? || e.source.Other?)
  }

  /** Something stands on the node: an upper layer, or a mount of whatever kind. */
  ghost predicate IsConsumed(m: Moment, n: NodeId)
    requires IsMoment(m)
  {
    || (exists d :: Depends(m, d) && d.src == n)
    || (exists e :: Mounted(m, e) && MountSourceNode(e.source) == [n])
  }

  ghost function ConsumersVerdict(m: Moment, n: NodeId): CheckStatus
    requires IsMoment(m)
  {
    if !Exists(m, n) || IsConsumed(m, n) then Violated
    else if HasUnclearMount(m) then Unknown
    else HoldsFor(m, n)
  }

  ghost function RelationsVerdict(m: Moment, n: NodeId): CheckStatus
    requires IsMoment(m)
  {
    if Exists(m, n) && forall l :: Relates(m, l) ==> l.src != n && l.dst != n then HoldsFor(m, n) else Violated
  }

  ghost function UnmountedVerdict(m: Moment, n: NodeId): CheckStatus
    requires IsMoment(m)
  {
    if !Exists(m, n) || exists e :: Mounted(m, e) && e.source == Filesystem(n) then Violated
    else if HasUnclearMount(m) then Unknown
    else HoldsForMounts(m)
  }

  ghost function TargetVerdict(m: Moment, target: Path, context: MountContext): CheckStatus
    requires IsMoment(m)
  {
    if exists e :: Mounted(m, e) && SitsAt(e, target, context) then Violated else HoldsForMounts(m)
  }

  ghost function DescendantsVerdict(m: Moment, target: Path, context: MountContext): CheckStatus
    requires IsMoment(m)
  {
    if exists e :: Mounted(m, e) && HangsBelow(e, target, context) then Violated else HoldsForMounts(m)
  }

  lemma NodeVerdicts(m: Moment, n: NodeId, expected: NodeKindClass)
    requires IsMoment(m)
    ensures EvaluatePrerequisite(m.states[m.k], NodeExists(n)) == ExistsVerdict(m, n)
    ensures EvaluatePrerequisite(m.states[m.k], NodeOfKind(n, expected)) == KindVerdict(m, n, expected)
  {
    NodeRecalled(m, n);
  }

  lemma UnclearRecalled(m: Moment)
    requires IsMoment(m)
    ensures var runtime := m.states[m.k].desired.runtime;
      (exists i :: 0 <= i < |runtime| && UnresolvedSource(runtime[i].source)) <==> HasUnclearMount(m)
  {
    var runtime := m.states[m.k].desired.runtime;
    MountsRecalled(m);
    if i :| 0 <= i < |runtime| && UnresolvedSource(runtime[i].source) {
      assert Mounted(m, runtime[i]);
    }
    if e :| Mounted(m, e) && (e.source.Bind? || e.source.Other?) {
      assert e in runtime;
    }
  }

  lemma ConsumersRecalled(m: Moment, n: NodeId)
    requires IsMoment(m)
    ensures EvaluatePrerequisite(m.states[m.k], NoUnexpectedConsumers(n)) == ConsumersVerdict(m, n)
  {
    var runtime := m.states[m.k].desired.runtime;
    NodeRecalled(m, n);
    EdgesRecalled(m);
    MountsRecalled(m);
    UnclearRecalled(m);
    if i :| 0 <= i < |runtime| && MountedFrom(runtime[i].source, n) {
      assert Mounted(m, runtime[i]);
    }
    if e :| Mounted(m, e) && MountSourceNode(e.source) == [n] {
      assert e in runtime;
      var i :| 0 <= i < |runtime| && runtime[i] == e;
      assert MountSourceNode(e.source)[0] == n;
      assert MountedFrom(runtime[i].source, n);
    }
  }

  lemma UnmountedRecalled(m: Moment, n: NodeId)
    requires IsMoment(m)
    ensures EvaluatePrerequisite(m.states[m.k], FilesystemUnmounted(n)) == UnmountedVerdict(m, n)
  {
    var runtime := m.states[m.k].desired.runtime;
    NodeRecalled(m, n);
    MountsRecalled(m);
    UnclearRecalled(m);
    if i :| 0 <= i < |runtime| && runtime[i].source == Filesystem(n) {
      assert Mounted(m, runtime[i]);
    }
    if e :| Mounted(m, e) && e.source == Filesystem(n) {
      assert e in runtime;
    }
  }

  lemma RelationsRecalled(m: Moment, n: NodeId)
    requires IsMoment(m)
    ensures EvaluatePrerequisite(m.states[m.k], NoUnexpectedRelations(n)) == RelationsVerdict(m, n)
  {
    NodeRecalled(m, n);
    EdgesRecalled(m);
  }

  lemma TargetsRecalled(m: Moment, target: Path, context: MountContext)
    requires IsMoment(m)
    ensures EvaluatePrerequisite(m.states[m.k], MountTargetAvailable(target, context))
            == TargetVerdict(m, target, context)
    ensures EvaluatePrerequisite(m.states[m.k], MountDescendantsAbsent(target, context))
            == DescendantsVerdict(m, target, context)
  {
    MountsRecalled(m);
    AtIsSits(m.states[m.k].desired.runtime, target, context);
    DescendantHangs(m.states[m.k].desired.runtime, target, context);
  }

  // ---------------------------------------------------------------------------
  // Endpoints and mount sources

  /** A claim still standing decides; the observation counts only if nothing ever disturbed it. */
  ghost function EndpointVerdict(m: Moment, n: NodeId, writable: bool): CheckStatus
    requires IsMoment(m)
  {
    if !Exists(m, n) || FreshlySwitched(m.cat, m.states, m.actions, m.k, n, false) then Violated
    else if FreshlyGranted(m.cat, m.states, m.actions, m.k, n, ReadWrite) then Satisfied(PredictedEvidence)
    else if FreshlyGranted(m.cat, m.states, m.actions, m.k, n, ReadOnly)
    then if writable then Violated else Satisfied(PredictedEvidence)
    else if exists i: nat :: i < m.k && DisturbedAt(m.cat, m.states, m.actions, i, n) then Unknown
    else
      match Observation(m, n)
      case None => Unknown
      case Some(facts) =>
        if !writable || facts.readOnly == Some(false) then Satisfied(ObservedSnapshot)
        else if facts.readOnly == Some(true) then Violated
        else Unknown
  }

  lemma EndpointRecalled(m: Moment, n: NodeId, writable: bool)
    requires IsMoment(m)
    ensures EvaluateEndpoint(m.states[m.k], n, writable) == EndpointVerdict(m, n, writable)
  {
    var evidence := m.states[m.k].evidence;
    NodeRecalled(m, n);
    ActivationsAreFresh(m.cat, m.states, m.actions, m.k, n, false);
    InterfacesAreFresh(m.cat, m.states, m.actions, m.k, n, ReadWrite);
    InterfacesAreFresh(m.cat, m.states, m.actions, m.k, n, ReadOnly);
    OutdatedExactly(m.cat, m.states, m.actions, m.k, n);
    assert ActivationOf(evidence, n) == Some(false) <==> n in evidence.activations && !evidence.activations[n];
    assert n in evidence.interfaces ==> AccessOf(evidence, n) == Some(evidence.interfaces[n]);
    if n in evidence.interfaces {
      match evidence.interfaces[n]
      case ReadWrite => assert AccessOf(evidence, n) == Some(ReadWrite);
      case ReadOnly => assert AccessOf(evidence, n) == Some(ReadOnly);
    }
  }

  ghost predicate Backed(m: Moment, n: NodeId, d: Dependency)
    requires IsMoment(m)
  {
    Depends(m, d) && d.dst == n && d.kind == Backs
  }

  ghost predicate IsSoleBacking(m: Moment, n: NodeId, d: Dependency)
    requires IsMoment(m)
  {
    Backed(m, n, d) && forall e :: Backed(m, n, e) ==> e == d
  }

  lemma BackingsRecalled(m: Moment, n: NodeId)
    requires IsMoment(m)
    ensures var backings := Backings(m.states[m.k].desired.graph, n);
      && (|backings| == 1 <==> exists d :: IsSoleBacking(m, n, d))
      && (|backings| == 1 ==> IsSoleBacking(m, n, Only(backings)))
  {
    var backings := Backings(m.states[m.k].desired.graph, n);
    EdgesRecalled(m);
    assert forall d :: d in backings <==> Backed(m, n, d);
    if |backings| == 1 {
      assert backings == {Only(backings)};
      assert IsSoleBacking(m, n, Only(backings));
    }
    if d :| IsSoleBacking(m, n, d) {
      assert backings == {d};
    }
  }

  /** The state of the one block device below, if there is exactly one. */
  ghost function DeviceVerdict(m: Moment, n: NodeId): CheckStatus
    requires IsMoment(m)
  {
    if d :| IsSoleBacking(m, n, d) then
      if KindVerdict(m, d.src, BlockClass).Satisfied? then EndpointVerdict(m, d.src, false) else Unknown
    else Unknown
  }

  lemma DeviceRecalled(m: Moment, n: NodeId)
    requires IsMoment(m)
    ensures var s := m.states[m.k];
      var backings := Backings(s.desired.graph, n);
      && (|backings| != 1 ==> DeviceVerdict(m, n) == Unknown)
      && (|backings| == 1 ==>
            var device := Only(backings).src;
            DeviceVerdict(m, n)
            == if EvaluatePrerequisite(s, NodeOfKind(device, BlockClass)).Satisfied?
               then EvaluateEndpoint(s, device, false) else Unknown)
  {
    var backings := Backings(m.states[m.k].desired.graph, n);
    BackingsRecalled(m, n);
    if |backings| == 1 {
      NodeVerdicts(m, Only(backings).src, BlockClass);
      EndpointRecalled(m, Only(backings).src, false);
    }
  }

  /** Only a plain filesystem on one block device can be judged without the provider. */
  ghost function SourceVerdict(m: Moment, source: MountSource): CheckStatus
    requires IsMoment(m)
  {
    if MountSourceNode(source) == [] then Unknown
    else
      var n := MountSourceNode(source)[0];
      if !Exists(m, n) || KindOf(m, n).None? then Violated
      else
        match KindOf(m, n).value
        case FilesystemNode(Plain(_), _) => if source == Filesystem(n) then DeviceVerdict(m, n) else Violated
        case FilesystemNode(Btrfs(_), _) => if source == Filesystem(n) then Unknown else Violated
        case SubvolumeNode => if source == BtrfsSubvolume(n) then Unknown else Violated
        case DatasetNode => if source == ZfsDataset(n) then Unknown else Violated
        case _ => Violated
  }

  lemma SourceRecalled(m: Moment, source: MountSource)
    requires IsMoment(m)
    ensures EvaluatePrerequisite(m.states[m.k], MountSourceAvailable(source)) == SourceVerdict(m, source)
  {
    if MountSourceNode(source) != [] {
      var n := MountSourceNode(source)[0];
      NodeRecalled(m, n);
      DeviceRecalled(m, n);
    }
  }

  // ---------------------------------------------------------------------------
  // Sizes and capacity

  ghost predicate StandsOn(m: Moment, n: NodeId, d: Dependency)
    requires IsMoment(m)
  {
    Depends(m, d) && d.src == n && d.kind == Backs
  }

  /** Every measured layer on top must fit; a missing one cannot. */
  ghost function DependentsVerdict(m: Moment, n: NodeId, size: nat): CheckStatus
    requires IsMoment(m)
  {
    if || !Exists(m, n)
       || exists d :: StandsOn(m, n, d)
            && (!Exists(m, d.dst) || (SizeOf(m, d.dst).Some? && SizeOf(m, d.dst).value > size))
    then Violated
    else if exists d :: StandsOn(m, n, d) && SizeOf(m, d.dst).None? then Unknown
    else Satisfied(BasisOf(|| IsPredicted(Changes(m), n)
                           || exists d :: StandsOn(m, n, d) && IsPredicted(Changes(m), d.dst)))
  }

  lemma DependentsRecalled(m: Moment, n: NodeId, size: nat)
    requires IsMoment(m)
    ensures EvaluatePrerequisite(m.states[m.k], DependentsFitWithin(n, size)) == DependentsVerdict(m, n, size)
  {
    var s := m.states[m.k];
    var dependents := Dependents(s.desired.graph, n);
    NodeRecalled(m, n);
    EdgesRecalled(m);
    forall d: Dependency
      ensures d in dependents <==> StandsOn(m, n, d)
      ensures Overflows(s.desired.graph, d, size)
              <==> !Exists(m, d.dst) || (SizeOf(m, d.dst).Some? && SizeOf(m, d.dst).value > size)
      ensures Unmeasured(s.desired.graph, d) <==> Exists(m, d.dst) && SizeOf(m, d.dst).None?
      ensures d.dst in s.evidence.projectedNodes <==> IsPredicted(Changes(m), d.dst)
    {
      NodeRecalled(m, d.dst);
    }
  }

  /** The one layer below must be measured and large enough. */
  ghost function BackingVerdict(m: Moment, n: NodeId, size: nat): CheckStatus
    requires IsMoment(m)
  {
    if !Exists(m, n) then Violated
    else if d :| IsSoleBacking(m, n, d) then
      if !Exists(m, d.src) then Violated
      else if SizeOf(m, d.src).None? then Unknown
      else if SizeOf(m, d.src).value < size then Violated
      else Satisfied(BasisOf(IsPredicted(Changes(m), n) || IsPredicted(Changes(m), d.src)))
    else Unknown
  }

  lemma BackingRecalled(m: Moment, n: NodeId, size: nat)
    requires IsMoment(m)
    ensures EvaluatePrerequisite(m.states[m.k], BackingSizeAtLeast(n, size)) == BackingVerdict(m, n, size)
  {
    NodeRecalled(m, n);
    BackingsRecalled(m, n);
    if d :| IsSoleBacking(m, n, d) {
      NodeRecalled(m, d.src);
    }
  }

  /** The supplied capacity, while no step made it unknown. */
  ghost predicate IsKnown(m: Moment, domain: AllocationDomain)
    requires IsMoment(m)
  {
    && (exists i :: 0 <= i < |m.capacity| && m.capacity[i].domain == domain)
    && forall i :: 0 <= i < m.k ==>
         !Invalidates(ContractAt(m.cat, m.states, m.actions, i).effect.allocations, domain)
  }

  /** Supplied plus released minus reserved must cover the request. */
  ghost function CapacityVerdict(m: Moment, domain: AllocationDomain, amount: Option<nat>): CheckStatus
    requires IsMoment(m)
  {
    CapacityKnown(m.capacity);
    if amount.None? || !IsKnown(m, domain) then Unknown
    else if CapacityMap(m.capacity)[domain] + TotalReleased(m.cat, m.states, m.actions, m.k, domain)
            < TotalReserved(m.cat, m.states, m.actions, m.k, domain) + amount.value
    then Violated
    else Satisfied(BasisOf(exists i: nat :: i < m.k && MarkedAt(m.cat, m.states, m.actions, i, domain)))
  }

  lemma CapacityRecalled(m: Moment, domain: AllocationDomain, amount: Option<nat>)
    requires IsMoment(m)
    ensures EvaluatePrerequisite(m.states[m.k], CapacityAvailable(domain, amount))
            == CapacityVerdict(m, domain, amount)
  {
    CapacityKnown(m.capacity);
    CapacityKnowledge(m.cat, m.states, m.actions, m.k, domain);
    if domain in m.states[m.k].evidence.capacity {
      CapacityConserved(m.cat, m.states, m.actions, m.k, domain);
      CapacityPredicted(m.cat, m.states, m.actions, m.k, domain);
    }
  }

  // ---------------------------------------------------------------------------
  // Every condition

  /** The verdict that the past alone decides. */
  ghost function Verdict(m: Moment, p: ActionPrerequisite): CheckStatus
    requires IsMoment(m)
  {
    match p
    case NodeExists(n) => ExistsVerdict(m, n)
    case NodeOfKind(n, expected) => KindVerdict(m, n, expected)
    case NoUnexpectedConsumers(n) => ConsumersVerdict(m, n)
    case NoUnexpectedRelations(n) => RelationsVerdict(m, n)
    case Writable(n) => EndpointVerdict(m, n, true)
    case MountSourceAvailable(source) => SourceVerdict(m, source)
    case FilesystemUnmounted(n) => UnmountedVerdict(m, n)
    case FilesystemCheckRequired(n) =>
      if FreshlyChecked(m.cat, m.states, m.actions, m.k, n) then Satisfied(PredictedEvidence) else Violated
    case DistinctNodes(nodes) => if Distinct(nodes) then Satisfied(PredictedEvidence) else Violated
    case DependentsFitWithin(n, size) => DependentsVerdict(m, n, size)
    case BackingSizeAtLeast(n, size) => BackingVerdict(m, n, size)
    case CapacityAvailable(domain, amount) => CapacityVerdict(m, domain, amount)
    case MountTargetAvailable(target, context) => TargetVerdict(m, target, context)
    case MountDescendantsAbsent(target, context) => DescendantsVerdict(m, target, context)
    case FilesystemMinimumSize(_, _) => Unknown
    case DestructiveApproval(_) => Unknown
    case CredentialAvailable(_) => Unknown
    case ExtentAvailable(_, _, _) => Unknown
  }

  lemma GraphVerdicts(m: Moment, p: ActionPrerequisite)
    requires IsMoment(m)
    requires p.NodeExists? || p.NodeOfKind? || p.NoUnexpectedConsumers? || p.NoUnexpectedRelations?
             || p.DependentsFitWithin? || p.BackingSizeAtLeast? || p.DistinctNodes?
    ensures EvaluatePrerequisite(m.states[m.k], p) == Verdict(m, p)
  {
    match p
    case NodeExists(n) => NodeVerdicts(m, n, BlockClass);
    case NodeOfKind(n, expected) => NodeVerdicts(m, n, expected);
    case NoUnexpectedConsumers(n) => ConsumersRecalled(m, n);
    case NoUnexpectedRelations(n) => RelationsRecalled(m, n);
    case DependentsFitWithin(n, size) => DependentsRecalled(m, n, size);
    case BackingSizeAtLeast(n, size) => BackingRecalled(m, n, size);
    case DistinctNodes(nodes) => DistinctIffCounted(nodes);
  }

  /** Over every trace, the check of every condition returns exactly the verdict of the past. */
  lemma VerdictIsHistory(m: Moment, p: ActionPrerequisite)
    requires IsMoment(m)
    ensures EvaluatePrerequisite(m.states[m.k], p) == Verdict(m, p)
  {
    match p
    case Writable(n) => EndpointRecalled(m, n, true);
    case MountSourceAvailable(source) => SourceRecalled(m, source);
    case FilesystemUnmounted(n) => UnmountedRecalled(m, n);
    case FilesystemCheckRequired(n) => ChecksAreFresh(m.cat, m.states, m.actions, m.k, n);
    case CapacityAvailable(domain, amount) => CapacityRecalled(m, domain, amount);
    case MountTargetAvailable(target, context) => TargetsRecalled(m, target, context);
    case MountDescendantsAbsent(target, context) => TargetsRecalled(m, target, context);
    case FilesystemMinimumSize(_, _) =>
    case DestructiveApproval(_) =>
    case CredentialAvailable(_) =>
    case ExtentAvailable(_, _, _) =>
    case _ => GraphVerdicts(m, p);
  }
}
