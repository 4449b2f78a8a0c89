/** The projected graph of a whole trace, read off its effects object by object. */
module GraphHistory {
  import opened Wrappers
  import opened StorageModel
  import opened Prerequisites
  import opened Evidence
  import opened Effects
  import opened Traces

  // ---------------------------------------------------------------------------
  // Reference readings: the last effect that concerns an object decides

  predicate IsPresent(effects: seq<GraphEffect>, n: NodeId, initially: bool) {
    if effects == [] then initially
    else
      match effects[|effects| - 1]
      case InsertNode(id, _) => id == n || IsPresent(effects[..|effects| - 1], n, initially)
      case RemoveNode(id) => id != n && IsPresent(effects[..|effects| - 1], n, initially)
      case _ => IsPresent(effects[..|effects| - 1], n, initially)
  }

  function SizeAfter(effects: seq<GraphEffect>, n: NodeId, initially: Option<nat>): Option<nat> {
    if effects == [] then initially
    else
      var earlier := SizeAfter(effects[..|effects| - 1], n, initially);
      match effects[|effects| - 1]
      case InsertNode(id, spec) => if id == n then spec.size else earlier
      case SetNodeSize(id, size) => if id == n then Some(size) else earlier
      case InvalidateNodeSize(id) => if id == n then None else earlier
      case _ => earlier
  }

  /** Attribute changes replace one property of the kind; a new insertion replaces all of it. */
  function KindAfter(effects: seq<GraphEffect>, n: NodeId, initially: Option<NodeKind>): Option<NodeKind> {
    if effects == [] then initially
    else
      var earlier := KindAfter(effects[..|effects| - 1], n, initially);
      match effects[|effects| - 1]
      case InsertNode(id, spec) => if id == n then Some(spec.kind) else earlier
      case SetPartitionAttributes(id, attributes) => if id == n then Some(Partition(attributes)) else earlier
      case SetFilesystemLabel(id, name) =>
        if id == n && earlier.Some? && earlier.value.FilesystemNode?
        then Some(FilesystemNode(earlier.value.filesystem, name)) else earlier
      case SetBtrfsAllocation(id, allocation) =>
        if id == n && earlier.Some? && earlier.value.FilesystemNode?
        then Some(FilesystemNode(Btrfs(allocation), earlier.value.name)) else earlier
      case _ => earlier
  }

  /** A planned node has no historical observation, even under a reused identity. */
  predicate WasInserted(effects: seq<GraphEffect>, n: NodeId) {
    exists i :: 0 <= i < |effects| && effects[i].InsertNode? && effects[i].id == n
  }

  predicate HasDependency(effects: seq<GraphEffect>, d: Dependency, initially: bool) {
    if effects == [] then initially
    else
      match effects[|effects| - 1]
      case InsertDependency(e) => e == d || HasDependency(effects[..|effects| - 1], d, initially)
      case RemoveDependency(e) => e != d && HasDependency(effects[..|effects| - 1], d, initially)
      case _ => HasDependency(effects[..|effects| - 1], d, initially)
  }

  predicate HasRelation(effects: seq<GraphEffect>, l: Relation, initially: bool) {
    if effects == [] then initially
    else
      match effects[|effects| - 1]
      case InsertRelation(e) => e == l || HasRelation(effects[..|effects| - 1], l, initially)
      case RemoveRelation(e) => e != l && HasRelation(effects[..|effects| - 1], l, initially)
      case _ => HasRelation(effects[..|effects| - 1], l, initially)
  }

  /** An effect that leaves the node's value predicted rather than observed. */
  predicate Predicts(effect: GraphEffect, n: NodeId) {
    || (effect.InsertNode? && effect.id == n)
    || (effect.SetNodeSize? && effect.id == n)
    || (effect.InvalidateNodeSize? && effect.id == n)
    || (effect.SetPartitionAttributes? && effect.id == n)
    || (effect.SetFilesystemLabel? && effect.id == n)
    || (effect.SetBtrfsAllocation? && effect.id == n)
  }

  predicate IsPredicted(effects: seq<GraphEffect>, n: NodeId) {
    effects != [] &&
    var last := effects[|effects| - 1];
    Predicts(last, n) || (last != RemoveNode(n) && IsPredicted(effects[..|effects| - 1], n))
  }

  // ---------------------------------------------------------------------------
  // The interpreter agrees with them

  ghost predicate NodeAgrees(start: NodeGraph, s: Simulation, effects: seq<GraphEffect>, n: NodeId) {
    var graph := s.desired.graph;
    && (n in graph.nodes <==> IsPresent(effects, n, n in start.nodes))
    && (n in s.evidence.projectedNodes <==> IsPredicted(effects, n))
    && (n in graph.nodes ==>
          && graph.nodes[n].spec.size
              == SizeAfter(effects, n, if n in start.nodes then start.nodes[n].spec.size else None)
          && Some(graph.nodes[n].spec.kind)
              == KindAfter(effects, n, if n in start.nodes then Some(start.nodes[n].spec.kind) else None)
          && (WasInserted(effects, n) ==> graph.nodes[n].block.None?)
          && (!WasInserted(effects, n) ==> n in start.nodes && graph.nodes[n].block == start.nodes[n].block))
  }

  ghost predicate EdgesAgree(start: NodeGraph, s: Simulation, effects: seq<GraphEffect>, d: Dependency, l: Relation) {
    && (d in s.desired.graph.dependencies <==> HasDependency(effects, d, d in start.dependencies))
    && (l in s.desired.graph.relations <==> HasRelation(effects, l, l in start.relations))
  }

  lemma InsertedGrows(effects: seq<GraphEffect>, effect: GraphEffect, n: NodeId)
    ensures WasInserted(effects + [effect], n) <==> WasInserted(effects, n) || (effect.InsertNode? && effect.id == n)
  {
    var all := effects + [effect];
    assert all[|effects|] == effect;
    assert forall i :: 0 <= i < |effects| ==> all[i] == effects[i];
  }

  lemma NodeStep(start: NodeGraph, s: Simulation, effects: seq<GraphEffect>, effect: GraphEffect, n: NodeId)
    requires NodeAgrees(start, s, effects, n) && ApplyGraph(s, effect).Ok?
    ensures NodeAgrees(start, ApplyGraph(s, effect).value, effects + [effect], n)
  {
    assert (effects + [effect])[..|effects|] == effects;
    InsertedGrows(effects, effect, n);
  }

  lemma EdgeStep(start: NodeGraph, s: Simulation, effects: seq<GraphEffect>, effect: GraphEffect, d: Dependency,
                 l: Relation)
    requires EdgesAgree(start, s, effects, d, l) && ApplyGraph(s, effect).Ok?
    ensures EdgesAgree(start, ApplyGraph(s, effect).value, effects + [effect], d, l)
  {
    assert (effects + [effect])[..|effects|] == effects;
  }

  lemma {:induction false} NodesAgree(start: NodeGraph, s: Simulation, past: seq<GraphEffect>,
                                      effects: seq<GraphEffect>, n: NodeId)
    requires NodeAgrees(start, s, past, n) && ApplyGraphs(s, effects).Ok?
    ensures NodeAgrees(start, ApplyGraphs(s, effects).value, past + effects, n)
    decreases |effects|
  {
    if effects == [] {
      assert past + effects == past;
    } else {
      NodeStep(start, s, past, effects[0], n);
      NodesAgree(start, ApplyGraph(s, effects[0]).value, past + [effects[0]], effects[1..], n);
      assert past + [effects[0]] + effects[1..] == past + effects;
    }
  }

  lemma {:induction false} EdgeListsAgree(start: NodeGraph, s: Simulation, past: seq<GraphEffect>,
                                          effects: seq<GraphEffect>, d: Dependency, l: Relation)
    requires EdgesAgree(start, s, past, d, l) && ApplyGraphs(s, effects).Ok?
    ensures EdgesAgree(start, ApplyGraphs(s, effects).value, past + effects, d, l)
    decreases |effects|
  {
    if effects == [] {
      assert past + effects == past;
    } else {
      EdgeStep(start, s, past, effects[0], d, l);
      EdgeListsAgree(start, ApplyGraph(s, effects[0]).value, past + [effects[0]], effects[1..], d, l);
      assert past + [effects[0]] + effects[1..] == past + effects;
    }
  }

  // ---------------------------------------------------------------------------
  // Whole traces

  /** Every graph effect of the first k steps, in order. */
  ghost function EffectHistory(cat: Catalogue, states: seq<Simulation>, actions: seq<ProviderAction>,
                               k: nat): seq<GraphEffect>
    requires IsTrace(cat, states, actions) && k <= |actions|
  {
    if k == 0 then []
    else EffectHistory(cat, states, actions, k - 1) + ContractAt(cat, states, actions, k - 1).effect.graph
  }

  /** The parts of a state that graph effects decide. */
  ghost predicate SameGraph(s: Simulation, t: Simulation) {
    s.desired.graph == t.desired.graph && s.evidence.projectedNodes == t.evidence.projectedNodes
  }

  lemma {:induction false} MountsKeepGraph(s: Simulation, effects: seq<MountEffect>)
    requires ApplyMounts(s, effects).Ok?
    ensures SameGraph(s, ApplyMounts(s, effects).value)
    decreases |effects|
  {
    if effects != [] {
      MountsKeepGraph(ApplyMount(s, effects[0]).value, effects[1..]);
    }
  }

  lemma {:induction false} AllocationsKeepNodes(evidence: SimulationEvidence, effects: seq<AllocationEffect>)
    requires ApplyAllocations(evidence, effects).Ok?
    ensures ApplyAllocations(evidence, effects).value.projectedNodes == evidence.projectedNodes
    decreases |effects|
  {
    if effects != [] {
      AllocationsKeepNodes(ApplyAllocation(evidence, effects[0]).value, effects[1..]);
    }
  }

  lemma {:induction false} OutputsKeepNodes(evidence: SimulationEvidence, outputs: seq<ActionOutput>)
    ensures OutputsFrom(evidence, outputs).projectedNodes == evidence.projectedNodes
    decreases |outputs|
  {
    if outputs != [] {
      OutputsKeepNodes(ApplyOutput(evidence, outputs[0]), outputs[1..]);
    }
  }

  /** Only its graph effects tell a step's graph from its predecessor's. */
  lemma StepGraph(cat: Catalogue, s: Simulation, action: ProviderAction, next: Simulation)
    requires Leads(cat, s, action, next)
    ensures var contract := cat.describe(action, s.desired.graph);
      var graphed := ApplyGraphs(Invalidated(s, contract), contract.effect.graph);
      graphed.Ok? && SameGraph(graphed.value, next) && SameGraph(s, Invalidated(s, contract))
  {
    var contract := cat.describe(action, s.desired.graph);
    var graphed := ApplyGraphs(Invalidated(s, contract), contract.effect.graph).value;
    MountsKeepGraph(graphed, contract.effect.mounts);
    var mounted := ApplyMounts(graphed, contract.effect.mounts).value;
    AllocationsKeepNodes(mounted.evidence, contract.effect.allocations);
    OutputsKeepNodes(Projected(cat, s, contract).value.evidence, contract.outputs);
  }

  lemma NodeAfterStep(cat: Catalogue, start: NodeGraph, s: Simulation, action: ProviderAction, next: Simulation,
                      past: seq<GraphEffect>, n: NodeId)
    requires Leads(cat, s, action, next) && NodeAgrees(start, s, past, n)
    ensures NodeAgrees(start, next, past + cat.describe(action, s.desired.graph).effect.graph, n)
  {
    var contract := cat.describe(action, s.desired.graph);
    StepGraph(cat, s, action, next);
    NodesAgree(start, Invalidated(s, contract), past, contract.effect.graph, n);
  }

  lemma EdgesAfterStep(cat: Catalogue, start: NodeGraph, s: Simulation, action: ProviderAction, next: Simulation,
                       past: seq<GraphEffect>,
                       d: Dependency, l: Relation)
    requires Leads(cat, s, action, next) && EdgesAgree(start, s, past, d, l)
    ensures EdgesAgree(start, next, past + cat.describe(action, s.desired.graph).effect.graph, d, l)
  {
    var contract := cat.describe(action, s.desired.graph);
    StepGraph(cat, s, action, next);
    EdgeListsAgree(start, Invalidated(s, contract), past, contract.effect.graph, d, l);
  }

  ghost predicate NodeAgreesAt(cat: Catalogue, states: seq<Simulation>, actions: seq<ProviderAction>, k: nat, n: NodeId)
    requires IsTrace(cat, states, actions) && k <= |actions|
  {
    NodeAgrees(states[0].desired.graph, states[k], EffectHistory(cat, states, actions, k), n)
  }

  ghost predicate EdgesAgreeAt(cat: Catalogue, states: seq<Simulation>, actions: seq<ProviderAction>, k: nat,
                               d: Dependency, l: Relation)
    requires IsTrace(cat, states, actions) && k <= |actions|
  {
    EdgesAgree(states[0].desired.graph, states[k], EffectHistory(cat, states, actions, k), d, l)
  }

  lemma NodeAdvances(cat: Catalogue, states: seq<Simulation>, actions: seq<ProviderAction>, k: nat, n: NodeId)
    requires IsTrace(cat, states, actions) && k < |actions| && NodeAgreesAt(cat, states, actions, k, n)
    ensures NodeAgreesAt(cat, states, actions, k + 1, n)
  {
    assert StepsAt(cat, states, actions, k);
    NodeAfterStep(cat, states[0].desired.graph, states[k], actions[k], states[k + 1],
                  EffectHistory(cat, states, actions, k), n);
  }

  lemma EdgesAdvance(cat: Catalogue, states: seq<Simulation>, actions: seq<ProviderAction>, k: nat, d: Dependency,
                     l: Relation)
    requires IsTrace(cat, states, actions) && k < |actions| && EdgesAgreeAt(cat, states, actions, k, d, l)
    ensures EdgesAgreeAt(cat, states, actions, k + 1, d, l)
  {
    assert StepsAt(cat, states, actions, k);
    EdgesAfterStep(cat, states[0].desired.graph, states[k], actions[k], states[k + 1],
                   EffectHistory(cat, states, actions, k), d, l);
  }

  /** The last insertion or removal decides every dependency and relation, along every trace. */
  lemma {:induction false} EdgesAreLastWrites(
    cat: Catalogue, states: seq<Simulation>, actions: seq<ProviderAction>, k: nat, d: Dependency, l: Relation)
    requires IsTrace(cat, states, actions) && k <= |actions|
    ensures EdgesAgreeAt(cat, states, actions, k, d, l)
    decreases k
  {
    if k > 0 {
      var j := k - 1;
      EdgesAreLastWrites(cat, states, actions, j, d, l);
      EdgesAdvance(cat, states, actions, j, d, l);
      assert k == j + 1;
    }
  }

  /**
   Along every trace the last effect on a node decides its presence, its size and
   kind, and whether it counts as predicted.  Historical block observations survive exactly
   on nodes that were never inserted, even when an identity is reused.
   */
  lemma {:induction false} NodeIsLastWrite(cat: Catalogue, states: seq<Simulation>, actions: seq<ProviderAction>,
                                           k: nat, n: NodeId)
    requires IsTrace(cat, states, actions) && k <= |actions| && states[0].evidence.projectedNodes == {}
    ensures NodeAgreesAt(cat, states, actions, k, n)
    decreases k
  {
    if k > 0 {
      var j := k - 1;
      NodeIsLastWrite(cat, states, actions, j, n);
      NodeAdvances(cat, states, actions, j, n);
      assert k == j + 1;
    }
  }
}
