/** Goal comparison and what a complete simulation report certifies. */
module Goal {
  import opened Wrappers
  import opened StorageModel
  import opened Prerequisites
  import opened Evidence
  import opened Effects
  import opened Traces
  import opened MountTable
  import opened Replay

  datatype GoalStatus = GoalSatisfied | GoalViolated | GoalUnknown

  datatype GoalCheck = GoalCheck(aspect: GoalAspect, status: GoalStatus)

  // ---------------------------------------------------------------------------
  // Graph

  /** The comparison as performed: equal counts and inclusion in one direction only. */
  predicate TopologyMatches(projected: NodeGraph, requested: NodeGraph) {
    && |projected.nodes| == |requested.nodes|
    && (forall id :: id in projected.nodes ==>
          id in requested.nodes && requested.nodes[id].spec.kind == projected.nodes[id].spec.kind)
    && |projected.dependencies| == |requested.dependencies|
    && (forall d :: d in projected.dependencies ==> d in requested.dependencies)
    && |projected.relations| == |requested.relations|
    && (forall l :: l in projected.relations ==> l in requested.relations)
  }

  /** Exactly the same nodes, kinds, dependencies and relations. */
  ghost predicate SameTopology(projected: NodeGraph, requested: NodeGraph) {
    && projected.nodes.Keys == requested.nodes.Keys
    && (forall id :: id in projected.nodes ==> requested.nodes[id].spec.kind == projected.nodes[id].spec.kind)
    && projected.dependencies == requested.dependencies
    && projected.relations == requested.relations
  }

  /** Counting plus one-way inclusion is set equality. */
  lemma TopologyIsEquality(projected: NodeGraph, requested: NodeGraph)
    ensures TopologyMatches(projected, requested) <==> SameTopology(projected, requested)
  {
    assert |projected.nodes| == |projected.nodes.Keys| && |requested.nodes| == |requested.nodes.Keys|;
    if TopologyMatches(projected, requested) {
      FullSubset(projected.nodes.Keys, requested.nodes.Keys);
      FullSubset(projected.dependencies, requested.dependencies);
      FullSubset(projected.relations, requested.relations);
    }
  }

  function SizeOf(graph: NodeGraph, id: NodeId): Option<nat> {
    if id in graph.nodes then graph.nodes[id].spec.size else None
  }

  /** A requested size is contradicted by a known projected one. */
  predicate Contradicts(projected: NodeGraph, requested: NodeGraph, id: NodeId) {
    SizeOf(requested, id).Some? && SizeOf(projected, id).Some? && SizeOf(requested, id) != SizeOf(projected, id)
  }

  predicate Unmeasured(projected: NodeGraph, requested: NodeGraph, id: NodeId) {
    SizeOf(requested, id).Some? && SizeOf(projected, id).None?
  }

  /** Requested sizes are met; nodes without one are unmanaged. */
  ghost predicate SizesMet(projected: NodeGraph, requested: NodeGraph) {
    forall id :: id in requested.nodes && requested.nodes[id].spec.size.Some? ==>
      id in projected.nodes && projected.nodes[id].spec.size == requested.nodes[id].spec.size
  }

  /** Both graphs give a size for the node, and not the same one. */
  ghost predicate SizesDiffer(projected: NodeGraph, requested: NodeGraph, id: NodeId) {
    && id in requested.nodes && id in projected.nodes
    && requested.nodes[id].spec.size.Some? && projected.nodes[id].spec.size.Some?
    && requested.nodes[id].spec.size.value != projected.nodes[id].spec.size.value
  }

  ghost predicate ReportsGraph(projected: NodeGraph, requested: NodeGraph, status: GoalStatus) {
    && (status.GoalSatisfied? <==> SameTopology(projected, requested) && SizesMet(projected, requested))
    && (status.GoalViolated? <==>
          || !SameTopology(projected, requested)
          || exists id: NodeId :: SizesDiffer(projected, requested, id))
  }

  /** In whatever order nodes are visited, a known mismatch wins over missing sizes. */
  method CompareGraph(projected: NodeGraph, requested: NodeGraph) returns (status: GoalStatus)
    ensures ReportsGraph(projected, requested, status)
  {
    TopologyIsEquality(projected, requested);
    if !TopologyMatches(projected, requested) {
      return GoalViolated;
    }
    var unknown := false;
    var rest := requested.nodes.Keys;
    while rest != {}
      invariant rest <= requested.nodes.Keys
      invariant forall id :: id in requested.nodes && id !in rest ==> !Contradicts(projected, requested, id)
      invariant unknown <==> exists id :: id in requested.nodes && id !in rest && Unmeasured(projected, requested, id)
      decreases |rest|
    {
      var id :| id in rest;
      rest := rest - {id};
      var required := requested.nodes[id].spec.size;
      if required.Some? {
        match SizeOf(projected, id) {
          case Some(actual) =>
            if actual != required.value {
              assert Contradicts(projected, requested, id) && SizesDiffer(projected, requested, id);
              return GoalViolated;
            }
          case None =>
            assert Unmeasured(projected, requested, id);
            unknown := true;
        }
      }
    }
    forall id: NodeId ensures !SizesDiffer(projected, requested, id) {
      assert id in requested.nodes ==> !Contradicts(projected, requested, id);
    }
    if unknown {
      return GoalUnknown;
    }
    forall id | id in requested.nodes && requested.nodes[id].spec.size.Some?
      ensures id in projected.nodes && projected.nodes[id].spec.size == requested.nodes[id].spec.size
    {
      assert !Contradicts(projected, requested, id) && !Unmeasured(projected, requested, id);
    }
    status := GoalSatisfied;
  }

  // ---------------------------------------------------------------------------
  // Mounts and boot

  function RuntimeStatus(runtime: seq<MountEntry>, entry: MountEntry): GoalStatus {
    if entry in runtime then GoalSatisfied else GoalViolated
  }

  /** An unread baseline is not an empty one. */
  function PersistentStatus(s: Simulation, entry: MountEntry): GoalStatus {
    if entry in s.desired.persistent then GoalSatisfied
    else if (entry.target, entry.context) in s.evidence.persistentTargets then GoalViolated
    else GoalUnknown
  }

  function RuntimeCheck(s: Simulation, entry: MountEntry): GoalCheck {
    GoalCheck(RuntimeMountAspect(entry.target, entry.context), RuntimeStatus(s.desired.runtime, entry))
  }

  function PersistentCheck(s: Simulation, entry: MountEntry): GoalCheck {
    GoalCheck(PersistentMountAspect(entry.target, entry.context), PersistentStatus(s, entry))
  }

  function BootStatus(boot: BootSpec): GoalStatus {
    if boot.Unmanaged? then GoalSatisfied else GoalUnknown
  }

  /** What the last persistent effect on a target left there, if there was one. */
  function LastPersistent(effects: seq<MountEffect>, target: Path, context: MountContext): LastWrite {
    if effects == [] then Untouched
    else
      match effects[|effects| - 1]
      case SetPersistent(entry) =>
        if entry.target == target && entry.context == context then Entry(entry)
        else LastPersistent(effects[..|effects| - 1], target, context)
      case RemovePersistentEntry(t, c) =>
        if t == target && c == context then Removed else LastPersistent(effects[..|effects| - 1], target, context)
      case _ => LastPersistent(effects[..|effects| - 1], target, context)
  }

  /** The persistent list and its ledger say exactly what the effects wrote. */
  ghost predicate Mirrors(s: Simulation, effects: seq<MountEffect>) {
    && (forall target, context ::
          (target, context) in s.evidence.persistentTargets <==> !LastPersistent(effects, target, context).Untouched?)
    && forall entry: MountEntry ::
         entry in s.desired.persistent <==> LastPersistent(effects, entry.target, entry.context) == Entry(entry)
  }

  lemma MirrorsStep(s: Simulation, effects: seq<MountEffect>, effect: MountEffect)
    requires Mirrors(s, effects) && ApplyMount(s, effect).Ok?
    ensures Mirrors(ApplyMount(s, effect).value, effects + [effect])
  {
    assert (effects + [effect])[..|effects|] == effects;
  }

  lemma {:induction false} MirrorsMounts(s: Simulation, past: seq<MountEffect>, effects: seq<MountEffect>)
    requires Mirrors(s, past) && ApplyMounts(s, effects).Ok?
    ensures Mirrors(ApplyMounts(s, effects).value, past + effects)
    decreases |effects|
  {
    if effects == [] {
      assert past + effects == past;
    } else {
      MirrorsStep(s, past, effects[0]);
      MirrorsMounts(ApplyMount(s, effects[0]).value, past + [effects[0]], effects[1..]);
      assert past + [effects[0]] + effects[1..] == past + effects;
    }
  }

  ghost predicate SamePersistence(s: Simulation, t: Simulation) {
    s.desired.persistent == t.desired.persistent && s.evidence.persistentTargets == t.evidence.persistentTargets
  }

  lemma {:induction false} GraphsKeepPersistence(s: Simulation, effects: seq<GraphEffect>)
    requires ApplyGraphs(s, effects).Ok?
    ensures SamePersistence(s, ApplyGraphs(s, effects).value)
    decreases |effects|
  {
    if effects != [] {
      GraphsKeepPersistence(ApplyGraph(s, effects[0]).value, effects[1..]);
    }
  }

  lemma {:induction false} AllocationsKeepTargets(evidence: SimulationEvidence, effects: seq<AllocationEffect>)
    requires ApplyAllocations(evidence, effects).Ok?
    ensures ApplyAllocations(evidence, effects).value.persistentTargets == evidence.persistentTargets
    decreases |effects|
  {
    if effects != [] {
      AllocationsKeepTargets(ApplyAllocation(evidence, effects[0]).value, effects[1..]);
    }
  }

  lemma {:induction false} OutputsKeepTargets(evidence: SimulationEvidence, outputs: seq<ActionOutput>)
    ensures OutputsFrom(evidence, outputs).persistentTargets == evidence.persistentTargets
    decreases |outputs|
  {
    if outputs != [] {
      OutputsKeepTargets(ApplyOutput(evidence, outputs[0]), outputs[1..]);
    }
  }

  lemma StepMirrors(cat: Catalogue, s: Simulation, action: ProviderAction, next: Simulation, past: seq<MountEffect>)
    requires Leads(cat, s, action, next) && Mirrors(s, past)
    ensures Mirrors(next, past + cat.describe(action, s.desired.graph).effect.mounts)
  {
    var contract := cat.describe(action, s.desired.graph);
    var graphed := ApplyGraphs(Invalidated(s, contract), contract.effect.graph).value;
    GraphsKeepPersistence(Invalidated(s, contract), contract.effect.graph);
    MirrorsMounts(graphed, past, contract.effect.mounts);
    var mounted := ApplyMounts(graphed, contract.effect.mounts).value;
    AllocationsKeepTargets(mounted.evidence, contract.effect.allocations);
    OutputsKeepTargets(Projected(cat, s, contract).value.evidence, contract.outputs);
    assert SamePersistence(mounted, next);
  }

  ghost predicate MirrorsAt(cat: Catalogue, states: seq<Simulation>, actions: seq<ProviderAction>, k: nat)
    requires IsTrace(cat, states, actions) && k <= |actions|
  {
    Mirrors(states[k], MountHistory(cat, states, actions, k))
  }

  lemma MirrorsAdvances(cat: Catalogue, states: seq<Simulation>, actions: seq<ProviderAction>, k: nat)
    requires IsTrace(cat, states, actions) && k < |actions| && MirrorsAt(cat, states, actions, k)
    ensures MirrorsAt(cat, states, actions, k + 1)
  {
    assert StepsAt(cat, states, actions, k);
    StepMirrors(cat, states[k], actions[k], states[k + 1], MountHistory(cat, states, actions, k));
  }

  lemma {:induction false} TraceMirrors(cat: Catalogue, states: seq<Simulation>, actions: seq<ProviderAction>, k: nat)
    requires IsTrace(cat, states, actions) && k <= |actions| && Mirrors(states[0], [])
    ensures MirrorsAt(cat, states, actions, k)
    decreases k
  {
    if k > 0 {
      var j := k - 1;
      TraceMirrors(cat, states, actions, j);
      MirrorsAdvances(cat, states, actions, j);
      assert k == j + 1;
    }
  }

  /**
   Over a whole trace from an unread baseline, a persistent request is satisfied
   exactly when the last effect on its target wrote it, violated exactly when that
   effect did something else, and unknown exactly when there was none.
   */
  lemma PersistentStatusIsLastWrite(
    cat: Catalogue, states: seq<Simulation>, actions: seq<ProviderAction>, current: CurrentState,
    capacity: seq<CapacityEvidence>, entry: MountEntry)
    requires IsTrace(cat, states, actions) && states[0] == InitialState(current, capacity)
    ensures var last := LastPersistent(MountHistory(cat, states, actions, |actions|), entry.target, entry.context);
      && (PersistentStatus(states[|actions|], entry).GoalSatisfied? <==> last == Entry(entry))
      && (PersistentStatus(states[|actions|], entry).GoalUnknown? <==> last.Untouched?)
  {
    TraceMirrors(cat, states, actions, |actions|);
  }

  /**
   A runtime request is satisfied exactly when the last runtime effect on its target
   added that very entry, or there was none and it was observed mounted; otherwise it
   is violated, never unknown.
   */
  lemma RuntimeStatusIsLastWrite(
    cat: Catalogue, states: seq<Simulation>, actions: seq<ProviderAction>, current: CurrentState,
    capacity: seq<CapacityEvidence>, entry: MountEntry)
    requires IsTrace(cat, states, actions) && states[0] == InitialState(current, capacity)
    ensures var last := LastRuntime(MountHistory(cat, states, actions, |actions|), entry.target, entry.context);
      var met := last == Entry(entry) || (last.Untouched? && entry in current.mounts);
      RuntimeStatus(states[|actions|].desired.runtime, entry) == if met then GoalSatisfied else GoalViolated
  {
    RuntimeIsLastWrite(cat, states, actions, |actions|);
  }

  // ---------------------------------------------------------------------------
  // Whole goal

  /** The configuration meets every requested aspect. */
  ghost predicate MeetsGoal(s: Simulation, goal: DesiredState) {
    && SameTopology(s.desired.graph, goal.graph)
    && SizesMet(s.desired.graph, goal.graph)
    && (forall i :: 0 <= i < |goal.runtime| ==> goal.runtime[i] in s.desired.runtime)
    && (forall i :: 0 <= i < |goal.persistent| ==> goal.persistent[i] in s.desired.persistent)
    && goal.boot.Unmanaged?
  }

  predicate AllMet(checks: seq<GoalCheck>) {
    forall i :: 0 <= i < |checks| ==> checks[i].status.GoalSatisfied?
  }

  /** The check speaks about the entry's own target and says whether that very entry is mounted. */
  ghost predicate ReportsRuntime(s: Simulation, entry: MountEntry, check: GoalCheck) {
    && check.aspect == RuntimeMountAspect(entry.target, entry.context)
    && check.status == if entry in s.desired.runtime then GoalSatisfied else GoalViolated
  }

  /** An absent entry is a violation once its target was written, and unknown before. */
  ghost predicate ReportsPersistent(s: Simulation, entry: MountEntry, check: GoalCheck) {
    && check.aspect == PersistentMountAspect(entry.target, entry.context)
    && (check.status == GoalSatisfied <==> entry in s.desired.persistent)
    && (check.status == GoalViolated
        <==> entry !in s.desired.persistent && (entry.target, entry.context) in s.evidence.persistentTargets)
  }

  /** The graph first, then runtime mounts, persistent mounts and boot, each in the order requested. */
  ghost predicate ReportsGoal(s: Simulation, goal: DesiredState, checks: seq<GoalCheck>) {
    && |checks| == |goal.runtime| + |goal.persistent| + 2
    && checks[0].aspect == GraphAspect && ReportsGraph(s.desired.graph, goal.graph, checks[0].status)
    && (forall i :: 0 <= i < |goal.runtime| ==> ReportsRuntime(s, goal.runtime[i], checks[i + 1]))
    && (forall i :: 0 <= i < |goal.persistent| ==>
          ReportsPersistent(s, goal.persistent[i], checks[i + 1 + |goal.runtime|]))
    && checks[|checks| - 1].aspect == BootAspect
    && checks[|checks| - 1].status == if goal.boot == Unmanaged then GoalSatisfied else GoalUnknown
  }

  /** One check per requested aspect; all are satisfied exactly when the goal is met. */
  method CompareGoal(s: Simulation, goal: DesiredState) returns (checks: seq<GoalCheck>)
    ensures AllMet(checks) <==> MeetsGoal(s, goal)
    ensures ReportsGoal(s, goal, checks)
  {
    var status := CompareGraph(s.desired.graph, goal.graph);
    checks := [GoalCheck(GraphAspect, status)];
    for k := 0 to |goal.runtime|
      invariant |checks| == k + 1 && checks[0] == GoalCheck(GraphAspect, status)
      invariant forall i :: 0 <= i < k ==> checks[i + 1] == RuntimeCheck(s, goal.runtime[i])
    {
      checks := checks + [RuntimeCheck(s, goal.runtime[k])];
    }
    ghost var mounts := checks;
    for k := 0 to |goal.persistent|
      invariant |checks| == |mounts| + k && mounts <= checks
      invariant forall i :: 0 <= i < k ==> checks[i + 1 + |goal.runtime|] == PersistentCheck(s, goal.persistent[i])
    {
      checks := checks + [PersistentCheck(s, goal.persistent[k])];
    }
    checks := checks + [GoalCheck(BootAspect, BootStatus(goal.boot))];
    ChecksMeetGoal(s, goal, checks);
  }

  lemma ChecksMeetGoal(s: Simulation, goal: DesiredState, checks: seq<GoalCheck>)
    requires |checks| == |goal.runtime| + |goal.persistent| + 2
    requires checks[0].status.GoalSatisfied?
            <==> SameTopology(s.desired.graph, goal.graph) && SizesMet(s.desired.graph, goal.graph)
    requires forall i :: 0 <= i < |goal.runtime| ==>
      checks[i + 1].status == RuntimeStatus(s.desired.runtime, goal.runtime[i])
    requires forall i :: 0 <= i < |goal.persistent| ==>
      checks[i + 1 + |goal.runtime|].status == PersistentStatus(s, goal.persistent[i])
    requires checks[|checks| - 1].status == BootStatus(goal.boot)
    ensures AllMet(checks) <==> MeetsGoal(s, goal)
  {
    var n := |goal.runtime|;
    if MeetsGoal(s, goal) {
      forall i | 0 <= i < |checks| ensures checks[i].status.GoalSatisfied? {
        if 0 < i <= n {
          assert checks[(i - 1) + 1].status == RuntimeStatus(s.desired.runtime, goal.runtime[i - 1]);
        } else if n < i < |checks| - 1 {
          assert checks[(i - 1 - n) + 1 + n].status == PersistentStatus(s, goal.persistent[i - 1 - n]);
        }
      }
    }
    if AllMet(checks) {
      forall i | 0 <= i < |goal.runtime| ensures goal.runtime[i] in s.desired.runtime {
        assert checks[i + 1].status.GoalSatisfied?;
      }
      forall i | 0 <= i < |goal.persistent| ensures goal.persistent[i] in s.desired.persistent {
        assert checks[i + 1 + n].status.GoalSatisfied?;
      }
    }
  }
}
