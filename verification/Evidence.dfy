/** The evidence ledger: baseline capacity, granted guarantees and their revocation. */
module Evidence {
  import opened Wrappers
  import opened StorageModel
  import opened Prerequisites
  import opened Closure

  datatype CapacityEvidence = CapacityEvidence(domain: AllocationDomain, available: nat)

  datatype EffectError =
    | InvalidStructure
    | DuplicateNode(node: NodeId)
    | MissingNode(node: NodeId)
    | WrongNodeKind(node: NodeId)
    | MissingDependency
    | MissingRelation
    | OccupiedMountTarget(target: Path)
    | MountedDescendant(target: Path)
    | InsufficientCapacity(domain: AllocationDomain)
    | CapacityOverflow(domain: AllocationDomain)

  // ---------------------------------------------------------------------------
  // Baseline

  ghost predicate DistinctDomains(items: seq<CapacityEvidence>) {
    forall i, j :: 0 <= i < j < |items| ==> items[i].domain != items[j].domain
  }

  /** Later observations would win, but a loaded ledger has one per domain. */
  ghost function CapacityMap(items: seq<CapacityEvidence>): map<AllocationDomain, nat>
  {
    if items == [] then map[]
    else CapacityMap(items[..|items| - 1])[items[|items| - 1].domain := items[|items| - 1].available]
  }

  lemma {:induction false} CapacityKnown(items: seq<CapacityEvidence>)
    ensures forall d: AllocationDomain ::
      d in CapacityMap(items) <==> exists i :: 0 <= i < |items| && items[i].domain == d
    ensures DistinctDomains(items) ==> forall i :: 0 <= i < |items| ==>
      CapacityMap(items)[items[i].domain] == items[i].available
  {
    if items != [] {
      var init := items[..|items| - 1];
      CapacityKnown(init);
      forall d: AllocationDomain | exists i :: 0 <= i < |items| && items[i].domain == d
        ensures d in CapacityMap(items)
      {
        var i :| 0 <= i < |items| && items[i].domain == d;
        assert i < |init| ==> init[i].domain == d;
      }
    }
  }

  /** No guarantee is granted and exactly the supplied capacities are known. */
  ghost function InitialEvidence(items: seq<CapacityEvidence>): SimulationEvidence
  {
    SimulationEvidence({}, map[], map[], CapacityMap(items), {}, {}, {}, false, {})
  }

  /** Item j is the first to repeat the domain of an earlier one. */
  ghost predicate RepeatsAt(items: seq<CapacityEvidence>, j: nat) {
    j < |items| && DistinctDomains(items[..j]) && exists i :: 0 <= i < j && items[i].domain == items[j].domain
  }

  ghost predicate IsFirstRepeat(items: seq<CapacityEvidence>, d: AllocationDomain) {
    exists j: nat :: RepeatsAt(items, j) && items[j].domain == d
  }

  lemma NoEarlierRepeat(items: seq<CapacityEvidence>, j: nat, k: nat)
    requires RepeatsAt(items, j) && RepeatsAt(items, k)
    ensures k <= j
  {
    var i :| 0 <= i < j && items[i].domain == items[j].domain;
  }

  lemma FirstRepeatUnique(items: seq<CapacityEvidence>, d: AllocationDomain, e: AllocationDomain)
    requires IsFirstRepeat(items, d) && IsFirstRepeat(items, e)
    ensures d == e
  {
    var j: nat :| RepeatsAt(items, j) && items[j].domain == d;
    var k: nat :| RepeatsAt(items, k) && items[k].domain == e;
    NoEarlierRepeat(items, j, k);
    NoEarlierRepeat(items, k, j);
  }

  /** Loads the ledger, rejecting a domain observed twice. */
  method NewEvidence(items: seq<CapacityEvidence>) returns (r: Result<SimulationEvidence, AllocationDomain>)
    ensures r.Ok? <==> DistinctDomains(items)
    ensures r.Ok? ==> r.value == InitialEvidence(items)
    ensures r.Err? ==> IsFirstRepeat(items, r.error)
  {
    var capacity: map<AllocationDomain, nat> := map[];
    for i := 0 to |items|
      invariant DistinctDomains(items[..i])
      invariant capacity == CapacityMap(items[..i])
    {
      CapacityKnown(items[..i]);
      assert items[..i + 1] == items[..i] + [items[i]];
      if items[i].domain in capacity {
        assert RepeatsAt(items, i);
        return Err(items[i].domain);
      }
      capacity := capacity[items[i].domain := items[i].available];
    }
    assert items[..|items|] == items;
    r := Ok(SimulationEvidence({}, map[], map[], capacity, {}, {}, {}, false, {}));
  }

  // ---------------------------------------------------------------------------
  // Activation invalidation

  function ActivationEdges(graph: NodeGraph): Edges {
    set d | d in graph.dependencies :: (d.src, d.dst)
  }

  function ActivationFact(node: NodeId): FactInvalidation {
    FactInvalidation(NodeScope(node), Activation)
  }

  ghost function ActivationFacts(nodes: set<NodeId>): set<FactInvalidation> {
    set n | n in nodes :: ActivationFact(n)
  }

  lemma ActivationFactsUnion(a: set<NodeId>, b: set<NodeId>)
    ensures ActivationFacts(a + b) == ActivationFacts(a) + ActivationFacts(b)
  {
    forall n | n in a + b ensures ActivationFact(n) in ActivationFacts(a) + ActivationFacts(b) {
      assert n in a ==> ActivationFact(n) in ActivationFacts(a);
    }
    forall n | n in a || n in b ensures ActivationFact(n) in ActivationFacts(a + b) {
      assert n in a + b;
    }
  }

  /** Nodes whose activation a contract invalidates explicitly. */
  ghost function ActivationRoots(invalidations: seq<FactInvalidation>): set<NodeId> {
    set f | f in invalidations && f.scope.NodeScope? && f.kind.Activation? :: f.scope.node
  }

  /** The listed facts plus activation of everything depending on an activation root. */
  ghost function ExpandedFacts(graph: NodeGraph, invalidations: seq<FactInvalidation>): set<FactInvalidation> {
    Elements(invalidations)
    + ActivationFacts(ClosureOf(ActivationEdges(graph), ActivationRoots(invalidations)))
  }

  predicate RevokesEndpoint(facts: set<FactInvalidation>, node: NodeId) {
    ActivationFact(node) in facts || FactInvalidation(NodeScope(node), Presence) in facts
  }

  /** Records the facts as stale and drops the runtime claims they concern, nothing else. */
  function Revoke(evidence: SimulationEvidence, facts: set<FactInvalidation>): SimulationEvidence {
    evidence.(
      invalidated := evidence.invalidated + facts,
      interfaces := map n | n in evidence.interfaces && !RevokesEndpoint(facts, n) :: evidence.interfaces[n],
      activations := map n | n in evidence.activations && !RevokesEndpoint(facts, n) :: evidence.activations[n])
  }

  /** Adds the activation closure of one node to the expanded list, without repetition. */
  method ExpandActivation(graph: NodeGraph, root: NodeId,
                          facts: seq<FactInvalidation>)
    returns (expanded: seq<FactInvalidation>)
    ensures facts <= expanded
    ensures Elements(expanded) == Elements(facts) + ActivationFacts(ClosureOf(ActivationEdges(graph), {root}))
  {
    var order := Visit(ActivationEdges(graph), [root]);
    assert Elements([root]) == {root};
    expanded := facts;
    for i := 0 to |order|
      invariant facts <= expanded
      invariant Elements(expanded) == Elements(facts) + ActivationFacts(Elements(order[..i]))
    {
      assert Elements(order[..i + 1]) == Elements(order[..i]) + {order[i]} by {
        assert order[..i + 1] == order[..i] + [order[i]];
      }
      ActivationFactsUnion(Elements(order[..i]), {order[i]});
      assert ActivationFacts({order[i]}) == {ActivationFact(order[i])};
      if ActivationFact(order[i]) !in expanded {
        expanded := expanded + [ActivationFact(order[i])];
      }
    }
    assert order[..|order|] == order;
  }

  /** Lists the stale facts of one step, the given ones first. */
  method ExpandInvalidations(graph: NodeGraph,
                             invalidations: seq<FactInvalidation>)
    returns (expanded: seq<FactInvalidation>)
    ensures invalidations <= expanded
    ensures Elements(expanded) == ExpandedFacts(graph, invalidations)
  {
    expanded := invalidations;
    for i := 0 to |invalidations|
      invariant invalidations <= expanded
      invariant Elements(expanded) == Elements(invalidations)
        + ActivationFacts(ClosureOf(ActivationEdges(graph), ActivationRoots(invalidations[..i])))
    {
      var fact := invalidations[i];
      ExpandedStep(graph, invalidations, i);
      if fact.scope.NodeScope? && fact.kind.Activation? {
        ActivationFactsUnion(ClosureOf(ActivationEdges(graph), ActivationRoots(invalidations[..i])),
                             ClosureOf(ActivationEdges(graph), {fact.scope.node}));
        expanded := ExpandActivation(graph, fact.scope.node, expanded);
      }
    }
    assert invalidations[..|invalidations|] == invalidations;
  }

  /** One pass over the expanded facts amounts to revoking all of them at once. */
  method InvalidateObservations(graph: NodeGraph, evidence: SimulationEvidence, invalidations: seq<FactInvalidation>)
    returns (next: SimulationEvidence, expanded: seq<FactInvalidation>)
    ensures invalidations <= expanded
    ensures Elements(expanded) == ExpandedFacts(graph, invalidations)
    ensures next == Revoke(evidence, ExpandedFacts(graph, invalidations))
  {
    expanded := ExpandInvalidations(graph, invalidations);
    next := evidence;
    for i := 0 to |expanded|
      invariant next == Revoke(evidence, Elements(expanded[..i]))
    {
      var fact := expanded[i];
      next := next.(invalidated := next.invalidated + {fact});
      if fact.scope.NodeScope? && (fact.kind.Activation? || fact.kind.Presence?) {
        next := next.(interfaces := next.interfaces - {fact.scope.node},
                      activations := next.activations - {fact.scope.node});
      }
      assert Elements(expanded[..i + 1]) == Elements(expanded[..i]) + {fact} by {
        assert expanded[..i + 1] == expanded[..i] + [fact];
      }
      RevokeOne(evidence, Elements(expanded[..i]), fact, next);
    }
    assert expanded[..|expanded|] == expanded;
  }

  lemma RevokeOne(evidence: SimulationEvidence, facts: set<FactInvalidation>, fact: FactInvalidation,
                  next: SimulationEvidence)
    requires var before := Revoke(evidence, facts).(invalidated := Revoke(evidence, facts).invalidated + {fact});
      next == if fact.scope.NodeScope? && (fact.kind.Activation? || fact.kind.Presence?)
              then before.(interfaces := before.interfaces - {fact.scope.node},
                           activations := before.activations - {fact.scope.node})
              else before
    ensures next == Revoke(evidence, facts + {fact})
  {
    var after := Revoke(evidence, facts + {fact});
    assert next.interfaces == after.interfaces;
    assert next.activations == after.activations;
    assert next.invalidated == after.invalidated;
  }

  /** One more listed fact contributes exactly its own activation closure. */
  lemma ExpandedStep(graph: NodeGraph, invalidations: seq<FactInvalidation>, i: nat)
    requires i < |invalidations|
    ensures var edges := ActivationEdges(graph);
            var fact := invalidations[i];
            var before := ClosureOf(edges, ActivationRoots(invalidations[..i]));
            var after := ClosureOf(edges, ActivationRoots(invalidations[..i + 1]));
            after == if fact.scope.NodeScope? && fact.kind.Activation?
                     then before + ClosureOf(edges, {fact.scope.node}) else before
  {
    var fact := invalidations[i];
    assert invalidations[..i + 1] == invalidations[..i] + [fact];
    var before, after := ActivationRoots(invalidations[..i]), ActivationRoots(invalidations[..i + 1]);
    if fact.scope.NodeScope? && fact.kind.Activation? {
      assert after == before + {fact.scope.node};
      ClosureUnion(ActivationEdges(graph), before, {fact.scope.node});
    } else {
      assert after == before;
    }
  }

  // ---------------------------------------------------------------------------
  // Clean-check invalidation

  predicate CarriesContent(kind: DependencyKind) {
    kind.Backs? || kind.Contains?
  }

  function ContentEdges(graph: NodeGraph): Edges {
    set d | d in graph.dependencies && CarriesContent(d.kind) :: (d.src, d.dst)
  }

  predicate TouchesContent(fact: FactInvalidation) {
    fact.scope.NodeScope? && (fact.kind.Content? || fact.kind.Geometry? || fact.kind.Presence?)
  }

  ghost function ContentRoots(invalidations: seq<FactInvalidation>): set<NodeId> {
    set f | f in invalidations && TouchesContent(f) :: f.scope.node
  }

  /** Revokes the clean checks of everything content flows to from a touched node. */
  method InvalidateFilesystemChecks(graph: NodeGraph, evidence: SimulationEvidence,
                                    invalidations: seq<FactInvalidation>)
    returns (next: SimulationEvidence)
    ensures next == evidence.(checkedFilesystems :=
      evidence.checkedFilesystems - ClosureOf(ContentEdges(graph), ContentRoots(invalidations)))
  {
    var edges := ContentEdges(graph);
    var affected: seq<NodeId> := [];
    for i := 0 to |invalidations|
      invariant Elements(affected) == ContentRoots(invalidations[..i])
    {
      assert invalidations[..i + 1] == invalidations[..i] + [invalidations[i]];
      if TouchesContent(invalidations[i]) {
        affected := affected + [invalidations[i].scope.node];
      }
    }
    assert invalidations[..|invalidations|] == invalidations;
    var order := Visit(edges, affected);
    var checked := evidence.checkedFilesystems;
    for i := 0 to |order|
      invariant checked == evidence.checkedFilesystems - Elements(order[..i])
    {
      assert order[..i + 1] == order[..i] + [order[i]];
      checked := checked - {order[i]};
    }
    assert order[..|order|] == order;
    next := evidence.(checkedFilesystems := checked);
  }

  // ---------------------------------------------------------------------------
  // Capacity accounting

  /** One reserve, release or invalidation on known capacity; unknown domains are ignored. */
  function ApplyAllocation(evidence: SimulationEvidence,
                           effect: AllocationEffect): Result<SimulationEvidence, EffectError>
  {
    match effect
    case Invalidate(domain) =>
      Ok(evidence.(capacity := evidence.capacity - {domain},
                   projectedAllocations := evidence.projectedAllocations + {domain}))
    case Reserve(domain, amount) =>
      if domain !in evidence.capacity then Ok(evidence)
      else if evidence.capacity[domain] < amount then Err(InsufficientCapacity(domain))
      else Ok(evidence.(capacity := evidence.capacity[domain := evidence.capacity[domain] - amount],
                        projectedAllocations := evidence.projectedAllocations + {domain}))
    case Release(domain, amount) =>
      if domain !in evidence.capacity then Ok(evidence)
      else if evidence.capacity[domain] + amount > U64_MAX then Err(CapacityOverflow(domain))
      else Ok(evidence.(capacity := evidence.capacity[domain := evidence.capacity[domain] + amount],
                        projectedAllocations := evidence.projectedAllocations + {domain}))
  }

  function ApplyAllocations(evidence: SimulationEvidence,
                            effects: seq<AllocationEffect>): Result<SimulationEvidence, EffectError>
    decreases |effects|
  {
    if effects == [] then Ok(evidence)
    else
      match ApplyAllocation(evidence, effects[0])
      case Err(error) => Err(error)
      case Ok(next) => ApplyAllocations(next, effects[1..])
  }

  method ApplyAllocationEffects(evidence: SimulationEvidence, effects: seq<AllocationEffect>)
    returns (r: Result<SimulationEvidence, EffectError>)
    ensures r == ApplyAllocations(evidence, effects)
  {
    var next := evidence;
    for i := 0 to |effects|
      invariant ApplyAllocations(evidence, effects) == ApplyAllocations(next, effects[i..])
    {
      assert effects[i..][1..] == effects[i + 1..];
      match ApplyAllocation(next, effects[i]) {
        case Err(error) => return Err(error);
        case Ok(value) => next := value;
      }
    }
    r := Ok(next);
  }

  // ---------------------------------------------------------------------------
  // Outputs

  function ApplyOutput(evidence: SimulationEvidence, output: ActionOutput): SimulationEvidence {
    match output
    case BlockInterface(node, access) => evidence.(interfaces := evidence.interfaces[node := access])
    case FilesystemCheckPassed(node) => evidence.(checkedFilesystems := evidence.checkedFilesystems + {node})
    case _ => evidence
  }

  function OutputsFrom(evidence: SimulationEvidence, outputs: seq<ActionOutput>): SimulationEvidence
    decreases |outputs|
  {
    if outputs == [] then evidence else OutputsFrom(ApplyOutput(evidence, outputs[0]), outputs[1..])
  }

  method ApplyOutputs(evidence: SimulationEvidence, outputs: seq<ActionOutput>) returns (next: SimulationEvidence)
    ensures next == OutputsFrom(evidence, outputs)
  {
    next := evidence;
    for i := 0 to |outputs|
      invariant OutputsFrom(evidence, outputs) == OutputsFrom(next, outputs[i..])
    {
      assert outputs[i..][1..] == outputs[i + 1..];
      next := ApplyOutput(next, outputs[i]);
    }
  }
}
