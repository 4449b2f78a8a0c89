/** How far one invalidation reaches, told by chains of graph dependencies. */
module Flow {
  import opened Wrappers
  import opened StorageModel
  import opened Prerequisites
  import opened Closure
  import opened Evidence

  /** Consecutive dependencies from a to b; the empty chain stays where it is. */
  ghost predicate IsChain(chain: seq<Dependency>, a: NodeId, b: NodeId) {
    if chain == [] then a == b else chain[0].src == a && IsChain(chain[1..], chain[0].dst, b)
  }

  ghost predicate Joins(deps: set<Dependency>, chain: seq<Dependency>, a: NodeId, b: NodeId) {
    IsChain(chain, a, b) && forall i :: 0 <= i < |chain| ==> chain[i] in deps
  }

  /** Some chain of these dependencies leads from a to b. */
  ghost predicate Joined(deps: set<Dependency>, a: NodeId, b: NodeId) {
    exists chain :: Joins(deps, chain, a, b)
  }

  ghost predicate AreEdgesOf(edges: Edges, deps: set<Dependency>) {
    forall a: NodeId, b: NodeId :: (a, b) in edges <==> exists d :: d in deps && d.src == a && d.dst == b
  }

  lemma {:induction false} WalkIsChain(edges: Edges, deps: set<Dependency>, a: NodeId, b: NodeId, k: nat)
    requires AreEdgesOf(edges, deps) && LinkedIn(edges, a, b, k)
    ensures Joined(deps, a, b)
    decreases k
  {
    if k == 0 {
      assert Joins(deps, [], a, b);
    } else {
      var c: NodeId :| (a, c) in edges && LinkedIn(edges, c, b, k - 1);
      WalkIsChain(edges, deps, c, b, k - 1);
      var chain :| Joins(deps, chain, c, b);
      var d :| d in deps && d.src == a && d.dst == c;
      assert ([d] + chain)[1..] == chain;
      assert Joins(deps, [d] + chain, a, b);
    }
  }

  lemma {:induction false} ChainIsWalk(edges: Edges, deps: set<Dependency>, chain: seq<Dependency>, a: NodeId,
                                       b: NodeId)
    requires AreEdgesOf(edges, deps) && Joins(deps, chain, a, b)
    ensures LinkedIn(edges, a, b, |chain|)
    decreases |chain|
  {
    if chain != [] {
      assert Joins(deps, chain[1..], chain[0].dst, b);
      ChainIsWalk(edges, deps, chain[1..], chain[0].dst, b);
      assert chain[0] in deps;
      assert (a, chain[0].dst) in edges;
    }
  }

  lemma LinkedIsJoined(edges: Edges, deps: set<Dependency>, a: NodeId, b: NodeId)
    requires AreEdgesOf(edges, deps)
    ensures Linked(edges, a, b) <==> Joined(deps, a, b)
  {
    if Linked(edges, a, b) {
      var k: nat :| LinkedIn(edges, a, b, k);
      WalkIsChain(edges, deps, a, b, k);
    }
    if Joined(deps, a, b) {
      var chain :| Joins(deps, chain, a, b);
      ChainIsWalk(edges, deps, chain, a, b);
    }
  }

  // ---------------------------------------------------------------------------
  // Endpoints

  /** Fact i is about activation and the node depends on its subject through any chain. */
  ghost predicate DisturbsAt(graph: NodeGraph, invalidations: seq<FactInvalidation>, i: nat, n: NodeId) {
    && i < |invalidations| && invalidations[i].kind == Activation && invalidations[i].scope.NodeScope?
    && Joined(graph.dependencies, invalidations[i].scope.node, n)
  }

  /** The node is downstream of an activation change, or its own presence is in doubt. */
  ghost predicate Disturbs(graph: NodeGraph, invalidations: seq<FactInvalidation>, n: NodeId) {
    || (exists i: nat :: DisturbsAt(graph, invalidations, i, n))
    || FactInvalidation(NodeScope(n), Presence) in invalidations
  }

  lemma ActivationSpreads(graph: NodeGraph, invalidations: seq<FactInvalidation>, n: NodeId)
    ensures LinkedFrom(ActivationEdges(graph), ActivationRoots(invalidations), n)
            <==> exists i: nat :: DisturbsAt(graph, invalidations, i, n)
  {
    var edges, roots := ActivationEdges(graph), ActivationRoots(invalidations);
    if a: NodeId :| a in roots && Linked(edges, a, n) {
      LinkedIsJoined(edges, graph.dependencies, a, n);
      var i: nat :| i < |invalidations| && invalidations[i] == FactInvalidation(NodeScope(a), Activation);
      assert DisturbsAt(graph, invalidations, i, n);
    }
    if i: nat :| DisturbsAt(graph, invalidations, i, n) {
      LinkedIsJoined(edges, graph.dependencies, invalidations[i].scope.node, n);
      assert invalidations[i].scope.node in roots;
    }
  }

  /** The expanded facts of one step disturb exactly those endpoints. */
  lemma ExpandedFactsDisturb(graph: NodeGraph, invalidations: seq<FactInvalidation>, n: NodeId)
    ensures RevokesEndpoint(ExpandedFacts(graph, invalidations), n) <==> Disturbs(graph, invalidations, n)
  {
    var edges, roots := ActivationEdges(graph), ActivationRoots(invalidations);
    var facts := ExpandedFacts(graph, invalidations);
    ActivationSpreads(graph, invalidations, n);
    ClosureMember(edges, roots, n);
    ClosureRoots(edges, roots);
    if ActivationFact(n) in invalidations {
      assert ActivationFact(n).scope.node in roots;
    }
    if n in ClosureOf(edges, roots) {
      assert ActivationFact(n) in ActivationFacts(ClosureOf(edges, roots));
    }
    assert FactInvalidation(NodeScope(n), Presence) in facts
        <==> FactInvalidation(NodeScope(n), Presence) in invalidations;
  }

  // ---------------------------------------------------------------------------
  // Content

  /** Dependencies that hand content on: one layer backs the next or contains it. */
  ghost function ContentDependencies(graph: NodeGraph): set<Dependency> {
    set d | d in graph.dependencies && (d.kind == Backs || d.kind.Contains?)
  }

  /** Fact i changes content, size or presence of a node whose content flows into `fs`. */
  ghost predicate TaintsAt(graph: NodeGraph, invalidations: seq<FactInvalidation>, i: nat, fs: NodeId) {
    && i < |invalidations| && invalidations[i].scope.NodeScope?
    && (invalidations[i].kind == Content || invalidations[i].kind == Geometry || invalidations[i].kind == Presence)
    && Joined(ContentDependencies(graph), invalidations[i].scope.node, fs)
  }

  ghost predicate Taints(graph: NodeGraph, invalidations: seq<FactInvalidation>, fs: NodeId) {
    exists i: nat :: TaintsAt(graph, invalidations, i, fs)
  }

  /** Clean checks are revoked exactly for what the touched content flows into. */
  lemma ContentSpreads(graph: NodeGraph, invalidations: seq<FactInvalidation>, fs: NodeId)
    ensures fs in ClosureOf(ContentEdges(graph), ContentRoots(invalidations)) <==> Taints(graph, invalidations, fs)
  {
    var edges, roots := ContentEdges(graph), ContentRoots(invalidations);
    ClosureMember(edges, roots, fs);
    if a: NodeId :| a in roots && Linked(edges, a, fs) {
      LinkedIsJoined(edges, ContentDependencies(graph), a, fs);
      var i: nat :| i < |invalidations| && TouchesContent(invalidations[i]) && invalidations[i].scope.node == a;
      assert TaintsAt(graph, invalidations, i, fs);
    }
    if i: nat :| TaintsAt(graph, invalidations, i, fs) {
      LinkedIsJoined(edges, ContentDependencies(graph), invalidations[i].scope.node, fs);
      assert invalidations[i].scope.node in roots;
    }
  }
}
