/** Selection of the action that supplies a declared external requirement. */
module Requirements {
  import opened Wrappers
  import opened Dag
  import ResourceOrder
  import opened StorageModel
  import opened Prerequisites

  datatype PendingRequirement = PendingRequirement(action: nat, prerequisite: ActionPrerequisite)

  /** Which outputs answer which conditions; every other combination answers nothing. */
  predicate OutputSatisfies(output: ActionOutput, prerequisite: ActionPrerequisite) {
    match (output, prerequisite)
    case (NodeOutput(id, _), NodeExists(node)) => id == node
    case (NodeOutput(id, spec), NodeOfKind(node, expected)) => id == node && MatchesKind(spec.kind, expected)
    case (FilesystemCheckPassed(node), FilesystemCheckRequired(required)) => node == required
    case (BlockInterface(node, ReadWrite), Writable(required)) => node == required
    case _ => false
  }

  predicate Supplies(contract: ActionContract, prerequisite: ActionPrerequisite) {
    exists i :: 0 <= i < |contract.outputs| && OutputSatisfies(contract.outputs[i], prerequisite)
  }

  /** Another action with a matching output that the consumer does not precede. */
  ghost predicate IsProvider(req: PendingRequirement, contracts: map<nat, ActionContract>, deps: seq<ActionDependency>,
                             a: nat)
  {
    && a in contracts && a != req.action
    && !Reach(deps, req.action, a)
    && Supplies(contracts[a], req.prerequisite)
  }

  ghost predicate IsPredecessor(req: PendingRequirement, contracts: map<nat, ActionContract>,
                                deps: seq<ActionDependency>, a: nat)
  {
    IsProvider(req, contracts, deps, a) && Reach(deps, a, req.action)
  }

  /** The predecessor that every other predecessor precedes. */
  ghost predicate IsLatest(req: PendingRequirement, contracts: map<nat, ActionContract>, deps: seq<ActionDependency>,
                           a: nat)
  {
    && IsPredecessor(req, contracts, deps, a)
    && forall b: nat :: IsPredecessor(req, contracts, deps, b) ==> b == a || Reach(deps, b, a)
  }

  ghost predicate NoLatest(req: PendingRequirement, contracts: map<nat, ActionContract>, deps: seq<ActionDependency>) {
    forall a: nat :: !IsLatest(req, contracts, deps, a)
  }

  ghost predicate Ambiguous(req: PendingRequirement, contracts: map<nat, ActionContract>, deps: seq<ActionDependency>) {
    exists a: nat, b: nat :: a != b && IsProvider(req, contracts, deps, a) && IsProvider(req, contracts, deps, b)
  }

  /** Some(Some(a)): a supplies; Some(None): nothing does; None: several do and none is latest. */
  type Answer = Option<Option<nat>>

  /** The answer in terms of sets alone: the latest predecessor, else the sole provider. */
  ghost predicate IsAnswer(req: PendingRequirement, contracts: map<nat, ActionContract>, deps: seq<ActionDependency>,
                           r: Answer)
  {
    match r
    case Some(Some(a)) =>
      || IsLatest(req, contracts, deps, a)
      || (&& NoLatest(req, contracts, deps) && IsProvider(req, contracts, deps, a)
          && !Ambiguous(req, contracts, deps))
    case Some(None) => forall a: nat :: !IsProvider(req, contracts, deps, a)
    case None => NoLatest(req, contracts, deps) && Ambiguous(req, contracts, deps)
  }

  /** Collects the keys satisfying the filter, in some enumeration order of the map. */
  method MatchingProviders(req: PendingRequirement, contracts: map<nat, ActionContract>, deps: seq<ActionDependency>)
    returns (providers: seq<nat>)
    ensures forall a: nat :: a in providers <==> IsProvider(req, contracts, deps, a)
    ensures Distinct(providers)
  {
    providers := [];
    var rest := contracts.Keys;
    while rest != {}
      invariant rest <= contracts.Keys
      invariant forall a: nat :: a in providers ==> a !in rest
      invariant forall a: nat :: a !in rest ==> (a in providers <==> IsProvider(req, contracts, deps, a))
      invariant Distinct(providers)
      decreases |rest|
    {
      var a :| a in rest;
      rest := rest - {a};
      if a != req.action && Supplies(contracts[a], req.prerequisite) {
        var after := DependencyPath(req.action, a, deps);
        if !after {
          providers := providers + [a];
        }
      }
    }
  }

  method PredecessorsAmong(req: PendingRequirement, contracts: map<nat, ActionContract>, deps: seq<ActionDependency>,
                           providers: seq<nat>)
    returns (predecessors: seq<nat>)
    requires forall a: nat :: a in providers <==> IsProvider(req, contracts, deps, a)
    ensures forall a: nat :: a in predecessors <==> IsPredecessor(req, contracts, deps, a)
  {
    predecessors := [];
    for i := 0 to |providers|
      invariant forall a: nat :: a in predecessors <==> a in providers[..i] && Reach(deps, a, req.action)
    {
      assert providers[..i + 1] == providers[..i] + [providers[i]];
      var before := DependencyPath(providers[i], req.action, deps);
      if before {
        predecessors := predecessors + [providers[i]];
      }
    }
    assert providers[..|providers|] == providers;
  }

  /** Every candidate is the given action or leads to it. */
  method FollowsAll(candidates: seq<nat>, a: nat, deps: seq<ActionDependency>) returns (latest: bool)
    ensures latest <==> forall k :: 0 <= k < |candidates| ==> candidates[k] == a || Reach(deps, candidates[k], a)
  {
    latest := true;
    for j := 0 to |candidates|
      invariant latest <==> forall k :: 0 <= k < j ==> candidates[k] == a || Reach(deps, candidates[k], a)
    {
      var before := DependencyPath(candidates[j], a, deps);
      latest := latest && (candidates[j] == a || before);
    }
  }

  lemma LatestAmong(req: PendingRequirement, contracts: map<nat, ActionContract>, deps: seq<ActionDependency>,
                    predecessors: seq<nat>, a: nat)
    requires forall b: nat :: b in predecessors <==> IsPredecessor(req, contracts, deps, b)
    requires a in predecessors
    ensures IsLatest(req, contracts, deps, a)
            <==> forall k :: 0 <= k < |predecessors| ==> predecessors[k] == a || Reach(deps, predecessors[k], a)
  {
    if IsLatest(req, contracts, deps, a) {
      forall k | 0 <= k < |predecessors| ensures predecessors[k] == a || Reach(deps, predecessors[k], a) {
        assert IsPredecessor(req, contracts, deps, predecessors[k]);
      }
    }
    if forall k :: 0 <= k < |predecessors| ==> predecessors[k] == a || Reach(deps, predecessors[k], a) {
      forall b: nat | IsPredecessor(req, contracts, deps, b) ensures b == a || Reach(deps, b, a) {
        assert b in predecessors;
        var k :| 0 <= k < |predecessors| && predecessors[k] == b;
      }
    }
  }

  /** The predecessor that all others precede, if there is one. */
  method FindLatest(req: PendingRequirement, contracts: map<nat, ActionContract>, deps: seq<ActionDependency>,
                    predecessors: seq<nat>)
    returns (latest: Option<nat>)
    requires forall a: nat :: a in predecessors <==> IsPredecessor(req, contracts, deps, a)
    ensures latest.Some? ==> IsLatest(req, contracts, deps, latest.value)
    ensures latest.None? ==> NoLatest(req, contracts, deps)
  {
    for i := 0 to |predecessors|
      invariant forall k :: 0 <= k < i ==> !IsLatest(req, contracts, deps, predecessors[k])
    {
      var follows := FollowsAll(predecessors, predecessors[i], deps);
      LatestAmong(req, contracts, deps, predecessors, predecessors[i]);
      if follows {
        return Some(predecessors[i]);
      }
    }
    forall a: nat ensures !IsLatest(req, contracts, deps, a) {
      if a in predecessors {
        var k :| 0 <= k < |predecessors| && predecessors[k] == a;
      }
    }
    latest := None;
  }

  /** The answer as a function of requirement, contracts and edges, with no enumeration order in it. */
  ghost function Selection(req: PendingRequirement, contracts: map<nat, ActionContract>, deps: seq<ActionDependency>)
    : (r: Answer)
    ensures IsAnswer(req, contracts, deps, r)
  {
    if exists a: nat :: IsLatest(req, contracts, deps, a) then
      var a: nat :| IsLatest(req, contracts, deps, a);
      Some(Some(a))
    else if Ambiguous(req, contracts, deps) then None
    else if exists a: nat :: IsProvider(req, contracts, deps, a) then
      var a: nat :| IsProvider(req, contracts, deps, a);
      Some(Some(a))
    else Some(None)
  }

  /** On an acyclic plan the answer does not depend on how the contract map is enumerated. */
  lemma AnswerUnique(req: PendingRequirement, contracts: map<nat, ActionContract>, deps: seq<ActionDependency>,
                     r: Answer, r': Answer)
    requires Acyclic(deps) && IsAnswer(req, contracts, deps, r) && IsAnswer(req, contracts, deps, r')
    ensures r == r'
  {
    match (r, r') {
      case (Some(Some(a)), Some(Some(b))) =>
        if IsLatest(req, contracts, deps, a) && IsLatest(req, contracts, deps, b) && a != b {
          ReachTransitive(deps, a, b, a);
        }
      case _ =>
    }
  }

  /** Computes the answer that `IsAnswer` characterises, over any enumeration of the map. */
  method RequirementProvider(req: PendingRequirement, contracts: map<nat, ActionContract>, deps: seq<ActionDependency>)
    returns (r: Answer)
    ensures IsAnswer(req, contracts, deps, r)
    ensures r.Some? && r.value.Some? ==> IsProvider(req, contracts, deps, r.value.value)
    ensures Acyclic(deps) ==> r == Selection(req, contracts, deps)
  {
    var providers := MatchingProviders(req, contracts, deps);
    var predecessors := PredecessorsAmong(req, contracts, deps, providers);
    var latest := FindLatest(req, contracts, deps, predecessors);
    if latest.Some? {
      r := Some(latest);
    } else if |providers| == 0 {
      r := Some(None);
    } else if |providers| == 1 {
      assert providers[0] in providers;
      r := Some(Some(providers[0]));
    } else {
      assert providers[0] in providers && providers[1] in providers && providers[0] != providers[1];
      r := None;
    }
    if Acyclic(deps) {
      AnswerUnique(req, contracts, deps, r, Selection(req, contracts, deps));
    }
  }

  /** Within every linear extension, all earlier phases of the provider precede the selected one. */
  lemma LatestFollowsPredecessors(n: nat, req: PendingRequirement, contracts: map<nat, ActionContract>,
                                  deps: seq<ActionDependency>,
                                  order: seq<nat>, a: nat, i: nat, k: nat, c: nat)
    requires InRange(n, deps) && IsOrder(n, deps, order) && i < n && k < n && c < n
    requires IsLatest(req, contracts, deps, a) && order[i] == a && order[c] == req.action
    requires IsPredecessor(req, contracts, deps, order[k]) && order[k] != a
    ensures k < i < c
  {
    OrderFollowsReach(n, deps, order, k, i);
    OrderFollowsReach(n, deps, order, i, c);
  }

  /** `a` stands before its consumer with no other matching provider between them. */
  ghost predicate IsLastBefore(req: PendingRequirement, contracts: map<nat, ActionContract>, order: seq<nat>, a: nat) {
    exists i, c :: 0 <= i < c < |order| && order[i] == a && order[c] == req.action
      && forall k :: i < k < c && order[k] in contracts ==> !Supplies(contracts[order[k]], req.prerequisite)
  }

  ghost predicate AlwaysLast(n: nat, req: PendingRequirement, contracts: map<nat, ActionContract>,
                             deps: seq<ActionDependency>, a: nat)
  {
    forall order :: IsOrder(n, deps, order) ==> IsLastBefore(req, contracts, order, a)
  }

  /**
   A selected predecessor is the last matching provider before its consumer in
   every linear extension exactly when it follows all other providers; a provider
   left unordered can otherwise run between the two.
   */
  lemma SelectedIsLastIff(n: nat, req: PendingRequirement, contracts: map<nat, ActionContract>,
                          deps: seq<ActionDependency>, a: nat)
    requires InRange(n, deps) && Acyclic(deps) && (forall x :: x in contracts ==> x < n)
    requires IsLatest(req, contracts, deps, a)
    ensures AlwaysLast(n, req, contracts, deps, a)
            <==> forall b: nat :: IsProvider(req, contracts, deps, b) && b != a ==> Reach(deps, b, a)
  {
    if forall b: nat :: IsProvider(req, contracts, deps, b) && b != a ==> Reach(deps, b, a) {
      forall order | IsOrder(n, deps, order) ensures IsLastBefore(req, contracts, order, a) {
        OrderedProvidersLast(n, req, contracts, deps, order, a);
      }
    } else {
      var b: nat :| IsProvider(req, contracts, deps, b) && b != a && !Reach(deps, b, a);
      var order := InterposedOrder(n, req, contracts, deps, a, b);
    }
  }

  lemma OrderedProvidersLast(n: nat, req: PendingRequirement, contracts: map<nat, ActionContract>,
                             deps: seq<ActionDependency>,
                             order: seq<nat>, a: nat)
    requires InRange(n, deps) && IsOrder(n, deps, order) && IsLatest(req, contracts, deps, a)
    requires forall b: nat :: IsProvider(req, contracts, deps, b) && b != a ==> Reach(deps, b, a)
    ensures IsLastBefore(req, contracts, order, a)
  {
    var k: nat :| ReachIn(deps, a, req.action, k);
    ReachInRange(n, deps, a, req.action, k);
    PermutationCovers(n, order);
    assert a in order && req.action in order;
    var i :| 0 <= i < n && order[i] == a;
    var c :| 0 <= c < n && order[c] == req.action;
    OrderFollowsReach(n, deps, order, i, c);
    forall m | i < m < c && order[m] in contracts ensures !Supplies(contracts[order[m]], req.prerequisite) {
      var b := order[m];
      if Supplies(contracts[b], req.prerequisite) {
        if Reach(deps, req.action, b) {
          OrderFollowsReach(n, deps, order, c, m);
        } else {
          assert IsProvider(req, contracts, deps, b);
          OrderFollowsReach(n, deps, order, m, i);
        }
      }
    }
  }

  /** The edges a -> b and b -> consumer can be added without closing a cycle. */
  lemma InterposedEdges(deps: seq<ActionDependency>, a: nat, b: nat, c: nat)
    returns (all: seq<ActionDependency>)
    requires Acyclic(deps) && a != b && b != c && Reach(deps, a, c) && !Reach(deps, b, a) && !Reach(deps, c, b)
    ensures Acyclic(all) && Covers(all, deps) && HasEdge(all, a, b) && HasEdge(all, b, c)
    ensures all == deps + [ActionDependency(a, b, RequestedOrder), ActionDependency(b, c, RequestedOrder)]
  {
    var first := ActionDependency(a, b, RequestedOrder);
    var second := ActionDependency(b, c, RequestedOrder);
    AcyclicAppend(deps, first);
    var some := deps + [first];
    if Reach(some, c, b) {
      var k: nat :| ReachIn(some, c, b, k);
      ReachInAppend(deps, first, c, b, k);
      if Reach(deps, c, a) {
        ReachTransitive(deps, a, c, a);
      }
    }
    AcyclicAppend(some, second);
    AppendCovers(deps, first);
    AppendCovers(some, second);
    all := some + [second];
    assert all == deps + [first, second];
  }

  /** Some linear extension runs an unordered provider between the selected one and the consumer. */
  lemma InterposedOrder(n: nat, req: PendingRequirement, contracts: map<nat, ActionContract>,
                        deps: seq<ActionDependency>, a: nat, b: nat)
    returns (order: seq<nat>)
    requires InRange(n, deps) && Acyclic(deps) && (forall x :: x in contracts ==> x < n)
    requires IsLatest(req, contracts, deps, a) && IsProvider(req, contracts, deps, b) && b != a && !Reach(deps, b, a)
    ensures IsOrder(n, deps, order) && !IsLastBefore(req, contracts, order, a)
  {
    var c := req.action;
    var steps: nat :| ReachIn(deps, a, c, steps);
    ReachInRange(n, deps, a, c, steps);
    var all := InterposedEdges(deps, a, b, c);
    order := PrefixCompletes(n, all, []);
    OrderCovers(n, all, deps, order);
    Interposed(n, req, contracts, all, order, a, b);
  }

  lemma Interposed(n: nat, req: PendingRequirement, contracts: map<nat, ActionContract>, all: seq<ActionDependency>,
                   order: seq<nat>, a: nat, b: nat)
    requires InRange(n, all) && IsOrder(n, all, order) && HasEdge(all, a, b) && HasEdge(all, b, req.action)
    requires b in contracts && Supplies(contracts[b], req.prerequisite)
    ensures !IsLastBefore(req, contracts, order, a)
  {
    PermutationCovers(n, order);
    assert b in order;
    var m :| 0 <= m < n && order[m] == b;
    forall i, l | 0 <= i < l < |order| && order[i] == a && order[l] == req.action ensures i < m < l {
      assert HasEdge(all, order[i], order[m]) && HasEdge(all, order[m], order[l]);
    }
  }

  /**
   Where every supplier conflicts with the consumer over some resource, as checks and
   resizes of one filesystem do, an accepted plan leaves no supplier unordered, so the
   latest predecessor is the last supplier in every linear extension.
   */
  lemma AcceptedLatestIsLast(n: nat, req: PendingRequirement, contracts: map<nat, ActionContract>,
                             deps: seq<ActionDependency>, a: nat)
    requires ResourceOrder.Accepted(n, contracts, deps) && Acyclic(deps) && IsLatest(req, contracts, deps, a)
    requires req.action in contracts
    requires forall b: nat :: IsProvider(req, contracts, deps, b) ==>
      ResourceOrder.Conflict(contracts[b], contracts[req.action])
    ensures AlwaysLast(n, req, contracts, deps, a)
  {
    forall b: nat | IsProvider(req, contracts, deps, b) && b != a ensures Reach(deps, b, a) {
      assert !ResourceOrder.Ambiguous(contracts, deps, b, req.action);
      assert IsPredecessor(req, contracts, deps, b);
    }
    SelectedIsLastIff(n, req, contracts, deps, a);
  }

  /** A forced filesystem check: it reads the mount table and the node and outputs the clean check. */
  function CheckContract(fs: NodeId): ActionContract {
    ActionContract(
      [NodeOfKind(fs, FilesystemClass), FilesystemUnmounted(fs)],
      [FilesystemCheckPassed(fs)],
      [ResourceAccess(RuntimeMountState, Read), ResourceAccess(NodeResource(fs), Read)],
      PredictedEffect([], [], []),
      [FactInvalidation(NodeScope(fs), Content)],
      [],
      Idempotent)
  }

  /** A shrinking resize: it needs the clean check and writes the node. */
  function ShrinkContract(fs: NodeId, size: nat): ActionContract {
    ActionContract(
      [NodeOfKind(fs, FilesystemClass), FilesystemUnmounted(fs), FilesystemCheckRequired(fs),
       FilesystemMinimumSize(fs, size)],
      [],
      [ResourceAccess(NodeResource(fs), Write), ResourceAccess(RuntimeMountState, Read)],
      PredictedEffect([SetNodeSize(fs, size)], [], []),
      [FactInvalidation(NodeScope(fs), Geometry)],
      [],
      ReprobeThenRetry)
  }

  /**
   Two actions check filesystem 7 and only action 0 is ordered before its resize 2:
   action 0 is selected, yet action 1 may run its own check in between.  The open
   order of action 1 and the resize is what resource validation then rejects.
   */
  lemma UnorderedProviderInterposes(size: nat)
    ensures var deps := [ActionDependency(0, 2, RequestedOrder)];
      var contracts := map[0 := CheckContract(7), 1 := CheckContract(7), 2 := ShrinkContract(7, size)];
      var req := PendingRequirement(2, FilesystemCheckRequired(7));
      && InRange(3, deps) && Acyclic(deps)
      && IsLatest(req, contracts, deps, 0) && IsAnswer(req, contracts, deps, Some(Some(0)))
      && !AlwaysLast(3, req, contracts, deps, 0)
      && ResourceOrder.Ambiguous(contracts, deps, 1, 2)
  {
    var deps := [ActionDependency(0, 2, RequestedOrder)];
    var check, shrink := CheckContract(7), ShrinkContract(7, size);
    var contracts := map[0 := check, 1 := check, 2 := shrink];
    var req := PendingRequirement(2, FilesystemCheckRequired(7));
    assert deps[0].before == 0 && deps[0].after == 2;
    assert HasEdge(deps, 0, 2);
    EdgeReaches(deps, 0, 2);
    forall a: nat, b: nat, k: nat | ReachIn(deps, a, b, k) ensures a == 0 && b == 2 {
      SingleEdgeReach(deps, a, b, k);
    }
    assert OutputSatisfies(check.outputs[0], req.prerequisite);
    assert IsProvider(req, contracts, deps, 0) && IsProvider(req, contracts, deps, 1);
    SelectedIsLastIff(3, req, contracts, deps, 0);
    assert ResourceOrder.Clashes(check.resources[1], shrink.resources[0]);
  }

  lemma {:induction false} SingleEdgeReach(deps: seq<ActionDependency>, a: nat, b: nat, k: nat)
    requires |deps| == 1 && deps[0].before != deps[0].after && ReachIn(deps, a, b, k)
    ensures a == deps[0].before && b == deps[0].after
    decreases k
  {
    if k > 0 {
      var c: nat :| HasEdge(deps, a, c) && ReachIn(deps, c, b, k - 1);
      SingleEdgeReach(deps, c, b, k - 1);
    }
  }
}
