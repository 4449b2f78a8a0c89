/** Structural edges: explicit ordering, node creation and mount nesting. */
module Binding {
  import opened Wrappers
  import opened Dag
  import opened StorageModel
  import opened Fragments

  // ---------------------------------------------------------------------------
  // Explicit cross-fragment ordering

  ghost predicate KeepsOrdering(ids: map<FragmentActionRef, nat>, ordering: seq<FragmentOrdering>,
                                deps: seq<ActionDependency>)
  {
    forall i :: 0 <= i < |ordering| ==>
      && ordering[i].before in ids && ordering[i].after in ids
      && HasEdge(deps, ids[ordering[i].before], ids[ordering[i].after])
  }

  /** The edge was asked for explicitly, with that reason. */
  ghost predicate IsOrderingEdge(ids: map<FragmentActionRef, nat>, ordering: seq<FragmentOrdering>,
                                 e: ActionDependency)
  {
    exists i :: 0 <= i < |ordering| && RequestsEdge(ids, ordering[i], e)
  }

  ghost predicate RequestsEdge(ids: map<FragmentActionRef, nat>, order: FragmentOrdering, e: ActionDependency) {
    order.before in ids && order.after in ids
        && e == ActionDependency(ids[order.before], ids[order.after], order.reason)
  }

  ghost predicate OnlyOrderings(ids: map<FragmentActionRef, nat>, ordering: seq<FragmentOrdering>,
                                deps: seq<ActionDependency>, all: seq<ActionDependency>)
  {
    deps <= all && forall i :: |deps| <= i < |all| ==> IsOrderingEdge(ids, ordering, all[i])
  }

  /** An endpoint without action, or one action ordered before itself. */
  ghost predicate OrderingFails(ids: map<FragmentActionRef, nat>, ordering: seq<FragmentOrdering>,
                                error: CompositionError)
  {
    match error
    case UnknownOrderingAction(endpoint) =>
      && endpoint !in ids
      && exists i :: 0 <= i < |ordering| && (ordering[i].before == endpoint || ordering[i].after == endpoint)
    case SelfDependency(action) =>
      exists i :: 0 <= i < |ordering|
          && RequestsEdge(ids, ordering[i], ActionDependency(action, action, ordering[i].reason))
    case _ => false
  }

  function OrderingResult(ids: map<FragmentActionRef, nat>, order: FragmentOrdering, deps: seq<ActionDependency>)
    : Result<seq<ActionDependency>, CompositionError>
  {
    if order.before !in ids then Err(UnknownOrderingAction(order.before))
    else if order.after !in ids then Err(UnknownOrderingAction(order.after))
    else if ids[order.before] == ids[order.after] then Err(SelfDependency(ids[order.before]))
    else Ok(WithEdge(deps, ids[order.before], ids[order.after], order.reason))
  }

  /** The requested orderings from i on. */
  function OrderingsFrom(ids: map<FragmentActionRef, nat>, ordering: seq<FragmentOrdering>, deps: seq<ActionDependency>,
                         i: nat)
    : Result<seq<ActionDependency>, CompositionError>
    requires i <= |ordering|
    decreases |ordering| - i
  {
    if i == |ordering| then Ok(deps)
    else
      match OrderingResult(ids, ordering[i], deps)
      case Err(error) => Err(error)
      case Ok(all) => OrderingsFrom(ids, ordering, all, i + 1)
  }

  /** Adds one requested edge under its global identities. */
  method AddOrdering(ids: map<FragmentActionRef, nat>, ordering: seq<FragmentOrdering>, i: nat,
                     deps: seq<ActionDependency>)
    returns (r: Result<seq<ActionDependency>, CompositionError>)
    requires i < |ordering|
    ensures r.Err? ==> OrderingFails(ids, ordering, r.error)
    ensures r.Ok? ==>
      var edge := ordering[i];
      && edge.before in ids && edge.after in ids && HasEdge(r.value, ids[edge.before], ids[edge.after])
      && (r.value == deps || r.value == deps + [ActionDependency(ids[edge.before], ids[edge.after], edge.reason)])
      && Covers(r.value, deps)
    ensures r == OrderingResult(ids, ordering[i], deps)
  {
    var edge := ordering[i];
    if edge.before !in ids {
      return Err(UnknownOrderingAction(edge.before));
    }
    if edge.after !in ids {
      return Err(UnknownOrderingAction(edge.after));
    }
    var added := AddDependency(deps, ids[edge.before], ids[edge.after], edge.reason);
    if added.None? {
      assert RequestsEdge(ids, ordering[i], ActionDependency(ids[edge.before], ids[edge.before], ordering[i].reason));
      return Err(SelfDependency(ids[edge.before]));
    }
    r := Ok(added.value);
  }

  /** Adds exactly the requested cross-fragment edges. */
  method BindOrdering(ids: map<FragmentActionRef, nat>, ordering: seq<FragmentOrdering>, n: nat,
                      deps: seq<ActionDependency>)
    returns (r: Result<seq<ActionDependency>, CompositionError>)
    requires IdsBelow(ids, n) && InRange(n, deps)
    ensures r.Ok? ==> InRange(n, r.value) && Covers(r.value, deps) && KeepsOrdering(ids, ordering, r.value)
    ensures r.Ok? ==> OnlyOrderings(ids, ordering, deps, r.value)
    ensures r.Err? ==> OrderingFails(ids, ordering, r.error)
    ensures r == OrderingsFrom(ids, ordering, deps, 0)
  {
    var all := deps;
    for i := 0 to |ordering|
      invariant OrderingsFrom(ids, ordering, deps, 0) == OrderingsFrom(ids, ordering, all, i)
      invariant InRange(n, all) && Covers(all, deps) && KeepsOrdering(ids, ordering[..i], all)
      invariant OnlyOrderings(ids, ordering, deps, all)
    {
      var added := AddOrdering(ids, ordering, i, all);
      if added.Err? {
        return added;
      }
      var edge := ordering[i];
      assert RequestsEdge(ids, edge, ActionDependency(ids[edge.before], ids[edge.after], edge.reason));
      assert ordering[..i + 1] == ordering[..i] + [edge];
      all := added.value;
    }
    assert ordering[..|ordering|] == ordering;
    r := Ok(all);
  }

  // ---------------------------------------------------------------------------
  // Creation order

  ghost predicate Creates(draft: seq<DraftAction>, c: nat, node: NodeId) {
    c < |draft| && draft[c].operation.Create? && draft[c].operation.planned == node
  }

  /** Exactly the planned nodes of the first k actions, each with its only creator. */
  ghost predicate IsCreatorMap(graph: NodeGraph, draft: seq<DraftAction>, creators: map<NodeId, nat>, k: nat) {
    && (forall node :: node in creators ==>
          creators[node] < k && Creates(draft, creators[node], node) && node !in graph.nodes)
    && (forall c: nat, node: NodeId :: c < k && Creates(draft, c, node) ==> node in creators && creators[node] == c)
  }

  /** The creation fault that each error names is really there. */
  ghost predicate CreationFails(graph: NodeGraph, draft: seq<DraftAction>, error: CompositionError) {
    match error
    case PlannedNodeAlreadyExists(node) => node in graph.nodes && exists c: nat :: Creates(draft, c, node)
    case DuplicatePlannedNode(node, first, second) =>
      first < second && Creates(draft, first, node) && Creates(draft, second, node)
    case UnresolvedInput(action, node) =>
      && action < |draft| && Needs(draft[action].operation, node)
      && node !in graph.nodes && forall c: nat :: !Creates(draft, c, node)
    case SelfDependency(action) => action < |draft|
        && IsCreationEdge(graph, draft, ActionDependency(action, action, InputCreation))
    case _ => false
  }

  /** Collection of the creators from action k on. */
  function CreatorsFrom(graph: NodeGraph, draft: seq<DraftAction>, creators: map<NodeId, nat>, k: nat)
    : Result<map<NodeId, nat>, CompositionError>
    requires k <= |draft|
    decreases |draft| - k
  {
    if k == |draft| then Ok(creators)
    else
      match draft[k].operation
      case Create(planned, _, _) =>
        if planned in graph.nodes then Err(PlannedNodeAlreadyExists(planned))
        else if planned in creators then Err(DuplicatePlannedNode(planned, creators[planned], draft[k].id))
        else CreatorsFrom(graph, draft, creators[planned := draft[k].id], k + 1)
      case _ => CreatorsFrom(graph, draft, creators, k + 1)
  }

  method CollectCreators(graph: NodeGraph, draft: seq<DraftAction>)
    returns (r: Result<map<NodeId, nat>, CompositionError>)
    requires IsDense(draft)
    ensures r.Ok? ==> IsCreatorMap(graph, draft, r.value, |draft|)
    ensures r.Err? ==>
      (r.error.PlannedNodeAlreadyExists? || r.error.DuplicatePlannedNode?) && CreationFails(graph, draft, r.error)
    ensures r == CreatorsFrom(graph, draft, map[], 0)
  {
    var creators: map<NodeId, nat> := map[];
    for k := 0 to |draft|
      invariant IsCreatorMap(graph, draft, creators, k)
      invariant CreatorsFrom(graph, draft, map[], 0) == CreatorsFrom(graph, draft, creators, k)
    {
      match draft[k].operation {
        case Create(planned, _, _) =>
          assert Creates(draft, k, planned);
          if planned in graph.nodes {
            return Err(PlannedNodeAlreadyExists(planned));
          }
          if planned in creators {
            return Err(DuplicatePlannedNode(planned, creators[planned], draft[k].id));
          }
          creators := creators[planned := draft[k].id];
        case _ =>
      }
    }
    r := Ok(creators);
  }

  /** The action works on the node: as a listed input, or as what it mounts. */
  ghost predicate Needs(action: ProviderAction, node: NodeId) {
    || ((action.Create? || action.Modify?) && node in action.inputs)
    || ((action.MountRuntime? || action.Persist?)
        && (|| action.entry.source == Filesystem(node)
            || action.entry.source == BtrfsSubvolume(node)
            || action.entry.source == ZfsDataset(node)))
  }

  /** Input m of action i exists already or is created by a direct predecessor. */
  ghost predicate InputBound(graph: NodeGraph, draft: seq<DraftAction>, deps: seq<ActionDependency>, i: nat,
                             node: NodeId)
  {
    node in graph.nodes || exists c: nat :: Creates(draft, c, node) && HasEdge(deps, c, i)
  }

  /** Every input of every action is available before it. */
  ghost predicate InputsBound(graph: NodeGraph, draft: seq<DraftAction>, deps: seq<ActionDependency>) {
    forall i: nat, node: NodeId :: i < |draft| && Needs(draft[i].operation, node) ==>
        InputBound(graph, draft, deps, i, node)
  }

  /** The edge runs from the creator of a new node to an action that needs it. */
  ghost predicate IsCreationEdge(graph: NodeGraph, draft: seq<DraftAction>, e: ActionDependency) {
    && e.reason.InputCreation? && e.after < |draft|
    && exists node :: Needs(draft[e.after].operation, node) && node !in graph.nodes
        && Creates(draft, e.before, node)
  }

  ghost predicate OnlyCreations(graph: NodeGraph, draft: seq<DraftAction>, deps: seq<ActionDependency>,
                                all: seq<ActionDependency>)
  {
    deps <= all && forall i :: |deps| <= i < |all| ==> IsCreationEdge(graph, draft, all[i])
  }

  lemma InputBoundCovers(graph: NodeGraph, draft: seq<DraftAction>, big: seq<ActionDependency>,
                         small: seq<ActionDependency>)
    requires Covers(big, small) && InputsBound(graph, draft, small)
    ensures InputsBound(graph, draft, big)
  {
    forall i: nat, node: NodeId | i < |draft| && Needs(draft[i].operation, node)
      ensures InputBound(graph, draft, big, i, node)
    {
      assert InputBound(graph, draft, small, i, node);
      if node !in graph.nodes {
        var c: nat :| Creates(draft, c, node) && HasEdge(small, c, i);
        assert HasEdge(big, c, i);
      }
    }
  }

  /** Creation edges for the given inputs of one action, from position m on. */
  function InputsFrom(graph: NodeGraph, action: DraftAction, creators: map<NodeId, nat>, inputs: seq<NodeId>,
                      deps: seq<ActionDependency>, m: nat)
    : Result<seq<ActionDependency>, CompositionError>
    requires m <= |inputs|
    decreases |inputs| - m
  {
    if m == |inputs| then Ok(deps)
    else if inputs[m] in graph.nodes then InputsFrom(graph, action, creators, inputs, deps, m + 1)
    else if inputs[m] !in creators then Err(UnresolvedInput(action.id, inputs[m]))
    else if creators[inputs[m]] == action.id then Err(SelfDependency(creators[inputs[m]]))
    else
      InputsFrom(graph, action, creators, inputs, WithEdge(deps, creators[inputs[m]], action.id, InputCreation), m + 1)
  }

  /** Creation edges for the actions from i on. */
  function CreationsFrom(graph: NodeGraph, draft: seq<DraftAction>, creators: map<NodeId, nat>,
                         deps: seq<ActionDependency>, i: nat)
    : Result<seq<ActionDependency>, CompositionError>
    requires i <= |draft|
    decreases |draft| - i
  {
    if i == |draft| then Ok(deps)
    else
      match InputsFrom(graph, draft[i], creators, ReferencedNodes(draft[i].operation), deps, 0)
      case Err(error) => Err(error)
      case Ok(all) => CreationsFrom(graph, draft, creators, all, i + 1)
  }

  function CreationResult(graph: NodeGraph, draft: seq<DraftAction>, deps: seq<ActionDependency>)
    : Result<seq<ActionDependency>, CompositionError>
  {
    match CreatorsFrom(graph, draft, map[], 0)
    case Err(error) => Err(error)
    case Ok(creators) => CreationsFrom(graph, draft, creators, deps, 0)
  }

  method BindInputs(graph: NodeGraph, draft: seq<DraftAction>, creators: map<NodeId, nat>, i: nat,
                    deps: seq<ActionDependency>)
    returns (r: Result<seq<ActionDependency>, CompositionError>)
    requires IsDense(draft) && IsCreatorMap(graph, draft, creators, |draft|) && InRange(|draft|, deps) && i < |draft|
    ensures r.Ok? ==> InRange(|draft|, r.value) && Covers(r.value, deps)
    ensures r.Ok? ==> forall node :: node in ReferencedNodes(draft[i].operation) ==>
      InputBound(graph, draft, r.value, i, node)
    ensures r.Ok? ==> OnlyCreations(graph, draft, deps, r.value)
    ensures r.Err? ==> (r.error.UnresolvedInput? || r.error.SelfDependency?) && CreationFails(graph, draft, r.error)
    ensures r == InputsFrom(graph, draft[i], creators, ReferencedNodes(draft[i].operation), deps, 0)
  {
    var inputs := ReferencedNodes(draft[i].operation);
    var all := deps;
    for m := 0 to |inputs|
      invariant InRange(|draft|, all) && Covers(all, deps) && OnlyCreations(graph, draft, deps, all)
      invariant forall j :: 0 <= j < m ==> InputBound(graph, draft, all, i, inputs[j])
      invariant InputsFrom(graph, draft[i], creators, inputs, deps, 0)
                == InputsFrom(graph, draft[i], creators, inputs, all, m)
    {
      var input := inputs[m];
      if input in graph.nodes {
        continue;
      }
      if input !in creators {
        return Err(UnresolvedInput(draft[i].id, input));
      }
      assert Creates(draft, creators[input], input);
      assert IsCreationEdge(graph, draft, ActionDependency(creators[input], draft[i].id, InputCreation));
      var added := AddDependency(all, creators[input], draft[i].id, InputCreation);
      if added.None? {
        return Err(SelfDependency(creators[input]));
      }
      ghost var before := all;
      all := added.value;
      forall j | 0 <= j < m ensures InputBound(graph, draft, all, i, inputs[j]) {
        assert InputBound(graph, draft, before, i, inputs[j]);
        if inputs[j] !in graph.nodes {
          var c: nat :| Creates(draft, c, inputs[j]) && HasEdge(before, c, i);
          assert HasEdge(all, c, i);
        }
      }
      assert Creates(draft, creators[input], input) && HasEdge(all, creators[input], i);
    }
    r := Ok(all);
  }

  /** Makes every new input depend on the only action that creates it. */
  method BindPlannedNodes(graph: NodeGraph, draft: seq<DraftAction>, deps: seq<ActionDependency>)
    returns (r: Result<seq<ActionDependency>, CompositionError>)
    requires IsDense(draft) && InRange(|draft|, deps)
    ensures r.Ok? ==> InRange(|draft|, r.value) && Covers(r.value, deps) && InputsBound(graph, draft, r.value)
    ensures r.Ok? ==> OnlyCreations(graph, draft, deps, r.value)
    ensures r.Err? ==> CreationFails(graph, draft, r.error)
    ensures r == CreationResult(graph, draft, deps)
  {
    var collected := CollectCreators(graph, draft);
    if collected.Err? {
      return Err(collected.error);
    }
    var all := deps;
    for i := 0 to |draft|
      invariant InRange(|draft|, all) && Covers(all, deps) && OnlyCreations(graph, draft, deps, all)
      invariant forall j: nat, node: NodeId :: j < i && node in ReferencedNodes(draft[j].operation) ==>
        InputBound(graph, draft, all, j, node)
      invariant CreationsFrom(graph, draft, collected.value, deps, 0)
          == CreationsFrom(graph, draft, collected.value, all, i)
    {
      var bound := BindInputs(graph, draft, collected.value, i, all);
      if bound.Err? {
        return Err(bound.error);
      }
      ghost var before := all;
      all := bound.value;
      forall j: nat, node: NodeId | j < i && node in ReferencedNodes(draft[j].operation)
        ensures InputBound(graph, draft, all, j, node)
      {
        assert InputBound(graph, draft, before, j, node);
        if node !in graph.nodes {
          var c: nat :| Creates(draft, c, node) && HasEdge(before, c, j);
          assert HasEdge(all, c, j);
        }
      }
    }
    r := Ok(all);
  }

  // ---------------------------------------------------------------------------
  // Mount order

  /** Target and namespace of runtime mount changes only. */
  function RuntimeMountTarget(action: ProviderAction): Option<(Path, MountContext)> {
    match action
    case MountRuntime(entry) => Some((entry.target, entry.context))
    case UnmountRuntime(target, context) => Some((target, context))
    case _ => None
  }

  /** `child` changes a mount strictly below the one `parent` changes, in the same namespace. */
  predicate Nested(parent: ProviderAction, child: ProviderAction) {
    var p, c := RuntimeMountTarget(parent), RuntimeMountTarget(child);
    p.Some? && c.Some? && p.value.1 == c.value.1 && p.value.0 != c.value.0 && p.value.0 <= c.value.0
  }

  /** The action mounts or unmounts at this target. */
  ghost predicate ChangesMount(action: ProviderAction, target: Path, context: MountContext) {
    || (action.MountRuntime? && action.entry.target == target && action.entry.context == context)
    || action == UnmountRuntime(target, context)
  }

  /** Nesting compares whole path components within one namespace, whether mounts come or go. */
  lemma NestedIsDeeper(parent: ProviderAction, child: ProviderAction)
    ensures Nested(parent, child) <==> exists target, below, context ::
      && ChangesMount(parent, target, context) && ChangesMount(child, below, context)
      && |target| < |below| && below[..|target|] == target
  {
    var p, c := RuntimeMountTarget(parent), RuntimeMountTarget(child);
    if Nested(parent, child) {
      assert ChangesMount(parent, p.value.0, p.value.1) && ChangesMount(child, c.value.0, c.value.1);
      assert c.value.0 == p.value.0 + c.value.0[|p.value.0|..];
    }
    if target, below, context :|
        && ChangesMount(parent, target, context) && ChangesMount(child, below, context)
        && |target| < |below| && below[..|target|] == target {
      assert p == Some((target, context)) && c == Some((below, context)) && target <= below;
    }
  }

  ghost predicate PairOrdered(draft: seq<DraftAction>, deps: seq<ActionDependency>, i: nat, j: nat) {
    i < |draft| && j < |draft| && Nested(draft[i].operation, draft[j].operation) ==>
        Reach(deps, i, j) || Reach(deps, j, i)
  }

  /** Every nested same-namespace pair of mount changes is connected by a dependency path. */
  ghost predicate MountsOrdered(draft: seq<DraftAction>, deps: seq<ActionDependency>) {
    forall i: nat, j: nat :: PairOrdered(draft, deps, i, j)
  }

  /** Parents are mounted before children; children are unmounted before parents change. */
  ghost predicate IsMountEdge(draft: seq<DraftAction>, e: ActionDependency) {
    && e.reason.MountOrder? && e.before < |draft| && e.after < |draft|
    && var first, second := draft[e.before].operation, draft[e.after].operation;
    || (Nested(first, second) && !second.UnmountRuntime?)
    || (Nested(second, first) && first.UnmountRuntime?)
  }

  ghost predicate OnlyMountEdges(draft: seq<DraftAction>, deps: seq<ActionDependency>, all: seq<ActionDependency>) {
    deps <= all && forall i :: |deps| <= i < |all| ==> IsMountEdge(draft, all[i])
  }

  lemma PairOrderedCovers(draft: seq<DraftAction>, big: seq<ActionDependency>, small: seq<ActionDependency>, i: nat,
                          j: nat)
    requires Covers(big, small) && PairOrdered(draft, small, i, j)
    ensures PairOrdered(draft, big, i, j)
  {
    if Reach(small, i, j) {
      ReachCovers(big, small, i, j);
    } else if Reach(small, j, i) {
      ReachCovers(big, small, j, i);
    }
  }

  lemma MountsOrderedCovers(draft: seq<DraftAction>, big: seq<ActionDependency>, small: seq<ActionDependency>)
    requires Covers(big, small) && MountsOrdered(draft, small)
    ensures MountsOrdered(draft, big)
  {
    forall i: nat, j: nat ensures PairOrdered(draft, big, i, j) {
      PairOrderedCovers(draft, big, small, i, j);
    }
  }

  /** What ordering one pair of actions amounts to. */
  ghost function MountPairResult(draft: seq<DraftAction>, i: nat, j: nat, deps: seq<ActionDependency>)
    : seq<ActionDependency>
    requires i < |draft| && j < |draft|
  {
    var parent, child := draft[i], draft[j];
    if !Nested(parent.operation, child.operation) then deps
    else if Reach(deps, parent.id, child.id) || Reach(deps, child.id, parent.id) then deps
    else if child.operation.UnmountRuntime? then WithEdge(deps, child.id, parent.id, MountOrder)
    else WithEdge(deps, parent.id, child.id, MountOrder)
  }

  /** The pairs of action i from j on. */
  ghost function MountRow(draft: seq<DraftAction>, i: nat, deps: seq<ActionDependency>, j: nat): seq<ActionDependency>
    requires i < |draft| && j <= |draft|
    decreases |draft| - j
  {
    if j == |draft| then deps else MountRow(draft, i, MountPairResult(draft, i, j, deps), j + 1)
  }

  /** The pairs of all actions from i on. */
  ghost function MountsFrom(draft: seq<DraftAction>, deps: seq<ActionDependency>, i: nat): seq<ActionDependency>
    requires i <= |draft|
    decreases |draft| - i
  {
    if i == |draft| then deps else MountsFrom(draft, MountRow(draft, i, deps, 0), i + 1)
  }

  /** Mount edges are added without closing a cycle. */
  ghost predicate AddsMounts(draft: seq<DraftAction>, deps: seq<ActionDependency>, all: seq<ActionDependency>) {
    && InRange(|draft|, all) && Covers(all, deps) && (Acyclic(deps) ==> Acyclic(all))
    && OnlyMountEdges(draft, deps, all)
  }

  lemma AddsMountsTwice(draft: seq<DraftAction>, deps: seq<ActionDependency>, some: seq<ActionDependency>,
                        all: seq<ActionDependency>)
    requires AddsMounts(draft, deps, some) && AddsMounts(draft, some, all)
    ensures AddsMounts(draft, deps, all)
  {
    forall i | |deps| <= i < |all| ensures IsMountEdge(draft, all[i]) {
      if i < |some| {
        assert all[i] == some[i];
      }
    }
  }

  lemma MountPairFacts(draft: seq<DraftAction>, i: nat, j: nat, deps: seq<ActionDependency>)
    requires IsDense(draft) && InRange(|draft|, deps) && i < |draft| && j < |draft|
    ensures AddsMounts(draft, deps, MountPairResult(draft, i, j, deps))
    ensures PairOrdered(draft, MountPairResult(draft, i, j, deps), i, j)
  {
    var all := MountPairResult(draft, i, j, deps);
    if Nested(draft[i].operation, draft[j].operation) && !Reach(deps, i, j) && !Reach(deps, j, i) {
      var down := !draft[j].operation.UnmountRuntime?;
      var before, after := if down then i else j, if down then j else i;
      if HasEdge(deps, before, after) {
        EdgeReaches(deps, before, after);
      }
      var edge := ActionDependency(before, after, MountOrder);
      AppendCovers(deps, edge);
      if Acyclic(deps) {
        AcyclicAppend(deps, edge);
      }
      EdgeReaches(all, before, after);
    }
  }

  ghost predicate RowOrdered(draft: seq<DraftAction>, all: seq<ActionDependency>, i: nat, j: nat) {
    forall b: nat :: j <= b ==> PairOrdered(draft, all, i, b)
  }

  lemma RowOrderedCovers(draft: seq<DraftAction>, big: seq<ActionDependency>, small: seq<ActionDependency>, i: nat,
                         j: nat)
    requires Covers(big, small) && RowOrdered(draft, small, i, j)
    ensures RowOrdered(draft, big, i, j)
  {
    forall b: nat | j <= b ensures PairOrdered(draft, big, i, b) {
      PairOrderedCovers(draft, big, small, i, b);
    }
  }

  lemma {:induction false} MountRowFacts(draft: seq<DraftAction>, i: nat, deps: seq<ActionDependency>, j: nat)
    requires IsDense(draft) && InRange(|draft|, deps) && i < |draft| && j <= |draft|
    ensures AddsMounts(draft, deps, MountRow(draft, i, deps, j))
    ensures RowOrdered(draft, MountRow(draft, i, deps, j), i, j)
    decreases |draft| - j
  {
    if j < |draft| {
      var next := MountPairResult(draft, i, j, deps);
      var all := MountRow(draft, i, next, j + 1);
      MountPairFacts(draft, i, j, deps);
      MountRowFacts(draft, i, next, j + 1);
      PairOrderedCovers(draft, all, next, i, j);
      AddsMountsTwice(draft, deps, next, all);
    }
  }

  ghost predicate RowsOrdered(draft: seq<DraftAction>, all: seq<ActionDependency>, i: nat) {
    forall a: nat :: i <= a ==> RowOrdered(draft, all, a, 0)
  }

  lemma RowsOrderedMore(draft: seq<DraftAction>, all: seq<ActionDependency>, i: nat)
    requires RowOrdered(draft, all, i, 0) && RowsOrdered(draft, all, i + 1)
    ensures RowsOrdered(draft, all, i)
  {
  }

  lemma NoFurtherRows(draft: seq<DraftAction>, all: seq<ActionDependency>)
    ensures RowsOrdered(draft, all, |draft|)
  {
  }

  lemma {:induction false} MountsFacts(draft: seq<DraftAction>, deps: seq<ActionDependency>, i: nat)
    requires IsDense(draft) && InRange(|draft|, deps) && i <= |draft|
    ensures AddsMounts(draft, deps, MountsFrom(draft, deps, i))
    ensures RowsOrdered(draft, MountsFrom(draft, deps, i), i)
    decreases |draft| - i
  {
    if i == |draft| {
      NoFurtherRows(draft, deps);
    } else {
      var next := MountRow(draft, i, deps, 0);
      var all := MountsFrom(draft, next, i + 1);
      MountRowFacts(draft, i, deps, 0);
      MountsFacts(draft, next, i + 1);
      RowOrderedCovers(draft, all, next, i, 0);
      RowsOrderedMore(draft, all, i);
      AddsMountsTwice(draft, deps, next, all);
    }
  }

  /** Orders one nested pair unless a path does already; unmounted children go first. */
  method BindMountPair(draft: seq<DraftAction>, i: nat, j: nat, deps: seq<ActionDependency>)
    returns (all: seq<ActionDependency>)
    requires IsDense(draft) && i < |draft| && j < |draft|
    ensures all == MountPairResult(draft, i, j, deps)
  {
    if !Nested(draft[i].operation, draft[j].operation) {
      return deps;
    }
    var down := DependencyPath(draft[i].id, draft[j].id, deps);
    var up := DependencyPath(draft[j].id, draft[i].id, deps);
    if down || up {
      return deps;
    }
    var before, after := draft[i].id, draft[j].id;
    if draft[j].operation.UnmountRuntime? {
      before, after := after, before;
    }
    var added := AddDependency(deps, before, after, MountOrder);
    all := added.value;
  }

  /** Connects every nested pair of mount changes and never closes a cycle. */
  method BindMountOrder(draft: seq<DraftAction>, deps: seq<ActionDependency>) returns (all: seq<ActionDependency>)
    requires IsDense(draft) && InRange(|draft|, deps)
    ensures InRange(|draft|, all) && Covers(all, deps) && (Acyclic(deps) <==> Acyclic(all))
    ensures MountsOrdered(draft, all) && OnlyMountEdges(draft, deps, all)
    ensures all == MountsFrom(draft, deps, 0)
  {
    all := deps;
    for i := 0 to |draft|
      invariant MountsFrom(draft, deps, 0) == MountsFrom(draft, all, i)
    {
      for j := 0 to |draft|
        invariant MountsFrom(draft, deps, 0) == MountsFrom(draft, MountRow(draft, i, all, j), i + 1)
      {
        all := BindMountPair(draft, i, j, all);
      }
    }
    MountsFacts(draft, deps, 0);
    forall a: nat, b: nat ensures PairOrdered(draft, all, a, b) {
      assert RowOrdered(draft, all, a, 0);
    }
    if Acyclic(all) {
      AcyclicCovers(all, deps);
    }
  }
}
