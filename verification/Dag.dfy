/**
 Dependency edges between actions, reachability along them, and the theory of
 linear extensions that the composer, the replayer and the execution run share.
 */
module Dag {
  import opened Wrappers

  datatype DependencyReason =
    | InputCreation | InterfacePreparation | ResizeSafety
    | MountOrder | ResourceCoordination | RequestedOrder

  /** `after` may only begin once `before` is verified. */
  datatype ActionDependency = ActionDependency(before: nat, after: nat, reason: DependencyReason)

  predicate HasEdge(deps: seq<ActionDependency>, a: nat, b: nat) {
    exists i :: 0 <= i < |deps| && deps[i].before == a && deps[i].after == b
  }

  ghost predicate InRange(n: nat, deps: seq<ActionDependency>) {
    forall i :: 0 <= i < |deps| ==> deps[i].before < n && deps[i].after < n
  }

  /** A walk of exactly k+1 edges leads from a to b. */
  ghost predicate ReachIn(deps: seq<ActionDependency>, a: nat, b: nat, k: nat)
    decreases k
  {
    if k == 0 then HasEdge(deps, a, b)
    else exists c: nat :: HasEdge(deps, a, c) && ReachIn(deps, c, b, k - 1)
  }

  /** A nonempty walk leads from a to b. */
  ghost predicate Reach(deps: seq<ActionDependency>, a: nat, b: nat) {
    exists k: nat :: ReachIn(deps, a, b, k)
  }

  ghost predicate Acyclic(deps: seq<ActionDependency>) {
    forall a: nat :: !Reach(deps, a, a)
  }

  /** Every edge of `small` is an edge of `big`. */
  ghost predicate Covers(big: seq<ActionDependency>, small: seq<ActionDependency>) {
    forall a: nat, b: nat :: HasEdge(small, a, b) ==> HasEdge(big, a, b)
  }

  lemma EdgeReaches(deps: seq<ActionDependency>, a: nat, b: nat)
    requires HasEdge(deps, a, b)
    ensures Reach(deps, a, b)
  {
    assert ReachIn(deps, a, b, 0);
  }

  lemma StepReaches(deps: seq<ActionDependency>, a: nat, c: nat, b: nat)
    requires HasEdge(deps, a, c) && Reach(deps, c, b)
    ensures Reach(deps, a, b)
  {
    var k: nat :| ReachIn(deps, c, b, k);
    assert ReachIn(deps, a, b, k + 1);
  }

  lemma {:induction false} ReachInTransitive(deps: seq<ActionDependency>, a: nat, b: nat, c: nat, k: nat)
    requires ReachIn(deps, a, b, k) && Reach(deps, b, c)
    ensures Reach(deps, a, c)
    decreases k
  {
    if k == 0 {
      StepReaches(deps, a, b, c);
    } else {
      var d: nat :| HasEdge(deps, a, d) && ReachIn(deps, d, b, k - 1);
      ReachInTransitive(deps, d, b, c, k - 1);
      StepReaches(deps, a, d, c);
    }
  }

  lemma ReachTransitive(deps: seq<ActionDependency>, a: nat, b: nat, c: nat)
    requires Reach(deps, a, b) && Reach(deps, b, c)
    ensures Reach(deps, a, c)
  {
    var k: nat :| ReachIn(deps, a, b, k);
    ReachInTransitive(deps, a, b, c, k);
  }

  lemma {:induction false} ReachInCovers(big: seq<ActionDependency>, small: seq<ActionDependency>, a: nat, b: nat,
                                         k: nat)
    requires Covers(big, small) && ReachIn(small, a, b, k)
    ensures ReachIn(big, a, b, k)
    decreases k
  {
    if k > 0 {
      var c: nat :| HasEdge(small, a, c) && ReachIn(small, c, b, k - 1);
      ReachInCovers(big, small, c, b, k - 1);
      assert HasEdge(big, a, c);
    }
  }

  lemma ReachCovers(big: seq<ActionDependency>, small: seq<ActionDependency>, a: nat, b: nat)
    requires Covers(big, small) && Reach(small, a, b)
    ensures Reach(big, a, b)
  {
    var k: nat :| ReachIn(small, a, b, k);
    ReachInCovers(big, small, a, b, k);
  }

  lemma AcyclicCovers(big: seq<ActionDependency>, small: seq<ActionDependency>)
    requires Covers(big, small) && Acyclic(big)
    ensures Acyclic(small)
  {
    forall a: nat ensures !Reach(small, a, a) {
      if Reach(small, a, a) {
        ReachCovers(big, small, a, a);
      }
    }
  }

  lemma AppendEdges(deps: seq<ActionDependency>, e: ActionDependency, a: nat, b: nat)
    ensures HasEdge(deps + [e], a, b) <==> HasEdge(deps, a, b) || (e.before == a && e.after == b)
  {
    var all := deps + [e];
    if HasEdge(deps, a, b) {
      var i :| 0 <= i < |deps| && deps[i].before == a && deps[i].after == b;
      assert all[i].before == a && all[i].after == b;
    }
    if e.before == a && e.after == b {
      assert all[|deps|].before == a && all[|deps|].after == b;
    }
    if HasEdge(all, a, b) {
      var i :| 0 <= i < |all| && all[i].before == a && all[i].after == b;
      assert i < |deps| ==> deps[i].before == a && deps[i].after == b;
    }
  }

  lemma AppendCovers(deps: seq<ActionDependency>, e: ActionDependency)
    ensures Covers(deps + [e], deps)
    ensures HasEdge(deps + [e], e.before, e.after)
  {
    forall a: nat, b: nat { AppendEdges(deps, e, a, b); }
  }

  /** A walk over one more edge either avoids it or splits around its last use. */
  lemma {:induction false} ReachInAppend(deps: seq<ActionDependency>, e: ActionDependency, a: nat, b: nat, k: nat)
    requires ReachIn(deps + [e], a, b, k)
    ensures Reach(deps, a, b)
         || ((a == e.before || Reach(deps, a, e.before)) && (b == e.after || Reach(deps, e.after, b)))
    decreases k
  {
    if k == 0 {
      AppendEdges(deps, e, a, b);
      if HasEdge(deps, a, b) {
        EdgeReaches(deps, a, b);
      }
    } else {
      var c: nat :| HasEdge(deps + [e], a, c) && ReachIn(deps + [e], c, b, k - 1);
      ReachInAppend(deps, e, c, b, k - 1);
      AppendEdges(deps, e, a, c);
      if HasEdge(deps, a, c) {
        EdgeReaches(deps, a, c);
        if Reach(deps, c, b) {
          ReachTransitive(deps, a, c, b);
        } else if c != e.before {
          ReachTransitive(deps, a, c, e.before);
        }
      }
    }
  }

  /** An edge against no existing walk closes no cycle. */
  lemma AcyclicAppend(deps: seq<ActionDependency>, e: ActionDependency)
    requires Acyclic(deps) && e.before != e.after && !Reach(deps, e.after, e.before)
    ensures Acyclic(deps + [e])
  {
    forall a: nat ensures !Reach(deps + [e], a, a) {
      if Reach(deps + [e], a, a) {
        var k: nat :| ReachIn(deps + [e], a, a, k);
        ReachInAppend(deps, e, a, a, k);
        if a != e.before && a != e.after {
          ReachTransitive(deps, e.after, a, e.before);
        }
      }
    }
  }

  lemma {:induction false} ReachInRange(n: nat, deps: seq<ActionDependency>, a: nat, b: nat, k: nat)
    requires InRange(n, deps) && ReachIn(deps, a, b, k)
    ensures a < n && b < n
    decreases k
  {
    if k > 0 {
      var c: nat :| HasEdge(deps, a, c) && ReachIn(deps, c, b, k - 1);
      ReachInRange(n, deps, c, b, k - 1);
    }
  }

  // ---------------------------------------------------------------------------
  // Linear extensions

  ghost predicate IsPermutation(n: nat, order: seq<nat>) {
    && |order| == n
    && Distinct(order)
    && forall i :: 0 <= i < n ==> order[i] < n
  }

  /** `order` runs every action once and never before one of its predecessors. */
  ghost predicate IsOrder(n: nat, deps: seq<ActionDependency>, order: seq<nat>) {
    && IsPermutation(n, order)
    && forall i, j :: 0 <= i <= j < n ==> !HasEdge(deps, order[j], order[i])
  }

  /** A duplicate-free start of some execution: each entry follows all its predecessors. */
  ghost predicate IsPrefixOrder(n: nat, deps: seq<ActionDependency>, prefix: seq<nat>) {
    && Distinct(prefix)
    && (forall i :: 0 <= i < |prefix| ==> prefix[i] < n)
    && forall i, a: nat :: 0 <= i < |prefix| && HasEdge(deps, a, prefix[i]) ==> a in prefix[..i]
  }

  function Range(n: nat): (s: set<nat>)
    ensures forall x :: x in s <==> 0 <= x < n
    ensures |s| == n
  {
    if n == 0 then {} else
      var s := Range(n - 1) + {n - 1};
      assert Range(n - 1) == s - {n - 1};
      s
  }

  lemma PermutationCovers(n: nat, order: seq<nat>)
    requires IsPermutation(n, order)
    ensures Elements(order) == Range(n)
    ensures forall x: nat :: x < n ==> x in order
  {
    DistinctCardinality(order);
    FullSubset(Elements(order), Range(n));
    assert forall x: nat :: x < n ==> x in Range(n);
  }

  lemma PositionOf(n: nat, order: seq<nat>, x: nat) returns (i: nat)
    requires IsPermutation(n, order) && x < n
    ensures i < n && order[i] == x
  {
    PermutationCovers(n, order);
    assert x in order;
    i :| i < |order| && order[i] == x;
  }

  /** Dropping edges keeps every linear extension. */
  lemma OrderCovers(n: nat, big: seq<ActionDependency>, small: seq<ActionDependency>, order: seq<nat>)
    requires Covers(big, small) && IsOrder(n, big, order)
    ensures IsOrder(n, small, order)
  {
  }

  lemma {:induction false} OrderFollowsWalk(n: nat, deps: seq<ActionDependency>, order: seq<nat>, i: nat, j: nat,
                                            k: nat)
    requires IsOrder(n, deps, order) && InRange(n, deps)
    requires i < n && j < n && ReachIn(deps, order[i], order[j], k)
    ensures i < j
    decreases k
  {
    if k == 0 {
      assert HasEdge(deps, order[i], order[j]);
    } else {
      var c: nat :| HasEdge(deps, order[i], c) && ReachIn(deps, c, order[j], k - 1);
      var m := PositionOf(n, order, c);
      OrderFollowsWalk(n, deps, order, m, j, k - 1);
      assert HasEdge(deps, order[i], order[m]);
    }
  }

  /** Every linear extension respects whole dependency paths, not just edges. */
  lemma OrderFollowsReach(n: nat, deps: seq<ActionDependency>, order: seq<nat>, i: nat, j: nat)
    requires IsOrder(n, deps, order) && InRange(n, deps)
    requires i < n && j < n && Reach(deps, order[i], order[j])
    ensures i < j
  {
    var k: nat :| ReachIn(deps, order[i], order[j], k);
    OrderFollowsWalk(n, deps, order, i, j, k);
  }

  lemma OrderImpliesAcyclic(n: nat, deps: seq<ActionDependency>, order: seq<nat>)
    requires IsOrder(n, deps, order) && InRange(n, deps)
    ensures Acyclic(deps)
  {
    forall a: nat ensures !Reach(deps, a, a) {
      if Reach(deps, a, a) {
        var k: nat :| ReachIn(deps, a, a, k);
        ReachInRange(n, deps, a, a, k);
        PermutationCovers(n, order);
        assert a in order;
        var i :| 0 <= i < n && order[i] == a;
        OrderFollowsReach(n, deps, order, i, i);
      }
    }
  }

  ghost predicate HasPredecessorIn(deps: seq<ActionDependency>, s: set<nat>, x: nat) {
    exists y: nat :: y in s && HasEdge(deps, y, x)
  }

  ghost function Ancestors(deps: seq<ActionDependency>, s: set<nat>, x: nat): set<nat> {
    set y | y in s && Reach(deps, y, x)
  }

  lemma AncestorHasPredecessor(deps: seq<ActionDependency>, s: set<nat>, x: nat, z: nat)
    requires HasPredecessorIn(deps, s, z) && (z == x || Reach(deps, z, x))
    ensures HasPredecessorIn(deps, Ancestors(deps, s, x), z)
  {
    var w: nat :| w in s && HasEdge(deps, w, z);
    if z == x {
      EdgeReaches(deps, w, z);
    } else {
      StepReaches(deps, w, z, x);
    }
    assert w in Ancestors(deps, s, x);
  }

  /** The ancestors of a member form another such set, without sources. */
  lemma AncestorsAgain(deps: seq<ActionDependency>, s: set<nat>, x: nat) returns (p: nat)
    requires x in s
    requires forall z {:trigger HasPredecessorIn(deps, s, z)} :: z in s ==> HasPredecessorIn(deps, s, z)
    ensures var above := Ancestors(deps, s, x);
      p in above && forall z {:trigger HasPredecessorIn(deps, above, z)} :: z in above ==>
          HasPredecessorIn(deps, above, z)
  {
    var above := Ancestors(deps, s, x);
    forall z | z in above ensures HasPredecessorIn(deps, above, z) {
      AncestorHasPredecessor(deps, s, x, z);
    }
    AncestorHasPredecessor(deps, s, x, x);
    p :| p in above && HasEdge(deps, p, x);
  }

  /** A nonempty set in which everything has a predecessor contains a cycle. */
  lemma {:induction false} NoSourceMeansCycle(deps: seq<ActionDependency>, s: set<nat>, x: nat)
    requires x in s
    requires forall z {:trigger HasPredecessorIn(deps, s, z)} :: z in s ==> HasPredecessorIn(deps, s, z)
    ensures !Acyclic(deps)
    decreases |s|
  {
    if !Reach(deps, x, x) {
      var above := Ancestors(deps, s, x);
      var p := AncestorsAgain(deps, s, x);
      assert above < s by { assert x !in above; }
      ProperSubsetCardinality(above, s);
      NoSourceMeansCycle(deps, above, p);
    }
  }

  /** `x` is not yet in `prefix` and all its predecessors are. */
  ghost predicate Ready(n: nat, deps: seq<ActionDependency>, prefix: seq<nat>, x: nat) {
    x < n && x !in prefix && forall a: nat :: HasEdge(deps, a, x) ==> a in prefix
  }

  /** An acyclic plan can always continue from an unfinished prefix. */
  lemma ReadyExists(n: nat, deps: seq<ActionDependency>, prefix: seq<nat>)
    requires InRange(n, deps) && Acyclic(deps)
    requires IsPrefixOrder(n, deps, prefix) && |prefix| < n
    ensures exists x: nat :: Ready(n, deps, prefix, x)
  {
    var rest := Range(n) - Elements(prefix);
    DistinctCardinality(prefix);
    if rest == {} {
      SubsetCardinality(Range(n), Elements(prefix));
    }
    if forall x: nat :: !Ready(n, deps, prefix, x) {
      forall x | x in rest ensures HasPredecessorIn(deps, rest, x) {
        assert !Ready(n, deps, prefix, x);
        var y: nat :| HasEdge(deps, y, x) && y !in prefix;
        assert y in rest;
      }
      var x :| x in rest;
      NoSourceMeansCycle(deps, rest, x);
    }
  }

  lemma PrefixExtend(n: nat, deps: seq<ActionDependency>, prefix: seq<nat>, x: nat)
    requires IsPrefixOrder(n, deps, prefix) && Ready(n, deps, prefix, x)
    ensures IsPrefixOrder(n, deps, prefix + [x])
  {
    var q := prefix + [x];
    forall i, a: nat | 0 <= i < |q| && HasEdge(deps, a, q[i]) ensures a in q[..i] {
      if i < |prefix| {
        assert q[..i] == prefix[..i];
      } else {
        assert q[..i] == prefix;
      }
    }
  }

  lemma FullPrefixIsOrder(n: nat, deps: seq<ActionDependency>, prefix: seq<nat>)
    requires IsPrefixOrder(n, deps, prefix) && |prefix| == n
    ensures IsOrder(n, deps, prefix)
  {
    forall i, j | 0 <= i <= j < n ensures !HasEdge(deps, prefix[j], prefix[i]) {
      var earlier := prefix[..i];
      assert prefix[j] !in earlier;
    }
  }

  /** Every prefix order of an acyclic plan is the start of a linear extension. */
  lemma {:induction false} PrefixCompletes(n: nat, deps: seq<ActionDependency>, prefix: seq<nat>)
    returns (order: seq<nat>)
    requires InRange(n, deps) && Acyclic(deps)
    requires IsPrefixOrder(n, deps, prefix) && |prefix| <= n
    ensures IsOrder(n, deps, order) && prefix <= order
    decreases n - |prefix|
  {
    if |prefix| == n {
      FullPrefixIsOrder(n, deps, prefix);
      order := prefix;
    } else {
      ReadyExists(n, deps, prefix);
      var x: nat :| Ready(n, deps, prefix, x);
      PrefixExtend(n, deps, prefix, x);
      order := PrefixCompletes(n, deps, prefix + [x]);
    }
  }

  // ---------------------------------------------------------------------------
  // Mutating helpers of the composer

  /** Pushes every direct successor of `current`, stopping early at `after`. */
  method PushSuccessors(deps: seq<ActionDependency>, current: nat, after: nat, pending: seq<nat>)
    returns (found: bool, next: seq<nat>)
    ensures found <==> HasEdge(deps, current, after)
    ensures !found ==> forall x: nat :: x in next <==> x in pending || HasEdge(deps, current, x)
  {
    next := pending;
    for i := 0 to |deps|
      invariant forall j :: 0 <= j < i && deps[j].before == current ==> deps[j].after != after && deps[j].after in next
      invariant forall x: nat :: x in pending ==> x in next
      invariant forall x: nat :: x in next ==> x in pending || HasEdge(deps, current, x)
    {
      if deps[i].before == current {
        if deps[i].after == after {
          return true, next;
        }
        next := next + [deps[i].after];
      }
    }
    found := false;
  }

  /** Depth-first search with an explicit stack: decides reachability on any finite edge list. */
  method DependencyPath(before: nat, after: nat, deps: seq<ActionDependency>) returns (found: bool)
    ensures found <==> Reach(deps, before, after)
  {
    var pending := [before];
    var visited: set<nat> := {};
    ghost var universe := {before} + (set i | 0 <= i < |deps| :: deps[i].after);
    while pending != []
      invariant forall x :: x in pending || x in visited ==> x in universe
      invariant forall x :: x in pending || x in visited ==> x == before || Reach(deps, before, x)
      invariant before in pending || before in visited
      invariant forall x, y: nat :: x in visited && HasEdge(deps, x, y) ==> y != after && (y in visited || y in pending)
      decreases |universe - visited|, |pending|
    {
      var current := pending[|pending| - 1];
      ghost var was := pending;
      pending := pending[..|pending| - 1];
      assert was == pending + [current];
      if current !in visited {
        ProperSubsetCardinality(universe - visited - {current}, universe - visited);
        assert universe - visited - {current} == universe - (visited + {current});
        visited := visited + {current};
        SuccessorsReached(deps, before, current);
        found, pending := PushSuccessors(deps, current, after, pending);
        if found {
          return;
        }
      }
    }
    if Reach(deps, before, after) {
      var k: nat :| ReachIn(deps, before, after, k);
      ClosedAvoids(deps, visited, before, after, k);
    }
    found := false;
  }

  lemma SuccessorsReached(deps: seq<ActionDependency>, before: nat, current: nat)
    requires current == before || Reach(deps, before, current)
    ensures forall y: nat :: HasEdge(deps, current, y) ==> Reach(deps, before, y)
  {
    forall y: nat | HasEdge(deps, current, y) ensures Reach(deps, before, y) {
      EdgeReaches(deps, current, y);
      if current != before {
        ReachTransitive(deps, before, current, y);
      }
    }
  }

  lemma ProperSubsetCardinality<T>(a: set<T>, b: set<T>)
    requires a < b
    ensures |a| < |b|
  {
    var x :| x in b && x !in a;
    SubsetCardinality(a, b - {x});
  }

  /** A set closed under edges that never lead to `after` cannot reach `after`. */
  lemma {:induction false} ClosedAvoids(deps: seq<ActionDependency>, closed: set<nat>, a: nat, after: nat, k: nat)
    requires forall x, y: nat :: x in closed && HasEdge(deps, x, y) ==> y != after && y in closed
    requires a in closed
    ensures !ReachIn(deps, a, after, k)
    decreases k
  {
    if k > 0 && ReachIn(deps, a, after, k) {
      var c: nat :| HasEdge(deps, a, c) && ReachIn(deps, c, after, k - 1);
      ClosedAvoids(deps, closed, c, after, k - 1);
    }
  }

  /** The list with the edge, unless the pair is joined already. */
  function WithEdge(deps: seq<ActionDependency>, before: nat, after: nat,
                    reason: DependencyReason): seq<ActionDependency>
  {
    if HasEdge(deps, before, after) then deps else deps + [ActionDependency(before, after, reason)]
  }

  /** Adds one edge unless it is reflexive or already present, keeping the first reason. */
  method AddDependency(deps: seq<ActionDependency>, before: nat, after: nat, reason: DependencyReason)
    returns (r: Option<seq<ActionDependency>>)
    ensures r.None? <==> before == after
    ensures r.Some? ==> r.value == WithEdge(deps, before, after, reason)
    ensures r.Some? ==> Covers(r.value, deps) && HasEdge(r.value, before, after)
    ensures r.Some? ==> deps <= r.value && forall i :: |deps| <= i < |r.value| ==>
      r.value[i] == ActionDependency(before, after, reason) && !HasEdge(deps, before, after)
  {
    if before == after {
      return None;
    }
    for i := 0 to |deps|
      invariant forall j :: 0 <= j < i ==> !(deps[j].before == before && deps[j].after == after)
    {
      if deps[i].before == before && deps[i].after == after {
        return Some(deps);
      }
    }
    AppendCovers(deps, ActionDependency(before, after, reason));
    r := Some(deps + [ActionDependency(before, after, reason)]);
  }
}
