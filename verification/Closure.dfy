/** Reflexive-transitive closure over storage edges and the worklist that computes it. */
module Closure {
  import opened Wrappers
  import opened Dag
  import opened StorageModel

  type Edges = set<(NodeId, NodeId)>

  /** A walk of exactly k edges leads from a to b. */
  ghost predicate LinkedIn(edges: Edges, a: NodeId, b: NodeId, k: nat)
    decreases k
  {
    if k == 0 then a == b
    else exists c: NodeId :: (a, c) in edges && LinkedIn(edges, c, b, k - 1)
  }

  /** `a` is `b` or reaches it. */
  ghost predicate Linked(edges: Edges, a: NodeId, b: NodeId) {
    exists k: nat :: LinkedIn(edges, a, b, k)
  }

  ghost predicate LinkedFrom(edges: Edges, roots: set<NodeId>, b: NodeId) {
    exists a: NodeId :: a in roots && Linked(edges, a, b)
  }

  /** Everything reached from some root, the roots included. */
  ghost function ClosureOf(edges: Edges, roots: set<NodeId>): set<NodeId> {
    set b | b in roots + (set e | e in edges :: e.1) && LinkedFrom(edges, roots, b)
  }

  lemma {:induction false} LinkedInTarget(edges: Edges, a: NodeId, b: NodeId, k: nat)
    requires LinkedIn(edges, a, b, k)
    ensures a == b || b in (set e | e in edges :: e.1)
    decreases k
  {
    if k > 0 {
      var c: NodeId :| (a, c) in edges && LinkedIn(edges, c, b, k - 1);
      LinkedInTarget(edges, c, b, k - 1);
      assert (a, c).1 in (set e | e in edges :: e.1);
    }
  }

  /** The bound in the closure's definition leaves nothing out. */
  lemma ClosureMember(edges: Edges, roots: set<NodeId>, b: NodeId)
    ensures b in ClosureOf(edges, roots) <==> LinkedFrom(edges, roots, b)
  {
    if LinkedFrom(edges, roots, b) {
      var a: NodeId :| a in roots && Linked(edges, a, b);
      var k: nat :| LinkedIn(edges, a, b, k);
      LinkedInTarget(edges, a, b, k);
    }
  }

  lemma {:induction false} LinkedInExtend(edges: Edges, a: NodeId, b: NodeId, c: NodeId, k: nat)
    requires LinkedIn(edges, a, b, k) && (b, c) in edges
    ensures LinkedIn(edges, a, c, k + 1)
    decreases k
  {
    if k == 0 {
      assert LinkedIn(edges, c, c, 0);
    } else {
      var d: NodeId :| (a, d) in edges && LinkedIn(edges, d, b, k - 1);
      LinkedInExtend(edges, d, b, c, k - 1);
    }
  }

  lemma ClosureRoots(edges: Edges, roots: set<NodeId>)
    ensures roots <= ClosureOf(edges, roots)
  {
    forall a | a in roots ensures a in ClosureOf(edges, roots) {
      assert LinkedIn(edges, a, a, 0);
    }
  }

  lemma ClosureExtends(edges: Edges, roots: set<NodeId>, b: NodeId, c: NodeId)
    requires b in ClosureOf(edges, roots) && (b, c) in edges
    ensures c in ClosureOf(edges, roots)
  {
    var a: NodeId :| a in roots && Linked(edges, a, b);
    var k: nat :| LinkedIn(edges, a, b, k);
    LinkedInExtend(edges, a, b, c, k);
    ClosureMember(edges, roots, c);
  }

  lemma {:induction false} ClosedContains(edges: Edges, closed: set<NodeId>, a: NodeId, b: NodeId, k: nat)
    requires forall e :: e in edges && e.0 in closed ==> e.1 in closed
    requires a in closed && LinkedIn(edges, a, b, k)
    ensures b in closed
    decreases k
  {
    if k > 0 {
      var c: NodeId :| (a, c) in edges && LinkedIn(edges, c, b, k - 1);
      assert (a, c).0 in closed;
      ClosedContains(edges, closed, c, b, k - 1);
    }
  }

  lemma ClosureUnion(edges: Edges, a: set<NodeId>, b: set<NodeId>)
    ensures ClosureOf(edges, a + b) == ClosureOf(edges, a) + ClosureOf(edges, b)
  {
    forall x: NodeId ensures x in ClosureOf(edges, a + b) <==> x in ClosureOf(edges, a) + ClosureOf(edges, b) {
      ClosureMember(edges, a + b, x);
      ClosureMember(edges, a, x);
      ClosureMember(edges, b, x);
      if LinkedFrom(edges, a + b, x) {
        var r: NodeId :| r in a + b && Linked(edges, r, x);
        assert r in a || r in b;
      }
      if LinkedFrom(edges, a, x) {
        var r: NodeId :| r in a && Linked(edges, r, x);
        assert r in a + b;
      }
      if LinkedFrom(edges, b, x) {
        var r: NodeId :| r in b && Linked(edges, r, x);
        assert r in a + b;
      }
    }
  }

  ghost predicate Closed(edges: Edges, s: set<NodeId>) {
    forall e :: e in edges && e.0 in s ==> e.1 in s
  }

  lemma ClosureIsClosed(edges: Edges, roots: set<NodeId>)
    ensures roots <= ClosureOf(edges, roots) && Closed(edges, ClosureOf(edges, roots))
  {
    ClosureRoots(edges, roots);
    forall e | e in edges && e.0 in ClosureOf(edges, roots) ensures e.1 in ClosureOf(edges, roots) {
      assert e == (e.0, e.1);
      ClosureExtends(edges, roots, e.0, e.1);
    }
  }

  /** The closure is contained in every closed set that holds the roots. */
  lemma ClosureIsLeast(edges: Edges, roots: set<NodeId>, s: set<NodeId>)
    requires roots <= s && Closed(edges, s)
    ensures ClosureOf(edges, roots) <= s
  {
    forall b | b in ClosureOf(edges, roots) ensures b in s {
      var a: NodeId :| a in roots && Linked(edges, a, b);
      var k: nat :| LinkedIn(edges, a, b, k);
      ClosedContains(edges, s, a, b, k);
    }
  }

  // ---------------------------------------------------------------------------
  // Worklists

  /** Lists the direct successors of one node in some enumeration order of the edge set. */
  method Successors(edges: Edges, node: NodeId) returns (s: seq<NodeId>)
    ensures forall y :: y in s <==> (node, y) in edges
  {
    s := [];
    var rest := edges;
    while rest != {}
      invariant rest <= edges
      invariant forall y :: y in s ==> (node, y) in edges
      invariant forall y :: (node, y) in edges ==> y in s || (node, y) in rest
      decreases |rest|
    {
      var e :| e in rest;
      rest := rest - {e};
      if e.0 == node {
        s := s + [e.1];
      }
    }
  }

  /** Stack-driven traversal inside a closed set that holds the start. */
  method VisitWithin(edges: Edges, start: seq<NodeId>, ghost bound: set<NodeId>) returns (order: seq<NodeId>)
    requires Closed(edges, bound) && forall x :: x in start ==> x in bound
    ensures Distinct(order)
    ensures forall x :: x in order ==> x in bound
    ensures forall x :: x in start ==> x in order
    ensures forall e :: e in edges && e.0 in order ==> e.1 in order
  {
    var pending := start;
    order := [];
    while pending != []
      invariant Distinct(order)
      invariant forall x :: x in pending || x in order ==> x in bound
      invariant forall x :: x in start ==> x in pending || x in order
      invariant forall e :: e in edges && e.0 in order ==> e.1 in order || e.1 in pending
      decreases |bound - Elements(order)|, |pending|
    {
      var node := pending[|pending| - 1];
      assert pending == pending[..|pending| - 1] + [node];
      pending := pending[..|pending| - 1];
      if node !in order {
        var children := Successors(edges, node);
        assert node in bound - Elements(order) && node !in bound - Elements(order + [node]);
        ProperSubsetCardinality(bound - Elements(order + [node]), bound - Elements(order));
        forall y | y in children ensures y in bound {
          assert (node, y).0 in bound;
        }
        order := order + [node];
        pending := pending + children;
      }
    }
  }

  /** Visits exactly the closure of the start, each node once; terminates on any finite edge set. */
  method Visit(edges: Edges, start: seq<NodeId>) returns (order: seq<NodeId>)
    ensures Elements(order) == ClosureOf(edges, Elements(start))
    ensures Distinct(order)
  {
    ClosureIsClosed(edges, Elements(start));
    order := VisitWithin(edges, start, ClosureOf(edges, Elements(start)));
    ClosureIsLeast(edges, Elements(start), Elements(order));
  }
}
