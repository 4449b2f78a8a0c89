/** The stable topological order that the composer and the replayer both follow. */
module TopologicalSort {
  import opened Wrappers
  import opened Dag

  datatype OrderError = DependencyCycle | PlanTooLarge

  // ---------------------------------------------------------------------------
  // What the order is: the least available action at every position

  ghost predicate IsLeastReady(n: nat, deps: seq<ActionDependency>, prefix: seq<nat>, x: nat) {
    Ready(n, deps, prefix, x) && forall y: nat :: y < x ==> !Ready(n, deps, prefix, y)
  }

  ghost predicate IsLeastPrefix(n: nat, deps: seq<ActionDependency>, order: seq<nat>) {
    forall i :: 0 <= i < |order| ==> IsLeastReady(n, deps, order[..i], order[i])
  }

  ghost predicate IsLeastOrder(n: nat, deps: seq<ActionDependency>, order: seq<nat>) {
    |order| == n && IsLeastPrefix(n, deps, order)
  }

  /** `a` and `b` agree up to some position where `a` is smaller. */
  ghost predicate LexLess(a: seq<nat>, b: seq<nat>) {
    exists k :: 0 <= k < |a| && k < |b| && a[..k] == b[..k] && a[k] < b[k]
  }

  lemma {:induction false} LeastPrefixIsPrefixOrder(n: nat, deps: seq<ActionDependency>, order: seq<nat>)
    requires IsLeastPrefix(n, deps, order)
    ensures IsPrefixOrder(n, deps, order)
  {
    if order == [] {
    } else {
      var init := order[..|order| - 1];
      var last := order[|order| - 1];
      forall i | 0 <= i < |init| ensures IsLeastReady(n, deps, init[..i], init[i]) {
        assert init[..i] == order[..i];
      }
      LeastPrefixIsPrefixOrder(n, deps, init);
      assert IsLeastReady(n, deps, order[..|order| - 1], last);
      PrefixExtend(n, deps, init, last);
      assert init + [last] == order;
    }
  }

  lemma LeastOrderIsOrder(n: nat, deps: seq<ActionDependency>, order: seq<nat>)
    requires IsLeastOrder(n, deps, order)
    ensures IsOrder(n, deps, order)
  {
    LeastPrefixIsPrefixOrder(n, deps, order);
    FullPrefixIsOrder(n, deps, order);
  }

  /** In any linear extension, the next entry was available where it stands. */
  lemma OrderEntryReady(n: nat, deps: seq<ActionDependency>, order: seq<nat>, k: nat)
    requires InRange(n, deps) && IsOrder(n, deps, order) && k < n
    ensures Ready(n, deps, order[..k], order[k])
  {
    PermutationCovers(n, order);
    forall a: nat | HasEdge(deps, a, order[k]) ensures a in order[..k] {
      assert a in order;
      var i :| 0 <= i < n && order[i] == a;
      assert i < k;
      assert order[..k][i] == a;
    }
  }

  lemma {:induction false} FirstDifference(a: seq<nat>, b: seq<nat>) returns (k: nat)
    requires |a| == |b| && a != b
    ensures k < |a| && a[..k] == b[..k] && a[k] != b[k]
  {
    k := 0;
    while k < |a| && a[k] == b[k]
      invariant k <= |a| && a[..k] == b[..k]
    {
      k := k + 1;
    }
  }

  /** The order is least: every other linear extension is lexicographically larger. */
  lemma LeastOrderIsLexLeast(n: nat, deps: seq<ActionDependency>, order: seq<nat>, other: seq<nat>)
    requires InRange(n, deps) && IsLeastOrder(n, deps, order) && IsOrder(n, deps, other)
    ensures other == order || LexLess(order, other)
  {
    if other != order {
      var k := FirstDifference(order, other);
      OrderEntryReady(n, deps, other, k);
      assert IsLeastReady(n, deps, order[..k], order[k]);
    }
  }

  /** Two runs of the sort over the same edges cannot disagree. */
  lemma LeastOrderUnique(n: nat, deps: seq<ActionDependency>, a: seq<nat>, b: seq<nat>)
    requires IsLeastOrder(n, deps, a) && IsLeastOrder(n, deps, b)
    ensures a == b
  {
    if a != b {
      var _ := FirstDifference(a, b);
    }
  }

  /** The deterministic order of acyclic edges, as a function of them. */
  ghost function LeastOrder(n: nat, deps: seq<ActionDependency>): (order: seq<nat>)
    ensures forall i :: 0 <= i < |order| ==> order[i] < n
  {
    if exists order :: IsLeastOrder(n, deps, order) then
      var order :| IsLeastOrder(n, deps, order);
      LeastOrderIsOrder(n, deps, order);
      order
    else []
  }

  // ---------------------------------------------------------------------------
  // How it is computed: indegree counting

  /** Number of the first k edges that enter x from an action not yet emitted. */
  ghost function Waiting(deps: seq<ActionDependency>, k: nat, order: seq<nat>, x: nat): nat
    requires k <= |deps|
  {
    if k == 0 then 0
    else Waiting(deps, k - 1, order, x)
         + if deps[k - 1].after == x && deps[k - 1].before !in order then 1 else 0
  }

  lemma {:induction false} WaitingZero(deps: seq<ActionDependency>, k: nat, order: seq<nat>, x: nat)
    requires k <= |deps|
    ensures Waiting(deps, k, order, x) == 0
            <==> forall i :: 0 <= i < k && deps[i].after == x ==> deps[i].before in order
  {
    if k > 0 {
      WaitingZero(deps, k - 1, order, x);
    }
  }

  lemma {:induction false} WaitingMonotone(deps: seq<ActionDependency>, j: nat, k: nat, order: seq<nat>, x: nat)
    requires j <= k <= |deps|
    ensures Waiting(deps, j, order, x) <= Waiting(deps, k, order, x)
    decreases k
  {
    if j < k {
      WaitingMonotone(deps, j, k - 1, order, x);
    }
  }

  lemma ReadyIffUncounted(n: nat, deps: seq<ActionDependency>, order: seq<nat>, x: nat)
    requires x < n
    ensures Ready(n, deps, order, x) <==> x !in order && Waiting(deps, |deps|, order, x) == 0
  {
    WaitingZero(deps, |deps|, order, x);
    if Ready(n, deps, order, x) {
      forall i | 0 <= i < |deps| && deps[i].after == x ensures deps[i].before in order {
        assert HasEdge(deps, deps[i].before, x);
      }
    }
  }

  method CountIndegrees(n: nat, deps: seq<ActionDependency>) returns (indegree: array<nat>)
    requires InRange(n, deps)
    ensures fresh(indegree) && indegree.Length == n
    ensures forall x :: 0 <= x < n ==> indegree[x] == Waiting(deps, |deps|, [], x)
  {
    indegree := new nat[n](_ => 0);
    for k := 0 to |deps|
      invariant forall x :: 0 <= x < n ==> indegree[x] == Waiting(deps, k, [], x)
    {
      indegree[deps[k].after] := indegree[deps[k].after] + 1;
    }
  }

  /** The retired action no longer holds back its successors; no counter underflows. */
  method ReleaseSuccessors(n: nat, deps: seq<ActionDependency>, order: seq<nat>, next: nat, indegree: array<nat>)
    requires InRange(n, deps) && indegree.Length == n && next !in order
    requires forall x :: 0 <= x < n ==> indegree[x] == Waiting(deps, |deps|, order, x)
    modifies indegree
    ensures forall x :: 0 <= x < n ==> indegree[x] == Waiting(deps, |deps|, order + [next], x)
  {
    for k := 0 to |deps|
      invariant forall x :: 0 <= x < n ==>
        indegree[x] == Waiting(deps, k, order + [next], x)
                       + Waiting(deps, |deps|, order, x) - Waiting(deps, k, order, x)
    {
      if deps[k].before == next {
        WaitingMonotone(deps, k + 1, |deps|, order, deps[k].after);
        indegree[deps[k].after] := indegree[deps[k].after] - 1;
      }
    }
  }

  /** Scans for the smallest unemitted action whose predecessors are all emitted. */
  method FirstReady(n: nat, deps: seq<ActionDependency>, ghost order: seq<nat>,
                    indegree: array<nat>, emitted: array<bool>)
    returns (next: nat)
    requires indegree.Length == n && emitted.Length == n
    requires forall x :: 0 <= x < n ==> (emitted[x] <==> x in order)
    requires forall x :: 0 <= x < n ==> indegree[x] == Waiting(deps, |deps|, order, x)
    ensures next <= n
    ensures next < n ==> IsLeastReady(n, deps, order, next)
    ensures next == n ==> forall y: nat :: y < n ==> !Ready(n, deps, order, y)
  {
    forall x: nat | x < n ensures Ready(n, deps, order, x) <==> !emitted[x] && indegree[x] == 0 {
      ReadyIffUncounted(n, deps, order, x);
    }
    next := 0;
    while next < n && (emitted[next] || indegree[next] != 0)
      invariant next <= n
      invariant forall y: nat :: y < next ==> !Ready(n, deps, order, y)
    {
      next := next + 1;
    }
  }

  /**
   Emits the least ready action until none is left; getting stuck proves a cycle.
   Duplicate and reflexive edges are allowed; endpoints must be action indices.
   */
  method TopologicalOrder(n: nat, deps: seq<ActionDependency>) returns (r: Result<seq<nat>, OrderError>)
    requires InRange(n, deps)
    ensures r.Ok? ==> IsLeastOrder(n, deps, r.value) && Acyclic(deps)
    ensures r == Err(DependencyCycle) ==> !Acyclic(deps)
    ensures r == Err(PlanTooLarge) ==> n > U32_MAX + 1
    ensures n <= U32_MAX + 1 ==> (r.Ok? <==> Acyclic(deps))
  {
    var indegree := CountIndegrees(n, deps);
    var emitted := new bool[n](_ => false);
    var order: seq<nat> := [];
    while |order| < n
      invariant |order| <= n
      invariant forall x :: 0 <= x < n ==> (emitted[x] <==> x in order)
      invariant forall x :: 0 <= x < n ==> indegree[x] == Waiting(deps, |deps|, order, x)
      invariant IsLeastPrefix(n, deps, order)
    {
      var next := FirstReady(n, deps, order, indegree, emitted);
      if next == n {
        LeastPrefixIsPrefixOrder(n, deps, order);
        StuckMeansCycle(n, deps, order);
        return Err(DependencyCycle);
      }
      emitted[next] := true;
      if next > U32_MAX {
        return Err(PlanTooLarge);
      }
      ReleaseSuccessors(n, deps, order, next, indegree);
      LeastPrefixExtend(n, deps, order, next);
      order := order + [next];
    }
    LeastOrderIsOrder(n, deps, order);
    OrderImpliesAcyclic(n, deps, order);
    r := Ok(order);
  }

  lemma StuckMeansCycle(n: nat, deps: seq<ActionDependency>, order: seq<nat>)
    requires InRange(n, deps) && IsPrefixOrder(n, deps, order) && |order| < n
    requires forall y: nat :: y < n ==> !Ready(n, deps, order, y)
    ensures !Acyclic(deps)
  {
    if Acyclic(deps) {
      ReadyExists(n, deps, order);
    }
  }

  lemma LeastPrefixExtend(n: nat, deps: seq<ActionDependency>, order: seq<nat>, next: nat)
    requires IsLeastPrefix(n, deps, order) && IsLeastReady(n, deps, order, next)
    ensures IsLeastPrefix(n, deps, order + [next])
  {
    var q := order + [next];
    forall i | 0 <= i < |q| ensures IsLeastReady(n, deps, q[..i], q[i]) {
      assert q[..i] == if i < |order| then order[..i] else order;
    }
  }
}
