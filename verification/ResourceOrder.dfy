/**
 Conflicting resource accesses, the check that the plan orders them, and what
 that check buys: every linear extension of an accepted plan is the same plan.
 */
module ResourceOrder {
  import opened Wrappers
  import opened Dag
  import opened StorageModel

  // ---------------------------------------------------------------------------
  // Conflicts

  predicate Clashes(left: ResourceAccess, right: ResourceAccess) {
    left.resource == right.resource && (left.mode.Write? || right.mode.Write?)
  }

  /** Both contracts touch one resource and at least one of them writes it. */
  ghost predicate Conflict(first: ActionContract, second: ActionContract) {
    exists i, j :: 0 <= i < |first.resources| && 0 <= j < |second.resources|
                   && Clashes(first.resources[i], second.resources[j])
  }

  lemma ConflictSymmetric(first: ActionContract, second: ActionContract)
    ensures Conflict(first, second) <==> Conflict(second, first)
  {
    if Conflict(first, second) {
      var i, j :| 0 <= i < |first.resources| && 0 <= j < |second.resources|
                  && Clashes(first.resources[i], second.resources[j]);
      assert Clashes(second.resources[j], first.resources[i]);
    }
    if Conflict(second, first) {
      var i, j :| 0 <= i < |second.resources| && 0 <= j < |first.resources|
                  && Clashes(second.resources[i], first.resources[j]);
      assert Clashes(first.resources[j], second.resources[i]);
    }
  }

  /** The contract accesses the resource in this mode. */
  ghost predicate Accesses(contract: ActionContract, resource: ActionResource, mode: ResourceAccessMode) {
    ResourceAccess(resource, mode) in contract.resources
  }

  /** One contract writes this very resource and the other reads or writes it. */
  ghost predicate ConflictOver(first: ActionContract, second: ActionContract, resource: ActionResource) {
    || (Accesses(first, resource, Write) && (Accesses(second, resource, Read) || Accesses(second, resource, Write)))
    || (Accesses(second, resource, Write) && Accesses(first, resource, Read))
  }

  /** Contracts conflict exactly when one writes something that the other touches. */
  lemma ConflictMeansWrite(first: ActionContract, second: ActionContract)
    ensures Conflict(first, second) <==> exists resource :: ConflictOver(first, second, resource)
  {
    if i, j :| 0 <= i < |first.resources| && 0 <= j < |second.resources|
               && Clashes(first.resources[i], second.resources[j]) {
      ClashIsConflict(first, second, i, j);
    }
    if resource :| ConflictOver(first, second, resource) {
      var left := if Accesses(first, resource, Write) then Write else Read;
      var right := if Accesses(second, resource, Write) then Write else Read;
      var i :| 0 <= i < |first.resources| && first.resources[i] == ResourceAccess(resource, left);
      var j :| 0 <= j < |second.resources| && second.resources[j] == ResourceAccess(resource, right);
      assert Clashes(first.resources[i], second.resources[j]);
    }
  }

  lemma ClashIsConflict(first: ActionContract, second: ActionContract, i: nat, j: nat)
    requires i < |first.resources| && j < |second.resources| && Clashes(first.resources[i], second.resources[j])
    ensures ConflictOver(first, second, first.resources[i].resource)
  {
    var left, right := first.resources[i], second.resources[j];
    assert left == ResourceAccess(left.resource, left.mode) && right == ResourceAccess(left.resource, right.mode);
    assert Accesses(first, left.resource, left.mode) && Accesses(second, left.resource, right.mode);
    assert (left.mode == Read || left.mode == Write) && (right.mode == Read || right.mode == Write);
  }

  predicate ClashesWith(access: ResourceAccess, contract: ActionContract) {
    exists j :: 0 <= j < |contract.resources| && Clashes(access, contract.resources[j])
  }

  /** The resource of the first access in `first` that clashes with the other contract. */
  ghost predicate IsFirstClash(first: ActionContract, second: ActionContract, resource: ActionResource) {
    exists i :: 0 <= i < |first.resources| && first.resources[i].resource == resource
                && ClashesWith(first.resources[i], second)
                && forall a :: 0 <= a < i ==> !ClashesWith(first.resources[a], second)
  }

  lemma FirstClashUnique(first: ActionContract, second: ActionContract, r: ActionResource, r': ActionResource)
    requires IsFirstClash(first, second, r) && IsFirstClash(first, second, r')
    ensures r == r'
  {
  }

  /** Scans the accesses of both contracts for one shared written resource. */
  method ConflictingResource(first: ActionContract, second: ActionContract) returns (r: Option<ActionResource>)
    ensures r.Some? <==> Conflict(first, second)
    ensures r.Some? <==> exists resource :: ConflictOver(first, second, resource)
    ensures r.Some? ==> ConflictOver(first, second, r.value) && IsFirstClash(first, second, r.value)
  {
    ConflictMeansWrite(first, second);
    for i := 0 to |first.resources|
      invariant forall a, b :: 0 <= a < i && 0 <= b < |second.resources|
                               ==> !Clashes(first.resources[a], second.resources[b])
    {
      for j := 0 to |second.resources|
        invariant forall b :: 0 <= b < j ==> !Clashes(first.resources[i], second.resources[b])
      {
        if Clashes(first.resources[i], second.resources[j]) {
          assert ClashesWith(first.resources[i], second);
          ClashIsConflict(first, second, i, j);
          return Some(first.resources[i].resource);
        }
      }
    }
    r := None;
  }

  ghost predicate Ordered(deps: seq<ActionDependency>, a: nat, b: nat) {
    Reach(deps, a, b) || Reach(deps, b, a)
  }

  /** Two analysed actions conflict and the dependencies leave their order open. */
  ghost predicate Ambiguous(contracts: map<nat, ActionContract>, deps: seq<ActionDependency>, a: nat, b: nat) {
    && a in contracts && b in contracts && a != b
    && Conflict(contracts[a], contracts[b])
    && !Ordered(deps, a, b)
  }

  ghost predicate AllConflictsOrdered(contracts: map<nat, ActionContract>, deps: seq<ActionDependency>) {
    forall a: nat, b: nat :: !Ambiguous(contracts, deps, a, b)
  }

  datatype Ambiguity = Ambiguity(first: nat, second: nat, resource: ActionResource)

  /** Enumerates analysed identities in ascending order. */
  method SortedKeys(keys: set<nat>) returns (sorted: seq<nat>)
    ensures forall x: nat :: x in sorted <==> x in keys
    ensures forall i, j :: 0 <= i < j < |sorted| ==> sorted[i] < sorted[j]
  {
    var rest := keys;
    sorted := [];
    while rest != {}
      invariant forall x: nat :: x in keys <==> x in sorted || x in rest
      invariant forall i, j :: 0 <= i < j < |sorted| ==> sorted[i] < sorted[j]
      invariant forall i, x :: 0 <= i < |sorted| && x in rest ==> sorted[i] < x
      decreases |rest|
    {
      LeastExists(rest);
      var x :| x in rest && IsLeast(rest, x);
      sorted := sorted + [x];
      rest := rest - {x};
    }
  }

  predicate IsLeast(s: set<nat>, x: nat) {
    x in s && forall y :: y in s ==> x <= y
  }

  lemma {:induction false} LeastExists(s: set<nat>)
    requires s != {}
    ensures exists x: nat :: IsLeast(s, x)
    decreases s
  {
    var x :| x in s;
    if s == {x} {
      assert IsLeast(s, x);
    } else {
      var rest := s - {x};
      assert rest != {} by {
        assert s == rest + {x};
      }
      LeastExists(rest);
      var m: nat :| IsLeast(rest, m);
      assert s == rest + {x};
      assert IsLeast(s, if x <= m then x else m);
    }
  }

  /** The least pair with open order, and the first resource it clashes over. */
  ghost predicate IsFirstAmbiguity(contracts: map<nat, ActionContract>, deps: seq<ActionDependency>, r: Ambiguity) {
    && r.first < r.second && Ambiguous(contracts, deps, r.first, r.second)
    && ConflictOver(contracts[r.first], contracts[r.second], r.resource)
    && IsFirstClash(contracts[r.first], contracts[r.second], r.resource)
    && forall a: nat, b: nat :: a < b && (a < r.first || (a == r.first && b < r.second))
         ==> !Ambiguous(contracts, deps, a, b)
  }

  lemma FirstAmbiguityUnique(contracts: map<nat, ActionContract>, deps: seq<ActionDependency>, r: Ambiguity,
                             r': Ambiguity)
    requires IsFirstAmbiguity(contracts, deps, r) && IsFirstAmbiguity(contracts, deps, r')
    ensures r == r'
  {
    assert r.first == r'.first && r.second == r'.second;
    FirstClashUnique(contracts[r.first], contracts[r.second], r.resource, r'.resource);
  }

  /** Rejects exactly the plans with an ambiguous pair, naming the least such pair. */
  method ValidateResourceOrder(contracts: map<nat, ActionContract>, deps: seq<ActionDependency>)
    returns (r: Option<Ambiguity>)
    ensures r.None? <==> AllConflictsOrdered(contracts, deps)
    ensures r.Some? ==> IsFirstAmbiguity(contracts, deps, r.value)
  {
    var actions := SortedKeys(contracts.Keys);
    for i := 0 to |actions|
      invariant forall a, b :: 0 <= a < i && a < b < |actions| ==> !Ambiguous(contracts, deps, actions[a], actions[b])
    {
      for j := i + 1 to |actions|
        invariant forall b :: i < b < j ==> !Ambiguous(contracts, deps, actions[i], actions[b])
      {
        assert actions[i] in contracts && actions[j] in contracts;
        var first, second := actions[i], actions[j];
        var resource := ConflictingResource(contracts[first], contracts[second]);
        if resource.Some? {
          var forward := DependencyPath(first, second, deps);
          var backward := DependencyPath(second, first, deps);
          if !forward && !backward {
            LeastAmbiguity(contracts, deps, actions, i, j);
            assert Ambiguous(contracts, deps, first, second);
            return Some(Ambiguity(first, second, resource.value));
          }
        }
      }
    }
    PairwiseUnambiguous(contracts, deps, actions);
    r := None;
  }

  lemma PairwiseUnambiguous(contracts: map<nat, ActionContract>, deps: seq<ActionDependency>, actions: seq<nat>)
    requires forall x: nat :: x in actions <==> x in contracts
    requires forall a, b :: 0 <= a < b < |actions| ==> !Ambiguous(contracts, deps, actions[a], actions[b])
    ensures AllConflictsOrdered(contracts, deps)
  {
    forall a: nat, b: nat ensures !Ambiguous(contracts, deps, a, b) {
      if a in contracts && b in contracts && a != b {
        assert a in actions && b in actions;
        var i :| 0 <= i < |actions| && actions[i] == a;
        var j :| 0 <= j < |actions| && actions[j] == b;
        ConflictSymmetric(contracts[a], contracts[b]);
        assert i < j ==> !Ambiguous(contracts, deps, actions[i], actions[j]);
        assert j < i ==> !Ambiguous(contracts, deps, actions[j], actions[i]);
      }
    }
  }

  lemma LeastAmbiguity(contracts: map<nat, ActionContract>, deps: seq<ActionDependency>, actions: seq<nat>, i: nat,
                       j: nat)
    requires forall x: nat :: x in actions <==> x in contracts
    requires forall a, b :: 0 <= a < b < |actions| ==> actions[a] < actions[b]
    requires i < j < |actions|
    requires forall a, b :: 0 <= a < i && a < b < |actions| ==> !Ambiguous(contracts, deps, actions[a], actions[b])
    requires forall b :: i < b < j ==> !Ambiguous(contracts, deps, actions[i], actions[b])
    ensures forall a: nat, b: nat :: a < b && (a < actions[i] || (a == actions[i] && b < actions[j]))
                                     ==> !Ambiguous(contracts, deps, a, b)
  {
    forall a: nat, b: nat | a < b && (a < actions[i] || (a == actions[i] && b < actions[j]))
      ensures !Ambiguous(contracts, deps, a, b)
    {
      if a in contracts && b in contracts {
        assert a in actions && b in actions;
        var p :| 0 <= p < |actions| && actions[p] == a;
        var q :| 0 <= q < |actions| && actions[q] == b;
        assert p < q;
        assert p < i || (p == i && q < j);
      }
    }
  }

  // ---------------------------------------------------------------------------
  // Every linear extension of an accepted plan is equivalent

  /** Neither a resource nor a dependency path relates the two actions. */
  ghost predicate Independent(contracts: map<nat, ActionContract>, deps: seq<ActionDependency>, a: nat, b: nat) {
    && a in contracts && b in contracts && a != b
    && !Conflict(contracts[a], contracts[b])
    && !Ordered(deps, a, b)
  }

  ghost predicate Accepted(n: nat, contracts: map<nat, ActionContract>, deps: seq<ActionDependency>) {
    && InRange(n, deps)
    && (forall x: nat :: x < n <==> x in contracts)
    && AllConflictsOrdered(contracts, deps)
  }

  /** Two linear extensions that place a pair differently prove the pair independent. */
  lemma InversionIsIndependent(n: nat, contracts: map<nat, ActionContract>, deps: seq<ActionDependency>,
                               p: seq<nat>, q: seq<nat>, i: nat, j: nat, k: nat, l: nat)
    requires Accepted(n, contracts, deps) && IsOrder(n, deps, p) && IsOrder(n, deps, q)
    requires i < j < n && k < l < n
    requires p[i] == q[l] && p[j] == q[k]
    ensures Independent(contracts, deps, p[i], p[j])
  {
    if Reach(deps, p[i], p[j]) {
      OrderFollowsReach(n, deps, q, l, k);
    }
    if Reach(deps, p[j], p[i]) {
      OrderFollowsReach(n, deps, p, j, i);
    }
    assert !Ambiguous(contracts, deps, p[i], p[j]);
  }

  /** Conflicting actions stand in the same relative order in every linear extension. */
  lemma ConflictsKeepOrder(n: nat, contracts: map<nat, ActionContract>, deps: seq<ActionDependency>,
                           p: seq<nat>, q: seq<nat>, i: nat, j: nat, k: nat, l: nat)
    requires Accepted(n, contracts, deps) && IsOrder(n, deps, p) && IsOrder(n, deps, q)
    requires i < n && j < n && k < n && l < n && p[i] == q[k] && p[j] == q[l]
    requires p[i] != p[j] && Conflict(contracts[p[i]], contracts[p[j]])
    ensures i < j <==> k < l
  {
    ConflictSymmetric(contracts[p[i]], contracts[p[j]]);
    if i < j && l < k {
      InversionIsIndependent(n, contracts, deps, p, q, i, j, l, k);
    }
    if j < i && k < l {
      InversionIsIndependent(n, contracts, deps, p, q, j, i, k, l);
    }
  }

  function SwapAt(p: seq<nat>, m: nat): (r: seq<nat>)
    requires m + 1 < |p|
    ensures |r| == |p| && r[m] == p[m + 1] && r[m + 1] == p[m]
    ensures forall i :: 0 <= i < |p| && i != m && i != m + 1 ==> r[i] == p[i]
  {
    p[m := p[m + 1]][m + 1 := p[m]]
  }

  lemma SwapKeepsOrder(n: nat, deps: seq<ActionDependency>, p: seq<nat>, m: nat)
    requires IsOrder(n, deps, p) && m + 1 < n && !HasEdge(deps, p[m], p[m + 1])
    ensures IsOrder(n, deps, SwapAt(p, m))
  {
    var r := SwapAt(p, m);
    forall i, j | 0 <= i < j < n ensures r[i] != r[j] {
      var i' := if i == m then m + 1 else if i == m + 1 then m else i;
      var j' := if j == m then m + 1 else if j == m + 1 then m else j;
      assert r[i] == p[i'] && r[j] == p[j'] && i' != j';
    }
    forall i, j | 0 <= i <= j < n ensures !HasEdge(deps, r[j], r[i]) {
      if i == m && j == m + 1 {
      } else {
        var i' := if i == m then m + 1 else if i == m + 1 then m else i;
        var j' := if j == m then m + 1 else if j == m + 1 then m else j;
        assert r[i] == p[i'] && r[j] == p[j'] && i' <= j';
      }
    }
  }

  /** A chain of linear extensions, each one swap of adjacent independent actions from the next. */
  ghost predicate IsSwapChain(n: nat, contracts: map<nat, ActionContract>, deps: seq<ActionDependency>,
                              chain: seq<seq<nat>>)
  {
    && chain != []
    && (forall c :: 0 <= c < |chain| ==> IsOrder(n, deps, chain[c]))
    && forall c :: 0 <= c < |chain| - 1 ==> IsSwapStep(n, contracts, deps, chain[c], chain[c + 1])
  }

  ghost predicate IsSwapStep(n: nat, contracts: map<nat, ActionContract>, deps: seq<ActionDependency>, p: seq<nat>,
                             q: seq<nat>)
  {
    exists m: nat :: m + 1 < |p| && Independent(contracts, deps, p[m], p[m + 1]) && q == SwapAt(p, m)
  }

  lemma PrependSwap(n: nat, contracts: map<nat, ActionContract>, deps: seq<ActionDependency>, p: seq<nat>, m: nat,
                    chain: seq<seq<nat>>)
    requires IsOrder(n, deps, p) && m + 1 < n && Independent(contracts, deps, p[m], p[m + 1])
    requires IsSwapChain(n, contracts, deps, chain) && chain[0] == SwapAt(p, m)
    ensures IsSwapChain(n, contracts, deps, [p] + chain)
  {
    var all := [p] + chain;
    forall c | 0 <= c < |all| - 1 ensures IsSwapStep(n, contracts, deps, all[c], all[c + 1]) {
      if c > 0 {
        assert IsSwapStep(n, contracts, deps, chain[c - 1], chain[c]);
      }
    }
  }

  /**
   Any two linear extensions are connected by swaps of adjacent independent actions.
   `p` and `q` agree on the first k entries and q[k] stands at position m of p.
   */
  lemma {:induction false} SwapChainFrom(n: nat, contracts: map<nat, ActionContract>, deps: seq<ActionDependency>,
                                         p: seq<nat>, q: seq<nat>, k: nat, m: nat)
    returns (chain: seq<seq<nat>>)
    requires Accepted(n, contracts, deps) && IsOrder(n, deps, p) && IsOrder(n, deps, q)
    requires k <= n && p[..k] == q[..k]
    requires k < n ==> k <= m < n && p[m] == q[k]
    ensures IsSwapChain(n, contracts, deps, chain) && chain[0] == p && chain[|chain| - 1] == q
    decreases n - k, m
  {
    if k == n {
      assert p == p[..k] && q == q[..k];
      chain := [p];
    } else if m == k {
      assert p[..k + 1] == p[..k] + [p[k]] && q[..k + 1] == q[..k] + [q[k]];
      var next := 0;
      if k + 1 < n {
        next := PositionAfter(n, p, q, k + 1);
      }
      chain := SwapChainFrom(n, contracts, deps, p, q, k + 1, next);
    } else {
      var r := MoveEarlier(n, contracts, deps, p, q, k, m);
      var rest := SwapChainFrom(n, contracts, deps, r, q, k, m - 1);
      PrependSwap(n, contracts, deps, p, m - 1, rest);
      chain := [p] + rest;
    }
  }

  /** p[m-1] stands before q[k] in p but after it in q, so the two may be swapped. */
  lemma MoveEarlier(n: nat, contracts: map<nat, ActionContract>, deps: seq<ActionDependency>,
                    p: seq<nat>, q: seq<nat>, k: nat, m: nat)
    returns (r: seq<nat>)
    requires Accepted(n, contracts, deps) && IsOrder(n, deps, p) && IsOrder(n, deps, q)
    requires k < m < n && p[..k] == q[..k] && p[m] == q[k]
    ensures Independent(contracts, deps, p[m - 1], p[m])
    ensures r == SwapAt(p, m - 1) && IsOrder(n, deps, r)
    ensures r[..k] == q[..k] && r[m - 1] == q[k]
  {
    var l := PositionOf(n, q, p[m - 1]);
    LaterInOther(p, q, k, m, l);
    InversionIsIndependent(n, contracts, deps, p, q, m - 1, m, k, l);
    var left, right := p[m - 1], p[m];
    if HasEdge(deps, left, right) {
      EdgeReaches(deps, left, right);
    }
    SwapKeepsOrder(n, deps, p, m - 1);
    r := SwapAt(p, m - 1);
    assert r[..k] == p[..k];
  }

  lemma SamePrefix(p: seq<nat>, q: seq<nat>, k: nat)
    requires k <= |p| && k <= |q| && p[..k] == q[..k]
    ensures forall i :: 0 <= i < k ==> p[i] == q[i]
  {
    forall i | 0 <= i < k ensures p[i] == q[i] {
      assert p[..k][i] == q[..k][i];
    }
  }

  lemma PositionAfter(n: nat, p: seq<nat>, q: seq<nat>, k: nat) returns (m: nat)
    requires IsPermutation(n, p) && IsPermutation(n, q) && k < n && p[..k] == q[..k]
    ensures k <= m < n && p[m] == q[k]
  {
    PermutationCovers(n, p);
    assert q[k] in p;
    m :| 0 <= m < n && p[m] == q[k];
    SamePrefix(p, q, k);
  }

  lemma LaterInOther(p: seq<nat>, q: seq<nat>, k: nat, m: nat, l: nat)
    requires |p| == |q| && Distinct(p) && Distinct(q)
    requires k < m < |p| && l < |q| && p[..k] == q[..k]
    requires p[m] == q[k] && q[l] == p[m - 1]
    ensures k < l
  {
    SamePrefix(p, q, k);
  }

  lemma OrdersSwapConnected(n: nat, contracts: map<nat, ActionContract>, deps: seq<ActionDependency>, p: seq<nat>,
                            q: seq<nat>)
    returns (chain: seq<seq<nat>>)
    requires Accepted(n, contracts, deps) && IsOrder(n, deps, p) && IsOrder(n, deps, q)
    ensures IsSwapChain(n, contracts, deps, chain) && chain[0] == p && chain[|chain| - 1] == q
  {
    var m := 0;
    if n > 0 {
      m := PositionAfter(n, p, q, 0);
    }
    chain := SwapChainFrom(n, contracts, deps, p, q, 0, m);
  }

  // ---------------------------------------------------------------------------
  // Hence one final state, whatever the steps compute

  function RunOrder<S>(step: (S, nat) -> S, s: S, order: seq<nat>): S {
    if order == [] then s else RunOrder(step, step(s, order[0]), order[1..])
  }

  ghost predicate IndependentStepsCommute<S(!new)>(contracts: map<nat, ActionContract>, deps: seq<ActionDependency>,
                                                   step: (S, nat) -> S)
  {
    forall s: S, a: nat, b: nat :: Independent(contracts, deps, a, b) ==> step(step(s, a), b) == step(step(s, b), a)
  }

  lemma {:induction false} SwapKeepsResult<S(!new)>(contracts: map<nat, ActionContract>, deps: seq<ActionDependency>,
                                                    step: (S, nat) -> S, s: S, p: seq<nat>, m: nat)
    requires IndependentStepsCommute(contracts, deps, step)
    requires m + 1 < |p| && Independent(contracts, deps, p[m], p[m + 1])
    ensures RunOrder(step, s, SwapAt(p, m)) == RunOrder(step, s, p)
    decreases m
  {
    var r := SwapAt(p, m);
    if m == 0 {
      assert step(step(s, p[0]), p[1]) == step(step(s, p[1]), p[0]);
      assert r[1..][1..] == p[1..][1..];
    } else {
      assert r[1..] == SwapAt(p[1..], m - 1);
      SwapKeepsResult(contracts, deps, step, step(s, p[0]), p[1..], m - 1);
    }
  }

  lemma {:induction false} ChainKeepsResult<S(!new)>(n: nat, contracts: map<nat, ActionContract>,
                                                     deps: seq<ActionDependency>,
                                                     step: (S, nat) -> S, s: S, chain: seq<seq<nat>>, c: nat)
    requires IndependentStepsCommute(contracts, deps, step)
    requires IsSwapChain(n, contracts, deps, chain) && c < |chain|
    ensures RunOrder(step, s, chain[0]) == RunOrder(step, s, chain[c])
  {
    if c > 0 {
      ChainKeepsResult(n, contracts, deps, step, s, chain, c - 1);
      assert IsSwapStep(n, contracts, deps, chain[c - 1], chain[c]);
      StepKeepsResult(n, contracts, deps, step, s, chain[c - 1], chain[c]);
    }
  }

  lemma StepKeepsResult<S(!new)>(n: nat, contracts: map<nat, ActionContract>, deps: seq<ActionDependency>,
                                 step: (S, nat) -> S, s: S, p: seq<nat>, q: seq<nat>)
    requires IndependentStepsCommute(contracts, deps, step) && IsSwapStep(n, contracts, deps, p, q)
    ensures RunOrder(step, s, p) == RunOrder(step, s, q)
  {
    var m: nat :| m + 1 < |p| && Independent(contracts, deps, p[m], p[m + 1]) && q == SwapAt(p, m);
    SwapKeepsResult(contracts, deps, step, s, p, m);
  }

  /** An accepted plan has one outcome: all its linear extensions end in the same state. */
  lemma AllOrdersSameResult<S(!new)>(n: nat, contracts: map<nat, ActionContract>, deps: seq<ActionDependency>,
                                     step: (S, nat) -> S, s: S, p: seq<nat>, q: seq<nat>)
    requires Accepted(n, contracts, deps) && IsOrder(n, deps, p) && IsOrder(n, deps, q)
    requires IndependentStepsCommute(contracts, deps, step)
    ensures RunOrder(step, s, p) == RunOrder(step, s, q)
  {
    var chain := OrdersSwapConnected(n, contracts, deps, p, q);
    ChainKeepsResult(n, contracts, deps, step, s, chain, |chain| - 1);
  }
}
