/** What whole simulated traces guarantee: freshness, revocation, conservation and mount nesting. */
module Traces {
  import opened Wrappers
  import opened StorageModel
  import opened Prerequisites
  import opened Closure
  import opened Evidence
  import opened Flow
  import opened Effects

  /** Consecutive predecessor states linked by successfully simulated actions. */
  ghost predicate IsTrace(cat: Catalogue, states: seq<Simulation>, actions: seq<ProviderAction>) {
    && |states| == |actions| + 1
    && forall i: nat :: i < |actions| ==> StepsAt(cat, states, actions, i)
  }

  /** Action i leads from its predecessor state to the next one. */
  ghost predicate StepsAt(cat: Catalogue, states: seq<Simulation>, actions: seq<ProviderAction>, i: nat) {
    i < |actions| && i + 1 < |states| && Leads(cat, states[i], actions[i], states[i + 1])
  }

  ghost predicate Leads(cat: Catalogue, s: Simulation, action: ProviderAction, next: Simulation) {
    Step(cat, s, action).Ok? && Step(cat, s, action).value.next == next
  }

  /** The contract step i was simulated with. */
  ghost function ContractAt(cat: Catalogue, states: seq<Simulation>, actions: seq<ProviderAction>,
                            i: nat): ActionContract
    requires IsTrace(cat, states, actions) && i < |actions|
  {
    cat.describe(actions[i], states[i].desired.graph)
  }

  // ---------------------------------------------------------------------------
  // Frames of the individual effect lists

  lemma {:induction false} GraphsFrame(s: Simulation, effects: seq<GraphEffect>)
    requires ApplyGraphs(s, effects).Ok?
    ensures var after := ApplyGraphs(s, effects).value;
      && after.evidence.checkedFilesystems == s.evidence.checkedFilesystems
      && after.evidence.capacity == s.evidence.capacity
      && after.evidence.projectedAllocations == s.evidence.projectedAllocations
      && after.evidence.invalidated == s.evidence.invalidated
      && after.evidence.interfaces.Keys <= s.evidence.interfaces.Keys
      && after.desired.runtime == s.desired.runtime
    decreases |effects|
  {
    if effects != [] {
      GraphsFrame(ApplyGraph(s, effects[0]).value, effects[1..]);
    }
  }

  lemma {:induction false} MountsFrame(s: Simulation, effects: seq<MountEffect>)
    requires ApplyMounts(s, effects).Ok?
    ensures var after := ApplyMounts(s, effects).value;
      && after.evidence.capacity == s.evidence.capacity
      && after.evidence.projectedAllocations == s.evidence.projectedAllocations
      && after.evidence.invalidated == s.evidence.invalidated
      && after.evidence.interfaces == s.evidence.interfaces
      && after.evidence.activations == s.evidence.activations
    decreases |effects|
  {
    if effects != [] {
      MountsFrame(ApplyMount(s, effects[0]).value, effects[1..]);
    }
  }

  lemma {:induction false} AllocationsFrame(evidence: SimulationEvidence, effects: seq<AllocationEffect>)
    requires ApplyAllocations(evidence, effects).Ok?
    ensures var after := ApplyAllocations(evidence, effects).value;
      && after.checkedFilesystems == evidence.checkedFilesystems
      && after.invalidated == evidence.invalidated
      && after.interfaces == evidence.interfaces
      && after.activations == evidence.activations
    decreases |effects|
  {
    if effects != [] {
      AllocationsFrame(ApplyAllocation(evidence, effects[0]).value, effects[1..]);
    }
  }

  predicate GrantsInterface(outputs: seq<ActionOutput>, node: NodeId) {
    exists i :: 0 <= i < |outputs| && outputs[i].BlockInterface? && outputs[i].node == node
  }

  lemma {:induction false} OutputsFrame(evidence: SimulationEvidence, outputs: seq<ActionOutput>)
    ensures var after := OutputsFrom(evidence, outputs);
      && after.capacity == evidence.capacity
      && after.projectedAllocations == evidence.projectedAllocations
      && after.invalidated == evidence.invalidated
      && after.activations == evidence.activations
      && (forall n: NodeId :: n in after.checkedFilesystems
            <==> n in evidence.checkedFilesystems || FilesystemCheckPassed(n) in outputs)
      && (forall n: NodeId :: n in after.interfaces <==> n in evidence.interfaces || GrantsInterface(outputs, n))
    decreases |outputs|
  {
    if outputs != [] {
      var next := ApplyOutput(evidence, outputs[0]);
      OutputsFrame(next, outputs[1..]);
      forall n: NodeId
        ensures n in OutputsFrom(evidence, outputs).interfaces
                <==> n in evidence.interfaces || GrantsInterface(outputs, n)
      {
        if GrantsInterface(outputs[1..], n) {
          var i :| 0 <= i < |outputs| - 1 && outputs[1..][i].BlockInterface? && outputs[1..][i].node == n;
          assert outputs[i + 1].BlockInterface? && outputs[i + 1].node == n;
        }
        if GrantsInterface(outputs, n) {
          var i :| 0 <= i < |outputs| && outputs[i].BlockInterface? && outputs[i].node == n;
          assert i > 0 ==> outputs[1..][i - 1].BlockInterface? && outputs[1..][i - 1].node == n;
        }
      }
    }
  }

  // ---------------------------------------------------------------------------
  // Clean checks are fresh

  predicate VoidsCheck(effect: MountEffect, fs: NodeId) {
    && effect.AddRuntime?
    && (effect.entry.source == Filesystem(fs) || effect.entry.source.Bind? || effect.entry.source.Other?)
  }

  /** The step touches content that flows into `fs`, mounts it, or mounts a bind or foreign source. */
  ghost predicate RevokesCheck(s: Simulation, contract: ActionContract, fs: NodeId) {
    || Taints(s.desired.graph, contract.invalidations, fs)
    || exists i :: 0 <= i < |contract.effect.mounts| && VoidsCheck(contract.effect.mounts[i], fs)
  }

  predicate GrantsCheck(contract: ActionContract, fs: NodeId) {
    FilesystemCheckPassed(fs) in contract.outputs
  }

  lemma {:induction false} MountsVoidChecks(s: Simulation, effects: seq<MountEffect>, fs: NodeId)
    requires ApplyMounts(s, effects).Ok?
    ensures fs in ApplyMounts(s, effects).value.evidence.checkedFilesystems
            <==> fs in s.evidence.checkedFilesystems && !exists i :: 0 <= i < |effects| && VoidsCheck(effects[i], fs)
    decreases |effects|
  {
    if effects != [] {
      MountsVoidChecks(ApplyMount(s, effects[0]).value, effects[1..], fs);
      if i :| 0 <= i < |effects| && VoidsCheck(effects[i], fs) {
        assert i > 0 ==> VoidsCheck(effects[1..][i - 1], fs);
      }
      if i :| 0 <= i < |effects| - 1 && VoidsCheck(effects[1..][i], fs) {
        assert VoidsCheck(effects[i + 1], fs);
      }
    }
  }

  lemma ChecksAfterStep(cat: Catalogue, s: Simulation, action: ProviderAction, next: Simulation, fs: NodeId)
    requires Leads(cat, s, action, next)
    ensures var contract := cat.describe(action, s.desired.graph);
      fs in next.evidence.checkedFilesystems
      <==> GrantsCheck(contract, fs) || (fs in s.evidence.checkedFilesystems && !RevokesCheck(s, contract, fs))
  {
    var contract := cat.describe(action, s.desired.graph);
    var invalidated := Invalidated(s, contract);
    ContentSpreads(s.desired.graph, contract.invalidations, fs);
    GraphsFrame(invalidated, contract.effect.graph);
    var graphed := ApplyGraphs(invalidated, contract.effect.graph).value;
    MountsVoidChecks(graphed, contract.effect.mounts, fs);
    var mounted := ApplyMounts(graphed, contract.effect.mounts).value;
    AllocationsFrame(mounted.evidence, contract.effect.allocations);
    OutputsFrame(ApplyAllocations(mounted.evidence, contract.effect.allocations).value, contract.outputs);
  }

  /** What a latch holds after k steps: some grant that nothing later revoked. */
  ghost predicate IsUnrevoked(grants: nat -> bool, revokes: nat -> bool, k: nat) {
    exists i: nat :: i < k && grants(i) && forall j: nat :: i < j < k ==> !revokes(j)
  }

  /** A latch set by grants and cleared by revocations holds exactly the unrevoked grants. */
  lemma {:induction false} LatchHistory(held: nat -> bool, grants: nat -> bool, revokes: nat -> bool, k: nat)
    requires !held(0)
    requires forall i: nat :: i < k ==> (held(i + 1) <==> grants(i) || (held(i) && !revokes(i)))
    ensures held(k) <==> IsUnrevoked(grants, revokes, k)
    decreases k
  {
    if k > 0 {
      var last := k - 1;
      LatchHistory(held, grants, revokes, last);
      assert held(last + 1) <==> grants(last) || (held(last) && !revokes(last));
    }
  }

  ghost predicate CheckGrantedAt(cat: Catalogue, states: seq<Simulation>, actions: seq<ProviderAction>, i: nat,
                                 fs: NodeId)
    requires IsTrace(cat, states, actions)
  {
    i < |actions| && GrantsCheck(ContractAt(cat, states, actions, i), fs)
  }

  ghost predicate CheckRevokedAt(cat: Catalogue, states: seq<Simulation>, actions: seq<ProviderAction>, i: nat,
                                 fs: NodeId)
    requires IsTrace(cat, states, actions)
  {
    i < |actions| && RevokesCheck(states[i], ContractAt(cat, states, actions, i), fs)
  }

  /** Some step before k output the check and no later step before k voided it. */
  ghost predicate FreshlyChecked(cat: Catalogue, states: seq<Simulation>, actions: seq<ProviderAction>, k: nat,
                                 fs: NodeId)
    requires IsTrace(cat, states, actions)
  {
    IsUnrevoked((i: nat) => CheckGrantedAt(cat, states, actions, i, fs),
                (i: nat) => CheckRevokedAt(cat, states, actions, i, fs), k)
  }

  lemma ChecksAtStep(cat: Catalogue, states: seq<Simulation>, actions: seq<ProviderAction>, i: nat, fs: NodeId)
    requires IsTrace(cat, states, actions) && i < |actions|
    ensures fs in states[i + 1].evidence.checkedFilesystems
            <==> (|| CheckGrantedAt(cat, states, actions, i, fs)
                  || (fs in states[i].evidence.checkedFilesystems && !CheckRevokedAt(cat, states, actions, i, fs)))
  {
    assert StepsAt(cat, states, actions, i);
    ChecksAfterStep(cat, states[i], actions[i], states[i + 1], fs);
  }

  /** Over every trace, a clean-check guarantee is held exactly while it is fresh. */
  lemma ChecksAreFresh(cat: Catalogue, states: seq<Simulation>, actions: seq<ProviderAction>, k: nat, fs: NodeId)
    requires IsTrace(cat, states, actions) && k <= |actions|
    requires states[0].evidence.checkedFilesystems == {}
    ensures fs in states[k].evidence.checkedFilesystems <==> FreshlyChecked(cat, states, actions, k, fs)
  {
    var held := (i: nat) => i < |states| && fs in states[i].evidence.checkedFilesystems;
    forall i: nat | i < k
      ensures held(i + 1) <==> (|| CheckGrantedAt(cat, states, actions, i, fs)
                                || (held(i) && !CheckRevokedAt(cat, states, actions, i, fs)))
    {
      ChecksAtStep(cat, states, actions, i, fs);
    }
    LatchHistory(held, (i: nat) => CheckGrantedAt(cat, states, actions, i, fs),
                 (i: nat) => CheckRevokedAt(cat, states, actions, i, fs), k);
  }

  // ---------------------------------------------------------------------------
  // Activation invalidation

  /** Claims are dropped for everything the invalidations disturb, and for nothing else. */
  lemma EndpointRevocationExact(graph: NodeGraph, evidence: SimulationEvidence, invalidations: seq<FactInvalidation>,
                                n: NodeId)
    ensures var disturbed := Disturbs(graph, invalidations, n);
      var after := Revoke(evidence, ExpandedFacts(graph, invalidations));
      && (n in after.interfaces <==> n in evidence.interfaces && !disturbed)
      && (n in after.activations <==> n in evidence.activations && !disturbed)
      && (n in after.interfaces ==> after.interfaces[n] == evidence.interfaces[n])
      && (n in after.activations ==> after.activations[n] == evidence.activations[n])
  {
    ExpandedFactsDisturb(graph, invalidations, n);
  }

  lemma EndpointsAfterStep(cat: Catalogue, s: Simulation, action: ProviderAction, next: Simulation, n: NodeId)
    requires Leads(cat, s, action, next)
    ensures var contract := cat.describe(action, s.desired.graph);
      && next.evidence.invalidated
         == s.evidence.invalidated + ExpandedFacts(s.desired.graph, contract.invalidations)
      && (n in next.evidence.interfaces ==>
            || GrantsInterface(contract.outputs, n)
            || (n in s.evidence.interfaces && !Disturbs(s.desired.graph, contract.invalidations, n)))
  {
    var contract := cat.describe(action, s.desired.graph);
    var invalidated := Invalidated(s, contract);
    EndpointRevocationExact(s.desired.graph, s.evidence, contract.invalidations, n);
    GraphsFrame(invalidated, contract.effect.graph);
    var graphed := ApplyGraphs(invalidated, contract.effect.graph).value;
    MountsFrame(graphed, contract.effect.mounts);
    var mounted := ApplyMounts(graphed, contract.effect.mounts).value;
    AllocationsFrame(mounted.evidence, contract.effect.allocations);
    OutputsFrame(ApplyAllocations(mounted.evidence, contract.effect.allocations).value, contract.outputs);
  }

  /** Stale facts are never forgotten. */
  lemma {:induction false} LedgerMonotone(cat: Catalogue, states: seq<Simulation>, actions: seq<ProviderAction>,
                                          i: nat, k: nat)
    requires IsTrace(cat, states, actions) && i <= k <= |actions|
    ensures states[i].evidence.invalidated <= states[k].evidence.invalidated
    decreases k
  {
    if i < k {
      LedgerMonotone(cat, states, actions, i, k - 1);
      assert StepsAt(cat, states, actions, k - 1);
      EndpointsAfterStep(cat, states[k - 1], actions[k - 1], states[k], 0);
    }
  }

  /** The observed endpoint no longer counts. */
  ghost predicate IsOutdated(evidence: SimulationEvidence, n: NodeId) {
    IsStale(evidence, n, Activation) || IsStale(evidence, n, Presence)
  }

  ghost predicate DisturbedAt(cat: Catalogue, states: seq<Simulation>, actions: seq<ProviderAction>, i: nat, n: NodeId)
    requires IsTrace(cat, states, actions)
  {
    i < |actions| && Disturbs(states[i].desired.graph, ContractAt(cat, states, actions, i).invalidations, n)
  }

  /** An observed endpoint is outdated exactly when some earlier step disturbed it. */
  lemma {:induction false} OutdatedExactly(cat: Catalogue, states: seq<Simulation>, actions: seq<ProviderAction>,
                                           k: nat, n: NodeId)
    requires IsTrace(cat, states, actions) && k <= |actions| && states[0].evidence.invalidated == {}
    ensures IsOutdated(states[k].evidence, n) <==> exists i: nat :: i < k && DisturbedAt(cat, states, actions, i, n)
    decreases k
  {
    if k > 0 {
      var j := k - 1;
      OutdatedExactly(cat, states, actions, j, n);
      assert StepsAt(cat, states, actions, j);
      EndpointsAfterStep(cat, states[j], actions[j], states[k], n);
      ExpandedFactsDisturb(states[j].desired.graph, ContractAt(cat, states, actions, j).invalidations, n);
      assert IsOutdated(states[k].evidence, n)
          <==> IsOutdated(states[j].evidence, n) || DisturbedAt(cat, states, actions, j, n);
    }
  }

  /** Once an endpoint observation is stale, no later check on it rests on the snapshot. */
  lemma StaleObservationNeverReused(cat: Catalogue, states: seq<Simulation>, actions: seq<ProviderAction>,
                                    i: nat, k: nat, n: NodeId, writable: bool)
    requires IsTrace(cat, states, actions) && i <= k <= |actions|
    requires IsOutdated(states[i].evidence, n)
    ensures EvaluateEndpoint(states[k], n, writable) != Satisfied(ObservedSnapshot)
  {
    LedgerMonotone(cat, states, actions, i, k);
  }

  /** An interface after step k was granted by it, or existed before and was not revoked. */
  lemma InterfaceSurvives(cat: Catalogue, states: seq<Simulation>, actions: seq<ProviderAction>, k: nat, n: NodeId)
    requires IsTrace(cat, states, actions) && k < |actions| && n in states[k + 1].evidence.interfaces
    ensures var contract := ContractAt(cat, states, actions, k);
      || GrantsInterface(contract.outputs, n)
      || (n in states[k].evidence.interfaces && !DisturbedAt(cat, states, actions, k, n))
  {
    assert StepsAt(cat, states, actions, k);
    EndpointsAfterStep(cat, states[k], actions[k], states[k + 1], n);
  }

  /** Some step from i on and before k grants the interface. */
  ghost predicate GrantedBetween(cat: Catalogue, states: seq<Simulation>, actions: seq<ProviderAction>, i: nat, k: nat,
                                 n: NodeId)
    requires IsTrace(cat, states, actions) && k <= |actions|
  {
    exists m: nat :: i <= m < k && GrantsInterface(ContractAt(cat, states, actions, m).outputs, n)
  }

  lemma GrantedBetweenGrows(cat: Catalogue, states: seq<Simulation>, actions: seq<ProviderAction>, i: nat, k: nat,
                            n: NodeId)
    requires IsTrace(cat, states, actions) && i <= k < |actions|
    ensures GrantedBetween(cat, states, actions, i, k + 1, n)
            <==> (|| GrantedBetween(cat, states, actions, i, k, n)
                  || GrantsInterface(ContractAt(cat, states, actions, k).outputs, n))
  {
  }

  /** After a revoking step, an endpoint is usable again only through a newer granted interface. */
  lemma {:induction false} RevokedEndpointNeedsNewGrant(cat: Catalogue, states: seq<Simulation>,
                                                        actions: seq<ProviderAction>,
                                                        i: nat, k: nat, n: NodeId)
    requires IsTrace(cat, states, actions) && i < k <= |actions|
    requires DisturbedAt(cat, states, actions, i, n)
    requires n in states[k].evidence.interfaces
    ensures GrantedBetween(cat, states, actions, i, k, n)
    decreases k
  {
    var last := k - 1;
    InterfaceSurvives(cat, states, actions, last, n);
    GrantedBetweenGrows(cat, states, actions, i, last, n);
    if !GrantsInterface(ContractAt(cat, states, actions, last).outputs, n) {
      RevokedEndpointNeedsNewGrant(cat, states, actions, i, last, n);
    }
  }

  /** The two previous results as one statement about endpoint checks. */
  lemma RevokedEndpointCheck(cat: Catalogue, states: seq<Simulation>, actions: seq<ProviderAction>,
                             i: nat, k: nat, n: NodeId, writable: bool)
    requires IsTrace(cat, states, actions) && i < k <= |actions|
    requires DisturbedAt(cat, states, actions, i, n)
    requires EvaluateEndpoint(states[k], n, writable).Satisfied?
    ensures EvaluateEndpoint(states[k], n, writable) == Satisfied(PredictedEvidence)
    ensures GrantedBetween(cat, states, actions, i, k, n)
  {
    assert StepsAt(cat, states, actions, i);
    EndpointsAfterStep(cat, states[i], actions[i], states[i + 1], n);
    ExpandedFactsDisturb(states[i].desired.graph, ContractAt(cat, states, actions, i).invalidations, n);
    StaleObservationNeverReused(cat, states, actions, i + 1, k, n, writable);
    RevokedEndpointNeedsNewGrant(cat, states, actions, i, k, n);
  }

  // ---------------------------------------------------------------------------
  // Capacity conservation

  function Reserved(effects: seq<AllocationEffect>, d: AllocationDomain): nat {
    if effects == [] then 0
    else (if effects[0].Reserve? && effects[0].domain == d then effects[0].amount else 0) + Reserved(effects[1..], d)
  }

  function Released(effects: seq<AllocationEffect>, d: AllocationDomain): nat {
    if effects == [] then 0
    else (if effects[0].Release? && effects[0].domain == d then effects[0].amount else 0) + Released(effects[1..], d)
  }

  predicate Invalidates(effects: seq<AllocationEffect>, d: AllocationDomain) {
    Invalidate(d) in effects
  }

  lemma {:induction false} AllocationsConserve(evidence: SimulationEvidence, effects: seq<AllocationEffect>,
                                               d: AllocationDomain)
    requires ApplyAllocations(evidence, effects).Ok?
    ensures var after := ApplyAllocations(evidence, effects).value;
      && (d in after.capacity <==> d in evidence.capacity && !Invalidates(effects, d))
      && (d in after.capacity ==>
            && after.capacity[d] + Reserved(effects, d) == evidence.capacity[d] + Released(effects, d)
            && (evidence.capacity[d] <= U64_MAX ==> after.capacity[d] <= U64_MAX))
    decreases |effects|
  {
    if effects != [] {
      AllocationsConserve(ApplyAllocation(evidence, effects[0]).value, effects[1..], d);
    }
  }

  lemma CapacityAfterStep(cat: Catalogue, s: Simulation, action: ProviderAction, next: Simulation, d: AllocationDomain)
    requires Leads(cat, s, action, next)
    ensures var effects := cat.describe(action, s.desired.graph).effect.allocations;
      && (d in next.evidence.capacity <==> d in s.evidence.capacity && !Invalidates(effects, d))
      && (d in next.evidence.capacity ==>
            && next.evidence.capacity[d] + Reserved(effects, d) == s.evidence.capacity[d] + Released(effects, d)
            && (s.evidence.capacity[d] <= U64_MAX ==> next.evidence.capacity[d] <= U64_MAX))
  {
    var contract := cat.describe(action, s.desired.graph);
    GraphsFrame(Invalidated(s, contract), contract.effect.graph);
    var graphed := ApplyGraphs(Invalidated(s, contract), contract.effect.graph).value;
    MountsFrame(graphed, contract.effect.mounts);
    var mounted := ApplyMounts(graphed, contract.effect.mounts).value;
    AllocationsConserve(mounted.evidence, contract.effect.allocations, d);
    OutputsFrame(ApplyAllocations(mounted.evidence, contract.effect.allocations).value, contract.outputs);
  }

  ghost function TotalReserved(cat: Catalogue, states: seq<Simulation>, actions: seq<ProviderAction>, k: nat,
                               d: AllocationDomain): nat
    requires IsTrace(cat, states, actions) && k <= |actions|
  {
    if k == 0 then 0
    else TotalReserved(cat, states, actions, k - 1, d)
         + Reserved(ContractAt(cat, states, actions, k - 1).effect.allocations, d)
  }

  ghost function TotalReleased(cat: Catalogue, states: seq<Simulation>, actions: seq<ProviderAction>, k: nat,
                               d: AllocationDomain): nat
    requires IsTrace(cat, states, actions) && k <= |actions|
  {
    if k == 0 then 0
    else TotalReleased(cat, states, actions, k - 1, d)
         + Released(ContractAt(cat, states, actions, k - 1).effect.allocations, d)
  }

  lemma CapacityAtStep(cat: Catalogue, states: seq<Simulation>, actions: seq<ProviderAction>, i: nat,
                       d: AllocationDomain)
    requires IsTrace(cat, states, actions) && i < |actions|
    ensures var effects := ContractAt(cat, states, actions, i).effect.allocations;
      var before, after := states[i].evidence.capacity, states[i + 1].evidence.capacity;
      && (d in after <==> d in before && !Invalidates(effects, d))
      && (d in after ==> after[d] + Reserved(effects, d) == before[d] + Released(effects, d)
                         && (before[d] <= U64_MAX ==> after[d] <= U64_MAX))
  {
    assert StepsAt(cat, states, actions, i);
    CapacityAfterStep(cat, states[i], actions[i], states[i + 1], d);
  }

  /** A domain is known exactly when it was known at the start and never invalidated since. */
  lemma {:induction false} CapacityKnowledge(cat: Catalogue, states: seq<Simulation>, actions: seq<ProviderAction>,
                                             k: nat, d: AllocationDomain)
    requires IsTrace(cat, states, actions) && k <= |actions|
    ensures d in states[k].evidence.capacity <==>
      && d in states[0].evidence.capacity
      && forall i :: 0 <= i < k ==> !Invalidates(ContractAt(cat, states, actions, i).effect.allocations, d)
    decreases k
  {
    if k > 0 {
      CapacityKnowledge(cat, states, actions, k - 1, d);
      CapacityAtStep(cat, states, actions, k - 1, d);
    }
  }

  /** Known capacity is neither created nor lost: available + reserved = initial + released, within u64. */
  lemma {:induction false} CapacityConserved(cat: Catalogue, states: seq<Simulation>, actions: seq<ProviderAction>,
                                             k: nat, d: AllocationDomain)
    requires IsTrace(cat, states, actions) && k <= |actions|
    requires d in states[k].evidence.capacity
    ensures d in states[0].evidence.capacity
    ensures states[k].evidence.capacity[d] + TotalReserved(cat, states, actions, k, d)
            == states[0].evidence.capacity[d] + TotalReleased(cat, states, actions, k, d)
    ensures states[0].evidence.capacity[d] <= U64_MAX ==> states[k].evidence.capacity[d] <= U64_MAX
    decreases k
  {
    if k > 0 {
      CapacityAtStep(cat, states, actions, k - 1, d);
      CapacityConserved(cat, states, actions, k - 1, d);
    }
  }

  predicate Touches(effects: seq<AllocationEffect>, d: AllocationDomain) {
    exists i :: 0 <= i < |effects| && effects[i].domain == d
  }

  /** The effects predict the domain: they allocate in it while it is known, or make it unknown. */
  ghost predicate Marks(capacity: map<AllocationDomain, nat>, effects: seq<AllocationEffect>, d: AllocationDomain) {
    if d in capacity then Touches(effects, d) else Invalidates(effects, d)
  }

  lemma {:induction false} AllocationsMark(evidence: SimulationEvidence, effects: seq<AllocationEffect>,
                                           d: AllocationDomain)
    requires ApplyAllocations(evidence, effects).Ok?
    ensures d in ApplyAllocations(evidence, effects).value.projectedAllocations
            <==> d in evidence.projectedAllocations || Marks(evidence.capacity, effects, d)
    decreases |effects|
  {
    if effects != [] {
      AllocationsMark(ApplyAllocation(evidence, effects[0]).value, effects[1..], d);
      assert Touches(effects, d) <==> effects[0].domain == d || Touches(effects[1..], d) by {
        assert forall i :: 0 < i < |effects| ==> effects[i] == effects[1..][i - 1];
      }
    }
  }

  ghost predicate MarkedAt(cat: Catalogue, states: seq<Simulation>, actions: seq<ProviderAction>, i: nat,
                           d: AllocationDomain)
    requires IsTrace(cat, states, actions)
  {
    i < |actions| && Marks(states[i].evidence.capacity, ContractAt(cat, states, actions, i).effect.allocations, d)
  }

  lemma MarkAfterStep(cat: Catalogue, s: Simulation, action: ProviderAction, next: Simulation, d: AllocationDomain)
    requires Leads(cat, s, action, next)
    ensures d in next.evidence.projectedAllocations
            <==> d in s.evidence.projectedAllocations
                 || Marks(s.evidence.capacity, cat.describe(action, s.desired.graph).effect.allocations, d)
  {
    var contract := cat.describe(action, s.desired.graph);
    GraphsFrame(Invalidated(s, contract), contract.effect.graph);
    var graphed := ApplyGraphs(Invalidated(s, contract), contract.effect.graph).value;
    MountsFrame(graphed, contract.effect.mounts);
    var mounted := ApplyMounts(graphed, contract.effect.mounts).value;
    OutputsFrame(ApplyAllocations(mounted.evidence, contract.effect.allocations).value, contract.outputs);
    AllocationsMark(mounted.evidence, contract.effect.allocations, d);
  }

  /** A domain counts as predicted exactly once some step allocated in it while known, or made it unknown. */
  lemma {:induction false} CapacityPredicted(cat: Catalogue, states: seq<Simulation>, actions: seq<ProviderAction>,
                                             k: nat, d: AllocationDomain)
    requires IsTrace(cat, states, actions) && k <= |actions| && states[0].evidence.projectedAllocations == {}
    ensures d in states[k].evidence.projectedAllocations
            <==> exists i: nat :: i < k && MarkedAt(cat, states, actions, i, d)
    decreases k
  {
    if k > 0 {
      var j := k - 1;
      CapacityPredicted(cat, states, actions, j, d);
      assert StepsAt(cat, states, actions, j);
      MarkAfterStep(cat, states[j], actions[j], states[k], d);
      assert d in states[k].evidence.projectedAllocations
          <==> d in states[j].evidence.projectedAllocations || MarkedAt(cat, states, actions, j, d);
    }
  }

  /** The graph and mount effects of the contract apply, so its allocations are reached. */
  ghost predicate ReachesAllocations(s: Simulation, contract: ActionContract) {
    var graphs := ApplyGraphs(Invalidated(s, contract), contract.effect.graph);
    graphs.Ok? && ApplyMounts(graphs.value, contract.effect.mounts).Ok?
  }

  /** The evidence the allocation effects start from. */
  ghost function BeforeAllocations(s: Simulation, contract: ActionContract): SimulationEvidence
    requires ReachesAllocations(s, contract)
  {
    ApplyMounts(ApplyGraphs(Invalidated(s, contract), contract.effect.graph).value,
                contract.effect.mounts).value.evidence
  }

  /** Every effect before allocation i applies. */
  ghost predicate ReachesAllocation(s: Simulation, contract: ActionContract, i: nat) {
    && ReachesAllocations(s, contract) && i <= |contract.effect.allocations|
    && ApplyAllocations(BeforeAllocations(s, contract), contract.effect.allocations[..i]).Ok?
  }

  lemma {:induction false} AllocationsSplit(evidence: SimulationEvidence, effects: seq<AllocationEffect>, i: nat)
    requires i <= |effects|
    ensures var first := ApplyAllocations(evidence, effects[..i]);
      ApplyAllocations(evidence, effects) == if first.Err? then first else ApplyAllocations(first.value, effects[i..])
    decreases i
  {
    if i > 0 {
      assert effects[..i][0] == effects[0] && effects[..i][1..] == effects[1..][..i - 1]
          && effects[1..][i - 1..] == effects[i..];
      var step := ApplyAllocation(evidence, effects[0]);
      if step.Ok? {
        AllocationsSplit(step.value, effects[1..], i - 1);
      }
    } else {
      assert effects[..0] == [] && effects[0..] == effects;
    }
  }

  lemma {:induction false} UntouchedDomain(evidence: SimulationEvidence, effects: seq<AllocationEffect>,
                                           d: AllocationDomain)
    requires ApplyAllocations(evidence, effects).Ok? && forall i :: 0 <= i < |effects| ==> effects[i].domain != d
    ensures var after := ApplyAllocations(evidence, effects).value.capacity;
      (d in after <==> d in evidence.capacity) && (d in after ==> after[d] == evidence.capacity[d])
    decreases |effects|
  {
    if effects != [] {
      UntouchedDomain(ApplyAllocation(evidence, effects[0]).value, effects[1..], d);
    }
  }

  lemma {:induction false} ShortageNeedsReserve(evidence: SimulationEvidence, effects: seq<AllocationEffect>,
                                                d: AllocationDomain)
    requires forall i :: 0 <= i < |effects| ==> !(effects[i].Reserve? && effects[i].domain == d)
    ensures ApplyAllocations(evidence, effects) != Err(InsufficientCapacity(d))
    decreases |effects|
  {
    if effects != [] {
      assert !(effects[0].Reserve? && effects[0].domain == d);
      var step := ApplyAllocation(evidence, effects[0]);
      if step.Ok? {
        ShortageNeedsReserve(step.value, effects[1..], d);
      }
    }
  }

  /** Allocation i is the first effect on its domain, and a reservation. */
  ghost predicate ReservesFirst(effects: seq<AllocationEffect>, i: nat, d: AllocationDomain, amount: nat) {
    i < |effects| && effects[i] == Reserve(d, amount) && forall j :: 0 <= j < i ==> effects[j].domain != d
  }

  ghost predicate ReservesOnce(effects: seq<AllocationEffect>, i: nat, d: AllocationDomain) {
    forall j :: 0 <= j < |effects| && j != i ==> !(effects[j].Reserve? && effects[j].domain == d)
  }

  lemma FirstReserve(evidence: SimulationEvidence, effects: seq<AllocationEffect>, i: nat, d: AllocationDomain,
                     amount: nat)
    requires ReservesFirst(effects, i, d, amount) && ApplyAllocations(evidence, effects[..i]).Ok?
    ensures EvaluateCapacity(evidence, d, Some(amount)).Violated? ==>
      ApplyAllocations(evidence, effects) == Err(InsufficientCapacity(d))
    ensures !EvaluateCapacity(evidence, d, Some(amount)).Violated? ==> ApplyAllocations(evidence, effects[..i + 1]).Ok?
    ensures !EvaluateCapacity(evidence, d, Some(amount)).Violated? && ReservesOnce(effects, i, d)
            ==> ApplyAllocations(evidence, effects) != Err(InsufficientCapacity(d))
  {
    var reached := ApplyAllocations(evidence, effects[..i]).value;
    UntouchedDomain(evidence, effects[..i], d);
    AllocationsSplit(evidence, effects, i);
    assert effects[i..][0] == Reserve(d, amount) && effects[i..][1..] == effects[i + 1..];
    AllocationsSplit(evidence, effects[..i + 1], i);
    assert effects[..i + 1][..i] == effects[..i] && effects[..i + 1][i..] == [Reserve(d, amount)];
    assert [Reserve(d, amount)][1..] == [];
    var step := ApplyAllocation(reached, Reserve(d, amount));
    if step.Ok? && ReservesOnce(effects, i, d) {
      ShortageNeedsReserve(step.value, effects[i + 1..], d);
    }
  }

  /**
   The capacity check of an action foretells its first reservation on a domain.
   Once reached, the reservation succeeds unless the check was violated, in which
   case the action fails for want of that capacity; and if the action reserves the
   domain only once, that is the only way it can run short of it.
   */
  lemma CapacityCheckForetellsReserve(cat: Catalogue, s: Simulation, contract: ActionContract, i: nat,
                                      d: AllocationDomain, amount: nat)
    requires ReservesFirst(contract.effect.allocations, i, d, amount)
    ensures var violated := EvaluatePrerequisite(s, CapacityAvailable(d, Some(amount))).Violated?;
      && (ReachesAllocation(s, contract, i) && violated ==> Projected(cat, s, contract) == Err(InsufficientCapacity(d)))
      && (ReachesAllocation(s, contract, i) && !violated ==> ReachesAllocation(s, contract, i + 1))
      && (ReservesOnce(contract.effect.allocations, i, d) ==>
            (Projected(cat, s, contract) == Err(InsufficientCapacity(d))
             <==> violated && ReachesAllocation(s, contract, i)))
  {
    var effects := contract.effect.allocations;
    var graphs := ApplyGraphs(Invalidated(s, contract), contract.effect.graph);
    if graphs.Err? {
      GraphErrorKinds(Invalidated(s, contract), contract.effect.graph);
    } else if ApplyMounts(graphs.value, contract.effect.mounts).Err? {
      MountErrorKinds(graphs.value, contract.effect.mounts);
    } else {
      var evidence := BeforeAllocations(s, contract);
      GraphsFrame(Invalidated(s, contract), contract.effect.graph);
      MountsFrame(graphs.value, contract.effect.mounts);
      assert evidence.capacity == s.evidence.capacity;
      if ReachesAllocation(s, contract, i) {
        FirstReserve(evidence, effects, i, d, amount);
      } else {
        AllocationsSplit(evidence, effects, i);
        ShortageNeedsReserve(evidence, effects[..i], d);
      }
    }
  }

  lemma {:induction false} GraphErrorKinds(s: Simulation, effects: seq<GraphEffect>)
    requires ApplyGraphs(s, effects).Err?
    ensures !ApplyGraphs(s, effects).error.InsufficientCapacity?
    decreases |effects|
  {
    if ApplyGraph(s, effects[0]).Ok? {
      GraphErrorKinds(ApplyGraph(s, effects[0]).value, effects[1..]);
    }
  }

  lemma {:induction false} MountErrorKinds(s: Simulation, effects: seq<MountEffect>)
    requires ApplyMounts(s, effects).Err?
    ensures !ApplyMounts(s, effects).error.InsufficientCapacity?
    decreases |effects|
  {
    if ApplyMount(s, effects[0]).Ok? {
      MountErrorKinds(ApplyMount(s, effects[0]).value, effects[1..]);
    }
  }

  // ---------------------------------------------------------------------------
  // Runtime mounts stay properly nested

  /** `later` neither occupies the target of `earlier` nor hides it. */
  predicate Stacks(earlier: MountEntry, later: MountEntry) {
    && !(earlier.target == later.target && earlier.context == later.context)
    && !IsBelow(earlier, later.target, later.context)
  }

  /** Targets are distinct per namespace and ancestors are listed before descendants. */
  ghost predicate WellNested(runtime: seq<MountEntry>) {
    forall i, j :: 0 <= i < j < |runtime| ==> Stacks(runtime[i], runtime[j])
  }

  lemma {:induction false} WithoutKeepsNesting(entries: seq<MountEntry>, target: Path, context: MountContext)
    requires WellNested(entries)
    ensures WellNested(Without(entries, target, context))
  {
    if entries != [] {
      WithoutKeepsNesting(entries[1..], target, context);
      var rest := Without(entries[1..], target, context);
      forall j | 0 <= j < |rest| ensures Stacks(entries[0], rest[j]) {
        assert rest[j] in entries[1..];
      }
    }
  }

  lemma {:induction false} MountsKeepNesting(s: Simulation, effects: seq<MountEffect>)
    requires WellNested(s.desired.runtime) && ApplyMounts(s, effects).Ok?
    ensures WellNested(ApplyMounts(s, effects).value.desired.runtime)
    decreases |effects|
  {
    if effects != [] {
      match effects[0] {
        case AddRuntime(entry) =>
        case RemoveRuntime(target, context) => WithoutKeepsNesting(s.desired.runtime, target, context);
        case _ =>
      }
      MountsKeepNesting(ApplyMount(s, effects[0]).value, effects[1..]);
    }
  }

  lemma {:induction false} TraceKeepsNesting(cat: Catalogue, states: seq<Simulation>, actions: seq<ProviderAction>,
                                             k: nat)
    requires IsTrace(cat, states, actions) && k <= |actions|
    requires WellNested(states[0].desired.runtime)
    ensures WellNested(states[k].desired.runtime)
    decreases k
  {
    if k > 0 {
      TraceKeepsNesting(cat, states, actions, k - 1);
      var s := states[k - 1];
      var contract := cat.describe(actions[k - 1], s.desired.graph);
      assert StepsAt(cat, states, actions, k - 1);
      GraphsFrame(Invalidated(s, contract), contract.effect.graph);
      MountsKeepNesting(ApplyGraphs(Invalidated(s, contract), contract.effect.graph).value, contract.effect.mounts);
    }
  }

  /** Removes the listed mounts from the last to the first. */
  function UnmountInReverse(runtime: seq<MountEntry>): seq<MountEffect> {
    if runtime == [] then []
    else
      var last := runtime[|runtime| - 1];
      [RemoveRuntime(last.target, last.context)] + UnmountInReverse(runtime[..|runtime| - 1])
  }

  lemma {:induction false} WithoutLast(entries: seq<MountEntry>, last: MountEntry)
    requires !MountAt(entries, last.target, last.context)
    ensures Without(entries + [last], last.target, last.context) == entries
  {
    if entries == [] {
      assert (entries + [last])[1..] == [];
    } else {
      assert entries[0].target != last.target || entries[0].context != last.context;
      forall i | 0 <= i < |entries| - 1
        ensures !(entries[1..][i].target == last.target && entries[1..][i].context == last.context)
      {
        assert entries[1..][i] == entries[i + 1];
      }
      WithoutLast(entries[1..], last);
      assert (entries + [last])[1..] == entries[1..] + [last];
    }
  }

  /** A well-nested system can always be unmounted completely, innermost first. */
  lemma {:induction false} UnmountInReverseSucceeds(s: Simulation)
    requires WellNested(s.desired.runtime)
    ensures ApplyMounts(s, UnmountInReverse(s.desired.runtime)).Ok?
    ensures ApplyMounts(s, UnmountInReverse(s.desired.runtime)).value.desired.runtime == []
    decreases |s.desired.runtime|
  {
    var runtime := s.desired.runtime;
    if runtime != [] {
      var init, last := runtime[..|runtime| - 1], runtime[|runtime| - 1];
      assert runtime == init + [last];
      forall i | 0 <= i < |runtime| ensures !IsBelow(runtime[i], last.target, last.context) {
        assert i < |init| ==> Stacks(runtime[i], runtime[|init|]);
      }
      forall i | 0 <= i < |init| ensures !(init[i].target == last.target && init[i].context == last.context) {
        assert Stacks(runtime[i], runtime[|init|]);
      }
      WithoutLast(init, last);
      var effect := RemoveRuntime(last.target, last.context);
      var next := ApplyMount(s, effect).value;
      assert next.desired.runtime == init;
      UnmountInReverseSucceeds(next);
      var effects := UnmountInReverse(runtime);
      assert effects[0] == effect && effects[1..] == UnmountInReverse(init);
    }
  }

  /** Whatever a plan has mounted by step k, reverse unmounting from there succeeds. */
  lemma EveryTraceCanUnmount(cat: Catalogue, states: seq<Simulation>, actions: seq<ProviderAction>, k: nat)
    requires IsTrace(cat, states, actions) && k <= |actions|
    requires WellNested(states[0].desired.runtime)
    ensures ApplyMounts(states[k], UnmountInReverse(states[k].desired.runtime)).Ok?
    ensures ApplyMounts(states[k], UnmountInReverse(states[k].desired.runtime)).value.desired.runtime == []
  {
    TraceKeepsNesting(cat, states, actions, k);
    UnmountInReverseSucceeds(states[k]);
  }
}
