/** Endpoint claims over whole traces: each held exactly from a grant to the next change or revocation. */
module Endpoints {
  import opened Wrappers
  import opened StorageModel
  import opened Prerequisites
  import opened Evidence
  import opened Flow
  import opened Effects
  import opened Traces

  // ---------------------------------------------------------------------------
  // Access claims

  function AccessOf(evidence: SimulationEvidence, n: NodeId): Option<BlockInterfaceAccess> {
    if n in evidence.interfaces then Some(evidence.interfaces[n]) else None
  }

  /** The access that the last interface output for the node grants. */
  function LastAccess(outputs: seq<ActionOutput>, n: NodeId): Option<BlockInterfaceAccess> {
    if outputs == [] then None
    else
      match outputs[|outputs| - 1]
      case BlockInterface(node, access) => if node == n then Some(access) else LastAccess(outputs[..|outputs| - 1], n)
      case _ => LastAccess(outputs[..|outputs| - 1], n)
  }

  /** The effect removes the node or deactivates it. */
  predicate Disables(effect: GraphEffect, n: NodeId) {
    effect == RemoveNode(n) || effect == SetActivation(n, false)
  }

  predicate AnyDisables(effects: seq<GraphEffect>, n: NodeId) {
    exists i :: 0 <= i < |effects| && Disables(effects[i], n)
  }

  lemma {:induction false} GraphsDisable(s: Simulation, effects: seq<GraphEffect>, n: NodeId)
    requires ApplyGraphs(s, effects).Ok?
    ensures AccessOf(ApplyGraphs(s, effects).value.evidence, n)
            == if AnyDisables(effects, n) then None else AccessOf(s.evidence, n)
    decreases |effects|
  {
    if effects != [] {
      GraphsDisable(ApplyGraph(s, effects[0]).value, effects[1..], n);
      assert AnyDisables(effects, n) <==> Disables(effects[0], n) || AnyDisables(effects[1..], n) by {
        if AnyDisables(effects[1..], n) {
          var i :| 0 <= i < |effects| - 1 && Disables(effects[1..][i], n);
          assert Disables(effects[i + 1], n);
        }
        if i :| 0 < i < |effects| && Disables(effects[i], n) {
          assert Disables(effects[1..][i - 1], n);
        }
      }
    }
  }

  lemma {:induction false} LastAccessGrows(output: ActionOutput, rest: seq<ActionOutput>, n: NodeId)
    ensures LastAccess([output] + rest, n)
            == if LastAccess(rest, n).Some? then LastAccess(rest, n)
               else if output.BlockInterface? && output.node == n then Some(output.access)
               else None
    decreases |rest|
  {
    if rest == [] {
      assert [output] + rest == [output] && [output][..0] == [];
      assert LastAccess([output][..0], n).None?;
    } else {
      var all := [output] + rest;
      assert all[..|all| - 1] == [output] + rest[..|rest| - 1] && all[|all| - 1] == rest[|rest| - 1];
      LastAccessGrows(output, rest[..|rest| - 1], n);
    }
  }

  lemma {:induction false} OutputsGrant(evidence: SimulationEvidence, outputs: seq<ActionOutput>, n: NodeId)
    ensures AccessOf(OutputsFrom(evidence, outputs), n)
            == if LastAccess(outputs, n).Some? then LastAccess(outputs, n) else AccessOf(evidence, n)
    decreases |outputs|
  {
    if outputs != [] {
      OutputsGrant(ApplyOutput(evidence, outputs[0]), outputs[1..], n);
      LastAccessGrows(outputs[0], outputs[1..], n);
      assert outputs == [outputs[0]] + outputs[1..];
    }
  }

  /** The step's invalidations reach the node, or its effects remove or deactivate it. */
  ghost predicate DropsInterface(s: Simulation, contract: ActionContract, n: NodeId) {
    || Disturbs(s.desired.graph, contract.invalidations, n)
    || AnyDisables(contract.effect.graph, n)
  }

  /** After a step the access is what the step last granted, or what was held and not dropped. */
  lemma InterfaceAfterStep(cat: Catalogue, s: Simulation, action: ProviderAction, next: Simulation, n: NodeId)
    requires Leads(cat, s, action, next)
    ensures var contract := cat.describe(action, s.desired.graph);
      var granted := LastAccess(contract.outputs, n);
      AccessOf(next.evidence, n)
      == if granted.Some? then granted
         else if DropsInterface(s, contract, n) then None
         else AccessOf(s.evidence, n)
  {
    var contract := cat.describe(action, s.desired.graph);
    var invalidated := Invalidated(s, contract);
    EndpointRevocationExact(s.desired.graph, s.evidence, contract.invalidations, n);
    GraphsDisable(invalidated, contract.effect.graph, n);
    var graphed := ApplyGraphs(invalidated, contract.effect.graph).value;
    MountsFrame(graphed, contract.effect.mounts);
    var mounted := ApplyMounts(graphed, contract.effect.mounts).value;
    AllocationsFrame(mounted.evidence, contract.effect.allocations);
    OutputsGrant(ApplyAllocations(mounted.evidence, contract.effect.allocations).value, contract.outputs, n);
  }

  ghost predicate GrantedAt(cat: Catalogue, states: seq<Simulation>, actions: seq<ProviderAction>, i: nat, n: NodeId,
                            access: BlockInterfaceAccess)
    requires IsTrace(cat, states, actions)
  {
    i < |actions| && LastAccess(ContractAt(cat, states, actions, i).outputs, n) == Some(access)
  }

  /** Step i drops the claim or grants the node anew. */
  ghost predicate ReplacedAt(cat: Catalogue, states: seq<Simulation>, actions: seq<ProviderAction>, i: nat, n: NodeId)
    requires IsTrace(cat, states, actions)
  {
    && i < |actions|
    && var contract := ContractAt(cat, states, actions, i);
    DropsInterface(states[i], contract, n) || LastAccess(contract.outputs, n).Some?
  }

  lemma InterfaceAtStep(cat: Catalogue, states: seq<Simulation>, actions: seq<ProviderAction>, i: nat, n: NodeId,
                        access: BlockInterfaceAccess)
    requires IsTrace(cat, states, actions) && i < |actions|
    ensures AccessOf(states[i + 1].evidence, n) == Some(access)
            <==> (|| GrantedAt(cat, states, actions, i, n, access)
                  || (AccessOf(states[i].evidence, n) == Some(access) && !ReplacedAt(cat, states, actions, i, n)))
  {
    assert StepsAt(cat, states, actions, i);
    InterfaceAfterStep(cat, states[i], actions[i], states[i + 1], n);
  }

  /** Some step before k granted this access and no later step before k dropped or replaced it. */
  ghost predicate FreshlyGranted(cat: Catalogue, states: seq<Simulation>, actions: seq<ProviderAction>, k: nat,
                                 n: NodeId, access: BlockInterfaceAccess)
    requires IsTrace(cat, states, actions)
  {
    IsUnrevoked((i: nat) => GrantedAt(cat, states, actions, i, n, access),
                (i: nat) => ReplacedAt(cat, states, actions, i, n), k)
  }

  /** Over every trace an access is claimed exactly from its grant until something drops or replaces it. */
  lemma InterfacesAreFresh(cat: Catalogue, states: seq<Simulation>, actions: seq<ProviderAction>, k: nat, n: NodeId,
                           access: BlockInterfaceAccess)
    requires IsTrace(cat, states, actions) && k <= |actions| && n !in states[0].evidence.interfaces
    ensures AccessOf(states[k].evidence, n) == Some(access) <==> FreshlyGranted(cat, states, actions, k, n, access)
  {
    var held := (i: nat) => i < |states| && AccessOf(states[i].evidence, n) == Some(access);
    forall i: nat | i < k
      ensures held(i + 1) <==> (|| GrantedAt(cat, states, actions, i, n, access)
                                || (held(i) && !ReplacedAt(cat, states, actions, i, n)))
    {
      InterfaceAtStep(cat, states, actions, i, n, access);
    }
    LatchHistory(held, (i: nat) => GrantedAt(cat, states, actions, i, n, access),
                 (i: nat) => ReplacedAt(cat, states, actions, i, n), k);
  }

  // ---------------------------------------------------------------------------
  // Activation claims

  function ActivationOf(evidence: SimulationEvidence, n: NodeId): Option<bool> {
    if n in evidence.activations then Some(evidence.activations[n]) else None
  }

  /** What the last effect on a node's activation did. */
  datatype Switch = Untouched | Forgotten | Switched(active: bool)

  function LastSwitch(effects: seq<GraphEffect>, n: NodeId): Switch {
    if effects == [] then Untouched
    else
      match effects[|effects| - 1]
      case SetActivation(id, active) => if id == n then Switched(active) else LastSwitch(effects[..|effects| - 1], n)
      case RemoveNode(id) => if id == n then Forgotten else LastSwitch(effects[..|effects| - 1], n)
      case _ => LastSwitch(effects[..|effects| - 1], n)
  }

  /** The claim after some effects, given the one before them. */
  function AfterSwitch(switch: Switch, before: Option<bool>): Option<bool> {
    match switch
    case Untouched => before
    case Forgotten => None
    case Switched(active) => Some(active)
  }

  lemma {:induction false} LastSwitchGrows(effect: GraphEffect, rest: seq<GraphEffect>, n: NodeId)
    ensures LastSwitch([effect] + rest, n)
            == if LastSwitch(rest, n).Untouched? then LastSwitch([effect], n) else LastSwitch(rest, n)
    decreases |rest|
  {
    if rest == [] {
      assert [effect] + rest == [effect];
    } else {
      var all := [effect] + rest;
      assert all[..|all| - 1] == [effect] + rest[..|rest| - 1] && all[|all| - 1] == rest[|rest| - 1];
      LastSwitchGrows(effect, rest[..|rest| - 1], n);
    }
  }

  lemma {:induction false} GraphsSwitch(s: Simulation, effects: seq<GraphEffect>, n: NodeId)
    requires ApplyGraphs(s, effects).Ok?
    ensures ActivationOf(ApplyGraphs(s, effects).value.evidence, n)
            == AfterSwitch(LastSwitch(effects, n), ActivationOf(s.evidence, n))
    decreases |effects|
  {
    if effects != [] {
      var next := ApplyGraph(s, effects[0]).value;
      GraphsSwitch(next, effects[1..], n);
      LastSwitchGrows(effects[0], effects[1..], n);
      assert effects == [effects[0]] + effects[1..];
      assert [effects[0]][..0] == [];
      assert ActivationOf(next.evidence, n) == AfterSwitch(LastSwitch([effects[0]], n), ActivationOf(s.evidence, n));
    }
  }

  /** After a step the activation is what the step last set, or what was known and not disturbed. */
  lemma ActivationAfterStep(cat: Catalogue, s: Simulation, action: ProviderAction, next: Simulation, n: NodeId)
    requires Leads(cat, s, action, next)
    ensures var contract := cat.describe(action, s.desired.graph);
      ActivationOf(next.evidence, n)
      == AfterSwitch(LastSwitch(contract.effect.graph, n),
                     if Disturbs(s.desired.graph, contract.invalidations, n) then None else ActivationOf(s.evidence, n))
  {
    var contract := cat.describe(action, s.desired.graph);
    var invalidated := Invalidated(s, contract);
    EndpointRevocationExact(s.desired.graph, s.evidence, contract.invalidations, n);
    GraphsSwitch(invalidated, contract.effect.graph, n);
    var graphed := ApplyGraphs(invalidated, contract.effect.graph).value;
    MountsFrame(graphed, contract.effect.mounts);
    var mounted := ApplyMounts(graphed, contract.effect.mounts).value;
    AllocationsFrame(mounted.evidence, contract.effect.allocations);
    OutputsFrame(ApplyAllocations(mounted.evidence, contract.effect.allocations).value, contract.outputs);
  }

  ghost predicate SwitchedAt(cat: Catalogue, states: seq<Simulation>, actions: seq<ProviderAction>, i: nat, n: NodeId,
                             active: bool)
    requires IsTrace(cat, states, actions)
  {
    i < |actions| && LastSwitch(ContractAt(cat, states, actions, i).effect.graph, n) == Switched(active)
  }

  /** Step i disturbs the node, removes it or sets its activation anew. */
  ghost predicate UnsettledAt(cat: Catalogue, states: seq<Simulation>, actions: seq<ProviderAction>, i: nat, n: NodeId)
    requires IsTrace(cat, states, actions)
  {
    && i < |actions|
    && (|| DisturbedAt(cat, states, actions, i, n)
        || !LastSwitch(ContractAt(cat, states, actions, i).effect.graph, n).Untouched?)
  }

  lemma ActivationAtStep(cat: Catalogue, states: seq<Simulation>, actions: seq<ProviderAction>, i: nat, n: NodeId,
                         active: bool)
    requires IsTrace(cat, states, actions) && i < |actions|
    ensures ActivationOf(states[i + 1].evidence, n) == Some(active)
            <==> (|| SwitchedAt(cat, states, actions, i, n, active)
                  || (ActivationOf(states[i].evidence, n) == Some(active) && !UnsettledAt(cat, states, actions, i, n)))
  {
    assert StepsAt(cat, states, actions, i);
    ActivationAfterStep(cat, states[i], actions[i], states[i + 1], n);
  }

  /** Some step before k set the activation so and no later step before k changed or disturbed it. */
  ghost predicate FreshlySwitched(cat: Catalogue, states: seq<Simulation>, actions: seq<ProviderAction>, k: nat,
                                  n: NodeId, active: bool)
    requires IsTrace(cat, states, actions)
  {
    IsUnrevoked((i: nat) => SwitchedAt(cat, states, actions, i, n, active),
                (i: nat) => UnsettledAt(cat, states, actions, i, n), k)
  }

  /** Over every trace an activation is claimed exactly from the effect that set it until it is in doubt. */
  lemma ActivationsAreFresh(cat: Catalogue, states: seq<Simulation>, actions: seq<ProviderAction>, k: nat, n: NodeId,
                            active: bool)
    requires IsTrace(cat, states, actions) && k <= |actions| && n !in states[0].evidence.activations
    ensures ActivationOf(states[k].evidence, n) == Some(active)
            <==> FreshlySwitched(cat, states, actions, k, n, active)
  {
    var held := (i: nat) => i < |states| && ActivationOf(states[i].evidence, n) == Some(active);
    forall i: nat | i < k
      ensures held(i + 1) <==> (|| SwitchedAt(cat, states, actions, i, n, active)
                                || (held(i) && !UnsettledAt(cat, states, actions, i, n)))
    {
      ActivationAtStep(cat, states, actions, i, n, active);
    }
    LatchHistory(held, (i: nat) => SwitchedAt(cat, states, actions, i, n, active),
                 (i: nat) => UnsettledAt(cat, states, actions, i, n), k);
  }
}
