/** The runtime mount table of a whole trace, read off its mount effects target by target. */
module MountTable {
  import opened Wrappers
  import opened StorageModel
  import opened Prerequisites
  import opened Evidence
  import opened Effects
  import opened Traces

  /** What the last effect on a target left there, if there was one. */
  datatype LastWrite = Untouched | Removed | Entry(entry: MountEntry)

  function LastRuntime(effects: seq<MountEffect>, target: Path, context: MountContext): LastWrite {
    if effects == [] then Untouched
    else
      var earlier := LastRuntime(effects[..|effects| - 1], target, context);
      match effects[|effects| - 1]
      case AddRuntime(entry) => if entry.target == target && entry.context == context then Entry(entry) else earlier
      case RemoveRuntime(t, c) => if t == target && c == context then Removed else earlier
      case _ => earlier
  }

  /** The entry is what its target was last given, or was there from the start and never touched. */
  ghost predicate IsMounted(start: seq<MountEntry>, effects: seq<MountEffect>, entry: MountEntry) {
    match LastRuntime(effects, entry.target, entry.context)
    case Entry(last) => last == entry
    case Removed => false
    case Untouched => entry in start
  }

  predicate ChangesRuntime(effects: seq<MountEffect>) {
    exists i :: 0 <= i < |effects| && (effects[i].AddRuntime? || effects[i].RemoveRuntime?)
  }

  ghost predicate TableAgrees(start: seq<MountEntry>, s: Simulation, effects: seq<MountEffect>) {
    && (forall entry: MountEntry :: entry in s.desired.runtime <==> IsMounted(start, effects, entry))
    && (s.evidence.projectedMounts <==> ChangesRuntime(effects))
  }

  lemma ChangesGrow(effects: seq<MountEffect>, effect: MountEffect)
    ensures ChangesRuntime(effects + [effect])
            <==> ChangesRuntime(effects) || effect.AddRuntime? || effect.RemoveRuntime?
  {
    var all := effects + [effect];
    assert all[|effects|] == effect;
    assert forall i :: 0 <= i < |effects| ==> all[i] == effects[i];
  }

  lemma TableStep(start: seq<MountEntry>, s: Simulation, effects: seq<MountEffect>, effect: MountEffect)
    requires TableAgrees(start, s, effects) && ApplyMount(s, effect).Ok?
    ensures TableAgrees(start, ApplyMount(s, effect).value, effects + [effect])
  {
    var next := ApplyMount(s, effect).value;
    assert (effects + [effect])[..|effects|] == effects;
    ChangesGrow(effects, effect);
    forall entry: MountEntry
      ensures entry in next.desired.runtime <==> IsMounted(start, effects + [effect], entry)
    {
      assert entry in s.desired.runtime <==> IsMounted(start, effects, entry);
    }
  }

  lemma {:induction false} TableSteps(start: seq<MountEntry>, s: Simulation, past: seq<MountEffect>,
                                      effects: seq<MountEffect>)
    requires TableAgrees(start, s, past) && ApplyMounts(s, effects).Ok?
    ensures TableAgrees(start, ApplyMounts(s, effects).value, past + effects)
    decreases |effects|
  {
    if effects == [] {
      assert past + effects == past;
    } else {
      TableStep(start, s, past, effects[0]);
      TableSteps(start, ApplyMount(s, effects[0]).value, past + [effects[0]], effects[1..]);
      assert past + [effects[0]] + effects[1..] == past + effects;
    }
  }

  // ---------------------------------------------------------------------------
  // Whole traces

  /** Every mount effect of the first k steps, in order. */
  ghost function MountHistory(cat: Catalogue, states: seq<Simulation>, actions: seq<ProviderAction>,
                              k: nat): seq<MountEffect>
    requires IsTrace(cat, states, actions) && k <= |actions|
  {
    if k == 0 then []
    else MountHistory(cat, states, actions, k - 1) + ContractAt(cat, states, actions, k - 1).effect.mounts
  }

  /** The parts of a state that runtime mount effects decide. */
  ghost predicate SameMounts(s: Simulation, t: Simulation) {
    s.desired.runtime == t.desired.runtime && s.evidence.projectedMounts == t.evidence.projectedMounts
  }

  lemma {:induction false} GraphsKeepMounts(s: Simulation, effects: seq<GraphEffect>)
    requires ApplyGraphs(s, effects).Ok?
    ensures SameMounts(s, ApplyGraphs(s, effects).value)
    decreases |effects|
  {
    if effects != [] {
      GraphsKeepMounts(ApplyGraph(s, effects[0]).value, effects[1..]);
    }
  }

  lemma {:induction false} AllocationsKeepMounts(evidence: SimulationEvidence, effects: seq<AllocationEffect>)
    requires ApplyAllocations(evidence, effects).Ok?
    ensures ApplyAllocations(evidence, effects).value.projectedMounts == evidence.projectedMounts
    decreases |effects|
  {
    if effects != [] {
      AllocationsKeepMounts(ApplyAllocation(evidence, effects[0]).value, effects[1..]);
    }
  }

  lemma {:induction false} OutputsKeepMounts(evidence: SimulationEvidence, outputs: seq<ActionOutput>)
    ensures OutputsFrom(evidence, outputs).projectedMounts == evidence.projectedMounts
    decreases |outputs|
  {
    if outputs != [] {
      OutputsKeepMounts(ApplyOutput(evidence, outputs[0]), outputs[1..]);
    }
  }

  lemma TableAfterStep(cat: Catalogue, start: seq<MountEntry>, s: Simulation, action: ProviderAction, next: Simulation,
                       past: seq<MountEffect>)
    requires Leads(cat, s, action, next) && TableAgrees(start, s, past)
    ensures TableAgrees(start, next, past + cat.describe(action, s.desired.graph).effect.mounts)
  {
    var contract := cat.describe(action, s.desired.graph);
    var graphed := ApplyGraphs(Invalidated(s, contract), contract.effect.graph).value;
    GraphsKeepMounts(Invalidated(s, contract), contract.effect.graph);
    TableSteps(start, graphed, past, contract.effect.mounts);
    var mounted := ApplyMounts(graphed, contract.effect.mounts).value;
    AllocationsKeepMounts(mounted.evidence, contract.effect.allocations);
    OutputsKeepMounts(Projected(cat, s, contract).value.evidence, contract.outputs);
    assert SameMounts(mounted, next);
  }

  ghost predicate TableAgreesAt(cat: Catalogue, states: seq<Simulation>, actions: seq<ProviderAction>, k: nat)
    requires IsTrace(cat, states, actions) && k <= |actions|
  {
    TableAgrees(states[0].desired.runtime, states[k], MountHistory(cat, states, actions, k))
  }

  lemma TableAdvances(cat: Catalogue, states: seq<Simulation>, actions: seq<ProviderAction>, k: nat)
    requires IsTrace(cat, states, actions) && k < |actions| && TableAgreesAt(cat, states, actions, k)
    ensures TableAgreesAt(cat, states, actions, k + 1)
  {
    assert StepsAt(cat, states, actions, k);
    TableAfterStep(cat, states[0].desired.runtime, states[k], actions[k], states[k + 1],
                   MountHistory(cat, states, actions, k));
  }

  /**
   Along every trace an entry is mounted exactly when the last runtime effect on its
   target and namespace added it, or there was none and it was mounted at the start;
   the table counts as predicted exactly once some runtime effect was applied.
   */
  lemma {:induction false} RuntimeIsLastWrite(cat: Catalogue, states: seq<Simulation>, actions: seq<ProviderAction>,
                                              k: nat)
    requires IsTrace(cat, states, actions) && k <= |actions| && !states[0].evidence.projectedMounts
    ensures TableAgreesAt(cat, states, actions, k)
    decreases k
  {
    if k > 0 {
      var j := k - 1;
      RuntimeIsLastWrite(cat, states, actions, j);
      TableAdvances(cat, states, actions, j);
      assert k == j + 1;
    }
  }

  // ---------------------------------------------------------------------------
  // Which mount effects apply

  /** The entry sits at the target itself. */
  predicate SitsAt(entry: MountEntry, target: Path, context: MountContext) {
    entry.target == target && entry.context == context
  }

  /** The entry's path continues the target by at least one component. */
  predicate HangsBelow(entry: MountEntry, target: Path, context: MountContext) {
    |entry.target| > |target| && entry.target[..|target|] == target && entry.context == context
  }

  /** Why an effect cannot follow the earlier ones, in terms of what they left mounted. */
  ghost function MountFault(start: seq<MountEntry>, past: seq<MountEffect>, effect: MountEffect): Option<EffectError> {
    match effect
    case AddRuntime(entry) =>
      if exists e :: IsMounted(start, past, e) && SitsAt(e, entry.target, entry.context)
      then Some(OccupiedMountTarget(entry.target))
      else if exists e :: IsMounted(start, past, e) && HangsBelow(e, entry.target, entry.context)
      then Some(MountedDescendant(entry.target))
      else None
    case RemoveRuntime(target, context) =>
      if exists e :: IsMounted(start, past, e) && HangsBelow(e, target, context) then Some(MountedDescendant(target))
      else None
    case _ => None
  }

  lemma AtIsSits(runtime: seq<MountEntry>, target: Path, context: MountContext)
    ensures MountAt(runtime, target, context) <==> exists e :: e in runtime && SitsAt(e, target, context)
  {
    if i :| 0 <= i < |runtime| && runtime[i].target == target && runtime[i].context == context {
      assert runtime[i] in runtime && SitsAt(runtime[i], target, context);
    }
  }

  lemma DescendantHangs(runtime: seq<MountEntry>, target: Path, context: MountContext)
    ensures HasMountedDescendant(runtime, target, context)
            <==> exists e :: e in runtime && HangsBelow(e, target, context)
  {
    if i :| 0 <= i < |runtime| && IsBelow(runtime[i], target, context) {
      assert runtime[i].target == target + runtime[i].target[|target|..];
      assert runtime[i] in runtime && HangsBelow(runtime[i], target, context);
    }
    if e :| e in runtime && HangsBelow(e, target, context) {
      assert target <= e.target;
      var i :| 0 <= i < |runtime| && runtime[i] == e;
      assert IsBelow(runtime[i], target, context);
    }
  }

  lemma MountFails(start: seq<MountEntry>, s: Simulation, past: seq<MountEffect>, effect: MountEffect)
    requires TableAgrees(start, s, past)
    ensures match MountFault(start, past, effect)
            case Some(error) => ApplyMount(s, effect) == Err(error)
            case None => ApplyMount(s, effect).Ok?
  {
    var runtime := s.desired.runtime;
    match effect
    case AddRuntime(entry) =>
      AtIsSits(runtime, entry.target, entry.context);
      DescendantHangs(runtime, entry.target, entry.context);
    case RemoveRuntime(target, context) => DescendantHangs(runtime, target, context);
    case _ =>
  }
}
