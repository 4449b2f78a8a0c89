/** Candidate passes: binding outputs in context, restarting, and the fixpoint this reaches. */
module ContextualBinding {
  import opened Wrappers
  import opened Dag
  import opened TopologicalSort
  import opened StorageModel
  import opened Prerequisites
  import opened Evidence
  import opened Effects
  import opened Traces
  import opened Requirements
  import opened Fragments
  import Replay

  datatype AnalysedOrder = AnalysedOrder(contracts: map<nat, ActionContract>, checks: map<nat, seq<PrerequisiteCheck>>)

  // ---------------------------------------------------------------------------
  // What one candidate pass has established

  ghost predicate AnalysedAt(cat: Catalogue, draft: seq<DraftAction>, order: seq<nat>, states: seq<Simulation>,
                             trace: AnalysedOrder, i: nat)
  {
    && i < |order| && i + 1 < |states| && order[i] < |draft|
    && Leads(cat, states[i], draft[order[i]].operation, states[i + 1])
    && order[i] in trace.contracts && order[i] in trace.checks
    && trace.contracts[order[i]] == cat.describe(draft[order[i]].operation, states[i].desired.graph)
    && trace.checks[order[i]] == EvaluatePrerequisites(states[i], trace.contracts[order[i]].prerequisites)
    && !AnyViolated(trace.checks[order[i]])
  }

  /** The first k actions of `order` were simulated from `start` and recorded. */
  ghost predicate AnalysedUpTo(cat: Catalogue, start: Simulation, draft: seq<DraftAction>, order: seq<nat>,
                               states: seq<Simulation>, trace: AnalysedOrder, k: nat)
  {
    && k <= |order| && |states| == k + 1 && states[0] == start
    && trace.contracts.Keys == Elements(order[..k]) == trace.checks.Keys
    && forall i: nat :: i < k ==> AnalysedAt(cat, draft, order, states, trace, i)
  }

  /** The whole draft was analysed along the deterministic order of `deps`. */
  ghost predicate Analysed(cat: Catalogue, start: Simulation, draft: seq<DraftAction>, deps: seq<ActionDependency>,
                           order: seq<nat>, states: seq<Simulation>, trace: AnalysedOrder)
  {
    && IsLeastOrder(|draft|, deps, order)
    && AnalysedUpTo(cat, start, draft, order, states, trace, |draft|)
  }

  lemma AnalysedExtend(cat: Catalogue, start: Simulation, draft: seq<DraftAction>, order: seq<nat>,
                       states: seq<Simulation>, trace: AnalysedOrder, k: nat, next: Simulation, report: StepReport)
    requires AnalysedUpTo(cat, start, draft, order, states, trace, k)
    requires k < |order| && Distinct(order) && order[k] < |draft|
    requires Step(cat, states[k], draft[order[k]].operation) == Ok(StepResult(next, report))
    ensures AnalysedUpTo(cat, start, draft, order, states + [next],
      AnalysedOrder(trace.contracts[order[k] := report.contract], trace.checks[order[k] := report.checks]), k + 1)
  {
    var trace' := AnalysedOrder(trace.contracts[order[k] := report.contract], trace.checks[order[k] := report.checks]);
    assert order[..k + 1] == order[..k] + [order[k]];
    assert trace'.contracts.Keys == trace.contracts.Keys + {order[k]};
    assert trace'.checks.Keys == trace.checks.Keys + {order[k]};
    forall i: nat | i < k + 1 ensures AnalysedAt(cat, draft, order, states + [next], trace', i) {
      if i < k {
        assert AnalysedAt(cat, draft, order, states, trace, i);
        AnalysedAtKept(cat, draft, order, states, trace, i, k, next, report);
      }
    }
  }

  /** Recording a later action leaves what was recorded for an earlier one. */
  lemma AnalysedAtKept(cat: Catalogue, draft: seq<DraftAction>, order: seq<nat>, states: seq<Simulation>,
                       trace: AnalysedOrder, i: nat, k: nat, next: Simulation, report: StepReport)
    requires AnalysedAt(cat, draft, order, states, trace, i) && k < |order| && order[i] != order[k]
    ensures AnalysedAt(cat, draft, order, states + [next],
      AnalysedOrder(trace.contracts[order[k] := report.contract], trace.checks[order[k] := report.checks]), i)
  {
  }

  /** A complete analysis covers every action and none of its checks is violated. */
  lemma AnalysedCovers(cat: Catalogue, start: Simulation, draft: seq<DraftAction>, deps: seq<ActionDependency>,
                       order: seq<nat>, states: seq<Simulation>, trace: AnalysedOrder)
    requires Analysed(cat, start, draft, deps, order, states, trace)
    ensures forall a: nat :: a < |draft| <==> a in trace.contracts
    ensures forall a: nat :: a < |draft| ==> a in trace.checks && ChecksMatch(trace.contracts[a], trace.checks[a])
  {
    LeastOrderIsOrder(|draft|, deps, order);
    AnalysedKeys(order, trace, |draft|);
    forall a: nat | a < |draft|
      ensures a in trace.checks && a in trace.contracts && ChecksMatch(trace.contracts[a], trace.checks[a])
    {
      var i := PositionOf(|draft|, order, a);
      AnalysedActionMatches(cat, start, draft, order, states, trace, i);
    }
  }

  lemma AnalysedKeys(order: seq<nat>, trace: AnalysedOrder, n: nat)
    requires IsPermutation(n, order) && trace.contracts.Keys == Elements(order[..n])
    ensures forall a: nat :: a < n <==> a in trace.contracts
  {
    PermutationCovers(n, order);
    assert order[..n] == order;
  }

  lemma AnalysedActionMatches(cat: Catalogue, start: Simulation, draft: seq<DraftAction>,
                              order: seq<nat>, states: seq<Simulation>, trace: AnalysedOrder, i: nat)
    requires AnalysedUpTo(cat, start, draft, order, states, trace, |draft|) && i < |draft|
    ensures order[i] in trace.contracts && order[i] in trace.checks
    ensures ChecksMatch(trace.contracts[order[i]], trace.checks[order[i]])
  {
    assert AnalysedAt(cat, draft, order, states, trace, i);
  }

  /** One unviolated check per prerequisite of the contract, in order. */
  predicate ChecksMatch(contract: ActionContract, checks: seq<PrerequisiteCheck>) {
    && |checks| == |contract.prerequisites|
    && !AnyViolated(checks)
    && forall i :: 0 <= i < |checks| ==> checks[i].prerequisite == contract.prerequisites[i]
  }

  // ---------------------------------------------------------------------------
  // Contextual binding and restarts

  /** Described in some graph, the action's contract outputs what the condition asks for. */
  ghost predicate CanSupply(cat: Catalogue, operation: ProviderAction, prerequisite: ActionPrerequisite) {
    exists graph: NodeGraph :: Supplies(cat.describe(operation, graph), prerequisite)
  }

  /** The edge runs from a supplier to the action that declared the requirement. */
  ghost predicate IsProviderEdge(cat: Catalogue, draft: seq<DraftAction>, requirements: seq<PendingRequirement>,
                                 e: ActionDependency)
  {
    && e.reason.InterfacePreparation? && e.before < |draft|
    && exists i :: 0 <= i < |requirements| && requirements[i].action == e.after
                   && CanSupply(cat, draft[e.before].operation, requirements[i].prerequisite)
  }

  ghost predicate OnlyProviders(cat: Catalogue, draft: seq<DraftAction>, requirements: seq<PendingRequirement>,
                                deps: seq<ActionDependency>, all: seq<ActionDependency>)
  {
    deps <= all && forall i :: |deps| <= i < |all| ==> IsProviderEdge(cat, draft, requirements, all[i])
  }

  /** `all` is `deps` plus one edge from a not yet emitted provider that closes no cycle. */
  ghost predicate IsRebound(n: nat, deps: seq<ActionDependency>, all: seq<ActionDependency>, action: nat,
                            emitted: set<nat>)
  {
    exists provider: nat ::
      && provider < n && provider !in emitted && provider != action
      && !Reach(deps, action, provider)
      && all == WithEdge(deps, provider, action, InterfacePreparation)
  }

  /** The actions still to come, with their contracts in the given graph. */
  ghost function Remaining(cat: Catalogue, draft: seq<DraftAction>, graph: NodeGraph,
                           emitted: set<nat>): map<nat, ActionContract>
  {
    map a: nat | a < |draft| && a !in emitted :: cat.describe(draft[a].operation, graph)
  }

  method ProvidersNotEmitted(cat: Catalogue, graph: NodeGraph, draft: seq<DraftAction>, emitted: set<nat>)
    returns (providers: map<nat, ActionContract>)
    requires IsDense(draft)
    ensures providers == Remaining(cat, draft, graph, emitted)
  {
    providers := map[];
    for i := 0 to |draft|
      invariant forall a: nat :: a in providers <==> a < i && a !in emitted
      invariant forall a: nat :: a in providers ==> providers[a] == cat.describe(draft[a].operation, graph)
    {
      if draft[i].id !in emitted {
        providers := providers[draft[i].id := cat.describe(draft[i].operation, graph)];
      }
    }
  }

  /** The requirement is a condition of action a's contract in state s. */
  ghost predicate IsCondition(cat: Catalogue, draft: seq<DraftAction>, s: Simulation, a: nat, req: PendingRequirement) {
    a < |draft| && req.prerequisite in cat.describe(draft[a].operation, s.desired.graph).prerequisites
  }

  /** Satisfied in its consumer's predecessor state, or beyond the help of any action still to come. */
  ghost predicate NeedsNothing(cat: Catalogue, draft: seq<DraftAction>, s: Simulation, emitted: set<nat>,
                               deps: seq<ActionDependency>, req: PendingRequirement)
  {
    || EvaluatePrerequisite(s, req.prerequisite).Satisfied?
    || forall p: nat :: !IsProvider(req, Remaining(cat, draft, s.desired.graph, emitted), deps, p)
  }

  /** Action a asks for no further edge when it is about to be replayed in state s. */
  ghost predicate IsSettled(cat: Catalogue, draft: seq<DraftAction>, s: Simulation, a: nat, emitted: set<nat>,
                            requirements: seq<PendingRequirement>, deps: seq<ActionDependency>)
  {
    forall i :: 0 <= i < |requirements| && requirements[i].action == a ==>
      IsCondition(cat, draft, s, a, requirements[i]) && NeedsNothing(cat, draft, s, emitted, deps, requirements[i])
  }

  /** Some unsatisfied requirement of action a is answered by p among the actions still to come. */
  ghost predicate IsAnsweredBy(cat: Catalogue, draft: seq<DraftAction>, s: Simulation, a: nat, emitted: set<nat>,
                               requirements: seq<PendingRequirement>, deps: seq<ActionDependency>, answer: Answer)
  {
    exists i :: 0 <= i < |requirements| && requirements[i].action == a
      && !EvaluatePrerequisite(s, requirements[i].prerequisite).Satisfied?
      && IsAnswer(requirements[i], Remaining(cat, draft, s.desired.graph, emitted), deps, answer)
  }

  /** The binding fault that each error names is really there. */
  ghost predicate BindingFails(cat: Catalogue, draft: seq<DraftAction>, s: Simulation, a: nat, emitted: set<nat>,
                               requirements: seq<PendingRequirement>, deps: seq<ActionDependency>,
                               error: CompositionError)
  {
    match error
    case RequirementNotInContract(action) =>
      && action == a
      && exists i :: 0 <= i < |requirements| && requirements[i].action == a
                     && !IsCondition(cat, draft, s, a, requirements[i])
    case AmbiguousRequirement(action) =>
      action == a && IsAnsweredBy(cat, draft, s, a, emitted, requirements, deps, None)
    case _ => false
  }

  /** `all` is `deps` with the edge from the answering provider. */
  ghost predicate BindsAnswer(cat: Catalogue, draft: seq<DraftAction>, s: Simulation, a: nat, emitted: set<nat>,
                              requirements: seq<PendingRequirement>, deps: seq<ActionDependency>,
                              all: seq<ActionDependency>)
  {
    exists p: nat :: IsAnsweredBy(cat, draft, s, a, emitted, requirements, deps, Some(Some(p)))
      && all == WithEdge(deps, p, a, InterfacePreparation)
  }

  /** An answer other than "nobody" belongs to a requirement that still needs something. */
  lemma AnswerMeansNeed(cat: Catalogue, draft: seq<DraftAction>, s: Simulation, emitted: set<nat>,
                        deps: seq<ActionDependency>,
                        req: PendingRequirement, answer: Answer)
    requires IsAnswer(req, Remaining(cat, draft, s.desired.graph, emitted), deps, answer)
    requires !EvaluatePrerequisite(s, req.prerequisite).Satisfied?
    ensures NeedsNothing(cat, draft, s, emitted, deps, req) <==> answer == Some(None)
  {
  }

  /** What binding one owned requirement amounts to. */
  ghost function RequirementBinding(cat: Catalogue, draft: seq<DraftAction>, s: Simulation, a: nat, emitted: set<nat>,
                                    deps: seq<ActionDependency>, req: PendingRequirement)
    : Result<Option<seq<ActionDependency>>, CompositionError>
  {
    if !IsCondition(cat, draft, s, a, req) then Err(RequirementNotInContract(a))
    else if EvaluatePrerequisite(s, req.prerequisite).Satisfied? then Ok(None)
    else
      match Selection(req, Remaining(cat, draft, s.desired.graph, emitted), deps)
      case None => Err(AmbiguousRequirement(a))
      case Some(None) => Ok(None)
      case Some(Some(p)) => Ok(Some(WithEdge(deps, p, a, InterfacePreparation)))
  }

  /** The first owned requirement from i on that asks for something decides. */
  ghost function BindingFrom(cat: Catalogue, draft: seq<DraftAction>, s: Simulation, a: nat, emitted: set<nat>,
                             requirements: seq<PendingRequirement>, deps: seq<ActionDependency>, i: nat)
    : Result<Option<seq<ActionDependency>>, CompositionError>
    requires i <= |requirements|
    decreases |requirements| - i
  {
    if i == |requirements| then Ok(None)
    else if requirements[i].action != a then BindingFrom(cat, draft, s, a, emitted, requirements, deps, i + 1)
    else
      var bound := RequirementBinding(cat, draft, s, a, emitted, deps, requirements[i]);
      if bound == Ok(None) then BindingFrom(cat, draft, s, a, emitted, requirements, deps, i + 1) else bound
  }

  /** The edge of an answering provider is a binding, a restart and a provider edge. */
  lemma AnswerBinds(cat: Catalogue, draft: seq<DraftAction>, s: Simulation, emitted: set<nat>,
                    requirements: seq<PendingRequirement>, i: nat, deps: seq<ActionDependency>, p: nat)
    requires i < |requirements| && requirements[i].action < |draft|
    requires !EvaluatePrerequisite(s, requirements[i].prerequisite).Satisfied?
    requires IsAnswer(requirements[i], Remaining(cat, draft, s.desired.graph, emitted), deps, Some(Some(p)))
    requires IsProvider(requirements[i], Remaining(cat, draft, s.desired.graph, emitted), deps, p)
    ensures var a := requirements[i].action;
      var all := WithEdge(deps, p, a, InterfacePreparation);
      && IsRebound(|draft|, deps, all, a, emitted)
      && BindsAnswer(cat, draft, s, a, emitted, requirements, deps, all)
      && OnlyProviders(cat, draft, requirements, deps, all)
  {
    var a := requirements[i].action;
    assert CanSupply(cat, draft[p].operation, requirements[i].prerequisite);
    assert IsAnsweredBy(cat, draft, s, a, emitted, requirements, deps, Some(Some(p)));
    assert IsProviderEdge(cat, draft, requirements, ActionDependency(p, a, InterfacePreparation));
  }

  /** Decides one owned requirement in the consumer's state. */
  method BindRequirement(cat: Catalogue, s: Simulation, action: DraftAction, draft: seq<DraftAction>,
                         ghost emitted: set<nat>,
                         requirements: seq<PendingRequirement>, i: nat, providers: map<nat, ActionContract>,
                         deps: seq<ActionDependency>)
    returns (r: Result<Option<seq<ActionDependency>>, CompositionError>)
    requires IsDense(draft) && action in draft && i < |requirements| && requirements[i].action == action.id
    requires providers == Remaining(cat, draft, s.desired.graph, emitted)
    ensures r == Ok(None) <==>
      IsCondition(cat, draft, s, action.id, requirements[i])
          && NeedsNothing(cat, draft, s, emitted, deps, requirements[i])
    ensures r.Ok? && r.value.Some? ==>
      && IsRebound(|draft|, deps, r.value.value, action.id, emitted)
      && BindsAnswer(cat, draft, s, action.id, emitted, requirements, deps, r.value.value)
      && OnlyProviders(cat, draft, requirements, deps, r.value.value)
    ensures r.Err? ==> BindingFails(cat, draft, s, action.id, emitted, requirements, deps, r.error)
    ensures Acyclic(deps) ==> r == RequirementBinding(cat, draft, s, action.id, emitted, deps, requirements[i])
  {
    var requirement := requirements[i];
    if requirement.prerequisite !in cat.describe(action.operation, s.desired.graph).prerequisites {
      assert !IsCondition(cat, draft, s, action.id, requirements[i]);
      return Err(RequirementNotInContract(action.id));
    }
    if EvaluatePrerequisite(s, requirement.prerequisite).Satisfied? {
      return Ok(None);
    }
    var answer := RequirementProvider(requirement, providers, deps);
    AnswerMeansNeed(cat, draft, s, emitted, deps, requirements[i], answer);
    match answer {
      case None =>
        assert IsAnsweredBy(cat, draft, s, action.id, emitted, requirements, deps, None);
        return Err(AmbiguousRequirement(action.id));
      case Some(None) =>
        return Ok(None);
      case Some(Some(provider)) =>
        AnswerBinds(cat, draft, s, emitted, requirements, i, deps, provider);
        var added := AddDependency(deps, provider, action.id, InterfacePreparation);
        return Ok(Some(added.value));
    }
  }

  /**
   Looks for the first owned requirement that is not satisfied in `s` and has a
   supplier still to come, and orders that supplier before the action.  It has
   nothing to do exactly when every owned requirement is settled.
   */
  method BindContextualOutputs(cat: Catalogue, s: Simulation, action: DraftAction, draft: seq<DraftAction>,
                               emitted: set<nat>,
                               requirements: seq<PendingRequirement>, deps: seq<ActionDependency>)
    returns (r: Result<Option<seq<ActionDependency>>, CompositionError>)
    requires IsDense(draft) && action in draft
    ensures r == Ok(None) <==> IsSettled(cat, draft, s, action.id, emitted, requirements, deps)
    ensures r.Ok? && r.value.Some? ==>
      && IsRebound(|draft|, deps, r.value.value, action.id, emitted)
      && BindsAnswer(cat, draft, s, action.id, emitted, requirements, deps, r.value.value)
      && OnlyProviders(cat, draft, requirements, deps, r.value.value)
    ensures r.Err? ==> BindingFails(cat, draft, s, action.id, emitted, requirements, deps, r.error)
    ensures Acyclic(deps) ==> r == BindingFrom(cat, draft, s, action.id, emitted, requirements, deps, 0)
  {
    var providers := ProvidersNotEmitted(cat, s.desired.graph, draft, emitted);
    for i := 0 to |requirements|
      invariant IsSettled(cat, draft, s, action.id, emitted, requirements[..i], deps)
      invariant Acyclic(deps) ==>
        BindingFrom(cat, draft, s, action.id, emitted, requirements, deps, 0)
        == BindingFrom(cat, draft, s, action.id, emitted, requirements, deps, i)
    {
      assert requirements[..i + 1] == requirements[..i] + [requirements[i]];
      if requirements[i].action == action.id {
        r := BindRequirement(cat, s, action, draft, emitted, requirements, i, providers, deps);
        if r != Ok(None) {
          return;
        }
      }
    }
    assert requirements[..|requirements|] == requirements;
    r := Ok(None);
  }

  datatype Pass = Complete(trace: AnalysedOrder) | Rebound(dependencies: seq<ActionDependency>)

  function StepError(action: nat, error: ActionError): CompositionError {
    match error
    case ValidationFailed => ActionValidation(action)
    case PrerequisitesViolated(checks) => ActionRejected(action, checks)
    case EffectFailed(effect) => EffectRejected(action, effect)
  }

  /** The composer's error names the action and carries over what it was refused for. */
  ghost predicate Reports(a: nat, refusal: ActionError, error: CompositionError) {
    match error
    case ActionValidation(action) => action == a && refusal == ValidationFailed
    case ActionRejected(action, checks) => action == a && refusal == PrerequisitesViolated(checks)
    case EffectRejected(action, effect) => action == a && refusal == EffectFailed(effect)
    case _ => false
  }

  lemma StepErrorReports(a: nat, refusal: ActionError)
    ensures Reports(a, refusal, StepError(a, refusal))
  {
  }

  /** Position k of the pass asks for no further edge. */
  ghost predicate SettledAt(cat: Catalogue, draft: seq<DraftAction>, order: seq<nat>, states: seq<Simulation>,
                            requirements: seq<PendingRequirement>, deps: seq<ActionDependency>, k: nat)
  {
    k < |order| && k < |states| && IsSettled(cat, draft, states[k], order[k], Elements(order[..k]), requirements, deps)
  }

  /** The pass is a fixpoint of contextual binding up to position n. */
  ghost predicate SettledUpTo(cat: Catalogue, draft: seq<DraftAction>, order: seq<nat>, states: seq<Simulation>,
                              requirements: seq<PendingRequirement>, deps: seq<ActionDependency>, n: nat)
  {
    forall k: nat :: k < n ==> SettledAt(cat, draft, order, states, requirements, deps, k)
  }

  lemma SettledExtend(cat: Catalogue, draft: seq<DraftAction>, order: seq<nat>, states: seq<Simulation>,
                      requirements: seq<PendingRequirement>, deps: seq<ActionDependency>, n: nat, next: Simulation)
    requires SettledUpTo(cat, draft, order, states, requirements, deps, n)
    requires SettledAt(cat, draft, order, states, requirements, deps, n)
    ensures SettledUpTo(cat, draft, order, states + [next], requirements, deps, n + 1)
  {
    forall k: nat | k < n + 1 ensures SettledAt(cat, draft, order, states + [next], requirements, deps, k) {
      assert SettledAt(cat, draft, order, states, requirements, deps, k);
    }
  }

  /** After the states replayed so far, the next action cannot be bound or does not step. */
  ghost predicate PassFails(cat: Catalogue, start: Simulation, draft: seq<DraftAction>, order: seq<nat>,
                            states: seq<Simulation>,
                            requirements: seq<PendingRequirement>, deps: seq<ActionDependency>, error: CompositionError)
  {
    && 0 < |states| <= |order| && states[0] == start
    && (forall i :: 0 <= i < |states| - 1 ==>
          order[i] < |draft| && Leads(cat, states[i], draft[order[i]].operation, states[i + 1]))
    && var k := |states| - 1;
    && order[k] < |draft|
    && var step := Step(cat, states[k], draft[order[k]].operation);
    || BindingFails(cat, draft, states[k], order[k], Elements(order[..k]), requirements, deps, error)
    || (step.Err? && Reports(order[k], step.error, error))
  }

  lemma AnalysedSteps(cat: Catalogue, start: Simulation, draft: seq<DraftAction>, order: seq<nat>,
                      states: seq<Simulation>, trace: AnalysedOrder, k: nat)
    requires AnalysedUpTo(cat, start, draft, order, states, trace, k)
    ensures forall i :: 0 <= i < k ==>
      order[i] < |draft| && Leads(cat, states[i], draft[order[i]].operation, states[i + 1])
  {
    forall i: nat | i < k
      ensures order[i] < |draft| && Leads(cat, states[i], draft[order[i]].operation, states[i + 1])
    {
      assert AnalysedAt(cat, draft, order, states, trace, i);
    }
  }

  function Recorded(trace: AnalysedOrder, a: nat, report: StepReport): AnalysedOrder {
    AnalysedOrder(trace.contracts[a := report.contract], trace.checks[a := report.checks])
  }

  /** The rest of a pass from position k on, in state s. */
  ghost function PassFrom(cat: Catalogue, draft: seq<DraftAction>, order: seq<nat>,
                          requirements: seq<PendingRequirement>,
                          deps: seq<ActionDependency>, k: nat, s: Simulation, trace: AnalysedOrder)
    : Result<Pass, CompositionError>
    requires k <= |order| && forall i :: 0 <= i < |order| ==> order[i] < |draft|
    decreases |order| - k
  {
    if k == |order| then Ok(Complete(trace))
    else
      match BindingFrom(cat, draft, s, order[k], trace.contracts.Keys, requirements, deps, 0)
      case Err(error) => Err(error)
      case Ok(Some(all)) => Ok(Rebound(all))
      case Ok(None) =>
        match Step(cat, s, draft[order[k]].operation)
        case Err(error) => Err(StepError(order[k], error))
        case Ok(step) =>
          PassFrom(cat, draft, order, requirements, deps, k + 1, step.next, Recorded(trace, order[k], step.report))
  }

  const NOTHING_RECORDED := AnalysedOrder(map[], map[])

  /** Replays one candidate order until it completes, fails, or has to be restarted. */
  method SimulatePass(cat: Catalogue, start: Simulation, draft: seq<DraftAction>, order: seq<nat>,
                      requirements: seq<PendingRequirement>, deps: seq<ActionDependency>)
    returns (r: Result<Pass, CompositionError>, ghost states: seq<Simulation>)
    requires IsDense(draft) && IsOrder(|draft|, deps, order)
    ensures r.Ok? && r.value.Complete? ==> AnalysedUpTo(cat, start, draft, order, states, r.value.trace, |draft|)
    ensures r.Ok? && r.value.Complete? ==> SettledUpTo(cat, draft, order, states, requirements, deps, |draft|)
    ensures r.Ok? && r.value.Rebound? ==>
      exists k: nat :: k < |order| && IsRebound(|draft|, deps, r.value.dependencies, order[k], Elements(order[..k]))
    ensures r.Ok? && r.value.Rebound? ==> OnlyProviders(cat, draft, requirements, deps, r.value.dependencies)
    ensures requirements == [] && r.Ok? ==> r.value.Complete?
    ensures r.Err? ==> PassFails(cat, start, draft, order, states, requirements, deps, r.error)
    ensures r.Ok? && r.value.Rebound? ==>
      && 0 < |states| <= |order|
      && var k := |states| - 1;
      BindsAnswer(cat, draft, states[k], order[k], Elements(order[..k]), requirements, deps, r.value.dependencies)
    ensures Acyclic(deps) ==> r == PassFrom(cat, draft, order, requirements, deps, 0, start, NOTHING_RECORDED)
  {
    var projection := new Projection(start);
    states := [start];
    var contracts: map<nat, ActionContract> := map[];
    var checks: map<nat, seq<PrerequisiteCheck>> := map[];
    for k := 0 to |order|
      invariant fresh(projection)
      invariant AnalysedUpTo(cat, start, draft, order, states, AnalysedOrder(contracts, checks), k)
      invariant SettledUpTo(cat, draft, order, states, requirements, deps, k)
      invariant projection.State() == states[k]
      invariant Acyclic(deps) ==>
        PassFrom(cat, draft, order, requirements, deps, 0, start, NOTHING_RECORDED)
        == PassFrom(cat, draft, order, requirements, deps, k, states[k], AnalysedOrder(contracts, checks))
    {
      var action := draft[order[k]];
      AnalysedSteps(cat, start, draft, order, states, AnalysedOrder(contracts, checks), k);
      assert contracts.Keys == Elements(order[..k]);
      var bound := BindContextualOutputs(cat, Simulation(projection.desired, projection.evidence), action, draft,
                                         contracts.Keys, requirements, deps);
      if bound.Err? {
        return Err(bound.error), states;
      }
      if bound.value.Some? {
        return Ok(Rebound(bound.value.value)), states;
      }
      var result := projection.SimulateAction(cat, action.operation);
      if result.Err? {
        StepErrorReports(order[k], result.error);
        return Err(StepError(order[k], result.error)), states;
      }
      AnalysedExtend(cat, start, draft, order, states, AnalysedOrder(contracts, checks), k, projection.State(),
                     result.value);
      SettledExtend(cat, draft, order, states, requirements, deps, k, projection.State());
      states := states + [projection.State()];
      contracts := contracts[order[k] := result.value.contract];
      checks := checks[order[k] := result.value.checks];
    }
    r := Ok(Complete(AnalysedOrder(contracts, checks)));
  }

  ghost function AllPairs(n: nat): set<(nat, nat)> {
    set a, b | a in Range(n) && b in Range(n) :: (a, b)
  }

  /** Ordered pairs of actions that no edge connects yet. */
  ghost function MissingPairs(n: nat, deps: seq<ActionDependency>): set<(nat, nat)> {
    set p | p in AllPairs(n) && !HasEdge(deps, p.0, p.1)
  }

  lemma NewEdgeUsesPair(n: nat, deps: seq<ActionDependency>, edge: ActionDependency)
    requires edge.before < n && edge.after < n && !HasEdge(deps, edge.before, edge.after)
    ensures |MissingPairs(n, deps + [edge])| < |MissingPairs(n, deps)|
  {
    var pair := (edge.before, edge.after);
    AppendCovers(deps, edge);
    assert pair in AllPairs(n) by { assert pair.0 in Range(n) && pair.1 in Range(n); }
    assert pair in MissingPairs(n, deps) && pair !in MissingPairs(n, deps + [edge]);
    forall p | p in MissingPairs(n, deps + [edge]) ensures p in MissingPairs(n, deps) {
      AppendEdges(deps, edge, p.0, p.1);
    }
    ProperSubsetCardinality(MissingPairs(n, deps + [edge]), MissingPairs(n, deps));
  }

  /** No edge leads from an action outside a topological prefix to the next entry. */
  lemma UnemittedHasNoEdge(n: nat, deps: seq<ActionDependency>, order: seq<nat>, k: nat, provider: nat)
    requires IsOrder(n, deps, order) && k < n && provider < n && provider !in Elements(order[..k])
    ensures !HasEdge(deps, provider, order[k])
  {
    PermutationCovers(n, order);
    assert provider in order;
    var p :| 0 <= p < n && order[p] == provider;
    var emitted := order[..k];
    assert forall i :: 0 <= i < k ==> emitted[i] == order[i];
  }

  /** A restart adds a genuinely new edge, so it consumes one missing pair, and keeps the plan acyclic. */
  lemma RestartProgress(n: nat, deps: seq<ActionDependency>, order: seq<nat>, k: nat, all: seq<ActionDependency>)
    requires InRange(n, deps) && IsOrder(n, deps, order) && Acyclic(deps) && k < n
    requires IsRebound(n, deps, all, order[k], Elements(order[..k]))
    ensures InRange(n, all) && Acyclic(all) && Covers(all, deps) && |all| == |deps| + 1
    ensures |MissingPairs(n, all)| < |MissingPairs(n, deps)|
  {
    var action := order[k];
    var provider: nat :|
      && provider < n && provider !in Elements(order[..k]) && provider != action
      && !Reach(deps, action, provider)
      && all == WithEdge(deps, provider, action, InterfacePreparation);
    UnemittedHasNoEdge(n, deps, order, k, provider);
    var edge := ActionDependency(provider, action, InterfacePreparation);
    NewEdgeUsesPair(n, deps, edge);
    AcyclicAppend(deps, edge);
    AppendCovers(deps, edge);
  }

  lemma ProvidersOnProviders(cat: Catalogue, draft: seq<DraftAction>, requirements: seq<PendingRequirement>,
                             deps: seq<ActionDependency>, some: seq<ActionDependency>, all: seq<ActionDependency>)
    requires OnlyProviders(cat, draft, requirements, deps, some) && OnlyProviders(cat, draft, requirements, some, all)
    ensures OnlyProviders(cat, draft, requirements, deps, all)
  {
    forall i | |deps| <= i < |all| ensures IsProviderEdge(cat, draft, requirements, all[i]) {
      if i < |some| {
        assert all[i] == some[i];
      }
    }
  }

  /** What trying one candidate amounts to. */
  ghost function TryResult(cat: Catalogue, current: CurrentState, capacity: seq<CapacityEvidence>,
                           draft: seq<DraftAction>, requirements: seq<PendingRequirement>, all: seq<ActionDependency>)
    : Result<Pass, CompositionError>
  {
    if !Acyclic(all) then Err(CompositionError.DependencyCycle)
    else if exists d :: IsFirstRepeat(capacity, d) then
      var d :| IsFirstRepeat(capacity, d);
      Err(DuplicateCapacity(d))
    else
      PassFrom(cat, draft, LeastOrder(|draft|, all), requirements, all, 0, Replay.InitialState(current, capacity),
               NOTHING_RECORDED)
  }

  lemma DistinctMeansNoRepeat(capacity: seq<CapacityEvidence>)
    requires DistinctDomains(capacity)
    ensures !exists d :: IsFirstRepeat(capacity, d)
  {
    forall d ensures !IsFirstRepeat(capacity, d) {
    }
  }

  /** One candidate: the deterministic order of the edges, replayed from a new ledger. */
  method TryOrder(cat: Catalogue, current: CurrentState, capacity: seq<CapacityEvidence>, draft: seq<DraftAction>,
                  requirements: seq<PendingRequirement>, all: seq<ActionDependency>)
    returns (r: Result<Pass, CompositionError>, ghost order: seq<nat>, ghost states: seq<Simulation>)
    requires IsDense(draft) && |draft| <= U32_MAX + 1 && InRange(|draft|, all)
    ensures r == Err(CompositionError.DependencyCycle) <==> !Acyclic(all)
    ensures r.Err? && r.error.DuplicateCapacity? ==> IsFirstRepeat(capacity, r.error.domain)
    ensures r.Err? ==>
      || r.error.DependencyCycle? || r.error.DuplicateCapacity?
      || (PassFails(cat, Replay.InitialState(current, capacity), draft, order, states, requirements, all, r.error)
          && IsLeastOrder(|draft|, all, order))
    ensures r.Ok? ==> DistinctDomains(capacity) && IsOrder(|draft|, all, order)
    ensures r == TryResult(cat, current, capacity, draft, requirements, all)
    ensures r.Ok? && r.value.Complete? ==>
      && Analysed(cat, Replay.InitialState(current, capacity), draft, all, order, states, r.value.trace)
      && SettledUpTo(cat, draft, order, states, requirements, all, |draft|)
    ensures r.Ok? && r.value.Rebound? ==>
      && requirements != [] && OnlyProviders(cat, draft, requirements, all, r.value.dependencies)
      && exists k: nat :: k < |order| && IsRebound(|draft|, all, r.value.dependencies, order[k], Elements(order[..k]))
  {
    order, states := [], [];
    var sorted := TopologicalOrder(|draft|, all);
    if sorted.Err? {
      return Err(CompositionError.DependencyCycle), order, states;
    }
    order := sorted.value;
    LeastOrderIsOrder(|draft|, all, order);
    LeastOrderUnique(|draft|, all, order, LeastOrder(|draft|, all));
    var ledger := NewEvidence(capacity);
    if ledger.Err? {
      ghost var d :| IsFirstRepeat(capacity, d)
                     && TryResult(cat, current, capacity, draft, requirements, all) == Err(DuplicateCapacity(d));
      FirstRepeatUnique(capacity, ledger.error, d);
      return Err(DuplicateCapacity(ledger.error)), order, states;
    }
    DistinctMeansNoRepeat(capacity);
    r, states := SimulatePass(cat, Simulation(FromCurrent(current), ledger.value), draft, sorted.value, requirements,
                              all);
  }

  /** The fixpoint of contextual binding reached from the given edges, or the first failure on the way. */
  ghost function Fixpoint(cat: Catalogue, current: CurrentState, capacity: seq<CapacityEvidence>,
                          draft: seq<DraftAction>,
                          requirements: seq<PendingRequirement>, deps: seq<ActionDependency>)
    : Result<(AnalysedOrder, seq<ActionDependency>), CompositionError>
    decreases |MissingPairs(|draft|, deps)|
  {
    match TryResult(cat, current, capacity, draft, requirements, deps)
    case Err(error) => Err(error)
    case Ok(Complete(trace)) => Ok((trace, deps))
    case Ok(Rebound(more)) =>
      if |MissingPairs(|draft|, more)| < |MissingPairs(|draft|, deps)|
      then Fixpoint(cat, current, capacity, draft, requirements, more)
      else Err(CompositionError.DependencyCycle)
  }

  /**
   Repeats `SimulatePass` under growing edges until a pass completes.  The loop
   terminates, since every repetition uses up one unjoined ordered pair, and its
   result is a fixpoint: no position of the completed pass asks for another edge.
   */
  method SimulateOrder(cat: Catalogue, current: CurrentState, capacity: seq<CapacityEvidence>, draft: seq<DraftAction>,
                       requirements: seq<PendingRequirement>, deps: seq<ActionDependency>)
    returns (r: Result<AnalysedOrder, CompositionError>, all: seq<ActionDependency>,
             ghost order: seq<nat>, ghost states: seq<Simulation>, ghost restarts: nat)
    requires IsDense(draft) && |draft| <= U32_MAX + 1 && InRange(|draft|, deps)
    ensures InRange(|draft|, all) && Covers(all, deps) && (Acyclic(deps) ==> Acyclic(all))
    ensures r == Err(CompositionError.DependencyCycle) <==> !Acyclic(deps)
    ensures r.Err? && r.error.DuplicateCapacity? ==> IsFirstRepeat(capacity, r.error.domain)
    ensures r.Err? ==>
      || r.error.DependencyCycle? || r.error.DuplicateCapacity?
      || (PassFails(cat, Replay.InitialState(current, capacity), draft, order, states, requirements, all, r.error)
          && IsLeastOrder(|draft|, all, order))
    ensures r.Ok? ==> DistinctDomains(capacity)
                      && Analysed(cat, Replay.InitialState(current, capacity), draft, all, order, states, r.value)
    ensures r.Ok? ==> SettledUpTo(cat, draft, order, states, requirements, all, |draft|)
    ensures OnlyProviders(cat, draft, requirements, deps, all)
    ensures Fixpoint(cat, current, capacity, draft, requirements, deps)
            == if r.Ok? then Ok((r.value, all)) else Err(r.error)
    ensures requirements == [] ==> all == deps
    ensures |all| == |deps| + restarts && restarts <= |MissingPairs(|draft|, deps)|
  {
    all := deps;
    restarts := 0;
    states := [];
    order := [];
    while true
      invariant InRange(|draft|, all) && Covers(all, deps) && (Acyclic(deps) ==> Acyclic(all))
      invariant OnlyProviders(cat, draft, requirements, deps, all)
      invariant !Acyclic(deps) ==> all == deps
      invariant Fixpoint(cat, current, capacity, draft, requirements, deps)
                == Fixpoint(cat, current, capacity, draft, requirements, all)
      invariant requirements == [] ==> all == deps
      invariant |all| == |deps| + restarts && restarts + |MissingPairs(|draft|, all)| <= |MissingPairs(|draft|, deps)|
      decreases |MissingPairs(|draft|, all)|
    {
      var pass;
      pass, order, states := TryOrder(cat, current, capacity, draft, requirements, all);
      match pass {
        case Err(error) => return Err(error), all, order, states, restarts;
        case Ok(Complete(trace)) => return Ok(trace), all, order, states, restarts;
        case Ok(Rebound(dependencies)) =>
          ghost var k: nat :| k < |order| && IsRebound(|draft|, all, dependencies, order[k], Elements(order[..k]));
          RestartProgress(|draft|, all, order, k, dependencies);
          ProvidersOnProviders(cat, draft, requirements, deps, all, dependencies);
          all := dependencies;
          restarts := restarts + 1;
      }
    }
  }
}
