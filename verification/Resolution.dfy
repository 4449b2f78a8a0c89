/** Requirements after a completed trace: declaration, providers and the edges they add. */
module Resolution {
  import opened Wrappers
  import opened Dag
  import opened StorageModel
  import opened Prerequisites
  import opened Requirements
  import opened Fragments
  import opened ContextualBinding

  ghost predicate RequirementsDeclared(requirements: seq<PendingRequirement>, contracts: map<nat, ActionContract>) {
    forall i :: 0 <= i < |requirements| ==>
      requirements[i].action in contracts
          && requirements[i].prerequisite in contracts[requirements[i].action].prerequisites
  }

  ghost predicate IsUndeclared(requirements: seq<PendingRequirement>, contracts: map<nat, ActionContract>, a: nat) {
    a in contracts && exists i :: 0 <= i < |requirements| && requirements[i].action == a
                                  && requirements[i].prerequisite !in contracts[a].prerequisites
  }

  /** The first requirement from i on without contract or outside its contract. */
  function UndeclaredFrom(requirements: seq<PendingRequirement>, contracts: map<nat, ActionContract>, i: nat)
    : Option<CompositionError>
    requires i <= |requirements|
    decreases |requirements| - i
  {
    if i == |requirements| then None
    else if requirements[i].action !in contracts then Some(MissingAnalysedContract(requirements[i].action))
    else if requirements[i].prerequisite !in contracts[requirements[i].action].prerequisites
    then Some(RequirementNotInContract(requirements[i].action))
    else UndeclaredFrom(requirements, contracts, i + 1)
  }

  method ValidateDeclaredRequirements(requirements: seq<PendingRequirement>, contracts: map<nat, ActionContract>)
    returns (r: Option<CompositionError>)
    ensures r == UndeclaredFrom(requirements, contracts, 0)
    ensures r.None? <==> RequirementsDeclared(requirements, contracts)
    ensures r.Some? ==> r.value.MissingAnalysedContract? || r.value.RequirementNotInContract?
    ensures r.Some? && r.value.RequirementNotInContract? ==> IsUndeclared(requirements, contracts, r.value.action)
    ensures (forall i :: 0 <= i < |requirements| ==> requirements[i].action in contracts) && r.Some? ==>
      r.value.RequirementNotInContract?
  {
    for i := 0 to |requirements|
      invariant RequirementsDeclared(requirements[..i], contracts)
      invariant UndeclaredFrom(requirements, contracts, 0) == UndeclaredFrom(requirements, contracts, i)
    {
      if requirements[i].action !in contracts {
        return Some(MissingAnalysedContract(requirements[i].action));
      }
      if requirements[i].prerequisite !in contracts[requirements[i].action].prerequisites {
        return Some(RequirementNotInContract(requirements[i].action));
      }
    }
    assert requirements[..|requirements|] == requirements;
    r := None;
  }

  function FirstCheck(prerequisite: ActionPrerequisite, checks: seq<PrerequisiteCheck>): Option<PrerequisiteCheck> {
    if checks == [] then None
    else if checks[0].prerequisite == prerequisite then Some(checks[0])
    else FirstCheck(prerequisite, checks[1..])
  }

  method FindCheck(prerequisite: ActionPrerequisite, checks: seq<PrerequisiteCheck>)
    returns (r: Option<PrerequisiteCheck>)
    ensures r == FirstCheck(prerequisite, checks)
    ensures r.Some? ==> r.value in checks && r.value.prerequisite == prerequisite
    ensures r.None? ==> forall i :: 0 <= i < |checks| ==> checks[i].prerequisite != prerequisite
  {
    for i := 0 to |checks|
      invariant forall j :: 0 <= j < i ==> checks[j].prerequisite != prerequisite
      invariant FirstCheck(prerequisite, checks) == FirstCheck(prerequisite, checks[i..])
    {
      assert checks[i..][1..] == checks[i + 1..];
      if checks[i].prerequisite == prerequisite {
        return Some(checks[i]);
      }
    }
    r := None;
  }

  lemma DeclaredHasCheck(prerequisite: ActionPrerequisite, contract: ActionContract, checks: seq<PrerequisiteCheck>)
    requires prerequisite in contract.prerequisites && ChecksMatch(contract, checks)
    ensures exists i :: 0 <= i < |checks| && checks[i].prerequisite == prerequisite
    ensures forall check :: check in checks ==> !check.status.Violated?
  {
    var i :| 0 <= i < |contract.prerequisites| && contract.prerequisites[i] == prerequisite;
    assert checks[i].prerequisite == prerequisite;
  }

  /** Every recorded contract describes its action in some predecessor state. */
  ghost predicate Describes(cat: Catalogue, draft: seq<DraftAction>, contracts: map<nat, ActionContract>) {
    forall a: nat :: a in contracts ==> a < |draft| && IsDescription(cat, draft[a].operation, contracts[a])
  }

  ghost predicate IsDescription(cat: Catalogue, operation: ProviderAction, contract: ActionContract) {
    exists graph: NodeGraph :: contract == cat.describe(operation, graph)
  }

  lemma AnalysedDescribes(cat: Catalogue, start: Simulation, draft: seq<DraftAction>, order: seq<nat>,
                          states: seq<Simulation>, trace: AnalysedOrder)
    requires AnalysedUpTo(cat, start, draft, order, states, trace, |draft|)
    ensures Describes(cat, draft, trace.contracts)
  {
    forall a: nat | a in trace.contracts
      ensures a < |draft| && IsDescription(cat, draft[a].operation, trace.contracts[a])
    {
      assert a in order[..|draft|];
      var i: nat :| i < |draft| && order[i] == a;
      assert AnalysedAt(cat, draft, order, states, trace, i);
    }
  }

  lemma DescribedSupplies(cat: Catalogue, draft: seq<DraftAction>, contracts: map<nat, ActionContract>, a: nat,
                          prerequisite: ActionPrerequisite)
    requires Describes(cat, draft, contracts) && a in contracts && Supplies(contracts[a], prerequisite)
    ensures a < |draft| && CanSupply(cat, draft[a].operation, prerequisite)
  {
    assert IsDescription(cat, draft[a].operation, contracts[a]);
    var graph: NodeGraph :| contracts[a] == cat.describe(draft[a].operation, graph);
    assert Supplies(cat.describe(draft[a].operation, graph), prerequisite);
  }

  /** Observed already, supplied by a direct predecessor, or without any eligible supplier. */
  ghost predicate IsResolved(req: PendingRequirement, trace: AnalysedOrder, deps: seq<ActionDependency>) {
    || (req.action in trace.checks
          && PrerequisiteCheck(req.prerequisite, Satisfied(ObservedSnapshot)) in trace.checks[req.action])
    || HasSupplier(req, trace.contracts, deps)
    || forall a: nat :: !IsProvider(req, trace.contracts, deps, a)
  }

  ghost predicate HasSupplier(req: PendingRequirement, contracts: map<nat, ActionContract>,
                              deps: seq<ActionDependency>)
  {
    exists a: nat :: a in contracts && Supplies(contracts[a], req.prerequisite) && HasEdge(deps, a, req.action)
  }

  /** Further edges neither remove a supplier nor make another action eligible. */
  lemma ResolvedCovers(req: PendingRequirement, trace: AnalysedOrder, big: seq<ActionDependency>,
                       small: seq<ActionDependency>)
    requires Covers(big, small) && IsResolved(req, trace, small)
    ensures IsResolved(req, trace, big)
  {
    if HasSupplier(req, trace.contracts, small) {
      var a: nat :| a in trace.contracts && Supplies(trace.contracts[a], req.prerequisite)
          && HasEdge(small, a, req.action);
      assert HasEdge(big, a, req.action);
    } else if forall a: nat :: !IsProvider(req, trace.contracts, small, a) {
      forall a: nat ensures !IsProvider(req, trace.contracts, big, a) {
        assert !IsProvider(req, trace.contracts, small, a);
        if Reach(small, req.action, a) {
          ReachCovers(big, small, req.action, a);
        }
      }
    }
  }

  ghost predicate AllResolved(requirements: seq<PendingRequirement>, trace: AnalysedOrder,
                              deps: seq<ActionDependency>)
  {
    forall i :: 0 <= i < |requirements| ==> IsResolved(requirements[i], trace, deps)
  }

  lemma AllResolvedCovers(requirements: seq<PendingRequirement>, trace: AnalysedOrder, big: seq<ActionDependency>,
                          small: seq<ActionDependency>)
    requires Covers(big, small) && AllResolved(requirements, trace, small)
    ensures AllResolved(requirements, trace, big)
  {
    forall i | 0 <= i < |requirements| ensures IsResolved(requirements[i], trace, big) {
      ResolvedCovers(requirements[i], trace, big, small);
    }
  }

  /** What resolving one requirement after the trace amounts to. */
  ghost function RequirementResolution(req: PendingRequirement, trace: AnalysedOrder, deps: seq<ActionDependency>)
    : Result<seq<ActionDependency>, CompositionError>
  {
    if req.action !in trace.checks then Err(MissingRequirementCheck(req.action))
    else
      match FirstCheck(req.prerequisite, trace.checks[req.action])
      case None => Err(MissingRequirementCheck(req.action))
      case Some(check) =>
        if check.status == Satisfied(ObservedSnapshot) then Ok(deps)
        else
          match Selection(req, trace.contracts, deps)
          case None => Err(AmbiguousRequirement(req.action))
          case Some(None) => if check.status.Violated? then Err(UnresolvedRequirement(req.action)) else Ok(deps)
          case Some(Some(p)) => Ok(WithEdge(deps, p, req.action, InterfacePreparation))
  }

  /** Resolution of the requirements from i on, one after the other. */
  ghost function ResolutionFrom(requirements: seq<PendingRequirement>, trace: AnalysedOrder,
                                deps: seq<ActionDependency>,
                                i: nat)
    : Result<seq<ActionDependency>, CompositionError>
    requires i <= |requirements|
    decreases |requirements| - i
  {
    if i == |requirements| then Ok(deps)
    else
      match RequirementResolution(requirements[i], trace, deps)
      case Err(error) => Err(error)
      case Ok(all) => ResolutionFrom(requirements, trace, all, i + 1)
  }

  /** Resolution of all requirements, once each is declared. */
  ghost function ResolutionResult(requirements: seq<PendingRequirement>, trace: AnalysedOrder,
                                  deps: seq<ActionDependency>)
    : Result<seq<ActionDependency>, CompositionError>
  {
    match UndeclaredFrom(requirements, trace.contracts, 0)
    case Some(error) => Err(error)
    case None => ResolutionFrom(requirements, trace, deps, 0)
  }

  /**
   Decides one requirement: nothing to do, or one edge from its selected provider.
   A complete analysis leaves no requirement unchecked, violated or self-supplied.
   */
  method ResolveRequirement(ghost cat: Catalogue, ghost draft: seq<DraftAction>, requirements: seq<PendingRequirement>,
                            i: nat,
                            trace: AnalysedOrder, deps: seq<ActionDependency>)
    returns (r: Result<seq<ActionDependency>, CompositionError>)
    requires i < |requirements| && InRange(|draft|, deps) && requirements[i].action < |draft|
    requires Describes(cat, draft, trace.contracts)
    requires requirements[i].action in trace.contracts && requirements[i].action in trace.checks
    requires requirements[i].prerequisite in trace.contracts[requirements[i].action].prerequisites
    requires ChecksMatch(trace.contracts[requirements[i].action], trace.checks[requirements[i].action])
    ensures r.Ok? ==> InRange(|draft|, r.value) && Covers(r.value, deps) && (Acyclic(deps) ==> Acyclic(r.value))
    ensures r.Ok? ==>
      OnlyProviders(cat, draft, requirements, deps, r.value) && IsResolved(requirements[i], trace, r.value)
    ensures Acyclic(deps) ==> r == RequirementResolution(requirements[i], trace, deps)
    ensures r.Err? ==> r.error == AmbiguousRequirement(requirements[i].action)
                       && IsAnswer(requirements[i], trace.contracts, deps, None)
  {
    var requirement := requirements[i];
    var check := FindCheck(requirement.prerequisite, trace.checks[requirement.action]);
    DeclaredHasCheck(requirement.prerequisite, trace.contracts[requirement.action], trace.checks[requirement.action]);
    if check.None? {
      assert false;
      return Err(MissingRequirementCheck(requirement.action));
    }
    if check.value.status == Satisfied(ObservedSnapshot) {
      return Ok(deps);
    }
    var answer := RequirementProvider(requirement, trace.contracts, deps);
    match answer {
      case None => return Err(AmbiguousRequirement(requirement.action));
      case Some(None) =>
        if check.value.status.Violated? {
          assert false;
          return Err(UnresolvedRequirement(requirement.action));
        }
        return Ok(deps);
      case Some(Some(provider)) =>
        DescribedSupplies(cat, draft, trace.contracts, provider, requirement.prerequisite);
        var added := AddDependency(deps, provider, requirement.action, InterfacePreparation);
        if Acyclic(deps) {
          AcyclicAppend(deps, ActionDependency(provider, requirement.action, InterfacePreparation));
        }
        assert HasSupplier(requirement, trace.contracts, added.value);
        return Ok(added.value);
    }
  }

  /** The resolution fault that each error names is really there. */
  ghost predicate ResolutionFails(cat: Catalogue, draft: seq<DraftAction>, requirements: seq<PendingRequirement>,
                                  deps: seq<ActionDependency>, contracts: map<nat, ActionContract>,
                                  error: CompositionError)
  {
    match error
    case RequirementNotInContract(a) => IsUndeclared(requirements, contracts, a)
    case AmbiguousRequirement(a) =>
      exists i, edges :: 0 <= i < |requirements| && requirements[i].action == a
          && OnlyProviders(cat, draft, requirements, deps, edges) && IsAnswer(requirements[i], contracts, edges, None)
    case _ => false
  }

  /** Resolves every requirement; only declaration mismatch and ambiguity can fail here. */
  method ResolveRequirements(ghost cat: Catalogue, ghost draft: seq<DraftAction>, requirements: seq<PendingRequirement>,
                             trace: AnalysedOrder, deps: seq<ActionDependency>)
    returns (r: Result<seq<ActionDependency>, CompositionError>)
    requires InRange(|draft|, deps) && Describes(cat, draft, trace.contracts)
    requires forall i :: 0 <= i < |requirements| ==> requirements[i].action < |draft|
    requires forall a: nat :: a < |draft| ==>
      a in trace.contracts && a in trace.checks && ChecksMatch(trace.contracts[a], trace.checks[a])
    ensures r.Ok? ==> InRange(|draft|, r.value) && Covers(r.value, deps) && (Acyclic(deps) ==> Acyclic(r.value))
    ensures r.Ok? ==> OnlyProviders(cat, draft, requirements, deps, r.value)
    ensures r.Ok? ==> AllResolved(requirements, trace, r.value)
    ensures Acyclic(deps) ==> r == ResolutionResult(requirements, trace, deps)
    ensures r.Err? ==> ResolutionFails(cat, draft, requirements, deps, trace.contracts, r.error)
  {
    var invalid := ValidateDeclaredRequirements(requirements, trace.contracts);
    if invalid.Some? {
      return Err(invalid.value);
    }
    var all := deps;
    for i := 0 to |requirements|
      invariant InRange(|draft|, all) && Covers(all, deps) && (Acyclic(deps) ==> Acyclic(all))
      invariant OnlyProviders(cat, draft, requirements, deps, all)
      invariant AllResolved(requirements[..i], trace, all)
      invariant Acyclic(deps) ==>
        ResolutionFrom(requirements, trace, deps, 0) == ResolutionFrom(requirements, trace, all, i)
    {
      var next := ResolveRequirement(cat, draft, requirements, i, trace, all);
      if next.Err? {
        return Err(next.error);
      }
      AllResolvedCovers(requirements[..i], trace, next.value, all);
      assert requirements[..i + 1] == requirements[..i] + [requirements[i]];
      all := next.value;
    }
    assert requirements[..|requirements|] == requirements;
    r := Ok(all);
  }
}
