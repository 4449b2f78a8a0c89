/** From fragments to one draft: dense global identities, local edges and requirements. */
module Fragments {
  import opened Wrappers
  import opened Dag
  import opened StorageModel
  import opened Prerequisites
  import opened Evidence
  import opened Requirements

  datatype LocalAction = LocalAction(id: nat, operation: ProviderAction)

  datatype LocalDependency = LocalDependency(before: nat, after: nat, reason: DependencyReason)

  datatype ExternalRequirement = ExternalRequirement(action: nat, prerequisite: ActionPrerequisite)

  datatype PlanFragment = PlanFragment(
    actions: seq<LocalAction>,
    dependencies: seq<LocalDependency>,
    requirements: seq<ExternalRequirement>,
    hasErrors: bool,
    origin: Option<nat>)

  datatype FragmentActionRef = FragmentActionRef(fragment: nat, action: nat)

  datatype FragmentOrdering = FragmentOrdering(before: FragmentActionRef, after: FragmentActionRef,
                                               reason: DependencyReason)

  datatype DraftAction = DraftAction(id: nat, operation: ProviderAction, fragment: nat, localId: nat,
                                     origin: Option<nat>)

  datatype CompositionError =
    | BaselineStructure
    | PlanTooLarge
    | DuplicateLocalAction(fragment: nat, action: nat)
    | FragmentHasErrors(fragment: nat)
    | UnknownLocalDependency(fragment: nat)
    | UnknownRequirementAction(fragment: nat, action: nat)
    | UnknownOrderingAction(endpoint: FragmentActionRef)
    | PlannedNodeAlreadyExists(node: NodeId)
    | DuplicatePlannedNode(node: NodeId, first: nat, second: nat)
    | UnresolvedInput(action: nat, node: NodeId)
    | SelfDependency(action: nat)
    | DependencyCycle
    | DuplicateCapacity(domain: AllocationDomain)
    | ActionValidation(action: nat)
    | ActionRejected(action: nat, checks: seq<PrerequisiteCheck>)
    | EffectRejected(action: nat, effect: EffectError)
    | RequirementNotInContract(action: nat)
    | AmbiguousRequirement(action: nat)
    | UnresolvedRequirement(action: nat)
    | MissingRequirementCheck(action: nat)
    | MissingAnalysedContract(action: nat)
    | AmbiguousResourceOrder(first: nat, second: nat, resource: ActionResource)

  // ---------------------------------------------------------------------------
  // Identities

  /** Number of actions in the fragments before f. */
  ghost function Offset(fragments: seq<PlanFragment>, f: nat): nat
    requires f <= |fragments|
  {
    if f == 0 then 0 else Offset(fragments, f - 1) + |fragments[f - 1].actions|
  }

  lemma {:induction false} OffsetMonotone(fragments: seq<PlanFragment>, f: nat, g: nat)
    requires f <= g <= |fragments|
    ensures Offset(fragments, f) <= Offset(fragments, g)
    decreases g
  {
    if f < g {
      OffsetMonotone(fragments, f, g - 1);
    }
  }

  ghost predicate IsLocal(fragments: seq<PlanFragment>, f: nat, k: nat) {
    f < |fragments| && k < |fragments[f].actions|
  }

  ghost function LocalRef(fragments: seq<PlanFragment>, f: nat, k: nat): FragmentActionRef
    requires IsLocal(fragments, f, k)
  {
    FragmentActionRef(f, fragments[f].actions[k].id)
  }

  /** The reference names an action before fragment f, or among the first k of it. */
  ghost predicate IsNumbered(fragments: seq<PlanFragment>, ref: FragmentActionRef, f: nat, k: nat) {
    exists m: nat :: IsLocal(fragments, ref.fragment, m) && LocalRef(fragments, ref.fragment, m) == ref
                     && (ref.fragment < f || (ref.fragment == f && m < k))
  }

  /** The first k actions of fragment f and everything before are numbered by position. */
  ghost predicate NumbersUpTo(fragments: seq<PlanFragment>, ids: map<FragmentActionRef, nat>, f: nat, k: nat)
    requires f <= |fragments|
  {
    && (forall g: nat, m: nat :: IsLocal(fragments, g, m) && (g < f || (g == f && m < k)) ==>
          LocalRef(fragments, g, m) in ids && ids[LocalRef(fragments, g, m)] == Offset(fragments, g) + m)
    && (forall ref {:trigger IsNumbered(fragments, ref, f, k)} :: ref in ids ==> IsNumbered(fragments, ref, f, k))
  }

  /** Every action's identity is its position in the concatenated fragments. */
  ghost predicate Numbers(fragments: seq<PlanFragment>, ids: map<FragmentActionRef, nat>) {
    NumbersUpTo(fragments, ids, |fragments|, 0)
  }

  ghost predicate HasDuplicate(fragments: seq<PlanFragment>, f: nat, action: nat) {
    exists k: nat, m: nat :: k < m && IsLocal(fragments, f, m)
      && fragments[f].actions[k].id == action && fragments[f].actions[m].id == action
  }

  /** Fragments or actions outnumber the 32-bit identities. */
  ghost predicate IsTooLarge(fragments: seq<PlanFragment>) {
    |fragments| > U32_MAX + 1 || Offset(fragments, |fragments|) > U32_MAX + 1
  }

  lemma NumberOne(fragments: seq<PlanFragment>, ids: map<FragmentActionRef, nat>, f: nat, k: nat)
    requires IsLocal(fragments, f, k) && NumbersUpTo(fragments, ids, f, k)
    requires LocalRef(fragments, f, k) !in ids
    ensures NumbersUpTo(fragments, ids[LocalRef(fragments, f, k) := Offset(fragments, f) + k], f, k + 1)
  {
    var ref := LocalRef(fragments, f, k);
    var ids' := ids[ref := Offset(fragments, f) + k];
    forall other | other in ids' ensures IsNumbered(fragments, other, f, k + 1) {
      if other == ref {
        assert IsLocal(fragments, other.fragment, k) && LocalRef(fragments, other.fragment, k) == other;
      } else {
        assert IsNumbered(fragments, other, f, k);
        var m: nat :| IsLocal(fragments, other.fragment, m) && LocalRef(fragments, other.fragment, m) == other
          && (other.fragment < f || (other.fragment == f && m < k));
      }
    }
  }

  /** Numbering of the actions of fragment f from position k on. */
  function FragmentNumbering(fragment: PlanFragment, f: nat, k: nat, ids: map<FragmentActionRef, nat>)
    : Result<map<FragmentActionRef, nat>, CompositionError>
    requires k <= |fragment.actions|
    decreases |fragment.actions| - k
  {
    if k == |fragment.actions| then Ok(ids)
    else if |ids| > U32_MAX then Err(PlanTooLarge)
    else
      var ref := FragmentActionRef(f, fragment.actions[k].id);
      if ref in ids then Err(DuplicateLocalAction(f, ref.action))
      else FragmentNumbering(fragment, f, k + 1, ids[ref := |ids|])
  }

  /** Numbering of the fragments from f on. */
  function NumberingFrom(fragments: seq<PlanFragment>, f: nat, ids: map<FragmentActionRef, nat>)
    : Result<map<FragmentActionRef, nat>, CompositionError>
    requires f <= |fragments|
    decreases |fragments| - f
  {
    if f == |fragments| then Ok(ids)
    else if f > U32_MAX then Err(PlanTooLarge)
    else
      match FragmentNumbering(fragments[f], f, 0, ids)
      case Err(error) => Err(error)
      case Ok(more) => NumberingFrom(fragments, f + 1, more)
  }

  lemma RepeatedRef(fragments: seq<PlanFragment>, ids: map<FragmentActionRef, nat>, f: nat, k: nat)
    requires IsLocal(fragments, f, k) && NumbersUpTo(fragments, ids, f, k) && LocalRef(fragments, f, k) in ids
    ensures HasDuplicate(fragments, f, fragments[f].actions[k].id)
  {
    var ref := LocalRef(fragments, f, k);
    assert IsNumbered(fragments, ref, f, k);
    var m: nat :| IsLocal(fragments, f, m) && LocalRef(fragments, f, m) == ref && m < k;
    assert fragments[f].actions[m].id == fragments[f].actions[k].id;
  }

  /** What a numbering of everything before fragment f gives, or why it fails. */
  ghost predicate NumberingHolds(fragments: seq<PlanFragment>, f: nat,
                                 r: Result<map<FragmentActionRef, nat>, CompositionError>)
    requires f <= |fragments|
  {
    match r
    case Ok(ids) => NumbersUpTo(fragments, ids, f, 0) && |ids| == Offset(fragments, f) <= U32_MAX + 1
    case Err(DuplicateLocalAction(g, action)) => HasDuplicate(fragments, g, action)
    case Err(error) => error.PlanTooLarge? && IsTooLarge(fragments)
  }

  lemma NumberNext(fragments: seq<PlanFragment>, f: nat, k: nat, ids: map<FragmentActionRef, nat>)
    requires IsLocal(fragments, f, k) && NumbersUpTo(fragments, ids, f, k) && LocalRef(fragments, f, k) !in ids
    requires |ids| == Offset(fragments, f) + k <= U32_MAX
    ensures var more := ids[LocalRef(fragments, f, k) := |ids|];
      && NumbersUpTo(fragments, more, f, k + 1) && |more| == |ids| + 1
      && FragmentNumbering(fragments[f], f, k, ids) == FragmentNumbering(fragments[f], f, k + 1, more)
  {
    NumberOne(fragments, ids, f, k);
    var more := ids[LocalRef(fragments, f, k) := |ids|];
    assert more.Keys == ids.Keys + {LocalRef(fragments, f, k)};
    assert |more| == |more.Keys| && |ids| == |ids.Keys|;
  }

  lemma {:induction false} FragmentNumberingHolds(fragments: seq<PlanFragment>, f: nat, k: nat,
                                                  ids: map<FragmentActionRef, nat>)
    requires f < |fragments| && k <= |fragments[f].actions| && NumbersUpTo(fragments, ids, f, k)
    requires |ids| == Offset(fragments, f) + k <= U32_MAX + 1
    ensures NumberingHolds(fragments, f + 1, FragmentNumbering(fragments[f], f, k, ids))
    decreases |fragments[f].actions| - k
  {
    if k == |fragments[f].actions| {
      FragmentNumbered(fragments, ids, f);
    } else if |ids| > U32_MAX {
      OffsetMonotone(fragments, f + 1, |fragments|);
    } else if LocalRef(fragments, f, k) in ids {
      RepeatedRef(fragments, ids, f, k);
    } else {
      NumberNext(fragments, f, k, ids);
      FragmentNumberingHolds(fragments, f, k + 1, ids[LocalRef(fragments, f, k) := |ids|]);
    }
  }

  lemma FragmentNumbered(fragments: seq<PlanFragment>, ids: map<FragmentActionRef, nat>, f: nat)
    requires f < |fragments| && NumbersUpTo(fragments, ids, f, |fragments[f].actions|)
    ensures NumbersUpTo(fragments, ids, f + 1, 0)
  {
    forall ref | ref in ids ensures IsNumbered(fragments, ref, f + 1, 0) {
      assert IsNumbered(fragments, ref, f, |fragments[f].actions|);
      var m: nat :| IsLocal(fragments, ref.fragment, m) && LocalRef(fragments, ref.fragment, m) == ref
        && (ref.fragment < f || (ref.fragment == f && m < |fragments[f].actions|));
    }
  }

  lemma {:induction false} AllNumberingHolds(fragments: seq<PlanFragment>, f: nat, ids: map<FragmentActionRef, nat>)
    requires f <= |fragments| && NumberingHolds(fragments, f, Ok(ids))
    ensures NumberingHolds(fragments, |fragments|, NumberingFrom(fragments, f, ids))
    decreases |fragments| - f
  {
    if f < |fragments| && f <= U32_MAX {
      FragmentNumberingHolds(fragments, f, 0, ids);
      var more := FragmentNumbering(fragments[f], f, 0, ids);
      if more.Ok? {
        AllNumberingHolds(fragments, f + 1, more.value);
      }
    }
  }

  /** Numbers the actions of fragment f after everything before it. */
  method NumberFragment(fragment: PlanFragment, f: nat, ids: map<FragmentActionRef, nat>)
    returns (r: Result<map<FragmentActionRef, nat>, CompositionError>)
    ensures r == FragmentNumbering(fragment, f, 0, ids)
  {
    var all: map<FragmentActionRef, nat> := ids;
    for k := 0 to |fragment.actions|
      invariant FragmentNumbering(fragment, f, 0, ids) == FragmentNumbering(fragment, f, k, all)
    {
      if |all| > U32_MAX {
        return Err(PlanTooLarge);
      }
      var ref := FragmentActionRef(f, fragment.actions[k].id);
      if ref in all {
        return Err(DuplicateLocalAction(f, ref.action));
      }
      all := all[ref := |all|];
    }
    r := Ok(all);
  }

  /** Assigns dense identities, rejecting a repeated local identity or an oversized plan. */
  method FragmentActionIds(fragments: seq<PlanFragment>)
    returns (r: Result<map<FragmentActionRef, nat>, CompositionError>)
    ensures r.Ok? ==> Numbers(fragments, r.value) && Offset(fragments, |fragments|) <= U32_MAX + 1
    ensures r.Err? ==> r.error.PlanTooLarge? || r.error.DuplicateLocalAction?
    ensures r.Err? && r.error.DuplicateLocalAction? ==> HasDuplicate(fragments, r.error.fragment, r.error.action)
    ensures r.Err? && r.error.PlanTooLarge? ==> IsTooLarge(fragments)
    ensures r == NumberingFrom(fragments, 0, map[])
  {
    AllNumberingHolds(fragments, 0, map[]);
    var ids: map<FragmentActionRef, nat> := map[];
    for f := 0 to |fragments|
      invariant NumberingFrom(fragments, 0, map[]) == NumberingFrom(fragments, f, ids)
    {
      if f > U32_MAX {
        return Err(PlanTooLarge);
      }
      var numbered := NumberFragment(fragments[f], f, ids);
      if numbered.Err? {
        return numbered;
      }
      ids := numbered.value;
    }
    r := Ok(ids);
  }

  // ---------------------------------------------------------------------------
  // Draft actions

  ghost predicate IsDense(draft: seq<DraftAction>) {
    forall i :: 0 <= i < |draft| ==> draft[i].id == i
  }

  /** The draft lists all fragment actions in order, each at its global identity. */
  ghost predicate DraftsUpTo(fragments: seq<PlanFragment>, draft: seq<DraftAction>, f: nat, k: nat)
    requires f <= |fragments|
  {
    && IsDense(draft)
    && |draft| == Offset(fragments, f) + k
    && forall g: nat, m: nat :: IsLocal(fragments, g, m) && (g < f || (g == f && m < k)) ==>
         && Offset(fragments, g) + m < |draft|
         && var action := draft[Offset(fragments, g) + m];
            && action.operation == fragments[g].actions[m].operation
            && action.fragment == g && action.localId == fragments[g].actions[m].id
            && action.origin == fragments[g].origin
  }

  ghost predicate Drafts(fragments: seq<PlanFragment>, draft: seq<DraftAction>) {
    DraftsUpTo(fragments, draft, |fragments|, 0)
  }

  /** The drafts of the first k actions of fragment f. */
  function FragmentDraft(fragment: PlanFragment, f: nat, ids: map<FragmentActionRef, nat>, k: nat): seq<DraftAction>
    requires k <= |fragment.actions|
  {
    if k == 0 then []
    else
      var action := fragment.actions[k - 1];
      var ref := FragmentActionRef(f, action.id);
      FragmentDraft(fragment, f, ids, k - 1)
      + [DraftAction(if ref in ids then ids[ref] else 0, action.operation, f, action.id, fragment.origin)]
  }

  /** Drafting of the fragments from f on. */
  function DraftingFrom(fragments: seq<PlanFragment>, ids: map<FragmentActionRef, nat>, f: nat, draft: seq<DraftAction>)
    : Result<seq<DraftAction>, CompositionError>
    requires f <= |fragments|
    decreases |fragments| - f
  {
    if f == |fragments| then Ok(draft)
    else if fragments[f].hasErrors then Err(FragmentHasErrors(f))
    else DraftingFrom(fragments, ids, f + 1, draft + FragmentDraft(fragments[f], f, ids, |fragments[f].actions|))
  }

  /** The draft of local action k, at its position in the concatenated fragments. */
  ghost function DraftAt(fragments: seq<PlanFragment>, f: nat, k: nat): DraftAction
    requires IsLocal(fragments, f, k)
  {
    var action := fragments[f].actions[k];
    DraftAction(Offset(fragments, f) + k, action.operation, f, action.id, fragments[f].origin)
  }

  lemma FragmentDraftUnfolds(fragments: seq<PlanFragment>, ids: map<FragmentActionRef, nat>, f: nat, k: nat)
    requires Numbers(fragments, ids) && IsLocal(fragments, f, k)
    ensures FragmentDraft(fragments[f], f, ids, k + 1)
            == FragmentDraft(fragments[f], f, ids, k) + [DraftAt(fragments, f, k)]
  {
    assert LocalRef(fragments, f, k) in ids && ids[LocalRef(fragments, f, k)] == Offset(fragments, f) + k;
  }

  lemma {:induction false} FragmentDrafts(fragments: seq<PlanFragment>, ids: map<FragmentActionRef, nat>, f: nat,
                                          earlier: seq<DraftAction>, k: nat)
    requires Numbers(fragments, ids) && f < |fragments| && k <= |fragments[f].actions|
    requires DraftsUpTo(fragments, earlier, f, 0)
    ensures DraftsUpTo(fragments, earlier + FragmentDraft(fragments[f], f, ids, k), f, k)
    decreases k
  {
    if k == 0 {
      assert earlier + FragmentDraft(fragments[f], f, ids, 0) == earlier;
    } else {
      var m := k - 1;
      var draft := earlier + FragmentDraft(fragments[f], f, ids, m);
      FragmentDrafts(fragments, ids, f, earlier, m);
      FragmentDraftUnfolds(fragments, ids, f, m);
      DraftOneMore(fragments, draft, f, m);
      assert earlier + FragmentDraft(fragments[f], f, ids, k) == draft + [DraftAt(fragments, f, m)];
    }
  }

  lemma DraftOneMore(fragments: seq<PlanFragment>, draft: seq<DraftAction>, f: nat, k: nat)
    requires IsLocal(fragments, f, k) && DraftsUpTo(fragments, draft, f, k)
    ensures DraftsUpTo(fragments, draft + [DraftAt(fragments, f, k)], f, k + 1)
  {
  }

  lemma DraftedWhole(fragments: seq<PlanFragment>, draft: seq<DraftAction>, f: nat)
    requires f < |fragments| && DraftsUpTo(fragments, draft, f, |fragments[f].actions|)
    ensures DraftsUpTo(fragments, draft, f + 1, 0)
  {
  }

  lemma {:induction false} DraftingHolds(fragments: seq<PlanFragment>, ids: map<FragmentActionRef, nat>, f: nat,
                                         draft: seq<DraftAction>)
    requires Numbers(fragments, ids) && f <= |fragments| && DraftsUpTo(fragments, draft, f, 0)
    requires forall g :: 0 <= g < f ==> !fragments[g].hasErrors
    ensures match DraftingFrom(fragments, ids, f, draft)
            case Ok(all) => Drafts(fragments, all) && forall g :: 0 <= g < |fragments| ==> !fragments[g].hasErrors
            case Err(error) =>
              error.FragmentHasErrors? && error.fragment < |fragments| && fragments[error.fragment].hasErrors
    decreases |fragments| - f
  {
    if f < |fragments| && !fragments[f].hasErrors {
      var n := |fragments[f].actions|;
      FragmentDrafts(fragments, ids, f, draft, n);
      DraftedWhole(fragments, draft + FragmentDraft(fragments[f], f, ids, n), f);
      DraftingHolds(fragments, ids, f + 1, draft + FragmentDraft(fragments[f], f, ids, n));
    }
  }

  /** Appends the drafts of fragment f. */
  method DraftFragment(fragment: PlanFragment, f: nat, ids: map<FragmentActionRef, nat>, earlier: seq<DraftAction>)
    returns (draft: seq<DraftAction>)
    requires forall k :: 0 <= k < |fragment.actions| ==> FragmentActionRef(f, fragment.actions[k].id) in ids
    ensures draft == earlier + FragmentDraft(fragment, f, ids, |fragment.actions|)
  {
    draft := earlier;
    for k := 0 to |fragment.actions|
      invariant draft == earlier + FragmentDraft(fragment, f, ids, k)
    {
      var action := fragment.actions[k];
      draft := draft + [DraftAction(ids[FragmentActionRef(f, action.id)], action.operation, f, action.id,
                                    fragment.origin)];
    }
  }

  method DraftActions(fragments: seq<PlanFragment>, ids: map<FragmentActionRef, nat>)
    returns (r: Result<seq<DraftAction>, CompositionError>)
    requires Numbers(fragments, ids)
    ensures r.Ok? ==> Drafts(fragments, r.value) && forall f :: 0 <= f < |fragments| ==> !fragments[f].hasErrors
    ensures r.Err? ==>
      r.error.FragmentHasErrors? && r.error.fragment < |fragments| && fragments[r.error.fragment].hasErrors
    ensures r == DraftingFrom(fragments, ids, 0, [])
  {
    DraftingHolds(fragments, ids, 0, []);
    var draft: seq<DraftAction> := [];
    for f := 0 to |fragments|
      invariant DraftingFrom(fragments, ids, 0, []) == DraftingFrom(fragments, ids, f, draft)
    {
      if fragments[f].hasErrors {
        return Err(FragmentHasErrors(f));
      }
      forall k: nat | k < |fragments[f].actions| ensures FragmentActionRef(f, fragments[f].actions[k].id) in ids {
        assert IsLocal(fragments, f, k) && LocalRef(fragments, f, k) in ids;
      }
      draft := DraftFragment(fragments[f], f, ids, draft);
    }
    r := Ok(draft);
  }

  // ---------------------------------------------------------------------------
  // Local edges and requirements

  /** Every local edge of fragment f up to position k is a global edge. */
  ghost predicate KeepsLocalEdges(fragments: seq<PlanFragment>, ids: map<FragmentActionRef, nat>,
                                  deps: seq<ActionDependency>, f: nat, k: nat)
  {
    forall g: nat, m: nat :: g < |fragments| && m < |fragments[g].dependencies| && (g < f || (g == f && m < k)) ==>
      var edge := fragments[g].dependencies[m];
      && FragmentActionRef(g, edge.before) in ids && FragmentActionRef(g, edge.after) in ids
      && HasEdge(deps, ids[FragmentActionRef(g, edge.before)], ids[FragmentActionRef(g, edge.after)])
  }

  /** The edge restates a local edge of some fragment, with its reason. */
  ghost predicate IsLocalEdge(fragments: seq<PlanFragment>, ids: map<FragmentActionRef, nat>, e: ActionDependency) {
    exists f: nat, k: nat :: f < |fragments| && k < |fragments[f].dependencies|
        && RestatesEdge(ids, f, fragments[f].dependencies[k], e)
  }

  ghost predicate RestatesEdge(ids: map<FragmentActionRef, nat>, f: nat, local: LocalDependency, e: ActionDependency) {
    var before, after := FragmentActionRef(f, local.before), FragmentActionRef(f, local.after);
    before in ids && after in ids && e == ActionDependency(ids[before], ids[after], local.reason)
  }

  ghost predicate OnlyLocalEdges(fragments: seq<PlanFragment>, ids: map<FragmentActionRef, nat>,
                                 deps: seq<ActionDependency>)
  {
    forall i :: 0 <= i < |deps| ==> IsLocalEdge(fragments, ids, deps[i])
  }

  /** Every pending requirement stems from a fragment. */
  ghost predicate OnlyDeclared(fragments: seq<PlanFragment>, ids: map<FragmentActionRef, nat>,
                               requirements: seq<PendingRequirement>)
  {
    forall i :: 0 <= i < |requirements| ==> IsDeclared(fragments, ids, requirements[i])
  }

  ghost predicate IsDeclared(fragments: seq<PlanFragment>, ids: map<FragmentActionRef, nat>, req: PendingRequirement) {
    exists f: nat, k: nat :: f < |fragments| && k < |fragments[f].requirements|
        && RestatesRequirement(ids, f, fragments[f].requirements[k], req)
  }

  ghost predicate RestatesRequirement(ids: map<FragmentActionRef, nat>, f: nat, local: ExternalRequirement,
                                      req: PendingRequirement)
  {
    FragmentActionRef(f, local.action) in ids
        && req == PendingRequirement(ids[FragmentActionRef(f, local.action)], local.prerequisite)
  }

  ghost predicate IdsBelow(ids: map<FragmentActionRef, nat>, n: nat) {
    forall ref :: ref in ids ==> ids[ref] < n
  }

  lemma NumbersBelow(fragments: seq<PlanFragment>, ids: map<FragmentActionRef, nat>)
    requires Numbers(fragments, ids)
    ensures IdsBelow(ids, Offset(fragments, |fragments|))
  {
    forall ref | ref in ids ensures ids[ref] < Offset(fragments, |fragments|) {
      assert IsNumbered(fragments, ref, |fragments|, 0);
      var m: nat :| IsLocal(fragments, ref.fragment, m) && LocalRef(fragments, ref.fragment, m) == ref;
      OffsetMonotone(fragments, ref.fragment + 1, |fragments|);
    }
  }

  /** Every requirement of the fragments before f, and the first k of f, is pending at its action. */
  ghost predicate KeepsRequirements(fragments: seq<PlanFragment>, ids: map<FragmentActionRef, nat>,
                                    requirements: seq<PendingRequirement>, f: nat, k: nat)
  {
    forall g: nat, m: nat :: g < |fragments| && m < |fragments[g].requirements| && (g < f || (g == f && m < k)) ==>
      var ref := FragmentActionRef(g, fragments[g].requirements[m].action);
      ref in ids && PendingRequirement(ids[ref], fragments[g].requirements[m].prerequisite) in requirements
  }

  /** The fragment declares an action under this local identity. */
  ghost predicate HasLocal(fragment: PlanFragment, id: nat) {
    exists k :: 0 <= k < |fragment.actions| && fragment.actions[k].id == id
  }

  lemma NumberedIsLocal(fragments: seq<PlanFragment>, ids: map<FragmentActionRef, nat>, f: nat, id: nat)
    requires Numbers(fragments, ids) && f < |fragments|
    ensures FragmentActionRef(f, id) in ids <==> HasLocal(fragments[f], id)
  {
    if FragmentActionRef(f, id) in ids {
      assert IsNumbered(fragments, FragmentActionRef(f, id), |fragments|, 0);
      var m: nat :| IsLocal(fragments, f, m) && LocalRef(fragments, f, m) == FragmentActionRef(f, id);
      assert fragments[f].actions[m].id == id;
    }
    if HasLocal(fragments[f], id) {
      var k :| 0 <= k < |fragments[f].actions| && fragments[f].actions[k].id == id;
      assert IsLocal(fragments, f, k) && LocalRef(fragments, f, k) == FragmentActionRef(f, id);
    }
  }

  lemma SameNumberSameAction(fragments: seq<PlanFragment>, ids: map<FragmentActionRef, nat>, f: nat, a: nat, b: nat)
    requires Numbers(fragments, ids) && FragmentActionRef(f, a) in ids && FragmentActionRef(f, b) in ids
    requires ids[FragmentActionRef(f, a)] == ids[FragmentActionRef(f, b)]
    ensures a == b
  {
    assert IsNumbered(fragments, FragmentActionRef(f, a), |fragments|, 0);
    assert IsNumbered(fragments, FragmentActionRef(f, b), |fragments|, 0);
    var m: nat :| IsLocal(fragments, f, m) && LocalRef(fragments, f, m) == FragmentActionRef(f, a);
    var k: nat :| IsLocal(fragments, f, k) && LocalRef(fragments, f, k) == FragmentActionRef(f, b);
  }

  ghost predicate HasDanglingEdge(fragment: PlanFragment) {
    exists k :: 0 <= k < |fragment.dependencies|
      && !(HasLocal(fragment, fragment.dependencies[k].before) && HasLocal(fragment, fragment.dependencies[k].after))
  }

  /** Local action m of fragment f depends on itself. */
  ghost predicate HasLoopAt(fragments: seq<PlanFragment>, f: nat, m: nat) {
    && IsLocal(fragments, f, m)
    && exists k :: 0 <= k < |fragments[f].dependencies|
                   && LoopsOn(fragments[f].dependencies[k], fragments[f].actions[m].id)
  }

  ghost predicate LoopsOn(edge: LocalDependency, id: nat) {
    edge.before == id && edge.after == id
  }

  ghost predicate HasStrayRequirement(fragment: PlanFragment, action: nat) {
    && !HasLocal(fragment, action)
    && exists k :: 0 <= k < |fragment.requirements| && fragment.requirements[k].action == action
  }

  /** The fault that each flattening error names is really there. */
  ghost predicate FlatteningFails(fragments: seq<PlanFragment>, error: CompositionError) {
    match error
    case PlanTooLarge => IsTooLarge(fragments)
    case DuplicateLocalAction(f, action) => HasDuplicate(fragments, f, action)
    case FragmentHasErrors(f) => f < |fragments| && fragments[f].hasErrors
    case UnknownLocalDependency(f) => f < |fragments| && HasDanglingEdge(fragments[f])
    case SelfDependency(action) =>
      exists f: nat, m: nat :: HasLoopAt(fragments, f, m) && action == Offset(fragments, f) + m
    case UnknownRequirementAction(f, action) => f < |fragments| && HasStrayRequirement(fragments[f], action)
    case _ => false
  }

  function LocalEdgeResult(edge: LocalDependency, f: nat, ids: map<FragmentActionRef, nat>, deps: seq<ActionDependency>)
    : Result<seq<ActionDependency>, CompositionError>
  {
    var before, after := FragmentActionRef(f, edge.before), FragmentActionRef(f, edge.after);
    if before !in ids || after !in ids then Err(UnknownLocalDependency(f))
    else if ids[before] == ids[after] then Err(SelfDependency(ids[before]))
    else Ok(WithEdge(deps, ids[before], ids[after], edge.reason))
  }

  /** The local edges of fragment f from position k on. */
  function EdgesFrom(fragment: PlanFragment, f: nat, ids: map<FragmentActionRef, nat>, deps: seq<ActionDependency>,
                     k: nat)
    : Result<seq<ActionDependency>, CompositionError>
    requires k <= |fragment.dependencies|
    decreases |fragment.dependencies| - k
  {
    if k == |fragment.dependencies| then Ok(deps)
    else
      match LocalEdgeResult(fragment.dependencies[k], f, ids, deps)
      case Err(error) => Err(error)
      case Ok(all) => EdgesFrom(fragment, f, ids, all, k + 1)
  }

  /** The requirements of fragment f from position k on. */
  function RequirementsFrom(fragment: PlanFragment, f: nat, ids: map<FragmentActionRef, nat>,
                            requirements: seq<PendingRequirement>, k: nat)
    : Result<seq<PendingRequirement>, CompositionError>
    requires k <= |fragment.requirements|
    decreases |fragment.requirements| - k
  {
    if k == |fragment.requirements| then Ok(requirements)
    else
      var local := fragment.requirements[k];
      var ref := FragmentActionRef(f, local.action);
      if ref !in ids then Err(UnknownRequirementAction(f, local.action))
      else
        RequirementsFrom(fragment, f, ids, requirements + [PendingRequirement(ids[ref], local.prerequisite)], k + 1)
  }

  /** Edges and requirements of the fragments from f on. */
  function StructureFrom(fragments: seq<PlanFragment>, ids: map<FragmentActionRef, nat>, f: nat,
                         deps: seq<ActionDependency>, requirements: seq<PendingRequirement>)
    : Result<(seq<ActionDependency>, seq<PendingRequirement>), CompositionError>
    requires f <= |fragments|
    decreases |fragments| - f
  {
    if f == |fragments| then Ok((deps, requirements))
    else
      match EdgesFrom(fragments[f], f, ids, deps, 0)
      case Err(error) => Err(error)
      case Ok(all) =>
        match RequirementsFrom(fragments[f], f, ids, requirements, 0)
        case Err(error) => Err(error)
        case Ok(needs) => StructureFrom(fragments, ids, f + 1, all, needs)
  }

  /** Flattening as a function of the fragments. */
  function FlattenResult(fragments: seq<PlanFragment>): Result<Flattened, CompositionError> {
    match NumberingFrom(fragments, 0, map[])
    case Err(error) => Err(error)
    case Ok(ids) =>
      match DraftingFrom(fragments, ids, 0, [])
      case Err(error) => Err(error)
      case Ok(draft) =>
        match StructureFrom(fragments, ids, 0, [], [])
        case Err(error) => Err(error)
        case Ok((deps, requirements)) => Ok(Flattened(draft, deps, requirements, ids))
  }

  /** One local edge: kept and recorded as such, or the fault that its error names. */
  lemma LocalEdgeHolds(fragments: seq<PlanFragment>, ids: map<FragmentActionRef, nat>, n: nat, f: nat, k: nat,
                       deps: seq<ActionDependency>)
    requires Numbers(fragments, ids) && IdsBelow(ids, n) && f < |fragments| && k < |fragments[f].dependencies|
    requires EdgesHold(fragments, ids, n, deps, f, k)
    ensures match LocalEdgeResult(fragments[f].dependencies[k], f, ids, deps)
            case Ok(all) => EdgesHold(fragments, ids, n, all, f, k + 1)
            case Err(error) => FlatteningFails(fragments, error)
  {
    var edge := fragments[f].dependencies[k];
    var before, after := FragmentActionRef(f, edge.before), FragmentActionRef(f, edge.after);
    NumberedIsLocal(fragments, ids, f, edge.before);
    NumberedIsLocal(fragments, ids, f, edge.after);
    if before in ids && after in ids {
      if ids[before] == ids[after] {
        LoopIsFault(fragments, ids, f, k);
      } else {
        LocalEdgeKept(fragments, ids, deps, f, k);
      }
    }
  }

  lemma LoopIsFault(fragments: seq<PlanFragment>, ids: map<FragmentActionRef, nat>, f: nat, k: nat)
    requires Numbers(fragments, ids) && f < |fragments| && k < |fragments[f].dependencies|
    requires var edge := fragments[f].dependencies[k];
      && FragmentActionRef(f, edge.before) in ids && FragmentActionRef(f, edge.after) in ids
      && ids[FragmentActionRef(f, edge.before)] == ids[FragmentActionRef(f, edge.after)]
    ensures FlatteningFails(fragments, SelfDependency(ids[FragmentActionRef(f, fragments[f].dependencies[k].before)]))
  {
    var edge := fragments[f].dependencies[k];
    var before := FragmentActionRef(f, edge.before);
    SameNumberSameAction(fragments, ids, f, edge.before, edge.after);
    assert IsNumbered(fragments, before, |fragments|, 0);
    var m: nat :| IsLocal(fragments, f, m) && LocalRef(fragments, f, m) == before;
    assert LoopsOn(fragments[f].dependencies[k], fragments[f].actions[m].id);
    assert HasLoopAt(fragments, f, m);
  }

  /** The edges are those of the fragments before f and the first k of f, and no others. */
  ghost predicate EdgesHold(fragments: seq<PlanFragment>, ids: map<FragmentActionRef, nat>, n: nat,
                            deps: seq<ActionDependency>, f: nat, k: nat)
  {
    InRange(n, deps) && KeepsLocalEdges(fragments, ids, deps, f, k) && OnlyLocalEdges(fragments, ids, deps)
  }

  lemma LocalEdgeKept(fragments: seq<PlanFragment>, ids: map<FragmentActionRef, nat>, deps: seq<ActionDependency>,
                      f: nat, k: nat)
    requires f < |fragments| && k < |fragments[f].dependencies|
    requires KeepsLocalEdges(fragments, ids, deps, f, k) && OnlyLocalEdges(fragments, ids, deps)
    requires FragmentActionRef(f, fragments[f].dependencies[k].before) in ids
    requires FragmentActionRef(f, fragments[f].dependencies[k].after) in ids
    ensures var edge := fragments[f].dependencies[k];
      var all := WithEdge(deps, ids[FragmentActionRef(f, edge.before)], ids[FragmentActionRef(f, edge.after)],
                          edge.reason);
      KeepsLocalEdges(fragments, ids, all, f, k + 1) && OnlyLocalEdges(fragments, ids, all)
  {
    var edge := fragments[f].dependencies[k];
    var before, after := FragmentActionRef(f, edge.before), FragmentActionRef(f, edge.after);
    var added := ActionDependency(ids[before], ids[after], edge.reason);
    assert RestatesEdge(ids, f, edge, added);
    AppendCovers(deps, added);
  }

  lemma {:induction false} EdgesFromHold(fragments: seq<PlanFragment>, ids: map<FragmentActionRef, nat>, n: nat, f: nat,
                                         deps: seq<ActionDependency>, k: nat)
    requires Numbers(fragments, ids) && IdsBelow(ids, n) && f < |fragments| && k <= |fragments[f].dependencies|
    requires EdgesHold(fragments, ids, n, deps, f, k)
    ensures match EdgesFrom(fragments[f], f, ids, deps, k)
            case Ok(all) => EdgesHold(fragments, ids, n, all, f + 1, 0)
            case Err(error) => FlatteningFails(fragments, error)
    decreases |fragments[f].dependencies| - k
  {
    if k < |fragments[f].dependencies| {
      LocalEdgeHolds(fragments, ids, n, f, k, deps);
      var next := LocalEdgeResult(fragments[f].dependencies[k], f, ids, deps);
      if next.Ok? {
        EdgesFromHold(fragments, ids, n, f, next.value, k + 1);
      }
    }
  }

  /** The requirements are those of the fragments before f and the first k of f, and no others. */
  ghost predicate NeedsHold(fragments: seq<PlanFragment>, ids: map<FragmentActionRef, nat>, n: nat,
                            requirements: seq<PendingRequirement>, f: nat, k: nat)
  {
    && KeepsRequirements(fragments, ids, requirements, f, k) && OnlyDeclared(fragments, ids, requirements)
    && forall i :: 0 <= i < |requirements| ==> requirements[i].action < n
  }

  lemma {:induction false} RequirementsFromHold(fragments: seq<PlanFragment>, ids: map<FragmentActionRef, nat>, n: nat,
                                                f: nat, requirements: seq<PendingRequirement>, k: nat)
    requires Numbers(fragments, ids) && IdsBelow(ids, n) && f < |fragments| && k <= |fragments[f].requirements|
    requires NeedsHold(fragments, ids, n, requirements, f, k)
    ensures match RequirementsFrom(fragments[f], f, ids, requirements, k)
            case Ok(all) => NeedsHold(fragments, ids, n, all, f + 1, 0)
            case Err(error) => FlatteningFails(fragments, error)
    decreases |fragments[f].requirements| - k
  {
    if k < |fragments[f].requirements| {
      var local := fragments[f].requirements[k];
      var ref := FragmentActionRef(f, local.action);
      NumberedIsLocal(fragments, ids, f, local.action);
      if ref in ids {
        RequirementKept(fragments, ids, n, f, requirements, k);
        RequirementsFromHold(fragments, ids, n, f, requirements + [PendingRequirement(ids[ref], local.prerequisite)],
                             k + 1);
      }
    }
  }

  lemma RequirementKept(fragments: seq<PlanFragment>, ids: map<FragmentActionRef, nat>, n: nat, f: nat,
                        requirements: seq<PendingRequirement>, k: nat)
    requires IdsBelow(ids, n) && f < |fragments| && k < |fragments[f].requirements|
    requires NeedsHold(fragments, ids, n, requirements, f, k)
    requires FragmentActionRef(f, fragments[f].requirements[k].action) in ids
    ensures var local := fragments[f].requirements[k];
      var all := requirements + [PendingRequirement(ids[FragmentActionRef(f, local.action)], local.prerequisite)];
      NeedsHold(fragments, ids, n, all, f, k + 1)
  {
    var local := fragments[f].requirements[k];
    var added := PendingRequirement(ids[FragmentActionRef(f, local.action)], local.prerequisite);
    assert RestatesRequirement(ids, f, local, added);
    assert (requirements + [added])[|requirements|] == added;
  }

  lemma {:induction false} StructureFromHolds(fragments: seq<PlanFragment>, ids: map<FragmentActionRef, nat>, n: nat,
                                              f: nat, deps: seq<ActionDependency>,
                                              requirements: seq<PendingRequirement>)
    requires Numbers(fragments, ids) && IdsBelow(ids, n) && f <= |fragments|
    requires EdgesHold(fragments, ids, n, deps, f, 0) && NeedsHold(fragments, ids, n, requirements, f, 0)
    ensures match StructureFrom(fragments, ids, f, deps, requirements)
            case Ok((all, needs)) =>
              EdgesHold(fragments, ids, n, all, |fragments|, 0) && NeedsHold(fragments, ids, n, needs, |fragments|, 0)
            case Err(error) => FlatteningFails(fragments, error)
    decreases |fragments| - f
  {
    if f < |fragments| {
      EdgesFromHold(fragments, ids, n, f, deps, 0);
      RequirementsFromHold(fragments, ids, n, f, requirements, 0);
      var all, needs := EdgesFrom(fragments[f], f, ids, deps, 0), RequirementsFrom(fragments[f], f, ids, requirements,
                                                                                   0);
      if all.Ok? && needs.Ok? {
        StructureFromHolds(fragments, ids, n, f + 1, all.value, needs.value);
      }
    }
  }

  /** Adds the local edges of fragment f under their global identities. */
  method FragmentEdges(fragment: PlanFragment, f: nat, ids: map<FragmentActionRef, nat>, deps: seq<ActionDependency>)
    returns (r: Result<seq<ActionDependency>, CompositionError>)
    ensures r == EdgesFrom(fragment, f, ids, deps, 0)
  {
    var all := deps;
    for k := 0 to |fragment.dependencies|
      invariant EdgesFrom(fragment, f, ids, deps, 0) == EdgesFrom(fragment, f, ids, all, k)
    {
      var edge := fragment.dependencies[k];
      var before, after := FragmentActionRef(f, edge.before), FragmentActionRef(f, edge.after);
      if before !in ids || after !in ids {
        return Err(UnknownLocalDependency(f));
      }
      var added := AddDependency(all, ids[before], ids[after], edge.reason);
      if added.None? {
        return Err(SelfDependency(ids[before]));
      }
      all := added.value;
    }
    r := Ok(all);
  }

  /** Collects the requirements of fragment f at their actions. */
  method FragmentRequirements(fragment: PlanFragment, f: nat, ids: map<FragmentActionRef, nat>,
                              requirements: seq<PendingRequirement>)
    returns (r: Result<seq<PendingRequirement>, CompositionError>)
    ensures r == RequirementsFrom(fragment, f, ids, requirements, 0)
  {
    var all := requirements;
    for k := 0 to |fragment.requirements|
      invariant RequirementsFrom(fragment, f, ids, requirements, 0) == RequirementsFrom(fragment, f, ids, all, k)
    {
      var ref := FragmentActionRef(f, fragment.requirements[k].action);
      if ref !in ids {
        return Err(UnknownRequirementAction(f, fragment.requirements[k].action));
      }
      all := all + [PendingRequirement(ids[ref], fragment.requirements[k].prerequisite)];
    }
    r := Ok(all);
  }

  datatype Flattened = Flattened(
    actions: seq<DraftAction>,
    dependencies: seq<ActionDependency>,
    requirements: seq<PendingRequirement>,
    ids: map<FragmentActionRef, nat>)

  ghost predicate IsFlattened(fragments: seq<PlanFragment>, flat: Flattened) {
    && Numbers(fragments, flat.ids)
    && Drafts(fragments, flat.actions)
    && |flat.actions| == Offset(fragments, |fragments|) <= U32_MAX + 1
    && IdsBelow(flat.ids, |flat.actions|)
    && InRange(|flat.actions|, flat.dependencies)
    && KeepsLocalEdges(fragments, flat.ids, flat.dependencies, |fragments|, 0)
    && OnlyLocalEdges(fragments, flat.ids, flat.dependencies)
    && KeepsRequirements(fragments, flat.ids, flat.requirements, |fragments|, 0)
    && OnlyDeclared(fragments, flat.ids, flat.requirements)
    && forall i :: 0 <= i < |flat.requirements| ==> flat.requirements[i].action < |flat.actions|
  }

  /** Assigns global identities and keeps exactly the local edges and requirements. */
  method FlattenFragments(fragments: seq<PlanFragment>) returns (r: Result<Flattened, CompositionError>)
    ensures r.Ok? ==> IsFlattened(fragments, r.value)
    ensures r.Err? ==> FlatteningFails(fragments, r.error)
    ensures r == FlattenResult(fragments)
  {
    var numbered := FragmentActionIds(fragments);
    if numbered.Err? {
      return Err(numbered.error);
    }
    var ids := numbered.value;
    var drafted := DraftActions(fragments, ids);
    if drafted.Err? {
      return Err(drafted.error);
    }
    NumbersBelow(fragments, ids);
    StructureFromHolds(fragments, ids, |drafted.value|, 0, [], []);
    var deps: seq<ActionDependency> := [];
    var requirements: seq<PendingRequirement> := [];
    for f := 0 to |fragments|
      invariant StructureFrom(fragments, ids, 0, [], []) == StructureFrom(fragments, ids, f, deps, requirements)
    {
      var edges := FragmentEdges(fragments[f], f, ids, deps);
      if edges.Err? {
        return Err(edges.error);
      }
      var needs := FragmentRequirements(fragments[f], f, ids, requirements);
      if needs.Err? {
        return Err(needs.error);
      }
      deps, requirements := edges.value, needs.value;
    }
    r := Ok(Flattened(drafted.value, deps, requirements, ids));
  }
}
