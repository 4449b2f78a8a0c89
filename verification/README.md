# Storage engine model

A Dafny model of a declarative storage planner and of the state machine that
executes its plans. The project covers five connected parts of the system:

1. **Composition.** Provider fragments are flattened to densely numbered
   actions; creation, mount-order and provider edges are added; the candidate is
   replayed and restarted each time an output is bound; conflicting resource
   accesses must be ordered; the result is frozen as an acyclic plan.
2. **Simulation.** One atomic interpreter projects each action onto a desired
   configuration and a ledger of temporary guarantees (activation, endpoint
   access, clean filesystem checks, free capacity, mounts). Composer and
   replayer share it.
3. **Execution.** Each action passes through an eight-state lifecycle under
   fresh observations, exact evidence coverage and a stop latch, and every
   change is announced in a bounded event ring.
4. **Delivery.** A live observer and a polled mailbox reproduce the ring, and
   the ring the unbounded log.
5. **Context owners.** A bounded registry of worker threads, each with one
   request channel and one job mailbox, as interleaved steps.

Code that changes state in place is written as methods and classes
(`Projection`, `ExecutionRun`, `Observer`, `Job`) proved against specification
functions; the theorems are then about those functions, over every input, every
trace, every sequence of calls or every interleaving.

## Layout

| file | content |
|---|---|
| `Wrappers`, `Dag`, `TopologicalSort` | shared values, reachability and linear extensions, the deterministic sort |
| `StorageModel`, `Prerequisites`, `Closure`, `Evidence`, `Effects` | graph, contracts, checks, ledger and the interpreter |
| `Flow`, `Traces`, `Endpoints`, `GraphHistory`, `MountTable`, `Outcomes`, `Verdicts` | whole traces: how far invalidations reach, who holds which claim, what the last effect on each object left, when a step succeeds and what every verdict means |
| `Fragments`, `Binding`, `Requirements`, `Supply`, `ResourceOrder`, `ContextualBinding`, `Resolution`, `Composer` | the composer, stage by stage |
| `Plan`, `Replay`, `Goal`, `Analysis` | frozen plans, replay, goal comparison, complete reports |
| `EventRing`, `Execution`, `RunInvariants`, `RunCalls`, `RunSafety`, `ExecutionRuns` | event ring, lifecycle specification, its invariants, the outcome of each call and their consequences, the mutable run |
| `Delivery` | observers and mailboxes |
| `Registry`, `RegistryService`, `RegistryDrain` | context owners: invariant, what undisturbed operations do, freedom from deadlock |

## Parameters

The provider layer is a `Catalogue` value: contract description, action
validation, graph structure validation and contract canonicalisation are
functions of the action and the graph. A stored contract is accepted when it
equals the recalculated one, literally or after canonicalisation. Intent
coverage and the protected-area check enter the analysis as functions (`Review`).
Whether an observation's snapshot is well formed is a field of the observation.
Hash-map and hash-set enumeration is an arbitrary choice of the next element.

## Results that differ from a first reading of the source

- A provider selected as the latest matching predecessor is *not* by itself the
  last matching provider before its consumer: an eligible provider the
  dependencies leave unordered can run in between.
  `Requirements.UnorderedProviderInterposes` shows two checks and a resize of one
  filesystem, `Requirements.SelectedIsLastIff` gives the exact condition, and
  `Requirements.AcceptedLatestIsLast` shows that resource validation excludes the
  interposition wherever suppliers conflict with their consumer, as those do.
- Three of the composer's errors (a missing requirement check, an unresolved
  requirement and a missing analysed contract) cannot arise after a complete
  trace, and neither can a cycle or a self dependency once the structural edges
  are acyclic.
- The live observer has no gap flag, so more than 1024 events between two
  notifications would be missed silently. `Delivery.ObserverReceivesWholeRun`
  rules this out for any host that notifies at least once every 512 calls; the
  coordinator does so after nearly every call
  (storage-runtime/src/coordinator.rs:265-332).

## Model

| member | source | states |
|---|---|---|
| `Dag.DependencyPath` | storage-engine/src/compose.rs:684-702 | the work list finds a path exactly when some nonempty walk of edges leads from one action to the other, on any edge list |
| `Dag.AddDependency` | storage-engine/src/compose.rs:794-814 | refuses exactly reflexive edges; otherwise the list gains the edge at its end unless that pair is present, whose first reason survives |
| `Dag.PrefixCompletes` | storage-engine/src/compose.rs:761-791 | every duplicate-free prefix closed under predecessors of an acyclic plan is the start of a linear extension |
| `Dag.NoSourceMeansCycle` | storage-engine/src/compose.rs:776-790 | a nonempty set of actions all of which have a predecessor in the set contains a cycle, the reason a stuck sort is a cycle |
| `TopologicalSort.TopologicalOrder` | storage-engine/src/compose.rs:761-791 | for up to 2^32 actions it succeeds exactly on acyclic edges (duplicates included) and its result picks the least ready action at every position |
| `TopologicalSort.LeastOrderIsOrder` | storage-engine/src/compose.rs:761-791 | such an order is a permutation of all actions that respects every edge |
| `TopologicalSort.LeastOrderIsLexLeast` | storage-engine/src/compose.rs:761-791 | every other linear extension is lexicographically greater |
| `TopologicalSort.LeastOrderUnique` | storage-engine/src/compose.rs:761-791 | the order is determined by the edges alone, so composer and replayer walk the same one |
| `Plan.OrderedActions` | storage-engine/src/plan.rs:124-130 | on every frozen plan the sort succeeds, so the unreachable branch is dead; the actions come back in the deterministic linear extension |
| `ResourceOrder.ConflictingResource` | storage-engine/src/compose.rs:672-681 | returns a resource exactly when one contract writes something the other reads or writes, and then the first such resource |
| `ResourceOrder.ConflictMeansWrite` | storage-engine/src/compose.rs:672-681 | two contracts conflict exactly when one writes a resource that the other reads or writes |
| `ResourceOrder.ValidateResourceOrder` | storage-engine/src/compose.rs:644-669 | accepts exactly the plans in which every conflicting pair is joined by a path; otherwise names the least unordered pair and a resource both access, one of them writing |
| `ResourceOrder.ConflictsKeepOrder` | storage-engine/src/compose.rs:644-681 | in any two linear extensions of an accepted plan a conflicting pair stands in the same relative order |
| `ResourceOrder.OrdersSwapConnected` | storage-engine/src/compose.rs:644-681 | any two linear extensions of an accepted plan are joined by swaps of adjacent independent actions, each intermediate list again a linear extension |
| `ResourceOrder.AllOrdersSameResult` | storage-engine/src/compose.rs:644-681 | hence for any step function whose independent steps commute, every linear extension gives the same final state |
| `Requirements.RequirementProvider` | storage-engine/src/compose.rs:541-578 | the answer is the predecessor all other matching predecessors precede, else the sole eligible provider, else nothing, else ambiguity |
| `Requirements.AnswerUnique` | storage-engine/src/compose.rs:541-578 | on acyclic edges that answer is the same for every enumeration order of the contract map |
| `Requirements.LatestFollowsPredecessors` | storage-engine/src/compose.rs:558-570 | in every linear extension the selected predecessor stands after every other matching predecessor and before the consumer |
| `Requirements.SelectedIsLastIff` | storage-engine/src/compose.rs:558-570 | the selected predecessor is the last matching provider before the consumer in every linear extension if and only if every other eligible provider precedes it |
| `Requirements.AcceptedLatestIsLast` | storage-engine/src/compose.rs:644-669 | where every supplier conflicts with the consumer, validated resource order makes the selected predecessor the last supplier in every linear extension |
| `Requirements.UnorderedProviderInterposes` | storage-engine/src/compose.rs:558-570 | two checks and a resize of one filesystem in which the selected check is not the last one, because the other is left unordered; resource validation then rejects that pair |
| `Supply.MatchingIsEstablishing` | storage-engine/src/compose.rs:918-937 | for every output and every condition: they are matched exactly when delivering the output satisfies the condition in every state that can take it, and in some state it was missing before |
| `Supply.NewlyMetIsSupplied` | storage-engine/src/compose.rs:918-937 | among the outputs of a step only a matching one can newly satisfy a write or check condition |
| `Supply.SuppliedCheckIsMet` | storage-engine/src/compose.rs:924-927 | after a step a check condition holds exactly if the step supplies it, or it held and the step does not revoke it |
| `Supply.SuppliedWriteIsMet` | storage-engine/src/compose.rs:928-934 | on a present, active node the last interface output of a step decides: write access holds exactly when it is read-write |
| `Fragments.FragmentActionIds` | storage-engine/src/compose.rs:215-236 | identities are exactly positions in the concatenated fragments; a rejection names a really repeated local identity, or fragments or actions exceed 2^32 |
| `Fragments.DraftActions` | storage-engine/src/compose.rs:239-263 | the draft lists all actions densely with their fragment, local identity and origin; an erroneous fragment is rejected |
| `Fragments.FlattenFragments` | storage-engine/src/compose.rs:239-297 | global edges and pending requirements are exactly the restated local ones, with their reasons; every error names a fault that is there |
| `Binding.BindOrdering` | storage-engine/src/compose.rs:163-176 | adds exactly the requested cross-fragment edges; an error names an endpoint of a request that has no action, or an action ordered before itself |
| `Binding.CollectCreators` | storage-engine/src/compose.rs:397-411 | the creator map is exact; an error names a planned node that exists in the baseline, or two creators of one node in order |
| `Binding.BindPlannedNodes` | storage-engine/src/compose.rs:392-433 | every input exists in the baseline or has its unique creator as a direct predecessor, and only such creation edges are added; every error names a fault that is there |
| `Binding.BindMountOrder` | storage-engine/src/compose.rs:436-472 | every nested same-namespace pair of mount changes ends up connected, every added edge mounts parents first or unmounts children first, and the result is acyclic exactly when the input was |
| `Binding.NestedIsDeeper` | storage-engine/src/compose.rs:441-452 | two mount changes are nested exactly when both mount or unmount in one namespace and one path continues the other by whole components |
| `ContextualBinding.BindContextualOutputs` | storage-engine/src/compose.rs:489-538 | does nothing exactly when each owned requirement is a condition of the contract and is satisfied in the current state or has no eligible supplier still to come; otherwise adds the edge of the selected supplier, or reports an undeclared or ambiguous requirement that is there |
| `ContextualBinding.SimulatePass` | storage-engine/src/compose.rs:719-757 | a completed pass is a full trace no position of which asks for another edge; a restart adds the edge of the supplier selected in the pass's own state; a failed pass names the first action that cannot be bound or does not step |
| `ContextualBinding.RestartProgress` | storage-engine/src/compose.rs:489-538 | each restart uses up an ordered pair of actions no earlier edge joined and keeps the edges acyclic |
| `ContextualBinding.SimulateOrder` | storage-engine/src/compose.rs:706-758 | the restart loop terminates with at most as many restarts as unjoined ordered pairs; a cycle is reported exactly when the incoming edges have one; success is a fixpoint, a full trace along the deterministic order in which no action asks for another edge; outcome and edges are a function of the inputs |
| `Resolution.ValidateDeclaredRequirements` | storage-engine/src/compose.rs:624-641 | accepts exactly when each requirement is a condition of its action's contract |
| `Resolution.ResolveRequirement` | storage-engine/src/compose.rs:587-619 | the missing-check, self-dependency and unresolved errors are unreachable after a complete trace; only ambiguity remains |
| `Resolution.ResolveRequirements` | storage-engine/src/compose.rs:581-621 | every requirement ends up observed, supplied by a direct predecessor or without an eligible supplier; acyclicity is kept and all new edges are provider edges |
| `Composer.BindOutputs` | storage-engine/src/compose.rs:179-186 | the resulting edges are acyclic, extend the structural ones by provider edges only, and leave every requirement observed, directly supplied or without an eligible supplier |
| `Composer.FreezeDraft` | storage-engine/src/compose.rs:188-211 | the second simulation adds no edge, and the frozen plan is acyclic, resource-ordered and stores the contracts of its own predecessor states |
| `Composer.AnalyseDraft` | storage-engine/src/compose.rs:177-211 | after the structural edges, a cycle is reported exactly when those edges have one; a returned plan is sound and all its outputs are bound as far as they can be; every error names a fault of a candidate that extends those edges by provider edges |
| `Composer.BindStructure` | storage-engine/src/compose.rs:163-178 | the structural edges keep and consist of local, requested, creation and mount edges |
| `Composer.ComposePlanWithOrdering` | storage-engine/src/compose.rs:139-212 | the result is a function of the arguments, whatever order contract maps are enumerated in; every returned plan keeps all fragments, orderings, input and mount edges, binds every declared output it can, orders all conflicts, replays exactly, and each of its edges is justified; every error names a fault of its stage |
| `Composer.ComposeThenReplay` | storage-engine/src/compose.rs:139-212 | replaying a composed plan from the same baseline and capacity succeeds and returns the very same plan, contracts included |
| `Closure.Visit` | storage-engine/src/simulation_evidence.rs:160-187 | the pending/visited work list terminates and computes exactly the reflexive-transitive closure, without repetition |
| `Closure.ClosureIsLeast` | storage-engine/src/simulation_evidence.rs:203-240 | that closure is the least set containing the roots and closed under the edges |
| `Evidence.NewEvidence` | storage-engine/src/simulation_evidence.rs:52-64 | succeeds exactly when no capacity domain is repeated, with the listed amounts and no other claim; the error names the domain of the first repeating item |
| `Evidence.ExpandInvalidations` | storage-engine/src/simulation_evidence.rs:154-184 | the expanded facts are the listed ones plus Activation of the dependency closure of every Activation-invalidated node |
| `Evidence.InvalidateObservations` | storage-engine/src/simulation_evidence.rs:154-200 | the ledger gains exactly the expanded facts and loses endpoint and activation claims for just those nodes |
| `Evidence.InvalidateFilesystemChecks` | storage-engine/src/simulation_evidence.rs:203-240 | a clean check is dropped exactly for the Backs/Contains closure of nodes whose content, geometry or presence is invalidated |
| `Flow.ExpandedFactsDisturb` | storage-engine/src/simulation_evidence.rs:154-184 | told by chains of graph dependencies: the expanded facts disturb exactly the endpoints downstream of an Activation fact, and those whose own Presence is invalidated |
| `Flow.ContentSpreads` | storage-engine/src/simulation_evidence.rs:203-240 | the revoked clean checks are exactly those at the end of a chain of Backs and Contains dependencies from a node whose content, geometry or presence is invalidated |
| `Evidence.ApplyAllocationEffects` | storage-engine/src/simulation_evidence.rs:243-276 | the in-place loop folds the allocation effects in order, stopping at the first shortage or overflow |
| `Evidence.ApplyOutputs` | storage-engine/src/simulation_evidence.rs:139-151 | the loop folds the outputs in order |
| `Effects.ApplyGraphEffects` | storage-engine/src/effects.rs:93-223 | the loop folds the graph effects in order and returns the first error |
| `Effects.ApplyMountEffects` | storage-engine/src/effects.rs:226-285 | the loop folds the mount effects in order and returns the first error |
| `Effects.Projection.ApplyEffect` | storage-engine/src/effects.rs:72-90 | configuration and evidence are published together after every effect and the structure check, or neither changes |
| `Effects.Projection.SimulateAction` | storage-engine/src/effects.rs:22-60 | validation, prerequisites, effects and outputs happen in that order; any failure leaves both halves unchanged |
| `Prerequisites.EvaluateDependentSizes` | storage-engine/src/prerequisites.rs:325-373 | whatever order the edges are visited in, a known oversize wins over unknown sizes, which win over satisfaction |
| `Traces.ChecksAfterStep` | storage-engine/src/effects.rs:47-53 | one step holds a clean check exactly if it grants it, or held it and neither a chain of Backs/Contains dependencies from a touched node nor a mount voids it |
| `Traces.ChecksAreFresh` | storage-engine/src/simulation_evidence.rs:203-240 | over every trace a clean check is held exactly when some step granted it and no later step revoked it in that step's own predecessor graph |
| `Traces.EndpointRevocationExact` | storage-engine/src/simulation_evidence.rs:154-200 | interface and activation claims are dropped exactly for nodes at the end of some chain of dependencies from an Activation-invalidated node, and for Presence-invalidated nodes; the others keep their values |
| `Traces.LedgerMonotone` | storage-engine/src/simulation_evidence.rs:185-200 | stale facts are never forgotten along a trace |
| `Traces.OutdatedExactly` | storage-engine/src/simulation_evidence.rs:185-200 | over every trace an observed endpoint is outdated exactly when some earlier step disturbed it in that step's own predecessor graph |
| `Traces.StaleObservationNeverReused` | storage-engine/src/prerequisites.rs:200-262 | once stale, an endpoint check is never again satisfied from the observed snapshot |
| `Traces.RevokedEndpointNeedsNewGrant` | storage-engine/src/simulation_evidence.rs:139-200 | after a step disturbed an endpoint, an interface on it exists again only if a step from then on granted it |
| `Traces.RevokedEndpointCheck` | storage-engine/src/prerequisites.rs:200-262 | a satisfied endpoint check after such a step rests on predicted evidence and on such a newer grant |
| `Endpoints.InterfaceAfterStep` | storage-engine/src/effects.rs:22-60 | after one step the access claimed for a node is the last one the step outputs for it, else the one held before unless the step disturbs, removes or deactivates the node |
| `Endpoints.InterfacesAreFresh` | storage-engine/src/simulation_evidence.rs:139-200 | over every trace read-only or read-write access is claimed exactly from the step that granted it until a later step drops or replaces it |
| `Endpoints.ActivationAfterStep` | storage-engine/src/effects.rs:211-219 | after one step the activation claimed for a node is what its effects last set, nothing if they removed it, else what was known before unless the step disturbs the node |
| `Endpoints.ActivationsAreFresh` | storage-engine/src/effects.rs:211-219 | over every trace an activation value is claimed exactly from the effect that set it until a later step sets, removes or disturbs it |
| `Traces.CapacityKnowledge` | storage-engine/src/simulation_evidence.rs:243-276 | a domain is known exactly when it was known at the start and never invalidated since |
| `Traces.CapacityConserved` | storage-engine/src/simulation_evidence.rs:243-276 | available plus total reserved equals initial plus total released, within 64 bits |
| `Traces.CapacityPredicted` | storage-engine/src/simulation_evidence.rs:243-276 | while a domain is known it counts as predicted exactly once some step allocated in it |
| `Traces.CapacityCheckForetellsReserve` | storage-engine/src/prerequisites.rs:429-453 | once reached, the first reservation of a domain succeeds unless its capacity check was violated, and then the action fails for want of it; if the domain is reserved once, that is the only shortage |
| `Traces.TraceKeepsNesting` | storage-engine/src/effects.rs:226-267 | distinct targets and ancestors-before-descendants survive every trace |
| `Traces.UnmountInReverseSucceeds` | storage-engine/src/effects.rs:252-267 | from such a list, unmounting in reverse order succeeds and empties it |
| `Traces.EveryTraceCanUnmount` | storage-engine/src/prerequisites.rs:466-487 | so after any prefix of any plan everything mounted can be unmounted again in reverse |
| `GraphHistory.NodeIsLastWrite` | storage-engine/src/effects.rs:93-223 | along every trace the last effect on a node decides its presence, size, kind and whether it counts as predicted; historical block observations survive exactly on nodes never inserted |
| `GraphHistory.EdgesAreLastWrites` | storage-engine/src/effects.rs:195-211 | along every trace the last insertion or removal decides each dependency and relation |
| `MountTable.RuntimeIsLastWrite` | storage-engine/src/effects.rs:226-267 | along every trace an entry is mounted exactly when the last runtime effect on its target and namespace added that very entry, or none did and it was mounted at the start; the table counts as predicted exactly once a runtime effect was applied |
| `Outcomes.GraphListFails` | storage-engine/src/effects.rs:93-223 | a list of graph effects is refused with the first error that the readings of the earlier effects give: duplicate or missing node, wrong kind, missing edge; otherwise it applies |
| `Outcomes.MountListFails` | storage-engine/src/effects.rs:226-285 | a list of mount effects is refused exactly at the first mount onto an occupied target or above a mounted path, or unmount above one |
| `Outcomes.AllocationListFails` | storage-engine/src/simulation_evidence.rs:243-276 | a list of allocations is refused exactly at the first reservation above, or release beyond 64 bits of, the running balance of a known domain |
| `Outcomes.StepOutcome` | storage-engine/src/effects.rs:22-90 | after every trace, any action at all steps exactly when it is valid, violates no condition, each effect can follow all effects before it, and the graph is well structured; otherwise it is refused for the first of these that fails |
| `Verdicts.VerdictIsHistory` | storage-engine/src/prerequisites.rs:37-190 | at every moment of every trace from an observed baseline the verdict on each of the 18 conditions is the one the baseline and the earlier steps give: last writes of nodes, edges, sizes and mounts, standing grants, fresh checks, reserved capacity |
| `Verdicts.EndpointRecalled` | storage-engine/src/prerequisites.rs:200-262 | an endpoint check is decided by a standing deactivation, then a standing access grant, then the observation if no step ever disturbed it, and is unknown otherwise |
| `Replay.ReplayPlan` | storage-engine/src/simulate.rs:280-324 | replays along the deterministic order; on success every stored contract equals the recalculated one in its own predecessor state, or both have one canonical form, and each step reports its recalculated contract, checks and stale facts; a mismatch or a refusal is reported exactly when the first action that cannot follow the earlier ones is that action, for that reason |
| `Replay.ReplayDeterministic` | storage-engine/src/simulate.rs:280-324 | two replays of one plan from one start agree as far as both go |
| `Replay.FullReplayIsTrace` | storage-engine/src/simulate.rs:280-324 | a full replay is a trace, so the whole-trace results apply to it |
| `Replay.ReplayExact` | storage-engine/src/simulate.rs:280-324 | a plan that stores its own predecessor contracts replays without any error and returns itself |
| `Goal.TopologyIsEquality` | storage-engine/src/simulate.rs:411-426 | equal counts and one-way inclusion are exactly equality of nodes, kinds, dependencies and relations |
| `Goal.CompareGraph` | storage-engine/src/simulate.rs:410-456 | satisfied exactly on equal topology and met sizes; violated exactly on unequal topology or a known size mismatch, in every enumeration order |
| `Goal.PersistentStatusIsLastWrite` | storage-engine/src/simulate.rs:482-511 | over a whole trace a persistent request is satisfied exactly when the last effect on its target wrote it and unknown exactly when no effect touched the target |
| `Goal.RuntimeStatusIsLastWrite` | storage-engine/src/simulate.rs:459-480 | over a whole trace a runtime request is satisfied exactly when the last runtime effect on its target added that very entry, or none touched it and it was observed; otherwise it is violated |
| `Goal.CompareGoal` | storage-engine/src/simulate.rs:381-406 | one check per requested aspect in order with its exact status; all satisfied exactly when the configuration meets the goal |
| `Analysis.CollectObligations` | storage-engine/src/simulate.rs:208-219 | the nested loops list the unknown checks of all steps in order |
| `Analysis.ObligationsExact` | storage-engine/src/simulate.rs:208-219 | the obligations of a replay are exactly the conditions that are unknown in the predecessor state of the action they belong to |
| `Analysis.CoverIntents` | storage-engine/src/simulate.rs:184-207 | each intent is credited with exactly the actions of its origin, in plan order, and judged on their operations |
| `Analysis.NoObligationsMeansSatisfied` | storage-engine/src/effects.rs:40-46 | no obligation remains exactly when every prerequisite of every step is satisfied in that step's own predecessor state |
| `Analysis.AnalysePlan` | storage-engine/src/simulate.rs:163-227 | error cases in source order; obligations are empty exactly when every prerequisite holds in its own predecessor state |
| `Analysis.SimulateForGoal` | storage-engine/src/simulate.rs:134-159 | the obligations are exactly the unknown conditions and goal aspects; the report is complete if and only if every prerequisite holds in its own predecessor state, the final state meets the goal, all intents are covered and nothing protected is touched |
| `EventRing.PushAllRefines` | storage-engine/src/execution.rs:908-920 | whatever is published, the ring holds exactly the newest 1024 events of the unbounded log, contiguously numbered from one |
| `EventRing.GapIsExact` | storage-engine/src/execution.rs:589-612 | a page is served exactly for published cursors; its gap flag is false exactly when the page is the full log after the cursor |
| `EventRing.PollingRebuildsLog` | storage-engine/src/execution.rs:589-612 | a client polling at arbitrary times receives no duplicate and rebuilds the whole log exactly when it saw no gap |
| `Execution.CoverIsExact` | storage-engine/src/execution.rs:924-934 | coverage holds exactly when the attested conditions equal the required set and none is repeated |
| `ExecutionRuns.EvaluateEvidence` | storage-engine/src/execution.rs:937-951 | a violation dominates unknown evidence, and success needs every status satisfied |
| `RunInvariants.EvidenceVerdict` | storage-engine/src/execution.rs:937-951 | the verdict in terms of the checks: violated, all satisfied, or neither |
| `RunInvariants.AdmissionVerdict` | storage-engine/src/execution.rs:673-676 | a report fails the action exactly when applicability or some check is violated, admits it exactly when all are satisfied, and otherwise leaves it in checking |
| `RunInvariants.MoveKeepsSound` | storage-engine/src/execution.rs:615-764 | moving the one unsettled action, or an unblocked waiting one, keeps sequencing, evidence, freshness and order of the whole run |
| `RunInvariants.StepKeepsSound` | storage-engine/src/execution.rs:615-824 | every accepted call keeps the whole run invariant |
| `RunInvariants.EveryRunIsSound` | storage-engine/src/execution.rs:615-824 | so does every finite sequence of calls on a fresh run |
| `RunCalls.CallAcceptedIff` | storage-engine/src/execution.rs:615-824 | each call is accepted exactly when the action is in the expected state, the report is for this attempt and about a newer well-formed observation, its checks and leases cover the contract (a write needs a write lease), nothing else is under way, and the sequence has room |
| `RunCalls.RejectionExplained` | storage-engine/src/execution.rs:615-824 | every rejection names a fault of the call that is really there |
| `RunCalls.AdmissionOutcome` | storage-engine/src/execution.rs:656-689 | an accepted admission leaves the action failed and the run stopped exactly when evidence is violated, admitted exactly when all is satisfied, in checking otherwise; answer and events say which |
| `RunCalls.CompletionOutcome` | storage-engine/src/execution.rs:714-732 | success leads to verification, failure and unknown outcome stop the run; exactly the one record, the observation and one event change |
| `RunCalls.VerificationOutcome` | storage-engine/src/execution.rs:735-764 | violated postconditions fail the action, missing evidence leaves its outcome unknown, and both stop the run; only full satisfaction verifies it |
| `RunCalls.GoalOutcome` | storage-engine/src/execution.rs:798-824 | the verdict returned and announced is true exactly when preservation holds and each requested aspect is attested as satisfied |
| `RunCalls.MarkOutcome` | storage-engine/src/execution.rs:693-710 | marking calls move one action, keep its evidence and record the reason given |
| `RunCalls.ProgressOutcome` | storage-engine/src/execution.rs:784-795 | an accepted progress message changes nothing but the log |
| `RunSafety.PredecessorsVerifiedFirst` | storage-engine/src/execution.rs:615-651 | at most one action is neither waiting nor verified; all transitive predecessors of a started action are verified, on older observations than the one admitting it |
| `RunSafety.VerifiedMeansEvidenced` | storage-engine/src/execution.rs:656-764 | a verified action carries exact, duplicate-free, all-satisfied evidence, leases that cover its resources with a write lease for every write, a successful completion, verification of that completion's observation, one probe instance and increasing epochs; verified actions occupy disjoint epoch intervals |
| `RunSafety.GoalNeedsEveryAction` | storage-engine/src/execution.rs:798-824 | a goal report exists only when all actions are verified, covers the aspects exactly and is newer than every completion |
| `RunSafety.StopLatch` | storage-engine/src/execution.rs:615-624 | once an action failed or became unknown, every call is rejected and no further calls change run or log; no goal report exists |
| `RunSafety.StepKeepsLog` | storage-engine/src/execution.rs:897-920 | one call, accepted or not, keeps the ring a refinement of the log and the log true to the run |
| `RunSafety.EveryLogIsTruthful` | storage-engine/src/execution.rs:897-920 | the ring refines the log, the log alone determines every action's state, and the announced dispatches form a prefix order |
| `RunSafety.EveryVerdictIsAnnounced` | storage-engine/src/execution.rs:673-689 | over every sequence of calls the last announced admission and goal verdicts are those of the evidence the run holds |
| `RunSafety.ProgressIsLogged` | storage-engine/src/execution.rs:784-795 | the log repeats every accepted progress message once, in call order, and no other |
| `RunSafety.DispatchFollowsPlan` | storage-engine/src/execution.rs:693-697 | dispatches are the start of a linear extension of the plan, and all of one when a goal report exists |
| `RunSafety.SettledRunProceeds` | storage-engine/src/execution.rs:615-651 | on a frozen plan an unstopped run with nothing in flight is fully verified or has an action that may begin |
| `RunSafety.CursorNeverWraps` | storage-engine/src/execution.rs:889-894 | the event cursor stays within 64 bits over every sequence of calls |
| `ExecutionRuns.ExecutionRun.constructor` | storage-engine/src/execution.rs:428-459 | a new attempt has every action waiting, no evidence and an empty log |
| `ExecutionRuns.ExecutionRun.CheckFreshObservation` | storage-engine/src/execution.rs:871-886 | accepts exactly newer observations of the same non-nil probe instance that are well formed |
| `ExecutionRuns.ExecutionRun.EnsureEventCapacity` | storage-engine/src/execution.rs:889-894 | fails exactly when the cursor would exceed 64 bits |
| `ExecutionRuns.ExecutionRun.PushEvent` | storage-engine/src/execution.rs:908-920 | pushes onto the bounded ring, or changes nothing |
| `ExecutionRuns.ExecutionRun.SetState` | storage-engine/src/execution.rs:897-905 | changes one state and announces it, or changes nothing |
| `ExecutionRuns.ExecutionRun.FindBlocker` | storage-engine/src/execution.rs:625-637 | reports the first listed predecessor that is not verified |
| `ExecutionRuns.ExecutionRun.BeginCheck` | storage-engine/src/execution.rs:615-651 | performs exactly the specified transition; a rejection leaves every field unchanged |
| `ExecutionRuns.ExecutionRun.RecordAdmission` | storage-engine/src/execution.rs:656-689 | performs exactly the specified transition; its two events are published together or not at all, also at cursor exhaustion |
| `ExecutionRuns.ExecutionRun.MarkDispatchStarted` | storage-engine/src/execution.rs:693-697 | performs exactly the specified transition; a rejection leaves every field unchanged |
| `ExecutionRuns.ExecutionRun.MarkPreDispatchFailed` | storage-engine/src/execution.rs:700-710 | performs exactly the specified transition; a rejection leaves every field unchanged |
| `ExecutionRuns.ExecutionRun.RecordCompletion` | storage-engine/src/execution.rs:714-732 | performs exactly the specified transition; a rejection leaves every field unchanged |
| `ExecutionRuns.ExecutionRun.RecordVerification` | storage-engine/src/execution.rs:735-764 | performs exactly the specified transition; a rejection leaves every field unchanged |
| `ExecutionRuns.ExecutionRun.MarkOutcomeUnknown` | storage-engine/src/execution.rs:768-781 | performs exactly the specified transition; a rejection leaves every field unchanged |
| `ExecutionRuns.ExecutionRun.RecordProgress` | storage-engine/src/execution.rs:784-795 | performs exactly the specified transition; a rejection leaves every field unchanged |
| `ExecutionRuns.ExecutionRun.RecordGoalVerification` | storage-engine/src/execution.rs:798-824 | performs exactly the specified transition; a rejection leaves every field unchanged |
| `ExecutionRuns.ExecutionRun.Perform` | storage-engine/src/execution.rs:615-824 | after any call the object is the state the specification computes from all calls so far, and a rejected call leaves view and log unchanged |
| `ExecutionRuns.ExecutionRun.ReadEvents` | storage-engine/src/execution.rs:589-605 | pages relate to the unbounded log of the calls made: cursor check, contents and exact gap |
| `Delivery.Observer.Notify` | disksgraph/src/runs.rs:50-56 | the loop delivers every retained event after the cursor once and advances the cursor to the last |
| `Delivery.ObserverSeesEverythingIff` | disksgraph/src/runs.rs:45-57 | observation never repeats an event and is complete exactly when at most 1024 events are published between notifications |
| `Delivery.ObserverReceivesWholeRun` | disksgraph/src/runs.rs:45-57 | an observer notified at least once every 512 calls receives the complete log of any run |
| `Delivery.LivePageIsReplay` | disksgraph/src/runs.rs:66-74 | the page published with a live snapshot is what replay from cursor zero returns |
| `Delivery.PublishLive` | disksgraph/src/runs.rs:66-83 | the mailbox afterwards holds one run state together with that state's own page |
| `Delivery.MailboxAgreesWithRun` | disksgraph-ffi/src/jobs.rs:72-91 | for every cursor a mailbox page equals the page the run returned at publication |
| `Delivery.Job.Update` | disksgraph-ffi/src/jobs.rs:54-59 | given a snapshot and its own page, the mailbox is coherent and answers every cursor as the shown run does |
| `Delivery.Job.Finish` | disksgraph-ffi/src/jobs.rs:61-66 | records the outcome and keeps the last evidence |
| `Delivery.Job.Poll` | disksgraph-ffi/src/jobs.rs:72-95 | answers every cursor as the snapshotted run would, future cursors refused, and reports the flags of that snapshot |
| `Delivery.MailboxClientRebuildsLog` | disksgraph-ffi/src/jobs.rs:72-95 | a client polling successive publications rebuilds the published log exactly when it saw no gap |
| `Registry.NextKeepsInvariant` | disksgraph-ffi/src/registry.rs:221-455 | every step of open, call, close and worker keeps the ownership, lock, channel and mailbox invariant |
| `Registry.EveryInterleavingKeepsInvariant` | disksgraph-ffi/src/registry.rs:221-455 | so does every interleaving |
| `Registry.OwnersBoundedIdsFresh` | disksgraph-ffi/src/registry.rs:76-93 | owners and reservations equal the slot count, at most 32; no context or job identity is handed out twice |
| `Registry.OneMailboxPerContext` | disksgraph-ffi/src/registry.rs:400-419 | a live context has at most one unfinished job and retains its mailbox from the start call on |
| `Registry.MailboxReleasedWhenFinished` | disksgraph-ffi/src/registry.rs:387-393 | only an explicit job close clears a mailbox, and only when its job is finished |
| `Registry.CallSendsIntoEmptyChannel` | disksgraph-ffi/src/registry.rs:400-433 | a caller sends only into an empty one-slot channel of a context it has locked |
| `Registry.WaitingCallIsServed` | disksgraph-ffi/src/registry.rs:428-433 | a waiting caller holds the lock and its request is queued or being handled |
| `Registry.SlotFollowsJoin` | disksgraph-ffi/src/registry.rs:126-139 | whichever step removes an owner, after a close or a failed open, its worker has ended and was joined, and exactly one slot is given back |
| `RegistryService.OpenIsServed` | disksgraph-ffi/src/registry.rs:328-360 | from any state with a free slot an undisturbed open ends with a new listed owner under the next identity, and nothing else changed |
| `RegistryService.UnspawnedOpenLeavesNothing` | disksgraph-ffi/src/registry.rs:334-343 | an open whose thread cannot be spawned gives everything back but the identity |
| `RegistryService.RefusedOpenLeavesNothing` | disksgraph-ffi/src/registry.rs:334-351 | an open whose worker refuses is joined first and then gives everything back but the identity |
| `RegistryService.FullRegistryRefuses` | disksgraph-ffi/src/registry.rs:76-87 | at 32 owners no further slot is reserved |
| `RegistryService.CallIsServed` | disksgraph-ffi/src/registry.rs:363-433 | on a ready context without a running job a synchronous call is queued, handled and answered, and the system is exactly as before |
| `RegistryService.JobIsStarted` | disksgraph-ffi/src/registry.rs:400-419 | on a ready live context without mailbox a start queues the job, records its mailbox and takes the next job identity, all in one visit |
| `RegistryService.JobIsApplied` | disksgraph-ffi/src/registry.rs:238-246 | a queued job is applied and finished by the worker alone |
| `RegistryService.JobCloseIsServed` | disksgraph-ffi/src/registry.rs:387-393 | a job close clears the mailbox exactly when the identity matches and the job is not running, and changes nothing else |
| `RegistryService.CloseIsStarted` | disksgraph-ffi/src/registry.rs:437-453 | a close takes the context off the list, locks it and leaves the worker the stop message |
| `RegistryService.StopIsObeyed` | disksgraph-ffi/src/registry.rs:221-223 | a worker that finds the stop message ends |
| `RegistryService.CloseIsCompleted` | disksgraph-ffi/src/registry.rs:126-139 | after the worker ended, joining it and dropping the last reference removes the owner and gives one slot back |
| `RegistryService.JobFinishedExactly` | disksgraph-ffi/src/registry.rs:284-296 | over every interleaving a job is finished exactly when some step was its worker's completion of it |
| `RegistryService.PanicSilences` | disksgraph-ffi/src/registry.rs:224-246 | a panic while handling a call or applying a job leaves a worker that takes no further message |
| `RegistryService.SilencedForGood` | disksgraph-ffi/src/registry.rs:221-250 | over every interleaving a worker that panicked or was stopped never serves its context again, and the identity gets no other owner |
| `RegistryDrain.EverySystemCanDrain` | disksgraph-ffi/src/registry.rs:126-455 | freedom from deadlock: after every interleaving some continuation lets every open, call, job and close finish, joins every worker and frees every slot |

## Left out

- The provider catalogue behind contract description, action validation and canonicalisation: parameters of the model.
- Long match tables over node kinds, actions and intents (kind classes, planned and referenced nodes, intent coverage): a representative subset of constructors stands for them.
- Diagnostic texts and human-readable reasons: only the variant of each error and status is kept; progress details are bounded in characters where the source bounds bytes.
- The order of accumulated ledger lists that the source only searches (invalidated facts, projected nodes, allocations and targets): modelled as sets.
- Intent coverage and protected-area validation of the composer's goal entry points: only their place in the analysis is modelled.
- Documents, UUID generation and the construction of a run from a stored document: a run starts from a frozen plan and a list of goal aspects.
- The run's status snapshot: delivered snapshots are copies of the whole run value, so the derived finished flag is not modelled.
- Stability of a satisfied goal report: the source lets a newer report replace it.
- ResourceOrder.AllOrdersSameResult: takes commutation of independent steps as a hypothesis about the step function, since contracts do not promise it.
- Delivery.Job.Update: a poisoned mailbox lock, after which updates are dropped and polls refused, is not modelled.
- RegistryDrain.EverySystemCanDrain: shows that some continuation drains the registry; that every fair schedule does is not claimed, and a worker may drop its receiver with a job still queued, which then never finishes.
- Registry.OwnersBoundedIdsFresh: configuration parsing, request parsing and poisoned registry locks are not modelled; an open that fails before reserving a slot has no step.
- The runtime coordinator, leases, checkpoint store, live probing, editing, wire formats, command line and foreign-function bridges.
- Exclusive borrows of the dependency list and of the ledger halves: methods take the list or ledger and return the updated one, and `Projection` alone holds them as mutable fields; aliasing between them cannot arise in the source.
- Threads, mutexes and channels of the registry: they appear as fields of one system value changed by atomic steps, so memory ordering below that granularity is not captured.
