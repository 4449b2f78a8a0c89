/** Consequences for every run: ordering, evidence, the stop latch and the published log. */
module RunSafety {
  import opened Wrappers
  import opened Dag
  import opened StorageModel
  import opened Plan
  import opened EventRing
  import opened Execution
  import opened RunInvariants
  import opened RunCalls

  // ---------------------------------------------------------------------------
  // Order and evidence

  lemma {:induction false} WalkHonoured(run: Run, x: nat, y: nat, k: nat)
    requires Sound(run) && y < |run.actions| && !run.actions[y].state.Waiting?
    requires ReachIn(run.plan.dependencies, x, y, k)
    ensures x < |run.actions| && run.actions[x].state.Verified?
    ensures run.actions[y].admission.Some? ==> Precedes(run.actions[x], run.actions[y])
    decreases k
  {
    var deps := run.plan.dependencies;
    if k == 0 {
      var e :| 0 <= e < |deps| && deps[e].before == x && deps[e].after == y;
      assert Honoured(run.actions, deps[e]);
    } else {
      var c: nat :| HasEdge(deps, x, c) && ReachIn(deps, c, y, k - 1);
      WalkHonoured(run, c, y, k - 1);
      assert Chain(run.id, c, run.plan.actions[c].contract, run.actions[c]);
      var e :| 0 <= e < |deps| && deps[e].before == x && deps[e].after == c;
      assert Honoured(run.actions, deps[e]);
    }
  }

  /**
   In every reachable run: one action at a time; nothing starts before all its
   transitive predecessors are verified, and it is admitted on a newer
   observation than any of theirs.
   */
  lemma PredecessorsVerifiedFirst(id: nat, plan: ExecutionPlan, aspects: seq<GoalAspect>, calls: seq<Call>)
    ensures var run := Execute(Start(id, plan, aspects), calls).run;
      && |run.actions| == |plan.actions|
      && Sequential(run.actions)
      && forall x: nat, y: nat ::
           y < |run.actions| && !run.actions[y].state.Waiting? && Reach(plan.dependencies, x, y) ==>
             && x < |run.actions| && run.actions[x].state.Verified?
             && (run.actions[y].admission.Some? ==> Precedes(run.actions[x], run.actions[y]))
  {
    var run := Execute(Start(id, plan, aspects), calls).run;
    EveryRunIsSound(id, plan, aspects, calls);
    forall x: nat, y: nat | y < |run.actions| && !run.actions[y].state.Waiting? && Reach(plan.dependencies, x, y)
      ensures x < |run.actions| && run.actions[x].state.Verified?
      ensures run.actions[y].admission.Some? ==> Precedes(run.actions[x], run.actions[y])
    {
      var k: nat :| ReachIn(plan.dependencies, x, y, k);
      WalkHonoured(run, x, y, k);
    }
  }

  /** What a verified action can show for itself. */
  ghost predicate FullyEvidenced(id: nat, a: nat, contract: ActionContract, r: ActionRun) {
    && r.admission.Some? && r.completion.Some? && r.verification.Some?
    && var admission := r.admission.value;
    && var completion := r.completion.value;
    && var verification := r.verification.value;
    && admission.run == id && completion.run == id && verification.run == id
    && admission.action == a && completion.action == a && verification.action == a
    && AttestsExactly(contract.prerequisites, admission.checks)
    && AttestsExactly(contract.postconditions, verification.checks)
    && admission.applicability.LiveSatisfied?
    && AllSatisfied(admission.checks) && AllSatisfied(verification.checks)
    && HoldsAll(admission.held, contract.resources)
    && completion.outcome.Succeeded?
    && verification.observation == completion.observation.reference
    && admission.observation.reference.instance == completion.observation.reference.instance != 0
    && admission.observation.reference.epoch < completion.observation.reference.epoch
  }

  /** Verified actions carry complete evidence, at pairwise disjoint epochs of one probe instance. */
  lemma VerifiedMeansEvidenced(id: nat, plan: ExecutionPlan, aspects: seq<GoalAspect>, calls: seq<Call>)
    ensures var run := Execute(Start(id, plan, aspects), calls).run;
      && |run.actions| == |plan.actions|
      && (forall i :: 0 <= i < |run.actions| && run.actions[i].state.Verified?
            ==> FullyEvidenced(id, i, plan.actions[i].contract, run.actions[i])
                && Seen(run.latest, run.actions[i].completion.value.observation.reference))
      && forall i, j :: 0 <= i < |run.actions| && 0 <= j < |run.actions| && i != j
                        && run.actions[i].state.Verified? && run.actions[j].state.Verified?
           ==> Precedes(run.actions[i], run.actions[j]) || Precedes(run.actions[j], run.actions[i])
  {
    var run := Execute(Start(id, plan, aspects), calls).run;
    EveryRunIsSound(id, plan, aspects, calls);
    forall i | 0 <= i < |run.actions| && run.actions[i].state.Verified?
      ensures FullyEvidenced(id, i, plan.actions[i].contract, run.actions[i])
      ensures Seen(run.latest, run.actions[i].completion.value.observation.reference)
    {
      var contract := plan.actions[i].contract;
      assert Chain(run.id, i, contract, run.actions[i]);
      assert Timed(run.latest, run.actions[i]);
      CoverIsExact(contract.prerequisites, run.actions[i].admission.value.checks);
      CoverIsExact(contract.postconditions, run.actions[i].verification.value.checks);
      AllLeasedIsHeld(run.actions[i].admission.value.held, contract.resources);
    }
  }

  /** A goal report rests on every action and on a newer observation than any completion. */
  lemma GoalNeedsEveryAction(id: nat, plan: ExecutionPlan, aspects: seq<GoalAspect>, calls: seq<Call>)
    ensures var run := Execute(Start(id, plan, aspects), calls).run;
      run.goal.Some? ==>
        && AttestsExactly(aspects, run.goal.value.checks)
        && forall i :: 0 <= i < |run.actions| ==>
             && run.actions[i].state.Verified? && run.actions[i].completion.Some?
             && run.actions[i].completion.value.observation.reference.epoch < run.goal.value.observation.reference.epoch
             && run.actions[i].completion.value.observation.reference.instance
                == run.goal.value.observation.reference.instance
  {
    var run := Execute(Start(id, plan, aspects), calls).run;
    EveryRunIsSound(id, plan, aspects, calls);
    if run.goal.Some? {
      CoverIsExact(aspects, run.goal.value.checks);
      forall i | 0 <= i < |run.actions|
        ensures run.actions[i].state.Verified? && run.actions[i].completion.Some?
        ensures Seen(run.latest, run.actions[i].completion.value.observation.reference)
      {
        assert Chain(run.id, i, run.plan.actions[i].contract, run.actions[i]);
        assert Timed(run.latest, run.actions[i]);
      }
    }
  }

  // ---------------------------------------------------------------------------
  // Stop latch

  /** A stopped run has nothing in flight and something unverified. */
  ghost predicate Latched(run: Run) {
    && (forall i :: 0 <= i < |run.actions| ==> !InFlight(run.actions[i].state))
    && exists i :: 0 <= i < |run.actions| && !run.actions[i].state.Verified?
  }

  lemma StoppedIsLatched(run: Run)
    requires Sequential(run.actions) && IsStopped(run)
    ensures Latched(run)
  {
    var f :| 0 <= f < |run.actions| && (run.actions[f].state.Failed? || run.actions[f].state.OutcomeUnknown?);
    assert Unsettled(run.actions[f].state);
    assert !run.actions[f].state.Verified?;
  }

  lemma LatchedRejects(run: Run, call: Call)
    requires WellSized(run) && IsStopped(run) && Latched(run)
    ensures Transition(run, call).Err?
  {
  }

  lemma StoppedRejects(run: Run, call: Call)
    requires Sound(run) && IsStopped(run)
    ensures Transition(run, call).Err?
  {
    StoppedIsLatched(run);
    LatchedRejects(run, call);
  }

  lemma {:induction false} StoppedStays(h: History, calls: seq<Call>)
    requires Sound(h.run) && IsStopped(h.run)
    ensures Execute(h, calls) == h
    decreases |calls|
  {
    if calls != [] {
      StoppedStays(h, calls[..|calls| - 1]);
      StoppedRejects(h.run, calls[|calls| - 1]);
    }
  }

  lemma {:induction false} ExecuteConcat(h: History, calls: seq<Call>, more: seq<Call>)
    requires WellSized(h.run)
    ensures Execute(h, calls + more) == Execute(Execute(h, calls), more)
    decreases |more|
  {
    if more == [] {
      assert calls + more == calls;
    } else {
      var all := calls + more;
      assert all[..|all| - 1] == calls + more[..|more| - 1];
      ExecuteConcat(h, calls, more[..|more| - 1]);
    }
  }

  /** Once an action failed or became unknown, no further calls change run or log. */
  lemma StopLatch(id: nat, plan: ExecutionPlan, aspects: seq<GoalAspect>, calls: seq<Call>, more: seq<Call>)
    ensures var h := Execute(Start(id, plan, aspects), calls);
      IsStopped(h.run) ==>
        && h.run.goal.None?
        && Execute(Start(id, plan, aspects), calls + more) == h
        && forall call: Call :: Transition(h.run, call).Err?
  {
    var h := Execute(Start(id, plan, aspects), calls);
    EveryRunIsSound(id, plan, aspects, calls);
    if IsStopped(h.run) {
      ExecuteConcat(Start(id, plan, aspects), calls, more);
      StoppedStays(h, more);
      forall call: Call ensures Transition(h.run, call).Err? {
        StoppedRejects(h.run, call);
      }
      assert GoalBacked(h.run);
    }
  }

  // ---------------------------------------------------------------------------
  // Published log

  /** The verdict of the last goal check a reader of the whole log finds. */
  function LastGoal(log: seq<RunEvent>): Option<bool> {
    if log == [] then None
    else
      match log[|log| - 1].kind
      case GoalChecked(met) => Some(met)
      case _ => LastGoal(log[..|log| - 1])
  }

  /** The verdict of the last admission check of an action. */
  function LastAdmission(log: seq<RunEvent>, a: nat): Option<bool> {
    if log == [] then None
    else
      match log[|log| - 1].kind
      case AdmissionChecked(action, admitted) =>
        if action == a then Some(admitted) else LastAdmission(log[..|log| - 1], a)
      case _ => LastAdmission(log[..|log| - 1], a)
  }

  /** The log's last verdicts are those of the evidence the run holds. */
  ghost predicate Announced(run: Run, log: seq<RunEvent>) {
    && LastGoal(log) == (if run.goal.None? then None else Some(Achieves(run.aspects, run.goal.value)))
    && forall a :: 0 <= a < |run.actions| ==>
         LastAdmission(log, a)
         == if run.actions[a].admission.None? then None else Some(Passed(run.actions[a].admission.value))
  }

  lemma VerdictsGrow(log: seq<RunEvent>, event: RunEvent)
    ensures LastGoal(log + [event]) == if event.kind.GoalChecked? then Some(event.kind.verified) else LastGoal(log)
    ensures forall a: nat ::
      LastAdmission(log + [event], a)
      == if event.kind.AdmissionChecked? && event.kind.action == a then Some(event.kind.admitted)
         else LastAdmission(log, a)
  {
    assert (log + [event])[..|log|] == log;
  }

  /** Events that announce no verdict leave the verdicts alone. */
  lemma SilentIsAnnounced(run: Run, log: seq<RunEvent>, next: Run, event: RunEvent)
    requires Announced(run, log) && !event.kind.GoalChecked? && !event.kind.AdmissionChecked?
    requires next.goal == run.goal && next.aspects == run.aspects && |next.actions| == |run.actions|
    requires forall i :: 0 <= i < |run.actions| ==> next.actions[i].admission == run.actions[i].admission
    ensures Announced(next, log + [event])
  {
    VerdictsGrow(log, event);
  }

  lemma AdmissionIsAnnounced(h: History, report: AdmissionReport)
    requires WellSized(h.run) && Announced(h.run, h.log) && Transition(h.run, RecordAdmission(report)).Ok?
    ensures var change := Transition(h.run, RecordAdmission(report)).value;
      Announced(change.next, h.log + Numbered(h.run.id, |h.log|, change.published))
  {
    var change := Transition(h.run, RecordAdmission(report)).value;
    var events := Numbered(h.run.id, |h.log|, change.published);
    AdmissionOutcome(h.run, report);
    VerdictsGrow(h.log, events[0]);
    if |events| == 1 {
      assert events == [events[0]];
    } else {
      assert h.log + events == h.log + [events[0]] + [events[1]];
      SilentIsAnnounced(change.next, h.log + [events[0]], change.next, events[1]);
    }
  }

  lemma StepIsAnnounced(h: History, call: Call)
    requires WellSized(h.run) && Announced(h.run, h.log)
    ensures Announced(Apply(h, call).run, Apply(h, call).log)
  {
    if Transition(h.run, call).Ok? {
      var change := Transition(h.run, call).value;
      var events := Numbered(h.run.id, |h.log|, change.published);
      if call.RecordAdmission? {
        AdmissionIsAnnounced(h, call.admission);
      } else {
        assert events == [events[0]];
        if call.RecordGoalVerification? {
          GoalOutcome(h.run, call.goal);
          VerdictsGrow(h.log, events[0]);
        } else {
          SilentIsAnnounced(h.run, h.log, change.next, events[0]);
        }
      }
    }
  }

  /** Whoever reads the whole log learns the verdict of every admission and of the goal. */
  lemma {:induction false} EveryVerdictIsAnnounced(id: nat, plan: ExecutionPlan, aspects: seq<GoalAspect>,
                                                   calls: seq<Call>)
    ensures var h := Execute(Start(id, plan, aspects), calls);
      Announced(h.run, h.log)
    decreases |calls|
  {
    if calls != [] {
      var front := calls[..|calls| - 1];
      EveryVerdictIsAnnounced(id, plan, aspects, front);
      StepIsAnnounced(Execute(Start(id, plan, aspects), front), calls[|calls| - 1]);
    }
  }

  /** The progress messages of a log, in order. */
  function ProgressIn(log: seq<RunEvent>): seq<(nat, string)> {
    if log == [] then []
    else
      match log[|log| - 1].kind
      case Progress(action, detail) => ProgressIn(log[..|log| - 1]) + [(action, detail)]
      case _ => ProgressIn(log[..|log| - 1])
  }

  /** The messages the host managed to report, in call order. */
  ghost function ProgressReported(h: History, calls: seq<Call>): seq<(nat, string)>
    requires WellSized(h.run)
    decreases |calls|
  {
    if calls == [] then []
    else
      var front, last := calls[..|calls| - 1], calls[|calls| - 1];
      ProgressReported(h, front)
      + if last.RecordProgress? && Permits(Execute(h, front).run, last) then [(last.action, last.detail)] else []
  }

  lemma ProgressGrows(log: seq<RunEvent>, event: RunEvent)
    ensures ProgressIn(log + [event])
            == ProgressIn(log) + if event.kind.Progress? then [(event.kind.action, event.kind.detail)] else []
  {
    assert (log + [event])[..|log|] == log;
  }

  lemma AdmissionReportsNoProgress(h: History, report: AdmissionReport)
    requires WellSized(h.run) && Transition(h.run, RecordAdmission(report)).Ok?
    ensures ProgressIn(Apply(h, RecordAdmission(report)).log) == ProgressIn(h.log)
  {
    var change := Transition(h.run, RecordAdmission(report)).value;
    var events := Numbered(h.run.id, |h.log|, change.published);
    AdmissionOutcome(h.run, report);
    ProgressGrows(h.log, events[0]);
    if |events| == 1 {
      assert events == [events[0]];
    } else {
      assert h.log + events == h.log + [events[0]] + [events[1]];
      ProgressGrows(h.log + [events[0]], events[1]);
    }
  }

  lemma OneEventReports(h: History, kind: RunEventKind)
    ensures ProgressIn(h.log + Numbered(h.run.id, |h.log|, [kind]))
            == ProgressIn(h.log) + if kind.Progress? then [(kind.action, kind.detail)] else []
  {
    var events := Numbered(h.run.id, |h.log|, [kind]);
    assert events == [events[0]];
    ProgressGrows(h.log, events[0]);
  }

  /** Every accepted call but an admission publishes one event, and only progress publishes progress. */
  lemma PublishesOne(run: Run, call: Call)
    requires WellSized(run) && Transition(run, call).Ok? && !call.RecordAdmission?
    ensures var published := Transition(run, call).value.published;
      && published == [published[0]]
      && published[0].Progress? == call.RecordProgress?
      && (call.RecordProgress? ==> published[0] == Progress(call.action, call.detail))
  {
  }

  lemma AcceptedReportsProgress(h: History, call: Call)
    requires WellSized(h.run) && Transition(h.run, call).Ok? && !call.RecordAdmission?
    ensures ProgressIn(Apply(h, call).log)
            == ProgressIn(h.log) + if call.RecordProgress? then [(call.action, call.detail)] else []
  {
    PublishesOne(h.run, call);
    OneEventReports(h, Transition(h.run, call).value.published[0]);
  }

  lemma StepReportsProgress(h: History, call: Call)
    requires WellSized(h.run)
    ensures ProgressIn(Apply(h, call).log)
            == ProgressIn(h.log)
               + if call.RecordProgress? && Permits(h.run, call) then [(call.action, call.detail)] else []
  {
    CallAcceptedIff(h.run, call);
    if Transition(h.run, call).Ok? {
      if call.RecordAdmission? {
        AdmissionReportsNoProgress(h, call.admission);
      } else {
        AcceptedReportsProgress(h, call);
      }
    }
  }

  /** The log repeats every accepted progress message once, in order, and invents none. */
  lemma {:induction false} ProgressIsLogged(id: nat, plan: ExecutionPlan, aspects: seq<GoalAspect>, calls: seq<Call>)
    ensures ProgressIn(Execute(Start(id, plan, aspects), calls).log)
            == ProgressReported(Start(id, plan, aspects), calls)
    decreases |calls|
  {
    if calls != [] {
      var front := calls[..|calls| - 1];
      ProgressIsLogged(id, plan, aspects, front);
      StepReportsProgress(Execute(Start(id, plan, aspects), front), calls[|calls| - 1]);
    }
  }

  /** The state a reader of the whole log attributes to an action. */
  function LastState(log: seq<RunEvent>, a: nat): ActionRunState {
    if log == [] then Waiting
    else
      match log[|log| - 1].kind
      case ActionState(action, state) => if action == a then state else LastState(log[..|log| - 1], a)
      case _ => LastState(log[..|log| - 1], a)
  }

  /** Actions in the order in which their dispatch was announced. */
  function Dispatched(log: seq<RunEvent>): seq<nat> {
    if log == [] then []
    else
      match log[|log| - 1].kind
      case ActionState(action, Running) => Dispatched(log[..|log| - 1]) + [action]
      case _ => Dispatched(log[..|log| - 1])
  }

  /** The action crossed the dispatch boundary. */
  predicate WasDispatched(r: ActionRun) {
    || r.state.Running? || r.state.Verifying? || r.state.Verified? || r.state.OutcomeUnknown?
    || (r.state.Failed? && r.completion.Some?)
  }

  ghost predicate Told(run: Run, log: seq<RunEvent>) {
    && (forall a :: 0 <= a < |run.actions| ==> LastState(log, a) == run.actions[a].state)
    && IsPrefixOrder(|run.actions|, run.plan.dependencies, Dispatched(log))
    && forall a :: 0 <= a < |run.actions| ==> (a in Dispatched(log) <==> WasDispatched(run.actions[a]))
  }

  lemma LogGrows(log: seq<RunEvent>, event: RunEvent)
    ensures forall a: nat ::
      LastState(log + [event], a)
      == if event.kind.ActionState? && event.kind.action == a then event.kind.state
         else LastState(log, a)
    ensures Dispatched(log + [event])
            == if event.kind.ActionState? && event.kind.state.Running? then Dispatched(log) + [event.kind.action]
               else Dispatched(log)
  {
    assert (log + [event])[..|log|] == log;
  }

  /** Announcing one action's new state keeps the log truthful. */
  lemma MoveIsTold(run: Run, log: seq<RunEvent>, next: Run, a: nat, event: RunEvent)
    requires Sound(run) && Told(run, log) && a < |run.actions|
    requires next.plan == run.plan && |next.actions| == |run.actions|
    requires next.actions == run.actions[a := next.actions[a]]
    requires event.kind == ActionState(a, next.actions[a].state)
    requires run.actions[a].state.Admitted? || next.actions[a].state != Running
    requires next.actions[a].state.Running? || (WasDispatched(next.actions[a]) <==> WasDispatched(run.actions[a]))
    ensures Told(next, log + [event])
  {
    LogGrows(log, event);
    if next.actions[a].state.Running? {
      var deps := run.plan.dependencies;
      forall x: nat | HasEdge(deps, x, a) ensures x in Dispatched(log) {
        WalkHonoured(run, x, a, 0);
      }
      PrefixExtend(|run.actions|, deps, Dispatched(log), a);
    }
  }

  /** Events other than state changes tell nothing about states. */
  lemma NoteIsTold(run: Run, log: seq<RunEvent>, next: Run, event: RunEvent)
    requires Told(run, log) && next.plan == run.plan && |next.actions| == |run.actions| && !event.kind.ActionState?
    requires forall i :: 0 <= i < |run.actions| ==>
               next.actions[i].state == run.actions[i].state && next.actions[i].completion == run.actions[i].completion
    ensures Told(next, log + [event])
  {
    LogGrows(log, event);
  }

  lemma AdmissionIsTold(h: History, report: AdmissionReport)
    requires Sound(h.run) && Told(h.run, h.log) && Admission(h.run, report).Ok?
    ensures var change := Admission(h.run, report).value;
      Told(change.next, h.log + Numbered(h.run.id, |h.log|, change.published))
  {
    var change := Admission(h.run, report).value;
    var a := report.action;
    var events := Numbered(h.run.id, |h.log|, change.published);
    AdmissionVerdict(report);
    assert Chain(h.run.id, a, h.run.plan.actions[a].contract, h.run.actions[a]);
    if |events| == 1 {
      assert events == [events[0]];
      NoteIsTold(h.run, h.log, change.next, events[0]);
    } else {
      var log' := h.log + [events[0]];
      NoteIsTold(h.run, h.log, h.run, events[0]);
      assert h.log + events == log' + [events[1]];
      MoveIsTold(h.run, log', change.next, a, events[1]);
    }
  }

  ghost predicate StaysTold(h: History, change: Change) {
    Told(change.next, h.log + Numbered(h.run.id, |h.log|, change.published))
  }

  lemma EnterIsTold(h: History, base: Run, a: nat, r: ActionRun, result: bool)
    requires Sound(h.run) && Told(h.run, h.log) && a < |h.run.actions|
    requires base.plan == h.run.plan && base.actions == h.run.actions
    requires h.run.actions[a].state.Admitted? || r.state != Running
    requires r.state.Running? || (WasDispatched(r) <==> WasDispatched(h.run.actions[a]))
    ensures StaysTold(h, Enter(base, a, r, result))
  {
    var change := Enter(base, a, r, result);
    var events := Numbered(h.run.id, |h.log|, change.published);
    assert events == [events[0]];
    MoveIsTold(h.run, h.log, change.next, a, events[0]);
  }

  lemma ReportIsTold(h: History, call: Call)
    requires Sound(h.run) && Told(h.run, h.log) && Transition(h.run, call).Ok?
    requires call.RecordCompletion? || call.RecordVerification?
    ensures StaysTold(h, Transition(h.run, call).value)
  {
    match call
    case RecordCompletion(completion) =>
      var a := completion.action;
      var r := h.run.actions[a].(state := CompletionState(completion.outcome), completion := Some(completion));
      EnterIsTold(h, h.run.(latest := Some(completion.observation)), a, r, true);
    case RecordVerification(report) =>
      var a := report.action;
      var state := EvidenceState(Statuses(report.checks), Verified, OutcomeUnknown);
      EvidenceVerdict(report.checks, Verified, OutcomeUnknown);
      EnterIsTold(h, h.run, a, h.run.actions[a].(state := state, verification := Some(report)), state.Verified?);
  }

  lemma MarkIsTold(h: History, call: Call)
    requires Sound(h.run) && Told(h.run, h.log) && Transition(h.run, call).Ok?
    requires call.BeginCheck? || call.MarkDispatchStarted? || call.MarkPreDispatchFailed? || call.MarkOutcomeUnknown?
    ensures StaysTold(h, Transition(h.run, call).value)
  {
    MarkEnters(h.run, call);
    var r := Marked(h.run, call);
    assert Chain(h.run.id, call.action, h.run.plan.actions[call.action].contract, h.run.actions[call.action]);
    EnterIsTold(h, h.run, call.action, r, true);
  }

  /** The record a marking call leaves behind. */
  function Marked(run: Run, call: Call): ActionRun
    requires call.BeginCheck? || call.MarkDispatchStarted? || call.MarkPreDispatchFailed? || call.MarkOutcomeUnknown?
    requires call.action < |run.actions|
  {
    var r := run.actions[call.action];
    match call
    case BeginCheck(_) => r.(state := Checking)
    case MarkDispatchStarted(_) => r.(state := Running)
    case MarkPreDispatchFailed(_, reason) => r.(state := Failed, preDispatchFailure := Some(reason))
    case MarkOutcomeUnknown(_, reason) => r.(state := OutcomeUnknown, unknownReason := Some(reason))
  }

  lemma MarkEnters(run: Run, call: Call)
    requires WellSized(run) && Transition(run, call).Ok?
    requires call.BeginCheck? || call.MarkDispatchStarted? || call.MarkPreDispatchFailed? || call.MarkOutcomeUnknown?
    ensures call.action < |run.actions|
    ensures Transition(run, call).value == Enter(run, call.action, Marked(run, call), true)
    ensures match call
            case BeginCheck(_) => run.actions[call.action].state.Waiting?
            case MarkOutcomeUnknown(_, _) =>
              run.actions[call.action].state.Running? || run.actions[call.action].state.Verifying?
            case _ => run.actions[call.action].state.Admitted?
  {
  }

  lemma StepIsTold(h: History, call: Call)
    requires Sound(h.run) && Told(h.run, h.log) && Transition(h.run, call).Ok?
    ensures StaysTold(h, Transition(h.run, call).value)
  {
    if call.RecordAdmission? {
      AdmissionIsTold(h, call.admission);
    } else if call.RecordCompletion? || call.RecordVerification? {
      ReportIsTold(h, call);
    } else if call.RecordProgress? || call.RecordGoalVerification? {
      var change := Transition(h.run, call).value;
      var events := Numbered(h.run.id, |h.log|, change.published);
      assert events == [events[0]];
      NoteIsTold(h.run, h.log, change.next, events[0]);
    } else {
      MarkIsTold(h, call);
    }
  }

  lemma StepRefines(h: History, call: Call)
    requires WellSized(h.run) && h.run.ring.run == h.run.id && Refines(h.run.ring, h.log) && Transition(h.run, call).Ok?
    ensures Refines(Apply(h, call).run.ring, Apply(h, call).log)
  {
    var change := Transition(h.run, call).value;
    PushAllRefines(h.run.ring, h.log, change.published);
    assert change.next.ring == PushAll(h.run.ring, change.published);
  }

  /** One call, accepted or not, keeps ring and log in step with the run. */
  lemma StepKeepsLog(h: History, call: Call)
    requires Sound(h.run) && Refines(h.run.ring, h.log) && Told(h.run, h.log)
    ensures Refines(Apply(h, call).run.ring, Apply(h, call).log)
    ensures Told(Apply(h, call).run, Apply(h, call).log)
  {
    if Transition(h.run, call).Ok? {
      StepIsTold(h, call);
      StepRefines(h, call);
    }
  }

  /**
   The ring always holds the newest part of the log, and the log alone tells the
   state of every action and a valid start of an execution order.
   */
  lemma {:induction false} EveryLogIsTruthful(id: nat, plan: ExecutionPlan, aspects: seq<GoalAspect>, calls: seq<Call>)
    ensures var h := Execute(Start(id, plan, aspects), calls);
      Refines(h.run.ring, h.log) && Told(h.run, h.log)
    decreases |calls|
  {
    if calls != [] {
      var front := calls[..|calls| - 1];
      EveryLogIsTruthful(id, plan, aspects, front);
      EveryRunIsSound(id, plan, aspects, front);
      StepKeepsLog(Execute(Start(id, plan, aspects), front), calls[|calls| - 1]);
    }
  }

  lemma {:induction false} PushAllNext(ring: Ring, kinds: seq<RunEventKind>)
    ensures PushAll(ring, kinds).next == ring.next + |kinds|
    decreases |kinds|
  {
    if kinds != [] {
      PushAllNext(Push(ring, kinds[0]), kinds[1..]);
    }
  }

  lemma CursorStaysInRange(h: History, call: Call)
    requires WellSized(h.run) && h.run.ring.next <= U64_MAX
    ensures h.run.ring.next <= Apply(h, call).run.ring.next <= U64_MAX
  {
    var step := Transition(h.run, call);
    if step.Ok? {
      PushAllNext(h.run.ring, step.value.published);
    }
  }

  /** The cursor never wraps. */
  lemma {:induction false} CursorNeverWraps(h: History, calls: seq<Call>)
    requires WellSized(h.run) && h.run.ring.next <= U64_MAX
    ensures Execute(h, calls).run.ring.next <= U64_MAX
    decreases |calls|
  {
    if calls != [] {
      CursorNeverWraps(h, calls[..|calls| - 1]);
      CursorStaysInRange(Execute(h, calls[..|calls| - 1]), calls[|calls| - 1]);
    }
  }

  /** Dispatches start some linear extension, and a run with a goal report dispatched all of one. */
  lemma DispatchFollowsPlan(id: nat, plan: ExecutionPlan, aspects: seq<GoalAspect>, calls: seq<Call>)
    returns (order: seq<nat>)
    requires IsFrozen(plan)
    ensures var h := Execute(Start(id, plan, aspects), calls);
      && IsOrder(|plan.actions|, plan.dependencies, order)
      && Dispatched(h.log) <= order
      && (h.run.goal.Some? ==> Dispatched(h.log) == order)
  {
    var h := Execute(Start(id, plan, aspects), calls);
    EveryLogIsTruthful(id, plan, aspects, calls);
    EveryRunIsSound(id, plan, aspects, calls);
    var done := Dispatched(h.log);
    DistinctCardinality(done);
    assert Elements(done) <= Range(|plan.actions|);
    SubsetCardinality(Elements(done), Range(|plan.actions|));
    order := PrefixCompletes(|plan.actions|, plan.dependencies, done);
    if h.run.goal.Some? {
      assert forall a :: 0 <= a < |h.run.actions| ==> h.run.actions[a].state.Verified?;
      assert Range(|plan.actions|) <= Elements(done);
      SubsetCardinality(Range(|plan.actions|), Elements(done));
      assert done == order;
    }
  }

  // ---------------------------------------------------------------------------
  // Progress

  lemma {:induction false} UnblockedBegins(run: Run, a: nat, k: nat)
    requires k <= |run.plan.dependencies|
    requires forall x: nat :: HasEdge(run.plan.dependencies, x, a) ==>
      x < |run.actions| && run.actions[x].state.Verified?
    ensures FirstBlocked(run, a, k).None?
    decreases |run.plan.dependencies| - k
  {
    if k < |run.plan.dependencies| {
      UnblockedBegins(run, a, k + 1);
      var edge := run.plan.dependencies[k];
      assert edge.after == a ==> HasEdge(run.plan.dependencies, edge.before, a);
    }
  }

  /** In an idle, unstopped run an action may begin once its predecessors were dispatched and it was not. */
  lemma ReadyActionBegins(run: Run, done: seq<nat>, a: nat)
    requires WellSized(run) && !IsStopped(run) && !HasActive(run) && HasCapacity(run, 1)
    requires Ready(|run.actions|, run.plan.dependencies, done, a)
    requires forall x :: 0 <= x < |run.actions| ==> (x in done <==> WasDispatched(run.actions[x]))
    requires forall i :: 0 <= i < |done| ==> done[i] < |run.actions|
    ensures Transition(run, BeginCheck(a)).Ok?
  {
    forall x: nat | HasEdge(run.plan.dependencies, x, a) ensures x < |run.actions| && run.actions[x].state.Verified? {
      assert x in done;
      assert !InFlight(run.actions[x].state);
    }
    UnblockedBegins(run, a, 0);
    assert !InFlight(run.actions[a].state);
  }

  /** A frozen plan never strands a run: while every action is settled, verified or startable ones remain. */
  lemma SettledRunProceeds(id: nat, plan: ExecutionPlan, aspects: seq<GoalAspect>, calls: seq<Call>)
    requires IsFrozen(plan)
    ensures var run := Execute(Start(id, plan, aspects), calls).run;
      !IsStopped(run) && !HasActive(run) && HasCapacity(run, 1) ==>
        || (forall i :: 0 <= i < |run.actions| ==> run.actions[i].state.Verified?)
        || exists a: nat :: Transition(run, BeginCheck(a)).Ok?
  {
    var h := Execute(Start(id, plan, aspects), calls);
    var run := h.run;
    EveryLogIsTruthful(id, plan, aspects, calls);
    if !IsStopped(run) && !HasActive(run) && HasCapacity(run, 1)
       && !forall i :: 0 <= i < |run.actions| ==> run.actions[i].state.Verified? {
      var n := |plan.actions|;
      var done := Dispatched(h.log);
      var w :| 0 <= w < n && !run.actions[w].state.Verified?;
      assert !InFlight(run.actions[w].state);
      assert w !in done;
      DistinctCardinality(done);
      assert Elements(done) <= Range(n) - {w};
      SubsetCardinality(Elements(done), Range(n) - {w});
      ReadyExists(n, plan.dependencies, done);
      var a: nat :| Ready(n, plan.dependencies, done, a);
      ReadyActionBegins(run, done, a);
    }
  }
}
