/** What the registry can always do: serve an open, a call, a job and a close, and drain completely. */
module RegistryService {
  import opened Wrappers
  import opened Registry

  // ---------------------------------------------------------------------------
  // Undisturbed service from any state

  /** A listed context that nobody is using, served by a waiting worker. */
  ghost predicate IsReady(s: System, c: nat) {
    && c in s.listed && c in s.owners
    && s.owners[c].worker.Receiving? && s.owners[c].handle && s.owners[c].lock.None? && s.owners[c].channel == []
  }

  /** The system with one owner and one thread inside it as given. */
  ghost function Busy(s: System, c: nat, owner: Owner, t: nat, caller: Caller): System {
    s.(owners := s.owners[c := owner], callers := s.callers[t := caller])
  }

  /** The state in which a thread has looked the context up and locked it. */
  ghost function Entered(s: System, t: nat, c: nat): System {
    Next(Next(s, Lookup(t, c)), TryLock(t))
  }

  lemma EnterLocks(s: System, t: nat, c: nat)
    requires IsReady(s, c) && Idle(s, t)
    ensures Entered(s, t, c) == Busy(s, c, s.owners[c].(lock := Some(t)), t, Locked(c))
  {
    var looked := Next(s, Lookup(t, c));
    assert looked == s.(callers := s.callers[t := Holding(c)]);
    assert Next(looked, TryLock(t)).callers == s.callers[t := Locked(c)];
  }

  lemma SendStep(s: System, c: nat, owner: Owner, t: nat)
    requires owner.channel == [] && !owner.worker.Gone? && !Occupied(s, owner)
    ensures Next(Busy(s, c, owner, t, Locked(c)), SendCall(t))
            == Busy(s, c, owner.(channel := [CallMessage(t)]), t, Waiting(c))
  {
    var before, queued := Busy(s, c, owner, t, Locked(c)), owner.(channel := [CallMessage(t)]);
    assert owner.channel + [CallMessage(t)] == [CallMessage(t)];
    assert before.owners[c := queued] == s.owners[c := queued];
    assert before.callers[t := Waiting(c)] == s.callers[t := Waiting(c)];
  }

  /** What the worker does with a message it takes. */
  ghost function Taken(message: Message): Worker {
    match message
    case CallMessage(t) => Handling(t)
    case ApplyMessage(j) => Applying(j)
    case StopMessage => Halting
  }

  lemma ReceiveStep(s: System, c: nat, owner: Owner, message: Message)
    requires owner.worker.Receiving? && owner.channel == [message]
    ensures Next(WithOwner(s, c, owner), Receive(c))
            == WithOwner(s, c, owner.(channel := [], worker := Taken(message)))
  {
    assert owner.channel[1..] == [];
    assert s.owners[c := owner][c := owner.(channel := [], worker := Taken(message))]
        == s.owners[c := owner.(channel := [], worker := Taken(message))];
  }

  lemma ReplyStep(s: System, c: nat, owner: Owner, t: nat)
    requires owner.worker == Handling(t)
    ensures Next(Busy(s, c, owner, t, Waiting(c)), Reply(c, false))
            == Busy(s, c, owner.(worker := Receiving), t, Answered(c))
  {
    var before, after := Busy(s, c, owner, t, Waiting(c)), Busy(s, c, owner.(worker := Receiving), t, Answered(c));
    assert before.owners[c := owner.(worker := Receiving)] == after.owners;
    assert before.callers[t := Answered(c)] == after.callers;
  }

  lemma LeaveStep(s: System, c: nat, owner: Owner, t: nat, caller: Caller)
    requires t !in s.callers && caller.context == c
    ensures Leave(Busy(s, c, owner, t, caller), t) == WithOwner(s, c, owner.(lock := None))
  {
    assert s.owners[c := owner][c := owner.(lock := None)] == s.owners[c := owner.(lock := None)];
    assert s.callers[t := caller] - {t} == s.callers;
  }

  /** A synchronous call on a ready context is sent, handled and answered, and leaves no trace. */
  lemma CallIsServed(s: System, t: nat, c: nat)
    requires IsReady(s, c) && Idle(s, t) && !Occupied(s, s.owners[c])
    ensures var sent := Next(Entered(s, t, c), SendCall(t));
      var received := Next(sent, Receive(c));
      var replied := Next(received, Reply(c, false));
      && c in received.owners && received.owners[c].worker == Handling(t)
      && t in replied.callers && replied.callers[t] == Answered(c)
      && Next(replied, ReturnFrom(t)) == s
  {
    var owner := s.owners[c].(lock := Some(t));
    EnterLocks(s, t, c);
    SendStep(s, c, owner, t);
    var waiting := s.(callers := s.callers[t := Waiting(c)]);
    ReceiveStep(waiting, c, owner.(channel := [CallMessage(t)]), CallMessage(t));
    ReplyStep(s, c, owner.(worker := Handling(t)), t);
    LeaveStep(s, c, owner, t, Answered(c));
    assert s.owners[c := s.owners[c]] == s.owners;
  }

  lemma StartStep(s: System, c: nat, owner: Owner, t: nat)
    requires owner.channel == [] && !owner.worker.Gone? && owner.live && owner.job.None? && s.nextJob < U64_MAX
    ensures var j := s.nextJob;
      Next(Busy(s, c, owner, t, Locked(c)), StartJob(t))
      == Busy(s.(nextJob := j + 1, startedIds := s.startedIds + [j], jobs := s.jobs[j := JobState(c, false)]),
              c, owner.(channel := [ApplyMessage(j)]), t, Starting(c, j))
  {
    var before, j := Busy(s, c, owner, t, Locked(c)), s.nextJob;
    var queued := owner.(channel := [ApplyMessage(j)]);
    assert owner.channel + [ApplyMessage(j)] == [ApplyMessage(j)];
    assert before.owners[c := queued] == s.owners[c := queued];
    assert before.callers[t := Starting(c, j)] == s.callers[t := Starting(c, j)];
  }

  lemma RecordStep(s: System, c: nat, owner: Owner, t: nat, j: nat)
    requires t !in s.callers
    ensures Next(Busy(s, c, owner, t, Starting(c, j)), RecordJob(t))
            == WithOwner(s, c, owner.(job := Some(j), lock := None))
  {
    var before := Busy(s, c, owner, t, Starting(c, j));
    assert WithOwner(before, c, owner.(job := Some(j))) == Busy(s, c, owner.(job := Some(j)), t, Starting(c, j)) by {
      assert before.owners[c := owner.(job := Some(j))] == s.owners[c := owner.(job := Some(j))];
    }
    LeaveStep(s, c, owner.(job := Some(j)), t, Starting(c, j));
  }

  lemma FinishStep(s: System, c: nat, owner: Owner, j: nat)
    requires owner.worker == Applying(j)
    ensures Next(WithOwner(s, c, owner), Finish(c, false))
            == WithOwner(s.(jobs := s.jobs[j := JobState(c, true)]), c, owner.(worker := Receiving))
  {
    assert s.owners[c := owner][c := owner.(worker := Receiving)] == s.owners[c := owner.(worker := Receiving)];
  }

  /** On a ready, live context without mailbox a job is queued and its mailbox recorded in one visit. */
  lemma JobIsStarted(s: System, t: nat, c: nat)
    requires IsReady(s, c) && Idle(s, t) && s.owners[c].live && s.owners[c].job.None? && s.nextJob < U64_MAX
    ensures var j := s.nextJob;
      Next(Next(Entered(s, t, c), StartJob(t)), RecordJob(t))
      == s.(nextJob := j + 1, startedIds := s.startedIds + [j], jobs := s.jobs[j := JobState(c, false)],
            owners := s.owners[c := s.owners[c].(job := Some(j), channel := [ApplyMessage(j)])])
  {
    var owner, j := s.owners[c], s.nextJob;
    var base := s.(nextJob := j + 1, startedIds := s.startedIds + [j], jobs := s.jobs[j := JobState(c, false)]);
    EnterLocks(s, t, c);
    StartStep(s, c, owner.(lock := Some(t)), t);
    RecordStep(base, c, owner.(lock := Some(t), channel := [ApplyMessage(j)]), t, j);
  }

  /** A queued job is applied and finished by the worker alone, whoever else is around. */
  lemma JobIsApplied(s: System, c: nat, j: nat)
    requires c in s.owners && s.owners[c].worker.Receiving? && s.owners[c].channel == [ApplyMessage(j)]
    ensures var received := Next(s, Receive(c));
      && c in received.owners && received.owners[c].worker == Applying(j)
      && Next(received, Finish(c, false))
         == s.(jobs := s.jobs[j := JobState(c, true)], owners := s.owners[c := s.owners[c].(channel := [])])
  {
    var owner := s.owners[c];
    assert WithOwner(s, c, owner) == s by {
      assert s.owners[c := owner] == s.owners;
    }
    ReceiveStep(s, c, owner, ApplyMessage(j));
    FinishStep(s, c, owner.(channel := [], worker := Applying(j)), j);
  }

  /** Closing a job by its own identity clears a finished mailbox, and nothing else changes. */
  lemma JobCloseIsServed(s: System, t: nat, c: nat, j: nat)
    requires IsReady(s, c) && Idle(s, t)
    ensures Next(Entered(s, t, c), CloseJob(t, j))
            == if s.owners[c].job == Some(j) && !Occupied(s, s.owners[c])
               then s.(owners := s.owners[c := s.owners[c].(job := None)]) else s
  {
    EnterLocks(s, t, c);
    var closed := Next(Entered(s, t, c), CloseJob(t, j));
    assert closed.callers == s.callers;
    assert s.owners[c := s.owners[c]] == s.owners;
  }

  /** Below the bound an open lists a new owner under the next identity. */
  lemma OpenIsServed(s: System, t: nat, live: bool)
    requires Idle(s, t) && s.slots < MAX_CONTEXTS && s.nextContext < U64_MAX
    ensures var c := s.nextContext;
      var spawned := Next(Next(s, Reserve(t)), Allocate(t, true, live));
      Next(Next(spawned, Initialise(c, true)), Publish(t))
      == s.(slots := s.slots + 1, nextContext := c + 1, openedIds := s.openedIds + [c],
            owners := s.owners[c := Owner(Receiving, true, live, None, [], None)], listed := s.listed + {c})
  {
    var c := s.nextContext;
    var reserved := Next(s, Reserve(t));
    var spawned := Next(reserved, Allocate(t, true, live));
    assert reserved.reserving - {t} == s.reserving;
    var initialised := Next(spawned, Initialise(c, true));
    assert initialised.owners == s.owners[c := Owner(Receiving, true, live, None, [], None)];
    assert Next(initialised, Publish(t)).callers == s.callers;
  }

  /** An open whose thread cannot be spawned gives everything but the identity back. */
  lemma UnspawnedOpenLeavesNothing(s: System, t: nat, live: bool)
    requires Idle(s, t) && s.slots < MAX_CONTEXTS && s.nextContext < U64_MAX
    ensures Next(Next(s, Reserve(t)), Allocate(t, false, live))
            == s.(nextContext := s.nextContext + 1, openedIds := s.openedIds + [s.nextContext])
  {
    assert Next(s, Reserve(t)).reserving - {t} == s.reserving;
  }

  /** So does an open whose worker refuses to serve, after that worker was joined. */
  lemma RefusedOpenLeavesNothing(s: System, t: nat, live: bool)
    requires Idle(s, t) && s.slots < MAX_CONTEXTS && s.nextContext < U64_MAX && s.nextContext !in s.owners
    ensures var c := s.nextContext;
      var spawned := Next(Next(s, Reserve(t)), Allocate(t, true, live));
      var aborted := Next(Next(spawned, Initialise(c, false)), Abort(t));
      && c in aborted.owners && aborted.owners[c].worker.Gone? && aborted.slots == s.slots + 1
      && Next(aborted, Discard(t)) == s.(nextContext := c + 1, openedIds := s.openedIds + [c])
  {
    var c := s.nextContext;
    var reserved := Next(s, Reserve(t));
    var base := s.(slots := s.slots + 1, nextContext := c + 1, openedIds := s.openedIds + [c]);
    var spawned := Next(reserved, Allocate(t, true, live));
    assert reserved.reserving - {t} == s.reserving;
    var refused := Next(spawned, Initialise(c, false));
    var worker := Owner(Refused, true, live, None, [], None);
    assert refused.owners == s.owners[c := worker];
    assert refused == base.(owners := s.owners[c := worker], callers := s.callers[t := Opening(c)]);
    RefusedIsDiscarded(base, t, c, worker);
  }

  lemma RefusedIsDiscarded(s: System, t: nat, c: nat, owner: Owner)
    requires t !in s.callers && c !in s.owners && s.slots > 0 && owner.worker.Refused?
    ensures var refused := s.(owners := s.owners[c := owner], callers := s.callers[t := Opening(c)]);
      var aborted := Next(refused, Abort(t));
      && c in aborted.owners && aborted.owners[c].worker.Gone? && aborted.slots == s.slots
      && Next(aborted, Discard(t)) == s.(slots := s.slots - 1)
  {
    var refused := s.(owners := s.owners[c := owner], callers := s.callers[t := Opening(c)]);
    var aborted := Next(refused, Abort(t));
    assert aborted.owners == s.owners[c := owner.(worker := Gone, handle := false)];
    assert aborted.callers == s.callers[t := Aborting(c)];
    var discarded := Next(aborted, Discard(t));
    assert discarded.owners == s.owners && discarded.callers == s.callers;
  }

  /** A full registry refuses to reserve. */
  lemma FullRegistryRefuses(s: System, t: nat)
    requires s.slots == MAX_CONTEXTS
    ensures Next(s, Reserve(t)) == s
  {
  }

  lemma CloseLockStep(s: System, t: nat, c: nat)
    requires IsReady(s, c) && Idle(s, t)
    ensures Next(Next(s, BeginClose(t, c)), LockForClose(t))
            == Busy(s.(listed := s.listed - {c}), c, s.owners[c].(lock := Some(t)), t, Stopping(c))
  {
    var begun := Next(s, BeginClose(t, c));
    assert begun == s.(listed := s.listed - {c}, callers := s.callers[t := Closing(c)]);
    assert Next(begun, LockForClose(t)).callers == s.callers[t := Stopping(c)];
  }

  lemma StopStep(s: System, c: nat, owner: Owner, t: nat)
    requires owner.channel == [] && !owner.worker.Gone?
    ensures Next(Busy(s, c, owner, t, Stopping(c)), SendStop(t))
            == Busy(s, c, owner.(channel := [StopMessage], handle := false), t, Joining(c))
  {
    var before, stopped := Busy(s, c, owner, t, Stopping(c)), owner.(channel := [StopMessage], handle := false);
    assert owner.channel + [StopMessage] == [StopMessage];
    assert before.owners[c := stopped] == s.owners[c := stopped];
    assert before.callers[t := Joining(c)] == s.callers[t := Joining(c)];
  }

  lemma DropStep(s: System, c: nat, owner: Owner)
    requires owner.worker.Halting? && owner.channel == []
    ensures Next(WithOwner(s, c, owner), DropReceiver(c)) == WithOwner(s, c, owner.(worker := Gone))
  {
    assert s.owners[c := owner][c := owner.(worker := Gone)] == s.owners[c := owner.(worker := Gone)];
  }

  lemma JoinStep(s: System, c: nat, owner: Owner, t: nat)
    requires owner.worker.Gone? && t !in s.callers
    ensures Next(Busy(s, c, owner, t, Joining(c)), Join(t)) == WithOwner(s, c, owner.(lock := None))
  {
    LeaveStep(s, c, owner, t, Joining(c));
  }

  /** Closing a ready context takes it off the list, locks it and leaves its worker the stop message. */
  lemma CloseIsStarted(s: System, t: nat, c: nat)
    requires IsReady(s, c) && Idle(s, t)
    ensures var locked := Next(Next(s, BeginClose(t, c)), LockForClose(t));
      Next(locked, SendStop(t))
      == Busy(s.(listed := s.listed - {c}), c,
              s.owners[c].(lock := Some(t), channel := [StopMessage], handle := false), t, Joining(c))
  {
    CloseLockStep(s, t, c);
    StopStep(s.(listed := s.listed - {c}), c, s.owners[c].(lock := Some(t)), t);
  }

  /** A worker with the stop message in its channel ends. */
  lemma StopIsObeyed(s: System, c: nat)
    requires c in s.owners && s.owners[c].worker.Receiving? && s.owners[c].channel == [StopMessage]
    ensures Next(Next(s, Receive(c)), DropReceiver(c))
            == s.(owners := s.owners[c := s.owners[c].(worker := Gone, channel := [])])
  {
    var owner := s.owners[c];
    assert WithOwner(s, c, owner) == s by {
      assert s.owners[c := owner] == s.owners;
    }
    ReceiveStep(s, c, owner, StopMessage);
    DropStep(s, c, owner.(channel := [], worker := Halting));
  }

  /** Once the worker has ended, the closing thread joins it and the last user gives the slot back. */
  lemma CloseIsCompleted(s: System, t: nat, c: nat, owner: Owner)
    requires owner.worker.Gone? && t !in s.callers && !Refers(s, c) && c !in s.listed && s.slots > 0
    ensures Next(Next(Busy(s, c, owner, t, Joining(c)), Join(t)), Release(c))
            == s.(owners := s.owners - {c}, slots := s.slots - 1)
  {
    JoinStep(s, c, owner, t);
    var joined := WithOwner(s, c, owner.(lock := None));
    assert !Refers(joined, c);
    assert Next(joined, Release(c)).owners == s.owners - {c};
  }

  // ---------------------------------------------------------------------------
  // A worker that panicked or was stopped

  /** The context has no worker that could take another message, now or under a later owner. */
  ghost predicate IsSilenced(s: System, c: nat) {
    c < s.nextContext && (c in s.owners ==> s.owners[c].worker.Halting? || s.owners[c].worker.Gone?)
  }

  /** A panic while handling a call or applying a job answers or finishes it and silences the worker. */
  lemma PanicSilences(s: System, c: nat)
    requires c in s.owners && c < s.nextContext
    ensures s.owners[c].worker.Handling? ==> IsSilenced(Next(s, Reply(c, true)), c)
    ensures s.owners[c].worker.Applying? ==> IsSilenced(Next(s, Finish(c, true)), c)
  {
  }

  lemma SilenceStays(s: System, event: Event, c: nat)
    requires IsSilenced(s, c)
    ensures IsSilenced(Next(s, event), c)
  {
    if IsOpenEvent(event) {
      OpenKeepsSilence(s, event, c);
    } else if IsCallEvent(event) {
      CallKeepsSilence(s, event, c);
    } else if IsWorkEvent(event) {
      WorkKeepsSilence(s, event, c);
    } else {
      CloseKeepsSilence(s, event, c);
    }
  }

  lemma OpenKeepsSilence(s: System, event: Event, c: nat)
    requires IsSilenced(s, c) && IsOpenEvent(event)
    ensures IsSilenced(OpenStep(s, event), c)
  {
  }

  lemma CallKeepsSilence(s: System, event: Event, c: nat)
    requires IsSilenced(s, c) && IsCallEvent(event)
    ensures IsSilenced(CallStep(s, event), c)
  {
    CallKeepsOwners(s, event);
  }

  lemma WorkKeepsSilence(s: System, event: Event, c: nat)
    requires IsSilenced(s, c) && IsWorkEvent(event)
    ensures IsSilenced(WorkStep(s, event), c)
  {
  }

  lemma CloseKeepsSilence(s: System, event: Event, c: nat)
    requires IsSilenced(s, c) && IsCloseEvent(event)
    ensures IsSilenced(CloseStep(s, event), c)
  {
  }

  /** Once silenced, a context is never served again, whatever happens. */
  lemma {:induction false} SilencedForGood(events: seq<Event>, more: seq<Event>, c: nat)
    requires IsSilenced(After(events), c)
    ensures IsSilenced(After(events + more), c)
    decreases |more|
  {
    if more == [] {
      assert events + more == events;
    } else {
      var all, front := events + more, more[..|more| - 1];
      assert all[..|all| - 1] == events + front;
      SilencedForGood(events, front, c);
      SilenceStays(After(events + front), all[|all| - 1], c);
    }
  }

  // ---------------------------------------------------------------------------
  // Jobs over every interleaving

  /** The step is the worker's completion of this job. */
  ghost predicate Finishes(s: System, event: Event, j: nat) {
    event.Finish? && event.context in s.owners && s.owners[event.context].worker == Applying(j)
  }

  ghost predicate IsDone(s: System, j: nat) {
    j in s.jobs && s.jobs[j].finished
  }

  lemma WorkOnJobs(s: System, event: Event, j: nat)
    requires IsWorkEvent(event)
    ensures IsDone(WorkStep(s, event), j) <==> IsDone(s, j) || Finishes(s, event, j)
  {
  }

  lemma OthersOnJobs(s: System, event: Event, j: nat)
    requires !IsWorkEvent(event) && (j in s.jobs ==> j != s.nextJob)
    ensures IsDone(Next(s, event), j) <==> IsDone(s, j)
  {
  }

  lemma JobsAfterStep(s: System, event: Event, j: nat)
    requires Invariant(s)
    ensures IsDone(Next(s, event), j) <==> IsDone(s, j) || Finishes(s, event, j)
  {
    assert j in s.jobs ==> JobOk(s, j);
    if IsWorkEvent(event) {
      WorkOnJobs(s, event, j);
    } else {
      OthersOnJobs(s, event, j);
    }
  }

  ghost predicate FinishedAt(events: seq<Event>, i: nat, j: nat) {
    i < |events| && Finishes(After(events[..i]), events[i], j)
  }

  ghost predicate EverFinished(events: seq<Event>, j: nat) {
    exists i: nat :: FinishedAt(events, i, j)
  }

  lemma FinishedGrows(front: seq<Event>, last: Event, j: nat)
    ensures EverFinished(front + [last], j) <==> EverFinished(front, j) || Finishes(After(front), last, j)
  {
    var all := front + [last];
    assert all[..|front|] == front && all[|front|] == last;
    forall i: nat | i < |front| ensures FinishedAt(all, i, j) <==> FinishedAt(front, i, j) {
      assert all[..i] == front[..i] && all[i] == front[i];
    }
    if EverFinished(front, j) {
      var i: nat :| FinishedAt(front, i, j);
      assert FinishedAt(all, i, j);
    }
    if Finishes(After(front), last, j) {
      assert FinishedAt(all, |front|, j);
    }
  }

  lemma DoneGrows(front: seq<Event>, last: Event, j: nat)
    ensures IsDone(After(front + [last]), j) <==> IsDone(After(front), j) || Finishes(After(front), last, j)
  {
    var all := front + [last];
    assert all[..|all| - 1] == front && all[|all| - 1] == last;
    EveryInterleavingKeepsInvariant(front);
    JobsAfterStep(After(front), last, j);
  }

  /** A job counts as finished exactly when some step was its worker's completion of it. */
  lemma {:induction false} JobFinishedExactly(events: seq<Event>, j: nat)
    ensures IsDone(After(events), j) <==> EverFinished(events, j)
    decreases |events|
  {
    if events != [] {
      var front, last := events[..|events| - 1], events[|events| - 1];
      assert events == front + [last];
      JobFinishedExactly(front, j);
      DoneGrows(front, last, j);
      FinishedGrows(front, last, j);
    }
  }
}
