/** Freedom from deadlock: from every reachable state the registry can be emptied. */
module RegistryDrain {
  import opened Wrappers
  import opened Registry

  /** The system after further steps. */
  function Run(s: System, events: seq<Event>): System
    decreases |events|
  {
    if events == [] then s else Run(Next(s, events[0]), events[1..])
  }

  ghost predicate CanReach(s: System, s': System) {
    exists events :: Run(s, events) == s'
  }

  lemma {:induction false} RunJoins(s: System, first: seq<Event>, second: seq<Event>)
    ensures Run(s, first + second) == Run(Run(s, first), second)
    decreases |first|
  {
    if first == [] {
      assert first + second == second;
    } else {
      assert (first + second)[0] == first[0] && (first + second)[1..] == first[1..] + second;
      RunJoins(Next(s, first[0]), first[1..], second);
    }
  }

  lemma ReachJoins(s: System, middle: System, s': System)
    requires CanReach(s, middle) && CanReach(middle, s')
    ensures CanReach(s, s')
  {
    var first :| Run(s, first) == middle;
    var second :| Run(middle, second) == s';
    RunJoins(s, first, second);
  }

  lemma RunOne(s: System, event: Event)
    ensures Run(s, [event]) == Next(s, event)
  {
    assert [event][1..] == [];
  }

  lemma AfterOne(front: seq<Event>, last: Event)
    ensures After(front + [last]) == Run(After(front), [last])
  {
    var all := front + [last];
    assert all[..|all| - 1] == front && all[|all| - 1] == last;
    RunOne(After(front), last);
  }

  lemma {:induction false} AfterIsRun(events: seq<Event>)
    ensures After(events) == Run(EMPTY, events)
    decreases |events|
  {
    if events != [] {
      var front, last := events[..|events| - 1], events[|events| - 1];
      assert events == front + [last];
      AfterIsRun(front);
      AfterOne(front, last);
      RunJoins(EMPTY, front, [last]);
    }
  }

  lemma RunContinues(events: seq<Event>, more: seq<Event>)
    ensures Run(After(events), more) == After(events + more)
  {
    AfterIsRun(events);
    AfterIsRun(events + more);
    RunJoins(EMPTY, events, more);
  }

  // ---------------------------------------------------------------------------
  // A worker whose handle was taken has been told to stop

  ghost predicate ToldToStop(owner: Owner) {
    !owner.handle ==> owner.worker.Gone? || owner.worker.Halting? || owner.channel == [StopMessage]
  }

  ghost predicate AllTold(s: System) {
    forall c :: c in s.owners ==> ToldToStop(s.owners[c])
  }

  /** The invariant that lets every wait end. */
  ghost predicate IsSound(s: System) {
    Invariant(s) && AllTold(s)
  }

  lemma OpenKeepsTold(s: System, event: Event)
    requires AllTold(s) && IsOpenEvent(event)
    ensures AllTold(OpenStep(s, event))
  {
  }

  /** A call touches a channel only in a context it has locked, and never worker or handle. */
  lemma CallKeepsHandles(s: System, event: Event, c: nat)
    requires IsCallEvent(event) && c in s.owners
    ensures c in CallStep(s, event).owners
    ensures var before, after := s.owners[c], CallStep(s, event).owners[c];
      && after.handle == before.handle && after.worker == before.worker
      && (after.channel == before.channel || (event.thread in s.callers && s.callers[event.thread] == Locked(c)))
  {
    if !event.SendCall? && !event.StartJob? {
      VisitKeepsChannel(s, event, c);
    }
  }

  lemma VisitKeepsChannel(s: System, event: Event, c: nat)
    requires IsCallEvent(event) && !event.SendCall? && !event.StartJob? && c in s.owners
    ensures c in CallStep(s, event).owners
    ensures var before, after := s.owners[c], CallStep(s, event).owners[c];
      after.handle == before.handle && after.worker == before.worker && after.channel == before.channel
  {
  }

  lemma CallKeepsTold(s: System, event: Event)
    requires IsSound(s) && IsCallEvent(event)
    ensures AllTold(CallStep(s, event))
  {
    CallKeepsOwners(s, event);
    forall c | c in CallStep(s, event).owners ensures ToldToStop(CallStep(s, event).owners[c]) {
      CallKeepsHandles(s, event, c);
      LockedHasHandle(s, event.thread, c);
      assert ToldToStop(s.owners[c]);
    }
  }

  lemma LockedHasHandle(s: System, t: nat, c: nat)
    requires Invariant(s)
    ensures t in s.callers && s.callers[t] == Locked(c) ==> c in s.owners && s.owners[c].handle
  {
    assert t in s.callers ==> CallerOk(s, t);
  }

  lemma WorkKeepsTold(s: System, event: Event)
    requires IsSound(s) && IsWorkEvent(event)
    ensures AllTold(WorkStep(s, event))
  {
    if event.context in s.owners {
      assert ChannelOk(s, event.context);
      assert ToldToStop(s.owners[event.context]);
    }
  }

  lemma CloseKeepsTold(s: System, event: Event)
    requires AllTold(s) && IsCloseEvent(event)
    ensures AllTold(CloseStep(s, event))
  {
    if !event.BeginClose? && !event.Release? && event.thread in s.callers
       && s.callers[event.thread].context in s.owners {
      var owner := s.owners[s.callers[event.thread].context];
      assert owner.channel == [] ==> owner.channel + [StopMessage] == [StopMessage];
      assert ToldToStop(owner);
    }
  }

  lemma NextIsSound(s: System, event: Event)
    requires IsSound(s)
    ensures IsSound(Next(s, event))
  {
    NextKeepsInvariant(s, event);
    if IsOpenEvent(event) {
      OpenKeepsTold(s, event);
    } else if IsCallEvent(event) {
      CallKeepsTold(s, event);
    } else if IsWorkEvent(event) {
      WorkKeepsTold(s, event);
    } else {
      CloseKeepsTold(s, event);
    }
  }

  lemma {:induction false} EverySystemIsSound(events: seq<Event>)
    ensures IsSound(After(events))
    decreases |events|
  {
    EveryInterleavingKeepsInvariant(events);
    if events != [] {
      EverySystemIsSound(events[..|events| - 1]);
      NextIsSound(After(events[..|events| - 1]), events[|events| - 1]);
    }
  }

  lemma OneStep(s: System, event: Event)
    requires IsSound(s)
    ensures IsSound(Next(s, event)) && CanReach(s, Next(s, event))
  {
    NextIsSound(s, event);
    RunOne(s, event);
  }

  // ---------------------------------------------------------------------------
  // Progress

  /** What is left to do before nothing is left. */
  ghost function Work(s: System): nat {
    |s.reserving| + |s.listed| + 2 * |s.callers| + |s.owners|
  }

  /** The same threads, contexts and listings, whatever they are doing. */
  ghost predicate SamePlaces(s: System, s': System) {
    && s'.reserving == s.reserving && s'.listed == s.listed
    && s'.owners.Keys == s.owners.Keys && s'.callers.Keys == s.callers.Keys
  }

  /** One thread has left and nobody has come. */
  ghost predicate HasLeft(s: System, s': System, t: nat) {
    && t in s.callers
    && s'.reserving == s.reserving && s'.listed == s.listed
    && s'.owners.Keys <= s.owners.Keys && s'.callers.Keys == s.callers.Keys - {t}
  }

  lemma LeavingIsProgress(s: System, s': System, t: nat)
    requires HasLeft(s, s', t)
    ensures Work(s') < Work(s)
  {
    SubsetCardinality(s'.owners.Keys, s.owners.Keys);
    assert |s'.callers| == |s'.callers.Keys| && |s.callers| == |s.callers.Keys|;
    assert |s'.owners| == |s'.owners.Keys| && |s.owners| == |s.owners.Keys|;
  }

  /** The thread in its context, and what it does there. */
  ghost predicate IsAt(s: System, t: nat, caller: Caller) {
    t in s.callers && s.callers[t] == caller && caller.context in s.owners
  }

  lemma ReturnLeaves(s: System, t: nat, c: nat)
    requires IsAt(s, t, Locked(c)) || IsAt(s, t, Answered(c))
    ensures HasLeft(s, Next(s, ReturnFrom(t)), t)
  {
  }

  lemma RecordLeaves(s: System, t: nat, c: nat, j: nat)
    requires IsAt(s, t, Starting(c, j))
    ensures HasLeft(s, Next(s, RecordJob(t)), t)
  {
  }

  /** Trying the lock either fails at once or succeeds. */
  lemma TryLockMoves(s: System, t: nat, c: nat)
    requires IsAt(s, t, Holding(c))
    ensures var s' := Next(s, TryLock(t)); HasLeft(s, s', t) || (SamePlaces(s, s') && IsAt(s', t, Locked(c)))
  {
  }

  lemma ReplyMoves(s: System, t: nat, c: nat)
    requires IsAt(s, t, Waiting(c)) && s.owners[c].worker == Handling(t)
    ensures var s' := Next(s, Reply(c, false)); SamePlaces(s, s') && IsAt(s', t, Answered(c))
  {
  }

  lemma ReceiveMoves(s: System, c: nat)
    requires c in s.owners && s.owners[c].worker.Receiving? && |s.owners[c].channel| == 1
    ensures var s' := Next(s, Receive(c));
      && SamePlaces(s, s') && s'.callers == s.callers && c in s'.owners
      && s'.owners[c].channel == [] && s'.owners[c].handle == s.owners[c].handle
      && match s.owners[c].channel[0]
         case CallMessage(t) => s'.owners[c].worker == Handling(t)
         case ApplyMessage(j) => s'.owners[c].worker == Applying(j)
         case StopMessage => s'.owners[c].worker == Halting
  {
  }

  lemma DropMoves(s: System, c: nat)
    requires c in s.owners && s.owners[c].worker.Halting?
    requires s.owners[c].channel != [] && s.owners[c].channel[0].CallMessage? ==>
      s.owners[c].channel[0].caller in s.callers
    ensures var s' := Next(s, DropReceiver(c));
      && SamePlaces(s, s') && c in s'.owners
      && s'.owners[c].worker == Gone && s'.owners[c].channel == [] && s'.owners[c].handle == s.owners[c].handle
      && s'.callers == (if s.owners[c].channel != [] && s.owners[c].channel[0].CallMessage?
                        then s.callers[s.owners[c].channel[0].caller := Answered(c)] else s.callers)
  {
  }

  lemma FinishMoves(s: System, c: nat)
    requires c in s.owners && s.owners[c].worker.Applying?
    ensures var s' := Next(s, Finish(c, false));
      && SamePlaces(s, s') && s'.callers == s.callers && c in s'.owners
      && s'.owners[c] == s.owners[c].(worker := Receiving)
  {
  }

  /** Every thread that waits for an answer can be answered by the worker alone. */
  lemma WaitingEnds(s: System, t: nat, c: nat) returns (s': System)
    requires IsSound(s) && IsAt(s, t, Waiting(c))
    ensures IsSound(s') && CanReach(s, s') && SamePlaces(s, s') && IsAt(s', t, Answered(c))
  {
    assert CallerOk(s, t) && ChannelOk(s, c);
    var owner := s.owners[c];
    if owner.worker == Handling(t) {
      s' := Answer(s, t, c);
    } else if owner.worker.Halting? {
      DropMoves(s, c);
      OneStep(s, DropReceiver(c));
      s' := Next(s, DropReceiver(c));
    } else {
      ReceiveMoves(s, c);
      OneStep(s, Receive(c));
      var taken := Next(s, Receive(c));
      s' := Answer(taken, t, c);
      ReachJoins(s, taken, s');
    }
  }

  lemma Answer(s: System, t: nat, c: nat) returns (s': System)
    requires IsSound(s) && IsAt(s, t, Waiting(c)) && s.owners[c].worker == Handling(t)
    ensures IsSound(s') && CanReach(s, s') && SamePlaces(s, s') && IsAt(s', t, Answered(c))
  {
    ReplyMoves(s, t, c);
    OneStep(s, Reply(c, false));
    s' := Next(s, Reply(c, false));
  }

  /** The state reached has strictly less left to do. */
  ghost predicate Progresses(s: System, s': System) {
    IsSound(s') && CanReach(s, s') && Work(s') < Work(s)
  }

  lemma LeaveBy(s: System, event: Event, t: nat)
    requires IsSound(s) && HasLeft(s, Next(s, event), t)
    ensures Progresses(s, Next(s, event))
  {
    OneStep(s, event);
    LeavingIsProgress(s, Next(s, event), t);
  }

  /** A detour that changes no places and then makes progress is progress. */
  lemma ThenProgress(s: System, middle: System, s': System)
    requires CanReach(s, middle) && SamePlaces(s, middle) && Progresses(middle, s')
    ensures Progresses(s, s')
  {
    ReachJoins(s, middle, s');
    assert |middle.callers| == |middle.callers.Keys| && |s.callers| == |s.callers.Keys|;
    assert |middle.owners| == |middle.owners.Keys| && |s.owners| == |s.owners.Keys|;
  }

  // ---------------------------------------------------------------------------
  // Threads that are opening a context

  lemma PublishMoves(s: System, t: nat, c: nat)
    requires IsAt(s, t, Opening(c)) && s.owners[c].worker.Receiving?
    ensures var s' := Next(s, Publish(t));
      && s'.reserving == s.reserving && s'.owners == s.owners && s'.listed == s.listed + {c}
      && s'.callers.Keys == s.callers.Keys - {t}
  {
  }

  lemma PublishedIsLess(s: System, s': System, t: nat, c: nat)
    requires t in s.callers && s'.reserving == s.reserving && s'.owners == s.owners
    requires s'.listed == s.listed + {c} && s'.callers.Keys == s.callers.Keys - {t}
    ensures Work(s') < Work(s)
  {
    assert |s'.callers| == |s'.callers.Keys| && |s.callers| == |s.callers.Keys|;
  }

  lemma PublishProgresses(s: System, t: nat, c: nat)
    requires IsSound(s) && IsAt(s, t, Opening(c)) && s.owners[c].worker.Receiving?
    ensures Progresses(s, Next(s, Publish(t)))
  {
    OneStep(s, Publish(t));
    PublishMoves(s, t, c);
    PublishedIsLess(s, Next(s, Publish(t)), t, c);
  }

  lemma DiscardLeaves(s: System, t: nat, c: nat)
    requires IsSound(s) && IsAt(s, t, Aborting(c))
    ensures HasLeft(s, Next(s, Discard(t)), t)
  {
    assert s.slots > 0 by {
      assert c in s.owners.Keys;
      assert |s.owners| == |s.owners.Keys|;
    }
  }

  lemma AbortMoves(s: System, t: nat, c: nat)
    requires IsAt(s, t, Opening(c)) && s.owners[c].worker.Refused?
    ensures SamePlaces(s, Next(s, Abort(t))) && IsAt(Next(s, Abort(t)), t, Aborting(c))
  {
  }

  lemma RefuseMoves(s: System, t: nat, c: nat)
    requires IsAt(s, t, Opening(c)) && s.owners[c].worker.Initialising?
    ensures var s' := Next(s, Initialise(c, false));
      SamePlaces(s, s') && IsAt(s', t, Opening(c)) && s'.owners[c].worker.Refused?
  {
  }

  lemma RefusedEnds(s: System, t: nat, c: nat) returns (s': System)
    requires IsSound(s) && IsAt(s, t, Opening(c)) && s.owners[c].worker.Refused?
    ensures Progresses(s, s')
  {
    AbortMoves(s, t, c);
    OneStep(s, Abort(t));
    var aborted := Next(s, Abort(t));
    DiscardLeaves(aborted, t, c);
    LeaveBy(aborted, Discard(t), t);
    s' := Next(aborted, Discard(t));
    ThenProgress(s, aborted, s');
  }

  lemma OpeningEnds(s: System, t: nat, c: nat) returns (s': System)
    requires IsSound(s) && IsAt(s, t, Opening(c))
    ensures Progresses(s, s')
  {
    assert CallerOk(s, t);
    if s.owners[c].worker.Receiving? {
      PublishProgresses(s, t, c);
      s' := Next(s, Publish(t));
    } else if s.owners[c].worker.Refused? {
      s' := RefusedEnds(s, t, c);
    } else {
      RefuseMoves(s, t, c);
      OneStep(s, Initialise(c, false));
      var refused := Next(s, Initialise(c, false));
      s' := RefusedEnds(refused, t, c);
      ThenProgress(s, refused, s');
    }
  }

  // ---------------------------------------------------------------------------
  // Threads inside a call

  lemma LockedEnds(s: System, t: nat, c: nat) returns (s': System)
    requires IsSound(s) && (IsAt(s, t, Locked(c)) || IsAt(s, t, Answered(c)))
    ensures Progresses(s, s')
  {
    ReturnLeaves(s, t, c);
    LeaveBy(s, ReturnFrom(t), t);
    s' := Next(s, ReturnFrom(t));
  }

  lemma HoldingEnds(s: System, t: nat, c: nat) returns (s': System)
    requires IsSound(s) && IsAt(s, t, Holding(c))
    ensures Progresses(s, s')
  {
    TryLockMoves(s, t, c);
    var tried := Next(s, TryLock(t));
    if HasLeft(s, tried, t) {
      LeaveBy(s, TryLock(t), t);
      s' := tried;
    } else {
      OneStep(s, TryLock(t));
      s' := LockedEnds(tried, t, c);
      ThenProgress(s, tried, s');
    }
  }

  /** Every thread that is not closing can finish, whatever it is doing. */
  lemma CallerEnds(s: System, t: nat) returns (s': System)
    requires IsSound(s) && t in s.callers && !IsCloser(s.callers[t])
    ensures Progresses(s, s')
  {
    assert CallerOk(s, t);
    match s.callers[t] {
      case Opening(c) => s' := OpeningEnds(s, t, c);
      case Aborting(c) =>
        DiscardLeaves(s, t, c);
        LeaveBy(s, Discard(t), t);
        s' := Next(s, Discard(t));
      case Holding(c) => s' := HoldingEnds(s, t, c);
      case Locked(c) => s' := LockedEnds(s, t, c);
      case Answered(c) => s' := LockedEnds(s, t, c);
      case Waiting(c) =>
        var answered := WaitingEnds(s, t, c);
        s' := LockedEnds(answered, t, c);
        ThenProgress(s, answered, s');
      case Starting(c, j) =>
        RecordLeaves(s, t, c, j);
        LeaveBy(s, RecordJob(t), t);
        s' := Next(s, RecordJob(t));
    }
  }

  // ---------------------------------------------------------------------------
  // Threads that are closing a context

  ghost predicate OnlyClosers(s: System) {
    forall t :: t in s.callers ==> IsCloser(s.callers[t])
  }

  lemma JoinLeaves(s: System, t: nat, c: nat)
    requires IsAt(s, t, Joining(c)) && s.owners[c].worker.Gone?
    ensures HasLeft(s, Next(s, Join(t)), t)
  {
  }

  lemma LockForCloseMoves(s: System, t: nat, c: nat)
    requires IsAt(s, t, Closing(c)) && s.owners[c].lock.None?
    ensures var s' := Next(s, LockForClose(t));
      SamePlaces(s, s') && IsAt(s', t, Stopping(c)) && s'.callers == s.callers[t := Stopping(c)]
  {
  }

  lemma SendStopMoves(s: System, t: nat, c: nat)
    requires IsAt(s, t, Stopping(c)) && (s.owners[c].channel == [] || s.owners[c].worker.Gone?)
    ensures var s' := Next(s, SendStop(t));
      SamePlaces(s, s') && IsAt(s', t, Joining(c)) && s'.callers == s.callers[t := Joining(c)]
  {
  }

  /** With nobody but closers about, no call is queued or handled. */
  lemma NoCallsLeft(s: System, t: nat, c: nat)
    requires IsSound(s) && OnlyClosers(s) && c in s.owners && t in s.callers && s.callers[t].context == c
    ensures !s.owners[c].worker.Handling? && !s.owners[c].worker.Initialising? && !s.owners[c].worker.Refused?
    ensures s.owners[c].channel != [] ==> !s.owners[c].channel[0].CallMessage?
    ensures s.callers[t].Closing? ==> s.owners[c].lock.None?
    ensures s.callers[t].Stopping? ==> s.owners[c].handle
    ensures s.callers[t].Joining? ==> !s.owners[c].handle
  {
    assert CallerOk(s, t) && ChannelOk(s, c) && OwnerOk(s, c);
    assert forall k :: k in s.callers && s.callers[k].Waiting? ==> IsCloser(s.callers[k]);
  }

  lemma GoneJoins(s: System, t: nat, c: nat) returns (s': System)
    requires IsSound(s) && IsAt(s, t, Joining(c)) && s.owners[c].worker.Gone?
    ensures Progresses(s, s') && HasLeft(s, s', t)
  {
    JoinLeaves(s, t, c);
    LeaveBy(s, Join(t), t);
    s' := Next(s, Join(t));
  }

  lemma HasLeftVia(s: System, middle: System, s': System, t: nat)
    requires SamePlaces(s, middle) && HasLeft(middle, s', t)
    ensures HasLeft(s, s', t)
  {
  }

  lemma HaltingJoins(s: System, t: nat, c: nat) returns (s': System)
    requires IsSound(s) && OnlyClosers(s) && IsAt(s, t, Joining(c)) && s.owners[c].worker.Halting?
    ensures Progresses(s, s') && HasLeft(s, s', t)
  {
    NoCallsLeft(s, t, c);
    DropMoves(s, c);
    OneStep(s, DropReceiver(c));
    var gone := Next(s, DropReceiver(c));
    s' := GoneJoins(gone, t, c);
    ThenProgress(s, gone, s');
    HasLeftVia(s, gone, s', t);
  }

  lemma ReceivingJoins(s: System, t: nat, c: nat) returns (s': System)
    requires IsSound(s) && OnlyClosers(s) && IsAt(s, t, Joining(c)) && s.owners[c].worker.Receiving?
    ensures Progresses(s, s') && HasLeft(s, s', t)
  {
    NoCallsLeft(s, t, c);
    assert ToldToStop(s.owners[c]);
    ReceiveMoves(s, c);
    OneStep(s, Receive(c));
    var halting := Next(s, Receive(c));
    s' := HaltingJoins(halting, t, c);
    ThenProgress(s, halting, s');
    HasLeftVia(s, halting, s', t);
  }

  /** A join always ends: the worker finishes its job, takes the stop message and goes. */
  lemma JoiningEnds(s: System, t: nat, c: nat) returns (s': System)
    requires IsSound(s) && OnlyClosers(s) && IsAt(s, t, Joining(c))
    ensures Progresses(s, s') && HasLeft(s, s', t)
  {
    NoCallsLeft(s, t, c);
    if s.owners[c].worker.Gone? {
      s' := GoneJoins(s, t, c);
    } else if s.owners[c].worker.Halting? {
      s' := HaltingJoins(s, t, c);
    } else if s.owners[c].worker.Receiving? {
      s' := ReceivingJoins(s, t, c);
    } else {
      FinishMoves(s, c);
      OneStep(s, Finish(c, false));
      var finished := Next(s, Finish(c, false));
      s' := ReceivingJoins(finished, t, c);
      ThenProgress(s, finished, s');
      HasLeftVia(s, finished, s', t);
    }
  }

  lemma StopIsSent(s: System, t: nat, c: nat) returns (told: System)
    requires IsSound(s) && OnlyClosers(s) && IsAt(s, t, Stopping(c))
    requires s.owners[c].channel == [] || s.owners[c].worker.Gone?
    ensures IsSound(told) && CanReach(s, told) && SamePlaces(s, told) && OnlyClosers(told) && IsAt(told, t, Joining(c))
  {
    SendStopMoves(s, t, c);
    OneStep(s, SendStop(t));
    told := Next(s, SendStop(t));
  }

  lemma FreeStops(s: System, t: nat, c: nat) returns (s': System)
    requires IsSound(s) && OnlyClosers(s) && IsAt(s, t, Stopping(c))
    requires s.owners[c].channel == [] || s.owners[c].worker.Gone?
    ensures Progresses(s, s') && HasLeft(s, s', t)
  {
    var told := StopIsSent(s, t, c);
    s' := JoiningEnds(told, t, c);
    ThenProgress(s, told, s');
    HasLeftVia(s, told, s', t);
  }

  /** A queued job does not block the stop message for good. */
  lemma StoppingEnds(s: System, t: nat, c: nat) returns (s': System)
    requires IsSound(s) && OnlyClosers(s) && IsAt(s, t, Stopping(c))
    ensures Progresses(s, s') && HasLeft(s, s', t)
  {
    NoCallsLeft(s, t, c);
    assert ChannelOk(s, c);
    if s.owners[c].channel == [] || s.owners[c].worker.Gone? {
      s' := FreeStops(s, t, c);
    } else {
      var event := if s.owners[c].worker.Halting? then DropReceiver(c) else Receive(c);
      if s.owners[c].worker.Halting? {
        DropMoves(s, c);
      } else {
        ReceiveMoves(s, c);
      }
      OneStep(s, event);
      var free := Next(s, event);
      s' := FreeStops(free, t, c);
      ThenProgress(s, free, s');
      HasLeftVia(s, free, s', t);
    }
  }

  lemma CloseIsLocked(s: System, t: nat, c: nat) returns (locked: System)
    requires IsSound(s) && OnlyClosers(s) && IsAt(s, t, Closing(c))
    ensures IsSound(locked) && CanReach(s, locked) && SamePlaces(s, locked)
    ensures OnlyClosers(locked) && IsAt(locked, t, Stopping(c))
  {
    NoCallsLeft(s, t, c);
    LockForCloseMoves(s, t, c);
    OneStep(s, LockForClose(t));
    locked := Next(s, LockForClose(t));
  }

  lemma CloserEnds(s: System, t: nat) returns (s': System)
    requires IsSound(s) && OnlyClosers(s) && t in s.callers
    ensures Progresses(s, s') && HasLeft(s, s', t)
  {
    assert CallerOk(s, t);
    var c := s.callers[t].context;
    if s.callers[t].Joining? {
      s' := JoiningEnds(s, t, c);
    } else if s.callers[t].Stopping? {
      s' := StoppingEnds(s, t, c);
    } else {
      var locked := CloseIsLocked(s, t, c);
      s' := StoppingEnds(locked, t, c);
      ThenProgress(s, locked, s');
      HasLeftVia(s, locked, s', t);
    }
  }

  // ---------------------------------------------------------------------------
  // Nobody inside

  lemma BeginCloseMoves(s: System, c: nat)
    requires s.reserving == {} && s.callers == map[] && c in s.listed
    ensures var s' := Next(s, BeginClose(0, c));
      && s'.reserving == {} && s'.callers == map[0 := Closing(c)] && s'.listed == s.listed - {c}
      && s'.owners == s.owners
  {
  }

  /** A context that nobody is using can be closed. */
  lemma ListedEnds(s: System, c: nat) returns (s': System)
    requires IsSound(s) && s.reserving == {} && s.callers == map[] && c in s.listed
    ensures Progresses(s, s')
  {
    BeginCloseMoves(s, c);
    OneStep(s, BeginClose(0, c));
    var begun := Next(s, BeginClose(0, c));
    s' := CloserEnds(begun, 0);
    ReachJoins(s, begun, s');
    assert s'.callers.Keys == {};
    assert |s'.callers| == |s'.callers.Keys| && |s'.owners| == |s'.owners.Keys| && |s.owners| == |s.owners.Keys|;
    SubsetCardinality(s'.owners.Keys, s.owners.Keys);
  }

  lemma ReleaseMoves(s: System, c: nat)
    requires s.callers == map[] && s.listed == {} && c in s.owners && s.slots > 0
    ensures var s' := Next(s, Release(c));
      s'.reserving == s.reserving && s'.callers == map[] && s'.listed == {} && s'.owners == s.owners - {c}
  {
  }

  lemma ReleasedIsLess(s: System, s': System, c: nat)
    requires c in s.owners && s'.reserving == s.reserving && s'.callers == s.callers && s'.listed == s.listed
    requires s'.owners == s.owners - {c}
    ensures Work(s') < Work(s)
  {
    assert s'.owners.Keys == s.owners.Keys - {c};
    assert |s'.owners| == |s'.owners.Keys| && |s.owners| == |s.owners.Keys|;
  }

  lemma UnlistedEnds(s: System, c: nat)
    requires IsSound(s) && s.callers == map[] && s.listed == {} && c in s.owners
    ensures Progresses(s, Next(s, Release(c)))
  {
    assert s.slots > 0 by {
      assert c in s.owners.Keys;
      assert |s.owners| == |s.owners.Keys|;
    }
    OneStep(s, Release(c));
    ReleaseMoves(s, c);
    ReleasedIsLess(s, Next(s, Release(c)), c);
  }

  lemma AllocateMoves(s: System, t: nat)
    requires t in s.reserving && s.slots > 0
    ensures var s' := Next(s, Allocate(t, false, false));
      s'.reserving == s.reserving - {t} && s'.callers == s.callers && s'.listed == s.listed && s'.owners == s.owners
  {
  }

  lemma ReservationEnds(s: System, t: nat)
    requires IsSound(s) && t in s.reserving
    ensures Progresses(s, Next(s, Allocate(t, false, false)))
  {
    assert s.slots > 0;
    OneStep(s, Allocate(t, false, false));
    AllocateMoves(s, t);
  }

  /** No owner, no thread, no reservation: every slot is free again. */
  ghost predicate IsDrained(s: System) {
    s.reserving == {} && s.callers == map[] && s.owners == map[] && s.listed == {} && s.slots == 0
  }

  lemma SomethingEnds(s: System) returns (s': System)
    requires IsSound(s) && !IsDrained(s)
    ensures Progresses(s, s')
  {
    if t :| t in s.reserving {
      ReservationEnds(s, t);
      s' := Next(s, Allocate(t, false, false));
    } else if t :| t in s.callers && !IsCloser(s.callers[t]) {
      s' := CallerEnds(s, t);
    } else if t :| t in s.callers {
      s' := CloserEnds(s, t);
    } else if c :| c in s.listed {
      s' := ListedEnds(s, c);
    } else {
      assert s.owners != map[] by {
        assert s.slots == |s.reserving| + |s.owners|;
      }
      var c :| c in s.owners;
      UnlistedEnds(s, c);
      s' := Next(s, Release(c));
    }
  }

  lemma {:induction false} Drains(s: System) returns (s': System)
    requires IsSound(s)
    ensures CanReach(s, s') && IsDrained(s')
    decreases Work(s)
  {
    if IsDrained(s) {
      assert Run(s, []) == s;
      s' := s;
    } else {
      var next := SomethingEnds(s);
      s' := Drains(next);
      ReachJoins(s, next, s');
    }
  }

  /**
   The registry never deadlocks: after every interleaving some continuation lets every
   open, call, job and close finish, joins every worker and frees every slot.
   */
  lemma EverySystemCanDrain(events: seq<Event>) returns (more: seq<Event>)
    ensures IsDrained(After(events + more))
  {
    EverySystemIsSound(events);
    var s' := Drains(After(events));
    more :| Run(After(events), more) == s';
    RunContinues(events, more);
  }
}
