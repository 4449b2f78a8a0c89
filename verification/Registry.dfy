/** Context owners and their single job, as interleaved steps of callers and workers. */
module Registry {
  import opened Wrappers

  const MAX_CONTEXTS: nat := 32

  datatype Message = CallMessage(caller: nat) | ApplyMessage(job: nat) | StopMessage

  /** `Halting` has left its loop and not yet dropped its receiver. */
  datatype Worker = Initialising | Refused | Receiving | Handling(caller: nat) | Applying(job: nat) | Halting | Gone

  /** One context: its worker, join handle, lock holder, one-slot channel and mailbox. */
  datatype Owner = Owner(worker: Worker, handle: bool, live: bool, lock: Option<nat>, channel: seq<Message>,
                         job: Option<nat>)

  /** How far a thread inside open, call or close has got with one context. */
  datatype Caller =
    | Opening(context: nat)
    | Aborting(context: nat)
    | Holding(context: nat)
    | Locked(context: nat)
    | Waiting(context: nat)
    | Answered(context: nat)
    | Starting(context: nat, job: nat)
    | Closing(context: nat)
    | Stopping(context: nat)
    | Joining(context: nat)

  datatype JobState = JobState(context: nat, finished: bool)

  /** Shared counters and tables; `openedIds` and `startedIds` record every identity handed out. */
  datatype System = System(
    slots: nat,
    nextContext: nat,
    nextJob: nat,
    reserving: set<nat>,
    owners: map<nat, Owner>,
    listed: set<nat>,
    callers: map<nat, Caller>,
    jobs: map<nat, JobState>,
    openedIds: seq<nat>,
    startedIds: seq<nat>)

  datatype Event =
    | Reserve(thread: nat)
    | Allocate(thread: nat, spawned: bool, live: bool)
    | Initialise(context: nat, served: bool)
    | Publish(thread: nat)
    | Abort(thread: nat)
    | Discard(thread: nat)
    | Lookup(thread: nat, context: nat)
    | TryLock(thread: nat)
    | ReturnFrom(thread: nat)
    | CloseJob(thread: nat, job: nat)
    | StartJob(thread: nat)
    | RecordJob(thread: nat)
    | SendCall(thread: nat)
    | Receive(context: nat)
    | Reply(context: nat, panicked: bool)
    | Finish(context: nat, panicked: bool)
    | DropReceiver(context: nat)
    | BeginClose(thread: nat, context: nat)
    | LockForClose(thread: nat)
    | SendStop(thread: nat)
    | Join(thread: nat)
    | Release(context: nat)

  predicate IsOpenEvent(event: Event) {
    event.Reserve? || event.Allocate? || event.Initialise? || event.Publish? || event.Abort? || event.Discard?
  }

  predicate IsWorkEvent(event: Event) {
    event.Receive? || event.Reply? || event.Finish? || event.DropReceiver?
  }

  predicate IsCloseEvent(event: Event) {
    event.BeginClose? || event.LockForClose? || event.SendStop? || event.Join? || event.Release?
  }

  predicate IsCallEvent(event: Event) {
    || event.Lookup? || event.TryLock? || event.ReturnFrom? || event.CloseJob? || event.StartJob?
    || event.RecordJob? || event.SendCall?
  }

  const EMPTY := System(0, 1, 1, {}, map[], {}, map[], map[], [], [])

  predicate HoldsLock(caller: Caller) {
    caller.Locked? || caller.Waiting? || caller.Answered? || caller.Starting? || caller.Stopping? || caller.Joining?
  }

  predicate IsCloser(caller: Caller) {
    caller.Closing? || caller.Stopping? || caller.Joining?
  }

  predicate Idle(s: System, thread: nat) {
    thread !in s.reserving && thread !in s.callers
  }

  predicate Refers(s: System, context: nat) {
    exists t :: t in s.callers && s.callers[t].context == context
  }

  // ---------------------------------------------------------------------------
  // Elementary changes

  function WithOwner(s: System, context: nat, owner: Owner): System {
    s.(owners := s.owners[context := owner])
  }

  function WithCaller(s: System, thread: nat, caller: Caller): System {
    s.(callers := s.callers[thread := caller])
  }

  /** The thread unlocks its context and returns to its caller. */
  function Leave(s: System, thread: nat): System
    requires thread in s.callers && s.callers[thread].context in s.owners
  {
    var c := s.callers[thread].context;
    WithOwner(s, c, s.owners[c].(lock := None)).(callers := s.callers - {thread})
  }

  /** Whether a mailbox with a running attempt occupies the context. */
  predicate Occupied(s: System, owner: Owner) {
    owner.job.Some? && owner.job.value in s.jobs && !s.jobs[owner.job.value].finished
  }

  /** The thread that failed to open a context has joined the worker that refused to serve. */
  function AbortJoined(s: System, c: nat, t: nat): System
    requires c in s.owners
  {
    WithCaller(WithOwner(s, c, s.owners[c].(worker := Gone, handle := false)), t, Aborting(c))
  }

  // ---------------------------------------------------------------------------
  // Steps

  function OpenStep(s: System, event: Event): System
    requires IsOpenEvent(event)
  {
    match event
    case Reserve(t) =>
      if Idle(s, t) && s.slots < MAX_CONTEXTS
      then s.(slots := s.slots + 1, reserving := s.reserving + {t}) else s
    case Allocate(t, spawned, live) =>
      if t !in s.reserving || s.slots == 0 then s
      else if s.nextContext >= U64_MAX then s.(slots := s.slots - 1, reserving := s.reserving - {t})
      else if !spawned then
        s.(slots := s.slots - 1, reserving := s.reserving - {t}, nextContext := s.nextContext + 1,
           openedIds := s.openedIds + [s.nextContext])
      else
        s.(reserving := s.reserving - {t},
           nextContext := s.nextContext + 1,
           openedIds := s.openedIds + [s.nextContext],
           owners := s.owners[s.nextContext := Owner(Initialising, true, live, None, [], None)],
           callers := s.callers[t := Opening(s.nextContext)])
    case Initialise(c, served) =>
      if c in s.owners && s.owners[c].worker.Initialising?
      then WithOwner(s, c, s.owners[c].(worker := if served then Receiving else Refused)) else s
    case Publish(t) =>
      if t in s.callers && s.callers[t].Opening? && s.callers[t].context in s.owners
         && !s.owners[s.callers[t].context].worker.Initialising? && !s.owners[s.callers[t].context].worker.Refused?
      then s.(listed := s.listed + {s.callers[t].context}, callers := s.callers - {t}) else s
    case Abort(t) =>
      if t in s.callers && s.callers[t].Opening? && s.callers[t].context in s.owners
         && s.owners[s.callers[t].context].worker.Refused?
      then AbortJoined(s, s.callers[t].context, t) else s
    case Discard(t) =>
      if t in s.callers && s.callers[t].Aborting? && s.callers[t].context in s.owners && s.slots > 0
      then s.(owners := s.owners - {s.callers[t].context}, slots := s.slots - 1, callers := s.callers - {t}) else s
  }

  function CallStep(s: System, event: Event): System
    requires IsCallEvent(event)
  {
    if event.Lookup? then
      if Idle(s, event.thread) && event.context in s.listed
      then WithCaller(s, event.thread, Holding(event.context)) else s
    else if event.thread !in s.callers || s.callers[event.thread].context !in s.owners then s
    else
      var t, caller := event.thread, s.callers[event.thread];
      var c := caller.context;
      var owner := s.owners[c];
      match event
      case TryLock(_) =>
        if !caller.Holding? then s
        else if owner.lock.Some? || !owner.handle then s.(callers := s.callers - {t})
        else WithCaller(WithOwner(s, c, owner.(lock := Some(t))), t, Locked(c))
      case ReturnFrom(_) =>
        if caller.Locked? || caller.Answered? then Leave(s, t) else s
      case CloseJob(_, j) =>
        if !caller.Locked? then s
        else if owner.job == Some(j) && !Occupied(s, owner) then Leave(WithOwner(s, c, owner.(job := None)), t)
        else Leave(s, t)
      case StartJob(_) =>
        if !caller.Locked? then s
        else if !owner.live || owner.job.Some? || s.nextJob >= U64_MAX then Leave(s, t)
        else
          var j := s.nextJob;
          var taken := s.(nextJob := j + 1, startedIds := s.startedIds + [j]);
          if owner.worker.Gone? then Leave(taken, t)
          else WithCaller(WithOwner(taken, c, owner.(channel := owner.channel + [ApplyMessage(j)])), t, Starting(c, j))
               .(jobs := s.jobs[j := JobState(c, false)])
      case RecordJob(_) =>
        if !caller.Starting? then s
        else Leave(WithOwner(s, c, owner.(job := Some(caller.job))), t)
      case SendCall(_) =>
        if !caller.Locked? then s
        else if Occupied(s, owner) || owner.worker.Gone? then Leave(s, t)
        else WithCaller(WithOwner(s, c, owner.(channel := owner.channel + [CallMessage(t)])), t, Waiting(c))
  }

  function WorkStep(s: System, event: Event): System
    requires IsWorkEvent(event)
  {
    if event.context !in s.owners then s
    else
      var c, owner := event.context, s.owners[event.context];
      match event
      case Receive(_) =>
        if !owner.worker.Receiving? || owner.channel == [] then s
        else
          var rest := owner.(channel := owner.channel[1..]);
          WithOwner(s, c,
            match owner.channel[0]
            case CallMessage(t) => rest.(worker := Handling(t))
            case ApplyMessage(j) => rest.(worker := Applying(j))
            case StopMessage => rest.(worker := Halting))
      case Reply(_, panicked) =>
        if !owner.worker.Handling? then s
        else WithCaller(WithOwner(s, c, owner.(worker := if panicked then Halting else Receiving)),
                        owner.worker.caller, Answered(c))
      case Finish(_, panicked) =>
        if !owner.worker.Applying? then s
        else WithOwner(s, c, owner.(worker := if panicked then Halting else Receiving))
             .(jobs := s.jobs[owner.worker.job := JobState(c, true)])
      case DropReceiver(_) =>
        if !owner.worker.Halting? then s
        else
          var gone := WithOwner(s, c, owner.(worker := Gone, channel := []));
          if owner.channel != [] && owner.channel[0].CallMessage?
          then WithCaller(gone, owner.channel[0].caller, Answered(c))
          else gone
  }

  function CloseStep(s: System, event: Event): System
    requires IsCloseEvent(event)
  {
    if event.BeginClose? then
      if Idle(s, event.thread) && event.context in s.listed
      then WithCaller(s.(listed := s.listed - {event.context}), event.thread, Closing(event.context)) else s
    else if event.Release? then
      if event.context in s.owners && event.context !in s.listed && !Refers(s, event.context) && s.slots > 0
      then s.(owners := s.owners - {event.context}, slots := s.slots - 1) else s
    else if event.thread !in s.callers || s.callers[event.thread].context !in s.owners then s
    else
      var t, caller := event.thread, s.callers[event.thread];
      var c := caller.context;
      var owner := s.owners[c];
      match event
      case LockForClose(_) =>
        if caller.Closing? && owner.lock.None?
        then WithCaller(WithOwner(s, c, owner.(lock := Some(t))), t, Stopping(c)) else s
      case SendStop(_) =>
        if !caller.Stopping? || !(owner.channel == [] || owner.worker.Gone?) then s
        else
          var stopped := if owner.worker.Gone? then owner else owner.(channel := owner.channel + [StopMessage]);
          WithCaller(WithOwner(s, c, stopped.(handle := false)), t, Joining(c))
      case Join(_) =>
        if caller.Joining? && owner.worker.Gone? then Leave(s, t) else s
  }

  function Next(s: System, event: Event): System {
    if IsOpenEvent(event) then OpenStep(s, event)
    else if IsCallEvent(event) then CallStep(s, event)
    else if IsWorkEvent(event) then WorkStep(s, event)
    else CloseStep(s, event)
  }

  /** The system after an arbitrary interleaving. */
  function After(events: seq<Event>): System
    decreases |events|
  {
    if events == [] then EMPTY else Next(After(events[..|events| - 1]), events[|events| - 1])
  }

  // ---------------------------------------------------------------------------
  // Invariant

  /** The job is unfinished and its mailbox is retained, or about to be by the call that started it. */
  ghost predicate Pending(s: System, c: nat, j: nat) {
    && c in s.owners && j in s.jobs && s.jobs[j] == JobState(c, false)
    && var owner := s.owners[c];
    || owner.job == Some(j)
    || (owner.job.None? && owner.lock.Some? && owner.lock.value in s.callers
          && s.callers[owner.lock.value] == Starting(c, j))
  }

  ghost predicate CallerOk(s: System, t: nat)
    requires t in s.callers
  {
    var caller := s.callers[t];
    && t !in s.reserving
    && caller.context in s.owners
    && var owner := s.owners[caller.context];
    && (HoldsLock(caller) ==> owner.lock == Some(t))
    && (caller.Opening? ==>
          && caller.context !in s.listed && owner.handle && owner.lock.None? && owner.channel == [] && owner.job.None?
          && (owner.worker.Initialising? || owner.worker.Refused? || owner.worker.Receiving?)
          && forall t' :: t' in s.callers && s.callers[t'].context == caller.context ==> t' == t)
    && (caller.Aborting? ==>
          && caller.context !in s.listed && owner.lock.None? && owner.channel == [] && owner.job.None?
          && !owner.handle && owner.worker.Gone?
          && forall t' :: t' in s.callers && s.callers[t'].context == caller.context ==> t' == t)
    && (!caller.Opening? ==> !owner.worker.Initialising? && !owner.worker.Refused?)
    && (caller.Locked? || caller.Waiting? || caller.Answered? || caller.Starting? ==> owner.handle)
    && (caller.Waiting? ==> owner.channel == [CallMessage(t)] || owner.worker == Handling(t))
    && (caller.Starting? ==> owner.job.None? && caller.job in s.jobs && s.jobs[caller.job].context == caller.context)
    && (caller.Closing? || caller.Stopping? ==> caller.context !in s.listed && owner.handle)
    && (caller.Joining? ==> caller.context !in s.listed && !owner.handle)
    && (IsCloser(caller) ==>
          forall k :: k in s.callers && s.callers[k].context == caller.context && IsCloser(s.callers[k]) ==> k == t)
  }

  ghost predicate IsWaiting(s: System, c: nat, t: nat) {
    t in s.callers && s.callers[t] == Waiting(c)
  }

  ghost predicate HeldOpen(s: System, c: nat) {
    exists t :: t in s.callers && s.callers[t].context == c
                && (s.callers[t].Opening? || s.callers[t].Closing? || s.callers[t].Stopping? || s.callers[t].Joining?)
  }

  ghost predicate ChannelOk(s: System, c: nat)
    requires c in s.owners
  {
    var owner := s.owners[c];
    && |owner.channel| <= 1
    && (owner.channel != [] ==>
          match owner.channel[0]
          case CallMessage(t) => IsWaiting(s, c, t)
          case ApplyMessage(j) => Pending(s, c, j)
          case StopMessage => !owner.handle)
    && match owner.worker
       case Handling(t) => IsWaiting(s, c, t) && owner.channel == []
       case Applying(j) => Pending(s, c, j) && (owner.channel != [] ==> owner.channel[0].StopMessage?)
       case Gone => owner.channel == []
       case Initialising => owner.channel == []
       case Refused => owner.channel == []
       case _ => true
  }

  ghost predicate OwnerOk(s: System, c: nat)
    requires c in s.owners
  {
    var owner := s.owners[c];
    && c < s.nextContext
    && (owner.lock.Some? ==>
          && owner.lock.value in s.callers && s.callers[owner.lock.value].context == c
          && HoldsLock(s.callers[owner.lock.value]))
    && (owner.job.Some? ==> owner.job.value in s.jobs && s.jobs[owner.job.value].context == c)
    && (c in s.listed ==> owner.handle && !owner.worker.Initialising? && !owner.worker.Refused?)
    && (c !in s.listed ==> HeldOpen(s, c) || (!owner.handle && owner.worker.Gone?))
  }

  ghost predicate JobOk(s: System, j: nat)
    requires j in s.jobs
  {
    && j < s.nextJob
    && s.jobs[j].context < s.nextContext
    && (!s.jobs[j].finished && s.jobs[j].context in s.owners ==> Pending(s, s.jobs[j].context, j))
  }

  ghost predicate Ascending(ids: seq<nat>, next: nat) {
    && (forall i, j :: 0 <= i < j < |ids| ==> ids[i] < ids[j])
    && forall i :: 0 <= i < |ids| ==> 1 <= ids[i] < next
  }

  ghost predicate Counted(s: System) {
    && s.slots == |s.reserving| + |s.owners|
    && s.slots <= MAX_CONTEXTS
    && 1 <= s.nextContext <= U64_MAX && 1 <= s.nextJob <= U64_MAX
    && Ascending(s.openedIds, s.nextContext) && Ascending(s.startedIds, s.nextJob)
    && s.listed <= s.owners.Keys
  }

  ghost predicate Linked(s: System) {
    && (forall t :: t in s.callers ==> CallerOk(s, t))
    && (forall c :: c in s.owners ==> OwnerOk(s, c))
    && (forall c :: c in s.owners ==> ChannelOk(s, c))
    && forall j :: j in s.jobs ==> JobOk(s, j)
  }

  ghost predicate Invariant(s: System) {
    Counted(s) && Linked(s)
  }

  // ---------------------------------------------------------------------------
  // Preservation

  lemma OpenCounts(s: System, event: Event)
    requires Invariant(s) && IsOpenEvent(event)
    ensures Counted(OpenStep(s, event))
  {
    if event.Allocate? {
      NextContextUnused(s);
      AllocateCounts(s, event);
    } else {
      assert event.Discard? && event.thread in s.callers ==> CallerOk(s, event.thread);
      OtherOpenCounts(s, event);
    }
  }

  lemma OtherOpenCounts(s: System, event: Event)
    requires Counted(s) && IsOpenEvent(event) && !event.Allocate?
    requires event.Discard? && event.thread in s.callers && s.callers[event.thread].Aborting? ==>
      s.callers[event.thread].context !in s.listed
    ensures Counted(OpenStep(s, event))
  {
    if event.Discard? || event.Reserve? {
      SlotStepCounts(s, event);
    } else {
      OwnerStepCounts(s, event);
    }
  }

  lemma SlotStepCounts(s: System, event: Event)
    requires Counted(s) && (event.Discard? || event.Reserve?)
    requires event.Discard? && event.thread in s.callers && s.callers[event.thread].Aborting? ==>
      s.callers[event.thread].context !in s.listed
    ensures Counted(OpenStep(s, event))
  {
    if OpenStep(s, event) != s {
      if event.Discard? {
        DiscardCounts(s, s.callers[event.thread].context, OpenStep(s, event));
      } else {
        ReserveCounts(s, event.thread, OpenStep(s, event));
      }
    }
  }

  lemma OwnerStepCounts(s: System, event: Event)
    requires Counted(s) && (event.Abort? || event.Initialise? || event.Publish?)
    ensures Counted(OpenStep(s, event))
  {
    var s' := OpenStep(s, event);
    OwnersKept(s, event);
    assert |s'.owners| == |s'.owners.Keys| && |s.owners| == |s.owners.Keys|;
  }

  lemma OwnersKept(s: System, event: Event)
    requires s.listed <= s.owners.Keys && (event.Abort? || event.Initialise? || event.Publish?)
    ensures var s' := OpenStep(s, event);
      && s'.owners.Keys == s.owners.Keys && s'.listed <= s'.owners.Keys
      && s'.slots == s.slots && s'.reserving == s.reserving
      && s'.nextContext == s.nextContext && s'.openedIds == s.openedIds
      && s'.nextJob == s.nextJob && s'.startedIds == s.startedIds
  {
  }

  lemma DiscardCounts(s: System, c: nat, s': System)
    requires Counted(s) && c in s.owners && c !in s.listed && s.slots > 0
    requires s' == s.(owners := s.owners - {c}, slots := s.slots - 1, callers := s'.callers)
    ensures Counted(s')
  {
    DropCounts(s, c);
  }

  lemma ReserveCounts(s: System, t: nat, s': System)
    requires Counted(s) && t !in s.reserving && s.slots < MAX_CONTEXTS
    requires s' == s.(slots := s.slots + 1, reserving := s.reserving + {t})
    ensures Counted(s')
  {
    assert |s'.reserving| == |s.reserving| + 1;
  }

  lemma InsertCounts(s: System, c: nat, owner: Owner)
    requires c !in s.owners
    ensures |s.owners[c := owner]| == |s.owners| + 1
  {
    assert s.owners[c := owner].Keys == s.owners.Keys + {c};
    assert |s.owners[c := owner]| == |s.owners[c := owner].Keys| && |s.owners| == |s.owners.Keys|;
  }

  lemma AllocateCounts(s: System, event: Event)
    requires Counted(s) && event.Allocate? && s.nextContext !in s.owners
    ensures Counted(OpenStep(s, event))
  {
    InsertCounts(s, s.nextContext, Owner(Initialising, true, event.live, None, [], None));
    AscendingGrows(s.openedIds, s.nextContext);
  }

  lemma AscendingGrows(ids: seq<nat>, next: nat)
    requires Ascending(ids, next) && 1 <= next
    ensures Ascending(ids + [next], next + 1)
  {
  }

  lemma DropCounts(s: System, c: nat)
    requires c in s.owners
    ensures |s.owners - {c}| == |s.owners| - 1
  {
    var rest := s.owners - {c};
    assert rest.Keys == s.owners.Keys - {c};
    assert |rest| == |rest.Keys| && |s.owners| == |s.owners.Keys|;
  }

  /** The next identity is new to every table. */
  lemma NextContextUnused(s: System)
    requires Linked(s)
    ensures s.nextContext !in s.owners
    ensures forall t :: t in s.callers ==> s.callers[t].context != s.nextContext
    ensures forall j :: j in s.jobs ==> s.jobs[j].context != s.nextContext
  {
    forall c | c in s.owners ensures c != s.nextContext { assert OwnerOk(s, c); }
    forall t | t in s.callers ensures s.callers[t].context != s.nextContext {
      assert CallerOk(s, t);
      assert OwnerOk(s, s.callers[t].context);
    }
    forall j | j in s.jobs ensures s.jobs[j].context != s.nextContext { assert JobOk(s, j); }
  }

  /** The step concerns one context: everything about the others is as before. */
  ghost predicate Local(s: System, s': System, c: nat) {
    && (forall x :: x != c ==> (x in s.owners <==> x in s'.owners) && (x in s.listed <==> x in s'.listed))
    && (forall x :: x != c && x in s.owners ==> s'.owners[x] == s.owners[x])
    && (forall t :: t in s.callers && s.callers[t].context != c ==> t in s'.callers && s'.callers[t] == s.callers[t])
    && (forall t :: t in s'.callers && s'.callers[t].context != c ==> t in s.callers && s.callers[t] == s'.callers[t])
    && (forall j :: j in s.jobs && s.jobs[j].context != c ==> j in s'.jobs && s'.jobs[j] == s.jobs[j])
    && (forall j :: j in s'.jobs && s'.jobs[j].context != c ==> j in s.jobs && s.jobs[j] == s'.jobs[j])
    && s.nextContext <= s'.nextContext && s.nextJob <= s'.nextJob
    && s'.reserving <= s.reserving
  }

  ghost predicate Here(s: System, c: nat) {
    && (c in s.owners ==> OwnerOk(s, c) && ChannelOk(s, c))
    && (forall t :: t in s.callers && s.callers[t].context == c ==> CallerOk(s, t))
    && forall j :: j in s.jobs && s.jobs[j].context == c ==> JobOk(s, j)
  }

  lemma LinkedHere(s: System, c: nat)
    requires Linked(s)
    ensures Here(s, c)
  {
  }

  lemma FrameOwner(s: System, s': System, c: nat, x: nat)
    requires Linked(s) && Local(s, s', c) && x != c && x in s'.owners
    ensures OwnerOk(s', x) && ChannelOk(s', x)
  {
    assert OwnerOk(s, x) && ChannelOk(s, x);
    if HeldOpen(s, x) {
      var t :| t in s.callers && s.callers[t].context == x
               && (s.callers[t].Opening? || s.callers[t].Closing? || s.callers[t].Stopping? || s.callers[t].Joining?);
      assert s'.callers[t] == s.callers[t];
    }
  }

  lemma FrameCaller(s: System, s': System, c: nat, t: nat)
    requires Linked(s) && Local(s, s', c) && t in s'.callers && s'.callers[t].context != c
    ensures CallerOk(s', t)
  {
    assert CallerOk(s, t);
  }

  lemma FrameJob(s: System, s': System, c: nat, j: nat)
    requires Linked(s) && Local(s, s', c) && j in s'.jobs && s'.jobs[j].context != c
    ensures JobOk(s', j)
  {
    assert JobOk(s, j);
  }

  /** A local step only has to re-establish the invariant at its own context. */
  lemma FrameLinks(s: System, s': System, c: nat)
    requires Linked(s) && Local(s, s', c) && Here(s', c)
    ensures Linked(s')
  {
    forall x | x in s'.owners && x != c ensures OwnerOk(s', x) && ChannelOk(s', x) { FrameOwner(s, s', c, x); }
    forall t | t in s'.callers && s'.callers[t].context != c ensures CallerOk(s', t) { FrameCaller(s, s', c, t); }
    forall j | j in s'.jobs && s'.jobs[j].context != c ensures JobOk(s', j) { FrameJob(s, s', c, j); }
  }

  lemma OpenLinks(s: System, event: Event)
    requires Invariant(s) && IsOpenEvent(event)
    ensures Linked(OpenStep(s, event))
  {
    var s' := OpenStep(s, event);
    if s' != s {
      match event
      case Reserve(t) => ReserveLinks(s, t);
      case Allocate(t, _, _) => AllocateLinks(s, event);
      case Initialise(c, _) => InitialiseLinks(s, event);
      case Publish(t) => PublishLinks(s, t);
      case Abort(t) => AbortLinks(s, s.callers[t].context, t);
      case Discard(t) => DiscardLinks(s, t);
    }
  }

  lemma ReserveLinks(s: System, t: nat)
    requires Invariant(s)
    ensures Linked(OpenStep(s, Reserve(t)))
  {
    var s' := OpenStep(s, Reserve(t));
    forall k | k in s'.callers ensures CallerOk(s', k) { assert CallerOk(s, k); }
    forall c | c in s'.owners ensures OwnerOk(s', c) && ChannelOk(s', c) {
      assert OwnerOk(s, c) && ChannelOk(s, c);
      if HeldOpen(s, c) {
        assert HeldOpen(s', c);
      }
    }
    forall j | j in s'.jobs ensures JobOk(s', j) { assert JobOk(s, j); }
  }

  lemma AllocateLinks(s: System, event: Event)
    requires Invariant(s) && event.Allocate? && event.thread in s.reserving
    ensures Linked(OpenStep(s, event))
  {
    var t := event.thread;
    assert t !in s.callers by {
      assert forall k :: k in s.callers ==> CallerOk(s, k);
    }
    if s.slots > 0 {
      if s.nextContext < U64_MAX && event.spawned {
        SpawnLinks(s, t, event.live);
      } else {
        FailedSpawnLinks(s, OpenStep(s, event));
      }
    }
  }

  /** A new owner under the next identity, held by the thread that opens it. */
  function Spawned(s: System, t: nat, live: bool): System {
    s.(reserving := s.reserving - {t},
       nextContext := s.nextContext + 1,
       openedIds := s.openedIds + [s.nextContext],
       owners := s.owners[s.nextContext := Owner(Initialising, true, live, None, [], None)],
       callers := s.callers[t := Opening(s.nextContext)])
  }

  lemma SpawnLinks(s: System, t: nat, live: bool)
    requires Linked(s) && s.listed <= s.owners.Keys && t !in s.callers
    ensures Linked(Spawned(s, t, live))
  {
    NextContextUnused(s);
    OpenedHere(Spawned(s, t, live), s.nextContext, t);
    FrameLinks(s, Spawned(s, t, live), s.nextContext);
  }

  /** Giving up a reservation, with or without an identity, changes no owner. */
  lemma FailedSpawnLinks(s: System, s': System)
    requires Linked(s) && s'.owners == s.owners && s'.callers == s.callers && s'.jobs == s.jobs && s'.listed == s.listed
    requires s'.reserving <= s.reserving && s.nextContext <= s'.nextContext && s'.nextJob == s.nextJob
    ensures Linked(s')
  {
    forall t | t in s'.callers ensures CallerOk(s', t) { assert CallerOk(s, t); }
    forall c | c in s'.owners ensures OwnerOk(s', c) && ChannelOk(s', c) {
      assert OwnerOk(s, c) && ChannelOk(s, c);
      KeeperStays(s, s', c);
    }
    forall j | j in s'.jobs ensures JobOk(s', j) { assert JobOk(s, j); }
  }

  /** A freshly created owner, referred to by its opener only. */
  lemma OpenedHere(s: System, c: nat, t: nat)
    requires c in s.owners && s.owners[c].worker.Initialising? && s.owners[c].handle && s.owners[c].lock.None?
    requires s.owners[c].channel == [] && s.owners[c].job.None? && c !in s.listed && c < s.nextContext
    requires t in s.callers && s.callers[t] == Opening(c) && t !in s.reserving
    requires forall k :: k in s.callers && s.callers[k].context == c ==> k == t
    requires forall j :: j in s.jobs ==> s.jobs[j].context != c
    ensures Here(s, c)
  {
    assert HeldOpen(s, c);
  }

  lemma InitialiseLinks(s: System, event: Event)
    requires Invariant(s) && event.Initialise? && OpenStep(s, event) != s
    ensures Linked(OpenStep(s, event))
  {
    var s', c := OpenStep(s, event), event.context;
    assert OwnerOk(s, c) && ChannelOk(s, c);
    KeeperStays(s, s', c);
    forall t | t in s'.callers && s'.callers[t].context == c ensures CallerOk(s', t) { assert CallerOk(s, t); }
    forall j | j in s'.jobs && s'.jobs[j].context == c ensures JobOk(s', j) { assert JobOk(s, j); }
    FrameLinks(s, s', c);
  }

  /** A thread that opens or closes the context still does, if the callers did not change. */
  lemma KeeperStays(s: System, s': System, c: nat)
    requires s'.callers == s.callers
    ensures HeldOpen(s, c) ==> HeldOpen(s', c)
  {
  }

  lemma PublishLinks(s: System, t: nat)
    requires Invariant(s) && OpenStep(s, Publish(t)) != s
    ensures Linked(OpenStep(s, Publish(t)))
  {
    var s', c := OpenStep(s, Publish(t)), s.callers[t].context;
    assert CallerOk(s, t) && OwnerOk(s, c) && ChannelOk(s, c);
    forall j | j in s'.jobs && s'.jobs[j].context == c ensures JobOk(s', j) { assert JobOk(s, j); }
    FrameLinks(s, s', c);
  }

  lemma AbortLinks(s: System, c: nat, t: nat)
    requires Linked(s) && t in s.callers && s.callers[t] == Opening(c) && c in s.owners && s.owners[c].worker.Refused?
    ensures Linked(AbortJoined(s, c, t))
  {
    LinkedHere(s, c);
    AbortHere(s, c, t);
    FrameLinks(s, AbortJoined(s, c, t), c);
  }

  lemma AbortHere(s: System, c: nat, t: nat)
    requires Here(s, c) && t in s.callers && s.callers[t] == Opening(c) && c in s.owners && s.owners[c].worker.Refused?
    ensures Here(AbortJoined(s, c, t), c)
  {
    var s' := AbortJoined(s, c, t);
    assert CallerOk(s, t) && OwnerOk(s, c) && ChannelOk(s, c);
    forall j | j in s'.jobs && s'.jobs[j].context == c ensures JobOk(s', j) { assert JobOk(s, j); }
  }

  lemma DiscardLinks(s: System, t: nat)
    requires Invariant(s) && OpenStep(s, Discard(t)) != s
    ensures Linked(OpenStep(s, Discard(t)))
  {
    var s', c := OpenStep(s, Discard(t)), s.callers[t].context;
    assert CallerOk(s, t) && OwnerOk(s, c);
    forall j | j in s'.jobs && s'.jobs[j].context == c ensures JobOk(s', j) { assert JobOk(s, j); }
    FrameLinks(s, s', c);
  }

  /** A step of one calling thread: only its own entry among the callers changes. */
  ghost predicate OneCaller(s: System, s': System, t: nat) {
    && (forall k :: k != t ==> (k in s.callers <==> k in s'.callers))
    && forall k :: k != t && k in s.callers ==> s'.callers[k] == s.callers[k]
  }

  lemma KeeperRemains(s: System, s': System, c: nat, t: nat)
    requires OneCaller(s, s', t)
    requires t in s.callers ==>
      !s.callers[t].Opening? && !s.callers[t].Closing? && !s.callers[t].Stopping? && !s.callers[t].Joining?
    ensures HeldOpen(s, c) ==> HeldOpen(s', c)
  {
    if HeldOpen(s, c) {
      var k :| k in s.callers && s.callers[k].context == c
               && (s.callers[k].Opening? || s.callers[k].Closing? || s.callers[k].Stopping? || s.callers[k].Joining?);
      assert s'.callers[k] == s.callers[k];
    }
  }

  lemma LookupLinks(s: System, c: nat, t: nat)
    requires Linked(s) && Idle(s, t) && c in s.listed && c in s.owners
    ensures Linked(WithCaller(s, t, Holding(c)))
  {
    LinkedHere(s, c);
    LookupHere(s, c, t);
    FrameLinks(s, WithCaller(s, t, Holding(c)), c);
  }

  lemma LookupHere(s: System, c: nat, t: nat)
    requires Here(s, c) && Idle(s, t) && c in s.listed && c in s.owners
    ensures Here(WithCaller(s, t, Holding(c)), c)
  {
    var s' := WithCaller(s, t, Holding(c));
    assert OwnerOk(s, c) && ChannelOk(s, c);
    forall k | k in s'.callers && s'.callers[k].context == c ensures CallerOk(s', k) {
      if k != t { assert CallerOk(s, k); }
    }
    forall j | j in s'.jobs && s'.jobs[j].context == c ensures JobOk(s', j) { assert JobOk(s, j); }
    KeeperRemains(s, s', c, t);
  }

  /** A thread that only looked a context up may give up. */
  lemma GiveUpLinks(s: System, t: nat)
    requires Linked(s) && t in s.callers && s.callers[t].Holding?
    ensures Linked(s.(callers := s.callers - {t}))
  {
    var s', c := s.(callers := s.callers - {t}), s.callers[t].context;
    LinkedHere(s, c);
    GiveUpHere(s, s', c, t);
    FrameLinks(s, s', c);
  }

  lemma GiveUpHere(s: System, s': System, c: nat, t: nat)
    requires Here(s, c) && t in s.callers && s.callers[t] == Holding(c) && s' == s.(callers := s.callers - {t})
    ensures Here(s', c)
  {
    assert CallerOk(s, t) && OwnerOk(s, c) && ChannelOk(s, c);
    forall k | k in s'.callers && s'.callers[k].context == c ensures CallerOk(s', k) { assert CallerOk(s, k); }
    forall j | j in s'.jobs && s'.jobs[j].context == c ensures JobOk(s', j) { assert JobOk(s, j); }
    KeeperRemains(s, s', c, t);
  }

  function LockTaken(s: System, c: nat, t: nat): System
    requires c in s.owners
  {
    WithCaller(WithOwner(s, c, s.owners[c].(lock := Some(t))), t, Locked(c))
  }

  lemma TakeLockLinks(s: System, c: nat, t: nat)
    requires Linked(s) && t in s.callers && s.callers[t] == Holding(c) && c in s.owners
    requires s.owners[c].lock.None? && s.owners[c].handle
    ensures Linked(LockTaken(s, c, t))
  {
    LinkedHere(s, c);
    TakeLockHere(s, c, t);
    FrameLinks(s, LockTaken(s, c, t), c);
  }

  lemma TakeLockHere(s: System, c: nat, t: nat)
    requires Here(s, c) && t in s.callers && s.callers[t] == Holding(c) && c in s.owners
    requires s.owners[c].lock.None? && s.owners[c].handle
    ensures Here(LockTaken(s, c, t), c)
  {
    var s' := LockTaken(s, c, t);
    assert CallerOk(s, t) && OwnerOk(s, c) && ChannelOk(s, c);
    forall k | k in s'.callers && s'.callers[k].context == c ensures CallerOk(s', k) {
      if k != t { assert CallerOk(s, k); }
    }
    forall j | j in s'.jobs && s'.jobs[j].context == c ensures JobOk(s', j) { assert JobOk(s, j); }
    KeeperRemains(s, s', c, t);
  }

  /** A lock holder that is neither waited for nor starting a job may leave. */
  lemma LeaveLinks(s: System, t: nat)
    requires Linked(s) && t in s.callers && (s.callers[t].Locked? || s.callers[t].Answered?)
    requires s.callers[t].context in s.owners
    ensures Linked(Leave(s, t))
  {
    var c := s.callers[t].context;
    LinkedHere(s, c);
    LeaveHere(s, c, t);
    FrameLinks(s, Leave(s, t), c);
  }

  lemma LeaveHere(s: System, c: nat, t: nat)
    requires Here(s, c) && t in s.callers && (s.callers[t] == Locked(c) || s.callers[t] == Answered(c)) && c in s.owners
    ensures Here(Leave(s, t), c)
  {
    var s' := Leave(s, t);
    assert CallerOk(s, t) && OwnerOk(s, c) && ChannelOk(s, c);
    forall k | k in s'.callers && s'.callers[k].context == c ensures CallerOk(s', k) { assert CallerOk(s, k); }
    forall j | j in s'.jobs && s'.jobs[j].context == c ensures JobOk(s', j) { assert JobOk(s, j); }
    KeeperRemains(s, s', c, t);
  }

  /** A finished mailbox may be forgotten. */
  lemma ForgetLinks(s: System, t: nat)
    requires Linked(s) && t in s.callers && s.callers[t].Locked? && s.callers[t].context in s.owners
    requires !Occupied(s, s.owners[s.callers[t].context])
    ensures var c := s.callers[t].context; Linked(WithOwner(s, c, s.owners[c].(job := None)))
  {
    var c := s.callers[t].context;
    var s' := WithOwner(s, c, s.owners[c].(job := None));
    assert CallerOk(s, t) && OwnerOk(s, c) && ChannelOk(s, c);
    forall k | k in s'.callers && s'.callers[k].context == c ensures CallerOk(s', k) { assert CallerOk(s, k); }
    forall j | j in s'.jobs && s'.jobs[j].context == c ensures JobOk(s', j) { assert JobOk(s, j); }
    KeeperStays(s, s', c);
    FrameLinks(s, s', c);
  }

  /** Whoever holds an unoccupied context's lock finds its channel empty and its worker between messages. */
  lemma ChannelIsEmpty(s: System, t: nat)
    requires Linked(s) && t in s.callers && s.callers[t].Locked? && s.callers[t].context in s.owners
    requires !Occupied(s, s.owners[s.callers[t].context])
    ensures var owner := s.owners[s.callers[t].context];
      && owner.channel == []
      && (owner.worker.Receiving? || owner.worker.Halting? || owner.worker.Gone?)
  {
    var c := s.callers[t].context;
    assert CallerOk(s, t) && OwnerOk(s, c) && ChannelOk(s, c);
    var owner := s.owners[c];
    assert forall k :: k in s.callers ==> CallerOk(s, k);
    assert !exists j :: Pending(s, c, j);
  }

  /** A start on a stopped owner only consumes a job identity. */
  lemma LostStartLinks(s: System, t: nat, c: nat)
    requires Linked(s) && t in s.callers && s.callers[t] == Locked(c) && c in s.owners
    ensures Linked(Leave(s.(nextJob := s.nextJob + 1, startedIds := s.startedIds + [s.nextJob]), t))
  {
    var taken := s.(nextJob := s.nextJob + 1, startedIds := s.startedIds + [s.nextJob]);
    CounterLinks(s, taken);
    LeaveLinks(taken, t);
  }

  /** The three outcomes of a start request. */
  lemma StartOutcomes(s: System, t: nat, c: nat)
    requires t in s.callers && s.callers[t] == Locked(c) && c in s.owners
    ensures var owner := s.owners[c];
      CallStep(s, StartJob(t)) ==
        if !owner.live || owner.job.Some? || s.nextJob >= U64_MAX then Leave(s, t)
        else if owner.worker.Gone? then Leave(s.(nextJob := s.nextJob + 1, startedIds := s.startedIds + [s.nextJob]), t)
        else s.(nextJob := s.nextJob + 1, startedIds := s.startedIds + [s.nextJob],
                jobs := s.jobs[s.nextJob := JobState(c, false)],
                owners := s.owners[c := owner.(channel := owner.channel + [ApplyMessage(s.nextJob)])],
                callers := s.callers[t := Starting(c, s.nextJob)])
  {
  }

  lemma StartJobLinks(s: System, t: nat, c: nat)
    requires Linked(s) && t in s.callers && s.callers[t] == Locked(c) && c in s.owners
    ensures Linked(CallStep(s, StartJob(t)))
  {
    StartOutcomes(s, t, c);
    var owner := s.owners[c];
    if !owner.live || owner.job.Some? || s.nextJob >= U64_MAX {
      LeaveLinks(s, t);
    } else if owner.worker.Gone? {
      LostStartLinks(s, t, c);
    } else {
      StartSends(s, t, c);
      SendJobLinks(s, CallStep(s, StartJob(t)), c, t);
    }
  }

  /** A start that reaches the worker sends into an empty channel. */
  lemma StartSends(s: System, t: nat, c: nat)
    requires Linked(s) && t in s.callers && s.callers[t] == Locked(c) && c in s.owners
    requires var owner := s.owners[c]; owner.live && owner.job.None? && s.nextJob < U64_MAX && !owner.worker.Gone?
    ensures var owner := s.owners[c]; var j := s.nextJob;
      && owner.channel == [] && (owner.worker.Receiving? || owner.worker.Halting?)
      && CallStep(s, StartJob(t))
         == s.(nextJob := j + 1, startedIds := s.startedIds + [j], jobs := s.jobs[j := JobState(c, false)],
               owners := s.owners[c := owner.(channel := [ApplyMessage(j)])],
               callers := s.callers[t := Starting(c, j)])
  {
    ChannelIsEmpty(s, t);
    assert s.owners[c].channel + [ApplyMessage(s.nextJob)] == [ApplyMessage(s.nextJob)];
  }

  lemma SendJobLinks(s: System, s': System, c: nat, t: nat)
    requires Linked(s) && t in s.callers && s.callers[t] == Locked(c) && c in s.owners && SendsJob(s, s', c, t)
    ensures Linked(s')
  {
    assert s.nextJob !in s.jobs by { assert forall i :: i in s.jobs ==> JobOk(s, i); }
    LinkedHere(s, c);
    SendJobHere(s, s', c, t);
    FrameLinks(s, s', c);
  }

  /** The apply message of a new job lands in the empty channel. */
  ghost predicate SendsJob(s: System, s': System, c: nat, t: nat) {
    && c in s.owners
    && var owner := s.owners[c]; var j := s.nextJob;
    && owner.job.None? && owner.channel == [] && (owner.worker.Receiving? || owner.worker.Halting?)
    && s' == s.(nextJob := j + 1, startedIds := s'.startedIds, jobs := s.jobs[j := JobState(c, false)],
                owners := s.owners[c := owner.(channel := [ApplyMessage(j)])],
                callers := s.callers[t := Starting(c, j)])
  }

  lemma SendJobHere(s: System, s': System, c: nat, t: nat)
    requires Here(s, c) && t in s.callers && s.callers[t] == Locked(c) && SendsJob(s, s', c, t) && s.nextJob !in s.jobs
    ensures Here(s', c)
  {
    assert CallerOk(s, t) && OwnerOk(s, c) && ChannelOk(s, c);
    var j := s.nextJob;
    assert Pending(s', c, j);
    forall k | k in s'.callers && s'.callers[k].context == c ensures CallerOk(s', k) {
      if k != t { assert CallerOk(s, k); }
    }
    forall i | i in s'.jobs && s'.jobs[i].context == c ensures JobOk(s', i) {
      if i != j { assert JobOk(s, i); }
    }
    KeeperRemains(s, s', c, t);
  }

  /** Consuming a job identity affects nothing else. */
  lemma CounterLinks(s: System, s': System)
    requires Linked(s) && s' == s.(nextJob := s'.nextJob, startedIds := s'.startedIds) && s.nextJob <= s'.nextJob
    ensures Linked(s')
  {
    forall t | t in s'.callers ensures CallerOk(s', t) { assert CallerOk(s, t); }
    forall c | c in s'.owners ensures OwnerOk(s', c) && ChannelOk(s', c) {
      assert OwnerOk(s, c) && ChannelOk(s, c);
      KeeperStays(s, s', c);
    }
    forall j | j in s'.jobs ensures JobOk(s', j) { assert JobOk(s, j); }
  }

  function JobRecorded(s: System, c: nat, t: nat, j: nat): System
    requires c in s.owners && t in s.callers && s.callers[t].context == c
  {
    Leave(WithOwner(s, c, s.owners[c].(job := Some(j))), t)
  }

  lemma RecordJobLinks(s: System, c: nat, t: nat, j: nat)
    requires Linked(s) && t in s.callers && s.callers[t] == Starting(c, j) && c in s.owners
    ensures Linked(JobRecorded(s, c, t, j))
  {
    LinkedHere(s, c);
    RecordJobHere(s, c, t, j);
    FrameLinks(s, JobRecorded(s, c, t, j), c);
  }

  lemma RecordJobHere(s: System, c: nat, t: nat, j: nat)
    requires Here(s, c) && t in s.callers && s.callers[t] == Starting(c, j) && c in s.owners
    ensures Here(JobRecorded(s, c, t, j), c)
  {
    var s' := JobRecorded(s, c, t, j);
    assert CallerOk(s, t) && OwnerOk(s, c) && ChannelOk(s, c);
    forall k | k in s'.callers && s'.callers[k].context == c ensures CallerOk(s', k) { assert CallerOk(s, k); }
    forall i | i in s'.jobs && s'.jobs[i].context == c ensures JobOk(s', i) { assert JobOk(s, i); }
    KeeperRemains(s, s', c, t);
  }

  function CallSent(s: System, c: nat, t: nat): System
    requires c in s.owners
  {
    WithCaller(WithOwner(s, c, s.owners[c].(channel := s.owners[c].channel + [CallMessage(t)])), t, Waiting(c))
  }

  lemma SendCallLinks(s: System, c: nat, t: nat)
    requires Linked(s) && t in s.callers && s.callers[t] == Locked(c) && c in s.owners
    requires s.owners[c].channel == [] && (s.owners[c].worker.Receiving? || s.owners[c].worker.Halting?)
    ensures Linked(CallSent(s, c, t))
  {
    LinkedHere(s, c);
    SendCallHere(s, c, t);
    FrameLinks(s, CallSent(s, c, t), c);
  }

  lemma SendCallHere(s: System, c: nat, t: nat)
    requires Here(s, c) && t in s.callers && s.callers[t] == Locked(c) && c in s.owners
    requires s.owners[c].channel == [] && (s.owners[c].worker.Receiving? || s.owners[c].worker.Halting?)
    ensures Here(CallSent(s, c, t), c)
  {
    var s' := CallSent(s, c, t);
    assert CallerOk(s, t) && OwnerOk(s, c);
    forall k | k in s'.callers && s'.callers[k].context == c ensures CallerOk(s', k) {
      if k != t { assert CallerOk(s, k); }
    }
    forall i | i in s'.jobs && s'.jobs[i].context == c ensures JobOk(s', i) { assert JobOk(s, i); }
    KeeperRemains(s, s', c, t);
  }

  /** What each step of a calling thread amounts to. */
  lemma CallOutcomes(s: System, event: Event)
    requires event.TryLock? || event.ReturnFrom? || event.RecordJob? || event.SendCall?
    requires event.thread in s.callers && s.callers[event.thread].context in s.owners && CallStep(s, event) != s
    ensures var t, caller := event.thread, s.callers[event.thread];
      var c := caller.context;
      match event
      case TryLock(_) =>
        && caller.Holding?
        && CallStep(s, event)
           == if s.owners[c].lock.Some? || !s.owners[c].handle then s.(callers := s.callers - {t})
              else LockTaken(s, c, t)
      case ReturnFrom(_) => (caller.Locked? || caller.Answered?) && CallStep(s, event) == Leave(s, t)
      case RecordJob(_) => caller.Starting? && CallStep(s, event) == JobRecorded(s, c, t, caller.job)
      case _ =>
        && caller.Locked?
        && CallStep(s, event)
           == if Occupied(s, s.owners[c]) || s.owners[c].worker.Gone? then Leave(s, t) else CallSent(s, c, t)
  {
  }

  lemma ThreadLinks(s: System, event: Event)
    requires Linked(s) && (event.TryLock? || event.ReturnFrom? || event.RecordJob? || event.SendCall?)
    requires event.thread in s.callers && s.callers[event.thread].context in s.owners && CallStep(s, event) != s
    ensures Linked(CallStep(s, event))
  {
    CallOutcomes(s, event);
    var t, c := event.thread, s.callers[event.thread].context;
    if event.TryLock? {
      if s.owners[c].lock.Some? || !s.owners[c].handle {
        GiveUpLinks(s, t);
      } else {
        TakeLockLinks(s, c, t);
      }
    } else if event.RecordJob? {
      RecordJobLinks(s, c, t, s.callers[t].job);
    } else if event.SendCall? && !(Occupied(s, s.owners[c]) || s.owners[c].worker.Gone?) {
      ChannelIsEmpty(s, t);
      SendCallLinks(s, c, t);
    } else {
      LeaveLinks(s, t);
    }
  }

  lemma CallLinks(s: System, event: Event)
    requires Invariant(s)
    requires IsCallEvent(event)
    ensures Linked(CallStep(s, event))
  {
    if CallStep(s, event) != s {
      match event
      case Lookup(t, c) => LookupLinks(s, c, t);
      case CloseJob(t, j) => CloseJobLinks(s, s.callers[t].context, t, j);
      case StartJob(t) => StartJobLinks(s, t, s.callers[t].context);
      case _ => ThreadLinks(s, event);
    }
  }

  lemma CloseJobOutcomes(s: System, c: nat, t: nat, j: nat)
    requires t in s.callers && s.callers[t] == Locked(c) && c in s.owners
    ensures CallStep(s, CloseJob(t, j))
            == if s.owners[c].job == Some(j) && !Occupied(s, s.owners[c])
               then Leave(WithOwner(s, c, s.owners[c].(job := None)), t)
               else Leave(s, t)
  {
  }

  lemma CloseJobLinks(s: System, c: nat, t: nat, j: nat)
    requires Linked(s) && t in s.callers && s.callers[t] == Locked(c) && c in s.owners
    ensures Linked(CallStep(s, CloseJob(t, j)))
  {
    CloseJobOutcomes(s, c, t, j);
    if s.owners[c].job == Some(j) && !Occupied(s, s.owners[c]) {
      ForgetLinks(s, t);
      LeaveLinks(WithOwner(s, c, s.owners[c].(job := None)), t);
    } else {
      LeaveLinks(s, t);
    }
  }

  lemma ReceiveLinks(s: System, c: nat)
    requires Invariant(s) && WorkStep(s, Receive(c)) != s
    ensures Linked(WorkStep(s, Receive(c)))
  {
    LinkedHere(s, c);
    ReceiveHere(s, c);
    FrameLinks(s, WorkStep(s, Receive(c)), c);
  }

  lemma ReceiveHere(s: System, c: nat)
    requires Here(s, c) && c in s.owners && s.owners[c].worker.Receiving? && s.owners[c].channel != []
    ensures Here(WorkStep(s, Receive(c)), c)
  {
    var s' := WorkStep(s, Receive(c));
    assert OwnerOk(s, c) && ChannelOk(s, c);
    assert s.owners[c].channel[1..] == [];
    forall k | k in s'.callers && s'.callers[k].context == c ensures CallerOk(s', k) { assert CallerOk(s, k); }
    forall i | i in s'.jobs && s'.jobs[i].context == c ensures JobOk(s', i) { assert JobOk(s, i); }
    KeeperStays(s, s', c);
  }

  lemma ReplyLinks(s: System, c: nat, panicked: bool)
    requires Invariant(s) && WorkStep(s, Reply(c, panicked)) != s
    ensures Linked(WorkStep(s, Reply(c, panicked)))
  {
    LinkedHere(s, c);
    ReplyHere(s, c, panicked);
    assert IsWaiting(s, c, s.owners[c].worker.caller);
    FrameLinks(s, WorkStep(s, Reply(c, panicked)), c);
  }

  lemma ReplyHere(s: System, c: nat, panicked: bool)
    requires Here(s, c) && c in s.owners && s.owners[c].worker.Handling?
    ensures Here(WorkStep(s, Reply(c, panicked)), c)
    ensures IsWaiting(s, c, s.owners[c].worker.caller)
  {
    var s', t := WorkStep(s, Reply(c, panicked)), s.owners[c].worker.caller;
    assert OwnerOk(s, c) && ChannelOk(s, c);
    assert CallerOk(s, t);
    forall k | k in s'.callers && s'.callers[k].context == c ensures CallerOk(s', k) {
      if k != t { assert CallerOk(s, k); }
    }
    forall i | i in s'.jobs && s'.jobs[i].context == c ensures JobOk(s', i) { assert JobOk(s, i); }
    KeeperRemains(s, s', c, t);
  }

  lemma FinishLinks(s: System, c: nat, panicked: bool)
    requires Invariant(s) && WorkStep(s, Finish(c, panicked)) != s
    ensures Linked(WorkStep(s, Finish(c, panicked)))
  {
    LinkedHere(s, c);
    FinishHere(s, c, panicked);
    FrameLinks(s, WorkStep(s, Finish(c, panicked)), c);
  }

  lemma FinishHere(s: System, c: nat, panicked: bool)
    requires Here(s, c) && c in s.owners && s.owners[c].worker.Applying?
    ensures Here(WorkStep(s, Finish(c, panicked)), c)
    ensures s.owners[c].worker.job in s.jobs && s.jobs[s.owners[c].worker.job].context == c
  {
    var s', j := WorkStep(s, Finish(c, panicked)), s.owners[c].worker.job;
    assert OwnerOk(s, c) && ChannelOk(s, c) && Pending(s, c, j);
    forall k | k in s'.callers && s'.callers[k].context == c ensures CallerOk(s', k) { assert CallerOk(s, k); }
    forall i | i in s'.jobs && s'.jobs[i].context == c ensures JobOk(s', i) { assert JobOk(s, i); }
    KeeperStays(s, s', c);
  }

  function ReceiverDropped(s: System, c: nat): System
    requires c in s.owners
  {
    WithOwner(s, c, s.owners[c].(worker := Gone, channel := []))
  }

  lemma DropIdleLinks(s: System, c: nat)
    requires Linked(s) && c in s.owners && s.owners[c].worker.Halting?
    requires s.owners[c].channel == [] || !s.owners[c].channel[0].CallMessage?
    ensures Linked(ReceiverDropped(s, c))
  {
    LinkedHere(s, c);
    DropIdleHere(s, c);
    FrameLinks(s, ReceiverDropped(s, c), c);
  }

  lemma DropIdleHere(s: System, c: nat)
    requires Here(s, c) && c in s.owners && s.owners[c].worker.Halting?
    requires s.owners[c].channel == [] || !s.owners[c].channel[0].CallMessage?
    ensures Here(ReceiverDropped(s, c), c)
  {
    var s' := ReceiverDropped(s, c);
    assert OwnerOk(s, c) && ChannelOk(s, c);
    forall j | j in s'.jobs && s'.jobs[j].context == c ensures JobOk(s', j) { assert JobOk(s, j); }
    forall k | k in s'.callers && s'.callers[k].context == c ensures CallerOk(s', k) { assert CallerOk(s, k); }
    KeeperStays(s, s', c);
  }

  lemma DropCallLinks(s: System, c: nat, t: nat)
    requires Linked(s) && c in s.owners && s.owners[c].worker.Halting? && s.owners[c].channel == [CallMessage(t)]
    ensures Linked(WithCaller(ReceiverDropped(s, c), t, Answered(c)))
  {
    LinkedHere(s, c);
    DropCallHere(s, c, t);
    FrameLinks(s, WithCaller(ReceiverDropped(s, c), t, Answered(c)), c);
  }

  lemma DropCallHere(s: System, c: nat, t: nat)
    requires Here(s, c) && c in s.owners && s.owners[c].worker.Halting? && s.owners[c].channel == [CallMessage(t)]
    ensures Here(WithCaller(ReceiverDropped(s, c), t, Answered(c)), c) && IsWaiting(s, c, t)
  {
    var s' := WithCaller(ReceiverDropped(s, c), t, Answered(c));
    assert OwnerOk(s, c) && ChannelOk(s, c);
    assert CallerOk(s, t);
    forall k | k in s'.callers && s'.callers[k].context == c ensures CallerOk(s', k) {
      if k != t { assert CallerOk(s, k); }
    }
    forall j | j in s'.jobs && s'.jobs[j].context == c ensures JobOk(s', j) { assert JobOk(s, j); }
    KeeperRemains(s, s', c, t);
  }

  lemma DropOutcomes(s: System, c: nat)
    requires c in s.owners && s.owners[c].worker.Halting? && |s.owners[c].channel| <= 1
    ensures var channel := s.owners[c].channel;
      var gone := ReceiverDropped(s, c);
      if channel != [] && channel[0].CallMessage?
      then channel == [CallMessage(channel[0].caller)]
           && WorkStep(s, DropReceiver(c)) == WithCaller(gone, channel[0].caller, Answered(c))
      else WorkStep(s, DropReceiver(c)) == gone
  {
  }

  lemma DropReceiverLinks(s: System, c: nat)
    requires Invariant(s) && c in s.owners && s.owners[c].worker.Halting? && |s.owners[c].channel| <= 1
    ensures Linked(WorkStep(s, DropReceiver(c)))
  {
    DropOutcomes(s, c);
    var channel := s.owners[c].channel;
    if channel != [] && channel[0].CallMessage? {
      DropCallLinks(s, c, channel[0].caller);
    } else {
      DropIdleLinks(s, c);
    }
  }

  lemma WorkLinks(s: System, event: Event)
    requires Invariant(s) && IsWorkEvent(event)
    ensures Linked(WorkStep(s, event))
  {
    if WorkStep(s, event) != s {
      match event
      case Receive(c) => ReceiveLinks(s, c);
      case Reply(c, panicked) => ReplyLinks(s, c, panicked);
      case Finish(c, panicked) => FinishLinks(s, c, panicked);
      case DropReceiver(c) =>
        assert ChannelOk(s, c);
        DropReceiverLinks(s, c);
    }
  }

  lemma BeginCloseLinks(s: System, event: Event)
    requires Invariant(s) && event.BeginClose? && CloseStep(s, event) != s
    ensures Linked(CloseStep(s, event))
  {
    LinkedHere(s, event.context);
    BeginCloseHere(s, event.context, event.thread);
    FrameLinks(s, CloseStep(s, event), event.context);
  }

  lemma BeginCloseHere(s: System, c: nat, t: nat)
    requires Here(s, c) && c in s.owners && c in s.listed && Idle(s, t)
    ensures Here(WithCaller(s.(listed := s.listed - {c}), t, Closing(c)), c)
  {
    var s' := WithCaller(s.(listed := s.listed - {c}), t, Closing(c));
    assert OwnerOk(s, c) && ChannelOk(s, c);
    assert s'.callers[t] == Closing(c);
    assert HeldOpen(s', c);
    forall k | k in s'.callers && s'.callers[k].context == c ensures CallerOk(s', k) {
      if k != t { assert CallerOk(s, k); }
    }
    forall i | i in s'.jobs && s'.jobs[i].context == c ensures JobOk(s', i) { assert JobOk(s, i); }
  }

  lemma LockForCloseLinks(s: System, t: nat)
    requires Invariant(s) && CloseStep(s, LockForClose(t)) != s
    ensures Linked(CloseStep(s, LockForClose(t)))
  {
    var c := s.callers[t].context;
    LinkedHere(s, c);
    LockForCloseHere(s, c, t);
    FrameLinks(s, CloseStep(s, LockForClose(t)), c);
  }

  lemma LockForCloseHere(s: System, c: nat, t: nat)
    requires Here(s, c) && t in s.callers && s.callers[t] == Closing(c) && c in s.owners && s.owners[c].lock.None?
    ensures Here(WithCaller(WithOwner(s, c, s.owners[c].(lock := Some(t))), t, Stopping(c)), c)
  {
    var s' := WithCaller(WithOwner(s, c, s.owners[c].(lock := Some(t))), t, Stopping(c));
    assert CallerOk(s, t) && OwnerOk(s, c) && ChannelOk(s, c);
    assert s'.callers[t] == Stopping(c);
    assert HeldOpen(s', c);
    forall k | k in s'.callers && s'.callers[k].context == c ensures CallerOk(s', k) {
      if k != t { assert CallerOk(s, k); }
    }
    forall i | i in s'.jobs && s'.jobs[i].context == c ensures JobOk(s', i) { assert JobOk(s, i); }
  }

  lemma SendStopLinks(s: System, t: nat)
    requires Invariant(s) && CloseStep(s, SendStop(t)) != s
    ensures Linked(CloseStep(s, SendStop(t)))
  {
    var c := s.callers[t].context;
    LinkedHere(s, c);
    SendStopHere(s, c, t);
    FrameLinks(s, CloseStep(s, SendStop(t)), c);
  }

  lemma SendStopHere(s: System, c: nat, t: nat)
    requires Here(s, c) && t in s.callers && s.callers[t] == Stopping(c) && c in s.owners
    requires s.owners[c].channel == [] || s.owners[c].worker.Gone?
    ensures Here(CloseStep(s, SendStop(t)), c)
  {
    var s' := CloseStep(s, SendStop(t));
    assert CallerOk(s, t) && OwnerOk(s, c) && ChannelOk(s, c);
    assert s'.callers[t] == Joining(c);
    assert HeldOpen(s', c);
    forall k | k in s'.callers && s'.callers[k].context == c ensures CallerOk(s', k) {
      if k != t { assert CallerOk(s, k); }
    }
    forall i | i in s'.jobs && s'.jobs[i].context == c ensures JobOk(s', i) { assert JobOk(s, i); }
  }

  lemma JoinLinks(s: System, t: nat)
    requires Invariant(s) && CloseStep(s, Join(t)) != s
    ensures Linked(CloseStep(s, Join(t)))
  {
    JoinOutcome(s, t);
    var c := s.callers[t].context;
    LinkedHere(s, c);
    JoinHere(s, c, t);
    FrameLinks(s, Leave(s, t), c);
  }

  lemma JoinOutcome(s: System, t: nat)
    requires CloseStep(s, Join(t)) != s
    ensures t in s.callers && s.callers[t].Joining? && s.callers[t].context in s.owners
    ensures s.owners[s.callers[t].context].worker.Gone? && CloseStep(s, Join(t)) == Leave(s, t)
  {
  }

  lemma JoinHere(s: System, c: nat, t: nat)
    requires Here(s, c) && t in s.callers && s.callers[t] == Joining(c) && c in s.owners && s.owners[c].worker.Gone?
    ensures Here(Leave(s, t), c)
  {
    var s' := Leave(s, t);
    assert CallerOk(s, t) && OwnerOk(s, c) && ChannelOk(s, c);
    forall k | k in s'.callers && s'.callers[k].context == c ensures CallerOk(s', k) { assert CallerOk(s, k); }
    forall j | j in s'.jobs && s'.jobs[j].context == c ensures JobOk(s', j) { assert JobOk(s, j); }
  }

  lemma ReleaseLinks(s: System, c: nat)
    requires Invariant(s) && CloseStep(s, Release(c)) != s
    ensures Linked(CloseStep(s, Release(c)))
  {
    var s' := CloseStep(s, Release(c));
    forall j | j in s'.jobs && s'.jobs[j].context == c ensures JobOk(s', j) { assert JobOk(s, j); }
    FrameLinks(s, s', c);
  }

  lemma CloseLinks(s: System, event: Event)
    requires Invariant(s)
    requires IsCloseEvent(event)
    ensures Linked(CloseStep(s, event))
  {
    if CloseStep(s, event) != s {
      match event
      case BeginClose(_, _) => BeginCloseLinks(s, event);
      case LockForClose(t) => LockForCloseLinks(s, t);
      case SendStop(t) => SendStopLinks(s, t);
      case Join(t) => JoinLinks(s, t);
      case Release(c) => ReleaseLinks(s, c);
    }
  }

  // ---------------------------------------------------------------------------
  // Counting

  /** The step neither opens nor drops an owner. */
  ghost predicate SameOwners(s: System, s': System) {
    && s'.owners.Keys == s.owners.Keys
    && s'.slots == s.slots && s'.reserving == s.reserving && s'.listed <= s.listed
    && s'.nextContext == s.nextContext && s'.openedIds == s.openedIds
    && (|| (s'.nextJob == s.nextJob && s'.startedIds == s.startedIds)
        || (s.nextJob < U64_MAX && s'.nextJob == s.nextJob + 1 && s'.startedIds == s.startedIds + [s.nextJob]))
  }

  lemma SameOwnersCounts(s: System, s': System)
    requires Counted(s) && SameOwners(s, s')
    ensures Counted(s')
  {
    assert |s'.owners| == |s'.owners.Keys| && |s.owners| == |s.owners.Keys|;
  }

  lemma CallKeepsOwners(s: System, event: Event)
    requires IsCallEvent(event)
    ensures SameOwners(s, CallStep(s, event))
  {
  }

  lemma WorkKeepsOwners(s: System, event: Event)
    requires IsWorkEvent(event)
    ensures SameOwners(s, WorkStep(s, event))
  {
  }

  lemma CloseCounts(s: System, event: Event)
    requires Counted(s)
    requires IsCloseEvent(event)
    ensures Counted(CloseStep(s, event))
  {
    if event.Release? {
      if CloseStep(s, event) != s {
        DropCounts(s, event.context);
      }
    } else {
      SameOwnersCounts(s, CloseStep(s, event));
    }
  }

  lemma OpenKeepsInvariant(s: System, event: Event)
    requires Invariant(s) && IsOpenEvent(event)
    ensures Invariant(Next(s, event))
  {
    OpenCounts(s, event);
    OpenLinks(s, event);
  }

  lemma CallKeepsInvariant(s: System, event: Event)
    requires Invariant(s) && IsCallEvent(event)
    ensures Invariant(Next(s, event))
  {
    CallKeepsOwners(s, event);
    SameOwnersCounts(s, CallStep(s, event));
    CallLinks(s, event);
  }

  lemma WorkStepKeepsInvariant(s: System, event: Event)
    requires Invariant(s) && IsWorkEvent(event)
    ensures Invariant(WorkStep(s, event))
  {
    WorkKeepsOwners(s, event);
    SameOwnersCounts(s, WorkStep(s, event));
    WorkLinks(s, event);
  }

  lemma NextIsWorkStep(s: System, event: Event)
    requires IsWorkEvent(event)
    ensures Next(s, event) == WorkStep(s, event)
  {
  }

  lemma WorkKeepsInvariant(s: System, event: Event)
    requires Invariant(s) && IsWorkEvent(event)
    ensures Invariant(Next(s, event))
  {
    WorkStepKeepsInvariant(s, event);
    NextIsWorkStep(s, event);
  }

  lemma CloseStepKeepsInvariant(s: System, event: Event)
    requires Invariant(s) && IsCloseEvent(event)
    ensures Invariant(CloseStep(s, event))
  {
    CloseCounts(s, event);
    CloseLinks(s, event);
  }

  lemma NextIsCloseStep(s: System, event: Event)
    requires IsCloseEvent(event)
    ensures Next(s, event) == CloseStep(s, event)
  {
  }

  lemma CloseKeepsInvariant(s: System, event: Event)
    requires Invariant(s) && IsCloseEvent(event)
    ensures Invariant(Next(s, event))
  {
    CloseStepKeepsInvariant(s, event);
    NextIsCloseStep(s, event);
  }

  lemma NextKeepsInvariant(s: System, event: Event)
    requires Invariant(s)
    ensures Invariant(Next(s, event))
  {
    if IsOpenEvent(event) {
      OpenKeepsInvariant(s, event);
    } else if IsWorkEvent(event) {
      WorkKeepsInvariant(s, event);
    } else if IsCloseEvent(event) {
      CloseKeepsInvariant(s, event);
    } else {
      CallKeepsInvariant(s, event);
    }
  }

  // ---------------------------------------------------------------------------
  // Every interleaving

  lemma {:induction false} EveryInterleavingKeepsInvariant(events: seq<Event>)
    ensures Invariant(After(events))
    decreases |events|
  {
    if events != [] {
      EveryInterleavingKeepsInvariant(events[..|events| - 1]);
      NextKeepsInvariant(After(events[..|events| - 1]), events[|events| - 1]);
    }
  }

  /** Owners are bounded and counted exactly; no context or job identity is handed out twice. */
  lemma OwnersBoundedIdsFresh(events: seq<Event>)
    ensures var s := After(events);
      && |s.owners| <= s.slots <= MAX_CONTEXTS
      && s.slots == |s.reserving| + |s.owners|
      && s.listed <= s.owners.Keys
      && Distinct(s.openedIds) && Distinct(s.startedIds)
      && 0 !in s.openedIds && 0 !in s.startedIds
  {
    EveryInterleavingKeepsInvariant(events);
  }

  /** A context never has two unfinished jobs, and an unfinished one keeps its mailbox. */
  lemma OneMailboxPerContext(events: seq<Event>, i: nat, j: nat)
    requires var s := After(events);
      && i in s.jobs && j in s.jobs && s.jobs[i].context == s.jobs[j].context && s.jobs[i].context in s.owners
      && !s.jobs[i].finished && !s.jobs[j].finished
    ensures i == j
    ensures var s := After(events); var owner := s.owners[s.jobs[i].context];
      || owner.job == Some(i)
      || (owner.lock.Some? && owner.lock.value in s.callers
            && s.callers[owner.lock.value] == Starting(s.jobs[i].context, i))
  {
    EveryInterleavingKeepsInvariant(events);
    assert JobOk(After(events), i) && JobOk(After(events), j);
  }

  /** What keeps a recorded mailbox from being overwritten. */
  ghost predicate IsRecorded(s: System, c: nat, j: nat) {
    && c in s.owners && s.owners[c].job == Some(j) && j in s.jobs && s.nextContext !in s.owners
    && forall t :: t in s.callers && s.callers[t].Starting? && s.callers[t].context in s.owners
         ==> s.owners[s.callers[t].context].job.None?
  }

  ghost predicate ClearsMailbox(s': System, c: nat, j: nat) {
    c in s'.owners && s'.owners[c].job != Some(j)
  }

  lemma CallKeepsMailbox(s: System, event: Event, c: nat, j: nat)
    requires IsRecorded(s, c, j) && IsCallEvent(event)
    ensures ClearsMailbox(CallStep(s, event), c, j) ==> s.jobs[j].finished && event.CloseJob? && event.job == j
  {
  }

  lemma OthersKeepMailbox(s: System, event: Event, c: nat, j: nat)
    requires IsRecorded(s, c, j)
    ensures IsOpenEvent(event) ==> !ClearsMailbox(OpenStep(s, event), c, j)
    ensures IsWorkEvent(event) ==> !ClearsMailbox(WorkStep(s, event), c, j)
    ensures IsCloseEvent(event) ==> !ClearsMailbox(CloseStep(s, event), c, j)
  {
  }

  lemma MailboxKept(s: System, event: Event, c: nat, j: nat)
    requires IsRecorded(s, c, j)
    ensures ClearsMailbox(Next(s, event), c, j) ==> s.jobs[j].finished && event.CloseJob? && event.job == j
  {
    OthersKeepMailbox(s, event, c, j);
    if IsCallEvent(event) {
      CallKeepsMailbox(s, event, c, j);
    }
  }

  /** A step clears a mailbox only if its job is finished or the whole context is released. */
  lemma MailboxReleasedWhenFinished(events: seq<Event>, event: Event, c: nat, j: nat)
    requires var s := After(events); c in s.owners && s.owners[c].job == Some(j)
    ensures var s, s' := After(events), Next(After(events), event);
      c in s'.owners && s'.owners[c].job != Some(j) ==>
          j in s.jobs && s.jobs[j].finished && event.CloseJob? && event.job == j
  {
    EveryInterleavingKeepsInvariant(events);
    var s := After(events);
    assert OwnerOk(s, c);
    forall t | t in s.callers && s.callers[t].Starting? && s.callers[t].context in s.owners
      ensures s.owners[s.callers[t].context].job.None?
    {
      assert CallerOk(s, t);
    }
    NextContextUnused(s);
    MailboxKept(s, event, c, j);
  }

  lemma SenderHoldsLock(s: System, event: Event, c: nat)
    requires event.SendCall? || event.StartJob?
    requires c in s.owners && c in CallStep(s, event).owners
    requires CallStep(s, event).owners[c].channel != s.owners[c].channel
    ensures event.thread in s.callers && s.callers[event.thread] == Locked(c) && !Occupied(s, s.owners[c])
    ensures |CallStep(s, event).owners[c].channel| == |s.owners[c].channel| + 1
  {
  }

  /** The message a caller sends, if any, lands in an empty one-slot channel of a context it has locked. */
  lemma CallSendsIntoEmptyChannel(events: seq<Event>, event: Event, c: nat)
    requires event.SendCall? || event.StartJob?
    requires var s, s' := After(events), Next(After(events), event);
      c in s.owners && c in s'.owners && s'.owners[c].channel != s.owners[c].channel
    ensures var s, s' := After(events), Next(After(events), event);
      && s.owners[c].channel == [] && |s'.owners[c].channel| == 1
      && s.owners[c].lock == Some(event.thread)
  {
    var s := After(events);
    SenderHoldsLock(s, event, c);
    EveryInterleavingKeepsInvariant(events);
    LockedIsHolder(s, event.thread);
    ChannelIsEmpty(s, event.thread);
  }

  lemma LockedIsHolder(s: System, t: nat)
    requires Linked(s) && t in s.callers && s.callers[t].Locked?
    ensures s.callers[t].context in s.owners && s.owners[s.callers[t].context].lock == Some(t)
  {
    assert CallerOk(s, t);
  }

  /** A caller awaiting its reply has its request in the channel or being handled, and nobody else is inside. */
  lemma WaitingCallIsServed(events: seq<Event>, t: nat)
    requires t in After(events).callers && After(events).callers[t].Waiting?
    ensures var s := After(events); var c := s.callers[t].context;
      && c in s.owners && s.owners[c].lock == Some(t)
      && (s.owners[c].channel == [CallMessage(t)] || s.owners[c].worker == Handling(t))
  {
    EveryInterleavingKeepsInvariant(events);
    assert CallerOk(After(events), t);
  }

  /** Whatever step removes an owner, and with it its slot, its worker has ended and was joined. */
  lemma SlotFollowsJoin(events: seq<Event>, event: Event, c: nat)
    requires c in After(events).owners && c !in Next(After(events), event).owners
    ensures var owner := After(events).owners[c]; owner.worker.Gone? && !owner.handle && owner.lock.None?
    ensures Next(After(events), event).slots + 1 == After(events).slots
  {
    EveryInterleavingKeepsInvariant(events);
    var s := After(events);
    OnlyTwoStepsRemove(s, event, c);
    assert OwnerOk(s, c);
    if event.Discard? {
      assert CallerOk(s, event.thread);
    } else {
      UnreferencedIsJoined(s, c);
    }
  }

  lemma OnlyTwoStepsRemove(s: System, event: Event, c: nat)
    requires c in s.owners && c !in Next(s, event).owners
    ensures (event.Discard? && event.thread in s.callers && s.callers[event.thread] == Aborting(c))
            || (event == Release(c) && c !in s.listed && !Refers(s, c))
    ensures Next(s, event).slots + 1 == s.slots
  {
    if IsOpenEvent(event) {
    } else if IsCallEvent(event) {
      CallKeepsOwners(s, event);
    } else if IsWorkEvent(event) {
      WorkKeepsOwners(s, event);
    }
  }

  lemma UnreferencedIsJoined(s: System, c: nat)
    requires c in s.owners && OwnerOk(s, c) && c !in s.listed && !Refers(s, c)
    ensures s.owners[c].worker.Gone? && !s.owners[c].handle && s.owners[c].lock.None?
  {
  }
}
