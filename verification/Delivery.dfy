/** Delivery of run events: the live observer, the live page and the job mailbox. */
module Delivery {
  import opened Wrappers
  import opened StorageModel
  import opened Plan
  import opened EventRing
  import opened Execution
  import opened RunInvariants
  import opened RunSafety
  import opened ExecutionRuns

  // ---------------------------------------------------------------------------
  // Live observer

  /** The sequence of the last event, or the cursor if there is none. */
  function LastSequence(events: seq<RunEvent>, cursor: nat): nat {
    if events == [] then cursor else events[|events| - 1].sequence
  }

  /** A synchronous observer and the cursor its notifications advance. */
  class Observer {
    var cursor: nat
    var delivered: seq<RunEvent>

    constructor ()
      ensures cursor == 0 && delivered == []
    {
      cursor, delivered := 0, [];
    }

    ghost function View(): Client
      reads this
    {
      Client(delivered, cursor, false)
    }

    /** Hands every retained event after the cursor to the observer. */
    method Notify(run: ExecutionRun)
      requires run.Valid()
      modifies this
      ensures View() == NotifyOnce(old(View()), run.View().ring)
    {
      var pending := EventsSince(run.events, cursor);
      for i := 0 to |pending|
        invariant delivered == old(delivered) + pending[..i]
        invariant cursor == LastSequence(pending[..i], old(cursor))
        invariant pending == EventsSince(old(run.events), old(cursor))
      {
        assert pending[..i + 1] == pending[..i] + [pending[i]];
        delivered := delivered + [pending[i]];
        cursor := pending[i].sequence;
      }
      assert pending[..|pending|] == pending;
    }
  }

  function NotifyOnce(client: Client, ring: Ring): Client {
    var pending := EventsSince(ring.events, client.cursor);
    client.(received := client.received + pending, cursor := LastSequence(pending, client.cursor))
  }

  ghost function NotifyEach(client: Client, rings: seq<Ring>): Client
    decreases |rings|
  {
    if rings == [] then client else NotifyEach(NotifyOnce(client, rings[0]), rings[1..])
  }

  /** No more events are published between two notifications than the ring retains. */
  ghost predicate Timely(past: seq<RunEvent>, logs: seq<seq<RunEvent>>)
    decreases |logs|
  {
    logs != [] ==> |logs[0]| <= MAX_RUN_EVENTS + |past| && Timely(logs[0], logs[1..])
  }

  /** The observer's cursor is the log's length; it received a duplicate-free part of the log. */
  ghost predicate UpToDate(client: Client, past: seq<RunEvent>) {
    && client.cursor == |past|
    && Increasing(client.received)
    && (forall i :: 0 <= i < |client.received| ==> 1 <= client.received[i].sequence <= |past|)
    && |client.received| <= |past|
  }

  /** One notification delivers everything since the cursor, except what was evicted. */
  lemma PendingEvents(past: seq<RunEvent>, ring: Ring, log: seq<RunEvent>)
    requires Refines(ring, log) && past <= log
    ensures var pending := EventsSince(ring.events, |past|);
      && LastSequence(pending, |past|) == |log|
      && (|log| <= MAX_RUN_EVENTS + |past| ==> past + pending == log)
      && |pending| <= |log| - |past|
      && (|log| > MAX_RUN_EVENTS + |past| ==> |pending| < |log| - |past|)
  {
    SinceRefines(ring, log, |past|);
    assert past + log[|past|..] == log;
  }

  /** Later events appended to earlier ones keep the sequence increasing. */
  lemma AppendLater(received: seq<RunEvent>, pending: seq<RunEvent>, cursor: nat, total: nat)
    requires Increasing(received) && Increasing(pending) && cursor <= total
    requires forall i :: 0 <= i < |received| ==> 1 <= received[i].sequence <= cursor
    requires forall i :: 0 <= i < |pending| ==> cursor < pending[i].sequence <= total
    ensures Increasing(received + pending)
    ensures forall i :: 0 <= i < |received + pending| ==> 1 <= (received + pending)[i].sequence <= total
  {
    var all := received + pending;
    forall i, j | 0 <= i < j < |all| ensures all[i].sequence < all[j].sequence {
      if j < |received| {
        assert all[i] == received[i] && all[j] == received[j];
      } else if i >= |received| {
        assert all[i] == pending[i - |received|] && all[j] == pending[j - |received|];
      }
    }
  }

  lemma NotifyOnceUpToDate(client: Client, past: seq<RunEvent>, ring: Ring, log: seq<RunEvent>)
    requires Refines(ring, log) && past <= log && UpToDate(client, past)
    ensures UpToDate(NotifyOnce(client, ring), log)
    ensures |client.received| < |past| ==> |NotifyOnce(client, ring).received| < |log|
    ensures |log| > MAX_RUN_EVENTS + |past| ==> |NotifyOnce(client, ring).received| < |log|
    ensures client.received == past && |log| <= MAX_RUN_EVENTS + |past| ==> NotifyOnce(client, ring).received == log
  {
    PendingEvents(past, ring, log);
    PageContents(ring, log, |past|);
    AppendLater(client.received, EventsSince(ring.events, |past|), |past|, |log|);
  }

  /** Observation is complete exactly when notifications keep up with the ring; it never repeats an event. */
  lemma {:induction false} ObserverSeesEverythingIff(client: Client, past: seq<RunEvent>, rings: seq<Ring>,
                                                     logs: seq<seq<RunEvent>>)
    requires IsHistory(rings, logs, past) && rings != [] && UpToDate(client, past) && client.received == past
    ensures var after := NotifyEach(client, rings);
      && Increasing(after.received)
      && after.cursor == |logs[|logs| - 1]|
      && (after.received == logs[|logs| - 1] <==> Timely(past, logs))
    decreases |rings|
  {
    var next := NotifyOnce(client, rings[0]);
    NotifyOnceUpToDate(client, past, rings[0], logs[0]);
    HistoryTail(rings, logs, past);
    if |logs[0]| <= MAX_RUN_EVENTS + |past| {
      if |rings| > 1 {
        ObserverSeesEverythingIff(next, logs[0], rings[1..], logs[1..]);
      }
    } else if |rings| > 1 {
      LossIsPermanent(next, logs[0], rings[1..], logs[1..]);
    }
  }

  /** An evicted event is never delivered later. */
  lemma {:induction false} LossIsPermanent(client: Client, past: seq<RunEvent>, rings: seq<Ring>,
                                           logs: seq<seq<RunEvent>>)
    requires IsHistory(rings, logs, past) && rings != [] && UpToDate(client, past) && |client.received| < |past|
    ensures var after := NotifyEach(client, rings);
      && UpToDate(after, logs[|logs| - 1])
      && |after.received| < |logs[|logs| - 1]|
    decreases |rings|
  {
    NotifyOnceUpToDate(client, past, rings[0], logs[0]);
    HistoryTail(rings, logs, past);
    if |rings| > 1 {
      LossIsPermanent(NotifyOnce(client, rings[0]), logs[0], rings[1..], logs[1..]);
    }
  }

  // ---------------------------------------------------------------------------
  // An observer of a whole run

  lemma CallPublishesFew(h: History, call: Call)
    requires WellSized(h.run)
    ensures |Apply(h, call).log| <= |h.log| + 2
  {
  }

  lemma {:induction false} CallsPublishFew(h: History, calls: seq<Call>)
    requires WellSized(h.run)
    ensures |Execute(h, calls).log| <= |h.log| + 2 * |calls|
    decreases |calls|
  {
    if calls != [] {
      CallsPublishFew(h, calls[..|calls| - 1]);
      CallPublishesFew(Execute(h, calls[..|calls| - 1]), calls[|calls| - 1]);
    }
  }

  function Joined(batches: seq<seq<Call>>): seq<Call>
    decreases |batches|
  {
    if batches == [] then [] else batches[0] + Joined(batches[1..])
  }

  /** Runs each batch of calls and notifies the observer after it. */
  ghost function Watch(h: History, client: Client, batches: seq<seq<Call>>): Client
    requires WellSized(h.run)
    decreases |batches|
  {
    if batches == [] then client
    else
      var after := Execute(h, batches[0]);
      Watch(after, NotifyOnce(client, after.run.ring), batches[1..])
  }

  ghost predicate HasAll(client: Client, log: seq<RunEvent>) {
    UpToDate(client, log) && client.received == log
  }

  ghost predicate Reachable(h: History) {
    exists id, plan, aspects, calls :: h == Execute(Start(id, plan, aspects), calls)
  }

  lemma WatchBatch(h: History, client: Client, batch: seq<Call>)
    requires WellSized(h.run) && Reachable(h) && HasAll(client, h.log) && 2 * |batch| <= MAX_RUN_EVENTS
    ensures var after := Execute(h, batch);
      Reachable(after) && HasAll(NotifyOnce(client, after.run.ring), after.log)
  {
    var id, plan, aspects, past :| h == Execute(Start(id, plan, aspects), past);
    var after := Execute(h, batch);
    ExecuteConcat(Start(id, plan, aspects), past, batch);
    CallsPublishFew(h, batch);
    EveryLogIsTruthful(id, plan, aspects, past + batch);
    NotifyOnceUpToDate(client, h.log, after.run.ring, after.log);
  }

  lemma {:induction false} WatchFrom(h: History, client: Client, batches: seq<seq<Call>>)
    requires WellSized(h.run) && Reachable(h) && HasAll(client, h.log)
    requires forall i :: 0 <= i < |batches| ==> 2 * |batches[i]| <= MAX_RUN_EVENTS
    ensures Watch(h, client, batches).received == Execute(h, Joined(batches)).log
    decreases |batches|
  {
    if batches != [] {
      var after := Execute(h, batches[0]);
      WatchBatch(h, client, batches[0]);
      WatchFrom(after, NotifyOnce(client, after.run.ring), batches[1..]);
      ExecuteConcat(h, batches[0], Joined(batches[1..]));
    }
  }

  /** An observer notified at least once every 512 calls receives the complete log of any run. */
  lemma ObserverReceivesWholeRun(id: nat, plan: ExecutionPlan, aspects: seq<GoalAspect>, batches: seq<seq<Call>>)
    requires forall i :: 0 <= i < |batches| ==> 2 * |batches[i]| <= MAX_RUN_EVENTS
    ensures Watch(Start(id, plan, aspects), Client([], 0, false), batches).received
            == Execute(Start(id, plan, aspects), Joined(batches)).log
  {
    var start := Start(id, plan, aspects);
    assert start == Execute(start, []);
    WatchFrom(start, Client([], 0, false), batches);
  }

  // ---------------------------------------------------------------------------
  // Live page and mailbox

  /** The page published with each live snapshot. */
  function LivePage(ring: Ring): EventsPage
    requires ring.next >= 1
  {
    var events := EventsSince(ring.events, 0);
    EventsPage(events, ring.next - 1, events != [] && events[0].sequence > 1)
  }

  /** A live page is exactly what replay from cursor zero returns. */
  lemma LivePageIsReplay(ring: Ring, log: seq<RunEvent>)
    requires Refines(ring, log)
    ensures Some(LivePage(ring)) == PageOf(ring, 0)
    ensures LivePage(ring).events == ring.events
  {
    SinceRefines(ring, log, 0);
  }

  /** Coherent evidence published at one notification. */
  datatype RunSnapshot = RunSnapshot(run: Run, finished: bool)

  datatype JobReport = JobReport(
    job: nat, finished: bool, snapshot: Option<RunSnapshot>, events: EventsPage, error: Option<string>)

  /** Replay from a published page. */
  function MailboxPage(page: EventsPage, since: nat): Option<EventsPage> {
    if since > page.nextSequence then None
    else Some(EventsPage(
      EventsSince(page.events, since),
      page.nextSequence,
      page.events != [] && since + 1 < page.events[0].sequence))
  }

  /** Polling a published page answers every cursor as the run itself did at publication. */
  lemma MailboxAgreesWithRun(ring: Ring, log: seq<RunEvent>, since: nat)
    requires Refines(ring, log)
    ensures MailboxPage(LivePage(ring), since) == PageOf(ring, since)
  {
    LivePageIsReplay(ring, log);
  }

  /** A passive mailbox, replaced wholesale by its owner. */
  class Job {
    const id: nat
    var snapshot: Option<RunSnapshot>
    var events: EventsPage
    var finished: bool
    var error: Option<string>

    /** The page belongs to the retained snapshot, or nothing was published yet. */
    ghost predicate Valid()
      reads this
    {
      match snapshot
      case None => events == EventsPage([], 0, false)
      case Some(shown) =>
        && shown.run.ring.next >= 1
        && (exists log :: Refines(shown.run.ring, log))
        && events == LivePage(shown.run.ring)
    }

    constructor (id: nat)
      ensures Valid() && this.id == id && snapshot == None && !finished && error == None
    {
      this.id := id;
      snapshot, events, finished, error := None, EventsPage([], 0, false), false, None;
    }

    /** Shows a later state of the run; every cursor is then answered as that state answers it. */
    method Update(shown: RunSnapshot, page: EventsPage, ghost log: seq<RunEvent>)
      requires Refines(shown.run.ring, log) && page == LivePage(shown.run.ring)
      modifies this`snapshot, this`events
      ensures Valid() && snapshot == Some(shown)
      ensures forall since: nat :: MailboxPage(events, since) == PageOf(shown.run.ring, since)
    {
      forall since: nat ensures MailboxPage(page, since) == PageOf(shown.run.ring, since) {
        MailboxAgreesWithRun(shown.run.ring, log, since);
      }
      snapshot := Some(shown);
      events := page;
    }

    /** Finishing records the outcome and keeps the last evidence. */
    method Finish(failure: Option<string>)
      requires Valid()
      modifies this`finished, this`error
      ensures Valid() && finished && error == failure
    {
      error := failure;
      finished := true;
    }

    /** Answers a cursor as the snapshotted run would, and an unpublished one only at zero. */
    method Poll(since: nat) returns (report: Option<JobReport>)
      requires Valid()
      ensures snapshot.Some? ==> (report.Some? <==> PageOf(snapshot.value.run.ring, since).Some?)
      ensures snapshot.Some? && report.Some? ==> Some(report.value.events) == PageOf(snapshot.value.run.ring, since)
      ensures snapshot.None? ==> (report.Some? <==> since == 0)
      ensures snapshot.None? && report.Some? ==> report.value.events == EventsPage([], 0, false)
      ensures report.Some? ==>
        && report.value.job == id && report.value.finished == finished
        && report.value.snapshot == snapshot && report.value.error == error
    {
      if snapshot.Some? {
        ghost var log :| Refines(snapshot.value.run.ring, log);
        MailboxAgreesWithRun(snapshot.value.run.ring, log, since);
      }
      if since > events.nextSequence {
        return None;
      }
      var page := EventsPage(
        EventsSince(events.events, since),
        events.nextSequence,
        events.events != [] && since < events.events[0].sequence - 1);
      return Some(JobReport(id, finished, snapshot, page, error));
    }
  }

  /** Publishes a live run into a mailbox; pollers then see exactly that run's events. */
  method PublishLive(run: ExecutionRun, job: Job)
    requires run.Valid()
    modifies job`snapshot, job`events
    ensures job.Valid() && job.snapshot == Some(RunSnapshot(run.View(), false))
    ensures job.events == LivePage(run.View().ring)
  {
    run.RingRefinesLog();
    var shown := Run(run.id, run.plan, run.aspects, run.actions, run.latest, run.goal,
                     Ring(run.id, run.events, run.next));
    var events := EventsSince(run.events, 0);
    var page := EventsPage(events, run.next - 1, events != [] && events[0].sequence > 1);
    assert Refines(shown.ring, run.Log());
    job.Update(RunSnapshot(shown, false), page, run.Log());
  }

  ghost function PollMailboxes(client: Client, pages: seq<EventsPage>): Client
    decreases |pages|
  {
    if pages == [] then client
    else
      match MailboxPage(pages[0], client.cursor)
      case None => client
      case Some(page) =>
        PollMailboxes(Client(client.received + page.events, page.nextSequence, client.sawGap || page.gap), pages[1..])
  }

  ghost predicate Publishes(pages: seq<EventsPage>, rings: seq<Ring>) {
    |pages| == |rings| && forall i :: 0 <= i < |pages| ==> rings[i].next >= 1 && pages[i] == LivePage(rings[i])
  }

  /** A client polling mailboxes receives the same as one polling the run at the publications. */
  lemma {:induction false} MailboxClientIsRunClient(
    client: Client, past: seq<RunEvent>, pages: seq<EventsPage>, rings: seq<Ring>, logs: seq<seq<RunEvent>>)
    requires Publishes(pages, rings) && IsHistory(rings, logs, past)
    ensures PollMailboxes(client, pages) == PollEach(client, rings)
    decreases |pages|
  {
    if pages != [] {
      MailboxAgreesWithRun(rings[0], logs[0], client.cursor);
      var page := PageOf(rings[0], client.cursor);
      if page.Some? {
        HistoryTail(rings, logs, past);
        var next := Client(client.received + page.value.events, page.value.nextSequence,
                           client.sawGap || page.value.gap);
        MailboxClientIsRunClient(next, logs[0], pages[1..], rings[1..], logs[1..]);
      }
    }
  }

  /** From an empty start, a mailbox client rebuilds the published log exactly when it saw no gap. */
  lemma MailboxClientRebuildsLog(pages: seq<EventsPage>, rings: seq<Ring>, logs: seq<seq<RunEvent>>)
    requires Publishes(pages, rings) && IsHistory(rings, logs, []) && rings != []
    ensures var after := PollMailboxes(Client([], 0, false), pages);
      && Increasing(after.received)
      && after.cursor == |logs[|logs| - 1]|
      && (!after.sawGap <==> after.received == logs[|logs| - 1])
  {
    MailboxClientIsRunClient(Client([], 0, false), [], pages, rings, logs);
    PollingRebuildsLog(Client([], 0, false), [], rings, logs);
  }
}
