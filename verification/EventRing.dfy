/** The bounded event ring of a run and the unbounded log it stands for. */
module EventRing {
  import opened Wrappers

  datatype ActionRunState =
    | Waiting | Checking | Admitted | Running | Verifying | Verified | Failed | OutcomeUnknown

  datatype RunEventKind =
    | ActionState(action: nat, state: ActionRunState)
    | Progress(action: nat, detail: string)
    | AdmissionChecked(action: nat, admitted: bool)
    | GoalChecked(verified: bool)

  datatype RunEvent = RunEvent(run: nat, sequence: nat, kind: RunEventKind)

  datatype EventsPage = EventsPage(events: seq<RunEvent>, nextSequence: nat, gap: bool)

  /** Retained events and the identity of the next one. */
  datatype Ring = Ring(run: nat, events: seq<RunEvent>, next: nat)

  const MAX_RUN_EVENTS: nat := 1024

  // ---------------------------------------------------------------------------
  // Ring and log

  /** Every event ever published, numbered from one. */
  ghost predicate IsLog(run: nat, log: seq<RunEvent>) {
    forall i :: 0 <= i < |log| ==> log[i].run == run && log[i].sequence == i + 1
  }

  /** Index of the oldest retained event. */
  function Evicted(total: nat): nat {
    if total <= MAX_RUN_EVENTS then 0 else total - MAX_RUN_EVENTS
  }

  /** The ring retains exactly the newest events of the log. */
  ghost predicate Refines(ring: Ring, log: seq<RunEvent>) {
    && IsLog(ring.run, log)
    && ring.next == |log| + 1
    && ring.events == log[Evicted(|log|)..]
  }

  function Push(ring: Ring, kind: RunEventKind): Ring {
    var kept := if |ring.events| == MAX_RUN_EVENTS then ring.events[1..] else ring.events;
    ring.(events := kept + [RunEvent(ring.run, ring.next, kind)], next := ring.next + 1)
  }

  function PushAll(ring: Ring, kinds: seq<RunEventKind>): Ring
    decreases |kinds|
  {
    if kinds == [] then ring else PushAll(Push(ring, kinds[0]), kinds[1..])
  }

  /** The log entries for kinds published after `from` earlier ones. */
  function Numbered(run: nat, count: nat, kinds: seq<RunEventKind>): (events: seq<RunEvent>)
    ensures |events| == |kinds|
    ensures forall i :: 0 <= i < |kinds| ==> events[i] == RunEvent(run, count + i + 1, kinds[i])
  {
    seq(|kinds|, i requires 0 <= i < |kinds| => RunEvent(run, count + i + 1, kinds[i]))
  }

  lemma PushRefines(ring: Ring, log: seq<RunEvent>, kind: RunEventKind)
    requires Refines(ring, log)
    ensures Refines(Push(ring, kind), log + [RunEvent(ring.run, ring.next, kind)])
  {
    var log' := log + [RunEvent(ring.run, ring.next, kind)];
    var e := Evicted(|log|);
    if |log| < MAX_RUN_EVENTS {
      assert log'[Evicted(|log'|)..] == log[e..] + [RunEvent(ring.run, ring.next, kind)];
    } else {
      assert log'[Evicted(|log'|)..] == log[e..][1..] + [RunEvent(ring.run, ring.next, kind)];
    }
  }

  /** Whatever is published, the ring keeps refining the log. */
  lemma {:induction false} PushAllRefines(ring: Ring, log: seq<RunEvent>, kinds: seq<RunEventKind>)
    requires Refines(ring, log)
    ensures Refines(PushAll(ring, kinds), log + Numbered(ring.run, |log|, kinds))
    decreases |kinds|
  {
    if kinds == [] {
      assert log + Numbered(ring.run, |log|, kinds) == log;
    } else {
      PushRefines(ring, log, kinds[0]);
      var log' := log + [RunEvent(ring.run, ring.next, kinds[0])];
      PushAllRefines(Push(ring, kinds[0]), log', kinds[1..]);
      assert log + Numbered(ring.run, |log|, kinds) == log' + Numbered(ring.run, |log'|, kinds[1..]);
    }
  }

  // ---------------------------------------------------------------------------
  // Replay after a cursor

  /** The subsequence of events numbered above the cursor. */
  function EventsSince(events: seq<RunEvent>, since: nat): seq<RunEvent> {
    if events == [] then []
    else if events[0].sequence > since then [events[0]] + EventsSince(events[1..], since)
    else EventsSince(events[1..], since)
  }

  /** Cursors beyond the last sequence get no page; otherwise the page reports whether anything was lost. */
  function PageOf(ring: Ring, since: nat): Option<EventsPage>
    requires ring.next >= 1
  {
    if since > ring.next - 1 then None
    else Some(EventsPage(
      EventsSince(ring.events, since),
      ring.next - 1,
      ring.events != [] && since + 1 < ring.events[0].sequence))
  }

  lemma {:induction false} SinceIsSuffix(events: seq<RunEvent>, first: nat, since: nat)
    requires forall i :: 0 <= i < |events| ==> events[i].sequence == first + i + 1
    ensures EventsSince(events, since)
            == if since <= first then events else if since - first <= |events| then events[since - first..] else []
  {
    if events != [] {
      SinceIsSuffix(events[1..], first + 1, since);
      if since <= first {
        assert [events[0]] + events[1..] == events;
      } else if since - first <= |events| {
        assert events[1..][since - (first + 1)..] == events[since - first..];
      }
    }
  }

  /** The newer retained events are the log after the cursor or after the eviction point. */
  lemma SinceRefines(ring: Ring, log: seq<RunEvent>, since: nat)
    requires Refines(ring, log) && since <= |log|
    ensures EventsSince(ring.events, since) == log[if since < Evicted(|log|) then Evicted(|log|) else since..]
  {
    var e := Evicted(|log|);
    SinceIsSuffix(ring.events, e, since);
    if since >= e {
      assert log[e..][since - e..] == log[since..];
    }
  }

  /** A page is served exactly for published cursors, and lies about nothing: no gap means no loss. */
  lemma GapIsExact(ring: Ring, log: seq<RunEvent>, since: nat)
    requires Refines(ring, log)
    ensures PageOf(ring, since).Some? <==> since <= |log|
    ensures since <= |log| ==>
      var page := PageOf(ring, since).value;
      && page.nextSequence == |log|
      && (!page.gap <==> page.events == log[since..])
      && (page.gap <==> since < Evicted(|log|))
  {
    if since <= |log| {
      SinceRefines(ring, log, since);
      var e := Evicted(|log|);
      if since < e {
        assert |log[e..]| < |log[since..]|;
      }
    }
  }

  // ---------------------------------------------------------------------------
  // A polling client

  datatype Client = Client(received: seq<RunEvent>, cursor: nat, sawGap: bool)

  /** Polls each ring in turn, feeding the page's cursor back unchanged. */
  ghost function PollEach(client: Client, rings: seq<Ring>): Client
    requires forall i :: 0 <= i < |rings| ==> rings[i].next >= 1
    decreases |rings|
  {
    if rings == [] then client
    else
      match PageOf(rings[0], client.cursor)
      case None => client
      case Some(page) =>
        PollEach(Client(client.received + page.events, page.nextSequence, client.sawGap || page.gap), rings[1..])
  }

  /** Successive states of one run: every ring refines its log and logs only grow. */
  ghost predicate IsHistory(rings: seq<Ring>, logs: seq<seq<RunEvent>>, past: seq<RunEvent>) {
    && |rings| == |logs|
    && (forall i :: 0 <= i < |rings| ==> rings[i].next >= 1 && Refines(rings[i], logs[i]))
    && (forall i :: 0 <= i < |logs| ==> past <= logs[i])
    && forall i, j :: 0 <= i < j < |logs| ==> logs[i] <= logs[j]
  }

  ghost predicate Increasing(events: seq<RunEvent>) {
    forall i, j :: 0 <= i < j < |events| ==> events[i].sequence < events[j].sequence
  }

  /** A client has consumed the first `cursor` events, all of them unless it saw a gap. */
  ghost predicate Caught(client: Client, past: seq<RunEvent>) {
    && client.cursor == |past|
    && Increasing(client.received)
    && (forall i :: 0 <= i < |client.received| ==> client.received[i].sequence <= |past|)
    && (!client.sawGap ==> client.received == past)
    && (client.sawGap ==> |client.received| < |past|)
  }

  /** A page holds increasing sequences after its cursor and no more than were published since. */
  lemma PageContents(ring: Ring, log: seq<RunEvent>, since: nat)
    requires Refines(ring, log) && since <= |log|
    ensures var events := EventsSince(ring.events, since);
      && Increasing(events)
      && (forall i :: 0 <= i < |events| ==> since < events[i].sequence <= |log|)
      && |events| <= |log| - since
      && (since < Evicted(|log|) ==> |events| < |log| - since)
  {
    SinceRefines(ring, log, since);
    var from := if since < Evicted(|log|) then Evicted(|log|) else since;
    var events := EventsSince(ring.events, since);
    assert forall i :: 0 <= i < |events| ==> events[i] == log[from + i];
  }

  lemma PollOnce(client: Client, past: seq<RunEvent>, ring: Ring, log: seq<RunEvent>)
    requires Refines(ring, log) && ring.next >= 1 && past <= log && Caught(client, past)
    ensures PageOf(ring, client.cursor).Some?
    ensures var page := PageOf(ring, client.cursor).value;
      Caught(Client(client.received + page.events, page.nextSequence, client.sawGap || page.gap), log)
  {
    GapIsExact(ring, log, client.cursor);
    PageContents(ring, log, client.cursor);
    assert past + log[|past|..] == log;
    if client.sawGap {
      assert |client.received| < |past|;
    } else {
      assert |client.received| == |past|;
    }
  }

  /**
   A client that polls a run at any times rebuilds the log without duplicates,
   and completely if and only if it never saw a gap.
   */
  lemma {:induction false} PollingRebuildsLog(client: Client, past: seq<RunEvent>, rings: seq<Ring>,
                                              logs: seq<seq<RunEvent>>)
    requires IsHistory(rings, logs, past) && rings != [] && Caught(client, past)
    ensures var after := PollEach(client, rings);
      && Increasing(after.received)
      && after.cursor == |logs[|logs| - 1]|
      && (!after.sawGap <==> after.received == logs[|logs| - 1])
    decreases |rings|
  {
    PollOnce(client, past, rings[0], logs[0]);
    var page := PageOf(rings[0], client.cursor).value;
    var next := Client(client.received + page.events, page.nextSequence, client.sawGap || page.gap);
    assert PollEach(client, rings) == PollEach(next, rings[1..]);
    if |rings| == 1 {
      assert rings[1..] == [];
    } else {
      HistoryTail(rings, logs, past);
      PollingRebuildsLog(next, logs[0], rings[1..], logs[1..]);
    }
  }

  lemma HistoryTail(rings: seq<Ring>, logs: seq<seq<RunEvent>>, past: seq<RunEvent>)
    requires IsHistory(rings, logs, past) && rings != []
    ensures IsHistory(rings[1..], logs[1..], logs[0])
  {
    forall i | 0 <= i < |logs| - 1 ensures logs[0] <= logs[1..][i] {
      assert logs[1..][i] == logs[i + 1];
    }
  }
}
