/**
 The objects as runs of the pipeline: an iteration of the delivery worker and the startup repair, undisturbed,
 are runs that end in the tables the objects compute; and a row that is there is never added again.
 */
module PipelineRuns {
  import opened Wrappers
  import opened DedupeKeys
  import opened Outbox
  import opened Pipeline
  import Dispatcher
  import Listing
  import Registry

  // ---------------------------------------------------------------------------------------------
  // An iteration of the worker
  // ---------------------------------------------------------------------------------------------

  /** The steps of one delivery with the given answer. */
  function DeliverySteps(answer: Dispatcher.Answer): seq<Step> {
    match answer
    case Accepted => [SendAccepted] + ([MarkSentCommits] + [])
    case Unrecorded => [SendAccepted] + ([MarkSentFails] + ([MarkRetryCommits] + []))
    case Refused => [SendRejected] + ([MarkDeadCommits] + [])
    case Failed(retryAfter) => [SendFails(retryAfter)] + ([MarkRetryCommits] + [])
  }

  /** What one delivery does to the tables. */
  ghost predicate Delivered(s: System, answer: Dispatcher.Answer, s': System)
    requires s.worker.Delivering? && s.worker.batch != [] && s.worker.batch[0].id < |s.rows|
  {
    var id := s.worker.batch[0].id;
    && s'.rows == s.rows[id := Dispatcher.Attempted(s.rows[id], answer, s.clock)]
    && s'.events == (if answer.Accepted? && s.rows[id].origin.Some?
                     then FlaggedSent(s.events, s.rows[id].origin.value) else s.events)
    && s'.worker == Delivering(s.worker.batch[1..])
    && s'.clock == s.clock && s'.market == s.market && s'.stored == s.stored && s'.log == s.log
    && s'.announcing == s.announcing
  }

  lemma TwoSteps(st: Settings, s: System, first: Step, second: Step)
    requires JobsCurrent(s) && Enabled(s, first) && Enabled(Apply(st, s, first), second)
    ensures Runs(st, s, [first] + ([second] + []))
    ensures After(st, s, [first] + ([second] + [])) == Apply(st, Apply(st, s, first), second)
    ensures JobsCurrent(Apply(st, s, first)) && JobsCurrent(Apply(st, Apply(st, s, first), second))
  {
    StepKeepsJobs(st, s, first);
    StepKeepsJobs(st, Apply(st, s, first), second);
    RunPrepends(st, Apply(st, s, first), second, []);
    RunPrepends(st, s, first, [second] + []);
  }

  lemma UnrecordedDelivery(st: Settings, s: System)
    requires JobsCurrent(s) && s.worker.Delivering? && s.worker.batch != []
    ensures var steps := DeliverySteps(Dispatcher.Unrecorded);
            && Runs(st, s, steps) && JobsCurrent(After(st, s, steps))
            && Delivered(s, Dispatcher.Unrecorded, After(st, s, steps))
  {
    var s1 := Apply(st, s, SendAccepted);
    StepKeepsJobs(st, s, SendAccepted);
    TwoSteps(st, s1, MarkSentFails, MarkRetryCommits);
    RunPrepends(st, s, SendAccepted, [MarkSentFails] + ([MarkRetryCommits] + []));
  }

  lemma OneDelivery(st: Settings, s: System, answer: Dispatcher.Answer)
    requires JobsCurrent(s) && s.worker.Delivering? && s.worker.batch != []
    ensures var steps := DeliverySteps(answer);
            && Runs(st, s, steps) && JobsCurrent(After(st, s, steps))
            && Delivered(s, answer, After(st, s, steps))
  {
    match answer
    case Accepted => TwoSteps(st, s, SendAccepted, MarkSentCommits);
    case Unrecorded => UnrecordedDelivery(st, s);
    case Refused => TwoSteps(st, s, SendRejected, MarkDeadCommits);
    case Failed(retryAfter) => TwoSteps(st, s, SendFails(retryAfter), MarkRetryCommits);
  }

  function BatchSteps(batch: seq<Job>, answer: nat -> Dispatcher.Answer): seq<Step>
    decreases |batch|
  {
    if batch == [] then [BatchDone] + [] else DeliverySteps(answer(batch[0].id)) + BatchSteps(batch[1..], answer)
  }

  function Ids(batch: seq<Job>): seq<nat> {
    seq(|batch|, k requires 0 <= k < |batch| => batch[k].id)
  }

  ghost predicate JobsIn(rows: seq<Row>, batch: seq<Job>) {
    && (forall k | 0 <= k < |batch| :: batch[k].id < |rows|)
    && (forall j, k | 0 <= j < k < |batch| :: batch[j].id < batch[k].id)
  }

  /** What the deliveries of a whole batch do to the tables. */
  ghost predicate BatchDelivered(s: System, batch: seq<Job>, answer: nat -> Dispatcher.Answer, s': System)
    requires JobsIn(s.rows, batch)
  {
    && Dispatcher.PassDone(s.rows, Ids(batch), answer, s.clock, s'.rows)
    && s'.events == FlaggedAll(s.events, Dispatcher.Acknowledged(s.rows, Ids(batch), answer))
    && s'.worker == WorkerIdle
    && s'.clock == s.clock && s'.market == s.market && s'.stored == s.stored && s'.log == s.log
    && s'.announcing == s.announcing
  }

  lemma FirstAcknowledged(rows: seq<Row>, rows': seq<Row>, batch: seq<Job>, answer: nat -> Dispatcher.Answer)
    requires batch != [] && JobsIn(rows, batch) && |rows'| == |rows|
    requires forall i | 0 <= i < |rows| :: rows'[i].origin == rows[i].origin
    ensures Dispatcher.Acknowledged(rows, Ids(batch), answer) ==
            (if answer(batch[0].id).Accepted? && rows[batch[0].id].origin.Some?
              then {rows[batch[0].id].origin.value} else {}) +
            Dispatcher.Acknowledged(rows', Ids(batch[1..]), answer)
  {
    var ids, rest := Ids(batch), Ids(batch[1..]);
    assert forall k | 0 <= k < |rest| :: rest[k] == ids[k + 1];
    var first := if answer(ids[0]).Accepted? && rows[ids[0]].origin.Some? then {rows[ids[0]].origin.value} else {};
    forall key ensures key in Dispatcher.Acknowledged(rows, ids, answer)
                  <==> key in first + Dispatcher.Acknowledged(rows', rest, answer)
    {
      if key in Dispatcher.Acknowledged(rows, ids, answer) {
        var k :| 0 <= k < |ids| && answer(ids[k]).Accepted? && rows[ids[k]].origin == Some(key);
        if k > 0 { assert rest[k - 1] == ids[k]; }
      }
      if key in Dispatcher.Acknowledged(rows', rest, answer) {
        var k :| 0 <= k < |rest| && answer(rest[k]).Accepted? && rows'[rest[k]].origin == Some(key);
        assert ids[k + 1] == rest[k];
      }
    }
  }

  lemma FlaggedTwice(events: map<string, Event>, a: set<string>, b: set<string>)
    ensures FlaggedAll(FlaggedAll(events, a), b) == FlaggedAll(events, a + b)
  {
  }

  lemma FlaggedOne(events: map<string, Event>, key: string)
    ensures FlaggedSent(events, key) == FlaggedAll(events, {key})
    ensures events == FlaggedAll(events, {})
  {
  }

  /** One delivery and then the rest of the batch. */
  lemma BatchExtends(s: System, s1: System, answer: nat -> Dispatcher.Answer, r: System)
    requires JobsCurrent(s) && s.worker.Delivering? && s.worker.batch != []
    requires Delivered(s, answer(s.worker.batch[0].id), s1)
    requires JobsIn(s1.rows, s.worker.batch[1..]) && BatchDelivered(s1, s.worker.batch[1..], answer, r)
    ensures BatchDelivered(s, s.worker.batch, answer, r)
  {
    var batch := s.worker.batch;
    FirstAcknowledged(s.rows, s1.rows, batch, answer);
    FlagsExtend(s, s1, answer, r);
    PassExtends(s, s1, answer, r);
  }

  lemma FlagsExtend(s: System, s1: System, answer: nat -> Dispatcher.Answer, r: System)
    requires JobsCurrent(s) && s.worker.Delivering? && s.worker.batch != []
    requires Delivered(s, answer(s.worker.batch[0].id), s1)
    requires JobsIn(s1.rows, s.worker.batch[1..]) && BatchDelivered(s1, s.worker.batch[1..], answer, r)
    ensures r.events == FlaggedAll(s.events, Dispatcher.Acknowledged(s.rows, Ids(s.worker.batch), answer))
  {
    var batch := s.worker.batch;
    var row := s.rows[batch[0].id];
    FirstAcknowledged(s.rows, s1.rows, batch, answer);
    var rest := Dispatcher.Acknowledged(s1.rows, Ids(batch[1..]), answer);
    var first := if answer(batch[0].id).Accepted? && row.origin.Some? then {row.origin.value} else {};
    if first != {} { FlaggedOne(s.events, row.origin.value); } else { FlaggedOne(s.events, ""); }
    FlaggedTwice(s.events, first, rest);
  }

  lemma PassExtends(s: System, s1: System, answer: nat -> Dispatcher.Answer, r: System)
    requires JobsCurrent(s) && s.worker.Delivering? && s.worker.batch != []
    requires Delivered(s, answer(s.worker.batch[0].id), s1)
    requires JobsIn(s1.rows, s.worker.batch[1..]) && BatchDelivered(s1, s.worker.batch[1..], answer, r)
    ensures Dispatcher.PassDone(s.rows, Ids(s.worker.batch), answer, s.clock, r.rows)
  {
    var ids, rest := Ids(s.worker.batch), Ids(s.worker.batch[1..]);
    assert forall k | 0 <= k < |rest| :: rest[k] == ids[k + 1];
    assert ids[0] !in rest;
    forall k | 0 <= k < |ids|
      ensures r.rows[ids[k]] == Dispatcher.Attempted(s.rows[ids[k]], answer(ids[k]), s.clock)
    {
      if k > 0 { assert rest[k - 1] == ids[k]; }
    }
    forall i | 0 <= i < |s.rows| && i !in ids ensures r.rows[i] == s.rows[i] { assert i !in rest; }
  }

  lemma {:induction false} BatchRuns(st: Settings, s: System, answer: nat -> Dispatcher.Answer)
    requires JobsCurrent(s) && s.worker.Delivering?
    ensures Runs(st, s, BatchSteps(s.worker.batch, answer))
    ensures BatchDelivered(s, s.worker.batch, answer, After(st, s, BatchSteps(s.worker.batch, answer)))
    decreases |s.worker.batch|
  {
    var batch := s.worker.batch;
    if batch == [] {
      RunPrepends(st, s, BatchDone, []);
      FlaggedOne(s.events, "");
      assert Dispatcher.Acknowledged(s.rows, Ids(batch), answer) == {};
    } else {
      var first, rest := DeliverySteps(answer(batch[0].id)), BatchSteps(batch[1..], answer);
      OneDelivery(st, s, answer(batch[0].id));
      var s1 := After(st, s, first);
      BatchRuns(st, s1, answer);
      RunsJoin(st, s, first, rest);
      BatchExtends(s, s1, answer, After(st, s1, rest));
    }
  }

  function IterationSteps(st: Settings, s: System, answer: nat -> Dispatcher.Answer): seq<Step> {
    var live := ExpiredAll(s.rows, s.clock, st.alertAge, st.listingAge);
    [Expire] + ([Poll] + BatchSteps(JobsOf(live, DueFrom(live, s.clock, 0, 100)), answer))
  }

  /**
   From any state with an idle worker, an undisturbed iteration is a run of the pipeline, and it ends in the
   rows and the listing flags that the dispatcher in place computes.
   */
  lemma IterationIsRun(st: Settings, s: System, answer: nat -> Dispatcher.Answer)
    requires s.worker.WorkerIdle?
    ensures Runs(st, s, IterationSteps(st, s, answer))
    ensures var r := After(st, s, IterationSteps(st, s, answer));
            var live := ExpiredAll(s.rows, s.clock, st.alertAge, st.listingAge);
            var ids := DueFrom(live, s.clock, 0, Dispatcher.BatchLimit);
            && Dispatcher.PassDone(live, ids, answer, s.clock, r.rows)
            && r.events == FlaggedAll(s.events, Dispatcher.Acknowledged(live, ids, answer))
            && r.worker == WorkerIdle && r.stored == s.stored && r.log == s.log && r.clock == s.clock
  {
    var s1 := Apply(st, s, Expire);
    StepKeepsJobs(st, s, Expire);
    var s2 := Apply(st, s1, Poll);
    StepKeepsJobs(st, s1, Poll);
    BatchRuns(st, s2, answer);
    assert Ids(s2.worker.batch) == DueFrom(s1.rows, s.clock, 0, 100);
    var rest := BatchSteps(s2.worker.batch, answer);
    RunPrepends(st, s1, Poll, rest);
    RunPrepends(st, s, Expire, [Poll] + rest);
  }

  // ---------------------------------------------------------------------------------------------
  // The startup repair
  // ---------------------------------------------------------------------------------------------

  function TablesOf(s: System): Listing.Tables {
    Listing.Tables(s.rows, s.events)
  }

  /** The steps of the repair of one event. */
  function KeySteps(t: Listing.Tables, key: string, announce: bool): seq<Step> {
    if KeyTaken(t.rows, Some(ListingKey(key))) then
      if Listing.RowIsSent(t.rows, key) then [ReconcileFlags(key)] + [] else []
    else if announce then [ReconcileAnnounces(key)] + ([EnqueueListing(key)] + [])
    else []
  }

  lemma KeyRepaired(st: Settings, s: System, key: string)
    requires key in s.events && !s.events[key].silent
    ensures var steps := KeySteps(TablesOf(s), key, st.announceListings);
            && Runs(st, s, steps)
            && TablesOf(After(st, s, steps)) == Listing.RepairedEvent(TablesOf(s), key, st.announceListings, s.clock)
            && After(st, s, steps).clock == s.clock
  {
    if KeyTaken(s.rows, Some(ListingKey(key))) {
      if Listing.RowIsSent(s.rows, key) { RunPrepends(st, s, ReconcileFlags(key), []); }
    } else if st.announceListings {
      var s1 := Apply(st, s, ReconcileAnnounces(key));
      RunPrepends(st, s1, EnqueueListing(key), []);
      RunPrepends(st, s, ReconcileAnnounces(key), [EnqueueListing(key)] + []);
    }
  }

  function RepairSteps(t: Listing.Tables, order: seq<string>, announce: bool, now: int): seq<Step>
    decreases |order|
  {
    if order == [] then []
    else
      var n := |order| - 1;
      RepairSteps(t, order[..n], announce, now) +
      KeySteps(Listing.RepairedInOrder(t, order[..n], announce, now), order[n], announce)
  }

  /** The repair records and silences nothing. */
  lemma {:induction false} RepairKeepsEvents(t: Listing.Tables, order: seq<string>, announce: bool, now: int,
                                             key: string)
    requires key in t.events
    ensures var t' := Listing.RepairedInOrder(t, order, announce, now);
            key in t'.events && t'.events[key].silent == t.events[key].silent
    decreases |order|
  {
    if order == [] {
    } else {
      RepairKeepsEvents(t, order[..|order| - 1], announce, now, key);
    }
  }

  /**
   An undisturbed repair is a run of the pipeline, in whatever order it meets the events, and it ends in the
   tables that the tracker in place computes.
   */
  lemma {:induction false} RepairIsRun(st: Settings, s: System, order: seq<string>)
    requires forall k | 0 <= k < |order| :: order[k] in s.events && !s.events[order[k]].silent
    ensures var steps := RepairSteps(TablesOf(s), order, st.announceListings, s.clock);
            && Runs(st, s, steps)
            && TablesOf(After(st, s, steps)) ==
               Listing.RepairedInOrder(TablesOf(s), order, st.announceListings, s.clock)
            && After(st, s, steps).clock == s.clock
    decreases |order|
  {
    if order == [] {
    } else {
      var n := |order| - 1;
      RepairIsRun(st, s, order[..n]);
      var first := RepairSteps(TablesOf(s), order[..n], st.announceListings, s.clock);
      var s1 := After(st, s, first);
      RepairKeepsEvents(TablesOf(s), order[..n], st.announceListings, s.clock, order[n]);
      KeyRepaired(st, s1, order[n]);
      RunsJoin(st, s, first, KeySteps(TablesOf(s1), order[n], st.announceListings));
    }
  }

  // ---------------------------------------------------------------------------------------------
  // The handling of registry events
  // ---------------------------------------------------------------------------------------------

  /** The steps of one registry event: its record, and its row or the error that takes the row's place. */
  function EventSteps(t: Listing.Tables, e: Registry.RegistryEvent, announce: bool): seq<Step> {
    if Listing.KeyOf(e).None? || Listing.KeyOf(e).value in t.events then []
    else
      var key := Listing.KeyOf(e).value;
      var enqueued := if KeyTaken(t.rows, Some(ListingKey(key))) then EnqueueFails(key) else EnqueueListing(key);
      [RecordEvent(key, e.Removed?)] + if e.Removed? || !announce then [] else [enqueued] + []
  }

  /** One event that is recorded only. */
  lemma EventRecorded(st: Settings, s: System, key: string, silent: bool)
    requires key !in s.events && (silent || !st.announceListings)
    ensures var steps := [RecordEvent(key, silent)] + [];
            && Runs(st, s, steps)
            && After(st, s, steps) == s.(events := s.events[key := Event(silent, false)])
  {
    RunPrepends(st, s, RecordEvent(key, silent), []);
  }

  /** One event that is recorded and then announced, or whose insert fails because its key is taken. */
  lemma EventAnnounced(st: Settings, s: System, key: string)
    requires key !in s.events && st.announceListings && key !in s.announcing
    ensures var taken := KeyTaken(s.rows, Some(ListingKey(key)));
            var steps := [RecordEvent(key, false)] + ([if taken then EnqueueFails(key) else EnqueueListing(key)] + []);
            && Runs(st, s, steps)
            && After(st, s, steps) ==
               s.(events := s.events[key := Event(false, false)],
                  rows := if taken then s.rows else s.rows + [ListingRow(key, s.clock)])
  {
    var s1 := Apply(st, s, RecordEvent(key, false));
    var enqueued := if KeyTaken(s.rows, Some(ListingKey(key))) then EnqueueFails(key) else EnqueueListing(key);
    assert s.announcing + {key} - {key} == s.announcing;
    RunPrepends(st, s1, enqueued, []);
    RunPrepends(st, s, RecordEvent(key, false), [enqueued] + []);
  }

  lemma EventHandled(st: Settings, s: System, e: Registry.RegistryEvent)
    requires s.announcing <= s.events.Keys
    ensures var steps := EventSteps(TablesOf(s), e, st.announceListings);
            && Runs(st, s, steps)
            && TablesOf(After(st, s, steps)) ==
               Listing.HandledEvent(TablesOf(s), e, st.announceListings, s.clock).tables
            && After(st, s, steps).clock == s.clock
            && After(st, s, steps).announcing == s.announcing
            && s.events.Keys <= After(st, s, steps).events.Keys
  {
    if Listing.KeyOf(e).Some? && Listing.KeyOf(e).value !in s.events {
      if e.Removed? || !st.announceListings {
        EventRecorded(st, s, Listing.KeyOf(e).value, e.Removed?);
      } else {
        EventAnnounced(st, s, Listing.KeyOf(e).value);
      }
    }
  }

  function HandlingSteps(t: Listing.Tables, events: seq<Registry.RegistryEvent>, announce: bool, now: int): seq<Step>
    decreases |events|
  {
    if events == [] then []
    else
      var n := |events| - 1;
      var before := Listing.HandledAll(t, events[..n], announce, now);
      HandlingSteps(t, events[..n], announce, now) +
      if before.raised then [] else EventSteps(before.tables, events[n], announce)
  }

  /**
   An undisturbed handling of registry events is a run of the pipeline that records every event before it enqueues its
   row, and it ends in the tables that the tracker in place computes, also where an error ends it.
   */
  lemma {:induction false} HandlingIsRun(st: Settings, s: System, events: seq<Registry.RegistryEvent>)
    requires s.announcing <= s.events.Keys
    ensures var steps := HandlingSteps(TablesOf(s), events, st.announceListings, s.clock);
            && Runs(st, s, steps)
            && TablesOf(After(st, s, steps)) ==
               Listing.HandledAll(TablesOf(s), events, st.announceListings, s.clock).tables
            && After(st, s, steps).clock == s.clock && After(st, s, steps).announcing == s.announcing
            && s.events.Keys <= After(st, s, steps).events.Keys
    decreases |events|
  {
    if events == [] {
    } else {
      var n := |events| - 1;
      var first := HandlingSteps(TablesOf(s), events[..n], st.announceListings, s.clock);
      HandlingIsRun(st, s, events[..n]);
      var s1 := After(st, s, first);
      if Listing.HandledAll(TablesOf(s), events[..n], st.announceListings, s.clock).raised {
        assert first + [] == first;
      } else {
        EventHandled(st, s1, events[n]);
        RunsJoin(st, s, first, EventSteps(TablesOf(s1), events[n], st.announceListings));
      }
    }
  }

  // ---------------------------------------------------------------------------------------------
  // Rows and events among the other tasks
  // ---------------------------------------------------------------------------------------------

  lemma StepKeepsKeys(st: Settings, s: System, step: Step)
    requires KeysUnique(s.rows) && Enabled(s, step)
    ensures KeysUnique(Apply(st, s, step).rows)
    ensures forall key :: KeyTaken(s.rows, key) ==> KeyTaken(Apply(st, s, step).rows, key)
  {
    StepFollows(st, s, step);
    RowsKeepKeys(st, s, step, Apply(st, s, step).rows);
  }

  lemma RowsKeepKeys(st: Settings, s: System, step: Step, rows: seq<Row>)
    requires KeysUnique(s.rows) && Enabled(s, step) && RowsFollow(st, s, step, rows)
    ensures KeysUnique(rows)
    ensures forall key :: KeyTaken(s.rows, key) ==> KeyTaken(rows, key)
  {
    assert |s.rows| <= |rows|;
    forall i | 0 <= i < |s.rows| ensures rows[i].dedupe == s.rows[i].dedupe {}
    if |rows| > |s.rows| { assert !KeyTaken(s.rows, rows[|s.rows|].dedupe); }
  }

  /** An event stays recorded, and a flagged one flagged. */
  lemma StepKeepsEvents(st: Settings, s: System, step: Step, key: string)
    requires Enabled(s, step) && key in s.events
    ensures var s' := Apply(st, s, step);
            key in s'.events && s'.events[key].silent == s.events[key].silent
              && (s.events[key].sent ==> s'.events[key].sent)
  {
  }

  /** The row of an event is there from the start, or somebody enqueues it along the run. */
  predicate CameTo(s: System, steps: seq<Step>, key: string) {
    KeyTaken(s.rows, Some(ListingKey(key))) || EnqueueListing(key) in steps
  }

  lemma EnqueuedIsTaken(st: Settings, s: System, key: string)
    requires Enabled(s, EnqueueListing(key))
    ensures KeyTaken(Apply(st, s, EnqueueListing(key)).rows, Some(ListingKey(key)))
  {
    var rows := Apply(st, s, EnqueueListing(key)).rows;
    if !KeyTaken(s.rows, Some(ListingKey(key))) { assert rows[|s.rows|].dedupe == Some(ListingKey(key)); }
  }

  lemma {:induction false} RowOnceThere(st: Settings, s: System, steps: seq<Step>, key: string)
    requires KeysUnique(s.rows) && Runs(st, s, steps) && CameTo(s, steps, key)
    ensures KeysUnique(After(st, s, steps).rows)
    ensures KeyTaken(After(st, s, steps).rows, Some(ListingKey(key)))
    decreases |steps|
  {
    if steps == [] {
    } else {
      StepKeepsKeys(st, s, steps[0]);
      if steps[0] == EnqueueListing(key) {
        EnqueuedIsTaken(st, s, key);
      } else {
        assert EnqueueListing(key) in steps ==> EnqueueListing(key) in steps[1..];
      }
      RowOnceThere(st, Apply(st, s, steps[0]), steps[1..], key);
    }
  }

  /** From then on nothing enqueues it again: a second repair finds its row, and a late enqueue adds none. */
  lemma CoveredOnceForAll(st: Settings, s: System, steps: seq<Step>, key: string)
    requires KeysUnique(s.rows) && Runs(st, s, steps) && CameTo(s, steps, key)
    ensures var r := After(st, s, steps);
            && !Enabled(r, ReconcileAnnounces(key))
            && (Enabled(r, EnqueueListing(key)) ==> Apply(st, r, EnqueueListing(key)).rows == r.rows)
  {
    RowOnceThere(st, s, steps, key);
  }
}
