/**
 What a clock that never goes back gives over whole runs of the pipeline: delivery attempts are bounded, and
 the unique index on the dedupe key never rejects a decision.
 */
module PipelineBounds {
  import opened Wrappers
  import opened AlertMachine
  import opened AlertTrace
  import opened DedupeKeys
  import opened Outbox
  import opened Pipeline

  predicate ClockForward(s: System, step: Step) {
    step.Tick? ==> s.clock <= step.to
  }

  /** The clock never goes back along the run. */
  predicate Forward(st: Settings, s: System, steps: seq<Step>)
    requires Runs(st, s, steps)
    decreases |steps|
  {
    steps == [] || (ClockForward(s, steps[0]) && Forward(st, Apply(st, s, steps[0]), steps[1..]))
  }

  lemma ForwardPrepends(st: Settings, s: System, step: Step, rest: seq<Step>)
    requires Enabled(s, step) && Runs(st, Apply(st, s, step), rest)
    requires ClockForward(s, step) && Forward(st, Apply(st, s, step), rest)
    ensures Runs(st, s, [step] + rest) && Forward(st, s, [step] + rest)
    ensures After(st, s, [step] + rest) == After(st, Apply(st, s, step), rest)
  {
    RunPrepends(st, s, step, rest);
    assert ([step] + rest)[1..] == rest;
  }

  /** Every poll reads the clock less than `gap` seconds after the expiry of the same iteration. */
  predicate PollsPrompt(st: Settings, s: System, steps: seq<Step>, gap: nat)
    requires Runs(st, s, steps)
    decreases |steps|
  {
    steps == [] ||
    ((steps[0].Poll? ==> s.clock - s.worker.expiredAt < gap)
      && PollsPrompt(st, Apply(st, s, steps[0]), steps[1..], gap))
  }

  // ---------------------------------------------------------------------------------------------
  // Attempts
  // ---------------------------------------------------------------------------------------------

  function AgeLimit(st: Settings, row: Row): nat {
    if row.origin.Some? then st.listingAge else st.alertAge
  }

  /** A row is not due before its creation plus the delays of the attempts it has had. */
  ghost predicate Scheduled(row: Row, clock: int) {
    && row.createdAt <= clock
    && (row.attempts > 0 ==>
       row.nextAttemptAt.Some? && row.nextAttemptAt.value >= row.createdAt + TotalDelay(row.attempts))
  }

  /** Every attempt but the last was over when the row was younger than its limit plus the gap. */
  ghost predicate AttemptsBounded(st: Settings, row: Row, gap: nat) {
    row.attempts > 0 ==> TotalDelay(row.attempts - 1) < AgeLimit(st, row) + gap
  }

  ghost predicate RowsBounded(st: Settings, s: System, gap: nat) {
    forall i | 0 <= i < |s.rows| :: Scheduled(s.rows[i], s.clock) && AttemptsBounded(st, s.rows[i], gap)
  }

  /** A job was due when the worker polled, and not overdue by more than the gap. */
  ghost predicate JobBounded(st: Settings, row: Row, clock: int, gap: nat) {
    && TotalDelay(row.attempts) < AgeLimit(st, row) + gap
    && (row.attempts > 0 ==> row.nextAttemptAt.Some? && row.nextAttemptAt.value <= clock)
  }

  ghost predicate JobsBounded(st: Settings, s: System, gap: nat) {
    && (s.worker.Polling? ==>
          && s.worker.expiredAt <= s.clock
          && forall i | 0 <= i < |s.rows| && Unsent(s.rows[i]) ::
             s.rows[i].createdAt >= s.worker.expiredAt - AgeLimit(st, s.rows[i]))
    && forall k | 0 <= k < |Batch(s.worker)| :: Batch(s.worker)[k].id < |s.rows| ==>
         JobBounded(st, s.rows[Batch(s.worker)[k].id], s.clock, gap)
  }

  ghost predicate BoundInv(st: Settings, s: System, gap: nat)
  {
    JobsCurrent(s) && gap >= 1 && RowsBounded(st, s, gap) && JobsBounded(st, s, gap)
  }

  lemma RetryKeepsRow(st: Settings, s: System, gap: nat)
    requires BoundInv(st, s, gap) && Enabled(s, MarkRetryCommits)
    ensures var id := s.worker.batch[0].id;
            var row := Apply(st, s, MarkRetryCommits).rows[id];
            Scheduled(row, s.clock) && AttemptsBounded(st, row, gap)
  {
    var job := s.worker.batch[0];
    var row := s.rows[job.id];
    assert Batch(s.worker)[0] == job;
    assert job.attempts == row.attempts && Scheduled(row, s.clock) && JobBounded(st, row, s.clock, gap);
    assert TotalDelay(row.attempts + 1) == TotalDelay(row.attempts) + RetryDelay(row.attempts + 1);
  }

  lemma PollBounds(st: Settings, s: System, gap: nat)
    requires BoundInv(st, s, gap) && s.worker.Polling? && s.clock - s.worker.expiredAt < gap
    ensures JobsBounded(st, Apply(st, s, Poll), gap)
  {
    var s' := Apply(st, s, Poll);
    forall k | 0 <= k < |Batch(s'.worker)|
      ensures JobBounded(st, s'.rows[Batch(s'.worker)[k].id], s'.clock, gap)
    {
      var row := s.rows[Batch(s'.worker)[k].id];
      assert Due(row, s.clock) && Scheduled(row, s.clock);
    }
  }

  /** Expiry, marks and passing time keep the bounds of a row; so does being new. */
  lemma RowKeepsBounds(st: Settings, row: Row, row': Row, clock: int, clock': int, gap: nat)
    requires Scheduled(row, clock) && AttemptsBounded(st, row, gap) && clock <= clock'
    requires row'.createdAt == row.createdAt && row'.attempts == row.attempts && row'.nextAttemptAt == row.nextAttemptAt
    requires row'.origin == row.origin
    ensures Scheduled(row', clock') && AttemptsBounded(st, row', gap)
  {
  }

  lemma StepKeepsRowsBounded(st: Settings, s: System, step: Step, gap: nat)
    requires BoundInv(st, s, gap) && Enabled(s, step) && ClockForward(s, step)
    ensures RowsBounded(st, Apply(st, s, step), gap)
  {
    var s' := Apply(st, s, step);
    StepFollows(st, s, step);
    ClockAhead(st, s, step);
    NewRowsAreNow(st, s, step);
    forall i | 0 <= i < |s'.rows| ensures Scheduled(s'.rows[i], s'.clock) && AttemptsBounded(st, s'.rows[i], gap) {
      if step.MarkRetryCommits? && s.worker.batch[0].id == i {
        RetryKeepsRow(st, s, gap);
      } else if i < |s.rows| {
        RowKeepsBounds(st, s.rows[i], s'.rows[i], s.clock, s'.clock, gap);
      }
    }
  }

  lemma NewRowsAreNow(st: Settings, s: System, step: Step)
    requires Enabled(s, step)
    ensures forall i | |s.rows| <= i < |Apply(st, s, step).rows| ::
              Fresh(Apply(st, s, step).rows[i]) && Apply(st, s, step).rows[i].createdAt == s.clock
  {
  }

  /** The job at `k` of the later batch is one of the earlier batch, and its row is untouched. */
  ghost predicate JobKept(s: System, s': System, k: nat)
    requires k < |Batch(s'.worker)|
  {
    exists j :: 0 <= j < |Batch(s.worker)| && Batch(s'.worker)[k] == Batch(s.worker)[j]
                && Batch(s.worker)[j].id < |s.rows| && Batch(s.worker)[j].id < |s'.rows|
                && s'.rows[Batch(s'.worker)[k].id] == s.rows[Batch(s.worker)[j].id]
  }

  lemma FinishedJobLeavesRest(s: System, s': System, k: nat)
    requires JobsCurrent(s) && Batch(s.worker) != [] && s'.worker == Delivering(Batch(s.worker)[1..])
    requires |s'.rows| == |s.rows|
    requires forall i | 0 <= i < |s.rows| && i != Batch(s.worker)[0].id :: s'.rows[i] == s.rows[i]
    requires k < |Batch(s'.worker)|
    ensures JobKept(s, s', k)
  {
    assert Batch(s'.worker)[k] == Batch(s.worker)[k + 1];
  }

  lemma SameJobsKept(s: System, s': System, k: nat)
    requires JobsCurrent(s) && Batch(s'.worker) == Batch(s.worker) && s.rows <= s'.rows
    requires k < |Batch(s'.worker)|
    ensures JobKept(s, s', k)
  {
    assert Batch(s'.worker)[k] == Batch(s.worker)[k];
  }

  /** Until the worker polls again it only drops jobs from the front, and only rows of dropped jobs change. */
  lemma KeptJobsUntouched(st: Settings, s: System, step: Step, k: nat)
    requires JobsCurrent(s) && Enabled(s, step) && !step.Poll? && !step.Expire?
    requires k < |Batch(Apply(st, s, step).worker)|
    ensures JobKept(s, Apply(st, s, step), k)
  {
    var s' := Apply(st, s, step);
    StepFollows(st, s, step);
    if step.MarkSentCommits? || step.MarkDeadCommits? || step.MarkRetryCommits? {
      FinishedJobLeavesRest(s, s', k);
    } else {
      SameJobsKept(s, s', k);
    }
  }

  lemma ExpireBounds(st: Settings, s: System, gap: nat)
    requires BoundInv(st, s, gap) && s.worker.WorkerIdle?
    ensures JobsBounded(st, Apply(st, s, Expire), gap)
  {
    var s' := Apply(st, s, Expire);
    forall i | 0 <= i < |s'.rows| && Unsent(s'.rows[i])
      ensures s'.rows[i].createdAt >= s'.worker.expiredAt - AgeLimit(st, s'.rows[i])
    {
      assert s'.rows[i] == Expired(s.rows[i], s.clock, st.alertAge, st.listingAge);
    }
  }

  /** Between an expiry and the poll after it no row becomes overdue for the expiry. */
  lemma PollingKept(st: Settings, s: System, s': System, gap: nat)
    requires BoundInv(st, s, gap) && s.worker.Polling? && s'.worker == s.worker
    requires s.clock <= s'.clock && |s.rows| <= |s'.rows|
    requires forall i | 0 <= i < |s.rows| :: s'.rows[i] == s.rows[i]
    requires forall i | |s.rows| <= i < |s'.rows| :: s'.rows[i].createdAt == s.clock
    ensures JobsBounded(st, s', gap)
  {
  }

  lemma PollingStep(st: Settings, s: System, step: Step)
    requires JobsCurrent(s) && Enabled(s, step) && ClockForward(s, step) && !step.Expire? && !step.Poll?
    requires Apply(st, s, step).worker.Polling?
    ensures var s' := Apply(st, s, step);
            && s'.worker == s.worker && s.clock <= s'.clock && |s.rows| <= |s'.rows|
            && (forall i | 0 <= i < |s.rows| :: s'.rows[i] == s.rows[i])
            && (forall i | |s.rows| <= i < |s'.rows| :: s'.rows[i].createdAt == s.clock)
  {
    StepFollows(st, s, step);
    NewRowsAreNow(st, s, step);
    ClockAhead(st, s, step);
  }

  lemma StepKeepsJobsBounded(st: Settings, s: System, step: Step, gap: nat)
    requires BoundInv(st, s, gap) && Enabled(s, step) && ClockForward(s, step)
    requires step.Poll? ==> s.clock - s.worker.expiredAt < gap
    ensures JobsBounded(st, Apply(st, s, step), gap)
  {
    var s' := Apply(st, s, step);
    if step.Poll? {
      PollBounds(st, s, gap);
    } else if step.Expire? {
      ExpireBounds(st, s, gap);
    } else if s'.worker.Polling? {
      PollingStep(st, s, step);
      PollingKept(st, s, s', gap);
    } else {
      StepKeepsJobs(st, s, step);
      forall k | 0 <= k < |Batch(s'.worker)|
        ensures JobBounded(st, s'.rows[Batch(s'.worker)[k].id], s'.clock, gap)
      {
        KeptJobsUntouched(st, s, step, k);
        ClockAhead(st, s, step);
      }
    }
  }

  lemma ClockAhead(st: Settings, s: System, step: Step)
    requires Enabled(s, step) && ClockForward(s, step)
    ensures s.clock <= Apply(st, s, step).clock
  {
  }

  lemma {:induction false} RunKeepsBounds(st: Settings, s: System, steps: seq<Step>, gap: nat)
    requires BoundInv(st, s, gap) && Runs(st, s, steps) && Forward(st, s, steps) && PollsPrompt(st, s, steps, gap)
    ensures BoundInv(st, After(st, s, steps), gap)
    decreases |steps|
  {
    if steps == [] {
    } else {
      StepKeepsJobs(st, s, steps[0]);
      StepKeepsRowsBounded(st, s, steps[0], gap);
      StepKeepsJobsBounded(st, s, steps[0], gap);
      RunKeepsBounds(st, Apply(st, s, steps[0]), steps[1..], gap);
    }
  }

  /** After any such run a row's next attempt is never earlier than its delays allow. */
  lemma ScheduleRespected(st: Settings, clock: int, steps: seq<Step>, gap: nat, id: nat)
    requires gap >= 1 && Runs(st, Start(clock), steps)
    requires Forward(st, Start(clock), steps) && PollsPrompt(st, Start(clock), steps, gap)
    requires id < |After(st, Start(clock), steps).rows|
    ensures var row := After(st, Start(clock), steps).rows[id];
            && (row.attempts > 0 ==>
               row.nextAttemptAt.Some? && row.nextAttemptAt.value >= row.createdAt + TotalDelay(row.attempts))
            && (row.attempts > 0 ==> TotalDelay(row.attempts - 1) < AgeLimit(st, row) + gap)
  {
    RunKeepsBounds(st, Start(clock), steps, gap);
  }

  /**
   With the default ages, and every poll less than a thousand seconds after its expiry, no alert row ever
   records more than 8 failed attempts and no listing row more than 30.
   */
  lemma RetryBound(st: Settings, clock: int, steps: seq<Step>, id: nat)
    requires st.alertAge == 7200 && st.listingAge == 86400
    requires Runs(st, Start(clock), steps)
    requires Forward(st, Start(clock), steps) && PollsPrompt(st, Start(clock), steps, 1000)
    requires id < |After(st, Start(clock), steps).rows|
    ensures var row := After(st, Start(clock), steps).rows[id];
            row.attempts <= if row.origin.Some? then 30 else 8
  {
    ScheduleRespected(st, clock, steps, 1000, id);
    var row := After(st, Start(clock), steps).rows[id];
    TotalDelayOfEight();
    TotalDelayBeyondEight(30);
    if row.origin.None? && row.attempts > 8 { TotalDelayGrows(8, row.attempts - 1); }
    if row.origin.Some? && row.attempts > 30 { TotalDelayGrows(30, row.attempts - 1); }
  }

  /** How many failed attempts on a row the run records. */
  function Retries(st: Settings, s: System, steps: seq<Step>, id: nat): nat
    requires Runs(st, s, steps)
    decreases |steps|
  {
    if steps == [] then 0
    else
      var first := if steps[0].MarkRetryCommits? && s.worker.batch[0].id == id then 1 else 0;
      first + Retries(st, Apply(st, s, steps[0]), steps[1..], id)
  }

  function AttemptsOf(s: System, id: nat): nat {
    if id < |s.rows| then s.rows[id].attempts else 0
  }

  lemma StepCountsFailure(st: Settings, s: System, step: Step, id: nat)
    requires Enabled(s, step)
    ensures AttemptsOf(Apply(st, s, step), id) ==
            AttemptsOf(s, id) + if step.MarkRetryCommits? && s.worker.batch[0].id == id then 1 else 0
  {
  }

  /** A row's attempts count exactly the failures recorded of it, whatever else happens. */
  lemma {:induction false} AttemptsCountFailures(st: Settings, s: System, steps: seq<Step>, id: nat)
    requires Runs(st, s, steps)
    ensures AttemptsOf(After(st, s, steps), id) == AttemptsOf(s, id) + Retries(st, s, steps, id)
    decreases |steps|
  {
    if steps == [] {
    } else {
      StepCountsFailure(st, s, steps[0], id);
      AttemptsCountFailures(st, Apply(st, s, steps[0]), steps[1..], id);
    }
  }

  /** So a run never records more than 8 failed attempts of an alert, nor more than 30 of a listing. */
  lemma FailuresBounded(st: Settings, clock: int, steps: seq<Step>, id: nat)
    requires st.alertAge == 7200 && st.listingAge == 86400
    requires Runs(st, Start(clock), steps)
    requires Forward(st, Start(clock), steps) && PollsPrompt(st, Start(clock), steps, 1000)
    ensures var rows := After(st, Start(clock), steps).rows;
            Retries(st, Start(clock), steps, id) <= if id < |rows| then (if rows[id].origin.Some? then 30 else 8) else 0
  {
    AttemptsCountFailures(st, Start(clock), steps, id);
    if id < |After(st, Start(clock), steps).rows| { RetryBound(st, clock, steps, id); }
  }

  // ---------------------------------------------------------------------------------------------
  // Keys
  // ---------------------------------------------------------------------------------------------

  /** The committed cycles and the one being stored are in clock order. */
  ghost predicate CyclesInOrder(s: System) {
    && ClockMonotone(s.log)
    && (forall k | 0 <= k < |s.log| :: s.log[k].now <= s.clock)
    && (s.market.MarketReady? ==>
          s.market.cycle.now <= s.clock && forall k | 0 <= k < |s.log| :: s.log[k].now <= s.market.cycle.now)
  }

  /** Alert rows have no origin; listing rows have the key of theirs. */
  ghost predicate RowsTagged(s: System) {
    forall i | 0 <= i < |s.rows| ::
      s.rows[i].tag.ListingTag? ==>
        s.rows[i].origin.Some? && s.rows[i].dedupe == Some(ListingKey(s.rows[i].origin.value))
  }

  lemma StepKeepsCycles(st: Settings, s: System, step: Step)
    requires CyclesInOrder(s) && Enabled(s, step) && ClockForward(s, step)
    ensures CyclesInOrder(Apply(st, s, step))
  {
    ClockAhead(st, s, step);
    if step.PersistCommits? {
      assert forall k | 0 <= k < |s.log| :: (s.log + [s.market.cycle])[k] == s.log[k];
    } else if !step.Evaluate? {
      OthersKeepAlerts(st, s, step);
    }
  }

  /** Only two steps insert rows; the others keep what identifies them. */
  lemma UpdatesKeepIdentity(st: Settings, s: System, step: Step)
    requires Enabled(s, step) && !step.PersistCommits? && !step.EnqueueListing?
    ensures var rows := Apply(st, s, step).rows;
            && |rows| == |s.rows|
            && forall i | 0 <= i < |rows| ::
               rows[i].tag == s.rows[i].tag && rows[i].dedupe == s.rows[i].dedupe && rows[i].origin == s.rows[i].origin
  {
  }

  lemma StepKeepsTags(st: Settings, s: System, step: Step)
    requires RowsTagged(s) && Enabled(s, step)
    ensures RowsTagged(Apply(st, s, step))
  {
    if !step.PersistCommits? && !step.EnqueueListing? { UpdatesKeepIdentity(st, s, step); }
  }

  lemma StepKeepsOrder(st: Settings, s: System, step: Step)
    requires CyclesInOrder(s) && RowsTagged(s) && Enabled(s, step) && ClockForward(s, step)
    ensures CyclesInOrder(Apply(st, s, step)) && RowsTagged(Apply(st, s, step))
  {
    StepKeepsCycles(st, s, step);
    StepKeepsTags(st, s, step);
  }

  lemma {:induction false} RunKeepsOrder(st: Settings, s: System, steps: seq<Step>)
    requires CyclesInOrder(s) && RowsTagged(s) && Runs(st, s, steps) && Forward(st, s, steps)
    ensures CyclesInOrder(After(st, s, steps)) && RowsTagged(After(st, s, steps))
    decreases |steps|
  {
    if steps == [] {
    } else {
      StepKeepsOrder(st, s, steps[0]);
      RunKeepsOrder(st, Apply(st, s, steps[0]), steps[1..]);
    }
  }

  lemma {:induction false} AnnouncedComesFromCycle(cfg: Config, log: seq<Cycle>, a: Announcement)
    requires a in Announced(cfg, log)
    ensures exists k :: 0 <= k < |log| && KindAt(cfg, log, k) == Some(a.kind) && KeyAt(cfg, log, k) == a.key
    decreases |log|
  {
    var n := |log| - 1;
    if a in Announced(cfg, log[..n]) {
      AnnouncedComesFromCycle(cfg, log[..n], a);
      var k :| 0 <= k < n && KindAt(cfg, log[..n], k) == Some(a.kind) && KeyAt(cfg, log[..n], k) == a.key;
      assert log[..n][..k] == log[..k];
      assert KindAt(cfg, log, k) == Some(a.kind) && KeyAt(cfg, log, k) == a.key;
    } else {
      assert KindAt(cfg, log, n) == Some(a.kind) && KeyAt(cfg, log, n) == a.key;
    }
  }

  lemma {:induction false} AlertRowListed(rows: seq<Row>, i: nat)
    requires i < |rows| && rows[i].tag.AlertTag?
    ensures Announcement(rows[i].tag.kind, rows[i].dedupe) in AlertRows(rows)
    decreases |rows|
  {
    if i == |rows| - 1 {
    } else {
      AlertRowListed(rows[..|rows| - 1], i);
    }
  }

  /** A committed message with the key of a later cycle says what `SharedKeyMeans` says. */
  lemma LaterKeyMeans(cfg: Config, log: seq<Cycle>, cycle: Cycle, k: nat)
    requires k < |log| && ClockMonotone(log + [cycle])
    requires KindOf(DecisionOf(cfg, StateAfter(cfg, log), cycle)).Some? && KeyAt(cfg, log, k).Some?
    requires KeyAt(cfg, log, k) == KeyFor(cfg, KindOf(DecisionOf(cfg, StateAfter(cfg, log), cycle)).value, cycle)
    ensures Rearms(cfg, StateAfter(cfg, log), cycle)
  {
    var all := log + [cycle];
    assert all[..|log|] == log && all[..k] == log[..k];
    SharedKeyMeans(cfg, all, k, |log|);
    assert all[..|log| + 1] == all;
    BeforeNext(cfg, all, |log|);
  }

  /** Without a debounce, the cycle announces that it has just entered the active range. */
  predicate Rearms(cfg: Config, st: AlertState, cycle: Cycle) {
    && cfg.debounce == 0 && cfg.transitionAlerts
    && DecisionOf(cfg, st, cycle).transition
    && !st.range.ActiveRange? && NextState(cfg, st, cycle).range.ActiveRange?
  }

  lemma AlertRowsDiffer(st: Settings, s: System, i: nat)
    requires Refines(st, s) && CyclesInOrder(s) && s.market.MarketReady? && KindOf(s.market.decision).Some?
    requires i < |s.rows| && s.rows[i].tag.AlertTag?
    requires s.rows[i].dedupe.Some? && s.rows[i].dedupe == KeyOfReady(st, s.market)
    ensures Rearms(st.alerts, Stored(s), s.market.cycle)
  {
    AlertRowListed(s.rows, i);
    var a := Announcement(s.rows[i].tag.kind, s.rows[i].dedupe);
    AnnouncedComesFromCycle(st.alerts, s.log, a);
    var k :| 0 <= k < |s.log| && KindAt(st.alerts, s.log, k) == Some(a.kind) && KeyAt(st.alerts, s.log, k) == a.key;
    LaterKeyMeans(st.alerts, s.log, s.market.cycle, k);
  }

  lemma TakenKeyMeans(st: Settings, s: System)
    requires Refines(st, s) && CyclesInOrder(s) && RowsTagged(s) && s.market.MarketReady?
    requires KeyTaken(s.rows, KeyOfReady(st, s.market))
    ensures Rearms(st.alerts, Stored(s), s.market.cycle) && s.market.next != Stored(s)
  {
    var kind := KindOf(s.market.decision);
    var i :| 0 <= i < |s.rows| && s.rows[i].dedupe == KeyOfReady(st, s.market);
    if s.rows[i].tag.ListingTag? {
      KeysOfKindsDiffer(st.alerts, kind.value, s.market.cycle, kind.value, s.market.cycle, s.rows[i].origin.value);
      assert false;
    }
    AlertRowsDiffer(st, s, i);
  }

  /**
   Whenever the unique index rejects a decision of a run with a forward clock, there is no debounce, the decision
   announces that the active range has just been entered, and the state that is rolled back with it differs
   from the stored one.
   */
  lemma SuppressionLosesState(st: Settings, clock: int, steps: seq<Step>)
    requires Runs(st, Start(clock), steps) && Forward(st, Start(clock), steps)
    ensures var s := After(st, Start(clock), steps);
            s.market.MarketReady? && KeyTaken(s.rows, KeyOfReady(st, s.market)) ==>
              && Rearms(st.alerts, Stored(s), s.market.cycle)
              && s.market.next != Stored(s)
              && Stored(Apply(st, s, PersistCommits)) == Stored(s)
  {
    var s := After(st, Start(clock), steps);
    RunRefines(st, Start(clock), steps);
    RunKeepsOrder(st, Start(clock), steps);
    if s.market.MarketReady? && KeyTaken(s.rows, KeyOfReady(st, s.market)) { TakenKeyMeans(st, s); }
  }

  /** The key of a cycle about to be stored is free. */
  predicate ReadyKeyFree(st: Settings, s: System) {
    s.market.MarketReady? ==> !KeyTaken(s.rows, KeyOfReady(st, s.market))
  }

  /** The unique index never rejects a decision, in any run with a forward clock. */
  ghost predicate NeverSuppressed(st: Settings) {
    forall clock: int, steps: seq<Step> ::
      Runs(st, Start(clock), steps) && Forward(st, Start(clock), steps) ==>
        ReadyKeyFree(st, After(st, Start(clock), steps))
  }

  /** With a debounce, or without transition alerts, every cycle that is stored commits. */
  lemma KeyNeverTaken(st: Settings, clock: int, steps: seq<Step>)
    requires st.alerts.debounce >= 1 || !st.alerts.transitionAlerts || st.alerts.minCoins > st.alerts.maxCoins
    requires Runs(st, Start(clock), steps) && Forward(st, Start(clock), steps)
    ensures var s := After(st, Start(clock), steps);
            && ReadyKeyFree(st, s)
            && (s.market.MarketReady? ==> Apply(st, s, PersistCommits).log == s.log + [s.market.cycle])
  {
    SuppressionLosesState(st, clock, steps);
  }

  /** Entering, leaving and entering the active range again in one second. */
  function InAndOutSteps(cfg: Config): seq<Step> {
    var inside, outside := Evaluate(CoinList(0, cfg.minCoins)), Evaluate(CoinList(0, cfg.maxCoins + 1));
    [inside] + ([PersistCommits] + ([outside] + ([PersistCommits] + ([inside] + []))))
  }

  /** Without a debounce the cycle that enters the active range announces it at once. */
  lemma EntryIsReady(st: Settings, s: System, coins: seq<string>)
    requires st.alerts.debounce == 0 && st.alerts.transitionAlerts
    requires st.alerts.minCoins <= |coins| <= st.alerts.maxCoins
    requires s.market.MarketIdle? && !Stored(s).range.ActiveRange? && Stored(s).pendingSince.None?
    ensures var s' := Apply(st, s, Evaluate(coins));
            && s' == s.(market := s'.market) && s'.market.MarketReady?
            && KindOf(s'.market.decision) == Some(TransitionMessage)
            && KeyOfReady(st, s'.market) == Some(TransitionKey(s.clock, coins))
  {
  }

  /** A cycle above the range announces nothing. */
  lemma ExitIsReady(st: Settings, s: System, coins: seq<string>)
    requires st.alerts.minCoins <= st.alerts.maxCoins < |coins| && s.market.MarketIdle?
    ensures var s' := Apply(st, s, Evaluate(coins));
            && s' == s.(market := s'.market) && s'.market.MarketReady?
            && KindOf(s'.market.decision) == None
            && s'.market.next.range.OverRange? && s'.market.next.pendingSince.None?
  {
  }

  lemma InAndOutSuppressed(st: Settings, clock: int)
    requires st.alerts.debounce == 0 && st.alerts.transitionAlerts && st.alerts.minCoins <= st.alerts.maxCoins
    ensures var steps := InAndOutSteps(st.alerts);
            && Runs(st, Start(clock), steps) && Forward(st, Start(clock), steps)
            && !ReadyKeyFree(st, After(st, Start(clock), steps))
  {
    var coins, more := CoinList(0, st.alerts.minCoins), CoinList(0, st.alerts.maxCoins + 1);
    var s0 := Start(clock);
    EntryIsReady(st, s0, coins);
    var s1 := Apply(st, s0, Evaluate(coins));
    var s2 := Apply(st, s1, PersistCommits);
    ExitIsReady(st, s2, more);
    var s3 := Apply(st, s2, Evaluate(more));
    var s4 := Apply(st, s3, PersistCommits);
    EntryIsReady(st, s4, coins);
    var s5 := Apply(st, s4, Evaluate(coins));
    assert s5.rows[0].dedupe == KeyOfReady(st, s5.market);
    InAndOutRuns(st, s0);
  }

  /** Evaluating, storing and whatever follows. */
  lemma CyclePrepends(st: Settings, s: System, coins: seq<string>, rest: seq<Step>)
    requires ReadyAfter(st, s, coins)
    requires var s' := Apply(st, Apply(st, s, Evaluate(coins)), PersistCommits);
             Runs(st, s', rest) && Forward(st, s', rest)
    ensures var steps := [Evaluate(coins)] + ([PersistCommits] + rest);
            && Runs(st, s, steps) && Forward(st, s, steps)
            && After(st, s, steps) == After(st, Apply(st, Apply(st, s, Evaluate(coins)), PersistCommits), rest)
  {
    var s1 := Apply(st, s, Evaluate(coins));
    ForwardPrepends(st, s1, PersistCommits, rest);
    ForwardPrepends(st, s, Evaluate(coins), [PersistCommits] + rest);
  }

  /** Nothing in those steps depends on the state but the market loop being idle. */
  lemma InAndOutRuns(st: Settings, s0: System)
    requires ReadyAfter(st, s0, CoinList(0, st.alerts.minCoins))
    requires var s2 := Apply(st, Apply(st, s0, Evaluate(CoinList(0, st.alerts.minCoins))), PersistCommits);
             ReadyAfter(st, s2, CoinList(0, st.alerts.maxCoins + 1))
    ensures var s2 := Apply(st, Apply(st, s0, Evaluate(CoinList(0, st.alerts.minCoins))), PersistCommits);
            var s4 := Apply(st, Apply(st, s2, Evaluate(CoinList(0, st.alerts.maxCoins + 1))), PersistCommits);
            && Runs(st, s0, InAndOutSteps(st.alerts)) && Forward(st, s0, InAndOutSteps(st.alerts))
            && After(st, s0, InAndOutSteps(st.alerts)) == Apply(st, s4, Evaluate(CoinList(0, st.alerts.minCoins)))
  {
    var coins, more := CoinList(0, st.alerts.minCoins), CoinList(0, st.alerts.maxCoins + 1);
    var s2 := Apply(st, Apply(st, s0, Evaluate(coins)), PersistCommits);
    var s4 := Apply(st, Apply(st, s2, Evaluate(more)), PersistCommits);
    ForwardPrepends(st, s4, Evaluate(coins), []);
    CyclePrepends(st, s2, more, [Evaluate(coins)] + []);
    CyclePrepends(st, s0, coins, [Evaluate(more)] + ([PersistCommits] + ([Evaluate(coins)] + [])));
  }

  /** The cycle can be evaluated without an error. */
  predicate ReadyAfter(st: Settings, s: System, coins: seq<string>) {
    s.market.MarketIdle? && Apply(st, s, Evaluate(coins)).market.MarketReady?
  }

  /**
   The unique index never rejects a decision if and only if there is a debounce, or no transition is announced,
   or no count is in range.
   */
  lemma NeverSuppressedExactly(st: Settings)
    ensures NeverSuppressed(st) <==>
            st.alerts.debounce >= 1 || !st.alerts.transitionAlerts || st.alerts.minCoins > st.alerts.maxCoins
  {
    if st.alerts.debounce >= 1 || !st.alerts.transitionAlerts || st.alerts.minCoins > st.alerts.maxCoins {
      forall clock: int, steps: seq<Step> | Runs(st, Start(clock), steps) && Forward(st, Start(clock), steps)
        ensures ReadyKeyFree(st, After(st, Start(clock), steps))
      {
        KeyNeverTaken(st, clock, steps);
      }
    } else {
      InAndOutSuppressed(st, 0);
    }
  }
}
