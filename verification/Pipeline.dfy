/**
 The crash-safe pipeline: the market loop that decides and stores, the listing side that records and
 announces, and the one worker that delivers from the outbox. Transactions are single steps, as the lock of
 the connection makes them; a crash, an error or a cancellation may come between any two steps, and it takes
 everything volatile with it.
 */
module Pipeline {
  import opened Wrappers
  import opened AlertMachine
  import opened AlertTrace
  import opened DedupeKeys
  import opened Outbox

  datatype Settings = Settings(alerts: Config, alertAge: nat, listingAge: nat, announceListings: bool)

  /** The market loop is either between cycles or holds an evaluated cycle it has not stored yet. */
  datatype Market = MarketIdle | MarketReady(cycle: Cycle, decision: Decision, next: AlertState)

  /** A row as the worker read it when it polled. */
  datatype Job = Job(id: nat, attempts: nat)

  /** Where the worker stands; the first job of the batch is the one it works on. */
  datatype Worker =
    | WorkerIdle
    | Polling(expiredAt: int)
    | Delivering(batch: seq<Job>)
    | Accepted(batch: seq<Job>)
    | Failing(batch: seq<Job>, retryAfter: Option<int>)
    | Rejected(batch: seq<Job>)

  /**
   The durable tables, the volatile tasks, and what really happened. `log` is the committed cycles. `accepts`
   counts how often Telegram accepted any one part of the row's message; `lost` those of them that brought no
   send to its successful end, because the answer was lost or another part failed; `interrupts` the successful
   ends that a crash, a cancellation or a failed status write kept from being recorded.
   */
  datatype System = System(
    clock: int,
    stored: Option<AlertState>,
    rows: seq<Row>,
    events: map<string, Event>,
    market: Market,
    worker: Worker,
    announcing: set<string>,
    log: seq<Cycle>,
    accepts: map<nat, nat>,
    interrupts: map<nat, nat>,
    lost: map<nat, nat>)

  function Start(clock: int): System {
    System(clock, None, [], map[], MarketIdle, WorkerIdle, {}, [], map[], map[], map[])
  }

  datatype Step =
    | Tick(to: int)
    | Evaluate(coins: seq<string>)
    | PersistCommits
    | PersistAborts
    | Expire
    | Poll
    | SendAccepted
    | SendLost
    | SendRejected
    | SendFails(retryAfter: Option<int>)
    | MarkSentCommits
    | MarkSentFails
    | MarkDeadCommits
    | MarkRetryCommits
    | BatchDone
    | WorkerStops
    | RecordEvent(key: string, silent: bool)
    | EnqueueListing(key: string)
    | EnqueueFails(key: string)
    | ReconcileFlags(key: string)
    | ReconcileAnnounces(key: string)
    | Crash

  function Stored(s: System): AlertState {
    if s.stored.Some? then s.stored.value else InitialState
  }

  function Count(m: map<nat, nat>, id: nat): nat {
    if id in m then m[id] else 0
  }

  function Batch(w: Worker): seq<Job> {
    if w.WorkerIdle? || w.Polling? then [] else w.batch
  }

  predicate Enabled(s: System, step: Step) {
    match step
    case Tick(_) => true
    case Evaluate(_) => s.market.MarketIdle?
    case PersistCommits => s.market.MarketReady?
    case PersistAborts => s.market.MarketReady?
    case Expire => s.worker.WorkerIdle?
    case Poll => s.worker.Polling?
    case SendAccepted => s.worker.Delivering? && s.worker.batch != []
    case SendLost => s.worker.Delivering? && s.worker.batch != []
    case SendRejected => s.worker.Delivering? && s.worker.batch != []
    case SendFails(_) => s.worker.Delivering? && s.worker.batch != []
    case MarkSentCommits => s.worker.Accepted? && s.worker.batch != [] && s.worker.batch[0].id < |s.rows|
    case MarkSentFails => s.worker.Accepted? && s.worker.batch != []
    case MarkDeadCommits => s.worker.Rejected? && s.worker.batch != [] && s.worker.batch[0].id < |s.rows|
    case MarkRetryCommits => s.worker.Failing? && s.worker.batch != [] && s.worker.batch[0].id < |s.rows|
    case BatchDone => s.worker.Delivering? && s.worker.batch == []
    case WorkerStops => true
    case RecordEvent(_, _) => true
    case EnqueueListing(key) => key in s.announcing
    case EnqueueFails(key) => key in s.announcing
    case ReconcileFlags(key) =>
      && key in s.events
      && exists i :: 0 <= i < |s.rows| && s.rows[i].dedupe == Some(ListingKey(key)) && s.rows[i].status.Sent?
    case ReconcileAnnounces(key) => key in s.events && !s.events[key].silent && !KeyTaken(s.rows, Some(ListingKey(key)))
    case Crash => true
  }

  /** The composition key of a zero cooldown cannot be computed: the cycle ends in an error. */
  function EvaluateOf(st: Settings, s: System, coins: seq<string>): System {
    var cycle := Cycle(coins, s.clock);
    var decision := DecisionOf(st.alerts, Stored(s), cycle);
    if KindOf(decision) == Some(CompositionMessage) && st.alerts.cooldown == 0 then s
    else s.(market := MarketReady(cycle, decision, NextState(st.alerts, Stored(s), cycle)))
  }

  function KeyOfReady(st: Settings, m: Market): Option<string>
    requires m.MarketReady?
  {
    if KindOf(m.decision).Some? then KeyFor(st.alerts, KindOf(m.decision).value, m.cycle) else None
  }

  /** State and message in one transaction; a taken key rolls both back. */
  function PersistOf(st: Settings, s: System): System
    requires s.market.MarketReady?
  {
    var kind := KindOf(s.market.decision);
    var key := KeyOfReady(st, s.market);
    if KeyTaken(s.rows, key) then s.(market := MarketIdle)
    else s.(
      market := MarketIdle,
      stored := Some(s.market.next),
      rows := if kind.Some? then s.rows + [AlertRow(kind.value, key, s.clock)] else s.rows,
      log := s.log + [s.market.cycle])
  }

  function JobsOf(rows: seq<Row>, ids: seq<nat>): seq<Job>
    requires forall k | 0 <= k < |ids| :: ids[k] < |rows|
  {
    seq(|ids|, k requires 0 <= k < |ids| => Job(ids[k], rows[ids[k]].attempts))
  }

  /** Losing the worker after an acceptance and before its mark leaves the acceptance unrecorded. */
  function Interrupted(s: System): map<nat, nat> {
    if s.worker.Accepted? && s.worker.batch != []
    then s.interrupts[s.worker.batch[0].id := Count(s.interrupts, s.worker.batch[0].id) + 1]
    else s.interrupts
  }

  function MarkSentOf(s: System): System
    requires Enabled(s, MarkSentCommits)
  {
    var id := s.worker.batch[0].id;
    var row := s.rows[id];
    s.(rows := s.rows[id := MarkedSent(row)],
       events := if row.origin.Some? then FlaggedSent(s.events, row.origin.value) else s.events,
       worker := Delivering(s.worker.batch[1..]))
  }

  function MarkRetryOf(s: System): System
    requires Enabled(s, MarkRetryCommits)
  {
    var job := s.worker.batch[0];
    var next := NextAttempt(s.clock, job.attempts, s.worker.retryAfter);
    s.(rows := s.rows[job.id := MarkedRetry(s.rows[job.id], next)], worker := Delivering(s.worker.batch[1..]))
  }

  function Apply(st: Settings, s: System, step: Step): System
    requires Enabled(s, step)
  {
    match step
    case Tick(to) => s.(clock := to)
    case Evaluate(coins) => EvaluateOf(st, s, coins)
    case PersistCommits => PersistOf(st, s)
    case PersistAborts => s.(market := MarketIdle)
    case Expire => s.(rows := ExpiredAll(s.rows, s.clock, st.alertAge, st.listingAge), worker := Polling(s.clock))
    case Poll => s.(worker := Delivering(JobsOf(s.rows, DueFrom(s.rows, s.clock, 0, 100))))
    case SendAccepted =>
      var id := s.worker.batch[0].id;
      s.(worker := Accepted(s.worker.batch), accepts := s.accepts[id := Count(s.accepts, id) + 1])
    case SendLost =>
      // The client tries again by itself, or gives the row up to a later step.
      var id := s.worker.batch[0].id;
      s.(accepts := s.accepts[id := Count(s.accepts, id) + 1], lost := s.lost[id := Count(s.lost, id) + 1])
    case SendRejected => s.(worker := Rejected(s.worker.batch))
    case SendFails(retryAfter) => s.(worker := Failing(s.worker.batch, retryAfter))
    case MarkSentCommits => MarkSentOf(s)
    case MarkSentFails => s.(interrupts := Interrupted(s), worker := Failing(s.worker.batch, None))
    case MarkDeadCommits =>
      var id := s.worker.batch[0].id;
      s.(rows := s.rows[id := MarkedDead(s.rows[id])], worker := Delivering(s.worker.batch[1..]))
    case MarkRetryCommits => MarkRetryOf(s)
    case BatchDone => s.(worker := WorkerIdle)
    case WorkerStops => s.(interrupts := Interrupted(s), worker := WorkerIdle)
    case RecordEvent(key, silent) =>
      if key in s.events then s
      else s.(events := s.events[key := Event(silent, false)],
              announcing := if silent || !st.announceListings then s.announcing else s.announcing + {key})
    case EnqueueListing(key) =>
      var s' := s.(announcing := s.announcing - {key});
      if KeyTaken(s.rows, Some(ListingKey(key))) then s' else s'.(rows := s.rows + [ListingRow(key, s.clock)])
    case EnqueueFails(key) => s.(announcing := s.announcing - {key})
    case ReconcileFlags(key) => s.(events := FlaggedSent(s.events, key))
    case ReconcileAnnounces(key) => if st.announceListings then s.(announcing := s.announcing + {key}) else s
    case Crash => s.(market := MarketIdle, worker := WorkerIdle, announcing := {}, interrupts := Interrupted(s))
  }

  predicate Runs(st: Settings, s: System, steps: seq<Step>)
    decreases |steps|
  {
    steps == [] || (Enabled(s, steps[0]) && Runs(st, Apply(st, s, steps[0]), steps[1..]))
  }

  function After(st: Settings, s: System, steps: seq<Step>): System
    requires Runs(st, s, steps)
    decreases |steps|
  {
    if steps == [] then s else After(st, Apply(st, s, steps[0]), steps[1..])
  }

  lemma RunPrepends(st: Settings, s: System, step: Step, rest: seq<Step>)
    requires Enabled(s, step) && Runs(st, Apply(st, s, step), rest)
    ensures Runs(st, s, [step] + rest)
    ensures After(st, s, [step] + rest) == After(st, Apply(st, s, step), rest)
  {
    assert ([step] + rest)[1..] == rest;
  }

  lemma {:induction false} RunsJoin(st: Settings, s: System, first: seq<Step>, second: seq<Step>)
    requires Runs(st, s, first) && Runs(st, After(st, s, first), second)
    ensures Runs(st, s, first + second)
    ensures After(st, s, first + second) == After(st, After(st, s, first), second)
    decreases |first|
  {
    if first == [] {
      assert first + second == second;
    } else {
      assert (first + second)[1..] == first[1..] + second;
      RunsJoin(st, Apply(st, s, first[0]), first[1..], second);
    }
  }

  // ---------------------------------------------------------------------------------------------
  // What a step does to the outbox
  // ---------------------------------------------------------------------------------------------

  /** Rows are only appended; a new one is pending and its key is free. */
  predicate Appended(rows: seq<Row>, rows': seq<Row>) {
    rows' == rows ||
    (|rows'| == |rows| + 1 && rows <= rows' && Fresh(rows'[|rows|]) && !KeyTaken(rows, rows'[|rows|].dedupe))
  }

  predicate Fresh(row: Row) {
    row.status.Pending? && row.attempts == 0 && row.nextAttemptAt.None?
  }

  predicate RowsFollow(st: Settings, s: System, step: Step, rows: seq<Row>)
    requires Enabled(s, step)
  {
    match step
    case PersistCommits => Appended(s.rows, rows)
    case EnqueueListing(_) => Appended(s.rows, rows)
    case Expire => rows == ExpiredAll(s.rows, s.clock, st.alertAge, st.listingAge)
    case MarkSentCommits => rows == s.rows[s.worker.batch[0].id := MarkedSent(s.rows[s.worker.batch[0].id])]
    case MarkDeadCommits => rows == s.rows[s.worker.batch[0].id := MarkedDead(s.rows[s.worker.batch[0].id])]
    case MarkRetryCommits => rows == MarkRetryOf(s).rows
    case _ => rows == s.rows
  }

  lemma StepFollows(st: Settings, s: System, step: Step)
    requires Enabled(s, step)
    ensures RowsFollow(st, s, step, Apply(st, s, step).rows)
  {
    match step
    case PersistCommits => PersistAppends(st, s);
    case EnqueueListing(_) =>
    case _ =>
  }

  lemma PersistAppends(st: Settings, s: System)
    requires s.market.MarketReady?
    ensures Appended(s.rows, PersistOf(st, s).rows)
  {
  }

  /** Only the mark of an accepted delivery makes a row sent. */
  lemma SentOnlyMarked(st: Settings, s: System, step: Step, rows: seq<Row>)
    requires JobsCurrent(s) && Enabled(s, step) && !step.MarkSentCommits? && RowsFollow(st, s, step, rows)
    ensures |s.rows| <= |rows|
    ensures forall i | 0 <= i < |rows| && rows[i].status.Sent? :: i < |s.rows| && rows[i] == s.rows[i]
    ensures forall i | 0 <= i < |s.rows| && s.rows[i].status.Sent? :: rows[i] == s.rows[i]
  {
  }

  lemma SentRowsUnchanged(st: Settings, s: System, step: Step)
    requires JobsCurrent(s) && Enabled(s, step) && !step.MarkSentCommits?
    ensures var rows := Apply(st, s, step).rows;
            && |s.rows| <= |rows|
            && (forall i | 0 <= i < |rows| && rows[i].status.Sent? :: i < |s.rows| && rows[i] == s.rows[i])
            && (forall i | 0 <= i < |s.rows| && s.rows[i].status.Sent? :: rows[i] == s.rows[i])
  {
    StepFollows(st, s, step);
    SentOnlyMarked(st, s, step, Apply(st, s, step).rows);
  }

  // ---------------------------------------------------------------------------------------------
  // Durable refinement
  // ---------------------------------------------------------------------------------------------

  /** An announcement: its kind and its key. */
  datatype Announcement = Announcement(kind: Kind, key: Option<string>)

  /** What the policy announces over the committed cycles. */
  function Announced(cfg: Config, log: seq<Cycle>): seq<Announcement>
    decreases |log|
  {
    if log == [] then [] else
      var n := |log| - 1;
      Announced(cfg, log[..n]) +
      (if KindAt(cfg, log, n).Some? then [Announcement(KindAt(cfg, log, n).value, KeyAt(cfg, log, n))] else [])
  }

  /** The alert rows of the outbox, in the order they were inserted. */
  function AlertRows(rows: seq<Row>): seq<Announcement>
    decreases |rows|
  {
    if rows == [] then [] else
      var n := |rows| - 1;
      AlertRows(rows[..n]) + (if rows[n].tag.AlertTag? then [Announcement(rows[n].tag.kind, rows[n].dedupe)] else [])
  }

  ghost predicate Refines(st: Settings, s: System) {
    && s.stored == (if s.log == [] then None else Some(StateAfter(st.alerts, s.log)))
    && AlertRows(s.rows) == Announced(st.alerts, s.log)
    && (s.market.MarketReady? ==>
          && s.market.decision == DecisionOf(st.alerts, StateAfter(st.alerts, s.log), s.market.cycle)
          && s.market.next == NextState(st.alerts, StateAfter(st.alerts, s.log), s.market.cycle))
  }

  /** Rows keep their tag and key whatever happens to their delivery. */
  ghost predicate SameMessages(a: seq<Row>, b: seq<Row>) {
    |a| == |b| && forall i | 0 <= i < |a| :: a[i].tag == b[i].tag && a[i].dedupe == b[i].dedupe
  }

  lemma {:induction false} SameMessagesSameAlerts(a: seq<Row>, b: seq<Row>)
    requires SameMessages(a, b)
    ensures AlertRows(a) == AlertRows(b)
    decreases |a|
  {
    if a == [] {
    } else {
      SameMessagesSameAlerts(a[..|a| - 1], b[..|b| - 1]);
    }
  }

  lemma AlertRowsAppend(rows: seq<Row>, row: Row)
    ensures AlertRows(rows + [row]) ==
            AlertRows(rows) + (if row.tag.AlertTag? then [Announcement(row.tag.kind, row.dedupe)] else [])
  {
    assert (rows + [row])[..|rows|] == rows;
  }

  lemma AnnouncedAppend(cfg: Config, log: seq<Cycle>, cycle: Cycle)
    ensures var d := DecisionOf(cfg, StateAfter(cfg, log), cycle);
            && StateAfter(cfg, log + [cycle]) == NextState(cfg, StateAfter(cfg, log), cycle)
            && Announced(cfg, log + [cycle]) ==
               Announced(cfg, log) +
                 (if KindOf(d).Some? then [Announcement(KindOf(d).value, KeyFor(cfg, KindOf(d).value, cycle))] else [])
  {
    assert (log + [cycle])[..|log|] == log;
  }

  lemma PersistRefines(st: Settings, s: System)
    requires Refines(st, s) && s.market.MarketReady?
    ensures Refines(st, PersistOf(st, s))
  {
    var s', kind, key := PersistOf(st, s), KindOf(s.market.decision), KeyOfReady(st, s.market);
    if KeyTaken(s.rows, key) {
      assert s' == s.(market := MarketIdle);
    } else {
      AnnouncedAppend(st.alerts, s.log, s.market.cycle);
      assert s'.log == s.log + [s.market.cycle] && s'.stored == Some(s.market.next) && s'.market.MarketIdle?;
      if kind.Some? {
        AlertRowsAppend(s.rows, AlertRow(kind.value, key, s.clock));
        assert s'.rows == s.rows + [AlertRow(kind.value, key, s.clock)];
      } else {
        assert s'.rows == s.rows;
      }
    }
  }

  /** A step of anybody but the market loop leaves the decided messages alone. */
  lemma OthersKeepAlerts(st: Settings, s: System, step: Step)
    requires Enabled(s, step) && !step.PersistCommits?
    ensures AlertRows(Apply(st, s, step).rows) == AlertRows(s.rows)
    ensures Apply(st, s, step).log == s.log && Apply(st, s, step).stored == s.stored
    ensures step.Evaluate? || Apply(st, s, step).market == s.market || Apply(st, s, step).market == MarketIdle
  {
    var s' := Apply(st, s, step);
    if step.EnqueueListing? {
      AlertRowsAppend(s.rows, ListingRow(step.key, s.clock));
    } else {
      SameMessagesSameAlerts(s.rows, s'.rows);
    }
  }

  lemma StepRefines(st: Settings, s: System, step: Step)
    requires Refines(st, s) && Enabled(s, step)
    ensures Refines(st, Apply(st, s, step))
  {
    if step.PersistCommits? {
      PersistRefines(st, s);
    } else {
      OthersKeepAlerts(st, s, step);
    }
  }

  lemma {:induction false} RunRefines(st: Settings, s: System, steps: seq<Step>)
    requires Refines(st, s) && Runs(st, s, steps)
    ensures Refines(st, After(st, s, steps))
    decreases |steps|
  {
    if steps == [] {
    } else {
      StepRefines(st, s, steps[0]);
      RunRefines(st, Apply(st, s, steps[0]), steps[1..]);
    }
  }

  /**
   After any run, with crashes, rollbacks and other tasks' transactions anywhere, the stored alert state and
   the alert rows of the outbox are those of the pure policy folded over exactly the committed cycles: no
   state change without its message and no message without its state change.
   */
  lemma DurableRefinement(st: Settings, clock: int, steps: seq<Step>)
    requires Runs(st, Start(clock), steps)
    ensures var s := After(st, Start(clock), steps);
            && Stored(s) == StateAfter(st.alerts, s.log)
            && AlertRows(s.rows) == Announced(st.alerts, s.log)
  {
    RunRefines(st, Start(clock), steps);
  }

  // ---------------------------------------------------------------------------------------------
  // Delivery accounting
  // ---------------------------------------------------------------------------------------------

  /** The worker's jobs are distinct unsent rows, unchanged since it read them. */
  ghost predicate JobsCurrent(s: System) {
    var batch := Batch(s.worker);
    && (forall k | 0 <= k < |batch| ::
          batch[k].id < |s.rows| && Unsent(s.rows[batch[k].id]) && s.rows[batch[k].id].attempts == batch[k].attempts)
    && (forall j, k | 0 <= j < k < |batch| :: batch[j].id < batch[k].id)
    && (s.worker.Accepted? || s.worker.Failing? || s.worker.Rejected? ==> batch != [])
  }

  function RecordedSends(s: System, id: nat): nat {
    (if id < |s.rows| && s.rows[id].status.Sent? then 1 else 0) +
    (if s.worker.Accepted? && s.worker.batch != [] && s.worker.batch[0].id == id then 1 else 0)
  }

  ghost predicate Accounts(s: System) {
    forall id: nat :: AccountOf(s, id)
  }

  /** Rows that are only added to do not concern the worker's jobs. */
  lemma AddedRowsKeepJobs(s: System, s': System)
    requires JobsCurrent(s) && s'.worker == s.worker
    requires |s.rows| <= |s'.rows| && forall i | 0 <= i < |s.rows| :: s'.rows[i] == s.rows[i]
    ensures JobsCurrent(s')
  {
  }

  /** Finishing the first job touches its row and no other. */
  lemma FinishedJobKeepsRest(s: System, s': System)
    requires JobsCurrent(s) && Batch(s.worker) != []
    requires s'.worker == Delivering(Batch(s.worker)[1..])
    requires |s'.rows| == |s.rows| && forall i | 0 <= i < |s.rows| && i != Batch(s.worker)[0].id ::
             s'.rows[i] == s.rows[i]
    ensures JobsCurrent(s')
  {
    assert forall k | 0 <= k < |Batch(s'.worker)| :: Batch(s'.worker)[k] == Batch(s.worker)[k + 1];
  }

  /** Moving on with the same jobs keeps them current. */
  lemma SameJobsCurrent(s: System, s': System)
    requires JobsCurrent(s) && s'.rows == s.rows && Batch(s'.worker) == Batch(s.worker)
    requires Batch(s'.worker) != [] || !(s'.worker.Accepted? || s'.worker.Failing? || s'.worker.Rejected?)
    ensures JobsCurrent(s')
  {
  }

  lemma StepKeepsJobs(st: Settings, s: System, step: Step)
    requires JobsCurrent(s) && Enabled(s, step)
    ensures JobsCurrent(Apply(st, s, step))
  {
    var s' := Apply(st, s, step);
    match step
    case Expire =>
    case Poll =>
    case MarkSentCommits => FinishedJobKeepsRest(s, s');
    case MarkDeadCommits => FinishedJobKeepsRest(s, s');
    case MarkRetryCommits => FinishedJobKeepsRest(s, s');
    case SendAccepted => SameJobsCurrent(s, s');
    case SendLost => SameJobsCurrent(s, s');
    case SendRejected => SameJobsCurrent(s, s');
    case SendFails(_) => SameJobsCurrent(s, s');
    case MarkSentFails => SameJobsCurrent(s, s');
    case BatchDone =>
    case WorkerStops =>
    case Crash =>
    case _ => AddedRowsKeepJobs(s, s');
  }

  /** `sent` and `dead` are absorbing, although no update of the status checks the one it replaces. */
  lemma FinalStatusesAbsorb(st: Settings, s: System, step: Step, id: nat)
    requires JobsCurrent(s) && Enabled(s, step)
    requires id < |s.rows| && !Unsent(s.rows[id])
    ensures id < |Apply(st, s, step).rows|
    ensures Apply(st, s, step).rows[id] == s.rows[id]
  {
  }

  /** A row dies only of its age at an expiry, or of the worker recording that Telegram refused it, and then it does. */
  lemma DiesOfAgeOrRefusal(st: Settings, s: System, step: Step, id: nat)
    requires JobsCurrent(s) && Enabled(s, step)
    requires id < |s.rows| && Unsent(s.rows[id])
    ensures Apply(st, s, step).rows[id].status.Dead? <==>
              || (step.Expire?
                && s.rows[id].createdAt < s.clock - (if s.rows[id].origin.Some? then st.listingAge else st.alertAge))
              || (step.MarkDeadCommits? && s.worker.batch[0].id == id)
  {
  }

  ghost predicate AccountOf(s: System, id: nat) {
    Count(s.accepts, id) == Count(s.interrupts, id) + Count(s.lost, id) + RecordedSends(s, id)
  }

  /** Steps that make no row sent and leave the worker's acceptance alone leave every account alone. */
  lemma QuietStepKeepsAccount(s: System, s': System, id: nat)
    requires AccountOf(s, id)
    requires s'.accepts == s.accepts && s'.interrupts == s.interrupts && s'.lost == s.lost
    requires s'.worker.Accepted? == s.worker.Accepted? && (s.worker.Accepted? ==> s'.worker == s.worker)
    requires (id < |s'.rows| && s'.rows[id].status.Sent?) <==> (id < |s.rows| && s.rows[id].status.Sent?)
    ensures AccountOf(s', id)
  {
  }

  /** The worker's own steps move an acceptance from the air to the row, or to the interruptions. */
  lemma WorkerStepKeepsAccount(st: Settings, s: System, step: Step, id: nat)
    requires JobsCurrent(s) && AccountOf(s, id) && Enabled(s, step)
    requires step.SendAccepted? || step.SendLost? || step.MarkSentCommits? || step.MarkSentFails?
             || step.WorkerStops? || step.Crash?
    ensures AccountOf(Apply(st, s, step), id)
  {
  }

  /** Every other step leaves the counters, the acceptance in the air and the sent rows alone. */
  lemma OtherStepIsQuiet(st: Settings, s: System, step: Step)
    requires Enabled(s, step)
    requires !step.SendAccepted? && !step.SendLost? && !step.MarkSentCommits? && !step.MarkSentFails?
             && !step.WorkerStops? && !step.Crash?
    ensures var s' := Apply(st, s, step);
            && s'.accepts == s.accepts && s'.interrupts == s.interrupts && s'.lost == s.lost
            && s'.worker.Accepted? == s.worker.Accepted? && (s.worker.Accepted? ==> s'.worker == s.worker)
  {
  }

  lemma StepKeepsAccount(st: Settings, s: System, step: Step, id: nat)
    requires JobsCurrent(s) && AccountOf(s, id) && Enabled(s, step)
    ensures AccountOf(Apply(st, s, step), id)
  {
    if step.SendAccepted? || step.SendLost? || step.MarkSentCommits? || step.MarkSentFails?
       || step.WorkerStops? || step.Crash?
    {
      WorkerStepKeepsAccount(st, s, step, id);
    } else {
      OtherStepIsQuiet(st, s, step);
      SentRowsUnchanged(st, s, step);
      QuietStepKeepsAccount(s, Apply(st, s, step), id);
    }
  }

  lemma StepKeepsAccounts(st: Settings, s: System, step: Step)
    requires JobsCurrent(s) && Accounts(s) && Enabled(s, step)
    ensures Accounts(Apply(st, s, step))
  {
    forall id: nat ensures AccountOf(Apply(st, s, step), id) {
      assert AccountOf(s, id);
      StepKeepsAccount(st, s, step, id);
    }
  }

  lemma {:induction false} RunKeepsAccounts(st: Settings, s: System, steps: seq<Step>)
    requires JobsCurrent(s) && Accounts(s) && Runs(st, s, steps)
    ensures JobsCurrent(After(st, s, steps)) && Accounts(After(st, s, steps))
    decreases |steps|
  {
    if steps == [] {
    } else {
      StepKeepsJobs(st, s, steps[0]);
      StepKeepsAccounts(st, s, steps[0]);
      RunKeepsAccounts(st, Apply(st, s, steps[0]), steps[1..]);
    }
  }

  /**
   After any run, a part of a row's message was accepted by Telegram once for every interruption between a
   successful send and its mark, once for every acceptance that brought no send to its end, once more if the
   row is marked sent, and once more if the worker is just about to mark it. So a sent row was accepted at
   least once, and without interruptions and lost acceptances no row is ever accepted twice.
   */
  lemma DeliveryAccounting(st: Settings, clock: int, steps: seq<Step>, id: nat)
    requires Runs(st, Start(clock), steps)
    ensures var s := After(st, Start(clock), steps);
            && Count(s.accepts, id) == Count(s.interrupts, id) + Count(s.lost, id) + RecordedSends(s, id)
            && (id < |s.rows| && s.rows[id].status.Sent? ==> Count(s.accepts, id) >= 1)
            && Count(s.accepts, id) <= Count(s.interrupts, id) + Count(s.lost, id) + 1
  {
    RunKeepsAccounts(st, Start(clock), steps);
    var s := After(st, Start(clock), steps);
    assert AccountOf(s, id);
    if s.worker.Accepted? { assert Unsent(s.rows[s.worker.batch[0].id]); }
  }

  /** Rows stay, and a final status stays, over whole runs. */
  lemma {:induction false} FinalForever(st: Settings, s: System, steps: seq<Step>, id: nat)
    requires JobsCurrent(s) && Runs(st, s, steps)
    requires id < |s.rows| && !Unsent(s.rows[id])
    ensures id < |After(st, s, steps).rows| && After(st, s, steps).rows[id] == s.rows[id]
    decreases |steps|
  {
    if steps == [] {
    } else {
      StepKeepsJobs(st, s, steps[0]);
      FinalStatusesAbsorb(st, s, steps[0], id);
      FinalForever(st, Apply(st, s, steps[0]), steps[1..], id);
    }
  }
}
