/**
 The delivery account read off a run's own steps, without counters; and what a crash leaves.
 */
module PipelineCounts {
  import opened Wrappers
  import opened AlertMachine
  import opened Outbox
  import opened Pipeline

  /** The worker is sending this row's message. */
  predicate Sending(s: System, id: nat) {
    s.worker.Delivering? && s.worker.batch != [] && s.worker.batch[0].id == id
  }

  /** A send of it has succeeded and is not recorded yet. */
  predicate InTheAir(s: System, id: nat) {
    s.worker.Accepted? && s.worker.batch != [] && s.worker.batch[0].id == id
  }

  /** Telegram accepts one part of the row's message. */
  predicate Accepts(s: System, step: Step, id: nat) {
    (step.SendAccepted? || step.SendLost?) && Sending(s, id)
  }

  /** The acceptance brings no send to its end. */
  predicate Loses(s: System, step: Step, id: nat) {
    step.SendLost? && Sending(s, id)
  }

  /** A crash, a cancellation or a failed write keeps a successful send from being recorded. */
  predicate Interrupts(s: System, step: Step, id: nat) {
    (step.MarkSentFails? || step.WorkerStops? || step.Crash?) && InTheAir(s, id)
  }

  function Acceptances(st: Settings, s: System, steps: seq<Step>, id: nat): nat
    requires Runs(st, s, steps)
    decreases |steps|
  {
    if steps == [] then 0
    else (if Accepts(s, steps[0], id) then 1 else 0) + Acceptances(st, Apply(st, s, steps[0]), steps[1..], id)
  }

  function Losses(st: Settings, s: System, steps: seq<Step>, id: nat): nat
    requires Runs(st, s, steps)
    decreases |steps|
  {
    if steps == [] then 0
    else (if Loses(s, steps[0], id) then 1 else 0) + Losses(st, Apply(st, s, steps[0]), steps[1..], id)
  }

  function Interruptions(st: Settings, s: System, steps: seq<Step>, id: nat): nat
    requires Runs(st, s, steps)
    decreases |steps|
  {
    if steps == [] then 0
    else (if Interrupts(s, steps[0], id) then 1 else 0) + Interruptions(st, Apply(st, s, steps[0]), steps[1..], id)
  }

  lemma StepCounts(st: Settings, s: System, step: Step, id: nat)
    requires Enabled(s, step)
    ensures var s' := Apply(st, s, step);
            && Count(s'.accepts, id) == Count(s.accepts, id) + (if Accepts(s, step, id) then 1 else 0)
            && Count(s'.lost, id) == Count(s.lost, id) + (if Loses(s, step, id) then 1 else 0)
            && Count(s'.interrupts, id) == Count(s.interrupts, id) + (if Interrupts(s, step, id) then 1 else 0)
  {
    if !step.SendAccepted? && !step.SendLost? && !step.MarkSentCommits? && !step.MarkSentFails? && !step.WorkerStops?
       && !step.Crash?
    {
      OtherStepIsQuiet(st, s, step);
    } else {
      WorkerStepCounts(st, s, step, id);
    }
  }

  lemma WorkerStepCounts(st: Settings, s: System, step: Step, id: nat)
    requires Enabled(s, step)
    requires step.SendAccepted? || step.SendLost? || step.MarkSentCommits? || step.MarkSentFails? || step.WorkerStops?
             || step.Crash?
    ensures var s' := Apply(st, s, step);
            && Count(s'.accepts, id) == Count(s.accepts, id) + (if Accepts(s, step, id) then 1 else 0)
            && Count(s'.lost, id) == Count(s.lost, id) + (if Loses(s, step, id) then 1 else 0)
            && Count(s'.interrupts, id) == Count(s.interrupts, id) + (if Interrupts(s, step, id) then 1 else 0)
  {
  }

  lemma {:induction false} RunCounts(st: Settings, s: System, steps: seq<Step>, id: nat)
    requires Runs(st, s, steps)
    ensures var r := After(st, s, steps);
            && Count(r.accepts, id) == Count(s.accepts, id) + Acceptances(st, s, steps, id)
            && Count(r.lost, id) == Count(s.lost, id) + Losses(st, s, steps, id)
            && Count(r.interrupts, id) == Count(s.interrupts, id) + Interruptions(st, s, steps, id)
    decreases |steps|
  {
    if steps == [] {
    } else {
      StepCounts(st, s, steps[0], id);
      RunCounts(st, Apply(st, s, steps[0]), steps[1..], id);
    }
  }

  /**
   Over any run, the acceptances of one part of a row's message are its losses and interruptions, and one more if the
   row is marked sent or its mark is still to come.
   */
  lemma AcceptancesAccounted(st: Settings, clock: int, steps: seq<Step>, id: nat)
    requires Runs(st, Start(clock), steps)
    ensures var r := After(st, Start(clock), steps);
            Acceptances(st, Start(clock), steps, id) ==
              Losses(st, Start(clock), steps, id) + Interruptions(st, Start(clock), steps, id)
              + (if (id < |r.rows| && r.rows[id].status.Sent?) || InTheAir(r, id) then 1 else 0)
  {
    RunCounts(st, Start(clock), steps, id);
    DeliveryAccounting(st, clock, steps, id);
    RunKeepsAccounts(st, Start(clock), steps);
    var r := After(st, Start(clock), steps);
    if InTheAir(r, id) { assert Unsent(r.rows[Batch(r.worker)[0].id]); }
  }

  /** What is on disk. */
  predicate SameTables(s: System, s': System) {
    s'.stored == s.stored && s'.rows == s.rows && s'.events == s.events && s'.log == s.log
  }

  /**
   A crash keeps the tables and forgets the rest: no cycle waits to be stored, no batch is being worked on, and no
   announcement is pending; so two runs that have led to the same tables at the same time go on alike.
   */
  lemma CrashForgets(st: Settings, s: System, t: System, steps: seq<Step>)
    requires SameTables(s, t) && s.clock == t.clock && Runs(st, Apply(st, s, Crash), steps)
    ensures Runs(st, Apply(st, t, Crash), steps)
    ensures SameTables(s, Apply(st, s, Crash))
    ensures SameTables(After(st, Apply(st, s, Crash), steps), After(st, Apply(st, t, Crash), steps))
  {
    var s1, t1 := Apply(st, s, Crash), Apply(st, t, Crash);
    AlikeGoesOn(st, s1, t1, steps);
    SameUncounted(After(st, s1, steps), After(st, t1, steps));
  }

  lemma SameUncounted(s: System, t: System)
    requires Uncounted(s) == Uncounted(t)
    ensures SameTables(s, t)
  {
    assert SameTables(s, Uncounted(s)) && SameTables(t, Uncounted(t));
  }

  /** The state without what the counters have seen. */
  function Uncounted(s: System): System {
    s.(accepts := map[], interrupts := map[], lost := map[])
  }

  lemma StepUncounted(st: Settings, s: System, step: Step)
    requires Enabled(s, step)
    ensures Enabled(Uncounted(s), step)
    ensures Uncounted(Apply(st, s, step)) == Uncounted(Apply(st, Uncounted(s), step))
  {
    if step.Evaluate? || step.PersistCommits? { MarketUncounted(st, s, step); }
  }

  lemma MarketUncounted(st: Settings, s: System, step: Step)
    requires Enabled(s, step) && (step.Evaluate? || step.PersistCommits?)
    ensures Enabled(Uncounted(s), step)
    ensures Uncounted(Apply(st, s, step)) == Uncounted(Apply(st, Uncounted(s), step))
  {
  }

  lemma {:induction false} AlikeGoesOn(st: Settings, s: System, t: System, steps: seq<Step>)
    requires Uncounted(s) == Uncounted(t) && Runs(st, s, steps)
    ensures Runs(st, t, steps) && Uncounted(After(st, s, steps)) == Uncounted(After(st, t, steps))
    decreases |steps|
  {
    if steps == [] {
    } else {
      SameEnabled(s, t, steps[0]);
      StepUncounted(st, s, steps[0]);
      StepUncounted(st, t, steps[0]);
      AlikeGoesOn(st, Apply(st, s, steps[0]), Apply(st, t, steps[0]), steps[1..]);
    }
  }

  lemma SameEnabled(s: System, t: System, step: Step)
    requires Uncounted(s) == Uncounted(t)
    ensures Enabled(s, step) <==> Enabled(t, step)
  {
    assert s.market == Uncounted(s).market && s.worker == Uncounted(s).worker && s.rows == Uncounted(s).rows;
    assert s.events == Uncounted(s).events && s.announcing == Uncounted(s).announcing;
    assert t.market == Uncounted(t).market && t.worker == Uncounted(t).worker && t.rows == Uncounted(t).rows;
    assert t.events == Uncounted(t).events && t.announcing == Uncounted(t).announcing;
  }

  // ---------------------------------------------------------------------------------------------
  // What was evaluated
  // ---------------------------------------------------------------------------------------------

  /** Some step evaluated these coins when the clock stood there. */
  ghost predicate WasEvaluated(st: Settings, s: System, steps: seq<Step>, cycle: Cycle)
    requires Runs(st, s, steps)
    decreases |steps|
  {
    && steps != []
    && ((steps[0] == Evaluate(cycle.coins) && s.clock == cycle.now)
        || WasEvaluated(st, Apply(st, s, steps[0]), steps[1..], cycle))
  }

  /** Of the cycle waiting to be stored, and of the committed ones, all come from before or from the run. */
  lemma {:induction false} CyclesWereEvaluated(st: Settings, s: System, steps: seq<Step>, cycle: Cycle)
    requires Runs(st, s, steps)
    ensures var r := After(st, s, steps);
            (cycle in r.log || (r.market.MarketReady? && r.market.cycle == cycle)) ==>
              cycle in s.log || (s.market.MarketReady? && s.market.cycle == cycle) || WasEvaluated(st, s, steps, cycle)
    decreases |steps|
  {
    if steps == [] {
    } else {
      var s1 := Apply(st, s, steps[0]);
      CyclesWereEvaluated(st, s1, steps[1..], cycle);
      if cycle in s1.log || (s1.market.MarketReady? && s1.market.cycle == cycle) {
        StepKeepsCycle(st, s, steps[0], cycle);
      }
    }
  }

  lemma StepKeepsCycle(st: Settings, s: System, step: Step, cycle: Cycle)
    requires Enabled(s, step)
    requires var s1 := Apply(st, s, step);
             cycle in s1.log || (s1.market.MarketReady? && s1.market.cycle == cycle)
    ensures || cycle in s.log || (s.market.MarketReady? && s.market.cycle == cycle)
            || (step == Evaluate(cycle.coins) && s.clock == cycle.now)
  {
    if !step.Evaluate? && !step.PersistCommits? { OthersKeepCycles(st, s, step); }
  }

  lemma OthersKeepCycles(st: Settings, s: System, step: Step)
    requires Enabled(s, step) && !step.Evaluate? && !step.PersistCommits?
    ensures Apply(st, s, step).log == s.log
    ensures Apply(st, s, step).market == s.market || Apply(st, s, step).market == MarketIdle
  {
  }

  /** Every committed cycle is one that the run evaluated, with its coins and the time the clock showed then. */
  lemma LoggedWereEvaluated(st: Settings, clock: int, steps: seq<Step>, k: nat)
    requires Runs(st, Start(clock), steps) && k < |After(st, Start(clock), steps).log|
    ensures WasEvaluated(st, Start(clock), steps, After(st, Start(clock), steps).log[k])
  {
    CyclesWereEvaluated(st, Start(clock), steps, After(st, Start(clock), steps).log[k]);
  }
}
