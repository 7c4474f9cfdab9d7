/**
 How long a poll may come after the expiry of its iteration for the bounds on failed attempts to hold: a thousand
 seconds, and not a second more.
 */
module PipelineLimit {
  import opened Wrappers
  import opened AlertMachine
  import opened AlertTrace
  import opened DedupeKeys
  import opened Outbox
  import opened Pipeline
  import opened PipelineBounds

  predicate DefaultAges(st: Settings) {
    st.alertAge == 7200 && st.listingAge == 86400
  }

  predicate WithinBound(row: Row) {
    row.attempts <= if row.origin.Some? then 30 else 8
  }

  /** A run with a forward clock whose polls come less than `gap` seconds after their expiry. */
  predicate Prompt(st: Settings, s: System, steps: seq<Step>, gap: nat) {
    Runs(st, s, steps) && Forward(st, s, steps) && PollsPrompt(st, s, steps, gap)
  }

  /** The bounds hold of every row of every such run, for all settings with the default ages. */
  ghost predicate BoundsHold(gap: nat) {
    forall st: Settings, clock: int, steps: seq<Step>, id: nat ::
      DefaultAges(st) && Prompt(st, Start(clock), steps, gap) && id < |After(st, Start(clock), steps).rows| ==>
        WithinBound(After(st, Start(clock), steps).rows[id])
  }

  lemma {:induction false} SmallerGap(st: Settings, s: System, steps: seq<Step>, gap: nat, larger: nat)
    requires Prompt(st, s, steps, gap) && gap <= larger
    ensures Prompt(st, s, steps, larger)
    decreases |steps|
  {
    if steps == [] {
    } else {
      SmallerGap(st, Apply(st, s, steps[0]), steps[1..], gap, larger);
    }
  }

  // ---------------------------------------------------------------------------------------------
  // A row that fails once too often
  // ---------------------------------------------------------------------------------------------

  lemma PromptPrepends(st: Settings, s: System, step: Step, rest: seq<Step>, gap: nat)
    requires Enabled(s, step) && ClockForward(s, step) && (step.Poll? ==> s.clock - s.worker.expiredAt < gap)
    requires Prompt(st, Apply(st, s, step), rest, gap)
    ensures Prompt(st, s, [step] + rest, gap)
    ensures After(st, s, [step] + rest) == After(st, Apply(st, s, step), rest)
  {
    assert ([step] + rest)[1..] == rest;
  }

  lemma {:induction false} PromptJoin(st: Settings, s: System, first: seq<Step>, second: seq<Step>, gap: nat)
    requires Prompt(st, s, first, gap) && Prompt(st, After(st, s, first), second, gap)
    ensures Prompt(st, s, first + second, gap)
    ensures After(st, s, first + second) == After(st, After(st, s, first), second)
    decreases |first|
  {
    if first == [] {
      assert first + second == second;
    } else {
      assert (first + second)[1..] == first[1..] + second;
      PromptJoin(st, Apply(st, s, first[0]), first[1..], second, gap);
    }
  }

  const Eager := Settings(Config(1, 3, 0, 300, true, false, false), 7200, 86400, false)

  const Outset: seq<Step> := [Evaluate(["A"])] + ([PersistCommits] + [])

  /** Only row 0 is in the outbox; it is an alert of second 0 and has failed `k` times, each time it was due. */
  ghost predicate HasFailed(s: System, k: nat) {
    && s.worker == WorkerIdle
    && |s.rows| == 1 && Unsent(s.rows[0]) && s.rows[0].origin.None?
    && s.rows[0].createdAt == 0 && s.rows[0].attempts == k
    && s.rows[0].nextAttemptAt == (if k == 0 then None else Some(TotalDelay(k)))
    && s.clock == (if k == 0 then 0 else TotalDelay(k - 1))
  }

  lemma OutsetRuns(gap: nat)
    ensures Prompt(Eager, Start(0), Outset, gap) && HasFailed(After(Eager, Start(0), Outset), 0)
  {
    var s1 := Apply(Eager, Start(0), Evaluate(["A"]));
    assert s1.market.MarketReady? && KindOf(s1.market.decision) == Some(TransitionMessage);
    PromptPrepends(Eager, s1, PersistCommits, [], gap);
    PromptPrepends(Eager, Start(0), Evaluate(["A"]), [PersistCommits] + [], gap);
  }

  /** One iteration in which the row fails: it expires at one second and polls at another. */
  function FailSteps(expiry: int, poll: int): seq<Step> {
    [Tick(expiry)] +
    ([Expire] + ([Tick(poll)] + ([Poll] + ([SendFails(None)] + ([MarkRetryCommits] + ([BatchDone] + []))))))
  }

  /** Up to the poll nothing happens to a row that is not too old. */
  lemma PollFinds(s: System, k: nat, expiry: int, poll: int)
    requires HasFailed(s, k) && s.clock <= expiry <= poll && expiry <= 7200
    requires k > 0 ==> TotalDelay(k) <= poll
    ensures var s1 := Apply(Eager, s, Tick(expiry));
            var s2 := Apply(Eager, s1, Expire);
            var s3 := Apply(Eager, s2, Tick(poll));
            && Enabled(s1, Expire) && Enabled(s3, Poll)
            && s3.worker == Polling(expiry) && s3.clock == poll && s3.rows == s.rows
            && Apply(Eager, s3, Poll).worker == Delivering([Job(0, k)])
  {
    var s3 := Apply(Eager, Apply(Eager, Apply(Eager, s, Tick(expiry)), Expire), Tick(poll));
    assert s3.rows == s.rows;
    assert DueFrom(s3.rows, poll, 1, 99) == [];
    assert DueFrom(s3.rows, poll, 0, 100) == [0];
  }

  /** From the poll on the row fails once more. */
  lemma FailsOnce(s: System, k: nat, poll: int)
    requires s.worker == Delivering([Job(0, k)]) && s.clock == poll
    requires |s.rows| == 1 && Unsent(s.rows[0]) && s.rows[0].attempts == k
    ensures var s1 := Apply(Eager, s, SendFails(None));
            var s2 := Apply(Eager, s1, MarkRetryCommits);
            && Enabled(s, SendFails(None)) && Enabled(s1, MarkRetryCommits) && Enabled(s2, BatchDone)
            && Apply(Eager, s2, BatchDone) ==
               s.(rows := [MarkedRetry(s.rows[0], poll + RetryDelay(k + 1))], worker := WorkerIdle)
  {
    var s2 := Apply(Eager, Apply(Eager, s, SendFails(None)), MarkRetryCommits);
    assert s2.rows == [MarkedRetry(s.rows[0], poll + RetryDelay(k + 1))];
    assert s2.worker == Delivering([]);
  }

  lemma FailRuns(s: System, k: nat, expiry: int, poll: int, gap: nat)
    requires HasFailed(s, k) && s.clock <= expiry <= poll && expiry <= 7200 && poll - expiry < gap
    requires k > 0 ==> TotalDelay(k) <= poll
    ensures Prompt(Eager, s, FailSteps(expiry, poll), gap)
    ensures var r := After(Eager, s, FailSteps(expiry, poll));
            && r.worker == WorkerIdle && r.clock == poll
            && r.rows == [MarkedRetry(s.rows[0], poll + RetryDelay(k + 1))]
  {
    PollFinds(s, k, expiry, poll);
    var s1 := Apply(Eager, s, Tick(expiry));
    var s2 := Apply(Eager, s1, Expire);
    var s3 := Apply(Eager, s2, Tick(poll));
    var s4 := Apply(Eager, s3, Poll);
    FailsOnce(s4, k, poll);
    var s5 := Apply(Eager, s4, SendFails(None));
    var s6 := Apply(Eager, s5, MarkRetryCommits);
    var last := [BatchDone] + [];
    PromptPrepends(Eager, s6, BatchDone, [], gap);
    PromptPrepends(Eager, s5, MarkRetryCommits, last, gap);
    PromptPrepends(Eager, s4, SendFails(None), [MarkRetryCommits] + last, gap);
    var sends := [SendFails(None)] + ([MarkRetryCommits] + last);
    PromptPrepends(Eager, s3, Poll, sends, gap);
    PromptPrepends(Eager, s2, Tick(poll), [Poll] + sends, gap);
    PromptPrepends(Eager, s1, Expire, [Tick(poll)] + ([Poll] + sends), gap);
    PromptPrepends(Eager, s, Tick(expiry), [Expire] + ([Tick(poll)] + ([Poll] + sends)), gap);
  }

  /** The row fails whenever it is due. */
  function FailingSteps(k: nat): seq<Step> {
    if k == 0 then Outset else FailingSteps(k - 1) + FailSteps(TotalDelay(k - 1), TotalDelay(k - 1))
  }

  lemma DueInTime(k: nat)
    requires 1 <= k <= 8
    ensures TotalDelay(k - 1) <= 4600 && TotalDelay(k) == TotalDelay(k - 1) + RetryDelay(k)
    ensures k > 1 ==> TotalDelay(k - 2) <= TotalDelay(k - 1)
  {
    TotalDelayOfEight();
    TotalDelayGrows(k - 1, 7);
    if k > 1 { TotalDelayGrows(k - 2, k - 1); }
  }

  lemma FailsAgain(s: System, k: nat, gap: nat)
    requires 1 <= k <= 8 && gap >= 1 && HasFailed(s, k - 1)
    ensures var steps := FailSteps(TotalDelay(k - 1), TotalDelay(k - 1));
            Prompt(Eager, s, steps, gap) && HasFailed(After(Eager, s, steps), k)
  {
    DueInTime(k);
    FailRuns(s, k - 1, TotalDelay(k - 1), TotalDelay(k - 1), gap);
  }

  lemma {:induction false} FailsWhenDue(k: nat, gap: nat)
    requires k <= 8 && gap >= 1
    ensures Prompt(Eager, Start(0), FailingSteps(k), gap)
    ensures HasFailed(After(Eager, Start(0), FailingSteps(k)), k)
    decreases k
  {
    if k == 0 {
      OutsetRuns(gap);
    } else {
      FailsWhenDue(k - 1, gap);
      FailsAgain(After(Eager, Start(0), FailingSteps(k - 1)), k, gap);
      PromptJoin(Eager, Start(0), FailingSteps(k - 1), FailSteps(TotalDelay(k - 1), TotalDelay(k - 1)), gap);
    }
  }

  /** Due again at second 8200, the row is spared by an expiry at 7200 if the poll may come 1000 seconds later. */
  lemma NinthFailure(gap: nat)
    requires gap > 1000
    ensures var steps := FailingSteps(8) + FailSteps(7200, 8200);
            && Prompt(Eager, Start(0), steps, gap)
            && |After(Eager, Start(0), steps).rows| == 1 && After(Eager, Start(0), steps).rows[0].attempts == 9
            && After(Eager, Start(0), steps).rows[0].origin.None?
  {
    FailsWhenDue(8, gap);
    TotalDelayOfEight();
    FailRuns(After(Eager, Start(0), FailingSteps(8)), 8, 7200, 8200, gap);
    PromptJoin(Eager, Start(0), FailingSteps(8), FailSteps(7200, 8200), gap);
  }

  /**
   With the default ages, no alert row of any run records more than 8 failed attempts and no listing row more than
   30, if and only if polls come at most 999 seconds after the expiry of their iteration.
   */
  lemma BoundsHoldExactly(gap: nat)
    ensures BoundsHold(gap) <==> gap <= 1000
  {
    if gap <= 1000 {
      forall st: Settings, clock: int, steps: seq<Step>, id: nat
        | DefaultAges(st) && Prompt(st, Start(clock), steps, gap) && id < |After(st, Start(clock), steps).rows|
        ensures WithinBound(After(st, Start(clock), steps).rows[id])
      {
        SmallerGap(st, Start(clock), steps, gap, 1000);
        RetryBound(st, clock, steps, id);
      }
    } else {
      NinthFailure(gap);
      var steps := FailingSteps(8) + FailSteps(7200, 8200);
      assert DefaultAges(Eager) && !WithinBound(After(Eager, Start(0), steps).rows[0]);
    }
  }
}
