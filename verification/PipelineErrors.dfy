/**
 The division by a composition cooldown of zero seconds: exactly which cycles end in it, in which configurations
 it can happen at all, and what it does to the pipeline. A cycle that ends in it is evaluated before anything is
 stored, so the state that made it fail stays, and the same coins fail again.
 */
module PipelineErrors {
  import opened Wrappers
  import opened AlertMachine
  import opened AlertTrace
  import opened DedupeKeys
  import opened Outbox
  import opened Pipeline
  import opened PipelineBounds

  /** Evaluating the coins now ends in the error. */
  predicate Errs(st: Settings, s: System, coins: seq<string>) {
    s.market.MarketIdle? && Apply(st, s, Evaluate(coins)).market.MarketIdle?
  }

  /** What can be said of it beforehand: the coins change while the active range is settled. */
  predicate ChangesSettled(cfg: Config, st: AlertState, coins: seq<string>) {
    && cfg.cooldown == 0 && cfg.compositionAlerts
    && cfg.minCoins <= |coins| <= cfg.maxCoins
    && st.range.ActiveRange? && st.pendingSince.None? && coins != st.fingerprint
  }

  /** Without a cooldown no composition is ever stored. */
  predicate NoCompositionStored(st: Settings, s: System) {
    st.alerts.cooldown == 0 ==>
      && Stored(s).lastCompositionAt.None?
      && (s.market.MarketReady? ==> s.market.next.lastCompositionAt.None?)
  }

  lemma ErrsExactlyAt(st: Settings, s: System, coins: seq<string>)
    requires s.market.MarketIdle? && NoCompositionStored(st, s)
    ensures Errs(st, s, coins) <==> ChangesSettled(st.alerts, Stored(s), coins)
  {
  }

  /** Steps other than evaluating and storing concern no alert state. */
  lemma OthersKeepStored(st: Settings, s: System, step: Step)
    requires Enabled(s, step) && !step.Evaluate? && !step.PersistCommits?
    ensures Apply(st, s, step).stored == s.stored && Apply(st, s, step).log == s.log
    ensures Apply(st, s, step).market == s.market || Apply(st, s, step).market == MarketIdle
  {
  }

  lemma StepStoresNoComposition(st: Settings, s: System, step: Step)
    requires NoCompositionStored(st, s) && Enabled(s, step)
    ensures NoCompositionStored(st, Apply(st, s, step))
  {
    if !step.Evaluate? && !step.PersistCommits? { OthersKeepStored(st, s, step); }
  }

  lemma {:induction false} RunStoresNoComposition(st: Settings, s: System, steps: seq<Step>)
    requires NoCompositionStored(st, s) && Runs(st, s, steps)
    ensures NoCompositionStored(st, After(st, s, steps))
    decreases |steps|
  {
    if steps == [] {
    } else {
      StepStoresNoComposition(st, s, steps[0]);
      RunStoresNoComposition(st, Apply(st, s, steps[0]), steps[1..]);
    }
  }

  /**
   In every reachable state between two cycles, evaluating some coins ends in the error if and only if the
   cooldown is zero, compositions are announced, the count is in range, and the stored state is active, settled
   and of other coins.
   */
  lemma ErrsExactly(st: Settings, clock: int, steps: seq<Step>, coins: seq<string>)
    requires Runs(st, Start(clock), steps) && After(st, Start(clock), steps).market.MarketIdle?
    ensures var s := After(st, Start(clock), steps);
            Errs(st, s, coins) <==> ChangesSettled(st.alerts, Stored(s), coins)
  {
    RunStoresNoComposition(st, Start(clock), steps);
    ErrsExactlyAt(st, After(st, Start(clock), steps), coins);
  }

  // ---------------------------------------------------------------------------------------------
  // The state stays frozen
  // ---------------------------------------------------------------------------------------------

  /** Only a cycle that commits changes the stored state, and every one that does is logged. */
  lemma {:induction false} UnloggedUnstored(st: Settings, s: System, steps: seq<Step>)
    requires Runs(st, s, steps)
    ensures |s.log| <= |After(st, s, steps).log|
    ensures |After(st, s, steps).log| == |s.log| ==> After(st, s, steps).stored == s.stored
    decreases |steps|
  {
    if steps == [] {
    } else {
      if !steps[0].Evaluate? && !steps[0].PersistCommits? { OthersKeepStored(st, s, steps[0]); }
      UnloggedUnstored(st, Apply(st, s, steps[0]), steps[1..]);
    }
  }

  /** As long as no cycle commits, the coins that failed go on failing, at any later second and after any restart. */
  lemma GoesOnErring(st: Settings, clock: int, before: seq<Step>, later: seq<Step>, coins: seq<string>)
    requires Runs(st, Start(clock), before) && Errs(st, After(st, Start(clock), before), coins)
    requires Runs(st, After(st, Start(clock), before), later)
    requires var s, s' := After(st, Start(clock), before), After(st, After(st, Start(clock), before), later);
             s'.market.MarketIdle? && |s'.log| == |s.log|
    ensures Errs(st, After(st, After(st, Start(clock), before), later), coins)
  {
    var s := After(st, Start(clock), before);
    RunStoresNoComposition(st, Start(clock), before);
    ErrsExactlyAt(st, s, coins);
    UnloggedUnstored(st, s, later);
    RunStoresNoComposition(st, s, later);
    ErrsExactlyAt(st, After(st, s, later), coins);
  }

  /** Every cycle of the run evaluates the same coins. */
  predicate OnlyEvaluates(steps: seq<Step>, coins: seq<string>) {
    forall i | 0 <= i < |steps| && steps[i].Evaluate? :: steps[i].coins == coins
  }

  /** The market loop does nothing but fail. */
  predicate Frozen(st: Settings, s: System, coins: seq<string>) {
    s.market.MarketIdle? && NoCompositionStored(st, s) && ChangesSettled(st.alerts, Stored(s), coins)
  }

  lemma StepKeepsFrozen(st: Settings, s: System, step: Step, coins: seq<string>)
    requires Frozen(st, s, coins) && Enabled(s, step) && (step.Evaluate? ==> step.coins == coins)
    ensures var s' := Apply(st, s, step);
            Frozen(st, s', coins) && s'.stored == s.stored && s'.log == s.log && AlertRows(s'.rows) == AlertRows(s.rows)
  {
    if step.Evaluate? {
      ErrsExactlyAt(st, s, coins);
    } else {
      OthersKeepStored(st, s, step);
      OthersKeepAlerts(st, s, step);
    }
  }

  /**
   While the market shows the coins that failed and no others, nothing is stored and nothing is announced, through
   any restarts and however long the run.
   */
  lemma {:induction false} StateStaysFrozen(st: Settings, s: System, steps: seq<Step>, coins: seq<string>)
    requires Frozen(st, s, coins) && Runs(st, s, steps) && OnlyEvaluates(steps, coins)
    ensures var s' := After(st, s, steps);
            Frozen(st, s', coins) && s'.stored == s.stored && s'.log == s.log && AlertRows(s'.rows) == AlertRows(s.rows)
    decreases |steps|
  {
    if steps == [] {
    } else {
      StepKeepsFrozen(st, s, steps[0], coins);
      assert forall i | 0 <= i < |steps[1..]| :: steps[1..][i] == steps[i + 1];
      StateStaysFrozen(st, Apply(st, s, steps[0]), steps[1..], coins);
    }
  }

  /** The same from any reachable state in which the coins fail. */
  lemma ErrorFreezes(st: Settings, clock: int, before: seq<Step>, later: seq<Step>, coins: seq<string>)
    requires Runs(st, Start(clock), before) && Errs(st, After(st, Start(clock), before), coins)
    requires Runs(st, After(st, Start(clock), before), later) && OnlyEvaluates(later, coins)
    ensures var s, s' := After(st, Start(clock), before), After(st, After(st, Start(clock), before), later);
            && Errs(st, s', coins)
            && Stored(s') == Stored(s) && s'.log == s.log && AlertRows(s'.rows) == AlertRows(s.rows)
  {
    var s := After(st, Start(clock), before);
    RunStoresNoComposition(st, Start(clock), before);
    ErrsExactlyAt(st, s, coins);
    StateStaysFrozen(st, s, later, coins);
    ErrsExactlyAt(st, After(st, s, later), coins);
  }

  // ---------------------------------------------------------------------------------------------
  // The configurations
  // ---------------------------------------------------------------------------------------------

  /** No evaluation of any run ends in the error. */
  ghost predicate NeverErrs(st: Settings) {
    forall clock: int, steps: seq<Step>, coins: seq<string> ::
      Runs(st, Start(clock), steps) ==> !Errs(st, After(st, Start(clock), steps), coins)
  }

  /** Two cycles with the same coins, a debounce apart, settle the active range. */
  function SettleSteps(cfg: Config, coins: seq<string>): seq<Step> {
    [Evaluate(coins)] + ([PersistCommits] + ([Tick(cfg.debounce)] + ([Evaluate(coins)] + ([PersistCommits] + []))))
  }

  /** The first cycle enters the active range, and announces at most itself. */
  lemma FirstCycle(st: Settings, coins: seq<string>)
    requires st.alerts.minCoins <= |coins| <= st.alerts.maxCoins
    ensures ReadyAfter(st, Start(0), coins)
    ensures var s := Apply(st, Apply(st, Start(0), Evaluate(coins)), PersistCommits);
            && s.market.MarketIdle? && Stored(s).range.ActiveRange? && Stored(s).fingerprint == coins
            && Stored(s).pendingSince == (if st.alerts.debounce == 0 then None else Some(0))
            && (st.alerts.debounce > 0 ==> s.rows == [])
            && (st.alerts.debounce == 0 && st.alerts.hourlyAlerts ==> Stored(s).lastHourlyBucket == Some(0))
            && s.clock == 0
  {
  }

  /** The second one settles it. */
  lemma SecondCycle(st: Settings, s: System, coins: seq<string>)
    requires st.alerts.minCoins <= |coins| <= st.alerts.maxCoins && s.clock == st.alerts.debounce
    requires s.market.MarketIdle? && Stored(s).range.ActiveRange? && Stored(s).fingerprint == coins
    requires Stored(s).pendingSince == (if st.alerts.debounce == 0 then None else Some(0))
    requires st.alerts.debounce > 0 ==> s.rows == []
    requires st.alerts.debounce == 0 && st.alerts.hourlyAlerts ==> Stored(s).lastHourlyBucket == Some(0)
    ensures ReadyAfter(st, s, coins)
    ensures var s' := Apply(st, Apply(st, s, Evaluate(coins)), PersistCommits);
            && s'.market.MarketIdle? && Stored(s').range.ActiveRange? && Stored(s').fingerprint == coins
            && Stored(s').pendingSince.None?
  {
    var cycle := Cycle(coins, s.clock);
    assert !Recomposes(st.alerts, Stored(s), cycle);
    if st.alerts.debounce == 0 { assert KindOf(DecisionOf(st.alerts, Stored(s), cycle)).None?; }
  }

  lemma SettlesActive(st: Settings, coins: seq<string>)
    requires st.alerts.minCoins <= |coins| <= st.alerts.maxCoins
    ensures var steps := SettleSteps(st.alerts, coins);
            && Runs(st, Start(0), steps) && Forward(st, Start(0), steps)
            && var s := After(st, Start(0), steps);
               && s.market.MarketIdle? && Stored(s).range.ActiveRange?
               && Stored(s).fingerprint == coins && Stored(s).pendingSince.None?
  {
    FirstCycle(st, coins);
    var s1 := Apply(st, Apply(st, Start(0), Evaluate(coins)), PersistCommits);
    var s2 := Apply(st, s1, Tick(st.alerts.debounce));
    SecondCycle(st, s2, coins);
    CyclePrepends(st, s2, coins, []);
    var rest := [Evaluate(coins)] + ([PersistCommits] + []);
    ForwardPrepends(st, s1, Tick(st.alerts.debounce), rest);
    CyclePrepends(st, Start(0), coins, [Tick(st.alerts.debounce)] + rest);
  }

  /** Changing the coins of a settled range fails. */
  lemma ChangeErrs(st: Settings, n: nat)
    requires st.alerts.cooldown == 0 && st.alerts.compositionAlerts
    requires st.alerts.minCoins <= n <= st.alerts.maxCoins && n >= 1
    ensures var steps := SettleSteps(st.alerts, CoinList(0, n));
            && Runs(st, Start(0), steps) && Forward(st, Start(0), steps)
            && Errs(st, After(st, Start(0), steps), CoinList(1, n))
  {
    SettlesActive(st, CoinList(0, n));
    assert CoinList(0, n)[0] == Letters(1) && CoinList(1, n)[0] == Letters(2) && |Letters(1)| != |Letters(2)|;
    ErrsExactly(st, 0, SettleSteps(st.alerts, CoinList(0, n)), CoinList(1, n));
  }

  /**
   No run ever ends a cycle in the error if and only if there is a cooldown, or no composition is announced, or no
   non-empty list of coins is in range.
   */
  lemma NeverErrsExactly(st: Settings)
    ensures NeverErrs(st) <==>
            !(st.alerts.cooldown == 0 && st.alerts.compositionAlerts
              && st.alerts.minCoins <= st.alerts.maxCoins && st.alerts.maxCoins >= 1)
  {
    var cfg := st.alerts;
    if cfg.cooldown == 0 && cfg.compositionAlerts && cfg.minCoins <= cfg.maxCoins && cfg.maxCoins >= 1 {
      ChangeErrs(st, if cfg.minCoins >= 1 then cfg.minCoins else 1);
    } else {
      forall clock: int, steps: seq<Step>, coins: seq<string> | Runs(st, Start(clock), steps)
        ensures !Errs(st, After(st, Start(clock), steps), coins)
      {
        NoErrorHere(st, clock, steps, coins);
      }
    }
  }

  lemma NoErrorHere(st: Settings, clock: int, steps: seq<Step>, coins: seq<string>)
    requires Runs(st, Start(clock), steps)
    requires !(st.alerts.cooldown == 0 && st.alerts.compositionAlerts
               && st.alerts.minCoins <= st.alerts.maxCoins && st.alerts.maxCoins >= 1)
    ensures !Errs(st, After(st, Start(clock), steps), coins)
  {
    var s := After(st, Start(clock), steps);
    if Errs(st, s, coins) {
      ErrsExactly(st, clock, steps, coins);
      RunRefines(st, Start(clock), steps);
      ActiveFingerprintInRange(st.alerts, s.log);
      assert false;
    }
  }

  /** The coins of an active stored state are in range. */
  lemma ActiveFingerprintInRange(cfg: Config, log: seq<Cycle>)
    ensures StateAfter(cfg, log).range.ActiveRange? ==>
              cfg.minCoins <= |StateAfter(cfg, log).fingerprint| <= cfg.maxCoins
  {
  }
}
