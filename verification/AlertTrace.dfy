/**
 The alert policy over whole runs. A run is the sequence of cycles whose transaction committed; since every
 cycle starts from the stored state, restarts between two of them leave no trace here.
 */
module AlertTrace {
  import opened Wrappers
  import opened AlertMachine
  import opened Ordering

  /** The stored state after the cycles, from an empty store. */
  function StateAfter(cfg: Config, cycles: seq<Cycle>): AlertState
    decreases |cycles|
  {
    if cycles == [] then InitialState
    else NextState(cfg, StateAfter(cfg, cycles[..|cycles| - 1]), cycles[|cycles| - 1])
  }

  /** The stored state cycle `i` starts from. */
  function Before(cfg: Config, cycles: seq<Cycle>, i: nat): AlertState
    requires i <= |cycles|
  {
    StateAfter(cfg, cycles[..i])
  }

  function DecisionAt(cfg: Config, cycles: seq<Cycle>, i: nat): Decision
    requires i < |cycles|
  {
    DecisionOf(cfg, Before(cfg, cycles, i), cycles[i])
  }

  lemma BeforeNext(cfg: Config, cycles: seq<Cycle>, i: nat)
    requires i < |cycles|
    ensures Before(cfg, cycles, i + 1) == NextState(cfg, Before(cfg, cycles, i), cycles[i])
  {
    assert cycles[..i + 1][..i] == cycles[..i];
  }

  ghost predicate ClockMonotone(cycles: seq<Cycle>) {
    forall i, j | 0 <= i < j < |cycles| :: cycles[i].now <= cycles[j].now
  }

  function Letters(n: nat): string {
    seq(n, _ => 'A')
  }

  lemma {:induction false} LettersBelow(m: nat, n: nat)
    requires m < n
    ensures Below(Letters(m), Letters(n))
    decreases m
  {
    if m == 0 {
    } else {
      LettersBelow(m - 1, n - 1);
      assert Letters(m)[1..] == Letters(m - 1) && Letters(n)[1..] == Letters(n - 1);
    }
  }

  /** A sorted list of `n` different coins; lists with different first coins are different. */
  function CoinList(first: nat, n: nat): seq<string> {
    seq(n, k requires 0 <= k < n => Letters(first + k + 1))
  }

  lemma CoinListAscends(first: nat, n: nat)
    ensures Ascending(CoinList(first, n))
  {
    forall i, j | 0 <= i < j < n ensures Below(CoinList(first, n)[i], CoinList(first, n)[j]) {
      LettersBelow(first + i + 1, first + j + 1);
    }
  }

  predicate Active(cfg: Config, cycles: seq<Cycle>, i: nat)
    requires i < |cycles|
  {
    cfg.minCoins <= |cycles[i].coins| <= cfg.maxCoins
  }

  // ---------------------------------------------------------------------------------------------
  // Debounce
  // ---------------------------------------------------------------------------------------------

  /** The first cycle of the unbroken active episode that contains cycle `i`. */
  function EpisodeStart(cfg: Config, cycles: seq<Cycle>, i: nat): (e: nat)
    requires i < |cycles| && Active(cfg, cycles, i)
    ensures e <= i
    ensures forall k | e <= k <= i :: Active(cfg, cycles, k)
    ensures e == 0 || !Active(cfg, cycles, e - 1)
  {
    if i == 0 || !Active(cfg, cycles, i - 1) then i else EpisodeStart(cfg, cycles, i - 1)
  }

  /** The range the episode of cycle `i` was entered from. */
  function EnteredFrom(cfg: Config, cycles: seq<Cycle>, i: nat): Range
    requires i < |cycles| && Active(cfg, cycles, i)
  {
    var e := EpisodeStart(cfg, cycles, i);
    if e == 0 || |cycles[e - 1].coins| < cfg.minCoins then Empty else OverRange
  }

  /**
   Decision and stored state name the range of the cycle's count: empty below the minimum, active from it to the
   maximum, and otherwise over; the state keeps the coins and the time of its cycle.
   */
  lemma RangesExactly(cfg: Config, cycles: seq<Cycle>, i: nat)
    requires i < |cycles|
    ensures var count, range := |cycles[i].coins|, DecisionAt(cfg, cycles, i).range;
            && (range.Empty? <==> count < cfg.minCoins)
            && (range.ActiveRange? <==> cfg.minCoins <= count <= cfg.maxCoins)
            && (range.OverRange? <==> count >= cfg.minCoins && count > cfg.maxCoins)
    ensures var st := Before(cfg, cycles, i + 1);
            && st.range == DecisionAt(cfg, cycles, i).range
            && st.fingerprint == DecisionAt(cfg, cycles, i).fingerprint == cycles[i].coins
            && st.updatedAt == cycles[i].now
  {
    BeforeNext(cfg, cycles, i);
  }

  /** At cycle `k` the debounce of the episode that starts at `e` has run for long enough. */
  predicate Ripe(cfg: Config, cycles: seq<Cycle>, e: nat, k: nat)
    requires e < |cycles| && k < |cycles|
  {
    cycles[k].now - cycles[e].now >= cfg.debounce
  }

  /** Some cycle of the episode before the `n`-th was ripe. */
  ghost predicate RipeBefore(cfg: Config, cycles: seq<Cycle>, e: nat, n: nat)
    requires e < |cycles| && n <= |cycles|
  {
    exists k :: e <= k < n && Ripe(cfg, cycles, e, k)
  }

  /** What the stored debounce fields say after the first `n` cycles, the last of them active. */
  ghost predicate EpisodeState(cfg: Config, cycles: seq<Cycle>, n: nat)
    requires 0 < n <= |cycles| && Active(cfg, cycles, n - 1)
  {
    var st := Before(cfg, cycles, n);
    var e := EpisodeStart(cfg, cycles, n - 1);
    if RipeBefore(cfg, cycles, e, n)
    then st.pendingSince == None && st.pendingFrom == None
    else st.pendingSince == Some(cycles[e].now) && st.pendingFrom == Some(EnteredFrom(cfg, cycles, n - 1))
  }

  ghost predicate DebounceState(cfg: Config, cycles: seq<Cycle>, n: nat)
    requires n <= |cycles|
  {
    var st := Before(cfg, cycles, n);
    if n == 0 then st == InitialState
    else
      && st.range == DecisionAt(cfg, cycles, n - 1).range
      && (st.range.ActiveRange? <==> Active(cfg, cycles, n - 1))
      && (st.range.Empty? <==> |cycles[n - 1].coins| < cfg.minCoins)
      && if Active(cfg, cycles, n - 1) then EpisodeState(cfg, cycles, n)
         else st.pendingSince == None && st.pendingFrom == None
  }

  lemma EpisodeGoesOn(cfg: Config, cycles: seq<Cycle>, i: nat)
    requires 0 < i < |cycles| && Active(cfg, cycles, i) && Active(cfg, cycles, i - 1)
    ensures EpisodeStart(cfg, cycles, i) == EpisodeStart(cfg, cycles, i - 1)
    ensures EnteredFrom(cfg, cycles, i) == EnteredFrom(cfg, cycles, i - 1)
    ensures var e := EpisodeStart(cfg, cycles, i);
            RipeBefore(cfg, cycles, e, i + 1) <==> RipeBefore(cfg, cycles, e, i) || Ripe(cfg, cycles, e, i)
  {
  }

  lemma EpisodeBegins(cfg: Config, cycles: seq<Cycle>, i: nat)
    requires i < |cycles| && Active(cfg, cycles, i) && (i == 0 || !Active(cfg, cycles, i - 1))
    ensures EpisodeStart(cfg, cycles, i) == i
    ensures RipeBefore(cfg, cycles, i, i + 1) <==> Ripe(cfg, cycles, i, i)
    ensures !RipeBefore(cfg, cycles, i, i)
  {
  }

  lemma DebounceStateStep(cfg: Config, cycles: seq<Cycle>, n: nat)
    requires n < |cycles| && DebounceState(cfg, cycles, n)
    ensures DebounceState(cfg, cycles, n + 1)
  {
    BeforeNext(cfg, cycles, n);
    if Active(cfg, cycles, n) {
      if n > 0 && Active(cfg, cycles, n - 1) {
        EpisodeGoesOn(cfg, cycles, n);
      } else {
        EpisodeBegins(cfg, cycles, n);
      }
    }
  }

  lemma {:induction false} DebounceStateHolds(cfg: Config, cycles: seq<Cycle>, n: nat)
    requires n <= |cycles|
    ensures DebounceState(cfg, cycles, n)
  {
    if n == 0 {
    } else {
      DebounceStateHolds(cfg, cycles, n - 1);
      DebounceStateStep(cfg, cycles, n - 1);
    }
  }

  /**
   A live transition fires at a cycle if and only if it is the first cycle of its active episode that comes
   at least the debounce after the episode's first one; the origin it names is the range the episode was
   entered from, never the active range itself. No assumption on the clock is made.
   */
  lemma ExactDebounce(cfg: Config, cycles: seq<Cycle>, i: nat)
    requires i < |cycles| && cfg.transitionAlerts
    ensures DecisionAt(cfg, cycles, i).transition <==>
              && Active(cfg, cycles, i)
              && var e := EpisodeStart(cfg, cycles, i);
                 Ripe(cfg, cycles, e, i) && forall k | e <= k < i :: !Ripe(cfg, cycles, e, k)
    ensures DecisionAt(cfg, cycles, i).transition ==>
              && DecisionAt(cfg, cycles, i).origin == Some(EnteredFrom(cfg, cycles, i))
              && !EnteredFrom(cfg, cycles, i).ActiveRange?
  {
    DebounceStateHolds(cfg, cycles, i);
    if Active(cfg, cycles, i) {
      if i > 0 && Active(cfg, cycles, i - 1) {
        EpisodeGoesOn(cfg, cycles, i);
      } else {
        EpisodeBegins(cfg, cycles, i);
      }
      assert RipeBefore(cfg, cycles, EpisodeStart(cfg, cycles, i), i) <==>
             exists k :: EpisodeStart(cfg, cycles, i) <= k < i && Ripe(cfg, cycles, EpisodeStart(cfg, cycles, i), k);
    }
  }

  /** The stored time of the last transition is that of the latest cycle that made one, if any has. */
  ghost predicate TransitionState(cfg: Config, cycles: seq<Cycle>, n: nat)
    requires n <= |cycles|
  {
    var last := Before(cfg, cycles, n).lastTransitionAt;
    if last.None? then forall k | 0 <= k < n :: !DecisionAt(cfg, cycles, k).transition
    else
      exists k :: 0 <= k < n && DecisionAt(cfg, cycles, k).transition && last.value == cycles[k].now
        && forall l | k < l < n :: !DecisionAt(cfg, cycles, l).transition
  }

  lemma {:induction false} TransitionStateHolds(cfg: Config, cycles: seq<Cycle>, n: nat)
    requires n <= |cycles|
    ensures TransitionState(cfg, cycles, n)
  {
    if n == 0 {
    } else {
      TransitionStateHolds(cfg, cycles, n - 1);
      BeforeNext(cfg, cycles, n - 1);
      var before := Before(cfg, cycles, n - 1).lastTransitionAt;
      if !DecisionAt(cfg, cycles, n - 1).transition && before.Some? {
        var k :| 0 <= k < n - 1 && DecisionAt(cfg, cycles, k).transition && before.value == cycles[k].now
          && forall l | k < l < n - 1 :: !DecisionAt(cfg, cycles, l).transition;
        assert forall l | k < l < n :: !DecisionAt(cfg, cycles, l).transition;
      }
    }
  }

  /** An episode has at most one live transition. */
  lemma OneTransitionPerEpisode(cfg: Config, cycles: seq<Cycle>, i: nat, j: nat)
    requires i < j < |cycles| && cfg.transitionAlerts
    requires DecisionAt(cfg, cycles, i).transition && DecisionAt(cfg, cycles, j).transition
    ensures Active(cfg, cycles, i) && Active(cfg, cycles, j)
    ensures i < EpisodeStart(cfg, cycles, j)
  {
    ExactDebounce(cfg, cycles, i);
    ExactDebounce(cfg, cycles, j);
    if EpisodeStart(cfg, cycles, j) <= i { SameEpisode(cfg, cycles, i, j); }
  }

  lemma {:induction false} SameEpisode(cfg: Config, cycles: seq<Cycle>, i: nat, j: nat)
    requires i <= j < |cycles| && Active(cfg, cycles, j) && EpisodeStart(cfg, cycles, j) <= i
    ensures Active(cfg, cycles, i) && EpisodeStart(cfg, cycles, i) == EpisodeStart(cfg, cycles, j)
    decreases j
  {
    if i == j {
    } else {
      SameEpisode(cfg, cycles, i, j - 1);
    }
  }

  // ---------------------------------------------------------------------------------------------
  // Rates
  // ---------------------------------------------------------------------------------------------

  /** Cycle `i` uses up its hour. */
  predicate UsesHour(cfg: Config, cycles: seq<Cycle>, i: nat)
    requires i < |cycles|
  {
    DecisionAt(cfg, cycles, i).transition || DecisionAt(cfg, cycles, i).hourly
  }

  /** The stored hour is the latest one used up. */
  ghost predicate HourState(cfg: Config, cycles: seq<Cycle>, n: nat)
    requires n <= |cycles|
  {
    var last := Before(cfg, cycles, n).lastHourlyBucket;
    && (forall k | 0 <= k < n && UsesHour(cfg, cycles, k) :: last.Some? && HourOf(cycles[k].now) <= last.value)
    && (last.Some? ==> exists k :: 0 <= k < n && UsesHour(cfg, cycles, k) && HourOf(cycles[k].now) == last.value)
  }

  lemma {:induction false} HourStateHolds(cfg: Config, cycles: seq<Cycle>, n: nat)
    requires n <= |cycles| && ClockMonotone(cycles)
    ensures HourState(cfg, cycles, n)
  {
    if n == 0 {
    } else {
      HourStateHolds(cfg, cycles, n - 1);
      HourStateStep(cfg, cycles, n - 1);
    }
  }

  lemma HourStateStep(cfg: Config, cycles: seq<Cycle>, n: nat)
    requires n < |cycles| && ClockMonotone(cycles) && HourState(cfg, cycles, n)
    ensures HourState(cfg, cycles, n + 1)
  {
    BeforeNext(cfg, cycles, n);
    var last, next := Before(cfg, cycles, n).lastHourlyBucket, Before(cfg, cycles, n + 1).lastHourlyBucket;
    if UsesHour(cfg, cycles, n) {
      assert next == Some(HourOf(cycles[n].now));
      forall k | 0 <= k < n ensures HourOf(cycles[k].now) <= HourOf(cycles[n].now) {
        LaterHour(cycles[k].now, cycles[n].now);
      }
    } else {
      assert next == last;
    }
  }

  /**
   A cycle is settled exactly when it or an earlier cycle of its episode came at least the debounce after the
   first.
   */
  lemma SettledExactly(cfg: Config, cycles: seq<Cycle>, i: nat)
    requires i < |cycles|
    ensures Settled(cfg, Before(cfg, cycles, i), cycles[i]) <==>
            Active(cfg, cycles, i) && RipeBefore(cfg, cycles, EpisodeStart(cfg, cycles, i), i + 1)
  {
    DebounceStateHolds(cfg, cycles, i + 1);
    BeforeNext(cfg, cycles, i);
  }

  /**
   The hourly flag is raised exactly at the active cycles whose debounce is over, that are not themselves
   transitions and whose hour no earlier cycle has used up.
   */
  lemma HourlyExactly(cfg: Config, cycles: seq<Cycle>, i: nat)
    requires i < |cycles| && ClockMonotone(cycles)
    ensures DecisionAt(cfg, cycles, i).hourly <==>
              && cfg.hourlyAlerts
              && Active(cfg, cycles, i) && RipeBefore(cfg, cycles, EpisodeStart(cfg, cycles, i), i + 1)
              && !DecisionAt(cfg, cycles, i).transition
              && forall k | 0 <= k < i && UsesHour(cfg, cycles, k) :: HourOf(cycles[k].now) != HourOf(cycles[i].now)
  {
    SettledExactly(cfg, cycles, i);
    HourFreeExactly(cfg, cycles, i);
  }

  lemma HourFreeExactly(cfg: Config, cycles: seq<Cycle>, i: nat)
    requires i < |cycles| && ClockMonotone(cycles)
    ensures Before(cfg, cycles, i).lastHourlyBucket != Some(HourOf(cycles[i].now)) <==>
            forall k | 0 <= k < i && UsesHour(cfg, cycles, k) :: HourOf(cycles[k].now) != HourOf(cycles[i].now)
  {
    HourStateHolds(cfg, cycles, i);
    var last := Before(cfg, cycles, i).lastHourlyBucket;
    var hour := HourOf(cycles[i].now);
    if last.Some? {
      var l :| 0 <= l < i && UsesHour(cfg, cycles, l) && HourOf(cycles[l].now) == last.value;
      LaterHour(cycles[l].now, cycles[i].now);
      if last.value != hour {
        forall k | 0 <= k < i && UsesHour(cfg, cycles, k) ensures HourOf(cycles[k].now) != hour {
          assert HourOf(cycles[k].now) <= last.value;
        }
      }
    }
  }

  lemma LaterHour(a: int, b: int)
    requires a <= b
    ensures HourOf(a) <= HourOf(b)
  {
  }

  /** The stored time is that of the latest composition announcement. */
  ghost predicate CompositionState(cfg: Config, cycles: seq<Cycle>, n: nat)
    requires n <= |cycles|
  {
    var last := Before(cfg, cycles, n).lastCompositionAt;
    && (forall k | 0 <= k < n && DecisionAt(cfg, cycles, k).composition :: last.Some? && cycles[k].now <= last.value)
    && (last.Some? ==> exists k :: 0 <= k < n && DecisionAt(cfg, cycles, k).composition && cycles[k].now == last.value)
  }

  lemma {:induction false} CompositionStateHolds(cfg: Config, cycles: seq<Cycle>, n: nat)
    requires n <= |cycles|
    ensures CompositionState(cfg, cycles, n)
  {
    if n == 0 {
    } else {
      CompositionStateHolds(cfg, cycles, n - 1);
      CompositionStateStep(cfg, cycles, n - 1);
    }
  }

  lemma CompositionStateStep(cfg: Config, cycles: seq<Cycle>, n: nat)
    requires n < |cycles| && CompositionState(cfg, cycles, n)
    ensures CompositionState(cfg, cycles, n + 1)
  {
    BeforeNext(cfg, cycles, n);
    var last, next := Before(cfg, cycles, n).lastCompositionAt, Before(cfg, cycles, n + 1).lastCompositionAt;
    assert DecisionAt(cfg, cycles, n).composition ==>
             next == Some(cycles[n].now) && (last.Some? ==> last.value <= cycles[n].now);
    assert !DecisionAt(cfg, cycles, n).composition ==> next == last;
  }

  /** The debounce of the episode of cycle `i` was over before it. */
  ghost predicate StableBefore(cfg: Config, cycles: seq<Cycle>, i: nat)
    requires i < |cycles|
  {
    Active(cfg, cycles, i) && RipeBefore(cfg, cycles, EpisodeStart(cfg, cycles, i), i)
  }

  lemma StableExactly(cfg: Config, cycles: seq<Cycle>, i: nat)
    requires i < |cycles|
    ensures Active(cfg, cycles, i) && PendingSince(cfg, Before(cfg, cycles, i), cycles[i]).None? <==>
            StableBefore(cfg, cycles, i)
    ensures StableBefore(cfg, cycles, i) ==> i > 0 && Before(cfg, cycles, i).fingerprint == cycles[i - 1].coins
  {
    DebounceStateHolds(cfg, cycles, i);
    if Active(cfg, cycles, i) {
      if i > 0 && Active(cfg, cycles, i - 1) {
        EpisodeGoesOn(cfg, cycles, i);
      } else {
        EpisodeBegins(cfg, cycles, i);
      }
    }
    if i > 0 { BeforeNext(cfg, cycles, i - 1); }
  }

  /**
   A composition is announced at a cycle if and only if announcements are on, the debounce of its episode was
   over before it, its coins differ from those of the cycle before, and no composition was announced less
   than the cooldown ago.
   */
  lemma CompositionExactly(cfg: Config, cycles: seq<Cycle>, i: nat)
    requires i < |cycles|
    ensures DecisionAt(cfg, cycles, i).composition <==>
              && cfg.compositionAlerts
              && StableBefore(cfg, cycles, i) && i > 0 && cycles[i].coins != cycles[i - 1].coins
              && forall k | 0 <= k < i && DecisionAt(cfg, cycles, k).composition ::
                 cycles[i].now - cycles[k].now >= cfg.cooldown
  {
    StableExactly(cfg, cycles, i);
    CompositionStateHolds(cfg, cycles, i);
  }

  /** Two composition announcements are at least the cooldown apart, whatever the clock does. */
  lemma CompositionsSpaced(cfg: Config, cycles: seq<Cycle>, i: nat, j: nat)
    requires i < j < |cycles|
    requires DecisionAt(cfg, cycles, i).composition && DecisionAt(cfg, cycles, j).composition
    ensures cycles[j].now - cycles[i].now >= cfg.cooldown
  {
    CompositionStateHolds(cfg, cycles, j);
  }

  // ---------------------------------------------------------------------------------------------
  // Messages
  // ---------------------------------------------------------------------------------------------

  datatype Kind = TransitionMessage | CompositionMessage | HourlyMessage

  /** At most one message a cycle: a transition before a composition before an hourly one. */
  function KindOf(d: Decision): Option<Kind> {
    if d.transition then Some(TransitionMessage)
    else if d.composition then Some(CompositionMessage)
    else if d.hourly then Some(HourlyMessage)
    else None
  }

  function KindAt(cfg: Config, cycles: seq<Cycle>, i: nat): Option<Kind>
    requires i < |cycles|
  {
    KindOf(DecisionAt(cfg, cycles, i))
  }

  /** A cycle whose count lies outside the configured range announces nothing. */
  lemma NoMessageOutOfRange(cfg: Config, cycles: seq<Cycle>, i: nat)
    requires i < |cycles| && KindAt(cfg, cycles, i).Some?
    ensures cfg.minCoins <= |cycles[i].coins| <= cfg.maxCoins
  {
  }

  /** An hour gets at most one hourly message, and none once a transition was announced in it. */
  lemma HourlyMessageRate(cfg: Config, cycles: seq<Cycle>, i: nat, j: nat)
    requires i < j < |cycles| && ClockMonotone(cycles)
    requires KindAt(cfg, cycles, i) == Some(HourlyMessage) || KindAt(cfg, cycles, i) == Some(TransitionMessage)
    requires KindAt(cfg, cycles, j) == Some(HourlyMessage)
    ensures HourOf(cycles[i].now) < HourOf(cycles[j].now)
  {
    HourlyExactly(cfg, cycles, j);
    assert UsesHour(cfg, cycles, i);
    assert cycles[i].now <= cycles[j].now;
  }

  /** An hour is never used up without a message in the same cycle. */
  lemma HourUsedWithMessage(cfg: Config, cycles: seq<Cycle>, i: nat)
    requires i < |cycles|
    ensures Before(cfg, cycles, i + 1).lastHourlyBucket != Before(cfg, cycles, i).lastHourlyBucket ==>
              KindAt(cfg, cycles, i).Some? && UsesHour(cfg, cycles, i)
  {
    BeforeNext(cfg, cycles, i);
  }

  /** Both flags are raised in one cycle. */
  predicate Swallows(cfg: Config, cycles: seq<Cycle>, i: nat)
    requires i < |cycles|
  {
    DecisionAt(cfg, cycles, i).composition && DecisionAt(cfg, cycles, i).hourly
  }

  /**
   Wherever both flags are raised only the composition is announced, and the hour is gone all the same: every
   later hourly message of the run comes in a later hour.
   */
  lemma CompositionSwallowsHourly(cfg: Config, cycles: seq<Cycle>, i: nat, j: nat)
    requires i < j < |cycles| && ClockMonotone(cycles) && Swallows(cfg, cycles, i)
    ensures KindAt(cfg, cycles, i) == Some(CompositionMessage)
    ensures KindAt(cfg, cycles, j) == Some(HourlyMessage) ==> HourOf(cycles[i].now) < HourOf(cycles[j].now)
  {
    assert UsesHour(cfg, cycles, i);
    if DecisionAt(cfg, cycles, j).hourly {
      HourlyExactly(cfg, cycles, j);
      LaterHour(cycles[i].now, cycles[j].now);
    }
  }

  /** Some cycle of the hour uses it up. */
  ghost predicate HourUsed(cfg: Config, cycles: seq<Cycle>, hour: int) {
    exists i :: 0 <= i < |cycles| && HourOf(cycles[i].now) == hour && UsesHour(cfg, cycles, i)
  }

  /** The hour has the message it was used up for. */
  ghost predicate HourAnnounced(cfg: Config, cycles: seq<Cycle>, hour: int) {
    exists i :: 0 <= i < |cycles| && HourOf(cycles[i].now) == hour && Announces(cfg, cycles, i)
  }

  predicate Announces(cfg: Config, cycles: seq<Cycle>, i: nat)
    requires i < |cycles|
  {
    KindAt(cfg, cycles, i) == Some(HourlyMessage) || KindAt(cfg, cycles, i) == Some(TransitionMessage)
  }

  /** A transition is announced in the hour. */
  ghost predicate TransitionIn(cfg: Config, cycles: seq<Cycle>, hour: int) {
    exists i :: 0 <= i < |cycles| && HourOf(cycles[i].now) == hour && DecisionAt(cfg, cycles, i).transition
  }

  ghost predicate SwallowedIn(cfg: Config, cycles: seq<Cycle>, hour: int) {
    exists i :: 0 <= i < |cycles| && HourOf(cycles[i].now) == hour && Swallows(cfg, cycles, i)
  }

  /** Every cycle that uses up the hour also recomposes. */
  ghost predicate UsersRecompose(cfg: Config, cycles: seq<Cycle>, hour: int) {
    forall i | 0 <= i < |cycles| && HourOf(cycles[i].now) == hour && UsesHour(cfg, cycles, i) ::
      DecisionAt(cfg, cycles, i).composition
  }

  lemma UsersRecomposeExactly(cfg: Config, cycles: seq<Cycle>, hour: int)
    ensures !HourAnnounced(cfg, cycles, hour) <==> UsersRecompose(cfg, cycles, hour)
  {
    forall i | 0 <= i < |cycles| && HourOf(cycles[i].now) == hour
      ensures Announces(cfg, cycles, i) <==> UsesHour(cfg, cycles, i) && !DecisionAt(cfg, cycles, i).composition
    {}
  }

  /** An hour raises the hourly flag at most once. */
  lemma OneHourlyFlag(cfg: Config, cycles: seq<Cycle>, i: nat, j: nat)
    requires i < |cycles| && j < |cycles| && ClockMonotone(cycles) && HourOf(cycles[i].now) == HourOf(cycles[j].now)
    requires DecisionAt(cfg, cycles, i).hourly && DecisionAt(cfg, cycles, j).hourly
    ensures i == j
  {
    HourlyExactly(cfg, cycles, i);
    HourlyExactly(cfg, cycles, j);
    if i < j { assert UsesHour(cfg, cycles, i); }
    if j < i { assert UsesHour(cfg, cycles, j); }
  }

  /**
   An hour is used up without its message exactly if a composition swallows it and no transition is announced in
   it.
   */
  lemma SilentHourExactly(cfg: Config, cycles: seq<Cycle>, hour: int)
    requires ClockMonotone(cycles)
    ensures HourUsed(cfg, cycles, hour) && !HourAnnounced(cfg, cycles, hour) <==>
            SwallowedIn(cfg, cycles, hour) && !TransitionIn(cfg, cycles, hour)
    ensures HourUsed(cfg, cycles, hour) && !HourAnnounced(cfg, cycles, hour) <==>
            HourUsed(cfg, cycles, hour) && UsersRecompose(cfg, cycles, hour)
    ensures HourUsed(cfg, cycles, hour) && !HourAnnounced(cfg, cycles, hour) ==>
              cfg.compositionAlerts && cfg.hourlyAlerts
  {
    UsersRecomposeExactly(cfg, cycles, hour);
    if HourUsed(cfg, cycles, hour) && !HourAnnounced(cfg, cycles, hour) {
      var i :| 0 <= i < |cycles| && HourOf(cycles[i].now) == hour && UsesHour(cfg, cycles, i);
      assert !Announces(cfg, cycles, i);
      assert Swallows(cfg, cycles, i);
      forall j | 0 <= j < |cycles| && HourOf(cycles[j].now) == hour ensures !DecisionAt(cfg, cycles, j).transition {
        assert !Announces(cfg, cycles, j);
      }
    }
    if SwallowedIn(cfg, cycles, hour) && !TransitionIn(cfg, cycles, hour) {
      var i :| 0 <= i < |cycles| && HourOf(cycles[i].now) == hour && Swallows(cfg, cycles, i);
      assert UsesHour(cfg, cycles, i);
      forall j | 0 <= j < |cycles| && HourOf(cycles[j].now) == hour ensures !Announces(cfg, cycles, j) {
        if DecisionAt(cfg, cycles, j).hourly { OneHourlyFlag(cfg, cycles, i, j); }
      }
    }
  }

  /** Some hour of some run is used up without its message. */
  ghost predicate SilentHourPossible(cfg: Config) {
    exists cycles: seq<Cycle>, hour: int :: ClockMonotone(cycles) && SilentHour(cfg, cycles, hour)
  }

  ghost predicate SilentHour(cfg: Config, cycles: seq<Cycle>, hour: int) {
    HourUsed(cfg, cycles, hour) && !HourAnnounced(cfg, cycles, hour)
  }

  /** Settle, stay, and change the coins in a fresh hour. */
  function ChangeInFreshHour(cfg: Config, n: nat): seq<Cycle> {
    [Cycle(CoinList(0, n), 0), Cycle(CoinList(0, n), cfg.debounce), Cycle(CoinList(1, n), 3600 * (cfg.debounce + 1))]
  }

  lemma ChangeIsSwallowed(cfg: Config, n: nat)
    requires cfg.compositionAlerts && cfg.hourlyAlerts && cfg.minCoins <= n <= cfg.maxCoins && n >= 1
    ensures var cycles := ChangeInFreshHour(cfg, n);
            && ClockMonotone(cycles) && (forall k | 0 <= k < |cycles| :: Ascending(cycles[k].coins))
            && SilentHour(cfg, cycles, cfg.debounce + 1)
  {
    var cycles := ChangeInFreshHour(cfg, n);
    CoinListAscends(0, n);
    CoinListAscends(1, n);
    assert CoinList(0, n)[0] == Letters(1) && CoinList(1, n)[0] == Letters(2) && |Letters(1)| != |Letters(2)|;
    assert EpisodeStart(cfg, cycles, 2) == 0 && Ripe(cfg, cycles, 0, 1);
    CompositionExactly(cfg, cycles, 0);
    CompositionExactly(cfg, cycles, 1);
    CompositionExactly(cfg, cycles, 2);
    ChangeUsesFreshHour(cfg, n);
    SilentHourExactly(cfg, cycles, cfg.debounce + 1);
    assert Swallows(cfg, cycles, 2);
  }

  lemma ChangeUsesFreshHour(cfg: Config, n: nat)
    requires cfg.hourlyAlerts && cfg.minCoins <= n <= cfg.maxCoins
    ensures var cycles := ChangeInFreshHour(cfg, n);
            && ClockMonotone(cycles) && DecisionAt(cfg, cycles, 2).hourly
            && HourOf(cycles[2].now) == cfg.debounce + 1 && !TransitionIn(cfg, cycles, cfg.debounce + 1)
  {
    var cycles := ChangeInFreshHour(cfg, n);
    assert EpisodeStart(cfg, cycles, 2) == 0 && Ripe(cfg, cycles, 0, 1);
    assert HourOf(cycles[0].now) <= HourOf(cycles[1].now) < cfg.debounce + 1;
    if cfg.transitionAlerts { ExactDebounce(cfg, cycles, 2); }
    HourlyExactly(cfg, cycles, 2);
  }

  /**
   A configuration can use up an hour without its message if and only if it announces both compositions and
   hours, and some non-empty list of coins is in range.
   */
  lemma SilentHourPossibleExactly(cfg: Config)
    ensures SilentHourPossible(cfg) <==>
            cfg.compositionAlerts && cfg.hourlyAlerts && cfg.minCoins <= cfg.maxCoins && cfg.maxCoins >= 1
  {
    if SilentHourPossible(cfg) {
      var cycles: seq<Cycle>, hour: int :| ClockMonotone(cycles) && SilentHour(cfg, cycles, hour);
      SilentHourExactly(cfg, cycles, hour);
      var i :| 0 <= i < |cycles| && HourOf(cycles[i].now) == hour && Swallows(cfg, cycles, i);
      CompositionExactly(cfg, cycles, i);
      assert Active(cfg, cycles, i) && Active(cfg, cycles, i - 1);
    }
    if cfg.compositionAlerts && cfg.hourlyAlerts && cfg.minCoins <= cfg.maxCoins && cfg.maxCoins >= 1 {
      var n := if cfg.minCoins >= 1 then cfg.minCoins else 1;
      ChangeIsSwallowed(cfg, n);
    }
  }
}
