/**
 The alert policy: one evaluation of the state machine. The persisted state and the decision are values,
 `Evaluated` is one cycle of the policy, and the class computes it the way the program does, updating the
 loaded state step by step.
 */
module AlertMachine {
  import opened Wrappers

  datatype Range = Empty | ActiveRange | OverRange

  /** `debounce` and `cooldown` are the truncated numbers of seconds. */
  datatype Config = Config(
    minCoins: nat,
    maxCoins: nat,
    debounce: nat,
    cooldown: nat,
    transitionAlerts: bool,
    hourlyAlerts: bool,
    compositionAlerts: bool)

  datatype AlertState = AlertState(
    range: Range,
    fingerprint: seq<string>,
    updatedAt: int,
    lastTransitionAt: Option<int>,
    pendingSince: Option<int>,
    pendingFrom: Option<Range>,
    lastHourlyBucket: Option<int>,
    lastCompositionAt: Option<int>)

  /** What the repository loads when nothing was ever stored. */
  const InitialState := AlertState(Empty, [], 0, None, None, None, None, None)

  /** One update cycle: the sorted unique coins that qualify, and the second it runs at. */
  datatype Cycle = Cycle(coins: seq<string>, now: int)

  datatype Decision = Decision(
    range: Range,
    fingerprint: seq<string>,
    transition: bool,
    composition: bool,
    hourly: bool,
    origin: Option<Range>)

  function Classify(count: nat, minCoins: nat, maxCoins: nat): Range {
    if count < minCoins then Empty
    else if count <= maxCoins then ActiveRange
    else OverRange
  }

  /** The hour a second belongs to. */
  function HourOf(second: int): (hour: int)
    ensures 3600 * hour <= second < 3600 * hour + 3600
  {
    second / 3600
  }

  function RangeOf(cfg: Config, cycle: Cycle): Range {
    Classify(|cycle.coins|, cfg.minCoins, cfg.maxCoins)
  }

  /** Entering the active range starts the debounce, unless one is running. */
  function Arms(cfg: Config, st: AlertState, cycle: Cycle): bool {
    RangeOf(cfg, cycle).ActiveRange? && !st.range.ActiveRange? && st.pendingSince.None?
  }

  function PendingSince(cfg: Config, st: AlertState, cycle: Cycle): Option<int> {
    if Arms(cfg, st, cycle) then Some(cycle.now) else st.pendingSince
  }

  function PendingFrom(cfg: Config, st: AlertState, cycle: Cycle): Option<Range> {
    if Arms(cfg, st, cycle) then Some(st.range) else st.pendingFrom
  }

  /** The debounce of an active cycle runs out at it. */
  function Debounced(cfg: Config, st: AlertState, cycle: Cycle): bool {
    && RangeOf(cfg, cycle).ActiveRange?
    && PendingSince(cfg, st, cycle).Some?
    && cycle.now - PendingSince(cfg, st, cycle).value >= cfg.debounce
  }

  /** An active cycle with no debounce left running after it. */
  function Settled(cfg: Config, st: AlertState, cycle: Cycle): bool {
    RangeOf(cfg, cycle).ActiveRange? && (PendingSince(cfg, st, cycle).None? || Debounced(cfg, st, cycle))
  }

  function Transitions(cfg: Config, st: AlertState, cycle: Cycle): bool {
    Debounced(cfg, st, cycle) && cfg.transitionAlerts
  }

  function Recomposes(cfg: Config, st: AlertState, cycle: Cycle): bool {
    && RangeOf(cfg, cycle).ActiveRange? && PendingSince(cfg, st, cycle).None?
    && cycle.coins != st.fingerprint
    && cfg.compositionAlerts
    && (st.lastCompositionAt.Some? ==> cycle.now - st.lastCompositionAt.value >= cfg.cooldown)
  }

  function HourlyDue(cfg: Config, st: AlertState, cycle: Cycle): bool {
    && Settled(cfg, st, cycle) && cfg.hourlyAlerts && !Transitions(cfg, st, cycle)
    && st.lastHourlyBucket != Some(HourOf(cycle.now))
  }

  function DecisionOf(cfg: Config, st: AlertState, cycle: Cycle): Decision {
    Decision(
      RangeOf(cfg, cycle), cycle.coins,
      Transitions(cfg, st, cycle), Recomposes(cfg, st, cycle), HourlyDue(cfg, st, cycle),
      if !Transitions(cfg, st, cycle) then None
      else if PendingFrom(cfg, st, cycle).Some? then PendingFrom(cfg, st, cycle) else Some(st.range))
  }

  function NextState(cfg: Config, st: AlertState, cycle: Cycle): AlertState {
    var active := RangeOf(cfg, cycle).ActiveRange?;
    var running := active && !Settled(cfg, st, cycle);
    AlertState(
      RangeOf(cfg, cycle), cycle.coins, cycle.now,
      if Transitions(cfg, st, cycle) then Some(cycle.now) else st.lastTransitionAt,
      if running then PendingSince(cfg, st, cycle) else None,
      if active && !Debounced(cfg, st, cycle) then PendingFrom(cfg, st, cycle) else None,
      if Transitions(cfg, st, cycle) || HourlyDue(cfg, st, cycle) then Some(HourOf(cycle.now)) else st.lastHourlyBucket,
      if Recomposes(cfg, st, cycle) then Some(cycle.now) else st.lastCompositionAt)
  }

  /** The single-row store of the alert state; `saved` is everything ever stored in it. */
  class AlertStateRepository {
    var row: Option<AlertState>
    ghost var saved: seq<AlertState>

    ghost predicate Valid()
      reads this
    {
      row == if saved == [] then None else Some(saved[|saved| - 1])
    }

    constructor ()
      ensures Valid() && saved == []
    {
      row, saved := None, [];
    }

    /** What was stored last, or the initial state if nothing ever was. */
    ghost function Stored(): AlertState
      reads this
    {
      if saved == [] then InitialState else saved[|saved| - 1]
    }

    method Load() returns (st: AlertState)
      requires Valid()
      ensures st == Stored()
    {
      st := if row.Some? then row.value else InitialState;
    }

    method Save(st: AlertState)
      requires Valid()
      modifies this
      ensures Valid() && saved == old(saved) + [st]
    {
      row := Some(st);
      saved := saved + [st];
    }
  }

  class AlertStateMachine {
    const cfg: Config
    const repo: AlertStateRepository

    constructor (cfg: Config, repo: AlertStateRepository)
      ensures this.cfg == cfg && this.repo == repo
    {
      this.cfg := cfg;
      this.repo := repo;
    }

    /** The next decision and state from the stored state; nothing is stored. */
    method Evaluate(coins: seq<string>, now: int) returns (decision: Decision, state: AlertState)
      requires repo.Valid()
      ensures decision == DecisionOf(cfg, repo.Stored(), Cycle(coins, now))
      ensures state == NextState(cfg, repo.Stored(), Cycle(coins, now))
    {
      state := repo.Load();
      var previous := state.range;
      var range := Classify(|coins|, cfg.minCoins, cfg.maxCoins);
      decision := Decision(range, coins, false, false, false, None);
      if range == ActiveRange {
        if previous != ActiveRange && state.pendingSince == None {
          state := state.(pendingSince := Some(now), pendingFrom := Some(previous));
        }
        if state.pendingSince == None {
          if coins != state.fingerprint {
            decision, state := MaybeCompositionUpdate(decision, state, now);
          }
        } else if now - state.pendingSince.value >= cfg.debounce {
          if cfg.transitionAlerts {
            decision := decision.(
              transition := true,
              origin := if state.pendingFrom.Some? then state.pendingFrom else Some(previous));
            state := state.(lastTransitionAt := Some(now), lastHourlyBucket := Some(HourOf(now)));
          }
          state := state.(pendingSince := None, pendingFrom := None);
        }
      } else {
        state := state.(pendingSince := None, pendingFrom := None);
      }
      if range == ActiveRange && state.pendingSince == None && cfg.hourlyAlerts && !decision.transition {
        if state.lastHourlyBucket != Some(HourOf(now)) {
          decision := decision.(hourly := true);
          state := state.(lastHourlyBucket := Some(HourOf(now)));
        }
      }
      state := state.(range := range, fingerprint := coins, updatedAt := now);
    }

    /** A changed composition is announced unless the cooldown of the last announcement still runs. */
    method MaybeCompositionUpdate(decision: Decision, state: AlertState, now: int)
      returns (decision': Decision, state': AlertState)
      ensures var fires := cfg.compositionAlerts &&
                (state.lastCompositionAt.Some? ==> now - state.lastCompositionAt.value >= cfg.cooldown);
              && decision' == (if fires then decision.(composition := true) else decision)
              && state' == (if fires then state.(lastCompositionAt := Some(now)) else state)
    {
      decision', state' := decision, state;
      if !cfg.compositionAlerts { return; }
      if state.lastCompositionAt.Some? && now - state.lastCompositionAt.value < cfg.cooldown { return; }
      decision' := decision.(composition := true);
      state' := state.(lastCompositionAt := Some(now));
    }
  }
}
