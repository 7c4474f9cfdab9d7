/**
 One alert cycle in place: decide, then store the state and the message in one transaction. It is what the
 pipeline's evaluation and storing steps do to the durable tables when nothing comes between them.
 */
module AlertService {
  import opened Wrappers
  import opened AlertMachine
  import opened AlertTrace
  import opened DedupeKeys
  import opened Outbox
  import opened Pipeline

  /**
   `KeyError` is the division by a zero cooldown, `Suppressed` the rejection by the unique index, `Failed` any other
   error of the transaction.
   */
  datatype Outcome = Stored(decision: Decision) | Suppressed(decision: Decision) | KeyError | Failed

  class Service {
    const settings: Settings
    const machine: AlertStateMachine
    var rows: seq<Row>

    constructor (settings: Settings, machine: AlertStateMachine)
      ensures this.settings == settings && this.machine == machine && rows == []
    {
      this.settings := settings;
      this.machine := machine;
      rows := [];
    }

    /** The tables as a pipeline between two cycles. */
    ghost function Tables(now: int): System
      reads this, machine.repo
    {
      Start(now).(stored := machine.repo.row, rows := rows)
    }

    /** `storeFails` is whether the transaction ends in an error that has nothing to do with keys. */
    method Process(coins: seq<string>, now: int, storeFails: bool) returns (outcome: Outcome)
      requires machine.cfg == settings.alerts && machine.repo.Valid()
      modifies this, machine.repo
      ensures machine.repo.Valid()
      ensures outcome.KeyError? <==>
                settings.alerts.cooldown == 0
                && Recomposes(settings.alerts, old(machine.repo.Stored()), Cycle(coins, now))
      ensures var evaluated := EvaluateOf(settings, old(Tables(now)), coins);
              if evaluated.market.MarketIdle? then outcome.KeyError? && Tables(now) == old(Tables(now))
              else if storeFails then outcome.Failed? && Tables(now) == Apply(settings, evaluated, PersistAborts)
              else
                var stored := PersistOf(settings, evaluated);
                && Tables(now).stored == stored.stored && rows == stored.rows
                && outcome == (if stored.log == [] then Suppressed(evaluated.market.decision)
                               else Stored(evaluated.market.decision))
    {
      var decision, state := machine.Evaluate(coins, now);
      var kind := KindOf(decision);
      var key: Option<string> := None;
      if kind.Some? {
        key := KeyFor(machine.cfg, kind.value, Cycle(coins, now));
        if key.None? { return KeyError; }
      }
      if storeFails { return Failed; }
      if KeyTaken(rows, key) { return Suppressed(decision); }
      machine.repo.Save(state);
      if kind.Some? { rows := rows + [AlertRow(kind.value, key, now)]; }
      outcome := Stored(decision);
    }
  }
}
