/**
 Why the pipeline may treat a transaction as one step. A task's block is opened up into begin, single writes and
 commit or any other way out, with steps of any other task and crashes in between; the lock of the connection
 turns it back into one step, or none.
 */
module PipelineTransactions {
  import opened Wrappers
  import opened AlertMachine
  import opened AlertTrace
  import opened Outbox
  import D = Database
  import P = Pipeline

  /** The cells of the durable tables that an alert cycle or a delivery writes. */
  datatype Cell = StateCell | RowCell(id: nat) | EventCell(key: string)

  datatype Value = StateValue(state: AlertState) | RowValue(row: Row) | EventValue(event: Event)

  type Write = D.Write<Cell, Value>

  type Base = D.System<Cell, Value>

  type BaseStep = D.Step<Cell, Value>

  // ---------------------------------------------------------------------------------------------
  // One block among all the others
  // ---------------------------------------------------------------------------------------------

  /** The task does not leave its block along the steps. */
  predicate StaysInside(s: Base, steps: seq<BaseStep>, t: D.Task)
    requires D.Runs(s, steps)
    decreases |steps|
  {
    D.At(s, t).Inside? && (steps == [] || StaysInside(D.Apply(s, steps[0]), steps[1..], t))
  }

  /** The writes of one task among the steps of all. */
  function WritesOf(steps: seq<BaseStep>, t: D.Task): seq<Write>
    decreases |steps|
  {
    if steps == [] then []
    else (if steps[0].Execute? && steps[0].t == t then [steps[0].write] else []) + WritesOf(steps[1..], t)
  }

  /** While a task stays inside, nobody changes what is durable, and nobody but it adds to its body. */
  lemma StepLeavesBlock(s: Base, step: BaseStep, t: D.Task)
    requires D.Inv(s) && D.Enabled(s, step) && D.At(s, t).Inside? && D.At(D.Apply(s, step), t).Inside?
    ensures D.Apply(s, step).conn.committed == s.conn.committed
    ensures D.At(D.Apply(s, step), t).body == D.At(s, t).body + WritesOf([step], t)
  {
    if !step.Crash? && step.t != t { D.InsideAlone(s, t, step.t); }
    assert WritesOf([step], t) == if step.Execute? && step.t == t then [step.write] else [];
  }

  lemma WritesFirst(steps: seq<BaseStep>, t: D.Task)
    requires steps != []
    ensures WritesOf(steps, t) == WritesOf([steps[0]], t) + WritesOf(steps[1..], t)
  {
    assert [steps[0]][1..] == [];
  }

  lemma Regroup(a: seq<Write>, b: seq<Write>, c: seq<Write>)
    ensures a + b + c == a + (b + c)
  {
  }

  lemma {:induction false} BlockUndisturbed(s: Base, steps: seq<BaseStep>, t: D.Task)
    requires D.Inv(s) && D.Runs(s, steps) && StaysInside(s, steps, t)
    ensures var r := D.After(s, steps);
            && D.Inv(r) && D.At(r, t).Inside?
            && r.conn.committed == s.conn.committed
            && D.At(r, t).body == D.At(s, t).body + WritesOf(steps, t)
    decreases |steps|
  {
    if steps == [] {
      assert D.At(s, t).body + [] == D.At(s, t).body;
    } else {
      var s' := D.Apply(s, steps[0]);
      StepLeavesBlock(s, steps[0], t);
      D.StepKeepsLock(s, steps[0]);
      D.StepKeepsView(s, steps[0]);
      BlockUndisturbed(s', steps[1..], t);
      WritesFirst(steps, t);
      Regroup(D.At(s, t).body, WritesOf([steps[0]], t), WritesOf(steps[1..], t));
    }
  }

  /** After the steps `before`, the task begins a block, and `exit` ends it after the steps `within`. */
  ghost predicate Block(before: seq<BaseStep>, t: D.Task, within: seq<BaseStep>, exit: BaseStep) {
    && D.Runs(D.Start(), before) && D.Enabled(D.After(D.Start(), before), D.BeginSucceeds(t))
    && var s := D.Apply(D.After(D.Start(), before), D.BeginSucceeds(t));
       && D.Runs(s, within) && StaysInside(s, within, t)
       && D.Enabled(D.After(s, within), exit) && !D.At(D.Apply(D.After(s, within), exit), t).Inside?
  }

  /** What is durable when it begins, and when it has ended. */
  ghost function DurableBefore(before: seq<BaseStep>): D.Table<Cell, Value>
    requires D.Runs(D.Start(), before)
  {
    D.After(D.Start(), before).conn.committed
  }

  ghost function DurableAfter(before: seq<BaseStep>, t: D.Task, within: seq<BaseStep>, exit: BaseStep)
    : D.Table<Cell, Value>
    requires Block(before, t, within, exit)
  {
    D.Apply(D.After(D.Apply(D.After(D.Start(), before), D.BeginSucceeds(t)), within), exit).conn.committed
  }

  /**
   Whatever other tasks do while a task is inside its block: if it commits, its writes are applied to the durable
   table as it was when it began, all at once; by any other way out, a crash included, that table is unchanged.
   */
  lemma BlockIsOneStep(before: seq<BaseStep>, t: D.Task, within: seq<BaseStep>, exit: BaseStep)
    requires Block(before, t, within, exit)
    ensures DurableAfter(before, t, within, exit) ==
              if exit == D.CommitSucceeds(t) then D.AppliedAll(DurableBefore(before), WritesOf(within, t))
                else DurableBefore(before)
  {
    var s0 := D.After(D.Start(), before);
    D.ReachableInv(before);
    var s1 := D.Apply(s0, D.BeginSucceeds(t));
    D.StepKeepsLock(s0, D.BeginSucceeds(t));
    D.StepKeepsView(s0, D.BeginSucceeds(t));
    BlockUndisturbed(s1, within, t);
    var s := D.After(s1, within);
    assert D.At(s, t).body == WritesOf(within, t);
    if !exit.Crash? && exit.t != t { D.InsideAlone(s, t, exit.t); }
  }

  // ---------------------------------------------------------------------------------------------
  // The durable tables
  // ---------------------------------------------------------------------------------------------

  /** The durable alert state, the outbox and the listing events as cells. */
  function Cells(p: P.System): D.Table<Cell, Value> {
    map c: Cell | c in CellSet(p) ::
      match c
      case StateCell => StateValue(p.stored.value)
      case RowCell(id) => RowValue(p.rows[id])
      case EventCell(key) => EventValue(p.events[key])
  }

  function CellSet(p: P.System): (cells: set<Cell>)
    ensures forall c :: c in cells <==>
                        match c
                        case StateCell => p.stored.Some?
                        case RowCell(id) => id < |p.rows|
                        case EventCell(key) => key in p.events
  {
    (if p.stored.Some? then {StateCell} else {}) +
    (set i: nat | i < |p.rows| :: RowCell(i)) + (set key | key in p.events :: EventCell(key))
  }

  lemma StateWritten(p: P.System, state: AlertState)
    ensures Cells(p)[StateCell := StateValue(state)] == Cells(p.(stored := Some(state)))
  {
  }

  lemma RowInserted(p: P.System, row: Row)
    ensures Cells(p)[RowCell(|p.rows|) := RowValue(row)] == Cells(p.(rows := p.rows + [row]))
  {
    var p' := p.(rows := p.rows + [row]);
    assert CellSet(p') == CellSet(p) + {RowCell(|p.rows|)};
    assert forall id: nat | id < |p.rows| :: p'.rows[id] == p.rows[id];
  }

  lemma RowUpdated(p: P.System, id: nat, row: Row)
    requires id < |p.rows|
    ensures Cells(p)[RowCell(id) := RowValue(row)] == Cells(p.(rows := p.rows[id := row]))
  {
  }

  lemma EventWritten(p: P.System, key: string, event: Event)
    ensures Cells(p)[EventCell(key) := EventValue(event)] == Cells(p.(events := p.events[key := event]))
  {
  }

  /** Only the durable tables matter. */
  lemma SameCells(p: P.System, p': P.System)
    requires p.stored == p'.stored && p.rows == p'.rows && p.events == p'.events
    ensures Cells(p) == Cells(p')
  {
  }

  lemma OneWrite(table: D.Table<Cell, Value>, first: Write)
    ensures D.AppliedAll(table, [first]) == D.Applied(table, first)
  {
    assert [first][..0] == [] && D.AppliedAll(table, []) == table;
  }

  lemma TwoWrites(table: D.Table<Cell, Value>, first: Write, second: Write)
    ensures D.AppliedAll(table, [first] + [second]) == D.Applied(D.Applied(table, first), second)
  {
    OneWrite(table, first);
    assert ([first] + [second])[..1] == [first];
  }

  // ---------------------------------------------------------------------------------------------
  // The block of an alert cycle
  // ---------------------------------------------------------------------------------------------

  /** What the block of a cycle writes when nothing fails: the state, and then the row of its message, if any. */
  function CycleWrites(st: P.Settings, p: P.System): seq<Write>
    requires p.market.MarketReady?
  {
    var kind := KindOf(p.market.decision);
    [D.Put(StateCell, StateValue(p.market.next))] +
    if kind.Some?
    then [D.Put(RowCell(|p.rows|), RowValue(AlertRow(kind.value, P.KeyOfReady(st, p.market), p.clock)))] else []
  }

  /** The writes of a cycle, applied one after another, are the pipeline's single step. */
  lemma CycleWritesPersist(st: P.Settings, p: P.System)
    requires p.market.MarketReady? && !KeyTaken(p.rows, P.KeyOfReady(st, p.market))
    ensures D.AppliedAll(Cells(p), CycleWrites(st, p)) == Cells(P.PersistOf(st, p))
  {
    var first := D.Put(StateCell, StateValue(p.market.next));
    var p1 := p.(stored := Some(p.market.next));
    var kind := KindOf(p.market.decision);
    StateWritten(p, p.market.next);
    if kind.Some? {
      var row := AlertRow(kind.value, P.KeyOfReady(st, p.market), p.clock);
      TwoWrites(Cells(p), first, D.Put(RowCell(|p.rows|), RowValue(row)));
      RowInserted(p1, row);
      SameCells(p1.(rows := p.rows + [row]), P.PersistOf(st, p));
    } else {
      assert CycleWrites(st, p) == [first];
      OneWrite(Cells(p), first);
      SameCells(p1, P.PersistOf(st, p));
    }
  }

  /**
   The block of an alert cycle among any other tasks, with a crash at any point. If it commits, having written
   all it has to write, the durable tables are those of the pipeline's storing step; if it ends in any other
   way, after any part of its writes, they are those of the aborted step. A taken key is one of the other ways,
   and there the storing step itself changes nothing.
   */
  lemma PersistIsOneStep(st: P.Settings, p: P.System, before: seq<BaseStep>, t: D.Task, within: seq<BaseStep>,
                         exit: BaseStep)
    requires Block(before, t, within, exit) && DurableBefore(before) == Cells(p) && p.market.MarketReady?
    requires exit == D.CommitSucceeds(t) ==>
               !KeyTaken(p.rows, P.KeyOfReady(st, p.market)) && WritesOf(within, t) == CycleWrites(st, p)
    ensures DurableAfter(before, t, within, exit) ==
            Cells(P.Apply(st, p, if exit == D.CommitSucceeds(t) then P.PersistCommits else P.PersistAborts))
    ensures KeyTaken(p.rows, P.KeyOfReady(st, p.market)) ==>
              P.Apply(st, p, P.PersistCommits) == P.Apply(st, p, P.PersistAborts)
  {
    BlockIsOneStep(before, t, within, exit);
    if exit == D.CommitSucceeds(t) {
      CycleWritesPersist(st, p);
    } else {
      SameCells(p, P.Apply(st, p, P.PersistAborts));
    }
  }

  // ---------------------------------------------------------------------------------------------
  // The block of an acknowledgement
  // ---------------------------------------------------------------------------------------------

  /** What it writes when nothing fails: the row, and then the flag of the listing event it belongs to, if any. */
  function MarkWrites(p: P.System): seq<Write>
    requires P.Enabled(p, P.MarkSentCommits)
  {
    var id := p.worker.batch[0].id;
    var origin := p.rows[id].origin;
    [D.Put(RowCell(id), RowValue(MarkedSent(p.rows[id])))] +
    if origin.Some? && origin.value in p.events
    then [D.Put(EventCell(origin.value), EventValue(p.events[origin.value].(sent := true)))] else []
  }

  /** The writes of an acknowledgement, applied one after another, are the pipeline's single step. */
  lemma MarkWritesAcknowledge(p: P.System)
    requires P.Enabled(p, P.MarkSentCommits)
    ensures D.AppliedAll(Cells(p), MarkWrites(p)) == Cells(P.MarkSentOf(p))
  {
    var id := p.worker.batch[0].id;
    var row, origin := MarkedSent(p.rows[id]), p.rows[id].origin;
    var first := D.Put(RowCell(id), RowValue(row));
    var p1 := p.(rows := p.rows[id := row]);
    RowUpdated(p, id, row);
    if origin.Some? && origin.value in p.events {
      var event := p.events[origin.value].(sent := true);
      TwoWrites(Cells(p), first, D.Put(EventCell(origin.value), EventValue(event)));
      EventWritten(p1, origin.value, event);
      SameCells(p1.(events := p.events[origin.value := event]), P.MarkSentOf(p));
    } else {
      assert MarkWrites(p) == [first];
      OneWrite(Cells(p), first);
      SameCells(p1, P.MarkSentOf(p));
    }
  }

  /**
   The block that acknowledges a delivery, among any other tasks and with a crash at any point: if it commits, row and
   listing flag are those of the pipeline's marking step; by any other way out, neither has changed.
   */
  lemma MarkIsOneStep(st: P.Settings, p: P.System, before: seq<BaseStep>, t: D.Task, within: seq<BaseStep>,
                      exit: BaseStep)
    requires Block(before, t, within, exit) && DurableBefore(before) == Cells(p) && P.Enabled(p, P.MarkSentCommits)
    requires exit == D.CommitSucceeds(t) ==> WritesOf(within, t) == MarkWrites(p)
    ensures DurableAfter(before, t, within, exit) ==
            Cells(P.Apply(st, p, if exit == D.CommitSucceeds(t) then P.MarkSentCommits else P.MarkSentFails))
    ensures exit != D.CommitSucceeds(t) ==> DurableAfter(before, t, within, exit) == Cells(p)
  {
    BlockIsOneStep(before, t, within, exit);
    if exit == D.CommitSucceeds(t) {
      MarkWritesAcknowledge(p);
    } else {
      SameCells(p, P.Apply(st, p, P.MarkSentFails));
    }
  }
}
