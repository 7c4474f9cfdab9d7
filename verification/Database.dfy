/**
 The single connection shared by all tasks, and the lock that keeps their transactions apart. `Connection`
 is what the object holds; `System` adds where every task stands, and a step is what one task does between
 two suspension points. A crash may come at any moment.
 */
module Database {
  import opened Wrappers

  type Task = nat
  type Table<K, V> = map<K, V>

  datatype Write<K, V> = Put(key: K, value: V) | Erase(key: K)

  function Applied<K, V>(table: Table<K, V>, w: Write<K, V>): Table<K, V> {
    match w
    case Put(k, v) => table[k := v]
    case Erase(k) => table - {k}
  }

  function AppliedAll<K, V>(table: Table<K, V>, body: seq<Write<K, V>>): Table<K, V>
    decreases |body|
  {
    if body == [] then table else Applied(AppliedAll(table, body[..|body| - 1]), body[|body| - 1])
  }

  /** What the body does to one key: its last write of it, if it has any. */
  ghost function LastWrite<K, V>(body: seq<Write<K, V>>, key: K): Option<Write<K, V>>
    decreases |body|
  {
    if body == [] then None
    else if body[|body| - 1].key == key then Some(body[|body| - 1])
    else LastWrite(body[..|body| - 1], key)
  }

  /** A body puts what its last write of a key puts, erases what that erases, and touches no other key. */
  lemma {:induction false} LastWriteWins<K, V>(table: Table<K, V>, body: seq<Write<K, V>>, key: K)
    ensures var after, last := AppliedAll(table, body), LastWrite(body, key);
            && (last.None? ==> (key in after <==> key in table) && (key in table ==> after[key] == table[key]))
            && (last.Some? ==> (key in after <==> last.value.Put?) && (key in after ==> after[key] == last.value.value))
    decreases |body|
  {
    if body == [] {
    } else {
      LastWriteWins(table, body[..|body| - 1], key);
    }
  }

  /** The committed bodies one after another. */
  function Replay<K, V>(log: seq<seq<Write<K, V>>>): Table<K, V>
    decreases |log|
  {
    if log == [] then map[] else AppliedAll(Replay(log[..|log| - 1]), log[|log| - 1])
  }

  /** `view` is the table as the connection sees it, `committed` what a crash leaves behind. */
  datatype Connection<K, V> = Connection(
    committed: Table<K, V>,
    view: Table<K, V>,
    open: bool,
    lock: Option<Task>,
    owner: Option<Task>)

  function Fresh<K, V>(): Connection<K, V> { Connection(map[], map[], false, None, None) }

  /** Where a task stands: outside, waiting for the lock, or at a point inside a guarded block. */
  datatype Place<K, V> =
    | Outside
    | WaitsForTransaction
    | WaitsForStatement
    | Beginning
    | Inside(body: seq<Write<K, V>>)
    | Reading

  datatype System<K, V> = System(
    conn: Connection<K, V>,
    places: map<Task, Place<K, V>>,
    log: seq<seq<Write<K, V>>>)

  function Start<K, V>(): System<K, V> { System(Fresh(), map[], []) }

  function At<K, V>(s: System<K, V>, t: Task): Place<K, V> {
    if t in s.places then s.places[t] else Outside
  }

  datatype Step<K, V> =
    | CallTransaction(t: Task)
    | CallStatement(t: Task)
    | CancelWait(t: Task)
    | TakeForTransaction(t: Task)
    | BeginSucceeds(t: Task)
    | BeginFails(t: Task)
    | Execute(t: Task, write: Write<K, V>)
    | CommitSucceeds(t: Task)
    | RollsBack(t: Task)
    | TakeForStatement(t: Task)
    | StatementReturns(t: Task)
    | Crash

  /** A task runs code only where it is not suspended; `owner` and `lock` are consulted as the code does. */
  predicate Enabled<K, V>(s: System<K, V>, step: Step<K, V>) {
    match step
    case CallTransaction(t) => At(s, t).Outside? || At(s, t).Inside?
    case CallStatement(t) => At(s, t).Outside? || At(s, t).Inside?
    case CancelWait(t) => At(s, t).WaitsForTransaction? || At(s, t).WaitsForStatement?
    case TakeForTransaction(t) => At(s, t).WaitsForTransaction? && s.conn.lock.None?
    case BeginSucceeds(t) => At(s, t).Beginning?
    case BeginFails(t) => At(s, t).Beginning?
    case Execute(t, _) => At(s, t).Inside? && s.conn.owner == Some(t)
    case CommitSucceeds(t) => At(s, t).Inside?
    case RollsBack(t) => At(s, t).Inside?
    case TakeForStatement(t) => At(s, t).WaitsForStatement? && s.conn.lock.None?
    case StatementReturns(t) => At(s, t).Reading?
    case Crash => true
  }

  function Taken<K, V>(c: Connection<K, V>, t: Task, owning: bool): Connection<K, V> {
    c.(lock := Some(t), owner := if owning then Some(t) else c.owner)
  }

  function Released<K, V>(c: Connection<K, V>): Connection<K, V> {
    c.(lock := None, owner := None)
  }

  function Committed<K, V>(c: Connection<K, V>): Connection<K, V> {
    c.(committed := c.view, open := false)
  }

  function RolledBack<K, V>(c: Connection<K, V>): Connection<K, V> {
    c.(view := c.committed, open := false)
  }

  function Apply<K, V>(s: System<K, V>, step: Step<K, V>): System<K, V>
    requires Enabled(s, step)
  {
    match step
    case CallTransaction(t) =>
      // The owner of a transaction gets an error instead of a second one.
      if s.conn.owner == Some(t) then s else s.(places := s.places[t := WaitsForTransaction])
    case CallStatement(t) =>
      // The owner executes at once; everybody else has to take the lock.
      if s.conn.owner == Some(t) then s else s.(places := s.places[t := WaitsForStatement])
    case CancelWait(t) => s.(places := s.places[t := Outside])
    case TakeForTransaction(t) => s.(conn := Taken(s.conn, t, true), places := s.places[t := Beginning])
    case BeginSucceeds(t) => s.(conn := s.conn.(open := true), places := s.places[t := Inside([])])
    case BeginFails(t) => s.(conn := Released(s.conn), places := s.places[t := Outside])
    case Execute(t, w) =>
      s.(conn := s.conn.(view := Applied(s.conn.view, w)), places := s.places[t := Inside(At(s, t).body + [w])])
    case CommitSucceeds(t) =>
      System(Released(Committed(s.conn)), s.places[t := Outside], s.log + [At(s, t).body])
    case RollsBack(t) => s.(conn := Released(RolledBack(s.conn)), places := s.places[t := Outside])
    case TakeForStatement(t) => s.(conn := Taken(s.conn, t, false), places := s.places[t := Reading])
    case StatementReturns(t) => s.(conn := s.conn.(lock := None), places := s.places[t := Outside])
    case Crash => s.(conn := Released(RolledBack(s.conn)), places := map[])
  }

  predicate Runs<K, V>(s: System<K, V>, steps: seq<Step<K, V>>)
    decreases |steps|
  {
    steps == [] || (Enabled(s, steps[0]) && Runs(Apply(s, steps[0]), steps[1..]))
  }

  function After<K, V>(s: System<K, V>, steps: seq<Step<K, V>>): System<K, V>
    requires Runs(s, steps)
    decreases |steps|
  {
    if steps == [] then s else After(Apply(s, steps[0]), steps[1..])
  }

  // ---------------------------------------------------------------------------------------------
  // The invariant
  // ---------------------------------------------------------------------------------------------

  ghost predicate LockMatchesPlaces<K, V>(s: System<K, V>) {
    && (forall t: Task :: s.conn.lock == Some(t) <==> At(s, t).Beginning? || At(s, t).Inside? || At(s, t).Reading?)
    && (forall t: Task :: s.conn.owner == Some(t) <==> At(s, t).Beginning? || At(s, t).Inside?)
  }

  ghost predicate ViewIsOwnWork<K, V>(s: System<K, V>) {
    && (s.conn.open <==> exists t: Task :: At(s, t).Inside?)
    && (!s.conn.open ==> s.conn.view == s.conn.committed)
    && (forall t: Task | At(s, t).Inside? :: s.conn.view == AppliedAll(s.conn.committed, At(s, t).body))
  }

  ghost predicate Inv<K, V>(s: System<K, V>) {
    LockMatchesPlaces(s) && ViewIsOwnWork(s) && s.conn.committed == Replay(s.log)
  }

  lemma StepKeepsLock<K, V>(s: System<K, V>, step: Step<K, V>)
    requires Inv(s) && Enabled(s, step)
    ensures LockMatchesPlaces(Apply(s, step))
  {
    var s' := Apply(s, step);
    if !step.Crash? {
      forall u: Task | u != step.t ensures At(s', u) == At(s, u) {}
    }
  }

  /** Nobody else is inside while a task is. */
  lemma InsideAlone<K, V>(s: System<K, V>, t: Task, u: Task)
    requires LockMatchesPlaces(s) && At(s, t).Inside? && t != u
    ensures !At(s, u).Inside? && !At(s, u).Beginning? && !At(s, u).Reading?
  {
    assert s.conn.lock == Some(t);
  }

  lemma ExecuteKeepsView<K, V>(s: System<K, V>, t: Task, w: Write<K, V>)
    requires Inv(s) && Enabled(s, Execute(t, w))
    ensures ViewIsOwnWork(Apply(s, Execute(t, w)))
  {
    var s' := Apply(s, Execute(t, w));
    var body := At(s, t).body;
    assert (body + [w])[..|body|] == body;
    assert At(s', t).Inside?;
    forall u: Task | At(s', u).Inside? ensures s'.conn.view == AppliedAll(s'.conn.committed, At(s', u).body) {
      if u != t { InsideAlone(s, t, u); }
    }
  }

  /** A step other than an execution opens or closes the transaction of its own task, or concerns no transaction. */
  lemma OthersKeepView<K, V>(s: System<K, V>, step: Step<K, V>)
    requires Inv(s) && Enabled(s, step) && !step.Execute?
    ensures ViewIsOwnWork(Apply(s, step))
  {
    var s' := Apply(s, step);
    if !step.Crash? {
      forall u: Task | u != step.t ensures At(s', u) == At(s, u) {}
      if step.BeginSucceeds? { assert At(s', step.t).Inside?; }
    }
  }

  lemma StepKeepsView<K, V>(s: System<K, V>, step: Step<K, V>)
    requires Inv(s) && Enabled(s, step)
    ensures ViewIsOwnWork(Apply(s, step))
    ensures Apply(s, step).conn.committed == Replay(Apply(s, step).log)
  {
    if step.Execute? { ExecuteKeepsView(s, step.t, step.write); } else { OthersKeepView(s, step); }
    if step.CommitSucceeds? { assert Apply(s, step).log[..|s.log|] == s.log; }
  }

  lemma {:induction false} RunKeepsInv<K, V>(s: System<K, V>, steps: seq<Step<K, V>>)
    requires Inv(s) && Runs(s, steps)
    ensures Inv(After(s, steps))
    decreases |steps|
  {
    if steps == [] {
    } else {
      StepKeepsLock(s, steps[0]);
      StepKeepsView(s, steps[0]);
      RunKeepsInv(Apply(s, steps[0]), steps[1..]);
    }
  }

  lemma ReachableInv<K, V>(steps: seq<Step<K, V>>)
    requires Runs(Start(), steps)
    ensures Inv(After(Start(), steps))
  {
    assert forall t: Task :: At(Start<K, V>(), t) == Outside;
    RunKeepsInv(Start(), steps);
  }

  // ---------------------------------------------------------------------------------------------
  // What holds after every run
  // ---------------------------------------------------------------------------------------------

  /**
   The durable table is the committed bodies applied one after another in commit order; a task inside its
   transaction sees exactly that table plus its own writes; a task reading outside a transaction sees that
   table and never a part of somebody's body; and while nobody holds the lock nothing is left open.
   */
  lemma Serializable<K, V>(steps: seq<Step<K, V>>, t: Task)
    requires Runs(Start(), steps)
    ensures var s := After(Start(), steps);
            && s.conn.committed == Replay(s.log)
            && (At(s, t).Inside? ==> s.conn.view == AppliedAll(Replay(s.log), At(s, t).body))
            && (At(s, t).Reading? ==> s.conn.view == Replay(s.log))
            && (s.conn.lock.None? ==> !s.conn.open && s.conn.view == Replay(s.log))
  {
    ReachableInv(steps);
    var s := After(Start(), steps);
    if At(s, t).Reading? || s.conn.lock.None? {
      forall u: Task ensures !At(s, u).Inside? {
        assert s.conn.owner == Some(u) || !At(s, u).Inside?;
      }
    }
  }

  /** The bodies committed along the steps: of each commit, what its task wrote since it had entered its block. */
  function Commits<K, V>(steps: seq<Step<K, V>>, bodies: map<Task, seq<Write<K, V>>>): seq<seq<Write<K, V>>>
    decreases |steps|
  {
    if steps == [] then []
    else
      var first := if steps[0].CommitSucceeds? then [BodyIn(bodies, steps[0].t)] else [];
      first + Commits(steps[1..], BodiesAfter(bodies, steps[0]))
  }

  function BodyIn<K, V>(bodies: map<Task, seq<Write<K, V>>>, t: Task): seq<Write<K, V>> {
    if t in bodies then bodies[t] else []
  }

  function BodiesAfter<K, V>(bodies: map<Task, seq<Write<K, V>>>, step: Step<K, V>): map<Task, seq<Write<K, V>>> {
    match step
    case BeginSucceeds(t) => bodies[t := []]
    case Execute(t, w) => bodies[t := BodyIn(bodies, t) + [w]]
    case _ => bodies
  }

  /** Whoever is inside its block has written this since it entered. */
  ghost predicate BodiesRight<K, V>(s: System<K, V>, bodies: map<Task, seq<Write<K, V>>>) {
    forall t: Task | At(s, t).Inside? :: At(s, t).body == BodyIn(bodies, t)
  }

  lemma StepKeepsBodies<K, V>(s: System<K, V>, step: Step<K, V>, bodies: map<Task, seq<Write<K, V>>>)
    requires Enabled(s, step) && BodiesRight(s, bodies)
    ensures BodiesRight(Apply(s, step), BodiesAfter(bodies, step))
  {
    var s' := Apply(s, step);
    forall t: Task | At(s', t).Inside? ensures At(s', t).body == BodyIn(BodiesAfter(bodies, step), t) {
      if step.Crash? || step.t != t { assert At(s', t) == At(s, t); }
    }
  }

  lemma {:induction false} RunKeepsLog<K, V>(s: System<K, V>, steps: seq<Step<K, V>>,
                                             bodies: map<Task, seq<Write<K, V>>>)
    requires Runs(s, steps) && BodiesRight(s, bodies)
    ensures After(s, steps).log == s.log + Commits(steps, bodies)
    decreases |steps|
  {
    if steps == [] {
      assert s.log + [] == s.log;
    } else {
      var s' := Apply(s, steps[0]);
      StepKeepsBodies(s, steps[0], bodies);
      RunKeepsLog(s', steps[1..], BodiesAfter(bodies, steps[0]));
      assert s'.log == s.log + if steps[0].CommitSucceeds? then [BodyIn(bodies, steps[0].t)] else [];
    }
  }

  /**
   After any run the durable table is what the committing tasks wrote inside their blocks, block after block in the
   order of the commits, read off the steps alone: no write of a task that rolled back or crashed, and none lost.
   */
  lemma CommitsInOrder<K, V>(steps: seq<Step<K, V>>)
    requires Runs(Start(), steps)
    ensures After(Start(), steps).conn.committed == Replay(Commits(steps, map[]))
  {
    assert forall t: Task :: At(Start<K, V>(), t) == Outside;
    RunKeepsLog(Start(), steps, map[]);
    ReachableInv(steps);
    assert Start<K, V>().log + Commits(steps, map[]) == Commits(steps, map[]);
  }

  /** No task ever waits for a lock it holds, and nobody but the holder is inside a guarded block. */
  lemma NeverWaitsForItself<K, V>(steps: seq<Step<K, V>>, t: Task, u: Task)
    requires Runs(Start(), steps)
    ensures var s := After(Start(), steps);
            && (At(s, t).WaitsForTransaction? || At(s, t).WaitsForStatement? ==>
               s.conn.lock != Some(t) && s.conn.owner != Some(t))
            && (t != u && (At(s, t).Inside? || At(s, t).Reading?) ==>
               !At(s, u).Inside? && !At(s, u).Reading? && !At(s, u).Beginning?)
  {
    ReachableInv(steps);
  }

  /** Every way out of a guarded block, errors and cancellations included, leaves lock and owner free. */
  lemma EveryExitReleases<K, V>(steps: seq<Step<K, V>>, step: Step<K, V>, t: Task)
    requires Runs(Start(), steps) && Enabled(After(Start(), steps), step)
    requires var s := After(Start(), steps);
             (At(s, t).Beginning? || At(s, t).Inside? || At(s, t).Reading?) && At(Apply(s, step), t).Outside?
    ensures Apply(After(Start(), steps), step).conn.lock == None
    ensures Apply(After(Start(), steps), step).conn.owner == None
  {
    ReachableInv(steps);
  }

  /** Whoever waits is never stuck: it can take the lock, or the holder has a way to give it back. */
  lemma NoDeadlock<K, V>(steps: seq<Step<K, V>>, t: Task)
    requires Runs(Start(), steps)
    requires At(After(Start(), steps), t).WaitsForTransaction? || At(After(Start(), steps), t).WaitsForStatement?
    ensures var s := After(Start(), steps);
            if s.conn.lock.None? then Enabled(s, TakeForTransaction(t)) || Enabled(s, TakeForStatement(t))
            else exists step :: Enabled(s, step) && step != Crash && Apply(s, step).conn.lock.None?
  {
    ReachableInv(steps);
    var s := After(Start(), steps);
    if s.conn.lock.Some? {
      var h := s.conn.lock.value;
      assert At(s, h).Beginning? || At(s, h).Inside? || At(s, h).Reading?;
      var step := if At(s, h).Beginning? then BeginFails(h) else if At(s, h).Inside? then RollsBack(h)
        else StatementReturns(h);
      assert Enabled(s, step) && Apply(s, step).conn.lock.None?;
    }
  }

  /** The owner is never made to wait: its statements execute at once, and a second transaction is an error. */
  lemma OwnerNeverWaits<K, V>(steps: seq<Step<K, V>>, t: Task)
    requires Runs(Start(), steps) && At(After(Start(), steps), t).Inside?
    ensures var s := After(Start(), steps);
            && Enabled(s, CallStatement(t)) && Apply(s, CallStatement(t)) == s
            && Enabled(s, CallTransaction(t)) && Apply(s, CallTransaction(t)) == s
            && forall w :: Enabled(s, Execute(t, w))
  {
    ReachableInv(steps);
  }

  /** A task that waits can be cancelled, and leaves the connection as it is. */
  lemma CancelledWaitLeavesNothing<K, V>(steps: seq<Step<K, V>>, t: Task)
    requires Runs(Start(), steps)
    ensures var s := After(Start(), steps);
            (At(s, t).WaitsForTransaction? || At(s, t).WaitsForStatement? <==> Enabled(s, CancelWait(t))) &&
            (Enabled(s, CancelWait(t)) ==>
               && Apply(s, CancelWait(t)).conn == s.conn && At(Apply(s, CancelWait(t)), t).Outside?
               && s.conn.lock != Some(t))
  {
    ReachableInv(steps);
  }

  // ---------------------------------------------------------------------------------------------
  // A whole transaction as a run
  // ---------------------------------------------------------------------------------------------

  lemma {:induction false} RunsJoin<K, V>(s: System<K, V>, first: seq<Step<K, V>>, second: seq<Step<K, V>>)
    requires Runs(s, first) && Runs(After(s, first), second)
    ensures Runs(s, first + second) && After(s, first + second) == After(After(s, first), second)
    decreases |first|
  {
    if first == [] {
      assert first + second == second;
    } else {
      assert (first + second)[1..] == first[1..] + second;
      RunsJoin(Apply(s, first[0]), first[1..], second);
    }
  }

  lemma OneStep<K, V>(s: System<K, V>, step: Step<K, V>)
    requires Enabled(s, step)
    ensures Runs(s, [step]) && After(s, [step]) == Apply(s, step)
  {
    assert [step][1..] == [];
  }

  function Executes<K, V>(t: Task, body: seq<Write<K, V>>): seq<Step<K, V>>
    decreases |body|
  {
    if body == [] then [] else Executes(t, body[..|body| - 1]) + [Execute(t, body[|body| - 1])]
  }

  /** The statements of a body, one after another, change the view and nothing else. */
  lemma {:induction false} BodyRuns<K, V>(s: System<K, V>, t: Task, body: seq<Write<K, V>>)
    requires At(s, t) == Inside([]) && s.conn.owner == Some(t)
    ensures Runs(s, Executes(t, body))
    ensures var r := After(s, Executes(t, body));
            && r.conn == s.conn.(view := AppliedAll(s.conn.view, body)) && At(r, t) == Inside(body) && r.log == s.log
            && forall u: Task | u != t :: At(r, u) == At(s, u)
    decreases |body|
  {
    if body == [] {
    } else {
      var n := |body| - 1;
      BodyRuns(s, t, body[..n]);
      var r := After(s, Executes(t, body[..n]));
      OneStep(r, Execute(t, body[n]));
      RunsJoin(s, Executes(t, body[..n]), [Execute(t, body[n])]);
      assert body[..n] + [body[n]] == body;
    }
  }

  /** The steps of an undisturbed transaction block, up to its end. */
  function BlockSteps<K, V>(t: Task, body: seq<Write<K, V>>): seq<Step<K, V>> {
    [CallTransaction(t)] + [TakeForTransaction(t)] + [BeginSucceeds(t)] + Executes(t, body)
  }

  lemma BlockOpens<K, V>(s: System<K, V>, t: Task)
    requires At(s, t).Outside? && s.conn.lock.None? && s.conn.owner != Some(t)
    ensures var steps := [CallTransaction(t)] + [TakeForTransaction(t)] + [BeginSucceeds(t)];
            && Runs(s, steps)
            && After(s, steps) == s.(conn := Taken(s.conn, t, true).(open := true), places := s.places[t := Inside([])])
  {
    var s1 := Apply(s, CallTransaction(t));
    var s2 := Apply(s1, TakeForTransaction(t));
    OneStep(s, CallTransaction(t));
    OneStep(s1, TakeForTransaction(t));
    OneStep(s2, BeginSucceeds(t));
    RunsJoin(s, [CallTransaction(t)], [TakeForTransaction(t)]);
    RunsJoin(s, [CallTransaction(t)] + [TakeForTransaction(t)], [BeginSucceeds(t)]);
    assert s2.places[t := Inside([])] == s.places[t := Inside([])];
  }

  lemma BlockRuns<K, V>(s: System<K, V>, t: Task, body: seq<Write<K, V>>)
    requires Inv(s) && At(s, t).Outside? && s.conn.lock.None?
    ensures Runs(s, BlockSteps(t, body))
    ensures var r := After(s, BlockSteps(t, body));
            && At(r, t) == Inside(body) && r.conn.committed == s.conn.committed
            && r.conn.view == AppliedAll(s.conn.committed, body)
  {
    NobodyInside(s);
    BlockOpens(s, t);
    var entry := [CallTransaction(t)] + [TakeForTransaction(t)] + [BeginSucceeds(t)];
    BodyRuns(After(s, entry), t, body);
    RunsJoin(s, entry, Executes(t, body));
  }

  lemma NobodyInside<K, V>(s: System<K, V>)
    requires Inv(s) && s.conn.lock.None?
    ensures s.conn.view == s.conn.committed && forall t: Task :: s.conn.owner != Some(t)
  {
    forall t: Task ensures !At(s, t).Inside? && !At(s, t).Beginning? { assert s.conn.lock != Some(t); }
  }

  /**
   Whenever the lock is free, any task can run a whole block undisturbed: if it commits, all of its body is durable, and
   if it rolls back, nothing is, as the object in place leaves it; and the lock is free again.
   */
  lemma TransactionIsRun<K, V>(before: seq<Step<K, V>>, t: Task, body: seq<Write<K, V>>, commits: bool)
    requires Runs(Start(), before)
    requires var s := After(Start(), before); At(s, t).Outside? && s.conn.lock.None?
    ensures var s := After(Start(), before);
            var steps := BlockSteps(t, body) + [if commits then CommitSucceeds(t) else RollsBack(t)];
            && Runs(s, steps)
            && var r := After(s, steps);
               && r.conn.committed == (if commits then AppliedAll(s.conn.committed, body) else s.conn.committed)
               && r.conn.lock.None? && r.conn.owner.None? && !r.conn.open && r.conn.view == r.conn.committed
  {
    ReachableInv(before);
    var s := After(Start(), before);
    BlockRuns(s, t, body);
    var r := After(s, BlockSteps(t, body));
    var last := if commits then CommitSucceeds(t) else RollsBack(t);
    OneStep(r, last);
    RunsJoin(s, BlockSteps(t, body), [last]);
  }

  // ---------------------------------------------------------------------------------------------
  // The object
  // ---------------------------------------------------------------------------------------------

  class Database<K(==), V> {
    var committed: Table<K, V>
    var view: Table<K, V>
    var open: bool
    var lock: Option<Task>
    var owner: Option<Task>

    ghost function State(): Connection<K, V>
      reads this
    {
      Connection(committed, view, open, lock, owner)
    }

    constructor ()
      ensures State() == Fresh()
    {
      committed, view, open, lock, owner := map[], map[], false, None, None;
    }

    /** `nested` is the error the owner gets for asking twice. */
    method EnterTransaction(t: Task, beginSucceeds: bool) returns (nested: bool)
      requires owner != Some(t) ==> lock.None?
      modifies this
      ensures nested <==> old(owner) == Some(t)
      ensures State() == if nested then old(State())
                         else if beginSucceeds then Taken(old(State()), t, true).(open := true)
                         else Released(old(State()))
    {
      nested := owner == Some(t);
      if nested { return; }
      lock := Some(t);
      owner := Some(t);
      if beginSucceeds {
        open := true;
      } else {
        owner := None;
        lock := None;
      }
    }

    method ExecuteWrite(w: Write<K, V>)
      modifies this`view
      ensures State() == old(State()).(view := Applied(old(view), w))
    {
      match w
      case Put(k, v) => view := view[k := v];
      case Erase(k) => view := view - {k};
    }

    method CommitAndRelease()
      modifies this
      ensures State() == Released(Committed(old(State())))
    {
      committed := view;
      open := false;
      owner := None;
      lock := None;
    }

    method RollBackAndRelease()
      modifies this
      ensures State() == Released(RolledBack(old(State())))
    {
      view := committed;
      open := false;
      owner := None;
      lock := None;
    }

    /**
     A whole transaction block of one task. `failsAt` is where its body raises, if it does; the begin and the
     commit may fail too. All of the body becomes durable or none of it, and the lock and the owner are free
     again either way.
     */
    method RunTransaction(t: Task, body: seq<Write<K, V>>, beginSucceeds: bool, failsAt: Option<nat>,
                          commitSucceeds: bool)
      returns (done: bool)
      requires lock.None? && owner.None? && !open && view == committed
      modifies this
      ensures done <==> beginSucceeds && (failsAt.None? || failsAt.value >= |body|) && commitSucceeds
      ensures committed == if done then AppliedAll(old(committed), body) else old(committed)
      ensures lock.None? && owner.None? && !open && view == committed
    {
      var nested := EnterTransaction(t, beginSucceeds);
      if !beginSucceeds { return false; }
      var i := 0;
      while i < |body|
        invariant 0 <= i <= |body|
        invariant committed == old(committed) && view == AppliedAll(committed, body[..i])
        invariant failsAt.Some? ==> i <= failsAt.value
      {
        if failsAt == Some(i) {
          RollBackAndRelease();
          return false;
        }
        assert body[..i + 1][..i] == body[..i];
        ExecuteWrite(body[i]);
        i := i + 1;
      }
      assert body[..i] == body;
      done := commitSucceeds;
      if done { CommitAndRelease(); } else { RollBackAndRelease(); }
    }
  }
}
