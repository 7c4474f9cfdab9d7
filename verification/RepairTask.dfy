/**
 The startup repair as one more task: it reads the list of unflagged events once and goes through it, and the worker,
 the market loop, discovery and crashes may come between any two of its database calls.
 */
module RepairTask {
  import opened Wrappers
  import opened DedupeKeys
  import opened Outbox
  import Pipeline
  import PipelineRuns
  import Listing

  /** What the repair does next with the event it has come to. */
  datatype Point = Looking | Flagging | Enqueueing

  /** `at` is how many of the listed events are done with. */
  datatype Repair = Waiting | Running(listed: seq<string>, at: nat, point: Point) | Aborted

  datatype World = World(base: Pipeline.System, repair: Repair)

  /** `Other` is a step of another task; the next five are the repair's own. */
  datatype Act =
    | Other(step: Pipeline.Step)
    | Begin(order: seq<string>)
    | Find
    | Flag
    | Enqueue
    | Abort

  predicate Busy(w: World) {
    w.repair.Running? && w.repair.at < |w.repair.listed|
  }

  /** The repair has come to the end of its list. */
  predicate Ended(w: World) {
    w.repair.Running? && w.repair.at == |w.repair.listed|
  }

  function Current(w: World): string
    requires Busy(w)
  {
    w.repair.listed[w.repair.at]
  }

  ghost predicate Enabled(w: World, act: Act) {
    match act
    case Other(step) => Pipeline.Enabled(w.base, step)
    case Begin(order) => w.repair.Waiting? && Listing.Visits(order, Listing.UnsentKeys(w.base.events))
    case Find => Busy(w) && w.repair.point.Looking?
    case Flag => Busy(w) && w.repair.point.Flagging?
    case Enqueue => Busy(w) && w.repair.point.Enqueueing?
    case Abort => Busy(w)
  }

  function Next(r: Repair): Repair
    requires r.Running?
  {
    r.(at := r.at + 1, point := Looking)
  }

  /** A row that is not sent is left to the worker; without a row, the event is announced if announcements are on. */
  function Found(st: Pipeline.Settings, w: World): World
    requires Busy(w)
  {
    var key := Current(w);
    if KeyTaken(w.base.rows, Some(ListingKey(key))) then
      w.(repair := if Listing.RowIsSent(w.base.rows, key) then w.repair.(point := Flagging) else Next(w.repair))
    else w.(repair := if st.announceListings then w.repair.(point := Enqueueing) else Next(w.repair))
  }

  /** If another task has inserted the row meanwhile, the unique index raises, and that ends the repair. */
  function Enqueued(w: World): World
    requires Busy(w)
  {
    if KeyTaken(w.base.rows, Some(ListingKey(Current(w)))) then w.(repair := Aborted)
    else w.(base := w.base.(rows := w.base.rows + [ListingRow(Current(w), w.base.clock)]), repair := Next(w.repair))
  }

  ghost function Apply(st: Pipeline.Settings, w: World, act: Act): World
    requires Enabled(w, act)
  {
    match act
    case Other(step) =>
      // After a crash a new process starts with a repair of its own.
      World(Pipeline.Apply(st, w.base, step), if step.Crash? then Waiting else w.repair)
    case Begin(order) => w.(repair := Running(order, 0, Looking))
    case Find => Found(st, w)
    case Flag => World(w.base.(events := FlaggedSent(w.base.events, Current(w))), Next(w.repair))
    case Enqueue => Enqueued(w)
    case Abort => w.(repair := Aborted)
  }

  ghost predicate Runs(st: Pipeline.Settings, w: World, acts: seq<Act>)
    decreases |acts|
  {
    acts == [] || (Enabled(w, acts[0]) && Runs(st, Apply(st, w, acts[0]), acts[1..]))
  }

  ghost function After(st: Pipeline.Settings, w: World, acts: seq<Act>): World
    requires Runs(st, w, acts)
    decreases |acts|
  {
    if acts == [] then w else After(st, Apply(st, w, acts[0]), acts[1..])
  }

  // ---------------------------------------------------------------------------------------------
  // What every act keeps
  // ---------------------------------------------------------------------------------------------

  /** Rows keep their keys and a final status, and events stay recorded, silent or not, and flagged. */
  ghost predicate Kept(s: Pipeline.System, s': Pipeline.System) {
    && |s.rows| <= |s'.rows|
    && (forall i | 0 <= i < |s.rows| :: s'.rows[i].dedupe == s.rows[i].dedupe)
    && (forall i | 0 <= i < |s.rows| :: s.rows[i].status.Sent? ==> s'.rows[i].status.Sent?)
    && (forall key | key in s.events ::
          && key in s'.events && s'.events[key].silent == s.events[key].silent
          && (s.events[key].sent ==> s'.events[key].sent))
  }

  lemma StepKeeps(st: Pipeline.Settings, s: Pipeline.System, step: Pipeline.Step)
    requires KeysUnique(s.rows) && Pipeline.JobsCurrent(s) && Pipeline.Enabled(s, step)
    ensures var s' := Pipeline.Apply(st, s, step);
            KeysUnique(s'.rows) && Pipeline.JobsCurrent(s') && Kept(s, s')
  {
    var s' := Pipeline.Apply(st, s, step);
    PipelineRuns.StepKeepsKeys(st, s, step);
    Pipeline.StepKeepsJobs(st, s, step);
    Pipeline.StepFollows(st, s, step);
    RowsKept(st, s, step, s'.rows);
    forall key | key in s.events
      ensures key in s'.events && s'.events[key].silent == s.events[key].silent
              && (s.events[key].sent ==> s'.events[key].sent)
    {
      PipelineRuns.StepKeepsEvents(st, s, step, key);
    }
  }

  lemma RowsKept(st: Pipeline.Settings, s: Pipeline.System, step: Pipeline.Step, rows: seq<Row>)
    requires Pipeline.JobsCurrent(s) && Pipeline.Enabled(s, step) && Pipeline.RowsFollow(st, s, step, rows)
    ensures |s.rows| <= |rows|
    ensures forall i | 0 <= i < |s.rows| :: rows[i].dedupe == s.rows[i].dedupe
    ensures forall i | 0 <= i < |s.rows| :: s.rows[i].status.Sent? ==> rows[i].status.Sent?
  {
  }

  /** A repair may insert a row as long as its key is free. */
  lemma InsertKeeps(s: Pipeline.System, key: string)
    requires KeysUnique(s.rows) && Pipeline.JobsCurrent(s) && !KeyTaken(s.rows, Some(ListingKey(key)))
    ensures var s' := s.(rows := s.rows + [ListingRow(key, s.clock)]);
            && KeysUnique(s'.rows) && Pipeline.JobsCurrent(s') && Kept(s, s')
            && KeyTaken(s'.rows, Some(ListingKey(key)))
  {
    var s' := s.(rows := s.rows + [ListingRow(key, s.clock)]);
    Listing.AppendKeepsRows(s.rows, ListingRow(key, s.clock), key);
    Pipeline.AddedRowsKeepJobs(s, s');
    assert s'.rows[|s.rows|].dedupe == Some(ListingKey(key));
  }

  lemma ActKeeps(st: Pipeline.Settings, w: World, act: Act)
    requires KeysUnique(w.base.rows) && Pipeline.JobsCurrent(w.base) && Enabled(w, act)
    ensures var w' := Apply(st, w, act);
            KeysUnique(w'.base.rows) && Pipeline.JobsCurrent(w'.base) && Kept(w.base, w'.base)
  {
    match act
    case Other(step) => StepKeeps(st, w.base, step);
    case Flag => Pipeline.SameJobsCurrent(w.base, Apply(st, w, act).base);
    case Enqueue =>
      if !KeyTaken(w.base.rows, Some(ListingKey(Current(w)))) { InsertKeeps(w.base, Current(w)); }
    case _ =>
  }

  /** A key that is taken stays taken, and a sent row sent. */
  lemma KeptRows(s: Pipeline.System, s': Pipeline.System, key: string)
    requires Kept(s, s')
    ensures KeyTaken(s.rows, Some(ListingKey(key))) ==> KeyTaken(s'.rows, Some(ListingKey(key)))
    ensures Listing.RowIsSent(s.rows, key) ==> Listing.RowIsSent(s'.rows, key)
  {
    if KeyTaken(s.rows, Some(ListingKey(key))) {
      var i :| 0 <= i < |s.rows| && s.rows[i].dedupe == Some(ListingKey(key));
      assert s'.rows[i].dedupe == Some(ListingKey(key));
    }
    if Listing.RowIsSent(s.rows, key) {
      var i :| 0 <= i < |s.rows| && s.rows[i].dedupe == Some(ListingKey(key)) && s.rows[i].status.Sent?;
      assert s'.rows[i].dedupe == Some(ListingKey(key)) && s'.rows[i].status.Sent?;
    }
  }

  // ---------------------------------------------------------------------------------------------
  // The repair reaches every event it has listed
  // ---------------------------------------------------------------------------------------------

  /** Nothing is left to do about the event: it is flagged, never announced, or has its row. */
  ghost predicate Settled(s: Pipeline.System, key: string) {
    && key in s.events
    && (s.events[key].sent || s.events[key].silent || KeyTaken(s.rows, Some(ListingKey(key))))
  }

  ghost predicate Ahead(w: World, key: string) {
    w.repair.Running? && exists k :: w.repair.at <= k < |w.repair.listed| && w.repair.listed[k] == key
  }

  /** A repair under way has the event settled or ahead of it. */
  ghost predicate Covering(w: World, key: string) {
    && key in w.base.events
    && (w.repair.Running? ==> Settled(w.base, key) || Ahead(w, key))
    && (w.repair.Running? && !w.repair.point.Looking? ==> Busy(w))
  }

  /** Moving on leaves the event ahead, unless it was the current one. */
  lemma AheadMoves(w: World, w': World, key: string)
    requires Busy(w) && Ahead(w, key) && w'.repair == Next(w.repair)
    ensures Ahead(w', key) || key == Current(w)
  {
    var k :| w.repair.at <= k < |w.repair.listed| && w.repair.listed[k] == key;
    assert w'.repair.listed[k] == key;
  }

  lemma ActKeepsCovering(st: Pipeline.Settings, w: World, act: Act, key: string)
    requires KeysUnique(w.base.rows) && Pipeline.JobsCurrent(w.base) && Enabled(w, act)
    requires st.announceListings && Covering(w, key)
    ensures Covering(Apply(st, w, act), key)
  {
    var w' := Apply(st, w, act);
    ActKeeps(st, w, act);
    KeptRows(w.base, w'.base, key);
    if Settled(w.base, key) {
      assert Settled(w'.base, key);
    } else if act.Begin? {
      assert key in act.order;
      var k :| 0 <= k < |act.order| && act.order[k] == key;
      assert w'.repair.listed[k] == key;
    } else if w.repair.Running? && w'.repair.Running? && w'.repair != w.repair {
      ProgressCovers(st, w, act, key);
    }
  }

  /** The repair's own acts settle the event they finish. */
  lemma ProgressCovers(st: Pipeline.Settings, w: World, act: Act, key: string)
    requires KeysUnique(w.base.rows) && Pipeline.JobsCurrent(w.base) && Enabled(w, act)
    requires (act.Find? || act.Flag? || act.Enqueue?) && st.announceListings
    requires key in w.base.events && !Settled(w.base, key) && Ahead(w, key)
    ensures var w' := Apply(st, w, act);
            w'.repair.Running? ==> Settled(w'.base, key) || Ahead(w', key)
  {
    var w' := Apply(st, w, act);
    if w'.repair == Next(w.repair) {
      AheadMoves(w, w', key);
      if act.Enqueue? { InsertKeeps(w.base, Current(w)); }
    } else if w'.repair.Running? {
      var k :| w.repair.at <= k < |w.repair.listed| && w.repair.listed[k] == key;
      assert w'.repair.listed[k] == key && w'.repair.at == w.repair.at;
    }
  }

  lemma {:induction false} RunKeepsJobs(st: Pipeline.Settings, w: World, acts: seq<Act>)
    requires KeysUnique(w.base.rows) && Pipeline.JobsCurrent(w.base) && Runs(st, w, acts)
    ensures KeysUnique(After(st, w, acts).base.rows) && Pipeline.JobsCurrent(After(st, w, acts).base)
    decreases |acts|
  {
    if acts == [] {
    } else {
      ActKeeps(st, w, acts[0]);
      RunKeepsJobs(st, Apply(st, w, acts[0]), acts[1..]);
    }
  }

  lemma {:induction false} RunKeepsCovering(st: Pipeline.Settings, w: World, acts: seq<Act>, key: string)
    requires KeysUnique(w.base.rows) && Pipeline.JobsCurrent(w.base) && Runs(st, w, acts)
    requires st.announceListings && Covering(w, key)
    ensures Covering(After(st, w, acts), key)
    decreases |acts|
  {
    if acts == [] {
    } else {
      ActKeeps(st, w, acts[0]);
      ActKeepsCovering(st, w, acts[0], key);
      RunKeepsCovering(st, Apply(st, w, acts[0]), acts[1..], key);
    }
  }

  lemma {:induction false} RunKeepsSettled(st: Pipeline.Settings, w: World, acts: seq<Act>, key: string)
    requires KeysUnique(w.base.rows) && Pipeline.JobsCurrent(w.base) && Runs(st, w, acts) && Settled(w.base, key)
    ensures var r := After(st, w, acts); KeysUnique(r.base.rows) && Settled(r.base, key)
    decreases |acts|
  {
    if acts == [] {
    } else {
      ActKeeps(st, w, acts[0]);
      KeptRows(w.base, Apply(st, w, acts[0]).base, key);
      RunKeepsSettled(st, Apply(st, w, acts[0]), acts[1..], key);
    }
  }

  /**
   From any tables with unique keys, however inconsistent, and whatever the worker, the market loop, discovery and
   crashes do in between: once a repair has come to the end of its list, every event recorded before it began is
   flagged, never announced, or owns exactly one row, and stays so in every run from there.
   */
  lemma RepairCovers(st: Pipeline.Settings, w: World, acts: seq<Act>, more: seq<Act>, key: string)
    requires KeysUnique(w.base.rows) && Pipeline.JobsCurrent(w.base) && w.repair.Waiting? && Runs(st, w, acts)
    requires st.announceListings && key in w.base.events
    requires Ended(After(st, w, acts)) && Runs(st, After(st, w, acts), more)
    ensures Listing.Covered(PipelineRuns.TablesOf(After(st, After(st, w, acts), more).base), key)
  {
    RunKeepsJobs(st, w, acts);
    RunKeepsCovering(st, w, acts, key);
    assert !Ahead(After(st, w, acts), key);
    RunKeepsSettled(st, After(st, w, acts), more, key);
    Listing.UniqueRowOwned(After(st, After(st, w, acts), more).base.rows, key);
  }

  // ---------------------------------------------------------------------------------------------
  // And it flags what was delivered, announcements on or off
  // ---------------------------------------------------------------------------------------------

  /** The event's row is sent, and it is flagged or ahead of a repair under way. */
  ghost predicate ToBeFlagged(w: World, key: string) {
    && key in w.base.events && !w.base.events[key].silent && Listing.RowIsSent(w.base.rows, key)
    && (w.repair.Running? ==> w.base.events[key].sent || Ahead(w, key))
  }

  lemma ActKeepsToBeFlagged(st: Pipeline.Settings, w: World, act: Act, key: string)
    requires KeysUnique(w.base.rows) && Pipeline.JobsCurrent(w.base) && Enabled(w, act) && ToBeFlagged(w, key)
    ensures ToBeFlagged(Apply(st, w, act), key)
  {
    var w' := Apply(st, w, act);
    ActKeeps(st, w, act);
    KeptRows(w.base, w'.base, key);
    if w.base.events[key].sent {
    } else if act.Begin? {
      assert key in act.order;
      var k :| 0 <= k < |act.order| && act.order[k] == key;
      assert w'.repair.listed[k] == key;
    } else if w.repair.Running? && w'.repair == Next(w.repair) {
      AheadMoves(w, w', key);
    } else if w.repair.Running? && w'.repair.Running? {
      var k :| w.repair.at <= k < |w.repair.listed| && w.repair.listed[k] == key;
      assert w'.repair.listed[k] == key;
    }
  }

  lemma {:induction false} RunKeepsToBeFlagged(st: Pipeline.Settings, w: World, acts: seq<Act>, key: string)
    requires KeysUnique(w.base.rows) && Pipeline.JobsCurrent(w.base) && Runs(st, w, acts) && ToBeFlagged(w, key)
    ensures ToBeFlagged(After(st, w, acts), key)
    decreases |acts|
  {
    if acts == [] {
    } else {
      ActKeeps(st, w, acts[0]);
      ActKeepsToBeFlagged(st, w, acts[0], key);
      RunKeepsToBeFlagged(st, Apply(st, w, acts[0]), acts[1..], key);
    }
  }

  /** An event whose message was delivered before the repair began is flagged when the repair ends. */
  lemma RepairFlags(st: Pipeline.Settings, w: World, acts: seq<Act>, key: string)
    requires KeysUnique(w.base.rows) && Pipeline.JobsCurrent(w.base) && w.repair.Waiting? && Runs(st, w, acts)
    requires key in w.base.events && !w.base.events[key].silent && Listing.RowIsSent(w.base.rows, key)
    requires Ended(After(st, w, acts))
    ensures key in After(st, w, acts).base.events && After(st, w, acts).base.events[key].sent
  {
    RunKeepsToBeFlagged(st, w, acts, key);
  }
}
