/**
 Listing acknowledgement over whole runs of the pipeline: an event is flagged as sent exactly when its own
 outbox row is marked sent.
 */
module PipelineListing {
  import opened Wrappers
  import opened AlertMachine
  import opened AlertTrace
  import opened DedupeKeys
  import opened Outbox
  import opened Pipeline

  /** Listing rows carry the key of their event, and alert rows never look like one. */
  ghost predicate OriginsKeyed(s: System) {
    && KeysUnique(s.rows)
    && (forall i | 0 <= i < |s.rows| && s.rows[i].origin.Some? ::
          && s.rows[i].dedupe == Some(ListingKey(s.rows[i].origin.value))
          && s.rows[i].origin.value in s.events)
    && (forall i | 0 <= i < |s.rows| && s.rows[i].origin.None? ::
          && s.rows[i].tag.AlertTag?
          && (s.rows[i].dedupe.Some? ==> s.rows[i].dedupe.value != "" && s.rows[i].dedupe.value[0] != 'l'))
    && s.announcing <= s.events.Keys
  }

  /** The outbox row of an event, by its key, is marked sent. */
  ghost predicate RowSent(rows: seq<Row>, key: string) {
    exists i :: 0 <= i < |rows| && rows[i].origin == Some(key) && rows[i].status.Sent?
  }

  ghost predicate Acknowledged(s: System) {
    forall key | key in s.events :: s.events[key].sent <==> RowSent(s.rows, key)
  }

  /** The keys of alert messages do not start like those of listings. */
  lemma AlertKeyIsNoListingKey(cfg: Config, kind: Kind, cycle: Cycle)
    ensures var k := KeyFor(cfg, kind, cycle); k.Some? ==> k.value != "" && k.value[0] != 'l'
  {
    var k := KeyFor(cfg, kind, cycle);
    if k.Some? {
      match kind
      case TransitionMessage => assert k.value[0] == 't';
      case HourlyMessage => assert k.value[0] == 'h';
      case CompositionMessage => assert k.value[0] == 'c';
    }
  }

  /** A new row with a free key: of a recorded event under its key, or of an alert. */
  lemma NewRowKeyed(s: System, s': System, row: Row)
    requires OriginsKeyed(s) && s'.rows == s.rows + [row] && s'.events == s.events && s'.announcing <= s.announcing
    requires !KeyTaken(s.rows, row.dedupe)
    requires row.origin.Some? ==> row.dedupe == Some(ListingKey(row.origin.value)) && row.origin.value in s.events
    requires row.origin.None? ==>
               row.tag.AlertTag? && (row.dedupe.Some? ==> row.dedupe.value != "" && row.dedupe.value[0] != 'l')
    ensures OriginsKeyed(s')
  {
    assert forall i | 0 <= i < |s.rows| :: s'.rows[i] == s.rows[i];
    assert s'.rows[|s.rows|] == row;
  }

  lemma InsertKeepsOrigins(st: Settings, s: System, step: Step)
    requires OriginsKeyed(s) && Enabled(s, step) && (step.PersistCommits? || step.EnqueueListing?)
    ensures OriginsKeyed(Apply(st, s, step))
  {
    var s' := Apply(st, s, step);
    if |s'.rows| > |s.rows| {
      if step.PersistCommits? { AlertKeyIsNoListingKey(st.alerts, KindOf(s.market.decision).value, s.market.cycle); }
      NewRowKeyed(s, s', s'.rows[|s.rows|]);
    }
  }

  lemma UpdateKeepsOrigins(st: Settings, s: System, step: Step)
    requires OriginsKeyed(s) && Enabled(s, step) && !step.PersistCommits? && !step.EnqueueListing?
    ensures OriginsKeyed(Apply(st, s, step))
  {
    var s' := Apply(st, s, step);
    assert |s'.rows| == |s.rows|;
    forall i | 0 <= i < |s.rows|
      ensures s'.rows[i].tag == s.rows[i].tag && s'.rows[i].dedupe == s.rows[i].dedupe
              && s'.rows[i].origin == s.rows[i].origin
    {}
    assert s.events.Keys <= s'.events.Keys;
  }

  /** The row of a key is unique. */
  lemma KeyedRow(s: System, i: nat, key: string)
    requires OriginsKeyed(s) && i < |s.rows|
    ensures s.rows[i].dedupe == Some(ListingKey(key)) <==> s.rows[i].origin == Some(key)
  {
    if s.rows[i].origin.None? {
      assert ListingKey(key)[0] == 'l';
    } else {
      var o := s.rows[i].origin.value;
      assert ListingKey(o)[|"listing:"|..] == o && ListingKey(key)[|"listing:"|..] == key;
    }
  }

  lemma MarkSentAcknowledges(st: Settings, s: System)
    requires OriginsKeyed(s) && JobsCurrent(s) && Acknowledged(s) && Enabled(s, MarkSentCommits)
    ensures Acknowledged(Apply(st, s, MarkSentCommits))
  {
    var s' := Apply(st, s, MarkSentCommits);
    var id := s.worker.batch[0].id;
    forall key | key in s'.events ensures s'.events[key].sent <==> RowSent(s'.rows, key) {
      assert forall i | 0 <= i < |s.rows| && i != id :: s'.rows[i] == s.rows[i];
      if s.rows[id].origin == Some(key) {
        assert s'.rows[id].origin == Some(key) && s'.rows[id].status.Sent?;
      } else {
        assert RowSent(s'.rows, key) <==> RowSent(s.rows, key);
      }
    }
  }

  lemma StepAcknowledges(st: Settings, s: System, step: Step)
    requires OriginsKeyed(s) && JobsCurrent(s) && Acknowledged(s) && Enabled(s, step)
    ensures Acknowledged(Apply(st, s, step))
  {
    var s' := Apply(st, s, step);
    if step.MarkSentCommits? {
      MarkSentAcknowledges(st, s);
    } else {
      forall key ensures RowSent(s'.rows, key) <==> RowSent(s.rows, key) {
        SentRowsUnchanged(st, s, step);
        if RowSent(s.rows, key) {
          var i :| 0 <= i < |s.rows| && s.rows[i].origin == Some(key) && s.rows[i].status.Sent?;
          assert s'.rows[i] == s.rows[i];
        }
      }
      if step.ReconcileFlags? {
        var i :| 0 <= i < |s.rows| && s.rows[i].dedupe == Some(ListingKey(step.key)) && s.rows[i].status.Sent?;
        KeyedRow(s, i, step.key);
      }
      if step.RecordEvent? && step.key !in s.events {
        assert !RowSent(s.rows, step.key);
      }
    }
  }

  lemma {:induction false} RunAcknowledges(st: Settings, s: System, steps: seq<Step>)
    requires OriginsKeyed(s) && JobsCurrent(s) && Acknowledged(s) && Runs(st, s, steps)
    ensures OriginsKeyed(After(st, s, steps)) && Acknowledged(After(st, s, steps))
    decreases |steps|
  {
    if steps == [] {
    } else {
      var step := steps[0];
      StepKeepsJobs(st, s, step);
      StepAcknowledges(st, s, step);
      if step.PersistCommits? || step.EnqueueListing? {
        InsertKeepsOrigins(st, s, step);
      } else {
        UpdateKeepsOrigins(st, s, step);
      }
      RunAcknowledges(st, Apply(st, s, step), steps[1..]);
    }
  }

  /**
   From empty tables, after any run: a recorded event is flagged as sent if and only if its outbox row is
   marked sent, and an event never has two outbox rows.
   */
  lemma ListingAcknowledgement(st: Settings, clock: int, steps: seq<Step>, key: string)
    requires Runs(st, Start(clock), steps)
    ensures var s := After(st, Start(clock), steps);
            && (key in s.events ==> (s.events[key].sent <==>
                  exists i :: 0 <= i < |s.rows| && s.rows[i].dedupe == Some(ListingKey(key)) && s.rows[i].status.Sent?))
            && (forall i, j | 0 <= i < |s.rows| && 0 <= j < |s.rows| ::
                  s.rows[i].dedupe == Some(ListingKey(key)) && s.rows[j].dedupe == Some(ListingKey(key)) ==> i == j)
  {
    RunAcknowledges(st, Start(clock), steps);
    var s := After(st, Start(clock), steps);
    forall i | 0 <= i < |s.rows| ensures s.rows[i].dedupe == Some(ListingKey(key)) <==> s.rows[i].origin == Some(key) {
      KeyedRow(s, i, key);
    }
  }
}
