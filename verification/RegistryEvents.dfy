/**
 What each event of a reconciliation says, and which events there are: read off the stored table and the fetched list
 alone.
 */
module RegistryEvents {
  import opened Wrappers
  import opened Registry

  /** The list has a copy of the instrument with this status. */
  ghost predicate Fetched(fetched: seq<Instrument>, key: Key, status: string) {
    exists i :: 0 <= i < |fetched| && (fetched[i].category, fetched[i].symbol) == key && fetched[i].status == status
  }

  ghost predicate Absent(fetched: seq<Instrument>, key: Key) {
    forall i | 0 <= i < |fetched| :: (fetched[i].category, fetched[i].symbol) != key
  }

  /** The event is there for a reason: new, changed or gone, with the statuses before and now. */
  ghost predicate Warranted(table: Table, fetched: seq<Instrument>, e: RegistryEvent) {
    match e
    case New(key, status) => table != map[] && key !in table && Fetched(fetched, key, status)
    case StatusTransition(key, from, to) =>
      key in table && from == table[key].instrument.status && from != to && Fetched(fetched, key, to)
    case Removed(key, from) =>
      key in table && from == table[key].instrument.status && from != "Removed" && Absent(fetched, key)
  }

  lemma {:induction false} FetchEventsExactly(table: Table, fetched: seq<Instrument>, e: RegistryEvent)
    ensures e in FetchEvents(table, fetched) <==> !e.Removed? && Warranted(table, fetched, e)
    decreases |fetched|
  {
    if fetched == [] {
    } else {
      var n := |fetched| - 1;
      FetchEventsExactly(table, fetched[..n], e);
      if !e.Removed? {
        var status := if e.New? then e.status else e.to;
        FetchedLast(fetched, e.key, status);
      }
    }
  }

  lemma FetchedLast(fetched: seq<Instrument>, key: Key, status: string)
    requires fetched != []
    ensures var n := |fetched| - 1;
            Fetched(fetched, key, status) <==>
              || Fetched(fetched[..n], key, status)
              || ((fetched[n].category, fetched[n].symbol) == key && fetched[n].status == status)
  {
    var n := |fetched| - 1;
    if Fetched(fetched[..n], key, status) {
      var i :|
        0 <= i < n && (fetched[..n][i].category, fetched[..n][i].symbol) == key && fetched[..n][i].status == status;
      assert fetched[i] == fetched[..n][i];
    }
    if Fetched(fetched, key, status) {
      var i :| 0 <= i < |fetched| && (fetched[i].category, fetched[i].symbol) == key && fetched[i].status == status;
      if i < n { assert fetched[..n][i] == fetched[i]; }
    }
  }

  lemma GoneExactly(table: Table, fetched: seq<Instrument>, key: Key)
    ensures key in Gone(table, fetched) <==>
            key in table && table[key].instrument.status != "Removed" && Absent(fetched, key)
  {
    if key in Identities(fetched) {
      var i :| 0 <= i < |fetched| && Identity(fetched[i]) == key;
      assert (fetched[i].category, fetched[i].symbol) == key;
    } else {
      forall i | 0 <= i < |fetched| ensures (fetched[i].category, fetched[i].symbol) != key {
        assert Identity(fetched[i]) in Identities(fetched);
      }
    }
  }

  /**
   Whatever the table and the list, an event is among those of a reconciliation if and only if it is warranted: a new
   event by a copy of an instrument that was not stored, a transition by a copy whose status is not the stored one,
   which it names, and a removal by an instrument that is in no copy and was not removed before.
   */
  lemma EventsExactly(table: Table, fetched: seq<Instrument>, events: seq<RegistryEvent>, e: RegistryEvent)
    requires ReconcileEvents(table, fetched, events)
    ensures e in events <==> Warranted(table, fetched, e)
  {
    var removals: seq<RegistryEvent> :|
      RemovalEvents(table, fetched, removals) && events == FetchEvents(table, fetched) + removals;
    FetchEventsExactly(table, fetched, e);
    if e.Removed? {
      GoneExactly(table, fetched, e.key);
      if e.key in Gone(table, fetched) {
        var i :| 0 <= i < |removals| && removals[i].key == e.key;
        assert removals[i].from == table[e.key].instrument.status;
      }
      if e in removals {
        var i :| 0 <= i < |removals| && removals[i] == e;
        assert e.key in Gone(table, fetched);
      }
    } else {
      assert e !in removals;
    }
  }

  // ---------------------------------------------------------------------------------------------
  // The stored table afterwards
  // ---------------------------------------------------------------------------------------------

  /** The last copy of the instrument in the list. */
  ghost predicate LastOf(fetched: seq<Instrument>, key: Key, inst: Instrument) {
    exists i :: 0 <= i < |fetched| && fetched[i] == inst && (inst.category, inst.symbol) == key
      && forall j | i < j < |fetched| :: (fetched[j].category, fetched[j].symbol) != key
  }

  lemma {:induction false} UpsertedExactly(table: Table, fetched: seq<Instrument>, now: int, key: Key)
    ensures var after := UpsertedAll(table, fetched, now);
            && (Absent(fetched, key) ==>
                  (key in after <==> key in table) && (key in table ==> after[key] == table[key]))
            && (!Absent(fetched, key) ==>
                  && key in after && LastOf(fetched, key, after[key].instrument)
                  && after[key].lastSeenAt == now
                  && after[key].firstSeenAt == if key in table then table[key].firstSeenAt else now)
    decreases |fetched|
  {
    if fetched == [] {
    } else {
      var n := |fetched| - 1;
      UpsertedExactly(table, fetched[..n], now, key);
      var before := UpsertedAll(table, fetched[..n], now);
      if (fetched[n].category, fetched[n].symbol) == key {
        assert LastOf(fetched, key, fetched[n]);
      } else if Absent(fetched[..n], key) {
        AbsentLast(fetched, key);
      } else {
        LastLater(fetched, key, before[key].instrument);
      }
    }
  }

  lemma AbsentLast(fetched: seq<Instrument>, key: Key)
    requires fetched != [] && Absent(fetched[..|fetched| - 1], key)
    requires (fetched[|fetched| - 1].category, fetched[|fetched| - 1].symbol) != key
    ensures Absent(fetched, key)
  {
    forall i | 0 <= i < |fetched| ensures (fetched[i].category, fetched[i].symbol) != key {
      if i < |fetched| - 1 { assert fetched[..|fetched| - 1][i] == fetched[i]; }
    }
  }

  lemma LastLater(fetched: seq<Instrument>, key: Key, inst: Instrument)
    requires fetched != [] && LastOf(fetched[..|fetched| - 1], key, inst)
    requires (fetched[|fetched| - 1].category, fetched[|fetched| - 1].symbol) != key
    ensures LastOf(fetched, key, inst) && !Absent(fetched, key)
  {
    var n := |fetched| - 1;
    var i :| 0 <= i < n && fetched[..n][i] == inst
      && forall j | i < j < n :: (fetched[..n][j].category, fetched[..n][j].symbol) != key;
    forall j | i < j < |fetched| ensures (fetched[j].category, fetched[j].symbol) != key {
      if j < n { assert fetched[..n][j] == fetched[j]; }
    }
    assert fetched[i] == inst;
  }

  /**
   What a reconciliation leaves stored of one instrument, whatever the table and the list: its last copy, with the time
   it was first seen kept; without a copy, what was stored, marked removed now unless it was before; and nothing else.
   */
  lemma RecordsExactly(table: Table, fetched: seq<Instrument>, now: int, key: Key)
    ensures var after := Reconciled(table, fetched, now);
            if Absent(fetched, key) then
              && (key in after <==> key in table)
              && (key in table && table[key].instrument.status == "Removed" ==> after[key] == table[key])
              && (key in table && table[key].instrument.status != "Removed" ==>
                    && after[key].instrument == table[key].instrument.(status := "Removed")
                    && after[key].firstSeenAt == table[key].firstSeenAt && after[key].lastSeenAt == now)
            else
              && key in after && LastOf(fetched, key, after[key].instrument) && after[key].lastSeenAt == now
              && after[key].firstSeenAt == if key in table then table[key].firstSeenAt else now
  {
    UpsertedExactly(table, fetched, now, key);
    GoneExactly(table, fetched, key);
  }
}
