/**
 What handling registry events writes, and which listings a reconciliation makes known: from the stored table and the
 fetched list to the rows of the outbox.
 */
module ListingEvents {
  import opened Wrappers
  import opened DedupeKeys
  import opened Outbox
  import opened Registry
  import opened RegistryEvents
  import opened Listing

  // ---------------------------------------------------------------------------------------------
  // What a pass writes
  // ---------------------------------------------------------------------------------------------

  /** The row that announces a listing event: pending, never attempted, under the event's own key. */
  function Announcement(key: string, now: int): Row {
    Row(ListingTag, now, Pending, Some("listing:" + key), Some(key), 0, None)
  }

  /** Recorded by the pass, and not there before. */
  predicate NewlyRecorded(t: Tables, t': Tables, key: string) {
    key in t'.events && key !in t.events
  }

  /** Some event has the key, and it is a removal exactly if the record is silent; nothing new is flagged. */
  ghost predicate RecordRight(t': Tables, events: seq<RegistryEvent>, key: string)
    requires key in t'.events
  {
    exists i :: 0 <= i < |events| && KeyOf(events[i]) == Some(key) && t'.events[key] == Event(events[i].Removed?, false)
  }

  /** A row the pass has added announces an event it has recorded whose key was free. */
  ghost predicate RowRight(t: Tables, t': Tables, now: int, row: Row) {
    && row.origin.Some? && row == Announcement(row.origin.value, now)
    && NewlyRecorded(t, t', row.origin.value) && !t'.events[row.origin.value].silent
    && !KeyTaken(t.rows, row.dedupe)
  }

  ghost predicate RecordsRight(t: Tables, t': Tables, events: seq<RegistryEvent>) {
    && (forall key | key in t.events :: key in t'.events && t'.events[key] == t.events[key])
    && (forall key | NewlyRecorded(t, t', key) :: RecordRight(t', events, key))
  }

  ghost predicate RowsRight(t: Tables, t': Tables, now: int) {
    && t.rows <= t'.rows
    && (forall i | |t.rows| <= i < |t'.rows| :: RowRight(t, t', now, t'.rows[i]))
    && (forall i, j | |t.rows| <= i < j < |t'.rows| :: t'.rows[i].origin != t'.rows[j].origin)
  }

  ghost predicate RowsThere(t: Tables, t': Tables) {
    forall key | NewlyRecorded(t, t', key) && !t'.events[key].silent :: KeyTaken(t'.rows, Some("listing:" + key))
  }

  /** Everything a pass has written so far. */
  ghost predicate Written(t: Tables, t': Tables, events: seq<RegistryEvent>, announce: bool, now: int) {
    && RecordsRight(t, t', events) && RowsRight(t, t', now)
    && if announce then RowsThere(t, t') else t'.rows == t.rows
  }

  lemma RecordsMore(t: Tables, t': Tables, events: seq<RegistryEvent>, e: RegistryEvent)
    requires RecordsRight(t, t', events)
    ensures RecordsRight(t, t', events + [e])
  {
    var all := events + [e];
    forall key | NewlyRecorded(t, t', key) ensures RecordRight(t', all, key) {
      var i :| 0 <= i < |events| && KeyOf(events[i]) == Some(key) && t'.events[key] == Event(events[i].Removed?, false);
      assert all[i] == events[i];
    }
  }

  /** One more record. */
  lemma RecordAdded(t: Tables, before: Tables, events: seq<RegistryEvent>, e: RegistryEvent, after: Tables)
    requires RecordsRight(t, before, events) && KeyOf(e).Some? && KeyOf(e).value !in before.events
    requires after.events == before.events[KeyOf(e).value := Event(e.Removed?, false)]
    ensures RecordsRight(t, after, events + [e])
  {
    var key, all := KeyOf(e).value, events + [e];
    RecordsMore(t, before, events, e);
    forall k | NewlyRecorded(t, after, k) ensures RecordRight(after, all, k) {
      if k == key {
        assert all[|events|] == e && KeyOf(all[|events|]) == Some(k);
      } else {
        assert NewlyRecorded(t, before, k) && RecordRight(before, all, k);
      }
    }
  }

  /** The rows there are still announce recorded events. */
  lemma RowsStay(t: Tables, before: Tables, now: int, after: Tables)
    requires RowsRight(t, before, now) && after.rows == before.rows
    requires forall key | key in before.events :: key in after.events && after.events[key] == before.events[key]
    ensures RowsRight(t, after, now)
  {
    forall i | |t.rows| <= i < |after.rows| ensures RowRight(t, after, now, after.rows[i]) {
      assert RowRight(t, before, now, before.rows[i]);
    }
  }

  /** Recording one more event without a row of its own: it is silent, or its key is taken, or nothing is announced. */
  lemma RecordWritten(t: Tables, before: Tables, events: seq<RegistryEvent>, e: RegistryEvent, announce: bool,
                      now: int, after: Tables)
    requires Written(t, before, events, announce, now)
    requires KeyOf(e).Some? && KeyOf(e).value !in before.events
    requires after == before.(events := before.events[KeyOf(e).value := Event(e.Removed?, false)])
    requires announce && !e.Removed? ==> KeyTaken(before.rows, Some("listing:" + KeyOf(e).value))
    ensures Written(t, after, events + [e], announce, now)
  {
    RecordAdded(t, before, events, e, after);
    RowsStay(t, before, now, after);
    forall k | announce && NewlyRecorded(t, after, k) && !after.events[k].silent
      ensures KeyTaken(after.rows, Some("listing:" + k))
    {
      if k != KeyOf(e).value { assert NewlyRecorded(t, before, k); }
    }
  }

  /** A new row under a free key, of an event recorded just now. */
  lemma RowAdded(t: Tables, before: Tables, key: string, now: int, after: Tables)
    requires RowsRight(t, before, now) && key !in before.events && key !in t.events
    requires !KeyTaken(before.rows, Some("listing:" + key))
    requires after == Tables(before.rows + [Announcement(key, now)], before.events[key := Event(false, false)])
    ensures RowsRight(t, after, now)
  {
    var n := |before.rows|;
    FreeBefore(t, before, Some("listing:" + key));
    assert after.rows[n] == Announcement(key, now);
    forall i | |t.rows| <= i < |after.rows| ensures RowRight(t, after, now, after.rows[i]) {
      if i < n { assert after.rows[i] == before.rows[i] && RowRight(t, before, now, before.rows[i]); }
    }
    forall i, j | |t.rows| <= i < j < |after.rows| ensures after.rows[i].origin != after.rows[j].origin {
      assert after.rows[i] == before.rows[i] && RowRight(t, before, now, before.rows[i]);
      if j < n { assert after.rows[j] == before.rows[j]; }
    }
  }

  /** Every new record that is not silent has its row, the one just added included. */
  lemma RowsThereMore(t: Tables, before: Tables, key: string, now: int, after: Tables)
    requires RowsThere(t, before)
    requires after == Tables(before.rows + [Announcement(key, now)], before.events[key := Event(false, false)])
    ensures RowsThere(t, after)
  {
    forall k | NewlyRecorded(t, after, k) && !after.events[k].silent
      ensures KeyTaken(after.rows, Some("listing:" + k))
    {
      if k == key {
        assert after.rows[|before.rows|].dedupe == Some("listing:" + k);
      } else {
        assert NewlyRecorded(t, before, k);
        var i :| 0 <= i < |before.rows| && before.rows[i].dedupe == Some("listing:" + k);
        assert after.rows[i].dedupe == Some("listing:" + k);
      }
    }
  }

  lemma AnnounceWritten(t: Tables, before: Tables, events: seq<RegistryEvent>, e: RegistryEvent, now: int,
                        after: Tables)
    requires Written(t, before, events, true, now)
    requires KeyOf(e).Some? && !e.Removed? && KeyOf(e).value !in before.events
    requires !KeyTaken(before.rows, Some("listing:" + KeyOf(e).value))
    requires after == Tables(before.rows + [Announcement(KeyOf(e).value, now)],
                             before.events[KeyOf(e).value := Event(false, false)])
    ensures Written(t, after, events + [e], true, now)
  {
    RecordAdded(t, before, events, e, after);
    RowAdded(t, before, KeyOf(e).value, now, after);
    RowsThereMore(t, before, KeyOf(e).value, now, after);
  }

  lemma FreeBefore(t: Tables, before: Tables, dedupe: Option<string>)
    requires t.rows <= before.rows && !KeyTaken(before.rows, dedupe)
    ensures !KeyTaken(t.rows, dedupe)
  {
    forall i | 0 <= i < |t.rows| ensures dedupe.Some? ==> t.rows[i].dedupe != dedupe {
      assert before.rows[i] == t.rows[i];
    }
  }

  lemma EventWritten(t: Tables, before: Tables, events: seq<RegistryEvent>, e: RegistryEvent, announce: bool, now: int)
    requires Written(t, before, events, announce, now)
    ensures Written(t, HandledEvent(before, e, announce, now).tables, events + [e], announce, now)
  {
    var after := HandledEvent(before, e, announce, now).tables;
    if KeyOf(e).None? || KeyOf(e).value in before.events {
      RecordsMore(t, before, events, e);
    } else if |after.rows| > |before.rows| {
      AnnounceWritten(t, before, events, e, now, after);
    } else {
      RecordWritten(t, before, events, e, announce, now, after);
    }
  }

  lemma {:induction false} AllWritten(t: Tables, events: seq<RegistryEvent>, announce: bool, now: int)
    ensures Written(t, HandledAll(t, events, announce, now).tables, events, announce, now)
    decreases |events|
  {
    if events == [] {
    } else {
      var n := |events| - 1;
      var before := HandledAll(t, events[..n], announce, now);
      AllWritten(t, events[..n], announce, now);
      assert events == events[..n] + [events[n]];
      if before.raised {
        RecordsMore(t, before.tables, events[..n], events[n]);
      } else {
        EventWritten(t, before.tables, events[..n], events[n], announce, now);
      }
    }
  }

  /** Exactly one row of the outbox has the key, and it is this one. */
  ghost predicate OnlyRow(rows: seq<Row>, i: nat, key: string) {
    && i < |rows| && rows[i].dedupe == Some("listing:" + key)
    && forall j | 0 <= j < |rows| && j != i :: rows[j].dedupe != Some("listing:" + key)
  }

  /**
   From any tables, whatever the events and wherever the pass ends: old records and old rows stay as they were. Every
   new record is unflagged, and silent if and only if its event is a removal. Without announcements there is no new
   row. With them, every new record that is not silent, and whose row was not there already, has exactly one row of its
   key, a new and pending one; and there are no other new rows.
   */
  lemma HandlingAnnounces(t: Tables, events: seq<RegistryEvent>, announce: bool, now: int, key: string)
    ensures var t' := HandledAll(t, events, announce, now).tables;
            && t.rows <= t'.rows && (!announce ==> t'.rows == t.rows)
            && (key in t.events ==> key in t'.events && t'.events[key] == t.events[key])
            && (key in t'.events && key !in t.events ==>
                  && !t'.events[key].sent
                  && (exists e :: e in events && KeyOf(e) == Some(key))
                  && (t'.events[key].silent <==> exists e :: e in events && KeyOf(e) == Some(key) && e.Removed?)
                  && (announce && !t'.events[key].silent && !KeyTaken(t.rows, Some("listing:" + key)) ==>
                        exists i :: |t.rows| <= i && OnlyRow(t'.rows, i, key) && t'.rows[i] == Announcement(key, now)))
            && (forall i | |t.rows| <= i < |t'.rows| ::
                  && t'.rows[i].origin.Some? && t'.rows[i] == Announcement(t'.rows[i].origin.value, now)
                  && t'.rows[i].origin.value in t'.events && t'.rows[i].origin.value !in t.events)
  {
    var t' := HandledAll(t, events, announce, now).tables;
    AllWritten(t, events, announce, now);
    if NewlyRecorded(t, t', key) {
      RecordTells(t', events, key);
      if announce && !t'.events[key].silent && !KeyTaken(t.rows, Some("listing:" + key)) {
        OneNewRow(t, t', events, now, key);
      }
    }
    assert forall i | |t.rows| <= i < |t'.rows| :: RowRight(t, t', now, t'.rows[i]);
  }

  lemma RecordTells(t': Tables, events: seq<RegistryEvent>, key: string)
    requires key in t'.events && RecordRight(t', events, key)
    ensures !t'.events[key].sent
    ensures exists e :: e in events && KeyOf(e) == Some(key)
    ensures t'.events[key].silent <==> exists e :: e in events && KeyOf(e) == Some(key) && e.Removed?
  {
    var i :| 0 <= i < |events| && KeyOf(events[i]) == Some(key) && t'.events[key] == Event(events[i].Removed?, false);
    assert events[i] in events;
    forall e | e in events && KeyOf(e) == Some(key) ensures e.Removed? == events[i].Removed? {
      SilentByKey(e, events[i]);
    }
  }

  lemma OneNewRow(t: Tables, t': Tables, events: seq<RegistryEvent>, now: int, key: string)
    requires Written(t, t', events, true, now)
    requires NewlyRecorded(t, t', key) && !t'.events[key].silent && !KeyTaken(t.rows, Some("listing:" + key))
    ensures exists i :: |t.rows| <= i && OnlyRow(t'.rows, i, key) && t'.rows[i] == Announcement(key, now)
  {
    forall j | 0 <= j < |t.rows| ensures t'.rows[j].dedupe != Some("listing:" + key) { assert t.rows[j] == t'.rows[j]; }
    var i :| 0 <= i < |t'.rows| && t'.rows[i].dedupe == Some("listing:" + key);
    assert RowRight(t, t', now, t'.rows[i]);
    SameOrigin(t'.rows[i].origin.value, key);
    forall j | 0 <= j < |t'.rows| && j != i ensures t'.rows[j].dedupe != Some("listing:" + key) {
      if j >= |t.rows| {
        assert RowRight(t, t', now, t'.rows[j]) && t'.rows[j].origin != t'.rows[i].origin;
        if t'.rows[j].dedupe == Some("listing:" + key) { SameOrigin(t'.rows[j].origin.value, key); }
      }
    }
    assert OnlyRow(t'.rows, i, key);
  }

  lemma SameOrigin(a: string, b: string)
    requires "listing:" + a == "listing:" + b
    ensures a == b
  {
    assert ("listing:" + a)[8..] == a && ("listing:" + b)[8..] == b;
  }

  // ---------------------------------------------------------------------------------------------
  // Which listings a reconciliation makes known
  // ---------------------------------------------------------------------------------------------

  /** The key of a listing event, as text. */
  function Named(category: string, symbol: string, what: string): string {
    (if category == "" then "announcement" else category) + ":" + symbol + ":" + what
  }

  ghost predicate NewListing(table: Table, fetched: seq<Instrument>, category: string, symbol: string) {
    && Fetched(fetched, (category, symbol), "Trading")
    && if (category, symbol) in table then table[(category, symbol)].instrument.status == "PreLaunch"
       else table != map[]
  }

  ghost predicate NewPrelaunch(table: Table, fetched: seq<Instrument>, category: string, symbol: string) {
    Fetched(fetched, (category, symbol), "PreLaunch") && (category, symbol) !in table && table != map[]
  }

  ghost predicate NewDelisting(table: Table, fetched: seq<Instrument>, category: string, symbol: string) {
    && (category, symbol) in table && table[(category, symbol)].instrument.status != "Removed"
    && Absent(fetched, (category, symbol))
  }

  /** What the key of one event says. */
  lemma KeyOfEvent(e: RegistryEvent, key: string)
    ensures KeyOf(e) == Some(key) <==>
              || (e.New? && e.status == "PreLaunch" && key == Named(e.key.0, e.key.1, "prelaunch"))
              || (e.New? && e.status == "Trading" && key == Named(e.key.0, e.key.1, "trading"))
              || (e.StatusTransition? && e.from == "PreLaunch" && e.to == "Trading"
                  && key == Named(e.key.0, e.key.1, "trading"))
              || (e.Removed? && key == Named(e.key.0, e.key.1, "delisted"))
  {
  }

  lemma KeyInEvents(events: seq<RegistryEvent>, key: string)
    ensures key in KeysOf(events) <==> exists e :: e in events && KeyOf(e) == Some(key)
  {
    if key in KeysOf(events) {
      var i :| 0 <= i < |events| && KeyOf(events[i]).Some? && KeyOf(events[i]).value == key;
      assert events[i] in events;
    }
    if e :| e in events && KeyOf(e) == Some(key) {
      var i :| 0 <= i < |events| && events[i] == e;
      assert KeyOf(events[i]).value == key;
    }
  }

  /**
   The listing events of a reconciliation, from the table and the list: an instrument is newly trading if a copy says so
   and it was stored as prelaunch, or not at all in a table that was not empty; newly in prelaunch if a copy says so and
   it was not stored; and delisted if it was stored, not removed before, and is in no copy.
   */
  lemma ListingsExactly(table: Table, fetched: seq<Instrument>, events: seq<RegistryEvent>, key: string)
    requires ReconcileEvents(table, fetched, events)
    ensures key in KeysOf(events) <==>
              exists category, symbol ::
                || (NewListing(table, fetched, category, symbol) && key == Named(category, symbol, "trading"))
                || (NewPrelaunch(table, fetched, category, symbol) && key == Named(category, symbol, "prelaunch"))
                || (NewDelisting(table, fetched, category, symbol) && key == Named(category, symbol, "delisted"))
  {
    KeyInEvents(events, key);
    if key in KeysOf(events) {
      var e :| e in events && KeyOf(e) == Some(key);
      EventsExactly(table, fetched, events, e);
      KeyOfEvent(e, key);
      ListingOf(table, fetched, e, key);
    }
    forall category, symbol
      | || (NewListing(table, fetched, category, symbol) && key == Named(category, symbol, "trading"))
        || (NewPrelaunch(table, fetched, category, symbol) && key == Named(category, symbol, "prelaunch"))
        || (NewDelisting(table, fetched, category, symbol) && key == Named(category, symbol, "delisted"))
      ensures key in KeysOf(events)
    {
      var k := (category, symbol);
      var e := if NewListing(table, fetched, category, symbol) && key == Named(category, symbol, "trading") then
                 (if k in table then StatusTransition(k, "PreLaunch", "Trading") else New(k, "Trading"))
               else if NewPrelaunch(table, fetched, category, symbol) && key == Named(category, symbol, "prelaunch")
               then New(k, "PreLaunch")
               else Removed(k, table[k].instrument.status);
      EventsExactly(table, fetched, events, e);
      KeyOfEvent(e, key);
    }
  }

  lemma ListingOf(table: Table, fetched: seq<Instrument>, e: RegistryEvent, key: string)
    requires Warranted(table, fetched, e) && KeyOf(e) == Some(key)
    ensures exists category, symbol ::
              || (NewListing(table, fetched, category, symbol) && key == Named(category, symbol, "trading"))
              || (NewPrelaunch(table, fetched, category, symbol) && key == Named(category, symbol, "prelaunch"))
              || (NewDelisting(table, fetched, category, symbol) && key == Named(category, symbol, "delisted"))
  {
    KeyOfEvent(e, key);
    var category, symbol := e.key.0, e.key.1;
    assert e.key == (category, symbol);
    assert || (NewListing(table, fetched, category, symbol) && key == Named(category, symbol, "trading"))
           || (NewPrelaunch(table, fetched, category, symbol) && key == Named(category, symbol, "prelaunch"))
           || (NewDelisting(table, fetched, category, symbol) && key == Named(category, symbol, "delisted"));
  }

  /**
   From the exchange to the outbox: an instrument that a copy shows trading, and that was stored as prelaunch or not at
   all in a table that was not empty, is a recorded listing once the reconciliation's events are handled, from tables
   without stray rows; and with announcements on, if it was not recorded before, exactly one new pending row announces
   it.
   */
  lemma NewTradingIsAnnounced(table: Table, fetched: seq<Instrument>, category: string, symbol: string,
                              events: seq<RegistryEvent>, t: Tables, announce: bool, now: int)
    requires ReconcileEvents(table, fetched, events) && NewListing(table, fetched, category, symbol)
    requires NoStrayRows(t)
    ensures var t' := HandledAll(t, events, announce, now).tables;
            var key := Named(category, symbol, "trading");
            && key in t'.events
            && (key !in t.events ==> t'.events[key] == Event(false, false))
            && (key !in t.events && announce ==>
                  exists i :: |t.rows| <= i && OnlyRow(t'.rows, i, key) && t'.rows[i] == Announcement(key, now))
  {
    var t' := HandledAll(t, events, announce, now).tables;
    var key := Named(category, symbol, "trading");
    ListingsExactly(table, fetched, events, key);
    HandlingRecords(t, events, announce, now);
    if key !in t.events {
      HandlingAnnounces(t, events, announce, now, key);
      TradingNotRemoved(events, category, symbol);
      StrayFree(t, key);
    }
  }

  lemma StrayFree(t: Tables, key: string)
    requires NoStrayRows(t) && key !in t.events
    ensures !KeyTaken(t.rows, Some("listing:" + key))
  {
    assert ListingKey(key) == "listing:" + key;
  }

  lemma TradingNotRemoved(events: seq<RegistryEvent>, category: string, symbol: string)
    ensures forall e | e in events && KeyOf(e) == Some(Named(category, symbol, "trading")) :: !e.Removed?
  {
    forall e | e in events && KeyOf(e) == Some(Named(category, symbol, "trading")) ensures !e.Removed? {
      SilentByKey(e, New((category, symbol), "Trading"));
      KeyOfEvent(New((category, symbol), "Trading"), Named(category, symbol, "trading"));
    }
  }

  // ---------------------------------------------------------------------------------------------
  // What a repair writes
  // ---------------------------------------------------------------------------------------------

  /** Some row of the event's key is marked sent. */
  ghost predicate Delivered(rows: seq<Row>, key: string) {
    exists i :: 0 <= i < |rows| && rows[i].dedupe == Some("listing:" + key) && rows[i].status == Sent
  }

  /** An event that is neither flagged nor silent and has no row of its key. */
  ghost predicate Rowless(t: Tables, key: string) {
    && key in t.events && !t.events[key].sent && !t.events[key].silent
    && forall i | 0 <= i < |t.rows| :: t.rows[i].dedupe != Some("listing:" + key)
  }

  /**
   A repair, in any order: it flags exactly the events, delistings apart, that have a row marked sent; with
   announcements on it adds exactly one pending row for each rowless event; and it changes nothing else.
   */
  lemma RepairExactly(t: Tables, announce: bool, now: int, t': Tables)
    requires Repairs(t, announce, now, t')
    ensures t'.events.Keys == t.events.Keys && t.rows <= t'.rows
    ensures forall key | key in t.events ::
              && t'.events[key].silent == t.events[key].silent
              && (t'.events[key].sent <==> t.events[key].sent || (!t.events[key].silent && Delivered(t.rows, key)))
    ensures forall i | |t.rows| <= i < |t'.rows| ::
              announce && exists key :: Rowless(t, key) && t'.rows[i] == Announcement(key, now)
    ensures announce ==>
              forall key | Rowless(t, key) ::
                exists i :: |t.rows| <= i && OnlyRow(t'.rows, i, key) && t'.rows[i] == Announcement(key, now)
  {
    var added := t'.rows[|t.rows|..];
    forall key ensures RowIsSent(t.rows, key) <==> Delivered(t.rows, key) {
      assert ListingKey(key) == "listing:" + key;
    }
    forall key ensures key in ToAnnounce(t) <==> Rowless(t, key) { assert ListingKey(key) == "listing:" + key; }
    forall i | |t.rows| <= i < |t'.rows|
      ensures announce && exists key :: Rowless(t, key) && t'.rows[i] == Announcement(key, now)
    {
      assert t'.rows[i] == added[i - |t.rows|];
      assert Rowless(t, added[i - |t.rows|].origin.value);
    }
    if announce {
      forall key | Rowless(t, key)
        ensures exists i :: |t.rows| <= i && OnlyRow(t'.rows, i, key) && t'.rows[i] == Announcement(key, now)
      {
        AddedOnce(t, now, t', key);
      }
    }
  }

  lemma AddedOnce(t: Tables, now: int, t': Tables, key: string)
    requires Repairs(t, true, now, t') && key in ToAnnounce(t) && Rowless(t, key)
    ensures exists i :: |t.rows| <= i && OnlyRow(t'.rows, i, key) && t'.rows[i] == Announcement(key, now)
  {
    var n, added := |t.rows|, t'.rows[|t.rows|..];
    var k :| 0 <= k < |added| && added[k].origin == Some(key);
    assert t'.rows[n + k] == added[k] == Announcement(key, now);
    forall j | 0 <= j < |t'.rows| && j != n + k ensures t'.rows[j].dedupe != Some("listing:" + key) {
      if j < n {
        assert t'.rows[j] == t.rows[j];
      } else {
        assert t'.rows[j] == added[j - n] && added[j - n].origin != added[k].origin;
        if t'.rows[j].dedupe == Some("listing:" + key) { SameOrigin(t'.rows[j].origin.value, key); }
      }
    }
    assert OnlyRow(t'.rows, n + k, key);
  }
}
