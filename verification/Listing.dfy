/**
 Listing events: registry changes are recorded once, each recorded event is announced through one outbox row,
 and the startup repair re-pairs events that were never confirmed with their rows.
 */
module Listing {
  import opened Wrappers
  import opened DedupeKeys
  import opened Outbox
  import opened Registry

  datatype EventType = Prelaunch | Trading | Announced | Delisted

  function TypeName(t: EventType): string {
    match t
    case Prelaunch => "prelaunch"
    case Trading => "trading"
    case Announced => "announced"
    case Delisted => "delisted"
  }

  function Prefix(category: Option<string>): string {
    if category.None? || category.value == "" then "announcement" else category.value
  }

  function EventKeyFor(category: Option<string>, symbol: string, t: EventType): string {
    Prefix(category) + ":" + symbol + ":" + TypeName(t)
  }

  lemma TypeNamesDiffer(t: EventType, u: EventType)
    ensures ':' !in TypeName(t)
    ensures TypeName(t) == TypeName(u) ==> t == u
  {
    assert TypeName(t)[0] ==
      (match t case Prelaunch => 'p' case Trading => 't' case Announced => 'a' case Delisted => 'd');
    assert TypeName(u)[0] ==
      (match u case Prelaunch => 'p' case Trading => 't' case Announced => 'a' case Delisted => 'd');
  }

  lemma KeyParts(category: Option<string>, symbol: string, t: EventType)
    requires ':' !in Prefix(category)
    ensures BeforeFirstColon(EventKeyFor(category, symbol, t)) == Prefix(category)
    ensures AfterLastColon(EventKeyFor(category, symbol, t)) == TypeName(t)
  {
    TypeNamesDiffer(t, t);
    FirstPiece(Prefix(category), symbol + ":" + TypeName(t));
    assert EventKeyFor(category, symbol, t) == Prefix(category) + ":" + (symbol + ":" + TypeName(t));
    LastPiece(Prefix(category) + ":" + symbol, TypeName(t));
  }

  /** A category of the exchange, as opposed to the pseudo category of announcements. */
  predicate RealCategory(category: Option<string>) {
    category.Some? ==> category.value != "" && category.value != "announcement" && ':' !in category.value
  }

  lemma KeyNamesParts(category: Option<string>, symbol: string, t: EventType, category': Option<string>,
                      symbol': string, t': EventType)
    requires ':' !in Prefix(category) && ':' !in Prefix(category')
    requires EventKeyFor(category, symbol, t) == EventKeyFor(category', symbol', t')
    ensures Prefix(category) == Prefix(category') && t == t'
  {
    KeyParts(category, symbol, t);
    KeyParts(category', symbol', t');
    TypeNamesDiffer(t, t');
  }

  lemma PrefixNamesCategory(category: Option<string>, category': Option<string>)
    requires RealCategory(category) && RealCategory(category') && Prefix(category) == Prefix(category')
    ensures category == category'
  {
  }

  /** An event key names its market and its type, whatever characters the symbol contains. */
  lemma EventKeyNamesEvent(category: Option<string>, symbol: string, t: EventType, category': Option<string>,
                           symbol': string, t': EventType)
    requires RealCategory(category) && RealCategory(category')
    requires EventKeyFor(category, symbol, t) == EventKeyFor(category', symbol', t')
    ensures category == category' && symbol == symbol' && t == t'
  {
    RealCategoryHasNoColon(category);
    RealCategoryHasNoColon(category');
    KeyNamesParts(category, symbol, t, category', symbol', t');
    PrefixNamesCategory(category, category');
    SameMiddle(Prefix(category), symbol, symbol', TypeName(t));
  }

  lemma RealCategoryHasNoColon(category: Option<string>)
    requires RealCategory(category)
    ensures ':' !in Prefix(category)
  {
  }

  lemma SameMiddle(a: string, x: string, y: string, b: string)
    requires a + ":" + x + ":" + b == a + ":" + y + ":" + b
    ensures x == y
  {
    var s := a + ":" + x + ":" + b;
    assert s[|a| + 1..|a| + 1 + |x|] == x;
    assert (a + ":" + y + ":" + b)[|a| + 1..|a| + 1 + |y|] == y;
  }

  /** What a registry event means for listings, if anything. */
  function EventTypeFor(e: RegistryEvent): Option<EventType> {
    match e
    case Removed(_, _) => Some(Delisted)
    case New(_, status) =>
      if status == "PreLaunch" then Some(Prelaunch) else if status == "Trading" then Some(Trading) else None
    case StatusTransition(_, from, to) =>
      if from == "PreLaunch" && to == "Trading" then Some(Trading) else None
  }

  /** The key a registry event is recorded under. */
  function KeyOf(e: RegistryEvent): Option<string> {
    if EventTypeFor(e).None? then None else Some(EventKeyFor(Some(e.key.0), e.key.1, EventTypeFor(e).value))
  }

  /** The two tables listings live in. */
  datatype Tables = Tables(rows: seq<Row>, events: map<string, Event>)

  /** The tables after some events, and whether the insert of an outbox row has raised and ended the pass. */
  datatype Handling = Handling(tables: Tables, raised: bool)

  /** An event is recorded in a transaction of its own before its row is inserted in another. */
  function HandledEvent(t: Tables, e: RegistryEvent, announce: bool, now: int): Handling {
    if KeyOf(e).None? || KeyOf(e).value in t.events then Handling(t, false)
    else
      var key := KeyOf(e).value;
      var recorded := t.(events := t.events[key := Event(Silent(e), false)]);
      if Silent(e) || !announce then Handling(recorded, false)
      else if KeyTaken(t.rows, Some(ListingKey(key))) then Handling(recorded, true)
      else Handling(recorded.(rows := t.rows + [ListingRow(key, now)]), false)
  }

  predicate Silent(e: RegistryEvent) {
    EventTypeFor(e) == Some(Delisted)
  }

  function HandledAll(t: Tables, events: seq<RegistryEvent>, announce: bool, now: int): Handling
    decreases |events|
  {
    if events == [] then Handling(t, false)
    else
      var before := HandledAll(t, events[..|events| - 1], announce, now);
      if before.raised then before else HandledEvent(before.tables, events[|events| - 1], announce, now)
  }

  // ---------------------------------------------------------------------------------------------
  // Recording
  // ---------------------------------------------------------------------------------------------

  /** An unflagged event that may be announced owns a row. */
  ghost predicate Covered(t: Tables, key: string) {
    key in t.events && !t.events[key].silent && !t.events[key].sent ==> OwnsOneRow(t.rows, key)
  }

  ghost predicate OwnsOneRow(rows: seq<Row>, key: string) {
    && (exists i :: 0 <= i < |rows| && rows[i].dedupe == Some(ListingKey(key)))
    && (forall i, j | 0 <= i < j < |rows| ::
       !(rows[i].dedupe == Some(ListingKey(key)) && rows[j].dedupe == Some(ListingKey(key))))
  }

  ghost predicate AllCovered(t: Tables) {
    KeysUnique(t.rows) && forall key | key in t.events :: Covered(t, key)
  }

  lemma AppendKeepsRows(rows: seq<Row>, row: Row, key: string)
    requires KeysUnique(rows) && row.dedupe.Some? && !KeyTaken(rows, row.dedupe)
    ensures KeysUnique(rows + [row])
    ensures OwnsOneRow(rows, key) || row.dedupe == Some(ListingKey(key)) ==> OwnsOneRow(rows + [row], key)
  {
    var all := rows + [row];
    assert all[|rows|] == row;
    assert forall i | 0 <= i < |rows| :: all[i] == rows[i];
  }

  lemma UniqueRowOwned(rows: seq<Row>, key: string)
    requires KeysUnique(rows)
    ensures KeyTaken(rows, Some(ListingKey(key))) <==> OwnsOneRow(rows, key)
  {
  }

  /** Whatever is flagged was flagged before. */
  ghost predicate NothingFlagged(t: Tables, t': Tables) {
    forall key | key in t'.events && t'.events[key].sent :: key in t.events && t.events[key].sent
  }

  /** One event keeps every event covered, the one whose row was there before it included. */
  lemma HandledEventCovers(t: Tables, e: RegistryEvent, now: int)
    requires AllCovered(t)
    ensures AllCovered(HandledEvent(t, e, true, now).tables)
    ensures NothingFlagged(t, HandledEvent(t, e, true, now).tables)
  {
    var after := HandledEvent(t, e, true, now).tables;
    if KeyOf(e).Some? {
      var key := KeyOf(e).value;
      UniqueRowOwned(t.rows, key);
      forall k | k in after.events ensures Covered(after, k) {
        if |after.rows| > |t.rows| { AppendKeepsRows(t.rows, ListingRow(key, now), k); }
      }
      if |after.rows| > |t.rows| { AppendKeepsRows(t.rows, ListingRow(key, now), key); }
    }
  }

  /** With announcements on, handling keeps every announceable event covered by exactly one row, and flags none. */
  lemma {:induction false} HandlingCovers(t: Tables, events: seq<RegistryEvent>, now: int)
    requires AllCovered(t)
    ensures AllCovered(HandledAll(t, events, true, now).tables)
    ensures NothingFlagged(t, HandledAll(t, events, true, now).tables)
    decreases |events|
  {
    if events == [] {
    } else {
      var n := |events| - 1;
      HandlingCovers(t, events[..n], now);
      var before := HandledAll(t, events[..n], true, now);
      if !before.raised { HandledEventCovers(before.tables, events[n], now); }
    }
  }

  function KeysOf(events: seq<RegistryEvent>): set<string> {
    set i | 0 <= i < |events| && KeyOf(events[i]).Some? :: KeyOf(events[i]).value
  }

  lemma KeyNotLast(events: seq<RegistryEvent>, key: string)
    requires events != [] && key in KeysOf(events) && KeyOf(events[|events| - 1]) != Some(key)
    ensures key in KeysOf(events[..|events| - 1])
  {
    var i :| 0 <= i < |events| && KeyOf(events[i]).Some? && KeyOf(events[i]).value == key;
    assert events[..|events| - 1][i] == events[i];
  }

  lemma KeyOfPrefix(events: seq<RegistryEvent>, key: string)
    requires events != [] && key in KeysOf(events[..|events| - 1])
    ensures key in KeysOf(events)
  {
    var before := events[..|events| - 1];
    var i :| 0 <= i < |before| && KeyOf(before[i]).Some? && KeyOf(before[i]).value == key;
    assert before[i] == events[i];
  }

  lemma KeysOfAppend(events: seq<RegistryEvent>)
    requires events != []
    ensures var n := |events| - 1;
            KeysOf(events) == KeysOf(events[..n]) + if KeyOf(events[n]).Some? then {KeyOf(events[n]).value} else {}
  {
    var n := |events| - 1;
    var last := if KeyOf(events[n]).Some? then {KeyOf(events[n]).value} else {};
    forall key | key in KeysOf(events) ensures key in KeysOf(events[..n]) + last {
      if key !in last { KeyNotLast(events, key); }
    }
    forall key | key in KeysOf(events[..n]) ensures key in KeysOf(events) { KeyOfPrefix(events, key); }
    assert last <= KeysOf(events);
  }

  /** The row of an event that was never recorded is there already, so the insert will be rejected. */
  predicate Blocked(t: Tables, e: RegistryEvent) {
    && KeyOf(e).Some? && !Silent(e)
    && KeyOf(e).value !in t.events && KeyTaken(t.rows, Some(ListingKey(KeyOf(e).value)))
  }

  /** None of the first `n` events is blocked. */
  predicate ClearUpTo(t: Tables, events: seq<RegistryEvent>, announce: bool, n: nat)
    requires n <= |events|
  {
    forall i | 0 <= i < n :: !(announce && Blocked(t, events[i]))
  }

  /** How many events a pass gets to see: all of them, or those up to the first that is blocked. */
  function Reached(t: Tables, events: seq<RegistryEvent>, announce: bool): (n: nat)
    ensures n <= |events|
    ensures n == |events| || n > 0
    ensures ClearUpTo(t, events, announce, if n > 0 then n - 1 else 0)
    ensures n < |events| ==> announce && Blocked(t, events[n - 1])
  {
    ReachedFrom(t, events, announce, 0)
  }

  function ReachedFrom(t: Tables, events: seq<RegistryEvent>, announce: bool, k: nat): (n: nat)
    requires k <= |events| && ClearUpTo(t, events, announce, k)
    ensures k <= n <= |events|
    ensures n == |events| || n > 0
    ensures ClearUpTo(t, events, announce, if n > 0 then n - 1 else 0)
    ensures n < |events| ==> announce && Blocked(t, events[n - 1])
    decreases |events| - k
  {
    if k == |events| then k
    else if announce && Blocked(t, events[k]) then k + 1
    else ReachedFrom(t, events, announce, k + 1)
  }

  /** What the handling of some events has added. */
  ghost predicate Grown(t: Tables, keys: set<string>, t': Tables) {
    && t'.events.Keys == t.events.Keys + keys
    && (forall key | key in t.events :: t'.events[key] == t.events[key])
    && (forall key | KeyTaken(t'.rows, Some(ListingKey(key))) :: KeyTaken(t.rows, Some(ListingKey(key))) || key in keys)
    && (forall key | KeyTaken(t.rows, Some(ListingKey(key))) :: KeyTaken(t'.rows, Some(ListingKey(key))))
  }

  lemma HandledEventGrows(t: Tables, keys: set<string>, before: Tables, e: RegistryEvent, announce: bool, now: int)
    requires Grown(t, keys, before)
    requires KeyOf(e).Some? && KeyOf(e).value in keys ==> KeyOf(e).value in before.events
    ensures var h := HandledEvent(before, e, announce, now);
            && Grown(t, keys + (if KeyOf(e).Some? then {KeyOf(e).value} else {}), h.tables)
            && (h.raised <==> announce && Blocked(t, e) && KeyOf(e).value !in keys)
  {
    var h := HandledEvent(before, e, announce, now);
    if |h.tables.rows| > |before.rows| {
      RowAddsKey(before.rows, KeyOf(e).value, now);
    }
  }

  lemma RowAddsKey(rows: seq<Row>, key: string, now: int)
    ensures forall k :: KeyTaken(rows + [ListingRow(key, now)], Some(ListingKey(k))) <==>
                        KeyTaken(rows, Some(ListingKey(k))) || k == key
  {
    var all := rows + [ListingRow(key, now)];
    assert all[|rows|] == ListingRow(key, now);
    forall k ensures KeyTaken(all, Some(ListingKey(k))) <==> KeyTaken(rows, Some(ListingKey(k))) || k == key {
      if KeyTaken(rows, Some(ListingKey(k))) {
        var i :| 0 <= i < |rows| && rows[i].dedupe == Some(ListingKey(k));
        assert all[i] == rows[i];
      }
      if ListingKey(k) == ListingKey(key) { ListingKeyInjective(k, key); }
    }
  }

  lemma PrefixGrows(t: Tables, events: seq<RegistryEvent>, announce: bool, now: int, n: nat)
    requires n < |events| && ClearUpTo(t, events, announce, n)
    requires var before := HandledAll(t, events[..n], announce, now);
             !before.raised && Grown(t, KeysOf(events[..n]), before.tables)
    ensures var h := HandledAll(t, events[..n + 1], announce, now);
            && Grown(t, KeysOf(events[..n + 1]), h.tables)
            && (h.raised <==> announce && Blocked(t, events[n]))
  {
    var prefix := events[..n + 1];
    assert prefix[..n] == events[..n] && prefix[n] == events[n];
    KeysOfAppend(prefix);
    var before := HandledAll(t, events[..n], announce, now).tables;
    HandledEventGrows(t, KeysOf(events[..n]), before, events[n], announce, now);
    NoEarlierBlocked(t, events, announce, n);
  }

  /** As long as no event is blocked, a pass records the key of every event it has seen. */
  lemma {:induction false} ClearPrefixRecorded(t: Tables, events: seq<RegistryEvent>, announce: bool, now: int, n: nat)
    requires n <= |events| && ClearUpTo(t, events, announce, n)
    ensures var h := HandledAll(t, events[..n], announce, now);
            !h.raised && Grown(t, KeysOf(events[..n]), h.tables)
    decreases n
  {
    if n == 0 {
      assert KeysOf(events[..0]) == {};
    } else {
      ClearPrefixRecorded(t, events, announce, now, n - 1);
      PrefixGrows(t, events, announce, now, n - 1);
    }
  }

  /** The pass has come to a blocked event. */
  predicate Stopped(t: Tables, events: seq<RegistryEvent>, announce: bool) {
    var n := Reached(t, events, announce);
    n > 0 && announce && Blocked(t, events[n - 1])
  }

  /**
   From any tables, a pass records exactly the keys of the events up to the first blocked one, and it ends in an
   error exactly if there is one.
   */
  lemma HandlingRecordsExactly(t: Tables, events: seq<RegistryEvent>, announce: bool, now: int)
    ensures var h, n := HandledAll(t, events, announce, now), Reached(t, events, announce);
            Grown(t, KeysOf(events[..n]), h.tables) && (h.raised <==> Stopped(t, events, announce))
  {
    var n := Reached(t, events, announce);
    if n > 0 {
      ClearPrefixRecorded(t, events, announce, now, n - 1);
      PrefixGrows(t, events, announce, now, n - 1);
    } else {
      ClearPrefixRecorded(t, events, announce, now, 0);
    }
    if Stopped(t, events, announce) {
      HandlingStops(t, events, n, announce, now);
    } else {
      assert events[..n] == events;
    }
  }

  /** A blocked event whose key came earlier would have been blocked there. */
  lemma NoEarlierBlocked(t: Tables, events: seq<RegistryEvent>, announce: bool, n: nat)
    requires n < |events| && ClearUpTo(t, events, announce, n)
    ensures announce && Blocked(t, events[n]) ==> KeyOf(events[n]).value !in KeysOf(events[..n])
  {
    if announce && Blocked(t, events[n]) {
      forall i | 0 <= i < n && KeyOf(events[..n][i]).Some? ensures KeyOf(events[..n][i]) != KeyOf(events[n]) {
        if KeyOf(events[i]) == KeyOf(events[n]) { SilentByKey(events[i], events[n]); }
      }
    }
  }

  /** The key of an event says whether it is a delisting. */
  lemma SilentByKey(e: RegistryEvent, e': RegistryEvent)
    requires KeyOf(e).Some? && KeyOf(e) == KeyOf(e')
    ensures Silent(e) <==> Silent(e')
  {
    KeyEnds(Some(e.key.0), e.key.1, EventTypeFor(e).value);
    KeyEnds(Some(e'.key.0), e'.key.1, EventTypeFor(e').value);
    TypeNamesDiffer(EventTypeFor(e).value, EventTypeFor(e').value);
  }

  lemma KeyEnds(category: Option<string>, symbol: string, t: EventType)
    ensures AfterLastColon(EventKeyFor(category, symbol, t)) == TypeName(t)
  {
    TypeNamesDiffer(t, t);
    LastPiece(Prefix(category) + ":" + symbol, TypeName(t));
  }

  /** Every listing row belongs to a recorded event, as it does whenever rows only come from passes and repairs. */
  ghost predicate NoStrayRows(t: Tables) {
    forall key | KeyTaken(t.rows, Some(ListingKey(key))) :: key in t.events
  }

  /** Without stray rows a pass never ends in an error, records everything, and leaves no stray row. */
  lemma HandlingRecords(t: Tables, events: seq<RegistryEvent>, announce: bool, now: int)
    requires NoStrayRows(t)
    ensures var h := HandledAll(t, events, announce, now);
            !h.raised && h.tables.events.Keys == t.events.Keys + KeysOf(events) && NoStrayRows(h.tables)
  {
    HandlingRecordsExactly(t, events, announce, now);
    assert events[..|events|] == events;
  }

  /**
   An event of the list stays unrecorded if and only if the pass ends before it, at an event whose row was
   there already, and neither the tables nor the events up to that one have its key.
   */
  lemma UnrecordedExactly(t: Tables, events: seq<RegistryEvent>, announce: bool, now: int, j: nat)
    requires j < |events| && KeyOf(events[j]).Some?
    ensures var n, key := Reached(t, events, announce), KeyOf(events[j]).value;
            key !in HandledAll(t, events, announce, now).tables.events <==>
              n <= j && key !in t.events && key !in KeysOf(events[..n])
  {
    HandlingRecordsExactly(t, events, announce, now);
    var n := Reached(t, events, announce);
    if j < n { assert events[..n][j] == events[j]; }
  }

  lemma {:induction false} RecordedEventsIgnored(t: Tables, events: seq<RegistryEvent>, announce: bool, now: int)
    requires KeysOf(events) <= t.events.Keys
    ensures HandledAll(t, events, announce, now) == Handling(t, false)
    decreases |events|
  {
    if events == [] {
    } else {
      KeysOfAppend(events);
      RecordedEventsIgnored(t, events[..|events| - 1], announce, now);
    }
  }

  /**
   Handling the same registry events again, at any later time, changes nothing exactly if the first time recorded
   all.
   */
  lemma HandlingTwiceAddsNothing(t: Tables, events: seq<RegistryEvent>, announce: bool, now: int, later: int)
    ensures var t' := HandledAll(t, events, announce, now).tables;
            HandledAll(t', events, announce, later).tables == t' <==> KeysOf(events) <= t'.events.Keys
    ensures NoStrayRows(t) ==>
              var t' := HandledAll(t, events, announce, now).tables;
              HandledAll(t', events, announce, later) == Handling(t', false)
  {
    var t' := HandledAll(t, events, announce, now).tables;
    if KeysOf(events) <= t'.events.Keys { RecordedEventsIgnored(t', events, announce, later); }
    if NoStrayRows(t) {
      HandlingRecords(t, events, announce, now);
      RecordedEventsIgnored(t', events, announce, later);
    }
    if HandledAll(t', events, announce, later).tables == t' { StillRecordsAll(t', events, announce, later); }
  }

  /** A pass that records nothing had nothing to record. */
  lemma StillRecordsAll(t: Tables, events: seq<RegistryEvent>, announce: bool, now: int)
    requires HandledAll(t, events, announce, now).tables == t
    ensures KeysOf(events) <= t.events.Keys
  {
    HandlingRecordsExactly(t, events, announce, now);
    var n := Reached(t, events, announce);
    if n > 0 && KeyOf(events[n - 1]).Some? {
      assert events[..n][n - 1] == events[n - 1];
      assert KeyOf(events[n - 1]).value in KeysOf(events[..n]);
    }
    assert n == |events| && events[..n] == events;
  }

  // ---------------------------------------------------------------------------------------------
  // The startup repair
  // ---------------------------------------------------------------------------------------------

  function UnsentKeys(events: map<string, Event>): set<string> {
    set key | key in events && !events[key].sent && !events[key].silent
  }

  predicate RowIsSent(rows: seq<Row>, key: string) {
    exists i :: 0 <= i < |rows| && rows[i].dedupe == Some(ListingKey(key)) && rows[i].status.Sent?
  }

  /** Unflagged events whose row says the message was delivered. */
  function ToFlag(t: Tables): set<string> {
    set key | key in UnsentKeys(t.events) && RowIsSent(t.rows, key)
  }

  /** Unflagged events that lost their row, or never got one. */
  function ToAnnounce(t: Tables): set<string> {
    set key | key in UnsentKeys(t.events) && !KeyTaken(t.rows, Some(ListingKey(key)))
  }

  /** The appended rows announce exactly the given events, one row each. */
  ghost predicate Announces(added: seq<Row>, keys: set<string>, now: int) {
    && (forall i | 0 <= i < |added| ::
       added[i].origin.Some? && added[i].origin.value in keys && added[i] == ListingRow(added[i].origin.value, now))
    && (forall i, j | 0 <= i < j < |added| :: added[i].origin != added[j].origin)
    && (forall key | key in keys :: exists i :: 0 <= i < |added| && added[i].origin == Some(key))
    && |added| == |keys|
  }

  /** What one repair does to the tables, in whatever order it meets the events. */
  ghost predicate Repairs(t: Tables, announce: bool, now: int, t': Tables) {
    && t'.events == FlaggedAll(t.events, ToFlag(t))
    && t.rows <= t'.rows
    && Announces(t'.rows[|t.rows|..], if announce then ToAnnounce(t) else {}, now)
  }

  lemma ListingKeyInjective(a: string, b: string)
    requires ListingKey(a) == ListingKey(b)
    ensures a == b
  {
    assert ListingKey(a)[|"listing:"|..] == a && ListingKey(b)[|"listing:"|..] == b;
  }

  lemma RepairKeepsKeysUnique(t: Tables, announce: bool, now: int, t': Tables)
    requires KeysUnique(t.rows) && Repairs(t, announce, now, t')
    ensures KeysUnique(t'.rows)
  {
    var n := |t.rows|;
    var added := t'.rows[n..];
    forall i, j | 0 <= i < j < |t'.rows| && t'.rows[i].dedupe.Some? ensures t'.rows[i].dedupe != t'.rows[j].dedupe {
      if j >= n {
        var key := added[j - n].origin.value;
        assert t'.rows[j].dedupe == Some(ListingKey(key));
        if i < n {
          assert t'.rows[i] == t.rows[i];
          assert !KeyTaken(t.rows, Some(ListingKey(key)));
        } else if t'.rows[i].dedupe == t'.rows[j].dedupe {
          assert t'.rows[i] == added[i - n];
          ListingKeyInjective(added[i - n].origin.value, key);
        }
      } else {
        assert t'.rows[i] == t.rows[i] && t'.rows[j] == t.rows[j];
      }
    }
  }

  /**
   From any tables, however inconsistent, a repair with announcements on leaves every recorded event that is
   not silent flagged or owning exactly one row.
   */
  lemma RepairCovers(t: Tables, now: int, t': Tables)
    requires KeysUnique(t.rows) && Repairs(t, true, now, t')
    ensures AllCovered(t')
  {
    RepairKeepsKeysUnique(t, true, now, t');
    forall key | key in t'.events ensures Covered(t', key) {
      if !t'.events[key].silent && !t'.events[key].sent {
        assert key in UnsentKeys(t.events);
        if key in ToAnnounce(t) {
          var i :| 0 <= i < |t'.rows[|t.rows|..]| && t'.rows[|t.rows|..][i].origin == Some(key);
          assert t'.rows[|t.rows| + i].dedupe == Some(ListingKey(key));
        } else {
          var i :| 0 <= i < |t.rows| && t.rows[i].dedupe == Some(ListingKey(key));
          assert t'.rows[i] == t.rows[i];
        }
        UniqueRowOwned(t'.rows, key);
      }
    }
  }

  /** A second repair finds nothing to do. */
  lemma SecondRepairIsIdle(t: Tables, now: int, t': Tables, later: int, t'': Tables)
    requires KeysUnique(t.rows) && Repairs(t, true, now, t') && Repairs(t', true, later, t'')
    ensures ToFlag(t') == {} && ToAnnounce(t') == {}
    ensures t'' == t'
  {
    RepairCovers(t, now, t');
    forall key ensures key !in ToAnnounce(t') && key !in ToFlag(t') {
      if key in UnsentKeys(t'.events) {
        UniqueRowOwned(t'.rows, key);
        assert Covered(t', key);
        NotSentAfterRepair(t, now, t', key);
      }
    }
    assert FlaggedAll(t'.events, {}) == t'.events;
    assert ToAnnounce(t') == {};
    assert t''.rows[|t'.rows|..] == [];
    assert t''.rows == t'.rows;
  }

  lemma NotSentAfterRepair(t: Tables, now: int, t': Tables, key: string)
    requires KeysUnique(t.rows) && Repairs(t, true, now, t') && key in UnsentKeys(t'.events)
    ensures !RowIsSent(t'.rows, key)
  {
    var n := |t.rows|;
    forall i | 0 <= i < |t'.rows| && t'.rows[i].dedupe == Some(ListingKey(key)) ensures !t'.rows[i].status.Sent? {
      if i < n {
        assert t'.rows[i] == t.rows[i];
        assert key !in ToFlag(t);
      } else {
        assert t'.rows[i] == t'.rows[n..][i - n];
      }
    }
  }

  // ---------------------------------------------------------------------------------------------
  // The tracker
  // ---------------------------------------------------------------------------------------------

  class ListingTracker {
    var rows: seq<Row>
    var events: map<string, Event>
    const announce: bool

    ghost function State(): Tables
      reads this
    {
      Tables(rows, events)
    }

    constructor (announce: bool)
      ensures State() == Tables([], map[]) && this.announce == announce
    {
      this.announce := announce;
      rows, events := [], map[];
    }

    method FindByDedupe(key: string) returns (row: Option<Row>)
      ensures row.Some? <==> KeyTaken(rows, Some(key))
      ensures row.Some? ==> row.value in rows && row.value.dedupe == Some(key)
    {
      for i := 0 to |rows|
        invariant forall j | 0 <= j < i :: rows[j].dedupe != Some(key)
      {
        if rows[i].dedupe == Some(key) { return Some(rows[i]); }
      }
      row := None;
    }

    /** Enqueues the message of an event; `raised` is the error of the unique index. */
    method Notify(key: string, now: int) returns (raised: bool)
      modifies this`rows
      ensures raised <==> announce && KeyTaken(old(rows), Some(ListingKey(key)))
      ensures rows == if announce && !raised then old(rows) + [ListingRow(key, now)] else old(rows)
    {
      if !announce { return false; }
      raised := KeyTaken(rows, Some(ListingKey(key)));
      if !raised { rows := rows + [ListingRow(key, now)]; }
    }

    /** Records one event if its key is new, and then announces it if that can be. */
    method HandleEvent(e: RegistryEvent, now: int) returns (recorded: Option<string>, raised: bool)
      modifies this
      ensures Handling(State(), raised) == HandledEvent(old(State()), e, announce, now)
      ensures recorded == if KeyOf(e).Some? && KeyOf(e).value !in old(events) then KeyOf(e) else None
      ensures events.Keys == old(events).Keys + if recorded.Some? then {recorded.value} else {}
    {
      recorded, raised := None, false;
      if KeyOf(e).Some? && KeyOf(e).value !in events {
        var key := KeyOf(e).value;
        events := events[key := Event(Silent(e), false)];
        recorded := Some(key);
        if !Silent(e) { raised := Notify(key, now); }
      }
    }

    /** `created` lists the keys that were new; an error of the outbox ends the pass. */
    method HandleRegistry(registryEvents: seq<RegistryEvent>, firstRun: bool, now: int)
      returns (created: seq<string>, raised: bool)
      modifies this
      ensures Handling(State(), raised) ==
              if firstRun then Handling(old(State()), false)
                else HandledAll(old(State()), registryEvents, announce, now)
      ensures forall key :: key in created <==> key in events && key !in old(events)
    {
      created, raised := [], false;
      if firstRun { return; }
      for i := 0 to |registryEvents|
        invariant !raised && Handling(State(), false) == HandledAll(old(State()), registryEvents[..i], announce, now)
        invariant old(events).Keys <= events.Keys
        invariant forall key :: key in created <==> key in events && key !in old(events)
      {
        assert registryEvents[..i + 1][..i] == registryEvents[..i];
        var recorded: Option<string>;
        recorded, raised := HandleEvent(registryEvents[i], now);
        if recorded.Some? { created := created + [recorded.value]; }
        if raised {
          HandlingStops(old(State()), registryEvents, i + 1, announce, now);
          return;
        }
      }
      assert registryEvents[..|registryEvents|] == registryEvents;
    }

    /** One event of the repair. */
    method RepairEvent(key: string, now: int) returns (repaired: bool)
      requires KeysUnique(rows)
      modifies this
      ensures State() == RepairedEvent(old(State()), key, announce, now)
      ensures repaired <==> !KeyTaken(old(rows), Some(ListingKey(key))) || RowIsSent(old(rows), key)
    {
      var row := FindByDedupe(ListingKey(key));
      if row.Some? {
        SentRowFound(State(), row.value, key);
        repaired := row.value.status.Sent?;
        if repaired { events := FlaggedSent(events, key); }
      } else {
        var raised := Notify(key, now);
        repaired := true;
      }
    }

    method ReconcileUnsent(now: int) returns (repaired: nat)
      requires KeysUnique(rows)
      modifies this
      ensures Repairs(old(State()), announce, now, State())
      ensures repaired == |ToFlag(old(State()))| + |ToAnnounce(old(State()))|
    {
      ghost var order: seq<string> := [];
      var left := UnsentKeys(events);
      repaired := 0;
      while left != {}
        invariant left <= UnsentKeys(old(events))
        invariant Visits(order, UnsentKeys(old(events)) - left)
        invariant KeysUnique(rows)
        invariant State() == RepairedInOrder(old(State()), order, announce, now)
        invariant repaired == RepairsInOrder(old(State()), order, announce, now)
        decreases left
      {
        var key :| key in left;
        AppendKeepsKeysUnique(rows, key, now);
        var done := RepairEvent(key, now);
        VisitsAppend(order, UnsentKeys(old(events)) - left, key);
        assert UnsentKeys(old(events)) - (left - {key}) == UnsentKeys(old(events)) - left + {key};
        assert (order + [key])[..|order|] == order;
        order := order + [key];
        left := left - {key};
        repaired := repaired + if done then 1 else 0;
      }
      assert UnsentKeys(old(events)) - left == UnsentKeys(old(events));
      RepairsAnyOrder(old(State()), order, announce, now);
    }
  }

  /** Once an error has ended the pass, the events behind it change nothing. */
  lemma {:induction false} HandlingStops(t: Tables, events: seq<RegistryEvent>, n: nat, announce: bool, now: int)
    requires n <= |events| && HandledAll(t, events[..n], announce, now).raised
    ensures HandledAll(t, events, announce, now) == HandledAll(t, events[..n], announce, now)
    decreases |events| - n
  {
    if n < |events| {
      assert events[..n + 1][..n] == events[..n];
      HandlingStops(t, events, n + 1, announce, now);
    } else {
      assert events[..n] == events;
    }
  }

  /** `order` lists the members of `keys`, each once. */
  ghost predicate Visits(order: seq<string>, keys: set<string>) {
    && (forall i, j | 0 <= i < j < |order| :: order[i] != order[j])
    && (forall key :: key in keys <==> key in order)
  }

  lemma VisitsAppend(order: seq<string>, keys: set<string>, key: string)
    requires Visits(order, keys) && key !in keys
    ensures Visits(order + [key], keys + {key})
  {
  }

  lemma AppendKeepsKeysUnique(rows: seq<Row>, key: string, now: int)
    requires KeysUnique(rows)
    ensures !KeyTaken(rows, Some(ListingKey(key))) ==> KeysUnique(rows + [ListingRow(key, now)])
  {
    if !KeyTaken(rows, Some(ListingKey(key))) { AppendKeepsRows(rows, ListingRow(key, now), key); }
  }

  function RepairedEvent(t: Tables, key: string, announce: bool, now: int): Tables {
    if KeyTaken(t.rows, Some(ListingKey(key))) then
      if RowIsSent(t.rows, key) then t.(events := FlaggedSent(t.events, key)) else t
    else if announce then t.(rows := t.rows + [ListingRow(key, now)])
    else t
  }

  function RepairedInOrder(t: Tables, order: seq<string>, announce: bool, now: int): Tables
    decreases |order|
  {
    if order == [] then t
    else RepairedEvent(RepairedInOrder(t, order[..|order| - 1], announce, now), order[|order| - 1], announce, now)
  }

  function RepairsInOrder(t: Tables, order: seq<string>, announce: bool, now: int): nat
    decreases |order|
  {
    if order == [] then 0 else
      var before, key := RepairedInOrder(t, order[..|order| - 1], announce, now), order[|order| - 1];
      RepairsInOrder(t, order[..|order| - 1], announce, now) +
      if !KeyTaken(before.rows, Some(ListingKey(key))) || RowIsSent(before.rows, key) then 1 else 0
  }

  /** The tables when exactly the events of `visited` have been dealt with. */
  ghost predicate RepairedFor(t: Tables, visited: set<string>, announce: bool, now: int, t': Tables) {
    && t'.events == FlaggedAll(t.events, ToFlag(t) * visited)
    && t.rows <= t'.rows
    && Announces(t'.rows[|t.rows|..], if announce then ToAnnounce(t) * visited else {}, now)
  }

  lemma StepAnnounces(t: Tables, visited: set<string>, announce: bool, now: int, t': Tables, key: string)
    requires key in ToAnnounce(t) && key !in visited && RepairedFor(t, visited, announce, now, t')
    requires !KeyTaken(t'.rows, Some(ListingKey(key)))
    ensures RepairedFor(t, visited + {key}, announce, now, RepairedEvent(t', key, announce, now))
  {
    assert ToAnnounce(t) * (visited + {key}) == ToAnnounce(t) * visited + {key};
    assert ToFlag(t) * (visited + {key}) == ToFlag(t) * visited by { assert key !in ToFlag(t); }
    AddedRow(t, t'.rows, RepairedEvent(t', key, announce, now).rows, ToAnnounce(t) * visited, key, announce, now);
  }

  lemma StepFlags(t: Tables, visited: set<string>, announce: bool, now: int, t': Tables, key: string)
    requires key in UnsentKeys(t.events) && key !in ToAnnounce(t) && RepairedFor(t, visited, announce, now, t')
    requires KeyTaken(t'.rows, Some(ListingKey(key))) && (RowIsSent(t'.rows, key) <==> key in ToFlag(t))
    ensures RepairedFor(t, visited + {key}, announce, now, RepairedEvent(t', key, announce, now))
  {
    var after := RepairedEvent(t', key, announce, now);
    assert after.rows == t'.rows;
    assert ToAnnounce(t) * (visited + {key}) == ToAnnounce(t) * visited;
    var flagged := ToFlag(t) * visited;
    assert ToFlag(t) * (visited + {key}) == if key in ToFlag(t) then flagged + {key} else flagged;
    FlagOneMore(t.events, flagged, key);
    assert after.events == FlaggedAll(t.events, ToFlag(t) * (visited + {key}));
  }

  lemma SameFinds(t: Tables, visited: set<string>, announce: bool, now: int, t': Tables, key: string)
    requires key !in visited && RepairedFor(t, visited, announce, now, t')
    ensures KeyTaken(t'.rows, Some(ListingKey(key))) <==> KeyTaken(t.rows, Some(ListingKey(key)))
    ensures RowIsSent(t'.rows, key) <==> RowIsSent(t.rows, key)
  {
    RowsOfOthers(t, t'.rows, ToAnnounce(t) * visited, key, now);
    if RowIsSent(t.rows, key) {
      var i :| 0 <= i < |t.rows| && t.rows[i].dedupe == Some(ListingKey(key)) && t.rows[i].status.Sent?;
      assert t'.rows[i] == t.rows[i];
    }
  }

  lemma VisitsSplit(order: seq<string>, visited: set<string>)
    requires order != [] && Visits(order, visited)
    ensures var n := |order| - 1;
            && Visits(order[..n], visited - {order[n]})
            && order[n] in visited && visited == visited - {order[n]} + {order[n]}
  {
    var n := |order| - 1;
    forall k ensures k in order[..n] <==> k in order && k != order[n] {}
  }

  lemma RepairedStep(t: Tables, earlier: set<string>, announce: bool, now: int, before: Tables, key: string)
    requires key in UnsentKeys(t.events) && key !in earlier && RepairedFor(t, earlier, announce, now, before)
    ensures RepairedFor(t, earlier + {key}, announce, now, RepairedEvent(before, key, announce, now))
    ensures var done := !KeyTaken(before.rows, Some(ListingKey(key))) || RowIsSent(before.rows, key);
            |ToFlag(t) * (earlier + {key})| + |ToAnnounce(t) * (earlier + {key})| ==
            |ToFlag(t) * earlier| + |ToAnnounce(t) * earlier| + if done then 1 else 0
  {
    SameFinds(t, earlier, announce, now, before, key);
    CountStep(t, earlier, key);
    if key in ToAnnounce(t) {
      StepAnnounces(t, earlier, announce, now, before, key);
    } else {
      StepFlags(t, earlier, announce, now, before, key);
    }
  }

  lemma {:induction false} RepairsFollowOrder(t: Tables, order: seq<string>, visited: set<string>, announce: bool,
                                              now: int)
    requires Visits(order, visited) && visited <= UnsentKeys(t.events)
    ensures RepairedFor(t, visited, announce, now, RepairedInOrder(t, order, announce, now))
    ensures RepairsInOrder(t, order, announce, now) == |ToFlag(t) * visited| + |ToAnnounce(t) * visited|
    decreases |order|
  {
    if order == [] {
      NothingVisited(t, visited, announce, now);
    } else {
      var n := |order| - 1;
      VisitsSplit(order, visited);
      RepairsFollowOrder(t, order[..n], visited - {order[n]}, announce, now);
      RepairedStep(t, visited - {order[n]}, announce, now, RepairedInOrder(t, order[..n], announce, now), order[n]);
    }
  }

  lemma NothingVisited(t: Tables, visited: set<string>, announce: bool, now: int)
    requires Visits([], visited)
    ensures RepairedFor(t, visited, announce, now, t)
    ensures |ToFlag(t) * visited| + |ToAnnounce(t) * visited| == 0
  {
    assert ToFlag(t) * visited == {} && ToAnnounce(t) * visited == {};
    assert FlaggedAll(t.events, {}) == t.events;
  }

  lemma CountStep(t: Tables, earlier: set<string>, key: string)
    requires key in UnsentKeys(t.events) && key !in earlier
    ensures |ToFlag(t) * (earlier + {key})| == |ToFlag(t) * earlier| + if key in ToFlag(t) then 1 else 0
    ensures |ToAnnounce(t) * (earlier + {key})| == |ToAnnounce(t) * earlier| + if key in ToAnnounce(t) then 1 else 0
    ensures key in ToFlag(t) ==> key !in ToAnnounce(t)
  {
    assert ToFlag(t) * (earlier + {key}) == if key in ToFlag(t) then ToFlag(t) * earlier + {key}
      else ToFlag(t) * earlier;
    assert ToAnnounce(t) * (earlier + {key}) == if key in ToAnnounce(t) then ToAnnounce(t) * earlier + {key}
      else ToAnnounce(t) * earlier;
  }

  /** The order in which the events are met does not matter. */
  lemma RepairsAnyOrder(t: Tables, order: seq<string>, announce: bool, now: int)
    requires Visits(order, UnsentKeys(t.events))
    ensures Repairs(t, announce, now, RepairedInOrder(t, order, announce, now))
    ensures RepairsInOrder(t, order, announce, now) == |ToFlag(t)| + |ToAnnounce(t)|
  {
    RepairsFollowOrder(t, order, UnsentKeys(t.events), announce, now);
    assert ToFlag(t) * UnsentKeys(t.events) == ToFlag(t);
    assert ToAnnounce(t) * UnsentKeys(t.events) == ToAnnounce(t);
  }

  /** Rows added for other events do not change what is found for this one. */
  lemma RowsOfOthers(t: Tables, rows: seq<Row>, announced: set<string>, key: string, now: int)
    requires t.rows <= rows && key !in announced
    requires Announces(rows[|t.rows|..], announced, now) || Announces(rows[|t.rows|..], {}, now)
    ensures forall i | 0 <= i < |rows| && rows[i].dedupe == Some(ListingKey(key)) ::
            i < |t.rows| && rows[i] == t.rows[i]
    ensures KeyTaken(rows, Some(ListingKey(key))) <==> KeyTaken(t.rows, Some(ListingKey(key)))
  {
    var n := |t.rows|;
    forall i | 0 <= i < |rows| && rows[i].dedupe == Some(ListingKey(key)) ensures i < n && rows[i] == t.rows[i] {
      if i >= n {
        assert rows[i] == rows[n..][i - n];
        ListingKeyInjective(rows[n..][i - n].origin.value, key);
      }
    }
    assert forall i | 0 <= i < n :: rows[i] == t.rows[i];
  }

  /** The row of a key is unique, so the one found decides. */
  lemma SentRowFound(t: Tables, row: Row, key: string)
    requires KeysUnique(t.rows) && row in t.rows && row.dedupe == Some(ListingKey(key))
    ensures RowIsSent(t.rows, key) <==> row.status.Sent?
    ensures KeyTaken(t.rows, Some(ListingKey(key)))
  {
  }

  lemma AddedRow(t: Tables, before: seq<Row>, after: seq<Row>, announced: set<string>, key: string, announce: bool,
                 now: int)
    requires t.rows <= before && key !in announced
    requires Announces(before[|t.rows|..], if announce then announced else {}, now)
    requires after == if announce then before + [ListingRow(key, now)] else before
    ensures t.rows <= after
    ensures Announces(after[|t.rows|..], if announce then announced + {key} else {}, now)
  {
    if announce {
      var b, a := before[|t.rows|..], after[|t.rows|..];
      assert a == b + [ListingRow(key, now)];
      assert a[|b|].origin == Some(key);
      assert forall i | 0 <= i < |b| :: a[i] == b[i];
    }
  }
}
