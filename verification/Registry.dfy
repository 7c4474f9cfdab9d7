/**
 The instrument registry: fetched instruments are compared with the stored ones, the differences are emitted
 as events and the table is brought up to date.
 */
module Registry {

  /** Category and symbol identify an instrument, never the symbol alone. */
  type Key = (string, string)

  datatype Instrument = Instrument(
    category: string,
    symbol: string,
    baseCoin: string,
    status: string,
    isPreListing: bool)

  datatype Record = Record(instrument: Instrument, firstSeenAt: int, lastSeenAt: int)

  type Table = map<Key, Record>

  datatype RegistryEvent =
    | New(key: Key, status: string)
    | StatusTransition(key: Key, from: string, to: string)
    | Removed(key: Key, from: string)

  const StatusRemoved := "Removed"

  function Identity(inst: Instrument): Key {
    (inst.category, inst.symbol)
  }

  function Identities(fetched: seq<Instrument>): set<Key> {
    set i | 0 <= i < |fetched| :: Identity(fetched[i])
  }

  /** The event of one fetched instrument; an empty registry is seeded silently. */
  function EventFor(table: Table, inst: Instrument): seq<RegistryEvent> {
    var key := Identity(inst);
    if key !in table then
      if table == map[] then [] else [New(key, inst.status)]
    else if table[key].instrument.status != inst.status then
      [StatusTransition(key, table[key].instrument.status, inst.status)]
    else []
  }

  function FetchEvents(table: Table, fetched: seq<Instrument>): seq<RegistryEvent>
    decreases |fetched|
  {
    if fetched == [] then [] else
      FetchEvents(table, fetched[..|fetched| - 1]) + EventFor(table, fetched[|fetched| - 1])
  }

  /** An update keeps the time the instrument was first seen. */
  function Upserted(table: Table, inst: Instrument, now: int): Table {
    var key := Identity(inst);
    table[key := Record(inst, if key in table then table[key].firstSeenAt else now, now)]
  }

  function UpsertedAll(table: Table, fetched: seq<Instrument>, now: int): Table
    decreases |fetched|
  {
    if fetched == [] then table
    else Upserted(UpsertedAll(table, fetched[..|fetched| - 1], now), fetched[|fetched| - 1], now)
  }

  /** Stored instruments that the exchange no longer lists and that are not marked so yet. */
  function Gone(table: Table, fetched: seq<Instrument>): set<Key> {
    set key | key in table && table[key].instrument.status != StatusRemoved && key !in Identities(fetched)
  }

  function MarkedRemoved(record: Record, now: int): Record {
    record.(instrument := record.instrument.(status := StatusRemoved), lastSeenAt := now)
  }

  function RemovedAll(table: Table, keys: set<Key>, now: int): Table {
    map key | key in table :: if key in keys then MarkedRemoved(table[key], now) else table[key]
  }

  function Reconciled(table: Table, fetched: seq<Instrument>, now: int): Table {
    RemovedAll(UpsertedAll(table, fetched, now), Gone(table, fetched), now)
  }

  /** The removal events, in whatever order the table is walked. */
  ghost predicate RemovalEvents(table: Table, fetched: seq<Instrument>, events: seq<RegistryEvent>) {
    && (forall i | 0 <= i < |events| ::
          events[i].Removed? && events[i].key in Gone(table, fetched)
            && events[i].from == table[events[i].key].instrument.status)
    && (forall i, j | 0 <= i < j < |events| :: events[i].key != events[j].key)
    && (forall key | key in Gone(table, fetched) :: exists i :: 0 <= i < |events| && events[i].key == key)
  }

  ghost predicate ReconcileEvents(table: Table, fetched: seq<Instrument>, events: seq<RegistryEvent>) {
    exists removals :: RemovalEvents(table, fetched, removals) && events == FetchEvents(table, fetched) + removals
  }

  class InstrumentRegistry {
    var table: Table

    constructor ()
      ensures table == map[]
    {
      table := map[];
    }

    /** One pass over the fetched list. */
    method ScanFetched(fetched: seq<Instrument>)
      returns (events: seq<RegistryEvent>, upserts: seq<Instrument>, seen: set<Key>)
      ensures events == FetchEvents(table, fetched)
      ensures upserts == fetched && seen == Identities(fetched)
    {
      events, upserts, seen := [], [], {};
      for i := 0 to |fetched|
        invariant events == FetchEvents(table, fetched[..i])
        invariant upserts == fetched[..i]
        invariant seen == Identities(fetched[..i])
      {
        var inst := fetched[i];
        var key := Identity(inst);
        assert fetched[..i + 1][..i] == fetched[..i];
        assert Identities(fetched[..i + 1]) == Identities(fetched[..i]) + {key};
        seen := seen + {key};
        upserts := upserts + [inst];
        if key !in table {
          if |table| != 0 { events := events + [New(key, inst.status)]; }
        } else if table[key].instrument.status != inst.status {
          events := events + [StatusTransition(key, table[key].instrument.status, inst.status)];
        }
      }
      assert fetched[..|fetched|] == fetched;
    }

    /** One pass over the stored instruments, in any order. */
    method ScanStored(ghost fetched: seq<Instrument>, seen: set<Key>)
      returns (removals: seq<RegistryEvent>, removed: set<Key>)
      requires seen == Identities(fetched)
      ensures RemovalEvents(table, fetched, removals) && removed == Gone(table, fetched)
    {
      removals, removed := [], {};
      var left := table.Keys;
      while left != {}
        invariant left <= table.Keys
        invariant removed == Gone(table, fetched) - left
        invariant forall i | 0 <= i < |removals| ::
                    removals[i].Removed? && removals[i].key in removed
                      && removals[i].from == table[removals[i].key].instrument.status
        invariant forall i, j | 0 <= i < j < |removals| :: removals[i].key != removals[j].key
        invariant forall key | key in removed :: exists i :: 0 <= i < |removals| && removals[i].key == key
        decreases left
      {
        var key :| key in left;
        left := left - {key};
        if table[key].instrument.status != StatusRemoved && key !in seen {
          ghost var before := removals;
          removals := removals + [Removed(key, table[key].instrument.status)];
          removed := removed + {key};
          assert removals[|before|].key == key;
          assert forall i | 0 <= i < |before| :: removals[i] == before[i];
        }
      }
      assert removed == Gone(table, fetched);
    }

    method Reconcile(fetched: seq<Instrument>, now: int) returns (events: seq<RegistryEvent>, firstRun: bool)
      modifies this
      ensures firstRun <==> old(table) == map[]
      ensures table == Reconciled(old(table), fetched, now)
      ensures ReconcileEvents(old(table), fetched, events)
    {
      firstRun := |table| == 0;
      var scanned, upserts, seen := ScanFetched(fetched);
      var removals, removed := ScanStored(fetched, seen);
      events := scanned + removals;
      UpsertMany(upserts, now);
      MarkRemoved(removed, now);
    }

    method UpsertMany(instruments: seq<Instrument>, now: int)
      modifies this
      ensures table == UpsertedAll(old(table), instruments, now)
    {
      for i := 0 to |instruments|
        invariant table == UpsertedAll(old(table), instruments[..i], now)
      {
        assert instruments[..i + 1][..i] == instruments[..i];
        table := Upserted(table, instruments[i], now);
      }
      assert instruments[..|instruments|] == instruments;
    }

    method MarkRemoved(keys: set<Key>, now: int)
      modifies this
      ensures table == RemovedAll(old(table), keys, now)
    {
      var left := keys;
      while left != {}
        invariant left <= keys
        invariant table == RemovedAll(old(table), keys - left, now)
        decreases left
      {
        var key :| key in left;
        left := left - {key};
        if key in table { table := table[key := MarkedRemoved(table[key], now)]; }
      }
    }
  }
}
