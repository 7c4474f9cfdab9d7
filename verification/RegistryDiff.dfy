/**
 What the events of a reconciliation tell. Events are replayed over the old statuses and compared with the new
 ones, key by key, for any fetched list: the program concatenates lists and pages, so an identity may occur more
 than once in it, and every copy is compared with the table as it was before.
 */
module RegistryDiff {
  import opened Wrappers
  import opened Registry

  type Statuses = map<Key, string>

  function StatusesOf(table: Table): Statuses {
    map key | key in table :: table[key].instrument.status
  }

  /** What one event says about the statuses. */
  function Told(statuses: Statuses, e: RegistryEvent): Statuses {
    match e
    case New(key, status) => statuses[key := status]
    case StatusTransition(key, _, to) => statuses[key := to]
    case Removed(key, _) => statuses[key := StatusRemoved]
  }

  function ToldAll(statuses: Statuses, events: seq<RegistryEvent>): Statuses
    decreases |events|
  {
    if events == [] then statuses else Told(ToldAll(statuses, events[..|events| - 1]), events[|events| - 1])
  }

  // ---------------------------------------------------------------------------------------------
  // Key by key
  // ---------------------------------------------------------------------------------------------

  function At(statuses: Statuses, key: Key): Option<string> {
    if key in statuses then Some(statuses[key]) else None
  }

  function OrElse(a: Option<string>, b: Option<string>): Option<string> {
    if a.Some? then a else b
  }

  lemma SameAtEveryKey(a: Statuses, b: Statuses)
    ensures a == b <==> forall key :: At(a, key) == At(b, key)
  {
    if forall key :: At(a, key) == At(b, key) {
      forall key ensures key in a <==> key in b { assert At(a, key) == At(b, key); }
      forall key | key in a ensures a[key] == b[key] { assert At(a, key) == At(b, key); }
    }
  }

  predicate Emits(table: Table, inst: Instrument) {
    EventFor(table, inst) != []
  }

  /** The status of the last copy of a key. */
  function LastCopy(fetched: seq<Instrument>, key: Key): Option<string>
    decreases |fetched|
  {
    if fetched == [] then None else
      var n := |fetched| - 1;
      if Identity(fetched[n]) == key then Some(fetched[n].status) else LastCopy(fetched[..n], key)
  }

  /** The status of the last copy of a key that has an event. */
  function LastTold(table: Table, fetched: seq<Instrument>, key: Key): Option<string>
    decreases |fetched|
  {
    if fetched == [] then None else
      var n := |fetched| - 1;
      if Identity(fetched[n]) == key && Emits(table, fetched[n]) then Some(fetched[n].status)
      else LastTold(table, fetched[..n], key)
  }

  lemma ToldAppend(start: Statuses, events: seq<RegistryEvent>, e: RegistryEvent)
    ensures ToldAll(start, events + [e]) == Told(ToldAll(start, events), e)
  {
    assert (events + [e])[..|events|] == events;
  }

  /** One more copy tells its event, if it has one. */
  lemma ToldStep(start: Statuses, table: Table, fetched: seq<Instrument>)
    requires fetched != []
    ensures var n := |fetched| - 1;
            var before := ToldAll(start, FetchEvents(table, fetched[..n]));
            ToldAll(start, FetchEvents(table, fetched)) ==
            if Emits(table, fetched[n]) then Told(before, EventFor(table, fetched[n])[0]) else before
  {
    var n := |fetched| - 1;
    var before, events := FetchEvents(table, fetched[..n]), EventFor(table, fetched[n]);
    if events == [] {
      assert before + events == before;
    } else {
      assert before + events == before + [events[0]];
      ToldAppend(start, before, events[0]);
    }
  }

  /** What the event of a copy says of a key. */
  lemma EventSays(statuses: Statuses, table: Table, inst: Instrument, key: Key)
    requires Emits(table, inst)
    ensures At(Told(statuses, EventFor(table, inst)[0]), key) ==
            if key == Identity(inst) then Some(inst.status) else At(statuses, key)
  {
  }

  /** The events of the fetched part tell of a key what its last copy with an event says. */
  lemma {:induction false} ToldByKey(start: Statuses, table: Table, fetched: seq<Instrument>, key: Key)
    ensures At(ToldAll(start, FetchEvents(table, fetched)), key) ==
            OrElse(LastTold(table, fetched, key), At(start, key))
    decreases |fetched|
  {
    if fetched == [] {
    } else {
      var n := |fetched| - 1;
      ToldByKey(start, table, fetched[..n], key);
      ToldStep(start, table, fetched);
      if Emits(table, fetched[n]) {
        EventSays(ToldAll(start, FetchEvents(table, fetched[..n])), table, fetched[n], key);
      }
    }
  }

  /** The upserts leave of a key what its last copy says. */
  lemma {:induction false} StoredByKey(table: Table, fetched: seq<Instrument>, now: int, key: Key)
    ensures At(StatusesOf(UpsertedAll(table, fetched, now)), key) ==
            OrElse(LastCopy(fetched, key), At(StatusesOf(table), key))
    decreases |fetched|
  {
    if fetched == [] {
    } else {
      StoredByKey(table, fetched[..|fetched| - 1], now, key);
    }
  }

  function RemovedKeys(events: seq<RegistryEvent>): set<Key> {
    set i | 0 <= i < |events| :: events[i].key
  }

  predicate OnlyRemovals(events: seq<RegistryEvent>) {
    forall i | 0 <= i < |events| :: events[i].Removed?
  }

  lemma RemovedKeysAppend(events: seq<RegistryEvent>, key: Key)
    requires events != []
    ensures key in RemovedKeys(events) <==>
            key in RemovedKeys(events[..|events| - 1]) || key == events[|events| - 1].key
  {
    var n := |events| - 1;
    if key in RemovedKeys(events) {
      var i :| 0 <= i < |events| && events[i].key == key;
      assert i < n ==> events[..n][i].key == key;
    }
    if key in RemovedKeys(events[..n]) {
      var i :| 0 <= i < n && events[..n][i].key == key;
      assert events[i].key == key;
    }
  }

  lemma {:induction false} RemovalsByKey(start: Statuses, told: seq<RegistryEvent>, removals: seq<RegistryEvent>,
                                         key: Key)
    requires OnlyRemovals(removals)
    ensures At(ToldAll(start, told + removals), key) ==
            if key in RemovedKeys(removals) then Some(StatusRemoved) else At(ToldAll(start, told), key)
    decreases |removals|
  {
    if removals == [] {
      assert told + removals == told;
    } else {
      var n := |removals| - 1;
      RemovalsByKey(start, told, removals[..n], key);
      RemovedKeysAppend(removals, key);
      assert told + removals == told + removals[..n] + [removals[n]];
      ToldAppend(start, told + removals[..n], removals[n]);
    }
  }

  lemma GoneIsRemoved(table: Table, fetched: seq<Instrument>, removals: seq<RegistryEvent>)
    requires RemovalEvents(table, fetched, removals)
    ensures RemovedKeys(removals) == Gone(table, fetched) && OnlyRemovals(removals)
  {
  }

  /** What all events of a reconciliation tell of a key. */
  lemma EventsByKey(start: Statuses, table: Table, fetched: seq<Instrument>, removals: seq<RegistryEvent>, key: Key)
    requires RemovalEvents(table, fetched, removals)
    ensures At(ToldAll(start, FetchEvents(table, fetched) + removals), key) ==
            if key in Gone(table, fetched) then Some(StatusRemoved)
            else OrElse(LastTold(table, fetched, key), At(start, key))
  {
    GoneIsRemoved(table, fetched, removals);
    RemovalsByKey(start, FetchEvents(table, fetched), removals, key);
    ToldByKey(start, table, fetched, key);
  }

  /** What both writes of a reconciliation leave of a key. */
  lemma ReconciledByKey(table: Table, fetched: seq<Instrument>, now: int, key: Key)
    ensures At(StatusesOf(Reconciled(table, fetched, now)), key) ==
            if key in Gone(table, fetched) then Some(StatusRemoved)
            else OrElse(LastCopy(fetched, key), At(StatusesOf(table), key))
  {
    StoredByKey(table, fetched, now, key);
    var upserted := UpsertedAll(table, fetched, now);
    assert key in Reconciled(table, fetched, now) <==> key in upserted;
    if key in Gone(table, fetched) {
      NoCopy(fetched, key);
      assert At(StatusesOf(upserted), key).Some?;
    }
  }

  // ---------------------------------------------------------------------------------------------
  // Copies
  // ---------------------------------------------------------------------------------------------

  lemma {:induction false} NoCopy(fetched: seq<Instrument>, key: Key)
    ensures LastCopy(fetched, key).Some? <==> key in Identities(fetched)
    decreases |fetched|
  {
    if fetched == [] {
    } else {
      var n := |fetched| - 1;
      NoCopy(fetched[..n], key);
      if key in Identities(fetched) {
        var i :| 0 <= i < |fetched| && Identity(fetched[i]) == key;
        assert i < n ==> Identity(fetched[..n][i]) == key;
      }
      if key in Identities(fetched[..n]) {
        var i :| 0 <= i < n && Identity(fetched[..n][i]) == key;
        assert Identity(fetched[i]) == key;
      }
    }
  }

  /** Every copy of the key has this status. */
  predicate AllCopies(fetched: seq<Instrument>, key: Key, status: string) {
    forall i | 0 <= i < |fetched| && Identity(fetched[i]) == key :: fetched[i].status == status
  }

  lemma AllCopiesAppend(fetched: seq<Instrument>, key: Key, status: string)
    requires fetched != []
    ensures var n := |fetched| - 1;
            AllCopies(fetched, key, status) <==>
            AllCopies(fetched[..n], key, status) && (Identity(fetched[n]) == key ==> fetched[n].status == status)
  {
    var n := |fetched| - 1;
    if AllCopies(fetched, key, status) {
      forall i | 0 <= i < n && Identity(fetched[..n][i]) == key ensures fetched[..n][i].status == status {
        assert fetched[i] == fetched[..n][i];
      }
    }
    if AllCopies(fetched[..n], key, status) && (Identity(fetched[n]) == key ==> fetched[n].status == status) {
      forall i | 0 <= i < |fetched| && Identity(fetched[i]) == key ensures fetched[i].status == status {
        if i < n { assert fetched[..n][i] == fetched[i]; }
      }
    }
  }

  /** Of a stored key, nothing is told if and only if every copy has the stored status; the last word never is that. */
  lemma {:induction false} ToldOfStored(table: Table, fetched: seq<Instrument>, key: Key)
    requires key in table
    ensures LastTold(table, fetched, key).None? <==> AllCopies(fetched, key, table[key].instrument.status)
    ensures LastTold(table, fetched, key) != Some(table[key].instrument.status)
    ensures LastCopy(fetched, key).Some? && LastCopy(fetched, key) != Some(table[key].instrument.status) ==>
              LastTold(table, fetched, key) == LastCopy(fetched, key)
    decreases |fetched|
  {
    if fetched == [] {
    } else {
      var n := |fetched| - 1;
      ToldOfStored(table, fetched[..n], key);
      AllCopiesAppend(fetched, key, table[key].instrument.status);
    }
  }

  /** Of a key that is not stored every copy is told, except to a registry that is empty. */
  lemma {:induction false} ToldOfUnstored(table: Table, fetched: seq<Instrument>, key: Key)
    requires key !in table
    ensures LastTold(table, fetched, key) == if table == map[] then None else LastCopy(fetched, key)
    decreases |fetched|
  {
    if fetched == [] {
    } else {
      ToldOfUnstored(table, fetched[..|fetched| - 1], key);
    }
  }

  /** The last copy is one of the copies. */
  lemma {:induction false} LastCopyIsCopy(fetched: seq<Instrument>, key: Key) returns (i: nat)
    requires LastCopy(fetched, key).Some?
    ensures i < |fetched| && Identity(fetched[i]) == key && LastCopy(fetched, key) == Some(fetched[i].status)
    ensures forall j | i < j < |fetched| :: Identity(fetched[j]) != key
    decreases |fetched|
  {
    var n := |fetched| - 1;
    if Identity(fetched[n]) == key {
      i := n;
    } else {
      i := LastCopyIsCopy(fetched[..n], key);
      forall j | i < j < |fetched| ensures Identity(fetched[j]) != key {
        if j < n { assert Identity(fetched[..n][j]) != key; }
      }
    }
  }

  // ---------------------------------------------------------------------------------------------
  // Exact diffs
  // ---------------------------------------------------------------------------------------------

  /** The last copy of a stored key has the stored status, while another copy has a different one. */
  predicate Misleads(table: Table, fetched: seq<Instrument>, key: Key) {
    && key in table && LastCopy(fetched, key) == Some(table[key].instrument.status)
    && !AllCopies(fetched, key, table[key].instrument.status)
  }

  /** Of one key the last word is the last copy's, unless the copies mislead. */
  lemma ToldIsStored(table: Table, fetched: seq<Instrument>, key: Key)
    requires table != map[]
    ensures OrElse(LastTold(table, fetched, key), At(StatusesOf(table), key)) ==
            OrElse(LastCopy(fetched, key), At(StatusesOf(table), key))
       <==> !Misleads(table, fetched, key)
  {
    if key in table {
      ToldOfStored(table, fetched, key);
      if LastCopy(fetched, key).Some? { var i := LastCopyIsCopy(fetched, key); }
    } else {
      ToldOfUnstored(table, fetched, key);
    }
  }

  /** Replaying the events of the fetched part gives the statuses after the upserts exactly if no key misleads. */
  lemma FetchToldExactly(table: Table, fetched: seq<Instrument>, now: int)
    requires table != map[]
    ensures ToldAll(StatusesOf(table), FetchEvents(table, fetched)) == StatusesOf(UpsertedAll(table, fetched, now))
       <==> forall key :: !Misleads(table, fetched, key)
  {
    var told := ToldAll(StatusesOf(table), FetchEvents(table, fetched));
    var new_ := StatusesOf(UpsertedAll(table, fetched, now));
    SameAtEveryKey(told, new_);
    forall key ensures At(told, key) == At(new_, key) <==> !Misleads(table, fetched, key) {
      ToldByKey(StatusesOf(table), table, fetched, key);
      StoredByKey(table, fetched, now, key);
      ToldIsStored(table, fetched, key);
    }
  }

  /**
   On a registry that is not empty, replaying the events over the old statuses gives the new ones if and only if
   there is no stored key whose last copy has the stored status while another copy has a different one.
   */
  lemma EventsAreExactDiff(table: Table, fetched: seq<Instrument>, events: seq<RegistryEvent>, now: int)
    requires table != map[] && ReconcileEvents(table, fetched, events)
    ensures ToldAll(StatusesOf(table), events) == StatusesOf(Reconciled(table, fetched, now))
       <==> forall key :: !Misleads(table, fetched, key)
  {
    var removals: seq<RegistryEvent> :| RemovalEvents(table, fetched, removals)
      && events == FetchEvents(table, fetched) + removals;
    var told, new_ := ToldAll(StatusesOf(table), events), StatusesOf(Reconciled(table, fetched, now));
    SameAtEveryKey(told, new_);
    forall key ensures At(told, key) == At(new_, key) <==> !Misleads(table, fetched, key) {
      EventsByKey(StatusesOf(table), table, fetched, removals, key);
      ReconciledByKey(table, fetched, now, key);
      ToldIsStored(table, fetched, key);
      if key in Gone(table, fetched) { NoCopy(fetched, key); }
    }
  }

  ghost predicate UniqueIdentities(fetched: seq<Instrument>) {
    forall i, j | 0 <= i < j < |fetched| :: Identity(fetched[i]) != Identity(fetched[j])
  }

  /** Copies of one identity have one status. */
  ghost predicate CopiesAgree(fetched: seq<Instrument>) {
    forall i, j | 0 <= i < |fetched| && 0 <= j < |fetched| && Identity(fetched[i]) == Identity(fetched[j]) ::
      fetched[i].status == fetched[j].status
  }

  /** Lists without repetitions, and repetitions that agree, never mislead. */
  lemma AgreeingNeverMislead(table: Table, fetched: seq<Instrument>, key: Key)
    requires UniqueIdentities(fetched) || CopiesAgree(fetched)
    ensures !Misleads(table, fetched, key)
  {
    if LastCopy(fetched, key).Some? { var i := LastCopyIsCopy(fetched, key); }
  }

  /** For every stored instrument there is a list that misleads: a copy with another status, and then itself. */
  lemma RepetitionMisleads(table: Table, key: Key, other: string)
    requires key in table && Identity(table[key].instrument) == key && other != table[key].instrument.status
    ensures Misleads(table, [table[key].instrument.(status := other), table[key].instrument], key)
  {
    var fetched := [table[key].instrument.(status := other), table[key].instrument];
    assert Identity(fetched[0]) == key && fetched[0].status == other;
  }

  // ---------------------------------------------------------------------------------------------
  // Redundant events
  // ---------------------------------------------------------------------------------------------

  /** Every event changes what the ones before it have told. */
  ghost predicate NoneRedundant(statuses: Statuses, events: seq<RegistryEvent>) {
    forall i | 0 <= i < |events| :: !Redundant(statuses, events, i)
  }

  ghost predicate Redundant(statuses: Statuses, events: seq<RegistryEvent>, i: nat)
    requires i < |events|
  {
    ToldAll(statuses, events[..i + 1]) == ToldAll(statuses, events[..i])
  }

  lemma RedundantEarlier(statuses: Statuses, events: seq<RegistryEvent>, more: seq<RegistryEvent>, i: nat)
    requires i < |events|
    ensures Redundant(statuses, events + more, i) <==> Redundant(statuses, events, i)
  {
    assert (events + more)[..i] == events[..i] && (events + more)[..i + 1] == events[..i + 1];
  }

  lemma RedundantLast(statuses: Statuses, events: seq<RegistryEvent>, e: RegistryEvent)
    ensures Redundant(statuses, events + [e], |events|) <==>
            Told(ToldAll(statuses, events), e) == ToldAll(statuses, events)
  {
    assert (events + [e])[..|events|] == events && (events + [e])[..|events| + 1] == events + [e];
    ToldAppend(statuses, events, e);
  }

  lemma RedundantAt(statuses: Statuses, events: seq<RegistryEvent>, i: nat, before: seq<RegistryEvent>,
                    e: RegistryEvent)
    requires i < |events| && before == events[..i] && e == events[i]
    ensures Redundant(statuses, events, i) <==> Told(ToldAll(statuses, before), e) == ToldAll(statuses, before)
  {
    assert events[..i + 1] == before + [e];
    ToldAppend(statuses, before, e);
  }

  /** The copy has an event, and the last earlier copy of its key that has one told the same status. */
  predicate Repeats(table: Table, fetched: seq<Instrument>, j: nat)
    requires j < |fetched|
  {
    Emits(table, fetched[j]) && LastTold(table, fetched[..j], Identity(fetched[j])) == Some(fetched[j].status)
  }

  /** One copy's event, after those of the copies before it. */
  lemma CopyRedundantExactly(table: Table, fetched: seq<Instrument>, j: nat)
    requires j < |fetched| && Emits(table, fetched[j])
    ensures var told := ToldAll(StatusesOf(table), FetchEvents(table, fetched[..j]));
            Told(told, EventFor(table, fetched[j])[0]) == told <==> Repeats(table, fetched, j)
  {
    var key := Identity(fetched[j]);
    var told := ToldAll(StatusesOf(table), FetchEvents(table, fetched[..j]));
    ToldByKey(StatusesOf(table), table, fetched[..j], key);
    assert At(Told(told, EventFor(table, fetched[j])[0]), key) == Some(fetched[j].status);
    if At(told, key) == Some(fetched[j].status) {
      assert Told(told, EventFor(table, fetched[j])[0]) == told;
    }
  }

  /** No event of the fetched part is redundant exactly if no copy repeats what was told of its key last. */
  lemma {:induction false} FetchRedundantExactly(table: Table, fetched: seq<Instrument>)
    ensures NoneRedundant(StatusesOf(table), FetchEvents(table, fetched)) <==>
            forall j | 0 <= j < |fetched| :: !Repeats(table, fetched, j)
    decreases |fetched|
  {
    if fetched == [] {
    } else {
      var n := |fetched| - 1;
      var before := FetchEvents(table, fetched[..n]);
      FetchRedundantExactly(table, fetched[..n]);
      RepeatsEarlier(table, fetched, n);
      LastEventRedundant(table, fetched);
    }
  }

  lemma RepeatsEarlier(table: Table, fetched: seq<Instrument>, n: nat)
    requires n < |fetched|
    ensures (forall j | 0 <= j < n :: !Repeats(table, fetched[..n], j)) <==>
            (forall j | 0 <= j < n :: !Repeats(table, fetched, j))
  {
    forall j | 0 <= j < n ensures Repeats(table, fetched[..n], j) <==> Repeats(table, fetched, j) {
      assert fetched[..n][..j] == fetched[..j] && fetched[..n][j] == fetched[j];
    }
  }

  lemma LastEventRedundant(table: Table, fetched: seq<Instrument>)
    requires fetched != []
    ensures var n := |fetched| - 1;
            var statuses := StatusesOf(table);
            NoneRedundant(statuses, FetchEvents(table, fetched)) <==>
            NoneRedundant(statuses, FetchEvents(table, fetched[..n])) && !Repeats(table, fetched, n)
  {
    var n := |fetched| - 1;
    var before, events := FetchEvents(table, fetched[..n]), EventFor(table, fetched[n]);
    if events == [] {
      assert before + events == before;
    } else {
      assert before + events == before + [events[0]];
      RedundantLast(StatusesOf(table), before, events[0]);
      CopyRedundantExactly(table, fetched, n);
      forall i | 0 <= i < |before|
        ensures Redundant(StatusesOf(table), before + events, i) <==> Redundant(StatusesOf(table), before, i)
      {
        RedundantEarlier(StatusesOf(table), before, events, i);
      }
    }
  }

  /** A removal always says something new. */
  lemma RemovalNeverRedundant(table: Table, fetched: seq<Instrument>, removals: seq<RegistryEvent>, i: nat)
    requires RemovalEvents(table, fetched, removals) && i < |removals|
    ensures var told := FetchEvents(table, fetched);
            !Redundant(StatusesOf(table), told + removals, |told| + i)
  {
    var told := FetchEvents(table, fetched);
    RemovalTells(table, fetched, removals, i);
    PrefixOfJoin(told, removals, i);
    RedundantAt(StatusesOf(table), told + removals, |told| + i, told + removals[..i], removals[i]);
  }

  lemma PrefixOfJoin(a: seq<RegistryEvent>, b: seq<RegistryEvent>, i: nat)
    requires i < |b|
    ensures (a + b)[..|a| + i] == a + b[..i] && (a + b)[|a| + i] == b[i]
  {
  }

  lemma RemovalTells(table: Table, fetched: seq<Instrument>, removals: seq<RegistryEvent>, i: nat)
    requires RemovalEvents(table, fetched, removals) && i < |removals|
    ensures var before := ToldAll(StatusesOf(table), FetchEvents(table, fetched) + removals[..i]);
            Told(before, removals[i]) != before
  {
    var key := removals[i].key;
    assert key !in RemovedKeys(removals[..i]);
    RemovalsByKey(StatusesOf(table), FetchEvents(table, fetched), removals[..i], key);
    ToldByKey(StatusesOf(table), table, fetched, key);
    NotFetchedNotTold(table, fetched, key);
    var before := ToldAll(StatusesOf(table), FetchEvents(table, fetched) + removals[..i]);
    assert At(before, key) == At(StatusesOf(table), key) && At(Told(before, removals[i]), key) == Some(StatusRemoved);
  }

  lemma {:induction false} NotFetchedNotTold(table: Table, fetched: seq<Instrument>, key: Key)
    requires key !in Identities(fetched)
    ensures LastTold(table, fetched, key).None?
    decreases |fetched|
  {
    if fetched == [] {
    } else {
      var n := |fetched| - 1;
      assert Identity(fetched[n]) in Identities(fetched);
      forall k | k in Identities(fetched[..n]) ensures k in Identities(fetched) {
        var i :| 0 <= i < n && Identity(fetched[..n][i]) == k;
        assert Identity(fetched[i]) == k;
      }
      NotFetchedNotTold(table, fetched[..n], key);
    }
  }

  /**
   No event of a reconciliation is redundant if and only if no copy of the list repeats what the last earlier
   copy with an event told of its key.
   */
  lemma NoneRedundantExactly(table: Table, fetched: seq<Instrument>, events: seq<RegistryEvent>)
    requires ReconcileEvents(table, fetched, events)
    ensures NoneRedundant(StatusesOf(table), events) <==> forall j | 0 <= j < |fetched| :: !Repeats(table, fetched, j)
  {
    var removals: seq<RegistryEvent> :| RemovalEvents(table, fetched, removals)
      && events == FetchEvents(table, fetched) + removals;
    var told := FetchEvents(table, fetched);
    FetchRedundantExactly(table, fetched);
    forall i | 0 <= i < |told|
      ensures Redundant(StatusesOf(table), events, i) <==> Redundant(StatusesOf(table), told, i)
    {
      RedundantEarlier(StatusesOf(table), told, removals, i);
    }
    forall i | |told| <= i < |events| ensures !Redundant(StatusesOf(table), events, i) {
      RemovalNeverRedundant(table, fetched, removals, i - |told|);
    }
  }

  /** In particular, a list without repeated identities has no redundant event. */
  lemma UniqueNeverRepeats(table: Table, fetched: seq<Instrument>, j: nat)
    requires UniqueIdentities(fetched) && j < |fetched|
    ensures !Repeats(table, fetched, j)
  {
    var key := Identity(fetched[j]);
    forall i | 0 <= i < j ensures Identity(fetched[..j][i]) != key { assert fetched[..j][i] == fetched[i]; }
    NotFetchedNotTold(table, fetched[..j], key);
  }

  // ---------------------------------------------------------------------------------------------
  // Reconciling again
  // ---------------------------------------------------------------------------------------------

  /** There is nothing to tell exactly if no copy has an event. */
  lemma {:induction false} SilentExactly(table: Table, fetched: seq<Instrument>)
    ensures FetchEvents(table, fetched) == [] <==> forall i | 0 <= i < |fetched| :: !Emits(table, fetched[i])
    decreases |fetched|
  {
    if fetched == [] {
    } else {
      var n := |fetched| - 1;
      SilentExactly(table, fetched[..n]);
      assert forall i | 0 <= i < n :: fetched[..n][i] == fetched[i];
      var before, last := FetchEvents(table, fetched[..n]), EventFor(table, fetched[n]);
      assert |FetchEvents(table, fetched)| == |before| + |last|;
    }
  }

  /** A table that has the last copies' statuses. */
  ghost predicate HoldsLastCopies(table: Table, fetched: seq<Instrument>) {
    forall i | 0 <= i < |fetched| ::
      At(StatusesOf(table), Identity(fetched[i])) == LastCopy(fetched, Identity(fetched[i]))
  }

  /** Such a table has nothing to tell of the list exactly if its copies agree. */
  lemma SilentIfAgreed(table: Table, fetched: seq<Instrument>)
    requires HoldsLastCopies(table, fetched)
    ensures FetchEvents(table, fetched) == [] <==> CopiesAgree(fetched)
  {
    SilentExactly(table, fetched);
    forall i | 0 <= i < |fetched|
      ensures Emits(table, fetched[i]) <==> LastCopy(fetched, Identity(fetched[i])) != Some(fetched[i].status)
    {
      NoCopy(fetched, Identity(fetched[i]));
      assert At(StatusesOf(table), Identity(fetched[i])).Some?;
    }
    AgreedExactly(fetched);
  }

  lemma AgreedExactly(fetched: seq<Instrument>)
    ensures CopiesAgree(fetched) <==>
            forall i | 0 <= i < |fetched| :: LastCopy(fetched, Identity(fetched[i])) == Some(fetched[i].status)
  {
    forall i | 0 <= i < |fetched| && CopiesAgree(fetched)
      ensures LastCopy(fetched, Identity(fetched[i])) == Some(fetched[i].status)
    {
      NoCopy(fetched, Identity(fetched[i]));
      var l := LastCopyIsCopy(fetched, Identity(fetched[i]));
    }
  }

  lemma UpsertsHold(table: Table, fetched: seq<Instrument>, now: int)
    ensures HoldsLastCopies(UpsertedAll(table, fetched, now), fetched)
    ensures HoldsLastCopies(Reconciled(table, fetched, now), fetched)
  {
    forall i | 0 <= i < |fetched|
      ensures var key := Identity(fetched[i]);
              && At(StatusesOf(UpsertedAll(table, fetched, now)), key) == LastCopy(fetched, key)
              && At(StatusesOf(Reconciled(table, fetched, now)), key) == LastCopy(fetched, key)
    {
      var key := Identity(fetched[i]);
      NoCopy(fetched, key);
      StoredByKey(table, fetched, now, key);
      ReconciledByKey(table, fetched, now, key);
    }
  }

  /** After a reconciliation nothing that is not fetched is left to remove. */
  lemma NothingGone(table: Table, fetched: seq<Instrument>, now: int)
    ensures Gone(Reconciled(table, fetched, now), fetched) == {}
  {
    var table' := Reconciled(table, fetched, now);
    forall key | key in table' && key !in Identities(fetched) ensures table'[key].instrument.status == StatusRemoved {
      ReconciledByKey(table, fetched, now, key);
      NoCopy(fetched, key);
      assert At(StatusesOf(table'), key) == Some(table'[key].instrument.status);
    }
  }

  /**
   Reconciling the same list again, after a first run as after any other, emits nothing if and only if copies of
   one identity have one status.
   */
  lemma SecondReconcileIsSilent(table: Table, fetched: seq<Instrument>, now: int, events: seq<RegistryEvent>)
    requires ReconcileEvents(Reconciled(table, fetched, now), fetched, events)
    ensures events == [] <==> CopiesAgree(fetched)
  {
    var table' := Reconciled(table, fetched, now);
    var removals: seq<RegistryEvent> :| RemovalEvents(table', fetched, removals)
      && events == FetchEvents(table', fetched) + removals;
    UpsertsHold(table, fetched, now);
    SilentIfAgreed(table', fetched);
    NothingGone(table, fetched, now);
    NoRemovals(table', fetched, removals);
  }

  lemma NoRemovals(table: Table, fetched: seq<Instrument>, removals: seq<RegistryEvent>)
    requires RemovalEvents(table, fetched, removals)
    ensures removals == [] <==> Gone(table, fetched) == {}
  {
    if removals != [] { assert removals[0].key in Gone(table, fetched); }
  }

  /** The upserts store the last copy of every fetched instrument, with the time it was first seen. */
  lemma {:induction false} UpsertsStore(table: Table, fetched: seq<Instrument>, now: int, i: nat)
    requires i < |fetched| && forall j | i < j < |fetched| :: Identity(fetched[j]) != Identity(fetched[i])
    ensures var key, upserted := Identity(fetched[i]), UpsertedAll(table, fetched, now);
            && key in upserted && upserted[key].instrument == fetched[i] && upserted[key].lastSeenAt == now
            && upserted[key].firstSeenAt == if key in table then table[key].firstSeenAt else now
    decreases |fetched|
  {
    var n := |fetched| - 1;
    if i < n {
      assert forall j | i < j < n :: fetched[..n][j] == fetched[j];
      UpsertsStore(table, fetched[..n], now, i);
    } else {
      FirstSeenKept(table, fetched[..n], now, Identity(fetched[n]));
    }
  }

  lemma {:induction false} FirstSeenKept(table: Table, fetched: seq<Instrument>, now: int, key: Key)
    ensures var upserted := UpsertedAll(table, fetched, now);
            && (key in table ==> key in upserted)
            && (key in upserted ==>
                upserted[key].firstSeenAt == if key in table then table[key].firstSeenAt else now)
    decreases |fetched|
  {
    if fetched == [] {
    } else {
      FirstSeenKept(table, fetched[..|fetched| - 1], now, key);
    }
  }

  /** They touch no other instrument. */
  lemma {:induction false} UpsertsTouchFetchedOnly(table: Table, fetched: seq<Instrument>, now: int, key: Key)
    requires key !in Identities(fetched)
    ensures key in table <==> key in UpsertedAll(table, fetched, now)
    ensures key in table ==> UpsertedAll(table, fetched, now)[key] == table[key]
    decreases |fetched|
  {
    if fetched == [] {
    } else {
      var n := |fetched| - 1;
      assert forall k | k in Identities(fetched[..n]) :: k in Identities(fetched);
      assert Identity(fetched[n]) in Identities(fetched);
      UpsertsTouchFetchedOnly(table, fetched[..n], now, key);
    }
  }

  // ---------------------------------------------------------------------------------------------
  // What a crash loses
  // ---------------------------------------------------------------------------------------------

  lemma GoneUnchangedByUpserts(table: Table, fetched: seq<Instrument>, now: int)
    ensures Gone(UpsertedAll(table, fetched, now), fetched) == Gone(table, fetched)
  {
    forall key ensures key in Gone(UpsertedAll(table, fetched, now), fetched) <==> key in Gone(table, fetched) {
      if key !in Identities(fetched) { UpsertsTouchFetchedOnly(table, fetched, now, key); }
    }
  }

  /**
   The two writes are separate transactions: if the second is lost, reconciling the same list again emits the same
   removals and ends in the same statuses, and it emits nothing else exactly if the copies agree.
   */
  lemma LostRemovalsComeBack(table: Table, fetched: seq<Instrument>, now: int, later: int)
    ensures var half := UpsertedAll(table, fetched, now);
            && Gone(half, fetched) == Gone(table, fetched)
            && (FetchEvents(half, fetched) == [] <==> CopiesAgree(fetched))
            && StatusesOf(Reconciled(half, fetched, later)) == StatusesOf(Reconciled(table, fetched, now))
  {
    var half := UpsertedAll(table, fetched, now);
    GoneUnchangedByUpserts(table, fetched, now);
    UpsertsHold(table, fetched, now);
    SilentIfAgreed(half, fetched);
    var a, b := StatusesOf(Reconciled(half, fetched, later)), StatusesOf(Reconciled(table, fetched, now));
    SameAtEveryKey(a, b);
    forall key ensures At(a, key) == At(b, key) {
      ReconciledByKey(half, fetched, later, key);
      ReconciledByKey(table, fetched, now, key);
      StoredByKey(table, fetched, now, key);
    }
  }

  /** Told over a table that holds the last copies, a fetched key keeps its old status exactly if its copies agree. */
  lemma ToldOverLast(table: Table, base: Table, fetched: seq<Instrument>, i: nat)
    requires i < |fetched| && HoldsLastCopies(base, fetched)
    ensures LastCopy(fetched, Identity(fetched[i])).Some?
    ensures var key := Identity(fetched[i]);
            OrElse(LastTold(base, fetched, key), At(StatusesOf(table), key)) == LastCopy(fetched, key) ==>
              && AllCopies(fetched, key, LastCopy(fetched, key).value)
              && At(StatusesOf(table), key) == LastCopy(fetched, key)
  {
    var key := Identity(fetched[i]);
    NoCopy(fetched, key);
    assert At(StatusesOf(base), key) == LastCopy(fetched, key);
    ToldOfStored(base, fetched, key);
  }

  /** Every fetched key is told right only if nothing was to be told of it. */
  lemma OnlySilentIsRight(table: Table, base: Table, fetched: seq<Instrument>)
    requires HoldsLastCopies(base, fetched)
    requires forall i | 0 <= i < |fetched| ::
               var key := Identity(fetched[i]);
               OrElse(LastTold(base, fetched, key), At(StatusesOf(table), key)) == LastCopy(fetched, key)
    ensures FetchEvents(table, fetched) == []
  {
    SilentExactly(table, fetched);
    forall i | 0 <= i < |fetched| ensures !Emits(table, fetched[i]) {
      var key := Identity(fetched[i]);
      ToldOverLast(table, base, fetched, i);
      NoCopy(fetched, key);
      assert fetched[i].status == LastCopy(fetched, key).value;
      assert At(StatusesOf(table), key) == Some(fetched[i].status);
    }
  }

  /** Where there is nothing to tell, every copy has the stored status. */
  lemma SilentMeansStored(table: Table, fetched: seq<Instrument>, key: Key)
    requires table != map[] && FetchEvents(table, fetched) == []
    ensures CopiesAgree(fetched)
    ensures OrElse(LastCopy(fetched, key), At(StatusesOf(table), key)) == At(StatusesOf(table), key)
  {
    SilentExactly(table, fetched);
    forall i | 0 <= i < |fetched| ensures At(StatusesOf(table), Identity(fetched[i])) == Some(fetched[i].status) {
      assert !Emits(table, fetched[i]);
    }
    if LastCopy(fetched, key).Some? { var i := LastCopyIsCopy(fetched, key); }
  }

  /**
   If a crash comes between the two writes, the first run has returned nothing. Replaying what the second one
   returns over the old statuses gives the new ones if and only if there was nothing to tell but removals in the
   first place: every new instrument and every change of status is lost.
   */
  lemma CrashLosesFetchEvents(table: Table, fetched: seq<Instrument>, now: int, later: int, events: seq<RegistryEvent>)
    requires table != map[] && ReconcileEvents(UpsertedAll(table, fetched, now), fetched, events)
    ensures ToldAll(StatusesOf(table), events) ==
            StatusesOf(Reconciled(UpsertedAll(table, fetched, now), fetched, later))
       <==> FetchEvents(table, fetched) == []
  {
    var half := UpsertedAll(table, fetched, now);
    var removals: seq<RegistryEvent> :| RemovalEvents(half, fetched, removals)
      && events == FetchEvents(half, fetched) + removals;
    UpsertsHold(table, fetched, now);
    forall key | key !in Identities(fetched) ensures At(StatusesOf(half), key) == At(StatusesOf(table), key) {
      StoredByKey(table, fetched, now, key);
      NoCopy(fetched, key);
    }
    ReplayExactly(table, half, fetched, later, removals);
  }

  /** Events told over the last copies, replayed over an older table. */
  lemma ReplayExactly(table: Table, base: Table, fetched: seq<Instrument>, now: int, removals: seq<RegistryEvent>)
    requires table != map[] && HoldsLastCopies(base, fetched) && RemovalEvents(base, fetched, removals)
    requires forall key | key !in Identities(fetched) :: At(StatusesOf(base), key) == At(StatusesOf(table), key)
    ensures ToldAll(StatusesOf(table), FetchEvents(base, fetched) + removals) ==
            StatusesOf(Reconciled(base, fetched, now))
       <==> FetchEvents(table, fetched) == []
  {
    var told := ToldAll(StatusesOf(table), FetchEvents(base, fetched) + removals);
    var new_ := StatusesOf(Reconciled(base, fetched, now));
    SameAtEveryKey(told, new_);
    forall key
      ensures At(told, key) == if key in Gone(base, fetched) then Some(StatusRemoved)
                               else OrElse(LastTold(base, fetched, key), At(StatusesOf(table), key))
      ensures At(new_, key) == if key in Gone(base, fetched) then Some(StatusRemoved)
                               else OrElse(LastCopy(fetched, key), At(StatusesOf(base), key))
    {
      EventsByKey(StatusesOf(table), base, fetched, removals, key);
      ReconciledByKey(base, fetched, now, key);
    }
    if told == new_ {
      forall i | 0 <= i < |fetched|
        ensures var key := Identity(fetched[i]);
                OrElse(LastTold(base, fetched, key), At(StatusesOf(table), key)) == LastCopy(fetched, key)
      {
        NoCopy(fetched, Identity(fetched[i]));
        assert At(told, Identity(fetched[i])) == At(new_, Identity(fetched[i]));
      }
      OnlySilentIsRight(table, base, fetched);
    }
    if FetchEvents(table, fetched) == [] {
      forall key ensures At(told, key) == At(new_, key) { SilentReplays(table, base, fetched, key); }
    }
  }

  lemma SilentReplays(table: Table, base: Table, fetched: seq<Instrument>, key: Key)
    requires table != map[] && HoldsLastCopies(base, fetched) && FetchEvents(table, fetched) == []
    requires forall k | k !in Identities(fetched) :: At(StatusesOf(base), k) == At(StatusesOf(table), k)
    ensures OrElse(LastTold(base, fetched, key), At(StatusesOf(table), key)) ==
            OrElse(LastCopy(fetched, key), At(StatusesOf(base), key))
  {
    SilentMeansStored(table, fetched, key);
    NoCopy(fetched, key);
    if LastCopy(fetched, key).Some? {
      var i := LastCopyIsCopy(fetched, key);
      assert At(StatusesOf(base), key) == LastCopy(fetched, key);
      ToldOfStored(base, fetched, key);
    } else {
      NotFetchedNotTold(base, fetched, key);
    }
  }

  /**
   If it comes after both writes but before the events are handled, the next run has at most disagreeing copies to
   tell. Replaying what it returns gives the new statuses if and only if there was nothing to tell in the first
   place: removals are lost as well.
   */
  lemma CrashLosesEvents(table: Table, fetched: seq<Instrument>, now: int, events: seq<RegistryEvent>,
                         again: seq<RegistryEvent>)
    requires table != map[] && ReconcileEvents(table, fetched, events)
    requires ReconcileEvents(Reconciled(table, fetched, now), fetched, again)
    ensures again == [] <==> CopiesAgree(fetched)
    ensures ToldAll(StatusesOf(table), again) == StatusesOf(Reconciled(table, fetched, now)) <==> events == []
  {
    var base := Reconciled(table, fetched, now);
    SecondReconcileIsSilent(table, fetched, now, again);
    var removals: seq<RegistryEvent> :| RemovalEvents(table, fetched, removals)
      && events == FetchEvents(table, fetched) + removals;
    NoRemovals(table, fetched, removals);
    var none: seq<RegistryEvent> :| RemovalEvents(base, fetched, none) && again == FetchEvents(base, fetched) + none;
    NothingGone(table, fetched, now);
    NoRemovals(base, fetched, none);
    assert again == FetchEvents(base, fetched);
    UpsertsHold(table, fetched, now);
    if Gone(table, fetched) == {} {
      KeptOthers(table, fetched, now);
      ReplayExactly(table, base, fetched, now, none);
      ReconciledTwice(table, fetched, now);
    } else {
      var key :| key in Gone(table, fetched);
      ReconciledByKey(table, fetched, now, key);
      ToldByKey(StatusesOf(table), base, fetched, key);
      NotFetchedNotTold(base, fetched, key);
      assert At(ToldAll(StatusesOf(table), again), key) != At(StatusesOf(base), key);
    }
  }

  lemma KeptOthers(table: Table, fetched: seq<Instrument>, now: int)
    requires Gone(table, fetched) == {}
    ensures forall key | key !in Identities(fetched) ::
              At(StatusesOf(Reconciled(table, fetched, now)), key) == At(StatusesOf(table), key)
  {
    forall key | key !in Identities(fetched)
      ensures At(StatusesOf(Reconciled(table, fetched, now)), key) == At(StatusesOf(table), key)
    {
      ReconciledByKey(table, fetched, now, key);
      NoCopy(fetched, key);
    }
  }

  lemma ReconciledTwice(table: Table, fetched: seq<Instrument>, now: int)
    ensures StatusesOf(Reconciled(Reconciled(table, fetched, now), fetched, now)) ==
            StatusesOf(Reconciled(table, fetched, now))
  {
    var base := Reconciled(table, fetched, now);
    var twice := StatusesOf(Reconciled(base, fetched, now));
    NothingGone(table, fetched, now);
    UpsertsHold(table, fetched, now);
    SameAtEveryKey(twice, StatusesOf(base));
    forall key ensures At(twice, key) == At(StatusesOf(base), key) {
      ReconciledByKey(base, fetched, now, key);
      NoCopy(fetched, key);
      if LastCopy(fetched, key).Some? { var i := LastCopyIsCopy(fetched, key); }
    }
  }
}
