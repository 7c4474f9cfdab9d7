/**
 The durable tables the alert and the listing side share: the outbox of messages and the listing events.
 Rows are never deleted, so a row's position is its id.
 */
module Outbox {
  import opened Wrappers
  import opened AlertTrace
  import opened DedupeKeys

  datatype Status = Pending | Retry | Sent | Dead

  datatype Tag = AlertTag(kind: Kind) | ListingTag

  /** `origin` is the listing event a listing row belongs to. */
  datatype Row = Row(
    tag: Tag,
    createdAt: int,
    status: Status,
    dedupe: Option<string>,
    origin: Option<string>,
    attempts: nat,
    nextAttemptAt: Option<int>)

  /** `silent` events are the delistings, which are never announced. */
  datatype Event = Event(silent: bool, sent: bool)

  function AlertRow(kind: Kind, key: Option<string>, now: int): Row {
    Row(AlertTag(kind), now, Pending, key, None, 0, None)
  }

  function ListingRow(eventKey: string, now: int): Row {
    Row(ListingTag, now, Pending, Some(ListingKey(eventKey)), Some(eventKey), 0, None)
  }

  predicate Unsent(row: Row) {
    row.status.Pending? || row.status.Retry?
  }

  /** The unique index on the dedupe key. */
  predicate KeyTaken(rows: seq<Row>, key: Option<string>) {
    key.Some? && exists i :: 0 <= i < |rows| && rows[i].dedupe == key
  }

  predicate KeysUnique(rows: seq<Row>) {
    forall i, j | 0 <= i < j < |rows| :: rows[i].dedupe.Some? ==> rows[i].dedupe != rows[j].dedupe
  }

  predicate Overdue(row: Row, now: int, alertAge: nat, listingAge: nat) {
    Unsent(row) && row.createdAt < now - (if row.origin.Some? then listingAge else alertAge)
  }

  function Expired(row: Row, now: int, alertAge: nat, listingAge: nat): Row {
    if Overdue(row, now, alertAge, listingAge) then row.(status := Dead) else row
  }

  function ExpiredAll(rows: seq<Row>, now: int, alertAge: nat, listingAge: nat): seq<Row> {
    seq(|rows|, i requires 0 <= i < |rows| => Expired(rows[i], now, alertAge, listingAge))
  }

  predicate Due(row: Row, now: int) {
    Unsent(row) && (row.nextAttemptAt.Some? ==> row.nextAttemptAt.value <= now)
  }

  /** The ids of the due rows from `start` on, in order, at most `limit` of them. */
  function DueFrom(rows: seq<Row>, now: int, start: nat, limit: nat): (ids: seq<nat>)
    requires start <= |rows|
    ensures |ids| <= limit
    ensures forall k | 0 <= k < |ids| :: start <= ids[k] < |rows| && Due(rows[ids[k]], now)
    ensures forall j, k | 0 <= j < k < |ids| :: ids[j] < ids[k]
    ensures |ids| < limit ==> forall i | start <= i < |rows| && Due(rows[i], now) :: i in ids
    decreases |rows| - start
  {
    if start == |rows| || limit == 0 then []
    else if Due(rows[start], now) then [start] + DueFrom(rows, now, start + 1, limit - 1)
    else DueFrom(rows, now, start + 1, limit)
  }

  const RetryDelays: seq<nat> := [10, 30, 60, 300, 600, 1200, 2400, 3600]

  /** The delay after the `n`-th failed attempt. */
  function RetryDelay(n: nat): (d: nat)
    requires n >= 1
    ensures 10 <= d <= 3600
  {
    RetryDelays[(if n <= |RetryDelays| then n else |RetryDelays|) - 1]
  }

  /** The delays of the first `n` failed attempts together. */
  function TotalDelay(n: nat): nat {
    if n == 0 then 0 else TotalDelay(n - 1) + RetryDelay(n)
  }

  lemma {:induction false} TotalDelayGrows(m: nat, n: nat)
    requires m <= n
    ensures TotalDelay(m) <= TotalDelay(n)
    decreases n
  {
    if m == n {
    } else {
      TotalDelayGrows(m, n - 1);
    }
  }

  /** When a row that keeps failing is due again, in seconds after its creation. */
  lemma TotalDelayOfEight()
    ensures TotalDelay(1) == 10 && TotalDelay(2) == 40 && TotalDelay(3) == 100 && TotalDelay(4) == 400
    ensures TotalDelay(5) == 1000 && TotalDelay(6) == 2200 && TotalDelay(7) == 4600 && TotalDelay(8) == 8200
  {
    assert TotalDelay(2) == 40 && TotalDelay(4) == 400 && TotalDelay(6) == 2200;
  }

  /** The delays never get shorter, and after eight failures stay at an hour. */
  lemma DelaysNeverDecrease(m: nat, n: nat)
    requires 1 <= m <= n
    ensures RetryDelay(m) <= RetryDelay(n)
    ensures m >= 8 ==> RetryDelay(m) == 3600
  {
    assert RetryDelays == [10, 30, 60, 300, 600, 1200, 2400, 3600];
  }

  lemma {:induction false} TotalDelayBeyondEight(n: nat)
    requires n >= 8
    ensures TotalDelay(n) == 8200 + 3600 * (n - 8)
  {
    if n == 8 { TotalDelayOfEight(); } else { TotalDelayBeyondEight(n - 1); }
  }

  function MarkedSent(row: Row): Row { row.(status := Sent) }

  function MarkedDead(row: Row): Row { row.(status := Dead) }

  function MarkedRetry(row: Row, next: int): Row {
    row.(status := Retry, attempts := row.attempts + 1, nextAttemptAt := Some(next))
  }

  function FlaggedSent(events: map<string, Event>, key: string): map<string, Event> {
    if key in events then events[key := events[key].(sent := true)] else events
  }

  /** The events with exactly these keys flagged, in whatever order that happened. */
  function FlaggedAll(events: map<string, Event>, keys: set<string>): map<string, Event> {
    map key | key in events :: if key in keys then events[key].(sent := true) else events[key]
  }

  lemma FlagOneMore(events: map<string, Event>, flagged: set<string>, key: string)
    ensures FlaggedSent(FlaggedAll(events, flagged), key) == FlaggedAll(events, flagged + {key})
  {
  }

  /** Another delivery attempt waits for the scheduled delay, and longer if flood control asks for it. */
  function NextAttempt(now: int, attempts: nat, retryAfter: Option<int>): (next: int)
    ensures next >= now + RetryDelay(attempts + 1)
    ensures retryAfter.Some? ==> next >= now + retryAfter.value
    ensures next == now + RetryDelay(attempts + 1) || (retryAfter.Some? && next == now + retryAfter.value)
  {
    var delay := RetryDelay(attempts + 1);
    now + if retryAfter.Some? && retryAfter.value > delay then retryAfter.value else delay
  }
}
