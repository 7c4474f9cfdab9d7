/**
 The delivery worker in place: expire, read the due rows, deliver them one by one, record what happened.
 What Telegram answers is a parameter; the clock stands still during the passes described here.
 */
module Dispatcher {
  import opened Wrappers
  import opened Ordering
  import opened Outbox

  /** `Unrecorded` is an acceptance whose status write fails. */
  datatype Answer = Accepted | Unrecorded | Refused | Failed(retryAfter: Option<int>)

  /** Telegram's answer to the attempt on a row in the `pass`-th poll. */
  type Telegram = (nat, nat) -> Answer

  const BatchLimit: nat := 100

  /** The row after its delivery attempt. */
  function Attempted(row: Row, answer: Answer, now: int): Row {
    match answer
    case Accepted => MarkedSent(row)
    case Unrecorded => MarkedRetry(row, NextAttempt(now, row.attempts, None))
    case Refused => MarkedDead(row)
    case Failed(retryAfter) => MarkedRetry(row, NextAttempt(now, row.attempts, retryAfter))
  }

  /** All rows after one pass over the due ones: those attempted are changed, the others untouched. */
  ghost predicate PassDone(before: seq<Row>, ids: seq<nat>, answer: nat -> Answer, now: int, after: seq<Row>) {
    && |after| == |before|
    && (forall k | 0 <= k < |ids| ::
       ids[k] < |before| && after[ids[k]] == Attempted(before[ids[k]], answer(ids[k]), now))
    && (forall i | 0 <= i < |before| && i !in ids :: after[i] == before[i])
  }

  /** The listing events whose messages a pass delivers. */
  function Acknowledged(rows: seq<Row>, ids: seq<nat>, answer: nat -> Answer): set<string>
    requires forall k | 0 <= k < |ids| :: ids[k] < |rows|
  {
    set k | 0 <= k < |ids| && answer(ids[k]).Accepted? && rows[ids[k]].origin.Some? :: rows[ids[k]].origin.value
  }

  lemma AcknowledgedAppend(rows: seq<Row>, ids: seq<nat>, answer: nat -> Answer)
    requires ids != [] && forall k | 0 <= k < |ids| :: ids[k] < |rows|
    ensures var n := |ids| - 1;
            Acknowledged(rows, ids, answer) == Acknowledged(rows, ids[..n], answer) +
              if answer(ids[n]).Accepted? && rows[ids[n]].origin.Some? then {rows[ids[n]].origin.value} else {}
  {
    var n := |ids| - 1;
    var last := if answer(ids[n]).Accepted? && rows[ids[n]].origin.Some? then {rows[ids[n]].origin.value} else {};
    forall key ensures key in Acknowledged(rows, ids, answer) <==> key in Acknowledged(rows, ids[..n], answer) + last {
      if key in Acknowledged(rows, ids[..n], answer) {
        var k :| 0 <= k < n && answer(ids[..n][k]).Accepted? && rows[ids[..n][k]].origin == Some(key);
        assert ids[..n][k] == ids[k];
      }
      if key in Acknowledged(rows, ids, answer) {
        var k :| 0 <= k < |ids| && answer(ids[k]).Accepted? && rows[ids[k]].origin == Some(key);
        if k < n { assert ids[..n][k] == ids[k]; }
      }
    }
  }

  /** Flagging one more event, or none. */
  lemma FlagMore(events: map<string, Event>, flagged: set<string>, row: Row, accepted: bool)
    ensures (if accepted && row.origin.Some? then FlaggedSent(FlaggedAll(events, flagged), row.origin.value)
             else FlaggedAll(events, flagged)) ==
            FlaggedAll(events, flagged + if accepted && row.origin.Some? then {row.origin.value} else {})
  {
    if accepted && row.origin.Some? {
      FlagOneMore(events, flagged, row.origin.value);
    } else {
      assert flagged + {} == flagged;
    }
  }

  lemma FlagsStep(rows: seq<Row>, events: map<string, Event>, ids: seq<nat>, k: nat, answer: nat -> Answer)
    requires k < |ids| && forall k | 0 <= k < |ids| :: ids[k] < |rows|
    ensures var row, flagged := rows[ids[k]], FlaggedAll(events, Acknowledged(rows, ids[..k], answer));
            FlaggedAll(events, Acknowledged(rows, ids[..k + 1], answer)) ==
            if answer(ids[k]).Accepted? && row.origin.Some? then FlaggedSent(flagged, row.origin.value) else flagged
  {
    assert ids[..k + 1][..k] == ids[..k];
    AcknowledgedAppend(rows, ids[..k + 1], answer);
    FlagMore(events, Acknowledged(rows, ids[..k], answer), rows[ids[k]], answer(ids[k]).Accepted?);
  }

  function DueSet(rows: seq<Row>, now: int): set<nat> {
    set i: nat | 0 <= i < |rows| && Due(rows[i], now)
  }

  /** An attempted row is not due any more in the same second. */
  lemma AttemptedIsNotDue(row: Row, answer: Answer, now: int)
    ensures !Due(Attempted(row, answer, now), now)
  {
  }

  lemma {:induction false} DistinctIds(ids: seq<nat>)
    requires forall j, k | 0 <= j < k < |ids| :: ids[j] < ids[k]
    ensures |Elements(ids)| == |ids|
    decreases |ids|
  {
    if ids == [] {
    } else {
      var n := |ids| - 1;
      DistinctIds(ids[..n]);
      assert ids == ids[..n] + [ids[n]];
      assert Elements(ids) == Elements(ids[..n]) + {ids[n]};
    }
  }

  lemma SubsetSmaller(a: set<nat>, b: set<nat>)
    requires a <= b
    ensures |a| <= |b|
  {
    assert b == a + (b - a);
  }

  /** A poll finds as many rows as are due, up to the limit. */
  lemma PollSize(rows: seq<Row>, now: int)
    ensures var ids := DueFrom(rows, now, 0, BatchLimit);
            && Elements(ids) <= DueSet(rows, now)
            && |Elements(ids)| == |ids|
            && |ids| == if |DueSet(rows, now)| <= 100 then |DueSet(rows, now)| else 100
  {
    var ids := DueFrom(rows, now, 0, BatchLimit);
    DistinctIds(ids);
    SubsetSmaller(Elements(ids), DueSet(rows, now));
    if |ids| < BatchLimit {
      assert DueSet(rows, now) <= Elements(ids);
      assert DueSet(rows, now) == Elements(ids);
    }
  }

  /** A pass takes exactly the rows it attempted out of the due ones. */
  lemma PassShrinksDue(rows: seq<Row>, answer: nat -> Answer, now: int, after: seq<Row>)
    requires PassDone(rows, DueFrom(rows, now, 0, BatchLimit), answer, now, after)
    ensures DueSet(after, now) == DueSet(rows, now) - Elements(DueFrom(rows, now, 0, BatchLimit))
    ensures |DueSet(after, now)| == |DueSet(rows, now)| - |DueFrom(rows, now, 0, BatchLimit)|
  {
    var ids := DueFrom(rows, now, 0, BatchLimit);
    PollSize(rows, now);
    forall i: nat ensures i in DueSet(after, now) <==> i in DueSet(rows, now) - Elements(ids) {
      if i < |rows| && i in ids {
        var k :| 0 <= k < |ids| && ids[k] == i;
        AttemptedIsNotDue(rows[i], answer(i), now);
      }
    }
    SetSplit(DueSet(rows, now), Elements(ids));
  }

  lemma SetSplit(a: set<nat>, b: set<nat>)
    requires b <= a
    ensures |a - b| == |a| - |b|
  {
    assert a == (a - b) + b;
  }

  class AlertDispatcher {
    var rows: seq<Row>
    var events: map<string, Event>
    const alertAge: nat
    const listingAge: nat

    constructor (rows: seq<Row>, events: map<string, Event>, alertAge: nat, listingAge: nat)
      ensures this.rows == rows && this.events == events && this.alertAge == alertAge && this.listingAge == listingAge
    {
      this.rows, this.events, this.alertAge, this.listingAge := rows, events, alertAge, listingAge;
    }

    method ExpireNotifications(now: int)
      modifies this`rows
      ensures |rows| == |old(rows)|
      ensures forall i | 0 <= i < |rows| :: rows[i] == old(rows)[i] || rows[i] == MarkedDead(old(rows)[i])
      ensures forall i | 0 <= i < |rows| ::
                rows[i].status.Dead? <==> old(rows)[i].status.Dead? || Overdue(old(rows)[i], now, alertAge, listingAge)
    {
      rows := seq(|rows|, i requires 0 <= i < |rows| reads this => Expired(rows[i], now, alertAge, listingAge));
    }

    /** One attempt on a due row, and its record; a delivered listing is flagged in the same transaction. */
    method Deliver(id: nat, answer: Answer, now: int)
      requires id < |rows|
      modifies this
      ensures rows == old(rows)[id := Attempted(old(rows)[id], answer, now)]
      ensures var was, row := old(rows)[id], rows[id];
              && row == was.(status := row.status, attempts := row.attempts, nextAttemptAt := row.nextAttemptAt)
              && (answer.Accepted? ==> row.status == Sent && row.attempts == was.attempts)
              && (answer.Refused? ==> row.status == Dead && row.attempts == was.attempts)
              && (answer.Unrecorded? || answer.Failed? ==>
                    && row.status == Retry && row.attempts == was.attempts + 1 && row.nextAttemptAt.Some?
                    && row.nextAttemptAt.value - now >= RetryDelay(row.attempts)
                    && (answer.Failed? && answer.retryAfter.Some? ==>
                          row.nextAttemptAt.value - now >= answer.retryAfter.value)
                    && (row.nextAttemptAt.value - now > RetryDelay(row.attempts) ==>
                          answer.Failed? && answer.retryAfter == Some(row.nextAttemptAt.value - now)))
      ensures events == if answer.Accepted? && old(rows)[id].origin.Some?
                        then FlaggedSent(old(events), old(rows)[id].origin.value) else old(events)
    {
      var row := rows[id];
      match answer {
        case Accepted =>
          rows := rows[id := MarkedSent(row)];
          if row.origin.Some? { events := FlaggedSent(events, row.origin.value); }
        case Unrecorded =>
          rows := rows[id := MarkedRetry(row, now + RetryDelay(row.attempts + 1))];
        case Refused =>
          rows := rows[id := MarkedDead(row)];
        case Failed(retryAfter) =>
          var delay := RetryDelay(row.attempts + 1);
          if retryAfter.Some? && retryAfter.value > delay { delay := retryAfter.value; }
          rows := rows[id := MarkedRetry(row, now + delay)];
      }
    }

    /** One poll: every due row, up to the limit, is attempted once. */
    method ProcessDue(answer: nat -> Answer, now: int) returns (processed: bool)
      modifies this
      ensures var ids := DueFrom(old(rows), now, 0, BatchLimit);
              && PassDone(old(rows), ids, answer, now, rows)
              && events == FlaggedAll(old(events), Acknowledged(old(rows), ids, answer))
              && (processed <==> ids != [])
    {
      var ids := DueFrom(rows, now, 0, BatchLimit);
      for k := 0 to |ids|
        invariant PassDone(old(rows), ids[..k], answer, now, rows)
        invariant events == FlaggedAll(old(events), Acknowledged(old(rows), ids[..k], answer))
      {
        PassStep(old(rows), ids, k, answer, now, rows);
        FlagsStep(old(rows), old(events), ids, k, answer);
        Deliver(ids[k], answer(ids[k]), now);
      }
      assert ids[..|ids|] == ids;
      processed := ids != [];
    }

    /** One cycle of the worker: expire, then deliver what is due. */
    method Iteration(answer: nat -> Answer, now: int) returns (processed: bool)
      modifies this
      ensures var live := ExpiredAll(old(rows), now, alertAge, listingAge);
              && PassDone(live, DueFrom(live, now, 0, BatchLimit), answer, now, rows)
              && events == FlaggedAll(old(events), Acknowledged(live, DueFrom(live, now, 0, BatchLimit), answer))
              && (processed <==> DueFrom(live, now, 0, BatchLimit) != [])
    {
      ExpireNotifications(now);
      ExpiredRowByRow(old(rows), now, alertAge, listingAge, rows);
      processed := ProcessDue(answer, now);
    }

    /**
     Iterates until a poll finds nothing, with the clock standing still and nobody inserting. If n rows are
     due and not overdue at the start, as many polls find something as there are hundreds begun in n, and
     then no row is due.
     */
    method Drain(telegram: Telegram, now: int) returns (passes: nat)
      modifies this
      ensures passes == (|DueSet(ExpiredAll(old(rows), now, alertAge, listingAge), now)| + 99) / 100
      ensures DueSet(rows, now) == {} && |rows| == |old(rows)|
    {
      passes := 0;
      ghost var n := |DueSet(ExpiredAll(rows, now, alertAge, listingAge), now)|;
      ghost var live := ExpiredAll(rows, now, alertAge, listingAge);
      IterationShrinksDue(rows, (id: nat) => telegram(0, id), now, alertAge, listingAge);
      var processed := Iteration((id: nat) => telegram(0, id), now);
      while processed
        invariant |rows| == |old(rows)|
        invariant ExpiredAll(rows, now, alertAge, listingAge) == rows
        invariant |DueSet(rows, now)| == if processed then Left(n, passes + 1) else 0
        invariant processed ==> passes * BatchLimit < n
        invariant !processed ==> passes == (n + BatchLimit - 1) / BatchLimit
        decreases |DueSet(rows, now)|, processed
      {
        passes := passes + 1;
        IterationShrinksDue(rows, (id: nat) => telegram(passes, id), now, alertAge, listingAge);
        processed := Iteration((id: nat) => telegram(passes, id), now);
      }
      assert DueSet(rows, now) == {};
    }
  }

  /** Which rows an expiry kills determines all rows after it. */
  lemma ExpiredRowByRow(before: seq<Row>, now: int, alertAge: nat, listingAge: nat, after: seq<Row>)
    requires |after| == |before|
    requires forall i | 0 <= i < |after| :: after[i] == before[i] || after[i] == MarkedDead(before[i])
    requires forall i | 0 <= i < |after| ::
               after[i].status.Dead? <==> before[i].status.Dead? || Overdue(before[i], now, alertAge, listingAge)
    ensures after == ExpiredAll(before, now, alertAge, listingAge)
  {
  }

  /** How many of `n` rows are left after some passes. */
  function Left(n: nat, passes: nat): nat {
    if n <= passes * BatchLimit then 0 else n - passes * BatchLimit
  }

  lemma PassStep(before: seq<Row>, ids: seq<nat>, k: nat, answer: nat -> Answer, now: int, rows: seq<Row>)
    requires k < |ids| && ids[k] < |before|
    requires forall i, j | 0 <= i < j < |ids| :: ids[i] < ids[j]
    requires PassDone(before, ids[..k], answer, now, rows)
    ensures PassDone(before, ids[..k + 1], answer, now, rows[ids[k] := Attempted(rows[ids[k]], answer(ids[k]), now)])
  {
    assert ids[k] !in ids[..k];
    assert ids[..k + 1] == ids[..k] + [ids[k]];
  }

  /** After an iteration nothing is overdue, and the due rows are those the poll did not reach. */
  lemma IterationShrinksDue(rows: seq<Row>, answer: nat -> Answer, now: int, alertAge: nat, listingAge: nat)
    ensures var live := ExpiredAll(rows, now, alertAge, listingAge);
            var ids := DueFrom(live, now, 0, BatchLimit);
            && (ids == [] <==> DueSet(live, now) == {})
            && forall after :: PassDone(live, ids, answer, now, after) ==>
                 && ExpiredAll(after, now, alertAge, listingAge) == after
                 && |DueSet(after, now)| == Left(|DueSet(live, now)|, 1)
  {
    var live := ExpiredAll(rows, now, alertAge, listingAge);
    var ids := DueFrom(live, now, 0, BatchLimit);
    PollSize(live, now);
    assert DueSet(live, now) == {} <==> |DueSet(live, now)| == 0;
    forall i | 0 <= i < |live| ensures !Overdue(live[i], now, alertAge, listingAge) {}
    forall after | PassDone(live, ids, answer, now, after)
      ensures ExpiredAll(after, now, alertAge, listingAge) == after
              && |DueSet(after, now)| == Left(|DueSet(live, now)|, 1)
    {
      PassShrinksDue(live, answer, now, after);
      PassExpiresNothing(live, ids, answer, now, after, alertAge, listingAge);
    }
  }

  /** Where nothing is overdue, an attempt makes nothing overdue in the same second. */
  lemma PassExpiresNothing(live: seq<Row>, ids: seq<nat>, answer: nat -> Answer, now: int, after: seq<Row>,
                           alertAge: nat, listingAge: nat)
    requires PassDone(live, ids, answer, now, after)
    requires forall i | 0 <= i < |live| :: !Overdue(live[i], now, alertAge, listingAge)
    requires forall k | 0 <= k < |ids| :: ids[k] < |live| && Due(live[ids[k]], now)
    ensures ExpiredAll(after, now, alertAge, listingAge) == after
  {
    forall i | 0 <= i < |after| ensures !Overdue(after[i], now, alertAge, listingAge) {
      if i in ids {
        var k :| 0 <= k < |ids| && ids[k] == i;
        assert after[ids[k]] == Attempted(live[ids[k]], answer(ids[k]), now);
        assert !Overdue(live[i], now, alertAge, listingAge);
      } else {
        assert after[i] == live[i];
      }
    }
  }
}
