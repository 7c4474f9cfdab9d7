/**
 When the one-hour anchor is certain to be there: an exact condition on the sampling interval, the gaps between
 prices around an hour ago, the tolerance and the retention. What happens after the window has closed, outages
 and restarts included, plays no part in it.
 */
module SpotCoverage {
  import opened Wrappers
  import opened SpotHistory

  function WindowStart(now: int, tolerance: real): int {
    Trunc((now - SecondsPerHour) as real - tolerance)
  }

  function WindowEnd(now: int, tolerance: real): int {
    Trunc((now - SecondsPerHour) as real + tolerance)
  }

  function Max(a: int, b: int): int { if a >= b then a else b }

  function Min(a: int, b: int): int { if a <= b then a else b }

  /** The first second of the window that a pruning at `now` spares. */
  function Spared(now: int, tolerance: real, retention: real): int {
    Max(WindowStart(now, tolerance), now - Trunc(retention))
  }

  /** The longest whole number of seconds that is still too soon after a sample. */
  function Lag(interval: real): (lag: nat)
    ensures interval <= 1.0 ==> lag == 0
    ensures interval > 1.0 ==> lag as real < interval <= (lag + 1) as real
  {
    if interval <= 1.0 then 0
    else if interval.Floor as real == interval then interval.Floor - 1 else interval.Floor
  }

  /**
   Positive prices have been arriving since `from`, which is no later than the end of the window, and each of
   them up to the end of the window is followed by another one within the gap. Nothing is asked of later ones.
   */
  ghost predicate ArrivesSteadily(events: seq<Event>, from: int, now: int, gap: real, tolerance: real) {
    && (exists i :: PositivePrice(events, i) && events[i].at == from)
    && from <= WindowEnd(now, tolerance)
    && (forall i | 0 <= i < |events| && !events[i].Restart? :: events[i].at <= now)
    && (forall i
          | PositivePrice(events, i) && from <= events[i].at <= WindowEnd(now, tolerance) && events[i].at < now ::
          Followed(events, i, gap))
  }

  ghost predicate Followed(events: seq<Event>, i: int, gap: real)
    requires PositivePrice(events, i)
  {
    exists j :: PositivePrice(events, j) && events[i].at < events[j].at && (events[j].at - events[i].at) as real <= gap
  }

  ghost predicate HasAnchor(samples: Samples, now: int, tolerance: real) {
    exists t :: IsAnchor(samples, now - SecondsPerHour, tolerance, t)
      && Anchor(samples, now, tolerance) == Some(samples[t])
  }

  /** Whatever the history, with restarts and prunings anywhere, the query at `now` finds its anchor. */
  ghost predicate AlwaysAnchored(now: int, gap: real, interval: real, tolerance: real, retention: real) {
    forall events: seq<Event>, from: int :: InOrder(events) && ArrivesSteadily(events, from, now, gap, tolerance) ==>
      HasAnchor(After(events, interval, retention).samples, now, tolerance)
  }

  /**
   The condition. If the window has closed, a price before its end and the sample that stands for it must lie
   in the spared part; if it is still open, the sample that stands for a price of this very second must.
   */
  predicate DenseEnough(now: int, gap: real, interval: real, tolerance: real, retention: real) {
    var first, end := Spared(now, tolerance, retention), WindowEnd(now, tolerance);
    if end < now
    then gap < 1.0 || gap.Floor + Lag(interval) <= Max(end - first + 1, 0)
    else Lag(interval) <= now - first
  }

  // ---------------------------------------------------------------------------------------------
  // Enough
  // ---------------------------------------------------------------------------------------------

  /** The last positive price that arrived no later than a bound. */
  lemma {:induction false} LatestUpTo(events: seq<Event>, bound: int) returns (i: int)
    requires exists k :: PositivePrice(events, k) && events[k].at <= bound
    ensures PositivePrice(events, i) && events[i].at <= bound
    ensures forall k | PositivePrice(events, k) && events[k].at <= bound :: k <= i
    decreases |events|
  {
    var n := |events| - 1;
    if PositivePrice(events, n) && events[n].at <= bound {
      i := n;
    } else {
      var k :| PositivePrice(events, k) && events[k].at <= bound;
      assert PositivePrice(events[..n], k) && events[..n][k].at <= bound;
      i := LatestUpTo(events[..n], bound);
      forall k | PositivePrice(events, k) && events[k].at <= bound ensures k <= i {
        assert PositivePrice(events[..n], k) && events[..n][k].at <= bound;
      }
    }
  }

  /** A whole number of seconds within the gap. */
  lemma WithinGap(d: int, gap: real)
    requires d as real <= gap
    ensures d <= gap.Floor
  {
  }

  /** The price followed is the last one of the window, so the one that follows it is beyond. */
  lemma FollowerIsBeyond(events: seq<Event>, i: int, j: int, bound: int)
    requires InOrder(events) && PositivePrice(events, i) && PositivePrice(events, j) && events[i].at < events[j].at
    requires forall k | PositivePrice(events, k) && events[k].at <= bound :: k <= i
    ensures events[j].at > bound
  {
  }

  /** The last price of a closed window comes at most a gap before the first one beyond it. */
  lemma LastOfWindow(events: seq<Event>, from: int, now: int, gap: real, tolerance: real) returns (i: int)
    requires InOrder(events) && ArrivesSteadily(events, from, now, gap, tolerance) && WindowEnd(now, tolerance) < now
    ensures PositivePrice(events, i) && gap >= 1.0
    ensures WindowEnd(now, tolerance) + 1 - gap.Floor <= events[i].at <= WindowEnd(now, tolerance)
  {
    var end := WindowEnd(now, tolerance);
    var first :| PositivePrice(events, first) && events[first].at == from;
    i := LatestUpTo(events, end);
    assert first <= i && Followed(events, i, gap);
    var j :| PositivePrice(events, j) && events[i].at < events[j].at && (events[j].at - events[i].at) as real <= gap;
    FollowerIsBeyond(events, i, j, end);
    WithinGap(events[j].at - events[i].at, gap);
  }

  /** While the window is open, a steady history has a price of this very second. */
  lemma PriceNow(events: seq<Event>, from: int, now: int, gap: real, tolerance: real) returns (i: int)
    requires InOrder(events) && ArrivesSteadily(events, from, now, gap, tolerance) && WindowEnd(now, tolerance) >= now
    ensures PositivePrice(events, i) && events[i].at == now
  {
    var first :| PositivePrice(events, first) && events[first].at == from;
    i := LatestUpTo(events, now);
    assert first <= i;
    if events[i].at < now {
      assert Followed(events, i, gap);
      var j :| PositivePrice(events, j) && events[i].at < events[j].at && (events[j].at - events[i].at) as real <= gap;
      FollowerIsBeyond(events, i, j, now);
      assert false;
    }
  }

  /** The sample that stands for a price is in the spared part of the window, so it is stored, and it is found. */
  lemma RepresentativeFound(events: seq<Event>, i: int, now: int, interval: real, tolerance: real, retention: real)
    requires InOrder(events) && PositivePrice(events, i)
    requires forall k | 0 <= k < |events| && !events[k].Restart? :: events[k].at <= now
    requires events[i].at <= WindowEnd(now, tolerance)
    requires events[i].at - Lag(interval) >= Spared(now, tolerance, retention)
    ensures HasAnchor(After(events, interval, retention).samples, now, tolerance)
  {
    EveryPriceRepresented(events, i, interval, retention);
    var s :| Represents(s, events[i].at, interval) && KeptOrPruned(events, s, interval, retention);
    assert !PrunedAway(events, s, retention);
    AnchorFound(After(events, interval, retention).samples, now, tolerance, s);
  }

  lemma DenseSuffices(events: seq<Event>, from: int, now: int, gap: real, interval: real, tolerance: real,
                      retention: real)
    requires DenseEnough(now, gap, interval, tolerance, retention)
    requires InOrder(events) && ArrivesSteadily(events, from, now, gap, tolerance)
    ensures HasAnchor(After(events, interval, retention).samples, now, tolerance)
  {
    if WindowEnd(now, tolerance) < now {
      var i := LastOfWindow(events, from, now, gap, tolerance);
      RepresentativeFound(events, i, now, interval, tolerance, retention);
    } else {
      var i := PriceNow(events, from, now, gap, tolerance);
      RepresentativeFound(events, i, now, interval, tolerance, retention);
    }
  }

  // ---------------------------------------------------------------------------------------------
  // And no less
  // ---------------------------------------------------------------------------------------------

  /** A price every second, `n` of them. */
  function EverySecond(start: int, n: nat): seq<Event> {
    seq(n, k => Price(start + k, 1.0))
  }

  /** As long as every later one is too soon, only the first of them is sampled. */
  lemma {:induction false} OnlyFirstSampled(start: int, n: nat, interval: real, retention: real)
    requires 1 <= n <= Lag(interval) + 1
    ensures After(EverySecond(start, n), interval, retention) == Track(map[start := 1.0], Some(start))
    decreases n
  {
    var events := EverySecond(start, n);
    assert events == EverySecond(start, n - 1) + [Price(start + n - 1, 1.0)];
    AfterAppend(EverySecond(start, n - 1), Price(start + n - 1, 1.0), interval, retention);
    if n > 1 {
      OnlyFirstSampled(start, n - 1, interval, retention);
    } else {
      assert EverySecond(start, 0) == [];
    }
  }

  /** One sample just before the spared part, prices that are all too soon after it, one price beyond the window. */
  function Unlucky(start: int, last: int, end: int, now: int): seq<Event>
    requires start <= last
  {
    EverySecond(start, last - start + 1) + [Price(end + 1, 1.0)] + [Prune(now)]
  }

  lemma UnluckySamples(start: int, last: int, end: int, now: int, interval: real, retention: real)
    requires start <= last && last - start <= Lag(interval) && end >= last
    ensures forall t | t in After(Unlucky(start, last, end, now), interval, retention).samples ::
              (t == start || t == end + 1) && t >= now - Trunc(retention)
  {
    var chain := EverySecond(start, last - start + 1);
    OnlyFirstSampled(start, last - start + 1, interval, retention);
    AfterAppend(chain, Price(end + 1, 1.0), interval, retention);
    AfterAppend(chain + [Price(end + 1, 1.0)], Prune(now), interval, retention);
  }

  lemma UnluckyArrives(start: int, last: int, now: int, gap: real, tolerance: real)
    requires gap >= 1.0 && start <= last <= WindowEnd(now, tolerance) < now
    requires WindowEnd(now, tolerance) + 1 - last <= gap.Floor
    ensures var events := Unlucky(start, last, WindowEnd(now, tolerance), now);
            InOrder(events) && ArrivesSteadily(events, start, now, gap, tolerance)
  {
    var end := WindowEnd(now, tolerance);
    var events := Unlucky(start, last, end, now);
    var n := last - start + 1;
    assert |events| == n + 2 && events[n] == Price(end + 1, 1.0) && events[n + 1] == Prune(now);
    assert forall k | 0 <= k < n :: events[k] == Price(start + k, 1.0);
    assert PositivePrice(events, 0) && events[0].at == start;
    forall i | PositivePrice(events, i) && start <= events[i].at <= end && events[i].at < now
      ensures Followed(events, i, gap)
    {
      assert i < n && PositivePrice(events, i + 1);
      assert events[i + 1].at - events[i].at <= gap.Floor;
    }
  }

  lemma NoneInWindow(samples: Samples, now: int, tolerance: real)
    requires forall t | t in samples :: !InWindow(t, now - SecondsPerHour, tolerance)
    ensures !HasAnchor(samples, now, tolerance)
  {
  }

  lemma ClosedWindowCanBeMissed(now: int, gap: real, interval: real, tolerance: real, retention: real)
    returns (events: seq<Event>, from: int)
    requires WindowEnd(now, tolerance) < now && !DenseEnough(now, gap, interval, tolerance, retention)
    ensures InOrder(events) && ArrivesSteadily(events, from, now, gap, tolerance)
    ensures !HasAnchor(After(events, interval, retention).samples, now, tolerance)
  {
    var end := WindowEnd(now, tolerance);
    from := Min(Spared(now, tolerance, retention) - 1, end);
    var last := Min(from + Lag(interval), end);
    events := Unlucky(from, last, end, now);
    UnluckyArrives(from, last, now, gap, tolerance);
    UnluckySamples(from, last, end, now, interval, retention);
    NoneInWindow(After(events, interval, retention).samples, now, tolerance);
  }

  /** While the window is open a price of this second can be too soon after a sample just before the spared part. */
  lemma OpenWindowCanBeMissed(now: int, gap: real, interval: real, tolerance: real, retention: real)
    returns (events: seq<Event>, from: int)
    requires WindowEnd(now, tolerance) >= now && !DenseEnough(now, gap, interval, tolerance, retention)
    ensures InOrder(events) && ArrivesSteadily(events, from, now, gap, tolerance)
    ensures !HasAnchor(After(events, interval, retention).samples, now, tolerance)
  {
    var start := Min(Spared(now, tolerance, retention) - 1, now);
    from := now;
    var both := [Price(start, 1.0)] + [Price(now, 1.0)];
    events := both + [Prune(now)];
    assert PositivePrice(events, 1) && events[1].at == now;
    AfterAppend([], Price(start, 1.0), interval, retention);
    assert [] + [Price(start, 1.0)] == [Price(start, 1.0)];
    AfterAppend([Price(start, 1.0)], Price(now, 1.0), interval, retention);
    assert After(both, interval, retention).samples == map[start := 1.0];
    AfterAppend(both, Prune(now), interval, retention);
    NoneInWindow(After(events, interval, retention).samples, now, tolerance);
  }

  /**
   For any interval, gap, tolerance and retention: every steady history has an anchor at `now`, whatever
   restarts, outages and prunings it went through, if and only if the condition holds.
   */
  lemma AnchorExactly(now: int, gap: real, interval: real, tolerance: real, retention: real)
    ensures AlwaysAnchored(now, gap, interval, tolerance, retention) <==>
            DenseEnough(now, gap, interval, tolerance, retention)
  {
    if DenseEnough(now, gap, interval, tolerance, retention) {
      forall events: seq<Event>, from: int | InOrder(events) && ArrivesSteadily(events, from, now, gap, tolerance)
        ensures HasAnchor(After(events, interval, retention).samples, now, tolerance)
      {
        DenseSuffices(events, from, now, gap, interval, tolerance, retention);
      }
    } else if WindowEnd(now, tolerance) < now {
      var events, from := ClosedWindowCanBeMissed(now, gap, interval, tolerance, retention);
    } else {
      var events, from := OpenWindowCanBeMissed(now, gap, interval, tolerance, retention);
    }
  }

  // ---------------------------------------------------------------------------------------------
  // Readings of the condition
  // ---------------------------------------------------------------------------------------------

  lemma TruncIsNear(x: real)
    ensures x - 1.0 < Trunc(x) as real < x + 1.0
    ensures x >= 0.0 ==> Trunc(x) as real <= x
    ensures x <= 0.0 ==> Trunc(x) as real >= x
  {
  }

  /**
   The bound of the design: an interval and a gap that together fit into the window, an interval of at most an
   hour and the tolerance, and a retention of at least that, are enough at any time.
   */
  lemma AnchorAvailable(now: int, gap: real, interval: real, tolerance: real, retention: real)
    requires interval >= 0.0 && interval + gap <= 2.0 * tolerance
    requires interval <= SecondsPerHour as real + tolerance
    requires Trunc(retention) as real >= SecondsPerHour as real + tolerance
    ensures AlwaysAnchored(now, gap, interval, tolerance, retention)
  {
    var target := (now - SecondsPerHour) as real;
    TruncIsNear(target - tolerance);
    TruncIsNear(target + tolerance);
    WholeRetentionIsSafe(now, tolerance, retention);
    assert Spared(now, tolerance, retention) == WindowStart(now, tolerance);
    if WindowEnd(now, tolerance) < now && gap >= 1.0 {
      FitsWindow(target, tolerance, gap, interval);
    }
    AnchorExactly(now, gap, interval, tolerance, retention);
  }

  lemma FitsWindow(target: real, tolerance: real, gap: real, interval: real)
    requires gap >= 1.0 && interval >= 0.0 && interval + gap <= 2.0 * tolerance
    ensures gap.Floor + Lag(interval) <= Trunc(target + tolerance) - Trunc(target - tolerance) + 1
  {
    var x, y := target - tolerance, target + tolerance;
    TruncIsNear(x);
    TruncIsNear(y);
    assert y - x >= interval + gap >= Lag(interval) as real + gap.Floor as real;
  }

  /**
   With the default interval, tolerance and retention the anchor is certain for gaps below 123 seconds, and for
   no others.
   */
  lemma DefaultGapsExactly(now: int, gap: real)
    ensures AlwaysAnchored(now, gap, 60.0, 90.0, 7200.0) <==> gap < 123.0
  {
    var target := now - SecondsPerHour;
    assert target as real - 90.0 == (target - 90) as real && target as real + 90.0 == (target + 90) as real;
    assert WindowStart(now, 90.0) == target - 90 && WindowEnd(now, 90.0) == target + 90;
    assert Lag(60.0) == 59 && Trunc(7200.0) == 7200;
    AnchorExactly(now, gap, 60.0, 90.0, 7200.0);
  }

  /**
   That the interval and the gap fit into the window is not enough by itself: with an interval of 13700, gaps of
   6300 and a tolerance of 10000 seconds some history lacks its anchor.
   */
  lemma LongIntervalCanLackAnchor()
    ensures 13700.0 + 6300.0 <= 2.0 * 10000.0
    ensures !AlwaysAnchored(13650, 6300.0, 13700.0, 10000.0, 20000.0)
  {
    assert (10050 as real - 10000.0) == 50.0 && (10050 as real + 10000.0) == 20050.0;
    assert Lag(13700.0) == 13699;
    AnchorExactly(13650, 6300.0, 13700.0, 10000.0, 20000.0);
  }
}
