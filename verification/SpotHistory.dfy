/**
 The spot price history of one market: downsampled recording, the one-hour anchor and pruning. Times are
 seconds; the sampling interval, the tolerance and the retention are real numbers, and where the program
 truncates one towards zero so does the model.
 */
module SpotHistory {
  import opened Wrappers
  import opened Ordering

  type Samples = map<int, real>

  /** What is stored of a market, and the volatile time of the last sample written in this process. */
  datatype Track = Track(samples: Samples, last: Option<int>)

  const NewTrack := Track(map[], None)

  const SecondsPerHour := 3600

  /** `int(x)` */
  function Trunc(x: real): int {
    if x >= 0.0 then x.Floor else -((-x).Floor)
  }

  predicate TooSoon(track: Track, at: int, interval: real) {
    track.last.Some? && (at - track.last.value) as real < interval
  }

  function Recorded(track: Track, at: int, price: real, interval: real): Track {
    if price <= 0.0 || TooSoon(track, at, interval) || at in track.samples then track
    else Track(track.samples[at := price], Some(at))
  }

  function Pruned(samples: Samples, cutoff: int): Samples {
    map t | t in samples && t >= cutoff :: samples[t]
  }

  function Distance(a: int, b: int): nat {
    if a <= b then b - a else a - b
  }

  predicate InWindow(t: int, target: int, tolerance: real) {
    Trunc(target as real - tolerance) <= t <= Trunc(target as real + tolerance)
  }

  /** `a` is preferred to `b`: nearer to the target, or as near and not earlier. */
  predicate Preferred(a: int, b: int, target: int) {
    Distance(a, target) < Distance(b, target) || (Distance(a, target) == Distance(b, target) && a >= b)
  }

  /** `t` is the sample the anchor query selects. */
  ghost predicate IsAnchor(samples: Samples, target: int, tolerance: real, t: int) {
    t in samples && InWindow(t, target, tolerance) &&
    forall u | u in samples && InWindow(u, target, tolerance) :: Preferred(t, u, target)
  }

  lemma AnchorUnique(samples: Samples, target: int, tolerance: real, t: int, u: int)
    requires IsAnchor(samples, target, tolerance, t) && IsAnchor(samples, target, tolerance, u)
    ensures t == u
  {
  }

  lemma {:induction false} PreferredExists(s: set<int>, target: int)
    requires s != {}
    ensures exists t :: t in s && forall u | u in s :: Preferred(t, u, target)
  {
    var x := SomeMember(s);
    var rest := s - {x};
    if rest == {} {
      assert s == {x};
      assert forall u | u in s :: Preferred(x, u, target);
    } else {
      PreferredExists(rest, target);
      var t: int :| t in rest && forall u | u in rest :: Preferred(t, u, target);
      var best: int := if Preferred(x, t, target) then x else t;
      forall u | u in s ensures Preferred(best, u, target) { assert u == x || u in rest; }
    }
  }

  /** There is an anchor as soon as any sample lies in the window. */
  lemma AnchorExists(samples: Samples, target: int, tolerance: real)
    requires exists t :: t in samples && InWindow(t, target, tolerance)
    ensures exists t :: IsAnchor(samples, target, tolerance, t)
  {
    var s := set t | t in samples && InWindow(t, target, tolerance);
    var t :| t in samples && InWindow(t, target, tolerance);
    assert t in s;
    PreferredExists(s, target);
    var best :| best in s && forall u | u in s :: Preferred(best, u, target);
    assert IsAnchor(samples, target, tolerance, best);
  }

  /** The answer of the anchor query at `now`. */
  ghost function Anchor(samples: Samples, now: int, tolerance: real): Option<real> {
    var target := now - SecondsPerHour;
    if t: int :| IsAnchor(samples, target, tolerance, t) then Some(samples[t]) else None
  }

  class SpotHistory {
    var samples: Samples
    var last: Option<int>
    const interval: real
    const tolerance: real

    ghost function State(): Track
      reads this
    {
      Track(samples, last)
    }

    constructor (samples: Samples, interval: real, tolerance: real)
      ensures State() == Track(samples, None) && this.interval == interval && this.tolerance == tolerance
    {
      this.samples, this.interval, this.tolerance := samples, interval, tolerance;
      last := None;
    }

    method Record(at: int, price: Option<real>) returns (written: bool)
      modifies this
      ensures State() == if price.None? then old(State()) else Recorded(old(State()), at, price.value, interval)
      ensures written <==>
                && price.Some? && price.value > 0.0 && at !in old(samples)
                && (old(last).Some? ==> (at - old(last).value) as real >= interval)
      ensures written ==> samples == old(samples)[at := price.value] && last == Some(at)
      ensures !written ==> State() == old(State())
    {
      if price.None? || price.value <= 0.0 { return false; }
      if last.Some? && (at - last.value) as real < interval { return false; }
      written := at !in samples;
      if written {
        ghost var before := samples;
        samples := samples[at := price.value];
        last := Some(at);
        assert at in samples && at !in before;
      }
    }

    /** Walks the stored samples in any order and keeps the preferred one. */
    method FindAnchor(now: int) returns (price: Option<real>)
      ensures price == Anchor(samples, now, tolerance)
    {
      var target := now - SecondsPerHour;
      var best: Option<int> := None;
      var left := samples.Keys;
      while left != {}
        invariant left <= samples.Keys
        invariant best.None? ==> forall u | u in samples && u !in left :: !InWindow(u, target, tolerance)
        invariant best.Some? ==>
                    && best.value in samples && InWindow(best.value, target, tolerance)
                    && forall u | u in samples && u !in left && InWindow(u, target, tolerance) ::
                       Preferred(best.value, u, target)
        decreases left
      {
        var t := Pick(left);
        left := left - {t};
        if InWindow(t, target, tolerance) && (best.None? || Preferred(t, best.value, target)) { best := Some(t); }
      }
      if best.Some? {
        assert IsAnchor(samples, target, tolerance, best.value);
        forall u | IsAnchor(samples, target, tolerance, u) ensures u == best.value {
          AnchorUnique(samples, target, tolerance, u, best.value);
        }
        price := Some(samples[best.value]);
      } else {
        price := None;
      }
    }

    method Prune(now: int, retention: real)
      modifies this`samples
      ensures forall t :: t in samples <==> t in old(samples) && t >= now - Trunc(retention)
      ensures forall t | t in samples :: samples[t] == old(samples)[t]
      ensures PruneSafe(now, tolerance, retention) ==>
                forall later | now <= later ::
                  Anchor(samples, later, tolerance) == Anchor(old(samples), later, tolerance)
    {
      ghost var before := samples;
      samples := map t | t in samples && t >= now - Trunc(retention) :: samples[t];
      assert samples == Pruned(before, now - Trunc(retention));
      if PruneSafe(now, tolerance, retention) {
        forall later | now <= later ensures Anchor(samples, later, tolerance) == Anchor(before, later, tolerance) {
          SafePruneKeepsAnchor(before, now, tolerance, retention, later);
        }
      }
    }
  }

  // ---------------------------------------------------------------------------------------------
  // Coverage
  // ---------------------------------------------------------------------------------------------

  /** What happens to a market: a price arrives, the process restarts, or old samples are pruned. */
  datatype Event = Price(at: int, price: real) | Restart | Prune(at: int)

  function Step(track: Track, e: Event, interval: real, retention: real): Track {
    match e
    case Price(at, price) => Recorded(track, at, price, interval)
    case Restart => track.(last := None)
    case Prune(at) => track.(samples := Pruned(track.samples, at - Trunc(retention)))
  }

  function After(events: seq<Event>, interval: real, retention: real): Track
    decreases |events|
  {
    if events == [] then NewTrack
    else Step(After(events[..|events| - 1], interval, retention), events[|events| - 1], interval, retention)
  }

  /** Events carry times in order. */
  ghost predicate InOrder(events: seq<Event>) {
    forall i, j | 0 <= i < j < |events| && !events[i].Restart? && !events[j].Restart? :: events[i].at <= events[j].at
  }

  predicate PositivePrice(events: seq<Event>, i: int) {
    0 <= i < |events| && events[i].Price? && events[i].price > 0.0
  }

  /** `s` is a sample taken at `at`, or less than the interval before it. */
  predicate Represents(s: int, at: int, interval: real) {
    s == at || (s < at && (at - s) as real < interval)
  }

  predicate PrunedAway(events: seq<Event>, s: int, retention: real) {
    exists j :: 0 <= j < |events| && events[j].Prune? && s < events[j].at - Trunc(retention)
  }

  ghost predicate KeptOrPruned(events: seq<Event>, s: int, interval: real, retention: real) {
    s in After(events, interval, retention).samples || PrunedAway(events, s, retention)
  }

  /** A price that arrived has a representative, stored unless it was pruned since. */
  ghost predicate Represented(events: seq<Event>, at: int, interval: real, retention: real) {
    exists s: int :: Represents(s, at, interval) && KeptOrPruned(events, s, interval, retention)
  }

  ghost predicate LastKept(events: seq<Event>, interval: real, retention: real) {
    var last := After(events, interval, retention).last;
    last.Some? ==>
      && KeptOrPruned(events, last.value, interval, retention)
      && exists i :: PositivePrice(events, i) && events[i].at == last.value
  }

  lemma KeptOrPrunedStays(events: seq<Event>, s: int, interval: real, retention: real)
    requires events != [] && KeptOrPruned(events[..|events| - 1], s, interval, retention)
    ensures KeptOrPruned(events, s, interval, retention)
  {
    var n := |events| - 1;
    if PrunedAway(events[..n], s, retention) {
      var j :| 0 <= j < n && events[..n][j].Prune? && s < events[..n][j].at - Trunc(retention);
      assert events[j].Prune? && s < events[j].at - Trunc(retention);
    } else if events[n].Prune? && s < events[n].at - Trunc(retention) {
      assert PrunedAway(events, s, retention);
    }
  }

  lemma {:induction false} LastKeptHolds(events: seq<Event>, interval: real, retention: real)
    ensures LastKept(events, interval, retention)
    decreases |events|
  {
    if events == [] {
    } else {
      var n := |events| - 1;
      LastKeptHolds(events[..n], interval, retention);
      var last := After(events, interval, retention).last;
      if last.Some? {
        if last == After(events[..n], interval, retention).last {
          KeptOrPrunedStays(events, last.value, interval, retention);
          var i :| PositivePrice(events[..n], i) && events[..n][i].at == last.value;
          assert PositivePrice(events, i) && events[i].at == last.value;
        } else {
          assert PositivePrice(events, n) && events[n].at == last.value;
        }
      }
    }
  }

  /** Across any restarts, every positive price is represented less than an interval before it, or at it. */
  lemma {:induction false} EveryPriceRepresented(events: seq<Event>, i: int, interval: real, retention: real)
    requires InOrder(events) && PositivePrice(events, i)
    ensures Represented(events, events[i].at, interval, retention)
    decreases |events|
  {
    var n := |events| - 1;
    if i < n {
      EveryPriceRepresented(events[..n], i, interval, retention);
      var s :| Represents(s, events[i].at, interval) && KeptOrPruned(events[..n], s, interval, retention);
      KeptOrPrunedStays(events, s, interval, retention);
    } else {
      var before := After(events[..n], interval, retention);
      var at := events[n].at;
      if TooSoon(before, at, interval) {
        LastKeptHolds(events[..n], interval, retention);
        var k :| PositivePrice(events[..n], k) && events[..n][k].at == before.last.value;
        assert events[k].at <= at;
        KeptOrPrunedStays(events, before.last.value, interval, retention);
        assert Represents(before.last.value, at, interval);
      } else {
        assert at in After(events, interval, retention).samples;
        assert Represents(at, at, interval);
      }
    }
  }

  /** The price of some event of that second. */
  ghost predicate ArrivedAs(events: seq<Event>, at: int, price: real) {
    exists i :: 0 <= i < |events| && events[i] == Price(at, price) && price > 0.0
  }

  /** Every sample is a positive price that arrived at its second, whatever was restarted and pruned in between. */
  lemma {:induction false} SamplesArrived(events: seq<Event>, interval: real, retention: real, t: int)
    requires t in After(events, interval, retention).samples
    ensures ArrivedAs(events, t, After(events, interval, retention).samples[t])
    decreases |events|
  {
    var n := |events| - 1;
    var before := After(events[..n], interval, retention).samples;
    if t in before && before[t] == After(events, interval, retention).samples[t] {
      SamplesArrived(events[..n], interval, retention, t);
      var i :| 0 <= i < n && events[..n][i] == Price(t, before[t]);
      assert events[i] == Price(t, before[t]);
    } else {
      assert events[n] == Price(t, After(events, interval, retention).samples[t]);
    }
  }

  /** The first price of a second stays its sample: nothing that arrives later replaces one. */
  lemma {:induction false} SamplesNeverReplaced(events: seq<Event>, n: nat, interval: real, retention: real, t: int)
    requires n <= |events| && forall i | n <= i < |events| :: !events[i].Prune?
    requires t in After(events[..n], interval, retention).samples
    ensures t in After(events, interval, retention).samples
    ensures After(events, interval, retention).samples[t] == After(events[..n], interval, retention).samples[t]
    decreases |events|
  {
    if n == |events| {
      assert events[..n] == events;
    } else {
      var m := |events| - 1;
      assert events[..m][..n] == events[..n];
      SamplesNeverReplaced(events[..m], n, interval, retention, t);
    }
  }

  /**
   The query's answer: none if and only if no sample lies within the tolerance of an hour ago, as truncated; and
   otherwise the price of the one nearest to an hour ago, the later of two as near.
   */
  lemma AnchorMeans(samples: Samples, now: int, tolerance: real)
    ensures var target, answer := now - 3600, Anchor(samples, now, tolerance);
            var from, to := Trunc(target as real - tolerance), Trunc(target as real + tolerance);
            && (answer.None? <==> forall t | t in samples :: !(from <= t <= to))
            && (answer.Some? ==>
                  exists t :: t in samples && from <= t <= to && samples[t] == answer.value
                    && forall u | u in samples && from <= u <= to && u != t ::
                         var near, far := (if t <= target then target - t else t - target),
                                          (if u <= target then target - u else u - target);
                         near < far || (near == far && u < t))
  {
    var target := now - 3600;
    if exists u :: u in samples && InWindow(u, target, tolerance) {
      AnchorExists(samples, target, tolerance);
      var t: int :| IsAnchor(samples, target, tolerance, t) && Anchor(samples, now, tolerance) == Some(samples[t]);
      forall u | u in samples && InWindow(u, target, tolerance) && u != t
        ensures Distance(t, target) < Distance(u, target) || (Distance(t, target) == Distance(u, target) && u < t)
      {
        assert Preferred(t, u, target);
      }
    }
  }

  /** So the answer after any run is a positive price that arrived within the tolerance of an hour ago. */
  lemma AnchorArrived(events: seq<Event>, interval: real, tolerance: real, retention: real, now: int)
    ensures var answer := Anchor(After(events, interval, retention).samples, now, tolerance);
            answer.Some? ==>
              exists at :: ArrivedAs(events, at, answer.value)
                && Trunc((now - 3600) as real - tolerance) <= at <= Trunc((now - 3600) as real + tolerance)
  {
    var samples := After(events, interval, retention).samples;
    AnchorMeans(samples, now, tolerance);
    var answer := Anchor(samples, now, tolerance);
    if answer.Some? {
      var at :| at in samples && samples[at] == answer.value
        && Trunc((now - 3600) as real - tolerance) <= at <= Trunc((now - 3600) as real + tolerance);
      SamplesArrived(events, interval, retention, at);
    }
  }

  /** No two samples are nearer to each other than the interval, and none is later than the last one written. */
  ghost predicate Spaced(track: Track, interval: real) {
    && (forall s | s in track.samples :: track.last.Some? && s <= track.last.value)
    && (forall s, t | s in track.samples && t in track.samples && s < t :: (t - s) as real >= interval)
  }

  /**
   Without a restart the history is downsampled: samples are at least the interval apart, in whatever order
   prices come.
   */
  lemma {:induction false} SamplesSpaced(events: seq<Event>, interval: real, retention: real)
    requires interval > 0.0 && forall i | 0 <= i < |events| :: !events[i].Restart?
    ensures Spaced(After(events, interval, retention), interval)
    decreases |events|
  {
    if events == [] {
    } else {
      var n := |events| - 1;
      SamplesSpaced(events[..n], interval, retention);
      var before := After(events[..n], interval, retention);
      if events[n].Price? && before.last.Some? {
        var at := events[n].at;
        forall s | s in before.samples && !TooSoon(before, at, interval) ensures (at - s) as real >= interval {
          assert (at - s) as real >= (at - before.last.value) as real;
        }
      }
    }
  }

  lemma TruncBounds(x: real, t: int)
    ensures t as real >= x ==> t >= Trunc(x)
    ensures t as real <= x ==> t <= Trunc(x)
  {
  }

  lemma AnchorIs(samples: Samples, now: int, tolerance: real, t: int)
    requires IsAnchor(samples, now - SecondsPerHour, tolerance, t)
    ensures Anchor(samples, now, tolerance) == Some(samples[t])
  {
    var target := now - SecondsPerHour;
    forall u | IsAnchor(samples, target, tolerance, u) ensures u == t {
      AnchorUnique(samples, target, tolerance, u, t);
    }
  }

  lemma AnchorFound(samples: Samples, now: int, tolerance: real, s: int)
    requires s in samples && InWindow(s, now - SecondsPerHour, tolerance)
    ensures var target := now - SecondsPerHour;
            exists t :: IsAnchor(samples, target, tolerance, t) && Anchor(samples, now, tolerance) == Some(samples[t])
  {
    var target := now - SecondsPerHour;
    assert s in samples && InWindow(s, target, tolerance);
    AnchorExists(samples, target, tolerance);
    var t :| IsAnchor(samples, target, tolerance, t);
    AnchorIs(samples, now, tolerance, t);
  }

  lemma AfterAppend(events: seq<Event>, e: Event, interval: real, retention: real)
    ensures After(events + [e], interval, retention) == Step(After(events, interval, retention), e, interval, retention)
  {
    assert (events + [e])[..|events|] == events;
  }

  // ---------------------------------------------------------------------------------------------
  // Pruning
  // ---------------------------------------------------------------------------------------------

  lemma TruncMonotone(x: real, y: real)
    requires x <= y
    ensures Trunc(x) <= Trunc(y)
  {
  }

  /** The cutoff of a pruning does not reach into the window of a query of the same second. */
  predicate PruneSafe(now: int, tolerance: real, retention: real) {
    now - Trunc(retention) <= Trunc((now - SecondsPerHour) as real - tolerance)
  }

  lemma SafePruneKeepsAnchor(samples: Samples, now: int, tolerance: real, retention: real, later: int)
    requires now <= later && PruneSafe(now, tolerance, retention)
    ensures Anchor(Pruned(samples, now - Trunc(retention)), later, tolerance) == Anchor(samples, later, tolerance)
  {
    var cutoff := now - Trunc(retention);
    var pruned := Pruned(samples, cutoff);
    var target := later - SecondsPerHour;
    TruncMonotone((now - SecondsPerHour) as real - tolerance, target as real - tolerance);
    assert forall u | InWindow(u, target, tolerance) :: u in pruned <==> u in samples;
    assert forall t: int :: IsAnchor(pruned, target, tolerance, t) <==> IsAnchor(samples, target, tolerance, t);
    if t: int :| IsAnchor(samples, target, tolerance, t) {
      forall u: int | IsAnchor(samples, target, tolerance, u) ensures u == t {
        AnchorUnique(samples, target, tolerance, u, t);
      }
    }
  }

  /** Otherwise a sample at the near edge of the window is lost. */
  lemma UnsafePruneLosesAnchor(now: int, tolerance: real, retention: real)
    requires tolerance >= 0.0 && !PruneSafe(now, tolerance, retention)
    ensures var edge := Trunc((now - SecondsPerHour) as real - tolerance);
            var samples: Samples := map[edge := 1.0];
            && Anchor(samples, now, tolerance) == Some(1.0)
            && Anchor(Pruned(samples, now - Trunc(retention)), now, tolerance) == None
  {
    var target := now - SecondsPerHour;
    var edge := Trunc(target as real - tolerance);
    var samples: Samples := map[edge := 1.0];
    TruncMonotone(target as real - tolerance, target as real + tolerance);
    assert IsAnchor(samples, target, tolerance, edge);
    assert Pruned(samples, now - Trunc(retention)) == map[];
  }

  /**
   Pruning at `now` changes no answer to any present or future query, for any samples, if and only if the
   cutoff is safe.
   */
  lemma PruneNeverChangesAnswersExactly(now: int, tolerance: real, retention: real)
    requires tolerance >= 0.0
    ensures PruneSafe(now, tolerance, retention) <==>
            forall samples: Samples, later: int :: now <= later ==>
              Anchor(Pruned(samples, now - Trunc(retention)), later, tolerance) == Anchor(samples, later, tolerance)
  {
    if PruneSafe(now, tolerance, retention) {
      forall samples: Samples, later: int | now <= later
        ensures Anchor(Pruned(samples, now - Trunc(retention)), later, tolerance) == Anchor(samples, later, tolerance)
      {
        SafePruneKeepsAnchor(samples, now, tolerance, retention, later);
      }
    } else {
      UnsafePruneLosesAnchor(now, tolerance, retention);
    }
  }

  /** A truncated retention of an hour and the tolerance is always safe; the untruncated one need not be. */
  lemma WholeRetentionIsSafe(now: int, tolerance: real, retention: real)
    requires Trunc(retention) as real >= SecondsPerHour as real + tolerance
    ensures PruneSafe(now, tolerance, retention)
    ensures !PruneSafe(10000, 90.5, 3690.5)
  {
    TruncBounds((now - SecondsPerHour) as real - tolerance, now - Trunc(retention));
    assert (now - SecondsPerHour) as real - tolerance >= (now - Trunc(retention)) as real;
    assert Trunc(3690.5) == 3690;
    assert (6309.5 as real).Floor == 6309;
  }
}
