/**
 Container-health classification: which critical subsystems are bad, since when, and whether a failure has
 outlasted its grace.
 */
module Health {
  import opened Wrappers
  import opened Ordering

  datatype Config = Config(enableWebsocket: bool, enableSpot: bool, enableLinear: bool, staleSeconds: int, grace: real)

  /** What the subsystems report at one moment; `mono` is the monotonic clock. */
  datatype Snapshot = Snapshot(
    databaseHealthy: bool,
    dispatcherHealthy: bool,
    restHealthy: bool,
    spotTickerAge: Option<int>,
    linearTickerAge: Option<int>,
    telegramHealthy: bool,
    queueDepth: nat,
    mono: real)

  datatype Overall = Healthy | Degraded | Unhealthy

  datatype Report = Report(overall: Overall, critical: seq<string>, pending: seq<string>, degraded: seq<string>)

  function WsAcceptable(cfg: Config, age: Option<int>): bool {
    age.Some? && age.value <= cfg.staleSeconds
  }

  /** The critical subsystems that are bad right now. */
  function Bad(cfg: Config, s: Snapshot): set<string> {
    (if s.databaseHealthy then {} else {"database"}) +
    (if s.dispatcherHealthy then {} else {"dispatcher"}) +
    (if s.restHealthy then {} else {"rest"}) +
    (if cfg.enableWebsocket && cfg.enableSpot && !WsAcceptable(cfg, s.spotTickerAge) then {"spot_ws"} else {}) +
    (if cfg.enableWebsocket && cfg.enableLinear && !WsAcceptable(cfg, s.linearTickerAge) then {"linear_ws"} else {})
  }

  type Since = map<string, real>

  /** A subsystem that is still bad keeps its time, a newly bad one starts now, the others are forgotten. */
  function Tracked(since: Since, bad: set<string>, now: real): Since {
    map name | name in bad :: if name in since then since[name] else now
  }

  class HealthMonitor {
    const cfg: Config
    var criticalSince: Since

    constructor (cfg: Config)
      ensures this.cfg == cfg && criticalSince == map[]
    {
      this.cfg := cfg;
      criticalSince := map[];
    }

    /** The critical names, collected one check after another. */
    method CollectCritical(s: Snapshot) returns (critical: seq<string>)
      ensures Elements(critical) == Bad(cfg, s)
    {
      critical := [];
      if !s.databaseHealthy { critical := critical + ["database"]; }
      if !s.dispatcherHealthy { critical := critical + ["dispatcher"]; }
      if !s.restHealthy { critical := critical + ["rest"]; }
      if cfg.enableWebsocket && cfg.enableSpot && !WsAcceptable(cfg, s.spotTickerAge) {
        critical := critical + ["spot_ws"];
      }
      if cfg.enableWebsocket && cfg.enableLinear && !WsAcceptable(cfg, s.linearTickerAge) {
        critical := critical + ["linear_ws"];
      }
    }

    /** Names that are no longer bad lose their time. */
    method ForgetRecovered(bad: set<string>)
      modifies this
      ensures criticalSince == map name | name in old(criticalSince) && name in bad :: old(criticalSince)[name]
    {
      var left := criticalSince.Keys;
      while left != {}
        invariant left <= old(criticalSince).Keys
        invariant criticalSince == map name | name in old(criticalSince) && (name in bad || name in left) ::
                  old(criticalSince)[name]
        decreases left
      {
        var name := Pick(left);
        left := left - {name};
        if name !in bad { criticalSince := criticalSince - {name}; }
      }
    }

    /** Newly bad names get their time; the names whose failure has outlasted its grace are returned. */
    method TrackBad(bad: set<string>, now: real) returns (persisted: seq<string>)
      requires criticalSince.Keys <= bad
      modifies this
      ensures criticalSince == Tracked(old(criticalSince), bad, now)
      ensures NoDuplicates(persisted)
      ensures forall name :: name in persisted <==> name in bad && Outlasted(cfg, criticalSince, now, name)
    {
      persisted := [];
      var left := bad;
      while left != {}
        invariant left <= bad
        invariant old(criticalSince).Keys <= criticalSince.Keys
                  && criticalSince.Keys == old(criticalSince).Keys + (bad - left)
        invariant forall name | name in criticalSince ::
                    criticalSince[name] == if name in old(criticalSince) then old(criticalSince)[name] else now
        invariant NoDuplicates(persisted)
        invariant forall name :: name in persisted <==>
                  name in bad && name !in left && Outlasted(cfg, criticalSince, now, name)
        decreases left
      {
        var name := Pick(left);
        left := left - {name};
        if name !in criticalSince { criticalSince := criticalSince[name := now]; }
        if now - criticalSince[name] >= cfg.grace || name == "database" { persisted := persisted + [name]; }
      }
    }

    /** What degrades the service without making it unhealthy. */
    method CollectDegraded(s: Snapshot) returns (degraded: seq<string>)
      ensures degraded ==
              (if s.telegramHealthy then [] else ["telegram"]) + (if s.queueDepth == 0 then [] else ["retry_queue"])
    {
      degraded := [];
      if !s.telegramHealthy { degraded := degraded + ["telegram"]; }
      if s.queueDepth > 0 { degraded := degraded + ["retry_queue"]; }
    }

    method Classify(s: Snapshot) returns (report: Report)
      modifies this
      ensures criticalSince == Tracked(old(criticalSince), Bad(cfg, s), s.mono)
      ensures Elements(report.critical) == Persisted(cfg, criticalSince, s.mono) && NoDuplicates(report.critical)
      ensures report.pending == SortedSet(Bad(cfg, s) - Persisted(cfg, criticalSince, s.mono))
      ensures report.overall == OverallOf(cfg, criticalSince, s)
      ensures report.degraded ==
              (if s.telegramHealthy then [] else ["telegram"]) + (if s.queueDepth == 0 then [] else ["retry_queue"])
    {
      var critical := CollectCritical(s);
      var degraded := CollectDegraded(s);
      var bad := Elements(critical);
      ForgetRecovered(bad);
      var persisted := TrackBad(bad, s.mono);
      assert Elements(persisted) == Persisted(cfg, criticalSince, s.mono);
      NoElementsNoSequence(persisted);
      var overall :=
        if !s.databaseHealthy then Unhealthy
        else if persisted != [] then Unhealthy
        else if bad != {} || degraded != [] then Degraded
        else Healthy;
      report := Report(overall, persisted, SortedSet(bad - Elements(persisted)), degraded);
    }
  }

  /** The failure of a tracked subsystem has lasted its grace; the database has none. */
  predicate Outlasted(cfg: Config, since: Since, now: real, name: string) {
    name in since && (now - since[name] >= cfg.grace || name == "database")
  }

  function Persisted(cfg: Config, since: Since, now: real): set<string> {
    set name | name in since && Outlasted(cfg, since, now, name)
  }

  function OverallOf(cfg: Config, since: Since, s: Snapshot): Overall {
    if !s.databaseHealthy || Persisted(cfg, since, s.mono) != {} then Unhealthy
    else if Bad(cfg, s) != {} || !s.telegramHealthy || s.queueDepth > 0 then Degraded
    else Healthy
  }

  // ---------------------------------------------------------------------------------------------
  // Over a sequence of snapshots
  // ---------------------------------------------------------------------------------------------

  /** The tracker after the snapshots, from a fresh monitor. */
  function SinceAfter(cfg: Config, snaps: seq<Snapshot>): Since
    decreases |snaps|
  {
    if snaps == [] then map[]
    else Tracked(SinceAfter(cfg, snaps[..|snaps| - 1]), Bad(cfg, snaps[|snaps| - 1]), snaps[|snaps| - 1].mono)
  }

  /** The first snapshot of the unbroken bad streak of `name` that contains snapshot `i`. */
  function StreakStart(cfg: Config, snaps: seq<Snapshot>, i: nat, name: string): (e: nat)
    requires i < |snaps| && name in Bad(cfg, snaps[i])
    ensures e <= i && (forall k | e <= k <= i :: name in Bad(cfg, snaps[k]))
    ensures e == 0 || name !in Bad(cfg, snaps[e - 1])
  {
    if i == 0 || name !in Bad(cfg, snaps[i - 1]) then i else StreakStart(cfg, snaps, i - 1, name)
  }

  /** After snapshot `i` exactly the bad names are tracked, each since the first snapshot of its streak. */
  lemma {:induction false} TracksStreaks(cfg: Config, snaps: seq<Snapshot>, i: nat, name: string)
    requires i < |snaps|
    ensures var since := SinceAfter(cfg, snaps[..i + 1]);
            && (name in since <==> name in Bad(cfg, snaps[i]))
            && (name in since ==> since[name] == snaps[StreakStart(cfg, snaps, i, name)].mono)
  {
    assert snaps[..i + 1][..i] == snaps[..i];
    if i == 0 {
    } else {
      TracksStreaks(cfg, snaps, i - 1, name);
    }
  }

  /** Some streak that contains snapshot `i` has lasted at least the grace. */
  ghost predicate SomeStreakOutlasted(cfg: Config, snaps: seq<Snapshot>, i: nat)
    requires i < |snaps|
  {
    exists name: string ::
      name in Bad(cfg, snaps[i]) && snaps[i].mono - snaps[StreakStart(cfg, snaps, i, name)].mono >= cfg.grace
  }

  lemma PersistedExactly(cfg: Config, snaps: seq<Snapshot>, i: nat, name: string)
    requires i < |snaps|
    ensures name in Persisted(cfg, SinceAfter(cfg, snaps[..i + 1]), snaps[i].mono) <==>
            (name in Bad(cfg, snaps[i]) &&
             (name == "database" || snaps[i].mono - snaps[StreakStart(cfg, snaps, i, name)].mono >= cfg.grace))
  {
    TracksStreaks(cfg, snaps, i, name);
  }

  lemma DatabaseBad(cfg: Config, s: Snapshot)
    ensures "database" in Bad(cfg, s) <==> !s.databaseHealthy
  {
  }

  /** A ticker that never came, or came longer ago than a stream may be silent. */
  predicate Silent(cfg: Config, age: Option<int>) {
    age.None? || age.value > cfg.staleSeconds
  }

  /** What it means for a subsystem to be down, by name. */
  predicate Down(cfg: Config, s: Snapshot, name: string) {
    || (name == "database" && !s.databaseHealthy)
    || (name == "dispatcher" && !s.dispatcherHealthy)
    || (name == "rest" && !s.restHealthy)
    || (name == "spot_ws" && cfg.enableWebsocket && cfg.enableSpot && Silent(cfg, s.spotTickerAge))
    || (name == "linear_ws" && cfg.enableWebsocket && cfg.enableLinear && Silent(cfg, s.linearTickerAge))
  }

  lemma BadIsDown(cfg: Config, s: Snapshot, name: string)
    ensures name in Bad(cfg, s) <==> Down(cfg, s, name)
  {
  }

  /** The subsystem was down in every snapshot from `k` to `i`. */
  ghost predicate DownSince(cfg: Config, snaps: seq<Snapshot>, k: nat, i: nat, name: string)
    requires k <= i < |snaps|
  {
    forall j | k <= j <= i :: Down(cfg, snaps[j], name)
  }

  lemma {:induction false} StreakIsLongest(cfg: Config, snaps: seq<Snapshot>, k: nat, i: nat, name: string)
    requires k <= i < |snaps| && DownSince(cfg, snaps, k, i, name) && name in Bad(cfg, snaps[i])
    ensures StreakStart(cfg, snaps, i, name) <= k
    decreases i
  {
    if k == i {
    } else {
      assert Down(cfg, snaps[i - 1], name);
      BadIsDown(cfg, snaps[i - 1], name);
      StreakIsLongest(cfg, snaps, k, i - 1, name);
    }
  }

  lemma StreakIsDown(cfg: Config, snaps: seq<Snapshot>, i: nat, name: string)
    requires i < |snaps| && name in Bad(cfg, snaps[i])
    ensures DownSince(cfg, snaps, StreakStart(cfg, snaps, i, name), i, name)
  {
    forall j | StreakStart(cfg, snaps, i, name) <= j <= i ensures Down(cfg, snaps[j], name) {
      BadIsDown(cfg, snaps[j], name);
    }
  }

  /** Down now, and for at least the grace without a break, as far as the snapshots show; the database at once. */
  ghost predicate Critical(cfg: Config, snaps: seq<Snapshot>, i: nat, name: string)
    requires i < |snaps|
  {
    && Down(cfg, snaps[i], name)
    && (name == "database"
        || exists k :: 0 <= k <= i && DownSince(cfg, snaps, k, i, name) && snaps[i].mono - snaps[k].mono >= cfg.grace)
  }

  lemma CriticalExactly(cfg: Config, snaps: seq<Snapshot>, i: nat, name: string)
    requires i < |snaps| && forall j, k | 0 <= j < k < |snaps| :: snaps[j].mono <= snaps[k].mono
    ensures name in Persisted(cfg, SinceAfter(cfg, snaps[..i + 1]), snaps[i].mono) <==> Critical(cfg, snaps, i, name)
  {
    PersistedExactly(cfg, snaps, i, name);
    BadIsDown(cfg, snaps[i], name);
    if name in Bad(cfg, snaps[i]) {
      StreakIsDown(cfg, snaps, i, name);
      var e := StreakStart(cfg, snaps, i, name);
      forall k | 0 <= k <= i && DownSince(cfg, snaps, k, i, name) ensures snaps[e].mono <= snaps[k].mono {
        StreakIsLongest(cfg, snaps, k, i, name);
      }
    }
  }

  /**
   Over any sequence of snapshots with a clock that never goes back: the verdict is unhealthy if and only if some
   subsystem is critical, healthy if and only if none is down, Telegram works and nothing is queued, and degraded
   otherwise.
   */
  lemma VerdictExactly(cfg: Config, snaps: seq<Snapshot>, i: nat)
    requires i < |snaps| && forall j, k | 0 <= j < k < |snaps| :: snaps[j].mono <= snaps[k].mono
    ensures var s, verdict := snaps[i], OverallOf(cfg, SinceAfter(cfg, snaps[..i + 1]), snaps[i]);
            && (verdict.Unhealthy? <==> exists name :: Critical(cfg, snaps, i, name))
            && (verdict.Healthy? <==>
                  (forall name :: !Down(cfg, s, name)) && s.telegramHealthy && s.queueDepth == 0)
  {
    var since := SinceAfter(cfg, snaps[..i + 1]);
    var persisted := Persisted(cfg, since, snaps[i].mono);
    forall name ensures name in persisted <==> Critical(cfg, snaps, i, name) {
      CriticalExactly(cfg, snaps, i, name);
    }
    forall name ensures name in Bad(cfg, snaps[i]) <==> Down(cfg, snaps[i], name) { BadIsDown(cfg, snaps[i], name); }
    if !snaps[i].databaseHealthy { assert Critical(cfg, snaps, i, "database"); }
    if persisted != {} {
      var name := SomeMember(persisted);
      assert Critical(cfg, snaps, i, name) && Down(cfg, snaps[i], name);
    }
    if Bad(cfg, snaps[i]) != {} {
      var name := SomeMember(Bad(cfg, snaps[i]));
      assert Down(cfg, snaps[i], name);
    }
  }

  /**
   Over any sequence of snapshots, the verdict is unhealthy if and only if the database is bad or some
   critical streak has lasted at least the grace.
   */
  lemma UnhealthyExactly(cfg: Config, snaps: seq<Snapshot>, i: nat)
    requires i < |snaps|
    ensures OverallOf(cfg, SinceAfter(cfg, snaps[..i + 1]), snaps[i]).Unhealthy?
       <==> !snaps[i].databaseHealthy || SomeStreakOutlasted(cfg, snaps, i)
  {
    var persisted := Persisted(cfg, SinceAfter(cfg, snaps[..i + 1]), snaps[i].mono);
    DatabaseBad(cfg, snaps[i]);
    if SomeStreakOutlasted(cfg, snaps, i) {
      var name: string :| name in Bad(cfg, snaps[i])
        && snaps[i].mono - snaps[StreakStart(cfg, snaps, i, name)].mono >= cfg.grace;
      PersistedExactly(cfg, snaps, i, name);
    }
    if persisted != {} {
      var name := SomeMember(persisted);
      PersistedExactly(cfg, snaps, i, name);
    }
  }

  /** Critical and pending issues split the bad subsystems between them. */
  lemma IssuesPartitionBad(cfg: Config, snaps: seq<Snapshot>, i: nat, critical: seq<string>, pending: seq<string>)
    requires i < |snaps|
    requires Elements(critical) == Persisted(cfg, SinceAfter(cfg, snaps[..i + 1]), snaps[i].mono)
    requires pending == SortedSet(Bad(cfg, snaps[i]) - Persisted(cfg, SinceAfter(cfg, snaps[..i + 1]), snaps[i].mono))
    ensures Elements(critical) + Elements(pending) == Bad(cfg, snaps[i])
    ensures Elements(critical) !! Elements(pending)
  {
    forall name | name in Elements(critical) ensures name in Bad(cfg, snaps[i]) {
      TracksStreaks(cfg, snaps, i, name);
    }
  }
}
