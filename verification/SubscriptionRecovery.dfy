/**
 Recovery: whatever has happened to a client, rejections, abandoned requests and unsubscribes, leaks and lost
 connections included, a reconnection and two undisturbed reconciliations bring client and exchange into exact agreement
 on the wanted symbols.
 */
module SubscriptionRecovery {
  import opened Wrappers
  import opened Ordering
  import opened Subscription
  import opened SubscriptionProtocol
  import opened SubscriptionRequests
  import opened SubscriptionServed
  import opened SubscriptionConvergence

  /** A lock holder with nothing in the air has something left to send. */
  predicate HolderBusy(s: System) {
    s.holder.Holding? && s.holder.flight.None? ==> s.holder.rest != []
  }

  lemma {:induction false} RunKeepsHolderBusy(s: System, steps: seq<Step>, b: nat)
    requires b >= 1 && HolderBusy(s) && Runs(s, steps, b)
    ensures HolderBusy(After(s, steps, b))
    decreases |steps|
  {
    if steps == [] {
    } else {
      assert HolderBusy(Apply(s, steps[0], b));
      RunKeepsHolderBusy(Apply(s, steps[0], b), steps[1..], b);
    }
  }

  /** The connection goes, the receive loop with it, and a pass under way ends in an error. */
  function LoseSteps(s: System): seq<Step> {
    var freed := if s.holder.Free? then [] else [if s.holder.flight.Some? then SendFails else BeginBatch] + [];
    [DropSocket] + if s.listening then [StopListening] + freed else freed
  }

  /** Without a connection the lock comes free, by the error of the send in the air or of the next one. */
  lemma LockComesFree(s: System, b: nat)
    requires b >= 1 && HolderBusy(s) && !s.socketOpen && !s.listening
    ensures var freed := if s.holder.Free? then [] else [if s.holder.flight.Some? then SendFails else BeginBatch] + [];
            && Runs(s, freed, b)
            && var r := After(s, freed, b); r.holder.Free? && !r.socketOpen && !r.listening
  {
    if !s.holder.Free? { RunPrepends(s, if s.holder.flight.Some? then SendFails else BeginBatch, [], b); }
  }

  lemma LosesConnection(s: System, b: nat)
    requires b >= 1 && HolderBusy(s)
    ensures Runs(s, LoseSteps(s), b)
    ensures var r := After(s, LoseSteps(s), b); r.holder.Free? && Enabled(r, Connect)
  {
    var s1 := Apply(s, DropSocket, b);
    var s2 := if s.listening then Apply(s1, StopListening, b) else s1;
    var freed := if s.holder.Free? then [] else [if s.holder.flight.Some? then SendFails else BeginBatch] + [];
    LockComesFree(s2, b);
    if s.listening {
      RunPrepends(s1, StopListening, freed, b);
      RunPrepends(s, DropSocket, [StopListening] + freed, b);
    } else {
      RunPrepends(s, DropSocket, freed, b);
    }
  }

  lemma {:induction false} BookkeepingJoins(s: System, first: seq<Step>, second: seq<Step>, b: nat, lingering: set<nat>,
                                            leaked: set<Symbol>)
    requires b >= 1 && Runs(s, first, b) && Runs(After(s, first, b), second, b) && Runs(s, first + second, b)
    ensures Lingering(s, first + second, b, lingering) ==
            Lingering(After(s, first, b), second, b, Lingering(s, first, b, lingering))
    ensures Leaked(s, first + second, b, leaked) ==
            Leaked(After(s, first, b), second, b, Leaked(s, first, b, leaked))
    decreases |first|
  {
    if first == [] {
      assert first + second == second;
    } else {
      assert (first + second)[1..] == first[1..] + second;
      BookkeepingJoins(Apply(s, first[0], b), first[1..], second, b, LingeringAfter(s, first[0], lingering),
        LeakedAfter(s, first[0], leaked));
    }
  }

  /** A reconnection from any reachable state, with all that belonged to the old connection forgotten. */
  lemma Reconnects(steps: seq<Step>, b: nat)
    requires b >= 1 && Runs(Start, steps, b)
    ensures var all := steps + (LoseSteps(After(Start, steps, b)) + [Connect]);
            && Runs(Start, all, b)
            && Lingering(Start, all, b, {}) == {} && Leaked(Start, all, b, {}) == {}
            && var r := After(Start, all, b);
               && r.socketOpen && r.listening && r.holder.Free? && r.orphaned == {}
               && r.client.desired == After(Start, steps, b).client.desired
               && r.net == Net(r.net.conn, [], [], {}, {}, {}) && r.client.pending == map[] && r.client.subscribed == {}
  {
    var s := After(Start, steps, b);
    var lose := LoseSteps(s);
    RunKeepsHolderBusy(Start, steps, b);
    LosesConnection(s, b);
    var s1 := After(s, lose, b);
    RunPrepends(s1, Connect, [], b);
    assert [Connect] + [] == [Connect];
    RunsJoin(s, lose, [Connect], b);
    RunsJoin(Start, steps, lose + [Connect], b);
    BookkeepingJoins(s, lose, [Connect], b, Lingering(Start, steps, b, {}), Leaked(Start, steps, b, {}));
    BookkeepingJoins(Start, steps, lose + [Connect], b, {}, {});
    ForgetsAll(s1, b, Lingering(s, lose, b, Lingering(Start, steps, b, {})),
      Leaked(s, lose, b, Leaked(Start, steps, b, {})));
    LoseWantsTheSame(s, b);
  }

  lemma ForgetsAll(s: System, b: nat, lingering: set<nat>, leaked: set<Symbol>)
    requires b >= 1 && Enabled(s, Connect) && Runs(s, [Connect], b)
    ensures Lingering(s, [Connect], b, lingering) == {} && Leaked(s, [Connect], b, leaked) == {}
  {
    assert [Connect][1..] == [];
  }

  lemma LoseWantsTheSame(s: System, b: nat)
    requires b >= 1 && Runs(s, LoseSteps(s), b)
    ensures After(s, LoseSteps(s), b).client.desired == s.client.desired
  {
    WantedKept(s, LoseSteps(s), b);
  }

  /** Client and exchange agree exactly on the wanted symbols, and nothing is on its way. */
  predicate Agreed(r: System, wanted: set<Symbol>) {
    && Quiet(r) && r.socketOpen && r.listening
    && r.client.desired == wanted && r.client.subscribed == wanted && r.client.pending == map[]
    && r.net.session == wanted
  }

  /**
   From every reachable state whatsoever there is a run that reaches exact agreement on any wanted symbols, through a
   reconnection.
   */
  lemma RecoversFromAnything(steps: seq<Step>, wanted: set<Symbol>, b: nat)
    requires b >= 1 && Runs(Start, steps, b)
    ensures var s := After(Start, steps, b);
            exists more :: Runs(s, more, b) && Agreed(After(s, more, b), wanted)
  {
    var s := After(Start, steps, b);
    var again := LoseSteps(s) + [Connect];
    Reconnects(steps, b);
    RunSplits(Start, steps, again, b);
    var s1 := After(s, again, b);
    ProtocolConverges(steps + again, wanted, b);
    var more :| Runs(s1, more, b) && Calm(more) && Converged(After(s1, more, b), wanted, s1.orphaned, b);
    NothingLeaksAfterwards(steps + again, more, b);
    RunsJoin(s, again, more, b);
    ConvergedAgrees(After(s1, more, b), wanted, b);
  }

  lemma ConvergedAgrees(r: System, wanted: set<Symbol>, b: nat)
    requires b >= 1 && Converged(r, wanted, {}, b) && r.net.session <= r.client.subscribed
    ensures Agreed(r, wanted)
  {
    assert r.orphaned == {};
    assert wanted - r.net.session == {};
  }

  /** From a fresh connection on, a calm run that ends quietly leaves nothing served that is not confirmed. */
  lemma NothingLeaksAfterwards(steps: seq<Step>, more: seq<Step>, b: nat)
    requires b >= 1 && Runs(Start, steps, b) && Leaked(Start, steps, b, {}) == {}
    requires var s := After(Start, steps, b);
             && s.holder.Free? && s.net == Net(s.net.conn, [], [], {}, {}, {})
             && Runs(s, more, b) && Calm(more) && Quiet(After(s, more, b))
    ensures var r := After(After(Start, steps, b), more, b); r.net.session <= r.client.subscribed
  {
    var s := After(Start, steps, b);
    ReachableInv(steps, b);
    RunKeepsExactInv(Start, steps, b);
    CalmKeeps(s, more, b, {});
    NothingLeaks(s, more, b);
    RunsJoin(Start, steps, more, b);
    BookkeepingJoins(Start, steps, more, b, {}, {});
    ServedBeyondExactly(steps + more, b);
  }
}
