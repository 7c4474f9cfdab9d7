/**
 Convergence as a run of the protocol: two reconciliations, each with its frames taken by the exchange and their
 answers received, bring client and exchange to the wanted symbols with nothing on its way.
 */
module SubscriptionConvergence {
  import opened Wrappers
  import opened Ordering
  import opened Subscription
  import opened SubscriptionProtocol
  import opened SubscriptionRequests
  import opened SubscriptionServed

  /** No send ends badly and the connection stays. */
  predicate CalmStep(step: Step) {
    !step.SendFails? && !step.SendCancelled? && !step.Connect?
  }

  predicate Calm(steps: seq<Step>) {
    forall i | 0 <= i < |steps| :: CalmStep(steps[i])
  }

  /** A live connection with no pass under way, on which no rejection of an outstanding request is waiting. */
  predicate Live(s: System) {
    && s.socketOpen && s.listening && s.holder.Free?
    && forall i | 0 <= i < |s.net.downlink| :: s.net.downlink[i].id in s.client.pending ==> s.net.downlink[i].success
  }

  // ---------------------------------------------------------------------------------------------
  // Calm runs
  // ---------------------------------------------------------------------------------------------

  lemma {:induction false} CalmKeeps(s: System, steps: seq<Step>, b: nat, lingering: set<nat>)
    requires b >= 1 && Runs(s, steps, b) && Calm(steps)
    ensures Lingering(s, steps, b, lingering) == lingering && After(s, steps, b).orphaned <= s.orphaned
    ensures NoneFailsLate(s, steps, b) && NoUnsubscribeAbandoned(s, steps, b)
    decreases |steps|
  {
    if steps == [] {
    } else {
      assert CalmStep(steps[0]);
      CalmKeeps(Apply(s, steps[0], b), steps[1..], b, lingering);
    }
  }

  lemma {:induction false} PassIsCalm(rest: seq<Symbol>, b: nat)
    requires b >= 1
    ensures Calm(PassSteps(rest, b))
    decreases |rest|
  {
    if rest == [] {
    } else {
      PassIsCalm(rest[BatchLength(|rest|, b)..], b);
    }
  }

  lemma SyncIsCalm(c: Client, wanted: set<Symbol>, b: nat)
    requires b >= 1
    ensures Calm(SyncSteps(c, wanted, b))
  {
    var c1 := c.(desired := wanted);
    var c2 := SendSubscribes(c1, SortedSet(Missing(c1)), b);
    PassIsCalm(SortedSet(Missing(c1)), b);
    PassIsCalm(SortedSet((c.subscribed - wanted) * c2.subscribed), b);
    assert Calm(AskSteps(c, wanted, b)) && Calm(DropSteps(c2, c.subscribed - wanted, b));
  }

  // ---------------------------------------------------------------------------------------------
  // The exchange takes everything sent, and the client receives every answer
  // ---------------------------------------------------------------------------------------------

  function DrainSteps(uplink: seq<Frame>): seq<Step> {
    if uplink == [] then []
    else [if uplink[0].Sub? then ExchangeAccepts else ExchangeUnsubscribes] + DrainSteps(uplink[1..])
  }

  /** Its answers, one for each request. */
  function Grants(uplink: seq<Frame>): seq<Ack> {
    if uplink == [] then []
    else (if uplink[0].Sub? then [Ack(uplink[0].id, true)] else []) + Grants(uplink[1..])
  }

  /** The exchange takes the first frame. */
  lemma DrainOne(s: System, b: nat)
    requires b >= 1 && s.net.uplink != []
    ensures var step := if s.net.uplink[0].Sub? then ExchangeAccepts else ExchangeUnsubscribes;
            && Enabled(s, step) && CalmStep(step)
            && var r := Apply(s, step, b);
               && r.net.uplink == s.net.uplink[1..]
               && r.net.downlink == s.net.downlink + Grants(s.net.uplink[..1])
               && r == s.(net := r.net)
  {
  }

  /** Everything sent on the connection is taken and answered. */
  ghost predicate Drained(s: System, r: System) {
    && r.net.uplink == [] && r.net.downlink == s.net.downlink + Grants(s.net.uplink)
    && r == s.(net := r.net)
  }

  lemma DrainedOneMore(s: System, s': System, r: System)
    requires s.net.uplink != [] && s'.net.uplink == s.net.uplink[1..] && s' == s.(net := s'.net)
    requires s'.net.downlink == s.net.downlink + Grants(s.net.uplink[..1]) && Drained(s', r)
    ensures Drained(s, r)
  {
    var first, rest := Grants(s.net.uplink[..1]), Grants(s.net.uplink[1..]);
    assert Grants(s.net.uplink) == first + rest;
    assert (s.net.downlink + first) + rest == s.net.downlink + (first + rest);
  }

  lemma {:induction false} Drain(s: System, b: nat)
    requires b >= 1
    ensures var steps := DrainSteps(s.net.uplink);
            Runs(s, steps, b) && Calm(steps) && Drained(s, After(s, steps, b))
    decreases |s.net.uplink|
  {
    if s.net.uplink == [] {
      assert s.net.downlink + [] == s.net.downlink;
    } else {
      var step := if s.net.uplink[0].Sub? then ExchangeAccepts else ExchangeUnsubscribes;
      DrainOne(s, b);
      var s' := Apply(s, step, b);
      Drain(s', b);
      RunPrepends(s, step, DrainSteps(s'.net.uplink), b);
      DrainedOneMore(s, s', After(s', DrainSteps(s'.net.uplink), b));
      assert DrainSteps(s.net.uplink) == [step] + DrainSteps(s'.net.uplink);
    }
  }

  lemma {:induction false} GrantsAnswer(uplink: seq<Frame>, i: nat)
    requires i < |uplink| && uplink[i].Sub?
    ensures Ack(uplink[i].id, true) in Grants(uplink)
  {
    if i == 0 {
    } else {
      GrantsAnswer(uplink[1..], i - 1);
    }
  }

  lemma {:induction false} GrantsSucceed(uplink: seq<Frame>, a: Ack)
    requires a in Grants(uplink)
    ensures a.success
  {
    if uplink == [] {
      assert false;
    } else if a in Grants(uplink[1..]) {
      GrantsSucceed(uplink[1..], a);
    } else {
      assert uplink[0].Sub?;
    }
  }

  function Receives(n: nat): seq<Step> {
    if n == 0 then [] else [Receive] + Receives(n - 1)
  }

  function Numbers(answers: seq<Ack>): (ids: seq<nat>) {
    if answers == [] then [] else [answers[0].id] + Numbers(answers[1..])
  }

  lemma {:induction false} NumbersOf(answers: seq<Ack>, a: Ack)
    requires a in answers
    ensures a.id in Numbers(answers)
  {
    if answers == [] {
      assert false;
    } else if a != answers[0] {
      NumbersOf(answers[1..], a);
    }
  }

  /** Receiving the whole queue confirms as the client in place does with those answers. */
  lemma {:induction false} ReceiveAll(s: System, b: nat)
    requires b >= 1 && Live(s)
    ensures var steps := Receives(|s.net.downlink|);
            && Runs(s, steps, b) && Calm(steps)
            && After(s, steps, b) == s.(client := ConfirmAll(s.client, Numbers(s.net.downlink)),
                                        net := s.net.(downlink := []))
    decreases |s.net.downlink|
  {
    if s.net.downlink == [] {
      assert s.net.(downlink := []) == s.net;
    } else {
      var s' := Apply(s, Receive, b);
      assert s'.client == Confirm(s.client, s.net.downlink[0].id);
      assert forall i | 0 <= i < |s'.net.downlink| :: s'.net.downlink[i] == s.net.downlink[i + 1];
      ReceiveAll(s', b);
      RunPrepends(s, Receive, Receives(|s'.net.downlink|), b);
    }
  }

  // ---------------------------------------------------------------------------------------------
  // One round: reconcile, be answered, receive
  // ---------------------------------------------------------------------------------------------

  /** A calm run to a live, quiet state with this client. */
  ghost predicate RoundEnds(s: System, steps: seq<Step>, b: nat, client: Client)
    requires b >= 1
  {
    && Runs(s, steps, b) && Calm(steps)
    && var r := After(s, steps, b);
       r.client == client && Quiet(r) && r.socketOpen && r.listening
  }

  lemma AnswerRound(s: System, b: nat)
    requires b >= 1 && Live(s) && RequestsAccounted(s, {})
    ensures exists steps, ids :: AnswersAll(s.client, ids) && RoundEnds(s, steps, b, ConfirmAll(s.client, ids))
  {
    var answers := s.net.downlink + Grants(s.net.uplink);
    Drain(s, b);
    var s1 := After(s, DrainSteps(s.net.uplink), b);
    DrainedLive(s, s1);
    ReceiveAll(s1, b);
    forall id | id in s.client.pending ensures id in Numbers(answers) {
      assert AccountedFor(s, id);
      AnswerReaches(s, id);
    }
    var steps := DrainSteps(s.net.uplink) + Receives(|answers|);
    RunsJoin(s, DrainSteps(s.net.uplink), Receives(|answers|), b);
    assert RoundEnds(s, steps, b, ConfirmAll(s.client, Numbers(answers)));
  }

  lemma DrainedLive(s: System, r: System)
    requires Live(s) && Drained(s, r)
    ensures Live(r)
  {
    forall i | 0 <= i < |r.net.downlink| && r.net.downlink[i].id in r.client.pending ensures r.net.downlink[i].success {
      if i >= |s.net.downlink| { GrantsSucceed(s.net.uplink, r.net.downlink[i]); }
    }
  }

  lemma AnswerReaches(s: System, id: nat)
    requires OnItsWay(s.net, id) || AnswerOnItsWay(s.net, id)
    ensures id in Numbers(s.net.downlink + Grants(s.net.uplink))
  {
    var answers := s.net.downlink + Grants(s.net.uplink);
    if OnItsWay(s.net, id) {
      var i :| 0 <= i < |s.net.uplink| && s.net.uplink[i].Sub? && s.net.uplink[i].id == id;
      GrantsAnswer(s.net.uplink, i);
      NumbersOf(answers, Ack(id, true));
    } else {
      var i :| 0 <= i < |s.net.downlink| && s.net.downlink[i].id == id;
      assert answers[i] == s.net.downlink[i];
      NumbersOf(answers, answers[i]);
    }
  }

  /** One reconciliation, from a reachable state on which no request was abandoned. */
  lemma SyncRound(s: System, wanted: set<Symbol>, b: nat)
    requires b >= 1 && Live(s) && Inv(s, b) && ExactInv(s) && RequestsAccounted(s, {})
    ensures exists steps, ids :: AnswersAll(Synced(s.client, wanted, b), ids)
                          && RoundEnds(s, steps, b, ConfirmAll(Synced(s.client, wanted, b), ids))
  {
    var sync := SyncSteps(s.client, wanted, b);
    UndisturbedSync(s, wanted, b);
    SyncIsCalm(s.client, wanted, b);
    CalmKeeps(s, sync, b, {});
    RunKeepsRequests(s, sync, b, {});
    var s1 := After(s, sync, b);
    SyncAddsLaterNumbers(s.client, wanted, b);
    assert Live(s1);
    AnswerRound(s1, b);
    var more, ids :| AnswersAll(s1.client, ids) && RoundEnds(s1, more, b, ConfirmAll(s1.client, ids));
    RunsJoin(s, sync, more, b);
    assert RoundEnds(s, sync + more, b, ConfirmAll(s1.client, ids));
  }

  /** What a reconciliation requests goes under numbers nobody has used. */
  lemma {:induction false} SendAddsLaterNumbers(c: Client, symbols: seq<Symbol>, b: nat, id: nat)
    requires b >= 1 && id in SendSubscribes(c, symbols, b).pending
    ensures id in c.pending || id > c.sequence
    decreases |symbols|
  {
    if symbols == [] {
    } else {
      var k := BatchLength(|symbols|, b);
      SendAddsLaterNumbers(Register(c, symbols[..k]), symbols[k..], b, id);
    }
  }

  lemma SyncAddsLaterNumbers(c: Client, wanted: set<Symbol>, b: nat)
    requires b >= 1
    ensures forall id | id in Synced(c, wanted, b).pending :: id in c.pending || id > c.sequence
  {
    var c1 := c.(desired := wanted);
    forall id | id in Synced(c, wanted, b).pending ensures id in c.pending || id > c.sequence {
      SendAddsLaterNumbers(c1, SortedSet(Missing(c1)), b, id);
    }
  }

  // ---------------------------------------------------------------------------------------------
  // Convergence
  // ---------------------------------------------------------------------------------------------

  /**
   Nothing is on its way, the wanted symbols are confirmed and no others, another reconciliation sends nothing, and
   the exchange serves every wanted symbol that no abandoned unsubscribe took away before.
   */
  ghost predicate Converged(r: System, wanted: set<Symbol>, orphaned: set<Symbol>, b: nat)
    requires b >= 1
  {
    && Quiet(r) && r.socketOpen && r.listening
    && r.client.desired == wanted && r.client.subscribed == wanted && r.client.pending == map[]
    && SyncFrames(r.client, wanted, b) == []
    && wanted - r.net.session == r.orphaned && r.orphaned <= orphaned
  }

  /** From a live connection on which no request was abandoned, a calm run leads to the wanted symbols. */
  lemma ProtocolConverges(steps: seq<Step>, wanted: set<Symbol>, b: nat)
    requires b >= 1 && Runs(Start, steps, b) && Live(After(Start, steps, b))
    requires Lingering(Start, steps, b, {}) == {}
    ensures var s := After(Start, steps, b);
            exists more :: Runs(s, more, b) && Calm(more) && Converged(After(s, more, b), wanted, s.orphaned, b)
  {
    var s := After(Start, steps, b);
    ReachableInv(steps, b);
    RunKeepsExactInv(Start, steps, b);
    RunKeepsRequests(Start, steps, b, {});
    SyncRound(s, wanted, b);
    var first, ids1 :| AnswersAll(Synced(s.client, wanted, b), ids1)
                && RoundEnds(s, first, b, ConfirmAll(Synced(s.client, wanted, b), ids1));
    CalmKeeps(s, first, b, {});
    RunKeepsInv(s, first, b);
    RunKeepsExactInv(s, first, b);
    RunKeepsRequests(s, first, b, {});
    var s1 := After(s, first, b);
    SyncRound(s1, wanted, b);
    var second, ids2 :| AnswersAll(Synced(s1.client, wanted, b), ids2)
                && RoundEnds(s1, second, b, ConfirmAll(Synced(s1.client, wanted, b), ids2));
    TwoSyncsConverge(s.client, wanted, b, ids1, ids2);
    RoundsConverge(steps, first, second, wanted, b);
  }

  lemma RoundsConverge(steps: seq<Step>, first: seq<Step>, second: seq<Step>, wanted: set<Symbol>, b: nat)
    requires b >= 1 && Runs(Start, steps, b)
    requires Runs(After(Start, steps, b), first, b) && Calm(first)
    requires var s1 := After(After(Start, steps, b), first, b);
             && Runs(s1, second, b) && Calm(second)
             && var r := After(s1, second, b);
                && Quiet(r) && r.socketOpen && r.listening
                && r.client.desired == wanted && r.client.subscribed == wanted && r.client.pending == map[]
                && SyncFrames(r.client, wanted, b) == []
    ensures var s := After(Start, steps, b);
            exists more :: Runs(s, more, b) && Calm(more) && Converged(After(s, more, b), wanted, s.orphaned, b)
  {
    var s := After(Start, steps, b);
    var more := first + second;
    RunsJoin(s, first, second, b);
    QuietServes(steps, more, b);
    CalmKeeps(s, more, b, {});
    assert Converged(After(s, more, b), wanted, s.orphaned, b);
  }

  /** Where a calm run ends quietly, the exchange serves all that is confirmed but for the abandoned unsubscribes. */
  lemma QuietServes(steps: seq<Step>, more: seq<Step>, b: nat)
    requires b >= 1 && Runs(Start, steps, b) && Runs(After(Start, steps, b), more, b)
    requires Quiet(After(After(Start, steps, b), more, b))
    ensures var r := After(After(Start, steps, b), more, b);
            r.client.subscribed - r.net.session == r.orphaned
  {
    RunsJoin(Start, steps, more, b);
    QuietDifference(steps + more, b);
  }

  /**
   From a reachable state of a live connection on which no rejection waits, a run without failing sends and
   reconnections leads to the wanted symbols if and only if no request was abandoned before.
   */
  lemma ConvergesExactly(steps: seq<Step>, wanted: set<Symbol>, b: nat)
    requires b >= 1 && Runs(Start, steps, b) && Live(After(Start, steps, b))
    ensures var s := After(Start, steps, b);
            (exists more :: Runs(s, more, b) && Calm(more) && Converged(After(s, more, b), wanted, s.orphaned, b))
            <==> Lingering(Start, steps, b, {}) == {}
  {
    var s, lingering := After(Start, steps, b), Lingering(Start, steps, b, {});
    if lingering == {} {
      ProtocolConverges(steps, wanted, b);
    } else {
      ReachableInv(steps, b);
      RunKeepsExactInv(Start, steps, b);
      RunKeepsRequests(Start, steps, b, {});
      forall more | Runs(s, more, b) && Calm(more) ensures After(s, more, b).client.pending != map[] {
        CalmKeeps(s, more, b, lingering);
        RunKeepsRequests(s, more, b, lingering);
        var id :| id in lingering;
        assert id in After(s, more, b).client.pending;
      }
    }
  }
}
