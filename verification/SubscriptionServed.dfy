/**
 What the exchange serves beyond the confirmed symbols. A subscribe send that fails after its frame has left is
 rolled back, although the exchange will accept the frame or has done so: those symbols are served and nobody
 knows, until they are requested again and confirmed.
 */
module SubscriptionServed {
  import opened Wrappers
  import opened Ordering
  import opened Subscription
  import opened SubscriptionProtocol
  import opened SubscriptionRequests

  /** The send fails although its frame has left on this connection, and its request is still outstanding. */
  predicate FailsLate(s: System, step: Step) {
    && step.SendFails? && Enabled(s, step) && s.holder.op.Subscribe?
    && s.holder.flight.value.transmitted && s.holder.flight.value.conn == s.net.conn
    && s.holder.flight.value.id in s.client.pending
  }

  /**
   The symbols of requests rolled back that the exchange has accepted, until they are confirmed after all or
   unsubscribed.
   */
  function LeakedAfter(s: System, step: Step, leaked: set<Symbol>): set<Symbol>
    requires Enabled(s, step)
  {
    match step
    case SendFails =>
      var f := s.holder.flight.value;
      if FailsLate(s, step) && Sub(f.id, f.batch) in s.net.accepted then leaked + Elements(f.batch) else leaked
    case ExchangeAccepts =>
      var frame := s.net.uplink[0];
      if frame.id in s.client.pending then leaked else leaked + (Elements(frame.symbols) - s.client.subscribed)
    case ExchangeUnsubscribes => leaked - Elements(s.net.uplink[0].symbols)
    case Receive =>
      var ack := s.net.downlink[0];
      if ack.success && ack.id in s.client.pending then leaked - Elements(s.client.pending[ack.id]) else leaked
    case Connect => {}
    case _ => leaked
  }

  function Leaked(s: System, steps: seq<Step>, b: nat, leaked: set<Symbol>): set<Symbol>
    requires b >= 1 && Runs(s, steps, b)
    decreases |steps|
  {
    if steps == [] then leaked
    else Leaked(Apply(s, steps[0], b), steps[1..], b, LeakedAfter(s, steps[0], leaked))
  }

  // ---------------------------------------------------------------------------------------------
  // Every request is answered once
  // ---------------------------------------------------------------------------------------------

  ghost predicate AnswersOnce(net: Net) {
    && (forall i, j | 0 <= i < j < |net.uplink| :: net.uplink[i].Sub? && net.uplink[j].Sub? ==>
          net.uplink[i].id != net.uplink[j].id)
    && (forall i, a | 0 <= i < |net.uplink| && a in net.issued :: net.uplink[i].Sub? ==> net.uplink[i].id != a.id)
    && (forall f | f in net.accepted :: f.Sub? && Ack(f.id, true) in net.issued)
    && (forall a, c | a in net.issued && c in net.issued && a.id == c.id :: a == c)
  }

  /** While a send of an earlier connection is still in the air, nothing has happened on this one. */
  ghost predicate StaleFlightAlone(s: System) {
    s.holder.Holding? && s.holder.flight.Some? && s.holder.flight.value.conn < s.net.conn ==>
      && s.client.pending == map[] && s.client.subscribed == {}
      && s.net == Net(s.net.conn, [], [], {}, {}, {})
  }

  lemma StepAnswersOnce(s: System, step: Step, b: nat)
    requires b >= 1 && Inv(s, b) && FlightFresh(s) && AnswersOnce(s.net) && Enabled(s, step)
    ensures AnswersOnce(Apply(s, step, b).net)
  {
    if step.Transmit? {
      TransmitAnswersOnce(s, b);
    } else if step.ExchangeAccepts? || step.ExchangeRejects? || step.ExchangeUnsubscribes? {
      ShiftAnswersOnce(s.net, Apply(s, step, b).net, step.ExchangeAccepts?);
    } else {
      OthersKeepNet(s, step, b);
    }
  }

  lemma TransmitAnswersOnce(s: System, b: nat)
    requires b >= 1 && FlightFresh(s) && AnswersOnce(s.net) && Enabled(s, Transmit)
    ensures AnswersOnce(Apply(s, Transmit, b).net)
  {
    var net, net' := s.net, Apply(s, Transmit, b).net;
    assert net'.issued == net.issued && net'.accepted == net.accepted;
    assert forall i | 0 <= i < |net.uplink| :: net'.uplink[i] == net.uplink[i];
  }

  /** The exchange takes the first frame, and answers it if it is a request. */
  lemma ShiftAnswersOnce(net: Net, net': Net, accepts: bool)
    requires AnswersOnce(net) && net.uplink != [] && net'.uplink == net.uplink[1..]
    requires var frame := net.uplink[0];
             if frame.Unsub? then net'.issued == net.issued && net'.accepted == net.accepted
             else
               && net'.issued == net.issued + {Ack(frame.id, accepts)}
               && net'.accepted == if accepts then net.accepted + {frame} else net.accepted
    ensures AnswersOnce(net')
  {
    assert forall i | 0 <= i < |net'.uplink| :: net'.uplink[i] == net.uplink[i + 1];
  }

  /** The other steps leave queue, answers and acceptances alone, or start a new connection. */
  lemma OthersKeepNet(s: System, step: Step, b: nat)
    requires b >= 1 && Enabled(s, step) && !step.Transmit?
    requires !step.ExchangeAccepts? && !step.ExchangeRejects? && !step.ExchangeUnsubscribes?
    ensures var net, net' := s.net, Apply(s, step, b).net;
            if step.Connect? then net' == Net(net.conn + 1, [], [], {}, {}, {})
            else && net'.uplink == net.uplink && net'.issued == net.issued && net'.accepted == net.accepted
                 && net'.session == net.session && net'.conn == net.conn
  {
  }

  lemma StepKeepsStale(s: System, step: Step, b: nat)
    requires b >= 1 && Inv(s, b) && FlightFresh(s) && StaleFlightAlone(s) && Enabled(s, step)
    ensures StaleFlightAlone(Apply(s, step, b))
  {
    if step.Receive? { assert s.net.downlink[0] in s.net.issued; }
  }

  // ---------------------------------------------------------------------------------------------
  // What is served beyond the confirmed symbols
  // ---------------------------------------------------------------------------------------------

  /** An outstanding request of it was accepted, and the answer is still to come. */
  ghost predicate Awaited(s: System, x: Symbol) {
    exists id :: id in s.client.pending && x in s.client.pending[id] && Sub(id, s.client.pending[id]) in s.net.accepted
  }

  /** An unsubscribe of it is on its way. */
  ghost predicate Leaving(net: Net, x: Symbol) {
    exists i :: 0 <= i < |net.uplink| && net.uplink[i].Unsub? && x in net.uplink[i].symbols
  }

  ghost predicate Beyond(s: System, leaked: set<Symbol>) {
    && leaked <= s.net.session && leaked !! s.client.subscribed
    && forall x | x in s.net.session && x !in s.client.subscribed && x !in leaked :: Awaited(s, x) || Leaving(s.net, x)
  }

  lemma TransmitKeepsBeyond(s: System, b: nat, leaked: set<Symbol>)
    requires b >= 1 && Enabled(s, Transmit) && Beyond(s, leaked)
    ensures Beyond(Apply(s, Transmit, b), leaked)
  {
    var s' := Apply(s, Transmit, b);
    forall x | x in s'.net.session && x !in s'.client.subscribed && x !in leaked
      ensures Awaited(s', x) || Leaving(s'.net, x)
    {
      if Leaving(s.net, x) {
        var i :| 0 <= i < |s.net.uplink| && s.net.uplink[i].Unsub? && x in s.net.uplink[i].symbols;
        assert s'.net.uplink[i] == s.net.uplink[i];
      } else {
        AwaitedStays(s, s', x);
      }
    }
  }

  /** Requests and acceptances that are kept keep waiting. */
  lemma AwaitedStays(s: System, s': System, x: Symbol)
    requires Awaited(s, x) && s.net.accepted <= s'.net.accepted
    requires forall id | id in s.client.pending ::
             id in s'.client.pending && s'.client.pending[id] == s.client.pending[id]
    ensures Awaited(s', x)
  {
    var id :| id in s.client.pending && x in s.client.pending[id] && Sub(id, s.client.pending[id]) in s.net.accepted;
    assert id in s'.client.pending;
  }

  lemma LeavingShifts(net: Net, net': Net, x: Symbol)
    requires net.uplink != [] && net'.uplink == net.uplink[1..] && Leaving(net, x)
    requires net.uplink[0].Unsub? ==> x !in net.uplink[0].symbols
    ensures Leaving(net', x)
  {
    var i :| 0 <= i < |net.uplink| && net.uplink[i].Unsub? && x in net.uplink[i].symbols;
    assert net'.uplink[i - 1] == net.uplink[i];
  }

  lemma AcceptKeepsBeyond(s: System, b: nat, leaked: set<Symbol>)
    requires b >= 1 && Inv(s, b) && Enabled(s, ExchangeAccepts) && Beyond(s, leaked)
    ensures Beyond(Apply(s, ExchangeAccepts, b), LeakedAfter(s, ExchangeAccepts, leaked))
  {
    var s', leaked' := Apply(s, ExchangeAccepts, b), LeakedAfter(s, ExchangeAccepts, leaked);
    var frame := s.net.uplink[0];
    forall x | x in s'.net.session && x !in s'.client.subscribed && x !in leaked'
      ensures Awaited(s', x) || Leaving(s'.net, x)
    {
      if x in frame.symbols {
        assert s'.client.pending[frame.id] == frame.symbols && Sub(frame.id, frame.symbols) in s'.net.accepted;
      } else if Leaving(s.net, x) {
        LeavingShifts(s.net, s'.net, x);
      } else {
        AwaitedStays(s, s', x);
      }
    }
  }

  lemma UnsubscribeKeepsBeyond(s: System, step: Step, b: nat, leaked: set<Symbol>)
    requires b >= 1 && Enabled(s, step) && (step.ExchangeUnsubscribes? || step.ExchangeRejects?) && Beyond(s, leaked)
    ensures Beyond(Apply(s, step, b), LeakedAfter(s, step, leaked))
  {
    var s', leaked' := Apply(s, step, b), LeakedAfter(s, step, leaked);
    forall x | x in s'.net.session && x !in s'.client.subscribed && x !in leaked'
      ensures Awaited(s', x) || Leaving(s'.net, x)
    {
      if Leaving(s.net, x) { LeavingShifts(s.net, s'.net, x); } else { AwaitedStays(s, s', x); }
    }
  }

  lemma ReceiveKeepsBeyond(s: System, b: nat, leaked: set<Symbol>)
    requires b >= 1 && Inv(s, b) && AnswersOnce(s.net) && Enabled(s, Receive) && Beyond(s, leaked)
    ensures Beyond(Apply(s, Receive, b), LeakedAfter(s, Receive, leaked))
  {
    var s', leaked' := Apply(s, Receive, b), LeakedAfter(s, Receive, leaked);
    var ack := s.net.downlink[0];
    assert ack in s.net.issued;
    forall x | x in s'.net.session && x !in s'.client.subscribed && x !in leaked'
      ensures Awaited(s', x) || Leaving(s'.net, x)
    {
      assert x !in leaked;
      if !Leaving(s.net, x) {
        var id :|
          id in s.client.pending && x in s.client.pending[id] && Sub(id, s.client.pending[id]) in s.net.accepted;
        assert Ack(id, true) in s.net.issued;
        assert id in s'.client.pending && s'.client.pending[id] == s.client.pending[id];
      }
    }
  }

  lemma SendFailsKeepsBeyond(s: System, b: nat, leaked: set<Symbol>)
    requires b >= 1 && Inv(s, b) && FlightFresh(s) && AnswersOnce(s.net) && StaleFlightAlone(s)
    requires Enabled(s, SendFails) && Beyond(s, leaked)
    ensures Beyond(Apply(s, SendFails, b), LeakedAfter(s, SendFails, leaked))
  {
    var s', leaked' := Apply(s, SendFails, b), LeakedAfter(s, SendFails, leaked);
    var f := s.holder.flight.value;
    assert s'.net == s.net && s'.client.subscribed == s.client.subscribed;
    if leaked' != leaked {
      assert Ack(f.id, true) in s.net.issued && s.client.pending[f.id] == f.batch;
      forall x | x in f.batch ensures x in s.net.session && x !in s.client.subscribed { assert Served(s.net, x); }
    }
    forall x | x in s'.net.session && x !in s'.client.subscribed && x !in leaked'
      ensures Awaited(s', x) || Leaving(s'.net, x)
    {
      if !Leaving(s.net, x) {
        var id :|
          id in s.client.pending && x in s.client.pending[id] && Sub(id, s.client.pending[id]) in s.net.accepted;
        assert Ack(id, true) in s.net.issued;
        if s.holder.op.Subscribe? && id == f.id { RolledBackLeaks(s, x, leaked); }
        assert id in s'.client.pending;
      }
    }
  }

  /** What the failed send rolls back although the exchange accepted it is leaked. */
  lemma RolledBackLeaks(s: System, x: Symbol, leaked: set<Symbol>)
    requires InTheAir(s) && FlightFresh(s) && AnswersOnce(s.net) && StaleFlightAlone(s)
    requires Enabled(s, SendFails) && s.holder.op.Subscribe?
    requires var id := s.holder.flight.value.id;
             id in s.client.pending && x in s.client.pending[id] && Sub(id, s.client.pending[id]) in s.net.accepted
    ensures x in LeakedAfter(s, SendFails, leaked)
  {
    assert Ack(s.holder.flight.value.id, true) in s.net.issued;
  }

  lemma SendReturnsKeepsBeyond(s: System, b: nat, leaked: set<Symbol>)
    requires b >= 1 && Inv(s, b) && ExactInv(s) && StaleFlightAlone(s) && Enabled(s, SendReturns) && Beyond(s, leaked)
    ensures Beyond(Apply(s, SendReturns, b), leaked)
  {
    var s' := Apply(s, SendReturns, b);
    assert s'.net == s.net && s'.client.pending == s.client.pending;
    forall x | x in s'.net.session && x !in s'.client.subscribed && x !in leaked
      ensures Awaited(s', x) || Leaving(s'.net, x)
    {
      if x in s.client.subscribed {
        assert x in BeingDropped(s);
        var k: nat :| DoomedFrom(s.net, x, k);
        assert s.net.uplink[k - 1].Unsub? && x in s.net.uplink[k - 1].symbols;
      } else if !Leaving(s.net, x) {
        AwaitedStays(s, s', x);
      }
    }
  }

  /** Beginning a batch adds a request, or adds and removes it again. */
  lemma BeginBatchKeepsBeyond(s: System, b: nat, leaked: set<Symbol>)
    requires b >= 1 && Inv(s, b) && Enabled(s, BeginBatch) && Beyond(s, leaked)
    ensures Beyond(Apply(s, BeginBatch, b), leaked)
  {
    var s' := Apply(s, BeginBatch, b);
    assert s'.net == s.net && s'.client.subscribed == s.client.subscribed;
    assert forall id | id in s.client.pending ::
      id in s'.client.pending && s'.client.pending[id] == s.client.pending[id];
    forall x | x in s'.net.session && x !in s'.client.subscribed && x !in leaked
      ensures Awaited(s', x) || Leaving(s'.net, x)
    {
      if !Leaving(s.net, x) { AwaitedStays(s, s', x); }
    }
  }

  lemma StepKeepsBeyond(s: System, step: Step, b: nat, leaked: set<Symbol>)
    requires b >= 1 && Inv(s, b) && ExactInv(s) && AnswersOnce(s.net) && StaleFlightAlone(s)
    requires Enabled(s, step) && Beyond(s, leaked)
    ensures Beyond(Apply(s, step, b), LeakedAfter(s, step, leaked))
  {
    match step
    case Transmit => TransmitKeepsBeyond(s, b, leaked);
    case ExchangeAccepts => AcceptKeepsBeyond(s, b, leaked);
    case ExchangeUnsubscribes => UnsubscribeKeepsBeyond(s, step, b, leaked);
    case ExchangeRejects => UnsubscribeKeepsBeyond(s, step, b, leaked);
    case Receive => ReceiveKeepsBeyond(s, b, leaked);
    case SendFails => SendFailsKeepsBeyond(s, b, leaked);
    case SendReturns => SendReturnsKeepsBeyond(s, b, leaked);
    case BeginBatch => BeginBatchKeepsBeyond(s, b, leaked);
    case Connect =>
    case _ => QuietStepKeepsBeyond(s, Apply(s, step, b), leaked);
  }

  /** Steps that touch neither the session nor the queue to it, nor what is confirmed and requested. */
  lemma QuietStepKeepsBeyond(s: System, s': System, leaked: set<Symbol>)
    requires Beyond(s, leaked)
    requires s'.net.session == s.net.session && s'.net.uplink == s.net.uplink && s'.net.accepted == s.net.accepted
    requires s'.client.subscribed == s.client.subscribed && s'.client.pending == s.client.pending
    ensures Beyond(s', leaked)
  {
    forall x | x in s'.net.session && x !in s'.client.subscribed && x !in leaked
      ensures Awaited(s', x) || Leaving(s'.net, x)
    {
      if !Leaving(s.net, x) { AwaitedStays(s, s', x); }
    }
  }

  lemma {:induction false} RunKeepsBeyond(s: System, steps: seq<Step>, b: nat, leaked: set<Symbol>)
    requires b >= 1 && Runs(s, steps, b) && Inv(s, b) && ExactInv(s)
    requires AnswersOnce(s.net) && StaleFlightAlone(s) && Beyond(s, leaked)
    ensures var r := After(s, steps, b);
            AnswersOnce(r.net) && Beyond(r, Leaked(s, steps, b, leaked))
    decreases |steps|
  {
    if steps == [] {
    } else {
      StepKeepsInv(s, steps[0], b);
      StepKeepsExactInv(s, steps[0], b);
      StepAnswersOnce(s, steps[0], b);
      StepKeepsStale(s, steps[0], b);
      StepKeepsBeyond(s, steps[0], b, leaked);
      RunKeepsBeyond(Apply(s, steps[0], b), steps[1..], b, LeakedAfter(s, steps[0], leaked));
    }
  }

  /** The lock is free and nothing is on its way in either direction. */
  predicate Quiet(s: System) {
    s.holder.Free? && s.net.uplink == [] && s.net.downlink == []
  }

  /**
   After any run, on a quiet connection, what the exchange serves beyond the confirmed symbols is exactly what it
   accepted of requests that were rolled back after their frames had left, and that has been neither confirmed nor
   unsubscribed since.
   */
  lemma ServedBeyondExactly(steps: seq<Step>, b: nat)
    requires b >= 1 && Runs(Start, steps, b) && Quiet(After(Start, steps, b))
    ensures var s := After(Start, steps, b);
            s.net.session - s.client.subscribed == Leaked(Start, steps, b, {})
  {
    var s, leaked := After(Start, steps, b), Leaked(Start, steps, b, {});
    RunKeepsBeyond(Start, steps, b, {});
    RunKeepsInv(Start, steps, b);
    RunKeepsRequests(Start, steps, b, {});
    RequestsExactly(steps, b);
    forall x ensures !Awaited(s, x) {
      forall id | id in s.client.pending && x in s.client.pending[id]
        ensures Sub(id, s.client.pending[id]) !in s.net.accepted
      {
        assert Unseen(s, id);
        assert Ack(id, true) !in s.net.issued;
      }
    }
  }

  // ---------------------------------------------------------------------------------------------
  // When nothing leaks
  // ---------------------------------------------------------------------------------------------

  /** No subscribe send fails after its frame has left. */
  predicate NoneFailsLate(s: System, steps: seq<Step>, b: nat)
    requires b >= 1 && Runs(s, steps, b)
    decreases |steps|
  {
    steps == [] || (!FailsLate(s, steps[0]) && NoneFailsLate(Apply(s, steps[0], b), steps[1..], b))
  }

  /** Every request on its way is outstanding. */
  ghost predicate UplinkOutstanding(s: System) {
    forall i | 0 <= i < |s.net.uplink| :: s.net.uplink[i].Sub? ==> s.net.uplink[i].id in s.client.pending
  }

  lemma StepKeepsOutstanding(s: System, step: Step, b: nat)
    requires b >= 1 && Inv(s, b) && FlightFresh(s) && AnswersOnce(s.net) && UplinkOutstanding(s)
    requires StaleFlightAlone(s) && Enabled(s, step) && !FailsLate(s, step)
    ensures UplinkOutstanding(Apply(s, step, b))
  {
    var s' := Apply(s, step, b);
    if step.Receive? { assert s.net.downlink[0] in s.net.issued; }
    if step.ExchangeAccepts? || step.ExchangeRejects? || step.ExchangeUnsubscribes? {
      assert forall i | 0 <= i < |s'.net.uplink| :: s'.net.uplink[i] == s.net.uplink[i + 1];
    }
    if step.SendFails? && s.holder.op.Subscribe? && !s.holder.flight.value.transmitted {
      assert s'.net == s.net;
    }
  }

  lemma {:induction false} NothingLeaks(s: System, steps: seq<Step>, b: nat)
    requires b >= 1 && Runs(s, steps, b) && Inv(s, b) && ExactInv(s) && NoneFailsLate(s, steps, b)
    requires AnswersOnce(s.net) && UplinkOutstanding(s) && StaleFlightAlone(s)
    ensures Leaked(s, steps, b, {}) == {}
    decreases |steps|
  {
    if steps == [] {
    } else {
      StepKeepsInv(s, steps[0], b);
      StepKeepsExactInv(s, steps[0], b);
      StepAnswersOnce(s, steps[0], b);
      StepKeepsStale(s, steps[0], b);
      StepKeepsOutstanding(s, steps[0], b);
      assert LeakedAfter(s, steps[0], {}) == {};
      NothingLeaks(Apply(s, steps[0], b), steps[1..], b);
    }
  }

  /**
   On a quiet connection, what the client believes and what the exchange serves differ by exactly the leaked symbols
   one way and by those of abandoned unsubscribes the other way.
   */
  lemma QuietDifference(steps: seq<Step>, b: nat)
    requires b >= 1 && Runs(Start, steps, b) && Quiet(After(Start, steps, b))
    ensures var s := After(Start, steps, b);
            && s.net.session - s.client.subscribed == Leaked(Start, steps, b, {})
            && s.client.subscribed - s.net.session == s.orphaned
            && (s.net.session == s.client.subscribed <==> Leaked(Start, steps, b, {}) == {} && s.orphaned == {})
  {
    ServedBeyondExactly(steps, b);
    RunKeepsInv(Start, steps, b);
    var s := After(Start, steps, b);
    assert BeingDropped(s) == {} && s.orphaned <= s.client.subscribed;
    forall x ensures x in s.client.subscribed - s.net.session <==> x in s.orphaned { ServedExactly(steps, b, x); }
    assert s.client.subscribed - s.net.session == s.orphaned;
  }

  /** So they agree if no subscribe send failed late and no unsubscribe was abandoned after its frame had left. */
  lemma QuietAgreement(steps: seq<Step>, b: nat)
    requires b >= 1 && Runs(Start, steps, b) && Quiet(After(Start, steps, b))
    requires NoneFailsLate(Start, steps, b) && NoUnsubscribeAbandoned(Start, steps, b)
    ensures After(Start, steps, b).net.session == After(Start, steps, b).client.subscribed
  {
    QuietDifference(steps, b);
    NothingLeaks(Start, steps, b);
    NothingOrphaned(Start, steps, b);
  }

  const LeakA: seq<Step> := [BeginBatch] + ([Transmit] + ([SendFails] + ([ExchangeAccepts] + ([Receive] + []))))

  /** A run in which a send that fails late leaves its symbol served, unconfirmed and to be requested again. */
  lemma FailedSendLeaks()
    ensures Runs(Start, RequestA + LeakA, 1)
    ensures var s := After(Start, RequestA + LeakA, 1);
            && Quiet(s) && s.listening
            && "A" in s.net.session && "A" !in s.client.subscribed && "A" in Missing(s.client)
  {
    RequestARuns();
    var s1 := Apply(PlannedA, BeginBatch, 1);
    assert PlannedA.holder.rest[..1] == ["A"] && PlannedA.holder.rest[1..] == [];
    var s2 := Apply(s1, Transmit, 1);
    assert s2.net.uplink == [Sub(1, ["A"])];
    var s3 := Apply(s2, SendFails, 1);
    assert s3.client.pending == map[] && s3.holder.Free?;
    var s4 := Apply(s3, ExchangeAccepts, 1);
    assert s4.net.downlink == [Ack(1, true)] && s4.net.uplink == [] && "A" in Elements(["A"]);
    LeakReceived(s4);
    RunPrepends(s4, Receive, [], 1);
    RunPrepends(s3, ExchangeAccepts, [Receive] + [], 1);
    RunPrepends(s2, SendFails, [ExchangeAccepts] + ([Receive] + []), 1);
    RunPrepends(s1, Transmit, [SendFails] + ([ExchangeAccepts] + ([Receive] + [])), 1);
    RunPrepends(PlannedA, BeginBatch, [Transmit] + ([SendFails] + ([ExchangeAccepts] + ([Receive] + []))), 1);
    RunsJoin(Start, RequestA, LeakA, 1);
  }

  lemma LeakReceived(s: System)
    requires s.listening && s.net.downlink == [Ack(1, true)] && s.client.pending == map[]
    requires s.client.desired == {"A"} && s.client.subscribed == {}
    ensures var s' := Apply(s, Receive, 1);
            s'.client == s.client && s'.net.downlink == [] && "A" in Missing(s'.client)
  {
    assert PendingSymbols(s.client.pending) == {};
  }
}
