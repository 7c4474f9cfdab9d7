/**
 What becomes of a subscribe request once it is recorded: unless its send is cancelled, it is being sent, on
 its way, or answered by something still to be received, so no false request survives. And what a pass does
 that nothing disturbs: exactly what the batching loops of the client compute.
 */
module SubscriptionRequests {
  import opened Wrappers
  import opened Ordering
  import opened Subscription
  import opened SubscriptionProtocol

  // ---------------------------------------------------------------------------------------------
  // No false requests
  // ---------------------------------------------------------------------------------------------

  /** Its frame is the next to be sent on this connection. */
  ghost predicate AboutToLeave(s: System, id: nat) {
    && s.holder.Holding? && s.holder.op.Subscribe? && s.holder.flight.Some?
    && s.holder.flight.value.id == id && !s.holder.flight.value.transmitted && s.holder.flight.value.conn == s.net.conn
  }

  ghost predicate OnItsWay(net: Net, id: nat) {
    exists i :: 0 <= i < |net.uplink| && net.uplink[i].Sub? && net.uplink[i].id == id
  }

  ghost predicate AnswerOnItsWay(net: Net, id: nat) {
    exists i :: 0 <= i < |net.downlink| && net.downlink[i].id == id
  }

  /** The request still has something to happen to it that resolves it. */
  ghost predicate AccountedFor(s: System, id: nat) {
    AboutToLeave(s, id) || OnItsWay(s.net, id) || AnswerOnItsWay(s.net, id)
  }

  /** A cancellation before the frame has left gives the lock back but keeps the record. */
  predicate AbandonsRequest(s: System, step: Step) {
    && step.SendCancelled? && Enabled(s, step) && s.holder.op.Subscribe?
    && !s.holder.flight.value.transmitted && s.holder.flight.value.conn == s.net.conn
  }

  function LingeringAfter(s: System, step: Step, lingering: set<nat>): set<nat> {
    if step.Connect? then {}
    else if AbandonsRequest(s, step) then lingering + {s.holder.flight.value.id}
    else lingering
  }

  /** The requests abandoned since the last connection, when `lingering` were before the run. */
  function Lingering(s: System, steps: seq<Step>, b: nat, lingering: set<nat>): set<nat>
    requires b >= 1 && Runs(s, steps, b)
    decreases |steps|
  {
    if steps == [] then lingering
    else Lingering(Apply(s, steps[0], b), steps[1..], b, LingeringAfter(s, steps[0], lingering))
  }

  ghost predicate RequestsAccounted(s: System, lingering: set<nat>) {
    forall id | id in s.client.pending && id !in lingering :: AccountedFor(s, id)
  }

  /** Nobody outside the client has seen the number, and nobody ever will. */
  ghost predicate Unseen(s: System, id: nat) {
    && !OnItsWay(s.net, id)
    && (forall a | a in s.net.issued :: a.id != id)
    && (s.holder.Holding? && s.holder.op.Subscribe? && s.holder.flight.Some? ==> s.holder.flight.value.id != id)
  }

  ghost predicate Linger(s: System, lingering: set<nat>) {
    forall id | id in lingering :: id in s.client.pending && Unseen(s, id)
  }

  lemma TransmitKeepsAccounted(s: System, b: nat, id: nat)
    requires b >= 1 && Enabled(s, Transmit) && AccountedFor(s, id)
    ensures AccountedFor(Apply(s, Transmit, b), id)
  {
    var s' := Apply(s, Transmit, b);
    var n := |s.net.uplink|;
    if AboutToLeave(s, id) {
      assert s'.net.uplink[n] == Sub(id, s.holder.flight.value.batch);
    } else if OnItsWay(s.net, id) {
      var i :| 0 <= i < n && s.net.uplink[i].Sub? && s.net.uplink[i].id == id;
      assert s'.net.uplink[i] == s.net.uplink[i];
    }
  }

  /** An answer takes the place of the frame it answers. */
  lemma AnswerKeepsAccounted(s: System, success: bool, id: nat)
    requires Enabled(s, ExchangeAccepts) && AccountedFor(s, id)
    ensures AccountedFor(AnswerOf(s, success), id)
  {
    var s' := AnswerOf(s, success);
    if OnItsWay(s.net, id) {
      var i :| 0 <= i < |s.net.uplink| && s.net.uplink[i].Sub? && s.net.uplink[i].id == id;
      if i == 0 {
        assert s'.net.downlink[|s.net.downlink|].id == id;
      } else {
        assert s'.net.uplink[i - 1] == s.net.uplink[i];
      }
    } else if AnswerOnItsWay(s.net, id) {
      var i :| 0 <= i < |s.net.downlink| && s.net.downlink[i].id == id;
      assert s'.net.downlink[i] == s.net.downlink[i];
    }
  }

  lemma ExchangeKeepsAccounted(s: System, step: Step, b: nat, id: nat)
    requires b >= 1 && Enabled(s, step) && (step.ExchangeUnsubscribes? || step.ExchangeRepeats?)
    requires AccountedFor(s, id)
    ensures AccountedFor(Apply(s, step, b), id)
  {
    var s' := Apply(s, step, b);
    if OnItsWay(s.net, id) {
      var i :| 0 <= i < |s.net.uplink| && s.net.uplink[i].Sub? && s.net.uplink[i].id == id;
      assert s'.net.uplink[if step.ExchangeUnsubscribes? then i - 1 else i] == s.net.uplink[i];
    } else if AnswerOnItsWay(s.net, id) {
      var i :| 0 <= i < |s.net.downlink| && s.net.downlink[i].id == id;
      assert s'.net.downlink[i] == s.net.downlink[i];
    }
  }

  /** The answer received resolves its request; the others wait for theirs. */
  lemma ReceiveKeepsAccounted(s: System, b: nat, id: nat)
    requires b >= 1 && Enabled(s, Receive) && AccountedFor(s, id)
    requires id in Apply(s, Receive, b).client.pending
    ensures AccountedFor(Apply(s, Receive, b), id)
  {
    var s' := Apply(s, Receive, b);
    if AnswerOnItsWay(s.net, id) {
      var i :| 0 <= i < |s.net.downlink| && s.net.downlink[i].id == id;
      assert s.net.downlink[0].id != id;
      assert s'.net.downlink[i - 1] == s.net.downlink[i];
    }
  }

  /** A send that ends without a cancellation leaves no record of a frame that never left. */
  lemma SendEndsKeepsAccounted(s: System, step: Step, b: nat, id: nat)
    requires b >= 1 && Enabled(s, step) && (step.SendReturns? || step.SendFails? || step.SendCancelled?)
    requires AccountedFor(s, id) && !(AbandonsRequest(s, step) && s.holder.flight.value.id == id)
    requires id in Apply(s, step, b).client.pending
    ensures AccountedFor(Apply(s, step, b), id)
  {
    var s' := Apply(s, step, b);
    assert s'.net == s.net && !AboutToLeave(s, id);
  }

  lemma BeginBatchKeepsAccounted(s: System, b: nat, lingering: set<nat>)
    requires b >= 1 && Enabled(s, BeginBatch) && RequestsAccounted(s, lingering)
    ensures RequestsAccounted(Apply(s, BeginBatch, b), lingering)
  {
    var s' := Apply(s, BeginBatch, b);
    assert s'.net == s.net;
    forall id | id in s'.client.pending && id !in lingering ensures AccountedFor(s', id) {
      if id !in s.client.pending || id == s.client.sequence + 1 {
        assert AboutToLeave(s', id) || id in s.client.pending;
      }
    }
  }

  lemma StepKeepsAccounted(s: System, step: Step, b: nat, lingering: set<nat>)
    requires b >= 1 && Enabled(s, step) && RequestsAccounted(s, lingering)
    ensures RequestsAccounted(Apply(s, step, b), LingeringAfter(s, step, lingering))
  {
    var s' := Apply(s, step, b);
    if step.BeginBatch? {
      BeginBatchKeepsAccounted(s, b, lingering);
    } else {
      forall id | id in s'.client.pending && id !in LingeringAfter(s, step, lingering) ensures AccountedFor(s', id) {
        assert id in s.client.pending && AccountedFor(s, id);
        match step
        case Transmit => TransmitKeepsAccounted(s, b, id);
        case SendReturns => SendEndsKeepsAccounted(s, step, b, id);
        case SendFails => SendEndsKeepsAccounted(s, step, b, id);
        case SendCancelled => SendEndsKeepsAccounted(s, step, b, id);
        case ExchangeAccepts => AnswerKeepsAccounted(s, true, id);
        case ExchangeRejects => AnswerKeepsAccounted(s, false, id);
        case ExchangeUnsubscribes => ExchangeKeepsAccounted(s, step, b, id);
        case ExchangeRepeats(_) => ExchangeKeepsAccounted(s, step, b, id);
        case Receive => ReceiveKeepsAccounted(s, b, id);
        case Connect =>
        case BeginBatch =>
        case _ => assert s'.net == s.net;
      }
    }
  }

  lemma OthersKeepUnseen(s: System, step: Step, b: nat, id: nat)
    requires b >= 1 && Inv(s, b) && Enabled(s, step) && !step.Connect? && !AbandonsRequest(s, step)
    requires id in s.client.pending && Unseen(s, id)
    ensures id in Apply(s, step, b).client.pending && Unseen(Apply(s, step, b), id)
  {
    var s' := Apply(s, step, b);
    if step.Receive? { assert s.net.downlink[0] in s.net.issued; }
    forall i | 0 <= i < |s'.net.uplink| ensures !(s'.net.uplink[i].Sub? && s'.net.uplink[i].id == id) {
      if step.ExchangeAccepts? || step.ExchangeRejects? || step.ExchangeUnsubscribes? {
        assert s'.net.uplink[i] == s.net.uplink[i + 1];
      } else if i < |s.net.uplink| {
        assert s'.net.uplink[i] == s.net.uplink[i];
      }
    }
    if step.ExchangeAccepts? || step.ExchangeRejects? { assert s.net.uplink[0].id != id; }
  }

  /** The number of a frame that never left is unknown to everybody. */
  lemma AbandonedIsUnseen(s: System, b: nat)
    requires b >= 1 && FlightFresh(s) && Enabled(s, SendCancelled) && AbandonsRequest(s, SendCancelled)
    ensures var s' := Apply(s, SendCancelled, b);
            s.holder.flight.value.id in s'.client.pending && Unseen(s', s.holder.flight.value.id)
  {
  }

  lemma StepKeepsLingering(s: System, step: Step, b: nat, lingering: set<nat>)
    requires b >= 1 && Inv(s, b) && FlightFresh(s) && Enabled(s, step) && Linger(s, lingering)
    ensures Linger(Apply(s, step, b), LingeringAfter(s, step, lingering))
  {
    if AbandonsRequest(s, step) {
      AbandonedIsUnseen(s, b);
      var s' := Apply(s, step, b);
      forall id | id in lingering ensures id in s'.client.pending && Unseen(s', id) { assert Unseen(s, id); }
    } else if !step.Connect? {
      forall id | id in lingering ensures id in Apply(s, step, b).client.pending && Unseen(Apply(s, step, b), id) {
        OthersKeepUnseen(s, step, b, id);
      }
    }
  }

  lemma {:induction false} RunKeepsRequests(s: System, steps: seq<Step>, b: nat, lingering: set<nat>)
    requires b >= 1 && Runs(s, steps, b) && Inv(s, b) && ExactInv(s)
    requires RequestsAccounted(s, lingering) && Linger(s, lingering)
    ensures RequestsAccounted(After(s, steps, b), Lingering(s, steps, b, lingering))
    ensures Linger(After(s, steps, b), Lingering(s, steps, b, lingering))
    decreases |steps|
  {
    if steps == [] {
    } else {
      StepKeepsInv(s, steps[0], b);
      StepKeepsExactInv(s, steps[0], b);
      StepKeepsAccounted(s, steps[0], b, lingering);
      StepKeepsLingering(s, steps[0], b, lingering);
      RunKeepsRequests(Apply(s, steps[0], b), steps[1..], b, LingeringAfter(s, steps[0], lingering));
    }
  }

  /**
   After any run, failed sends and reconnections in the middle of a pass included, an outstanding request
   has something to happen that resolves it if and only if its send was not cancelled before its frame left
   on this connection. Once a connection is quiet, exactly the requests so abandoned are outstanding.
   */
  lemma RequestsExactly(steps: seq<Step>, b: nat)
    requires b >= 1 && Runs(Start, steps, b)
    ensures var s, lingering := After(Start, steps, b), Lingering(Start, steps, b, {});
            && lingering <= s.client.pending.Keys
            && (forall id | id in s.client.pending :: AccountedFor(s, id) <==> id !in lingering)
            && (s.holder.Free? && s.net.uplink == [] && s.net.downlink == [] ==> s.client.pending.Keys == lingering)
  {
    ReachableInv(steps, b);
    RunKeepsRequests(Start, steps, b, {});
    var s, lingering := After(Start, steps, b), Lingering(Start, steps, b, {});
    forall id | id in lingering ensures !AccountedFor(s, id) {
      assert Unseen(s, id);
      assert forall i | 0 <= i < |s.net.downlink| :: s.net.downlink[i] in s.net.issued;
    }
  }

  /** On a quiet connection with nothing abandoned, a pass asks for every wanted symbol that is not confirmed. */
  lemma NoFalseRequests(steps: seq<Step>, b: nat)
    requires b >= 1 && Runs(Start, steps, b) && Lingering(Start, steps, b, {}) == {}
    ensures var s := After(Start, steps, b);
            s.holder.Free? && s.net.uplink == [] && s.net.downlink == [] ==>
              s.client.pending == map[] && Missing(s.client) == s.client.desired - s.client.subscribed
  {
    RequestsExactly(steps, b);
    var s := After(Start, steps, b);
    if s.client.pending.Keys == {} {
      assert s.client.pending == map[];
      assert PendingSymbols(s.client.pending) == {};
    }
  }

  const AbandonA: seq<Step> := [BeginBatch] + ([SendCancelled] + [])

  /** A cancellation in time leaves a request nobody will ever answer; only a timeout or a reconnection ends it. */
  lemma CancelledRequestLingers()
    ensures Runs(Start, RequestA + AbandonA, 1)
    ensures var s := After(Start, RequestA + AbandonA, 1);
            && s.holder.Free? && s.listening && s.net.uplink == [] && s.net.downlink == []
            && "A" in s.client.desired && "A" !in s.client.subscribed && "A" !in Missing(s.client)
  {
    RequestARuns();
    var s1 := Apply(PlannedA, BeginBatch, 1);
    assert PlannedA.holder.rest[..1] == ["A"] && PlannedA.holder.rest[1..] == [];
    assert s1.client.pending == map[1 := ["A"]];
    var s2 := Apply(s1, SendCancelled, 1);
    assert s2.client == s1.client;
    assert "A" in s2.client.pending[1];
    RunPrepends(s1, SendCancelled, [], 1);
    RunPrepends(PlannedA, BeginBatch, [SendCancelled] + [], 1);
    RunsJoin(Start, RequestA, AbandonA, 1);
  }

  // ---------------------------------------------------------------------------------------------
  // Undisturbed passes
  // ---------------------------------------------------------------------------------------------

  /** The steps of a pass in which every send succeeds and nothing else happens. */
  function PassSteps(rest: seq<Symbol>, b: nat): seq<Step>
    requires b >= 1
    decreases |rest|
  {
    if rest == [] then []
      else [BeginBatch] + ([Transmit] + ([SendReturns] + PassSteps(rest[BatchLength(|rest|, b)..], b)))
  }

  /** The state after one batch of it. */
  function BatchSent(s: System, b: nat): System
    requires b >= 1 && s.holder.Holding? && s.holder.rest != []
  {
    var k := BatchLength(|s.holder.rest|, b);
    var batch, rest := s.holder.rest[..k], s.holder.rest[k..];
    if s.holder.op.Subscribe? then
      s.(client := Register(s.client, batch), holder := Hold(Subscribe, rest),
         net := s.net.(uplink := s.net.uplink + [Sub(s.client.sequence + 1, batch)]))
    else
      s.(client := s.client.(subscribed := s.client.subscribed - Elements(batch)), holder := Hold(Unsubscribe, rest),
         net := s.net.(uplink := s.net.uplink + [Unsub(batch)]), orphaned := s.orphaned - Elements(batch))
  }

  lemma OneBatch(s: System, more: seq<Step>, b: nat)
    requires b >= 1 && s.socketOpen && s.holder.Holding? && s.holder.flight.None? && s.holder.rest != []
    requires Runs(BatchSent(s, b), more, b)
    ensures Runs(s, [BeginBatch] + ([Transmit] + ([SendReturns] + more)), b)
    ensures After(s, [BeginBatch] + ([Transmit] + ([SendReturns] + more)), b) == After(BatchSent(s, b), more, b)
  {
    var s1 := Apply(s, BeginBatch, b);
    var s2 := Apply(s1, Transmit, b);
    assert Apply(s2, SendReturns, b) == BatchSent(s, b);
    RunPrepends(s2, SendReturns, more, b);
    RunPrepends(s1, Transmit, [SendReturns] + more, b);
    RunPrepends(s, BeginBatch, [Transmit] + ([SendReturns] + more), b);
  }

  /** An undisturbed subscribe pass ends with the client and the frames of the batching loop. */
  lemma {:induction false} UndisturbedSubscribePass(s: System, rest: seq<Symbol>, b: nat)
    requires b >= 1 && s.socketOpen && s.holder == Hold(Subscribe, rest)
    ensures Runs(s, PassSteps(rest, b), b)
    ensures After(s, PassSteps(rest, b), b) ==
            s.(client := SendSubscribes(s.client, rest, b), holder := Free,
               net := s.net.(uplink := s.net.uplink + SubscribeFrames(s.client.sequence + 1, rest, b)))
    decreases |rest|
  {
    if rest == [] {
      assert s.net.uplink + [] == s.net.uplink;
    } else {
      var k := BatchLength(|rest|, b);
      var s' := BatchSent(s, b);
      UndisturbedSubscribePass(s', rest[k..], b);
      OneBatch(s, PassSteps(rest[k..], b), b);
      assert s'.net.uplink + SubscribeFrames(s'.client.sequence + 1, rest[k..], b)
          == s.net.uplink + SubscribeFrames(s.client.sequence + 1, rest, b);
    }
  }

  lemma DropInParts(x: set<Symbol>, symbols: seq<Symbol>, k: nat)
    requires k <= |symbols|
    ensures x - Elements(symbols) == x - Elements(symbols[..k]) - Elements(symbols[k..])
  {
    assert symbols == symbols[..k] + symbols[k..];
  }

  lemma {:induction false} UndisturbedUnsubscribePass(s: System, rest: seq<Symbol>, b: nat)
    requires b >= 1 && s.socketOpen && s.holder == Hold(Unsubscribe, rest)
    ensures Runs(s, PassSteps(rest, b), b)
    ensures After(s, PassSteps(rest, b), b) ==
            s.(client := s.client.(subscribed := s.client.subscribed - Elements(rest)), holder := Free,
               net := s.net.(uplink := s.net.uplink + UnsubscribeFrames(rest, b)),
                 orphaned := s.orphaned - Elements(rest))
    decreases |rest|
  {
    if rest == [] {
      assert s.net.uplink + [] == s.net.uplink;
      assert s.client.subscribed - Elements(rest) == s.client.subscribed && s.orphaned - Elements(rest) == s.orphaned;
    } else {
      var k := BatchLength(|rest|, b);
      var s' := BatchSent(s, b);
      UndisturbedUnsubscribePass(s', rest[k..], b);
      OneBatch(s, PassSteps(rest[k..], b), b);
      DropInParts(s.client.subscribed, rest, k);
      DropInParts(s.orphaned, rest, k);
      assert s'.net.uplink + UnsubscribeFrames(rest[k..], b) == s.net.uplink + UnsubscribeFrames(rest, b);
    }
  }

  /** The two halves of one reconciliation as the tasks perform it when nothing disturbs them. */
  function AskSteps(c: Client, wanted: set<Symbol>, b: nat): seq<Step>
    requires b >= 1
  {
    [SetDesired(wanted)] + ([AcquireSubscribe] + PassSteps(SortedSet(Missing(c.(desired := wanted))), b))
  }

  function DropSteps(c: Client, symbols: set<Symbol>, b: nat): seq<Step>
    requires b >= 1
  {
    [AcquireUnsubscribe(symbols)] + PassSteps(SortedSet(symbols * c.subscribed), b)
  }

  lemma UndisturbedAsk(s: System, wanted: set<Symbol>, b: nat)
    requires b >= 1 && s.socketOpen && s.holder.Free?
    ensures var c1 := s.client.(desired := wanted);
            var asks := SortedSet(Missing(c1));
            && Runs(s, AskSteps(s.client, wanted, b), b)
            && After(s, AskSteps(s.client, wanted, b), b) ==
               s.(client := SendSubscribes(c1, asks, b),
                  net := s.net.(uplink := s.net.uplink + SubscribeFrames(s.client.sequence + 1, asks, b)))
  {
    var s1 := Apply(s, SetDesired(wanted), b);
    var asks := SortedSet(Missing(s1.client));
    var s2 := Apply(s1, AcquireSubscribe, b);
    UndisturbedSubscribePass(s2, asks, b);
    RunPrepends(s1, AcquireSubscribe, PassSteps(asks, b), b);
    RunPrepends(s, SetDesired(wanted), [AcquireSubscribe] + PassSteps(asks, b), b);
  }

  lemma UndisturbedDrop(s: System, symbols: set<Symbol>, b: nat)
    requires b >= 1 && s.socketOpen && s.holder.Free?
    ensures var drops := SortedSet(symbols * s.client.subscribed);
            && Runs(s, DropSteps(s.client, symbols, b), b)
            && After(s, DropSteps(s.client, symbols, b), b) ==
               s.(client := s.client.(subscribed := s.client.subscribed - Elements(drops)),
                  net := s.net.(uplink := s.net.uplink + UnsubscribeFrames(drops, b)),
                    orphaned := s.orphaned - Elements(drops))
  {
    var drops := SortedSet(symbols * s.client.subscribed);
    var s1 := Apply(s, AcquireUnsubscribe(symbols), b);
    UndisturbedUnsubscribePass(s1, drops, b);
    RunPrepends(s, AcquireUnsubscribe(symbols), PassSteps(drops, b), b);
  }

  /** What the two halves leave, put together. */
  lemma HalvesMakeSync(c: Client, wanted: set<Symbol>, b: nat, c2: Client)
    requires b >= 1
    requires var c1 := c.(desired := wanted); c2 == SendSubscribes(c1, SortedSet(Missing(c1)), b)
    ensures var drops := SortedSet((c.subscribed - wanted) * c2.subscribed);
            && c2.(subscribed := c2.subscribed - Elements(drops)) == Synced(c, wanted, b)
            && drops == SortedSet(c.subscribed - wanted)
  {
    var c1 := c.(desired := wanted);
    SendSubscribesKeep(c1, SortedSet(Missing(c1)), b);
    assert (c.subscribed - wanted) * c2.subscribed == c.subscribed - wanted;
    assert c.subscribed - (c.subscribed - wanted) == c.subscribed * wanted;
  }

  function SyncSteps(c: Client, wanted: set<Symbol>, b: nat): seq<Step>
    requires b >= 1
  {
    var c1 := c.(desired := wanted);
    AskSteps(c, wanted, b) +
    DropSteps(SendSubscribes(c1, SortedSet(Missing(c1)), b), c.subscribed - wanted, b)
  }

  /**
   From any state with an open connection and a free lock, an undisturbed reconciliation is a run of the
   protocol, and it ends with the client and the frames that the client in place computes.
   */
  lemma UndisturbedSync(s: System, wanted: set<Symbol>, b: nat)
    requires b >= 1 && s.socketOpen && s.holder.Free?
    ensures var steps := SyncSteps(s.client, wanted, b);
            Runs(s, steps, b) && Reaches(s, steps, b, Synced(s.client, wanted, b), SyncFrames(s.client, wanted, b))
  {
    var stale := s.client.subscribed - wanted;
    UndisturbedAsk(s, wanted, b);
    var first := AskSteps(s.client, wanted, b);
    var s1 := After(s, first, b);
    UndisturbedDrop(s1, stale, b);
    SyncEnds(s, wanted, b, s1);
    RunsJoin(s, first, DropSteps(s1.client, stale, b), b);
  }

  /** What the second half makes of the state the first half has left. */
  lemma SyncEnds(s: System, wanted: set<Symbol>, b: nat, s1: System)
    requires b >= 1
    requires var asks := SortedSet(Missing(s.client.(desired := wanted)));
             s1 == s.(client := SendSubscribes(s.client.(desired := wanted), asks, b),
                      net := s.net.(uplink := s.net.uplink + SubscribeFrames(s.client.sequence + 1, asks, b)))
    ensures var drops := SortedSet((s.client.subscribed - wanted) * s1.client.subscribed);
            && s1.client.(subscribed := s1.client.subscribed - Elements(drops)) == Synced(s.client, wanted, b)
            && s1.net.uplink + UnsubscribeFrames(drops, b) == s.net.uplink + SyncFrames(s.client, wanted, b)
  {
    HalvesMakeSync(s.client, wanted, b, s1.client);
    QueueJoins(s.client, wanted, b, s.net.uplink);
  }

  lemma QueueJoins(c: Client, wanted: set<Symbol>, b: nat, uplink: seq<Frame>)
    requires b >= 1
    ensures var asked := SubscribeFrames(c.sequence + 1, SortedSet(Missing(c.(desired := wanted))), b);
            var dropped := UnsubscribeFrames(SortedSet(c.subscribed - wanted), b);
            uplink + asked + dropped == uplink + SyncFrames(c, wanted, b)
  {
    var asked := SubscribeFrames(c.sequence + 1, SortedSet(Missing(c.(desired := wanted))), b);
    var dropped := UnsubscribeFrames(SortedSet(c.subscribed - wanted), b);
    assert uplink + asked + dropped == uplink + (asked + dropped);
  }

  /** The run ends with this client, a free lock, and just these frames added to the queue. */
  ghost predicate Reaches(s: System, steps: seq<Step>, b: nat, client: Client, frames: seq<Frame>)
    requires b >= 1 && Runs(s, steps, b)
  {
    var r := After(s, steps, b);
    r.client == client && r.holder.Free? && r.socketOpen && r.listening == s.listening
    && r.net == s.net.(uplink := s.net.uplink + frames)
  }
}
