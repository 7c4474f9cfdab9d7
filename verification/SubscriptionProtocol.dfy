/**
 The subscription protocol of one stream: the client, the task that holds the subscription lock, the
 channels of the current connection and the exchange's session on it. A step is what happens between two
 suspension points of any activity, so a run is any interleaving of subscribe and unsubscribe passes,
 answers, changes of the wanted set, failed and cancelled sends, disconnections and reconnections.
 */
module SubscriptionProtocol {
  import opened Wrappers
  import opened Ordering
  import opened Subscription

  datatype Op = Subscribe | Unsubscribe

  /** The send the lock holder is suspended in; `conn` is the connection whose socket it uses. */
  datatype Flight = Flight(id: nat, batch: seq<Symbol>, conn: nat, transmitted: bool)

  /** The subscription lock: free, or held by a pass with the rest of its list still to send. */
  datatype Holder = Free | Holding(op: Op, rest: seq<Symbol>, flight: Option<Flight>)

  /** The current connection: one queue a direction, and what the exchange did on it. */
  datatype Net = Net(
    conn: nat,
    uplink: seq<Frame>,
    downlink: seq<Ack>,
    session: set<Symbol>,
    accepted: set<Frame>,
    issued: set<Ack>)

  /**
   `socketOpen` is whether the client still has a socket object and `listening` whether its receive loop
   runs. `orphaned` records the symbols whose unsubscribe frame left on this connection although the send
   ended in an error or a cancellation.
   */
  datatype System = System(
    client: Client,
    holder: Holder,
    socketOpen: bool,
    listening: bool,
    net: Net,
    orphaned: set<Symbol>)

  datatype Step =
    | SetDesired(symbols: set<Symbol>)
    | AcquireSubscribe
    | AcquireUnsubscribe(symbols: set<Symbol>)
    | BeginBatch
    | Transmit
    | SendReturns
    | SendFails
    | SendCancelled
    | ExchangeAccepts
    | ExchangeRejects
    | ExchangeUnsubscribes
    | ExchangeRepeats(ack: Ack)
    | Receive
    | StopListening
    | DropSocket
    | Connect

  const Start := System(NewClient, Free, false, false, Net(0, [], [], {}, {}, {}), {})

  predicate Enabled(s: System, step: Step) {
    match step
    case SetDesired(_) => true
    case AcquireSubscribe => s.holder.Free?
    case AcquireUnsubscribe(_) => s.holder.Free?
    case BeginBatch => s.holder.Holding? && s.holder.flight.None? && s.holder.rest != []
    case Transmit => s.holder.Holding? && s.holder.flight.Some? && !s.holder.flight.value.transmitted
    case SendReturns => s.holder.Holding? && s.holder.flight.Some? && s.holder.flight.value.transmitted
    case SendFails => s.holder.Holding? && s.holder.flight.Some?
    case SendCancelled => s.holder.Holding? && s.holder.flight.Some?
    case ExchangeAccepts => s.net.uplink != [] && s.net.uplink[0].Sub?
    case ExchangeRejects => s.net.uplink != [] && s.net.uplink[0].Sub?
    case ExchangeUnsubscribes => s.net.uplink != [] && s.net.uplink[0].Unsub?
    case ExchangeRepeats(ack) => ack in s.net.issued
    case Receive => s.listening && s.net.downlink != []
    case StopListening => s.listening
    case DropSocket => true
    case Connect => !s.listening && !s.socketOpen
  }

  /** A pass that found nothing to send gives the lock back at once. */
  function Hold(op: Op, rest: seq<Symbol>): Holder {
    if rest == [] then Free else Holding(op, rest, None)
  }

  /** The next batch is taken off the list, and a subscribe batch is recorded before its frame leaves. */
  function BeginBatchOf(s: System, b: nat): System
    requires Enabled(s, BeginBatch) && b >= 1
  {
    var k := BatchLength(|s.holder.rest|, b);
    var batch, rest := s.holder.rest[..k], s.holder.rest[k..];
    if s.holder.op.Subscribe? then
      var c := Register(s.client, batch);
      if s.socketOpen then
        s.(client := c, holder := Holding(Subscribe, rest, Some(Flight(c.sequence, batch, s.net.conn, false))))
      else
        s.(client := RollBack(c, c.sequence), holder := Free)
    else if s.socketOpen then
      s.(holder := Holding(Unsubscribe, rest, Some(Flight(0, batch, s.net.conn, false))))
    else
      s.(holder := Free)
  }

  /** The frame enters the queue of the connection it was sent on; a closed connection swallows it. */
  function TransmitOf(s: System): System
    requires Enabled(s, Transmit)
  {
    var f := s.holder.flight.value;
    var frame := if s.holder.op.Subscribe? then Sub(f.id, f.batch) else Unsub(f.batch);
    var s' := s.(holder := s.holder.(flight := Some(f.(transmitted := true))));
    if f.conn == s.net.conn then s'.(net := s.net.(uplink := s.net.uplink + [frame])) else s'
  }

  function SendReturnsOf(s: System): System
    requires Enabled(s, SendReturns)
  {
    var f := s.holder.flight.value;
    var s' := s.(holder := Hold(s.holder.op, s.holder.rest));
    if s.holder.op.Subscribe? then s'
    else s'.(client := s.client.(subscribed := s.client.subscribed - Elements(f.batch)),
             orphaned := s.orphaned - Elements(f.batch))
  }

  /** What an abandoned unsubscribe leaves behind: confirmed symbols whose frame is on its way. */
  function Strays(s: System): set<Symbol>
    requires Enabled(s, SendFails)
  {
    var f := s.holder.flight.value;
    if s.holder.op.Unsubscribe? && f.transmitted && f.conn == s.net.conn
    then Elements(f.batch) * s.client.subscribed else {}
  }

  /** An error rolls the record of a subscribe batch back; a cancellation leaves it. */
  function SendEndsOf(s: System, rollBack: bool): System
    requires Enabled(s, SendFails)
  {
    var s' := s.(holder := Free, orphaned := s.orphaned + Strays(s));
    if rollBack && s.holder.op.Subscribe?
    then s'.(client := RollBack(s.client, s.holder.flight.value.id)) else s'
  }

  function AnswerOf(s: System, success: bool): System
    requires Enabled(s, ExchangeAccepts)
  {
    var frame := s.net.uplink[0];
    var ack := Ack(frame.id, success);
    var net := s.net.(uplink := s.net.uplink[1..], downlink := s.net.downlink + [ack], issued := s.net.issued + {ack});
    if success then
      s.(net := net.(session := net.session + Elements(frame.symbols), accepted := net.accepted + {frame}))
    else s.(net := net)
  }

  /** A rejection of an outstanding request ends the receive loop. */
  function ReceiveOf(s: System): System
    requires Enabled(s, Receive)
  {
    var ack := s.net.downlink[0];
    var s' := s.(net := s.net.(downlink := s.net.downlink[1..]));
    if ack.id !in s.client.pending then s'
    else if ack.success then s'.(client := Confirm(s.client, ack.id))
    else s'.(client := RollBack(s.client, ack.id), listening := false)
  }

  function Apply(s: System, step: Step, b: nat): System
    requires Enabled(s, step) && b >= 1
  {
    match step
    case SetDesired(symbols) => s.(client := s.client.(desired := symbols))
    case AcquireSubscribe => s.(holder := Hold(Subscribe, SortedSet(Missing(s.client))))
    case AcquireUnsubscribe(symbols) => s.(holder := Hold(Unsubscribe, SortedSet(symbols * s.client.subscribed)))
    case BeginBatch => BeginBatchOf(s, b)
    case Transmit => TransmitOf(s)
    case SendReturns => SendReturnsOf(s)
    case SendFails => SendEndsOf(s, true)
    case SendCancelled => SendEndsOf(s, false)
    case ExchangeAccepts => AnswerOf(s, true)
    case ExchangeRejects => AnswerOf(s, false)
    case ExchangeUnsubscribes =>
      s.(net := s.net.(uplink := s.net.uplink[1..], session := s.net.session - Elements(s.net.uplink[0].symbols)))
    case ExchangeRepeats(ack) => s.(net := s.net.(downlink := s.net.downlink + [ack]))
    case Receive => ReceiveOf(s)
    case StopListening => s.(listening := false)
    case DropSocket => s.(socketOpen := false)
    case Connect =>
      System(Reset(s.client), s.holder, true, true, Net(s.net.conn + 1, [], [], {}, {}, {}), {})
  }

  /** `steps` can be taken one after another from `s`. */
  predicate Runs(s: System, steps: seq<Step>, b: nat)
    requires b >= 1
    decreases |steps|
  {
    steps == [] || (Enabled(s, steps[0]) && Runs(Apply(s, steps[0], b), steps[1..], b))
  }

  function After(s: System, steps: seq<Step>, b: nat): System
    requires b >= 1 && Runs(s, steps, b)
    decreases |steps|
  {
    if steps == [] then s else After(Apply(s, steps[0], b), steps[1..], b)
  }

  // ---------------------------------------------------------------------------------------------
  // The invariant
  // ---------------------------------------------------------------------------------------------

  /** Every number in use was handed out already. */
  ghost predicate IdsHandedOut(s: System) {
    var n := s.client.sequence;
    && (forall id | id in s.client.pending :: id <= n)
    && (s.holder.Holding? && s.holder.flight.Some? ==> s.holder.flight.value.id <= n)
    && (forall i | 0 <= i < |s.net.uplink| :: s.net.uplink[i].Sub? ==> s.net.uplink[i].id <= n)
    && (forall a | a in s.net.issued :: a.id <= n)
  }

  ghost predicate BatchSizes(s: System, b: nat) {
    forall id | id in s.client.pending :: 1 <= |s.client.pending[id]| <= b
  }

  /** Outstanding batches, confirmed symbols and the unsent part of a subscribe pass are pairwise disjoint. */
  ghost predicate Disjoint(s: System) {
    && (forall id, x | id in s.client.pending && x in s.client.pending[id] :: x !in s.client.subscribed)
    && (forall id, jd, x | id in s.client.pending && jd in s.client.pending && x in s.client.pending[id]
       && x in s.client.pending[jd]
          :: id == jd)
    && (s.holder.Holding? ==> NoDuplicates(s.holder.rest))
    && (s.holder.Holding? && s.holder.op.Subscribe? ==>
          forall x | x in s.holder.rest ::
            x !in s.client.subscribed && (forall id | id in s.client.pending :: x !in s.client.pending[id]))
  }

  /** While an unsubscribe pass holds the lock, nothing it drops is being requested. */
  ghost predicate DropsUnrequested(s: System) {
    s.holder.Holding? && s.holder.op.Unsubscribe? ==>
      forall id, x | id in s.client.pending && x in s.client.pending[id] ::
        x !in s.holder.rest && (s.holder.flight.Some? ==> x !in s.holder.flight.value.batch)
  }

  /** What is in the air carries the batch that was recorded for it. */
  ghost predicate InTheAir(s: System) {
    var p := s.client.pending;
    && (s.holder.Holding? && s.holder.op.Subscribe? && s.holder.flight.Some? && s.holder.flight.value.id in p ==>
          p[s.holder.flight.value.id] == s.holder.flight.value.batch)
    && (forall i | 0 <= i < |s.net.uplink| ::
          s.net.uplink[i].Sub? && s.net.uplink[i].id in p ==> p[s.net.uplink[i].id] == s.net.uplink[i].symbols)
  }

  /** No unsubscribe of its symbols travels behind an outstanding request. */
  ghost predicate RequestsLast(s: System) {
    forall i, j | 0 <= i < j < |s.net.uplink| ::
      s.net.uplink[i].Sub? && s.net.uplink[i].id in s.client.pending && s.net.uplink[j].Unsub? ==>
        forall x | x in s.net.uplink[i].symbols :: x !in s.net.uplink[j].symbols
  }

  /** The exchange serves `x` and nothing on its way will end that. */
  ghost predicate Served(net: Net, x: Symbol) {
    x in net.session && forall i | 0 <= i < |net.uplink| :: net.uplink[i].Unsub? ==> x !in net.uplink[i].symbols
  }

  /** A positive answer to an outstanding request is backed by the exchange. */
  ghost predicate AnswersBacked(s: System) {
    && (forall i | 0 <= i < |s.net.downlink| :: s.net.downlink[i] in s.net.issued)
    && (forall a | a in s.net.issued && a.success && a.id in s.client.pending ::
          && Sub(a.id, s.client.pending[a.id]) in s.net.accepted
          && forall x | x in s.client.pending[a.id] :: Served(s.net, x))
  }

  /** The batch whose unsubscribe frame has left while its send has not returned. */
  function BeingDropped(s: System): set<Symbol> {
    if s.holder.Holding? && s.holder.op.Unsubscribe? && s.holder.flight.Some?
       && s.holder.flight.value.transmitted && s.holder.flight.value.conn == s.net.conn
    then Elements(s.holder.flight.value.batch) else {}
  }

  ghost predicate Agreement(s: System) {
    forall x | x in s.client.subscribed && x !in s.orphaned && x !in BeingDropped(s) :: Served(s.net, x)
  }

  ghost predicate SessionAccepted(s: System) {
    && (forall f | f in s.net.accepted :: f.Sub?)
    && (forall x | x in s.net.session :: exists f :: f in s.net.accepted && x in f.symbols)
    && s.orphaned <= s.client.subscribed
  }

  /** The part of the invariant that speaks of the client alone. */
  ghost predicate ClientInv(s: System, b: nat) {
    IdsHandedOut(s) && BatchSizes(s, b) && Disjoint(s) && DropsUnrequested(s)
  }

  /** The part that ties the client to the channels. */
  ghost predicate NetInv(s: System) {
    InTheAir(s) && RequestsLast(s) && AnswersBacked(s) && Agreement(s) && SessionAccepted(s)
  }

  ghost predicate Inv(s: System, b: nat) {
    ClientInv(s, b) && NetInv(s)
  }

  lemma SortedMembers(x: Symbol, s: set<Symbol>)
    ensures x in SortedSet(s) <==> x in s
  {
    assert x in Elements(SortedSet(s)) <==> x in s;
  }

  lemma KeepsAcquire(s: System, step: Step, b: nat)
    requires b >= 1 && Inv(s, b) && Enabled(s, step)
    requires step.SetDesired? || step.AcquireSubscribe? || step.AcquireUnsubscribe?
    ensures Inv(Apply(s, step, b), b)
  {
    if step.AcquireSubscribe? {
      var missing := Missing(s.client);
      forall x | x in SortedSet(missing)
        ensures x !in s.client.subscribed && forall id | id in s.client.pending :: x !in s.client.pending[id]
      {
        SortedMembers(x, missing);
        forall id | id in s.client.pending ensures x !in s.client.pending[id] {
          assert x in s.client.pending[id] ==> x in PendingSymbols(s.client.pending);
        }
      }
    } else if step.AcquireUnsubscribe? {
      forall x | x in SortedSet(step.symbols * s.client.subscribed) ensures x in s.client.subscribed {
        SortedMembers(x, step.symbols * s.client.subscribed);
      }
    }
  }

  lemma BeginBatchKeepsClient(s: System, b: nat)
    requires b >= 1 && ClientInv(s, b) && Enabled(s, BeginBatch)
    ensures ClientInv(Apply(s, BeginBatch, b), b)
  {
    var s' := Apply(s, BeginBatch, b);
    BeginBatchKeepsDisjoint(s, b);
    var k := BatchLength(|s.holder.rest|, b);
    assert forall x | x in s.holder.rest[..k] :: x in s.holder.rest;
    assert forall x | x in s.holder.rest[k..] :: x in s.holder.rest;
    assert IdsHandedOut(s') && BatchSizes(s', b) && DropsUnrequested(s');
  }

  lemma BeginBatchKeepsDisjoint(s: System, b: nat)
    requires b >= 1 && ClientInv(s, b) && Enabled(s, BeginBatch)
    ensures Disjoint(Apply(s, BeginBatch, b))
  {
    var s' := Apply(s, BeginBatch, b);
    var k := BatchLength(|s.holder.rest|, b);
    var batch, rest := s.holder.rest[..k], s.holder.rest[k..];
    var n := s.client.sequence + 1;
    forall x | x in batch ensures x in s.holder.rest && x !in rest {}
    forall x | x in rest ensures x in s.holder.rest {}
    forall id | id in s'.client.pending
      ensures (id in s.client.pending && s'.client.pending[id] == s.client.pending[id])
              || (id == n && s'.client.pending[id] == batch && s.holder.op.Subscribe?)
    {}
    assert s'.client.subscribed == s.client.subscribed;
  }

  lemma BeginBatchKeepsNet(s: System, b: nat)
    requires b >= 1 && Inv(s, b) && Enabled(s, BeginBatch)
    ensures NetInv(Apply(s, BeginBatch, b))
  {
  }

  lemma TransmitKeepsClient(s: System, b: nat)
    requires b >= 1 && ClientInv(s, b) && Enabled(s, Transmit)
    ensures ClientInv(Apply(s, Transmit, b), b)
  {
    var s' := Apply(s, Transmit, b);
    assert s'.client == s.client && s'.holder.rest == s.holder.rest;
    assert forall i | 0 <= i < |s'.net.uplink| && s'.net.uplink[i].Sub? :: s'.net.uplink[i].id <= s.client.sequence;
  }

  lemma TransmitKeepsNet(s: System, b: nat)
    requires b >= 1 && Inv(s, b) && Enabled(s, Transmit)
    ensures NetInv(Apply(s, Transmit, b))
  {
    var s' := Apply(s, Transmit, b);
    forall x | Served(s.net, x) && x !in BeingDropped(s') ensures Served(s'.net, x) {}
    if s.holder.op.Unsubscribe? && s.holder.flight.value.conn == s.net.conn {
      forall a, x | a in s.net.issued && a.success && a.id in s.client.pending && x in s.client.pending[a.id]
        ensures Served(s'.net, x)
      {
        assert Served(s.net, x);
      }
    }
  }

  lemma SendEndsKeepsClient(s: System, step: Step, b: nat)
    requires b >= 1 && ClientInv(s, b) && Enabled(s, step)
    requires step.SendReturns? || step.SendFails? || step.SendCancelled?
    ensures ClientInv(Apply(s, step, b), b)
  {
  }

  lemma SendEndsKeepsNet(s: System, step: Step, b: nat)
    requires b >= 1 && Inv(s, b) && Enabled(s, step)
    requires step.SendReturns? || step.SendFails? || step.SendCancelled?
    ensures NetInv(Apply(s, step, b))
  {
    var s' := Apply(s, step, b);
    assert s'.net == s.net;
    assert forall id | id in s'.client.pending ::
      id in s.client.pending && s'.client.pending[id] == s.client.pending[id];
  }

  lemma ExchangeKeepsClient(s: System, step: Step, b: nat)
    requires b >= 1 && ClientInv(s, b) && Enabled(s, step)
    requires step.ExchangeAccepts? || step.ExchangeRejects? || step.ExchangeUnsubscribes? || step.ExchangeRepeats?
    ensures ClientInv(Apply(s, step, b), b)
  {
    assert s.net.uplink != [] ==> forall i | 0 <= i < |s.net.uplink[1..]| ::
      s.net.uplink[1..][i] == s.net.uplink[i + 1];
  }

  lemma AnswerKeepsNet(s: System, success: bool, b: nat)
    requires b >= 1 && Inv(s, b) && Enabled(s, ExchangeAccepts)
    ensures NetInv(AnswerOf(s, success))
  {
    var s' := AnswerOf(s, success);
    var frame := s.net.uplink[0];
    assert forall i | 0 <= i < |s'.net.uplink| :: s'.net.uplink[i] == s.net.uplink[i + 1];
    forall x | Served(s.net, x) ensures Served(s'.net, x) {}
    if success && frame.id in s.client.pending {
      forall x | x in frame.symbols ensures Served(s'.net, x) {}
      assert s.client.pending[frame.id] == frame.symbols;
    }
  }

  lemma RepeatKeepsNet(s: System, ack: Ack, b: nat)
    requires b >= 1 && Inv(s, b) && Enabled(s, ExchangeRepeats(ack))
    ensures NetInv(Apply(s, ExchangeRepeats(ack), b))
  {
    var s' := Apply(s, ExchangeRepeats(ack), b);
    forall x ensures Served(s.net, x) == Served(s'.net, x) {}
  }

  lemma ExchangeUnsubscribesKeepsNet(s: System, b: nat)
    requires b >= 1 && Inv(s, b) && Enabled(s, ExchangeUnsubscribes)
    ensures NetInv(Apply(s, ExchangeUnsubscribes, b))
  {
    var s' := Apply(s, ExchangeUnsubscribes, b);
    assert forall i | 0 <= i < |s'.net.uplink| :: s'.net.uplink[i] == s.net.uplink[i + 1];
    forall x | Served(s.net, x) ensures Served(s'.net, x) {
      assert x !in s.net.uplink[0].symbols;
    }
  }

  lemma ReceiveKeepsClient(s: System, b: nat)
    requires b >= 1 && ClientInv(s, b) && Enabled(s, Receive)
    ensures ClientInv(Apply(s, Receive, b), b)
  {
    var s' := Apply(s, Receive, b);
    assert forall id | id in s'.client.pending ::
      id in s.client.pending && s'.client.pending[id] == s.client.pending[id];
    assert forall x | x in s'.client.subscribed :: x in s.client.subscribed ||
             (s.net.downlink[0].id in s.client.pending && x in s.client.pending[s.net.downlink[0].id]);
  }

  lemma ReceiveKeepsNet(s: System, b: nat)
    requires b >= 1 && Inv(s, b) && Enabled(s, Receive)
    ensures NetInv(Apply(s, Receive, b))
  {
    var s' := Apply(s, Receive, b);
    var ack := s.net.downlink[0];
    assert ack in s.net.issued;
    forall x ensures Served(s.net, x) == Served(s'.net, x) {}
    assert forall i | 0 <= i < |s'.net.downlink| :: s'.net.downlink[i] == s.net.downlink[i + 1];
    assert forall id | id in s'.client.pending ::
      id in s.client.pending && s'.client.pending[id] == s.client.pending[id];
  }

  lemma KeepsConnection(s: System, step: Step, b: nat)
    requires b >= 1 && Inv(s, b) && Enabled(s, step)
    requires step.StopListening? || step.DropSocket? || step.Connect?
    ensures Inv(Apply(s, step, b), b)
  {
  }

  lemma StepKeepsInv(s: System, step: Step, b: nat)
    requires b >= 1 && Inv(s, b) && Enabled(s, step)
    ensures Inv(Apply(s, step, b), b)
  {
    match step
    case SetDesired(_) => KeepsAcquire(s, step, b);
    case AcquireSubscribe => KeepsAcquire(s, step, b);
    case AcquireUnsubscribe(_) => KeepsAcquire(s, step, b);
    case BeginBatch => BeginBatchKeepsClient(s, b); BeginBatchKeepsNet(s, b);
    case Transmit => TransmitKeepsClient(s, b); TransmitKeepsNet(s, b);
    case SendReturns => SendEndsKeepsClient(s, step, b); SendEndsKeepsNet(s, step, b);
    case SendFails => SendEndsKeepsClient(s, step, b); SendEndsKeepsNet(s, step, b);
    case SendCancelled => SendEndsKeepsClient(s, step, b); SendEndsKeepsNet(s, step, b);
    case ExchangeAccepts => ExchangeKeepsClient(s, step, b); AnswerKeepsNet(s, true, b);
    case ExchangeRejects => ExchangeKeepsClient(s, step, b); AnswerKeepsNet(s, false, b);
    case ExchangeUnsubscribes => ExchangeKeepsClient(s, step, b); ExchangeUnsubscribesKeepsNet(s, b);
    case ExchangeRepeats(ack) => ExchangeKeepsClient(s, step, b); RepeatKeepsNet(s, ack, b);
    case Receive => ReceiveKeepsClient(s, b); ReceiveKeepsNet(s, b);
    case StopListening => KeepsConnection(s, step, b);
    case DropSocket => KeepsConnection(s, step, b);
    case Connect => KeepsConnection(s, step, b);
  }

  // ---------------------------------------------------------------------------------------------
  // What holds in every reachable state
  // ---------------------------------------------------------------------------------------------

  lemma {:induction false} RunKeepsInv(s: System, steps: seq<Step>, b: nat)
    requires b >= 1 && Inv(s, b) && Runs(s, steps, b)
    ensures Inv(After(s, steps, b), b)
    decreases |steps|
  {
    if steps == [] {
    } else {
      StepKeepsInv(s, steps[0], b);
      RunKeepsInv(Apply(s, steps[0], b), steps[1..], b);
    }
  }

  lemma ReachableInv(steps: seq<Step>, b: nat)
    requires b >= 1 && Runs(Start, steps, b)
    ensures Inv(After(Start, steps, b), b)
  {
    RunKeepsInv(Start, steps, b);
  }

  /**
   After any run, every confirmed symbol outside the unsubscribe batch being sent, and not left behind by
   an abandoned unsubscribe, was accepted by the exchange on the current connection, is in its session
   still, and no unsubscribe of it is on its way.
   */
  lemma ServerAgreement(steps: seq<Step>, b: nat, x: Symbol)
    requires b >= 1 && Runs(Start, steps, b)
    ensures var s := After(Start, steps, b);
            x in s.client.subscribed && x !in BeingDropped(s) && x !in s.orphaned ==>
              && x in s.net.session
              && (exists f :: f in s.net.accepted && f.Sub? && x in f.symbols)
              && (forall i | 0 <= i < |s.net.uplink| :: s.net.uplink[i].Unsub? ==> x !in s.net.uplink[i].symbols)
  {
    ReachableInv(steps, b);
    var s := After(Start, steps, b);
    if x in s.client.subscribed && x !in BeingDropped(s) && x !in s.orphaned {
      assert Served(s.net, x);
      var f :| f in s.net.accepted && x in f.symbols;
      assert f.Sub?;
    }
  }

  // ---------------------------------------------------------------------------------------------
  // The agreement is exact: what is excepted above is not served
  // ---------------------------------------------------------------------------------------------

  /** A subscribe frame that has not left yet is still recorded, and nobody has seen its number. */
  ghost predicate FlightFresh(s: System) {
    s.holder.Holding? && s.holder.flight.Some? ==>
      var f := s.holder.flight.value;
      && f.conn <= s.net.conn
      && (s.holder.op.Subscribe? && !f.transmitted && f.conn == s.net.conn ==>
            && f.id in s.client.pending && s.client.pending[f.id] == f.batch
            && (forall a | a in s.net.issued :: a.id != f.id)
            && (forall i | 0 <= i < |s.net.uplink| :: s.net.uplink[i].Sub? ==> s.net.uplink[i].id != f.id))
  }

  /** From position `k` on, nothing asks for `x`, and what precedes ends its service. */
  ghost predicate DoomedFrom(net: Net, x: Symbol, k: nat) {
    && k <= |net.uplink|
    && (if k == 0 then x !in net.session else net.uplink[k - 1].Unsub? && x in net.uplink[k - 1].symbols)
    && forall j | k <= j < |net.uplink| :: net.uplink[j].Sub? ==> x !in net.uplink[j].symbols
  }

  ghost predicate Doomed(net: Net, x: Symbol) {
    exists k: nat :: DoomedFrom(net, x, k)
  }

  ghost predicate ExactInv(s: System) {
    && FlightFresh(s)
    && forall x | x in s.orphaned || x in BeingDropped(s) :: Doomed(s.net, x)
  }

  lemma StepKeepsFlightFresh(s: System, step: Step, b: nat)
    requires b >= 1 && Inv(s, b) && FlightFresh(s) && Enabled(s, step)
    ensures FlightFresh(Apply(s, step, b))
  {
    if step.Receive? { assert s.net.downlink[0] in s.net.issued; }
    if s.net.uplink != [] {
      assert forall i | 0 <= i < |s.net.uplink[1..]| :: s.net.uplink[1..][i] == s.net.uplink[i + 1];
    }
  }

  lemma TransmitKeepsDoomed(s: System, b: nat, x: Symbol)
    requires b >= 1 && Inv(s, b) && ExactInv(s) && Enabled(s, Transmit)
    requires x in s.orphaned || x in BeingDropped(Apply(s, Transmit, b))
    ensures Doomed(Apply(s, Transmit, b).net, x)
  {
    var s' := Apply(s, Transmit, b);
    var f := s.holder.flight.value;
    if s.holder.op.Unsubscribe? && f.conn == s.net.conn && x in f.batch {
      assert DoomedFrom(s'.net, x, |s'.net.uplink|);
    } else {
      var k: nat :| DoomedFrom(s.net, x, k);
      assert x in s.client.subscribed;
      assert DoomedFrom(s'.net, x, k);
    }
  }

  lemma ExchangeKeepsDoomed(s: System, step: Step, b: nat, x: Symbol)
    requires b >= 1 && Enabled(s, step)
    requires step.ExchangeAccepts? || step.ExchangeRejects? || step.ExchangeUnsubscribes? || step.ExchangeRepeats?
    requires Doomed(s.net, x)
    ensures Doomed(Apply(s, step, b).net, x)
  {
    var s' := Apply(s, step, b);
    var k: nat :| DoomedFrom(s.net, x, k);
    if step.ExchangeRepeats? {
      assert DoomedFrom(s'.net, x, k);
    } else {
      assert forall i | 0 <= i < |s'.net.uplink| :: s'.net.uplink[i] == s.net.uplink[i + 1];
      assert DoomedFrom(s'.net, x, if k == 0 then 0 else k - 1);
    }
  }

  /** The other steps of a connection leave queue and session alone and drop nothing more. */
  lemma OthersDropNothing(s: System, step: Step, b: nat)
    requires b >= 1 && Enabled(s, step) && !step.Transmit? && !step.Connect?
    requires !step.ExchangeAccepts? && !step.ExchangeRejects? && !step.ExchangeUnsubscribes? && !step.ExchangeRepeats?
    ensures var s' := Apply(s, step, b);
            && s'.net.uplink == s.net.uplink && s'.net.session == s.net.session
            && forall x | x in s'.orphaned || x in BeingDropped(s') :: x in s.orphaned || x in BeingDropped(s)
  {
  }

  lemma SameDoomed(net: Net, net': Net, x: Symbol)
    requires Doomed(net, x) && net'.uplink == net.uplink && net'.session == net.session
    ensures Doomed(net', x)
  {
    var k: nat :| DoomedFrom(net, x, k);
    assert DoomedFrom(net', x, k);
  }

  lemma StepKeepsExactInv(s: System, step: Step, b: nat)
    requires b >= 1 && Inv(s, b) && ExactInv(s) && Enabled(s, step)
    ensures ExactInv(Apply(s, step, b))
  {
    StepKeepsFlightFresh(s, step, b);
    var s' := Apply(s, step, b);
    forall x | x in s'.orphaned || x in BeingDropped(s') ensures Doomed(s'.net, x) {
      match step
      case Transmit => TransmitKeepsDoomed(s, b, x);
      case ExchangeAccepts => ExchangeKeepsDoomed(s, step, b, x);
      case ExchangeRejects => ExchangeKeepsDoomed(s, step, b, x);
      case ExchangeUnsubscribes => ExchangeKeepsDoomed(s, step, b, x);
      case ExchangeRepeats(_) => ExchangeKeepsDoomed(s, step, b, x);
      case Connect =>
      case _ =>
        OthersDropNothing(s, step, b);
        SameDoomed(s.net, s'.net, x);
    }
  }

  lemma {:induction false} RunKeepsExactInv(s: System, steps: seq<Step>, b: nat)
    requires b >= 1 && Inv(s, b) && ExactInv(s) && Runs(s, steps, b)
    ensures ExactInv(After(s, steps, b))
    decreases |steps|
  {
    if steps == [] {
    } else {
      StepKeepsInv(s, steps[0], b);
      StepKeepsExactInv(s, steps[0], b);
      RunKeepsExactInv(Apply(s, steps[0], b), steps[1..], b);
    }
  }

  /**
   Once the exchange has processed everything sent on the current connection, a confirmed symbol is served
   if and only if it is neither in the unsubscribe batch being sent nor left behind by an abandoned one.
   */
  lemma ServedExactly(steps: seq<Step>, b: nat, x: Symbol)
    requires b >= 1 && Runs(Start, steps, b)
    ensures var s := After(Start, steps, b);
            s.net.uplink == [] && x in s.client.subscribed ==>
              (x in s.net.session <==> x !in s.orphaned && x !in BeingDropped(s))
  {
    ReachableInv(steps, b);
    RunKeepsExactInv(Start, steps, b);
    var s := After(Start, steps, b);
    if s.net.uplink == [] && x in s.client.subscribed {
      if x in s.orphaned || x in BeingDropped(s) {
        var k: nat :| DoomedFrom(s.net, x, k);
      } else {
        assert Served(s.net, x);
      }
    }
  }

  /** No send of an unsubscribe batch ends in an error or a cancellation after its frame has left. */
  predicate NoUnsubscribeAbandoned(s: System, steps: seq<Step>, b: nat)
    requires b >= 1 && Runs(s, steps, b)
    decreases |steps|
  {
    steps == [] ||
    (((steps[0].SendFails? || steps[0].SendCancelled?) ==> Strays(s) == {}) &&
     NoUnsubscribeAbandoned(Apply(s, steps[0], b), steps[1..], b))
  }

  /** Then nothing is ever left behind, and the agreement covers every symbol that is not being dropped. */
  lemma {:induction false} NothingOrphaned(s: System, steps: seq<Step>, b: nat)
    requires b >= 1 && Runs(s, steps, b) && s.orphaned == {} && NoUnsubscribeAbandoned(s, steps, b)
    ensures After(s, steps, b).orphaned == {}
    decreases |steps|
  {
    if steps == [] {
    } else {
      NothingOrphaned(Apply(s, steps[0], b), steps[1..], b);
    }
  }

  lemma AgreementWithoutAbandonedUnsubscribes(steps: seq<Step>, b: nat)
    requires b >= 1 && Runs(Start, steps, b) && NoUnsubscribeAbandoned(Start, steps, b)
    ensures var s := After(Start, steps, b);
            s.client.subscribed - BeingDropped(s) <= s.net.session
  {
    NothingOrphaned(Start, steps, b);
    var s := After(Start, steps, b);
    forall x | x in s.client.subscribed - BeingDropped(s) ensures x in s.net.session {
      ServerAgreement(steps, b, x);
    }
  }

  /**
   After any run, the unsent part of a subscribe pass, the outstanding batches and the confirmed symbols are
   pairwise disjoint, no symbol is in two batches or twice in the unsent part, and batches are of legal size.
   */
  lemma PlansPendingConfirmedDisjoint(steps: seq<Step>, b: nat)
    requires b >= 1 && Runs(Start, steps, b)
    ensures var s := After(Start, steps, b);
            var plan := if s.holder.Holding? && s.holder.op.Subscribe? then s.holder.rest else [];
            && PendingSymbols(s.client.pending) !! s.client.subscribed
            && Elements(plan) !! PendingSymbols(s.client.pending) + s.client.subscribed
            && NoDuplicates(plan)
            && (forall id, jd | id in s.client.pending && jd in s.client.pending && id != jd ::
                  Elements(s.client.pending[id]) !! Elements(s.client.pending[jd]))
            && (forall id | id in s.client.pending :: 1 <= |s.client.pending[id]| <= b)
  {
    ReachableInv(steps, b);
  }

  /** What the lock holder is sending is a full batch, unless it is the last of its pass. */
  ghost predicate FlightFull(s: System, b: nat) {
    s.holder.Holding? && s.holder.flight.Some? ==>
      && 1 <= |s.holder.flight.value.batch| <= b
      && (s.holder.rest != [] ==> |s.holder.flight.value.batch| == b)
  }

  lemma {:induction false} RunKeepsFlightFull(s: System, steps: seq<Step>, b: nat)
    requires b >= 1 && FlightFull(s, b) && Runs(s, steps, b)
    ensures FlightFull(After(s, steps, b), b)
    decreases |steps|
  {
    if steps == [] {
    } else {
      assert FlightFull(Apply(s, steps[0], b), b);
      RunKeepsFlightFull(Apply(s, steps[0], b), steps[1..], b);
    }
  }

  /**
   Whatever interferes with a pass, it sends full batches but for its last one, and the next batch is the front of what
   is left of its list, which loses nothing else.
   */
  lemma BatchesFull(steps: seq<Step>, b: nat)
    requires b >= 1 && Runs(Start, steps, b)
    ensures var s := After(Start, steps, b);
            && (s.holder.Holding? && s.holder.flight.Some? ==>
                  && 1 <= |s.holder.flight.value.batch| <= b
                  && (s.holder.rest != [] ==> |s.holder.flight.value.batch| == b))
            && (Enabled(s, BeginBatch) && s.socketOpen ==>
                  var h := Apply(s, BeginBatch, b).holder;
                  h.Holding? && h.op == s.holder.op && h.flight.Some? && h.flight.value.batch + h.rest == s.holder.rest)
  {
    RunKeepsFlightFull(Start, steps, b);
    var s := After(Start, steps, b);
    if Enabled(s, BeginBatch) && s.socketOpen {
      var k := BatchLength(|s.holder.rest|, b);
      assert s.holder.rest[..k] + s.holder.rest[k..] == s.holder.rest;
    }
  }

  /**
   Whenever an answer confirms anything, it confirms exactly the batch outstanding under its own number,
   and the exchange accepted that very batch on the current connection; every other answer, however old or
   repeated, leaves the confirmed set alone.
   */
  lemma OnlyOwnAnswerConfirms(steps: seq<Step>, b: nat)
    requires b >= 1 && Runs(Start, steps, b) && Enabled(After(Start, steps, b), Receive)
    ensures var s := After(Start, steps, b);
            var s' := Apply(s, Receive, b);
            var id := s.net.downlink[0].id;
            s'.client.subscribed != s.client.subscribed ==>
              && id in s.client.pending
              && Sub(id, s.client.pending[id]) in s.net.accepted
              && s'.client.subscribed - s.client.subscribed == Elements(s.client.pending[id])
              && Elements(s.client.pending[id]) <= s.net.session
  {
    ReachableInv(steps, b);
    var s := After(Start, steps, b);
    assert s.net.downlink[0] in s.net.issued;
    var s' := Apply(s, Receive, b);
    if s'.client.subscribed != s.client.subscribed {
      var id := s.net.downlink[0].id;
      forall x | x in Elements(s.client.pending[id]) ensures x in s.net.session && x !in s.client.subscribed {
        assert Served(s.net, x);
      }
    }
  }

  /** Only a new registry snapshot changes what is wanted; reconnections, failures and answers do not. */
  lemma {:induction false} WantedKept(s: System, steps: seq<Step>, b: nat)
    requires b >= 1 && Runs(s, steps, b) && forall i | 0 <= i < |steps| :: !steps[i].SetDesired?
    ensures After(s, steps, b).client.desired == s.client.desired
    decreases |steps|
  {
    if steps == [] {
    } else {
      WantedKept(Apply(s, steps[0], b), steps[1..], b);
    }
  }

  /** Once the receive loop has ended, nothing is confirmed before a new connection. */
  lemma {:induction false} DeafConfirmsNothing(s: System, steps: seq<Step>, b: nat)
    requires b >= 1 && !s.listening && Runs(s, steps, b) && forall i | 0 <= i < |steps| :: !steps[i].Connect?
    ensures !After(s, steps, b).listening && After(s, steps, b).client.subscribed <= s.client.subscribed
    decreases |steps|
  {
    if steps == [] {
    } else {
      DeafConfirmsNothing(Apply(s, steps[0], b), steps[1..], b);
    }
  }

  /**
   The rejection of an outstanding request forgets it and ends the receive loop: whatever happens then, no answer is
   heard and nothing is confirmed on this connection any more. No other answer ends the loop.
   */
  lemma RejectionEndsListening(s: System, steps: seq<Step>, b: nat)
    requires b >= 1 && Enabled(s, Receive)
    requires Runs(Apply(s, Receive, b), steps, b) && forall i | 0 <= i < |steps| :: !steps[i].Connect?
    ensures var ack, s1 := s.net.downlink[0], Apply(s, Receive, b);
            && (s1.listening <==> !(ack.id in s.client.pending && !ack.success))
            && (ack.id in s.client.pending && !ack.success ==>
                  && ack.id !in s1.client.pending && s1.client.subscribed == s.client.subscribed
                  && After(s1, steps, b).client.subscribed <= s.client.subscribed)
  {
    var s1 := Apply(s, Receive, b);
    if !s1.listening { DeafConfirmsNothing(s1, steps, b); }
  }

  lemma {:induction false} SequenceGrows(s: System, steps: seq<Step>, b: nat)
    requires b >= 1 && Runs(s, steps, b)
    ensures s.client.sequence <= After(s, steps, b).client.sequence
    decreases |steps|
  {
    if steps == [] {
    } else {
      SequenceGrows(Apply(s, steps[0], b), steps[1..], b);
    }
  }

  lemma {:induction false} RunSplits(s: System, first: seq<Step>, second: seq<Step>, b: nat)
    requires b >= 1 && Runs(s, first + second, b)
    ensures Runs(s, first, b) && Runs(After(s, first, b), second, b)
    ensures After(s, first + second, b) == After(After(s, first, b), second, b)
    decreases |first|
  {
    if first == [] {
      assert first + second == second;
    } else {
      assert (first + second)[1..] == first[1..] + second;
      RunSplits(Apply(s, first[0], b), first[1..], second, b);
    }
  }

  /** The number a subscribe batch is recorded under if it is begun in `s`. */
  function NextId(s: System): nat {
    s.client.sequence + 1
  }

  /** Request numbers never repeat, whatever happens between two requests, reconnections included. */
  lemma IdsNeverRepeat(first: seq<Step>, second: seq<Step>, b: nat)
    requires b >= 1 && Runs(Start, first + [BeginBatch] + second, b)
    ensures Runs(Start, first, b) && Enabled(After(Start, first, b), BeginBatch)
    ensures After(Start, first, b).holder.op.Subscribe? ==>
              NextId(After(Start, first, b)) < NextId(After(Start, first + [BeginBatch] + second, b))
  {
    assert first + [BeginBatch] + second == first + ([BeginBatch] + second);
    RunSplits(Start, first, [BeginBatch] + second, b);
    var s := After(Start, first, b);
    assert ([BeginBatch] + second)[1..] == second;
    SequenceGrows(Apply(s, BeginBatch, b), second, b);
  }

  // ---------------------------------------------------------------------------------------------
  // What does not hold
  // ---------------------------------------------------------------------------------------------

  lemma RunPrepends(s: System, step: Step, rest: seq<Step>, b: nat)
    requires b >= 1 && Enabled(s, step) && Runs(Apply(s, step, b), rest, b)
    ensures Runs(s, [step] + rest, b)
    ensures After(s, [step] + rest, b) == After(Apply(s, step, b), rest, b)
  {
    assert ([step] + rest)[1..] == rest;
  }

  lemma SortedSingleton(x: Symbol)
    ensures SortedSet({x}) == [x]
  {
    AscendingUnique(SortedSet({x}), [x]);
  }

  lemma {:induction false} RunsJoin(s: System, first: seq<Step>, second: seq<Step>, b: nat)
    requires b >= 1 && Runs(s, first, b) && Runs(After(s, first, b), second, b)
    ensures Runs(s, first + second, b)
    ensures After(s, first + second, b) == After(After(s, first, b), second, b)
    decreases |first|
  {
    if first == [] {
      assert first + second == second;
    } else {
      assert (first + second)[1..] == first[1..] + second;
      RunsJoin(Apply(s, first[0], b), first[1..], second, b);
    }
  }

  /** A first connection with `"A"` wanted and its request sent. */
  const RequestA: seq<Step> := [Connect] + ([SetDesired({"A"})] + ([AcquireSubscribe] + []))
  const SendA: seq<Step> := [BeginBatch] + ([Transmit] + ([SendReturns] + []))
  const GrantA: seq<Step> := [ExchangeAccepts] + ([Receive] + [])
  const ConfirmA: seq<Step> := RequestA + SendA + GrantA

  const PlannedA :=
    System(Client({"A"}, {}, map[], 0), Holding(Subscribe, ["A"], None), true, true, Net(1, [], [], {}, {}, {}), {})
  const RequestedA :=
    System(Client({"A"}, {}, map[1 := ["A"]], 1), Free, true, true, Net(1, [Sub(1, ["A"])], [], {}, {}, {}), {})
  const ConfirmedA :=
    System(Client({"A"}, {"A"}, map[], 1), Free, true, true,
           Net(1, [], [], {"A"}, {Sub(1, ["A"])}, {Ack(1, true)}), {})

  lemma RequestARuns()
    ensures Runs(Start, RequestA, 1) && After(Start, RequestA, 1) == PlannedA
  {
    var s1 := Apply(Start, Connect, 1);
    var s2 := Apply(s1, SetDesired({"A"}), 1);
    SortedSingleton("A");
    assert Missing(s2.client) == {"A"};
    RunPrepends(s2, AcquireSubscribe, [], 1);
    RunPrepends(s1, SetDesired({"A"}), [AcquireSubscribe] + [], 1);
    RunPrepends(Start, Connect, [SetDesired({"A"})] + ([AcquireSubscribe] + []), 1);
  }

  lemma SendARuns()
    ensures Runs(PlannedA, SendA, 1) && After(PlannedA, SendA, 1) == RequestedA
  {
    var s1 := Apply(PlannedA, BeginBatch, 1);
    assert PlannedA.holder.rest[..1] == ["A"] && PlannedA.holder.rest[1..] == [];
    assert s1.holder == Holding(Subscribe, [], Some(Flight(1, ["A"], 1, false)));
    assert s1.client.pending == map[1 := ["A"]];
    var s2 := Apply(s1, Transmit, 1);
    assert s2.net.uplink == [Sub(1, ["A"])];
    RunPrepends(s2, SendReturns, [], 1);
    RunPrepends(s1, Transmit, [SendReturns] + [], 1);
    RunPrepends(PlannedA, BeginBatch, [Transmit] + ([SendReturns] + []), 1);
  }

  lemma GrantARuns()
    ensures Runs(RequestedA, GrantA, 1) && After(RequestedA, GrantA, 1) == ConfirmedA
  {
    var s1 := Apply(RequestedA, ExchangeAccepts, 1);
    assert s1.net.downlink == [Ack(1, true)] && s1.net.uplink == [];
    assert Elements(["A"]) == {"A"};
    var s2 := Apply(s1, Receive, 1);
    assert s2.net.downlink == [] && s2.client.pending == map[];
    RunPrepends(s1, Receive, [], 1);
    RunPrepends(RequestedA, ExchangeAccepts, [Receive] + [], 1);
  }

  lemma ConfirmARuns()
    ensures Runs(Start, ConfirmA, 1) && After(Start, ConfirmA, 1) == ConfirmedA
  {
    RequestARuns();
    SendARuns();
    GrantARuns();
    RunsJoin(Start, RequestA, SendA, 1);
    RunsJoin(Start, RequestA + SendA, GrantA, 1);
  }

  /** A cancelled unsubscribe can leave a symbol confirmed that the exchange no longer serves. */
  const StrayRun: seq<Step> :=
    [AcquireUnsubscribe({"A"})] + ([BeginBatch] + ([Transmit] + ([SendCancelled] + ([ExchangeUnsubscribes] + []))))

  lemma CancelledUnsubscribeBreaksAgreement()
    ensures Runs(Start, ConfirmA + StrayRun, 1)
    ensures var s := After(Start, ConfirmA + StrayRun, 1);
            "A" in s.client.subscribed && s.holder.Free? && s.socketOpen && s.listening && "A" !in s.net.session
  {
    ConfirmARuns();
    var s0 := ConfirmedA;
    SortedSingleton("A");
    assert {"A"} * s0.client.subscribed == {"A"};
    var s1 := Apply(s0, AcquireUnsubscribe({"A"}), 1);
    assert s1.holder == Holding(Unsubscribe, ["A"], None);
    var s2 := Apply(s1, BeginBatch, 1);
    assert s2.holder == Holding(Unsubscribe, [], Some(Flight(0, ["A"], 1, false)));
    var s3 := Apply(s2, Transmit, 1);
    assert s3.net.uplink == [Unsub(["A"])];
    var s4 := Apply(s3, SendCancelled, 1);
    var s5 := Apply(s4, ExchangeUnsubscribes, 1);
    assert "A" in Elements(["A"]);
    RunPrepends(s4, ExchangeUnsubscribes, [], 1);
    RunPrepends(s3, SendCancelled, [ExchangeUnsubscribes] + [], 1);
    RunPrepends(s2, Transmit, [SendCancelled] + ([ExchangeUnsubscribes] + []), 1);
    RunPrepends(s1, BeginBatch, [Transmit] + ([SendCancelled] + ([ExchangeUnsubscribes] + [])), 1);
    RunPrepends(s0, AcquireUnsubscribe({"A"}),
                [BeginBatch] + ([Transmit] + ([SendCancelled] + ([ExchangeUnsubscribes] + []))), 1);
    RunsJoin(Start, ConfirmA, StrayRun, 1);
  }
}
