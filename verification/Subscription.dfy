/**
 One WebSocket client of the price feed: the symbols it wants, the subscribe requests it has sent and the
 symbols the exchange has confirmed. `Client` is the state of the three sets as a value; the functions say
 what each stretch of code between two suspension points does to it, and the class does the same in place.
 */
module Subscription {
  import opened Wrappers
  import opened Ordering

  type Symbol = string

  /** A request as it travels to the exchange; `id` is the number inside its `req_id`. */
  datatype Frame = Sub(id: nat, symbols: seq<Symbol>) | Unsub(symbols: seq<Symbol>)

  /** The exchange's answer to a subscribe request. */
  datatype Ack = Ack(id: nat, success: bool)

  datatype Client = Client(
    desired: set<Symbol>,
    subscribed: set<Symbol>,
    pending: map<nat, seq<Symbol>>,
    sequence: nat)

  const NewClient := Client({}, {}, map[], 0)

  function PendingSymbols(pending: map<nat, seq<Symbol>>): set<Symbol> {
    set id, x | id in pending && x in pending[id] :: x
  }

  /** What a subscribe pass has to request: neither confirmed nor already requested. */
  function Missing(c: Client): set<Symbol> {
    c.desired - c.subscribed - PendingSymbols(c.pending)
  }

  /** The request is recorded under a new number before its frame is sent. */
  function Register(c: Client, batch: seq<Symbol>): Client {
    c.(sequence := c.sequence + 1, pending := c.pending[c.sequence + 1 := batch])
  }

  function RollBack(c: Client, id: nat): Client {
    c.(pending := c.pending - {id})
  }

  function Confirm(c: Client, id: nat): Client {
    if id in c.pending then
      c.(subscribed := c.subscribed + Elements(c.pending[id]), pending := c.pending - {id})
    else c
  }

  /** A fresh connection starts with nothing confirmed and nothing requested. */
  function Reset(c: Client): Client {
    c.(subscribed := {}, pending := map[])
  }

  /** The next batch is a prefix of what is left to send. */
  function BatchLength(left: nat, batchSize: nat): nat {
    if left <= batchSize then left else batchSize
  }

  /** Sending a whole list of subscribe requests with no interference. */
  function SendSubscribes(c: Client, symbols: seq<Symbol>, batchSize: nat): Client
    requires batchSize >= 1
    decreases |symbols|
  {
    if symbols == [] then c else
      var k := BatchLength(|symbols|, batchSize);
      SendSubscribes(Register(c, symbols[..k]), symbols[k..], batchSize)
  }

  /** The frames that carries, in order. */
  function SubscribeFrames(next: nat, symbols: seq<Symbol>, batchSize: nat): seq<Frame>
    requires batchSize >= 1
    decreases |symbols|
  {
    if symbols == [] then [] else
      var k := BatchLength(|symbols|, batchSize);
      [Sub(next, symbols[..k])] + SubscribeFrames(next + 1, symbols[k..], batchSize)
  }

  function UnsubscribeFrames(symbols: seq<Symbol>, batchSize: nat): seq<Frame>
    requires batchSize >= 1
    decreases |symbols|
  {
    if symbols == [] then [] else
      var k := BatchLength(|symbols|, batchSize);
      [Unsub(symbols[..k])] + UnsubscribeFrames(symbols[k..], batchSize)
  }

  // ---------------------------------------------------------------------------------------------
  // A pass whose sends may fail
  // ---------------------------------------------------------------------------------------------

  /** `failsAt` is how many sends succeed before one raises, if one does. */
  function OneSendLess(failsAt: Option<nat>): Option<nat> {
    if failsAt.Some? && failsAt.value > 0 then Some(failsAt.value - 1) else None
  }

  /** The symbols whose frames get sent. */
  function SentPart(symbols: seq<Symbol>, batchSize: nat, failsAt: Option<nat>): seq<Symbol>
    requires batchSize >= 1
    decreases |symbols|
  {
    if symbols == [] || failsAt == Some(0) then [] else
      var k := BatchLength(|symbols|, batchSize);
      symbols[..k] + SentPart(symbols[k..], batchSize, OneSendLess(failsAt))
  }

  /** What a subscribe pass leaves, the frames it sent, and whether it came to its end. */
  datatype Pass = Pass(client: Client, frames: seq<Frame>, done: bool)

  /** The record of the batch whose send fails is rolled back, and the pass ends there. */
  function SendUntil(c: Client, symbols: seq<Symbol>, batchSize: nat, failsAt: Option<nat>): Pass
    requires batchSize >= 1
    decreases |symbols|
  {
    if symbols == [] then Pass(c, [], true) else
      var k := BatchLength(|symbols|, batchSize);
      var c' := Register(c, symbols[..k]);
      if failsAt == Some(0) then Pass(RollBack(c', c'.sequence), [], false)
      else FramesFirst([Sub(c'.sequence, symbols[..k])], SendUntil(c', symbols[k..], batchSize, OneSendLess(failsAt)))
  }

  function FramesFirst(frames: seq<Frame>, pass: Pass): Pass {
    pass.(frames := frames + pass.frames)
  }

  /** The same of an unsubscribe pass, which records nothing. */
  datatype Drop = Drop(subscribed: set<Symbol>, frames: seq<Frame>, done: bool)

  function DropUntil(subscribed: set<Symbol>, symbols: seq<Symbol>, batchSize: nat, failsAt: Option<nat>): Drop
    requires batchSize >= 1
    decreases |symbols|
  {
    if symbols == [] then Drop(subscribed, [], true) else
      var k := BatchLength(|symbols|, batchSize);
      if failsAt == Some(0) then Drop(subscribed, [], false)
      else
        var rest := DropUntil(subscribed - Elements(symbols[..k]), symbols[k..], batchSize, OneSendLess(failsAt));
        rest.(frames := [Unsub(symbols[..k])] + rest.frames)
  }

  /** Where no send fails, that is the whole pass. */
  lemma {:induction false} NothingFails(c: Client, symbols: seq<Symbol>, batchSize: nat)
    requires batchSize >= 1
    ensures SendUntil(c, symbols, batchSize, None) ==
            Pass(SendSubscribes(c, symbols, batchSize), SubscribeFrames(c.sequence + 1, symbols, batchSize), true)
    decreases |symbols|
  {
    if symbols == [] {
    } else {
      var k := BatchLength(|symbols|, batchSize);
      NothingFails(Register(c, symbols[..k]), symbols[k..], batchSize);
    }
  }

  lemma {:induction false} NoDropFails(subscribed: set<Symbol>, symbols: seq<Symbol>, batchSize: nat)
    requires batchSize >= 1
    ensures DropUntil(subscribed, symbols, batchSize, None) ==
            Drop(subscribed - Elements(symbols), UnsubscribeFrames(symbols, batchSize), true)
    decreases |symbols|
  {
    if symbols == [] {
    } else {
      var k := BatchLength(|symbols|, batchSize);
      NoDropFails(subscribed - Elements(symbols[..k]), symbols[k..], batchSize);
      ElementsJoin(symbols[..k], symbols[k..]);
      assert symbols == symbols[..k] + symbols[k..];
    }
  }

  lemma ElementsJoin(a: seq<Symbol>, b: seq<Symbol>)
    ensures Elements(a + b) == Elements(a) + Elements(b)
  {
  }

  /**
   A pass that fails leaves what the pass over the part it has sent would have left, but for the number it has
   used up: no false request survives. That part is a prefix, and all of the list exactly if no send failed.
   */
  lemma {:induction false} FailedSendLeavesNothing(c: Client, symbols: seq<Symbol>, batchSize: nat,
                                                   failsAt: Option<nat>)
    requires batchSize >= 1 && IdsUsed(c)
    ensures var sent, r := SentPart(symbols, batchSize, failsAt), SendUntil(c, symbols, batchSize, failsAt);
            var whole := SendSubscribes(c, sent, batchSize);
            && sent <= symbols && (r.done <==> sent == symbols)
            && r.client == whole.(sequence := if r.done then whole.sequence else whole.sequence + 1)
    decreases |symbols|
  {
    if symbols == [] {
    } else if failsAt == Some(0) {
      var c' := Register(c, symbols[..BatchLength(|symbols|, batchSize)]);
      assert c'.pending - {c'.sequence} == c.pending;
    } else {
      var k := BatchLength(|symbols|, batchSize);
      var rest := SentPart(symbols[k..], batchSize, OneSendLess(failsAt));
      FailedSendLeavesNothing(Register(c, symbols[..k]), symbols[k..], batchSize, OneSendLess(failsAt));
      SentFirst(c, symbols, k, rest, batchSize);
    }
  }

  /** A failed unsubscribe pass has dropped exactly what it has sent. */
  lemma {:induction false} FailedDropKeepsRest(subscribed: set<Symbol>, symbols: seq<Symbol>, batchSize: nat,
                                               failsAt: Option<nat>)
    requires batchSize >= 1
    ensures var sent, r := SentPart(symbols, batchSize, failsAt), DropUntil(subscribed, symbols, batchSize, failsAt);
            sent <= symbols && (r.done <==> sent == symbols) && r.subscribed == subscribed - Elements(sent)
    decreases |symbols|
  {
    if symbols == [] || failsAt == Some(0) {
    } else {
      var k := BatchLength(|symbols|, batchSize);
      var rest := SentPart(symbols[k..], batchSize, OneSendLess(failsAt));
      FailedDropKeepsRest(subscribed - Elements(symbols[..k]), symbols[k..], batchSize, OneSendLess(failsAt));
      SentFirst(NewClient, symbols, k, rest, batchSize);
      ElementsJoin(symbols[..k], rest);
    }
  }

  /** A first whole batch is sent first, whatever follows it. */
  lemma SentFirst(c: Client, symbols: seq<Symbol>, k: nat, rest: seq<Symbol>, batchSize: nat)
    requires batchSize >= 1 && symbols != [] && k == BatchLength(|symbols|, batchSize) && rest <= symbols[k..]
    ensures symbols[..k] + rest <= symbols
    ensures symbols[..k] + rest == symbols <==> rest == symbols[k..]
    ensures SendSubscribes(c, symbols[..k] + rest, batchSize) ==
            SendSubscribes(Register(c, symbols[..k]), rest, batchSize)
  {
    var part := symbols[..k] + rest;
    assert symbols == symbols[..k] + symbols[k..];
    assert BatchLength(|part|, batchSize) == k;
    assert part[..k] == symbols[..k] && part[k..] == rest;
  }

  // ---------------------------------------------------------------------------------------------
  // How a pass cuts its list
  // ---------------------------------------------------------------------------------------------

  /** What the frames carry, one after another. */
  function Carried(frames: seq<Frame>): seq<Symbol> {
    if frames == [] then [] else frames[0].symbols + Carried(frames[1..])
  }

  /** Every frame but the last is full, and the last one is not empty. */
  predicate FullButLast(frames: seq<Frame>, batchSize: nat) {
    && (forall i | 0 <= i < |frames| - 1 :: |frames[i].symbols| == batchSize)
    && (frames != [] ==> 1 <= |frames[|frames| - 1].symbols| <= batchSize)
  }

  lemma FrameFirst(frame: Frame, rest: seq<Frame>, batchSize: nat)
    requires FullButLast(rest, batchSize) && 1 <= |frame.symbols| <= batchSize
    requires rest != [] ==> |frame.symbols| == batchSize
    ensures FullButLast([frame] + rest, batchSize) && Carried([frame] + rest) == frame.symbols + Carried(rest)
  {
    var all := [frame] + rest;
    assert all[1..] == rest;
    assert forall i | 1 <= i < |all| :: all[i] == rest[i - 1];
  }

  lemma {:induction false} TimesGrows(p: nat, q: nat, d: nat)
    requires p < q
    ensures p * d + d <= q * d
    decreases q
  {
    if q == p + 1 {
      assert q * d == p * d + d;
    } else {
      TimesGrows(p, q - 1, d);
      assert q * d == (q - 1) * d + d;
    }
  }

  lemma QuotientIs(x: nat, d: nat, q: nat, r: nat)
    requires d >= 1 && r < d && x == q * d + r
    ensures x / d == q
  {
    var p := x / d;
    assert p * d <= x < p * d + d;
    if p > q { TimesGrows(q, p, d); } else if p < q { TimesGrows(p, q, d); }
  }

  lemma OneMore(x: nat, d: nat)
    requires d >= 1
    ensures (x + d) / d == x / d + 1
  {
    var q, r := x / d, x % d;
    assert x == q * d + r;
    assert (q + 1) * d == q * d + d;
    QuotientIs(x + d, d, q + 1, r);
  }

  /** A list that fits takes one frame; a longer one takes one more than its rest. */
  lemma FrameCount(n: nat, batchSize: nat)
    requires n >= 1 && batchSize >= 1
    ensures n <= batchSize ==> (n + batchSize - 1) / batchSize == 1
    ensures n > batchSize ==> (n + batchSize - 1) / batchSize == (n - batchSize + batchSize - 1) / batchSize + 1
  {
    if n <= batchSize { QuotientIs(n + batchSize - 1, batchSize, 1, n - 1); } else { OneMore(n - 1, batchSize); }
  }

  lemma {:induction false} SubscribeFramesCarry(next: nat, symbols: seq<Symbol>, batchSize: nat)
    requires batchSize >= 1
    ensures var frames := SubscribeFrames(next, symbols, batchSize);
            Carried(frames) == symbols && FullButLast(frames, batchSize)
    decreases |symbols|
  {
    if symbols == [] {
    } else {
      var k := BatchLength(|symbols|, batchSize);
      var rest := SubscribeFrames(next + 1, symbols[k..], batchSize);
      SubscribeFramesCarry(next + 1, symbols[k..], batchSize);
      FrameFirst(Sub(next, symbols[..k]), rest, batchSize);
      assert symbols == symbols[..k] + symbols[k..];
    }
  }

  lemma {:induction false} SubscribeFramesCount(next: nat, symbols: seq<Symbol>, batchSize: nat)
    requires batchSize >= 1
    ensures |SubscribeFrames(next, symbols, batchSize)| == (|symbols| + batchSize - 1) / batchSize
    decreases |symbols|
  {
    if symbols == [] {
      QuotientIs(batchSize - 1, batchSize, 0, batchSize - 1);
    } else {
      SubscribeFramesCount(next + 1, symbols[BatchLength(|symbols|, batchSize)..], batchSize);
      FrameCount(|symbols|, batchSize);
    }
  }

  lemma {:induction false} SubscribeFramesNumbered(next: nat, symbols: seq<Symbol>, batchSize: nat, i: nat)
    requires batchSize >= 1 && i < |SubscribeFrames(next, symbols, batchSize)|
    ensures var frame := SubscribeFrames(next, symbols, batchSize)[i]; frame.Sub? && frame.id == next + i
    decreases |symbols|
  {
    if i == 0 {
    } else {
      SubscribeFramesNumbered(next + 1, symbols[BatchLength(|symbols|, batchSize)..], batchSize, i - 1);
    }
  }

  /**
   A subscribe pass sends the list in order and whole, in full batches but for the last, and so in as few frames
   as the batch size allows, under consecutive numbers.
   */
  lemma SubscribeFramesFull(next: nat, symbols: seq<Symbol>, batchSize: nat)
    requires batchSize >= 1
    ensures var frames := SubscribeFrames(next, symbols, batchSize);
            && Carried(frames) == symbols && FullButLast(frames, batchSize)
            && |frames| == (|symbols| + batchSize - 1) / batchSize
            && (forall i | 0 <= i < |frames| :: frames[i].Sub? && frames[i].id == next + i)
  {
    SubscribeFramesCarry(next, symbols, batchSize);
    SubscribeFramesCount(next, symbols, batchSize);
    forall i | 0 <= i < |SubscribeFrames(next, symbols, batchSize)|
      ensures var frame := SubscribeFrames(next, symbols, batchSize)[i]; frame.Sub? && frame.id == next + i
    {
      SubscribeFramesNumbered(next, symbols, batchSize, i);
    }
  }

  lemma {:induction false} UnsubscribeFramesCarry(symbols: seq<Symbol>, batchSize: nat)
    requires batchSize >= 1
    ensures var frames := UnsubscribeFrames(symbols, batchSize);
            Carried(frames) == symbols && FullButLast(frames, batchSize)
    decreases |symbols|
  {
    if symbols == [] {
    } else {
      var k := BatchLength(|symbols|, batchSize);
      var rest := UnsubscribeFrames(symbols[k..], batchSize);
      UnsubscribeFramesCarry(symbols[k..], batchSize);
      FrameFirst(Unsub(symbols[..k]), rest, batchSize);
      assert symbols == symbols[..k] + symbols[k..];
    }
  }

  lemma {:induction false} UnsubscribeFramesCount(symbols: seq<Symbol>, batchSize: nat)
    requires batchSize >= 1
    ensures |UnsubscribeFrames(symbols, batchSize)| == (|symbols| + batchSize - 1) / batchSize
    decreases |symbols|
  {
    if symbols == [] {
      QuotientIs(batchSize - 1, batchSize, 0, batchSize - 1);
    } else {
      UnsubscribeFramesCount(symbols[BatchLength(|symbols|, batchSize)..], batchSize);
      FrameCount(|symbols|, batchSize);
    }
  }

  lemma {:induction false} UnsubscribeFramesKind(symbols: seq<Symbol>, batchSize: nat, i: nat)
    requires batchSize >= 1 && i < |UnsubscribeFrames(symbols, batchSize)|
    ensures UnsubscribeFrames(symbols, batchSize)[i].Unsub?
    decreases |symbols|
  {
    if i == 0 {
    } else {
      UnsubscribeFramesKind(symbols[BatchLength(|symbols|, batchSize)..], batchSize, i - 1);
    }
  }

  /** The same of an unsubscribe pass. */
  lemma UnsubscribeFramesFull(symbols: seq<Symbol>, batchSize: nat)
    requires batchSize >= 1
    ensures var frames := UnsubscribeFrames(symbols, batchSize);
            && Carried(frames) == symbols && FullButLast(frames, batchSize)
            && |frames| == (|symbols| + batchSize - 1) / batchSize
            && (forall i | 0 <= i < |frames| :: frames[i].Unsub?)
  {
    UnsubscribeFramesCarry(symbols, batchSize);
    UnsubscribeFramesCount(symbols, batchSize);
    forall i | 0 <= i < |UnsubscribeFrames(symbols, batchSize)|
      ensures UnsubscribeFrames(symbols, batchSize)[i].Unsub?
    {
      UnsubscribeFramesKind(symbols, batchSize, i);
    }
  }

  /** A send that fails stops the pass: exactly the frames before it have been sent. */
  lemma {:induction false} SendUntilSends(c: Client, symbols: seq<Symbol>, batchSize: nat, failsAt: Option<nat>)
    requires batchSize >= 1
    ensures var whole, pass := SubscribeFrames(c.sequence + 1, symbols, batchSize),
                               SendUntil(c, symbols, batchSize, failsAt);
            && (pass.done <==> failsAt.None? || failsAt.value >= |whole|)
            && pass.frames == (if pass.done then whole else whole[..failsAt.value])
    decreases |symbols|
  {
    if symbols == [] || failsAt == Some(0) {
    } else {
      var k := BatchLength(|symbols|, batchSize);
      SendUntilSends(Register(c, symbols[..k]), symbols[k..], batchSize, OneSendLess(failsAt));
    }
  }

  lemma {:induction false} DropUntilSends(subscribed: set<Symbol>, symbols: seq<Symbol>, batchSize: nat,
                                          failsAt: Option<nat>)
    requires batchSize >= 1
    ensures var whole, drop := UnsubscribeFrames(symbols, batchSize),
                               DropUntil(subscribed, symbols, batchSize, failsAt);
            && (drop.done <==> failsAt.None? || failsAt.value >= |whole|)
            && drop.frames == (if drop.done then whole else whole[..failsAt.value])
    decreases |symbols|
  {
    if symbols == [] || failsAt == Some(0) {
    } else {
      var k := BatchLength(|symbols|, batchSize);
      DropUntilSends(subscribed - Elements(symbols[..k]), symbols[k..], batchSize, OneSendLess(failsAt));
    }
  }

  /** One reconciliation of the subscriptions against the registry, on a live connection. */
  function Synced(c: Client, wanted: set<Symbol>, batchSize: nat): Client
    requires batchSize >= 1
  {
    var c1 := c.(desired := wanted);
    var c2 := SendSubscribes(c1, SortedSet(Missing(c1)), batchSize);
    c2.(subscribed := c2.subscribed * wanted)
  }

  function SyncFrames(c: Client, wanted: set<Symbol>, batchSize: nat): seq<Frame>
    requires batchSize >= 1
  {
    SubscribeFrames(c.sequence + 1, SortedSet(Missing(c.(desired := wanted))), batchSize) +
    UnsubscribeFrames(SortedSet(c.subscribed - wanted), batchSize)
  }

  /** Successful answers handled one after another; unknown and repeated ones change nothing. */
  function ConfirmAll(c: Client, ids: seq<nat>): Client
    decreases |ids|
  {
    if ids == [] then c else ConfirmAll(Confirm(c, ids[0]), ids[1..])
  }

  // ---------------------------------------------------------------------------------------------
  // Convergence of repeated reconciliations
  // ---------------------------------------------------------------------------------------------

  ghost predicate IdsUsed(c: Client) {
    forall id | id in c.pending :: id <= c.sequence
  }

  lemma {:induction false} SendSubscribesKeep(c: Client, symbols: seq<Symbol>, batchSize: nat)
    requires batchSize >= 1
    ensures var r := SendSubscribes(c, symbols, batchSize);
            r.desired == c.desired && r.subscribed == c.subscribed
    decreases |symbols|
  {
    if symbols == [] {
    } else {
      var k := BatchLength(|symbols|, batchSize);
      SendSubscribesKeep(Register(c, symbols[..k]), symbols[k..], batchSize);
    }
  }

  lemma RegisterAdds(c: Client, batch: seq<Symbol>)
    requires IdsUsed(c)
    ensures IdsUsed(Register(c, batch))
    ensures PendingSymbols(Register(c, batch).pending) == PendingSymbols(c.pending) + Elements(batch)
  {
    var pending := Register(c, batch).pending;
    forall x ensures x in PendingSymbols(pending) <==> x in PendingSymbols(c.pending) + Elements(batch) {
      if x in PendingSymbols(c.pending) {
        var id :| id in c.pending && x in c.pending[id];
        assert pending[id] == c.pending[id];
      }
      if x in batch { assert x in pending[c.sequence + 1]; }
    }
  }

  /** A subscribe pass requests exactly the listed symbols and keeps every earlier request. */
  lemma {:induction false} SendSubscribesRequests(c: Client, symbols: seq<Symbol>, batchSize: nat)
    requires batchSize >= 1 && IdsUsed(c)
    ensures var r := SendSubscribes(c, symbols, batchSize);
            && IdsUsed(r)
            && r.desired == c.desired && r.subscribed == c.subscribed
            && PendingSymbols(r.pending) == PendingSymbols(c.pending) + Elements(symbols)
    decreases |symbols|
  {
    if symbols == [] {
    } else {
      var k := BatchLength(|symbols|, batchSize);
      RegisterAdds(c, symbols[..k]);
      SendSubscribesRequests(Register(c, symbols[..k]), symbols[k..], batchSize);
      ElementsJoin(symbols[..k], symbols[k..]);
      assert symbols == symbols[..k] + symbols[k..];
    }
  }

  /** Once every outstanding request is answered, in any order and any number of times, all are confirmed. */
  lemma {:induction false} ConfirmAllConfirms(c: Client, ids: seq<nat>)
    requires forall id | id in c.pending :: id in ids
    ensures ConfirmAll(c, ids) ==
            c.(subscribed := c.subscribed + PendingSymbols(c.pending), pending := map[])
    decreases |ids|
  {
    if ids == [] {
      assert c.pending == map[];
      assert PendingSymbols(c.pending) == {};
    } else {
      var c' := Confirm(c, ids[0]);
      forall id | id in c'.pending ensures id in ids[1..] {
        assert id in ids && id != ids[0];
      }
      ConfirmAllConfirms(c', ids[1..]);
      assert c'.subscribed + PendingSymbols(c'.pending) == c.subscribed + PendingSymbols(c.pending) by {
        forall x ensures x in c'.subscribed + PendingSymbols(c'.pending)
                    <==> x in c.subscribed + PendingSymbols(c.pending)
        {
          if x in PendingSymbols(c.pending) {
            var id :| id in c.pending && x in c.pending[id];
            if id != ids[0] { assert id in c'.pending && c'.pending[id] == c.pending[id]; }
          }
          if ids[0] in c.pending && x in Elements(c.pending[ids[0]]) {
            assert x in PendingSymbols(c.pending);
          }
        }
      }
    }
  }

  /** The answers received: any sequence, repetitions and strangers included, that leaves no request out. */
  ghost predicate AnswersAll(c: Client, ids: seq<nat>) {
    forall id | id in c.pending :: id in ids
  }

  /**
   One reconciliation followed by its answers confirms every wanted symbol; what else it leaves confirmed
   is exactly what was already requested but is no longer wanted.
   */
  lemma SyncThenAnswers(c: Client, wanted: set<Symbol>, batchSize: nat, ids: seq<nat>)
    requires batchSize >= 1 && IdsUsed(c)
    requires AnswersAll(Synced(c, wanted, batchSize), ids)
    ensures var r := ConfirmAll(Synced(c, wanted, batchSize), ids);
            && IdsUsed(r) && r.pending == map[] && r.desired == wanted
            && r.subscribed == wanted + (PendingSymbols(c.pending) - wanted)
            && (r.subscribed == wanted <==> PendingSymbols(c.pending) <= wanted)
  {
    var c1 := c.(desired := wanted);
    SendSubscribesRequests(c1, SortedSet(Missing(c1)), batchSize);
    ConfirmAllConfirms(Synced(c, wanted, batchSize), ids);
  }

  /**
   Two reconciliations from any state of a live client leave exactly the wanted symbols confirmed and
   nothing outstanding, whatever the order and number of the answers; a third one sends no frame.
   */
  lemma TwoSyncsConverge(c: Client, wanted: set<Symbol>, batchSize: nat, ids1: seq<nat>, ids2: seq<nat>)
    requires batchSize >= 1 && IdsUsed(c)
    requires AnswersAll(Synced(c, wanted, batchSize), ids1)
    requires AnswersAll(Synced(ConfirmAll(Synced(c, wanted, batchSize), ids1), wanted, batchSize), ids2)
    ensures var r := ConfirmAll(Synced(ConfirmAll(Synced(c, wanted, batchSize), ids1), wanted, batchSize), ids2);
            && r.subscribed == wanted && r.pending == map[]
            && SyncFrames(r, wanted, batchSize) == []
            && Synced(r, wanted, batchSize) == r
  {
    SyncThenAnswers(c, wanted, batchSize, ids1);
    var c1 := ConfirmAll(Synced(c, wanted, batchSize), ids1);
    assert PendingSymbols(c1.pending) == {};
    SyncThenAnswers(c1, wanted, batchSize, ids2);
    var r := ConfirmAll(Synced(c1, wanted, batchSize), ids2);
    assert PendingSymbols(r.pending) == {};
    assert Missing(r) == {} && r.subscribed - wanted == {};
    assert r.(desired := wanted) == r;
    assert r.subscribed * wanted == r.subscribed;
  }

  // ---------------------------------------------------------------------------------------------
  // The client in place
  // ---------------------------------------------------------------------------------------------

  class BybitWebSocketClient {
    var desired: set<Symbol>
    var subscribed: set<Symbol>
    var pending: map<nat, seq<Symbol>>
    var sequence: nat
    /** There is a socket to send on. */
    var socket: bool

    ghost function State(): Client
      reads this
    {
      Client(desired, subscribed, pending, sequence)
    }

    constructor ()
      ensures State() == NewClient && !socket
    {
      desired, subscribed, pending, sequence, socket := {}, {}, map[], 0, false;
    }

    method SetSymbols(symbols: set<Symbol>)
      modifies this`desired
      ensures State() == old(State()).(desired := symbols)
    {
      desired := symbols;
    }

    /** The first thing done on a new connection. */
    method ClearForConnection()
      modifies this
      ensures State() == Reset(old(State())) && socket
      ensures desired == old(desired) && sequence == old(sequence) && subscribed == {} && pending == map[]
    {
      socket := true;
      subscribed := {};
      pending := map[];
    }

    /** Whatever ends a connection takes the socket; the rest is cleared by the next one. */
    method LoseConnection()
      modifies this`socket
      ensures !socket
    {
      socket := false;
    }

    /** What the lock holder finds left to request. */
    method PlanSubscribe() returns (missing: seq<Symbol>)
      ensures Ascending(missing) && Elements(missing) == Missing(State())
    {
      missing := SortedSet(desired - subscribed - PendingSymbols(pending));
    }

    method PlanUnsubscribe(symbols: set<Symbol>) returns (stale: seq<Symbol>)
      ensures Ascending(stale) && Elements(stale) == symbols * subscribed
    {
      stale := SortedSet(symbols * subscribed);
    }

    method RegisterBatch(batch: seq<Symbol>) returns (id: nat)
      modifies this`sequence, this`pending
      ensures State() == Register(old(State()), batch)
      ensures id == sequence
    {
      sequence := sequence + 1;
      id := sequence;
      pending := pending[id := batch];
    }

    method RollBackBatch(id: nat)
      modifies this`pending
      ensures State() == RollBack(old(State()), id)
    {
      pending := pending - {id};
    }

    /** Resolves one request from its answer; `rejected` asks the caller to drop the connection. */
    method HandleSubscribeAck(id: Option<nat>, success: bool) returns (rejected: bool)
      modifies this
      ensures rejected <==> id.Some? && id.value in old(pending) && !success
      ensures State() == if id.None? then old(State())
                         else if success then Confirm(old(State()), id.value)
                         else RollBack(old(State()), id.value)
    {
      rejected := false;
      if id.None? || id.value !in pending {
        assert id.Some? ==> pending - {id.value} == pending;
        return;
      }
      var batch := pending[id.value];
      pending := pending - {id.value};
      if success {
        subscribed := subscribed + Elements(batch);
      } else {
        rejected := true;
      }
    }

    /** Subscribes to a list in batches, up to a send that fails; nothing else runs meanwhile. */
    method SendSubscribeOps(symbols: seq<Symbol>, batchSize: nat, failsAt: Option<nat>)
      returns (frames: seq<Frame>, done: bool)
      requires batchSize >= 1
      modifies this`sequence, this`pending
      ensures Pass(State(), frames, done) == SendUntil(old(State()), symbols, batchSize, failsAt)
    {
      ghost var c := State();
      ghost var goal := SendUntil(c, symbols, batchSize, failsAt);
      frames := [];
      var rest, left := symbols, failsAt;
      while rest != []
        invariant c == State()
        invariant FramesFirst(frames, SendUntil(c, rest, batchSize, left)) == goal
        decreases |rest|
      {
        var k := BatchLength(|rest|, batchSize);
        BatchGoesOut(c, rest, batchSize, left, frames);
        var id := RegisterBatch(rest[..k]);
        if left == Some(0) {
          RollBackBatch(id);
          done := false;
          return;
        }
        frames := frames + [Sub(id, rest[..k])];
        c := State();
        rest, left := rest[k..], OneSendLess(left);
      }
      done := true;
    }

    method SendUnsubscribeOps(symbols: seq<Symbol>, batchSize: nat, failsAt: Option<nat>)
      returns (frames: seq<Frame>, done: bool)
      requires batchSize >= 1
      modifies this`subscribed
      ensures Drop(subscribed, frames, done) == DropUntil(old(subscribed), symbols, batchSize, failsAt)
    {
      ghost var goal := DropUntil(subscribed, symbols, batchSize, failsAt);
      frames := [];
      var rest, left := symbols, failsAt;
      while rest != []
        invariant var r := DropUntil(subscribed, rest, batchSize, left); r.(frames := frames + r.frames) == goal
        decreases |rest|
      {
        if left == Some(0) {
          done := false;
          return;
        }
        var k := BatchLength(|rest|, batchSize);
        frames := frames + [Unsub(rest[..k])];
        subscribed := subscribed - Elements(rest[..k]);
        rest, left := rest[k..], OneSendLess(left);
      }
      done := true;
    }

    /** Requests every wanted symbol that is neither confirmed nor requested, if there is a connection. */
    method Resubscribe(batchSize: nat, failsAt: Option<nat>) returns (frames: seq<Frame>, done: bool)
      requires batchSize >= 1
      modifies this`sequence, this`pending
      ensures Pass(State(), frames, done) ==
              if !socket then Pass(old(State()), [], true)
              else SendUntil(old(State()), SortedSet(Missing(old(State()))), batchSize, failsAt)
    {
      if !socket { return [], true; }
      var missing := PlanSubscribe();
      AscendingUnique(missing, SortedSet(Missing(State())));
      frames, done := SendSubscribeOps(missing, batchSize, failsAt);
    }

    /** Drops those of the given symbols that are confirmed, if there is a connection. */
    method Unsubscribe(symbols: set<Symbol>, batchSize: nat, failsAt: Option<nat>)
      returns (frames: seq<Frame>, done: bool)
      requires batchSize >= 1
      modifies this`subscribed
      ensures Drop(subscribed, frames, done) ==
              if !socket then Drop(old(subscribed), [], true)
              else DropUntil(old(subscribed), SortedSet(symbols * old(subscribed)), batchSize, failsAt)
    {
      if !socket { return [], true; }
      var stale := PlanUnsubscribe(symbols);
      AscendingUnique(stale, SortedSet(symbols * subscribed));
      frames, done := SendUnsubscribeOps(stale, batchSize, failsAt);
    }

    /** One reconciliation against the registry's wanted symbols in which no send fails. */
    method SyncSubscriptions(wanted: set<Symbol>, batchSize: nat) returns (frames: seq<Frame>)
      requires batchSize >= 1
      modifies this`desired, this`sequence, this`pending, this`subscribed
      ensures frames == if socket then SyncFrames(old(State()), wanted, batchSize) else []
      ensures State() == if socket then Synced(old(State()), wanted, batchSize) else old(State()).(desired := wanted)
    {
      ghost var c, c1 := State(), State().(desired := wanted);
      ghost var asks := SortedSet(Missing(c1));
      SetSymbols(wanted);
      var asked, done := Resubscribe(batchSize, None);
      ghost var c2 := State();
      if !socket {
        var none, _ := Unsubscribe(subscribed - wanted, batchSize, None);
        return [];
      }
      SentUnconfirmed(c1, asks, batchSize, Pass(c2, asked, done));
      assert (subscribed - wanted) * subscribed == c.subscribed - wanted;
      var dropped, done' := Unsubscribe(subscribed - wanted, batchSize, None);
      frames := asked + dropped;
      SyncWhole(c, wanted, batchSize, Pass(c2, asked, done), Drop(subscribed, dropped, done'));
      assert State() == c2.(subscribed := subscribed);
    }
  }

  /** A subscribe pass confirms nothing by itself. */
  lemma SentUnconfirmed(c: Client, symbols: seq<Symbol>, batchSize: nat, pass: Pass)
    requires batchSize >= 1 && pass == SendUntil(c, symbols, batchSize, None)
    ensures pass.client.subscribed == c.subscribed
  {
    NothingFails(c, symbols, batchSize);
    SendSubscribesKeep(c, symbols, batchSize);
  }

  lemma SyncedParts(c: Client, wanted: set<Symbol>, batchSize: nat, asks: seq<Symbol>, drops: seq<Symbol>, c2: Client)
    requires batchSize >= 1 && asks == SortedSet(Missing(c.(desired := wanted)))
    requires drops == SortedSet(c.subscribed - wanted)
    requires c2 == SendSubscribes(c.(desired := wanted), asks, batchSize)
    ensures c2.subscribed == c.subscribed
    ensures Synced(c, wanted, batchSize) == c2.(subscribed := c2.subscribed * wanted)
    ensures SyncFrames(c, wanted, batchSize) ==
            SubscribeFrames(c.sequence + 1, asks, batchSize) + UnsubscribeFrames(drops, batchSize)
  {
    SendSubscribesKeep(c.(desired := wanted), asks, batchSize);
  }

  /** What the two passes of a reconciliation leave, whatever the lists are. */
  lemma TwoPasses(c1: Client, batchSize: nat, asks: seq<Symbol>, drops: seq<Symbol>, asked: Pass, dropped: Drop)
    requires batchSize >= 1
    requires asked == SendUntil(c1, asks, batchSize, None)
    requires dropped == DropUntil(c1.subscribed, drops, batchSize, None)
    ensures asked.client == SendSubscribes(c1, asks, batchSize)
    ensures asked.frames == SubscribeFrames(c1.sequence + 1, asks, batchSize)
    ensures dropped.subscribed == c1.subscribed - Elements(drops)
    ensures dropped.frames == UnsubscribeFrames(drops, batchSize)
  {
    NothingFails(c1, asks, batchSize);
    NoDropFails(c1.subscribed, drops, batchSize);
  }

  /** The two passes one after another are the reconciliation. */
  lemma SyncWhole(c: Client, wanted: set<Symbol>, batchSize: nat, asked: Pass, dropped: Drop)
    requires batchSize >= 1
    requires var c1 := c.(desired := wanted); asked == SendUntil(c1, SortedSet(Missing(c1)), batchSize, None)
    requires dropped == DropUntil(c.subscribed, SortedSet(c.subscribed - wanted), batchSize, None)
    ensures asked.frames + dropped.frames == SyncFrames(c, wanted, batchSize)
    ensures asked.client.(subscribed := dropped.subscribed) == Synced(c, wanted, batchSize)
  {
    var c1 := c.(desired := wanted);
    var asks, drops := SortedSet(Missing(c1)), SortedSet(c.subscribed - wanted);
    TwoPasses(c1, batchSize, asks, drops, asked, dropped);
    SyncedParts(c, wanted, batchSize, asks, drops, asked.client);
    assert c.subscribed - Elements(drops) == c.subscribed * wanted;
  }

  /** One batch of a subscribe pass, and the rest of it. */
  lemma BatchGoesOut(c: Client, symbols: seq<Symbol>, batchSize: nat, failsAt: Option<nat>, frames: seq<Frame>)
    requires batchSize >= 1 && symbols != []
    ensures var k := BatchLength(|symbols|, batchSize);
            var c' := Register(c, symbols[..k]);
            FramesFirst(frames, SendUntil(c, symbols, batchSize, failsAt)) ==
            if failsAt == Some(0) then Pass(RollBack(c', c'.sequence), frames, false)
            else FramesFirst(frames + [Sub(c'.sequence, symbols[..k])],
                             SendUntil(c', symbols[k..], batchSize, OneSendLess(failsAt)))
  {
  }
}
