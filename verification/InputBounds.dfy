/**
  The capacity policy and the reset barrier of the input queue, over whole runs.
 */
module InputBounds {
  import opened InputQueue

  // ---------------------------------------------------------------------------
  // Overflow
  // ---------------------------------------------------------------------------

  /** The number of the entry at the front of the queue. */
  function Head(b: BridgeState): int {
    b.enqueued - |b.queue|
  }

  lemma RunSnoc(ops: seq<Op>, op: Op)
    ensures Run(EMPTY, ops + [op]) == Apply(Run(EMPTY, ops), op)
  {
    hide Apply;
    assert (ops + [op])[..|ops|] == ops;
  }

  /** A non-motion event always gets in, last; a motion event never costs another its place. */
  lemma AcceptancePolicy(b: BridgeState, e: InputEvent)
    ensures !IsMotion(e) ==>
              && Push(b, e).queue != [] && Push(b, e).queue[|Push(b, e).queue| - 1] == e
              && Push(b, e).enqueued == b.enqueued + 1
    ensures IsMotion(e) ==> Push(b, e).left == b.left && Head(Push(b, e)) == Head(b)
    ensures IsMotion(e) && Push(b, e).accepted == b.accepted ==>
              Push(b, e).queue == b.queue && |b.queue| >= MAX_QUEUE_SIZE
  {
  }

  /** Entry number n leaves at the front because op needed the room. */
  predicate Evicts(b: BridgeState, op: Op, n: int) {
    && op.DoPush? && PushOutcome(b.queue, op.event) == Evicting && n == Head(b)
  }

  /**
    A push evicts entry number n if and only if it is not motion, n is still in the
    queue, and exactly 511 entries were enqueued after n.
   */
  lemma EvictedIff(ops: seq<Op>, op: Op, n: int)
    requires op.DoPush?
    ensures var b := Run(EMPTY, ops);
      Evicts(b, op, n) <==> !IsMotion(op.event) && Head(b) <= n && b.enqueued - n - 1 == MAX_QUEUE_SIZE - 1
  {
    LedgerAndShape(ops);
  }

  /** The push ops[p] was not refused; what it pushed is the newest entry, or part of it. */
  predicate Accepted(ops: seq<Op>, p: nat)
    requires p < |ops|
  {
    ops[p].DoPush? && PushOutcome(Run(EMPTY, ops[..p]).queue, ops[p].event) != Refused
  }

  /** The number of the entry an accepted push ended up in, by appending or by merging. */
  function EntryOf(ops: seq<Op>, p: nat): int
    requires p < |ops|
  {
    Run(EMPTY, ops[..p + 1]).enqueued - 1
  }

  /** An accepted event is what its entry says it is; motion merged in has set the position. */
  lemma AcceptedIsNewest(ops: seq<Op>, p: nat)
    requires p < |ops| && Accepted(ops, p)
    ensures var b, e := Run(EMPTY, ops[..p + 1]), ops[p].event;
      && b.queue != [] && Head(b) <= EntryOf(ops, p) == Head(b) + |b.queue| - 1
      && var newest := b.queue[|b.queue| - 1];
         newest.kind == e.kind && newest.x == e.x && newest.y == e.y && (!IsMotion(e) ==> newest == e)
  {
    assert ops[..p + 1][..p] == ops[..p];
  }

  /**
    An accepted event, merged ones included, is evicted by a later push if and only if
    that push is not motion, the event's entry is still waiting, and exactly 511 entries
    were enqueued behind it in between, whatever was popped.
   */
  lemma EvictedBehind511(ops: seq<Op>, p: nat, q: nat)
    requires p < q < |ops| && Accepted(ops, p) && ops[q].DoPush?
    ensures var b := Run(EMPTY, ops[..q]);
      Evicts(b, ops[q], EntryOf(ops, p))
      <==> && !IsMotion(ops[q].event) && Head(b) <= EntryOf(ops, p)
           && b.enqueued - Run(EMPTY, ops[..p + 1]).enqueued == MAX_QUEUE_SIZE - 1
  {
    EvictedIff(ops[..q], ops[q], EntryOf(ops, p));
  }

  // ---------------------------------------------------------------------------
  // Presses can be lost
  // ---------------------------------------------------------------------------

  function Press(k: nat): Op {
    DoPush(KeyEvent(k, true, 0, 0, 0))
  }

  function Presses(n: nat): (ops: seq<Op>)
    ensures |ops| == n && forall k :: 0 <= k < n ==> ops[k] == Press(k)
  {
    seq(n, k requires 0 <= k < n => Press(k))
  }

  function PressEvents(n: nat): (events: seq<InputEvent>)
    ensures |events| == n && forall k :: 0 <= k < n ==> events[k] == Press(k).event
  {
    seq(n, k requires 0 <= k < n => Press(k).event)
  }

  /** The queue holds these events and nothing has left it or been dropped. */
  predicate Untouched(b: BridgeState, queue: seq<InputEvent>) {
    b.queue == queue && b.left == [] && b.delivered == [] && b.dropped == 0
  }

  lemma PressAppends(b: BridgeState, queue: seq<InputEvent>, k: nat)
    requires Untouched(b, queue) && |queue| < MAX_QUEUE_SIZE
    ensures Untouched(Apply(b, Press(k)), queue + [Press(k).event])
  {
  }

  lemma {:induction false} PressesQueue(n: nat)
    requires n <= MAX_QUEUE_SIZE
    ensures Untouched(Run(EMPTY, Presses(n)), PressEvents(n))
  {
    hide Run, Apply, Press, Untouched, Presses, PressEvents;
    if n > 0 {
      PressesQueue(n - 1);
      PressesSnoc(n - 1);
      RunSnoc(Presses(n - 1), Press(n - 1));
      PressAppends(Run(EMPTY, Presses(n - 1)), PressEvents(n - 1), n - 1);
    } else {
      NoPresses();
    }
  }

  lemma NoPresses()
    ensures Untouched(Run(EMPTY, Presses(0)), PressEvents(0))
  {
    assert Presses(0) == [] && PressEvents(0) == [];
  }

  lemma PressesSnoc(n: nat)
    ensures Presses(n + 1) == Presses(n) + [Press(n)] && PressEvents(n + 1) == PressEvents(n) + [Press(n).event]
  {
    hide Press;
  }

  lemma PressEvicts(b: BridgeState, queue: seq<InputEvent>, k: nat)
    requires Untouched(b, queue) && |queue| == MAX_QUEUE_SIZE
    ensures var c := Apply(b, Press(k));
      c.queue == queue[1..] + [Press(k).event] && c.left == [queue[0]] && c.delivered == [] && c.dropped == 1
  {
  }

  /** 513 key presses in a row: all are accepted, and the first is lost without being delivered. */
  lemma PressIsLost()
    ensures var b := Run(EMPTY, Presses(513));
      && NonMotion(b.pushed) == NonMotion(b.accepted) && b.delivered == [] && b.dropped == 1
      && b.left == [Press(0).event] && Press(0).event.kind == KeyPress
      && Press(0).event !in b.queue
  {
    PressesQueue(512);
    OnlyMotionIsRefused(Presses(513));
    assert Presses(513) == Presses(512) + [Press(512)];
    RunSnoc(Presses(512), Press(512));
    hide Run, Apply;
    PressEvicts(Run(EMPTY, Presses(512)), PressEvents(512), 512);
    LaterPresses(PressEvents(512)[1..] + [Press(512).event]);
  }

  lemma LaterPresses(queue: seq<InputEvent>)
    requires queue == PressEvents(512)[1..] + [Press(512).event]
    ensures Press(0).event !in queue
  {
    forall k | 0 <= k < |queue| ensures queue[k] == Press(k + 1).event {
      if k < 511 { assert queue[k] == PressEvents(512)[k + 1]; }
    }
  }

  /** e is entry number n and, unless it has left, waits at the place its number gives. */
  predicate InPlace(b: BridgeState, n: int, e: InputEvent) {
    Head(b) <= n ==> n < b.enqueued && b.queue[n - Head(b)] == e
  }

  lemma NonMotionStep(b: BridgeState, op: Op, n: int, e: InputEvent)
    requires Inv(b) && !IsMotion(e) && InPlace(b, n, e) && n < b.enqueued && Head(b) <= Head(Apply(b, op))
    ensures InPlace(Apply(b, op), n, e)
  {
    var c := Apply(b, op);
    match op
    case DoPush(x) =>
    case DoPop =>
    case DoReset(_) =>
    case DoClear =>
  }

  lemma HeadAdvances(b: BridgeState, op: Op)
    ensures Head(b) <= Head(Apply(b, op))
  {
  }

  /** Until it leaves, a non-motion event waits unchanged at the place its number gives. */
  lemma {:induction false} NonMotionKeepsItsPlace(ops: seq<Op>, p: nat, q: nat)
    requires p < q <= |ops| && ops[p].DoPush? && !IsMotion(ops[p].event)
    ensures InPlace(Run(EMPTY, ops[..q]), Run(EMPTY, ops[..p]).enqueued, ops[p].event)
    decreases q
  {
    hide Apply, Inv;
    assert ops[..q][..q - 1] == ops[..q - 1];
    LedgerAndShape(ops[..q - 1]);
    if p < q - 1 {
      HeadAdvances(Run(EMPTY, ops[..q - 1]), ops[q - 1]);
      NonMotionKeepsItsPlace(ops, p, q - 1);
      NonMotionStep(Run(EMPTY, ops[..q - 1]), ops[q - 1], Run(EMPTY, ops[..p]).enqueued, ops[p].event);
    } else {
      NonMotionEnters(Run(EMPTY, ops[..p]), ops[p]);
    }
  }

  lemma NonMotionEnters(b: BridgeState, op: Op)
    requires op.DoPush? && !IsMotion(op.event)
    ensures InPlace(Apply(b, op), b.enqueued, op.event)
  {
    AcceptancePolicy(b, op.event);
  }

  /** Moves of one target. */
  predicate Burst(ops: seq<Op>, id: int) {
    forall k :: 0 <= k < |ops| ==> ops[k].DoPush? && ops[k].event.kind == TouchMove && ops[k].event.id == id
  }

  /** A burst of moves of one finger takes one place at most, and drops nothing if there is one. */
  lemma {:induction false} BurstTakesOnePlace(b: BridgeState, ops: seq<Op>, id: int)
    requires |b.queue| < MAX_QUEUE_SIZE && Burst(ops, id) && ops != []
    ensures var c := Run(b, ops);
      && |b.queue| <= |c.queue| <= |b.queue| + 1 && c.dropped == b.dropped
      && c.queue != []
      && c.queue[|c.queue| - 1].kind == TouchMove && c.queue[|c.queue| - 1].id == id
      && c.queue[|c.queue| - 1].x == ops[|ops| - 1].event.x
      && c.queue[|c.queue| - 1].y == ops[|ops| - 1].event.y
    decreases |ops|
  {
    var front := ops[..|ops| - 1];
    if front != [] {
      BurstTakesOnePlace(b, front, id);
    } else {
      assert Run(b, front) == b;
    }
  }

  // ---------------------------------------------------------------------------
  // The reset barrier
  // ---------------------------------------------------------------------------

  /** What the operations of a run deliver, started from b. */
  function Deliveries(b: BridgeState, ops: seq<Op>): seq<InputEvent>
    decreases |ops|
  {
    if ops == [] then []
    else
      var before := Run(b, ops[..|ops| - 1]);
      Deliveries(b, ops[..|ops| - 1])
      + if ops[|ops| - 1].DoPop? && before.queue != [] then [before.queue[0]] else []
  }

  lemma {:induction false} DeliveriesAreDelivered(b: BridgeState, ops: seq<Op>)
    ensures Run(b, ops).delivered == b.delivered + Deliveries(b, ops)
    decreases |ops|
  {
    if ops != [] { DeliveriesAreDelivered(b, ops[..|ops| - 1]); }
  }

  lemma {:induction false} SameQueueSameFuture(a: BridgeState, b: BridgeState, ops: seq<Op>)
    requires a.queue == b.queue
    ensures Run(a, ops).queue == Run(b, ops).queue && Deliveries(a, ops) == Deliveries(b, ops)
    decreases |ops|
  {
    if ops != [] { SameQueueSameFuture(a, b, ops[..|ops| - 1]); }
  }

  /**
    The barrier: whatever came before it, what is delivered after a reset is what would
    be delivered after a reset of an empty bridge.  Nothing pushed before gets through,
    and nothing after it is merged into, or refused or evicted because of, what was before.
   */
  lemma ResetForgetsEverything(b: BridgeState, now: nat, ops: seq<Op>)
    ensures Deliveries(Reset(b, now), ops) == Deliveries(Reset(EMPTY, now), ops)
    ensures Run(Reset(b, now), ops).delivered == b.delivered + Deliveries(Reset(EMPTY, now), ops)
  {
    SameQueueSameFuture(Reset(b, now), Reset(EMPTY, now), ops);
    DeliveriesAreDelivered(Reset(b, now), ops);
  }

  /** What the send functions push: anything but a reset. */
  predicate SendsOnly(ops: seq<Op>) {
    forall k :: 0 <= k < |ops| ==> ops[k].DoPush? && ops[k].event.kind != ResetInput
  }

  predicate FromSends(events: seq<InputEvent>) {
    forall k :: 0 <= k < |events| ==> events[k].kind != ResetInput
  }

  /** After a reset and any number of sends: RESET_INPUT in front, or evicted. */
  lemma {:induction false} ResetThenSends(b: BridgeState, now: nat, ops: seq<Op>)
    requires SendsOnly(ops)
    ensures var c := Run(Reset(b, now), ops);
      && 0 < |c.queue| <= MAX_QUEUE_SIZE
      && FromSends(c.queue[1..])
      && (if c.left == b.left then c.queue[0] == ResetEvent(now)
          else c.queue[0].kind != ResetInput && |c.left| > |b.left|)
    decreases |ops|
  {
    if ops != [] {
      var front := ops[..|ops| - 1];
      ResetThenSends(b, now, front);
      var c := Run(Reset(b, now), front);
      var d := Push(c, ops[|ops| - 1].event);
      assert Run(Reset(b, now), ops) == d;
      forall k | 0 <= k < |d.queue[1..]| ensures d.queue[1..][k].kind != ResetInput {
        if k < |c.queue[1..]| { assert c.queue[1..][k].kind != ResetInput; }
        if k + 1 < |c.queue[1..]| { assert c.queue[1..][k + 1].kind != ResetInput; }
      }
      if |c.queue| > 1 { assert c.queue[1..][0].kind != ResetInput; }
    }
  }

  /** RESET_INPUT is the next event popped if and only if no overflow evicted it. */
  lemma ResetIsNextUnlessEvicted(b: BridgeState, now: nat, ops: seq<Op>)
    requires SendsOnly(ops)
    ensures Deliveries(Reset(b, now), ops + [DoPop]) == [ResetEvent(now)]
            <==> Run(Reset(b, now), ops).left == b.left
  {
    ResetThenSends(b, now, ops);
    SendsDeliverNothing(Reset(b, now), ops);
    assert (ops + [DoPop])[..|ops|] == ops;
    var c := Run(Reset(b, now), ops);
    assert Deliveries(Reset(b, now), ops + [DoPop]) == [c.queue[0]];
    assert [c.queue[0]][0] == c.queue[0];
  }

  lemma {:induction false} SendsDeliverNothing(b: BridgeState, ops: seq<Op>)
    requires forall k :: 0 <= k < |ops| ==> ops[k].DoPush?
    ensures Deliveries(b, ops) == []
    decreases |ops|
  {
    if ops != [] { SendsDeliverNothing(b, ops[..|ops| - 1]); }
  }
}
