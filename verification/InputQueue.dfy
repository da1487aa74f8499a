/**
  The bounded input queue between Android's input threads and the compositor: what a
  push does, and what the coalesced stream means to whoever consumes it.
 */
module InputQueue {

  const MAX_QUEUE_SIZE := 512

  datatype EventType =
    | TouchDown | TouchUp | TouchMove | TouchCancel
    | MouseDown | MouseUp | MouseMove | MouseScroll
    | KeyPress | KeyRelease | ResetInput

  datatype InputEvent = InputEvent(
    kind: EventType, id: int, x: real, y: real, pressure: real, scrollX: real, scrollY: real,
    keyCode: int, metaState: int, unicodeChar: int, timestamp: nat)

  predicate IsMotion(e: InputEvent) {
    e.kind == MouseMove || e.kind == TouchMove
  }

  /** A motion event and a later one for the same target. */
  predicate Mergeable(older: InputEvent, newer: InputEvent) {
    || (newer.kind == MouseMove && older.kind == MouseMove)
    || (newer.kind == TouchMove && older.kind == TouchMove && older.id == newer.id)
  }

  /** The older event overwritten in place. */
  function Merge(older: InputEvent, newer: InputEvent): InputEvent
    requires Mergeable(older, newer)
  {
    if newer.kind == MouseMove
    then older.(x := newer.x, y := newer.y, timestamp := newer.timestamp)
    else older.(x := newer.x, y := newer.y, pressure := newer.pressure, timestamp := newer.timestamp)
  }

  /** What the send functions make of Android's action codes. */
  function TouchKind(action: int): EventType {
    if action == 0 || action == 5 then TouchDown
    else if action == 1 || action == 6 then TouchUp
    else if action == 3 then TouchCancel
    else TouchMove
  }

  function MouseKind(action: int, scrollX: real, scrollY: real): EventType {
    if scrollX != 0.0 || scrollY != 0.0 then MouseScroll
    else if action == 0 || action == 11 then MouseDown
    else if action == 1 || action == 12 then MouseUp
    else MouseMove
  }

  function TouchEvent(action: int, pointerId: int, x: real, y: real, pressure: real, now: nat): InputEvent {
    InputEvent(TouchKind(action), pointerId, x, y, pressure, 0.0, 0.0, 0, 0, 0, now)
  }

  function MouseEvent(action: int, buttons: int, x: real, y: real, scrollX: real, scrollY: real, now: nat)
    : InputEvent
  {
    InputEvent(MouseKind(action, scrollX, scrollY), buttons, x, y, 1.0, scrollX, scrollY, 0, 0, 0, now)
  }

  function KeyEvent(keyCode: int, isDown: bool, metaState: int, unicodeChar: int, now: nat): InputEvent {
    InputEvent(if isDown then KeyPress else KeyRelease, 0, 0.0, 0.0, 1.0, 0.0, 0.0,
               keyCode, metaState, unicodeChar, now)
  }

  function ResetEvent(now: nat): InputEvent {
    InputEvent(ResetInput, 0, 0.0, 0.0, 1.0, 0.0, 0.0, 0, 0, 0, now)
  }

  // ---------------------------------------------------------------------------
  // The queue and its history
  // ---------------------------------------------------------------------------

  /**
    queue, total and dropped are the fields of the bridge; the rest is history.  Entries
    are numbered in the order they were enqueued: the queue holds the last |queue| of the
    enqueued entries.
   */
  datatype BridgeState = BridgeState(
    queue: seq<InputEvent>, total: nat, dropped: nat,
    pushed: seq<InputEvent>,     // every event pushed
    accepted: seq<InputEvent>,   // those not refused
    left: seq<InputEvent>,       // entries that left at the front, popped or evicted
    delivered: seq<InputEvent>,  // those popped
    enqueued: nat, coalesced: nat, flushed: nat, resets: nat)

  const EMPTY := BridgeState([], 0, 0, [], [], [], [], 0, 0, 0, 0)

  datatype Outcome = Merged | Refused | Evicting | Appended

  /** What pushing e does to a queue. */
  function PushOutcome(queue: seq<InputEvent>, e: InputEvent): Outcome {
    if |queue| > 0 && Mergeable(queue[|queue| - 1], e) then Merged
    else if |queue| < MAX_QUEUE_SIZE then Appended
    else if IsMotion(e) then Refused
    else Evicting
  }

  function Push(b: BridgeState, e: InputEvent): BridgeState {
    var c := b.(total := b.total + 1, pushed := b.pushed + [e]);
    var n := |b.queue|;
    match PushOutcome(b.queue, e)
    case Merged =>
      c.(queue := b.queue[n - 1 := Merge(b.queue[n - 1], e)], accepted := b.accepted + [e],
         coalesced := b.coalesced + 1)
    case Refused => c.(dropped := b.dropped + 1)
    case Evicting =>
      c.(queue := b.queue[1..] + [e], dropped := b.dropped + 1, left := b.left + [b.queue[0]],
         accepted := b.accepted + [e], enqueued := b.enqueued + 1)
    case Appended =>
      c.(queue := b.queue + [e], accepted := b.accepted + [e], enqueued := b.enqueued + 1)
  }

  function Pop(b: BridgeState): BridgeState {
    if b.queue == [] then b
    else b.(queue := b.queue[1..], left := b.left + [b.queue[0]],
            delivered := b.delivered + [b.queue[0]])
  }

  function Reset(b: BridgeState, now: nat): BridgeState {
    b.(queue := [ResetEvent(now)], flushed := b.flushed + |b.queue|, resets := b.resets + 1,
       enqueued := b.enqueued + 1)
  }

  function Clear(b: BridgeState): BridgeState {
    b.(queue := [], flushed := b.flushed + |b.queue|)
  }

  datatype Op = DoPush(event: InputEvent) | DoPop | DoReset(now: nat) | DoClear

  function Apply(b: BridgeState, op: Op): BridgeState {
    match op
    case DoPush(e) => Push(b, e)
    case DoPop => Pop(b)
    case DoReset(now) => Reset(b, now)
    case DoClear => Clear(b)
  }

  function Run(b: BridgeState, ops: seq<Op>): BridgeState
    decreases |ops|
  {
    if ops == [] then b else Apply(Run(b, ops[..|ops| - 1]), ops[|ops| - 1])
  }

  // ---------------------------------------------------------------------------
  // Ledger and shape
  // ---------------------------------------------------------------------------

  predicate NoMergeableNeighbours(queue: seq<InputEvent>) {
    forall k :: 0 < k < |queue| ==> !Mergeable(queue[k - 1], queue[k])
  }

  predicate Inv(b: BridgeState) {
    && |b.queue| <= MAX_QUEUE_SIZE
    && |b.queue| <= b.enqueued
    && b.total + b.resets == |b.delivered| + |b.queue| + b.dropped + b.coalesced + b.flushed
    && NoMergeableNeighbours(b.queue)
  }

  lemma ApplyKeeps(b: BridgeState, op: Op)
    requires Inv(b)
    ensures Inv(Apply(b, op))
  {
    match op
    case DoPush(e) => PushKeepsShape(b, e);
    case DoPop =>
    case DoReset(_) =>
    case DoClear =>
  }

  lemma PushKeepsShape(b: BridgeState, e: InputEvent)
    requires Inv(b)
    ensures Inv(Push(b, e))
  {
    var q, r, n := b.queue, Push(b, e).queue, |b.queue|;
    forall k | 0 < k < |r| ensures !Mergeable(r[k - 1], r[k]) {
      match PushOutcome(q, e)
      case Merged => assert !Mergeable(q[k - 1], q[k]);
      case Refused => assert !Mergeable(q[k - 1], q[k]);
      case Evicting => if k < n - 1 { assert !Mergeable(q[k], q[k + 1]); }
      case Appended => if k < n { assert !Mergeable(q[k - 1], q[k]); }
    }
  }

  /**
    In every reachable state the counters balance, the queue holds at most 512 events,
    and no two neighbours are moves of the same target.
   */
  lemma {:induction false} LedgerAndShape(ops: seq<Op>)
    ensures Inv(Run(EMPTY, ops))
    decreases |ops|
  {
    if ops != [] {
      LedgerAndShape(ops[..|ops| - 1]);
      ApplyKeeps(Run(EMPTY, ops[..|ops| - 1]), ops[|ops| - 1]);
    }
  }

  // ---------------------------------------------------------------------------
  // Coalescing preserves meaning
  // ---------------------------------------------------------------------------

  /** What a consumer has made of a stream: its state, and what it saw of each other event. */
  datatype View<S> = View(state: S, seen: seq<(InputEvent, S)>)

  /** A consumer is a state and a reaction; only motion passes without being noted. */
  function Watch<S>(react: (S, InputEvent) -> S, start: S, events: seq<InputEvent>): View<S>
    decreases |events|
  {
    if events == [] then View(start, [])
    else
      var v := Watch(react, start, events[..|events| - 1]);
      var e := events[|events| - 1];
      View(react(v.state, e), if IsMotion(e) then v.seen else v.seen + [(e, v.state)])
  }

  /** Two moves of one target leave the consumer where the merged move leaves it. */
  ghost predicate LastMoveWins<S(!new)>(react: (S, InputEvent) -> S) {
    forall s: S, a: InputEvent, b: InputEvent ::
      Mergeable(a, b) ==> react(react(s, a), b) == react(s, Merge(a, b))
  }

  lemma WatchSnoc<S>(react: (S, InputEvent) -> S, start: S, events: seq<InputEvent>, e: InputEvent)
    ensures var v := Watch(react, start, events);
      Watch(react, start, events + [e])
      == View(react(v.state, e), if IsMotion(e) then v.seen else v.seen + [(e, v.state)])
  {
    assert (events + [e])[..|events|] == events;
  }

  lemma {:induction false} WatchCongruent<S>(react: (S, InputEvent) -> S, start: S,
                                             a: seq<InputEvent>, b: seq<InputEvent>, e: InputEvent)
    requires Watch(react, start, a) == Watch(react, start, b)
    ensures Watch(react, start, a + [e]) == Watch(react, start, b + [e])
  {
    WatchSnoc(react, start, a, e);
    WatchSnoc(react, start, b, e);
  }

  lemma WatchMerged<S(!new)>(react: (S, InputEvent) -> S, start: S, front: seq<InputEvent>,
                             a: InputEvent, b: InputEvent)
    requires LastMoveWins(react) && Mergeable(a, b)
    ensures Watch(react, start, front + [a] + [b]) == Watch(react, start, front + [Merge(a, b)])
  {
    WatchSnoc(react, start, front, a);
    WatchSnoc(react, start, front + [a], b);
    WatchSnoc(react, start, front, Merge(a, b));
  }

  function NonMotion(events: seq<InputEvent>): seq<InputEvent>
    decreases |events|
  {
    if events == [] then []
    else NonMotion(events[..|events| - 1])
         + if IsMotion(events[|events| - 1]) then [] else [events[|events| - 1]]
  }

  lemma NonMotionSnoc(events: seq<InputEvent>, e: InputEvent)
    ensures NonMotion(events + [e]) == NonMotion(events) + if IsMotion(e) then [] else [e]
  {
    assert (events + [e])[..|events|] == events;
  }

  /** Pushes and pops only. */
  predicate Streaming(ops: seq<Op>) {
    forall k :: 0 <= k < |ops| ==> ops[k].DoPush? || ops[k].DoPop?
  }

  /** The two streams a consumer could be given: the raw one and the one it really gets. */
  ghost predicate SameView<S(!new)>(react: (S, InputEvent) -> S, start: S, b: BridgeState) {
    Watch(react, start, b.accepted) == Watch(react, start, b.left + b.queue)
  }

  lemma PushPreservesView<S(!new)>(react: (S, InputEvent) -> S, start: S, b: BridgeState, e: InputEvent)
    requires LastMoveWins(react) && SameView(react, start, b)
    ensures SameView(react, start, Push(b, e))
  {
    var c := Push(b, e);
    var n := |b.queue|;
    match PushOutcome(b.queue, e)
    case Merged =>
      var front, a := b.left + b.queue[..n - 1], b.queue[n - 1];
      assert b.left + b.queue == front + [a];
      assert c.left + c.queue == front + [Merge(a, e)];
      WatchCongruent(react, start, b.accepted, b.left + b.queue, e);
      WatchMerged(react, start, front, a, e);
    case Refused =>
    case Evicting =>
      assert c.left + c.queue == (b.left + b.queue) + [e];
      WatchCongruent(react, start, b.accepted, b.left + b.queue, e);
    case Appended =>
      assert c.left + c.queue == (b.left + b.queue) + [e];
      WatchCongruent(react, start, b.accepted, b.left + b.queue, e);
  }

  /**
    For every consumer to whom the last move wins, and any mix of pushes and pops, what
    has left the queue followed by what is in it means the same as the events accepted:
    same non-motion events in the same order, the consumer in the same state at each of
    them and at the end.
   */
  lemma {:induction false} CoalescingPreservesView<S(!new)>(react: (S, InputEvent) -> S, start: S, ops: seq<Op>)
    requires LastMoveWins(react) && Streaming(ops)
    ensures SameView(react, start, Run(EMPTY, ops))
    decreases |ops|
  {
    if ops != [] {
      var before := Run(EMPTY, ops[..|ops| - 1]);
      CoalescingPreservesView(react, start, ops[..|ops| - 1]);
      match ops[|ops| - 1]
      case DoPush(e) => PushPreservesView(react, start, before, e);
      case DoPop =>
        if before.queue != [] {
          assert Pop(before).left + Pop(before).queue == before.left + before.queue;
        }
    }
  }

  predicate OnlyMotionLost(b: BridgeState) {
    && NonMotion(b.accepted) == NonMotion(b.pushed)
    && (b.dropped == 0 ==> b.accepted == b.pushed && b.left == b.delivered)
  }

  lemma PushLosesOnlyMotion(b: BridgeState, e: InputEvent)
    requires OnlyMotionLost(b)
    ensures OnlyMotionLost(Push(b, e))
  {
    NonMotionSnoc(b.accepted, e);
    NonMotionSnoc(b.pushed, e);
    hide NonMotion, Mergeable, Merge;
  }

  /** Only motion is ever refused, and without drops everything pushed was delivered or waits. */
  lemma {:induction false} OnlyMotionIsRefused(ops: seq<Op>)
    requires Streaming(ops)
    ensures OnlyMotionLost(Run(EMPTY, ops))
    decreases |ops|
  {
    if ops != [] {
      var b := Run(EMPTY, ops[..|ops| - 1]);
      OnlyMotionIsRefused(ops[..|ops| - 1]);
      match ops[|ops| - 1]
      case DoPush(e) => PushLosesOnlyMotion(b, e);
      case DoPop =>
    }
  }

  /** Without drops: delivered-then-queued means to the consumer what the pushed events mean. */
  lemma CoalescingIsInvisible<S(!new)>(react: (S, InputEvent) -> S, start: S, ops: seq<Op>)
    requires LastMoveWins(react) && Streaming(ops) && Run(EMPTY, ops).dropped == 0
    ensures var b := Run(EMPTY, ops);
      Watch(react, start, b.pushed) == Watch(react, start, b.delivered + b.queue)
  {
    CoalescingPreservesView(react, start, ops);
    OnlyMotionIsRefused(ops);
  }

  /**
    And those are the only consumers to whom it is invisible: if coalescing shows in no
    drop-free run, the last move wins.
   */
  lemma InvisibleOnlyIfLastMoveWins<S(!new)>(react: (S, InputEvent) -> S)
    requires forall start: S, ops: seq<Op> :: Streaming(ops) && Run(EMPTY, ops).dropped == 0 ==>
               Watch(react, start, Run(EMPTY, ops).pushed)
               == Watch(react, start, Run(EMPTY, ops).delivered + Run(EMPTY, ops).queue)
    ensures LastMoveWins(react)
  {
    forall s: S, a: InputEvent, b: InputEvent | Mergeable(a, b)
      ensures react(react(s, a), b) == react(s, Merge(a, b))
    {
      var ops := [DoPush(a), DoPush(b)];
      TwoPushes(a, b);
      assert Streaming(ops);
      assert Watch(react, s, [a, b]) == Watch(react, s, [] + [Merge(a, b)]);
      WatchSnoc(react, s, [], Merge(a, b));
      WatchSnoc(react, s, [], a);
      WatchSnoc(react, s, [a], b);
      assert [] + [a] == [a] && [a] + [b] == [a, b];
    }
  }

  lemma TwoPushes(a: InputEvent, b: InputEvent)
    requires Mergeable(a, b)
    ensures var r := Run(EMPTY, [DoPush(a), DoPush(b)]);
      r.pushed == [a, b] && r.queue == [Merge(a, b)] && r.delivered == [] && r.dropped == 0
  {
    var ops := [DoPush(a), DoPush(b)];
    assert ops[..1] == [DoPush(a)] && ops[..1][..0] == [];
    assert Run(EMPTY, ops[..1]) == Push(EMPTY, a);
    assert Push(EMPTY, a).queue == [a];
  }

  // ---------------------------------------------------------------------------
  // A consumer to whom coalescing is invisible, and one to whom it is not
  // ---------------------------------------------------------------------------

  datatype Contact = Contact(x: real, y: real, pressure: real)

  /** Where the pointer is and what each finger presses, with the events noted. */
  datatype Pointers = Pointers(known: bool, x: real, y: real, touches: map<int, Contact>)

  function Track(s: Pointers, e: InputEvent): Pointers {
    match e.kind
    case MouseMove => s.(known := true, x := e.x, y := e.y)
    case MouseDown => s.(known := true, x := e.x, y := e.y)
    case MouseUp => s.(known := true, x := e.x, y := e.y)
    case TouchDown => s.(touches := s.touches[e.id := Contact(e.x, e.y, e.pressure)])
    case TouchMove => s.(touches := s.touches[e.id := Contact(e.x, e.y, e.pressure)])
    case TouchUp => s.(touches := s.touches - {e.id})
    case TouchCancel => s.(touches := map[])
    case ResetInput => Pointers(false, 0.0, 0.0, map[])
    case _ => s
  }

  lemma TrackLastMoveWins()
    ensures LastMoveWins(Track)
  {
    forall s: Pointers, a: InputEvent, b: InputEvent | Mergeable(a, b)
      ensures Track(Track(s, a), b) == Track(s, Merge(a, b))
    {
      assert Track(Track(s, a), b).touches == Track(s, Merge(a, b)).touches;
    }
  }

  /** The button mask a mouse move carries is the older one after merging. */
  function TrackButtons(s: int, e: InputEvent): int {
    if e.kind == MouseMove then e.id else s
  }

  /** So a consumer that reads buttons off mouse moves can tell the streams apart. */
  lemma ButtonsOfMovesAreLost()
    ensures !LastMoveWins(TrackButtons)
  {
    var a := MouseEvent(2, 0, 0.0, 0.0, 0.0, 0.0, 0);
    var b := MouseEvent(2, 1, 0.0, 0.0, 0.0, 0.0, 0);
    assert Mergeable(a, b);
    assert TrackButtons(TrackButtons(0, a), b) == 1;
    assert TrackButtons(0, Merge(a, b)) == 0;
  }
}
