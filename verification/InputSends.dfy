/**
  What a call to one of the send functions puts into the queue, told by Android's action
  codes and the arguments alone.
 */
module InputSends {
  import opened InputQueue
  import opened InputBounds

  /** e arrives as a queue entry of its own, last, whatever had to make room for it. */
  predicate ArrivesAlone(b: BridgeState, c: BridgeState, e: InputEvent) {
    && c.enqueued == b.enqueued + 1 && c.accepted == b.accepted + [e] && c.total == b.total + 1
    && c.queue == (if |b.queue| < 512 then b.queue else b.queue[1..]) + [e]
    && c.dropped == b.dropped + if |b.queue| < 512 then 0 else 1
  }

  /** The motion event e is refused, opens an entry, or is merged into the last one as merged. */
  predicate ArrivesAsMotion(b: BridgeState, c: BridgeState, e: InputEvent, merges: bool, merged: InputEvent) {
    var n := |b.queue|;
    && c.total == b.total + 1 && c.left == b.left && c.delivered == b.delivered
    && (if merges then n > 0 && c.queue == b.queue[..n - 1] + [merged] && c.coalesced == b.coalesced + 1
        else if n < 512 then c.queue == b.queue + [e] && c.dropped == b.dropped
        else c.queue == b.queue && c.dropped == b.dropped + 1)
  }

  /**
    sendTouchEvent: ACTION_DOWN and ACTION_POINTER_DOWN (0 and 5) are presses, ACTION_UP
    and ACTION_POINTER_UP (1 and 6) releases, ACTION_CANCEL (3) a cancel, all else a move.
   */
  lemma TouchArrives(b: BridgeState, action: int, id: int, x: real, y: real, pressure: real, now: nat)
    requires |b.queue| <= 512
    ensures var c := Push(b, TouchEvent(action, id, x, y, pressure, now));
      var n := |b.queue|;
      && (action == 0 || action == 5 ==>
            ArrivesAlone(b, c, InputEvent(TouchDown, id, x, y, pressure, 0.0, 0.0, 0, 0, 0, now)))
      && (action == 1 || action == 6 ==>
            ArrivesAlone(b, c, InputEvent(TouchUp, id, x, y, pressure, 0.0, 0.0, 0, 0, 0, now)))
      && (action == 3 ==>
            ArrivesAlone(b, c, InputEvent(TouchCancel, id, x, y, pressure, 0.0, 0.0, 0, 0, 0, now)))
      && (action != 0 && action != 1 && action != 3 && action != 5 && action != 6 ==>
            ArrivesAsMotion(b, c, InputEvent(TouchMove, id, x, y, pressure, 0.0, 0.0, 0, 0, 0, now),
                            n > 0 && b.queue[n - 1].kind == TouchMove && b.queue[n - 1].id == id,
                            if n == 0 then ResetEvent(0) else
                              b.queue[n - 1].(x := x, y := y, pressure := pressure, timestamp := now)))
  {
  }

  /**
    sendMouseEvent: any scroll at all makes it a scroll, whatever the action; then 0 and
    11 (ACTION_BUTTON_PRESS) are presses, 1 and 12 (ACTION_BUTTON_RELEASE) releases, all
    else a move.  The button mask travels as the event's id.
   */
  lemma MouseArrives(b: BridgeState, action: int, buttons: int, x: real, y: real, scrollX: real, scrollY: real,
                     now: nat)
    requires |b.queue| <= 512
    ensures var c := Push(b, MouseEvent(action, buttons, x, y, scrollX, scrollY, now));
      var n := |b.queue|;
      var still := scrollX == 0.0 && scrollY == 0.0;
      && (!still ==>
            ArrivesAlone(b, c, InputEvent(MouseScroll, buttons, x, y, 1.0, scrollX, scrollY, 0, 0, 0, now)))
      && (still && (action == 0 || action == 11) ==>
            ArrivesAlone(b, c, InputEvent(MouseDown, buttons, x, y, 1.0, 0.0, 0.0, 0, 0, 0, now)))
      && (still && (action == 1 || action == 12) ==>
            ArrivesAlone(b, c, InputEvent(MouseUp, buttons, x, y, 1.0, 0.0, 0.0, 0, 0, 0, now)))
      && (still && action != 0 && action != 1 && action != 11 && action != 12 ==>
            ArrivesAsMotion(b, c, InputEvent(MouseMove, buttons, x, y, 1.0, 0.0, 0.0, 0, 0, 0, now),
                            n > 0 && b.queue[n - 1].kind == MouseMove,
                            if n == 0 then ResetEvent(0) else b.queue[n - 1].(x := x, y := y, timestamp := now)))
  {
  }

  /** sendKeyEvent: a press or a release, with its codes, that is never merged. */
  lemma KeyArrives(b: BridgeState, keyCode: int, isDown: bool, metaState: int, unicodeChar: int, now: nat)
    requires |b.queue| <= 512
    ensures ArrivesAlone(b, Push(b, KeyEvent(keyCode, isDown, metaState, unicodeChar, now)),
                         if isDown
                         then InputEvent(KeyPress, 0, 0.0, 0.0, 1.0, 0.0, 0.0, keyCode, metaState, unicodeChar, now)
                         else InputEvent(KeyRelease, 0, 0.0, 0.0, 1.0, 0.0, 0.0, keyCode, metaState, unicodeChar, now))
  {
  }

  /** resetInput: one entry that carries nothing but its time. */
  lemma ResetArrives(b: BridgeState, now: nat)
    ensures Reset(b, now).queue == [InputEvent(ResetInput, 0, 0.0, 0.0, 1.0, 0.0, 0.0, 0, 0, 0, now)]
    ensures Reset(b, now).total == b.total && Reset(b, now).dropped == b.dropped
  {
  }

  /** In the order the entries stand, no two neighbours are both mouse moves or both touch moves of one id. */
  lemma NeighboursNeverMerge(ops: seq<Op>, k: nat)
    requires 0 < k < |Run(EMPTY, ops).queue|
    ensures var q := Run(EMPTY, ops).queue;
      && !(q[k - 1].kind == MouseMove && q[k].kind == MouseMove)
      && !(q[k - 1].kind == TouchMove && q[k].kind == TouchMove && q[k - 1].id == q[k].id)
  {
    LedgerAndShape(ops);
    hide Run;
  }

  // ---------------------------------------------------------------------------
  // Gestures
  // ---------------------------------------------------------------------------

  datatype Point = Point(x: real, y: real, pressure: real, time: nat)

  /** A finger that moves through points: ACTION_MOVE for each. */
  function Moves(id: int, points: seq<Point>): seq<Op>
    decreases |points|
  {
    if points == [] then []
    else
      var at := points[|points| - 1];
      Moves(id, points[..|points| - 1]) + [DoPush(TouchEvent(2, id, at.x, at.y, at.pressure, at.time))]
  }

  /** What the moves leave in the queue. */
  function LastMove(id: int, points: seq<Point>): seq<InputEvent> {
    if points == [] then []
    else
      var at := points[|points| - 1];
      [InputEvent(TouchMove, id, at.x, at.y, at.pressure, 0.0, 0.0, 0, 0, 0, at.time)]
  }

  lemma {:induction false} MovesMakeOne(b: BridgeState, id: int, points: seq<Point>)
    requires 0 < |b.queue| < 512 && b.queue[|b.queue| - 1].kind == TouchDown
    ensures var c := Run(b, Moves(id, points));
      c.queue == b.queue + LastMove(id, points) && c.dropped == b.dropped && c.left == b.left
    decreases |points|
  {
    if points == [] {
      assert b.queue + [] == b.queue;
    } else {
      var front, at := points[..|points| - 1], points[|points| - 1];
      var c := Run(b, Moves(id, front));
      MovesMakeOne(b, id, front);
      var e := TouchEvent(2, id, at.x, at.y, at.pressure, at.time);
      assert Moves(id, points)[..|Moves(id, points)| - 1] == Moves(id, front);
      assert Run(b, Moves(id, points)) == Push(c, e);
      TouchArrives(c, 2, id, at.x, at.y, at.pressure, at.time);
      hide Push, Moves, Run;
    }
  }

  /** A finger goes down, moves through any points, and goes up. */
  function Gesture(id: int, down: Point, points: seq<Point>, up: Point): seq<Op> {
    [DoPush(TouchEvent(0, id, down.x, down.y, down.pressure, down.time))] + Moves(id, points)
    + [DoPush(TouchEvent(1, id, up.x, up.y, up.pressure, up.time))]
  }

  lemma {:induction false} RunCons(b: BridgeState, op: Op, rest: seq<Op>)
    ensures Run(b, [op] + rest) == Run(Apply(b, op), rest)
    decreases |rest|
  {
    hide Apply;
    if rest == [] {
      assert [op] + rest == [op] && [op][..0] == [];
      assert Run(b, [op][..0]) == b;
    } else {
      RunCons(b, op, rest[..|rest| - 1]);
      assert ([op] + rest)[..|rest|] == [op] + rest[..|rest| - 1];
    }
  }

  /**
    With room for three entries a gesture of one finger, however many moves it has, adds a
    press, at most one move, at the last position, and a release, in that order.
   */
  lemma GestureArrives(b: BridgeState, id: int, down: Point, points: seq<Point>, up: Point)
    requires |b.queue| + 3 <= 512
    ensures var c := Run(b, Gesture(id, down, points, up));
      && c.queue == b.queue
           + [InputEvent(TouchDown, id, down.x, down.y, down.pressure, 0.0, 0.0, 0, 0, 0, down.time)]
           + LastMove(id, points)
           + [InputEvent(TouchUp, id, up.x, up.y, up.pressure, 0.0, 0.0, 0, 0, 0, up.time)]
      && c.dropped == b.dropped
  {
    var press := DoPush(TouchEvent(0, id, down.x, down.y, down.pressure, down.time));
    var release := DoPush(TouchEvent(1, id, up.x, up.y, up.pressure, up.time));
    var b1 := Apply(b, press);
    TouchArrives(b, 0, id, down.x, down.y, down.pressure, down.time);
    MovesMakeOne(b1, id, points);
    var b2 := Run(b1, Moves(id, points));
    TouchArrives(b2, 1, id, up.x, up.y, up.pressure, up.time);
    RunCons(b, press, Moves(id, points));
    var ops := [press] + Moves(id, points);
    assert Gesture(id, down, points, up)[..|ops|] == ops;
    assert Run(b, Gesture(id, down, points, up)) == Apply(b2, release);
    hide Push, Moves, Run;
  }
}
