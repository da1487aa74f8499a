/**
  The bridge object: its queue and counters updated in place, each method proved to
  compute the specification of InputQueue.
 */
module InputBridge {
  import opened InputQueue

  datatype Popped = Nothing | Event(event: InputEvent)

  class InputBridge {
    var eventQueue: seq<InputEvent>
    var totalEvents: nat
    var droppedEvents: nat
    ghost var history: BridgeState   // only its history fields are read

    ghost function Model(): (b: BridgeState)
      reads this
    {
      history.(queue := eventQueue, total := totalEvents, dropped := droppedEvents)
    }

    constructor ()
      ensures Model() == EMPTY
    {
      eventQueue, totalEvents, droppedEvents := [], 0, 0;
      history := EMPTY;
    }

    method PushEventLocked(e: InputEvent)
      modifies this
      ensures Model() == Push(old(Model()), e)
    {
      totalEvents := totalEvents + 1;
      history := history.(pushed := history.pushed + [e]);
      var n := |eventQueue|;
      if n > 0 {
        if e.kind == MouseMove && eventQueue[n - 1].kind == MouseMove {
          eventQueue := eventQueue[n - 1 := eventQueue[n - 1].(x := e.x, y := e.y, timestamp := e.timestamp)];
          history := history.(accepted := history.accepted + [e], coalesced := history.coalesced + 1);
          return;
        } else if e.kind == TouchMove && eventQueue[n - 1].kind == TouchMove && eventQueue[n - 1].id == e.id {
          eventQueue := eventQueue[n - 1 := eventQueue[n - 1].(x := e.x, y := e.y, pressure := e.pressure,
                                                                timestamp := e.timestamp)];
          history := history.(accepted := history.accepted + [e], coalesced := history.coalesced + 1);
          return;
        }
      }
      if |eventQueue| >= MAX_QUEUE_SIZE {
        if e.kind == TouchMove || e.kind == MouseMove {
          droppedEvents := droppedEvents + 1;
          return;
        }
        history := history.(left := history.left + [eventQueue[0]]);
        eventQueue := eventQueue[1..];
        droppedEvents := droppedEvents + 1;
      }
      eventQueue := eventQueue + [e];
      history := history.(accepted := history.accepted + [e], enqueued := history.enqueued + 1);
    }

    method SendTouchEvent(action: int, pointerId: int, x: real, y: real, pressure: real, now: nat)
      modifies this
      ensures Model() == Push(old(Model()), TouchEvent(action, pointerId, x, y, pressure, now))
    {
      var kind;
      if action == 0 || action == 5 {
        kind := TouchDown;
      } else if action == 1 || action == 6 {
        kind := TouchUp;
      } else if action == 3 {
        kind := TouchCancel;
      } else {
        kind := TouchMove;
      }
      PushEventLocked(InputEvent(kind, pointerId, x, y, pressure, 0.0, 0.0, 0, 0, 0, now));
    }

    method SendMouseEvent(action: int, buttons: int, x: real, y: real, scrollX: real, scrollY: real, now: nat)
      modifies this
      ensures Model() == Push(old(Model()), MouseEvent(action, buttons, x, y, scrollX, scrollY, now))
    {
      var kind;
      if scrollX != 0.0 || scrollY != 0.0 {
        kind := MouseScroll;
      } else if action == 0 || action == 11 {
        kind := MouseDown;
      } else if action == 1 || action == 12 {
        kind := MouseUp;
      } else {
        kind := MouseMove;
      }
      PushEventLocked(InputEvent(kind, buttons, x, y, 1.0, scrollX, scrollY, 0, 0, 0, now));
    }

    method SendKeyEvent(keyCode: int, isDown: bool, metaState: int, unicodeChar: int, now: nat)
      modifies this
      ensures Model() == Push(old(Model()), KeyEvent(keyCode, isDown, metaState, unicodeChar, now))
    {
      var kind := if isDown then KeyPress else KeyRelease;
      PushEventLocked(InputEvent(kind, 0, 0.0, 0.0, 1.0, 0.0, 0.0, keyCode, metaState, unicodeChar, now));
    }

    method ResetInput(now: nat)
      modifies this
      ensures Model() == Reset(old(Model()), now)
    {
      while |eventQueue| > 0
        invariant Flushing(old(Model()))
      {
        eventQueue := eventQueue[1..];
        history := history.(flushed := history.flushed + 1);
      }
      eventQueue := eventQueue + [ResetEvent(now)];
      history := history.(resets := history.resets + 1, enqueued := history.enqueued + 1);
    }

    /** Some entries of before have been thrown away since, and nothing else. */
    ghost predicate Flushing(before: BridgeState)
      reads this
    {
      && Model() == before.(queue := eventQueue, flushed := history.flushed)
      && history.flushed + |eventQueue| == before.flushed + |before.queue|
    }

    /** Without somewhere to put the event nothing is taken. */
    method PopEvent(hasOut: bool) returns (popped: Popped)
      modifies this
      ensures !hasOut || old(eventQueue) == [] ==> popped == Nothing && Model() == old(Model())
      ensures hasOut && old(eventQueue) != [] ==>
                popped == Event(old(eventQueue)[0]) && Model() == Pop(old(Model()))
    {
      if |eventQueue| == 0 || !hasOut { return Nothing; }
      popped := Event(eventQueue[0]);
      history := history.(left := history.left + [eventQueue[0]], delivered := history.delivered + [eventQueue[0]]);
      eventQueue := eventQueue[1..];
    }

    method ClearQueue()
      modifies this
      ensures Model() == Clear(old(Model()))
    {
      while |eventQueue| > 0
        invariant Flushing(old(Model()))
      {
        eventQueue := eventQueue[1..];
        history := history.(flushed := history.flushed + 1);
      }
    }
  }
}
