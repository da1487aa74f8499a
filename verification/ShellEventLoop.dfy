/**
  The shell thread's event loop and the read-intent discipline of libwayland: every
  successful wl_display_prepare_read is followed by exactly one wl_display_read_events or
  wl_display_cancel_read, and events are dispatched only in between such pairs.
 */
module ShellEventLoop {

  /** The library calls of the loop, in the order it makes them. */
  datatype Call =
    | Prepare(ok: bool) | DispatchPending | Flush(ok: bool) | Poll | CancelRead | ReadEvents | RepaintPanel

  datatype PollResult = Failed(interrupted: bool) | TimedOut | Ready(wake: bool, display: bool)

  /**
    One turn of the loop: how often prepare_read finds events already queued, whether
    flush fails for good, and what poll returns.
   */
  datatype Turn = Turn(busy: nat, flushFails: bool, poll: PollResult)

  /** The prepare_read loop at the head of a turn. */
  function PrepareCalls(busy: nat): seq<Call> {
    if busy == 0 then [Prepare(true)] else [Prepare(false), DispatchPending] + PrepareCalls(busy - 1)
  }

  function TurnCalls(turn: Turn): seq<Call> {
    PrepareCalls(turn.busy) + [Flush(!turn.flushFails)]
    + if turn.flushFails then [CancelRead]
      else [Poll] + match turn.poll
                    case Failed(_) => [CancelRead]
                    case TimedOut => [CancelRead, RepaintPanel]
                    case Ready(wake, display) =>
                      if wake then [CancelRead]
                      else if display then [ReadEvents, DispatchPending]
                      else [CancelRead]
  }

  /** The turn leaves the loop. */
  predicate Leaves(turn: Turn) {
    turn.flushFails || turn.poll == Failed(false) || (turn.poll.Ready? && turn.poll.wake)
  }

  /** The whole loop; after the last turn running_ is found cleared. */
  function LoopCalls(turns: seq<Turn>): seq<Call> {
    if turns == [] then []
    else TurnCalls(turns[0]) + if Leaves(turns[0]) then [] else LoopCalls(turns[1..])
  }

  // ---------------------------------------------------------------------------
  // The discipline
  // ---------------------------------------------------------------------------

  function Effect(c: Call): int {
    if c == Prepare(true) then 1 else if c == ReadEvents || c == CancelRead then -1 else 0
  }

  /** Reads announced and neither made nor cancelled. */
  function Outstanding(calls: seq<Call>): int
    decreases |calls|
  {
    if calls == [] then 0 else Outstanding(calls[..|calls| - 1]) + Effect(calls[|calls| - 1])
  }

  predicate Settles(c: Call) {
    c == ReadEvents || c == CancelRead
  }

  /** What each call needs of the reads outstanding before it. */
  predicate Allowed(before: int, c: Call) {
    match c
    case Prepare(_) => before == 0
    case DispatchPending => before == 0
    case RepaintPanel => before == 0
    case Flush(_) => before == 1
    case Poll => before == 1
    case CancelRead => before == 1
    case ReadEvents => before == 1
  }

  /** Every call is allowed when it is made, and at most one read is ever outstanding. */
  predicate Disciplined(calls: seq<Call>)
    decreases |calls|
  {
    calls == [] ||
    (var front, last := calls[..|calls| - 1], calls[|calls| - 1];
     Disciplined(front) && Allowed(Outstanding(front), last)
     && 0 <= Outstanding(front) + Effect(last) <= 1)
  }

  lemma DisciplinedSnoc(calls: seq<Call>, c: Call)
    requires Disciplined(calls) && Allowed(Outstanding(calls), c)
    ensures Disciplined(calls + [c]) && Outstanding(calls + [c]) == Outstanding(calls) + Effect(c)
  {
    assert (calls + [c])[..|calls|] == calls;
  }

  lemma {:induction false} DisciplinedAppend(a: seq<Call>, b: seq<Call>)
    requires Disciplined(a) && Outstanding(a) == 0 && Disciplined(b)
    ensures Disciplined(a + b) && Outstanding(a + b) == Outstanding(b)
    decreases |b|
  {
    if b == [] {
      assert a + b == a;
    } else {
      var front, last := b[..|b| - 1], b[|b| - 1];
      DisciplinedAppend(a, front);
      DisciplinedSnoc(a + front, last);
      assert a + b == (a + front) + [last];
    }
  }

  /** What the discipline says of each moment of the run. */
  lemma {:induction false} DisciplinedAt(calls: seq<Call>, k: nat)
    requires Disciplined(calls) && k <= |calls|
    ensures 0 <= Outstanding(calls[..k]) <= 1
    ensures k < |calls| ==> Allowed(Outstanding(calls[..k]), calls[k])
    ensures k < |calls| ==> Outstanding(calls[..k + 1]) == Outstanding(calls[..k]) + Effect(calls[k])
    decreases |calls|
  {
    var n := |calls|;
    if k == n {
      assert calls[..k] == calls;
    } else if k == n - 1 {
      assert calls[..k + 1] == calls;
      if k > 0 { DisciplinedAt(calls[..k], k); }
      assert calls[..k][..k] == calls[..k];
    } else {
      DisciplinedAt(calls[..n - 1], k);
      assert calls[..n - 1][..k] == calls[..k] && calls[..n - 1][..k + 1] == calls[..k + 1];
    }
  }

  lemma {:induction false} PrepareDisciplined(busy: nat)
    ensures Disciplined(PrepareCalls(busy)) && Outstanding(PrepareCalls(busy)) == 1
  {
    if busy == 0 {
      DisciplinedSnoc([], Prepare(true));
      assert [] + [Prepare(true)] == PrepareCalls(0);
    } else {
      PrepareDisciplined(busy - 1);
      DisciplinedSnoc([], Prepare(false));
      DisciplinedSnoc([Prepare(false)], DispatchPending);
      assert [] + [Prepare(false)] == [Prepare(false)];
      assert [Prepare(false)] + [DispatchPending] == [Prepare(false), DispatchPending];
      DisciplinedAppend([Prepare(false), DispatchPending], PrepareCalls(busy - 1));
    }
  }

  lemma TurnDisciplined(turn: Turn)
    ensures Disciplined(TurnCalls(turn)) && Outstanding(TurnCalls(turn)) == 0
  {
    hide Disciplined, Outstanding, PrepareCalls;
    PrepareDisciplined(turn.busy);
    var a := PrepareCalls(turn.busy);
    var b := a + [Flush(!turn.flushFails)];
    DisciplinedSnoc(a, Flush(!turn.flushFails));
    if turn.flushFails {
      DisciplinedSnoc(b, CancelRead);
    } else {
      var c := b + [Poll];
      DisciplinedSnoc(b, Poll);
      DisciplinedSnoc(c, CancelRead);
      DisciplinedSnoc(c, ReadEvents);
      DisciplinedSnoc(c + [CancelRead], RepaintPanel);
      DisciplinedSnoc(c + [ReadEvents], DispatchPending);
      assert TurnCalls(turn) == c + [CancelRead]
        || TurnCalls(turn) == (c + [CancelRead]) + [RepaintPanel]
        || TurnCalls(turn) == (c + [ReadEvents]) + [DispatchPending];
    }
  }

  /**
    Over every run of the loop each successful prepare_read is matched by exactly one
    read or cancel, at most one is outstanding, none when the loop ends, and dispatching
    and repainting happen only when none is.
   */
  lemma {:induction false} LoopIsDisciplined(turns: seq<Turn>)
    ensures Disciplined(LoopCalls(turns)) && Outstanding(LoopCalls(turns)) == 0
  {
    if turns != [] {
      TurnDisciplined(turns[0]);
      if !Leaves(turns[0]) {
        LoopIsDisciplined(turns[1..]);
        DisciplinedAppend(TurnCalls(turns[0]), LoopCalls(turns[1..]));
      } else {
        assert TurnCalls(turns[0]) + [] == TurnCalls(turns[0]);
      }
    }
  }

  /** In particular, after a prepare_read the next one comes only after a read or cancel. */
  lemma NoSecondPrepare(turns: seq<Turn>, i: nat, j: nat)
    requires i < j < |LoopCalls(turns)|
    requires LoopCalls(turns)[i] == Prepare(true) && LoopCalls(turns)[j] == Prepare(true)
    ensures exists k :: i < k < j && Settles(LoopCalls(turns)[k])
  {
    LoopIsDisciplined(turns);
    DisciplinedSettles(LoopCalls(turns), i, j);
  }

  lemma DisciplinedSettles(calls: seq<Call>, i: nat, j: nat)
    requires Disciplined(calls) && i < j < |calls| && calls[i] == Prepare(true) && calls[j] == Prepare(true)
    ensures exists k :: i < k < j && Settles(calls[k])
  {
    hide Disciplined, Outstanding;
    DisciplinedAt(calls, i);
    DisciplinedAt(calls, j);
    if forall k :: i < k < j ==> !Settles(calls[k]) {
      StaysOutstanding(calls, i, j);
    }
  }

  lemma {:induction false} StaysOutstanding(calls: seq<Call>, i: nat, j: nat)
    requires Disciplined(calls) && i < j <= |calls| && Outstanding(calls[..i + 1]) == 1
    requires forall k :: i < k < j ==> !Settles(calls[k])
    ensures Outstanding(calls[..j]) >= 1
    decreases j
  {
    hide Disciplined, Outstanding;
    if i + 1 < j {
      StaysOutstanding(calls, i, j - 1);
      DisciplinedAt(calls, j - 1);
    }
  }
}
