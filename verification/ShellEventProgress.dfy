/**
  What the event loop gets done: that readable events are read and dispatched, the clock
  repainted, and when the loop ends.
 */
module ShellEventProgress {
  import opened ShellEventLoop

  /** How often c is called. */
  function Times(calls: seq<Call>, c: Call): nat
    decreases |calls|
  {
    if calls == [] then 0
    else Times(calls[..|calls| - 1], c) + if calls[|calls| - 1] == c then 1 else 0
  }

  lemma {:induction false} TimesAppend(a: seq<Call>, b: seq<Call>, c: Call)
    ensures Times(a + b, c) == Times(a, c) + Times(b, c)
    decreases |b|
  {
    if b == [] {
      assert a + b == a;
    } else {
      TimesAppend(a, b[..|b| - 1], c);
      assert (a + b)[..|a + b| - 1] == a + b[..|b| - 1];
    }
  }

  lemma TimesOne(d: Call, c: Call)
    ensures Times([d], c) == if d == c then 1 else 0
  {
    assert [d][..0] == [];
  }

  lemma TimesTwo(d: Call, e: Call, c: Call)
    ensures Times([d, e], c) == Times([d], c) + Times([e], c)
  {
    assert [d, e] == [d] + [e];
    TimesAppend([d], [e], c);
  }

  lemma TimesFour(d: Call, e: Call, f: Call, g: Call, c: Call)
    ensures Times([d, e, f, g], c) == Times([d], c) + Times([e], c) + Times([f], c) + Times([g], c)
    ensures Times([d, e, f], c) == Times([d], c) + Times([e], c) + Times([f], c)
  {
    assert [d, e, f] == [d, e] + [f] && [d, e, f, g] == [d, e] + [f, g];
    TimesTwo(d, e, c);
    TimesTwo(f, g, c);
    TimesAppend([d, e], [f], c);
    TimesAppend([d, e], [f, g], c);
  }

  lemma {:induction false} TimesPrepare(busy: nat, c: Call)
    ensures Times(PrepareCalls(busy), c)
            == match c
               case Prepare(ok) => if ok then 1 else busy
               case DispatchPending => busy
               case _ => 0
  {
    if busy == 0 {
      TimesOne(Prepare(true), c);
    } else {
      TimesPrepare(busy - 1, c);
      TimesTwo(Prepare(false), DispatchPending, c);
      TimesOne(Prepare(false), c);
      TimesOne(DispatchPending, c);
      TimesAppend([Prepare(false), DispatchPending], PrepareCalls(busy - 1), c);
    }
  }

  /** flush succeeded, poll reported the display, and nobody asked the loop to stop. */
  predicate Readable(turn: Turn) {
    !turn.flushFails && turn.poll.Ready? && turn.poll.display && !turn.poll.wake
  }

  predicate ClockTick(turn: Turn) {
    !turn.flushFails && turn.poll.TimedOut?
  }

  /** How often a turn makes each call. */
  function Expected(turn: Turn, c: Call): nat {
    match c
    case Prepare(ok) => if ok then 1 else turn.busy
    case DispatchPending => turn.busy + if Readable(turn) then 1 else 0
    case Flush(ok) => if ok == turn.flushFails then 0 else 1
    case Poll => if turn.flushFails then 0 else 1
    case ReadEvents => if Readable(turn) then 1 else 0
    case CancelRead => if Readable(turn) then 0 else 1
    case RepaintPanel => if ClockTick(turn) then 1 else 0
  }

  /**
    A turn reads events exactly when they are there to be read and cancels the read
    otherwise, repaints exactly when poll timed out, and dispatches once for each failed
    prepare and once for a read.
   */
  lemma TurnDoes(turn: Turn, c: Call)
    ensures Times(TurnCalls(turn), c) == Expected(turn, c)
  {
    TurnParts(turn);
    TimesPrepare(turn.busy, c);
    TimesAppend(PrepareCalls(turn.busy), Tail(turn), c);
    hide TurnCalls, PrepareCalls;
    TailDoes(turn, c);
  }

  /** What a turn calls once its prepare has succeeded. */
  function Tail(turn: Turn): seq<Call> {
    var n := |PrepareCalls(turn.busy)|;
    if n <= |TurnCalls(turn)| then TurnCalls(turn)[n..] else []
  }

  lemma TurnParts(turn: Turn)
    ensures TurnCalls(turn) == PrepareCalls(turn.busy) + Tail(turn)
    ensures Tail(turn) ==
        if turn.flushFails then [Flush(false), CancelRead]
        else if Readable(turn) then [Flush(true), Poll, ReadEvents, DispatchPending]
        else if ClockTick(turn) then [Flush(true), Poll, CancelRead, RepaintPanel]
        else [Flush(true), Poll, CancelRead]
  {
    hide PrepareCalls;
  }

  lemma TailDoes(turn: Turn, c: Call)
    ensures Times(Tail(turn), c) == match c
      case Prepare(_) => 0
      case DispatchPending => if Readable(turn) then 1 else 0
      case _ => Expected(turn, c)
  {
    TurnParts(turn);
    TimesTwo(Flush(false), CancelRead, c);
    TimesFour(Flush(true), Poll, ReadEvents, DispatchPending, c);
    TimesFour(Flush(true), Poll, CancelRead, RepaintPanel, c);
    TimesOne(Flush(false), c);
    TimesOne(Flush(true), c);
    TimesOne(Poll, c);
    TimesOne(ReadEvents, c);
    TimesOne(DispatchPending, c);
    TimesOne(CancelRead, c);
    TimesOne(RepaintPanel, c);
    hide Times, Tail;
  }

  /** Every failed prepare and every read is followed at once by a dispatch. */
  predicate DispatchesAtOnce(calls: seq<Call>) {
    forall k :: 0 <= k < |calls| && (calls[k] == Prepare(false) || calls[k] == ReadEvents) ==>
      k + 1 < |calls| && calls[k + 1] == DispatchPending
  }

  lemma DispatchesAppend(a: seq<Call>, b: seq<Call>)
    requires DispatchesAtOnce(a) && DispatchesAtOnce(b)
    ensures DispatchesAtOnce(a + b)
  {
    var c := a + b;
    forall k | 0 <= k < |c| && (c[k] == Prepare(false) || c[k] == ReadEvents)
      ensures k + 1 < |c| && c[k + 1] == DispatchPending
    {
      if k < |a| { assert c[k + 1] == a[k + 1]; } else { assert c[k] == b[k - |a|]; }
    }
  }

  lemma {:induction false} PrepareDispatches(busy: nat)
    ensures DispatchesAtOnce(PrepareCalls(busy))
  {
    if busy > 0 {
      PrepareDispatches(busy - 1);
      assert DispatchesAtOnce([Prepare(false), DispatchPending]);
      DispatchesAppend([Prepare(false), DispatchPending], PrepareCalls(busy - 1));
    }
  }

  lemma TurnDispatches(turn: Turn)
    ensures DispatchesAtOnce(TurnCalls(turn))
  {
    TurnParts(turn);
    PrepareDispatches(turn.busy);
    TailDispatches(turn);
    hide TurnCalls, PrepareCalls, Tail, DispatchesAtOnce;
    DispatchesAppend(PrepareCalls(turn.busy), Tail(turn));
  }

  lemma TailDispatches(turn: Turn)
    ensures DispatchesAtOnce(Tail(turn))
  {
    TurnParts(turn);
    hide Tail;
  }

  // ---------------------------------------------------------------------------
  // The whole loop
  // ---------------------------------------------------------------------------

  /** flush failed for good, poll failed and not for a signal, or somebody asked the loop to stop. */
  predicate Ends(turn: Turn) {
    || turn.flushFails
    || (turn.poll.Failed? && !turn.poll.interrupted)
    || (turn.poll.Ready? && turn.poll.wake)
  }

  /** The loop makes m turns: the last is the first that ends it, or there are no more. */
  predicate MakesTurns(turns: seq<Turn>, m: nat) {
    && m <= |turns|
    && (forall j :: 0 <= j < m - 1 ==> !Ends(turns[j]))
    && (m < |turns| ==> m > 0 && Ends(turns[m - 1]))
  }

  function Joined(turns: seq<Turn>): seq<Call> {
    if turns == [] then [] else TurnCalls(turns[0]) + Joined(turns[1..])
  }

  /** Sum of what the turns are expected to call. */
  function ExpectedIn(turns: seq<Turn>, c: Call): nat {
    if turns == [] then 0 else Expected(turns[0], c) + ExpectedIn(turns[1..], c)
  }

  lemma {:induction false} LoopIsItsTurns(turns: seq<Turn>, m: nat)
    requires MakesTurns(turns, m)
    ensures LoopCalls(turns) == Joined(turns[..m])
    decreases |turns|
  {
    if turns == [] {
    } else {
      assert Leaves(turns[0]) <==> Ends(turns[0]);
      hide TurnCalls;
      assert turns[..m][0] == turns[0] && turns[..m][1..] == turns[1..][..m - 1];
      if Leaves(turns[0]) {
        assert m == 1 && turns[..m][1..] == [];
        assert TurnCalls(turns[0]) + [] == TurnCalls(turns[0]);
      } else {
        LoopIsItsTurns(turns[1..], m - 1);
      }
    }
  }

  lemma {:induction false} JoinedDoes(turns: seq<Turn>, c: Call)
    ensures Times(Joined(turns), c) == ExpectedIn(turns, c) && DispatchesAtOnce(Joined(turns))
  {
    if turns != [] {
      hide TurnCalls, Times, Expected, DispatchesAtOnce;
      TurnDoes(turns[0], c);
      TurnDispatches(turns[0]);
      JoinedDoes(turns[1..], c);
      TimesAppend(TurnCalls(turns[0]), Joined(turns[1..]), c);
      DispatchesAppend(TurnCalls(turns[0]), Joined(turns[1..]));
    }
  }

  /**
    The loop goes on exactly up to the first turn with a failed flush, a poll failure that
    is no interruption, or a wake-up; in those turns it reads whenever there is something
    to read and repaints whenever the clock ticks, and dispatches after each read.
   */
  lemma LoopDoes(turns: seq<Turn>, m: nat, c: Call)
    requires MakesTurns(turns, m)
    ensures Times(LoopCalls(turns), c) == ExpectedIn(turns[..m], c)
    ensures DispatchesAtOnce(LoopCalls(turns))
  {
    LoopIsItsTurns(turns, m);
    JoinedDoes(turns[..m], c);
  }

  lemma {:induction false} OnePreparePerTurn(turns: seq<Turn>)
    ensures ExpectedIn(turns, Prepare(true)) == |turns|
  {
    if turns != [] { OnePreparePerTurn(turns[1..]); }
  }

  /** There is one such number of turns, which the successful prepares count. */
  lemma LoopMakes(turns: seq<Turn>, m: nat)
    requires MakesTurns(turns, m)
    ensures Times(LoopCalls(turns), Prepare(true)) == m
  {
    LoopDoes(turns, m, Prepare(true));
    OnePreparePerTurn(turns[..m]);
  }
}
