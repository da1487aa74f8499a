/**
  The pool under threads: one thread makes the lifecycle calls, any number of others
  acquire, lock, unlock and submit, also while a disable, resize or setWindow waits for
  its drain or an acquire waits for a buffer.
 */
module PresentationThreads {
  import opened PresentationModel
  import opened PresentationInvariants
  import opened PresentationOperations
  import opened PresentationHistory
  import opened PresentationRuns
  import opened PresentationStale
  import opened PresentationHandOuts

  /** The lifecycle call that is waiting for its drain, if any. */
  datatype Waiting = Nobody | Disabling | Resizing(width: int, height: int) | Rebinding(window: nat)

  datatype Threads = Threads(pool: Pool, waiting: Waiting)

  /**
    What a thread does while it has mutex_.  Call is a whole call that does not wait, or
    one of destroy's locked sections; the calls that drain are cut where they wait.
    Retry is an acquire that was woken.  A drain may end at any time: empty or timed out.
   */
  datatype Move =
    | Call(step: Step)
    | Retry
    | StartDisable
    | StartResize(width: int, height: int)
    | StartRebind(window: nat)
    | Finish(surfaceOk: bool, unlockFences: seq<int>, allocs: seq<bool>)

  /** The calls that run in one piece: no wait, so no rounds. */
  predicate OnePiece(step: Step) {
    match step
    case DoDisable(_, _) => false
    case DoResize(_, _, _, _, _) => false
    case DoSetWindow(_, _, _) => false
    case DoWaitIdle(_, rounds) => rounds == []
    case DoAcquire(_, rounds) => rounds == []
    case _ => true
  }

  /** Lifecycle calls do not overlap; producers and callbacks take mutex_ whenever it is free. */
  predicate Possible(t: Threads, move: Move) {
    match move
    case Call(step) => OnePiece(step) && Permitted(t.pool, step) && (Plain(step) || t.waiting == Nobody)
    case Retry => !t.pool.destroyed
    case StartDisable => t.waiting == Nobody && t.pool.enabled
    case StartResize(width, height) =>
      t.waiting == Nobody && !t.pool.destroyed && !ResizeIsNoOp(t.pool, width, height)
    case StartRebind(window) => t.waiting == Nobody && !t.pool.destroyed && t.pool.window != window
    case Finish(_, _, _) => t.waiting != Nobody
  }

  /** An acquire that was woken: it looks at is_enabled_, then for a slot, and may wait again. */
  function WokenAcquire(p: Pool): (Pool, Acquisition) {
    if !p.enabled then (p, Failed(ESHUTDOWN))
    else match FirstAvailable(p, 0)
      case Some(i) => (HandOut(p, i), Got(i, p.slots[i].buffer))
      case None => (p, Failed(ETIMEDOUT))
  }

  function Finished(t: Threads, surfaceOk: bool, unlockFences: seq<int>, allocs: seq<bool>): Pool {
    match t.waiting
    case Nobody => t.pool
    case Disabling => TearDown(t.pool, unlockFences)
    case Resizing(width, height) => Reallocate(t.pool, width, height, unlockFences, allocs).0
    case Rebinding(window) => Rebind(t.pool, window, surfaceOk)
  }

  function Moved(t: Threads, move: Move): Threads {
    match move
    case Call(step) => t.(pool := Perform(t.pool, step))
    case Retry => t.(pool := WokenAcquire(t.pool).0)
    case StartDisable => Threads(t.pool.(enabled := false), Disabling)
    case StartResize(width, height) => t.(waiting := Resizing(width, height))
    case StartRebind(window) => t.(waiting := Rebinding(window))
    case Finish(surfaceOk, fences, allocs) => Threads(Finished(t, surfaceOk, fences, allocs), Nobody)
  }

  function Next(t: Threads, move: Move): Threads {
    if Possible(t, move) then Moved(t, move) else t
  }

  function Play(t: Threads, moves: seq<Move>): Threads
    decreases |moves|
  {
    if moves == [] then t else Next(Play(t, moves[..|moves| - 1]), moves[|moves| - 1])
  }

  function Start(zeroCopy: bool): Threads {
    Threads(Created(zeroCopy), Nobody)
  }

  // ---------------------------------------------------------------------------
  // Invariants of all interleavings
  // ---------------------------------------------------------------------------

  /** Between a disable's start and its end the output is off with its buffers in place. */
  ghost predicate ThreadInv(t: Threads) {
    && Core(t.pool) && Whole(t.pool)
    && (if t.waiting == Disabling then !t.pool.enabled else Settled(t.pool))
    && (t.waiting != Nobody ==> t.pool.tokenLive)
  }

  /** A move that frees the pool finds submitted_count_ at 0. */
  predicate FreesEmptied(t: Threads, move: Move) {
    move.Finish? && (t.waiting.Disabling? || t.waiting.Resizing?) ==> t.pool.submittedCount == 0
  }

  lemma RetryKeeps(p: Pool)
    requires Core(p)
    ensures var q := WokenAcquire(p).0;
      Core(q) && SameHold(p, q) && KeepsExact(p, q)
  {
    FirstAvailableIsFirst(p, 0);
    if p.enabled && FirstAvailable(p, 0).Some? { HandOutKeeps(p, FirstAvailable(p, 0).value); }
  }

  lemma CallKeeps(t: Threads, step: Step)
    requires ThreadInv(t) && Possible(t, Call(step))
    ensures ThreadInv(Moved(t, Call(step))) && KeepsExact(t.pool, Moved(t, Call(step)).pool)
  {
    if Plain(step) {
      hide Core, KeepsExact, Perform;
      if step.DoSubmit? { LiveUntilDestroyed(t.pool); }
      PlainStepKeeps(t.pool, step);
      SameHoldKeeps(t.pool, Perform(t.pool, step));
    } else {
      hide Core, Exact, CallbacksExact, Enable;
      StepKeeps(t.pool, step);
      assert Emptied(t.pool, step);
    }
  }

  lemma LiveUntilDestroyed(p: Pool)
    requires Whole(p) && !p.destroyed
    ensures p.tokenLive
  {
  }

  lemma FinishKeeps(t: Threads, move: Move)
    requires ThreadInv(t) && move.Finish? && t.waiting != Nobody
    ensures ThreadInv(Moved(t, move))
    ensures ExactIff(t.pool, Moved(t, move).pool, FreesEmptied(t, move))
  {
    hide Core, Exact, CallbacksExact, TearDown, Reallocate, Rebind;
    match t.waiting
    case Disabling => TearDownKeeps(t.pool, move.unlockFences);
    case Resizing(width, height) =>
      SameAsItself(t.pool);
      ReallocateKeeps(t.pool, t.pool, width, height, move.unlockFences, move.allocs);
    case Rebinding(window) =>
      SameAsItself(t.pool);
      RebindKeeps(t.pool, t.pool, window, move.surfaceOk);
  }

  lemma SameAsItself(p: Pool)
    ensures SameResources(p, p) && KeepsExact(p, p)
  {
  }

  /**
    Whatever any thread does next the invariants are kept, and the exact one if and only
    if a move that frees the pool finds the counter at 0.
   */
  lemma MoveKeeps(t: Threads, move: Move)
    requires ThreadInv(t)
    ensures ThreadInv(Next(t, move))
    ensures ExactIff(t.pool, Next(t, move).pool, FreesEmptied(t, move))
  {
    hide Core, Exact, CallbacksExact, Finished, Perform, WokenAcquire;
    if Possible(t, move) {
      match move
      case Call(step) => CallKeeps(t, step);
      case Retry =>
        RetryKeeps(t.pool);
        SameHoldKeeps(t.pool, WokenAcquire(t.pool).0);
      case StartDisable => OffKeeps(t.pool);
      case Finish(_, _, _) => FinishKeeps(t, move);
      case _ =>
    }
  }

  /** In every interleaving of the threads and the callbacks. */
  lemma {:induction false} ThreadsKeep(zeroCopy: bool, moves: seq<Move>)
    ensures ThreadInv(Play(Start(zeroCopy), moves))
    decreases |moves|
  {
    hide Core, Next;
    if moves == [] {
      CreatedKeeps(zeroCopy);
    } else {
      ThreadsKeep(zeroCopy, moves[..|moves| - 1]);
      MoveKeeps(Play(Start(zeroCopy), moves[..|moves| - 1]), moves[|moves| - 1]);
    }
  }

  // ---------------------------------------------------------------------------
  // Interleavings that free the pool only with nothing in flight
  // ---------------------------------------------------------------------------

  predicate AllFreesEmptied(t: Threads, moves: seq<Move>)
    decreases |moves|
  {
    moves == [] ||
    (AllFreesEmptied(t, moves[..|moves| - 1]) &&
     FreesEmptied(Play(t, moves[..|moves| - 1]), moves[|moves| - 1]))
  }

  lemma RetryTracked(p: Pool)
    requires Tracked(p)
    ensures Tracked(WokenAcquire(p).0)
  {
    FirstAvailableIsFirst(p, 0);
    if p.enabled && FirstAvailable(p, 0).Some? {
      var i := FirstAvailable(p, 0).value;
      OneEvent(p, HandOut(p, i), HandedOut(i), i);
    }
  }

  lemma MoveTracked(t: Threads, move: Move)
    requires ThreadInv(t) && Exact(t.pool) && Tracked(t.pool)
    ensures Tracked(Next(t, move).pool)
  {
    hide Core, Exact, PhaseOf, TearDown, Reallocate, Rebind, Perform, WokenAcquire;
    if Possible(t, move) {
      match move
      case Call(step) =>
        if Plain(step) { PlainTracked(t.pool, step); } else { WholeCallTracked(t.pool, step); }
      case Retry => RetryTracked(t.pool);
      case StartDisable => SameUseTracked(t.pool, t.pool.(enabled := false));
      case Finish(surfaceOk, fences, allocs) =>
        match t.waiting {
          case Disabling => TearDownTracked(t.pool, fences);
          case Resizing(width, height) => ReallocateTracked(t.pool, width, height, fences, allocs);
          case Rebinding(window) => RebindTracked(t.pool, window, surfaceOk);
        }
      case _ =>
    }
  }

  lemma WholeCallTracked(p: Pool, step: Step)
    requires Inv(p) && Exact(p) && Tracked(p) && Permitted(p, step)
    ensures Tracked(Perform(p, step))
  {
    hide Perform, Core, Exact, Tracked;
    StepTracked(p, step);
  }

  lemma RebindTracked(p: Pool, window: nat, surfaceOk: bool)
    requires Tracked(p)
    ensures Tracked(Rebind(p, window, surfaceOk))
  {
    SameUseTracked(p, Rebind(p, window, surfaceOk));
  }

  lemma {:induction false} ThreadsExact(zeroCopy: bool, moves: seq<Move>)
    requires AllFreesEmptied(Start(zeroCopy), moves)
    ensures Exact(Play(Start(zeroCopy), moves).pool) && Tracked(Play(Start(zeroCopy), moves).pool)
    decreases |moves|
  {
    hide Core, Exact, Next, FreesEmptied, Tracked;
    if moves == [] {
      CreatedKeeps(zeroCopy);
    } else {
      var front := moves[..|moves| - 1];
      var t := Play(Start(zeroCopy), front);
      ThreadsExact(zeroCopy, front);
      ThreadsKeep(zeroCopy, front);
      MoveKeeps(t, moves[|moves| - 1]);
      MoveTracked(t, moves[|moves| - 1]);
    }
  }

  /**
    In every interleaving whose disables and resizes free the pool with nothing in
    flight, no callback can free a held slot and no slot was handed out twice.
   */
  lemma ThreadsHandOutOnce(zeroCopy: bool, moves: seq<Move>)
    requires AllFreesEmptied(Start(zeroCopy), moves)
    ensures var p := Play(Start(zeroCopy), moves).pool;
      !CanFreeHeld(p) && !DoubleHandOut(p.log)
  {
    hide Play, AllFreesEmptied;
    var p := Play(Start(zeroCopy), moves).pool;
    ThreadsExact(zeroCopy, moves);
    ThreadsKeep(zeroCopy, moves);
    ExactCannotFreeHeld(p);
    forall i: Index, a: nat, b: nat ensures !HandedOutTwice(p.log, i, a, b) {
      if HandedOutTwice(p.log, i, a, b) {
        TrackedHasNoClash(p, i);
        HandOutsSeparated(p.log, i, a, b);
        assert false;
      }
    }
  }

  // ---------------------------------------------------------------------------
  // What may happen during a drain
  // ---------------------------------------------------------------------------

  /**
    While disable waits nothing is handed out or queued: its counter only falls.  An
    acquire that wakes up meanwhile is told of the shutdown.
   */
  lemma DisableDrainOnlyFalls(t: Threads, move: Move)
    requires ThreadInv(t) && t.waiting == Disabling && !move.Finish?
    ensures var u := Next(t, move);
      && u.waiting == Disabling && !u.pool.enabled
      && u.pool.submittedCount <= t.pool.submittedCount && NoNewHandOut(t.pool.log, u.pool.log)
      && WokenAcquire(u.pool).1 == Failed(ESHUTDOWN)
  {
    MoveKeeps(t, move);
    hide Core;
    if Possible(t, move) && move.Call? { OffOnlyFalls(t.pool, move.step); }
  }

  /** The output stays off, the counter does not rise and nothing is handed out. */
  predicate Falls(p: Pool, q: Pool) {
    !q.enabled && q.submittedCount <= p.submittedCount && NoNewHandOut(p.log, q.log)
  }

  lemma OffOnlyFalls(p: Pool, step: Step)
    requires !p.enabled && OnePiece(step) && Plain(step)
    ensures Falls(p, Perform(p, step))
  {
    hide Falls, Unlock, Submit, Deliver, InitGles;
    SameFalls(p, p);
    match step
    case DoAcquire(_, _) =>
    case DoLock(_, _) =>
    case DoUnlock(i, outcome, wantsFence) => UnlockFalls(p, i, outcome, wantsFence);
    case DoSubmit(i, fence, transactionOk) => SubmitFalls(p, i, fence, transactionOk);
    case DoWaitIdle(_, _) =>
    case DoInitGles(display, resolved, outcomes) => InitGlesFalls(p, display, resolved, outcomes);
    case DoDestroyGles => SameFalls(p, DestroyGles(p));
    case DoRelease(r) => DeliverFalls(p, r);
  }

  lemma SameFalls(p: Pool, q: Pool)
    requires !p.enabled && !q.enabled && q.submittedCount == p.submittedCount && q.log == p.log
    ensures Falls(p, q)
  {
  }

  lemma UnlockFalls(p: Pool, i: int, outcome: UnlockOutcome, wantsFence: bool)
    requires !p.enabled
    ensures Falls(p, Unlock(p, i, outcome, wantsFence).0)
  {
    SameFalls(p, Unlock(p, i, outcome, wantsFence).0);
  }

  lemma SubmitFalls(p: Pool, i: int, fence: int, transactionOk: bool)
    requires !p.enabled
    ensures Falls(p, Submit(p, i, fence, transactionOk).0)
  {
  }

  lemma DeliverFalls(p: Pool, r: Release)
    requires !p.enabled
    ensures Falls(p, Deliver(p, r))
  {
    CallbackLog(p, r);
    hide NoNewHandOut;
  }

  lemma InitGlesFalls(p: Pool, display: bool, resolved: bool, outcomes: seq<GlesOutcome>)
    requires !p.enabled
    ensures Falls(p, InitGles(p, display, resolved, outcomes).0)
  {
    hide InitGlesFrom;
    InitGlesOnlyNames(p, 0, outcomes);
    SameFalls(p, InitGles(p, display, resolved, outcomes).0);
  }

  lemma {:induction false} InitGlesOnlyNames(p: Pool, i: nat, outcomes: seq<GlesOutcome>)
    ensures var q := InitGlesFrom(p, i, outcomes).0;
      q.enabled == p.enabled && q.submittedCount == p.submittedCount && q.log == p.log
    decreases 3 - i
  {
    if i < 3 {
      if p.slots[i].buffer == 0 {
        InitGlesOnlyNames(p, i + 1, outcomes);
      } else if GlesAt(outcomes, i).Target? {
        var o := GlesAt(outcomes, i);
        var s := p.slots[i].(eglImage := o.image, texture := o.texture, fbo := o.fbo);
        InitGlesOnlyNames(WithSlot(p, i, s), i + 1, outcomes);
      }
    }
  }

  /** Not so during a resize: a submit meanwhile gives the drain one more buffer to wait for. */
  lemma ResizeDrainRefills(t: Threads, i: Index, fence: int)
    requires ThreadInv(t) && t.waiting.Resizing? && t.pool.enabled && t.pool.surface && !t.pool.destroyed
    requires t.pool.slots[i].state == Acquired
    ensures var u := Next(t, Call(DoSubmit(i, fence, true)));
      u.waiting == t.waiting && u.pool.submittedCount == t.pool.submittedCount + 1
  {
    SlotOkAt(t.pool, i);
    hide Core;
  }

  // ---------------------------------------------------------------------------
  // The calls of PresentationModel are plays in one go
  // ---------------------------------------------------------------------------

  lemma PlaySnoc(t: Threads, moves: seq<Move>, move: Move)
    ensures Play(t, moves + [move]) == Next(Play(t, moves), move)
  {
    assert (moves + [move])[..|moves|] == moves;
  }

  /** A drain is the callbacks that ran while it waited. */
  lemma {:induction false} DrainIsReleases(p: Pool, timeout: nat, rounds: seq<Round>) returns (rs: seq<Release>)
    ensures Drain(p, timeout, rounds).0 == DeliverAll(p, rs)
    decreases |rounds|
  {
    if p.submittedCount <= 0 || Expired(timeout, rounds) {
      rs := [];
    } else if rounds[0].timedOut {
      rs := rounds[0].delivered;
    } else {
      var rest := DrainIsReleases(DeliverAll(p, rounds[0].delivered), timeout, rounds[1..]);
      rs := rounds[0].delivered + rest;
      DeliverAppend(p, rounds[0].delivered, rest);
    }
  }

  lemma {:induction false} DeliverAppend(p: Pool, a: seq<Release>, b: seq<Release>)
    ensures DeliverAll(p, a + b) == DeliverAll(DeliverAll(p, a), b)
    decreases |a|
  {
    hide Deliver;
    if a == [] {
      assert a + b == b;
    } else {
      assert (a + b)[0] == a[0] && (a + b)[1..] == a[1..] + b;
      DeliverAppend(Deliver(p, a[0]), a[1..], b);
    }
  }

  /** An acquire is the callbacks that ran while it waited and at most one successful scan. */
  lemma {:induction false} AcquireIsReleases(p: Pool, timeout: nat, rounds: seq<Round>)
    returns (rs: seq<Release>, served: bool)
    requires p.enabled
    ensures AcquireLoop(p, timeout, rounds).0
            == if served then WokenAcquire(DeliverAll(p, rs)).0 else DeliverAll(p, rs)
    decreases |rounds|
  {
    rs, served := [], true;
    if FirstAvailable(p, 0) == None && !Expired(timeout, rounds) {
      hide FirstAvailable, Deliver;
      var d := DeliverAll(p, rounds[0].delivered);
      CallbacksKeepFlags(p, rounds[0].delivered);
      if rounds[0].timedOut {
        rs, served := rounds[0].delivered, false;
      } else {
        var rest;
        rest, served := AcquireIsReleases(d, timeout, rounds[1..]);
        rs := rounds[0].delivered + rest;
        DeliverAppend(p, rounds[0].delivered, rest);
      }
    }
  }

  /** Callbacks, one move each. */
  lemma {:induction false} PlayReleases(t: Threads, moves: seq<Move>, rs: seq<Release>) returns (more: seq<Move>)
    ensures Play(t, more) == var u := Play(t, moves); u.(pool := DeliverAll(u.pool, rs))
    decreases |rs|
  {
    hide Deliver;
    if rs == [] {
      more := moves;
    } else {
      var u := Play(t, moves);
      PlaySnoc(t, moves, Call(DoRelease(rs[0])));
      assert Next(u, Call(DoRelease(rs[0]))) == u.(pool := Deliver(u.pool, rs[0]));
      more := PlayReleases(t, moves + [Call(DoRelease(rs[0]))], rs[1..]);
    }
  }

  /** A call of PresentationModel that waits and frees or rebinds: start, callbacks, finish. */
  lemma PlayWaiting(t: Threads, start: Move, rs: seq<Release>, finish: Move) returns (moves: seq<Move>)
    ensures var u := Next(t, start);
      Play(t, moves) == Next(u.(pool := DeliverAll(u.pool, rs)), finish)
  {
    hide Next, DeliverAll;
    PlaySnoc(t, [], start);
    assert Play(t, []) == t;
    var waited := PlayReleases(t, [] + [start], rs);
    moves := waited + [finish];
    PlaySnoc(t, waited, finish);
  }

  lemma OneMove(t: Threads, move: Move)
    ensures Play(t, [move]) == Next(t, move)
  {
    assert [move][..0] == [];
    assert Play(t, [move][..0]) == t;
  }

  lemma DisableIsPlayed(p: Pool, rounds: seq<Round>, fences: seq<int>) returns (moves: seq<Move>)
    requires p.enabled
    ensures Play(Threads(p, Nobody), moves) == Threads(Disable(p, rounds, fences), Nobody)
  {
    hide TearDown, Play, Perform, WokenAcquire, Permitted;
    var rs := DrainIsReleases(p.(enabled := false), 150, rounds);
    moves := PlayWaiting(Threads(p, Nobody), StartDisable, rs, Finish(false, fences, []));
  }

  lemma ResizeIsPlayed(p: Pool, width: int, height: int, rounds: seq<Round>, fences: seq<int>, allocs: seq<bool>)
    returns (moves: seq<Move>)
    requires !p.destroyed && !ResizeIsNoOp(p, width, height)
    ensures Play(Threads(p, Nobody), moves) == Threads(Resize(p, width, height, rounds, fences, allocs).0, Nobody)
  {
    hide Reallocate, Play, Perform, WokenAcquire, Permitted;
    var rs := DrainIsReleases(p, 200, rounds);
    moves := PlayWaiting(Threads(p, Nobody), StartResize(width, height), rs, Finish(false, fences, allocs));
  }

  lemma SetWindowIsPlayed(p: Pool, window: nat, rounds: seq<Round>, surfaceOk: bool) returns (moves: seq<Move>)
    requires !p.destroyed && p.window != window
    ensures Play(Threads(p, Nobody), moves) == Threads(SetWindow(p, window, rounds, surfaceOk), Nobody)
  {
    hide Rebind, Drain, Play, Next;
    var rs := [];
    if p.surface { rs := DrainIsReleases(p, 250, rounds); }
    var d := if p.surface then Drain(p, 250, rounds).0 else p;
    assert DeliverAll(p, rs) == d;
    hide DeliverAll;
    moves := PlayWaiting(Threads(p, Nobody), StartRebind(window), rs, Finish(surfaceOk, [], []));
    RebindStarts(p, window);
    RebindFinishes(d, window, surfaceOk);
  }

  lemma RebindStarts(p: Pool, window: nat)
    requires !p.destroyed && p.window != window
    ensures Next(Threads(p, Nobody), StartRebind(window)) == Threads(p, Rebinding(window))
  {
  }

  lemma RebindFinishes(p: Pool, window: nat, surfaceOk: bool)
    ensures Next(Threads(p, Rebinding(window)), Finish(surfaceOk, [], []))
            == Threads(Rebind(p, window, surfaceOk), Nobody)
  {
    hide Rebind;
  }

  lemma AcquireIsPlayed(p: Pool, timeout: nat, rounds: seq<Round>) returns (moves: seq<Move>)
    requires !p.destroyed
    ensures Play(Threads(p, Nobody), moves) == Threads(Acquire(p, timeout, rounds).0, Nobody)
  {
    hide AcquireLoop, WokenAcquire, DeliverAll;
    moves := [];
    if p.enabled && p.surface {
      var rs, served := AcquireIsReleases(p, timeout, rounds);
      moves := PlayReleases(Threads(p, Nobody), [], rs);
      if served {
        PlaySnoc(Threads(p, Nobody), moves, Retry);
        CallbacksKeepFlags(p, rs);
        moves := moves + [Retry];
      }
    }
  }

  /** So every step of PresentationModel, whatever its rounds, is one way the threads can go. */
  lemma StepIsPlayed(p: Pool, step: Step) returns (moves: seq<Move>)
    ensures Play(Threads(p, Nobody), moves) == Threads(Apply(p, step), Nobody)
  {
    hide Play, Enable, Disable, Resize, SetWindow, Acquire, Lock, Unlock, Submit, Drain, DeliverAll,
         InitGles, DestroyGles, Deliver;
    NoMoves(Threads(p, Nobody));
    moves := [];
    if Permitted(p, step) {
      if OnePiece(step) {
        moves := [Call(step)];
        OneMove(Threads(p, Nobody), Call(step));
      } else {
        match step {
          case DoDisable(rounds, fences) =>
            DisableNoOp(p, rounds, fences);
            if p.enabled { moves := DisableIsPlayed(p, rounds, fences); }
          case DoResize(width, height, rounds, fences, allocs) =>
            ResizeNoOp(p, width, height, rounds, fences, allocs);
            if !ResizeIsNoOp(p, width, height) {
              moves := ResizeIsPlayed(p, width, height, rounds, fences, allocs);
            }
          case DoSetWindow(window, rounds, surfaceOk) =>
            SetWindowNoOp(p, window, rounds, surfaceOk);
            if p.window != window { moves := SetWindowIsPlayed(p, window, rounds, surfaceOk); }
          case DoWaitIdle(timeout, rounds) =>
            var rs := DrainIsReleases(p, timeout, rounds);
            moves := PlayReleases(Threads(p, Nobody), [], rs);
          case DoAcquire(timeout, rounds) => moves := AcquireIsPlayed(p, timeout, rounds);
        }
      }
    }
  }

  lemma NoMoves(t: Threads)
    ensures Play(t, []) == t
  {
  }

  lemma DisableNoOp(p: Pool, rounds: seq<Round>, fences: seq<int>)
    ensures !p.enabled ==> Disable(p, rounds, fences) == p
  {
  }

  lemma ResizeNoOp(p: Pool, width: int, height: int, rounds: seq<Round>, fences: seq<int>, allocs: seq<bool>)
    ensures ResizeIsNoOp(p, width, height) ==> Resize(p, width, height, rounds, fences, allocs).0 == p
  {
  }

  lemma SetWindowNoOp(p: Pool, window: nat, rounds: seq<Round>, surfaceOk: bool)
    ensures p.window == window ==> SetWindow(p, window, rounds, surfaceOk) == p
  {
  }

  lemma {:induction false} PlayAppend(t: Threads, a: seq<Move>, b: seq<Move>)
    ensures Play(t, a + b) == Play(Play(t, a), b)
    decreases |b|
  {
    hide Next;
    if b == [] {
      assert a + b == a;
    } else {
      PlayAppend(t, a, b[..|b| - 1]);
      assert a + b == (a + b[..|b| - 1]) + [b[|b| - 1]];
      PlaySnoc(t, a + b[..|b| - 1], b[|b| - 1]);
    }
  }

  /** And every run is: what holds of all interleavings holds of all runs. */
  lemma {:induction false} RunIsPlayed(zeroCopy: bool, steps: seq<Step>) returns (moves: seq<Move>)
    ensures Play(Start(zeroCopy), moves) == Threads(Run(Created(zeroCopy), steps), Nobody)
    decreases |steps|
  {
    hide Apply, Play;
    if steps == [] {
      moves := [];
      NoMoves(Start(zeroCopy));
    } else {
      var front := RunIsPlayed(zeroCopy, steps[..|steps| - 1]);
      var more := StepIsPlayed(Run(Created(zeroCopy), steps[..|steps| - 1]), steps[|steps| - 1]);
      moves := front + more;
      PlayAppend(Start(zeroCopy), front, more);
    }
  }
}
