/**
  The history of a slot, read off the event log alone, and why a slot that was handed
  out is not handed out again too early when the drains succeed.
 */
module PresentationHistory {
  import opened PresentationModel
  import opened PresentationInvariants
  import opened PresentationOperations

  /** Who has slot i: nobody, the producer, Android; or the log has gone wrong. */
  datatype Phase = Idle | Held | WithAndroid | Clash

  function Next(phase: Phase, e: Event, i: nat): Phase {
    if phase == Clash then Clash
    else match e
      case HandedOut(j) => if j != i then phase else if phase == Idle then Held else Clash
      case Queued(j) => if j != i then phase else if phase == Held then WithAndroid else Clash
      case Returned(j) => if j != i then phase else if phase == WithAndroid then Idle else Clash
      case SubmitFailed(j) => if j != i then phase else if phase == Held then Idle else Clash
      case PoolFreed => Idle
  }

  function PhaseOf(log: seq<Event>, i: nat): Phase
    decreases |log|
  {
    if log == [] then Idle else Next(PhaseOf(log[..|log| - 1], i), log[|log| - 1], i)
  }

  lemma PhaseAfter(log: seq<Event>, e: Event, i: nat)
    ensures PhaseOf(log + [e], i) == Next(PhaseOf(log, i), e, i)
  {
    assert (log + [e])[..|log|] == log;
  }

  function PhaseOfState(s: BufferState): Phase {
    match s
    case Free => Idle
    case Acquired => Held
    case Locked => Held
    case Submitted => WithAndroid
    case Released => Clash
  }

  /** The log tells the truth about every slot. */
  predicate Tracked(p: Pool) {
    && PhaseOf(p.log, 0) == PhaseOfState(p.slots[0].state)
    && PhaseOf(p.log, 1) == PhaseOfState(p.slots[1].state)
    && PhaseOf(p.log, 2) == PhaseOfState(p.slots[2].state)
  }

  // ---------------------------------------------------------------------------
  // Each step keeps the log truthful
  // ---------------------------------------------------------------------------

  lemma OneEvent(p: Pool, q: Pool, e: Event, i: Index)
    requires Tracked(p) && q.log == p.log + [e]
    requires e == HandedOut(i) || e == Queued(i) || e == Returned(i) || e == SubmitFailed(i)
    requires Next(PhaseOfState(p.slots[i].state), e, i) == PhaseOfState(q.slots[i].state)
    requires forall j: Index :: j != i ==> q.slots[j].state == p.slots[j].state
    ensures Tracked(q)
  {
    PhaseAfter(p.log, e, 0);
    PhaseAfter(p.log, e, 1);
    PhaseAfter(p.log, e, 2);
  }

  lemma DeliverTracked(p: Pool, r: Release)
    requires Core(p) && Exact(p) && Tracked(p)
    ensures Tracked(Deliver(p, r))
  {
    if r.slot in p.pending && p.tokenLive {
      DeliverExact(p, r);
      DeliverEffect(p, r);
      OneEvent(p, Deliver(p, r), Returned(r.slot), r.slot);
    }
  }

  lemma {:induction false} DeliverAllTracked(p: Pool, rs: seq<Release>)
    requires Core(p) && Exact(p) && Tracked(p)
    ensures Tracked(DeliverAll(p, rs))
    decreases |rs|
  {
    if rs != [] {
      DeliverKeeps(p, rs[0]);
      DeliverExact(p, rs[0]);
      DeliverTracked(p, rs[0]);
      DeliverAllTracked(Deliver(p, rs[0]), rs[1..]);
    }
  }

  lemma {:induction false} DrainTracked(p: Pool, timeout: nat, rounds: seq<Round>)
    requires Core(p) && Exact(p) && Tracked(p)
    ensures Tracked(Drain(p, timeout, rounds).0)
    decreases |rounds|
  {
    if p.submittedCount > 0 && !Expired(timeout, rounds) {
      DeliverAllKeeps(p, rounds[0].delivered);
      DeliverAllTracked(p, rounds[0].delivered);
      if !rounds[0].timedOut { DrainTracked(DeliverAll(p, rounds[0].delivered), timeout, rounds[1..]); }
    }
  }

  lemma FreedTracked(p: Pool, q: Pool)
    requires Tracked(p) && SlotsOk(p) && FreedFrom(p, q)
    ensures Tracked(q)
  {
    PhaseAfter(p.log, PoolFreed, 0);
    PhaseAfter(p.log, PoolFreed, 1);
    PhaseAfter(p.log, PoolFreed, 2);
  }

  lemma AllocatedTracked(p: Pool, q: Pool, ok: bool)
    requires Tracked(p) && AllUnused(p) && AllocatedFrom(p, q, ok)
    ensures Tracked(q)
  {
    if !ok {
      PhaseAfter(p.log, PoolFreed, 0);
      PhaseAfter(p.log, PoolFreed, 1);
      PhaseAfter(p.log, PoolFreed, 2);
    }
  }

  lemma EnableTracked(p: Pool, window: nat, width: int, height: int, surfaceOk: bool, allocs: seq<bool>)
    requires Inv(p) && Exact(p) && Tracked(p) && p.tokenLive
    ensures Tracked(Enable(p, window, width, height, surfaceOk, allocs).0)
  {
    if !p.enabled && window != 0 && surfaceOk {
      var default := width <= 0 || height <= 0;
      var q := CreateSurface(p.(window := window,
                                width := if default then DEFAULT_WIDTH else width,
                                height := if default then DEFAULT_HEIGHT else height), surfaceOk);
      AllocateFromKeeps(q, 0, allocs);
      var (r, ok) := AllocateFrom(q, 0, allocs);
      AllocatedTracked(q, r, ok);
    }
  }

  lemma TearDownTracked(d: Pool, fences: seq<int>)
    requires Core(d) && Tracked(d)
    ensures Tracked(TearDown(d, fences))
  {
    hide Core, FreePool;
    var s := ReleaseSurface(d);
    ReleaseSurfaceCore(d);
    FreedFromCore(s, fences);
    FreedTracked(s, FreePool(s, fences));
  }

  lemma FreedFromCore(s: Pool, fences: seq<int>)
    requires Core(s)
    ensures SlotsOk(s) && FreedFrom(s, FreePool(s, fences))
  {
    FreePoolKeeps(s, fences);
  }

  lemma DisableTracked(p: Pool, rounds: seq<Round>, fences: seq<int>)
    requires Inv(p) && Exact(p) && Tracked(p)
    ensures Tracked(Disable(p, rounds, fences))
  {
    if p.enabled {
      hide Core, Drain, TearDown;
      var off := p.(enabled := false);
      OffKeeps(p);
      DrainKeeps(off, 150, rounds);
      DrainTracked(off, 150, rounds);
      TearDownTracked(Drain(off, 150, rounds).0, fences);
    }
  }

  lemma ReallocateTracked(q: Pool, width: int, height: int, fences: seq<int>, allocs: seq<bool>)
    requires Core(q) && Tracked(q)
    ensures Tracked(Reallocate(q, width, height, fences, allocs).0)
  {
    hide Linear, CallbacksCover, Tracked, FreePool, AllocateFrom;
    FreePoolKeeps(q, fences);
    FreedCore(q, FreePool(q, fences));
    FreedTracked(q, FreePool(q, fences));
    var freed := FreePool(q, fences).(width := width, height := height);
    SameLogTracked(FreePool(q, fences), freed);
    if freed.enabled && freed.surface {
      AllocateFromKeeps(freed, 0, allocs);
      var (r, ok) := AllocateFrom(freed, 0, allocs);
      AllocatedTracked(freed, r, ok);
    }
  }

  lemma SameLogTracked(p: Pool, q: Pool)
    requires Tracked(p) && q.log == p.log && q.slots == p.slots
    ensures Tracked(q)
  {
  }

  lemma ResizeTracked(p: Pool, width: int, height: int, rounds: seq<Round>,
                      fences: seq<int>, allocs: seq<bool>)
    requires Inv(p) && Exact(p) && Tracked(p)
    ensures Tracked(Resize(p, width, height, rounds, fences, allocs).0)
  {
    if !ResizeIsNoOp(p, width, height) {
      DrainKeeps(p, 200, rounds);
      DrainTracked(p, 200, rounds);
      ReallocateTracked(Drain(p, 200, rounds).0, width, height, fences, allocs);
    }
  }

  lemma SetWindowTracked(p: Pool, window: nat, rounds: seq<Round>, surfaceOk: bool)
    requires Inv(p) && Exact(p) && Tracked(p)
    ensures Tracked(SetWindow(p, window, rounds, surfaceOk))
  {
    DrainTracked(p, 250, rounds);
  }

  lemma {:induction false} AcquireLoopTracked(p: Pool, timeout: nat, rounds: seq<Round>)
    requires Core(p) && Exact(p) && Tracked(p)
    ensures Tracked(AcquireLoop(p, timeout, rounds).0)
    decreases |rounds|
  {
    FirstAvailableIsFirst(p, 0);
    match FirstAvailable(p, 0)
    case Some(i) => OneEvent(p, HandOut(p, i), HandedOut(i), i);
    case None =>
      if !Expired(timeout, rounds) {
        DeliverAllKeeps(p, rounds[0].delivered);
        DeliverAllTracked(p, rounds[0].delivered);
        AcquireLoopTracked(DeliverAll(p, rounds[0].delivered), timeout, rounds[1..]);
      }
  }

  lemma SubmitTracked(p: Pool, i: int, fence: int, transactionOk: bool)
    requires Tracked(p)
    ensures Tracked(Submit(p, i, fence, transactionOk).0)
  {
    var q := Submit(p, i, fence, transactionOk).0;
    var closed := CloseFence(FenceIn(p, fence), fence);
    if 0 <= i < 3 && p.slots[i].state == Acquired {
      assert q == closed || q == FailSubmit(closed, i) || q == Enqueue(FenceIn(p, fence), i, fence);
      hide Submit;
      FailSubmitTracked(closed, i);
      EnqueueTracked(p, i, fence);
    } else {
      assert q == closed;
    }
  }

  lemma FailSubmitTracked(p: Pool, i: Index)
    requires Tracked(p) && p.slots[i].state == Acquired
    ensures Tracked(FailSubmit(p, i))
  {
    OneEvent(p, FailSubmit(p, i), SubmitFailed(i), i);
  }

  lemma EnqueueTracked(p: Pool, i: Index, fence: int)
    requires Tracked(p) && p.slots[i].state == Acquired
    ensures Tracked(Enqueue(FenceIn(p, fence), i, fence))
  {
    OneEvent(p, Enqueue(FenceIn(p, fence), i, fence), Queued(i), i);
  }

  lemma SameUseTracked(p: Pool, q: Pool)
    requires Tracked(p) && q.log == p.log
    requires forall j: Index :: PhaseOfState(p.slots[j].state) == PhaseOfState(q.slots[j].state)
    ensures Tracked(q)
  {
  }

  lemma InitGlesTracked(p: Pool, display: bool, resolved: bool, outcomes: seq<GlesOutcome>)
    requires Core(p) && Tracked(p)
    ensures Tracked(InitGles(p, display, resolved, outcomes).0)
  {
    InitGlesFromKeeps(p, 0, outcomes);
    SameUseTracked(p, InitGles(p, display, resolved, outcomes).0);
  }

  lemma AcquireTracked(p: Pool, timeout: nat, rounds: seq<Round>)
    requires Core(p) && Exact(p) && Tracked(p)
    ensures Tracked(Acquire(p, timeout, rounds).0)
  {
    hide Core, Exact, Tracked, AcquireLoop;
    AcquireLoopTracked(p, timeout, rounds);
  }

  /** Mapped or not, a held slot is with the producer. */
  lemma LockTracked(p: Pool, i: int, outcome: LockOutcome)
    requires Tracked(p)
    ensures Tracked(Lock(p, i, outcome).0)
  {
    var q := Lock(p, i, outcome).0;
    forall j: Index ensures PhaseOfState(p.slots[j].state) == PhaseOfState(q.slots[j].state) {}
    hide Lock;
    SameUseTracked(p, q);
  }

  lemma UnlockTracked(p: Pool, i: int, outcome: UnlockOutcome, wantsFence: bool)
    requires Tracked(p)
    ensures Tracked(Unlock(p, i, outcome, wantsFence).0)
  {
    var q := Unlock(p, i, outcome, wantsFence).0;
    forall j: Index ensures PhaseOfState(p.slots[j].state) == PhaseOfState(q.slots[j].state) {}
    hide Unlock;
    SameUseTracked(p, q);
  }

  lemma DestroyGlesTracked(p: Pool)
    requires Tracked(p)
    ensures Tracked(DestroyGles(p))
  {
    SameUseTracked(p, DestroyGles(p));
  }

  lemma PlainTracked(p: Pool, step: Step)
    requires Core(p) && Exact(p) && Tracked(p) && Plain(step)
    ensures Tracked(Perform(p, step))
  {
    hide Core, Exact, Tracked, Acquire, Lock, Unlock, Submit, Drain, InitGles, DestroyGles, Deliver;
    match step
    case DoAcquire(timeout, rounds) => AcquireTracked(p, timeout, rounds);
    case DoLock(i, outcome) => LockTracked(p, i, outcome);
    case DoUnlock(i, outcome, wantsFence) => UnlockTracked(p, i, outcome, wantsFence);
    case DoSubmit(i, fence, transactionOk) => SubmitTracked(p, i, fence, transactionOk);
    case DoWaitIdle(timeout, rounds) => DrainTracked(p, timeout, rounds);
    case DoInitGles(display, resolved, outcomes) => InitGlesTracked(p, display, resolved, outcomes);
    case DoDestroyGles => DestroyGlesTracked(p);
    case DoRelease(r) => DeliverTracked(p, r);
  }

  lemma StepTracked(p: Pool, step: Step)
    requires Inv(p) && Exact(p) && Tracked(p)
    ensures Tracked(Apply(p, step))
  {
    hide Core, Exact, Tracked, Enable, Disable, Resize, SetWindow, PhaseOf;
    if Permitted(p, step) {
      match step
      case DoEnable(window, width, height, surfaceOk, allocs) =>
        EnableTracked(p, window, width, height, surfaceOk, allocs);
      case DoDisable(rounds, fences) => DisableTracked(p, rounds, fences);
      case DoResize(width, height, rounds, fences, allocs) =>
        ResizeTracked(p, width, height, rounds, fences, allocs);
      case DoSetWindow(window, rounds, surfaceOk) => SetWindowTracked(p, window, rounds, surfaceOk);
      case BeginDestroy => SameUseTracked(p, p.(destroyed := true));
      case NullToken => SameUseTracked(p, p.(tokenLive := false));
      case _ =>
        hide Perform;
        PlainTracked(p, step);
    }
  }

  // ---------------------------------------------------------------------------
  // What a log without a clash says
  // ---------------------------------------------------------------------------

  /** Slot i went back to the pool at r, having been queued since it was handed out at p. */
  predicate GivenBack(log: seq<Event>, i: nat, p: nat, r: nat)
    requires r < |log|
  {
    || log[r] == PoolFreed
    || log[r] == SubmitFailed(i)
    || (log[r] == Returned(i) && exists t :: p < t < r && log[t] == Queued(i))
  }

  lemma {:induction false} NoClashBefore(log: seq<Event>, k: nat, i: nat)
    requires k <= |log| && PhaseOf(log, i) != Clash
    ensures PhaseOf(log[..k], i) != Clash
    decreases |log| - k
  {
    if k == |log| {
      assert log[..k] == log;
    } else {
      NoClashBefore(log, k + 1, i);
      assert log[..k + 1][..k] == log[..k];
    }
  }

  /** As long as slot i has not been given back it stays with the producer or Android. */
  lemma {:induction false} StaysOut(log: seq<Event>, i: nat, p: nat, k: nat)
    requires p < k <= |log| && PhaseOf(log, i) != Clash && log[p] == HandedOut(i)
    requires forall r :: p < r < k ==> !GivenBack(log, i, p, r)
    ensures PhaseOf(log[..k], i) == Held
      || (PhaseOf(log[..k], i) == WithAndroid && exists t :: p < t < k && log[t] == Queued(i))
    decreases k
  {
    assert log[..k][..k - 1] == log[..k - 1];
    NoClashBefore(log, k, i);
    NoClashBefore(log, k - 1, i);
    if p < k - 1 {
      StaysOut(log, i, p, k - 1);
      assert !GivenBack(log, i, p, k - 1);
      if log[k - 1] == Queued(i) { assert p < k - 1 < k; }
    }
  }

  /** Between two hand-outs of a slot it was given back. */
  lemma HandOutsSeparated(log: seq<Event>, i: nat, p: nat, q: nat)
    requires p < q < |log| && PhaseOf(log, i) != Clash
    requires log[p] == HandedOut(i) && log[q] == HandedOut(i)
    ensures exists r :: p < r < q && GivenBack(log, i, p, r)
  {
    NoClashBefore(log, q + 1, i);
    assert log[..q + 1][..q] == log[..q];
    if forall r :: p < r < q ==> !GivenBack(log, i, p, r) {
      StaysOut(log, i, p, q);
    }
  }
}
