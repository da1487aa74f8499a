/**
  Each operation of the backend keeps the invariants.  The freeing operations keep the
  exact one if and only if the counter had reached 0 when they freed the pool.
 */
module PresentationOperations {
  import opened PresentationModel
  import opened PresentationInvariants

  ghost predicate Inv(p: Pool) {
    Core(p) && Settled(p)
  }

  // ---------------------------------------------------------------------------
  // Lifecycle
  // ---------------------------------------------------------------------------

  lemma CreateSurfaceCore(p: Pool, ok: bool)
    requires Core(p) && !p.surface
    ensures Core(CreateSurface(p, ok)) && SameExact(p, CreateSurface(p, ok))
  {
  }

  lemma ReleaseSurfaceCore(p: Pool)
    requires Core(p)
    ensures Core(ReleaseSurface(p)) && SameExact(p, ReleaseSurface(p))
  {
  }

  /** The part of enable after its argument checks. */
  lemma EnableAllocates(p: Pool, q: Pool, surfaceOk: bool, allocs: seq<bool>)
    requires Inv(p) && !p.enabled && p.tokenLive
    requires q == CreateSurface(p.(window := q.window, width := q.width, height := q.height), surfaceOk)
    requires surfaceOk
    ensures var (r, ok) := AllocateFrom(q, 0, allocs);
      var done := if ok then r.(enabled := true) else ReleaseSurface(r);
      Inv(done) && SameExact(p, done)
  {
    hide AllocateFrom;
    CreateSurfaceCore(p.(window := q.window, width := q.width, height := q.height), surfaceOk);
    AllocateFromKeeps(q, 0, allocs);
    var (r, ok) := AllocateFrom(q, 0, allocs);
    AllocatedCore(q, r, ok);
    ReleaseSurfaceCore(r);
  }

  lemma EnableKeeps(p: Pool, window: nat, width: int, height: int, surfaceOk: bool, allocs: seq<bool>)
    requires Inv(p) && p.tokenLive
    ensures var q := Enable(p, window, width, height, surfaceOk, allocs).0;
      Inv(q) && SameExact(p, q)
  {
    if !p.enabled && window != 0 {
      var default := width <= 0 || height <= 0;
      var q := CreateSurface(p.(window := window,
                                width := if default then DEFAULT_WIDTH else width,
                                height := if default then DEFAULT_HEIGHT else height), surfaceOk);
      if surfaceOk { EnableAllocates(p, q, surfaceOk, allocs); }
    }
  }

  /** A drained counter and the exact invariant leave no callback owed; and conversely. */
  lemma EmptiedIffNothingOwed(p: Pool)
    requires Core(p) && CallbacksExact(p)
    ensures p.submittedCount == 0 <==> p.pending == multiset{}
  {
    NothingOwed(p.pending);
  }

  lemma TornDown(s: Pool, r: Pool)
    requires Core(s) && FreedFrom(s, r) && !s.surface && !s.enabled && (!s.tokenLive ==> s.destroyed)
    ensures Inv(r.(window := 0))
    ensures ExactIff(s, r.(window := 0), s.submittedCount == 0)
  {
    FreedCore(s, r);
    if CallbacksExact(s) { EmptiedIffNothingOwed(s); }
  }

  lemma TearDownKeeps(q: Pool, fences: seq<int>)
    requires Core(q) && !q.enabled && (!q.tokenLive ==> q.destroyed)
    ensures Inv(TearDown(q, fences))
    ensures ExactIff(q, TearDown(q, fences), q.submittedCount == 0)
  {
    ReleaseSurfaceCore(q);
    var s := ReleaseSurface(q);
    FreePoolKeeps(s, fences);
    TornDown(s, FreePool(s, fences));
  }

  lemma OffKeeps(p: Pool)
    requires Core(p)
    ensures Core(p.(enabled := false)) && SameExact(p, p.(enabled := false))
  {
  }

  lemma DisableKeeps(p: Pool, rounds: seq<Round>, fences: seq<int>)
    requires Inv(p)
    ensures Inv(Disable(p, rounds, fences))
    ensures ExactIff(p, Disable(p, rounds, fences), Emptied(p, DoDisable(rounds, fences)))
  {
    if p.enabled {
      var off := p.(enabled := false);
      OffKeeps(p);
      DrainKeeps(off, 150, rounds);
      TearDownKeeps(Drain(off, 150, rounds).0, fences);
    }
  }

  lemma ReallocateKeeps(p: Pool, q: Pool, width: int, height: int, fences: seq<int>, allocs: seq<bool>)
    requires Inv(p) && Core(q) && SameResources(p, q)
    requires KeepsExact(p, q)
    ensures Inv(Reallocate(q, width, height, fences, allocs).0)
    ensures ExactIff(p, Reallocate(q, width, height, fences, allocs).0, q.submittedCount == 0)
  {
    hide AllocateFrom, FreePool;
    FreePoolKeeps(q, fences);
    FreedCore(q, FreePool(q, fences));
    var freed := FreePool(q, fences).(width := width, height := height);
    if CallbacksExact(p) { EmptiedIffNothingOwed(q); }
    if freed.enabled && freed.surface {
      AllocateFromKeeps(freed, 0, allocs);
      var (r, ok) := AllocateFrom(freed, 0, allocs);
      AllocatedCore(freed, r, ok);
    }
  }

  lemma ResizeKeeps(p: Pool, width: int, height: int, rounds: seq<Round>,
                    fences: seq<int>, allocs: seq<bool>)
    requires Inv(p) && !p.destroyed
    ensures Inv(Resize(p, width, height, rounds, fences, allocs).0)
    ensures ExactIff(p, Resize(p, width, height, rounds, fences, allocs).0,
                     Emptied(p, DoResize(width, height, rounds, fences, allocs)))
  {
    hide Core, Settled, Exact, CallbacksExact, Drain, Reallocate;
    if !ResizeIsNoOp(p, width, height) {
      DrainKeeps(p, 200, rounds);
      ReallocateKeeps(p, Drain(p, 200, rounds).0, width, height, fences, allocs);
    }
  }

  lemma WindowKeeps(p: Pool, window: nat)
    requires Core(p)
    ensures Core(p.(window := window)) && SameExact(p, p.(window := window))
  {
    hide Linear, SlotOk;
  }

  lemma RebindCore(q: Pool, window: nat, surfaceOk: bool)
    requires Core(q)
    ensures Core(Rebind(q, window, surfaceOk)) && SameExact(q, Rebind(q, window, surfaceOk))
  {
    hide Core, Exact, CallbacksExact;
    ReleaseSurfaceCore(q);
    WindowKeeps(ReleaseSurface(q), window);
    var r := ReleaseSurface(q).(window := window);
    if r.enabled && window != 0 { CreateSurfaceCore(r, surfaceOk); }
  }

  lemma RebindKeeps(p: Pool, q: Pool, window: nat, surfaceOk: bool)
    requires Inv(p) && Core(q) && SameResources(p, q)
    ensures Inv(Rebind(q, window, surfaceOk)) && SameExact(q, Rebind(q, window, surfaceOk))
  {
    hide Core, Exact, CallbacksExact;
    RebindCore(q, window, surfaceOk);
  }

  lemma SetWindowKeeps(p: Pool, window: nat, rounds: seq<Round>, surfaceOk: bool)
    requires Inv(p)
    ensures Inv(SetWindow(p, window, rounds, surfaceOk))
    ensures KeepsExact(p, SetWindow(p, window, rounds, surfaceOk))
  {
    if p.window != window {
      DrainKeeps(p, 250, rounds);
      RebindKeeps(p, if p.surface then Drain(p, 250, rounds).0 else p, window, surfaceOk);
    }
  }

  // ---------------------------------------------------------------------------
  // Producer calls and GLES targets
  // ---------------------------------------------------------------------------

  lemma {:induction false} FirstAvailableIsFirst(p: Pool, i: nat)
    ensures match FirstAvailable(p, i)
      case Some(k) => i <= k && Available(p.slots[k]) && (forall j: Index :: i <= j < k ==> !Available(p.slots[j]))
      case None => forall j: Index :: i <= j ==> !Available(p.slots[j])
    decreases 3 - i
  {
    if i < 3 && !Available(p.slots[i]) { FirstAvailableIsFirst(p, i + 1); }
  }

  /** The call changed nothing that Whole and Settled speak of. */
  predicate SameHold(p: Pool, q: Pool) {
    && q.enabled == p.enabled && q.surface == p.surface && q.window == p.window
    && q.tokenLive == p.tokenLive && q.destroyed == p.destroyed
    && SameBuffers(p.slots, q.slots)
  }

  lemma SameHoldKeeps(p: Pool, q: Pool)
    requires SameHold(p, q)
    ensures (Whole(p) ==> Whole(q)) && (Settled(p) ==> Settled(q))
    ensures (PoolFull(p) <==> PoolFull(q)) && (PoolEmpty(p) <==> PoolEmpty(q))
  {
  }

  lemma SameResourcesHold(p: Pool, q: Pool)
    requires SameResources(p, q)
    ensures SameHold(p, q)
  {
  }

  /** Changing only what slot i is used for, short of submitting it. */
  predicate SlotMoved(p: Pool, q: Pool, i: Index) {
    && q == p.(slots := p.slots[i := q.slots[i]], log := q.log, ledger := q.ledger)
    && q.ledger == p.ledger.(fencesIn := q.ledger.fencesIn, fencesClosed := q.ledger.fencesClosed,
                             fencesToCaller := q.ledger.fencesToCaller)
    && q.slots[i].buffer == p.slots[i].buffer
    && p.slots[i].state != Submitted && q.slots[i].state != Submitted
  }

  lemma SlotMovedKeeps(p: Pool, q: Pool, i: Index)
    requires Core(p) && SlotMoved(p, q, i) && SlotOk(q.slots[i]) && FencesLinear(q)
    ensures Core(q) && SameHold(p, q)
    ensures CallbacksExact(p) ==> CallbacksExact(q)
    ensures Exact(p) && MappedIffLocked(q.slots[i]) ==> Exact(q)
  {
    LinearCarriesOver(p.slots, q.slots, p.ledger.nextBuffer, p.ledger.buffersReleased);
    if i == 0 {} else if i == 1 {} else {}
  }

  lemma HandOutKeeps(p: Pool, i: Index)
    requires Core(p) && Available(p.slots[i])
    ensures var q := HandOut(p, i);
      Core(q) && SameHold(p, q) && KeepsExact(p, q)
  {
    if Exact(p) { MappedIffLockedAt(p, i); }
    SlotOkAt(p, i);
    SlotMovedKeeps(p, HandOut(p, i), i);
  }

  lemma {:induction false} AcquireLoopKeeps(p: Pool, timeout: nat, rounds: seq<Round>)
    requires Core(p)
    ensures var q := AcquireLoop(p, timeout, rounds).0;
      Core(q) && SameHold(p, q) && KeepsExact(p, q)
    decreases |rounds|
  {
    FirstAvailableIsFirst(p, 0);
    match FirstAvailable(p, 0)
    case Some(i) => HandOutKeeps(p, i);
    case None =>
      if !Expired(timeout, rounds) {
        hide Core, Exact, CallbacksExact, FirstAvailable;
        var d := DeliverAll(p, rounds[0].delivered);
        DeliverAllKeeps(p, rounds[0].delivered);
        SameResourcesHold(p, d);
        AcquireLoopKeeps(d, timeout, rounds[1..]);
      }
  }

  lemma LockKeeps(p: Pool, i: int, outcome: LockOutcome)
    requires Core(p)
    ensures var q := Lock(p, i, outcome).0;
      Core(q) && SameHold(p, q) && KeepsExact(p, q)
  {
    hide BuffersLinear, CallbacksCover, CallbacksExact;
    if 0 <= i < 3 && Lock(p, i, outcome).0 != p {
      SlotOkAt(p, i);
      SlotMovedKeeps(p, Lock(p, i, outcome).0, i);
    }
  }

  lemma UnlockFences(p: Pool, i: int, outcome: UnlockOutcome, wantsFence: bool)
    requires FencesLinear(p)
    ensures FencesLinear(Unlock(p, i, outcome, wantsFence).0)
  {
  }

  lemma UnlockKeeps(p: Pool, i: int, outcome: UnlockOutcome, wantsFence: bool)
    requires Core(p)
    ensures var q := Unlock(p, i, outcome, wantsFence).0;
      Core(q) && SameHold(p, q) && KeepsExact(p, q)
  {
    hide Core, FencesLinear, CallbacksExact, Exact, Unlock, SlotMoved, SlotOk;
    if 0 <= i < 3 && p.slots[i].state == Locked && p.slots[i].buffer != 0 && outcome.Unlocked? {
      CoreHas(p, i);
      UnlockFences(p, i, outcome, wantsFence);
      UnlockMoves(p, i, outcome.fence, wantsFence);
      UnlockedKeeps(p, Unlock(p, i, outcome, wantsFence).0, i);
    } else {
      UnlockRefuses(p, i, outcome, wantsFence);
    }
  }

  lemma CoreHas(p: Pool, i: Index)
    requires Core(p)
    ensures SlotOk(p.slots[i]) && FencesLinear(p)
  {
    SlotOkAt(p, i);
  }

  lemma UnlockMoves(p: Pool, i: Index, fence: int, wantsFence: bool)
    requires SlotOk(p.slots[i]) && p.slots[i].state == Locked
    ensures var q := Unlock(p, i, Unlocked(fence), wantsFence).0;
      SlotMoved(p, q, i) && SlotOk(q.slots[i]) && MappedIffLocked(q.slots[i])
  {
  }

  lemma UnlockRefuses(p: Pool, i: int, outcome: UnlockOutcome, wantsFence: bool)
    requires !(0 <= i < 3 && p.slots[i].state == Locked && p.slots[i].buffer != 0 && outcome.Unlocked?)
    ensures Unlock(p, i, outcome, wantsFence).0 == p
  {
  }

  lemma UnlockedKeeps(p: Pool, q: Pool, i: Index)
    requires Core(p) && SlotMoved(p, q, i) && SlotOk(q.slots[i]) && MappedIffLocked(q.slots[i]) && FencesLinear(q)
    ensures Core(q) && SameHold(p, q) && KeepsExact(p, q)
  {
    hide Core, SlotMoved, SlotOk, CallbacksExact;
    SlotMovedKeeps(p, q, i);
  }

  lemma SubmitRefusedKeeps(p: Pool, q: Pool, fence: int)
    requires Core(p) && q == CloseFence(FenceIn(p, fence), fence)
    ensures Core(q) && SameHold(p, q) && KeepsExact(p, q)
  {
  }

  lemma FencesOf(p: Pool, q: Pool)
    requires FencesLinear(p) && p.ledger == q.ledger
    ensures FencesLinear(q)
  {
  }

  lemma SubmitFailedKeeps(p: Pool, i: Index, fence: int)
    requires Core(p) && p.slots[i].state == Acquired
    ensures var q := FailSubmit(CloseFence(FenceIn(p, fence), fence), i);
      Core(q) && SameHold(p, q) && KeepsExact(p, q)
  {
    SubmitRefusedKeeps(p, CloseFence(FenceIn(p, fence), fence), fence);
    hide BuffersLinear, CallbacksCover, FencesLinear, CallbacksExact;
    SlotOkAt(p, i);
    if Exact(p) { MappedIffLockedAt(p, i); }
    FencesOf(CloseFence(FenceIn(p, fence), fence), FailSubmit(CloseFence(FenceIn(p, fence), fence), i));
    SlotMovedKeeps(p, FailSubmit(CloseFence(FenceIn(p, fence), fence), i), i);
  }

  lemma EnqueueCounts(p: Pool, q: Pool, i: Index)
    requires SlotsOk(p) && CallbacksCover(p) && p.tokenLive && p.slots[i].state == Acquired
    requires q.slots == p.slots[i := p.slots[i].(state := Submitted)] && q.tokenLive
    requires q.submittedCount == p.submittedCount + 1 && q.pending == p.pending + multiset{i}
    ensures SlotsOk(q) && CallbacksCover(q)
    ensures KeepsExact(p, q)
  {
    if i == 0 {} else if i == 1 {} else {}
  }

  lemma EnqueueKeeps(p: Pool, i: Index, fence: int)
    requires Core(p) && p.tokenLive && p.slots[i].state == Acquired && p.slots[i].buffer != 0
    ensures var q := Enqueue(FenceIn(p, fence), i, fence);
      Core(q) && SameHold(p, q) && KeepsExact(p, q)
  {
    var q := Enqueue(FenceIn(p, fence), i, fence);
    EnqueueCounts(p, q, i);
    LinearCarriesOver(p.slots, q.slots, p.ledger.nextBuffer, p.ledger.buffersReleased);
    if i == 0 {} else if i == 1 {} else {}
  }

  lemma SubmitKeeps(p: Pool, i: int, fence: int, transactionOk: bool)
    requires Core(p) && p.tokenLive
    ensures var q := Submit(p, i, fence, transactionOk).0;
      Core(q) && SameHold(p, q) && KeepsExact(p, q)
  {
    hide Core, Exact, CallbacksExact, FailSubmit, Enqueue;
    SubmitRefusedKeeps(p, CloseFence(FenceIn(p, fence), fence), fence);
    if 0 <= i < 3 && p.slots[i].state == Acquired {
      SubmitFailedKeeps(p, i, fence);
      if p.slots[i].buffer != 0 { EnqueueKeeps(p, i, fence); }
    }
  }

  /** q differs from p in GLES targets only. */
  predicate GlesOnly(p: Pool, q: Pool) {
    && q == p.(slots := q.slots)
    && WithoutGles(q.slots[0]) == WithoutGles(p.slots[0])
    && WithoutGles(q.slots[1]) == WithoutGles(p.slots[1])
    && WithoutGles(q.slots[2]) == WithoutGles(p.slots[2])
  }

  lemma GlesOnlyUpdate(p: Pool, i: Index, s: Slot)
    requires WithoutGles(s) == WithoutGles(p.slots[i])
    ensures GlesOnly(p, WithSlot(p, i, s))
  {
    if i == 0 {} else if i == 1 {} else {}
  }

  lemma GlesOnlyKeeps(p: Pool, q: Pool)
    requires Core(p) && GlesOnly(p, q) && SlotsOk(q)
    ensures Core(q) && SameHold(p, q) && KeepsExact(p, q)
  {
    LinearCarriesOver(p.slots, q.slots, p.ledger.nextBuffer, p.ledger.buffersReleased);
  }

  lemma {:induction false} InitGlesFromKeeps(p: Pool, i: nat, outcomes: seq<GlesOutcome>)
    requires SlotsOk(p)
    ensures GlesOnly(p, InitGlesFrom(p, i, outcomes).0) && SlotsOk(InitGlesFrom(p, i, outcomes).0)
    decreases 3 - i
  {
    hide SlotsOk, GlesOnly, DestroyGles, GlesAt;
    if i < 3 {
      if p.slots[i].buffer == 0 {
        InitGlesFromKeeps(p, i + 1, outcomes);
      } else if GlesAt(outcomes, i).Target? {
        var g := GlesAt(outcomes, i);
        var s := p.slots[i].(eglImage := g.image, texture := g.texture, fbo := g.fbo);
        StoreTarget(p, i, s);
        InitGlesFromKeeps(WithSlot(p, i, s), i + 1, outcomes);
        GlesOnlyTransitive(p, WithSlot(p, i, s), InitGlesFrom(p, i, outcomes).0);
      } else {
        DestroyGlesOnly(p);
      }
    } else {
      DestroyGlesOnly(p);
    }
  }

  lemma DestroyGlesOnly(p: Pool)
    requires SlotsOk(p)
    ensures SlotsOk(p) && GlesOnly(p, p) && SlotsOk(DestroyGles(p)) && GlesOnly(p, DestroyGles(p))
  {
  }

  lemma StoreTarget(p: Pool, i: Index, s: Slot)
    requires SlotsOk(p) && p.slots[i].buffer != 0 && WithoutGles(s) == WithoutGles(p.slots[i])
    requires s.eglImage != 0 && s.texture != 0 && s.fbo != 0
    ensures SlotsOk(WithSlot(p, i, s)) && GlesOnly(p, WithSlot(p, i, s))
  {
    SlotOkAt(p, i);
    SlotsOkUpdate(p, i, s);
    GlesOnlyUpdate(p, i, s);
  }

  lemma GlesOnlyTransitive(p: Pool, q: Pool, r: Pool)
    requires GlesOnly(p, q) && GlesOnly(q, r)
    ensures GlesOnly(p, r)
  {
  }

  lemma InitGlesKeeps(p: Pool, display: bool, resolved: bool, outcomes: seq<GlesOutcome>)
    requires Core(p)
    ensures var q := InitGles(p, display, resolved, outcomes).0;
      Core(q) && SameHold(p, q) && KeepsExact(p, q)
  {
    InitGlesFromKeeps(p, 0, outcomes);
    GlesOnlyKeeps(p, InitGles(p, display, resolved, outcomes).0);
  }

  lemma DestroyGlesKeeps(p: Pool)
    requires Core(p)
    ensures var q := DestroyGles(p);
      Core(q) && SameHold(p, q) && KeepsExact(p, q)
  {
    GlesOnlyKeeps(p, DestroyGles(p));
  }

  lemma DestroyFlagsKeep(p: Pool)
    requires Inv(p)
    ensures Inv(p.(destroyed := true)) && KeepsExact(p, p.(destroyed := true))
    ensures p.destroyed && !p.enabled ==> Inv(p.(tokenLive := false))
    ensures KeepsExact(p, p.(tokenLive := false))
  {
  }

  lemma WaitIdleKeeps(p: Pool, timeout: nat, rounds: seq<Round>)
    requires Core(p)
    ensures var q := Drain(p, timeout, rounds).0;
      Core(q) && SameHold(p, q) && KeepsExact(p, q)
  {
    DrainKeeps(p, timeout, rounds);
    SameResourcesHold(p, Drain(p, timeout, rounds).0);
  }

  lemma ReleaseKeeps(p: Pool, r: Release)
    requires Core(p)
    ensures var q := Deliver(p, r);
      Core(q) && SameHold(p, q) && KeepsExact(p, q)
  {
    DeliverKeeps(p, r);
    SameResourcesHold(p, Deliver(p, r));
    if CallbacksExact(p) { DeliverExact(p, r); }
  }

  // ---------------------------------------------------------------------------
  // One step
  // ---------------------------------------------------------------------------

  /** The calls that leave the output, its surface and its buffers as they are. */
  predicate Plain(step: Step) {
    match step
    case DoEnable(_, _, _, _, _) => false
    case DoDisable(_, _) => false
    case DoResize(_, _, _, _, _) => false
    case DoSetWindow(_, _, _) => false
    case BeginDestroy => false
    case NullToken => false
    case _ => true
  }

  lemma PlainStepKeeps(p: Pool, step: Step)
    requires Core(p) && Plain(step) && (step.DoSubmit? ==> p.tokenLive)
    ensures var q := Perform(p, step);
      Core(q) && SameHold(p, q) && KeepsExact(p, q)
  {
    hide Core, KeepsExact, AcquireLoop, Lock, Unlock, Submit, Drain, InitGles, DestroyGles, Deliver;
    match step
    case DoAcquire(timeout, rounds) => AcquireKeeps(p, timeout, rounds);
    case DoLock(i, outcome) => LockKeeps(p, i, outcome);
    case DoUnlock(i, outcome, wantsFence) => UnlockKeeps(p, i, outcome, wantsFence);
    case DoSubmit(i, fence, transactionOk) => SubmitKeeps(p, i, fence, transactionOk);
    case DoWaitIdle(timeout, rounds) => WaitIdleKeeps(p, timeout, rounds);
    case DoInitGles(display, resolved, outcomes) => InitGlesKeeps(p, display, resolved, outcomes);
    case DoDestroyGles => DestroyGlesKeeps(p);
    case DoRelease(r) => ReleaseKeeps(p, r);
  }

  lemma AcquireKeeps(p: Pool, timeout: nat, rounds: seq<Round>)
    requires Core(p)
    ensures var q := Acquire(p, timeout, rounds).0;
      Core(q) && SameHold(p, q) && KeepsExact(p, q)
  {
    AcquireLoopKeeps(p, timeout, rounds);
  }

  /**
    Whatever happens next, Inv is kept; and the exact invariant is kept if and only
    if a step that frees the pool found submitted_count_ at 0.
   */
  lemma StepKeeps(p: Pool, step: Step)
    requires Inv(p)
    ensures Inv(Apply(p, step))
    ensures ExactIff(p, Apply(p, step), Emptied(p, step))
  {
    hide Core, Exact, CallbacksExact, Enable, Disable, Resize, SetWindow, Drain;
    if Permitted(p, step) {
      match step
      case DoEnable(window, width, height, surfaceOk, allocs) =>
        EnableKeeps(p, window, width, height, surfaceOk, allocs);
      case DoDisable(rounds, fences) => DisableKeeps(p, rounds, fences);
      case DoResize(width, height, rounds, fences, allocs) =>
        ResizeKeeps(p, width, height, rounds, fences, allocs);
      case DoSetWindow(window, rounds, surfaceOk) => SetWindowKeeps(p, window, rounds, surfaceOk);
      case BeginDestroy => DestroyFlagsKeep(p);
      case NullToken => DestroyFlagsKeep(p);
      case _ =>
        hide Perform;
        PlainStepKeeps(p, step);
        SameHoldKeeps(p, Perform(p, step));
    }
  }

  /** A drain that returned 0 emptied the counter; a drain that timed out may have too. */
  lemma DrainedImpliesEmptied(p: Pool, step: Step)
    requires Inv(p) && Drained(p, step)
    ensures Emptied(p, step)
  {
    match step
    case DoDisable(rounds, _) =>
      if p.enabled { OffKeeps(p); DrainKeeps(p.(enabled := false), 150, rounds); }
    case DoResize(_, _, rounds, _, _) => DrainKeeps(p, 200, rounds);
    case _ =>
  }
}
