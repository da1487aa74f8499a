/**
  What each call promises its caller: when it succeeds, what it leaves behind, and what
  it leaves behind when it fails.
 */
module PresentationCalls {
  import opened PresentationModel
  import opened PresentationInvariants
  import opened PresentationOperations
  import opened PresentationHistory
  import opened PresentationRuns

  predicate AllAllocate(allocs: seq<bool>) {
    BoolAt(allocs, 0) && BoolAt(allocs, 1) && BoolAt(allocs, 2)
  }

  // ---------------------------------------------------------------------------
  // Lifecycle
  // ---------------------------------------------------------------------------

  /**
    enable succeeds if and only if the output is already enabled, or there is a window
    and Android grants the surface and all three buffers.  A failed enable holds nothing,
    though it keeps the window and size it was given.
   */
  lemma EnableOutcome(p: Pool, window: nat, width: int, height: int, surfaceOk: bool, allocs: seq<bool>)
    requires Inv(p) && p.tokenLive
    ensures var (q, status) := Enable(p, window, width, height, surfaceOk, allocs);
      && (status == Success <==> p.enabled || (window != 0 && surfaceOk && AllAllocate(allocs)))
      && (status == EINVAL <==> !p.enabled && window == 0)
      && (status == Success || status == EINVAL || status == ENOMEM)
      && (p.enabled || window == 0 ==> q == p)
      && (q.enabled <==> status == Success)
      && (!p.enabled && window != 0 ==>
            && q.window == window
            && (if width > 0 && height > 0 then q.width == width && q.height == height
                else q.width == 1920 && q.height == 1080)
            && (if status == Success then q.surface && PoolFull(q) && AllUnused(q)
                else !q.surface && PoolEmpty(q)))
  {
    if !p.enabled && window != 0 && surfaceOk {
      var default := width <= 0 || height <= 0;
      var q := CreateSurface(p.(window := window,
                                width := if default then DEFAULT_WIDTH else width,
                                height := if default then DEFAULT_HEIGHT else height), surfaceOk);
      hide AllocateFrom;
      CreateSurfaceCore(p.(window := q.window, width := q.width, height := q.height), true);
      AllocateFromKeeps(q, 0, allocs);
      AllocatesIff(q, 0, allocs);
      assert AllocateFrom(q, 0, allocs).1 <==> AllAllocate(allocs);
    }
  }

  /** After disable nothing is held, whether or not the drain emptied the counter. */
  lemma DisableOutcome(p: Pool, rounds: seq<Round>, fences: seq<int>)
    requires Inv(p)
    ensures var q := Disable(p, rounds, fences);
      && !q.enabled && !q.surface && PoolEmpty(q) && SubmittedSlots(q) == 0 && q.destroyed == p.destroyed
      && (p.enabled ==> q.window == 0 && q.submittedCount == 0)
      && (!p.enabled ==> q == p)
  {
    if p.enabled {
      hide Core, Drain, TearDown;
      var off := p.(enabled := false);
      OffKeeps(p);
      DrainKeeps(off, 150, rounds);
      TearDownLeavesNothing(Drain(off, 150, rounds).0, fences);
    } else {
      EmptySubmitsNothing(p);
    }
  }

  lemma TearDownLeavesNothing(d: Pool, fences: seq<int>)
    requires Core(d)
    ensures var q := TearDown(d, fences);
      && q.enabled == d.enabled && !q.surface && PoolEmpty(q) && SubmittedSlots(q) == 0 && q.destroyed == d.destroyed
      && q.window == 0 && q.submittedCount == 0
  {
    hide FreePool;
    var s := ReleaseSurface(d);
    ReleaseSurfaceCore(d);
    FreedFromCore(s, fences);
    hide Core;
  }

  lemma EmptySubmitsNothing(p: Pool)
    requires Core(p) && PoolEmpty(p)
    ensures SubmittedSlots(p) == 0
  {
    hide Linear, FencesLinear;
  }

  /**
    resize takes the new size unless it refuses it, and succeeds except when an enabled,
    bound output cannot get all its buffers again.
   */
  lemma ResizeOutcome(p: Pool, width: int, height: int, rounds: seq<Round>, fences: seq<int>, allocs: seq<bool>)
    requires Inv(p)
    ensures var (q, status) := Resize(p, width, height, rounds, fences, allocs);
      && (status == EINVAL <==> width <= 0 || height <= 0)
      && (status == ENOMEM <==> !ResizeIsNoOp(p, width, height) && p.enabled && p.surface && !AllAllocate(allocs))
      && (status == EINVAL || status == ENOMEM || status == Success)
      && (ResizeIsNoOp(p, width, height) ==> q == p)
      && (status != EINVAL ==> q.width == width && q.height == height)
      && q.enabled == p.enabled && q.surface == p.surface && q.window == p.window && q.destroyed == p.destroyed
      && (!ResizeIsNoOp(p, width, height) ==> AllUnused(q))
  {
    if !ResizeIsNoOp(p, width, height) {
      DrainKeeps(p, 200, rounds);
      var d := Drain(p, 200, rounds).0;
      hide Reallocate, Drain, Core, Inv;
      ReallocateOutcome(d, width, height, fences, allocs);
    }
  }

  lemma ReallocateOutcome(d: Pool, width: int, height: int, fences: seq<int>, allocs: seq<bool>)
    requires Core(d)
    ensures var (q, status) := Reallocate(d, width, height, fences, allocs);
      && status == (if d.enabled && d.surface && !AllAllocate(allocs) then ENOMEM else Success)
      && q.width == width && q.height == height
      && q.enabled == d.enabled && q.surface == d.surface && q.window == d.window && q.destroyed == d.destroyed
      && AllUnused(q)
  {
    hide FreePool, AllocateFrom;
    FreePoolKeeps(d, fences);
    FreedCore(d, FreePool(d, fences));
    hide Core;
    var q := FreePool(d, fences).(width := width, height := height);
    AllocatesIff(q, 0, allocs);
    assert AllocateFrom(q, 0, allocs).1 <==> AllAllocate(allocs);
    if q.enabled && q.surface { AllocateFromKeeps(q, 0, allocs); }
  }

  /** setWindow leaves a surface exactly when one was wanted and granted; buffers stay. */
  lemma SetWindowOutcome(p: Pool, window: nat, rounds: seq<Round>, surfaceOk: bool)
    requires Inv(p)
    ensures var q := SetWindow(p, window, rounds, surfaceOk);
      && q.window == window && q.enabled == p.enabled
      && (window == p.window ==> q == p)
      && (window != p.window ==> (q.surface <==> p.enabled && window != 0 && surfaceOk))
      && SameBuffers(p.slots, q.slots)
  {
    if p.window != window && p.surface {
      hide Drain;
      DrainKeeps(p, 250, rounds);
    }
  }

  // ---------------------------------------------------------------------------
  // Producer
  // ---------------------------------------------------------------------------

  /** Slots freed since p, and nothing else. */
  predicate OnlyFreed(p: Pool, q: Pool, i: Index) {
    q.slots[i].state == p.slots[i].state || q.slots[i].state == Free
  }

  lemma DeliverOnlyFrees(p: Pool, r: Release, i: Index)
    ensures OnlyFreed(p, Deliver(p, r), i)
  {
  }

  lemma {:induction false} DeliverAllOnlyFrees(p: Pool, rs: seq<Release>, i: Index)
    requires Core(p)
    ensures OnlyFreed(p, DeliverAll(p, rs), i)
    decreases |rs|
  {
    if rs != [] {
      hide Core, Deliver;
      DeliverKeeps(p, rs[0]);
      DeliverOnlyFrees(p, rs[0], i);
      DeliverAllOnlyFrees(Deliver(p, rs[0]), rs[1..], i);
    }
  }

  /** The slot in result came with its own buffer; slot j otherwise was at most freed. */
  predicate HandedOver(p: Pool, q: Pool, result: Acquisition, j: Index) {
    match result
    case Failed(status) => status == ETIMEDOUT && OnlyFreed(p, q, j)
    case Got(i, buffer) =>
      && q.slots[i].state == Acquired
      && q.slots[i].buffer == p.slots[i].buffer == buffer != 0
      && (j != i ==> OnlyFreed(p, q, j))
  }

  lemma HandedOverLater(p: Pool, d: Pool, q: Pool, result: Acquisition, j: Index)
    requires SameResources(p, d) && OnlyFreed(p, d, j) && HandedOver(d, q, result, j)
    ensures HandedOver(p, q, result, j)
  {
    if result.Got? {
      if result.slot == 0 {} else if result.slot == 1 {} else {}
    }
  }

  lemma {:induction false} AcquireLoopOutcome(p: Pool, timeout: nat, rounds: seq<Round>, j: Index)
    requires Core(p) && p.enabled
    ensures HandedOver(p, AcquireLoop(p, timeout, rounds).0, AcquireLoop(p, timeout, rounds).1, j)
    decreases |rounds|
  {
    FirstAvailableIsFirst(p, 0);
    if FirstAvailable(p, 0) == None && !Expired(timeout, rounds) {
      DeliverAllKeeps(p, rounds[0].delivered);
      DeliverAllOnlyFrees(p, rounds[0].delivered, j);
      var d := DeliverAll(p, rounds[0].delivered);
      if !rounds[0].timedOut {
        AcquireLoopOutcome(d, timeout, rounds[1..], j);
        hide Core, HandedOver, OnlyFreed, DeliverAll;
        var (q, result) := AcquireLoop(d, timeout, rounds[1..]);
        HandedOverLater(p, d, q, result, j);
      }
    }
  }

  /**
    acquireBuffer refuses at once exactly when the output is off or has no surface.
    Otherwise it takes a slot only for the caller who gets it, together with that slot's
    own buffer; a caller who gets none has changed nothing but what Android released,
    and is told of a timeout.
   */
  lemma AcquireOutcome(p: Pool, timeout: nat, rounds: seq<Round>, j: Index)
    requires Core(p)
    ensures var (q, result) := Acquire(p, timeout, rounds);
      if p.enabled && p.surface then HandedOver(p, q, result, j) else q == p && result == Failed(ENODEV)
  {
    hide Core, HandedOver;
    if p.enabled && p.surface { AcquireLoopOutcome(p, timeout, rounds, j); }
  }

  /** A free slot is served at once, lowest index first, whatever the timeout. */
  lemma AcquireServesFirst(p: Pool, timeout: nat, rounds: seq<Round>, i: Index)
    requires p.enabled && p.surface && Available(p.slots[i])
    ensures var (q, result) := Acquire(p, timeout, rounds);
      && result.Got? && result.slot <= i
      && (forall k: Index :: k < result.slot ==> !Available(p.slots[k]))
      && q.slots == p.slots[result.slot := p.slots[result.slot].(state := Acquired)]
  {
    FirstAvailableIsFirst(p, 0);
  }

  /**
    The byte stride is the real one modulo 2^32, as a signed 32-bit integer; so it is the
    real one if and only if that fits.
   */
  lemma StrideExactIff(stridePixels: nat)
    requires stridePixels < 0x1_0000_0000
    ensures StrideBytes(stridePixels) == 4 * stridePixels <==> stridePixels < 0x2000_0000
    ensures -0x8000_0000 <= StrideBytes(stridePixels) < 0x8000_0000
    ensures exists wraps: nat :: 4 * stridePixels == StrideBytes(stridePixels) + Wrapped(wraps)
  {
    var wraps := (4 * stridePixels - StrideBytes(stridePixels)) / 0x1_0000_0000;
    assert 4 * stridePixels == StrideBytes(stridePixels) + Wrapped(wraps);
  }

  function Wrapped(times: nat): nat {
    times * 0x1_0000_0000
  }

  /** lock succeeds exactly on an acquired slot of an enabled output that Android maps. */
  lemma LockOutcomeIff(p: Pool, i: int, outcome: LockOutcome)
    requires Core(p)
    ensures var (q, status) := Lock(p, i, outcome);
      var held := p.enabled && 0 <= i < 3 && p.slots[i].state == Acquired;
      && (status == Success <==> held && outcome.MappedAt?)
      && (status == EINVAL <==> !held)
      && (held && outcome.LockFailed? ==> status == if outcome.code == 0 then EIO else Library(outcome.code))
      && (status != Success ==> q == p)
      && (status == Success ==>
            q == p.(slots := p.slots[i := p.slots[i].(state := Locked, mapped := outcome.address,
                                                      stride := StrideBytes(outcome.stridePixels))]))
  {
    if 0 <= i < 3 { SlotOkAt(p, i); }
  }

  /**
    Submit makes an acquired slot SUBMITTED exactly when it succeeds, and FREE exactly
    when the output is off, has no surface, or Android gives no transaction.  No other
    slot changes, nor any slot when the index is bad or the slot not acquired; what went
    wrong decides the error code.
   */
  lemma SubmitOutcome(p: Pool, i: int, fence: int, transactionOk: bool)
    requires Core(p)
    ensures var (q, status) := Submit(p, i, fence, transactionOk);
      var held := 0 <= i < 3 && p.slots[i].state == Acquired;
      && status == (if !p.enabled || !p.surface then ENODEV
                    else if !held then EINVAL
                    else if !transactionOk then ENOMEM
                    else Success)
      && (!held ==> q == p.(ledger := q.ledger))
      && (held && status == Success ==>
            q == p.(slots := p.slots[i := p.slots[i].(state := Submitted)], submittedCount := p.submittedCount + 1,
                    pending := p.pending + multiset{i}, log := p.log + [Queued(i)], ledger := q.ledger))
      && (held && status != Success ==>
            q == p.(slots := p.slots[i := p.slots[i].(state := Free)], log := p.log + [SubmitFailed(i)],
                    ledger := q.ledger))
  {
    if 0 <= i < 3 { SlotOkAt(p, i); }
    hide Core;
  }

  /** So a buffer whose submit fails can be acquired again at once. */
  lemma FailedSubmitGivesBack(p: Pool, i: Index, fence: int, transactionOk: bool)
    requires Core(p) && p.slots[i].state == Acquired
    ensures var (q, status) := Submit(p, i, fence, transactionOk);
      status != Success ==> q.slots[i].state == Free && q.slots[i].buffer == p.slots[i].buffer != 0
  {
    SubmitOutcome(p, i, fence, transactionOk);
    SlotOkAt(p, i);
    hide Core, Submit;
  }

  /** Unlocking undoes locking, except for the stride the slot remembers. */
  lemma UnlockUndoesLock(p: Pool, i: int, lock: LockOutcome, fence: int, wantsFence: bool)
    requires Inv(p) && Exact(p) && Lock(p, i, lock).1 == Success
    ensures var (q, status) := Unlock(Lock(p, i, lock).0, i, Unlocked(fence), wantsFence);
      && status == Success && 0 <= i < 3
      && q == p.(slots := p.slots[i := p.slots[i].(stride := q.slots[i].stride)], ledger := q.ledger)
  {
    LockOutcomeIff(p, i, lock);
    MappedIffLockedAt(p, i);
    assert p.slots[i].mapped == 0;
  }

  // ---------------------------------------------------------------------------
  // GLES targets
  // ---------------------------------------------------------------------------

  predicate HasTarget(s: Slot) {
    s.eglImage != 0 && s.texture != 0 && s.fbo != 0
  }

  lemma DestroyedHasNone(p: Pool, j: Index)
    ensures NoGles(DestroyGles(p).slots[j]) && DestroyGles(p).slots[j].buffer == p.slots[j].buffer
  {
    if j == 0 {} else if j == 1 {} else {}
  }

  lemma {:induction false} InitGlesFromOutcome(p: Pool, i: nat, outcomes: seq<GlesOutcome>, j: Index)
    requires j < i && p.slots[j].buffer != 0 ==> HasTarget(p.slots[j])
    ensures var (q, status) := InitGlesFrom(p, i, outcomes);
      && q.slots[j].buffer == p.slots[j].buffer
      && (status == Success && q.slots[j].buffer != 0 ==> HasTarget(q.slots[j]))
      && (status != Success ==> NoGles(q.slots[j]))
    decreases 3 - i
  {
    hide DestroyGles, GlesAt;
    DestroyedHasNone(p, j);
    if i < 3 {
      if p.slots[i].buffer == 0 {
        InitGlesFromOutcome(p, i + 1, outcomes, j);
      } else if GlesAt(outcomes, i).Target? {
        var o := GlesAt(outcomes, i);
        InitGlesFromOutcome(WithSlot(p, i, p.slots[i].(eglImage := o.image, texture := o.texture, fbo := o.fbo)),
                            i + 1, outcomes, j);
      }
    }
  }

  /** All buffers get a complete target, or none keeps any part of one. */
  lemma InitGlesAllOrNothing(p: Pool, resolved: bool, outcomes: seq<GlesOutcome>, j: Index)
    ensures var (q, status) := InitGles(p, true, resolved, outcomes);
      && q.slots[j].buffer == p.slots[j].buffer
      && (status == Success && q.slots[j].buffer != 0 ==> HasTarget(q.slots[j]))
      && (status != Success ==> if resolved then NoGles(q.slots[j]) else q == p)
  {
    InitGlesFromOutcome(p, 0, outcomes, j);
  }

  /**
    initGlesTargets succeeds exactly when there is a display, the extensions are there and
    every slot with a buffer gets its target, which it then holds under the names it got.
    Otherwise the first slot that does not decides the error.
   */
  lemma InitGlesOutcome(p: Pool, display: bool, resolved: bool, outcomes: seq<GlesOutcome>, k: Index)
    ensures var (q, status) := InitGles(p, display, resolved, outcomes);
      && (!display ==> status == EINVAL && q == p)
      && (display && !resolved ==> status == ENOSYS && q == p)
      && (display && resolved ==>
            && (status == Success <==> forall j: Index :: p.slots[j].buffer != 0 ==> Targeted(outcomes, j))
            && (status == Success ==>
                  q.slots[k] == if p.slots[k].buffer == 0 then p.slots[k] else
                    p.slots[k].(eglImage := outcomes[k].image, texture := outcomes[k].texture, fbo := outcomes[k].fbo))
            && (FailsFirst(p, outcomes, k) ==>
                  && status == (if k < |outcomes| && outcomes[k].FramebufferIncomplete? then EINVAL else EFAULT)
                  && q == p.(slots := q.slots)
                  && forall j: Index :: q.slots[j] == p.slots[j].(eglImage := 0, texture := 0, fbo := 0)))
  {
    if display && resolved {
      InitGlesSucceedsIff(p, 0, outcomes);
      if InitGlesFrom(p, 0, outcomes).1 == Success { InitGlesStores(p, 0, outcomes, k); }
      if FailsFirst(p, outcomes, k) { InitGlesFailsAt(p, 0, outcomes, k); }
    }
    hide InitGlesFrom;
  }

  predicate Targeted(outcomes: seq<GlesOutcome>, j: Index) {
    j < |outcomes| && outcomes[j].Target?
  }

  /** Slot k has a buffer and is the first such slot that gets no target. */
  predicate FailsFirst(p: Pool, outcomes: seq<GlesOutcome>, k: Index) {
    && p.slots[k].buffer != 0 && !Targeted(outcomes, k)
    && forall j: Index :: j < k && p.slots[j].buffer != 0 ==> Targeted(outcomes, j)
  }

  function TargetStored(p: Pool, outcomes: seq<GlesOutcome>, i: Index): Pool
    requires Targeted(outcomes, i)
  {
    WithSlot(p, i, p.slots[i].(eglImage := outcomes[i].image, texture := outcomes[i].texture, fbo := outcomes[i].fbo))
  }

  lemma InitGlesStep(p: Pool, i: Index, outcomes: seq<GlesOutcome>)
    ensures InitGlesFrom(p, i, outcomes)
            == if p.slots[i].buffer == 0 then InitGlesFrom(p, i + 1, outcomes)
               else if Targeted(outcomes, i) then InitGlesFrom(TargetStored(p, outcomes, i), i + 1, outcomes)
               else (DestroyGles(p), if i < |outcomes| && outcomes[i].FramebufferIncomplete? then EINVAL else EFAULT)
  {
    hide DestroyGles;
  }

  lemma TargetStoredKeeps(p: Pool, outcomes: seq<GlesOutcome>, i: Index)
    requires Targeted(outcomes, i)
    ensures var q := TargetStored(p, outcomes, i);
      && q == p.(slots := q.slots)
      && (forall j: Index :: q.slots[j] == if j != i then p.slots[j] else
            p.slots[j].(eglImage := outcomes[i].image, texture := outcomes[i].texture, fbo := outcomes[i].fbo))
  {
  }

  lemma {:induction false} InitGlesSucceedsIff(p: Pool, i: nat, outcomes: seq<GlesOutcome>)
    requires i <= 3
    ensures InitGlesFrom(p, i, outcomes).1 == Success
            <==> forall j: Index :: i <= j && p.slots[j].buffer != 0 ==> Targeted(outcomes, j)
    decreases 3 - i
  {
    if i < 3 {
      InitGlesStep(p, i, outcomes);
      if Targeted(outcomes, i) { TargetStoredKeeps(p, outcomes, i); }
      hide InitGlesFrom, TargetStored, Targeted;
      if p.slots[i].buffer == 0 {
        InitGlesSucceedsIff(p, i + 1, outcomes);
      } else if Targeted(outcomes, i) {
        InitGlesSucceedsIff(TargetStored(p, outcomes, i), i + 1, outcomes);
      }
    }
  }

  lemma {:induction false} InitGlesStores(p: Pool, i: nat, outcomes: seq<GlesOutcome>, k: Index)
    requires i <= 3 && InitGlesFrom(p, i, outcomes).1 == Success
    ensures k < i || p.slots[k].buffer == 0 || Targeted(outcomes, k)
    ensures InitGlesFrom(p, i, outcomes).0.slots[k]
            == if k < i || p.slots[k].buffer == 0 then p.slots[k] else
                 p.slots[k].(eglImage := outcomes[k].image, texture := outcomes[k].texture, fbo := outcomes[k].fbo)
    decreases 3 - i
  {
    if i < 3 {
      InitGlesStep(p, i, outcomes);
      if Targeted(outcomes, i) { TargetStoredKeeps(p, outcomes, i); }
      hide InitGlesFrom, TargetStored, DestroyGles;
      if p.slots[i].buffer == 0 {
        InitGlesStores(p, i + 1, outcomes, k);
      } else if Targeted(outcomes, i) {
        InitGlesStores(TargetStored(p, outcomes, i), i + 1, outcomes, k);
      }
    } else {
      assert InitGlesFrom(p, i, outcomes).0 == p;
    }
  }

  /** q is p with the GLES handles of all slots cleared. */
  predicate Cleared(p: Pool, q: Pool) {
    && q == p.(slots := q.slots)
    && forall j: Index :: q.slots[j] == p.slots[j].(eglImage := 0, texture := 0, fbo := 0)
  }

  lemma ClearedAnyway(p: Pool, q: Pool, outcomes: seq<GlesOutcome>, i: Index)
    requires Targeted(outcomes, i) && Cleared(TargetStored(p, outcomes, i), q)
    ensures Cleared(p, q)
  {
    TargetStoredKeeps(p, outcomes, i);
    hide TargetStored;
  }

  lemma DestroyGlesClears(p: Pool)
    ensures Cleared(p, DestroyGles(p))
  {
    forall j: Index ensures DestroyGles(p).slots[j] == p.slots[j].(eglImage := 0, texture := 0, fbo := 0) {
      DestroyGlesOutcome(p, j);
    }
    DestroyGlesOutcome(p, 0);
    hide DestroyGles;
  }

  lemma FailsFirstLater(p: Pool, outcomes: seq<GlesOutcome>, i: Index, k: Index)
    requires Targeted(outcomes, i) && FailsFirst(p, outcomes, k)
    ensures FailsFirst(TargetStored(p, outcomes, i), outcomes, k)
  {
    TargetStoredKeeps(p, outcomes, i);
    hide TargetStored, Targeted;
  }

  lemma {:induction false} InitGlesFailsAt(p: Pool, i: nat, outcomes: seq<GlesOutcome>, k: Index)
    requires i <= k && FailsFirst(p, outcomes, k)
    ensures var (q, status) := InitGlesFrom(p, i, outcomes);
      && status == (if k < |outcomes| && outcomes[k].FramebufferIncomplete? then EINVAL else EFAULT)
      && Cleared(p, q)
    decreases 3 - i
  {
    InitGlesStep(p, i, outcomes);
    hide InitGlesFrom, TargetStored, DestroyGles, Cleared;
    if p.slots[i].buffer == 0 {
      InitGlesFailsAt(p, i + 1, outcomes, k);
    } else if Targeted(outcomes, i) {
      FailsFirstLater(p, outcomes, i, k);
      InitGlesFailsAt(TargetStored(p, outcomes, i), i + 1, outcomes, k);
      ClearedAnyway(p, InitGlesFrom(p, i, outcomes).0, outcomes, i);
    } else {
      DestroyGlesClears(p);
    }
  }

  /** destroyGlesTargets clears the three handles of every slot and nothing else. */
  lemma DestroyGlesOutcome(p: Pool, j: Index)
    ensures DestroyGles(p) == p.(slots := DestroyGles(p).slots)
    ensures DestroyGles(p).slots[j] == p.slots[j].(eglImage := 0, texture := 0, fbo := 0)
  {
    if j == 0 {} else if j == 1 {} else {}
  }

  // ---------------------------------------------------------------------------
  // What freeing the pool does to fences
  // ---------------------------------------------------------------------------

  /** The fence that unlocking slot i for its release produces, if the slot is still locked. */
  function UnlockFence(p: Pool, fences: seq<int>, i: Index): multiset<int> {
    if p.slots[i].state == Locked && p.slots[i].buffer != 0 && i < |fences| && fences[i] >= 0
    then multiset{fences[i]} else multiset{}
  }

  function UnlockFences(p: Pool, fences: seq<int>): multiset<int> {
    UnlockFence(p, fences, 0) + UnlockFence(p, fences, 1) + UnlockFence(p, fences, 2)
  }

  /** b received these fences and closed them all. */
  predicate ClosedOnly(a: Ledger, b: Ledger, fences: multiset<int>) {
    && b.fencesIn == a.fencesIn + fences && b.fencesClosed == a.fencesClosed + fences
    && b.fencesToTransaction == a.fencesToTransaction && b.fencesToCaller == a.fencesToCaller
  }

  lemma UnlockingCloses(p: Pool, i: Index, fences: seq<int>)
    ensures var s, fence := p.slots[i], FenceAt(fences, i);
      ClosedOnly(p.ledger,
                 if s.buffer != 0 && s.state == Locked then CloseFence(FenceIn(p, fence), fence).ledger else p.ledger,
                 UnlockFence(p, fences, i))
  {
  }

  lemma FreeSlotClosesItsFence(p: Pool, i: Index, fences: seq<int>)
    requires p.slots[i].releaseFence == -1
    ensures var q := FreeSlot(p, i, FenceAt(fences, i));
      && ClosedOnly(p.ledger, q.ledger, UnlockFence(p, fences, i))
      && forall j: Index :: j != i ==> q.slots[j] == p.slots[j]
  {
    UnlockingCloses(p, i, fences);
    var s, fence := p.slots[i], FenceAt(fences, i);
    var unlocked := if s.buffer != 0 && s.state == Locked then CloseFence(FenceIn(p, fence), fence) else p;
    assert unlocked.slots == p.slots;
    hide FenceAt, FenceIn, UnlockFence;
    var freed := if s.buffer != 0 then ReleaseBuffer(unlocked, s.buffer) else unlocked;
    CloseNothing(freed);
    hide CloseFence;
  }

  lemma ClosedOnlyAdds(a: Ledger, b: Ledger, c: Ledger, x: multiset<int>, y: multiset<int>)
    requires ClosedOnly(a, b, x) && ClosedOnly(b, c, y)
    ensures ClosedOnly(a, c, x + y)
  {
  }

  /** Freeing the pool unlocks every locked buffer, and closes exactly the fences that gives. */
  lemma FreePoolClosesUnlockFences(p: Pool, fences: seq<int>)
    requires forall i: Index :: p.slots[i].releaseFence == -1
    ensures ClosedOnly(p.ledger, FreePool(p, fences).ledger, UnlockFences(p, fences))
  {
    var a := DestroyGles(p);
    FencesSurviveGles(p, fences);
    var b := FreeSlot(a, 0, FenceAt(fences, 0));
    var c := FreeSlot(b, 1, FenceAt(fences, 1));
    var d := FreeSlot(c, 2, FenceAt(fences, 2));
    FreeFromStep(a, 0, fences);
    FreeFromStep(b, 1, fences);
    FreeFromStep(c, 2, fences);
    FreeFromEnd(d, fences);
    hide FreeSlot, FreeFrom, FenceAt, ClosedOnly, DestroyGles, UnlockFence;
    FreeSlotClosesItsFence(a, 0, fences);
    FreeSlotClosesItsFence(b, 1, fences);
    FreeSlotClosesItsFence(c, 2, fences);
    SameUnlockFence(b, a, fences, 1);
    SameUnlockFence(c, a, fences, 2);
    ClosedOnlyAdds(a.ledger, b.ledger, c.ledger, UnlockFence(a, fences, 0), UnlockFence(a, fences, 1));
    ClosedOnlyAdds(a.ledger, c.ledger, d.ledger, UnlockFence(a, fences, 0) + UnlockFence(a, fences, 1),
                   UnlockFence(a, fences, 2));
  }

  lemma SameUnlockFence(p: Pool, q: Pool, fences: seq<int>, i: Index)
    requires p.slots[i].state == q.slots[i].state && p.slots[i].buffer == q.slots[i].buffer
    ensures UnlockFence(p, fences, i) == UnlockFence(q, fences, i)
  {
  }

  lemma NoFencesKept(p: Pool)
    requires Core(p)
    ensures forall i: Index :: p.slots[i].releaseFence == -1
  {
    hide Linear, FencesLinear, CallbacksCover;
  }

  lemma FencesSurviveGles(p: Pool, fences: seq<int>)
    requires forall i: Index :: p.slots[i].releaseFence == -1
    ensures var a := DestroyGles(p);
      && a.ledger == p.ledger && UnlockFences(a, fences) == UnlockFences(p, fences)
      && forall i: Index :: a.slots[i].releaseFence == -1
  {
    var a := DestroyGles(p);
    DestroyGlesOutcome(p, 0);
    forall i: Index ensures UnlockFence(a, fences, i) == UnlockFence(p, fences, i) && a.slots[i].releaseFence == -1 {
      DestroyGlesOutcome(p, i);
      hide DestroyGles;
      SameUnlockFence(a, p, fences, i);
    }
    hide DestroyGles, UnlockFence;
  }

  /** disable: the fences of the buffers still locked when its drain is over. */
  lemma DisableClosesUnlockFences(p: Pool, rounds: seq<Round>, fences: seq<int>)
    requires Inv(p) && p.enabled
    ensures var d := Drain(p.(enabled := false), 150, rounds).0;
      ClosedOnly(d.ledger, Disable(p, rounds, fences).ledger, UnlockFences(d, fences))
  {
    OffKeeps(p);
    DrainKeeps(p.(enabled := false), 150, rounds);
    hide Drain;
    var d := Drain(p.(enabled := false), 150, rounds).0;
    ReleaseSurfaceCore(d);
    NoFencesKept(ReleaseSurface(d));
    hide Core, FreePool, ClosedOnly;
    FreePoolClosesUnlockFences(ReleaseSurface(d), fences);
    SurfaceKeepsFences(d, Disable(p, rounds, fences), fences);
  }

  lemma SurfaceKeepsFences(d: Pool, q: Pool, fences: seq<int>)
    requires ClosedOnly(ReleaseSurface(d).ledger, q.ledger, UnlockFences(ReleaseSurface(d), fences))
    ensures ClosedOnly(d.ledger, q.ledger, UnlockFences(d, fences))
  {
  }

  /** resize: the same, and reallocating touches no fence, whether it succeeds or not. */
  lemma ResizeClosesUnlockFences(p: Pool, width: int, height: int, rounds: seq<Round>, fences: seq<int>,
                                 allocs: seq<bool>)
    requires Inv(p) && !ResizeIsNoOp(p, width, height)
    ensures var d := Drain(p, 200, rounds).0;
      ClosedOnly(d.ledger, Resize(p, width, height, rounds, fences, allocs).0.ledger, UnlockFences(d, fences))
  {
    DrainKeeps(p, 200, rounds);
    hide Drain, Core, Reallocate, ClosedOnly, UnlockFences;
    ReallocationClosesUnlockFences(Drain(p, 200, rounds).0, width, height, fences, allocs);
  }

  lemma ReallocationClosesUnlockFences(d: Pool, width: int, height: int, fences: seq<int>, allocs: seq<bool>)
    requires Core(d)
    ensures ClosedOnly(d.ledger, Reallocate(d, width, height, fences, allocs).0.ledger, UnlockFences(d, fences))
  {
    hide FreePool, AllocateFrom, ClosedOnly, UnlockFences, Allocating;
    NoFencesKept(d);
    FreePoolClosesUnlockFences(d, fences);
    var freed := FreePool(d, fences).(width := width, height := height);
    FreedIsReady(d, fences, width, height);
    hide Core;
    if freed.enabled && freed.surface { AllocationKeepsFences(freed, d, 0, allocs, UnlockFences(d, fences)); }
  }

  lemma FreedIsReady(d: Pool, fences: seq<int>, width: int, height: int)
    requires Core(d)
    ensures Allocating(FreePool(d, fences).(width := width, height := height), 0)
  {
    hide Linear, FreePool;
    FreePoolKeeps(d, fences);
    FreedCore(d, FreePool(d, fences));
  }

  lemma {:induction false} AllocationKeepsFences(p: Pool, d: Pool, i: nat, allocs: seq<bool>, x: multiset<int>)
    requires Allocating(p, i) && ClosedOnly(d.ledger, p.ledger, x)
    ensures ClosedOnly(d.ledger, AllocateFrom(p, i, allocs).0.ledger, x)
    decreases 3 - i
  {
    hide Linear, FreePool, FencesLinear;
    if i < 3 {
      if BoolAt(allocs, i) {
        AllocateSlotKeeps(p, i);
        AllocationKeepsFences(AllocateSlot(p, i), d, i + 1, allocs, x);
      } else {
        FreePoolClosesUnlockFences(p, []);
        ClosedOnlyAdds(d.ledger, p.ledger, FreePool(p, []).ledger, x, UnlockFences(p, []));
        assert x + UnlockFences(p, []) == x;
      }
    }
  }

  // ---------------------------------------------------------------------------
  // Who loses the pool
  // ---------------------------------------------------------------------------

  predicate HasPool(p: Pool) {
    p.enabled ==> PoolFull(p)
  }

  /** A resize of an enabled output that has no surface, or cannot get all its buffers. */
  predicate LosesPool(p: Pool, step: Step) {
    match step
    case DoResize(width, height, _, _, allocs) =>
      !p.destroyed && p.enabled && !ResizeIsNoOp(p, width, height) && !(p.surface && AllAllocate(allocs))
    case _ => false
  }

  /** No other call ever leaves an enabled output without its buffers. */
  lemma PoolLostIff(p: Pool, step: Step)
    requires Inv(p) && HasPool(p)
    ensures HasPool(Apply(p, step)) <==> !LosesPool(p, step)
  {
    hide Core, Enable, Disable, Resize, SetWindow;
    if Permitted(p, step) {
      match step
      case DoEnable(window, width, height, surfaceOk, allocs) =>
        EnableOutcome(p, window, width, height, surfaceOk, allocs);
      case DoDisable(rounds, fences) => DisableOutcome(p, rounds, fences);
      case DoResize(width, height, rounds, fences, allocs) =>
        ResizeOutcome(p, width, height, rounds, fences, allocs);
        if !ResizeIsNoOp(p, width, height) && p.enabled {
          ResizeKeepsPoolIff(p, width, height, rounds, fences, allocs);
        }
      case DoSetWindow(window, rounds, surfaceOk) => SetWindowOutcome(p, window, rounds, surfaceOk);
      case BeginDestroy =>
      case NullToken =>
      case _ =>
        hide Perform;
        PlainStepKeeps(p, step);
        SameHoldKeeps(p, Perform(p, step));
    }
  }

  /** No call of the run is a resize that loses the pool. */
  predicate KeepsPool(p: Pool, steps: seq<Step>)
    decreases |steps|
  {
    steps == [] ||
    (KeepsPool(p, steps[..|steps| - 1]) && !LosesPool(Run(p, steps[..|steps| - 1]), steps[|steps| - 1]))
  }

  lemma {:induction false} KeptPool(zeroCopy: bool, steps: seq<Step>)
    requires KeepsPool(Created(zeroCopy), steps)
    ensures HasPool(Run(Created(zeroCopy), steps))
    decreases |steps|
  {
    hide Inv, Apply, LosesPool;
    if steps != [] {
      var front := steps[..|steps| - 1];
      KeptPool(zeroCopy, front);
      AllRuns(zeroCopy, front);
      PoolLostIff(Run(Created(zeroCopy), front), steps[|steps| - 1]);
    }
  }

  lemma {:induction false} KeepsPoolPrefix(p: Pool, steps: seq<Step>, k: nat)
    requires k <= |steps| && KeepsPool(p, steps)
    ensures KeepsPool(p, steps[..k])
    decreases |steps|
  {
    hide LosesPool, Run;
    if k == |steps| {
      assert steps[..k] == steps;
    } else {
      KeepsPoolPrefix(p, steps[..|steps| - 1], k);
      assert steps[..|steps| - 1][..k] == steps[..k];
    }
  }

  lemma {:induction false} PoolThroughoutMeansKept(zeroCopy: bool, steps: seq<Step>)
    requires forall k: nat :: k <= |steps| ==> HasPool(Run(Created(zeroCopy), steps[..k]))
    ensures KeepsPool(Created(zeroCopy), steps)
    decreases |steps|
  {
    hide Apply, Inv, HasPool, LosesPool;
    if steps != [] {
      var n := |steps| - 1;
      var front := steps[..n];
      forall k: nat | k <= n ensures HasPool(Run(Created(zeroCopy), front[..k])) {
        assert front[..k] == steps[..k];
      }
      PoolThroughoutMeansKept(zeroCopy, front);
      AllRuns(zeroCopy, front);
      assert front[..n] == front && steps[..n + 1] == steps;
      PoolLostIff(Run(Created(zeroCopy), front), steps[n]);
    }
  }

  /** An enabled output has its three buffers at every point of a run if and only if no resize loses them. */
  lemma PoolThroughoutIff(zeroCopy: bool, steps: seq<Step>)
    ensures (forall k: nat :: k <= |steps| ==> HasPool(Run(Created(zeroCopy), steps[..k])))
            <==> KeepsPool(Created(zeroCopy), steps)
  {
    hide HasPool, KeepsPool, Run;
    if KeepsPool(Created(zeroCopy), steps) {
      forall k: nat | k <= |steps| ensures HasPool(Run(Created(zeroCopy), steps[..k])) {
        KeepsPoolPrefix(Created(zeroCopy), steps, k);
        KeptPool(zeroCopy, steps[..k]);
      }
    } else if forall k: nat :: k <= |steps| ==> HasPool(Run(Created(zeroCopy), steps[..k])) {
      PoolThroughoutMeansKept(zeroCopy, steps);
    }
  }
}
