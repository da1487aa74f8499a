/**
  The backend object: the fields, loops and branches of AndroidPresentationBackend,
  each method proved to compute the specification of PresentationModel and each client
  call to be the step of a run it stands for.

  pending stands for the release callbacks registered with Android and not yet run;
  ledger and log record what Android handed out and took back.  A method that waits
  takes the rounds of its wait.
 */
module PresentationBackend {
  import opened PresentationModel
  import Stepwise = PresentationInvariants

  class AndroidPresentationBackend {
    const zeroCopy: bool
    var isEnabled: bool
    var isDestroyed: bool
    var tokenLive: bool
    var nativeWindow: nat
    var surfaceControl: bool
    var width: int
    var height: int
    var submittedCount: int
    const slots: array<Slot>
    var pending: multiset<nat>
    var ledger: Ledger
    var log: seq<Event>

    ghost predicate Valid()
      reads this
    {
      slots.Length == 3
    }

    ghost function Model(): (p: Pool)
      requires Valid()
      reads this, slots
    {
      Pool(zeroCopy, isEnabled, isDestroyed, tokenLive, nativeWindow, surfaceControl, width, height,
           submittedCount, slots[..], pending, ledger, log)
    }

    constructor (zeroCopy: bool)
      ensures Valid() && fresh(slots) && Model() == Created(zeroCopy)
      ensures !isEnabled && !isDestroyed && tokenLive && nativeWindow == 0 && !surfaceControl
      ensures width == 1920 && height == 1080 && submittedCount == 0 && pending == multiset{}
      ensures forall i :: 0 <= i < 3 ==> slots[i] == Slot(0, Free, -1, 0, 0, 0, 0, 0)
    {
      this.zeroCopy := zeroCopy;
      isEnabled, isDestroyed, tokenLive := false, false, true;
      nativeWindow, surfaceControl := 0, false;
      width, height, submittedCount := DEFAULT_WIDTH, DEFAULT_HEIGHT, 0;
      slots := new Slot[3](_ => EMPTY_SLOT);
      pending := multiset{};
      ledger := Created(zeroCopy).ledger;
      log := [];
    }

    // -------------------------------------------------------------------------
    // Descriptors: a negative one is no fence
    // -------------------------------------------------------------------------

    method ReceiveFd(fd: int)
      requires Valid()
      modifies `ledger
      ensures Model() == FenceIn(old(Model()), fd)
    {
      if fd >= 0 { ledger := ledger.(fencesIn := ledger.fencesIn + multiset{fd}); }
    }

    method CloseFd(fd: int)
      requires Valid()
      modifies `ledger
      ensures Model() == CloseFence(old(Model()), fd)
    {
      if fd >= 0 { ledger := ledger.(fencesClosed := ledger.fencesClosed + multiset{fd}); }
    }

    method QueueFd(fd: int)
      requires Valid()
      modifies `ledger
      ensures Model() == FenceToTransaction(old(Model()), fd)
    {
      if fd >= 0 { ledger := ledger.(fencesToTransaction := ledger.fencesToTransaction + multiset{fd}); }
    }

    method GiveFd(fd: int)
      requires Valid()
      modifies `ledger
      ensures Model() == FenceToCaller(old(Model()), fd)
    {
      if fd >= 0 { ledger := ledger.(fencesToCaller := ledger.fencesToCaller + multiset{fd}); }
    }

    // -------------------------------------------------------------------------
    // Release callbacks
    // -------------------------------------------------------------------------

    method OnBufferReleasedInternal(slotIndex: int, fence: int)
      requires Valid()
      modifies this, slots
      ensures Model() == OnBufferReleased(old(Model()), slotIndex, fence)
    {
      if 0 <= slotIndex < 3 {
        slots[slotIndex] := slots[slotIndex].(state := Free, releaseFence := -1);
        if submittedCount > 0 { submittedCount := submittedCount - 1; }
        log := log + [Returned(slotIndex)];
      }
      CloseFd(fence);
    }

    /** Android runs one registered callback. */
    method HandleBufferRelease(r: Release)
      requires Valid()
      modifies this, slots
      ensures Model() == Deliver(old(Model()), r)
      ensures Model() == Perform(old(Model()), DoRelease(r))
    {
      ReleaseIsAStep(Model(), r);
      hide OnBufferReleased, FenceIn, CloseFence, Perform;
      if r.slot !in pending { return; }
      var fence := if zeroCopy then r.fence else -1;
      ReceiveFd(fence);
      pending := pending - multiset{r.slot};
      if tokenLive {
        OnBufferReleasedInternal(r.slot, fence);
      } else {
        CloseFd(fence);
      }
    }

    /** The callbacks that run while a wait has given the mutex up. */
    method RunCallbacks(rs: seq<Release>)
      requires Valid()
      modifies this, slots
      ensures Model() == DeliverAll(old(Model()), rs)
    {
      var k := 0;
      while k < |rs|
        invariant k <= |rs|
        invariant DeliverAll(Model(), rs[k..]) == DeliverAll(old(Model()), rs)
      {
        HandleBufferRelease(rs[k]);
        k := k + 1;
      }
    }

    method DrainOutstandingBuffers(timeout: nat, rounds: seq<Round>) returns (status: Status)
      requires Valid()
      modifies this, slots
      ensures (Model(), status) == Drain(old(Model()), timeout, rounds)
      ensures Model() == Perform(old(Model()), DoWaitIdle(timeout, rounds))
    {
      if submittedCount == 0 { return Success; }
      var k := 0;
      while submittedCount > 0
        invariant k <= |rounds|
        invariant Drain(Model(), timeout, rounds[k..]) == Drain(old(Model()), timeout, rounds)
        decreases |rounds| - k
      {
        if timeout == 0 || k == |rounds| || rounds[k].expired { return ETIMEDOUT; }
        RunCallbacks(rounds[k].delivered);
        if rounds[k].timedOut { return ETIMEDOUT; }
        k := k + 1;
      }
      return Success;
    }

    // -------------------------------------------------------------------------
    // GLES targets
    // -------------------------------------------------------------------------

    method DestroyGlesTargets()
      requires Valid()
      modifies slots
      ensures Model() == DestroyGles(old(Model()))
      ensures Model() == Perform(old(Model()), DoDestroyGles)
    {
      for i := 0 to 3
        invariant forall j :: 0 <= j < i ==> slots[j] == WithoutGles(old(slots[j]))
        invariant forall j :: i <= j < 3 ==> slots[j] == old(slots[j])
      {
        if slots[i].fbo != 0 { slots[i] := slots[i].(fbo := 0); }
        if slots[i].texture != 0 { slots[i] := slots[i].(texture := 0); }
        if slots[i].eglImage != 0 { slots[i] := slots[i].(eglImage := 0); }
      }
    }

    method InitGlesTargets(display: bool, resolved: bool, outcomes: seq<GlesOutcome>)
      returns (status: Status)
      requires Valid()
      modifies slots
      ensures (Model(), status) == InitGles(old(Model()), display, resolved, outcomes)
      ensures Model() == Perform(old(Model()), DoInitGles(display, resolved, outcomes))
    {
      if !display { return EINVAL; }
      if !resolved { return ENOSYS; }
      for i := 0 to 3
        invariant InitGlesFrom(Model(), i, outcomes) == InitGlesFrom(old(Model()), 0, outcomes)
      {
        ghost var before := Model();
        if slots[i].buffer != 0 {
          var outcome := GlesAt(outcomes, i);
          if !outcome.Target? {
            DestroyGlesTargets();
            return GlesError(outcome);
          }
          slots[i] := slots[i].(eglImage := outcome.image, texture := outcome.texture, fbo := outcome.fbo);
          assert Model() == WithSlot(before, i, slots[i]);
        }
      }
      return Success;
    }

    // -------------------------------------------------------------------------
    // The pool
    // -------------------------------------------------------------------------

    method UnlockForFree(i: Index, unlockFence: int)
      requires Valid() && slots[i].buffer != 0
      modifies slots, `ledger
      ensures var p := old(Model());
        Model() == if p.slots[i].state == Locked
                   then WithSlot(CloseFence(FenceIn(p, unlockFence), unlockFence), i, p.slots[i].(mapped := 0))
                   else p
    {
      if slots[i].state == Locked {
        ReceiveFd(unlockFence);
        CloseFd(unlockFence);
        slots[i] := slots[i].(mapped := 0);
      }
    }

    method FreeOneSlot(i: Index, unlockFence: int)
      requires Valid()
      modifies slots, `ledger
      ensures Model() == FreeSlot(old(Model()), i, unlockFence)
    {
      ghost var s := slots[i];
      if slots[i].buffer != 0 {
        UnlockForFree(i, unlockFence);
        ledger := ledger.(buffersReleased := ledger.buffersReleased + multiset{slots[i].buffer});
      }
      var releaseFence := slots[i].releaseFence;
      CloseFd(releaseFence);
      slots[i] := slots[i].(buffer := 0, state := Free, mapped := 0, stride := 0,
                            releaseFence := if releaseFence >= 0 then -1 else releaseFence);
      assert slots[..] == old(slots[..])[i := slots[i]];
    }

    method FreeBufferPool(unlockFences: seq<int>)
      requires Valid()
      modifies slots, `ledger, `log, `submittedCount
      ensures Model() == FreePool(old(Model()), unlockFences)
    {
      hide FreeSlot, FreeFrom, FenceAt;
      DestroyGlesTargets();
      ghost var start := Model();
      for i := 0 to 3
        invariant FreeFrom(Model(), i, unlockFences) == FreeFrom(start, 0, unlockFences)
      {
        Stepwise.FreeFromStep(Model(), i, unlockFences);
        FreeOneSlot(i, FenceAt(unlockFences, i));
      }
      Stepwise.FreeFromEnd(Model(), unlockFences);
      submittedCount := 0;
      log := log + [PoolFreed];
    }

    method AllocateOneSlot(i: Index)
      requires Valid()
      modifies slots, `ledger
      ensures Model() == AllocateSlot(old(Model()), i)
    {
      slots[i] := slots[i].(buffer := ledger.nextBuffer, state := Free, releaseFence := -1,
                            eglImage := 0, texture := 0, fbo := 0);
      ledger := ledger.(nextBuffer := ledger.nextBuffer + 1);
    }

    method AllocateBufferPool(allocs: seq<bool>) returns (ok: bool)
      requires Valid()
      modifies slots, `ledger, `log, `submittedCount
      ensures (Model(), ok) == AllocateFrom(old(Model()), 0, allocs)
    {
      hide AllocateSlot, FreePool;
      for i := 0 to 3
        invariant AllocateFrom(Model(), i, allocs) == AllocateFrom(old(Model()), 0, allocs)
      {
        if !BoolAt(allocs, i) {
          FreeBufferPool([]);
          return false;
        }
        AllocateOneSlot(i);
      }
      return true;
    }

    // -------------------------------------------------------------------------
    // Lifecycle
    // -------------------------------------------------------------------------

    method CreateSurfaceControl(ok: bool)
      requires Valid()
      modifies `surfaceControl, `ledger
      ensures Model() == CreateSurface(old(Model()), ok) && surfaceControl == ok
    {
      surfaceControl := ok;
      ledger := ledger.(surfacesCreated := ledger.surfacesCreated + if ok then 1 else 0);
    }

    method ReleaseSurfaceControl()
      requires Valid()
      modifies `surfaceControl, `ledger
      ensures Model() == ReleaseSurface(old(Model()))
    {
      if surfaceControl {
        surfaceControl := false;
        ledger := ledger.(surfacesReleased := ledger.surfacesReleased + 1);
      }
    }

    method EnableOutput(window: nat, requestedWidth: int, requestedHeight: int,
                        surfaceOk: bool, allocs: seq<bool>) returns (status: Status)
      requires Valid()
      modifies this, slots
      ensures (Model(), status)
              == Enable(old(Model()), window, requestedWidth, requestedHeight, surfaceOk, allocs)
      ensures Model() == Perform(old(Model()), DoEnable(window, requestedWidth, requestedHeight, surfaceOk, allocs))
    {
      hide AllocateFrom, ReleaseSurface, CreateSurface;
      if isEnabled { return Success; }
      if window == 0 { return EINVAL; }
      var w, h := requestedWidth, requestedHeight;
      if w <= 0 || h <= 0 { w, h := DEFAULT_WIDTH, DEFAULT_HEIGHT; }
      nativeWindow, width, height := window, w, h;
      CreateSurfaceControl(surfaceOk);
      if !surfaceControl { return ENOMEM; }
      var ok := AllocateBufferPool(allocs);
      if !ok {
        ReleaseSurfaceControl();
        return ENOMEM;
      }
      isEnabled := true;
      return Success;
    }

    method DisableOutput(rounds: seq<Round>, unlockFences: seq<int>)
      requires Valid()
      modifies this, slots
      ensures Model() == Disable(old(Model()), rounds, unlockFences)
      ensures Model() == Perform(old(Model()), DoDisable(rounds, unlockFences))
    {
      hide FreePool, ReleaseSurface, Drain;
      if !isEnabled { return; }
      isEnabled := false;
      var _ := DrainOutstandingBuffers(150, rounds);
      ReleaseSurfaceControl();
      FreeBufferPool(unlockFences);
      nativeWindow := 0;
    }

    method DestroyOutput(gap: seq<Release>, rounds: seq<Round>, unlockFences: seq<int>,
                         lastGap: seq<Release>)
      requires Valid()
      modifies this, slots
      ensures Model() == Destroy(old(Model()), gap, rounds, unlockFences, lastGap)
    {
      hide DeliverAll, Disable;
      if isDestroyed { return; }
      isDestroyed := true;
      RunCallbacks(gap);
      DisableOutput(rounds, unlockFences);
      RunCallbacks(lastGap);
      tokenLive := false;
    }

    method ResizeOutput(newWidth: int, newHeight: int, rounds: seq<Round>,
                        unlockFences: seq<int>, allocs: seq<bool>) returns (status: Status)
      requires Valid()
      modifies this, slots
      ensures (Model(), status)
              == Resize(old(Model()), newWidth, newHeight, rounds, unlockFences, allocs)
      ensures Model() == Perform(old(Model()), DoResize(newWidth, newHeight, rounds, unlockFences, allocs))
    {
      hide FreePool, AllocateFrom, Drain;
      if newWidth <= 0 || newHeight <= 0 { return EINVAL; }
      if width == newWidth && height == newHeight && isEnabled { return Success; }
      var _ := DrainOutstandingBuffers(200, rounds);
      FreeBufferPool(unlockFences);
      width, height := newWidth, newHeight;
      if isEnabled && surfaceControl {
        var ok := AllocateBufferPool(allocs);
        if !ok { return ENOMEM; }
      }
      return Success;
    }

    method SetNativeWindow(window: nat, rounds: seq<Round>, surfaceOk: bool)
      requires Valid()
      modifies this, slots
      ensures Model() == SetWindow(old(Model()), window, rounds, surfaceOk)
      ensures Model() == Perform(old(Model()), DoSetWindow(window, rounds, surfaceOk))
    {
      hide Drain, Rebind;
      if nativeWindow == window { return; }
      if surfaceControl {
        var _ := DrainOutstandingBuffers(250, rounds);
      }
      RebindSurface(window, surfaceOk);
    }

    /** setWindow once its drain is over. */
    method RebindSurface(window: nat, surfaceOk: bool)
      requires Valid()
      modifies `surfaceControl, `nativeWindow, `ledger
      ensures Model() == Rebind(old(Model()), window, surfaceOk)
    {
      ReleaseSurfaceControl();
      nativeWindow := window;
      if isEnabled && nativeWindow != 0 { CreateSurfaceControl(surfaceOk); }
    }

    // -------------------------------------------------------------------------
    // Producer calls
    // -------------------------------------------------------------------------

    method ScanForFree() returns (found: Option<Index>)
      requires Valid()
      ensures found == FirstAvailable(Model(), 0)
    {
      for i := 0 to 3
        invariant FirstAvailable(Model(), i) == FirstAvailable(Model(), 0)
      {
        if slots[i].state == Free && slots[i].buffer != 0 { return Some(i); }
      }
      return None;
    }

    method AcquireBuffer(timeout: nat, rounds: seq<Round>) returns (result: Acquisition)
      requires Valid()
      modifies this, slots
      ensures (Model(), result) == Acquire(old(Model()), timeout, rounds)
      ensures Model() == Perform(old(Model()), DoAcquire(timeout, rounds))
    {
      if !isEnabled || !surfaceControl { return Failed(ENODEV); }
      var k := 0;
      while true
        invariant k <= |rounds|
        invariant AcquireLoop(Model(), timeout, rounds[k..]) == AcquireLoop(old(Model()), timeout, rounds)
        decreases |rounds| - k
      {
        var found := ScanForFree();
        if found.Some? {
          var i := found.value;
          slots[i] := slots[i].(state := Acquired);
          log := log + [HandedOut(i)];
          return Got(i, slots[i].buffer);
        }
        if timeout == 0 || k == |rounds| || rounds[k].expired { return Failed(ETIMEDOUT); }
        RunCallbacks(rounds[k].delivered);
        if rounds[k].timedOut { return Failed(ETIMEDOUT); }
        if !isEnabled { return Failed(ESHUTDOWN); }
        k := k + 1;
      }
    }

    method LockBuffer(slotIndex: int, outcome: LockOutcome) returns (status: Status)
      requires Valid()
      modifies slots
      ensures (Model(), status) == Lock(old(Model()), slotIndex, outcome)
      ensures Model() == Perform(old(Model()), DoLock(slotIndex, outcome))
    {
      if !isEnabled || slotIndex < 0 || slotIndex >= 3 { return EINVAL; }
      if slots[slotIndex].state != Acquired || slots[slotIndex].buffer == 0 { return EINVAL; }
      match outcome
      case LockFailed(code) =>
        return if code != 0 then Library(code) else EIO;
      case MappedAt(address, stridePixels) =>
        slots[slotIndex] := slots[slotIndex].(mapped := address, stride := StrideBytes(stridePixels),
                                              state := Locked);
        return Success;
    }

    method UnlockBuffer(slotIndex: int, outcome: UnlockOutcome, wantsFence: bool) returns (status: Status)
      requires Valid()
      modifies slots, `ledger
      ensures (Model(), status) == Unlock(old(Model()), slotIndex, outcome, wantsFence)
      ensures Model() == Perform(old(Model()), DoUnlock(slotIndex, outcome, wantsFence))
    {
      if slotIndex < 0 || slotIndex >= 3 { return EINVAL; }
      if slots[slotIndex].state != Locked || slots[slotIndex].buffer == 0 { return EINVAL; }
      match outcome
      case UnlockError(code) =>
        return Library(code);
      case Unlocked(fence) =>
        ReceiveFd(fence);
        slots[slotIndex] := slots[slotIndex].(mapped := 0, state := Acquired);
        if wantsFence { GiveFd(fence); } else { CloseFd(fence); }
        return Success;
    }

    method ReturnUnsubmitted(i: Index)
      requires Valid()
      modifies slots, `log
      ensures Model() == FailSubmit(old(Model()), i)
    {
      slots[i] := slots[i].(state := Free);
      log := log + [SubmitFailed(i)];
    }

    method EnqueueSlot(i: Index, fence: int)
      requires Valid()
      modifies this, slots
      ensures Model() == Enqueue(old(Model()), i, fence)
    {
      slots[i] := slots[i].(state := Submitted);
      submittedCount := submittedCount + 1;
      pending := pending + multiset{i as nat};
      QueueFd(fence);
      log := log + [Queued(i)];
    }

    method SubmitBuffer(slotIndex: int, fence: int, transactionOk: bool) returns (status: Status)
      requires Valid()
      modifies this, slots
      ensures (Model(), status) == Submit(old(Model()), slotIndex, fence, transactionOk)
      ensures Model() == Perform(old(Model()), DoSubmit(slotIndex, fence, transactionOk))
    {
      ReceiveFd(fence);
      if !isEnabled || !surfaceControl {
        CloseFd(fence);
        if 0 <= slotIndex < 3 && slots[slotIndex].state == Acquired { ReturnUnsubmitted(slotIndex); }
        return ENODEV;
      }
      if slotIndex < 0 || slotIndex >= 3 {
        CloseFd(fence);
        return EINVAL;
      }
      if slots[slotIndex].state != Acquired || slots[slotIndex].buffer == 0 {
        CloseFd(fence);
        return EINVAL;
      }
      if !transactionOk {
        CloseFd(fence);
        ReturnUnsubmitted(slotIndex);
        return ENOMEM;
      }
      EnqueueSlot(slotIndex, fence);
      return Success;
    }

    /** The C entry point: without a handle the fence is closed on the spot. */
    static method SubmitBufferC(handle: AndroidPresentationBackend?, slotIndex: int, fence: int,
                                transactionOk: bool) returns (status: Status, closedHere: multiset<int>)
      requires handle != null ==> handle.Valid()
      modifies handle, if handle != null then {handle.slots} else {}
      ensures handle == null ==> status == EINVAL && closedHere == One(fence)
      ensures handle != null ==>
                && closedHere == multiset{}
                && (handle.Model(), status) == Submit(old(handle.Model()), slotIndex, fence, transactionOk)
    {
      if handle == null { return EINVAL, One(fence); }
      status := handle.SubmitBuffer(slotIndex, fence, transactionOk);
      closedHere := multiset{};
    }

    /** The pool's diagnostics: how many buffers there are, free and in flight. */
    method GetStats() returns (present: nat, free: nat, submitted: int)
      requires Valid()
      ensures present == CountPresent(Model().slots)
      ensures free == CountAvailable(Model().slots)
      ensures (present == 3 <==> forall i :: 0 <= i < 3 ==> slots[i].buffer != 0)
      ensures (present == 0 <==> forall i :: 0 <= i < 3 ==> slots[i].buffer == 0)
      ensures free <= present
      ensures (free > 0 <==> exists i :: 0 <= i < 3 && slots[i].state == Free && slots[i].buffer != 0)
      ensures submitted == submittedCount
    {
      present, free := 0, 0;
      for i := 0 to 3
        invariant present == CountPresent(slots[..i])
        invariant free == CountAvailable(slots[..i])
        invariant free <= present <= i
        invariant present == i <==> forall j :: 0 <= j < i ==> slots[j].buffer != 0
        invariant present == 0 <==> forall j :: 0 <= j < i ==> slots[j].buffer == 0
        invariant free > 0 <==> exists j :: 0 <= j < i && slots[j].state == Free && slots[j].buffer != 0
      {
        assert slots[..i + 1][..i] == slots[..i];
        if slots[i].buffer != 0 {
          present := present + 1;
          if slots[i].state == Free { free := free + 1; }
        }
      }
      assert slots[..3] == slots[..];
      submitted := submittedCount;
    }
  }

  lemma ReleaseIsAStep(p: Pool, r: Release)
    ensures Perform(p, DoRelease(r)) == Deliver(p, r)
  {
    hide Deliver;
  }

  function CountPresent(slots: seq<Slot>): nat
    decreases |slots|
  {
    if slots == [] then 0
    else CountPresent(slots[..|slots| - 1]) + if slots[|slots| - 1].buffer != 0 then 1 else 0
  }

  function CountAvailable(slots: seq<Slot>): nat
    decreases |slots|
  {
    if slots == [] then 0
    else CountAvailable(slots[..|slots| - 1]) + if Available(slots[|slots| - 1]) then 1 else 0
  }
}
