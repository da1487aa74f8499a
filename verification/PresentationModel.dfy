/**
  The presentation buffer pool as a state value and one function per operation.

  A Pool records the fields of the backend object together with the part of its
  environment it answers to: the release callbacks Android still owes, and ledgers
  of fence descriptors, hardware buffers and surface controls.  Calls into Android,
  EGL and the clock are parameters ("oracles") of the operation that makes them.
 */
module PresentationModel {

  const DEFAULT_WIDTH := 1920
  const DEFAULT_HEIGHT := 1080

  datatype BufferState = Free | Acquired | Locked | Submitted | Released

  /** One slot of the pool.  Handles, addresses and GL names are naturals, 0 being null. */
  datatype Slot = Slot(buffer: nat, state: BufferState, releaseFence: int, mapped: nat,
                       stride: int, eglImage: nat, texture: nat, fbo: nat)

  const EMPTY_SLOT := Slot(0, Free, -1, 0, 0, 0, 0, 0)

  type Slots = s: seq<Slot> | |s| == 3 witness [EMPTY_SLOT, EMPTY_SLOT, EMPTY_SLOT]

  type Index = i: nat | i < 3

  datatype Status =
    | Success | EINVAL | ENOMEM | ENODEV | ETIMEDOUT | ESHUTDOWN | EIO | ENOSYS | EFAULT
    | Library(code: int)

  /** What happened to a slot, in the order it happened. */
  datatype Event =
    | HandedOut(slot: nat)
    | Queued(slot: nat)
    | Returned(slot: nat)
    | SubmitFailed(slot: nat)
    | PoolFreed

  /**
    Where every descriptor and handle went.  nextBuffer is the next fresh buffer
    handle, so the buffers allocated so far are 1 .. nextBuffer - 1.
   */
  datatype Ledger = Ledger(
    fencesIn: multiset<int>, fencesClosed: multiset<int>,
    fencesToTransaction: multiset<int>, fencesToCaller: multiset<int>,
    nextBuffer: nat, buffersReleased: multiset<nat>,
    surfacesCreated: nat, surfacesReleased: nat)

  datatype Pool = Pool(
    zeroCopy: bool,              // setBufferWithRelease could be resolved (API 36+)
    enabled: bool, destroyed: bool, tokenLive: bool,
    window: nat, surface: bool, width: int, height: int,
    submittedCount: int, slots: Slots,
    pending: multiset<nat>,      // slots of the release callbacks not yet delivered
    ledger: Ledger, log: seq<Event>)

  function Created(zeroCopy: bool): Pool {
    Pool(zeroCopy, false, false, true, 0, false, DEFAULT_WIDTH, DEFAULT_HEIGHT, 0,
         [EMPTY_SLOT, EMPTY_SLOT, EMPTY_SLOT], multiset{},
         Ledger(multiset{}, multiset{}, multiset{}, multiset{}, 1, multiset{}, 0, 0), [])
  }

  // ---------------------------------------------------------------------------
  // Fences
  // ---------------------------------------------------------------------------

  function One(fd: int): multiset<int> {
    if fd >= 0 then multiset{fd} else multiset{}
  }

  function FenceIn(p: Pool, fd: int): Pool {
    p.(ledger := p.ledger.(fencesIn := p.ledger.fencesIn + One(fd)))
  }

  function CloseFence(p: Pool, fd: int): Pool {
    p.(ledger := p.ledger.(fencesClosed := p.ledger.fencesClosed + One(fd)))
  }

  function FenceToTransaction(p: Pool, fd: int): Pool {
    p.(ledger := p.ledger.(fencesToTransaction := p.ledger.fencesToTransaction + One(fd)))
  }

  function FenceToCaller(p: Pool, fd: int): Pool {
    p.(ledger := p.ledger.(fencesToCaller := p.ledger.fencesToCaller + One(fd)))
  }

  function Note(p: Pool, e: Event): Pool {
    p.(log := p.log + [e])
  }

  function WithSlot(p: Pool, i: Index, s: Slot): Pool {
    p.(slots := p.slots[i := s])
  }

  // ---------------------------------------------------------------------------
  // Release callbacks
  // ---------------------------------------------------------------------------

  datatype Release = Release(slot: nat, fence: int)

  function OnBufferReleased(p: Pool, i: int, fence: int): Pool {
    var q := if 0 <= i < 3 then
               Note(WithSlot(p, i, p.slots[i].(state := Free, releaseFence := -1))
                    .(submittedCount := if p.submittedCount > 0 then p.submittedCount - 1
                                        else p.submittedCount),
                    Returned(i))
             else p;
    CloseFence(q, fence)
  }

  /** The completion callback of the fallback path carries no fence. */
  function CarriedFence(p: Pool, r: Release): int {
    if p.zeroCopy then r.fence else -1
  }

  /**
    Android runs one callback.  It only ever runs callbacks that were registered
    and not run before, so a release that is not pending changes nothing.
   */
  function Deliver(p: Pool, r: Release): Pool {
    if r.slot !in p.pending then p else
    var fence := CarriedFence(p, r);
    var q := FenceIn(p, fence).(pending := p.pending - multiset{r.slot});
    if q.tokenLive then OnBufferReleased(q, r.slot, fence) else CloseFence(q, fence)
  }

  function DeliverAll(p: Pool, rs: seq<Release>): Pool
    decreases |rs|
  {
    if rs == [] then p else DeliverAll(Deliver(p, rs[0]), rs[1..])
  }

  // ---------------------------------------------------------------------------
  // Timed waits
  // ---------------------------------------------------------------------------

  /**
    One turn of a wait loop: whether the time is already up when the clock is read,
    the callbacks that run while the mutex is given up, and whether the wait itself
    ended by timing out.
   */
  datatype Round = Round(expired: bool, delivered: seq<Release>, timedOut: bool)

  function Expired(timeout: nat, rounds: seq<Round>): bool {
    timeout == 0 || rounds == [] || rounds[0].expired
  }

  function Drain(p: Pool, timeout: nat, rounds: seq<Round>): (Pool, Status)
    decreases |rounds|
  {
    if p.submittedCount <= 0 then (p, Success)
    else if Expired(timeout, rounds) then (p, ETIMEDOUT)
    else
      var q := DeliverAll(p, rounds[0].delivered);
      if rounds[0].timedOut then (q, ETIMEDOUT) else Drain(q, timeout, rounds[1..])
  }

  // ---------------------------------------------------------------------------
  // GLES targets
  // ---------------------------------------------------------------------------

  type Name = n: nat | n > 0 witness 1

  datatype GlesOutcome =
    | NoClientBuffer | NoImage | TextureError | FramebufferIncomplete
    | Target(image: Name, texture: Name, fbo: Name)

  function WithoutGles(s: Slot): Slot {
    s.(eglImage := 0, texture := 0, fbo := 0)
  }

  function DestroyGles(p: Pool): Pool {
    p.(slots := [WithoutGles(p.slots[0]), WithoutGles(p.slots[1]), WithoutGles(p.slots[2])])
  }

  function GlesAt(outcomes: seq<GlesOutcome>, i: nat): GlesOutcome {
    if i < |outcomes| then outcomes[i] else NoClientBuffer
  }

  function GlesError(g: GlesOutcome): Status {
    if g.FramebufferIncomplete? then EINVAL else EFAULT
  }

  function InitGlesFrom(p: Pool, i: nat, outcomes: seq<GlesOutcome>): (Pool, Status)
    decreases 3 - i
  {
    if i >= 3 then (p, Success)
    else if p.slots[i].buffer == 0 then InitGlesFrom(p, i + 1, outcomes)
    else match GlesAt(outcomes, i)
      case Target(image, texture, fbo) =>
        InitGlesFrom(WithSlot(p, i, p.slots[i].(eglImage := image, texture := texture, fbo := fbo)),
                     i + 1, outcomes)
      case failure => (DestroyGles(p), GlesError(failure))
  }

  function InitGles(p: Pool, display: bool, resolved: bool, outcomes: seq<GlesOutcome>): (Pool, Status) {
    if !display then (p, EINVAL)
    else if !resolved then (p, ENOSYS)
    else InitGlesFrom(p, 0, outcomes)
  }

  // ---------------------------------------------------------------------------
  // Allocating and freeing the pool
  // ---------------------------------------------------------------------------

  function FenceAt(fences: seq<int>, i: nat): int {
    if i < |fences| then fences[i] else -1
  }

  function BoolAt(bs: seq<bool>, i: nat): bool {
    i < |bs| && bs[i]
  }

  function ReleaseBuffer(p: Pool, b: nat): Pool {
    p.(ledger := p.ledger.(buffersReleased := p.ledger.buffersReleased + multiset{b}))
  }

  /** Frees slot i; unlockFence is what unlocking a still locked buffer produces. */
  function FreeSlot(p: Pool, i: Index, unlockFence: int): Pool {
    var s := p.slots[i];
    var unlocked := if s.buffer != 0 && s.state == Locked
                    then CloseFence(FenceIn(p, unlockFence), unlockFence) else p;
    var freed := if s.buffer != 0 then ReleaseBuffer(unlocked, s.buffer) else unlocked;
    var cleared := CloseFence(freed, s.releaseFence);
    WithSlot(cleared, i, s.(buffer := 0, state := Free, mapped := 0, stride := 0,
                            releaseFence := if s.releaseFence >= 0 then -1 else s.releaseFence))
  }

  function FreeFrom(p: Pool, i: nat, unlockFences: seq<int>): Pool
    decreases 3 - i
  {
    if i >= 3 then p else FreeFrom(FreeSlot(p, i, FenceAt(unlockFences, i)), i + 1, unlockFences)
  }

  function FreePool(p: Pool, unlockFences: seq<int>): Pool {
    Note(FreeFrom(DestroyGles(p), 0, unlockFences).(submittedCount := 0), PoolFreed)
  }

  function AllocateSlot(p: Pool, i: Index): Pool {
    WithSlot(p, i, p.slots[i].(buffer := p.ledger.nextBuffer, state := Free, releaseFence := -1,
                               eglImage := 0, texture := 0, fbo := 0))
    .(ledger := p.ledger.(nextBuffer := p.ledger.nextBuffer + 1))
  }

  function AllocateFrom(p: Pool, i: nat, allocs: seq<bool>): (Pool, bool)
    decreases 3 - i
  {
    if i >= 3 then (p, true)
    else if !BoolAt(allocs, i) then (FreePool(p, []), false)
    else AllocateFrom(AllocateSlot(p, i), i + 1, allocs)
  }

  // ---------------------------------------------------------------------------
  // Lifecycle calls
  // ---------------------------------------------------------------------------

  function CreateSurface(p: Pool, ok: bool): Pool {
    p.(surface := ok,
       ledger := p.ledger.(surfacesCreated := p.ledger.surfacesCreated + if ok then 1 else 0))
  }

  function ReleaseSurface(p: Pool): Pool {
    if p.surface
    then p.(surface := false, ledger := p.ledger.(surfacesReleased := p.ledger.surfacesReleased + 1))
    else p
  }

  function Enable(p: Pool, window: nat, width: int, height: int, surfaceOk: bool, allocs: seq<bool>)
    : (Pool, Status)
  {
    if p.enabled then (p, Success)
    else if window == 0 then (p, EINVAL)
    else
      var default := width <= 0 || height <= 0;
      var q := CreateSurface(p.(window := window,
                                width := if default then DEFAULT_WIDTH else width,
                                height := if default then DEFAULT_HEIGHT else height), surfaceOk);
      if !surfaceOk then (q, ENOMEM)
      else
        var (r, ok) := AllocateFrom(q, 0, allocs);
        if ok then (r.(enabled := true), Success) else (ReleaseSurface(r), ENOMEM)
  }

  /** disable after its drain. */
  function TearDown(p: Pool, unlockFences: seq<int>): Pool {
    FreePool(ReleaseSurface(p), unlockFences).(window := 0)
  }

  function Disable(p: Pool, rounds: seq<Round>, unlockFences: seq<int>): Pool {
    if p.enabled then TearDown(Drain(p.(enabled := false), 150, rounds).0, unlockFences) else p
  }

  function ResizeIsNoOp(p: Pool, width: int, height: int): bool {
    width <= 0 || height <= 0 || (p.width == width && p.height == height && p.enabled)
  }

  /** resize after its drain. */
  function Reallocate(p: Pool, width: int, height: int, unlockFences: seq<int>, allocs: seq<bool>)
    : (Pool, Status)
  {
    var q := FreePool(p, unlockFences).(width := width, height := height);
    if q.enabled && q.surface then
      var (r, ok) := AllocateFrom(q, 0, allocs);
      (r, if ok then Success else ENOMEM)
    else (q, Success)
  }

  function Resize(p: Pool, width: int, height: int, rounds: seq<Round>,
                  unlockFences: seq<int>, allocs: seq<bool>): (Pool, Status)
  {
    if width <= 0 || height <= 0 then (p, EINVAL)
    else if p.width == width && p.height == height && p.enabled then (p, Success)
    else
      Reallocate(Drain(p, 200, rounds).0, width, height, unlockFences, allocs)
  }

  /** setWindow after its drain. */
  function Rebind(p: Pool, window: nat, surfaceOk: bool): Pool {
    var q := ReleaseSurface(p).(window := window);
    if q.enabled && window != 0 then CreateSurface(q, surfaceOk) else q
  }

  function SetWindow(p: Pool, window: nat, rounds: seq<Round>, surfaceOk: bool): Pool {
    if p.window == window then p
    else Rebind(if p.surface then Drain(p, 250, rounds).0 else p, window, surfaceOk)
  }

  // ---------------------------------------------------------------------------
  // Producer calls
  // ---------------------------------------------------------------------------

  datatype Option<T> = None | Some(value: T)

  predicate Available(s: Slot) {
    s.state == Free && s.buffer != 0
  }

  function FirstAvailable(p: Pool, i: nat): Option<Index>
    decreases 3 - i
  {
    if i >= 3 then None
    else if Available(p.slots[i]) then Some(i)
    else FirstAvailable(p, i + 1)
  }

  function HandOut(p: Pool, i: Index): Pool {
    Note(WithSlot(p, i, p.slots[i].(state := Acquired)), HandedOut(i))
  }

  datatype Acquisition = Failed(status: Status) | Got(slot: Index, buffer: nat)

  function AcquireLoop(p: Pool, timeout: nat, rounds: seq<Round>): (Pool, Acquisition)
    decreases |rounds|
  {
    match FirstAvailable(p, 0)
    case Some(i) => (HandOut(p, i), Got(i, p.slots[i].buffer))
    case None =>
      if Expired(timeout, rounds) then (p, Failed(ETIMEDOUT))
      else
        var q := DeliverAll(p, rounds[0].delivered);
        if rounds[0].timedOut then (q, Failed(ETIMEDOUT))
        else if !q.enabled then (q, Failed(ESHUTDOWN))
        else AcquireLoop(q, timeout, rounds[1..])
  }

  function Acquire(p: Pool, timeout: nat, rounds: seq<Round>): (Pool, Acquisition) {
    if !p.enabled || !p.surface then (p, Failed(ENODEV)) else AcquireLoop(p, timeout, rounds)
  }

  /** A failure has a null address and an error code that may be 0. */
  datatype LockOutcome = LockFailed(code: int) | MappedAt(address: Name, stridePixels: nat)

  /** static_cast<int32_t>(stride * 4) on a 32-bit unsigned stride. */
  function StrideBytes(stridePixels: nat): int {
    var bytes := (stridePixels * 4) % 0x1_0000_0000;
    if bytes < 0x8000_0000 then bytes else bytes - 0x1_0000_0000
  }

  function Lock(p: Pool, i: int, outcome: LockOutcome): (Pool, Status) {
    if !p.enabled || i < 0 || i >= 3 then (p, EINVAL)
    else if p.slots[i].state != Acquired || p.slots[i].buffer == 0 then (p, EINVAL)
    else match outcome
      case LockFailed(code) => (p, if code != 0 then Library(code) else EIO)
      case MappedAt(address, stridePixels) =>
        (WithSlot(p, i, p.slots[i].(mapped := address, stride := StrideBytes(stridePixels),
                                    state := Locked)), Success)
  }

  datatype UnlockOutcome = UnlockError(code: int) | Unlocked(fence: int)

  function Unlock(p: Pool, i: int, outcome: UnlockOutcome, wantsFence: bool): (Pool, Status) {
    if i < 0 || i >= 3 then (p, EINVAL)
    else if p.slots[i].state != Locked || p.slots[i].buffer == 0 then (p, EINVAL)
    else match outcome
      case UnlockError(code) => (p, Library(code))
      case Unlocked(fence) =>
        var q := WithSlot(FenceIn(p, fence), i, p.slots[i].(mapped := 0, state := Acquired));
        (if wantsFence then FenceToCaller(q, fence) else CloseFence(q, fence), Success)
  }

  function FailSubmit(p: Pool, i: Index): Pool {
    Note(WithSlot(p, i, p.slots[i].(state := Free)), SubmitFailed(i))
  }

  /** The slot joins the transaction, which takes the fence and a release callback. */
  function Enqueue(p: Pool, i: Index, fence: int): Pool {
    var q := WithSlot(p, i, p.slots[i].(state := Submitted))
             .(submittedCount := p.submittedCount + 1, pending := p.pending + multiset{i});
    Note(FenceToTransaction(q, fence), Queued(i))
  }

  function Submit(p: Pool, i: int, fence: int, transactionOk: bool): (Pool, Status) {
    var q := FenceIn(p, fence);
    if !q.enabled || !q.surface then
      var r := CloseFence(q, fence);
      (if 0 <= i < 3 && r.slots[i].state == Acquired then FailSubmit(r, i) else r, ENODEV)
    else if i < 0 || i >= 3 then (CloseFence(q, fence), EINVAL)
    else if q.slots[i].state != Acquired || q.slots[i].buffer == 0 then (CloseFence(q, fence), EINVAL)
    else if !transactionOk then (FailSubmit(CloseFence(q, fence), i), ENOMEM)
    else (Enqueue(q, i, fence), Success)
  }

  // ---------------------------------------------------------------------------
  // Runs
  // ---------------------------------------------------------------------------

  /**
    Everything that can happen to a backend while mutex_ is free: a client call, one
    of the three locked sections of destroy, or a release callback.  Callbacks that
    run inside a timed wait are part of the waiting call's rounds.
   */
  datatype Step =
    | DoEnable(window: nat, width: int, height: int, surfaceOk: bool, allocs: seq<bool>)
    | DoDisable(rounds: seq<Round>, unlockFences: seq<int>)
    | DoResize(width: int, height: int, rounds: seq<Round>, unlockFences: seq<int>, allocs: seq<bool>)
    | DoSetWindow(window: nat, rounds: seq<Round>, surfaceOk: bool)
    | DoAcquire(timeout: nat, rounds: seq<Round>)
    | DoLock(slot: int, lock: LockOutcome)
    | DoUnlock(slot: int, unlock: UnlockOutcome, wantsFence: bool)
    | DoSubmit(slot: int, fence: int, transactionOk: bool)
    | DoWaitIdle(timeout: nat, rounds: seq<Round>)
    | DoInitGles(display: bool, resolved: bool, outcomes: seq<GlesOutcome>)
    | DoDestroyGles
    | BeginDestroy
    | NullToken
    | DoRelease(release: Release)

  /** After destroy has begun the handle takes no further client calls. */
  predicate Permitted(p: Pool, step: Step) {
    match step
    case DoRelease(_) => true
    case DoDisable(_, _) => true
    case NullToken => p.destroyed && !p.enabled
    case _ => !p.destroyed
  }

  function Perform(p: Pool, step: Step): Pool {
    match step
    case DoEnable(window, width, height, surfaceOk, allocs) =>
      Enable(p, window, width, height, surfaceOk, allocs).0
    case DoDisable(rounds, unlockFences) => Disable(p, rounds, unlockFences)
    case DoResize(width, height, rounds, unlockFences, allocs) =>
      Resize(p, width, height, rounds, unlockFences, allocs).0
    case DoSetWindow(window, rounds, surfaceOk) => SetWindow(p, window, rounds, surfaceOk)
    case DoAcquire(timeout, rounds) => Acquire(p, timeout, rounds).0
    case DoLock(i, outcome) => Lock(p, i, outcome).0
    case DoUnlock(i, outcome, wantsFence) => Unlock(p, i, outcome, wantsFence).0
    case DoSubmit(i, fence, transactionOk) => Submit(p, i, fence, transactionOk).0
    case DoWaitIdle(timeout, rounds) => Drain(p, timeout, rounds).0
    case DoInitGles(display, resolved, outcomes) => InitGles(p, display, resolved, outcomes).0
    case DoDestroyGles => DestroyGles(p)
    case BeginDestroy => p.(destroyed := true)
    case NullToken => p.(tokenLive := false)
    case DoRelease(r) => Deliver(p, r)
  }

  function Apply(p: Pool, step: Step): Pool {
    if Permitted(p, step) then Perform(p, step) else p
  }

  function Run(p: Pool, steps: seq<Step>): Pool
    decreases |steps|
  {
    if steps == [] then p else Apply(Run(p, steps[..|steps| - 1]), steps[|steps| - 1])
  }

  /**
    A whole destroy call: three locked sections, with callbacks free to run in the two
    gaps between them, before disable takes the mutex and before the token is nulled.
   */
  function Destroy(p: Pool, gap: seq<Release>, rounds: seq<Round>, unlockFences: seq<int>,
                   lastGap: seq<Release>): Pool
  {
    if p.destroyed then p
    else
      var q := Disable(DeliverAll(p.(destroyed := true), gap), rounds, unlockFences);
      DeliverAll(q, lastGap).(tokenLive := false)
  }

  /** A step that frees the pool has seen submitted_count_ reach 0 by the time it does. */
  predicate Emptied(p: Pool, step: Step) {
    match step
    case DoDisable(rounds, _) =>
      p.enabled ==> Drain(p.(enabled := false), 150, rounds).0.submittedCount == 0
    case DoResize(width, height, rounds, _, _) =>
      !p.destroyed && !ResizeIsNoOp(p, width, height) ==> Drain(p, 200, rounds).0.submittedCount == 0
    case _ => true
  }

  /** The drain of a step that frees the pool returned 0. */
  predicate Drained(p: Pool, step: Step) {
    match step
    case DoDisable(rounds, _) =>
      p.enabled ==> Drain(p.(enabled := false), 150, rounds).1 == Success
    case DoResize(width, height, rounds, _, _) =>
      !p.destroyed && !ResizeIsNoOp(p, width, height) ==> Drain(p, 200, rounds).1 == Success
    case _ => true
  }

  predicate AllEmptied(p: Pool, steps: seq<Step>)
    decreases |steps|
  {
    steps == [] ||
    (AllEmptied(p, steps[..|steps| - 1]) &&
     Emptied(Run(p, steps[..|steps| - 1]), steps[|steps| - 1]))
  }

  predicate AllDrained(p: Pool, steps: seq<Step>)
    decreases |steps|
  {
    steps == [] ||
    (AllDrained(p, steps[..|steps| - 1]) &&
     Drained(Run(p, steps[..|steps| - 1]), steps[|steps| - 1]))
  }
}
