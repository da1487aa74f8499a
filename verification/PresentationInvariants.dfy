/**
  What every operation on the pool keeps: in all runs (Core, Settled), and in the runs
  whose drains succeed (Exact).
 */
module PresentationInvariants {
  import opened PresentationModel

  // ---------------------------------------------------------------------------
  // Invariants of all runs
  // ---------------------------------------------------------------------------

  predicate SlotOk(s: Slot) {
    && s.state != Released
    && s.releaseFence == -1
    && (s.state != Free ==> s.buffer != 0)
    && (s.fbo != 0 ==> s.texture != 0)
    && (s.texture != 0 ==> s.eglImage != 0)
    && (s.eglImage != 0 ==> s.buffer != 0)
    && (s.buffer == 0 ==> s.mapped == 0)
  }

  function InFlight(s: Slot): nat {
    if s.state == Submitted then 1 else 0
  }

  function SubmittedSlots(p: Pool): nat {
    InFlight(p.slots[0]) + InFlight(p.slots[1]) + InFlight(p.slots[2])
  }

  predicate Covered(p: Pool, i: Index) {
    p.slots[i].state == Submitted ==> p.pending[i] > 0
  }

  /** Every submitted slot is still owed a callback; the counter never exceeds the slots. */
  ghost predicate CallbacksCover(p: Pool) {
    && 0 <= p.submittedCount <= SubmittedSlots(p)
    && Covered(p, 0) && Covered(p, 1) && Covered(p, 2)
    && (forall k :: k in p.pending ==> k < 3)
    && (!p.tokenLive ==> SubmittedSlots(p) == 0)
  }

  function Holds(s: Slot, b: nat): nat {
    if s.buffer == b then 1 else 0
  }

  function Holders(slots: Slots, b: nat): nat {
    Holds(slots[0], b) + Holds(slots[1], b) + Holds(slots[2], b)
  }

  /** Each buffer in 1 .. next - 1 sits in exactly one slot or was released exactly once. */
  ghost predicate Linear(slots: Slots, next: nat, released: multiset<nat>) {
    && next >= 1
    && released[0] == 0
    && (forall b: nat :: b > 0 ==> Holders(slots, b) + released[b] == if b < next then 1 else 0)
  }

  ghost predicate BuffersLinear(p: Pool) {
    Linear(p.slots, p.ledger.nextBuffer, p.ledger.buffersReleased)
  }

  ghost predicate FencesLinear(p: Pool) {
    p.ledger.fencesIn
    == p.ledger.fencesClosed + p.ledger.fencesToTransaction + p.ledger.fencesToCaller
  }

  predicate SurfacesLinear(p: Pool) {
    p.ledger.surfacesCreated == p.ledger.surfacesReleased + if p.surface then 1 else 0
  }

  predicate SlotsOk(p: Pool) {
    SlotOk(p.slots[0]) && SlotOk(p.slots[1]) && SlotOk(p.slots[2])
  }

  /** Holds at every point inside an operation too. */
  ghost predicate Core(p: Pool) {
    SlotsOk(p) && CallbacksCover(p) && BuffersLinear(p) && FencesLinear(p) && SurfacesLinear(p)
  }

  predicate PoolFull(p: Pool) {
    p.slots[0].buffer != 0 && p.slots[1].buffer != 0 && p.slots[2].buffer != 0
  }

  predicate PoolEmpty(p: Pool) {
    p.slots[0].buffer == 0 && p.slots[1].buffer == 0 && p.slots[2].buffer == 0
  }

  /** Holds whenever mutex_ is free. */
  predicate Whole(p: Pool) {
    && (PoolFull(p) || PoolEmpty(p))
    && (!p.tokenLive ==> p.destroyed && !p.enabled)
  }

  /** Holds between operations. */
  predicate Settled(p: Pool) {
    Whole(p) && (!p.enabled ==> PoolEmpty(p) && !p.surface)
  }

  // ---------------------------------------------------------------------------
  // The exact invariant of runs whose drains succeed
  // ---------------------------------------------------------------------------

  /** The callbacks owed are exactly the submitted slots, one each. */
  ghost predicate CallbacksExact(p: Pool) {
    && p.submittedCount == SubmittedSlots(p)
    && p.pending[0] == InFlight(p.slots[0])
    && p.pending[1] == InFlight(p.slots[1])
    && p.pending[2] == InFlight(p.slots[2])
    && (forall k :: k in p.pending ==> k < 3)
  }

  predicate MappedIffLocked(s: Slot) {
    s.mapped != 0 <==> s.state == Locked
  }

  predicate MappedWhenLocked(p: Pool) {
    MappedIffLocked(p.slots[0]) && MappedIffLocked(p.slots[1]) && MappedIffLocked(p.slots[2])
  }

  ghost predicate Exact(p: Pool) {
    CallbacksExact(p) && MappedWhenLocked(p)
  }

  ghost predicate KeepsExact(p: Pool, q: Pool) {
    (CallbacksExact(p) ==> CallbacksExact(q)) && (Exact(p) ==> Exact(q))
  }

  ghost predicate SameExact(p: Pool, q: Pool) {
    (CallbacksExact(p) <==> CallbacksExact(q)) && (Exact(p) <==> Exact(q))
  }

  /** From an exact p, q is exact if and only if the condition holds. */
  ghost predicate ExactIff(p: Pool, q: Pool, condition: bool) {
    && (CallbacksExact(p) ==> (CallbacksExact(q) <==> condition))
    && (Exact(p) ==> (Exact(q) <==> condition))
  }

  lemma SlotOkAt(p: Pool, i: Index)
    requires SlotsOk(p)
    ensures SlotOk(p.slots[i])
  {
    if i == 0 {} else if i == 1 {} else {}
  }

  lemma MappedIffLockedAt(p: Pool, i: Index)
    requires MappedWhenLocked(p)
    ensures MappedIffLocked(p.slots[i])
  {
    if i == 0 {} else if i == 1 {} else {}
  }

  lemma SlotsOkUpdate(p: Pool, i: Index, s: Slot)
    requires SlotsOk(p) && SlotOk(s)
    ensures SlotsOk(WithSlot(p, i, s))
  {
    if i == 0 {} else if i == 1 {} else {}
  }

  // ---------------------------------------------------------------------------
  // Callbacks and waits
  // ---------------------------------------------------------------------------

  predicate SameHandles(s: Slot, t: Slot) {
    && s.buffer == t.buffer && s.mapped == t.mapped && s.eglImage == t.eglImage
    && s.texture == t.texture && s.fbo == t.fbo
  }

  /** What release callbacks never touch. */
  predicate SameResources(p: Pool, q: Pool) {
    && p.zeroCopy == q.zeroCopy && p.enabled == q.enabled && p.destroyed == q.destroyed
    && p.tokenLive == q.tokenLive && p.window == q.window && p.surface == q.surface
    && p.width == q.width && p.height == q.height
    && p.ledger.(fencesIn := q.ledger.fencesIn, fencesClosed := q.ledger.fencesClosed) == q.ledger
    && SameHandles(p.slots[0], q.slots[0])
    && SameHandles(p.slots[1], q.slots[1])
    && SameHandles(p.slots[2], q.slots[2])
  }

  predicate SameBuffers(s: Slots, t: Slots) {
    s[0].buffer == t[0].buffer && s[1].buffer == t[1].buffer && s[2].buffer == t[2].buffer
  }

  lemma LinearCarriesOver(s: Slots, t: Slots, next: nat, released: multiset<nat>)
    requires Linear(s, next, released) && SameBuffers(s, t)
    ensures Linear(t, next, released)
  {
    forall b: nat | b > 0
      ensures Holders(t, b) + released[b] == if b < next then 1 else 0
    {
      assert Holders(t, b) == Holders(s, b);
    }
  }

  lemma DeliverFences(p: Pool, r: Release)
    requires FencesLinear(p)
    ensures FencesLinear(Deliver(p, r))
  {
  }

  /** What delivering a pending callback to a live backend does, field by field. */
  lemma DeliverEffect(p: Pool, r: Release)
    requires r.slot in p.pending && r.slot < 3 && p.tokenLive
    ensures var q := Deliver(p, r);
      && q == p.(slots := p.slots[r.slot := p.slots[r.slot].(state := Free, releaseFence := -1)],
                 submittedCount := if p.submittedCount > 0 then p.submittedCount - 1 else p.submittedCount,
                 pending := p.pending - multiset{r.slot},
                 ledger := q.ledger, log := p.log + [Returned(r.slot)])
      && q.ledger == p.ledger.(fencesIn := p.ledger.fencesIn + One(CarriedFence(p, r)),
                               fencesClosed := p.ledger.fencesClosed + One(CarriedFence(p, r)))
  {
  }

  lemma DeliverResources(p: Pool, r: Release)
    requires CallbacksCover(p)
    ensures SameResources(p, Deliver(p, r))
  {
    if r.slot in p.pending && p.tokenLive {
      DeliverEffect(p, r);
      if r.slot == 0 {} else if r.slot == 1 {} else {}
    }
  }

  lemma DeliverSlots(p: Pool, r: Release)
    requires SlotsOk(p) && CallbacksCover(p)
    ensures SlotsOk(Deliver(p, r)) && CallbacksCover(Deliver(p, r))
  {
    if r.slot in p.pending && p.tokenLive {
      DeliverEffect(p, r);
      if r.slot == 0 {} else if r.slot == 1 {} else {}
    }
  }

  lemma DeliverKeeps(p: Pool, r: Release)
    requires Core(p)
    ensures Core(Deliver(p, r)) && SameResources(p, Deliver(p, r))
  {
    DeliverFences(p, r);
    DeliverResources(p, r);
    DeliverSlots(p, r);
    LinearCarriesOver(p.slots, Deliver(p, r).slots, p.ledger.nextBuffer, p.ledger.buffersReleased);
  }

  lemma DeliverExact(p: Pool, r: Release)
    requires Core(p) && CallbacksExact(p)
    ensures CallbacksExact(Deliver(p, r)) && (Exact(p) ==> Exact(Deliver(p, r)))
    ensures r.slot in p.pending ==> r.slot < 3 && p.slots[r.slot].state == Submitted
  {
    if r.slot in p.pending && p.tokenLive {
      DeliverEffect(p, r);
      if r.slot == 0 {} else if r.slot == 1 {} else {}
    }
  }

  lemma {:induction false} DeliverAllKeeps(p: Pool, rs: seq<Release>)
    requires Core(p)
    ensures Core(DeliverAll(p, rs)) && SameResources(p, DeliverAll(p, rs))
    ensures KeepsExact(p, DeliverAll(p, rs))
    decreases |rs|
  {
    if rs != [] {
      DeliverKeeps(p, rs[0]);
      if CallbacksExact(p) { DeliverExact(p, rs[0]); }
      DeliverAllKeeps(Deliver(p, rs[0]), rs[1..]);
    }
  }

  lemma {:induction false} DrainKeeps(p: Pool, timeout: nat, rounds: seq<Round>)
    requires Core(p)
    ensures Core(Drain(p, timeout, rounds).0) && SameResources(p, Drain(p, timeout, rounds).0)
    ensures KeepsExact(p, Drain(p, timeout, rounds).0)
    ensures Drain(p, timeout, rounds).1 == Success ==> Drain(p, timeout, rounds).0.submittedCount == 0
    decreases |rounds|
  {
    if p.submittedCount > 0 && !Expired(timeout, rounds) {
      DeliverAllKeeps(p, rounds[0].delivered);
      if !rounds[0].timedOut { DrainKeeps(DeliverAll(p, rounds[0].delivered), timeout, rounds[1..]); }
    }
  }

  // ---------------------------------------------------------------------------
  // Freeing and allocating
  // ---------------------------------------------------------------------------

  /** q differs from p only in slots, counter, log, fences closed and buffers released. */
  predicate SameOwner(p: Pool, q: Pool) {
    && q == p.(slots := q.slots, submittedCount := q.submittedCount, ledger := q.ledger, log := q.log)
    && q.ledger == p.ledger.(fencesIn := q.ledger.fencesIn, fencesClosed := q.ledger.fencesClosed,
                             buffersReleased := q.ledger.buffersReleased)
  }

  predicate NoGles(s: Slot) {
    s.eglImage == 0 && s.texture == 0 && s.fbo == 0
  }

  lemma FreeSlotFences(p: Pool, i: Index, fence: int)
    requires FencesLinear(p) && p.slots[i].releaseFence == -1
    ensures FencesLinear(FreeSlot(p, i, fence))
  {
  }

  lemma LinearRelease(s: Slots, i: Index, next: nat, released: multiset<nat>)
    requires Linear(s, next, released) && s[i].buffer != 0
    ensures Linear(s[i := EMPTY_SLOT], next, released + multiset{s[i].buffer})
  {
    var t, now := s[i := EMPTY_SLOT], released + multiset{s[i].buffer};
    forall b: nat | b > 0
      ensures Holders(t, b) + now[b] == if b < next then 1 else 0
    {
      assert Holders(s, b) + released[b] == if b < next then 1 else 0;
      if i == 0 {} else if i == 1 {} else {}
    }
  }

  /** q is p with slot i emptied and its buffer, if it had one, released. */
  predicate SlotFreed(p: Pool, q: Pool, i: Index) {
    && SameOwner(p, q)
    && q.slots == p.slots[i := EMPTY_SLOT] && q.submittedCount == p.submittedCount && q.log == p.log
    && q.ledger.buffersReleased == p.ledger.buffersReleased
         + (if p.slots[i].buffer != 0 then multiset{p.slots[i].buffer} else multiset{})
  }

  lemma CloseNothing(p: Pool)
    ensures CloseFence(p, -1) == p
  {
    assert p.ledger.fencesClosed + multiset{} == p.ledger.fencesClosed;
  }

  lemma FreeSlotEffect(p: Pool, i: Index, fence: int)
    requires SlotOk(p.slots[i]) && NoGles(p.slots[i])
    ensures SlotFreed(p, FreeSlot(p, i, fence), i)
  {
    var s := p.slots[i];
    var unlocked := if s.buffer != 0 && s.state == Locked then CloseFence(FenceIn(p, fence), fence) else p;
    var freed := if s.buffer != 0 then ReleaseBuffer(unlocked, s.buffer) else unlocked;
    CloseNothing(freed);
    assert FreeSlot(p, i, fence) == WithSlot(freed, i, EMPTY_SLOT);
    hide FreeSlot;
  }

  /** What freeing slots i, i + 1, ... makes of p. */
  ghost predicate FreedOn(p: Pool, q: Pool, i: nat) {
    && BuffersLinear(q) && FencesLinear(q) && SameOwner(p, q)
    && q.submittedCount == p.submittedCount && q.log == p.log
    && (forall j: Index :: q.slots[j] == if j < i then p.slots[j] else EMPTY_SLOT)
  }

  ghost predicate Freeable(p: Pool) {
    && SlotsOk(p) && BuffersLinear(p) && FencesLinear(p)
    && NoGles(p.slots[0]) && NoGles(p.slots[1]) && NoGles(p.slots[2])
  }

  lemma FreeSlotBuffers(p: Pool, q: Pool, i: Index)
    requires BuffersLinear(p) && SlotFreed(p, q, i)
    ensures BuffersLinear(q)
  {
    if p.slots[i].buffer != 0 {
      LinearRelease(p.slots, i, p.ledger.nextBuffer, p.ledger.buffersReleased);
    } else {
      LinearCarriesOver(p.slots, q.slots, p.ledger.nextBuffer, p.ledger.buffersReleased);
    }
  }

  lemma FreeSlotKeeps(p: Pool, i: Index, fence: int)
    requires Freeable(p)
    ensures Freeable(FreeSlot(p, i, fence)) && SlotFreed(p, FreeSlot(p, i, fence), i)
  {
    hide Linear, FreeSlot, FencesLinear;
    SlotOkAt(p, i);
    if i == 0 {} else if i == 1 {} else {}
    FreeSlotFences(p, i, fence);
    FreeSlotEffect(p, i, fence);
    FreeSlotBuffers(p, FreeSlot(p, i, fence), i);
  }

  lemma FreeFromEnd(p: Pool, fences: seq<int>)
    ensures FreeFrom(p, 3, fences) == p
  {
  }

  lemma FreeFromStep(p: Pool, i: Index, fences: seq<int>)
    ensures FreeFrom(p, i, fences) == FreeFrom(FreeSlot(p, i, FenceAt(fences, i)), i + 1, fences)
  {
    hide FreeSlot, FenceAt;
  }

  lemma FreedOneMore(p: Pool, next: Pool, q: Pool, i: Index)
    requires SlotFreed(p, next, i) && FreedOn(next, q, i + 1)
    ensures FreedOn(p, q, i)
  {
    hide Linear;
  }

  lemma NoneLeftToFree(p: Pool)
    requires Freeable(p)
    ensures FreedOn(p, p, 3)
  {
    hide Linear;
  }

  lemma {:induction false} FreeFromKeeps(p: Pool, i: nat, fences: seq<int>)
    requires i <= 3 && Freeable(p)
    ensures FreedOn(p, FreeFrom(p, i, fences), i)
    decreases 3 - i
  {
    hide FreeFrom, FreeSlot, FenceAt, Freeable, FreedOn, SlotFreed;
    if i == 3 {
      FreeFromEnd(p, fences);
      NoneLeftToFree(p);
    } else {
      var next := FreeSlot(p, i, FenceAt(fences, i));
      FreeFromStep(p, i, fences);
      FreeSlotKeeps(p, i, FenceAt(fences, i));
      FreeFromKeeps(next, i + 1, fences);
      FreedOneMore(p, next, FreeFrom(next, i + 1, fences), i);
    }
  }

  lemma FreePoolKeeps(p: Pool, fences: seq<int>)
    requires SlotsOk(p) && BuffersLinear(p) && FencesLinear(p)
    ensures FreedFrom(p, FreePool(p, fences))
  {
    var a := DestroyGles(p);
    LinearCarriesOver(p.slots, a.slots, p.ledger.nextBuffer, p.ledger.buffersReleased);
    hide FreeFrom, Linear;
    FreeFromKeeps(a, 0, fences);
    AllSlotsEmpty(FreeFrom(a, 0, fences));
  }

  lemma AllSlotsEmpty(p: Pool)
    requires forall j: Index :: p.slots[j] == EMPTY_SLOT
    ensures p.slots == [EMPTY_SLOT, EMPTY_SLOT, EMPTY_SLOT]
  {
  }

  /** A slot that has never been handed out since its buffer was allocated. */
  predicate Unused(s: Slot) {
    s.state == Free && s.mapped == 0 && s.releaseFence == -1 && NoGles(s)
  }

  predicate AllUnused(p: Pool) {
    Unused(p.slots[0]) && Unused(p.slots[1]) && Unused(p.slots[2])
  }

  lemma NothingOwed(pending: multiset<nat>)
    requires forall k :: k in pending ==> k < 3
    ensures pending == multiset{} <==> pending[0] == 0 && pending[1] == 0 && pending[2] == 0
  {
    if pending[0] == 0 && pending[1] == 0 && pending[2] == 0 {
      assert forall k :: k !in pending;
    }
  }

  /** q is p with its pool freed. */
  ghost predicate FreedFrom(p: Pool, q: Pool) {
    && BuffersLinear(q) && FencesLinear(q) && SameOwner(p, q)
    && q.slots == [EMPTY_SLOT, EMPTY_SLOT, EMPTY_SLOT] && q.submittedCount == 0
    && q.log == p.log + [PoolFreed]
  }

  /** Freeing the pool keeps Core whatever the callbacks still owed. */
  lemma FreedCore(p: Pool, q: Pool)
    requires Core(p) && FreedFrom(p, q)
    ensures Core(q) && PoolEmpty(q) && AllUnused(q)
    ensures (CallbacksExact(q) <==> p.pending == multiset{}) && (Exact(q) <==> p.pending == multiset{})
  {
    NothingOwed(p.pending);
  }

  lemma LinearAllocate(s: Slots, i: Index, t: Slots, next: nat, released: multiset<nat>)
    requires Linear(s, next, released) && s[i].buffer == 0
    requires SameBuffers(t, s[i := s[i].(buffer := next)])
    ensures Linear(t, next + 1, released)
  {
    forall b: nat | b > 0
      ensures Holders(t, b) + released[b] == if b < next + 1 then 1 else 0
    {
      assert Holders(s, b) + released[b] == if b < next then 1 else 0;
      if i == 0 {} else if i == 1 {} else {}
    }
  }

  /** q is p after allocating its three buffers, or after giving the attempt up. */
  ghost predicate AllocatedFrom(p: Pool, q: Pool, ok: bool) {
    && BuffersLinear(q) && FencesLinear(q) && AllUnused(q) && q.submittedCount == 0
    && q == p.(slots := q.slots, submittedCount := 0, ledger := q.ledger, log := q.log)
    && q.ledger.surfacesCreated == p.ledger.surfacesCreated
    && q.ledger.surfacesReleased == p.ledger.surfacesReleased
    && (if ok then PoolFull(q) && q.log == p.log else PoolEmpty(q) && q.log == p.log + [PoolFreed])
  }

  lemma AllocateGivesUp(p: Pool, q: Pool)
    requires FreedFrom(p, q)
    ensures AllocatedFrom(p, q, false)
  {
    hide Linear;
  }

  /** q differs from p in its slots, one of which took the next buffer. */
  predicate OneMoreBuffer(p: Pool, q: Pool) {
    q == p.(slots := q.slots, ledger := p.ledger.(nextBuffer := p.ledger.nextBuffer + 1))
  }

  lemma AllocateGoesOn(p: Pool, next: Pool, q: Pool, ok: bool)
    requires AllocatedFrom(next, q, ok) && OneMoreBuffer(p, next)
    ensures AllocatedFrom(p, q, ok)
  {
    hide Linear;
  }

  predicate FilledBelow(p: Pool, i: nat) {
    && (p.slots[0].buffer == 0 <==> 0 >= i)
    && (p.slots[1].buffer == 0 <==> 1 >= i)
    && (p.slots[2].buffer == 0 <==> 2 >= i)
  }

  ghost predicate Allocating(p: Pool, i: nat) {
    && i <= 3 && BuffersLinear(p) && FencesLinear(p) && AllUnused(p)
    && FilledBelow(p, i) && p.submittedCount == 0
  }

  lemma AllocateSlotKeeps(p: Pool, i: Index)
    requires Allocating(p, i)
    ensures var q := AllocateSlot(p, i);
      Allocating(q, i + 1) && OneMoreBuffer(p, q)
  {
    var q := AllocateSlot(p, i);
    if i == 0 {} else if i == 1 {} else {}
    LinearAllocate(p.slots, i, q.slots, p.ledger.nextBuffer, p.ledger.buffersReleased);
  }

  lemma AllocateNothingLeft(p: Pool, allocs: seq<bool>)
    requires Allocating(p, 3)
    ensures AllocateFrom(p, 3, allocs) == (p, true) && AllocatedFrom(p, p, true)
  {
    hide Linear;
  }

  lemma AllocationAbandoned(p: Pool, i: Index, allocs: seq<bool>)
    requires Allocating(p, i) && !BoolAt(allocs, i)
    ensures AllocateFrom(p, i, allocs) == (FreePool(p, []), false) && AllocatedFrom(p, FreePool(p, []), false)
  {
    hide FreePool, Linear;
    FreePoolKeeps(p, []);
    AllocateGivesUp(p, FreePool(p, []));
  }

  lemma AllocateStep(p: Pool, i: Index, allocs: seq<bool>)
    requires BoolAt(allocs, i)
    ensures AllocateFrom(p, i, allocs) == AllocateFrom(AllocateSlot(p, i), i + 1, allocs)
  {
    hide AllocateSlot;
  }

  ghost predicate Allocates(p: Pool, i: nat, allocs: seq<bool>) {
    AllocatedFrom(p, AllocateFrom(p, i, allocs).0, AllocateFrom(p, i, allocs).1)
  }

  lemma AllocatesEarlier(p: Pool, i: Index, allocs: seq<bool>)
    requires Allocating(p, i) && BoolAt(allocs, i) && Allocates(AllocateSlot(p, i), i + 1, allocs)
    ensures Allocates(p, i, allocs)
  {
    hide AllocateFrom, AllocateSlot, FreePool, Allocating, AllocatedFrom, OneMoreBuffer, BoolAt;
    var next := AllocateSlot(p, i);
    AllocateStep(p, i, allocs);
    AllocateSlotKeeps(p, i);
    AllocateGoesOn(p, next, AllocateFrom(next, i + 1, allocs).0, AllocateFrom(next, i + 1, allocs).1);
  }

  lemma {:induction false} AllocateFromKeeps(p: Pool, i: nat, allocs: seq<bool>)
    requires Allocating(p, i)
    ensures Allocates(p, i, allocs)
    decreases 3 - i
  {
    AtMostThree(p, i);
    hide AllocateFrom, AllocateSlot, FreePool, Allocating, AllocatedFrom, BoolAt;
    if i == 3 {
      AllocateNothingLeft(p, allocs);
    } else if BoolAt(allocs, i) {
      hide Allocates;
      AllocateSlotKeeps(p, i);
      AllocateFromKeeps(AllocateSlot(p, i), i + 1, allocs);
      AllocatesEarlier(p, i, allocs);
    } else {
      AllocationAbandoned(p, i, allocs);
    }
  }

  lemma AtMostThree(p: Pool, i: nat)
    requires Allocating(p, i)
    ensures i <= 3
  {
    hide Linear;
  }

  /** Allocating on an empty pool with nothing submitted. */
  lemma AllocatedCore(p: Pool, q: Pool, ok: bool)
    requires Core(p) && PoolEmpty(p) && p.submittedCount == 0 && AllocatedFrom(p, q, ok)
    ensures Core(q) && SameExact(p, q)
  {
  }
}
