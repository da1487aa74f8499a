/**
  What holds over whole runs of the presentation backend: with timed-out drains, and
  without them.
 */
module PresentationRuns {
  import opened PresentationModel
  import opened PresentationInvariants
  import opened PresentationOperations
  import opened PresentationHistory

  // ---------------------------------------------------------------------------
  // All runs
  // ---------------------------------------------------------------------------

  lemma CreatedKeeps(zeroCopy: bool)
    ensures Inv(Created(zeroCopy)) && Exact(Created(zeroCopy)) && Tracked(Created(zeroCopy))
  {
    var p := Created(zeroCopy);
    assert forall b: nat :: b > 0 ==> Holders(p.slots, b) == 0;
  }

  lemma {:induction false} AllRuns(zeroCopy: bool, steps: seq<Step>)
    ensures Inv(Run(Created(zeroCopy), steps))
    decreases |steps|
  {
    if steps == [] {
      CreatedKeeps(zeroCopy);
    } else {
      var before := steps[..|steps| - 1];
      AllRuns(zeroCopy, before);
      StepKeeps(Run(Created(zeroCopy), before), steps[|steps| - 1]);
    }
  }

  /** In all runs, timed-out drains included, a submitted slot is still owed a callback. */
  lemma SubmittedSlotsAreOwed(zeroCopy: bool, steps: seq<Step>, i: Index)
    ensures var p := Run(Created(zeroCopy), steps);
      && (p.slots[i].state == Submitted ==> p.pending[i] > 0)
      && p.slots[i].state != Released
      && 0 <= p.submittedCount <= SubmittedSlots(p) <= 3
  {
    hide Linear, FencesLinear, Run;
    AllRuns(zeroCopy, steps);
    if i == 0 {} else if i == 1 {} else {}
  }

  /** Delivering every callback still owed, in any order, leaves nothing in flight. */
  lemma {:induction false} DeliverAllEmpties(p: Pool, rs: seq<Release>, order: seq<nat>)
    requires Core(p) && p.pending == multiset(order) && |rs| == |order|
    requires forall k :: 0 <= k < |rs| ==> rs[k].slot == order[k]
    ensures var q := DeliverAll(p, rs);
      q.pending == multiset{} && q.submittedCount == 0 && SubmittedSlots(q) == 0
    decreases |rs|
  {
    hide Core, SameResources, Deliver, SubmittedSlots;
    if rs == [] {
      assert order == [];
      NothingSubmitted(p);
    } else {
      assert order == [order[0]] + order[1..];
      var next := Deliver(p, rs[0]);
      DeliverKeeps(p, rs[0]);
      DeliverTakesOne(p, rs[0]);
      assert next.pending == multiset(order[1..]);
      DeliverAllEmpties(next, rs[1..], order[1..]);
    }
  }

  lemma DeliverTakesOne(p: Pool, r: Release)
    requires r.slot in p.pending
    ensures Deliver(p, r).pending == p.pending - multiset{r.slot}
  {
  }

  lemma NothingSubmitted(p: Pool)
    requires Core(p) && p.pending == multiset{}
    ensures p.submittedCount == 0 && SubmittedSlots(p) == 0
  {
    hide Linear, FencesLinear, SlotOk;
  }

  /** So once every callback has run, a drain returns 0 at once, whatever its timeout. */
  lemma QuiescentDrains(zeroCopy: bool, steps: seq<Step>, rs: seq<Release>, order: seq<nat>,
                        timeout: nat, rounds: seq<Round>)
    requires Run(Created(zeroCopy), steps).pending == multiset(order) && |rs| == |order|
    requires forall k :: 0 <= k < |rs| ==> rs[k].slot == order[k]
    ensures var q := DeliverAll(Run(Created(zeroCopy), steps), rs);
      q.submittedCount == 0 && Drain(q, timeout, rounds) == (q, Success)
  {
    AllRuns(zeroCopy, steps);
    DeliverAllEmpties(Run(Created(zeroCopy), steps), rs, order);
  }

  /** Buffers, fences and surface controls are conserved; the pool is whole or absent. */
  lemma ResourcesConserved(zeroCopy: bool, steps: seq<Step>, b: nat)
    ensures var p := Run(Created(zeroCopy), steps);
      && (PoolFull(p) || PoolEmpty(p))
      && (0 < b < p.ledger.nextBuffer ==> Holders(p.slots, b) + p.ledger.buffersReleased[b] == 1)
      && (b == 0 || b >= p.ledger.nextBuffer ==> p.ledger.buffersReleased[b] == 0)
      && p.ledger.fencesIn == p.ledger.fencesClosed + p.ledger.fencesToTransaction + p.ledger.fencesToCaller
      && p.ledger.surfacesCreated - p.ledger.surfacesReleased == (if p.surface then 1 else 0)
  {
    AllRuns(zeroCopy, steps);
  }

  // ---------------------------------------------------------------------------
  // Runs that free the pool only when nothing is in flight
  // ---------------------------------------------------------------------------

  lemma {:induction false} ExactRuns(zeroCopy: bool, steps: seq<Step>)
    requires AllEmptied(Created(zeroCopy), steps)
    ensures Exact(Run(Created(zeroCopy), steps)) && Tracked(Run(Created(zeroCopy), steps))
    decreases |steps|
  {
    CreatedKeeps(zeroCopy);
    if steps != [] {
      var before := steps[..|steps| - 1];
      ExactRuns(zeroCopy, before);
      AllRuns(zeroCopy, before);
      StepKeeps(Run(Created(zeroCopy), before), steps[|steps| - 1]);
      StepTracked(Run(Created(zeroCopy), before), steps[|steps| - 1]);
    }
  }

  lemma {:induction false} EmptiedPrefix(p: Pool, steps: seq<Step>, k: nat)
    requires k <= |steps| && AllEmptied(p, steps)
    ensures AllEmptied(p, steps[..k])
    decreases |steps|
  {
    if k == |steps| {
      assert steps[..k] == steps;
    } else {
      EmptiedPrefix(p, steps[..|steps| - 1], k);
      assert steps[..|steps| - 1][..k] == steps[..k];
    }
  }

  lemma {:induction false} ExactMeansEmptied(zeroCopy: bool, steps: seq<Step>)
    requires forall k: nat :: k <= |steps| ==> Exact(Run(Created(zeroCopy), steps[..k]))
    ensures AllEmptied(Created(zeroCopy), steps)
    decreases |steps|
  {
    hide Apply, Inv, Exact, Emptied;
    if steps != [] {
      var n := |steps| - 1;
      var before := steps[..n];
      forall k: nat | k <= n ensures Exact(Run(Created(zeroCopy), before[..k])) {
        assert before[..k] == steps[..k];
      }
      ExactMeansEmptied(zeroCopy, before);
      AllRuns(zeroCopy, before);
      assert steps[..n + 1] == steps;
      StepKeeps(Run(Created(zeroCopy), before), steps[n]);
    }
  }

  /**
    The callbacks owed are exactly the submitted slots, one each, and slots are mapped
    exactly when locked, at every point of a run, if and only if every disable and
    resize that freed the pool had seen submitted_count_ reach 0.
   */
  lemma ExactThroughoutIff(zeroCopy: bool, steps: seq<Step>)
    ensures (forall k: nat :: k <= |steps| ==> Exact(Run(Created(zeroCopy), steps[..k])))
            <==> AllEmptied(Created(zeroCopy), steps)
  {
    if AllEmptied(Created(zeroCopy), steps) {
      forall k: nat | k <= |steps| ensures Exact(Run(Created(zeroCopy), steps[..k])) {
        EmptiedPrefix(Created(zeroCopy), steps, k);
        ExactRuns(zeroCopy, steps[..k]);
      }
    } else if forall k: nat :: k <= |steps| ==> Exact(Run(Created(zeroCopy), steps[..k])) {
      ExactMeansEmptied(zeroCopy, steps);
    }
  }

  lemma {:induction false} DrainedRunsAreEmptied(zeroCopy: bool, steps: seq<Step>)
    requires AllDrained(Created(zeroCopy), steps)
    ensures AllEmptied(Created(zeroCopy), steps)
    decreases |steps|
  {
    if steps != [] {
      var before := steps[..|steps| - 1];
      DrainedRunsAreEmptied(zeroCopy, before);
      AllRuns(zeroCopy, before);
      DrainedImpliesEmptied(Run(Created(zeroCopy), before), steps[|steps| - 1]);
    }
  }

  lemma OwedSize(pending: multiset<nat>)
    requires forall k :: k in pending ==> k < 3
    ensures |pending| == pending[0] + pending[1] + pending[2]
  {
    var a := pending[0 := 0];
    var b := a[1 := 0];
    var c := b[2 := 0];
    assert |pending| == |a| + pending[0] && |a| == |b| + pending[1] && |b| == |c| + pending[2];
    assert forall k :: k !in c;
    assert c == multiset{};
  }

  /** Under the exact invariant only a submitted slot can be freed by a callback. */
  lemma ExactFreesSubmitted(p: Pool, r: Release, i: Index)
    requires Core(p) && CallbacksExact(p)
    ensures p.pending[i] == InFlight(p.slots[i]) && p.submittedCount == |p.pending|
    ensures r.slot in p.pending ==> r.slot < 3 && p.slots[r.slot].state == Submitted
    ensures p.slots[i].state != Submitted ==> Deliver(p, r).slots[i] == p.slots[i]
  {
    DeliverExact(p, r);
    OwedSize(p.pending);
    if i == 0 {} else if i == 1 {} else {}
    if r.slot in p.pending && p.tokenLive { DeliverEffect(p, r); }
  }

  /** When nothing was in flight as the pool was freed, no callback frees an acquired or locked slot. */
  lemma CallbacksFreeSubmittedSlots(zeroCopy: bool, steps: seq<Step>, r: Release, i: Index)
    requires AllEmptied(Created(zeroCopy), steps)
    ensures var p := Run(Created(zeroCopy), steps);
      && p.pending[i] == InFlight(p.slots[i])
      && p.submittedCount == |p.pending|
      && (r.slot in p.pending ==> r.slot < 3 && p.slots[r.slot].state == Submitted)
      && (p.slots[i].state in {Acquired, Locked} ==> Deliver(p, r).slots[i] == p.slots[i])
  {
    ExactRuns(zeroCopy, steps);
    AllRuns(zeroCopy, steps);
    ExactFreesSubmitted(Run(Created(zeroCopy), steps), r, i);
  }

  lemma TrackedHasNoClash(p: Pool, i: Index)
    requires Core(p) && Tracked(p)
    ensures PhaseOf(p.log, i) != Clash
  {
    if i == 0 {} else if i == 1 {} else {}
  }

  /** In such runs no slot is handed out twice without coming back between. */
  lemma NoDoubleHandOut(zeroCopy: bool, steps: seq<Step>, log: seq<Event>, i: Index, p: nat, q: nat)
    requires AllEmptied(Created(zeroCopy), steps) && log == Run(Created(zeroCopy), steps).log
    requires p < q < |log| && log[p] == HandedOut(i) && log[q] == HandedOut(i)
    ensures exists r :: p < r < q && GivenBack(log, i, p, r)
  {
    ExactRuns(zeroCopy, steps);
    AllRuns(zeroCopy, steps);
    TrackedHasNoClash(Run(Created(zeroCopy), steps), i);
    HandOutsSeparated(log, i, p, q);
  }

  // ---------------------------------------------------------------------------
  // A timed-out drain breaks it
  // ---------------------------------------------------------------------------

  lemma RunSnoc(p: Pool, steps: seq<Step>, step: Step)
    ensures Run(p, steps + [step]) == Apply(Run(p, steps), step)
  {
    assert (steps + [step])[..|steps|] == steps;
  }

  /** What the counterexamples track of a pool. */
  predicate Looks(p: Pool, enabled: bool, surface: bool, first: BufferState, owed: nat, log: seq<Event>) {
    && p.enabled == enabled && p.surface == surface && p.tokenLive && !p.destroyed
    && p.slots[0].state == first && p.pending == (if owed == 0 then multiset{} else multiset{0})
    && p.log == log
  }

  const ENABLE := DoEnable(1, 100, 100, true, [true, true, true])

  const RESIZE := DoResize(200, 200, [], [], [true, true, true])

  lemma AllocatesAll(p: Pool)
    ensures AllocateFrom(p, 0, [true, true, true]).1
  {
    var a := AllocateSlot(p, 0);
    var b := AllocateSlot(a, 1);
    assert AllocateFrom(p, 0, [true, true, true]) == AllocateFrom(a, 1, [true, true, true]);
    assert AllocateFrom(a, 1, [true, true, true]) == AllocateFrom(b, 2, [true, true, true]);
  }

  lemma EnabledPool(zeroCopy: bool)
    ensures var p := Apply(Created(zeroCopy), ENABLE);
      && Inv(p) && Looks(p, true, true, Free, 0, []) && p.submittedCount == 0 && PoolFull(p)
      && p.window == 1 && p.width == 100 && p.height == 100
  {
    CreatedKeeps(zeroCopy);
    StepKeeps(Created(zeroCopy), ENABLE);
    var q := CreateSurface(Created(zeroCopy).(window := 1, width := 100, height := 100), true);
    AllocatesAll(q);
    AllocateFromKeeps(q, 0, [true, true, true]);
    assert Apply(Created(zeroCopy), ENABLE) == AllocateFrom(q, 0, [true, true, true]).0.(enabled := true);
  }

  lemma AcquireFirst(p: Pool, owed: nat, log: seq<Event>)
    requires Inv(p) && Looks(p, true, true, Free, owed, log) && PoolFull(p)
    ensures var q := Apply(p, DoAcquire(0, []));
      && Inv(q) && Looks(q, true, true, Acquired, owed, log + [HandedOut(0)]) && PoolFull(q)
      && q == HandOut(p, 0)
  {
    StepKeeps(p, DoAcquire(0, []));
    assert FirstAvailable(p, 0) == Some(0);
  }

  lemma SubmitFirst(p: Pool, log: seq<Event>)
    requires Inv(p) && Looks(p, true, true, Acquired, 0, log) && PoolFull(p) && p.submittedCount == 0
    ensures var q := Apply(p, DoSubmit(0, -1, true));
      && Inv(q) && Looks(q, true, true, Submitted, 1, log + [Queued(0)]) && PoolFull(q)
      && q.submittedCount == 1 && q.width == p.width
  {
    StepKeeps(p, DoSubmit(0, -1, true));
  }

  lemma ReallocateFull(q: Pool)
    requires Core(q) && q.enabled && q.surface
    ensures var r := Reallocate(q, 200, 200, [], [true, true, true]).0;
      && PoolFull(r) && AllUnused(r) && r.log == q.log + [PoolFreed] && r.pending == q.pending
      && r.enabled && r.surface && r.tokenLive == q.tokenLive && r.destroyed == q.destroyed
  {
    hide AllocateFrom, FreePool;
    FreePoolKeeps(q, []);
    FreedCore(q, FreePool(q, []));
    var freed := FreePool(q, []).(width := 200, height := 200);
    AllocatesAll(freed);
    AllocateFromKeeps(freed, 0, [true, true, true]);
  }

  lemma ResizeInFlight(p: Pool, log: seq<Event>)
    requires Inv(p) && Looks(p, true, true, Submitted, 1, log) && p.submittedCount == 1 && p.width == 100
    ensures var q := Apply(p, RESIZE);
      Inv(q) && Looks(q, true, true, Free, 1, log + [PoolFreed]) && PoolFull(q)
  {
    hide Reallocate, BuffersLinear, FencesLinear;
    StepKeeps(p, RESIZE);
    assert Drain(p, 200, []) == (p, ETIMEDOUT);
    ReallocateFull(p);
    assert Apply(p, RESIZE) == Reallocate(p, 200, 200, [], [true, true, true]).0;
  }

  lemma StaleRelease(p: Pool, log: seq<Event>)
    requires Inv(p) && Looks(p, true, true, Acquired, 1, log) && PoolFull(p)
    ensures var q := Apply(p, DoRelease(Release(0, -1)));
      Inv(q) && Looks(q, true, true, Free, 0, log + [Returned(0)]) && PoolFull(q)
  {
    StepKeeps(p, DoRelease(Release(0, -1)));
    DeliverEffect(p, Release(0, -1));
  }

  /**
    Without that condition the claims fail: a resize that times out with slot 0 in
    flight leaves a callback which later frees slot 0 while the producer holds it, and
    slot 0 is then handed out a second time.
   */
  lemma StaleCallbackHandsOutTwice(zeroCopy: bool)
    ensures var steps := [ENABLE, DoAcquire(0, []), DoSubmit(0, -1, true), RESIZE, DoAcquire(0, []),
                          DoRelease(Release(0, -1)), DoAcquire(0, [])];
      var log := Run(Created(zeroCopy), steps).log;
      && Run(Created(zeroCopy), steps[..5]).slots[0].state == Acquired
      && Run(Created(zeroCopy), steps[..6]).slots[0].state == Free
      && |log| == 6 && log[3] == HandedOut(0) && log[5] == HandedOut(0)
      && !GivenBack(log, 0, 3, 4)
  {
    hide Apply, Inv, PoolFull;
    var p1 := Apply(Created(zeroCopy), ENABLE);
    EnabledPool(zeroCopy);
    AcquireFirst(p1, 0, []);
    var p2, l2 := Apply(p1, DoAcquire(0, [])), [] + [HandedOut(0)];
    SubmitFirst(p2, l2);
    var p3, l3 := Apply(p2, DoSubmit(0, -1, true)), l2 + [Queued(0)];
    ResizeInFlight(p3, l3);
    var p4, l4 := Apply(p3, RESIZE), l3 + [PoolFreed];
    AcquireFirst(p4, 1, l4);
    var p5, l5 := Apply(p4, DoAcquire(0, [])), l4 + [HandedOut(0)];
    StaleRelease(p5, l5);
    var p6, l6 := Apply(p5, DoRelease(Release(0, -1))), l5 + [Returned(0)];
    AcquireFirst(p6, 0, l6);
    RunOfSeven(Created(zeroCopy), ENABLE, DoAcquire(0, []), DoSubmit(0, -1, true), RESIZE,
               DoAcquire(0, []), DoRelease(Release(0, -1)), DoAcquire(0, []));
  }

  lemma {:induction false} RunCons(p: Pool, step: Step, rest: seq<Step>)
    ensures Run(p, [step] + rest) == Run(Apply(p, step), rest)
    decreases |rest|
  {
    hide Apply;
    if rest == [] {
      RunSnoc(p, [], step);
      assert [step] + rest == [] + [step];
    } else {
      var front, last := rest[..|rest| - 1], rest[|rest| - 1];
      RunCons(p, step, front);
      RunSnoc(p, [step] + front, last);
      assert [step] + rest == ([step] + front) + [last];
    }
  }

  lemma RunOfFour(p: Pool, a: Step, b: Step, c: Step, d: Step)
    ensures Run(p, [a, b, c, d]) == Apply(Apply(Apply(Apply(p, a), b), c), d)
  {
    hide Apply;
    RunCons(p, a, [b, c, d]);
    assert [a, b, c, d] == [a] + [b, c, d];
    RunCons(Apply(p, a), b, [c, d]);
    assert [b, c, d] == [b] + [c, d];
    RunSnoc(Apply(Apply(p, a), b), [c], d);
    assert [c, d] == [c] + [d];
    RunCons(Apply(Apply(p, a), b), c, []);
    assert [c] == [c] + [];
  }

  lemma RunOfSeven(p: Pool, a: Step, b: Step, c: Step, d: Step, e: Step, f: Step, g: Step)
    ensures var steps := [a, b, c, d, e, f, g];
      && Run(p, steps[..5]) == Apply(Apply(Apply(Apply(Apply(p, a), b), c), d), e)
      && Run(p, steps[..6]) == Apply(Run(p, steps[..5]), f)
      && Run(p, steps) == Apply(Run(p, steps[..6]), g)
  {
    hide Apply;
    var steps := [a, b, c, d, e, f, g];
    RunOfFour(p, a, b, c, d);
    RunSnoc(p, [a, b, c, d], e);
    assert steps[..5] == [a, b, c, d] + [e];
    RunSnoc(p, steps[..5], f);
    assert steps[..6] == steps[..5] + [f];
    RunSnoc(p, steps[..6], g);
    assert steps == steps[..6] + [g];
  }

  // ---------------------------------------------------------------------------
  // An enabled output without a pool
  // ---------------------------------------------------------------------------

  /** A resize that frees the pool brings it back exactly when there is a surface and memory. */
  lemma ResizeKeepsPoolIff(p: Pool, width: int, height: int, rounds: seq<Round>,
                           fences: seq<int>, allocs: seq<bool>)
    requires Inv(p) && p.enabled && !p.destroyed && !ResizeIsNoOp(p, width, height)
    ensures PoolFull(Resize(p, width, height, rounds, fences, allocs).0)
            <==> p.surface && BoolAt(allocs, 0) && BoolAt(allocs, 1) && BoolAt(allocs, 2)
  {
    DrainKeeps(p, 200, rounds);
    var q := Drain(p, 200, rounds).0;
    ReallocatePoolIff(q, width, height, fences, allocs);
  }

  lemma ReallocatePoolIff(q: Pool, width: int, height: int, fences: seq<int>, allocs: seq<bool>)
    requires Core(q) && q.enabled
    ensures PoolFull(Reallocate(q, width, height, fences, allocs).0)
            <==> q.surface && BoolAt(allocs, 0) && BoolAt(allocs, 1) && BoolAt(allocs, 2)
  {
    hide Linear, CallbacksCover, FreePool, AllocateFrom;
    FreePoolKeeps(q, fences);
    FreedCore(q, FreePool(q, fences));
    var freed := FreePool(q, fences).(width := width, height := height);
    if freed.surface {
      AllocateFromKeeps(freed, 0, allocs);
      AllocatesIff(freed, 0, allocs);
    }
  }

  lemma {:induction false} AllocatesIff(p: Pool, i: nat, allocs: seq<bool>)
    ensures AllocateFrom(p, i, allocs).1 <==> forall j: nat :: i <= j < 3 ==> BoolAt(allocs, j)
    decreases 3 - i
  {
    if i < 3 && BoolAt(allocs, i) { AllocatesIff(AllocateSlot(p, i), i + 1, allocs); }
  }

  /** While the pool is empty no acquire succeeds, however long it waits. */
  lemma {:induction false} EmptyPoolNeverServes(p: Pool, timeout: nat, rounds: seq<Round>)
    requires Core(p) && PoolEmpty(p)
    ensures AcquireLoop(p, timeout, rounds).1.Failed?
    decreases |rounds|
  {
    FirstAvailableIsFirst(p, 0);
    if !Expired(timeout, rounds) {
      DeliverAllKeeps(p, rounds[0].delivered);
      EmptyPoolNeverServes(DeliverAll(p, rounds[0].delivered), timeout, rounds[1..]);
    }
  }

  lemma UnbindIdle(p: Pool)
    requires Inv(p) && p.enabled && p.surface && !p.destroyed && p.window == 1 && p.width == 100
    requires p.submittedCount == 0
    ensures var q := Apply(p, DoSetWindow(0, [], false));
      && Inv(q) && q.enabled && !q.surface && !q.destroyed && q.window == 0 && q.width == 100
      && q.submittedCount == 0
  {
    hide Inv;
    StepKeeps(p, DoSetWindow(0, [], false));
    assert Drain(p, 250, []) == (p, Success);
  }

  lemma ResizeUnbound(p: Pool)
    requires Inv(p) && p.enabled && !p.surface && !p.destroyed && p.window == 0 && p.width == 100
    requires p.submittedCount == 0
    ensures var q := Apply(p, RESIZE);
      Inv(q) && q.enabled && !q.surface && !q.destroyed && q.window == 0 && PoolEmpty(q)
  {
    hide FreePool, AllocateFrom;
    StepKeeps(p, RESIZE);
    assert Drain(p, 200, []) == (p, Success);
    FreePoolKeeps(p, []);
    assert Apply(p, RESIZE) == FreePool(p, []).(width := 200, height := 200);
  }

  lemma BindAgain(p: Pool)
    requires p.enabled && !p.surface && !p.destroyed && p.window == 0 && PoolEmpty(p)
    ensures var q := Apply(p, DoSetWindow(2, [], true));
      q.enabled && q.surface && PoolEmpty(q)
  {
  }

  /**
    Resizing while the window is away, then binding a new window, leaves an output that
    reports itself enabled and has no buffers.
   */
  lemma EnabledWithoutPool(zeroCopy: bool)
    ensures var p := Run(Created(zeroCopy), [ENABLE, DoSetWindow(0, [], false), RESIZE, DoSetWindow(2, [], true)]);
      p.enabled && p.surface && PoolEmpty(p)
  {
    hide Apply, Inv;
    var p1 := Apply(Created(zeroCopy), ENABLE);
    EnabledPool(zeroCopy);
    UnbindIdle(p1);
    var p2 := Apply(p1, DoSetWindow(0, [], false));
    ResizeUnbound(p2);
    BindAgain(Apply(p2, RESIZE));
    RunOfFour(Created(zeroCopy), ENABLE, DoSetWindow(0, [], false), RESIZE, DoSetWindow(2, [], true));
  }

  // ---------------------------------------------------------------------------
  // Fences, call by call
  // ---------------------------------------------------------------------------

  /** after is before and fd, when fd is a descriptor at all. */
  predicate Gains(before: multiset<int>, after: multiset<int>, fd: int) {
    if fd >= 0 then after == before + multiset{fd} else after == before
  }

  /** The ledger received one fence and passed it on in one way. */
  predicate FenceClosed(a: Ledger, b: Ledger, fd: int) {
    && Gains(a.fencesIn, b.fencesIn, fd) && Gains(a.fencesClosed, b.fencesClosed, fd)
    && b == a.(fencesIn := b.fencesIn, fencesClosed := b.fencesClosed)
  }

  predicate FenceQueued(a: Ledger, b: Ledger, fd: int) {
    && Gains(a.fencesIn, b.fencesIn, fd) && Gains(a.fencesToTransaction, b.fencesToTransaction, fd)
    && b == a.(fencesIn := b.fencesIn, fencesToTransaction := b.fencesToTransaction)
  }

  predicate FenceReturned(a: Ledger, b: Ledger, fd: int) {
    && Gains(a.fencesIn, b.fencesIn, fd) && Gains(a.fencesToCaller, b.fencesToCaller, fd)
    && b == a.(fencesIn := b.fencesIn, fencesToCaller := b.fencesToCaller)
  }

  /** A fence given to submit goes to the transaction if the call succeeds, else it is closed. */
  lemma SubmitFate(p: Pool, i: int, fence: int, transactionOk: bool)
    ensures var (q, status) := Submit(p, i, fence, transactionOk);
      && (if status == Success then FenceQueued(p.ledger, q.ledger, fence)
          else FenceClosed(p.ledger, q.ledger, fence))
      && (status == Success <==> q.pending == p.pending + multiset{i} && 0 <= i < 3
                                 && p.slots[i].state == Acquired && q.slots[i].state == Submitted)
  {
    SubmitFences(p, i, fence, transactionOk);
    SubmitPends(p, i, fence, transactionOk);
    hide Submit, FenceQueued, FenceClosed;
  }

  lemma ReceivedAndClosed(p: Pool, fence: int)
    ensures FenceClosed(p.ledger, CloseFence(FenceIn(p, fence), fence).ledger, fence)
    ensures FenceQueued(p.ledger, FenceToTransaction(FenceIn(p, fence), fence).ledger, fence)
  {
  }

  lemma SubmitFences(p: Pool, i: int, fence: int, transactionOk: bool)
    ensures var (q, status) := Submit(p, i, fence, transactionOk);
      if status == Success then FenceQueued(p.ledger, q.ledger, fence) else FenceClosed(p.ledger, q.ledger, fence)
  {
    var (q, status) := Submit(p, i, fence, transactionOk);
    assert q.ledger == if status == Success then FenceToTransaction(FenceIn(p, fence), fence).ledger
                       else CloseFence(FenceIn(p, fence), fence).ledger;
    hide Submit, FenceIn, CloseFence, FenceToTransaction, FenceQueued, FenceClosed;
    ReceivedAndClosed(p, fence);
  }

  lemma SubmitPends(p: Pool, i: int, fence: int, transactionOk: bool)
    ensures var (q, status) := Submit(p, i, fence, transactionOk);
      status == Success <==> q.pending == p.pending + multiset{i} && 0 <= i < 3
                             && p.slots[i].state == Acquired && q.slots[i].state == Submitted
  {
    var (q, status) := Submit(p, i, fence, transactionOk);
    assert status != Success ==> q.pending == p.pending;
    if 0 <= i < 3 {
      assert (p.pending + multiset{i as nat})[i] != p.pending[i];
    }
  }

  /**
    A callback's fence is closed whether or not the backend is still there; the
    completion callback of the fallback path carries none.
   */
  lemma ReleaseFate(p: Pool, r: Release)
    requires r.slot in p.pending
    ensures FenceClosed(p.ledger, Deliver(p, r).ledger, if p.zeroCopy then r.fence else -1)
    ensures Deliver(p, r).pending == p.pending - multiset{r.slot}
    ensures !p.tokenLive ==> Deliver(p, r).slots == p.slots && Deliver(p, r).submittedCount == p.submittedCount
  {
  }

  /** What onBufferReleasedInternal does for any index: a bad one only closes the fence. */
  lemma ReleasedInternally(p: Pool, i: int, fence: int)
    ensures var q := OnBufferReleased(p, i, fence);
      && Gains(p.ledger.fencesClosed, q.ledger.fencesClosed, fence)
      && q.ledger == p.ledger.(fencesClosed := q.ledger.fencesClosed)
      && (if 0 <= i < 3 then
            q == p.(slots := p.slots[i := p.slots[i].(state := Free, releaseFence := -1)],
                    submittedCount := if p.submittedCount > 0 then p.submittedCount - 1 else p.submittedCount,
                    ledger := q.ledger, log := p.log + [Returned(i)])
          else q == p.(ledger := q.ledger))
  {
  }

  /** An unlock fence goes to the caller who asked for it and is closed otherwise. */
  lemma UnlockFate(p: Pool, i: int, outcome: UnlockOutcome, wantsFence: bool)
    ensures var (q, status) := Unlock(p, i, outcome, wantsFence);
      var held := 0 <= i < 3 && p.slots[i].state == Locked && p.slots[i].buffer != 0;
      && (status == Success <==> held && outcome.Unlocked?)
      && (status == EINVAL <==> !held)
      && (held && outcome.UnlockError? ==> status == Library(outcome.code))
      && (status != Success ==> q == p)
      && (status == Success ==>
            && q == p.(slots := p.slots[i := p.slots[i].(mapped := 0, state := Acquired)], ledger := q.ledger)
            && (if wantsFence then FenceReturned(p.ledger, q.ledger, outcome.fence)
                else FenceClosed(p.ledger, q.ledger, outcome.fence)))
  {
  }

  // ---------------------------------------------------------------------------
  // A destroy call is a run
  // ---------------------------------------------------------------------------

  lemma {:induction false} CallbacksKeepFlags(p: Pool, rs: seq<Release>)
    ensures DeliverAll(p, rs).enabled == p.enabled && DeliverAll(p, rs).destroyed == p.destroyed
    decreases |rs|
  {
    if rs != [] { CallbacksKeepFlags(Deliver(p, rs[0]), rs[1..]); }
  }

  lemma {:induction false} DrainKeepsFlags(p: Pool, timeout: nat, rounds: seq<Round>)
    ensures Drain(p, timeout, rounds).0.enabled == p.enabled
    ensures Drain(p, timeout, rounds).0.destroyed == p.destroyed
    decreases |rounds|
  {
    if p.submittedCount > 0 && !Expired(timeout, rounds) {
      CallbacksKeepFlags(p, rounds[0].delivered);
      DrainKeepsFlags(DeliverAll(p, rounds[0].delivered), timeout, rounds[1..]);
    }
  }

  lemma {:induction false} FreeKeepsFlags(p: Pool, i: nat, unlockFences: seq<int>)
    ensures FreeFrom(p, i, unlockFences).enabled == p.enabled
    ensures FreeFrom(p, i, unlockFences).destroyed == p.destroyed
    decreases 3 - i
  {
    if i < 3 { FreeKeepsFlags(FreeSlot(p, i, FenceAt(unlockFences, i)), i + 1, unlockFences); }
  }

  /** When destroy comes to null the token its other two sections are behind it. */
  lemma DestroyReachesToken(p: Pool, rounds: seq<Round>, unlockFences: seq<int>, lastGap: seq<Release>)
    requires p.destroyed
    ensures Permitted(DeliverAll(Disable(p, rounds, unlockFences), lastGap), NullToken)
  {
    DrainKeepsFlags(p.(enabled := false), 150, rounds);
    var q := ReleaseSurface(Drain(p.(enabled := false), 150, rounds).0);
    FreeKeepsFlags(DestroyGles(q), 0, unlockFences);
    CallbacksKeepFlags(Disable(p, rounds, unlockFences), lastGap);
  }

  function Releases(rs: seq<Release>): (steps: seq<Step>)
    ensures |steps| == |rs|
  {
    seq(|rs|, k requires 0 <= k < |rs| => DoRelease(rs[k]))
  }

  lemma {:induction false} RunAppend(p: Pool, a: seq<Step>, b: seq<Step>)
    ensures Run(p, a + b) == Run(Run(p, a), b)
    decreases |b|
  {
    hide Apply;
    if b == [] {
      assert a + b == a;
    } else {
      RunAppend(p, a, b[..|b| - 1]);
      assert a + b == (a + b[..|b| - 1]) + [b[|b| - 1]];
      RunSnoc(p, a + b[..|b| - 1], b[|b| - 1]);
    }
  }

  lemma {:induction false} ReleasesDeliver(p: Pool, rs: seq<Release>)
    ensures Run(p, Releases(rs)) == DeliverAll(p, rs)
    decreases |rs|
  {
    hide Deliver;
    if rs != [] {
      assert Releases(rs) == [DoRelease(rs[0])] + Releases(rs[1..]);
      RunCons(p, DoRelease(rs[0]), Releases(rs[1..]));
      ReleasesDeliver(Deliver(p, rs[0]), rs[1..]);
    }
  }

  function DestroySteps(gap: seq<Release>, rounds: seq<Round>, unlockFences: seq<int>,
                        lastGap: seq<Release>): seq<Step>
  {
    ([BeginDestroy] + Releases(gap)) + ([DoDisable(rounds, unlockFences)] + (Releases(lastGap) + [NullToken]))
  }

  /** So every theorem about runs covers destroy, whatever callbacks run in its gaps. */
  lemma DestroyIsARun(p: Pool, gap: seq<Release>, rounds: seq<Round>, unlockFences: seq<int>,
                      lastGap: seq<Release>)
    requires !p.destroyed
    ensures Run(p, DestroySteps(gap, rounds, unlockFences, lastGap))
            == Destroy(p, gap, rounds, unlockFences, lastGap)
  {
    hide Run, DeliverAll, Disable, Apply, Releases;
    var begun := p.(destroyed := true);
    BeginsDestroy(p);
    RunCons(p, BeginDestroy, Releases(gap));
    ReleasesDeliver(begun, gap);
    var a := DeliverAll(begun, gap);
    var tail := [DoDisable(rounds, unlockFences)] + (Releases(lastGap) + [NullToken]);
    RunAppend(p, [BeginDestroy] + Releases(gap), tail);
    RunCons(a, DoDisable(rounds, unlockFences), Releases(lastGap) + [NullToken]);
    var b := Disable(a, rounds, unlockFences);
    Disables(a, rounds, unlockFences);
    RunSnoc(b, Releases(lastGap), NullToken);
    ReleasesDeliver(b, lastGap);
    CallbacksKeepFlags(begun, gap);
    DestroyReachesToken(a, rounds, unlockFences, lastGap);
    NullsToken(DeliverAll(b, lastGap));
  }

  lemma BeginsDestroy(p: Pool)
    requires !p.destroyed
    ensures Apply(p, BeginDestroy) == p.(destroyed := true)
  {
  }

  lemma Disables(p: Pool, rounds: seq<Round>, unlockFences: seq<int>)
    ensures Apply(p, DoDisable(rounds, unlockFences)) == Disable(p, rounds, unlockFences)
  {
    hide Disable;
  }

  lemma NullsToken(p: Pool)
    requires Permitted(p, NullToken)
    ensures Apply(p, NullToken) == p.(tokenLive := false)
  {
  }
}
