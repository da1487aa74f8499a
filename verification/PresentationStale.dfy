/**
  When a callback can free a slot the producer holds, and a slot be handed out twice:
  the exact condition, of a state and of the call that brings the danger in.
 */
module PresentationStale {
  import opened PresentationModel
  import opened PresentationInvariants
  import opened PresentationOperations
  import opened PresentationHistory
  import opened PresentationRuns
  import opened PresentationCalls

  predicate Held(s: Slot) {
    s.state == Acquired || s.state == Locked
  }

  /** Android may run callback r next, and it frees slot i while the producer holds it. */
  predicate FreesHeld(p: Pool, r: Release, i: Index) {
    Held(p.slots[i]) && Deliver(p, r).slots[i].state == Free
  }

  ghost predicate CanFreeHeld(p: Pool) {
    exists r: Release, i: Index :: FreesHeld(p, r, i)
  }

  /** Slot i is held, a callback is owed for it, and the backend is there to receive it. */
  predicate Endangered(p: Pool, i: Index) {
    Held(p.slots[i]) && p.pending[i] > 0 && p.tokenLive
  }

  lemma FreesHeldIff(p: Pool, r: Release, i: Index)
    requires Core(p)
    ensures FreesHeld(p, r, i) <==> r.slot == i && Endangered(p, i)
  {
    if r.slot in p.pending && p.tokenLive {
      DeliverEffect(p, r);
      hide Deliver, Core;
    }
  }

  lemma CanFreeHeldIff(p: Pool)
    requires Core(p)
    ensures CanFreeHeld(p) <==> exists i: Index :: Endangered(p, i)
  {
    hide Core, FreesHeld, Endangered;
    forall r: Release, i: Index ensures FreesHeld(p, r, i) <==> r.slot == i && Endangered(p, i) {
      FreesHeldIff(p, r, i);
    }
    if i: Index :| Endangered(p, i) {
      assert FreesHeld(p, Release(i, -1), i);
    }
  }

  /** More callbacks are owed than the counter knows of. */
  predicate Stale(p: Pool) {
    |p.pending| > p.submittedCount
  }

  /** The counter and the callbacks agree in number exactly when they agree slot by slot. */
  lemma StaleIff(p: Pool)
    requires Core(p)
    ensures CallbacksExact(p) <==> !Stale(p)
  {
    OwedSize(p.pending);
  }

  lemma OwedMeansPending(p: Pool)
    requires Core(p) && p.pending != multiset{}
    ensures exists i: Index :: p.pending[i] > 0
  {
    NothingOwed(p.pending);
    var zero: Index, one: Index, two: Index := 0, 1, 2;
    assert p.pending[zero] > 0 || p.pending[one] > 0 || p.pending[two] > 0;
  }

  // ---------------------------------------------------------------------------
  // A stale callback can be brought to free a held slot
  // ---------------------------------------------------------------------------

  /** Callbacks that bring the counter to 0 and leave at least one owed. */
  lemma {:induction false} DeliverDown(p: Pool) returns (rs: seq<Release>)
    requires Core(p) && p.tokenLive && Stale(p)
    ensures var q := DeliverAll(p, rs);
      && Core(q) && SameResources(p, q) && q.submittedCount == 0 && q.pending != multiset{}
    ensures p.submittedCount == 0 ==> rs == []
    decreases p.submittedCount
  {
    if p.submittedCount == 0 {
      rs := [];
    } else {
      OwedMeansPending(p);
      var i: Index :| p.pending[i] > 0;
      var r := Release(i, -1);
      DeliverKeeps(p, r);
      DeliverEffect(p, r);
      var rest := DeliverDown(Deliver(p, r));
      hide Core, SameResources, Deliver;
      rs := [r] + rest;
      assert rs[1..] == rest;
      DeliverAllKeeps(p, rs);
    }
  }

  /** The output is off, nothing is counted as in flight, and callbacks are owed. */
  predicate OffAndOwed(p: Pool) {
    !p.enabled && !p.destroyed && p.tokenLive && p.submittedCount == 0 && p.pending != multiset{}
  }

  /** Disable, with a drain that returns 0, leaves the output off with callbacks owed. */
  lemma TurnOff(p: Pool) returns (step: Step)
    requires Inv(p) && !p.destroyed && Stale(p)
    ensures step.DoDisable? && Drained(p, step)
    ensures Inv(Apply(p, step)) && OffAndOwed(Apply(p, step))
  {
    OffKeeps(p);
    var off := p.(enabled := false);
    var rs := DeliverDown(off);
    step := DoDisable([Round(false, rs, false)], []);
    StepKeeps(p, step);
    if p.enabled {
      hide Core, TearDown, DeliverAll, Drain, SameResources;
      DrainsInOneRound(off, rs);
      TornDownOff(off, DeliverAll(off, rs));
      assert Apply(p, step) == TearDown(DeliverAll(off, rs), []);
    }
  }

  lemma TornDownOff(off: Pool, d: Pool)
    requires Core(d) && SameResources(off, d) && !off.enabled && !off.destroyed && off.tokenLive
    requires d.pending != multiset{}
    ensures OffAndOwed(TearDown(d, []))
  {
    ReleaseSurfaceCore(d);
    hide Core, FreePool;
    FreePoolCore(ReleaseSurface(d));
  }

  lemma FreePoolCore(s: Pool)
    requires Core(s)
    ensures FreedFrom(s, FreePool(s, []))
  {
    FreePoolKeeps(s, []);
  }

  lemma DrainsInOneRound(p: Pool, rs: seq<Release>)
    requires p.submittedCount >= 0 && DeliverAll(p, rs).submittedCount == 0
    requires p.submittedCount == 0 ==> rs == []
    ensures Drain(p, 150, [Round(false, rs, false)]) == (DeliverAll(p, rs), Success)
  {
  }

  /** Turning the output on again brings a fresh pool and forgets no callback. */
  lemma TurnOn(p: Pool)
    requires Inv(p) && OffAndOwed(p)
    ensures var q := Apply(p, ENABLE);
      && Inv(q) && q.enabled && q.surface && q.tokenLive && !q.destroyed && PoolFull(q) && AllUnused(q)
      && q.pending == p.pending && q.log == p.log
  {
    StepKeeps(p, ENABLE);
    var q := CreateSurface(p.(window := 1, width := 100, height := 100), true);
    assert Apply(p, ENABLE) == AllocateFrom(q, 0, [true, true, true]).0.(enabled := true) by {
      hide AllocateFrom;
      AllocatesAll(q);
    }
    CreateSurfaceCore(p.(window := 1, width := 100, height := 100), true);
    hide AllocateFrom, Enable, Apply;
    AllocatesAll(q);
    AllocateFromKeeps(q, 0, [true, true, true]);
  }

  const TAKE := DoAcquire(0, [])

  /** Acquire on an enabled pool whose first available slot is i. */
  lemma Takes(p: Pool, i: Index)
    requires p.enabled && p.surface && !p.destroyed && Available(p.slots[i])
    requires forall j: Index :: j < i ==> !Available(p.slots[j])
    ensures Apply(p, TAKE) == HandOut(p, i)
  {
    FirstAvailableIsFirst(p, 0);
  }

  function AllTaken(p: Pool): Pool {
    HandOut(HandOut(HandOut(p, 0), 1), 2)
  }

  lemma TakesAll(p: Pool)
    requires p.enabled && p.surface && !p.destroyed && PoolFull(p) && AllUnused(p)
    ensures Apply(Apply(Apply(p, TAKE), TAKE), TAKE) == AllTaken(p)
    ensures forall i: Index :: AllTaken(p).slots[i].state == Acquired
    ensures AllTaken(p).log == p.log + [HandedOut(0), HandedOut(1), HandedOut(2)]
  {
    Takes(p, 0);
    Takes(HandOut(p, 0), 1);
    Takes(HandOut(HandOut(p, 0), 1), 2);
  }

  lemma EmptiedSnoc(p: Pool, steps: seq<Step>, step: Step)
    ensures AllEmptied(p, steps + [step]) <==> AllEmptied(p, steps) && Emptied(Run(p, steps), step)
  {
    assert (steps + [step])[..|steps|] == steps;
  }

  lemma {:induction false} EmptiedAppend(p: Pool, a: seq<Step>, b: seq<Step>)
    ensures AllEmptied(p, a + b) <==> AllEmptied(p, a) && AllEmptied(Run(p, a), b)
    decreases |b|
  {
    hide Emptied, Apply;
    if b == [] {
      assert a + b == a;
    } else {
      var n := |b| - 1;
      EmptiedAppend(p, a, b[..n]);
      assert a + b == (a + b[..n]) + [b[n]];
      EmptiedSnoc(p, a + b[..n], b[n]);
      RunAppend(p, a, b[..n]);
    }
  }

  /** steps leads from p to q, and frees the pool only with nothing in flight. */
  ghost predicate Leads(p: Pool, steps: seq<Step>, q: Pool) {
    AllEmptied(p, steps) && Run(p, steps) == q
  }

  lemma LeadsOn(p: Pool, steps: seq<Step>, q: Pool, step: Step)
    requires Leads(p, steps, q) && Emptied(q, step)
    ensures Leads(p, steps + [step], Apply(q, step))
  {
    hide Apply, Emptied;
    EmptiedSnoc(p, steps, step);
    RunSnoc(p, steps, step);
  }

  /** Five steps after which the producer holds all slots and a callback is still owed. */
  lemma TakeOver(p: Pool) returns (more: seq<Step>, full: Pool)
    requires Inv(p) && !p.destroyed && Stale(p)
    ensures Leads(p, more, AllTaken(full))
    ensures Inv(full) && full.enabled && full.surface && full.tokenLive && !full.destroyed
    ensures PoolFull(full) && AllUnused(full) && full.pending != multiset{}
  {
    var off := TurnOff(p);
    DrainedImpliesEmptied(p, off);
    var p1 := Apply(p, off);
    TurnOn(p1);
    full := Apply(p1, ENABLE);
    TakesAll(full);
    hide Apply, Inv, Drained, AllTaken;
    LeadsOn(p, [], p, off);
    LeadsOn(p, [] + [off], p1, ENABLE);
    more := [] + [off] + [ENABLE];
    LeadsOn(p, more, full, TAKE);
    LeadsOn(p, more + [TAKE], Apply(full, TAKE), TAKE);
    LeadsOn(p, more + [TAKE] + [TAKE], Apply(Apply(full, TAKE), TAKE), TAKE);
    more := more + [TAKE] + [TAKE] + [TAKE];
  }

  lemma TakenIsOwed(full: Pool) returns (i: Index)
    requires Inv(full) && full.tokenLive && full.pending != multiset{}
    requires forall j: Index :: AllTaken(full).slots[j].state == Acquired
    ensures full.pending[i] > 0 && FreesHeld(AllTaken(full), Release(i, -1), i)
  {
    OwedMeansPending(full);
    i :| full.pending[i] > 0;
    DeliverEffect(AllTaken(full), Release(i, -1));
  }

  /** From a stale state a callback can be brought to free a held slot. */
  lemma StaleCanFreeHeld(p: Pool) returns (more: seq<Step>)
    requires Inv(p) && !p.destroyed && Stale(p)
    ensures AllEmptied(p, more) && CanFreeHeld(Run(p, more))
  {
    var full;
    more, full := TakeOver(p);
    TakesAll(full);
    var i := TakenIsOwed(full);
  }

  // ---------------------------------------------------------------------------
  // Without a stale callback none can
  // ---------------------------------------------------------------------------

  lemma ExactCannotFreeHeld(p: Pool)
    requires Core(p) && CallbacksExact(p)
    ensures !CanFreeHeld(p)
  {
    CanFreeHeldIff(p);
    hide Core, CallbacksExact;
    forall i: Index ensures !Endangered(p, i) {
      ExactOwesSubmitted(p, i);
    }
  }

  lemma ExactOwesSubmitted(p: Pool, i: Index)
    requires CallbacksExact(p)
    ensures p.pending[i] == InFlight(p.slots[i])
  {
    if i == 0 {} else if i == 1 {} else {}
  }

  lemma {:induction false} EmptiedStaysExact(p: Pool, steps: seq<Step>)
    requires Inv(p) && CallbacksExact(p) && AllEmptied(p, steps)
    ensures Inv(Run(p, steps)) && CallbacksExact(Run(p, steps))
    decreases |steps|
  {
    hide Inv, Apply, Emptied, CallbacksExact;
    if steps != [] {
      EmptiedStaysExact(p, steps[..|steps| - 1]);
      StepKeeps(Run(p, steps[..|steps| - 1]), steps[|steps| - 1]);
    }
  }

  /** Once destroy has begun no slot is handed out: what is safe stays safe. */
  lemma DestroyedStaysSafe(p: Pool, step: Step)
    requires Inv(p) && p.destroyed && !CanFreeHeld(p)
    ensures Inv(Apply(p, step)) && Apply(p, step).destroyed && !CanFreeHeld(Apply(p, step))
  {
    StepKeeps(p, step);
    CanFreeHeldIff(p);
    CanFreeHeldIff(Apply(p, step));
    DestroyedStays(p, step);
    hide Inv, Apply, CanFreeHeld, Endangered;
    forall i: Index ensures !Endangered(Apply(p, step), i) {
      DestroyedSlotSafe(p, step, i);
    }
  }

  lemma DestroyedStays(p: Pool, step: Step)
    requires Inv(p) && p.destroyed
    ensures Apply(p, step).destroyed
  {
    if step.DoDisable? { DisableOutcome(p, step.rounds, step.unlockFences); }
    hide Inv, Disable;
  }

  lemma DestroyedSlotSafe(p: Pool, step: Step, i: Index)
    requires Inv(p) && p.destroyed && !Endangered(p, i)
    ensures !Endangered(Apply(p, step), i)
  {
    if step.DoDisable? {
      DisabledSlotSafe(p, step, i);
    } else if step.DoRelease? {
      ReleaseOnlyFrees(p, step.release, i);
    }
    hide Inv, Disable, Deliver;
  }

  lemma DisabledSlotSafe(p: Pool, step: Step, i: Index)
    requires Inv(p) && step.DoDisable? && !Endangered(p, i)
    ensures !Endangered(Disable(p, step.rounds, step.unlockFences), i)
  {
    hide Core, Disable;
    DisableOutcome(p, step.rounds, step.unlockFences);
    DisableKeeps(p, step.rounds, step.unlockFences);
    if p.enabled { EmptyHoldsNothing(Disable(p, step.rounds, step.unlockFences), i); }
  }

  lemma EmptyHoldsNothing(p: Pool, i: Index)
    requires Core(p) && PoolEmpty(p)
    ensures !Held(p.slots[i])
  {
    SlotOkAt(p, i);
    hide Core;
    if i == 0 {} else if i == 1 {} else {}
  }

  lemma ReleaseOnlyFrees(p: Pool, r: Release, i: Index)
    requires Core(p)
    ensures Endangered(Deliver(p, r), i) ==> Endangered(p, i)
  {
    if r.slot in p.pending && p.tokenLive {
      DeliverEffect(p, r);
      hide Deliver, Core;
    }
  }

  lemma {:induction false} DestroyedNeverFrees(p: Pool, steps: seq<Step>)
    requires Inv(p) && p.destroyed && !CanFreeHeld(p)
    ensures var q := Run(p, steps);
      Inv(q) && q.destroyed && !CanFreeHeld(q)
    decreases |steps|
  {
    hide Inv, Apply, CanFreeHeld;
    if steps != [] {
      DestroyedNeverFrees(p, steps[..|steps| - 1]);
      DestroyedStaysSafe(Run(p, steps[..|steps| - 1]), steps[|steps| - 1]);
    }
  }

  /**
    Steps that free the pool only with nothing in flight lead to a callback that frees a
    held slot if and only if one could do so at once, or the output is not being
    destroyed and more callbacks are owed than submitted_count knows of.
   */
  lemma CanReachFreeHeldIff(p: Pool)
    requires Inv(p)
    ensures (exists more: seq<Step> :: AllEmptied(p, more) && CanFreeHeld(Run(p, more)))
            <==> CanFreeHeld(p) || (!p.destroyed && Stale(p))
  {
    hide Core, Settled, CanFreeHeld, Stale, CallbacksExact, AllEmptied, Run;
    if CanFreeHeld(p) {
      NoSteps(p);
    } else if !p.destroyed && Stale(p) {
      var more := StaleCanFreeHeld(p);
      assert AllEmptied(p, more) && CanFreeHeld(Run(p, more));
    } else {
      forall more: seq<Step> | AllEmptied(p, more) ensures !CanFreeHeld(Run(p, more)) {
        NeverFrees(p, more);
      }
    }
  }

  lemma NoSteps(p: Pool)
    ensures AllEmptied(p, []) && Run(p, []) == p
  {
  }

  lemma NeverFrees(p: Pool, more: seq<Step>)
    requires Inv(p) && !CanFreeHeld(p) && (p.destroyed || !Stale(p)) && AllEmptied(p, more)
    ensures !CanFreeHeld(Run(p, more))
  {
    hide Settled, CanFreeHeld, AllEmptied, Run;
    if p.destroyed {
      DestroyedNeverFrees(p, more);
    } else {
      StaleIff(p);
      ExactNeverFrees(p, more);
    }
  }

  lemma ExactNeverFrees(p: Pool, more: seq<Step>)
    requires Inv(p) && CallbacksExact(p) && AllEmptied(p, more)
    ensures !CanFreeHeld(Run(p, more))
  {
    EmptiedStaysExact(p, more);
    hide CallbacksExact, CanFreeHeld;
    ExactCannotFreeHeld(Run(p, more));
  }

  // ---------------------------------------------------------------------------
  // The call that brings the danger in
  // ---------------------------------------------------------------------------

  /**
    After a run that freed the pool only with nothing in flight: the next call makes it
    possible for a callback to free a held slot, as things go on the same way, if and
    only if it frees the pool with the counter above 0 and is not part of destroy.
   */
  lemma CallBringsDangerIff(zeroCopy: bool, steps: seq<Step>, step: Step)
    requires AllEmptied(Created(zeroCopy), steps)
    ensures var p := Run(Created(zeroCopy), steps);
      (exists more: seq<Step> :: AllEmptied(Apply(p, step), more) && CanFreeHeld(Run(Apply(p, step), more)))
      <==> !Emptied(p, step) && !p.destroyed
  {
    hide Core, Settled, CanFreeHeld, Stale, CallbacksExact, Exact, Emptied, Apply, AllEmptied, Run;
    var p := Run(Created(zeroCopy), steps);
    var q := Apply(p, step);
    ExactRuns(zeroCopy, steps);
    AllRuns(zeroCopy, steps);
    ExactIsCallbacksExact(p);
    StepKeeps(p, step);
    CanReachFreeHeldIff(q);
    StaleIff(q);
    if Emptied(p, step) {
      ExactIsCallbacksExact(q);
      ExactCannotFreeHeld(q);
    } else {
      FreesPoolSafely(p, step);
    }
  }

  lemma ExactIsCallbacksExact(p: Pool)
    ensures Exact(p) ==> CallbacksExact(p)
  {
  }

  /** Only disable and resize free the pool; the call itself leaves no slot held. */
  lemma FreesPoolSafely(p: Pool, step: Step)
    requires Inv(p) && !Emptied(p, step)
    ensures Apply(p, step).destroyed == p.destroyed && !CanFreeHeld(Apply(p, step))
  {
    hide Core, Drain, Disable, Resize, CanFreeHeld;
    var q := Apply(p, step);
    StepKeeps(p, step);
    CanFreeHeldIff(q);
    match step
    case DoDisable(rounds, fences) =>
      DisableOutcome(p, rounds, fences);
      forall i: Index ensures !Endangered(q, i) { EmptyHoldsNothing(q, i); }
    case DoResize(width, height, rounds, fences, allocs) =>
      ResizeOutcome(p, width, height, rounds, fences, allocs);
      forall i: Index ensures !Endangered(q, i) { UnusedHoldsNothing(q, i); }
  }

  lemma UnusedHoldsNothing(p: Pool, i: Index)
    requires AllUnused(p)
    ensures !Held(p.slots[i])
  {
    if i == 0 {} else if i == 1 {} else {}
  }
}
