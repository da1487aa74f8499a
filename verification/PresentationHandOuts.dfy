/**
  When a slot can be handed out twice without having come back: the exact condition of
  the call that makes it possible.
 */
module PresentationHandOuts {
  import opened PresentationModel
  import opened PresentationInvariants
  import opened PresentationOperations
  import opened PresentationHistory
  import opened PresentationRuns
  import opened PresentationCalls
  import opened PresentationStale

  /** Slot i was handed out at a and again at b, and never went back to the pool between. */
  predicate HandedOutTwice(log: seq<Event>, i: nat, a: nat, b: nat) {
    && a < b < |log| && log[a] == HandedOut(i) && log[b] == HandedOut(i)
    && forall r :: a < r < b ==> !GivenBack(log, i, a, r)
  }

  ghost predicate DoubleHandOut(log: seq<Event>) {
    exists i: Index, a: nat, b: nat :: HandedOutTwice(log, i, a, b)
  }

  // ---------------------------------------------------------------------------
  // A stale callback can be brought to cause one
  // ---------------------------------------------------------------------------

  lemma TwiceInLog(log: seq<Event>, i: Index, again: seq<Event>)
    requires again == log + [HandedOut(0), HandedOut(1), HandedOut(2)] + [Returned(i)] + [HandedOut(i)]
    ensures DoubleHandOut(again)
  {
    var a, b := |log| + i, |log| + 4;
    assert again[|log|] == HandedOut(0) && again[|log| + 1] == HandedOut(1) && again[|log| + 2] == HandedOut(2);
    assert again[|log| + 3] == Returned(i) && again[b] == HandedOut(i);
    assert again[a] == HandedOut(i);
    assert forall r :: a < r < b ==> !GivenBack(again, i, a, r);
    assert HandedOutTwice(again, i, a, b);
  }

  /** The one slot a callback freed is handed out again. */
  lemma TakenAgain(full: Pool, i: Index)
    requires Inv(full) && full.enabled && full.surface && full.tokenLive && !full.destroyed && PoolFull(full)
    requires full.pending[i] > 0
    requires forall j: Index :: AllTaken(full).slots[j].state == Acquired
    requires AllTaken(full).log == full.log + [HandedOut(0), HandedOut(1), HandedOut(2)]
    ensures DoubleHandOut(Apply(Apply(AllTaken(full), DoRelease(Release(i, -1))), TAKE).log)
  {
    var taken, r := AllTaken(full), Release(i, -1);
    DeliverEffect(taken, r);
    var freed := Deliver(taken, r);
    Takes(freed, i);
    TwiceInLog(full.log, i, HandOut(freed, i).log);
  }

  lemma StaleHandsOutTwice(p: Pool) returns (more: seq<Step>)
    requires Inv(p) && !p.destroyed && Stale(p)
    ensures AllEmptied(p, more) && DoubleHandOut(Run(p, more).log)
  {
    var steps, full := TakeOver(p);
    TakesAll(full);
    var i := TakenIsOwed(full);
    TakenAgain(full, i);
    hide Apply, Inv, AllTaken, DoubleHandOut;
    var release := DoRelease(Release(i, -1));
    LeadsOn(p, steps, AllTaken(full), release);
    LeadsOn(p, steps + [release], Apply(AllTaken(full), release), TAKE);
    more := steps + [release] + [TAKE];
  }

  // ---------------------------------------------------------------------------
  // Nothing is handed out once destroy has begun
  // ---------------------------------------------------------------------------

  /** b continues a without handing anything out. */
  predicate NoNewHandOut(a: seq<Event>, b: seq<Event>) {
    |a| <= |b| && b[..|a|] == a && forall k :: |a| <= k < |b| ==> !b[k].HandedOut?
  }

  lemma NoNewTransitive(a: seq<Event>, b: seq<Event>, c: seq<Event>)
    requires NoNewHandOut(a, b) && NoNewHandOut(b, c)
    ensures NoNewHandOut(a, c)
  {
    assert c[..|b|][..|a|] == c[..|a|];
    forall k | |a| <= k < |c| ensures !c[k].HandedOut? {
      if k < |b| { assert c[k] == c[..|b|][k]; }
    }
  }

  lemma CallbackLog(p: Pool, r: Release)
    ensures NoNewHandOut(p.log, Deliver(p, r).log)
  {
    assert Deliver(p, r).log == p.log || Deliver(p, r).log == p.log + [Returned(r.slot)];
    hide Deliver;
  }

  lemma {:induction false} CallbacksHandNothingOut(p: Pool, rs: seq<Release>)
    ensures NoNewHandOut(p.log, DeliverAll(p, rs).log)
    decreases |rs|
  {
    if rs == [] {
      assert NoNewHandOut(p.log, p.log);
    } else {
      hide Deliver, NoNewHandOut;
      CallbackLog(p, rs[0]);
      CallbacksHandNothingOut(Deliver(p, rs[0]), rs[1..]);
      NoNewTransitive(p.log, Deliver(p, rs[0]).log, DeliverAll(p, rs).log);
    }
  }

  lemma {:induction false} DrainHandsNothingOut(p: Pool, timeout: nat, rounds: seq<Round>)
    ensures NoNewHandOut(p.log, Drain(p, timeout, rounds).0.log)
    decreases |rounds|
  {
    if p.submittedCount > 0 && !Expired(timeout, rounds) {
      var d := DeliverAll(p, rounds[0].delivered);
      CallbacksHandNothingOut(p, rounds[0].delivered);
      if !rounds[0].timedOut {
        DrainHandsNothingOut(d, timeout, rounds[1..]);
        NoNewTransitive(p.log, d.log, Drain(p, timeout, rounds).0.log);
      }
    }
  }

  lemma DisableHandsNothingOut(p: Pool, rounds: seq<Round>, fences: seq<int>)
    requires Inv(p)
    ensures NoNewHandOut(p.log, Disable(p, rounds, fences).log)
  {
    if p.enabled {
      hide NoNewHandOut, FreePool, Drain, Core;
      var off := p.(enabled := false);
      OffKeeps(p);
      DrainKeeps(off, 150, rounds);
      DrainHandsNothingOut(off, 150, rounds);
      var d := Drain(off, 150, rounds).0;
      ReleaseSurfaceCore(d);
      FreePoolKeepsLog(ReleaseSurface(d), fences);
      NoNewTransitive(p.log, d.log, Disable(p, rounds, fences).log);
    } else {
      assert NoNewHandOut(p.log, p.log);
    }
  }

  lemma FreePoolKeepsLog(s: Pool, fences: seq<int>)
    requires Core(s)
    ensures NoNewHandOut(s.log, FreePool(s, fences).log)
  {
    FreePoolKeeps(s, fences);
    hide FreePool;
  }

  lemma {:induction false} DestroyedHandsNothingOut(p: Pool, steps: seq<Step>)
    requires Inv(p) && p.destroyed
    ensures var q := Run(p, steps);
      Inv(q) && q.destroyed && NoNewHandOut(p.log, q.log)
    decreases |steps|
  {
    if steps != [] {
      hide Inv, Disable, Deliver, NoNewHandOut;
      var front, step := steps[..|steps| - 1], steps[|steps| - 1];
      var before := Run(p, front);
      DestroyedHandsNothingOut(p, front);
      StepKeeps(before, step);
      DestroyedStays(before, step);
      DestroyedStepHandsNothingOut(before, step);
      NoNewTransitive(p.log, before.log, Apply(before, step).log);
    }
  }

  lemma DestroyedStepHandsNothingOut(p: Pool, step: Step)
    requires Inv(p) && p.destroyed
    ensures NoNewHandOut(p.log, Apply(p, step).log)
  {
    hide Inv, Disable, Deliver;
    if step.DoDisable? {
      DisableHandsNothingOut(p, step.rounds, step.unlockFences);
    } else if step.DoRelease? {
      CallbackLog(p, step.release);
    } else {
      assert Apply(p, step).log == p.log;
    }
  }

  lemma TwiceStaysInPrefix(a: seq<Event>, b: seq<Event>)
    requires NoNewHandOut(a, b) && !DoubleHandOut(a)
    ensures !DoubleHandOut(b)
  {
    forall i: Index, x: nat, y: nat ensures !HandedOutTwice(b, i, x, y) {
      if HandedOutTwice(b, i, x, y) {
        assert y < |a|;
        PrefixTwice(a, b, i, x, y);
        assert false;
      }
    }
  }

  lemma PrefixTwice(a: seq<Event>, b: seq<Event>, i: Index, x: nat, y: nat)
    requires |a| <= |b| && b[..|a|] == a && y < |a| && HandedOutTwice(b, i, x, y)
    ensures HandedOutTwice(a, i, x, y)
  {
    assert forall k :: 0 <= k < |a| ==> a[k] == b[k];
    forall r | x < r < y ensures !GivenBack(a, i, x, r) {
      assert !GivenBack(b, i, x, r);
    }
  }

  // ---------------------------------------------------------------------------
  // The exact condition
  // ---------------------------------------------------------------------------

  lemma EmptiedRunsHandOutOnce(zeroCopy: bool, steps: seq<Step>)
    requires AllEmptied(Created(zeroCopy), steps)
    ensures !DoubleHandOut(Run(Created(zeroCopy), steps).log)
  {
    var log := Run(Created(zeroCopy), steps).log;
    hide Run, AllEmptied;
    forall i: Index, a: nat, b: nat ensures !HandedOutTwice(log, i, a, b) {
      if HandedOutTwice(log, i, a, b) {
        NoDoubleHandOut(zeroCopy, steps, log, i, a, b);
        assert false;
      }
    }
  }

  /**
    After a run that freed the pool only with nothing in flight: the next call makes it
    possible that a slot is handed out twice, as things go on the same way, if and only
    if it frees the pool with the counter above 0 and is not part of destroy.
   */
  lemma CallBringsDoubleHandOutIff(zeroCopy: bool, steps: seq<Step>, step: Step)
    requires AllEmptied(Created(zeroCopy), steps)
    ensures var p := Run(Created(zeroCopy), steps);
      (exists more: seq<Step> :: AllEmptied(Apply(p, step), more) && DoubleHandOut(Run(Apply(p, step), more).log))
      <==> !Emptied(p, step) && !p.destroyed
  {
    hide Core, Settled, Apply, Emptied, Run, AllEmptied, DoubleHandOut, CallbacksExact, Exact, Stale;
    var p := Run(Created(zeroCopy), steps);
    var q := Apply(p, step);
    ExactRuns(zeroCopy, steps);
    AllRuns(zeroCopy, steps);
    ExactIsCallbacksExact(p);
    StepKeeps(p, step);
    if !Emptied(p, step) && !p.destroyed {
      FreesPoolSafely(p, step);
      StaleIff(q);
      var more := StaleHandsOutTwice(q);
      assert AllEmptied(q, more) && DoubleHandOut(Run(q, more).log);
    } else {
      forall more: seq<Step> | AllEmptied(q, more) ensures !DoubleHandOut(Run(q, more).log) {
        if Emptied(p, step) {
          EmptiedSnoc(Created(zeroCopy), steps, step);
          RunSnoc(Created(zeroCopy), steps, step);
          EmptiedAppend(Created(zeroCopy), steps + [step], more);
          RunAppend(Created(zeroCopy), steps + [step], more);
          EmptiedRunsHandOutOnce(zeroCopy, steps + [step] + more);
        } else {
          EmptiedRunsHandOutOnce(zeroCopy, steps);
          DestroyedHandsNothingOut(p, [step] + more);
          RunCons(p, step, more);
          TwiceStaysInPrefix(p.log, Run(q, more).log);
        }
      }
    }
  }
}
