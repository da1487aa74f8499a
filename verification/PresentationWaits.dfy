/**
  What the timed waits of the pool come to: when a waiting acquire is served, and when a
  drain succeeds, told by the callbacks that ran in each round alone.
 */
module PresentationWaits {
  import opened PresentationModel
  import opened PresentationInvariants
  import opened PresentationOperations
  import opened PresentationRuns

  /** The pool once the callbacks of the first k rounds have run. */
  function After(p: Pool, rounds: seq<Round>, k: nat): Pool
    requires k <= |rounds|
  {
    if k == 0 then p else DeliverAll(After(p, rounds, k - 1), rounds[k - 1].delivered)
  }

  /** A call with this timeout is still waiting when the first k rounds are over. */
  predicate Endures(timeout: nat, rounds: seq<Round>, k: nat) {
    && k <= |rounds| && (k > 0 ==> timeout > 0)
    && forall j :: 0 <= j < k ==> !rounds[j].expired && !rounds[j].timedOut
  }

  /** Having lasted k rounds, the call finds its time up before it waits again. */
  predicate TimeIsUp(timeout: nat, rounds: seq<Round>, k: nat)
    requires k <= |rounds|
  {
    timeout == 0 || k == |rounds| || rounds[k].expired
  }

  lemma {:induction false} AfterCons(p: Pool, rounds: seq<Round>, k: nat)
    requires 0 < k <= |rounds|
    ensures After(p, rounds, k) == After(DeliverAll(p, rounds[0].delivered), rounds[1..], k - 1)
  {
    hide DeliverAll;
    if k > 1 { AfterCons(p, rounds, k - 1); }
  }

  lemma EnduresCons(timeout: nat, rounds: seq<Round>, k: nat)
    requires 0 < k && Endures(timeout, rounds, k)
    ensures timeout > 0 && !rounds[0].expired && !rounds[0].timedOut && Endures(timeout, rounds[1..], k - 1)
  {
  }

  lemma {:induction false} AfterKeepsFlags(p: Pool, rounds: seq<Round>, k: nat)
    requires k <= |rounds|
    ensures After(p, rounds, k).enabled == p.enabled
  {
    if k > 0 {
      AfterKeepsFlags(p, rounds, k - 1);
      CallbacksKeepFlags(After(p, rounds, k - 1), rounds[k - 1].delivered);
    }
  }

  // ---------------------------------------------------------------------------
  // acquireBuffer
  // ---------------------------------------------------------------------------

  /** Slot i is the lowest FREE slot that has a buffer. */
  predicate Serves(p: Pool, i: Index) {
    && p.slots[i].state == Free && p.slots[i].buffer != 0
    && forall j: Index :: j < i ==> p.slots[j].state != Free || p.slots[j].buffer == 0
  }

  predicate CanServe(p: Pool) {
    exists i: Index :: p.slots[i].state == Free && p.slots[i].buffer != 0
  }

  lemma ScanServes(p: Pool)
    ensures CanServe(p) <==> FirstAvailable(p, 0).Some?
    ensures CanServe(p) ==> Serves(p, FirstAvailable(p, 0).value)
  {
    FirstAvailableIsFirst(p, 0);
    hide FirstAvailable;
    forall i: Index ensures Available(p.slots[i]) <==> p.slots[i].state == Free && p.slots[i].buffer != 0 {}
  }

  /** An acquire that found nothing so far goes on with what the callbacks left it. */
  lemma {:induction false} AcquireGoesOn(p: Pool, timeout: nat, rounds: seq<Round>, k: nat)
    requires p.enabled && Endures(timeout, rounds, k)
    requires forall j :: 0 <= j < k ==> !CanServe(After(p, rounds, j))
    ensures AcquireLoop(p, timeout, rounds) == AcquireLoop(After(p, rounds, k), timeout, rounds[k..])
    decreases k
  {
    hide DeliverAll, FirstAvailable, CanServe, After;
    if k == 0 {
      AfterNothing(p, rounds);
      assert rounds[0..] == rounds;
    } else {
      var d := DeliverAll(p, rounds[0].delivered);
      AfterNothing(p, rounds);
      assert !CanServe(After(p, rounds, 0));
      ScanServes(p);
      EnduresCons(timeout, rounds, k);
      CallbacksKeepFlags(p, rounds[0].delivered);
      forall j | 0 <= j < k - 1 ensures !CanServe(After(d, rounds[1..], j)) {
        AfterCons(p, rounds, j + 1);
      }
      AcquireGoesOn(d, timeout, rounds[1..], k - 1);
      AfterCons(p, rounds, k);
      assert rounds[1..][k - 1..] == rounds[k..];
    }
  }

  lemma AfterNothing(p: Pool, rounds: seq<Round>)
    ensures After(p, rounds, 0) == p
  {
  }

  /**
    An acquire looks for a slot on entry and again each time it is woken.  At the first
    look that finds one it gets the lowest; it times out only when it has looked in vain
    and its time is up, or the wait itself timed out, keeping what the callbacks did.
   */
  lemma AcquireAnswers(p: Pool, timeout: nat, rounds: seq<Round>, k: nat)
    requires p.enabled && p.surface && Endures(timeout, rounds, k)
    requires forall j :: 0 <= j < k ==> !CanServe(After(p, rounds, j))
    ensures var (q, result) := Acquire(p, timeout, rounds);
      var d := After(p, rounds, k);
      if CanServe(d) then
        && result.Got? && Serves(d, result.slot) && result.buffer == d.slots[result.slot].buffer
        && q == d.(slots := d.slots[result.slot := d.slots[result.slot].(state := Acquired)],
                   log := d.log + [HandedOut(result.slot)])
      else if TimeIsUp(timeout, rounds, k) then
        q == d && result == Failed(ETIMEDOUT)
      else
        rounds[k].timedOut ==> q == After(p, rounds, k + 1) && result == Failed(ETIMEDOUT)
  {
    AcquireGoesOn(p, timeout, rounds, k);
    AfterKeepsFlags(p, rounds, k);
    var d := After(p, rounds, k);
    ScanServes(d);
    if k < |rounds| {
      assert rounds[k..][0] == rounds[k] && After(p, rounds, k + 1) == DeliverAll(d, rounds[k].delivered);
    }
    hide FirstAvailable, CanServe, Serves, After, DeliverAll;
  }

  lemma {:induction false} ServedAt(p: Pool, timeout: nat, rounds: seq<Round>) returns (k: nat)
    requires p.enabled && AcquireLoop(p, timeout, rounds).1.Got?
    ensures Endures(timeout, rounds, k) && CanServe(After(p, rounds, k))
    decreases |rounds|
  {
    hide DeliverAll, FirstAvailable, CanServe, After;
    ScanServes(p);
    if FirstAvailable(p, 0).Some? {
      k := 0;
      AfterNothing(p, rounds);
    } else {
      var d := DeliverAll(p, rounds[0].delivered);
      CallbacksKeepFlags(p, rounds[0].delivered);
      var m := ServedAt(d, timeout, rounds[1..]);
      k := m + 1;
      AfterCons(p, rounds, k);
      assert forall j :: 1 <= j < k ==> rounds[j] == rounds[1..][j - 1];
    }
  }

  /** The first of the looks up to k that finds a slot. */
  lemma FirstServed(p: Pool, timeout: nat, rounds: seq<Round>, k: nat) returns (m: nat)
    requires Endures(timeout, rounds, k) && CanServe(After(p, rounds, k))
    ensures m <= k && Endures(timeout, rounds, m) && CanServe(After(p, rounds, m))
    ensures forall j :: 0 <= j < m ==> !CanServe(After(p, rounds, j))
  {
    hide CanServe, After;
    m := 0;
    while !CanServe(After(p, rounds, m))
      invariant m <= k && forall j :: 0 <= j < m ==> !CanServe(After(p, rounds, j))
      decreases k - m
    {
      m := m + 1;
    }
  }

  /** An acquire gets a slot if and only if one is FREE with a buffer at one of its looks. */
  lemma AcquireServedIff(p: Pool, timeout: nat, rounds: seq<Round>)
    requires p.enabled && p.surface
    ensures Acquire(p, timeout, rounds).1.Got?
            <==> exists k: nat :: Endures(timeout, rounds, k) && CanServe(After(p, rounds, k))
  {
    hide AcquireLoop, CanServe, After;
    if Acquire(p, timeout, rounds).1.Got? {
      var k := ServedAt(p, timeout, rounds);
    } else if k: nat :| Endures(timeout, rounds, k) && CanServe(After(p, rounds, k)) {
      var m := FirstServed(p, timeout, rounds, k);
      AcquireAnswers(p, timeout, rounds, m);
    }
  }

  // ---------------------------------------------------------------------------
  // The drain
  // ---------------------------------------------------------------------------

  lemma {:induction false} DrainGoesOn(p: Pool, timeout: nat, rounds: seq<Round>, k: nat)
    requires Endures(timeout, rounds, k)
    requires forall j :: 0 <= j < k ==> After(p, rounds, j).submittedCount > 0
    ensures Drain(p, timeout, rounds) == Drain(After(p, rounds, k), timeout, rounds[k..])
    decreases k
  {
    hide DeliverAll, After;
    if k == 0 {
      AfterNothing(p, rounds);
      assert rounds[0..] == rounds;
    } else {
      var d := DeliverAll(p, rounds[0].delivered);
      AfterNothing(p, rounds);
      assert After(p, rounds, 0).submittedCount > 0;
      EnduresCons(timeout, rounds, k);
      forall j | 0 <= j < k - 1 ensures After(d, rounds[1..], j).submittedCount > 0 {
        AfterCons(p, rounds, j + 1);
      }
      DrainGoesOn(d, timeout, rounds[1..], k - 1);
      AfterCons(p, rounds, k);
      assert rounds[1..][k - 1..] == rounds[k..];
    }
  }

  /**
    A drain looks at submitted_count_ on entry and again each time it is woken.  It
    returns 0 at the first look that finds it at 0, and times out only when it has not
    and its time is up, or the wait itself timed out.
   */
  lemma DrainAnswers(p: Pool, timeout: nat, rounds: seq<Round>, k: nat)
    requires Endures(timeout, rounds, k)
    requires forall j :: 0 <= j < k ==> After(p, rounds, j).submittedCount > 0
    ensures var d := After(p, rounds, k);
      if d.submittedCount <= 0 then Drain(p, timeout, rounds) == (d, Success)
      else if TimeIsUp(timeout, rounds, k) then Drain(p, timeout, rounds) == (d, ETIMEDOUT)
      else rounds[k].timedOut ==> Drain(p, timeout, rounds) == (After(p, rounds, k + 1), ETIMEDOUT)
  {
    DrainGoesOn(p, timeout, rounds, k);
    var d := After(p, rounds, k);
    if k < |rounds| {
      assert rounds[k..][0] == rounds[k] && After(p, rounds, k + 1) == DeliverAll(d, rounds[k].delivered);
    }
    hide After, DeliverAll;
  }

  lemma {:induction false} DrainedAt(p: Pool, timeout: nat, rounds: seq<Round>) returns (k: nat)
    requires Drain(p, timeout, rounds).1 == Success
    ensures Endures(timeout, rounds, k) && After(p, rounds, k).submittedCount <= 0
    decreases |rounds|
  {
    hide DeliverAll, After;
    if p.submittedCount <= 0 {
      k := 0;
      AfterNothing(p, rounds);
    } else {
      var m := DrainedAt(DeliverAll(p, rounds[0].delivered), timeout, rounds[1..]);
      k := m + 1;
      AfterCons(p, rounds, k);
      assert forall j :: 1 <= j < k ==> rounds[j] == rounds[1..][j - 1];
    }
  }

  /** A drain returns 0 if and only if the counter is at 0 at one of its looks. */
  lemma DrainSucceedsIff(p: Pool, timeout: nat, rounds: seq<Round>)
    ensures Drain(p, timeout, rounds).1 == Success
            <==> exists k: nat :: Endures(timeout, rounds, k) && After(p, rounds, k).submittedCount <= 0
  {
    hide Drain, After;
    if Drain(p, timeout, rounds).1 == Success {
      var k := DrainedAt(p, timeout, rounds);
    } else if k: nat :| Endures(timeout, rounds, k) && After(p, rounds, k).submittedCount <= 0 {
      var m := FirstDrained(p, timeout, rounds, k);
      DrainAnswers(p, timeout, rounds, m);
    }
  }

  lemma FirstDrained(p: Pool, timeout: nat, rounds: seq<Round>, k: nat) returns (m: nat)
    requires Endures(timeout, rounds, k) && After(p, rounds, k).submittedCount <= 0
    ensures m <= k && Endures(timeout, rounds, m) && After(p, rounds, m).submittedCount <= 0
    ensures forall j :: 0 <= j < m ==> After(p, rounds, j).submittedCount > 0
  {
    hide After;
    m := 0;
    while After(p, rounds, m).submittedCount > 0
      invariant m <= k && forall j :: 0 <= j < m ==> After(p, rounds, j).submittedCount > 0
      decreases k - m
    {
      m := m + 1;
    }
  }

  // ---------------------------------------------------------------------------
  // The calls that drain first
  // ---------------------------------------------------------------------------

  /** setWindow to another window drains exactly when there is a surface, and touches no slot itself. */
  lemma SetWindowDrains(p: Pool, window: nat, rounds: seq<Round>, surfaceOk: bool)
    requires window != p.window
    ensures var q := SetWindow(p, window, rounds, surfaceOk);
      var d := if p.surface then Drain(p, 250, rounds).0 else p;
      && q == d.(window := window, surface := q.surface, ledger := q.ledger)
      && q.ledger == d.ledger.(surfacesCreated := q.ledger.surfacesCreated,
                               surfacesReleased := q.ledger.surfacesReleased)
  {
    hide Drain;
  }
}
