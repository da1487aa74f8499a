/**
  destroy racing any number of release callbacks, at the grain of single lock
  operations.

  Two mutexes: token_mutex, in the shared lifetime token, and the backend's own mutex_.
  A callback holds a weak pointer to the token; it takes token_mutex, and mutex_ inside
  it.  The destroyer takes mutex_ three times (destroy, disable, and destroy again from
  the destructor), token_mutex once in between, and finally frees the backend, which
  drops its reference to the token.
 */
module DestroyProtocol {

  /** Where a callback is. */
  datatype CallbackAt =
    | NotFired          // registered with Android
    | Expired           // the weak pointer could not be locked
    | WantsToken        // holds a reference to the token, waits for token_mutex
    | HasToken          // about to test is_alive and backend
    | WantsBackend      // called onBufferReleasedInternal, waits for mutex_ inside it
    | InBackend         // holds both mutexes
    | LeftBackend       // back in handleBufferRelease, the fence closed
    | TooLate           // found the token nulled
    | Finished

  /** Where the thread that destroys the handle is. */
  datatype DestroyerAt =
    | Start             // waits for mutex_
    | Marking           // holds mutex_, sets is_destroyed_
    | BeforeDisable     // waits for mutex_
    | Draining          // holds mutex_, at the head of the drain loop
    | Waiting           // in cv_.wait_for, mutex_ released
    | Waking            // the wait is over, waits for mutex_
    | Freeing           // holds mutex_, the drain is over
    | BeforeToken       // disable has returned, waits for token_mutex
    | Nulling           // holds token_mutex
    | InDestructor      // waits for mutex_, to find is_destroyed_ set
    | Returning         // holds mutex_ for the last time
    | Gone              // the backend's memory is freed

  datatype Callback = Callback(at: CallbackAt, fence: int, closed: nat, entered: bool)

  datatype Owner = Nobody | Destroyer | Thread(index: nat)

  /**
    patience is what is left of the drain's timeout: the clock never goes back, and a
    drain whose time is up stops waiting.
   */
  datatype State = State(
    callbacks: seq<Callback>, destroyer: DestroyerAt,
    tokenMutex: Owner, backendMutex: Owner,
    isDestroyed: bool, tokenBackend: bool, freed: bool,
    submittedCount: nat, patience: nat)

  predicate Initial(s: State) {
    && s.destroyer == Start && s.tokenMutex == Nobody && s.backendMutex == Nobody
    && !s.isDestroyed && s.tokenBackend && !s.freed
    && forall i :: 0 <= i < |s.callbacks| ==>
         s.callbacks[i].at == NotFired && s.callbacks[i].closed == 0 && !s.callbacks[i].entered
  }

  /** The token exists while the backend or some callback holds a reference to it. */
  predicate HoldsReference(at: CallbackAt) {
    (at.WantsToken? || at.HasToken? || at.WantsBackend? || at.InBackend? || at.LeftBackend? || at.TooLate?)
  }

  predicate TokenExists(s: State) {
    !s.freed || exists i :: 0 <= i < |s.callbacks| && HoldsReference(s.callbacks[i].at)
  }

  function Close(c: Callback): Callback {
    if c.fence >= 0 then c.(closed := c.closed + 1) else c
  }

  /** Callback i is not finished and the mutex it needs next is free. */
  predicate CallbackReady(s: State, i: nat)
    requires i < |s.callbacks|
  {
    match s.callbacks[i].at
    case WantsToken => s.tokenMutex == Nobody
    case WantsBackend => s.backendMutex == Nobody
    case Finished => false
    case _ => true
  }

  /** Callback i after its next step. */
  function NextCallback(s: State, c: Callback): Callback {
    match c.at
    case NotFired => c.(at := if TokenExists(s) then WantsToken else Expired)
    case Expired => Close(c).(at := Finished)
    case WantsToken => c.(at := HasToken)
    case HasToken => c.(at := if s.tokenBackend then WantsBackend else TooLate)
    case WantsBackend => c.(at := InBackend, entered := true)
    case InBackend => Close(c).(at := LeftBackend)
    case LeftBackend => c.(at := Finished)
    case TooLate => Close(c).(at := Finished)
    case Finished => c
  }

  function AfterCallback(s: State, i: nat): State
    requires i < |s.callbacks|
  {
    var at := s.callbacks[i].at;
    s.(callbacks := s.callbacks[i := NextCallback(s, s.callbacks[i])],
       tokenMutex := if at.WantsToken? then Thread(i)
                     else if at.LeftBackend? || at.TooLate? then Nobody else s.tokenMutex,
       backendMutex := if at.WantsBackend? then Thread(i)
                       else if at.InBackend? then Nobody else s.backendMutex,
       submittedCount := if at.InBackend? && s.submittedCount > 0 then s.submittedCount - 1
                         else s.submittedCount)
  }

  predicate CallbackSteps(s: State, i: nat, t: State)
    requires i < |s.callbacks|
  {
    CallbackReady(s, i) && t == AfterCallback(s, i)
  }

  /** What the destroyer can do next; enabled is is_enabled_ when disable tests it. */
  predicate DestroyerSteps(s: State, enabled: bool, t: State) {
    match s.destroyer
    case Start => s.backendMutex == Nobody && t == s.(destroyer := Marking, backendMutex := Destroyer)
    case Marking => t == s.(destroyer := BeforeDisable, backendMutex := Nobody, isDestroyed := true)
    case BeforeDisable =>
      s.backendMutex == Nobody
      && t == (if enabled then s.(destroyer := Draining, backendMutex := Destroyer)
               else s.(destroyer := BeforeToken))
    case Draining =>
      t == (if s.submittedCount == 0 || s.patience == 0 then s.(destroyer := Freeing)
            else s.(destroyer := Waiting, backendMutex := Nobody))
    case Waiting =>
      // woken, spuriously or not, or timed out; some time may have passed
      t == s.(destroyer := Waking, patience := t.patience) && t.patience <= s.patience
    case Waking => s.backendMutex == Nobody && t == s.(destroyer := Draining, backendMutex := Destroyer)
    case Freeing => t == s.(destroyer := BeforeToken, backendMutex := Nobody, submittedCount := 0)
    case BeforeToken =>
      s.tokenMutex == Nobody && t == s.(destroyer := Nulling, tokenMutex := Destroyer)
    case Nulling => t == s.(destroyer := InDestructor, tokenMutex := Nobody, tokenBackend := false)
    case InDestructor =>
      s.backendMutex == Nobody && t == s.(destroyer := Returning, backendMutex := Destroyer)
    case Returning => t == s.(destroyer := Gone, backendMutex := Nobody, freed := true)
    case Gone => false
  }

  predicate Steps(s: State, t: State) {
    || (exists i :: 0 <= i < |s.callbacks| && CallbackSteps(s, i, t))
    || DestroyerSteps(s, true, t)
    || DestroyerSteps(s, false, t)
  }

  /** Some thread took the step from run[k - 1] to run[k]. */
  predicate Linked(run: seq<State>, k: int)
    requires 0 < k < |run|
  {
    Steps(run[k - 1], run[k])
  }

  predicate IsRun(run: seq<State>) {
    |run| > 0 && Initial(run[0]) && forall k :: 0 < k < |run| ==> Linked(run, k)
  }

  // ---------------------------------------------------------------------------
  // The invariant
  // ---------------------------------------------------------------------------

  predicate HoldsToken(at: CallbackAt) {
    (at.HasToken? || at.WantsBackend? || at.InBackend? || at.LeftBackend? || at.TooLate?)
  }

  predicate FenceClosed(at: CallbackAt) {
    (at.LeftBackend? || at.Finished?)
  }

  predicate CallbackOk(s: State, i: nat)
    requires i < |s.callbacks|
  {
    var c := s.callbacks[i];
    && (s.tokenMutex == Thread(i) <==> HoldsToken(c.at))
    && (s.backendMutex == Thread(i) <==> c.at == InBackend)
    && ((c.at.WantsBackend? || c.at.InBackend?) ==> s.tokenBackend)
    && c.closed == (if c.fence >= 0 && FenceClosed(c.at) then 1 else 0)
    && (c.at != Finished ==> (c.entered <==> c.at == InBackend || c.at == LeftBackend))
  }

  predicate DestroyerHoldsBackend(at: DestroyerAt) {
    (at.Marking? || at.Draining? || at.Freeing? || at.Returning?)
  }

  predicate BeforeNull(at: DestroyerAt) {
    || at.Start? || at.Marking? || at.BeforeDisable? || at.Draining? || at.Waiting? || at.Waking?
    || at.Freeing? || at.BeforeToken? || at.Nulling?
  }

  predicate DestroyerOk(s: State) {
    && (s.tokenMutex == Destroyer <==> s.destroyer == Nulling)
    && (s.backendMutex == Destroyer <==> DestroyerHoldsBackend(s.destroyer))
    && (s.tokenMutex.Thread? ==> s.tokenMutex.index < |s.callbacks|)
    && (s.backendMutex.Thread? ==> s.backendMutex.index < |s.callbacks|)
    && (s.tokenBackend <==> BeforeNull(s.destroyer))
    && (s.isDestroyed <==> (!s.destroyer.Start? && !s.destroyer.Marking?))
    && (s.freed <==> s.destroyer == Gone)
    && (s.destroyer == Waiting ==> s.patience > 0)
    && (s.destroyer == Freeing ==> s.submittedCount == 0 || s.patience == 0)
  }

  predicate Inv(s: State) {
    DestroyerOk(s) && forall i :: 0 <= i < |s.callbacks| ==> CallbackOk(s, i)
  }

  /** What another thread's step may do to the mutexes, seen from callback j. */
  predicate LeavesAlone(s: State, t: State, j: nat) {
    && (t.tokenMutex == Thread(j) <==> s.tokenMutex == Thread(j))
    && (t.backendMutex == Thread(j) <==> s.backendMutex == Thread(j))
    && t.tokenBackend == s.tokenBackend
  }

  lemma CallbackStepLocal(s: State, i: nat, t: State)
    requires DestroyerOk(s) && i < |s.callbacks| && CallbackOk(s, i) && CallbackSteps(s, i, t)
    ensures |t.callbacks| == |s.callbacks| && CallbackOk(t, i)
    ensures t.callbacks == s.callbacks[i := t.callbacks[i]]
  {
    hide TokenExists;
  }

  lemma CallbackStepFrame(s: State, i: nat, t: State)
    requires DestroyerOk(s) && i < |s.callbacks| && CallbackOk(s, i) && CallbackSteps(s, i, t)
    ensures DestroyerOk(t)
    ensures forall j: nat :: j != i ==> LeavesAlone(s, t, j)
  {
    hide TokenExists, Close;
  }

  lemma CallbackStepKeeps(s: State, i: nat, t: State)
    requires Inv(s) && i < |s.callbacks| && CallbackSteps(s, i, t)
    ensures Inv(t)
  {
    assert CallbackOk(s, i);
    CallbackStepLocal(s, i, t);
    CallbackStepFrame(s, i, t);
    hide CallbackSteps;
    forall j | 0 <= j < |t.callbacks| ensures CallbackOk(t, j) {
      assert CallbackOk(s, j);
      assert j != i ==> LeavesAlone(s, t, j);
    }
  }

  lemma DestroyerStepKeeps(s: State, enabled: bool, t: State)
    requires Inv(s) && DestroyerSteps(s, enabled, t)
    ensures Inv(t)
  {
    forall j | 0 <= j < |t.callbacks| ensures CallbackOk(t, j) {
      assert CallbackOk(s, j);
    }
  }

  lemma StepKeeps(s: State, t: State)
    requires Inv(s) && Steps(s, t)
    ensures Inv(t)
  {
    if i :| 0 <= i < |s.callbacks| && CallbackSteps(s, i, t) {
      CallbackStepKeeps(s, i, t);
    } else if DestroyerSteps(s, true, t) {
      DestroyerStepKeeps(s, true, t);
    } else {
      DestroyerStepKeeps(s, false, t);
    }
  }

  lemma {:induction false} RunKeeps(run: seq<State>, k: nat)
    requires IsRun(run) && k < |run|
    ensures Inv(run[k])
  {
    if k > 0 {
      RunKeeps(run, k - 1);
      assert Linked(run, k);
      StepKeeps(run[k - 1], run[k]);
    }
  }

  // ---------------------------------------------------------------------------
  // Safety
  // ---------------------------------------------------------------------------

  /**
    In every interleaving, a callback that is in onBufferReleasedInternal, or waiting for
    its mutex, finds the backend alive; and no fence is closed twice.
   */
  lemma CallbacksEnterLiveBackend(run: seq<State>, k: nat, i: nat)
    requires IsRun(run) && k < |run| && i < |run[k].callbacks|
    ensures var c := run[k].callbacks[i];
      && ((c.at.WantsBackend? || c.at.InBackend?) ==> !run[k].freed && run[k].tokenBackend)
      && c.closed <= 1
      && (c.at == Finished ==> c.closed == (if c.fence >= 0 then 1 else 0))
  {
    RunKeeps(run, k);
    assert CallbackOk(run[k], i);
  }

  /** No callback has entered the backend since s, and its counter is as it was. */
  predicate NothingEntered(s: State, t: State) {
    && t.submittedCount == s.submittedCount && |t.callbacks| == |s.callbacks|
    && forall i :: 0 <= i < |s.callbacks| ==> t.callbacks[i].entered == s.callbacks[i].entered
  }

  lemma AfterNullStep(s: State, t: State)
    requires Inv(s) && Steps(s, t) && !s.tokenBackend
    ensures !t.tokenBackend && NothingEntered(s, t)
  {
    if i :| 0 <= i < |s.callbacks| && CallbackSteps(s, i, t) {
      hide TokenExists, Close;
      assert CallbackOk(s, i);
    }
  }

  lemma NothingEnteredTransitive(s: State, t: State, u: State)
    requires NothingEntered(s, t) && NothingEntered(t, u)
    ensures NothingEntered(s, u)
  {
  }

  ghost predicate FrozenSince(s: State, t: State) {
    !t.tokenBackend && NothingEntered(s, t)
  }

  lemma FrozenOneMore(s: State, t: State, u: State)
    requires Inv(t) && FrozenSince(s, t) && Steps(t, u)
    ensures FrozenSince(s, u)
  {
    AfterNullStep(t, u);
    NothingEnteredTransitive(s, t, u);
  }

  /** Once the token is nulled no callback enters the backend; it only closes its fence. */
  lemma {:induction false} AfterNullNothingEnters(run: seq<State>, j: nat, k: nat)
    requires IsRun(run) && j <= k < |run| && !run[j].tokenBackend
    ensures FrozenSince(run[j], run[k])
    decreases k
  {
    if j < k {
      assert Linked(run, k);
      hide FrozenSince, Steps;
      AfterNullNothingEnters(run, j, k - 1);
      RunKeeps(run, k - 1);
      FrozenOneMore(run[j], run[k - 1], run[k]);
    }
  }

  /**
    Where a callback must end that found the token alive, or nulled: it enters the
    backend, or it does not.
   */
  predicate Promised(s: State, i: nat, alive: bool) {
    i < |s.callbacks| &&
    match s.callbacks[i].at
    case HasToken => s.tokenBackend == alive
    case WantsBackend => alive
    case InBackend => alive
    case LeftBackend => alive
    case TooLate => !alive
    case Finished => s.callbacks[i].entered == alive
    case _ => false
  }

  lemma PromiseStep(s: State, t: State, i: nat, alive: bool)
    requires Inv(s) && Steps(s, t) && Promised(s, i, alive)
    ensures Promised(t, i, alive)
  {
    assert CallbackOk(s, i);
    if j :| 0 <= j < |s.callbacks| && CallbackSteps(s, j, t) {
      hide TokenExists, Close;
      if j == i {
        OwnPromiseStep(s, t, i, alive);
      } else {
        assert t.callbacks[i] == s.callbacks[i] && t.tokenBackend == s.tokenBackend;
      }
    } else {
      assert DestroyerSteps(s, true, t) || DestroyerSteps(s, false, t);
    }
  }

  lemma OwnPromiseStep(s: State, t: State, i: nat, alive: bool)
    requires Promised(s, i, alive) && CallbackOk(s, i) && CallbackSteps(s, i, t)
    ensures Promised(t, i, alive)
  {
    hide TokenExists;
  }

  /**
    A callback that got token_mutex before the token was nulled does reach the backend,
    whatever the destroyer does meanwhile; one that got it after does not.
   */
  lemma {:induction false} EntersIffAlive(run: seq<State>, j: nat, k: nat, i: nat)
    requires IsRun(run) && j <= k < |run| && i < |run[j].callbacks| && run[j].callbacks[i].at == HasToken
    ensures Promised(run[k], i, run[j].tokenBackend)
    decreases k
  {
    if j < k {
      EntersIffAlive(run, j, k - 1, i);
      RunKeeps(run, k - 1);
      assert Linked(run, k);
      hide Promised, Inv, Steps, IsRun;
      PromiseStep(run[k - 1], run[k], i, run[j].tokenBackend);
    }
  }

  /** Each callback that leaves the backend has lowered its counter by one, if there was any left. */
  lemma LeavingCounts(run: seq<State>, k: nat, i: nat)
    requires IsRun(run) && k + 1 < |run| && i < |run[k].callbacks| && run[k].callbacks[i].at == InBackend
    requires i < |run[k + 1].callbacks| && run[k + 1].callbacks[i].at == LeftBackend
    ensures run[k + 1].submittedCount == if run[k].submittedCount > 0 then run[k].submittedCount - 1 else 0
  {
    RunKeeps(run, k);
    assert Linked(run, k + 1) && CallbackOk(run[k], i);
    var s, t := run[k], run[k + 1];
    if j :| 0 <= j < |s.callbacks| && CallbackSteps(s, j, t) {
      hide TokenExists, Close;
      assert CallbackOk(s, j);
    }
  }

  /** The pool is freed only with nothing counted in flight, or no time left to wait. */
  lemma FreesDrained(run: seq<State>, k: nat)
    requires IsRun(run) && k < |run| && run[k].destroyer == Freeing
    ensures run[k].submittedCount == 0 || run[k].patience == 0
  {
    RunKeeps(run, k);
  }

  // ---------------------------------------------------------------------------
  // Lock order
  // ---------------------------------------------------------------------------

  datatype Mutex = TokenMutex | BackendMutex

  function OwnerOf(s: State, m: Mutex): Owner {
    match m case TokenMutex => s.tokenMutex case BackendMutex => s.backendMutex
  }

  /** The mutex a thread is waiting to take, if it is. */
  predicate WaitsFor(s: State, who: Owner, m: Mutex) {
    match who
    case Nobody => false
    case Destroyer =>
      if m == TokenMutex then s.destroyer == BeforeToken
      else (s.destroyer.Start? || s.destroyer.BeforeDisable? || s.destroyer.Waking? || s.destroyer.InDestructor?)
    case Thread(i) =>
      i < |s.callbacks| && s.callbacks[i].at == (if m == TokenMutex then WantsToken else WantsBackend)
  }

  /** Whoever holds a mutex while waiting for one holds token_mutex and waits for mutex_. */
  lemma LockOrder(run: seq<State>, k: nat, who: Owner, held: Mutex, wanted: Mutex)
    requires IsRun(run) && k < |run|
    requires who != Nobody && OwnerOf(run[k], held) == who && WaitsFor(run[k], who, wanted)
    ensures held == TokenMutex && wanted == BackendMutex && who.Thread?
  {
    RunKeeps(run, k);
    if who.Thread? { assert CallbackOk(run[k], who.index); }
  }

  // ---------------------------------------------------------------------------
  // Progress
  // ---------------------------------------------------------------------------

  function CallbackRank(at: CallbackAt): nat {
    match at
    case NotFired => 7
    case WantsToken => 6
    case HasToken => 5
    case WantsBackend => 4
    case InBackend => 3
    case LeftBackend => 2
    case TooLate => 2
    case Expired => 2
    case Finished => 0
  }

  function DestroyerRank(at: DestroyerAt): nat {
    match at
    case Start => 11
    case Marking => 10
    case BeforeDisable => 9
    case Waking => 8
    case Draining => 7
    case Waiting => 6
    case Freeing => 5
    case BeforeToken => 4
    case Nulling => 3
    case InDestructor => 2
    case Returning => 1
    case Gone => 0
  }

  function TotalRank(cs: seq<Callback>): nat
    decreases |cs|
  {
    if cs == [] then 0 else TotalRank(cs[..|cs| - 1]) + CallbackRank(cs[|cs| - 1].at)
  }

  lemma {:induction false} TotalRankUpdate(cs: seq<Callback>, i: nat, c: Callback)
    requires i < |cs|
    ensures TotalRank(cs[i := c]) == TotalRank(cs) - CallbackRank(cs[i].at) + CallbackRank(c.at)
    decreases |cs|
  {
    var n := |cs| - 1;
    if i < n {
      TotalRankUpdate(cs[..n], i, c);
      assert cs[i := c][..n] == cs[..n][i := c];
    } else {
      assert cs[i := c][..n] == cs[..n];
    }
  }

  function Work(s: State): nat {
    TotalRank(s.callbacks) + DestroyerRank(s.destroyer)
  }

  /** t is nearer the end than s. */
  predicate Nearer(t: State, s: State) {
    t.patience < s.patience || (t.patience == s.patience && Work(t) < Work(s))
  }

  lemma CallbackProgress(s: State, i: nat, t: State)
    requires Inv(s) && i < |s.callbacks| && CallbackSteps(s, i, t)
    ensures Nearer(t, s)
  {
    assert t.callbacks == s.callbacks[i := t.callbacks[i]];
    TotalRankUpdate(s.callbacks, i, t.callbacks[i]);
  }

  /** Every step makes progress, except being woken from the drain before any time passed. */
  lemma StepsProgress(s: State, t: State)
    requires Inv(s) && Steps(s, t)
    ensures Nearer(t, s) || (s.destroyer == Waiting && t == s.(destroyer := Waking))
  {
    if i :| 0 <= i < |s.callbacks| && CallbackSteps(s, i, t) {
      CallbackProgress(s, i, t);
    } else {
      assert DestroyerSteps(s, true, t) || DestroyerSteps(s, false, t);
    }
  }

  /** Android fired no further callback between s and t. */
  predicate NoneFired(s: State, t: State) {
    && |t.callbacks| == |s.callbacks|
    && forall i :: 0 <= i < |s.callbacks| && s.callbacks[i].at == NotFired ==> t.callbacks[i].at == NotFired
  }

  /** Everything that was started is over. */
  predicate Quiet(s: State) {
    && s.destroyer == Gone
    && forall i :: 0 <= i < |s.callbacks| ==> (s.callbacks[i].at.NotFired? || s.callbacks[i].at.Finished?)
  }

  /** The destroyer never blocks while it holds mutex_, nor while it waits for the drain. */
  lemma DestroyerAdvances(s: State) returns (t: State)
    requires Inv(s) && (DestroyerHoldsBackend(s.destroyer) || (s.destroyer.Waiting? || s.destroyer.Nulling?))
    ensures Steps(s, t) && Nearer(t, s) && NoneFired(s, t)
  {
    match s.destroyer {
      case Marking => t := s.(destroyer := BeforeDisable, backendMutex := Nobody, isDestroyed := true);
      case Draining =>
        t := if s.submittedCount == 0 || s.patience == 0 then s.(destroyer := Freeing)
             else s.(destroyer := Waiting, backendMutex := Nobody);
      case Waiting => t := s.(destroyer := Waking, patience := 0);
      case Freeing => t := s.(destroyer := BeforeToken, backendMutex := Nobody, submittedCount := 0);
      case Nulling => t := s.(destroyer := InDestructor, tokenMutex := Nobody, tokenBackend := false);
      case Returning => t := s.(destroyer := Gone, backendMutex := Nobody, freed := true);
    }
    assert DestroyerSteps(s, true, t);
  }

  /** A callback that holds token_mutex can go on, or waits for mutex_ whose holder can. */
  lemma HolderAdvances(s: State, i: nat) returns (t: State)
    requires Inv(s) && i < |s.callbacks| && HoldsToken(s.callbacks[i].at)
    ensures Steps(s, t) && Nearer(t, s) && NoneFired(s, t)
  {
    assert CallbackOk(s, i);
    if s.callbacks[i].at == WantsBackend && s.backendMutex != Nobody {
      var j := if s.backendMutex.Thread? then s.backendMutex.index else i;
      assert CallbackOk(s, j);
      t := DestroyerAdvances(s);
    } else {
      t := UnblockedAdvances(s, i);
    }
  }

  /** A callback that is not waiting for a mutex somebody holds has a next step. */
  lemma UnblockedAdvances(s: State, i: nat) returns (t: State)
    requires Inv(s) && i < |s.callbacks| && (!s.callbacks[i].at.NotFired? && !s.callbacks[i].at.Finished?)
    requires s.callbacks[i].at == WantsToken ==> s.tokenMutex == Nobody
    requires s.callbacks[i].at == WantsBackend ==> s.backendMutex == Nobody
    ensures Steps(s, t) && Nearer(t, s) && NoneFired(s, t)
  {
    t := AfterCallback(s, i);
    assert CallbackSteps(s, i, t);
    CallbackProgress(s, i, t);
  }

  /**
    No deadlock: until everything started is over, some thread has a step that makes
    progress, and it is not Android firing another callback.
   */
  lemma NoDeadlock(s: State) returns (t: State)
    requires Inv(s) && !Quiet(s)
    ensures Steps(s, t) && Nearer(t, s) && NoneFired(s, t)
  {
    if s.tokenMutex.Thread? {
      assert CallbackOk(s, s.tokenMutex.index);
      t := HolderAdvances(s, s.tokenMutex.index);
    } else if s.backendMutex.Thread? {
      assert CallbackOk(s, s.backendMutex.index);
      t := HolderAdvances(s, s.backendMutex.index);
    } else if DestroyerHoldsBackend(s.destroyer) || (s.destroyer.Waiting? || s.destroyer.Nulling?) {
      t := DestroyerAdvances(s);
    } else if s.destroyer != Gone {
      t := DestroyerTakesMutex(s);
    } else {
      var i :| 0 <= i < |s.callbacks| && (!s.callbacks[i].at.NotFired? && !s.callbacks[i].at.Finished?);
      t := UnblockedAdvances(s, i);
    }
  }

  lemma DestroyerTakesMutex(s: State) returns (t: State)
    requires Inv(s) && s.tokenMutex == Nobody && s.backendMutex == Nobody
    requires || s.destroyer.Start? || s.destroyer.BeforeDisable? || s.destroyer.Waking?
             || s.destroyer.BeforeToken? || s.destroyer.InDestructor?
    ensures Steps(s, t) && Nearer(t, s) && NoneFired(s, t)
  {
    match s.destroyer {
      case Start => t := s.(destroyer := Marking, backendMutex := Destroyer);
      case BeforeDisable => t := s.(destroyer := Draining, backendMutex := Destroyer);
      case Waking => t := s.(destroyer := Draining, backendMutex := Destroyer);
      case BeforeToken => t := s.(destroyer := Nulling, tokenMutex := Destroyer);
      case InDestructor => t := s.(destroyer := Returning, backendMutex := Destroyer);
    }
    assert DestroyerSteps(s, true, t);
  }

  predicate IsPath(s: State, path: seq<State>) {
    |path| > 0 && path[0] == s && forall k :: 0 < k < |path| ==> Linked(path, k)
  }

  lemma {:induction false} CanFinish(s: State) returns (path: seq<State>)
    requires Inv(s)
    ensures IsPath(s, path) && Quiet(path[|path| - 1]) && NoneFired(s, path[|path| - 1])
    decreases s.patience, Work(s)
  {
    if Quiet(s) {
      path := [s];
    } else {
      var t := NoDeadlock(s);
      StepKeeps(s, t);
      var rest := CanFinish(t);
      path := [s] + rest;
      forall k | 0 < k < |path| ensures Linked(path, k) {
        assert k > 1 ==> Linked(rest, k - 1);
      }
    }
  }

  /** From every reachable state the destroyer and all callbacks that fired can finish. */
  lemma ReachableCanFinish(run: seq<State>, k: nat) returns (path: seq<State>)
    requires IsRun(run) && k < |run|
    ensures IsPath(run[k], path) && Quiet(path[|path| - 1]) && NoneFired(run[k], path[|path| - 1])
  {
    RunKeeps(run, k);
    path := CanFinish(run[k]);
  }
}
