# LinuxDroid bridge: a model of its native core

This project models, in Dafny, the stateful parts of the LinuxDroid native bridge and
proves what they keep over whole runs.

- **The presentation buffer pool** (`PresentationModel`, `PresentationInvariants`,
  `PresentationOperations`, `PresentationHistory`, `PresentationRuns`,
  `PresentationCalls`, `PresentationWaits`, `PresentationStale`, `PresentationHandOuts`,
  `PresentationThreads`, `PresentationGles`, `PresentationBackend`).  Three buffers go round between a
  producer and Android.  A `Pool` value holds the backend's fields together with the
  release callbacks Android owes and ledgers of fence descriptors, buffers and surfaces.
  A run is any sequence of client calls and callbacks; callbacks also run inside the
  timed waits.  `PresentationThreads` cuts the calls where they wait and lets producer
  threads run there too; `PresentationGles` counts the GL and EGL objects.
  `PresentationBackend` is the imperative object, each method proved to
  compute the function that specifies it.
- **The destroy protocol** (`DestroyProtocol`).  Destroying the handle while any number of
  callbacks are under way, one lock operation at a time, with both mutexes and the weak
  lifetime token.
- **The input queue** (`InputQueue`, `InputSends`, `InputBounds`, `InputBridge`).  Coalescing as a
  refinement for every consumer, the capacity policy, the reset barrier.
- **The desktop shell** (`ShellCatalog`, `ShellLayout`, `ShellLauncher`, `ShellSeat`,
  `ShellEventLoop`, `ShellEventProgress`, `DesktopShell`).  Layout against hit tests, filtering and selection,
  seat devices, the read-intent discipline of the event loop.
- **The window tracker** (`TrackerModel`, `TrackerRuns`, `DesktopWindowTracker`).
- **Colour blending** (`Blend`).

`dafny verify dfyconfig.toml` checks the whole project.

Calls into Android, EGL, GL, Wayland and the clock are parameters of the operation that
makes them: an allocation succeeds or fails, a wait has *rounds*, each with the callbacks
that ran while the mutex was given up and whether the wait timed out.

## What the code does that its comments and tests do not say

- The header lists a RELEASED state between SUBMITTED and FREE
  (native/bridge/src/main/cpp/android_presentation.h:22).  The code never enters it
  (`SubmittedSlotsAreOwed`).
- A disable or resize whose drain times out frees the pool with callbacks still owed.
  Such a callback can later free a slot the producer holds
  (`StaleCallbackHandsOutTwice`).  As long as every disable and resize frees the pool with
  submitted_count at 0, this cannot happen (`CallbacksFreeSubmittedSlots`,
  `NoDoubleHandOut`); the first call that frees it with the counter above 0, unless it
  belongs to destroy, makes it possible (`CallBringsDangerIff`,
  `CallBringsDoubleHandOutIff`).  From then on the danger lasts exactly while more
  callbacks are owed than submitted_count says (`CanReachFreeHeldIff`): late callbacks
  that arrive while the slots are free end it.  A drain that returned 0 leaves the
  counter at 0 (`DrainedRunsAreEmptied`); one that timed out may have too.
- A resize while the window is away leaves an enabled output without buffers after the
  next setWindow (`EnabledWithoutPool`).  Only a resize can: `PoolLostIff` says which, for
  one call, and `PoolThroughoutIff` for whole runs.
- During the drain of a resize, unlike that of a disable, producers may submit and so
  prolong it (`ResizeDrainRefills`, `DisableDrainOnlyFalls`).
- initGlesTargets called again without destroyGlesTargets, or failing after it created a
  texture, loses GL objects (`InitLosesIff`, `NothingLostIff`).
- native/bridge/src/main/cpp/input_integration_test.cpp:139-144 expects drops after 600
  moves of one finger.  The code merges such moves into one entry and drops none
  (`BurstTakesOnePlace`).
- A merged mouse move keeps the button mask of the older event (`ButtonsOfMovesAreLost`).
- The oldest entry is evicted whatever its type, so presses and releases can be lost:
  `PressIsLost` is such a run, `EvictedIff` and `EvictedBehind511` say exactly when.  Only
  acceptance of new ones is guaranteed (`AcceptancePolicy`).
- Pills and rows too far along to be drawn still take clicks
  (`UndrawnPillsAreClickable`, `UndrawnRowsAreClickable`).
- Activating an id that is not listed leaves windows but no active one (`FocusLostIff`).

## Model

| member | source | states |
|---|---|---|
| `PresentationRuns.AllRuns` | native/bridge/src/main/cpp/android_presentation.cpp:168-248 | in every run, timed-out drains included: slots consistent (non-FREE implies a buffer; FBO implies texture implies EGL image implies buffer), callbacks cover submitted slots, buffers, fences and surfaces conserved, pool full or empty |
| `PresentationOperations.StepKeeps` | native/bridge/src/main/cpp/android_presentation.cpp:111-504 | one step of any kind keeps that invariant; from an exact state the step stays exact if and only if, where it frees the pool, the counter had reached 0 |
| `PresentationRuns.SubmittedSlotsAreOwed` | native/bridge/src/main/cpp/android_presentation.cpp:400-504 | in all runs a SUBMITTED slot is owed a callback, 0 <= submitted_count <= SUBMITTED slots <= 3, and RELEASED is never entered |
| `PresentationRuns.DeliverAllEmpties` | native/bridge/src/main/cpp/android_presentation.cpp:488-504 | delivering all owed callbacks in any order leaves nothing SUBMITTED and the counter at 0 |
| `PresentationRuns.QuiescentDrains` | native/bridge/src/main/cpp/android_presentation.cpp:719-735 | once every callback has run a drain returns 0 at once, whatever its timeout |
| `PresentationRuns.ResourcesConserved` | native/bridge/src/main/cpp/android_presentation.cpp:661-717 | over all runs each buffer allocated is in exactly one slot or was released exactly once; fences received equal fences closed, queued and returned; surfaces created minus released is 0 or 1 |
| `PresentationRuns.ExactThroughoutIff` | native/bridge/src/main/cpp/android_presentation.cpp:719-735 | owed callbacks are exactly the SUBMITTED slots and slots are mapped exactly when LOCKED, at every point of a run, if and only if every disable and resize freed the pool with the counter at 0 |
| `PresentationRuns.ExactRuns` | native/bridge/src/main/cpp/android_presentation.cpp:168-248 | runs whose drains emptied the counter keep the exact invariant, and their event log agrees with every slot |
| `PresentationRuns.DrainedRunsAreEmptied` | native/bridge/src/main/cpp/android_presentation.cpp:719-735 | drains that returned 0 satisfy that condition |
| `PresentationRuns.CallbacksFreeSubmittedSlots` | native/bridge/src/main/cpp/android_presentation.cpp:488-504 | in runs that freed the pool only with the counter at 0 a callback never changes an ACQUIRED or LOCKED slot, and submitted_count is the number of owed callbacks |
| `PresentationRuns.NoDoubleHandOut` | native/bridge/src/main/cpp/android_presentation.cpp:290-319 | in such runs a slot is handed out again only after it was submitted and released, its submit failed, or the pool was freed |
| `PresentationStale.CallBringsDangerIff` | native/bridge/src/main/cpp/android_presentation.cpp:719-735 | after such a run, the next call makes it possible for a callback to free a held slot, all later frees finding the counter at 0, if and only if it frees the pool with the counter above 0 and is not part of destroy |
| `PresentationStale.CanReachFreeHeldIff` | native/bridge/src/main/cpp/android_presentation.cpp:488-504 | of any state that keeps the invariant: a callback can be brought to free a held slot if and only if one could at once, or destroy has not begun and more callbacks are owed than submitted_count says |
| `PresentationStale.StaleIff` | native/bridge/src/main/cpp/android_presentation.cpp:488-504 | the counter equals the number of owed callbacks exactly when they match the SUBMITTED slots one by one |
| `PresentationHandOuts.CallBringsDoubleHandOutIff` | native/bridge/src/main/cpp/android_presentation.cpp:290-319 | the same exact condition for a slot being handed out twice without having come back |
| `PresentationHandOuts.DestroyedHandsNothingOut` | native/bridge/src/main/cpp/android_presentation.cpp:197-212 | once destroy has begun nothing is handed out, whatever callbacks run |
| `PresentationRuns.StaleCallbackHandsOutTwice` | native/bridge/src/main/cpp/android_presentation.cpp:219-248 | a concrete run: a resize whose drain times out leaves a callback that frees a held slot, which is then handed out twice |
| `PresentationRuns.ResizeKeepsPoolIff` | native/bridge/src/main/cpp/android_presentation.cpp:237-244 | a resize that reallocates an enabled output ends with a full pool if and only if there is a surface and all three allocations succeed |
| `PresentationRuns.EnabledWithoutPool` | native/bridge/src/main/cpp/android_presentation.cpp:250-288 | a concrete run: resizing while the window is away, then binding a window, leaves an enabled output with a surface and no buffers |
| `PresentationCalls.PoolLostIff` | native/bridge/src/main/cpp/android_presentation.cpp:219-248 | from an enabled output with its pool, a call leaves the output enabled without it if and only if it is an effective resize without a surface or without all three allocations |
| `PresentationCalls.PoolThroughoutIff` | native/bridge/src/main/cpp/android_presentation.cpp:219-248 | an enabled output has its three buffers at every point of a run if and only if no resize of the run is one of those |
| `PresentationRuns.EmptyPoolNeverServes` | native/bridge/src/main/cpp/android_presentation.cpp:296-318 | with an empty pool no acquire succeeds, however long it waits |
| `PresentationRuns.SubmitFate` | native/bridge/src/main/cpp/android_presentation.cpp:400-486 | a fence given to submit goes to the transaction exactly when the call succeeds and is closed exactly once otherwise; success is exactly an ACQUIRED slot becoming SUBMITTED with one more callback owed |
| `PresentationRuns.ReleaseFate` | native/bridge/src/main/cpp/android_presentation.cpp:754-763 | a callback closes the fence it carries (none on the fallback path) exactly once, alive or not, and changes no slot once the token is nulled |
| `PresentationRuns.UnlockFate` | native/bridge/src/main/cpp/android_presentation.cpp:361-390 | an unlock fence goes to the caller who asked or is closed, never both or neither; the slot is ACQUIRED and unmapped again; a failed unlock changes nothing, and which error code when |
| `PresentationRuns.DestroyReachesToken` | native/bridge/src/main/cpp/android_presentation.cpp:197-212 | when destroy comes to null the token the output is disabled, whatever the drain did |
| `PresentationRuns.DestroyIsARun` | native/bridge/src/main/cpp/android_presentation.cpp:197-212 | a whole destroy with callbacks in its gaps is a run of steps, so the theorems about runs cover it |
| `PresentationHistory.HandOutsSeparated` | native/bridge/src/main/cpp/android_presentation.cpp:290-319 | a log without a clash separates two hand-outs of a slot by its return |
| `PresentationHistory.StepTracked` | native/bridge/src/main/cpp/android_presentation.cpp:290-504 | each step that keeps the exact invariant keeps the log truthful about every slot |
| `PresentationOperations.FirstAvailableIsFirst` | native/bridge/src/main/cpp/android_presentation.cpp:298-305 | the scan finds the lowest FREE slot with a buffer, and none only if there is none |
| `PresentationInvariants.FreePoolKeeps` | native/bridge/src/main/cpp/android_presentation.cpp:694-717 | freeing the pool releases each buffer once, clears every slot and the counter, and keeps the ledgers balanced |
| `PresentationInvariants.AllocateFromKeeps` | native/bridge/src/main/cpp/android_presentation.cpp:661-692 | allocation ends with three fresh buffers or, after a failure, with none and every earlier one released |
| `PresentationInvariants.DeliverExact` | native/bridge/src/main/cpp/android_presentation.cpp:488-504 | from an exact state a callback frees only a SUBMITTED slot |
| `PresentationInvariants.DrainKeeps` | native/bridge/src/main/cpp/android_presentation.cpp:719-735 | a drain touches no handle, keeps both invariants, and returns 0 only with the counter at 0 |
| `PresentationCalls.EnableOutcome` | native/bridge/src/main/cpp/android_presentation.cpp:111-166 | enable succeeds if and only if already enabled, or window, surface and all buffers are there; a failed one holds nothing but remembers window and size |
| `PresentationCalls.DisableOutcome` | native/bridge/src/main/cpp/android_presentation.cpp:168-195 | after disable no buffer, surface or submitted slot is left, whatever the drain returned |
| `PresentationCalls.ResizeOutcome` | native/bridge/src/main/cpp/android_presentation.cpp:219-248 | when resize returns which status, and what size it leaves |
| `PresentationCalls.SetWindowOutcome` | native/bridge/src/main/cpp/android_presentation.cpp:250-288 | setWindow leaves a surface exactly when enabled, bound and granted; buffers stay; the same window changes nothing |
| `PresentationCalls.AcquireOutcome` | native/bridge/src/main/cpp/android_presentation.cpp:290-319 | ENODEV and no change exactly when off or without surface; otherwise the caller gets a slot with its own buffer, or times out with nothing changed but releases, and other slots are at most freed |
| `PresentationCalls.AcquireServesFirst` | native/bridge/src/main/cpp/android_presentation.cpp:297-305 | a free slot is served at once, lowest index first, whatever the timeout |
| `PresentationWaits.AcquireAnswers` | native/bridge/src/main/cpp/android_presentation.cpp:296-318 | an acquire looks on entry and again each time it is woken; at the first look that finds a FREE buffer it takes the lowest, and it times out only after looking in vain with its time up or the wait timed out |
| `PresentationWaits.AcquireServedIff` | native/bridge/src/main/cpp/android_presentation.cpp:296-318 | an acquire gets a slot if and only if one is FREE with a buffer at one of those looks |
| `PresentationWaits.DrainAnswers` | native/bridge/src/main/cpp/android_presentation.cpp:719-735 | a drain looks at submitted_count on entry and each time it is woken; which look makes it return what |
| `PresentationWaits.DrainSucceedsIff` | native/bridge/src/main/cpp/android_presentation.cpp:719-735 | a drain returns 0 if and only if the counter is at 0 at one of those looks |
| `PresentationWaits.SetWindowDrains` | native/bridge/src/main/cpp/android_presentation.cpp:256-288 | setWindow to another window drains exactly when there is a surface, and else touches window and surface only |
| `PresentationCalls.SubmitOutcome` | native/bridge/src/main/cpp/android_presentation.cpp:400-486 | an ACQUIRED slot becomes SUBMITTED exactly on success and FREE exactly when the output is off, has no surface or gets no transaction; no other slot changes; which error code when |
| `PresentationCalls.FailedSubmitGivesBack` | native/bridge/src/main/cpp/android_presentation.cpp:402-429 | the buffer of a failed submit can be acquired again at once |
| `PresentationCalls.LockOutcomeIff` | native/bridge/src/main/cpp/android_presentation.cpp:321-359 | lock succeeds exactly on an ACQUIRED slot of an enabled output that Android maps, and records the mapping; otherwise nothing changes, and which error code when |
| `PresentationCalls.UnlockUndoesLock` | native/bridge/src/main/cpp/android_presentation.cpp:321-390 | unlock after lock restores the slot, except for the remembered stride |
| `PresentationCalls.StrideExactIff` | native/bridge/src/main/cpp/android_presentation.cpp:345-354 | the byte stride is the real one modulo 2^32, and exact if and only if it fits a signed 32-bit integer |
| `PresentationCalls.InitGlesAllOrNothing` | native/bridge/src/main/cpp/android_presentation.cpp:556-638 | every buffer gets a complete GLES target, or no slot keeps any part of one |
| `PresentationThreads.ThreadsKeep` | native/bridge/src/main/cpp/android_presentation.cpp:111-504 | with producer threads running also inside the drains of disable, resize and setWindow, the all-runs invariant holds in every interleaving |
| `PresentationThreads.MoveKeeps` | native/bridge/src/main/cpp/android_presentation.cpp:719-735 | one move of any thread keeps it; the exact invariant is kept if and only if a move that frees the pool finds the counter at 0 |
| `PresentationThreads.ThreadsHandOutOnce` | native/bridge/src/main/cpp/android_presentation.cpp:290-319 | in interleavings that free the pool only with the counter at 0 no callback can free a held slot and no slot is handed out twice |
| `PresentationThreads.DisableDrainOnlyFalls` | native/bridge/src/main/cpp/android_presentation.cpp:168-195 | while disable waits the counter only falls, nothing is handed out, and a woken acquire reports the shutdown |
| `PresentationThreads.ResizeDrainRefills` | native/bridge/src/main/cpp/android_presentation.cpp:219-248 | while resize waits a submit is accepted and raises the counter it waits for |
| `PresentationThreads.StepIsPlayed` | native/bridge/src/main/cpp/android_presentation.cpp:719-735 | every call, whatever ran inside its waits, is one interleaving of the threads |
| `PresentationThreads.RunIsPlayed` | native/bridge/src/main/cpp/android_presentation.cpp:111-504 | so is every run: the pool it ends with is one the threads can reach |
| `PresentationGles.SameSlots` | native/bridge/src/main/cpp/android_presentation.cpp:556-638 | with the objects counted the slots end up as in the pool model |
| `PresentationGles.InitLosesIff` | native/bridge/src/main/cpp/android_presentation.cpp:572-637 | initGlesTargets loses an image, texture or framebuffer if and only if it replaces a name a slot still held, fails after creating a texture, or fails with images it cannot destroy |
| `PresentationGles.NothingLostIff` | native/bridge/src/main/cpp/android_presentation.cpp:545-553 | over any sequence of init and destroy calls nothing is lost if and only if no call of the sequence loses |
| `PresentationGles.DestroyLoses` | native/bridge/src/main/cpp/android_presentation.cpp:640-659 | destroyGlesTargets loses exactly the images when there is no display or no eglDestroyImageKHR |
| `PresentationCalls.InitGlesOutcome` | native/bridge/src/main/cpp/android_presentation.cpp:556-638 | initGlesTargets succeeds exactly when there is a display, the extensions are there and every buffer gets its target, which its slot then holds; otherwise the first failing slot decides the error and no slot keeps anything |
| `PresentationCalls.DestroyGlesOutcome` | native/bridge/src/main/cpp/android_presentation.cpp:640-659 | the three handles of every slot cleared and nothing else |
| `PresentationCalls.FreePoolClosesUnlockFences` | native/bridge/src/main/cpp/android_presentation.cpp:694-717 | freeing the pool receives and closes exactly the fences of the buffers that were LOCKED |
| `PresentationCalls.DisableClosesUnlockFences` | native/bridge/src/main/cpp/android_presentation.cpp:168-195 | so does disable, for what is still LOCKED when its drain is over |
| `PresentationCalls.ResizeClosesUnlockFences` | native/bridge/src/main/cpp/android_presentation.cpp:219-248 | so does resize, whether reallocation succeeds or not |
| `PresentationRuns.ReleasedInternally` | native/bridge/src/main/cpp/android_presentation.cpp:488-504 | what a release does for any index: a bad one only closes the fence |
| `PresentationBackend.AndroidPresentationBackend.constructor` | native/bridge/src/main/cpp/android_presentation.cpp:95-105 | a fresh backend is the initial pool, off, 1920 by 1080, with three empty FREE slots |
| `PresentationBackend.AndroidPresentationBackend.OnBufferReleasedInternal` | native/bridge/src/main/cpp/android_presentation.cpp:488-504 | the slot freed, the counter lowered if positive, the fence closed |
| `PresentationBackend.AndroidPresentationBackend.HandleBufferRelease` | native/bridge/src/main/cpp/android_presentation.cpp:754-763 | one callback is delivered as specified, with the token live or nulled |
| `PresentationBackend.AndroidPresentationBackend.DrainOutstandingBuffers` | native/bridge/src/main/cpp/android_presentation.cpp:719-735 | the wait loop refines the specified drain, status included |
| `PresentationBackend.AndroidPresentationBackend.DestroyGlesTargets` | native/bridge/src/main/cpp/android_presentation.cpp:640-659 | all GLES handles of all slots cleared and nothing else |
| `PresentationBackend.AndroidPresentationBackend.InitGlesTargets` | native/bridge/src/main/cpp/android_presentation.cpp:556-638 | the per-slot loop with its failure paths refines the specification |
| `PresentationBackend.AndroidPresentationBackend.FreeBufferPool` | native/bridge/src/main/cpp/android_presentation.cpp:694-717 | the freeing loop refines the specification |
| `PresentationBackend.AndroidPresentationBackend.AllocateBufferPool` | native/bridge/src/main/cpp/android_presentation.cpp:661-692 | the allocating loop, failure included, refines the specification |
| `PresentationBackend.AndroidPresentationBackend.EnableOutput` | native/bridge/src/main/cpp/android_presentation.cpp:111-166 | the in-place branches compute Enable, status included; what that promises is EnableOutcome |
| `PresentationBackend.AndroidPresentationBackend.DisableOutput` | native/bridge/src/main/cpp/android_presentation.cpp:168-195 | drain, surface release and pool release compute Disable; what that promises is DisableOutcome |
| `PresentationBackend.AndroidPresentationBackend.DestroyOutput` | native/bridge/src/main/cpp/android_presentation.cpp:197-212 | three locked sections with callbacks between them, as specified |
| `PresentationBackend.AndroidPresentationBackend.ResizeOutput` | native/bridge/src/main/cpp/android_presentation.cpp:219-248 | the in-place branches compute Resize, status included; what that promises is ResizeOutcome and ResizeKeepsPoolIff |
| `PresentationBackend.AndroidPresentationBackend.SetNativeWindow` | native/bridge/src/main/cpp/android_presentation.cpp:250-288 | the in-place branches compute SetWindow; what that promises is SetWindowOutcome |
| `PresentationBackend.AndroidPresentationBackend.AcquireBuffer` | native/bridge/src/main/cpp/android_presentation.cpp:290-319 | the scan-and-wait loop computes Acquire, status included; what that promises is AcquireOutcome and AcquireServesFirst |
| `PresentationBackend.AndroidPresentationBackend.LockBuffer` | native/bridge/src/main/cpp/android_presentation.cpp:321-359 | the in-place branches compute Lock, status included; what that promises is LockOutcomeIff |
| `PresentationBackend.AndroidPresentationBackend.UnlockBuffer` | native/bridge/src/main/cpp/android_presentation.cpp:361-390 | the in-place branches compute Unlock, fence and status included; what that promises is UnlockFate |
| `PresentationBackend.AndroidPresentationBackend.SubmitBuffer` | native/bridge/src/main/cpp/android_presentation.cpp:400-486 | every path computes Submit, fence and status included; what that promises is SubmitFate |
| `PresentationBackend.AndroidPresentationBackend.SubmitBufferC` | native/bridge/src/main/cpp/android_presentation.cpp:872-880 | without a handle the fence is closed and EINVAL returned; otherwise submitBuffer |
| `PresentationBackend.AndroidPresentationBackend.GetStats` | native/bridge/src/main/cpp/android_presentation.cpp:517-531 | counts of slots with a buffer, of FREE ones among them, and the counter; 3 and 0 mean a full and an empty pool |
| `DestroyProtocol.CallbacksEnterLiveBackend` | native/bridge/src/main/cpp/android_presentation.cpp:447-460 | in every interleaving a callback in or entering onBufferReleasedInternal finds the backend alive; each fence is closed at most once and, when the callback is finished, exactly once |
| `DestroyProtocol.AfterNullNothingEnters` | native/bridge/src/main/cpp/android_presentation.cpp:206-211 | once the token is nulled no callback enters the backend, ever |
| `DestroyProtocol.EntersIffAlive` | native/bridge/src/main/cpp/android_presentation.cpp:754-763 | a callback that got token_mutex before the token was nulled does reach the backend, whatever the destroyer does meanwhile; one that got it after does not |
| `DestroyProtocol.LeavingCounts` | native/bridge/src/main/cpp/android_presentation.cpp:494-496 | each callback that leaves the backend has lowered the counter by one, if there was any left |
| `DestroyProtocol.FreesDrained` | native/bridge/src/main/cpp/android_presentation.cpp:719-735 | the pool is freed only with the counter at 0 or no time left to wait |
| `DestroyProtocol.LockOrder` | native/bridge/src/main/cpp/android_presentation.cpp:754-757 | a thread that holds one mutex and waits for another holds token_mutex and waits for mutex_ |
| `DestroyProtocol.StepsProgress` | native/bridge/src/main/cpp/android_presentation.cpp:719-735 | every step is progress except a wake-up from the drain before time passed |
| `DestroyProtocol.NoDeadlock` | native/bridge/src/main/cpp/android_presentation.cpp:197-212 | until destroy and all started callbacks are over some thread has a progressing step |
| `DestroyProtocol.ReachableCanFinish` | native/bridge/src/main/cpp/android_presentation.cpp:781-787 | from every reachable state destroy and all started callbacks can finish |
| `InputQueue.LedgerAndShape` | native/bridge/src/main/cpp/input_bridge.cpp:41-80 | in every reachable state totalEvents + resets = delivered + queued + dropped + coalesced + flushed, at most 512 queued, no two neighbours are moves of one target |
| `InputQueue.CoalescingPreservesView` | native/bridge/src/main/cpp/input_bridge.cpp:41-62 | for every last-move-wins consumer and any pushes and pops, evictions included, what left the queue and what is in it mean the same as the accepted events |
| `InputQueue.OnlyMotionIsRefused` | native/bridge/src/main/cpp/input_bridge.cpp:64-69 | a refused event is a motion event; without drops everything pushed was delivered or waits |
| `InputQueue.CoalescingIsInvisible` | native/bridge/src/main/cpp/input_bridge.cpp:41-62 | without drops, delivered-then-queued means what the pushed events mean: same non-motion events in order, same consumer state at each and at the end |
| `InputQueue.InvisibleOnlyIfLastMoveWins` | native/bridge/src/main/cpp/input_bridge.cpp:41-62 | the converse: a consumer to whom coalescing never shows is one to whom the last move wins |
| `InputQueue.TrackLastMoveWins` | native/bridge/src/main/cpp/input_bridge.cpp:46-60 | tracking the pointer and each finger by position and pressure is such a consumer |
| `InputQueue.ButtonsOfMovesAreLost` | native/bridge/src/main/cpp/input_bridge.cpp:46-51 | reading the button mask off mouse moves is not: a merged move keeps the older id |
| `InputSends.TouchArrives` | native/bridge/src/main/cpp/input_bridge.cpp:82-117 | what each touch action code adds to the queue: 0 and 5 a press, 1 and 6 a release, 3 a cancel, all else a move that opens an entry, is merged or is refused |
| `InputSends.MouseArrives` | native/bridge/src/main/cpp/input_bridge.cpp:119-148 | the same for mouse calls: any scroll first, then 0 and 11, 1 and 12, all else a move |
| `InputSends.KeyArrives` | native/bridge/src/main/cpp/input_bridge.cpp:150-167 | the same for key calls, with which argument lands in which field |
| `InputSends.ResetArrives` | native/bridge/src/main/cpp/input_bridge.cpp:169-181 | a reset leaves one entry that carries nothing but its time |
| `InputSends.NeighboursNeverMerge` | native/bridge/src/main/cpp/input_bridge.cpp:44-62 | in every reachable state no two neighbours are both mouse moves or both touch moves of one id |
| `InputSends.GestureArrives` | native/bridge/src/main/cpp/input_bridge.cpp:41-117 | a gesture of one finger adds a press, at most one move, at the last position, and a release, in that order |
| `InputBounds.AcceptancePolicy` | native/bridge/src/main/cpp/input_bridge.cpp:64-79 | a non-motion event always gets in, last; a motion event evicts nothing and is refused only by a full queue |
| `InputBounds.EvictedIff` | native/bridge/src/main/cpp/input_bridge.cpp:64-79 | a push evicts entry n if and only if it is not motion, n is still queued, and exactly 511 entries were enqueued after n |
| `InputBounds.EvictedBehind511` | native/bridge/src/main/cpp/input_bridge.cpp:64-79 | an accepted event, merged or not, is evicted by a later push if and only if that is not motion, its entry still waits, and exactly 511 entries were enqueued behind it, whatever was popped |
| `InputBounds.AcceptedIsNewest` | native/bridge/src/main/cpp/input_bridge.cpp:41-80 | an accepted event is in the newest entry, which has its kind and position |
| `InputBounds.PressIsLost` | native/bridge/src/main/cpp/input_bridge.cpp:64-79 | a concrete run: of 513 key presses in a row all are accepted and the first is never delivered |
| `InputBounds.NonMotionKeepsItsPlace` | native/bridge/src/main/cpp/input_bridge.cpp:41-80 | until it leaves, a non-motion event waits unchanged at the place its number gives |
| `InputBounds.BurstTakesOnePlace` | native/bridge/src/main/cpp/input_bridge.cpp:52-61 | a burst of moves of one finger takes at most one place, drops nothing and ends at the last position |
| `InputBounds.ResetForgetsEverything` | native/bridge/src/main/cpp/input_bridge.cpp:169-181 | what is delivered after a reset does not depend on anything before it |
| `InputBounds.ResetIsNextUnlessEvicted` | native/bridge/src/main/cpp/input_bridge.cpp:169-181 | RESET_INPUT is the next event popped if and only if no overflow evicted it |
| `InputBridge.InputBridge.PushEventLocked` | native/bridge/src/main/cpp/input_bridge.cpp:41-80 | the in-place push refines the specification, counters included |
| `InputBridge.InputBridge.SendTouchEvent` | native/bridge/src/main/cpp/input_bridge.cpp:82-117 | action codes classified as specified and pushed |
| `InputBridge.InputBridge.SendMouseEvent` | native/bridge/src/main/cpp/input_bridge.cpp:119-148 | scroll before buttons before moves, as specified, and pushed |
| `InputBridge.InputBridge.SendKeyEvent` | native/bridge/src/main/cpp/input_bridge.cpp:150-167 | press or release pushed as specified |
| `InputBridge.InputBridge.ResetInput` | native/bridge/src/main/cpp/input_bridge.cpp:169-181 | the queue flushed and RESET_INPUT its only entry |
| `InputBridge.InputBridge.PopEvent` | native/bridge/src/main/cpp/input_bridge.cpp:183-189 | the front entry, or nothing and no change |
| `InputBridge.InputBridge.ClearQueue` | native/bridge/src/main/cpp/input_bridge.cpp:196-201 | the queue flushed |
| `ShellCatalog.FilterSelects` | native/bridge/src/main/cpp/desktop_shell_client.cpp:211-237 | the filtered list is the catalogue at exactly the matching positions, in increasing order |
| `ShellCatalog.ListedIff` | native/bridge/src/main/cpp/desktop_shell_client.cpp:211-237 | an entry is listed if and only if it is in the catalogue, of the category unless that is All, and the search occurs in its name or description, ASCII case aside |
| `ShellCatalog.NarrowingTheSearchShrinks` | native/bridge/src/main/cpp/desktop_shell_client.cpp:211-237 | a search that contains the old one, case aside, yields a subsequence of the old list |
| `ShellCatalog.LookUpFinds` | native/bridge/src/main/cpp/desktop_shell_client.cpp:626-633 | every filtered entry is found again in the catalogue with its own name and path |
| `ShellCatalog.NextPrevInverse` | native/bridge/src/main/cpp/desktop_shell_client.cpp:137-151 | next and previous undo each other and stay in range |
| `ShellCatalog.NextsVisitEachOnce` | native/bridge/src/main/cpp/desktop_shell_client.cpp:137-143 | n nexts over n items visit each exactly once and come back |
| `ShellLauncher.SelectionAlwaysInRange` | native/bridge/src/main/cpp/desktop_shell_client.cpp:137-204 | in every reachable state 0 <= selected < max(1, filtered count) |
| `ShellLauncher.NextAndPrevUndoEachOther` | native/bridge/src/main/cpp/desktop_shell_client.cpp:137-151 | in every reachable state next then previous, and previous then next, change nothing |
| `ShellLauncher.ClickLaunchesOwnRow` | native/bridge/src/main/cpp/desktop_shell_client.cpp:619-636 | a click inside a drawn row launches that row's own name and path, duplicates, query and category notwithstanding |
| `ShellLauncher.ClickLaunchesNothingElse` | native/bridge/src/main/cpp/desktop_shell_client.cpp:619-636 | a click launches nothing but the entry of the row hit |
| `ShellLauncher.ActivateIsClickingTheSelection` | native/bridge/src/main/cpp/desktop_shell_client.cpp:153-172 | activating the selection and clicking its drawn row are the same |
| `ShellLauncher.SearchingOnNarrows` | native/bridge/src/main/cpp/desktop_shell_client.cpp:187-192 | typing on only narrows the list shown |
| `ShellLayout.PanelClickIff` | native/bridge/src/main/cpp/desktop_shell_client.cpp:577-602 | exactly which clicks close window i, toggle it, or toggle the launcher |
| `ShellLayout.PanelClickAreas` | native/bridge/src/main/cpp/desktop_shell_client.cpp:577-602 | the same areas in pixels |
| `ShellLayout.CategoryClickAreas` | native/bridge/src/main/cpp/desktop_shell_client.cpp:603-617 | which pixels select which of the four categories |
| `ShellLayout.RowClickAreas` | native/bridge/src/main/cpp/desktop_shell_client.cpp:619-625 | which pixels select row i |
| `ShellLayout.DrawnPillIsClickable` | native/bridge/src/main/cpp/desktop_shell_client.cpp:406-441 | a click inside drawn pill i acts on window i and no other |
| `ShellLayout.CloseIconCloses` | native/bridge/src/main/cpp/desktop_shell_client.cpp:435-438 | all of a close icon's square closes its own window |
| `ShellLayout.CloseIconStaysInside` | native/bridge/src/main/cpp/ui_painter.cpp:206-215 | every pixel of the drawn icon is in that square |
| `ShellLayout.PillsClearTheTray` | native/bridge/src/main/cpp/desktop_shell_client.cpp:413-447 | every drawn pill ends left of the tray, and all earlier ones are drawn |
| `ShellLayout.UndrawnPillsAreClickable` | native/bridge/src/main/cpp/desktop_shell_client.cpp:590-602 | a pill too far along to be drawn can still be clicked |
| `ShellLayout.DrawnCategoryIsClickable` | native/bridge/src/main/cpp/desktop_shell_client.cpp:603-617 | a click inside a drawn category pill selects it |
| `ShellLayout.RowClickIff` | native/bridge/src/main/cpp/desktop_shell_client.cpp:619-636 | exactly which clicks hit row i |
| `ShellLayout.DrawnRowIsClickable` | native/bridge/src/main/cpp/desktop_shell_client.cpp:533-564 | a click inside drawn row i hits row i |
| `ShellLayout.UndrawnRowsAreClickable` | native/bridge/src/main/cpp/desktop_shell_client.cpp:619-636 | a row too far down to be drawn can still be clicked |
| `ShellEventLoop.LoopIsDisciplined` | native/bridge/src/main/cpp/desktop_shell_client.cpp:903-942 | over every run each successful prepare_read is settled by exactly one read or cancel, at most one is outstanding, none at loop head or exit; dispatch and repaint only when none is |
| `ShellEventLoop.DisciplinedAt` | native/bridge/src/main/cpp/desktop_shell_client.cpp:903-942 | what that discipline says at each call of the run |
| `ShellEventProgress.TurnDoes` | native/bridge/src/main/cpp/desktop_shell_client.cpp:904-941 | a turn reads events exactly when flush succeeded, the display is readable and nobody asked to stop, repaints exactly when poll timed out, dispatches once for each failed prepare and each read, and cancels otherwise |
| `ShellEventProgress.LoopDoes` | native/bridge/src/main/cpp/desktop_shell_client.cpp:903-942 | over the whole loop the same counts hold for the turns made, and every failed prepare and every read is followed at once by a dispatch |
| `ShellEventProgress.LoopMakes` | native/bridge/src/main/cpp/desktop_shell_client.cpp:903-942 | the loop makes the turns up to the first failed flush, poll failure other than an interruption, or wake-up, and no more |
| `ShellEventLoop.NoSecondPrepare` | native/bridge/src/main/cpp/desktop_shell_client.cpp:904-906 | two successful prepare_reads have a read or cancel between them |
| `ShellSeat.DevicesFollowCapabilities` | native/bridge/src/main/cpp/desktop_shell_client.cpp:702-753 | after any capability events each device is bound exactly when its bit was set last, was got once for each time the bit came on, and is held at most once |
| `ShellSeat.CleanupReleasesAll` | native/bridge/src/main/cpp/desktop_shell_client.cpp:1027-1029 | cleanup releases whatever is held, once; again it changes nothing |
| `DesktopShell.DesktopShellClient.GetFilteredLauncherItems` | native/bridge/src/main/cpp/desktop_shell_client.cpp:211-237 | the filtering loop computes the filter |
| `DesktopShell.DesktopShellClient.SelectNextLauncherItem` | native/bridge/src/main/cpp/desktop_shell_client.cpp:137-143 | only the selection moves, to the cyclic successor over the filtered list, and not at all when it is empty |
| `DesktopShell.DesktopShellClient.SelectPrevLauncherItem` | native/bridge/src/main/cpp/desktop_shell_client.cpp:145-151 | only the selection moves, to the cyclic predecessor over the filtered list, and not at all when it is empty |
| `DesktopShell.DesktopShellClient.ActivateSelectedLauncherItem` | native/bridge/src/main/cpp/desktop_shell_client.cpp:153-172 | the selected entry is launched and the launcher closed; out of range nothing happens |
| `DesktopShell.DesktopShellClient.UpdateApplicationCatalog` | native/bridge/src/main/cpp/desktop_shell_client.cpp:174-180 | the catalogue replaced and the selection reset |
| `DesktopShell.DesktopShellClient.LaunchApplication` | native/bridge/src/main/cpp/desktop_shell_client.cpp:244-266 | the launch handler called with the entry's name and path |
| `DesktopShell.DesktopShellClient.LayOutPills` | native/bridge/src/main/cpp/desktop_shell_client.cpp:406-441 | the layout loop draws exactly the leading pills that fit, each at its place |
| `DesktopShell.DesktopShellClient.LayOutRows` | native/bridge/src/main/cpp/desktop_shell_client.cpp:533-564 | the layout loop draws exactly the leading rows that fit, each at its place |
| `DesktopShell.DesktopShellClient.HandlePanelClick` | native/bridge/src/main/cpp/desktop_shell_client.cpp:577-602 | the hit-test loop computes the specified action |
| `DesktopShell.DesktopShellClient.HandleLauncherClick` | native/bridge/src/main/cpp/desktop_shell_client.cpp:603-636 | the category and row loops compute the specified click |
| `DesktopShell.DesktopShellClient.HandlePointerClick` | native/bridge/src/main/cpp/desktop_shell_client.cpp:577-642 | which surface a click acts on, and the background closing the launcher |
| `DesktopShell.DesktopShellClient.SeatHandleCapabilities` | native/bridge/src/main/cpp/desktop_shell_client.cpp:702-753 | each device got or released exactly when its bit and its binding disagree |
| `DesktopShell.DesktopShellClient.ReleaseDevices` | native/bridge/src/main/cpp/desktop_shell_client.cpp:1027-1029 | every bound device is released once and unbound |
| `DesktopShell.DesktopShellClient.LoopTurn` | native/bridge/src/main/cpp/desktop_shell_client.cpp:904-941 | the library calls of one turn, and whether it leaves the loop |
| `DesktopShell.DesktopShellClient.ThreadLoop` | native/bridge/src/main/cpp/desktop_shell_client.cpp:903-942 | the library calls of the whole loop |
| `TrackerRuns.RunKeeps` | native/bridge/src/main/cpp/desktop_window_tracker.cpp:17-190 | over all call sequences ids are unique, handles non-null and at most one window is active |
| `TrackerRuns.RegisterFocuses` | native/bridge/src/main/cpp/desktop_window_tracker.cpp:17-54 | a registration leaves exactly that window active, in its old place or last, titled by its title, else its app_id, else Application; the others keep their data |
| `TrackerRuns.UnregisterRefocuses` | native/bridge/src/main/cpp/desktop_window_tracker.cpp:92-121 | a removal keeps the order of the rest and leaves one window active: the active one if it survives, else the last |
| `TrackerRuns.ActivateFocuses` | native/bridge/src/main/cpp/desktop_window_tracker.cpp:73-90 | activating a listed id makes it the only active window; an unlisted one clears the focus; deactivating touches only that id |
| `TrackerRuns.RetitleOutcome` | native/bridge/src/main/cpp/desktop_window_tracker.cpp:56-71 | a new title goes to the window of that id alone |
| `TrackerRuns.RequestsGoToTheHandler` | native/bridge/src/main/cpp/desktop_window_tracker.cpp:150-172 | a request reaches an installed handler as activate or close and changes no window; without one an activation acts at once and a close is ignored |
| `TrackerRuns.FocusLostIff` | native/bridge/src/main/cpp/desktop_window_tracker.cpp:73-90 | a call leaves windows without an active one if and only if it deactivates the active window or activates an unlisted id |
| `TrackerRuns.FocusedRuns` | native/bridge/src/main/cpp/desktop_window_tracker.cpp:17-190 | in runs without such calls exactly one window is active whenever there is one |
| `TrackerRuns.ListIsHistory` | native/bridge/src/main/cpp/desktop_window_tracker.cpp:17-121 | after any run the list holds exactly the ids registered and not since removed, in the order they were opened |
| `TrackerRuns.SinceIsEarliest` | native/bridge/src/main/cpp/desktop_window_tracker.cpp:17-121 | that order is by the earliest registration not followed by a removal |
| `TrackerRuns.ListenerIsCurrent` | native/bridge/src/main/cpp/desktop_window_tracker.cpp:41-52 | a listener that re-reads the list whenever called always has the current one |
| `DesktopWindowTracker.DesktopWindowTracker.RegisterWindow` | native/bridge/src/main/cpp/desktop_window_tracker.cpp:17-54 | the flag-clearing loop, find and replace-or-append refine the specification; null handles are refused |
| `DesktopWindowTracker.DesktopWindowTracker.UpdateWindowTitle` | native/bridge/src/main/cpp/desktop_window_tracker.cpp:56-71 | only the listed id is retitled, and the listener told only then |
| `DesktopWindowTracker.DesktopWindowTracker.SetWindowActive` | native/bridge/src/main/cpp/desktop_window_tracker.cpp:73-90 | the in-place loop refines the specification |
| `DesktopWindowTracker.DesktopWindowTracker.UnregisterWindow` | native/bridge/src/main/cpp/desktop_window_tracker.cpp:92-121 | remove_if, the scan for an active entry and the fallback refine the specification |
| `DesktopWindowTracker.DesktopWindowTracker.GetWindow` | native/bridge/src/main/cpp/desktop_window_tracker.cpp:128-138 | missing exactly when no entry has the id; otherwise an entry with it |
| `DesktopWindowTracker.DesktopWindowTracker.AskToActivate` | native/bridge/src/main/cpp/desktop_window_tracker.cpp:150-161 | to the handler if installed, else activated directly |
| `DesktopWindowTracker.DesktopWindowTracker.AskToClose` | native/bridge/src/main/cpp/desktop_window_tracker.cpp:163-172 | to the handler if installed, else nothing |
| `DesktopWindowTracker.DesktopWindowTracker.ClearWindows` | native/bridge/src/main/cpp/desktop_window_tracker.cpp:179-190 | list and handler cleared, listener told |
| `Blend.Packed` | native/bridge/src/main/cpp/ui_painter.h:43-48 | no shift drops a bit and no channel runs into the next |
| `Blend.RgbaRoundTrip` | native/bridge/src/main/cpp/ui_painter.h:43-48 | a colour is a word that gives its four bytes back |
| `Blend.WordRoundTrip` | native/bridge/src/main/cpp/ui_painter.h:43-56 | every word is the colour of its four channels |
| `Blend.MixFits` | native/bridge/src/main/cpp/ui_painter.h:55-58 | products and sum fit 32 bits and the mean lies between its arguments |
| `Blend.BlendChannels` | native/bridge/src/main/cpp/ui_painter.h:50-61 | channel by channel a blend is the weighted mean; it is opaque exactly when the background is or the layer shows |
| `Blend.PaintedStaysInRange` | native/bridge/src/main/cpp/ui_painter.h:50-61 | over any layers every channel stays between its minimum and maximum over background and visible layers |
| `Blend.BoundsAreReached` | native/bridge/src/main/cpp/ui_painter.h:50-61 | those bounds are the least and greatest of the inputs |
| `Blend.PaintedOpaqueIff` | native/bridge/src/main/cpp/ui_painter.h:50-61 | the result is opaque if and only if the background is or some layer shows |
| `Blend.OpaqueLayerHides` | native/bridge/src/main/cpp/ui_painter.h:50-54 | an opaque layer hides everything under it |
| `Blend.PaintedIsNearlyExact` | native/bridge/src/main/cpp/ui_painter.h:55-58 | rounding only darkens, by at most one step for each translucent layer |

## Left out

- Android, EGL, GL, Wayland, JNI and dlsym calls: only their success or failure and what they own; no pixels, logging or timestamps. Whether the zero-copy release function exists is fixed for a run.
- Lifecycle calls that overlap each other (enable during disable's wait), and calls after destroy.
- In PresentationThreads a drain may end at any time, and an acquire may be woken that never began; both only add interleavings.
- Memory ordering of the atomics; the destroy protocol is modelled with sequentially consistent steps.
- Real time: a wait ends woken or timed out, and in the destroy protocol the time left only goes down. Successive drains do not share a clock.
- The pool model keeps the lifetime token as a flag and lets a callback be one step; DestroyProtocol takes both apart but keeps only the counter of the pool.
- Wrap-around of the 64-bit event counters and of the 32-bit coordinates win_x and item_y for very long lists.
- Floating point: coordinates, pressure and scroll are reals, so NaN scroll values are not modelled.
- The wake-up descriptor, the motion log throttle and the event timestamps' source.
- PresentationGles counts objects and models no imperative object; a GL call that fails without an error is not modelled.
- Trivial getters (getBuffer, getFbo, getEglImage, getDimensions, getPendingEventCount, getWindowCount).
- Listeners and handlers are recorded as calls; what they do, including calling back, is not modelled. Copies of a listener taken under the lock and called after it are one step.
- WindowModel and WindowManager, which the panel acts through: windows are named by their position in the list.
- Locking between the shell's threads, rendering contents, fonts, shared memory, the pointer's motion and keyboard key dispatch.
- initWayland and the rest of cleanupWayland; a wl_seat request that returns null. The event loop's calls made by nested roundtrips in rendering.
- tolower outside ASCII (the C locale is assumed).
- GuiHost, the compositor backend, DesktopState, DesktopSession, DisplayBridge, audio, GPU probing, process and filesystem helpers: plumbing or finite tables.
