/**
  What holds of the window tracker over every sequence of calls.
 */
module TrackerRuns {
  import opened TrackerModel

  // ---------------------------------------------------------------------------
  // The list invariant
  // ---------------------------------------------------------------------------

  predicate UniqueIds(ws: seq<Entry>) {
    forall j, k :: 0 <= j < k < |ws| ==> ws[j].id != ws[k].id
  }

  predicate NativeOnly(ws: seq<Entry>) {
    forall k :: 0 <= k < |ws| ==> ws[k].handle != NULL
  }

  predicate AtMostOneActive(ws: seq<Entry>) {
    forall j, k :: 0 <= j < k < |ws| ==> !(ws[j].isActive && ws[k].isActive)
  }

  predicate Inv(ws: seq<Entry>) {
    UniqueIds(ws) && NativeOnly(ws) && AtMostOneActive(ws)
  }

  /** The window at k is active and no other is. */
  predicate OnlyActive(ws: seq<Entry>, k: nat) {
    k < |ws| && forall j :: 0 <= j < |ws| ==> (ws[j].isActive <==> j == k)
  }

  /** Exactly one window is active, unless there is none. */
  predicate Focused(ws: seq<Entry>) {
    ws == [] || (AtMostOneActive(ws) && SomeActive(ws))
  }

  function Ids(ws: seq<Entry>): (ids: seq<nat>)
    ensures |ids| == |ws| && forall k :: 0 <= k < |ws| ==> ids[k] == ws[k].id
  {
    seq(|ws|, k requires 0 <= k < |ws| => ws[k].id)
  }

  predicate Has(ws: seq<Entry>, id: nat) {
    exists k :: 0 <= k < |ws| && ws[k].id == id
  }

  lemma HasIsIn(ws: seq<Entry>, id: nat)
    ensures Has(ws, id) <==> id in Ids(ws)
    ensures Has(ws, id) <==> Position(ws, id) < |ws|
  {
    if Has(ws, id) {
      var k :| 0 <= k < |ws| && ws[k].id == id;
      assert Ids(ws)[k] == id;
    }
  }

  /** Removing id leaves the other entries, untouched and in order. */
  lemma {:induction false} WithoutOne(ws: seq<Entry>, id: nat)
    requires UniqueIds(ws)
    ensures Without(ws, id) == Cut(ws, Position(ws, id))
    decreases |ws|
  {
    hide UniqueIds, Cut, Without, Position;
    if ws == [] {
      NothingToCut(id);
    } else {
      var front, last := ws[..|ws| - 1], ws[|ws| - 1];
      FrontUnique(ws);
      WithoutOne(front, id);
      assert ws == front + [last];
      WithoutSnoc(front, last, id);
      CutSnoc(front, last, id);
    }
  }

  lemma NothingToCut(id: nat)
    ensures Without([], id) == Cut([], Position([], id))
  {
  }

  lemma WithoutSnoc(front: seq<Entry>, last: Entry, id: nat)
    ensures Without(front + [last], id) == Without(front, id) + if last.id == id then [] else [last]
  {
    assert (front + [last])[..|front|] == front;
  }

  lemma FrontUnique(ws: seq<Entry>)
    requires ws != [] && UniqueIds(ws)
    ensures UniqueIds(ws[..|ws| - 1])
  {
  }

  /** ws without its entry at k. */
  function Cut(ws: seq<Entry>, k: nat): seq<Entry>
    requires k <= |ws|
  {
    if k < |ws| then ws[..k] + ws[k + 1..] else ws
  }

  lemma CutSnoc(front: seq<Entry>, last: Entry, id: nat)
    requires UniqueIds(front + [last])
    ensures var ws := front + [last];
      Cut(ws, Position(ws, id)) == Cut(front, Position(front, id)) + if last.id == id then [] else [last]
  {
    var ws := front + [last];
    SamePosition(front, last, id);
    var k, n := Position(front, id), |front|;
    if k < n {
      assert ws[k].id != ws[n].id;
      hide Position, UniqueIds;
      assert ws[k + 1..] == front[k + 1..] + [last];
    } else {
      hide Position, UniqueIds;
      assert ws[..n] == front && ws[n + 1..] == [];
    }
  }

  lemma PositionIs(ws: seq<Entry>, id: nat, k: nat)
    requires k <= |ws| && (k < |ws| ==> ws[k].id == id)
    requires forall j :: 0 <= j < k ==> ws[j].id != id
    ensures Position(ws, id) == k
  {
    var p := Position(ws, id);
    if p < k { assert false; } else if k < p { assert false; }
  }

  lemma SamePosition(front: seq<Entry>, last: Entry, id: nat)
    ensures var k := Position(front, id);
      Position(front + [last], id) == if k < |front| then k else if last.id == id then k else k + 1
  {
    var k := Position(front, id);
    PositionIs(front + [last], id, if k < |front| then k else if last.id == id then k else k + 1);
  }

  /**
    After a registration that window, with its new data, is the only active one; the
    rest keep their places and data, an id already listed keeps its place, and a new id
    goes last.
   */
  lemma RegisterFocuses(ws: seq<Entry>, id: nat, appId: string, title: string, handle: nat)
    requires Inv(ws) && handle != NULL
    ensures var e := Listed(id, appId, title, handle);
      var r := Registered(ws, e);
      && Inv(r) && OnlyActive(r, Position(ws, id)) && r[Position(ws, id)] == e && e.title != ""
      && |r| == (if Has(ws, id) then |ws| else |ws| + 1)
      && e == Entry(id, appId, if title != "" then title else if appId != "" then appId else "Application",
                    true, handle)
      && (forall k :: 0 <= k < |ws| && k != Position(ws, id) ==> r[k] == ws[k].(isActive := false))
  {
    var rest := Deactivated(ws);
    var k := Position(ws, id);
    PositionIs(rest, id, k);
    HasIsIn(ws, id);
    hide Position, Inv;
    var e := Listed(id, appId, title, handle);
    PlacingFocuses(ws, Registered(ws, e), e, k);
  }

  /** r is ws with e put at k, or added at the end, and the others deactivated. */
  predicate Placed(ws: seq<Entry>, r: seq<Entry>, e: Entry, k: nat) {
    && k <= |ws| && k < |r| && r[k] == e && |r| == (if k < |ws| then |ws| else |ws| + 1)
    && forall j :: 0 <= j < |ws| && j != k ==> r[j] == ws[j].(isActive := false)
  }

  lemma PlacingFocuses(ws: seq<Entry>, r: seq<Entry>, e: Entry, k: nat)
    requires Inv(ws) && Placed(ws, r, e, k) && e.isActive && e.handle != NULL
    requires forall j :: 0 <= j < |ws| && j != k ==> ws[j].id != e.id
    ensures Inv(r) && OnlyActive(r, k)
  {
    forall j | 0 <= j < |r| && j != k
      ensures r[j].handle != NULL && !r[j].isActive && r[j].id != e.id
    {
      assert j < |ws|;
    }
    forall i, j | 0 <= i < j < |r|
      ensures r[i].id != r[j].id
    {
      if i != k && j != k { assert ws[i].id != ws[j].id; }
    }
  }

  /**
    An unregistration that removes a window and leaves others makes exactly one window
    active: the one that was active if it is still there, else the last.
   */
  lemma UnregisterRefocuses(ws: seq<Entry>, id: nat)
    requires Inv(ws)
    ensures var r := Unregistered(ws, id);
      var k := Position(ws, id);
      && Inv(r) && !Has(r, id)
      && (if Has(ws, id) then Ids(r) == Ids(ws)[..k] + Ids(ws)[k + 1..] && TakesOver(ws, r, k) else r == ws)
  {
    HasIsIn(ws, id);
    UnregisteredIs(ws, id);
    var k := Position(ws, id);
    hide Position, Inv, TakesOver, Unregistered, Refocused, Without, Has;
    if k < |ws| {
      var rest := ws[..k] + ws[k + 1..];
      Shifted(ws, rest, k);
      hide Drops;
      RemovalRefocuses(ws, rest, k);
    } else {
      UnlistedHasNot(ws, id);
    }
  }

  lemma UnlistedHasNot(ws: seq<Entry>, id: nat)
    requires Position(ws, id) == |ws|
    ensures !Has(ws, id)
  {
  }

  lemma UnregisteredIs(ws: seq<Entry>, id: nat)
    requires UniqueIds(ws)
    ensures var k := Position(ws, id);
      Unregistered(ws, id) == if k < |ws| then Refocused(ws[..k] + ws[k + 1..]) else ws
  {
    hide Position, UniqueIds, Refocused;
    WithoutOne(ws, id);
  }

  /** After the window at k of ws is gone: the active window if it survives, else the last of r. */
  predicate TakesOver(ws: seq<Entry>, r: seq<Entry>, k: nat) {
    && |r| + 1 == |ws| && Focused(r)
    && (forall a :: 0 <= a < |ws| && a != k && ws[a].isActive ==> OnlyActive(r, if a < k then a else a - 1))
    && (|r| > 0 && (forall a :: 0 <= a < |ws| && ws[a].isActive ==> a == k) ==> OnlyActive(r, |r| - 1))
  }

  /** Entry a of ws stands at a, or one place earlier once the entry at k before it is gone. */
  predicate Drops(ws: seq<Entry>, rest: seq<Entry>, k: nat) {
    && k < |ws| && |rest| == |ws| - 1
    && (forall a :: 0 <= a < k ==> rest[a] == ws[a])
    && (forall a :: k <= a < |rest| ==> rest[a] == ws[a + 1])
  }

  lemma Shifted(ws: seq<Entry>, rest: seq<Entry>, k: nat)
    requires k < |ws| && rest == ws[..k] + ws[k + 1..]
    ensures Drops(ws, rest, k) && Ids(rest) == Ids(ws)[..k] + Ids(ws)[k + 1..]
  {
  }

  lemma RemovalRefocuses(ws: seq<Entry>, rest: seq<Entry>, k: nat)
    requires Inv(ws) && Drops(ws, rest, k)
    ensures var r := Refocused(rest);
      Inv(r) && !Has(r, ws[k].id) && Ids(r) == Ids(rest) && TakesOver(ws, r, k)
  {
    var r := Refocused(rest);
    forall a | 0 <= a < |ws| && a != k && ws[a].isActive
      ensures OnlyActive(r, if a < k then a else a - 1)
    {
      assert rest[if a < k then a else a - 1].isActive;
    }
  }

  /** Activating id makes it the only active window when listed; otherwise it clears the focus. */
  lemma ActivateFocuses(ws: seq<Entry>, id: nat, active: bool)
    requires Inv(ws)
    ensures var r := Activated(ws, id, active);
      && Inv(r) && Ids(r) == Ids(ws)
      && (active && Has(ws, id) ==> OnlyActive(r, Position(ws, id)))
      && (active && !Has(ws, id) ==> !SomeActive(r))
      && (!active ==> forall k :: 0 <= k < |ws| ==> (r[k].isActive <==> ws[k].isActive && ws[k].id != id))
  {
  }

  /** A new title goes to the window of that id and to no other, and nothing else changes. */
  lemma RetitleOutcome(ws: seq<Entry>, id: nat, title: string)
    requires UniqueIds(ws)
    ensures var r := Retitled(ws, id, title);
      |r| == |ws| && forall k :: 0 <= k < |ws| ==> r[k] == if ws[k].id == id then ws[k].(title := title) else ws[k]
  {
  }

  /** No call breaks the invariant. */
  lemma ApplyKeeps(t: Tracker, c: Call)
    requires Inv(t.windows)
    ensures Inv(Apply(t, c).windows)
  {
    match c
    case Register(id, appId, title, handle) =>
      if handle != NULL { RegisterFocuses(t.windows, id, appId, title, handle); }
    case SetActive(id, active) => ActivateFocuses(t.windows, id, active);
    case Unregister(id) => UnregisterRefocuses(t.windows, id);
    case RequestActivate(id) => ActivateFocuses(t.windows, id, true);
    case _ =>
  }

  /** Over all call sequences ids are unique, handles are real and at most one window is active. */
  lemma {:induction false} RunKeeps(calls: seq<Call>)
    ensures Inv(Run(EMPTY, calls).windows)
    decreases |calls|
  {
    if calls != [] {
      RunKeeps(calls[..|calls| - 1]);
      ApplyKeeps(Run(EMPTY, calls[..|calls| - 1]), calls[|calls| - 1]);
    }
  }

  /**
    A shell request reaches an installed handler under its own name, after all earlier
    ones, and changes no window; without a handler an activation is done at once and a
    close is ignored.
   */
  lemma RequestsGoToTheHandler(t: Tracker, id: nat)
    ensures var a, c := Apply(t, RequestActivate(id)), Apply(t, RequestClose(id));
      && (t.hasHandler ==>
            && a == t.(requests := a.requests) && a.requests == t.requests + [Request(id, "activate")]
            && c == t.(requests := c.requests) && c.requests == t.requests + [Request(id, "close")])
      && (!t.hasHandler ==> a == Apply(t, SetActive(id, true)) && c == t)
  {
  }

  // ---------------------------------------------------------------------------
  // When the focus is lost
  // ---------------------------------------------------------------------------

  /**
    The calls that leave windows but none active: deactivating the active one, and
    activating an id that is not listed.
   */
  predicate LosesFocus(t: Tracker, c: Call) {
    match c
    case SetActive(id, active) =>
      t.windows != [] &&
      if active then !Has(t.windows, id)
      else exists k :: 0 <= k < |t.windows| && t.windows[k].isActive && t.windows[k].id == id
    case RequestActivate(id) => t.windows != [] && !t.hasHandler && !Has(t.windows, id)
    case _ => false
  }

  /** From a focused list exactly those calls lose the focus. */
  lemma FocusLostIff(t: Tracker, c: Call)
    requires Inv(t.windows) && Focused(t.windows)
    ensures Focused(Apply(t, c).windows) <==> !LosesFocus(t, c)
  {
    hide Registered, Retitled, Activated, Unregistered, Inv;
    var ws := t.windows;
    match c
    case Register(id, appId, title, handle) =>
      if handle != NULL {
        RegisterFocuses(ws, id, appId, title, handle);
        OnlyActiveIsFocused(Registered(ws, Listed(id, appId, title, handle)), Position(ws, id));
      }
    case UpdateTitle(id, title) => RetitleKeepsFocus(ws, id, title);
    case SetActive(id, active) => ActivateKeepsFocusIff(ws, id, active);
    case Unregister(id) => UnregisterRefocuses(ws, id);
    case RequestActivate(id) => ActivateKeepsFocusIff(ws, id, true);
    case _ =>
  }

  lemma OnlyActiveIsFocused(ws: seq<Entry>, k: nat)
    requires OnlyActive(ws, k)
    ensures Focused(ws)
  {
    assert ws[k].isActive;
  }

  lemma RetitleKeepsFocus(ws: seq<Entry>, id: nat, title: string)
    requires Inv(ws) && Focused(ws)
    ensures Focused(Retitled(ws, id, title))
  {
    if ws != [] {
      var k :| 0 <= k < |ws| && ws[k].isActive;
      assert Retitled(ws, id, title)[k].isActive;
    }
  }

  lemma ActivateKeepsFocusIff(ws: seq<Entry>, id: nat, active: bool)
    requires Inv(ws) && Focused(ws)
    ensures Focused(Activated(ws, id, active)) <==>
            ws == [] || if active then Has(ws, id) else !exists k :: 0 <= k < |ws| && ws[k].isActive && ws[k].id == id
  {
    var r := Activated(ws, id, active);
    ActivateFocuses(ws, id, active);
    if ws == [] {
    } else if active && Has(ws, id) {
      assert r[Position(ws, id)].isActive;
    } else if !active {
      var a :| 0 <= a < |ws| && ws[a].isActive;
      assert forall k :: 0 <= k < |ws| && ws[k].isActive ==> k == a;
      if ws[a].id != id { assert r[a].isActive; }
    }
  }

  /** No call of the run loses the focus. */
  predicate KeepsFocus(calls: seq<Call>)
    decreases |calls|
  {
    calls == [] ||
    (KeepsFocus(calls[..|calls| - 1]) && !LosesFocus(Run(EMPTY, calls[..|calls| - 1]), calls[|calls| - 1]))
  }

  /** In such a run exactly one window is active whenever there is one. */
  lemma {:induction false} FocusedRuns(calls: seq<Call>)
    requires KeepsFocus(calls)
    ensures Focused(Run(EMPTY, calls).windows)
    decreases |calls|
  {
    if calls != [] {
      var front := calls[..|calls| - 1];
      FocusedRuns(front);
      RunKeeps(front);
      FocusLostIff(Run(EMPTY, front), calls[|calls| - 1]);
    }
  }

  // ---------------------------------------------------------------------------
  // The list is the history: who is listed, and in what order
  // ---------------------------------------------------------------------------

  predicate Opens(c: Call, id: nat) { c.Register? && c.id == id && c.handle != NULL }
  predicate Closes(c: Call, id: nat) { c.Clear? || (c.Unregister? && c.id == id) }

  /** The call that opened id, or -1 when it is not open. */
  function Since(calls: seq<Call>, id: nat): int
    decreases |calls|
  {
    if calls == [] then -1
    else
      var n := |calls| - 1;
      var before := Since(calls[..n], id);
      if Closes(calls[n], id) then -1
      else if Opens(calls[n], id) && before < 0 then n
      else before
  }

  predicate ClosedBetween(calls: seq<Call>, id: nat, from: nat, to: nat) {
    exists k :: from <= k < to <= |calls| && Closes(calls[k], id)
  }

  /**
    Since is the earliest registration not followed by a closing call, and -1 when
    every registration is.
   */
  lemma {:induction false} SinceIsEarliest(calls: seq<Call>, id: nat)
    ensures var s := Since(calls, id);
      && s < |calls|
      && (s >= 0 ==> Opens(calls[s], id) && !ClosedBetween(calls, id, s, |calls|))
      && (forall q :: 0 <= q < |calls| && Opens(calls[q], id) && (s < 0 || q < s) ==>
                        ClosedBetween(calls, id, q, |calls|))
    decreases |calls|
  {
    if calls != [] {
      var n := |calls| - 1;
      var front := calls[..n];
      SinceIsEarliest(front, id);
      var s := Since(calls, id);
      forall q | 0 <= q < |calls| && Opens(calls[q], id) && (s < 0 || q < s)
        ensures ClosedBetween(calls, id, q, |calls|)
      {
        if Closes(calls[n], id) {
        } else {
          assert q < n && Opens(front[q], id);
          var k :| q <= k < n && Closes(front[k], id);
          assert Closes(calls[k], id);
        }
      }
      if s >= 0 {
        assert forall k :: 0 <= k < n && Closes(calls[k], id) ==> Closes(front[k], id);
      }
    }
  }

  predicate InOrder(calls: seq<Call>, ids: seq<nat>) {
    && (forall k :: 0 <= k < |ids| ==> Since(calls, ids[k]) >= 0)
    && (forall j, k :: 0 <= j < k < |ids| ==> Since(calls, ids[j]) < Since(calls, ids[k]))
  }

  /** The list holds exactly the open windows, in the order they were opened. */
  ghost predicate Lists(calls: seq<Call>, ids: seq<nat>) {
    InOrder(calls, ids) && forall id :: Since(calls, id) >= 0 ==> id in ids
  }

  /** How each call changes the list of ids. */
  function NextIds(ids: seq<nat>, c: Call): seq<nat> {
    match c
    case Register(id, _, _, handle) => if handle == NULL || id in ids then ids else ids + [id]
    case Unregister(id) => Removed(ids, id)
    case Clear => []
    case _ => ids
  }

  function Removed(ids: seq<nat>, id: nat): (r: seq<nat>)
    ensures forall x :: x in r <==> x in ids && x != id
    ensures id !in ids ==> r == ids
    decreases |ids|
  {
    if ids == [] then []
    else
      var n := |ids| - 1;
      assert ids == ids[..n] + [ids[n]];
      Removed(ids[..n], id) + if ids[n] == id then [] else [ids[n]]
  }

  lemma {:induction false} IdsWithout(ws: seq<Entry>, id: nat)
    ensures Ids(Without(ws, id)) == Removed(Ids(ws), id)
    decreases |ws|
  {
    if ws != [] {
      var n := |ws| - 1;
      IdsWithout(ws[..n], id);
      assert Ids(ws)[..n] == Ids(ws[..n]);
    }
  }

  lemma RegisterIds(ws: seq<Entry>, id: nat, appId: string, title: string, handle: nat)
    requires Inv(ws) && handle != NULL
    ensures Ids(Registered(ws, Listed(id, appId, title, handle))) == if id in Ids(ws) then Ids(ws) else Ids(ws) + [id]
  {
    var rest := Deactivated(ws);
    PositionIs(rest, id, Position(ws, id));
    hide Position;
    HasIsIn(ws, id);
  }

  lemma UnregisterIds(ws: seq<Entry>, id: nat)
    requires Inv(ws)
    ensures Ids(Unregistered(ws, id)) == Removed(Ids(ws), id)
    ensures |Without(ws, id)| == |ws| ==> Removed(Ids(ws), id) == Ids(ws)
  {
    IdsWithout(ws, id);
    WithoutOne(ws, id);
    var rest := Without(ws, id);
    assert |rest| == |ws| ==> rest == ws;
    hide Removed, Position, Without, Inv, Refocused;
    RefocusIds(rest);
  }

  lemma RefocusIds(ws: seq<Entry>)
    ensures Ids(Refocused(ws)) == Ids(ws)
  {
  }

  lemma ApplyIds(t: Tracker, c: Call)
    requires Inv(t.windows)
    ensures Ids(Apply(t, c).windows) == NextIds(Ids(t.windows), c)
  {
    hide Registered, Unregistered, Without, Position;
    var ws := t.windows;
    match c
    case Register(id, appId, title, handle) => if handle != NULL { RegisterIds(ws, id, appId, title, handle); }
    case UpdateTitle(id, title) =>
    case SetActive(id, active) => ActivateFocuses(ws, id, active);
    case Unregister(id) => UnregisterIds(ws, id);
    case RequestActivate(id) => ActivateFocuses(ws, id, true);
    case _ =>
  }

  /** All of ids were opened before id. */
  predicate Before(calls: seq<Call>, ids: seq<nat>, id: nat) {
    forall k :: 0 <= k < |ids| ==> Since(calls, ids[k]) < Since(calls, id)
  }

  lemma FrontInOrder(calls: seq<Call>, ids: seq<nat>)
    requires ids != [] && InOrder(calls, ids)
    ensures var n := |ids| - 1;
      InOrder(calls, ids[..n]) && Before(calls, ids[..n], ids[n]) && Since(calls, ids[n]) >= 0
  {
    hide Since;
  }

  lemma RemovedStaysBefore(calls: seq<Call>, ids: seq<nat>, id: nat, last: nat)
    requires Before(calls, ids, last)
    ensures Before(calls, Removed(ids, id), last)
  {
    hide Since;
    var r := Removed(ids, id);
    forall k | 0 <= k < |r| ensures Since(calls, r[k]) < Since(calls, last) {
      assert r[k] in ids;
    }
  }

  /** Order of opening survives a removal. */
  lemma {:induction false} RemovedKeepsOrder(calls: seq<Call>, ids: seq<nat>, id: nat)
    requires InOrder(calls, ids)
    ensures InOrder(calls, Removed(ids, id))
    decreases |ids|
  {
    hide Since, InOrder, Before;
    if ids == [] {
      assert Removed(ids, id) == ids;
    } else {
      var n := |ids| - 1;
      FrontInOrder(calls, ids);
      RemovedKeepsOrder(calls, ids[..n], id);
      RemovedStaysBefore(calls, ids[..n], id, ids[n]);
      AddLast(calls, Removed(ids[..n], id), ids[n]);
      assert Removed(ids, id) == Removed(ids[..n], id) || Removed(ids, id) == Removed(ids[..n], id) + [ids[n]];
    }
  }

  lemma AddLast(calls: seq<Call>, ids: seq<nat>, id: nat)
    requires InOrder(calls, ids) && Since(calls, id) >= 0 && Before(calls, ids, id)
    ensures InOrder(calls, ids + [id])
  {
    hide Since;
  }

  /** A call that does not close them leaves the open windows where they were. */
  lemma OrderCarriesOver(calls: seq<Call>, c: Call, ids: seq<nat>)
    requires InOrder(calls, ids)
    requires forall k :: 0 <= k < |ids| ==> !Closes(c, ids[k])
    ensures InOrder(calls + [c], ids)
  {
    forall k | 0 <= k < |ids|
      ensures Since(calls + [c], ids[k]) == Since(calls, ids[k])
    {
      SinceNext(calls, c, ids[k]);
    }
  }

  lemma SinceNext(calls: seq<Call>, c: Call, id: nat)
    ensures var before := Since(calls, id);
      Since(calls + [c], id) ==
        if Closes(c, id) then -1 else if Opens(c, id) && before < 0 then |calls| else before
    ensures Since(calls, id) < |calls|
  {
    assert (calls + [c])[..|calls|] == calls;
    SinceIsEarliest(calls, id);
  }

  lemma ListsNext(calls: seq<Call>, c: Call, ids: seq<nat>)
    requires Lists(calls, ids)
    ensures Lists(calls + [c], NextIds(ids, c))
  {
    var after, next := calls + [c], NextIds(ids, c);
    hide Since, Removed;
    forall id | Since(after, id) >= 0
      ensures id in next
    {
      SinceNext(calls, c, id);
    }
    if c.Unregister? {
      RemovedKeepsOrder(calls, ids, c.id);
      OrderCarriesOver(calls, c, next);
    } else if c.Clear? {
    } else {
      OrderCarriesOver(calls, c, ids);
      if next != ids {
        NewestIsLast(calls, c, ids);
      }
    }
  }

  lemma NewestIsLast(calls: seq<Call>, c: Call, ids: seq<nat>)
    requires Lists(calls, ids) && InOrder(calls + [c], ids) && c.Register? && Opens(c, c.id) && c.id !in ids
    ensures InOrder(calls + [c], ids + [c.id])
  {
    hide Since;
    SinceNext(calls, c, c.id);
    forall k | 0 <= k < |ids|
      ensures Since(calls + [c], ids[k]) < Since(calls + [c], c.id)
    {
      SinceNext(calls, c, ids[k]);
    }
    AddLast(calls + [c], ids, c.id);
  }

  function IdsAfter(calls: seq<Call>): seq<nat> {
    Ids(Run(EMPTY, calls).windows)
  }

  lemma IdsAfterNext(calls: seq<Call>, c: Call)
    ensures IdsAfter(calls + [c]) == NextIds(IdsAfter(calls), c)
  {
    hide Apply, NextIds, Inv;
    assert (calls + [c])[..|calls|] == calls;
    RunKeeps(calls);
    ApplyIds(Run(EMPTY, calls), c);
  }

  lemma NothingListed()
    ensures Lists([], IdsAfter([]))
  {
  }

  lemma {:induction false} ListIsHistory(calls: seq<Call>)
    ensures Lists(calls, IdsAfter(calls))
    decreases |calls|
  {
    hide IdsAfter, Lists, NextIds;
    if calls == [] {
      NothingListed();
    } else {
      var front, c := calls[..|calls| - 1], calls[|calls| - 1];
      ListIsHistory(front);
      assert front + [c] == calls;
      IdsAfterNext(front, c);
      ListsNext(front, c, IdsAfter(front));
    }
  }

  // ---------------------------------------------------------------------------
  // The listener never lags
  // ---------------------------------------------------------------------------

  /** While a listener stays installed, what it read last is the list. */
  lemma {:induction false} ListenerIsCurrent(t: Tracker, calls: seq<Call>)
    requires t.hasListener && t.seen == t.windows
    requires forall k :: 0 <= k < |calls| ==> !calls[k].SetChangeListener?
    ensures var u := Run(t, calls);
      u.hasListener && u.seen == u.windows
    decreases |calls|
  {
    if calls != [] {
      var n := |calls| - 1;
      assert forall k :: 0 <= k < n ==> calls[..n][k] == calls[k];
      ListenerIsCurrent(t, calls[..n]);
      ApplyIsCurrent(Run(t, calls[..n]), calls[n]);
    }
  }

  lemma ApplyIsCurrent(t: Tracker, c: Call)
    requires t.hasListener && t.seen == t.windows && !c.SetChangeListener?
    ensures var u := Apply(t, c);
      u.hasListener && u.seen == u.windows
  {
    hide Registered, Retitled, Activated, Unregistered, Position, Without;
  }
}
