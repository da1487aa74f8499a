/**
  The desktop shell client: its fields, and the loops that lay the panel and the
  launcher out, test clicks against them, filter the catalogue, bind seat devices and
  run the event loop, each proved to compute its specification.
 */
module DesktopShell {
  import opened ShellCatalog
  import opened ShellLayout
  import Launching = ShellLauncher
  import Seats = ShellSeat
  import Events = ShellEventLoop

  /** What the pointer is over; Drawer is the launcher's surface. */
  datatype Surface = Panel | Drawer | Background | Elsewhere

  class DesktopShellClient {
    var width: int
    var launcherWidth: int
    var launcherHeight: int
    var launcherOpen: bool
    var selectedLauncherItem: int
    var searchQuery: string
    var selectedCategory: string
    var launcherMenu: seq<Item>
    var hasLaunchHandler: bool
    var launched: seq<(string, string)>     // calls made to the launch handler
    var pointer: Seats.Device               // bound, with the requests made for it
    var touch: Seats.Device
    var keyboard: Seats.Device

    ghost function Launcher(): (l: Launching.Launcher)
      reads this
    {
      Launching.Launcher(launcherOpen, selectedLauncherItem, searchQuery, selectedCategory,
                         launcherMenu, hasLaunchHandler, launched)
    }

    ghost function Seat(): (s: Seats.Seat)
      reads this
    {
      Seats.Seat(pointer, touch, keyboard)
    }

    constructor (menu: seq<Item>)
      ensures Launcher() == Launching.Created(menu) && Seat() == Seats.NO_DEVICES
      ensures width == 1080 && launcherWidth == 360 && launcherHeight == 420
    {
      width, launcherWidth, launcherHeight := 1080, 360, 420;
      launcherOpen, selectedLauncherItem, searchQuery, selectedCategory := false, 0, "", "All";
      launcherMenu, hasLaunchHandler, launched := menu, false, [];
      pointer, touch, keyboard := Seats.UNBOUND, Seats.UNBOUND, Seats.UNBOUND;
    }

    // -------------------------------------------------------------------------
    // Catalogue and selection
    // -------------------------------------------------------------------------

    method GetFilteredLauncherItems() returns (filtered: seq<Item>)
      ensures filtered == Launching.Items(Launcher())
    {
      filtered := [];
      var lowerQuery := Lower(searchQuery);
      for i := 0 to |launcherMenu|
        invariant filtered == Filter(launcherMenu[..i], selectedCategory, lowerQuery)
      {
        var item := launcherMenu[i];
        FilterSnoc(launcherMenu[..i], item, selectedCategory, lowerQuery);
        assert launcherMenu[..i + 1] == launcherMenu[..i] + [item];
        if selectedCategory != "All" && item.category != selectedCategory { continue; }
        if lowerQuery != "" {
          if !Contains(Lower(item.name), lowerQuery) && !Contains(Lower(item.description), lowerQuery) {
            continue;
          }
        }
        filtered := filtered + [item];
      }
      assert launcherMenu[..|launcherMenu|] == launcherMenu;
    }

    method SetLauncherOpen(open: bool)
      modifies `launcherOpen
      ensures Launcher() == Launching.Apply(old(Launcher()), Launching.DoSetOpen(open)) && launcherOpen == open
    {
      if launcherOpen == open { return; }
      launcherOpen := open;
    }

    method SelectNextLauncherItem()
      modifies `selectedLauncherItem
      ensures Launcher() == Launching.Apply(old(Launcher()), Launching.DoNext)
    {
      var items := GetFilteredLauncherItems();
      if items == [] { return; }
      selectedLauncherItem := (selectedLauncherItem + 1) % |items|;
    }

    method SelectPrevLauncherItem()
      modifies `selectedLauncherItem
      ensures Launcher() == Launching.Apply(old(Launcher()), Launching.DoPrev)
    {
      var items := GetFilteredLauncherItems();
      if items == [] { return; }
      selectedLauncherItem := (selectedLauncherItem - 1 + |items|) % |items|;
    }

    method ActivateSelectedLauncherItem()
      modifies `launcherOpen, `launched
      ensures Launcher() == Launching.Apply(old(Launcher()), Launching.DoActivate)
      ensures var items := Launching.Items(Launcher());
        var hits := 0 <= selectedLauncherItem < |items|;
        && launcherOpen == (old(launcherOpen) && !hits)
        && launched == old(launched) + if hits && hasLaunchHandler
             then [(items[selectedLauncherItem].name, items[selectedLauncherItem].execPath)] else []
    {
      var items := GetFilteredLauncherItems();
      if selectedLauncherItem < 0 || selectedLauncherItem >= |items| { return; }
      var item := items[selectedLauncherItem];
      launcherOpen := false;
      if hasLaunchHandler { launched := launched + [(item.name, item.execPath)]; }
    }

    method UpdateApplicationCatalog(menu: seq<Item>)
      modifies `launcherMenu, `selectedLauncherItem
      ensures Launcher() == Launching.Apply(old(Launcher()), Launching.DoUpdateCatalog(menu))
      ensures launcherMenu == menu && selectedLauncherItem == 0
    {
      launcherMenu := menu;
      selectedLauncherItem := 0;
    }

    method SetLauncherSearchQuery(query: string)
      modifies `searchQuery, `selectedLauncherItem
      ensures Launcher() == Launching.Apply(old(Launcher()), Launching.DoSetSearch(query))
      ensures searchQuery == query && selectedLauncherItem == 0
    {
      searchQuery := query;
      selectedLauncherItem := 0;
    }

    method SelectLauncherCategory(category: string)
      modifies `selectedCategory, `selectedLauncherItem
      ensures Launcher() == Launching.Apply(old(Launcher()), Launching.DoSelectCategory(category))
      ensures selectedCategory == category && selectedLauncherItem == 0
    {
      selectedCategory := category;
      selectedLauncherItem := 0;
    }

    method LaunchApplication(index: nat)
      modifies `launcherOpen, `launched
      ensures Launcher() == Launching.Apply(old(Launcher()), Launching.DoLaunchAt(index))
      ensures launcherOpen == (old(launcherOpen) && index >= |launcherMenu|)
      ensures launched == old(launched) + if index < |launcherMenu| && hasLaunchHandler
                                          then [(launcherMenu[index].name, launcherMenu[index].execPath)] else []
    {
      if index >= |launcherMenu| { return; }
      var name, path := launcherMenu[index].name, launcherMenu[index].execPath;
      launcherOpen := false;
      if hasLaunchHandler { launched := launched + [(name, path)]; }
    }

    // -------------------------------------------------------------------------
    // Layout
    // -------------------------------------------------------------------------

    /** The pills of the taskbar for count windows: exactly the leading ones that fit. */
    method LayOutPills(count: nat) returns (pills: seq<Rect>, closeIcons: seq<Rect>)
      ensures |pills| == |closeIcons| <= count
      ensures forall i :: 0 <= i < |pills| ==> pills[i] == PillRect(i) && closeIcons[i] == CloseIconRect(i)
      ensures forall i :: 0 <= i < |pills| ==>
                pills[i] == Rect(112 + 166 * i, 6, 160, 36) && closeIcons[i] == Rect(252 + 166 * i, 16, 16, 16)
      ensures forall i: nat :: i < count ==> (PillFits(i, width) <==> i < |pills|)
      ensures |pills| < count ==> 272 + 166 * |pills| >= width - 180
      ensures |pills| > 0 ==> 106 + 166 * |pills| < width - 180
    {
      pills, closeIcons := [], [];
      var winX, i := 112, 0;
      while i < count && winX + 160 < width - 180
        invariant i <= count && winX == PillX(i) && |pills| == |closeIcons| == i
        invariant forall k :: 0 <= k < i ==> pills[k] == PillRect(k) && closeIcons[k] == CloseIconRect(k)
        invariant forall k: nat :: k < i ==> PillFits(k, width)
        invariant i > 0 ==> 106 + 166 * i < width - 180
      {
        pills := pills + [Rect(winX, 6, 160, 36)];
        closeIcons := closeIcons + [Rect(winX + 160 - 20, 6 + 10, 16, 16)];
        winX := winX + 160 + 6;
        i := i + 1;
      }
    }

    /** The rows of the launcher for count entries: exactly the leading ones that fit. */
    method LayOutRows(count: nat) returns (rows: seq<Rect>)
      ensures |rows| <= count
      ensures forall i :: 0 <= i < |rows| ==> rows[i] == RowRect(i, launcherWidth)
      ensures forall i :: 0 <= i < |rows| ==> rows[i] == Rect(8, 92 + 48 * i, launcherWidth - 16, 44)
      ensures forall i: nat :: i < count ==> (RowFits(i, launcherHeight) <==> i < |rows|)
      ensures |rows| < count ==> 136 + 48 * |rows| > launcherHeight - 8
      ensures |rows| > 0 ==> 88 + 48 * |rows| <= launcherHeight - 8
    {
      rows := [];
      var itemY, i := 92, 0;
      while i < count && itemY + 44 <= launcherHeight - 8
        invariant i <= count && itemY == RowY(i) && |rows| == i
        invariant forall k :: 0 <= k < i ==> rows[k] == RowRect(k, launcherWidth)
        invariant forall k: nat :: k < i ==> RowFits(k, launcherHeight)
        invariant i > 0 ==> 88 + 48 * i <= launcherHeight - 8
      {
        rows := rows + [Rect(8, itemY, launcherWidth - 16, 44)];
        itemY := itemY + 44 + 4;
        i := i + 1;
      }
    }

    // -------------------------------------------------------------------------
    // Clicks
    // -------------------------------------------------------------------------

    /** A click on the panel; the action names a window by its position in the list. */
    method HandlePanelClick(count: nat, x: real, y: real) returns (action: PanelAction)
      modifies `launcherOpen
      ensures action == PanelClick(count, x, y)
      ensures launcherOpen == if action == ToggleLauncher then !old(launcherOpen) else old(launcherOpen)
    {
      if 8.0 <= x <= 100.0 && 6.0 <= y <= 42.0 {
        SetLauncherOpen(!launcherOpen);
        return ToggleLauncher;
      }
      var winX, i := 112, 0;
      while i < count
        invariant i <= count && winX == PillX(i)
        invariant PillClick(count, x, y, i) == PillClick(count, x, y, 0)
      {
        if x >= winX as real && x <= (winX + 160) as real && 6.0 <= y <= 42.0 {
          if x >= (winX + 160 - 24) as real { return CloseWindow(i); } else { return ToggleMinimize(i); }
        }
        winX := winX + 160 + 6;
        i := i + 1;
      }
      return NoPanelAction;
    }

    /** The category loop: selects the category under x, if there is one. */
    method ClickCategory(x: real) returns (hit: LauncherHit)
      modifies `selectedCategory, `selectedLauncherItem
      ensures hit == CategoryClick(x, 0)
      ensures Launcher() == if hit.Category? && hit.index < |CATEGORIES|
                            then old(Launcher()).(category := CATEGORIES[hit.index], selected := 0)
                            else old(Launcher())
    {
      var catX, k := 12, 0;
      while k < |CATEGORIES|
        invariant k <= |CATEGORIES| && catX == CategoryX(k)
        invariant CategoryClick(x, k) == CategoryClick(x, 0)
        invariant Launcher() == old(Launcher())
      {
        var catW := 8 * |CATEGORIES[k]| + 16;
        if catX as real <= x <= (catX + catW) as real {
          SelectLauncherCategory(CATEGORIES[k]);
          return Category(k);
        }
        catX := catX + catW + 6;
        k := k + 1;
      }
      return NoHit;
    }

    /** The search of the catalogue for the entry of a row. */
    method FindInMenu(item: Item) returns (m: nat)
      ensures m == LookUp(launcherMenu, item, 0)
    {
      m := 0;
      while m < |launcherMenu|
        invariant m <= |launcherMenu| && LookUp(launcherMenu, item, m) == LookUp(launcherMenu, item, 0)
      {
        if launcherMenu[m].execPath == item.execPath && launcherMenu[m].name == item.name { return; }
        m := m + 1;
      }
    }

    method HandleLauncherClick(x: real, y: real)
      modifies this
      ensures Launcher() == Launching.Click(old(Launcher()), old(launcherWidth), x, y)
    {
      if 58.0 <= y <= 82.0 {
        CategoryClickIsCategory(x, 0);
        var hit := ClickCategory(x);
        if hit != NoHit { return; }
      }
      var items := GetFilteredLauncherItems();
      var itemY, i := 92, 0;
      while i < |items|
        invariant i <= |items| && itemY == RowY(i) && Launcher() == old(Launcher())
        invariant launcherWidth == old(launcherWidth)
        invariant RowClick(|items|, launcherWidth, x, y, i) == RowClick(|items|, launcherWidth, x, y, 0)
      {
        if x >= 8.0 && x <= (launcherWidth - 8) as real && y >= itemY as real && y <= (itemY + 44) as real {
          var m := FindInMenu(items[i]);
          LookUpFinds(launcherMenu, selectedCategory, Lower(searchQuery), i);
          LaunchApplication(m);
          return;
        }
        itemY := itemY + 44 + 4;
        i := i + 1;
      }
    }

    /** A click on any surface: only the panel acts on windows. */
    method HandlePointerClick(surface: Surface, count: nat, x: real, y: real) returns (action: PanelAction)
      modifies this
      ensures action == if surface == Panel then PanelClick(count, x, y) else NoPanelAction
      ensures Launcher() == match surface
        case Panel => if PanelClick(count, x, y) == ToggleLauncher
                      then old(Launcher()).(open := !old(launcherOpen)) else old(Launcher())
        case Drawer => Launching.Click(old(Launcher()), old(launcherWidth), x, y)
        case Background => old(Launcher()).(open := false)
        case Elsewhere => old(Launcher())
    {
      action := NoPanelAction;
      if surface == Panel {
        action := HandlePanelClick(count, x, y);
      } else if surface == Drawer {
        HandleLauncherClick(x, y);
      } else if surface == Background {
        if launcherOpen {
          SetLauncherOpen(false);
        }
      }
    }

    // -------------------------------------------------------------------------
    // Seat devices
    // -------------------------------------------------------------------------

    method SeatHandleCapabilities(caps: bv32)
      modifies `pointer, `touch, `keyboard
      ensures Seat() == Seats.Capabilities(old(Seat()), caps)
      ensures pointer.bound == (caps & 1 != 0) && keyboard.bound == (caps & 2 != 0) && touch.bound == (caps & 4 != 0)
    {
      if caps & Seats.CAN_POINT != 0 && !pointer.bound {
        pointer := pointer.(bound := true, gets := pointer.gets + 1);
      } else if caps & Seats.CAN_POINT == 0 && pointer.bound {
        pointer := pointer.(bound := false, releases := pointer.releases + 1);
      }
      if caps & Seats.CAN_TOUCH != 0 && !touch.bound {
        touch := touch.(bound := true, gets := touch.gets + 1);
      } else if caps & Seats.CAN_TOUCH == 0 && touch.bound {
        touch := touch.(bound := false, releases := touch.releases + 1);
      }
      if caps & Seats.CAN_TYPE != 0 && !keyboard.bound {
        keyboard := keyboard.(bound := true, gets := keyboard.gets + 1);
      } else if caps & Seats.CAN_TYPE == 0 && keyboard.bound {
        keyboard := keyboard.(bound := false, releases := keyboard.releases + 1);
      }
    }

    /** The device part of cleanupWayland. */
    method ReleaseDevices()
      modifies `pointer, `touch, `keyboard
      ensures Seat() == Seats.Cleanup(old(Seat()))
    {
      if pointer.bound { pointer := pointer.(bound := false, releases := pointer.releases + 1); }
      if keyboard.bound { keyboard := keyboard.(bound := false, releases := keyboard.releases + 1); }
      if touch.bound { touch := touch.(bound := false, releases := touch.releases + 1); }
    }

    // -------------------------------------------------------------------------
    // The event loop
    // -------------------------------------------------------------------------

    /** prepare_read, dispatching what is queued as long as it fails. */
    method PrepareRead(busy: nat) returns (calls: seq<Events.Call>)
      ensures calls == Events.PrepareCalls(busy)
    {
      calls := [];
      var left := busy;
      while left > 0
        invariant calls + Events.PrepareCalls(left) == Events.PrepareCalls(busy)
      {
        ghost var before := calls;
        calls := calls + [Events.Prepare(false)];
        calls := calls + [Events.DispatchPending];
        left := left - 1;
        assert calls + Events.PrepareCalls(left)
            == before + ([Events.Prepare(false), Events.DispatchPending] + Events.PrepareCalls(left));
      }
      calls := calls + [Events.Prepare(true)];
    }

    /** One turn of the loop of threadMain, and whether it breaks out. */
    method LoopTurn(turn: Events.Turn) returns (calls: seq<Events.Call>, leave: bool)
      ensures calls == Events.TurnCalls(turn) && leave == Events.Leaves(turn)
      ensures leave <==> turn.flushFails || turn.poll == Events.Failed(false) || (turn.poll.Ready? && turn.poll.wake)
    {
      calls := PrepareRead(turn.busy);
      calls := calls + [Events.Flush(!turn.flushFails)];
      if turn.flushFails {
        calls := calls + [Events.CancelRead];
        return calls, true;
      }
      calls := calls + [Events.Poll];
      match turn.poll {
        case Failed(interrupted) =>
          calls := calls + [Events.CancelRead];
          leave := !interrupted;
        case TimedOut =>
          calls := calls + [Events.CancelRead];
          calls := calls + [Events.RepaintPanel];
          leave := false;
        case Ready(wake, display) =>
          leave := wake;
          if wake {
            calls := calls + [Events.CancelRead];
          } else if display {
            calls := calls + [Events.ReadEvents];
            calls := calls + [Events.DispatchPending];
          } else {
            calls := calls + [Events.CancelRead];
          }
      }
    }

    /** The loop of threadMain, returning the library calls it makes. */
    method ThreadLoop(turns: seq<Events.Turn>) returns (calls: seq<Events.Call>)
      ensures calls == Events.LoopCalls(turns)
    {
      hide Events.TurnCalls, Events.Leaves, Events.LoopCalls;
      calls := [];
      var k, leave := 0, false;
      NoTurns();
      assert turns[0..] == turns;
      while k < |turns| && !leave
        invariant k <= |turns|
        invariant calls + (if leave then [] else Events.LoopCalls(turns[k..])) == Events.LoopCalls(turns)
      {
        ghost var before := calls;
        LoopUnrolls(turns[k..]);
        var made;
        made, leave := LoopTurn(turns[k]);
        calls := calls + made;
        k := k + 1;
        assert turns[k - 1..][1..] == turns[k..];
        ghost var rest := if leave then [] else Events.LoopCalls(turns[k..]);
        assert before + (made + rest) == calls + rest;
      }
    }
  }

  lemma NoTurns()
    ensures Events.LoopCalls([]) == []
  {
  }

  lemma LoopUnrolls(turns: seq<Events.Turn>)
    requires turns != []
    ensures Events.LoopCalls(turns)
            == Events.TurnCalls(turns[0]) + if Events.Leaves(turns[0]) then [] else Events.LoopCalls(turns[1..])
  {
    hide Events.TurnCalls, Events.Leaves;
  }
}
