/**
  The launcher over whole runs: selection, search, categories, clicks and launches.
 */
module ShellLauncher {
  import opened ShellCatalog
  import opened ShellLayout

  /** launched lists the calls made to the launch handler: name and path. */
  datatype Launcher = Launcher(
    open: bool, selected: int, search: string, category: string, menu: seq<Item>,
    hasHandler: bool, launched: seq<(string, string)>)

  function Created(menu: seq<Item>): Launcher {
    Launcher(false, 0, "", "All", menu, false, [])
  }

  function Items(l: Launcher): seq<Item> {
    Filtered(l.menu, l.category, l.search)
  }

  function Launch(l: Launcher, item: Item): Launcher {
    l.(open := false,
       launched := if l.hasHandler then l.launched + [(item.name, item.execPath)] else l.launched)
  }

  function LaunchAt(l: Launcher, m: nat): Launcher {
    if m < |l.menu| then Launch(l, l.menu[m]) else l
  }

  function Activate(l: Launcher): Launcher {
    if 0 <= l.selected < |Items(l)| then Launch(l, Items(l)[l.selected]) else l
  }

  function Click(l: Launcher, width: int, x: real, y: real): Launcher {
    var items := Items(l);
    match LauncherClick(|items|, width, x, y)
    case NoHit => l
    case Category(k) => if k < |CATEGORIES| then l.(category := CATEGORIES[k], selected := 0) else l
    case Row(i) => if i < |items| then LaunchAt(l, LookUp(l.menu, items[i], 0)) else l
  }

  datatype Op =
    | DoSetOpen(open: bool) | DoNext | DoPrev | DoActivate
    | DoUpdateCatalog(menu: seq<Item>) | DoSetSearch(search: string) | DoSelectCategory(category: string)
    | DoSetHandler(present: bool) | DoLaunchAt(index: nat) | DoClick(width: int, x: real, y: real)

  function Apply(l: Launcher, op: Op): Launcher {
    match op
    case DoSetOpen(open) => l.(open := open)
    case DoNext => l.(selected := NextIndex(l.selected, |Items(l)|))
    case DoPrev => l.(selected := PrevIndex(l.selected, |Items(l)|))
    case DoActivate => Activate(l)
    case DoUpdateCatalog(menu) => l.(menu := menu, selected := 0)
    case DoSetSearch(search) => l.(search := search, selected := 0)
    case DoSelectCategory(category) => l.(category := category, selected := 0)
    case DoSetHandler(present) => l.(hasHandler := present)
    case DoLaunchAt(m) => LaunchAt(l, m)
    case DoClick(width, x, y) => Click(l, width, x, y)
  }

  function Run(l: Launcher, ops: seq<Op>): Launcher
    decreases |ops|
  {
    if ops == [] then l else Apply(Run(l, ops[..|ops| - 1]), ops[|ops| - 1])
  }

  /** The selection is on a listed item, or at 0 when nothing is listed. */
  predicate SelectionInRange(l: Launcher) {
    0 <= l.selected && (l.selected < |Items(l)| || l.selected == 0)
  }

  lemma ApplyKeepsSelection(l: Launcher, op: Op)
    requires SelectionInRange(l)
    ensures SelectionInRange(Apply(l, op))
  {
    hide Filter, LauncherClick, LookUp, CATEGORIES;
  }

  lemma {:induction false} SelectionAlwaysInRange(menu: seq<Item>, ops: seq<Op>)
    ensures SelectionInRange(Run(Created(menu), ops))
    decreases |ops|
  {
    hide Apply, Items;
    if ops != [] {
      SelectionAlwaysInRange(menu, ops[..|ops| - 1]);
      ApplyKeepsSelection(Run(Created(menu), ops[..|ops| - 1]), ops[|ops| - 1]);
    } else {
      assert Created(menu).selected == 0;
    }
  }

  /** Whatever the run, a next undoes a prev and a prev a next. */
  lemma NextAndPrevUndoEachOther(menu: seq<Item>, ops: seq<Op>)
    ensures var l := Run(Created(menu), ops);
      Apply(Apply(l, DoNext), DoPrev) == l && Apply(Apply(l, DoPrev), DoNext) == l
  {
    SelectionAlwaysInRange(menu, ops);
    var l := Run(Created(menu), ops);
    if Items(l) != [] { NextPrevInverse(l.selected, |Items(l)|); }
  }

  /**
    A click on the pixels of a drawn row launches that row's own name and path, for every
    catalogue (duplicates included), search and category, and closes the launcher.
   */
  lemma ClickLaunchesOwnRow(l: Launcher, width: int, height: int, x: real, y: real, i: nat)
    requires i < |Items(l)| && RowFits(i, height) && Inside(RowRect(i, width), x, y) && l.hasHandler
    ensures Click(l, width, x, y)
            == l.(open := false, launched := l.launched + [(Items(l)[i].name, Items(l)[i].execPath)])
  {
    DrawnRowIsClickable(|Items(l)|, width, height, x, y, i);
    LookUpFinds(l.menu, l.category, Lower(l.search), i);
  }

  /** A click never launches anything but the entry of the row it is in. */
  lemma ClickLaunchesNothingElse(l: Launcher, width: int, x: real, y: real)
    requires Click(l, width, x, y).launched != l.launched
    ensures exists i: nat ::
              && i < |Items(l)| && RowHit(i, width, x, y)
              && Click(l, width, x, y).launched == l.launched + [(Items(l)[i].name, Items(l)[i].execPath)]
  {
    var items := Items(l);
    var hit := LauncherClick(|items|, width, x, y);
    if hit.Row? {
      RowClickIff(|items|, width, x, y, hit.index);
      LookUpFinds(l.menu, l.category, Lower(l.search), hit.index);
    }
  }

  /** Activating from the keyboard and clicking the selected row launch the same thing. */
  lemma ActivateIsClickingTheSelection(l: Launcher, width: int, height: int, x: real, y: real)
    requires 0 <= l.selected < |Items(l)| && RowFits(l.selected, height)
    requires Inside(RowRect(l.selected, width), x, y) && l.hasHandler
    ensures Activate(l) == Click(l, width, x, y)
  {
    ClickLaunchesOwnRow(l, width, height, x, y, l.selected);
  }

  /** Searching for more only ever narrows the list. */
  lemma SearchingOnNarrows(l: Launcher, more: string) returns (chosen: seq<nat>)
    requires Contains(Lower(more), Lower(l.search))
    ensures var m := Apply(l, DoSetSearch(more));
      && |chosen| == |Items(m)| <= |Items(l)|
      && (forall k :: 0 <= k < |chosen| ==> chosen[k] < |Items(l)| && Items(m)[k] == Items(l)[chosen[k]])
      && (forall j, k :: 0 <= j < k < |chosen| ==> chosen[j] < chosen[k])
  {
    chosen := NarrowingTheSearchShrinks(l.menu, l.category, more, l.search);
  }
}
