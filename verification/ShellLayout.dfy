/**
  Where the panel and the launcher draw things, and what a click there hits.  Drawing
  covers whole pixels, half-open on the right and below; hit tests are closed.
 */
module ShellLayout {

  datatype Rect = Rect(x: int, y: int, w: int, h: int)

  /** The point lies on the pixels of r. */
  predicate Inside(r: Rect, x: real, y: real) {
    && r.x as real <= x < (r.x + r.w) as real
    && r.y as real <= y < (r.y + r.h) as real
  }

  predicate Between(lo: int, v: real, hi: int) {
    lo as real <= v <= hi as real
  }

  // ---------------------------------------------------------------------------
  // Taskbar pills
  // ---------------------------------------------------------------------------

  const FIRST_PILL_X := 112
  const PILL_W := 160
  const PILL_STEP := 166

  function PillX(i: nat): int {
    FIRST_PILL_X + PILL_STEP * i
  }

  function PillRect(i: nat): Rect {
    Rect(PillX(i), 6, PILL_W, 36)
  }

  function CloseIconRect(i: nat): Rect {
    Rect(PillX(i) + PILL_W - 20, 16, 16, 16)
  }

  /** The layout loop's condition for pill i. */
  predicate PillFits(i: nat, width: int) {
    PillX(i) + PILL_W < width - 180
  }

  /** drawCloseIcon(x, y, size): the pixel is drawn in turn i, s of its loops. */
  predicate DrawnInTurn(x: int, y: int, size: nat, px: int, py: int, i: int, s: int) {
    && size / 4 <= i < size - size / 4 && 0 <= s < (if size / 8 > 1 then size / 8 else 1)
    && py == y + i + s && (px == x + i || px == x + (size - 1 - i))
  }

  ghost predicate CloseIconPixel(x: int, y: int, size: nat, px: int, py: int) {
    exists i: int, s: int :: DrawnInTurn(x, y, size, px, py, i, s)
  }

  predicate LauncherButtonHit(x: real, y: real) {
    Between(8, x, 100) && Between(6, y, 42)
  }

  predicate PillHit(i: nat, x: real, y: real) {
    Between(PillX(i), x, PillX(i) + PILL_W) && Between(6, y, 42)
  }

  predicate CloseZone(i: nat, x: real) {
    x >= (PillX(i) + PILL_W - 24) as real
  }

  datatype PanelAction = NoPanelAction | ToggleLauncher | CloseWindow(window: nat) | ToggleMinimize(window: nat)

  function PillAction(i: nat, x: real): PanelAction {
    if CloseZone(i, x) then CloseWindow(i) else ToggleMinimize(i)
  }

  /** The hit-test loop over the pills, from pill i on. */
  function PillClick(count: nat, x: real, y: real, i: nat): PanelAction
    decreases count - i
  {
    if i >= count then NoPanelAction
    else if PillHit(i, x, y) then PillAction(i, x)
    else PillClick(count, x, y, i + 1)
  }

  /** What a click on the panel does, windows being named by their position in the list. */
  function PanelClick(count: nat, x: real, y: real): PanelAction {
    if LauncherButtonHit(x, y) then ToggleLauncher else PillClick(count, x, y, 0)
  }

  lemma PillsApart(i: nat, j: nat)
    requires i < j
    ensures PillX(i) + PILL_W < PillX(j)
  {
  }

  lemma {:induction false} PillClickFinds(count: nat, x: real, y: real, from: nat, i: nat)
    requires from <= i < count && PillHit(i, x, y)
    ensures PillClick(count, x, y, from) == PillAction(i, x)
    decreases count - from
  {
    if from < i {
      PillsApart(from, i);
      PillClickFinds(count, x, y, from + 1, i);
    }
  }

  lemma {:induction false} PillClickOnlyHits(count: nat, x: real, y: real, from: nat)
    ensures match PillClick(count, x, y, from)
      case CloseWindow(i) => i < count && PillHit(i, x, y) && CloseZone(i, x)
      case ToggleMinimize(i) => i < count && PillHit(i, x, y) && !CloseZone(i, x)
      case action => action == NoPanelAction
    decreases count - from
  {
    if from < count && !PillHit(from, x, y) { PillClickOnlyHits(count, x, y, from + 1); }
  }

  /** A click acts on window i if and only if it is in the hit area of pill i, and how. */
  lemma PanelClickIff(count: nat, x: real, y: real, i: nat)
    ensures PanelClick(count, x, y) == CloseWindow(i) <==> i < count && PillHit(i, x, y) && CloseZone(i, x)
    ensures PanelClick(count, x, y) == ToggleMinimize(i) <==> i < count && PillHit(i, x, y) && !CloseZone(i, x)
    ensures PanelClick(count, x, y) == ToggleLauncher <==> LauncherButtonHit(x, y)
  {
    PillClickOnlyHits(count, x, y, 0);
    if i < count && PillHit(i, x, y) {
      PillClickFinds(count, x, y, 0, i);
    }
  }

  /**
    The same in pixels: pill i takes clicks from 112 + 166 i to 272 + 166 i, of which the
    24 on the right close the window and the rest minimise it; the button takes 8 to 100.
   */
  lemma PanelClickAreas(count: nat, x: real, y: real, i: nat)
    ensures var left := (112 + 166 * i) as real;
      var low := 6.0 <= y <= 42.0;
      && (PanelClick(count, x, y) == CloseWindow(i) <==> i < count && low && left + 136.0 <= x <= left + 160.0)
      && (PanelClick(count, x, y) == ToggleMinimize(i) <==> i < count && low && left <= x < left + 136.0)
      && (PanelClick(count, x, y) == ToggleLauncher <==> low && 8.0 <= x <= 100.0)
  {
    PanelClickIff(count, x, y, i);
    assert PillX(i) == 112 + 166 * i;
    hide PanelClick, PillX;
  }

  /** A click on the pixels of drawn pill i acts on window i and no other. */
  lemma DrawnPillIsClickable(count: nat, width: int, x: real, y: real, i: nat)
    requires i < count && PillFits(i, width) && Inside(PillRect(i), x, y)
    ensures PanelClick(count, x, y) == PillAction(i, x)
    ensures forall j: nat :: j != i ==>
              PanelClick(count, x, y) != CloseWindow(j) && PanelClick(count, x, y) != ToggleMinimize(j)
  {
    PanelClickIff(count, x, y, i);
  }

  /** A drawn close icon, and all of its square, closes its own window. */
  lemma CloseIconCloses(count: nat, x: real, y: real, i: nat)
    requires i < count && Inside(CloseIconRect(i), x, y)
    ensures Inside(PillRect(i), x, y) && PanelClick(count, x, y) == CloseWindow(i)
  {
    PanelClickIff(count, x, y, i);
  }

  lemma CloseIconStaysInside(i: nat, px: int, py: int)
    requires CloseIconPixel(CloseIconRect(i).x, CloseIconRect(i).y, 16, px, py)
    ensures Inside(CloseIconRect(i), px as real, py as real)
  {
  }

  /** The tray starts 170 pixels from the right edge; every drawn pill ends left of it. */
  lemma PillsClearTheTray(width: int, i: nat)
    requires PillFits(i, width)
    ensures PillRect(i).x + PillRect(i).w < width - 170
    ensures forall j: nat :: j < i ==> PillFits(j, width)
  {
  }

  /** The converse fails: a pill too far along to be drawn can still be clicked. */
  lemma UndrawnPillsAreClickable(count: nat, width: int, i: nat)
    requires i < count && !PillFits(i, width)
    ensures PanelClick(count, PillX(i) as real, 6.0) == ToggleMinimize(i)
  {
    PanelClickIff(count, PillX(i) as real, 6.0, i);
  }

  // ---------------------------------------------------------------------------
  // Launcher categories and rows
  // ---------------------------------------------------------------------------

  const CATEGORIES: seq<string> := ["All", "Development", "System", "Utilities"]

  /** getTextWidth at scale 1 is 8 pixels a character. */
  function CategoryWidth(category: string): nat {
    8 * |category| + 16
  }

  function CategoryX(k: nat): nat
    requires k <= |CATEGORIES|
  {
    if k == 0 then 12 else CategoryX(k - 1) + CategoryWidth(CATEGORIES[k - 1]) + 6
  }

  function CategoryRect(k: nat): Rect
    requires k < |CATEGORIES|
  {
    Rect(CategoryX(k), 58, CategoryWidth(CATEGORIES[k]), 24)
  }

  predicate CategoryHit(k: nat, x: real)
    requires k < |CATEGORIES|
  {
    Between(CategoryX(k), x, CategoryX(k) + CategoryWidth(CATEGORIES[k]))
  }

  function RowY(i: nat): int {
    92 + 48 * i
  }

  function RowRect(i: nat, width: int): Rect {
    Rect(8, RowY(i), width - 16, 44)
  }

  /** The layout loop's condition for row i. */
  predicate RowFits(i: nat, height: int) {
    RowY(i) + 44 <= height - 8
  }

  predicate RowHit(i: nat, width: int, x: real, y: real) {
    Between(8, x, width - 8) && Between(RowY(i), y, RowY(i) + 44)
  }

  datatype LauncherHit = NoHit | Category(index: nat) | Row(index: nat)

  function CategoryClick(x: real, k: nat): LauncherHit
    decreases |CATEGORIES| - k
  {
    if k >= |CATEGORIES| then NoHit
    else if CategoryHit(k, x) then Category(k)
    else CategoryClick(x, k + 1)
  }

  function RowClick(count: nat, width: int, x: real, y: real, i: nat): LauncherHit
    decreases count - i
  {
    if i >= count then NoHit
    else if RowHit(i, width, x, y) then Row(i)
    else RowClick(count, width, x, y, i + 1)
  }

  /** What a click on the launcher hits when count entries are listed. */
  function LauncherClick(count: nat, width: int, x: real, y: real): LauncherHit {
    if Between(58, y, 82) && CategoryClick(x, 0) != NoHit then CategoryClick(x, 0)
    else RowClick(count, width, x, y, 0)
  }

  lemma {:induction false} CategoriesApart(j: nat, k: nat)
    requires j < k < |CATEGORIES|
    ensures CategoryX(j) + CategoryWidth(CATEGORIES[j]) < CategoryX(k)
    decreases k
  {
    if j < k - 1 { CategoriesApart(j, k - 1); }
  }

  lemma {:induction false} CategoryClickFinds(x: real, from: nat, k: nat)
    requires from <= k < |CATEGORIES| && CategoryHit(k, x)
    ensures CategoryClick(x, from) == Category(k)
    decreases |CATEGORIES| - from
  {
    if from < k {
      CategoriesApart(from, k);
      CategoryClickFinds(x, from + 1, k);
    }
  }

  /** A click on the pixels of a category pill selects that category. */
  lemma DrawnCategoryIsClickable(count: nat, width: int, x: real, y: real, k: nat)
    requires k < |CATEGORIES| && Inside(CategoryRect(k), x, y)
    ensures LauncherClick(count, width, x, y) == Category(k)
  {
    CategoryClickFinds(x, 0, k);
  }

  lemma CategoryAreasAre()
    ensures CategoryX(0) == 12 && CategoryWidth(CATEGORIES[0]) == 40
    ensures CategoryX(1) == 58 && CategoryWidth(CATEGORIES[1]) == 104
    ensures CategoryX(2) == 168 && CategoryWidth(CATEGORIES[2]) == 64
    ensures CategoryX(3) == 238 && CategoryWidth(CATEGORIES[3]) == 88
  {
    assert |CATEGORIES[0]| == 3 && |CATEGORIES[1]| == 11 && |CATEGORIES[2]| == 6 && |CATEGORIES[3]| == 9;
    assert CategoryX(1) == 58;
    assert CategoryX(2) == 168;
  }

  lemma {:induction false} CategoryClickOnlyHits(x: real, from: nat)
    ensures match CategoryClick(x, from)
      case Category(k) => k < |CATEGORIES| && CategoryHit(k, x)
      case hit => hit == NoHit
    decreases |CATEGORIES| - from
  {
    if from < |CATEGORIES| && !CategoryHit(from, x) { CategoryClickOnlyHits(x, from + 1); }
  }

  lemma CategoryClickIff(count: nat, width: int, x: real, y: real, k: nat)
    ensures LauncherClick(count, width, x, y) == Category(k)
            <==> k < |CATEGORIES| && Between(58, y, 82) && CategoryHit(k, x)
  {
    CategoryClickOnlyHits(x, 0);
    RowClickOnlyHits(count, width, x, y, 0);
    if k < |CATEGORIES| && CategoryHit(k, x) { CategoryClickFinds(x, 0, k); }
  }

  /** In pixels: which clicks select All, Development, System and Utilities. */
  lemma CategoryClickAreas(count: nat, width: int, x: real, y: real)
    ensures CATEGORIES == ["All", "Development", "System", "Utilities"]
    ensures var hit := LauncherClick(count, width, x, y);
      var row := 58.0 <= y <= 82.0;
      && (hit == Category(0) <==> row && 12.0 <= x <= 52.0)
      && (hit == Category(1) <==> row && 58.0 <= x <= 162.0)
      && (hit == Category(2) <==> row && 168.0 <= x <= 232.0)
      && (hit == Category(3) <==> row && 238.0 <= x <= 326.0)
  {
    CategoryAreasAre();
    CategoryClickIff(count, width, x, y, 0);
    CategoryClickIff(count, width, x, y, 1);
    CategoryClickIff(count, width, x, y, 2);
    CategoryClickIff(count, width, x, y, 3);
    hide LauncherClick, CategoryX, CategoryWidth;
  }

  lemma {:induction false} RowClickFinds(count: nat, width: int, x: real, y: real, from: nat, i: nat)
    requires from <= i < count && RowHit(i, width, x, y)
    ensures RowClick(count, width, x, y, from) == Row(i)
    decreases count - from
  {
    if from < i { RowClickFinds(count, width, x, y, from + 1, i); }
  }

  lemma {:induction false} RowClickOnlyHits(count: nat, width: int, x: real, y: real, from: nat)
    ensures RowClick(count, width, x, y, from) == NoHit
         || exists i: nat :: i < count && RowClick(count, width, x, y, from) == Row(i) && RowHit(i, width, x, y)
    decreases count - from
  {
    if from < count && !RowHit(from, width, x, y) { RowClickOnlyHits(count, width, x, y, from + 1); }
  }

  lemma {:induction false} CategoryClickIsCategory(x: real, from: nat)
    ensures CategoryClick(x, from) == NoHit || CategoryClick(x, from).Category?
    decreases |CATEGORIES| - from
  {
    if from < |CATEGORIES| { CategoryClickIsCategory(x, from + 1); }
  }

  /** A click selects row i if and only if it is in the hit area of row i. */
  lemma RowClickIff(count: nat, width: int, x: real, y: real, i: nat)
    ensures LauncherClick(count, width, x, y) == Row(i) <==> i < count && RowHit(i, width, x, y)
  {
    RowClickOnlyHits(count, width, x, y, 0);
    CategoryClickIsCategory(x, 0);
    if i < count && RowHit(i, width, x, y) { RowClickFinds(count, width, x, y, 0, i); }
  }

  /** In pixels: row i takes clicks from 92 + 48 i to 136 + 48 i, eight pixels clear of both edges. */
  lemma RowClickAreas(count: nat, width: int, x: real, y: real, i: nat)
    ensures LauncherClick(count, width, x, y) == Row(i)
            <==> i < count && 8.0 <= x <= (width - 8) as real && (92 + 48 * i) as real <= y <= (136 + 48 * i) as real
  {
    RowClickIff(count, width, x, y, i);
    hide LauncherClick;
  }

  /** A click on the pixels of drawn row i selects row i. */
  lemma DrawnRowIsClickable(count: nat, width: int, height: int, x: real, y: real, i: nat)
    requires i < count && RowFits(i, height) && Inside(RowRect(i, width), x, y)
    ensures LauncherClick(count, width, x, y) == Row(i)
  {
    RowClickIff(count, width, x, y, i);
  }

  /** The converse fails here too. */
  lemma UndrawnRowsAreClickable(count: nat, width: int, height: int, i: nat)
    requires i < count && !RowFits(i, height) && width >= 16
    ensures LauncherClick(count, width, 8.0, RowY(i) as real) == Row(i)
  {
    RowClickIff(count, width, 8.0, RowY(i) as real, i);
  }
}
