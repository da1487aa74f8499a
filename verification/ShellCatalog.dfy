/**
  The launcher's catalogue: which entries a category and a search query let through,
  and how the selection moves over them.
 */
module ShellCatalog {

  datatype Item = Item(name: string, execPath: string, description: string, category: string, icon: string)

  /** tolower in the C locale. */
  function LowerChar(c: char): char {
    if 'A' <= c <= 'Z' then c - 'A' + 'a' else c
  }

  function Lower(s: string): (r: string)
    ensures |r| == |s| && forall k :: 0 <= k < |s| ==> r[k] == LowerChar(s[k])
  {
    seq(|s|, k requires 0 <= k < |s| => LowerChar(s[k]))
  }

  /** needle occurs in haystack at position k. */
  predicate OccursAt(haystack: string, needle: string, k: nat) {
    k + |needle| <= |haystack| && haystack[k..k + |needle|] == needle
  }

  predicate Contains(haystack: string, needle: string) {
    exists k :: 0 <= k <= |haystack| && OccursAt(haystack, needle, k)
  }

  /** query is already in lower case. */
  predicate Matches(item: Item, category: string, query: string) {
    && (category == "All" || item.category == category)
    && (query == "" || Contains(Lower(item.name), query) || Contains(Lower(item.description), query))
  }

  function Filter(menu: seq<Item>, category: string, query: string): seq<Item>
    decreases |menu|
  {
    if menu == [] then []
    else
      var last := menu[|menu| - 1];
      Filter(menu[..|menu| - 1], category, query) + if Matches(last, category, query) then [last] else []
  }

  function Filtered(menu: seq<Item>, category: string, search: string): seq<Item> {
    Filter(menu, category, Lower(search))
  }

  // ---------------------------------------------------------------------------
  // The filter keeps exactly the matches, in order
  // ---------------------------------------------------------------------------

  /** chosen names, in increasing order, exactly the positions of menu that match. */
  predicate Selects(menu: seq<Item>, category: string, query: string, chosen: seq<nat>) {
    && (forall k :: 0 <= k < |chosen| ==> chosen[k] < |menu| && Matches(menu[chosen[k]], category, query))
    && (forall j, k :: 0 <= j < k < |chosen| ==> chosen[j] < chosen[k])
    && (forall m :: 0 <= m < |menu| && Matches(menu[m], category, query) ==> m in chosen)
  }

  /** Adding an entry at the end adds its position when it matches. */
  lemma SelectsSnoc(menu: seq<Item>, category: string, query: string, front: seq<nat>, chosen: seq<nat>)
    requires menu != [] && Selects(menu[..|menu| - 1], category, query, front)
    requires chosen == front + if Matches(menu[|menu| - 1], category, query) then [|menu| - 1] else []
    ensures Selects(menu, category, query, chosen)
  {
    hide Matches;
    var n := |menu| - 1;
    forall m | 0 <= m < |menu| && Matches(menu[m], category, query) ensures m in chosen {
      if m < n {
        assert Matches(menu[..n][m], category, query);
      } else {
        assert chosen[|front|] == m;
      }
    }
  }

  lemma {:induction false} FilterSelects(menu: seq<Item>, category: string, query: string) returns (chosen: seq<nat>)
    ensures Selects(menu, category, query, chosen)
    ensures |chosen| == |Filter(menu, category, query)|
    ensures forall k :: 0 <= k < |chosen| ==> Filter(menu, category, query)[k] == menu[chosen[k]]
    decreases |menu|
  {
    chosen := [];
    if menu != [] {
      var n := |menu| - 1;
      var front := FilterSelects(menu[..n], category, query);
      chosen := front + if Matches(menu[n], category, query) then [n] else [];
      SelectsSnoc(menu, category, query, front, chosen);
      hide Matches;
    }
  }

  // ---------------------------------------------------------------------------
  // What a match is
  // ---------------------------------------------------------------------------

  /** The same character, or the two cases of one ASCII letter. */
  predicate SameLetter(a: char, b: char) {
    || a == b
    || ('A' <= a <= 'Z' && b as int == a as int + 32)
    || ('A' <= b <= 'Z' && a as int == b as int + 32)
  }

  /** search occurs somewhere in text, case aside. */
  predicate FoundIn(text: string, search: string) {
    exists k: nat :: k <= |text| && FoundAt(text, search, k)
  }

  predicate FoundAt(text: string, search: string, k: nat) {
    k + |search| <= |text| && forall j :: 0 <= j < |search| ==> SameLetter(text[k + j], search[j])
  }

  lemma LowerIdentifies(a: char, b: char)
    ensures LowerChar(a) == LowerChar(b) <==> SameLetter(a, b)
  {
    assert 'A' as int == 65 && 'Z' as int == 90 && 'a' as int == 97;
    LowerIs(a);
    LowerIs(b);
    hide LowerChar;
  }

  lemma LowerIs(c: char)
    ensures LowerChar(c) as int == if 'A' <= c <= 'Z' then c as int + 32 else c as int
  {
  }

  lemma OccursAtIff(text: string, search: string, k: nat)
    ensures OccursAt(Lower(text), Lower(search), k) <==> FoundAt(text, search, k)
  {
    hide LowerChar, SameLetter;
    forall a: char, b: char ensures LowerChar(a) == LowerChar(b) <==> SameLetter(a, b) {
      LowerIdentifies(a, b);
    }
    if k + |search| <= |text| {
      var part := Lower(text)[k..k + |search|];
      if part == Lower(search) {
        forall j | 0 <= j < |search| ensures SameLetter(text[k + j], search[j]) {
          assert part[j] == Lower(search)[j];
        }
      }
      if FoundAt(text, search, k) {
        assert forall j :: 0 <= j < |search| ==> part[j] == LowerChar(text[k + j]) == Lower(search)[j];
      }
    }
  }

  lemma ContainsIff(text: string, search: string)
    ensures Contains(Lower(text), Lower(search)) <==> FoundIn(text, search)
  {
    hide OccursAt, FoundAt;
    forall k: nat ensures OccursAt(Lower(text), Lower(search), k) <==> FoundAt(text, search, k) {
      OccursAtIff(text, search, k);
    }
  }

  /**
    What the launcher lists: the catalogue's entries of the category, all of them under
    "All", whose name or description the search text occurs in, upper and lower case
    being the same; an empty search lets everything through.
   */
  lemma ListedIff(menu: seq<Item>, category: string, search: string, item: Item)
    ensures item in Filtered(menu, category, search)
            <==> && item in menu
                 && (category == "All" || item.category == category)
                 && (search == "" || FoundIn(item.name, search) || FoundIn(item.description, search))
  {
    ContainsIff(item.name, search);
    ContainsIff(item.description, search);
    assert Lower(search) == "" <==> search == "";
    assert Matches(item, category, Lower(search))
      <==> && (category == "All" || item.category == category)
           && (search == "" || FoundIn(item.name, search) || FoundIn(item.description, search));
    hide Matches, FoundIn, Contains, Lower;
    InFilterIff(menu, category, Lower(search), item);
  }

  lemma InFilterIff(menu: seq<Item>, category: string, query: string, item: Item)
    ensures item in Filter(menu, category, query) <==> item in menu && Matches(item, category, query)
  {
    hide Matches, Filter;
    var chosen := FilterSelects(menu, category, query);
    var filtered := Filter(menu, category, query);
    if item in filtered {
      var k :| 0 <= k < |filtered| && filtered[k] == item;
      assert menu[chosen[k]] == item;
    }
    if item in menu && Matches(item, category, query) {
      var m :| 0 <= m < |menu| && menu[m] == item;
      var k :| 0 <= k < |chosen| && chosen[k] == m;
      assert filtered[k] == item;
    }
  }

  // ---------------------------------------------------------------------------
  // Narrowing the query
  // ---------------------------------------------------------------------------

  lemma ContainsTransitive(a: string, b: string, c: string)
    requires Contains(a, b) && Contains(b, c)
    ensures Contains(a, c)
  {
    var i :| 0 <= i <= |a| && OccursAt(a, b, i);
    var j :| 0 <= j <= |b| && OccursAt(b, c, j);
    forall k | 0 <= k < |c| ensures a[i + j + k] == c[k] {
      assert a[i..i + |b|][j + k] == b[j + k] == b[j..j + |c|][k];
    }
    assert OccursAt(a, c, i + j);
  }

  lemma NarrowerMatches(item: Item, category: string, narrow: string, wide: string)
    requires Contains(narrow, wide) && Matches(item, category, narrow)
    ensures Matches(item, category, wide)
  {
    if narrow == "" {
      assert wide == "";
    } else if Contains(Lower(item.name), narrow) {
      ContainsTransitive(Lower(item.name), narrow, wide);
    } else {
      ContainsTransitive(Lower(item.description), narrow, wide);
    }
  }

  lemma FilterSnoc(menu: seq<Item>, item: Item, category: string, query: string)
    ensures Filter(menu + [item], category, query)
            == Filter(menu, category, query) + if Matches(item, category, query) then [item] else []
  {
    assert (menu + [item])[..|menu|] == menu;
  }

  /** A query that contains the old one can only shrink the list: it filters what was left. */
  lemma {:induction false} NarrowingFiltersAgain(menu: seq<Item>, category: string, narrow: string, wide: string)
    requires Contains(narrow, wide)
    ensures Filter(menu, category, narrow) == Filter(Filter(menu, category, wide), category, narrow)
    decreases |menu|
  {
    if menu != [] {
      var front, last := menu[..|menu| - 1], menu[|menu| - 1];
      NarrowingFiltersAgain(front, category, narrow, wide);
      if Matches(last, category, narrow) { NarrowerMatches(last, category, narrow, wide); }
      if Matches(last, category, wide) {
        FilterSnoc(Filter(front, category, wide), last, category, narrow);
      } else {
        assert Filter(menu, category, wide) == Filter(front, category, wide);
      }
    }
  }

  /** The same for the search text as typed, compared without regard to case. */
  lemma NarrowingTheSearchShrinks(menu: seq<Item>, category: string, narrow: string, wide: string)
    returns (chosen: seq<nat>)
    requires Contains(Lower(narrow), Lower(wide))
    ensures var before, after := Filtered(menu, category, wide), Filtered(menu, category, narrow);
      && |chosen| == |after| <= |before|
      && (forall k :: 0 <= k < |chosen| ==> chosen[k] < |before| && after[k] == before[chosen[k]])
      && (forall j, k :: 0 <= j < k < |chosen| ==> chosen[j] < chosen[k])
  {
    NarrowingFiltersAgain(menu, category, Lower(narrow), Lower(wide));
    chosen := FilterSelects(Filtered(menu, category, wide), category, Lower(narrow));
    IncreasingFits(chosen, |Filtered(menu, category, wide)|);
  }

  lemma {:induction false} IncreasingFits(chosen: seq<nat>, n: nat)
    requires forall k :: 0 <= k < |chosen| ==> chosen[k] < n
    requires forall j, k :: 0 <= j < k < |chosen| ==> chosen[j] < chosen[k]
    ensures |chosen| <= n
    decreases |chosen|
  {
    if chosen != [] {
      var last := |chosen| - 1;
      IncreasingFits(chosen[..last], chosen[last]);
    }
  }

  // ---------------------------------------------------------------------------
  // The way back from a filtered entry to the catalogue
  // ---------------------------------------------------------------------------

  /** The re-lookup compares path and name only. */
  predicate SameTarget(a: Item, b: Item) {
    a.execPath == b.execPath && a.name == b.name
  }

  /** The first catalogue entry from m on with the item's path and name; |menu| if none. */
  function LookUp(menu: seq<Item>, item: Item, m: nat): (r: nat)
    requires m <= |menu|
    ensures m <= r <= |menu|
    ensures r < |menu| ==> SameTarget(menu[r], item)
    ensures forall k :: m <= k < r ==> !SameTarget(menu[k], item)
    decreases |menu| - m
  {
    if m == |menu| then m else if SameTarget(menu[m], item) then m else LookUp(menu, item, m + 1)
  }

  /** Every filtered entry is found again, duplicates or not. */
  lemma LookUpFinds(menu: seq<Item>, category: string, query: string, i: nat)
    requires i < |Filter(menu, category, query)|
    ensures var item := Filter(menu, category, query)[i];
      LookUp(menu, item, 0) < |menu| && SameTarget(menu[LookUp(menu, item, 0)], item)
  {
    var chosen := FilterSelects(menu, category, query);
    assert SameTarget(menu[chosen[i]], Filter(menu, category, query)[i]);
  }

  // ---------------------------------------------------------------------------
  // Moving the selection
  // ---------------------------------------------------------------------------

  function NextIndex(selected: int, n: nat): int {
    if n == 0 then selected else (selected + 1) % n
  }

  function PrevIndex(selected: int, n: nat): int {
    if n == 0 then selected else (selected - 1 + n) % n
  }

  lemma WrapForward(s: int, n: int)
    requires 0 <= s < n
    ensures (s + 1) % n == if s == n - 1 then 0 else s + 1
  {
  }

  lemma WrapBackward(s: int, n: int)
    requires 0 <= s < n
    ensures (s - 1 + n) % n == if s == 0 then n - 1 else s - 1
  {
    if s > 0 { assert (s - 1 + n) == 1 * n + (s - 1); }
  }

  lemma NextPrevInverse(selected: int, n: nat)
    requires 0 <= selected < n
    ensures PrevIndex(NextIndex(selected, n), n) == selected
    ensures NextIndex(PrevIndex(selected, n), n) == selected
    ensures 0 <= NextIndex(selected, n) < n && 0 <= PrevIndex(selected, n) < n
  {
    WrapForward(selected, n);
    WrapBackward(selected, n);
    WrapBackward(NextIndex(selected, n), n);
    WrapForward(PrevIndex(selected, n), n);
  }

  function Nexts(selected: int, n: nat, times: nat): int {
    if times == 0 then selected else NextIndex(Nexts(selected, n, times - 1), n)
  }

  lemma {:induction false} NextsLand(selected: int, n: nat, times: nat)
    requires 0 <= selected < n && times <= n
    ensures Nexts(selected, n, times) == if selected + times < n then selected + times else selected + times - n
    decreases times
  {
    if times > 0 {
      NextsLand(selected, n, times - 1);
      WrapForward(Nexts(selected, n, times - 1), n);
    }
  }

  /** n nexts over n items come back, having visited each item exactly once. */
  lemma NextsVisitEachOnce(selected: int, n: nat, target: int)
    requires 0 <= selected < n && 0 <= target < n
    ensures Nexts(selected, n, n) == selected
    ensures exists k: nat :: k < n && Nexts(selected, n, k) == target
    ensures forall j: nat, k: nat ::
              (j < n && k < n && Nexts(selected, n, j) == target && Nexts(selected, n, k) == target) ==> j == k
  {
    NextsLand(selected, n, n);
    var k := if target >= selected then target - selected else target - selected + n;
    NextsLand(selected, n, k);
    forall j: nat | j < n && Nexts(selected, n, j) == target ensures j == k {
      NextsLand(selected, n, j);
    }
  }
}
