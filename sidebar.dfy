/** Which info items the sidebar of a page shows: an item names the pages
    it belongs on (or "all") under one of several keys, the visible items
    are ordered by their `order` field (10000 when absent), and the first
    `limit` of them are shown. */
module Sidebar {
  import opened JsonValues

  // ---------------------------------------------------------------- placement

  /** The stripped, non-blank strings of a list, in order; other values
      are skipped. */
  function NonBlankStripped(xs: seq<Json>): (r: seq<string>)
    ensures forall i :: 0 <= i < |r| ==> r[i] != ""
    ensures forall i :: 0 <= i < |xs| && xs[i].JStr? && Strip(xs[i].s) != "" ==> Strip(xs[i].s) in r
    ensures forall t :: t in r ==> exists i :: 0 <= i < |xs| && xs[i].JStr? && Strip(xs[i].s) == t
  {
    if xs == [] then []
    else
      var rest := NonBlankStripped(xs[1..]);
      assert forall i :: 1 <= i < |xs| ==> xs[i] == xs[1..][i - 1];
      if xs[0].JStr? && Strip(xs[0].s) != "" then [Strip(xs[0].s)] + rest else rest
  }

  /** Some entry of the list is a string that is not blank once stripped. */
  predicate HasNonBlank(xs: seq<Json>) {
    exists i :: 0 <= i < |xs| && xs[i].JStr? && Strip(xs[i].s) != ""
  }

  /** `_normalize_show_on(v)`: None for a falsy value or an unsupported
      type; a string is the one place it names, stripped; a list gives its
      stripped non-blank strings, and None when there are none. */
  function ShowOn(v: Json): (r: Option<seq<string>>)
    ensures r.Some? ==> r.value != []
    ensures !Truthy(v) ==> r.None?
    ensures v.JStr? && v.s != "" ==> r == Some([Strip(v.s)])
    ensures v.JArr? && HasNonBlank(v.items) ==> r == Some(NonBlankStripped(v.items))
    ensures v.JArr? && !HasNonBlank(v.items) ==> r.None?
    ensures !v.JStr? && !v.JArr? ==> r.None?
  {
    if !Truthy(v) then None
    else match v
      case JStr(s) => Some([Strip(s)])
      case JArr(xs) =>
        var out := NonBlankStripped(xs);
        if out == [] then None
        else
          assert out[0] in out;
          Some(out)
      case _ => None
  }

  /** The keys an item may name its pages under, in the order they are
      consulted. */
  const PlacementKeys: seq<string> := ["show_on", "placement", "placements", "pages", "where"]

  /** `item.get(k1) or item.get(k2) or ...`: the value under the first key
      whose value is truthy, or the value under the last key when none is. */
  function FirstTruthy(item: Json, keys: seq<string>): (r: Json)
    requires item.JObj? && keys != []
    ensures Truthy(r) <==> exists i :: 0 <= i < |keys| && Truthy(Get(item, keys[i]))
    ensures Truthy(r) ==> exists i :: 0 <= i < |keys| && r == Get(item, keys[i])
                                      && forall j :: 0 <= j < i ==> !Truthy(Get(item, keys[j]))
    ensures !Truthy(r) ==> r == Get(item, keys[|keys| - 1])
  {
    if |keys| == 1 || Truthy(Get(item, keys[0])) then Get(item, keys[0])
    else
      var r := FirstTruthy(item, keys[1..]);
      FirstTruthyStep(item, keys, r);
      r
  }

  /** The value found among the later keys is the first truthy one of all
      the keys when the first key's value is falsy. */
  lemma FirstTruthyStep(item: Json, keys: seq<string>, r: Json)
    requires item.JObj? && |keys| > 1 && !Truthy(Get(item, keys[0]))
    requires Truthy(r) <==> exists i :: 0 <= i < |keys[1..]| && Truthy(Get(item, keys[1..][i]))
    requires Truthy(r) ==> exists i :: 0 <= i < |keys[1..]| && r == Get(item, keys[1..][i])
                                       && forall j :: 0 <= j < i ==> !Truthy(Get(item, keys[1..][j]))
    requires !Truthy(r) ==> r == Get(item, keys[1..][|keys[1..]| - 1])
    ensures Truthy(r) <==> exists i :: 0 <= i < |keys| && Truthy(Get(item, keys[i]))
    ensures Truthy(r) ==> exists i :: 0 <= i < |keys| && r == Get(item, keys[i])
                                      && forall j :: 0 <= j < i ==> !Truthy(Get(item, keys[j]))
    ensures !Truthy(r) ==> r == Get(item, keys[|keys| - 1])
  {
    assert forall i :: 1 <= i < |keys| ==> keys[i] == keys[1..][i - 1];
    if Truthy(r) {
      var i :| 0 <= i < |keys[1..]| && r == Get(item, keys[1..][i])
               && forall j :: 0 <= j < i ==> !Truthy(Get(item, keys[1..][j]));
      assert r == Get(item, keys[i + 1]);
      forall j | 0 <= j < i + 1 ensures !Truthy(Get(item, keys[j])) {
        if j > 0 {
          assert keys[j] == keys[1..][j - 1];
        }
      }
    }
  }

  /** `info_item_visible(item, place)`: an item that names no pages is
      shown everywhere; otherwise where it names "all" or the place. */
  function InfoItemVisible(item: Json, place: string): (r: bool)
    requires item.JObj?
    ensures (forall i :: 0 <= i < |PlacementKeys| ==> !Truthy(Get(item, PlacementKeys[i]))) ==> r
  {
    var s := ShowOn(FirstTruthy(item, PlacementKeys));
    s.None? || "all" in s.value || place in s.value
  }

  /** An item whose first truthy placement value is a list (say
      `show_on: ["index", "news"]`) is shown on a page exactly when one of
      the list's non-blank strings, stripped, is "all" or that page; a
      list without a non-blank string counts as no placement, and the item
      is shown everywhere. Later keys are not consulted. */
  lemma ShownWhereListed(item: Json, k: int, xs: seq<Json>, place: string)
    requires item.JObj? && 0 <= k < |PlacementKeys|
    requires forall j :: 0 <= j < k ==> !Truthy(Get(item, PlacementKeys[j]))
    requires Get(item, PlacementKeys[k]) == JArr(xs) && xs != []
    ensures HasNonBlank(xs) ==>
      (InfoItemVisible(item, place) <==>
        exists i :: 0 <= i < |xs| && xs[i].JStr? && Strip(xs[i].s) != ""
                    && (Strip(xs[i].s) == "all" || Strip(xs[i].s) == place))
    ensures !HasNonBlank(xs) ==> InfoItemVisible(item, place)
  {
    var v := FirstTruthy(item, PlacementKeys);
    assert Truthy(Get(item, PlacementKeys[k]));
    var i :| 0 <= i < |PlacementKeys| && v == Get(item, PlacementKeys[i])
             && forall j :: 0 <= j < i ==> !Truthy(Get(item, PlacementKeys[j]));
    assert i == k;
    assert v == JArr(xs);
  }

  /** For example, an item placed on "all" pages is shown on every page. */
  lemma ShownEverywhere(item: Json, place: string)
    requires item.JObj? && Get(item, "show_on") == JArr([JStr("all")])
    ensures InfoItemVisible(item, place)
  {
    StripStable("all");
    assert FirstTruthy(item, PlacementKeys) == JArr([JStr("all")]);
    assert NonBlankStripped([JStr("all")]) == ["all"];
  }

  /** An item whose first truthy placement value is one string (say
      `pages: "news"`) is shown on that page, stripped, and, unless that
      string is "all", on no other page. */
  lemma ShownOnItsPage(item: Json, k: int, page: string, place: string)
    requires item.JObj? && 0 <= k < |PlacementKeys|
    requires forall j :: 0 <= j < k ==> !Truthy(Get(item, PlacementKeys[j]))
    requires Get(item, PlacementKeys[k]) == JStr(page) && page != ""
    ensures InfoItemVisible(item, place) <==> Strip(page) == "all" || Strip(page) == place
  {
    var v := FirstTruthy(item, PlacementKeys);
    assert Truthy(Get(item, PlacementKeys[k]));
    var i :| 0 <= i < |PlacementKeys| && v == Get(item, PlacementKeys[i])
             && forall j :: 0 <= j < i ==> !Truthy(Get(item, PlacementKeys[j]));
    assert i == k;
    assert v == JStr(page);
  }

  // ---------------------------------------------------------------- ordering

  /** `x.get("order", 10_000)` for an item whose order is an integer, a
      boolean (which Python compares as 0 or 1) or absent. */
  function OrderOf(item: Json): int {
    if item.JObj? && "order" in item.fields then
      match item.fields["order"]
        case JNum(n) => n
        case JBool(b) => if b then 1 else 0
        case _ => 10000
    else 10000
  }

  /** The item's `order` is absent or a number, so that it compares with
      every other such order. */
  predicate NumericOrder(item: Json) {
    item.JObj? && ("order" !in item.fields || item.fields["order"].JNum? || item.fields["order"].JBool?)
  }

  predicate SortedByOrder(s: seq<Json>) {
    forall i, j :: 0 <= i < j < |s| ==> OrderOf(s[i]) <= OrderOf(s[j])
  }

  /** The items whose order is `k`, in sequence order. */
  function WithOrder(s: seq<Json>, k: int): seq<Json> {
    if s == [] then []
    else (if OrderOf(s[0]) == k then [s[0]] else []) + WithOrder(s[1..], k)
  }

  /** Putting `a` in front of a sorted sequence that starts with no
      smaller order keeps it sorted. */
  lemma ConsSorted(a: Json, s: seq<Json>)
    requires SortedByOrder(s) && (s == [] || OrderOf(a) <= OrderOf(s[0]))
    ensures SortedByOrder([a] + s)
  {
    var r := [a] + s;
    forall i, j | 0 <= i < j < |r|
      ensures OrderOf(r[i]) <= OrderOf(r[j])
    {
      if i > 0 {
        assert r[i] == s[i - 1] && r[j] == s[j - 1];
      } else {
        assert r[j] == s[j - 1];
        assert OrderOf(s[0]) <= OrderOf(s[j - 1]) || j - 1 == 0;
      }
    }
  }

  /** Inserting `x` into a sequence after the leading items whose order
      is not larger. */
  function Insert(s: seq<Json>, x: Json): (r: seq<Json>)
    ensures multiset(r) == multiset(s) + multiset{x}
    ensures r != [] && (r[0] == x || (s != [] && r[0] == s[0]))
    ensures SortedByOrder(s) ==> SortedByOrder(r)
  {
    if s == [] then [x]
    else if OrderOf(x) < OrderOf(s[0]) then
      (if SortedByOrder(s) then ConsSorted(x, s); [x] + s else [x] + s)
    else
      assert s == [s[0]] + s[1..];
      var rest := Insert(s[1..], x);
      if SortedByOrder(s) then
        assert s[1..] != [] ==> OrderOf(s[0]) <= OrderOf(s[1..][0]);
        ConsSorted(s[0], rest);
        [s[0]] + rest
      else [s[0]] + rest
  }

  /** `list.sort(key=order)`: insertion of each item in list order. */
  function SortByOrder(s: seq<Json>): (r: seq<Json>)
    ensures SortedByOrder(r) && multiset(r) == multiset(s)
  {
    if s == [] then []
    else
      var init := s[..|s| - 1];
      assert s == init + [s[|s| - 1]];
      Insert(SortByOrder(init), s[|s| - 1])
  }

  lemma {:induction false} WithOrderAppend(a: seq<Json>, b: seq<Json>, k: int)
    ensures WithOrder(a + b, k) == WithOrder(a, k) + WithOrder(b, k)
  {
    if a == [] {
      assert a + b == b;
    } else {
      var ab := a + b;
      assert ab != [] && ab[0] == a[0] && ab[1..] == a[1..] + b;
      WithOrderAppend(a[1..], b, k);
      var head := if OrderOf(a[0]) == k then [a[0]] else [];
      assert WithOrder(ab, k) == head + WithOrder(a[1..] + b, k);
      assert WithOrder(a, k) == head + WithOrder(a[1..], k);
    }
  }

  /** A sorted sequence whose first order is above `k` has no item of
      order `k`. */
  lemma {:induction false} NoneOfSmallerOrder(s: seq<Json>, k: int)
    requires SortedByOrder(s) && s != [] && k < OrderOf(s[0])
    ensures WithOrder(s, k) == []
  {
    if |s| > 1 {
      NoneOfSmallerOrder(s[1..], k);
    }
  }

  /** The inserted item comes after every item of the same order. */
  lemma {:induction false} InsertKeepsTies(s: seq<Json>, x: Json, k: int)
    requires SortedByOrder(s)
    ensures WithOrder(Insert(s, x), k) == WithOrder(s, k) + WithOrder([x], k)
  {
    if s == [] {
      assert WithOrder(s, k) == [];
    } else if OrderOf(x) < OrderOf(s[0]) {
      InsertInFront(s, x, k);
    } else {
      var tail := s[1..];
      SortedTail(s);
      InsertKeepsTies(tail, x, k);
      assert Insert(s, x) == [s[0]] + Insert(tail, x);
      TieStep(s[0], tail, Insert(tail, x), x, k);
      assert [s[0]] + tail == s;
    }
  }

  lemma InsertInFront(s: seq<Json>, x: Json, k: int)
    requires SortedByOrder(s) && s != [] && OrderOf(x) < OrderOf(s[0])
    ensures WithOrder(Insert(s, x), k) == WithOrder(s, k) + WithOrder([x], k)
  {
    assert Insert(s, x) == [x] + s;
    WithOrderAppend([x], s, k);
    if OrderOf(x) == k {
      NoneOfSmallerOrder(s, k);
    } else {
      assert WithOrder([x], k) == [];
    }
  }

  lemma SortedTail(s: seq<Json>)
    requires SortedByOrder(s) && s != []
    ensures SortedByOrder(s[1..])
  {
    var tail := s[1..];
    forall i, j | 0 <= i < j < |tail| ensures OrderOf(tail[i]) <= OrderOf(tail[j]) {
      assert tail[i] == s[i + 1] && tail[j] == s[j + 1];
    }
  }

  lemma TieStep(head: Json, tail: seq<Json>, rest: seq<Json>, x: Json, k: int)
    requires WithOrder(rest, k) == WithOrder(tail, k) + WithOrder([x], k)
    ensures WithOrder([head] + rest, k) == WithOrder([head] + tail, k) + WithOrder([x], k)
  {
    WithOrderAppend([head], rest, k);
    WithOrderAppend([head], tail, k);
  }

  /** The sort is stable: the items of each order value keep their
      relative order. */
  lemma {:induction false} SortIsStable(s: seq<Json>, k: int)
    ensures WithOrder(SortByOrder(s), k) == WithOrder(s, k)
  {
    if s != [] {
      var init := s[..|s| - 1];
      var x := s[|s| - 1];
      assert s == init + [x];
      SortIsStable(init, k);
      InsertKeepsTies(SortByOrder(init), x, k);
      WithOrderAppend(init, [x], k);
    }
  }

  // ---------------------------------------------------------------- the sidebar

  /** The info items as the filter reads them: dicts (`it.get` is called
      on each). */
  predicate SidebarReady(items: seq<Json>) {
    forall i :: 0 <= i < |items| ==> items[i].JObj?
  }

  /** The item is a dict that is visible on the page. */
  predicate Shown(x: Json, place: string) {
    x.JObj? && InfoItemVisible(x, place)
  }

  /** `[it for it in items if info_item_visible(it, place)]`: every visible
      item as often as it is listed, and nothing else; a single item is
      kept exactly when it is visible (with FilterAppend this keeps the
      list order). */
  function VisibleItems(items: seq<Json>, place: string): (r: seq<Json>)
    requires SidebarReady(items)
    ensures multiset(r) <= multiset(items)
    ensures forall x :: x in r ==> Shown(x, place)
    ensures forall x :: Shown(x, place) ==> multiset(r)[x] == multiset(items)[x]
    ensures forall i :: 0 <= i < |items| && InfoItemVisible(items[i], place) ==> items[i] in r
    ensures |items| == 1 ==> r == if InfoItemVisible(items[0], place) then items else []
  {
    if items == [] then []
    else
      assert items[0].JObj? && SidebarReady(items[1..]);
      var rest := VisibleItems(items[1..], place);
      var r := if InfoItemVisible(items[0], place) then [items[0]] + rest else rest;
      VisibleStep(items, place, rest, r);
      r
  }

  /** One step of the filter: keeping or skipping the head keeps the
      filter's facts. */
  lemma VisibleStep(items: seq<Json>, place: string, rest: seq<Json>, r: seq<Json>)
    requires SidebarReady(items) && items != []
    requires multiset(rest) <= multiset(items[1..])
    requires forall x :: x in rest ==> Shown(x, place)
    requires forall x :: Shown(x, place) ==> multiset(rest)[x] == multiset(items[1..])[x]
    requires forall i :: 0 <= i < |items[1..]| && InfoItemVisible(items[1..][i], place) ==> items[1..][i] in rest
    requires |items| == 1 ==> rest == []
    requires r == if InfoItemVisible(items[0], place) then [items[0]] + rest else rest
    ensures multiset(r) <= multiset(items)
    ensures forall x :: x in r ==> Shown(x, place)
    ensures forall x :: Shown(x, place) ==> multiset(r)[x] == multiset(items)[x]
    ensures forall i :: 0 <= i < |items| && InfoItemVisible(items[i], place) ==> items[i] in r
  {
    assert items == [items[0]] + items[1..];
    assert multiset(items) == multiset{items[0]} + multiset(items[1..]);
    forall i | 0 <= i < |items| && InfoItemVisible(items[i], place)
      ensures items[i] in r
    {
      if i > 0 {
        assert items[i] == items[1..][i - 1];
      }
    }
  }

  /** The filter of two lists put together is the filter of the first
      followed by the filter of the second: the visible items keep the
      order they are listed in. */
  lemma {:induction false} FilterAppend(a: seq<Json>, b: seq<Json>, place: string)
    requires SidebarReady(a) && SidebarReady(b)
    ensures SidebarReady(a + b)
    ensures VisibleItems(a + b, place) == VisibleItems(a, place) + VisibleItems(b, place)
  {
    if a == [] {
      assert a + b == b;
    } else {
      var ab := a + b;
      assert ab[0] == a[0] && ab[1..] == a[1..] + b;
      assert SidebarReady(a[1..]);
      FilterAppend(a[1..], b, place);
    }
  }

  /** Python's `s[:limit]`: a negative limit counts from the end. */
  function Prefix(s: seq<Json>, limit: int): (r: seq<Json>)
    ensures 0 <= limit ==> |r| == (if limit < |s| then limit else |s|)
    ensures limit < 0 ==> |r| == (if |s| + limit > 0 then |s| + limit else 0)
    ensures r == s[..|r|]
  {
    var n := if limit >= 0 then (if limit < |s| then limit else |s|)
             else (if |s| + limit > 0 then |s| + limit else 0);
    s[..n]
  }

  /** The sort of the visible items compares their orders only when there
      are two or more of them; then every one must be a number. */
  predicate OrdersCompare(items: seq<Json>, place: string)
    requires SidebarReady(items)
  {
    var visible := VisibleItems(items, place);
    |visible| <= 1 || forall i :: 0 <= i < |visible| ==> NumericOrder(visible[i])
  }

  /** `get_sidebar_items(place, limit)` over the info items: the first
      `limit` of the visible items sorted by their `order` field (all of
      them when `limit` is 0, all but the last `-limit` when it is
      negative). */
  function SidebarItems(items: seq<Json>, place: string, limit: int): (r: seq<Json>)
    requires SidebarReady(items) && OrdersCompare(items, place)
    ensures var sorted := SortByOrder(VisibleItems(items, place));
      && |r| <= |sorted| && r == sorted[..|r|]
      && (limit == 0 ==> r == sorted)
      && (limit > 0 ==> |r| == if limit < |sorted| then limit else |sorted|)
      && (limit < 0 ==> |r| == if |sorted| + limit > 0 then |sorted| + limit else 0)
  {
    var sorted := SortByOrder(VisibleItems(items, place));
    Prefix(sorted, if limit != 0 then limit else |sorted|)
  }

  /** The sidebar shows only items visible on the page, each at most as
      often as it is listed, in order of their `order` field; with no
      limit it shows every visible item. */
  lemma SidebarItemsShown(items: seq<Json>, place: string, limit: int)
    requires SidebarReady(items) && OrdersCompare(items, place)
    ensures var r := SidebarItems(items, place, limit);
      && SortedByOrder(r)
      && (forall x :: x in r ==> x.JObj? && InfoItemVisible(x, place))
      && multiset(r) <= multiset(items)
      && (limit == 0 ==> multiset(r) == multiset(VisibleItems(items, place)))
  {
    var visible := VisibleItems(items, place);
    var sorted := SortByOrder(visible);
    var r := SidebarItems(items, place, limit);
    PrefixFacts(sorted, r);
    assert forall x :: x in sorted ==> x in multiset(visible);
  }

  /** A prefix keeps the order and takes nothing that was not there. */
  lemma PrefixFacts(s: seq<Json>, r: seq<Json>)
    requires |r| <= |s| && r == s[..|r|]
    ensures multiset(r) <= multiset(s)
    ensures forall x :: x in r ==> x in s
    ensures SortedByOrder(s) ==> SortedByOrder(r)
  {
    assert s == r + s[|r|..];
    assert multiset(s) == multiset(r) + multiset(s[|r|..]);
  }

  /** Every shown item is visible on the page, and no visible item with a
      smaller order is left out in favour of it. */
  lemma {:induction false} SidebarTakesSmallestOrders(items: seq<Json>, place: string, limit: int, i: int, x: Json)
    requires SidebarReady(items) && OrdersCompare(items, place) && 0 <= i < |SidebarItems(items, place, limit)|
    requires x in multiset(VisibleItems(items, place)) && x !in multiset(SidebarItems(items, place, limit))
    ensures OrderOf(SidebarItems(items, place, limit)[i]) <= OrderOf(x)
  {
    var visible := VisibleItems(items, place);
    var sorted := SortByOrder(visible);
    var r := SidebarItems(items, place, limit);
    var j := PrefixMissing(sorted, r, x);
    assert r[i] == sorted[i];
  }

  /** An element of `s` that its prefix `r` lacks sits after the prefix. */
  lemma PrefixMissing(s: seq<Json>, r: seq<Json>, x: Json) returns (j: int)
    requires |r| <= |s| && r == s[..|r|]
    requires x in multiset(s) && x !in multiset(r)
    ensures |r| <= j < |s| && s[j] == x
  {
    var rest := s[|r|..];
    assert s == r + rest;
    assert multiset(s) == multiset(r) + multiset(rest);
    assert x in multiset(rest);
    var k :| 0 <= k < |rest| && rest[k] == x;
    j := |r| + k;
  }
}
