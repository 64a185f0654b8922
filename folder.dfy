/**
 * The rank bookkeeping of the folder window: the item-position comparator,
 * slicing the reading order into pages, returning views after a failed
 * drop (selection by rank, then re-insertion), renumbering before the
 * database write, the add button's cell, the icon count, the walk-back of
 * the empty cell on drop and the index array of the second reorder step.
 */
module Folder {
  import opened Common
  import opened FolderPagedView

  // ------------------------------------------------------------ comparator

  /** The order `ITEM_POS_COMPARATOR` induces: lexicographic on (rank, cellY, cellX). */
  predicate PosBefore(a: FolderItem, b: FolderItem)
  {
    a.rank < b.rank
    || (a.rank == b.rank && a.cellY < b.cellY)
    || (a.rank == b.rank && a.cellY == b.cellY && a.cellX < b.cellX)
  }

  predicate SamePos(a: FolderItem, b: FolderItem)
  {
    a.rank == b.rank && a.cellY == b.cellY && a.cellX == b.cellX
  }

  /** `ITEM_POS_COMPARATOR.compare`: negative, zero or positive as `lhs` comes before, with or after `rhs`. */
  function ItemPosCompare(lhs: FolderItem, rhs: FolderItem): (r: int)
    ensures r < 0 <==> PosBefore(lhs, rhs)
    ensures r > 0 <==> PosBefore(rhs, lhs)
    ensures r == 0 <==> SamePos(lhs, rhs)
  {
    if lhs.rank != rhs.rank then lhs.rank - rhs.rank
    else if lhs.cellY != rhs.cellY then lhs.cellY - rhs.cellY
    else lhs.cellX - rhs.cellX
  }

  /** The comparator is a total order on positions: antisymmetric and transitive. */
  lemma ItemPosCompareOrder(a: FolderItem, b: FolderItem, c: FolderItem)
    ensures (ItemPosCompare(a, b) < 0) == (ItemPosCompare(b, a) > 0)
    ensures ItemPosCompare(a, b) < 0 && ItemPosCompare(b, c) < 0 ==> ItemPosCompare(a, c) < 0
    ensures ItemPosCompare(a, b) <= 0 && ItemPosCompare(b, c) <= 0 ==> ItemPosCompare(a, c) <= 0
  {
  }

  // ------------------------------------------------------- page slicing

  /**
   * `n` items of the reading order from `start`, as far as it goes; a
   * negative `n` is the negative `ArrayList` capacity, which throws.
   */
  function PageSlice<T>(all: seq<T>, start: nat, n: int): (r: Result<seq<T>>)
    ensures r.Failure? <==> n < 0
    ensures r.Ok? ==> |r.value| <= n
    ensures r.Ok? ==> forall k :: 0 <= k < |r.value| ==> start + k < |all| && r.value[k] == all[start + k]
  {
    if n < 0 then Failure("IllegalArgumentException")
    else
      var end := Min(start + n, |all|);
      if start < end then Ok(all[start..end]) else Ok([])
  }

  /**
   * `getItemsOnPage`: the reading-order slice of one page. Every page holds
   * `itemsPerPage` items except the last, which holds what remains; a
   * negative remainder throws.
   */
  function ItemsOnPage<T>(all: seq<T>, page: nat, lastPage: int, itemsPerPage: nat): (r: Result<seq<T>>)
    ensures r.Failure? <==> page == lastPage && |all| < page * itemsPerPage
    ensures r.Ok? ==> |r.value| <= itemsPerPage || page == lastPage
    ensures r.Ok? ==> var start := page * itemsPerPage;
      forall k :: 0 <= k < |r.value| ==> start + k < |all| && r.value[k] == all[start + k]
  {
    var start := page * itemsPerPage;
    PageSlice(all, start, if page == lastPage then |all| - start else itemsPerPage)
  }

  /** The items-on-page loop: copies indices [start, end) of the reading order. */
  method CopySlice<T>(all: seq<T>, startIndex: nat, numItems: nat) returns (items: seq<T>)
    ensures Ok(items) == PageSlice(all, startIndex, numItems)
  {
    var endIndex := Min(startIndex + numItems, |all|);
    items := [];
    var i := startIndex;
    while i < endIndex
      invariant startIndex <= i
      invariant i > startIndex ==> i <= endIndex <= |all| && items == all[startIndex..i]
      invariant i == startIndex ==> items == []
    {
      items := items + [all[i]];
      i := i + 1;
    }
  }

  /** `getItemsOnPage` as the source writes it. */
  method GetItemsOnPage<T>(all: seq<T>, page: nat, lastPage: int, itemsPerPage: nat) returns (r: Result<seq<T>>)
    ensures r == ItemsOnPage(all, page, lastPage, itemsPerPage)
  {
    var startIndex := page * itemsPerPage;
    var numItems := if page == lastPage then |all| - startIndex else itemsPerPage;
    if numItems < 0 {
      return Failure("IllegalArgumentException");
    }
    var items := CopySlice(all, startIndex, numItems);
    return Ok(items);
  }

  /** The pages 0 .. k-1 of the reading order, concatenated. */
  function PagesUpTo<T>(all: seq<T>, k: nat, lastPage: nat, itemsPerPage: nat): seq<T>
    requires k <= lastPage + 1
  {
    if k == 0 then []
    else
      match ItemsOnPage(all, k - 1, lastPage, itemsPerPage)
      case Ok(s) => PagesUpTo(all, k - 1, lastPage, itemsPerPage) + s
      case Failure(_) => PagesUpTo(all, k - 1, lastPage, itemsPerPage)
  }

  /** A page before the last is the full slice of the reading order it covers. */
  lemma FullPage<T>(all: seq<T>, p: nat, lastPage: nat, itemsPerPage: nat, lo: nat, hi: nat)
    requires p < lastPage && lo == p * itemsPerPage && hi == lo + itemsPerPage && hi <= |all|
    ensures ItemsOnPage(all, p, lastPage, itemsPerPage) == Ok(all[lo..hi])
  {
    assert Min(lo + itemsPerPage, |all|) == hi;
    if itemsPerPage == 0 {
      assert all[lo..hi] == [];
    }
  }

  lemma {:induction false} PagesUpToPrefix<T>(all: seq<T>, k: nat, lastPage: nat, itemsPerPage: nat)
    requires k <= lastPage && lastPage * itemsPerPage <= |all|
    ensures k * itemsPerPage <= |all|
    ensures PagesUpTo(all, k, lastPage, itemsPerPage) == all[..k * itemsPerPage]
  {
    MulMono(k, lastPage, itemsPerPage);
    if k > 0 {
      var lo, hi := (k - 1) * itemsPerPage, k * itemsPerPage;
      PagesUpToPrefix(all, k - 1, lastPage, itemsPerPage);
      MulSucc(k - 1, itemsPerPage);
      assert hi == lo + itemsPerPage;
      FullPage(all, k - 1, lastPage, itemsPerPage, lo, hi);
      assert PagesUpTo(all, k, lastPage, itemsPerPage) == all[..lo] + all[lo..hi];
      assert all[..lo] + all[lo..hi] == all[..hi];
    }
  }

  /**
   * When the pages before the last are full, the pages 0 .. lastPage
   * partition the reading order: their concatenation is the whole list.
   */
  lemma PagesPartition<T>(all: seq<T>, lastPage: nat, itemsPerPage: nat)
    requires lastPage * itemsPerPage <= |all|
    ensures PagesUpTo(all, lastPage + 1, lastPage, itemsPerPage) == all
  {
    PagesUpToPrefix(all, lastPage, lastPage, itemsPerPage);
    var start := lastPage * itemsPerPage;
    var s := all[start..];
    assert ItemsOnPage(all, lastPage, lastPage, itemsPerPage) == Ok(s) by {
      var n := |all| - lastPage * itemsPerPage;
      assert n >= 0 && start + n == |all|;
      assert Min(start + n, |all|) == |all|;
      assert ItemsOnPage(all, lastPage, lastPage, itemsPerPage).Ok?;
      if start == |all| {
        assert s == [];
      } else {
        assert start < |all|;
        assert ItemsOnPage(all, lastPage, lastPage, itemsPerPage).value == all[start..|all|];
      }
      assert ItemsOnPage(all, lastPage, lastPage, itemsPerPage).value == s;
    }
    assert all[..start] + s == all;
  }

  // ---------------------------------------------------- failed-drop order

  /** The index the inner scan settles on among s[..n]: the first of minimum rank (strict `<`). */
  function FirstMinRank(s: seq<FolderItem>, n: nat): (m: nat)
    requires 0 < n <= |s|
    ensures m < n
    ensures forall j :: 0 <= j < n ==> s[m].rank <= s[j].rank
    ensures forall j :: 0 <= j < m ==> s[j].rank > s[m].rank
  {
    if n == 1 then 0
    else
      var m := FirstMinRank(s, n - 1);
      if s[n - 1].rank < s[m].rank then n - 1 else m
  }

  /** The order in which the failed-drop loop moves the views out of the temporary list. */
  function SelectionOrder(s: seq<FolderItem>): seq<FolderItem>
    decreases |s|
  {
    if |s| == 0 then []
    else
      var m := FirstMinRank(s, |s|);
      [s[m]] + SelectionOrder(RemoveAt(s, m))
  }

  /** The views moved out are exactly the views that were in the list. */
  lemma {:induction false} SelectionOrderPermutes(s: seq<FolderItem>)
    ensures multiset(SelectionOrder(s)) == multiset(s)
    decreases |s|
  {
    if |s| > 0 {
      var m := FirstMinRank(s, |s|);
      SelectionOrderPermutes(RemoveAt(s, m));
      RemoveAtMultiset(s, m);
    }
  }

  predicate RanksSorted(s: seq<FolderItem>)
  {
    forall i, j :: 0 <= i < j < |s| ==> s[i].rank <= s[j].rank
  }

  /** The views come out in non-decreasing rank. */
  lemma {:induction false} SelectionOrderSorted(s: seq<FolderItem>)
    ensures RanksSorted(SelectionOrder(s))
    decreases |s|
  {
    if |s| > 0 {
      var m := FirstMinRank(s, |s|);
      var rest := RemoveAt(s, m);
      var t := SelectionOrder(rest);
      SelectionOrderSorted(rest);
      SelectionOrderPermutes(rest);
      RemoveAtMultiset(s, m);
      forall j | 0 <= j < |t|
        ensures s[m].rank <= t[j].rank
      {
        assert t[j] in multiset(t);
        assert t[j] in multiset(s);
      }
    }
  }

  /** The subsequence of the views with the given rank. */
  function WithRank(s: seq<FolderItem>, k: int): (r: seq<FolderItem>)
    ensures forall j :: 0 <= j < |r| ==> r[j].rank == k
  {
    if |s| == 0 then []
    else (if s[0].rank == k then [s[0]] else []) + WithRank(s[1..], k)
  }

  lemma {:induction false} WithRankAppend(a: seq<FolderItem>, b: seq<FolderItem>, k: int)
    ensures WithRank(a + b, k) == WithRank(a, k) + WithRank(b, k)
    decreases |a|
  {
    if |a| > 0 {
      assert (a + b)[1..] == a[1..] + b;
      WithRankAppend(a[1..], b, k);
    } else {
      assert a + b == b;
    }
  }

  lemma {:induction false} WithRankNone(a: seq<FolderItem>, k: int)
    requires forall j :: 0 <= j < |a| ==> a[j].rank != k
    ensures WithRank(a, k) == []
    decreases |a|
  {
    if |a| > 0 {
      WithRankNone(a[1..], k);
    }
  }

  lemma WithRankSingle(x: FolderItem, k: int)
    ensures WithRank([x], k) == if x.rank == k then [x] else []
  {
    assert [x][1..] == [];
  }

  /** The step of stability: moving out the first view of minimum rank keeps each rank's views in order. */
  lemma StableStep(s: seq<FolderItem>, m: nat, t: seq<FolderItem>, k: int)
    requires m < |s| && forall j :: 0 <= j < m ==> s[j].rank > s[m].rank
    requires WithRank(t, k) == WithRank(RemoveAt(s, m), k)
    ensures WithRank([s[m]] + t, k) == WithRank(s, k)
  {
    var pre, x, post := s[..m], s[m], s[m + 1..];
    var wPre, wX, wPost := WithRank(pre, k), WithRank([x], k), WithRank(post, k);
    assert WithRank(t, k) == wPre + wPost by {
      assert RemoveAt(s, m) == pre + post;
      WithRankAppend(pre, post, k);
    }
    assert WithRank(s, k) == wPre + (wX + wPost) by {
      assert s == pre + ([x] + post);
      WithRankAppend(pre, [x] + post, k);
      WithRankAppend([x], post, k);
    }
    assert WithRank([x] + t, k) == wX + (wPre + wPost) by {
      WithRankAppend([x], t, k);
    }
    assert wPre == [] || wX == [] by {
      WithRankSingle(x, k);
      if x.rank == k {
        WithRankNone(pre, k);
      }
    }
    Regroup(wPre, wX, wPost);
  }

  /** When one of the first two parts is empty, they may trade places. */
  lemma Regroup<T>(a: seq<T>, b: seq<T>, c: seq<T>)
    requires a == [] || b == []
    ensures b + (a + c) == a + (b + c)
  {
    if a == [] {
      assert a + c == c && a + (b + c) == b + c;
    } else {
      assert b + (a + c) == a + c && b + c == c;
    }
  }

  /** Equal ranks keep their original relative order (the strict `<` of the scan). */
  lemma {:induction false} SelectionOrderStable(s: seq<FolderItem>, k: int)
    ensures WithRank(SelectionOrder(s), k) == WithRank(s, k)
    decreases |s|
  {
    if |s| > 0 {
      var m := FirstMinRank(s, |s|);
      var rest := RemoveAt(s, m);
      SelectionOrderStable(rest, k);
      StableStep(s, m, SelectionOrder(rest), k);
    }
  }

  lemma SelectionOrderFacts(views: seq<FolderItem>)
    ensures multiset(SelectionOrder(views)) == multiset(views)
    ensures RanksSorted(SelectionOrder(views))
    ensures forall k :: WithRank(SelectionOrder(views), k) == WithRank(views, k)
  {
    SelectionOrderPermutes(views);
    SelectionOrderSorted(views);
    forall k
      ensures WithRank(SelectionOrder(views), k) == WithRank(views, k)
    {
      SelectionOrderStable(views, k);
    }
  }

  /** The inner scan of the failed-drop loop: the first view of minimum rank, by strict `<`. */
  method FindMinRank(temp: seq<FolderItem>) returns (minRankPosition: nat)
    requires |temp| > 0
    ensures minRankPosition == FirstMinRank(temp, |temp|)
  {
    var minRank := temp[0].rank;
    minRankPosition := 0;
    var i := 1;
    while i < |temp|
      invariant 1 <= i <= |temp|
      invariant minRankPosition == FirstMinRank(temp, i) && minRank == temp[minRankPosition].rank
    {
      if temp[i].rank < minRank {
        minRank := temp[i].rank;
        minRankPosition := i;
      }
      i := i + 1;
    }
  }

  /**
   * The failed-drop loop: while views remain, scan for the first of minimum
   * rank, append it to the result and remove it.
   */
  method SortByRank(views: seq<FolderItem>) returns (sorted: seq<FolderItem>)
    ensures sorted == SelectionOrder(views)
    ensures multiset(sorted) == multiset(views)
    ensures RanksSorted(sorted)
    ensures forall k :: WithRank(sorted, k) == WithRank(views, k)
  {
    var temp := views;
    sorted := [];
    while |temp| > 0
      invariant sorted + SelectionOrder(temp) == SelectionOrder(views)
      decreases |temp|
    {
      var minRankPosition := FindMinRank(temp);
      var rest := RemoveAt(temp, minRankPosition);
      assert SelectionOrder(temp) == [temp[minRankPosition]] + SelectionOrder(rest);
      assert sorted + SelectionOrder(temp) == (sorted + [temp[minRankPosition]]) + SelectionOrder(rest);
      sorted := sorted + [temp[minRankPosition]];
      temp := rest;
    }
    assert sorted == SelectionOrder(views);
    SelectionOrderFacts(views);
  }

  /**
   * `views.add(itemInfo.rank, view)` for each returned view in turn;
   * an index outside [0, size] throws.
   */
  function Reinserted(views: seq<FolderItem>, returned: seq<FolderItem>): Result<seq<FolderItem>>
    decreases |returned|
  {
    if |returned| == 0 then Ok(views)
    else
      var v := returned[0];
      if v.rank < 0 || v.rank > |views| then Failure("IndexOutOfBoundsException")
      else Reinserted(views[..v.rank] + [v] + views[v.rank..], returned[1..])
  }

  method ReinsertViews(views: seq<FolderItem>, returned: seq<FolderItem>) returns (r: Result<seq<FolderItem>>)
    ensures r == Reinserted(views, returned)
  {
    var current := views;
    var i := 0;
    while i < |returned|
      invariant 0 <= i <= |returned|
      invariant Reinserted(current, returned[i..]) == Reinserted(views, returned)
    {
      var v := returned[i];
      assert returned[i..][0] == v && returned[i..][1..] == returned[i + 1..];
      if v.rank < 0 || v.rank > |current| {
        return Failure("IndexOutOfBoundsException");
      }
      current := current[..v.rank] + [v] + current[v.rank..];
      i := i + 1;
    }
    assert returned[i..] == [];
    return Ok(current);
  }

  /** Re-insertion loses no view and adds no other. */
  lemma {:induction false} ReinsertedPermutes(views: seq<FolderItem>, returned: seq<FolderItem>)
    requires Reinserted(views, returned).Ok?
    ensures multiset(Reinserted(views, returned).value) == multiset(views) + multiset(returned)
    decreases |returned|
  {
    if |returned| > 0 {
      var v := returned[0];
      var next := views[..v.rank] + [v] + views[v.rank..];
      ReinsertedPermutes(next, returned[1..]);
      assert views == views[..v.rank] + views[v.rank..];
      assert returned == [v] + returned[1..];
    }
  }

  /** Ranks strictly increasing, each within reach of the list it is inserted into. */
  predicate Insertable(size: nat, returned: seq<FolderItem>)
  {
    (forall k :: 0 <= k < |returned| ==> 0 <= returned[k].rank <= size + k)
    && (forall k, l :: 0 <= k < l < |returned| ==> returned[k].rank < returned[l].rank)
  }

  /** Inserting only above index p leaves index p alone. */
  lemma {:induction false} ReinsertedKeeps(views: seq<FolderItem>, returned: seq<FolderItem>, p: nat)
    requires Insertable(|views|, returned) && p < |views|
    requires forall k :: 0 <= k < |returned| ==> p < returned[k].rank
    ensures Reinserted(views, returned).Ok?
    ensures p < |Reinserted(views, returned).value| && Reinserted(views, returned).value[p] == views[p]
    decreases |returned|
  {
    if |returned| > 0 {
      var v := returned[0];
      var next := views[..v.rank] + [v] + views[v.rank..];
      assert Insertable(|next|, returned[1..]) by {
        forall k | 0 <= k < |returned[1..]|
          ensures 0 <= returned[1..][k].rank <= |next| + k
        {
          assert returned[1..][k] == returned[k + 1];
        }
      }
      ReinsertedKeeps(next, returned[1..], p);
    }
  }

  /**
   * Views returned in strictly increasing rank, each rank reachable when
   * its turn comes, each land at their rank in the final list.
   */
  lemma {:induction false} ReinsertedAtRank(views: seq<FolderItem>, returned: seq<FolderItem>)
    requires Insertable(|views|, returned)
    ensures Reinserted(views, returned).Ok?
    ensures forall k :: 0 <= k < |returned| ==>
      returned[k].rank < |Reinserted(views, returned).value|
      && Reinserted(views, returned).value[returned[k].rank] == returned[k]
    decreases |returned|
  {
    if |returned| > 0 {
      var v := returned[0];
      var next := views[..v.rank] + [v] + views[v.rank..];
      var tail := returned[1..];
      assert Insertable(|next|, tail) by {
        forall k | 0 <= k < |tail|
          ensures 0 <= tail[k].rank <= |next| + k
        {
          assert tail[k] == returned[k + 1];
        }
      }
      ReinsertedAtRank(next, tail);
      assert next[v.rank] == v;
      ReinsertedKeeps(next, tail, v.rank);
      forall k | 0 <= k < |returned|
        ensures returned[k].rank < |Reinserted(views, returned).value|
        ensures Reinserted(views, returned).value[returned[k].rank] == returned[k]
      {
        if k > 0 {
          assert returned[k] == tail[k - 1];
        }
      }
    }
  }

  // ---------------------------------------------------- database batch

  /**
   * `updateItemLocationsInDatabaseBatch`: every item in reading order takes
   * its index as rank; afterwards the comparator orders them as they are
   * listed.
   */
  method UpdateItemLocations(list: seq<FolderItem>) returns (items: seq<FolderItem>)
    ensures |items| == |list|
    ensures forall i :: 0 <= i < |list| ==> items[i] == list[i].(rank := i)
    ensures forall i, j :: 0 <= i < j < |items| ==> ItemPosCompare(items[i], items[j]) < 0
  {
    items := [];
    var i := 0;
    while i < |list|
      invariant 0 <= i <= |list| && |items| == i
      invariant forall k :: 0 <= k < i ==> items[k] == list[k].(rank := k)
    {
      items := items + [list[i].(rank := i)];
      i := i + 1;
    }
  }

  // ---------------------------------------------------------- add button

  /** The children of the last page when the add button sits on page `button`. */
  function ChildCount(pages: seq<seq<FolderItem>>, p: nat, button: Option<CellPos>): nat
    requires p < |pages|
  {
    |pages[p]| + (if button.Some? && button.value.page == p then 1 else 0)
  }

  /**
   * `getIconCount`: full pages before the last plus the last page's
   * children, less the add button when it is attached. Without pages the
   * last page is null, and without an add button `getParent` is called on
   * null: both throw.
   */
  function IconCount(pages: seq<seq<FolderItem>>, buttonCreated: bool, button: Option<CellPos>, itemsPerPage: nat): (r: Result<int>)
    requires button.Some? ==> 0 <= button.value.page < |pages|
    ensures r.Failure? <==> |pages| == 0 || !buttonCreated
    ensures r.Ok? && (button.None? || button.value.page == |pages| - 1) ==>
      r.value == ItemCountOf(pages, itemsPerPage)
  {
    if |pages| == 0 || !buttonCreated then Failure("NullPointerException")
    else
      var lastPage := |pages| - 1;
      var result := lastPage * itemsPerPage + ChildCount(pages, lastPage, button);
      if button.Some? then Ok(result - 1) else Ok(result)
  }

  /**
   * `insertAddIcon` with the button detached and a last page present: the
   * slot after the last page's children, wrapped to a new page when that
   * page is full (or empty).
   */
  function AddButtonPlacement(pages: seq<seq<FolderItem>>, gridX: nat, gridY: nat): (r: (seq<seq<FolderItem>>, CellPos))
    requires |pages| > 0 && gridX > 0 && gridY > 0
    ensures 0 <= r.1.cellX < gridX && 0 <= r.1.cellY < gridY
    ensures r.1.cellY * gridX + r.1.cellX == |pages[|pages| - 1]| % (gridX * gridY)
    ensures r.1.page == |r.0| - 1 && |pages| <= |r.0| <= |pages| + 1 && r.0[..|pages|] == pages
  {
    var last := |pages| - 1;
    var itemsPerPage := gridX * gridY;
    var index := |pages[last]| % itemsPerPage;
    var grown := if index == 0 then pages + [[]] else pages;
    AddButtonCell(index, gridX, gridY);
    (grown, CellPos(|grown| - 1, index % gridX, index / gridX))
  }

  lemma AddButtonCell(index: nat, gridX: nat, gridY: nat)
    requires gridX > 0 && gridY > 0 && index < gridX * gridY
    ensures index / gridX < gridY && (index / gridX) * gridX + index % gridX == index
  {
    DivModIdentity(index, gridX);
    var y := index / gridX;
    assert y * gridX <= index;
    MulStrict(y, gridY, gridX);
  }

  /**
   * Attaching the add button does not change the icon count, when the last
   * page holds between one and a page's worth of items.
   */
  lemma AddButtonKeepsIconCount(pages: seq<seq<FolderItem>>, gridX: nat, gridY: nat)
    requires |pages| > 0 && gridX > 0 && gridY > 0
    requires 0 < |pages[|pages| - 1]| <= gridX * gridY
    ensures var (grown, cell) := AddButtonPlacement(pages, gridX, gridY);
      IconCount(grown, true, Some(cell), gridX * gridY) == Ok(ItemCountOf(pages, gridX * gridY))
  {
    var m := gridX * gridY;
    var last := |pages| - 1;
    var c := |pages[last]|;
    var (grown, cell) := AddButtonPlacement(pages, gridX, gridY);
    if c % m == 0 {
      DivModIdentity(c, m);
      assert c == m by {
        if c / m == 0 {
          assert false;
        }
        if c / m >= 2 {
          MulMono(2, c / m, m);
          assert false;
        }
      }
      MulSucc(last, m);
      assert |grown| == last + 2 && grown[last + 1] == [];
    } else {
      assert grown == pages;
    }
  }

  // ------------------------------------------------ second reorder step

  /** `tempIndexArray`: the ranks below n that hold a view, in increasing order. */
  function OccupiedRanks(viewList: seq<Option<FolderItem>>, n: nat): (r: seq<int>)
    requires n <= |viewList|
    ensures forall k :: 0 <= k < |r| ==> 0 <= r[k] < n && viewList[r[k]].Some?
    ensures forall k, l :: 0 <= k < l < |r| ==> r[k] < r[l]
    ensures forall i :: 0 <= i < n && viewList[i].Some? ==> i in r
  {
    if n == 0 then []
    else OccupiedRanks(viewList, n - 1) + (if viewList[n - 1].Some? then [n - 1] else [])
  }

  predicate InWindow(i: int, target: int, missing: nat)
  {
    target <= i < target + missing
  }

  /** The positions below n outside the dragged window. */
  function OutsideCount(n: nat, target: int, missing: nat): (c: nat)
    ensures c <= n
  {
    if n == 0 then 0
    else OutsideCount(n - 1, target, missing) + (if InWindow(n - 1, target, missing) then 0 else 1)
  }

  /**
   * The index-array loop over positions [0, n): -1 inside the window, else
   * the next occupied rank while any remain. Returns the array and how many
   * occupied ranks it used.
   */
  function SecondStepArray(temp: seq<int>, target: int, missing: nat, n: nat): (r: (seq<int>, nat))
    ensures r.1 <= |temp| && r.1 <= |r.0|
  {
    if n == 0 then ([], 0)
    else
      var (a, k) := SecondStepArray(temp, target, missing, n - 1);
      if InWindow(n - 1, target, missing) then (a + [-1], k)
      else if k < |temp| then (a + [temp[k]], k + 1)
      else (a, k)
  }

  predicate Increasing(temp: seq<int>)
  {
    (forall k :: 0 <= k < |temp| ==> temp[k] >= 0)
    && (forall k, l :: 0 <= k < l < |temp| ==> temp[k] < temp[l])
  }

  /** The entry the index array holds at position p when no occupied rank runs out. */
  function ExpectedEntry(temp: seq<int>, target: int, missing: nat, p: nat): int
  {
    if InWindow(p, target, missing) then -1
    else if OutsideCount(p, target, missing) < |temp| then temp[OutsideCount(p, target, missing)]
    else -1
  }

  lemma {:induction false} OutsideCountMono(p: nat, q: nat, target: int, missing: nat)
    requires p <= q
    ensures OutsideCount(p, target, missing) <= OutsideCount(q, target, missing)
    decreases q
  {
    if p < q {
      OutsideCountMono(p, q - 1, target, missing);
    }
  }

  lemma OutsideCountStrict(p: nat, q: nat, target: int, missing: nat)
    requires p < q && !InWindow(p, target, missing)
    ensures OutsideCount(p, target, missing) < OutsideCount(q, target, missing)
  {
    OutsideCountMono(p + 1, q, target, missing);
  }

  lemma {:induction false} OutsideCountHits(n: nat, j: nat, target: int, missing: nat)
    requires j < OutsideCount(n, target, missing)
    ensures exists p :: 0 <= p < n && !InWindow(p, target, missing) && OutsideCount(p, target, missing) == j
    decreases n
  {
    if j < OutsideCount(n - 1, target, missing) {
      OutsideCountHits(n - 1, j, target, missing);
    } else {
      assert !InWindow(n - 1, target, missing) && OutsideCount(n - 1, target, missing) == j;
    }
  }

  /**
   * When the occupied ranks suffice for every position outside the window,
   * the index array has one entry per position: -1 exactly on the window,
   * and the occupied ranks in order elsewhere.
   */
  lemma {:induction false} SecondStepClosedForm(temp: seq<int>, target: int, missing: nat, n: nat)
    requires OutsideCount(n, target, missing) <= |temp|
    ensures |SecondStepArray(temp, target, missing, n).0| == n
    ensures SecondStepArray(temp, target, missing, n).1 == OutsideCount(n, target, missing)
    ensures forall p :: 0 <= p < n ==>
      SecondStepArray(temp, target, missing, n).0[p] == ExpectedEntry(temp, target, missing, p)
    decreases n
  {
    if n > 0 {
      SecondStepClosedForm(temp, target, missing, n - 1);
      OutsideCountMono(n - 1, n, target, missing);
      var a := SecondStepArray(temp, target, missing, n).0;
      forall p | 0 <= p < n && !InWindow(p, target, missing)
        ensures OutsideCount(p, target, missing) < |temp| && a[p] == temp[OutsideCount(p, target, missing)]
      {
        OutsideCountStrict(p, n, target, missing);
      }
    }
  }

  /** With the occupied ranks sufficing, the holes of the index array are exactly the window. */
  lemma SecondStepHoles(temp: seq<int>, target: int, missing: nat, n: nat)
    requires Increasing(temp) && OutsideCount(n, target, missing) <= |temp|
    ensures |SecondStepArray(temp, target, missing, n).0| == n
    ensures forall p :: 0 <= p < n ==>
      (SecondStepArray(temp, target, missing, n).0[p] == -1 <==> InWindow(p, target, missing))
  {
    SecondStepClosedForm(temp, target, missing, n);
    forall p | 0 <= p < n && !InWindow(p, target, missing)
      ensures OutsideCount(p, target, missing) < |temp|
    {
      OutsideCountStrict(p, n, target, missing);
    }
  }

  /**
   * The new rank of the j-th occupied rank: the position outside the window
   * with j such positions before it, or -1 when the positions run out first.
   */
  lemma SecondStepNewRank(temp: seq<int>, target: int, missing: nat, n: nat, j: nat)
    requires Increasing(temp) && OutsideCount(n, target, missing) <= |temp| && j < |temp|
    ensures var p := LastIndexOf(SecondStepArray(temp, target, missing, n).0, temp[j]);
      (j < OutsideCount(n, target, missing) ==>
         0 <= p < n && !InWindow(p, target, missing) && OutsideCount(p, target, missing) == j)
      && (j >= OutsideCount(n, target, missing) ==> p == -1)
  {
    SecondStepClosedForm(temp, target, missing, n);
    var a := SecondStepArray(temp, target, missing, n).0;
    var x := temp[j];
    forall q | 0 <= q < n && a[q] == x
      ensures !InWindow(q, target, missing) && OutsideCount(q, target, missing) == j
    {
      var jq := OutsideCount(q, target, missing);
      assert !InWindow(q, target, missing) && jq < |temp| && temp[jq] == x;
    }
    var r := LastIndexOf(a, x);
    if j < OutsideCount(n, target, missing) {
      OutsideCountHits(n, j, target, missing);
      var p :| 0 <= p < n && !InWindow(p, target, missing) && OutsideCount(p, target, missing) == j;
      assert a[p] == x;
      assert r >= 0;
    } else {
      if r >= 0 {
        OutsideCountMono(r, n, target, missing);
        OutsideCountStrict(r, n, target, missing);
        assert false;
      }
    }
  }

  /**
   * The new rank of the view at old rank i: the last position of i in the
   * index array (-1 when absent). Only views whose rank changes are updated,
   * with page, position and cell taken by Java's `/` and `%`.
   */
  function SecondStepMoved(v: FolderItem, newPos: int, gridX: nat, maxItems: nat): FolderItem
    requires gridX > 0 && maxItems > 0
  {
    var indexInPage := JavaRem(newPos, maxItems);
    v.(rank := newPos, cellX := JavaRem(indexInPage, gridX), cellY := JavaDiv(indexInPage, gridX))
  }

  function SecondStepView(viewList: seq<Option<FolderItem>>, indexArray: seq<int>, i: nat, gridX: nat, maxItems: nat): Option<FolderItem>
    requires gridX > 0 && maxItems > 0 && i < |viewList|
  {
    match viewList[i]
    case None => None
    case Some(v) =>
      var newPos := LastIndexOf(indexArray, i);
      if newPos == i then Some(v) else Some(SecondStepMoved(v, newPos, gridX, maxItems))
  }

  /**
   * Occupied ranks keep their relative order under the second step and
   * none lands in the window; when the occupied ranks exactly fill the
   * positions outside the window, every occupied view gets a place.
   */
  lemma SecondStepKeepsOrder(viewList: seq<Option<FolderItem>>, target: int, missing: nat, i1: nat, i2: nat)
    requires i1 < i2 < |viewList| && viewList[i1].Some? && viewList[i2].Some?
    requires OutsideCount(|viewList|, target, missing) <= |OccupiedRanks(viewList, |viewList|)|
    ensures var temp := OccupiedRanks(viewList, |viewList|);
      var a := SecondStepArray(temp, target, missing, |viewList|).0;
      var p1 := LastIndexOf(a, i1);
      var p2 := LastIndexOf(a, i2);
      (p2 >= 0 ==> 0 <= p1 < p2 && !InWindow(p1, target, missing) && !InWindow(p2, target, missing))
      && (OutsideCount(|viewList|, target, missing) == |temp| ==> p2 >= 0)
  {
    var temp := OccupiedRanks(viewList, |viewList|);
    var n := |viewList|;
    assert i1 in temp && i2 in temp;
    var j1 :| 0 <= j1 < |temp| && temp[j1] == i1;
    var j2 :| 0 <= j2 < |temp| && temp[j2] == i2;
    assert j1 < j2;
    SecondStepNewRank(temp, target, missing, n, j1);
    SecondStepNewRank(temp, target, missing, n, j2);
    var a := SecondStepArray(temp, target, missing, n).0;
    var p1 := LastIndexOf(a, i1);
    var p2 := LastIndexOf(a, i2);
    if p2 >= 0 {
      assert j2 < OutsideCount(n, target, missing);
      if p2 <= p1 {
        OutsideCountMono(p2, p1, target, missing);
      }
    }
  }

  /** The loop collecting `tempIndexArray`. */
  method CollectOccupied(viewList: seq<Option<FolderItem>>) returns (tempIndexArray: seq<int>)
    ensures tempIndexArray == OccupiedRanks(viewList, |viewList|)
  {
    tempIndexArray := [];
    var i := 0;
    while i < |viewList|
      invariant 0 <= i <= |viewList|
      invariant tempIndexArray == OccupiedRanks(viewList, i)
    {
      if viewList[i].Some? {
        tempIndexArray := tempIndexArray + [i];
      }
      i := i + 1;
    }
  }

  /** The loop building `indexArray` over positions [0, maxItemPos). */
  method BuildSecondStepArray(tempIndexArray: seq<int>, targetRank: int, missingItemCount: nat, maxItemPos: nat)
    returns (indexArray: seq<int>)
    ensures indexArray == SecondStepArray(tempIndexArray, targetRank, missingItemCount, maxItemPos).0
  {
    indexArray := [];
    var k := 0;
    var i := 0;
    while i < maxItemPos
      invariant 0 <= i <= maxItemPos
      invariant (indexArray, k) == SecondStepArray(tempIndexArray, targetRank, missingItemCount, i)
    {
      if targetRank <= i < targetRank + missingItemCount {
        indexArray := indexArray + [-1];
      } else if k < |tempIndexArray| {
        indexArray := indexArray + [tempIndexArray[k]];
        k := k + 1;
      }
      i := i + 1;
    }
  }

  /** The body of the last loop of `secondStepAnimation`: the view at old rank i, moved when its rank changes. */
  method MoveView(viewList: seq<Option<FolderItem>>, indexArray: seq<int>, i: nat, gridX: nat, maxItems: nat)
    returns (next: Option<FolderItem>)
    requires gridX > 0 && maxItems > 0 && i < |viewList|
    ensures next == SecondStepView(viewList, indexArray, i, gridX, maxItems)
  {
    next := viewList[i];
    if next.Some? {
      var newPos := LastIndexOf(indexArray, i);
      if i != newPos {
        var indexInPage := JavaRem(newPos, maxItems);
        next := Some(next.value.(rank := newPos, cellX := JavaRem(indexInPage, gridX), cellY := JavaDiv(indexInPage, gridX)));
      }
    }
  }

  /**
   * `secondStepAnimation`'s rank computation: collect the occupied ranks,
   * build the index array, then give each view that moves its new rank and
   * cell.
   */
  method SecondStepRanks(viewList: seq<Option<FolderItem>>, targetRank: int, missingItemCount: nat, gridX: nat, maxItems: nat)
    returns (indexArray: seq<int>, newViews: seq<Option<FolderItem>>)
    requires gridX > 0 && maxItems > 0
    ensures indexArray == SecondStepArray(OccupiedRanks(viewList, |viewList|), targetRank, missingItemCount, |viewList|).0
    ensures |newViews| == |viewList|
    ensures forall i :: 0 <= i < |viewList| ==> newViews[i] == SecondStepView(viewList, indexArray, i, gridX, maxItems)
  {
    var maxItemPos := |viewList|;
    var tempIndexArray := CollectOccupied(viewList);
    indexArray := BuildSecondStepArray(tempIndexArray, targetRank, missingItemCount, maxItemPos);
    newViews := [];
    var i := 0;
    while i < maxItemPos
      invariant 0 <= i <= maxItemPos && |newViews| == i
      invariant forall j :: 0 <= j < i ==> newViews[j] == SecondStepView(viewList, indexArray, j, gridX, maxItems)
    {
      var next := MoveView(viewList, indexArray, i, gridX, maxItems);
      newViews := newViews + [next];
      i := i + 1;
    }
  }

  // ------------------------------------------------------- folder state

  /** The folder window's own state over its paged content. */
  class FolderWindow {
    const content: PagedView
    /** `mAddButton != null`. */
    var addButtonCreated: bool
    /** The page and cell the add button is attached at, None when detached. */
    var addButton: Option<CellPos>
    var emptyCellRank: int

    ghost predicate Valid()
      reads this, content
    {
      content.Valid()
      && (addButton.Some? ==> addButtonCreated && 0 <= addButton.value.page < |content.pages|)
    }

    constructor (c: PagedView)
      requires c.Valid()
      ensures Valid() && content == c && !addButtonCreated && addButton.None? && emptyCellRank == 0
    {
      content := c;
      addButtonCreated := false;
      addButton := None;
      emptyCellRank := 0;
    }

    /** `getIconCount`. */
    function GetIconCount(): (r: Result<int>)
      reads this, content
      requires Valid()
      ensures r.Failure? <==> |content.pages| == 0 || !addButtonCreated
      ensures r.Ok? && (addButton.None? || addButton.value.page == |content.pages| - 1) ==>
        r.value == ItemCountOf(content.pages, content.maxItemsPerPage)
    {
      IconCount(content.pages, addButtonCreated, addButton, content.maxItemsPerPage)
    }

    /**
     * `insertAddIcon`: nothing when the button is attached; otherwise the
     * button is created if needed and, when a page exists, attached at the
     * slot after the last page's children (on a new page when that slot
     * wraps).
     */
    method InsertAddIcon()
      requires Valid()
      modifies this, content
      ensures Valid()
      ensures content.currentPage == old(content.currentPage)
      ensures content.allocatedContentSize == old(content.allocatedContentSize)
      ensures emptyCellRank == old(emptyCellRank)
      ensures old(addButton).Some? ==>
        addButton == old(addButton) && content.pages == old(content.pages) && addButtonCreated
      ensures old(addButton).None? && |old(content.pages)| == 0 ==>
        addButtonCreated && addButton.None? && content.pages == old(content.pages)
      ensures old(addButton).None? && |old(content.pages)| > 0 ==>
        addButtonCreated && addButton.Some?
        && (content.pages, addButton.value) == AddButtonPlacement(old(content.pages), content.gridCountX, content.gridCountY)
    {
      if addButton.Some? {
        return;
      }
      addButtonCreated := true;
      var lastPageIndex := |content.pages| - 1;
      if lastPageIndex >= 0 {
        var itemsPerPage := content.gridCountX * content.gridCountY;
        var index := |content.pages[lastPageIndex]| % itemsPerPage;
        var page := lastPageIndex;
        if index == 0 {
          content.pages := content.pages + [[]];
          page := lastPageIndex + 1;
        }
        var cellX := index % content.gridCountX;
        var cellY := index / content.gridCountX;
        addButton := Some(CellPos(page, cellX, cellY));
      }
    }

    /**
     * The walk-back at the start of `onDrop`: while the rank before the
     * empty cell holds no view, move the empty cell back by one.
     */
    method WalkBackEmptyCell()
      requires Valid()
      modifies this
      ensures Valid() && addButton == old(addButton) && addButtonCreated == old(addButtonCreated)
      ensures emptyCellRank == WalkedBack(content.pages, old(emptyCellRank), content.gridCountX, content.maxItemsPerPage)
    {
      while emptyCellRank > 0 && ChildByRank(content.pages, emptyCellRank - 1, content.gridCountX, content.maxItemsPerPage).None?
        invariant addButton == old(addButton) && addButtonCreated == old(addButtonCreated)
        invariant WalkedBack(content.pages, emptyCellRank, content.gridCountX, content.maxItemsPerPage)
          == WalkedBack(content.pages, old(emptyCellRank), content.gridCountX, content.maxItemsPerPage)
        decreases emptyCellRank
      {
        emptyCellRank := emptyCellRank - 1;
      }
    }
  }

  /**
   * Where the walk-back from `e` stops: it never moves forward, every rank
   * it passes holds no view, and it stops at 0 or after an occupied rank.
   */
  function WalkedBack(pages: seq<seq<FolderItem>>, e: int, gridX: nat, maxItems: nat): (r: int)
    requires gridX > 0 && maxItems > 0
    ensures r <= e && (e <= 0 ==> r == e) && (e > 0 ==> r >= 0)
    ensures r > 0 ==> ChildByRank(pages, r - 1, gridX, maxItems).Some?
    ensures forall q: nat :: r <= q < e ==> ChildByRank(pages, q, gridX, maxItems).None?
    decreases e
  {
    if e > 0 && ChildByRank(pages, e - 1, gridX, maxItems).None? then WalkedBack(pages, e - 1, gridX, maxItems)
    else e
  }
}
