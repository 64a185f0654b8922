/**
 * FolderPagedView: the pages of an open folder. A folder icon's rank is its
 * position in reading order over all pages; it decomposes into a page
 * number and a cell of that page's gridCountX x gridCountY grid.
 *
 * A page is the sequence of the folder items its cell container holds, in
 * the order they were added; an item is the part of its ItemInfo that the
 * paged view reads and writes (rank and cell). Folder icons are single
 * cells, so looking a child up by cell is ShortcutAndWidgetContainer's
 * `getChildAt` specialised to 1x1 spans.
 */
module FolderPagedView {
  import opened Common

  /** The rank and cell of a folder icon's ItemInfo, plus an identity. */
  datatype FolderItem = FolderItem(id: int, rank: int, cellX: int, cellY: int)

  // ------------------------------------------------------------ grid sizing

  /** One pass of the body of `calculateGridSize`'s loop on (countX, countY). */
  function GridStep(count: int, gx: int, gy: int, maxX: int, maxY: int): (int, int)
  {
    if gx * gy < count then
      var g := if (gx <= gy || gy == maxY) && gx < maxX then (gx + 1, gy)
               else if gy < maxY then (gx, gy + 1)
               else (gx, gy);
      (if g.1 == 0 then (g.0, g.1 + 1) else g)
    else if (gy - 1) * gx >= count && gy >= gx then (gx, Max(0, gy - 1))
    else if (gx - 1) * gy >= count then (Max(0, gx - 1), gy)
    else (gx, gy)
  }

  /** A grid on which one more pass changes nothing: where the loop stops. */
  predicate Stable(count: int, gx: int, gy: int, maxX: int, maxY: int)
  {
    GridStep(count, gx, gy, maxX, maxY) == (gx, gy)
  }

  /** Termination measure of the loop: growing phases rank above shrinking ones. */
  function GridMeasure(count: int, gx: int, gy: int, boundX: int, boundY: int): int
  {
    if gx * gy < count then 3 * (boundX + boundY) - gx - gy + 1 else gx + gy
  }

  /** A pass that changes the grid stays within the bounds and lowers the measure. */
  lemma GridStepDecreases(count: nat, gx: nat, gy: nat, maxX: nat, maxY: nat, boundX: nat, boundY: nat)
    requires gx <= boundX && gy <= boundY && maxX <= boundX && maxY <= boundY && boundY >= 1
    ensures var g := GridStep(count, gx, gy, maxX, maxY);
      0 <= g.0 <= boundX && 0 <= g.1 <= boundY &&
      (g != (gx, gy) ==> 0 <= GridMeasure(count, g.0, g.1, boundX, boundY) < GridMeasure(count, gx, gy, boundX, boundY))
  {
    if gx * gy >= count {
      if (gy - 1) * gx >= count && gy >= gx {
        assert gx * (gy - 1) == (gy - 1) * gx;
      }
    }
  }

  /**
   * `calculateGridSize`: a full page when count reaches maxItemsPerPage,
   * otherwise the grid the grow/shrink loop settles on, never above the
   * larger of the start and maximum sizes (countY at least 1).
   */
  method CalculateGridSize(count: nat, countX: nat, countY: nat, maxCountX: nat, maxCountY: nat,
                           maxItemsPerPage: int)
    returns (gridCountX: nat, gridCountY: nat)
    ensures count >= maxItemsPerPage ==> gridCountX == maxCountX && gridCountY == maxCountY
    ensures count < maxItemsPerPage ==> Stable(count, gridCountX, gridCountY, maxCountX, maxCountY)
    ensures count < maxItemsPerPage ==>
      gridCountX <= Max(countX, maxCountX) && gridCountY <= Max(Max(countY, maxCountY), 1)
  {
    var done: bool;
    gridCountX := countX;
    gridCountY := countY;
    if count >= maxItemsPerPage {
      gridCountX := maxCountX;
      gridCountY := maxCountY;
      done := true;
    } else {
      done := false;
    }
    ghost var boundX := Max(countX, maxCountX);
    ghost var boundY := Max(Max(countY, maxCountY), 1);
    while !done
      invariant count >= maxItemsPerPage ==> done && gridCountX == maxCountX && gridCountY == maxCountY
      invariant gridCountX <= boundX && gridCountY <= boundY
      invariant done && count < maxItemsPerPage ==> Stable(count, gridCountX, gridCountY, maxCountX, maxCountY)
      decreases (if done then 0 else 1), GridMeasure(count, gridCountX, gridCountY, boundX, boundY)
    {
      var oldCountX := gridCountX;
      var oldCountY := gridCountY;
      GridStepDecreases(count, oldCountX, oldCountY, maxCountX, maxCountY, boundX, boundY);
      if gridCountX * gridCountY < count {
        if (gridCountX <= gridCountY || gridCountY == maxCountY) && gridCountX < maxCountX {
          gridCountX := gridCountX + 1;
        } else if gridCountY < maxCountY {
          gridCountY := gridCountY + 1;
        }
        if gridCountY == 0 {
          gridCountY := gridCountY + 1;
        }
      } else if (gridCountY - 1) * gridCountX >= count && gridCountY >= gridCountX {
        gridCountY := Max(0, gridCountY - 1);
      } else if (gridCountX - 1) * gridCountY >= count {
        gridCountX := Max(0, gridCountX - 1);
      }
      assert (gridCountX, gridCountY) == GridStep(count, oldCountX, oldCountY, maxCountX, maxCountY);
      done := gridCountX == oldCountX && gridCountY == oldCountY;
    }
  }

  /**
   * Started inside the maximum grid, the loop settles on a grid that holds
   * `count` items whenever the maximum grid does.
   */
  lemma GridFits(count: nat, gx: nat, gy: nat, maxX: nat, maxY: nat)
    requires Stable(count, gx, gy, maxX, maxY)
    requires gx <= maxX && gy <= Max(maxY, 1)
    requires count <= maxX * maxY
    ensures gx * gy >= count
  {
    if maxY == 0 {
      assert maxX * maxY == 0;
    } else if gy == maxY && gx == maxX {
    } else {
      assert gx * gy >= count;
    }
  }

  /** A settled grid that holds `count` items keeps every row and column the loop could drop. */
  lemma GridTight(count: nat, gx: nat, gy: nat, maxX: nat, maxY: nat)
    requires Stable(count, gx, gy, maxX, maxY)
    requires gx * gy >= count
    ensures gy == 0 || gy < gx || (gy - 1) * gx < count
    ensures gx == 0 || (gx - 1) * gy < count || ((gy - 1) * gx >= count && gy >= gx)
  {
  }

  // --------------------------------------------------- rank <-> page and cell

  /** A page number and a cell in that page's grid. */
  datatype CellPos = CellPos(page: int, cellX: int, cellY: int)

  /**
   * The decomposition shared by `addViewForRank` and `getChildViewByRank`:
   * page = rank / max, position = rank % max, cell = (position % gridX, position / gridX).
   */
  function RankToCell(rank: nat, gridX: nat, maxItems: nat): (r: CellPos)
    requires gridX > 0 && maxItems > 0
    ensures r.page >= 0 && 0 <= r.cellX < gridX && r.cellY >= 0
    ensures rank < maxItems ==> r.page == 0
  {
    var pos := rank % maxItems;
    CellPos(rank / maxItems, pos % gridX, pos / gridX)
  }

  /** The rank of a cell in reading order: page * max + cellY * gridX + cellX. */
  function CellToRank(c: CellPos, gridX: nat, maxItems: nat): (r: int)
    ensures c.page >= 0 && c.cellX >= 0 && c.cellY >= 0 ==> r >= c.page * maxItems
  {
    c.page * maxItems + c.cellY * gridX + c.cellX
  }

  /** Decomposing a rank lands inside the grid and recomposes to the same rank. */
  lemma RankCellRoundTrip(rank: nat, gridX: nat, gridY: nat)
    requires gridX > 0 && gridY > 0
    ensures var c := RankToCell(rank, gridX, gridX * gridY);
      0 <= c.cellX < gridX && 0 <= c.cellY < gridY && c.page >= 0 &&
      CellToRank(c, gridX, gridX * gridY) == rank
  {
    var m := gridX * gridY;
    var pos := rank % m;
    var y := pos / gridX;
    assert gridY * gridX == m;
    MulSucc(y, gridX);
    MulStrict(y, gridY, gridX);
  }

  /** Every in-grid cell of a page is the decomposition of exactly its rank. */
  lemma CellRankRoundTrip(c: CellPos, gridX: nat, gridY: nat)
    requires gridX > 0 && gridY > 0
    requires c.page >= 0 && 0 <= c.cellX < gridX && 0 <= c.cellY < gridY
    ensures CellToRank(c, gridX, gridX * gridY) >= 0
    ensures RankToCell(CellToRank(c, gridX, gridX * gridY), gridX, gridX * gridY) == c
  {
    var m := gridX * gridY;
    var pos := c.cellY * gridX + c.cellX;
    MulMono(c.cellY + 1, gridY, gridX);
    MulSucc(c.cellY, gridX);
    assert gridY * gridX == m;
    var rank := c.page * m + pos;
    DivModUnique(rank, m, c.page, pos);
    DivModUnique(pos, gridX, c.cellY, c.cellX);
  }

  /** A rank lies on page p exactly when it lies in [p * m, (p + 1) * m). */
  lemma RankPageIff(rank: nat, page: int, m: nat)
    requires m > 0
    ensures rank / m == page <==> page * m <= rank < (page + 1) * m
  {
    MulSucc(page, m);
    if page * m <= rank < (page + 1) * m {
      DivModUnique(rank, m, page, rank - page * m);
    }
  }

  /** Two ranks of the same page never share a cell. */
  lemma SamePageCellsDiffer(i: nat, j: nat, gridX: nat, gridY: nat)
    requires gridX > 0 && gridY > 0 && i != j
    requires RankToCell(i, gridX, gridX * gridY).page == RankToCell(j, gridX, gridX * gridY).page
    ensures var ci := RankToCell(i, gridX, gridX * gridY);
      var cj := RankToCell(j, gridX, gridX * gridY);
      ci.cellX != cj.cellX || ci.cellY != cj.cellY
  {
    RankCellRoundTrip(i, gridX, gridY);
    RankCellRoundTrip(j, gridX, gridY);
  }

  // ------------------------------------------------------------ page contents

  /**
   * The first child of a page at cell (x, y), or None: `getChildAt(x, y)`
   * for single-cell children, written so that appending a child extends it.
   */
  function FirstAtCell(page: seq<FolderItem>, x: int, y: int): (r: Option<FolderItem>)
    ensures r.Some? ==> r.value in page && r.value.cellX == x && r.value.cellY == y
    ensures r.None? <==> forall k :: 0 <= k < |page| ==> !(page[k].cellX == x && page[k].cellY == y)
  {
    if |page| == 0 then None
    else
      (var r := FirstAtCell(page[..|page| - 1], x, y);
       var last := page[|page| - 1];
       assert forall k :: 0 <= k < |page| - 1 ==> page[..|page| - 1][k] == page[k];
       if r.Some? then r
       else if last.cellX == x && last.cellY == y then Some(last)
       else None)
  }

  /** Slot i of a list of views, null beyond its end (`list.size() > i ? list.get(i) : null`). */
  function Slot(list: seq<Option<FolderItem>>, i: nat): Option<FolderItem>
  {
    if i < |list| then list[i] else None
  }

  /** The item after it is given rank `rank` and that rank's cell. */
  function Placed(v: FolderItem, rank: nat, gridX: nat, maxItems: nat): FolderItem
    requires gridX > 0 && maxItems > 0
  {
    var c := RankToCell(rank, gridX, maxItems);
    v.(rank := rank, cellX := c.cellX, cellY := c.cellY)
  }

  /** What slot i contributes to its page: nothing, or its view placed at rank i. */
  function SlotItems(list: seq<Option<FolderItem>>, i: nat, gridX: nat, maxItems: nat): seq<FolderItem>
    requires gridX > 0 && maxItems > 0
  {
    match Slot(list, i)
    case None => []
    case Some(v) => [Placed(v, i, gridX, maxItems)]
  }

  /** The number of pages `arrangeChildren` uses for `n` slots. */
  function PageCount(n: nat, maxItems: nat): nat
    requires maxItems > 0
  {
    if n == 0 then 0 else (n - 1) / maxItems + 1
  }

  /** One more slot opens a page exactly when it starts one. */
  lemma PageCountStep(n: nat, m: nat)
    requires m > 0
    ensures PageCount(n + 1, m) == if n % m == 0 then PageCount(n, m) + 1 else PageCount(n, m)
  {
    if n > 0 {
      ModSucc(n - 1, m);
    }
  }

  /**
   * The pages `arrangeChildren(list, n)` builds, slot by slot: slot i opens
   * a new page when i is a multiple of the page size and otherwise joins
   * the last page; a present view joins as placed at rank i. (There is
   * always a last page to join: `ArrangedLength`.)
   */
  function Arranged(list: seq<Option<FolderItem>>, n: nat, gridX: nat, maxItems: nat): seq<seq<FolderItem>>
    requires gridX > 0 && maxItems > 0
    decreases n
  {
    if n == 0 then []
    else
      var a := Arranged(list, n - 1, gridX, maxItems);
      var t := SlotItems(list, n - 1, gridX, maxItems);
      if (n - 1) % maxItems == 0 || |a| == 0 then a + [t]
      else a[|a| - 1 := a[|a| - 1] + t]
  }

  /** Arranging n slots gives one page per started run of max slots. */
  lemma {:induction false} ArrangedLength(list: seq<Option<FolderItem>>, n: nat, gridX: nat, m: nat)
    requires gridX > 0 && m > 0
    ensures |Arranged(list, n, gridX, m)| == PageCount(n, m)
    decreases n
  {
    if n > 0 {
      var a := Arranged(list, n - 1, gridX, m);
      var opens := (n - 1) % m == 0;
      assert |a| == PageCount(n - 1, m) by {
        ArrangedLength(list, n - 1, gridX, m);
      }
      assert PageCount(n, m) == if opens then PageCount(n - 1, m) + 1 else PageCount(n - 1, m) by {
        PageCountStep(n - 1, m);
      }
      assert |a| == 0 ==> opens;
      assert |Arranged(list, n, gridX, m)| == if opens then |a| + 1 else |a|;
    }
  }

  /**
   * `arrangeChildren`'s in-page position before slot i is 1 + (i - 1) mod
   * max (0 before the first slot): slot i opens a page exactly when i is a
   * multiple of max, and then sits at position i mod max.
   */
  lemma PositionStep(i: nat, m: nat, position: int)
    requires m > 0
    requires i == 0 ==> position == 0
    requires i > 0 ==> position == (i - 1) % m + 1
    ensures (i == 0 || position >= m) <==> i % m == 0
    ensures (if i == 0 || position >= m then 0 else position) == i % m
  {
    if i > 0 {
      ModSucc(i - 1, m);
    }
  }

  /** The views whose rank or cell `arrangeChildren` changes, each as placed, in slot order. */
  function Moved(list: seq<Option<FolderItem>>, n: nat, gridX: nat, maxItems: nat): seq<FolderItem>
    requires gridX > 0 && maxItems > 0
  {
    if n == 0 then []
    else
      (Moved(list, n - 1, gridX, maxItems) +
       match Slot(list, n - 1)
       case None => []
       case Some(v) =>
         var p := Placed(v, n - 1, gridX, maxItems);
         if v.cellX != p.cellX || v.cellY != p.cellY || v.rank != p.rank then [p] else [])
  }

  /** `getItemCount`: 0 without pages, else the full pages before the last plus its children. */
  function ItemCountOf(pages: seq<seq<FolderItem>>, maxItems: nat): int
  {
    if |pages| == 0 then 0 else |pages[|pages| - 1]| + (|pages| - 1) * maxItems
  }

  /** `getChildViewByRank`: the child at the rank's cell, None when the page does not exist. */
  function ChildByRank(pages: seq<seq<FolderItem>>, rank: nat, gridX: nat, maxItems: nat): Option<FolderItem>
    requires gridX > 0 && maxItems > 0
  {
    var c := RankToCell(rank, gridX, maxItems);
    if c.page < |pages| then FirstAtCell(pages[c.page], c.cellX, c.cellY) else None
  }

  /** Appending an item at another cell does not change what a cell lookup finds. */
  lemma FirstAtCellAppend(s: seq<FolderItem>, t: seq<FolderItem>, x: int, y: int)
    requires |t| <= 1
    ensures FirstAtCell(s + t, x, y) ==
      if FirstAtCell(s, x, y).Some? then FirstAtCell(s, x, y)
      else if |t| == 1 && t[0].cellX == x && t[0].cellY == y then Some(t[0])
      else None
  {
    if |t| == 0 {
      assert s + t == s;
    } else {
      assert (s + t)[..|s + t| - 1] == s;
    }
  }

  /** Arranging slot k touches only page k / max: a fresh page when k starts one, else the end of the last page. */
  lemma ArrangedAppend(list: seq<Option<FolderItem>>, k: nat, gridX: nat, m: nat)
    requires gridX > 0 && m > 0
    ensures var a := Arranged(list, k, gridX, m);
      var b := Arranged(list, k + 1, gridX, m);
      var last := k / m;
      |b| == last + 1 && |a| == (if k % m == 0 then last else last + 1) &&
      (forall p :: 0 <= p < last ==> b[p] == a[p]) &&
      b[last] == (if k % m == 0 then [] else a[last]) + SlotItems(list, k, gridX, m)
  {
    PageCountStep(k, m);
    ArrangedLength(list, k, gridX, m);
    if k % m == 0 {
      assert [] + SlotItems(list, k, gridX, m) == SlotItems(list, k, gridX, m);
    }
  }

  /** Distinct ranks of one page have distinct cells. */
  ghost predicate DistinctCells(gridX: nat, m: nat)
    requires gridX > 0 && m > 0
  {
    forall i: nat, j: nat {:trigger RankToCell(i, gridX, m), RankToCell(j, gridX, m)} ::
      i != j && RankToCell(i, gridX, m).page == RankToCell(j, gridX, m).page ==>
        RankToCell(i, gridX, m).cellX != RankToCell(j, gridX, m).cellX ||
        RankToCell(i, gridX, m).cellY != RankToCell(j, gridX, m).cellY
  }

  lemma GridCellsDistinct(gridX: nat, gridY: nat)
    requires gridX > 0 && gridY > 0
    ensures DistinctCells(gridX, gridX * gridY)
  {
    forall i: nat, j: nat | i != j && RankToCell(i, gridX, gridX * gridY).page == RankToCell(j, gridX, gridX * gridY).page
      ensures RankToCell(i, gridX, gridX * gridY).cellX != RankToCell(j, gridX, gridX * gridY).cellX ||
              RankToCell(i, gridX, gridX * gridY).cellY != RankToCell(j, gridX, gridX * gridY).cellY
    {
      SamePageCellsDiffer(i, j, gridX, gridY);
    }
  }

  /** Arranging slot k leaves the lookup of another rank as it was, when the two ranks have different cells on a shared page. */
  lemma ArrangedLookupOther(list: seq<Option<FolderItem>>, k: nat, gridX: nat, m: nat, i: nat)
    requires gridX > 0 && m > 0 && i != k
    requires RankToCell(i, gridX, m).page == RankToCell(k, gridX, m).page ==>
      RankToCell(i, gridX, m).cellX != RankToCell(k, gridX, m).cellX ||
      RankToCell(i, gridX, m).cellY != RankToCell(k, gridX, m).cellY
    ensures ChildByRank(Arranged(list, k + 1, gridX, m), i, gridX, m) == ChildByRank(Arranged(list, k, gridX, m), i, gridX, m)
  {
    var a := Arranged(list, k, gridX, m);
    var b := Arranged(list, k + 1, gridX, m);
    var page := RankToCell(i, gridX, m).page;
    if page == k / m {
      ArrangedLookupLastPage(list, k, gridX, m, i);
    } else {
      ArrangedAppend(list, k, gridX, m);
      if page < k / m {
        LookupEarlierPage(a, b, k / m, i, gridX, m);
      } else {
        LookupPastEnd(a, i, gridX, m);
        LookupPastEnd(b, i, gridX, m);
      }
    }
  }

  /** Two page lists that agree on the pages before `last` agree on the lookup of a rank on one of those pages. */
  lemma LookupEarlierPage(a: seq<seq<FolderItem>>, b: seq<seq<FolderItem>>, last: int, i: nat, gridX: nat, m: nat)
    requires gridX > 0 && m > 0
    requires last <= |a| && last <= |b| && forall p :: 0 <= p < last ==> b[p] == a[p]
    requires RankToCell(i, gridX, m).page < last
    ensures ChildByRank(b, i, gridX, m) == ChildByRank(a, i, gridX, m)
  {
    var page := RankToCell(i, gridX, m).page;
    assert b[page] == a[page];
  }

  /** A rank on a page past the end of a page list finds nothing. */
  lemma LookupPastEnd(a: seq<seq<FolderItem>>, i: nat, gridX: nat, m: nat)
    requires gridX > 0 && m > 0 && RankToCell(i, gridX, m).page >= |a|
    ensures ChildByRank(a, i, gridX, m) == None
  {
  }

  /** The same, for a rank on the page slot k goes to. */
  lemma ArrangedLookupLastPage(list: seq<Option<FolderItem>>, k: nat, gridX: nat, m: nat, i: nat)
    requires gridX > 0 && m > 0 && RankToCell(i, gridX, m).page == k / m
    requires RankToCell(i, gridX, m).cellX != RankToCell(k, gridX, m).cellX ||
      RankToCell(i, gridX, m).cellY != RankToCell(k, gridX, m).cellY
    ensures ChildByRank(Arranged(list, k + 1, gridX, m), i, gridX, m) == ChildByRank(Arranged(list, k, gridX, m), i, gridX, m)
  {
    var a := Arranged(list, k, gridX, m);
    var b := Arranged(list, k + 1, gridX, m);
    var t := SlotItems(list, k, gridX, m);
    var c := RankToCell(i, gridX, m);
    var last := k / m;
    ArrangedAppend(list, k, gridX, m);
    var prefix := if k % m == 0 then [] else a[last];
    assert FirstAtCell(b[last], c.cellX, c.cellY) == FirstAtCell(prefix, c.cellX, c.cellY) by {
      var ck := RankToCell(k, gridX, m);
      assert |t| == 1 ==> t[0].cellX == ck.cellX && t[0].cellY == ck.cellY;
      FirstAtCellAppend(prefix, t, c.cellX, c.cellY);
    }
    assert ChildByRank(a, i, gridX, m) == FirstAtCell(prefix, c.cellX, c.cellY) by {
      if k % m == 0 {
        assert c.page >= |a|;
      } else {
        assert c.page < |a|;
      }
    }
  }

  /** Arranging slot k makes rank k, unoccupied before, find slot k's placed view. */
  lemma ArrangedLookupSame(list: seq<Option<FolderItem>>, k: nat, gridX: nat, m: nat)
    requires gridX > 0 && m > 0
    requires ChildByRank(Arranged(list, k, gridX, m), k, gridX, m).None?
    ensures ChildByRank(Arranged(list, k + 1, gridX, m), k, gridX, m) ==
      if Slot(list, k).Some? then Some(Placed(Slot(list, k).value, k, gridX, m)) else None
  {
    var a := Arranged(list, k, gridX, m);
    var t := SlotItems(list, k, gridX, m);
    var c := RankToCell(k, gridX, m);
    var last := k / m;
    ArrangedAppend(list, k, gridX, m);
    assert c.page == last;
    var prefix := if k % m == 0 then [] else a[last];
    FirstAtCellAppend(prefix, t, c.cellX, c.cellY);
  }

  /** What rank i holds once the first n slots are arranged: slot i's view placed at rank i, if there is one. */
  function Expected(list: seq<Option<FolderItem>>, n: nat, i: nat, gridX: nat, m: nat): Option<FolderItem>
    requires gridX > 0 && m > 0
  {
    if i < n && Slot(list, i).Some? then Some(Placed(Slot(list, i).value, i, gridX, m)) else None
  }

  /** Rank i's lookup after arranging the first n slots is what it should be. */
  ghost predicate LookupOk(list: seq<Option<FolderItem>>, n: nat, i: nat, gridX: nat, m: nat)
    requires gridX > 0 && m > 0
  {
    ChildByRank(Arranged(list, n, gridX, m), i, gridX, m) == Expected(list, n, i, gridX, m)
  }

  /** Arranging one more slot keeps every rank's lookup what it should be. */
  lemma LookupGrow(list: seq<Option<FolderItem>>, k: nat, gridX: nat, m: nat, i: nat)
    requires gridX > 0 && m > 0 && DistinctCells(gridX, m)
    requires LookupOk(list, k, i, gridX, m)
    ensures LookupOk(list, k + 1, i, gridX, m)
  {
    if i == k {
      ArrangedLookupSame(list, k, gridX, m);
    } else {
      ArrangedLookupOther(list, k, gridX, m, i);
    }
  }

  /** The induction behind `ArrangedLookup`, for any grid whose page cells are distinct. */
  lemma {:induction false} ArrangedLookupDistinct(list: seq<Option<FolderItem>>, n: nat, gridX: nat, m: nat, i: nat)
    requires gridX > 0 && m > 0 && DistinctCells(gridX, m)
    ensures LookupOk(list, n, i, gridX, m)
    decreases n
  {
    if n > 0 {
      ArrangedLookupDistinct(list, n - 1, gridX, m, i);
      LookupGrow(list, n - 1, gridX, m, i);
    } else {
      assert Arranged(list, 0, gridX, m) == [];
    }
  }

  /**
   * After `arrangeChildren(list, n)`, rank i holds exactly the view of
   * slot i placed at rank i, and nothing when that slot is null or i >= n.
   */
  lemma ArrangedLookup(list: seq<Option<FolderItem>>, n: nat, gridX: nat, gridY: nat, i: nat)
    requires gridX > 0 && gridY > 0
    ensures var m := gridX * gridY;
      ChildByRank(Arranged(list, n, gridX, m), i, gridX, m) ==
        if i < n && Slot(list, i).Some? then Some(Placed(Slot(list, i).value, i, gridX, m)) else None
  {
    GridCellsDistinct(gridX, gridY);
    ArrangedLookupDistinct(list, n, gridX, gridX * gridY, i);
    assert LookupOk(list, n, i, gridX, gridX * gridY);
  }

  /**
   * What `allocateSpaceForRank` leaves behind: after a null slot is inserted
   * at `rank` and the list re-arranged, the rank's cell is empty, the views
   * before it keep their ranks and the views from it on move one rank up.
   */
  lemma AllocatedSlotLookup(views: seq<Option<FolderItem>>, rank: nat, gridX: nat, gridY: nat, i: nat)
    requires gridX > 0 && gridY > 0 && rank <= |views|
    ensures var m := gridX * gridY;
      ChildByRank(Arranged(views[..rank] + [None] + views[rank..], |views| + 1, gridX, m), i, gridX, m) ==
        if i < rank && views[i].Some? then Some(Placed(views[i].value, i, gridX, m))
        else if rank < i <= |views| && views[i - 1].Some? then Some(Placed(views[i - 1].value, i, gridX, m))
        else None
  {
    var list := views[..rank] + [None] + views[rank..];
    ArrangedLookup(list, |views| + 1, gridX, gridY, i);
    if i < rank {
      assert Slot(list, i) == views[i];
    } else if i == rank {
      assert Slot(list, i) == None;
    } else if i <= |views| {
      assert Slot(list, i) == views[i - 1];
    }
  }

  /** A present view in slot k raises `getItemCount` of the arrangement from k to k + 1. */
  lemma ArrangedCountStep(list: seq<Option<FolderItem>>, k: nat, gridX: nat, m: nat)
    requires gridX > 0 && m > 0 && Slot(list, k).Some?
    requires ItemCountOf(Arranged(list, k, gridX, m), m) == k
    ensures ItemCountOf(Arranged(list, k + 1, gridX, m), m) == k + 1
  {
    var a := Arranged(list, k, gridX, m);
    var b := Arranged(list, k + 1, gridX, m);
    var last := k / m;
    ArrangedAppend(list, k, gridX, m);
    assert |SlotItems(list, k, gridX, m)| == 1;
    DivModIdentity(k, m);
    if k % m == 0 {
      if last > 0 {
        MulSucc(last - 1, m);
      }
      assert |b[last]| == 1;
    } else {
      assert |b[last]| == |a[last]| + 1;
    }
  }

  /** Arranging n present views leaves `getItemCount` == n. */
  lemma {:induction false} ArrangedItemCount(list: seq<Option<FolderItem>>, n: nat, gridX: nat, m: nat)
    requires gridX > 0 && m > 0
    requires forall i :: 0 <= i < n ==> Slot(list, i).Some?
    ensures ItemCountOf(Arranged(list, n, gridX, m), m) == n
    decreases n
  {
    if n > 0 {
      ArrangedItemCount(list, n - 1, gridX, m);
      ArrangedCountStep(list, n - 1, gridX, m);
    }
  }

  // --------------------------------------------------------- reading order

  /** The children of one page at positions [0, n), scanned row by row (`iterateOverItems`). */
  function ScanPage(page: seq<FolderItem>, gridX: nat, n: nat): seq<FolderItem>
    requires gridX > 0
  {
    if n == 0 then []
    else
      (ScanPage(page, gridX, n - 1) +
       match FirstAtCell(page, (n - 1) % gridX, (n - 1) / gridX)
       case None => []
       case Some(v) => [v])
  }

  /** `getItemsInReadingOrder`: page by page, row by row, column by column. */
  function ReadingOrder(pages: seq<seq<FolderItem>>, gridX: nat, gridY: nat): seq<FolderItem>
    requires gridX > 0
  {
    if |pages| == 0 then []
    else ReadingOrder(pages[..|pages| - 1], gridX, gridY) + ScanPage(pages[|pages| - 1], gridX, gridX * gridY)
  }

  /** The reading-order views as non-null slots. */
  function Present(items: seq<FolderItem>): (r: seq<Option<FolderItem>>)
    ensures |r| == |items| && forall k :: 0 <= k < |items| ==> r[k] == Some(items[k])
  {
    seq(|items|, k requires 0 <= k < |items| => Some(items[k]))
  }

  // ----------------------------------------------------------- reordering

  /**
   * An index list of `realTimeReorder`: [0..split) ++ dragCellCount copies
   * of -1 ++ [split..maxItemCount); split is `empty` for the old list and
   * `target` for the new one.
   */
  function IndexArray(split: nat, dragCellCount: nat, maxItemCount: nat): seq<int>
  {
    var n := split + dragCellCount + (if maxItemCount > split then maxItemCount - split else 0);
    seq(n, k => if k < split then k else if k < split + dragCellCount then -1 else k - dragCellCount)
  }

  /**
   * The rank the view at old rank i receives when the empty cell moves from
   * `empty` to `target`: ranks before both stay, the dragged cells land on
   * `target`, and the ranks in between shift by dragCellCount.
   */
  function ReorderedRank(i: nat, empty: nat, target: nat, dragCellCount: nat): int
  {
    if i < empty then (if i < target then i else i + dragCellCount)
    else if i < empty + dragCellCount then target
    else if i - dragCellCount < target then i - dragCellCount
    else i
  }

  /**
   * One slot of `arrangeChildren`'s loop: open a page when the slot starts
   * one, place a present view at rank i (reporting it when its rank or cell
   * changes) and step the in-page position.
   */
  method ArrangeSlot(list: seq<Option<FolderItem>>, i: nat, gridX: nat, m: nat, saveChanges: bool,
                     pages: seq<seq<FolderItem>>, saved: seq<FolderItem>, position: int)
    returns (pages': seq<seq<FolderItem>>, saved': seq<FolderItem>, position': int)
    requires gridX > 0 && m > 0
    requires pages == Arranged(list, i, gridX, m)
    requires i == 0 ==> position == 0
    requires i > 0 ==> position == (i - 1) % m + 1
    requires saved == if saveChanges then Moved(list, i, gridX, m) else []
    ensures pages' == Arranged(list, i + 1, gridX, m)
    ensures position' == i % m + 1
    ensures saved' == if saveChanges then Moved(list, i + 1, gridX, m) else []
  {
    var v := Slot(list, i);
    ghost var t := SlotItems(list, i, gridX, m);
    PageCountStep(i, m);
    PositionStep(i, m, position);
    ArrangedLength(list, i, gridX, m);
    pages', saved', position' := pages, saved, position;
    var startsPage := i == 0 || position' >= m;
    if startsPage {
      pages' := pages' + [[]];
      position' := 0;
    }
    assert position' == i % m && (startsPage <==> i % m == 0);
    if v.Some? {
      var info := v.value;
      var newX := position' % gridX;
      var newY := position' / gridX;
      ghost var placed := Placed(info, i, gridX, m);
      assert newX == placed.cellX && newY == placed.cellY;
      if info.cellX != newX || info.cellY != newY || info.rank != i {
        info := info.(cellX := newX, cellY := newY, rank := i);
        if saveChanges {
          saved' := saved' + [info];
        }
      }
      assert info == placed;
      assert t == [info];
      assert startsPage ==> pages'[|pages'| - 1] + [info] == [info];
      pages' := pages'[|pages'| - 1 := pages'[|pages'| - 1] + [info]];
    } else {
      assert t == [];
      assert !startsPage ==> pages[|pages| - 1] + t == pages[|pages| - 1];
    }
    position' := position' + 1;
  }

  /** Entry i of an index list: below the split its own index, then the dragged cells' -1, then shifted back. */
  lemma IndexArrayAt(split: nat, d: nat, mx: nat, i: nat)
    ensures |IndexArray(split, d, mx)| == split + d + (if mx > split then mx - split else 0)
    ensures i < |IndexArray(split, d, mx)| ==>
      IndexArray(split, d, mx)[i] == if i < split then i else if i < split + d then -1 else i - d
  {
  }

  lemma IndexOfInRanges(target: nat, d: nat, mx: nat, v: int)
    requires 0 <= v < mx
    ensures IndexOf(IndexArray(target, d, mx), v) == if v < target then v else v + d
  {
    var s := IndexArray(target, d, mx);
    var want := if v < target then v else v + d;
    IndexArrayAt(target, d, mx, want);
    forall j | 0 <= j < want ensures s[j] != v {
      IndexArrayAt(target, d, mx, j);
    }
    IndexOfAt(s, v, want);
  }

  /**
   * The index lists compute `ReorderedRank`: the position in the new list
   * of the old list's entry i.
   */
  lemma ReorderIndexArrays(i: nat, empty: nat, target: nat, d: nat, mx: nat)
    requires i < mx
    ensures i < |IndexArray(empty, d, mx)|
    ensures IndexOf(IndexArray(target, d, mx), IndexArray(empty, d, mx)[i]) == ReorderedRank(i, empty, target, d)
  {
    IndexArrayAt(empty, d, mx, i);
    if i < empty {
      IndexOfInRanges(target, d, mx, i);
    } else if i < empty + d {
      IndexOfHole(target, d, mx);
    } else {
      IndexOfInRanges(target, d, mx, i - d);
    }
  }

  /** The dragged cells' first -1 sits at the split. */
  lemma IndexOfHole(target: nat, d: nat, mx: nat)
    requires d > 0
    ensures IndexOf(IndexArray(target, d, mx), -1) == target
  {
    var s := IndexArray(target, d, mx);
    IndexArrayAt(target, d, mx, target);
    forall j | 0 <= j < target ensures s[j] != -1 {
      IndexArrayAt(target, d, mx, j);
    }
    IndexOfAt(s, -1, target);
  }

  /** Whether `realTimeReorder` gets past its two "no animation" returns. */
  function ReorderProceeds(empty: nat, target: nat, maxItems: nat, pageToAnimate: int): bool
    requires maxItems > 0
  {
    if target == empty then false
    else
      (var pagePosT := target % maxItems;
       var pagePosE := empty % maxItems;
       var pageE := empty / maxItems;
       var direction := if target > empty then 1 else -1;
       var startPos :=
         if target > empty then (if pageE < pageToAnimate then 0 else pagePosE)
         else (if pageE > pageToAnimate then maxItems - 1 else pagePosE);
       (pagePosT - startPos) * direction > 0)
  }

  /** One index list of `realTimeReorder`, built by its three loops. */
  method BuildIndexArray(split: nat, dragCellCount: nat, maxItemCount: nat) returns (a: seq<int>)
    ensures a == IndexArray(split, dragCellCount, maxItemCount)
  {
    a := [];
    var i := 0;
    while i < split
      invariant 0 <= i <= split && |a| == i
      invariant forall k :: 0 <= k < i ==> a[k] == k
    {
      a := a + [i];
      i := i + 1;
    }
    i := 0;
    while i < dragCellCount
      invariant 0 <= i <= dragCellCount && |a| == split + i
      invariant forall k :: 0 <= k < split + i ==> a[k] == if k < split then k else -1
    {
      a := a + [-1];
      i := i + 1;
    }
    i := split;
    while i < maxItemCount
      invariant split <= i && (i <= maxItemCount || i == split) && |a| == i + dragCellCount
      invariant forall k :: 0 <= k < i + dragCellCount ==>
        a[k] == if k < split then k else if k < split + dragCellCount then -1 else k - dragCellCount
    {
      a := a + [i];
      i := i + 1;
    }
  }

  /**
   * The rank loop of `realTimeReorder` on the views found at ranks
   * 0..maxItemCount-1: every present view receives its reordered rank.
   */
  method ReorderRanks(viewList: seq<Option<FolderItem>>, empty: nat, target: nat, dragCellCount: nat)
    returns (newViews: seq<Option<FolderItem>>)
    ensures |newViews| == |viewList|
    ensures forall i :: 0 <= i < |viewList| ==>
      newViews[i] == match viewList[i]
        case None => None
        case Some(v) => Some(v.(rank := ReorderedRank(i, empty, target, dragCellCount)))
  {
    var maxItemCount := |viewList|;
    var oldIndexArray := BuildIndexArray(empty, dragCellCount, maxItemCount);
    var newIndexArray := BuildIndexArray(target, dragCellCount, maxItemCount);
    newViews := [];
    var i := 0;
    while i < maxItemCount
      invariant 0 <= i <= maxItemCount && |newViews| == i
      invariant forall k :: 0 <= k < i ==>
        newViews[k] == match viewList[k]
          case None => None
          case Some(v) => Some(v.(rank := ReorderedRank(k, empty, target, dragCellCount)))
    {
      var view := viewList[i];
      if view.None? {
        newViews := newViews + [None];
      } else {
        ReorderIndexArrays(i, empty, target, dragCellCount, maxItemCount);
        var newIndex := IndexOf(newIndexArray, oldIndexArray[i]);
        if view.value.rank != newIndex {
          newViews := newViews + [Some(view.value.(rank := newIndex))];
        } else {
          newViews := newViews + [view];
        }
      }
      i := i + 1;
    }
  }

  // -------------------------------------------------------------- the view

  class PagedView {
    const gridCountX: nat
    const gridCountY: nat
    const maxItemsPerPage: nat
    /** The pages, each the children of its cell container in the order they were added. */
    var pages: seq<seq<FolderItem>>
    /** The page `getNextPage` reports. */
    var currentPage: int
    var allocatedContentSize: int

    ghost predicate Valid()
      reads this
    {
      gridCountX > 0 && gridCountY > 0 && maxItemsPerPage == gridCountX * gridCountY
    }

    /** The grid comes from resources; a page holds gridCountX * gridCountY items. */
    constructor (gx: nat, gy: nat)
      requires gx > 0 && gy > 0
      ensures Valid() && gridCountX == gx && gridCountY == gy
      ensures pages == [] && currentPage == 0 && allocatedContentSize == 0
    {
      gridCountX := gx;
      gridCountY := gy;
      maxItemsPerPage := gx * gy;
      pages := [];
      currentPage := 0;
      allocatedContentSize := 0;
    }

    /** `getItemCount`. */
    function ItemCount(): int
      reads this
    {
      ItemCountOf(pages, maxItemsPerPage)
    }

    /** `rankOnCurrentPage`: the rank's page is the current page. */
    function RankOnCurrentPage(rank: nat): (r: bool)
      reads this
      requires Valid()
      ensures r <==> currentPage * maxItemsPerPage <= rank < (currentPage + 1) * maxItemsPerPage
    {
      RankPageIff(rank, currentPage, maxItemsPerPage);
      rank / maxItemsPerPage == currentPage
    }

    /**
     * `findNearestArea` given the cell CellLayout reports for the pixel on
     * the current page: the rank of that cell (column mirrored under RTL),
     * capped at the last allocated rank. The cap is taken exactly when the
     * cell's own rank reaches it.
     */
    function FindNearestArea(cellX: int, cellY: int, rtl: bool): (r: int)
      reads this
      requires Valid() && currentPage >= 0
      requires 0 <= cellX < gridCountX && 0 <= cellY < gridCountY
      ensures var cell := CellPos(currentPage, if rtl then gridCountX - cellX - 1 else cellX, cellY);
        r == Min(allocatedContentSize - 1, CellToRank(cell, gridCountX, maxItemsPerPage))
      ensures var cell := CellPos(currentPage, if rtl then gridCountX - cellX - 1 else cellX, cellY);
        r < allocatedContentSize - 1 <==> CellToRank(cell, gridCountX, maxItemsPerPage) < allocatedContentSize - 1
      ensures r <= allocatedContentSize - 1
      ensures r < allocatedContentSize - 1 ==>
        (r >= 0 &&
         RankToCell(r, gridCountX, maxItemsPerPage) ==
           CellPos(currentPage, if rtl then gridCountX - cellX - 1 else cellX, cellY))
    {
      var x := if rtl then gridCountX - cellX - 1 else cellX;
      CellRankRoundTrip(CellPos(currentPage, x, cellY), gridCountX, gridCountY);
      Min(allocatedContentSize - 1, currentPage * maxItemsPerPage + cellY * gridCountX + x)
    }

    /**
     * Where a drop lands: the rank `findNearestArea` gives never lies past
     * the current page, lies on it whenever the cap is not taken, and is
     * no lower than the page's first rank when that rank is allocated.
     */
    lemma NearestAreaOnCurrentPage(cellX: int, cellY: int, rtl: bool)
      requires Valid() && currentPage >= 0
      requires 0 <= cellX < gridCountX && 0 <= cellY < gridCountY
      ensures FindNearestArea(cellX, cellY, rtl) < (currentPage + 1) * maxItemsPerPage
      ensures FindNearestArea(cellX, cellY, rtl) < allocatedContentSize - 1 ==>
        FindNearestArea(cellX, cellY, rtl) >= 0 && RankOnCurrentPage(FindNearestArea(cellX, cellY, rtl))
      ensures allocatedContentSize - 1 >= currentPage * maxItemsPerPage ==>
        FindNearestArea(cellX, cellY, rtl) >= currentPage * maxItemsPerPage
    {
      var x := if rtl then gridCountX - cellX - 1 else cellX;
      var cell := CellPos(currentPage, x, cellY);
      CellRankRoundTrip(cell, gridCountX, gridCountY);
      var rank := CellToRank(cell, gridCountX, maxItemsPerPage);
      RankPageIff(rank, currentPage, maxItemsPerPage);
      MulSucc(currentPage, maxItemsPerPage);
    }

    /**
     * `addViewForRank`: the item takes the rank and its cell; a page is
     * appended when the rank's page does not exist, and the item joins that
     * page. When the rank lies more than one page beyond the end the
     * appended page is not the rank's page and the source dereferences null
     * (`ok` false).
     */
    method AddViewForRank(item: FolderItem, rank: nat) returns (placed: FolderItem, ok: bool)
      requires Valid()
      modifies this
      ensures Valid() && currentPage == old(currentPage) && allocatedContentSize == old(allocatedContentSize)
      ensures placed == Placed(item, rank, gridCountX, maxItemsPerPage)
      ensures var p := rank / maxItemsPerPage;
        var grown := if p < |old(pages)| then old(pages) else old(pages) + [[]];
        ok == (p < |grown|) &&
        pages == if ok then grown[p := grown[p] + [placed]] else grown
    {
      var pagePos := rank % maxItemsPerPage;
      var pageNo := rank / maxItemsPerPage;
      placed := item.(rank := rank, cellX := pagePos % gridCountX, cellY := pagePos / gridCountX);
      if pageNo >= |pages| {
        pages := pages + [[]];
      }
      if pageNo < |pages| {
        pages := pages[pageNo := pages[pageNo] + [placed]];
        ok := true;
      } else {
        ok := false;
      }
    }

    /**
     * `arrangeChildren(list, itemCount, saveChanges)`: slot i of the list
     * (null past its end) gets rank i and the cell of position i mod max on
     * page i / max; leftover pages are removed and, if any were, the current
     * page resets to 0. The views whose rank or cell changed are reported
     * for saving when saveChanges is set. `setupContentDimensions` only
     * records the allocated size.
     */
    method ArrangeChildren(list: seq<Option<FolderItem>>, itemCount: nat, saveChanges: bool)
      returns (saved: seq<FolderItem>)
      requires Valid()
      modifies this
      ensures Valid()
      ensures pages == Arranged(list, itemCount, gridCountX, maxItemsPerPage)
      ensures allocatedContentSize == itemCount
      ensures currentPage == if |old(pages)| > |pages| then 0 else old(currentPage)
      ensures saved == if saveChanges then Moved(list, itemCount, gridCountX, maxItemsPerPage) else []
    {
      var oldPageCount := |pages|;
      allocatedContentSize := itemCount;
      var m := maxItemsPerPage;
      var newPages: seq<seq<FolderItem>> := [];
      var position := 0;
      saved := [];
      var rank := 0;
      var i := 0;
      while i < itemCount
        invariant 0 <= i <= itemCount && rank == i
        invariant newPages == Arranged(list, i, gridCountX, m)
        invariant i == 0 ==> position == 0
        invariant i > 0 ==> position == (i - 1) % m + 1
        invariant saved == if saveChanges then Moved(list, i, gridCountX, m) else []
        invariant allocatedContentSize == itemCount && currentPage == old(currentPage)
      {
        newPages, saved, position := ArrangeSlot(list, i, gridCountX, m, saveChanges, newPages, saved, position);
        rank := rank + 1;
        i := i + 1;
      }
      pages := newPages;
      if oldPageCount > |newPages| {
        currentPage := 0;
      }
    }

    /**
     * `allocateSpaceForRank`: a null slot is inserted at `rank` into the
     * items in reading order and the whole list is re-arranged. A rank past
     * the end of the list throws (`ok` false, nothing changes).
     */
    method AllocateSpaceForRank(rank: nat) returns (ok: bool)
      requires Valid()
      modifies this
      ensures Valid()
      ensures var views := Present(ReadingOrder(old(pages), gridCountX, gridCountY));
        ok == (rank <= |views|) &&
        (ok ==> pages == Arranged(views[..rank] + [None] + views[rank..], |views| + 1, gridCountX, maxItemsPerPage)) &&
        (!ok ==> pages == old(pages) && currentPage == old(currentPage))
      ensures ok ==> allocatedContentSize == |Present(ReadingOrder(old(pages), gridCountX, gridCountY))| + 1
      ensures !ok ==> allocatedContentSize == old(allocatedContentSize)
    {
      var views := Present(ReadingOrder(pages, gridCountX, gridCountY));
      if rank > |views| {
        return false;
      }
      views := views[..rank] + [None] + views[rank..];
      var _ := ArrangeChildren(views, |views|, false);
      return true;
    }

    /**
     * `allocateRankForNewItem`: the new item's rank is the item count; a
     * null slot is opened at that rank in the reading order, everything is
     * re-arranged, and the current page becomes that rank's page. When the
     * count lies past the end of the reading order, `allocateSpaceForRank`
     * throws and nothing changes.
     */
    method AllocateRankForNewItem() returns (rank: int, ok: bool)
      requires Valid()
      modifies this
      ensures Valid()
      ensures rank == old(ItemCount()) && rank >= 0
      ensures var views := Present(ReadingOrder(old(pages), gridCountX, gridCountY));
        ok == (rank <= |views|) &&
        (ok ==> pages == Arranged(views[..rank] + [None] + views[rank..], |views| + 1, gridCountX, maxItemsPerPage) &&
                allocatedContentSize == |views| + 1 &&
                currentPage == rank / maxItemsPerPage) &&
        (!ok ==> pages == old(pages) && currentPage == old(currentPage) &&
                 allocatedContentSize == old(allocatedContentSize))
    {
      rank := ItemCount();
      ok := AllocateSpaceForRank(rank);
      if ok {
        currentPage := rank / maxItemsPerPage;
      }
    }

    /**
     * `realTimeReorder(empty, target)`: nothing happens when the empty cell
     * is already the target or the animation range is empty; otherwise the
     * views at ranks 0..getItemCount()+dragCellCount-1 receive their
     * reordered ranks.
     */
    method RealTimeReorder(empty: nat, target: nat, dragCellCount: nat) returns (views: seq<Option<FolderItem>>)
      requires Valid()
      ensures !ReorderProceeds(empty, target, maxItemsPerPage, currentPage) ==> views == []
      ensures ReorderProceeds(empty, target, maxItemsPerPage, currentPage) ==>
        |views| == Max(ItemCount() + dragCellCount, 0) &&
        forall i :: 0 <= i < |views| ==>
          views[i] == match ChildByRank(pages, i, gridCountX, maxItemsPerPage)
            case None => None
            case Some(v) => Some(v.(rank := ReorderedRank(i, empty, target, dragCellCount)))
    {
      if !ReorderProceeds(empty, target, maxItemsPerPage, currentPage) {
        return [];
      }
      var maxItemCount := ItemCount() + dragCellCount;
      var viewList: seq<Option<FolderItem>> := [];
      var i := 0;
      while i < maxItemCount
        invariant 0 <= i <= Max(maxItemCount, 0) && |viewList| == i
        invariant forall k :: 0 <= k < i ==> viewList[k] == ChildByRank(pages, k, gridCountX, maxItemsPerPage)
      {
        viewList := viewList + [ChildByRank(pages, i, gridCountX, maxItemsPerPage)];
        i := i + 1;
      }
      views := ReorderRanks(viewList, empty, target, dragCellCount);
    }
  }
}
