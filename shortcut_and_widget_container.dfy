/**
 * The cell container of a CellLayout page (workspace, hotseat or folder
 * page): looking a child up by cell, counting occupied columns to the left
 * of a cell, and closing the gaps between hotseat icons.
 *
 * A child is represented by its CellLayout layout parameters (cell and
 * span) and its visibility; the View itself is not modelled.
 */
module ShortcutAndWidgetContainer {
  import opened Common

  /** The hotseat holds at most five icons. */
  const MAX_COUNT_HOTSEAT: nat := 5

  /** CellLayout's container types. */
  datatype ContainerType = Workspace | Hotseat | FolderPage

  /** A child's layout parameters: its cell and span, and whether it is GONE. */
  datatype Child = Child(cellX: int, cellY: int, hSpan: int, vSpan: int, gone: bool)

  /** The child's span rectangle [cellX, cellX+hSpan) x [cellY, cellY+vSpan) contains (x, y). */
  predicate Covers(c: Child, x: int, y: int)
  {
    c.cellX <= x < c.cellX + c.hSpan && c.cellY <= y < c.cellY + c.vSpan
  }

  /**
   * The index of the first child whose span contains (x, y), or -1 for
   * null (the specification of `getChildAt(x, y)`).
   */
  function ChildAt(cs: seq<Child>, x: int, y: int): (r: int)
    ensures -1 <= r < |cs|
    ensures r >= 0 ==> Covers(cs[r], x, y)
    ensures r >= 0 ==> forall j {:trigger Covers(cs[j], x, y)} :: 0 <= j < r ==> !Covers(cs[j], x, y)
    ensures r == -1 <==> forall j {:trigger Covers(cs[j], x, y)} :: 0 <= j < |cs| ==> !Covers(cs[j], x, y)
    decreases |cs|
  {
    if |cs| == 0 then -1
    else if Covers(cs[0], x, y) then 0
    else
      var k := ChildAt(cs[1..], x, y);
      assert forall j :: 1 <= j < |cs| ==> cs[j] == cs[1..][j - 1];
      if k == -1 then -1 else k + 1
  }

  /** The number of columns i in [0, cellX) that have a child at (i, cellY). */
  function ColumnIndex(cs: seq<Child>, cellX: int, cellY: int): (n: nat)
    ensures n <= if cellX <= 0 then 0 else cellX
    decreases if cellX <= 0 then 0 else cellX
  {
    if cellX <= 0 then 0
    else ColumnIndex(cs, cellX - 1, cellY) + (if ChildAt(cs, cellX - 1, cellY) != -1 then 1 else 0)
  }

  /** The first n children, each with its cellX replaced by its row-0 column index in `all`. */
  function CompactedPrefix(all: seq<Child>, n: nat): (r: seq<Child>)
    requires n <= |all|
    ensures |r| == n
  {
    if n == 0 then []
    else CompactedPrefix(all, n - 1) + [all[n - 1].(cellX := ColumnIndex(all, all[n - 1].cellX, 0))]
  }

  /** The children after every cellX is replaced by its row-0 column index. */
  function Compacted(cs: seq<Child>): (r: seq<Child>)
  {
    CompactedPrefix(cs, |cs|)
  }

  lemma {:induction false} CompactedPrefixAt(all: seq<Child>, n: nat, k: nat)
    requires k < n <= |all|
    ensures CompactedPrefix(all, n)[k] == all[k].(cellX := ColumnIndex(all, all[k].cellX, 0))
  {
    if k < n - 1 {
      CompactedPrefixAt(all, n - 1, k);
    }
  }

  /**
   * The columns used by the hotseat re-layout pass: present only for a
   * hotseat holding between one and MAX_COUNT_HOTSEAT children, and then
   * the row-0 column index of every child that is not GONE (-1 for a GONE
   * child, which the pass skips).
   */
  function HotseatLayoutColumns(t: ContainerType, cs: seq<Child>): (r: Option<seq<int>>)
    ensures r.Some? <==> t == Hotseat && 0 < |cs| <= MAX_COUNT_HOTSEAT
    ensures r.Some? ==> |r.value| == |cs| && forall i :: 0 <= i < |cs| ==>
      (cs[i].gone ==> r.value[i] == -1) &&
      (!cs[i].gone ==> 0 <= r.value[i] <= Max(cs[i].cellX, 0))
    ensures r.Some? ==> forall i :: 0 <= i < |cs| && !cs[i].gone ==> r.value[i] == ColumnIndex(cs, cs[i].cellX, 0)
  {
    if t == Hotseat && 0 < |cs| <= MAX_COUNT_HOTSEAT then
      Some(seq(|cs|, i requires 0 <= i < |cs| =>
        if cs[i].gone then -1 else ColumnIndex(cs, cs[i].cellX, 0)))
    else None
  }

  /** All children are single cells on row 0 at pairwise different columns. */
  predicate SingleCellRow(cs: seq<Child>)
  {
    (forall i :: 0 <= i < |cs| ==> cs[i].cellY == 0 && cs[i].hSpan == 1 && cs[i].vSpan == 1) &&
    (forall i, j :: 0 <= i < j < |cs| ==> cs[i].cellX != cs[j].cellX)
  }

  /** The number of children whose column is left of `x`. */
  function CountLeftOf(cs: seq<Child>, x: int): (n: nat)
    ensures n <= |cs|
  {
    if |cs| == 0 then 0
    else CountLeftOf(cs[..|cs| - 1], x) + (if cs[|cs| - 1].cellX < x then 1 else 0)
  }

  lemma {:induction false} CountLeftOfMono(cs: seq<Child>, x: int, y: int)
    requires x <= y
    ensures CountLeftOf(cs, x) <= CountLeftOf(cs, y)
    decreases |cs|
  {
    if |cs| > 0 { CountLeftOfMono(cs[..|cs| - 1], x, y); }
  }

  /** Appending one more column to the scan adds one exactly when that column holds a child. */
  lemma {:induction false} CountLeftOfStep(cs: seq<Child>, x: int)
    requires SingleCellRow(cs)
    ensures CountLeftOf(cs, x + 1) == CountLeftOf(cs, x) + (if ChildAt(cs, x, 0) != -1 then 1 else 0)
    decreases |cs|
  {
    if |cs| > 0 {
      var init := cs[..|cs| - 1];
      assert SingleCellRow(init) by {
        assert forall i :: 0 <= i < |init| ==> init[i] == cs[i];
      }
      CountLeftOfStep(init, x);
      var last := cs[|cs| - 1];
      if last.cellX == x {
        assert Covers(cs[|cs| - 1], x, 0);
        assert ChildAt(cs, x, 0) != -1;
        assert forall i :: 0 <= i < |init| ==> init[i].cellX != x;
        assert ChildAt(init, x, 0) == -1;
      } else {
        assert !Covers(last, x, 0);
        assert (ChildAt(cs, x, 0) != -1) == (ChildAt(init, x, 0) != -1) by {
          if ChildAt(init, x, 0) != -1 {
            var k := ChildAt(init, x, 0);
            assert Covers(cs[k], x, 0);
          }
          if ChildAt(cs, x, 0) != -1 {
            var k := ChildAt(cs, x, 0);
            assert k < |init| && init[k] == cs[k];
          }
        }
      }
    }
  }

  /**
   * For single-cell children on row 0, the column index of column x is the
   * number of children standing left of x.
   */
  lemma {:induction false} ColumnIndexCountsLeft(cs: seq<Child>, x: nat)
    requires SingleCellRow(cs)
    requires forall i :: 0 <= i < |cs| ==> cs[i].cellX >= 0
    ensures ColumnIndex(cs, x, 0) == CountLeftOf(cs, x)
  {
    var y := 0;
    CountLeftOfZero(cs, 0);
    while y < x
      invariant 0 <= y <= x
      invariant ColumnIndex(cs, y, 0) == CountLeftOf(cs, y)
    {
      CountLeftOfStep(cs, y);
      y := y + 1;
    }
  }

  lemma {:induction false} CountLeftOfZero(cs: seq<Child>, x: int)
    requires x <= 0
    requires forall i :: 0 <= i < |cs| ==> cs[i].cellX >= 0
    ensures CountLeftOf(cs, x) == 0
    decreases |cs|
  {
    if |cs| > 0 { CountLeftOfZero(cs[..|cs| - 1], x); }
  }

  /** A child standing in [x, y) is counted left of y but not left of x. */
  lemma {:induction false} CountLeftOfStrict(cs: seq<Child>, i: nat, x: int, y: int)
    requires i < |cs| && x <= cs[i].cellX < y
    ensures CountLeftOf(cs, x) < CountLeftOf(cs, y)
    decreases |cs|
  {
    var n := |cs| - 1;
    if i == n {
      CountLeftOfMono(cs[..n], x, y);
    } else {
      CountLeftOfStrict(cs[..n], i, x, y);
    }
  }

  lemma {:induction false} CountLeftOfBelow(cs: seq<Child>, i: nat)
    requires i < |cs|
    ensures CountLeftOf(cs, cs[i].cellX) < |cs|
    decreases |cs|
  {
    var n := |cs| - 1;
    if i < n {
      CountLeftOfBelow(cs[..n], i);
    }
  }

  /**
   * Closing the hotseat gaps: for single-cell children on row 0 the new
   * columns are below the child count and keep the children's left-to-right
   * order in both directions.
   */
  lemma CompactedKeepsOrder(cs: seq<Child>)
    requires SingleCellRow(cs)
    requires forall i :: 0 <= i < |cs| ==> cs[i].cellX >= 0
    ensures |Compacted(cs)| == |cs|
    ensures forall i :: 0 <= i < |cs| ==> 0 <= Compacted(cs)[i].cellX < |cs|
    ensures forall i, j :: 0 <= i < |cs| && 0 <= j < |cs| ==>
      (cs[i].cellX < cs[j].cellX <==> Compacted(cs)[i].cellX < Compacted(cs)[j].cellX)
  {
    var r := Compacted(cs);
    forall i | 0 <= i < |cs|
      ensures r[i].cellX == CountLeftOf(cs, cs[i].cellX) < |cs|
    {
      CompactedPrefixAt(cs, |cs|, i);
      ColumnIndexCountsLeft(cs, cs[i].cellX);
      CountLeftOfBelow(cs, i);
    }
    forall i, j | 0 <= i < |cs| && 0 <= j < |cs|
      ensures cs[i].cellX < cs[j].cellX <==> r[i].cellX < r[j].cellX
    {
      if cs[i].cellX < cs[j].cellX {
        CountLeftOfStrict(cs, i, cs[i].cellX, cs[j].cellX);
      } else {
        CountLeftOfMono(cs, cs[j].cellX, cs[i].cellX);
      }
    }
  }

  /** One ShortcutAndWidgetContainer: its type and its children in child order. */
  class Container {
    const containerType: ContainerType
    var children: seq<Child>

    constructor (t: ContainerType, cs: seq<Child>)
      ensures containerType == t && children == cs
    {
      containerType := t;
      children := cs;
    }

    predicate IsHotseat() { containerType == Hotseat }

    predicate IsDesktop() { containerType == Workspace }

    /** `getChildAt(x, y)`: the first child whose span contains the cell, or -1. */
    method GetChildAt(x: int, y: int) returns (r: int)
      ensures r == ChildAt(children, x, y)
    {
      var i := 0;
      while i < |children|
        invariant 0 <= i <= |children|
        invariant forall j :: 0 <= j < i ==> !Covers(children[j], x, y)
      {
        var c := children[i];
        if Covers(c, x, y) {
          return i;
        }
        i := i + 1;
      }
      return -1;
    }

    /** `getColumnIndex(cellX, cellY)`: occupied columns left of cellX on row cellY. */
    method GetColumnIndex(cellX: int, cellY: int) returns (count: int)
      ensures count == ColumnIndex(children, cellX, cellY)
      ensures 0 <= count <= Max(cellX, 0)
    {
      count := 0;
      var i := 0;
      while i < cellX
        invariant 0 <= i <= Max(cellX, 0)
        invariant count == ColumnIndex(children, i, cellY)
      {
        var c := GetChildAt(i, cellY);
        if c != -1 {
          count := count + 1;
        }
        i := i + 1;
      }
      if cellX <= 0 {
        assert ColumnIndex(children, cellX, cellY) == 0 == ColumnIndex(children, i, cellY);
      } else {
        assert i == cellX;
      }
    }

    /**
     * `removeEmptySpaceOnHotSeat`: nothing changes unless this is the
     * hotseat; otherwise every child's row-0 column index is computed first
     * and only then written into its cellX.
     */
    method RemoveEmptySpaceOnHotSeat()
      modifies this
      ensures children == if IsHotseat() then Compacted(old(children)) else old(children)
    {
      if !IsHotseat() {
        return;
      }
      var cs := children;
      var childCount := |cs|;
      var columnIndexArr := new int[childCount];
      var i := 0;
      while i < childCount
        invariant 0 <= i <= childCount
        invariant children == cs
        invariant forall k {:trigger columnIndexArr[k]} :: 0 <= k < i ==> columnIndexArr[k] == ColumnIndex(cs, cs[k].cellX, 0)
      {
        columnIndexArr[i] := GetColumnIndex(cs[i].cellX, 0);
        i := i + 1;
      }
      var result := [];
      i := 0;
      while i < childCount
        invariant 0 <= i <= childCount
        invariant result == CompactedPrefix(cs, i)
      {
        result := result + [cs[i].(cellX := columnIndexArr[i])];
        i := i + 1;
      }
      children := result;
    }
  }
}
