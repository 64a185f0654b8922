/**
 * The quick-access row of the assistant page: up to five shortcuts that the
 * user reorders by dragging. A rank array records, slot by slot, which
 * shortcut the slot shows while a drag is in progress; the drop rewrites the
 * shortcut list in that order.
 */
module AssistDisplayShortcuts {
  import opened Common
  import opened AppModel

  /** The row size and the fewest shortcuts the row keeps (AssistQuickAccess). */
  const SHORTCUTS_PER_ROW: nat := 5
  const SHORTCUTS_MIN_COUNT: nat := 1

  /** A view's area, Android's `Rect`. */
  datatype Rect = Rect(left: int, top: int, right: int, bottom: int)

  predicate WellFormed(r: Rect)
  {
    r.left <= r.right && r.top <= r.bottom
  }

  predicate HasPoint(r: Rect, x: int, y: int)
  {
    r.left <= x <= r.right && r.top <= y <= r.bottom
  }

  /** `haveCommonArea`: the four early exits of the source. */
  function HaveCommonArea(first: Rect, second: Rect): bool
  {
    if first.right < second.left then false
    else if first.left > second.right then false
    else if first.bottom < second.top then false
    else if first.top > second.bottom then false
    else true
  }

  /** Two well-formed rectangles have a common area exactly when they share a point; the test is symmetric. */
  lemma CommonAreaIsSharedPoint(a: Rect, b: Rect)
    requires WellFormed(a) && WellFormed(b)
    ensures HaveCommonArea(a, b) <==> exists x, y :: HasPoint(a, x, y) && HasPoint(b, x, y)
    ensures HaveCommonArea(a, b) == HaveCommonArea(b, a)
  {
    if HaveCommonArea(a, b) {
      var x := Max(a.left, b.left);
      var y := Max(a.top, b.top);
      assert HasPoint(a, x, y) && HasPoint(b, x, y);
    }
  }

  /**
   * `commonHorizontalDistance`: how far the right edge of `first` reaches
   * into `second`, else how far `second` reaches past the left edge of
   * `first`, else 0.
   */
  function CommonHorizontalDistance(first: Rect, second: Rect): (d: int)
    ensures 0 <= d
    ensures d > 0 ==> d <= second.right - second.left
  {
    if first.right >= second.left && first.right <= second.right then first.right - second.left
    else if first.left >= second.left && first.left <= second.right then second.right - first.left
    else 0
  }

  /** For rectangles of equal width that meet horizontally, the distance is the width of their overlap. */
  lemma DistanceIsOverlap(first: Rect, second: Rect)
    requires first.right - first.left == second.right - second.left >= 0
    requires first.right >= second.left && first.left <= second.right
    ensures CommonHorizontalDistance(first, second)
      == Min(first.right, second.right) - Max(first.left, second.left)
  {
  }

  /** The dragged view's area: the empty cell's area moved by the touch's travel. */
  function Translate(r: Rect, dx: int, dy: int): Rect
  {
    Rect(r.left + dx, r.top + dy, r.right + dx, r.bottom + dy)
  }

  /** The slots below `n` whose area meets the dragged view, in increasing order. */
  function Overlapping(areas: seq<Rect>, n: nat, drag: Rect): (f: seq<int>)
    requires n <= |areas|
    ensures forall k :: 0 <= k < |f| ==> 0 <= f[k] < n
  {
    if n == 0 then []
    else Overlapping(areas, n - 1, drag) + (if HaveCommonArea(drag, areas[n - 1]) then [n - 1] else [])
  }

  /** The collected slots are exactly the overlapping ones below `n`, each once, in increasing order. */
  lemma {:induction false} OverlappingSpec(areas: seq<Rect>, n: nat, drag: Rect)
    requires n <= |areas|
    ensures forall k :: 0 <= k < |Overlapping(areas, n, drag)| ==>
      HaveCommonArea(drag, areas[Overlapping(areas, n, drag)[k]])
    ensures forall i :: 0 <= i < n && HaveCommonArea(drag, areas[i]) ==> i in Overlapping(areas, n, drag)
    ensures forall k, l :: 0 <= k < l < |Overlapping(areas, n, drag)| ==>
      Overlapping(areas, n, drag)[k] < Overlapping(areas, n, drag)[l]
  {
    if n > 0 {
      OverlappingSpec(areas, n - 1, drag);
    }
  }

  /**
   * `findNearestCell`: -1 when no slot meets the dragged view, the only one
   * when one does, otherwise the first two compared by horizontal common
   * distance, a tie going to the second.
   */
  function NearestCell(areas: seq<Rect>, n: nat, drag: Rect): int
    requires n <= |areas|
  {
    var f := Overlapping(areas, n, drag);
    if |f| == 0 then -1
    else if |f| == 1 then f[0]
    else if CommonHorizontalDistance(areas[f[0]], drag) > CommonHorizontalDistance(areas[f[1]], drag) then f[0]
    else f[1]
  }

  /** No slot is found exactly when none meets the dragged view; a found slot is one that meets it. */
  lemma NearestCellSpec(areas: seq<Rect>, n: nat, drag: Rect)
    requires n <= |areas|
    ensures NearestCell(areas, n, drag) == -1 <==> forall i :: 0 <= i < n ==> !HaveCommonArea(drag, areas[i])
    ensures NearestCell(areas, n, drag) != -1 ==>
      0 <= NearestCell(areas, n, drag) < n && HaveCommonArea(drag, areas[NearestCell(areas, n, drag)])
  {
    OverlappingSpec(areas, n, drag);
    var f := Overlapping(areas, n, drag);
    if |f| > 0 {
      assert HaveCommonArea(drag, areas[f[0]]);
      if |f| > 1 {
        assert HaveCommonArea(drag, areas[f[1]]);
      }
    }
  }

  /** When exactly one slot meets the dragged view, that slot is the nearest. */
  lemma NearestCellSole(areas: seq<Rect>, n: nat, drag: Rect, i: nat)
    requires i < n <= |areas| && HaveCommonArea(drag, areas[i])
    requires forall j :: 0 <= j < n && j != i ==> !HaveCommonArea(drag, areas[j])
    ensures NearestCell(areas, n, drag) == i
  {
    OverlappingSpec(areas, n, drag);
    var f := Overlapping(areas, n, drag);
    assert i in f;
  }

  /** The collecting loop of `findNearestCell`. */
  method FindNearestCell(areas: seq<Rect>, n: nat, drag: Rect) returns (r: int)
    requires n <= |areas|
    ensures r == NearestCell(areas, n, drag) && -1 <= r < n
  {
    NearestCellSpec(areas, n, drag);
    var found: seq<int> := [];
    var i := 0;
    while i < n
      invariant 0 <= i <= n
      invariant found == Overlapping(areas, i, drag)
    {
      if HaveCommonArea(drag, areas[i]) {
        found := found + [i];
      }
      i := i + 1;
    }
    if |found| == 0 {
      return -1;
    }
    if |found| == 1 {
      return found[0];
    }
    var firstIndex := found[0];
    var secondIndex := found[1];
    if CommonHorizontalDistance(areas[firstIndex], drag) > CommonHorizontalDistance(areas[secondIndex], drag) {
      return firstIndex;
    }
    return secondIndex;
  }

  /** `findInArray`: the first index holding the value, or -1. */
  method FindInArray(value: int, a: array<int>) returns (r: int)
    ensures r == IndexOf(a[..], value)
  {
    var i := 0;
    while i < a.Length
      invariant 0 <= i <= a.Length
      invariant forall k :: 0 <= k < i ==> a[k] != value
    {
      if a[i] == value {
        assert value in a[..];
        return i;
      }
      i := i + 1;
    }
    assert value !in a[..];
    return -1;
  }

  /** The rank array with the entry of slot `e` taken out and put back at slot `n`: the reference for `refreshRank`. */
  function Moved(rank: seq<int>, e: nat, n: nat): seq<int>
    requires e < |rank| && n < |rank|
  {
    var without := RemoveAt(rank, e);
    without[..n] + [rank[e]] + without[n..]
  }

  /** Slot `i` of a move, as the loops of `refreshRank` fill it. */
  function MovedAt(rank: seq<int>, e: nat, n: nat, i: nat): int
    requires e < |rank| && n < |rank| && i < |rank|
  {
    if i < n then (if i < e then rank[i] else rank[i + 1])
    else if i == n then rank[e]
    else (if i - 1 < e then rank[i - 1] else rank[i])
  }

  lemma MovedIndex(rank: seq<int>, e: nat, n: nat, i: nat)
    requires e < |rank| && n < |rank| && i < |rank|
    ensures |Moved(rank, e, n)| == |rank| && Moved(rank, e, n)[i] == MovedAt(rank, e, n, i)
  {
    var w := RemoveAt(rank, e);
    var m := w[..n] + [rank[e]] + w[n..];
    if i < n {
      assert m[i] == w[i];
    } else if i > n {
      assert m[i] == w[i - 1];
    }
  }

  /** A move is a permutation of the rank array. */
  lemma MovedPermutes(rank: seq<int>, e: nat, n: nat)
    requires e < |rank| && n < |rank|
    ensures multiset(Moved(rank, e, n)) == multiset(rank)
  {
    var w := RemoveAt(rank, e);
    RemoveAtMultiset(rank, e);
    assert w == w[..n] + w[n..];
    calc {
      multiset(Moved(rank, e, n));
      multiset(w[..n]) + multiset{rank[e]} + multiset(w[n..]);
      multiset(w) + multiset{rank[e]};
    }
  }

  /**
   * A move is a permutation: the moved entry lands at `n`, the entries
   * between shift one slot toward `e`, the others stay.
   */
  lemma MovedShape(rank: seq<int>, e: nat, n: nat)
    requires e < |rank| && n < |rank|
    ensures |Moved(rank, e, n)| == |rank| && multiset(Moved(rank, e, n)) == multiset(rank)
    ensures Moved(rank, e, n)[n] == rank[e]
    ensures forall i :: 0 <= i < |rank| && i < Min(e, n) ==> Moved(rank, e, n)[i] == rank[i]
    ensures forall i :: Max(e, n) < i < |rank| ==> Moved(rank, e, n)[i] == rank[i]
    ensures n < e ==> forall i :: n < i <= e ==> Moved(rank, e, n)[i] == rank[i - 1]
    ensures e < n ==> forall i :: e <= i < n ==> Moved(rank, e, n)[i] == rank[i + 1]
  {
    MovedPermutes(rank, e, n);
    forall i | 0 <= i < |rank|
      ensures Moved(rank, e, n)[i] == MovedAt(rank, e, n, i)
    {
      MovedIndex(rank, e, n, i);
    }
  }

  /** A move inside the first `c` slots leaves the rest of the array alone. */
  lemma MovedPrefix(rank: seq<int>, c: nat, e: nat, n: nat)
    requires e < c && n < c && c <= |rank|
    ensures Moved(rank, e, n) == Moved(rank[..c], e, n) + rank[c..]
  {
    var w := rank[..e] + rank[e + 1..];
    var w' := rank[..c][..e] + rank[..c][e + 1..];
    assert w == w' + rank[c..];
    assert w[..n] == w'[..n];
    assert w[n..] == w'[n..] + rank[c..];
  }

  /** `rank`'s first `c` slots hold a permutation of 0 .. c-1 and every later slot holds its own index. */
  ghost predicate RankOk(rank: seq<int>, c: nat)
  {
    c <= |rank| == SHORTCUTS_PER_ROW
    && multiset(rank[..c]) == multiset(Range(0, c))
    && forall k :: c <= k < |rank| ==> rank[k] == k
  }

  /** The slots of the row, each once: what the rank array always holds. */
  const ROW_SLOTS: multiset<int> := multiset{0, 1, 2, 3, 4}

  /** The rank array of a row nobody has dragged in: each slot shows its own shortcut. */
  const IDENTITY_RANKS: seq<int> := [0, 1, 2, 3, 4]

  lemma IdentityRanks()
    ensures multiset(IDENTITY_RANKS) == ROW_SLOTS
  {
  }

  lemma RangeMembers(lo: int, hi: int, x: int)
    ensures x in multiset(Range(lo, hi)) <==> lo <= x < hi
  {
    if lo <= x < hi {
      assert Range(lo, hi)[x - lo] == x;
    }
  }

  /** The identity rank array fits any shortcut count of the row. */
  lemma IdentityRankOk(c: nat)
    requires c <= SHORTCUTS_PER_ROW
    ensures RankOk(IDENTITY_RANKS, c)
  {
    assert IDENTITY_RANKS[..c] == Range(0, c) by {
      var r := Range(0, c);
      assert |r| == c && forall k :: 0 <= k < c ==> r[k] == k;
    }
    assert forall k :: c <= k < |IDENTITY_RANKS| ==> IDENTITY_RANKS[k] == k;
  }

  /** A move between two of the first `c` slots keeps the rank array fitting `c` shortcuts. */
  lemma MovePreservesRankOk(rank: seq<int>, c: nat, e: nat, n: nat)
    requires RankOk(rank, c) && e < c && n < c
    ensures RankOk(Moved(rank, e, n), c)
  {
    MovedPrefix(rank, c, e, n);
    MovedShape(rank[..c], e, n);
    assert Moved(rank, e, n)[..c] == Moved(rank[..c], e, n);
  }

  /** `s` read through the index list `p`. */
  function Reindex<T>(s: seq<T>, p: seq<int>): (r: seq<T>)
    requires forall k :: 0 <= k < |p| ==> 0 <= p[k] < |s|
    ensures |r| == |p| && forall k :: 0 <= k < |p| ==> r[k] == s[p[k]]
  {
    seq(|p|, k requires 0 <= k < |p| => s[p[k]])
  }

  lemma RangeSnoc(n: nat)
    ensures multiset(Range(0, n + 1)) == multiset(Range(0, n)) + multiset{n}
  {
    assert Range(0, n + 1) == Range(0, n) + [n];
  }

  lemma MultisetCancel(a: multiset<int>, b: multiset<int>, x: int)
    requires a + multiset{x} == b + multiset{x}
    ensures a == b
  {
    assert forall y :: a[y] == (a + multiset{x})[y] - multiset{x}[y];
    assert forall y :: b[y] == (b + multiset{x})[y] - multiset{x}[y];
  }

  /** Reading through `p` splits around the slot `j` that names the last element. */
  lemma ReindexSplit<T>(s: seq<T>, p: seq<int>, j: nat)
    requires |s| > 0 && j < |p| && p[j] == |s| - 1
    requires forall k :: 0 <= k < |p| ==> 0 <= p[k] < |s|
    requires forall k :: 0 <= k < |p| - 1 ==> 0 <= RemoveAt(p, j)[k] < |s| - 1
    ensures Reindex(s, p) == Reindex(s[..|s| - 1], RemoveAt(p, j))[..j] + [s[|s| - 1]]
      + Reindex(s[..|s| - 1], RemoveAt(p, j))[j..]
  {
    var r' := Reindex(s[..|s| - 1], RemoveAt(p, j));
    var rhs := r'[..j] + [s[|s| - 1]] + r'[j..];
    forall k | 0 <= k < |p|
      ensures Reindex(s, p)[k] == rhs[k]
    {
      if k < j {
        assert rhs[k] == r'[k];
      } else if k > j {
        assert rhs[k] == r'[k - 1];
      }
    }
  }

  /** The entries of a permutation of `0 .. n - 1` lie in that range. */
  lemma PermutationBounds(p: seq<int>, n: nat)
    requires multiset(p) == multiset(Range(0, n))
    ensures forall k :: 0 <= k < |p| ==> 0 <= p[k] < n
  {
    forall k | 0 <= k < |p|
      ensures 0 <= p[k] < n
    {
      assert p[k] in multiset(p);
      RangeMembers(0, n, p[k]);
    }
  }

  /** Taking the last index out of a permutation of `0 .. n` leaves a permutation of `0 .. n - 1`. */
  lemma PermutationDropLast(p: seq<int>, n: nat) returns (j: nat)
    requires multiset(p) == multiset(Range(0, n + 1))
    ensures j < |p| && p[j] == n
    ensures multiset(RemoveAt(p, j)) == multiset(Range(0, n))
  {
    RangeMembers(0, n + 1, n);
    assert n in multiset(p);
    var i := IndexOf(p, n);
    j := i;
    RemoveAtMultiset(p, j);
    RangeSnoc(n);
    MultisetCancel(multiset(RemoveAt(p, j)), multiset(Range(0, n)), n);
  }

  /** The step of the induction: the last element joins the permuted rest. */
  lemma ReindexStep<T>(s: seq<T>, p: seq<int>, j: nat)
    requires |s| > 0 && j < |p| && p[j] == |s| - 1
    requires forall k :: 0 <= k < |p| ==> 0 <= p[k] < |s|
    requires forall k :: 0 <= k < |p| - 1 ==> 0 <= RemoveAt(p, j)[k] < |s| - 1
    requires multiset(Reindex(s[..|s| - 1], RemoveAt(p, j))) == multiset(s[..|s| - 1])
    ensures multiset(Reindex(s, p)) == multiset(s)
  {
    var n := |s| - 1;
    ReindexSplit(s, p, j);
    var r' := Reindex(s[..n], RemoveAt(p, j));
    assert r' == r'[..j] + r'[j..];
    assert s == s[..n] + [s[n]];
    calc {
      multiset(Reindex(s, p));
      multiset(r'[..j]) + multiset{s[n]} + multiset(r'[j..]);
      multiset(r') + multiset{s[n]};
      multiset(s[..n]) + multiset{s[n]};
    }
  }

  /** Reading a list through a permutation of its indices permutes it. */
  lemma {:induction false} ReindexPermutes<T>(s: seq<T>, p: seq<int>)
    requires |p| == |s| && multiset(p) == multiset(Range(0, |s|))
    ensures forall k :: 0 <= k < |p| ==> 0 <= p[k] < |s|
    ensures multiset(Reindex(s, p)) == multiset(s)
    decreases |s|
  {
    PermutationBounds(p, |s|);
    if |s| > 0 {
      var n := |s| - 1;
      var j := PermutationDropLast(p, n);
      var p' := RemoveAt(p, j);
      ReindexPermutes(s[..n], p');
      ReindexStep(s, p, j);
    }
  }

  /** Under a fitting rank array, the drop's rewrite finds every index and permutes the shortcuts. */
  lemma EndActionPermutes(s: seq<ShortcutInfo>, rank: seq<int>)
    requires RankOk(rank, |s|)
    ensures forall k :: 0 <= k < |s| ==> 0 <= rank[k] < |s|
    ensures multiset(Reindex(s, rank[..|s|])) == multiset(s)
  {
    var p := rank[..|s|];
    assert |p| == |s| && multiset(p) == multiset(Range(0, |s|));
    ReindexPermutes(s, p);
    assert forall k :: 0 <= k < |s| ==> rank[k] == p[k];
  }

  /** The ranks and empty cell after the drag settles on `found` (-1: no slot). */
  ghost predicate Settled(rank: seq<int>, e: int, found: int, rank': seq<int>, e': int)
  {
    if found != -1 && found != e && 0 <= e < |rank| && 0 <= found < |rank|
    then e' == found && rank' == Moved(rank, e, found)
    else e' == e && rank' == rank
  }

  /** Settling a drag keeps a rank array that fits `c` shortcuts fitting when the empty cell is one of them. */
  lemma SettledPreservesRankOk(rank: seq<int>, e: int, found: int, rank': seq<int>, e': int, c: nat)
    requires RankOk(rank, c) && 0 <= e < c && -1 <= found < c
    requires Settled(rank, e, found, rank', e')
    ensures RankOk(rank', c) && 0 <= e' < c
  {
    if found != -1 && found != e {
      MovePreservesRankOk(rank, c, e, found);
    }
  }

  /** The `newEmptyCell < mEmptyCell` branch of `refreshRank`. */
  method FillTowardEnd(rank: seq<int>, e: nat, n: nat, result: array<int>)
    requires n < e < |rank| == result.Length
    modifies result
    ensures forall k :: 0 <= k < |rank| ==> result[k] == MovedAt(rank, e, n, k)
  {
    var i := 0;
    while i < n
      invariant 0 <= i <= n
      invariant forall k :: 0 <= k < i ==> result[k] == rank[k]
    {
      result[i] := rank[i];
      i := i + 1;
    }
    i := e + 1;
    while i < |rank|
      invariant e + 1 <= i <= |rank|
      invariant forall k :: 0 <= k < n ==> result[k] == rank[k]
      invariant forall k :: e + 1 <= k < i ==> result[k] == rank[k]
    {
      result[i] := rank[i];
      i := i + 1;
    }
    result[n] := rank[e];
    i := n;
    while i < e
      invariant n <= i <= e
      invariant forall k :: 0 <= k < n ==> result[k] == rank[k]
      invariant forall k :: e + 1 <= k < |rank| ==> result[k] == rank[k]
      invariant result[n] == rank[e]
      invariant forall k :: n + 1 <= k < i + 1 ==> result[k] == rank[k - 1]
    {
      result[i + 1] := rank[i];
      i := i + 1;
    }
  }

  /** The other branch of `refreshRank`, `newEmptyCell >= mEmptyCell`. */
  method FillTowardStart(rank: seq<int>, e: nat, n: nat, result: array<int>)
    requires e <= n < |rank| == result.Length
    modifies result
    ensures forall k :: 0 <= k < |rank| ==> result[k] == MovedAt(rank, e, n, k)
  {
    var i := 0;
    while i < e
      invariant 0 <= i <= e
      invariant forall k :: 0 <= k < i ==> result[k] == rank[k]
    {
      result[i] := rank[i];
      i := i + 1;
    }
    i := n + 1;
    while i < |rank|
      invariant n + 1 <= i <= |rank|
      invariant forall k :: 0 <= k < e ==> result[k] == rank[k]
      invariant forall k :: n + 1 <= k < i ==> result[k] == rank[k]
    {
      result[i] := rank[i];
      i := i + 1;
    }
    result[n] := rank[e];
    i := n;
    while i > e
      invariant e <= i <= n
      invariant forall k :: 0 <= k < e ==> result[k] == rank[k]
      invariant forall k :: n + 1 <= k < |rank| ==> result[k] == rank[k]
      invariant result[n] == rank[e]
      invariant forall k :: i <= k < n ==> result[k] == rank[k + 1]
    {
      result[i - 1] := rank[i];
      i := i - 1;
    }
  }


  /** The closing loop of `doEndAction`: every slot shows its own shortcut again. */
  method ResetRanks(rank: array<int>)
    requires rank.Length == SHORTCUTS_PER_ROW
    modifies rank
    ensures rank[..] == IDENTITY_RANKS
  {
    var i := 0;
    while i < SHORTCUTS_PER_ROW
      invariant 0 <= i <= SHORTCUTS_PER_ROW
      invariant forall k :: 0 <= k < i ==> rank[k] == k
    {
      rank[i] := i;
      i := i + 1;
    }
    assert rank[..] == IDENTITY_RANKS;
  }

  class DisplayShortcutsView {
    var shortcuts: seq<ShortcutInfo>
    var rankArr: array<int>
    var emptyCell: int
    var emptyCellRect: Rect
    var dragStarted: bool
    var downX: int
    var downY: int
    var currentX: int
    var currentY: int

    ghost predicate Valid()
      reads this, rankArr
    {
      rankArr.Length == SHORTCUTS_PER_ROW && multiset(rankArr[..]) == ROW_SLOTS
    }

    /** An empty row, no drag, and the identity rank array. */
    constructor ()
      ensures Valid() && shortcuts == [] && rankArr[..] == IDENTITY_RANKS
      ensures emptyCell == -1 && !dragStarted
    {
      var rank := new int[SHORTCUTS_PER_ROW];
      ResetRanks(rank);
      IdentityRanks();
      shortcuts := [];
      rankArr := rank;
      emptyCell := -1;
      emptyCellRect := Rect(0, 0, 0, 0);
      dragStarted := false;
      downX, downY, currentX, currentY := 0, 0, 0, 0;
    }

    /** `addItem`: the shortcut joins the end of the row. */
    method AddItem(info: ShortcutInfo)
      modifies this
      ensures shortcuts == old(shortcuts) + [info]
      ensures rankArr == old(rankArr) && emptyCell == old(emptyCell) && dragStarted == old(dragStarted)
    {
      shortcuts := shortcuts + [info];
    }

    /**
     * `removeItem`: refused while the row holds no more than the minimum;
     * otherwise the shortcut leaves the row and is handed back to the list
     * of all shortcuts.
     */
    method RemoveItem(i: int) returns (removed: Option<ShortcutInfo>)
      requires 0 <= i < |shortcuts| || |shortcuts| <= SHORTCUTS_MIN_COUNT
      modifies this
      ensures |old(shortcuts)| <= SHORTCUTS_MIN_COUNT ==> shortcuts == old(shortcuts) && removed.None?
      ensures |old(shortcuts)| > SHORTCUTS_MIN_COUNT ==>
        (shortcuts == old(shortcuts[..i] + shortcuts[i + 1..]) && removed == Some(old(shortcuts[i])))
      ensures |old(shortcuts)| >= SHORTCUTS_MIN_COUNT ==> |shortcuts| >= SHORTCUTS_MIN_COUNT
      ensures rankArr == old(rankArr) && emptyCell == old(emptyCell) && dragStarted == old(dragStarted)
    {
      if |shortcuts| <= SHORTCUTS_MIN_COUNT {
        return None;
      }
      removed := Some(shortcuts[i]);
      shortcuts := shortcuts[..i] + shortcuts[i + 1..];
    }

    /** `ACTION_DOWN` on a shortcut: the touch position is recorded. */
    method TouchDown(x: int, y: int)
      modifies this
      ensures downX == x && downY == y && currentX == x && currentY == y
      ensures shortcuts == old(shortcuts) && rankArr == old(rankArr)
      ensures emptyCell == old(emptyCell) && dragStarted == old(dragStarted)
      ensures emptyCellRect == old(emptyCellRect)
    {
      downX, downY := x, y;
      currentX, currentY := x, y;
    }

    /** `onLongClick`: the drag starts, and the dragged view's slot becomes the empty cell. */
    method StartDrag(index: int, areas: seq<Rect>)
      requires -1 <= index < |areas|
      modifies this
      ensures dragStarted && emptyCell == index
      ensures index != -1 ==> emptyCellRect == areas[index]
      ensures index == -1 ==> emptyCellRect == old(emptyCellRect)
      ensures shortcuts == old(shortcuts) && rankArr == old(rankArr)
      ensures downX == old(downX) && downY == old(downY)
      ensures currentX == old(currentX) && currentY == old(currentY)
    {
      dragStarted := true;
      emptyCell := index;
      if index != -1 {
        emptyCellRect := areas[index];
      }
    }

    /** `refreshRank`: the rank array with the empty cell's entry moved to `newEmptyCell`. */
    method RefreshRank(newEmptyCell: int) returns (result: array<int>)
      requires Valid() && 0 <= emptyCell < SHORTCUTS_PER_ROW && 0 <= newEmptyCell < SHORTCUTS_PER_ROW
      ensures fresh(result) && result.Length == SHORTCUTS_PER_ROW
      ensures result[..] == Moved(rankArr[..], emptyCell, newEmptyCell)
    {
      result := new int[SHORTCUTS_PER_ROW];
      if newEmptyCell < emptyCell {
        FillTowardEnd(rankArr[..], emptyCell, newEmptyCell, result);
      } else {
        FillTowardStart(rankArr[..], emptyCell, newEmptyCell, result);
      }
      forall k | 0 <= k < SHORTCUTS_PER_ROW
        ensures result[k] == Moved(rankArr[..], emptyCell, newEmptyCell)[k]
      {
        MovedIndex(rankArr[..], emptyCell, newEmptyCell, k);
      }
      assert result[..] == Moved(rankArr[..], emptyCell, newEmptyCell);
    }

    /** The slot a drag to (`x`, `y`) settles on: the nearest to the empty cell's area moved by the touch's travel. */
    ghost function Target(x: int, y: int, areas: seq<Rect>): int
      requires |shortcuts| <= |areas|
      reads this
    {
      NearestCell(areas, |shortcuts|, Translate(emptyCellRect, x - downX, y - downY))
    }

    /**
     * `ACTION_MOVE` during a drag: when the touch moved, the dragged
     * view's area is the empty cell's area moved by the touch's travel,
     * and the drag settles on the nearest slot.
     */
    method DragMove(x: int, y: int, areas: seq<Rect>)
      requires Valid() && |shortcuts| <= SHORTCUTS_PER_ROW && |shortcuts| <= |areas|
      requires dragStarted ==> 0 <= emptyCell < |shortcuts|
      modifies this
      ensures Valid() && shortcuts == old(shortcuts) && dragStarted == old(dragStarted)
      ensures dragStarted ==> 0 <= emptyCell < |shortcuts|
      ensures emptyCellRect == old(emptyCellRect) && downX == old(downX) && downY == old(downY)
      ensures !old(dragStarted) || (x == old(currentX) && y == old(currentY)) ==>
        (rankArr == old(rankArr) && emptyCell == old(emptyCell) && currentX == old(currentX) && currentY == old(currentY))
      ensures old(dragStarted) && (x != old(currentX) || y != old(currentY)) ==>
        (currentX == x && currentY == y &&
         Settled(old(rankArr[..]), old(emptyCell), old(Target(x, y, areas)), rankArr[..], emptyCell))
    {
      if !dragStarted {
        return;
      }
      if x != currentX || y != currentY {
        DragTo(x, y, areas);
      }
    }

    /** The touch moved: it is stored, and the drag settles on the slot nearest the dragged view. */
    method DragTo(x: int, y: int, areas: seq<Rect>)
      requires Valid() && |shortcuts| <= SHORTCUTS_PER_ROW && |shortcuts| <= |areas| && 0 <= emptyCell < |shortcuts|
      modifies this
      ensures Valid() && 0 <= emptyCell < |shortcuts| && currentX == x && currentY == y
      ensures Settled(old(rankArr[..]), old(emptyCell), old(Target(x, y, areas)), rankArr[..], emptyCell)
      ensures shortcuts == old(shortcuts) && dragStarted == old(dragStarted)
      ensures emptyCellRect == old(emptyCellRect) && downX == old(downX) && downY == old(downY)
    {
      // The source stores the touch position first and the search reads it back
      // from the stored fields; here the search gets x and y directly, so
      // storing them after the search is the same.
      ghost var rank, e := rankArr[..], emptyCell;
      var drag := Translate(emptyCellRect, x - downX, y - downY);
      var found := FindNearestCell(areas, |shortcuts|, drag);
      assert found == Target(x, y, areas);
      SettleOn(found);
      assert Settled(rank, e, found, rankArr[..], emptyCell);
      currentX := x;
      currentY := y;
    }

    /**
     * The part of `ACTION_MOVE` after `findNearestCell`: a slot other than
     * the empty cell refreshes the ranks and becomes the empty cell.
     */
    method SettleOn(found: int)
      requires Valid() && -1 <= found < |shortcuts| <= SHORTCUTS_PER_ROW && 0 <= emptyCell < |shortcuts|
      modifies this
      ensures Valid() && 0 <= emptyCell < |shortcuts|
      ensures found != -1 && found != old(emptyCell) ==>
        emptyCell == found && rankArr[..] == Moved(old(rankArr[..]), old(emptyCell), found)
      ensures found == -1 || found == old(emptyCell) ==> emptyCell == old(emptyCell) && rankArr == old(rankArr)
      ensures shortcuts == old(shortcuts) && dragStarted == old(dragStarted) && emptyCellRect == old(emptyCellRect)
      ensures downX == old(downX) && downY == old(downY) && currentX == old(currentX) && currentY == old(currentY)
    {
      if found != -1 && found != emptyCell {
        MoveEmptyCell(found);
      }
    }

    /** A new slot for the empty cell: the ranks are refreshed and the slot becomes the empty cell. */
    method MoveEmptyCell(found: int)
      requires Valid() && 0 <= found < SHORTCUTS_PER_ROW && 0 <= emptyCell < SHORTCUTS_PER_ROW
      modifies this
      ensures Valid() && emptyCell == found && rankArr[..] == Moved(old(rankArr[..]), old(emptyCell), found)
      ensures shortcuts == old(shortcuts) && dragStarted == old(dragStarted) && emptyCellRect == old(emptyCellRect)
      ensures downX == old(downX) && downY == old(downY) && currentX == old(currentX) && currentY == old(currentY)
    {
      var tempRankArr := RefreshRank(found);
      MovedPermutes(rankArr[..], emptyCell, found);
      emptyCell := found;
      rankArr := tempRankArr;
    }

    /** `ACTION_UP` during a drag: the drag ends and the drop animation, then `doEndAction`, follows. */
    method EndDrag() returns (dropFollows: bool)
      modifies this
      ensures dropFollows == old(dragStarted) && !dragStarted
      ensures shortcuts == old(shortcuts) && rankArr == old(rankArr) && emptyCell == old(emptyCell)
    {
      dropFollows := dragStarted;
      dragStarted := false;
    }

    /**
     * `doEndAction`: the row is rewritten so slot i shows the shortcut the
     * rank array names, then the rank array is reset to the identity. When a
     * rank names no shortcut (or the row has more slots than the array) the
     * source throws before changing anything, and `ok` is false.
     */
    method DoEndAction() returns (ok: bool)
      requires Valid()
      modifies this, rankArr
      ensures Valid() && rankArr == old(rankArr)
      ensures ok <==> old(|shortcuts| <= SHORTCUTS_PER_ROW
        && forall k :: 0 <= k < |shortcuts| ==> 0 <= rankArr[k] < |shortcuts|)
      ensures ok ==>
        (shortcuts == Reindex(old(shortcuts), old(rankArr[..|shortcuts|]))
         && rankArr[..] == IDENTITY_RANKS)
      ensures !ok ==> shortcuts == old(shortcuts) && rankArr[..] == old(rankArr[..])
    {
      var tempShortcuts: seq<ShortcutInfo> := [];
      var i := 0;
      while i < |shortcuts|
        invariant 0 <= i <= |shortcuts|
        invariant i <= SHORTCUTS_PER_ROW
        invariant forall k :: 0 <= k < i ==> 0 <= rankArr[k] < |shortcuts|
        invariant |tempShortcuts| == i
        invariant forall k :: 0 <= k < i ==> tempShortcuts[k] == shortcuts[rankArr[k]]
      {
        if i >= rankArr.Length {
          return false;
        }
        var value := rankArr[i];
        if !(0 <= value < |shortcuts|) {
          return false;
        }
        tempShortcuts := tempShortcuts + [shortcuts[value]];
        i := i + 1;
      }
      assert tempShortcuts == Reindex(shortcuts, rankArr[..|shortcuts|]);
      shortcuts := tempShortcuts;
      ResetRanks(rankArr);
      IdentityRanks();
      return true;
    }
  }
}
