/**
 * The sections of the assistant page (estimation, calendar, clock,
 * favourite shortcuts, favourite contacts) and their pin / unpin reordering.
 * The page's main layout holds three fixed header views followed by the
 * sections; each section remembers its default position, its current
 * position and whether it is pinned on top.
 */
module AssistItemContainer {
  import opened Common

  /** A child of the main layout: a fixed header view, or a section. */
  datatype Child = Header | Section(defaultIndex: int, currentIndex: int, pinned: bool)

  /** The position at which sections start, and to which a pinned section moves. */
  const FIRST_SECTION: nat := 3

  /** Each section's `currentIndex` is its position, and exactly the positions from FIRST_SECTION on hold sections. */
  ghost predicate Consistent(c: seq<Child>)
  {
    |c| >= FIRST_SECTION
    && forall k :: 0 <= k < |c| ==>
         (c[k].Section? <==> k >= FIRST_SECTION) && (c[k].Section? ==> c[k].currentIndex == k)
  }

  /** `setCurrentIndex` applied to a child. */
  function Renumber(c: Child, index: int): (r: Child)
    ensures r.Section? <==> c.Section?
    ensures r.Section? ==> r.currentIndex == index && r.defaultIndex == c.defaultIndex && r.pinned == c.pinned
  {
    if c.Section? then c.(currentIndex := index) else c
  }

  /** The children `s`, the k-th of them renumbered to `start + k`. */
  function Renumbered(s: seq<Child>, start: int): (r: seq<Child>)
    ensures |r| == |s|
    ensures forall k :: 0 <= k < |s| ==> r[k] == Renumber(s[k], start + k)
  {
    seq(|s|, k requires 0 <= k < |s| => Renumber(s[k], start + k))
  }

  /** A child with its position forgotten: what stays when sections are reordered. */
  function Strip(c: Child): Child
  {
    Renumber(c, 0)
  }

  function Stripped(s: seq<Child>): (r: seq<Child>)
    ensures |r| == |s|
    ensures forall k :: 0 <= k < |s| ==> r[k] == Strip(s[k])
  {
    seq(|s|, k requires 0 <= k < |s| => Strip(s[k]))
  }

  // ------------------------------------------------------------ pin

  /** The layout after pinning the section at `p`: it moves to the top, the ones it passes move down one place. */
  function PinnedAt(c: seq<Child>, p: nat): (r: seq<Child>)
    requires FIRST_SECTION <= p < |c| && c[p].Section?
    ensures |r| == |c| && r[..FIRST_SECTION] == c[..FIRST_SECTION] && r[p + 1..] == c[p + 1..]
    ensures r[FIRST_SECTION].Section? && r[FIRST_SECTION].pinned
  {
    c[..FIRST_SECTION] + [c[p].(currentIndex := FIRST_SECTION, pinned := true)]
      + Renumbered(c[FIRST_SECTION..p], FIRST_SECTION + 1) + c[p + 1..]
  }

  /** Each child after pinning: the ones before the top stay, the section takes the top, the ones it passes move down one place. */
  lemma PinnedAtIndex(c: seq<Child>, p: nat, k: nat)
    requires FIRST_SECTION <= p < |c| && c[p].Section? && k < |c|
    ensures |PinnedAt(c, p)| == |c|
    ensures PinnedAt(c, p)[k] ==
      if k < FIRST_SECTION then c[k]
      else if k == FIRST_SECTION then c[p].(currentIndex := FIRST_SECTION, pinned := true)
      else if k <= p then Renumber(c[k - 1], k)
      else c[k]
  {
    var a, x, m, d := c[..FIRST_SECTION], [c[p].(currentIndex := FIRST_SECTION, pinned := true)],
      Renumbered(c[FIRST_SECTION..p], FIRST_SECTION + 1), c[p + 1..];
    assert |a| == FIRST_SECTION && |x| == 1 && |m| == p - FIRST_SECTION && |d| == |c| - p - 1;
    var s := a + x + m + d;
    assert PinnedAt(c, p) == s;
    if k < FIRST_SECTION {
      assert s[k] == a[k];
    } else if k == FIRST_SECTION {
      assert s[k] == x[0];
    } else if k <= p {
      assert s[k] == m[k - FIRST_SECTION - 1];
    } else {
      assert s[k] == d[k - p - 1];
    }
  }

  /** Pinning keeps the layout consistent and puts the section, pinned, at the top. */
  lemma PinKeepsConsistent(c: seq<Child>, p: nat)
    requires Consistent(c) && FIRST_SECTION <= p < |c|
    ensures Consistent(PinnedAt(c, p))
    ensures |PinnedAt(c, p)| == |c|
    ensures PinnedAt(c, p)[FIRST_SECTION].pinned
    ensures PinnedAt(c, p)[FIRST_SECTION].defaultIndex == c[p].defaultIndex
  {
    var r := PinnedAt(c, p);
    PinnedAtIndex(c, p, FIRST_SECTION);
    forall k | 0 <= k < |c|
      ensures (r[k].Section? <==> k >= FIRST_SECTION) && (r[k].Section? ==> r[k].currentIndex == k)
    {
      PinnedAtIndex(c, p, k);
    }
  }

  /** Pinning keeps the other children in their order. */
  lemma PinKeepsOrder(c: seq<Child>, p: nat)
    requires Consistent(c) && FIRST_SECTION <= p < |c|
    ensures Stripped(RemoveAt(PinnedAt(c, p), FIRST_SECTION)) == Stripped(RemoveAt(c, p))
  {
    var r := PinnedAt(c, p);
    var a := RemoveAt(r, FIRST_SECTION);
    var b := RemoveAt(c, p);
    PinnedAtIndex(c, p, 0);
    forall k | 0 <= k < |a|
      ensures Strip(a[k]) == Strip(b[k])
    {
      RemoveAtIndex(r, FIRST_SECTION, k);
      RemoveAtIndex(c, p, k);
      PinnedAtIndex(c, p, if k < FIRST_SECTION then k else k + 1);
    }
  }

  // ------------------------------------------------------------ unpin

  /** A later section the unpinned one goes in front of: unpinned, with a larger default position. */
  predicate Overtakes(later: Child, defaultIndex: int)
  {
    later.Section? && !later.pinned && defaultIndex < later.defaultIndex
  }

  /** The first position from `from` on whose section the unpinned one goes in front of, or |c|. */
  function UnpinTarget(c: seq<Child>, defaultIndex: int, from: nat): (j: nat)
    requires from <= |c|
    ensures from <= j <= |c|
    ensures j < |c| ==> Overtakes(c[j], defaultIndex)
    ensures forall k :: from <= k < j ==> !Overtakes(c[k], defaultIndex)
    decreases |c| - from
  {
    if from == |c| then from
    else if Overtakes(c[from], defaultIndex) then from
    else UnpinTarget(c, defaultIndex, from + 1)
  }

  /**
   * The layout after unpinning the section at `p`: it goes back in front of
   * the first later unpinned section with a larger default position, or to
   * the end; the sections it passes move up one place.
   */
  function UnpinnedAt(c: seq<Child>, p: nat): (r: seq<Child>)
    requires FIRST_SECTION <= p < |c| && c[p].Section?
    ensures |r| == |c| && r[..p] == c[..p]
  {
    UnpinnedBefore(c, p, UnpinTarget(c, c[p].defaultIndex, p + 1))
  }

  /** The section at `p` unpinned and moved to just before position `j`. */
  function UnpinnedBefore(c: seq<Child>, p: nat, j: nat): seq<Child>
    requires p < j <= |c| && c[p].Section?
  {
    c[..p] + Renumbered(c[p + 1..j], p) + [c[p].(currentIndex := j - 1, pinned := false)] + c[j..]
  }

  /** Each child after moving the section at `p` before `j`: the ones it passes move up one place. */
  lemma UnpinnedBeforeIndex(c: seq<Child>, p: nat, j: nat, k: nat)
    requires p < j <= |c| && c[p].Section? && k < |c|
    ensures |UnpinnedBefore(c, p, j)| == |c|
    ensures UnpinnedBefore(c, p, j)[k] ==
      if k < p then c[k]
      else if k < j - 1 then Renumber(c[k + 1], k)
      else if k == j - 1 then c[p].(currentIndex := j - 1, pinned := false)
      else c[k]
  {
    var a, m, x, d := c[..p], Renumbered(c[p + 1..j], p), [c[p].(currentIndex := j - 1, pinned := false)], c[j..];
    assert |a| == p && |m| == j - p - 1 && |x| == 1 && |d| == |c| - j;
    var s := a + m + x + d;
    assert UnpinnedBefore(c, p, j) == s;
    if k < p {
      assert s[k] == a[k];
    } else if k < j - 1 {
      assert s[k] == m[k - p];
    } else if k == j - 1 {
      assert s[k] == x[0];
    } else {
      assert s[k] == d[k - j];
    }
  }

  /** Each child after unpinning: the sections it passes move up one place, and it takes the place before the target. */
  lemma UnpinnedAtIndex(c: seq<Child>, p: nat, k: nat)
    requires FIRST_SECTION <= p < |c| && c[p].Section? && k < |c|
    ensures var j := UnpinTarget(c, c[p].defaultIndex, p + 1);
      |UnpinnedAt(c, p)| == |c| &&
      UnpinnedAt(c, p)[k] ==
        if k < p then c[k]
        else if k < j - 1 then Renumber(c[k + 1], k)
        else if k == j - 1 then c[p].(currentIndex := j - 1, pinned := false)
        else c[k]
  {
    UnpinnedBeforeIndex(c, p, UnpinTarget(c, c[p].defaultIndex, p + 1), k);
  }

  /** Unpinning keeps the layout consistent and leaves the section unpinned. */
  lemma UnpinKeepsConsistent(c: seq<Child>, p: nat)
    requires Consistent(c) && FIRST_SECTION <= p < |c|
    ensures Consistent(UnpinnedAt(c, p))
    ensures |UnpinnedAt(c, p)| == |c|
    ensures var j := UnpinTarget(c, c[p].defaultIndex, p + 1);
      UnpinnedAt(c, p)[j - 1] == c[p].(currentIndex := j - 1, pinned := false)
  {
    var j := UnpinTarget(c, c[p].defaultIndex, p + 1);
    var r := UnpinnedAt(c, p);
    UnpinnedAtIndex(c, p, j - 1);
    forall k | 0 <= k < |c|
      ensures (r[k].Section? <==> k >= FIRST_SECTION) && (r[k].Section? ==> r[k].currentIndex == k)
    {
      UnpinnedAtIndex(c, p, k);
    }
  }

  /** Unpinning keeps the other children in their order. */
  lemma UnpinKeepsOrder(c: seq<Child>, p: nat)
    requires Consistent(c) && FIRST_SECTION <= p < |c|
    ensures var j := UnpinTarget(c, c[p].defaultIndex, p + 1);
      Stripped(RemoveAt(UnpinnedAt(c, p), j - 1)) == Stripped(RemoveAt(c, p))
  {
    var j := UnpinTarget(c, c[p].defaultIndex, p + 1);
    var r := UnpinnedAt(c, p);
    var a := RemoveAt(r, j - 1);
    var b := RemoveAt(c, p);
    UnpinnedAtIndex(c, p, 0);
    forall k | 0 <= k < |a|
      ensures Strip(a[k]) == Strip(b[k])
    {
      RemoveAtIndex(r, j - 1, k);
      RemoveAtIndex(c, p, k);
      UnpinnedAtIndex(c, p, if k < j - 1 then k else k + 1);
    }
  }

  /** The default layout: every section unpinned, in increasing default position. */
  ghost predicate DefaultOrder(c: seq<Child>)
  {
    Consistent(c)
    && (forall k :: FIRST_SECTION <= k < |c| ==> !c[k].pinned)
    && (forall k, m :: FIRST_SECTION <= k < m < |c| ==> c[k].defaultIndex < c[m].defaultIndex)
  }

  /** On the default layout, unpinning a section just pinned puts every section back where it was. */
  lemma PinThenUnpin(c: seq<Child>, p: nat)
    requires DefaultOrder(c) && FIRST_SECTION <= p < |c|
    ensures UnpinnedAt(PinnedAt(c, p), FIRST_SECTION) == c
  {
    var d := PinnedAt(c, p);
    PinKeepsConsistent(c, p);
    PinnedAtIndex(c, p, FIRST_SECTION);
    var me := d[FIRST_SECTION];
    forall k | FIRST_SECTION + 1 <= k <= p
      ensures !Overtakes(d[k], me.defaultIndex)
    {
      PinnedAtIndex(c, p, k);
    }
    if p + 1 < |c| {
      PinnedAtIndex(c, p, p + 1);
    }
    var j := UnpinTarget(d, me.defaultIndex, FIRST_SECTION + 1);
    assert j == p + 1;
    var r := UnpinnedAt(d, FIRST_SECTION);
    UnpinnedAtIndex(d, FIRST_SECTION, 0);
    forall k | 0 <= k < |c|
      ensures r[k] == c[k]
    {
      UnpinnedAtIndex(d, FIRST_SECTION, k);
      PinnedAtIndex(c, p, k);
      if FIRST_SECTION <= k < p {
        PinnedAtIndex(c, p, k + 1);
      }
    }
  }

  // ------------------------------------------------------------ the layout

  /** The page's main layout and the pin / unpin menu actions of its sections. */
  class MainLayout {
    var children: seq<Child>
    /** The section order last written by `updateAssistantSectionOrder`: each section's position and pin flag. */
    var savedOrder: seq<Child>

    /**
     * `onSelectPinOnTop` of the section at `p`. The sections it passes get
     * their position one further down; it moves to the top and is pinned,
     * and the new order is written to the database.
     */
    method PinOnTop(p: nat)
      requires Consistent(children) && FIRST_SECTION <= p < |children|
      modifies this
      ensures old(children[p].pinned) ==> children == old(children) && savedOrder == old(savedOrder)
      ensures !old(children[p].pinned) ==> children == PinnedAt(old(children), p) && savedOrder == children
    {
      var me := children[p];
      if !me.pinned {
        ghost var c := children;
        var cur := children;
        var i := FIRST_SECTION;
        while i < me.currentIndex
          invariant FIRST_SECTION <= i <= p && |cur| == |c|
          invariant forall k :: 0 <= k < |cur| ==>
            cur[k] == (if FIRST_SECTION <= k < i then Renumber(c[k], k + 1) else c[k])
        {
          cur := cur[i := Renumber(cur[i], i + 1)];
          i := i + 1;
        }
        cur := RemoveAt(cur, p);
        cur := cur[..FIRST_SECTION] + [me.(currentIndex := FIRST_SECTION, pinned := true)] + cur[FIRST_SECTION..];
        assert cur == PinnedAt(c, p) by {
          forall k | 0 <= k < |c|
            ensures cur[k] == PinnedAt(c, p)[k]
          {
            PinnedAtIndex(c, p, k);
          }
        }
        children := cur;
        savedOrder := children;
      }
    }

    /**
     * `onSelectUnpin` of the section at `p`: walk the later sections,
     * moving each passed one up a place, until one it goes in front of;
     * the new order is written to the database.
     */
    method Unpin(p: nat)
      requires Consistent(children) && FIRST_SECTION <= p < |children|
      modifies this
      ensures !old(children[p].pinned) ==> children == old(children) && savedOrder == old(savedOrder)
      ensures old(children[p].pinned) ==> children == UnpinnedAt(old(children), p) && savedOrder == children
    {
      var me := children[p];
      if me.pinned {
        children := UnpinWalk(children, p);
        savedOrder := children;
      }
    }
  }

  /**
   * The walk of `onSelectUnpin` over the sections after the pinned one at
   * `p`: each passed section moves up a place, and the section is put back
   * in front of the first it goes in front of, or at the end.
   */
  method UnpinWalk(c: seq<Child>, p: nat) returns (cur: seq<Child>)
    requires Consistent(c) && FIRST_SECTION <= p < |c|
    ensures cur == UnpinnedAt(c, p)
  {
    var me := c[p];
    cur := c;
    ghost var target := UnpinTarget(c, me.defaultIndex, p + 1);
    var i := me.currentIndex + 1;
    while i < |cur|
      invariant p + 1 <= i <= target && |cur| == |c|
      invariant forall k :: 0 <= k < |cur| ==>
        cur[k] == (if p < k < i then Renumber(c[k], k - 1) else c[k])
      decreases |cur| - i
    {
      var later := cur[i];
      if !later.pinned {
        if me.defaultIndex < later.defaultIndex {
          UnpinStopsAt(c, p, i, cur);
          cur := Insert(RemoveAt(cur, p), later.currentIndex - 1,
                        me.(currentIndex := later.currentIndex - 1, pinned := false));
          return;
        } else {
          cur := cur[i := Renumber(later, i - 1)];
        }
      } else {
        cur := cur[i := Renumber(later, i - 1)];
      }
      i := i + 1;
    }
    UnpinReachesEnd(c, p, cur);
    cur := RemoveAt(cur, p) + [me.(currentIndex := |cur| - 1, pinned := false)];
  }

  /** Insertion of `x` at position `i`. */
  function Insert(s: seq<Child>, i: int, x: Child): (r: seq<Child>)
    requires 0 <= i <= |s|
    ensures |r| == |s| + 1 && r[i] == x
    ensures forall k :: 0 <= k < i ==> r[k] == s[k]
    ensures forall k :: i < k < |r| ==> r[k] == s[k - 1]
  {
    s[..i] + [x] + s[i..]
  }

  /** The loop of `onSelectUnpin` stopping at `i`, the later section's own position, gives the unpinned layout. */
  lemma UnpinStopsAt(c: seq<Child>, p: nat, i: nat, cur: seq<Child>)
    requires Consistent(c) && FIRST_SECTION <= p < i < |c| && |cur| == |c|
    requires Overtakes(c[i], c[p].defaultIndex)
    requires forall k :: p < k < i ==> !Overtakes(c[k], c[p].defaultIndex)
    requires forall k :: 0 <= k < |cur| ==> cur[k] == (if p < k < i then Renumber(c[k], k - 1) else c[k])
    ensures cur[i].currentIndex - 1 == i - 1
    ensures Insert(RemoveAt(cur, p), i - 1, c[p].(currentIndex := i - 1, pinned := false)) == UnpinnedAt(c, p)
  {
    var j := UnpinTarget(c, c[p].defaultIndex, p + 1);
    assert j == i;
    var r := Insert(RemoveAt(cur, p), i - 1, c[p].(currentIndex := i - 1, pinned := false));
    var u := UnpinnedAt(c, p);
    forall k | 0 <= k < |u|
      ensures r[k] == u[k]
    {
      if p <= k < i - 1 {
        assert r[k] == cur[k + 1] == Renumber(c[k + 1], k);
      }
    }
  }

  /** The loop of `onSelectUnpin` running to the end gives the unpinned layout. */
  lemma UnpinReachesEnd(c: seq<Child>, p: nat, cur: seq<Child>)
    requires Consistent(c) && FIRST_SECTION <= p < |c| && |cur| == |c|
    requires forall k :: p < k < |c| ==> !Overtakes(c[k], c[p].defaultIndex)
    requires forall k :: 0 <= k < |cur| ==> cur[k] == (if p < k then Renumber(c[k], k - 1) else c[k])
    ensures RemoveAt(cur, p) + [c[p].(currentIndex := |c| - 1, pinned := false)] == UnpinnedAt(c, p)
  {
    var j := UnpinTarget(c, c[p].defaultIndex, p + 1);
    assert j == |c|;
    var r := RemoveAt(cur, p) + [c[p].(currentIndex := |c| - 1, pinned := false)];
    var u := UnpinnedAt(c, p);
    forall k | 0 <= k < |u|
      ensures r[k] == u[k]
    {
      if p <= k < |c| - 1 {
        assert r[k] == cur[k + 1] == Renumber(c[k + 1], k);
      }
    }
  }
}
