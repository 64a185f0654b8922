/**
 * The list of all shortcuts on the assistant page's quick-access panel. Every
 * shortcut carries a show flag; the list shows, in order, the shortcuts whose
 * flag is set, so a list position is the rank of a set flag. A shortcut moves
 * to the display row by clearing its flag and comes back by setting it.
 */
module AssistAllShortcuts {
  import opened Common
  import opened AppModel

  /** The display row's capacity (AssistQuickAccess). */
  const SHORTCUTS_PER_ROW: nat := 5

  // ------------------------------------------------------------ positions

  /** The index of the set flag with exactly `p` set flags before it, or -1: the shortcut at list position `p`. */
  function ShownIndex(flags: seq<bool>, p: int): (r: int)
    ensures r == -1 <==> !(0 <= p < CountTrue(flags))
    ensures r != -1 ==> 0 <= r < |flags| && flags[r] && CountTrue(flags[..r]) == p
  {
    if |flags| == 0 then -1
    else
      var n := |flags| - 1;
      var r := ShownIndex(flags[..n], p);
      if r != -1 then
        assert flags[..n][..r] == flags[..r];
        r
      else if flags[n] && CountTrue(flags[..n]) == p then n
      else -1
  }

  /** Once a prefix holds position `p`, the whole list holds it at the same index. */
  lemma {:induction false} ShownIndexPrefix(flags: seq<bool>, k: nat, p: int)
    requires k <= |flags| && ShownIndex(flags[..k], p) != -1
    ensures ShownIndex(flags, p) == ShownIndex(flags[..k], p)
    decreases |flags|
  {
    if k < |flags| {
      var n := |flags| - 1;
      assert flags[..n][..k] == flags[..k];
      ShownIndexPrefix(flags[..n], k, p);
    } else {
      assert flags[..k] == flags;
    }
  }

  /** Every set flag is shown: it sits at the position counting the set flags before it. */
  lemma {:induction false} EveryShownHasPosition(flags: seq<bool>, i: nat)
    requires i < |flags| && flags[i]
    ensures ShownIndex(flags, CountTrue(flags[..i])) == i
  {
    assert flags[..i + 1][..i] == flags[..i];
    ShownIndexPrefix(flags, i + 1, CountTrue(flags[..i]));
  }

  /** Clearing the flag at a list position shortens the list by exactly one. */
  lemma RemovingShortens(flags: seq<bool>, p: int)
    requires ShownIndex(flags, p) != -1
    ensures CountTrue(flags[ShownIndex(flags, p) := false]) == CountTrue(flags) - 1
  {
    CountTrueUpdate(flags, ShownIndex(flags, p), false);
  }

  /** A list whose flags are all set shows every shortcut. */
  lemma {:induction false} AllShownCount(flags: seq<bool>)
    requires forall k :: 0 <= k < |flags| ==> flags[k]
    ensures CountTrue(flags) == |flags|
  {
    if |flags| > 0 {
      AllShownCount(flags[..|flags| - 1]);
    }
  }

  // ------------------------------------------------------ displaying list

  /**
   * The flags after `setDisplayingInfoList` as written: for each displayed
   * entry `i` that some shortcut matches, the flag at `i`, an index into the
   * displayed list, is cleared.
   */
  function ClearedAsWritten(flags: seq<bool>, all: seq<ShortcutInfo>, shown: seq<ShortcutInfo>): (r: seq<bool>)
    ensures |r| == |flags|
  {
    seq(|flags|, k requires 0 <= k < |flags| =>
      if k < |shown| && FirstMatch(all, shown[k]) != -1 then false else flags[k])
  }

  /** The writes of `setDisplayingInfoList` as written stay inside the flag array. */
  predicate WritesInRange(n: nat, all: seq<ShortcutInfo>, shown: seq<ShortcutInfo>)
  {
    forall i :: 0 <= i < |shown| && FirstMatch(all, shown[i]) != -1 ==> i < n
  }

  /**
   * The flags the method evidently means to compute: for each displayed
   * entry, the flag of the first shortcut standing for it is cleared.
   */
  function HideDisplayed(flags: seq<bool>, all: seq<ShortcutInfo>, shown: seq<ShortcutInfo>): (r: seq<bool>)
    requires |flags| == |all|
    ensures |r| == |flags|
  {
    if |shown| == 0 then flags
    else
      var f := HideDisplayed(flags, all, shown[..|shown| - 1]);
      var j := FirstMatch(all, shown[|shown| - 1]);
      if j == -1 then f else f[j := false]
  }

  /** No displayed entry finds `j` as its first match. */
  predicate Unmatched(all: seq<ShortcutInfo>, shown: seq<ShortcutInfo>, j: int)
  {
    forall k :: 0 <= k < |shown| ==> FirstMatch(all, shown[k]) != j
  }

  /** One more displayed entry keeps `j` unmatched exactly when it does not match `j` first. */
  lemma UnmatchedStep(all: seq<ShortcutInfo>, shown: seq<ShortcutInfo>, j: int)
    requires |shown| > 0
    ensures Unmatched(all, shown, j) <==>
      Unmatched(all, shown[..|shown| - 1], j) && FirstMatch(all, shown[|shown| - 1]) != j
  {
    var prefix := shown[..|shown| - 1];
    assert forall k :: 0 <= k < |prefix| ==> prefix[k] == shown[k];
  }

  /** After hiding, a shortcut is shown exactly when it was shown and no displayed entry matches it first. */
  lemma {:induction false} HideDisplayedSpec(flags: seq<bool>, all: seq<ShortcutInfo>, shown: seq<ShortcutInfo>, j: nat)
    requires |flags| == |all| && j < |all|
    ensures HideDisplayed(flags, all, shown)[j] <==> flags[j] && Unmatched(all, shown, j)
  {
    if |shown| > 0 {
      var n := |shown| - 1;
      var f := HideDisplayed(flags, all, shown[..n]);
      var m := FirstMatch(all, shown[n]);
      assert HideDisplayed(flags, all, shown) == if m == -1 then f else f[m := false];
      HideDisplayedSpec(flags, all, shown[..n], j);
      UnmatchedStep(all, shown, j);
    }
  }

  /** After hiding, no displayed shortcut is left in the list. */
  lemma HiddenDisplayedNotShown(flags: seq<bool>, all: seq<ShortcutInfo>, shown: seq<ShortcutInfo>, k: nat)
    requires |flags| == |all| && k < |shown| && FirstMatch(all, shown[k]) != -1
    ensures !HideDisplayed(flags, all, shown)[FirstMatch(all, shown[k])]
  {
    HideDisplayedSpec(flags, all, shown, FirstMatch(all, shown[k]));
  }

  /**
   * As written, a displayed shortcut can stay in the list while another is
   * hidden: with shortcuts [a, b] and b displayed, the flag of a is cleared
   * and b is still shown.
   */
  lemma AsWrittenShowsDisplayed()
    ensures var a := ShortcutInfo("pkg", "a");
      var b := ShortcutInfo("pkg", "b");
      FirstMatch([a, b], b) == 1
      && ClearedAsWritten([true, true], [a, b], [b]) == [false, true]
      && HideDisplayed([true, true], [a, b], [b]) == [true, false]
  {
    var a := ShortcutInfo("pkg", "a");
    var b := ShortcutInfo("pkg", "b");
    assert !SameShortcut(a, b) by {
      assert a.deepShortcutId[0] != b.deepShortcutId[0];
    }
    assert FirstMatch([a, b], b) == 1;
    assert [b][..0] == [];
  }

  /** The search loop of `addItem` and `setDisplayingInfoList`: the first shortcut with equal id and package. */
  method FindShortcut(list: seq<ShortcutInfo>, info: ShortcutInfo) returns (index: int)
    ensures index == FirstMatch(list, info)
  {
    index := -1;
    var i := 0;
    while i < |list|
      invariant 0 <= i <= |list|
      invariant forall j :: 0 <= j < i ==> !SameShortcut(list[j], info)
    {
      if list[i].deepShortcutId == info.deepShortcutId && list[i].packageName == info.packageName {
        index := i;
        return;
      }
      i := i + 1;
    }
  }

  /** What `removeItem` did. */
  datatype RemoveOutcome =
    | RowFull                          // the display row is full: a toast, nothing changes
    | NoSuchPosition                   // no shortcut at that position: the flag write throws
    | Handed(info: ShortcutInfo)       // the shortcut left the list for the display row

  class AllShortcutsAdapter {
    var shortcutList: seq<ShortcutInfo>
    var showFlags: array<bool>
    /** `setShortcutInfoList` has run: until then the list and the flag array are null. */
    var listSet: bool

    ghost predicate Valid()
      reads this
    {
      showFlags.Length == |shortcutList|
    }

    /** No list set yet: the flag array is null, held here as an empty one with `listSet` false. */
    constructor ()
      ensures Valid() && shortcutList == [] && !listSet
    {
      shortcutList := [];
      showFlags := new bool[0];
      listSet := false;
    }

    /** `setShortcutInfoList`: one flag per shortcut, all set, so every shortcut is shown. */
    method SetShortcutInfoList(list: seq<ShortcutInfo>)
      modifies this
      ensures Valid() && fresh(showFlags) && shortcutList == list && listSet
      ensures forall k :: 0 <= k < showFlags.Length ==> showFlags[k]
      ensures CountTrue(showFlags[..]) == |list|
    {
      shortcutList := list;
      showFlags := new bool[|list|](_ => true);
      listSet := true;
      AllShownCount(showFlags[..]);
    }

    /**
     * `getItemCount`: the number of set flags; None where the loop over the
     * still-null flag array throws, before any list was set.
     */
    method GetItemCount() returns (size: Option<nat>)
      ensures size.None? <==> !listSet
      ensures listSet ==> size == Some(CountTrue(showFlags[..]))
    {
      if !listSet {
        return None;
      }
      var n := 0;
      var i := 0;
      while i < showFlags.Length
        invariant 0 <= i <= showFlags.Length
        invariant n == CountTrue(showFlags[..i])
      {
        assert showFlags[..i + 1][..i] == showFlags[..i];
        if showFlags[i] {
          n := n + 1;
        }
        i := i + 1;
      }
      assert showFlags[..i] == showFlags[..];
      return Some(n);
    }

    /** `getIndexInList`: the index of the shortcut at list position `position`, or -1. */
    method GetIndexInList(position: int) returns (r: int)
      requires Valid()
      ensures r == ShownIndex(showFlags[..], position)
    {
      var index := 0;
      var i := 0;
      while i < |shortcutList|
        invariant 0 <= i <= |shortcutList|
        invariant index == CountTrue(showFlags[..i])
        invariant ShownIndex(showFlags[..i], position) == -1
      {
        assert showFlags[..i + 1][..i] == showFlags[..i];
        if showFlags[i] {
          if index == position {
            assert ShownIndex(showFlags[..i + 1], position) == i;
            ShownIndexPrefix(showFlags[..], i + 1, position);
            return i;
          }
          index := index + 1;
        }
        i := i + 1;
      }
      assert showFlags[..i] == showFlags[..];
      return -1;
    }

    /** `addItem`: the first shortcut standing for `info` is shown again; nothing changes when none does. */
    method AddItem(info: ShortcutInfo)
      requires Valid()
      modifies showFlags
      ensures FirstMatch(shortcutList, info) == -1 ==> showFlags[..] == old(showFlags[..])
      ensures FirstMatch(shortcutList, info) != -1 ==>
        showFlags[..] == old(showFlags[..])[FirstMatch(shortcutList, info) := true]
    {
      var index := FindShortcut(shortcutList, info);
      if index != -1 {
        showFlags[index] := true;
      }
    }

    /**
     * `removeItem`: refused while the display row holds `SHORTCUTS_PER_ROW`
     * shortcuts; otherwise the shortcut at the position is hidden and handed
     * to the display row.
     */
    method RemoveItem(position: int, displayingCount: int) returns (outcome: RemoveOutcome)
      requires Valid()
      modifies showFlags
      ensures displayingCount >= SHORTCUTS_PER_ROW ==> outcome == RowFull && showFlags[..] == old(showFlags[..])
      ensures displayingCount < SHORTCUTS_PER_ROW && ShownIndex(old(showFlags[..]), position) == -1 ==>
        outcome == NoSuchPosition && showFlags[..] == old(showFlags[..])
      ensures displayingCount < SHORTCUTS_PER_ROW && ShownIndex(old(showFlags[..]), position) != -1 ==>
        (outcome == Handed(shortcutList[ShownIndex(old(showFlags[..]), position)])
         && showFlags[..] == old(showFlags[..])[ShownIndex(old(showFlags[..]), position) := false])
    {
      if displayingCount >= SHORTCUTS_PER_ROW {
        return RowFull;
      }
      var index := GetIndexInList(position);
      if index == -1 {
        return NoSuchPosition;
      }
      showFlags[index] := false;
      return Handed(shortcutList[index]);
    }

    /**
     * `setDisplayingInfoList` as written: nothing for a missing or empty
     * list; otherwise, for each displayed entry `i` some shortcut matches,
     * flag `i` is cleared. `ok` is false when such an `i` lies past the flag
     * array (the write throws, after the writes before it).
     */
    method SetDisplayingInfoList(list: Option<seq<ShortcutInfo>>) returns (ok: bool)
      requires Valid()
      modifies showFlags
      ensures list.None? ==> ok && showFlags[..] == old(showFlags[..])
      ensures list.Some? ==> ok == WritesInRange(showFlags.Length, shortcutList, list.value)
      ensures list.Some? ==> showFlags[..] == ClearedAsWritten(old(showFlags[..]), shortcutList, list.value)
    {
      if list.None? || |list.value| == 0 {
        return true;
      }
      var shown := list.value;
      var i := 0;
      while i < |shown|
        invariant 0 <= i <= |shown|
        invariant forall k :: 0 <= k < i && FirstMatch(shortcutList, shown[k]) != -1 ==> k < showFlags.Length
        invariant forall k :: 0 <= k < showFlags.Length ==>
          (showFlags[k] == if k < i && FirstMatch(shortcutList, shown[k]) != -1 then false else old(showFlags[k]))
      {
        var j := FindShortcut(shortcutList, shown[i]);
        if j != -1 {
          if i >= showFlags.Length {
            return false;
          }
          showFlags[i] := false;
        }
        i := i + 1;
      }
      return true;
    }

    /** `setDisplayingInfoList` as evidently intended: each displayed shortcut leaves the list. */
    method HideDisplayedInfoList(list: Option<seq<ShortcutInfo>>)
      requires Valid()
      modifies showFlags
      ensures list.None? ==> showFlags[..] == old(showFlags[..])
      ensures list.Some? ==> showFlags[..] == HideDisplayed(old(showFlags[..]), shortcutList, list.value)
    {
      if list.None? || |list.value| == 0 {
        return;
      }
      var shown := list.value;
      var i := 0;
      while i < |shown|
        invariant 0 <= i <= |shown|
        invariant showFlags[..] == HideDisplayed(old(showFlags[..]), shortcutList, shown[..i])
      {
        assert shown[..i + 1][..i] == shown[..i];
        var j := FindShortcut(shortcutList, shown[i]);
        if j != -1 {
          showFlags[j] := false;
        }
        i := i + 1;
      }
      assert shown[..i] == shown;
    }
  }
}
