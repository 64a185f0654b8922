/**
 * The app list of the folder's "add apps" dialog: the apps already in the
 * folder come first, in the folder's order, then every other app; a check
 * box per app, clicks that toggle it, and the list of checked apps.
 */
module FolderAppsAdapter {
  import opened Common
  import opened AppModel

  /** `sameInformation`: a folder shortcut stands for an app when their packages are equal. */
  predicate SameInformation(shortcutPackage: string, app: AppInfo)
  {
    shortcutPackage == app.packageName
  }

  function Packages(apps: seq<AppInfo>): (r: seq<string>)
    ensures |r| == |apps| && forall k :: 0 <= k < |apps| ==> r[k] == apps[k].packageName
  {
    if |apps| == 0 then [] else Packages(apps[..|apps| - 1]) + [apps[|apps| - 1].packageName]
  }

  /**
   * The matching pass: for each shortcut in order, the first remaining app
   * of its package is taken out of `temp`; the taken apps and what is left.
   */
  function Match(shortcuts: seq<string>, temp: seq<AppInfo>): (r: (seq<AppInfo>, seq<AppInfo>))
    ensures |r.0| <= |shortcuts| && |r.0| + |r.1| == |temp|
    decreases |shortcuts|
  {
    if |shortcuts| == 0 then ([], temp)
    else
      var j := IndexOf(Packages(temp), shortcuts[0]);
      if j < 0 then Match(shortcuts[1..], temp)
      else
        var rest := Match(shortcuts[1..], temp[..j] + temp[j + 1..]);
        ([temp[j]] + rest.0, rest.1)
  }

  /** The dialog's list: the matched apps, then the unmatched ones. */
  function Arranged(shortcuts: seq<string>, apps: seq<AppInfo>): seq<AppInfo>
  {
    Match(shortcuts, apps).0 + Match(shortcuts, apps).1
  }

  /** `a` is `b` with some elements left out, the rest in the same order. */
  predicate Subseq<T(==)>(a: seq<T>, b: seq<T>)
    decreases |b|
  {
    |a| == 0 || (|b| > 0 && ((a[0] == b[0] && Subseq(a[1..], b[1..])) || Subseq(a, b[1..])))
  }

  lemma {:induction false} SubseqRefl<T>(a: seq<T>)
    ensures Subseq(a, a)
    decreases |a|
  {
    if |a| > 0 {
      SubseqRefl(a[1..]);
    }
  }

  /** A subsequence of `b` with one element removed is a subsequence of `b`. */
  lemma {:induction false} SubseqDrop<T>(x: seq<T>, b: seq<T>, j: nat)
    requires j < |b| && Subseq(x, b[..j] + b[j + 1..])
    ensures Subseq(x, b)
    decreases j
  {
    var c := b[..j] + b[j + 1..];
    if j == 0 {
      assert c == b[1..];
    } else if |x| > 0 {
      var b' := b[1..];
      assert c[0] == b[0];
      assert c[1..] == b'[..j - 1] + b'[j..];
      if x[0] == c[0] && Subseq(x[1..], c[1..]) {
        SubseqDrop(x[1..], b', j - 1);
      } else {
        SubseqDrop(x, b', j - 1);
      }
    }
  }

  /** Every app ends up exactly once in the list: it is a permutation of the apps. */
  lemma {:induction false} MatchPermutes(shortcuts: seq<string>, temp: seq<AppInfo>)
    ensures multiset(Match(shortcuts, temp).0) + multiset(Match(shortcuts, temp).1) == multiset(temp)
    decreases |shortcuts|
  {
    if |shortcuts| > 0 {
      var j := IndexOf(Packages(temp), shortcuts[0]);
      if j < 0 {
        MatchPermutes(shortcuts[1..], temp);
      } else {
        var t' := temp[..j] + temp[j + 1..];
        var rest := Match(shortcuts[1..], t');
        MatchPermutes(shortcuts[1..], t');
        assert Match(shortcuts, temp) == ([temp[j]] + rest.0, rest.1);
        RemoveAtMultiset(temp, j);
        calc {
          multiset(Match(shortcuts, temp).0) + multiset(Match(shortcuts, temp).1);
          multiset{temp[j]} + multiset(rest.0) + multiset(rest.1);
          multiset{temp[j]} + multiset(t');
          multiset(temp);
        }
      }
    }
  }

  /** The unmatched apps keep the order of the all-apps list. */
  lemma {:induction false} LeftoverKeepsOrder(shortcuts: seq<string>, temp: seq<AppInfo>)
    ensures Subseq(Match(shortcuts, temp).1, temp)
    decreases |shortcuts|
  {
    if |shortcuts| == 0 {
      SubseqRefl(temp);
    } else {
      var j := IndexOf(Packages(temp), shortcuts[0]);
      if j < 0 {
        LeftoverKeepsOrder(shortcuts[1..], temp);
      } else {
        LeftoverKeepsOrder(shortcuts[1..], temp[..j] + temp[j + 1..]);
        SubseqDrop(Match(shortcuts, temp).1, temp, j);
      }
    }
  }

  /** The matched apps come in the folder's shortcut order: their packages are a subsequence of the shortcuts. */
  lemma {:induction false} MatchedFollowShortcuts(shortcuts: seq<string>, temp: seq<AppInfo>)
    ensures Subseq(Packages(Match(shortcuts, temp).0), shortcuts)
    decreases |shortcuts|
  {
    if |shortcuts| > 0 {
      var j := IndexOf(Packages(temp), shortcuts[0]);
      if j < 0 {
        MatchedFollowShortcuts(shortcuts[1..], temp);
      } else {
        var rest := Match(shortcuts[1..], temp[..j] + temp[j + 1..]);
        MatchedFollowShortcuts(shortcuts[1..], temp[..j] + temp[j + 1..]);
        var p := Packages([temp[j]] + rest.0);
        assert p[0] == shortcuts[0];
        assert p[1..] == Packages(rest.0);
      }
    }
  }

  /** The status the constructor sets: the first `shortcutCount` positions checked, the rest not. */
  function InitialStatus(shortcutCount: nat, appCount: nat): (r: seq<bool>)
    requires shortcutCount <= appCount
    ensures |r| == appCount && CountTrue(r) == shortcutCount
    ensures forall k :: 0 <= k < appCount ==> (r[k] <==> k < shortcutCount)
  {
    if appCount == 0 then []
    else if appCount == shortcutCount then InitialStatus(shortcutCount - 1, appCount - 1) + [true]
    else InitialStatus(shortcutCount, appCount - 1) + [false]
  }

  /** The apps whose status is checked, in list order. */
  function CheckedApps(apps: seq<AppInfo>, status: seq<bool>): seq<AppInfo>
    requires |apps| <= |status|
  {
    if |apps| == 0 then []
    else
      var n := |apps| - 1;
      CheckedApps(apps[..n], status) + (if status[n] then [apps[n]] else [])
  }

  /** One checked app per checked position, each an app of the list. */
  lemma {:induction false} CheckedAppsSpec(apps: seq<AppInfo>, status: seq<bool>)
    requires |apps| <= |status|
    ensures |CheckedApps(apps, status)| == CountTrue(status[..|apps|])
    ensures multiset(CheckedApps(apps, status)) <= multiset(apps)
  {
    if |apps| > 0 {
      var n := |apps| - 1;
      CheckedAppsSpec(apps[..n], status);
      assert status[..n + 1][..n] == status[..n];
      assert apps == apps[..n] + [apps[n]];
      assert multiset(apps) == multiset(apps[..n]) + multiset{apps[n]};
    }
  }

  /** When exactly the first `c` positions are checked, the checked apps are the first `c` apps. */
  lemma {:induction false} CheckedPrefix(apps: seq<AppInfo>, status: seq<bool>, c: nat)
    requires c <= |apps| <= |status|
    requires forall k :: 0 <= k < |apps| ==> (status[k] <==> k < c)
    ensures CheckedApps(apps, status) == apps[..c]
    decreases |apps|
  {
    if |apps| > 0 {
      var n := |apps| - 1;
      if c == |apps| {
        CheckedPrefix(apps[..n], status, n);
        assert apps[..n] + [apps[n]] == apps;
      } else {
        CheckedPrefix(apps[..n], status, c);
        assert apps[..n][..c] == apps[..c];
      }
    }
  }

  /** Right after construction, the checked apps are the first `shortcutCount` apps of the list. */
  lemma InitialCheckedApps(apps: seq<AppInfo>, shortcutCount: nat)
    requires shortcutCount <= |apps|
    ensures CheckedApps(apps, InitialStatus(shortcutCount, |apps|)) == apps[..shortcutCount]
  {
    CheckedPrefix(apps, InitialStatus(shortcutCount, |apps|), shortcutCount);
  }

  /** The search for a shortcut's app: the position of the first app of its package, or past the end when there is none. */
  method FindApp(shortcut: string, temp: seq<AppInfo>) returns (j: int)
    ensures 0 <= j <= |temp|
    ensures j < |temp| ==> IndexOf(Packages(temp), shortcut) == j
    ensures j == |temp| ==> IndexOf(Packages(temp), shortcut) < 0
  {
    j := 0;
    while j < |temp| && !SameInformation(shortcut, temp[j])
      invariant 0 <= j <= |temp|
      invariant forall k :: 0 <= k < j ==> temp[k].packageName != shortcut
    {
      j := j + 1;
    }
    ghost var ps := Packages(temp);
    if j < |temp| {
      IndexOfAt(ps, shortcut, j);
    } else {
      assert shortcut !in ps;
    }
  }

  /** A shortcut whose app is at `j` takes that app, and the rest match in what is left. */
  lemma MatchTakes(s: seq<string>, temp: seq<AppInfo>, j: nat)
    requires |s| > 0 && j < |temp| && IndexOf(Packages(temp), s[0]) == j
    ensures Match(s, temp) == ([temp[j]] + Match(s[1..], temp[..j] + temp[j + 1..]).0,
                               Match(s[1..], temp[..j] + temp[j + 1..]).1)
  {
  }

  /** A shortcut without an app takes nothing. */
  lemma MatchSkips(s: seq<string>, temp: seq<AppInfo>)
    requires |s| > 0 && IndexOf(Packages(temp), s[0]) < 0
    ensures Match(s, temp) == Match(s[1..], temp)
  {
  }

  /** One turn of the matching loop: the first shortcut left takes its app out of `temp`, if there is one. */
  method MatchSlot(s: seq<string>, list: seq<AppInfo>, temp: seq<AppInfo>, ghost target: (seq<AppInfo>, seq<AppInfo>))
    returns (list': seq<AppInfo>, temp': seq<AppInfo>)
    requires |s| > 0
    requires list + Match(s, temp).0 == target.0 && Match(s, temp).1 == target.1
    ensures list' + Match(s[1..], temp').0 == target.0 && Match(s[1..], temp').1 == target.1
  {
    var j := FindApp(s[0], temp);
    if j < |temp| {
      list' := list + [temp[j]];
      temp' := temp[..j] + temp[j + 1..];
      ghost var rest := Match(s[1..], temp');
      MatchTakes(s, temp, j);
      assert list + ([temp[j]] + rest.0) == list' + rest.0;
    } else {
      MatchSkips(s, temp);
      list', temp' := list, temp;
    }
  }

  /** The matching loop of the constructor. */
  method ArrangeApps(shortcuts: seq<string>, apps: seq<AppInfo>) returns (list: seq<AppInfo>)
    ensures list == Arranged(shortcuts, apps)
  {
    list := [];
    var temp := apps;
    var i := 0;
    ghost var target := Match(shortcuts, apps);
    while i < |shortcuts|
      invariant 0 <= i <= |shortcuts|
      invariant list + Match(shortcuts[i..], temp).0 == target.0
      invariant Match(shortcuts[i..], temp).1 == target.1
    {
      list, temp := MatchSlot(shortcuts[i..], list, temp, target);
      assert shortcuts[i..][1..] == shortcuts[i + 1..];
      i := i + 1;
    }
    assert shortcuts[i..] == [];
    list := list + temp;
  }

  class Adapter {
    var checkedIconCount: int
    /** The package names of the folder's shortcuts. */
    var shortcuts: seq<string>
    var appList: seq<AppInfo>
    var checkStatus: array<bool>

    ghost predicate Valid()
      reads this
    {
      checkStatus.Length == |appList|
    }

    /**
     * The constructor on the path where it completes: the count comes from
     * the folder's icon count and the status array has one slot per app.
     * With more shortcuts than apps the status loop writes past the array
     * and throws; NewAdapter models that outcome.
     */
    constructor (iconCount: int, folderShortcuts: seq<string>, apps: seq<AppInfo>)
      requires |folderShortcuts| <= |apps|
      ensures Valid() && fresh(checkStatus)
      ensures checkedIconCount == iconCount && shortcuts == folderShortcuts
      ensures appList == Arranged(folderShortcuts, apps) && |appList| == |apps|
      ensures checkStatus[..] == InitialStatus(|folderShortcuts|, |apps|)
    {
      checkedIconCount := iconCount;
      shortcuts := folderShortcuts;
      var list := ArrangeApps(folderShortcuts, apps);
      appList := list;
      var status := new bool[|apps|];
      var i := 0;
      while i < |folderShortcuts|
        invariant 0 <= i <= |folderShortcuts|
        invariant forall k :: 0 <= k < i ==> status[k]
      {
        status[i] := true;
        i := i + 1;
      }
      i := |folderShortcuts|;
      while i < |list|
        invariant |folderShortcuts| <= i <= |apps| == |list|
        invariant forall k :: 0 <= k < |folderShortcuts| ==> status[k]
        invariant forall k :: |folderShortcuts| <= k < i ==> !status[k]
      {
        status[i] := false;
        i := i + 1;
      }
      checkStatus := status;
    }

    /**
     * The click handler of position `position`: the view's check box
     * (shown as `viewChecked`) toggles, the count follows it and the status
     * records it. When the view showed the recorded status, the count
     * keeps its distance to the number of checked positions.
     */
    method Click(position: int, viewChecked: bool) returns (nowChecked: bool)
      requires Valid() && 0 <= position < checkStatus.Length
      modifies this, checkStatus
      ensures Valid() && nowChecked == !viewChecked
      ensures shortcuts == old(shortcuts) && appList == old(appList) && checkStatus == old(checkStatus)
      ensures checkedIconCount == old(checkedIconCount) + (if nowChecked then 1 else -1)
      ensures checkStatus[..] == old(checkStatus[..])[position := nowChecked]
      ensures viewChecked == old(checkStatus[position]) ==>
        checkedIconCount - CountTrue(checkStatus[..]) == old(checkedIconCount - CountTrue(checkStatus[..]))
    {
      nowChecked := !viewChecked;
      if nowChecked {
        checkedIconCount := checkedIconCount + 1;
      } else {
        checkedIconCount := checkedIconCount - 1;
      }
      CountTrueUpdate(checkStatus[..], position, nowChecked);
      checkStatus[position] := nowChecked;
    }

    /** `getAllCheckedIcons`. */
    method GetAllCheckedIcons() returns (result: seq<AppInfo>)
      requires Valid()
      ensures result == CheckedApps(appList, checkStatus[..])
      ensures |result| == CountTrue(checkStatus[..])
    {
      result := [];
      var i := 0;
      while i < |appList|
        invariant 0 <= i <= |appList|
        invariant result == CheckedApps(appList[..i], checkStatus[..])
      {
        assert appList[..i + 1][..i] == appList[..i];
        if checkStatus[i] {
          result := result + [appList[i]];
        }
        i := i + 1;
      }
      assert appList[..i] == appList;
      CheckedAppsSpec(appList, checkStatus[..]);
      assert checkStatus[..][..|appList|] == checkStatus[..];
    }

    /** `containsInfo`: some folder shortcut has the app's package. */
    method ContainsInfo(info: AppInfo) returns (r: bool)
      ensures r <==> info.packageName in shortcuts
    {
      var i := 0;
      while i < |shortcuts|
        invariant 0 <= i <= |shortcuts|
        invariant forall k :: 0 <= k < i ==> !SameInformation(shortcuts[k], info)
      {
        if SameInformation(shortcuts[i], info) {
          return true;
        }
        i := i + 1;
      }
      return false;
    }
  }

  /**
   * `new FolderAppsRecyclerViewAdapter(...)` with both outcomes: when the
   * folder holds more shortcuts than there are apps (an uninstalled app,
   * say), the first status loop indexes past the array and the constructor
   * throws; otherwise the adapter is built as the constructor states.
   */
  method NewAdapter(iconCount: int, folderShortcuts: seq<string>, apps: seq<AppInfo>) returns (r: Result<Adapter>)
    ensures r.Failure? <==> |folderShortcuts| > |apps|
    ensures r.Ok? ==> fresh(r.value) && fresh(r.value.checkStatus) && r.value.Valid()
    ensures r.Ok? ==> r.value.checkedIconCount == iconCount && r.value.shortcuts == folderShortcuts
    ensures r.Ok? ==> r.value.appList == Arranged(folderShortcuts, apps)
    ensures r.Ok? ==> r.value.checkStatus[..] == InitialStatus(|folderShortcuts|, |apps|)
  {
    if |folderShortcuts| > |apps| {
      return Failure("ArrayIndexOutOfBoundsException");
    }
    var adapter := new Adapter(iconCount, folderShortcuts, apps);
    return Ok(adapter);
  }

  /**
   * The status and the check box can disagree: with a folder shortcut whose
   * package has no app, the first app is recorded as checked although its
   * check box, bound from `containsInfo`, starts unchecked.
   */
  lemma StatusMayDisagreeWithCheckBox()
    ensures var apps := [AppInfo("a", "A")];
      var list := Arranged(["x"], apps);
      InitialStatus(1, 1)[0] && list == apps && list[0].packageName !in ["x"]
  {
    var apps := [AppInfo("a", "A")];
    assert Packages(apps) == ["a"];
    assert IndexOf(Packages(apps), "x") == -1;
  }
}
