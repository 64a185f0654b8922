/**
 * The apps-and-shortcuts card of the assistant page: five default entries
 * (message, contacts, camera, calendar, clock) each pick the first installed
 * app matching them; calendar, clock and contacts also pick one shortcut of
 * that app for the assistant's own cards and for the default quick-access
 * row.
 */
module AssistShortcutApps {
  import opened Common
  import opened AppModel

  /** A default entry: a word the package name contains, or an exact package name when one is set. */
  datatype SimpleAppInfo = SimpleAppInfo(containingWord: string, exactPackageName: string)

  const DEFAULT_MESSAGE: string := "messag"
  const DEFAULT_CONTACTS: string := "contacts"
  const DEFAULT_CAMERA: string := "camera"
  const DEFAULT_CALENDAR: string := "calendar"
  const DEFAULT_CLOCK: string := "clock"
  const DEFAULT_CALENDAR_PACKAGE: string := "com.android.krcalendar"
  const DEFAULT_CALENDAR_NEW_EVENT: string := "new_event"
  const DEFAULT_CLOCK_NEW_ALARM: string := "alarm_create"

  /** The entries `setDefaultApps` installs, in order. */
  const DEFAULT_APPS: seq<SimpleAppInfo> := [
    SimpleAppInfo(DEFAULT_MESSAGE, ""),
    SimpleAppInfo(DEFAULT_CONTACTS, ""),
    SimpleAppInfo(DEFAULT_CAMERA, ""),
    SimpleAppInfo(DEFAULT_CALENDAR, DEFAULT_CALENDAR_PACKAGE),
    SimpleAppInfo(DEFAULT_CLOCK, "")]

  /** What the card hands to the assistant's calendar, clock or contacts card. */
  datatype AssistData = AssistData(word: string, app: AppInfo, shortcut: Option<ShortcutInfo>)

  /** The outcome of the matching loop: the apps shown, the data handed on, the shortcuts added to the defaults. */
  datatype Filtered = Filtered(apps: seq<AppInfo>, data: seq<AssistData>, chosen: seq<ShortcutInfo>)

  // ------------------------------------------------------------ matching

  /** An app's package matches an entry: equal to the exact package when one is set, else containing the word. */
  predicate Matches(packageName: string, entry: SimpleAppInfo)
  {
    if entry.exactPackageName != "" then packageName == entry.exactPackageName
    else Contains(packageName, entry.containingWord)
  }

  /** The index of the first app matching the entry, or -1. */
  function FirstApp(apps: seq<AppInfo>, entry: SimpleAppInfo): (r: int)
    ensures -1 <= r < |apps|
    ensures r == -1 <==> forall j :: 0 <= j < |apps| ==> !Matches(apps[j].packageName, entry)
    ensures r != -1 ==> (Matches(apps[r].packageName, entry)
      && forall j :: 0 <= j < r ==> !Matches(apps[j].packageName, entry))
  {
    if |apps| == 0 then -1
    else if Matches(apps[0].packageName, entry) then 0
    else
      var r := FirstApp(apps[1..], entry);
      assert forall j :: 1 <= j < |apps| ==> apps[j] == apps[1..][j - 1];
      if r == -1 then -1 else r + 1
  }

  /** The shortcuts of one package, in list order. */
  function ShortcutsOf(shortcuts: seq<ShortcutInfo>, packageName: string): seq<ShortcutInfo>
  {
    if |shortcuts| == 0 then []
    else
      var rest := ShortcutsOf(shortcuts[..|shortcuts| - 1], packageName);
      var last := shortcuts[|shortcuts| - 1];
      if last.packageName == packageName then rest + [last] else rest
  }

  /** `getShortcuts` keeps exactly the shortcuts of the package, each in its place. */
  lemma {:induction false} ShortcutsOfSpec(shortcuts: seq<ShortcutInfo>, packageName: string)
    ensures |ShortcutsOf(shortcuts, packageName)| <= |shortcuts|
    ensures forall s :: s in ShortcutsOf(shortcuts, packageName) <==> s in shortcuts && s.packageName == packageName
  {
    if |shortcuts| > 0 {
      var n := |shortcuts| - 1;
      ShortcutsOfSpec(shortcuts[..n], packageName);
      assert shortcuts == shortcuts[..n] + [shortcuts[n]];
    }
  }

  /** The entries that get an assistant card and a default shortcut. */
  predicate IsAssistWord(word: string)
  {
    word == DEFAULT_CALENDAR || word == DEFAULT_CLOCK || word == DEFAULT_CONTACTS
  }

  /** The id fragment the entry's shortcut must contain: a new event for the calendar, a new alarm otherwise. */
  function ShortcutKey(word: string): string
  {
    if word == DEFAULT_CALENDAR then DEFAULT_CALENDAR_NEW_EVENT else DEFAULT_CLOCK_NEW_ALARM
  }

  /**
   * The shortcut an assistant entry takes from its app's shortcuts: the
   * first one when its lower-cased id contains the key, else the only one
   * when there is exactly one, else none.
   */
  function ChooseShortcut(word: string, appShortcuts: seq<ShortcutInfo>): Option<ShortcutInfo>
  {
    var inspected :=
      if |appShortcuts| > 0 && Contains(Lower(appShortcuts[0].deepShortcutId), ShortcutKey(word))
      then Some(appShortcuts[0]) else None;
    if inspected.None? && |appShortcuts| == 1 then Some(appShortcuts[0]) else inspected
  }

  /** Only the first shortcut is ever inspected or taken; it is taken exactly when it carries the key or is alone. */
  lemma ChooseShortcutSpec(word: string, appShortcuts: seq<ShortcutInfo>)
    ensures ChooseShortcut(word, appShortcuts).Some? ==>
      |appShortcuts| > 0 && ChooseShortcut(word, appShortcuts).value == appShortcuts[0]
    ensures ChooseShortcut(word, appShortcuts).Some? <==>
      |appShortcuts| == 1
      || (|appShortcuts| > 1 && Contains(Lower(appShortcuts[0].deepShortcutId), ShortcutKey(word)))
  {
  }

  /** One entry of the matching loop. */
  function Step(prev: Filtered, apps: seq<AppInfo>, shortcuts: seq<ShortcutInfo>, entry: SimpleAppInfo): Filtered
  {
    var j := FirstApp(apps, entry);
    if j == -1 then prev
    else
      var app := apps[j];
      if IsAssistWord(entry.containingWord) then
        var c := ChooseShortcut(entry.containingWord, ShortcutsOf(shortcuts, app.packageName));
        Filtered(prev.apps + [app], prev.data + [AssistData(entry.containingWord, app, c)],
                 prev.chosen + (if c.Some? then [c.value] else []))
      else Filtered(prev.apps + [app], prev.data, prev.chosen)
  }

  /** The matching loop of `getFilteredApps` over the default entries. */
  function FilterApps(apps: seq<AppInfo>, shortcuts: seq<ShortcutInfo>, entries: seq<SimpleAppInfo>): Filtered
  {
    if |entries| == 0 then Filtered([], [], [])
    else Step(FilterApps(apps, shortcuts, entries[..|entries| - 1]), apps, shortcuts, entries[|entries| - 1])
  }

  /** The results fit together. */
  ghost predicate Coherent(r: Filtered)
  {
    |r.chosen| <= |r.data| <= |r.apps|
    && (forall k :: 0 <= k < |r.data| ==> r.data[k].app in r.apps)
    && (forall k :: 0 <= k < |r.data| && r.data[k].shortcut.Some? ==>
          r.data[k].shortcut.value.packageName == r.data[k].app.packageName
          && r.data[k].shortcut.value in r.chosen)
  }

  /** One entry adds at most one app, an installed one matching it, and keeps the results coherent. */
  lemma StepSpec(prev: Filtered, apps: seq<AppInfo>, shortcuts: seq<ShortcutInfo>, entry: SimpleAppInfo)
    requires Coherent(prev)
    ensures |Step(prev, apps, shortcuts, entry).apps| <= |prev.apps| + 1
    ensures Coherent(Step(prev, apps, shortcuts, entry))
    ensures forall a :: a in Step(prev, apps, shortcuts, entry).apps ==>
      a in prev.apps || (a in apps && Matches(a.packageName, entry))
  {
    var j := FirstApp(apps, entry);
    if j != -1 {
      var app := apps[j];
      var own := ShortcutsOf(shortcuts, app.packageName);
      var c := ChooseShortcut(entry.containingWord, own);
      ShortcutsOfSpec(shortcuts, app.packageName);
      ChooseShortcutSpec(entry.containingWord, own);
      if c.Some? {
        assert c.value in own;
      }
    }
  }

  /**
   * At most one app per entry, every shown app matches an entry, and each
   * shortcut handed on belongs to the app it comes with and joins the defaults.
   */
  lemma {:induction false} FilterAppsSpec(apps: seq<AppInfo>, shortcuts: seq<ShortcutInfo>, entries: seq<SimpleAppInfo>)
    ensures |FilterApps(apps, shortcuts, entries).apps| <= |entries|
    ensures Coherent(FilterApps(apps, shortcuts, entries))
    ensures forall a :: a in FilterApps(apps, shortcuts, entries).apps ==>
      a in apps && exists e :: e in entries && Matches(a.packageName, e)
  {
    if |entries| > 0 {
      var n := |entries| - 1;
      var prev := FilterApps(apps, shortcuts, entries[..n]);
      FilterAppsSpec(apps, shortcuts, entries[..n]);
      StepSpec(prev, apps, shortcuts, entries[n]);
      assert FilterApps(apps, shortcuts, entries) == Step(prev, apps, shortcuts, entries[n]);
      assert forall e :: e in entries[..n] ==> e in entries;
      assert entries[n] in entries;
    }
  }

  /** The number of entries that feed an assistant card. */
  function AssistEntries(entries: seq<SimpleAppInfo>): nat
  {
    if |entries| == 0 then 0
    else (AssistEntries(entries[..|entries| - 1])
      + if IsAssistWord(entries[|entries| - 1].containingWord) then 1 else 0)
  }

  /** Only calendar, clock and contacts entries hand data on, at most one item each. */
  lemma {:induction false} FilterAppsData(apps: seq<AppInfo>, shortcuts: seq<ShortcutInfo>, entries: seq<SimpleAppInfo>)
    ensures |FilterApps(apps, shortcuts, entries).data| <= AssistEntries(entries)
    ensures forall k :: 0 <= k < |FilterApps(apps, shortcuts, entries).data| ==>
      IsAssistWord(FilterApps(apps, shortcuts, entries).data[k].word)
  {
    if |entries| > 0 {
      FilterAppsData(apps, shortcuts, entries[..|entries| - 1]);
    }
  }

  /** Message and camera only add their app: of the defaults, three entries at most reach the assistant cards. */
  lemma DefaultDataEntries(apps: seq<AppInfo>, shortcuts: seq<ShortcutInfo>)
    ensures |FilterApps(apps, shortcuts, DEFAULT_APPS).data| <= 3
    ensures forall k :: 0 <= k < |FilterApps(apps, shortcuts, DEFAULT_APPS).data| ==>
      IsAssistWord(FilterApps(apps, shortcuts, DEFAULT_APPS).data[k].word)
  {
    var d := DEFAULT_APPS;
    FilterAppsData(apps, shortcuts, d);
    assert |DEFAULT_MESSAGE| == |DEFAULT_CAMERA| == 6;
    assert |DEFAULT_CALENDAR| == |DEFAULT_CONTACTS| == 8 && |DEFAULT_CLOCK| == 5;
    assert d[..1][..0] == [] && d[..2][..1] == d[..1] && d[..3][..2] == d[..2];
    assert d[..4][..3] == d[..3] && d[..5][..4] == d[..4] && d[..5] == d;
    assert AssistEntries(d[..1]) == 0;
    assert AssistEntries(d[..2]) == 1;
    assert AssistEntries(d[..3]) == 1;
    assert AssistEntries(d[..4]) == 2;
  }

  /** The default entries: five, in order, and only the calendar has an exact package. */
  lemma DefaultAppsLayout()
    ensures |DEFAULT_APPS| == 5
    ensures DEFAULT_APPS[0].containingWord == "messag" && DEFAULT_APPS[1].containingWord == "contacts"
    ensures DEFAULT_APPS[2].containingWord == "camera" && DEFAULT_APPS[3].containingWord == "calendar"
    ensures DEFAULT_APPS[4].containingWord == "clock"
    ensures forall i :: 0 <= i < 5 ==> (DEFAULT_APPS[i].exactPackageName != "" <==> i == 3)
  {
  }

  // ------------------------------------------------------------ the view

  class ShortcutAppsView {
    var defaultApps: seq<SimpleAppInfo>
    var defaultShortcuts: seq<ShortcutInfo>
    /** All apps and all deep shortcuts, as last loaded. */
    var apps: seq<AppInfo>
    var shortcuts: seq<ShortcutInfo>

    /** The constructor installs the default entries. */
    constructor ()
      ensures defaultApps == DEFAULT_APPS && defaultShortcuts == [] && apps == [] && shortcuts == []
    {
      defaultApps := DEFAULT_APPS;
      defaultShortcuts := [];
      apps := [];
      shortcuts := [];
    }

    /** `setDefaultApps`: the five entries replace whatever was there. */
    method SetDefaultApps()
      modifies this
      ensures defaultApps == DEFAULT_APPS
      ensures defaultShortcuts == old(defaultShortcuts) && apps == old(apps) && shortcuts == old(shortcuts)
    {
      defaultApps := [];
      defaultApps := defaultApps + [SimpleAppInfo(DEFAULT_MESSAGE, "")];
      defaultApps := defaultApps + [SimpleAppInfo(DEFAULT_CONTACTS, "")];
      defaultApps := defaultApps + [SimpleAppInfo(DEFAULT_CAMERA, "")];
      defaultApps := defaultApps + [SimpleAppInfo(DEFAULT_CALENDAR, DEFAULT_CALENDAR_PACKAGE)];
      defaultApps := defaultApps + [SimpleAppInfo(DEFAULT_CLOCK, "")];
    }

    /** `findShortcut`: the first shortcut with the package and id, or none. */
    method FindShortcut(shortcutId: string, packageName: string) returns (r: Option<ShortcutInfo>)
      ensures r.None? <==> FirstMatch(shortcuts, ShortcutInfo(packageName, shortcutId)) == -1
      ensures r.Some? ==> r.value == shortcuts[FirstMatch(shortcuts, ShortcutInfo(packageName, shortcutId))]
    {
      var i := 0;
      while i < |shortcuts|
        invariant 0 <= i <= |shortcuts|
        invariant forall j :: 0 <= j < i ==> !SameShortcut(shortcuts[j], ShortcutInfo(packageName, shortcutId))
      {
        var info := shortcuts[i];
        if info.packageName == packageName && info.deepShortcutId == shortcutId {
          return Some(info);
        }
        i := i + 1;
      }
      return None;
    }

    /** `getShortcuts`: the shortcuts of the app's package, in order. */
    method GetShortcuts(app: AppInfo) returns (result: seq<ShortcutInfo>)
      ensures result == ShortcutsOf(shortcuts, app.packageName)
    {
      result := [];
      var i := 0;
      while i < |shortcuts|
        invariant 0 <= i <= |shortcuts|
        invariant result == ShortcutsOf(shortcuts[..i], app.packageName)
      {
        assert shortcuts[..i + 1][..i] == shortcuts[..i];
        if shortcuts[i].packageName == app.packageName {
          result := result + [shortcuts[i]];
        }
        i := i + 1;
      }
      assert shortcuts[..i] == shortcuts;
    }

    /** The app loop of `getFilteredApps` for one entry. */
    method FindApp(entry: SimpleAppInfo) returns (j: int)
      ensures j == FirstApp(apps, entry)
    {
      j := 0;
      while j < |apps|
        invariant 0 <= j <= |apps|
        invariant forall k :: 0 <= k < j ==> !Matches(apps[k].packageName, entry)
      {
        var pkgName := apps[j].packageName;
        var found := if entry.exactPackageName != "" then pkgName == entry.exactPackageName
          else Contains(pkgName, entry.containingWord);
        if found {
          return;
        }
        j := j + 1;
      }
      return -1;
    }

    /** The shortcut loop of `getFilteredApps` for an assistant entry's app, which stops at the first shortcut. */
    method PickShortcut(word: string, app: AppInfo) returns (shortcut: Option<ShortcutInfo>)
      ensures shortcut == ChooseShortcut(word, ShortcutsOf(shortcuts, app.packageName))
    {
      var appShortcuts := GetShortcuts(app);
      shortcut := None;
      if |appShortcuts| > 0 {
        if Contains(Lower(appShortcuts[0].deepShortcutId), ShortcutKey(word)) {
          shortcut := Some(appShortcuts[0]);
        }
      }
      if shortcut.None? && |appShortcuts| == 1 {
        shortcut := Some(appShortcuts[0]);
      }
    }

    /**
     * The matching loop of `getFilteredApps`: the apps to show, and the data
     * handed to the assistant cards; chosen shortcuts join the defaults.
     */
    method GetFilteredApps() returns (filtered: seq<AppInfo>, data: seq<AssistData>)
      modifies this
      ensures var r := FilterApps(old(apps), old(shortcuts), old(defaultApps));
        filtered == r.apps && data == r.data && defaultShortcuts == old(defaultShortcuts) + r.chosen
      ensures defaultApps == old(defaultApps) && apps == old(apps) && shortcuts == old(shortcuts)
    {
      filtered, data := [], [];
      ghost var chosen: seq<ShortcutInfo> := [];
      var i := 0;
      while i < |defaultApps|
        invariant 0 <= i <= |defaultApps|
        invariant defaultApps == old(defaultApps) && apps == old(apps) && shortcuts == old(shortcuts)
        invariant FilterApps(apps, shortcuts, defaultApps[..i]) == Filtered(filtered, data, chosen)
        invariant defaultShortcuts == old(defaultShortcuts) + chosen
      {
        var entry := defaultApps[i];
        assert defaultApps[..i + 1][..i] == defaultApps[..i];
        assert FilterApps(apps, shortcuts, defaultApps[..i + 1]) == Step(Filtered(filtered, data, chosen), apps, shortcuts, entry);
        var j := FindApp(entry);
        if j != -1 {
          var app := apps[j];
          filtered := filtered + [app];
          var word := entry.containingWord;
          if word == DEFAULT_CALENDAR || word == DEFAULT_CLOCK || word == DEFAULT_CONTACTS {
            var shortcut := PickShortcut(word, app);
            data := data + [AssistData(word, app, shortcut)];
            if shortcut.Some? {
              defaultShortcuts := defaultShortcuts + [shortcut.value];
              chosen := chosen + [shortcut.value];
            }
          }
        }
        i := i + 1;
      }
      assert defaultApps[..i] == defaultApps;
    }
  }
}
