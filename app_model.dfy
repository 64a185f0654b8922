/**
 * The app and shortcut records the folder dialog and the assistant page
 * work on, reduced to the fields those views compare and show.
 */
module AppModel {

  /** An app of the all-apps list: its package and its title. */
  datatype AppInfo = AppInfo(packageName: string, title: string)

  /** A deep shortcut: the package it belongs to and its shortcut id. */
  datatype ShortcutInfo = ShortcutInfo(packageName: string, deepShortcutId: string)

  /** Two shortcut records stand for the same shortcut when id and package are equal. */
  predicate SameShortcut(a: ShortcutInfo, b: ShortcutInfo)
  {
    a.deepShortcutId == b.deepShortcutId && a.packageName == b.packageName
  }

  /** The index of the first record in `list` standing for the same shortcut as `info`, or -1. */
  function FirstMatch(list: seq<ShortcutInfo>, info: ShortcutInfo): (r: int)
    ensures -1 <= r < |list|
    ensures r == -1 <==> forall j :: 0 <= j < |list| ==> !SameShortcut(list[j], info)
    ensures r != -1 ==> SameShortcut(list[r], info) && forall j :: 0 <= j < r ==> !SameShortcut(list[j], info)
  {
    if |list| == 0 then -1
    else if SameShortcut(list[0], info) then 0
    else
      var r := FirstMatch(list[1..], info);
      assert forall j :: 1 <= j < |list| ==> list[j] == list[1..][j - 1];
      if r == -1 then -1 else r + 1
  }
}
