/**
 * The apps category of the search page: the installed apps whose title
 * contains the query, ignoring case. The lower-casing is Java's
 * locale-dependent `String.toLowerCase`, taken here as a parameter `lower`
 * (Common.Lower is its ASCII instance).
 */
module SearchAppsContainer {
  import opened Common
  import opened AppModel
  import opened SearchItemRecyclerViewAdapter
  import opened SearchItemContainer

  /** An app matches when its lower-cased title contains the lower-cased query. */
  predicate TitleMatches(app: AppInfo, query: string, lower: string -> string)
    ensures lower(query) == "" ==> TitleMatches(app, query, lower)
    ensures lower(app.title) == lower(query) ==> TitleMatches(app, query, lower)
  {
    assert lower(query) == "" || lower(app.title) == lower(query) ==> OccursAt(lower(app.title), lower(query), 0);
    Contains(lower(app.title), lower(query))
  }

  /** The results for `query`, in the order of the app store. */
  function SearchApps(apps: seq<AppInfo>, query: string, lower: string -> string): (r: seq<SearchItemInfo>)
    ensures |r| <= |apps|
    ensures forall k :: 0 <= k < |r| ==> r[k].SearchAppsInfo? && r[k].appInfo in apps && TitleMatches(r[k].appInfo, query, lower)
  {
    if |apps| == 0 then []
    else
      var rest := SearchApps(apps[..|apps| - 1], query, lower);
      var app := apps[|apps| - 1];
      if TitleMatches(app, query, lower) then rest + [SearchAppsInfo(app.title, app)] else rest
  }

  /** Exactly the matching apps are found, each carrying its title and itself; no more results than apps. */
  lemma {:induction false} SearchAppsMembers(apps: seq<AppInfo>, query: string, lower: string -> string)
    ensures |SearchApps(apps, query, lower)| <= |apps|
    ensures forall r :: r in SearchApps(apps, query, lower) <==>
      exists a :: a in apps && TitleMatches(a, query, lower) && r == SearchAppsInfo(a.title, a)
  {
    if |apps| > 0 {
      var n := |apps| - 1;
      SearchAppsMembers(apps[..n], query, lower);
      assert apps == apps[..n] + [apps[n]];
    }
  }

  /** Results keep the store's order: searching a longer store only appends the new apps' results. */
  lemma {:induction false} SearchAppsAppend(apps: seq<AppInfo>, more: seq<AppInfo>, query: string, lower: string -> string)
    ensures SearchApps(apps + more, query, lower) == SearchApps(apps, query, lower) + SearchApps(more, query, lower)
    decreases |more|
  {
    if |more| > 0 {
      var m := |more| - 1;
      SearchAppsAppend(apps, more[..m], query, lower);
      assert (apps + more)[..|apps + more| - 1] == apps + more[..m];
      assert more == more[..m] + [more[m]];
    } else {
      assert apps + more == apps;
    }
  }

  /** The empty query finds every app (lower-casing the empty string gives the empty string). */
  lemma {:induction false} EmptyQueryFindsAll(apps: seq<AppInfo>, lower: string -> string)
    requires lower("") == ""
    ensures |SearchApps(apps, "", lower)| == |apps|
  {
    if |apps| > 0 {
      EmptyQueryFindsAll(apps[..|apps| - 1], lower);
      assert OccursAt(lower(apps[|apps| - 1].title), lower(""), 0);
    }
  }

  /** `doSearch` over the app store's apps, for the category's current query. */
  method DoSearch(c: SearchItemContainer, apps: seq<AppInfo>, lower: string -> string)
    modifies c, c.adapter
    ensures c.itemInfoList == SearchApps(apps, old(c.query), lower) && c.loadFinished
    ensures c.query == old(c.query) && c.expanded == old(c.expanded)
    ensures c.visible <==> |SearchApps(apps, old(c.query), lower)| > 0
  {
    var resultList: seq<SearchItemInfo> := [];
    var i := 0;
    while i < |apps|
      invariant 0 <= i <= |apps| && resultList == SearchApps(apps[..i], c.query, lower)
    {
      assert apps[..i + 1][..i] == apps[..i];
      var appTitle := apps[i].title;
      if Contains(lower(appTitle), lower(c.query)) {
        resultList := resultList + [SearchAppsInfo(appTitle, apps[i])];
      }
      i := i + 1;
    }
    assert apps[..i] == apps;
    c.UpdateSearchResult(resultList);
  }
}
