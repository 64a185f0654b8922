/**
 * One category of search results on the assistant's search page: the
 * query it searched for, its results, whether its search has finished, and
 * the collapsed (3 results) or expanded (10 results) list it shows.
 */
module SearchItemContainer {
  import opened Common
  import opened SearchItemRecyclerViewAdapter

  const SHOW_RESULT_COUNT_ON_LESS: nat := 3
  const SHOW_RESULT_MAX_COUNT: nat := 10

  /** How many results are shown, expanded or not. */
  function ShowingCount(size: nat, showMore: bool): (r: nat)
    ensures r <= size
    ensures r <= (if showMore then SHOW_RESULT_MAX_COUNT else SHOW_RESULT_COUNT_ON_LESS)
    ensures r == size || r == (if showMore then SHOW_RESULT_MAX_COUNT else SHOW_RESULT_COUNT_ON_LESS)
  {
    if showMore then Min(size, SHOW_RESULT_MAX_COUNT) else Min(size, SHOW_RESULT_COUNT_ON_LESS)
  }

  /** The collapsed list is the start of the expanded one. */
  lemma CollapsedIsPrefixOfExpanded(items: seq<SearchItemInfo>)
    ensures items[..ShowingCount(|items|, false)] <= items[..ShowingCount(|items|, true)]
  {
  }

  /**
   * `getExpectedRecyclerViewHeight` for `itemCount` rows of results, with
   * the item and divider heights as parameters: nothing for no results,
   * else each result and the dividers between them.
   */
  function ExpectedHeight(itemCount: nat, itemHeight: nat, dividerHeight: nat): nat
  {
    if itemCount == 0 then 0 else itemCount * itemHeight + (itemCount - 1) * dividerHeight
  }

  /** The expected height is the sum of the heights of the rows the adapter creates for that many results. */
  lemma HeightMatchesRows(n: nat, itemHeight: nat, dividerHeight: nat)
    ensures ExpectedHeight(n, itemHeight, dividerHeight)
      == n * itemHeight + (ItemCount(n) - n) * dividerHeight
  {
  }

  /** One search category. */
  class SearchItemContainer {
    var query: string
    var itemInfoList: seq<SearchItemInfo>
    var loadFinished: bool
    var expanded: bool
    var visible: bool
    var expandButtonVisible: bool
    /** The height the list is laid out at, and the height an expand / collapse animates to. */
    var recyclerHeight: nat
    var targetHeight: nat
    /** The list handed to the adapter when the collapse animation ends. */
    var pending: Option<seq<SearchItemInfo>>
    const itemHeight: nat
    const dividerHeight: nat
    const adapter: SearchItemAdapter

    constructor (itemH: nat, dividerH: nat)
      ensures query == "" && itemInfoList == [] && loadFinished && !expanded
      ensures itemHeight == itemH && dividerHeight == dividerH && pending.None?
      ensures fresh(adapter) && adapter.itemInfoList == [] && adapter.query == ""
    {
      query := "";
      itemInfoList := [];
      loadFinished := true;
      expanded := false;
      visible := true;
      expandButtonVisible := false;
      recyclerHeight := 0;
      targetHeight := 0;
      pending := None;
      itemHeight := itemH;
      dividerHeight := dividerH;
      adapter := new SearchItemAdapter();
    }

    /** `getDisplayingInfoList`: the first 10 results when `showMore`, else the first 3. */
    method GetDisplayingInfoList(showMore: bool) returns (result: seq<SearchItemInfo>)
      ensures |result| == ShowingCount(|itemInfoList|, showMore)
      ensures result == itemInfoList[..|result|]
    {
      var showingItemCount := if showMore then Min(|itemInfoList|, SHOW_RESULT_MAX_COUNT)
        else Min(|itemInfoList|, SHOW_RESULT_COUNT_ON_LESS);
      result := [];
      var i := 0;
      while i < showingItemCount
        invariant 0 <= i <= showingItemCount && result == itemInfoList[..i]
      {
        result := result + [itemInfoList[i]];
        i := i + 1;
      }
    }

    /** `onQueryChanged`: keep the query and mark the search unfinished; the search itself is posted. */
    method OnQueryChanged(q: string)
      modifies this
      ensures query == q && !loadFinished
      ensures itemInfoList == old(itemInfoList) && expanded == old(expanded) && visible == old(visible)
      ensures expandButtonVisible == old(expandButtonVisible) && pending == old(pending)
      ensures recyclerHeight == old(recyclerHeight) && targetHeight == old(targetHeight)
    {
      query := q;
      loadFinished := false;
    }

    /** `updateExpandButtonVisibility`: the button shows when there are more results than the collapsed list holds. */
    method UpdateExpandButtonVisibility()
      modifies this
      ensures expandButtonVisible <==> |itemInfoList| > SHOW_RESULT_COUNT_ON_LESS
      ensures query == old(query) && itemInfoList == old(itemInfoList) && loadFinished == old(loadFinished)
      ensures expanded == old(expanded) && visible == old(visible) && pending == old(pending)
      ensures recyclerHeight == old(recyclerHeight) && targetHeight == old(targetHeight)
    {
      expandButtonVisible := |itemInfoList| > SHOW_RESULT_COUNT_ON_LESS;
    }

    /**
     * `updateSearchResult`: keep the results and mark the search finished;
     * hide the category when there are none, else show the list for the
     * current expansion and size it.
     */
    method UpdateSearchResult(list: seq<SearchItemInfo>)
      modifies this, adapter
      ensures itemInfoList == list && loadFinished && query == old(query) && expanded == old(expanded)
      ensures visible <==> |list| > 0
      ensures |list| == 0 ==> (adapter.itemInfoList == old(adapter.itemInfoList)
        && expandButtonVisible == old(expandButtonVisible) && recyclerHeight == old(recyclerHeight))
      ensures |list| > 0 ==> (expandButtonVisible <==> |list| > SHOW_RESULT_COUNT_ON_LESS)
      ensures |list| > 0 ==> adapter.itemInfoList == list[..ShowingCount(|list|, expanded)] && adapter.query == query
      ensures |list| > 0 ==> recyclerHeight == ExpectedHeight(ShowingCount(|list|, expanded), itemHeight, dividerHeight)
      ensures pending == old(pending) && targetHeight == old(targetHeight)
    {
      itemInfoList := list;
      loadFinished := true;
      if |list| == 0 {
        visible := false;
        return;
      }
      visible := true;
      UpdateExpandButtonVisibility();
      var resultList := GetDisplayingInfoList(expanded);
      adapter.UpdateItemInfoList(resultList, query);
      recyclerHeight := ExpectedHeight(|resultList|, itemHeight, dividerHeight);
    }

    /**
     * `showExpand`: flip the expansion. Expanding hands the longer list to
     * the adapter at once; collapsing hands the shorter one over when the
     * animation ends. Either way the list animates to the new list's height.
     */
    method ShowExpand()
      modifies this, adapter
      ensures expanded == !old(expanded)
      ensures targetHeight == ExpectedHeight(ShowingCount(|itemInfoList|, expanded), itemHeight, dividerHeight)
      ensures expanded ==> (adapter.itemInfoList == itemInfoList[..ShowingCount(|itemInfoList|, true)]
        && adapter.query == query && pending.None?)
      ensures !expanded ==> (adapter.itemInfoList == old(adapter.itemInfoList) && adapter.query == old(adapter.query)
        && pending == Some(itemInfoList[..ShowingCount(|itemInfoList|, false)]))
      ensures query == old(query) && itemInfoList == old(itemInfoList) && loadFinished == old(loadFinished)
      ensures visible == old(visible) && expandButtonVisible == old(expandButtonVisible)
    {
      expanded := !expanded;
      var resultList := GetDisplayingInfoList(expanded);
      if expanded {
        adapter.UpdateItemInfoList(resultList, query);
        pending := None;
      } else {
        pending := Some(resultList);
      }
      targetHeight := ExpectedHeight(|resultList|, itemHeight, dividerHeight);
    }

    /** The end of the expand / collapse animation: a deferred list reaches the adapter. */
    method ExpandAnimationEnd()
      modifies this, adapter
      ensures old(pending).Some? ==> adapter.itemInfoList == old(pending).value && adapter.query == query
      ensures old(pending).None? ==> adapter.itemInfoList == old(adapter.itemInfoList) && adapter.query == old(adapter.query)
      ensures pending.None? && recyclerHeight == targetHeight
      ensures query == old(query) && itemInfoList == old(itemInfoList) && loadFinished == old(loadFinished)
      ensures expanded == old(expanded) && visible == old(visible) && expandButtonVisible == old(expandButtonVisible)
    {
      if pending.Some? {
        adapter.UpdateItemInfoList(pending.value, query);
      }
      pending := None;
      recyclerHeight := targetHeight;
    }

    /** `noResult`. */
    predicate NoResult()
      reads this
    {
      |itemInfoList| == 0
    }
  }

  /** Expanding then collapsing leaves the adapter, once the animation has ended, with the collapsed list again. */
  method ExpandCollapseRoundTrip(c: SearchItemContainer)
    requires !c.expanded && c.adapter.itemInfoList == c.itemInfoList[..ShowingCount(|c.itemInfoList|, false)]
    requires c.adapter.query == c.query
    modifies c, c.adapter
    ensures !c.expanded && c.adapter.itemInfoList == old(c.adapter.itemInfoList) && c.adapter.query == old(c.adapter.query)
  {
    c.ShowExpand();
    c.ExpandAnimationEnd();
    c.ShowExpand();
    c.ExpandAnimationEnd();
  }
}
