/**
 * The list of one search category's results: results at the even rows,
 * dividers between them at the odd rows.
 */
module SearchItemRecyclerViewAdapter {
  import opened Common
  import opened AppModel

  /** One search result: an app found by its title, or a result of another category. */
  datatype SearchItemInfo = SearchAppsInfo(title: string, appInfo: AppInfo) | OtherInfo(title: string)

  const VIEW_TYPE_SEARCH_RESULT_ITEM: int := 0
  const VIEW_TYPE_DIVIDER: int := 1

  /** `getItemViewType`: results at even rows, dividers at odd rows. */
  function ViewType(position: nat): (r: int)
    ensures r == VIEW_TYPE_SEARCH_RESULT_ITEM || r == VIEW_TYPE_DIVIDER
    ensures r == VIEW_TYPE_SEARCH_RESULT_ITEM <==> position % 2 == 0
  {
    if position % 2 == 0 then VIEW_TYPE_SEARCH_RESULT_ITEM else VIEW_TYPE_DIVIDER
  }

  /** `getItemCount`: no rows for no results, else each result and a divider between neighbours. */
  function ItemCount(n: nat): (r: nat)
    ensures r == 0 <==> n == 0
    ensures n > 0 ==> r == n + (n - 1) && r % 2 == 1
  {
    if n == 0 then 0 else 2 * n - 1
  }

  /** The result a row shows, or none for a divider. */
  function Bound(list: seq<SearchItemInfo>, position: nat): (r: Option<SearchItemInfo>)
    requires position < ItemCount(|list|)
  {
    if ViewType(position) == VIEW_TYPE_DIVIDER then None else Some(list[position / 2])
  }

  /**
   * The rows show every result exactly once, in order: result i is at row
   * 2i, and each result row shows a result and no other row does.
   */
  lemma RowsShowEachResultOnce(list: seq<SearchItemInfo>)
    ensures forall i :: 0 <= i < |list| ==> 2 * i < ItemCount(|list|) && Bound(list, 2 * i) == Some(list[i])
    ensures forall p :: 0 <= p < ItemCount(|list|) ==>
      (Bound(list, p).Some? <==> p % 2 == 0) && (Bound(list, p).Some? ==> Bound(list, p).value == list[p / 2])
    ensures forall p, q :: 0 <= p < q < ItemCount(|list|) && p % 2 == 0 && q % 2 == 0 ==> p / 2 < q / 2
  {
    forall i | 0 <= i < |list|
      ensures 2 * i < ItemCount(|list|) && Bound(list, 2 * i) == Some(list[i])
    {
      assert (2 * i) % 2 == 0 && (2 * i) / 2 == i;
    }
    forall p, q | 0 <= p < q < ItemCount(|list|) && p % 2 == 0 && q % 2 == 0
      ensures p / 2 < q / 2
    {
      HalfOfEven(p);
      HalfOfEven(q);
    }
  }

  /** An even number is twice its half. */
  lemma HalfOfEven(p: nat)
    requires p % 2 == 0
    ensures p == 2 * (p / 2)
  {
  }

  /** The rows alternate, begin and end with a result: dividers number one fewer than results. */
  lemma DividersBetweenResults(n: nat)
    requires n > 0
    ensures ViewType(0) == VIEW_TYPE_SEARCH_RESULT_ITEM && ViewType(ItemCount(n) - 1) == VIEW_TYPE_SEARCH_RESULT_ITEM
    ensures ItemCount(n) - n == n - 1
  {
    assert (2 * n - 2) % 2 == 0;
  }

  /** The adapter of one search category. */
  class SearchItemAdapter {
    var itemInfoList: seq<SearchItemInfo>
    var query: string

    constructor ()
      ensures itemInfoList == [] && query == ""
    {
      itemInfoList := [];
      query := "";
    }

    /** `updateItemInfoList`: the list and the highlighted query are both replaced. */
    method UpdateItemInfoList(list: seq<SearchItemInfo>, q: string)
      modifies this
      ensures itemInfoList == list && query == q
    {
      itemInfoList := list;
      query := q;
    }

    /** `onBindViewHolder`: what the row at `position` shows. */
    method BindViewHolder(position: nat) returns (r: Option<SearchItemInfo>)
      requires position < ItemCount(|itemInfoList|)
      ensures r == Bound(itemInfoList, position)
      ensures r.Some? <==> position % 2 == 0
    {
      if ViewType(position) == VIEW_TYPE_DIVIDER {
        return None;
      }
      var index := position / 2;
      r := Some(itemInfoList[index]);
    }
  }
}
