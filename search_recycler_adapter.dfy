/**
 * The search page's single row: it holds every search category of the
 * result layout and, once all have finished, shows the "no result" view
 * when none of them found anything.
 */
module SearchRecyclerViewAdapter {
  import opened SearchItemContainer

  /** A child of the result layout: a search category or some other view. */
  datatype LayoutChild = ContainerChild(container: SearchItemContainer) | OtherChild

  /** The adapter has one row, the whole result layout. */
  const ITEM_COUNT: nat := 1

  /** The search categories among the children, in child order. */
  function ContainersOf(children: seq<LayoutChild>): seq<SearchItemContainer>
  {
    if |children| == 0 then []
    else
      var rest := ContainersOf(children[..|children| - 1]);
      match children[|children| - 1]
      case ContainerChild(c) => rest + [c]
      case OtherChild => rest
  }

  /** Exactly the categories among the children are collected, and adding children only appends. */
  lemma {:induction false} ContainersOfSpec(children: seq<LayoutChild>, more: seq<LayoutChild>)
    ensures forall c :: c in ContainersOf(children) <==> ContainerChild(c) in children
    ensures ContainersOf(children + more) == ContainersOf(children) + ContainersOf(more)
    decreases |more|, |children|
  {
    if |children| > 0 {
      var n := |children| - 1;
      ContainersOfSpec(children[..n], []);
      assert children == children[..n] + [children[n]];
    }
    if |more| > 0 {
      var m := |more| - 1;
      ContainersOfSpec(children, more[..m]);
      assert (children + more)[..|children + more| - 1] == children + more[..m];
      assert more == more[..m] + [more[m]];
    } else {
      assert children + more == children;
    }
  }

  /** The holder of the result layout. */
  class ViewHolder {
    var containers: seq<SearchItemContainer>
    var emptyViewVisible: bool

    /** The holder collects the search categories among the layout's children. */
    constructor (children: seq<LayoutChild>)
      ensures containers == ContainersOf(children) && !emptyViewVisible
    {
      var collected: seq<SearchItemContainer> := [];
      var i := 0;
      while i < |children|
        invariant 0 <= i <= |children| && collected == ContainersOf(children[..i])
      {
        assert children[..i + 1][..i] == children[..i];
        if children[i].ContainerChild? {
          collected := collected + [children[i].container];
        }
        i := i + 1;
      }
      assert children[..i] == children;
      containers := collected;
      emptyViewVisible := false;
    }

    /** Every category has finished its search. */
    ghost predicate AllFinished()
      reads this, containers
    {
      forall i :: 0 <= i < |containers| ==> containers[i].loadFinished
    }

    /** No category found anything. */
    ghost predicate NoResult()
      reads this, containers
    {
      forall i :: 0 <= i < |containers| ==> |containers[i].itemInfoList| == 0
    }

    /**
     * `searchResultLoaded`: nothing until every category has finished; then
     * the "no result" view shows exactly when none found anything.
     */
    method SearchResultLoaded()
      modifies this
      ensures containers == old(containers)
      ensures !AllFinished() ==> emptyViewVisible == old(emptyViewVisible)
      ensures AllFinished() ==> (emptyViewVisible <==> NoResult())
    {
      var i := 0;
      while i < |containers|
        invariant 0 <= i <= |containers|
        invariant forall k :: 0 <= k < i ==> containers[k].loadFinished
      {
        if !containers[i].loadFinished {
          return;
        }
        i := i + 1;
      }
      var noResult := true;
      i := 0;
      while i < |containers|
        invariant 0 <= i <= |containers|
        invariant noResult <==> forall k :: 0 <= k < i ==> |containers[k].itemInfoList| == 0
      {
        if |containers[i].itemInfoList| != 0 {
          noResult := false;
          break;
        }
        i := i + 1;
      }
      emptyViewVisible := noResult;
    }
  }
}
