/**
 * The phone-number list of the call / message popup: a divider before each
 * number, so numbers at the odd rows.
 */
module PhoneItemRecyclerViewAdapter {
  import opened Common
  import opened SearchItemRecyclerViewAdapter

  /** `getItemViewType`: numbers at odd rows, dividers at even rows, the reverse of the search lists. */
  function PhoneViewType(position: nat): (r: int)
    ensures r == VIEW_TYPE_SEARCH_RESULT_ITEM || r == VIEW_TYPE_DIVIDER
    ensures r != ViewType(position)
  {
    if position % 2 == 1 then VIEW_TYPE_SEARCH_RESULT_ITEM else VIEW_TYPE_DIVIDER
  }

  /** `getItemCount`: two rows per number. */
  function PhoneItemCount(n: nat): (r: nat)
    ensures r == n + n && r % 2 == 0
    ensures n > 0 ==> r == ItemCount(n) + 1
  {
    if n == 0 then 0 else 2 * n
  }

  /** The action label a number row carries: popup type 1 calls, any other sends a message. */
  function ActionLabel(popupType: int): (r: string)
    ensures r == "call" <==> popupType == 1
    ensures r == "message" <==> popupType != 1
  {
    if popupType == 1 then "call" else "message"
  }

  /** The number a row shows, or none for a divider. */
  function PhoneBound(phones: seq<SearchItemInfo>, position: nat): Option<SearchItemInfo>
    requires position < PhoneItemCount(|phones|)
  {
    if PhoneViewType(position) == VIEW_TYPE_DIVIDER then None else Some(phones[position / 2])
  }

  /** Row 2i+1 shows number i; the number rows map onto the numbers one to one, in order. */
  lemma RowsShowEachNumberOnce(phones: seq<SearchItemInfo>)
    ensures forall i :: 0 <= i < |phones| ==>
      2 * i + 1 < PhoneItemCount(|phones|) && PhoneBound(phones, 2 * i + 1) == Some(phones[i])
    ensures forall p :: 0 <= p < PhoneItemCount(|phones|) ==>
      (PhoneBound(phones, p).Some? <==> p % 2 == 1) && (PhoneBound(phones, p).Some? ==> PhoneBound(phones, p).value == phones[p / 2])
    ensures forall p, q :: 0 <= p < q < PhoneItemCount(|phones|) && p % 2 == 1 && q % 2 == 1 ==> p / 2 < q / 2
  {
    forall i | 0 <= i < |phones|
      ensures 2 * i + 1 < PhoneItemCount(|phones|) && PhoneBound(phones, 2 * i + 1) == Some(phones[i])
    {
      assert (2 * i + 1) % 2 == 1 && (2 * i + 1) / 2 == i;
    }
    forall p, q | 0 <= p < q < PhoneItemCount(|phones|) && p % 2 == 1 && q % 2 == 1
      ensures p / 2 < q / 2
    {
      assert p == 2 * (p / 2) + 1 && q == 2 * (q / 2) + 1;
    }
  }

  /** Opposite parity to the search lists, and one row more than a search list of the same length. */
  lemma ParityOppositeToSearch(n: nat, position: nat)
    requires n > 0
    ensures PhoneViewType(position) != ViewType(position)
    ensures PhoneItemCount(n) == ItemCount(n) + 1
  {
  }

  /** The adapter of the popup's phone list. */
  class PhoneItemAdapter {
    var phoneList: seq<SearchItemInfo>
    var popupType: int

    constructor (phones: seq<SearchItemInfo>, kind: int)
      ensures phoneList == phones && popupType == kind
    {
      phoneList := phones;
      popupType := kind;
    }

    /** `onBindViewHolder`: the number and action label the row at `position` shows. */
    method BindViewHolder(position: nat) returns (r: Option<(SearchItemInfo, string)>)
      requires position < PhoneItemCount(|phoneList|)
      ensures r.None? <==> PhoneBound(phoneList, position).None?
      ensures r.Some? ==> r.value == (PhoneBound(phoneList, position).value, ActionLabel(popupType))
    {
      if PhoneViewType(position) == VIEW_TYPE_DIVIDER {
        return None;
      }
      var index := position / 2;
      r := Some((phoneList[index], if popupType == 1 then "call" else "message"));
    }
  }
}
