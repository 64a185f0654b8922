/**
 * The mask an icon pack lays over icons it has no drawing for: lists of
 * background, mask and overlay images, of which only those the pack really
 * ships count, and the choice of one image per list by the app's hash.
 */
module IconMask {
  import opened Common

  /** A mask image of the pack, named by its drawable. */
  datatype Entry = Entry(drawableName: string)

  /** An image is available when the pack's icon folder holds `<name>.png`. */
  predicate IsAvailable(e: Entry, icons: set<string>)
  {
    e.drawableName + ".png" in icons
  }

  /** The available entries of `list`, in order (the lazy `validBacks`, `validMasks`, `validUpons`). */
  function ValidEntries(list: seq<Entry>, icons: set<string>): (r: seq<Entry>)
    ensures |r| <= |list|
    ensures forall k :: 0 <= k < |r| ==> r[k] in list && IsAvailable(r[k], icons)
  {
    if |list| == 0 then []
    else
      var rest := ValidEntries(list[..|list| - 1], icons);
      if IsAvailable(list[|list| - 1], icons) then rest + [list[|list| - 1]] else rest
  }

  /** The valid list holds exactly the available entries of the list, and no more entries than it. */
  lemma {:induction false} ValidEntriesSpec(list: seq<Entry>, icons: set<string>)
    ensures |ValidEntries(list, icons)| <= |list|
    ensures forall e :: e in ValidEntries(list, icons) <==> e in list && IsAvailable(e, icons)
  {
    if |list| > 0 {
      var n := |list| - 1;
      ValidEntriesSpec(list[..n], icons);
      assert list == list[..n] + [list[n]];
    }
  }

  /** Filtering keeps the order: the valid entries of a longer list only add those of the added part. */
  lemma {:induction false} ValidEntriesAppend(list: seq<Entry>, more: seq<Entry>, icons: set<string>)
    ensures ValidEntries(list + more, icons) == ValidEntries(list, icons) + ValidEntries(more, icons)
    decreases |more|
  {
    if |more| > 0 {
      var m := |more| - 1;
      ValidEntriesAppend(list, more[..m], icons);
      assert (list + more)[..|list + more| - 1] == list + more[..m];
    } else {
      assert list + more == list;
    }
  }

  /** A list whose entries are all available is kept whole, in its order. */
  lemma {:induction false} AllAvailableKept(list: seq<Entry>, icons: set<string>)
    requires forall i :: 0 <= i < |list| ==> IsAvailable(list[i], icons)
    ensures ValidEntries(list, icons) == list
  {
    if |list| > 0 {
      AllAvailableKept(list[..|list| - 1], icons);
      assert list[..|list| - 1] + [list[|list| - 1]] == list;
    }
  }

  /** `hasMask`: some valid list is non-empty. */
  predicate HasMask(backs: seq<Entry>, masks: seq<Entry>, upons: seq<Entry>, icons: set<string>)
    ensures HasMask(backs, masks, upons, icons) ==> exists e :: (e in backs || e in masks || e in upons) && IsAvailable(e, icons)
  {
    var b, m, u := ValidEntries(backs, icons), ValidEntries(masks, icons), ValidEntries(upons, icons);
    assert |b| > 0 ==> b[0] in backs && IsAvailable(b[0], icons);
    assert |m| > 0 ==> m[0] in masks && IsAvailable(m[0], icons);
    assert |u| > 0 ==> u[0] in upons && IsAvailable(u[0], icons);
    |b| > 0 || |m| > 0 || |u| > 0
  }

  /** There is a mask exactly when one of the three lists names an image the pack ships. */
  lemma HasMaskSpec(backs: seq<Entry>, masks: seq<Entry>, upons: seq<Entry>, icons: set<string>)
    ensures HasMask(backs, masks, upons, icons) <==>
      exists e :: (e in backs || e in masks || e in upons) && IsAvailable(e, icons)
  {
    ValidEntriesSpec(backs, icons);
    ValidEntriesSpec(masks, icons);
    ValidEntriesSpec(upons, icons);
    if HasMask(backs, masks, upons, icons) {
      var valid := if |ValidEntries(backs, icons)| > 0 then ValidEntries(backs, icons)
        else if |ValidEntries(masks, icons)| > 0 then ValidEntries(masks, icons)
        else ValidEntries(upons, icons);
      assert valid[0] in valid;
    }
  }

  /** Java's `Math.abs` on an `int`: the minimum value has no positive counterpart and stays negative. */
  function JavaAbs(h: int): (r: int)
    requires IsInt32(h)
    ensures h != INT_MIN ==> r >= 0 && (r == h || r == -h)
    ensures h == INT_MIN ==> r < 0
  {
    if h == INT_MIN then INT_MIN else if h < 0 then -h else h
  }

  /** The index `getFromList` reads, as written: `Math.abs(hash) % size`. */
  function AsWrittenIndex(hash: int, size: nat): (i: int)
    requires IsInt32(hash) && size > 0
    ensures -(size as int) < i < size
  {
    JavaRem(JavaAbs(hash), size)
  }

  /** A key whose hash is the `int` minimum, with a list of three images, reads index -2. */
  lemma AsWrittenMinHashIsNegative()
    ensures AsWrittenIndex(INT_MIN, 3) == -2
  {
    assert JavaRem(INT_MIN, 3) == -((0x8000_0000) % 3);
  }

  /** The index taken the other way round, `Math.abs(hash % size)`, which is always a valid index. */
  function ListIndex(hash: int, size: nat): (i: int)
    requires size > 0
    ensures 0 <= i < size
  {
    var rem := JavaRem(hash, size);
    if rem < 0 then -rem else rem
  }

  /** For every hash but the minimum, the corrected index is the one the source reads. */
  lemma ListIndexAgrees(hash: int, size: nat)
    requires IsInt32(hash) && hash != INT_MIN && size > 0
    ensures ListIndex(hash, size) == AsWrittenIndex(hash, size)
  {
  }

  /**
   * `getFromList`: nothing from an empty list; otherwise the element the
   * key's hash picks (`hash` is the key's `hashCode`, 0 for a null key).
   */
  function GetFromList<T>(list: seq<T>, hash: int): (r: Option<T>)
    ensures r.None? <==> |list| == 0
    ensures r.Some? ==> r.value in list
  {
    if |list| == 0 then None else Some(list[ListIndex(hash, |list|)])
  }

  /** Where the source's index is valid, the picked element is the one it reads. */
  lemma GetFromListAsWritten<T>(list: seq<T>, hash: int)
    requires |list| > 0 && IsInt32(hash) && hash != INT_MIN
    ensures 0 <= AsWrittenIndex(hash, |list|) < |list|
    ensures GetFromList(list, hash) == Some(list[AsWrittenIndex(hash, |list|)])
  {
    ListIndexAgrees(hash, |list|);
  }

  /** The images one icon is drawn with: a background, a mask and an overlay, each possibly absent. */
  datatype Layers = Layers(back: Option<Entry>, mask: Option<Entry>, upon: Option<Entry>)

  /** The layers `getIcon` picks from the valid lists for a key. */
  function ChooseLayers(backs: seq<Entry>, masks: seq<Entry>, upons: seq<Entry>, icons: set<string>, hash: int): Layers
  {
    Layers(GetFromList(ValidEntries(backs, icons), hash),
           GetFromList(ValidEntries(masks, icons), hash),
           GetFromList(ValidEntries(upons, icons), hash))
  }

  /** Each chosen layer is an available image of its own list, and some layer is chosen exactly when there is a mask. */
  lemma ChooseLayersSpec(backs: seq<Entry>, masks: seq<Entry>, upons: seq<Entry>, icons: set<string>, hash: int)
    ensures var l := ChooseLayers(backs, masks, upons, icons, hash);
      (l.back.Some? ==> l.back.value in backs && IsAvailable(l.back.value, icons))
      && (l.mask.Some? ==> l.mask.value in masks && IsAvailable(l.mask.value, icons))
      && (l.upon.Some? ==> l.upon.value in upons && IsAvailable(l.upon.value, icons))
      && ((l.back.Some? || l.mask.Some? || l.upon.Some?) <==> HasMask(backs, masks, upons, icons))
  {
    ValidEntriesSpec(backs, icons);
    ValidEntriesSpec(masks, icons);
    ValidEntriesSpec(upons, icons);
  }

  /** The mask state a pack fills while it is parsed. */
  class IconMask {
    var onlyMaskLegacy: bool
    var iconBackEntries: seq<Entry>
    var iconMaskEntries: seq<Entry>
    var iconUponEntries: seq<Entry>

    /** A new mask has no images and masks every icon. */
    constructor ()
      ensures !onlyMaskLegacy && iconBackEntries == [] && iconMaskEntries == [] && iconUponEntries == []
    {
      onlyMaskLegacy := false;
      iconBackEntries := [];
      iconMaskEntries := [];
      iconUponEntries := [];
    }

    /** `hasMask` for the pack's shipped icons. */
    predicate Present(icons: set<string>)
      reads this
    {
      HasMask(iconBackEntries, iconMaskEntries, iconUponEntries, icons)
    }
  }
}
