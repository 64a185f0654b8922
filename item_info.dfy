/**
 * The launcher's item record: an app, shortcut, folder or widget with its
 * container, screen, cell, span and rank; copying one record into another,
 * writing the persisted columns to a row of values and reading them back.
 */
module ItemInfo {
  import opened Common

  const NO_ID: int := -1

  // LauncherSettings and Workspace are not part of this model; these are
  // the values Launcher3 gives the two containers and the extra empty screen.
  const CONTAINER_DESKTOP: int := -100
  const CONTAINER_HOTSEAT: int := -101
  const EXTRA_EMPTY_SCREEN_ID: int := -201

  /** The columns of the favorites table an item writes (their names are LauncherSettings constants). */
  datatype Column = ITEM_TYPE | CONTAINER | SCREEN | CELLX | CELLY | SPANX | SPANY | RANK | PROFILE_ID

  /** A row of column values, as a content writer or `ContentValues` holds them. */
  type Values = map<Column, int>

  /** The eight columns an item persists. */
  datatype Persisted = Persisted(
    itemType: int, container: int, screenId: int,
    cellX: int, cellY: int, spanX: int, spanY: int, rank: int)

  /** `writeToValues`: the eight columns put into the row, other columns kept. */
  function WriteColumns(p: Persisted, values: Values): (r: Values)
    ensures r.Keys == values.Keys + {ITEM_TYPE, CONTAINER, SCREEN, CELLX, CELLY, SPANX, SPANY, RANK}
    ensures forall k :: k in values && k !in {ITEM_TYPE, CONTAINER, SCREEN, CELLX, CELLY, SPANX, SPANY, RANK} ==>
      r[k] == values[k]
  {
    values[ITEM_TYPE := p.itemType][CONTAINER := p.container][SCREEN := p.screenId]
      [CELLX := p.cellX][CELLY := p.cellY][SPANX := p.spanX][SPANY := p.spanY][RANK := p.rank]
  }

  /**
   * `readFromValues`: the eight columns read back; a missing column reads as
   * null and its unboxing throws.
   */
  function ReadColumns(values: Values): (r: Option<Persisted>)
    ensures r.Some? <==> HasColumns(values)
  {
    if HasColumns(values)
    then Some(Persisted(values[ITEM_TYPE], values[CONTAINER], values[SCREEN], values[CELLX],
                        values[CELLY], values[SPANX], values[SPANY], values[RANK]))
    else None
  }

  /** The row holds all eight persisted columns. */
  predicate HasColumns(values: Values)
  {
    ITEM_TYPE in values && CONTAINER in values && SCREEN in values && CELLX in values
      && CELLY in values && SPANX in values && SPANY in values && RANK in values
  }

  /** A row reads back exactly when it holds the eight persisted columns, whatever else it holds. */
  lemma ReadNeedsColumns(values: Values)
    ensures ReadColumns(values).Some? <==> {ITEM_TYPE, CONTAINER, SCREEN, CELLX, CELLY, SPANX, SPANY, RANK} <= values.Keys
  {
  }

  /** Reading back a written row restores the eight persisted fields, whatever else the row held. */
  lemma WriteReadRoundTrip(p: Persisted, values: Values)
    ensures ReadColumns(WriteColumns(p, values)) == Some(p)
  {
    var r := WriteColumns(p, values);
    assert r[ITEM_TYPE] == p.itemType && r[CONTAINER] == p.container && r[SCREEN] == p.screenId;
    assert r[CELLX] == p.cellX && r[CELLY] == p.cellY && r[SPANX] == p.spanX;
    assert r[SPANY] == p.spanY && r[RANK] == p.rank;
  }

  /** Writing what was read reproduces the row's eight columns. */
  lemma ReadWriteRoundTrip(values: Values)
    requires ReadColumns(values).Some?
    ensures WriteColumns(ReadColumns(values).value, values) == values
  {
  }

  class ItemInfo {
    var id: int
    var itemType: int
    var container: int
    var screenId: int
    var cellX: int
    var cellY: int
    var spanX: int
    var spanY: int
    var minSpanX: int
    var minSpanY: int
    var rank: int
    var title: Option<string>
    var contentDescription: Option<string>
    /** The user handle, as an opaque number. */
    var user: int

    /** A fresh item: no id, container or screen, cell (-1, -1), 1x1 spans, rank 0, the calling user. */
    constructor (myUser: int)
      ensures id == NO_ID && container == NO_ID && screenId == -1 && cellX == -1 && cellY == -1
      ensures spanX == 1 && spanY == 1 && minSpanX == 1 && minSpanY == 1 && rank == 0
      ensures itemType == 0 && title.None? && contentDescription.None? && user == myUser
    {
      id := NO_ID;
      itemType := 0;
      container := NO_ID;
      screenId := -1;
      cellX := -1;
      cellY := -1;
      spanX := 1;
      spanY := 1;
      minSpanX := 1;
      minSpanY := 1;
      rank := 0;
      title := None;
      contentDescription := None;
      user := myUser;
    }

    /** The copy constructor: the defaults, then `copyFrom`. */
    constructor Copy(info: ItemInfo)
      ensures id == info.id && cellX == info.cellX && cellY == info.cellY
      ensures spanX == info.spanX && spanY == info.spanY && rank == info.rank
      ensures screenId == info.screenId && itemType == info.itemType && container == info.container
      ensures user == info.user && contentDescription == info.contentDescription
      ensures title.None? && minSpanX == 1 && minSpanY == 1
    {
      id := info.id;
      itemType := info.itemType;
      container := info.container;
      screenId := info.screenId;
      cellX := info.cellX;
      cellY := info.cellY;
      spanX := info.spanX;
      spanY := info.spanY;
      minSpanX := 1;
      minSpanY := 1;
      rank := info.rank;
      title := None;
      contentDescription := info.contentDescription;
      user := info.user;
    }

    /** The persisted columns of this item. */
    function Columns(): (p: Persisted)
      reads this
      ensures p.itemType == itemType && p.container == container && p.screenId == screenId
      ensures p.cellX == cellX && p.cellY == cellY && p.spanX == spanX && p.spanY == spanY && p.rank == rank
    {
      Persisted(itemType, container, screenId, cellX, cellY, spanX, spanY, rank)
    }

    /**
     * `copyFrom`: id, cell, span, rank, screen, type, container, user and
     * description are copied; title and minimum spans stay.
     */
    method CopyFrom(info: ItemInfo)
      modifies this
      ensures id == old(info.id) && cellX == old(info.cellX) && cellY == old(info.cellY)
      ensures spanX == old(info.spanX) && spanY == old(info.spanY) && rank == old(info.rank)
      ensures screenId == old(info.screenId) && itemType == old(info.itemType) && container == old(info.container)
      ensures user == old(info.user) && contentDescription == old(info.contentDescription)
      ensures title == old(title) && minSpanX == old(minSpanX) && minSpanY == old(minSpanY)
    {
      var p := info.Columns();
      var i, u, d := info.id, info.user, info.contentDescription;
      id, cellX, cellY, spanX, spanY, rank := i, p.cellX, p.cellY, p.spanX, p.spanY, p.rank;
      screenId, itemType, container, user := p.screenId, p.itemType, p.container, u;
      contentDescription := d;
    }

    /** `writeToValues`. */
    function WriteToValues(values: Values): (r: Values)
      reads this
      ensures ReadColumns(r) == Some(Columns())
    {
      WriteReadRoundTrip(Columns(), values);
      WriteColumns(Columns(), values)
    }

    /**
     * `readFromValues`: the eight columns assigned one by one; `ok` is
     * false when a column is missing (the source throws, having assigned
     * the columns before it).
     */
    method ReadFromValues(values: Values) returns (ok: bool)
      modifies this
      ensures ok <==> HasColumns(values)
      ensures ok ==> Columns() == ReadColumns(values).value
      ensures id == old(id) && title == old(title) && user == old(user)
      ensures minSpanX == old(minSpanX) && minSpanY == old(minSpanY)
      ensures contentDescription == old(contentDescription)
    {
      if ITEM_TYPE !in values { return false; }
      itemType := values[ITEM_TYPE];
      if CONTAINER !in values { return false; }
      container := values[CONTAINER];
      if SCREEN !in values { return false; }
      screenId := values[SCREEN];
      if CELLX !in values { return false; }
      cellX := values[CELLX];
      if CELLY !in values { return false; }
      cellY := values[CELLY];
      if SPANX !in values { return false; }
      spanX := values[SPANX];
      if SPANY !in values { return false; }
      spanY := values[SPANY];
      if RANK !in values { return false; }
      rank := values[RANK];
      return true;
    }

    /**
     * `onAddToDatabase`: an item on the extra empty screen throws before
     * anything is written; otherwise the columns and the profile are written.
     */
    function OnAddToDatabase(values: Values): (r: Result<Values>)
      reads this
      ensures r.Failure? <==> screenId == EXTRA_EMPTY_SCREEN_ID
      ensures r.Ok? ==>
        (ReadColumns(r.value) == Some(Columns()) && PROFILE_ID in r.value && r.value[PROFILE_ID] == user)
    {
      if screenId == EXTRA_EMPTY_SCREEN_ID then Failure("Screen id should not be EXTRA_EMPTY_SCREEN_ID")
      else
        var written := WriteToValues(values);
        assert ReadColumns(written[PROFILE_ID := user]) == ReadColumns(written);
        Ok(written[PROFILE_ID := user])
    }

    /** `isContainerHotSeat`. */
    predicate IsContainerHotSeat()
      reads this
      ensures IsContainerHotSeat() ==> container != NO_ID && !IsContainerDesktop()
    {
      container == CONTAINER_HOTSEAT
    }

    /** `isContainerDesktop`. */
    predicate IsContainerDesktop()
      reads this
      ensures IsContainerDesktop() ==> container != NO_ID
    {
      container == CONTAINER_DESKTOP
    }

    /** An item is in at most one of the two containers, and a fresh item is in neither. */
    lemma ContainersExclusive()
      ensures !(IsContainerHotSeat() && IsContainerDesktop())
      ensures container == NO_ID ==> !IsContainerHotSeat() && !IsContainerDesktop()
    {
    }
  }
}
