# Launcher core, modelled in Dafny

This project models the logic of an Android home-screen launcher (a Launcher3 derivative with Lawnchair's icon-pack support) that sits underneath its views. The Android types become plain values: a view becomes its rank and cell, a page a sequence of items, a measure spec a mode and a size, and the current time a parameter. The parts it models are:

- **Folders.** The rank ↔ (page, cellX, cellY) decomposition and the grid-sizing loop of `FolderPagedView`. The `arrangeChildren` renumbering, the `realTimeReorder` index arrays, `findNearestArea`, and rank allocation for a new item. In `Folder`: the item comparator, page slicing, the failed-drop selection sort by rank, the database rank batch, add-button placement, the icon count, the drop walk-back and the second-step index array. In `ShortcutAndWidgetContainer`: the cell lookup, the column index and hotseat compaction.
- **Item records and launcher states.** The `ItemInfo` fields, `copyFrom`, and the write/read round trip through the eight persisted columns. The disabled-flag masks of `ItemInfoWithIcon`. The flag-word decoding of `LauncherState`, its registry of states, and the history rule.
- **Assistant lists.**
  - the folder "add apps" ordering and check state;
  - the drag-to-rearrange rank permutation of the quick-access row;
  - the show-flag array of the all-shortcuts list;
  - default app and shortcut matching;
  - section pin and unpin reordering;
  - calendar-event timing.
- **Search.** Bounded prefixes and expand state of a result container. The row/divider layouts of the two result adapters, which have opposite parity. The "all loaded" predicate. The case-insensitive substring filter of app search, with the locale's lower-casing as a parameter.
- **Alphabet index.** The section map and the alphabet tables. Letter lookup and the indexing-flag state machine of the fast scroller.
- **Icon packs.**
  - the saved custom-icon entry (print and parse, including the legacy form);
  - the pack lookup and the icon fallback chain;
  - the `appfilter` reader;
  - mask-image selection;
  - reconciliation of the applied pack list.
- **Page indicator.** Measuring, reading attributes, per-dot drawing decisions, and the worm animation's rectangles and progress distribution.
- **Transitions and ids.** The transition resource table and the wrapping id counter.

Code that works by changing state is modelled as classes with `modifies` clauses and loops with invariants. Each method is proved against a specification function, and that function's own properties are proved as lemmas. The pure decision code is modelled as functions and lemmas. Java's `int` division and remainder, and its `Math.abs`, are written out where their behaviour on negative values matters.

## Model

| member | source | states |
|---|---|---|
| FolderPagedView.GridStepDecreases | src/com/android/launcher3/folder/FolderPagedView.java:128-146 | one pass of the grid-size loop keeps both dimensions within their bounds and, when it changes the grid, strictly lowers a non-negative measure, so the loop ends |
| FolderPagedView.CalculateGridSize | src/com/android/launcher3/folder/FolderPagedView.java:113-150 | with count >= maxItemsPerPage the grid is exactly (maxCountX, maxCountY); otherwise the loop stops on a grid that one more pass would not change, never wider than max(countX, maxCountX) nor taller than max(countY, maxCountY, 1) |
| FolderPagedView.GridFits | src/com/android/launcher3/folder/FolderPagedView.java:128-146 | a final grid within the maxima holds all count items when they fit in maxCountX x maxCountY |
| FolderPagedView.GridTight | src/com/android/launcher3/folder/FolderPagedView.java:139-143 | a final grid that holds count items cannot lose a row (when it is at least as tall as wide) or a column and still hold them |
| FolderPagedView.RankCellRoundTrip | src/com/android/launcher3/folder/FolderPagedView.java:220-226 | splitting a rank into page, cellX and cellY gives a cell inside the grid, and page*max + cellY*gridX + cellX gives the rank back |
| FolderPagedView.RankToCell | src/com/android/launcher3/folder/FolderPagedView.java:220-226 | the page is non-negative and the cell lies in the grid's columns; a rank below the page size is on page 0 |
| FolderPagedView.CellToRank | src/com/android/launcher3/folder/FolderPagedView.java:747-758 | a cell on a non-negative page at non-negative coordinates has a rank no lower than that page's first rank (round trips in RankCellRoundTrip and CellRankRoundTrip) |
| FolderPagedView.CellRankRoundTrip | src/com/android/launcher3/folder/FolderPagedView.java:747-758 | a cell inside the grid turned into a rank and split again gives the same page and cell |
| FolderPagedView.RankPageIff | src/com/android/launcher3/folder/FolderPagedView.java:538-541 | a rank lies on page p exactly when p*max <= rank < (p+1)*max |
| FolderPagedView.SamePageCellsDiffer | src/com/android/launcher3/folder/FolderPagedView.java:220-226 | two different ranks on the same page occupy different cells |
| FolderPagedView.FirstAtCell | src/com/android/launcher3/ShortcutAndWidgetContainer.java:97-109 | finds the first child of a page at a cell (folder icons are single cells), or none exactly when no child is at that cell |
| FolderPagedView.ArrangedLength | src/com/android/launcher3/folder/FolderPagedView.java:346-383 | arranging n list slots produces ceil(n / max) pages |
| FolderPagedView.ArrangedLookup | src/com/android/launcher3/folder/FolderPagedView.java:346-383 | after arranging, looking rank i up by getChildViewByRank finds the view of list slot i, placed at rank i, exactly when i < n and that slot holds a view |
| FolderPagedView.ArrangedItemCount | src/com/android/launcher3/folder/FolderPagedView.java:413-421 | after arranging n views, getItemCount (last page index * max + children of the last page) is n |
| FolderPagedView.ArrangeSlot | src/com/android/launcher3/folder/FolderPagedView.java:346-383 | one iteration of the arrange loop: the page position wraps at max, a new page starts when it wraps, and the slot's view gets rank i and its cell, recorded for saving when the rank or cell changed |
| FolderPagedView.PositionStep | src/com/android/launcher3/folder/FolderPagedView.java:340-383 | the loop's running in-page position equals i mod max, and it wraps exactly when i is a multiple of max |
| FolderPagedView.IndexArrayAt | src/com/android/launcher3/folder/FolderPagedView.java:664-684 | the index list is [0..k) then dragCellCount copies of -1 then [k..maxItemCount), entry by entry |
| FolderPagedView.IndexOfInRanges | src/com/android/launcher3/folder/FolderPagedView.java:686-692 | an occupied rank v is found in the new index list at v below target and at v + dragCellCount from target on |
| FolderPagedView.ReorderIndexArrays | src/com/android/launcher3/folder/FolderPagedView.java:686-692 | the new rank of slot i is the position in the new list of slot i's old-list entry, as ReorderedRank states in closed form |
| FolderPagedView.IndexOfHole | src/com/android/launcher3/folder/FolderPagedView.java:674-684 | the first -1 of the new list is at target, so a view whose old entry is a hole moves to target |
| FolderPagedView.BuildIndexArray | src/com/android/launcher3/folder/FolderPagedView.java:664-684 | the three loops build exactly the index list of IndexArray |
| FolderPagedView.ReorderRanks | src/com/android/launcher3/folder/FolderPagedView.java:686-695 | every present view gets its reordered rank and nothing else changes; absent slots stay absent |
| FolderPagedView.PagedView.constructor | src/com/android/launcher3/folder/FolderPagedView.java:86-100 | a new paged view has no pages, current page 0, no allocated content, and max items per page = gridX * gridY |
| FolderPagedView.PagedView.RankOnCurrentPage | src/com/android/launcher3/folder/FolderPagedView.java:538-541 | holds exactly when the rank lies in the current page's range |
| FolderPagedView.PagedView.FindNearestArea | src/com/android/launcher3/folder/FolderPagedView.java:426-435 | returns min(allocatedContentSize - 1, the rank of the cell on the current page), with x mirrored to gridX - x - 1 under right-to-left; the cap is taken exactly when the cell's rank reaches it, and otherwise the rank splits back into that cell |
| FolderPagedView.PagedView.NearestAreaOnCurrentPage | src/com/android/launcher3/folder/FolderPagedView.java:426-435 | the drop rank never lies past the current page, lies on it whenever the cap is not taken, and is at least the page's first rank when that rank is allocated |
| FolderPagedView.PagedView.AddViewForRank | src/com/android/launcher3/folder/FolderPagedView.java:220-237 | writes the rank's cell into the item, appends a page when the target page is missing, and adds the item to that page |
| FolderPagedView.PagedView.ArrangeChildren | src/com/android/launcher3/folder/FolderPagedView.java:328-394 | the pages become the arrangement of the list, the allocated size becomes itemCount, the current page resets to 0 when pages were removed, and the changed items are returned for saving |
| FolderPagedView.PagedView.AllocateSpaceForRank | src/com/android/launcher3/folder/FolderPagedView.java:185-189 | inserts an empty slot at the rank in reading order and re-arranges, or changes nothing when the rank is past the end |
| FolderPagedView.PagedView.AllocateRankForNewItem | src/com/android/launcher3/folder/FolderPagedView.java:195-200 | returns the item count as the new rank; succeeds exactly when that rank is at most the reading-order length, and then an empty slot is opened there, everything is re-arranged and the current page becomes the rank's page; otherwise nothing changes |
| FolderPagedView.AllocatedSlotLookup | src/com/android/launcher3/folder/FolderPagedView.java:185-189 | after the space is allocated, the rank's cell is empty, the views before it keep their ranks and the views after it move one rank up |
| FolderPagedView.PagedView.RealTimeReorder | src/com/android/launcher3/folder/FolderPagedView.java:578-695 | does nothing when target == empty or when the start and end positions on the current page leave nothing to move; otherwise every view found by rank gets the rank its old index entry has in the new index list |
| Folder.ItemPosCompare | src/com/android/launcher3/folder/Folder.java:1760-1768 | negative exactly when lhs comes first by (rank, cellY, cellX), positive exactly when rhs does, zero exactly when all three are equal |
| Folder.ItemPosCompareOrder | src/com/android/launcher3/folder/Folder.java:1757-1769 | the comparator is antisymmetric and transitive, so it is a valid ordering |
| Folder.PageSlice | src/com/android/launcher3/folder/Folder.java:1650-1656 | the copy loop fails only for a negative item count; otherwise it copies at most that many consecutive items from startIndex, never past the end |
| Folder.ItemsOnPage | src/com/android/launcher3/folder/Folder.java:1641-1658 | a page is the reading-order slice from page*itemsPerPage; only the last page may differ in length; the last page throws when fewer items exist than pages before it hold |
| Folder.CopySlice | src/com/android/launcher3/folder/Folder.java:1653-1655 | the copy loop produces exactly the slice PageSlice describes |
| Folder.GetItemsOnPage | src/com/android/launcher3/folder/Folder.java:1641-1658 | returns exactly ItemsOnPage |
| Folder.FullPage | src/com/android/launcher3/folder/Folder.java:1646-1652 | a page before the last, fully covered by the items, is exactly all[p*ipp .. (p+1)*ipp] |
| Folder.PagesPartition | src/com/android/launcher3/folder/Folder.java:1641-1658 | the pages 0..lastPage, concatenated, give back all items in reading order |
| Folder.FirstMinRank | src/com/android/launcher3/folder/Folder.java:1045-1053 | the position found has the least rank, and every earlier position has a strictly larger rank (the first minimum) |
| Folder.FindMinRank | src/com/android/launcher3/folder/Folder.java:1045-1053 | the scan with strict < returns the first position of least rank |
| Folder.SelectionOrderPermutes | src/com/android/launcher3/folder/Folder.java:1044-1058 | repeatedly extracting the first minimum yields a permutation of the returned views |
| Folder.SelectionOrderSorted | src/com/android/launcher3/folder/Folder.java:1044-1058 | the extraction order is non-decreasing in rank |
| Folder.SelectionOrderStable | src/com/android/launcher3/folder/Folder.java:1044-1058 | views of equal rank keep their original relative order |
| Folder.SortByRank | src/com/android/launcher3/folder/Folder.java:1044-1058 | the failed-drop loop produces the selection order: a permutation, sorted by rank, stable on equal ranks |
| Folder.ReinsertViews | src/com/android/launcher3/folder/Folder.java:1062-1071 | re-inserts each returned view at its own rank in turn, failing as the list insertion does when a rank is out of range |
| Folder.ReinsertedPermutes | src/com/android/launcher3/folder/Folder.java:1062-1071 | the re-inserted list holds exactly the old views plus the returned ones |
| Folder.ReinsertedKeeps | src/com/android/launcher3/folder/Folder.java:1062-1071 | views at positions below every returned rank keep their positions |
| Folder.ReinsertedAtRank | src/com/android/launcher3/folder/Folder.java:1062-1071 | when returned views come in increasing rank within range, each ends at the position equal to its rank |
| Folder.UpdateItemLocations | src/com/android/launcher3/folder/Folder.java:1115-1126 | every item's rank becomes its index in reading order, nothing else changes, and the result is strictly increasing under the item comparator |
| Folder.IconCount | src/com/android/launcher3/folder/Folder.java:2062-2074 | lastPage*itemsPerPage + last page's child count, minus one for an attached add button, which leaves the item count; fails with no pages or no add button |
| Folder.AddButtonPlacement | src/com/android/launcher3/folder/Folder.java:1853-1872 | the button goes to cell (index % gridX, index / gridX) inside the grid, index = last page's child count mod gridX*gridY, and the old pages stay, with at most one page appended |
| Folder.AddButtonKeepsIconCount | src/com/android/launcher3/folder/Folder.java:2062-2074 | after inserting the add button, getIconCount still reports the folder's item count |
| Folder.OccupiedRanks | src/com/android/launcher3/folder/Folder.java:1928-1933 | lists exactly the occupied ranks below n, in increasing order |
| Folder.SecondStepClosedForm | src/com/android/launcher3/folder/Folder.java:1934-1942 | the index array is -1 inside [targetRank, targetRank+missing) and elsewhere the next occupied rank while they last, entry by entry |
| Folder.SecondStepArray | src/com/android/launcher3/folder/Folder.java:1934-1942 | the array uses no more occupied ranks than were collected, and no more than it has entries |
| Folder.SecondStepHoles | src/com/android/launcher3/folder/Folder.java:1934-1942 | the index array holds -1 exactly inside [targetRank, targetRank+missing) |
| Folder.SecondStepNewRank | src/com/android/launcher3/folder/Folder.java:1944-1950 | an occupied rank's new position (its last index in the array) is the j-th position outside the window, or -1 when the array ran out |
| Folder.SecondStepKeepsOrder | src/com/android/launcher3/folder/Folder.java:1944-1950 | two occupied ranks keep their relative order after the second step, and none is dropped when the positions outside the window suffice |
| Folder.CollectOccupied | src/com/android/launcher3/folder/Folder.java:1928-1933 | the first loop collects exactly OccupiedRanks |
| Folder.BuildSecondStepArray | src/com/android/launcher3/folder/Folder.java:1934-1942 | the second loop builds exactly the index array of SecondStepArray |
| Folder.MoveView | src/com/android/launcher3/folder/Folder.java:1944-1964 | a view whose new position differs gets that rank and the cell of its in-page index |
| Folder.SecondStepRanks | src/com/android/launcher3/folder/Folder.java:1919-1964 | the whole second step: index array as specified, and every view moved as MoveView states |
| Folder.FolderWindow.constructor | src/com/android/launcher3/folder/Folder.java:229-245 | a new folder has no add button and an empty-cell rank of 0 |
| Folder.FolderWindow.GetIconCount | src/com/android/launcher3/folder/Folder.java:2062-2074 | the folder's icon count as IconCount states it over its pages |
| Folder.FolderWindow.InsertAddIcon | src/com/android/launcher3/folder/Folder.java:1842-1874 | a no-op when the button is attached; with no pages it only creates the button; otherwise it places the button as AddButtonPlacement states |
| Folder.FolderWindow.WalkBackEmptyCell | src/com/android/launcher3/folder/Folder.java:1390-1391 | the empty-cell rank becomes WalkedBack of its old value |
| Folder.WalkedBack | src/com/android/launcher3/folder/Folder.java:1390-1391 | the walk-back never increases the rank, stops at 0 or just after an occupied rank, and every rank it skipped is empty |
| ShortcutAndWidgetContainer.ChildAt | src/com/android/launcher3/ShortcutAndWidgetContainer.java:97-109 | the first child whose span rectangle [cellX, cellX+spanX) x [cellY, cellY+spanY) contains (x, y), or -1 (null) exactly when no child's does |
| ShortcutAndWidgetContainer.ColumnIndex | src/com/android/launcher3/ShortcutAndWidgetContainer.java:283-290 | the number of columns i in [0, cellX) holding a child at (i, cellY), so at most max(cellX, 0) |
| ShortcutAndWidgetContainer.CompactedPrefixAt | src/com/android/launcher3/ShortcutAndWidgetContainer.java:312-323 | every child's new cellX is its row-0 column index computed from the children as they were before any cellX was written |
| ShortcutAndWidgetContainer.HotseatLayoutColumns | src/com/android/launcher3/ShortcutAndWidgetContainer.java:219-230 | the hotseat re-layout runs exactly when the container is the hotseat with 0 < child count <= MAX_COUNT_HOTSEAT (5); each visible child is laid out at getColumnIndex(cellX, 0), the number of occupied row-0 columns left of it, which lies between 0 and its cellX; gone children get none |
| ShortcutAndWidgetContainer.ColumnIndexCountsLeft | src/com/android/launcher3/ShortcutAndWidgetContainer.java:283-290 | for single-cell children of row 0, the column index of x is the number of children left of x |
| ShortcutAndWidgetContainer.CompactedKeepsOrder | src/com/android/launcher3/ShortcutAndWidgetContainer.java:308-324 | compacting single-cell hotseat children moves them into columns 0..n-1 and keeps their left-to-right order, in both directions |
| ShortcutAndWidgetContainer.Container.constructor | src/com/android/launcher3/ShortcutAndWidgetContainer.java:64-70 | a container has its container type and its children |
| ShortcutAndWidgetContainer.Container.IsHotseat | src/com/android/launcher3/ShortcutAndWidgetContainer.java:271-273 | the container type is the hotseat |
| ShortcutAndWidgetContainer.Container.IsDesktop | src/com/android/launcher3/ShortcutAndWidgetContainer.java:275-277 | the container type is the workspace |
| ShortcutAndWidgetContainer.Container.GetChildAt | src/com/android/launcher3/ShortcutAndWidgetContainer.java:97-109 | the scan returns what ChildAt states |
| ShortcutAndWidgetContainer.Container.GetColumnIndex | src/com/android/launcher3/ShortcutAndWidgetContainer.java:283-290 | the counting loop returns ColumnIndex, which lies in [0, max(cellX, 0)] |
| ShortcutAndWidgetContainer.Container.RemoveEmptySpaceOnHotSeat | src/com/android/launcher3/ShortcutAndWidgetContainer.java:308-324 | changes nothing unless the container is the hotseat; there the children become their compacted form |
| ItemInfo.WriteColumns | src/com/android/launcher3/ItemInfo.java:157-166 | writes the eight persisted columns and leaves every other column as it was |
| ItemInfo.ReadColumns | src/com/android/launcher3/ItemInfo.java:172-181 | reading succeeds exactly when all eight columns are present |
| ItemInfo.ReadNeedsColumns | src/com/android/launcher3/ItemInfo.java:172-181 | reading succeeds exactly when the eight column names are among the keys |
| ItemInfo.WriteReadRoundTrip | src/com/android/launcher3/ItemInfo.java:157-181 | reading what was written restores itemType, container, screenId, cellX, cellY, spanX, spanY and rank |
| ItemInfo.ReadWriteRoundTrip | src/com/android/launcher3/ItemInfo.java:157-181 | writing back what was read leaves the values unchanged |
| ItemInfo.ItemInfo.constructor | src/com/android/launcher3/ItemInfo.java:37-115 | a fresh item has id, container, screenId, cellX and cellY -1, spans and min spans 1, rank 0, and the current user |
| ItemInfo.ItemInfo.Copy | src/com/android/launcher3/ItemInfo.java:117-119 | the copy constructor copies the fields copyFrom copies and keeps the defaults of the rest |
| ItemInfo.ItemInfo.Columns | src/com/android/launcher3/ItemInfo.java:157-166 | the eight persisted fields of the item |
| ItemInfo.ItemInfo.CopyFrom | src/com/android/launcher3/ItemInfo.java:125-138 | copies id, cellX, cellY, spanX, spanY, rank, screenId, itemType, container, user and contentDescription; title, minSpanX and minSpanY stay |
| ItemInfo.ItemInfo.WriteToValues | src/com/android/launcher3/ItemInfo.java:157-166 | what is written reads back as the item's own persisted fields |
| ItemInfo.ItemInfo.ReadFromValues | src/com/android/launcher3/ItemInfo.java:172-181 | succeeds exactly when all eight columns are present, then sets the persisted fields from them; the other fields stay |
| ItemInfo.ItemInfo.OnAddToDatabase | src/com/android/launcher3/ItemInfo.java:187-195 | throws exactly when screenId is the extra empty screen id; otherwise writes the persisted fields and the profile id |
| ItemInfo.ItemInfo.IsContainerHotSeat | src/com/android/launcher3/ItemInfo.java:225-227 | an item in the hotseat has a container and is not on the desktop |
| ItemInfo.ItemInfo.IsContainerDesktop | src/com/android/launcher3/ItemInfo.java:232-234 | an item on the desktop has a container |
| ItemInfo.ItemInfo.ContainersExclusive | src/com/android/launcher3/ItemInfo.java:225-234 | an item is never both in the hotseat and on the desktop, and an item with no container is in neither |
| ItemInfoWithIcon.IsDisabled | src/com/android/launcher3/ItemInfoWithIcon.java:124-126 | holds exactly when the status flags carry one of the seven disabled reasons |
| ItemInfoWithIcon.DisabledMaskLayout | src/com/android/launcher3/ItemInfoWithIcon.java:46-101 | FLAG_DISABLED_MASK is bits 0-5 and 10 (0x43F) and shares no bit with FLAG_SYSTEM_MASK or FLAG_ICON_BADGED |
| ItemInfoWithIcon.SystemAndBadgeFlagsNeverDisable | src/com/android/launcher3/ItemInfoWithIcon.java:89-101 | setting only system or badge flags never changes whether an item is disabled |
| ItemInfoWithIcon.CopyIconFields | src/com/android/launcher3/ItemInfoWithIcon.java:111-117 | the copy constructor's icon part equals the original |
| ItemInfoWithIcon.CopyKeepsDisabled | src/com/android/launcher3/ItemInfoWithIcon.java:111-126 | a copy is disabled exactly when the original is |
| ItemInfoWithIcon.NewIconFields | src/com/android/launcher3/ItemInfoWithIcon.java:25-126 | a new item has no status flags and is not disabled |
| LauncherState.Decode | src/com/android/launcher3/LauncherState.java:157-174 | each boolean field holds exactly when its flag bit is set; the accessibility flag picks NO_HIDE_DESCENDANTS or AUTO; id, container type and duration are kept |
| LauncherState.DecodeEncode | src/com/android/launcher3/LauncherState.java:57-66 | re-encoding the decoded booleans gives back exactly the known flag bits of the flags word |
| LauncherState.DecodeInjective | src/com/android/launcher3/LauncherState.java:157-174 | two flag words decode to the same state exactly when they agree on the ten known bits |
| LauncherState.Normal | src/com/android/launcher3/LauncherState.java:85-87 | NORMAL is state 0 with no transition time, restore disabled, icons draggable, back button hidden and a system UI scrim, and nothing else set |
| LauncherState.HistoryForState | src/com/android/launcher3/LauncherState.java:246-249 | whatever the previous state, the history state is NORMAL |
| LauncherState.Registry.constructor | src/com/android/launcher3/LauncherState.java:80 | the registry of all states starts with six empty slots |
| LauncherState.Registry.Construct | src/com/android/launcher3/LauncherState.java:157-176 | constructing a state decodes its flags and stores it at slot id, leaving the other slots; an id outside 0..5 throws and stores nothing |
| LauncherState.Registry.Values | src/com/android/launcher3/LauncherState.java:178-180 | returns a fresh copy of the registry, equal slot by slot |
| LauncherState.RegisterBuiltIns | src/com/android/launcher3/LauncherState.java:85-92 | after the six built-in states are constructed, slot i holds the decoded state i |
| FolderAppsAdapter.Packages | src/com/android/launcher3/folder/FolderAppsRecyclerViewAdapter.java:173-175 | the package names of the apps, position by position (what sameInformation compares) |
| FolderAppsAdapter.Match | src/com/android/launcher3/folder/FolderAppsRecyclerViewAdapter.java:82-93 | every app of the working list ends either among the matched apps (at most one per folder shortcut) or among the leftovers |
| FolderAppsAdapter.MatchPermutes | src/com/android/launcher3/folder/FolderAppsRecyclerViewAdapter.java:82-96 | matched apps plus leftovers are exactly the apps, as multisets |
| FolderAppsAdapter.LeftoverKeepsOrder | src/com/android/launcher3/folder/FolderAppsRecyclerViewAdapter.java:89-96 | the leftover apps keep their all-apps order |
| FolderAppsAdapter.MatchedFollowShortcuts | src/com/android/launcher3/folder/FolderAppsRecyclerViewAdapter.java:82-93 | the matched apps' packages follow the folder's shortcut order |
| FolderAppsAdapter.InitialStatus | src/com/android/launcher3/folder/FolderAppsRecyclerViewAdapter.java:99-106 | the first shortcutCount positions start checked and the rest unchecked |
| FolderAppsAdapter.CheckedAppsSpec | src/com/android/launcher3/folder/FolderAppsRecyclerViewAdapter.java:141-149 | getAllCheckedIcons returns as many apps as there are checked positions, all drawn from the list |
| FolderAppsAdapter.CheckedPrefix | src/com/android/launcher3/folder/FolderAppsRecyclerViewAdapter.java:141-149 | when exactly the first c positions are checked, the checked apps are the first c apps |
| FolderAppsAdapter.InitialCheckedApps | src/com/android/launcher3/folder/FolderAppsRecyclerViewAdapter.java:62-149 | right after construction the checked apps are the first shortcut-count apps of the arranged list |
| FolderAppsAdapter.FindApp | src/com/android/launcher3/folder/FolderAppsRecyclerViewAdapter.java:84-92 | the inner scan stops at the first app whose package is the shortcut's, or at the end exactly when there is none |
| FolderAppsAdapter.MatchSlot | src/com/android/launcher3/folder/FolderAppsRecyclerViewAdapter.java:83-92 | one shortcut of the outer loop: its first matching app moves from the working list to the result, or nothing moves |
| FolderAppsAdapter.ArrangeApps | src/com/android/launcher3/folder/FolderAppsRecyclerViewAdapter.java:79-96 | builds the matched apps in shortcut order followed by the leftover apps |
| FolderAppsAdapter.Adapter.constructor | src/com/android/launcher3/folder/FolderAppsRecyclerViewAdapter.java:62-107 | on the path where it completes (no more shortcuts than apps): the icon count comes from the folder, the app list is arranged, and the check status marks the first shortcut-count positions |
| FolderAppsAdapter.NewAdapter | src/com/android/launcher3/folder/FolderAppsRecyclerViewAdapter.java:62-107 | constructing the adapter throws exactly when the folder holds more shortcuts than there are apps; otherwise the adapter is built as the constructor states |
| FolderAppsAdapter.Adapter.Click | src/com/android/launcher3/folder/FolderAppsRecyclerViewAdapter.java:127-138 | toggles the view, moves the checked count by one in the matching direction, and records the new state at the position |
| FolderAppsAdapter.Adapter.GetAllCheckedIcons | src/com/android/launcher3/folder/FolderAppsRecyclerViewAdapter.java:141-149 | returns the apps at checked positions, in list order, as many as there are checked positions |
| FolderAppsAdapter.Adapter.ContainsInfo | src/com/android/launcher3/folder/FolderAppsRecyclerViewAdapter.java:151-159 | holds exactly when some folder shortcut has the app's package |
| FolderAppsAdapter.StatusMayDisagreeWithCheckBox | src/com/android/launcher3/folder/FolderAppsRecyclerViewAdapter.java:99-125 | the initial status follows positions, not packages: a checked position can hold an app the folder does not contain |
| AssistDisplayShortcuts.CommonAreaIsSharedPoint | src/com/android/launcher3/assistant/AssistDisplayShortcutsView.java:602-612 | two closed rectangles have a common area exactly when some point lies in both, and the test is symmetric |
| AssistDisplayShortcuts.CommonHorizontalDistance | src/com/android/launcher3/assistant/AssistDisplayShortcutsView.java:586-592 | the horizontal overlap is never negative and, when positive, no wider than the second rectangle |
| AssistDisplayShortcuts.DistanceIsOverlap | src/com/android/launcher3/assistant/AssistDisplayShortcutsView.java:586-592 | for equal-width rectangles that touch, the distance is the width of their horizontal intersection |
| AssistDisplayShortcuts.Overlapping | src/com/android/launcher3/assistant/AssistDisplayShortcutsView.java:556-563 | the cells found lie among the first n views |
| AssistDisplayShortcuts.OverlappingSpec | src/com/android/launcher3/assistant/AssistDisplayShortcutsView.java:556-563 | the found cells are exactly the views sharing area with the drag rectangle, in increasing order |
| AssistDisplayShortcuts.NearestCellSpec | src/com/android/launcher3/assistant/AssistDisplayShortcutsView.java:551-584 | the search returns -1 exactly when no view shares area with the drag rectangle, and otherwise a view that does |
| AssistDisplayShortcuts.NearestCellSole | src/com/android/launcher3/assistant/AssistDisplayShortcutsView.java:568-570 | when exactly one view shares area with the drag rectangle, that view is the one returned |
| AssistDisplayShortcuts.FindNearestCell | src/com/android/launcher3/assistant/AssistDisplayShortcutsView.java:551-584 | the loop and the two-candidate choice return what NearestCell specifies |
| AssistDisplayShortcuts.FindInArray | src/com/android/launcher3/assistant/AssistDisplayShortcutsView.java:594-600 | returns the first index holding the value, or -1 |
| AssistDisplayShortcuts.MovedPermutes | src/com/android/launcher3/assistant/AssistDisplayShortcutsView.java:525-549 | the refreshed rank array is a permutation of the old one |
| AssistDisplayShortcuts.MovedShape | src/com/android/launcher3/assistant/AssistDisplayShortcutsView.java:525-549 | the dragged rank moves to the new empty cell, the ranks between shift one step toward the old empty cell, and the ranks outside both stay |
| AssistDisplayShortcuts.MovePreservesRankOk | src/com/android/launcher3/assistant/AssistDisplayShortcutsView.java:525-549 | refreshing keeps the rank array a permutation of the row's slots whose first c entries are the visible shortcuts |
| AssistDisplayShortcuts.Reindex | src/com/android/launcher3/assistant/AssistDisplayShortcutsView.java:500-505 | the reordered list holds at position k the shortcut at index rank[k] |
| AssistDisplayShortcuts.ReindexPermutes | src/com/android/launcher3/assistant/AssistDisplayShortcutsView.java:496-512 | reordering by a permutation of the indices gives a permutation of the shortcuts |
| AssistDisplayShortcuts.EndActionPermutes | src/com/android/launcher3/assistant/AssistDisplayShortcutsView.java:496-512 | with a valid rank array, doEndAction only reorders the shortcuts: no shortcut is lost or duplicated |
| AssistDisplayShortcuts.SettledPreservesRankOk | src/com/android/launcher3/assistant/AssistDisplayShortcutsView.java:366-413 | a drag step keeps the rank array valid and the empty cell within the shortcuts |
| AssistDisplayShortcuts.FillTowardEnd | src/com/android/launcher3/assistant/AssistDisplayShortcutsView.java:528-535 | the first branch of refreshRank fills the result as the moved rank array |
| AssistDisplayShortcuts.FillTowardStart | src/com/android/launcher3/assistant/AssistDisplayShortcutsView.java:538-547 | the second branch of refreshRank fills the result as the moved rank array |
| AssistDisplayShortcuts.ResetRanks | src/com/android/launcher3/assistant/AssistDisplayShortcutsView.java:514-516 | the rank array becomes 0, 1, 2, ... again |
| AssistDisplayShortcuts.DisplayShortcutsView.constructor | src/com/android/launcher3/assistant/AssistDisplayShortcutsView.java:117-131 | a new view shows no shortcuts, has the identity rank array, no empty cell and no drag |
| AssistDisplayShortcuts.DisplayShortcutsView.AddItem | src/com/android/launcher3/assistant/AssistDisplayShortcutsView.java:211-216 | appends the shortcut and changes nothing else |
| AssistDisplayShortcuts.DisplayShortcutsView.RemoveItem | src/com/android/launcher3/assistant/AssistDisplayShortcutsView.java:218-238 | refuses (and keeps the list) when no more than the minimum count is shown; otherwise removes the shortcut at the index and returns it, so the count never drops below the minimum |
| AssistDisplayShortcuts.DisplayShortcutsView.TouchDown | src/com/android/launcher3/assistant/AssistDisplayShortcutsView.java:311-325 | records the down position as the current position and changes nothing else |
| AssistDisplayShortcuts.DisplayShortcutsView.StartDrag | src/com/android/launcher3/assistant/AssistDisplayShortcutsView.java:467-478 | starts a drag with the dragged view's index as the empty cell and remembers its area when the view is in the row |
| AssistDisplayShortcuts.DisplayShortcutsView.RefreshRank | src/com/android/launcher3/assistant/AssistDisplayShortcutsView.java:525-549 | the result array is the current rank array with the empty cell's rank moved to the new empty cell |
| AssistDisplayShortcuts.DisplayShortcutsView.DragMove | src/com/android/launcher3/assistant/AssistDisplayShortcutsView.java:351-414 | without a drag or when the position is unchanged nothing changes; otherwise the position is recorded and the ranks settle on the nearest cell |
| AssistDisplayShortcuts.DisplayShortcutsView.DragTo | src/com/android/launcher3/assistant/AssistDisplayShortcutsView.java:366-414 | records the position, finds the nearest cell and settles the ranks on it |
| AssistDisplayShortcuts.DisplayShortcutsView.SettleOn | src/com/android/launcher3/assistant/AssistDisplayShortcutsView.java:370-413 | a found cell other than the empty cell becomes the empty cell and the ranks move; -1 or the empty cell itself changes nothing |
| AssistDisplayShortcuts.DisplayShortcutsView.MoveEmptyCell | src/com/android/launcher3/assistant/AssistDisplayShortcutsView.java:372-413 | the empty cell becomes the found cell and the rank array is refreshed toward it |
| AssistDisplayShortcuts.DisplayShortcutsView.EndDrag | src/com/android/launcher3/assistant/AssistDisplayShortcutsView.java:415-460 | ends the drag and reports whether one was in progress |
| AssistDisplayShortcuts.DisplayShortcutsView.DoEndAction | src/com/android/launcher3/assistant/AssistDisplayShortcutsView.java:496-523 | with every rank in range the shortcuts are reordered by the rank array and the ranks reset to the identity; an out-of-range rank throws and changes nothing |
| AppModel.FirstMatch | src/com/android/launcher3/assistant/AssistAllShortcutsRecyclerViewAdapter.java:93-100 | the index of the first shortcut with the same id and package, or -1 exactly when there is none |
| AssistAllShortcuts.ShownIndex | src/com/android/launcher3/assistant/AssistAllShortcutsRecyclerViewAdapter.java:154-165 | a position maps to the list index of the shown entry with exactly that many shown entries before it, or -1 exactly when the position is not below the shown count |
| AssistAllShortcuts.ShownIndexPrefix | src/com/android/launcher3/assistant/AssistAllShortcutsRecyclerViewAdapter.java:154-165 | extending the list after a found entry does not change the index found |
| AssistAllShortcuts.EveryShownHasPosition | src/com/android/launcher3/assistant/AssistAllShortcutsRecyclerViewAdapter.java:154-165 | every shown entry is reached from the position equal to the number of shown entries before it |
| AssistAllShortcuts.RemovingShortens | src/com/android/launcher3/assistant/AssistAllShortcutsRecyclerViewAdapter.java:122-126 | hiding the entry at a valid position lowers the item count by one |
| AssistAllShortcuts.AllShownCount | src/com/android/launcher3/assistant/AssistAllShortcutsRecyclerViewAdapter.java:171-177 | with every flag set, the item count is the list length |
| AssistAllShortcuts.ClearedAsWritten | src/com/android/launcher3/assistant/AssistAllShortcutsRecyclerViewAdapter.java:188-207 | the flags after setDisplayingInfoList as written, which clear the flag at the displayed entry's own index |
| AssistAllShortcuts.HideDisplayed | src/com/android/launcher3/assistant/AssistAllShortcutsRecyclerViewAdapter.java:188-207 | the flags after the corrected setDisplayingInfoList, which clears the flag of the matched entry |
| AssistAllShortcuts.UnmatchedStep | src/com/android/launcher3/assistant/AssistAllShortcutsRecyclerViewAdapter.java:193-205 | an index is matched by none of the displayed shortcuts exactly when it is matched by none of the earlier ones and not by the last |
| AssistAllShortcuts.HideDisplayedSpec | src/com/android/launcher3/assistant/AssistAllShortcutsRecyclerViewAdapter.java:188-207 | after the corrected pass an entry stays shown exactly when it was shown and no displayed shortcut matches it |
| AssistAllShortcuts.HiddenDisplayedNotShown | src/com/android/launcher3/assistant/AssistAllShortcutsRecyclerViewAdapter.java:188-207 | after the corrected pass no displayed shortcut is offered again in the list |
| AssistAllShortcuts.AsWrittenShowsDisplayed | src/com/android/launcher3/assistant/AssistAllShortcutsRecyclerViewAdapter.java:202 | as written, displaying the second of two shortcuts hides the first and keeps offering the displayed one |
| AssistAllShortcuts.FindShortcut | src/com/android/launcher3/assistant/AssistAllShortcutsRecyclerViewAdapter.java:93-100 | the search loop of addItem returns FirstMatch |
| AssistAllShortcuts.AllShortcutsAdapter.constructor | src/com/android/launcher3/assistant/AssistAllShortcutsRecyclerViewAdapter.java:34-39 | a new adapter has no shortcuts and its list and flag array are still unset (null) |
| AssistAllShortcuts.AllShortcutsAdapter.SetShortcutInfoList | src/com/android/launcher3/assistant/AssistAllShortcutsRecyclerViewAdapter.java:171-177 | stores the list with a fresh flag array, every flag set, so the item count is the list length |
| AssistAllShortcuts.AllShortcutsAdapter.GetItemCount | src/com/android/launcher3/assistant/AssistAllShortcutsRecyclerViewAdapter.java:137-147 | fails exactly before a list was set (the null flag array throws), and otherwise is the number of set flags |
| AssistAllShortcuts.AllShortcutsAdapter.GetIndexInList | src/com/android/launcher3/assistant/AssistAllShortcutsRecyclerViewAdapter.java:154-165 | the list index of the shown entry at the position, as ShownIndex states |
| AssistAllShortcuts.AllShortcutsAdapter.AddItem | src/com/android/launcher3/assistant/AssistAllShortcutsRecyclerViewAdapter.java:91-106 | sets the flag of the first matching shortcut, or changes nothing when none matches |
| AssistAllShortcuts.AllShortcutsAdapter.RemoveItem | src/com/android/launcher3/assistant/AssistAllShortcutsRecyclerViewAdapter.java:113-134 | refuses when the display row is full; otherwise clears the flag of the entry at the position and hands that shortcut over; a position with no entry is reported and changes nothing |
| AssistAllShortcuts.AllShortcutsAdapter.SetDisplayingInfoList | src/com/android/launcher3/assistant/AssistAllShortcutsRecyclerViewAdapter.java:188-207 | as written: no list changes nothing; otherwise the flags become ClearedAsWritten, and the call fails when a displayed index is past the flag array |
| AssistAllShortcuts.AllShortcutsAdapter.HideDisplayedInfoList | src/com/android/launcher3/assistant/AssistAllShortcutsRecyclerViewAdapter.java:188-207 | corrected: no list changes nothing; otherwise the flags become HideDisplayed |
| AssistShortcutApps.FirstApp | src/com/android/launcher3/assistant/AssistShortcutAppsView.java:280-293 | the first app whose package matches the entry (equal to the exact package when one is given, containing the word otherwise), or -1 exactly when none does |
| AssistShortcutApps.ShortcutsOfSpec | src/com/android/launcher3/assistant/AssistShortcutAppsView.java:219-230 | getShortcuts returns exactly the shortcuts of the app's package, no more of them than there are shortcuts |
| AssistShortcutApps.ChooseShortcutSpec | src/com/android/launcher3/assistant/AssistShortcutAppsView.java:303-329 | a shortcut is chosen only from the app's shortcuts, and only the first: when it is the app's only one, or when its lower-cased id contains the word's key (new_event, alarm_create) |
| AssistShortcutApps.StepSpec | src/com/android/launcher3/assistant/AssistShortcutAppsView.java:273-345 | one default entry adds at most one app, a matching one, and keeps every chosen shortcut tied to its word |
| AssistShortcutApps.FilterAppsSpec | src/com/android/launcher3/assistant/AssistShortcutAppsView.java:262-350 | getFilteredApps returns at most one app per default entry, each an installed app matching some entry |
| AssistShortcutApps.FilterAppsData | src/com/android/launcher3/assistant/AssistShortcutAppsView.java:299-340 | only calendar, clock and contacts entries hand assistant data to the root view, at most one each |
| AssistShortcutApps.DefaultDataEntries | src/com/android/launcher3/assistant/AssistShortcutAppsView.java:133-143 | with the default entries at most three assistant data records are produced, all for calendar, clock or contacts |
| AssistShortcutApps.DefaultAppsLayout | src/com/android/launcher3/assistant/AssistShortcutAppsView.java:50-60 | the five default entries are messag, contacts, camera, calendar, clock, and only the calendar carries an exact package |
| AssistShortcutApps.ShortcutAppsView.constructor | src/com/android/launcher3/assistant/AssistShortcutAppsView.java:47-131 | a new view has the default entries and no apps, shortcuts or chosen default shortcuts |
| AssistShortcutApps.ShortcutAppsView.SetDefaultApps | src/com/android/launcher3/assistant/AssistShortcutAppsView.java:133-143 | the default entries become the five fixed ones and nothing else changes |
| AssistShortcutApps.ShortcutAppsView.FindShortcut | src/com/android/launcher3/assistant/AssistShortcutAppsView.java:208-217 | returns the first shortcut with that package and id, or null exactly when none has them |
| AssistShortcutApps.ShortcutAppsView.GetShortcuts | src/com/android/launcher3/assistant/AssistShortcutAppsView.java:219-230 | returns the shortcuts of the app's package, in order |
| AssistShortcutApps.ShortcutAppsView.FindApp | src/com/android/launcher3/assistant/AssistShortcutAppsView.java:280-293 | the inner scan returns FirstApp |
| AssistShortcutApps.ShortcutAppsView.PickShortcut | src/com/android/launcher3/assistant/AssistShortcutAppsView.java:303-324 | the shortcut loop returns ChooseShortcut of the app's shortcuts |
| AssistShortcutApps.ShortcutAppsView.GetFilteredApps | src/com/android/launcher3/assistant/AssistShortcutAppsView.java:262-350 | returns the filtered apps and assistant data of FilterApps and appends the chosen shortcuts to the default shortcut list |
| AssistItemContainer.PinnedAtIndex | src/com/android/launcher3/assistant/AssistItemContainer.java:62-81 | pinning the section at p puts it at index 3, pinned, shifts the sections from 3 to p-1 one place down with their current index renumbered, and leaves the rest |
| AssistItemContainer.PinnedAt | src/com/android/launcher3/assistant/AssistItemContainer.java:62-81 | pinning keeps the length, the children above the first section and those after the pinned one, and puts a pinned section at the top |
| AssistItemContainer.PinKeepsConsistent | src/com/android/launcher3/assistant/AssistItemContainer.java:62-81 | pinning keeps every section's current index equal to its position and the pinned section keeps its default index |
| AssistItemContainer.PinKeepsOrder | src/com/android/launcher3/assistant/AssistItemContainer.java:62-81 | apart from the moved section, pinning keeps the other sections in their order |
| AssistItemContainer.UnpinTarget | src/com/android/launcher3/assistant/AssistItemContainer.java:92-102 | the walk stops at the first later section that is unpinned with a larger default index, or at the end |
| AssistItemContainer.UnpinnedAt | src/com/android/launcher3/assistant/AssistItemContainer.java:87-108 | unpinning keeps the length and every child before the unpinned section |
| AssistItemContainer.UnpinnedAtIndex | src/com/android/launcher3/assistant/AssistItemContainer.java:87-108 | unpinning moves the section to just before the stop position, unpinned, and shifts the sections it passes one place up, renumbered |
| AssistItemContainer.UnpinKeepsConsistent | src/com/android/launcher3/assistant/AssistItemContainer.java:87-108 | unpinning keeps every current index equal to its position, and the section lands unpinned just before the stop |
| AssistItemContainer.UnpinKeepsOrder | src/com/android/launcher3/assistant/AssistItemContainer.java:87-108 | apart from the moved section, unpinning keeps the other sections in their order |
| AssistItemContainer.PinThenUnpin | src/com/android/launcher3/assistant/AssistItemContainer.java:62-117 | in the default order, pinning a section and unpinning it again restores the layout |
| AssistItemContainer.MainLayout.PinOnTop | src/com/android/launcher3/assistant/AssistItemContainer.java:62-81 | an already pinned section changes nothing, not even the saved order; otherwise the layout becomes the pinned layout and the saved section order becomes that layout |
| AssistItemContainer.MainLayout.Unpin | src/com/android/launcher3/assistant/AssistItemContainer.java:87-117 | an unpinned section changes nothing, not even the saved order; otherwise the layout becomes the unpinned layout and the saved section order becomes that layout |
| AssistItemContainer.UnpinWalk | src/com/android/launcher3/assistant/AssistItemContainer.java:91-107 | the walk with its renumbering and its two exits builds exactly the unpinned layout |
| AssistCalendarEvent.TimingOfKeptEvent | src/com/android/launcher3/assistant/AssistCalendarEvent.java:227-246 | for an event not yet ended: ongoing exactly when timed and started, upcoming exactly when timed and starting within 15 minutes, further exactly when all-day or later |
| AssistCalendarEvent.TimingState | src/com/android/launcher3/assistant/AssistCalendarEvent.java:227-246 | ongoing exactly for a timed event between its start and end, upcoming exactly for a timed event not in progress that starts within 15 minutes, and further for all-day events |
| AssistCalendarEvent.EndedEventIsUpcoming | src/com/android/launcher3/assistant/AssistCalendarEvent.java:240-242 | an event that has already ended passes the 15-minute test and counts as upcoming |
| AssistCalendarEvent.ToInt | src/com/android/launcher3/assistant/AssistCalendarEvent.java:180 | the (int) cast of a long keeps every value that fits in 32 bits and always lands in the int range |
| AssistCalendarEvent.CeilMinutesIsCeiling | src/com/android/launcher3/assistant/AssistCalendarEvent.java:180-184 | truncating division plus one on a positive remainder is the ceiling of the difference in minutes |
| AssistCalendarEvent.UpcomingMinutesInRange | src/com/android/launcher3/assistant/AssistCalendarEvent.java:174-186 | an upcoming event shows between 1 and 15 remaining minutes, the ceiling of the time left |
| AssistCalendarEvent.CalendarEventView.ApplyFrom | src/com/android/launcher3/assistant/AssistCalendarEvent.java:107-124 | copies the event's fields, shows the all-day label or the start and end labels, computes the timing state and the description |
| AssistCalendarEvent.CalendarEventView.UpdateVisibilityForTimeLabels | src/com/android/launcher3/assistant/AssistCalendarEvent.java:249-260 | the all-day label is visible exactly for all-day events, the start and end labels exactly for the others |
| AssistCalendarEvent.CalendarEventView.GetEventTimingState | src/com/android/launcher3/assistant/AssistCalendarEvent.java:227-246 | returns the timing state for the given current time |
| AssistCalendarEvent.CalendarEventView.UpdateLabels | src/com/android/launcher3/assistant/AssistCalendarEvent.java:149-194 | the description is the date for all-day events, "on going", the remaining minutes, or empty, by timing state |
| SearchItemContainer.ShowingCount | src/com/android/launcher3/assistant/search/SearchItemContainer.java:215-220 | the number of results shown is the list size capped at 10 when expanded and at 3 when collapsed |
| SearchItemContainer.CollapsedIsPrefixOfExpanded | src/com/android/launcher3/assistant/search/SearchItemContainer.java:215-229 | the collapsed display is a prefix of the expanded one |
| SearchItemContainer.HeightMatchesRows | src/com/android/launcher3/assistant/search/SearchItemContainer.java:297-306 | the expected height is n result rows plus the dividers between them |
| SearchItemContainer.SearchItemContainer.constructor | src/com/android/launcher3/assistant/search/SearchItemContainer.java:100-112 | a new container has an empty query and no results, counts as loaded, is collapsed, and its adapter is empty |
| SearchItemContainer.SearchItemContainer.GetDisplayingInfoList | src/com/android/launcher3/assistant/search/SearchItemContainer.java:215-229 | returns the first ShowingCount results, in order |
| SearchItemContainer.SearchItemContainer.OnQueryChanged | src/com/android/launcher3/assistant/search/SearchItemContainer.java:233-244 | stores the query and marks the search as not finished; nothing else changes |
| SearchItemContainer.SearchItemContainer.UpdateExpandButtonVisibility | src/com/android/launcher3/assistant/search/SearchItemContainer.java:325-331 | the expand button is visible exactly when there are more than 3 results |
| SearchItemContainer.SearchItemContainer.UpdateSearchResult | src/com/android/launcher3/assistant/search/SearchItemContainer.java:251-281 | stores the results and marks loading finished; the container is visible exactly when there are results; with results it updates the expand button, hands the displayed prefix to the adapter and sets the expected height |
| SearchItemContainer.SearchItemContainer.ShowExpand | src/com/android/launcher3/assistant/search/SearchItemContainer.java:336-356 | flips the expanded state and targets the new height; expanding updates the adapter at once, collapsing defers the update until the animation ends |
| SearchItemContainer.SearchItemContainer.ExpandAnimationEnd | src/com/android/launcher3/assistant/search/SearchItemContainer.java:395-399 | the deferred adapter update, if any, runs and the height reaches its target |
| SearchItemContainer.ExpandCollapseRoundTrip | src/com/android/launcher3/assistant/search/SearchItemContainer.java:336-399 | expanding and collapsing again, with both animations finished, leaves the container collapsed with the adapter as before |
| SearchItemRecyclerViewAdapter.RowsShowEachResultOnce | src/com/android/launcher3/assistant/search/SearchItemRecyclerViewAdapter.java:60-97 | every result sits at position 2i, even positions show results and odd ones dividers, and results appear in list order |
| SearchItemRecyclerViewAdapter.DividersBetweenResults | src/com/android/launcher3/assistant/search/SearchItemRecyclerViewAdapter.java:84-97 | a non-empty list starts and ends with a result, with n - 1 dividers between the n results |
| SearchItemRecyclerViewAdapter.ViewType | src/com/android/launcher3/assistant/search/SearchItemRecyclerViewAdapter.java:84-89 | every row is a result or a divider, a result exactly at even positions |
| SearchItemRecyclerViewAdapter.ItemCount | src/com/android/launcher3/assistant/search/SearchItemRecyclerViewAdapter.java:92-97 | no rows for no results, else n results plus n - 1 dividers, an odd count |
| SearchItemRecyclerViewAdapter.SearchItemAdapter.constructor | src/com/android/launcher3/assistant/search/SearchItemRecyclerViewAdapter.java:35-41 | a new adapter has no results and an empty query |
| SearchItemRecyclerViewAdapter.SearchItemAdapter.UpdateItemInfoList | src/com/android/launcher3/assistant/search/SearchItemRecyclerViewAdapter.java:104-108 | stores the list and the query |
| SearchItemRecyclerViewAdapter.SearchItemAdapter.BindViewHolder | src/com/android/launcher3/assistant/search/SearchItemRecyclerViewAdapter.java:60-81 | binds result position/2 at an even position and nothing at a divider |
| PhoneItemRecyclerViewAdapter.ActionLabel | src/com/android/launcher3/assistant/search/PhoneItemRecyclerViewAdapter.java:63 | the label is "call" exactly for popup type 1 and "message" otherwise |
| PhoneItemRecyclerViewAdapter.PhoneViewType | src/com/android/launcher3/assistant/search/PhoneItemRecyclerViewAdapter.java:69-74 | a row is a number or a divider, always the opposite of the search list's row type at that position |
| PhoneItemRecyclerViewAdapter.PhoneItemCount | src/com/android/launcher3/assistant/search/PhoneItemRecyclerViewAdapter.java:77-82 | n numbers and n dividers, one row more than a search list of n results |
| PhoneItemRecyclerViewAdapter.RowsShowEachNumberOnce | src/com/android/launcher3/assistant/search/PhoneItemRecyclerViewAdapter.java:53-82 | every number sits at position 2i+1, odd positions show numbers and even ones dividers, and numbers appear in list order |
| PhoneItemRecyclerViewAdapter.ParityOppositeToSearch | src/com/android/launcher3/assistant/search/PhoneItemRecyclerViewAdapter.java:69-82 | the phone list's view types are the opposite parity of the search list's, with one more row |
| PhoneItemRecyclerViewAdapter.PhoneItemAdapter.constructor | src/com/android/launcher3/assistant/search/PhoneItemRecyclerViewAdapter.java:29-34 | stores the numbers and the popup type |
| PhoneItemRecyclerViewAdapter.PhoneItemAdapter.BindViewHolder | src/com/android/launcher3/assistant/search/PhoneItemRecyclerViewAdapter.java:53-66 | binds number position/2 with the popup's action label at a number row, nothing at a divider |
| SearchRecyclerViewAdapter.ContainersOfSpec | src/com/android/launcher3/assistant/search/SearchRecyclerViewAdapter.java:55-68 | the container list holds exactly the search containers among the layout's children, in order |
| SearchRecyclerViewAdapter.ViewHolder.constructor | src/com/android/launcher3/assistant/search/SearchRecyclerViewAdapter.java:55-68 | collects the search containers of the layout and starts with the empty-result view hidden |
| SearchRecyclerViewAdapter.ViewHolder.SearchResultLoaded | src/com/android/launcher3/assistant/search/SearchRecyclerViewAdapter.java:71-93 | does nothing until every container has finished; then the empty-result view is visible exactly when no container has a result |
| SearchAppsContainer.SearchAppsMembers | src/com/android/launcher3/assistant/search/searchItems/SearchAppsContainer.java:40-63 | for any lower-casing function, the results are exactly the apps whose lower-cased title contains the lower-cased query, one result per such app |
| SearchAppsContainer.TitleMatches | src/com/android/launcher3/assistant/search/searchItems/SearchAppsContainer.java:47 | an app matches when its lower-cased title contains the lower-cased query; an empty lower-cased query, or one equal to the lower-cased title, always matches |
| SearchAppsContainer.SearchApps | src/com/android/launcher3/assistant/search/searchItems/SearchAppsContainer.java:44-60 | no more results than apps, and every result is an app of the store whose title matches |
| SearchAppsContainer.SearchAppsAppend | src/com/android/launcher3/assistant/search/searchItems/SearchAppsContainer.java:44-60 | the search of a concatenation is the concatenation of the searches, so results keep the app order |
| SearchAppsContainer.EmptyQueryFindsAll | src/com/android/launcher3/assistant/search/searchItems/SearchAppsContainer.java:47 | an empty query matches every app, for any lower-casing that maps the empty string to itself |
| SearchAppsContainer.DoSearch | src/com/android/launcher3/assistant/search/searchItems/SearchAppsContainer.java:40-63 | with the locale's lower-casing as a parameter, the container's results become SearchApps of the apps (every app whose lower-cased title contains the lower-cased query, in store order), loading is finished, and it is visible exactly when something matched |
| SectionsHelper.SectionValue | src/com/android/launcher3/allapps/alphabetsindexfastscrollrecycler/Helpers.kt:29-36 | the value recorded for an entry is an index into the sections, or 0 |
| SectionsHelper.LastFoundAt | src/com/android/launcher3/allapps/alphabetsindexfastscrollrecycler/Helpers.kt:28-36 | the last entry up to i that is a section name, with no section name after it up to i |
| SectionsHelper.SectionValueSpec | src/com/android/launcher3/allapps/alphabetsindexfastscrollrecycler/Helpers.kt:26-39 | an entry that is a section maps to that section's first index; any other entry maps to the index of the last section entry before it, or 0 when there is none |
| SectionsHelper.SectionsHelperMap | src/com/android/launcher3/allapps/alphabetsindexfastscrollrecycler/Helpers.kt:26-39 | the map's keys are exactly the entry indices and each value is SectionValue |
| SectionsHelper.MapStep | src/com/android/launcher3/allapps/alphabetsindexfastscrollrecycler/Helpers.kt:29-36 | one loop step extends the map to one more index with that index's value |
| IndexFastScrollRecyclerSection.Singles | src/com/android/launcher3/allapps/alphabetsindexfastscrollrecycler/IndexFastScrollRecyclerSection.java:295-298 | the table becomes one single-letter section per character, in order |
| IndexFastScrollRecyclerSection.AlphabetTables | src/com/android/launcher3/allapps/alphabetsindexfastscrollrecycler/IndexFastScrollRecyclerSection.java:284-290 | the Latin table has 28 sections, '#', the first Hangul consonant, then A to Z; the Hangul table has 16, from '#' to 'Z' |
| IndexFastScrollRecyclerSection.SelectionByLetter | src/com/android/launcher3/allapps/alphabetsindexfastscrollrecycler/IndexFastScrollRecyclerSection.java:389-396 | the first section starting with the letter, or -1 exactly when none does |
| IndexFastScrollRecyclerSection.LatinLettersFound | src/com/android/launcher3/allapps/alphabetsindexfastscrollrecycler/IndexFastScrollRecyclerSection.java:389-396 | in the Latin table the k-th capital letter is found at section k + 2 |
| IndexFastScrollRecyclerSection.ScanStop | src/com/android/launcher3/allapps/alphabetsindexfastscrollrecycler/IndexFastScrollRecyclerSection.java:389-396 | the scan stops at the first section that is empty or starts with the letter, every section before it being non-empty and starting otherwise, or at the end |
| IndexFastScrollRecyclerSection.LetterLookupAgrees | src/com/android/launcher3/allapps/alphabetsindexfastscrollrecycler/IndexFastScrollRecyclerSection.java:389-396 | with null sections the lookup always throws; with non-empty sections it never throws and finds SelectionByLetter |
| IndexFastScrollRecyclerSection.IndexScroller.constructor | src/com/android/launcher3/allapps/alphabetsindexfastscrollrecycler/IndexFastScrollRecyclerSection.java:81-111 | the constructor's setAdapter gives the bar the adapter indexer's sections, or leaves them null when the adapter is no SectionIndexer; no current section, not indexing and no check posted |
| IndexFastScrollRecyclerSection.IndexScroller.ChangeAlphabet | src/com/android/launcher3/allapps/alphabetsindexfastscrollrecycler/IndexFastScrollRecyclerSection.java:281-298 | the sections become the one-letter sections of the Latin table for a capital first letter and of the Hangul table otherwise |
| IndexFastScrollRecyclerSection.IndexScroller.GetSelectionByLetter | src/com/android/launcher3/allapps/alphabetsindexfastscrollrecycler/IndexFastScrollRecyclerSection.java:389-396 | the scan returns LetterLookup: a failure for null sections or an empty section reached first, else the first section starting with the letter, or -1 |
| IndexFastScrollRecyclerSection.IndexScroller.SetSelectionByLetter | src/com/android/launcher3/allapps/alphabetsindexfastscrollrecycler/IndexFastScrollRecyclerSection.java:402-407 | when the lookup succeeds the current section becomes the letter's section, possibly -1; when it throws nothing changes |
| IndexFastScrollRecyclerSection.IndexScroller.OnTouchEvent | src/com/android/launcher3/allapps/alphabetsindexfastscrollrecycler/IndexFastScrollRecyclerSection.java:229-258 | a down on the bar starts indexing and is handled, a move while indexing is handled, a lift while indexing posts the check; a handled touch selects the section under the finger |
| IndexFastScrollRecyclerSection.IndexScroller.Check | src/com/android/launcher3/allapps/alphabetsindexfastscrollrecycler/IndexFastScrollRecyclerSection.java:212-224 | while smooth scrolling the check stays posted; otherwise indexing ends |
| IconPackManager.AsNonEmpty | lawnchair/src/ch/deletescape/lawnchair/iconpack/IconPackManager.kt:263 | an empty field reads as absent, and any other field is kept as it is |
| IconPackManager.ToPackString | lawnchair/src/ch/deletescape/lawnchair/iconpack/IconPackManager.kt:242-244 | the pack string is a proper prefix of the printed entry, and a '\|' follows it |
| IconPackManager.EntryString | lawnchair/src/ch/deletescape/lawnchair/iconpack/IconPackManager.kt:246-248 | the printed entry is the package, a '\|', the icon, a '\|' and the argument, absent fields printed empty |
| IconPackManager.ParseLegacy | lawnchair/src/ch/deletescape/lawnchair/iconpack/IconPackManager.kt:268-277 | the pack is the text before the first '/'; a read entry never holds an empty icon or argument, and has no argument unless it is the file-icon pack; only the file-icon pack's form can fail |
| IconPackManager.FromString | lawnchair/src/ch/deletescape/lawnchair/iconpack/IconPackManager.kt:255-265 | a read pack name is a prefix of the string and holds no '/'; a string without '\|' is read in the legacy form |
| IconPackManager.FromNullableString | lawnchair/src/ch/deletescape/lawnchair/iconpack/IconPackManager.kt:255-267 | a null string reads as no entry; a present string gives what fromString reads, including its failure |
| IconPackManager.RoundTrip | lawnchair/src/ch/deletescape/lawnchair/iconpack/IconPackManager.kt:246-267 | reading the printed `pkg\|icon\|arg` form restores the entry, when the package has no '\|' or '/' and the present fields are non-empty and have no '\|' |
| IconPackManager.SinglePipeFails | lawnchair/src/ch/deletescape/lawnchair/iconpack/IconPackManager.kt:258-263 | a string with exactly one '\|' and no '/' before it reads past the end of the split parts and fails |
| IconPackManager.SeparatorSplitsInTwo | lawnchair/src/ch/deletescape/lawnchair/iconpack/IconPackManager.kt:258-262 | a string holding a '\|' splits into at least two pieces, so the one-piece branch of fromNullableString is never taken |
| IconPackManager.LegacyRead | lawnchair/src/ch/deletescape/lawnchair/iconpack/IconPackManager.kt:268-277 | the legacy `pkg/icon` form of an ordinary pack reads as that pack with that icon and no argument |
| IconPackManager.SlashBeforePipeIsLegacy | lawnchair/src/ch/deletescape/lawnchair/iconpack/IconPackManager.kt:258-261 | a '/' before the first '\|' sends the whole string to the legacy reader |
| IconPackManager.ParseLegacyOf | lawnchair/src/ch/deletescape/lawnchair/iconpack/IconPackManager.kt:268-277 | the legacy reader keeps everything after the first '/' as the icon; for the file-icon pack with a non-blank icon it splits that icon at '\|', and fails when there is no '\|' |
| IconPackManager.UriLegacyRead | lawnchair/src/ch/deletescape/lawnchair/iconpack/IconPackManager.kt:268-274 | the file-icon pack's `lawnchairUriPack/icon\|arg` form reads back its icon and argument |
| IconPackManager.PipeLegacyRead | lawnchair/src/ch/deletescape/lawnchair/iconpack/IconPackManager.kt:258-277 | `pkg/icon\|arg` reads as icon and argument for the file-icon pack, and as the single icon `icon\|arg` for any other pack |
| IconPackManager.UriLegacyWithoutArgFails | lawnchair/src/ch/deletescape/lawnchair/iconpack/IconPackManager.kt:271-273 | the file-icon pack's legacy form with a non-blank icon and no '\|' fails |
| IconPackManager.ReadFieldsNonEmpty | lawnchair/src/ch/deletescape/lawnchair/iconpack/IconPackManager.kt:255-277 | an entry that was read never holds an empty icon or argument |
| IconPackManager.FirstAnswer | lawnchair/src/ch/deletescape/lawnchair/iconpack/IconPackManager.kt:154-157 | there is no answer exactly when no pack answers, and any answer comes from one of the packs |
| IconPackManager.FirstAnswerAt | lawnchair/src/ch/deletescape/lawnchair/iconpack/IconPackManager.kt:154-157 | the chain's answer is that of the first pack that answers |
| IconPackManager.PackAnswers | lawnchair/src/ch/deletescape/lawnchair/iconpack/IconPackManager.kt:154-157 | each applied pack is asked in turn, with no custom entry |
| IconPackManager.IconPackManager.constructor | lawnchair/src/ch/deletescape/lawnchair/iconpack/IconPackManager.kt:49-63 | the manager starts with a pack list that holds the saved packs, in order |
| IconPackManager.IconPackManager.GetIconPackInternal | lawnchair/src/ch/deletescape/lawnchair/iconpack/IconPackManager.kt:96-106 | the default and file-icon packs are found by name without touching the pack list; an installed provider gets its pack from the pack list; any other name gets nothing; the applied packs never change |
| IconPackManager.IconPackManager.GetIcon | lawnchair/src/ch/deletescape/lawnchair/iconpack/IconPackManager.kt:136-159 | the icon is the custom pack's answer if it has one, else the first applied pack's answer, else the default pack's icon |
| IconPackImpl.AttributeValueSpec | lawnchair/src/ch/deletescape/lawnchair/iconpack/IconPackImpl.kt:129-130 | an attribute lookup finds the first attribute with that name, and finds nothing exactly when no attribute has the name |
| IconPackImpl.StripComponentInfoSpec | lawnchair/src/ch/deletescape/lawnchair/iconpack/IconPackImpl.kt:133-135 | a component written as `ComponentInfo{…}` loses exactly that wrapper, and any other component is kept unchanged |
| IconPackImpl.StripComponentInfo | lawnchair/src/ch/deletescape/lawnchair/iconpack/IconPackImpl.kt:133-135 | the component is kept, or it was exactly the stripped text wrapped in `ComponentInfo{…}` |
| IconPackImpl.UnflattenFromString | lawnchair/src/ch/deletescape/lawnchair/iconpack/IconPackImpl.kt:136 | a component is read exactly when there is a '/' with text after it; its package is the text before the first '/' and its class is not empty |
| IconPackImpl.StripWrapped | lawnchair/src/ch/deletescape/lawnchair/iconpack/IconPackImpl.kt:133-135 | wrapping a component in `ComponentInfo{…}` and stripping it gives the component back |
| IconPackImpl.UnflattenFlattened | lawnchair/src/ch/deletescape/lawnchair/iconpack/IconPackImpl.kt:136 | a component written as `package/class` reads back as that component |
| IconPackImpl.TagNames | lawnchair/src/ch/deletescape/lawnchair/iconpack/IconPackImpl.kt:125-180 | each tag name that loadPack handles selects its own branch, and `scale` selects none of the modelled ones |
| IconPackImpl.ImgEntriesMembers | lawnchair/src/ch/deletescape/lawnchair/iconpack/IconPackImpl.kt:209-218 | the mask images of a tag are exactly the non-empty values of its attributes whose names start with "img" |
| IconPackImpl.ImgEntriesAppend | lawnchair/src/ch/deletescape/lawnchair/iconpack/IconPackImpl.kt:209-218 | reading more attributes only appends mask images, in attribute order |
| IconPackImpl.IncompleteTagAddsNothing | lawnchair/src/ch/deletescape/lawnchair/iconpack/IconPackImpl.kt:128-146 | a component tag that lacks its component or its drawable, or whose component does not parse, changes nothing |
| IconPackImpl.ComponentTagStores | lawnchair/src/ch/deletescape/lawnchair/iconpack/IconPackImpl.kt:128-146 | a complete calendar, clock or item tag stores its drawable under the parsed component in that kind's map, and changes nothing else |
| IconPackImpl.ItemsAfterEvent | lawnchair/src/ch/deletescape/lawnchair/iconpack/IconPackImpl.kt:123-185 | only a complete item tag changes the icon map, and it adds exactly its own entry |
| IconPackImpl.ItemsAfterComponentTag | lawnchair/src/ch/deletescape/lawnchair/iconpack/IconPackImpl.kt:128-146 | a component tag changes the icon map only when it is a complete item tag |
| IconPackImpl.ItemEntries | lawnchair/src/ch/deletescape/lawnchair/iconpack/IconPackImpl.kt:123-146 | each event gives the item entry it would store, in document order |
| IconPackImpl.ApplyComponentTag | lawnchair/src/ch/deletescape/lawnchair/iconpack/IconPackImpl.kt:128-146 | a component tag only adds: no map loses a key and no mask list shrinks |
| IconPackImpl.ApplyDynamicClock | lawnchair/src/ch/deletescape/lawnchair/iconpack/IconPackImpl.kt:147-161 | a dynamic-clock tag only adds: no map loses a key and no mask list shrinks |
| IconPackImpl.ApplyConfig | lawnchair/src/ch/deletescape/lawnchair/iconpack/IconPackImpl.kt:180-185 | a config tag only adds: no map loses a key and no mask list shrinks |
| IconPackImpl.ApplyEvent | lawnchair/src/ch/deletescape/lawnchair/iconpack/IconPackImpl.kt:123-186 | one parser event only adds to the pack: every map keeps its keys and every mask list is extended |
| IconPackImpl.LoadAll | lawnchair/src/ch/deletescape/lawnchair/iconpack/IconPackImpl.kt:122-186 | reading a whole document only adds to the pack: every map keeps its keys and every mask list is extended |
| IconPackImpl.ItemsOfLoadAll | lawnchair/src/ch/deletescape/lawnchair/iconpack/IconPackImpl.kt:122-186 | after the whole document, the icon map is the old map with every item tag's entry written in document order |
| IconPackImpl.LastEntryWins | lawnchair/src/ch/deletescape/lawnchair/iconpack/IconPackImpl.kt:141-143 | when entries are written in order, the last one for a component is the one kept |
| IconPackImpl.LastItemTagWins | lawnchair/src/ch/deletescape/lawnchair/iconpack/IconPackImpl.kt:122-186 | after loading, a component maps to the drawable of the last item tag that names it |
| IconPackImpl.MaskTagsAppend | lawnchair/src/ch/deletescape/lawnchair/iconpack/IconPackImpl.kt:170-179 | iconback, iconmask and iconupon tags each append their images to their own list and change nothing else |
| IconPackImpl.ConfigSpec | lawnchair/src/ch/deletescape/lawnchair/iconpack/IconPackImpl.kt:180-185 | a config tag changes at most onlyMaskLegacy, and changes it only when it gives a non-empty value |
| IconPackImpl.DynamicClockDefaults | lawnchair/src/ch/deletescape/lawnchair/iconpack/IconPackImpl.kt:150-158 | a dynamic clock with no index attributes gets layer indexes -1 and default time 0:00:00 |
| IconPackImpl.UnknownTagIgnored | lawnchair/src/ch/deletescape/lawnchair/iconpack/IconPackImpl.kt:123-187 | a tag that loadPack does not handle, and any non-tag event, changes nothing |
| IconPackImpl.IconPackImpl.constructor | lawnchair/src/ch/deletescape/lawnchair/iconpack/IconPackImpl.kt:60-74 | a new pack has every component map and every mask list empty |
| IconPackImpl.IconPackImpl.AddImgsTo | lawnchair/src/ch/deletescape/lawnchair/iconpack/IconPackImpl.kt:209-218 | the collection afterwards is the old collection followed by the tag's mask images |
| IconPackImpl.IconPackImpl.StoreComponent | lawnchair/src/ch/deletescape/lawnchair/iconpack/IconPackImpl.kt:128-146 | the pack's state afterwards is what the component-tag step gives from the old state |
| IconPackImpl.IconPackImpl.StoreDynamicClock | lawnchair/src/ch/deletescape/lawnchair/iconpack/IconPackImpl.kt:147-161 | a drawable that resolves to a resource gets that resource's clock description; otherwise nothing changes |
| IconPackImpl.IconPackImpl.StoreConfig | lawnchair/src/ch/deletescape/lawnchair/iconpack/IconPackImpl.kt:180-185 | the pack's state afterwards is what the config step gives from the old state |
| IconPackImpl.IconPackImpl.ApplyTag | lawnchair/src/ch/deletescape/lawnchair/iconpack/IconPackImpl.kt:123-186 | one start tag moves the pack's state by exactly one step of the document reader |
| IconPackImpl.IconPackImpl.LoadPack | lawnchair/src/ch/deletescape/lawnchair/iconpack/IconPackImpl.kt:113-191 | after the whole document, the pack's state is the reader's fold of its events over the old state, and the entry map is unchanged |
| IconPackImpl.IconPackImpl.GetEntryForComponent | lawnchair/src/ch/deletescape/lawnchair/iconpack/IconPackImpl.kt:225-229 | an entry comes back exactly when the component has one and the pack ships its image |
| IconPackImpl.IconPackImpl.GetMaskEntryForComponent | lawnchair/src/ch/deletescape/lawnchair/iconpack/IconPackImpl.kt:234-237 | a mask entry for the key comes back exactly when the pack supports masking |
| IconPackImpl.LoadedPackHasNoComponentEntries | lawnchair/src/ch/deletescape/lawnchair/iconpack/IconPackImpl.kt:225-229 | loadPack never fills packComponents, so a pack whose entry map is still empty hands out no entry for any component |
| IconMask.ValidEntriesSpec | lawnchair/src/ch/deletescape/lawnchair/iconpack/IconMask.kt:45-47 | the valid list is no longer than the list and holds exactly the entries whose image the pack ships |
| IconMask.ValidEntries | lawnchair/src/ch/deletescape/lawnchair/iconpack/IconMask.kt:45-47 | the valid list is no longer than the list, and each of its entries is an entry of the list whose image the pack ships |
| IconMask.HasMask | lawnchair/src/ch/deletescape/lawnchair/iconpack/IconMask.kt:35 | a mask exists only when one of the three lists names an image the pack ships (both directions in HasMaskSpec) |
| IconMask.ValidEntriesAppend | lawnchair/src/ch/deletescape/lawnchair/iconpack/IconMask.kt:45-47 | filtering a longer list only appends the valid entries of the added part |
| IconMask.AllAvailableKept | lawnchair/src/ch/deletescape/lawnchair/iconpack/IconMask.kt:45-47 | a list whose every image is shipped is kept whole |
| IconMask.HasMaskSpec | lawnchair/src/ch/deletescape/lawnchair/iconpack/IconMask.kt:35 | a pack has a mask exactly when one of its back, mask or upon lists names an image it ships |
| IconMask.JavaAbs | lawnchair/src/ch/deletescape/lawnchair/iconpack/IconMask.kt:145 | Java's Math.abs is non-negative and has the same magnitude for every int except the minimum, which stays negative |
| IconMask.AsWrittenIndex | lawnchair/src/ch/deletescape/lawnchair/iconpack/IconMask.kt:145 | the index as written, Math.abs(hash) % size, lies strictly between -size and size, and may be negative |
| IconMask.AsWrittenMinHashIsNegative | lawnchair/src/ch/deletescape/lawnchair/iconpack/IconMask.kt:145 | a key whose hash is the int minimum, with three images, reads index -2 |
| IconMask.ListIndex | lawnchair/src/ch/deletescape/lawnchair/iconpack/IconMask.kt:145 | the corrected index, Math.abs(hash % size), is always a valid index |
| IconMask.ListIndexAgrees | lawnchair/src/ch/deletescape/lawnchair/iconpack/IconMask.kt:145 | for every hash except the int minimum, the corrected index equals the index as written |
| IconMask.GetFromList | lawnchair/src/ch/deletescape/lawnchair/iconpack/IconMask.kt:143-146 | nothing comes back exactly when the list is empty; otherwise the result is an element of the list |
| IconMask.GetFromListAsWritten | lawnchair/src/ch/deletescape/lawnchair/iconpack/IconMask.kt:143-146 | for every hash except the int minimum, the index as written is valid and picks the element that comes back |
| IconMask.ChooseLayersSpec | lawnchair/src/ch/deletescape/lawnchair/iconpack/IconMask.kt:57-59 | each chosen background, mask and overlay is a shipped image from its own list, and some layer is chosen exactly when the pack has a mask |
| IconMask.IconMask.constructor | lawnchair/src/ch/deletescape/lawnchair/iconpack/IconMask.kt:36-43 | a new mask has no images and onlyMaskLegacy off |
| IconPackList.LoadedAsNamed | lawnchair/src/ch/deletescape/lawnchair/iconpack/IconPackList.kt:88-89 | a pack loaded for a name carries that name |
| IconPackList.IconPackList.constructor | lawnchair/src/ch/deletescape/lawnchair/iconpack/IconPackList.kt:45-47 | a new list reloads the saved pack names: they are applied in order, and exactly those packs are loaded |
| IconPackList.IconPackList.LoadPack | lawnchair/src/ch/deletescape/lawnchair/iconpack/IconPackList.kt:88-89 | an empty name gives the default pack; any other name gives a new installed pack of that name |
| IconPackList.IconPackList.Register | lawnchair/src/ch/deletescape/lawnchair/iconpack/IconPackList.kt:238-245 | an installed pack's name joins the registered receivers; the default pack registers nothing |
| IconPackList.IconPackList.Unregister | lawnchair/src/ch/deletescape/lawnchair/iconpack/IconPackList.kt:247-251 | an installed pack's name leaves the registered receivers; the default pack unregisters nothing |
| IconPackList.IconPackList.OnPackListUpdated | lawnchair/src/ch/deletescape/lawnchair/iconpack/IconPackList.kt:55-81 | afterwards exactly the named packs are loaded and applied in the given order; packs loaded before are reused, new ones are loaded fresh, and exactly the named installed packs are registered |
| IconPackList.IconPackList.UnregisterDropped | lawnchair/src/ch/deletescape/lawnchair/iconpack/IconPackList.kt:57-61 | every loaded pack missing from the new names is unregistered, and nothing else changes |
| IconPackList.IconPackList.ApplyPacks | lawnchair/src/ch/deletescape/lawnchair/iconpack/IconPackList.kt:63-79 | each name maps to its reused or newly loaded pack, and the applied list holds those packs in the given order |
| IconPackList.IconPackList.GetOrPut | lawnchair/src/ch/deletescape/lawnchair/iconpack/IconPackList.kt:67-72 | a cached pack is returned unchanged; a missing one is loaded, registered and cached |
| IconPackList.IconPackList.GetPack | lawnchair/src/ch/deletescape/lawnchair/iconpack/IconPackList.kt:91-99 | a cached pack is returned; a missing one is cached when kept, and otherwise comes back as a new installed pack that is not cached |
| IconPackList.IconPackList.CurrentPack | lawnchair/src/ch/deletescape/lawnchair/iconpack/IconPackList.kt:129 | the current pack is the first applied pack, or the default pack when none is applied |
| IconPackList.ApplyThenCurrent | lawnchair/src/ch/deletescape/lawnchair/iconpack/IconPackList.kt:129 | after onPackListUpdated applies a list of names, the current pack is the first name's pack, or the default pack for an empty list |
| MeasureController.Unsigned | src/com/android/launcher3/pageindicators/rd/draw/controller/MeasureController.java:32-36 | a 32-bit measure spec read as unsigned lies below 2^32 |
| MeasureController.SpecMode | src/com/android/launcher3/pageindicators/rd/draw/controller/MeasureController.java:32-36 | a spec's mode is one of the four two-bit modes |
| MeasureController.SpecSize | src/com/android/launcher3/pageindicators/rd/draw/controller/MeasureController.java:32-36 | a spec's size fits below the mode bits |
| MeasureController.MakeSpec | src/com/android/launcher3/pageindicators/rd/draw/controller/MeasureController.java:32-36 | a spec built from a mode and a size is a 32-bit int |
| MeasureController.SpecRoundTrip | src/com/android/launcher3/pageindicators/rd/draw/controller/MeasureController.java:32-36 | the mode and size read from a built spec are the ones it was built from |
| MeasureController.NoDotsWantPadding | src/com/android/launcher3/pageindicators/rd/draw/controller/MeasureController.java:56-92 | with no dots, the desired size is just the padding |
| MeasureController.HorizontalRow | src/com/android/launcher3/pageindicators/rd/draw/controller/MeasureController.java:56-67 | a horizontal row of n dots wants width 2rn + 2sn + p(n-1) and height 2r + s |
| MeasureController.VerticalSwapsAxes | src/com/android/launcher3/pageindicators/rd/draw/controller/MeasureController.java:64-71 | a vertical indicator wants the horizontal one's size with the axes swapped |
| MeasureController.DropDoublesCrossAxis | src/com/android/launcher3/pageindicators/rd/draw/controller/MeasureController.java:74-80 | the drop animation doubles the size across the row and leaves the length along it |
| MeasureController.DesiredSize | src/com/android/launcher3/pageindicators/rd/draw/controller/MeasureController.java:56-92 | with no dots only the padding is wanted (row and axis sizes in HorizontalRow and VerticalSwapsAxes) |
| MeasureController.Resolve | src/com/android/launcher3/pageindicators/rd/draw/controller/MeasureController.java:94-116 | the measured side is never negative, never above the spec's size under AT_MOST, and is the desired size when the spec does not force or bound it |
| MeasureController.ResolveSpec | src/com/android/launcher3/pageindicators/rd/draw/controller/MeasureController.java:94-116 | EXACTLY takes the spec's size, AT_MOST takes the smaller of the desired size and the spec's size, any other mode takes the desired size, and the result is never negative |
| MeasureController.DesiredOf | src/com/android/launcher3/pageindicators/rd/draw/controller/MeasureController.java:38-92 | the desired width and height are the dots' size plus the padding |
| MeasureController.MeasureViewSize | src/com/android/launcher3/pageindicators/rd/draw/controller/MeasureController.java:31-122 | each side is its spec applied to the desired size, and the indicator keeps the measured width and height |
| AttributeController.CountOf | src/com/android/launcher3/pageindicators/rd/draw/controller/AttributeController.java:61-65 | the count is never COUNT_NONE: a missing count becomes the default count, and any other given count is kept |
| AttributeController.ClampPosition | src/com/android/launcher3/pageindicators/rd/draw/controller/AttributeController.java:67-72 | the selected position is clamped to 0 below and, for a positive count, to count - 1 above; otherwise it is kept |
| AttributeController.DurationOf | src/com/android/launcher3/pageindicators/rd/draw/controller/AttributeController.java:97-100 | a negative animation duration becomes 0, and any other is kept |
| AttributeController.GetAnimationType | src/com/android/launcher3/pageindicators/rd/draw/controller/AttributeController.java:161-186 | indexes 0 to 9 select the animation type with that ordinal, and any other index selects NONE |
| AttributeController.AnimationTypeRoundTrip | src/com/android/launcher3/pageindicators/rd/draw/controller/AttributeController.java:161-186 | every animation type is selected by its own ordinal |
| AttributeController.GetRtlMode | src/com/android/launcher3/pageindicators/rd/draw/controller/AttributeController.java:188-199 | indexes 0 to 2 select the mode with that ordinal, and any other index selects Auto |
| AttributeController.RtlModeRoundTrip | src/com/android/launcher3/pageindicators/rd/draw/controller/AttributeController.java:188-199 | every RTL mode is selected by its own ordinal |
| AttributeController.OrientationOf | src/com/android/launcher3/pageindicators/rd/draw/controller/AttributeController.java:115-122 | the orientation is horizontal exactly when the index is 0 |
| AttributeController.NonNegative | src/com/android/launcher3/pageindicators/rd/draw/controller/AttributeController.java:126-134 | a negative radius or padding becomes 0, and any other is kept |
| AttributeController.ScaleFactorOf | src/com/android/launcher3/pageindicators/rd/draw/controller/AttributeController.java:136-142 | the scale factor always lies in [MIN_SCALE_FACTOR, MAX_SCALE_FACTOR]: one below the range becomes the minimum, one above the maximum, and one inside is kept |
| AttributeController.StrokeOf | src/com/android/launcher3/pageindicators/rd/draw/controller/AttributeController.java:144-152 | the stroke is capped at the radius for the fill animation and is 0 for every other animation |
| AttributeController.InitCountAttribute | src/com/android/launcher3/pageindicators/rd/draw/controller/AttributeController.java:57-82 | the indicator takes the pager id, auto-visibility, dynamic count and count with their defaults, and the clamped position as its selected, selecting and last selected position |
| AttributeController.InitColorAttribute | src/com/android/launcher3/pageindicators/rd/draw/controller/AttributeController.java:85-93 | the indicator takes the selected and unselected colours |
| AttributeController.InitAnimationAttribute | src/com/android/launcher3/pageindicators/rd/draw/controller/AttributeController.java:95-112 | the indicator takes the clamped duration, the interactive flag and the animation type and RTL mode for their indexes |
| AttributeController.InitSizeAttribute | src/com/android/launcher3/pageindicators/rd/draw/controller/AttributeController.java:114-159 | the indicator takes the orientation, the non-negative radius and padding, the scale factor clamped into its range, and the stroke for its animation type |
| AttributeController.Init | src/com/android/launcher3/pageindicators/rd/draw/controller/AttributeController.java:48-55 | every field the four steps read takes its defaulted or clamped attribute value (pager id, visibility flags, count, the three positions, colours, duration, interactivity, animation type, RTL mode, orientation, radius, padding, scale factor, stroke), the scale factor clamped into [0.3, 1.0], the outer paddings and measured size are untouched, and the position lies within the count and the stroke within the radius |
| DrawController.SelectedItems | src/com/android/launcher3/pageindicators/rd/draw/controller/DrawController.java:100-102 | the selected position is always drawn as selected; a position is selected exactly when it is the selected position, or the selecting one in interactive mode, or the last selected one otherwise |
| DrawController.IsSelectedItem | src/com/android/launcher3/pageindicators/rd/draw/controller/DrawController.java:95-102 | the selected dot is always drawn as involved in the selection (both directions in SelectedItems) |
| ColorDrawer.DotColor | src/com/android/launcher3/pageindicators/rd/draw/drawer/type/ColorDrawer.java:53-68 | a dot takes the value's colour, its reverse colour or the fallback, and the dot the animation moves to always takes the value's colour |
| SwapDrawer.DotPlacement | src/com/android/launcher3/pageindicators/rd/draw/drawer/type/SwapDrawer.java:59-78 | a dot sits at the value's coordinate or its reverse, and is drawn in the selected colour exactly when it is the dot moving in |
| FillDrawer.DotRing | src/com/android/launcher3/pageindicators/rd/draw/drawer/type/FillDrawer.java:61-84 | a dot takes the value's ring, its reverse ring or the default, and the dot the animation fills always takes the value's ring |
| DrawController.AnimatedDotTakesValueColor | src/com/android/launcher3/pageindicators/rd/draw/drawer/type/ColorDrawer.java:53-68 | an animated dot of the colour animation takes the value's colour or its reverse colour |
| DrawController.AnimatedDotIsSwapped | src/com/android/launcher3/pageindicators/rd/draw/drawer/type/SwapDrawer.java:59-78 | an animated dot of the swap animation sits at the value's coordinate in the selected colour, or at its reverse coordinate in the unselected colour |
| DrawController.AnimatedDotIsFilled | src/com/android/launcher3/pageindicators/rd/draw/drawer/type/FillDrawer.java:61-84 | an animated dot of the fill animation takes the value's ring or its reverse ring |
| DrawController.DrawController.constructor | src/com/android/launcher3/pageindicators/rd/draw/controller/DrawController.java:44-47 | a new controller has no animation value and no click listener |
| DrawController.DrawController.UpdateValue | src/com/android/launcher3/pageindicators/rd/draw/controller/DrawController.java:49-51 | the controller keeps the given animation value |
| DrawController.DrawController.SetClickListener | src/com/android/launcher3/pageindicators/rd/draw/controller/DrawController.java:53-55 | the controller has a listener exactly when one was given |
| DrawController.DrawController.Touch | src/com/android/launcher3/pageindicators/rd/draw/controller/DrawController.java:57-77 | only an ACTION_UP over a dot, with a listener set, reports a click on that dot |
| DrawController.DrawController.OnIndicatorTouched | src/com/android/launcher3/pageindicators/rd/draw/controller/DrawController.java:70-77 | a click is reported exactly when there is a listener and the touch hit a dot |
| DrawController.DrawController.DrawIndicator | src/com/android/launcher3/pageindicators/rd/draw/controller/DrawController.java:89-155 | a selected dot with an animation value and an animation type other than NONE is drawn by that animation; every other dot is drawn plainly, marked selected when it is |
| DrawController.DrawController.Draw | src/com/android/launcher3/pageindicators/rd/draw/controller/DrawController.java:79-87 | one draw call per dot, in position order, each at its own coordinates, and animated exactly for the selected dots while a value and an animation are set |
| BasicDrawer.BasicRadius | src/com/android/launcher3/pageindicators/rd/draw/drawer/type/BasicDrawer.java:48-62 | the radius is scaled for an unselected dot under SCALE and for a selected dot under SCALE_DOWN, and kept otherwise |
| BasicDrawer.Draw | src/com/android/launcher3/pageindicators/rd/draw/drawer/type/BasicDrawer.java:41-79 | a dot at its coordinates with the scaled radius, in the selected colour only at the selected position, and outlined with the stroke width only under FILL away from the selected position |
| ColorDrawer.Draw | src/com/android/launcher3/pageindicators/rd/draw/drawer/type/ColorDrawer.java:35-72 | nothing for a value of another animation; otherwise one filled dot of the indicator's radius, in the colour its role picks |
| SwapDrawer.Draw | src/com/android/launcher3/pageindicators/rd/draw/drawer/type/SwapDrawer.java:36-86 | nothing for a value of another animation; otherwise one dot moved along the indicator's axis to the coordinate its role picks |
| FillDrawer.Draw | src/com/android/launcher3/pageindicators/rd/draw/drawer/type/FillDrawer.java:41-92 | nothing for a value of another animation; otherwise an outer ring of the indicator's radius and stroke and an inner ring of the radius and stroke its role picks, both in its colour |
| WormAnimation.EdgeMoved | src/com/android/launcher3/pageindicators/rd/animation/type/WormAnimation.java:135-148 | the straight part moves the end edge and the reverse part the start edge on the right side, and the other way round on the left side |
| WormAnimation.CreateRectValues | src/com/android/launcher3/pageindicators/rd/animation/type/WormAnimation.java:177-200 | both parts travel the distance from the start dot to the end dot, and they start 2r apart, on the side given |
| WormAnimation.EdgesTravelDotToDot | src/com/android/launcher3/pageindicators/rd/animation/type/WormAnimation.java:177-200 | each part carries its edge from the start dot to the end dot, and the two parts move different edges |
| WormAnimation.SidesMirror | src/com/android/launcher3/pageindicators/rd/animation/type/WormAnimation.java:184-197 | the right-side values are the left-side values with the straight and reverse parts exchanged |
| WormAnimation.Durations | src/com/android/launcher3/pageindicators/rd/animation/type/WormAnimation.java:96-98 | the durations are those of the child animators, in order |
| WormAnimation.Distribute | src/com/android/launcher3/pageindicators/rd/animation/type/WormAnimation.java:95-107 | each child animator's play time is at most its duration |
| WormAnimation.DistributeAt | src/com/android/launcher3/pageindicators/rd/animation/type/WormAnimation.java:95-107 | each child animator gets the smaller of the time left and its duration |
| WormAnimation.LeftStep | src/com/android/launcher3/pageindicators/rd/animation/type/WormAnimation.java:99-106 | the time left shrinks by exactly what each child animator takes |
| WormAnimation.DistributeSum | src/com/android/launcher3/pageindicators/rd/animation/type/WormAnimation.java:95-107 | the play times add up to the smaller of the progress time and the total duration |
| WormAnimation.DistributeNeverExceeds | src/com/android/launcher3/pageindicators/rd/animation/type/WormAnimation.java:95-107 | the play times never add up to more than the progress time |
| WormAnimation.DistributeZero | src/com/android/launcher3/pageindicators/rd/animation/type/WormAnimation.java:95-107 | no progress puts every child animator at time 0 |
| WormAnimation.PositiveNeedsTime | src/com/android/launcher3/pageindicators/rd/animation/type/WormAnimation.java:95-107 | a child animator that has started means some progress was made |
| WormAnimation.DistributeInOrder | src/com/android/launcher3/pageindicators/rd/animation/type/WormAnimation.java:95-107 | child animators play in order: one that has started leaves every earlier one finished |
| WormAnimation.WormAnimation.constructor | src/com/android/launcher3/pageindicators/rd/animation/type/WormAnimation.java:43-46 | a new animation has zero coordinates, no animators and the default duration |
| WormAnimation.WormAnimation.HasChanges | src/com/android/launcher3/pageindicators/rd/animation/type/WormAnimation.java:156-174 | there are changes exactly when the start, end, radius or side differ from the stored ones |
| WormAnimation.WormAnimation.SetDuration | src/com/android/launcher3/pageindicators/rd/animation/type/WormAnimation.java:58-61 | the animation keeps the given duration |
| WormAnimation.WormAnimation.With | src/com/android/launcher3/pageindicators/rd/animation/type/WormAnimation.java:63-87 | changed values rebuild the rectangle around the start dot and the two half-duration animators; unchanged values leave everything as it was |
| WormAnimation.WormAnimation.Progress | src/com/android/launcher3/pageindicators/rd/animation/type/WormAnimation.java:90-110 | each child animator is set to its share of the progress time, in order |
| WormAnimation.WormAnimation.OnAnimateUpdated | src/com/android/launcher3/pageindicators/rd/animation/type/WormAnimation.java:132-153 | the moving edge takes the animated value, the other edge stays, and a listener is told the new rectangle |
| IdUtils.Next | src/com/android/launcher3/pageindicators/rd/utils/IdUtils.java:48-49 | the counter moves to one more, or back to 1 once one more would pass 0x00FFFFFF |
| IdUtils.IterateClosedForm | src/com/android/launcher3/pageindicators/rd/utils/IdUtils.java:44-54 | from an id in range, k calls later the counter is k places further round the circle of ids 1..0x00FFFFFF |
| IdUtils.IterateInRange | src/com/android/launcher3/pageindicators/rd/utils/IdUtils.java:47-49 | however many calls on, the counter stays in 1..0x00FFFFFF and is never 0 |
| IdUtils.NoRepeatWithinCycle | src/com/android/launcher3/pageindicators/rd/utils/IdUtils.java:44-54 | fewer calls than there are ids never hand out the same id twice |
| IdUtils.FullCycle | src/com/android/launcher3/pageindicators/rd/utils/IdUtils.java:44-54 | after 0x00FFFFFF calls the counter is back at its starting value |
| IdUtils.EveryIdWithinCycle | src/com/android/launcher3/pageindicators/rd/utils/IdUtils.java:44-54 | every id in range is handed out within one cycle, from any starting value |
| IdUtils.IdGenerator.constructor | src/com/android/launcher3/pageindicators/rd/utils/IdUtils.java:28 | the counter starts at 1 |
| IdUtils.IdGenerator.GenerateId | src/com/android/launcher3/pageindicators/rd/utils/IdUtils.java:44-54 | hands out the counter's value, which is in range, and advances the counter as Next does |
| TransitionManager.Table | src/com/android/launcher3/transition/TransitionManager.java:55-79 | each known transition type has four animators, one per slot |
| TransitionManager.TransitionNamesDistinct | src/com/android/launcher3/transition/TransitionManager.java:55-79 | the eight transition types carry eight different names |
| TransitionManager.SlotNamesDistinct | src/com/android/launcher3/transition/TransitionManager.java:90-95 | the four slots carry four different names |
| TransitionManager.SlotsDiffer | src/com/android/launcher3/transition/TransitionManager.java:55-79 | the four slots of one transition's table hold four different animators |
| TransitionManager.TablesDiffer | src/com/android/launcher3/transition/TransitionManager.java:55-79 | two different transition types never share an animator in the same slot |
| TransitionManager.TransitionManager.constructor | src/com/android/launcher3/transition/TransitionManager.java:44-47 | a new manager loads the saved transition once: a known one fills the table, an unknown one leaves every slot empty |
| TransitionManager.TransitionManager.LoadTransitionPrefAndResource | src/com/android/launcher3/transition/TransitionManager.java:52-81 | a known transition type fills the four slots from its table; any other value leaves the slots unchanged |
| TransitionManager.TransitionManager.SetAnimationResources | src/com/android/launcher3/transition/TransitionManager.java:90-95 | the four slots hold left-in, left-out, right-in, right-out in that order |
| TransitionManager.TransitionManager.GetAnimationLeftIn | src/com/android/launcher3/transition/TransitionManager.java:98-100 | returns slot 0, the left-in animator of the loaded transition |
| TransitionManager.TransitionManager.GetAnimationLeftOut | src/com/android/launcher3/transition/TransitionManager.java:101-103 | returns slot 1, the left-out animator of the loaded transition |
| TransitionManager.TransitionManager.GetAnimationRightIn | src/com/android/launcher3/transition/TransitionManager.java:104-106 | returns slot 2, the right-in animator of the loaded transition |
| TransitionManager.TransitionManager.GetAnimationRightOut | src/com/android/launcher3/transition/TransitionManager.java:107-109 | returns slot 3, the right-out animator of the loaded transition |

## Left out

- Views, canvases, animators and touch plumbing are not modelled. This covers folder open/close and drag choreography, the drag animations of the quick-access row, the page moves and animations of `realTimeReorder`, and the expand animation of search results. Only the ranks, lists and flags these update are modelled.
- CellLayout is not part of this model. Adding a view to a cell layout becomes appending it to that page's children. `findNearestArea` receives the cell the layout found as an input.
- Android resources and platform queries become inputs. These cover the grid sizes, the package-manager answer to `isPackProvider` (a set of provider packages), and the system-app query of `getFilteredApps` (AssistShortcutAppsView.java:266-278). They also cover the transition preference, the current time, the theme's drawable-id lookup and the integer parse of attribute values.
- Floating-point geometry is left out:
  - the icon mask's bitmap composition and `getScale`;
  - the `scale` tag of `appfilter`, whose float factor is read but not modelled;
  - the fast scroller's `getSectionByPoint`, `contains` and drawing.
- The search container's `getExpectedRecyclerViewHeight` computes in floats and floors. The model's `ExpectedHeight` uses integer heights.
- WormAnimation.WormAnimation.Progress: the float product `progress * animationDuration` is taken as a real and truncated toward zero. Float rounding and the interpolator are not modelled.
- The worm animation's `animator == null` early return in `progress` is not modelled. BaseAnimation's constructor always creates the animator (BaseAnimation.java:38), and `with` only replaces it with a new one, so it is never null; the model's empty animator list behaves the same.
- MeasureController.DesiredOf: does not model 32-bit wrap-around of the dot-size products and sums. Integers are unbounded, so an indicator large enough to overflow `int` is measured as if it did not.
- ItemInfo.ItemInfo.ReadFromValues: when a column is missing, the source throws after assigning the columns read before it. The model reports the failure and does not state which fields were already assigned.
- AssistDisplayShortcuts.DisplayShortcutsView.DragMove: requires at most five shortcuts and an empty cell inside the row, which the view's layout guarantees. The view areas the drag is compared against are inputs.
- Exceptions during `loadPack`, such as a missing document or a malformed integer, are not modelled. The reader sees a well-formed event sequence.
- The icon pack's `packComponents` map is never filled by `loadPack`, so `getEntryForComponent` finds nothing for a freshly loaded pack. The model keeps that behaviour (IconPackImpl.LoadedPackHasNoComponentEntries).
- IconPackManager's `newIcon`, the shortcut `getIcon`, `maskSupported`, `getPackProviders`, the public `getIconPack` wrappers and the `dayOfMonth` date-change listeners are not modelled. They are drawing, platform queries or thin wrappers around the modelled `getIconPackInternal`.
- `ensureInitialLoadComplete` is not modelled, because loading is synchronous in the model. The `LooperExecutor` of `onPackListUpdated` runs its block in place.
- The change receivers of loaded packs are modelled only as the set of registered package names. `reloadPack`, `getAvailablePacks` and the `PackInfo` classes are left out.
- The default pack's package name is taken to be the empty string, and the file-icon pack's to be `lawnchairUriPack`. Their classes are not part of this model.
- SearchAppsContainer.DoSearch: Java's `toLowerCase` depends on the locale and covers all of Unicode. The model takes the lower-casing as a parameter, so it promises nothing about particular characters (such as 'É' folding to 'é').
- Common.Lower folds only the ASCII letters A to Z. It stands for `toLowerCase` in the shortcut-id tests of `getFilteredApps` and in Kotlin's `toBoolean` of the pack's config tag, where the strings compared against are ASCII; a non-ASCII id that Java folds into ASCII is not modelled.
- FolderAppsAdapter.Adapter.constructor: requires no more folder shortcuts than apps, the path on which it completes. The throwing path is modelled by FolderAppsAdapter.NewAdapter.
- The index bar's `onChanged` and `updateSections`, which re-read the indexer's sections when the adapter's data changes, are not modelled. The sections stay as the constructor or `changeAlphabet` set them.
- Folder.ItemPosCompare: does not model the 32-bit wrap of Java's `lhs.rank - rhs.rank` and of the cell differences. Ranks and cells are small non-negative grid indices, where the subtraction cannot overflow; for ranks such as `Integer.MIN_VALUE` and 1 Java would order the items the other way round.
- AssistAllShortcuts.AllShortcutsAdapter.GetIndexInList, AddItem, RemoveItem, SetDisplayingInfoList and HideDisplayedInfoList: before `setShortcutInfoList` has run, Java dereferences the null list or flag array and throws. The model runs them on the empty list instead; only `getItemCount` reports the failure.
- AssistItemContainer.MainLayout.PinOnTop and Unpin: `updateAssistantSectionOrder` writes the position and pin flag of four named sections to the database. The model records the write as the whole new layout in `savedOrder`; the database itself and the choice of the four sections are not modelled.
- The search query of the result container and of its adapter starts as the empty string, where Java's `mQuery` starts null. A result update before the first query hands the adapter an empty query in the model and null in Java, which the item views receive for highlighting; the model does not distinguish the two.
- Common.JavaIntOf truncates toward zero but does not saturate values beyond the `int` (or `long`) range, and has no NaN to map to 0, as Java's float-to-integer cast does. Real numbers stand for the floats.
- IsBlank treats only space, tab, newline and carriage return as blank. Kotlin's `isBlank` accepts every Unicode whitespace character.
- `ComponentName.unflattenFromString` is modelled from the platform's documented behaviour. The platform class is not part of this model.
- The page indicator's constants (count none -1, default count 3, default animation time 350 ms, no id -1, and the scale animation's default, minimum and maximum scale factors 0.7, 0.3 and 1.0) are taken from the indicator library; the scale factor, a float, is held as a real. Its `Indicator` class is not part of this model.
- CoordinatesUtils is not part of this model. Dot coordinates and the dot hit by a touch are inputs.
- The platform `View.generateViewId` branch of `generateId` (IdUtils.java:30-36) is left out. The atomic compare-and-set retry loop is modelled as one sequential step.
- The Korean-locale alphabet switch and the scrolling itself in `scrollToPosition` (IndexFastScrollRecyclerSection.java:263-275) are left out.
- The notification of the search layout from `updateSearchResult` is modelled separately, as the "all loaded" predicate (SearchRecyclerViewAdapter.ViewHolder.SearchResultLoaded).
- `getAppName`, label text formatting and the calendar's ContentResolver query are I/O and are not modelled.

## Findings

| source | as written | input that shows it | evidently intended | confidence | as-written member | corrected member |
|---|---|---|---|---|---|---|
| src/com/android/launcher3/assistant/AssistAllShortcutsRecyclerViewAdapter.java:202 | `setDisplayingInfoList` clears `mItemsShowFlag[i]`, the index in the displayed list, on a match | shortcuts [a, b] with b displayed: a's flag is cleared and b is still shown | clear the flag of the matched shortcut, `mItemsShowFlag[j]` | high; not executed | AssistAllShortcuts.AsWrittenShowsDisplayed, AssistAllShortcuts.AllShortcutsAdapter.SetDisplayingInfoList | AssistAllShortcuts.HiddenDisplayedNotShown, AssistAllShortcuts.AllShortcutsAdapter.HideDisplayedInfoList |
| lawnchair/src/ch/deletescape/lawnchair/iconpack/IconMask.kt:145 | `getFromList` indexes with `Math.abs(key.hashCode()) % list.size`, and `Math.abs(Integer.MIN_VALUE)` is negative | a key whose hash code is -2147483648, with three images: index -2 | a valid index for every hash, `Math.abs(hash % size)` | high; not executed | IconMask.AsWrittenIndex, IconMask.AsWrittenMinHashIsNegative | IconMask.ListIndex, IconMask.GetFromList, IconMask.ListIndexAgrees |
