/** The state of the data table component (`CustomDataTable`): the selection,
    the sort, the active and expanded groups, the column layout, Best Fit, the
    aggregations and the drag-and-drop gesture, with the handlers that update
    them and the imperative API (`getCurrentView`, `applyView`, ...). */
module DataTable {
  import opened JsValues
  import opened TableSort
  import opened GroupEngine
  import opened ColumnLayout
  import opened Aggregation
  import opened Selection

  // ---------------------------------------------------------------------
  // Active groups

  /** `prev.includes(key) ? prev : [...prev, key]` */
  function AddGroup(groups: seq<string>, key: string): (r: seq<string>)
    ensures forall k :: k in r <==> k in groups || k == key
    ensures key in groups ==> r == groups
    ensures key !in groups ==> r == groups + [key]
  {
    if key in groups then groups else groups + [key]
  }

  /** Grouping by a column twice is grouping once, and it never introduces a
      duplicate key. */
  lemma AddGroupIdempotent(groups: seq<string>, key: string)
    requires NoDup(groups)
    ensures AddGroup(AddGroup(groups, key), key) == AddGroup(groups, key)
    ensures NoDup(AddGroup(groups, key))
  {
    AppendFreshNoDup(groups, key);
  }

  lemma AppendFreshNoDup<T>(s: seq<T>, x: T)
    requires NoDup(s)
    ensures x !in s ==> NoDup(s + [x])
  {
    if x !in s {
      var r := s + [x];
      forall i, j | 0 <= i < j < |r| ensures r[i] != r[j] {
        if j == |s| {
          assert r[i] == s[i];
        } else {
          assert r[i] == s[i] && r[j] == s[j];
        }
      }
    }
  }

  /** Grouping by a new column and ungrouping it again gives the groups back. */
  lemma GroupUngroupRoundTrip(groups: seq<string>, key: string)
    requires key !in groups
    ensures RemoveAll(AddGroup(groups, key), key) == groups
  {
    RemoveAllAppend(groups, [key], key);
    assert RemoveAll([key], key) == [];
  }

  // ---------------------------------------------------------------------
  // Expanded groups

  /** The ids `removeGroup` keeps: those that do not include `pat`. */
  function NotMatching(pat: string): string -> bool
  {
    (id: string) => !Contains(id, pat)
  }

  /** What remains of the expanded set after `removeGroup` has deleted every
      id that includes `pat`. */
  function KeepNotContaining(ids: seq<string>, pat: string): (r: seq<string>)
    ensures forall x :: x in r <==> x in ids && !Contains(x, pat)
  {
    Filter(ids, NotMatching(pat))
  }

  /** `ids` after deleting each of `xs`, in order. */
  function RemoveEach(s: seq<string>, xs: seq<string>): (r: seq<string>)
    ensures forall y :: y in r <==> y in s && y !in xs
  {
    if xs == [] then s
    else
      assert forall y :: y in xs <==> y in xs[..|xs| - 1] || y == xs[|xs| - 1] by {
        assert xs == xs[..|xs| - 1] + [xs[|xs| - 1]];
      }
      RemoveAll(RemoveEach(s, xs[..|xs| - 1]), xs[|xs| - 1])
  }

  lemma {:induction false} RemoveEachKeepsNoDup(s: seq<string>, xs: seq<string>)
    requires NoDup(s)
    ensures NoDup(RemoveEach(s, xs))
  {
    if xs != [] {
      RemoveEachKeepsNoDup(s, xs[..|xs| - 1]);
      RemoveAllKeepsNoDup(RemoveEach(s, xs[..|xs| - 1]), xs[|xs| - 1]);
    }
  }

  lemma NoDupSplit<T>(s: seq<T>, i: nat)
    requires NoDup(s) && i < |s|
    ensures s[i] !in s[..i] && s[i] !in s[i + 1..]
  {
    forall k | 0 <= k < |s| && k != i ensures s[k] != s[i] {
      if k < i {
        assert s[k] != s[i];
      } else {
        assert s[i] != s[k];
      }
    }
  }

  /** One step of the `forEach` in `removeGroup` on a duplicate-free set. */
  lemma UngroupStep<T(!new)>(s: seq<T>, i: nat, keep: T -> bool)
    requires NoDup(s) && i < |s|
    ensures var before := Filter(s[..i], keep) + s[i..];
      var after := Filter(s[..i + 1], keep) + s[i + 1..];
      (!keep(s[i]) ==> RemoveAll(before, s[i]) == after)
      && (keep(s[i]) ==> before == after)
  {
    var x := s[i];
    var kept := Filter(s[..i], keep);
    assert s[..i + 1][..i] == s[..i];
    assert s[..i + 1] == s[..i] + [x];
    assert s[i..] == [x] + s[i + 1..];
    NoDupSplit(s, i);
    assert kept + s[i..] == kept + [x] + s[i + 1..];
    if !keep(x) {
      RemoveAllAppend(kept + [x], s[i + 1..], x);
      RemoveAllAppend(kept, [x], x);
      assert RemoveAll([x], x) == [];
    }
  }

  /** The `forEach` of `removeGroup`: a copy of the expanded set from which
      every id that includes `pat` is deleted. */
  method DeleteMatching(ids: seq<string>, pat: string) returns (next: seq<string>)
    requires NoDup(ids)
    ensures next == KeepNotContaining(ids, pat)
  {
    next := ids;
    assert ids[..0] == [];
    for i := 0 to |ids|
      invariant next == Filter(ids[..i], NotMatching(pat)) + ids[i..]
    {
      UngroupStep(ids, i, NotMatching(pat));
      if Contains(ids[i], pat) {
        next := RemoveAll(next, ids[i]);
      }
    }
    assert ids[..|ids|] == ids;
  }

  /** The id of every header of column `key` contains `group-<key>`, so
      ungrouping the column collapses all its headers. */
  lemma UngroupMatchesColumn(key: string, value: Value, level: nat, path: seq<PathEntry>)
    ensures Contains(GroupId(key, value, level, path), "group-" + key)
  {
    var id := GroupId(key, value, level, path);
    var pat := "group-" + key;
    assert id[0..|pat|] == pat;
    assert OccursAt(id, pat, 0);
  }

  /** The match is on a substring, so it also catches the headers of any
      column whose key starts with `key` (ungrouping `type` collapses the
      groups of `typeCode`). */
  lemma UngroupMatchesLongerKey(key: string, suffix: string, value: Value, level: nat, path: seq<PathEntry>)
    ensures Contains(GroupId(key + suffix, value, level, path), "group-" + key)
  {
    var id := GroupId(key + suffix, value, level, path);
    var pat := "group-" + key;
    assert id[0..|pat|] == pat;
    assert OccursAt(id, pat, 0);
  }

  /** The first `forEach` of a collapse: the group and the headers displayed
      with it as their parent. */
  method GroupsToRemove(display: seq<DisplayRow>, groupId: string) returns (toRemove: seq<string>)
    ensures toRemove == [groupId] + ChildHeaderIds(display, groupId)
  {
    toRemove := [groupId];
    var i := 0;
    assert display[..0] == [];
    while i < |display|
      invariant 0 <= i <= |display|
      invariant toRemove == [groupId] + ChildHeaderIds(display[..i], groupId)
    {
      var item := display[i];
      assert display[..i + 1][..i] == display[..i];
      if item.GroupHeader? && item.parentId == Some(groupId) {
        toRemove := toRemove + [item.id];
      }
      i := i + 1;
    }
    assert display[..i] == display;
  }

  /** The second `forEach` of a collapse: delete each id from the set. */
  method DeleteEach(ids: seq<string>, toRemove: seq<string>) returns (next: seq<string>)
    ensures next == RemoveEach(ids, toRemove)
  {
    next := ids;
    var j := 0;
    while j < |toRemove|
      invariant 0 <= j <= |toRemove|
      invariant next == RemoveEach(ids, toRemove[..j])
    {
      assert toRemove[..j + 1][..j] == toRemove[..j];
      next := RemoveAll(next, toRemove[j]);
      j := j + 1;
    }
    assert toRemove[..j] == toRemove;
  }

  // ---------------------------------------------------------------------
  // Columns and views

  /** A view as `getCurrentView` returns and `applyView` takes it; a field
      that is absent (or `null`) is `None`. */
  datatype View = View(
    columns: Option<seq<string>>,
    columnOrder: Option<seq<string>>,
    sortConfig: Option<SortConfig>,
    activeGroups: Option<seq<string>>,
    expandedGroups: Option<seq<string>>,
    aggregations: Option<map<string, Aggregate>>,
    pinnedColumns: Option<seq<string>>)

  function Pick<T>(given: Option<T>, current: Option<T>): Option<T>
  {
    if given.Some? then given else current
  }

  /** The view of the table after `applyView(view)` on a table whose view was
      `current`: each field the view has replaces the current one, the
      expanded ids go through a `Set`, and the pinned columns are left to the
      parent component. */
  function Merge(view: View, current: View): View
  {
    View(
      Pick(view.columns, current.columns),
      Pick(view.columnOrder, current.columnOrder),
      Pick(view.sortConfig, current.sortConfig),
      Pick(view.activeGroups, current.activeGroups),
      if view.expandedGroups.Some? then Some(Dedupe(view.expandedGroups.value)) else current.expandedGroups,
      Pick(view.aggregations, current.aggregations),
      current.pinnedColumns)
  }

  /** Re-applying the table's own view changes nothing. */
  lemma ApplyCurrentView(current: View)
    requires current.expandedGroups.Some? ==> NoDup(current.expandedGroups.value)
    ensures Merge(current, current) == current
  {
    if current.expandedGroups.Some? {
      DedupeOfNoDup(current.expandedGroups.value);
    }
  }

  /** Applying a view twice is applying it once; the pinned columns never
      come from the view; an empty view changes nothing. */
  lemma ApplyViewIdempotent(view: View, current: View)
    ensures Merge(view, Merge(view, current)) == Merge(view, current)
    ensures Merge(view, current).pinnedColumns == current.pinnedColumns
    ensures Merge(View(None, None, None, None, None, None, view.pinnedColumns), current) == current
  {
    if view.expandedGroups.Some? {
      DedupeOfNoDup(Dedupe(view.expandedGroups.value));
    }
  }

  /** Aggregates do not depend on the sort: the sort only permutes the rows. */
  lemma AggregateIgnoresSort(data: seq<Row>, config: SortConfig, key: string, operation: string)
    ensures Compute(SortRows(data, config), key, operation) == Compute(data, key, operation)
  {
    SortRowsCorrect(data, config);
    AggregatesIgnoreOrder(SortRows(data, config), data, key);
  }

  // ---------------------------------------------------------------------
  // The component

  class Table {
    // props
    const data: seq<Row>
    const columns: seq<Column>
    const pinnedColumns: seq<string>
    const enableGrouping: bool
    const enableAggregation: bool
    const enableColumnReordering: bool

    // state
    var selectedRows: seq<Row>
    var sortConfig: SortConfig
    /** The `Set` of expanded group ids, in insertion order. */
    var expandedGroups: seq<string>
    var activeGroups: seq<string>
    var columnOrder: seq<string>
    var visibleColumns: seq<string>
    var bestFitEnabled: bool
    var columnAggregations: map<string, Aggregate>
    var draggedColKey: Option<string>
    var dragOverColKey: Option<string>
    /** `dragActiveRef.current` */
    var dragActive: bool

    /** The expanded ids form a set (`expandedGroups` is a `Set`). */
    predicate Valid()
      reads this
    {
      NoDup(expandedGroups)
    }

    constructor(data: seq<Row>, columns: seq<Column>, pinnedColumns: seq<string>,
                enableGrouping: bool, enableAggregation: bool, enableColumnReordering: bool)
      ensures Valid() && UniqueIds(selectedRows)
      ensures this.data == data && this.columns == columns && this.pinnedColumns == pinnedColumns
      ensures this.enableGrouping == enableGrouping && this.enableAggregation == enableAggregation
      ensures this.enableColumnReordering == enableColumnReordering
      ensures selectedRows == [] && sortConfig == Unsorted && expandedGroups == [] && activeGroups == []
      ensures columnOrder == Keys(columns) && visibleColumns == Keys(columns)
      ensures !bestFitEnabled && columnAggregations == map[]
      ensures draggedColKey.None? && dragOverColKey.None? && !dragActive
    {
      this.data := data;
      this.columns := columns;
      this.pinnedColumns := pinnedColumns;
      this.enableGrouping := enableGrouping;
      this.enableAggregation := enableAggregation;
      this.enableColumnReordering := enableColumnReordering;
      selectedRows := [];
      sortConfig := Unsorted;
      expandedGroups := [];
      activeGroups := [];
      columnOrder := Keys(columns);
      visibleColumns := Keys(columns);
      bestFitEnabled := false;
      columnAggregations := map[];
      draggedColKey := None;
      dragOverColKey := None;
      dragActive := false;
    }

    /** `processedData` */
    function ProcessedData(): seq<Row>
      reads this
    {
      SortRows(data, sortConfig)
    }

    /** `displayData` */
    function DisplayData(): seq<DisplayRow>
      reads this
    {
      BuildHierarchical(ProcessedData(), activeGroups, expandedGroups)
    }

    function RegularColumns(): seq<Column>
      reads this
    {
      DisplayRegular(columns, pinnedColumns, visibleColumns, columnOrder)
    }

    function PinnedColumns(): seq<Column>
      reads this
    {
      DisplayPinned(columns, pinnedColumns, visibleColumns)
    }

    /** `getCurrentView()` */
    function CurrentView(): View
      reads this
    {
      View(Some(visibleColumns), Some(columnOrder), Some(sortConfig), Some(activeGroups),
           Some(expandedGroups), Some(columnAggregations), Some(pinnedColumns))
    }

    // --- grouping

    /** `groupByColumn(key)` */
    method GroupByColumn(key: string)
      modifies this`activeGroups
      ensures activeGroups == if enableGrouping then AddGroup(old(activeGroups), key) else old(activeGroups)
    {
      if !enableGrouping {
        return;
      }
      if key !in activeGroups {
        activeGroups := activeGroups + [key];
      }
    }

    /** `ungroupByColumn(key)`: drop the key and delete, one by one, the
        expanded ids that include `group-<key>`. */
    method UngroupByColumn(key: string)
      requires Valid()
      modifies this`activeGroups, this`expandedGroups
      ensures Valid()
      ensures activeGroups == RemoveAll(old(activeGroups), key)
      ensures expandedGroups == KeepNotContaining(old(expandedGroups), "group-" + key)
    {
      var pat := "group-" + key;
      var groups := activeGroups;
      var ids := expandedGroups;
      var next := DeleteMatching(ids, pat);
      expandedGroups := next;
      activeGroups := RemoveAll(groups, key);
      FilterKeepsNoDup(ids, NotMatching(pat));
    }

    /** `clearAllGroups()` */
    method ClearAllGroups()
      requires Valid()
      modifies this`activeGroups, this`expandedGroups
      ensures Valid()
      ensures activeGroups == [] && expandedGroups == []
    {
      activeGroups := [];
      expandedGroups := [];
    }

    /** `handleGroupToggle(id)`: an expanded group is collapsed together with
        the headers displayed directly under it; any other id is expanded. */
    method HandleGroupToggle(groupId: string)
      requires Valid()
      modifies this`expandedGroups
      ensures Valid()
      ensures groupId in old(expandedGroups) ==>
        expandedGroups == RemoveEach(old(expandedGroups), [groupId] + ChildHeaderIds(old(DisplayData()), groupId))
      ensures groupId !in old(expandedGroups) ==> expandedGroups == old(expandedGroups) + [groupId]
    {
      if groupId in expandedGroups {
        var display := BuildHierarchicalData(ProcessedData(), activeGroups, expandedGroups);
        var toRemove := GroupsToRemove(display, groupId);
        var ids := expandedGroups;
        var next := DeleteEach(ids, toRemove);
        RemoveEachKeepsNoDup(ids, toRemove);
        expandedGroups := next;
      } else {
        AppendFreshNoDup(expandedGroups, groupId);
        expandedGroups := expandedGroups + [groupId];
      }
    }

    /** `expandAllGroups()`: the ids of the headers currently displayed. */
    method ExpandAllGroups()
      requires Valid()
      modifies this`expandedGroups
      ensures Valid()
      ensures expandedGroups == Dedupe(HeaderIds(old(DisplayData())))
    {
      var display := BuildHierarchicalData(ProcessedData(), activeGroups, expandedGroups);
      expandedGroups := Dedupe(HeaderIds(display));
    }

    /** `collapseAllGroups()` */
    method CollapseAllGroups()
      requires Valid()
      modifies this`expandedGroups
      ensures Valid()
      ensures expandedGroups == []
    {
      expandedGroups := [];
    }

    // --- selection

    /** `handleRowSelect(row, checked)`: group headers and missing rows are
        ignored; otherwise the new selection is stored and reported. A
        selection without repeated ids never gains one. */
    method HandleRowSelect(row: Option<DisplayRow>, checked: bool) returns (reported: Option<seq<Row>>)
      modifies this`selectedRows
      ensures old(UniqueIds(selectedRows)) ==> UniqueIds(selectedRows)
      ensures (row.None? || !row.value.DataRow?) ==> reported.None? && selectedRows == old(selectedRows)
      ensures row.Some? && row.value.DataRow? ==>
        && reported == Some(selectedRows)
        && selectedRows == if checked then Check(old(selectedRows), row.value.row)
                           else Uncheck(old(selectedRows), RowId(row.value.row))
    {
      if row.None? || !row.value.DataRow? {
        return None;
      }
      var item := row.value.row;
      if checked {
        if UniqueIds(selectedRows) {
          CheckKeepsUnique(selectedRows, item);
        }
        selectedRows := Check(selectedRows, item);
      } else {
        if UniqueIds(selectedRows) {
          UncheckKeepsUnique(selectedRows, RowId(item));
        }
        selectedRows := Uncheck(selectedRows, RowId(item));
      }
      reported := Some(selectedRows);
    }

    /** `handleSelectAll(checked)`: every selectable processed row, or none.
        The selection keeps distinct ids only when the selectable rows have
        them: the program copies the rows without looking at their ids. */
    method HandleSelectAll(checked: bool) returns (reported: seq<Row>)
      requires Valid()
      modifies this`selectedRows
      ensures Valid()
      ensures UniqueIds(selectedRows) <==> !checked || UniqueIds(SelectableRows(ProcessedData()))
      ensures selectedRows == (if checked then SelectableRows(ProcessedData()) else [])
      ensures reported == selectedRows
    {
      var selectable := SelectableRows(ProcessedData());
      selectedRows := if checked then selectable else [];
      reported := selectedRows;
    }

    // --- sorting

    /** `handleSort(key)`: ignored while a drag is active; the new
        configuration is the one reported to `onSort`. */
    method HandleSort(key: string) returns (reported: Option<SortConfig>)
      modifies this`sortConfig
      ensures dragActive ==> sortConfig == old(sortConfig) && reported.None?
      ensures !dragActive ==> sortConfig == NextSort(old(sortConfig), key) && reported == Some(sortConfig)
    {
      if dragActive {
        return None;
      }
      sortConfig := NextSort(sortConfig, key);
      reported := Some(sortConfig);
    }

    // --- column reordering

    /** `onHeaderDragStart(key)`: pinned columns cannot be dragged. */
    method OnHeaderDragStart(key: string)
      modifies this`draggedColKey, this`dragActive
      ensures enableColumnReordering && key !in pinnedColumns ==> draggedColKey == Some(key) && dragActive
      ensures !(enableColumnReordering && key !in pinnedColumns) ==>
        draggedColKey == old(draggedColKey) && dragActive == old(dragActive)
    {
      if !enableColumnReordering {
        return;
      }
      if key in pinnedColumns {
        return;
      }
      draggedColKey := Some(key);
      dragActive := true;
    }

    /** `onHeaderDragOver(key)` */
    method OnHeaderDragOver(overKey: Option<string>)
      modifies this`dragOverColKey
      ensures dragOverColKey == if enableColumnReordering then overKey else old(dragOverColKey)
    {
      if !enableColumnReordering {
        return;
      }
      if overKey != dragOverColKey {
        dragOverColKey := overKey;
      }
    }

    /** `onHeaderDrop(target)`: ends the gesture and moves the dragged column
        before the target. The drag flag is released later, by `ReleaseDrag`. */
    method OnHeaderDrop(target: Option<string>)
      modifies this`dragOverColKey, this`draggedColKey, this`columnOrder
      ensures !enableColumnReordering ==>
        dragOverColKey == old(dragOverColKey) && draggedColKey == old(draggedColKey) && columnOrder == old(columnOrder)
      ensures enableColumnReordering ==>
        && dragOverColKey.None? && draggedColKey.None?
        && columnOrder == Drop(old(columnOrder), old(draggedColKey), target)
    {
      if !enableColumnReordering {
        return;
      }
      var from := draggedColKey;
      dragOverColKey := None;
      draggedColKey := None;
      columnOrder := Drop(columnOrder, from, target);
    }

    /** `onHeaderDragEnd()` */
    method OnHeaderDragEnd()
      modifies this`dragOverColKey, this`draggedColKey
      ensures dragOverColKey.None? && draggedColKey.None?
    {
      dragOverColKey := None;
      draggedColKey := None;
    }

    /** The `setTimeout` callback that clears the drag flag after a drop or
        the end of a drag. */
    method ReleaseDrag()
      modifies this`dragActive
      ensures !dragActive
    {
      dragActive := false;
    }

    // --- aggregation, Best Fit, columns, views

    /** `aggregateColumn(key, op)`: only for a column of type `number`. */
    method CalculateAggregation(key: string, operation: string)
      modifies this`columnAggregations
      ensures var col := FindColumn(columns, key);
        if enableAggregation && col.Some? && col.value.kind == Some("number")
        then columnAggregations == old(columnAggregations)[key := Compute(ProcessedData(), key, operation)]
        else columnAggregations == old(columnAggregations)
    {
      if !enableAggregation {
        return;
      }
      var col := FindColumn(columns, key);
      if col.None? || col.value.kind != Some("number") {
        return;
      }
      columnAggregations := columnAggregations[key := Compute(ProcessedData(), key, operation)];
    }

    /** `toggleBestFit()` */
    method ToggleBestFit()
      modifies this`bestFitEnabled
      ensures bestFitEnabled == !old(bestFitEnabled)
    {
      bestFitEnabled := !bestFitEnabled;
    }

    /** `updateColumns(visible, order)` */
    method UpdateColumns(visible: seq<string>, order: seq<string>)
      modifies this`visibleColumns, this`columnOrder
      ensures visibleColumns == visible && columnOrder == order
    {
      visibleColumns := visible;
      columnOrder := order;
    }

    /** `applyView(view)` */
    method ApplyView(view: View)
      requires Valid()
      modifies this`visibleColumns, this`columnOrder, this`sortConfig, this`activeGroups,
               this`expandedGroups, this`columnAggregations
      ensures Valid()
      ensures CurrentView() == Merge(view, old(CurrentView()))
    {
      if view.columns.Some? {
        visibleColumns := view.columns.value;
      }
      if view.columnOrder.Some? {
        columnOrder := view.columnOrder.value;
      }
      if view.sortConfig.Some? {
        sortConfig := view.sortConfig.value;
      }
      if view.activeGroups.Some? {
        activeGroups := view.activeGroups.value;
      }
      if view.expandedGroups.Some? {
        expandedGroups := Dedupe(view.expandedGroups.value);
      }
      if view.aggregations.Some? {
        columnAggregations := view.aggregations.value;
      }
    }
  }
}
