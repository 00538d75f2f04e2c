/** What the two wrappers around the data table (`CashFlowTable` and
    `GenericDataTable`) have in common: the context-menu entries they offer,
    the views they keep in browser storage, and the dialogs their menu
    entries open (new group, add to group, column selection, save view). */
module TableWrapper {
  import opened JsValues
  import opened ColumnLayout
  import DataTable

  // ---------------------------------------------------------------------
  // Context-menu entries

  /** What clicking an entry does. */
  datatype Command =
    | ToggleBestFit
    | GroupBy(column: Option<string>)
    | UngroupBy(column: Option<string>)
    | AggregateColumn(column: Option<string>, operation: string)
    | SplitCashFlow(rows: seq<Row>)
    | DrillDown(rows: seq<Row>)
    | CreateNewGroup(rows: seq<Row>)
    | AddToExistingGroup(rows: seq<Row>)
    | RemoveFromGroup(row: Option<Row>)
    | ShowHideColumns
    | Custom(name: string)

  /** A menu entry: its `label` (here `caption`) and its `onClick`. */
  datatype Action = Action(caption: string, command: Command)

  /** The `contextMenu` state that `handleContextMenu` records: the rows
      the menu acts on, the row clicked, the menu `type` and the header's
      column key (the position on screen is not modelled). */
  datatype MenuState = MenuState(visible: bool, rows: seq<Row>, clickedRow: Option<Row>,
                                 kind: Option<string>, columnKey: Option<string>)

  /** The state `handleCloseContextMenu` sets. */
  const Closed := MenuState(false, [], None, None, None)

  predicate IsHeaderMenu(menu: MenuState)
  {
    menu.kind == Some("header")
  }

  /** `columns.find(col => col.key === columnKey)`; a `null` key matches no column. */
  function MenuColumn(cols: seq<Column>, key: Option<string>): Option<Column>
  {
    if key.Some? then FindColumn(cols, key.value) else None
  }

  /** `${column?.title}`: the title, or `"undefined"` without a column. */
  function TitleText(col: Option<Column>): string
  {
    if col.Some? then col.value.title else "undefined"
  }

  /** `column?.type === 'number'` */
  predicate IsNumberColumn(col: Option<Column>)
  {
    col.Some? && col.value.kind == Some("number")
  }

  /** The Best Fit label for the table's `isBestFitEnabled()` (false when
      there is no table). */
  function BestFitLabel(enabled: bool): string
  {
    if enabled then "Disable Best Fit" else "Enable Best Fit"
  }

  /** `clickedRow?._isGroupedItem` is truthy. */
  predicate IsGroupedItem(row: Option<Row>)
  {
    row.Some? && Truthy(Get(row.value, "_isGroupedItem"))
  }

  // ---------------------------------------------------------------------
  // Saved views

  /** A stored view: `{ id, name, ...getCurrentView(), createdAt }`. The id
      (`view-${Date.now()}`) and the timestamp come from the clock. */
  datatype StoredView = StoredView(id: string, name: string, view: DataTable.View, createdAt: string)

  /** `JSON.parse(localStorage.getItem(key) || '[]')` for a well-formed entry. */
  function Stored(store: map<string, seq<StoredView>>, key: string): seq<StoredView>
  {
    if key in store then store[key] else []
  }

  function HasId(id: string): StoredView -> bool
  {
    (v: StoredView) => v.id == id
  }

  /** `savedViews.find(v => v.id === viewId)`: the first view with the id. */
  function FindView(views: seq<StoredView>, id: string): (r: Option<StoredView>)
    ensures r.Some? <==> exists i :: 0 <= i < |views| && views[i].id == id
    ensures r.Some? ==> exists i :: 0 <= i < |views| && views[i] == r.value && r.value.id == id
                                   && forall j :: 0 <= j < i ==> views[j].id != id
  {
    Find(views, HasId(id))
  }

  /** A view saved under an id no earlier view has is the one loaded by that id. */
  lemma SaveThenFind(views: seq<StoredView>, v: StoredView)
    requires forall i :: 0 <= i < |views| ==> views[i].id != v.id
    ensures FindView(views + [v], v.id) == Some(v)
  {
    FindAppend(views, [v], HasId(v.id));
    assert [v][0] == v;
  }

  /** Saving never replaces a view: a view found before is still the one found. */
  lemma SaveKeepsFound(views: seq<StoredView>, v: StoredView, id: string)
    requires FindView(views, id).Some?
    ensures FindView(views + [v], id) == FindView(views, id)
  {
    FindAppend(views, [v], HasId(id));
  }

  /** Loading straight after saving gives the table its own view back: a
      save followed by a load changes nothing. */
  lemma SaveLoadRestores(views: seq<StoredView>, name: string, current: DataTable.View, id: string, createdAt: string)
    requires forall i :: 0 <= i < |views| ==> views[i].id != id
    requires current.expandedGroups.Some? ==> NoDup(current.expandedGroups.value)
    ensures var found := FindView(views + [StoredView(id, name, current, createdAt)], id);
      found.Some? && DataTable.Merge(found.value.view, current) == current
  {
    SaveThenFind(views, StoredView(id, name, current, createdAt));
    DataTable.ApplyCurrentView(current);
  }

  // ---------------------------------------------------------------------
  // The column-selection checkboxes

  /** The toggle of a column's checkbox: an unchecked key is appended, a
      checked one is removed everywhere it occurs. */
  function ToggleColumn(selected: seq<string>, key: string): (r: seq<string>)
    ensures key in r <==> key !in selected
    ensures forall k :: k != key ==> (k in r <==> k in selected)
    ensures key !in selected ==> r == selected + [key]
  {
    if key !in selected then selected + [key] else RemoveAll(selected, key)
  }

  /** Toggling a column twice gives the selection back, when the key was unchecked. */
  lemma ToggleTwice(selected: seq<string>, key: string)
    requires key !in selected
    ensures ToggleColumn(ToggleColumn(selected, key), key) == selected
  {
    RemoveAllAppend(selected, [key], key);
    assert RemoveAll([key], key) == [];
  }

  /** Toggling keeps the selection free of duplicates. */
  lemma ToggleKeepsNoDup(selected: seq<string>, key: string)
    requires NoDup(selected)
    ensures NoDup(ToggleColumn(selected, key))
  {
    if key in selected {
      RemoveAllKeepsNoDup(selected, key);
    } else {
      var r := selected + [key];
      forall i, j | 0 <= i < j < |r| ensures r[i] != r[j] {
        if j < |selected| {
          assert r[i] == selected[i] && r[j] == selected[j];
        } else {
          assert r[i] == selected[i];
        }
      }
    }
  }

  // ---------------------------------------------------------------------
  // The wrapper component

  /** What `createGroup(name, rows)` or `addToGroup(groupId, rows)` on the
      table handle would be called with. */
  datatype GroupRequest = GroupRequest(group: string, rows: seq<Row>)

  /** The state of a wrapper component around one data table. */
  class Wrapper {
    /** `tableRef.current`: `null` before the table is mounted. */
    const table: DataTable.Table?
    /** The storage key of the saved views. */
    const storeKey: string
    /** Whether the grouping entries do anything (`CashFlowTable` has no such flag). */
    const enableGrouping: bool
    /** `localStorage`, for the saved-view entries. */
    var store: map<string, seq<StoredView>>
    var contextMenu: MenuState
    var groupName: string
    var selectedGroup: string
    var rowsToGroup: seq<Row>
    var groupModalVisible: bool
    var addToGroupModalVisible: bool
    var viewName: string
    var saveViewModalVisible: bool
    var selectedColumns: seq<string>
    var columnOrder: seq<string>
    var columnsModalVisible: bool

    /** The first render. */
    constructor(table: DataTable.Table?, storeKey: string, enableGrouping: bool, store: map<string, seq<StoredView>>)
      ensures this.table == table && this.storeKey == storeKey && this.enableGrouping == enableGrouping
      ensures this.store == store && contextMenu == Closed
      ensures groupName == "" && selectedGroup == "" && rowsToGroup == []
      ensures !groupModalVisible && !addToGroupModalVisible
      ensures viewName == "" && !saveViewModalVisible
      ensures selectedColumns == [] && columnOrder == [] && !columnsModalVisible
    {
      this.table := table;
      this.storeKey := storeKey;
      this.enableGrouping := enableGrouping;
      this.store := store;
      contextMenu := Closed;
      groupName := "";
      selectedGroup := "";
      rowsToGroup := [];
      groupModalVisible := false;
      addToGroupModalVisible := false;
      viewName := "";
      saveViewModalVisible := false;
      selectedColumns := [];
      columnOrder := [];
      columnsModalVisible := false;
    }

    // --- manual-group dialogs

    /** `handleCreateNewGroup(rows)`: remember the rows, open the dialog and
        close the menu; nothing when grouping is disabled. */
    method OpenCreateGroup(rows: seq<Row>)
      modifies this`rowsToGroup, this`groupModalVisible, this`contextMenu
      ensures enableGrouping ==> rowsToGroup == rows && groupModalVisible && contextMenu == Closed
      ensures !enableGrouping ==>
        rowsToGroup == old(rowsToGroup) && groupModalVisible == old(groupModalVisible) && contextMenu == old(contextMenu)
    {
      if !enableGrouping {
        return;
      }
      rowsToGroup := rows;
      groupModalVisible := true;
      contextMenu := Closed;
    }

    /** `handleAddToExistingGroup(rows)`, the same for the other dialog. */
    method OpenAddToGroup(rows: seq<Row>)
      modifies this`rowsToGroup, this`addToGroupModalVisible, this`contextMenu
      ensures enableGrouping ==> rowsToGroup == rows && addToGroupModalVisible && contextMenu == Closed
      ensures !enableGrouping ==>
        rowsToGroup == old(rowsToGroup) && addToGroupModalVisible == old(addToGroupModalVisible) && contextMenu == old(contextMenu)
    {
      if !enableGrouping {
        return;
      }
      rowsToGroup := rows;
      addToGroupModalVisible := true;
      contextMenu := Closed;
    }

    /** `handleConfirmNewGroup()`: only a name that is not blank, with a
        table, reaches `createGroup`, with the trimmed name. The table handle
        has no `createGroup`, so that call throws and the resets after it
        never run: the state is the same either way. */
    method ConfirmNewGroup() returns (request: Option<GroupRequest>)
      ensures request.Some? <==> Trim(groupName) != "" && table != null
      ensures request.Some? ==> request.value == GroupRequest(Trim(groupName), rowsToGroup)
    {
      if Trim(groupName) != "" && table != null {
        request := Some(GroupRequest(Trim(groupName), rowsToGroup));
      } else {
        request := None;
      }
    }

    /** `handleConfirmAddToGroup()`: only a chosen group, with a table,
        reaches `addToGroup`, which the handle lacks as well. */
    method ConfirmAddToGroup() returns (request: Option<GroupRequest>)
      ensures request.Some? <==> selectedGroup != "" && table != null
      ensures request.Some? ==> request.value == GroupRequest(selectedGroup, rowsToGroup)
    {
      if selectedGroup != "" && table != null {
        request := Some(GroupRequest(selectedGroup, rowsToGroup));
      } else {
        request := None;
      }
    }

    /** `handleCancelGroup()` */
    method CancelGroup()
      modifies this`groupModalVisible, this`addToGroupModalVisible, this`groupName, this`selectedGroup, this`rowsToGroup
      ensures !groupModalVisible && !addToGroupModalVisible
      ensures groupName == "" && selectedGroup == "" && rowsToGroup == []
    {
      groupModalVisible := false;
      addToGroupModalVisible := false;
      groupName := "";
      selectedGroup := "";
      rowsToGroup := [];
    }

    // --- column dialog

    /** `handleShowColumnsModal()`: copy the table's columns state into the
        dialog, open it and close the menu. */
    method ShowColumnsModal()
      modifies this`selectedColumns, this`columnOrder, this`columnsModalVisible, this`contextMenu
      ensures table != null ==> selectedColumns == table.visibleColumns && columnOrder == table.columnOrder
      ensures table == null ==> selectedColumns == old(selectedColumns) && columnOrder == old(columnOrder)
      ensures columnsModalVisible && contextMenu == Closed
    {
      if table != null {
        selectedColumns := table.visibleColumns;
        columnOrder := table.columnOrder;
      }
      columnsModalVisible := true;
      contextMenu := Closed;
    }

    /** A click on a column's checkbox. */
    method ToggleColumnChecked(key: string)
      modifies this`selectedColumns
      ensures selectedColumns == ToggleColumn(old(selectedColumns), key)
    {
      if key !in selectedColumns {
        selectedColumns := selectedColumns + [key];
      } else {
        selectedColumns := RemoveAll(selectedColumns, key);
      }
    }

    /** The dialog's submit: `updateColumns(selectedColumns, columnOrder)` on
        the table, then close the dialog. */
    method SubmitColumns()
      modifies table, this`columnsModalVisible
      ensures table != null ==>
        table.visibleColumns == selectedColumns && table.columnOrder == columnOrder
        && table.sortConfig == old(table.sortConfig) && table.activeGroups == old(table.activeGroups)
        && table.expandedGroups == old(table.expandedGroups)
      ensures !columnsModalVisible
    {
      if table != null {
        table.UpdateColumns(selectedColumns, columnOrder);
      }
      columnsModalVisible := false;
    }

    // --- saved views

    /** `handleSaveView()`: with a name that is not blank and a table, append
        the table's current view under the trimmed name (duplicate names are
        kept), close the dialog and clear the name; otherwise nothing. */
    method SaveView(id: string, createdAt: string)
      modifies this`store, this`saveViewModalVisible, this`viewName
      ensures Trim(old(viewName)) != "" && table != null ==>
        && store == old(store)[storeKey := Stored(old(store), storeKey)
                                           + [StoredView(id, Trim(old(viewName)), table.CurrentView(), createdAt)]]
        && !saveViewModalVisible && viewName == ""
      ensures !(Trim(old(viewName)) != "" && table != null) ==>
        store == old(store) && saveViewModalVisible == old(saveViewModalVisible) && viewName == old(viewName)
    {
      if Trim(viewName) != "" && table != null {
        var viewData := table.CurrentView();
        var saved := Stored(store, storeKey);
        saved := saved + [StoredView(id, Trim(viewName), viewData, createdAt)];
        store := store[storeKey := saved];
        saveViewModalVisible := false;
        viewName := "";
      }
    }

    /** `handleLoadView(viewId)`: apply the first stored view with the id,
        if there is one and a table; otherwise nothing. */
    method LoadView(viewId: string) returns (loaded: Option<StoredView>)
      requires table != null ==> table.Valid()
      modifies table
      ensures table != null ==> table.Valid()
      ensures loaded == (if table != null then FindView(Stored(store, storeKey), viewId) else None)
      ensures loaded.Some? ==> table.CurrentView() == DataTable.Merge(loaded.value.view, old(table.CurrentView()))
      ensures loaded.None? && table != null ==> table.CurrentView() == old(table.CurrentView())
    {
      var view := FindView(Stored(store, storeKey), viewId);
      if view.Some? && table != null {
        table.ApplyView(view.value.view);
        loaded := view;
      } else {
        loaded := None;
      }
    }
  }
}
