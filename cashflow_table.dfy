/** The cash-flow table (`CashFlowTable`): the data table with the cash-flow
    columns, the status colours of its tags, its context menus, its
    columns restricted by the current view, and its Excel export. The
    dialogs and saved views are those of `TableWrapper.Wrapper`, under the
    storage key `cashflowViews` and with grouping always on. */
module CashFlowTable {
  import opened JsValues
  import opened ColumnLayout
  import opened TableWrapper
  import opened ExportCells
  import DataTable
  import CashFlowConsole

  // ---------------------------------------------------------------------
  // Status colours

  const CashflowStatusColors: map<string, string> :=
    map["Active" := "green", "Reversed" := "orange", "Reversal" := "red", "Defunct" := "default"]
  const InvoiceStatusColors: map<string, string> :=
    map["Fully Invoiced" := "success", "Partially Invoiced" := "processing", "Not Invoiced" := "default"]
  const PaymentStatusColors: map<string, string> :=
    map["Fully Paid" := "success", "Partially Paid" := "warning", "Unpaid" := "error"]
  const QuantityStatusColors: map<string, string> :=
    map["Contractual" := "blue", "Actual" := "green", "Scheduled" := "orange", "Reversed" := "red", "Reversal" := "purple"]

  /** `colors[status] || 'default'`: the mapped colour, `'default'` for a
      status the table does not know. */
  function ColorFor(colors: map<string, string>, status: string): (c: string)
    ensures status in colors && colors[status] != "" ==> c == colors[status]
    ensures status !in colors ==> c == "default"
    ensures c == "default" || (status in colors && c == colors[status])
  {
    if status in colors && colors[status] != "" then colors[status] else "default"
  }

  /** The four lookups: `getStatusColor`, `getInvoiceStatusColor`,
      `getPaymentStatusColor`, `getQuantityStatusColor`. */
  function StatusColor(status: string): string { ColorFor(CashflowStatusColors, status) }
  function InvoiceStatusColor(status: string): string { ColorFor(InvoiceStatusColors, status) }
  function PaymentStatusColor(status: string): string { ColorFor(PaymentStatusColors, status) }
  function QuantityStatusColor(status: string): string { ColorFor(QuantityStatusColors, status) }

  /** Every lookup answers one of the tag colours its table names. */
  lemma ColorsFromPalette(status: string)
    ensures StatusColor(status) in {"green", "orange", "red", "default"}
    ensures InvoiceStatusColor(status) in {"success", "processing", "default"}
    ensures PaymentStatusColor(status) in {"success", "warning", "error", "default"}
    ensures QuantityStatusColor(status) in {"blue", "green", "orange", "red", "purple", "default"}
  {
    if status in CashflowStatusColors {
      assert status in {"Active", "Reversed", "Reversal", "Defunct"};
    }
    if status in InvoiceStatusColors {
      assert status in {"Fully Invoiced", "Partially Invoiced", "Not Invoiced"};
    }
    if status in PaymentStatusColors {
      assert status in {"Fully Paid", "Partially Paid", "Unpaid"};
    }
    if status in QuantityStatusColors {
      assert status in {"Contractual", "Actual", "Scheduled", "Reversed", "Reversal"};
    }
  }

  // ---------------------------------------------------------------------
  // Columns of the current view

  /** `filteredColumns` as written: `currentView.columns` is tested for
      truthiness, and an empty array is truthy, so a current view whose
      list is empty keeps no column at all. */
  function FilteredColumnsAsWritten(all: seq<Column>, current: Option<CashFlowConsole.SavedView>): (r: seq<Column>)
    ensures current.None? ==> r == all
    ensures current.Some? ==> forall c :: c in r <==> c in all && c.key in current.value.columns
  {
    if current.Some? then Filter(all, (c: Column) => c.key in current.value.columns) else all
  }

  /** `filteredColumns` as intended: the columns of `allColumns`, in that
      order, restricted to the current view's list when it names any. */
  function FilteredColumns(all: seq<Column>, current: Option<CashFlowConsole.SavedView>): (r: seq<Column>)
    ensures current.None? || current.value.columns == [] ==> r == all
    ensures current.Some? && current.value.columns != [] ==>
      forall c :: c in r <==> c in all && c.key in current.value.columns
  {
    if current.Some? && current.value.columns != [] then Filter(all, (c: Column) => c.key in current.value.columns)
    else all
  }

  /** A view saved from the view form (which has no column list, so
      `columns` defaults to `[]`) hides every column of the table once it is
      current, as written; the intended filter shows them all. */
  lemma SavedViewHidesAllColumns(all: seq<Column>, name: string, description: string, id: string, createdAt: string)
    ensures var v := CashFlowConsole.NewView(CashFlowConsole.ViewData(name, description, None, None), id, createdAt);
      FilteredColumnsAsWritten(all, Some(v)) == [] && FilteredColumns(all, Some(v)) == all
  {
    var v := CashFlowConsole.NewView(CashFlowConsole.ViewData(name, description, None, None), id, createdAt);
    FilterKeepsNone(all, (c: Column) => c.key in v.columns);
  }

  // ---------------------------------------------------------------------
  // Context menus

  /** `getContextMenuActions()`. A header menu offers Best Fit, Group by and
      Ungroup by for the column, then Sum and Average for a numeric column; a
      row menu offers Split Cash Flow and Drill Down, then the manual-group
      entries its row count, the known groups and the clicked row call for.
      `bestFit` is `tableRef.current?.isBestFitEnabled()`, `availableGroups`
      the length of `availableGroups`. */
  method GetContextMenuActions(menu: MenuState, allColumns: seq<Column>, bestFit: bool, availableGroups: nat)
    returns (actions: seq<Action>)
    ensures IsHeaderMenu(menu) ==>
      var col := MenuColumn(allColumns, menu.columnKey);
      var title := TitleText(col);
      && |actions| == (if IsNumberColumn(col) then 5 else 3)
      && actions[0] == Action(BestFitLabel(bestFit), ToggleBestFit)
      && actions[1] == Action("Group by " + title, GroupBy(menu.columnKey))
      && actions[2] == Action("Ungroup by " + title, UngroupBy(menu.columnKey))
      && (IsNumberColumn(col) ==>
            && actions[3] == Action("Sum " + title, AggregateColumn(menu.columnKey, "sum"))
            && actions[4] == Action("Average " + title, AggregateColumn(menu.columnKey, "average")))
    ensures !IsHeaderMenu(menu) ==>
      var rows := menu.rows;
      var multiple := |rows| > 1;
      && |actions| == 2 + (if multiple then 1 else 0) + (if multiple && availableGroups > 0 then 1 else 0)
                        + (if IsGroupedItem(menu.clickedRow) then 1 else 0)
      && actions[0] == Action("Split Cash Flow", SplitCashFlow(rows))
      && actions[1] == Action("Drill Down", DrillDown(rows))
      && (Action("Create New Group", CreateNewGroup(rows)) in actions <==> multiple)
      && (Action("Add to Existing Group", AddToExistingGroup(rows)) in actions <==> multiple && availableGroups > 0)
      && (Action("Remove from Group", RemoveFromGroup(menu.clickedRow)) in actions <==> IsGroupedItem(menu.clickedRow))
  {
    actions := [];
    var rows := menu.rows;
    if IsHeaderMenu(menu) {
      var column := MenuColumn(allColumns, menu.columnKey);
      var title := TitleText(column);
      actions := actions + [Action(BestFitLabel(bestFit), ToggleBestFit)];
      actions := actions + [Action("Group by " + title, GroupBy(menu.columnKey))];
      actions := actions + [Action("Ungroup by " + title, UngroupBy(menu.columnKey))];
      if IsNumberColumn(column) {
        actions := actions + [Action("Sum " + title, AggregateColumn(menu.columnKey, "sum"))];
        actions := actions + [Action("Average " + title, AggregateColumn(menu.columnKey, "average"))];
      }
    }
    if !IsHeaderMenu(menu) {
      var isMultiple := |rows| > 1;
      actions := actions + [Action("Split Cash Flow", SplitCashFlow(rows)), Action("Drill Down", DrillDown(rows))];
      if isMultiple {
        actions := actions + [Action("Create New Group", CreateNewGroup(rows))];
        if availableGroups > 0 {
          actions := actions + [Action("Add to Existing Group", AddToExistingGroup(rows))];
        }
      }
      if IsGroupedItem(menu.clickedRow) {
        actions := actions + [Action("Remove from Group", RemoveFromGroup(menu.clickedRow))];
      }
    }
  }

  // ---------------------------------------------------------------------
  // Export

  predicate IsMoneyKey(key: string)
  {
    Contains(key, "Amount") || key == "price"
  }

  /** The cell `handleExport` writes for a column key and a value: money
      for the amount and price columns, the premium defaulting to 0, the
      cost as a percentage, dates and numbers in the locale's format, any
      other value as it is. */
  function CashFlowCell(col: Column, value: Option<Value>): (c: Cell)
    ensures c.Money? <==> IsMoneyKey(col.key) && Truthy(value)
    ensures c.Raw? ==> c.v == value || (col.key == "premiumDiscount" && c.v == Some(Num(0)))
    ensures !Truthy(value) && col.key == "costPercentage" ==> OrDash(c) == Text("0%")
    ensures !Truthy(value) && col.key != "costPercentage"
            && (IsMoneyKey(col.key) || col.key == "premiumDiscount" || !(value.Some? && value.value.Num?)) ==>
            OrDash(c) == Text("-")
    ensures value == Some(Num(0)) && !IsMoneyKey(col.key) && col.key != "premiumDiscount" && col.key != "costPercentage" ==>
            OrDash(c) == LocalNumber(0)
  {
    var key := col.key;
    LacksFirstChar("costPercentage", "Amount");
    if IsMoneyKey(key) then (if Truthy(value) then Money(ToNumber(value)) else Text("-"))
    else if key == "premiumDiscount" then (if Truthy(value) then Raw(value) else Raw(Some(Num(0))))
    else if key == "costPercentage" then (if Truthy(value) then Text(JsString(value) + "%") else Text("0%"))
    else if Contains(key, "Date") && Truthy(value) then LocalDate(value.value)
    else if value.Some? && value.value.Num? then LocalNumber(value.value.n)
    else Raw(value)
  }

  /** `handleExport()`: every row of `data` over the columns the table shows,
      written to `cashflow_export_<date>.xlsx`. */
  method HandleExport(w: Wrapper, data: seq<Row>, allColumns: seq<Column>, date: string)
    returns (header: seq<string>, records: seq<map<string, Cell>>, fileName: string)
    ensures var visible := if w.table != null then w.table.visibleColumns else [];
      && header == (if data == [] then [] else OwnKeys(Dedupe(Titles(ExportColumns(allColumns, visible)))))
      && |records| == |data|
      && (forall i :: 0 <= i < |data| ==> records[i] == RowCells(data[i], ExportColumns(allColumns, visible), CashFlowCell))
    ensures fileName == "cashflow_export_" + date + ".xlsx"
  {
    var visible := if w.table != null then w.table.visibleColumns else [];
    header, records := ExportData(data, allColumns, visible, CashFlowCell);
    fileName := "cashflow_export_" + date + ".xlsx";
  }

  // ---------------------------------------------------------------------
  // The component

  /** The wrapper state of a cash-flow table around `table`. */
  method NewCashFlowTable(table: DataTable.Table?, store: map<string, seq<StoredView>>) returns (w: Wrapper)
    ensures fresh(w) && w.table == table && w.store == store
    ensures w.storeKey == "cashflowViews" && w.enableGrouping
    ensures w.contextMenu == Closed && w.viewName == "" && w.rowsToGroup == []
  {
    w := new Wrapper(table, "cashflowViews", true, store);
  }
}
