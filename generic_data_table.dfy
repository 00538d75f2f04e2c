/** The reusable wrapper (`GenericDataTable`): the data table with the
    caller's columns, flag-gated context menus, a caller-supplied or default
    Excel export, and saved views stored under `${title}_views`. The dialogs
    and saved views are those of `TableWrapper.Wrapper`. */
module GenericDataTable {
  import opened JsValues
  import opened ColumnLayout
  import opened TableWrapper
  import opened ExportCells
  import DataTable

  /** The storage key of a table's saved views. */
  function StoreKey(title: string): string
  {
    title + "_views"
  }

  /** The wrapper state of a generic table titled `title` around `table`. */
  method NewGenericTable(table: DataTable.Table?, title: string, enableGrouping: bool, store: map<string, seq<StoredView>>)
    returns (w: Wrapper)
    ensures fresh(w) && w.table == table && w.store == store
    ensures w.storeKey == StoreKey(title) && w.enableGrouping == enableGrouping
    ensures w.contextMenu == Closed && w.viewName == "" && w.rowsToGroup == []
  {
    w := new Wrapper(table, StoreKey(title), enableGrouping, store);
  }

  /** Two tables with different titles keep their views apart. */
  lemma StoreKeysDiffer(a: string, b: string)
    requires a != b
    ensures StoreKey(a) != StoreKey(b)
  {
    assert StoreKey(a)[..|a|] == a && StoreKey(b)[..|b|] == b;
    if |a| == |b| {
      assert a != b;
    }
  }

  // ---------------------------------------------------------------------
  // Context menus

  const ShowHide := Action("Show/Hide Columns", ShowHideColumns)

  /** The header menu of `getContextMenuActions()`: Best Fit, Group by and
      Ungroup by only with grouping enabled, Sum and Average only with
      aggregation enabled on a numeric column, then Show/Hide Columns. */
  method HeaderActions(menu: MenuState, columns: seq<Column>, bestFit: bool,
                       enableGrouping: bool, enableAggregation: bool)
    returns (actions: seq<Action>)
    ensures var col := MenuColumn(columns, menu.columnKey);
      var title := TitleText(col);
      var aggregate := enableAggregation && IsNumberColumn(col);
      && |actions| == 2 + (if enableGrouping then 2 else 0) + (if aggregate then 2 else 0)
      && actions[0] == Action(BestFitLabel(bestFit), ToggleBestFit)
      && actions[|actions| - 1] == ShowHide
      && (Action("Group by " + title, GroupBy(menu.columnKey)) in actions <==> enableGrouping)
      && (Action("Ungroup by " + title, UngroupBy(menu.columnKey)) in actions <==> enableGrouping)
      && (Action("Sum " + title, AggregateColumn(menu.columnKey, "sum")) in actions <==> aggregate)
      && (Action("Average " + title, AggregateColumn(menu.columnKey, "average")) in actions <==> aggregate)
  {
    var column := MenuColumn(columns, menu.columnKey);
    var title := TitleText(column);
    var grouping: seq<Action> := [];
    if enableGrouping {
      grouping := [Action("Group by " + title, GroupBy(menu.columnKey)),
                   Action("Ungroup by " + title, UngroupBy(menu.columnKey))];
    }
    var aggregation: seq<Action> := [];
    if enableAggregation && IsNumberColumn(column) {
      aggregation := [Action("Sum " + title, AggregateColumn(menu.columnKey, "sum")),
                      Action("Average " + title, AggregateColumn(menu.columnKey, "average"))];
    }
    actions := [Action(BestFitLabel(bestFit), ToggleBestFit)] + grouping + aggregation + [ShowHide];
    MenuParts(Action(BestFitLabel(bestFit), ToggleBestFit), grouping, aggregation, menu.columnKey, title,
              enableGrouping, enableAggregation && IsNumberColumn(column));
  }

  /** The assembled header menu: the first and last entries, its length,
      and which of the group and aggregate entries it holds. */
  lemma MenuParts(first: Action, grouping: seq<Action>, aggregation: seq<Action>,
                  key: Option<string>, title: string, group: bool, aggregate: bool)
    requires first.command == ToggleBestFit
    requires grouping == if group then [Action("Group by " + title, GroupBy(key)), Action("Ungroup by " + title, UngroupBy(key))] else []
    requires aggregation == if aggregate then [Action("Sum " + title, AggregateColumn(key, "sum")),
                                               Action("Average " + title, AggregateColumn(key, "average"))] else []
    ensures var all := [first] + grouping + aggregation + [ShowHide];
      && |all| == 2 + (if group then 2 else 0) + (if aggregate then 2 else 0)
      && all[0] == first && all[|all| - 1] == ShowHide
      && (Action("Group by " + title, GroupBy(key)) in all <==> group)
      && (Action("Ungroup by " + title, UngroupBy(key)) in all <==> group)
      && (Action("Sum " + title, AggregateColumn(key, "sum")) in all <==> aggregate)
      && (Action("Average " + title, AggregateColumn(key, "average")) in all <==> aggregate)
  {
    var all := [first] + grouping + aggregation + [ShowHide];
    var g, u := Action("Group by " + title, GroupBy(key)), Action("Ungroup by " + title, UngroupBy(key));
    var sum, avg := Action("Sum " + title, AggregateColumn(key, "sum")), Action("Average " + title, AggregateColumn(key, "average"));
    if group && aggregate {
      assert all == [first, g, u, sum, avg, ShowHide];
    } else if group {
      assert all == [first, g, u, ShowHide];
    } else if aggregate {
      assert all == [first, sum, avg, ShowHide];
    } else {
      assert all == [first, ShowHide];
    }
  }

  /** The manual-group entries of a row menu: Create New Group for several
      rows, Add to Existing Group when groups exist too, Remove from Group on
      a grouped row; none with grouping disabled. */
  method GroupActions(menu: MenuState, availableGroups: nat, enableGrouping: bool)
    returns (own: seq<Action>)
    ensures var rows := menu.rows;
      var multiple := |rows| > 1;
      var grouped := IsGroupedItem(menu.clickedRow);
      && |own| == (if enableGrouping then (if multiple then 1 else 0) + (if multiple && availableGroups > 0 then 1 else 0)
                                          + (if grouped then 1 else 0)
                   else 0)
      && (Action("Create New Group", CreateNewGroup(rows)) in own <==> enableGrouping && multiple)
      && (Action("Add to Existing Group", AddToExistingGroup(rows)) in own <==>
            enableGrouping && multiple && availableGroups > 0)
      && (Action("Remove from Group", RemoveFromGroup(menu.clickedRow)) in own <==> enableGrouping && grouped)
  {
    var rows := menu.rows;
    own := [];
    if enableGrouping {
      if |rows| > 1 {
        own := own + [Action("Create New Group", CreateNewGroup(rows))];
        if availableGroups > 0 {
          own := own + [Action("Add to Existing Group", AddToExistingGroup(rows))];
        }
      }
      if IsGroupedItem(menu.clickedRow) {
        own := own + [Action("Remove from Group", RemoveFromGroup(menu.clickedRow))];
      }
    }
  }

  /** `getContextMenuActions()`. A header menu is `HeaderActions`. A row
      menu starts with the caller's `rowActions(rows, clickedRow)` (`custom`,
      `None` when the caller gives none), then the manual-group entries of
      `GroupActions`. Both end with Show/Hide Columns. */
  method GetContextMenuActions(menu: MenuState, columns: seq<Column>, bestFit: bool, availableGroups: nat,
                               enableGrouping: bool, enableAggregation: bool, custom: Option<seq<Action>>)
    returns (actions: seq<Action>)
    ensures |actions| > 0 && actions[|actions| - 1] == ShowHide
    ensures IsHeaderMenu(menu) ==>
      var col := MenuColumn(columns, menu.columnKey);
      var title := TitleText(col);
      var aggregate := enableAggregation && IsNumberColumn(col);
      && |actions| == 2 + (if enableGrouping then 2 else 0) + (if aggregate then 2 else 0)
      && actions[0] == Action(BestFitLabel(bestFit), ToggleBestFit)
      && (Action("Group by " + title, GroupBy(menu.columnKey)) in actions <==> enableGrouping)
      && (Action("Ungroup by " + title, UngroupBy(menu.columnKey)) in actions <==> enableGrouping)
      && (Action("Sum " + title, AggregateColumn(menu.columnKey, "sum")) in actions <==> aggregate)
      && (Action("Average " + title, AggregateColumn(menu.columnKey, "average")) in actions <==> aggregate)
    ensures !IsHeaderMenu(menu) ==>
      var given := if custom.Some? then custom.value else [];
      var rows := menu.rows;
      var multiple := |rows| > 1;
      var grouped := IsGroupedItem(menu.clickedRow);
      && |actions| == |given| + 1
           + (if enableGrouping then (if multiple then 1 else 0) + (if multiple && availableGroups > 0 then 1 else 0)
                                     + (if grouped then 1 else 0)
              else 0)
      && actions[..|given|] == given
      && (Action("Create New Group", CreateNewGroup(rows)) in actions[|given|..] <==> enableGrouping && multiple)
      && (Action("Add to Existing Group", AddToExistingGroup(rows)) in actions[|given|..] <==>
            enableGrouping && multiple && availableGroups > 0)
      && (Action("Remove from Group", RemoveFromGroup(menu.clickedRow)) in actions[|given|..] <==>
            enableGrouping && grouped)
  {
    if IsHeaderMenu(menu) {
      actions := HeaderActions(menu, columns, bestFit, enableGrouping, enableAggregation);
    } else {
      var given := if custom.Some? then custom.value else [];
      var own := GroupActions(menu, availableGroups, enableGrouping);
      actions := given + own + [ShowHide];
      assert actions[..|given|] == given;
      assert actions[|given|..] == own + [ShowHide];
    }
  }

  // ---------------------------------------------------------------------
  // Export

  /** `title.toLowerCase().replace(/\s+/g, '_')` works on the result of
      `replace(/\s+/g, '_')`: each run of white space becomes one `_`. */
  function Underscored(s: string): (r: string)
    ensures forall x :: x in r ==> !IsSpace(x) && (x == '_' || x in s)
    ensures (forall x :: x in s ==> !IsSpace(x)) ==> r == s
    decreases |s|
  {
    if s == [] then []
    else if IsSpace(s[0]) then
      var rest := TrimStart(s[1..]);
      assert rest == s[1..][|s[1..]| - |rest|..];
      "_" + Underscored(rest)
    else
      [s[0]] + Underscored(s[1..])
  }

  /** Concatenation regroups freely. */
  lemma Regroup(a: string, b: string, c: string)
    ensures a + (b + c) == (a + b) + c
  {
  }

  /** A character other than white space is copied. */
  lemma UnderscoredCons(c: char, s: string)
    requires !IsSpace(c)
    ensures Underscored([c] + s) == [c] + Underscored(s)
  {
    assert ([c] + s)[1..] == s;
  }

  /** A word without white space is copied as it is. */
  lemma {:induction false} UnderscoredWord(w: string, t: string)
    requires forall x :: x in w ==> !IsSpace(x)
    ensures Underscored(w + t) == w + Underscored(t)
  {
    if w == [] {
      assert w + t == t && w + Underscored(t) == Underscored(t);
    } else {
      var c, v := w[0], w[1..];
      assert w == [c] + v;
      assert c in w;
      assert forall x :: x in v ==> x in w;
      UnderscoredWord(v, t);
      UnderscoredCons(c, v + t);
      Regroup([c], v, t);
      Regroup([c], v, Underscored(t));
    }
  }

  /** Leading white space is dropped up to the first other character. */
  lemma {:induction false} TrimStartRun(ws: string, t: string)
    requires forall x :: x in ws ==> IsSpace(x)
    requires t == [] || !IsSpace(t[0])
    ensures TrimStart(ws + t) == t
  {
    if ws == [] {
      assert ws + t == t;
    } else {
      assert ws[0] in ws;
      assert forall x :: x in ws[1..] ==> x in ws;
      assert (ws + t)[1..] == ws[1..] + t;
      TrimStartRun(ws[1..], t);
    }
  }

  /** A run of white space becomes one `_`. */
  lemma UnderscoredSpaces(ws: string, t: string)
    requires ws != [] && forall x :: x in ws ==> IsSpace(x)
    requires t == [] || !IsSpace(t[0])
    ensures Underscored(ws + t) == "_" + Underscored(t)
  {
    assert ws[0] in ws;
    assert forall x :: x in ws[1..] ==> x in ws;
    assert (ws + t)[1..] == ws[1..] + t;
    TrimStartRun(ws[1..], t);
  }

  /** A word, a run of white space and the rest: the word is kept, the
      whole run becomes one `_`, and the rest is treated the same way. */
  lemma UnderscoredRun(w: string, ws: string, t: string)
    requires forall x :: x in w ==> !IsSpace(x)
    requires ws != [] && forall x :: x in ws ==> IsSpace(x)
    requires t == [] || !IsSpace(t[0])
    ensures Underscored(w + ws + t) == w + "_" + Underscored(t)
  {
    Regroup(w, ws, t);
    UnderscoredWord(w, ws + t);
    UnderscoredSpaces(ws, t);
    Regroup(w, "_", Underscored(t));
  }

  /** The file-name prefix of the default export: the title lower-cased
      with each run of white space replaced by `_`. */
  function Slug(title: string): (r: string)
    ensures forall x :: x in r ==> !IsSpace(x) && !('A' <= x <= 'Z')
  {
    var lower := ToLower(title);
    assert forall x :: x in lower ==> !('A' <= x <= 'Z');
    Underscored(lower)
  }

  /** A slug is its own slug. */
  lemma SlugIdempotent(title: string)
    ensures Slug(Slug(title)) == Slug(title)
  {
    var u := Slug(title);
    LowerOfLower(u);
  }

  /** Lower-casing a string without upper-case letters changes nothing. */
  lemma LowerOfLower(s: string)
    requires forall x :: x in s ==> !('A' <= x <= 'Z')
    ensures ToLower(s) == s
  {
    forall i | 0 <= i < |s|
      ensures ToLower(s)[i] == s[i]
    {
      assert s[i] in s;
    }
  }

  /** Lower-casing works character by character. */
  lemma ToLowerAppend(a: string, b: string)
    ensures ToLower(a + b) == ToLower(a) + ToLower(b)
  {
  }

  /** Lower-casing keeps white space and creates none. */
  lemma LowerKeepsSpace(c: char)
    ensures IsSpace(LowerChar(c)) == IsSpace(c)
  {
  }

  /** The lowered word still has no white space. */
  lemma LowerWord(w: string)
    requires forall x :: x in w ==> !IsSpace(x)
    ensures forall x :: x in ToLower(w) ==> !IsSpace(x)
  {
    var lw := ToLower(w);
    forall x | x in lw ensures !IsSpace(x) {
      var i :| 0 <= i < |lw| && lw[i] == x;
      assert w[i] in w;
      LowerKeepsSpace(w[i]);
    }
  }

  /** The file-name prefix of a title made of a word, a run of white space
      and the rest: the lowered word, one `_`, and the prefix of the rest. */
  lemma SlugRun(w: string, ws: string, t: string)
    requires forall x :: x in w ==> !IsSpace(x)
    requires ws != [] && forall x :: x in ws ==> IsSpace(x)
    requires t == [] || !IsSpace(t[0])
    ensures Slug(w + ws + t) == ToLower(w) + "_" + Slug(t)
  {
    var lw, lt := ToLower(w), ToLower(t);
    ToLowerAppend(w + ws, t);
    ToLowerAppend(w, ws);
    LowerOfLower(ws);
    LowerWord(w);
    if t != [] {
      LowerKeepsSpace(t[0]);
    }
    assert ToLower(w + ws + t) == lw + ws + lt;
    UnderscoredRun(lw, ws, lt);
  }

  /** A title without white space only loses its upper case. */
  lemma SlugOfWord(w: string)
    requires forall x :: x in w ==> !IsSpace(x)
    ensures Slug(w) == ToLower(w)
  {
    LowerWord(w);
    var lw := ToLower(w);
    assert forall x :: x in lw ==> !IsSpace(x);
    assert Slug(w) == Underscored(lw);
  }

  /** `${slug}_export_${date}.xlsx`, `date` being the ISO date of the day. */
  function FileName(title: string, date: string): string
  {
    Slug(title) + "_export_" + date + ".xlsx"
  }

  predicate IsMoneyKey(key: string)
  {
    Contains(key, "Amount") || Contains(key, "price") || Contains(key, "amount")
  }

  /** The cell the default export writes for a column and a value: money for
      the amount and price columns, numbers in the locale's format, dates of
      a `date` column in the locale's format, any other value as it is. */
  function GenericCell(col: Column, value: Option<Value>): (c: Cell)
    ensures c.Money? <==> IsMoneyKey(col.key) && Truthy(value)
    ensures c.LocalDate? <==>
      !IsMoneyKey(col.key) && !(value.Some? && value.value.Num?) && col.kind == Some("date") && Truthy(value)
    ensures c.Raw? ==> c.v == value
    ensures !Truthy(value) && (IsMoneyKey(col.key) || !(value.Some? && value.value.Num?)) ==> OrDash(c) == Text("-")
  {
    if IsMoneyKey(col.key) then (if Truthy(value) then Money(ToNumber(value)) else Text("-"))
    else if value.Some? && value.value.Num? then LocalNumber(value.value.n)
    else if col.kind == Some("date") && Truthy(value) then LocalDate(value.value)
    else Raw(value)
  }

  /** The `{ key, title }` object the export builds for each visible column. */
  function ExportedColumn(col: Column): Column
  {
    Column(col.key, col.title, None, false)
  }

  /** The cell as written: the formatter reads `col.type` from the
      `{ key, title }` copy, where it is `undefined`, so no value is ever
      formatted as a date. */
  function GenericCellAsWritten(col: Column, value: Option<Value>): (c: Cell)
    ensures !c.LocalDate?
  {
    GenericCell(ExportedColumn(col), value)
  }

  /** A date column `due` with the value `"2024-01-15"`: written out as the
      raw string, where the date format was meant. */
  lemma DateColumnExportedRaw()
    ensures var col := Column("due", "Due", Some("date"), true);
      var v := Some(Str("2024-01-15"));
      GenericCellAsWritten(col, v) == Raw(v) && GenericCell(col, v) == LocalDate(Str("2024-01-15"))
  {
    LacksFirstChar("due", "Amount");
    LacksFirstChar("due", "price");
    LacksFirstChar("due", "amount");
  }

  /** The default export never writes a cell in the date format. */
  lemma {:induction false} RecordHasNoDates(row: Row, cols: seq<Column>)
    ensures forall t :: t in RowCells(row, cols, GenericCellAsWritten) ==> !RowCells(row, cols, GenericCellAsWritten)[t].LocalDate?
  {
    if cols != [] {
      RecordHasNoDates(row, cols[..|cols| - 1]);
    }
  }

  /** What `handleExport()` does: hand the data and the selection to the
      caller's `onExport`, or build the default workbook. */
  datatype ExportOutcome =
    | CustomExport(data: seq<Row>, selected: seq<Row>)
    | Workbook(header: seq<string>, records: seq<map<string, Cell>>, fileName: string)

  /** `handleExport()`; `onExport` tells whether the caller gave one,
      `selectedRows` is the selection the table last reported. The cells
      are formatted from the `{ key, title }` copies, as the program does. */
  method HandleExport(w: Wrapper, onExport: bool, data: seq<Row>, selectedRows: seq<Row>,
                      columns: seq<Column>, title: string, date: string)
    returns (out: ExportOutcome)
    ensures onExport ==> out == CustomExport(data, selectedRows)
    ensures !onExport ==>
      var visible := if w.table != null then w.table.visibleColumns else [];
      && out.Workbook?
      && out.header == (if data == [] then [] else OwnKeys(Dedupe(Titles(ExportColumns(columns, visible)))))
      && |out.records| == |data|
      && (forall i :: 0 <= i < |data| ==> out.records[i] == RowCells(data[i], ExportColumns(columns, visible), GenericCellAsWritten))
      && out.fileName == FileName(title, date)
  {
    if onExport {
      out := CustomExport(data, selectedRows);
    } else {
      var visible := if w.table != null then w.table.visibleColumns else [];
      var header, records := ExportData(data, columns, visible, GenericCellAsWritten);
      out := Workbook(header, records, FileName(title, date));
    }
  }
}
