# React-DataTable view engine, in Dafny

This project models the logic of the React-DataTable components: the data
table behind `CustomDataTable`, the two wrappers around it (`CashFlowTable`
and `GenericDataTable`), the cash-flow console with its filter panel, view
manager and dialog, and the two input widgets (`SearchableComboBox` and
`CustomTextInput`).

The centre of the model is the data table's view engine. From the raw rows
and the user's state it builds the ordered display sequence in stages:

- sort by the chosen column, with empty values last;
- bucket rows level by level under the active group keys, each bucket
  giving a header row;
- emit a header's rows only while its id is in the expanded set.

Around that engine sit:

- the selection;
- the column layout (the pinned and regular split, and the drag-drop
  reordering);
- the per-column sum and average;
- the view snapshot (`getCurrentView` and `applyView`).

How each kind of source code is modelled:

- **Component state** updated by event handlers becomes a Dafny `class`.
  Its fields are the React state. Its methods are the handlers, with
  `modifies` clauses and postconditions that give the whole new state.
- **Derived values** (memoised lists, labels, lookups) become functions
  with named results.
- **Loops that build arrays by `push`** become methods with loop
  invariants. Each is proved equal to a specification function.
- **Properties** that relate several calls (round trips, idempotence,
  coverage, order) are lemmas.

JavaScript values are modelled as follows:

- A value is `Value = Null | Bool | Num(int) | Str`. A row is a
  `map<string, Value>`, and a missing key is `undefined`.
- A `Set` of ids is a duplicate-free sequence in insertion order.
- An object with string keys (the filter map) is a sequence of entries in
  key-insertion order.

Modules:

- `JsValues`: truthiness, `String(v)`, `toLowerCase`, `trim`, `includes`,
  and the sequence helpers.
- `TableSort`, `GroupEngine`, `ColumnLayout`, `Aggregation` and
  `Selection`: the stages of the view engine.
- `DataTable`: the table class itself, with the view snapshot.
- `TableWrapper`, `ExportCells`, `CashFlowTable` and `GenericDataTable`: the
  wrappers.
- `CashFlowConsole`, `FilterSection`, `ViewManager` and `Modal`: the
  cash-flow console and its parts.
- `SearchableComboBox` and `CustomTextInput`: the input widgets.

## Model

| member | source | states |
|---|---|---|
| TableSort.NextSort | src/components/CustomDataTable.jsx:265-273 | the new sort key is the clicked column; the direction is `desc` exactly when that column was already sorted ascending |
| TableSort.NextSortAlternates | src/components/CustomDataTable.jsx:265-273 | repeated clicks on one column alternate the direction with period two; a click on a new column always starts ascending |
| TableSort.LocaleCompare | src/components/CustomDataTable.jsx:57-58 | the string comparison answers -1, 0 or 1, and 0 exactly for equal strings |
| TableSort.LocaleCompareAntisymmetric | src/components/CustomDataTable.jsx:57-58 | swapping the operands negates the comparison |
| TableSort.LocaleCompareTransitive | src/components/CustomDataTable.jsx:57-58 | the string comparison is a transitive order |
| TableSort.NumericOperand | src/components/CustomDataTable.jsx:60-62 | the `(a \|\| 0)` operand of the numeric comparison is the number itself for a number |
| TableSort.CompareAntisymmetric | src/components/CustomDataTable.jsx:49-63 | for two present values the comparator is antisymmetric, in both directions |
| TableSort.InsertPos | src/components/CustomDataTable.jsx:44-68 | the insertion point is past every element the inserted one compares above, and before the first it does not |
| TableSort.InsertPermutes | src/components/CustomDataTable.jsx:44-68 | inserting one row adds exactly that row to the multiset |
| TableSort.InsertSorted | src/components/CustomDataTable.jsx:44-68 | inserting into a sorted sequence keeps it sorted, nulls last |
| TableSort.InsertionSortCorrect | src/components/CustomDataTable.jsx:44-68 | for any comparator that puts nulls last, the sort is a permutation, sorted, with nulls after non-nulls |
| TableSort.RowComparatorNullsLast | src/components/CustomDataTable.jsx:49-63 | the row comparator puts a null or undefined key after every present key, in both directions, and is antisymmetric on present keys |
| TableSort.SortRowsCorrect | src/components/CustomDataTable.jsx:44-68 | `processedData` is a permutation of `data`; it is `data` itself without a sort key; with one, rows are ordered by the comparator and null keys come last |
| TableSort.InsertKeepsClassOrder | src/components/CustomDataTable.jsx:44-68 | an inserted element goes before every element of its own class, and the class keeps its order |
| TableSort.InsertionSortStable | src/components/CustomDataTable.jsx:44-68 | the sort is stable: elements that never compare greater than one another keep their relative order |
| TableSort.SortRowsStable | src/components/CustomDataTable.jsx:44-68 | rows holding the same present value in the sort column keep their order from `data`; this is the identical-value instance of `InsertionSortStable`, which also covers values the comparator calls equal, such as `5` and `"5"` |
| GroupEngine.PathIds | src/components/CustomDataTable.jsx:97 | the parent ids joined into a group id are the path's ids in order |
| GroupEngine.ParentId | src/components/CustomDataTable.jsx:131 | `_parentGroupId` is the id of the last path step, and `null` at the top level |
| GroupEngine.GroupValue | src/components/CustomDataTable.jsx:96 | a row's bucket value is its value for the key when truthy, else `'Unknown'` |
| GroupEngine.ItemIds | src/components/CustomDataTable.jsx:95-98 | every row's group id is computed from its own value |
| GroupEngine.Bucket | src/components/CustomDataTable.jsx:99-107 | the rows with one group id, in row order; its meaning is stated by `BucketMembers` and `BucketsPartition`, its own contract only bounds its length |
| GroupEngine.Leaves | src/components/CustomDataTable.jsx:81-89 | at the last level each row becomes one data row, tagged with the level, the path and the parent id, in order |
| GroupEngine.CollectBuckets | src/components/CustomDataTable.jsx:91-108 | the `forEach` that fills `groups` yields the ids in first-seen order; each id maps to exactly the rows with that id, in row order, and to the first such row's value |
| GroupEngine.BucketIdsFirstSeen | src/components/CustomDataTable.jsx:91-108 | bucket ids have no repeats, are exactly the ids that occur, and appear in order of first occurrence |
| GroupEngine.BucketMembers | src/components/CustomDataTable.jsx:99-107 | every row in a bucket is an input row with that bucket's id |
| GroupEngine.BucketsPartition | src/components/CustomDataTable.jsx:99-107 | the buckets together hold every input row exactly once |
| GroupEngine.HeaderId | src/components/CustomDataTable.jsx:97 | a header's id is the concatenation `group-<key>-<value>-<level>-<path ids>` of its own bucket value |
| GroupEngine.EmitBucketIs | src/components/CustomDataTable.jsx:113-138 | each bucket emits its header (with `itemCount` = bucket size and the bucket's total) followed by its subtree only when its id is expanded |
| GroupEngine.EmitGroup | src/components/CustomDataTable.jsx:113-138 | the loop body that pushes a header and, when expanded, its subtree computes the specified bucket output |
| GroupEngine.EmitAll | src/components/CustomDataTable.jsx:113-138 | the pass over the collected buckets in insertion order yields the specified headers and subtrees for each id |
| GroupEngine.GroupDataRecursively | src/components/CustomDataTable.jsx:80-141 | the recursive builder equals the specification of the grouped display at every level |
| GroupEngine.BuildHierarchicalData | src/components/CustomDataTable.jsx:71-144 | `buildHierarchicalData` equals the specification of the display sequence |
| GroupEngine.BuildWithoutGroups | src/components/CustomDataTable.jsx:72-78 | with no active groups the display is the processed rows in order, each a level-0 data row |
| GroupEngine.BuildCovers | src/components/CustomDataTable.jsx:81-138 | when every displayed header is expanded, the display's data rows are exactly the processed rows, each once |
| GroupEngine.GroupCovers | src/components/CustomDataTable.jsx:80-141 | the same coverage at every level of the recursion |
| GroupEngine.BuildPlaced | src/components/CustomDataTable.jsx:81-138 | with groups active, every data row sits at level `activeGroups.length`, its path's groups are all expanded and its parent is the last path id; every header's id, column, level and parent match its path |
| GroupEngine.GroupPlaced | src/components/CustomDataTable.jsx:80-141 | the same placement at every level of the recursion |
| GroupEngine.DataRows | src/components/CustomDataTable.jsx:71-144 | the data rows of a display, in order; its meaning is stated by `DataRowsLeaves` and `BuildCovers`, its own contract only bounds its length |
| GroupEngine.DataRowsLeaves | src/components/CustomDataTable.jsx:81-89 | the data rows of the last level are the input rows in order |
| GroupEngine.HeaderIds | src/components/CustomDataTable.jsx:222-227 | the header ids of a display are exactly the ids of its header rows |
| GroupEngine.ChildHeaderIds | src/components/CustomDataTable.jsx:204-210 | the child ids collected are exactly the ids of displayed headers whose parent is the given id |
| ColumnLayout.Keys | src/components/CustomDataTable.jsx:27-28 | the column keys in column order |
| ColumnLayout.FindColumn | src/components/CustomDataTable.jsx:339 | `columns.find` gives the first column with the key, and nothing exactly when no column has it |
| ColumnLayout.FilterByKeys | src/components/CustomDataTable.jsx:37-41 | the pinned (or regular) columns are exactly the columns whose key is (or is not) pinned |
| ColumnLayout.SplitPartitions | src/components/CustomDataTable.jsx:37-41 | the pinned and regular columns together are the columns, each once |
| ColumnLayout.SortByPosition | src/components/CustomDataTable.jsx:153-162 | sorting by position in a key list is a permutation ordered by that position |
| ColumnLayout.DisplayRegularCorrect | src/components/CustomDataTable.jsx:153-156 | the displayed regular columns are exactly the visible unpinned ones, ordered by `columnOrder` |
| ColumnLayout.DisplayPinnedCorrect | src/components/CustomDataTable.jsx:159-162 | the displayed pinned columns are exactly the visible pinned ones, ordered by `pinnedColumns` |
| ColumnLayout.SplicePos | src/components/CustomDataTable.jsx:323 | `splice` at a start in range inserts there; a start of -1 inserts before the last element |
| ColumnLayout.SpliceIn | src/components/CustomDataTable.jsx:323 | `splice(start, 0, x)` lengthens the order by one |
| ColumnLayout.SpliceRemove | src/components/CustomDataTable.jsx:320-324 | removing the inserted key undoes the splice |
| ColumnLayout.SpliceIndex | src/components/CustomDataTable.jsx:323 | the moved key ends up at the splice position |
| ColumnLayout.SpliceNoDup | src/components/CustomDataTable.jsx:320-324 | the splice keeps a duplicate-free order duplicate-free |
| ColumnLayout.ReinsertAt | src/components/CustomDataTable.jsx:320-324 | the dragged key is removed and put back at the target's index in the shortened order |
| ColumnLayout.ReinsertKeepsOthers | src/components/CustomDataTable.jsx:320-324 | every other key keeps its relative order |
| ColumnLayout.ReinsertBeforeTarget | src/components/CustomDataTable.jsx:320-324 | with the target present, the dragged key lands immediately before the target |
| ColumnLayout.ReinsertMissingTarget | src/components/CustomDataTable.jsx:320-324 | with the target absent (`indexOf` = -1), the dragged key lands before the last key |
| ColumnLayout.DropNoOp | src/components/CustomDataTable.jsx:315-318 | a drop with a missing key or onto itself leaves `columnOrder` unchanged |
| ColumnLayout.DropKeepsKeys | src/components/CustomDataTable.jsx:307-328 | a drop keeps the same keys, each once |
| Aggregation.TotalAppend | src/components/CustomDataTable.jsx:345 | the reduce over two concatenated lists is the sum of the two reduces |
| Aggregation.TotalPermutation | src/components/CustomDataTable.jsx:345 | the reduce does not depend on row order |
| Aggregation.TotalPointwise | src/components/CustomDataTable.jsx:345 | the reduce depends only on the per-row terms |
| Aggregation.Term | src/components/CustomDataTable.jsx:345 | a row's term `(+v \|\| 0)` is the number when there is one, else 0 |
| Aggregation.CountAsWrittenIsAll | src/components/CustomDataTable.jsx:348 | as written, the average's count filter keeps every row, so the divisor is the number of rows |
| Aggregation.CountPresentBounds | src/components/CustomDataTable.jsx:346-349 | the corrected count lies between 0 and the number of rows |
| Aggregation.SumIsCountedTotal | src/components/CustomDataTable.jsx:345 | a row whose value is missing or not numeric adds 0 to the sum |
| Aggregation.AverageIsMeanOfPresent | src/components/CustomDataTable.jsx:345-349 | the corrected average times the count of present values is the sum; it agrees with the as-written average when no value is missing |
| Aggregation.AggregatesIgnoreOrder | src/components/CustomDataTable.jsx:337-360 | sum and both averages do not depend on row order |
| Aggregation.AverageExample | src/components/CustomDataTable.jsx:346-349 | for three rows of which one lacks the value, the sum is 150, the as-written average 50 and the corrected average 75 |
| Aggregation.Compute | src/components/CustomDataTable.jsx:343-358 | the stored aggregate carries the operation; "sum" stores the sum, "average" the sum divided by the number of processed rows (0 without rows), as the program computes it; any other operation stores no value |
| Aggregation.StoredAverageExample | src/components/CustomDataTable.jsx:343-358 | on rows 100, 50 and `null` the table stores the average 50 |
| Selection.Check | src/components/CustomDataTable.jsx:239-244 | checking a row keeps the selection as a prefix, adds the row only when its id is absent, and leaves the id selected |
| Selection.Uncheck | src/components/CustomDataTable.jsx:245-248 | unchecking keeps exactly the rows with other ids |
| Selection.CheckKeepsUnique | src/components/CustomDataTable.jsx:239-244 | checking never creates a duplicate id |
| Selection.UncheckKeepsUnique | src/components/CustomDataTable.jsx:245-248 | unchecking keeps ids unique |
| Selection.CheckUncheck | src/components/CustomDataTable.jsx:234-253 | checking a new row and unchecking it gives the selection back |
| Selection.CheckIdempotent | src/components/CustomDataTable.jsx:239-244 | checking a row twice is checking it once |
| Selection.SelectableRows | src/components/CustomDataTable.jsx:256 | select-all takes exactly the processed rows with a truthy id |
| Selection.ContextRows | src/components/CustomDataTable.jsx:279-281 | a row menu with a selection acts on the selection; otherwise on the clicked row alone, or on nothing |
| DataTable.AddGroup | src/components/CustomDataTable.jsx:173-176 | grouping by a key adds it at the end only when absent; the members are the old keys plus the new one |
| DataTable.AddGroupIdempotent | src/components/CustomDataTable.jsx:170-177 | grouping twice by a key is grouping once, and the list stays duplicate-free |
| DataTable.GroupUngroupRoundTrip | src/components/CustomDataTable.jsx:170-190 | grouping by a new key and then ungrouping it restores the active groups |
| DataTable.KeepNotContaining | src/components/CustomDataTable.jsx:183-189 | ungrouping keeps exactly the expanded ids that do not contain `group-<key>` |
| DataTable.RemoveEach | src/components/CustomDataTable.jsx:212 | deleting a list of ids keeps exactly the ids not in the list |
| DataTable.RemoveEachKeepsNoDup | src/components/CustomDataTable.jsx:212 | the deletion keeps the expanded set duplicate-free |
| DataTable.UngroupMatchesColumn | src/components/CustomDataTable.jsx:185 | every id built for a key contains `group-<key>`, so ungrouping collapses all of that key's headers |
| DataTable.UngroupMatchesLongerKey | src/components/CustomDataTable.jsx:185 | the test also matches ids of any key that starts with the ungrouped key |
| DataTable.GroupsToRemove | src/components/CustomDataTable.jsx:204-210 | the ids to collapse are the toggled id followed by its displayed child header ids |
| DataTable.DeleteEach | src/components/CustomDataTable.jsx:212 | the loop of `delete` calls leaves exactly `RemoveEach` of the set |
| DataTable.ApplyCurrentView | src/components/CustomDataTable.jsx:388-405 | applying the current view restores every field of the snapshot |
| DataTable.ApplyViewIdempotent | src/components/CustomDataTable.jsx:397-405 | applying a view twice is applying it once; pinned columns never change; a view with every field absent changes nothing |
| DataTable.AggregateIgnoresSort | src/components/CustomDataTable.jsx:337-360 | an aggregate over the sorted rows equals the aggregate over the unsorted ones |
| DataTable.Table.constructor | src/components/CustomDataTable.jsx:23-34 | the first render: nothing selected (so no repeated id), unsorted, no groups, all columns visible in column order, no aggregates, no drag |
| DataTable.Table.GroupByColumn | src/components/CustomDataTable.jsx:170-177 | the active groups become `AddGroup` of the key with grouping enabled, and are unchanged otherwise |
| DataTable.DeleteMatching | src/components/CustomDataTable.jsx:183-188 | deleting each matching id from a copy of a duplicate-free set leaves exactly the ids that do not include the pattern, in order |
| DataTable.Table.UngroupByColumn | src/components/CustomDataTable.jsx:179-190 | the key leaves the active groups, and every expanded id containing `group-<key>` is deleted |
| DataTable.Table.ClearAllGroups | src/components/CustomDataTable.jsx:192-195 | both the active groups and the expanded set become empty |
| DataTable.Table.HandleGroupToggle | src/components/CustomDataTable.jsx:198-219 | an unexpanded id is added; an expanded one is removed together with its displayed child headers; the set stays duplicate-free |
| DataTable.Table.ExpandAllGroups | src/components/CustomDataTable.jsx:222-227 | the expanded set becomes exactly the displayed header ids |
| DataTable.Table.CollapseAllGroups | src/components/CustomDataTable.jsx:229-231 | the expanded set becomes empty |
| DataTable.Table.HandleRowSelect | src/components/CustomDataTable.jsx:234-253 | a missing or non-data row changes nothing and reports nothing; otherwise the row is checked or unchecked and the new selection reported; a selection with distinct ids keeps them distinct |
| DataTable.Table.HandleSelectAll | src/components/CustomDataTable.jsx:255-262 | `true` selects exactly the processed rows with a truthy id, `false` none; the new selection is reported; the expanded-id invariant `Valid()` holds again; the selected ids stay distinct exactly when the selectable rows' ids are |
| DataTable.Table.HandleSort | src/components/CustomDataTable.jsx:265-273 | during a drag nothing changes; otherwise the sort becomes `NextSort` and is reported |
| DataTable.Table.OnHeaderDragStart | src/components/CustomDataTable.jsx:287-299 | a drag starts only with reordering enabled on an unpinned column |
| DataTable.Table.OnHeaderDragOver | src/components/CustomDataTable.jsx:301-305 | the hovered key is recorded only with reordering enabled |
| DataTable.Table.OnHeaderDrop | src/components/CustomDataTable.jsx:307-328 | with reordering enabled, the column order becomes `Drop` of the dragged and target keys, and both drag keys are cleared |
| DataTable.Table.OnHeaderDragEnd | src/components/CustomDataTable.jsx:330-334 | both drag keys are cleared |
| DataTable.Table.ReleaseDrag | src/components/CustomDataTable.jsx:316-333 | the drag flag is released |
| DataTable.Table.CalculateAggregation | src/components/CustomDataTable.jsx:337-360 | with aggregation enabled on a `number` column, the key's aggregate becomes `Compute` over the processed rows (the average over every processed row); otherwise nothing changes |
| DataTable.Table.ToggleBestFit | src/components/CustomDataTable.jsx:363-365 | the best-fit flag flips |
| DataTable.Table.UpdateColumns | src/components/CustomDataTable.jsx:368-371 | the visible columns and the column order become the given lists |
| DataTable.Table.ApplyView | src/components/CustomDataTable.jsx:397-405 | the snapshot becomes `Merge` of the view into the old one: present fields replace, absent ones keep, pinned columns stay |
| TableWrapper.FindView | src/View/CashFlow/Components/CashFlowTable.jsx:188 | the view found is the first with the id, and there is none exactly when no view has it |
| TableWrapper.SaveThenFind | src/View/CashFlow/Components/CashFlowTable.jsx:163-193 | a view saved under a fresh id is the one loaded by that id |
| TableWrapper.SaveKeepsFound | src/View/CashFlow/Components/CashFlowTable.jsx:163-193 | saving never changes which view an existing id loads |
| TableWrapper.SaveLoadRestores | src/View/CashFlow/Components/CashFlowTable.jsx:163-193 | saving the current view and loading it straight back leaves the table's view unchanged |
| TableWrapper.ToggleColumn | src/View/CashFlow/Components/CashFlowTable.jsx:990-996 | an unchecked key is appended; a checked key is removed in every occurrence; other keys keep their membership |
| TableWrapper.ToggleTwice | src/View/CashFlow/Components/CashFlowTable.jsx:990-996 | checking and unchecking a column gives the selection back |
| TableWrapper.ToggleKeepsNoDup | src/View/CashFlow/Components/CashFlowTable.jsx:990-996 | toggling keeps the selection duplicate-free |
| TableWrapper.Wrapper.constructor | src/View/CashFlow/Components/CashFlowTable.jsx:14-36 | the first render: menu closed, no dialog open, empty names and selections |
| TableWrapper.Wrapper.OpenCreateGroup | src/components/GenericDataTable.jsx:139-144 | with grouping enabled, remembers the rows, opens the dialog and closes the menu; otherwise nothing changes |
| TableWrapper.Wrapper.OpenAddToGroup | src/components/GenericDataTable.jsx:146-151 | the same for the add-to-group dialog |
| TableWrapper.Wrapper.ConfirmNewGroup | src/View/CashFlow/Components/CashFlowTable.jsx:209-217 | a request is made exactly for a non-blank name with a table, carrying the trimmed name and the rows |
| TableWrapper.Wrapper.ConfirmAddToGroup | src/View/CashFlow/Components/CashFlowTable.jsx:219-228 | a request is made exactly for a chosen group with a table |
| TableWrapper.Wrapper.CancelGroup | src/View/CashFlow/Components/CashFlowTable.jsx:230-236 | both group dialogs close and their fields reset |
| TableWrapper.Wrapper.ShowColumnsModal | src/View/CashFlow/Components/CashFlowTable.jsx:145-154 | with a table, the dialog starts from the table's visible columns and order; the dialog opens and the menu closes |
| TableWrapper.Wrapper.ToggleColumnChecked | src/View/CashFlow/Components/CashFlowTable.jsx:990-996 | the dialog selection becomes `ToggleColumn` of the key |
| TableWrapper.Wrapper.SubmitColumns | src/View/CashFlow/Components/CashFlowTable.jsx:967-973 | with a table, its visible columns and order become the dialog's; sort and groups are untouched; the dialog closes |
| TableWrapper.Wrapper.SaveView | src/View/CashFlow/Components/CashFlowTable.jsx:163-183 | with a non-blank name and a table, a view with the trimmed name and the table's snapshot is appended; otherwise nothing changes |
| TableWrapper.Wrapper.LoadView | src/View/CashFlow/Components/CashFlowTable.jsx:186-193 | the first stored view with the id is applied to the table; an unknown id changes nothing |
| ExportCells.OrDash | src/View/CashFlow/Components/CashFlowTable.jsx:284 | `value \|\| '-'` is always truthy, keeps a truthy cell, and is `'-'` for a falsy one |
| ExportCells.ExportColumns | src/View/CashFlow/Components/CashFlowTable.jsx:257-262 | the exported columns are exactly the visible ones, in column order |
| ExportCells.Titles | src/View/CashFlow/Components/CashFlowTable.jsx:284 | the record keys are the column titles in order |
| ExportCells.RowCellsCorrect | src/View/CashFlow/Components/CashFlowTable.jsx:265-287 | a record has one entry per title, holding the last column with that title, formatted and dashed |
| ExportCells.FillRow | src/View/CashFlow/Components/CashFlowTable.jsx:266-286 | the `forEach` that fills one record computes `RowCells` |
| ExportCells.ExportData | src/View/CashFlow/Components/CashFlowTable.jsx:257-292 | one record per data row, over the visible columns; the header is the records' keys in `Object.keys` order, so none without data, and otherwise the distinct titles with the array-index titles first |
| ExportCells.OwnKeysOrder | src/View/CashFlow/Components/CashFlowTable.jsx:265-292 | `Object.keys` of a record lists every title once: the array indices (such as `"2024"`) first in ascending numeric order, then the other titles in creation order |
| ExportCells.OwnKeysOfNames | src/View/CashFlow/Components/CashFlowTable.jsx:265-292 | without an array-index title, the keys keep their creation order |
| ExportCells.YearTitlesFirst | src/components/GenericDataTable.jsx:97-114 | the titles `Name`, `2024`, `2023` give the header `2023`, `2024`, `Name` |
| ExportCells.ExportTitlesInOrder | src/View/CashFlow/Components/CashFlowTable.jsx:257-292 | when no column title is an array index, the header is the distinct visible titles in column order |
| CashFlowTable.ColorFor | src/View/CashFlow/Components/CashFlowTable.jsx:39-76 | a colour lookup gives the mapped colour, or `'default'` for an unknown status |
| CashFlowTable.ColorsFromPalette | src/View/CashFlow/Components/CashFlowTable.jsx:39-76 | each of the four lookups answers only colours from its own table or `'default'` |
| CashFlowTable.FilteredColumnsAsWritten | src/View/CashFlow/Components/CashFlowTable.jsx:728-733 | as written, with a current view the columns are exactly those its list names, so an empty list keeps none |
| CashFlowTable.FilteredColumns | src/View/CashFlow/Components/CashFlowTable.jsx:728-733 | corrected: all columns without a view or with an empty list; otherwise exactly those the list names |
| CashFlowTable.SavedViewHidesAllColumns | src/View/CashFlow/Components/CashFlowTable.jsx:728-733 | a view saved without a column list hides every column as written; the corrected filter shows all |
| CashFlowTable.GetContextMenuActions | src/View/CashFlow/Components/CashFlowTable.jsx:736-818 | the header menu is Best Fit, Group by and Ungroup by, then Sum and Average for a number column; the row menu starts with Split and Drill Down, and has Create New Group iff several rows, Add to Existing Group iff also known groups, Remove from Group iff a grouped item |
| CashFlowTable.CashFlowCell | src/View/CashFlow/Components/CashFlowTable.jsx:268-284 | money formatting for the amount and price keys with a truthy value; a falsy `premiumDiscount` becomes 0 and is then written as `'-'`; a falsy `costPercentage` writes `0%`; other falsy values write `'-'` |
| CashFlowTable.HandleExport | src/View/CashFlow/Components/CashFlowTable.jsx:247-300 | every row of `data` over the visible columns, with the cash-flow formatter, to `cashflow_export_<date>.xlsx`; the header is `ExportData`'s, which is the titles in column order for the program's own titles (lines 317-583), none of them an array index |
| CashFlowTable.NewCashFlowTable | src/View/CashFlow/Components/CashFlowTable.jsx:13-36 | the wrapper stores views under `cashflowViews` with grouping always on |
| GenericDataTable.NewGenericTable | src/components/GenericDataTable.jsx:20-50 | the wrapper stores views under `${title}_views` and honours `enableGrouping` |
| GenericDataTable.StoreKeysDiffer | src/components/GenericDataTable.jsx:199-218 | tables with different titles store their views under different keys |
| GenericDataTable.HeaderActions | src/components/GenericDataTable.jsx:234-272 | Best Fit first; Group by and Ungroup by iff grouping is enabled; Sum and Average iff aggregation is enabled on a number column; Show/Hide Columns last |
| GenericDataTable.GroupActions | src/components/GenericDataTable.jsx:280-300 | with grouping enabled, the CashFlow table's multiplicity, known-group and grouped-item conditions; nothing without grouping |
| GenericDataTable.GetContextMenuActions | src/components/GenericDataTable.jsx:230-310 | every menu ends with Show/Hide Columns; a row menu starts with the custom row actions unchanged |
| GenericDataTable.Underscored | src/components/GenericDataTable.jsx:117 | replacing whitespace runs leaves no whitespace, adds only `_`, and changes no string without whitespace; the run-by-run mapping is stated by `UnderscoredWord`, `UnderscoredSpaces` and `UnderscoredRun` |
| GenericDataTable.UnderscoredWord | src/components/GenericDataTable.jsx:117 | a stretch without whitespace is copied unchanged, in order |
| GenericDataTable.UnderscoredSpaces | src/components/GenericDataTable.jsx:117 | a whole run of whitespace, up to the next other character, becomes exactly one `_` |
| GenericDataTable.UnderscoredRun | src/components/GenericDataTable.jsx:117 | a word, a whitespace run and the rest map to the word, one `_`, and the mapped rest |
| GenericDataTable.Slug | src/components/GenericDataTable.jsx:117 | the file-name prefix has no whitespace and no upper-case letter; the mapping itself is stated by `SlugRun` and `SlugOfWord` |
| GenericDataTable.SlugRun | src/components/GenericDataTable.jsx:117 | a title made of a word, a whitespace run and the rest gives the lowered word, one `_`, and the prefix of the rest |
| GenericDataTable.SlugOfWord | src/components/GenericDataTable.jsx:117 | a title without whitespace gives exactly its lower-cased form |
| GenericDataTable.SlugIdempotent | src/components/GenericDataTable.jsx:117 | slugging a slug changes nothing |
| GenericDataTable.GenericCell | src/components/GenericDataTable.jsx:101-108 | corrected: money iff a money key with a truthy value; a locale date iff a truthy non-number value in a `date` column; raw values kept; falsy values dashed |
| GenericDataTable.GenericCellAsWritten | src/components/GenericDataTable.jsx:90-108 | as written, an exported cell is never a date |
| GenericDataTable.DateColumnExportedRaw | src/components/GenericDataTable.jsx:90-108 | a date string in a `date` column is exported raw as written, and as a locale date when corrected |
| GenericDataTable.HandleExport | src/components/GenericDataTable.jsx:82-136 | with `onExport` the data and selection go to the caller; otherwise the default export's header (array-index titles such as years first, by `ExportData`), one record per data row with cells formatted from the `{ key, title }` column copies, and `<slug>_export_<date>.xlsx` |
| GenericDataTable.RecordHasNoDates | src/components/GenericDataTable.jsx:90-108 | no cell of a default export record is in the date format |
| SearchableComboBox.ValueOf | src/components/SearchableComboBox.jsx:27-31 | undefined for a falsy item, the item itself for a primitive, the value field of an object |
| SearchableComboBox.TitleOf | src/components/SearchableComboBox.jsx:34-38 | `''` for a falsy item, `String(item)` for a primitive, the title field of an object or `'Unknown'` |
| SearchableComboBox.PlaceholderShowsId | src/components/SearchableComboBox.jsx:54 | the placeholder for an unknown id has that id as its value and `ID: <id>` as its title |
| SearchableComboBox.Resolve | src/components/SearchableComboBox.jsx:49-56 | an object passes through; a primitive becomes the first item whose value loosely equals it, or the placeholder |
| SearchableComboBox.Initial | src/components/SearchableComboBox.jsx:41-92 | an empty or falsy value selects nothing; an array in multiple mode resolves each element; single mode selects at most one item |
| SearchableComboBox.UnknownIdBecomesPlaceholder | src/components/SearchableComboBox.jsx:41-92 | an id no item has becomes the placeholder, in either mode |
| SearchableComboBox.KnownIdSelectsItem | src/components/SearchableComboBox.jsx:79-88 | a known id selects the first item with that value |
| SearchableComboBox.FilteredItems | src/components/SearchableComboBox.jsx:95-102 | an empty term keeps all items; otherwise exactly the items whose lower-cased title contains the lower-cased term, in order |
| SearchableComboBox.TypingNarrows | src/components/SearchableComboBox.jsx:95-102 | typing more characters never adds an item |
| SearchableComboBox.Toggled | src/components/SearchableComboBox.jsx:121-134 | a selected item is removed with every item of its value, an unselected one appended; selectedness flips |
| SearchableComboBox.ToggleTwice | src/components/SearchableComboBox.jsx:121-134 | selecting and deselecting an item gives the selection back |
| SearchableComboBox.ValuesOf | src/components/SearchableComboBox.jsx:132 | the reported values are the selection's values in order |
| SearchableComboBox.ComboBox.constructor | src/components/SearchableComboBox.jsx:18-21 | the first render: empty search, closed, unfocused, and the selection the value resolves to |
| SearchableComboBox.ComboBox.SyncValue | src/components/SearchableComboBox.jsx:41-92 | a new value prop sets the selection to `Initial` of it |
| SearchableComboBox.ComboBox.SelectItem | src/components/SearchableComboBox.jsx:120-142 | multiple mode toggles the item and reports the values; single mode selects only the item, closes, clears the search and reports its value |
| SearchableComboBox.ComboBox.RemoveItem | src/components/SearchableComboBox.jsx:145-155 | every item with that value goes and the others stay; reports the values or `null` |
| SearchableComboBox.ComboBox.Clear | src/components/SearchableComboBox.jsx:158-163 | empties the selection and the search; reports `[]` or `null`; the clear icon disappears |
| SearchableComboBox.ComboBox.ShowsClear | src/components/SearchableComboBox.jsx:247 | the clear icon's condition: clearable with something selected; `Clear` ensures it turns off |
| SearchableComboBox.ComboBox.ToggleDropdown | src/components/SearchableComboBox.jsx:166-176 | disabled: nothing changes; otherwise the dropdown flips, and closing clears the search |
| SearchableComboBox.ComboBox.SetSearchTerm | src/components/SearchableComboBox.jsx:238 | the search term becomes the typed text |
| SearchableComboBox.ComboBox.InputFocus | src/components/SearchableComboBox.jsx:179-184 | focusing marks focus and opens the dropdown |
| SearchableComboBox.ComboBox.InputBlur | src/components/SearchableComboBox.jsx:187-190 | blurring clears focus |
| SearchableComboBox.ComboBox.PlaceholderText | src/components/SearchableComboBox.jsx:241 | the placeholder shows only while nothing is selected |
| SearchableComboBox.ComboBox.EmptyText | src/components/SearchableComboBox.jsx:265 | the empty list says No items found with a search term, No items available without |
| CustomTextInput.NoDotIffNoCount | src/components/CustomTextInput.jsx:49-53 | the dot count is 0 exactly when there is no dot |
| CustomTextInput.DotCountAppend | src/components/CustomTextInput.jsx:49-53 | dot counts add over concatenation |
| CustomTextInput.SanitizeNumeric | src/components/CustomTextInput.jsx:46-47 | the sanitised value holds only ASCII digits and dots |
| CustomTextInput.SanitizeOneDot | src/components/CustomTextInput.jsx:49-53 | the sanitised value has at most one dot |
| CustomTextInput.SanitizeKeepsDigits | src/components/CustomTextInput.jsx:46-53 | the digits of the input are kept, in order |
| CustomTextInput.SanitizeFixedPoints | src/components/CustomTextInput.jsx:46-53 | sanitising leaves a string unchanged exactly when it is digits and dots with at most one dot |
| CustomTextInput.SanitizeIdempotent | src/components/CustomTextInput.jsx:46-53 | sanitising twice is sanitising once |
| CustomTextInput.PatternIsClean | src/components/CustomTextInput.jsx:63 | a string matching `^\d*\.?\d*$` is digits and at most one dot |
| CustomTextInput.CleanIsPattern | src/components/CustomTextInput.jsx:63 | digits with at most one dot match the pattern |
| CustomTextInput.PatternIffClean | src/components/CustomTextInput.jsx:46-63 | a paste is accepted exactly when sanitising would leave it unchanged |
| CustomTextInput.ReportedIsClean | src/components/CustomTextInput.jsx:46-66 | every value the number field reports would itself be accepted as a paste |
| CustomTextInput.InputMode | src/components/CustomTextInput.jsx:97-108 | `number` maps to `decimal`, `email` and `tel` to themselves, anything else to `text` |
| CustomTextInput.TextInput.constructor | src/components/CustomTextInput.jsx:34-36 | the first render: the value or `''`, unfocused, password hidden |
| CustomTextInput.TextInput.SyncValue | src/components/CustomTextInput.jsx:39-41 | a new value prop replaces the internal value, `''` when absent |
| CustomTextInput.TextInput.HandleChange | src/components/CustomTextInput.jsx:43-58 | a sanitising number field reports and stores the sanitised text; any other field the text unchanged |
| CustomTextInput.TextInput.HandlePaste | src/components/CustomTextInput.jsx:60-67 | a paste is blocked exactly when the field sanitises and the text does not match the pattern |
| CustomTextInput.TextInput.HandleClear | src/components/CustomTextInput.jsx:69-74 | the value becomes `''`, `''` is reported, and the clear icon disappears |
| CustomTextInput.TextInput.HandleFocus | src/components/CustomTextInput.jsx:76-79 | focus is marked |
| CustomTextInput.TextInput.HandleBlur | src/components/CustomTextInput.jsx:81-84 | focus is cleared |
| CustomTextInput.TextInput.TogglePasswordVisibility | src/components/CustomTextInput.jsx:86-88 | the password visibility flips; the eye stays shown or hidden as before and swaps between open and crossed out |
| CustomTextInput.TextInput.InputType | src/components/CustomTextInput.jsx:90-95 | a password with visibility on renders as `text`; otherwise the declared type |
| CustomTextInput.TextInput.ShowsClear | src/components/CustomTextInput.jsx:113 | the clear icon's condition: clearable, non-empty, neither disabled nor read-only; `HandleClear` ensures it turns off |
| CustomTextInput.TextInput.ShowsPasswordToggle | src/components/CustomTextInput.jsx:123 | the eye icon's condition: a password field neither disabled nor read-only; `TogglePasswordVisibility` keeps it |
| CustomTextInput.TextInput.SuffixIcons | src/components/CustomTextInput.jsx:110-149 | the clear icon exactly when `ShowsClear`, first; the open eye exactly for a hidden password and the crossed-out eye exactly for a shown one, when `ShowsPasswordToggle`; the caller's suffix exactly when given, last |
| CustomTextInput.EyeMatchesInputType | src/components/CustomTextInput.jsx:90-139 | while the eye shows, it is crossed out exactly when the field renders as `text` and open exactly when it renders as `password` |
| CustomTextInput.LockedShowsNoIcons | src/components/CustomTextInput.jsx:110-149 | a disabled or read-only field shows only the caller's suffix |
| CashFlowConsole.FilterStep | src/View/CashFlow/CashFlowConsole.jsx:78-82 | one pass of the loop narrows by that key's list when non-empty and leaves the rows otherwise |
| CashFlowConsole.ApplyEntry | src/View/CashFlow/CashFlowConsole.jsx:78-82 | the callback carries rows filtered by the first `i` entries to rows filtered by the first `i + 1` |
| CashFlowConsole.ApplyFilters | src/View/CashFlow/CashFlowConsole.jsx:75-84 | the loop that reassigns `filtered` keeps exactly the rows of `data` passing every filter (list or string), in order |
| CashFlowConsole.FilterCorrect | src/View/CashFlow/CashFlowConsole.jsx:78-84 | a row survives iff every key with a non-empty list contains its value, and every key with a non-empty string contains its value's string form as a substring; the result is an order-preserving subsequence of `data` |
| CashFlowConsole.TextFilterIsSubstring | src/View/CashFlow/CashFlowConsole.jsx:78-82 | a single-choice string filter keeps the row holding that string and rows whose value is part of it (`"Buy"` keeps `"uy"` and `""`), and drops `"Sell"` and a missing field |
| CashFlowConsole.FilterNarrows | src/View/CashFlow/CashFlowConsole.jsx:78-82 | adding a filter never adds a row |
| CashFlowConsole.NewView | src/View/CashFlow/CashFlowConsole.jsx:88-95 | the new view has the given id, name, description and time, with filters defaulting to `{}` and columns to `[]` |
| CashFlowConsole.DeleteView | src/View/CashFlow/CashFlowConsole.jsx:118 | deletion keeps exactly the views with other ids |
| CashFlowConsole.SaveDeleteRoundTrip | src/View/CashFlow/CashFlowConsole.jsx:87-125 | saving a view under a fresh id and deleting that id gives the list back |
| CashFlowConsole.Console.constructor | src/View/CashFlow/CashFlowConsole.jsx:10-64 | the first render and the mount effect: the mock rows loaded, and the stored views installed by `loadSavedViews` in the first render's closure, so a stored current view shows `MountedRows` over `[]`, an empty table |
| CashFlowConsole.MountAsWrittenHidesRows | src/View/CashFlow/CashFlowConsole.jsx:22-25 | as written, a stored current view leaves the mounted table empty, and one without filters shows nothing where every loaded row was meant; without one the mock rows stay |
| CashFlowConsole.MountIntendedShowsView | src/View/CashFlow/CashFlowConsole.jsx:22-25 | with the loaded rows in the closure, a stored current view shows exactly the loaded rows passing its filters, all of them when it constrains nothing |
| CashFlowConsole.Console.LoadSavedViews | src/View/CashFlow/CashFlowConsole.jsx:45-64 | a malformed entry leaves an empty saved list; otherwise the stored list, and a stored current view made current with its filters applied to the `data` of the render whose closure runs |
| CashFlowConsole.Console.HandleFilterApply | src/View/CashFlow/CashFlowConsole.jsx:75-85 | the shown rows are the full data filtered afresh, never cumulatively |
| CashFlowConsole.Console.HandleViewSave | src/View/CashFlow/CashFlowConsole.jsx:87-106 | one new view is appended and becomes current |
| CashFlowConsole.Console.HandleViewLoad | src/View/CashFlow/CashFlowConsole.jsx:108-115 | the view becomes current and its filters are applied to the full data |
| CashFlowConsole.Console.HandleViewDelete | src/View/CashFlow/CashFlowConsole.jsx:117-128 | every view with the id goes; the current view is cleared only if it had that id |
| CashFlowConsole.Console.HandleClearAllViews | src/View/CashFlow/CashFlowConsole.jsx:130-136 | no saved views and no current view |
| CashFlowConsole.Console.HandleResetToDefault | src/View/CashFlow/CashFlowConsole.jsx:138-143 | no current view, and the mock data shown |
| FilterSection.FilterKeys | src/View/CashFlow/Components/FilterSection.jsx:13-19 | the filter keys in insertion order |
| FilterSection.Lookup | src/View/CashFlow/Components/FilterSection.jsx:13-19 | a field reads as undefined exactly when it was never set |
| FilterSection.SetEntryKeys | src/View/CashFlow/Components/FilterSection.jsx:13-19 | an existing field keeps its place, a new one goes last, and the entry holds the new value |
| FilterSection.SetEntryLookup | src/View/CashFlow/Components/FilterSection.jsx:13-19 | after setting, the field reads the new value and every other field reads as before |
| FilterSection.SetEntryKeepsKeysApart | src/View/CashFlow/Components/FilterSection.jsx:13-19 | no key appears twice |
| FilterSection.ChosenValuesConstrain | src/View/CashFlow/Components/FilterSection.jsx:13-23 | a row passing a field set to a non-empty list has its value in the list |
| FilterSection.ChosenTextConstrains | src/View/CashFlow/Components/FilterSection.jsx:59-69 | a row passing a field set to a non-empty string (the single-choice Buy/Sell select) has its value's string form inside that string |
| FilterSection.ClearedShowsAll | src/View/CashFlow/Components/FilterSection.jsx:25-28 | the `{}` sent on clearing keeps every row |
| FilterSection.FilterPanel.constructor | src/View/CashFlow/Components/FilterSection.jsx:10-11 | no filters and an empty search text |
| FilterSection.FilterPanel.HandleFilterChange | src/View/CashFlow/Components/FilterSection.jsx:13-19 | the filters become `SetEntry` of the field, for an array, a string or an undefined value |
| FilterSection.FilterPanel.HandleApplyFilters | src/View/CashFlow/Components/FilterSection.jsx:21-23 | the filters are forwarded exactly as they are |
| FilterSection.FilterPanel.HandleClearFilters | src/View/CashFlow/Components/FilterSection.jsx:25-28 | the filters and search text reset, and `{}` is forwarded |
| FilterSection.FilterPanel.SetSearchText | src/View/CashFlow/Components/FilterSection.jsx:39 | the search text becomes the typed text |
| ViewManager.Payload | src/View/CashFlow/Components/ViewManager.jsx:27-33 | the payload carries name and description, with filters defaulting to `{}` and columns to `[]` |
| ViewManager.FormViewIsEmpty | src/View/CashFlow/Components/ViewManager.jsx:27-33 | a view saved from the form always has no filters and no columns |
| ViewManager.SelectView | src/View/CashFlow/Components/ViewManager.jsx:57-62 | nothing is loaded exactly when no view has the id; otherwise a listed view with that id |
| ViewManager.SelectViewFinds | src/View/CashFlow/Components/ViewManager.jsx:57-62 | with distinct ids, the view with the id is the one loaded |
| ViewManager.SampleViewSelect | src/View/CashFlow/Components/ViewManager.jsx:39-70 | the two sample ids load their views; any other id loads nothing |
| ViewManager.ActiveIsUnique | src/View/CashFlow/Components/ViewManager.jsx:164 | with distinct ids at most one listed view is Active, and a listed current view is |
| ViewManager.Manager.constructor | src/View/CashFlow/Components/ViewManager.jsx:24-25 | the dialog starts closed with an empty form |
| ViewManager.Manager.OpenSaveDialog | src/View/CashFlow/Components/ViewManager.jsx:79 | the dialog opens |
| ViewManager.Manager.HandleSaveView | src/View/CashFlow/Components/ViewManager.jsx:27-36 | the payload is sent, the dialog closes and the form resets |
| ViewManager.Manager.CancelSave | src/View/CashFlow/Components/ViewManager.jsx:180-183 | the dialog closes and the form resets |
| Modal.CssSize | src/View/CashFlow/Components/Modal.jsx:66-68 | a number n becomes `"n" + "px"`, a string is kept |
| Modal.OptionalCssSize | src/View/CashFlow/Components/Modal.jsx:67-69 | a falsy minimum size becomes undefined, otherwise the same rule |
| Modal.PixelsNeverEmpty | src/View/CashFlow/Components/Modal.jsx:66-69 | a pixel size always ends in `px` and is never empty |
| Modal.FinalActions | src/View/CashFlow/Components/Modal.jsx:57-63 | hidden actions give no footer; otherwise the given actions; otherwise the default pair if enabled; otherwise none |
| Modal.Render | src/View/CashFlow/Components/Modal.jsx:24 | nothing renders exactly when the dialog is closed |
| Modal.Respond | src/View/CashFlow/Components/Modal.jsx:26-38 | a closed dialog runs nothing; an overlay click closes iff on the overlay itself and not persistent; only Submit submits |
| Modal.PersistentIgnoresOverlay | src/View/CashFlow/Components/Modal.jsx:26-30 | a persistent dialog closes only through its buttons |
| Modal.DefaultsShowButtons | src/View/CashFlow/Components/Modal.jsx:13-22 | with the default props an open dialog shows Cancel and Submit, which close and submit, in a 500px by 90vh box |

## Left out

- Rendering is not modelled: JSX, antd widgets, CSS class strings, the
  table header and body, and the dialog bodies. Only the decisions that
  choose what is shown are kept.
- DOM events are not modelled: `preventDefault`, event listeners and the
  click-outside handler. `ContextMenu.jsx` and `App.js` are not part of
  this model. The context menu's only logic is to run an action and close.
- `localStorage` and `JSON` are reduced to a map from key to a parsed list.
  A parse failure appears only as `Malformed` in
  `CashFlowConsole.Console.LoadSavedViews`; the wrappers assume a
  well-formed entry. Writes that fail in the browser are not modelled.
- The clock (`Date.now()`, `toISOString()`) and the export date are
  parameters: the view id, the creation time and the date in the file name.
- The XLSX workbook creation and download belong to a foreign library.
  The model stops at the records, the header and the file name.
  The header is modelled as `json_to_sheet` takes it: the keys of the
  records in `Object.keys` order, and none when there is no record.
- Locale formatting is kept symbolic: `toLocaleString`,
  `toLocaleDateString` and `new Date(v)` become the cells
  `Money`, `LocalNumber` and `LocalDate`.
- TableSort.LocaleCompare: `localeCompare` is modelled as code-point
  lexicographic order. Locale collation rules are not modelled.
- Numbers are integers. Floating point and `NaN` are not modelled, and
  `Number(s)` is read narrowly: only a string of unsigned decimal digits
  is a number. Signs, surrounding white space, fractions, exponents and
  hex forms (`"-5"`, `" 7"`, `"1.5"`, `"1e3"`, `"0x1F"`) give no number,
  where JavaScript gives a number for each. This reaches `Aggregation.Term`,
  `Aggregation.Sum` and loose equality. An average is an exact `real`.
- `toLowerCase` is modelled for the ASCII letters only (`JsValues.ToLower`).
  JavaScript lower-cases all of Unicode and is context-sensitive: a Greek
  capital sigma becomes the final form `ς` at the end of a word.
- GenericDataTable.Slug: lower-cases ASCII letters only, so a title with
  other upper-case letters keeps them in the file name.
- SearchableComboBox.FilteredItems: the case-insensitive match folds ASCII
  letters only; titles and terms with other letters match case-sensitively.
- SearchableComboBox.TypingNarrows: proved for the ASCII `ToLower`. It does
  not hold for JavaScript's `toLowerCase`: `"ΑΣ"` lower-cases to `"ας"`
  but `"ΑΣΒ"` to `"ασβ"`, so typing `Β` after `ΑΣ` can bring in an item
  whose lowered title lacks `"ας"`.
- DataTable.Table.HandleRowSelect: the selection holds the data row
  without the display tags. The program stores the display row itself,
  with `_level`, `_isDataRow`, `_groupPath` and `_parentGroupId` added, so
  the rows reported to `onSelectionChange` and handed to `onExport` carry
  those fields there. The ids, and so every selection decision, are the
  same.
- DataTable.Table.HandleSelectAll: the selection is stated to keep distinct
  ids only when the selectable processed rows have distinct ids. The
  program copies those rows without looking at their ids, so data with a
  repeated id leaves a selection with it twice. Distinct selected ids are
  therefore not part of the table's invariant `Valid()`, which holds only
  the expanded-id set; every method can still be called from such a
  selection, as in the program.
- TableSort.SortRowsCorrect: `Array.prototype.sort` is modelled as a
  stable insertion sort. The comparator answers 1 for two null keys, so
  the order among null-keyed rows is engine-defined; only "nulls after
  non-nulls" is stated about them. A column mixing strings and numbers
  makes the comparator inconsistent (a string reads as `NaN`, which
  compares as 0), and `Array.prototype.sort` then returns an
  engine-defined order; the ordering claim holds for the modelled
  insertion sort only. The same goes for stability
  (`TableSort.SortRowsStable`): it is proved for the modelled sort, and
  `Array.prototype.sort` promises it only for a consistent comparator,
  that is, a column holding strings only or numbers only.
- `setTimeout` timing is not modelled: the delayed reset of the drag flag
  is the separate method `DataTable.Table.ReleaseDrag`. The combo box's
  focus timer is not modelled.
- Manual groups are not modelled: `createGroup`, `addToGroup`,
  `removeFromGroup` and `getAvailableGroups` are called by the wrappers
  but not implemented by the table handle. The confirm methods return the
  request they would send, and the number of available groups is a
  parameter. In the program as written, `handleContextMenu`
  (CashFlowTable.jsx:92-94, GenericDataTable.jsx:65-67) calls the missing
  `getAvailableGroups` and throws on every row menu, so `availableGroups`
  stays `[]` and "Add to Existing Group" is never offered there.
- `GroupEngine.TotalAmount` sums `amount || extendedAmount || 0` over
  integers. A string amount, which JavaScript would concatenate, gives no
  total.
- The colour lookups do not model keys inherited from `Object.prototype`
  (a status such as `toString`).
- The Best Fit label takes `isBestFitEnabled()` as a boolean parameter.
- `CashFlowTable`'s `savedViews` memo is computed once, a stale closure
  that is not modelled: the model always reads the current views.
- SearchableComboBox.ValueOf: for an array item, `item[itemValue]` is
  taken as undefined and its title as `'Unknown'`. Array indices as keys
  are not modelled.
- The `try`/`catch` around the combo box initialisation is not modelled.
  It cannot throw over the modelled values.
- An undefined form description is modelled as `''`.
- In `Modal`, a React node is reduced to whether it is truthy.
- The character counter and `maxLength` display of `CustomTextInput` are
  presentation and are not modelled.
- Four choices of the code worth knowing:
  - the group id joins the parent ids with `-`;
  - collapsing a group removes only its displayed direct children;
  - saving a view always appends, and never replaces a view of the same
    name;
  - the console filter tests `includes` on the chosen values: membership
    for the array of a multiple-choice select, and a substring test for
    the string of the single-choice Buy/Sell select. There is no numeric
    comparison filter.

## Findings

| source | as written | input that shows it | evidently intended | confidence | as-written member | corrected member |
|---|---|---|---|---|---|---|
| src/components/CustomDataTable.jsx:346-349 | the average divides by the rows where `+item[key]` is not null or undefined, which is every row, since unary `+` always yields a number | rows with `extendedAmount` 100, 50 and missing: sum 150, average 50 | divide by the rows that have a value: average 75 | high (not executed) | Aggregation.StoredAverageExample | Aggregation.AverageIsMeanOfPresent |
| src/View/CashFlow/Components/CashFlowTable.jsx:728-733 | `currentView.columns` is tested for truthiness, and `[]` is truthy, so a current view with an empty list keeps no column | a view whose `columns` default to `[]` in `handleViewSave` (CashFlowConsole.jsx:93) | an empty list shows every column | medium (not executed) | CashFlowTable.SavedViewHidesAllColumns | CashFlowTable.FilteredColumns |
| src/View/CashFlow/CashFlowConsole.jsx:22-25 | the mount effect calls `loadSavedViews` in the first render's closure, so `handleFilterApply` filters that render's `data`, still `[]` (line 10), and its `setFilteredData([])` comes after `loadInitialData`'s | `cashflow_current_view` holding a view with `filters: {}` and the mock rows loaded: the table mounts empty | the stored view's filters applied to the loaded rows | high (not executed) | CashFlowConsole.MountAsWrittenHidesRows | CashFlowConsole.MountIntendedShowsView |
| src/components/GenericDataTable.jsx:90-108 | the export columns keep only `key` and `title`, so `col.type === 'date'` is never true and dates are written raw | a `date` column with the value `"2024-01-15"` | dates written in the locale's date format | high (not executed) | GenericDataTable.DateColumnExportedRaw | GenericDataTable.GenericCell |

The operations themselves follow the program as written:
`Aggregation.Compute` stores the average over every processed row,
`GenericDataTable.HandleExport` formats cells from the `{ key, title }`
copies, and the `CashFlowConsole.Console` constructor mounts with the
first render's `[]` in `loadSavedViews`' closure. The corrected members stand beside them, with the intended
property proved about each.
