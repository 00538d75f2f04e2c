/** The Excel export of the data-table wrappers: the visible columns in
    definition order, and one record per data row keyed by column title whose
    cells are formatted per column and fall back to `'-'` when falsy. The
    workbook itself is not modelled. */
module ExportCells {
  import opened JsValues
  import opened ColumnLayout
  import TableSort

  /** A formatted cell. The locale-dependent strings (`toLocaleString`,
      `toLocaleDateString`) are kept symbolic; each is a non-empty string. */
  datatype Cell =
    | Text(s: string)            // a string built by the formatter
    | Raw(v: Option<Value>)      // the row's value as it is
    | Money(amount: Option<int>)     // `$${Number(v).toLocaleString()}` (`None` for `NaN`)
    | LocalDate(d: Value)        // `new Date(v).toLocaleDateString()`
    | LocalNumber(n: int)        // `v.toLocaleString()`

  /** The truthiness of a cell. */
  predicate CellTruthy(c: Cell)
  {
    match c
    case Text(s) => s != ""
    case Raw(v) => Truthy(v)
    case _ => true
  }

  /** `value || '-'` */
  function OrDash(c: Cell): (r: Cell)
    ensures CellTruthy(r)
    ensures CellTruthy(c) ==> r == c
    ensures !CellTruthy(c) ==> r == Text("-")
  {
    if CellTruthy(c) then c else Text("-")
  }

  /** A per-column formatter: the column and the row's value for its key. */
  type Format = (Column, Option<Value>) -> Cell

  /** `columns.filter(col => visibleColumns.includes(col.key))` */
  function ExportColumns(cols: seq<Column>, visible: seq<string>): (r: seq<Column>)
    ensures forall c :: c in r <==> c in cols && c.key in visible
  {
    Filter(cols, (c: Column) => c.key in visible)
  }

  function Titles(cols: seq<Column>): (r: seq<string>)
    ensures |r| == |cols|
    ensures forall i :: 0 <= i < |cols| ==> r[i] == cols[i].title
  {
    if cols == [] then [] else Titles(cols[..|cols| - 1]) + [cols[|cols| - 1].title]
  }

  /** The export record of one row: for each column in turn
      `exportRow[col.title] = value || '-'`, so a later column with the same
      title overwrites the earlier one. */
  function RowCells(row: Row, cols: seq<Column>, format: Format): map<string, Cell>
  {
    if cols == [] then map[]
    else
      var last := cols[|cols| - 1];
      RowCells(row, cols[..|cols| - 1], format)[last.title := OrDash(format(last, Get(row, last.key)))]
  }

  /** The record has exactly one key per title. */
  lemma {:induction false} RowCellsKeys(row: Row, cols: seq<Column>, format: Format)
    ensures forall t :: t in RowCells(row, cols, format) <==> t in Titles(cols)
  {
    if cols != [] {
      RowCellsKeys(row, cols[..|cols| - 1], format);
      assert Titles(cols) == Titles(cols[..|cols| - 1]) + [cols[|cols| - 1].title];
    }
  }

  /** No entry of the record is falsy. */
  lemma {:induction false} RowCellsTruthy(row: Row, cols: seq<Column>, format: Format)
    ensures forall t :: t in RowCells(row, cols, format) ==> CellTruthy(RowCells(row, cols, format)[t])
  {
    if cols != [] {
      RowCellsTruthy(row, cols[..|cols| - 1], format);
    }
  }

  /** The entry of a title holds the last column with that title. */
  lemma {:induction false} RowCellsLast(row: Row, cols: seq<Column>, format: Format, i: nat)
    requires i < |cols|
    requires forall j :: i < j < |cols| ==> cols[j].title != cols[i].title
    ensures cols[i].title in RowCells(row, cols, format)
    ensures RowCells(row, cols, format)[cols[i].title] == OrDash(format(cols[i], Get(row, cols[i].key)))
  {
    if i < |cols| - 1 {
      var init := cols[..|cols| - 1];
      assert init[i] == cols[i];
      assert forall j :: i < j < |init| ==> init[j] == cols[j];
      RowCellsLast(row, init, format, i);
    }
  }

  /** The record has one entry per title, holding the last column with that
      title, and no entry is falsy. */
  lemma RowCellsCorrect(row: Row, cols: seq<Column>, format: Format)
    ensures var r := RowCells(row, cols, format);
      && (forall t :: t in r <==> t in Titles(cols))
      && (forall i :: 0 <= i < |cols| && (forall j :: i < j < |cols| ==> cols[j].title != cols[i].title) ==>
            cols[i].title in r && r[cols[i].title] == OrDash(format(cols[i], Get(row, cols[i].key))))
      && (forall t :: t in r ==> CellTruthy(r[t]))
  {
    RowCellsKeys(row, cols, format);
    RowCellsTruthy(row, cols, format);
    forall i | 0 <= i < |cols| && (forall j :: i < j < |cols| ==> cols[j].title != cols[i].title)
      ensures cols[i].title in RowCells(row, cols, format)
      ensures RowCells(row, cols, format)[cols[i].title] == OrDash(format(cols[i], Get(row, cols[i].key)))
    {
      RowCellsLast(row, cols, format, i);
    }
  }

  /** The `exportColumns.forEach` that fills one export record. */
  method FillRow(row: Row, cols: seq<Column>, format: Format) returns (exportRow: map<string, Cell>)
    ensures exportRow == RowCells(row, cols, format)
  {
    exportRow := map[];
    var i := 0;
    while i < |cols|
      invariant 0 <= i <= |cols|
      invariant exportRow == RowCells(row, cols[..i], format)
    {
      var col := cols[i];
      exportRow := exportRow[col.title := OrDash(format(col, Get(row, col.key)))];
      assert cols[..i + 1][..i] == cols[..i];
      i := i + 1;
    }
    assert cols[..i] == cols;
  }

  // ---------------------------------------------------------------------
  // The key order of an export record

  function DigitValue(c: char): nat
  {
    if '0' <= c <= '9' then c as int - '0' as int else 0
  }

  /** The value of a string of decimal digits. */
  function DecimalValue(k: string): nat
  {
    if k == [] then 0 else 10 * DecimalValue(k[..|k| - 1]) + DigitValue(k[|k| - 1])
  }

  /** An array index (section 6.1.7 of ECMA-262): the canonical decimal form
      of an integer from 0 to 2^32 - 2, so no sign, no leading zero and no
      fraction. */
  predicate IsArrayIndex(k: string)
  {
    && k != []
    && AllDigits(k)
    && (k[0] != '0' || k == "0")
    && DecimalValue(k) < 0xFFFF_FFFF
  }

  predicate AllDigits(k: string)
  {
    k == [] || ('0' <= k[|k| - 1] <= '9' && AllDigits(k[..|k| - 1]))
  }

  function ArrayIndexKey(): string -> bool
  {
    (k: string) => IsArrayIndex(k)
  }

  function OtherKey(): string -> bool
  {
    (k: string) => !IsArrayIndex(k)
  }

  /** Ascending numeric order of array indices. */
  function NumericOrder(): (string, string) -> int
  {
    (a: string, b: string) => DecimalValue(a) - DecimalValue(b)
  }

  function NeverNullKey(): string -> bool
  {
    (k: string) => false
  }

  /** `Object.keys` of an object whose properties were created in the order
      `keys` (OrdinaryOwnPropertyKeys, section 10.1.11.1 of ECMA-262). */
  function OwnKeys(keys: seq<string>): seq<string>
  {
    TableSort.InsertionSort(Filter(keys, ArrayIndexKey()), NumericOrder()) + Filter(keys, OtherKey())
  }

  /** Every key is an array index or not, never both. */
  lemma {:induction false} KeysSplit(keys: seq<string>)
    ensures multiset(Filter(keys, ArrayIndexKey())) + multiset(Filter(keys, OtherKey())) == multiset(keys)
  {
    if keys != [] {
      var init := keys[..|keys| - 1];
      assert keys == init + [keys[|keys| - 1]];
      KeysSplit(init);
    }
  }

  /** The array indices among the keys, sorted: each one once, ascending. */
  lemma SortedIndices(keys: seq<string>)
    ensures var sorted := TableSort.InsertionSort(Filter(keys, ArrayIndexKey()), NumericOrder());
      && multiset(sorted) == multiset(Filter(keys, ArrayIndexKey()))
      && (forall i :: 0 <= i < |sorted| ==> IsArrayIndex(sorted[i]))
      && (forall i :: 0 <= i < |sorted| - 1 ==> DecimalValue(sorted[i]) <= DecimalValue(sorted[i + 1]))
  {
    var indices := Filter(keys, ArrayIndexKey());
    var sorted := TableSort.InsertionSort(indices, NumericOrder());
    assert TableSort.NullsLastComparator(NeverNullKey(), NumericOrder());
    TableSort.InsertionSortCorrect(indices, NeverNullKey(), NumericOrder());
    forall i | 0 <= i < |sorted|
      ensures IsArrayIndex(sorted[i])
    {
      assert sorted[i] in multiset(indices);
      assert sorted[i] in indices;
      assert ArrayIndexKey()(sorted[i]);
    }
    forall i | 0 <= i < |sorted| - 1
      ensures DecimalValue(sorted[i]) <= DecimalValue(sorted[i + 1])
    {
      assert NumericOrder()(sorted[i], sorted[i + 1]) <= 0;
    }
  }

  /** `Object.keys` lists every created key once: first the array indices in
      ascending numeric order, then the other keys in creation order. */
  lemma OwnKeysOrder(keys: seq<string>)
    ensures var r := OwnKeys(keys);
      var n := |Filter(keys, ArrayIndexKey())|;
      && multiset(r) == multiset(keys)
      && n <= |r|
      && (forall i :: 0 <= i < n ==> IsArrayIndex(r[i]))
      && (forall i :: 0 <= i < n - 1 ==> DecimalValue(r[i]) <= DecimalValue(r[i + 1]))
      && (forall i :: n <= i < |r| ==> !IsArrayIndex(r[i]))
      && r[n..] == Filter(keys, OtherKey())
  {
    var indices := Filter(keys, ArrayIndexKey());
    var sorted := TableSort.InsertionSort(indices, NumericOrder());
    var others := Filter(keys, OtherKey());
    SortedIndices(keys);
    KeysSplit(keys);
    var r := sorted + others;
    assert r == OwnKeys(keys);
    assert |sorted| == |indices| by {
      assert |multiset(sorted)| == |multiset(indices)|;
    }
    assert r[..|sorted|] == sorted && r[|sorted|..] == others;
    forall i | |sorted| <= i < |r|
      ensures !IsArrayIndex(r[i])
    {
      assert r[i] == others[i - |sorted|];
      assert others[i - |sorted|] in others;
    }
  }

  /** Without an array index among them, the keys keep their creation order. */
  lemma OwnKeysOfNames(keys: seq<string>)
    requires forall i :: 0 <= i < |keys| ==> !IsArrayIndex(keys[i])
    ensures OwnKeys(keys) == keys
  {
    var isIndex, other := ArrayIndexKey(), OtherKey();
    assert forall i :: 0 <= i < |keys| ==> !isIndex(keys[i]) && other(keys[i]);
    FilterKeepsNone(keys, isIndex);
    FilterKeepsAll(keys, other);
    var none: seq<string> := [];
    assert TableSort.InsertionSort(none, NumericOrder()) == none;
    assert OwnKeys(keys) == none + keys;
  }

  lemma YearsAreIndices()
    ensures IsArrayIndex("2023") && DecimalValue("2023") == 2023
    ensures IsArrayIndex("2024") && DecimalValue("2024") == 2024
    ensures !IsArrayIndex("Name")
  {
    assert "2023"[..3] == "2024"[..3] == "202" && "202"[..2] == "20" && "20"[..1] == "2" && "2"[..0] == "";
    assert DecimalValue("2") == 2;
    assert DecimalValue("20") == 20;
    assert DecimalValue("202") == 202;
    assert AllDigits("2023") && AllDigits("2024");
    assert "Name"[3] == 'e';
  }

  /** Filtering three keys keeps each one that passes, in order. */
  lemma FilterThree(a: string, b: string, c: string, keep: string -> bool)
    ensures Filter([a, b, c], keep) == (if keep(a) then [a] else []) + (if keep(b) then [b] else []) + (if keep(c) then [c] else [])
  {
    var front := [a, b, c][..2];
    assert [a, b, c] == front + [c];
    assert front == [a] + [b];
    FilterAppend([a], [b], keep);
    FilterAppend(front, [c], keep);
    TableSort.FilterSingle(a, keep);
    TableSort.FilterSingle(b, keep);
    TableSort.FilterSingle(c, keep);
  }

  /** A name and two array indices, the larger one first: the indices move
      in front, ascending. */
  lemma OwnKeysOfThree(name: string, later: string, earlier: string)
    requires !IsArrayIndex(name) && IsArrayIndex(later) && IsArrayIndex(earlier)
    requires DecimalValue(earlier) < DecimalValue(later)
    ensures OwnKeys([name, later, earlier]) == [earlier, later, name]
  {
    FilterThree(name, later, earlier, ArrayIndexKey());
    FilterThree(name, later, earlier, OtherKey());
    var indices := [later, earlier];
    assert Filter([name, later, earlier], ArrayIndexKey()) == indices;
    assert indices[1..] == [earlier] && [earlier][1..] == [];
    assert TableSort.InsertionSort([earlier], NumericOrder()) == [earlier];
    assert TableSort.Insert(later, [], NumericOrder()) == [later];
    assert TableSort.Insert(later, [earlier], NumericOrder()) == [earlier, later];
  }

  /** Year titles move in front of the other titles, the earlier year first. */
  lemma YearTitlesFirst()
    ensures OwnKeys(["Name", "2024", "2023"]) == ["2023", "2024", "Name"]
  {
    YearsAreIndices();
    OwnKeysOfThree("Name", "2024", "2023");
  }

  /** When no visible column title is an array index, the sheet's columns
      are the distinct titles in column order. */
  lemma ExportTitlesInOrder(cols: seq<Column>, visible: seq<string>)
    requires forall i :: 0 <= i < |cols| ==> !IsArrayIndex(cols[i].title)
    ensures OwnKeys(Dedupe(Titles(ExportColumns(cols, visible)))) == Dedupe(Titles(ExportColumns(cols, visible)))
  {
    var ec := ExportColumns(cols, visible);
    var titles := Titles(ec);
    var d := Dedupe(titles);
    forall i | 0 <= i < |d|
      ensures !IsArrayIndex(d[i])
    {
      assert d[i] in titles;
      var j :| 0 <= j < |titles| && titles[j] == d[i];
      assert ec[j] in ec;
      var k :| 0 <= k < |cols| && cols[k] == ec[j];
    }
    OwnKeysOfNames(d);
  }

  /** The export: `data.map` of the record builder over every data row,
      over the visible columns in definition order; `visible` is
      `getColumnsState()?.selectedColumns || []`. `header` is the sheet's
      column row, which `json_to_sheet` takes from `Object.keys` of the
      records: none without a record, otherwise the distinct titles in the
      order `OwnKeys` gives. */
  method ExportData(data: seq<Row>, cols: seq<Column>, visible: seq<string>, format: Format)
    returns (header: seq<string>, records: seq<map<string, Cell>>)
    ensures header == if data == [] then [] else OwnKeys(Dedupe(Titles(ExportColumns(cols, visible))))
    ensures |records| == |data|
    ensures forall i :: 0 <= i < |data| ==> records[i] == RowCells(data[i], ExportColumns(cols, visible), format)
  {
    var exportColumns := ExportColumns(cols, visible);
    records := [];
    for i := 0 to |data|
      invariant |records| == i
      invariant forall k :: 0 <= k < i ==> records[k] == RowCells(data[k], exportColumns, format)
    {
      var record := FillRow(data[i], exportColumns, format);
      records := records + [record];
    }
    header := if data == [] then [] else OwnKeys(Dedupe(Titles(exportColumns)));
  }
}
