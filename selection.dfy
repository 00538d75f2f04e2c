/** Row selection of the data table: the selected rows are kept as a list,
    identified by their `id` field with strict equality. */
module Selection {
  import opened JsValues

  /** `row.id` (`None` when the row has no `id`). */
  function RowId(row: Row): Option<Value>
  {
    Get(row, "id")
  }

  /** `isRowSelected(id)`: some selected row has this id. */
  predicate IsSelected(sel: seq<Row>, id: Option<Value>)
  {
    exists i :: 0 <= i < |sel| && RowId(sel[i]) == id
  }

  /** No two selected rows share an id. */
  predicate UniqueIds(sel: seq<Row>)
  {
    forall i, j :: 0 <= i < j < |sel| ==> RowId(sel[i]) != RowId(sel[j])
  }

  /** Checking a row appends it unless a row with its id is already selected. */
  function Check(sel: seq<Row>, row: Row): (r: seq<Row>)
    ensures IsSelected(r, RowId(row))
    ensures |r| >= |sel| && r[..|sel|] == sel
    ensures IsSelected(sel, RowId(row)) ==> r == sel
    ensures !IsSelected(sel, RowId(row)) ==> r == sel + [row]
  {
    if IsSelected(sel, RowId(row)) then sel
    else
      var r := sel + [row];
      assert RowId(r[|sel|]) == RowId(row);
      r
  }

  function OtherId(id: Option<Value>): Row -> bool
  {
    (row: Row) => RowId(row) != id
  }

  /** Unchecking keeps, in order, the selected rows with another id. */
  function Uncheck(sel: seq<Row>, id: Option<Value>): (r: seq<Row>)
    ensures !IsSelected(r, id)
    ensures forall x :: x in r <==> x in sel && RowId(x) != id
    ensures |r| <= |sel|
  {
    var r := Filter(sel, OtherId(id));
    assert forall i :: 0 <= i < |r| ==> r[i] in r;
    r
  }

  /** Checking keeps the ids unique. */
  lemma CheckKeepsUnique(sel: seq<Row>, row: Row)
    requires UniqueIds(sel)
    ensures UniqueIds(Check(sel, row))
  {
  }

  /** Unchecking keeps the remaining rows in order, so ids stay unique. */
  lemma UncheckKeepsUnique(sel: seq<Row>, id: Option<Value>)
    requires UniqueIds(sel)
    ensures UniqueIds(Uncheck(sel, id))
  {
    var idx := FilterIndices(sel, OtherId(id));
    var r := Uncheck(sel, id);
    forall i, j | 0 <= i < j < |r| ensures RowId(r[i]) != RowId(r[j]) {
      assert r[i] == sel[idx[i]] && r[j] == sel[idx[j]] && idx[i] < idx[j];
    }
  }

  /** Checking a row that was not selected and unchecking it again gives the
      selection back. */
  lemma CheckUncheck(sel: seq<Row>, row: Row)
    requires !IsSelected(sel, RowId(row))
    ensures Uncheck(Check(sel, row), RowId(row)) == sel
  {
    var id := RowId(row);
    FilterAppend(sel, [row], OtherId(id));
    FilterKeepsAll(sel, OtherId(id));
    assert Filter([row], OtherId(id)) == [] by {
      assert [row][..0] == [];
    }
  }

  /** Checking twice is checking once. */
  lemma CheckIdempotent(sel: seq<Row>, row: Row)
    ensures Check(Check(sel, row), row) == Check(sel, row)
  {
  }

  /** A row "select all" picks: a truthy `id` and `_isDataRow` not `false`. */
  predicate Selectable(row: Row)
  {
    Truthy(RowId(row)) && Get(row, "_isDataRow") != Some(Bool(false))
  }

  /** `processedData.filter(row => row.id && row._isDataRow !== false)` */
  function SelectableRows(rows: seq<Row>): (r: seq<Row>)
    ensures forall x :: x in r <==> x in rows && Selectable(x)
  {
    Filter(rows, (row: Row) => Selectable(row))
  }

  /** The rows a context menu acts on: the selection for a row menu when
      something is selected, otherwise the clicked row, if any. */
  function ContextRows(sel: seq<Row>, row: Option<Row>, isRowMenu: bool): (r: seq<Row>)
    ensures |sel| > 0 && isRowMenu ==> r == sel
    ensures !(|sel| > 0 && isRowMenu) ==> (r == [] <==> row.None?)
    ensures !(|sel| > 0 && isRowMenu) && row.Some? ==> r == [row.value]
  {
    if |sel| > 0 && isRowMenu then sel else if row.Some? then [row.value] else []
  }
}
