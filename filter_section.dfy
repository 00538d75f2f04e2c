/** The filter panel (`FilterSection`): the filters chosen so far, keyed by
    field in the order the fields were first set (the key order of a
    JavaScript object with string keys), and the column search text. */
module FilterSection {
  import opened JsValues
  import CashFlowConsole

  type FilterEntry = CashFlowConsole.FilterEntry
  type FilterValue = CashFlowConsole.FilterValue

  function FilterKeys(filters: seq<FilterEntry>): (r: seq<string>)
    ensures |r| == |filters|
    ensures forall i :: 0 <= i < |r| ==> r[i] == filters[i].key
  {
    if filters == [] then [] else [filters[0].key] + FilterKeys(filters[1..])
  }

  /** `filters[field]`: `None` for a field never set. */
  function Lookup(filters: seq<FilterEntry>, field: string): (r: Option<FilterValue>)
    ensures r.None? <==> field !in FilterKeys(filters)
  {
    if filters == [] then None
    else if filters[0].key == field then Some(filters[0].chosen)
    else Lookup(filters[1..], field)
  }

  /** `{ ...filters, [field]: value }`: a field already set keeps its place
      and takes the new value, a new field goes last. */
  function SetEntry(filters: seq<FilterEntry>, field: string, value: FilterValue): seq<FilterEntry>
  {
    if filters == [] then [CashFlowConsole.FilterEntry(field, value)]
    else if filters[0].key == field then [CashFlowConsole.FilterEntry(field, value)] + filters[1..]
    else [filters[0]] + SetEntry(filters[1..], field, value)
  }

  /** A field already set keeps its place among the keys, a new field goes
      last, and the entry holds the new value. */
  lemma {:induction false} SetEntryKeys(filters: seq<FilterEntry>, field: string, value: FilterValue)
    ensures FilterKeys(SetEntry(filters, field, value))
      == if field in FilterKeys(filters) then FilterKeys(filters) else FilterKeys(filters) + [field]
    ensures CashFlowConsole.FilterEntry(field, value) in SetEntry(filters, field, value)
  {
    if filters != [] {
      var r := SetEntry(filters, field, value);
      var keys := FilterKeys(filters);
      assert keys == [filters[0].key] + FilterKeys(filters[1..]);
      if filters[0].key != field {
        var rest := SetEntry(filters[1..], field, value);
        SetEntryKeys(filters[1..], field, value);
        assert r == [filters[0]] + rest;
        assert r[1..] == rest;
        assert FilterKeys(r) == [filters[0].key] + FilterKeys(rest);
        assert field in keys <==> field in FilterKeys(filters[1..]);
      } else {
        assert r[1..] == filters[1..];
        assert FilterKeys(r) == [field] + FilterKeys(filters[1..]);
      }
    }
  }

  /** After setting a field, it reads the new value and every other field
      reads as before. */
  lemma {:induction false} SetEntryLookup(filters: seq<FilterEntry>, field: string, value: FilterValue, k: string)
    ensures Lookup(SetEntry(filters, field, value), k) == if k == field then Some(value) else Lookup(filters, k)
  {
    if filters != [] && filters[0].key != field {
      SetEntryLookup(filters[1..], field, value, k);
    }
  }

  /** Setting a field keeps the keys free of repeats. */
  lemma SetEntryKeepsKeysApart(filters: seq<FilterEntry>, field: string, value: FilterValue)
    requires NoDup(FilterKeys(filters))
    ensures NoDup(FilterKeys(SetEntry(filters, field, value)))
  {
    SetEntryKeys(filters, field, value);
    var keys := FilterKeys(filters);
    if field !in keys {
      forall i, j | 0 <= i < j < |keys| + 1 ensures (keys + [field])[i] != (keys + [field])[j] {
        if j == |keys| {
          assert (keys + [field])[i] == keys[i];
        } else {
          assert (keys + [field])[i] == keys[i] && (keys + [field])[j] == keys[j];
        }
      }
    }
  }

  /** Once a field is set to a non-empty list, the console keeps only rows
      whose value for it is in that list. */
  lemma ChosenValuesConstrain(filters: seq<FilterEntry>, field: string, values: seq<Value>, row: Row)
    requires |values| > 0
    requires CashFlowConsole.Passes(SetEntry(filters, field, CashFlowConsole.Choices(values)), row)
    ensures Get(row, field).Some? && Get(row, field).value in values
  {
    var r := SetEntry(filters, field, CashFlowConsole.Choices(values));
    SetEntryKeys(filters, field, CashFlowConsole.Choices(values));
    var i :| 0 <= i < |r| && r[i] == CashFlowConsole.FilterEntry(field, CashFlowConsole.Choices(values));
    assert CashFlowConsole.Constrains(r[i]);
  }

  /** Once a field is set to a non-empty string (the single-choice Buy/Sell
      select), the console keeps only rows whose value for it, converted to
      a string, occurs in that string. */
  lemma ChosenTextConstrains(filters: seq<FilterEntry>, field: string, text: string, row: Row)
    requires |text| > 0
    requires CashFlowConsole.Passes(SetEntry(filters, field, CashFlowConsole.Choice(text)), row)
    ensures Contains(text, JsString(Get(row, field)))
  {
    var r := SetEntry(filters, field, CashFlowConsole.Choice(text));
    SetEntryKeys(filters, field, CashFlowConsole.Choice(text));
    var i :| 0 <= i < |r| && r[i] == CashFlowConsole.FilterEntry(field, CashFlowConsole.Choice(text));
    assert CashFlowConsole.Constrains(r[i]);
  }

  /** After clearing, the console shows every row. */
  lemma ClearedShowsAll(data: seq<Row>)
    ensures Filter(data, CashFlowConsole.PassesAll([])) == data
  {
    CashFlowConsole.FilterCorrect(data, []);
  }

  class FilterPanel {
    var filters: seq<FilterEntry>
    var searchText: string

    constructor()
      ensures filters == [] && searchText == ""
    {
      filters := [];
      searchText := "";
    }

    /** `handleFilterChange(field, value)`: `value` is whatever the select
        reports, an array from a multiple-choice select, a string from the
        single-choice Buy/Sell select, or `undefined` once cleared. */
    method HandleFilterChange(field: string, value: FilterValue)
      modifies this`filters
      ensures filters == SetEntry(old(filters), field, value)
    {
      filters := SetEntry(filters, field, value);
    }

    /** `handleApplyFilters()`: the filters go to `onFilterApply` as they
        are; the search text is not part of them. */
    method HandleApplyFilters() returns (applied: seq<FilterEntry>)
      ensures applied == filters
    {
      applied := filters;
    }

    /** `handleClearFilters()`: filters and search text reset, and `{}`
        goes to `onFilterApply`. */
    method HandleClearFilters() returns (applied: seq<FilterEntry>)
      modifies this`filters, this`searchText
      ensures filters == [] && searchText == "" && applied == []
    {
      filters := [];
      searchText := "";
      applied := [];
    }

    method SetSearchText(text: string)
      modifies this`searchText
      ensures searchText == text
    {
      searchText := text;
    }
  }
}
