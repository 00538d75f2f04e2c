/** The cash-flow console page (`CashFlowConsole`): the loaded data, its
    membership-filtered copy, and the list of saved views with the current one. */
module CashFlowConsole {
  import opened JsValues

  /** The value stored under one key of a filters object: `null` or
      `undefined` (a cleared select), the array of a multiple-choice select,
      or the string of a single-choice select (the Buy/Sell field). */
  datatype FilterValue = Unset | Choices(values: seq<Value>) | Choice(text: string)

  /** One entry of a filters object: a key and the value chosen for it. */
  datatype FilterEntry = FilterEntry(key: string, chosen: FilterValue)

  /** `filters[key] && filters[key].length > 0`: a non-empty array or a
      non-empty string. */
  predicate Constrains(f: FilterEntry)
  {
    match f.chosen
    case Unset => false
    case Choices(values) => |values| > 0
    case Choice(text) => |text| > 0
  }

  /** `filters[key].includes(item[key])`. On an array it is membership, and
      a missing field is `undefined`, which no list of values contains. On a
      string it is `String.prototype.includes`: the field is converted to a
      string and searched for as a substring. */
  predicate Allows(f: FilterEntry, row: Row)
    requires Constrains(f)
  {
    match f.chosen
    case Unset => true
    case Choices(values) => Get(row, f.key).Some? && Get(row, f.key).value in values
    case Choice(text) => Contains(text, JsString(Get(row, f.key)))
  }

  /** A row passes when every constraining entry allows it. */
  predicate Passes(filters: seq<FilterEntry>, row: Row)
  {
    forall i :: 0 <= i < |filters| && Constrains(filters[i]) ==> Allows(filters[i], row)
  }

  function PassesAll(filters: seq<FilterEntry>): Row -> bool
  {
    (row: Row) => Passes(filters, row)
  }

  function AllowedBy(f: FilterEntry): Row -> bool
    requires Constrains(f)
  {
    (row: Row) => Allows(f, row)
  }

  /** One pass of the `forEach` narrows the rows that passed the earlier keys. */
  lemma FilterStep(data: seq<Row>, filters: seq<FilterEntry>, i: nat)
    requires i < |filters|
    ensures Constrains(filters[i]) ==>
      Filter(Filter(data, PassesAll(filters[..i])), AllowedBy(filters[i])) == Filter(data, PassesAll(filters[..i + 1]))
    ensures !Constrains(filters[i]) ==>
      Filter(data, PassesAll(filters[..i])) == Filter(data, PassesAll(filters[..i + 1]))
  {
    var pre, next := filters[..i], filters[..i + 1];
    assert next == pre + [filters[i]];
    forall row: Row
      ensures Passes(next, row) == (Passes(pre, row) && (Constrains(filters[i]) ==> Allows(filters[i], row)))
    {
      assert forall k :: 0 <= k < i ==> next[k] == pre[k];
    }
    if Constrains(filters[i]) {
      FilterFilter(data, PassesAll(pre), AllowedBy(filters[i]), PassesAll(next));
    } else {
      FilterSame(data, PassesAll(pre), PassesAll(next));
    }
  }

  /** With no entries every row passes. */
  lemma NothingFiltered(data: seq<Row>, filters: seq<FilterEntry>)
    requires filters == []
    ensures Filter(data, PassesAll(filters)) == data
  {
    FilterKeepsAll(data, PassesAll(filters));
  }

  /** `handleFilterApply(filters)`: start from all of `data` and keep, key by
      key, the rows whose value is in that key's non-empty list. */
  method ApplyFilters(data: seq<Row>, filters: seq<FilterEntry>) returns (filtered: seq<Row>)
    ensures filtered == Filter(data, PassesAll(filters))
  {
    filtered := data;
    NothingFiltered(data, filters[..0]);
    for i := 0 to |filters|
      invariant filtered == Filter(data, PassesAll(filters[..i]))
    {
      filtered := ApplyEntry(data, filters, i, filtered);
    }
    assert filters[..|filters|] == filters;
  }

  /** The `forEach` callback for entry `i`: a constraining entry narrows
      the rows, any other leaves them as they are. */
  method ApplyEntry(data: seq<Row>, filters: seq<FilterEntry>, i: nat, filtered: seq<Row>) returns (next: seq<Row>)
    requires i < |filters|
    requires filtered == Filter(data, PassesAll(filters[..i]))
    ensures next == Filter(data, PassesAll(filters[..i + 1]))
  {
    FilterStep(data, filters, i);
    next := filtered;
    if Constrains(filters[i]) {
      next := Filter(filtered, AllowedBy(filters[i]));
    }
  }

  /** The filter keeps exactly the rows that pass, in their order in `data`;
      without constraining entries it keeps everything. */
  lemma FilterCorrect(data: seq<Row>, filters: seq<FilterEntry>)
    ensures var r := Filter(data, PassesAll(filters));
      && (forall row :: row in r <==> row in data && Passes(filters, row))
      && ((forall i :: 0 <= i < |filters| ==> !Constrains(filters[i])) ==> r == data)
  {
    if forall i :: 0 <= i < |filters| ==> !Constrains(filters[i]) {
      FilterKeepsAll(data, PassesAll(filters));
    }
  }

  /** Adding a constraint can only narrow the result. */
  lemma FilterNarrows(data: seq<Row>, filters: seq<FilterEntry>, extra: FilterEntry)
    ensures forall row :: row in Filter(data, PassesAll(filters + [extra])) ==> row in Filter(data, PassesAll(filters))
  {
    forall row | row in Filter(data, PassesAll(filters + [extra])) ensures Passes(filters, row) {
      assert forall k :: 0 <= k < |filters| ==> (filters + [extra])[k] == filters[k];
    }
  }

  /** A single-choice filter keeps the rows holding exactly the chosen
      string, and also those whose value, as a string, is a part of it: the
      filter `"Buy"` keeps a row whose `buySell` is `"uy"` or `""`, and drops
      one whose `buySell` is `"Sell"` or missing. */
  lemma TextFilterIsSubstring(text: string)
    requires |text| > 0
    ensures Passes([FilterEntry("buySell", Choice(text))], map["buySell" := Str(text)])
    ensures Passes([FilterEntry("buySell", Choice("Buy"))], map["buySell" := Str("uy")])
    ensures Passes([FilterEntry("buySell", Choice("Buy"))], map["buySell" := Str("")])
    ensures !Passes([FilterEntry("buySell", Choice("Buy"))], map["buySell" := Str("Sell")])
    ensures !Passes([FilterEntry("buySell", Choice("Buy"))], map[])
  {
    assert OccursAt(text, text, 0);
    assert OccursAt("Buy", "uy", 1);
    assert OccursAt("Buy", "", 0);
    var sell := [FilterEntry("buySell", Choice("Buy"))];
    assert !Allows(sell[0], map["buySell" := Str("Sell")]);
    assert JsString(Get(map[], "buySell")) == "undefined";
    assert !Allows(sell[0], map[]);
  }

  // ---------------------------------------------------------------------
  // Saved views

  /** A saved view; `id` and `createdAt` come from the clock. */
  datatype SavedView = SavedView(id: string, name: string, description: string,
                                 filters: seq<FilterEntry>, columns: seq<string>, createdAt: string)

  /** The form data passed to `handleViewSave`. */
  datatype ViewData = ViewData(name: string, description: string,
                               filters: Option<seq<FilterEntry>>, columns: Option<seq<string>>)

  /** The new view, with `filters` defaulting to `{}` and `columns` to `[]`. */
  function NewView(data: ViewData, id: string, createdAt: string): (v: SavedView)
    ensures v.id == id && v.name == data.name && v.description == data.description && v.createdAt == createdAt
    ensures v.filters == (if data.filters.Some? then data.filters.value else [])
    ensures v.columns == (if data.columns.Some? then data.columns.value else [])
  {
    SavedView(id, data.name, data.description,
              if data.filters.Some? then data.filters.value else [],
              if data.columns.Some? then data.columns.value else [],
              createdAt)
  }

  function OtherView(id: string): SavedView -> bool
  {
    (v: SavedView) => v.id != id
  }

  /** `savedViews.filter(view => view.id !== viewId)` */
  function DeleteView(views: seq<SavedView>, id: string): (r: seq<SavedView>)
    ensures forall v :: v in r <==> v in views && v.id != id
  {
    Filter(views, OtherView(id))
  }

  /** Saving a view with a fresh id and deleting it again gives the list back. */
  lemma SaveDeleteRoundTrip(views: seq<SavedView>, v: SavedView)
    requires forall i :: 0 <= i < |views| ==> views[i].id != v.id
    ensures DeleteView(views + [v], v.id) == views
  {
    FilterAppend(views, [v], OtherView(v.id));
    FilterKeepsAll(views, OtherView(v.id));
    assert [v][..0] == [];
  }

  /** The content of a stored key: missing, unparsable, or a value. */
  datatype Stored<T> = Absent | Malformed | Present(value: T)

  // ---------------------------------------------------------------------
  // Mounting

  /** Whether `loadSavedViews` applies a stored current view: both entries
      parse and a current view is stored. */
  predicate AppliesStoredView(views: Stored<seq<SavedView>>, current: Stored<SavedView>)
  {
    !views.Malformed? && !current.Malformed? && current.Present?
  }

  /** The rows shown once the mount effect has run: `loadInitialData` shows
      `mockData`, then `loadSavedViews` replaces them by a stored current
      view's filters applied to `closureData`, the `data` of the render whose
      closure it runs in. */
  function MountedRows(mockData: seq<Row>, views: Stored<seq<SavedView>>, current: Stored<SavedView>,
                       closureData: seq<Row>): seq<Row>
  {
    if AppliesStoredView(views, current) then Filter(closureData, PassesAll(current.value.filters))
    else mockData
  }

  /** As written, the mount effect runs in the first render's closure, whose
      `data` is still `[]`: a stored current view leaves the table empty, and
      one without filters shows nothing where every loaded row was meant. */
  lemma MountAsWrittenHidesRows(mockData: seq<Row>, views: Stored<seq<SavedView>>, current: Stored<SavedView>)
    ensures AppliesStoredView(views, current) ==> MountedRows(mockData, views, current, []) == []
    ensures !AppliesStoredView(views, current) ==> MountedRows(mockData, views, current, []) == mockData
    ensures AppliesStoredView(views, current) && current.value.filters == [] && mockData != [] ==>
      MountedRows(mockData, views, current, []) != MountedRows(mockData, views, current, mockData)
  {
    if AppliesStoredView(views, current) && current.value.filters == [] {
      NothingFiltered(mockData, current.value.filters);
    }
  }

  /** With the loaded rows in the closure, a stored current view shows
      exactly the loaded rows that pass its filters, and all of them when it
      constrains nothing; otherwise every loaded row is shown. */
  lemma MountIntendedShowsView(mockData: seq<Row>, views: Stored<seq<SavedView>>, current: Stored<SavedView>)
    ensures var r := MountedRows(mockData, views, current, mockData);
      && (AppliesStoredView(views, current) ==>
            && (forall row :: row in r <==> row in mockData && Passes(current.value.filters, row))
            && ((forall i :: 0 <= i < |current.value.filters| ==> !Constrains(current.value.filters[i])) ==> r == mockData))
      && (!AppliesStoredView(views, current) ==> r == mockData)
  {
    if AppliesStoredView(views, current) {
      FilterCorrect(mockData, current.value.filters);
    }
  }

  class Console {
    /** `cashflowMockData` */
    const mockData: seq<Row>
    const data: seq<Row>
    var filteredData: seq<Row>
    var currentView: Option<SavedView>
    var savedViews: seq<SavedView>

    /** The first render followed by the mount effect: `loadInitialData`
        shows the mock rows, then `loadSavedViews` runs in the first render's
        closure, whose `data` is still `[]`. */
    constructor(mockData: seq<Row>, views: Stored<seq<SavedView>>, current: Stored<SavedView>)
      ensures this.mockData == mockData && data == mockData
      ensures filteredData == MountedRows(mockData, views, current, [])
      ensures savedViews == (if views.Present? && !current.Malformed? then views.value else [])
      ensures currentView == (if AppliesStoredView(views, current) then Some(current.value) else None)
    {
      this.mockData := mockData;
      data := mockData;
      filteredData := mockData;
      currentView := None;
      savedViews := [];
      new;
      LoadSavedViews(views, current, []);
    }

    /** `loadSavedViews()`, in the closure of a render whose `data` was
        `closureData`: if either stored entry fails to parse the list is
        emptied; otherwise the stored list (empty when absent) is installed and
        a stored current view is made current and its filters applied. */
    method LoadSavedViews(views: Stored<seq<SavedView>>, current: Stored<SavedView>, closureData: seq<Row>)
      modifies this`savedViews, this`currentView, this`filteredData
      ensures views.Malformed? || current.Malformed? ==>
        savedViews == [] && currentView == old(currentView) && filteredData == old(filteredData)
      ensures !views.Malformed? && !current.Malformed? ==>
        && savedViews == (if views.Present? then views.value else [])
        && (current.Present? ==> currentView == Some(current.value)
                                 && filteredData == Filter(closureData, PassesAll(current.value.filters)))
        && (current.Absent? ==> currentView == old(currentView) && filteredData == old(filteredData))
    {
      if views.Malformed? || current.Malformed? {
        savedViews := [];
        return;
      }
      savedViews := if views.Present? then views.value else [];
      if current.Present? {
        currentView := Some(current.value);
        filteredData := ApplyFilters(closureData, current.value.filters);
      }
    }

    /** `handleFilterApply(filters)` */
    method HandleFilterApply(filters: seq<FilterEntry>)
      modifies this`filteredData
      ensures filteredData == Filter(data, PassesAll(filters))
    {
      filteredData := ApplyFilters(data, filters);
    }

    /** `handleViewSave(viewData)`: append a new view and make it current;
        an existing view is never replaced. */
    method HandleViewSave(viewData: ViewData, id: string, createdAt: string)
      modifies this`savedViews, this`currentView
      ensures savedViews == old(savedViews) + [NewView(viewData, id, createdAt)]
      ensures currentView == Some(NewView(viewData, id, createdAt))
    {
      var view := NewView(viewData, id, createdAt);
      savedViews := savedViews + [view];
      currentView := Some(view);
    }

    /** `handleViewLoad(view)` */
    method HandleViewLoad(view: SavedView)
      modifies this`currentView, this`filteredData
      ensures currentView == Some(view)
      ensures filteredData == Filter(data, PassesAll(view.filters))
    {
      currentView := Some(view);
      filteredData := ApplyFilters(data, view.filters);
    }

    /** `handleViewDelete(id)`: the current view is dropped only if it is the
        one deleted. */
    method HandleViewDelete(viewId: string)
      modifies this`savedViews, this`currentView
      ensures savedViews == DeleteView(old(savedViews), viewId)
      ensures old(currentView).Some? && old(currentView).value.id == viewId ==> currentView.None?
      ensures !(old(currentView).Some? && old(currentView).value.id == viewId) ==> currentView == old(currentView)
    {
      savedViews := DeleteView(savedViews, viewId);
      if currentView.Some? && currentView.value.id == viewId {
        currentView := None;
      }
    }

    /** `handleClearAllViews()` */
    method HandleClearAllViews()
      modifies this`savedViews, this`currentView
      ensures savedViews == [] && currentView.None?
    {
      savedViews := [];
      currentView := None;
    }

    /** `handleResetToDefault()`: the full mock data comes back. */
    method HandleResetToDefault()
      modifies this`currentView, this`filteredData
      ensures currentView.None? && filteredData == mockData
    {
      currentView := None;
      filteredData := mockData;
    }
  }
}
