/** The searchable combo box (`SearchableComboBox`): a list of items, a
    selection initialised from the `value` prop, a search term that narrows
    the dropdown by title, and single or multiple selection reported through
    `onChange`. */
module SearchableComboBox {
  import opened JsValues

  /** An item, a `value` prop or one element of an array `value`: a
      primitive (`Prim(Null)` for `null`), an object, or an array. */
  datatype Item = Prim(v: Value) | Obj(fields: Row) | Arr(elems: seq<Item>)

  /** Objects and arrays are truthy; a primitive as `Truthy` says. */
  predicate ItemTruthy(item: Item)
  {
    !item.Prim? || Truthy(Some(item.v))
  }

  /** `getItemValue(item)`; `None` is `undefined`. An array's `itemValue`
      field is taken to be `undefined`. */
  function ValueOf(item: Item, key: string): (r: Option<Value>)
    ensures !ItemTruthy(item) ==> r.None?
    ensures item.Prim? && ItemTruthy(item) ==> r == Some(item.v)
    ensures item.Obj? ==> r == Get(item.fields, key)
  {
    match item
    case Prim(v) => if Truthy(Some(v)) then Some(v) else None
    case Obj(fields) => Get(fields, key)
    case Arr(_) => None
  }

  /** `getItemTitle(item)`: `''` for a falsy item, `String(item)` for a
      primitive, and the object's title field or `'Unknown'`. */
  function TitleOf(item: Item, key: string): (r: string)
    ensures !ItemTruthy(item) ==> r == ""
    ensures item.Prim? && ItemTruthy(item) ==> r == JsString(Some(item.v))
    ensures item.Obj? ==> r == (if key in item.fields then JsString(Some(item.fields[key])) else "Unknown")
  {
    match item
    case Prim(v) => if Truthy(Some(v)) then JsString(Some(v)) else ""
    case Obj(fields) => if key in fields then JsString(Some(fields[key])) else "Unknown"
    case Arr(_) => "Unknown"
  }

  /** `{ [itemValue]: v, [itemTitle]: `ID: ${v}` }`, the stand-in for an id
      no item carries. */
  function Placeholder(v: Value, valueKey: string, titleKey: string): Item
  {
    Obj(map[valueKey := v][titleKey := Str("ID: " + JsString(Some(v)))])
  }

  /** The stand-in answers its id and shows `ID: <id>` (when the two keys
      differ and the id is truthy). */
  lemma PlaceholderShowsId(v: Value, valueKey: string, titleKey: string)
    requires valueKey != titleKey && Truthy(Some(v))
    ensures ValueOf(Placeholder(v, valueKey, titleKey), valueKey) == Some(v)
    ensures TitleOf(Placeholder(v, valueKey, titleKey), titleKey) == "ID: " + JsString(Some(v))
  {
  }

  /** `item => getItemValue(item) == val` */
  function HasIdLoosely(v: Value, valueKey: string): Item -> bool
  {
    (item: Item) => LooseEquals(ValueOf(item, valueKey), v)
  }

  /** One element of an array `value` in multiple mode: an object (or
      array) as it is; a primitive resolved to the first item whose value is
      loosely equal to it, or to the stand-in when there is no truthy one. */
  function Resolve(val: Item, items: seq<Item>, valueKey: string, titleKey: string): (r: Item)
    ensures !val.Prim? ==> r == val
    ensures val.Prim? ==>
      var found := Find(items, HasIdLoosely(val.v, valueKey));
      r == if found.Some? && ItemTruthy(found.value) then found.value else Placeholder(val.v, valueKey, titleKey)
  {
    if !val.Prim? then val
    else
      var found := Find(items, HasIdLoosely(val.v, valueKey));
      if found.Some? && ItemTruthy(found.value) then found.value else Placeholder(val.v, valueKey, titleKey)
  }

  /** The effect that initialises `selectedItems` from `value`; `current` is
      the selection it would leave in place (multiple mode with a value that
      is not an array sets nothing). */
  function Initial(value: Option<Item>, multiple: bool, items: seq<Item>, valueKey: string, titleKey: string,
                   current: seq<Item>): (r: seq<Item>)
    ensures value.None? || !ItemTruthy(value.value) || value.value == Arr([]) ==> r == []
    ensures multiple && value.Some? && value.value.Arr? ==>
      |r| == |value.value.elems| &&
      forall i :: 0 <= i < |r| ==> r[i] == Resolve(value.value.elems[i], items, valueKey, titleKey)
    ensures multiple && value.Some? && ItemTruthy(value.value) && !value.value.Arr? ==> r == current
    ensures !multiple ==> |r| <= 1
  {
    if value.None? || !ItemTruthy(value.value) || value.value == Arr([]) then []
    else if multiple && value.value.Arr? then
      var elems := value.value.elems;
      seq(|elems|, i requires 0 <= i < |elems| => Resolve(elems[i], items, valueKey, titleKey))
    else if !multiple then
      var given := value.value;
      var actual := if given.Arr? && |given.elems| == 1 then given.elems[0] else given;
      if actual == Prim(Null) || actual == Prim(Str("")) then []
      else
        var item := if !actual.Prim? then Some(actual) else Find(items, HasIdLoosely(actual.v, valueKey));
        if item.Some? && ItemTruthy(item.value) then [item.value]
        else if actual.Prim? && ItemTruthy(actual) then [Placeholder(actual.v, valueKey, titleKey)]
        else []
    else current
  }

  /** A truthy id no item carries becomes the stand-in, in single mode and
      as the element of an array in multiple mode. */
  lemma UnknownIdBecomesPlaceholder(v: Value, items: seq<Item>, valueKey: string, titleKey: string, current: seq<Item>)
    requires Truthy(Some(v))
    requires forall i :: 0 <= i < |items| ==> !LooseEquals(ValueOf(items[i], valueKey), v)
    ensures Initial(Some(Prim(v)), false, items, valueKey, titleKey, current) == [Placeholder(v, valueKey, titleKey)]
    ensures Initial(Some(Arr([Prim(v)])), true, items, valueKey, titleKey, current) == [Placeholder(v, valueKey, titleKey)]
    ensures Initial(Some(Arr([Prim(v)])), false, items, valueKey, titleKey, current) == [Placeholder(v, valueKey, titleKey)]
  {
    assert Find(items, HasIdLoosely(v, valueKey)).None?;
  }

  /** A known id selects the first item carrying it, when that item is truthy. */
  lemma KnownIdSelectsItem(v: Value, items: seq<Item>, k: nat, valueKey: string, titleKey: string, current: seq<Item>)
    requires Truthy(Some(v)) && k < |items| && ItemTruthy(items[k])
    requires LooseEquals(ValueOf(items[k], valueKey), v)
    requires forall j :: 0 <= j < k ==> !LooseEquals(ValueOf(items[j], valueKey), v)
    ensures Initial(Some(Prim(v)), false, items, valueKey, titleKey, current) == [items[k]]
  {
    var found := Find(items, HasIdLoosely(v, valueKey));
    assert HasIdLoosely(v, valueKey)(items[k]);
    var i :| 0 <= i < |items| && items[i] == found.value && HasIdLoosely(v, valueKey)(items[i])
             && forall j :: 0 <= j < i ==> !HasIdLoosely(v, valueKey)(items[j]);
    assert i == k;
  }

  // ---------------------------------------------------------------------
  // Search

  /** `item => getItemTitle(item).toLowerCase().includes(term.toLowerCase())` */
  function TitleMatches(term: string, titleKey: string): Item -> bool
  {
    (item: Item) => Contains(ToLower(TitleOf(item, titleKey)), ToLower(term))
  }

  /** `filteredItems`: every item while the search term is empty, otherwise
      the items whose lower-cased title contains the lower-cased term, in
      their order. */
  function FilteredItems(items: seq<Item>, term: string, titleKey: string): (r: seq<Item>)
    ensures term == "" ==> r == items
    ensures term != "" ==> forall x :: x in r <==> x in items && TitleMatches(term, titleKey)(x)
  {
    if term == "" then items else Filter(items, TitleMatches(term, titleKey))
  }

  lemma {:induction false} ToLowerAppend(a: string, b: string)
    ensures ToLower(a + b) == ToLower(a) + ToLower(b)
  {
    assert forall i :: 0 <= i < |a + b| ==> ToLower(a + b)[i] == (ToLower(a) + ToLower(b))[i];
  }

  lemma ContainsPrefix(s: string, a: string, b: string)
    requires Contains(s, a + b)
    ensures Contains(s, a)
  {
    var i :| 0 <= i <= |s| - |a + b| && OccursAt(s, a + b, i);
    assert s[i..i + |a|] == (a + b)[..|a|];
    assert OccursAt(s, a, i);
  }

  /** Typing more of the search term can only narrow the dropdown. */
  lemma TypingNarrows(items: seq<Item>, term: string, more: string, titleKey: string)
    ensures forall x :: x in FilteredItems(items, term + more, titleKey) ==> x in FilteredItems(items, term, titleKey)
  {
    if term != "" {
      ToLowerAppend(term, more);
      forall x | x in FilteredItems(items, term + more, titleKey)
        ensures TitleMatches(term, titleKey)(x)
      {
        ContainsPrefix(ToLower(TitleOf(x, titleKey)), ToLower(term), ToLower(more));
      }
    }
  }

  // ---------------------------------------------------------------------
  // Selection

  /** `isItemSelected(item)`: some selected item has the same value. */
  predicate IsSelected(selected: seq<Item>, item: Item, valueKey: string)
  {
    exists s :: s in selected && ValueOf(s, valueKey) == ValueOf(item, valueKey)
  }

  /** `selected => getItemValue(selected) !== v` */
  function OtherValue(v: Option<Value>, valueKey: string): Item -> bool
  {
    (s: Item) => ValueOf(s, valueKey) != v
  }

  /** The selection after clicking `item` in multiple mode: every item
      with its value removed when one is selected, otherwise `item` appended. */
  function Toggled(selected: seq<Item>, item: Item, valueKey: string): (r: seq<Item>)
    ensures IsSelected(selected, item, valueKey) ==>
      forall x :: x in r <==> x in selected && ValueOf(x, valueKey) != ValueOf(item, valueKey)
    ensures !IsSelected(selected, item, valueKey) ==> r == selected + [item]
    ensures IsSelected(r, item, valueKey) <==> !IsSelected(selected, item, valueKey)
  {
    if IsSelected(selected, item, valueKey) then Filter(selected, OtherValue(ValueOf(item, valueKey), valueKey))
    else
      assert item in selected + [item];
      selected + [item]
  }

  /** Clicking an unselected item twice gives the selection back. */
  lemma ToggleTwice(selected: seq<Item>, item: Item, valueKey: string)
    requires !IsSelected(selected, item, valueKey)
    ensures Toggled(Toggled(selected, item, valueKey), item, valueKey) == selected
  {
    var keep := OtherValue(ValueOf(item, valueKey), valueKey);
    FilterAppend(selected, [item], keep);
    FilterKeepsAll(selected, keep);
    FilterKeepsNone([item], keep);
  }

  /** `newSelected.map(selected => getItemValue(selected))` */
  function ValuesOf(selected: seq<Item>, valueKey: string): (r: seq<Option<Value>>)
    ensures |r| == |selected|
    ensures forall i :: 0 <= i < |r| ==> r[i] == ValueOf(selected[i], valueKey)
  {
    seq(|selected|, i requires 0 <= i < |selected| => ValueOf(selected[i], valueKey))
  }

  /** What `onChange` receives: the selected values (multiple mode), one
      value, or `null`. */
  datatype Report = Values(values: seq<Option<Value>>) | One(value: Option<Value>) | NullValue

  class ComboBox {
    const items: seq<Item>
    const itemTitle: string
    const itemValue: string
    const placeholder: string
    const clearable: bool
    const disabled: bool
    const multiple: bool
    var searchTerm: string
    var isDropdownOpen: bool
    var selectedItems: seq<Item>
    var isFocused: bool

    /** The first render with its `value` prop. */
    constructor(items: seq<Item>, itemTitle: string, itemValue: string, placeholder: string,
                clearable: bool, disabled: bool, multiple: bool, value: Option<Item>)
      ensures this.items == items && this.itemTitle == itemTitle && this.itemValue == itemValue
      ensures this.placeholder == placeholder
      ensures this.clearable == clearable && this.disabled == disabled && this.multiple == multiple
      ensures searchTerm == "" && !isDropdownOpen && !isFocused
      ensures selectedItems == Initial(value, multiple, items, itemValue, itemTitle, [])
    {
      this.items := items;
      this.itemTitle := itemTitle;
      this.itemValue := itemValue;
      this.placeholder := placeholder;
      this.clearable := clearable;
      this.disabled := disabled;
      this.multiple := multiple;
      searchTerm := "";
      isDropdownOpen := false;
      isFocused := false;
      selectedItems := Initial(value, multiple, items, itemValue, itemTitle, []);
    }

    /** A new `value` prop re-runs the initialising effect. */
    method SyncValue(value: Option<Item>)
      modifies this`selectedItems
      ensures selectedItems == Initial(value, multiple, items, itemValue, itemTitle, old(selectedItems))
    {
      selectedItems := Initial(value, multiple, items, itemValue, itemTitle, selectedItems);
    }

    /** The items the dropdown lists. */
    function Shown(): seq<Item>
      reads this
    {
      FilteredItems(items, searchTerm, itemTitle)
    }

    /** `handleSelectItem(item)`. Multiple mode toggles the item and reports
        the values of the new selection; single mode selects just the item,
        reports its value, closes the dropdown and clears the search. */
    method SelectItem(item: Item) returns (report: Report)
      modifies this`selectedItems, this`isDropdownOpen, this`searchTerm
      ensures multiple ==>
        && selectedItems == Toggled(old(selectedItems), item, itemValue)
        && report == Values(ValuesOf(selectedItems, itemValue))
        && isDropdownOpen == old(isDropdownOpen) && searchTerm == old(searchTerm)
      ensures !multiple ==>
        && selectedItems == [item] && report == One(ValueOf(item, itemValue))
        && !isDropdownOpen && searchTerm == ""
    {
      if multiple {
        selectedItems := Toggled(selectedItems, item, itemValue);
        report := Values(ValuesOf(selectedItems, itemValue));
      } else {
        selectedItems := [item];
        report := One(ValueOf(item, itemValue));
        isDropdownOpen := false;
        searchTerm := "";
      }
    }

    /** `handleRemoveItem(item)`: drop every selected item with its value;
        report the remaining values, or `null` in single mode. */
    method RemoveItem(item: Item) returns (report: Report)
      modifies this`selectedItems
      ensures selectedItems == Filter(old(selectedItems), OtherValue(ValueOf(item, itemValue), itemValue))
      ensures !IsSelected(selectedItems, item, itemValue)
      ensures forall x :: x in old(selectedItems) && ValueOf(x, itemValue) != ValueOf(item, itemValue) ==> x in selectedItems
      ensures report == if multiple then Values(ValuesOf(selectedItems, itemValue)) else NullValue
    {
      selectedItems := Filter(selectedItems, OtherValue(ValueOf(item, itemValue), itemValue));
      report := if multiple then Values(ValuesOf(selectedItems, itemValue)) else NullValue;
    }

    /** `handleClear()`: empty the selection and the search; report `[]`, or
        `null` in single mode. */
    method Clear() returns (report: Report)
      modifies this`selectedItems, this`searchTerm
      ensures selectedItems == [] && searchTerm == ""
      ensures report == if multiple then Values([]) else NullValue
      ensures !ShowsClear()
    {
      selectedItems := [];
      searchTerm := "";
      report := if multiple then Values([]) else NullValue;
    }

    /** `toggleDropdown()`: nothing while disabled; closing clears the search. */
    method ToggleDropdown()
      modifies this`isDropdownOpen, this`searchTerm
      ensures disabled ==> isDropdownOpen == old(isDropdownOpen) && searchTerm == old(searchTerm)
      ensures !disabled ==> isDropdownOpen == !old(isDropdownOpen)
      ensures !disabled && old(isDropdownOpen) ==> searchTerm == ""
      ensures !disabled && !old(isDropdownOpen) ==> searchTerm == old(searchTerm)
    {
      if disabled {
        return;
      }
      var wasOpen := isDropdownOpen;
      isDropdownOpen := !wasOpen;
      if wasOpen {
        searchTerm := "";
      }
    }

    /** Typing in the search input. */
    method SetSearchTerm(term: string)
      modifies this`searchTerm
      ensures searchTerm == term
    {
      searchTerm := term;
    }

    /** `handleInputFocus()`: focused, and the dropdown open. */
    method InputFocus()
      modifies this`isFocused, this`isDropdownOpen
      ensures isFocused && isDropdownOpen
    {
      isFocused := true;
      if !isDropdownOpen {
        isDropdownOpen := true;
      }
    }

    /** `handleInputBlur()`: the dropdown stays as it is. */
    method InputBlur()
      modifies this`isFocused
      ensures !isFocused
    {
      isFocused := false;
    }

    /** The search input's placeholder: the prop while nothing is selected. */
    function PlaceholderText(): (r: string)
      reads this
      ensures selectedItems == [] ==> r == placeholder
      ensures selectedItems != [] ==> r == ""
    {
      if |selectedItems| == 0 then placeholder else ""
    }

    /** The clear icon shows when clearable and something is selected. */
    predicate ShowsClear()
      reads this
    {
      clearable && |selectedItems| > 0
    }

    /** The dropdown's text when it lists nothing. */
    function EmptyText(): (r: string)
      reads this
      ensures searchTerm != "" ==> r == "No items found"
      ensures searchTerm == "" ==> r == "No items available"
    {
      if searchTerm != "" then "No items found" else "No items available"
    }
  }
}
