/** The column layout of the data table: the pinned/regular split, the order
    in which visible columns are displayed, and the drag-and-drop reordering
    of `columnOrder`. */
module ColumnLayout {
  import opened JsValues
  import TableSort

  /** A column definition: `key`, `title`, the optional `type`
      (`'number'`, `'date'`, ...) and whether its header sorts. */
  datatype Column = Column(key: string, title: string, kind: Option<string>, sortable: bool)

  function Keys(cols: seq<Column>): (r: seq<string>)
    ensures |r| == |cols|
    ensures forall i :: 0 <= i < |cols| ==> r[i] == cols[i].key
  {
    if cols == [] then [] else Keys(cols[..|cols| - 1]) + [cols[|cols| - 1].key]
  }

  /** `columns.find(col => col.key === key)`: the first column with the key. */
  function FindColumn(cols: seq<Column>, key: string): (r: Option<Column>)
    ensures r.Some? <==> key in Keys(cols)
    ensures r.Some? ==> r.value == cols[IndexOf(Keys(cols), key)] && r.value.key == key
  {
    if cols == [] then None
    else
      var init := cols[..|cols| - 1];
      var last := cols[|cols| - 1];
      assert Keys(cols) == Keys(init) + [last.key];
      IndexOfAppend(Keys(init), last.key, key);
      var r := FindColumn(init, key);
      if r.Some? then r
      else if last.key == key then Some(last)
      else None
  }

  // ---------------------------------------------------------------------
  // Pinned and regular columns

  /** `columns.filter(col => keys.includes(col.key) == keep)` */
  function FilterByKeys(cols: seq<Column>, keys: seq<string>, keep: bool): (r: seq<Column>)
    ensures |r| <= |cols|
    ensures forall c :: c in r <==> c in cols && ((c.key in keys) == keep)
  {
    if cols == [] then []
    else
      var last := cols[|cols| - 1];
      FilterByKeys(cols[..|cols| - 1], keys, keep) + (if (last.key in keys) == keep then [last] else [])
  }

  /** The split keeps every column on exactly one side. */
  lemma {:induction false} SplitPartitions(cols: seq<Column>, pinned: seq<string>)
    ensures multiset(FilterByKeys(cols, pinned, true)) + multiset(FilterByKeys(cols, pinned, false)) == multiset(cols)
  {
    if cols != [] {
      var init := cols[..|cols| - 1];
      assert cols == init + [cols[|cols| - 1]];
      SplitPartitions(init, pinned);
    }
  }

  // ---------------------------------------------------------------------
  // Display order

  /** The comparator `order.indexOf(a.key) - order.indexOf(b.key)`. */
  function ByPosition(order: seq<string>): (Column, Column) -> int
  {
    (a: Column, b: Column) => IndexOf(order, a.key) - IndexOf(order, b.key)
  }

  function NeverNull(): Column -> bool
  {
    (c: Column) => false
  }

  /** `displayRegularColumnsFiltered`: the visible regular columns, sorted by
      their position in `columnOrder` (a key absent from it has position -1). */
  function DisplayRegular(cols: seq<Column>, pinned: seq<string>, visible: seq<string>, order: seq<string>): seq<Column>
  {
    TableSort.InsertionSort(FilterByKeys(FilterByKeys(cols, pinned, false), visible, true), ByPosition(order))
  }

  /** `displayPinnedColumnsFiltered`: the visible pinned columns in pin order. */
  function DisplayPinned(cols: seq<Column>, pinned: seq<string>, visible: seq<string>): seq<Column>
  {
    TableSort.InsertionSort(FilterByKeys(FilterByKeys(cols, pinned, true), visible, true), ByPosition(pinned))
  }

  lemma SortByPosition(s: seq<Column>, order: seq<string>)
    ensures var r := TableSort.InsertionSort(s, ByPosition(order));
      && multiset(r) == multiset(s)
      && forall i :: 0 <= i < |r| - 1 ==> IndexOf(order, r[i].key) <= IndexOf(order, r[i + 1].key)
  {
    var cmp := ByPosition(order);
    assert TableSort.NullsLastComparator(NeverNull(), cmp);
    TableSort.InsertionSortCorrect(s, NeverNull(), cmp);
  }

  /** The regular columns shown are exactly the visible unpinned ones, each
      once, in non-decreasing position in `columnOrder` (columns missing from
      the order first). */
  lemma DisplayRegularCorrect(cols: seq<Column>, pinned: seq<string>, visible: seq<string>, order: seq<string>)
    ensures var r := DisplayRegular(cols, pinned, visible, order);
      && multiset(r) == multiset(FilterByKeys(FilterByKeys(cols, pinned, false), visible, true))
      && (forall c :: c in r <==> c in cols && c.key !in pinned && c.key in visible)
      && (forall i :: 0 <= i < |r| - 1 ==> IndexOf(order, r[i].key) <= IndexOf(order, r[i + 1].key))
  {
    var s := FilterByKeys(FilterByKeys(cols, pinned, false), visible, true);
    SortByPosition(s, order);
    var r := DisplayRegular(cols, pinned, visible, order);
    forall c ensures c in r <==> c in s {
      assert c in r <==> c in multiset(r);
    }
  }

  /** The pinned columns shown are exactly the visible pinned ones, in the
      order of `pinnedColumns`. */
  lemma DisplayPinnedCorrect(cols: seq<Column>, pinned: seq<string>, visible: seq<string>)
    ensures var r := DisplayPinned(cols, pinned, visible);
      && multiset(r) == multiset(FilterByKeys(FilterByKeys(cols, pinned, true), visible, true))
      && (forall c :: c in r <==> c in cols && c.key in pinned && c.key in visible)
      && (forall i :: 0 <= i < |r| - 1 ==> IndexOf(pinned, r[i].key) <= IndexOf(pinned, r[i + 1].key))
  {
    var s := FilterByKeys(FilterByKeys(cols, pinned, true), visible, true);
    SortByPosition(s, pinned);
    var r := DisplayPinned(cols, pinned, visible);
    forall c ensures c in r <==> c in s {
      assert c in r <==> c in multiset(r);
    }
  }

  // ---------------------------------------------------------------------
  // Drag and drop

  /** Where `splice(start, 0, x)` inserts into a list of length `len`: a
      negative start counts from the end, and the result is clamped to the list. */
  function SplicePos(len: nat, start: int): (pos: nat)
    ensures pos <= len
    ensures 0 <= start <= len ==> pos == start
    ensures start == -1 ==> pos == if len > 0 then len - 1 else 0
  {
    if start >= 0 then (if start <= len then start else len) else (if len + start >= 0 then len + start else 0)
  }

  /** `s.splice(start, 0, x)` */
  function SpliceIn<T>(s: seq<T>, start: int, x: T): (r: seq<T>)
    ensures |r| == |s| + 1
  {
    var pos := SplicePos(|s|, start);
    s[..pos] + [x] + s[pos..]
  }

  /** The `setColumnOrder` update of `onHeaderDrop`: take `from` out, then
      insert it at the index of `to` (which, when `to` is missing, is -1 and
      so puts `from` before the last key). */
  function Reinsert(order: seq<string>, from: string, to: string): (r: seq<string>)
  {
    var next := RemoveAll(order, from);
    SpliceIn(next, IndexOf(next, to), from)
  }

  /** The new `columnOrder` after a drop of the dragged key `from` on `to`:
      unchanged when either key is missing (`null` or empty) or they are equal. */
  function Drop(order: seq<string>, from: Option<string>, to: Option<string>): seq<string>
  {
    if from.None? || from.value == "" || to.None? || to.value == "" || from.value == to.value then order
    else Reinsert(order, from.value, to.value)
  }

  /** Inserting a new element and removing it again gives the list back. */
  lemma SpliceRemove<T(!new)>(s: seq<T>, pos: nat, x: T)
    requires pos <= |s| && x !in s
    ensures RemoveAll(s[..pos] + [x] + s[pos..], x) == s
  {
    assert s == s[..pos] + s[pos..];
    RemoveAllAppend(s[..pos], [x], x);
    RemoveAllAppend(s[..pos] + [x], s[pos..], x);
    assert RemoveAll([x], x) == [];
  }

  lemma SpliceCount<T>(s: seq<T>, pos: nat, x: T)
    requires pos <= |s| && x !in s
    ensures multiset(s[..pos] + [x] + s[pos..])[x] == 1
  {
    assert s == s[..pos] + s[pos..];
    assert multiset(s)[x] == 0;
  }

  lemma SpliceIndex<T>(s: seq<T>, pos: nat, x: T)
    requires pos <= |s| && x !in s
    ensures IndexOf(s[..pos] + [x] + s[pos..], x) == pos
  {
    assert x !in s[..pos];
    IndexOfAppend(s[..pos], x, x);
    IndexOfPrefix(s[..pos] + [x], s[pos..], x);
  }

  lemma SpliceNoDup<T>(s: seq<T>, pos: nat, x: T)
    requires pos <= |s| && x !in s && NoDup(s)
    ensures NoDup(s[..pos] + [x] + s[pos..])
  {
    var r := s[..pos] + [x] + s[pos..];
    forall i, j | 0 <= i < j < |r| ensures r[i] != r[j] {
      if j < pos {
        assert r[i] == s[i] && r[j] == s[j];
      } else if j == pos {
        assert r[i] == s[i];
      } else if i < pos {
        assert r[i] == s[i] && r[j] == s[j - 1];
      } else if i == pos {
        assert r[j] == s[j - 1];
      } else {
        assert r[i] == s[i - 1] && r[j] == s[j - 1];
      }
    }
  }

  /** The position `from` is reinserted at. */
  lemma ReinsertAt(order: seq<string>, from: string, to: string)
    ensures var next := RemoveAll(order, from);
      var pos := SplicePos(|next|, IndexOf(next, to));
      Reinsert(order, from, to) == next[..pos] + [from] + next[pos..]
  {
  }

  /** After the drop `from` occurs once and the other keys keep their
      relative order. */
  lemma ReinsertKeepsOthers(order: seq<string>, from: string, to: string)
    ensures var r := Reinsert(order, from, to);
      RemoveAll(r, from) == RemoveAll(order, from) && multiset(r)[from] == 1
  {
    var next := RemoveAll(order, from);
    ReinsertAt(order, from, to);
    SpliceRemove(next, SplicePos(|next|, IndexOf(next, to)), from);
    SpliceCount(next, SplicePos(|next|, IndexOf(next, to)), from);
  }

  /** When `to` is in the order, `from` lands immediately before it. */
  lemma ReinsertBeforeTarget(order: seq<string>, from: string, to: string)
    requires from != to && to in order
    ensures var r := Reinsert(order, from, to);
      IndexOf(r, from) + 1 < |r| && r[IndexOf(r, from) + 1] == to
  {
    var next := RemoveAll(order, from);
    var pos := SplicePos(|next|, IndexOf(next, to));
    ReinsertAt(order, from, to);
    SpliceIndex(next, pos, from);
    var r := next[..pos] + [from] + next[pos..];
    assert r[pos + 1] == next[pos];
  }

  /** When `to` is missing, `from` lands before the last key, or alone. */
  lemma ReinsertMissingTarget(order: seq<string>, from: string, to: string)
    requires from != to && to !in order
    ensures var r := Reinsert(order, from, to);
      var next := RemoveAll(order, from);
      && (|next| > 0 ==> r == next[..|next| - 1] + [from, next[|next| - 1]])
      && (next == [] ==> r == [from])
  {
    var next := RemoveAll(order, from);
    ReinsertAt(order, from, to);
    if |next| > 0 {
      assert next[|next| - 1..] == [next[|next| - 1]];
    }
  }

  /** A drop with a missing key or onto itself leaves the order as it was. */
  lemma DropNoOp(order: seq<string>, from: Option<string>, to: Option<string>)
    requires from.None? || to.None? || from == to
    ensures Drop(order, from, to) == order
  {
  }

  /** A drop keeps the set of keys and their being duplicate-free. */
  lemma DropKeepsKeys(order: seq<string>, from: Option<string>, to: Option<string>)
    requires from.Some? && from.value in order
    requires NoDup(order)
    ensures var r := Drop(order, from, to);
      (forall k :: k in r <==> k in order) && NoDup(r)
  {
    if !(from.value == "" || to.None? || to.value == "" || from.value == to.value) {
      var f := from.value;
      var next := RemoveAll(order, f);
      RemoveAllKeepsNoDup(order, f);
      var pos := SplicePos(|next|, IndexOf(next, to.value));
      var r := next[..pos] + [f] + next[pos..];
      assert Drop(order, from, to) == r;
      SpliceNoDup(next, pos, f);
      assert next == next[..pos] + next[pos..];
      assert forall k :: k in r <==> k in next || k == f;
    }
  }
}
