/** The sort stage of the data table (`processedData`) and the header-click
    rule that chooses the sort column and direction (`handleSort`). */
module TableSort {
  import opened JsValues

  datatype Direction = Asc | Desc

  /** `sortConfig`: the key is `null` until a header is clicked. */
  datatype SortConfig = SortConfig(key: Option<string>, direction: Direction)

  /** The initial state `{ key: null, direction: 'asc' }`. */
  const Unsorted := SortConfig(None, Asc)

  /** `sortConfig.key` is truthy: a column to sort by has been chosen. */
  predicate IsActive(config: SortConfig)
  {
    config.key.Some? && config.key.value != ""
  }

  /** The sort configuration after a click on the header of `key`
      (`handleSort`, outside a drag): descending exactly when `key` is already
      the ascending sort key, ascending otherwise. */
  function NextSort(config: SortConfig, key: string): (r: SortConfig)
    ensures r.key == Some(key)
    ensures r.direction == Desc <==> config.key == Some(key) && config.direction == Asc
  {
    if config.key == Some(key) && config.direction == Asc then SortConfig(Some(key), Desc)
    else SortConfig(Some(key), Asc)
  }

  /** Clicking the same header again flips the direction; from the ascending
      or unsorted state two clicks on a new header give descending order. */
  lemma NextSortAlternates(config: SortConfig, key: string)
    ensures NextSort(NextSort(config, key), key).direction != NextSort(config, key).direction
    ensures NextSort(NextSort(NextSort(config, key), key), key) == NextSort(config, key)
    ensures config.key != Some(key) ==> NextSort(config, key).direction == Asc
  {
  }

  // ---------------------------------------------------------------------
  // String order

  /** `localeCompare`, modelled by the code-point order of the characters:
      negative, zero or positive as `x` sorts before, with or after `y`. */
  function LocaleCompare(x: string, y: string): (r: int)
    ensures -1 <= r <= 1
    ensures r == 0 <==> x == y
  {
    if x == [] && y == [] then 0
    else if x == [] then -1
    else if y == [] then 1
    else if x[0] < y[0] then -1
    else if x[0] > y[0] then 1
    else
      var r := LocaleCompare(x[1..], y[1..]);
      assert r == 0 ==> x == [x[0]] + x[1..] == [y[0]] + y[1..] == y;
      r
  }

  lemma {:induction false} LocaleCompareAntisymmetric(x: string, y: string)
    ensures LocaleCompare(y, x) == -LocaleCompare(x, y)
  {
    if x != [] && y != [] && x[0] == y[0] {
      LocaleCompareAntisymmetric(x[1..], y[1..]);
    }
  }

  lemma {:induction false} LocaleCompareTransitive(x: string, y: string, z: string)
    requires LocaleCompare(x, y) <= 0 && LocaleCompare(y, z) <= 0
    ensures LocaleCompare(x, z) <= 0
  {
    if x != [] && y != [] && z != [] && x[0] == y[0] == z[0] {
      LocaleCompareTransitive(x[1..], y[1..], z[1..]);
    }
  }

  // ---------------------------------------------------------------------
  // The comparator

  /** The number that `(v || 0)` becomes under subtraction; `None` is `NaN`. */
  function NumericOperand(v: Option<Value>): (r: Option<int>)
    ensures v.Some? && v.value.Num? ==> r == Some(v.value.n)
  {
    if Truthy(v) then ToNumber(v) else Some(0)
  }

  /** The comparator passed to `Array.prototype.sort`: a rows whose key is
      `null` or `undefined` compares greater than anything (in both
      directions), two strings compare by `localeCompare`, anything else by
      `(a || 0) - (b || 0)`, whose `NaN` the sort reads as 0. */
  function Compare(a: Option<Value>, b: Option<Value>, dir: Direction): int
  {
    if IsNullish(a) then 1
    else if IsNullish(b) then -1
    else if a.value.Str? && b.value.Str? then
      (if dir == Asc then LocaleCompare(a.value.s, b.value.s) else LocaleCompare(b.value.s, a.value.s))
    else
      var x := NumericOperand(a);
      var y := NumericOperand(b);
      if x.None? || y.None? then 0
      else if dir == Asc then x.value - y.value else y.value - x.value
  }

  /** Between two present keys the comparator is antisymmetric. */
  lemma CompareAntisymmetric(a: Option<Value>, b: Option<Value>, dir: Direction)
    requires !IsNullish(a) && !IsNullish(b)
    ensures Compare(b, a, dir) == -Compare(a, b, dir)
  {
    if a.value.Str? && b.value.Str? {
      LocaleCompareAntisymmetric(a.value.s, b.value.s);
    }
  }

  function KeyOf(row: Row, key: string): Option<Value>
  {
    Get(row, key)
  }

  function CompareRows(a: Row, b: Row, key: string, dir: Direction): int
  {
    Compare(KeyOf(a, key), KeyOf(b, key), dir)
  }

  predicate NullKey(row: Row, key: string)
  {
    IsNullish(KeyOf(row, key))
  }

  // ---------------------------------------------------------------------
  // A stable insertion sort over any comparator (`Array.prototype.sort` is stable)

  function Insert<T>(x: T, ys: seq<T>, cmp: (T, T) -> int): (r: seq<T>)
  {
    if ys == [] then [x]
    else if cmp(x, ys[0]) <= 0 then [x] + ys
    else [ys[0]] + Insert(x, ys[1..], cmp)
  }

  function InsertionSort<T>(s: seq<T>, cmp: (T, T) -> int): (r: seq<T>)
  {
    if s == [] then [] else Insert(s[0], InsertionSort(s[1..], cmp), cmp)
  }

  /** After the first null element, only null elements follow. */
  predicate NullsLast<T>(r: seq<T>, isNull: T -> bool)
  {
    forall i, j :: 0 <= i < j < |r| && isNull(r[i]) ==> isNull(r[j])
  }

  /** Each element is ordered before a non-null successor. */
  predicate AdjacentOrdered<T>(r: seq<T>, isNull: T -> bool, cmp: (T, T) -> int)
  {
    forall i :: 0 <= i < |r| - 1 && !isNull(r[i + 1]) ==> cmp(r[i], r[i + 1]) <= 0
  }

  predicate SortedBy<T>(r: seq<T>, isNull: T -> bool, cmp: (T, T) -> int)
  {
    NullsLast(r, isNull) && AdjacentOrdered(r, isNull, cmp)
  }

  /** What the table comparator guarantees: a null element compares greater
      than anything, a present one not greater than a null, and between present
      elements the comparator is antisymmetric. */
  ghost predicate NullsLastComparator<T(!new)>(isNull: T -> bool, cmp: (T, T) -> int)
  {
    && (forall a, b :: isNull(a) ==> cmp(a, b) > 0)
    && (forall a, b :: !isNull(a) && isNull(b) ==> cmp(a, b) <= 0)
    && (forall a, b :: !isNull(a) && !isNull(b) ==> cmp(b, a) == -cmp(a, b))
  }

  /** Where `Insert` puts `x`: after the leading elements it compares greater than. */
  function InsertPos<T>(x: T, ys: seq<T>, cmp: (T, T) -> int): (k: nat)
    ensures k <= |ys|
    ensures forall i :: 0 <= i < k ==> cmp(x, ys[i]) > 0
    ensures k < |ys| ==> cmp(x, ys[k]) <= 0
  {
    if ys == [] || cmp(x, ys[0]) <= 0 then 0
    else 1 + InsertPos(x, ys[1..], cmp)
  }

  /** `Insert` splices `x` into `ys` at `InsertPos`. */
  lemma {:induction false} InsertAt<T>(x: T, ys: seq<T>, cmp: (T, T) -> int)
    ensures var k := InsertPos(x, ys, cmp);
      k <= |ys| && Insert(x, ys, cmp) == ys[..k] + [x] + ys[k..]
  {
    if ys == [] {
    } else if cmp(x, ys[0]) <= 0 {
      assert ys[..0] == [];
      assert ys[0..] == ys;
    } else {
      var y, t := ys[0], ys[1..];
      var j := InsertPos(x, t, cmp);
      assert InsertPos(x, ys, cmp) == j + 1;
      assert Insert(x, ys, cmp) == [y] + Insert(x, t, cmp);
      InsertAt(x, t, cmp);
      assert ys == [y] + t;
      PrependSplice(y, t, j, x);
    }
  }

  /** Splicing behind a new first element moves the splice point by one. */
  lemma PrependSplice<T>(y: T, t: seq<T>, k: nat, x: T)
    requires k <= |t|
    ensures [y] + (t[..k] + [x] + t[k..]) == ([y] + t)[..k + 1] + [x] + ([y] + t)[k + 1..]
  {
    assert ([y] + t)[..k + 1] == [y] + t[..k];
    assert ([y] + t)[k + 1..] == t[k..];
  }

  /** `Insert` adds exactly `x`. */
  lemma {:induction false} InsertPermutes<T>(x: T, ys: seq<T>, cmp: (T, T) -> int)
    ensures multiset(Insert(x, ys, cmp)) == multiset(ys) + multiset{x}
  {
    if ys != [] && cmp(x, ys[0]) > 0 {
      InsertPermutes(x, ys[1..], cmp);
      assert ys == [ys[0]] + ys[1..];
    }
  }

  lemma SpliceNullsLast<T>(x: T, ys: seq<T>, k: nat, isNull: T -> bool)
    requires k <= |ys|
    requires NullsLast(ys, isNull)
    requires !isNull(x) ==> forall i :: 0 <= i < k ==> !isNull(ys[i])
    requires isNull(x) ==> k == |ys|
    ensures NullsLast(ys[..k] + [x] + ys[k..], isNull)
  {
    var r := ys[..k] + [x] + ys[k..];
    forall i, j | 0 <= i < j < |r| && isNull(r[i]) ensures isNull(r[j]) {
      if j < k {
        assert r[i] == ys[i] && r[j] == ys[j];
      } else if i > k {
        assert r[i] == ys[i - 1] && r[j] == ys[j - 1];
      }
    }
  }

  lemma SpliceAdjacent<T>(x: T, ys: seq<T>, k: nat, isNull: T -> bool, cmp: (T, T) -> int)
    requires k <= |ys|
    requires AdjacentOrdered(ys, isNull, cmp)
    requires 0 < k && !isNull(x) ==> cmp(ys[k - 1], x) <= 0
    requires k < |ys| && !isNull(ys[k]) ==> cmp(x, ys[k]) <= 0
    ensures AdjacentOrdered(ys[..k] + [x] + ys[k..], isNull, cmp)
  {
    var r := ys[..k] + [x] + ys[k..];
    forall i | 0 <= i < |r| - 1 && !isNull(r[i + 1]) ensures cmp(r[i], r[i + 1]) <= 0 {
      if i + 1 < k {
        assert r[i] == ys[i] && r[i + 1] == ys[i + 1];
      } else if i + 1 == k {
        assert r[i] == ys[k - 1] && r[i + 1] == x;
      } else if i == k {
        assert r[i] == x && r[i + 1] == ys[k];
      } else {
        assert r[i] == ys[i - 1] && r[i + 1] == ys[i];
      }
    }
  }

  lemma InsertSorted<T(!new)>(x: T, ys: seq<T>, isNull: T -> bool, cmp: (T, T) -> int)
    requires NullsLastComparator(isNull, cmp)
    requires SortedBy(ys, isNull, cmp)
    ensures SortedBy(Insert(x, ys, cmp), isNull, cmp)
  {
    var k := InsertPos(x, ys, cmp);
    InsertAt(x, ys, cmp);
    // `x` is placed after present elements only, and a null `x` goes last
    SpliceNullsLast(x, ys, k, isNull);
    if 0 < k {
      assert cmp(x, ys[k - 1]) > 0;
      if !isNull(x) {
        assert cmp(ys[k - 1], x) == -cmp(x, ys[k - 1]);
      }
    }
    SpliceAdjacent(x, ys, k, isNull, cmp);
  }

  /** The sort is a permutation of its input that puts nulls last and orders
      each present element before its successor. */
  lemma {:induction false} InsertionSortCorrect<T(!new)>(s: seq<T>, isNull: T -> bool, cmp: (T, T) -> int)
    requires NullsLastComparator(isNull, cmp)
    ensures multiset(InsertionSort(s, cmp)) == multiset(s)
    ensures SortedBy(InsertionSort(s, cmp), isNull, cmp)
  {
    if s != [] {
      InsertionSortCorrect(s[1..], isNull, cmp);
      InsertSorted(s[0], InsertionSort(s[1..], cmp), isNull, cmp);
      InsertPermutes(s[0], InsertionSort(s[1..], cmp), cmp);
      assert s == [s[0]] + s[1..];
    }
  }

  /** A one-element list passes the filter or not. */
  lemma FilterSingle<T(!new)>(x: T, keep: T -> bool)
    ensures Filter([x], keep) == if keep(x) then [x] else []
  {
    assert [x][..0] == [];
  }

  /** Filtering a sequence with a given first element. */
  lemma FilterCons<T(!new)>(y: T, t: seq<T>, keep: T -> bool)
    ensures Filter([y] + t, keep) == (if keep(y) then [y] else []) + Filter(t, keep)
  {
    FilterAppend([y], t, keep);
    FilterSingle(y, keep);
  }

  /** Inserting `x` puts it before every element of its own class, so a
      class's elements keep their order, with `x` first when it belongs. */
  lemma {:induction false} InsertKeepsClassOrder<T(!new)>(x: T, ys: seq<T>, cmp: (T, T) -> int, same: T -> bool)
    requires forall a, b :: same(a) && same(b) ==> cmp(a, b) <= 0
    ensures Filter(Insert(x, ys, cmp), same) == if same(x) then [x] + Filter(ys, same) else Filter(ys, same)
  {
    if ys == [] || cmp(x, ys[0]) <= 0 {
      assert Insert(x, ys, cmp) == [x] + ys;
      FilterCons(x, ys, same);
    } else {
      var y, t := ys[0], ys[1..];
      var rest := Insert(x, t, cmp);
      assert ys == [y] + t;
      assert Insert(x, ys, cmp) == [y] + rest;
      FilterCons(y, rest, same);
      FilterCons(y, t, same);
      InsertKeepsClassOrder(x, t, cmp, same);
      var fr, ft := Filter(rest, same), Filter(t, same);
      assert fr == if same(x) then [x] + ft else ft;
      if same(y) {
        // `x` compares greater than `y`, so they are not of one class
        assert !same(x);
      }
    }
  }

  /** The sort is stable: the elements of a class whose members never
      compare greater than one another keep their relative order. */
  lemma {:induction false} InsertionSortStable<T(!new)>(s: seq<T>, cmp: (T, T) -> int, same: T -> bool)
    requires forall a, b :: same(a) && same(b) ==> cmp(a, b) <= 0
    ensures Filter(InsertionSort(s, cmp), same) == Filter(s, same)
  {
    if s != [] {
      var x, t := s[0], s[1..];
      var sorted := InsertionSort(t, cmp);
      assert InsertionSort(s, cmp) == Insert(x, sorted, cmp);
      InsertionSortStable(t, cmp, same);
      InsertKeepsClassOrder(x, sorted, cmp, same);
      assert s == [x] + t;
      FilterAppend([x], t, same);
      FilterSingle(x, same);
    }
  }

  // ---------------------------------------------------------------------
  // The sort stage

  function RowComparator(key: string, dir: Direction): (Row, Row) -> int
  {
    (a: Row, b: Row) => CompareRows(a, b, key, dir)
  }

  function NullKeyTest(key: string): Row -> bool
  {
    (r: Row) => NullKey(r, key)
  }

  /** `processedData`: a copy of `data`, sorted when a sort key is set. */
  function SortRows(data: seq<Row>, config: SortConfig): seq<Row>
  {
    if IsActive(config) then InsertionSort(data, RowComparator(config.key.value, config.direction)) else data
  }

  lemma RowComparatorNullsLast(key: string, dir: Direction)
    ensures NullsLastComparator(NullKeyTest(key), RowComparator(key, dir))
  {
    forall a: Row, b: Row | !NullKey(a, key) && !NullKey(b, key)
      ensures CompareRows(b, a, key, dir) == -CompareRows(a, b, key, dir)
    {
      CompareAntisymmetric(KeyOf(a, key), KeyOf(b, key), dir);
    }
  }

  /** The sort stage returns a permutation of `data`; when a sort key is set,
      rows whose key is null or undefined come after every other row in both
      directions, and each other row compares not greater than its successor. */
  lemma SortRowsCorrect(data: seq<Row>, config: SortConfig)
    ensures multiset(SortRows(data, config)) == multiset(data)
    ensures !IsActive(config) ==> SortRows(data, config) == data
    ensures IsActive(config) ==>
      var key := config.key.value;
      var r := SortRows(data, config);
      && (forall i, j :: 0 <= i < j < |r| && NullKey(r[i], key) ==> NullKey(r[j], key))
      && (forall i :: 0 <= i < |r| - 1 && !NullKey(r[i + 1], key) ==>
            CompareRows(r[i], r[i + 1], key, config.direction) <= 0)
  {
    if IsActive(config) {
      var key := config.key.value;
      RowComparatorNullsLast(key, config.direction);
      InsertionSortCorrect(data, NullKeyTest(key), RowComparator(key, config.direction));
    }
  }

  /** The rows holding one present key value `v`. */
  function HasKey(key: string, v: Value): Row -> bool
  {
    (r: Row) => KeyOf(r, key) == Some(v)
  }

  /** The sort stage is stable: rows that hold the same present value in the
      sort column keep their relative order from `data`, in both directions.
      (Rows with a null key compare greater than one another, so their order
      is left to the sort.) */
  lemma SortRowsStable(data: seq<Row>, config: SortConfig, v: Value)
    requires v != Null
    ensures IsActive(config) ==>
      Filter(SortRows(data, config), HasKey(config.key.value, v)) == Filter(data, HasKey(config.key.value, v))
  {
    if IsActive(config) {
      var key, dir := config.key.value, config.direction;
      forall a: Row, b: Row | HasKey(key, v)(a) && HasKey(key, v)(b)
        ensures RowComparator(key, dir)(a, b) <= 0
      {
        if v.Str? {
          assert LocaleCompare(v.s, v.s) == 0;
        }
      }
      InsertionSortStable(data, RowComparator(key, dir), HasKey(key, v));
    }
  }
}
