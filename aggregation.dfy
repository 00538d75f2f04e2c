/** Per-column aggregation of the data table (`calculateAggregation`): the
    sum and the average of a numeric column over the processed rows. */
module Aggregation {
  import opened JsValues

  /** An entry of `columnAggregations`: the operation and the `value`, with
      `None` for `undefined` (an operation other than sum or average). The
      locale-formatted `formattedValue` string is not modelled. */
  datatype Aggregate = Aggregate(operation: string, value: Option<real>)

  /** The total of `f` over the rows, added front to back like `reduce`. */
  function Total(rows: seq<Row>, f: Row -> int): int
  {
    if rows == [] then 0 else Total(rows[..|rows| - 1], f) + f(rows[|rows| - 1])
  }

  lemma {:induction false} TotalAppend(a: seq<Row>, b: seq<Row>, f: Row -> int)
    ensures Total(a + b, f) == Total(a, f) + Total(b, f)
  {
    if b == [] {
      assert a + b == a;
    } else {
      AppendInit(a, b);
      TotalAppend(a, b[..|b| - 1], f);
    }
  }

  /** Taking one row out of a list takes its term out of the total. */
  lemma TotalSplice(pre: seq<Row>, x: Row, post: seq<Row>, f: Row -> int)
    ensures Total(pre + [x] + post, f) == Total(pre + post, f) + f(x)
  {
    TotalAppend(pre + [x], post, f);
    TotalAppend(pre, post, f);
    assert (pre + [x])[..|pre|] == pre;
  }

  /** The order of the rows does not change a total. */
  lemma {:induction false} TotalPermutation(a: seq<Row>, b: seq<Row>, f: Row -> int)
    requires multiset(a) == multiset(b)
    ensures Total(a, f) == Total(b, f)
    decreases |a|
  {
    if a != [] {
      var rest, x := a[..|a| - 1], a[|a| - 1];
      var pre, post := MatchLast(a, b);
      TotalPermutation(rest, pre + post, f);
      TotalSplice(pre, x, post, f);
    }
  }

  /** The last row of `a` sits somewhere in a permutation `b` of it; the rows
      around it are a permutation of the rest of `a`. */
  lemma MatchLast(a: seq<Row>, b: seq<Row>) returns (pre: seq<Row>, post: seq<Row>)
    requires multiset(a) == multiset(b) && a != []
    ensures b == pre + [a[|a| - 1]] + post
    ensures multiset(a[..|a| - 1]) == multiset(pre + post)
  {
    var rest, x := a[..|a| - 1], a[|a| - 1];
    assert a == rest + [x];
    assert x in multiset(b);
    var k :| 0 <= k < |b| && b[k] == x;
    pre, post := b[..k], b[k + 1..];
    assert b == pre + [x] + post;
    var nothing: seq<Row> := [];
    assert rest + [x] + nothing == a && rest + nothing == rest;
    MultisetSplice(rest, x, nothing);
    MultisetSplice(pre, x, post);
  }

  lemma MultisetSplice(pre: seq<Row>, x: Row, post: seq<Row>)
    ensures multiset(pre + post) == multiset(pre + [x] + post) - multiset{x}
  {
    assert multiset(pre + [x] + post) == multiset(pre + post) + multiset{x};
  }

  /** Totals of two functions that agree on every row are equal. */
  lemma {:induction false} TotalPointwise(rows: seq<Row>, f: Row -> int, g: Row -> int)
    requires forall i :: 0 <= i < |rows| ==> f(rows[i]) == g(rows[i])
    ensures Total(rows, f) == Total(rows, g)
  {
    if rows != [] {
      TotalPointwise(rows[..|rows| - 1], f, g);
    }
  }

  /** `+item[key] || 0`: the number, or 0 for `NaN`. */
  function Term(v: Option<Value>): (n: int)
    ensures ToNumber(v).Some? ==> n == ToNumber(v).value
    ensures ToNumber(v).None? ==> n == 0
  {
    match ToNumber(v)
    case Some(x) => x
    case None => 0
  }

  function TermOf(key: string): Row -> int
  {
    (row: Row) => Term(Get(row, key))
  }

  /** `processedData.reduce((sum, item) => sum + (+item[key] || 0), 0)` */
  function Sum(rows: seq<Row>, key: string): int
  {
    Total(rows, TermOf(key))
  }

  /** The result of unary `+` is a number (possibly `NaN`), never `null` or
      `undefined`. */
  predicate NumberIsNullish(n: Option<int>)
  {
    false
  }

  function WrittenCountOf(key: string): Row -> int
  {
    (row: Row) => if NumberIsNullish(ToNumber(Get(row, key))) then 0 else 1
  }

  /** The divisor as written: the rows where `+item[key]` is neither
      `undefined` nor `null`. */
  function CountAsWritten(rows: seq<Row>, key: string): int
  {
    Total(rows, WrittenCountOf(key))
  }

  /** The written divisor counts every row. */
  lemma {:induction false} CountAsWrittenIsAll(rows: seq<Row>, key: string)
    ensures CountAsWritten(rows, key) == |rows|
  {
    if rows != [] {
      CountAsWrittenIsAll(rows[..|rows| - 1], key);
    }
  }

  /** The average as written: the sum over `CountAsWritten`, 0 without rows. */
  function AverageAsWritten(rows: seq<Row>, key: string): real
  {
    var count := CountAsWritten(rows, key);
    if count > 0 then Sum(rows, key) as real / count as real else 0.0
  }

  /** A row whose value takes part in the average: present, not `null`, and a number. */
  predicate Counted(row: Row, key: string)
  {
    !IsNullish(Get(row, key)) && ToNumber(Get(row, key)).Some?
  }

  function CountedOf(key: string): Row -> int
  {
    (row: Row) => if Counted(row, key) then 1 else 0
  }

  /** The intended divisor: the rows whose value is present and numeric. */
  function CountPresent(rows: seq<Row>, key: string): int
  {
    Total(rows, CountedOf(key))
  }

  /** The intended divisor counts some of the rows. */
  lemma {:induction false} CountPresentBounds(rows: seq<Row>, key: string)
    ensures 0 <= CountPresent(rows, key) <= |rows|
  {
    if rows != [] {
      CountPresentBounds(rows[..|rows| - 1], key);
    }
  }

  /** The intended average: the sum over the rows with a value. */
  function Average(rows: seq<Row>, key: string): real
  {
    var count := CountPresent(rows, key);
    if count > 0 then Sum(rows, key) as real / count as real else 0.0
  }

  function CountedTermOf(key: string): Row -> int
  {
    (row: Row) => if Counted(row, key) then Term(Get(row, key)) else 0
  }

  /** Rows without a usable value add nothing to the sum: the intended
      average times the number of counted rows is the sum of their values,
      and when every row is counted it agrees with the written one. */
  lemma AverageIsMeanOfPresent(rows: seq<Row>, key: string)
    ensures Sum(rows, key) == Total(rows, CountedTermOf(key))
    ensures CountPresent(rows, key) > 0 ==>
      Average(rows, key) * CountPresent(rows, key) as real == Total(rows, CountedTermOf(key)) as real
    ensures CountPresent(rows, key) == |rows| ==> Average(rows, key) == AverageAsWritten(rows, key)
  {
    SumIsCountedTotal(rows, key);
    CountAsWrittenIsAll(rows, key);
  }

  /** A row left out of the count adds 0 to the sum. */
  lemma SumIsCountedTotal(rows: seq<Row>, key: string)
    ensures Sum(rows, key) == Total(rows, CountedTermOf(key))
  {
    forall i | 0 <= i < |rows| ensures TermOf(key)(rows[i]) == CountedTermOf(key)(rows[i]) {
      var v := Get(rows[i], key);
      if !Counted(rows[i], key) {
        assert IsNullish(v) || ToNumber(v).None?;
      }
    }
    TotalPointwise(rows, TermOf(key), CountedTermOf(key));
  }

  /** Reordering the rows (as sorting does) changes neither the sum nor the average. */
  lemma AggregatesIgnoreOrder(a: seq<Row>, b: seq<Row>, key: string)
    requires multiset(a) == multiset(b)
    ensures Sum(a, key) == Sum(b, key)
    ensures Average(a, key) == Average(b, key)
    ensures AverageAsWritten(a, key) == AverageAsWritten(b, key)
  {
    TotalPermutation(a, b, TermOf(key));
    TotalPermutation(a, b, CountedOf(key));
    TotalPermutation(a, b, WrittenCountOf(key));
  }

  /** Three rows 100, 50 and `null` for `extendedAmount`. */
  function ExampleRows(): seq<Row>
  {
    [ map["id" := Num(1), "buySell" := Str("Buy"), "extendedAmount" := Num(100)],
      map["id" := Num(2), "buySell" := Str("Sell"), "extendedAmount" := Num(50)],
      map["id" := Num(3), "buySell" := Str("Buy"), "extendedAmount" := Null] ]
  }

  /** On the example the written average is 50, the intended one 75. */
  lemma AverageExample()
    ensures Sum(ExampleRows(), "extendedAmount") == 150
    ensures AverageAsWritten(ExampleRows(), "extendedAmount") == 50.0
    ensures Average(ExampleRows(), "extendedAmount") == 75.0
  {
    var r := ExampleRows();
    var key := "extendedAmount";
    assert r[..2][..1] == r[..1];
    assert r[..2] == r[..|r| - 1];
    assert r[..1][..0] == [];
    assert r[..1] == r[..2][..|r[..2]| - 1];
    assert r[..1][..|r[..1]| - 1] == [] && r[..1][|r[..1]| - 1] == r[0];
    assert Get(r[0], key) == Some(Num(100)) && Total([], TermOf(key)) == 0;
    assert Counted(r[0], key) && Total([], CountedOf(key)) == 0;
    assert Sum(r[..1], key) == 100;
    assert Sum(r[..2], key) == 150;
    assert CountPresent(r[..1], key) == 1;
    assert CountPresent(r[..2], key) == 2;
    CountAsWrittenIsAll(r, key);
  }

  /** What `calculateAggregation(key, op)` stores for a numeric column:
      the average is the one the program computes, the sum over every
      processed row (0 without rows). */
  function Compute(rows: seq<Row>, key: string, operation: string): (a: Aggregate)
    ensures a.operation == operation
    ensures operation == "sum" ==> a.value == Some(Sum(rows, key) as real)
    ensures operation == "average" ==>
      a.value == Some(if rows == [] then 0.0 else Sum(rows, key) as real / |rows| as real)
    ensures operation != "sum" && operation != "average" ==> a.value.None?
  {
    CountAsWrittenIsAll(rows, key);
    if operation == "sum" then Aggregate(operation, Some(Sum(rows, key) as real))
    else if operation == "average" then Aggregate(operation, Some(AverageAsWritten(rows, key)))
    else Aggregate(operation, None)
  }

  /** On the example the table stores the written average, 50. */
  lemma StoredAverageExample()
    ensures Compute(ExampleRows(), "extendedAmount", "average") == Aggregate("average", Some(50.0))
  {
    AverageExample();
  }
}
