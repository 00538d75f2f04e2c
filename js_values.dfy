/** The JavaScript values that the data-grid components inspect, and the few
    coercions of the language they rely on: truthiness, `String(v)`, unary `+`,
    loose equality, `includes` on strings, `toLowerCase`, `trim`. */
module JsValues {

  datatype Option<T> = None | Some(value: T)

  /** A scalar cell value. A key that is absent from a record is JavaScript's
      `undefined`; functions that read a field therefore return `Option<Value>`.
      Numbers are integers in this model. */
  datatype Value = Null | Bool(b: bool) | Num(n: int) | Str(s: string)

  /** A flat record: one row of the table. */
  type Row = map<string, Value>

  /** `row[key]`, with `None` for `undefined`. */
  function Get(row: Row, key: string): (r: Option<Value>)
    ensures r.Some? <==> key in row
    ensures r.Some? ==> r.value == row[key]
  {
    if key in row then Some(row[key]) else None
  }

  /** JavaScript's truthiness of a field read. */
  predicate Truthy(v: Option<Value>)
  {
    match v
    case None => false
    case Some(Null) => false
    case Some(Bool(b)) => b
    case Some(Num(n)) => n != 0
    case Some(Str(s)) => s != ""
  }

  /** `x === null || x === undefined` */
  predicate IsNullish(v: Option<Value>)
  {
    v.None? || v.value.Null?
  }

  // ---------------------------------------------------------------------
  // Decimal rendering of integers (`String(n)` and template literals)

  function DigitChar(d: nat): (c: char)
    requires d < 10
    ensures '0' <= c <= '9'
  {
    ['0', '1', '2', '3', '4', '5', '6', '7', '8', '9'][d]
  }

  function NatToString(n: nat): (s: string)
    ensures |s| > 0
    ensures forall i :: 0 <= i < |s| ==> '0' <= s[i] <= '9'
  {
    if n < 10 then [DigitChar(n)] else NatToString(n / 10) + [DigitChar(n % 10)]
  }

  function IntToString(n: int): (s: string)
    ensures |s| > 0
    ensures n >= 0 ==> s == NatToString(n)
    ensures n < 0 ==> s == "-" + NatToString(-n)
  {
    if n < 0 then "-" + NatToString(-n) else NatToString(n)
  }

  /** `String(v)`, also what a template literal `${v}` produces. */
  function JsString(v: Option<Value>): (s: string)
    ensures v.Some? && v.value.Str? ==> s == v.value.s
    ensures v.None? ==> s == "undefined"
  {
    match v
    case None => "undefined"
    case Some(Null) => "null"
    case Some(Bool(b)) => if b then "true" else "false"
    case Some(Num(n)) => IntToString(n)
    case Some(Str(s)) => s
  }

  // ---------------------------------------------------------------------
  // Numeric coercion (unary `+`, `Number(v)`)

  predicate IsDigit(c: char) { '0' <= c <= '9' }

  predicate AllDigits(s: string)
  {
    forall i :: 0 <= i < |s| ==> IsDigit(s[i])
  }

  function DigitsValue(s: string): (n: nat)
    requires AllDigits(s)
  {
    if s == [] then 0
    else 10 * DigitsValue(s[..|s| - 1]) + ((s[|s| - 1] as int) - ('0' as int))
  }

  /** `Number(s)` for a string: the empty string is 0, a string of decimal
      digits is its value, every other string is `NaN` (`None`). Signs,
      surrounding white space, fractions, exponents and hexadecimal forms are
      not modelled. */
  function StrToNumber(s: string): (r: Option<int>)
    ensures s == "" ==> r == Some(0)
    ensures r.Some? ==> r.value >= 0
  {
    if AllDigits(s) then Some(DigitsValue(s)) else None
  }

  /** Unary `+v`: `None` stands for `NaN`. `+undefined` is `NaN`, `+null` is 0,
      booleans are 0 or 1. */
  function ToNumber(v: Option<Value>): (r: Option<int>)
    ensures v.Some? && v.value.Num? ==> r == Some(v.value.n)
    ensures v.None? ==> r.None?
  {
    match v
    case None => None
    case Some(Null) => Some(0)
    case Some(Bool(b)) => Some(if b then 1 else 0)
    case Some(Num(n)) => Some(n)
    case Some(Str(s)) => StrToNumber(s)
  }

  /** JavaScript's `a == b` (loose equality) between a field read and a value. */
  predicate LooseEquals(a: Option<Value>, b: Value)
  {
    match (a, b)
    case (None, Null) => true
    case (None, _) => false
    case (Some(Null), Null) => true
    case (Some(Null), _) => false
    case (Some(_), Null) => false
    case (Some(Str(x)), Str(y)) => x == y
    case (Some(Num(x)), Num(y)) => x == y
    case (Some(Bool(x)), Bool(y)) => x == y
    case (Some(x), y) =>
      var nx := ToNumber(Some(x));
      var ny := ToNumber(Some(y));
      nx.Some? && ny.Some? && nx.value == ny.value
  }

  // ---------------------------------------------------------------------
  // Strings

  /** `sub` occurs in `s` starting at index `i`. */
  predicate OccursAt(s: string, sub: string, i: int)
  {
    0 <= i && i + |sub| <= |s| && s[i..i + |sub|] == sub
  }

  /** `s.includes(sub)` on strings. */
  predicate Contains(s: string, sub: string)
  {
    exists i :: 0 <= i <= |s| - |sub| && OccursAt(s, sub, i)
  }

  function LowerChar(c: char): (r: char)
    ensures 'A' <= c <= 'Z' ==> r as int == c as int + 32
    ensures !('A' <= c <= 'Z') ==> r == c
  {
    if 'A' <= c <= 'Z' then (c as int + 32) as char else c
  }

  /** `toLowerCase()`, for the ASCII letters. */
  function ToLower(s: string): (r: string)
    ensures |r| == |s|
    ensures forall i :: 0 <= i < |s| ==> r[i] == LowerChar(s[i])
  {
    if s == [] then [] else [LowerChar(s[0])] + ToLower(s[1..])
  }

  /** The characters `trim()` removes and `\s` matches: WhiteSpace and
      LineTerminator of ECMAScript (the Unicode space separators included). */
  predicate IsSpace(c: char)
  {
    c == ' ' || c == '\t' || c == '\n' || c == '\r' || c == '\U{B}' || c == '\U{C}'
    || c == '\U{A0}' || c == '\U{1680}' || ('\U{2000}' <= c <= '\U{200A}')
    || c == '\U{2028}' || c == '\U{2029}' || c == '\U{202F}' || c == '\U{205F}'
    || c == '\U{3000}' || c == '\U{FEFF}'
  }

  function TrimStart(s: string): (r: string)
    ensures |r| <= |s| && r == s[|s| - |r|..]
    ensures r != [] ==> !IsSpace(r[0])
    ensures forall i :: 0 <= i < |s| - |r| ==> IsSpace(s[i])
  {
    if s != [] && IsSpace(s[0]) then TrimStart(s[1..]) else s
  }

  function TrimEnd(s: string): (r: string)
    ensures |r| <= |s| && r == s[..|r|]
    ensures r != [] ==> !IsSpace(r[|r| - 1])
    ensures forall i :: |r| <= i < |s| ==> IsSpace(s[i])
  {
    if s != [] && IsSpace(s[|s| - 1]) then TrimEnd(s[..|s| - 1]) else s
  }

  /** `s.trim()` */
  function Trim(s: string): (r: string)
  {
    TrimEnd(TrimStart(s))
  }

  /** A trimmed string is empty exactly when the input is all white space. */
  lemma TrimEmptyIffBlank(s: string)
    ensures Trim(s) == "" <==> (forall i :: 0 <= i < |s| ==> IsSpace(s[i]))
  {
    // a non-empty TrimStart result starts with a non-space that TrimEnd keeps
    var t := TrimStart(s);
    if t != [] {
      assert !IsSpace(t[0]);
    }
  }

  /** `arr.join(sep)` */
  function Join(parts: seq<string>, sep: string): (r: string)
  {
    if |parts| == 0 then ""
    else if |parts| == 1 then parts[0]
    else Join(parts[..|parts| - 1], sep) + sep + parts[|parts| - 1]
  }

  // ---------------------------------------------------------------------
  // Sequences used as lists and as insertion-ordered sets

  /** The prefix one longer is the prefix followed by the next element. */
  lemma SliceStep<T>(s: seq<T>, i: nat)
    requires i < |s|
    ensures s[..i + 1] == s[..i] + [s[i]]
  {
  }

  /** A list is its prefix followed by the remaining suffix. */
  lemma SliceSplit<T>(s: seq<T>, i: nat)
    requires i <= |s|
    ensures s == s[..i] + s[i..]
  {
  }

  /** Dropping the last element of `a + b` drops the last element of `b`. */
  lemma AppendInit<T>(a: seq<T>, b: seq<T>)
    requires b != []
    ensures (a + b)[..|a + b| - 1] == a + b[..|b| - 1] && (a + b)[|a + b| - 1] == b[|b| - 1]
  {
  }

  /** A list is what precedes index `i`, the element there, and what follows. */
  lemma SliceAround<T>(s: seq<T>, i: nat)
    requires i < |s|
    ensures s == s[..i] + [s[i]] + s[i + 1..]
  {
  }

  /** A list that starts with `path + [step]` starts with `path`, then `step`. */
  lemma PrefixShorten<T>(p: seq<T>, path: seq<T>, step: T)
    requires |path| < |p| && p[..|path| + 1] == path + [step]
    ensures p[..|path|] == path && p[|path|] == step
  {
    assert p[..|path|] == p[..|path| + 1][..|path|];
  }

  predicate NoDup<T(==)>(s: seq<T>)
  {
    forall i, j :: 0 <= i < j < |s| ==> s[i] != s[j]
  }

  /** `list.filter(y => y !== x)` */
  function RemoveAll<T(==,!new)>(s: seq<T>, x: T): (r: seq<T>)
    ensures x !in r
    ensures forall y :: y in r <==> y in s && y != x
    ensures |r| <= |s|
    ensures x !in s ==> r == s
  {
    if s == [] then []
    else if s[|s| - 1] == x then RemoveAll(s[..|s| - 1], x)
    else RemoveAll(s[..|s| - 1], x) + [s[|s| - 1]]
  }

  lemma {:induction false} RemoveAllKeepsNoDup<T(!new)>(s: seq<T>, x: T)
    requires NoDup(s)
    ensures NoDup(RemoveAll(s, x))
  {
    if s != [] {
      var init := s[..|s| - 1];
      RemoveAllKeepsNoDup(init, x);
      assert s[|s| - 1] !in init;
      assert s[|s| - 1] !in RemoveAll(init, x);
    }
  }

  /** `Array.from(new Set(list))`: the first occurrence of each element, in order. */
  function Dedupe<T(==,!new)>(s: seq<T>): (r: seq<T>)
    ensures forall y :: y in r <==> y in s
    ensures NoDup(r)
    ensures |r| <= |s|
  {
    if s == [] then []
    else
      var d := Dedupe(s[..|s| - 1]);
      if s[|s| - 1] in d then d else d + [s[|s| - 1]]
  }

  /** A list without repetitions passes through a `Set` unchanged. */
  lemma {:induction false} DedupeOfNoDup<T(!new)>(s: seq<T>)
    requires NoDup(s)
    ensures Dedupe(s) == s
  {
    if s != [] {
      DedupeOfNoDup(s[..|s| - 1]);
      assert s[|s| - 1] !in s[..|s| - 1];
    }
  }

  /** The first index of `x` in `s`, or -1 (`indexOf`). */
  function IndexOf<T(==)>(s: seq<T>, x: T): (i: int)
    ensures -1 <= i < |s|
    ensures i == -1 <==> x !in s
    ensures i >= 0 ==> s[i] == x && x !in s[..i]
  {
    if s == [] then -1
    else if s[0] == x then 0
    else var j := IndexOf(s[1..], x); if j == -1 then -1 else j + 1
  }

  lemma {:induction false} IndexOfAppend<T>(s: seq<T>, x: T, y: T)
    ensures IndexOf(s + [x], y) == if y in s then IndexOf(s, y) else if y == x then |s| else -1
  {
    if s != [] {
      assert (s + [x])[1..] == s[1..] + [x];
      IndexOfAppend(s[1..], x, y);
    }
  }

  /** `new Set(list)` keeps elements in order of first occurrence. */
  lemma {:induction false} DedupeFirstSeen<T(!new)>(s: seq<T>)
    ensures forall i, j :: 0 <= i < j < |Dedupe(s)| ==> IndexOf(s, Dedupe(s)[i]) < IndexOf(s, Dedupe(s)[j])
  {
    if s != [] {
      var init, x := s[..|s| - 1], s[|s| - 1];
      assert s == init + [x];
      DedupeFirstSeen(init);
      var d := Dedupe(init);
      forall y | y in d ensures IndexOf(s, y) == IndexOf(init, y) {
        IndexOfAppend(init, x, y);
      }
      if x !in d {
        IndexOfAppend(init, x, x);
        var r := d + [x];
        assert Dedupe(s) == r;
        forall i, j | 0 <= i < j < |r| ensures IndexOf(s, r[i]) < IndexOf(s, r[j]) {
          assert r[i] == d[i] && d[i] in d;
          if j < |d| {
            assert r[j] == d[j];
          }
        }
      }
    }
  }

  lemma {:induction false} RemoveAllAppend<T(!new)>(a: seq<T>, b: seq<T>, x: T)
    ensures RemoveAll(a + b, x) == RemoveAll(a, x) + RemoveAll(b, x)
  {
    if b == [] {
      assert a + b == a;
    } else {
      var init := b[..|b| - 1];
      assert (a + b)[..|a + b| - 1] == a + init;
      RemoveAllAppend(a, init, x);
    }
  }

  lemma {:induction false} IndexOfPrefix<T>(a: seq<T>, b: seq<T>, x: T)
    requires x in a
    ensures IndexOf(a + b, x) == IndexOf(a, x)
  {
    if a[0] != x {
      assert (a + b)[1..] == a[1..] + b;
      IndexOfPrefix(a[1..], b, x);
    }
  }

  /** `list.filter(keep)` */
  function Filter<T(!new)>(s: seq<T>, keep: T -> bool): (r: seq<T>)
    ensures forall x :: x in r <==> x in s && keep(x)
    ensures |r| <= |s|
  {
    if s == [] then []
    else
      var last := s[|s| - 1];
      assert forall x :: x in s <==> x in s[..|s| - 1] || x == last by {
        assert s == s[..|s| - 1] + [last];
      }
      Filter(s[..|s| - 1], keep) + (if keep(last) then [last] else [])
  }

  /** The positions in `s` of the elements a filter keeps: strictly
      increasing, so the filter keeps the order of `s`. */
  lemma {:induction false} FilterIndices<T(!new)>(s: seq<T>, keep: T -> bool) returns (idx: seq<nat>)
    ensures |idx| == |Filter(s, keep)|
    ensures forall k :: 0 <= k < |idx| ==> idx[k] < |s| && s[idx[k]] == Filter(s, keep)[k]
    ensures forall k, l :: 0 <= k < l < |idx| ==> idx[k] < idx[l]
  {
    if s == [] {
      idx := [];
    } else {
      var init, last := s[..|s| - 1], s[|s| - 1];
      var prev := FilterIndices(init, keep);
      var f := Filter(init, keep);
      assert Filter(s, keep) == f + (if keep(last) then [last] else []);
      idx := if keep(last) then prev + [|s| - 1] else prev;
      forall k | 0 <= k < |idx| ensures idx[k] < |s| && s[idx[k]] == Filter(s, keep)[k] {
        if k < |prev| {
          assert idx[k] == prev[k] && s[prev[k]] == init[prev[k]] && Filter(s, keep)[k] == f[k];
        }
      }
    }
  }

  /** Filtering twice is filtering once by both tests. */
  lemma {:induction false} FilterFilter<T(!new)>(s: seq<T>, p: T -> bool, q: T -> bool, both: T -> bool)
    requires forall i :: 0 <= i < |s| ==> both(s[i]) == (p(s[i]) && q(s[i]))
    ensures Filter(Filter(s, p), q) == Filter(s, both)
  {
    if s != [] {
      var init := s[..|s| - 1];
      FilterFilter(init, p, q, both);
      FilterAppend(Filter(init, p), if p(s[|s| - 1]) then [s[|s| - 1]] else [], q);
      var one := [s[|s| - 1]];
      assert Filter(one, q) == Filter([], q) + (if q(one[0]) then one else []) by {
        assert one[..0] == [];
      }
    }
  }

  lemma {:induction false} FilterAppend<T(!new)>(a: seq<T>, b: seq<T>, keep: T -> bool)
    ensures Filter(a + b, keep) == Filter(a, keep) + Filter(b, keep)
  {
    if b == [] {
      assert a + b == a;
    } else {
      AppendInit(a, b);
      FilterAppend(a, b[..|b| - 1], keep);
    }
  }

  /** Two tests that agree on the elements filter alike. */
  lemma {:induction false} FilterSame<T(!new)>(s: seq<T>, p: T -> bool, q: T -> bool)
    requires forall i :: 0 <= i < |s| ==> p(s[i]) == q(s[i])
    ensures Filter(s, p) == Filter(s, q)
  {
    if s != [] {
      FilterSame(s[..|s| - 1], p, q);
    }
  }

  /** A filter that keeps every element is the identity. */
  lemma {:induction false} FilterKeepsAll<T(!new)>(s: seq<T>, keep: T -> bool)
    requires forall i :: 0 <= i < |s| ==> keep(s[i])
    ensures Filter(s, keep) == s
  {
    if s != [] {
      FilterKeepsAll(s[..|s| - 1], keep);
    }
  }

  /** A filter that keeps no element gives the empty list. */
  lemma {:induction false} FilterKeepsNone<T(!new)>(s: seq<T>, keep: T -> bool)
    requires forall i :: 0 <= i < |s| ==> !keep(s[i])
    ensures Filter(s, keep) == []
  {
    if s != [] {
      FilterKeepsNone(s[..|s| - 1], keep);
    }
  }

  /** A filter of a duplicate-free list is duplicate-free. */
  lemma {:induction false} FilterKeepsNoDup<T(!new)>(s: seq<T>, keep: T -> bool)
    requires NoDup(s)
    ensures NoDup(Filter(s, keep))
  {
    if s != [] {
      var init, last := s[..|s| - 1], s[|s| - 1];
      FilterKeepsNoDup(init, keep);
      assert last !in init;
      var r := Filter(init, keep);
      assert last !in r;
      if keep(last) {
        forall i, j | 0 <= i < j < |r| + 1 ensures (r + [last])[i] != (r + [last])[j] {
          if j == |r| {
            assert (r + [last])[i] == r[i];
          } else {
            assert (r + [last])[i] == r[i] && (r + [last])[j] == r[j];
          }
        }
      }
    }
  }

  /** `list.find(p)`: the first element that passes the test, if any. */
  function Find<T(==)>(s: seq<T>, p: T -> bool): (r: Option<T>)
    ensures r.None? <==> forall i :: 0 <= i < |s| ==> !p(s[i])
    ensures r.Some? ==> exists i :: 0 <= i < |s| && s[i] == r.value && p(s[i]) && forall j :: 0 <= j < i ==> !p(s[j])
  {
    if s == [] then None
    else if p(s[0]) then Some(s[0])
    else
      var r := Find(s[1..], p);
      assert forall i :: 1 <= i < |s| ==> s[i] == s[1..][i - 1];
      if r.Some? then
        var k :| 0 <= k < |s[1..]| && s[1..][k] == r.value && p(s[1..][k]) && forall j :: 0 <= j < k ==> !p(s[1..][j]);
        assert s[k + 1] == r.value && forall j :: 0 <= j < k + 1 ==> !p(s[j]);
        r
      else r
  }

  /** A search over a concatenation finds in the first part when it can. */
  lemma {:induction false} FindAppend<T>(a: seq<T>, b: seq<T>, p: T -> bool)
    ensures Find(a + b, p) == if Find(a, p).Some? then Find(a, p) else Find(b, p)
  {
    if a == [] {
      assert a + b == b;
    } else {
      assert (a + b)[0] == a[0];
      if !p(a[0]) {
        assert (a + b)[1..] == a[1..] + b;
        FindAppend(a[1..], b, p);
      }
    }
  }

  /** A string in which the first character of `sub` never occurs does not contain `sub`. */
  lemma LacksFirstChar(s: string, sub: string)
    requires sub != [] && forall i :: 0 <= i < |s| ==> s[i] != sub[0]
    ensures !Contains(s, sub)
  {
    forall i | 0 <= i <= |s| - |sub| ensures !OccursAt(s, sub, i) {
      assert s[i..i + |sub|][0] == s[i];
    }
  }
}
