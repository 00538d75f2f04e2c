/** The hierarchical grouping of the data table (`buildHierarchicalData` and
    its inner `groupDataRecursively`): rows are bucketed level by level by the
    active group keys, each bucket becomes a header row, and a header's
    sub-tree is emitted only while its id is in the expanded set. */
module GroupEngine {
  import opened JsValues

  /** One step of `_groupPath`: the group key, the bucket's value and its id. */
  datatype PathEntry = PathEntry(key: string, value: Value, groupId: string)

  /** An entry of the display sequence: a data row tagged with `_level`,
      `_groupPath` and `_parentGroupId`, or a group header. */
  datatype DisplayRow =
    | DataRow(row: Row, level: nat, path: seq<PathEntry>, parentId: Option<string>)
    | GroupHeader(id: string, level: nat, path: seq<PathEntry>, groupColumn: string,
                  groupValue: Value, itemCount: nat, totalAmount: Option<int>,
                  parentId: Option<string>)

  // ---------------------------------------------------------------------
  // Ids

  function PathIds(path: seq<PathEntry>): (r: seq<string>)
    ensures |r| == |path|
    ensures forall i :: 0 <= i < |path| ==> r[i] == path[i].groupId
  {
    if path == [] then [] else PathIds(path[..|path| - 1]) + [path[|path| - 1].groupId]
  }

  /** `_parentGroupId`: the id of the last step of the path, `null` at the top. */
  function ParentId(path: seq<PathEntry>): (r: Option<string>)
    ensures r.Some? <==> |path| > 0
    ensures |path| > 0 ==> r.value == path[|path| - 1].groupId
  {
    if |path| > 0 then Some(path[|path| - 1].groupId) else None
  }

  /** `item[key] || 'Unknown'` */
  function GroupValue(item: Row, key: string): (v: Value)
    ensures Truthy(Get(item, key)) ==> v == item[key]
    ensures !Truthy(Get(item, key)) ==> v == Str("Unknown")
  {
    if Truthy(Get(item, key)) then item[key] else Str("Unknown")
  }

  /** The id template `group-<key>-<value>-<level>-<parent ids joined by '-'>`. */
  function GroupId(key: string, value: Value, level: nat, path: seq<PathEntry>): string
  {
    "group-" + key + "-" + JsString(Some(value)) + "-" + NatToString(level) + "-" + Join(PathIds(path), "-")
  }

  function ItemId(item: Row, key: string, level: nat, path: seq<PathEntry>): string
  {
    GroupId(key, GroupValue(item, key), level, path)
  }

  /** The bucket id of a row at this level of the tree. */
  function IdAt(key: string, level: nat, path: seq<PathEntry>): Row -> string
  {
    (item: Row) => ItemId(item, key, level, path)
  }

  /** The bucket value of a row for this key. */
  function ValueFor(key: string): Row -> Value
  {
    (item: Row) => GroupValue(item, key)
  }

  // ---------------------------------------------------------------------
  // Bucketing, for any id function

  /** The bucket id of every item, in item order. */
  function ItemIds(items: seq<Row>, idOf: Row -> string): (r: seq<string>)
    ensures |r| == |items|
    ensures forall i :: 0 <= i < |items| ==> r[i] == idOf(items[i])
  {
    if items == [] then []
    else ItemIds(items[..|items| - 1], idOf) + [idOf(items[|items| - 1])]
  }

  /** The keys of the `groups` object in insertion order (`Object.values`
      keeps insertion order for these non-numeric keys): each bucket id once,
      in order of first appearance. */
  function BucketIds(items: seq<Row>, idOf: Row -> string): seq<string>
  {
    Dedupe(ItemIds(items, idOf))
  }

  /** `groups[groupId].items`: the items with that bucket id, in item order
      (what a bucket holds is stated by `BucketMembers` and
      `BucketsPartition`). */
  function Bucket(items: seq<Row>, idOf: Row -> string, id: string): (b: seq<Row>)
    ensures |b| <= |items|
  {
    if items == [] then []
    else
      var last := items[|items| - 1];
      Bucket(items[..|items| - 1], idOf, id) + (if idOf(last) == id then [last] else [])
  }

  /** `groups[groupId].groupValue`: the value of the item that opened the bucket. */
  function BucketValue(items: seq<Row>, idOf: Row -> string, valueOf: Row -> Value, id: string): Value
  {
    var b := Bucket(items, idOf, id);
    if b == [] then Str("Unknown") else valueOf(b[0])
  }

  // ---------------------------------------------------------------------
  // Totals

  /** `item.amount || item.extendedAmount || 0` as a number; `None` where the
      term is a string, for which JavaScript's `+` would concatenate. */
  function AmountTerm(item: Row): Option<int>
  {
    var a := Get(item, "amount");
    var e := Get(item, "extendedAmount");
    var t := if Truthy(a) then a else if Truthy(e) then e else Some(Num(0));
    if t.value.Str? then None else ToNumber(t)
  }

  /** The `totalAmount` reduction over a bucket. */
  function TotalAmount(items: seq<Row>): Option<int>
  {
    if items == [] then Some(0)
    else
      var s := TotalAmount(items[..|items| - 1]);
      var t := AmountTerm(items[|items| - 1]);
      if s.Some? && t.Some? then Some(s.value + t.value) else None
  }

  // ---------------------------------------------------------------------
  // The display sequence

  /** `items.map(...)` at the leaf level: every row tagged with the level and path. */
  function Leaves(items: seq<Row>, level: nat, path: seq<PathEntry>): (r: seq<DisplayRow>)
    ensures |r| == |items|
    ensures forall i :: 0 <= i < |items| ==> r[i] == DataRow(items[i], level, path, ParentId(path))
  {
    if items == [] then []
    else Leaves(items[..|items| - 1], level, path) + [DataRow(items[|items| - 1], level, path, ParentId(path))]
  }

  /** `groupDataRecursively(items, level, parentGroupPath)` */
  function Group(items: seq<Row>, level: nat, path: seq<PathEntry>, groups: seq<string>, expanded: seq<string>): seq<DisplayRow>
    decreases |groups| - level, 1, 0
  {
    if level >= |groups| then Leaves(items, level, path)
    else EmitBuckets(items, level, path, groups, expanded, BucketIds(items, IdAt(groups[level], level, path)))
  }

  /** The `Object.values(groups).forEach` loop, over the first `|ids|` buckets. */
  function EmitBuckets(items: seq<Row>, level: nat, path: seq<PathEntry>, groups: seq<string>,
                       expanded: seq<string>, ids: seq<string>): seq<DisplayRow>
    requires level < |groups|
    decreases |groups| - level, 0, |ids| + 1
  {
    if ids == [] then []
    else
      EmitBuckets(items, level, path, groups, expanded, ids[..|ids| - 1])
        + EmitBucket(items, level, path, groups, expanded, ids[|ids| - 1])
  }

  /** The header of one bucket, then its sub-tree when the id is expanded. */
  function EmitBucket(items: seq<Row>, level: nat, path: seq<PathEntry>, groups: seq<string>,
                      expanded: seq<string>, id: string): seq<DisplayRow>
    requires level < |groups|
    decreases |groups| - level, 0, 0
  {
    var key := groups[level];
    var b := Bucket(items, IdAt(key, level, path), id);
    var v := BucketValue(items, IdAt(key, level, path), ValueFor(key), id);
    var here := path + [PathEntry(key, v, id)];
    [GroupHeader(id, level, here, key, v, |b|, TotalAmount(b), ParentId(path))]
      + (if id in expanded then Group(b, level + 1, here, groups, expanded) else [])
  }

  /** `buildHierarchicalData`: without active groups, the processed rows tagged
      level 0; otherwise the grouping from level 0 with an empty path. */
  function BuildHierarchical(data: seq<Row>, groups: seq<string>, expanded: seq<string>): seq<DisplayRow>
  {
    if |groups| == 0 then Leaves(data, 0, []) else Group(data, 0, [], groups, expanded)
  }

  // ---------------------------------------------------------------------
  // The imperative builder

  /** The dictionary state after the `forEach` pass has seen `seen`. */
  ghost predicate Collected(seen: seq<Row>, idOf: Row -> string, valueOf: Row -> Value,
                            order: seq<string>, buckets: map<string, seq<Row>>, values: map<string, Value>)
  {
    && order == BucketIds(seen, idOf)
    && (forall id :: id in buckets <==> id in order)
    && BucketsHold(seen, idOf, order, buckets)
    && ValuesHold(seen, idOf, valueOf, order, values)
  }

  ghost predicate BucketsHold(seen: seq<Row>, idOf: Row -> string, order: seq<string>, buckets: map<string, seq<Row>>)
  {
    forall id :: id in order ==> id in buckets && buckets[id] == Bucket(seen, idOf, id)
  }

  ghost predicate ValuesHold(seen: seq<Row>, idOf: Row -> string, valueOf: Row -> Value,
                             order: seq<string>, values: map<string, Value>)
  {
    forall id :: id in order ==> id in values && values[id] == BucketValue(seen, idOf, valueOf, id)
  }

  /** The `items.forEach` pass of `groupDataRecursively`: the dictionary of
      buckets keyed by id, its keys in insertion order, and each bucket's value. */
  method CollectBuckets(items: seq<Row>, key: string, level: nat, path: seq<PathEntry>)
    returns (order: seq<string>, buckets: map<string, seq<Row>>, values: map<string, Value>)
    ensures order == BucketIds(items, IdAt(key, level, path))
    ensures forall id :: id in buckets <==> id in order
    ensures forall id :: id in order ==> buckets[id] == Bucket(items, IdAt(key, level, path), id)
    ensures forall id :: id in order ==>
      id in values && values[id] == BucketValue(items, IdAt(key, level, path), ValueFor(key), id)
  {
    ghost var idOf, valueOf := IdAt(key, level, path), ValueFor(key);
    order, buckets, values := [], map[], map[];
    var i := 0;
    while i < |items|
      invariant 0 <= i <= |items|
      invariant Collected(items[..i], idOf, valueOf, order, buckets, values)
    {
      var item := items[i];
      var value := GroupValue(item, key);
      var id := GroupId(key, value, level, path);
      assert id == idOf(item) && value == valueOf(item);
      CollectStep(items, i, idOf, valueOf, order, buckets, values);
      if id !in buckets {
        buckets := buckets[id := []];
        values := values[id := value];
        order := order + [id];
      }
      buckets := buckets[id := buckets[id] + [item]];
      i := i + 1;
    }
    assert items[..|items|] == items;
  }

  /** `groupDataRecursively` as the source runs it: one pass fills the bucket
      dictionary in first-seen order, a second pass emits headers and the
      sub-trees of expanded buckets. */
  method GroupDataRecursively(items: seq<Row>, level: nat, path: seq<PathEntry>, groups: seq<string>, expanded: seq<string>)
    returns (result: seq<DisplayRow>)
    ensures result == Group(items, level, path, groups, expanded)
    decreases |groups| - level, 2
  {
    if level >= |groups| {
      return Leaves(items, level, path);
    }
    var key := groups[level];
    var order, buckets, values := CollectBuckets(items, key, level, path);
    result := EmitAll(items, level, path, groups, expanded, order, buckets, values);
  }

  /** The `Object.values(groups).forEach` pass over the collected buckets. */
  method EmitAll(items: seq<Row>, level: nat, path: seq<PathEntry>, groups: seq<string>, expanded: seq<string>,
                 order: seq<string>, buckets: map<string, seq<Row>>, values: map<string, Value>)
    returns (result: seq<DisplayRow>)
    requires level < |groups|
    requires BucketsHold(items, IdAt(groups[level], level, path), order, buckets)
    requires ValuesHold(items, IdAt(groups[level], level, path), ValueFor(groups[level]), order, values)
    ensures result == EmitBuckets(items, level, path, groups, expanded, order)
    decreases |groups| - level, 1
  {
    result := [];
    for j := 0 to |order|
      invariant result == EmitBuckets(items, level, path, groups, expanded, order[..j])
    {
      var part := EmitGroup(items, level, path, groups, expanded, order[j], buckets[order[j]], values[order[j]]);
      result := result + part;
      EmitStep(items, level, path, groups, expanded, order, j);
    }
    assert order[..|order|] == order;
  }

  /** The body of the `Object.values(groups).forEach` loop: the header, then
      the sub-tree when the id is in `expandedGroups`. */
  method EmitGroup(items: seq<Row>, level: nat, path: seq<PathEntry>, groups: seq<string>, expanded: seq<string>,
                   id: string, b: seq<Row>, v: Value)
    returns (part: seq<DisplayRow>)
    requires level < |groups|
    requires b == Bucket(items, IdAt(groups[level], level, path), id)
    requires v == BucketValue(items, IdAt(groups[level], level, path), ValueFor(groups[level]), id)
    ensures part == EmitBucket(items, level, path, groups, expanded, id)
    decreases |groups| - level, 0
  {
    var key := groups[level];
    var here := path + [PathEntry(key, v, id)];
    part := [GroupHeader(id, level, here, key, v, |b|, TotalAmount(b), ParentId(path))];
    if id in expanded {
      var sub := GroupDataRecursively(b, level + 1, here, groups, expanded);
      part := part + sub;
    }
    EmitBucketIs(items, level, path, groups, expanded, id, b, v);
  }

  lemma EmitBucketIs(items: seq<Row>, level: nat, path: seq<PathEntry>, groups: seq<string>,
                     expanded: seq<string>, id: string, b: seq<Row>, v: Value)
    requires level < |groups|
    requires b == Bucket(items, IdAt(groups[level], level, path), id)
    requires v == BucketValue(items, IdAt(groups[level], level, path), ValueFor(groups[level]), id)
    ensures var here := path + [PathEntry(groups[level], v, id)];
      EmitBucket(items, level, path, groups, expanded, id)
        == [GroupHeader(id, level, here, groups[level], v, |b|, TotalAmount(b), ParentId(path))]
           + (if id in expanded then Group(b, level + 1, here, groups, expanded) else [])
  {
  }

  lemma EmitStep(items: seq<Row>, level: nat, path: seq<PathEntry>, groups: seq<string>,
                 expanded: seq<string>, ids: seq<string>, j: nat)
    requires level < |groups| && j < |ids|
    ensures EmitBuckets(items, level, path, groups, expanded, ids[..j + 1])
      == EmitBuckets(items, level, path, groups, expanded, ids[..j]) + EmitBucket(items, level, path, groups, expanded, ids[j])
  {
    assert ids[..j + 1][..j] == ids[..j];
  }

  /** One step of the `forEach` pass: a new id opens an empty bucket holding
      the item's value and goes to the end of the key order; then the item is
      pushed onto its bucket. */
  lemma CollectStep(items: seq<Row>, i: nat, idOf: Row -> string, valueOf: Row -> Value,
                    order: seq<string>, buckets: map<string, seq<Row>>, values: map<string, Value>)
    requires i < |items|
    requires Collected(items[..i], idOf, valueOf, order, buckets, values)
    ensures
      var id := idOf(items[i]);
      var order' := if id in buckets then order else order + [id];
      var values' := if id in buckets then values else values[id := valueOf(items[i])];
      var b0 := if id in buckets then buckets else buckets[id := []];
      Collected(items[..i + 1], idOf, valueOf, order', b0[id := b0[id] + [items[i]]], values')
  {
    if idOf(items[i]) in buckets {
      CollectKnown(items, i, idOf, valueOf, order, buckets, values);
    } else {
      CollectNew(items, i, idOf, valueOf, order, buckets, values);
    }
  }

  /** An item whose id already has a bucket joins that bucket. */
  lemma CollectKnown(items: seq<Row>, i: nat, idOf: Row -> string, valueOf: Row -> Value,
                     order: seq<string>, buckets: map<string, seq<Row>>, values: map<string, Value>)
    requires i < |items|
    requires Collected(items[..i], idOf, valueOf, order, buckets, values)
    requires idOf(items[i]) in buckets
    ensures Collected(items[..i + 1], idOf, valueOf, order,
                      buckets[idOf(items[i]) := buckets[idOf(items[i])] + [items[i]]], values)
  {
    var seen, item := items[..i], items[i];
    SliceStep(items, i);
    var id := idOf(item);
    BucketIdsStep(seen, item, idOf);
    StepKeys(order, buckets, id, item);
    StepBuckets(seen, item, idOf, order, buckets);
    StepValues(seen, item, idOf, valueOf, order, values, true);
  }

  /** An item with a new id opens a bucket, records its value and appends
      the id to the order. */
  lemma CollectNew(items: seq<Row>, i: nat, idOf: Row -> string, valueOf: Row -> Value,
                   order: seq<string>, buckets: map<string, seq<Row>>, values: map<string, Value>)
    requires i < |items|
    requires Collected(items[..i], idOf, valueOf, order, buckets, values)
    requires idOf(items[i]) !in buckets
    ensures var id := idOf(items[i]);
      Collected(items[..i + 1], idOf, valueOf, order + [id],
                buckets[id := []][id := buckets[id := []][id] + [items[i]]], values[id := valueOf(items[i])])
  {
    var seen, item := items[..i], items[i];
    SliceStep(items, i);
    var id := idOf(item);
    BucketIdsStep(seen, item, idOf);
    StepKeys(order, buckets, id, item);
    BucketEmptyUnlessSeen(seen, idOf, id);
    StepBuckets(seen, item, idOf, order, buckets);
    StepValues(seen, item, idOf, valueOf, order, values, false);
  }

  lemma StepKeys(order: seq<string>, buckets: map<string, seq<Row>>, id: string, item: Row)
    requires forall x :: x in buckets <==> x in order
    ensures
      var order' := if id in buckets then order else order + [id];
      var b0 := if id in buckets then buckets else buckets[id := []];
      forall x :: x in b0[id := b0[id] + [item]] <==> x in order'
  {
  }

  lemma StepBuckets(seen: seq<Row>, item: Row, idOf: Row -> string, order: seq<string>, buckets: map<string, seq<Row>>)
    requires BucketsHold(seen, idOf, order, buckets)
    requires forall x :: x in buckets <==> x in order
    requires idOf(item) !in buckets ==> Bucket(seen, idOf, idOf(item)) == []
    ensures
      var id := idOf(item);
      var order' := if id in buckets then order else order + [id];
      var b0 := if id in buckets then buckets else buckets[id := []];
      BucketsHold(seen + [item], idOf, order', b0[id := b0[id] + [item]])
  {
    var id := idOf(item);
    var order' := if id in buckets then order else order + [id];
    var b0 := if id in buckets then buckets else buckets[id := []];
    var b1 := b0[id := b0[id] + [item]];
    forall x | x in order' ensures x in b1 && b1[x] == Bucket(seen + [item], idOf, x) {
      BucketExtend(seen, item, idOf, x);
    }
  }

  lemma StepValues(seen: seq<Row>, item: Row, idOf: Row -> string, valueOf: Row -> Value,
                   order: seq<string>, values: map<string, Value>, known: bool)
    requires ValuesHold(seen, idOf, valueOf, order, values)
    requires order == BucketIds(seen, idOf)
    requires known <==> idOf(item) in order
    requires !known ==> Bucket(seen, idOf, idOf(item)) == []
    ensures
      var id := idOf(item);
      var order' := if known then order else order + [id];
      var values' := if known then values else values[id := valueOf(item)];
      ValuesHold(seen + [item], idOf, valueOf, order', values')
  {
    var id := idOf(item);
    var order' := if known then order else order + [id];
    var values' := if known then values else values[id := valueOf(item)];
    forall x | x in order' ensures x in values' && values'[x] == BucketValue(seen + [item], idOf, valueOf, x) {
      BucketValueExtend(seen, item, idOf, valueOf, x);
      if x in order {
        BucketNonEmptyIfSeen(seen, idOf, x);
      }
    }
  }

  lemma BucketIdsStep(seen: seq<Row>, item: Row, idOf: Row -> string)
    ensures var old_ := BucketIds(seen, idOf);
      BucketIds(seen + [item], idOf) == if idOf(item) in old_ then old_ else old_ + [idOf(item)]
  {
    var next := seen + [item];
    assert next[..|next| - 1] == seen;
    var ids := ItemIds(seen, idOf);
    assert ItemIds(next, idOf) == ids + [idOf(item)];
    assert (ids + [idOf(item)])[..|ids|] == ids;
  }

  lemma BucketExtend(seen: seq<Row>, item: Row, idOf: Row -> string, x: string)
    ensures Bucket(seen + [item], idOf, x) == Bucket(seen, idOf, x) + (if idOf(item) == x then [item] else [])
  {
    var next := seen + [item];
    assert next[..|next| - 1] == seen;
  }

  lemma BucketValueExtend(seen: seq<Row>, item: Row, idOf: Row -> string, valueOf: Row -> Value, x: string)
    ensures BucketValue(seen + [item], idOf, valueOf, x)
      == if Bucket(seen, idOf, x) != [] then BucketValue(seen, idOf, valueOf, x)
         else if idOf(item) == x then valueOf(item)
         else Str("Unknown")
  {
    BucketExtend(seen, item, idOf, x);
  }

  /** An id that occurs among the items has a non-empty bucket. */
  lemma {:induction false} BucketNonEmptyIfSeen(items: seq<Row>, idOf: Row -> string, id: string)
    requires id in BucketIds(items, idOf)
    ensures Bucket(items, idOf, id) != []
  {
    var init := items[..|items| - 1];
    assert ItemIds(items, idOf) == ItemIds(init, idOf) + [idOf(items[|items| - 1])];
    if idOf(items[|items| - 1]) != id {
      BucketNonEmptyIfSeen(init, idOf, id);
    }
  }

  /** A bucket is empty until an item with its id has been seen. */
  lemma {:induction false} BucketEmptyUnlessSeen(items: seq<Row>, idOf: Row -> string, id: string)
    requires id !in ItemIds(items, idOf)
    ensures Bucket(items, idOf, id) == []
  {
    if items != [] {
      var init := items[..|items| - 1];
      assert ItemIds(items, idOf) == ItemIds(init, idOf) + [idOf(items[|items| - 1])];
      BucketEmptyUnlessSeen(init, idOf, id);
    }
  }

  // ---------------------------------------------------------------------
  // Properties of the bucketing

  /** The buckets named by `ids`, one after the other. */
  function Flatten(items: seq<Row>, idOf: Row -> string, ids: seq<string>): seq<Row>
  {
    if ids == [] then [] else Flatten(items, idOf, ids[..|ids| - 1]) + Bucket(items, idOf, ids[|ids| - 1])
  }

  /** Buckets come in order of the first item of each, each id once, and
      exactly the ids of the items appear. */
  lemma BucketIdsFirstSeen(items: seq<Row>, idOf: Row -> string)
    ensures NoDup(BucketIds(items, idOf))
    ensures forall id :: id in BucketIds(items, idOf) <==> exists k :: 0 <= k < |items| && idOf(items[k]) == id
    ensures var ids := BucketIds(items, idOf);
      forall i, j :: 0 <= i < j < |ids| ==>
        IndexOf(ItemIds(items, idOf), ids[i]) < IndexOf(ItemIds(items, idOf), ids[j])
  {
    var all := ItemIds(items, idOf);
    DedupeFirstSeen(all);
    forall id ensures id in all <==> exists k :: 0 <= k < |items| && idOf(items[k]) == id {
      if id in all {
        var k := IndexOf(all, id);
        assert idOf(items[k]) == id;
      }
    }
  }

  /** Every item of a bucket has the bucket's id, and the bucket keeps item order. */
  lemma {:induction false} BucketMembers(items: seq<Row>, idOf: Row -> string, id: string)
    ensures forall x :: x in Bucket(items, idOf, id) ==> x in items && idOf(x) == id
  {
    if items != [] {
      BucketMembers(items[..|items| - 1], idOf, id);
    }
  }

  /** Adding one item adds it to the one bucket named by its id. */
  lemma {:induction false} FlattenExtend(seen: seq<Row>, item: Row, idOf: Row -> string, ids: seq<string>)
    requires NoDup(ids)
    ensures multiset(Flatten(seen + [item], idOf, ids))
      == multiset(Flatten(seen, idOf, ids)) + (if idOf(item) in ids then multiset{item} else multiset{})
  {
    if idOf(item) !in ids {
      FlattenExtendAbsent(seen, item, idOf, ids);
    } else {
      FlattenExtendPresent(seen, item, idOf, ids);
    }
  }

  lemma {:induction false} FlattenExtendPresent(seen: seq<Row>, item: Row, idOf: Row -> string, ids: seq<string>)
    requires NoDup(ids) && idOf(item) in ids
    ensures multiset(Flatten(seen + [item], idOf, ids)) == multiset(Flatten(seen, idOf, ids)) + multiset{item}
  {
    var init, last := ids[..|ids| - 1], ids[|ids| - 1];
    var x := idOf(item);
    NoDupSplitLast(ids);
    assert x in init || x == last;
    var before := Flatten(seen, idOf, init);
    var after := Flatten(seen + [item], idOf, init);
    BucketExtend(seen, item, idOf, last);
    FlattenSplit(seen + [item], idOf, ids);
    FlattenSplit(seen, idOf, ids);
    if x == last {
      FlattenExtendAbsent(seen, item, idOf, init);
      assert Bucket(seen + [item], idOf, last) == Bucket(seen, idOf, last) + [item];
    } else {
      FlattenExtendPresent(seen, item, idOf, init);
      assert multiset(after) == multiset(before) + multiset{item};
      assert Bucket(seen + [item], idOf, last) == Bucket(seen, idOf, last);
    }
  }

  lemma NoDupSplitLast(ids: seq<string>)
    requires NoDup(ids) && ids != []
    ensures NoDup(ids[..|ids| - 1]) && ids[|ids| - 1] !in ids[..|ids| - 1]
    ensures forall x :: x in ids <==> x in ids[..|ids| - 1] || x == ids[|ids| - 1]
  {
    assert ids == ids[..|ids| - 1] + [ids[|ids| - 1]];
  }

  lemma FlattenSplit(items: seq<Row>, idOf: Row -> string, ids: seq<string>)
    requires ids != []
    ensures multiset(Flatten(items, idOf, ids))
      == multiset(Flatten(items, idOf, ids[..|ids| - 1])) + multiset(Bucket(items, idOf, ids[|ids| - 1]))
  {
  }

  /** The buckets partition the items: together they hold every item exactly once. */
  lemma {:induction false} BucketsPartition(items: seq<Row>, idOf: Row -> string)
    ensures multiset(Flatten(items, idOf, BucketIds(items, idOf))) == multiset(items)
  {
    if items != [] {
      var seen, item := items[..|items| - 1], items[|items| - 1];
      assert items == seen + [item];
      BucketsPartition(seen, idOf);
      var ids := BucketIds(seen, idOf);
      BucketIdsStep(seen, item, idOf);
      if idOf(item) in ids {
        FlattenExtend(seen, item, idOf, ids);
      } else {
        FlattenNewId(seen, item, idOf);
      }
    }
  }

  /** An item with an id not seen before opens a last bucket of its own. */
  lemma FlattenNewId(seen: seq<Row>, item: Row, idOf: Row -> string)
    requires idOf(item) !in BucketIds(seen, idOf)
    ensures Flatten(seen + [item], idOf, BucketIds(seen, idOf) + [idOf(item)]) == Flatten(seen, idOf, BucketIds(seen, idOf)) + [item]
  {
    var ids := BucketIds(seen, idOf);
    var ids' := ids + [idOf(item)];
    assert ids'[..|ids|] == ids;
    BucketEmptyUnlessSeen(seen, idOf, idOf(item));
    BucketExtend(seen, item, idOf, idOf(item));
    FlattenExtendAbsent(seen, item, idOf, ids);
  }

  lemma {:induction false} FlattenExtendAbsent(seen: seq<Row>, item: Row, idOf: Row -> string, ids: seq<string>)
    requires idOf(item) !in ids
    ensures Flatten(seen + [item], idOf, ids) == Flatten(seen, idOf, ids)
  {
    if ids != [] {
      FlattenExtendAbsent(seen, item, idOf, ids[..|ids| - 1]);
      BucketExtend(seen, item, idOf, ids[|ids| - 1]);
    }
  }

  /** A bucket's value is the value its id was made from. */
  lemma HeaderId(items: seq<Row>, key: string, level: nat, path: seq<PathEntry>, id: string)
    requires id in BucketIds(items, IdAt(key, level, path))
    ensures GroupId(key, BucketValue(items, IdAt(key, level, path), ValueFor(key), id), level, path) == id
  {
    var idOf := IdAt(key, level, path);
    BucketNonEmptyIfSeen(items, idOf, id);
    BucketMembers(items, idOf, id);
    var b := Bucket(items, idOf, id);
    assert b[0] in b;
  }

  // ---------------------------------------------------------------------
  // Properties of the display sequence

  /** The data rows of a display sequence, in order (specified by
      `DataRowsLeaves` and `BuildCovers`). */
  function DataRows(out: seq<DisplayRow>): (r: seq<Row>)
    ensures |r| <= |out|
  {
    if out == [] then []
    else DataRows(out[..|out| - 1]) + (if out[|out| - 1].DataRow? then [out[|out| - 1].row] else [])
  }

  lemma {:induction false} DataRowsAppend(a: seq<DisplayRow>, b: seq<DisplayRow>)
    ensures DataRows(a + b) == DataRows(a) + DataRows(b)
  {
    if b == [] {
      assert a + b == a;
    } else {
      var init := b[..|b| - 1];
      assert (a + b)[..|a + b| - 1] == a + init;
      DataRowsAppend(a, init);
    }
  }

  lemma {:induction false} DataRowsLeaves(items: seq<Row>, level: nat, path: seq<PathEntry>)
    ensures DataRows(Leaves(items, level, path)) == items
  {
    if items != [] {
      var init, last := items[..|items| - 1], items[|items| - 1];
      DataRowsLeaves(init, level, path);
      var prev := Leaves(init, level, path);
      var d := DataRow(last, level, path, ParentId(path));
      var l := prev + [d];
      assert Leaves(items, level, path) == l;
      assert l[..|l| - 1] == prev;
      assert items == init + [last];
    }
  }

  /** No header in `out` is collapsed. */
  ghost predicate AllShownExpanded(out: seq<DisplayRow>, expanded: seq<string>)
  {
    forall k :: 0 <= k < |out| && out[k].GroupHeader? ==> out[k].id in expanded
  }

  lemma ShownSplit(a: seq<DisplayRow>, b: seq<DisplayRow>, expanded: seq<string>)
    requires AllShownExpanded(a + b, expanded)
    ensures AllShownExpanded(a, expanded) && AllShownExpanded(b, expanded)
  {
    assert forall k :: 0 <= k < |a| ==> a[k] == (a + b)[k];
    assert forall k :: 0 <= k < |b| ==> b[k] == (a + b)[|a| + k];
  }

  /** With every displayed header expanded, each row of `items` appears
      exactly once among the data rows of the display. */
  lemma {:induction false} GroupCovers(items: seq<Row>, level: nat, path: seq<PathEntry>, groups: seq<string>, expanded: seq<string>)
    requires AllShownExpanded(Group(items, level, path, groups, expanded), expanded)
    ensures multiset(DataRows(Group(items, level, path, groups, expanded))) == multiset(items)
    decreases |groups| - level, 1, 0
  {
    if level >= |groups| {
      DataRowsLeaves(items, level, path);
    } else {
      var idOf := IdAt(groups[level], level, path);
      EmitBucketsCovers(items, level, path, groups, expanded, BucketIds(items, idOf));
      BucketsPartition(items, idOf);
    }
  }

  lemma {:induction false} EmitBucketsCovers(items: seq<Row>, level: nat, path: seq<PathEntry>, groups: seq<string>,
                                             expanded: seq<string>, ids: seq<string>)
    requires level < |groups|
    requires AllShownExpanded(EmitBuckets(items, level, path, groups, expanded, ids), expanded)
    ensures multiset(DataRows(EmitBuckets(items, level, path, groups, expanded, ids)))
      == multiset(Flatten(items, IdAt(groups[level], level, path), ids))
    decreases |groups| - level, 0, |ids| + 1
  {
    if ids != [] {
      var init, last := ids[..|ids| - 1], ids[|ids| - 1];
      var a := EmitBuckets(items, level, path, groups, expanded, init);
      var b := EmitBucket(items, level, path, groups, expanded, last);
      ShownSplit(a, b, expanded);
      DataRowsAppend(a, b);
      EmitBucketsCovers(items, level, path, groups, expanded, init);
      EmitBucketCovers(items, level, path, groups, expanded, last);
    }
  }

  lemma {:induction false} EmitBucketCovers(items: seq<Row>, level: nat, path: seq<PathEntry>, groups: seq<string>,
                                            expanded: seq<string>, id: string)
    requires level < |groups|
    requires AllShownExpanded(EmitBucket(items, level, path, groups, expanded, id), expanded)
    ensures multiset(DataRows(EmitBucket(items, level, path, groups, expanded, id)))
      == multiset(Bucket(items, IdAt(groups[level], level, path), id))
    decreases |groups| - level, 0, 0
  {
    var key := groups[level];
    var idOf := IdAt(key, level, path);
    var b := Bucket(items, idOf, id);
    var v := BucketValue(items, idOf, ValueFor(key), id);
    var here := path + [PathEntry(key, v, id)];
    EmitBucketIs(items, level, path, groups, expanded, id, b, v);
    var out := EmitBucket(items, level, path, groups, expanded, id);
    var sub := Group(b, level + 1, here, groups, expanded);
    HeaderFirst(out, id, expanded);
    assert out == [out[0]] + sub;
    HeaderThenRows(out[0], sub, expanded);
    GroupCovers(b, level + 1, here, groups, expanded);
  }

  /** A header at the front of a fully expanded display is itself expanded. */
  lemma HeaderFirst(out: seq<DisplayRow>, id: string, expanded: seq<string>)
    requires |out| > 0 && out[0].GroupHeader? && out[0].id == id
    requires AllShownExpanded(out, expanded)
    ensures id in expanded
  {
  }

  /** A header contributes no data row, and what follows it stays fully expanded. */
  lemma HeaderThenRows(header: DisplayRow, sub: seq<DisplayRow>, expanded: seq<string>)
    requires header.GroupHeader?
    requires AllShownExpanded([header] + sub, expanded)
    ensures AllShownExpanded(sub, expanded)
    ensures DataRows([header] + sub) == DataRows(sub)
  {
    ShownSplit([header], sub, expanded);
    DataRowsAppend([header], sub);
    assert DataRows([header]) == [];
  }

  /** Where an entry of `groupDataRecursively(items, level, path)` sits: its
      path extends `path`, every group it lies inside (below `path`) is
      expanded, a data row sits at the leaf level under the last group of its
      path, and a header carries the id made from its column, value, level and
      parent path (`group-<key>-<value>-<level>-<parent ids>`). */
  ghost predicate Placed(e: DisplayRow, groups: seq<string>, expanded: seq<string>, path: seq<PathEntry>)
  {
    match e
    case DataRow(_, level, p, parentId) =>
      && level == |groups| && |p| == |groups| && |path| <= |p| && p[..|path|] == path
      && parentId == ParentId(p)
      && (forall k :: |path| <= k < |p| ==> p[k].groupId in expanded)
    case GroupHeader(id, level, p, column, value, _, _, parentId) =>
      && |path| <= level < |groups| && |p| == level + 1 && p[..|path|] == path
      && column == groups[level]
      && p[level] == PathEntry(column, value, id)
      && id == GroupId(column, value, level, p[..level])
      && parentId == ParentId(p[..level])
      && (forall k :: |path| <= k < level ==> p[k].groupId in expanded)
  }

  ghost predicate AllPlaced(out: seq<DisplayRow>, groups: seq<string>, expanded: seq<string>, path: seq<PathEntry>)
  {
    forall k :: 0 <= k < |out| ==> Placed(out[k], groups, expanded, path)
  }

  /** An entry placed below an expanded step is placed below the step's parent. */
  lemma PlacedWeaken(e: DisplayRow, groups: seq<string>, expanded: seq<string>, path: seq<PathEntry>, step: PathEntry)
    requires Placed(e, groups, expanded, path + [step])
    requires step.groupId in expanded
    ensures Placed(e, groups, expanded, path)
  {
    var p := e.path;
    PrefixShorten(p, path, step);
    match e
    case DataRow(_, _, _, _) =>
      forall k | |path| <= k < |p| ensures p[k].groupId in expanded {
        if k == |path| {
          assert p[k] == step;
        }
      }
    case GroupHeader(_, level, _, _, _, _, _, _) =>
      forall k | |path| <= k < level ensures p[k].groupId in expanded {
        if k == |path| {
          assert p[k] == step;
        }
      }
  }

  lemma AllPlacedWeaken(out: seq<DisplayRow>, groups: seq<string>, expanded: seq<string>, path: seq<PathEntry>, step: PathEntry)
    requires AllPlaced(out, groups, expanded, path + [step])
    requires step.groupId in expanded
    ensures AllPlaced(out, groups, expanded, path)
  {
    forall k | 0 <= k < |out| ensures Placed(out[k], groups, expanded, path) {
      PlacedWeaken(out[k], groups, expanded, path, step);
    }
  }

  lemma AllPlacedAppend(a: seq<DisplayRow>, b: seq<DisplayRow>, groups: seq<string>, expanded: seq<string>, path: seq<PathEntry>)
    requires AllPlaced(a, groups, expanded, path) && AllPlaced(b, groups, expanded, path)
    ensures AllPlaced(a + b, groups, expanded, path)
  {
    forall k | 0 <= k < |a + b| ensures Placed((a + b)[k], groups, expanded, path) {
      if k < |a| {
        assert (a + b)[k] == a[k];
      } else {
        assert (a + b)[k] == b[k - |a|];
      }
    }
  }

  lemma HeaderPlaced(items: seq<Row>, level: nat, path: seq<PathEntry>, groups: seq<string>,
                     expanded: seq<string>, id: string, count: nat, total: Option<int>)
    requires |path| == level < |groups|
    requires id in BucketIds(items, IdAt(groups[level], level, path))
    ensures var v := BucketValue(items, IdAt(groups[level], level, path), ValueFor(groups[level]), id);
      AllPlaced([GroupHeader(id, level, path + [PathEntry(groups[level], v, id)], groups[level], v, count, total, ParentId(path))],
                groups, expanded, path)
  {
    var v := BucketValue(items, IdAt(groups[level], level, path), ValueFor(groups[level]), id);
    HeaderId(items, groups[level], level, path, id);
    HeaderPlacedAt(groups[level], v, id, level, path, groups, expanded, count, total);
  }

  lemma HeaderPlacedAt(key: string, v: Value, id: string, level: nat, path: seq<PathEntry>, groups: seq<string>,
                       expanded: seq<string>, count: nat, total: Option<int>)
    requires |path| == level < |groups| && key == groups[level]
    requires GroupId(key, v, level, path) == id
    ensures AllPlaced([GroupHeader(id, level, path + [PathEntry(key, v, id)], key, v, count, total, ParentId(path))],
                      groups, expanded, path)
  {
    var here := path + [PathEntry(key, v, id)];
    assert here[..level] == path;
    assert Placed(GroupHeader(id, level, here, key, v, count, total, ParentId(path)), groups, expanded, path);
  }

  /** Every entry the grouping emits is placed as `Placed` says. */
  lemma {:induction false} GroupPlaced(items: seq<Row>, level: nat, path: seq<PathEntry>, groups: seq<string>, expanded: seq<string>)
    requires |path| == level <= |groups|
    ensures AllPlaced(Group(items, level, path, groups, expanded), groups, expanded, path)
    decreases |groups| - level, 1, 0
  {
    if level < |groups| {
      var ids := BucketIds(items, IdAt(groups[level], level, path));
      EmitBucketsPlaced(items, level, path, groups, expanded, ids);
    }
  }

  lemma {:induction false} EmitBucketsPlaced(items: seq<Row>, level: nat, path: seq<PathEntry>, groups: seq<string>,
                                             expanded: seq<string>, ids: seq<string>)
    requires |path| == level < |groups|
    requires forall id :: id in ids ==> id in BucketIds(items, IdAt(groups[level], level, path))
    ensures AllPlaced(EmitBuckets(items, level, path, groups, expanded, ids), groups, expanded, path)
    decreases |groups| - level, 0, |ids| + 1
  {
    if ids != [] {
      var init, last := ids[..|ids| - 1], ids[|ids| - 1];
      assert forall id :: id in init ==> id in ids;
      EmitBucketsPlaced(items, level, path, groups, expanded, init);
      EmitBucketPlaced(items, level, path, groups, expanded, last);
      AllPlacedAppend(EmitBuckets(items, level, path, groups, expanded, init),
                      EmitBucket(items, level, path, groups, expanded, last), groups, expanded, path);
    }
  }

  lemma {:induction false} EmitBucketPlaced(items: seq<Row>, level: nat, path: seq<PathEntry>, groups: seq<string>,
                                            expanded: seq<string>, id: string)
    requires |path| == level < |groups|
    requires id in BucketIds(items, IdAt(groups[level], level, path))
    ensures AllPlaced(EmitBucket(items, level, path, groups, expanded, id), groups, expanded, path)
    decreases |groups| - level, 0, 0
  {
    var key := groups[level];
    var idOf := IdAt(key, level, path);
    var b := Bucket(items, idOf, id);
    var v := BucketValue(items, idOf, ValueFor(key), id);
    var step := PathEntry(key, v, id);
    var here := path + [step];
    EmitBucketIs(items, level, path, groups, expanded, id, b, v);
    var header := GroupHeader(id, level, here, key, v, |b|, TotalAmount(b), ParentId(path));
    HeaderPlaced(items, level, path, groups, expanded, id, |b|, TotalAmount(b));
    var sub := if id in expanded then Group(b, level + 1, here, groups, expanded) else [];
    if id in expanded {
      SubPlaced(b, level, path, groups, expanded, step);
    }
    AllPlacedAppend([header], sub, groups, expanded, path);
  }

  /** The sub-tree below an expanded header is placed below the header's parent. */
  lemma {:induction false} SubPlaced(items: seq<Row>, level: nat, path: seq<PathEntry>, groups: seq<string>,
                                     expanded: seq<string>, step: PathEntry)
    requires |path| == level < |groups|
    requires step.groupId in expanded
    ensures AllPlaced(Group(items, level + 1, path + [step], groups, expanded), groups, expanded, path)
    decreases |groups| - level - 1, 2
  {
    GroupPlaced(items, level + 1, path + [step], groups, expanded);
    AllPlacedWeaken(Group(items, level + 1, path + [step], groups, expanded), groups, expanded, path, step);
  }

  // ---------------------------------------------------------------------
  // The whole display

  /** `buildHierarchicalData` as the source computes it. */
  method BuildHierarchicalData(data: seq<Row>, groups: seq<string>, expanded: seq<string>) returns (r: seq<DisplayRow>)
    ensures r == BuildHierarchical(data, groups, expanded)
  {
    if |groups| == 0 {
      r := Leaves(data, 0, []);
    } else {
      r := GroupDataRecursively(data, 0, [], groups, expanded);
    }
  }

  /** Without active groups the display is the processed rows in order, each a
      level-0 data row. */
  lemma BuildWithoutGroups(data: seq<Row>, expanded: seq<string>)
    ensures var r := BuildHierarchical(data, [], expanded);
      && |r| == |data|
      && forall i :: 0 <= i < |data| ==> r[i] == DataRow(data[i], 0, [], None)
  {
  }

  /** With every displayed header expanded, the data rows of the display are
      a permutation of the processed rows. */
  lemma BuildCovers(data: seq<Row>, groups: seq<string>, expanded: seq<string>)
    requires AllShownExpanded(BuildHierarchical(data, groups, expanded), expanded)
    ensures multiset(DataRows(BuildHierarchical(data, groups, expanded))) == multiset(data)
  {
    if |groups| == 0 {
      DataRowsLeaves(data, 0, []);
    } else {
      GroupCovers(data, 0, [], groups, expanded);
    }
  }

  /** With active groups, headers carry ids of the form
      `group-<key>-<value>-<level>-<parent ids>`, data rows sit at level
      `|groups|` under the last group of their path, and nothing is shown
      inside a group whose id is not expanded. */
  lemma BuildPlaced(data: seq<Row>, groups: seq<string>, expanded: seq<string>)
    requires |groups| > 0
    ensures AllPlaced(BuildHierarchical(data, groups, expanded), groups, expanded, [])
  {
    GroupPlaced(data, 0, [], groups, expanded);
  }

  /** The header ids of a display sequence, in order (`filter(_isGroupHeader).map(id)`). */
  function HeaderIds(out: seq<DisplayRow>): (r: seq<string>)
    ensures |r| <= |out|
    ensures forall id :: id in r <==> exists k :: 0 <= k < |out| && out[k].GroupHeader? && out[k].id == id
  {
    if out == [] then []
    else
      var last := out[|out| - 1];
      var init := HeaderIds(out[..|out| - 1]);
      assert forall k :: 0 <= k < |out| - 1 ==> out[..|out| - 1][k] == out[k];
      init + (if last.GroupHeader? then [last.id] else [])
  }

  /** The ids of the displayed headers whose `_parentGroupId` is `id`, in order. */
  function ChildHeaderIds(out: seq<DisplayRow>, id: string): (r: seq<string>)
    ensures forall c :: c in r <==> exists k :: 0 <= k < |out| && out[k].GroupHeader? && out[k].parentId == Some(id) && out[k].id == c
  {
    if out == [] then []
    else
      var last := out[|out| - 1];
      var init := ChildHeaderIds(out[..|out| - 1], id);
      assert forall k :: 0 <= k < |out| - 1 ==> out[..|out| - 1][k] == out[k];
      init + (if last.GroupHeader? && last.parentId == Some(id) then [last.id] else [])
  }
}
