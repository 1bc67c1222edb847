/**
 * Counting into a Python dict: keys kept in first-insertion order, each with a count
 * of the items that carried it and the total of their weights.
 */
module Tally {
  import opened Wrappers

  datatype Row<K> = Row(key: K, count: nat, total: int)

  /** Position of the row for key `k`, if there is one. */
  function FindKey<K(==)>(rows: seq<Row<K>>, k: K): (r: Option<nat>)
    ensures r.Some? ==> r.value < |rows| && rows[r.value].key == k
    ensures r.None? ==> forall i :: 0 <= i < |rows| ==> rows[i].key != k
  {
    if |rows| == 0 then None
    else if rows[|rows| - 1].key == k then Some(|rows| - 1)
    else FindKey(rows[..|rows| - 1], k)
  }

  /** `d[k]['count'] += 1; d[k]['total'] += w`, creating the entry at the end if absent. */
  function Bump<K(==)>(rows: seq<Row<K>>, k: K, w: int): seq<Row<K>> {
    match FindKey(rows, k)
    case Some(i) => rows[i := Row(k, rows[i].count + 1, rows[i].total + w)]
    case None => rows + [Row(k, 1, w)]
  }

  /** The rows after one loop pass over `items`, each item a key and a weight. */
  function TallyOf<K(==)>(items: seq<(K, int)>): seq<Row<K>>
    decreases |items|
  {
    if |items| == 0 then []
    else
      var last := items[|items| - 1];
      Bump(TallyOf(items[..|items| - 1]), last.0, last.1)
  }

  /** One loop pass over one more item. */
  lemma TallyOfSnoc<K>(items: seq<(K, int)>, x: (K, int))
    ensures TallyOf(items + [x]) == Bump(TallyOf(items), x.0, x.1)
  {
    assert (items + [x])[..|items|] == items;
  }

  // ------------------------------------------------------------- measures

  /** How many items carry key `k`. */
  function CountKey<K(==)>(items: seq<(K, int)>, k: K): nat
    decreases |items|
  {
    if |items| == 0 then 0
    else CountKey(items[..|items| - 1], k) + (if items[|items| - 1].0 == k then 1 else 0)
  }

  /** The sum of the weights of the items that carry key `k`. */
  function TotalKey<K(==)>(items: seq<(K, int)>, k: K): int
    decreases |items|
  {
    if |items| == 0 then 0
    else TotalKey(items[..|items| - 1], k) + (if items[|items| - 1].0 == k then items[|items| - 1].1 else 0)
  }

  function SumCounts<K>(rows: seq<Row<K>>): int
    decreases |rows|
  {
    if |rows| == 0 then 0 else rows[0].count + SumCounts(rows[1..])
  }

  predicate HasKey<K(==)>(items: seq<(K, int)>, k: K) {
    exists j :: 0 <= j < |items| && items[j].0 == k
  }

  /** The position where key `k` first occurs among the items. */
  function FirstIndex<K(==)>(items: seq<(K, int)>, k: K): (i: nat)
    requires HasKey(items, k)
    ensures i < |items| && items[i].0 == k
    ensures forall j :: 0 <= j < i ==> items[j].0 != k
  {
    if items[0].0 == k then 0
    else
      assert HasKey(items[1..], k) by {
        var j :| 0 <= j < |items| && items[j].0 == k;
        assert items[1..][j - 1].0 == k;
      }
      1 + FirstIndex(items[1..], k)
  }

  predicate DistinctKeys<K(==)>(rows: seq<Row<K>>) {
    forall i, j :: 0 <= i < j < |rows| ==> rows[i].key != rows[j].key
  }

  /** Every key in the dict came from some item. */
  ghost predicate KeysOccur<K>(items: seq<(K, int)>, rows: seq<Row<K>>) {
    forall i :: 0 <= i < |rows| ==> HasKey(items, rows[i].key)
  }

  /** Every item's key is in the dict. */
  ghost predicate ItemsCovered<K>(items: seq<(K, int)>, rows: seq<Row<K>>) {
    forall j :: 0 <= j < |items| ==> FindKey(rows, items[j].0).Some?
  }

  ghost predicate CountsRight<K>(items: seq<(K, int)>, rows: seq<Row<K>>) {
    forall i :: 0 <= i < |rows| ==>
      rows[i].count == CountKey(items, rows[i].key) && rows[i].total == TotalKey(items, rows[i].key)
  }

  /** Keys appear in the order in which they first occur among the items. */
  ghost predicate InFirstOrder<K>(items: seq<(K, int)>, rows: seq<Row<K>>)
    requires KeysOccur(items, rows)
  {
    forall i, j :: 0 <= i < j < |rows| ==>
      FirstIndex(items, rows[i].key) < FirstIndex(items, rows[j].key)
  }

  /** Everything the loop promises about its dict. */
  ghost predicate Tallies<K>(items: seq<(K, int)>, rows: seq<Row<K>>) {
    && DistinctKeys(rows)
    && KeysOccur(items, rows)
    && ItemsCovered(items, rows)
    && CountsRight(items, rows)
    && InFirstOrder(items, rows)
    && SumCounts(rows) == |items|
  }

  // ---------------------------------------------------------------- lemmas

  lemma {:induction false} SumCountsAppend<K>(rows: seq<Row<K>>, r: Row<K>)
    ensures SumCounts(rows + [r]) == SumCounts(rows) + r.count
    decreases |rows|
  {
    if |rows| > 0 {
      assert (rows + [r])[1..] == rows[1..] + [r];
      SumCountsAppend(rows[1..], r);
    }
  }

  lemma {:induction false} SumCountsUpdate<K>(rows: seq<Row<K>>, i: nat, r: Row<K>)
    requires i < |rows|
    ensures SumCounts(rows[i := r]) == SumCounts(rows) - rows[i].count + r.count
    decreases |rows|
  {
    if i > 0 {
      assert rows[i := r][1..] == rows[1..][i - 1 := r];
      SumCountsUpdate(rows[1..], i - 1, r);
    }
  }

  lemma CountKeyAbsent<K>(items: seq<(K, int)>, k: K)
    requires !HasKey(items, k)
    ensures CountKey(items, k) == 0 && TotalKey(items, k) == 0
  {
    if |items| > 0 {
      CountKeyAbsent(items[..|items| - 1], k);
    }
  }

  lemma CountKeyAppend<K>(items: seq<(K, int)>, x: (K, int), k: K)
    ensures CountKey(items + [x], k) == CountKey(items, k) + (if x.0 == k then 1 else 0)
    ensures TotalKey(items + [x], k) == TotalKey(items, k) + (if x.0 == k then x.1 else 0)
  {
    assert (items + [x])[..|items|] == items;
  }

  lemma FindKeyAppend<K>(rows: seq<Row<K>>, r: Row<K>, k: K)
    ensures FindKey(rows + [r], k) == if r.key == k then Some(|rows|) else FindKey(rows, k)
  {
    assert (rows + [r])[..|rows|] == rows;
  }

  lemma {:induction false} FindKeySameKeys<K>(rows: seq<Row<K>>, rows': seq<Row<K>>, k: K)
    requires |rows| == |rows'|
    requires forall p :: 0 <= p < |rows| ==> rows[p].key == rows'[p].key
    ensures FindKey(rows, k) == FindKey(rows', k)
    decreases |rows|
  {
    if |rows| > 0 {
      FindKeySameKeys(rows[..|rows| - 1], rows'[..|rows| - 1], k);
    }
  }

  lemma FirstIndexPrefix<K>(items: seq<(K, int)>, x: (K, int), k: K)
    requires HasKey(items, k)
    ensures HasKey(items + [x], k) && FirstIndex(items + [x], k) == FirstIndex(items, k)
  {
    assert forall j :: 0 <= j < |items| ==> (items + [x])[j] == items[j];
  }

  lemma FirstIndexLast<K>(items: seq<(K, int)>, x: (K, int))
    requires !HasKey(items, x.0)
    ensures HasKey(items + [x], x.0) && FirstIndex(items + [x], x.0) == |items|
  {
    assert forall j :: 0 <= j < |items| ==> (items + [x])[j] == items[j];
    assert (items + [x])[|items|].0 == x.0;
  }

  // A pass over an item whose key is already in the dict at position `i`: the entry
  // is updated in place and no key moves.

  lemma ExistingKeys<K>(items: seq<(K, int)>, rows: seq<Row<K>>, x: (K, int), i: nat)
    requires DistinctKeys(rows) && KeysOccur(items, rows) && InFirstOrder(items, rows)
    requires FindKey(rows, x.0) == Some(i)
    ensures DistinctKeys(Bump(rows, x.0, x.1))
    ensures KeysOccur(items + [x], Bump(rows, x.0, x.1))
    ensures InFirstOrder(items + [x], Bump(rows, x.0, x.1))
  {
    var rows' := Bump(rows, x.0, x.1);
    assert forall p :: 0 <= p < |rows| ==> rows'[p].key == rows[p].key;
    forall p | 0 <= p < |rows|
      ensures HasKey(items + [x], rows[p].key)
      ensures FirstIndex(items + [x], rows[p].key) == FirstIndex(items, rows[p].key)
    {
      FirstIndexPrefix(items, x, rows[p].key);
    }
  }

  lemma ExistingCounts<K>(items: seq<(K, int)>, rows: seq<Row<K>>, x: (K, int), i: nat)
    requires DistinctKeys(rows) && CountsRight(items, rows)
    requires FindKey(rows, x.0) == Some(i)
    ensures CountsRight(items + [x], Bump(rows, x.0, x.1))
    ensures SumCounts(Bump(rows, x.0, x.1)) == SumCounts(rows) + 1
  {
    var rows' := rows[i := Row(x.0, rows[i].count + 1, rows[i].total + x.1)];
    assert Bump(rows, x.0, x.1) == rows';
    SumCountsUpdate(rows, i, Row(x.0, rows[i].count + 1, rows[i].total + x.1));
    forall p | 0 <= p < |rows|
      ensures rows'[p].count == CountKey(items + [x], rows'[p].key)
      ensures rows'[p].total == TotalKey(items + [x], rows'[p].key)
    {
      CountKeyAppend(items, x, rows[p].key);
      if p == i {
        assert rows'[p] == Row(x.0, CountKey(items, x.0) + 1, TotalKey(items, x.0) + x.1);
      } else {
        assert rows'[p] == rows[p] && rows[p].key != x.0;
      }
    }
  }

  lemma ExistingCovered<K>(items: seq<(K, int)>, rows: seq<Row<K>>, x: (K, int), i: nat)
    requires ItemsCovered(items, rows)
    requires FindKey(rows, x.0) == Some(i)
    ensures ItemsCovered(items + [x], Bump(rows, x.0, x.1))
  {
    var items' := items + [x];
    var rows' := Bump(rows, x.0, x.1);
    forall k ensures FindKey(rows', k) == FindKey(rows, k) {
      FindKeySameKeys(rows, rows', k);
    }
    forall j | 0 <= j < |items'| ensures FindKey(rows', items'[j].0).Some? {
      if j < |items| {
        assert items'[j] == items[j];
      }
    }
  }

  // A pass over an item whose key is new: the entry goes at the end.

  lemma NewKeyAbsent<K>(items: seq<(K, int)>, rows: seq<Row<K>>, k: K)
    requires ItemsCovered(items, rows)
    requires FindKey(rows, k).None?
    ensures !HasKey(items, k)
  {
    forall j | 0 <= j < |items| ensures items[j].0 != k {
      assert FindKey(rows, items[j].0).Some?;
    }
  }

  lemma NewKeys<K>(items: seq<(K, int)>, rows: seq<Row<K>>, x: (K, int))
    requires DistinctKeys(rows) && KeysOccur(items, rows) && InFirstOrder(items, rows)
    requires FindKey(rows, x.0).None? && !HasKey(items, x.0)
    ensures DistinctKeys(Bump(rows, x.0, x.1))
    ensures KeysOccur(items + [x], Bump(rows, x.0, x.1))
    ensures InFirstOrder(items + [x], Bump(rows, x.0, x.1))
  {
    var items' := items + [x];
    var rows' := rows + [Row(x.0, 1, x.1)];
    assert Bump(rows, x.0, x.1) == rows';
    FirstIndexLast(items, x);
    forall p | 0 <= p < |rows|
      ensures HasKey(items', rows[p].key)
      ensures FirstIndex(items', rows[p].key) == FirstIndex(items, rows[p].key)
    {
      FirstIndexPrefix(items, x, rows[p].key);
    }
    assert KeysOccur(items', rows') by {
      forall p | 0 <= p < |rows'| ensures HasKey(items', rows'[p].key) {
        if p < |rows| {
          assert rows'[p] == rows[p];
        }
      }
    }
    forall p, q | 0 <= p < q < |rows'|
      ensures FirstIndex(items', rows'[p].key) < FirstIndex(items', rows'[q].key)
    {
      assert rows'[p] == rows[p];
      if q < |rows| {
        assert rows'[q] == rows[q];
      }
    }
  }

  lemma NewCounts<K>(items: seq<(K, int)>, rows: seq<Row<K>>, x: (K, int))
    requires CountsRight(items, rows)
    requires FindKey(rows, x.0).None? && !HasKey(items, x.0)
    ensures CountsRight(items + [x], Bump(rows, x.0, x.1))
    ensures SumCounts(Bump(rows, x.0, x.1)) == SumCounts(rows) + 1
  {
    var r := Row(x.0, 1, x.1);
    assert Bump(rows, x.0, x.1) == rows + [r];
    SumCountsAppend(rows, r);
    CountKeyAbsent(items, x.0);
    CountKeyAppend(items, x, x.0);
    forall p | 0 <= p < |rows|
      ensures rows[p].count == CountKey(items + [x], rows[p].key)
      ensures rows[p].total == TotalKey(items + [x], rows[p].key)
    {
      CountKeyAppend(items, x, rows[p].key);
    }
  }

  lemma NewCovered<K>(items: seq<(K, int)>, rows: seq<Row<K>>, x: (K, int))
    requires ItemsCovered(items, rows)
    requires FindKey(rows, x.0).None?
    ensures ItemsCovered(items + [x], Bump(rows, x.0, x.1))
  {
    var items' := items + [x];
    var r := Row(x.0, 1, x.1);
    assert Bump(rows, x.0, x.1) == rows + [r];
    forall j | 0 <= j < |items'| ensures FindKey(rows + [r], items'[j].0).Some? {
      FindKeyAppend(rows, r, items'[j].0);
      if j < |items| {
        assert items'[j] == items[j];
      }
    }
  }

  /** One loop pass keeps every promise about the dict. */
  lemma BumpTallies<K>(items: seq<(K, int)>, rows: seq<Row<K>>, x: (K, int))
    requires Tallies(items, rows)
    ensures Tallies(items + [x], Bump(rows, x.0, x.1))
  {
    match FindKey(rows, x.0)
    case Some(i) =>
      ExistingKeys(items, rows, x, i);
      ExistingCounts(items, rows, x, i);
      ExistingCovered(items, rows, x, i);
    case None =>
      NewKeyAbsent(items, rows, x.0);
      NewKeys(items, rows, x);
      NewCounts(items, rows, x);
      NewCovered(items, rows, x);
  }

  lemma LastSplit<T>(s: seq<T>)
    requires |s| > 0
    ensures s[..|s| - 1] + [s[|s| - 1]] == s
  {
  }

  /** The tally of any item sequence has distinct keys in first-occurrence order, the
      right count and total per key, and counts summing to the number of items. */
  lemma {:induction false} TallyOfTallies<K>(items: seq<(K, int)>)
    ensures Tallies(items, TallyOf(items))
    decreases |items|
  {
    if |items| > 0 {
      var init, last := items[..|items| - 1], items[|items| - 1];
      var rows := TallyOf(init);
      TallyOfTallies(init);
      BumpTallies(init, rows, last);
      LastSplit(items);
      assert TallyOf(items) == Bump(rows, last.0, last.1);
    }
  }

  // ---------------------------------------------------------------- sorting

  predicate StrictlyDescending(rows: seq<Row<int>>) {
    forall i, j :: 0 <= i < j < |rows| ==> rows[i].key > rows[j].key
  }

  function InsertDesc(r: Row<int>, rows: seq<Row<int>>): (out: seq<Row<int>>)
    ensures |out| == |rows| + 1
    ensures SumCounts(out) == SumCounts(rows) + r.count
    decreases |rows|
  {
    if |rows| == 0 then [r]
    else if r.key > rows[0].key then
      assert ([r] + rows)[1..] == rows;
      [r] + rows
    else
      var rest := InsertDesc(r, rows[1..]);
      assert ([rows[0]] + rest)[1..] == rest;
      [rows[0]] + rest
  }

  /** Inserting adds exactly the one row. */
  lemma {:induction false} InsertDescRows(r: Row<int>, rows: seq<Row<int>>)
    ensures forall x :: x in InsertDesc(r, rows) <==> x == r || x in rows
    decreases |rows|
  {
    if |rows| > 0 && r.key <= rows[0].key {
      InsertDescRows(r, rows[1..]);
      assert forall x :: x in rows <==> x == rows[0] || x in rows[1..];
    }
  }

  lemma {:induction false} InsertDescSorted(r: Row<int>, rows: seq<Row<int>>)
    requires StrictlyDescending(rows)
    requires forall x :: x in rows ==> x.key != r.key
    ensures StrictlyDescending(InsertDesc(r, rows))
    decreases |rows|
  {
    if |rows| > 0 && r.key <= rows[0].key {
      InsertDescSorted(r, rows[1..]);
      InsertDescRows(r, rows[1..]);
      var rest := InsertDesc(r, rows[1..]);
      forall x | x in rest ensures rows[0].key > x.key {
        if x != r {
          var j :| 0 <= j < |rows[1..]| && rows[1..][j] == x;
          assert rows[j + 1] == x;
        } else {
          assert r.key != rows[0].key;
        }
      }
    }
  }

  /** `sorted(d.keys(), reverse=True)` on the rows of a dict. */
  function SortDesc(rows: seq<Row<int>>): (out: seq<Row<int>>)
    ensures |out| == |rows|
    ensures SumCounts(out) == SumCounts(rows)
    decreases |rows|
  {
    if |rows| == 0 then [] else InsertDesc(rows[0], SortDesc(rows[1..]))
  }

  /** Sorting keeps exactly the rows it was given. */
  lemma {:induction false} SortDescRows(rows: seq<Row<int>>)
    ensures forall x :: x in SortDesc(rows) <==> x in rows
    decreases |rows|
  {
    if |rows| > 0 {
      SortDescRows(rows[1..]);
      InsertDescRows(rows[0], SortDesc(rows[1..]));
      assert forall x :: x in rows <==> x == rows[0] || x in rows[1..];
    }
  }

  /** Rows with distinct keys come out in strictly descending key order. */
  lemma {:induction false} SortDescSorted(rows: seq<Row<int>>)
    requires DistinctKeys(rows)
    ensures StrictlyDescending(SortDesc(rows))
    decreases |rows|
  {
    if |rows| > 0 {
      SortDescSorted(rows[1..]);
      SortDescRows(rows[1..]);
      forall x | x in SortDesc(rows[1..]) ensures x.key != rows[0].key {
        var j :| 0 <= j < |rows[1..]| && rows[1..][j] == x;
        assert rows[j + 1] == x;
      }
      InsertDescSorted(rows[0], SortDesc(rows[1..]));
    }
  }
}
