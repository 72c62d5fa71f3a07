/**
 * A relational table as the application sees it through SQLite: rows with an
 * integer primary key, kept in rowid order. Each SQL statement the application
 * issues becomes one of these pure functions.
 */
module Tables {
  import opened Wrappers

  /** A stored row: the `INTEGER PRIMARY KEY` and the record's other columns. */
  datatype Row<T> = Row(id: int, val: T)

  type Table<T> = seq<Row<T>>

  /** Rows are kept in ascending rowid order, the order a plain scan returns them in. */
  predicate Ordered<T(==,!new)>(t: Table<T>) {
    forall i, j :: 0 <= i < j < |t| ==> t[i].id < t[j].id
  }

  function Ids<T(==,!new)>(t: Table<T>): set<int> {
    set r | r in t :: r.id
  }

  /**
   * The rowid SQLite gives an inserted row when none is supplied: one more than
   * the largest rowid in the table, or 1 when the table is empty.
   */
  function NextId<T(==,!new)>(t: Table<T>): (id: int)
    ensures Ordered(t) ==> forall r :: r in t ==> r.id < id
    ensures Ordered(t) ==> id !in Ids(t)
  {
    if t == [] then 1 else t[|t| - 1].id + 1
  }

  /** `INSERT INTO t VALUES (...)` without an explicit id. */
  function Insert<T(==,!new)>(t: Table<T>, v: T): (r: Table<T>)
    ensures |r| == |t| + 1 && r[..|t|] == t
    ensures r[|t|] == Row(NextId(t), v)
    ensures Ordered(t) ==> Ordered(r)
    ensures Ids(r) == Ids(t) + {NextId(t)}
  {
    var r := t + [Row(NextId(t), v)];
    assert forall x :: x in r <==> x in t || x == Row(NextId(t), v);
    r
  }

  /** The rows for which `keep` holds, in table order (`SELECT ... WHERE keep`, or `DELETE ... WHERE !keep`). */
  function Filter<T(==,!new)>(t: Table<T>, keep: Row<T> -> bool): (r: Table<T>)
    ensures |r| <= |t|
    ensures forall x :: x in r <==> x in t && keep(x)
    ensures Ordered(t) ==> Ordered(r)
  {
    if t == [] then []
    else
      var rest := Filter(t[1..], keep);
      if keep(t[0]) then
        assert Ordered(t) ==> forall k :: 0 <= k < |rest| ==> t[0].id < rest[k].id by {
          if Ordered(t) {
            forall k | 0 <= k < |rest| ensures t[0].id < rest[k].id {
              assert rest[k] in t[1..];
            }
          }
        }
        [t[0]] + rest
      else
        rest
  }

  /** Filtering a table with one more row in front. */
  lemma FilterCons<T(!new)>(x: Row<T>, t: Table<T>, keep: Row<T> -> bool)
    ensures Filter([x] + t, keep) == (if keep(x) then [x] else []) + Filter(t, keep)
  {
    assert ([x] + t)[0] == x;
    assert ([x] + t)[1..] == t;
  }

  /** `Filter` without its contract, so that proofs about its shape carry no membership facts. */
  function Kept<T(!new)>(t: Table<T>, keep: Row<T> -> bool): Table<T> {
    if t == [] then [] else (if keep(t[0]) then [t[0]] else []) + Kept(t[1..], keep)
  }

  lemma {:induction false} FilterIsKept<T(!new)>(t: Table<T>, keep: Row<T> -> bool)
    ensures Filter(t, keep) == Kept(t, keep)
    decreases |t|
  {
    if t != [] {
      FilterIsKept(t[1..], keep);
    }
  }

  lemma {:induction false} KeptAppend<T(!new)>(a: Table<T>, b: Table<T>, keep: Row<T> -> bool)
    ensures Kept(a + b, keep) == Kept(a, keep) + Kept(b, keep)
    decreases |a|
  {
    if a == [] {
      assert a + b == b;
    } else {
      assert (a + b)[0] == a[0];
      assert (a + b)[1..] == a[1..] + b;
      KeptAppend(a[1..], b, keep);
      var h := if keep(a[0]) then [a[0]] else [];
      assert h + (Kept(a[1..], keep) + Kept(b, keep)) == (h + Kept(a[1..], keep)) + Kept(b, keep);
    }
  }

  /** Filtering distributes over concatenation. */
  lemma FilterAppend<T(!new)>(a: Table<T>, b: Table<T>, keep: Row<T> -> bool)
    ensures Filter(a + b, keep) == Filter(a, keep) + Filter(b, keep)
  {
    FilterIsKept(a + b, keep);
    FilterIsKept(a, keep);
    FilterIsKept(b, keep);
    KeptAppend(a, b, keep);
  }

  /** A filter every row passes keeps the table as it is. */
  lemma {:induction false} FilterKeepsAll<T(!new)>(t: Table<T>, keep: Row<T> -> bool)
    requires forall k :: 0 <= k < |t| ==> keep(t[k])
    ensures Filter(t, keep) == t
  {
    if t != [] {
      assert keep(t[0]);
      FilterKeepsAll(t[1..], keep);
      assert [t[0]] + t[1..] == t;
    }
  }

  /** A filter no row passes leaves nothing. */
  lemma {:induction false} FilterKeepsNone<T(!new)>(t: Table<T>, keep: Row<T> -> bool)
    requires forall k :: 0 <= k < |t| ==> !keep(t[k])
    ensures Filter(t, keep) == []
  {
    if t != [] {
      assert !keep(t[0]);
      FilterKeepsNone(t[1..], keep);
    }
  }

  /** In a table with distinct ids, a filter exactly one row passes selects that row alone. */
  lemma {:induction false} FilterSingle<T(!new)>(t: Table<T>, keep: Row<T> -> bool, x: Row<T>)
    requires Ordered(t) && x in t && keep(x)
    requires forall y :: y in t && keep(y) ==> y == x
    ensures Filter(t, keep) == [x]
    decreases |t|
  {
    if keep(t[0]) {
      assert t[0] == x;
      forall k | 0 <= k < |t[1..]| ensures !keep(t[1..][k]) {
        assert t[1..][k] == t[k + 1];
        assert t[0].id < t[k + 1].id;
      }
      FilterKeepsNone(t[1..], keep);
    } else {
      assert x in t[1..];
      FilterSingle(t[1..], keep, x);
    }
  }

  /** The row selector `WHERE id = ?`. */
  function WithId<T>(id: int): Row<T> -> bool {
    (r: Row<T>) => r.id == id
  }

  /** `SELECT COUNT(*) ... WHERE p`. */
  function Count<T(==,!new)>(t: Table<T>, p: Row<T> -> bool): nat {
    |Filter(t, p)|
  }

  /** The position of the first row satisfying `p`, or `|t|` when none does. */
  function FirstIndex<T(==,!new)>(t: Table<T>, p: Row<T> -> bool): (i: nat)
    ensures i <= |t|
    ensures forall j :: 0 <= j < i ==> !p(t[j])
    ensures i < |t| ==> p(t[i])
  {
    if t == [] then 0
    else if p(t[0]) then 0
    else 1 + FirstIndex(t[1..], p)
  }

  /** `fetch='one'`: the first row a scan finds, or nothing. */
  function FindFirst<T(==,!new)>(t: Table<T>, p: Row<T> -> bool): (r: Option<Row<T>>)
    ensures r.None? <==> forall x :: x in t ==> !p(x)
    ensures r.Some? ==> r.value in t && p(r.value)
  {
    var i := FirstIndex(t, p);
    if i < |t| then Some(t[i]) else None
  }

  /** The scan stops at the first row satisfying `p`, wherever that is. */
  lemma FindFirstAt<T(!new)>(t: Table<T>, p: Row<T> -> bool, k: int)
    requires 0 <= k < |t| && p(t[k])
    requires forall j :: 0 <= j < k ==> !p(t[j])
    ensures FindFirst(t, p) == Some(t[k])
  {
    assert FirstIndex(t, p) == k;
  }

  /** `WHERE id = ?` finds a row exactly when the id is among the table's ids. */
  lemma FindIdPresent<T(!new)>(t: Table<T>, id: int)
    ensures FindFirst(t, WithId(id)).Some? <==> id in Ids(t)
  {
    if id in Ids(t) {
      var x :| x in t && x.id == id;
      assert WithId(id)(x);
    }
  }

  /** In a table with distinct ids, the row with a given id is the only one that has it. */
  lemma FindById<T(!new)>(t: Table<T>, id: int, x: Row<T>)
    requires Ordered(t) && x in t && x.id == id
    ensures FindFirst(t, WithId(id)) == Some(x)
  {
    var i := FirstIndex(t, WithId(id));
    var k :| 0 <= k < |t| && t[k] == x;
    assert i == k;
  }

  /** `UPDATE t SET ... WHERE p`: rows keep their id and position. */
  function UpdateWhere<T(==,!new)>(t: Table<T>, p: Row<T> -> bool, f: T -> T): (r: Table<T>)
    ensures |r| == |t|
    ensures forall i :: 0 <= i < |t| ==> r[i].id == t[i].id
    ensures forall i :: 0 <= i < |t| && !p(t[i]) ==> r[i] == t[i]
    ensures forall i :: 0 <= i < |t| && p(t[i]) ==> r[i].val == f(t[i].val)
    ensures Ids(r) == Ids(t)
    ensures Ordered(t) ==> Ordered(r)
  {
    if t == [] then []
    else
      var head := if p(t[0]) then Row(t[0].id, f(t[0].val)) else t[0];
      var r := [head] + UpdateWhere(t[1..], p, f);
      SameIds(r, t);
      r
  }

  /** Two tables with the same id at every position have the same id set and the same ordering. */
  lemma SameIds<T(!new)>(r: Table<T>, t: Table<T>)
    requires |r| == |t| && forall i :: 0 <= i < |t| ==> r[i].id == t[i].id
    ensures Ids(r) == Ids(t)
    ensures Ordered(t) ==> Ordered(r)
  {
    forall x | x in Ids(r) ensures x in Ids(t) {
      var i :| 0 <= i < |r| && r[i].id == x;
      assert t[i] in t;
    }
    forall x | x in Ids(t) ensures x in Ids(r) {
      var i :| 0 <= i < |t| && t[i].id == x;
      assert r[i] in r;
    }
  }

  /** `SELECT SUM(col)` over a table, with the empty sum 0 (what `SUM(...) or 0` yields). */
  function Sum<T(==,!new)>(t: Table<T>, col: T -> real): real {
    if t == [] then 0.0 else col(t[0].val) + Sum(t[1..], col)
  }

  /** Sums distribute over concatenation. */
  lemma {:induction false} SumAppend<T(!new)>(a: Table<T>, b: Table<T>, col: T -> real)
    ensures Sum(a + b, col) == Sum(a, col) + Sum(b, col)
    decreases |a|
  {
    if a == [] {
      assert a + b == b;
    } else {
      assert (a + b)[0] == a[0];
      assert (a + b)[1..] == a[1..] + b;
      SumAppend(a[1..], b, col);
    }
  }

  /** The positions of the rows satisfying `p`. */
  function Positions<T(!new)>(t: Table<T>, p: Row<T> -> bool): set<int> {
    set k | 0 <= k < |t| && p(t[k])
  }

  /** `COUNT(*) ... WHERE p` is the number of positions whose row satisfies `p`. */
  lemma {:induction false} CountIsPositions<T(!new)>(t: Table<T>, p: Row<T> -> bool)
    ensures Count(t, p) == |Positions(t, p)|
    decreases |t|
  {
    if t != [] {
      var init, x := t[..|t| - 1], t[|t| - 1];
      assert t == init + [x];
      FilterAppend(init, [x], p);
      assert [x][1..] == [];
      CountIsPositions(init, p);
      PositionsOfAppend(init, x, p);
    }
  }

  /** One more row adds its position when it satisfies `p`. */
  lemma PositionsOfAppend<T(!new)>(t: Table<T>, x: Row<T>, p: Row<T> -> bool)
    ensures |Positions(t + [x], p)| == |Positions(t, p)| + (if p(x) then 1 else 0)
  {
    var a, b := Positions(t + [x], p), Positions(t, p);
    forall k | k in a && k != |t| ensures k in b {
      assert (t + [x])[k] == t[k];
    }
    forall k | k in b ensures k in a {
      assert (t + [x])[k] == t[k];
    }
    if p(x) {
      assert a == b + {|t|};
    } else {
      assert a == b;
    }
  }

  /** Changing one row changes the sum by the difference of that row's values alone. */
  lemma {:induction false} SumUpdateOne<T(!new)>(t: Table<T>, u: Table<T>, i: int, col: T -> real)
    requires |u| == |t| && 0 <= i < |t|
    requires forall k :: 0 <= k < |t| && k != i ==> u[k] == t[k]
    ensures Sum(u, col) == Sum(t, col) - col(t[i].val) + col(u[i].val)
    decreases |t|
  {
    if i == 0 {
      assert u[1..] == t[1..];
    } else {
      assert u[0] == t[0];
      SumUpdateOne(t[1..], u[1..], i - 1, col);
    }
  }

  /** Filtering by a weaker condition first changes nothing. */
  lemma {:induction false} FilterFilter<T(!new)>(t: Table<T>, outer: Row<T> -> bool, inner: Row<T> -> bool)
    requires forall x :: inner(x) ==> outer(x)
    ensures Filter(Filter(t, outer), inner) == Filter(t, inner)
  {
    if t != [] {
      FilterFilter(t[1..], outer, inner);
    }
  }

  /**
   * When every row satisfies exactly one of `p` and `q`, the two filtered counts
   * and sums add up to those of the whole table.
   */
  lemma {:induction false} PartitionSums<T(!new)>(t: Table<T>, p: Row<T> -> bool, q: Row<T> -> bool, col: T -> real)
    requires forall x :: x in t ==> p(x) != q(x)
    ensures Count(t, p) + Count(t, q) == |t|
    ensures Sum(Filter(t, p), col) + Sum(Filter(t, q), col) == Sum(t, col)
  {
    if t != [] {
      assert forall x :: x in t[1..] ==> x in t;
      PartitionSums(t[1..], p, q, col);
    }
  }
}
