/**
 * Insertion sort over any ordering the caller supplies. The application sorts in
 * three places: form indices (Python's `sorted` on strings), line items
 * (`ORDER BY sort_order, id`) and clients (`ORDER BY name`).
 */
module Sorting {

  /** `le` is total and transitive, so sorting by it is meaningful. */
  ghost predicate TotalPreorder<T(!new)>(le: (T, T) -> bool) {
    && (forall a, b :: le(a, b) || le(b, a))
    && (forall a, b, c :: le(a, b) && le(b, c) ==> le(a, c))
  }

  predicate SortedBy<T>(s: seq<T>, le: (T, T) -> bool) {
    forall i, j :: 0 <= i < j < |s| ==> le(s[i], s[j])
  }

  /** Places `x` before the first element it is `le` to. */
  function InsertSorted<T(!new)>(x: T, s: seq<T>, le: (T, T) -> bool): (r: seq<T>)
    ensures multiset(r) == multiset(s) + multiset{x}
    ensures |r| == |s| + 1
  {
    if s == [] || le(x, s[0]) then
      assert s == [] ==> [x] + s == [x];
      [x] + s
    else
      assert s == [s[0]] + s[1..];
      [s[0]] + InsertSorted(x, s[1..], le)
  }

  lemma {:induction false} InsertSortedKeepsOrder<T(!new)>(x: T, s: seq<T>, le: (T, T) -> bool)
    ensures TotalPreorder(le) && SortedBy(s, le) ==> SortedBy(InsertSorted(x, s, le), le)
  {
    var r := InsertSorted(x, s, le);
    if !(TotalPreorder(le) && SortedBy(s, le)) {
    } else if s == [] || le(x, s[0]) {
      forall i, j | 0 <= i < j < |r| ensures le(r[i], r[j]) {
        if i == 0 && j > 1 {
          assert le(x, s[0]) && le(s[0], s[j - 1]);
        }
      }
    } else {
      var rest := InsertSorted(x, s[1..], le);
      InsertSortedKeepsOrder(x, s[1..], le);
      assert le(s[0], x);
      forall j | 0 <= j < |rest| ensures le(s[0], rest[j]) {
        assert rest[j] in multiset(rest);
        if rest[j] != x {
          assert rest[j] in s[1..];
        }
      }
    }
  }

  /** A sorted permutation of `s`. */
  function Sort<T(!new)>(s: seq<T>, le: (T, T) -> bool): (r: seq<T>)
    ensures multiset(r) == multiset(s)
    ensures |r| == |s|
    ensures TotalPreorder(le) ==> SortedBy(r, le)
  {
    if s == [] then []
    else
      assert s == [s[0]] + s[1..];
      var rest := Sort(s[1..], le);
      InsertSortedKeepsOrder(s[0], rest, le);
      InsertSorted(s[0], rest, le)
  }

  /** Sorting what is already in order changes nothing. */
  lemma {:induction false} SortOfSorted<T(!new)>(s: seq<T>, le: (T, T) -> bool)
    requires SortedBy(s, le)
    ensures Sort(s, le) == s
  {
    if s != [] {
      assert SortedBy(s[1..], le);
      SortOfSorted(s[1..], le);
      if |s| > 1 {
        assert le(s[0], s[1]);
      }
      assert [s[0]] + s[1..] == s;
    }
  }
}
