/**
 The stable sort behind `Array.prototype.sort` with a comparator: elements the
 comparator ties keep their original relative order.
 */
module Sorting {
  import opened Prelude

  ghost predicate TotalPreorder<T(!new)>(leq: (T, T) -> bool) {
    && (forall a, b :: leq(a, b) || leq(b, a))
    && (forall a, b, c :: leq(a, b) && leq(b, c) ==> leq(a, c))
  }

  ghost predicate Sorted<T>(s: seq<T>, leq: (T, T) -> bool) {
    forall i, j | 0 <= i < j < |s| :: leq(s[i], s[j])
  }

  function Insert<T(!new)>(x: T, s: seq<T>, leq: (T, T) -> bool): (r: seq<T>)
    ensures |r| == |s| + 1
    ensures forall y :: y in r <==> y == x || y in s
  {
    if s == [] then [x]
    else if leq(x, s[0]) then [x] + s
    else [s[0]] + Insert(x, s[1..], leq)
  }

  function StableSort<T(!new)>(s: seq<T>, leq: (T, T) -> bool): (r: seq<T>)
    ensures |r| == |s|
    ensures forall y :: y in r <==> y in s
  {
    if s == [] then [] else Insert(s[0], StableSort(s[1..], leq), leq)
  }

  lemma {:induction false} InsertSorted<T(!new)>(x: T, s: seq<T>, leq: (T, T) -> bool)
    requires TotalPreorder(leq) && Sorted(s, leq)
    ensures Sorted(Insert(x, s, leq), leq)
  {
    if s == [] {
    } else {
      InsertSorted(x, s[1..], leq);
      if leq(x, s[0]) {
        forall j | 0 <= j < |s| ensures leq(x, s[j]) {}
      } else {
        forall y | y in Insert(x, s[1..], leq) ensures leq(s[0], y) {}
      }
    }
  }

  lemma {:induction false} SortSorts<T(!new)>(s: seq<T>, leq: (T, T) -> bool)
    requires TotalPreorder(leq)
    ensures Sorted(StableSort(s, leq), leq)
  {
    if s == [] {
    } else {
      SortSorts(s[1..], leq);
      InsertSorted(s[0], StableSort(s[1..], leq), leq);
    }
  }

  lemma {:induction false} FilterInsert<T(!new)>(keep: T -> bool, x: T, s: seq<T>, leq: (T, T) -> bool)
    requires TotalPreorder(leq) && Sorted(s, leq)
    ensures Filter(keep, Insert(x, s, leq)) ==
            if keep(x) then Insert(x, Filter(keep, s), leq) else Filter(keep, s)
  {
    if s == [] {
    } else if leq(x, s[0]) {
      assert ([x] + s)[1..] == s;
      FilterMembers(keep, s);
      var f := Filter(keep, s);
      assert f != [] ==> f[0] in s;
    } else {
      FilterInsert(keep, x, s[1..], leq);
      assert Insert(x, s, leq)[1..] == Insert(x, s[1..], leq);
    }
  }

  /** Selecting before sorting and sorting before selecting agree. */
  lemma {:induction false} FilterSort<T(!new)>(keep: T -> bool, s: seq<T>, leq: (T, T) -> bool)
    requires TotalPreorder(leq)
    ensures Filter(keep, StableSort(s, leq)) == StableSort(Filter(keep, s), leq)
  {
    if s == [] {
    } else {
      FilterSort(keep, s[1..], leq);
      SortSorts(s[1..], leq);
      FilterInsert(keep, s[0], StableSort(s[1..], leq), leq);
      if keep(s[0]) {
        assert Filter(keep, s)[1..] == Filter(keep, s[1..]);
      }
    }
  }

  lemma {:induction false} InsertDistinct<T(!new)>(x: T, s: seq<T>, leq: (T, T) -> bool)
    requires Distinct(s) && x !in s
    ensures Distinct(Insert(x, s, leq))
  {
    if s == [] || leq(x, s[0]) {
    } else {
      InsertDistinct(x, s[1..], leq);
      assert s[0] !in Insert(x, s[1..], leq);
    }
  }

  lemma {:induction false} SortDistinct<T(!new)>(s: seq<T>, leq: (T, T) -> bool)
    requires Distinct(s)
    ensures Distinct(StableSort(s, leq))
  {
    if s == [] {
    } else {
      SortDistinct(s[1..], leq);
      InsertDistinct(s[0], StableSort(s[1..], leq), leq);
    }
  }

  /** x comes before y in s. */
  ghost predicate Precedes<T>(s: seq<T>, x: T, y: T) {
    exists a, b :: 0 <= a < b < |s| && s[a] == x && s[b] == y
  }

  lemma {:induction false} InsertShape<T(!new)>(x: T, s: seq<T>, leq: (T, T) -> bool) returns (k: nat)
    ensures k <= |s| && Insert(x, s, leq) == s[..k] + [x] + s[k..]
    ensures forall i | 0 <= i < k :: !leq(x, s[i])
  {
    if s == [] || leq(x, s[0]) {
      k := 0;
    } else {
      var m := InsertShape(x, s[1..], leq);
      k := m + 1;
      assert s[..k] == [s[0]] + s[1..][..m] && s[k..] == s[1..][m..];
    }
  }

  lemma PrecedesTail<T>(s: seq<T>, x: T, y: T)
    requires s != [] && Precedes(s[1..], x, y)
    ensures Precedes(s, x, y)
  {
    var c, d :| 0 <= c < d < |s[1..]| && s[1..][c] == x && s[1..][d] == y;
    assert s[c + 1] == x && s[d + 1] == y;
  }

  lemma PrecedesHead<T>(s: seq<T>, y: T)
    requires s != [] && y in s[1..]
    ensures Precedes(s, s[0], y)
  {
    var d :| 0 <= d < |s[1..]| && s[1..][d] == y;
    assert s[d + 1] == y;
  }

  lemma InsertedAt<T>(t: seq<T>, x: T, k: nat, i: nat)
    requires k <= |t| && i <= |t|
    ensures (t[..k] + [x] + t[k..])[i] == if i < k then t[i] else if i == k then x else t[i - 1]
  {
  }

  /** Elements the comparator ties keep their original order. */
  lemma {:induction false} SortStable<T(!new)>(s: seq<T>, leq: (T, T) -> bool, i: nat, j: nat)
    requires i < j < |s| && leq(StableSort(s, leq)[j], StableSort(s, leq)[i])
    ensures Precedes(s, StableSort(s, leq)[i], StableSort(s, leq)[j])
  {
    var t := StableSort(s[1..], leq);
    var k := InsertShape(s[0], t, leq);
    InsertedAt(t, s[0], k, i);
    InsertedAt(t, s[0], k, j);
    if i == k {
      PrecedesHead(s, t[j - 1]);
    } else {
      var a, b := if i < k then i else i - 1, if j < k then j else j - 1;
      SortStable(s[1..], leq, a, b);
      PrecedesTail(s, t[a], t[b]);
    }
  }
}
