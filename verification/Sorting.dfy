/** What the C library's qsort promises, and the orders it is called with: the
    result is some sorted rearrangement, nothing more. */
module Sorting {

  ghost predicate TotalPreorder<T(!new)>(le: (T, T) -> bool) {
    && (forall x, y :: le(x, y) || le(y, x))
    && (forall x, y, z :: le(x, y) && le(y, z) ==> le(x, z))
  }

  ghost predicate AntiSymmetric<T(!new)>(le: (T, T) -> bool) {
    forall x, y :: le(x, y) && le(y, x) ==> x == y
  }

  predicate SortedBy<T>(xs: seq<T>, le: (T, T) -> bool) {
    forall i, j :: 0 <= i < j < |xs| ==> le(xs[i], xs[j])
  }

  predicate Rearranges<T(==)>(xs: seq<T>, ys: seq<T>) {
    multiset(xs) == multiset(ys)
  }

  ghost function Insert<T>(xs: seq<T>, x: T, le: (T, T) -> bool): seq<T> {
    if xs == [] then [x]
    else if le(x, xs[0]) then [x] + xs
    else [xs[0]] + Insert(xs[1..], x, le)
  }

  ghost function Sort<T>(xs: seq<T>, le: (T, T) -> bool): seq<T> {
    if xs == [] then [] else Insert(Sort(xs[1..], le), xs[0], le)
  }

  lemma {:induction false} InsertAdds<T>(xs: seq<T>, x: T, le: (T, T) -> bool)
    ensures multiset(Insert(xs, x, le)) == multiset(xs) + multiset{x}
  {
    if xs != [] {
      assert xs == [xs[0]] + xs[1..];
      if !le(x, xs[0]) { InsertAdds(xs[1..], x, le); }
    }
  }

  lemma {:induction false} InsertSorts<T(!new)>(xs: seq<T>, x: T, le: (T, T) -> bool)
    requires TotalPreorder(le) && SortedBy(xs, le)
    ensures SortedBy(Insert(xs, x, le), le)
  {
    if xs != [] {
      if le(x, xs[0]) {
        assert le(xs[0], xs[0]);
        forall j | 0 <= j < |xs| ensures le(x, xs[j]) { assert le(xs[0], xs[j]); }
      } else {
        var r := Insert(xs[1..], x, le);
        InsertSorts(xs[1..], x, le);
        InsertAdds(xs[1..], x, le);
        forall j | 0 <= j < |r| ensures le(xs[0], r[j]) {
          assert r[j] in multiset(r);
          assert r[j] == x || r[j] in xs[1..];
        }
      }
    }
  }

  lemma {:induction false} SortSorts<T(!new)>(xs: seq<T>, le: (T, T) -> bool)
    requires TotalPreorder(le)
    ensures SortedBy(Sort(xs, le), le) && Rearranges(Sort(xs, le), xs)
  {
    if xs != [] {
      SortSorts(xs[1..], le);
      InsertSorts(Sort(xs[1..], le), xs[0], le);
      InsertAdds(Sort(xs[1..], le), xs[0], le);
      assert xs == [xs[0]] + xs[1..];
    }
  }

  /** No two different elements of xs tie. */
  ghost predicate NoTies<T(!new)>(xs: seq<T>, le: (T, T) -> bool) {
    forall x, y :: x in xs && y in xs && le(x, y) && le(y, x) ==> x == y
  }

  /** With no ties the sorted rearrangement is unique. */
  lemma {:induction false} SortedIsUnique<T(!new)>(xs: seq<T>, ys: seq<T>, le: (T, T) -> bool)
    requires TotalPreorder(le) && NoTies(xs, le)
    requires SortedBy(xs, le) && SortedBy(ys, le) && Rearranges(xs, ys)
    ensures xs == ys
  {
    assert |multiset(xs)| == |multiset(ys)|;
    if xs != [] {
      SameHead(xs, ys, le);
      TailRearranges(xs, ys);
      assert xs == [xs[0]] + xs[1..] && ys == [ys[0]] + ys[1..];
      SortedIsUnique(xs[1..], ys[1..], le);
    }
  }

  lemma SameHead<T(!new)>(xs: seq<T>, ys: seq<T>, le: (T, T) -> bool)
    requires TotalPreorder(le) && NoTies(xs, le) && xs != [] && ys != []
    requires SortedBy(xs, le) && SortedBy(ys, le) && Rearranges(xs, ys)
    ensures xs[0] == ys[0]
  {
    assert xs[0] in multiset(xs) && ys[0] in multiset(ys);
    var i :| 0 <= i < |xs| && xs[i] == ys[0];
    var j :| 0 <= j < |ys| && ys[j] == xs[0];
    assert le(xs[0], xs[0]) && le(ys[0], ys[0]);
    assert le(xs[0], xs[i]) && le(ys[0], ys[j]);
  }

  lemma TailRearranges<T>(xs: seq<T>, ys: seq<T>)
    requires xs != [] && ys != [] && xs[0] == ys[0] && Rearranges(xs, ys)
    ensures Rearranges(xs[1..], ys[1..])
  {
    assert xs == [xs[0]] + xs[1..] && ys == [ys[0]] + ys[1..];
    assert multiset(xs[1..]) == multiset(xs) - multiset{xs[0]};
    assert multiset(ys[1..]) == multiset(ys) - multiset{ys[0]};
  }

  /** qsort: any sorted rearrangement may come back. */
  method Qsort<T(==,!new)>(xs: seq<T>, le: (T, T) -> bool) returns (ys: seq<T>)
    requires TotalPreorder(le)
    ensures SortedBy(ys, le) && Rearranges(ys, xs)
  {
    SortSorts(xs, le);
    ys :| SortedBy(ys, le) && Rearranges(ys, xs);
  }

  // ---- lexicographic order --------------------------------------------------

  predicate LexLe(a: string, b: string) {
    a == "" || (b != "" && (a[0] < b[0] || (a[0] == b[0] && LexLe(a[1..], b[1..]))))
  }

  lemma {:induction false} LexTotal(a: string, b: string)
    ensures LexLe(a, b) || LexLe(b, a)
  {
    if a != "" && b != "" && a[0] == b[0] { LexTotal(a[1..], b[1..]); }
  }

  lemma {:induction false} LexTransitive(a: string, b: string, c: string)
    requires LexLe(a, b) && LexLe(b, c)
    ensures LexLe(a, c)
  {
    if a != "" && a[0] == b[0] == c[0] { LexTransitive(a[1..], b[1..], c[1..]); }
  }

  lemma {:induction false} LexAntiSymmetric(a: string, b: string)
    requires LexLe(a, b) && LexLe(b, a)
    ensures a == b
  {
    if a != "" {
      LexAntiSymmetric(a[1..], b[1..]);
      assert a == [a[0]] + a[1..] && b == [b[0]] + b[1..];
    }
  }
}
