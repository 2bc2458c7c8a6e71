/** Sequences that are others with some elements left out. */
module Subsequence {
  import opened Sorting

  predicate Sub<T(==)>(xs: seq<T>, ys: seq<T>) {
    xs == [] || (ys != [] && ((xs[0] == ys[0] && Sub(xs[1..], ys[1..])) || Sub(xs, ys[1..])))
  }

  lemma SubSkip<T>(xs: seq<T>, y: T, ys: seq<T>)
    requires Sub(xs, ys)
    ensures Sub(xs, [y] + ys)
  {
    assert ([y] + ys)[1..] == ys;
  }

  lemma SubCons<T>(x: T, xs: seq<T>, ys: seq<T>)
    requires Sub(xs, ys)
    ensures Sub([x] + xs, [x] + ys)
  {
    assert ([x] + xs)[1..] == xs && ([x] + ys)[1..] == ys;
  }

  lemma {:induction false} SubSelf<T>(xs: seq<T>)
    ensures Sub(xs, xs)
  {
    if xs != [] { SubSelf(xs[1..]); }
  }

  lemma {:induction false} SubThrough<T>(xs: seq<T>, ys: seq<T>, zs: seq<T>)
    requires Sub(xs, ys) && Sub(ys, zs)
    ensures Sub(xs, zs)
    decreases |zs|
  {
    if xs != [] {
      assert zs == [zs[0]] + zs[1..];
      if ys[0] == zs[0] && Sub(ys[1..], zs[1..]) {
        if xs[0] == ys[0] && Sub(xs[1..], ys[1..]) {
          SubThrough(xs[1..], ys[1..], zs[1..]);
        } else {
          SubThrough(xs, ys[1..], zs[1..]);
        }
      } else {
        SubThrough(xs, ys, zs[1..]);
      }
    }
  }

  lemma {:induction false} SubBoth<T>(a: seq<T>, b: seq<T>, c: seq<T>, d: seq<T>)
    requires Sub(a, b) && Sub(c, d)
    ensures Sub(a + c, b + d)
    decreases |b|
  {
    if b == [] {
      assert a + c == c && b + d == d;
    } else if a == [] {
      SubBoth(a, b[1..], c, d);
      SubSkip(a + c, b[0], b[1..] + d);
      assert [b[0]] + (b[1..] + d) == b + d;
    } else {
      assert [b[0]] + (b[1..] + d) == b + d && [a[0]] + (a[1..] + c) == a + c;
      if a[0] == b[0] && Sub(a[1..], b[1..]) {
        SubBoth(a[1..], b[1..], c, d);
        SubCons(a[0], a[1..] + c, b[1..] + d);
      } else {
        SubBoth(a, b[1..], c, d);
        SubSkip(a + c, b[0], b[1..] + d);
      }
    }
  }

  lemma {:induction false} SubIn<T>(xs: seq<T>, ys: seq<T>)
    requires Sub(xs, ys)
    ensures forall x :: x in xs ==> x in ys
  {
    if xs != [] {
      assert forall y :: y in ys[1..] ==> y in ys;
      if xs[0] == ys[0] && Sub(xs[1..], ys[1..]) {
        SubIn(xs[1..], ys[1..]);
        forall x | x in xs ensures x in ys { assert x == xs[0] || x in xs[1..]; }
      } else {
        SubIn(xs, ys[1..]);
      }
    }
  }

  lemma {:induction false} SubShorter<T>(xs: seq<T>, ys: seq<T>)
    requires Sub(xs, ys)
    ensures |xs| <= |ys|
  {
    if xs != [] {
      if xs[0] == ys[0] && Sub(xs[1..], ys[1..]) { SubShorter(xs[1..], ys[1..]); } else { SubShorter(xs, ys[1..]); }
    }
  }

  predicate Unequal<T(==)>(xs: seq<T>) {
    forall i, j :: 0 <= i < j < |xs| ==> xs[i] != xs[j]
  }

  lemma {:induction false} SubUnequal<T>(xs: seq<T>, ys: seq<T>)
    requires Sub(xs, ys) && Unequal(ys)
    ensures Unequal(xs)
  {
    if xs != [] {
      if xs[0] == ys[0] && Sub(xs[1..], ys[1..]) {
        SubUnequal(xs[1..], ys[1..]);
        SubIn(xs[1..], ys[1..]);
        forall j | 0 < j < |xs| ensures xs[0] != xs[j] { assert xs[1..][j - 1] in ys[1..]; }
      } else {
        SubUnequal(xs, ys[1..]);
      }
    }
  }

  lemma SubSnoc<T>(xs: seq<T>, ys: seq<T>, y: T)
    requires Sub(xs, ys)
    ensures Sub(xs, ys + [y]) && Sub(xs + [y], ys + [y])
  {
    SubBoth(xs, ys, [], [y]);
    assert xs + [] == xs;
    SubSelf([y]);
    SubBoth(xs, ys, [y], [y]);
  }

  // ---- under a stable sort -----------------------------------------------------------------

  lemma {:induction false} SubInsert<T(!new)>(xs: seq<T>, ys: seq<T>, x: T, le: (T, T) -> bool)
    requires TotalPreorder(le) && SortedBy(ys, le) && Sub(xs, ys)
    ensures Sub(Insert(xs, x, le), Insert(ys, x, le)) && Sub(xs, Insert(ys, x, le))
  {
    if ys == [] {
      assert xs == [];
      SubSelf([x]);
    } else if le(x, ys[0]) {
      SubSkip(xs, x, ys);
      SubCons(x, xs, ys);
      if xs != [] { SubLeast(xs, ys, x, le); } else { assert [x] + xs == [x]; }
    } else {
      var rest := Insert(ys[1..], x, le);
      if xs != [] && xs[0] == ys[0] && Sub(xs[1..], ys[1..]) {
        SubInsert(xs[1..], ys[1..], x, le);
        SubCons(xs[0], Insert(xs[1..], x, le), rest);
        SubCons(xs[0], xs[1..], rest);
        assert [xs[0]] + xs[1..] == xs;
      } else {
        SubInsert(xs, ys[1..], x, le);
        SubSkip(Insert(xs, x, le), ys[0], rest);
        SubSkip(xs, ys[0], rest);
      }
    }
  }

  lemma SubLeast<T(!new)>(xs: seq<T>, ys: seq<T>, x: T, le: (T, T) -> bool)
    requires TotalPreorder(le) && SortedBy(ys, le) && Sub(xs, ys) && xs != [] && ys != [] && le(x, ys[0])
    ensures le(x, xs[0])
  {
    SubIn(xs, ys);
    assert xs[0] in ys;
    var i :| 0 <= i < |ys| && ys[i] == xs[0];
    assert le(ys[0], ys[0]) && le(ys[0], ys[i]);
  }

  lemma {:induction false} SubSort<T(!new)>(xs: seq<T>, ys: seq<T>, le: (T, T) -> bool)
    requires TotalPreorder(le) && Sub(xs, ys)
    ensures Sub(Sort(xs, le), Sort(ys, le))
  {
    if xs != [] {
      SortSorts(ys[1..], le);
      if xs[0] == ys[0] && Sub(xs[1..], ys[1..]) {
        SubSort(xs[1..], ys[1..], le);
        SubInsert(Sort(xs[1..], le), Sort(ys[1..], le), ys[0], le);
      } else {
        SubSort(xs, ys[1..], le);
        SubInsert(Sort(xs, le), Sort(ys[1..], le), ys[0], le);
      }
    }
  }
}
