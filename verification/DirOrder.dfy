/** What the listing is worth: it does not depend on the order the system enumerates
    directories in, names each directory once, and keeps within the depth cap. */
module DirOrder {
  import opened TclValues
  import opened Sorting
  import opened Subsequence
  import opened DirTree
  import opened DirTrail
  import opened DirWalk

  // ---- enumeration order ---------------------------------------------------------------

  /** The same tree, every directory enumerated in whatever order. */
  ghost predicate Reordered(t: Tree, u: Tree)
    decreases t
  {
    && t.name == u.name && t.tag == u.tag && t.now == u.now
    && exists mid: seq<Tree> :: |mid| == |t.kids| && Rearranges(mid, u.kids)
         && forall i :: 0 <= i < |mid| ==> Reordered(t.kids[i], mid[i])
  }

  ghost predicate Pairwise(xs: seq<Tree>, ys: seq<Tree>) {
    |xs| == |ys| && forall i :: 0 <= i < |xs| ==> Reordered(xs[i], ys[i])
  }

  lemma SameHead(t: Tree, u: Tree)
    requires Reordered(t, u)
    ensures t.name == u.name && t.tag == u.tag && t.now == u.now
  {
  }

  lemma {:induction false} NamedPairwise(xs: seq<Tree>, ys: seq<Tree>)
    requires Pairwise(xs, ys)
    ensures Pairwise(Named(xs), Named(ys))
  {
    if xs != [] {
      hide Reordered;
      var n := |xs| - 1;
      NamedPairwise(xs[..n], ys[..n]);
      SameHead(xs[n], ys[n]);
    }
  }

  lemma {:induction false} InsertPairwise(xs: seq<Tree>, ys: seq<Tree>, x: Tree, y: Tree)
    requires Pairwise(xs, ys) && Reordered(x, y)
    ensures Pairwise(Insert(xs, x, NameLe), Insert(ys, y, NameLe))
  {
    hide Reordered;
    SameHead(x, y);
    if xs != [] {
      SameHead(xs[0], ys[0]);
      assert Pairwise(xs[1..], ys[1..]);
      InsertPairwise(xs[1..], ys[1..], x, y);
    }
  }

  lemma {:induction false} SortPairwise(xs: seq<Tree>, ys: seq<Tree>)
    requires Pairwise(xs, ys)
    ensures Pairwise(Sort(xs, NameLe), Sort(ys, NameLe))
  {
    if xs != [] {
      hide Reordered;
      assert Pairwise(xs[1..], ys[1..]);
      SortPairwise(xs[1..], ys[1..]);
      InsertPairwise(Sort(xs[1..], NameLe), Sort(ys[1..], NameLe), xs[0], ys[0]);
    }
  }

  lemma {:induction false} NamedCount(ks: seq<Tree>, x: Tree)
    ensures multiset(Named(ks))[x] == if x.name.Some? then multiset(ks)[x] else 0
  {
    if ks != [] {
      var front, last := ks[..|ks| - 1], ks[|ks| - 1];
      NamedCount(front, x);
      assert ks == front + [last];
    }
  }

  lemma NamedRearranges(xs: seq<Tree>, ys: seq<Tree>)
    requires Rearranges(xs, ys)
    ensures Rearranges(Named(xs), Named(ys))
  {
    forall x ensures multiset(Named(xs))[x] == multiset(Named(ys))[x] {
      NamedCount(xs, x);
      NamedCount(ys, x);
    }
  }

  lemma PairwiseOwn(xs: seq<Tree>, ys: seq<Tree>)
    requires Pairwise(xs, ys) && OwnNames(xs)
    ensures OwnNames(ys)
  {
    hide Reordered;
    forall i, j | 0 <= i < j < |ys| && ys[i].name.Some? ensures ys[i].name != ys[j].name {
      SameHead(xs[i], ys[i]);
      SameHead(xs[j], ys[j]);
    }
  }

  /** The sorted siblings correspond one to one. */
  lemma SiblingsPairwise(t: Tree, u: Tree)
    requires Reordered(t, u) && OwnNames(t.kids)
    ensures Pairwise(Siblings(t.kids), Siblings(u.kids))
  {
    var mid: seq<Tree> :| |mid| == |t.kids| && Rearranges(mid, u.kids)
      && forall i :: 0 <= i < |mid| ==> Reordered(t.kids[i], mid[i]);
    assert Pairwise(t.kids, mid);
    hide Reordered;
    NamedPairwise(t.kids, mid);
    SortPairwise(Named(t.kids), Named(mid));
    PairwiseOwn(t.kids, mid);
    NamedRearranges(u.kids, mid);
    NameOrders();
    SortSorts(Named(u.kids), NameLe);
    SiblingsUnique(mid, Siblings(u.kids));
  }

  lemma {:induction false} ReorderedSize(t: Tree, u: Tree)
    requires Reordered(t, u)
    ensures Size(t) == Size(u)
    decreases t, 1
  {
    var mid: seq<Tree> :| |mid| == |t.kids| && Rearranges(mid, u.kids)
      && forall i :: 0 <= i < |mid| ==> Reordered(t.kids[i], mid[i]);
    SizesRearranged(u.kids, mid);
    PairwiseSizes(t.kids, mid);
  }

  lemma {:induction false} PairwiseSizes(xs: seq<Tree>, ys: seq<Tree>)
    requires Pairwise(xs, ys)
    ensures Sizes(xs) == Sizes(ys)
    decreases xs, 0
  {
    if xs != [] {
      hide Reordered, Size;
      var n := |xs| - 1;
      PairwiseSizes(xs[..n], ys[..n]);
      ReorderedSize(xs[n], ys[n]);
    }
  }

  /** The order in which the system hands out directory entries never shows. */
  lemma {:induction false} ListingIgnoresOrder(it: Item, u: Tree, pol: Policy)
    requires Reordered(it.tree, u) && Proper(it.tree)
    ensures Listing(it, pol) == Listing(it.(tree := u), pol)
    decreases Size(it.tree), 0
  {
    var jt := it.(tree := u);
    SameHead(it.tree, u);
    assert VisitOf(it, pol) == VisitOf(jt, pol);
    SiblingsPairwise(it.tree, u);
    SiblingsSmaller(it.tree);
    KidsProper(it.tree);
    hide Reordered, Siblings, VisitOf, Fate;
    assert Fate(it, pol) == Fate(jt, pol) by { SameFate(it, u, pol); }
    ListingsIgnoreOrder(it, u, Siblings(it.tree.kids), Siblings(u.kids), pol);
  }

  lemma SameFate(it: Item, u: Tree, pol: Policy)
    requires it.tree.now == u.now
    ensures Fate(it, pol) == Fate(it.(tree := u), pol)
  {
  }

  lemma {:induction false} ListingsIgnoreOrder(it: Item, u: Tree, ks: seq<Tree>, ls: seq<Tree>, pol: Policy)
    requires Pairwise(ks, ls) && |ks| == |ls| && forall i :: 0 <= i < |ks| ==> Proper(ks[i])
    ensures Listings(it, ks, pol) == Listings(it.(tree := u), ls, pol)
    decreases Sizes(ks), 1 + |ks|
  {
    if ks == [] {
      ListingsNone(it, pol);
      ListingsNone(it.(tree := u), pol);
    } else {
      hide Reordered, Listing, Listings, Proper, Sizes, ChildItem, Pairwise, Size;
      SizesHead(ks);
      PairwiseTail(ks, ls);
      SameChild(it, u, ks[0], ls[0], pol);
      ListingsHead(it, ks, pol);
      ListingsHead(it.(tree := u), ls, pol);
      ListingIgnoresOrder(ChildItem(it, ks[0], pol), ls[0], pol);
      ListingsIgnoreOrder(it, u, ks[1..], ls[1..], pol);
    }
  }

  lemma PairwiseTail(ks: seq<Tree>, ls: seq<Tree>)
    requires Pairwise(ks, ls) && ks != []
    ensures ls != [] && Reordered(ks[0], ls[0]) && Pairwise(ks[1..], ls[1..]) && |ks[1..]| == |ls[1..]|
  {
    hide Reordered;
  }

  lemma ListingsNone(it: Item, pol: Policy)
    ensures Listings(it, [], pol) == []
  {
  }

  lemma ListingsHead(it: Item, ks: seq<Tree>, pol: Policy)
    requires ks != []
    ensures Listings(it, ks, pol) == Listing(ChildItem(it, ks[0], pol), pol) + Listings(it, ks[1..], pol)
  {
    hide Listing;
  }

  lemma SameChild(it: Item, u: Tree, k: Tree, l: Tree, pol: Policy)
    requires Reordered(k, l)
    ensures ChildItem(it, k, pol).(tree := l) == ChildItem(it.(tree := u), l, pol)
    ensures ChildItem(it, k, pol).tree == k
  {
  }

  // ---- the depth cap -------------------------------------------------------------------

  /** Nothing below the cap is listed, and what stands at the cap says so. */
  lemma {:induction false} ListingWithinCap(it: Item, pol: Policy)
    requires pol.depthcap >= 0 && it.depth <= pol.depthcap
    ensures forall i :: 0 <= i < |Listing(it, pol)| ==>
      it.depth <= Listing(it, pol)[i].depth <= pol.depthcap
      && (Listing(it, pol)[i].depth == pol.depthcap <==> Listing(it, pol)[i].action == DepthLimited)
    decreases Size(it.tree), 0
  {
    SiblingsSmaller(it.tree);
    if Fate(it, pol) == Descended {
      hide Siblings;
      ListingsWithinCap(it, Siblings(it.tree.kids), pol);
    }
  }

  lemma {:induction false} ListingsWithinCap(it: Item, ks: seq<Tree>, pol: Policy)
    requires pol.depthcap >= 0 && it.depth < pol.depthcap
    ensures forall i :: 0 <= i < |Listings(it, ks, pol)| ==>
      it.depth < Listings(it, ks, pol)[i].depth <= pol.depthcap
      && (Listings(it, ks, pol)[i].depth == pol.depthcap <==> Listings(it, ks, pol)[i].action == DepthLimited)
    decreases Sizes(ks), 1 + |ks|
  {
    if ks != [] {
      hide Listing, Sizes;
      SizesHead(ks);
      ListingsHead(it, ks, pol);
      ListingWithinCap(ChildItem(it, ks[0], pol), pol);
      ListingsWithinCap(it, ks[1..], pol);
    }
  }

  // ---- each directory once ----------------------------------------------------------------

  /** A name that is one path component. */
  predicate Component(name: string) {
    name != "" && forall i :: 0 <= i < |name| ==> name[i] != '\\' && name[i] != '/'
  }

  predicate Components(t: Tree)
    decreases t
  {
    forall i :: 0 <= i < |t.kids| ==>
      (t.kids[i].name.Some? ==> Component(t.kids[i].name.value)) && Components(t.kids[i])
  }

  /** What dirs_prefix leaves in front: \\?\ (a drive root is \\?\C:\), or \\?\UNC\ for a share. */
  predicate Prefixed(path: string, unc: bool) {
    |path| >= if unc then 8 else 4
  }

  /** Where the paths below a directory begin. */
  function Base(path: string, unc: bool): string {
    Strip(path, unc) + if path != "" && path[|path| - 1] == '\\' then "" else "/"
  }

  lemma Associates(a: string, b: string, c: string)
    ensures a + b + c == a + (b + c)
  {
  }

  lemma {:induction false} SlashesJoin(a: string, b: string)
    ensures Slashes(a + b) == Slashes(a) + Slashes(b)
  {
    if a == "" {
      assert a + b == b;
    } else {
      SlashesJoin(a[1..], b);
      assert (a + b)[1..] == a[1..] + b;
      var first := [if a[0] == '\\' then '/' else a[0]];
      Associates(first, Slashes(a[1..]), Slashes(b));
    }
  }

  lemma {:induction false} SlashesSame(name: string)
    requires forall i :: 0 <= i < |name| ==> name[i] != '\\'
    ensures Slashes(name) == name
  {
    if name != "" { SlashesSame(name[1..]); }
  }

  lemma StripJoin(path: string, rest: string, unc: bool)
    requires Prefixed(path, unc)
    ensures Strip(path + rest, unc) == Strip(path, unc) + Slashes(rest)
  {
    var n := if unc then 8 else 4;
    assert (path + rest)[n..] == path[n..] + rest;
    SlashesJoin(path[n..], rest);
    if unc { assert "//" + (Slashes(path[n..]) + Slashes(rest)) == "//" + Slashes(path[n..]) + Slashes(rest); }
  }

  /** A child's path is its parent's and its name. */
  lemma ChildPath(path: string, name: string, unc: bool)
    requires Prefixed(path, unc) && Component(name)
    ensures Strip(Join(path, name), unc) == Base(path, unc) + name
    ensures Base(Join(path, name), unc) == Base(path, unc) + name + "/"
    ensures Prefixed(Join(path, name), unc)
  {
    hide Strip;
    if path[|path| - 1] == '\\' {
      ChildAfterSlash(path, name, unc);
    } else {
      ChildAfterName(path, name, unc);
    }
    assert Join(path, name)[|Join(path, name)| - 1] == name[|name| - 1];
  }

  lemma ChildAfterSlash(path: string, name: string, unc: bool)
    requires Prefixed(path, unc) && Component(name) && path[|path| - 1] == '\\'
    ensures Join(path, name) == path + name && Strip(Join(path, name), unc) == Base(path, unc) + name
  {
    hide Strip, Slashes;
    assert path + "" == path && Strip(path, unc) + "" == Strip(path, unc);
    SlashesSame(name);
    StripJoin(path, name, unc);
  }

  lemma ChildAfterName(path: string, name: string, unc: bool)
    requires Prefixed(path, unc) && Component(name) && path[|path| - 1] != '\\'
    ensures Join(path, name) == path + "\\" + name && Strip(Join(path, name), unc) == Base(path, unc) + name
  {
    hide Strip, Slashes, Component;
    assert Join(path, name) == path + ("\\" + name);
    SlashedName(name);
    StripJoin(path, "\\" + name, unc);
    assert Strip(path, unc) + ("/" + name) == Strip(path, unc) + "/" + name;
  }

  lemma SlashedName(name: string)
    requires Component(name)
    ensures Slashes("\\" + name) == "/" + name
  {
    SlashesSame(name);
    assert ("\\" + name)[1..] == name;
  }

  /** s is the directory's own path, or lies below it. */
  predicate Below(s: string, own: string, base: string) {
    s == own || (|s| > |base| && s[..|base|] == base)
  }

  predicate AllBelow(vs: seq<Visit>, own: string, base: string) {
    forall i :: 0 <= i < |vs| ==> vs[i].shown.Some? && Below(vs[i].shown.value, own, base)
  }

  predicate Within(s: string, base: string) {
    |s| > |base| && s[..|base|] == base
  }

  /** Strictly below a directory. */
  predicate AllUnder(vs: seq<Visit>, base: string) {
    forall i :: 0 <= i < |vs| ==> vs[i].shown.Some? && Within(vs[i].shown.value, base)
  }

  lemma BelowChild(s: string, base: string, name: string)
    requires name != "" && Below(s, base + name, base + name + "/")
    ensures |s| > |base| && s[..|base|] == base
  {
    if s != base + name {
      assert s[..|base|] == s[..|base + name + "/"|][..|base|];
    }
  }

  lemma {:induction false} ListingBelow(it: Item, pol: Policy)
    requires Prefixed(it.path, pol.unc) && Components(it.tree)
    ensures AllBelow(Listing(it, pol), Strip(it.path, pol.unc), Base(it.path, pol.unc))
    decreases Size(it.tree), 0
  {
    hide Siblings, Strip, Base, Below, Components, Component, Prefixed, Listings, AllUnder;
    SiblingsSmaller(it.tree);
    OwnIsBelow(VisitOf(it, pol), [], Strip(it.path, pol.unc), Base(it.path, pol.unc));
    if Fate(it, pol) == Descended {
      SiblingsComponents(it.tree);
      ListingsUnder(it, Siblings(it.tree.kids), pol);
      var vs := Listings(it, Siblings(it.tree.kids), pol);
      OwnIsBelow(VisitOf(it, pol), vs, Strip(it.path, pol.unc), Base(it.path, pol.unc));
    }
  }

  lemma OwnIsBelow(v: Visit, vs: seq<Visit>, own: string, base: string)
    ensures v.shown == Some(own) ==>
      AllBelow([v] + [], own, base) && (AllUnder(vs, base) ==> AllBelow([v] + vs, own, base))
  {
  }

  predicate GoodKids(ks: seq<Tree>) {
    forall i :: 0 <= i < |ks| ==> ks[i].name.Some? && Component(ks[i].name.value) && Components(ks[i])
  }

  lemma SiblingsComponents(t: Tree)
    requires Components(t)
    ensures GoodKids(Siblings(t.kids))
  {
    NameOrders();
    SortSorts(Named(t.kids), NameLe);
    forall i | 0 <= i < |Siblings(t.kids)|
      ensures Siblings(t.kids)[i].name.Some? && Components(Siblings(t.kids)[i])
      ensures Component(Siblings(t.kids)[i].name.value)
    {
      assert Siblings(t.kids)[i] in multiset(Siblings(t.kids));
      NamedHave(t.kids, Siblings(t.kids)[i]);
    }
  }

  lemma {:induction false} ListingsUnder(it: Item, ks: seq<Tree>, pol: Policy)
    requires Prefixed(it.path, pol.unc) && GoodKids(ks)
    ensures AllUnder(Listings(it, ks, pol), Base(it.path, pol.unc))
    decreases Sizes(ks), 1 + |ks|
  {
    if ks == [] {
      ListingsNone(it, pol);
    } else {
      hide Listing, Listings, Sizes, Component, Components, Strip, Base, Prefixed;
      SizesHead(ks);
      ListingsHead(it, ks, pol);
      var c := ChildItem(it, ks[0], pol);
      ChildUnder(it, ks[0], pol);
      ListingsUnder(it, ks[1..], pol);
    }
  }

  lemma ChildUnder(it: Item, k: Tree, pol: Policy)
    requires Prefixed(it.path, pol.unc) && k.name.Some? && Component(k.name.value) && Components(k)
    ensures AllUnder(Listing(ChildItem(it, k, pol), pol), Base(it.path, pol.unc))
    ensures var own := Base(it.path, pol.unc) + k.name.value;
      AllBelow(Listing(ChildItem(it, k, pol), pol), own, own + "/")
    ensures Prefixed(ChildItem(it, k, pol).path, pol.unc)
    decreases Size(k), 1
  {
    hide Listing, Strip, Base, Components, Prefixed;
    ChildPath(it.path, k.name.value, pol.unc);
    var c := ChildItem(it, k, pol);
    ListingBelow(c, pol);
    var vs := Listing(c, pol);
    forall i | 0 <= i < |vs|
      ensures Within(vs[i].shown.value, Base(it.path, pol.unc))
    {
      BelowChild(vs[i].shown.value, Base(it.path, pol.unc), k.name.value);
    }
  }

  predicate Once(vs: seq<Visit>) {
    forall i, j :: 0 <= i < j < |vs| ==> vs[i].shown != vs[j].shown
  }

  /** Paths of different children never meet. */
  lemma ApartAt(s: string, base: string, m: string, n: string)
    requires Component(m) && Component(n)
    requires Below(s, base + m, base + m + "/") && Below(s, base + n, base + n + "/")
    ensures m == n
  {
    BelowChild(s, base, m);
    var t := s[|base|..];
    Segment(s, base, m, t);
    Segment(s, base, n, t);
    NotShorter(t, m, n);
    NotShorter(t, n, m);
    assert m == t[..|m|] == n;
  }

  lemma NotShorter(t: string, m: string, n: string)
    requires Component(n) && |t| >= |m| && |t| >= |n| && t[..|n|] == n
    requires |t| > |m| ==> t[|m|] == '/'
    ensures |m| >= |n|
  {
    hide Component;
    if |m| < |n| {
      assert t[|m|] == n[|m|];
      NoSlashAt(n, |m|);
    }
  }

  lemma NoSlashAt(n: string, i: nat)
    requires Component(n) && i < |n|
    ensures n[i] != '/'
  {
  }

  lemma Segment(s: string, base: string, m: string, t: string)
    requires Below(s, base + m, base + m + "/") && |s| >= |base| && t == s[|base|..]
    ensures |t| >= |m| && t[..|m|] == m && (|t| > |m| ==> t[|m|] == '/')
  {
    if s == base + m {
      assert t == m;
    } else {
      var b := base + m + "/";
      assert s == b + s[|b|..];
      assert t == m + "/" + s[|b|..];
    }
  }

  /** No directory is listed twice. */
  lemma {:induction false} ListingOnce(it: Item, pol: Policy)
    requires Prefixed(it.path, pol.unc) && Components(it.tree) && Proper(it.tree)
    ensures Once(Listing(it, pol))
    decreases Size(it.tree), 0
  {
    SiblingsSmaller(it.tree);
    if Fate(it, pol) == Descended {
      SiblingsComponents(it.tree);
      KidsProper(it.tree);
      SiblingsDiffer(it.tree);
      hide Siblings, Strip;
      ListingsOnce(it, Siblings(it.tree.kids), pol);
      ListingsUnder(it, Siblings(it.tree.kids), pol);
      OwnIsApart(VisitOf(it, pol), Listings(it, Siblings(it.tree.kids), pol), Base(it.path, pol.unc));
    }
  }

  lemma OwnIsApart(v: Visit, vs: seq<Visit>, base: string)
    requires Once(vs) && AllUnder(vs, base) && v.shown.Some? && |v.shown.value| <= |base|
    ensures Once([v] + vs)
  {
  }

  predicate NamesDiffer(ks: seq<Tree>) {
    forall i, j :: 0 <= i < j < |ks| ==> ks[i].name != ks[j].name
  }

  lemma SiblingsDiffer(t: Tree)
    requires Proper(t)
    ensures NamesDiffer(Siblings(t.kids))
  {
    NameOrders();
    NamedDiffer(t.kids);
    SortDiffer(Named(t.kids));
  }

  lemma {:induction false} NamedDiffer(ks: seq<Tree>)
    requires OwnNames(ks)
    ensures NamesDiffer(Named(ks))
  {
    if ks != [] {
      var front, last := ks[..|ks| - 1], ks[|ks| - 1];
      NamedDiffer(front);
      forall i | 0 <= i < |Named(front)| ensures last.name.Some? ==> Named(front)[i].name != last.name {
        NamedHave(front, Named(front)[i]);
        var j :| 0 <= j < |front| && front[j] == Named(front)[i];
        assert ks[j] == front[j];
      }
    }
  }

  lemma {:induction false} InsertDiffer(ks: seq<Tree>, k: Tree)
    requires NamesDiffer(ks) && forall i :: 0 <= i < |ks| ==> ks[i].name != k.name
    ensures NamesDiffer(Insert(ks, k, NameLe))
  {
    if ks != [] && !NameLe(k, ks[0]) {
      InsertDiffer(ks[1..], k);
      InsertAdds(ks[1..], k, NameLe);
      var r := Insert(ks[1..], k, NameLe);
      forall i | 0 <= i < |r| ensures r[i].name != ks[0].name {
        assert r[i] in multiset(r);
        assert r[i] == k || r[i] in ks[1..];
      }
    }
  }

  lemma {:induction false} SortDiffer(ks: seq<Tree>)
    requires NamesDiffer(ks)
    ensures NamesDiffer(Sort(ks, NameLe))
  {
    if ks != [] {
      SortDiffer(ks[1..]);
      NameOrders();
      SortSorts(ks[1..], NameLe);
      var s := Sort(ks[1..], NameLe);
      forall i | 0 <= i < |s| ensures s[i].name != ks[0].name {
        assert s[i] in multiset(s);
        assert s[i] in ks[1..];
      }
      InsertDiffer(s, ks[0]);
    }
  }

  lemma {:induction false} ListingsOnce(it: Item, ks: seq<Tree>, pol: Policy)
    requires Prefixed(it.path, pol.unc) && GoodKids(ks) && NamesDiffer(ks)
    requires forall i :: 0 <= i < |ks| ==> Proper(ks[i])
    ensures Once(Listings(it, ks, pol))
    decreases Sizes(ks), 1 + |ks|
  {
    if ks == [] {
      ListingsNone(it, pol);
    } else {
      hide Listing, Listings, Sizes, Component, Components, Strip, Base, Proper, Prefixed;
      SizesHead(ks);
      ListingsHead(it, ks, pol);
      ChildUnder(it, ks[0], pol);
      ListingOnce(ChildItem(it, ks[0], pol), pol);
      ListingsOnce(it, ks[1..], pol);
      ListingsNamed(it, ks[1..], pol);
      var us, vs := Listing(ChildItem(it, ks[0], pol), pol), Listings(it, ks[1..], pol);
      Apart(us, vs, Base(it.path, pol.unc), ks[0].name.value, ks[1..]);
    }
  }

  /** Each visit belongs to one of the kids. */
  predicate FromKids(vs: seq<Visit>, base: string, ks: seq<Tree>) {
    forall i :: 0 <= i < |vs| ==> vs[i].shown.Some? && FromKid(vs[i].shown.value, base, ks)
  }

  predicate FromKid(s: string, base: string, ks: seq<Tree>) {
    exists k :: 0 <= k < |ks| && ks[k].name.Some? && Below(s, base + ks[k].name.value, base + ks[k].name.value + "/")
  }

  lemma {:induction false} ListingsNamed(it: Item, ks: seq<Tree>, pol: Policy)
    requires Prefixed(it.path, pol.unc) && GoodKids(ks)
    ensures FromKids(Listings(it, ks, pol), Base(it.path, pol.unc), ks)
    decreases |ks|
  {
    if ks == [] {
      ListingsNone(it, pol);
    } else {
      hide Listing, Listings, Component, Components, Strip, Base, Below, Prefixed;
      ListingsHead(it, ks, pol);
      ChildUnder(it, ks[0], pol);
      ListingsNamed(it, ks[1..], pol);
      var base := Base(it.path, pol.unc);
      var vs := Listings(it, ks[1..], pol);
      forall i | 0 <= i < |vs| ensures FromKid(vs[i].shown.value, base, ks) {
        var k :| 0 <= k < |ks[1..]| && ks[1..][k].name.Some?
          && Below(vs[i].shown.value, base + ks[1..][k].name.value, base + ks[1..][k].name.value + "/");
        assert ks[k + 1] == ks[1..][k];
      }
      var us := Listing(ChildItem(it, ks[0], pol), pol);
      forall i | 0 <= i < |us| ensures FromKid(us[i].shown.value, base, ks) {
        assert Below(us[i].shown.value, base + ks[0].name.value, base + ks[0].name.value + "/");
      }
    }
  }

  lemma Apart(us: seq<Visit>, vs: seq<Visit>, base: string, name: string, ks: seq<Tree>)
    requires Once(us) && Once(vs) && Component(name) && GoodKids(ks)
    requires AllBelow(us, base + name, base + name + "/") && FromKids(vs, base, ks)
    requires forall k :: 0 <= k < |ks| ==> ks[k].name != Some(name)
    ensures Once(us + vs)
  {
    hide Below, Component, Components;
    forall i, j | 0 <= i < |us| && 0 <= j < |vs| ensures us[i].shown != vs[j].shown {
      if us[i].shown == vs[j].shown {
        var s := us[i].shown.value;
        assert FromKid(s, base, ks);
        var k :| 0 <= k < |ks| && ks[k].name.Some? && Below(s, base + ks[k].name.value, base + ks[k].name.value + "/");
        ApartAt(s, base, name, ks[k].name.value);
      }
    }
  }

  // ---- the whole tree ---------------------------------------------------------------------

  /** Nothing in it is cut: every name is text no pattern matches, and no link. */
  predicate Uncut(t: Tree, pol: Policy)
    decreases t
  {
    forall i :: 0 <= i < |t.kids| ==>
      && t.kids[i].name.Some? && !pol.prune(t.kids[i].name.value)
      && !NoEnter(t.kids[i].tag) && !NoEnter(t.kids[i].now)
      && Uncut(t.kids[i], pol)
  }

  predicate UncutKids(ks: seq<Tree>, pol: Policy) {
    forall i :: 0 <= i < |ks| ==>
      && ks[i].name.Some? && !pol.prune(ks[i].name.value)
      && !NoEnter(ks[i].tag) && !NoEnter(ks[i].now)
      && Uncut(ks[i], pol)
  }

  lemma {:induction false} AllNamed(ks: seq<Tree>)
    requires forall i :: 0 <= i < |ks| ==> ks[i].name.Some?
    ensures Named(ks) == ks
  {
    if ks != [] {
      AllNamed(ks[..|ks| - 1]);
      assert ks == ks[..|ks| - 1] + [ks[|ks| - 1]];
    }
  }

  lemma UncutSiblings(t: Tree, pol: Policy)
    requires Uncut(t, pol)
    ensures UncutKids(Siblings(t.kids), pol) && Sizes(Siblings(t.kids)) == Sizes(t.kids)
  {
    AllNamed(t.kids);
    SizesSort(t.kids);
    NameOrders();
    SortSorts(t.kids, NameLe);
    forall i | 0 <= i < |Siblings(t.kids)| ensures Siblings(t.kids)[i] in t.kids {
      assert Siblings(t.kids)[i] in multiset(Siblings(t.kids));
    }
  }

  /** With no depth cap and nothing to cut, there are as many visits as directories. */
  lemma {:induction false} ListedCount(it: Item, pol: Policy)
    requires pol.depthcap < 0 && !it.pruned && Uncut(it.tree, pol)
    requires it.depth == 0 || (!NoEnter(it.tag) && !NoEnter(it.tree.now))
    ensures |Listing(it, pol)| == Size(it.tree)
    decreases Size(it.tree), 0
  {
    SiblingsSmaller(it.tree);
    UncutSiblings(it.tree, pol);
    hide Siblings, Sizes, NoEnter;
    AllListed(it, Siblings(it.tree.kids), pol);
  }

  lemma {:induction false} AllListed(it: Item, ks: seq<Tree>, pol: Policy)
    requires pol.depthcap < 0 && UncutKids(ks, pol)
    ensures |Listings(it, ks, pol)| == Sizes(ks)
    decreases Sizes(ks), 1 + |ks|
  {
    if ks == [] {
      ListingsNone(it, pol);
    } else {
      hide Listing, Listings, Sizes, NoEnter, Uncut;
      SizesHead(ks);
      ListingsHead(it, ks, pol);
      ListedCount(ChildItem(it, ks[0], pol), pol);
      AllListed(it, ks[1..], pol);
    }
  }

  /** x is the directory itself or one somewhere below it. */
  ghost predicate InTree(x: Item, it: Item, pol: Policy)
    decreases it.tree
  {
    x == it || exists i :: 0 <= i < |it.tree.kids| && InTree(x, ChildItem(it, it.tree.kids[i], pol), pol)
  }

  /** With no depth cap and nothing to cut, every directory of the tree is listed. */
  lemma {:induction false} WholeTreeIsListed(it: Item, x: Item, pol: Policy)
    requires pol.depthcap < 0 && !it.pruned && Uncut(it.tree, pol)
    requires it.depth == 0 || (!NoEnter(it.tag) && !NoEnter(it.tree.now))
    requires InTree(x, it, pol)
    ensures VisitOf(x, pol) in Listing(it, pol)
    decreases it.tree
  {
    if x != it {
      var i :| 0 <= i < |it.tree.kids| && InTree(x, ChildItem(it, it.tree.kids[i], pol), pol);
      var k := it.tree.kids[i];
      WholeTreeIsListed(ChildItem(it, k, pol), x, pol);
      NamedIsSibling(it.tree.kids, k);
      var j :| 0 <= j < |Siblings(it.tree.kids)| && Siblings(it.tree.kids)[j] == k;
      hide Siblings, VisitOf, InTree, Uncut, NoEnter;
      ListingsHave(it, Siblings(it.tree.kids), j, VisitOf(x, pol), pol);
    }
  }

  lemma NamedIsSibling(ks: seq<Tree>, k: Tree)
    requires k in ks && k.name.Some?
    ensures k in Siblings(ks)
  {
    NamedCount(ks, k);
    NameOrders();
    SortSorts(Named(ks), NameLe);
    assert k in multiset(ks);
    assert multiset(Siblings(ks))[k] > 0;
  }

  lemma {:induction false} ListingsHave(it: Item, ks: seq<Tree>, j: nat, v: Visit, pol: Policy)
    requires j < |ks| && v in Listing(ChildItem(it, ks[j], pol), pol)
    ensures v in Listings(it, ks, pol)
    decreases j
  {
    hide Listing, Listings;
    ListingsHead(it, ks, pol);
    if j > 0 { ListingsHave(it, ks[1..], j - 1, v, pol); }
  }

  /** Nothing is listed but directories of the tree, each as it is. */
  lemma {:induction false} OnlyTheTree(it: Item, v: Visit, pol: Policy)
    requires v in Listing(it, pol)
    ensures exists x :: InTree(x, it, pol) && v == VisitOf(x, pol)
    decreases Size(it.tree), 0
  {
    if v == VisitOf(it, pol) {
      assert InTree(it, it, pol);
    } else {
      SiblingsSmaller(it.tree);
      SiblingsAreKids(it.tree.kids);
      OnlyTheTreeBelow(it, Siblings(it.tree.kids), v, pol);
    }
  }

  lemma SiblingsAreKids(ks: seq<Tree>)
    ensures forall k :: k in Siblings(ks) ==> k in ks
  {
    NameOrders();
    SortSorts(Named(ks), NameLe);
    forall k | k in Siblings(ks) ensures k in ks {
      assert k in multiset(Siblings(ks));
      NamedHave(ks, k);
    }
  }

  lemma {:induction false} OnlyTheTreeBelow(it: Item, ks: seq<Tree>, v: Visit, pol: Policy)
    requires v in Listings(it, ks, pol) && forall k :: k in ks ==> k in it.tree.kids
    ensures exists x :: InTree(x, it, pol) && v == VisitOf(x, pol)
    decreases Sizes(ks), 1 + |ks|
  {
    hide Listing, Listings, VisitOf, Sizes, Size;
    if ks == [] {
      ListingsNone(it, pol);
      assert false;
    }
    SizesHead(ks);
    ListingsHead(it, ks, pol);
    if v in Listing(ChildItem(it, ks[0], pol), pol) {
      OnlyTheTree(ChildItem(it, ks[0], pol), v, pol);
      var x :| InTree(x, ChildItem(it, ks[0], pol), pol) && v == VisitOf(x, pol);
      assert ks[0] in it.tree.kids;
      assert InTree(x, it, pol);
    } else {
      OnlyTheTreeBelow(it, ks[1..], v, pol);
    }
  }

  // ---- when calls fail ----------------------------------------------------------------------

  /** Where the walk may come, only a directory without subdirectories to list is turned
      away by its handle alone. */
  ghost predicate Settled(it: Item, pol: Policy)
    decreases Size(it.tree), 0
  {
    SiblingsSmaller(it.tree);
    Fate(it, Unasked(pol)) == Descended && Siblings(it.tree.kids) != [] ==>
      Fate(it, pol) == Descended && AllSettled(it, Siblings(it.tree.kids), pol)
  }

  ghost predicate AllSettled(it: Item, ks: seq<Tree>, pol: Policy)
    decreases Sizes(ks), 1 + |ks|
  {
    ks == [] || (SizesHead(ks); Settled(ChildItem(it, ks[0], pol), pol) && AllSettled(it, ks[1..], pol))
  }

  /** What may be come to is what is listed in a settled tree, and more in any other. */
  lemma {:induction false} SettledReach(it: Item, pol: Policy)
    ensures if Settled(it, pol) then Reach(it, pol) == ShownOf(Listing(it, pol))
      else |Reach(it, pol)| > |ShownOf(Listing(it, pol))|
    decreases Size(it.tree), 0
  {
    SiblingsSmaller(it.tree);
    AskedOpens(it, pol);
    hide Siblings, Fate, Strip, Listings, Reaches, ShownOf, Reach, AllSettled;
    ReachOpens(it, pol);
    ListingShown(it, pol);
    NoneReached(it, pol);
    SettledReaches(it, Siblings(it.tree.kids), pol);
    SomeReached(it, Siblings(it.tree.kids), pol);
  }

  lemma AskedOpens(it: Item, pol: Policy)
    ensures Fate(it, pol) == Descended ==> Fate(it, Unasked(pol)) == Descended
  {
  }

  lemma SomeReached(it: Item, ks: seq<Tree>, pol: Policy)
    ensures ks != [] ==> |Reaches(it, ks, pol)| > 0
  {
    if ks != [] {
      hide Reach, Reaches, Fate;
      ReachesHead(it, ks, pol);
      ReachOpens(ChildItem(it, ks[0], pol), pol);
    }
  }

  lemma ListingShown(it: Item, pol: Policy)
    ensures ShownOf(Listing(it, pol)) == [Strip(it.path, pol.unc)]
      + if Fate(it, pol) == Descended then ShownOf(Listings(it, Siblings(it.tree.kids), pol)) else []
  {
    hide Siblings, Fate, Strip, Listings;
    var own := VisitOf(it, pol);
    var below := if Fate(it, pol) == Descended then Listings(it, Siblings(it.tree.kids), pol) else [];
    ShownJoin([own], below);
    assert Listing(it, pol) == [own] + below;
    assert [own][..0] == [] && ShownOf([own]) == [Strip(it.path, pol.unc)];
  }

  lemma {:induction false} SettledReaches(it: Item, ks: seq<Tree>, pol: Policy)
    ensures if AllSettled(it, ks, pol) then Reaches(it, ks, pol) == ShownOf(Listings(it, ks, pol))
      else |Reaches(it, ks, pol)| > |ShownOf(Listings(it, ks, pol))|
    decreases Sizes(ks), 1 + |ks|
  {
    if ks == [] {
      ListingsNone(it, pol);
      NoneReached(it, pol);
    } else {
      hide Settled, Listing, Listings, Reaches, Reach, ShownOf, Sizes;
      SizesHead(ks);
      ReachesHead(it, ks, pol);
      ListingsHead(it, ks, pol);
      ShownJoin(Listing(ChildItem(it, ks[0], pol), pol), Listings(it, ks[1..], pol));
      SettledReach(ChildItem(it, ks[0], pol), pol);
      SettledReaches(it, ks[1..], pol);
    }
  }

  lemma {:induction false} ShownUnequal(vs: seq<Visit>)
    requires Once(vs)
    ensures Unequal(ShownOf(vs))
    ensures forall s :: s in ShownOf(vs) ==> exists i :: 0 <= i < |vs| && vs[i].shown == Some(s)
  {
    if vs != [] {
      var front, v := vs[..|vs| - 1], vs[|vs| - 1];
      ShownUnequal(front);
      forall s | s in ShownOf(vs) ensures exists i :: 0 <= i < |vs| && vs[i].shown == Some(s) {
        if s in ShownOf(front) {
          var i :| 0 <= i < |front| && front[i].shown == Some(s);
          assert vs[i] == front[i];
        } else {
          assert vs[|vs| - 1].shown == Some(s);
        }
      }
      forall i | 0 <= i < |front| ensures front[i].shown != v.shown { assert vs[i] == front[i]; }
    }
  }

  /** No path twice in what a walk lists, whatever failed (Walker.Walk). */
  lemma ListedOnce(it: Item, paths: seq<string>, pol: Policy)
    requires Sub(paths, Reach(it, pol))
    requires Prefixed(it.path, pol.unc) && Components(it.tree) && Proper(it.tree)
    ensures Unequal(paths)
  {
    hide Sub, Listing, ShownOf, Components, Proper, Prefixed, Once;
    ListingOnce(it, Unasked(pol));
    ShownUnequal(Listing(it, Unasked(pol)));
    SubUnequal(paths, Reach(it, pol));
  }

  /** Failures only leave paths out of the listing exactly when the tree is settled: a walk
      whose handles never answer lists all of Reach (Walker.Walk). */
  lemma FailuresOnlyLeaveOut(it: Item, pol: Policy)
    ensures Settled(it, pol) <==>
      forall paths :: Sub(paths, Reach(it, pol)) ==> Sub(paths, ShownOf(Listing(it, pol)))
  {
    hide Sub, Listing, ShownOf, Settled, Reach;
    SettledReach(it, pol);
    var reach, listed := Reach(it, pol), ShownOf(Listing(it, pol));
    SubSelf(reach);
    if Sub(reach, listed) { SubShorter(reach, listed); }
    if Settled(it, pol) {
      assert reach == listed;
    } else {
      assert Sub(reach, reach) && !Sub(reach, listed);
    }
  }

  // ---- what a visit says ----------------------------------------------------------------------

  /** A tag that is not to be entered: the name-surrogate bit, or one of the two of DFS. */
  predicate Barred(tag: Option<nat>) {
    tag.Some? && (tag.value / 0x2000_0000 % 2 == 1 || tag.value == 0x8000_000A || tag.value == 0x8000_0012)
  }

  /** The visit's action says why, the guards in their order: at the cap, pruned, a link in
      the scan, a link on the handle; and the tag is the handle's where there was one to ask. */
  predicate Explains(v: Visit, it: Item, pol: Policy) {
    var capped := pol.depthcap >= 0 && it.depth >= pol.depthcap;
    var scanned := it.depth > 0 && Barred(it.tag);
    var held := it.depth > 0 && pol.answers && Barred(it.tree.now);
    && v.shown == Some(Strip(it.path, pol.unc)) && v.depth == it.depth
    && (v.action == DepthLimited <==> capped)
    && (v.action == Pruned <==> !capped && it.pruned)
    && (v.action == NoFollow <==> !capped && !it.pruned && (scanned || held))
    && (v.action == Descended <==> !capped && !it.pruned && !scanned && !held)
    && v.tag == if !capped && !it.pruned && !scanned && it.depth > 0 && pol.answers && it.tree.now.Some?
                then it.tree.now else it.tag
  }

  /** How a directory comes to be an item: the root, or a named kid with what the scan and
      the patterns say of it. */
  predicate KidOf(x: Item, it: Item, pol: Policy) {
    && x.tree in it.tree.kids && x.depth == it.depth + 1 && x.tag == x.tree.tag
    && (x.tree.name.Some? ==> x.pruned == pol.prune(x.tree.name.value) && x.path == Join(it.path, x.tree.name.value))
  }

  lemma VisitExplains(it: Item, pol: Policy)
    ensures Explains(VisitOf(it, pol), it, pol)
  {
    hide Strip;
  }

  lemma KidIs(it: Item, i: nat, pol: Policy)
    requires i < |it.tree.kids|
    ensures KidOf(ChildItem(it, it.tree.kids[i], pol), it, pol)
  {
    hide Join;
  }

  /** Every listed visit explains itself by the directory it is of. */
  lemma ListedExplains(it: Item, v: Visit, pol: Policy)
    requires v in Listing(it, pol)
    ensures exists x :: InTree(x, it, pol) && Explains(v, x, pol)
  {
    hide Explains, InTree, Listing;
    OnlyTheTree(it, v, pol);
    var x :| InTree(x, it, pol) && v == VisitOf(x, pol);
    VisitExplains(x, pol);
  }

  lemma {:induction false} SlashedAt(s: string, i: nat)
    requires i < |s|
    ensures |Slashes(s)| == |s| && Slashes(s)[i] == if s[i] == '\\' then '/' else s[i]
  {
    if i > 0 { SlashedAt(s[1..], i - 1); } else if |s| > 1 { SlashedAt(s[1..], 0); }
  }

  /** A displayed path is the path itself in forward slashes, without the prefix dirs put on
      it; a share's gets its two slashes back. */
  lemma ShownPath(s: string, i: nat)
    requires i < |s|
    ensures var shown := Strip("\\\\?\\" + s, false);
      |shown| == |s| && shown[i] == if s[i] == '\\' then '/' else s[i]
    ensures var shown := Strip("\\\\?\\UNC\\" + s, true);
      |shown| == |s| + 2 && shown[..2] == "//" && shown[i + 2] == if s[i] == '\\' then '/' else s[i]
  {
    hide Slashes;
    assert ("\\\\?\\" + s)[4..] == s && ("\\\\?\\UNC\\" + s)[8..] == s;
    SlashedAt(s, i);
  }
}
