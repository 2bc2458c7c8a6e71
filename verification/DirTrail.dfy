/** The paths a walk may come to, whatever its handles would have said of them: what a run
    with failures leaves out, and what it cannot change. */
module DirTrail {
  import opened TclValues
  import opened Sorting
  import opened Subsequence
  import opened DirTree

  function ShownOf(vs: seq<Visit>): seq<string> {
    if vs == [] then []
    else
      var v := vs[|vs| - 1];
      ShownOf(vs[..|vs| - 1]) + if v.shown.Some? then [v.shown.value] else []
  }

  lemma {:induction false} ShownJoin(a: seq<Visit>, b: seq<Visit>)
    ensures ShownOf(a + b) == ShownOf(a) + ShownOf(b)
    decreases |b|
  {
    if b == [] {
      assert a + b == a;
    } else {
      ShownJoin(a, b[..|b| - 1]);
      assert (a + b)[..|a + b| - 1] == a + b[..|b| - 1];
    }
  }

  /** The same walk on a file system whose handles never say what they are on. */
  function Unasked(pol: Policy): Policy {
    pol.(answers := false)
  }

  /** In order, the paths that may be come to from a directory. */
  ghost function Reach(it: Item, pol: Policy): seq<string> {
    ShownOf(Listing(it, Unasked(pol)))
  }

  ghost function Reaches(it: Item, ks: seq<Tree>, pol: Policy): seq<string> {
    ShownOf(Listings(it, ks, Unasked(pol)))
  }

  /** Those from the items on the stack, top first. */
  ghost function Coming(stack: seq<Item>, pol: Policy): seq<string> {
    if stack == [] then []
    else Reach(stack[|stack| - 1], pol) + Coming(stack[..|stack| - 1], pol)
  }

  lemma ReachOpens(it: Item, pol: Policy)
    ensures Reach(it, pol) == [Strip(it.path, pol.unc)]
      + if Fate(it, Unasked(pol)) == Descended then Reaches(it, Siblings(it.tree.kids), pol) else []
  {
    hide Siblings, Fate, Strip, Listings;
    var own := VisitOf(it, Unasked(pol));
    var below := if Fate(it, Unasked(pol)) == Descended then Listings(it, Siblings(it.tree.kids), Unasked(pol)) else [];
    ShownJoin([own], below);
    assert Listing(it, Unasked(pol)) == [own] + below;
    assert [own][..0] == [] && ShownOf([own]) == [Strip(it.path, pol.unc)];
  }

  lemma ReachesHead(it: Item, ks: seq<Tree>, pol: Policy)
    requires ks != []
    ensures Reaches(it, ks, pol) == Reach(ChildItem(it, ks[0], pol), pol) + Reaches(it, ks[1..], pol)
  {
    hide Listing, ShownOf;
    ShownJoin(Listing(ChildItem(it, ks[0], Unasked(pol)), Unasked(pol)), Listings(it, ks[1..], Unasked(pol)));
  }

  /** Leaving out directories leaves out their paths. */
  lemma {:induction false} ReachesSub(it: Item, xs: seq<Tree>, ys: seq<Tree>, pol: Policy)
    requires Sub(xs, ys)
    ensures Sub(Reaches(it, xs, pol), Reaches(it, ys, pol))
  {
    hide Reach, ChildItem, Reaches;
    if xs == [] {
      NoneReached(it, pol);
    } else {
      ReachesHead(it, ys, pol);
      var first := Reach(ChildItem(it, ys[0], pol), pol);
      if xs[0] == ys[0] && Sub(xs[1..], ys[1..]) {
        ReachesHead(it, xs, pol);
        ReachesSub(it, xs[1..], ys[1..], pol);
        SubSelf(first);
        SubBoth(first, first, Reaches(it, xs[1..], pol), Reaches(it, ys[1..], pol));
      } else {
        ReachesSub(it, xs, ys[1..], pol);
        SubBoth([], first, Reaches(it, xs, pol), Reaches(it, ys[1..], pol));
        assert [] + Reaches(it, xs, pol) == Reaches(it, xs, pol);
      }
    }
  }

  lemma NoneReached(it: Item, pol: Policy)
    ensures Reaches(it, [], pol) == []
  {
  }

  lemma ComingTop(stack: seq<Item>, x: Item, pol: Policy)
    ensures Coming(stack + [x], pol) == Reach(x, pol) + Coming(stack, pol)
  {
    hide Reach;
    assert (stack + [x])[..|stack|] == stack;
  }

  /** One more kid on the stack. */
  lemma OneComing(it: Item, kids: seq<Tree>, i: nat, stack: seq<Item>, under: seq<Item>, pol: Policy)
    requires i < |kids| && Sub(Coming(stack, pol), Reaches(it, kids[i + 1..], pol) + Coming(under, pol))
    ensures Sub(Coming(stack + [ChildItem(it, kids[i], pol)], pol), Reaches(it, kids[i..], pol) + Coming(under, pol))
    ensures Sub(Coming(stack, pol), Reaches(it, kids[i..], pol) + Coming(under, pol))
  {
    hide Sub, Reach, Reaches, Coming, ChildItem;
    var x := ChildItem(it, kids[i], pol);
    var own, more, last := Reach(x, pol), Reaches(it, kids[i + 1..], pol), Coming(under, pol);
    ComingTop(stack, x, pol);
    assert kids[i..][0] == kids[i] && kids[i..][1..] == kids[i + 1..];
    ReachesHead(it, kids[i..], pol);
    SubSelf(own);
    SubBoth(own, own, Coming(stack, pol), more + last);
    SubBoth([], own, Coming(stack, pol), more + last);
    assert [] + Coming(stack, pol) == Coming(stack, pol);
    assert own + (more + last) == own + more + last;
  }

  /** Kids dropped at the end were those still to come off first. */
  lemma FewerComing(it: Item, kids: seq<Tree>, i: nat, stack: seq<Item>, under: seq<Item>, pol: Policy)
    requires i <= |kids| && Sub(Coming(stack, pol), Reaches(it, kids[i..], pol) + Coming(under, pol))
    ensures Sub(Coming(stack, pol), Reaches(it, kids, pol) + Coming(under, pol))
  {
    hide Sub, Reaches, Coming;
    SubDrop(kids, i);
    ReachesSub(it, kids[i..], kids, pol);
    SubSelf(Coming(under, pol));
    SubBoth(Reaches(it, kids[i..], pol), Reaches(it, kids, pol), Coming(under, pol), Coming(under, pol));
    SubThrough(Coming(stack, pol), Reaches(it, kids[i..], pol) + Coming(under, pol),
      Reaches(it, kids, pol) + Coming(under, pol));
  }

  lemma SubDrop<T>(xs: seq<T>, i: nat)
    requires i <= |xs|
    ensures Sub(xs[i..], xs)
  {
    SubSelf(xs[i..]);
    SubBoth([], xs[..i], xs[i..], xs[i..]);
    assert [] + xs[i..] == xs[i..] && xs[..i] + xs[i..] == xs;
  }

  /** One directory visited and its kids pushed: the paths so far and those to come only
      thin out. */
  lemma Thins(paths: seq<string>, it: Item, v: Visit, kids: seq<Tree>, rest: seq<Item>, stack: seq<Item>, pol: Policy)
    requires v.shown.Some? ==> v.shown.value == Strip(it.path, pol.unc)
    requires Sub(kids, Siblings(it.tree.kids)) && (kids != [] ==> Fate(it, Unasked(pol)) == Descended)
    requires Sub(Coming(stack, pol), Reaches(it, kids, pol) + Coming(rest, pol))
    ensures var shown := if v.shown.Some? then [v.shown.value] else [];
      Sub(paths + shown + Coming(stack, pol), paths + Coming(rest + [it], pol))
  {
    hide Reach, Reaches, Coming, Siblings, Fate, Strip;
    var own, later := [Strip(it.path, pol.unc)], Coming(rest, pol);
    var below := if Fate(it, Unasked(pol)) == Descended then Reaches(it, Siblings(it.tree.kids), pol) else [];
    ComingTop(rest, it, pol);
    ReachOpens(it, pol);
    if kids == [] { NoneReached(it, pol); } else { ReachesSub(it, kids, Siblings(it.tree.kids), pol); }
    SubSelf(own);
    Layers(paths, if v.shown.Some? then own else [], own, Coming(stack, pol), Reaches(it, kids, pol), below, later);
  }

  lemma Layers(a: seq<string>, b: seq<string>, b': seq<string>, c: seq<string>, d: seq<string>, d': seq<string>,
    e: seq<string>)
    requires Sub(b, b') && Sub(c, d + e) && Sub(d, d')
    ensures Sub(a + b + c, a + (b' + d' + e))
  {
    hide Sub;
    SubSelf(a);
    SubSelf(e);
    var de, more := d + e, d' + e;
    SubBoth(d, d', e, e);
    SubThrough(c, de, more);
    SubBoth(b, b', c, more);
    var bc, all := b + c, b' + more;
    SubBoth(a, a, bc, all);
    Joined(a, b, c);
    Joined(b', d', e);
  }

  lemma Joined(a: seq<string>, b: seq<string>, c: seq<string>)
    ensures a + (b + c) == a + b + c
  {
  }
}
