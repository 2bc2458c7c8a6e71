/** dirs_walk: the explicit-stack walk, and its books. Every call that can fail asks the
    `fault` oracle. */
module DirWalk {
  import opened TclValues
  import opened Sorting
  import opened Subsequence
  import opened DirTree
  import opened DirTrail

  datatype Cause = BadName | LostChild | Dropped | Unshown | CannotOpen | CannotRead | CutShort

  /** An error row. */
  datatype Row = Row(path: string, cause: Cause)

  /** A row for a reparse point. */
  datatype LinkRow = LinkRow(path: string, tag: nat, surrogate: bool, action: Action)

  function Rows(errors: seq<Row>, cause: Cause): nat {
    if errors == [] then 0
    else Rows(errors[..|errors| - 1], cause) + if errors[|errors| - 1].cause == cause then 1 else 0
  }

  /** Rows that each stand for a directory that never reached the stack. */
  function Missing(errors: seq<Row>): nat {
    Rows(errors, BadName) + Rows(errors, LostChild) + Rows(errors, Dropped)
  }

  lemma RowsSnoc(errors: seq<Row>, r: Row, cause: Cause)
    ensures Rows(errors + [r], cause) == Rows(errors, cause) + if r.cause == cause then 1 else 0
  {
    assert (errors + [r])[..|errors|] == errors;
  }

  // ---- what the lists say of the visits -----------------------------------------------------

  /** dirs_link_row. */
  function LinkOf(v: Visit): LinkRow
    requires v.tag.Some?
  {
    LinkRow(if v.shown.Some? then v.shown.value else "", v.tag.value, Surrogate(v.tag.value), v.action)
  }

  function LinksOf(vs: seq<Visit>): seq<LinkRow> {
    if vs == [] then []
    else
      var v := vs[|vs| - 1];
      LinksOf(vs[..|vs| - 1]) + if v.tag.Some? then [LinkOf(v)] else []
  }

  function Acted(vs: seq<Visit>, a: Action): nat {
    if vs == [] then 0 else Acted(vs[..|vs| - 1], a) + if vs[|vs| - 1].action == a then 1 else 0
  }

  function Deepest(vs: seq<Visit>): nat {
    if vs == [] then 0 else Max(Deepest(vs[..|vs| - 1]), vs[|vs| - 1].depth)
  }

  lemma VisitsSnoc(vs: seq<Visit>, v: Visit)
    ensures ShownOf(vs + [v]) == ShownOf(vs) + if v.shown.Some? then [v.shown.value] else []
    ensures LinksOf(vs + [v]) == LinksOf(vs) + if v.tag.Some? then [LinkOf(v)] else []
    ensures forall a :: Acted(vs + [v], a) == Acted(vs, a) + if v.action == a then 1 else 0
    ensures Deepest(vs + [v]) == Max(Deepest(vs), v.depth)
  {
    assert (vs + [v])[..|vs|] == vs;
  }

  // ---- what a visit may say of its directory ------------------------------------------------

  /** No guard that comes before the open stops the walk here. */
  predicate Opens(it: Item, pol: Policy) {
    && !(pol.depthcap >= 0 && it.depth >= pol.depthcap)
    && !it.pruned
    && !(it.depth > 0 && NoEnter(it.tag))
  }

  /** The visit is what the item's fate is, when its handle shows the tag `now`. */
  predicate AsSeen(it: Item, action: Action, tag: Option<nat>, now: Option<nat>, pol: Policy) {
    var seen := it.(tree := it.tree.(now := now));
    action == Fate(seen, pol) && tag == TagOf(seen, pol)
  }

  /** A directory that failed had been let through to its open; any other went the way of
      its guards, the handle having answered or not. */
  predicate Judged(it: Item, action: Action, tag: Option<nat>, pol: Policy) {
    if action == Failed then Opens(it, pol) && (tag == it.tag || (it.depth > 0 && tag == it.tree.now))
    else AsSeen(it, action, tag, it.tree.now, pol) || AsSeen(it, action, tag, None, pol)
  }

  predicate Tells(it: Item, v: Visit, pol: Policy) {
    && v.depth == it.depth && Judged(it, v.action, v.tag, pol)
    && (v.shown.Some? ==> v.shown.value == Strip(it.path, pol.unc))
  }

  predicate Told(items: seq<Item>, vs: seq<Visit>, pol: Policy) {
    |items| == |vs| && forall i :: 0 <= i < |vs| ==> Tells(items[i], vs[i], pol)
  }

  predicate IsKid(x: Item, parent: Item, pol: Policy) {
    x.tree in parent.tree.kids && x.tree.name.Some? && x == ChildItem(parent, x.tree, pol)
  }

  /** x is a named subdirectory of a directory already visited and descended into. */
  ghost predicate Sprung(x: Item, items: seq<Item>, vs: seq<Visit>, pol: Policy) {
    exists p :: 0 <= p < |items| && p < |vs| && vs[p].action == Descended && IsKid(x, items[p], pol)
  }

  ghost predicate AllSprung(xs: seq<Item>, items: seq<Item>, vs: seq<Visit>, pol: Policy) {
    forall i :: 0 <= i < |xs| ==> Sprung(xs[i], items, vs, pol)
  }

  /** The walk starts at the root and goes only where it has descended. */
  ghost predicate Grown(root: Item, items: seq<Item>, vs: seq<Visit>, pol: Policy) {
    |items| == |vs| && forall i :: 0 <= i < |items| ==>
      if i == 0 then items[i] == root else Sprung(items[i], items[..i], vs[..i], pol)
  }

  // ---- the stack ----------------------------------------------------------------------------

  function Load(stack: seq<Item>): nat {
    if stack == [] then 0 else Load(stack[..|stack| - 1]) + Size(stack[|stack| - 1].tree)
  }

  /** What the items on the stack, top first, should list. */
  ghost function Agenda(stack: seq<Item>, pol: Policy): seq<Visit> {
    if stack == [] then []
    else Listing(stack[|stack| - 1], pol) + Agenda(stack[..|stack| - 1], pol)
  }

  predicate ProperStack(stack: seq<Item>) {
    forall i :: 0 <= i < |stack| ==> Proper(stack[i].tree)
  }

  /** x is the item of one of these kids. */
  predicate OneOf(x: Item, it: Item, kids: seq<Tree>, pol: Policy) {
    x.tree in kids && x == ChildItem(it, x.tree, pol)
  }

  predicate AllProper(ks: seq<Tree>) {
    forall i :: 0 <= i < |ks| ==> Proper(ks[i])
  }

  class Walker {
    const pol: Policy
    const fault: nat -> bool
    var tick: nat

    var paths: seq<string>
    var count: nat
    var errors: seq<Row>
    var links: seq<LinkRow>
    var pruned: nat
    var depthlimited: nat
    var maxdepth: nat

    /** Directories taken from the stack, and subdirectories the system enumerated. */
    ghost var visits: seq<Visit>
    ghost var enumerated: nat

    /** The items those directories were, enumerations that began, and that broke off. */
    ghost var items: seq<Item>
    ghost var begun: nat
    ghost var broken: nat

    constructor (pol: Policy, fault: nat -> bool)
      ensures this.pol == pol && this.fault == fault && tick == 0 && Fresh()
    {
      this.pol, this.fault, tick := pol, fault, 0;
      paths, count, errors, links, pruned, depthlimited, maxdepth := [], 0, [], [], 0, 0, 0;
      visits, enumerated, items, begun, broken := [], 0, [], 0, 0;
    }

    ghost predicate NoFaults() {
      forall k :: !fault(k)
    }

    /** A call failed among those asked from tick a to tick b. */
    ghost predicate Faulted(a: nat, b: nat) {
      exists k :: a <= k < b && fault(k)
    }

    ghost predicate Fresh()
      reads this
    {
      visits == [] && items == [] && errors == [] && enumerated == 0 && Books() && Causes()
    }

    /** Every failure has its row and every row its failure; a directory was descended into
        exactly when its enumeration began; and each visit tells of its directory. */
    ghost predicate Causes()
      reads this`visits, this`items, this`errors, this`begun, this`broken
    {
      && Acted(visits, Failed) == Rows(errors, CannotOpen) + Rows(errors, CannotRead)
      && Acted(visits, Descended) == begun
      && Rows(errors, CutShort) == broken
      && Told(items, visits, pol)
    }

    /** The counters and lists say what the visits were. */
    ghost predicate Books()
      reads this`paths, this`count, this`visits, this`errors, this`links, this`pruned, this`depthlimited, this`maxdepth
    {
      && paths == ShownOf(visits) && count == |paths|
      && |visits| == count + Rows(errors, Unshown)
      && links == LinksOf(visits)
      && pruned == Acted(visits, Pruned)
      && depthlimited == Acted(visits, DepthLimited)
      && maxdepth == Deepest(visits)
    }

    method Fails() returns (b: bool)
      modifies this`tick
      ensures b == fault(old(tick)) && tick == old(tick) + 1
    {
      b := fault(tick);
      tick := tick + 1;
    }

    /** dirs_fault: always a row, with its path when that can be written. */
    method Fault(path: string, cause: Cause)
      modifies this`tick, this`errors
      ensures tick == old(tick) + 1 && exists p :: errors == old(errors) + [Row(p, cause)]
      ensures forall c :: Rows(errors, c) == old(Rows(errors, c)) + if c == cause then 1 else 0
    {
      var lost := Fails();
      var row := Row(if lost then "" else Strip(path, pol.unc), cause);
      forall c ensures Rows(errors + [row], c) == Rows(errors, c) + if c == cause then 1 else 0 {
        RowsSnoc(errors, row, c);
      }
      errors := errors + [row];
    }

    method FaultTimes(path: string, cause: Cause, n: nat)
      modifies this`tick, this`errors
      ensures tick >= old(tick)
      ensures forall c :: Rows(errors, c) == old(Rows(errors, c)) + if c == cause then n else 0
    {
      for i := 0 to n
        invariant tick >= old(tick)
        invariant forall c :: Rows(errors, c) == old(Rows(errors, c)) + if c == cause then i else 0
      {
        Fault(path, cause);
      }
    }

    /** The enumeration loop of dirs_children: the entries kept, and how many were lost. */
    method Scan(all: seq<Tree>) returns (kids: seq<Tree>, badName: nat, lost: nat, cut: bool)
      modifies this`tick, this`enumerated, this`broken
      ensures enumerated == old(enumerated) + |kids| + badName + lost
      ensures broken == old(broken) + if cut then 1 else 0
      ensures tick >= old(tick) && (!cut ==> |kids| + badName + lost == |all|)
      ensures forall k :: k in kids ==> k in all && k.name.Some?
      ensures Sizes(kids) <= Sizes(all)
      ensures Sub(kids, Named(all))
      ensures NoFaults() ==> !cut && lost == 0 && kids == Named(all)
    {
      hide Named, Sizes, NoFaults, Sub;
      kids, badName, lost, cut := [], 0, 0, false;
      var cap := 0;
      NothingYet(all);
      SubNone(Named(all[..0]));
      for i := 0 to |all|
        invariant enumerated == old(enumerated) + |kids| + badName + lost
        invariant tick >= old(tick) && broken == old(broken) && !cut && |kids| + badName + lost == i
        invariant forall k :: k in kids ==> k in all && k.name.Some?
        invariant Sizes(kids) <= Sizes(all[..i]) && Sub(kids, Named(all[..i]))
        invariant NoFaults() ==> !cut && lost == 0 && kids == Named(all[..i])
      {
        OneMore(all, i, kids);
        KeepsOrder(all, i, kids);
        cut := Fails();
        Believe(tick - 1);
        if cut {
          broken := broken + 1;
          return;
        }
        enumerated := enumerated + 1;
        if |kids| == cap {
          var full := Fails();
          Believe(tick - 1);
          if full { lost := lost + 1; continue; }
          cap := if cap == 0 then 32 else cap * 2;
        }
        if all[i].name.None? { badName := badName + 1; continue; }
        var none := Fails();
        Believe(tick - 1);
        if none { lost := lost + 1; continue; }
        kids := kids + [all[i]];
      }
      assert all[..|all|] == all;
    }

    lemma Believe(k: nat)
      ensures NoFaults() ==> !fault(k)
    {
    }

    /** dirs_children: the named subdirectories, sorted; one row for each that is lost. */
    method Children(it: Item) returns (got: bool, kids: seq<Tree>)
      modifies this`tick, this`errors, this`enumerated, this`begun, this`broken
      ensures Missing(errors) + |kids| - enumerated == old(Missing(errors) - enumerated)
      ensures Rows(errors, Unshown) == old(Rows(errors, Unshown)) && Rows(errors, Dropped) == old(Rows(errors, Dropped))
      ensures Rows(errors, CannotRead) == old(Rows(errors, CannotRead)) + if got then 0 else 1
      ensures Rows(errors, CannotOpen) == old(Rows(errors, CannotOpen))
      ensures Rows(errors, CutShort) - broken == old(Rows(errors, CutShort) - broken)
      ensures begun == old(begun) + if got then 1 else 0
      ensures if got then forall k :: k in kids ==> k in it.tree.kids && k.name.Some? else kids == []
      ensures tick > old(tick) && got == !fault(old(tick))
      ensures Sizes(kids) <= Sizes(it.tree.kids)
      ensures OwnNames(it.tree.kids) ==> Sub(kids, Siblings(it.tree.kids))
      ensures NoFaults() && OwnNames(it.tree.kids) ==> got && kids == Siblings(it.tree.kids)
    {
      hide Named, Sizes, NoFaults, Siblings, Rows, SortedBy, OwnNames;
      var unread := Fails();
      Believe(tick - 1);
      if unread {
        Fault(it.path, CannotRead);
        NothingYet(it.tree.kids);
        SubNone(Siblings(it.tree.kids));
        return false, [];
      }
      got, begun := true, begun + 1;
      var found, badName, lost, cut := Scan(it.tree.kids);
      Tally(it.path, cut, badName, lost);
      kids := InOrder(found, it.tree.kids);
    }

    /** The rows an enumeration leaves: one for each directory lost, one if it broke off. */
    method Tally(path: string, cut: bool, badName: nat, lost: nat)
      modifies this`tick, this`errors
      ensures tick >= old(tick) && Missing(errors) == old(Missing(errors)) + badName + lost
      ensures Rows(errors, CutShort) == old(Rows(errors, CutShort)) + if cut then 1 else 0
      ensures forall c :: c == Unshown || c == Dropped || c == CannotRead || c == CannotOpen ==>
        Rows(errors, c) == old(Rows(errors, c))
    {
      hide Rows;
      if cut { Fault(path, CutShort); }
      FaultTimes(path, BadName, badName);
      FaultTimes(path, LostChild, lost);
    }

    /** The qsort at the end of dirs_children. */
    method InOrder(found: seq<Tree>, all: seq<Tree>) returns (kids: seq<Tree>)
      requires Sub(found, Named(all))
      ensures |kids| == |found| && Sizes(kids) == Sizes(found) && forall k :: k in kids ==> k in found
      ensures OwnNames(all) ==> Sub(kids, Siblings(all))
      ensures OwnNames(all) && found == Named(all) ==> kids == Siblings(all)
    {
      hide Named, Sizes, Siblings, SortedBy, OwnNames;
      NameOrders();
      kids := Qsort(found, NameLe);
      SizesRearranged(found, kids);
      SameElements(found, kids);
      if OwnNames(all) {
        SomeSiblings(all, found, kids);
        if found == Named(all) { SiblingsUnique(all, kids); }
      }
    }

    /** One directory off the stack: listed first, then judged. Its reparse row, if it has
        one, says what became of it. */
    method Visit(it: Item) returns (kids: seq<Tree>)
      requires Books() && Causes()
      modifies this
      ensures Books() && Causes()
      ensures |visits| == old(|visits|) + 1 && visits[..|visits| - 1] == old(visits) && items == old(items) + [it]
      ensures Missing(errors) + |kids| - enumerated == old(Missing(errors) - enumerated)
      ensures Sizes(kids) <= Sizes(it.tree.kids)
      ensures Begets(it, kids, visits[|visits| - 1].action) && Tells(it, visits[|visits| - 1], pol)
      ensures OwnNames(it.tree.kids) ==> Sub(kids, Siblings(it.tree.kids))
      ensures NoFaults() && OwnNames(it.tree.kids) ==>
        && visits[|visits| - 1] == VisitOf(it, pol)
        && kids == if Fate(it, pol) == Descended then Siblings(it.tree.kids) else []
    {
      hide Sizes, NoFaults, Siblings, Rows, OwnNames, ShownOf, LinksOf, Acted, Deepest, Strip, Judged, Faulted, Sub;
      NothingYet(it.tree.kids);
      var shown := Show(it);
      var action, tag;
      action, tag, kids := Judge(it);
      Record(it, DirTree.Visit(shown, it.depth, tag, action));
    }

    /** The path as text, listed and counted; or a row. */
    method Show(it: Item) returns (shown: Option<string>)
      modifies this`tick, this`paths, this`count, this`errors
      ensures shown.Some? ==> paths == old(paths) + [shown.value] && count == old(count) + 1 && errors == old(errors)
      ensures shown.None? ==> paths == old(paths) && count == old(count)
      ensures forall c :: Rows(errors, c) == old(Rows(errors, c)) + if c == Unshown && shown.None? then 1 else 0
      ensures shown.Some? ==> shown.value == Strip(it.path, pol.unc)
      ensures NoFaults() ==> shown.Some?
    {
      hide NoFaults, Rows;
      var none := Fails();
      Believe(tick - 1);
      if none {
        shown := None;
        Fault(it.path, Unshown);
      } else {
        shown := Some(Strip(it.path, pol.unc));
        paths := paths + [shown.value];
        count := count + 1;
      }
    }

    /** The handle does not answer the query asked at tick k, or it is on no reparse point,
        or on one that is no name and opens again. */
    predicate LetsIn(it: Item, k: nat) {
      fault(k) || !pol.answers || it.tree.now.None? || (!NoEnter(it.tree.now) && !fault(k + 1))
    }

    /** dirs_open, then what the handle itself shows: Descended stands for "still going in". */
    method Open(it: Item) returns (action: Action, tag: Option<nat>)
      requires Opens(it, pol)
      modifies this`tick, this`errors
      ensures tick > old(tick)
      ensures action == Failed || action == Descended || action == NoFollow
      ensures forall c :: c != CannotOpen ==> Rows(errors, c) == old(Rows(errors, c))
      ensures Rows(errors, CannotOpen) == old(Rows(errors, CannotOpen)) + if action == Failed then 1 else 0
      ensures Judged(it, action, tag, pol)
      ensures AsSeen(it, action, tag, it.tree.now, pol) || Faulted(old(tick), tick)
      ensures action == Descended <==> !fault(old(tick)) && (it.depth == 0 || LetsIn(it, old(tick) + 1))
    {
      hide Rows, Faulted;
      tag := it.tag;
      var shut := Fails();
      if shut {
        Witness(old(tick), tick - 1, tick + 1);
        Fault(it.path, CannotOpen);
        return Failed, tag;
      }
      if it.depth > 0 {
        var mute := Fails();
        if mute {
          Witness(old(tick), tick - 1, tick);
        } else if pol.answers && it.tree.now.Some? {
          tag := it.tree.now;
          if NoEnter(tag) { return NoFollow, tag; }
          shut := Fails();
          if shut {
            Witness(old(tick), tick - 1, tick + 1);
            Fault(it.path, CannotOpen);
            return Failed, tag;
          }
        }
      }
      return Descended, tag;
    }

    /** Depth cap, prune, surrogate, open, the handle's own word, enumeration: in that
        order, and the first that stops it names the action. */
    method Judge(it: Item) returns (action: Action, tag: Option<nat>, kids: seq<Tree>)
      modifies this`tick, this`errors, this`enumerated, this`begun, this`broken
      ensures Missing(errors) + |kids| - enumerated == old(Missing(errors) - enumerated)
      ensures Rows(errors, Unshown) == old(Rows(errors, Unshown))
      ensures Rows(errors, CannotOpen) + Rows(errors, CannotRead)
           == old(Rows(errors, CannotOpen) + Rows(errors, CannotRead)) + if action == Failed then 1 else 0
      ensures Rows(errors, CutShort) - broken == old(Rows(errors, CutShort) - broken)
      ensures begun == old(begun) + if action == Descended then 1 else 0
      ensures Judged(it, action, tag, pol) && Begets(it, kids, action)
      ensures AsSeen(it, action, tag, it.tree.now, pol) || Faulted(old(tick), tick)
      ensures Sizes(kids) <= Sizes(it.tree.kids)
      ensures OwnNames(it.tree.kids) ==> Sub(kids, Siblings(it.tree.kids))
      ensures NoFaults() && OwnNames(it.tree.kids) ==>
        && action == Fate(it, pol) && tag == TagOf(it, pol)
        && kids == if Fate(it, pol) == Descended then Siblings(it.tree.kids) else []
    {
      hide Sizes, NoFaults, Siblings, Rows, OwnNames, Faulted, NoEnter, Fate, TagOf, AsSeen, Sub;
      NothingYet(it.tree.kids);
      SubNone(Siblings(it.tree.kids));
      Guards(it, pol);
      NeverFaulted(old(tick));
      SeenIsFate(it, pol);
      kids, tag := [], it.tag;
      if pol.depthcap >= 0 && it.depth >= pol.depthcap { return DepthLimited, tag, kids; }
      if it.pruned { return Pruned, tag, kids; }
      if it.depth > 0 && NoEnter(it.tag) { return NoFollow, tag, kids; }
      action, tag := Open(it);
      if action == Descended {
        ghost var asked := tick;
        Believe(asked);
        var got;
        got, kids := Children(it);
        Longer(old(tick), asked, tick);
        FailsInside(it, tag, pol);
        Witness(old(tick), asked, tick);
        action := if got then Descended else Failed;
      }
    }

    lemma NeverFaulted(a: nat)
      ensures NoFaults() ==> forall b: nat :: !Faulted(a, b)
    {
    }

    lemma Witness(a: nat, k: nat, b: nat)
      requires a <= k < b
      ensures fault(k) ==> Faulted(a, b)
    {
    }

    lemma Longer(a: nat, b: nat, c: nat)
      requires b <= c
      ensures Faulted(a, b) ==> Faulted(a, c)
    {
    }

    /** Counters and rows of one visit. */
    method Record(it: Item, v: Visit)
      requires count == |paths| && links == LinksOf(visits)
      requires pruned == Acted(visits, Pruned) && depthlimited == Acted(visits, DepthLimited)
      requires maxdepth == Deepest(visits)
      requires paths == ShownOf(visits) + (if v.shown.Some? then [v.shown.value] else [])
      requires |visits| + 1 == count + Rows(errors, Unshown)
      requires Acted(visits, Failed) + (if v.action == Failed then 1 else 0)
            == Rows(errors, CannotOpen) + Rows(errors, CannotRead)
      requires Acted(visits, Descended) + (if v.action == Descended then 1 else 0) == begun
      requires Rows(errors, CutShort) == broken && Told(items, visits, pol) && Tells(it, v, pol)
      modifies this`visits, this`items, this`links, this`pruned, this`depthlimited, this`maxdepth
      ensures Books() && Causes() && visits == old(visits) + [v] && items == old(items) + [it]
    {
      hide ShownOf, LinksOf, Acted, Deepest, Rows, Tells;
      VisitsSnoc(visits, v);
      visits, items := visits + [v], items + [it];
      if v.depth > maxdepth { maxdepth := v.depth; }
      if v.action == DepthLimited { depthlimited := depthlimited + 1; }
      if v.action == Pruned { pruned := pruned + 1; }
      if v.tag.Some? {
        links := links + [LinkOf(v)];
      }
    }

    /** Kids onto the stack, in reverse so that they come off ascending. */
    method Push(it: Item, kids: seq<Tree>, stack: seq<Item>, cap: nat) returns (stack': seq<Item>, cap': nat)
      requires |stack| <= cap && cap > 0 && Books() && Causes()
      modifies this`tick, this`errors
      ensures |stack'| <= cap' && cap' > 0
      ensures Missing(errors) + |stack'| == old(Missing(errors)) + |stack| + |kids|
      ensures Books() && Causes() && stack <= stack'
      ensures forall k :: |stack| <= k < |stack'| ==> OneOf(stack'[k], it, kids, pol)
      ensures Load(stack') <= Load(stack) + Sizes(kids)
      ensures NoFaults() ==> Agenda(stack', pol) == Listings(it, kids, pol) + Agenda(stack, pol)
      ensures Sub(Coming(stack', pol), Reaches(it, kids, pol) + Coming(stack, pol))
      ensures ProperStack(stack) && AllProper(kids) ==> ProperStack(stack')
    {
      hide NoFaults, Rows, Load, Sizes, Agenda, Listings, Books, Causes, Coming, Reaches, Sub;
      cap' := cap;
      if |stack| + |kids| > cap {
        var ncap := cap;
        while ncap < |stack| + |kids|
          invariant ncap >= cap
        {
          ncap := ncap * 2;
        }
        var full := Fails();
        Believe(tick - 1);
        if !full { cap' := ncap; }
      }
      stack' := stack;
      var dropped := 0;
      var i: nat := |kids|;
      NoKids(it, kids, stack, pol);
      NoneComing(it, kids, stack, pol);
      while i > 0
        invariant i <= |kids| && |stack'| <= cap' && errors == old(errors) && Books() && Causes()
        invariant |stack'| + dropped == |stack| + |kids| - i && stack <= stack'
        invariant forall k :: |stack| <= k < |stack'| ==> OneOf(stack'[k], it, kids, pol)
        invariant Load(stack') <= Load(stack) + Sizes(kids[i..])
        invariant NoFaults() ==> dropped == 0 && cap' >= |stack| + |kids|
        invariant NoFaults() ==> Agenda(stack', pol) == Listings(it, kids[i..], pol) + Agenda(stack, pol)
        invariant Sub(Coming(stack', pol), Reaches(it, kids[i..], pol) + Coming(stack, pol))
        invariant ProperStack(stack) && AllProper(kids) ==> ProperStack(stack')
      {
        OneKid(it, kids, i - 1, stack', pol);
        if |stack'| == cap' {
          dropped := dropped + i;
          KidsLeft(kids, i);
          FewerComing(it, kids, i, stack', stack, pol);
          break;
        }
        OneComing(it, kids, i - 1, stack', stack, pol);
        i := i - 1;
        var none := Fails();
        Believe(tick - 1);
        if none { dropped := dropped + 1; continue; }
        stack' := stack' + [ChildItem(it, kids[i], pol)];
      }
      if i == 0 { assert kids[i..] == kids; }
      Drop(it.path, dropped);
    }

    /** One row for each directory that found no place on the stack. */
    method Drop(path: string, n: nat)
      requires Books() && Causes()
      modifies this`tick, this`errors
      ensures Books() && Causes() && Missing(errors) == old(Missing(errors)) + n
    {
      hide Rows, Told, Acted, ShownOf, LinksOf, Deepest;
      FaultTimes(path, Dropped, n);
    }

    /** One turn of the loop: the top directory is visited and its kids are pushed. */
    method Turn(ghost root: Item, it: Item, rest: seq<Item>, cap: nat) returns (stack: seq<Item>, cap': nat)
      requires |rest| <= cap && cap > 0 && Books() && Causes() && Grown(root, items, visits, pol)
      requires if items == [] then it == root && rest == [] else AllSprung(rest + [it], items, visits, pol)
      modifies this
      ensures |stack| <= cap' && cap' > 0 && Books() && Causes() && items != []
      ensures |visits| + |stack| + Missing(errors) - enumerated
           == old(|visits| + Missing(errors) - enumerated) + |rest| + 1
      ensures Grown(root, items, visits, pol) && AllSprung(stack, items, visits, pol)
      ensures Load(stack) <= Load(rest) + Sizes(it.tree.kids)
      ensures ProperStack(rest + [it]) ==>
        ProperStack(stack) && Sub(paths + Coming(stack, pol), old(paths) + Coming(rest + [it], pol))
      ensures NoFaults() && ProperStack(rest + [it]) ==>
        visits + Agenda(stack, pol) == old(visits) + Agenda(rest + [it], pol)
    {
      hide NoFaults, Missing, Agenda, Listing, Listings, Sizes, Load, Proper, ProperStack, OwnNames;
      hide Causes, Grown, AllSprung, Begets, Judged, VisitOf, AllProper, Fate, Siblings;
      hide Sub, Coming, ShownOf, LinksOf, Acted, Deepest, Rows, Strip;
      ghost var before, then_, known := visits, items, paths;
      TopItem(rest + [it], pol);
      var kids := Visit(it);
      assert visits == before + [visits[|visits| - 1]];
      VisitsSnoc(before, visits[|visits| - 1]);
      stack, cap' := Push(it, kids, rest, cap);
      KidsProper(it.tree);
      SomeProper(it, kids, visits[|visits| - 1].action);
      if ProperStack(rest + [it]) {
        OnlyIntoOpen(it, kids, visits[|visits| - 1], pol);
        Thins(known, it, visits[|visits| - 1], kids, rest, stack, pol);
      }
      if NoFaults() && ProperStack(rest + [it]) { Unfold(before, it, visits[|visits| - 1], kids, rest, stack, pol); }
      GrowsBy(root, then_, before, it, visits[|visits| - 1], rest, stack, kids, pol);
    }

    /** dirs_walk. Whatever fails, the books close, every failure has its row and the walk
        goes only where it has descended; when nothing fails the visits are the listing. */
    method Walk(root: string, tag: Option<nat>, tree: Tree) returns (ok: bool)
      requires Fresh()
      modifies this
      ensures Books() && Causes() && Grown(Item(root, 0, tag, false, tree), items, visits, pol)
      ensures ok ==> |visits| + Missing(errors) == 1 + enumerated
      ensures Proper(tree) ==> Sub(paths, Reach(Item(root, 0, tag, false, tree), pol))
      ensures NoFaults() ==> ok
      ensures NoFaults() && Proper(tree) ==> visits == Listing(Item(root, 0, tag, false, tree), pol)
    {
      hide NoFaults, Missing, Agenda, Listing, Listings, Sizes, Size, Load, Proper, ProperStack, OwnNames;
      hide Causes, Grown, AllSprung, Begets, VisitOf, Sub, Coming, Reach, LinksOf, Acted, Deepest, Rows;
      SubNone(Reach(Item(root, 0, tag, false, tree), pol));
      BeginsGrown(Item(root, 0, tag, false, tree), pol);
      var none := Fails();
      Believe(tick - 1);
      if none { return false; }
      none := Fails();
      Believe(tick - 1);
      if none { return false; }
      var first := Item(root, 0, tag, false, tree);
      var stack, cap := [first], 64;
      OneItem(first, pol);
      OnlyComing(first, pol);
      NoRows();
      while stack != []
        invariant |stack| <= cap && cap > 0 && Books() && Causes()
        invariant |visits| + |stack| + Missing(errors) == 1 + enumerated
        invariant Grown(first, items, visits, pol)
        invariant if items == [] then stack == [first] else AllSprung(stack, items, visits, pol)
        invariant Proper(tree) ==> ProperStack(stack) && Sub(paths + Coming(stack, pol), Reach(first, pol))
        invariant NoFaults() && Proper(tree) ==>
          visits + Agenda(stack, pol) == Listing(first, pol)
        decreases Load(stack)
      {
        var it, rest := stack[|stack| - 1], stack[..|stack| - 1];
        TopItem(stack, pol);
        assert stack == rest + [it];
        ghost var before := paths + Coming(stack, pol);
        stack, cap := Turn(first, it, rest, cap);
        if Proper(tree) { SubThrough(paths + Coming(stack, pol), before, Reach(first, pol)); }
      }
      NoItems(pol);
      NothingComing(paths, pol);
      ok := true;
    }
  }

  // ---- what is left of the order when calls fail --------------------------------------------

  lemma SubNone<T>(ys: seq<T>)
    ensures Sub([], ys)
  {
  }

  lemma KeepsOrder(all: seq<Tree>, i: nat, kids: seq<Tree>)
    requires i < |all| && Sub(kids, Named(all[..i]))
    ensures Sub(kids, Named(all[..i + 1])) && Sub(kids, Named(all))
    ensures all[i].name.Some? ==> Sub(kids + [all[i]], Named(all[..i + 1]))
  {
    hide Named, Sub;
    assert all[..i + 1] == all[..i] + [all[i]];
    NamedSnoc(all[..i], all[i]);
    SubSnoc(kids, Named(all[..i]), all[i]);
    NamedPrefix(all, i);
    SubThrough(kids, Named(all[..i]), Named(all));
  }

  lemma {:induction false} NamedPrefix(all: seq<Tree>, i: nat)
    requires i <= |all|
    ensures Sub(Named(all[..i]), Named(all))
    decreases |all| - i
  {
    hide Named, Sub;
    if i == |all| {
      assert all[..i] == all;
      SubSelf(Named(all));
    } else {
      assert all[..i + 1] == all[..i] + [all[i]];
      NamedSnoc(all[..i], all[i]);
      SubSelf(Named(all[..i]));
      SubSnoc(Named(all[..i]), Named(all[..i]), all[i]);
      NamedPrefix(all, i + 1);
      SubThrough(Named(all[..i]), Named(all[..i + 1]), Named(all));
    }
  }

  /** What is left of an enumeration, sorted, is what is left of the sorted siblings. */
  lemma SomeSiblings(ks: seq<Tree>, found: seq<Tree>, sorted: seq<Tree>)
    requires OwnNames(ks) && Sub(found, Named(ks)) && SortedBy(sorted, NameLe) && Rearranges(sorted, found)
    ensures Sub(sorted, Siblings(ks))
  {
    hide OwnNames, Sub, Named;
    NameOrders();
    SortSorts(found, NameLe);
    SubIn(found, Named(ks));
    SameElements(found, sorted);
    forall x, y | x in sorted && y in sorted && NameLe(x, y) && NameLe(y, x) ensures x == y {
      NoTwins(ks, x, y);
    }
    SortedIsUnique(sorted, Sort(found, NameLe), NameLe);
    SubSort(found, Named(ks), NameLe);
  }

  lemma NoTwins(ks: seq<Tree>, x: Tree, y: Tree)
    requires OwnNames(ks) && x in Named(ks) && y in Named(ks) && NameLe(x, y) && NameLe(y, x)
    ensures x == y
  {
    NamedHave(ks, x);
    NamedHave(ks, y);
    LexAntiSymmetric(Key(x), Key(y));
    var i :| 0 <= i < |ks| && ks[i] == x;
    var j :| 0 <= j < |ks| && ks[j] == y;
    OneName(ks, i, j);
  }

  lemma SomeProper(it: Item, kids: seq<Tree>, action: Action)
    requires Begets(it, kids, action)
    ensures Proper(it.tree) ==> AllProper(kids)
  {
    if Proper(it.tree) {
      forall i | 0 <= i < |kids| ensures Proper(kids[i]) { assert kids[i] in it.tree.kids; }
    }
  }

  /** The walk goes on below a directory only where no guard that asks no handle stops it. */
  lemma OnlyIntoOpen(it: Item, kids: seq<Tree>, v: Visit, pol: Policy)
    requires Begets(it, kids, v.action) && Tells(it, v, pol)
    ensures kids != [] ==> Fate(it, Unasked(pol)) == Descended
    ensures v.shown.Some? ==> v.shown.value == Strip(it.path, pol.unc)
  {
    hide NoEnter, Strip;
  }

  lemma NoneComing(it: Item, kids: seq<Tree>, stack: seq<Item>, pol: Policy)
    ensures Sub(Coming(stack, pol), Reaches(it, kids[|kids|..], pol) + Coming(stack, pol))
  {
    hide Coming, Reaches, Sub;
    NoneReached(it, pol);
    assert kids[|kids|..] == [] && [] + Coming(stack, pol) == Coming(stack, pol);
    SubSelf(Coming(stack, pol));
  }

  lemma OnlyComing(it: Item, pol: Policy)
    ensures Sub([] + Coming([it], pol), Reach(it, pol))
  {
    hide Reach, Sub;
    assert [it][..0] == [] && [it][0] == it;
    assert [] + Coming([it], pol) == Reach(it, pol);
    SubSelf(Reach(it, pol));
  }

  lemma NothingComing(paths: seq<string>, pol: Policy)
    ensures paths + Coming([], pol) == paths
  {
  }

  /** A guard before the open decides the fate alone, and the tag is the scan's. */
  lemma Guards(it: Item, pol: Policy)
    ensures pol.depthcap >= 0 && it.depth >= pol.depthcap ==> AsSeen(it, DepthLimited, it.tag, it.tree.now, pol)
    ensures it.pruned && !(pol.depthcap >= 0 && it.depth >= pol.depthcap) ==>
      AsSeen(it, Pruned, it.tag, it.tree.now, pol)
    ensures !it.pruned && !(pol.depthcap >= 0 && it.depth >= pol.depthcap) && it.depth > 0 && NoEnter(it.tag) ==>
      AsSeen(it, NoFollow, it.tag, it.tree.now, pol)
  {
    hide NoEnter;
  }

  /** Going in and then failing to enumerate is a failure past the open. */
  lemma FailsInside(it: Item, tag: Option<nat>, pol: Policy)
    requires Opens(it, pol) && Judged(it, Descended, tag, pol)
    ensures Judged(it, Failed, tag, pol)
  {
    hide NoEnter;
  }

  lemma SeenIsFate(it: Item, pol: Policy)
    ensures forall action, tag :: AsSeen(it, action, tag, it.tree.now, pol) <==>
      action == Fate(it, pol) && tag == TagOf(it, pol)
  {
    hide Fate, TagOf;
    assert it.(tree := it.tree.(now := it.tree.now)) == it;
  }

  predicate Begets(it: Item, kids: seq<Tree>, action: Action) {
    if action == Descended then forall k :: k in kids ==> k in it.tree.kids && k.name.Some? else kids == []
  }

  lemma SameElements(xs: seq<Tree>, ys: seq<Tree>)
    requires Rearranges(ys, xs)
    ensures |ys| == |xs| && forall y :: y in ys ==> y in xs
  {
    assert |multiset(ys)| == |multiset(xs)|;
    forall y | y in ys ensures y in xs { assert y in multiset(ys); }
  }

  lemma BeginsGrown(root: Item, pol: Policy)
    ensures Grown(root, [], [], pol)
  {
  }

  lemma SprungLater(x: Item, items: seq<Item>, vs: seq<Visit>, it: Item, v: Visit, pol: Policy)
    requires |items| == |vs| && Sprung(x, items, vs, pol)
    ensures Sprung(x, items + [it], vs + [v], pol)
  {
    var p :| 0 <= p < |items| && p < |vs| && vs[p].action == Descended && IsKid(x, items[p], pol);
    assert (items + [it])[p] == items[p] && (vs + [v])[p] == vs[p];
  }

  lemma GrowsBy(root: Item, items: seq<Item>, vs: seq<Visit>, it: Item, v: Visit, rest: seq<Item>, stack: seq<Item>,
    kids: seq<Tree>, pol: Policy)
    requires Grown(root, items, vs, pol) && Begets(it, kids, v.action) && rest <= stack
    requires if items == [] then it == root && rest == [] else AllSprung(rest + [it], items, vs, pol)
    requires forall k :: |rest| <= k < |stack| ==> OneOf(stack[k], it, kids, pol)
    ensures Grown(root, items + [it], vs + [v], pol) && AllSprung(stack, items + [it], vs + [v], pol)
  {
    hide ChildItem, Sprung;
    var more, seen := items + [it], vs + [v];
    forall i | 0 <= i < |more| ensures if i == 0 then more[i] == root else Sprung(more[i], more[..i], seen[..i], pol) {
      if i < |items| {
        assert more[..i] == items[..i] && seen[..i] == vs[..i];
      } else {
        assert more[..i] == items && seen[..i] == vs && (rest + [it])[|rest|] == it;
      }
    }
    forall k | 0 <= k < |stack| ensures Sprung(stack[k], more, seen, pol) {
      if k < |rest| {
        assert (rest + [it])[k] == stack[k];
        SprungLater(stack[k], items, vs, it, v, pol);
      } else {
        KidSprung(stack[k], items, vs, it, v, pol);
      }
    }
  }

  lemma KidSprung(x: Item, items: seq<Item>, vs: seq<Visit>, it: Item, v: Visit, pol: Policy)
    requires |items| == |vs| && v.action == Descended && IsKid(x, it, pol)
    ensures Sprung(x, items + [it], vs + [v], pol)
  {
    assert (items + [it])[|items|] == it && (vs + [v])[|vs|] == v;
  }

  /** A subdirectory that has become a name surrogate since the scan is entered when the
      query on its handle, the second call, fails. */
  method EntersSurrogate(tree: Tree) returns (action: Action)
    requires NoEnter(tree.now)
    ensures action == Descended
  {
    var w := new Walker(Policy(-1, false, true, _ => false), k => k == 1);
    var tag;
    action, tag := w.Open(Item("\\\\?\\C:\\a", 1, None, false, tree));
  }

  lemma NoRows()
    ensures Missing([]) == 0
  {
  }

  lemma OneItem(it: Item, pol: Policy)
    ensures Agenda([it], pol) == Listing(it, pol)
    ensures [] + Agenda([it], pol) == Listing(it, pol)
    ensures ProperStack([it]) == Proper(it.tree)
  {
    hide Listing, Proper;
    assert [it][..0] == [] && [it][0] == it;
  }

  lemma NoItems(pol: Policy)
    ensures Agenda([], pol) == []
  {
  }

  lemma TopItem(stack: seq<Item>, pol: Policy)
    requires stack != []
    ensures var it, rest := stack[|stack| - 1], stack[..|stack| - 1];
      && Agenda(stack, pol) == Listing(it, pol) + Agenda(rest, pol)
      && Load(stack) == Load(rest) + Size(it.tree) && Size(it.tree) == 1 + Sizes(it.tree.kids)
      && (ProperStack(stack) ==> Proper(it.tree) && OwnNames(it.tree.kids) && ProperStack(rest))
  {
    hide Listing, Sizes;
  }

  lemma KidsProper(t: Tree)
    ensures AllProper([]) && (Proper(t) ==> AllProper(Siblings(t.kids)))
  {
    if Proper(t) {
      NameOrders();
      SortSorts(Named(t.kids), NameLe);
      forall i | 0 <= i < |Siblings(t.kids)| ensures Proper(Siblings(t.kids)[i]) {
        assert Siblings(t.kids)[i] in multiset(Siblings(t.kids));
        NamedHave(t.kids, Siblings(t.kids)[i]);
      }
    }
  }

  /** Listing one directory and pushing its kids leaves the whole of what is to be listed. */
  lemma Unfold(before: seq<Visit>, it: Item, v: Visit, kids: seq<Tree>, rest: seq<Item>, stack: seq<Item>, pol: Policy)
    requires v == VisitOf(it, pol) && kids == if Fate(it, pol) == Descended then Siblings(it.tree.kids) else []
    requires Agenda(stack, pol) == Listings(it, kids, pol) + Agenda(rest, pol)
    ensures before + [v] + Agenda(stack, pol) == before + (Listing(it, pol) + Agenda(rest, pol))
  {
    hide Siblings, Fate, VisitOf, Agenda;
    assert Listing(it, pol) == [VisitOf(it, pol)] + Listings(it, kids, pol);
    Reassociate(before, [v], Listings(it, kids, pol), Agenda(rest, pol));
  }

  lemma Reassociate(a: seq<Visit>, b: seq<Visit>, c: seq<Visit>, d: seq<Visit>)
    ensures a + (b + c + d) == a + b + (c + d)
  {
  }

  lemma NoKids(it: Item, kids: seq<Tree>, stack: seq<Item>, pol: Policy)
    ensures Sizes(kids[|kids|..]) == 0
    ensures Listings(it, kids[|kids|..], pol) + Agenda(stack, pol) == Agenda(stack, pol)
  {
    hide Agenda;
  }

  lemma KidsLeft(kids: seq<Tree>, i: nat)
    requires i <= |kids|
    ensures Sizes(kids[i..]) <= Sizes(kids)
  {
    assert kids == kids[..i] + kids[i..];
    SizesSplit(kids[..i], kids[i..]);
  }

  lemma OneKid(it: Item, kids: seq<Tree>, i: nat, stack: seq<Item>, pol: Policy)
    requires i < |kids|
    ensures Sizes(kids[i..]) == Size(kids[i]) + Sizes(kids[i + 1..])
    ensures Load(stack + [ChildItem(it, kids[i], pol)]) == Load(stack) + Size(kids[i])
    ensures var x := ChildItem(it, kids[i], pol); Agenda(stack + [x], pol) == Listing(x, pol) + Agenda(stack, pol)
    ensures forall rest :: Agenda(stack, pol) == Listings(it, kids[i + 1..], pol) + rest ==>
      Agenda(stack + [ChildItem(it, kids[i], pol)], pol) == Listings(it, kids[i..], pol) + rest
  {
    hide Sizes, Listing;
    var x := ChildItem(it, kids[i], pol);
    assert (stack + [x])[..|stack|] == stack;
    assert kids[i..][0] == kids[i] && kids[i..][1..] == kids[i + 1..];
    SizesHead(kids[i..]);
    assert Listings(it, kids[i..], pol) == Listing(x, pol) + Listings(it, kids[i + 1..], pol);
  }

  lemma NothingYet(all: seq<Tree>)
    ensures Sizes([]) == 0 && Named([]) == [] && Sizes(all[..0]) == 0 && Named(all[..0]) == []
    ensures Sizes([]) <= Sizes(all)
  {
    assert all[..0] == [];
  }

  lemma OneMore(all: seq<Tree>, i: nat, kids: seq<Tree>)
    requires i < |all|
    ensures Sizes(all[..i + 1]) == Sizes(all[..i]) + Size(all[i])
    ensures Sizes(kids + [all[i]]) == Sizes(kids) + Size(all[i])
    ensures Sizes(all[..i]) <= Sizes(all)
    ensures Named(all[..i + 1]) == if all[i].name.Some? then Named(all[..i]) + [all[i]] else Named(all[..i])
  {
    hide Named, Sizes;
    assert all[..i + 1] == all[..i] + [all[i]];
    SizesSnoc(all[..i], all[i]);
    SizesSnoc(kids, all[i]);
    NamedSnoc(all[..i], all[i]);
    SizesSplit(all[..i], all[i..]);
    assert all == all[..i] + all[i..];
  }

  lemma SizesRearranged(xs: seq<Tree>, ys: seq<Tree>)
    requires Rearranges(ys, xs)
    ensures Sizes(xs) == Sizes(ys)
    decreases |xs|
  {
    if xs == [] {
      assert |multiset(ys)| == 0;
    } else {
      var x := xs[|xs| - 1];
      assert xs == xs[..|xs| - 1] + [x];
      assert x in multiset(ys);
      var j :| 0 <= j < |ys| && ys[j] == x;
      assert ys == ys[..j] + [x] + ys[j + 1..];
      assert multiset(ys[..j] + ys[j + 1..]) == multiset(ys) - multiset{x};
      assert multiset(xs[..|xs| - 1]) == multiset(xs) - multiset{x};
      SizesRearranged(xs[..|xs| - 1], ys[..j] + ys[j + 1..]);
      SizesSplit(ys[..j], ys[j + 1..]);
      SizesSplit(ys[..j] + [x], ys[j + 1..]);
      SizesSnoc(ys[..j], x);
    }
  }

  lemma {:induction false} NamedHave(ks: seq<Tree>, x: Tree)
    requires x in Named(ks)
    ensures x in ks && x.name.Some?
  {
    if x in Named(ks[..|ks| - 1]) { NamedHave(ks[..|ks| - 1], x); }
  }

  lemma OneName(ks: seq<Tree>, i: nat, j: nat)
    requires OwnNames(ks) && i < |ks| && j < |ks| && ks[i].name.Some? && ks[i].name == ks[j].name
    ensures i == j
  {
  }

  /** Names being different, the sort has one outcome whatever order came in. */
  lemma SiblingsUnique(ks: seq<Tree>, sorted: seq<Tree>)
    requires OwnNames(ks) && SortedBy(sorted, NameLe) && Rearranges(sorted, Named(ks))
    ensures sorted == Siblings(ks)
  {
    NameOrders();
    SortSorts(Named(ks), NameLe);
    forall x, y | x in sorted && y in sorted && NameLe(x, y) && NameLe(y, x) ensures x == y {
      assert x in multiset(sorted) && y in multiset(sorted);
      NoTwins(ks, x, y);
    }
    SortedIsUnique(sorted, Siblings(ks), NameLe);
  }
}