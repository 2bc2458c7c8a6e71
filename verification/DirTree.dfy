/** What `dirs` should list: a directory tree in pre-order, siblings in code-point
    order, cut by depth, prune patterns and name surrogates. */
module DirTree {
  import opened TclValues
  import opened Sorting

  /** A directory as the file system has it. `name` is None when it cannot be written as
      text; `tag` is the reparse tag its parent's scan shows, `now` what a handle on it
      shows; `kids` come in the order the system enumerates them. */
  datatype Tree = Tree(name: Option<string>, tag: Option<nat>, now: Option<nat>, kids: seq<Tree>)

  /** What the caller asked, and whether a handle on a directory can be asked what it is. */
  datatype Policy = Policy(depthcap: int, unc: bool, answers: bool, prune: string -> bool)

  /** DirsItem: a directory waiting to be listed. */
  datatype Item = Item(path: string, depth: nat, tag: Option<nat>, pruned: bool, tree: Tree)

  datatype Action = Descended | DepthLimited | Pruned | NoFollow | Failed

  /** One directory taken from the stack, and what became of it. */
  datatype Visit = Visit(shown: Option<string>, depth: nat, tag: Option<nat>, action: Action)

  const SURROGATE: nat := 0x2000_0000
  const TAG_DFS: nat := 0x8000_000A
  const TAG_DFSR: nat := 0x8000_0012

  predicate Surrogate(tag: nat) {
    tag / SURROGATE % 2 == 1
  }

  /** dirs_isname. */
  predicate IsName(tag: nat) {
    Surrogate(tag) || tag == TAG_DFS || tag == TAG_DFSR
  }

  predicate NoEnter(tag: Option<nat>) {
    tag.Some? && IsName(tag.value)
  }

  /** dirs_join. */
  function Join(parent: string, name: string): string {
    parent + (if parent != "" && parent[|parent| - 1] != '\\' then "\\" else "") + name
  }

  function Slashes(s: string): string {
    if s == "" then "" else [if s[0] == '\\' then '/' else s[0]] + Slashes(s[1..])
  }

  /** dirs_strip: without the \\?\ or \\?\UNC\ prefix, in forward slashes. */
  function Strip(path: string, unc: bool): string {
    if unc then "//" + Slashes(if |path| < 8 then "" else path[8..])
    else Slashes(if |path| < 4 then "" else path[4..])
  }

  // ---- order ---------------------------------------------------------------------------

  function Key(t: Tree): string {
    if t.name.Some? then t.name.value else ""
  }

  predicate NameLe(x: Tree, y: Tree) {
    LexLe(Key(x), Key(y))
  }

  lemma NameOrders()
    ensures TotalPreorder(NameLe)
  {
    forall x, y ensures NameLe(x, y) || NameLe(y, x) { LexTotal(Key(x), Key(y)); }
    forall x, y, z | NameLe(x, y) && NameLe(y, z) ensures NameLe(x, z) { LexTransitive(Key(x), Key(y), Key(z)); }
  }

  /** The kids whose name is text. */
  function Named(ks: seq<Tree>): seq<Tree> {
    if ks == [] then []
    else Named(ks[..|ks| - 1]) + if ks[|ks| - 1].name.Some? then [ks[|ks| - 1]] else []
  }

  ghost function Siblings(ks: seq<Tree>): seq<Tree> {
    Sort(Named(ks), NameLe)
  }

  /** No two entries of one directory have the same name. */
  predicate OwnNames(ks: seq<Tree>) {
    forall i, j :: 0 <= i < j < |ks| && ks[i].name.Some? ==> ks[i].name != ks[j].name
  }

  predicate Proper(t: Tree)
    decreases t
  {
    OwnNames(t.kids) && forall i :: 0 <= i < |t.kids| ==> Proper(t.kids[i])
  }

  // ---- sizes ----------------------------------------------------------------------------

  function Size(t: Tree): (n: nat)
    ensures n >= 1
    decreases t, 1
  {
    1 + Sizes(t.kids)
  }

  function Sizes(ks: seq<Tree>): nat
    decreases ks, 0
  {
    if ks == [] then 0 else Sizes(ks[..|ks| - 1]) + Size(ks[|ks| - 1])
  }

  lemma SizesSnoc(ks: seq<Tree>, k: Tree)
    ensures Sizes(ks + [k]) == Sizes(ks) + Size(k)
  {
    assert (ks + [k])[..|ks|] == ks;
  }

  lemma {:induction false} SizesSplit(a: seq<Tree>, b: seq<Tree>)
    ensures Sizes(a + b) == Sizes(a) + Sizes(b)
    decreases |b|
  {
    if b == [] {
      assert a + b == a;
    } else {
      SizesSplit(a, b[..|b| - 1]);
      assert a + b == a + b[..|b| - 1] + [b[|b| - 1]];
      SizesSnoc(a + b[..|b| - 1], b[|b| - 1]);
    }
  }

  lemma {:induction false} SizesInsert(ks: seq<Tree>, k: Tree)
    ensures Sizes(Insert(ks, k, NameLe)) == Sizes(ks) + Size(k)
  {
    if ks == [] {
      assert [k] == [] + [k];
      SizesSnoc([], k);
    } else if NameLe(k, ks[0]) {
      SizesSplit([k], ks);
      assert [k] == [] + [k];
      SizesSnoc([], k);
    } else {
      SizesInsert(ks[1..], k);
      SizesSplit([ks[0]], Insert(ks[1..], k, NameLe));
      SizesSplit([ks[0]], ks[1..]);
      assert ks == [ks[0]] + ks[1..];
    }
  }

  lemma {:induction false} SizesSort(ks: seq<Tree>)
    ensures Sizes(Sort(ks, NameLe)) == Sizes(ks)
  {
    if ks != [] {
      SizesSort(ks[1..]);
      SizesInsert(Sort(ks[1..], NameLe), ks[0]);
      SizesSplit([ks[0]], ks[1..]);
      assert ks == [ks[0]] + ks[1..];
      assert [ks[0]] == [] + [ks[0]];
      SizesSnoc([], ks[0]);
    }
  }

  lemma NamedSnoc(ks: seq<Tree>, k: Tree)
    ensures Named(ks + [k]) == if k.name.Some? then Named(ks) + [k] else Named(ks)
  {
    assert (ks + [k])[..|ks|] == ks;
  }

  lemma {:induction false} SizesNamed(ks: seq<Tree>)
    ensures Sizes(Named(ks)) <= Sizes(ks)
  {
    if ks != [] {
      var front, last := ks[..|ks| - 1], ks[|ks| - 1];
      SizesNamed(front);
      SizesNamedSnoc(front, last);
      assert ks == front + [last];
    }
  }

  lemma SizesNamedSnoc(front: seq<Tree>, last: Tree)
    requires Sizes(Named(front)) <= Sizes(front)
    ensures Sizes(Named(front + [last])) <= Sizes(front + [last])
  {
    hide Sizes, Named;
    NamedSnoc(front, last);
    SizesSnoc(front, last);
    SizesSnoc(Named(front), last);
  }

  lemma SiblingsSmaller(t: Tree)
    ensures Sizes(Siblings(t.kids)) < Size(t)
  {
    SizesSort(Named(t.kids));
    SizesNamed(t.kids);
  }

  lemma SizesHead(ks: seq<Tree>)
    requires ks != []
    ensures Sizes(ks) == Size(ks[0]) + Sizes(ks[1..])
  {
    SizesSplit([ks[0]], ks[1..]);
    assert ks == [ks[0]] + ks[1..];
    assert [ks[0]] == [] + [ks[0]];
    SizesSnoc([], ks[0]);
  }

  // ---- the listing ------------------------------------------------------------------------

  /** What stops the walk at a directory, when nothing fails. The root is entered whatever
      it is: the caller named it. */
  function Fate(it: Item, pol: Policy): Action {
    if pol.depthcap >= 0 && it.depth >= pol.depthcap then DepthLimited
    else if it.pruned then Pruned
    else if it.depth > 0 && NoEnter(it.tag) then NoFollow
    else if it.depth > 0 && pol.answers && NoEnter(it.tree.now) then NoFollow
    else Descended
  }

  /** The tag reported: the handle's word, once there is one. */
  function TagOf(it: Item, pol: Policy): Option<nat> {
    var asked := Fate(it, pol) == Descended || (Fate(it, pol) == NoFollow && !NoEnter(it.tag));
    if it.depth > 0 && pol.answers && it.tree.now.Some? && asked then it.tree.now else it.tag
  }

  function VisitOf(it: Item, pol: Policy): Visit {
    Visit(Some(Strip(it.path, pol.unc)), it.depth, TagOf(it, pol), Fate(it, pol))
  }

  function ChildItem(it: Item, k: Tree, pol: Policy): Item {
    Item(Join(it.path, Key(k)), it.depth + 1, k.tag, pol.prune(Key(k)), k)
  }

  /** Pre-order: the directory, then its subdirectories in name order. */
  ghost function Listing(it: Item, pol: Policy): seq<Visit>
    decreases Size(it.tree), 0
  {
    SiblingsSmaller(it.tree);
    [VisitOf(it, pol)] + if Fate(it, pol) == Descended then Listings(it, Siblings(it.tree.kids), pol) else []
  }

  ghost function Listings(it: Item, ks: seq<Tree>, pol: Policy): seq<Visit>
    decreases Sizes(ks), 1 + |ks|
  {
    if ks == [] then []
    else
      SizesHead(ks);
      Listing(ChildItem(it, ks[0], pol), pol) + Listings(it, ks[1..], pol)
  }
}
