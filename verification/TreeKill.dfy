/** `ps kill -tree`: which processes are attempted, and in what order. */
module TreeKill {
  import opened TclValues
  import opened Sorting

  /** One row of the process snapshot. */
  datatype Proc = Proc(pid: nat, ppid: nat)

  datatype Node = Node(pid: nat, ppid: nat, depth: int)

  predicate DistinctPids(ps: seq<Proc>) {
    forall i, j :: 0 <= i < j < |ps| ==> ps[i].pid != ps[j].pid
  }

  predicate System(pid: nat) {
    pid == 0 || pid == 4
  }

  /** k parent links lead from row i to the target, first reached at the end, and no row
      before it is the idle or the system process. */
  ghost predicate Chain(ps: seq<Proc>, target: nat, i: nat, k: nat)
    requires i < |ps|
    decreases k
  {
    if k == 0 then ps[i].pid == target
    else
      && ps[i].pid != target && !System(ps[i].pid)
      && exists j :: 0 <= j < |ps| && ParentAt(ps, i, j) && Chain(ps, target, j, k - 1)
  }

  predicate ParentAt(ps: seq<Proc>, i: nat, j: nat)
    requires i < |ps| && j < |ps|
  {
    ps[i].ppid == ps[j].pid
  }

  /** Row i is the target or descends from it. */
  ghost predicate InTree(ps: seq<Proc>, target: nat, i: nat)
    requires i < |ps|
  {
    exists k :: Chain(ps, target, i, k)
  }

  lemma {:induction false} ChainUnique(ps: seq<Proc>, target: nat, i: nat, k: nat, m: nat)
    requires DistinctPids(ps) && i < |ps| && Chain(ps, target, i, k) && Chain(ps, target, i, m)
    ensures k == m
    decreases k
  {
    if k > 0 && m > 0 {
      var j :| 0 <= j < |ps| && ParentAt(ps, i, j) && Chain(ps, target, j, k - 1);
      var l :| 0 <= l < |ps| && ParentAt(ps, i, l) && Chain(ps, target, l, m - 1);
      assert j == l;
      ChainUnique(ps, target, j, k - 1, m - 1);
    }
  }

  // ---- the relaxation --------------------------------------------------------------

  function Depths(ns: seq<Node>): nat {
    if ns == [] then 0 else Depths(ns[..|ns| - 1]) + if ns[|ns| - 1].depth >= 0 then 1 else 0
  }

  /** The array holds the snapshot, and every depth in it is the length of a chain. */
  ghost predicate Marks(ns: seq<Node>, ps: seq<Proc>, target: nat) {
    && |ns| == |ps|
    && forall i :: 0 <= i < |ns| ==>
         && ns[i].pid == ps[i].pid && ns[i].ppid == ps[i].ppid && ns[i].depth >= -1
         && (ns[i].depth >= 0 ==> Chain(ps, target, i, ns[i].depth))
         && (ns[i].pid == target ==> ns[i].depth == 0)
  }


  /** i could be given a depth from j. */
  predicate Open(ns: seq<Node>, i: nat, j: nat)
    requires i < |ns| && j < |ns|
  {
    ns[i].depth < 0 && ns[j].depth >= 0 && ns[i].ppid == ns[j].pid && !System(ns[i].pid)
  }

  predicate Fixed(ns: seq<Node>) {
    forall i, j :: 0 <= i < |ns| && 0 <= j < |ns| ==> !Open(ns, i, j)
  }

  /** At the fixpoint a row has a depth exactly when it is in the tree. */
  lemma {:induction false} FixedIsComplete(ns: seq<Node>, ps: seq<Proc>, target: nat, i: nat, k: nat)
    requires Marks(ns, ps, target) && Fixed(ns) && i < |ps| && Chain(ps, target, i, k)
    ensures ns[i].depth >= 0
    decreases k
  {
    if k > 0 {
      var j :| 0 <= j < |ps| && ParentAt(ps, i, j) && Chain(ps, target, j, k - 1);
      FixedIsComplete(ns, ps, target, j, k - 1);
      assert !Open(ns, i, j);
    }
  }

  lemma {:induction false} DepthsBound(ns: seq<Node>)
    ensures Depths(ns) <= |ns|
    ensures Depths(ns) == 0 ==> forall i :: 0 <= i < |ns| ==> ns[i].depth < 0
  {
    if ns != [] { DepthsBound(ns[..|ns| - 1]); }
  }

  lemma {:induction false} OneMoreDepth(ns: seq<Node>, i: nat, d: nat)
    requires i < |ns| && ns[i].depth < 0
    ensures Depths(ns[i := ns[i].(depth := d)]) == Depths(ns) + 1
  {
    var ms := ns[i := ns[i].(depth := d)];
    if i < |ns| - 1 {
      OneMoreDepth(ns[..|ns| - 1], i, d);
      assert ms[..|ms| - 1] == ns[..|ns| - 1][i := ns[i].(depth := d)];
    } else {
      assert ms[..|ms| - 1] == ns[..|ns| - 1];
    }
  }

  /** One pass over row i: the first row that can give it a depth does. */
  method RelaxRow(a: array<Node>, i: nat, ghost ps: seq<Proc>, target: nat) returns (changed: bool)
    requires i < a.Length && Marks(a[..], ps, target)
    modifies a
    ensures Marks(a[..], ps, target)
    ensures changed ==> Depths(a[..]) == old(Depths(a[..])) + 1 && old(Depths(a[..])) > 0
    ensures !changed ==> a[..] == old(a[..]) && forall j :: 0 <= j < a.Length ==> !Open(a[..], i, j)
  {
    if a[i].depth >= 0 { return false; }
    for j := 0 to a.Length
      invariant a[..] == old(a[..])
      invariant forall l :: 0 <= l < j ==> !Open(a[..], i, l)
    {
      if a[j].depth >= 0 && a[i].ppid == a[j].pid && !System(a[i].pid) {
        ghost var ns := a[..];
        assert ParentAt(ps, i, j);
        assert Chain(ps, target, i, a[j].depth + 1);
        OneMoreDepth(ns, i, a[j].depth + 1);
        DepthsBound(ns);
        a[i] := a[i].(depth := a[j].depth + 1);
        assert a[..] == ns[i := ns[i].(depth := ns[j].depth + 1)];
        return true;
      }
    }
    changed := false;
  }

  /** The passes stop at the fixpoint, and do so within n of them. */
  method Relax(a: array<Node>, ghost ps: seq<Proc>, target: nat)
    requires Marks(a[..], ps, target)
    modifies a
    ensures Marks(a[..], ps, target) && Fixed(a[..])
  {
    var n := a.Length;
    var changed := n > 0;
    var pass := 0;
    while pass < n && changed
      invariant pass <= n && Marks(a[..], ps, target)
      invariant changed && pass > 0 ==> Depths(a[..]) > pass
      invariant !changed ==> Fixed(a[..])
    {
      changed := false;
      ghost var start := a[..];
      DepthsBound(a[..]);
      for i := 0 to n
        invariant Marks(a[..], ps, target)
        invariant changed ==> Depths(a[..]) > Depths(start) > 0
        invariant !changed ==> a[..] == start
        invariant !changed ==> forall l, j :: 0 <= l < i && 0 <= j < n ==> !Open(start, l, j)
      {
        var now := RelaxRow(a, i, ps, target);
        if now { changed := true; }
      }
      pass := pass + 1;
    }
    DepthsBound(a[..]);
  }

  // ---- the order ---------------------------------------------------------------------

  /** ps_depth_desc. */
  predicate DepthDesc(x: Node, y: Node) {
    x.depth > y.depth || (x.depth == y.depth && x.pid <= y.pid)
  }

  /** The pids to attempt before the target, in the order of the sorted rows. */
  function Doomed(ns: seq<Node>, target: nat): seq<nat> {
    if ns == [] then []
    else
      var last := ns[|ns| - 1];
      Doomed(ns[..|ns| - 1], target) + if last.depth < 0 || last.pid == target then [] else [last.pid]
  }

  lemma {:induction false} DoomedAre(ns: seq<Node>, target: nat, pid: nat)
    ensures pid in Doomed(ns, target) <==>
            exists i :: 0 <= i < |ns| && ns[i].pid == pid && ns[i].depth >= 0 && pid != target
  {
    if ns != [] {
      var ms := ns[..|ns| - 1];
      DoomedAre(ms, target, pid);
      if i :| 0 <= i < |ns| && ns[i].pid == pid && ns[i].depth >= 0 && pid != target {
        if i < |ms| { assert ms[i] == ns[i]; }
      }
      if i :| 0 <= i < |ms| && ms[i].pid == pid && ms[i].depth >= 0 && pid != target {
        assert ns[i] == ms[i];
      }
    }
  }

  predicate PidsDiffer(ns: seq<Node>) {
    forall i, j :: 0 <= i < j < |ns| ==> ns[i].pid != ns[j].pid
  }

  /** The rows of these two pids stand in order. */
  predicate PairInOrder(ns: seq<Node>, p: nat, q: nat) {
    forall i, j :: 0 <= i < |ns| && 0 <= j < |ns| ==> (ns[i].pid == p && ns[j].pid == q ==> DepthDesc(ns[i], ns[j]))
  }

  /** The pids stand in the order of their rows. */
  predicate InRowOrder(ns: seq<Node>, d: seq<nat>) {
    forall u, v :: 0 <= u < v < |d| ==> PairInOrder(ns, d[u], d[v])
  }

  predicate Once(d: seq<nat>) {
    forall u, v :: 0 <= u < v < |d| ==> d[u] != d[v]
  }

  /** Attempted in the order of the rows, each once. */
  lemma {:induction false} DoomedOrder(ns: seq<Node>, target: nat)
    requires PidsDiffer(ns) && SortedBy(ns, DepthDesc)
    ensures Once(Doomed(ns, target)) && InRowOrder(ns, Doomed(ns, target))
  {
    if ns != [] {
      var ms, last := ns[..|ns| - 1], ns[|ns| - 1];
      var d, e := Doomed(ms, target), Doomed(ns, target);
      DoomedOrder(ms, target);
      forall u | 0 <= u < |d| ensures HasPid(ms, d[u]) {
        DoomedAre(ms, target, d[u]);
      }
      OneMoreRow(ns, d);
    }
  }

  predicate HasPid(ns: seq<Node>, pid: nat) {
    exists i :: 0 <= i < |ns| && ns[i].pid == pid
  }

  lemma OneMoreRow(ns: seq<Node>, d: seq<nat>)
    requires ns != [] && PidsDiffer(ns) && SortedBy(ns, DepthDesc)
    requires InRowOrder(ns[..|ns| - 1], d) && Once(d)
    requires forall u :: 0 <= u < |d| ==> HasPid(ns[..|ns| - 1], d[u])
    ensures InRowOrder(ns, d) && InRowOrder(ns, d + [ns[|ns| - 1].pid]) && Once(d + [ns[|ns| - 1].pid])
  {
    hide PairInOrder, HasPid, PidsDiffer, SortedBy, DepthDesc;
    var e := d + [ns[|ns| - 1].pid];
    forall u | 0 <= u < |d| ensures d[u] != ns[|ns| - 1].pid && PairInOrder(ns, d[u], ns[|ns| - 1].pid) {
      PairLast(ns, d[u]);
    }
    forall u, v | 0 <= u < v < |d| ensures PairInOrder(ns, d[u], d[v]) {
      PairGrows(ns, d[u], d[v]);
    }
  }

  lemma PairLast(ns: seq<Node>, p: nat)
    requires ns != [] && PidsDiffer(ns) && SortedBy(ns, DepthDesc) && HasPid(ns[..|ns| - 1], p)
    ensures p != ns[|ns| - 1].pid && PairInOrder(ns, p, ns[|ns| - 1].pid)
  {
    var ms := ns[..|ns| - 1];
    var i :| 0 <= i < |ms| && ms[i].pid == p;
    assert ns[i] == ms[i];
  }

  lemma PairGrows(ns: seq<Node>, p: nat, q: nat)
    requires ns != [] && PidsDiffer(ns) && HasPid(ns[..|ns| - 1], p) && HasPid(ns[..|ns| - 1], q)
    requires PairInOrder(ns[..|ns| - 1], p, q)
    ensures PairInOrder(ns, p, q)
  {
    var ms := ns[..|ns| - 1];
    var i :| 0 <= i < |ms| && ms[i].pid == p;
    var j :| 0 <= j < |ms| && ms[j].pid == q;
    assert ns[i] == ms[i] && ns[j] == ms[j];
    assert DepthDesc(ms[i], ms[j]);
  }

  lemma DepthDescOrders()
    ensures TotalPreorder(DepthDesc)
  {
  }

  // ---- the command -----------------------------------------------------------------------

  datatype Failed = Failed(pid: nat, code: string)

  datatype Outcome =
    | Denied
    | Result(killed: seq<nat>, failed: seq<Failed>)

  /** One ps_kill_one on each pid; `fate` gives the error code, if any. */
  function Killed(pids: seq<nat>, fate: nat -> Option<string>): seq<nat> {
    if pids == [] then []
    else Killed(pids[..|pids| - 1], fate) + if fate(pids[|pids| - 1]).None? then [pids[|pids| - 1]] else []
  }

  function Spared(pids: seq<nat>, fate: nat -> Option<string>): seq<Failed> {
    if pids == [] then []
    else
      var p := pids[|pids| - 1];
      Spared(pids[..|pids| - 1], fate) + if fate(p).Some? then [Failed(p, fate(p).value)] else []
  }

  /** Every attempt is accounted for once. */
  lemma {:induction false} EachAttemptOnce(pids: seq<nat>, fate: nat -> Option<string>, p: nat)
    ensures multiset(pids)[p] == multiset(Killed(pids, fate))[p] + multiset(Names(Spared(pids, fate)))[p]
    ensures p in Killed(pids, fate) ==> fate(p).None?
    ensures p in Names(Spared(pids, fate)) ==> fate(p).Some?
  {
    hide Killed, Spared, Names;
    if pids == [] {
      NoAttempt(fate);
    } else {
      var q, rest := pids[|pids| - 1], pids[..|pids| - 1];
      EachAttemptOnce(rest, fate, p);
      OneAttempt(rest, q, fate);
      Count(rest, q, p);
      Count(Killed(rest, fate), q, p);
      Count(Names(Spared(rest, fate)), q, p);
      assert pids == rest + [q];
    }
  }

  /** Each failure is listed with its own error. */
  lemma {:induction false} FailuresSayWhy(pids: seq<nat>, fate: nat -> Option<string>)
    ensures forall f :: f in Spared(pids, fate) ==> f.pid in pids && fate(f.pid) == Some(f.code)
  {
    if pids != [] { FailuresSayWhy(pids[..|pids| - 1], fate); }
  }

  lemma NoAttempt(fate: nat -> Option<string>)
    ensures Killed([], fate) == [] && Names(Spared([], fate)) == []
  {
  }

  lemma OneAttempt(rest: seq<nat>, q: nat, fate: nat -> Option<string>)
    ensures Killed(rest + [q], fate) == Killed(rest, fate) + if fate(q).None? then [q] else []
    ensures Names(Spared(rest + [q], fate)) == Names(Spared(rest, fate)) + if fate(q).Some? then [q] else []
  {
    assert (rest + [q])[..|rest|] == rest;
  }

  lemma Count(xs: seq<nat>, q: nat, p: nat)
    ensures multiset(xs + [q])[p] == multiset(xs)[p] + if p == q then 1 else 0
    ensures p in xs + [q] <==> p in xs || p == q
  {
  }

  function Names(fs: seq<Failed>): seq<nat> {
    seq(|fs|, i requires 0 <= i < |fs| => fs[i].pid)
  }

  /** Deeper descendants first, and by pid among those of one depth; the last is exempt. */
  ghost predicate DeepestFirst(ps: seq<Proc>, target: nat, pids: seq<nat>) {
    forall u, v, i, j, k, m :: 0 <= u < v < |pids| - 1 && 0 <= i < |ps| && 0 <= j < |ps| ==>
      (pids[u] == ps[i].pid && pids[v] == ps[j].pid && Chain(ps, target, i, k) && Chain(ps, target, j, m)
       ==> k > m || (k == m && pids[u] < pids[v]))
  }

  /** The pids to attempt for a snapshot, in order: the target's descendants, each once, and
      then the target. */
  ghost predicate Attempts(ps: seq<Proc>, target: nat, pids: seq<nat>) {
    && pids != [] && pids[|pids| - 1] == target
    && Once(pids)
    && (forall p :: p in pids <==> p == target || exists i :: 0 <= i < |ps| && ps[i].pid == p && InTree(ps, target, i))
    && DeepestFirst(ps, target, pids)
  }

  /** Every descendant is attempted before its parent. */
  lemma ChildBeforeParent(ps: seq<Proc>, target: nat, pids: seq<nat>, i: nat, j: nat, u: nat)
    requires DistinctPids(ps) && Attempts(ps, target, pids)
    requires i < |ps| && j < |ps| && ps[i].pid != target && InTree(ps, target, i) && ParentAt(ps, i, j)
    requires u < |pids| && pids[u] == ps[j].pid
    ensures ps[i].pid in pids[..u]
  {
    var k: nat :| Chain(ps, target, i, k);
    var l :| 0 <= l < |ps| && ParentAt(ps, i, l) && Chain(ps, target, l, k - 1);
    assert l == j;
    assert i != j by { if i == j { ChainUnique(ps, target, i, k, k - 1); } }
    assert ps[i].pid in pids;
    var v :| 0 <= v < |pids| && pids[v] == ps[i].pid;
    assert !(u < v);
  }

  lemma TreeAttempts(ns: seq<Node>, sorted: seq<Node>, ps: seq<Proc>, target: nat)
    requires DistinctPids(ps) && Marks(ns, ps, target) && Fixed(ns)
    requires SortedBy(sorted, DepthDesc) && Rearranges(sorted, ns)
    ensures Attempts(ps, target, Doomed(sorted, target) + [target])
  {
    var pids := Doomed(sorted, target) + [target];
    SortedPids(ns, sorted, ps, target);
    DoomedOrder(sorted, target);
    forall p
      ensures p in pids <==> p == target || exists i :: 0 <= i < |ps| && ps[i].pid == p && InTree(ps, target, i)
    {
      DoomedAre(sorted, target, p);
      DoomedInTree(ns, sorted, ps, target, p);
    }
    forall u | 0 <= u < |Doomed(sorted, target)| ensures pids[u] != target {
      DoomedAre(sorted, target, pids[u]);
    }
    DoomedDeepestFirst(ns, sorted, ps, target);
  }

  lemma DoomedDeepestFirst(ns: seq<Node>, sorted: seq<Node>, ps: seq<Proc>, target: nat)
    requires DistinctPids(ps) && Marks(ns, ps, target) && Fixed(ns)
    requires InRowOrder(sorted, Doomed(sorted, target)) && Once(Doomed(sorted, target))
    requires forall i :: 0 <= i < |ns| ==> ns[i] in sorted
    ensures DeepestFirst(ps, target, Doomed(sorted, target) + [target])
  {
    hide Doomed, Chain;
    var d := Doomed(sorted, target);
    var pids := d + [target];
    forall u, v, i, j, k, m | 0 <= u < v < |d| && 0 <= i < |ps| && 0 <= j < |ps|
      && pids[u] == ps[i].pid && pids[v] == ps[j].pid && Chain(ps, target, i, k) && Chain(ps, target, j, m)
      ensures k > m || (k == m && pids[u] < pids[v])
    {
      FixedIsComplete(ns, ps, target, i, k);
      FixedIsComplete(ns, ps, target, j, m);
      ChainUnique(ps, target, i, k, ns[i].depth);
      ChainUnique(ps, target, j, m, ns[j].depth);
      var x :| 0 <= x < |sorted| && sorted[x] == ns[i];
      var y :| 0 <= y < |sorted| && sorted[y] == ns[j];
      assert PairInOrder(sorted, d[u], d[v]);
      assert DepthDesc(sorted[x], sorted[y]);
    }
  }

  lemma SortedPids(ns: seq<Node>, sorted: seq<Node>, ps: seq<Proc>, target: nat)
    requires DistinctPids(ps) && Marks(ns, ps, target) && Rearranges(sorted, ns)
    ensures PidsDiffer(sorted)
    ensures forall i :: 0 <= i < |sorted| ==> sorted[i] in ns
    ensures forall i :: 0 <= i < |ns| ==> ns[i] in sorted
  {
    forall i | 0 <= i < |sorted| ensures sorted[i] in ns { assert sorted[i] in multiset(sorted); }
    forall i | 0 <= i < |ns| ensures ns[i] in sorted { assert ns[i] in multiset(ns); }
    forall i, j | 0 <= i < j < |sorted| ensures sorted[i].pid != sorted[j].pid {
      if sorted[i].pid == sorted[j].pid {
        var u :| 0 <= u < |ns| && ns[u] == sorted[i];
        var v :| 0 <= v < |ns| && ns[v] == sorted[j];
        assert u == v;
        TwiceInSeq(sorted, i, j);
        OnceInSeq(ns, u);
      }
    }
  }

  lemma TwiceInSeq(xs: seq<Node>, i: nat, j: nat)
    requires i < j < |xs| && xs[i] == xs[j]
    ensures multiset(xs)[xs[i]] >= 2
  {
    assert xs == xs[..j] + [xs[j]] + xs[j + 1..];
    assert xs[..j][i] == xs[i] && xs[i] in multiset(xs[..j]);
  }

  lemma OnceInSeq(xs: seq<Node>, i: nat)
    requires i < |xs| && PidsDiffer(xs)
    ensures multiset(xs)[xs[i]] == 1
  {
    assert xs == xs[..i] + [xs[i]] + xs[i + 1..];
    assert xs[i] !in xs[..i] && xs[i] !in xs[i + 1..];
    assert xs[i] !in multiset(xs[..i]) && xs[i] !in multiset(xs[i + 1..]);
  }

  lemma DoomedInTree(ns: seq<Node>, sorted: seq<Node>, ps: seq<Proc>, target: nat, p: nat)
    requires Marks(ns, ps, target) && Fixed(ns)
    requires forall i :: 0 <= i < |sorted| ==> sorted[i] in ns
    requires forall i :: 0 <= i < |ns| ==> ns[i] in sorted
    ensures p != target ==>
      (p in Doomed(sorted, target) <==> exists i :: 0 <= i < |ps| && ps[i].pid == p && InTree(ps, target, i))
    ensures (exists i :: 0 <= i < |ps| && ps[i].pid == p && InTree(ps, target, i)) ==>
      p == target || p in Doomed(sorted, target)
  {
    DoomedAre(sorted, target, p);
    if p in Doomed(sorted, target) {
      var i :| 0 <= i < |sorted| && sorted[i].pid == p && sorted[i].depth >= 0;
      var u :| 0 <= u < |ns| && ns[u] == sorted[i];
      assert Chain(ps, target, u, ns[u].depth);
      assert InTree(ps, target, u);
    }
    if i :| 0 <= i < |ps| && ps[i].pid == p && InTree(ps, target, i) {
      var k :| Chain(ps, target, i, k);
      FixedIsComplete(ns, ps, target, i, k);
      assert ns[i] in sorted;
      var v :| 0 <= v < |sorted| && sorted[v] == ns[i];
    }
  }

  /** `ps kill pid -tree`. `attempts` logs the ps_kill_one calls. */
  method KillTree(ps: seq<Proc>, target: nat, fate: nat -> Option<string>)
    returns (r: Outcome, attempts: seq<nat>)
    requires DistinctPids(ps)
    ensures r == Denied <==> target == 0 || target == 4
    ensures System(target) ==> r == Denied && attempts == []
    ensures !System(target) ==> Attempts(ps, target, attempts)
    ensures !System(target) ==> r == Result(Killed(attempts, fate), Spared(attempts, fate))
  {
    if System(target) { return Denied, []; }
    var nodes := new Node[|ps|](i requires 0 <= i < |ps| =>
      Node(ps[i].pid, ps[i].ppid, if ps[i].pid == target then 0 else -1));
    assert Marks(nodes[..], ps, target);
    Relax(nodes, ps, target);
    DepthDescOrders();
    var sorted := Qsort(nodes[..], DepthDesc);
    TreeAttempts(nodes[..], sorted, ps, target);
    var killed, failed;
    attempts, killed, failed := [], [], [];
    for i := 0 to |sorted|
      invariant attempts == Doomed(sorted[..i], target)
      invariant killed == Killed(attempts, fate) && failed == Spared(attempts, fate)
    {
      assert sorted[..i + 1][..i] == sorted[..i];
      if sorted[i].depth < 0 || sorted[i].pid == target { continue; }
      attempts, killed, failed := KillOne(sorted[i].pid, fate, attempts, killed, failed);
    }
    assert sorted[..|sorted|] == sorted;
    attempts, killed, failed := KillOne(target, fate, attempts, killed, failed);
    r := Result(killed, failed);
  }

  /** ps_kill_one, and its row in one of the two lists. */
  method KillOne(pid: nat, fate: nat -> Option<string>, attempts: seq<nat>, killed: seq<nat>, failed: seq<Failed>)
    returns (attempts': seq<nat>, killed': seq<nat>, failed': seq<Failed>)
    requires killed == Killed(attempts, fate) && failed == Spared(attempts, fate)
    ensures attempts' == attempts + [pid]
    ensures killed' == Killed(attempts', fate) && failed' == Spared(attempts', fate)
  {
    attempts', killed', failed' := attempts + [pid], killed, failed;
    assert attempts'[..|attempts|] == attempts;
    var err := fate(pid);
    if err.None? {
      killed' := killed + [pid];
    } else {
      failed' := failed + [Failed(pid, err.value)];
    }
  }
}
