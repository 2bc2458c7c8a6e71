/** `watch read`: a batch of directory changes, rename pairs joined and each path
    reported once. */
module Watch {
  import opened TclValues

  datatype Action = Added | Removed | Modified | OldName | NewName | Unknown(code: int)

  /** wevent. */
  datatype WEvent = WEvent(action: Action, path: string, from: Option<string>, done: bool)

  /** One event as the directory reported it. */
  datatype Change = Change(action: Action, path: string)

  /** An event that reaches the second loop. */
  datatype Seen = Seen(action: Action, path: string, from: Option<string>)

  datatype Record = Record(path: string, action: string, from: Option<string>)

  /** watch_action_name. */
  function ActionName(a: Action): string {
    match a
    case Added => "added"
    case Removed => "removed"
    case Modified => "modified"
    case OldName => "renamed-old"
    case NewName => "renamed-new"
    case Unknown(_) => "unknown"
  }

  // ---- what a batch means -----------------------------------------------------------

  /** Some new name comes after i. */
  predicate Joined(cs: seq<Change>, i: nat)
    requires i < |cs|
  {
    cs[i].action == OldName && exists j :: i < j < |cs| && cs[j].action == NewName
  }

  /** The old name a new name takes: the last one reported since the new name before it. */
  function OldBefore(cs: seq<Change>, j: nat): Option<string>
    requires j <= |cs|
  {
    if j == 0 || cs[j - 1].action == NewName then None
    else if cs[j - 1].action == OldName then Some(cs[j - 1].path)
    else OldBefore(cs, j - 1)
  }

  /** The events left once joined old names are gone. */
  function Survivors(cs: seq<Change>, n: nat): seq<Seen>
    requires n <= |cs|
  {
    if n == 0 then []
    else
      var c := cs[n - 1];
      Survivors(cs, n - 1)
      + if Joined(cs, n - 1) then []
        else [Seen(c.action, c.path, if c.action == NewName then OldBefore(cs, n - 1) else None)]
  }

  predicate Has(ss: seq<Seen>, path: string, action: Action) {
    exists k :: 0 <= k < |ss| && ss[k].path == path && ss[k].action == action
  }

  /** The old name of the last joined rename onto path. */
  function LastFrom(ss: seq<Seen>, path: string): Option<string> {
    if ss == [] then None
    else
      var last := ss[|ss| - 1];
      if last.path == path && last.action == NewName && last.from.Some? then last.from
      else LastFrom(ss[..|ss| - 1], path)
  }

  function Verdict(ss: seq<Seen>, path: string, first: Action): string {
    if Has(ss, path, Removed) then "removed"
    else if Has(ss, path, Added) then "added"
    else if Has(ss, path, NewName) then "renamed"
    else ActionName(first)
  }

  function Others(ss: seq<Seen>, path: string): (r: seq<Seen>)
    ensures |r| <= |ss|
  {
    if ss == [] then []
    else Others(ss[..|ss| - 1], path) + if ss[|ss| - 1].path == path then [] else [ss[|ss| - 1]]
  }

  /** One record a path, in order of first appearance. */
  function Records(ss: seq<Seen>): seq<Record>
    decreases |ss|
  {
    if ss == [] then []
    else
      var p := ss[0].path;
      [Record(p, Verdict(ss, p, ss[0].action), LastFrom(ss, p))] + Records(Others(ss[1..], p))
  }

  // ---- the first loop: joining ---------------------------------------------------------

  /** The array holds the batch, with the old names below i joined. */
  predicate JoinedUpTo(evs: seq<WEvent>, cs: seq<Change>, i: nat) {
    && |evs| == |cs| && i <= |cs|
    && forall l :: 0 <= l < |cs| ==>
         && evs[l].action == cs[l].action && evs[l].path == cs[l].path
         && evs[l].done == (l < i && Joined(cs, l))
         && evs[l].from == if cs[l].action == NewName then Taken(cs, l, i) else None
  }

  /** The last old name below i whose first following new name is l. */
  function Taken(cs: seq<Change>, l: nat, i: nat): Option<string>
    requires l < |cs| && i <= |cs|
  {
    if i == 0 then None
    else if i - 1 < l && cs[i - 1].action == OldName && NoNewBetween(cs, i, l) then Some(cs[i - 1].path)
    else Taken(cs, l, i - 1)
  }

  predicate NoNewBetween(cs: seq<Change>, lo: nat, hi: nat)
    requires hi <= |cs|
  {
    forall m :: lo <= m < hi ==> cs[m].action != NewName
  }

  lemma {:induction false} TakenIsOldBefore(cs: seq<Change>, l: nat, i: nat)
    requires l < |cs| && i <= |cs|
    ensures i >= l ==> Taken(cs, l, i) == OldBefore(cs, l)
    ensures i < l && NoNewBetween(cs, i, l) ==> Taken(cs, l, i) == OldBefore(cs, i)
    ensures i < l && !NoNewBetween(cs, i, l) ==> Taken(cs, l, i) == None
  {
    if i > 0 {
      TakenIsOldBefore(cs, l, i - 1);
    }
  }

  method JoinRenames(a: array<WEvent>, ghost cs: seq<Change>)
    requires JoinedUpTo(a[..], cs, 0)
    modifies a
    ensures JoinedUpTo(a[..], cs, |cs|)
  {
    var n := a.Length;
    for i := 0 to n
      invariant JoinedUpTo(a[..], cs, i)
    {
      if a[i].action != OldName || a[i].done {
        SkipOne(a[..], cs, i);
        continue;
      }
      var j := i + 1;
      while j < n && (a[j].done || a[j].action != NewName)
        invariant i < j <= n && NoNewBetween(cs, i + 1, j)
      {
        j := j + 1;
      }
      ghost var evs := a[..];
      if j < n {
        a[j] := a[j].(from := Some(a[i].path));
        a[i] := a[i].(done := true);
        assert a[..] == evs[j := evs[j].(from := Some(evs[i].path))][i := evs[i].(done := true)];
        JoinOne(evs, cs, i, j);
      } else {
        SkipOne(evs, cs, i);
      }
    }
  }

  lemma SkipOne(evs: seq<WEvent>, cs: seq<Change>, i: nat)
    requires JoinedUpTo(evs, cs, i) && i < |cs|
    requires cs[i].action != OldName || NoNewBetween(cs, i + 1, |cs|)
    ensures JoinedUpTo(evs, cs, i + 1)
  {
    assert !Joined(cs, i);
    forall l | 0 <= l < |cs| && cs[l].action == NewName ensures Taken(cs, l, i + 1) == Taken(cs, l, i) {
    }
  }

  lemma JoinOne(evs: seq<WEvent>, cs: seq<Change>, i: nat, j: nat)
    requires JoinedUpTo(evs, cs, i) && i < j < |cs| && cs[i].action == OldName && cs[j].action == NewName
    requires NoNewBetween(cs, i + 1, j)
    ensures JoinedUpTo(evs[j := evs[j].(from := Some(evs[i].path))][i := evs[i].(done := true)], cs, i + 1)
  {
    assert Joined(cs, i);
    forall l | 0 <= l < |cs| && cs[l].action == NewName && l != j ensures Taken(cs, l, i + 1) == Taken(cs, l, i) {
      assert i < l ==> !NoNewBetween(cs, i + 1, l);
    }
    assert Taken(cs, j, i + 1) == Some(cs[i].path);
  }

  // ---- the second loop: one record a path -------------------------------------------------

  function SeenOf(e: WEvent): Seen {
    Seen(e.action, e.path, e.from)
  }

  function Live(evs: seq<WEvent>): seq<Seen> {
    if evs == [] then []
    else Live(evs[..|evs| - 1]) + if evs[|evs| - 1].done then [] else [SeenOf(evs[|evs| - 1])]
  }

  lemma LiveSnoc(evs: seq<WEvent>, e: WEvent)
    ensures Live(evs + [e]) == if e.done then Live(evs) else Live(evs) + [SeenOf(e)]
  {
    assert (evs + [e])[..|evs|] == evs;
  }

  lemma Assoc<T>(a: seq<T>, b: seq<T>, c: seq<T>)
    ensures a + b + c == a + (b + c)
  {
  }

  lemma {:induction false} LiveHead(e: WEvent, evs: seq<WEvent>)
    ensures Live([e] + evs) == if e.done then Live(evs) else [SeenOf(e)] + Live(evs)
  {
    if evs == [] {
      assert [e] + evs == [] + [e];
      LiveSnoc([], e);
    } else {
      hide Live;
      var front, last := evs[..|evs| - 1], evs[|evs| - 1];
      LiveHead(e, front);
      assert evs == front + [last];
      Assoc([e], front, [last]);
      LiveSnoc([e] + front, last);
      LiveSnoc(front, last);
      Assoc([SeenOf(e)], Live(front), [SeenOf(last)]);
    }
  }

  lemma {:induction false} LiveIsSurvivors(evs: seq<WEvent>, cs: seq<Change>, n: nat)
    requires JoinedUpTo(evs, cs, |cs|) && n <= |cs|
    ensures Live(evs[..n]) == Survivors(cs, n)
  {
    if n > 0 {
      LiveIsSurvivors(evs, cs, n - 1);
      assert evs[..n] == evs[..n - 1] + [evs[n - 1]];
      LiveSnoc(evs[..n - 1], evs[n - 1]);
      TakenIsOldBefore(cs, n - 1, |cs|);
    }
  }

  /** The events of path among xs are done in ys. */
  predicate Marked(xs: seq<WEvent>, ys: seq<WEvent>, path: string) {
    |xs| == |ys|
    && forall l :: 0 <= l < |xs| ==> ys[l] == if xs[l].path == path then xs[l].(done := true) else xs[l]
  }

  lemma {:induction false} MarkedLive(xs: seq<WEvent>, ys: seq<WEvent>, path: string)
    requires Marked(xs, ys, path)
    ensures Live(ys) == Others(Live(xs), path)
  {
    if xs != [] {
      var n := |xs| - 1;
      MarkedLive(xs[..n], ys[..n], path);
      assert xs == xs[..n] + [xs[n]] && ys == ys[..n] + [ys[n]];
      LiveSnoc(xs[..n], xs[n]);
      LiveSnoc(ys[..n], ys[n]);
      OthersSnoc(Live(xs[..n]), SeenOf(xs[n]), path);
    }
  }

  lemma OthersSnoc(ss: seq<Seen>, s: Seen, path: string)
    ensures Others(ss + [s], path) == if s.path == path then Others(ss, path) else Others(ss, path) + [s]
  {
    assert (ss + [s])[..|ss|] == ss;
  }

  lemma HasSnoc(ss: seq<Seen>, s: Seen, path: string, action: Action)
    ensures Has(ss + [s], path, action) <==> Has(ss, path, action) || (s.path == path && s.action == action)
  {
    var ts := ss + [s];
    if Has(ss, path, action) {
      var k :| 0 <= k < |ss| && ss[k].path == path && ss[k].action == action;
      assert ts[k] == ss[k];
    }
    assert ts[|ss|] == s;
  }

  lemma LastFromSnoc(ss: seq<Seen>, s: Seen, path: string)
    ensures LastFrom(ss + [s], path)
         == if s.path == path && s.action == NewName && s.from.Some? then s.from else LastFrom(ss, path)
  {
    assert (ss + [s])[..|ss|] == ss;
  }

  /** What the inner loop knows of one path after some events. */
  predicate Tally(ss: seq<Seen>, path: string, removed: bool, added: bool, renamed: bool, from: Option<string>) {
    && removed == Has(ss, path, Removed)
    && added == Has(ss, path, Added)
    && renamed == Has(ss, path, NewName)
    && from == LastFrom(ss, path)
  }

  lemma TallyOne(ss: seq<Seen>, s: Seen, path: string, removed: bool, added: bool, renamed: bool, from: Option<string>)
    requires Tally(ss, path, removed, added, renamed, from)
    ensures s.path != path ==> Tally(ss + [s], path, removed, added, renamed, from)
    ensures s.path == path ==>
      Tally(ss + [s], path, removed || s.action == Removed, added || s.action == Added, renamed || s.action == NewName,
            if s.action == NewName && s.from.Some? then s.from else from)
  {
    hide Has, LastFrom;
    HasSnoc(ss, s, path, Removed);
    HasSnoc(ss, s, path, Added);
    HasSnoc(ss, s, path, NewName);
    LastFromSnoc(ss, s, path);
  }

  /** Gathers the path of event i, marking its later events done. */
  method OnePath(a: array<WEvent>, i: nat) returns (r: Record)
    requires i < a.Length && !a[i].done
    modifies a
    ensures var evs, path := old(a[..]), old(a[i].path);
      && a[..i + 1] == evs[..i + 1]
      && Marked(evs[i + 1..], a[i + 1..], path)
      && r == Record(path, Verdict(Live(evs[i..]), path, evs[i].action), LastFrom(Live(evs[i..]), path))
  {
    hide Has, LastFrom, Live;
    var path := a[i].path;
    var removed, added, renamed := false, false, false;
    var from: Option<string> := None;
    ghost var evs := a[..];
    NothingSeen(path);
    assert evs[i..i] == [];
    for j := i to a.Length
      invariant forall l :: i < l < j ==> a[l] == if evs[l].path == path then evs[l].(done := true) else evs[l]
      invariant forall l :: 0 <= l < a.Length && (l <= i || l >= j) ==> a[l] == evs[l]
      invariant Tally(Live(evs[i..j]), path, removed, added, renamed, from)
    {
      assert evs[i..j + 1] == evs[i..j] + [evs[j]];
      LiveSnoc(evs[i..j], evs[j]);
      TallyOne(Live(evs[i..j]), SeenOf(evs[j]), path, removed, added, renamed, from);
      if a[j].done || a[j].path != path { continue; }
      match a[j].action {
        case Removed => removed := true;
        case Added => added := true;
        case NewName => { renamed := true; if a[j].from.Some? { from := a[j].from; } }
        case _ =>
      }
      if j != i { a[j] := a[j].(done := true); }
    }
    assert evs[i..a.Length] == evs[i..];
    var act :=
      if removed then "removed" else if added then "added" else if renamed then "renamed" else ActionName(a[i].action);
    r := Record(path, act, from);
  }

  lemma NothingSeen(path: string)
    ensures Tally(Live([]), path, false, false, false, None)
  {
  }

  /** `watch read` without -raw, on one batch. */
  method Coalesce(a: array<WEvent>) returns (out: seq<Record>)
    requires forall l :: 0 <= l < a.Length ==> !a[l].done && a[l].from.None?
    modifies a
    ensures var cs := Batch(old(a[..]));
      && out == Records(Survivors(cs, |cs|))
      && forall u :: 0 <= u < |out| ==>
           Ranked(cs, out[u].path, out[u].action) && FromLast(cs, |cs|, out[u].path, out[u].from)
  {
    hide Records, Survivors, Live, Ranked, FromLast;
    ghost var cs := Batch(a[..]);
    assert JoinedUpTo(a[..], cs, 0);
    JoinRenames(a, cs);
    LiveIsSurvivors(a[..], cs, |cs|);
    ghost var all := Live(a[..]);
    assert a[..][..|cs|] == a[..] && a[0..] == a[..];
    out := [];
    for i := 0 to a.Length
      invariant out + Records(Live(a[i..])) == Records(all)
    {
      ghost var evs := a[..];
      assert evs[i..] == [evs[i]] + evs[i + 1..] && evs[i..] == a[i..] && evs[i + 1..] == a[i + 1..];
      LiveHead(evs[i], evs[i + 1..]);
      if a[i].done { continue; }
      var r := OnePath(a, i);
      MarkedLive(evs[i + 1..], a[i + 1..], evs[i].path);
      NextRecord(SeenOf(evs[i]), Live(evs[i + 1..]));
      assert Records(Live(evs[i..])) == [r] + Records(Live(a[i + 1..]));
      Regroup(out, r, Records(Live(a[i + 1..])));
      out := out + [r];
    }
    NoRecords();
    assert a[a.Length..] == [];
    assert out + [] == out;
    forall u | 0 <= u < |out|
      ensures Ranked(cs, out[u].path, out[u].action) && FromLast(cs, |cs|, out[u].path, out[u].from)
    {
      RecordsRank(cs, u);
    }
  }

  lemma Regroup(out: seq<Record>, r: Record, rest: seq<Record>)
    ensures out + ([r] + rest) == out + [r] + rest
  {
  }

  lemma NoRecords()
    ensures Records(Live([])) == []
  {
  }

  lemma NextRecord(s: Seen, rest: seq<Seen>)
    ensures Records([s] + rest)
         == [Record(s.path, Verdict([s] + rest, s.path, s.action), LastFrom([s] + rest, s.path))]
            + Records(Others(rest, s.path))
  {
    assert ([s] + rest)[1..] == rest;
  }

  function Batch(evs: seq<WEvent>): (cs: seq<Change>)
    ensures |cs| == |evs| && forall l :: 0 <= l < |cs| ==> cs[l] == Change(evs[l].action, evs[l].path)
  {
    seq(|evs|, l requires 0 <= l < |evs| => Change(evs[l].action, evs[l].path))
  }

  // ---- what the records say -----------------------------------------------------------

  /** Index of the first event of path, |ss| if there is none. */
  function FirstAt(ss: seq<Seen>, path: string): (i: nat)
    ensures i <= |ss| && (i < |ss| ==> ss[i].path == path) && forall j :: 0 <= j < i ==> ss[j].path != path
  {
    if ss == [] || ss[0].path == path then 0 else 1 + FirstAt(ss[1..], path)
  }

  /** r is what all events of its path together say, wherever they stand. */
  predicate Reports(ss: seq<Seen>, r: Record) {
    var i := FirstAt(ss, r.path);
    i < |ss| && r.action == Verdict(ss, r.path, ss[i].action) && r.from == LastFrom(ss, r.path)
  }

  lemma {:induction false} OthersKeep(ss: seq<Seen>, gone: string, path: string)
    requires path != gone
    ensures forall a :: Has(Others(ss, gone), path, a) <==> Has(ss, path, a)
    ensures LastFrom(Others(ss, gone), path) == LastFrom(ss, path)
  {
    if ss != [] {
      hide Others, Has, LastFrom;
      var front, last := ss[..|ss| - 1], ss[|ss| - 1];
      OthersKeep(front, gone, path);
      OthersSnoc(front, last, gone);
      assert ss == front + [last];
      forall a ensures Has(Others(ss, gone), path, a) <==> Has(ss, path, a) {
        HasSnoc(front, last, path, a);
        HasSnoc(Others(front, gone), last, path, a);
      }
      LastFromSnoc(front, last, path);
      LastFromSnoc(Others(front, gone), last, path);
    }
  }

  lemma HeadKeeps(s: Seen, ss: seq<Seen>, path: string)
    requires s.path != path
    ensures forall a :: Has([s] + ss, path, a) <==> Has(ss, path, a)
    ensures LastFrom([s] + ss, path) == LastFrom(ss, path)
    decreases |ss|
  {
    forall a ensures Has([s] + ss, path, a) <==> Has(ss, path, a) {
      var ts := [s] + ss;
      if Has(ss, path, a) {
        var k :| 0 <= k < |ss| && ss[k].path == path && ss[k].action == a;
        assert ts[k + 1] == ss[k];
      }
    }
    if ss != [] {
      HeadKeeps(s, ss[..|ss| - 1], path);
      assert ([s] + ss)[..|ss|] == [s] + ss[..|ss| - 1];
    }
  }

  lemma {:induction false} FirstMoves(ss: seq<Seen>, gone: string, path: string)
    requires path != gone
    ensures var os := Others(ss, gone);
      && (FirstAt(os, path) < |os| <==> FirstAt(ss, path) < |ss|)
      && (FirstAt(os, path) < |os| ==> os[FirstAt(os, path)] == ss[FirstAt(ss, path)])
  {
    if ss != [] {
      hide Others, FirstAt;
      var front, last := ss[..|ss| - 1], ss[|ss| - 1];
      FirstMoves(front, gone, path);
      OthersSnoc(front, last, gone);
      assert ss == front + [last];
      FirstSnoc(front, last, path);
      FirstSnoc(Others(front, gone), last, path);
    }
  }

  lemma FirstSnoc(ss: seq<Seen>, s: Seen, path: string)
    ensures FirstAt(ss + [s], path)
         == if FirstAt(ss, path) < |ss| || s.path == path then FirstAt(ss, path) else |ss| + 1
  {
    var ts, i := ss + [s], FirstAt(ss + [s], path);
    assert forall j :: 0 <= j < |ss| ==> ts[j] == ss[j];
    assert ts[|ss|] == s;
  }

  /** The survivors of one path stand in the same order without another. */
  lemma {:induction false} OrderKept(ss: seq<Seen>, gone: string, p: string, q: string)
    requires p != gone && q != gone && p != q
    ensures FirstAt(Others(ss, gone), p) < FirstAt(Others(ss, gone), q) ==> FirstAt(ss, p) < FirstAt(ss, q)
  {
    if ss != [] {
      hide Others, FirstAt;
      var front, last := ss[..|ss| - 1], ss[|ss| - 1];
      OrderKept(front, gone, p, q);
      OthersSnoc(front, last, gone);
      assert ss == front + [last];
      FirstSnoc(front, last, p);
      FirstSnoc(front, last, q);
      FirstSnoc(Others(front, gone), last, p);
      FirstSnoc(Others(front, gone), last, q);
      FirstMoves(front, gone, p);
      FirstMoves(front, gone, q);
    }
  }

  predicate Reported(rs: seq<Record>, path: string) {
    exists u :: 0 <= u < |rs| && rs[u].path == path
  }

  /** The records of ss: the first event's path, then the others. */
  lemma RecordsTail(ss: seq<Seen>)
    requires ss != []
    ensures var rs := Records(ss);
      rs != [] && rs[0].path == ss[0].path && rs[1..] == Records(Others(ss[1..], ss[0].path)) && Reports(ss, rs[0])
    ensures ss == [ss[0]] + ss[1..]
  {
    hide Has, LastFrom, Others;
    assert FirstAt(ss, ss[0].path) == 0;
  }

  lemma {:induction false} RecordsReport(ss: seq<Seen>)
    ensures forall u :: 0 <= u < |Records(ss)| ==> Reports(ss, Records(ss)[u])
    decreases |ss|
  {
    if ss != [] {
      hide Reports, Records, Others;
      var s, rest := ss[0], ss[1..];
      var others := Others(rest, s.path);
      var rs, tail := Records(ss), Records(others);
      RecordsReport(others);
      RecordsTail(ss);
      forall u | 0 < u < |rs| ensures Reports(ss, rs[u]) {
        assert rs[u] == tail[u - 1];
        ReportNamesPath(others, rs[u]);
        NoneLeft(rest, s.path, FirstAt(others, rs[u].path));
        ReportGrows(s, rest, rs[u]);
      }
    } else {
      assert Records(ss) == [];
    }
  }

  lemma ReportNamesPath(ss: seq<Seen>, r: Record)
    requires Reports(ss, r)
    ensures FirstAt(ss, r.path) < |ss|
  {
  }

  lemma {:induction false} RecordsCover(ss: seq<Seen>, k: nat)
    requires k < |ss|
    ensures Reported(Records(ss), ss[k].path)
    decreases |ss|
  {
    hide Reports, Records, Others;
    var s, rest := ss[0], ss[1..];
    var others := Others(rest, s.path);
    var rs, tail := Records(ss), Records(others);
    RecordsTail(ss);
    if ss[k].path == s.path {
      assert rs[0].path == ss[k].path;
    } else {
      assert rest[k - 1] == ss[k];
      FirstMoves(rest, s.path, ss[k].path);
      var l := FirstAt(others, ss[k].path);
      assert FirstAt(rest, ss[k].path) < |rest|;
      RecordsCover(others, l);
      var u :| 0 <= u < |tail| && tail[u].path == others[l].path;
      assert rs[u + 1] == tail[u];
    }
  }

  lemma {:induction false} RecordsInOrder(ss: seq<Seen>)
    ensures forall u, v :: 0 <= u < v < |Records(ss)| ==>
      FirstAt(ss, Records(ss)[u].path) < FirstAt(ss, Records(ss)[v].path)
    decreases |ss|
  {
    if ss == [] {
      assert Records(ss) == [];
    } else {
      hide Reports, Records, Others, FirstAt;
      var s, rest := ss[0], ss[1..];
      var others := Others(rest, s.path);
      var rs, tail := Records(ss), Records(others);
      RecordsInOrder(others);
      RecordsTail(ss);
      RecordsReport(others);
      forall u, v | 0 <= u < v < |rs| ensures FirstAt(ss, rs[u].path) < FirstAt(ss, rs[v].path) {
        assert rs[v] == tail[v - 1];
        ReportNamesPath(others, rs[v]);
        NoneLeft(rest, s.path, FirstAt(others, rs[v].path));
        FirstAfterHead(s, rest, rs[v].path);
        if u > 0 {
          assert rs[u] == tail[u - 1];
          ReportNamesPath(others, rs[u]);
          NoneLeft(rest, s.path, FirstAt(others, rs[u].path));
          FirstAfterHead(s, rest, rs[u].path);
          OrderKept(rest, s.path, rs[u].path, rs[v].path);
        } else {
          FirstIsHead(s, rest);
        }
      }
    }
  }

  lemma FirstAfterHead(s: Seen, rest: seq<Seen>, path: string)
    requires s.path != path
    ensures FirstAt([s] + rest, path) == 1 + FirstAt(rest, path)
  {
    assert ([s] + rest)[1..] == rest;
  }

  lemma FirstIsHead(s: Seen, rest: seq<Seen>)
    ensures FirstAt([s] + rest, s.path) == 0
  {
  }

  /** One record for each path that survives, in order of first appearance, saying what
      all the events of that path say. */
  lemma RecordsAreTheBatch(ss: seq<Seen>)
    ensures var rs := Records(ss);
      && (forall u :: 0 <= u < |rs| ==> Reports(ss, rs[u]))
      && (forall k :: 0 <= k < |ss| ==> Reported(rs, ss[k].path))
      && (forall u, v :: 0 <= u < v < |rs| ==> FirstAt(ss, rs[u].path) < FirstAt(ss, rs[v].path))
  {
    hide Reports, Records, FirstAt;
    RecordsReport(ss);
    RecordsInOrder(ss);
    forall k | 0 <= k < |ss| ensures Reported(Records(ss), ss[k].path) {
      RecordsCover(ss, k);
    }
  }

  lemma {:induction false} NoneLeft(ss: seq<Seen>, gone: string, k: nat)
    requires k < |Others(ss, gone)|
    ensures Others(ss, gone)[k].path != gone
  {
    if k < |Others(ss[..|ss| - 1], gone)| { NoneLeft(ss[..|ss| - 1], gone, k); }
  }

  lemma ReportGrows(s: Seen, rest: seq<Seen>, r: Record)
    requires r.path != s.path && Reports(Others(rest, s.path), r)
    ensures Reports([s] + rest, r)
  {
    hide Has, LastFrom;
    OthersKeep(rest, s.path, r.path);
    HeadKeeps(s, rest, r.path);
    FirstMoves(rest, s.path, r.path);
    assert ([s] + rest)[1..] == rest;
    assert FirstAt([s] + rest, r.path) == 1 + FirstAt(rest, r.path);
  }

  // ---- exact pairing ---------------------------------------------------------------------

  /** Where the old name a new name takes stands. */
  function OldIndex(cs: seq<Change>, j: nat): (r: Option<nat>)
    requires j <= |cs|
    ensures r.Some? ==> r.value < j && cs[r.value].action == OldName
    ensures OldBefore(cs, j) == if r.Some? then Some(cs[r.value].path) else None
  {
    if j == 0 || cs[j - 1].action == NewName then None
    else if cs[j - 1].action == OldName then Some(j - 1)
    else OldIndex(cs, j - 1)
  }

  /** The new name j takes the old name i. */
  predicate Takes(cs: seq<Change>, j: nat, i: nat)
    requires j < |cs|
  {
    cs[j].action == NewName && OldIndex(cs, j) == Some(i)
  }

  predicate Renames(c: Change) {
    c.action == OldName || c.action == NewName
  }

  /** j is the next rename event after i. */
  predicate NextRename(cs: seq<Change>, i: nat, j: nat) {
    i < j < |cs| && Renames(cs[j]) && forall m :: i < m < j ==> !Renames(cs[m])
  }

  ghost predicate PairsUp(cs: seq<Change>, i: nat) {
    exists j: nat :: NextRename(cs, i, j) && NewAt(cs, j)
  }

  lemma {:induction false} OldIndexIs(cs: seq<Change>, j: nat, i: nat)
    requires i < j <= |cs| && cs[i].action == OldName
    ensures OldIndex(cs, j) == Some(i) <==> forall m :: i < m < j ==> !Renames(cs[m])
    decreases j
  {
    if i < j - 1 {
      OldIndexIs(cs, j - 1, i);
      if Renames(cs[j - 1]) { assert !(forall m :: i < m < j ==> !Renames(cs[m])); }
    }
  }

  /** The exact condition: an old name is taken by a new name if and only if the next
      rename event after it is a new name; and that is the one that takes it. */
  lemma {:induction false} TakenIffNextIsNew(cs: seq<Change>, i: nat)
    requires i < |cs| && cs[i].action == OldName
    ensures forall j :: 0 <= j < |cs| ==> (Takes(cs, j, i) <==> NextRename(cs, i, j) && NewAt(cs, j))
    ensures (exists j :: 0 <= j < |cs| && Takes(cs, j, i)) <==> PairsUp(cs, i)
  {
    forall j | 0 <= j < |cs| ensures Takes(cs, j, i) <==> NextRename(cs, i, j) && NewAt(cs, j) {
      if i < j { OldIndexIs(cs, j, i); }
    }
    if PairsUp(cs, i) {
      var j: nat :| NextRename(cs, i, j) && NewAt(cs, j);
      assert Takes(cs, j, i);
    }
  }

  /** What becomes of the others: an old name goes without a trace exactly when the next
      rename event is another old name and a new name still follows; with no new name after
      it, it stays as an event of its own. */
  lemma OldNameFates(cs: seq<Change>, i: nat)
    requires i < |cs| && cs[i].action == OldName
    ensures PairsUp(cs, i) ==> Joined(cs, i)
    ensures Joined(cs, i) && !PairsUp(cs, i) <==>
      exists j: nat :: NextRename(cs, i, j) && cs[j].action == OldName && Joined(cs, j)
  {
    if Joined(cs, i) {
      var k: nat :| i < k < |cs| && cs[k].action == NewName;
      var j := FirstRename(cs, i + 1, k);
      NextIs(cs, i, j);
      hide NextRename;
      JoinedTo(cs, j, k);
      if cs[j].action == NewName { assert NewAt(cs, j); }
    } else {
      forall j: nat | NextRename(cs, i, j) ensures cs[j].action != NewName && !Joined(cs, j) {
        forall k | j < k < |cs| ensures cs[k].action != NewName {
        }
      }
    }
  }

  lemma JoinedTo(cs: seq<Change>, j: nat, k: nat)
    requires j <= k < |cs| && cs[k].action == NewName && Renames(cs[j])
    ensures cs[j].action == NewName || (cs[j].action == OldName && Joined(cs, j))
  {
  }

  lemma NextIs(cs: seq<Change>, i: nat, j: nat)
    requires i < j < |cs| && Renames(cs[j]) && forall m :: i + 1 <= m < j ==> !Renames(cs[m])
    ensures forall l: nat :: NextRename(cs, i, l) <==> l == j
  {
    forall l: nat | NextRename(cs, i, l) ensures l == j {
    }
  }

  /** The first rename event from lo on, up to one at hi. */
  function FirstRename(cs: seq<Change>, lo: nat, hi: nat): (j: nat)
    requires lo <= hi < |cs| && Renames(cs[hi])
    ensures lo <= j <= hi && Renames(cs[j]) && forall m :: lo <= m < j ==> !Renames(cs[m])
    decreases hi - lo
  {
    if Renames(cs[lo]) then lo else FirstRename(cs, lo + 1, hi)
  }

  /** Every rename is told in full exactly when each old name pairs up. */
  ghost predicate AllTaken(cs: seq<Change>) {
    forall i :: 0 <= i < |cs| && cs[i].action == OldName ==> exists j :: 0 <= j < |cs| && Takes(cs, j, i)
  }

  lemma PairingIsExactIff(cs: seq<Change>)
    ensures AllTaken(cs) <==> forall i :: 0 <= i < |cs| && cs[i].action == OldName ==> PairsUp(cs, i)
  {
    hide Takes, PairsUp;
    forall i | 0 <= i < |cs| && cs[i].action == OldName
      ensures (exists j :: 0 <= j < |cs| && Takes(cs, j, i)) <==> PairsUp(cs, i)
    {
      TakenIffNextIsNew(cs, i);
    }
  }

  lemma AdjacentPairUp(cs: seq<Change>)
    requires Adjacent(cs)
    ensures AllTaken(cs)
  {
    hide AllTaken;
    PairingIsExactIff(cs);
    forall i | 0 <= i < |cs| && cs[i].action == OldName ensures PairsUp(cs, i) {
      assert NewAt(cs, i + 1);
      assert NextRename(cs, i, i + 1);
    }
  }

  /** Each old name directly followed by its new name. */
  predicate Adjacent(cs: seq<Change>) {
    forall i :: 0 <= i < |cs| && cs[i].action == OldName ==> i < |cs| - 1 && NewAt(cs, i + 1)
  }

  predicate NewAt(cs: seq<Change>, i: nat)
    requires i < |cs|
  {
    cs[i].action == NewName
  }

  /** The old name of the last rename onto path among the first n events. */
  function LastPair(cs: seq<Change>, n: nat, path: string): Option<string>
    requires n <= |cs|
  {
    if n < 2 then None
    else if cs[n - 1] == Change(NewName, path) && cs[n - 2].action == OldName then Some(cs[n - 2].path)
    else LastPair(cs, n - 1, path)
  }

  lemma {:induction false} AdjacentOld(cs: seq<Change>, j: nat)
    requires Adjacent(cs) && j < |cs| && cs[j].action == NewName
    ensures OldBefore(cs, j) == if j > 0 && cs[j - 1].action == OldName then Some(cs[j - 1].path) else None
  {
    if j > 0 && cs[j - 1].action != OldName && cs[j - 1].action != NewName { NoOldBefore(cs, j - 1); }
  }

  lemma {:induction false} NoOldBefore(cs: seq<Change>, j: nat)
    requires Adjacent(cs) && j < |cs| && cs[j].action != OldName && cs[j].action != NewName
    ensures OldBefore(cs, j) == None
  {
    if j > 0 && cs[j - 1].action != NewName {
      assert cs[j - 1].action != OldName;
      NoOldBefore(cs, j - 1);
    }
  }

  function SeenAt(cs: seq<Change>, i: nat): Seen
    requires i < |cs|
  {
    Seen(cs[i].action, cs[i].path, if cs[i].action == NewName then OldBefore(cs, i) else None)
  }

  lemma SurvivorStep(cs: seq<Change>, n: nat)
    requires Adjacent(cs) && 0 < n <= |cs|
    ensures Survivors(cs, n) ==
      if cs[n - 1].action == OldName then Survivors(cs, n - 1) else Survivors(cs, n - 1) + [SeenAt(cs, n - 1)]
  {
    hide OldBefore;
    if cs[n - 1].action == OldName {
      assert NewAt(cs, n);
      assert Joined(cs, n - 1);
    }
  }

  lemma {:induction false} AdjacentLeaveNoOld(cs: seq<Change>, n: nat)
    requires Adjacent(cs) && n <= |cs|
    ensures forall k :: 0 <= k < |Survivors(cs, n)| ==> Survivors(cs, n)[k].action != OldName
  {
    if n > 0 {
      hide Survivors, OldBefore, Adjacent;
      AdjacentLeaveNoOld(cs, n - 1);
      SurvivorStep(cs, n);
    }
  }

  lemma PairStep(cs: seq<Change>, n: nat, path: string)
    requires Adjacent(cs) && 0 < n <= |cs|
    ensures var s := SeenAt(cs, n - 1);
      LastPair(cs, n, path) ==
        if s.path == path && s.action == NewName && s.from.Some? then s.from else LastPair(cs, n - 1, path)
  {
    hide OldBefore, Adjacent;
    if cs[n - 1].action == NewName { AdjacentOld(cs, n - 1); }
  }

  lemma {:induction false} AdjacentPairs(cs: seq<Change>, n: nat, path: string)
    requires Adjacent(cs) && n <= |cs|
    ensures LastFrom(Survivors(cs, n), path) == LastPair(cs, n, path)
  {
    if n > 0 {
      hide Survivors, LastFrom, SeenAt, Adjacent, LastPair;
      AdjacentPairs(cs, n - 1, path);
      SurvivorStep(cs, n);
      PairStep(cs, n, path);
      if cs[n - 1].action == OldName {
        OldIsNoNew(cs, n - 1);
      } else {
        LastFromSnoc(Survivors(cs, n - 1), SeenAt(cs, n - 1), path);
      }
    }
  }

  lemma OldIsNoNew(cs: seq<Change>, i: nat)
    requires i < |cs| && cs[i].action == OldName
    ensures SeenAt(cs, i).action == OldName
  {
  }

  /** When the directory reports each rename as an adjacent pair, every pair is joined: no
      old name is left over, and a record's `from` is that of the last rename onto it. */
  lemma AdjacentRenamesAreExact(cs: seq<Change>)
    requires Adjacent(cs)
    ensures AllTaken(cs)
    ensures var ss := Survivors(cs, |cs|);
      && (forall k :: 0 <= k < |ss| ==> ss[k].action != OldName)
      && (forall u :: 0 <= u < |Records(ss)| ==> Records(ss)[u].from == LastPair(cs, |cs|, Records(ss)[u].path))
  {
    hide Survivors, Records, LastFrom, LastPair, Verdict, Has, AllTaken;
    AdjacentPairUp(cs);
    var ss := Survivors(cs, |cs|);
    RecordsAreTheBatch(ss);
    AdjacentLeaveNoOld(cs, |cs|);
    forall u | 0 <= u < |Records(ss)| ensures Records(ss)[u].from == LastPair(cs, |cs|, Records(ss)[u].path) {
      AdjacentPairs(cs, |cs|, Records(ss)[u].path);
    }
  }

  /** Two renames reported in a burst are not told apart: both old names go to the first
      new name, which keeps the second of them, and the other new name has none. */
  lemma BurstIsNotExact(a: string, b: string, c: string, d: string)
    requires c != d
    ensures var cs := [Change(OldName, a), Change(OldName, b), Change(NewName, c), Change(NewName, d)];
      !AllTaken(cs) && Records(Survivors(cs, 4)) == [Record(c, "renamed", Some(b)), Record(d, "renamed", None)]
  {
    hide Survivors, Records, AllTaken;
    BurstDoesNotPair(a, b, c, d);
    BurstSurvivors(a, b, c, d);
    RenameThen(c, Some(b), [Seen(NewName, d, None)]);
    RenameThen(d, None, []);
    assert Others([Seen(NewName, d, None)], c) == [Seen(NewName, d, None)];
    assert [Seen(NewName, d, None)] + [] == [Seen(NewName, d, None)];
    NoRecords();
    var r, t := Seen(NewName, c, Some(b)), Seen(NewName, d, None);
    assert [r] + [t] == [r, t];
  }

  lemma BurstDoesNotPair(a: string, b: string, c: string, d: string)
    ensures !AllTaken([Change(OldName, a), Change(OldName, b), Change(NewName, c), Change(NewName, d)])
  {
    hide AllTaken;
    var cs := [Change(OldName, a), Change(OldName, b), Change(NewName, c), Change(NewName, d)];
    PairingIsExactIff(cs);
    forall j | NextRename(cs, 0, j) ensures j == 1 {
      assert Renames(cs[1]);
    }
    assert !PairsUp(cs, 0);
  }

  lemma BurstSurvivors(a: string, b: string, c: string, d: string)
    ensures var cs := [Change(OldName, a), Change(OldName, b), Change(NewName, c), Change(NewName, d)];
      Survivors(cs, 4) == [Seen(NewName, c, Some(b)), Seen(NewName, d, None)]
  {
    var cs := [Change(OldName, a), Change(OldName, b), Change(NewName, c), Change(NewName, d)];
    assert cs[2].action == NewName;
    assert Joined(cs, 0) && Joined(cs, 1);
    assert Survivors(cs, 1) == [];
    assert Survivors(cs, 2) == [];
    assert Survivors(cs, 3) == [Seen(NewName, c, Some(b))];
  }

  /** A rename first, then events of other paths. */
  lemma RenameThen(path: string, from: Option<string>, rest: seq<Seen>)
    requires forall k :: 0 <= k < |rest| ==> rest[k].path != path
    ensures var ss := [Seen(NewName, path, from)] + rest;
      Records(ss) == [Record(path, "renamed", from)] + Records(Others(rest, path))
  {
    hide Records, Others, LastFrom;
    var s := Seen(NewName, path, from);
    var ss := [s] + rest;
    assert ss[0] == s && forall k :: 0 < k < |ss| ==> ss[k] == rest[k - 1];
    NextRecord(s, rest);
    OnlyFrom(s, rest);
  }

  lemma {:induction false} OnlyFrom(s: Seen, rest: seq<Seen>)
    requires s.action == NewName && forall k :: 0 <= k < |rest| ==> rest[k].path != s.path
    ensures LastFrom([s] + rest, s.path) == s.from
  {
    if rest == [] {
      assert [s] + rest == [s] && [s][..0] == [];
    } else {
      var front := rest[..|rest| - 1];
      OnlyFrom(s, front);
      assert [s] + rest == [s] + front + [rest[|rest| - 1]];
      LastFromSnoc([s] + front, rest[|rest| - 1], s.path);
    }
  }

  // ---- the name of last resort -----------------------------------------------------------

  /** The first event of path that is no joined old name, among the first n. */
  function FirstKept(cs: seq<Change>, n: nat, path: string): (r: Option<nat>)
    requires n <= |cs|
    ensures r.Some? ==> r.value < n && cs[r.value].path == path && !Joined(cs, r.value)
    ensures forall i :: 0 <= i < (if r.Some? then r.value else n) && cs[i].path == path ==> Joined(cs, i)
  {
    if n == 0 then None
    else if FirstKept(cs, n - 1, path).Some? then FirstKept(cs, n - 1, path)
    else if cs[n - 1].path == path && !Joined(cs, n - 1) then Some(n - 1)
    else None
  }

  predicate Occurs(cs: seq<Change>, n: nat, path: string, action: Action)
    requires n <= |cs|
  {
    exists i :: 0 <= i < n && cs[i] == Change(action, path)
  }

  /** The survivors of a path say of it what the batch says. */
  lemma {:induction false} SurvivorsOf(cs: seq<Change>, n: nat, path: string)
    requires n <= |cs|
    ensures var ss, k := Survivors(cs, n), FirstKept(cs, n, path);
      && (FirstAt(ss, path) < |ss| <==> k.Some?)
      && (k.Some? ==> ss[FirstAt(ss, path)].action == cs[k.value].action)
  {
    if n > 0 {
      hide Survivors, FirstAt, Joined, OldBefore, FirstKept;
      KeptFirst(cs, n, path);
      SurvivorsOf(cs, n - 1, path);
      KeptStep(cs, n);
      FirstSnoc(Survivors(cs, n - 1), SeenAt(cs, n - 1), path);
    }
  }

  lemma {:induction false} SurvivorsHave(cs: seq<Change>, n: nat, path: string, action: Action)
    requires n <= |cs| && action != OldName
    ensures Has(Survivors(cs, n), path, action) <==> Occurs(cs, n, path, action)
  {
    if n > 0 {
      hide Survivors, Has, Joined, OldBefore, Occurs;
      SurvivorsHave(cs, n - 1, path, action);
      KeptStep(cs, n);
      if Joined(cs, n - 1) { JoinedIsOld(cs, n - 1); }
      OccursStep(cs, n, path, action);
      HasSnoc(Survivors(cs, n - 1), SeenAt(cs, n - 1), path, action);
    }
  }

  lemma KeptFirst(cs: seq<Change>, n: nat, path: string)
    requires 0 < n <= |cs|
    ensures FirstKept(cs, n, path) ==
      if FirstKept(cs, n - 1, path).Some? then FirstKept(cs, n - 1, path)
      else if cs[n - 1].path == path && !Joined(cs, n - 1) then Some(n - 1) else None
  {
    hide Joined;
  }

  lemma KeptStep(cs: seq<Change>, n: nat)
    requires 0 < n <= |cs|
    ensures Survivors(cs, n)
         == if Joined(cs, n - 1) then Survivors(cs, n - 1) else Survivors(cs, n - 1) + [SeenAt(cs, n - 1)]
  {
    hide OldBefore, Joined;
  }

  lemma JoinedIsOld(cs: seq<Change>, i: nat)
    requires i < |cs| && Joined(cs, i)
    ensures cs[i].action == OldName
  {
  }

  lemma OccursStep(cs: seq<Change>, n: nat, path: string, action: Action)
    requires 0 < n <= |cs|
    ensures Occurs(cs, n, path, action) <==> Occurs(cs, n - 1, path, action) || cs[n - 1] == Change(action, path)
  {
  }

  /** Precedence over the whole batch, event for event: removed, then added, then renamed,
      then the name of the first event that survives the joining. */
  predicate Ranked(cs: seq<Change>, path: string, action: string)
  {
    var removed := exists l :: 0 <= l < |cs| && cs[l] == Change(Removed, path);
    var added := exists l :: 0 <= l < |cs| && cs[l] == Change(Added, path);
    var renamed := exists l :: 0 <= l < |cs| && cs[l] == Change(NewName, path);
    && (action == "removed" <==> removed)
    && (action == "added" <==> !removed && added)
    && (action == "renamed" <==> !removed && !added && renamed)
    && (!removed && !added && !renamed ==>
          FirstKept(cs, |cs|, path).Some?
          && match cs[FirstKept(cs, |cs|, path).value].action
             case Modified => action == "modified"
             case OldName => action == "renamed-old"
             case Unknown(_) => action == "unknown"
             case _ => false)
  }

  /** Event j is a new name for path that takes an old one. */
  predicate Renamed(cs: seq<Change>, j: nat, path: string) {
    j < |cs| && cs[j] == Change(NewName, path) && OldBefore(cs, j).Some?
  }

  /** And no later one among the first n does. */
  predicate RenamedLast(cs: seq<Change>, n: nat, j: nat, path: string) {
    j < n && Renamed(cs, j, path) && forall l: nat :: j < l < n ==> !Renamed(cs, l, path)
  }

  /** from is the old name the last such rename took; nothing when there is none. */
  predicate FromLast(cs: seq<Change>, n: nat, path: string, from: Option<string>)
    requires n <= |cs|
  {
    if from.None? then forall j: nat :: j < n ==> !Renamed(cs, j, path)
    else exists j: nat :: j < n && RenamedLast(cs, n, j, path) && OldBefore(cs, j) == from
  }

  lemma {:induction false} LastFromIs(cs: seq<Change>, n: nat, path: string)
    requires n <= |cs|
    ensures FromLast(cs, n, path, LastFrom(Survivors(cs, n), path))
  {
    if n > 0 {
      hide Survivors, LastFrom, Joined, OldBefore, Renamed, FromLast;
      LastFromIs(cs, n - 1, path);
      KeptStep(cs, n);
      LastFromSnoc(Survivors(cs, n - 1), SeenAt(cs, n - 1), path);
      RenamedIs(cs, n - 1, path);
      FromNext(cs, n - 1, path, LastFrom(Survivors(cs, n - 1), path));
    } else {
      assert Survivors(cs, 0) == [];
    }
  }

  lemma FromNext(cs: seq<Change>, n: nat, path: string, from: Option<string>)
    requires n < |cs| && FromLast(cs, n, path, from)
    ensures FromLast(cs, n + 1, path, if Renamed(cs, n, path) then OldBefore(cs, n) else from)
  {
    hide OldBefore;
    if Renamed(cs, n, path) {
      assert RenamedLast(cs, n + 1, n, path);
    } else if from.Some? {
      var j: nat :| j < n && RenamedLast(cs, n, j, path) && OldBefore(cs, j) == from;
      assert RenamedLast(cs, n + 1, j, path);
    }
  }

  lemma RenamedIs(cs: seq<Change>, i: nat, path: string)
    requires i < |cs|
    ensures Joined(cs, i) ==> !Renamed(cs, i, path)
    ensures var s := SeenAt(cs, i);
      Renamed(cs, i, path) <==> s.path == path && s.action == NewName && s.from.Some?
    ensures Renamed(cs, i, path) ==> SeenAt(cs, i).from == OldBefore(cs, i)
  {
    hide OldBefore;
  }

  /** Every record's action and from, over the events of the batch. */
  lemma RecordsRank(cs: seq<Change>, u: nat)
    requires u < |Records(Survivors(cs, |cs|))|
    ensures var r := Records(Survivors(cs, |cs|))[u];
      Ranked(cs, r.path, r.action) && FromLast(cs, |cs|, r.path, r.from)
  {
    hide FromLast, Survivors, Records, FirstAt, FirstKept, Has, LastFrom;
    var ss := Survivors(cs, |cs|);
    RecordsReport(ss);
    var r := Records(ss)[u];
    SurvivorsOf(cs, |cs|, r.path);
    SurvivorsHave(cs, |cs|, r.path, Removed);
    SurvivorsHave(cs, |cs|, r.path, Added);
    SurvivorsHave(cs, |cs|, r.path, NewName);
    var first := ss[FirstAt(ss, r.path)].action;
    if first == Removed || first == Added || first == NewName { HasFirst(ss, r.path); }
    LastFromIs(cs, |cs|, r.path);
  }

  /** A path has a record whose action is none of removed, added, renamed and modified
      exactly when the batch has no removal, addition or new name of it and its first
      surviving event is an old name or of an unknown kind: then modified, too, is outranked. */
  lemma NameOfLastResort(cs: seq<Change>, u: nat)
    requires u < |Records(Survivors(cs, |cs|))|
    ensures var r := Records(Survivors(cs, |cs|))[u];
      && FirstKept(cs, |cs|, r.path).Some?
      && (r.action != "removed" && r.action != "added" && r.action != "renamed" && r.action != "modified" <==>
            var first := cs[FirstKept(cs, |cs|, r.path).value].action;
            && !Occurs(cs, |cs|, r.path, Removed) && !Occurs(cs, |cs|, r.path, Added)
            && !Occurs(cs, |cs|, r.path, NewName)
            && (first == OldName || first.Unknown?))
  {
    hide Survivors, Records, FirstAt, FirstKept, Has, Occurs, LastFrom;
    var ss := Survivors(cs, |cs|);
    RecordsReport(ss);
    var r := Records(ss)[u];
    SurvivorsOf(cs, |cs|, r.path);
    SurvivorsHave(cs, |cs|, r.path, Removed);
    SurvivorsHave(cs, |cs|, r.path, Added);
    SurvivorsHave(cs, |cs|, r.path, NewName);
    var first := ss[FirstAt(ss, r.path)].action;
    if first == Removed || first == Added || first == NewName {
      HasFirst(ss, r.path);
    }
  }

  lemma HasFirst(ss: seq<Seen>, path: string)
    requires FirstAt(ss, path) < |ss|
    ensures Has(ss, path, ss[FirstAt(ss, path)].action)
  {
  }

  /** Renamed away, with a change reported after it: the record says renamed-old. */
  lemma ModifiedIsOutranked(a: string)
    ensures var cs := [Change(OldName, a), Change(Modified, a)];
      Records(Survivors(cs, 2)) == [Record(a, "renamed-old", None)]
  {
    hide Records;
    var cs := [Change(OldName, a), Change(Modified, a)];
    assert !Joined(cs, 0) && !Joined(cs, 1);
    assert Survivors(cs, 1) == [Seen(OldName, a, None)];
    var s, rest := Seen(OldName, a, None), [Seen(Modified, a, None)];
    assert [s] + rest == [s, rest[0]];
    assert Survivors(cs, 2) == [s] + rest;
    NextRecord(s, rest);
    assert Others(rest, a) == [];
    NoRecords();
    assert LastFrom([s, rest[0]][..1], a) == None;
  }
}
