/** Director, workers and pipes together never wait on each other, and never go on for
    ever: every run makes boundedly many moves that do anything, and one that cannot go
    on has finished its batch. */
module PoolLiveness {
  import opened TclValues
  import opened PoolState
  import opened PoolDirector
  import opened PoolProgress
  import opened PoolMachine
  import opened WorkerServe
  import opened PoolExchange
  import opened PoolSystem
  import JsonEmit

  // ---- what the director's moves cost ----------------------------------------------------

  /** Tries and answers still to come are worth three, a live worker two, and an item in
      flight has cost one. */
  ghost function Credit(s: State): int {
    3 * SlackOf(s) - 3 * |s.results| + 2 * |s.workers| - |s.inflight|
  }

  lemma FlightMore(m: map<Worker, Item>, c: Worker, item: Item)
    requires c !in m
    ensures |m[c := item]| == |m| + 1
  {
    assert m[c := item] - {c} == m;
    FlightLess(m[c := item], c);
  }

  lemma FlightLess(m: map<Worker, Item>, c: Worker)
    ensures |m - {c}| == if c in m then |m| - 1 else |m|
  {
    assert (m - {c}).Keys == m.Keys - {c};
    assert |m.Keys| == |m| && |(m - {c}).Keys| == |m - {c}|;
  }

  lemma HandCosts(s: State, c: Worker)
    requires s.pending != [] && c !in s.inflight
    ensures Credit(Hand(s, c)) == Credit(s) - 1
  {
    hide Slack;
    FlightMore(s.inflight, c, s.pending[0]);
  }

  lemma TakeCosts(s: State, c: Worker, v: Value)
    requires c in s.inflight
    ensures Credit(Take(s, c, v)) == Credit(s) - 2
  {
    hide Slack;
    FlightLess(s.inflight, c);
  }

  lemma LostCosts(s: State, c: Worker)
    requires Base(s) && c in s.workers
    ensures Credit(Lost(s, c)) <= Credit(s) - if c in s.inflight then 4 else 2
  {
    hide Slack, Base;
    LostKeeps(s, c);
    LostFrame(s, c);
    LostLeaves(s, c);
    FlightLess(s.inflight, c);
    assert |Lost(s, c).results| >= |s.results|;
  }

  lemma SpawnCosts(s: State)
    ensures Credit(Spawn(s)) == Credit(s) + 2
  {
    hide Slack;
  }

  lemma SameCredit(s: State, t: State)
    requires SameBatch(s, t) && s.tries == t.tries && s.results == t.results
    requires s.workers == t.workers && s.inflight == t.inflight
    ensures Credit(s) == Credit(t)
  {
  }

  lemma SettlingCosts(s: State)
    ensures Credit(CheckDone(s)) == Credit(s)
    ensures Credit(s.(fatal := true, done := true)) == Credit(s)
  {
    hide Credit;
    SameCredit(s, CheckDone(s));
    SameCredit(s, s.(fatal := true, done := true));
  }

  /** A feed costs something if there is an item for the worker. */
  lemma {:induction false} FeedCosts(s: State, c: Worker, env: Outcomes)
    requires Base(s) && c in s.workers
    ensures Credit(Feed(s, c, env).0) <= Credit(s) - if c !in s.inflight && s.pending != [] then 1 else 0
    decreases SlackOf(s), 1
  {
    hide Base, Slack, Credit;
    if c !in s.inflight {
      if s.pending == [] {
        SameCredit(s, CheckDone(s));
      } else {
        var h := Hand(s, c);
        HandKeeps(s, c);
        HandCosts(s, c);
        SameCredit(h, Send(h, c, s.pending[0].request));
        DiedCosts(h, c, if Encodable(s.pending[0].request) then Later(env) else env);
      }
    }
  }

  /** A death costs two if it takes an item with it, one otherwise, heir and all. */
  lemma {:induction false} DiedCosts(s: State, c: Worker, env: Outcomes)
    requires Base(s) && c in s.workers
    ensures Credit(Died(s, c, env).0) <= Credit(s) - if c in s.inflight then 2 else 1
    decreases SlackOf(s), if c in s.inflight then 0 else 2
  {
    hide Base, Slack, Credit, Lost, CheckDone, SlackOf;
    var t := Lost(s, c);
    LostKeeps(s, c);
    LostFrame(s, c);
    LostCosts(s, c);
    SettlingCosts(t);
    if t.pending == [] {
    } else if Next(env) {
      HeirCosts(s, c, env);
      SettlingCosts(Feed(Spawn(t), t.nextWorker, Later(env)).0);
    } else {
      SettlingCosts(t.(fatal := true, done := true));
    }
  }

  lemma {:induction false} HeirCosts(s: State, c: Worker, env: Outcomes)
    requires Base(s) && c in s.workers && Lost(s, c).pending != [] && Base(Lost(s, c))
    requires |Lost(s, c).workers| < Lost(s, c).width
    ensures Base(Spawn(Lost(s, c))) && Lost(s, c).nextWorker in Spawn(Lost(s, c)).workers
    ensures Credit(Feed(Spawn(Lost(s, c)), Lost(s, c).nextWorker, Later(env)).0) <= Credit(Lost(s, c)) + 1
    decreases SlackOf(s), if c in s.inflight then 0 else 2, 0
  {
    hide Base, Slack, Credit, Lost;
    var t := Lost(s, c);
    LostKeeps(s, c);
    LostFrame(s, c);
    SpawnKeeps(t);
    SpawnCosts(t);
    Fresh(t);
    assert Spawn(t).workers[|t.workers|] == t.nextWorker && t.nextWorker !in t.inflight;
    FeedCosts(Spawn(t), t.nextWorker, Later(env));
  }

  lemma {:induction false} FeedAllCosts(s: State, cs: seq<Worker>, env: Outcomes)
    requires Base(s) && Distinct(cs) && forall i :: 0 <= i < |cs| ==> cs[i] in s.workers
    ensures Credit(FeedAll(s, cs, env).0) <= Credit(s)
    decreases |cs|
  {
    hide Base, Feed, Credit;
    if cs != [] {
      assert forall i :: 0 <= i < |cs[1..]| ==> cs[1..][i] == cs[i + 1];
      FeedSpares(s, cs[0], env);
      FeedCosts(s, cs[0], env);
      FeedAllCosts(Feed(s, cs[0], env).0, cs[1..], Feed(s, cs[0], env).1);
    }
  }

  lemma {:induction false} FullSlack(max: nat, n: nat)
    ensures Slack(map[], max, n) == n * max
  {
    if n > 0 { FullSlack(max, n - 1); }
  }

  /** A batch buys its tries. */
  lemma SubmitCosts(s: State, items: seq<Value>, env: Outcomes)
    requires Base(s) && SubmitRefusal(s, items).None?
    ensures Credit(Submit(s, items, env).0) <= Credit(s) + 3 * |items| * s.maxtries
    ensures Submit(s, items, env).0.submitted == |items| && s.submitted == 0
    ensures Submit(s, items, env).0.maxtries == s.maxtries
  {
    hide Base, FeedAll, Submittable, Credit, Filed;
    FiledIsBase(s, items);
    FiledFrame(s, items);
    FeedAllCosts(Filed(s, items), s.workers, env);
    FiledCosts(s, items);
  }

  lemma FiledCosts(s: State, items: seq<Value>)
    requires Base(s) && !s.once
    ensures Credit(Filed(s, items)) == Credit(s) + 3 * |items| * s.maxtries
    ensures s.submitted == 0 && Filed(s, items).maxtries == s.maxtries
  {
    hide Base, Stamp, Slack;
    BeforeSubmit(s);
    FullSlack(s.maxtries, |items|);
    FullSlack(s.maxtries, 0);
    Triple(|items|, s.maxtries);
  }

  lemma Triple(n: nat, k: nat)
    ensures 3 * n * k == 3 * (n * k)
  {
  }

  lemma BeforeSubmit(s: State)
    requires Base(s) && !s.once
    ensures s.submitted == 0 && s.tries == map[] && s.inflight == map[] && s.results == []
  {
    NothingYet(s);
  }

  // ---- what a move of the system costs --------------------------------------------------

  /** Workers with a reply on its way. */
  ghost function Waiting(y: System): set<Worker> {
    set c | c in y.dir.workers && UnreadOf(y.wire, c) != []
  }

  ghost function Worth(y: System): int {
    Credit(y.dir) - |Waiting(y)|
  }

  /** The move serves a request, takes a reply, or buries a worker. */
  ghost predicate Effective(y: System, m: Move) {
    match m
    case Give(_, _) => false
    case Work(c) => Serves(y, c)
    case Crash(_) => false
    case Snap(_, _) => false
    case Poll(c, info, k, _) =>
      var unread := UnreadOf(y.wire, c);
      c in y.dir.workers && (!info || (k > 0 && unread != []) || (c in Gone(y.wire) && unread == []))
  }

  lemma FewerWaiting(a: set<Worker>, b: set<Worker>, c: Worker)
    requires a - {c} <= b
    ensures |a| - (if c in a then 1 else 0) <= |b|
  {
    assert |a - {c}| <= |b| by { Subset(a - {c}, b); }
  }

  lemma Subset<T>(a: set<T>, b: set<T>)
    requires a <= b
    ensures |a| <= |b|
  {
    assert b == a + (b - a);
  }

  lemma ServesOne(y: System, c: Worker)
    requires Base(y.dir) && Sound(y.dir, y.wire, {}) && Effective(y, Work(c))
    ensures var z := Move1(y, Work(c));
      && z.dir == y.dir && UnreadOf(y.wire, c) == [] && UnreadOf(z.wire, c) != []
      && forall d :: d != c ==> UnreadOf(z.wire, d) == UnreadOf(y.wire, d)
  {
    hide Base, Linked, Faithful, AllFit, LinesTo, AnswerTo, Flow, Serve, JsonEmit.Text;
    var lines := LinesTo(y.dir.sent, c);
    LinkOf(y.dir, y.wire, c);
    ToServe(y.wire.ops, y.dir.inflight, lines, ServedBy(y.wire, c), UnreadOf(y.wire, c), c in y.wire.torn, c);
    OwnItem(y.dir, y.wire, c);
    RequestLine(y.wire, y.dir.inflight[c]);
    OneAnswer(y.wire.ops, lines[ServedBy(y.wire, c)]);
  }

  lemma WorkCosts(y: System, c: Worker)
    requires Base(y.dir) && Sound(y.dir, y.wire, {}) && Effective(y, Work(c))
    ensures Worth(Move1(y, Work(c))) <= Worth(y) - 1
  {
    hide Base, Sound, LinesTo, Credit, Serve, Move1, UnreadOf;
    ServesOne(y, c);
    assert Waiting(Move1(y, Work(c))) == Waiting(y) + {c};
  }

  lemma CrashCosts(y: System, m: Move)
    requires Base(y.dir) && m.Crash?
    ensures Worth(Move1(y, m)) == Worth(y)
  {
    hide Base, Credit;
    assert Waiting(Move1(y, m)) == Waiting(y);
  }

  lemma SnapCosts(y: System, m: Move)
    requires Base(y.dir) && m.Snap? && Serves(y, m.c)
    ensures Worth(Move1(y, m)) <= Worth(y)
  {
    hide Base, Credit, LinesTo, Serve, Cut;
    Subset(Waiting(y), Waiting(Move1(y, m)));
  }

  /** What becomes of a worker whose pipe the director looks at. */
  lemma PollCosts(y: System, c: Worker, info: bool, k: nat, env: Outcomes)
    requires Base(y.dir) && Sound(y.dir, y.wire, {}) && c in y.dir.workers
    ensures var m := Poll(c, info, k, env);
      var t := Move1(y, m).dir;
      && Credit(t) <= Credit(y.dir) - (if Effective(y, m) then 1 else 0)
           - (if c in Waiting(y) && (!info || k > 0) then 1 else 0)
      && (forall d :: d in y.dir.workers && d != c ==> d in t.workers)
      && (c in Waiting(y) && info && k == 0 ==> c in t.workers)
  {
    hide Base, Faithful, AllFit, LinesTo, AnswerTo, Credit, Linked, ReadLoop, Died, Flow;
    var s, w, z := y.dir, y.wire, Move1(y, Poll(c, info, k, env));
    var u := UnreadOf(w, c);
    var n := if k < |u| then k else |u|;
    assert u == u[..n] + u[n..];
    Fresh(s);
    LinkOf(s, w, c);
    if u != [] { WaitingFlies(s, w, c); }
    DiedCosts(s, c, env);
    DiedSpares(s, c, env);
    if info {
      if n == 0 {
        assert Lines(u[..n]) == [];
        ReadsNothing(s, c, c in Gone(y.wire) && n == |u|, env);
      } else {
        assert k > 0 && u != [];
        Relink(s, w, z.wire, c);
        ReadOneCosts(s, z.wire, c, u[..n], c in Gone(y.wire) && n == |u|, env);
      }
    }
  }

  lemma WaitingFlies(s: State, w: Wire, c: Worker)
    requires Flow(w.ops, s.inflight, LinesTo(s.sent, c), ServedBy(w, c), UnreadOf(w, c), c in w.torn, c)
    requires UnreadOf(w, c) != []
    ensures c in s.inflight
  {
  }

  lemma ReadsNothing(s: State, c: Worker, eof: bool, env: Outcomes)
    requires Base(s) && c in s.workers
    ensures ReadLoop(s, c, [], eof, env) == if eof then Died(s, c, env) else (CheckDone(s), env)
    ensures Credit(CheckDone(s)) == Credit(s)
  {
    hide Base, Died, Credit;
    SameCredit(s, CheckDone(s));
  }

  /** Reading the one reply there is. */
  lemma ReadOneCosts(s: State, w: Wire, c: Worker, ls: seq<string>, eof: bool, env: Outcomes)
    requires Base(s) && Sound(s, w, {c}) && c in s.workers && ls != []
    requires Flow(w.ops, s.inflight, LinesTo(s.sent, c), ServedBy(w, c), ls + UnreadOf(w, c), c in w.torn, c)
    ensures var t := ReadLoop(s, c, Lines(ls), eof, env).0;
      Credit(t) <= Credit(s) - 2 && forall d :: d in s.workers && d != c ==> d in t.workers
  {
    hide Base, Sound, Take, Answers, ReplyIn, Feed, Died, LinesTo, AnswerTo, Flow, Credit, CheckDone, Welcome;
    var item := OneLine(s, w, c, ls);
    assert Lines(ls)[0] == Line(ls[0]) && Lines(ls)[1..] == [];
    if Welcome(w, item, ls[0]) {
      ReplyTaken(s, w, c, ls);
      AnswersOne(s, c, ReplyIn(ls[0]).value);
      TakenCosts(s, c, ReplyIn(ls[0]).value, eof, env);
    } else {
      LineRefused(s, w, c, ls);
      AccuseKeeps(s, c);
      SameCredit(s, Accuse(s, c));
      DiedCosts(Accuse(s, c), c, env);
      DiedSpares(Accuse(s, c), c, env);
    }
  }

  /** Taking the reply, feeding the worker, and seeing its end if it is gone. */
  lemma TakenCosts(s: State, c: Worker, v: Value, eof: bool, env: Outcomes)
    requires Base(s) && Answers(s, c, v) && Base(Take(s, c, v)) && c in Take(s, c, v).workers
    ensures var f := Feed(Take(s, c, v), c, env);
      && Base(Note(f.0, c))
      && var t := ReadLoop(Note(f.0, c), c, [], eof, f.1).0;
         Credit(t) <= Credit(s) - 2 && forall d :: d in s.workers && d != c ==> d in t.workers
  {
    hide Base, Take, Feed, Died, Credit, CheckDone;
    TakeCosts(s, c, v);
    var t := Take(s, c, v);
    SameCrew(s, c, v);
    FeedCosts(t, c, env);
    FeedSpares(t, c, env);
    var f := Feed(t, c, env);
    NoteKeeps(f.0, c);
    SameCredit(f.0, Note(f.0, c));
    var n := Note(f.0, c);
    if c in n.workers {
      ReadsNothing(n, c, eof, f.1);
      DiedCosts(n, c, f.1);
      DiedSpares(n, c, f.1);
      SameWorkers(n);
    }
  }

  lemma SameCrew(s: State, c: Worker, v: Value)
    requires c in s.inflight
    ensures Take(s, c, v).workers == s.workers
  {
  }

  lemma SameWorkers(s: State)
    ensures CheckDone(s).workers == s.workers
  {
  }

  lemma MoveCosts(y: System, m: Move)
    requires Base(y.dir) && Sound(y.dir, y.wire, {})
    requires m.Give? ==> SubmitRefusal(y.dir, m.items).Some?
    ensures Worth(Move1(y, m)) <= Worth(y) - if Effective(y, m) then 1 else 0
  {
    hide Base, Sound, Credit, LinesTo, SubmitRefusal, Readable, Serve;
    match m
    case Give(_, _) =>
    case Crash(_) => CrashCosts(y, m);
    case Snap(c, _) => if Serves(y, c) { SnapCosts(y, m); }
    case Work(c) => if Effective(y, m) { WorkCosts(y, c); }
    case Poll(c, info, k, env) =>
      if c in y.dir.workers {
        PollCosts(y, c, info, k, env);
        PollWaits(y, c, info, k, env);
      }
  }

  /** Nobody else's reply is touched, and one not read stays. */
  lemma PollWaits(y: System, c: Worker, info: bool, k: nat, env: Outcomes)
    requires Base(y.dir) && c in y.dir.workers
    requires var t := Move1(y, Poll(c, info, k, env)).dir;
      && (forall d :: d in y.dir.workers && d != c ==> d in t.workers)
      && (c in Waiting(y) && info && k == 0 ==> c in t.workers)
    ensures |Waiting(Move1(y, Poll(c, info, k, env)))|
         >= |Waiting(y)| - if c in Waiting(y) && (!info || k > 0) then 1 else 0
  {
    hide Base, Readable;
    var z := Move1(y, Poll(c, info, k, env));
    FewerWaiting(Waiting(y), Waiting(z), c);
    if c in Waiting(y) && info && k == 0 {
      assert UnreadOf(z.wire, c) == UnreadOf(y.wire, c);
      Subset(Waiting(y), Waiting(z));
    }
  }

  lemma GiveCosts(y: System, items: seq<Value>, env: Outcomes)
    requires Base(y.dir) && Sound(y.dir, y.wire, {}) && SubmitRefusal(y.dir, items).None?
    ensures var z := Move1(y, Give(items, env));
      && Worth(z) <= Worth(y) + 3 * |items| * y.dir.maxtries
      && z.dir.submitted == |items| && y.dir.submitted == 0 && z.dir.maxtries == y.dir.maxtries
  {
    hide Base, Submit, Credit, Faithful, AllFit, LinesTo;
    SubmitCosts(y.dir, items, env);
    BeforeSubmit(y.dir);
    forall c | c in y.dir.workers ensures UnreadOf(y.wire, c) == [] {
      LinkOf(y.dir, y.wire, c);
    }
    assert Waiting(y) == {};
  }

  // ---- every run ends ---------------------------------------------------------------------

  /** How many moves of the run do anything. */
  ghost function Effort(y: System, ms: seq<Move>): nat
    requires Base(y.dir)
    decreases |ms|
  {
    hide Base, Move1, Effective;
    if ms == [] then 0
    else Move1Base(y, ms[0]); (if Effective(y, ms[0]) then 1 else 0) + Effort(Move1(y, ms[0]), ms[1..])
  }

  lemma Buys(y: System, m: Move)
    requires Base(y.dir) && Sound(y.dir, y.wire, {})
    ensures var z := Move1(y, m);
      && z.dir.maxtries == y.dir.maxtries
      && Worth(z) + (if Effective(y, m) then 1 else 0) - 3 * z.dir.submitted * z.dir.maxtries
           <= Worth(y) - 3 * y.dir.submitted * y.dir.maxtries
  {
    hide Base, Sound, Worth, Submit, Readable, SubmitRefusal, LinesTo, Serve;
    if m.Give? && SubmitRefusal(y.dir, m.items).None? {
      GiveCosts(y, m.items, m.env);
    } else {
      MoveCosts(y, m);
    }
  }

  lemma {:induction false} EffortIsPaid(y: System, ms: seq<Move>)
    requires Base(y.dir) && Sound(y.dir, y.wire, {}) && GivenMoves(y.wire.ops, ms)
    ensures var z := Moves(y, ms);
      && z.dir.maxtries == y.dir.maxtries
      && Worth(z) + Effort(y, ms) - 3 * z.dir.submitted * z.dir.maxtries
           <= Worth(y) - 3 * y.dir.submitted * y.dir.maxtries
    decreases |ms|
  {
    hide Base, Sound, Move1, Worth, Effective, AllGiven;
    if ms != [] {
      MoveSound(y, ms[0]);
      Move1Base(y, ms[0]);
      Buys(y, ms[0]);
      assert forall i :: 0 <= i < |ms[1..]| ==> ms[1..][i] == ms[i + 1];
      EffortIsPaid(Move1(y, ms[0]), ms[1..]);
    }
  }

  lemma {:induction false} RepliesWithin(rs: seq<Reply>)
    ensures |ReplyIds(rs)| == |rs|
  {
    if rs != [] { RepliesWithin(rs[..|rs| - 1]); }
  }

  lemma {:induction false} EachSize(n: nat)
    ensures |Each(n)| == n
  {
    if n > 0 { EachSize(n - 1); }
  }

  lemma {:induction false} CrewSize(ws: seq<Worker>, cs: set<Worker>)
    requires forall c :: c in cs ==> c in ws
    ensures |cs| <= |ws|
    decreases |ws|
  {
    if ws != [] {
      var n := |ws| - 1;
      forall c | c in cs - {ws[n]} ensures c in ws[..n] {
        var i :| 0 <= i < |ws| && ws[i] == c;
        assert ws[..n][i] == c;
      }
      CrewSize(ws[..n], cs - {ws[n]});
    } else {
      assert cs == {};
    }
  }

  /** What is left is never worth less than the answers given. */
  lemma WorthAtLeast(y: System)
    requires Base(y.dir)
    ensures Worth(y) >= -3 * y.dir.submitted
  {
    hide Slack, Bounded, Tallied, Ids, FlightIds, ReplyIds, Each;
    var s := y.dir;
    CrewSize(s.workers, Waiting(y));
    CrewSize(s.workers, s.inflight.Keys);
    assert |s.inflight.Keys| == |s.inflight|;
    RepliesWithin(s.results);
    EachSize(s.submitted);
    assert |Ids(s.pending) + FlightIds(s.inflight) + ReplyIds(s.results)| >= |ReplyIds(s.results)|;
  }

  /** However they interleave and whatever fails, the processes make at most this many moves
      that serve a request, take a reply or bury a worker. */
  lemma {:induction false} EveryRunEnds(ops: Ops, width: nat, maxtries: nat, ms: seq<Move>)
    requires width >= 1 && maxtries >= 1 && GivenMoves(ops, ms)
    ensures Base(Started(ops, width, maxtries).dir)
    ensures var y := Started(ops, width, maxtries);
      Effort(y, ms) <= 2 * width + 3 * Moves(y, ms).dir.submitted * (maxtries + 1)
  {
    hide Base, Moves, AllGiven, Worth, Effort;
    var y := Started(ops, width, maxtries);
    LaunchedIsBase(width, maxtries, width);
    StartedSound(ops, width, maxtries);
    EffortIsPaid(y, ms);
    var z := Moves(y, ms);
    WorthAtLeast(z);
    StartedWorth(ops, width, maxtries);
    Distributes(z.dir.submitted, maxtries);
  }

  lemma Distributes(n: nat, k: nat)
    ensures 3 * n * (k + 1) == 3 * n * k + 3 * n
  {
  }

  lemma StartedWorth(ops: Ops, width: nat, maxtries: nat)
    ensures Worth(Started(ops, width, maxtries)) == 2 * width && Started(ops, width, maxtries).dir.submitted == 0
  {
    assert Waiting(Started(ops, width, maxtries)) == {};
  }

  // ---- and ends well ------------------------------------------------------------------------

  /** In every reachable state: nobody waits on nobody. While something is in flight, its
      worker can serve it, or the director can read its reply or, if it crashed, see the end
      of its pipe. */
  lemma {:induction false} NoDeadlock(ops: Ops, width: nat, maxtries: nat, ms: seq<Move>, c: Worker)
    requires width >= 1 && maxtries >= 1 && GivenMoves(ops, ms)
    ensures Base(Started(ops, width, maxtries).dir)
    ensures var z := Moves(Started(ops, width, maxtries), ms);
      c in z.dir.inflight ==> Goes(z, c)
  {
    hide Base, Moves, AllGiven, LinesTo;
    var y := Started(ops, width, maxtries);
    LaunchedIsBase(width, maxtries, width);
    StartedSound(ops, width, maxtries);
    MovesSound(y, ms);
    hide Sound;
    var z := Moves(y, ms);
    if c in z.dir.inflight { FlightIsRipe(z, c); }
  }

  /** c can serve a request, or the director read its reply or see its end. */
  ghost predicate Goes(y: System, c: Worker) {
    Effective(y, Work(c)) || Effective(y, Poll(c, true, 1, [])) || Effective(y, Poll(c, true, 0, []))
  }

  /** Every batch in the run that is accepted finds a live worker. */
  ghost predicate AliveAtGive(y: System, ms: seq<Move>)
    requires Base(y.dir)
    decreases |ms|
  {
    hide Base, Move1, SubmitRefusal;
    ms == [] ||
    (&& (ms[0].Give? && SubmitRefusal(y.dir, ms[0].items).None? ==> y.dir.workers != [])
     && (Move1Base(y, ms[0]); AliveAtGive(Move1(y, ms[0]), ms[1..])))
  }

  lemma MoveServed(y: System, m: Move)
    requires Base(y.dir) && Served(y.dir)
    requires m.Give? && SubmitRefusal(y.dir, m.items).None? ==> y.dir.workers != []
    ensures Base(Move1(y, m).dir) && Served(Move1(y, m).dir)
  {
    hide Base, Submit, Readable, Orderly, Manned, SubmitRefusal, LinesTo, Serve;
    Move1Base(y, m);
    match m
    case Give(items, env) => StepOrderly(y.dir, Batch(items, env));
    case Work(_) =>
    case Crash(_) =>
    case Snap(_, _) =>
    case Poll(c, info, k, env) =>
      if c in y.dir.workers {
        var u := UnreadOf(y.wire, c);
        var n := if k < |u| then k else |u|;
        StepOrderly(y.dir, Ready(c, info, Lines(u[..n]), c in Gone(y.wire) && n == |u|, env));
      }
  }

  lemma {:induction false} MovesServed(y: System, ms: seq<Move>)
    requires Base(y.dir) && Served(y.dir) && AliveAtGive(y, ms)
    ensures Served(Moves(y, ms).dir)
    decreases |ms|
  {
    hide Base, Served, Move1, SubmitRefusal;
    if ms != [] {
      MoveServed(y, ms[0]);
      MovesServed(Move1(y, ms[0]), ms[1..]);
    }
  }

  /** A run that cannot go on is over: `pool wait` returns every reply, or a launch failed. */
  lemma {:induction false} StuckIsDone(ops: Ops, width: nat, maxtries: nat, ms: seq<Move>)
    requires width >= 1 && maxtries >= 1 && GivenMoves(ops, ms)
    ensures Base(Started(ops, width, maxtries).dir)
    ensures var y := Started(ops, width, maxtries);
      var z := Moves(y, ms);
      (forall c :: !Goes(z, c)) ==>
        && z.dir.inflight == map[]
        && (AliveAtGive(y, ms) ==>
              z.dir.done && if z.dir.fatal then Wait(z.dir, []) == LaunchFailed else Wait(z.dir, []).Replies?)
  {
    hide Base, Moves, AllGiven, Goes, AliveAtGive, Orderly, Manned;
    var y := Started(ops, width, maxtries);
    LaunchedIsServed(width, maxtries);
    var z := Moves(y, ms);
    if forall c :: !Goes(z, c) {
      forall c ensures c !in z.dir.inflight { NoDeadlock(ops, width, maxtries, ms, c); }
      if AliveAtGive(y, ms) {
        MovesServed(y, ms);
        ServedMoves(z.dir);
        AwaitNone(z.dir);
      }
    }
  }
}
