/** What holds between events while no launch has failed: the queue is the tail of
    the batch, nobody idles while it is not empty, and deaths are bounded. */
module PoolProgress {
  import opened TclValues
  import opened PoolState
  import opened PoolDirector
  import JsonEmit
  import JsonReader

  /** The queue is the last ids of the batch, in order. */
  predicate Tail(pending: seq<Item>, n: nat) {
    |pending| <= n && forall i :: 0 <= i < |pending| ==> pending[i].id == n - |pending| + i
  }

  /** Every worker but the spare ones has an item in flight. */
  predicate BusyBut(ws: seq<Worker>, infl: map<Worker, Item>, spare: set<Worker>) {
    forall c :: c in ws ==> c in infl || c in spare
  }

  /** Each death beyond the first width took a try with it. */
  ghost predicate DeathsCounted(s: State) {
    |s.workers| + s.dead <= s.width + SumTries(s.tries, s.submitted)
  }

  ghost predicate Orderly(s: State, spare: set<Worker>) {
    !s.fatal ==>
      && Tail(s.pending, s.submitted)
      && (s.pending != [] ==> BusyBut(s.workers, s.inflight, spare))
      && DeathsCounted(s)
  }

  /** The moment before an idle worker c is fed: a requeued item may stand before the tail. */
  ghost predicate Brink(s: State, c: Worker, spare: set<Worker>) {
    !s.fatal ==>
      && (s.pending != [] ==> Tail(s.pending[1..], s.submitted))
      && (|s.pending| > 1 ==> BusyBut(s.workers, s.inflight, spare + {c}))
      && DeathsCounted(s)
  }

  lemma {:induction false} FeedOrderly(s: State, c: Worker, spare: set<Worker>, env: Outcomes)
    requires Base(s) && c in s.workers && c !in s.inflight && Brink(s, c, spare)
    ensures Orderly(Feed(s, c, env).0, spare)
    decreases SlackOf(s), 1
  {
    hide Base, Slack, DeathsCounted;
    if s.pending == [] {
      SameDeaths(s, CheckDone(s));
    } else {
      var h := Hand(s, c);
      HandKeeps(s, c);
      SameDeaths(s, h);
      SameDeaths(s, Send(h, c, s.pending[0].request));
      assert Orderly(h, spare) by { hide Feed, Died; }
      if !Encodable(s.pending[0].request) {
        DiedOrderly(h, c, spare, env);
      } else if !Next(env) {
        DiedOrderly(h, c, spare, Later(env));
      }
    }
  }

  lemma SameDeaths(s: State, t: State)
    requires s.workers == t.workers && s.dead == t.dead && s.tries == t.tries && SameBatch(s, t)
    ensures DeathsCounted(s) == DeathsCounted(t)
  {
  }

  lemma {:induction false} DiedOrderly(s: State, c: Worker, spare: set<Worker>, env: Outcomes)
    requires Base(s) && c in s.workers && Orderly(s, spare)
    requires s.fatal || c in s.inflight || s.pending == []
    ensures Orderly(Died(s, c, env).0, spare)
    decreases SlackOf(s), if c in s.inflight then 0 else 2
  {
    hide Base, Slack, DeathsCounted, Lost, Tail, BusyBut, Brink;
    var t := Lost(s, c);
    LostKeeps(s, c);
    LostFrame(s, c);
    if !s.fatal { LostDeaths(s, c); }
    if t.pending == [] {
      SameDeaths(t, CheckDone(t));
      EmptyTail(t.submitted);
    } else if Next(env) {
      SpawnKeeps(t);
      SpawnBrink(s, c, spare);
      FeedOrderly(Spawn(t), t.nextWorker, spare, Later(env));
      var u := Feed(Spawn(t), t.nextWorker, Later(env)).0;
      SameDeaths(u, CheckDone(u));
    }
  }

  lemma LostDeaths(s: State, c: Worker)
    requires Base(s) && c in s.workers && DeathsCounted(s)
    ensures DeathsCounted(Lost(s, c))
    ensures Lost(s, c).pending != [] && c in s.inflight ==> DeathsCounted(Spawn(Lost(s, c)))
  {
    hide Base;
    LostKeeps(s, c);
    LostFrame(s, c);
  }

  lemma SpawnBrink(s: State, c: Worker, spare: set<Worker>)
    requires Base(s) && c in s.workers && Orderly(s, spare) && Lost(s, c).pending != []
    requires s.fatal || c in s.inflight || s.pending == []
    ensures var u := Spawn(Lost(s, c)); Brink(u, Lost(s, c).nextWorker, spare) && Lost(s, c).nextWorker !in u.inflight
  {
    hide Base, DeathsCounted;
    LostLeaves(s, c);
    LostFrame(s, c);
    Fresh(s);
    if !s.fatal { LostDeaths(s, c); }
    var u := Spawn(Lost(s, c));
    if c in s.inflight && TriesOf(s.tries, s.inflight[c].id) + 1 < s.maxtries {
      assert u.pending[1..] == s.pending;
    } else {
      assert u.pending == s.pending;
    }
  }

  lemma EmptyTail(n: nat)
    ensures Tail([], n)
  {
  }

  // ---- nothing is left lying ---------------------------------------------------------

  /** Unless a launch failed: a queue has workers, and with nothing left the pool says so. */
  predicate Manned(s: State) {
    !s.fatal ==>
      && (s.pending != [] ==> s.workers != [])
      && (s.pending == [] && s.inflight == map[] ==> s.done)
  }

  lemma {:induction false} FeedManned(s: State, c: Worker, env: Outcomes)
    requires Base(s) && c in s.workers && c !in s.inflight
    ensures Manned(Feed(s, c, env).0)
    decreases SlackOf(s), 1
  {
    hide Base, Slack;
    if s.pending != [] {
      var h := Hand(s, c);
      HandKeeps(s, c);
      assert c in h.inflight;
      DiedManned(h, c, if Encodable(s.pending[0].request) then Later(env) else env);
    }
  }

  lemma {:induction false} DiedManned(s: State, c: Worker, env: Outcomes)
    requires Base(s) && c in s.workers
    ensures Manned(Died(s, c, env).0)
    decreases SlackOf(s), if c in s.inflight then 0 else 2
  {
    hide Base, Slack, Lost;
    var t := Lost(s, c);
    LostKeeps(s, c);
    LostFrame(s, c);
    if t.pending != [] && Next(env) {
      SpawnKeeps(t);
      Fresh(t);
      assert t.nextWorker !in t.inflight;
      FeedManned(Spawn(t), t.nextWorker, Later(env));
    }
  }

  // ---- the readable handler keeps both -------------------------------------------------

  lemma {:induction false} ReadLoopOrderly(s: State, c: Worker, gets: seq<Got>, eof: bool, env: Outcomes)
    requires Base(s) && Orderly(s, {})
    ensures Orderly(ReadLoop(s, c, gets, eof, env).0, {})
    decreases |gets|
  {
    hide Base, DeathsCounted, Take, Answers, ReplyIn, Feed, Died, Tail;
    if c in s.workers {
      AccuseKeeps(s, c);
      SameDeaths(s, Accuse(s, c));
      SameDeaths(s, CheckDone(s));
      if gets == [] {
        if eof { DiedOrderly(s, c, {}, env); }
      } else if gets[0] == Raised {
        DiedOrderly(Accuse(s, c), c, {}, env);
      } else if gets[0].text == "" {
        ReadLoopOrderly(s, c, gets[1..], eof, env);
      } else {
        var rep := ReplyIn(gets[0].text);
        if rep.None? || !Answers(s, c, rep.value) {
          DiedOrderly(Accuse(s, c), c, {}, env);
        } else {
          AnswersOne(s, c, rep.value);
          TakeBrink(s, c, rep.value);
          FeedOrderly(Take(s, c, rep.value), c, {}, env);
          var f := Feed(Take(s, c, rep.value), c, env);
          NoteKeeps(f.0, c);
          SameDeaths(f.0, Note(f.0, c));
          ReadLoopOrderly(Note(f.0, c), c, gets[1..], eof, f.1);
        }
      }
    }
  }

  lemma TakeBrink(s: State, c: Worker, v: Value)
    requires Orderly(s, {}) && c in s.inflight
    ensures Brink(Take(s, c, v), c, {})
  {
    hide DeathsCounted;
    SameDeaths(s, Take(s, c, v));
  }

  lemma {:induction false} ReadLoopManned(s: State, c: Worker, gets: seq<Got>, eof: bool, env: Outcomes)
    requires Base(s) && Manned(s)
    ensures Manned(ReadLoop(s, c, gets, eof, env).0)
    decreases |gets|
  {
    hide Base, Take, Answers, ReplyIn, Feed, Died;
    if c in s.workers {
      AccuseKeeps(s, c);
      if gets == [] {
        if eof { DiedManned(s, c, env); }
      } else if gets[0] == Raised {
        DiedManned(Accuse(s, c), c, env);
      } else if gets[0].text == "" {
        ReadLoopManned(s, c, gets[1..], eof, env);
      } else {
        var rep := ReplyIn(gets[0].text);
        if rep.None? || !Answers(s, c, rep.value) {
          DiedManned(Accuse(s, c), c, env);
        } else {
          AnswersOne(s, c, rep.value);
          FeedManned(Take(s, c, rep.value), c, env);
          var f := Feed(Take(s, c, rep.value), c, env);
          NoteKeeps(f.0, c);
          ReadLoopManned(Note(f.0, c), c, gets[1..], eof, f.1);
        }
      }
    }
  }

  lemma ReadableKeeps(s: State, c: Worker, info: bool, gets: seq<Got>, eof: bool, env: Outcomes)
    requires Base(s)
    ensures Orderly(s, {}) ==> Orderly(Readable(s, c, info, gets, eof, env).0, {})
    ensures Manned(s) ==> Manned(Readable(s, c, info, gets, eof, env).0)
  {
    hide Base, Died, ReadLoop, DeathsCounted, Tail, Manned;
    if Orderly(s, {}) {
      ReadLoopOrderly(s, c, gets, eof, env);
      if c in s.workers { DiedOrderly(s, c, {}, env); } else { NoneToBury(s, c, env); }
    }
    if Manned(s) {
      ReadLoopManned(s, c, gets, eof, env);
      if c in s.workers { DiedManned(s, c, env); } else { NoneToBury(s, c, env); }
    }
  }

  lemma NoneToBury(s: State, c: Worker, env: Outcomes)
    requires Base(s) && c !in s.workers
    ensures Died(s, c, env).0 == s
  {
    hide Base;
  }

  // ---- submit -----------------------------------------------------------------------

  predicate NoneBusy(cs: seq<Worker>, infl: map<Worker, Item>) {
    forall i :: 0 <= i < |cs| ==> cs[i] !in infl
  }

  function SetOf(cs: seq<Worker>): set<Worker> {
    set i | 0 <= i < |cs| :: cs[i]
  }

  lemma {:induction false} FeedAllOrderly(s: State, cs: seq<Worker>, env: Outcomes)
    requires Base(s) && Distinct(cs) && forall i :: 0 <= i < |cs| ==> cs[i] in s.workers
    requires NoneBusy(cs, s.inflight) && Orderly(s, SetOf(cs))
    ensures Orderly(FeedAll(s, cs, env).0, {})
    ensures cs != [] || Manned(s) ==> Manned(FeedAll(s, cs, env).0)
    decreases |cs|
  {
    hide Base, Feed, DeathsCounted, Tail, Manned;
    if cs == [] {
      assert SetOf(cs) == {};
    } else {
      var rest := cs[1..];
      assert forall i :: 0 <= i < |rest| ==> rest[i] == cs[i + 1];
      SpareOne(cs);
      FullBrink(s, cs[0], SetOf(rest));
      FeedOrderly(s, cs[0], SetOf(rest), env);
      FeedManned(s, cs[0], env);
      FeedSpares(s, cs[0], env);
      var f := Feed(s, cs[0], env);
      FeedAllOrderly(f.0, rest, f.1);
    }
  }

  lemma SpareOne(cs: seq<Worker>)
    requires cs != []
    ensures SetOf(cs) == SetOf(cs[1..]) + {cs[0]}
  {
    assert forall i :: 0 < i < |cs| ==> cs[i] == cs[1..][i - 1];
  }

  lemma FullBrink(s: State, c: Worker, spare: set<Worker>)
    requires Orderly(s, spare + {c})
    ensures Brink(s, c, spare)
  {
    hide DeathsCounted;
  }

  lemma FiledOrderly(s: State, items: seq<Value>)
    requires Base(s) && Orderly(s, {}) && SubmitRefusal(s, items).None?
    ensures Orderly(Filed(s, items), SetOf(s.workers)) && NoneBusy(s.workers, Filed(s, items).inflight)
  {
    hide Base, Filed;
    FiledFrame(s, items);
    NoTries(s.submitted);
    NoTries(|items|);
    assert forall c :: c in s.workers ==> c in SetOf(s.workers);
  }

  /** Submitting keeps the order; and the batch moves exactly when some worker was alive
      to be fed: otherwise nothing is in flight and the pool never says it is done. */
  lemma SubmitProgress(s: State, items: seq<Value>, env: Outcomes)
    requires Base(s) && Orderly(s, {}) && SubmitRefusal(s, items).None?
    ensures var t := Submit(s, items, env).0;
      && Orderly(t, {})
      && t.once
      && (s.workers != [] ==> Manned(t))
      && (s.workers == [] ==> !t.done && t.inflight == map[] && t.workers == [] && t.fatal == s.fatal)
  {
    hide Base, Filed, FeedAll, DeathsCounted, Tail, Manned, Submittable;
    FiledIsBase(s, items);
    FiledFrame(s, items);
    FiledOrderly(s, items);
    FeedAllOrderly(Filed(s, items), s.workers, env);
    if s.workers == [] { FeedNone(Filed(s, items), env); }
  }

  lemma FeedNone(s: State, env: Outcomes)
    requires Base(s)
    ensures FeedAll(s, [], env).0 == s
  {
    hide Base;
  }

  // ---- runs ---------------------------------------------------------------------------

  /** Submit feeds whoever is alive: in a pool that never lost its last worker before
      submit, the queue stays served. */
  ghost predicate Served(s: State) {
    Orderly(s, {}) && (s.once ==> Manned(s))
  }

  /** Every submit in the run that is accepted finds a live worker. */
  ghost predicate AliveAtSubmit(s: State, es: seq<Event>)
    requires Base(s)
    decreases |es|
  {
    es == [] ||
    (&& (es[0].Batch? && SubmitRefusal(s, es[0].items).None? ==> s.workers != [])
     && AliveAtSubmit(Step(s, es[0]), es[1..]))
  }

  lemma StepOrderly(s: State, e: Event)
    requires Base(s) && Orderly(s, {})
    ensures Orderly(Step(s, e), {})
    ensures (e.Batch? && SubmitRefusal(s, e.items).None? ==> s.workers != []) && Served(s) ==> Served(Step(s, e))
  {
    hide Base, Submit, Readable, Orderly, Manned, SubmitRefusal;
    match e
    case Batch(items, env) =>
      if SubmitRefusal(s, items).None? { SubmitProgress(s, items, env); } else { RefusedSubmit(s, items, env); }
    case Ready(c, info, gets, eof, env) =>
      ReadableKeeps(s, c, info, gets, eof, env);
  }

  lemma RefusedSubmit(s: State, items: seq<Value>, env: Outcomes)
    requires Base(s) && SubmitRefusal(s, items).Some?
    ensures Submit(s, items, env).0 == s
  {
    hide Base;
  }

  lemma {:induction false} RunOrderly(s: State, es: seq<Event>)
    requires Base(s) && Orderly(s, {})
    ensures Orderly(Run(s, es), {})
    ensures Served(s) && AliveAtSubmit(s, es) ==> Served(Run(s, es))
    decreases |es|
  {
    hide Base, Step, Orderly, Manned;
    if es != [] {
      StepOrderly(s, es[0]);
      RunOrderly(Step(s, es[0]), es[1..]);
    }
  }

  lemma LaunchedIsServed(width: nat, maxtries: nat)
    requires width >= 1 && maxtries >= 1
    ensures Base(Launched(width, maxtries, width)) && Served(Launched(width, maxtries, width))
  {
    LaunchedIsBase(width, maxtries, width);
    NoTries(0);
  }

  // ---- one handler, several lines ------------------------------------------------------

  /** Workers that appear are new. */
  lemma {:induction false} FeedAdds(s: State, c: Worker, env: Outcomes)
    requires Base(s) && c in s.workers
    ensures var t := Feed(s, c, env).0;
      t.nextWorker >= s.nextWorker && forall d :: d in t.workers ==> d in s.workers || d >= s.nextWorker
    decreases SlackOf(s), 1
  {
    hide Base, Slack;
    if c !in s.inflight && s.pending != [] {
      HandKeeps(s, c);
      DiedAdds(Hand(s, c), c, if Encodable(s.pending[0].request) then Later(env) else env);
    }
  }

  lemma {:induction false} DiedAdds(s: State, c: Worker, env: Outcomes)
    requires Base(s) && c in s.workers
    ensures var t := Died(s, c, env).0;
      && t.nextWorker >= s.nextWorker
      && (forall d :: d in t.workers ==> (d in s.workers && d != c) || d >= s.nextWorker)
      && c !in t.workers
    decreases SlackOf(s), if c in s.inflight then 0 else 2
  {
    hide Base, Slack, Lost, Feed;
    var t := Lost(s, c);
    LostKeeps(s, c);
    LostFrame(s, c);
    LostLeaves(s, c);
    Fresh(s);
    if t.pending != [] && Next(env) {
      SpawnKeeps(t);
      FeedAdds(Spawn(t), t.nextWorker, Later(env));
    }
  }

  predicate Settled(s: State) {
    s.pending == [] && s.inflight == map[] ==> s.done
  }

  lemma TakeSettles(s: State, c: Worker, v: Value, env: Outcomes)
    requires Base(s) && Answers(s, c, v)
    ensures c in s.inflight && Base(Take(s, c, v)) && c in Take(s, c, v).workers
    ensures Settled(Feed(Take(s, c, v), c, env).0)
  {
    hide Base, Feed, Take;
    AnswersOne(s, c, v);
    FeedManned(Take(s, c, v), c, env);
    FatalIsDone(Feed(Take(s, c, v), c, env).0);
  }

  lemma FatalIsDone(s: State)
    requires Base(s)
    ensures s.fatal ==> s.done
  {
  }

  /** A feed neither notes nor accuses. */
  lemma {:induction false} FeedNotes(s: State, c: Worker, env: Outcomes)
    requires Base(s) && c in s.workers
    ensures Feed(s, c, env).0.phantoms == s.phantoms && Feed(s, c, env).0.accused == s.accused
    decreases SlackOf(s), 1
  {
    hide Base, Slack;
    if c !in s.inflight && s.pending != [] {
      HandKeeps(s, c);
      DiedNotes(Hand(s, c), c, if Encodable(s.pending[0].request) then Later(env) else env);
    }
  }

  lemma {:induction false} DiedNotes(s: State, c: Worker, env: Outcomes)
    requires Base(s) && c in s.workers
    ensures Died(s, c, env).0.phantoms == s.phantoms && Died(s, c, env).0.accused == s.accused
    decreases SlackOf(s), if c in s.inflight then 0 else 2
  {
    hide Base, Slack, Feed, Lost;
    var t := Lost(s, c);
    LostKeeps(s, c);
    LostFrame(s, c);
    LostNotes(s, c);
    if t.pending != [] && Next(env) {
      SpawnKeeps(t);
      FeedNotes(Spawn(t), t.nextWorker, Later(env));
    }
  }

  lemma LostNotes(s: State, c: Worker)
    ensures Lost(s, c).phantoms == s.phantoms && Lost(s, c).accused == s.accused
  {
  }

  /** Feeding an idle worker buries it exactly when there is an item for it and the write
      of that item fails. */
  lemma FeedBuriesWhen(s: State, c: Worker, env: Outcomes)
    requires Base(s) && c in s.workers && c !in s.inflight
    ensures c !in Feed(s, c, env).0.workers <==>
      s.pending != [] && !(Encodable(s.pending[0].request) && Next(env))
  {
    hide Base, Died;
    if s.pending != [] {
      HandKeeps(s, c);
      DiedAdds(Hand(s, c), c, if Encodable(s.pending[0].request) then Later(env) else env);
    }
  }

  /** Some feed of PoolReadable's loop buries the worker being read. */
  ghost predicate FeedBuries(s: State, c: Worker, gets: seq<Got>, env: Outcomes)
    requires Base(s)
    decreases |gets|
  {
    hide Base, Take, Answers, ReplyIn, Feed;
    c in s.workers && gets != [] && gets[0].Line? &&
    if gets[0].text == "" then FeedBuries(s, c, gets[1..], env)
    else
      var rep := ReplyIn(gets[0].text);
      if rep.None? || !Answers(s, c, rep.value) then false
      else
        AnswersOne(s, c, rep.value);
        var f := Feed(Take(s, c, rep.value), c, env);
        c !in f.0.workers || FeedBuries(f.0, c, gets[1..], f.1)
  }

  /** A reply nobody wrote is noted if and only if a feed inside the loop buries the worker
      being read; then once, and no live worker is accused. */
  lemma {:induction false} PhantomIffFeedBuries(s: State, c: Worker, gets: seq<Got>, eof: bool, env: Outcomes)
    requires Base(s)
    ensures var t := ReadLoop(s, c, gets, eof, env).0;
      && t.phantoms == s.phantoms + (if FeedBuries(s, c, gets, env) then 1 else 0)
      && (FeedBuries(s, c, gets, env) ==> t.accused == s.accused && c !in t.workers)
    decreases |gets|
  {
    hide Base, Take, Answers, ReplyIn, Feed, Died;
    if c in s.workers {
      if gets == [] {
        DiedNotes(s, c, env);
      } else if gets[0] == Raised {
        AccuseKeeps(s, c);
        DiedNotes(Accuse(s, c), c, env);
      } else if gets[0].text == "" {
        PhantomIffFeedBuries(s, c, gets[1..], eof, env);
      } else {
        var rep := ReplyIn(gets[0].text);
        if rep.None? || !Answers(s, c, rep.value) {
          AccuseKeeps(s, c);
          DiedNotes(Accuse(s, c), c, env);
        } else {
          AnswersOne(s, c, rep.value);
          var t := Take(s, c, rep.value);
          TakeNotes(s, c, rep.value);
          FeedNotes(t, c, env);
          var f := Feed(t, c, env);
          NoteKeeps(f.0, c);
          PhantomIffFeedBuries(Note(f.0, c), c, gets[1..], eof, f.1);
        }
      }
    }
  }

  lemma TakeNotes(s: State, c: Worker, v: Value)
    requires c in s.inflight
    ensures Take(s, c, v).phantoms == s.phantoms && Take(s, c, v).accused == s.accused
  {
  }

  /** Reading several lines in one handler is reading them in as many: nothing is lost
      by letting the other processes step in between. */
  lemma {:induction false} ReadLoopSplits(s: State, c: Worker, a: seq<Got>, b: seq<Got>, eof: bool, env: Outcomes)
    requires Base(s) && Settled(s)
    ensures var first := ReadLoop(s, c, a, false, env);
      ReadLoop(s, c, a + b, eof, env) == ReadLoop(first.0, c, b, eof, first.1)
    decreases |a|
  {
    hide Base, Take, Answers, ReplyIn, Feed, Died;
    if c !in s.workers {
    } else if a == [] {
      assert a + b == b;
      assert CheckDone(s) == s;
    } else {
      assert (a + b)[0] == a[0] && (a + b)[1..] == a[1..] + b;
      AccuseKeeps(s, c);
      if a[0] == Raised {
        DiedAdds(Accuse(s, c), c, env);
      } else if a[0].text == "" {
        ReadLoopSplits(s, c, a[1..], b, eof, env);
      } else {
        var rep := ReplyIn(a[0].text);
        if rep.None? || !Answers(s, c, rep.value) {
          DiedAdds(Accuse(s, c), c, env);
        } else {
          TakeSettles(s, c, rep.value, env);
          var f := Feed(Take(s, c, rep.value), c, env);
          NoteKeeps(f.0, c);
          ReadLoopSplits(Note(f.0, c), c, a[1..], b, eof, f.1);
        }
      }
    }
  }

  // ---- one line -----------------------------------------------------------------------------

  lemma {:induction false} FeedAppends(s: State, c: Worker, env: Outcomes)
    requires Base(s) && c in s.workers
    ensures s.results <= Feed(s, c, env).0.results
    decreases SlackOf(s), 1
  {
    hide Base, Slack;
    if c !in s.inflight && s.pending != [] {
      HandKeeps(s, c);
      DiedAppends(Hand(s, c), c, if Encodable(s.pending[0].request) then Later(env) else env);
    }
  }

  lemma {:induction false} DiedAppends(s: State, c: Worker, env: Outcomes)
    requires Base(s) && c in s.workers
    ensures s.results <= Died(s, c, env).0.results
    decreases SlackOf(s), if c in s.inflight then 0 else 2
  {
    hide Base, Slack, Feed, Lost;
    var t := Lost(s, c);
    LostKeeps(s, c);
    LostFrame(s, c);
    LostAppends(s, c);
    if t.pending != [] && Next(env) {
      SpawnKeeps(t);
      FeedAppends(Spawn(t), t.nextWorker, Later(env));
    }
  }

  lemma LostAppends(s: State, c: Worker)
    ensures s.results <= Lost(s, c).results
  {
  }

  /** The line is a JSON object with an id and an ok, within the emitter's depth, and its id
      spells the one c has in flight. */
  ghost predicate Replies(s: State, c: Worker, line: string) {
    var rep := JsonReader.Decode(line);
    && rep.Ok? && rep.v.Dict? && Plain(rep.v) && Height(rep.v) <= 512
    && Get(rep.v.pairs, "id").Some? && Get(rep.v.pairs, "ok").Some?
    && c in s.inflight && SpellsId(Get(rep.v.pairs, "id").value, s.inflight[c].id)
  }

  lemma RepliesIs(s: State, c: Worker, line: string)
    ensures Replies(s, c, line) <==> ReplyIn(line).Some? && Answers(s, c, ReplyIn(line).value)
    ensures Replies(s, c, line) ==> ReplyIn(line) == Some(JsonReader.Decode(line).v)
  {
    hide JsonReader.Decode;
    var rep := JsonReader.Decode(line);
    if rep.Ok? {
      JsonEmit.RefusedIffTypedOrDeep(rep.v, 0);
      if rep.v.Dict? { assert JsonEmit.Text(rep.v)[..1] == "{"; }
    }
  }

  /** A line from a live worker is recorded as the reply to its item, and nobody is accused;
      or it is no such reply, and then its worker is accused and buried. */
  lemma LineTakenOrBlamed(s: State, c: Worker, line: string, eof: bool, env: Outcomes)
    requires Base(s) && c in s.workers && line != ""
    ensures var t := ReadLoop(s, c, [Line(line)], eof, env).0;
      if Replies(s, c, line) then
        t.accused == s.accused
        && s.results + [Answer(s.inflight[c].id, JsonReader.Decode(line).v)] <= t.results
      else t.accused == s.accused + [c] && c !in t.workers && s.results <= t.results
  {
    hide Base, Take, Answers, ReplyIn, Feed, Died, Replies, JsonReader.Decode, CheckDone;
    RepliesIs(s, c, line);
    var gets := [Line(line)];
    assert gets[0] == Line(line) && gets[1..] == [];
    if Replies(s, c, line) {
      var v := ReplyIn(line).value;
      AnswersOne(s, c, v);
      TakeNotes(s, c, v);
      TakeAppends(s, c, v);
      var t := Take(s, c, v);
      FeedNotes(t, c, env);
      FeedAppends(t, c, env);
      var f := Feed(t, c, env);
      NoteKeeps(f.0, c);
      EmptyRead(Note(f.0, c), c, eof, f.1);
    } else {
      AccuseKeeps(s, c);
      DiedNotes(Accuse(s, c), c, env);
      DiedAdds(Accuse(s, c), c, env);
      DiedAppends(Accuse(s, c), c, env);
    }
  }

  lemma TakeAppends(s: State, c: Worker, v: Value)
    requires c in s.inflight
    ensures Take(s, c, v).results == s.results + [Answer(s.inflight[c].id, v)]
  {
  }

  lemma EmptyRead(s: State, c: Worker, eof: bool, env: Outcomes)
    requires Base(s)
    ensures var t := ReadLoop(s, c, [], eof, env).0; t.accused == s.accused && s.results <= t.results
  {
    hide Base, Died;
    if c in s.workers && eof {
      DiedNotes(s, c, env);
      DiedAppends(s, c, env);
    }
  }
}
