/** `pool wait`, and what holds of a pool after every run of its handlers. */
module PoolMachine {
  import opened TclValues
  import opened PoolState
  import opened PoolDirector
  import opened PoolProgress

  // ---- pool wait --------------------------------------------------------------------

  /** vwait: handlers run until one says done, or the timer fires after the last of them. */
  ghost function Await(s: State, arrivals: seq<Event>): (t: State)
    requires Base(s)
    ensures Base(t)
    decreases |arrivals|
  {
    hide Base, Step;
    if s.done || arrivals == [] then s else Await(Step(s, arrivals[0]), arrivals[1..])
  }

  /** The last reply under each id. */
  function ById(rs: seq<Reply>): map<nat, Reply> {
    if rs == [] then map[] else ById(rs[..|rs| - 1])[rs[|rs| - 1].id := rs[|rs| - 1]]
  }

  function InOrder(byid: map<nat, Reply>, n: nat): seq<Reply> {
    if n == 0 then [] else InOrder(byid, n - 1) + if n - 1 in byid then [byid[n - 1]] else []
  }

  datatype Waited = Replies(rs: seq<Reply>) | LaunchFailed | TimedOut(inflight: nat)

  /** PoolWait. */
  ghost function Wait(s: State, arrivals: seq<Event>): Waited
    requires Base(s)
  {
    if s.fatal then LaunchFailed
    else
      var t := Await(s, arrivals);
      if !t.done then TimedOut(|t.inflight|)
      else if t.fatal then LaunchFailed
      else Replies(InOrder(ById(t.results), t.submitted))
  }

  lemma FatalEnds(s: State)
    requires Base(s)
    ensures s.fatal ==> s.done
  {
  }

  lemma {:induction false} AwaitRuns(s: State, es: seq<Event>)
    requires Base(s)
    ensures exists k :: 0 <= k <= |es| && StopsAt(s, es, k) && Await(s, es) == Run(s, es[..k])
    decreases |es|
  {
    hide Base, Step;
    if s.done || es == [] {
      assert es[..0] == [];
      assert StopsAt(s, es, 0);
    } else {
      AwaitRuns(Step(s, es[0]), es[1..]);
      var k :| 0 <= k <= |es[1..]| && StopsAt(Step(s, es[0]), es[1..], k)
        && Await(Step(s, es[0]), es[1..]) == Run(Step(s, es[0]), es[1..][..k]);
      forall j | 0 <= j <= k ensures Run(s, es[..j + 1]) == Run(Step(s, es[0]), es[1..][..j]) {
        assert es[..j + 1][0] == es[0] && es[..j + 1][1..] == es[1..][..j];
      }
      forall j | 0 <= j < k + 1 ensures !Run(s, es[..j]).done {
        if j == 0 {
          assert es[..0] == [];
        } else {
          assert Run(s, es[..j - 1 + 1]) == Run(Step(s, es[0]), es[1..][..j - 1]);
        }
      }
      assert Run(s, es[..k + 1]) == Run(Step(s, es[0]), es[1..][..k]);
      assert StopsAt(s, es, k + 1);
    }
  }

  /** The handlers run until the first of these arrivals after which the pool is done. */
  ghost predicate StopsAt(s: State, es: seq<Event>, k: nat)
    requires Base(s) && k <= |es|
  {
    && (forall j :: 0 <= j < k ==> !Run(s, es[..j]).done)
    && (k < |es| ==> Run(s, es[..k]).done)
  }

  /** How a wait ends, after any run: with the launch failure exactly when one has failed by
      the time the pool is done; with a timeout exactly when the timer fires first. */
  lemma {:induction false} WaitEnds(width: nat, maxtries: nat, es: seq<Event>, arrivals: seq<Event>)
    requires width >= 1 && maxtries >= 1
    ensures Base(Launched(width, maxtries, width))
    ensures var s := Run(Launched(width, maxtries, width), es);
      exists k :: 0 <= k <= |arrivals| && StopsAt(s, arrivals, k)
        && EndsAs(Wait(s, arrivals), Run(s, arrivals[..k]))
        && (Wait(s, arrivals).TimedOut? <==> forall j :: 0 <= j <= |arrivals| ==> !Run(s, arrivals[..j]).done)
  {
    hide Base, Run, InOrder, ById;
    LaunchedIsBase(width, maxtries, width);
    var s := Run(Launched(width, maxtries, width), es);
    AwaitRuns(s, arrivals);
    var k :| 0 <= k <= |arrivals| && StopsAt(s, arrivals, k) && Await(s, arrivals) == Run(s, arrivals[..k]);
    FatalEnds(s);
    FatalEnds(Run(s, arrivals[..k]));
  }

  predicate EndsAs(w: Waited, t: State) {
    && (w.LaunchFailed? <==> t.fatal)
    && (w.TimedOut? <==> !t.done)
    && (w.TimedOut? ==> w.inflight == |t.inflight|)
  }

  lemma {:induction false} ByIdKeys(rs: seq<Reply>)
    ensures forall id :: id in ById(rs) ==> ById(rs)[id].id == id && ById(rs)[id] in rs
    ensures forall i :: 0 <= i < |rs| ==> rs[i].id in ById(rs)
  {
    if rs != [] { ByIdKeys(rs[..|rs| - 1]); }
  }

  lemma {:induction false} InOrderFull(byid: map<nat, Reply>, n: nat)
    requires forall id :: 0 <= id < n ==> id in byid
    ensures |InOrder(byid, n)| == n && forall k :: 0 <= k < n ==> InOrder(byid, n)[k] == byid[k]
  {
    if n > 0 { InOrderFull(byid, n - 1); }
  }

  lemma {:induction false} ReplyIdHeld(rs: seq<Reply>, id: nat)
    requires id in ReplyIds(rs)
    ensures exists i :: 0 <= i < |rs| && rs[i].id == id
  {
    if rs[|rs| - 1].id != id {
      ReplyIdHeld(rs[..|rs| - 1], id);
      var i :| 0 <= i < |rs| - 1 && rs[..|rs| - 1][i].id == id;
      assert rs[i].id == id;
    }
  }

  lemma AllReplied(results: seq<Reply>, n: nat)
    requires Conserved([], map[], results, n)
    ensures forall id :: 0 <= id < n ==> id in ById(results)
  {
    ByIdKeys(results);
    forall id: nat | id < n ensures id in ById(results) {
      EachOnce(n, id);
      ReplyIdHeld(results, id);
    }
  }

  /** A wait that returns gives one reply for each submitted item, in submission order,
      and the k-th is poison exactly when item k killed as many workers as it may. */
  lemma {:induction false} WaitGivesEveryReplyInOrder(s: State, arrivals: seq<Event>)
    requires Base(s) && Wait(s, arrivals).Replies?
    ensures var rs := Wait(s, arrivals).rs;
      var t := Await(s, arrivals);
      && |rs| == t.submitted
      && forall k :: 0 <= k < |rs| ==>
           && rs[k].id == k && rs[k] in t.results
           && (rs[k].Poison? <==> TriesOf(t.tries, k) == t.maxtries)
           && (rs[k].Poison? ==> rs[k].tries == t.maxtries)
  {
    hide Await;
    var t := Await(s, arrivals);
    DoneIsEmpty(t);
    AllReplied(t.results, t.submitted);
    ByIdKeys(t.results);
    InOrderFull(ById(t.results), t.submitted);
    var rs := Wait(s, arrivals).rs;
    forall k | 0 <= k < |rs|
      ensures rs[k].id == k && rs[k] in t.results
      ensures rs[k].Poison? <==> TriesOf(t.tries, k) == t.maxtries
      ensures rs[k].Poison? ==> rs[k].tries == t.maxtries
    {
      assert rs[k] == ById(t.results)[k];
      var i :| 0 <= i < |t.results| && t.results[i] == rs[k];
      PoisonedAtMax(t, i);
    }
  }

  lemma DoneIsEmpty(s: State)
    requires Base(s) && s.done && !s.fatal
    ensures s.pending == [] && s.inflight == map[] && Conserved([], map[], s.results, s.submitted)
  {
    hide Conserved, Crew, Bounded, Tallied;
  }

  lemma PoisonedAtMax(s: State, i: nat)
    requires Base(s) && i < |s.results|
    ensures s.results[i].Poison? <==> TriesOf(s.tries, s.results[i].id) == s.maxtries
    ensures s.results[i].Poison? ==> s.results[i].tries == s.maxtries
  {
    hide Conserved, Crew, Tallied;
  }

  // ---- every run ----------------------------------------------------------------------

  /** A pool, whatever its workers, its pipes and the spawns do. */
  lemma {:induction false} PoolSafety(width: nat, maxtries: nat, es: seq<Event>)
    requires width >= 1 && maxtries >= 1
    ensures Base(Launched(width, maxtries, width))
    ensures var s := Run(Launched(width, maxtries, width), es);
      && (forall id: nat :: Ids(s.pending)[id] + FlightIds(s.inflight)[id] + ReplyIds(s.results)[id]
                            == if id < s.submitted then 1 else 0)
      && Distinct(s.workers) && |s.workers| <= s.width && |s.workers| + s.dead == s.nextWorker
      && (forall c :: c in s.inflight ==> c in s.workers)
      && (forall i :: 0 <= i < |s.results| ==>
            (s.results[i].Poison? <==> TriesOf(s.tries, s.results[i].id) == s.maxtries))
      && SumTries(s.tries, s.submitted) == s.requeued + Poisoned(s.results)
  {
    hide Run;
    LaunchedIsBase(width, maxtries, width);
    var s := Run(Launched(width, maxtries, width), es);
    OncePlaced(s);
    forall i | 0 <= i < |s.results|
      ensures s.results[i].Poison? <==> TriesOf(s.tries, s.results[i].id) == s.maxtries
    {
      PoisonedAtMax(s, i);
    }
    CrewAndTally(s);
  }

  lemma OncePlaced(s: State)
    requires Base(s)
    ensures forall id: nat :: Ids(s.pending)[id] + FlightIds(s.inflight)[id] + ReplyIds(s.results)[id]
                              == if id < s.submitted then 1 else 0
  {
    hide Crew, Bounded, Tallied, Ids, FlightIds, ReplyIds;
    forall id: nat
      ensures Ids(s.pending)[id] + FlightIds(s.inflight)[id] + ReplyIds(s.results)[id]
              == if id < s.submitted then 1 else 0
    {
      EachOnce(s.submitted, id);
      assert (Ids(s.pending) + FlightIds(s.inflight) + ReplyIds(s.results))[id] == Each(s.submitted)[id];
    }
  }

  lemma CrewAndTally(s: State)
    requires Base(s)
    ensures Distinct(s.workers) && |s.workers| <= s.width
    ensures forall c :: c in s.inflight ==> c in s.workers
    ensures SumTries(s.tries, s.submitted) == s.requeued + Poisoned(s.results)
  {
    hide Conserved, Bounded;
  }

  /** As long as no launch has failed: the queue is the tail of the batch in order, no worker
      idles beside it, and deaths stay within one per worker and maxtries per item. */
  lemma {:induction false} PoolOrder(width: nat, maxtries: nat, es: seq<Event>)
    requires width >= 1 && maxtries >= 1
    ensures Base(Launched(width, maxtries, width))
    ensures var s := Run(Launched(width, maxtries, width), es);
      !s.fatal ==>
        && Tail(s.pending, s.submitted)
        && (s.pending != [] ==> forall c :: c in s.workers ==> c in s.inflight)
        && s.dead <= s.width + s.submitted * s.maxtries
  {
    hide Run, Base, Tail;
    LaunchedIsServed(width, maxtries);
    RunOrderly(Launched(width, maxtries, width), es);
    var s := Run(Launched(width, maxtries, width), es);
    TriesBounded(s);
  }

  lemma TriesBounded(s: State)
    requires Base(s)
    ensures SumTries(s.tries, s.submitted) <= s.submitted * s.maxtries
  {
    hide Conserved, Crew, Tallied;
    SumBound(s.tries, s.maxtries, s.submitted);
  }

  /** If a worker was alive at each accepted submit, an unfinished batch always has
      an item in flight. */
  lemma {:induction false} PoolNeverStalls(width: nat, maxtries: nat, es: seq<Event>)
    requires width >= 1 && maxtries >= 1
    ensures Base(Launched(width, maxtries, width))
    ensures var s := Run(Launched(width, maxtries, width), es);
      AliveAtSubmit(Launched(width, maxtries, width), es) ==> s.done || s.inflight != map[]
  {
    hide Run, Base, AliveAtSubmit;
    LaunchedIsServed(width, maxtries);
    RunOrderly(Launched(width, maxtries, width), es);
    var s := Run(Launched(width, maxtries, width), es);
    if Served(s) { ServedMoves(s); }
  }

  lemma ServedMoves(s: State)
    requires Base(s) && Served(s)
    ensures s.done || s.inflight != map[]
  {
    if !s.once {
      NothingYetDone(s);
    } else if !s.fatal && s.pending != [] {
      assert s.workers[0] in s.inflight;
    }
  }

  lemma NothingYetDone(s: State)
    requires Base(s) && !s.once
    ensures s.done
  {
  }

  lemma {:induction false} SubmitMoves(s: State, items: seq<Value>, env: Outcomes)
    requires Base(s) && Orderly(s, {}) && SubmitRefusal(s, items).None?
    ensures var t := Submit(s, items, env).0;
      t.done || t.inflight != map[] <==> s.workers != []
  {
    hide Submit, Orderly, SubmitRefusal;
    SubmitProgress(s, items, env);
    var t := Submit(s, items, env).0;
    if s.workers != [] { ServedMoves(t); }
  }

  /** The exact condition, after any run, for an accepted batch to get moving. Items
      submitted to a pool whose workers have all died stay in the queue, and `pool wait` can
      only time out. */
  lemma {:induction false} BatchMovesIffSomeoneIsAlive(width: nat, maxtries: nat, es: seq<Event>, items: seq<Value>,
                                                       env: Outcomes)
    requires width >= 1 && maxtries >= 1
    ensures Base(Launched(width, maxtries, width))
    ensures var s := Run(Launched(width, maxtries, width), es);
      SubmitRefusal(s, items).None? ==>
        var t := Submit(s, items, env).0;
        t.done || t.inflight != map[] <==> s.workers != []
  {
    hide Run, Base, Submit, SubmitRefusal, Orderly, Manned;
    LaunchedIsServed(width, maxtries);
    RunOrderly(Launched(width, maxtries, width), es);
    var s := Run(Launched(width, maxtries, width), es);
    if SubmitRefusal(s, items).None? { SubmitMoves(s, items, env); }
  }

  /** An idle worker whose output ends is gone, and with nothing queued nobody replaces it. */
  lemma IdleLeaves(s: State, c: Worker)
    requires Base(s) && c in s.workers && c !in s.inflight && s.pending == []
    ensures var t := Readable(s, c, true, [], true, []).0;
      t.workers == Without(s.workers, c) && t.once == s.once
  {
    hide Base;
    LostKeeps(s, c);
    LostFrame(s, c);
  }

  lemma OneEvent(s: State, e: Event)
    requires Base(s)
    ensures Run(s, [e]) == Step(s, e)
  {
    hide Base, Step;
    assert [e][1..] == [];
  }

  lemma OneWorker(maxtries: nat)
    requires maxtries >= 1
    ensures var s := Launched(1, maxtries, 1);
      Base(s) && s.workers == [0] && s.inflight == map[] && s.pending == [] && !s.once && s.phantoms == 0
    ensures Without([0], 0) == [] && Distinct([0])
  {
    LaunchedIsBase(1, maxtries, 1);
    assert [0][1..] == [];
  }

  /** The input that shows it: the one worker's output ends before anything is submitted. */
  lemma NobodyLeft()
    ensures Base(Launched(1, 1, 1))
    ensures var s := Run(Launched(1, 1, 1), [Ready(0, true, [], true, [])]);
      s.workers == [] && SubmitRefusal(s, []).None?
  {
    hide Base, Readable, Launched, Without, Run;
    OneWorker(1);
    IdleLeaves(Launched(1, 1, 1), 0);
    OneEvent(Launched(1, 1, 1), Ready(0, true, [], true, []));
  }
}
