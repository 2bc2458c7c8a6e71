/** The state of one worker pool and the small moves the director makes on it. */
module PoolState {
  import opened TclValues

  /** A child token; tokens are never reused. */
  type Worker = nat

  datatype Item = Item(id: nat, request: Value)

  datatype Reply =
    | Answer(id: nat, reply: Value)
    | Poison(id: nat, tries: nat)

  /** A request line written to a worker's standard input. */
  datatype Sent = Sent(to: Worker, line: string)

  /** `accused` lists the workers noted for a protocol error, `phantoms` counts the notes of
      replies nobody wrote, made when `gets` finds the channel of a buried worker closed. */
  datatype State = State(
    width: nat,
    maxtries: nat,
    pending: seq<Item>,
    inflight: map<Worker, Item>,
    results: seq<Reply>,
    workers: seq<Worker>,
    nextWorker: Worker,
    tries: map<nat, nat>,
    dead: nat,
    requeued: nat,
    submitted: nat,
    once: bool,
    fatal: bool,
    done: bool,
    sent: seq<Sent>,
    accused: seq<Worker>,
    phantoms: nat)

  function TriesOf(tries: map<nat, nat>, id: nat): nat {
    if id in tries then tries[id] else 0
  }

  // ---- moves ---------------------------------------------------------------------

  /** PoolCheckDone. */
  function CheckDone(s: State): State {
    if s.pending == [] && s.inflight == map[] then s.(done := true) else s
  }

  /** A successful PoolSpawn. */
  function Spawn(s: State): State {
    s.(workers := s.workers + [s.nextWorker], nextWorker := s.nextWorker + 1)
  }

  function Without(ws: seq<Worker>, c: Worker): seq<Worker> {
    if ws == [] then []
    else if ws[0] == c then Without(ws[1..], c)
    else [ws[0]] + Without(ws[1..], c)
  }

  /** The first half of PoolDied. */
  function Bury(s: State, c: Worker): State {
    s.(workers := Without(s.workers, c), dead := s.dead + 1, inflight := s.inflight - {c})
  }

  /** PoolRequeue, given what was in flight before the death. */
  function Requeue(s: State, c: Worker, infl: map<Worker, Item>): State {
    if c !in infl then s
    else
      var item := infl[c];
      var t := TriesOf(s.tries, item.id) + 1;
      var s1 := s.(tries := s.tries[item.id := t]);
      if t < s.maxtries then s1.(pending := [item] + s.pending, requeued := s.requeued + 1)
      else s1.(results := s.results + [Poison(item.id, t)])
  }

  function Lost(s: State, c: Worker): State {
    Requeue(Bury(s, c), c, s.inflight)
  }

  /** The head of the queue goes to an idle worker. */
  function Hand(s: State, c: Worker): State
    requires s.pending != []
  {
    s.(pending := s.pending[1..], inflight := s.inflight[c := s.pending[0]])
  }

  /** A worker's answer to its item. */
  function Take(s: State, c: Worker, reply: Value): State
    requires c in s.inflight
  {
    s.(results := s.results + [Answer(s.inflight[c].id, reply)], inflight := s.inflight - {c})
  }

  function Launched(width: nat, maxtries: nat, k: nat): State {
    State(width, maxtries, [], map[], [], seq(k, i => i), k, map[], 0, 0, 0, false, false, true, [], [], 0)
  }

  // ---- where each id is ------------------------------------------------------------

  ghost function Ids(xs: seq<Item>): multiset<nat> {
    if xs == [] then multiset{} else multiset{xs[0].id} + Ids(xs[1..])
  }

  ghost function FlightIds(m: map<Worker, Item>): multiset<nat>
    decreases |m|
  {
    if m == map[] then multiset{}
    else
      var c :| c in m;
      multiset{m[c].id} + FlightIds(m - {c})
  }

  ghost function ReplyIds(rs: seq<Reply>): multiset<nat> {
    if rs == [] then multiset{} else ReplyIds(rs[..|rs| - 1]) + multiset{rs[|rs| - 1].id}
  }

  /** 0 .. n-1, each once. */
  ghost function Each(n: nat): multiset<nat> {
    if n == 0 then multiset{} else Each(n - 1) + multiset{n - 1}
  }

  lemma {:induction false} EachOnce(n: nat, id: nat)
    ensures Each(n)[id] == if id < n then 1 else 0
  {
    if n > 0 { EachOnce(n - 1, id); }
  }

  lemma FlightPick(m: map<Worker, Item>) returns (d: Worker)
    requires m != map[]
    ensures d in m && FlightIds(m) == multiset{m[d].id} + FlightIds(m - {d})
  {
    d :| d in m && FlightIds(m) == multiset{m[d].id} + FlightIds(m - {d});
  }

  /** Taking one worker out of the flight map takes its id out. */
  lemma {:induction false} FlightWithout(m: map<Worker, Item>, c: Worker)
    requires c in m
    ensures FlightIds(m) == multiset{m[c].id} + FlightIds(m - {c})
    decreases |m|
  {
    hide FlightIds;
    var d := FlightPick(m);
    if c != d {
      FlightWithout(m - {d}, c);
      FlightWithout(m - {c}, d);
      assert m - {d} - {c} == m - {c} - {d};
    }
  }

  lemma FlightWith(m: map<Worker, Item>, c: Worker, item: Item)
    requires c !in m
    ensures FlightIds(m[c := item]) == FlightIds(m) + multiset{item.id}
  {
    FlightWithout(m[c := item], c);
    assert m[c := item] - {c} == m;
  }

  lemma {:induction false} IdsInside(xs: seq<Item>, i: nat)
    requires i < |xs|
    ensures xs[i].id in Ids(xs)
  {
    if i > 0 { IdsInside(xs[1..], i - 1); }
  }

  lemma FlightInside(m: map<Worker, Item>, c: Worker)
    requires c in m
    ensures m[c].id in FlightIds(m)
  {
    FlightWithout(m, c);
  }

  lemma {:induction false} ReplyIdsCount(rs: seq<Reply>, i: nat)
    requires i < |rs|
    ensures rs[i].id in ReplyIds(rs)
  {
    if i < |rs| - 1 { ReplyIdsCount(rs[..|rs| - 1], i); }
  }

  // ---- counting tries ----------------------------------------------------------------

  ghost function SumTries(tries: map<nat, nat>, n: nat): nat {
    if n == 0 then 0 else SumTries(tries, n - 1) + TriesOf(tries, n - 1)
  }

  /** Tries the ids below n still have left. */
  ghost function Slack(tries: map<nat, nat>, max: nat, n: nat): nat {
    if n == 0 then 0
    else
      var t := TriesOf(tries, n - 1);
      Slack(tries, max, n - 1) + if t < max then max - t else 0
  }

  lemma {:induction false} SameTries(t1: map<nat, nat>, t2: map<nat, nat>, max: nat, n: nat)
    requires forall id :: 0 <= id < n ==> TriesOf(t1, id) == TriesOf(t2, id)
    ensures SumTries(t1, n) == SumTries(t2, n) && Slack(t1, max, n) == Slack(t2, max, n)
  {
    if n > 0 { SameTries(t1, t2, max, n - 1); }
  }

  lemma {:induction false} OneMoreTry(tries: map<nat, nat>, id: nat, max: nat, n: nat)
    requires id < n && TriesOf(tries, id) < max
    ensures var t2 := tries[id := TriesOf(tries, id) + 1];
      SumTries(t2, n) == SumTries(tries, n) + 1 && Slack(t2, max, n) == Slack(tries, max, n) - 1
  {
    var t2 := tries[id := TriesOf(tries, id) + 1];
    if id == n - 1 {
      SameTries(tries, t2, max, n - 1);
    } else {
      OneMoreTry(tries, id, max, n - 1);
    }
  }

  lemma {:induction false} SumBound(tries: map<nat, nat>, max: nat, n: nat)
    requires forall id :: id in tries ==> tries[id] <= max
    ensures SumTries(tries, n) <= n * max
  {
    if n > 0 {
      SumBound(tries, max, n - 1);
      assert TriesOf(tries, n - 1) <= max;
      Times(n, max);
    } else {
      assert n * max == 0;
    }
  }

  lemma Times(n: nat, k: nat)
    requires n > 0
    ensures n * k == (n - 1) * k + k
  {
  }

  lemma {:induction false} NoTries(n: nat)
    ensures SumTries(map[], n) == 0
  {
    if n > 0 { NoTries(n - 1); }
  }

  ghost function Poisoned(rs: seq<Reply>): nat {
    if rs == [] then 0 else Poisoned(rs[..|rs| - 1]) + if rs[|rs| - 1].Poison? then 1 else 0
  }

  // ---- what every state of a pool satisfies ---------------------------------------------

  predicate Distinct(ws: seq<Worker>) {
    forall i, j :: 0 <= i < j < |ws| ==> ws[i] != ws[j]
  }

  ghost predicate Crew(ws: seq<Worker>, infl: map<Worker, Item>, next: Worker, width: nat) {
    && Distinct(ws)
    && (forall c :: c in ws ==> c < next)
    && (forall c :: c in infl ==> c in ws)
    && |ws| <= width
  }

  /** Each submitted id is in exactly one of pending, inflight and results, once. */
  ghost predicate Conserved(pending: seq<Item>, infl: map<Worker, Item>, results: seq<Reply>, n: nat) {
    Ids(pending) + FlightIds(infl) + ReplyIds(results) == Each(n)
  }

  /** Tries count failures: an unresolved id has some left, and a result is poison
      exactly when its id has none. */
  ghost predicate Bounded(tries: map<nat, nat>, max: nat, pending: seq<Item>, infl: map<Worker, Item>,
                          results: seq<Reply>, n: nat)
  {
    && (forall id :: id in tries ==> id < n && tries[id] <= max)
    && (forall i :: 0 <= i < |pending| ==> TriesOf(tries, pending[i].id) < max)
    && (forall c :: c in infl ==> TriesOf(tries, infl[c].id) < max)
    && (forall k :: 0 <= k < |results| ==> (results[k].Poison? <==> TriesOf(tries, results[k].id) == max))
    && (forall k :: 0 <= k < |results| ==> (results[k].Poison? ==> results[k].tries == max))
  }

  /** Every try beyond the first of an id was a requeue, and the last a poisoning. */
  ghost predicate Tallied(tries: map<nat, nat>, n: nat, requeued: nat, results: seq<Reply>) {
    SumTries(tries, n) == requeued + Poisoned(results)
  }

  ghost predicate Base(s: State) {
    && s.width >= 1 && s.maxtries >= 1
    && Crew(s.workers, s.inflight, s.nextWorker, s.width)
    && |s.workers| + s.dead == s.nextWorker
    && Conserved(s.pending, s.inflight, s.results, s.submitted)
    && Bounded(s.tries, s.maxtries, s.pending, s.inflight, s.results, s.submitted)
    && Tallied(s.tries, s.submitted, s.requeued, s.results)
    && (s.done && !s.fatal ==> s.pending == [] && s.inflight == map[])
    && (!s.once ==> s.submitted == 0 && s.done)
    && (s.fatal ==> s.once && s.done)
  }

  lemma {:induction false} WithoutOne(ws: seq<Worker>, c: Worker)
    requires Distinct(ws)
    ensures Distinct(Without(ws, c))
    ensures forall d :: d in Without(ws, c) <==> d in ws && d != c
    ensures |Without(ws, c)| == if c in ws then |ws| - 1 else |ws|
  {
    if ws != [] {
      var rest, r := ws[1..], Without(ws[1..], c);
      assert forall i :: 0 <= i < |rest| ==> rest[i] == ws[i + 1];
      assert ws == [ws[0]] + rest;
      assert ws[0] !in rest;
      WithoutOne(rest, c);
      if ws[0] != c {
        var t := [ws[0]] + r;
        forall i, j | 0 <= i < j < |t| ensures t[i] != t[j] {
          assert t[j] == r[j - 1] && r[j - 1] in r;
          if i > 0 { assert t[i] == r[i - 1]; }
        }
      }
    }
  }

  // ---- each move keeps it ------------------------------------------------------------------

  lemma CheckDoneKeeps(s: State)
    requires Base(s)
    ensures Base(CheckDone(s))
  {
    hide Crew, Conserved, Bounded, Tallied;
  }

  lemma FatalKeeps(s: State)
    requires Base(s) && s.once
    ensures Base(s.(fatal := true, done := true))
  {
    hide Crew, Conserved, Bounded, Tallied;
  }

  lemma SpawnKeeps(s: State)
    requires Base(s) && |s.workers| < s.width
    ensures Base(Spawn(s))
  {
    hide Conserved, Bounded, Tallied;
    var ws := Spawn(s).workers;
    forall i, j | 0 <= i < j < |ws| ensures ws[i] != ws[j] {
      assert ws[i] == s.workers[i] && ws[i] in s.workers;
    }
  }

  lemma {:induction false} HandKeeps(s: State, c: Worker)
    requires Base(s) && s.pending != [] && c in s.workers && c !in s.inflight
    ensures Base(Hand(s, c))
  {
    hide Conserved, Tallied;
    HandConserves(s.pending, s.inflight, s.results, s.submitted, c);
  }

  lemma HandConserves(pending: seq<Item>, infl: map<Worker, Item>, results: seq<Reply>, n: nat, c: Worker)
    requires Conserved(pending, infl, results, n) && pending != [] && c !in infl
    ensures Conserved(pending[1..], infl[c := pending[0]], results, n)
  {
    hide FlightIds, ReplyIds, Each;
    FlightWith(infl, c, pending[0]);
  }

  /** The id of an item in flight is nowhere else. */
  lemma FlownOnce(pending: seq<Item>, infl: map<Worker, Item>, results: seq<Reply>, n: nat, c: Worker)
    requires Conserved(pending, infl, results, n) && c in infl
    ensures infl[c].id < n
    ensures forall i :: 0 <= i < |pending| ==> pending[i].id != infl[c].id
    ensures forall d :: d in infl && d != c ==> infl[d].id != infl[c].id
    ensures forall k :: 0 <= k < |results| ==> results[k].id != infl[c].id
  {
    hide FlightIds, ReplyIds, Each, Ids;
    var id := infl[c].id;
    EachOnce(n, id);
    FlightWithout(infl, c);
    forall i | 0 <= i < |pending| ensures pending[i].id != id { IdsInside(pending, i); }
    forall k | 0 <= k < |results| ensures results[k].id != id { ReplyIdsCount(results, k); }
    forall d | d in infl && d != c ensures infl[d].id != id { FlightInside(infl - {c}, d); }
  }

  lemma TakeKeeps(s: State, c: Worker, reply: Value)
    requires Base(s) && c in s.inflight
    ensures Base(Take(s, c, reply))
  {
    hide Conserved, Tallied;
    TakeConserves(s.pending, s.inflight, s.results, s.submitted, c, Answer(s.inflight[c].id, reply));
    AnswerTallies(s.tries, s.submitted, s.requeued, s.results, Answer(s.inflight[c].id, reply));
  }

  lemma TakeConserves(pending: seq<Item>, infl: map<Worker, Item>, results: seq<Reply>, n: nat, c: Worker, r: Reply)
    requires Conserved(pending, infl, results, n) && c in infl && r.id == infl[c].id
    ensures Conserved(pending, infl - {c}, results + [r], n)
  {
    hide FlightIds, Each, Ids;
    FlightWithout(infl, c);
    assert (results + [r])[..|results|] == results;
  }

  lemma AnswerTallies(tries: map<nat, nat>, n: nat, requeued: nat, results: seq<Reply>, r: Reply)
    requires Tallied(tries, n, requeued, results) && r.Answer?
    ensures Tallied(tries, n, requeued, results + [r])
  {
    hide SumTries;
    assert (results + [r])[..|results|] == results;
  }

  lemma LostKeeps(s: State, c: Worker)
    requires Base(s) && c in s.workers
    ensures Base(Lost(s, c))
    ensures |Lost(s, c).workers| == |s.workers| - 1
    ensures var was, now := Slack(s.tries, s.maxtries, s.submitted), Slack(Lost(s, c).tries, s.maxtries, s.submitted);
      now == if c in s.inflight then was - 1 else was
    ensures SumTries(Lost(s, c).tries, s.submitted)
         == SumTries(s.tries, s.submitted) + if c in s.inflight then 1 else 0
  {
    hide Conserved, Bounded, Tallied, Slack, SumTries;
    WithoutOne(s.workers, c);
    if c in s.inflight {
      LostConserved(s, c);
      LostBounded(s, c);
      LostTallied(s, c);
    } else {
      assert s.inflight - {c} == s.inflight;
    }
  }

  lemma LostConserved(s: State, c: Worker)
    requires Base(s) && c in s.inflight
    ensures var t := Lost(s, c); Conserved(t.pending, t.inflight, t.results, t.submitted)
  {
    hide Conserved, Crew, Bounded, Tallied;
    BackConserves(s.pending, s.inflight, s.results, s.submitted, c);
    var id := s.inflight[c].id;
    TakeConserves(s.pending, s.inflight, s.results, s.submitted, c, Poison(id, TriesOf(s.tries, id) + 1));
  }

  lemma BackConserves(pending: seq<Item>, infl: map<Worker, Item>, results: seq<Reply>, n: nat, c: Worker)
    requires Conserved(pending, infl, results, n) && c in infl
    ensures Conserved([infl[c]] + pending, infl - {c}, results, n)
  {
    hide FlightIds, ReplyIds, Each;
    FlightWithout(infl, c);
    assert ([infl[c]] + pending)[1..] == pending;
  }

  lemma LostBounded(s: State, c: Worker)
    requires Base(s) && c in s.inflight
    ensures var t := Lost(s, c); Bounded(t.tries, t.maxtries, t.pending, t.inflight, t.results, t.submitted)
  {
    hide Conserved, Crew, Tallied, Bounded;
    FlownOnce(s.pending, s.inflight, s.results, s.submitted, c);
    TryBounded(s.tries, s.maxtries, s.pending, s.inflight, s.results, s.submitted, c);
  }

  lemma TryBounded(tries: map<nat, nat>, max: nat, pending: seq<Item>, infl: map<Worker, Item>,
                   results: seq<Reply>, n: nat, c: Worker)
    requires Bounded(tries, max, pending, infl, results, n) && c in infl && infl[c].id < n
    requires forall i :: 0 <= i < |pending| ==> pending[i].id != infl[c].id
    requires forall d :: d in infl && d != c ==> infl[d].id != infl[c].id
    requires forall k :: 0 <= k < |results| ==> results[k].id != infl[c].id
    ensures var id := infl[c].id;
      var t := TriesOf(tries, id) + 1;
      && (t < max ==> Bounded(tries[id := t], max, [infl[c]] + pending, infl - {c}, results, n))
      && (t >= max ==> Bounded(tries[id := t], max, pending, infl - {c}, results + [Poison(id, t)], n))
  {
    var id := infl[c].id;
    var t2 := tries[id := TriesOf(tries, id) + 1];
    assert forall x :: x != id ==> TriesOf(t2, x) == TriesOf(tries, x);
  }

  lemma LostTallied(s: State, c: Worker)
    requires Base(s) && c in s.inflight
    ensures var t := Lost(s, c); Tallied(t.tries, t.submitted, t.requeued, t.results)
    ensures Slack(Lost(s, c).tries, s.maxtries, s.submitted) == Slack(s.tries, s.maxtries, s.submitted) - 1
    ensures SumTries(Lost(s, c).tries, s.submitted) == SumTries(s.tries, s.submitted) + 1
  {
    hide SumTries, Slack, Crew, Conserved;
    var t := Lost(s, c);
    FlownOnce(s.pending, s.inflight, s.results, s.submitted, c);
    OneMoreTry(s.tries, s.inflight[c].id, s.maxtries, s.submitted);
    if t.results != s.results { assert t.results[..|t.results| - 1] == s.results; }
  }

  lemma LaunchedIsBase(width: nat, maxtries: nat, k: nat)
    requires width >= 1 && maxtries >= 1 && k <= width
    ensures Base(Launched(width, maxtries, k))
  {
  }
}
