/** Whom the director notes for a protocol error: only workers that went inside a reply, or
    that were handed an item that does not survive the wire. */
module PoolBlame {
  import opened TclValues
  import opened PoolState
  import opened PoolDirector
  import opened PoolProgress
  import opened PoolMachine
  import opened WorkerServe
  import opened PoolExchange
  import opened PoolSystem
  import JsonEmit

  /** Item k is an unclean one, and c has been sent it. */
  ghost predicate SentUnclean(w: Wire, sent: seq<Sent>, c: Worker, k: nat) {
    && k < |w.items| && !CleanItem(w.ops, w.items[k], k)
    && Sent(c, JsonEmit.Text(Stamped(w.items[k], k))) in sent
  }

  ghost predicate Deserves(w: Wire, sent: seq<Sent>, c: Worker) {
    c in w.torn || exists k: nat :: SentUnclean(w, sent, c, k)
  }

  ghost predicate Deserved(accused: seq<Worker>, w: Wire, sent: seq<Sent>) {
    forall i :: 0 <= i < |accused| ==> Deserves(w, sent, accused[i])
  }

  ghost predicate Just(s: State, w: Wire) {
    Deserved(s.accused, w, s.sent) && (!s.once ==> w.items == [])
  }

  // ---- what has been sent stays sent -----------------------------------------------------

  lemma {:induction false} FeedSends(s: State, c: Worker, env: Outcomes)
    requires Base(s) && c in s.workers
    ensures s.sent <= Feed(s, c, env).0.sent
    decreases SlackOf(s), 1
  {
    hide Base, Slack;
    if c !in s.inflight && s.pending != [] {
      HandKeeps(s, c);
      DiedSends(Hand(s, c), c, if Encodable(s.pending[0].request) then Later(env) else env);
    }
  }

  lemma {:induction false} DiedSends(s: State, c: Worker, env: Outcomes)
    requires Base(s)
    ensures s.sent <= Died(s, c, env).0.sent
    decreases SlackOf(s), if c in s.inflight then 0 else 2
  {
    hide Base, Slack, Lost, Feed;
    if c in s.workers {
      var t := Lost(s, c);
      LostKeeps(s, c);
      LostFrame(s, c);
      LostSent(s, c);
      if t.pending != [] && Next(env) {
        SpawnKeeps(t);
        FeedSends(Spawn(t), t.nextWorker, Later(env));
      }
    }
  }

  lemma MoreSent(w: Wire, before: seq<Sent>, after: seq<Sent>, c: Worker)
    requires Deserves(w, before, c) && before <= after
    ensures Deserves(w, after, c)
  {
    hide CleanItem;
    if c !in w.torn {
      var k: nat :| SentUnclean(w, before, c, k);
      var x := Sent(c, JsonEmit.Text(Stamped(w.items[k], k)));
      var i :| 0 <= i < |before| && before[i] == x;
      assert after[i] == x;
      assert SentUnclean(w, after, c, k);
    }
  }

  lemma StillDeserved(accused: seq<Worker>, w: Wire, before: seq<Sent>, after: seq<Sent>)
    requires Deserved(accused, w, before) && before <= after
    ensures Deserved(accused, w, after)
  {
    hide Deserves;
    forall i | 0 <= i < |accused| ensures Deserves(w, after, accused[i]) {
      MoreSent(w, before, after, accused[i]);
    }
  }

  lemma FeedJust(s: State, w: Wire, c: Worker, env: Outcomes)
    requires Base(s) && c in s.workers && Just(s, w)
    ensures Just(Feed(s, c, env).0, w)
  {
    hide Base, Feed, Deserved;
    FeedNotes(s, c, env);
    FeedSends(s, c, env);
    StillDeserved(s.accused, w, s.sent, Feed(s, c, env).0.sent);
  }

  lemma DiedJust(s: State, w: Wire, c: Worker, env: Outcomes)
    requires Base(s) && c in s.workers && Just(s, w)
    ensures Just(Died(s, c, env).0, w)
  {
    hide Base, Died, Deserved;
    DiedNotes(s, c, env);
    DiedSends(s, c, env);
    StillDeserved(s.accused, w, s.sent, Died(s, c, env).0.sent);
  }

  lemma {:induction false} FeedAllJust(s: State, w: Wire, cs: seq<Worker>, env: Outcomes)
    requires Base(s) && Distinct(cs) && forall i :: 0 <= i < |cs| ==> cs[i] in s.workers
    requires Just(s, w)
    ensures Just(FeedAll(s, cs, env).0, w)
    decreases |cs|
  {
    hide Base, Feed, Just;
    if cs != [] {
      assert forall i :: 0 <= i < |cs[1..]| ==> cs[1..][i] == cs[i + 1];
      FeedSpares(s, cs[0], env);
      FeedJust(s, w, cs[0], env);
      FeedAllJust(Feed(s, cs[0], env).0, w, cs[1..], Feed(s, cs[0], env).1);
    }
  }

  // ---- who is noted ------------------------------------------------------------------------

  lemma {:induction false} LinesSent(sent: seq<Sent>, c: Worker, line: string)
    requires line in LinesTo(sent, c)
    ensures Sent(c, line) in sent
  {
    if line in LinesTo(sent[..|sent| - 1], c) { LinesSent(sent[..|sent| - 1], c, line); }
  }

  /** A refused line is part of an answer, or the answer to an unclean item. */
  lemma RefusedDeserves(s: State, w: Wire, c: Worker, ls: seq<string>)
    requires Base(s) && Sound(s, w, {c}) && c in s.workers && ls != []
    requires Flow(w.ops, s.inflight, LinesTo(s.sent, c), ServedBy(w, c), ls + UnreadOf(w, c), c in w.torn, c)
    requires c in s.inflight && !Welcome(w, s.inflight[c], ls[0])
    ensures Deserves(w, s.sent, c)
  {
    hide Base, Linked, Faithful, AllFit, LinesTo, AnswerTo, Flow, Own, Clean, Torn;
    var item := OneLine(s, w, c, ls);
    if c !in w.torn {
      OwnItem(s, w, c);
      var lines := LinesTo(s.sent, c);
      assert lines[|lines| - 1] in lines;
      LinesSent(s.sent, c, JsonEmit.Text(item.request));
      UncleanSent(w, s.sent, c, item);
    }
  }

  lemma UncleanSent(w: Wire, sent: seq<Sent>, c: Worker, item: Item)
    requires Own(w.items, item) && !(item.request.Dict? && Clean(w.ops, item.request))
    requires Sent(c, JsonEmit.Text(item.request)) in sent
    ensures SentUnclean(w, sent, c, item.id)
  {
    hide Clean, Stamped, JsonEmit.Text;
  }

  lemma AccuseJust(s: State, w: Wire, c: Worker)
    requires Just(s, w) && Deserves(w, s.sent, c)
    ensures Just(Accuse(s, c), w)
  {
    hide Deserves;
  }

  lemma TakeJust(s: State, w: Wire, c: Worker, v: Value)
    requires Just(s, w) && c in s.inflight
    ensures Just(Take(s, c, v), w)
  {
    hide Deserved;
  }

  lemma NoteJust(s: State, w: Wire, c: Worker)
    requires Just(s, w)
    ensures Just(Note(s, c), w) && Just(CheckDone(s), w)
  {
    hide Deserved;
  }

  lemma {:induction false} ReadLoopJust(s: State, w: Wire, c: Worker, ls: seq<string>, eof: bool, env: Outcomes)
    requires Base(s) && Sound(s, w, {c}) && Just(s, w) && c in s.workers
    requires Flow(w.ops, s.inflight, LinesTo(s.sent, c), ServedBy(w, c), ls + UnreadOf(w, c), c in w.torn, c)
    ensures Just(ReadLoop(s, c, Lines(ls), eof, env).0, w)
  {
    hide Base, Sound, Just, Take, Answers, ReplyIn, Feed, Died, LinesTo, AnswerTo, Flow, CheckDone, Welcome, Note;
    NoteJust(s, w, c);
    if ls == [] {
      if eof { DiedJust(s, w, c, env); }
    } else {
      var item := OneLine(s, w, c, ls);
      assert Lines(ls)[0] == Line(ls[0]) && Lines(ls)[1..] == [];
      if Welcome(w, item, ls[0]) {
        ReplyTaken(s, w, c, ls);
        TakenJust(s, w, c, ReplyIn(ls[0]).value, eof, env);
      } else {
        LineRefused(s, w, c, ls);
        RefusedDeserves(s, w, c, ls);
        AccuseKeeps(s, c);
        AccuseJust(s, w, c);
        DiedJust(Accuse(s, c), w, c, env);
      }
    }
  }

  lemma TakenJust(s: State, w: Wire, c: Worker, v: Value, eof: bool, env: Outcomes)
    requires Base(s) && Answers(s, c, v) && Just(s, w)
    ensures c in s.inflight && Base(Take(s, c, v)) && c in Take(s, c, v).workers
    ensures var f := Feed(Take(s, c, v), c, env);
      Base(Note(f.0, c)) && Just(ReadLoop(Note(f.0, c), c, [], eof, f.1).0, w)
  {
    hide Base, Take, Feed, Died, Just, CheckDone, Note;
    AnswersOne(s, c, v);
    TakeJust(s, w, c, v);
    FeedJust(Take(s, c, v), w, c, env);
    var f := Feed(Take(s, c, v), c, env);
    NoteKeeps(f.0, c);
    NoteJust(f.0, w, c);
    var n := Note(f.0, c);
    NoteJust(n, w, c);
    if c in n.workers && eof { DiedJust(n, w, c, f.1); }
  }

  // ---- runs --------------------------------------------------------------------------------

  lemma SubmitJust(s: State, w: Wire, items: seq<Value>, env: Outcomes)
    requires Base(s) && Just(s, w) && SubmitRefusal(s, items).None?
    ensures Just(Submit(s, items, env).0, w.(items := items))
  {
    hide Base, FeedAll, Filed, Deserved;
    NotYet(s, items);
    FiledIsBase(s, items);
    FiledFrame(s, items);
    FiledJust(s, w, items);
    FeedAllJust(Filed(s, items), w.(items := items), s.workers, env);
  }

  lemma FiledJust(s: State, w: Wire, items: seq<Value>)
    requires Just(s, w) && !s.once
    ensures Just(Filed(s, items), w.(items := items))
  {
    hide CleanItem;
  }

  /** Reading and crashing leave the accusations what they were. */
  lemma WireMoves(s: State, w: Wire, v: Wire)
    requires Just(s, w) && v.ops == w.ops && v.items == w.items && w.torn <= v.torn
    ensures Just(s, v)
  {
    hide CleanItem;
    forall i | 0 <= i < |s.accused| ensures Deserves(v, s.sent, s.accused[i]) {
      assert Deserves(w, s.sent, s.accused[i]);
      if s.accused[i] !in w.torn {
        var k: nat :| SentUnclean(w, s.sent, s.accused[i], k);
        assert SentUnclean(v, s.sent, s.accused[i], k);
      }
    }
  }

  lemma MoveJust(y: System, m: Move)
    requires Base(y.dir) && Sound(y.dir, y.wire, {}) && Just(y.dir, y.wire)
    ensures Just(Move1(y, m).dir, Move1(y, m).wire)
  {
    hide Base, Submit, Readable, Sound, Just, Serve, LinesTo, SubmitRefusal, Cut;
    match m
    case Give(items, env) =>
      if SubmitRefusal(y.dir, items).None? { SubmitJust(y.dir, y.wire, items, env); }
    case Work(_) => WireMoves(y.dir, y.wire, Move1(y, m).wire);
    case Crash(_) => WireMoves(y.dir, y.wire, Move1(y, m).wire);
    case Snap(_, _) => WireMoves(y.dir, y.wire, Move1(y, m).wire);
    case Poll(c, info, k, env) =>
      if c in y.dir.workers { PollJust(y, c, info, k, env); }
  }

  lemma PollJust(y: System, c: Worker, info: bool, k: nat, env: Outcomes)
    requires Base(y.dir) && Sound(y.dir, y.wire, {}) && Just(y.dir, y.wire) && c in y.dir.workers
    ensures var z := Move1(y, Poll(c, info, k, env)); Just(z.dir, z.wire)
  {
    hide Base, Just, ReadLoop, Died, Faithful, AllFit, Flow, LinesTo, Linked;
    var s, w, z := y.dir, y.wire, Move1(y, Poll(c, info, k, env));
    var u := UnreadOf(w, c);
    var n := if k < |u| then k else |u|;
    assert u == u[..n] + u[n..];
    WireMoves(s, w, z.wire);
    if info {
      Fresh(s);
      Relink(s, w, z.wire, c);
      LinkOf(s, w, c);
      ReadLoopJust(s, z.wire, c, u[..n], c in Gone(w) && n == |u|, env);
    } else {
      DiedJust(s, z.wire, c, env);
    }
  }

  lemma {:induction false} MovesJust(y: System, ms: seq<Move>)
    requires Base(y.dir) && Sound(y.dir, y.wire, {}) && Just(y.dir, y.wire) && GivenMoves(y.wire.ops, ms)
    ensures Just(Moves(y, ms).dir, Moves(y, ms).wire)
    decreases |ms|
  {
    hide Base, Sound, Just, Move1, AllGiven;
    if ms != [] {
      MoveSound(y, ms[0]);
      MoveJust(y, ms[0]);
      Move1Base(y, ms[0]);
      assert forall i :: 0 <= i < |ms[1..]| ==> ms[1..][i] == ms[i + 1];
      MovesJust(Move1(y, ms[0]), ms[1..]);
    }
  }

  /** In every run, a worker noted for a protocol error went inside a reply or was sent an
      unclean item. */
  lemma {:induction false} OnlyTheDeserving(ops: Ops, width: nat, maxtries: nat, ms: seq<Move>)
    requires width >= 1 && maxtries >= 1 && GivenMoves(ops, ms)
    ensures Base(Started(ops, width, maxtries).dir)
    ensures var z := Moves(Started(ops, width, maxtries), ms); Deserved(z.dir.accused, z.wire, z.dir.sent)
  {
    hide Base, Moves, AllGiven, Sound, Deserved;
    var y := Started(ops, width, maxtries);
    LaunchedIsBase(width, maxtries, width);
    StartedSound(ops, width, maxtries);
    StartedJust(ops, width, maxtries);
    MovesJust(y, ms);
  }

  lemma StartedJust(ops: Ops, width: nat, maxtries: nat)
    ensures Just(Started(ops, width, maxtries).dir, Started(ops, width, maxtries).wire)
  {
  }

  /** The batch is clean and nobody is gone inside a reply. */
  ghost predicate Blameless(y: System) {
    y.wire.torn == {} && AllClean(y.wire.ops, y.wire.items)
  }

  predicate NoSnap(ms: seq<Move>) {
    forall i :: 0 <= i < |ms| ==> !ms[i].Snap?
  }

  lemma MoveBlameless(y: System, m: Move)
    requires Base(y.dir) && Blameless(y) && !m.Snap? && (m.Give? ==> AllClean(y.wire.ops, m.items))
    ensures Blameless(Move1(y, m))
  {
    hide Base, Submit, Readable, AllClean, SubmitRefusal, LinesTo, Serve;
  }

  lemma {:induction false} MovesBlameless(y: System, ms: seq<Move>)
    requires Base(y.dir) && Blameless(y) && NoSnap(ms) && CleanMoves(y.wire.ops, ms)
    ensures Blameless(Moves(y, ms))
    decreases |ms|
  {
    hide Base, Blameless, AllClean, Move1;
    if ms != [] {
      Move1Base(y, ms[0]);
      MoveBlameless(y, ms[0]);
      OpStays(y, ms[0]);
      assert forall i :: 0 <= i < |ms[1..]| ==> ms[1..][i] == ms[i + 1];
      MovesBlameless(Move1(y, ms[0]), ms[1..]);
    }
  }

  /** When every item is clean and no worker goes inside a reply, though writes and spawns
      fail and workers go between replies, nobody is noted for a protocol error. */
  lemma {:induction false} CleanBatchAccusesNobody(ops: Ops, width: nat, maxtries: nat, ms: seq<Move>)
    requires width >= 1 && maxtries >= 1 && GivenMoves(ops, ms) && CleanMoves(ops, ms) && NoSnap(ms)
    ensures Base(Started(ops, width, maxtries).dir)
    ensures Moves(Started(ops, width, maxtries), ms).dir.accused == []
  {
    hide Base, Moves, AllGiven, AllClean, CleanItem;
    var y := Started(ops, width, maxtries);
    OnlyTheDeserving(ops, width, maxtries, ms);
    NoneUnclean(ops);
    MovesBlameless(y, ms);
    var z := Moves(y, ms);
    if z.dir.accused != [] { NobodyDeserves(z.wire, z.dir.sent, z.dir.accused[0]); }
  }

  lemma NobodyDeserves(w: Wire, sent: seq<Sent>, c: Worker)
    requires w.torn == {} && AllClean(w.ops, w.items)
    ensures !Deserves(w, sent, c)
  {
    hide CleanItem;
  }

  // ---- the note of a reply nobody wrote ---------------------------------------------------

  function FirstReply(): Value {
    Dict([Pair("id", Scalar("0")), Pair("ok", Scalar("1"))])
  }

  lemma FirstReplyArrives()
    ensures ReplyIn(JsonEmit.Text(FirstReply())) == Some(FirstReply())
    ensures Get(FirstReply().pairs, "id") == Some(Scalar("0"))
  {
    var ps := FirstReply().pairs;
    TwoFields(ps[0], ps[1]);
    FitsIff(FirstReply());
    assert NulFree(FirstReply());
    hide JsonEmit.Text;
    ReplyArrives(FirstReply());
  }

  lemma OneFed(s: State, c: Worker)
    requires Base(s) && c in s.workers && c !in s.inflight && s.pending != [] && Encodable(s.pending[0].request)
    requires Distinct([c])
    ensures var t := FeedAll(s, [c], []).0;
      && c in t.workers && c in t.inflight && t.inflight[c] == s.pending[0] && t.pending == s.pending[1..]
      && t.phantoms == s.phantoms
  {
    hide Base, Encodable, Distinct;
    HandKeeps(s, c);
    var f := Feed(s, c, []);
    assert f == (Send(Hand(s, c), c, s.pending[0].request), []);
    assert [c][1..] == [];
    FedNone(f.0);
    hide Feed;
    assert FeedAll(s, [c], []) == FeedAll(f.0, [], f.1);
  }

  lemma FedNone(s: State)
    requires Base(s)
    ensures Distinct([]) && FeedAll(s, [], []) == (s, [])
  {
    hide Base;
  }

  /** The batch in a pool of one worker: the first of two items is with it. */
  lemma TwoSubmitted(v: Value)
    requires Submittable(v) && WellFormed(v)
    ensures Base(Launched(1, 2, 1))
    ensures var s := Submit(Launched(1, 2, 1), [v, v], []).0;
      && 0 in s.workers && 0 in s.inflight && s.inflight[0].id == 0 && s.pending != [] && s.phantoms == 0
  {
    hide Base, Submittable, Stamped, WellFormed, Filed, FeedAll, Launched, Stamp, Distinct;
    OneWorker(2);
    var l := Launched(1, 2, 1);
    FiledIsBase(l, [v, v]);
    FiledFrame(l, [v, v]);
    var f := Filed(l, [v, v]);
    assert f.pending == Stamp([v, v], 0) && |f.pending| == 2;
    AcceptedItemIsRequest(v, 0);
    FiledPhantoms(l, [v, v]);
    OneFed(f, 0);
  }

  lemma FiledPhantoms(s: State, items: seq<Value>)
    ensures Filed(s, items).phantoms == s.phantoms
  {
  }

  /** The input that shows it: the worker answers the first item, and the write of the
      second fails inside the handler that read the answer. */
  lemma PhantomNoted(v: Value)
    requires Submittable(v) && WellFormed(v)
    ensures Base(Launched(1, 2, 1))
    ensures var line := Line(JsonEmit.Text(FirstReply()));
      Run(Launched(1, 2, 1), [Batch([v, v], []), Ready(0, true, [line], false, [false])]).phantoms == 1
  {
    hide Base, Submit, Submittable, WellFormed, JsonEmit.Text, ReplyIn, Launched;
    TwoSubmitted(v);
    FirstReplyArrives();
    var s := Submit(Launched(1, 2, 1), [v, v], []).0;
    var line := Line(JsonEmit.Text(FirstReply()));
    var b, e := Batch([v, v], []), Ready(0, true, [line], false, [false]);
    assert [b, e][1..] == [e] && [e][1..] == [];
    assert Run(Launched(1, 2, 1), [b, e]) == Run(s, [e]) == Run(Step(s, e), []) == Step(s, e);
    assert JsonEmit.Text(FirstReply()) != "" by { TextNonempty(); }
    assert Answers(s, 0, FirstReply());
    AnswersOne(s, 0, FirstReply());
    FeedBuriesWhen(Take(s, 0, FirstReply()), 0, [false]);
    hide Take, Feed;
    assert FeedBuries(s, 0, [line], [false]);
    PhantomIffFeedBuries(s, 0, [line], false, [false]);
  }

  lemma TextNonempty()
    ensures JsonEmit.Text(FirstReply()) != ""
  {
  }
}
