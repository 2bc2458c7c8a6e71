/** The director, its workers and the pipes between them, as one transition system
    in which any process may take the next step. */
module PoolSystem {
  import opened TclValues
  import opened PoolState
  import opened PoolDirector
  import opened PoolProgress
  import opened PoolMachine
  import opened WorkerServe
  import opened PoolExchange
  import JsonEmit
  import JsonRoundTrip
  import Decimal

  /** What lies outside the director: the batch; for each worker how many request lines it
      has read and which reply lines the director has not; the workers that have gone, and
      those that went inside a reply. A pipe keeps order. */
  datatype Wire = Wire(
    ops: Ops,
    items: seq<Value>,
    served: map<Worker, nat>,
    unread: map<Worker, seq<string>>,
    crashed: set<Worker>,
    torn: set<Worker>)

  datatype System = System(dir: State, wire: Wire)

  function Gone(w: Wire): set<Worker> {
    w.crashed + w.torn
  }

  function ServedBy(w: Wire, c: Worker): nat {
    if c in w.served then w.served[c] else 0
  }

  function UnreadOf(w: Wire, c: Worker): seq<string> {
    if c in w.unread then w.unread[c] else []
  }

  /** The request lines written to c, in order. */
  function LinesTo(sent: seq<Sent>, c: Worker): seq<string> {
    if sent == [] then []
    else
      var last := sent[|sent| - 1];
      LinesTo(sent[..|sent| - 1], c) + if last.to == c then [last.line] else []
  }

  // ---- steps -----------------------------------------------------------------------

  datatype Move =
    | Give(items: seq<Value>, env: Outcomes)
    | Work(c: Worker)
    | Crash(c: Worker)
    | Snap(c: Worker, k: nat)
    | Poll(c: Worker, info: bool, k: nat, env: Outcomes)

  function Lines(ls: seq<string>): seq<Got> {
    seq(|ls|, i requires 0 <= i < |ls| => Line(ls[i]))
  }

  /** The lines of a worker that goes after k characters of its answer. */
  function Cut(answers: seq<string>, k: nat): seq<string> {
    if k == 0 || answers == [] then []
    else [if k < |answers[0]| then answers[0][..k] else answers[0]]
  }

  ghost predicate Serves(y: System, c: Worker) {
    c in y.dir.workers && c !in Gone(y.wire) && ServedBy(y.wire, c) < |LinesTo(y.dir.sent, c)|
  }

  /** Submit; one request served by a worker; a worker gone between two lines, or inside its
      answer; or the director's handler, which finds the first k reply lines there are. */
  ghost function Move1(y: System, m: Move): System
    requires Base(y.dir)
  {
    var w := y.wire;
    match m
    case Give(items, env) =>
      if SubmitRefusal(y.dir, items).Some? then y
      else y.(dir := Submit(y.dir, items, env).0, wire := w.(items := items))
    case Work(c) =>
      if !Serves(y, c) then y
      else
        var line := LinesTo(y.dir.sent, c)[ServedBy(w, c)];
        y.(wire := w.(served := w.served[c := ServedBy(w, c) + 1],
                      unread := w.unread[c := UnreadOf(w, c) + Serve(w.ops, [line])]))
    case Crash(c) => y.(wire := w.(crashed := w.crashed + {c}))
    case Snap(c, k) =>
      if !Serves(y, c) then y
      else
        var line := LinesTo(y.dir.sent, c)[ServedBy(w, c)];
        y.(wire := w.(served := w.served[c := ServedBy(w, c) + 1],
                      unread := w.unread[c := UnreadOf(w, c) + Cut(Serve(w.ops, [line]), k)],
                      torn := w.torn + {c}))
    case Poll(c, info, k, env) =>
      if c !in y.dir.workers then y
      else
        var u := UnreadOf(w, c);
        var n := if k < |u| then k else |u|;
        y.(dir := Readable(y.dir, c, info, Lines(u[..n]), c in Gone(w) && n == |u|, env).0,
           wire := w.(unread := w.unread[c := u[n..]]))
  }

  lemma Move1Base(y: System, m: Move)
    requires Base(y.dir)
    ensures Base(Move1(y, m).dir)
  {
    hide Base, Submit, Readable;
  }

  ghost function Moves(y: System, ms: seq<Move>): (z: System)
    requires Base(y.dir)
    ensures Base(z.dir)
    decreases |ms|
  {
    hide Base, Move1;
    if ms == [] then y else Move1Base(y, ms[0]); Moves(Move1(y, ms[0]), ms[1..])
  }

  // ---- what holds on the wire ---------------------------------------------------------

  /** Part of a line, but not all. */
  predicate Torn(part: string, line: string) {
    part != "" && |part| < |line| && part == line[..|part|]
  }

  /** A busy worker has its one request still to read, or its reply is on the way, or it is
      gone and has left part of the reply, or none; an idle one has nothing in either pipe. */
  ghost predicate Flow(ops: Ops, infl: map<Worker, Item>, lines: seq<string>, served: nat, unread: seq<string>,
                       torn: bool, c: Worker)
  {
    if c !in infl then served == |lines| && unread == []
    else
      var line := JsonEmit.Text(infl[c].request);
      && lines != [] && lines[|lines| - 1] == line
      && (|| (|lines| == served + 1 && unread == [])
          || (|lines| == served && unread == [AnswerTo(ops, line)])
          || (|lines| == served && torn
              && (unread == [] || (|unread| == 1 && Torn(unread[0], AnswerTo(ops, line))))))
  }

  ghost predicate Linked(s: State, w: Wire, except: set<Worker>) {
    && (forall c :: c in s.workers && c !in except ==>
          Flow(w.ops, s.inflight, LinesTo(s.sent, c), ServedBy(w, c), UnreadOf(w, c), c in w.torn, c))
    && (forall c :: c >= s.nextWorker ==> LinesTo(s.sent, c) == [] && ServedBy(w, c) == 0 && UnreadOf(w, c) == [])
  }

  /** The item is the submitted one under its id. */
  predicate Own(items: seq<Value>, item: Item) {
    item.id < |items| && item.request == Stamped(items[item.id], item.id)
  }

  /** Item k and its outcome survive the wire. */
  predicate CleanItem(ops: Ops, v: Value, k: nat) {
    Stamped(v, k).Dict? && Clean(ops, Stamped(v, k))
  }

  /** A worker's answer under id k is the handler's outcome on item k, which is clean. */
  predicate True(ops: Ops, items: seq<Value>, r: Reply) {
    r.Answer? ==>
      && r.id < |items| && CleanItem(ops, items[r.id], r.id)
      && r.reply == Expected(ops, Stamped(items[r.id], r.id))
  }

  /** An answer tells what came of the item of its id, from the table of operations and the
      item's fields: ok 1 and the handler's result, or ok 0 and its error. */
  ghost predicate Telling(ops: Ops, items: seq<Value>, r: Reply) {
    r.Answer? ==>
      && r.id < |items| && items[r.id].Dict? && r.reply.Dict?
      && Tells(ops, Stamped(items[r.id], r.id).pairs, r.reply)
      && Get(r.reply.pairs, "id") == Some(Scalar(Decimal.Numeral(r.id)))
  }

  ghost predicate Faithful(pending: seq<Item>, infl: map<Worker, Item>, results: seq<Reply>, ops: Ops,
                           items: seq<Value>)
  {
    && (forall i :: 0 <= i < |pending| ==> Own(items, pending[i]))
    && (forall c :: c in infl ==> Own(items, infl[c]))
    && (forall k :: 0 <= k < |results| ==> True(ops, items, results[k]))
  }

  /** Item k is a request the director can write, and its outcome a Tcl value. */
  ghost predicate Fit(ops: Ops, v: Value, k: nat) {
    var r := Stamped(v, k);
    && Request(r, k)
    && (Perform(ops, r.pairs).Reply? ==> WellFormed(Dict(Perform(ops, r.pairs).pairs)))
  }

  ghost predicate AllFit(ops: Ops, items: seq<Value>) {
    forall k :: 0 <= k < |items| ==> Fit(ops, items[k], k)
  }

  ghost predicate Sound(s: State, w: Wire, except: set<Worker>) {
    && Linked(s, w, except)
    && Faithful(s.pending, s.inflight, s.results, w.ops, w.items)
    && AllFit(w.ops, w.items)
  }

  // ---- the director's moves keep it ------------------------------------------------------

  lemma SentLines(sent: seq<Sent>, c: Worker, line: string, d: Worker)
    ensures LinesTo(sent + [Sent(c, line)], d) == if d == c then LinesTo(sent, d) + [line] else LinesTo(sent, d)
  {
    assert (sent + [Sent(c, line)])[..|sent|] == sent;
  }

  lemma SendSound(s: State, w: Wire, c: Worker)
    requires Base(s) && c in s.workers && c !in s.inflight && s.pending != [] && Sound(s, w, {})
    ensures Sound(Send(Hand(s, c), c, s.pending[0].request), w, {})
    ensures Sound(Hand(s, c), w, {c})
  {
    hide Base, AllFit, Linked, Faithful;
    SendLinked(s, w, c);
    HandFaithful(s, w, c);
  }

  lemma SendLinked(s: State, w: Wire, c: Worker)
    requires Base(s) && c in s.workers && c !in s.inflight && s.pending != [] && Linked(s, w, {})
    ensures Linked(Send(Hand(s, c), c, s.pending[0].request), w, {})
    ensures Linked(Hand(s, c), w, {c})
  {
    hide Base, LinesTo, Flow;
    Fresh(s);
    var h, line := Hand(s, c), JsonEmit.Text(s.pending[0].request);
    assert h.workers == s.workers && h.nextWorker == s.nextWorker && h.sent == s.sent;
    assert h.inflight == s.inflight[c := s.pending[0]];
    forall d
      ensures LinesTo(s.sent + [Sent(c, line)], d) == if d == c then LinesTo(s.sent, d) + [line] else LinesTo(s.sent, d)
    {
      SentLines(s.sent, c, line, d);
    }
    forall d | d in s.workers {
      HandFlow(w.ops, s.inflight, s.pending[0], LinesTo(s.sent, d), ServedBy(w, d), UnreadOf(w, d), d in w.torn, c, d);
    }
  }

  lemma HandFlow(ops: Ops, infl: map<Worker, Item>, item: Item, lines: seq<string>, served: nat, unread: seq<string>,
                 torn: bool, c: Worker, d: Worker)
    requires c !in infl && Flow(ops, infl, lines, served, unread, torn, d)
    ensures if d == c then Flow(ops, infl[c := item], lines + [JsonEmit.Text(item.request)], served, unread, torn, d)
      else Flow(ops, infl[c := item], lines, served, unread, torn, d)
  {
    hide AnswerTo, JsonEmit.Text;
  }

  lemma HandFaithful(s: State, w: Wire, c: Worker)
    requires s.pending != [] && Faithful(s.pending, s.inflight, s.results, w.ops, w.items)
    ensures var h := Hand(s, c); Faithful(h.pending, h.inflight, h.results, w.ops, w.items)
  {
    hide Own, True;
  }

  lemma {:induction false} FeedSound(s: State, w: Wire, c: Worker, env: Outcomes)
    requires Base(s) && c in s.workers && c !in s.inflight && Sound(s, w, {})
    ensures Sound(Feed(s, c, env).0, w, {})
    decreases SlackOf(s), 1
  {
    hide Base, Slack, Linked, Faithful, AllFit;
    if s.pending != [] {
      HandKeeps(s, c);
      SendSound(s, w, c);
      DiedSound(Hand(s, c), w, c, if Encodable(s.pending[0].request) then Later(env) else env);
    } else {
      SameLinks(s, CheckDone(s), w, {});
    }
  }

  lemma SameLinks(s: State, t: State, w: Wire, except: set<Worker>)
    requires s.workers == t.workers && s.inflight == t.inflight && s.sent == t.sent && s.nextWorker == t.nextWorker
    ensures Linked(s, w, except) == Linked(t, w, except)
  {
    hide Flow, LinesTo;
  }

  lemma {:induction false} DiedSound(s: State, w: Wire, c: Worker, env: Outcomes)
    requires Base(s) && Sound(s, w, {c})
    ensures Sound(Died(s, c, env).0, w, {})
    decreases SlackOf(s), if c in s.inflight then 0 else 2
  {
    hide Base, Slack, Linked, Faithful, AllFit, Lost;
    if c !in s.workers {
      Unexcept(s, w, c);
    } else {
      var t := Lost(s, c);
      LostKeeps(s, c);
      LostFrame(s, c);
      LostSound(s, w, c);
      SameLinks(t, CheckDone(t), w, {});
      var z := t.(fatal := true, done := true);
      SameLinks(t, z, w, {});
      SameLinks(z, CheckDone(z), w, {});
      if t.pending != [] && Next(env) {
        SpawnKeeps(t);
        SpawnSound(t, w);
        Fresh(t);
        assert t.nextWorker !in t.inflight;
        FeedSound(Spawn(t), w, t.nextWorker, Later(env));
        var u := Feed(Spawn(t), t.nextWorker, Later(env)).0;
        SameLinks(u, CheckDone(u), w, {});
      }
    }
  }

  lemma Unexcept(s: State, w: Wire, c: Worker)
    requires Linked(s, w, {c}) && c !in s.workers
    ensures Linked(s, w, {})
  {
    hide Flow, LinesTo;
  }

  lemma LostSound(s: State, w: Wire, c: Worker)
    requires Base(s) && c in s.workers && Sound(s, w, {c})
    ensures Sound(Lost(s, c), w, {})
  {
    hide Base, AllFit, Linked, Faithful;
    LostFrame(s, c);
    LostLinked(s, w, c);
    LostFaithful(s, w, c);
  }

  lemma LostLinked(s: State, w: Wire, c: Worker)
    requires Base(s) && c in s.workers && Linked(s, w, {c})
    ensures Linked(Lost(s, c), w, {})
  {
    hide Base, LinesTo, AnswerTo, Requeue, JsonEmit.Text;
    LostLeaves(s, c);
    LostFrame(s, c);
    assert Lost(s, c).sent == s.sent by { LostSent(s, c); }
  }

  lemma LostSent(s: State, c: Worker)
    ensures Lost(s, c).sent == s.sent
  {
  }

  lemma LostFaithful(s: State, w: Wire, c: Worker)
    requires Faithful(s.pending, s.inflight, s.results, w.ops, w.items)
    ensures var t := Lost(s, c); Faithful(t.pending, t.inflight, t.results, w.ops, w.items)
  {
    hide Own, True, Without;
    if c in s.inflight {
      var item := s.inflight[c];
      var t := TriesOf(s.tries, item.id) + 1;
      PoisonIsTrue(w, item.id, t);
    }
  }

  lemma PoisonIsTrue(w: Wire, id: nat, tries: nat)
    ensures True(w.ops, w.items, Poison(id, tries))
  {
  }

  lemma SpawnSound(s: State, w: Wire)
    requires Base(s) && Sound(s, w, {})
    ensures Sound(Spawn(s), w, {})
  {
    hide Base, AllFit, LinesTo, AnswerTo, Faithful;
    Fresh(s);
  }

  // ---- the handler and submit keep it ----------------------------------------------------

  /** Every line read is the reply to what c has in flight, and is taken as such. */
  lemma {:induction false} ReadLoopSound(s: State, w: Wire, c: Worker, ls: seq<string>, eof: bool, env: Outcomes)
    requires Base(s) && Sound(s, w, {c})
    requires c in s.workers ==>
      Flow(w.ops, s.inflight, LinesTo(s.sent, c), ServedBy(w, c), ls + UnreadOf(w, c), c in w.torn, c)
    ensures Sound(ReadLoop(s, c, Lines(ls), eof, env).0, w, {})
    decreases |ls|
  {
    hide Base, Linked, Faithful, AllFit, Take, Answers, ReplyIn, Feed, Died, LinesTo, AnswerTo;
    if c !in s.workers {
      Unexcept(s, w, c);
    } else if ls == [] {
      assert ls + UnreadOf(w, c) == UnreadOf(w, c);
      if eof {
        DiedSound(s, w, c, env);
      } else {
        LinkBack(s, w, c);
        SameLinks(s, CheckDone(s), w, {});
      }
    } else {
      var item := OneLine(s, w, c, ls);
      assert Lines(ls)[0] == Line(ls[0]) && Lines(ls)[1..] == Lines([]);
      if Welcome(w, item, ls[0]) {
        ReplyTaken(s, w, c, ls);
        AnswersOne(s, c, ReplyIn(ls[0]).value);
        var t := Take(s, c, ReplyIn(ls[0]).value);
        FeedSound(t, w, c, env);
        var f := Feed(t, c, env);
        if c in f.0.workers { LinkOf(f.0, w, c); }
        NoteKeeps(f.0, c);
        NoteSound(f.0, w, c);
        Widen(Note(f.0, c), w, c);
        ReadLoopSound(Note(f.0, c), w, c, [], eof, f.1);
      } else {
        LineRefused(s, w, c, ls);
        AccuseKeeps(s, c);
        SameLinks(s, Accuse(s, c), w, {c});
        DiedSound(Accuse(s, c), w, c, env);
      }
    }
  }

  /** The line is the whole answer to a clean item. */
  ghost predicate Welcome(w: Wire, item: Item, line: string) {
    item.request.Dict? && Clean(w.ops, item.request) && line == AnswerTo(w.ops, JsonEmit.Text(item.request))
  }

  /** Any other line that can be there, a part of an answer or the answer to an unclean
      item, is no reply to what c has in flight. */
  lemma LineRefused(s: State, w: Wire, c: Worker, ls: seq<string>)
    requires Base(s) && Sound(s, w, {c}) && c in s.workers && ls != []
    requires Flow(w.ops, s.inflight, LinesTo(s.sent, c), ServedBy(w, c), ls + UnreadOf(w, c), c in w.torn, c)
    requires c in s.inflight && !Welcome(w, s.inflight[c], ls[0])
    ensures ls[0] != "" && (ReplyIn(ls[0]).None? || !Answers(s, c, ReplyIn(ls[0]).value))
  {
    hide Base, Linked, Faithful, ReplyIn, LinesTo, AnswerTo, AllFit, Flow, Accepted, Answers, Expected, Own, Clean;
    var item := OneLine(s, w, c, ls);
    var answer := AnswerTo(w.ops, JsonEmit.Text(item.request));
    AnswerIsOneLine(w.ops, JsonEmit.Text(item.request));
    if ls[0] == answer {
      OwnItem(s, w, c);
      UncleanReply(w, item);
      RefusedAnswers(s, c, ls[0]);
    } else {
      TornIsNoReply(w.ops, JsonEmit.Text(item.request), |ls[0]|);
    }
  }

  lemma RefusedAnswers(s: State, c: Worker, line: string)
    requires c in s.inflight && Accepted(line, s.inflight[c].id).None?
    ensures ReplyIn(line).None? || !Answers(s, c, ReplyIn(line).value)
  {
    hide SpellsId, JsonEmit.Text, Encodable;
  }

  lemma UncleanReply(w: Wire, item: Item)
    requires Own(w.items, item) && AllFit(w.ops, w.items) && !(item.request.Dict? && Clean(w.ops, item.request))
    ensures Accepted(AnswerTo(w.ops, JsonEmit.Text(item.request)), item.id).None?
  {
    hide Stamped, ReplyIn, AnswerTo, Expected, Perform;
    assert Fit(w.ops, w.items[item.id], item.id);
    ExchangeSucceedsIffClean(w.ops, item.request, item.id);
  }

  lemma NoteSound(s: State, w: Wire, c: Worker)
    requires Sound(s, w, {})
    ensures Sound(Note(s, c), w, {})
  {
    hide Linked, Faithful, AllFit;
    SameLinks(s, Note(s, c), w, {});
  }

  lemma LinkBack(s: State, w: Wire, c: Worker)
    requires Linked(s, w, {c})
    requires Flow(w.ops, s.inflight, LinesTo(s.sent, c), ServedBy(w, c), UnreadOf(w, c), c in w.torn, c)
    ensures Linked(s, w, {})
  {
    hide Flow, LinesTo;
  }

  lemma LinkOf(s: State, w: Wire, c: Worker)
    requires Linked(s, w, {}) && c in s.workers
    ensures [] + UnreadOf(w, c) == UnreadOf(w, c)
    ensures Flow(w.ops, s.inflight, LinesTo(s.sent, c), ServedBy(w, c), UnreadOf(w, c), c in w.torn, c)
  {
    hide Flow, LinesTo;
  }

  lemma Widen(s: State, w: Wire, c: Worker)
    requires Linked(s, w, {})
    ensures Linked(s, w, {c})
  {
    hide Flow, LinesTo;
  }

  /** The one line on its way is a good reply; taking it leaves c idle with clear pipes. */
  lemma ReplyTaken(s: State, w: Wire, c: Worker, ls: seq<string>)
    requires Base(s) && Sound(s, w, {c}) && c in s.workers && ls != []
    requires Flow(w.ops, s.inflight, LinesTo(s.sent, c), ServedBy(w, c), ls + UnreadOf(w, c), c in w.torn, c)
    requires c in s.inflight && Welcome(w, s.inflight[c], ls[0])
    ensures |ls| == 1 && ls[0] != ""
    ensures ReplyIn(ls[0]).Some? && Answers(s, c, ReplyIn(ls[0]).value)
    ensures Sound(Take(s, c, ReplyIn(ls[0]).value), w, {})
  {
    hide Base, Linked, Faithful, ReplyIn, LinesTo, AnswerTo, AllFit, Flow, Accepted, Answers, Expected;
    hide Own, Take, Clean;
    var item := OneLine(s, w, c, ls);
    OwnItem(s, w, c);
    FitReply(w, item);
    AnswerIsOneLine(w.ops, JsonEmit.Text(item.request));
    AcceptedAnswers(s, c, ls[0]);
    TakeSound(s, w, c, ls, ReplyIn(ls[0]).value);
  }

  lemma AcceptedAnswers(s: State, c: Worker, line: string)
    requires c in s.inflight && Accepted(line, s.inflight[c].id).Some?
    ensures ReplyIn(line).Some? && Answers(s, c, ReplyIn(line).value)
  {
    hide SpellsId, JsonEmit.Text, Encodable;
  }

  /** There is only ever one line to read. */
  lemma OneLine(s: State, w: Wire, c: Worker, ls: seq<string>) returns (item: Item)
    requires ls != []
    requires Flow(w.ops, s.inflight, LinesTo(s.sent, c), ServedBy(w, c), ls + UnreadOf(w, c), c in w.torn, c)
    ensures |ls| == 1 && UnreadOf(w, c) == [] && c in s.inflight && item == s.inflight[c]
    ensures var answer := AnswerTo(w.ops, JsonEmit.Text(item.request)); ls[0] == answer || Torn(ls[0], answer)
    ensures ServedBy(w, c) == |LinesTo(s.sent, c)|
    ensures LinesTo(s.sent, c) != [] && LinesTo(s.sent, c)[|LinesTo(s.sent, c)| - 1] == JsonEmit.Text(item.request)
    ensures ls[0] != AnswerTo(w.ops, JsonEmit.Text(item.request)) ==> c in w.torn
  {
    hide LinesTo, AnswerTo, UnreadOf, Torn;
    var all := ls + UnreadOf(w, c);
    assert all[0] == ls[0];
    item := s.inflight[c];
    assert |all| == 1;
  }

  lemma OwnItem(s: State, w: Wire, c: Worker)
    requires Faithful(s.pending, s.inflight, s.results, w.ops, w.items) && c in s.inflight
    ensures Own(w.items, s.inflight[c])
  {
    hide Own;
  }

  lemma FitReply(w: Wire, item: Item)
    requires Own(w.items, item) && AllFit(w.ops, w.items) && item.request.Dict? && Clean(w.ops, item.request)
    ensures var line := AnswerTo(w.ops, JsonEmit.Text(item.request));
      && ReplyIn(line) == Some(Expected(w.ops, item.request))
      && Accepted(line, item.id).Some?
  {
    hide Stamped, ReplyIn, AnswerTo, Expected, Perform;
    assert Fit(w.ops, w.items[item.id], item.id);
    ExchangeSucceedsIffClean(w.ops, item.request, item.id);
  }

  lemma TakeSound(s: State, w: Wire, c: Worker, ls: seq<string>, v: Value)
    requires Base(s) && Sound(s, w, {c}) && c in s.inflight && Own(w.items, s.inflight[c])
    requires s.inflight[c].request.Dict? && v == Expected(w.ops, s.inflight[c].request)
    requires Clean(w.ops, s.inflight[c].request)
    requires UnreadOf(w, c) == [] && ServedBy(w, c) == |LinesTo(s.sent, c)|
    ensures Sound(Take(s, c, v), w, {})
  {
    hide Base, AllFit, LinesTo, AnswerTo, Expected, Stamped, JsonEmit.Text, UnreadOf, ServedBy, Clean;
  }

  lemma ReadableSound(s: State, w: Wire, v: Wire, c: Worker, info: bool, ls: seq<string>, eof: bool, env: Outcomes)
    requires Base(s) && Sound(s, w, {}) && c in s.workers
    requires v.ops == w.ops && v.items == w.items && v.served == w.served && v.torn == w.torn
    requires forall d :: d != c ==> UnreadOf(v, d) == UnreadOf(w, d)
    requires UnreadOf(w, c) == ls + UnreadOf(v, c)
    ensures Sound(Readable(s, c, info, Lines(ls), eof, env).0, v, {})
  {
    hide Base, ReadLoop, Died, Faithful, AllFit, Flow, LinesTo;
    Fresh(s);
    Relink(s, w, v, c);
    if c in s.workers { LinkOf(s, w, c); }
    ReadLoopSound(s, v, c, ls, eof, env);
    DiedSound(s, v, c, env);
  }

  lemma {:induction false} FeedAllSound(s: State, w: Wire, cs: seq<Worker>, env: Outcomes)
    requires Base(s) && Distinct(cs) && forall i :: 0 <= i < |cs| ==> cs[i] in s.workers
    requires NoneBusy(cs, s.inflight) && Sound(s, w, {})
    ensures Sound(FeedAll(s, cs, env).0, w, {})
    decreases |cs|
  {
    hide Base, Feed, Sound;
    if cs != [] {
      var rest := cs[1..];
      assert forall i :: 0 <= i < |rest| ==> rest[i] == cs[i + 1];
      FeedSound(s, w, cs[0], env);
      FeedSpares(s, cs[0], env);
      var f := Feed(s, cs[0], env);
      FeedAllSound(f.0, w, rest, f.1);
    }
  }

  lemma SubmitSound(s: State, w: Wire, items: seq<Value>, env: Outcomes)
    requires Base(s) && Sound(s, w, {}) && SubmitRefusal(s, items).None? && AllFit(w.ops, items)
    ensures Sound(Submit(s, items, env).0, w.(items := items), {})
  {
    hide Base, FeedAll, AllFit, Linked, Faithful, Submittable, Filed;
    FiledIsBase(s, items);
    FiledFrame(s, items);
    FiledSound(s, w, items);
    FeedAllSound(Filed(s, items), w.(items := items), s.workers, env);
  }

  lemma FiledSound(s: State, w: Wire, items: seq<Value>)
    requires Base(s) && Sound(s, w, {}) && !s.once && AllFit(w.ops, items)
    ensures Sound(Filed(s, items), w.(items := items), {}) && NoneBusy(s.workers, Filed(s, items).inflight)
  {
    hide Base, AllFit, Linked, Stamped, AnswerTo;
    NothingYet(s);
    FiledFrame(s, items);
    FiledLinked(s, w, items);
  }

  lemma FiledLinked(s: State, w: Wire, items: seq<Value>)
    requires Base(s) && Linked(s, w, {}) && !s.once
    ensures Linked(Filed(s, items), w.(items := items), {})
  {
    hide Base, LinesTo, Stamp, Flow;
    NothingYet(s);
    var v := w.(items := items);
    assert forall c :: ServedBy(v, c) == ServedBy(w, c) && UnreadOf(v, c) == UnreadOf(w, c);
    assert Filed(s, items).inflight == s.inflight && Filed(s, items).sent == s.sent;
  }

  // ---- runs --------------------------------------------------------------------------

  /** A worker step turns the request to be read into the reply to be read, or part of it. */
  lemma WorkSound(y: System, m: Move)
    requires Base(y.dir) && Sound(y.dir, y.wire, {}) && (m.Work? || m.Snap?)
    ensures Sound(Move1(y, m).dir, Move1(y, m).wire, {})
  {
    hide Base, Linked, Faithful, AllFit, LinesTo, AnswerTo, Flow, Cut, Serve;
    var c := m.c;
    var s, w, z := y.dir, y.wire, Move1(y, m);
    var lines := LinesTo(s.sent, c);
    if Serves(y, c) {
      Fresh(s);
      LinkOf(s, w, c);
      ToServe(w.ops, s.inflight, lines, ServedBy(w, c), UnreadOf(w, c), c in w.torn, c);
      OwnItem(s, w, c);
      RequestLine(w, s.inflight[c]);
      OneAnswer(w.ops, lines[ServedBy(w, c)]);
      AnswerIsOneLine(w.ops, lines[ServedBy(w, c)]);
      var answer := AnswerTo(w.ops, lines[ServedBy(w, c)]);
      if m.Snap? { CutOne(answer, m.k); }
      Served1(w.ops, s.inflight, lines, UnreadOf(z.wire, c), c in z.wire.torn, c);
      Relink(s, w, z.wire, c);
      LinkBack(s, z.wire, c);
    }
  }

  lemma CutOne(answer: string, k: nat)
    requires answer != ""
    ensures var u := Cut([answer], k); u == [] || u == [answer] || (|u| == 1 && Torn(u[0], answer))
    ensures [] + Cut([answer], k) == Cut([answer], k)
  {
  }

  lemma ToServe(ops: Ops, infl: map<Worker, Item>, lines: seq<string>, served: nat, unread: seq<string>, torn: bool,
                c: Worker)
    requires Flow(ops, infl, lines, served, unread, torn, c) && served < |lines|
    ensures c in infl && unread == [] && |lines| == served + 1 && lines[served] == JsonEmit.Text(infl[c].request)
    ensures forall u: seq<string> :: unread + u == u
  {
    hide JsonEmit.Text, AnswerTo;
  }

  lemma Served1(ops: Ops, infl: map<Worker, Item>, lines: seq<string>, unread: seq<string>, torn: bool, c: Worker)
    requires c in infl && lines != [] && lines[|lines| - 1] == JsonEmit.Text(infl[c].request)
    requires var answer := AnswerTo(ops, JsonEmit.Text(infl[c].request));
      || unread == [answer]
      || (torn && (unread == [] || (|unread| == 1 && Torn(unread[0], answer))))
    ensures Flow(ops, infl, lines, |lines|, unread, torn, c)
  {
    hide JsonEmit.Text, AnswerTo, Torn;
  }

  lemma RequestLine(w: Wire, item: Item)
    requires Own(w.items, item) && AllFit(w.ops, w.items)
    ensures JsonEmit.Text(item.request) != "" && Encodable(item.request)
  {
    hide Stamped, JsonEmit.Text, Perform;
    assert Fit(w.ops, w.items[item.id], item.id);
    FitsIff(item.request);
    JsonRoundTrip.EncodedIsOneLine(item.request);
  }

  /** Only what concerns c has changed on the wire. */
  lemma Relink(s: State, w: Wire, v: Wire, c: Worker)
    requires Linked(s, w, {}) && c in s.workers && c < s.nextWorker && v.ops == w.ops
    requires forall d :: d != c ==>
      UnreadOf(v, d) == UnreadOf(w, d) && ServedBy(v, d) == ServedBy(w, d) && (d in v.torn <==> d in w.torn)
    ensures Linked(s, v, {c})
  {
    hide Flow, LinesTo, UnreadOf, ServedBy;
  }

  lemma MoveSound(y: System, m: Move)
    requires Base(y.dir) && Sound(y.dir, y.wire, {})
    requires m.Give? ==> AllGiven(y.wire.ops, m.items)
    ensures Sound(Move1(y, m).dir, Move1(y, m).wire, {}) && Move1(y, m).wire.ops == y.wire.ops
  {
    hide Base, Submit, Readable, Sound, Serve, LinesTo, SubmitRefusal, AllFit, AllGiven;
    match m
    case Give(items, env) =>
      if SubmitRefusal(y.dir, items).None? {
        GivenIsFit(y.wire.ops, y.dir, items);
        SubmitSound(y.dir, y.wire, items, env);
      }
    case Work(_) => WorkSound(y, m);
    case Crash(_) => CrashSound(y.dir, y.wire, Move1(y, m).wire);
    case Snap(_, _) => WorkSound(y, m);
    case Poll(c, info, k, env) =>
      if c in y.dir.workers {
        var u := UnreadOf(y.wire, c);
        var n := if k < |u| then k else |u|;
        assert u == u[..n] + u[n..];
        ReadableSound(y.dir, y.wire, Move1(y, m).wire, c, info, u[..n], c in Gone(y.wire) && n == |u|, env);
      }
  }

  lemma CrashSound(s: State, w: Wire, v: Wire)
    requires Sound(s, w, {}) && v == w.(crashed := v.crashed)
    ensures Sound(s, v, {})
  {
    hide Flow, LinesTo, AllFit, Faithful;
    assert forall c :: ServedBy(v, c) == ServedBy(w, c) && UnreadOf(v, c) == UnreadOf(w, c);
  }

  /** A Tcl value on which the handlers answer with Tcl values: no dict repeats a key. */
  ghost predicate Given(ops: Ops, v: Value, k: nat) {
    && WellFormed(v)
    && (v.Dict? ==>
          var r := Stamped(v, k);
          Perform(ops, r.pairs).Reply? ==> WellFormed(Dict(Perform(ops, r.pairs).pairs)))
  }

  ghost predicate AllGiven(ops: Ops, items: seq<Value>) {
    forall k :: 0 <= k < |items| ==> Given(ops, items[k], k)
  }

  /** All that is asked of a run. */
  ghost predicate GivenMoves(ops: Ops, ms: seq<Move>) {
    forall i :: 0 <= i < |ms| && ms[i].Give? ==> AllGiven(ops, ms[i].items)
  }

  /** What submit accepts is fit for the wire. */
  lemma GivenIsFit(ops: Ops, s: State, items: seq<Value>)
    requires AllGiven(ops, items) && SubmitRefusal(s, items).None?
    ensures AllFit(ops, items)
  {
    hide Perform, Request, Submittable, WellFormed, Stamped;
    forall k | 0 <= k < |items| ensures Fit(ops, items[k], k) {
      assert Given(ops, items[k], k) && Submittable(items[k]);
      AcceptedItemIsRequest(items[k], k);
      StampedDict(items[k], k);
    }
  }

  lemma StampedDict(v: Value, k: nat)
    ensures Submittable(v) ==> v.Dict? && Stamped(v, k).Dict?
  {
  }

  lemma {:induction false} MovesSound(y: System, ms: seq<Move>)
    requires Base(y.dir) && Sound(y.dir, y.wire, {}) && GivenMoves(y.wire.ops, ms)
    ensures Sound(Moves(y, ms).dir, Moves(y, ms).wire, {}) && Moves(y, ms).wire.ops == y.wire.ops
    decreases |ms|
  {
    hide Base, Sound, Move1, AllGiven;
    if ms != [] {
      MoveSound(y, ms[0]);
      Move1Base(y, ms[0]);
      assert forall i :: 0 <= i < |ms[1..]| ==> ms[1..][i] == ms[i + 1];
      MovesSound(Move1(y, ms[0]), ms[1..]);
    }
  }

  function Started(ops: Ops, width: nat, maxtries: nat): System {
    System(Launched(width, maxtries, width), Wire(ops, [], map[], map[], {}, {}))
  }

  /** Director and workers together, any width, any interleaving, any spawn or write failing
      and any worker crashing, between two lines or inside one: each answer is the handler's
      outcome on the item of its id, tells what came of it, and that item is clean. */
  lemma {:induction false} EndToEnd(ops: Ops, width: nat, maxtries: nat, ms: seq<Move>)
    requires width >= 1 && maxtries >= 1 && GivenMoves(ops, ms)
    ensures Base(Started(ops, width, maxtries).dir)
    ensures var z := Moves(Started(ops, width, maxtries), ms);
      forall k :: 0 <= k < |z.dir.results| ==>
        True(ops, z.wire.items, z.dir.results[k]) && Telling(ops, z.wire.items, z.dir.results[k])
  {
    hide Base, Moves, AllGiven, Telling, True;
    var y := Started(ops, width, maxtries);
    LaunchedIsBase(width, maxtries, width);
    StartedSound(ops, width, maxtries);
    MovesSound(y, ms);
    var z := Moves(y, ms);
    assert Sound(z.dir, z.wire, {});
    forall k | 0 <= k < |z.dir.results| ensures Telling(ops, z.wire.items, z.dir.results[k]) {
      assert True(ops, z.wire.items, z.dir.results[k]);
      TrueTells(ops, z.wire.items, z.dir.results[k]);
    }
  }

  lemma TrueTells(ops: Ops, items: seq<Value>, r: Reply)
    requires AllFit(ops, items) && True(ops, items, r)
    ensures Telling(ops, items, r)
  {
    hide Perform, Tells, Encodable, NulFree, WellFormed, Expected;
    if r.Answer? {
      assert Fit(ops, items[r.id], r.id);
      var v := Stamped(items[r.id], r.id);
      ExpectedTells(ops, v, r.id);
      ExpectedParts(ops, v, r.id);
    }
  }

  lemma StartedSound(ops: Ops, width: nat, maxtries: nat)
    ensures Sound(Started(ops, width, maxtries).dir, Started(ops, width, maxtries).wire, {})
  {
  }

  /** The reply `pool wait` hands back at place k is item k's outcome, or poison after
      maxtries deaths; of an unclean item it is poison. */
  lemma {:induction false} EndToEndInOrder(ops: Ops, width: nat, maxtries: nat, ms: seq<Move>)
    requires width >= 1 && maxtries >= 1 && GivenMoves(ops, ms)
    ensures Base(Started(ops, width, maxtries).dir)
    ensures var z := Moves(Started(ops, width, maxtries), ms);
      Wait(z.dir, []).Replies? ==>
        && |Wait(z.dir, []).rs| == z.dir.submitted
        && forall k :: 0 <= k < z.dir.submitted ==> Due(z, k, Wait(z.dir, []).rs[k])
  {
    hide Base, Moves, AllGiven, Wait, TriesOf;
    EndToEnd(ops, width, maxtries, ms);
    var z := Moves(Started(ops, width, maxtries), ms);
    if Wait(z.dir, []).Replies? {
      WaitGivesEveryReplyInOrder(z.dir, []);
      AwaitNone(z.dir);
      var rs := Wait(z.dir, []).rs;
      hide True, Telling;
      forall k | 0 <= k < z.dir.submitted ensures Due(z, k, rs[k]) {
        assert rs[k] in z.dir.results;
        var i :| 0 <= i < |z.dir.results| && z.dir.results[i] == rs[k];
        OpsStay(Started(ops, width, maxtries), ms);
        DueOf(z, k, rs[k]);
      }
    }
  }

  /** What the caller may find at place k. */
  ghost predicate Due(z: System, k: nat, r: Reply) {
    || r == Poison(k, z.dir.maxtries)
    || (r.Answer? && k < |z.wire.items| && CleanItem(z.wire.ops, z.wire.items[k], k)
        && r == Answer(k, Expected(z.wire.ops, Stamped(z.wire.items[k], k)))
        && Telling(z.wire.ops, z.wire.items, r))
  }

  lemma DueOf(z: System, k: nat, r: Reply)
    requires True(z.wire.ops, z.wire.items, r) && Telling(z.wire.ops, z.wire.items, r)
    requires r.id == k && (r.Poison? ==> r.tries == z.dir.maxtries)
    ensures Due(z, k, r)
  {
    hide Clean, Expected, Stamped, Telling;
  }

  lemma {:induction false} OpsStay(y: System, ms: seq<Move>)
    requires Base(y.dir)
    ensures Moves(y, ms).wire.ops == y.wire.ops
    decreases |ms|
  {
    hide Base;
    if ms != [] {
      Move1Base(y, ms[0]);
      OpStays(y, ms[0]);
      OpsStay(Move1(y, ms[0]), ms[1..]);
    }
  }

  lemma OpStays(y: System, m: Move)
    requires Base(y.dir)
    ensures Move1(y, m).wire.ops == y.wire.ops
  {
    hide Base, Submit, Readable, SubmitRefusal, Serve, LinesTo;
  }

  lemma AwaitNone(s: State)
    requires Base(s)
    ensures Await(s, []) == s
  {
    hide Base;
  }

  // ---- progress ------------------------------------------------------------------------

  /** A worker has a line to read, or the director has one from it, or it is gone. */
  ghost predicate Ripe(y: System, c: Worker) {
    ServedBy(y.wire, c) < |LinesTo(y.dir.sent, c)| || UnreadOf(y.wire, c) != [] || c in y.wire.torn
  }

  lemma FlightIsRipe(y: System, c: Worker)
    requires Base(y.dir) && Sound(y.dir, y.wire, {}) && c in y.dir.inflight
    ensures c in y.dir.workers && Ripe(y, c)
  {
    hide Base, LinesTo, AnswerTo, Faithful, AllFit;
    Fresh(y.dir);
    LinkOf(y.dir, y.wire, c);
  }

  // ---- with no faults ------------------------------------------------------------------

  /** No spawn or write fails and no worker goes away. */
  predicate Calm(ms: seq<Move>) {
    forall i :: 0 <= i < |ms| ==>
      match ms[i]
      case Give(_, env) => env == []
      case Work(_) => true
      case Crash(_) => false
      case Snap(_, _) => false
      case Poll(_, info, _, env) => info && env == []
  }

  ghost predicate AllClean(ops: Ops, items: seq<Value>) {
    forall k :: 0 <= k < |items| ==> CleanItem(ops, items[k], k)
  }

  /** Every batch handed over is clean. */
  ghost predicate CleanMoves(ops: Ops, ms: seq<Move>) {
    forall i :: 0 <= i < |ms| && ms[i].Give? ==> AllClean(ops, ms[i].items)
  }

  /** Nobody is gone, and the batch is clean. */
  ghost predicate AllWell(w: Wire) {
    w.crashed == {} && w.torn == {} && AllClean(w.ops, w.items)
  }

  predicate Untried(s: State) {
    s.dead == 0 && s.tries == map[] && !s.fatal && s.accused == [] && s.phantoms == 0
  }

  lemma CalmFeed(s: State, w: Wire, c: Worker)
    requires Base(s) && c in s.workers && Faithful(s.pending, s.inflight, s.results, w.ops, w.items)
    requires AllFit(w.ops, w.items) && Untried(s)
    ensures Untried(Feed(s, c, []).0) && Feed(s, c, []).1 == [] && c in Feed(s, c, []).0.workers
  {
    hide Base, AllFit, True;
    if s.pending != [] { RequestLine(w, s.pending[0]); }
  }

  lemma CalmRead(s: State, w: Wire, c: Worker, ls: seq<string>)
    requires Base(s) && Sound(s, w, {c}) && Untried(s) && c in s.workers && AllWell(w)
    requires Flow(w.ops, s.inflight, LinesTo(s.sent, c), ServedBy(w, c), ls + UnreadOf(w, c), c in w.torn, c)
    ensures Untried(ReadLoop(s, c, Lines(ls), false, []).0)
  {
    hide Base, Linked, Faithful, AllFit, Take, Answers, ReplyIn, Feed, Died, LinesTo, AnswerTo;
    hide AllClean;
    if ls != [] {
      var item := OneLine(s, w, c, ls);
      OwnItem(s, w, c);
      OwnClean(w, item);
      ReplyTaken(s, w, c, ls);
      AnswersOne(s, c, ReplyIn(ls[0]).value);
      var t := Take(s, c, ReplyIn(ls[0]).value);
      TakeUntried(s, c, ReplyIn(ls[0]).value);
      CalmFeed(t, w, c);
      assert Lines(ls)[0] == Line(ls[0]) && Lines(ls)[1..] == [];
      ReadsNoMore(Feed(t, c, []).0, c);
    }
  }

  lemma OwnClean(w: Wire, item: Item)
    requires Own(w.items, item) && AllClean(w.ops, w.items)
    ensures item.request.Dict? && Clean(w.ops, item.request)
  {
    hide Clean, Stamped;
    assert CleanItem(w.ops, w.items[item.id], item.id);
  }

  lemma TakeUntried(s: State, c: Worker, v: Value)
    requires c in s.inflight && Untried(s)
    ensures Untried(Take(s, c, v))
  {
  }

  lemma ReadsNoMore(s: State, c: Worker)
    requires Base(s) && c in s.workers
    ensures ReadLoop(s, c, [], false, []).0 == CheckDone(s)
  {
    hide Base;
  }

  lemma {:induction false} CalmFeedAll(s: State, w: Wire, cs: seq<Worker>)
    requires Base(s) && Distinct(cs) && forall i :: 0 <= i < |cs| ==> cs[i] in s.workers
    requires NoneBusy(cs, s.inflight) && Sound(s, w, {}) && Untried(s)
    ensures Untried(FeedAll(s, cs, []).0)
    decreases |cs|
  {
    hide Base, Feed, Linked, Faithful, AllFit, Untried;
    if cs != [] {
      var rest := cs[1..];
      assert forall i :: 0 <= i < |rest| ==> rest[i] == cs[i + 1];
      FeedSound(s, w, cs[0], []);
      FeedSpares(s, cs[0], []);
      CalmFeed(s, w, cs[0]);
      CalmFeedAll(Feed(s, cs[0], []).0, w, rest);
    }
  }

  lemma FiledUntried(s: State, items: seq<Value>)
    requires Untried(s)
    ensures Untried(Filed(s, items))
  {
  }

  lemma NotYet(s: State, items: seq<Value>)
    requires SubmitRefusal(s, items).None?
    ensures !s.once
  {
  }

  lemma CalmMove(y: System, m: Move)
    requires Base(y.dir) && Sound(y.dir, y.wire, {}) && Untried(y.dir) && AllWell(y.wire) && Calm([m])
    requires m.Give? ==> AllGiven(y.wire.ops, m.items) && AllClean(y.wire.ops, m.items)
    ensures Untried(Move1(y, m).dir) && AllWell(Move1(y, m).wire)
  {
    hide Base, Linked, Faithful, AllFit, AllGiven, AllClean, ReadLoop, FeedAll, Filed, LinesTo, Serve, SubmitRefusal;
    assert [m][0] == m;
    match m
    case Give(items, env) =>
      if SubmitRefusal(y.dir, items).None? {
        GivenIsFit(y.wire.ops, y.dir, items);
        NotYet(y.dir, items);
        FiledIsBase(y.dir, items);
        FiledFrame(y.dir, items);
        FiledSound(y.dir, y.wire, items);
        FiledUntried(y.dir, items);
        CalmFeedAll(Filed(y.dir, items), y.wire.(items := items), y.dir.workers);
      }
    case Work(c) =>
    case Crash(c) =>
    case Poll(c, info, k, env) =>
      if c in y.dir.workers {
        var u := UnreadOf(y.wire, c);
        var n := if k < |u| then k else |u|;
        var v := Move1(y, m).wire;
        assert u == u[..n] + u[n..];
        Fresh(y.dir);
        LinkOf(y.dir, y.wire, c);
        Relink(y.dir, y.wire, v, c);
        CalmRead(y.dir, v, c, u[..n]);
      }
  }

  lemma {:induction false} CalmMoves(y: System, ms: seq<Move>)
    requires Base(y.dir) && Sound(y.dir, y.wire, {}) && Untried(y.dir) && AllWell(y.wire) && Calm(ms)
    requires GivenMoves(y.wire.ops, ms) && CleanMoves(y.wire.ops, ms)
    ensures Untried(Moves(y, ms).dir)
    decreases |ms|
  {
    hide Base, Sound, Move1, AllGiven, AllClean, Untried, AllWell;
    if ms != [] {
      MoveSound(y, ms[0]);
      Move1Base(y, ms[0]);
      assert Calm([ms[0]]) && Calm(ms[1..]);
      assert forall i :: 0 <= i < |ms[1..]| ==> ms[1..][i] == ms[i + 1];
      CalmMove(y, ms[0]);
      CalmMoves(Move1(y, ms[0]), ms[1..]);
    }
  }

  /** Without faults, and the batch being clean, nobody dies, nobody is accused, and every
      reply is its item's outcome. */
  lemma {:induction false} CalmEndToEnd(ops: Ops, width: nat, maxtries: nat, ms: seq<Move>)
    requires width >= 1 && maxtries >= 1 && GivenMoves(ops, ms) && CleanMoves(ops, ms) && Calm(ms)
    ensures Base(Started(ops, width, maxtries).dir)
    ensures var z := Moves(Started(ops, width, maxtries), ms);
      && z.dir.dead == 0 && z.dir.accused == [] && z.dir.phantoms == 0
      && forall k :: 0 <= k < |z.dir.results| ==>
           && z.dir.results[k].Answer? && True(ops, z.wire.items, z.dir.results[k])
           && Telling(ops, z.wire.items, z.dir.results[k])
  {
    hide Base, Moves, AllGiven, AllClean, True, Telling, Calm;
    var y := Started(ops, width, maxtries);
    EndToEnd(ops, width, maxtries, ms);
    StartedSound(ops, width, maxtries);
    NoneUnclean(ops);
    CalmMoves(y, ms);
    var z := Moves(y, ms);
    forall k | 0 <= k < |z.dir.results| ensures z.dir.results[k].Answer? {
      NotPoisoned(z.dir, k);
    }
  }

  lemma NoneUnclean(ops: Ops)
    ensures AllClean(ops, [])
  {
  }

  lemma NotPoisoned(s: State, k: nat)
    requires Base(s) && Untried(s) && k < |s.results|
    ensures s.results[k].Answer?
  {
    PoisonedAtMax(s, k);
  }

  // ---- which items are fit ---------------------------------------------------------------

  lemma {:induction false} PutHeight(ps: seq<Pair>, key: string, val: Value)
    ensures PairsHeight(Put(ps, key, val)) <= Max(PairsHeight(ps), Height(val))
  {
    hide Height;
    if ps != [] && ps[0].key != key {
      PutHeight(ps[1..], key, val);
      assert Put(ps, key, val)[0] == ps[0] && Put(ps, key, val)[1..] == Put(ps[1..], key, val);
    } else if ps == [] {
      assert Put(ps, key, val)[1..] == [];
    } else {
      assert Put(ps, key, val)[1..] == ps[1..];
    }
  }

  /** Whatever submit accepts is a request the director can write: the item's fields, and
      the id. */
  lemma AcceptedItemIsRequest(v: Value, k: nat)
    requires Submittable(v) && WellFormed(v)
    ensures Request(Stamped(v, k), k)
    ensures forall key :: key != "id" ==> Get(Stamped(v, k).pairs, key) == Get(v.pairs, key)
  {
    hide JsonEmit.Refused;
    var id := Scalar(Decimal.Numeral(k));
    FitsIff(v);
    FitsIff(Stamped(v, k));
    PutHeight(v.pairs, "id", id);
    PutKeepsKeysDistinct(v.pairs, "id", id);
    GetAfterPut(v.pairs, "id", id, "id");
    forall key | key != "id" ensures Get(Stamped(v, k).pairs, key) == Get(v.pairs, key) {
      GetAfterPut(v.pairs, "id", id, key);
    }
    assert v.pairs != [];
    assert PairsHeight(v.pairs) >= 1;
    var qs := Put(v.pairs, "id", id);
    forall i | 0 <= i < |qs| ensures Plain(qs[i].val) && WellFormed(qs[i].val) {
      assert qs[i].val == id || (i < |v.pairs| && qs[i] == v.pairs[i]);
    }
  }

  /** An item submit accepts although the worker can never read it: the decoder refuses
      U+0000, so it costs maxtries workers and comes back as poison. */
  lemma AcceptedButUnreadable(ops: Ops, k: nat)
    ensures var v := Dict([Pair("op", Scalar("a\0"))]);
      && Submittable(v) && WellFormed(v)
      && Accepted(AnswerTo(ops, JsonEmit.Text(Stamped(v, k))), k).None?
  {
    hide AnswerTo, Accepted, Perform;
    var v := Dict([Pair("op", Scalar("a\0"))]);
    FitsIff(v);
    assert PairsHeight(v.pairs) == 1 by { assert v.pairs[1..] == []; }
    AcceptedItemIsRequest(v, k);
    var r := Stamped(v, k);
    assert r.pairs[0] == v.pairs[0] && !NoNul("a\0") by { assert "a\0"[1] == '\0'; }
    RequestIsLost(ops, r, k);
    ParseRefusal();
    StrayReply(Sendable(Refusal(NO_ID, "parse", "request is not valid JSON")), k);
    LostAnswer(ops, r);
  }

  lemma LostAnswer(ops: Ops, r: Value)
    requires Dispatch(ops, JsonEmit.Text(r)) == Dispatched.Reply(Refusal(NO_ID, "parse", "request is not valid JSON"))
    ensures AnswerTo(ops, JsonEmit.Text(r))
         == JsonEmit.Text(Sendable(Refusal(NO_ID, "parse", "request is not valid JSON")))
  {
    hide Dispatch, JsonEmit.Text;
  }
}
