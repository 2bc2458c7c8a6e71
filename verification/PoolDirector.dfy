/** The director: PoolFeed and PoolDied, the readable handler, submit and wait,
    as functions on the state, and what every run of them keeps.

    `env` lists how the next spawns and pipe writes turn out, in order; a call
    past its end succeeds. */
module PoolDirector {
  import opened TclValues
  import opened PoolState
  import JsonEmit
  import JsonReader
  import Decimal

  type Outcomes = seq<bool>

  function Next(env: Outcomes): bool {
    env == [] || env[0]
  }

  function Later(env: Outcomes): Outcomes {
    if env == [] then [] else env[1..]
  }

  /** `json encode -plain` takes it. */
  predicate Encodable(v: Value) {
    JsonEmit.Refused(v, 0) == None
  }

  /** What no move of the director ever changes. */
  predicate SameBatch(s: State, t: State) {
    t.width == s.width && t.maxtries == s.maxtries && t.submitted == s.submitted && t.once == s.once
  }

  ghost function SlackOf(s: State): nat {
    Slack(s.tries, s.maxtries, s.submitted)
  }

  /** A request line reached the worker's pipe. */
  ghost function Send(s: State, c: Worker, v: Value): State {
    s.(sent := s.sent + [Sent(c, JsonEmit.Text(v))])
  }

  /** PoolFeed. */
  ghost function Feed(s: State, c: Worker, env: Outcomes): (r: (State, Outcomes))
    requires Base(s) && c in s.workers
    ensures Base(r.0) && SameBatch(s, r.0)
    decreases SlackOf(s), 1
  {
    hide Base, CheckDone, Slack;
    if c in s.inflight then (s, env)
    else if s.pending == [] then Settle(s); (CheckDone(s), env)
    else
      var h := Hand(s, c);
      HandKeeps(s, c);
      if !Encodable(s.pending[0].request) then Died(h, c, env)
      else if Next(env) then
        SendKeeps(h, c, s.pending[0].request);
        (Send(h, c, s.pending[0].request), Later(env))
      else Died(h, c, Later(env))
  }

  /** PoolDied. */
  ghost function Died(s: State, c: Worker, env: Outcomes): (r: (State, Outcomes))
    requires Base(s)
    ensures Base(r.0) && SameBatch(s, r.0)
    decreases SlackOf(s), if c in s.inflight then 0 else 2
  {
    hide Base, Lost, CheckDone, Slack;
    if c !in s.workers then (s, env)
    else
      var t := Lost(s, c);
      LostKeeps(s, c);
      LostFrame(s, c);
      if t.pending == [] then Settle(t); (CheckDone(t), env)
      else if Next(env) then
        SpawnKeeps(t);
        var u := Feed(Spawn(t), t.nextWorker, Later(env));
        Settle(u.0);
        (CheckDone(u.0), u.1)
      else
        QueueIsSubmitted(t);
        FatalKeeps(t);
        Settle(t.(fatal := true, done := true));
        (CheckDone(t.(fatal := true, done := true)), Later(env))
  }

  lemma DiesOnce(s: State, c: Worker, env: Outcomes)
    requires Base(s) && c !in s.workers
    ensures Died(s, c, env) == (s, env)
  {
    hide Base;
  }

  lemma Settle(s: State)
    requires Base(s)
    ensures Base(CheckDone(s)) && SameBatch(s, CheckDone(s))
  {
    hide Base;
    CheckDoneKeeps(s);
  }

  lemma LostFrame(s: State, c: Worker)
    requires Base(s)
    ensures SameBatch(s, Lost(s, c)) && |s.workers| <= s.width
    ensures Lost(s, c).nextWorker == s.nextWorker && Lost(s, c).fatal == s.fatal
  {
    hide Conserved, Bounded, Tallied;
  }

  lemma SendKeeps(s: State, c: Worker, v: Value)
    requires Base(s)
    ensures Base(Send(s, c, v))
  {
    hide Crew, Conserved, Bounded, Tallied;
  }

  // ---- the readable handler -----------------------------------------------------

  /** What one `gets` gave: bytes that are not UTF-8, or a line. */
  datatype Got = Raised | Line(text: string)

  /** The Tcl string form of v is the decimal text of id. A one-element list of a plain
      word has that word's form; a dict or a longer list has a space in its own. */
  predicate SpellsId(v: Value, id: nat)
    decreases v
  {
    match v
    case Scalar(t) => t == Decimal.Numeral(id)
    case List(es) => |es| == 1 && SpellsId(es[0], id)
    case _ => false
  }

  /** The reply a line holds, or None for a malformed one. */
  ghost function ReplyIn(line: string): Option<Value> {
    match JsonReader.Decode(line)
    case Ok(v) =>
      if Encodable(v) && JsonEmit.Text(v)[..1] == "{" && v.Dict?
         && Get(v.pairs, "id").Some? && Get(v.pairs, "ok").Some? then Some(v) else None
    case _ => None
  }

  /** The reply answers what c has in flight. */
  ghost predicate Answers(s: State, c: Worker, v: Value) {
    && c in s.inflight
    && v.Dict? && Get(v.pairs, "id").Some?
    && SpellsId(Get(v.pairs, "id").value, s.inflight[c].id)
  }

  function Accuse(s: State, c: Worker): State {
    s.(accused := s.accused + [c])
  }

  /** Once a feed has buried c its channel is closed: the next `gets` raises, which is
      noted as a reply that is not UTF-8, and the PoolDied that follows has nothing left to do. */
  function Note(s: State, c: Worker): State {
    if c in s.workers then s else s.(phantoms := s.phantoms + 1)
  }

  lemma NoteKeeps(s: State, c: Worker)
    requires Base(s)
    ensures Base(Note(s, c)) && SameBatch(s, Note(s, c))
  {
    hide Crew, Conserved, Bounded, Tallied;
  }

  /** PoolReadable's loop. */
  ghost function ReadLoop(s: State, c: Worker, gets: seq<Got>, eof: bool, env: Outcomes): (r: (State, Outcomes))
    requires Base(s)
    ensures Base(r.0) && SameBatch(s, r.0)
    decreases |gets|
  {
    hide Base, CheckDone, Take, Answers, ReplyIn, Feed, Died, Note;
    if c !in s.workers then (s, env)
    else if gets == [] then
      if eof then Died(s, c, env) else Settle(s); (CheckDone(s), env)
    else if gets[0] == Raised then AccuseKeeps(s, c); Died(Accuse(s, c), c, env)
    else if gets[0].text == "" then ReadLoop(s, c, gets[1..], eof, env)
    else
      var rep := ReplyIn(gets[0].text);
      if rep.None? || !Answers(s, c, rep.value) then AccuseKeeps(s, c); Died(Accuse(s, c), c, env)
      else
        AnswersOne(s, c, rep.value);
        var f := Feed(Take(s, c, rep.value), c, env);
        NoteKeeps(f.0, c);
        ReadLoop(Note(f.0, c), c, gets[1..], eof, f.1)
  }

  lemma AccuseKeeps(s: State, c: Worker)
    requires Base(s)
    ensures Base(Accuse(s, c))
  {
    hide Crew, Conserved, Bounded, Tallied;
  }

  lemma AnswersOne(s: State, c: Worker, v: Value)
    requires Base(s) && Answers(s, c, v)
    ensures c in s.inflight && Base(Take(s, c, v)) && SameBatch(s, Take(s, c, v))
    ensures c in Take(s, c, v).workers && c !in Take(s, c, v).inflight
  {
    hide Conserved, Bounded, Tallied;
    TakeKeeps(s, c, v);
  }

  /** PoolReadable; `info` says whether `child info` still knew c's channels, as it does only
      of a worker not yet buried. */
  ghost function Readable(s: State, c: Worker, info: bool, gets: seq<Got>, eof: bool, env: Outcomes)
    : (r: (State, Outcomes))
    requires Base(s)
    ensures Base(r.0) && SameBatch(s, r.0)
  {
    if info then ReadLoop(s, c, gets, eof, env) else Died(s, c, env)
  }

  // ---- submit ---------------------------------------------------------------------

  /** What submit asks of one item. */
  predicate Submittable(v: Value) {
    v.Dict? && Get(v.pairs, "op").Some? && Encodable(v)
  }

  /** `dict set it id $next`. */
  function Stamped(v: Value, id: nat): Value {
    if v.Dict? then Dict(Put(v.pairs, "id", Scalar(Decimal.Numeral(id)))) else v
  }

  /** The items under consecutive ids. */
  function Stamp(items: seq<Value>, next: nat): (r: seq<Item>)
    ensures |r| == |items|
    ensures forall i :: 0 <= i < |r| ==> r[i] == Item(next + i, Stamped(items[i], next + i))
  {
    if items == [] then [] else [Item(next, Stamped(items[0], next))] + Stamp(items[1..], next + 1)
  }

  datatype SubmitError = Usage | BadValue

  function SubmitRefusal(s: State, items: seq<Value>): Option<SubmitError> {
    if s.once then Some(Usage)
    else if exists i :: 0 <= i < |items| && !Submittable(items[i]) then Some(BadValue)
    else None
  }

  /** The accepted batch, before any worker is fed. */
  function Filed(s: State, items: seq<Value>): State
  {
    s.(pending := s.pending + Stamp(items, s.submitted), submitted := s.submitted + |items|,
       once := true, done := false)
  }

  ghost function FeedAll(s: State, cs: seq<Worker>, env: Outcomes): (r: (State, Outcomes))
    requires Base(s) && Distinct(cs) && forall i :: 0 <= i < |cs| ==> cs[i] in s.workers
    ensures Base(r.0) && SameBatch(s, r.0)
    decreases |cs|
  {
    hide Base, Feed, CheckDone;
    if cs == [] then (s, env)
    else
      var f := Feed(s, cs[0], env);
      FeedSpares(s, cs[0], env);
      assert forall i :: 0 <= i < |cs[1..]| ==> cs[1..][i] == cs[i + 1];
      FeedAll(f.0, cs[1..], f.1)
  }

  /** Feeding one worker neither buries nor feeds another that was there before. */
  lemma {:induction false} FeedSpares(s: State, c: Worker, env: Outcomes)
    requires Base(s) && c in s.workers
    ensures var t := Feed(s, c, env).0;
      forall d :: d in s.workers && d != c ==> d in t.workers && (d in t.inflight <==> d in s.inflight)
    decreases SlackOf(s), 1
  {
    hide Base, Slack;
    if c !in s.inflight && s.pending != [] {
      HandKeeps(s, c);
      DiedSpares(Hand(s, c), c, if Encodable(s.pending[0].request) then Later(env) else env);
    }
  }

  lemma {:induction false} DiedSpares(s: State, c: Worker, env: Outcomes)
    requires Base(s) && c in s.workers
    ensures var t := Died(s, c, env).0;
      forall d :: d in s.workers && d != c ==> d in t.workers && (d in t.inflight <==> d in s.inflight)
    decreases SlackOf(s), if c in s.inflight then 0 else 2
  {
    hide Base, Slack, Lost, Feed;
    var t := Lost(s, c);
    LostKeeps(s, c);
    LostFrame(s, c);
    LostLeaves(s, c);
    if t.pending != [] && Next(env) {
      SpawnKeeps(t);
      var u := Spawn(t);
      assert u.workers[|t.workers|] == t.nextWorker;
      assert forall d :: d in t.workers ==> d in u.workers;
      assert t.nextWorker !in t.workers by { Fresh(t); }
      FeedSpares(u, t.nextWorker, Later(env));
    }
  }

  lemma Fresh(s: State)
    requires Base(s)
    ensures forall c :: c in s.workers ==> c < s.nextWorker
    ensures forall c :: c in s.inflight ==> c in s.workers
  {
    hide Conserved, Bounded, Tallied;
  }

  lemma LostLeaves(s: State, c: Worker)
    requires Base(s)
    ensures forall d :: d in Lost(s, c).workers <==> d in s.workers && d != c
    ensures Lost(s, c).inflight == s.inflight - {c}
  {
    hide Conserved, Bounded, Tallied;
    WithoutOne(s.workers, c);
  }

  // ---- runs -----------------------------------------------------------------------

  lemma StampHead(items: seq<Value>, k: nat)
    requires items != []
    ensures Ids(Stamp(items, k)) == multiset{k} + Ids(Stamp(items[1..], k + 1))
  {
    var rest := Stamp(items[1..], k + 1);
    assert ([Item(k, Stamped(items[0], k))] + rest)[1..] == rest;
  }

  lemma Shift(a: multiset<nat>, b: multiset<nat>, k: nat)
    ensures multiset{k} + a + b == a + (b + multiset{k})
  {
  }

  lemma EachNext(k: nat)
    ensures Each(k + 1) == Each(k) + multiset{k}
  {
  }

  lemma {:induction false} StampIds(items: seq<Value>, k: nat)
    ensures Ids(Stamp(items, k)) + Each(k) == Each(k + |items|)
  {
    hide Ids, Each, Stamp;
    if items == [] {
      StampNone(k);
    } else {
      StampIds(items[1..], k + 1);
      StampHead(items, k);
      EachNext(k);
      Shift(Ids(Stamp(items[1..], k + 1)), Each(k), k);
      assert k + 1 + |items[1..]| == k + |items|;
    }
  }

  lemma StampNone(k: nat)
    ensures Ids(Stamp([], k)) == multiset{}
  {
  }

  lemma IdsSome(xs: seq<Item>)
    ensures xs != [] ==> Ids(xs) != multiset{}
  {
    if xs != [] { assert xs[0].id in Ids(xs); }
  }

  lemma FlightSome(m: map<Worker, Item>)
    ensures m != map[] ==> FlightIds(m) != multiset{}
  {
    if c :| c in m { FlightInside(m, c); }
  }

  lemma RepliesSome(rs: seq<Reply>)
    ensures rs != [] ==> ReplyIds(rs) != multiset{}
  {
    if rs != [] { assert rs[|rs| - 1].id in ReplyIds(rs); }
  }

  lemma Nowhere(pending: seq<Item>, infl: map<Worker, Item>, results: seq<Reply>)
    requires Conserved(pending, infl, results, 0)
    ensures pending == [] && infl == map[] && results == []
  {
    hide Ids, FlightIds, ReplyIds;
    IdsSome(pending);
    FlightSome(infl);
    RepliesSome(results);
    NonePart(Ids(pending), FlightIds(infl), ReplyIds(results));
  }

  lemma NonePart(a: multiset<nat>, b: multiset<nat>, c: multiset<nat>)
    requires a + b + c == multiset{}
    ensures a == multiset{} && b == multiset{} && c == multiset{}
  {
    assert |a| + |b| + |c| == |a + b + c|;
  }

  lemma NothingYet(s: State)
    requires Base(s) && !s.once
    ensures s.pending == [] && s.inflight == map[] && s.results == [] && s.tries == map[] && s.requeued == 0
  {
    hide Crew, Conserved;
    Nowhere(s.pending, s.inflight, s.results);
  }

  lemma QueueIsSubmitted(s: State)
    requires Base(s) && s.pending != []
    ensures s.once
  {
    hide Base;
    if !s.once { NothingYet(s); }
  }

  lemma FiledIsBase(s: State, items: seq<Value>)
    requires Base(s) && !s.once
    ensures Base(Filed(s, items))
  {
    hide Stamp, Conserved;
    NothingYet(s);
    NoTries(|items|);
    FiledConserves(items);
  }

  lemma FiledConserves(items: seq<Value>)
    ensures Conserved([] + Stamp(items, 0), map[], [], |items|)
  {
    StampIds(items, 0);
    assert [] + Stamp(items, 0) == Stamp(items, 0);
  }

  /** PoolSubmit. */
  ghost function Submit(s: State, items: seq<Value>, env: Outcomes): (r: (State, Outcomes))
    requires Base(s)
    ensures Base(r.0)
  {
    hide Base, FeedAll, Filed;
    if SubmitRefusal(s, items).Some? then (s, env)
    else
      FiledIsBase(s, items);
      FiledFrame(s, items);
      FeedAll(Filed(s, items), s.workers, env)
  }

  lemma NoneBefore(xs: seq<Item>)
    ensures [] + xs == xs
  {
  }

  lemma FiledFrame(s: State, items: seq<Value>)
    requires Base(s) && !s.once
    ensures Filed(s, items).workers == s.workers && Distinct(s.workers)
    ensures Filed(s, items).inflight == map[] && Filed(s, items).pending == Stamp(items, 0)
    ensures !Filed(s, items).done && Filed(s, items).once && Filed(s, items).submitted == |items|
    ensures Filed(s, items).fatal == s.fatal && Filed(s, items).dead == s.dead && Filed(s, items).tries == map[]
    ensures s.tries == map[] && Filed(s, items).width == s.width
  {
    hide Stamp, Conserved, Bounded, Tallied;
    NothingYet(s);
    NoneBefore(Stamp(items, 0));
  }

  datatype Event =
    | Batch(items: seq<Value>, env: Outcomes)
    | Ready(c: Worker, info: bool, gets: seq<Got>, eof: bool, env: Outcomes)

  ghost function Step(s: State, e: Event): (t: State)
    requires Base(s)
    ensures Base(t)
  {
    match e
    case Batch(items, env) => Submit(s, items, env).0
    case Ready(c, info, gets, eof, env) => Readable(s, c, info, gets, eof, env).0
  }

  ghost function Run(s: State, es: seq<Event>): (t: State)
    requires Base(s)
    ensures Base(t)
    decreases |es|
  {
    hide Base, Step;
    if es == [] then s else Run(Step(s, es[0]), es[1..])
  }
}
