/** The procs of the pool: one object's fields rewritten step by step, each proc proved
    to leave behind the state its function in PoolDirector or PoolMachine gives. */
module PoolProcs {
  import opened TclValues
  import opened PoolState
  import opened PoolDirector
  import opened PoolMachine
  import JsonEmit
  import JsonReader

  datatype Created = Made(director: Director) | BadOption | CannotLaunch

  /** Spawning k workers: how many come up before the first failure. */
  function Spawns(k: nat, env: Outcomes): nat {
    if k == 0 || !Next(env) then 0 else 1 + Spawns(k - 1, Later(env))
  }

  class Director {
    /** The pool's dict; every proc rewrites its keys one at a time. */
    var pool: State

    /** How the next spawns and writes will turn out. */
    var env: Outcomes

    /** The dict PoolCreate makes, before any worker. */
    constructor (width: nat, maxtries: nat, env: Outcomes)
      ensures pool == Launched(width, maxtries, 0)
      ensures this.env == env
    {
      pool := State(width, maxtries, [], map[], [], [], 0, map[], 0, 0, 0, false, false, true, [], [], 0);
      this.env := env;
    }

    /** The operating system's answer to the next spawn or write. */
    method Outcome() returns (ok: bool)
      modifies this`env
      ensures ok == Next(old(env)) && env == Later(old(env))
    {
      ok := env == [] || env[0];
      if env != [] { env := env[1..]; }
    }

    method PoolSpawn() returns (ok: bool, c: Worker)
      modifies this
      ensures ok == Next(old(env)) && env == Later(old(env))
      ensures pool == if ok then Spawn(old(pool)) else old(pool)
      ensures ok ==> c == old(pool.nextWorker)
    {
      ok := Outcome();
      c := pool.nextWorker;
      if ok {
        pool := pool.(nextWorker := pool.nextWorker + 1);
        pool := pool.(workers := pool.workers + [c]);
      }
    }

    method PoolCheckDone()
      modifies this`pool
      ensures pool == CheckDone(old(pool))
    {
      if pool.pending == [] && pool.inflight == map[] { pool := pool.(done := true); }
    }

    method PoolRequeue(c: Worker, infl: map<Worker, Item>)
      modifies this
      ensures pool == Requeue(old(pool), c, infl) && env == old(env)
    {
      if c !in infl { return; }
      var item := infl[c];
      var t := if item.id in pool.tries then pool.tries[item.id] else 0;
      t := t + 1;
      pool := pool.(tries := pool.tries[item.id := t]);
      if t < pool.maxtries {
        pool := pool.(pending := [item] + pool.pending);
        pool := pool.(requeued := pool.requeued + 1);
      } else {
        pool := pool.(results := pool.results + [Poison(item.id, t)]);
      }
    }

    /** lsearch -all -inline -not -exact. */
    method RemoveWorker(c: Worker)
      modifies this`pool
      ensures pool == old(pool).(workers := Without(old(pool.workers), c))
    {
      var kept: seq<Worker> := [];
      var workers := pool.workers;
      for i := 0 to |workers|
        invariant pool == old(pool)
        invariant kept + Without(workers[i..], c) == Without(workers, c)
      {
        assert workers[i..][0] == workers[i] && workers[i..][1..] == workers[i + 1..];
        if workers[i] != c { kept := kept + [workers[i]]; }
      }
      assert workers[|workers|..] == [];
      pool := pool.(workers := kept);
    }

    method PoolDied(c: Worker)
      requires Base(pool)
      modifies this
      ensures (pool, env) == Died(old(pool), c, old(env))
      decreases SlackOf(pool), if c in pool.inflight then 0 else 2
    {
      hide Base, Slack, Feed, CheckDone, Requeue, Without;
      if c !in pool.workers { return; }
      LostKeeps(pool, c);
      LostFrame(pool, c);
      RemoveWorker(c);
      pool := pool.(dead := pool.dead + 1);
      var infl := pool.inflight;
      pool := pool.(inflight := infl - {c});
      PoolRequeue(c, infl);
      assert pool == Lost(old(pool), c);
      if pool.pending != [] {
        SpawnKeeps(pool);
        var ok, heir := PoolSpawn();
        if !ok {
          pool := pool.(fatal := true);
          pool := pool.(done := true);
        } else {
          PoolFeed(heir);
        }
      }
      PoolCheckDone();
    }

    method PoolFeed(c: Worker)
      requires Base(pool) && c in pool.workers
      modifies this
      ensures (pool, env) == Feed(old(pool), c, old(env))
      decreases SlackOf(pool), 1
    {
      hide Base, Slack, Died, CheckDone;
      if c in pool.inflight { return; }
      if pool.pending == [] {
        PoolCheckDone();
        return;
      }
      HandKeeps(pool, c);
      var item := pool.pending[0];
      pool := pool.(pending := pool.pending[1..]);
      pool := pool.(inflight := pool.inflight[c := item]);
      var ok := Write(c, item.request);
      if !ok { PoolDied(c); }
    }

    /** Encode, puts and flush, under the catch. */
    method Write(c: Worker, request: Value) returns (ok: bool)
      modifies this
      ensures ok == (Encodable(request) && Next(old(env)))
      ensures env == if Encodable(request) then Later(old(env)) else old(env)
      ensures pool == if ok then Send(old(pool), c, request) else old(pool)
    {
      JsonEmit.RefusedIffTypedOrDeep(request, 0);
      var line := JsonEmit.EncodePlain(request);
      if line.None? { return false; }
      ok := Outcome();
      if ok { pool := pool.(sent := pool.sent + [Sent(c, line.value)]); }
    }

    /** What a line from a worker says, under the catches of PoolReadable. */
    method ReadReply(line: string) returns (r: Option<Value>)
      ensures r == ReplyIn(line)
      ensures r.Some? ==> r.value.Dict? && Get(r.value.pairs, "id").Some?
    {
      var d := JsonReader.Decode(line);
      if !d.Ok? { return None; }
      JsonEmit.RefusedIffTypedOrDeep(d.v, 0);
      var encoded := JsonEmit.EncodePlain(d.v);
      if encoded.None? || encoded.value == "" || encoded.value[0] != '{' { return None; }
      if !d.v.Dict? || Get(d.v.pairs, "id").None? || Get(d.v.pairs, "ok").None? { return None; }
      return Some(d.v);
    }

    method PoolReadable(c: Worker, info: bool, gets: seq<Got>, eof: bool)
      requires Base(pool)
      modifies this
      ensures (pool, env) == Readable(old(pool), c, info, gets, eof, old(env))
    {
      hide Base, Feed, Died, CheckDone, Answers, ReplyIn, SpellsId;
      if !info || c !in pool.workers {
        if c !in pool.workers { DiesOnce(pool, c, env); }
        PoolDied(c);
        return;
      }
      var i := 0;
      ghost var result := ReadLoop(pool, c, gets, eof, env);
      while i < |gets|
        invariant i <= |gets| && c in pool.workers
        invariant Base(pool)
        invariant ReadLoop(pool, c, gets[i..], eof, env) == result
      {
        var got := gets[i];
        assert gets[i..][0] == got && gets[i..][1..] == gets[i + 1..];
        i := i + 1;
        if got.Raised? {
          Blame(c);
          return;
        }
        if got.text == "" { continue; }
        var rep := ReadReply(got.text);
        if rep.None? {
          Blame(c);
          return;
        }
        var ours := IsOurs(c, rep.value);
        if !ours {
          Blame(c);
          return;
        }
        AnswersOne(pool, c, rep.value);
        ghost var before := pool;
        pool := pool.(results := pool.results + [Answer(pool.inflight[c].id, rep.value)]);
        pool := pool.(inflight := pool.inflight - {c});
        assert pool == Take(before, c, rep.value);
        PoolFeed(c);
        if c !in pool.workers {
          // the channel is closed, and gets raises
          NoteKeeps(pool, c);
          pool := pool.(phantoms := pool.phantoms + 1);
          DiesOnce(pool, c, env);
          PoolDied(c);
          return;
        }
      }
      if eof { PoolDied(c); return; }
      PoolCheckDone();
    }

    /** The reply's id is, as text, the id of what c has in flight. */
    method IsOurs(c: Worker, rep: Value) returns (ok: bool)
      requires rep.Dict? && Get(rep.pairs, "id").Some?
      ensures ok == Answers(pool, c, rep)
    {
      ok := c in pool.inflight && SpellsId(Get(rep.pairs, "id").value, pool.inflight[c].id);
    }

    /** A protocol error of a live worker: noted, and the worker given up. */
    method Blame(c: Worker)
      requires Base(pool)
      modifies this
      ensures (pool, env) == Died(Accuse(old(pool), c), c, old(env))
    {
      hide Base, Died;
      AccuseKeeps(pool, c);
      pool := pool.(accused := pool.accused + [c]);
      PoolDied(c);
    }

    /** One event of the loop: a readable handler, or the script's submit. */
    method Handle(e: Event)
      requires Base(pool)
      modifies this
      ensures pool == Step(old(pool), e)
    {
      hide Base, Submit, Readable;
      env := e.env;
      match e
      case Batch(items, _) =>
        var refused := PoolSubmit(items);
      case Ready(c, info, gets, eof, _) =>
        PoolReadable(c, info, gets, eof);
    }

    /** The timer fires after the last of the arrivals. */
    method PoolWait(arrivals: seq<Event>) returns (w: Waited)
      requires Base(pool)
      modifies this
      ensures w == Wait(old(pool), arrivals)
      ensures pool == if old(pool.fatal) then old(pool) else Await(old(pool), arrivals)
      ensures w.LaunchFailed? <==> pool.fatal
      ensures w.TimedOut? <==> !pool.done
      ensures w.TimedOut? ==> w.inflight == |pool.inflight|
    {
      hide Base, Step;
      FatalEnds(pool);
      if pool.fatal { return LaunchFailed; }
      var i := 0;
      ghost var last := Await(pool, arrivals);
      while !pool.done && i < |arrivals|
        invariant i <= |arrivals|
        invariant Base(pool) && Await(pool, arrivals[i..]) == last
      {
        assert arrivals[i..][0] == arrivals[i] && arrivals[i..][1..] == arrivals[i + 1..];
        Handle(arrivals[i]);
        i := i + 1;
      }
      FatalEnds(pool);
      if !pool.done { return TimedOut(|pool.inflight|); }
      if pool.fatal { return LaunchFailed; }
      var out := Collect();
      return Replies(out);
    }

    /** The replies sorted under their ids, then picked 0, 1, 2 and so on. */
    method Collect() returns (out: seq<Reply>)
      ensures out == InOrder(ById(pool.results), pool.submitted)
    {
      var rs := pool.results;
      var byid: map<nat, Reply> := map[];
      for i := 0 to |rs|
        invariant byid == ById(rs[..i])
      {
        assert rs[..i + 1][..i] == rs[..i];
        byid := byid[rs[i].id := rs[i]];
      }
      assert rs[..|rs|] == rs;
      out := [];
      for k := 0 to pool.submitted
        invariant out == InOrder(byid, k)
      {
        if k in byid { out := out + [byid[k]]; }
      }
    }

    static method PoolCreate(width: int, maxtries: int, env: Outcomes) returns (r: Created)
      ensures r.BadOption? <==> !(1 <= width <= 256 && 1 <= maxtries)
      ensures 1 <= width <= 256 && 1 <= maxtries ==> (r.Made? <==> Spawns(width, env) == width)
      ensures r.Made? ==> fresh(r.director) && r.director.pool == Launched(width, maxtries, width)
    {
      if width < 1 || width > 256 || maxtries < 1 { return BadOption; }
      var d := new Director(width, maxtries, env);
      for k := 0 to width
        invariant fresh(d) && d.pool == Launched(width, maxtries, k)
        invariant Spawns(width, env) == k + Spawns(width - k, d.env)
      {
        var ok, _ := d.PoolSpawn();
        if !ok { return CannotLaunch; }
        assert seq(k, i => i) + [k] == seq(k + 1, i => i);
      }
      return Made(d);
    }

    /** Submit's loop over the items: each is checked, then stamped with the next id. */
    method StampItems(items: seq<Value>) returns (ok: bool, pend: seq<Item>, next: nat)
      ensures ok <==> forall i :: 0 <= i < |items| ==> Submittable(items[i])
      ensures ok ==> pend == pool.pending + Stamp(items, pool.submitted) && next == pool.submitted + |items|
    {
      hide Submittable, Stamp, Stamped;
      pend, next := pool.pending, pool.submitted;
      for i := 0 to |items|
        invariant forall j :: 0 <= j < i ==> Submittable(items[j])
        invariant next == pool.submitted + i
        invariant pend == pool.pending + Stamp(items[..i], pool.submitted)
      {
        if !Submittable(items[i]) { return false, pend, next; }
        StampSnoc(items[..i], items[i], pool.submitted);
        assert items[..i] + [items[i]] == items[..i + 1];
        pend := pend + [Item(next, Stamped(items[i], next))];
        next := next + 1;
      }
      assert items[..|items|] == items;
      ok := true;
    }

    method PoolSubmit(items: seq<Value>) returns (refused: Option<SubmitError>)
      requires Base(pool)
      modifies this
      ensures refused == SubmitRefusal(old(pool), items)
      ensures refused == Some(Usage) <==> old(pool.once)
      ensures refused.None? <==> !old(pool.once) && forall i :: 0 <= i < |items| ==>
        items[i].Dict? && Get(items[i].pairs, "op").Some? && Plain(items[i]) && Height(items[i]) <= 512
      ensures refused.Some? ==> pool == old(pool)
      ensures refused.None? ==> pool.submitted == old(pool.submitted) + |items|
      ensures (pool, env) == Submit(old(pool), items, old(env))
    {
      hide Base, FeedAll, Stamp, Submittable;
      forall i | 0 <= i < |items| { SubmittableIs(items[i]); }
      if pool.once { return Some(Usage); }
      var ok, pend, next := StampItems(items);
      if !ok { return Some(SubmitError.BadValue); }
      FiledIsBase(pool, items);
      FiledFrame(pool, items);
      pool := pool.(pending := pend);
      pool := pool.(submitted := next);
      pool := pool.(once := true);
      pool := pool.(done := false);
      assert pool == Filed(old(pool), items);
      FeedWorkers(pool.workers);
      return None;
    }

    method FeedWorkers(cs: seq<Worker>)
      requires Base(pool) && Distinct(cs) && forall i :: 0 <= i < |cs| ==> cs[i] in pool.workers
      modifies this
      ensures (pool, env) == FeedAll(old(pool), cs, old(env))
    {
      hide Base, Feed;
      for i := 0 to |cs|
        invariant Base(pool) && forall j :: i <= j < |cs| ==> cs[j] in pool.workers
        invariant FeedAll(pool, cs[i..], env) == FeedAll(old(pool), cs, old(env))
      {
        FeedSpares(pool, cs[i], env);
        assert cs[i..][0] == cs[i] && cs[i..][1..] == cs[i + 1..];
        PoolFeed(cs[i]);
      }
    }
  }

  lemma SubmittableIs(v: Value)
    ensures Submittable(v) <==> v.Dict? && Get(v.pairs, "op").Some? && Plain(v) && Height(v) <= 512
  {
    JsonEmit.RefusedIffTypedOrDeep(v, 0);
  }

  lemma {:induction false} StampSnoc(items: seq<Value>, last: Value, k: nat)
    ensures Stamp(items + [last], k) == Stamp(items, k) + [Item(k + |items|, Stamped(last, k + |items|))]
  {
  }
}
