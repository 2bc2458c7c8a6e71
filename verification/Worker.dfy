/** The far side of the pipe: one request line in, one reply line out. */
module WorkerServe {
  import opened TclValues
  import opened PoolDirector
  import JsonEmit
  import JsonReader
  import JsonRoundTrip
  import Decimal

  /** How a handler proc ends: with a result, an error, or a completion code that is
      neither (`return -code break` and the like). */
  datatype Outcome = Returned(result: Value) | Threw(code: Value, msg: Value) | Escaped

  datatype Param = Param(name: string, default: Option<Value>)

  datatype Handler = Handler(params: seq<Param>, body: seq<Value> -> Outcome)

  /** What Tcl's expr makes of an operand that is no whole number in canonical form: the
      same value, a number rewritten, or an error. */
  datatype Numeric = AsIs | Number(text: string) | Unfit(code: seq<string>, msg: string)

  /** WORKER_OPS, with the string form Tcl gives a dict or list used as a dict key, and its
      conversion of operands. */
  datatype Ops = Ops(table: map<string, Handler>, form: Value -> string, expr: Value -> Numeric)

  datatype Bound = Argv(values: seq<Value>) | Missing(name: string)

  /** The handler's arguments, pulled out of the request by name. */
  function Bind(params: seq<Param>, req: seq<Pair>): Bound {
    if params == [] then Argv([])
    else
      var p := params[0];
      if Get(req, p.name).Some? then Ahead([Get(req, p.name).value], Bind(params[1..], req))
      else if p.name == "args" then Bind(params[1..], req)
      else if p.default.Some? then Ahead([p.default.value], Bind(params[1..], req))
      else Missing(p.name)
  }

  function Ahead(vs: seq<Value>, b: Bound): Bound {
    if b.Missing? then b else Argv(vs + b.values)
  }

  /** The replies WorkerDispatch can return, or an error it lets out. */
  datatype Dispatched = Reply(pairs: seq<Pair>) | Broke(code: seq<string>, msg: string)

  function Failure(id: Value, code: Value, msg: Value): seq<Pair> {
    [Pair("id", id), Pair("ok", Scalar("0")), Pair("code", code), Pair("msg", msg)]
  }

  function Refusal(id: Value, code: string, msg: string): seq<Pair> {
    Failure(id, Scalar("MACHTELD WORKER " + code), Scalar(msg))
  }

  const NO_ID := Scalar("-1")

  function IdOf(req: seq<Pair>): Value {
    if Get(req, "id").Some? then Get(req, "id").value else NO_ID
  }

  datatype Operand = Operand(v: Value) | Error(code: seq<string>, msg: string)

  predicate Whole(s: string) {
    Decimal.Normal(s) || (|s| > 1 && s[0] == '-' && s != "-0" && Decimal.Normal(s[1..]))
  }

  /** The value of an expr that only chooses it: a whole number in canonical form is left
      alone, and anything else that reads as a number is rewritten. expr leaves what it has
      rewritten alone, so the second look WorkerAnswer takes at an id changes nothing. */
  function Chosen(ops: Ops, v: Value): Operand {
    if v.Scalar? && Whole(v.text) then Operand(v)
    else match ops.expr(v)
      case AsIs => Operand(v)
      case Number(text) => Operand(Scalar(text))
      case Unfit(code, msg) => Error(code, msg)
  }

  function OpOf(ops: Ops, req: seq<Pair>): Operand {
    if Get(req, "op").Some? then Chosen(ops, Get(req, "op").value) else Operand(Scalar(""))
  }

  function Form(ops: Ops, v: Value): string {
    if v.Scalar? then v.text else ops.form(v)
  }

  /** A completion code that is neither ok nor error leaves no -errorcode to read. */
  const NO_CODE := Broke(["TCL", "LOOKUP", "DICT", "-errorcode"], "key \"-errorcode\" not known in dictionary")

  /** WorkerDispatch once the request is known to be an object. */
  function Perform(ops: Ops, req: seq<Pair>): Dispatched {
    match Chosen(ops, IdOf(req))
    case Error(code, msg) => Broke(code, msg)
    case Operand(id) =>
      match OpOf(ops, req)
      case Error(code, msg) => Broke(code, msg)
      case Operand(op) => Answer(ops, req, id, Form(ops, op))
  }

  /** The reply under this id from the handler of this name. */
  function Answer(ops: Ops, req: seq<Pair>, id: Value, op: string): Dispatched {
    if op !in ops.table then Reply(Refusal(id, "notfound", "no handler for \"" + op + "\""))
    else match Bind(ops.table[op].params, req)
      case Missing(name) => Reply(Refusal(id, "usage", op + " needs \"" + name + "\""))
      case Argv(values) =>
        match ops.table[op].body(values)
        case Returned(result) => Reply([Pair("id", id), Pair("ok", Scalar("1")), Pair("result", result)])
        case Threw(code, msg) => Reply(Failure(id, code, msg))
        case Escaped => NO_CODE
  }

  /** WorkerDispatch. */
  ghost function Dispatch(ops: Ops, line: string): Dispatched {
    match JsonReader.Decode(line)
    case Ok(v) =>
      if Encodable(v) && JsonEmit.Text(v)[..1] == "{" && v.Dict? then Perform(ops, v.pairs)
      else Reply(Refusal(NO_ID, "parse", "request must be a JSON object"))
    case _ => Reply(Refusal(NO_ID, "parse", "request is not valid JSON"))
  }

  function Scalars(texts: seq<string>): seq<Value> {
    seq(|texts|, i requires 0 <= i < |texts| => Scalar(texts[i]))
  }

  /** The reply built when WorkerDispatch raises. */
  function Thrown(code: seq<string>, msg: string): seq<Pair> {
    Failure(NO_ID, List(Scalars(code)), Scalar(msg))
  }

  function Why(r: JsonEmit.Refusal): string {
    match r
    case Deep => "value is too deeply nested"
    case TypedRefused => "typed json value refused on a plain-only path"
  }

  /** What goes on the wire for a reply: itself, or the envelope that always encodes. */
  function Sendable(reply: seq<Pair>): Value {
    match JsonEmit.Refused(Dict(reply), 0)
    case None => Dict(reply)
    case Some(r) => Dict(Refusal(IdOf(reply), "failed", "reply is not encodable as plain JSON: " + Why(r)))
  }

  function ReplyTo(d: Dispatched): Value {
    Sendable(if d.Reply? then d.pairs else Thrown(d.code, d.msg))
  }

  /** WorkerAnswer. */
  ghost function AnswerTo(ops: Ops, line: string): string {
    JsonEmit.Text(ReplyTo(Dispatch(ops, line)))
  }

  /** `worker serve`: empty lines are passed over. */
  ghost function Serve(ops: Ops, lines: seq<string>): seq<string> {
    if lines == [] then []
    else
      var before, last := lines[..|lines| - 1], lines[|lines| - 1];
      Serve(ops, before) + if last == "" then [] else [AnswerTo(ops, last)]
  }

  // ---- the procs ------------------------------------------------------------------

  class Server {
    var ops: Ops

    constructor (ops: Ops)
      ensures this.ops == ops
    {
      this.ops := ops;
    }

    method BindArgs(params: seq<Param>, req: seq<Pair>) returns (b: Bound)
      ensures b == Bind(params, req)
    {
      var argv: seq<Value> := [];
      for i := 0 to |params|
        invariant Bind(params, req) == Ahead(argv, Bind(params[i..], req))
      {
        var p, rest := params[i], Bind(params[i + 1..], req);
        assert params[i..][0] == p && params[i..][1..] == params[i + 1..];
        if Get(req, p.name).Some? {
          AheadTwice(argv, [Get(req, p.name).value], rest);
          argv := argv + [Get(req, p.name).value];
        } else if p.name == "args" {
        } else if p.default.Some? {
          AheadTwice(argv, [p.default.value], rest);
          argv := argv + [p.default.value];
        } else {
          return Missing(p.name);
        }
      }
      b := Argv(argv);
    }

    method WorkerDispatch(line: string) returns (d: Dispatched)
      ensures d == Dispatch(ops, line)
    {
      var req := JsonReader.Decode(line);
      if !req.Ok? { return Reply(Refusal(NO_ID, "parse", "request is not valid JSON")); }
      JsonEmit.RefusedIffTypedOrDeep(req.v, 0);
      var encoded := JsonEmit.EncodePlain(req.v);
      if encoded.None? || encoded.value == "" || encoded.value[0] != '{' || !req.v.Dict? {
        return Reply(Refusal(NO_ID, "parse", "request must be a JSON object"));
      }
      var pairs := req.v.pairs;
      var id := Chosen(ops, IdOf(pairs));
      if id.Error? { return Broke(id.code, id.msg); }
      var name := OpOf(ops, pairs);
      if name.Error? { return Broke(name.code, name.msg); }
      var op := Form(ops, name.v);
      if op !in ops.table { return Reply(Refusal(id.v, "notfound", "no handler for \"" + op + "\"")); }
      var h := ops.table[op];
      var argv := BindArgs(h.params, pairs);
      if argv.Missing? { return Reply(Refusal(id.v, "usage", op + " needs \"" + argv.name + "\"")); }
      match h.body(argv.values)
      case Returned(result) => d := Reply([Pair("id", id.v), Pair("ok", Scalar("1")), Pair("result", result)]);
      case Threw(code, msg) => d := Reply(Failure(id.v, code, msg));
      case Escaped => d := NO_CODE;
    }

    method WorkerAnswer(line: string) returns (encoded: string)
      ensures encoded == AnswerTo(ops, line)
    {
      hide Dispatch, Encodable, JsonEmit.Text, Plain, Height;
      AnswerEncodes(ops, line);
      var d := WorkerDispatch(line);
      var reply := if d.Reply? then d.pairs else Thrown(d.code, d.msg);
      FitsIff(Dict(reply));
      var first := JsonEmit.EncodePlain(Dict(reply));
      if first.Some? { return first.value; }
      assert Sendable(reply) == ReplyTo(Dispatch(ops, line));
      FitsIff(Sendable(reply));
      var second := JsonEmit.EncodePlain(Sendable(reply));
      encoded := second.value;
    }

    /** `worker serve`: stdin to its end. */
    method Run(stdin: seq<string>) returns (stdout: seq<string>)
      ensures stdout == Serve(ops, stdin)
    {
      stdout := [];
      for i := 0 to |stdin|
        invariant stdout == Serve(ops, stdin[..i])
      {
        assert stdin[..i + 1][..i] == stdin[..i];
        if stdin[i] != "" {
          var encoded := WorkerAnswer(stdin[i]);
          stdout := stdout + [encoded];
        }
      }
      assert stdin[..|stdin|] == stdin;
    }
  }

  lemma AheadTwice(a: seq<Value>, b: seq<Value>, rest: Bound)
    ensures Ahead(a, Ahead(b, rest)) == Ahead(a + b, rest)
  {
    if rest.Argv? { assert a + (b + rest.values) == a + b + rest.values; }
  }

  // ---- what comes of a request --------------------------------------------------------

  /** op is the operation the request asks for: the text of its op field, unless expr
      rewrites it; none is asked for as the empty one. */
  predicate Asks(ops: Ops, req: seq<Pair>, op: string) {
    match Get(req, "op")
    case None => op == ""
    case Some(v) =>
      || (v == Scalar(op) && (Whole(op) || ops.expr(v).AsIs?))
      || (!v.Scalar? && ops.expr(v).AsIs? && op == ops.form(v))
      || (!(v.Scalar? && Whole(v.text)) && ops.expr(v) == Number(op))
  }

  /** The parameters that take a value: all but an absent catch-all. */
  function Taking(params: seq<Param>, req: seq<Pair>): (ps: seq<Param>)
    ensures forall i :: 0 <= i < |ps| ==> ps[i] in params && (ps[i].name == "args" ==> Get(req, "args").Some?)
  {
    if params == [] then []
    else
      var rest := Taking(params[1..], req);
      if params[0].name == "args" && Get(req, "args").None? then rest else [params[0]] + rest
  }

  predicate AllFilled(params: seq<Param>, req: seq<Pair>) {
    forall i :: 0 <= i < |params| ==> !Unfilled(params[i], req)
  }

  /** The values the handler is called with. */
  function Arguments(params: seq<Param>, req: seq<Pair>): (vs: seq<Value>)
    requires AllFilled(params, req)
    ensures |vs| == |Taking(params, req)|
  {
    var ps := Taking(params, req);
    seq(|ps|, i requires 0 <= i < |ps| => Filled(ps[i], req))
  }

  function FirstMissing(params: seq<Param>, req: seq<Pair>): (i: nat)
    requires !AllFilled(params, req)
    ensures i < |params| && FirstUnfilled(params, req, i)
  {
    if Unfilled(params[0], req) then 0
    else
      var rest := params[1..];
      assert forall i :: 0 <= i < |rest| ==> rest[i] == params[i + 1];
      1 + FirstMissing(rest, req)
  }

  /** What comes of an operation, from the table and the request's fields alone. */
  ghost function Came(ops: Ops, req: seq<Pair>, op: string): Outcome {
    if op !in ops.table then Threw(Scalar("MACHTELD WORKER notfound"), Scalar("no handler for \"" + op + "\""))
    else
      var params := ops.table[op].params;
      if AllFilled(params, req) then ops.table[op].body(Arguments(params, req))
      else
        var missing := params[FirstMissing(params, req)].name;
        Threw(Scalar("MACHTELD WORKER usage"), Scalar(op + " needs \"" + missing + "\""))
  }

  /** The reply says so: a result under ok 1, an error under ok 0. */
  predicate Says(reply: seq<Pair>, o: Outcome) {
    match o
    case Returned(result) =>
      Get(reply, "ok") == Some(Scalar("1")) && Get(reply, "result") == Some(result)
      && Get(reply, "code").None? && Get(reply, "msg").None?
    case Threw(code, msg) =>
      Get(reply, "ok") == Some(Scalar("0")) && Get(reply, "code") == Some(code) && Get(reply, "msg") == Some(msg)
      && Get(reply, "result").None?
    case Escaped => false
  }

  /** The value can stand in a reply: nothing typed in it, and room for one level more. */
  predicate Carried(v: Value) {
    Plain(v) && Height(v) < 512
  }

  predicate Sent(o: Outcome) {
    match o
    case Returned(result) => Carried(result)
    case Threw(code, msg) => Carried(code) && Carried(msg)
    case Escaped => false
  }

  /** The reply on the wire says so, or that what came of it cannot be sent. */
  predicate Reports(reply: Value, o: Outcome) {
    reply.Dict? && !o.Escaped?
    && if Sent(o) then Says(reply.pairs, o)
       else
         Get(reply.pairs, "ok") == Some(Scalar("0")) && Get(reply.pairs, "result").None?
         && Get(reply.pairs, "code") == Some(Scalar("MACHTELD WORKER failed"))
  }

  // ---- every request gets one line ----------------------------------------------------

  lemma {:induction false} PartFits(ps: seq<Pair>, i: nat)
    requires i < |ps|
    ensures Height(ps[i].val) <= PairsHeight(ps)
  {
    if i > 0 { PartFits(ps[1..], i - 1); }
  }

  lemma AnswerHasId(ops: Ops, req: seq<Pair>, id: Value, op: string)
    ensures var d := Answer(ops, req, id, op);
      d.Reply? ==> IdOf(d.pairs) == id && Get(d.pairs, "id") == Some(id) && Get(d.pairs, "ok").Some?
  {
    hide Bind;
    var d := Answer(ops, req, id, op);
    if d.Reply? { assert d.pairs[0].key == "id" && d.pairs[1].key == "ok"; }
  }

  /** A reply always carries an id: the request's (-1 if it has none) as expr leaves it,
      and unchanged when that is a whole number in canonical form, as the pool's are. */
  lemma PerformEchoesId(ops: Ops, req: seq<Pair>)
    ensures Perform(ops, req).Reply? ==>
      && Chosen(ops, IdOf(req)) == Operand(IdOf(Perform(ops, req).pairs))
      && Get(Perform(ops, req).pairs, "id") == Some(IdOf(Perform(ops, req).pairs))
      && Get(Perform(ops, req).pairs, "ok").Some?
      && (forall n :: IdOf(req) == Scalar(Decimal.Numeral(n)) ==> IdOf(Perform(ops, req).pairs) == IdOf(req))
  {
    hide Answer, Form;
    if Perform(ops, req).Reply? {
      AnswerHasId(ops, req, Chosen(ops, IdOf(req)).v, Form(ops, OpOf(ops, req).v));
      forall n | IdOf(req) == Scalar(Decimal.Numeral(n)) ensures IdOf(Perform(ops, req).pairs) == IdOf(req) {
        Decimal.NumeralReadsBack(n);
      }
    }
  }

  /** The reply names another id than the request exactly when expr rewrites it. */
  lemma IdRewritten(ops: Ops, req: seq<Pair>)
    requires Perform(ops, req).Reply?
    ensures IdOf(Perform(ops, req).pairs) != IdOf(req) <==>
      && !(IdOf(req).Scalar? && Whole(IdOf(req).text))
      && ops.expr(IdOf(req)).Number? && Scalar(ops.expr(IdOf(req)).text) != IdOf(req)
  {
    hide Answer, Form, Whole;
    PerformEchoesId(ops, req);
  }

  lemma EnvelopeFits(id: Value, code: Value, msg: Value)
    requires Plain(id) && Height(id) < JsonEmit.MAX_DEPTH
    requires Plain(code) && Height(code) < JsonEmit.MAX_DEPTH
    requires Plain(msg) && Height(msg) < JsonEmit.MAX_DEPTH
    ensures Encodable(Dict(Failure(id, code, msg)))
  {
    var ps := Failure(id, code, msg);
    FourHigh(ps);
    assert Plain(Dict(ps));
    JsonEmit.RefusedIffTypedOrDeep(Dict(ps), 0);
  }

  lemma FourHigh(ps: seq<Pair>)
    requires |ps| == 4
    ensures PairsHeight(ps) == Max(Height(ps[0].val), Max(Height(ps[1].val), Max(Height(ps[2].val), Height(ps[3].val))))
  {
    hide Height;
    var p1, p2, p3 := ps[1..], ps[2..], ps[3..];
    assert p1[1..] == p2 && p2[1..] == p3 && p3[1..] == [];
    assert PairsHeight(p3) == Height(ps[3].val);
    assert PairsHeight(p2) == Max(Height(ps[2].val), PairsHeight(p3));
    assert PairsHeight(p1) == Max(Height(ps[1].val), PairsHeight(p2));
  }

  lemma FitsIff(v: Value)
    ensures Encodable(v) <==> Plain(v) && Height(v) <= JsonEmit.MAX_DEPTH
    ensures Encodable(v) <==> JsonEmit.Refused(v, 0).None?
  {
    JsonEmit.RefusedIffTypedOrDeep(v, 0);
  }

  lemma IdFits(v: Value)
    requires v.Dict? && Encodable(v)
    ensures Plain(IdOf(v.pairs)) && Height(IdOf(v.pairs)) < JsonEmit.MAX_DEPTH
  {
    JsonEmit.RefusedIffTypedOrDeep(v, 0);
    var i := Find(v.pairs, "id");
    if i >= 0 { PartFits(v.pairs, i); }
  }

  lemma DispatchIdFits(ops: Ops, line: string)
    requires Dispatch(ops, line).Reply?
    ensures var id := IdOf(Dispatch(ops, line).pairs); Plain(id) && Height(id) < JsonEmit.MAX_DEPTH
  {
    hide Encodable, Perform, Whole;
    var d := JsonReader.Decode(line);
    if d.Ok? && Encodable(d.v) && d.v.Dict? {
      PerformEchoesId(ops, d.v.pairs);
      IdFits(d.v);
    }
  }

  /** The fallback envelope is never refused in its turn. */
  lemma AnswerEncodes(ops: Ops, line: string)
    ensures Encodable(ReplyTo(Dispatch(ops, line)))
  {
    hide Dispatch, Encodable;
    var d := Dispatch(ops, line);
    if d.Reply? {
      DispatchIdFits(ops, line);
      SendableEncodes(d.pairs);
    } else {
      SendableEncodes(Thrown(d.code, d.msg));
    }
  }

  lemma SendableEncodes(reply: seq<Pair>)
    requires Plain(IdOf(reply)) && Height(IdOf(reply)) < JsonEmit.MAX_DEPTH
    ensures Encodable(Sendable(reply))
  {
    var r := JsonEmit.Refused(Dict(reply), 0);
    if r.Some? {
      EnvelopeFits(IdOf(reply), Scalar("MACHTELD WORKER " + "failed"),
                   Scalar("reply is not encodable as plain JSON: " + Why(r.value)));
    }
  }

  /** One nonempty request line, one nonempty reply line without a newline in it. */
  lemma AnswerIsOneLine(ops: Ops, line: string)
    ensures AnswerTo(ops, line) != "" && '\n' !in AnswerTo(ops, line)
  {
    var v := ReplyTo(Dispatch(ops, line));
    AnswerEncodes(ops, line);
    JsonEmit.RefusedIffTypedOrDeep(v, 0);
    JsonRoundTrip.EncodedIsOneLine(v);
  }

  // ---- binding and serving -----------------------------------------------------------------

  /** A parameter the request leaves without a value. */
  predicate Unfilled(p: Param, req: seq<Pair>) {
    Get(req, p.name).None? && p.name != "args" && p.default.None?
  }

  /** The value a parameter is bound to. */
  function Filled(p: Param, req: seq<Pair>): Value
    requires !Unfilled(p, req) && (p.name != "args" || Get(req, "args").Some?)
  {
    match Get(req, p.name)
    case Some(v) => v
    case None => p.default.value
  }

  /** Binding fails exactly when some parameter has neither a field of the request nor a
      default, and then names the first such. */
  lemma {:induction false} BindFailsByName(params: seq<Param>, req: seq<Pair>)
    ensures Bind(params, req).Argv? <==> forall i :: 0 <= i < |params| ==> !Unfilled(params[i], req)
    ensures Bind(params, req).Missing? ==>
      exists i :: 0 <= i < |params| && FirstUnfilled(params, req, i) && Bind(params, req).name == params[i].name
  {
    if params != [] {
      hide Get;
      var rest := params[1..];
      BindFailsByName(rest, req);
      assert forall i :: 0 < i < |params| ==> params[i] == rest[i - 1];
      if Unfilled(params[0], req) {
        assert FirstUnfilled(params, req, 0);
      } else if Bind(rest, req).Missing? {
        var i :| 0 <= i < |rest| && FirstUnfilled(rest, req, i) && Bind(rest, req).name == rest[i].name;
        assert FirstUnfilled(params, req, i + 1);
      }
    }
  }

  predicate FirstUnfilled(params: seq<Param>, req: seq<Pair>, i: nat)
    requires i < |params|
  {
    Unfilled(params[i], req) && forall j :: 0 <= j < i ==> !Unfilled(params[j], req)
  }

  /** Otherwise each parameter gets the field of its name, or its default, in parameter
      order; an absent catch-all gets nothing. */
  lemma {:induction false} BindIsByName(params: seq<Param>, req: seq<Pair>)
    requires AllFilled(params, req)
    ensures Bind(params, req) == Argv(Arguments(params, req))
  {
    if params != [] {
      hide Get;
      var p, rest := params[0], params[1..];
      assert forall i :: 0 <= i < |rest| ==> rest[i] == params[i + 1];
      BindIsByName(rest, req);
      var ps, vs := Taking(rest, req), Arguments(rest, req);
      if p.name == "args" && Get(req, "args").None? {
        assert Arguments(params, req) == vs;
      } else {
        assert Taking(params, req) == [p] + ps && !Unfilled(p, req);
        assert Arguments(params, req) == [Filled(p, req)] + vs;
      }
    }
  }

  /** The reply tells what came of the request. */
  ghost predicate Tells(ops: Ops, req: seq<Pair>, reply: Value) {
    && (exists op :: Asks(ops, req, op))
    && (forall op :: Asks(ops, req, op) ==> Reports(reply, Came(ops, req, op)))
  }

  // ---- what the reply says ------------------------------------------------------------------

  lemma AsksIsOp(ops: Ops, req: seq<Pair>, op: string)
    ensures Asks(ops, req, op) <==> OpOf(ops, req).Operand? && Form(ops, OpOf(ops, req).v) == op
  {
    hide Whole;
  }

  lemma MissingIsFirst(ops: Ops, req: seq<Pair>, op: string)
    requires op in ops.table && !AllFilled(ops.table[op].params, req)
    ensures var b := Bind(ops.table[op].params, req);
      b.Missing? && Came(ops, req, op)
                    == Threw(Scalar("MACHTELD WORKER usage"), Scalar(op + " needs \"" + b.name + "\""))
  {
    hide Unfilled, Bind;
    BindFailsByName(ops.table[op].params, req);
  }

  lemma AnswerTells(ops: Ops, req: seq<Pair>, id: Value, op: string)
    ensures var d, o := Answer(ops, req, id, op), Came(ops, req, op);
      && (d.Broke? <==> o.Escaped?)
      && (d.Reply? ==> Says(d.pairs, o))
      && (o.Returned? ==> d == Reply([Pair("id", id), Pair("ok", Scalar("1")), Pair("result", o.result)]))
      && (o.Threw? ==> d == Reply(Failure(id, o.code, o.msg)))
  {
    hide Bind, Unfilled, AllFilled, Arguments, Says;
    if op in ops.table {
      BindFailsByName(ops.table[op].params, req);
      if AllFilled(ops.table[op].params, req) {
        BindIsByName(ops.table[op].params, req);
      } else {
        MissingIsFirst(ops, req, op);
      }
    }
    match Came(ops, req, op)
    case Returned(result) => ResultSays(id, result);
    case Threw(code, msg) =>
      FailureSays(id, code, msg);
      assert "MACHTELD WORKER " + "notfound" == "MACHTELD WORKER notfound";
      assert "MACHTELD WORKER " + "usage" == "MACHTELD WORKER usage";
    case Escaped =>
  }

  lemma ResultSays(id: Value, result: Value)
    ensures Says([Pair("id", id), Pair("ok", Scalar("1")), Pair("result", result)], Returned(result))
  {
    var ps := [Pair("id", id), Pair("ok", Scalar("1")), Pair("result", result)];
    assert ps[0].key == "id" && ps[1].key == "ok" && ps[2].key == "result";
  }

  lemma FailureSays(id: Value, code: Value, msg: Value)
    ensures Says(Failure(id, code, msg), Threw(code, msg))
  {
    var ps := Failure(id, code, msg);
    assert ps[0].key == "id" && ps[1].key == "ok" && ps[2].key == "code" && ps[3].key == "msg";
  }

  /** A request whose id expr takes is answered with what comes of the operation it asks
      for; no reply is made only when the handler escapes. */
  lemma PerformTells(ops: Ops, req: seq<Pair>, op: string)
    requires Chosen(ops, IdOf(req)).Operand? && Asks(ops, req, op)
    ensures var d, o := Perform(ops, req), Came(ops, req, op);
      (d.Broke? <==> o.Escaped?) && (d.Reply? ==> Says(d.pairs, o))
  {
    hide Answer, Came, Says, Asks, Form, Whole;
    AsksIsOp(ops, req, op);
    AnswerTells(ops, req, Chosen(ops, IdOf(req)).v, op);
  }

  /** A reply that cannot be sent is replaced by one that says so. */
  lemma Envelope(reply: seq<Pair>)
    requires JsonEmit.Refused(Dict(reply), 0).Some?
    ensures var e := Sendable(reply);
      e.Dict? && Get(e.pairs, "ok") == Some(Scalar("0")) && Get(e.pairs, "result").None?
      && Get(e.pairs, "code") == Some(Scalar("MACHTELD WORKER failed"))
  {
    hide JsonEmit.Refused;
    var why := JsonEmit.Refused(Dict(reply), 0).value;
    var code, msg := Scalar("MACHTELD WORKER failed"), Scalar("reply is not encodable as plain JSON: " + Why(why));
    FailureSays(IdOf(reply), code, msg);
    assert "MACHTELD WORKER " + "failed" == "MACHTELD WORKER failed";
    assert Sendable(reply) == Dict(Failure(IdOf(reply), code, msg));
    assert Says(Failure(IdOf(reply), code, msg), Threw(code, msg));
  }

  lemma SendsResult(id: Value, result: Value)
    requires id.Scalar?
    ensures Reports(Sendable([Pair("id", id), Pair("ok", Scalar("1")), Pair("result", result)]), Returned(result))
  {
    hide Says, Height;
    var ps := [Pair("id", id), Pair("ok", Scalar("1")), Pair("result", result)];
    FitsIff(Dict(ps));
    ThreeHigh(ps);
    ResultSays(id, result);
    if JsonEmit.Refused(Dict(ps), 0).Some? { Envelope(ps); }
  }

  lemma ThreeHigh(ps: seq<Pair>)
    requires |ps| == 3 && ps[0].val.Scalar? && ps[1].val.Scalar?
    ensures Height(Dict(ps)) == 1 + Height(ps[2].val)
    ensures Plain(Dict(ps)) <==> Plain(ps[2].val)
  {
    var p1, p2 := ps[1..], ps[2..];
    assert p1[1..] == p2 && p2[1..] == [];
    assert PairsHeight(p2) == Height(ps[2].val);
    assert PairsHeight(p1) == Max(1, Height(ps[2].val));
    assert PairsHeight(ps) == Max(1, PairsHeight(p1));
  }

  lemma FourFit(id: Value, code: Value, msg: Value)
    requires id.Scalar?
    ensures JsonEmit.Refused(Dict(Failure(id, code, msg)), 0).None? <==> Carried(code) && Carried(msg)
  {
    hide Height, JsonEmit.Refused;
    var ps := Failure(id, code, msg);
    FitsIff(Dict(ps));
    FourHigh(ps);
    FourPlain(ps);
    OneHigh(id);
    OneHigh(Scalar("0"));
    TopHigh(ps);
  }

  lemma OneHigh(v: Value)
    requires v.Scalar?
    ensures Height(v) == 1 && Plain(v)
  {
  }

  lemma TopHigh(ps: seq<Pair>)
    ensures Height(Dict(ps)) == 1 + PairsHeight(ps)
  {
  }

  lemma FourPlain(ps: seq<Pair>)
    requires |ps| == 4
    ensures Plain(Dict(ps)) <==> Plain(ps[0].val) && Plain(ps[1].val) && Plain(ps[2].val) && Plain(ps[3].val)
  {
  }

  lemma SendsFailure(id: Value, code: Value, msg: Value)
    requires id.Scalar?
    ensures Reports(Sendable(Failure(id, code, msg)), Threw(code, msg))
  {
    hide Says, Carried, JsonEmit.Refused, Failure;
    FourFit(id, code, msg);
    FailureSays(id, code, msg);
    if JsonEmit.Refused(Dict(Failure(id, code, msg)), 0).Some? { Envelope(Failure(id, code, msg)); }
  }

  /** The reply on the wire tells what came of the request, or that it cannot be sent. */
  lemma ReplyTells(ops: Ops, req: seq<Pair>)
    requires IdOf(req).Scalar? && Perform(ops, req).Reply?
    ensures Tells(ops, req, ReplyTo(Perform(ops, req)))
  {
    hide Answer, Came, Says, Asks, Form, Whole, Reports, Sendable;
    var id, named := Chosen(ops, IdOf(req)).v, Form(ops, OpOf(ops, req).v);
    AsksIsOp(ops, req, named);
    forall op | Asks(ops, req, op) ensures Reports(ReplyTo(Perform(ops, req)), Came(ops, req, op)) {
      AsksIsOp(ops, req, op);
      AnswerTells(ops, req, id, op);
      match Came(ops, req, op)
      case Returned(result) => SendsResult(id, result);
      case Threw(code, msg) => SendsFailure(id, code, msg);
    }
  }

  predicate Refuses(d: Dispatched, msg: string) {
    && d.Reply? && Get(d.pairs, "id") == Some(Scalar("-1"))
    && Says(d.pairs, Threw(Scalar("MACHTELD WORKER parse"), Scalar(msg)))
  }

  /** Every line: what is no JSON, or no object, is refused under the id -1. */
  lemma DispatchTells(ops: Ops, line: string)
    ensures var d, text := Dispatch(ops, line), JsonReader.Decode(line);
      && (!text.Ok? ==> Refuses(d, "request is not valid JSON"))
      && (text.Ok? && !text.v.Dict? ==> Refuses(d, "request must be a JSON object"))
      && (text.Ok? && text.v.Dict? && Encodable(text.v) ==> d == Perform(ops, text.v.pairs))
  {
    hide Perform, Says, Encodable, JsonReader.Decode;
    assert "MACHTELD WORKER " + "parse" == "MACHTELD WORKER parse";
    RefusalSays(Scalar("MACHTELD WORKER parse"), Scalar("request is not valid JSON"));
    RefusalSays(Scalar("MACHTELD WORKER parse"), Scalar("request must be a JSON object"));
  }

  lemma RefusalSays(code: Value, msg: Value)
    ensures Get(Failure(NO_ID, code, msg), "id") == Some(Scalar("-1"))
    ensures Says(Failure(NO_ID, code, msg), Threw(code, msg))
  {
    var ps := Failure(NO_ID, code, msg);
    assert ps[0].key == "id";
    FailureSays(NO_ID, code, msg);
  }

  lemma ServeSnoc(ops: Ops, lines: seq<string>, line: string)
    ensures Serve(ops, lines + [line])
         == if line == "" then Serve(ops, lines) else Serve(ops, lines) + [AnswerTo(ops, line)]
  {
    hide AnswerTo;
    assert (lines + [line])[..|lines|] == lines;
  }

  lemma ServeNone(ops: Ops)
    ensures Serve(ops, []) == []
  {
    hide AnswerTo;
  }

  lemma Assoc(a: seq<string>, b: seq<string>, c: seq<string>)
    ensures a + b + c == a + (b + c)
  {
  }

  /** What `worker serve` writes is the answers to the nonempty lines, one each, in order. */
  lemma {:induction false} ServeSplits(ops: Ops, a: seq<string>, b: seq<string>)
    ensures Serve(ops, a + b) == Serve(ops, a) + Serve(ops, b)
    decreases |b|
  {
    hide Serve, AnswerTo;
    if b == [] {
      ServeNone(ops);
      assert a + b == a;
    } else {
      var front, last := b[..|b| - 1], b[|b| - 1];
      ServeSplits(ops, a, front);
      assert b == front + [last];
      Assoc(a, front, [last]);
      ServeSnoc(ops, a + front, last);
      ServeSnoc(ops, front, last);
      Assoc(Serve(ops, a), Serve(ops, front), [AnswerTo(ops, last)]);
    }
  }

  lemma {:induction false} ServeCounts(ops: Ops, lines: seq<string>)
    requires forall i :: 0 <= i < |lines| ==> lines[i] != ""
    ensures |Serve(ops, lines)| == |lines|
    ensures forall i :: 0 <= i < |lines| ==> Serve(ops, lines)[i] == AnswerTo(ops, lines[i])
  {
    hide Serve, AnswerTo;
    if lines == [] {
      ServeNone(ops);
    } else {
      var front, last := lines[..|lines| - 1], lines[|lines| - 1];
      ServeCounts(ops, front);
      assert lines == front + [last];
      ServeSnoc(ops, front, last);
    }
  }

  lemma OneAnswer(ops: Ops, line: string)
    ensures Serve(ops, [line]) == if line == "" then [] else [AnswerTo(ops, line)]
  {
    hide AnswerTo;
    assert [line][..0] == [];
  }
}
