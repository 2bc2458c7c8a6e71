/** One request and its reply, across the pipe and back. */
module PoolExchange {
  import opened TclValues
  import opened PoolState
  import opened PoolDirector
  import opened WorkerServe
  import JsonEmit
  import JsonPrefix
  import JsonRoundTrip
  import Decimal

  /** A request as the director writes it: encodable, with its id. */
  predicate Request(v: Value, id: nat) {
    v.Dict? && WellFormed(v) && Encodable(v) && Get(v.pairs, "id") == Some(Scalar(Decimal.Numeral(id)))
  }

  /** The line is a reply that names this id, and this is the reply. */
  ghost function Accepted(line: string, id: nat): Option<Value> {
    var rep := ReplyIn(line);
    if rep.Some? && SpellsId(Get(rep.value.pairs, "id").value, id) then rep else None
  }

  /** What the handler's outcome on a request should look like to the caller. */
  function Expected(ops: Ops, req: Value): Value
    requires req.Dict?
  {
    ReplyTo(Perform(ops, req.pairs))
  }

  /** Request and reply survive the wire: no U+0000, and the handler returned or failed. */
  predicate Clean(ops: Ops, req: Value)
    requires req.Dict?
  {
    NulFree(req) && Perform(ops, req.pairs).Reply? && NulFree(Expected(ops, req))
  }

  lemma EncodedDictOpens(v: Value)
    requires v.Dict?
    ensures JsonEmit.Text(v)[..1] == "{"
  {
  }

  lemma RequestArrives(ops: Ops, v: Value, id: nat)
    requires Request(v, id) && NulFree(v)
    ensures Dispatch(ops, JsonEmit.Text(v)) == Perform(ops, v.pairs)
  {
    hide Perform, JsonEmit.Text;
    FitsIff(v);
    JsonRoundTrip.PlainRoundTrip(v);
    EncodedDictOpens(v);
  }

  lemma RequestIsLost(ops: Ops, v: Value, id: nat)
    requires Request(v, id) && !NulFree(v)
    ensures Dispatch(ops, JsonEmit.Text(v)) == Dispatched.Reply(Refusal(NO_ID, "parse", "request is not valid JSON"))
  {
    hide Perform, JsonEmit.Text;
    FitsIff(v);
    JsonRoundTrip.PlainRoundTrip(v);
  }

  /** A reply that encodes reads back as itself exactly when it holds no U+0000. */
  lemma ReplyArrives(v: Value)
    requires v.Dict? && WellFormed(v) && Encodable(v)
    requires Get(v.pairs, "id").Some? && Get(v.pairs, "ok").Some?
    ensures ReplyIn(JsonEmit.Text(v)) == if NulFree(v) then Some(v) else None
  {
    hide JsonEmit.Text;
    FitsIff(v);
    JsonRoundTrip.PlainRoundTrip(v);
    EncodedDictOpens(v);
  }

  lemma NotAnId(id: nat)
    ensures Decimal.Numeral(id) != "-1"
  {
    var t := Decimal.Numeral(id);
    assert Decimal.Digit(t[0]);
  }

  /** A reply under the id -1 answers nothing. */
  lemma StrayReply(v: Value, id: nat)
    requires v.Dict? && WellFormed(v) && Encodable(v)
    requires Get(v.pairs, "id") == Some(NO_ID) && Get(v.pairs, "ok").Some?
    ensures Accepted(JsonEmit.Text(v), id).None?
  {
    hide JsonEmit.Text, Encodable, NulFree, WellFormed;
    ReplyArrives(v);
    NotAnId(id);
  }

  lemma FailureParts(id: Value, code: Value, msg: Value)
    ensures Get(Failure(id, code, msg), "id") == Some(id) && Get(Failure(id, code, msg), "ok").Some?
    ensures WellFormed(id) && WellFormed(code) && WellFormed(msg) ==> WellFormed(Dict(Failure(id, code, msg)))
  {
    var ps := Failure(id, code, msg);
    assert ps[0].key == "id" && ps[1].key == "ok" && ps[2].key == "code" && ps[3].key == "msg";
  }

  /** The reply to a request: its parts, whether sent as it is or in the envelope. */
  lemma ExpectedParts(ops: Ops, v: Value, id: nat)
    requires Request(v, id) && Perform(ops, v.pairs).Reply? && WellFormed(Dict(Perform(ops, v.pairs).pairs))
    ensures var e := Expected(ops, v);
      && e.Dict? && Encodable(e) && WellFormed(e)
      && Get(e.pairs, "id") == Some(Scalar(Decimal.Numeral(id))) && Get(e.pairs, "ok").Some?
  {
    hide Perform, Encodable, JsonEmit.Refused;
    PerformEchoesId(ops, v.pairs);
    var reply := Perform(ops, v.pairs).pairs;
    SendableEncodes(reply);
    var r := JsonEmit.Refused(Dict(reply), 0);
    if r.Some? {
      FailureParts(IdOf(reply), Scalar("MACHTELD WORKER " + "failed"),
                   Scalar("reply is not encodable as plain JSON: " + Why(r.value)));
    }
  }

  /** The reply to a request tells what came of it. */
  lemma ExpectedTells(ops: Ops, v: Value, id: nat)
    requires v.Dict? && Get(v.pairs, "id") == Some(Scalar(Decimal.Numeral(id)))
    ensures Perform(ops, v.pairs).Reply? ==> Tells(ops, v.pairs, Expected(ops, v))
  {
    hide Perform, Tells;
    if Perform(ops, v.pairs).Reply? { ReplyTells(ops, v.pairs); }
  }

  lemma ThrownCode(code: seq<string>, msg: string)
    ensures var t := Thrown(code, msg); t[2].val == List(Scalars(code)) && t[3].val == Scalar(msg)
    ensures var v := List(Scalars(code)); Plain(v) && WellFormed(v) && Height(v) < JsonEmit.MAX_DEPTH
    ensures var v := Scalar(msg); Plain(v) && WellFormed(v) && Height(v) < JsonEmit.MAX_DEPTH
    ensures Plain(NO_ID) && WellFormed(NO_ID) && Height(NO_ID) < JsonEmit.MAX_DEPTH
  {
    Flat(Scalars(code));
  }

  lemma {:induction false} Flat(es: seq<Value>)
    requires forall i :: 0 <= i < |es| ==> es[i].Scalar?
    ensures ListHeight(es) <= 1
  {
    if es != [] { Flat(es[1..]); }
  }

  lemma ThrownParts(code: seq<string>, msg: string)
    ensures var e := Sendable(Thrown(code, msg));
      && e.Dict? && Encodable(e) && WellFormed(e) && Get(e.pairs, "id") == Some(NO_ID) && Get(e.pairs, "ok").Some?
  {
    hide JsonEmit.Refused, Plain, Height, WellFormed;
    var t := Thrown(code, msg);
    ThrownCode(code, msg);
    FailureParts(NO_ID, t[2].val, t[3].val);
    EnvelopeFits(NO_ID, t[2].val, t[3].val);
    FitsIff(Dict(t));
  }

  /** The exact condition for an exchange to succeed; the reply then is the outcome
      of the handler on the request, unchanged: ok 1 and its result, or ok 0 and its error. */
  lemma ExchangeSucceedsIffClean(ops: Ops, v: Value, id: nat)
    requires Request(v, id)
    requires Perform(ops, v.pairs).Reply? ==> WellFormed(Dict(Perform(ops, v.pairs).pairs))
    ensures Accepted(AnswerTo(ops, JsonEmit.Text(v)), id)
         == if Clean(ops, v) then Some(Expected(ops, v)) else None
    ensures Clean(ops, v) ==> Tells(ops, v.pairs, Expected(ops, v))
  {
    hide JsonEmit.Text, Perform, Encodable, NulFree, WellFormed, Dispatch, Sendable, Refusal, Tells;
    ExpectedTells(ops, v, id);
    if !NulFree(v) {
      RequestIsLost(ops, v, id);
      ParseRefusal();
      StrayReply(Sendable(Refusal(NO_ID, "parse", "request is not valid JSON")), id);
    } else {
      RequestArrives(ops, v, id);
      if Perform(ops, v.pairs).Reply? {
        ExpectedParts(ops, v, id);
        ReplyArrives(Expected(ops, v));
      } else {
        var d := Perform(ops, v.pairs);
        ThrownParts(d.code, d.msg);
        StrayReply(Sendable(Thrown(d.code, d.msg)), id);
      }
    }
  }

  /** What makes dispatching raise: expr will not have the operation's name, or the handler
      is there, gets its arguments, and ends with a code that is neither ok nor error. */
  predicate Raises(ops: Ops, req: seq<Pair>) {
    match OpOf(ops, req)
    case Error(_, _) => true
    case Operand(v) =>
      var op := Form(ops, v);
      && op in ops.table && Bind(ops.table[op].params, req).Argv?
      && ops.table[op].body(Bind(ops.table[op].params, req).values).Escaped?
  }

  lemma BrokeIffRaises(ops: Ops, req: seq<Pair>, id: nat)
    requires Get(req, "id") == Some(Scalar(Decimal.Numeral(id)))
    ensures Perform(ops, req).Broke? <==> Raises(ops, req)
  {
    hide Bind, Form;
    Decimal.NumeralReadsBack(id);
  }

  /** A request the worker can read is answered under the id -1, where the director takes
      the reply for a protocol error, exactly when dispatching it raises. */
  lemma StrayIffRaises(ops: Ops, v: Value, id: nat)
    requires Request(v, id) && NulFree(v)
    requires Perform(ops, v.pairs).Reply? ==> WellFormed(Dict(Perform(ops, v.pairs).pairs))
    ensures var r := ReplyTo(Dispatch(ops, JsonEmit.Text(v)));
      r.Dict? && (Get(r.pairs, "id") == Some(NO_ID) <==> Raises(ops, v.pairs))
  {
    hide JsonEmit.Text, Perform, Encodable, NulFree, WellFormed, Dispatch, Sendable, Raises;
    RequestArrives(ops, v, id);
    BrokeIffRaises(ops, v.pairs, id);
    var d := Perform(ops, v.pairs);
    if d.Reply? {
      ExpectedParts(ops, v, id);
      NotAnId(id);
    } else {
      ThrownParts(d.code, d.msg);
    }
  }

  /** The input that shows it: an operation whose handler takes nothing and escapes. */
  lemma EscapeIsStray(ops: Ops, op: string, id: nat)
    requires op in ops.table && ops.table[op].params == [] && ops.table[op].body([]).Escaped?
    requires NoNul(op) && ops.expr(Scalar(op)).AsIs?
    ensures var v := Dict([Pair("op", Scalar(op)), Pair("id", Scalar(Decimal.Numeral(id)))]);
      Request(v, id) && Get(ReplyTo(Dispatch(ops, JsonEmit.Text(v))).pairs, "id") == Some(NO_ID)
  {
    var ps := [Pair("op", Scalar(op)), Pair("id", Scalar(Decimal.Numeral(id)))];
    var v := Dict(ps);
    TwoFields(ps[0], ps[1]);
    FitsIff(v);
    assert Get(ps, "op") == Some(Scalar(op)) && Get(ps, "id") == Some(Scalar(Decimal.Numeral(id)));
    assert Raises(ops, ps);
    NumeralHasNoNul(id);
    assert NulFree(v);
    hide Raises, NulFree, JsonEmit.Text, Dispatch, ReplyTo;
    BrokeIffRaises(ops, ps, id);
    StrayIffRaises(ops, v, id);
  }

  lemma TwoFields(p: Pair, q: Pair)
    requires p.key != q.key && p.val.Scalar? && q.val.Scalar?
    ensures Plain(Dict([p, q])) && WellFormed(Dict([p, q])) && PairsHeight([p, q]) == 1
    ensures Get([p, q], p.key) == Some(p.val) && Get([p, q], q.key) == Some(q.val)
  {
    assert [p, q][0] == p && [p, q][1] == q && [p, q][1..] == [q] && [q][0] == q && [q][1..] == [];
    assert PairsHeight([q]) == 1;
  }

  lemma NumeralHasNoNul(id: nat)
    ensures NoNul(Decimal.Numeral(id))
  {
    var t := Decimal.Numeral(id);
    forall i | 0 <= i < |t| ensures t[i] != '\0' { assert Decimal.Digit(t[i]); }
  }

  /** Part of a reply line is no reply. */
  lemma TornIsNoReply(ops: Ops, line: string, k: nat)
    requires k < |AnswerTo(ops, line)|
    ensures ReplyIn(AnswerTo(ops, line)[..k]).None?
  {
    hide Dispatch, JsonEmit.Text, Encodable;
    var v := ReplyTo(Dispatch(ops, line));
    AnswerEncodes(ops, line);
    FitsIff(v);
    JsonPrefix.NoPrefixReads(v.pairs, k);
  }

  lemma ParseRefusal()
    ensures var e := Sendable(Refusal(NO_ID, "parse", "request is not valid JSON"));
      && e.Dict? && Encodable(e) && WellFormed(e) && Get(e.pairs, "id") == Some(NO_ID) && Get(e.pairs, "ok").Some?
  {
    hide JsonEmit.Refused;
    var t := Refusal(NO_ID, "parse", "request is not valid JSON");
    FailureParts(NO_ID, t[2].val, t[3].val);
    EnvelopeFits(NO_ID, t[2].val, t[3].val);
    FitsIff(Dict(t));
  }
}
