/** The plain JSON emitter: json_quote, json_emit, json_emit_list, json_emit_dict. */
module JsonEmit {
  import opened TclValues
  import opened JsonNumber

  const MAX_DEPTH: nat := 512

  // ---- the text a value stands for ------------------------------------------

  function HexDigit(n: nat): char
    requires n < 16
  {
    "0123456789abcdef"[n]
  }

  /** One character inside quotes. U+0000 is the two bytes C0 80 inside Tcl,
      neither of which the escape table touches, so it goes out as it is. */
  function Escaped(c: char): string {
    if c == '"' then "\\\""
    else if c == '\\' then "\\\\"
    else if c == '\U{08}' then "\\b"
    else if c == '\U{0C}' then "\\f"
    else if c == '\n' then "\\n"
    else if c == '\r' then "\\r"
    else if c == '\t' then "\\t"
    else if '\0' < c < ' ' then "\\u00" + [HexDigit(c as nat / 16), HexDigit(c as nat % 16)]
    else [c]
  }

  function Body(s: string): string {
    if s == "" then "" else Escaped(s[0]) + Body(s[1..])
  }

  function Quoted(s: string): string {
    "\"" + Body(s) + "\""
  }

  ghost function Text(v: Value): string
    decreases v, 1
  {
    match v
    case Scalar(t) => if NumberLit(t) then t else Quoted(t)
    case Typed(t) => t
    case List(es) => "[" + Elements(es) + "]"
    case Dict(ps) => "{" + Members(ps) + "}"
  }

  /** Elements joined by commas. */
  ghost function Elements(es: seq<Value>): string
    decreases es, 0
  {
    if es == [] then ""
    else if |es| == 1 then Text(es[0])
    else Text(es[0]) + ("," + Elements(es[1..]))
  }

  ghost function Members(ps: seq<Pair>): string
    decreases ps, 0
  {
    if ps == [] then ""
    else if |ps| == 1 then Member(ps[0])
    else Member(ps[0]) + ("," + Members(ps[1..]))
  }

  ghost function Member(p: Pair): string
    decreases p, 0
  {
    Quoted(p.key) + ":" + Text(p.val)
  }

  // ---- when the emitter refuses ---------------------------------------------

  datatype Refusal = Deep | TypedRefused

  /** The first refusal met in emission order, None when there is none. */
  function Refused(v: Value, depth: nat): Option<Refusal>
    decreases v, 1
  {
    if depth >= MAX_DEPTH then Some(Deep)
    else match v
      case Scalar(_) => None
      case Typed(_) => Some(TypedRefused)
      case List(es) => RefusedList(es, depth + 1)
      case Dict(ps) => RefusedPairs(ps, depth + 1)
  }

  function RefusedList(es: seq<Value>, depth: nat): Option<Refusal>
    decreases es, 0
  {
    if es == [] then None
    else
      var r := Refused(es[0], depth);
      if r.Some? then r else RefusedList(es[1..], depth)
  }

  function RefusedPairs(ps: seq<Pair>, depth: nat): Option<Refusal>
    decreases ps, 0
  {
    if ps == [] then None
    else
      var r := Refused(ps[0].val, depth);
      if r.Some? then r else RefusedPairs(ps[1..], depth)
  }

  /** Plain encoding succeeds exactly on untyped values of at most 512 levels. */
  lemma {:induction false} RefusedIffTypedOrDeep(v: Value, depth: nat)
    requires depth <= 512
    ensures Refused(v, depth).None? <==> Plain(v) && depth + Height(v) <= 512
    decreases v, 1
  {
    match v
    case Scalar(_) =>
    case Typed(_) =>
    case List(es) => if depth < MAX_DEPTH { RefusedListIff(es, depth + 1); }
    case Dict(ps) => if depth < MAX_DEPTH { RefusedPairsIff(ps, depth + 1); }
  }

  lemma {:induction false} RefusedListIff(es: seq<Value>, depth: nat)
    requires depth <= MAX_DEPTH
    ensures RefusedList(es, depth).None? <==> Plain(List(es)) && depth + ListHeight(es) <= MAX_DEPTH
    decreases es, 0
  {
    if es != [] {
      RefusedIffTypedOrDeep(es[0], depth);
      RefusedListIff(es[1..], depth);
      assert Plain(List(es)) <==> Plain(es[0]) && Plain(List(es[1..])) by {
        if Plain(es[0]) && Plain(List(es[1..])) {
          forall i | 0 <= i < |es| ensures Plain(es[i]) {
            if i > 0 { assert es[i] == es[1..][i - 1]; }
          }
        }
      }
    }
  }

  lemma {:induction false} RefusedPairsIff(ps: seq<Pair>, depth: nat)
    requires depth <= MAX_DEPTH
    ensures RefusedPairs(ps, depth).None? <==> Plain(Dict(ps)) && depth + PairsHeight(ps) <= MAX_DEPTH
    decreases ps, 0
  {
    if ps != [] {
      RefusedIffTypedOrDeep(ps[0].val, depth);
      RefusedPairsIff(ps[1..], depth);
      assert Plain(Dict(ps)) <==> Plain(ps[0].val) && Plain(Dict(ps[1..])) by {
        if Plain(ps[0].val) && Plain(Dict(ps[1..])) {
          forall i | 0 <= i < |ps| ensures Plain(ps[i].val) {
            if i > 0 { assert ps[i] == ps[1..][i - 1]; }
          }
        }
      }
    }
  }

  // ---- bookkeeping for the emitter's loops ----------------------------------

  lemma Regroup(a: string, b: string, c: string)
    ensures a + b + c == a + (b + c)
  {
  }

  lemma BodyStep(s: string, i: nat)
    requires i < |s|
    ensures Body(s[i..]) == Escaped(s[i]) + Body(s[i + 1..])
  {
    assert s[i..][0] == s[i] && s[i..][1..] == s[i + 1..];
  }

  lemma BodyDone(s: string)
    ensures Body(s[|s|..]) == ""
  {
  }

  lemma Enclose(before: string, open: string, inner: string, close: string)
    ensures before + open + inner + close == before + (open + inner + close)
  {
  }

  function Comma(i: nat): string {
    if i > 0 then "," else ""
  }

  /** What a list still owes after its first i elements. */
  ghost function Rest(es: seq<Value>, i: nat): string
    requires i <= |es|
  {
    if i == |es| then "" else Comma(i) + Elements(es[i..])
  }

  lemma RestStep(es: seq<Value>, i: nat)
    requires i < |es|
    ensures Rest(es, i) == Comma(i) + (Text(es[i]) + Rest(es, i + 1))
  {
    assert es[i..][0] == es[i] && es[i..][1..] == es[i + 1..];
    if i + 1 == |es| { assert Text(es[i]) + "" == Text(es[i]); }
  }

  ghost function RestPairs(ps: seq<Pair>, i: nat): string
    requires i <= |ps|
  {
    if i == |ps| then "" else Comma(i) + Members(ps[i..])
  }

  lemma RestPairsStep(ps: seq<Pair>, i: nat)
    requires i < |ps|
    ensures RestPairs(ps, i) == Comma(i) + (Member(ps[i]) + RestPairs(ps, i + 1))
  {
    assert ps[i..][0] == ps[i] && ps[i..][1..] == ps[i + 1..];
    if i + 1 == |ps| { assert Member(ps[i]) + "" == Member(ps[i]); }
  }

  // ---- the emitter, appending to a growing string ---------------------------

  /** Tcl_DString, reduced to what the emitter does with it. */
  class DString {
    var text: string

    constructor ()
      ensures text == ""
    {
      text := "";
    }

    method Append(s: string)
      modifies this
      ensures text == old(text) + s
    {
      text := text + s;
    }

    /** json_quote. */
    method Quote(s: string)
      modifies this
      ensures text == old(text) + Quoted(s)
    {
      hide Body, Escaped;
      ghost var before := text;
      Append("\"");
      ghost var start := text;
      assert s[0..] == s;
      for i := 0 to |s|
        invariant text + Body(s[i..]) == start + Body(s)
      {
        BodyStep(s, i);
        Regroup(text, Escaped(s[i]), Body(s[i + 1..]));
        QuoteChar(s[i]);
      }
      BodyDone(s);
      assert text == start + Body(s);
      Append("\"");
      Enclose(before, "\"", Body(s), "\"");
    }

    /** One turn of json_quote's loop. */
    method QuoteChar(c: char)
      modifies this
      ensures text == old(text) + Escaped(c)
    {
      match c
      case '"' => Append("\\\"");
      case '\\' => Append("\\\\");
      case '\U{08}' => Append("\\b");
      case '\U{0C}' => Append("\\f");
      case '\n' => Append("\\n");
      case '\r' => Append("\\r");
      case '\t' => Append("\\t");
      case _ =>
        if '\0' < c < ' ' {
          Append("\\u00" + [HexDigit(c as nat / 16), HexDigit(c as nat % 16)]);
        } else {
          Append([c]);
        }
    }

    /** json_emit on the plain path. What it leaves behind on refusal is unspecified,
        as the caller frees the buffer. */
    method Emit(v: Value, depth: nat) returns (r: Option<Refusal>)
      modifies this
      ensures r == Refused(v, depth)
      ensures r.None? ==> text == old(text) + Text(v)
      decreases v, 1
    {
      hide Members, Elements, Quoted, NumberLit;
      if depth >= MAX_DEPTH { return Some(Deep); }
      ghost var before := text;
      match v
      case Typed(_) => r := Some(TypedRefused);
      case Dict(ps) =>
        r := EmitDict(ps, depth);
        Enclose(before, "{", Members(ps), "}");
      case List(es) =>
        r := EmitList(es, depth);
        Enclose(before, "[", Elements(es), "]");
      case Scalar(s) =>
        r := None;
        var number := IsNumberLiteral(s);
        if number { Append(s); } else { Quote(s); }
    }

    method EmitList(es: seq<Value>, depth: nat) returns (r: Option<Refusal>)
      modifies this
      ensures r == RefusedList(es, depth + 1)
      ensures r.None? ==> text == old(text) + "[" + Elements(es) + "]"
      decreases es, 0
    {
      Append("[");
      ghost var start := text;
      for i := 0 to |es|
        invariant RefusedList(es, depth + 1) == RefusedList(es[i..], depth + 1)
        invariant text + Rest(es, i) == start + Elements(es)
      {
        RestStep(es, i);
        Regroup(text, Comma(i), Text(es[i]) + Rest(es, i + 1));
        Regroup(text + Comma(i), Text(es[i]), Rest(es, i + 1));
        if i > 0 { Append(","); } else { assert text + "" == text; }
        r := Emit(es[i], depth + 1);
        if r.Some? { return; }
      }
      r := None;
      assert text == start + Elements(es);
      Append("]");
    }

    method EmitDict(ps: seq<Pair>, depth: nat) returns (r: Option<Refusal>)
      modifies this
      ensures r == RefusedPairs(ps, depth + 1)
      ensures r.None? ==> text == old(text) + "{" + Members(ps) + "}"
      decreases ps, 0
    {
      hide Refused;
      hide Member;
      Append("{");
      ghost var start := text;
      for i := 0 to |ps|
        invariant RefusedPairs(ps, depth + 1) == RefusedPairs(ps[i..], depth + 1)
        invariant text + RestPairs(ps, i) == start + Members(ps)
      {
        RestPairsStep(ps, i);
        Regroup(text, Comma(i), Member(ps[i]) + RestPairs(ps, i + 1));
        Regroup(text + Comma(i), Member(ps[i]), RestPairs(ps, i + 1));
        if i > 0 { Append(","); } else { assert text + "" == text; }
        r := EmitMember(ps[i], depth + 1);
        if r.Some? { assert ps[i..][0] == ps[i]; return; }
        assert ps[i..][0] == ps[i] && ps[i..][1..] == ps[i + 1..];
      }
      r := None;
      assert text == start + Members(ps);
      Append("}");
    }

    /** A JSON key is always a string, even one that looks like a number. */
    method EmitMember(p: Pair, depth: nat) returns (r: Option<Refusal>)
      modifies this
      ensures r == Refused(p.val, depth)
      ensures r.None? ==> text == old(text) + Member(p)
      decreases p, 0
    {
      ghost var before := text;
      Quote(p.key);
      Append(":");
      r := Emit(p.val, depth);
      if r.None? {
        Regroup(before, Quoted(p.key), ":");
        Regroup(before, Quoted(p.key) + ":", Text(p.val));
      }
    }
  }

  /** `json encode -plain`: the text, or the refusal. */
  method EncodePlain(v: Value) returns (r: Option<string>)
    ensures r.Some? <==> Plain(v) && Height(v) <= 512
    ensures r.Some? ==> r.value == Text(v)
  {
    RefusedIffTypedOrDeep(v, 0);
    var out := new DString();
    var refused := out.Emit(v, 0);
    r := if refused.None? then Some(out.text) else None;
  }
}
