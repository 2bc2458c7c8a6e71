/** A reader for RFC 8259 texts, standing for the yyjson reader, and the walk
    that turns its document into Tcl values. Duplicate members stay in the
    document; U+0000 and the other controls are refused outside escapes. */
module JsonReader {
  import opened TclValues
  import opened JsonNumber
  import opened JsonEmit

  datatype Member = Member(key: string, val: Node)

  datatype Node =
    | Null
    | Bool(b: bool)
    | Raw(literal: string)
    | Str(text: string)
    | Arr(elems: seq<Node>)
    | Obj(members: seq<Member>)

  // ---- section 2: white space -----------------------------------------------

  predicate Blank(c: char) {
    c == ' ' || c == '\t' || c == '\n' || c == '\r'
  }

  function SkipWs(s: string): (r: string)
    ensures |r| <= |s|
    ensures r != "" ==> !Blank(r[0])
  {
    if s != "" && Blank(s[0]) then SkipWs(s[1..]) else s
  }

  predicate At(s: string, c: char) {
    s != "" && s[0] == c
  }

  // ---- section 7: strings ---------------------------------------------------

  function HexValue(c: char): int {
    if '0' <= c <= '9' then c as int - '0' as int
    else if 'a' <= c <= 'f' then c as int - 'a' as int + 10
    else if 'A' <= c <= 'F' then c as int - 'A' as int + 10
    else -1
  }

  /** The value of the four hexadecimal digits at i, or -1. */
  function Hex4(s: string, i: nat): (v: int)
    ensures -1 <= v < 0x10000
  {
    if i + 4 > |s| || HexValue(s[i]) < 0 || HexValue(s[i + 1]) < 0
       || HexValue(s[i + 2]) < 0 || HexValue(s[i + 3]) < 0 then -1
    else HexValue(s[i]) * 4096 + HexValue(s[i + 1]) * 256 + HexValue(s[i + 2]) * 16 + HexValue(s[i + 3])
  }

  /** One escape, s[0] being the character after the backslash: the character
      meant and how much of s it took. A lone surrogate means nothing. */
  function Unescape(s: string): (r: Option<(char, nat)>)
    ensures r.Some? ==> 0 < r.value.1 <= |s|
  {
    if s == "" then None
    else if s[0] == '"' || s[0] == '\\' || s[0] == '/' then Some((s[0], 1))
    else if s[0] == 'b' then Some(('\U{08}', 1))
    else if s[0] == 'f' then Some(('\U{0C}', 1))
    else if s[0] == 'n' then Some(('\n', 1))
    else if s[0] == 'r' then Some(('\r', 1))
    else if s[0] == 't' then Some(('\t', 1))
    else if s[0] != 'u' then None
    else
      var hi := Hex4(s, 1);
      if hi < 0 || 0xDC00 <= hi < 0xE000 then None
      else if hi < 0xD800 || hi >= 0xE000 then Some((hi as char, 5))
      else if |s| < 11 || s[5] != '\\' || s[6] != 'u' then None
      else
        var lo := Hex4(s, 7);
        if 0xDC00 <= lo < 0xE000
        then Some(((0x10000 + (hi - 0xD800) * 0x400 + (lo - 0xDC00)) as char, 11))
        else None
  }

  /** After the opening quote: the string meant, and the text after the closing quote. */
  function ReadBody(s: string): (r: Option<(string, string)>)
    ensures r.Some? ==> |r.value.1| < |s|
    decreases |s|
  {
    if s == "" then None
    else if s[0] == '"' then Some(("", s[1..]))
    else if s[0] == '\\' then
      var e := Unescape(s[1..]);
      if e.None? then None else
      var r := ReadBody(s[1 + e.value.1..]);
      if r.None? then None else Some(([e.value.0] + r.value.0, r.value.1))
    else if s[0] < ' ' then None
    else
      var r := ReadBody(s[1..]);
      if r.None? then None else Some(([s[0]] + r.value.0, r.value.1))
  }

  // ---- sections 3 to 6: values ----------------------------------------------

  function ReadWord(s: string, word: string, n: Node): (r: Option<(Node, string)>)
    requires word != ""
    ensures r.Some? ==> |r.value.1| < |s|
  {
    if word <= s then Some((n, s[|word|..])) else None
  }

  function ReadValue(text: string): (r: Option<(Node, string)>)
    ensures r.Some? ==> |r.value.1| < |text|
    decreases |text|, 0
  {
    var s := SkipWs(text);
    if s == "" then None
    else if s[0] == '{' then
      if At(SkipWs(s[1..]), '}') then Some((Obj([]), SkipWs(s[1..])[1..]))
      else
        var r := ReadMembers(s[1..]);
        if r.None? then None else Some((Obj(r.value.0), r.value.1))
    else if s[0] == '[' then
      if At(SkipWs(s[1..]), ']') then Some((Arr([]), SkipWs(s[1..])[1..]))
      else
        var r := ReadElements(s[1..]);
        if r.None? then None else Some((Arr(r.value.0), r.value.1))
    else if s[0] == '"' then
      var r := ReadBody(s[1..]);
      if r.None? then None else Some((Str(r.value.0), r.value.1))
    else if s[0] == 't' then ReadWord(s, "true", Bool(true))
    else if s[0] == 'f' then ReadWord(s, "false", Bool(false))
    else if s[0] == 'n' then ReadWord(s, "null", Null)
    else
      var e := Scan(s);
      if e <= 0 then None else Some((Raw(s[..e]), s[e..]))
  }

  function ReadElements(s: string): (r: Option<(seq<Node>, string)>)
    ensures r.Some? ==> |r.value.1| < |s|
    decreases |s|, 1
  {
    var v := ReadValue(s);
    if v.None? then None else
    var t := SkipWs(v.value.1);
    if At(t, ']') then Some(([v.value.0], t[1..]))
    else if At(t, ',') then
      var r := ReadElements(t[1..]);
      if r.None? then None else Some(([v.value.0] + r.value.0, r.value.1))
    else None
  }

  function ReadMember(s: string): (r: Option<(Member, string)>)
    ensures r.Some? ==> |r.value.1| < |s|
    decreases |s|, 1
  {
    var q := SkipWs(s);
    if !At(q, '"') then None else
    var k := ReadBody(q[1..]);
    if k.None? then None else
    var c := SkipWs(k.value.1);
    if !At(c, ':') then None else
    var v := ReadValue(c[1..]);
    if v.None? then None else Some((Member(k.value.0, v.value.0), v.value.1))
  }

  function ReadMembers(s: string): (r: Option<(seq<Member>, string)>)
    ensures r.Some? ==> |r.value.1| < |s|
    decreases |s|, 2
  {
    var m := ReadMember(s);
    if m.None? then None else
    var t := SkipWs(m.value.1);
    if At(t, '}') then Some(([m.value.0], t[1..]))
    else if At(t, ',') then
      var r := ReadMembers(t[1..]);
      if r.None? then None else Some(([m.value.0] + r.value.0, r.value.1))
    else None
  }

  /** JSON-text = ws value ws. */
  function ReadText(s: string): Option<Node> {
    var v := ReadValue(s);
    if v.Some? && SkipWs(v.value.1) == "" then Some(v.value.0) else None
  }

  // ---- the document as Tcl values -------------------------------------------

  /** yy_to_tcl: members go through Tcl_DictObjPut in wire order, so the last of
      several equal keys wins; None is the depth breach. */
  function YyToTcl(n: Node, depth: nat): Option<Value>
    decreases n, 1
  {
    if depth >= MAX_DEPTH then None
    else match n
      case Null => Some(Scalar(""))
      case Bool(b) => Some(Scalar(if b then "1" else "0"))
      case Raw(t) => Some(Scalar(t))
      case Str(t) => Some(Scalar(t))
      case Arr(es) =>
        var r := YyList(es, depth + 1);
        if r.None? then None else Some(List(r.value))
      case Obj(ms) =>
        var r := YyDict(ms, [], depth + 1);
        if r.None? then None else Some(Dict(r.value))
  }

  function YyList(es: seq<Node>, depth: nat): (r: Option<seq<Value>>)
    decreases es, 0
  {
    if es == [] then Some([])
    else
      var v := YyToTcl(es[0], depth);
      var r := YyList(es[1..], depth);
      if v.None? || r.None? then None else Some([v.value] + r.value)
  }

  function YyDict(ms: seq<Member>, sofar: seq<Pair>, depth: nat): Option<seq<Pair>>
    decreases ms, 0
  {
    if ms == [] then Some(sofar)
    else
      var v := YyToTcl(ms[0].val, depth);
      if v.None? then None else YyDict(ms[1..], Put(sofar, ms[0].key, v.value), depth)
  }

  datatype Decoded = Ok(v: Value) | ParseError | TooDeep

  /** `json decode`. */
  function Decode(s: string): Decoded {
    var n := ReadText(s);
    if n.None? then ParseError else
    var v := YyToTcl(n.value, 0);
    if v.None? then TooDeep else Ok(v.value)
  }
}
