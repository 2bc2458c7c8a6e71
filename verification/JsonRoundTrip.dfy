/** Plain encoding and plain decoding are inverse to each other exactly on values
    free of U+0000, and an encoded value is one line of text. */
module JsonRoundTrip {
  import opened Decimal
  import opened TclValues
  import opened JsonNumber
  import opened JsonEmit
  import opened JsonReader

  /** The document a value is written as. */
  ghost function NodeOf(v: Value): Node
    requires Plain(v)
    decreases v
  {
    match v
    case Scalar(t) => if NumberLit(t) then Raw(t) else Str(t)
    case List(es) => Arr(seq(|es|, i requires 0 <= i < |es| => NodeOf(es[i])))
    case Dict(ps) => Obj(seq(|ps|, i requires 0 <= i < |ps| => Member(ps[i].key, NodeOf(ps[i].val))))
  }

  // ---- strings --------------------------------------------------------------

  lemma EscapeUnescaped(c: char, tail: string)
    requires c != '\0'
    ensures ReadBody(Escaped(c) + tail) ==
            var r := ReadBody(tail);
            if r.None? then None else Some(([c] + r.value.0, r.value.1))
  {
    var s := Escaped(c) + tail;
    UnescapesBack(c, tail);
    if |Escaped(c)| == 1 {
      assert s[1..] == tail;
    } else {
      assert s[1 + Unescape(s[1..]).value.1..] == tail;
    }
  }

  /** The escape table of the printer against the reader's. */
  lemma UnescapesBack(c: char, tail: string)
    requires c != '\0'
    ensures var e := Escaped(c);
      || (|e| == 1 && e[0] == c >= ' ' && c != '"' && c != '\\')
      || (|e| > 1 && e[0] == '\\' && Unescape((e + tail)[1..]) == Some((c, |e| - 1)))
  {
    var s := Escaped(c) + tail;
    if |Escaped(c)| == 6 {
      HexReadsBack(c as nat / 16);
      HexReadsBack(c as nat % 16);
      assert s[1..][1] == '0' && s[1..][2] == '0';
      assert s[1..][3] == HexDigit(c as nat / 16) && s[1..][4] == HexDigit(c as nat % 16);
      assert Hex4(s[1..], 1) == c as int;
    }
  }

  lemma HexReadsBack(n: nat)
    requires n < 16
    ensures HexValue(HexDigit(n)) == n
  {
  }

  lemma {:induction false} BodyReadsBack(s: string, tail: string)
    requires NoNul(s)
    ensures ReadBody(Body(s) + ("\"" + tail)) == Some((s, tail))
  {
    var q := "\"" + tail;
    if s == "" {
      assert Body(s) + q == q && q[1..] == tail;
    } else {
      BodyReadsBack(s[1..], tail);
      EscapeUnescaped(s[0], Body(s[1..]) + q);
      Regroup(Escaped(s[0]), Body(s[1..]), q);
      assert [s[0]] + s[1..] == s;
    }
  }

  lemma QuotedReadsBack(s: string, tail: string)
    requires NoNul(s)
    ensures var q := Quoted(s) + tail; At(q, '"') && ReadBody(q[1..]) == Some((s, tail))
  {
    hide Body, ReadBody;
    BodyReadsBack(s, tail);
    Unquoted(Body(s), tail);
  }

  lemma Unquoted(body: string, tail: string)
    ensures var q := "\"" + body + "\"" + tail; q[0] == '"' && q[1..] == body + ("\"" + tail)
  {
  }

  // ---- values ---------------------------------------------------------------

  lemma SkipNothing(s: string)
    requires s != "" && !Blank(s[0])
    ensures SkipWs(s) == s
  {
  }

  /** What the first character of an encoded value can be. */
  lemma TextStart(v: Value)
    requires Plain(v)
    ensures Text(v) != ""
    ensures var c := Text(v)[0]; c == '{' || c == '[' || c == '"' || c == '-' || Digit(c)
  {
    if v.Scalar? && NumberLit(v.text) { NumberAlphabet(v.text); }
  }

  // One step of ReadValue for each kind of value.

  lemma ReadsNumber(t: string, tail: string)
    requires NumberLit(t) && Ends(tail)
    ensures ReadValue(t + tail) == Some((Raw(t), tail))
  {
    hide ReadElements;
    hide ReadMembers;
    NumberAlphabet(t);
    ScanStopsAtNumber(t, tail);
    var s := t + tail;
    SkipNothing(s);
    assert s[..|t|] == t && s[|t|..] == tail;
  }

  lemma ReadsString(t: string, tail: string)
    requires NoNul(t)
    ensures ReadValue(Quoted(t) + tail) == Some((Str(t), tail))
  {
    hide ReadElements;
    hide ReadMembers;
    QuotedReadsBack(t, tail);
    SkipNothing(Quoted(t) + tail);
  }

  lemma ReadsArray(more: string)
    requires !At(SkipWs(more), ']') && ReadElements(more).Some?
    ensures ReadValue("[" + more) == Some((Arr(ReadElements(more).value.0), ReadElements(more).value.1))
  {
    hide ReadElements;
    hide ReadMembers;
    var s := "[" + more;
    SkipNothing(s);
    assert s[1..] == more;
  }

  lemma ReadsObject(more: string)
    requires !At(SkipWs(more), '}') && ReadMembers(more).Some?
    ensures ReadValue("{" + more) == Some((Obj(ReadMembers(more).value.0), ReadMembers(more).value.1))
  {
    hide ReadElements;
    hide ReadMembers;
    var s := "{" + more;
    SkipNothing(s);
    assert s[1..] == more;
  }

  lemma ReadsEmpty(tail: string)
    ensures ReadValue("[]" + tail) == Some((Arr([]), tail))
    ensures ReadValue("{}" + tail) == Some((Obj([]), tail))
  {
    hide ReadElements;
    hide ReadMembers;
    var s, t := "[]" + tail, "{}" + tail;
    SkipNothing(s);
    SkipNothing(t);
    assert s[1..] == "]" + tail && s[1..][1..] == tail;
    assert t[1..] == "}" + tail && t[1..][1..] == tail;
  }

  // One turn of each of the reader's loops.

  lemma LastElement(s: string, n: Node, tail: string)
    requires ReadValue(s) == Some((n, "]" + tail))
    ensures ReadElements(s) == Some(([n], tail))
  {
    hide ReadValue;
    SkipNothing("]" + tail);
    assert ("]" + tail)[1..] == tail;
  }

  lemma NextElement(s: string, n: Node, more: string)
    requires ReadValue(s) == Some((n, "," + more)) && ReadElements(more).Some?
    ensures ReadElements(s) == Some(([n] + ReadElements(more).value.0, ReadElements(more).value.1))
  {
    hide ReadValue;
    SkipNothing("," + more);
    assert ("," + more)[1..] == more;
  }

  lemma LastMember(s: string, m: Member, tail: string)
    requires ReadMember(s) == Some((m, "}" + tail))
    ensures ReadMembers(s) == Some(([m], tail))
  {
    hide ReadMember;
    SkipNothing("}" + tail);
    assert ("}" + tail)[1..] == tail;
  }

  lemma NextMember(s: string, m: Member, more: string)
    requires ReadMember(s) == Some((m, "," + more)) && ReadMembers(more).Some?
    ensures ReadMembers(s) == Some(([m] + ReadMembers(more).value.0, ReadMembers(more).value.1))
  {
    hide ReadMember;
    SkipNothing("," + more);
    assert ("," + more)[1..] == more;
  }

  /** Reading an encoded value followed by a separator gives the value's document
      and leaves the separator. */
  lemma {:induction false} TextReadsBack(v: Value, tail: string)
    requires Plain(v) && NulFree(v) && Ends(tail)
    ensures ReadValue(Text(v) + tail) == Some((NodeOf(v), tail))
    decreases v, 1
  {
    hide ReadValue;
    match v
    case Scalar(t) =>
      if NumberLit(t) { ReadsNumber(t, tail); } else { ReadsString(t, tail); }
    case List(es) => ListReadsBack(es, tail);
    case Dict(ps) => DictReadsBack(ps, tail);
  }

  lemma {:induction false} ListReadsBack(es: seq<Value>, tail: string)
    requires Plain(List(es)) && NulFree(List(es))
    ensures ReadValue(Text(List(es)) + tail) == Some((Arr(NodesOf(es)), tail))
    decreases es, 1
  {
    hide ReadValue;
    hide ReadElements;
    hide SkipWs;
    assert Text(List(es)) == "[" + Elements(es) + "]";
    if es == [] { assert Elements(es) == ""; }
    hide Elements;
    hide Text;
    var s := Text(List(es)) + tail;
    if es == [] {
      ReadsEmpty(tail);
      assert s == "[]" + tail && NodesOf(es) == [];
    } else {
      var more := Elements(es) + ("]" + tail);
      ElementsReadBack(es, tail);
      ElementsStart(es, "]" + tail);
      ReadsArray(more);
      assert s == "[" + more;
    }
  }

  lemma {:induction false} DictReadsBack(ps: seq<Pair>, tail: string)
    requires Plain(Dict(ps)) && NulFree(Dict(ps))
    ensures ReadValue(Text(Dict(ps)) + tail) == Some((Obj(MembersOf(ps)), tail))
    decreases ps, 1
  {
    hide ReadValue;
    hide ReadMembers;
    hide SkipWs;
    assert Text(Dict(ps)) == "{" + Members(ps) + "}";
    if ps == [] { assert Members(ps) == ""; }
    hide Members;
    hide Text;
    var s := Text(Dict(ps)) + tail;
    if ps == [] {
      ReadsEmpty(tail);
      assert s == "{}" + tail && MembersOf(ps) == [];
    } else {
      var more := Members(ps) + ("}" + tail);
      MembersReadBack(ps, tail);
      MembersStart(ps, "}" + tail);
      ReadsObject(more);
      assert s == "{" + more;
    }
  }

  ghost function NodesOf(es: seq<Value>): seq<Node>
    requires Plain(List(es))
  {
    seq(|es|, i requires 0 <= i < |es| => NodeOf(es[i]))
  }

  ghost function MembersOf(ps: seq<Pair>): seq<Member>
    requires Plain(Dict(ps))
  {
    seq(|ps|, i requires 0 <= i < |ps| => Member(ps[i].key, NodeOf(ps[i].val)))
  }

  lemma ElementsStart(es: seq<Value>, tail: string)
    requires es != [] && Plain(List(es))
    ensures !At(SkipWs(Elements(es) + tail), ']')
  {
    TextStart(es[0]);
    assert (Elements(es) + tail)[0] == Text(es[0])[0];
    SkipNothing(Elements(es) + tail);
  }

  lemma MembersStart(ps: seq<Pair>, tail: string)
    requires ps != [] && Plain(Dict(ps))
    ensures !At(SkipWs(Members(ps) + tail), '}')
  {
    hide Text;
    var m := JsonEmit.Member(ps[0]);
    assert m != "" && m[0] == Quoted(ps[0].key)[0] == '"';
    hide JsonEmit.Member;
    assert Members(ps) != "" && Members(ps)[0] == m[0];
    hide Members;
    SkipNothing(Members(ps) + tail);
  }

  lemma ElementsSplit(es: seq<Value>, close: string)
    requires |es| > 1
    ensures Elements(es) + close == Text(es[0]) + ("," + (Elements(es[1..]) + close))
  {
    var x, y := Text(es[0]), Elements(es[1..]);
    assert Elements(es) == x + ("," + y);
    hide *;
    Regroup(x, "," + y, close);
    Regroup(",", y, close);
  }

  lemma NodesSplit(es: seq<Value>)
    requires es != [] && Plain(List(es))
    ensures NodesOf(es) == [NodeOf(es[0])] + NodesOf(es[1..])
  {
    hide NodeOf;
  }

  lemma {:induction false} ElementsReadBack(es: seq<Value>, tail: string)
    requires es != [] && Plain(List(es)) && NulFree(List(es))
    ensures ReadElements(Elements(es) + ("]" + tail)) == Some((NodesOf(es), tail))
    decreases es, 0
  {
    hide ReadValue;
    hide ReadElements;
    var close := "]" + tail;
    if |es| == 1 {
      TextReadsBack(es[0], close);
      LastElement(Elements(es) + close, NodeOf(es[0]), tail);
      assert NodesOf(es) == [NodeOf(es[0])];
    } else {
      var more := Elements(es[1..]) + close;
      TextReadsBack(es[0], "," + more);
      ElementsSplit(es, close);
      NodesSplit(es);
      hide Elements;
      hide NodesOf;
      hide Text;
      ElementsReadBack(es[1..], tail);
      NextElement(Elements(es) + close, NodeOf(es[0]), more);
    }
  }

  lemma {:induction false} MemberReadsBack(p: Pair, tail: string)
    requires Plain(p.val) && NoNul(p.key) && NulFree(p.val) && Ends(tail)
    ensures ReadMember(JsonEmit.Member(p) + tail) == Some((Member(p.key, NodeOf(p.val)), tail))
    decreases p, 0
  {
    hide ReadValue;
    hide ReadBody;
    hide Body;
    var s := JsonEmit.Member(p) + tail;
    var colon := ":" + Text(p.val) + tail;
    assert s == Quoted(p.key) + colon;
    SkipNothing(s);
    QuotedReadsBack(p.key, colon);
    SkipNothing(colon);
    assert colon[1..] == Text(p.val) + tail;
    TextReadsBack(p.val, tail);
  }

  lemma MembersSplit(ps: seq<Pair>, close: string)
    requires |ps| > 1
    ensures Members(ps) + close == JsonEmit.Member(ps[0]) + ("," + (Members(ps[1..]) + close))
  {
    var x, y := JsonEmit.Member(ps[0]), Members(ps[1..]);
    assert Members(ps) == x + ("," + y);
    hide *;
    Regroup(x, "," + y, close);
    Regroup(",", y, close);
  }

  lemma DocMembersSplit(ps: seq<Pair>)
    requires ps != [] && Plain(Dict(ps))
    ensures MembersOf(ps) == [Member(ps[0].key, NodeOf(ps[0].val))] + MembersOf(ps[1..])
  {
    hide NodeOf;
  }

  lemma {:induction false} MembersReadBack(ps: seq<Pair>, tail: string)
    requires ps != [] && Plain(Dict(ps)) && NulFree(Dict(ps))
    ensures ReadMembers(Members(ps) + ("}" + tail)) == Some((MembersOf(ps), tail))
    decreases ps, 0
  {
    hide ReadMember;
    hide ReadMembers;
    var close := "}" + tail;
    var first := Member(ps[0].key, NodeOf(ps[0].val));
    if |ps| == 1 {
      MemberReadsBack(ps[0], close);
      LastMember(Members(ps) + close, first, tail);
      assert MembersOf(ps) == [first];
    } else {
      var more := Members(ps[1..]) + close;
      MemberReadsBack(ps[0], "," + more);
      MembersSplit(ps, close);
      DocMembersSplit(ps);
      hide Members;
      hide MembersOf;
      hide JsonEmit.Member;
      MembersReadBack(ps[1..], tail);
      NextMember(Members(ps) + close, first, more);
    }
  }

  // ---- back to Tcl ----------------------------------------------------------

  lemma {:induction false} NodeToTcl(v: Value, depth: nat)
    requires Plain(v) && WellFormed(v) && depth + Height(v) <= MAX_DEPTH
    ensures YyToTcl(NodeOf(v), depth) == Some(v)
    decreases v, 1
  {
    match v
    case Scalar(_) =>
    case List(es) =>
      NodesToTcl(es, depth + 1);
      assert NodeOf(v).elems == NodesOf(es);
    case Dict(ps) =>
      MembersToTcl(ps, [], depth + 1);
      assert NodeOf(v).members == MembersOf(ps);
      assert [] + ps == ps;
  }

  lemma {:induction false} NodesToTcl(es: seq<Value>, depth: nat)
    requires Plain(List(es)) && WellFormed(List(es)) && depth + ListHeight(es) <= MAX_DEPTH
    ensures YyList(NodesOf(es), depth) == Some(es)
    decreases es, 0
  {
    if es != [] {
      NodeToTcl(es[0], depth);
      NodesToTcl(es[1..], depth);
      assert NodesOf(es)[1..] == NodesOf(es[1..]);
      assert [es[0]] + es[1..] == es;
    }
  }

  lemma {:induction false} MembersToTcl(ps: seq<Pair>, sofar: seq<Pair>, depth: nat)
    requires Plain(Dict(ps)) && depth + PairsHeight(ps) <= MAX_DEPTH
    requires DistinctKeys(sofar + ps) && forall i :: 0 <= i < |ps| ==> WellFormed(ps[i].val)
    ensures YyDict(MembersOf(ps), sofar, depth) == Some(sofar + ps)
    decreases ps, 0
  {
    if ps == [] {
      assert sofar + ps == sofar;
    } else {
      NodeToTcl(ps[0].val, depth);
      assert MembersOf(ps)[1..] == MembersOf(ps[1..]);
      assert Find(sofar, ps[0].key) == -1 by {
        forall j | 0 <= j < |sofar| ensures sofar[j].key != ps[0].key {
          assert (sofar + ps)[j] == sofar[j] && (sofar + ps)[|sofar|] == ps[0];
        }
      }
      assert sofar + [ps[0]] + ps[1..] == sofar + ps;
      MembersToTcl(ps[1..], sofar + [ps[0]], depth);
    }
  }

  // ---- nothing the reader accepts holds a raw U+0000 -------------------------

  /** r is what is left of s after a prefix without U+0000. */
  predicate Eats(s: string, r: string) {
    |r| <= |s| && s[|s| - |r|..] == r && NoNul(s[..|s| - |r|])
  }

  lemma EatsBoth(a: string, b: string, c: string)
    requires Eats(a, b) && Eats(b, c)
    ensures Eats(a, c)
  {
    var i, j := |a| - |b|, |a| - |c|;
    assert a[j..] == b[|b| - |c|..];
    forall k | 0 <= k < j ensures a[k] != '\0' {
      if k < i { assert a[..i][k] == a[k]; } else { assert b[..|b| - |c|][k - i] == a[k]; }
    }
  }

  lemma {:induction false} SkipEats(s: string)
    ensures Eats(s, SkipWs(s))
  {
    if s != "" && Blank(s[0]) {
      SkipEats(s[1..]);
      EatsSome(s, 1);
      EatsBoth(s, s[1..], SkipWs(s));
      hide Eats;
    }
  }

  lemma EatsSome(s: string, n: nat)
    requires n <= |s| && forall k :: 0 <= k < n ==> s[k] != '\0'
    ensures Eats(s, s[n..])
  {
  }

  lemma HexIsNotNul(s: string, i: nat)
    requires Hex4(s, i) >= 0
    ensures i + 4 <= |s| && forall k :: i <= k < i + 4 ==> s[k] != '\0'
  {
    assert HexValue('\0') == -1;
  }

  lemma UnescapeEats(s: string)
    requires Unescape(s).Some?
    ensures Eats(s, s[Unescape(s).value.1..])
  {
    if s[0] == 'u' {
      HexIsNotNul(s, 1);
      if Unescape(s).value.1 == 11 { HexIsNotNul(s, 7); }
    }
    EatsSome(s, Unescape(s).value.1);
  }

  lemma {:induction false} BodyEats(s: string)
    requires ReadBody(s).Some?
    ensures Eats(s, ReadBody(s).value.1)
    decreases |s|
  {
    if s[0] == '"' {
      EatsSome(s, 1);
    } else if s[0] == '\\' {
      EatsSome(s, 1);
      UnescapeEats(s[1..]);
      var n := Unescape(s[1..]).value.1;
      assert s[1..][n..] == s[1 + n..];
      EatsBoth(s, s[1..], s[1 + n..]);
      BodyEats(s[1 + n..]);
      EatsBoth(s, s[1 + n..], ReadBody(s).value.1);
    } else {
      EatsSome(s, 1);
      BodyEats(s[1..]);
      EatsBoth(s, s[1..], ReadBody(s).value.1);
    }
  }

  lemma {:induction false} ValueEats(text: string)
    requires ReadValue(text).Some?
    ensures Eats(text, ReadValue(text).value.1)
    decreases |text|, 0
  {
    var s := SkipWs(text);
    var r := ReadValue(text).value.1;
    SkipEats(text);
    if s[0] == '{' {
      BracketEats(s, '}');
      if !At(SkipWs(s[1..]), '}') {
        MembersEat(s[1..]);
        EatsBoth(s, s[1..], r);
      }
    } else if s[0] == '[' {
      BracketEats(s, ']');
      if !At(SkipWs(s[1..]), ']') {
        ElementsEat(s[1..]);
        EatsBoth(s, s[1..], r);
      }
    } else if s[0] == '"' {
      EatsSome(s, 1);
      BodyEats(s[1..]);
      EatsBoth(s, s[1..], r);
    } else {
      AtomEats(s, r);
    }
    EatsBoth(text, s, r);
  }

  lemma BracketEats(s: string, close: char)
    requires s != "" && s[0] != '\0' && close != '\0'
    ensures Eats(s, s[1..])
    ensures var t := SkipWs(s[1..]); At(t, close) ==> Eats(s, t[1..])
  {
    EatsSome(s, 1);
    var t := SkipWs(s[1..]);
    if At(t, close) {
      SkipEats(s[1..]);
      EatsBoth(s, s[1..], t);
      EatsSome(t, 1);
      EatsBoth(s, t, t[1..]);
    }
  }

  lemma AtomEats(s: string, r: string)
    requires s != "" && !Blank(s[0]) && s[0] != '{' && s[0] != '[' && s[0] != '"'
    requires ReadValue(s).Some? && r == ReadValue(s).value.1
    ensures Eats(s, r)
  {
    hide ReadElements;
    hide ReadMembers;
    hide ReadBody;
    hide Scan;
    SkipNothing(s);
    if s[0] == 't' { WordEats(s, "true"); }
    else if s[0] == 'f' { WordEats(s, "false"); }
    else if s[0] == 'n' { WordEats(s, "null"); }
    else { NumberEats(s); }
  }

  lemma WordEats(s: string, word: string)
    requires NoNul(word)
    ensures word <= s ==> Eats(s, s[|word|..])
  {
    if word <= s { assert s[..|word|] == word; }
  }

  lemma NumberEats(s: string)
    ensures Scan(s) >= 0 ==> Eats(s, s[Scan(s)..])
  {
    var e := Scan(s);
    hide Scan;
    if e >= 0 {
      ScannedIsNumber(s);
      NumberAlphabet(s[..e]);
      forall k | 0 <= k < e ensures s[k] != '\0' { assert s[..e][k] == s[k]; }
      EatsSome(s, e);
    }
  }

  lemma {:induction false} ElementsEat(s: string)
    requires ReadElements(s).Some?
    ensures Eats(s, ReadElements(s).value.1)
    decreases |s|, 1
  {
    ValueEats(s);
    var rest := ReadValue(s).value.1;
    var t := SkipWs(rest);
    SkipEats(rest);
    EatsSome(t, 1);
    EatsBoth(s, rest, t);
    EatsBoth(s, t, t[1..]);
    if !At(t, ']') {
      ElementsEat(t[1..]);
      EatsBoth(s, t[1..], ReadElements(s).value.1);
    }
  }

  lemma {:induction false} MemberEats(s: string)
    requires ReadMember(s).Some?
    ensures Eats(s, ReadMember(s).value.1)
    decreases |s|, 1
  {
    hide ReadValue;
    hide ReadBody;
    hide SkipWs;
    var q := SkipWs(s);
    SkipEats(s);
    EatsSome(q, 1);
    EatsBoth(s, q, q[1..]);
    BodyEats(q[1..]);
    var k := ReadBody(q[1..]).value.1;
    EatsBoth(s, q[1..], k);
    var c := SkipWs(k);
    SkipEats(k);
    EatsBoth(s, k, c);
    EatsSome(c, 1);
    EatsBoth(s, c, c[1..]);
    ValueEats(c[1..]);
    EatsBoth(s, c[1..], ReadMember(s).value.1);
  }

  lemma {:induction false} MembersEat(s: string)
    requires ReadMembers(s).Some?
    ensures Eats(s, ReadMembers(s).value.1)
    decreases |s|, 2
  {
    MemberEats(s);
    var rest := ReadMember(s).value.1;
    var t := SkipWs(rest);
    SkipEats(rest);
    EatsSome(t, 1);
    EatsBoth(s, rest, t);
    EatsBoth(s, t, t[1..]);
    if !At(t, '}') {
      MembersEat(t[1..]);
      EatsBoth(s, t[1..], ReadMembers(s).value.1);
    }
  }

  lemma AcceptedTextHasNoNul(s: string)
    requires ReadText(s).Some?
    ensures NoNul(s)
  {
    ValueEats(s);
    var rest := ReadValue(s).value.1;
    SkipEats(rest);
    EatsBoth(s, rest, "");
    assert s[..|s| - |""|] == s;
  }

  // ---- characters of an encoded value ---------------------------------------

  /** U+0000 or printable: in particular never a newline. */
  predicate OneLine(s: string) {
    forall i :: 0 <= i < |s| ==> s[i] == '\0' || s[i] >= ' '
  }

  predicate Carries(s: string, nul: bool) {
    OneLine(s) && (NoNul(s) <==> !nul)
  }

  lemma CarriesBoth(a: string, x: bool, b: string, y: bool)
    requires Carries(a, x) && Carries(b, y)
    ensures Carries(a + b, x || y)
  {
    if !NoNul(a) {
      var i :| 0 <= i < |a| && a[i] == '\0';
      assert (a + b)[i] == '\0';
    } else if !NoNul(b) {
      var i :| 0 <= i < |b| && b[i] == '\0';
      assert (a + b)[|a| + i] == '\0';
    }
  }

  lemma EscapedCarries(c: char)
    ensures Carries(Escaped(c), c == '\0')
  {
    if '\0' < c < ' ' && |Escaped(c)| == 6 {
      HexIsPrintable(c as nat / 16);
      HexIsPrintable(c as nat % 16);
      CarriesBoth("\\u00", false, [HexDigit(c as nat / 16), HexDigit(c as nat % 16)], false);
    } else if c == '\0' {
      assert Escaped(c)[0] == '\0';
    }
  }

  lemma HexIsPrintable(n: nat)
    requires n < 16
    ensures HexDigit(n) >= ' '
  {
  }

  lemma {:induction false} BodyCarries(s: string)
    ensures Carries(Body(s), !NoNul(s))
  {
    if s != "" {
      BodyCarries(s[1..]);
      EscapedCarries(s[0]);
      hide Escaped;
      CarriesBoth(Escaped(s[0]), s[0] == '\0', Body(s[1..]), !NoNul(s[1..]));
      assert NoNul(s) <==> s[0] != '\0' && NoNul(s[1..]) by {
        assert forall k :: 0 < k < |s| ==> s[k] == s[1..][k - 1];
      }
    }
  }

  lemma QuotedCarries(s: string)
    ensures Carries(Quoted(s), !NoNul(s))
  {
    BodyCarries(s);
    CarriesBoth("\"", false, Body(s), !NoNul(s));
    CarriesBoth("\"" + Body(s), !NoNul(s), "\"", false);
  }

  /** U+0000 shows in the text exactly when some key or scalar holds it. */
  lemma {:induction false} TextCarries(v: Value)
    requires Plain(v)
    ensures Carries(Text(v), !NulFree(v))
    decreases v, 1
  {
    match v
    case Scalar(t) =>
      if NumberLit(t) { NumberAlphabet(t); } else { QuotedCarries(t); }
    case List(es) =>
      ElementsCarry(es);
      CarriesBoth("[", false, Elements(es), !NulFree(v));
      CarriesBoth("[" + Elements(es), !NulFree(v), "]", false);
    case Dict(ps) =>
      MembersCarry(ps);
      CarriesBoth("{", false, Members(ps), !NulFree(v));
      CarriesBoth("{" + Members(ps), !NulFree(v), "}", false);
  }

  lemma {:induction false} ElementsCarry(es: seq<Value>)
    requires Plain(List(es))
    ensures Carries(Elements(es), !NulFree(List(es)))
    decreases es, 0
  {
    if es != [] {
      TextCarries(es[0]);
      ElementsCarry(es[1..]);
      var x, y := !NulFree(es[0]), !NulFree(List(es[1..]));
      CarriesBoth(",", false, Elements(es[1..]), y);
      CarriesBoth(Text(es[0]), x, "," + Elements(es[1..]), y);
      assert NulFree(List(es)) <==> !x && !y by {
        assert forall i :: 0 < i < |es| ==> es[i] == es[1..][i - 1];
      }
    }
  }

  lemma {:induction false} MembersCarry(ps: seq<Pair>)
    requires Plain(Dict(ps))
    ensures Carries(Members(ps), !NulFree(Dict(ps)))
    decreases ps, 0
  {
    if ps != [] {
      var k, x, y := !NoNul(ps[0].key), !NulFree(ps[0].val), !NulFree(Dict(ps[1..]));
      QuotedCarries(ps[0].key);
      TextCarries(ps[0].val);
      MembersCarry(ps[1..]);
      CarriesBoth(Quoted(ps[0].key), k, ":", false);
      CarriesBoth(Quoted(ps[0].key) + ":", k, Text(ps[0].val), x);
      CarriesBoth(",", false, Members(ps[1..]), y);
      CarriesBoth(JsonEmit.Member(ps[0]), k || x, "," + Members(ps[1..]), y);
      assert NulFree(Dict(ps)) <==> !(k || x) && !y by {
        assert forall i :: 0 < i < |ps| ==> ps[i] == ps[1..][i - 1];
      }
    }
  }

  // ---- the main results -----------------------------------------------------

  /** The round trip of the plain mapping, and the one family it fails on. */
  lemma PlainRoundTrip(v: Value)
    requires Plain(v) && WellFormed(v) && Height(v) <= 512
    ensures Decode(Text(v)) == Ok(v) <==> NulFree(v)
    ensures !NulFree(v) ==> Decode(Text(v)) == ParseError
  {
    if NulFree(v) {
      TextReadsBack(v, "");
      assert Text(v) + "" == Text(v);
      NodeToTcl(v, 0);
    } else {
      TextCarries(v);
      if ReadText(Text(v)).Some? { AcceptedTextHasNoNul(Text(v)); }
    }
  }

  /** An encoded value never contains a newline, so it is one record on the wire. */
  lemma EncodedIsOneLine(v: Value)
    requires Plain(v)
    ensures Text(v) != "" && '\n' !in Text(v)
  {
    TextCarries(v);
    TextStart(v);
  }

  /** The postcode rule: a scalar is written bare exactly when it is a number of the
      grammar, and then it comes back as that literal; otherwise as a string. */
  lemma ScalarSpelling(t: string)
    requires NoNul(t)
    ensures ReadText(Text(Scalar(t))) == Some(if NumberLit(t) then Raw(t) else Str(t))
    ensures NumberLit(t) <==> Text(Scalar(t)) == t
  {
    TextReadsBack(Scalar(t), "");
    assert Text(Scalar(t)) + "" == Text(Scalar(t));
    if !NumberLit(t) && Quoted(t) == t { BodyGrows(t); }
  }

  lemma {:induction false} BodyGrows(s: string)
    ensures |Body(s)| >= |s|
  {
    if s != "" { BodyGrows(s[1..]); }
  }

  /** The three names of JSON come in as the empty string, 1 and 0. */
  lemma NamesRead()
    ensures Decode("null") == Ok(Scalar("")) && Decode("true") == Ok(Scalar("1")) && Decode("false") == Ok(Scalar("0"))
  {
  }
}
