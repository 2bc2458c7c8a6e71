/** A cut-off line is no reply: no proper prefix of an encoded dict is a JSON text. */
module JsonPrefix {
  import opened TclValues
  import opened JsonNumber
  import opened JsonEmit
  import opened JsonReader
  import opened JsonRoundTrip

  // ---- what has been read stays read, whatever follows --------------------------------

  lemma {:induction false} SkipStays(s: string, tail: string)
    requires SkipWs(s) != ""
    ensures SkipWs(s + tail) == SkipWs(s) + tail
  {
    if Blank(s[0]) {
      SkipStays(s[1..], tail);
      assert (s + tail)[1..] == s[1..] + tail;
    }
  }

  lemma HexStays(s: string, i: nat, tail: string)
    requires Hex4(s, i) >= 0
    ensures Hex4(s + tail, i) == Hex4(s, i)
  {
  }

  lemma UnescapeStays(s: string, tail: string)
    requires Unescape(s).Some?
    ensures Unescape(s + tail) == Unescape(s)
  {
    hide Hex4;
    if s[0] == 'u' {
      HexStays(s, 1, tail);
      if |s| >= 11 && Hex4(s, 7) >= 0 { HexStays(s, 7, tail); }
    }
  }

  lemma {:induction false} BodyStays(s: string, tail: string)
    requires ReadBody(s).Some?
    ensures ReadBody(s + tail) == Some((ReadBody(s).value.0, ReadBody(s).value.1 + tail))
    decreases |s|
  {
    var t := s + tail;
    if s[0] == '"' {
      assert t[1..] == s[1..] + tail;
    } else if s[0] == '\\' {
      assert t[1..] == s[1..] + tail;
      UnescapeStays(s[1..], tail);
      var n := Unescape(s[1..]).value.1;
      assert t[1 + n..] == s[1 + n..] + tail;
      BodyStays(s[1 + n..], tail);
    } else {
      assert t[1..] == s[1..] + tail;
      BodyStays(s[1..], tail);
    }
  }

  lemma NumberStays(s: string, tail: string)
    requires 0 <= Scan(s) < |s| && Ends(s[Scan(s)..])
    ensures Scan(s + tail) == Scan(s)
  {
    var e := Scan(s);
    hide Scan;
    ScannedIsNumber(s);
    assert s + tail == s[..e] + (s[e..] + tail);
    ScanStopsAtNumber(s[..e], s[e..] + tail);
  }

  /** The value ends visibly: with a bracket of its own, or before something that cannot
      continue it. */
  predicate Closed(s: string, rest: string) {
    At(SkipWs(s), '{') || (rest != "" && Ends(rest))
  }

  lemma SeparatorCloses(s: string, rest: string)
    requires At(SkipWs(rest), ',') || At(SkipWs(rest), ']') || At(SkipWs(rest), '}')
    ensures Closed(s, rest)
  {
  }

  lemma WordStays(s: string, tail: string, word: string, n: Node)
    requires word != "" && ReadWord(s, word, n).Some?
    ensures ReadWord(s, word, n).value.0 == n
    ensures ReadWord(s + tail, word, n) == Some((n, ReadWord(s, word, n).value.1 + tail))
  {
    assert (s + tail)[..|word|] == word;
    assert (s + tail)[|word|..] == s[|word|..] + tail;
  }

  /** A value that opens no bracket. */
  lemma AtomStays(s: string, tail: string)
    requires s != "" && !Blank(s[0]) && s[0] != '{' && s[0] != '['
    requires ReadValue(s).Some? && Ends(ReadValue(s).value.1) && ReadValue(s).value.1 != ""
    ensures ReadValue(s + tail) == Some((ReadValue(s).value.0, ReadValue(s).value.1 + tail))
  {
    hide ReadElements, ReadMembers, ReadBody, Scan, ReadWord;
    SkipNothing(s);
    SkipNothing(s + tail);
    if s[0] == '"' {
      BodyStays(s[1..], tail);
      assert (s + tail)[1..] == s[1..] + tail;
    } else if s[0] == 't' {
      WordStays(s, tail, "true", Bool(true));
    } else if s[0] == 'f' {
      WordStays(s, tail, "false", Bool(false));
    } else if s[0] == 'n' {
      WordStays(s, tail, "null", Null);
    } else {
      var e := Scan(s);
      NumberStays(s, tail);
      assert (s + tail)[..e] == s[..e] && (s + tail)[e..] == s[e..] + tail;
    }
  }

  lemma ValueSkips(text: string)
    requires SkipWs(text) != ""
    ensures ReadValue(text) == ReadValue(SkipWs(text))
  {
    hide ReadElements, ReadMembers;
    SkipNothing(SkipWs(text));
  }

  lemma {:induction false} ValueStays(text: string, tail: string)
    requires ReadValue(text).Some? && Closed(text, ReadValue(text).value.1)
    ensures ReadValue(text + tail) == Some((ReadValue(text).value.0, ReadValue(text).value.1 + tail))
    decreases |text|, 0
  {
    var s := SkipWs(text);
    ValueSkips(text);
    SkipStays(text, tail);
    ValueSkips(text + tail);
    if s[0] == '{' {
      ObjectStays(s, tail);
    } else if s[0] == '[' {
      ArrayStays(s, tail);
    } else {
      AtomStays(s, tail);
    }
  }

  lemma {:induction false} ObjectStays(s: string, tail: string)
    requires s != "" && s[0] == '{' && ReadValue(s).Some?
    ensures ReadValue(s + tail) == Some((ReadValue(s).value.0, ReadValue(s).value.1 + tail))
    decreases |s|, 0, 0
  {
    hide ReadElements, ReadMembers;
    SkipNothing(s);
    SkipNothing(s + tail);
    var more := s[1..];
    assert (s + tail)[1..] == more + tail;
    hide SkipWs;
    if At(SkipWs(more), '}') {
      SkipStays(more, tail);
      assert (SkipWs(more) + tail)[1..] == SkipWs(more)[1..] + tail;
    } else {
      MembersStay(more, tail);
      MembersOpen(more);
      SkipStays(more, tail);
    }
  }

  lemma MembersOpen(s: string)
    requires ReadMembers(s).Some?
    ensures SkipWs(s) != ""
  {
  }

  lemma ElementsOpen(s: string)
    requires ReadElements(s).Some?
    ensures SkipWs(s) != ""
  {
  }

  lemma {:induction false} ArrayStays(s: string, tail: string)
    requires s != "" && s[0] == '[' && ReadValue(s).Some?
    ensures ReadValue(s + tail) == Some((ReadValue(s).value.0, ReadValue(s).value.1 + tail))
    decreases |s|, 0, 0
  {
    hide ReadElements, ReadMembers;
    SkipNothing(s);
    SkipNothing(s + tail);
    var more := s[1..];
    assert (s + tail)[1..] == more + tail;
    hide SkipWs;
    if At(SkipWs(more), ']') {
      SkipStays(more, tail);
      assert (SkipWs(more) + tail)[1..] == SkipWs(more)[1..] + tail;
    } else {
      ElementsStay(more, tail);
      ElementsOpen(more);
      SkipStays(more, tail);
    }
  }

  lemma {:induction false} ElementsStay(s: string, tail: string)
    requires ReadElements(s).Some?
    ensures ReadElements(s + tail) == Some((ReadElements(s).value.0, ReadElements(s).value.1 + tail))
    decreases |s|, 1
  {
    hide ReadValue, SkipWs, Closed;
    var rest := ReadValue(s).value.1;
    var t := SkipWs(rest);
    SeparatorCloses(s, rest);
    ValueStays(s, tail);
    SkipStays(rest, tail);
    assert (t + tail)[1..] == t[1..] + tail;
    if !At(t, ']') { ElementsStay(t[1..], tail); }
  }

  lemma {:induction false} MemberStays(s: string, tail: string)
    requires ReadMember(s).Some? && ReadMember(s).value.1 != "" && Ends(ReadMember(s).value.1)
    ensures ReadMember(s + tail) == Some((ReadMember(s).value.0, ReadMember(s).value.1 + tail))
    decreases |s|, 1
  {
    hide ReadValue, SkipWs, ReadBody;
    var q := SkipWs(s);
    SkipStays(s, tail);
    assert (q + tail)[1..] == q[1..] + tail;
    BodyStays(q[1..], tail);
    var k := ReadBody(q[1..]).value.1;
    var c := SkipWs(k);
    SkipShrinks(s);
    SkipShrinks(k);
    SkipStays(k, tail);
    assert (c + tail)[1..] == c[1..] + tail;
    ValueStays(c[1..], tail);
  }

  lemma SkipShrinks(s: string)
    ensures |SkipWs(s)| <= |s|
  {
  }

  lemma {:induction false} MembersStay(s: string, tail: string)
    requires ReadMembers(s).Some?
    ensures ReadMembers(s + tail) == Some((ReadMembers(s).value.0, ReadMembers(s).value.1 + tail))
    decreases |s|, 2
  {
    hide ReadMember;
    var rest := ReadMember(s).value.1;
    var t := SkipWs(rest);
    hide SkipWs;
    RestEnds(rest);
    MemberStays(s, tail);
    SkipStays(rest, tail);
    assert (t + tail)[1..] == t[1..] + tail;
    if !At(t, '}') { MembersStay(t[1..], tail); }
  }

  lemma RestEnds(rest: string)
    requires At(SkipWs(rest), ',') || At(SkipWs(rest), '}')
    ensures rest != "" && Ends(rest)
  {
  }

  // ---- text with U+0000 in it is not read at all ------------------------------------------

  lemma {:induction false} BodyStuck(s: string, tail: string)
    requires !NoNul(s)
    ensures ReadBody(Body(s) + tail).None?
  {
    if s[0] == '\0' {
      assert (Body(s) + tail)[0] == '\0';
    } else {
      assert !NoNul(s[1..]) by { assert forall k :: 0 < k < |s| ==> s[k] == s[1..][k - 1]; }
      BodyStuck(s[1..], tail);
      EscapeUnescaped(s[0], Body(s[1..]) + tail);
      Regroup(Escaped(s[0]), Body(s[1..]), tail);
    }
  }

  lemma QuotedStuck(s: string, tail: string)
    requires !NoNul(s)
    ensures var q := Quoted(s) + tail; At(q, '"') && ReadBody(q[1..]).None?
  {
    BodyStuck(s, "\"" + tail);
    hide Body, ReadBody;
    assert (Quoted(s) + tail)[1..] == Body(s) + ("\"" + tail);
  }

  lemma {:induction false} TextStuck(v: Value, tail: string)
    requires Plain(v) && !NulFree(v)
    ensures ReadValue(Text(v) + tail).None?
    decreases v, 1
  {
    match v
    case Scalar(t) =>
      if NumberLit(t) {
        NumberAlphabet(t);
        assert false;
      } else {
        hide ReadElements, ReadMembers;
        QuotedStuck(t, tail);
        SkipNothing(Quoted(t) + tail);
      }
    case List(es) => ListStuck(es, tail);
    case Dict(ps) => DictStuck(ps, tail);
  }

  lemma {:induction false} ListStuck(es: seq<Value>, tail: string)
    requires Plain(List(es)) && !NulFree(List(es))
    ensures ReadValue(Text(List(es)) + tail).None?
    decreases es, 1
  {
    hide ReadElements, ReadMembers;
    var more := Elements(es) + ("]" + tail);
    ElementsStuck(es, "]" + tail);
    ElementsStart(es, "]" + tail);
    hide Elements;
    Opening("[", Elements(es), "]", tail);
    SkipNothing("[" + more);
    assert ("[" + more)[1..] == more;
  }

  lemma Opening(open: string, inner: string, close: string, tail: string)
    ensures open + inner + close + tail == open + (inner + (close + tail))
  {
  }

  lemma {:induction false} ElementsStuck(es: seq<Value>, close: string)
    requires es != [] && Plain(List(es)) && !NulFree(List(es))
    ensures ReadElements(Elements(es) + close).None?
    decreases es, 0
  {
    hide ReadValue, ReadElements;
    if |es| == 1 {
      TextStuck(es[0], close);
      HeadStuck(Elements(es) + close);
    } else {
      var more := Elements(es[1..]) + close;
      ElementsSplit(es, close);
      if NulFree(es[0]) {
        TextReadsBack(es[0], "," + more);
        assert !NulFree(List(es[1..])) by { assert forall i :: 0 < i < |es| ==> es[i] == es[1..][i - 1]; }
        ElementsStuck(es[1..], close);
        hide Elements;
        NextStuck(Elements(es) + close, NodeOf(es[0]), more);
      } else {
        TextStuck(es[0], "," + more);
        HeadStuck(Elements(es) + close);
      }
    }
  }

  lemma HeadStuck(s: string)
    requires ReadValue(s).None?
    ensures ReadElements(s).None?
  {
  }

  lemma NextStuck(s: string, n: Node, more: string)
    requires ReadValue(s) == Some((n, "," + more)) && ReadElements(more).None?
    ensures ReadElements(s).None?
  {
    hide ReadValue;
    SkipNothing("," + more);
    assert ("," + more)[1..] == more;
  }

  lemma {:induction false} DictStuck(ps: seq<Pair>, tail: string)
    requires Plain(Dict(ps)) && !NulFree(Dict(ps))
    ensures ReadValue(Text(Dict(ps)) + tail).None?
    decreases ps, 1
  {
    hide ReadElements, ReadMembers;
    var more := Members(ps) + ("}" + tail);
    MembersStuck(ps, "}" + tail);
    MembersStart(ps, "}" + tail);
    hide Members;
    Opening("{", Members(ps), "}", tail);
    SkipNothing("{" + more);
    assert ("{" + more)[1..] == more;
  }

  lemma {:induction false} MemberStuck(p: Pair, tail: string)
    requires Plain(p.val) && !(NoNul(p.key) && NulFree(p.val))
    ensures ReadMember(JsonEmit.Member(p) + tail).None?
    decreases p, 0
  {
    hide ReadValue, ReadBody, Body;
    var s := JsonEmit.Member(p) + tail;
    var colon := ":" + Text(p.val) + tail;
    assert s == Quoted(p.key) + colon;
    SkipNothing(s);
    if NoNul(p.key) {
      QuotedReadsBack(p.key, colon);
      SkipNothing(colon);
      assert colon[1..] == Text(p.val) + tail;
      TextStuck(p.val, tail);
    } else {
      QuotedStuck(p.key, colon);
    }
  }

  lemma {:induction false} MembersStuck(ps: seq<Pair>, close: string)
    requires ps != [] && Plain(Dict(ps)) && !NulFree(Dict(ps))
    ensures ReadMembers(Members(ps) + close).None?
    decreases ps, 0
  {
    hide ReadMember, ReadMembers;
    if |ps| == 1 {
      MemberStuck(ps[0], close);
      FirstStuck(Members(ps) + close);
    } else {
      var more := Members(ps[1..]) + close;
      MembersSplit(ps, close);
      if NoNul(ps[0].key) && NulFree(ps[0].val) {
        MemberReadsBack(ps[0], "," + more);
        assert !NulFree(Dict(ps[1..])) by { assert forall i :: 0 < i < |ps| ==> ps[i] == ps[1..][i - 1]; }
        MembersStuck(ps[1..], close);
        hide Members;
        MemberThenStuck(Members(ps) + close, JsonReader.Member(ps[0].key, NodeOf(ps[0].val)), more);
      } else {
        MemberStuck(ps[0], "," + more);
        FirstStuck(Members(ps) + close);
      }
    }
  }

  lemma FirstStuck(s: string)
    requires ReadMember(s).None?
    ensures ReadMembers(s).None?
  {
    hide ReadMember;
  }

  lemma MemberThenStuck(s: string, m: JsonReader.Member, more: string)
    requires ReadMember(s) == Some((m, "," + more)) && ReadMembers(more).None?
    ensures ReadMembers(s).None?
  {
    hide ReadMember;
    SkipNothing("," + more);
    assert ("," + more)[1..] == more;
  }

  /** What a writer leaves that stops short of the end of an encoded dict is no JSON text,
      whether or not the whole would have been one. */
  lemma NoPrefixReads(ps: seq<Pair>, k: nat)
    requires Plain(Dict(ps)) && k < |Text(Dict(ps))|
    ensures ReadText(Text(Dict(ps))[..k]).None?
  {
    var v := Dict(ps);
    var text := Text(v);
    var s, tail := text[..k], text[k..];
    assert s + tail == text && text[0] == '{';
    hide ReadValue, Text;
    if ReadText(s).Some? {
      NothingReads(s);
      SkipNothing(s);
      ValueStays(s, tail);
      assert text + "" == text;
      if NulFree(v) { TextReadsBack(v, ""); } else { TextStuck(v, ""); }
    }
  }

  lemma NothingReads(s: string)
    requires ReadValue(s).Some?
    ensures s != ""
  {
  }
}
