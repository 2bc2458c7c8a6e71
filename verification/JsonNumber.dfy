/** The number grammar of section 6 of RFC 8259, the recogniser the emitter uses
    to decide whether a scalar goes on the wire unquoted, and the scan a reader
    performs when a number is followed by more text. */
module JsonNumber {

  import opened Decimal

  predicate Digits(s: string) {
    s != "" && AllDigits(s)
  }

  predicate ExpMark(c: char) {
    c == 'e' || c == 'E'
  }

  predicate Sign(c: char) {
    c == '+' || c == '-'
  }

  // ---- the grammar: number = [ minus ] int [ frac ] [ exp ] ----------------

  predicate MinusPart(s: string) {
    s == "" || s == "-"
  }

  predicate IntPart(s: string) {
    s == "0" || (Digits(s) && s[0] != '0')
  }

  predicate FracPart(s: string) {
    s == "" || (s[0] == '.' && Digits(s[1..]))
  }

  predicate ExpPart(s: string) {
    s == "" || (ExpMark(s[0]) && (Digits(s[1..]) || (|s| > 1 && Sign(s[1]) && Digits(s[2..]))))
  }

  /** s[..a] is the sign, s[a..b] the integer, s[b..c] the fraction, s[c..] the exponent. */
  predicate SplitsAt(s: string, a: nat, b: nat, c: nat) {
    a <= b <= c <= |s|
    && MinusPart(s[..a]) && IntPart(s[a..b]) && FracPart(s[b..c]) && ExpPart(s[c..])
  }

  ghost predicate NumberLit(s: string) {
    exists a: nat, b: nat, c: nat :: SplitsAt(s, a, b, c)
  }

  // ---- the greedy scan ------------------------------------------------------

  /** The end of the digit run that starts at i. */
  function RunEnd(s: string, i: nat): (e: nat)
    requires i <= |s|
    ensures i <= e <= |s|
    ensures forall k :: i <= k < e ==> Digit(s[k])
    ensures e < |s| ==> !Digit(s[e])
    decreases |s| - i
  {
    if i < |s| && Digit(s[i]) then RunEnd(s, i + 1) else i
  }

  lemma RunEndIs(s: string, i: nat, e: nat)
    requires i <= e <= |s|
    requires forall k :: i <= k < e ==> Digit(s[k])
    requires e < |s| ==> !Digit(s[e])
    ensures RunEnd(s, i) == e
    decreases e - i
  {
    if i < e { RunEndIs(s, i + 1, e); }
  }

  function SignEnd(s: string): nat {
    if s != "" && s[0] == '-' then 1 else 0
  }

  /** Past the integer part, or -1. */
  function IntEnd(s: string, i: nat): int
    requires i <= |s|
  {
    if i == |s| then -1
    else if s[i] == '0' then i + 1
    else if Digit(s[i]) then RunEnd(s, i)
    else -1
  }

  function FracEnd(s: string, i: nat): int
    requires i <= |s|
  {
    if i < |s| && s[i] == '.' then
      if i + 1 < |s| && Digit(s[i + 1]) then RunEnd(s, i + 1) else -1
    else i
  }

  /** Where the digits of an exponent marked at i begin. */
  function ExpStart(s: string, i: nat): nat {
    if i + 1 < |s| && Sign(s[i + 1]) then i + 2 else i + 1
  }

  function ExpEnd(s: string, i: nat): int
    requires i <= |s|
  {
    if i < |s| && ExpMark(s[i]) then
      var j := ExpStart(s, i);
      if j < |s| && Digit(s[j]) then RunEnd(s, j) else -1
    else i
  }

  /** Where a number that starts the text stops, or -1 when none starts it. */
  function Scan(s: string): (e: int)
    ensures -1 <= e <= |s|
  {
    var i := IntEnd(s, SignEnd(s));
    if i < 0 then -1 else
    var f := FracEnd(s, i);
    if f < 0 then -1 else ExpEnd(s, f)
  }

  // ---- scan and grammar agree ----------------------------------------------

  /** The recogniser in the emitter (json_is_number_literal): an index advances
      over sign, integer, fraction and exponent; -1 stands for its early return. */
  method IsNumberLiteral(s: string) returns (r: bool)
    ensures r <==> NumberLit(s)
  {
    ScanIsGrammar(s);
    var i := 0;
    if |s| == 0 { return false; }
    if s[i] == '-' { i := i + 1; }
    i := SkipInt(s, i);
    if i < 0 { return false; }
    i := SkipFrac(s, i);
    if i < 0 { return false; }
    i := SkipExp(s, i);
    return i == |s|;
  }

  method SkipInt(s: string, start: nat) returns (i: int)
    requires start <= |s|
    ensures i == IntEnd(s, start)
  {
    i := start;
    if i >= |s| { return -1; }
    if s[i] == '0' { return i + 1; }
    if '1' <= s[i] <= '9' { i := SkipDigits(s, i); } else { i := -1; }
  }

  method SkipFrac(s: string, start: nat) returns (i: int)
    requires start <= |s|
    ensures i == FracEnd(s, start)
  {
    i := start;
    if i < |s| && s[i] == '.' {
      i := i + 1;
      if i >= |s| || s[i] < '0' || s[i] > '9' { return -1; }
      i := SkipDigits(s, i);
    }
  }

  method SkipExp(s: string, start: nat) returns (i: int)
    requires start <= |s|
    ensures i == ExpEnd(s, start)
  {
    i := start;
    if i < |s| && (s[i] == 'e' || s[i] == 'E') {
      i := i + 1;
      if i < |s| && (s[i] == '+' || s[i] == '-') { i := i + 1; }
      if i >= |s| || s[i] < '0' || s[i] > '9' { return -1; }
      i := SkipDigits(s, i);
    }
  }

  method SkipDigits(s: string, start: nat) returns (i: nat)
    requires start <= |s|
    ensures i == RunEnd(s, start)
  {
    i := start;
    while i < |s| && '0' <= s[i] <= '9'
      invariant start <= i <= |s|
      invariant RunEnd(s, start) == RunEnd(s, i)
    {
      i := i + 1;
    }
  }

  /** What may follow a number without becoming part of it. */
  predicate Ends(tail: string) {
    tail == "" || (!Digit(tail[0]) && tail[0] != '.' && !ExpMark(tail[0]) && !Sign(tail[0]))
  }

  lemma IntOfSplit(t: string, a: nat, b: nat)
    requires a <= b <= |t| && IntPart(t[a..b]) && (b < |t| ==> !Digit(t[b]))
    ensures a < b && IntEnd(t, a) == b && Digit(t[a])
  {
    hide RunEnd;
    var p := t[a..b];
    assert p[0] == t[a];
    if p != "0" {
      forall k | a <= k < b ensures Digit(t[k]) { assert p[k - a] == t[k]; }
      RunEndIs(t, a, b);
    }
  }

  lemma FracOfSplit(t: string, b: nat, c: nat)
    requires b <= c <= |t| && FracPart(t[b..c])
    requires c < |t| ==> !Digit(t[c]) && t[c] != '.'
    ensures FracEnd(t, b) == c
  {
    hide RunEnd;
    var p := t[b..c];
    if p != "" {
      assert p[0] == t[b] && p[1..][0] == t[b + 1];
      forall k | b + 1 <= k < c ensures Digit(t[k]) { assert p[1..][k - b - 1] == t[k]; }
      RunEndIs(t, b + 1, c);
    }
  }

  lemma ExpOfSplit(t: string, c: nat, e: nat)
    requires c <= e <= |t| && ExpPart(t[c..e])
    requires e < |t| ==> !Digit(t[e]) && !ExpMark(t[e])
    ensures ExpEnd(t, c) == e
  {
    hide RunEnd;
    var p := t[c..e];
    if p != "" {
      assert p[0] == t[c];
      var d := if |p| > 1 && Sign(p[1]) then 2 else 1;
      if |p| > 1 { assert p[1] == t[c + 1]; }
      assert Digits(p[d..]) by {
        if Digits(p[1..]) { assert p[1..][0] == p[1]; }
      }
      assert p[d..][0] == t[c + d];
      forall k | c + d <= k < e ensures Digit(t[k]) { assert p[d..][k - c - d] == t[k]; }
      RunEndIs(t, c + d, e);
    }
  }

  /** What can start with a digit, a dot or an exponent mark in a split. */
  lemma PartStarts(s: string, a: nat, b: nat, c: nat)
    requires SplitsAt(s, a, b, c)
    ensures b < |s| ==> !Digit(s[b])
    ensures c < |s| ==> !Digit(s[c]) && s[c] != '.'
    ensures a == if s != "" && s[0] == '-' then 1 else 0
  {
    if b < c { assert s[b..c][0] == s[b]; }
    if c < |s| { assert s[c..][0] == s[c]; }
    assert s[a..b][0] == s[a];
    if a == 1 { assert s[..1][0] == s[0]; }
  }

  lemma ScanOfSplit(s: string, a: nat, b: nat, c: nat, tail: string)
    requires SplitsAt(s, a, b, c)
    requires Ends(tail)
    ensures Scan(s + tail) == |s|
  {
    hide RunEnd;
    hide IntEnd;
    hide FracEnd;
    hide ExpEnd;
    var t := s + tail;
    PartStarts(s, a, b, c);
    assert forall k :: 0 <= k < |s| ==> t[k] == s[k];
    if tail != "" { assert t[|s|] == tail[0]; }
    assert t[a..b] == s[a..b] && t[b..c] == s[b..c] && t[c..|s|] == s[c..];
    IntOfSplit(t, a, b);
    FracOfSplit(t, b, c);
    ExpOfSplit(t, c, |s|);
  }

  /** Whatever the scan accepts is in the grammar. */
  lemma ScannedIsNumber(s: string)
    requires Scan(s) >= 0
    ensures NumberLit(s[..Scan(s)])
  {
    hide RunEnd;
    var e := Scan(s);
    var a := SignEnd(s);
    var b := IntEnd(s, a);
    var c := FracEnd(s, b);
    var p := s[..e];
    ScannedInt(s, a);
    ScannedFrac(s, b);
    ScannedExp(s, c);
    assert MinusPart(s[..a]);
    Assemble(s, a, b, c, e);
  }

  lemma Assemble(s: string, a: nat, b: nat, c: nat, e: nat)
    requires a <= b <= c <= e <= |s|
    requires MinusPart(s[..a]) && IntPart(s[a..b]) && FracPart(s[b..c]) && ExpPart(s[c..e])
    ensures SplitsAt(s[..e], a, b, c)
  {
    var p := s[..e];
    assert p[..a] == s[..a] && p[a..b] == s[a..b] && p[b..c] == s[b..c] && p[c..] == s[c..e];
  }

  lemma ScannedInt(s: string, a: nat)
    requires a <= |s| && IntEnd(s, a) >= 0
    ensures a < IntEnd(s, a) <= |s| && IntPart(s[a..IntEnd(s, a)])
  {
    if s[a] == '0' {
      assert s[a..a + 1] == "0";
    } else {
      assert RunEnd(s, a) == RunEnd(s, a + 1);
      assert s[a..RunEnd(s, a)][0] == s[a];
    }
  }

  lemma ScannedFrac(s: string, b: nat)
    requires b <= |s| && FracEnd(s, b) >= 0
    ensures b <= FracEnd(s, b) <= |s| && FracPart(s[b..FracEnd(s, b)])
  {
    var c := FracEnd(s, b);
    if b < |s| && s[b] == '.' {
      assert RunEnd(s, b + 1) == RunEnd(s, b + 2);
      assert s[b..c][1..] == s[b + 1..c] && s[b..c][0] == '.';
    } else {
      assert s[b..c] == "";
    }
  }

  lemma ScannedExp(s: string, c: nat)
    requires c <= |s| && ExpEnd(s, c) >= 0
    ensures c <= ExpEnd(s, c) <= |s| && ExpPart(s[c..ExpEnd(s, c)])
  {
    var e := ExpEnd(s, c);
    if c < |s| && ExpMark(s[c]) {
      var j := ExpStart(s, c);
      assert RunEnd(s, j) == RunEnd(s, j + 1);
      var x := s[c..e];
      assert x[0] == s[c] && x[j - c..] == s[j..e];
      if j == c + 2 { assert x[1] == s[c + 1]; }
    } else {
      assert s[c..e] == "";
    }
  }

  /** A number followed by anything that cannot continue it is scanned exactly. */
  lemma ScanStopsAtNumber(s: string, tail: string)
    requires NumberLit(s) && Ends(tail)
    ensures Scan(s + tail) == |s|
  {
    var a: nat, b: nat, c: nat :| SplitsAt(s, a, b, c);
    ScanOfSplit(s, a, b, c, tail);
  }

  lemma ScanIsGrammar(s: string)
    ensures NumberLit(s) <==> Scan(s) == |s|
  {
    if NumberLit(s) {
      ScanStopsAtNumber(s, "");
      assert s + "" == s;
    }
    if Scan(s) == |s| {
      ScannedIsNumber(s);
      assert s[..|s|] == s;
    }
  }

  predicate NumberChar(c: char) {
    Digit(c) || c == '.' || ExpMark(c) || Sign(c)
  }

  /** The alphabet of a number: nothing that could be a quote, a control or a separator. */
  lemma NumberAlphabet(s: string)
    requires NumberLit(s)
    ensures s != "" && forall i :: 0 <= i < |s| ==> NumberChar(s[i])
    ensures s[0] == '-' || Digit(s[0])
  {
    var a: nat, b: nat, c: nat :| SplitsAt(s, a, b, c);
    forall i | 0 <= i < |s| ensures NumberChar(s[i]) {
      if i < a { assert s[..a][i] == s[i]; }
      else if i < b { assert s[a..b][i - a] == s[i]; }
      else if i < c {
        assert s[b..c][i - b] == s[i];
        if i > b { assert s[b..c][1..][i - b - 1] == s[i]; }
      } else {
        var e := s[c..];
        assert e[i - c] == s[i];
        if i > c { assert e[1..][i - c - 1] == s[i]; }
        if i > c + 1 && |e| > 1 { assert e[2..][i - c - 2] == s[i]; }
      }
    }
    assert s[a..b][0] == s[a];
  }

  /** An id is written as a number. */
  lemma NumeralIsNumber(n: nat)
    ensures NumberLit(Numeral(n))
  {
    var s := Numeral(n);
    NumeralReadsBack(n);
    assert s[0..|s|] == s && s[..0] == "" && s[|s|..|s|] == "" && s[|s|..] == "";
    assert SplitsAt(s, 0, |s|, |s|);
  }
}
