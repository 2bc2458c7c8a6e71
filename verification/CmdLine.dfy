/** The printer for ordinary programs: wj_escape_arg and wj_make_cmdline. */
module CmdLine {
  import opened Argv
  import opened Memory
  import opened StrBuf
  import opened TclValues

  /** What one character is written as, n backslashes having been written just
      before: backslashes double before a quote, and the quote gains one. */
  function Piece(c: char, n: nat): string {
    if c == '"' then Slashes(n) + "\\\"" else [c]
  }

  function Body(s: string, n: nat): string {
    if s == "" then "" else Piece(s[0], n) + Body(s[1..], Next(s[0], n))
  }

  predicate HasSpace(s: string) {
    exists i :: 0 <= i < |s| && Separator(s[i])
  }

  function Escape(s: string): string {
    if s == "" then "\"\""
    else if HasSpace(s) then "\"" + Body(s, 0) + Slashes(Trail(s, 0)) + "\""
    else Body(s, 0)
  }

  // ---- the printer over the buffer --------------------------------------------

  /** wj_escape_arg; None is its NULL. */
  method EscapeArg(s: string, heap: Heap) returns (r: Option<string>)
    modifies heap
    ensures r.Some? ==> r.value == Escape(s)
    ensures r.None? ==> Starved(heap) || |Escape(s)| + 1 > SIZE_MAX
  {
    if |s| == 0 { r := Strdup("\"\"", heap); return; }
    var growth, hasSpace := Scan(s);
    if growth == 0 && !hasSpace {
      BodyOfTame(s, 0);
      r := Strdup(s, heap);
      return;
    }
    r := WriteEscaped(s, hasSpace, heap);
  }

  /** The part of wj_escape_arg behind its early returns. */
  method WriteEscaped(s: string, hasSpace: bool, heap: Heap) returns (r: Option<string>)
    requires s != "" && (hasSpace <==> HasSpace(s))
    modifies heap
    ensures r.Some? ==> r.value == Escape(s)
    ensures r.None? ==> Starved(heap) || |Escape(s)| + 1 > SIZE_MAX
  {
    ghost var whole := Escape(s);
    ghost var open := if hasSpace then "\"" else "";
    ghost var close := if hasSpace then Slashes(Trail(s, 0)) + "\"" else "";
    assert whole == open + Body(s, 0) + close;
    hide *;
    var b := new Buffer(heap);
    ghost var done := "";
    if b.failed { b.WhyFailed("", whole); return None; }
    if hasSpace {
      b.Puts("\"", done, whole);
      done := "" + "\"";
    }
    assert done == open;
    var slashes := WriteBody(b, s, done, close, whole);
    done := open + Body(s, 0);
    if hasSpace {
      b.Puts(Slashes(slashes) + "\"", done, whole);
      done := done + close;
    }
    assert done == whole;
    r := b.Finish(whole);
  }

  /** The counting pass. */
  method Scan(s: string) returns (growth: nat, hasSpace: bool)
    ensures growth == 0 <==> forall k :: 0 <= k < |s| ==> s[k] != '"' && s[k] != '\\'
    ensures hasSpace <==> HasSpace(s)
  {
    hasSpace, growth := false, 0;
    for i := 0 to |s|
      invariant growth == 0 <==> forall k :: 0 <= k < i ==> s[k] != '"' && s[k] != '\\'
      invariant hasSpace <==> exists k :: 0 <= k < i && Separator(s[k])
    {
      var c := s[i];
      if c == '"' || c == '\\' { growth := growth + 1; }
      else if c == ' ' || c == '\t' { hasSpace := true; }
    }
  }

  /** The writing pass; the count of backslashes it ends with is the trailing run. */
  method WriteBody(b: Buffer, s: string, ghost open: string, ghost close: string, ghost whole: string)
    returns (slashes: nat)
    requires b.Built(open, whole) && open + Body(s, 0) + close == whole
    modifies b, b.p, b.heap
    ensures (b.p == old(b.p) || fresh(b.p)) && b.Built(open + Body(s, 0), whole)
    ensures slashes == Trail(s, 0)
  {
    hide Buffer.Built;
    slashes := 0;
    ghost var done, owed := open, Body(s, 0);
    for i := 0 to |s|
      invariant (b.p == old(b.p) || fresh(b.p)) && b.Built(done, whole)
      invariant owed == Body(s[i..], slashes) && done + owed == open + Body(s, 0)
      invariant Trail(s, 0) == Trail(s[i..], slashes)
    {
      assert s[i..][0] == s[i] && s[i..][1..] == s[i + 1..];
      var c := s[i];
      ghost var next := Body(s[i + 1..], Next(c, slashes));
      assert owed == Piece(c, slashes) + next;
      assert done + Piece(c, slashes) + next == done + owed;
      if c == '\\' {
        b.Puts("\\", done, whole);
      } else if c == '"' {
        b.Puts(Slashes(slashes) + "\\\"", done, whole);
      } else {
        b.Puts([c], done, whole);
      }
      done := done + Piece(c, slashes);
      slashes := Next(c, slashes);
      owed := next;
    }
    assert done == open + Body(s, 0);
  }

  lemma {:induction false} BodyOfTame(s: string, n: nat)
    requires forall i :: 0 <= i < |s| ==> s[i] != '"' && s[i] != '\\'
    ensures Body(s, n) == s
  {
    if s != "" { BodyOfTame(s[1..], 0); }
  }

  method Strdup(s: string, heap: Heap) returns (r: Option<string>)
    modifies heap
    ensures r == if heap.grants(old(heap.calls)) then Some(s) else None
  {
    var ok := heap.Malloc();
    r := if ok then Some(s) else None;
  }

  function Escaped(args: seq<string>): seq<string> {
    seq(|args|, i requires 0 <= i < |args| => Escape(args[i]))
  }

  function Line(args: seq<string>): string {
    Joined(Escaped(args))
  }

  /** wj_make_cmdline: the line, or NULL when memory runs out; never a part of it. */
  method MakeCmdline(args: seq<string>, heap: Heap) returns (r: Option<string>)
    modifies heap
    ensures r.Some? ==> r.value == Line(args)
    ensures r.None? ==> Starved(heap) || |Line(args)| + 1 > SIZE_MAX
  {
    hide *;
    var b := new Buffer(heap);
    ghost var whole := Line(args);
    ghost var done, owed := "", Owed(args, 0);
    if b.failed { b.WhyFailed("", whole); return None; }
    OwedAll(args);
    assert done + owed == whole;
    for i := 0 to |args|
      invariant b.heap == heap && fresh(b) && fresh(b.p) && b.Built(done, whole)
      invariant owed == Owed(args, i) && done + owed == whole
    {
      OwedStep(args, i);
      ghost var e, rest := Escape(args[i]), Owed(args, i + 1);
      Grow(done, Gap(i), e, rest);
      if i > 0 { GapIs(i); b.Puts(" ", done, whole); } else { GapIs(i); }
      done := done + Gap(i);
      var word := EscapeArg(args[i], heap);
      if word.None? { return None; }
      b.Puts(word.value, done, whole);
      done, owed := done + e, rest;
      if b.failed { b.WhyFailed(done, whole); return None; }
    }
    OwedEnd(args);
    assert done == whole;
    r := b.Finish(whole);
  }

  function Gap(i: nat): string {
    if i > 0 then " " else ""
  }

  lemma GapIs(i: nat)
    ensures Gap(i) == if i > 0 then " " else ""
    ensures forall s: string :: i == 0 ==> s + Gap(i) == s
  {
  }

  lemma Grow(done: string, gap: string, e: string, rest: string)
    ensures done + (gap + (e + rest)) == done + gap + e + rest
  {
  }

  /** What the line still lacks after i arguments. */
  ghost function Owed(args: seq<string>, i: nat): string
    requires i <= |args|
  {
    if i == |args| then "" else Gap(i) + Line(args[i..])
  }

  lemma OwedAll(args: seq<string>)
    ensures Owed(args, 0) == Line(args)
  {
    hide Escape;
    assert args[0..] == args;
  }

  lemma OwedEnd(args: seq<string>)
    ensures Owed(args, |args|) == ""
  {
  }

  lemma OwedStep(args: seq<string>, i: nat)
    requires i < |args|
    ensures Owed(args, i) == Gap(i) + (Escape(args[i]) + Owed(args, i + 1))
  {
    hide Escape;
    assert Escaped(args[i..]) == [Escape(args[i])] + Escaped(args[i + 1..]);
    if i + 1 == |args| {
      assert Joined(Escaped(args[i..])) == Escape(args[i]) == Escape(args[i]) + "";
    } else {
      assert Escaped(args[i..])[1..] == Escaped(args[i + 1..]);
    }
  }

  // ---- reading it back -----------------------------------------------------------

  /** After n pending backslashes the reader recovers them and the rest of the
      argument, inside quotes or outside. */
  lemma {:induction false} BodyReadsBack(s: string, n: nat, quoted: bool, doubled: bool, tail: string)
    requires Stops(tail)
    requires !quoted ==> forall i :: 0 <= i < |s| ==> !Separator(s[i])
    ensures var close := if quoted then Slashes(Trail(s, n)) + ("\"" + tail) else tail;
      ReadArg(Slashes(n) + (Body(s, n) + close), quoted, doubled) == (Slashes(n) + s, tail)
  {
    hide ReadArg;
    var close := if quoted then Slashes(Trail(s, n)) + ("\"" + tail) else tail;
    var text := Slashes(n) + (Body(s, n) + close);
    if s == "" {
      assert Body(s, n) + close == close && Slashes(n) + s == Slashes(n);
      EndReadsBack(n, quoted, doubled, tail);
    } else {
      var c, m := s[0], Next(s[0], n);
      var rest := Body(s[1..], m) + close;
      assert Body(s, n) + close == Piece(c, n) + rest;
      BodyReadsBack(s[1..], m, quoted, doubled, tail);
      hide Body;
      hide Trail;
      assert s == [c] + s[1..];
      PieceReadsBack(c, n, s[1..], rest, quoted, doubled, tail);
    }
  }

  lemma EndReadsBack(n: nat, quoted: bool, doubled: bool, tail: string)
    requires Stops(tail)
    ensures var close := if quoted then Slashes(n) + ("\"" + tail) else tail;
      ReadArg(Slashes(n) + close, quoted, doubled) == (Slashes(n), tail)
  {
    hide ReadArg;
    assert Slashes(n) + "" == Slashes(n);
    if quoted {
      assert Slashes(n) + (Slashes(n) + ("\"" + tail)) == Slashes(2 * n) + ("\"" + tail);
      ReadEvenRun(n, "\"" + tail, true, doubled);
      ReadClosing(tail, doubled);
    } else {
      ReadPlainRun(n, tail, false, doubled);
      ReadStops(tail, doubled);
    }
  }

  lemma PieceReadsBack(c: char, n: nat, s: string, rest: string, quoted: bool, doubled: bool, tail: string)
    requires !quoted ==> !Separator(c)
    requires ReadArg(Slashes(Next(c, n)) + rest, quoted, doubled) == (Slashes(Next(c, n)) + s, tail)
    ensures ReadArg(Slashes(n) + (Piece(c, n) + rest), quoted, doubled) == (Slashes(n) + ([c] + s), tail)
  {
    hide ReadArg;
    if c == '\\' {
      assert Slashes(n) + ([c] + rest) == Slashes(n + 1) + rest;
      assert Slashes(n) + ([c] + s) == Slashes(n + 1) + s;
    } else {
      assert Slashes(0) + rest == rest && Slashes(0) + s == s;
      if c == '"' {
        assert Slashes(n) + (Slashes(n) + "\\\"" + rest) == Slashes(2 * n + 1) + ("\"" + rest);
        ReadOddRun(n, rest, quoted, doubled);
        assert Slashes(n) + "\"" + s == Slashes(n) + ([c] + s);
      } else {
        ReadPlainRun(n, [c] + rest, quoted, doubled);
        ReadOther(c, rest, quoted, doubled);
      }
    }
  }

  lemma EscapeSpells(s: string, doubled: bool)
    ensures Spells(Escape(s), s, doubled)
  {
    EscapeStart(s);
    forall tail | Stops(tail) ensures ReadArg(Escape(s) + tail, false, doubled) == (s, tail) {
      EscapeReadsBack(s, doubled, tail);
    }
  }

  lemma EscapeReadsBack(s: string, doubled: bool, tail: string)
    requires Stops(tail)
    ensures ReadArg(Escape(s) + tail, false, doubled) == (s, tail)
  {
    var wrapped := HasSpace(s) || s == "";
    var body, t := Body(s, 0), Slashes(Trail(s, 0));
    var close := if wrapped then t + ("\"" + tail) else tail;
    BodyReadsBack(s, 0, wrapped, doubled, tail);
    assert Escape(s) == if wrapped then "\"" + body + t + "\"" else body;
    hide *;
    var inner := body + close;
    assert Slashes(0) + s == s && Slashes(0) + inner == inner;
    if wrapped {
      Wrapped(body, t, tail);
      ReadOpening(inner, doubled);
    }
  }

  lemma Wrapped(body: string, t: string, tail: string)
    ensures "\"" + body + t + "\"" + tail == "\"" + (body + (t + ("\"" + tail)))
  {
  }

  lemma EscapeStart(s: string)
    ensures Escape(s) != "" && !Separator(Escape(s)[0])
  {
  }

  /** Splitting the joined line returns the arguments, in either dialect of the
      runtime: empty arguments, trailing backslashes and embedded quotes included. */
  lemma LineRoundTrip(args: seq<string>, doubled: bool)
    ensures Split(Line(args), doubled) == args
  {
    forall i | 0 <= i < |args| ensures Spells(Escaped(args)[i], args[i], doubled) {
      EscapeSpells(args[i], doubled);
    }
    SplitJoined(Escaped(args), args, doubled);
  }

  lemma {:induction false} BodyGrows(s: string, n: nat)
    ensures |Body(s, n)| >= |s| && ('"' in s ==> |Body(s, n)| > |s|)
    ensures '"' !in s ==> Body(s, n) == s
  {
    if s != "" {
      BodyGrows(s[1..], Next(s[0], n));
      assert s == [s[0]] + s[1..];
    }
  }

  lemma SpaceIs(s: string)
    ensures HasSpace(s) <==> ' ' in s || '\t' in s
  {
    if ' ' in s {
      var i :| 0 <= i < |s| && s[i] == ' ';
      assert Separator(s[i]);
    }
    if '\t' in s {
      var i :| 0 <= i < |s| && s[i] == '\t';
      assert Separator(s[i]);
    }
  }

  /** Nothing is quoted or escaped without need. */
  lemma EscapedOnlyIfNeeded(s: string)
    ensures Escape(s) == s <==> s != "" && ' ' !in s && '\t' !in s && '"' !in s
  {
    hide HasSpace;
    SpaceIs(s);
    BodyGrows(s, 0);
  }
}
