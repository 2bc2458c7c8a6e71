/** The printer for batch files: append_neutralized, append_batch_arg and
    wj_make_batch_cmdline, and what a reader of its payload recovers. */
module BatchLine {
  import opened Argv
  import opened Memory
  import opened StrBuf
  import opened TclValues

  function Percent(): string { "%%cd:~,%" }

  function Head(): string { "cmd.exe /e:ON /v:OFF /d /c \"" }

  const BATCH_UNQUOTED := "#$*+-./:?@\\_"

  // ---- what is printed ---------------------------------------------------------

  function Neutral(s: string): string {
    if s == "" then "" else (if s[0] == '%' then "%%cd:~," else "") + [s[0]] + Neutral(s[1..])
  }

  predicate Alnum(c: char) {
    '0' <= c <= '9' || 'a' <= c <= 'z' || 'A' <= c <= 'Z'
  }

  /** Characters that may stand outside quotes. */
  predicate Tame(c: char) {
    c as int >= 0x80 || Alnum(c) || c in BATCH_UNQUOTED
  }

  predicate NeedsQuote(arg: string) {
    arg == "" || arg[|arg| - 1] == '\\' || exists i :: 0 <= i < |arg| && !Tame(arg[i])
  }

  /** One character inside an argument, after n backslashes. */
  function Piece(c: char, n: nat): string {
    (if c == '"' then Slashes(n) + "\"" else if c == '%' || c == '\r' then "%%cd:~," else "") + [c]
  }

  function Body(s: string, n: nat): string {
    if s == "" then "" else Piece(s[0], n) + Body(s[1..], Next(s[0], n))
  }

  function ArgText(arg: string): string {
    if NeedsQuote(arg) then "\"" + Body(arg, 0) + Slashes(Trail(arg, 0)) + "\"" else Body(arg, 0)
  }

  function ScriptText(script: string): string {
    "\"" + Neutral(script) + "\""
  }

  function ArgTexts(args: seq<string>): seq<string> {
    seq(|args|, i requires 0 <= i < |args| => ArgText(args[i]))
  }

  /** The text cmd reads between the outer quotes of its /c. */
  function Payload(script: string, args: seq<string>): string {
    Joined([ScriptText(script)] + ArgTexts(args))
  }

  // ---- when it is refused ------------------------------------------------------

  datatype Outcome = Line(text: string) | BadScript | BadArgument | OutOfMemory

  predicate OneLine(s: string) {
    '\r' !in s && '\n' !in s
  }

  predicate GoodScript(script: string) {
    '"' !in script && (script == "" || script[|script| - 1] != '\\') && OneLine(script)
  }

  predicate GoodArgs(args: seq<string>) {
    forall i :: 0 <= i < |args| ==> OneLine(args[i])
  }

  // ---- the printer -------------------------------------------------------------

  method AppendNeutralized(b: Buffer, s: string, ghost open: string, ghost whole: string)
    requires b.Built(open, whole) && |open + Neutral(s)| <= |whole|
    modifies b, b.p, b.heap
    ensures (b.p == old(b.p) || fresh(b.p)) && b.Built(open + Neutral(s), whole)
  {
    hide Buffer.Built;
    ghost var done, owed := open, Neutral(s);
    for i := 0 to |s|
      invariant (b.p == old(b.p) || fresh(b.p)) && b.Built(done, whole)
      invariant owed == Neutral(s[i..]) && done + owed == open + Neutral(s)
    {
      assert s[i..][0] == s[i] && s[i..][1..] == s[i + 1..];
      ghost var mark := if s[i] == '%' then "%%cd:~," else "";
      ghost var rest := Neutral(s[i + 1..]);
      assert done + mark + [s[i]] + rest == done + owed;
      if s[i] == '%' { b.Puts("%%cd:~,", done, whole); } else { assert done + "" == done; }
      b.Puts([s[i]], done + mark, whole);
      done, owed := done + mark + [s[i]], rest;
    }
    assert done == open + Neutral(s);
  }

  /** The decision in append_batch_arg. */
  method MustQuote(arg: string) returns (quote: bool)
    ensures quote <==> NeedsQuote(arg)
  {
    quote := |arg| == 0 || arg[|arg| - 1] == '\\';
    if !quote {
      for i := 0 to |arg|
        invariant forall k :: 0 <= k < i ==> Tame(arg[k])
      {
        var c := arg[i];
        var asciiNeedsQuote := c as int < 0x80 && !(Alnum(c) || (c != '\0' && c in BATCH_UNQUOTED));
        var isControl := c as int < 0x20 || c as int == 0x7f;
        if asciiNeedsQuote || isControl {
          assert !Tame(arg[i]);
          return true;
        }
      }
    }
  }

  method AppendBatchArg(b: Buffer, arg: string, ghost open: string, ghost whole: string)
    requires b.Built(open, whole) && |open + ArgText(arg)| <= |whole|
    modifies b, b.p, b.heap
    ensures (b.p == old(b.p) || fresh(b.p)) && b.Built(open + ArgText(arg), whole)
  {
    var quote := MustQuote(arg);
    ghost var left := if quote then "\"" else "";
    ghost var right := if quote then Slashes(Trail(arg, 0)) + "\"" else "";
    assert ArgText(arg) == left + Body(arg, 0) + right;
    hide *;
    ghost var body := Body(arg, 0);
    Seq4(open, left, body, right);
    if quote { b.Puts("\"", open, whole); } else { assert open + left == open; }
    var backslashes := WriteBody(b, arg, open + left, whole);
    if quote {
      b.Puts(Slashes(backslashes) + "\"", open + left + body, whole);
    } else {
      assert open + left + body + right == open + left + body;
    }
  }

  lemma Wrap(a: string, r: string)
    ensures "\"" + a + "\"" + r == ['"'] + (a + (['"'] + r))
  {
  }

  lemma Word(x: string, r: string)
    ensures " " + x + r == [' '] + (x + r)
  {
  }

  lemma Opened(head: string, n: string, r: string)
    ensures head + ("\"" + n + "\"" + r) == head + "\"" + n + "\"" + r
  {
  }

  lemma Grow(done: string, x: string, r: string)
    ensures done + (" " + x + r) == done + " " + x + r
  {
  }

  lemma Seq4(a: string, b: string, c: string, d: string)
    ensures a + (b + c + d) == a + b + c + d
  {
  }

  method WriteBody(b: Buffer, s: string, ghost open: string, ghost whole: string) returns (backslashes: nat)
    requires b.Built(open, whole) && |open + Body(s, 0)| <= |whole|
    modifies b, b.p, b.heap
    ensures (b.p == old(b.p) || fresh(b.p)) && b.Built(open + Body(s, 0), whole)
    ensures backslashes == Trail(s, 0)
  {
    hide Buffer.Built;
    backslashes := 0;
    ghost var done, owed := open, Body(s, 0);
    for i := 0 to |s|
      invariant (b.p == old(b.p) || fresh(b.p)) && b.Built(done, whole)
      invariant owed == Body(s[i..], backslashes) && done + owed == open + Body(s, 0)
      invariant Trail(s, 0) == Trail(s[i..], backslashes)
    {
      assert s[i..][0] == s[i] && s[i..][1..] == s[i + 1..];
      var c := s[i];
      ghost var next := Body(s[i + 1..], Next(c, backslashes));
      ghost var extra :=
        if c == '"' then Slashes(backslashes) + "\"" else if c == '%' || c == '\r' then "%%cd:~," else "";
      assert owed == extra + [c] + next;
      assert done + extra + [c] + next == done + owed;
      ghost var before := done;
      if c == '\\' {
        backslashes := backslashes + 1;
        assert done + "" == done;
      } else {
        if c == '"' { b.Puts(Slashes(backslashes) + "\"", done, whole); }
        else if c == '%' || c == '\r' { b.Puts("%%cd:~,", done, whole); }
        else { assert done + "" == done; }
        backslashes := 0;
      }
      b.Puts([c], before + extra, whole);
      done, owed := before + extra + [c], next;
    }
    assert done == open + Body(s, 0);
  }

  /** wj_make_batch_cmdline. */
  method MakeBatchCmdline(script: string, args: seq<string>, heap: Heap) returns (r: Outcome)
    modifies heap
    ensures r == BadScript <==> !GoodScript(script)
    ensures r == BadArgument ==> !GoodArgs(args)
    ensures r.Line? ==> GoodScript(script) && GoodArgs(args) && r.text == Head() + Payload(script, args) + "\""
    ensures r.Line? ==> "cmd.exe /e:ON /v:OFF /d /c \"" <= r.text
    ensures r == OutOfMemory ==> Starved(heap) || |Head() + Payload(script, args)| + 2 > SIZE_MAX
  {
    if '"' in script || (|script| > 0 && script[|script| - 1] == '\\') { return BadScript; }
    var broken := HasCrOrLf(script);
    if broken { return BadScript; }
    assert GoodScript(script);
    ghost var body := Payload(script, args);
    ghost var whole := Head() + body + "\"";
    PayloadSplit(script, args);
    hide *;
    var b := new Buffer(heap);
    ghost var done := Head() + "\"" + Neutral(script) + "\"";
    ghost var owed := Owed(args, 0);
    Opened(Head(), Neutral(script), owed);
    assert done + owed + "\"" == whole;
    if b.failed { b.WhyFailed("", whole); return OutOfMemory; }
    WriteScript(b, script, whole);
    for i := 0 to |args|
      invariant b.heap == heap && fresh(b) && fresh(b.p) && b.Built(done, whole)
      invariant owed == Owed(args, i) && done + owed + "\"" == whole
      invariant GoodArgs(args[..i])
    {
      assert GoodArgs(args[..i + 1]) <==> OneLine(args[i]) by { GoodArgsStep(args, i); }
      var bad := HasCrOrLf(args[i]);
      if bad { BadArg(args, i); return BadArgument; }
      OwedStep(args, i);
      ghost var rest := Owed(args, i + 1);
      Grow(done, ArgText(args[i]), rest);
      b.Puts(" ", done, whole);
      AppendBatchArg(b, args[i], done + " ", whole);
      done, owed := done + " " + ArgText(args[i]), rest;
      if b.failed { b.WhyFailed(done, whole); return OutOfMemory; }
    }
    OwedEnd(args);
    assert args[..|args|] == args;
    assert done + "\"" == whole;
    b.Puts("\"", done, whole);
    var line := b.Finish(whole);
    r := if line.None? then OutOfMemory else Line(line.value);
  }

  method HasCrOrLf(s: string) returns (r: bool)
    ensures r <==> !OneLine(s)
  {
    r := '\r' in s || '\n' in s;
  }

  method WriteScript(b: Buffer, script: string, ghost whole: string)
    requires b.Built("", whole) && |Head() + "\"" + Neutral(script) + "\""| <= |whole|
    modifies b, b.p, b.heap
    ensures (b.p == old(b.p) || fresh(b.p)) && b.Built(Head() + "\"" + Neutral(script) + "\"", whole)
  {
    hide *;
    assert "" + Head() == Head();
    b.Puts(Head(), "", whole);
    b.Puts("\"", Head(), whole);
    AppendNeutralized(b, script, Head() + "\"", whole);
    b.Puts("\"", Head() + "\"" + Neutral(script), whole);
  }

  lemma GoodArgsStep(args: seq<string>, i: nat)
    requires i < |args| && GoodArgs(args[..i])
    ensures GoodArgs(args[..i + 1]) <==> OneLine(args[i])
  {
    assert args[..i + 1] == args[..i] + [args[i]];
    if GoodArgs(args[..i + 1]) { assert args[..i + 1][i] == args[i]; }
  }

  lemma BadArg(args: seq<string>, i: nat)
    requires i < |args| && !OneLine(args[i])
    ensures !GoodArgs(args)
  {
  }

  lemma OwedStep(args: seq<string>, i: nat)
    requires i < |args|
    ensures Owed(args, i) == " " + ArgText(args[i]) + Owed(args, i + 1)
  {
  }

  lemma OwedEnd(args: seq<string>)
    ensures Owed(args, |args|) == ""
  {
  }

  ghost function Owed(args: seq<string>, i: nat): string
    requires i <= |args|
    decreases |args| - i
  {
    if i == |args| then "" else " " + ArgText(args[i]) + Owed(args, i + 1)
  }

  lemma {:induction false} JoinedTail(words: seq<string>, args: seq<string>, i: nat, w: string)
    requires i <= |args| && words == ArgTexts(args[i..])
    ensures Joined([w] + words) == w + Owed(args, i)
    decreases |args| - i
  {
    hide ArgText;
    if i == |args| {
      assert [w] + words == [w] && w + "" == w;
    } else {
      var x := ArgText(args[i]);
      assert words == [x] + ArgTexts(args[i + 1..]);
      JoinedTail(ArgTexts(args[i + 1..]), args, i + 1, x);
      assert ([w] + words)[1..] == words;
      assert w + (" " + (x + Owed(args, i + 1))) == w + (" " + x + Owed(args, i + 1));
    }
  }

  lemma PayloadSplit(script: string, args: seq<string>)
    ensures Payload(script, args) == "\"" + Neutral(script) + "\"" + Owed(args, 0)
  {
    assert args[0..] == args;
    JoinedTail(ArgTexts(args), args, 0, ScriptText(script));
  }

  // ---- undoing %%cd:~,% --------------------------------------------------------

  /** Every `%%cd:~,%` back to `%`. */
  function Undo(s: string): string
    decreases |s|
  {
    if s == "" then ""
    else if Percent() <= s then "%" + Undo(s[|Percent()|..])
    else [s[0]] + Undo(s[1..])
  }

  /** What one character leaves after the undoing. */
  function BarePiece(c: char, n: nat): string {
    (if c == '"' then Slashes(n) + "\"" else "") + [c]
  }

  function BareBody(s: string, n: nat): string {
    if s == "" then "" else BarePiece(s[0], n) + BareBody(s[1..], Next(s[0], n))
  }

  lemma UndoPercent(s: string)
    ensures Undo(Percent() + s) == "%" + Undo(s)
  {
    assert (Percent() + s)[|Percent()|..] == s;
  }

  lemma UndoOther(c: char, s: string)
    requires c != '%'
    ensures Undo([c] + s) == [c] + Undo(s)
  {
    assert ([c] + s)[1..] == s;
  }

  lemma {:induction false} UndoSlashes(n: nat, s: string)
    ensures Undo(Slashes(n) + s) == Slashes(n) + Undo(s)
  {
    if n == 0 {
      assert Slashes(0) + s == s && Slashes(0) + Undo(s) == Undo(s);
    } else {
      UndoSlashes(n - 1, s);
      assert Slashes(n) == ['\\'] + Slashes(n - 1);
      var m, u := Slashes(n - 1), Undo(s);
      hide *;
      UndoOther('\\', m + s);
      Regroup(['\\'], m, s);
      Regroup(['\\'], m, u);
    }
  }

  lemma {:induction false} UndoNeutral(s: string, tail: string)
    ensures Undo(Neutral(s) + tail) == s + Undo(tail)
  {
    hide Undo;
    if s == "" {
      assert Neutral(s) + tail == tail && s + Undo(tail) == Undo(tail);
    } else {
      UndoNeutral(s[1..], tail);
      var rest := Neutral(s[1..]) + tail;
      assert s == [s[0]] + s[1..];
      if s[0] == '%' {
        assert Neutral(s) + tail == Percent() + rest;
        UndoPercent(rest);
      } else {
        assert Neutral(s) + tail == [s[0]] + rest;
        UndoOther(s[0], rest);
      }
    }
  }

  lemma UndoPiece(c: char, n: nat, tail: string)
    requires c != '\r'
    ensures Undo(Piece(c, n) + tail) == BarePiece(c, n) + Undo(tail)
  {
    hide Undo;
    if c == '%' {
      assert Piece(c, n) + tail == Percent() + tail;
      UndoPercent(tail);
    } else if c == '"' {
      var q := "\"" + ("\"" + tail);
      assert Piece(c, n) + tail == Slashes(n) + q;
      UndoSlashes(n, q);
      UndoOther('"', "\"" + tail);
      UndoOther('"', tail);
      assert Slashes(n) + ("\"" + ("\"" + Undo(tail))) == BarePiece(c, n) + Undo(tail);
    } else {
      assert Piece(c, n) + tail == [c] + tail;
      UndoOther(c, tail);
    }
  }

  lemma {:induction false} UndoBody(s: string, n: nat, tail: string)
    requires '\r' !in s
    ensures Undo(Body(s, n) + tail) == BareBody(s, n) + Undo(tail)
  {
    hide Undo;
    if s == "" {
      assert Body(s, n) + tail == tail && BareBody(s, n) + Undo(tail) == Undo(tail);
    } else {
      var m := Next(s[0], n);
      UndoBody(s[1..], m, tail);
      UndoPiece(s[0], n, Body(s[1..], m) + tail);
      Regroup(Piece(s[0], n), Body(s[1..], m), tail);
      Regroup(BarePiece(s[0], n), BareBody(s[1..], m), Undo(tail));
    }
  }

  function BareArg(arg: string): string {
    if NeedsQuote(arg) then "\"" + BareBody(arg, 0) + Slashes(Trail(arg, 0)) + "\"" else BareBody(arg, 0)
  }

  lemma UndoArg(arg: string, tail: string)
    requires OneLine(arg)
    ensures Undo(ArgText(arg) + tail) == BareArg(arg) + Undo(tail)
  {
    hide Undo;
    if NeedsQuote(arg) {
      var body, bare, t := Body(arg, 0), BareBody(arg, 0), Slashes(Trail(arg, 0));
      var q, u := ['"'] + tail, Undo(tail);
      assert ArgText(arg) == "\"" + body + t + "\"" && BareArg(arg) == "\"" + bare + t + "\"";
      UndoBody(arg, 0, t + q);
      UndoSlashes(Trail(arg, 0), q);
      hide *;
      UndoOther('"', body + (t + q));
      UndoOther('"', tail);
      Enclose(body, t, tail);
      Enclose(bare, t, u);
    } else {
      UndoBody(arg, 0, tail);
    }
  }

  lemma Enclose(body: string, t: string, tail: string)
    ensures "\"" + body + t + "\"" + tail == ['"'] + (body + (t + (['"'] + tail)))
  {
  }

  function BareArgs(args: seq<string>): seq<string> {
    seq(|args|, i requires 0 <= i < |args| => BareArg(args[i]))
  }

  ghost function OwedBare(args: seq<string>, i: nat): string
    requires i <= |args|
    decreases |args| - i
  {
    if i == |args| then "" else " " + BareArg(args[i]) + OwedBare(args, i + 1)
  }

  lemma {:induction false} UndoOwed(args: seq<string>, i: nat)
    requires i <= |args| && GoodArgs(args)
    ensures Undo(Owed(args, i)) == OwedBare(args, i)
    decreases |args| - i
  {
    hide *;
    if i < |args| {
      GoodArg(args, i);
      UndoOwed(args, i + 1);
      OwedStep(args, i);
      OwedBareStep(args, i);
      UndoWord(args[i], Owed(args, i + 1));
    } else {
      OwedEnd(args);
      OwedBareEnd(args);
    }
  }

  lemma GoodArg(args: seq<string>, i: nat)
    requires i < |args| && GoodArgs(args)
    ensures OneLine(args[i])
  {
  }

  lemma OwedBareEnd(args: seq<string>)
    ensures OwedBare(args, |args|) == "" == Undo("")
  {
  }

  lemma UndoWord(arg: string, rest: string)
    requires OneLine(arg)
    ensures Undo(" " + ArgText(arg) + rest) == " " + BareArg(arg) + Undo(rest)
  {
    hide *;
    UndoArg(arg, rest);
    Word(ArgText(arg), rest);
    Word(BareArg(arg), Undo(rest));
    UndoOther(' ', ArgText(arg) + rest);
  }

  lemma OwedBareStep(args: seq<string>, i: nat)
    requires i < |args|
    ensures OwedBare(args, i) == " " + BareArg(args[i]) + OwedBare(args, i + 1)
  {
  }

  lemma {:induction false} JoinedBareTail(words: seq<string>, args: seq<string>, i: nat, w: string)
    requires i <= |args| && words == BareArgs(args[i..])
    ensures Joined([w] + words) == w + OwedBare(args, i)
    decreases |args| - i
  {
    hide BareArg;
    if i == |args| {
      assert [w] + words == [w] && w + "" == w;
    } else {
      var x := BareArg(args[i]);
      assert words == [x] + BareArgs(args[i + 1..]);
      JoinedBareTail(BareArgs(args[i + 1..]), args, i + 1, x);
      assert ([w] + words)[1..] == words;
      assert w + (" " + (x + OwedBare(args, i + 1))) == w + (" " + x + OwedBare(args, i + 1));
    }
  }

  lemma UndoPayload(script: string, args: seq<string>)
    requires GoodScript(script) && GoodArgs(args)
    ensures Undo(Payload(script, args)) == Joined(["\"" + script + "\""] + BareArgs(args))
  {
    PayloadSplit(script, args);
    UndoOwed(args, 0);
    assert args[0..] == args;
    JoinedBareTail(BareArgs(args), args, 0, "\"" + script + "\"");
    hide *;
    var rest, bare := Owed(args, 0), OwedBare(args, 0);
    var t := ['"'] + rest;
    Wrap(Neutral(script), rest);
    UndoOther('"', Neutral(script) + t);
    UndoNeutral(script, t);
    UndoOther('"', rest);
    Wrap(script, bare);
  }

  // ---- splitting the rest, quotes inside quotes doubled -------------------------

  lemma ReadDoubled(s: string)
    ensures ReadArg("\"\"" + s, true, true) == Before("\"", ReadArg(s, true, true))
  {
    assert ("\"\"" + s)[2..] == s;
  }

  lemma BarePieceReadsBack(c: char, n: nat, s: string, rest: string, tail: string)
    requires ReadArg(Slashes(Next(c, n)) + rest, true, true) == (Slashes(Next(c, n)) + s, tail)
    ensures ReadArg(Slashes(n) + (BarePiece(c, n) + rest), true, true) == (Slashes(n) + ([c] + s), tail)
  {
    assert BarePiece(c, n) == if c == '"' then Slashes(n) + "\"\"" else [c];
    assert Slashes(n) + ['\\'] == Slashes(n + 1) && Slashes(n) + Slashes(n) == Slashes(2 * n);
    assert Slashes(0) + rest == rest && Slashes(0) + s == s;
    assert Next(c, n) == if c == '\\' then n + 1 else 0;
    hide *;
    Regroup(Slashes(n), [c], s);
    if c == '\\' {
      Regroup(Slashes(n), [c], rest);
    } else if c == '"' {
      var q := "\"\"" + rest;
      Regroup(Slashes(n), "\"\"", rest);
      Regroup(Slashes(n), Slashes(n), q);
      ReadEvenRun(n, q, true, true);
      ReadDoubled(rest);
    } else {
      ReadPlainRun(n, [c] + rest, true, true);
      ReadOther(c, rest, true, true);
    }
  }

  lemma {:induction false} BareBodyReadsBack(s: string, n: nat, tail: string)
    requires Stops(tail)
    ensures ReadArg(Slashes(n) + (BareBody(s, n) + (Slashes(Trail(s, n)) + ("\"" + tail))), true, true)
         == (Slashes(n) + s, tail)
  {
    hide ReadArg;
    var close := Slashes(Trail(s, n)) + ("\"" + tail);
    if s == "" {
      assert BareBody(s, n) + close == close && Slashes(n) + s == Slashes(n) == Slashes(n) + "";
      assert Slashes(n) + close == Slashes(2 * n) + ("\"" + tail);
      ReadEvenRun(n, "\"" + tail, true, true);
      ReadClosing(tail, true);
    } else {
      var c, m := s[0], Next(s[0], n);
      BareBodyReadsBack(s[1..], m, tail);
      assert BareBody(s, n) + close == BarePiece(c, n) + (BareBody(s[1..], m) + close);
      hide BareBody;
      hide Trail;
      BarePieceReadsBack(c, n, s[1..], BareBody(s[1..], m) + close, tail);
      assert s == [c] + s[1..];
    }
  }

  /** Text without quotes or separators, and not ending in a backslash when it is
      about to meet one, reads as itself. */
  lemma {:induction false} ReadTame(s: string, quoted: bool, tail: string)
    requires '"' !in s && (!quoted ==> forall i :: 0 <= i < |s| ==> !Separator(s[i]))
    requires tail != "" && tail[0] == '"' ==> s == "" || s[|s| - 1] != '\\'
    requires tail == "" || tail[0] != '\\'
    ensures ReadArg(s + tail, quoted, true) == Before(s, ReadArg(tail, quoted, true))
    decreases |s|
  {
    hide ReadArg;
    var r := ReadArg(tail, quoted, true);
    if s == "" {
      assert s + tail == tail && "" + r.0 == r.0;
    } else if s[0] == '\\' {
      var n := Run(s);
      var t := s[n..];
      if t != "" { assert t[|t| - 1] == s[|s| - 1] && t[0] == s[n]; }
      ReadTame(t, quoted, tail);
      ReadPlainRun(n, t + tail, quoted, true);
      assert s == Slashes(n) + t;
      hide *;
      Regroup(Slashes(n), t, tail);
      Regroup(Slashes(n), t, r.0);
    } else {
      var t := s[1..];
      if t != "" { assert t[|t| - 1] == s[|s| - 1]; }
      ReadTame(t, quoted, tail);
      ReadOther(s[0], t + tail, quoted, true);
      assert s == [s[0]] + t;
      Regroup([s[0]], t, tail);
      Regroup([s[0]], t, r.0);
    }
  }

  lemma Regroup(a: string, b: string, c: string)
    ensures a + b + c == a + (b + c)
  {
  }

  lemma TameIsBare(s: string, n: nat)
    requires '"' !in s
    ensures BareBody(s, n) == s
  {
    if s != "" {
      TameIsBare(s[1..], Next(s[0], n));
      assert [s[0]] + s[1..] == s;
    }
  }

  lemma BareArgReadsBack(arg: string, tail: string)
    requires Stops(tail)
    ensures ReadArg(BareArg(arg) + tail, false, true) == (arg, tail)
  {
    hide ReadArg;
    if NeedsQuote(arg) {
      BareBodyReadsBack(arg, 0, tail);
      var body, t := BareBody(arg, 0), Slashes(Trail(arg, 0));
      assert BareArg(arg) == "\"" + body + t + "\"";
      hide *;
      var inner := body + (t + (['"'] + tail));
      Enclose(body, t, tail);
      assert Slashes(0) + inner == inner && Slashes(0) + arg == arg;
      ReadOpening(inner, true);
    } else {
      forall i | 0 <= i < |arg| ensures arg[i] != '"' && !Separator(arg[i]) { assert Tame(arg[i]); }
      TameIsBare(arg, 0);
      ReadTame(arg, false, tail);
      ReadStops(tail, true);
      assert arg + "" == arg;
    }
  }

  lemma BareArgSpells(arg: string)
    ensures Spells(BareArg(arg), arg, true)
  {
    if !NeedsQuote(arg) {
      forall i | 0 <= i < |arg| ensures arg[i] != '"' && !Separator(arg[i]) { assert Tame(arg[i]); }
      TameIsBare(arg, 0);
    }
    forall tail | Stops(tail) ensures ReadArg(BareArg(arg) + tail, false, true) == (arg, tail) {
      BareArgReadsBack(arg, tail);
    }
  }

  lemma ScriptSpells(script: string)
    requires GoodScript(script)
    ensures Spells("\"" + script + "\"", script, true)
  {
    var w := "\"" + script + "\"";
    forall tail | Stops(tail) ensures ReadArg(w + tail, false, true) == (script, tail) {
      var inner := script + ("\"" + tail);
      assert w + tail == "\"" + inner;
      ReadOpening(inner, true);
      ReadTame(script, true, "\"" + tail);
      ReadClosing(tail, true);
      assert script + "" == script;
    }
  }

  /** Undoing the percent form and splitting with doubled quotes gives back the
      script and every argument, for all scripts and arguments the printer accepts. */
  lemma PayloadRoundTrip(script: string, args: seq<string>)
    requires GoodScript(script) && GoodArgs(args)
    ensures Split(Undo(Payload(script, args)), true) == [script] + args
  {
    UndoPayload(script, args);
    var words := ["\"" + script + "\""] + BareArgs(args);
    WordsSpell(script, args);
    hide *;
    SplitJoined(words, [script] + args, true);
  }

  lemma WordsSpell(script: string, args: seq<string>)
    requires GoodScript(script)
    ensures var words := ["\"" + script + "\""] + BareArgs(args);
      |words| == |[script] + args|
      && forall i :: 0 <= i < |words| ==> Spells(words[i], ([script] + args)[i], true)
  {
    hide Spells;
    hide BareArg;
    var words := ["\"" + script + "\""] + BareArgs(args);
    forall i | 0 <= i < |words| ensures Spells(words[i], ([script] + args)[i], true) {
      if i == 0 { ScriptSpells(script); } else {
        assert words[i] == BareArg(args[i - 1]) && ([script] + args)[i] == args[i - 1];
        BareArgSpells(args[i - 1]);
      }
    }
  }

  // ---- quote parity ------------------------------------------------------------

  function Quotes(s: string): nat {
    if s == "" then 0 else (if s[0] == '"' then 1 else 0) + Quotes(s[1..])
  }

  predicate Harmless(c: char) {
    c == ' ' || c == '"' || Tame(c)
  }

  /** Reading s from inside or outside quotes, nothing outside is live. */
  predicate Calm(s: string, inside: bool) {
    s == "" || ((inside || Harmless(s[0])) && Calm(s[1..], if s[0] == '"' then !inside else inside))
  }

  function Flip(s: string, inside: bool): bool {
    if s == "" then inside else Flip(s[1..], if s[0] == '"' then !inside else inside)
  }

  lemma {:induction false} CalmBoth(a: string, b: string, inside: bool)
    ensures Calm(a + b, inside) <==> Calm(a, inside) && Calm(b, Flip(a, inside))
    ensures Flip(a + b, inside) == Flip(b, Flip(a, inside))
  {
    if a == "" {
      assert a + b == b;
    } else {
      assert (a + b)[1..] == a[1..] + b;
      CalmBoth(a[1..], b, if a[0] == '"' then !inside else inside);
    }
  }

  lemma {:induction false} CalmInside(s: string)
    requires '"' !in s
    ensures Calm(s, true) && Flip(s, true)
  {
    if s != "" { CalmInside(s[1..]); }
  }

  lemma {:induction false} CalmTame(s: string)
    requires forall i :: 0 <= i < |s| ==> Tame(s[i]) && s[i] != '"'
    ensures Calm(s, false) && !Flip(s, false)
  {
    if s != "" { CalmTame(s[1..]); }
  }

  lemma {:induction false} CalmBody(s: string, n: nat)
    ensures Calm(Body(s, n), true) && Flip(Body(s, n), true)
  {
    if s != "" {
      CalmBody(s[1..], Next(s[0], n));
      CalmPiece(s[0], n);
      CalmBoth(Piece(s[0], n), Body(s[1..], Next(s[0], n)), true);
    }
  }

  lemma CalmPiece(c: char, n: nat)
    ensures Calm(Piece(c, n), true) && Flip(Piece(c, n), true)
  {
    if c == '"' {
      CalmInside(Slashes(n));
      assert Piece(c, n) == Slashes(n) + "\"\"";
      assert "\"\""[1..] == "\"" && "\""[1..] == "";
      CalmBoth(Slashes(n), "\"\"", true);
    } else {
      CalmInside(Piece(c, n));
    }
  }

  lemma {:induction false} NeutralHasNoQuote(s: string)
    requires '"' !in s
    ensures '"' !in Neutral(s)
  {
    if s != "" { NeutralHasNoQuote(s[1..]); }
  }

  /** A quoted stretch that keeps to itself leaves the reader outside quotes. */
  lemma CalmQuoted(inner: string)
    requires Calm(inner, true) && Flip(inner, true)
    ensures Calm("\"" + inner + "\"", false) && !Flip("\"" + inner + "\"", false)
  {
    assert "\""[1..] == "";
    CalmBoth("\"", inner, false);
    CalmBoth("\"" + inner, "\"", false);
  }

  lemma CalmArg(arg: string)
    requires OneLine(arg)
    ensures Calm(ArgText(arg), false) && !Flip(ArgText(arg), false)
  {
    if NeedsQuote(arg) {
      CalmBody(arg, 0);
      var body, t := Body(arg, 0), Slashes(Trail(arg, 0));
      CalmInside(t);
      assert ArgText(arg) == "\"" + body + t + "\"";
      hide *;
      CalmBoth(body, t, true);
      CalmQuoted(body + t);
      assert "\"" + body + t == "\"" + (body + t);
    } else {
      forall i | 0 <= i < |arg| ensures arg[i] != '"' && arg[i] != '%' && arg[i] != '\r' { assert Tame(arg[i]); }
      TameIsBody(arg, 0);
      CalmTame(arg);
    }
  }

  lemma {:induction false} TameIsBody(s: string, n: nat)
    requires forall i :: 0 <= i < |s| ==> s[i] != '"' && s[i] != '%' && s[i] != '\r'
    ensures Body(s, n) == s
  {
    if s != "" {
      TameIsBody(s[1..], Next(s[0], n));
      assert [s[0]] + s[1..] == s;
    }
  }

  lemma {:induction false} CalmOwed(args: seq<string>, i: nat)
    requires i <= |args| && GoodArgs(args)
    ensures Calm(Owed(args, i), false)
    decreases |args| - i
  {
    assert i < |args| ==> OneLine(args[i]);
    assert i == |args| ==> Owed(args, i) == "" && Calm("", false);
    assert " "[1..] == "";
    assert Calm(" ", false) && !Flip(" ", false);
    hide *;
    if i < |args| {
      CalmOwed(args, i + 1);
      CalmArg(args[i]);
      var x, r := ArgText(args[i]), Owed(args, i + 1);
      OwedStep(args, i);
      CalmBoth(" ", x, false);
      CalmBoth(" " + x, r, false);
    }
  }

  lemma {:induction false} CalmByParity(s: string, inside: bool, i: nat)
    requires Calm(s, inside) && i < |s|
    requires inside <==> Quotes(s[..i]) % 2 == 1
    ensures Harmless(s[i])
  {
    if i > 0 {
      assert s[..i][1..] == s[1..][..i - 1];
      CalmByParity(s[1..], if s[0] == '"' then !inside else inside, i - 1);
    }
  }

  /** Wherever an even number of quotes precedes a payload character, cmd is outside
      quotes, and the character is a separator, a quote or one of the harmless set. */
  lemma PayloadParity(script: string, args: seq<string>, i: nat)
    requires GoodScript(script) && GoodArgs(args)
    requires i < |Payload(script, args)| && Quotes(Payload(script, args)[..i]) % 2 == 0
    ensures Harmless(Payload(script, args)[i])
  {
    var n := Neutral(script);
    NeutralHasNoQuote(script);
    CalmInside(n);
    CalmQuoted(n);
    CalmOwed(args, 0);
    PayloadSplit(script, args);
    CalmBoth("\"" + n + "\"", Owed(args, 0), false);
    CalmByParity(Payload(script, args), false, i);
  }

  // ---- what that comes to -----------------------------------------------------------------

  /** What cmd acts on outside quotes, or does not take for text. */
  predicate Live(c: char) {
    c as int < 0x20 || c as int == 0x7F || c == '&' || c == '|' || c == '<' || c == '>' || c == '^' || c == '('
    || c == ')' || c == '!' || c == '%' || c == ',' || c == ';' || c == '='
  }

  lemma HarmlessIsNotLive(c: char)
    requires Harmless(c)
    ensures !Live(c)
  {
    EasyIsTame(c);
  }

  /** Outside quotes nothing in a payload is live. */
  lemma PayloadIsInert(script: string, args: seq<string>, i: nat)
    requires GoodScript(script) && GoodArgs(args)
    requires i < |Payload(script, args)| && Quotes(Payload(script, args)[..i]) % 2 == 0
    ensures !Live(Payload(script, args)[i])
  {
    hide *;
    PayloadParity(script, args, i);
    HarmlessIsNotLive(Payload(script, args)[i]);
  }

  /** Characters that ask for no quotes: letters, digits, twelve symbols and all beyond ASCII. */
  predicate Easy(c: char) {
    c as int >= 0x80 || '0' <= c <= '9' || 'a' <= c <= 'z' || 'A' <= c <= 'Z'
    || c == '#' || c == '$' || c == '*' || c == '+' || c == '-' || c == '.' || c == '/' || c == ':' || c == '?'
    || c == '@' || c == '\\' || c == '_'
  }

  lemma EasyIsTame(c: char)
    ensures Easy(c) <==> Tame(c)
  {
    var u := BATCH_UNQUOTED;
    assert |u| == 12;
    if c in u {
      var i :| 0 <= i < |u| && u[i] == c;
    }
    assert u[0] == '#' && u[1] == '$' && u[2] == '*' && u[3] == '+' && u[4] == '-' && u[5] == '.';
    assert u[6] == '/' && u[7] == ':' && u[8] == '?' && u[9] == '@' && u[10] == '\\' && u[11] == '_';
  }

  /** No argument is quoted without need: it is printed as it is exactly when it is nonempty,
      does not end in a backslash and is all of such characters. */
  lemma PrintedAsItIs(arg: string)
    ensures ArgText(arg) == arg <==>
      arg != "" && arg[|arg| - 1] != '\\' && forall i :: 0 <= i < |arg| ==> Easy(arg[i])
  {
    hide Easy, Tame, BATCH_UNQUOTED;
    forall i | 0 <= i < |arg| ensures Easy(arg[i]) <==> Tame(arg[i]) { EasyIsTame(arg[i]); }
    if NeedsQuote(arg) {
      BodyCovers(arg, 0);
      assert |ArgText(arg)| > |arg|;
    } else {
      forall i | 0 <= i < |arg| ensures arg[i] != '"' && arg[i] != '%' && arg[i] != '\r' {
        assert Tame(arg[i]);
        EasyIsPlain(arg[i]);
      }
      TameIsBody(arg, 0);
    }
  }

  lemma EasyIsPlain(c: char)
    requires Easy(c)
    ensures c != '"' && c != '%' && c != '\r'
  {
  }

  lemma {:induction false} BodyCovers(s: string, n: nat)
    ensures |Body(s, n)| >= |s|
  {
    if s != "" { BodyCovers(s[1..], Next(s[0], n)); }
  }

  /** Read from the left, every % is part of the form cmd expands to a single one. */
  predicate Defused(s: string)
    decreases |s|
  {
    s == "" || ("%%cd:~,%" <= s && Defused(s[8..])) || (s[0] != '%' && Defused(s[1..]))
  }

  lemma {:induction false} DefusedBoth(a: string, b: string)
    requires Defused(a) && Defused(b)
    ensures Defused(a + b)
    decreases |a|
  {
    if a == "" {
      assert a + b == b;
    } else if "%%cd:~,%" <= a && Defused(a[8..]) {
      DefusedBoth(a[8..], b);
      assert (a + b)[8..] == a[8..] + b;
    } else {
      DefusedBoth(a[1..], b);
      assert (a + b)[1..] == a[1..] + b;
    }
  }

  lemma {:induction false} PlainIsDefused(s: string)
    requires '%' !in s
    ensures Defused(s)
  {
    if s != "" { PlainIsDefused(s[1..]); }
  }

  lemma MarkIsDefused()
    ensures Defused("%%cd:~,%")
  {
    assert "%%cd:~,%"[8..] == "";
  }

  lemma {:induction false} NeutralIsDefused(s: string)
    ensures Defused(Neutral(s))
  {
    hide Defused;
    if s == "" {
      PlainIsDefused("");
    } else {
      NeutralIsDefused(s[1..]);
      if s[0] == '%' {
        MarkIsDefused();
        DefusedBoth("%%cd:~,%", Neutral(s[1..]));
        assert Neutral(s) == "%%cd:~,%" + Neutral(s[1..]);
      } else {
        PlainIsDefused([s[0]]);
        DefusedBoth([s[0]], Neutral(s[1..]));
        assert Neutral(s) == [s[0]] + Neutral(s[1..]);
      }
    }
  }

  lemma {:induction false} BodyIsDefused(s: string, n: nat)
    requires '\r' !in s
    ensures Defused(Body(s, n))
  {
    hide Defused;
    if s == "" {
      PlainIsDefused("");
    } else {
      BodyIsDefused(s[1..], Next(s[0], n));
      PieceIsDefused(s[0], n);
      DefusedBoth(Piece(s[0], n), Body(s[1..], Next(s[0], n)));
    }
  }

  lemma PieceIsDefused(c: char, n: nat)
    requires c != '\r'
    ensures Defused(Piece(c, n))
  {
    hide Defused;
    if c == '%' {
      MarkIsDefused();
      assert Piece(c, n) == "%%cd:~,%";
    } else {
      PlainIsDefused(Piece(c, n));
    }
  }

  lemma ArgIsDefused(arg: string)
    requires OneLine(arg)
    ensures Defused(ArgText(arg))
  {
    hide Defused;
    BodyIsDefused(arg, 0);
    if NeedsQuote(arg) {
      PlainIsDefused("\"");
      PlainIsDefused(Slashes(Trail(arg, 0)) + "\"");
      DefusedBoth("\"", Body(arg, 0));
      DefusedBoth("\"" + Body(arg, 0), Slashes(Trail(arg, 0)) + "\"");
      assert "\"" + Body(arg, 0) + (Slashes(Trail(arg, 0)) + "\"") == ArgText(arg);
    }
  }

  lemma {:induction false} OwedIsDefused(args: seq<string>, i: nat)
    requires i <= |args| && GoodArgs(args)
    ensures Defused(Owed(args, i))
    decreases |args| - i
  {
    hide Defused, ArgText;
    if i < |args| {
      assert OneLine(args[i]);
      OwedIsDefused(args, i + 1);
      ArgIsDefused(args[i]);
      PlainIsDefused(" ");
      DefusedBoth(" ", ArgText(args[i]));
      DefusedBoth(" " + ArgText(args[i]), Owed(args, i + 1));
    } else {
      PlainIsDefused("");
    }
  }

  /** Inside quotes or out, cmd finds no variable to expand in a payload. */
  lemma PayloadIsDefused(script: string, args: seq<string>)
    requires GoodArgs(args)
    ensures Defused(Payload(script, args))
  {
    hide Defused, Neutral, Owed, Payload, GoodArgs;
    PayloadSplit(script, args);
    NeutralIsDefused(script);
    OwedIsDefused(args, 0);
    PlainIsDefused("\"");
    DefusedBoth("\"", Neutral(script));
    DefusedBoth("\"" + Neutral(script), "\"");
    DefusedBoth("\"" + Neutral(script) + "\"", Owed(args, 0));
  }
}
