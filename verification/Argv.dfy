/** How a Windows program splits its command line into arguments: runs of
    backslashes before a quote halve, an odd run makes the quote literal, spaces
    and tabs separate outside quotes. `doubled` selects the C runtimes in which
    two quotes inside a quoted part stand for one. */
module Argv {

  predicate Separator(c: char) {
    c == ' ' || c == '\t'
  }

  function Slashes(n: nat): (s: string)
    ensures |s| == n && forall i :: 0 <= i < n ==> s[i] == '\\'
  {
    seq(n, _ => '\\')
  }

  /** Length of the run of backslashes that starts s. */
  function Run(s: string): (n: nat)
    ensures n <= |s| && (forall i :: 0 <= i < n ==> s[i] == '\\')
    ensures n < |s| ==> s[n] != '\\'
  {
    if s != "" && s[0] == '\\' then 1 + Run(s[1..]) else 0
  }

  function Before(a: string, r: (string, string)): (string, string) {
    (a + r.0, r.1)
  }

  /** One argument, and the text from the separator that ended it. */
  function ReadArg(s: string, quoted: bool, doubled: bool): (r: (string, string))
    ensures |r.1| <= |s|
    ensures s != "" && (quoted || !Separator(s[0])) ==> |r.1| < |s|
    decreases |s|
  {
    if s == "" then ("", "")
    else if !quoted && Separator(s[0]) then ("", s)
    else if s[0] == '\\' then
      var n := Run(s);
      if n == |s| || s[n] != '"' then
        Before(Slashes(n), ReadArg(s[n..], quoted, doubled))
      else if n % 2 == 1 then Before(Slashes(n / 2) + "\"", ReadArg(s[n + 1..], quoted, doubled))
      else Before(Slashes(n / 2), ReadArg(s[n..], quoted, doubled))
    else if s[0] == '"' then
      if quoted && doubled && |s| > 1 && s[1] == '"' then Before("\"", ReadArg(s[2..], quoted, doubled))
      else ReadArg(s[1..], !quoted, doubled)
    else Before([s[0]], ReadArg(s[1..], quoted, doubled))
  }

  function Split(s: string, doubled: bool): seq<string>
    decreases |s|
  {
    if s == "" then []
    else if Separator(s[0]) then Split(s[1..], doubled)
    else
      var r := ReadArg(s, false, doubled);
      [r.0] + Split(r.1, doubled)
  }

  // ---- reading a run of backslashes ------------------------------------------

  lemma RunOfSlashes(n: nat, tail: string)
    requires tail == "" || tail[0] != '\\'
    ensures Run(Slashes(n) + tail) == n
  {
    if n > 0 {
      RunOfSlashes(n - 1, tail);
      assert (Slashes(n) + tail)[1..] == Slashes(n - 1) + tail;
    } else {
      assert Slashes(0) + tail == tail;
    }
  }

  /** An argument ends here: nothing left, or a separator outside quotes. */
  predicate Stops(s: string) {
    s == "" || Separator(s[0])
  }

  lemma ReadStops(s: string, doubled: bool)
    requires Stops(s)
    ensures ReadArg(s, false, doubled) == ("", s)
  {
  }

  /** Backslashes not before a quote stand for themselves. */
  lemma ReadPlainRun(n: nat, s: string, quoted: bool, doubled: bool)
    requires s == "" || (s[0] != '\\' && s[0] != '"')
    ensures ReadArg(Slashes(n) + s, quoted, doubled) == Before(Slashes(n), ReadArg(s, quoted, doubled))
  {
    var t := Slashes(n) + s;
    if n == 0 {
      assert t == s && "" + ReadArg(s, quoted, doubled).0 == ReadArg(s, quoted, doubled).0;
    } else {
      RunOfSlashes(n, s);
      assert t[n..] == s;
    }
  }

  lemma ReadOddStep(t: string, n: nat, quoted: bool, doubled: bool)
    requires Run(t) == 2 * n + 1 < |t| && t[2 * n + 1] == '"'
    ensures ReadArg(t, quoted, doubled) == Before(Slashes(n) + "\"", ReadArg(t[2 * n + 2..], quoted, doubled))
  {
    assert (2 * n + 1) / 2 == n;
  }

  /** An odd run before a quote: half the run, and the quote itself. */
  lemma ReadOddRun(n: nat, s: string, quoted: bool, doubled: bool)
    ensures ReadArg(Slashes(2 * n + 1) + ("\"" + s), quoted, doubled)
         == Before(Slashes(n) + "\"", ReadArg(s, quoted, doubled))
  {
    hide ReadArg;
    var t := Slashes(2 * n + 1) + ("\"" + s);
    RunOfSlashes(2 * n + 1, "\"" + s);
    ReadOddStep(t, n, quoted, doubled);
    assert t[2 * n + 2..] == s;
  }

  /** An even run before a quote: half the run, and the quote delimits. */
  lemma ReadEvenRun(n: nat, s: string, quoted: bool, doubled: bool)
    requires s != "" && s[0] == '"'
    ensures ReadArg(Slashes(2 * n) + s, quoted, doubled) == Before(Slashes(n), ReadArg(s, quoted, doubled))
  {
    var t := Slashes(2 * n) + s;
    if n == 0 {
      assert t == s && "" + ReadArg(s, quoted, doubled).0 == ReadArg(s, quoted, doubled).0;
    } else {
      RunOfSlashes(2 * n, s);
      assert t[2 * n..] == s;
    }
  }

  lemma ReadOther(c: char, s: string, quoted: bool, doubled: bool)
    requires c != '\\' && c != '"' && (quoted || !Separator(c))
    ensures ReadArg([c] + s, quoted, doubled) == Before([c], ReadArg(s, quoted, doubled))
  {
    assert ([c] + s)[1..] == s;
  }

  /** The closing quote of an argument. */
  lemma ReadClosing(tail: string, doubled: bool)
    requires Stops(tail)
    ensures ReadArg("\"" + tail, true, doubled) == ("", tail)
  {
    assert ("\"" + tail)[1..] == tail;
    ReadStops(tail, doubled);
  }

  /** An opening quote after a separator. */
  lemma ReadOpening(s: string, doubled: bool)
    ensures ReadArg("\"" + s, false, doubled) == ReadArg(s, true, doubled)
  {
    assert ("\"" + s)[1..] == s;
  }

  /** The backslashes pending after c, n being pending before it. */
  function Next(c: char, n: nat): nat {
    if c == '\\' then n + 1 else 0
  }

  /** The trailing run of backslashes of s, counting n before it. */
  function Trail(s: string, n: nat): nat {
    if s == "" then n else Trail(s[1..], Next(s[0], n))
  }

  // ---- whole lines -----------------------------------------------------------

  function Joined(words: seq<string>): string {
    if words == [] then ""
    else if |words| == 1 then words[0]
    else words[0] + (" " + Joined(words[1..]))
  }

  /** `word` is one way to write `arg` that survives any following separator. */
  ghost predicate Spells(word: string, arg: string, doubled: bool) {
    word != "" && !Separator(word[0])
    && forall tail :: Stops(tail) ==> ReadArg(word + tail, false, doubled) == (arg, tail)
  }

  lemma {:induction false} SplitJoined(words: seq<string>, args: seq<string>, doubled: bool)
    requires |words| == |args|
    requires forall i :: 0 <= i < |args| ==> Spells(words[i], args[i], doubled)
    ensures Split(Joined(words), doubled) == args
  {
    if words != [] {
      var w := words[0];
      if |words| == 1 {
        assert w + "" == w && Stops("");
        assert [args[0]] + [] == args;
      } else {
        var tail := " " + Joined(words[1..]);
        assert Stops(tail);
        assert (w + tail)[0] == w[0];
        SplitJoined(words[1..], args[1..], doubled);
        assert tail[1..] == Joined(words[1..]);
        assert [args[0]] + args[1..] == args;
      }
    }
  }
}
