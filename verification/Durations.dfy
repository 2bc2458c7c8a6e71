/** The three duration readers: parse_duration_ms, http_duration and _dur2ms. */
module Durations {
  import opened Decimal
  import opened TclValues

  const LLONG_MAX: nat := 0x7FFF_FFFF_FFFF_FFFF
  const ULLONG_MAX: nat := 0xFFFF_FFFF_FFFF_FFFF
  const INT_MAX: nat := 0x7FFF_FFFF

  /** One less than Win32's INFINITE. */
  const TCL_MAX: nat := 4294967294

  /** unsigned long long: every arithmetic step below is proved to stay inside. */
  newtype u64 = n: int | 0 <= n < 0x1_0000_0000_0000_0000

  // ---- what a duration means -----------------------------------------------------

  function Factor(unit: string): nat {
    if unit == "ms" then 1
    else if unit == "s" then 1000
    else if unit == "m" then 60000
    else if unit == "h" then 3600000
    else 0
  }

  /** Length of the digits s starts with. */
  function Lead(s: string): (n: nat)
    ensures n <= |s| && AllDigits(s[..n]) && (n < |s| ==> !Digit(s[n]))
  {
    if s != "" && Digit(s[0]) then
      var n := 1 + Lead(s[1..]);
      assert forall i :: 0 < i < n ==> s[..n][i] == s[1..][..n - 1][i - 1];
      n
    else 0
  }

  /** Digits and an explicit unit, in milliseconds, without bound; None otherwise. */
  function Millis(s: string): Option<nat> {
    var n := Lead(s);
    if n == 0 || Factor(s[n..]) == 0 then None else Some(NumberOf(s[..n]) * Factor(s[n..]))
  }

  /** The units, and that there are no others: digits, followed by what is no digit. */
  lemma UnitsMean(digits: string, unit: string)
    requires digits != "" && AllDigits(digits) && (unit == "" || !Digit(unit[0]))
    ensures unit == "ms" ==> Millis(digits + unit) == Some(NumberOf(digits))
    ensures unit == "s" ==> Millis(digits + unit) == Some(1000 * NumberOf(digits))
    ensures unit == "m" ==> Millis(digits + unit) == Some(60000 * NumberOf(digits))
    ensures unit == "h" ==> Millis(digits + unit) == Some(3600000 * NumberOf(digits))
    ensures Millis(digits + unit).Some? <==> unit == "ms" || unit == "s" || unit == "m" || unit == "h"
  {
    LeadIs(digits, unit);
    assert (digits + unit)[..|digits|] == digits && (digits + unit)[|digits|..] == unit;
  }

  lemma {:induction false} LeadIs(t: string, unit: string)
    requires AllDigits(t) && (unit == "" || !Digit(unit[0]))
    ensures Lead(t + unit) == |t|
  {
    if t == "" {
      assert t + unit == unit;
    } else {
      LeadIs(t[1..], unit);
      assert (t + unit)[1..] == t[1..] + unit;
    }
  }

  lemma {:induction false} DecimalGrows(s: string, k: nat)
    requires AllDigits(s) && k <= |s|
    ensures NumberOf(s[..k]) <= NumberOf(s)
    decreases |s|
  {
    if k < |s| {
      DecimalGrows(s[..|s| - 1], k);
      assert s[..|s| - 1][..k] == s[..k];
    } else {
      assert s[..k] == s;
    }
  }

  lemma DecimalStep(s: string, i: nat)
    requires i < |s| && AllDigits(s[..i + 1])
    ensures AllDigits(s[..i]) && NumberOf(s[..i + 1]) == 10 * NumberOf(s[..i]) + Val(s[i])
  {
    assert s[..i + 1][..i] == s[..i] && s[..i + 1][i] == s[i];
    forall k | 0 <= k < i ensures Digit(s[..i][k]) { assert s[..i + 1][k] == s[..i][k]; }
  }

  // ---- parse_duration_ms -----------------------------------------------------------

  /** Accepts exactly the durations whose milliseconds fit a long long; -1 otherwise. */
  method ParseDurationMs(s: string) returns (r: int)
    ensures r == if Millis(s).Some? && Millis(s).value <= LLONG_MAX then Millis(s).value else -1
  {
    if s == "" || !Digit(s[0]) { return -1; }
    ghost var n := Lead(s);
    ghost var all := NumberOf(s[..n]);
    var value: u64, p := 0, 0;
    while p < |s| && Digit(s[p])
      invariant p <= n && value as nat == NumberOf(s[..p]) && value as nat <= LLONG_MAX
    {
      LeadCovers(s, p);
      DecimalStep(s, p);
      DecimalGrows(s[..n], p + 1);
      assert s[..n][..p + 1] == s[..p + 1];
      var digit: u64 := Val(s[p]) as u64;
      if value > (LLONG_MAX / 10) as u64
         || (value == (LLONG_MAX / 10) as u64 && digit > (LLONG_MAX % 10) as u64)
      {
        assert all > LLONG_MAX;
        if Factor(s[n..]) != 0 { ScaleUp(all, Factor(s[n..])); }
        return -1;
      }
      value := value * 10 + digit;
      p := p + 1;
    }
    assert p == n;
    var mul := Factor(s[p..]) as u64;
    if mul == 0 { return -1; }
    if value > (LLONG_MAX as u64) / mul {
      OverLimit(value as nat, mul as nat, LLONG_MAX);
      return -1;
    }
    OverLimit(value as nat, mul as nat, LLONG_MAX);
    return (value * mul) as int;
  }

  lemma LeadCovers(s: string, p: nat)
    requires p <= Lead(s) && p < |s| && Digit(s[p])
    ensures p < Lead(s) && AllDigits(s[..p + 1])
  {
    var t := s[..p + 1];
    forall k | 0 <= k < |t| ensures Digit(t[k]) {
      if k < p { assert s[..Lead(s)][k] == s[k]; }
    }
  }

  lemma ScaleUp(a: nat, m: nat)
    requires m >= 1
    ensures a * m >= a
  {
  }

  /** Dividing the limit decides the product. */
  lemma OverLimit(v: nat, m: nat, limit: nat)
    requires m >= 1
    ensures v > limit / m <==> v * m > limit
  {
    var q := limit / m;
    assert q * m <= limit < (q + 1) * m;
    if v > q { assert v * m >= (q + 1) * m; } else { assert v * m <= q * m; }
  }

  // ---- http_u64 and http_duration ---------------------------------------------------

  /** http_u64: the value and the end of the digits, None on overflow. */
  method HttpU64(s: string) returns (r: Option<(u64, nat)>)
    ensures r.Some? <==> Lead(s) > 0 && NumberOf(s[..Lead(s)]) <= ULLONG_MAX
    ensures r.Some? ==> r.value.0 as nat == NumberOf(s[..Lead(s)]) && r.value.1 == Lead(s)
  {
    if s == "" || !Digit(s[0]) { return None; }
    ghost var end := Lead(s);
    var n: u64, p := 0, 0;
    while p < |s| && Digit(s[p])
      invariant p <= end && n as nat == NumberOf(s[..p])
    {
      LeadCovers(s, p);
      DecimalStep(s, p);
      DecimalGrows(s[..end], p + 1);
      assert s[..end][..p + 1] == s[..p + 1];
      var digit: u64 := Val(s[p]) as u64;
      if n > ((ULLONG_MAX as u64) - digit) / 10 { return None; }
      n := n * 10 + digit;
      p := p + 1;
    }
    r := Some((n, p));
  }

  /** http_text_safe for a value. */
  predicate TextSafe(s: string) {
    '\0' !in s && '\r' !in s && '\n' !in s
  }

  /** Accepts exactly the durations from 1 to INT_MAX milliseconds. */
  method HttpDuration(s: string) returns (r: Option<nat>)
    ensures r == if Millis(s).Some? && 1 <= Millis(s).value <= INT_MAX then Millis(s) else None
  {
    MillisIsSafe(s);
    if !TextSafe(s) { return None; }
    var parsed := HttpU64(s);
    ghost var n := Lead(s);
    if n > 0 && Factor(s[n..]) > 0 {
      OverLimit(NumberOf(s[..n]), Factor(s[n..]), INT_MAX);
      ScaleUp(NumberOf(s[..n]), Factor(s[n..]));
    }
    if parsed.None? { return None; }
    var (v, end) := parsed.value;
    var factor := Factor(s[end..]) as u64;
    if factor == 0 { return None; }
    if v == 0 || v > (INT_MAX as u64) / factor { return None; }
    r := Some((v * factor) as nat);
  }

  lemma MillisIsSafe(s: string)
    ensures Millis(s).Some? ==> TextSafe(s)
  {
    var n := Lead(s);
    if Millis(s).Some? {
      forall i | 0 <= i < |s| ensures s[i] >= '0' {
        if i < n { assert s[..n][i] == s[i]; } else { assert s[n..][i - n] == s[i]; }
      }
    }
  }

  // ---- _dur2ms ------------------------------------------------------------------------

  /** string trimleft $n 0 */
  function TrimZeros(s: string): string {
    if s != "" && s[0] == '0' then TrimZeros(s[1..]) else s
  }

  /** string compare: -1, 0 or 1 by code point, shorter prefix first. */
  function Compare(a: string, b: string): int {
    if a == "" then (if b == "" then 0 else -1)
    else if b == "" then 1
    else if a[0] < b[0] then -1
    else if a[0] > b[0] then 1
    else Compare(a[1..], b[1..])
  }

  function Pow10(k: nat): (p: nat)
    ensures p >= 1
  {
    if k == 0 then 1 else 10 * Pow10(k - 1)
  }

  lemma {:induction false} DecimalBelow(s: string)
    requires AllDigits(s)
    ensures NumberOf(s) < Pow10(|s|)
    decreases |s|
  {
    if s != "" { DecimalBelow(s[..|s| - 1]); }
  }

  /** The value seen from the first digit. */
  lemma {:induction false} DecimalHead(s: string)
    requires AllDigits(s) && s != ""
    ensures AllDigits(s[1..]) && NumberOf(s) == Val(s[0]) * Pow10(|s| - 1) + NumberOf(s[1..])
    decreases |s|
  {
    if |s| == 1 {
      assert s[..0] == "" && s[1..] == "";
    } else {
      var t := s[..|s| - 1];
      DecimalHead(t);
      var m, c := |s| - 1, Val(s[|s| - 1]);
      assert t[0] == s[0] && s[1..][..m - 1] == t[1..] && s[1..][m - 1] == s[m];
      assert NumberOf(s[1..]) == 10 * NumberOf(t[1..]) + c && NumberOf(s) == 10 * NumberOf(t) + c;
      Shift(Val(s[0]), Pow10(m - 1));
    }
  }

  lemma Shift(v: nat, p: nat)
    ensures 10 * (v * p) == v * (10 * p)
  {
  }

  /** On equal lengths, comparing the text is comparing the numbers. */
  lemma {:induction false} CompareIsNumeric(a: string, b: string)
    requires AllDigits(a) && AllDigits(b) && |a| == |b|
    ensures Compare(a, b) > 0 <==> NumberOf(a) > NumberOf(b)
    ensures Compare(a, b) == 0 <==> NumberOf(a) == NumberOf(b)
    decreases |a|
  {
    if a != "" {
      DecimalHead(a);
      DecimalHead(b);
      DecimalBelow(a[1..]);
      DecimalBelow(b[1..]);
      CompareIsNumeric(a[1..], b[1..]);
      var p := Pow10(|a| - 1);
      var x, y, ra, rb := Val(a[0]), Val(b[0]), NumberOf(a[1..]), NumberOf(b[1..]);
      hide NumberOf;
      hide Pow10;
      if x < y { HeadDecides(x, y, p, ra, rb); }
      else if y < x { HeadDecides(y, x, p, rb, ra); }
      else { assert a[0] == b[0]; }
    }
  }

  lemma HeadDecides(x: nat, y: nat, p: nat, ra: nat, rb: nat)
    requires x < y && ra < p
    ensures x * p + ra < y * p + rb
  {
    assert (x + 1) * p <= y * p;
  }

  /** A longer number without leading zeros is larger. */
  lemma LongerIsLarger(a: string, b: string)
    requires Normal(a) && AllDigits(b) && |a| > |b| && b != ""
    ensures NumberOf(a) > NumberOf(b)
  {
    DecimalHead(a);
    DecimalBelow(b);
    Pow10Grows(|b|, |a| - 1);
    ScaleUp(Pow10(|a| - 1), Val(a[0]));
  }

  lemma {:induction false} Pow10Grows(j: nat, k: nat)
    requires j <= k
    ensures Pow10(j) <= Pow10(k)
  {
    if j < k { Pow10Grows(j, k - 1); }
  }

  /** Length first, then text, decides numeric order of normal numbers. */
  lemma TextOrderIsNumeric(a: string, b: string)
    requires Normal(a) && Normal(b)
    ensures (|a| > |b| || (|a| == |b| && Compare(a, b) > 0)) <==> NumberOf(a) > NumberOf(b)
  {
    if |a| > |b| { LongerIsLarger(a, b); }
    else if |a| < |b| { LongerIsLarger(b, a); }
    else { CompareIsNumeric(a, b); }
  }

  lemma {:induction false} TrimKeepsValue(s: string)
    requires AllDigits(s)
    ensures var t := TrimZeros(s); AllDigits(t) && NumberOf(t) == NumberOf(s) && (t == "" || t[0] != '0')
    decreases |s|
  {
    if s != "" && s[0] == '0' {
      DecimalHead(s);
      TrimKeepsValue(s[1..]);
    }
  }

  /** _dur2ms: every comparison is on text; the multiplication comes last. */
  method Dur2ms(d: string) returns (r: Option<nat>)
    ensures r == if Millis(d).Some? && Millis(d).value <= TCL_MAX then Millis(d) else None
  {
    var k := Lead(d);
    if k == 0 || Factor(d[k..]) == 0 { return None; }
    var n, factor := d[..k], Factor(d[k..]);
    var limit := TCL_MAX / factor;
    var limitText := Numeral(limit);
    var normalized := TrimZeros(n);
    TrimKeepsValue(n);
    if normalized == "" { normalized := "0"; }
    assert NumberOf(normalized) == NumberOf(n) by { assert NumberOf("0") == 0; }
    NumeralReadsBack(limit);
    TextOrderIsNumeric(normalized, limitText);
    OverLimit(NumberOf(n), factor, TCL_MAX);
    if |normalized| > |limitText| || (|normalized| == |limitText| && Compare(normalized, limitText) > 0) {
      return None;
    }
    r := Some(NumberOf(normalized) * factor);
  }

  // ---- the three agree -----------------------------------------------------------------

  /** On every text: _dur2ms accepts exactly what parse_duration_ms puts at no more
      than 4294967294, and http_duration exactly what it puts in 1..INT_MAX; an
      accepted duration has one value in all three. */
  method Agree(s: string) returns (native: int, tcl: Option<nat>, http: Option<nat>)
    ensures tcl == if 0 <= native <= TCL_MAX then Some(native as nat) else None
    ensures http == if 1 <= native <= INT_MAX then Some(native as nat) else None
  {
    native := ParseDurationMs(s);
    tcl := Dur2ms(s);
    http := HttpDuration(s);
  }
}
