/** Why sorting names by their UTF-8 bytes sorts them by code point: section 3 of
    RFC 3629, and the property its section 1 promises. */
module Utf8 {
  import opened Sorting

  /** One scalar value, in one to four bytes. */
  function Units(n: nat): (bs: seq<nat>)
    ensures 1 <= |bs| <= 4
  {
    if n < 0x80 then [n]
    else if n < 0x800 then [0xC0 + n / 64, 0x80 + n % 64]
    else if n < 0x10000 then [0xE0 + n / 4096, 0x80 + n / 64 % 64, 0x80 + n % 64]
    else [0xF0 + n / 262144, 0x80 + n / 4096 % 64, 0x80 + n / 64 % 64, 0x80 + n % 64]
  }

  function Bytes(c: char): (bs: seq<nat>)
    ensures 1 <= |bs| <= 4
  {
    Units(c as nat)
  }

  function Encode(s: string): seq<nat> {
    if s == "" then [] else Bytes(s[0]) + Encode(s[1..])
  }

  /** Order of byte strings, a shorter one before its extensions. */
  predicate BytesLe(a: seq<nat>, b: seq<nat>) {
    a == [] || (b != [] && (a[0] < b[0] || (a[0] == b[0] && BytesLe(a[1..], b[1..]))))
  }

  /** The encodings of two characters first differ at byte k, where the smaller
      character has the smaller byte. */
  lemma CharOrder(c: char, d: char) returns (k: nat)
    requires c < d
    ensures k < |Bytes(c)| && k < |Bytes(d)|
    ensures Bytes(c)[..k] == Bytes(d)[..k] && Bytes(c)[k] < Bytes(d)[k]
  {
    var b, e := Bytes(c), Bytes(d);
    if b[0] < e[0] {
      k := 0;
    } else {
      k := SameLead(c as nat, d as nat, b, e);
    }
  }

  lemma SameLead(n: nat, m: nat, b: seq<nat>, e: seq<nat>) returns (k: nat)
    requires n < m < 0x110000 && b == Units(n) && e == Units(m) && b[0] >= e[0]
    ensures 0 < k < |b| && k < |e| && b[..k] == e[..k] && b[k] < e[k]
  {
    assert n >= 0x80;
    if n < 0x800 {
      k := 1;
    } else if n < 0x10000 {
      k := SameLead3(n, m, b, e);
    } else {
      k := SameLead4(n, m, b, e);
    }
  }

  lemma SameLead3(n: nat, m: nat, b: seq<nat>, e: seq<nat>) returns (k: nat)
    requires 0x800 <= n < m && n < 0x10000 && m < 0x110000 && b == Units(n) && e == Units(m) && b[0] >= e[0]
    ensures 0 < k < |b| && k < |e| && b[..k] == e[..k] && b[k] < e[k]
  {
    assert m < 0x10000;
    Split3(n);
    Split3(m);
    k := if b[1] < e[1] then 1 else 2;
  }

  lemma SameLead4(n: nat, m: nat, b: seq<nat>, e: seq<nat>) returns (k: nat)
    requires 0x10000 <= n < m < 0x110000 && b == Units(n) && e == Units(m) && b[0] >= e[0]
    ensures 0 < k < |b| && k < |e| && b[..k] == e[..k] && b[k] < e[k]
  {
    Split4(n);
    Split4(m);
    k := if b[1] < e[1] then 1 else if b[2] < e[2] then 2 else 3;
  }

  lemma Split3(n: nat)
    requires n < 0x10000
    ensures n == n / 4096 * 4096 + n / 64 % 64 * 64 + n % 64
  {
    assert n / 64 / 64 == n / 4096;
  }

  lemma Split4(n: nat)
    requires n < 0x200000
    ensures n == n / 262144 * 262144 + n / 4096 % 64 * 4096 + n / 64 % 64 * 64 + n % 64
  {
    assert n / 64 / 64 == n / 4096 && n / 4096 / 64 == n / 262144;
  }

  lemma {:induction false} SamePrefix(p: seq<nat>, a: seq<nat>, b: seq<nat>)
    ensures BytesLe(p + a, p + b) <==> BytesLe(a, b)
  {
    if p == [] {
      assert p + a == a && p + b == b;
    } else {
      SamePrefix(p[1..], a, b);
      assert (p + a)[1..] == p[1..] + a && (p + b)[1..] == p[1..] + b;
    }
  }

  lemma DecidedAt(a: seq<nat>, b: seq<nat>, k: nat)
    requires k < |a| && k < |b| && a[..k] == b[..k] && a[k] != b[k]
    ensures BytesLe(a, b) <==> a[k] < b[k]
  {
    assert a == a[..k] + a[k..] && b == b[..k] + b[k..];
    SamePrefix(a[..k], a[k..], b[k..]);
  }

  /** UTF-8 byte order is code-point order. */
  lemma {:induction false} ByteOrderIsCodePointOrder(a: string, b: string)
    ensures BytesLe(Encode(a), Encode(b)) <==> LexLe(a, b)
  {
    if a != "" && b != "" {
      var x, y := Encode(a), Encode(b);
      var ra, rb := Encode(a[1..]), Encode(b[1..]);
      if a[0] == b[0] {
        ByteOrderIsCodePointOrder(a[1..], b[1..]);
        SamePrefix(Bytes(a[0]), ra, rb);
      } else if a[0] < b[0] {
        var k := CharOrder(a[0], b[0]);
        Leading(Bytes(a[0]), ra, k);
        Leading(Bytes(b[0]), rb, k);
        DecidedAt(x, y, k);
      } else {
        var k := CharOrder(b[0], a[0]);
        Leading(Bytes(a[0]), ra, k);
        Leading(Bytes(b[0]), rb, k);
        DecidedAt(x, y, k);
      }
    }
  }

  lemma Leading(p: seq<nat>, rest: seq<nat>, k: nat)
    requires k < |p|
    ensures (p + rest)[..k] == p[..k] && (p + rest)[k] == p[k]
  {
  }

  lemma {:induction false} Reflexive(a: seq<nat>)
    ensures BytesLe(a, a)
  {
    if a != [] { Reflexive(a[1..]); }
  }

  lemma EncodeInjective(x: string, y: string)
    requires Encode(x) == Encode(y)
    ensures x == y
  {
    Reflexive(Encode(x));
    ByteOrderIsCodePointOrder(x, y);
    ByteOrderIsCodePointOrder(y, x);
    LexAntiSymmetric(x, y);
  }

  /** memcmp over the common length, then the lengths. */
  method CompareBytes(a: seq<nat>, b: seq<nat>) returns (c: int)
    ensures c < 0 <==> BytesLe(a, b) && a != b
    ensures c == 0 <==> a == b
  {
    hide BytesLe;
    var m := if |a| < |b| then |a| else |b|;
    var i := 0;
    while i < m && a[i] == b[i]
      invariant i <= m && a[..i] == b[..i]
    {
      assert a[..i + 1] == a[..i] + [a[i]] && b[..i + 1] == b[..i] + [b[i]];
      i := i + 1;
    }
    if i < m {
      DecidedAt(a, b, i);
      var d: int := a[i];
      return d - b[i];
    }
    Extends(a, b, m);
    c := if |a| < |b| then -1 else if |a| > |b| then 1 else 0;
  }

  lemma Extends(a: seq<nat>, b: seq<nat>, m: nat)
    requires m == (if |a| < |b| then |a| else |b|) && a[..m] == b[..m]
    ensures BytesLe(a, b) <==> |a| <= |b|
    ensures a == b <==> |a| == |b|
  {
    assert a == a[..m] + a[m..] && b == b[..m] + b[m..];
    SamePrefix(a[..m], a[m..], b[m..]);
  }

  /** dirs_namecmp: the names in code-point order. */
  method NameCmp(x: string, y: string) returns (c: int)
    ensures c < 0 <==> LexLe(x, y) && x != y
    ensures c == 0 <==> x == y
  {
    hide Encode, BytesLe, LexLe;
    c := CompareBytes(Encode(x), Encode(y));
    ByteOrderIsCodePointOrder(x, y);
    if Encode(x) == Encode(y) { EncodeInjective(x, y); }
  }
}
