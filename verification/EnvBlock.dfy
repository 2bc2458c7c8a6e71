/** build_env_block: the environment of a child, from the inherited one and the
    caller's overrides, in UTF-16 units; NUL ends an entry. */
module EnvBlock {
  import opened TclValues
  import opened Sorting

  const INT_MAX: nat := 0x7FFF_FFFF

  /** A UTF-16 unit, paired or not. */
  newtype Unit = x: int | 0 <= x < 0x1_0000
  type Wide = seq<Unit>

  const NUL: Unit := 0
  const EQUALS: Unit := 0x3D

  /** env_item. */
  datatype Entry = Entry(text: Wide, nameLen: nat)

  datatype Comparison = Failed | Less | Equal | Greater

  /** The calls that can fail: CompareStringOrdinal on two names, the conversion of a
      caller's string, the k-th allocation. */
  datatype Faults = Faults(compare: (Wide, Wide) -> bool, convert: Wide -> bool, alloc: nat -> bool)

  /** env_name_compare, over an ordinal order `le` that ignores case. */
  function Compare(le: (Wide, Wide) -> bool, f: Faults, a: Wide, b: Wide): Comparison {
    if |a| > INT_MAX || |b| > INT_MAX || f.compare(a, b) then Failed
    else if le(a, b) && le(b, a) then Equal
    else if le(a, b) then Less
    else Greater
  }

  predicate Same(le: (Wide, Wide) -> bool, a: Wide, b: Wide) {
    le(a, b) && le(b, a)
  }

  // ---- names ------------------------------------------------------------------------

  /** The first '=' at or after i, or the end. */
  function EqualsAt(s: Wide, i: nat): (n: nat)
    requires i <= |s|
    ensures i <= n <= |s| && (n < |s| ==> s[n] == EQUALS) && forall k :: i <= k < n ==> s[k] != EQUALS
    decreases |s| - i
  {
    if i == |s| || s[i] == EQUALS then i else EqualsAt(s, i + 1)
  }

  /** The name ends at the first '=' that is not the first character, so =C: is a name. */
  function NameLen(s: Wide): (n: nat)
    ensures n <= |s|
  {
    EqualsAt(s, if s != [] && s[0] == EQUALS then 1 else 0)
  }

  function Name(e: Entry): Wide
    requires e.nameLen <= |e.text|
  {
    e.text[..e.nameLen]
  }

  predicate WellNamed(e: Entry) {
    e.nameLen <= |e.text|
  }

  method EnvNameLen(entry: Wide) returns (n: nat)
    ensures n == NameLen(entry)
    ensures n <= |entry| && (n < |entry| ==> entry[n] == 0x3D) && forall k :: 0 < k < n ==> entry[k] != 0x3D
    ensures entry != [] ==> n > 0
  {
    n := if entry != [] && entry[0] == EQUALS then 1 else 0;
    while n < |entry| && entry[n] != EQUALS
      invariant n <= |entry|
      invariant EqualsAt(entry, n) == NameLen(entry)
      invariant forall k :: 0 < k < n ==> entry[k] != EQUALS
    {
      n := n + 1;
    }
  }

  // ---- the stable order -----------------------------------------------------------------

  predicate NotAfter(le: (Wide, Wide) -> bool, x: Entry, y: Entry) {
    WellNamed(x) && WellNamed(y) && le(Name(x), Name(y))
  }

  /** x goes behind everything that is not after it. */
  ghost function InsertLast(xs: seq<Entry>, x: Entry, le: (Wide, Wide) -> bool): seq<Entry> {
    if xs == [] || NotAfter(le, xs[|xs| - 1], x) then xs + [x]
    else InsertLast(xs[..|xs| - 1], x, le) + [xs[|xs| - 1]]
  }

  ghost function StableSort(xs: seq<Entry>, le: (Wide, Wide) -> bool): seq<Entry> {
    if xs == [] then [] else InsertLast(StableSort(xs[..|xs| - 1], le), xs[|xs| - 1], le)
  }

  predicate AllNamed(xs: seq<Entry>) {
    forall i :: 0 <= i < |xs| ==> WellNamed(xs[i])
  }

  predicate NameSorted(xs: seq<Entry>, le: (Wide, Wide) -> bool) {
    forall i, j :: 0 <= i < j < |xs| ==> NotAfter(le, xs[i], xs[j])
  }

  /** The entries of one name, in order. */
  function OfName(xs: seq<Entry>, name: Wide, le: (Wide, Wide) -> bool): seq<Entry> {
    if xs == [] then []
    else
      var last := xs[|xs| - 1];
      OfName(xs[..|xs| - 1], name, le) + if WellNamed(last) && Same(le, Name(last), name) then [last] else []
  }

  lemma OfNameSnoc(xs: seq<Entry>, x: Entry, name: Wide, le: (Wide, Wide) -> bool)
    ensures OfName(xs + [x], name, le)
         == if WellNamed(x) && Same(le, Name(x), name) then OfName(xs, name, le) + [x] else OfName(xs, name, le)
  {
    assert (xs + [x])[..|xs|] == xs;
  }

  lemma {:induction false} InsertAdds(xs: seq<Entry>, x: Entry, le: (Wide, Wide) -> bool)
    ensures multiset(InsertLast(xs, x, le)) == multiset(xs) + multiset{x}
    ensures |InsertLast(xs, x, le)| == |xs| + 1
  {
    if xs != [] && !NotAfter(le, xs[|xs| - 1], x) {
      var front, last := xs[..|xs| - 1], xs[|xs| - 1];
      InsertAdds(front, x, le);
      assert xs == front + [last];
    }
  }

  lemma InsertNamed(xs: seq<Entry>, x: Entry, le: (Wide, Wide) -> bool)
    requires AllNamed(xs) && WellNamed(x)
    ensures AllNamed(InsertLast(xs, x, le))
  {
    if xs != [] && !NotAfter(le, xs[|xs| - 1], x) { InsertNamed(xs[..|xs| - 1], x, le); }
  }

  lemma {:induction false} InsertSorted(xs: seq<Entry>, x: Entry, le: (Wide, Wide) -> bool)
    requires TotalPreorder(le) && NameSorted(xs, le) && AllNamed(xs) && WellNamed(x)
    ensures NameSorted(InsertLast(xs, x, le), le)
  {
    if xs != [] {
      var front, last := xs[..|xs| - 1], xs[|xs| - 1];
      if NotAfter(le, last, x) {
        forall i | 0 <= i < |xs| ensures NotAfter(le, xs[i], x) {
          assert i < |xs| - 1 ==> NotAfter(le, xs[i], last);
        }
      } else {
        var r := InsertLast(front, x, le);
        InsertSorted(front, x, le);
        InsertAdds(front, x, le);
        assert le(Name(last), Name(x)) || le(Name(x), Name(last));
        forall i | 0 <= i < |r| ensures NotAfter(le, r[i], last) {
          assert r[i] in multiset(r);
          assert r[i] == x || r[i] in front;
        }
      }
    }
  }

  /** Of two names strictly apart, only one is the same as a third. */
  lemma NotBoth(a: Wide, b: Wide, name: Wide, le: (Wide, Wide) -> bool)
    requires TotalPreorder(le) && !le(a, b)
    ensures !(Same(le, a, name) && Same(le, b, name))
  {
  }

  lemma {:induction false} InsertStable(xs: seq<Entry>, x: Entry, name: Wide, le: (Wide, Wide) -> bool)
    requires TotalPreorder(le) && NameSorted(xs, le) && AllNamed(xs) && WellNamed(x)
    ensures OfName(InsertLast(xs, x, le), name, le) == OfName(xs + [x], name, le)
  {
    hide OfName, Same;
    OfNameSnoc(xs, x, name, le);
    if xs != [] && !NotAfter(le, xs[|xs| - 1], x) {
      var front, last := xs[..|xs| - 1], xs[|xs| - 1];
      InsertStable(front, x, name, le);
      OfNameSnoc(front, x, name, le);
      OfNameSnoc(InsertLast(front, x, le), last, name, le);
      OfNameSnoc(front, last, name, le);
      assert xs == front + [last];
      NotBoth(Name(last), Name(x), name, le);
    }
  }

  /** The sort gives back the entries, in name order, those of one name as they stood. */
  lemma {:induction false} StableSortSorts(xs: seq<Entry>, le: (Wide, Wide) -> bool)
    requires TotalPreorder(le) && AllNamed(xs)
    ensures var s := StableSort(xs, le);
      && NameSorted(s, le) && AllNamed(s) && |s| == |xs| && multiset(s) == multiset(xs)
      && forall name :: OfName(s, name, le) == OfName(xs, name, le)
  {
    if xs != [] {
      var front, last := xs[..|xs| - 1], xs[|xs| - 1];
      var s := StableSort(front, le);
      StableSortSorts(front, le);
      assert xs == front + [last];
      InsertSorted(s, last, le);
      InsertAdds(s, last, le);
      InsertNamed(s, last, le);
      forall name ensures OfName(StableSort(xs, le), name, le) == OfName(xs, name, le) {
        InsertStable(s, last, name, le);
        OfNameSnoc(s, last, name, le);
        OfNameSnoc(front, last, name, le);
      }
    }
  }

  /** No system call fails. */
  ghost predicate Reliable(f: Faults) {
    (forall a, b :: !f.compare(a, b)) && (forall s :: !f.convert(s)) && (forall k :: f.alloc(k))
  }

  predicate ShortNames(xs: seq<Entry>) {
    forall i :: 0 <= i < |xs| ==> xs[i].nameLen <= INT_MAX
  }

  lemma CompareSays(le: (Wide, Wide) -> bool, f: Faults, xs: seq<Entry>, j: nat, x: Entry)
    requires AllNamed(xs + [x]) && j < |xs|
    ensures WellNamed(xs[j]) && WellNamed(x)
    ensures Compare(le, f, Name(xs[j]), Name(x)) == Greater ==> !NotAfter(le, xs[j], x)
    ensures Compare(le, f, Name(xs[j]), Name(x)) in {Less, Equal} ==> NotAfter(le, xs[j], x)
    ensures Compare(le, f, Name(xs[j]), Name(x)) == Failed ==> !Reliable(f) || !ShortNames(xs + [x])
  {
    var all := xs + [x];
    assert all[j] == xs[j] && all[|xs|] == x;
  }

  /** One turn of the insertion sort; it stops at a comparison that fails. */
  method InsertItem(a: array<Entry>, i: nat, le: (Wide, Wide) -> bool, f: Faults) returns (ok: bool)
    requires i < a.Length && AllNamed(a[..i + 1])
    modifies a
    ensures ok ==> a[..i + 1] == InsertLast(old(a[..i]), old(a[i]), le)
    ensures forall k :: i < k < a.Length ==> a[k] == old(a[k])
    ensures Reliable(f) && ShortNames(old(a[..i + 1])) ==> ok
  {
    hide InsertLast, StableSort, NotAfter, Compare, Reliable, ShortNames, Name, AllNamed;
    ghost var xs := a[..i];
    var item := a[i];
    var j := i;
    ok := true;
    assert xs[..i] == xs && xs[i..] == [];
    ghost var all := a[..i + 1];
    assert all == xs + [item];
    while j > 0
      invariant j <= i
      invariant forall k :: 0 <= k < j ==> a[k] == xs[k]
      invariant forall k :: j < k <= i ==> a[k] == xs[k - 1]
      invariant forall k :: i < k < a.Length ==> a[k] == old(a[k])
      invariant InsertLast(xs, item, le) == InsertLast(xs[..j], item, le) + xs[j..]
    {
      var before := a[j - 1];
      assert before == xs[j - 1];
      CompareSays(le, f, xs, j - 1, item);
      var c := Compare(le, f, Name(before), Name(item));
      if c == Failed { ok := false; break; }
      if c != Greater { break; }
      InsertStep(xs, j, item, le);
      a[j] := before;
      j := j - 1;
    }
    if ok { InsertEnd(xs, j, item, le); }
    a[j] := item;
    Assembled(a[..i + 1], xs, j, item);
  }

  lemma Assembled(ys: seq<Entry>, xs: seq<Entry>, j: nat, x: Entry)
    requires j <= |xs| && |ys| == |xs| + 1 && ys[j] == x
    requires forall k :: 0 <= k < j ==> ys[k] == xs[k]
    requires forall k :: j < k <= |xs| ==> ys[k] == xs[k - 1]
    ensures ys == xs[..j] + [x] + xs[j..]
  {
  }

  lemma NamedParts(xs: seq<Entry>, x: Entry, all: seq<Entry>)
    requires AllNamed(all) && all == xs + [x]
    ensures AllNamed(xs) && WellNamed(x)
    ensures ShortNames(all) ==> ShortNames(xs) && x.nameLen <= INT_MAX
  {
    assert forall i :: 0 <= i < |xs| ==> all[i] == xs[i];
    assert all[|xs|] == x;
  }

  lemma InsertStep(xs: seq<Entry>, j: nat, x: Entry, le: (Wide, Wide) -> bool)
    requires 0 < j <= |xs| && !NotAfter(le, xs[j - 1], x)
    ensures InsertLast(xs[..j], x, le) + xs[j..] == InsertLast(xs[..j - 1], x, le) + xs[j - 1..]
  {
    assert xs[..j][..j - 1] == xs[..j - 1];
    assert xs[j - 1..] == [xs[j - 1]] + xs[j..];
  }

  lemma InsertEnd(xs: seq<Entry>, j: nat, x: Entry, le: (Wide, Wide) -> bool)
    requires j <= |xs| && (j == 0 || NotAfter(le, xs[j - 1], x))
    ensures InsertLast(xs[..j], x, le) + xs[j..] == xs[..j] + [x] + xs[j..]
  {
  }

  lemma InsertShort(xs: seq<Entry>, x: Entry, le: (Wide, Wide) -> bool)
    requires ShortNames(xs) && x.nameLen <= INT_MAX
    ensures ShortNames(InsertLast(xs, x, le))
  {
    if xs != [] && !NotAfter(le, xs[|xs| - 1], x) { InsertShort(xs[..|xs| - 1], x, le); }
  }

  lemma StableNone(le: (Wide, Wide) -> bool)
    ensures StableSort([], le) == []
  {
  }

  lemma StableSnoc(xs: seq<Entry>, x: Entry, le: (Wide, Wide) -> bool)
    ensures StableSort(xs + [x], le) == InsertLast(StableSort(xs, le), x, le)
  {
    assert (xs + [x])[..|xs|] == xs;
  }

  /** The insertion sort, in place. */
  method SortItems(a: array<Entry>, n: nat, le: (Wide, Wide) -> bool, f: Faults) returns (ok: bool)
    requires n <= a.Length && AllNamed(a[..n])
    modifies a
    ensures ok ==> a[..n] == StableSort(old(a[..n]), le)
    ensures Reliable(f) && ShortNames(old(a[..n])) ==> ok
  {
    hide InsertLast, StableSort, AllNamed, ShortNames;
    ghost var all := a[..n];
    ok := true;
    var i := 0;
    assert all[..0] == [];
    StableNone(le);
    while i < n
      invariant i <= n
      invariant a[..i] == StableSort(all[..i], le)
      invariant forall k :: i <= k < n ==> a[k] == all[k]
    {
      assert a[..i + 1] == a[..i] + [all[i]];
      SortedNamed(all, i, le);
      ok := InsertItem(a, i, le, f);
      if !ok { return; }
      assert all[..i + 1] == all[..i] + [all[i]];
      StableSnoc(all[..i], all[i], le);
      i := i + 1;
    }
    assert all[..n] == all;
  }

  lemma {:induction false} SortedNamed(all: seq<Entry>, i: nat, le: (Wide, Wide) -> bool)
    requires AllNamed(all) && i < |all|
    ensures AllNamed(StableSort(all[..i], le) + [all[i]])
    ensures ShortNames(all) ==> ShortNames(StableSort(all[..i], le) + [all[i]])
  {
    if i > 0 {
      SortedNamed(all, i - 1, le);
      var s := StableSort(all[..i - 1], le);
      NamedParts(s, all[i - 1], s + [all[i - 1]]);
      assert all[..i] == all[..i - 1] + [all[i - 1]];
      StableSnoc(all[..i - 1], all[i - 1], le);
      InsertNamed(s, all[i - 1], le);
      if ShortNames(all) { InsertShort(s, all[i - 1], le); }
    } else {
      assert all[..0] == [];
    }
  }

  // ---- the block ------------------------------------------------------------------------

  predicate NoNulIn(s: Wide) {
    forall i :: 0 <= i < |s| ==> s[i] != NUL
  }

  function Body(xs: seq<Entry>): Wide {
    if xs == [] then [] else xs[0].text + [NUL] + Body(xs[1..])
  }

  /** Each entry closed by NUL, and one more NUL; two when there is no entry. */
  function Block(xs: seq<Entry>): Wide {
    Body(xs) + if xs == [] then [NUL, NUL] else [NUL]
  }

  function NulAt(b: Wide): (n: nat)
    ensures n <= |b| && (n < |b| ==> b[n] == NUL) && forall k :: 0 <= k < n ==> b[k] != NUL
  {
    if b == [] || b[0] == NUL then 0 else 1 + NulAt(b[1..])
  }

  /** Reading an environment block: strings up to the empty one. */
  function ReadBack(b: Wide): seq<Wide>
    decreases |b|
  {
    var n := NulAt(b);
    if n == 0 || n == |b| then [] else [b[..n]] + ReadBack(b[n + 1..])
  }

  function Texts(xs: seq<Entry>): seq<Wide> {
    seq(|xs|, i requires 0 <= i < |xs| => xs[i].text)
  }

  lemma {:induction false} BlockReadsBack(xs: seq<Entry>, tail: Wide)
    requires forall i :: 0 <= i < |xs| ==> xs[i].text != [] && NoNulIn(xs[i].text)
    requires tail != [] && tail[0] == NUL
    ensures ReadBack(Body(xs) + tail) == Texts(xs)
  {
    if xs != [] {
      hide ReadBack;
      BlockReadsBack(xs[1..], tail);
      var t := xs[0].text;
      ReadsFirst(t, Body(xs[1..]) + tail);
      Close(t, Body(xs[1..]), tail);
      assert Texts(xs) == [t] + Texts(xs[1..]);
    } else {
      assert Body(xs) + tail == tail;
    }
  }

  lemma Close(t: Wide, rest: Wide, tail: Wide)
    ensures t + [NUL] + rest + tail == t + [NUL] + (rest + tail)
  {
  }

  lemma ReadsFirst(t: Wide, rest: Wide)
    requires t != [] && NoNulIn(t)
    ensures ReadBack(t + [NUL] + rest) == [t] + ReadBack(rest)
  {
    var b := t + [NUL] + rest;
    assert b[|t|] == NUL && forall k :: 0 <= k < |t| ==> b[k] == t[k];
    assert NulAt(b) == |t|;
    assert b[..|t|] == t && b[|t| + 1..] == rest;
  }

  /** memcpy. */
  method Copy(buf: array<Unit>, pos: nat, text: Wide)
    requires pos + |text| <= buf.Length
    modifies buf
    ensures buf[..pos + |text|] == old(buf[..pos]) + text
  {
    for i := 0 to |text|
      invariant buf[..pos + i] == old(buf[..pos]) + text[..i]
    {
      buf[pos + i] := text[i];
      assert buf[..pos + i + 1] == buf[..pos + i] + [text[i]];
    }
    assert text[..|text|] == text;
  }

  lemma BodyStep(xs: seq<Entry>, i: nat)
    requires i < |xs|
    ensures Body(xs[i..]) == xs[i].text + [NUL] + Body(xs[i + 1..])
  {
    assert xs[i..][0] == xs[i] && xs[i..][1..] == xs[i + 1..];
  }

  /** Writes the block when it fits, and only then; nothing is written past the buffer. */
  method Emit(xs: seq<Entry>, buf: array<Unit>) returns (ok: bool, pos: nat)
    modifies buf
    ensures ok <==> |Block(xs)| <= buf.Length
    ensures ok ==> pos == |Block(xs)| && buf[..pos] == Block(xs)
  {
    hide Body;
    var cap := buf.Length;
    pos := 0;
    assert xs[0..] == xs;
    for i := 0 to |xs|
      invariant pos <= cap
      invariant buf[..pos] + Body(xs[i..]) == Body(xs)
    {
      BodyStep(xs, i);
      if pos >= cap || |xs[i].text| > cap - pos - 1 {
        assert |Body(xs)| == pos + |xs[i].text| + 1 + |Body(xs[i + 1..])|;
        return false, pos;
      }
      ghost var before := buf[..pos];
      Copy(buf, pos, xs[i].text);
      pos := pos + |xs[i].text|;
      ghost var mid := buf[..pos];
      buf[pos] := NUL;
      pos := pos + 1;
      assert buf[..pos] == mid + [NUL];
      Chain(before, xs[i].text, Body(xs[i + 1..]));
    }
    BodyNone(xs);
    assert buf[..pos] == Body(xs);
    var closing := if xs == [] then 2 else 1;
    if closing > cap - pos { return false, pos; }
    ghost var body := buf[..pos];
    Copy(buf, pos, if xs == [] then [NUL, NUL] else [NUL]);
    pos := pos + closing;
    ok := true;
  }

  lemma Chain(a: Wide, t: Wide, rest: Wide)
    ensures a + t + [NUL] + rest == a + (t + [NUL] + rest)
  {
  }

  lemma BodyNone(xs: seq<Entry>)
    ensures Body(xs[|xs|..]) == []
  {
  }

  // ---- keys, inherited entries, overrides ---------------------------------------------

  datatype EnvError =
    | NotPairs
    | BadKey
    | BadEntry
    | NulInValue
    | Duplicate
    | TooLarge
    | CannotRead
    | CannotCompare
    | OutOfMemory

  datatype Built = Built(len: nat) | Refused(why: EnvError)

  predicate KeyOk(key: Wide) {
    key != [] && NoNulIn(key) && forall i :: 0 <= i < |key| ==> key[i] != EQUALS
  }

  /** The j-th override. */
  function KeyAt(pairs: seq<Wide>, j: nat): Wide
    requires 2 * j < |pairs|
  {
    pairs[2 * j]
  }

  function ValueAt(pairs: seq<Wide>, j: nat): Wide
    requires 2 * j + 1 < |pairs|
  {
    pairs[2 * j + 1]
  }

  function Override(key: Wide, value: Wide): Entry {
    Entry(key + [EQUALS] + value, |key|)
  }

  function Overrides(pairs: seq<Wide>, n: nat): seq<Entry>
    requires 2 * n <= |pairs|
  {
    if n == 0 then [] else Overrides(pairs, n - 1) + [Override(KeyAt(pairs, n - 1), ValueAt(pairs, n - 1))]
  }

  /** Some override among the first n has this name. */
  predicate Named(pairs: seq<Wide>, n: nat, name: Wide, le: (Wide, Wide) -> bool)
    requires 2 * n <= |pairs|
  {
    exists j :: 0 <= j < n && Same(le, name, KeyAt(pairs, j))
  }

  function Inherit(e: Wide): Entry {
    Entry(e, NameLen(e))
  }

  /** The inherited entries no override names. */
  function Kept(inherited: seq<Wide>, pairs: seq<Wide>, le: (Wide, Wide) -> bool): seq<Entry> {
    if inherited == [] then []
    else
      var e := inherited[|inherited| - 1];
      Kept(inherited[..|inherited| - 1], pairs, le)
      + if Named(pairs, |pairs| / 2, Name(Inherit(e)), le) then [] else [Inherit(e)]
  }

  function Wanted(inherited: seq<Wide>, pairs: seq<Wide>, le: (Wide, Wide) -> bool): seq<Entry> {
    Kept(inherited, pairs, le) + Overrides(pairs, |pairs| / 2)
  }

  /** What the code asks of the overrides. */
  predicate PairsOk(pairs: seq<Wide>, le: (Wide, Wide) -> bool) {
    && |pairs| % 2 == 0
    && (forall j :: 0 <= j < |pairs| / 2 ==> KeyOk(KeyAt(pairs, j)) && NoNulIn(ValueAt(pairs, j)))
    && NoTwoNames(pairs, |pairs| / 2, le)
  }

  predicate NoTwoNames(pairs: seq<Wide>, n: nat, le: (Wide, Wide) -> bool)
    requires 2 * n <= |pairs|
  {
    forall j, k :: 0 <= k < j < n ==> !Same(le, KeyAt(pairs, k), KeyAt(pairs, j))
  }

  predicate Short(inherited: seq<Wide>, pairs: seq<Wide>) {
    && |pairs| / 2 <= INT_MAX
    && (forall e :: e in inherited ==> NameLen(e) <= INT_MAX)
    && (forall j :: 0 <= j < |pairs| / 2 ==> |KeyAt(pairs, j)| <= INT_MAX)
  }

  /** The first loop: every key valid, and new up to case. */
  method CheckKeys(pairs: seq<Wide>, le: (Wide, Wide) -> bool, f: Faults) returns (err: Option<EnvError>)
    ensures err.None? ==> forall j :: 0 <= j < |pairs| / 2 ==> KeyOk(KeyAt(pairs, j))
    ensures err.None? ==> NoTwoNames(pairs, |pairs| / 2, le)
    ensures err.Some? && Reliable(f) && (forall j :: 0 <= j < |pairs| / 2 ==> |KeyAt(pairs, j)| <= INT_MAX) ==>
      (exists j :: 0 <= j < |pairs| / 2 && !KeyOk(KeyAt(pairs, j))) || !NoTwoNames(pairs, |pairs| / 2, le)
  {
    for j := 0 to |pairs| / 2
      invariant forall l :: 0 <= l < j ==> KeyOk(KeyAt(pairs, l))
      invariant NoTwoNames(pairs, j, le)
    {
      var key := KeyAt(pairs, j);
      if !KeyOk(key) { return Some(BadKey); }
      if f.convert(key) { return Some(BadEntry); }
      for k := 0 to j
        invariant forall l :: 0 <= l < k ==> !Same(le, KeyAt(pairs, l), key)
      {
        var c := Compare(le, f, KeyAt(pairs, k), key);
        if c == Failed { return Some(CannotCompare); }
        if c == Equal { return Some(Duplicate); }
      }
    }
    err := None;
  }

  /** Does an override name this entry? None when a comparison fails. */
  method Overridden(pairs: seq<Wide>, name: Wide, le: (Wide, Wide) -> bool, f: Faults) returns (r: Option<bool>)
    ensures r.Some? ==> r.value == Named(pairs, |pairs| / 2, name, le)
    ensures (forall j :: 0 <= j < |pairs| / 2 ==> |KeyAt(pairs, j)| <= INT_MAX) ==>
      Reliable(f) && |name| <= INT_MAX ==> r.Some?
  {
    for j := 0 to |pairs| / 2
      invariant forall l :: 0 <= l < j ==> !Same(le, name, KeyAt(pairs, l))
    {
      var c := Compare(le, f, name, KeyAt(pairs, j));
      if c == Failed { return None; }
      if c == Equal { return Some(true); }
    }
    r := Some(false);
  }

  /** The second loop: inherited entries into the table. */
  method Collect(inherited: seq<Wide>, pairs: seq<Wide>, items: array<Entry>, le: (Wide, Wide) -> bool,
                 f: Faults)
    returns (ok: bool, n: nat)
    requires |inherited| <= items.Length
    modifies items
    ensures n <= |inherited|
    ensures ok ==> items[..n] == Kept(inherited, pairs, le)
    ensures Reliable(f) && Short(inherited, pairs) ==> ok
  {
    hide Named;
    n := 0;
    for i := 0 to |inherited|
      invariant n <= i
      invariant items[..n] == Kept(inherited[..i], pairs, le)
    {
      assert inherited[..i + 1][..i] == inherited[..i];
      var len := EnvNameLen(inherited[i]);
      var r := Overridden(pairs, inherited[i][..len], le, f);
      if r.None? { return false, n; }
      if !r.value {
        items[n] := Entry(inherited[i], len);
        assert items[..n + 1] == items[..n] + [Inherit(inherited[i])];
        n := n + 1;
      }
    }
    assert inherited[..|inherited|] == inherited;
    ok := true;
  }

  /** An override whose value holds a NUL or whose text alone is over the limit. */
  predicate Unusable(key: Wide, value: Wide, cap: nat) {
    !NoNulIn(value) || |Override(key, value).text| + 1 > cap
  }

  /** The third loop: overrides behind them. */
  method AddOverrides(pairs: seq<Wide>, items: array<Entry>, n0: nat, cap: nat, f: Faults)
    returns (err: Option<EnvError>, n: nat)
    requires |pairs| % 2 == 0 && n0 + |pairs| / 2 <= items.Length
    modifies items
    ensures n == n0 + |pairs| / 2 || err.Some?
    ensures err.None? ==> items[..n] == old(items[..n0]) + Overrides(pairs, |pairs| / 2)
    ensures err.None? ==> forall j :: 0 <= j < |pairs| / 2 ==> NoNulIn(ValueAt(pairs, j))
    ensures err.Some? && Reliable(f) ==>
      exists j :: 0 <= j < |pairs| / 2 && Unusable(KeyAt(pairs, j), ValueAt(pairs, j), cap)
  {
    n := n0;
    for j := 0 to |pairs| / 2
      invariant n == n0 + j
      invariant items[..n] == old(items[..n0]) + Overrides(pairs, j)
      invariant forall l :: 0 <= l < j ==> NoNulIn(ValueAt(pairs, l))
    {
      var key, value := KeyAt(pairs, j), ValueAt(pairs, j);
      if !NoNulIn(value) { return Some(NulInValue), n; }
      if f.convert(value) { return Some(BadEntry), n; }
      if |key| >= cap || |value| >= cap || |key| + |value| + 2 > cap {
        assert |Override(key, value).text| + 1 > cap;
        return Some(TooLarge), n;
      }
      if !f.alloc(3 + j) { return Some(OutOfMemory), n; }
      items[n] := Entry(key + [EQUALS] + value, |key|);
      assert items[..n + 1] == items[..n] + [Override(key, value)];
      n := n + 1;
    }
    err := None;
  }

  // ---- the whole ------------------------------------------------------------------------

  /** The entries of an inherited block are nonempty and hold no NUL. */
  predicate EntriesOk(inherited: seq<Wide>) {
    forall i :: 0 <= i < |inherited| ==> inherited[i] != [] && NoNulIn(inherited[i])
  }

  /** x is an inherited entry that no override names. */
  predicate IsKept(inherited: seq<Wide>, pairs: seq<Wide>, le: (Wide, Wide) -> bool, x: Entry) {
    exists i :: 0 <= i < |inherited| && x == Inherit(inherited[i]) && !Named(pairs, |pairs| / 2, Name(x), le)
  }

  lemma {:induction false} KeptIs(inherited: seq<Wide>, pairs: seq<Wide>, le: (Wide, Wide) -> bool, x: Entry)
    ensures x in Kept(inherited, pairs, le) <==> IsKept(inherited, pairs, le, x)
  {
    if inherited != [] {
      hide Named, NameLen;
      var front, e := inherited[..|inherited| - 1], inherited[|inherited| - 1];
      KeptIs(front, pairs, le, x);
      if IsKept(front, pairs, le, x) {
        var i :| 0 <= i < |front| && x == Inherit(front[i]) && !Named(pairs, |pairs| / 2, Name(x), le);
        assert inherited[i] == front[i];
      }
      if IsKept(inherited, pairs, le, x) {
        var i :| 0 <= i < |inherited| && x == Inherit(inherited[i]) && !Named(pairs, |pairs| / 2, Name(x), le);
        if i < |front| { assert front[i] == inherited[i]; }
      }
    }
  }

  lemma {:induction false} OverridesAre(pairs: seq<Wide>, n: nat)
    requires 2 * n <= |pairs|
    ensures |Overrides(pairs, n)| == n && AllNamed(Overrides(pairs, n))
    ensures forall j :: 0 <= j < n ==> Overrides(pairs, n)[j] == Override(KeyAt(pairs, j), ValueAt(pairs, j))
  {
    if n > 0 { OverridesAre(pairs, n - 1); }
  }

  /** Every wanted entry has a name, a text and no NUL. */
  lemma WantedAreEntries(inherited: seq<Wide>, pairs: seq<Wide>, le: (Wide, Wide) -> bool)
    requires PairsOk(pairs, le) && EntriesOk(inherited)
    ensures var w := Wanted(inherited, pairs, le);
      AllNamed(w) && forall i :: 0 <= i < |w| ==> w[i].text != [] && NoNulIn(w[i].text)
    ensures Short(inherited, pairs) ==> ShortNames(Wanted(inherited, pairs, le))
  {
    hide Named, NameLen;
    var kept, over := Kept(inherited, pairs, le), Overrides(pairs, |pairs| / 2);
    OverridesAre(pairs, |pairs| / 2);
    var w := kept + over;
    forall i | 0 <= i < |w|
      ensures WellNamed(w[i]) && w[i].text != [] && NoNulIn(w[i].text)
      ensures Short(inherited, pairs) ==> w[i].nameLen <= INT_MAX
    {
      if i < |kept| {
        assert w[i] in kept;
        KeptIs(inherited, pairs, le, w[i]);
        var j :| 0 <= j < |inherited| && w[i] == Inherit(inherited[j]);
        assert inherited[j] in inherited;
      } else {
        assert w[i] == Override(KeyAt(pairs, i - |kept|), ValueAt(pairs, i - |kept|));
      }
    }
  }

  /** What a child launched with the block reads: the inherited entries no override names
      and one NAME=VALUE an override, in name order, those of one name as they stood. */
  lemma {:induction false} EnvironmentReadsBack(inherited: seq<Wide>, pairs: seq<Wide>,
                                                le: (Wide, Wide) -> bool)
    requires TotalPreorder(le) && PairsOk(pairs, le) && EntriesOk(inherited)
    ensures var w, s := Wanted(inherited, pairs, le), StableSort(Wanted(inherited, pairs, le), le);
      && ReadBack(Block(s)) == Texts(s)
      && multiset(s) == multiset(w) && NameSorted(s, le)
      && (forall name :: OfName(s, name, le) == OfName(w, name, le))
      && |Block(s)| >= 2 && Block(s)[|Block(s)| - 2..] == [NUL, NUL]
  {
    hide Wanted, StableSort, OfName, NameSorted;
    var w := Wanted(inherited, pairs, le);
    WantedAreEntries(inherited, pairs, le);
    StableSortSorts(w, le);
    var s := StableSort(w, le);
    forall i | 0 <= i < |s| ensures s[i].text != [] && NoNulIn(s[i].text) {
      assert s[i] in multiset(s);
      var j :| 0 <= j < |w| && w[j] == s[i];
    }
    BlockReadsBack(s, if s == [] then [NUL, NUL] else [NUL]);
    BlockCloses(s);
  }

  // ---- what the child reads ---------------------------------------------------------------

  /** NAME=VALUE of the j-th pair, character for character. */
  predicate Spells(text: Wide, pairs: seq<Wide>, j: nat)
    requires 2 * j + 1 < |pairs|
  {
    && |text| == |pairs[2 * j]| + 1 + |pairs[2 * j + 1]|
    && text[..|pairs[2 * j]|] == pairs[2 * j]
    && text[|pairs[2 * j]|] == 0x3D
    && text[|pairs[2 * j]| + 1..] == pairs[2 * j + 1]
  }

  predicate SpellsSome(text: Wide, pairs: seq<Wide>, n: nat)
    requires 2 * n <= |pairs|
  {
    exists j :: 0 <= j < n && Spells(text, pairs, j)
  }

  /** The name of a string, up to case, is one of the keys. */
  predicate NamesKey(text: Wide, pairs: seq<Wide>, le: (Wide, Wide) -> bool) {
    var name := text[..NameLen(text)];
    exists j :: 0 <= j < |pairs| / 2 && le(name, pairs[2 * j]) && le(pairs[2 * j], name)
  }

  /** How often a string should be among those a child is given: once if a pair spells it,
      and otherwise as often as it is inherited, unless a key names it. */
  function HowOften(text: Wide, inherited: seq<Wide>, pairs: seq<Wide>, le: (Wide, Wide) -> bool): nat
    requires |pairs| % 2 == 0
  {
    if SpellsSome(text, pairs, |pairs| / 2) then 1
    else if NamesKey(text, pairs, le) then 0
    else multiset(inherited)[text]
  }

  /** And so they are, in name order. */
  ghost predicate Reads(read: seq<Wide>, inherited: seq<Wide>, pairs: seq<Wide>, le: (Wide, Wide) -> bool) {
    && |pairs| % 2 == 0
    && (forall text :: multiset(read)[text] == HowOften(text, inherited, pairs, le))
    && (forall i, j :: 0 <= i < j < |read| ==> le(read[i][..NameLen(read[i])], read[j][..NameLen(read[j])]))
  }

  lemma {:induction false} EqualsAfter(s: Wide, i: nat, k: nat)
    requires i <= k <= |s| && (k < |s| ==> s[k] == EQUALS) && forall l :: i <= l < k ==> s[l] != EQUALS
    ensures EqualsAt(s, i) == k
  {
  }

  /** The string of pair j is named by its key. */
  lemma SpelledName(text: Wide, pairs: seq<Wide>, j: nat)
    requires 2 * j + 1 < |pairs| && Spells(text, pairs, j) && KeyOk(pairs[2 * j])
    ensures NameLen(text) == |pairs[2 * j]| && text[..NameLen(text)] == pairs[2 * j]
    ensures text == Override(pairs[2 * j], pairs[2 * j + 1]).text
  {
    var key := pairs[2 * j];
    assert forall l :: 0 <= l < |key| ==> text[l] == text[..|key|][l] == key[l];
    assert text == text[..|key|] + [text[|key|]] + text[|key| + 1..];
    EqualsAfter(text, if text[0] == EQUALS then 1 else 0, |key|);
  }

  lemma OverrideSpells(pairs: seq<Wide>, j: nat)
    requires 2 * j + 1 < |pairs|
    ensures Spells(Override(pairs[2 * j], pairs[2 * j + 1]).text, pairs, j)
  {
  }

  lemma TextsSnoc(xs: seq<Entry>, x: Entry)
    ensures Texts(xs + [x]) == Texts(xs) + [x.text]
  {
  }

  lemma {:induction false} InsertTexts(xs: seq<Entry>, x: Entry, le: (Wide, Wide) -> bool)
    ensures multiset(Texts(InsertLast(xs, x, le))) == multiset(Texts(xs)) + multiset{x.text}
  {
    TextsSnoc(xs, x);
    if xs != [] && !NotAfter(le, xs[|xs| - 1], x) {
      var front, last := xs[..|xs| - 1], xs[|xs| - 1];
      InsertTexts(front, x, le);
      TextsSnoc(InsertLast(front, x, le), last);
      TextsSnoc(front, last);
      assert xs == front + [last];
    }
  }

  lemma {:induction false} SortTexts(xs: seq<Entry>, le: (Wide, Wide) -> bool)
    ensures multiset(Texts(StableSort(xs, le))) == multiset(Texts(xs))
  {
    if xs != [] {
      var front, last := xs[..|xs| - 1], xs[|xs| - 1];
      SortTexts(front, le);
      InsertTexts(StableSort(front, le), last, le);
      TextsSnoc(front, last);
      assert xs == front + [last];
    }
  }

  lemma {:induction false} KeptCount(inherited: seq<Wide>, pairs: seq<Wide>, le: (Wide, Wide) -> bool, text: Wide)
    requires |pairs| % 2 == 0
    ensures multiset(Texts(Kept(inherited, pairs, le)))[text]
         == if NamesKey(text, pairs, le) then 0 else multiset(inherited)[text]
  {
    if inherited != [] {
      var front, e := inherited[..|inherited| - 1], inherited[|inherited| - 1];
      KeptCount(front, pairs, le, text);
      KeptSnoc(front, e, pairs, le);
      assert inherited == front + [e];
    }
  }

  lemma KeptSnoc(front: seq<Wide>, e: Wide, pairs: seq<Wide>, le: (Wide, Wide) -> bool)
    requires |pairs| % 2 == 0
    ensures var kept := Texts(Kept(front, pairs, le));
      Texts(Kept(front + [e], pairs, le)) == if NamesKey(e, pairs, le) then kept else kept + [e]
  {
    hide Named, NamesKey;
    assert (front + [e])[..|front|] == front;
    TextsSnoc(Kept(front, pairs, le), Inherit(e));
    NamedIs(e, pairs, le);
    assert Kept(front, pairs, le) + [] == Kept(front, pairs, le);
  }

  lemma NamedIs(e: Wide, pairs: seq<Wide>, le: (Wide, Wide) -> bool)
    requires |pairs| % 2 == 0
    ensures Named(pairs, |pairs| / 2, Name(Inherit(e)), le) <==> NamesKey(e, pairs, le)
  {
    if NamesKey(e, pairs, le) {
      var j :| 0 <= j < |pairs| / 2 && le(e[..NameLen(e)], pairs[2 * j]) && le(pairs[2 * j], e[..NameLen(e)]);
      assert Same(le, Name(Inherit(e)), KeyAt(pairs, j));
    }
    if Named(pairs, |pairs| / 2, Name(Inherit(e)), le) {
      var j :| 0 <= j < |pairs| / 2 && Same(le, Name(Inherit(e)), KeyAt(pairs, j));
      assert le(e[..NameLen(e)], pairs[2 * j]);
    }
  }

  lemma {:induction false} OverrideCount(pairs: seq<Wide>, n: nat, le: (Wide, Wide) -> bool, text: Wide)
    requires TotalPreorder(le) && PairsOk(pairs, le) && 2 * n <= |pairs|
    ensures multiset(Texts(Overrides(pairs, n)))[text] == if SpellsSome(text, pairs, n) then 1 else 0
  {
    if n == 0 {
      assert Texts(Overrides(pairs, n)) == [];
    } else {
      hide PairsOk, Spells, TotalPreorder, Override, Texts, SpellsSome;
      var x := Override(KeyAt(pairs, n - 1), ValueAt(pairs, n - 1));
      OverrideCount(pairs, n - 1, le, text);
      CountSnoc(Overrides(pairs, n - 1), x, text);
      OverrideSpells(pairs, n - 1);
      SomeSpells(text, pairs, n);
      if Spells(text, pairs, n - 1) {
        KeyIsOk(pairs, n - 1, le);
        SpelledName(text, pairs, n - 1);
        SpelledOnce(pairs, n - 1, le, text);
      }
    }
  }

  lemma CountSnoc(xs: seq<Entry>, x: Entry, text: Wide)
    ensures multiset(Texts(xs + [x]))[text] == multiset(Texts(xs))[text] + if text == x.text then 1 else 0
  {
    TextsSnoc(xs, x);
  }

  lemma SomeSpells(text: Wide, pairs: seq<Wide>, n: nat)
    requires 0 < n && 2 * n <= |pairs|
    ensures SpellsSome(text, pairs, n) <==> SpellsSome(text, pairs, n - 1) || Spells(text, pairs, n - 1)
  {
    hide Spells;
    if SpellsSome(text, pairs, n - 1) {
      var j :| 0 <= j < n - 1 && Spells(text, pairs, j);
      assert Spells(text, pairs, j);
    }
  }

  lemma KeyIsOk(pairs: seq<Wide>, j: nat, le: (Wide, Wide) -> bool)
    requires PairsOk(pairs, le) && 2 * j < |pairs|
    ensures KeyOk(pairs[2 * j])
  {
    assert KeyOk(KeyAt(pairs, j));
  }

  /** No earlier pair spells the same. */
  lemma SpelledOnce(pairs: seq<Wide>, n: nat, le: (Wide, Wide) -> bool, text: Wide)
    requires TotalPreorder(le) && PairsOk(pairs, le) && 2 * n < |pairs| && Spells(text, pairs, n)
    ensures !SpellsSome(text, pairs, n)
  {
    KeyIsOk(pairs, n, le);
    SpelledName(text, pairs, n);
    forall j | 0 <= j < n ensures !Spells(text, pairs, j) {
      KeysDiffer(pairs, j, n, le);
      KeyIsOk(pairs, j, le);
      if Spells(text, pairs, j) {
        SpelledName(text, pairs, j);
        assert false;
      }
    }
  }

  lemma KeysDiffer(pairs: seq<Wide>, j: nat, n: nat, le: (Wide, Wide) -> bool)
    requires TotalPreorder(le) && PairsOk(pairs, le) && j < n && 2 * n < |pairs|
    ensures pairs[2 * j] != pairs[2 * n]
  {
    assert !Same(le, KeyAt(pairs, j), KeyAt(pairs, n));
    assert le(pairs[2 * n], pairs[2 * n]);
  }

  /** What a pair spells is named by its key. */
  lemma SpelledIsNamed(pairs: seq<Wide>, le: (Wide, Wide) -> bool, text: Wide)
    requires TotalPreorder(le) && PairsOk(pairs, le) && SpellsSome(text, pairs, |pairs| / 2)
    ensures NamesKey(text, pairs, le)
  {
    var j :| 0 <= j < |pairs| / 2 && Spells(text, pairs, j);
    assert KeyOk(KeyAt(pairs, j));
    SpelledName(text, pairs, j);
    assert le(pairs[2 * j], pairs[2 * j]);
  }

  /** Every wanted entry knows where its name ends. */
  lemma WantedNames(inherited: seq<Wide>, pairs: seq<Wide>, le: (Wide, Wide) -> bool, x: Entry)
    requires PairsOk(pairs, le) && x in Wanted(inherited, pairs, le)
    ensures x.nameLen == NameLen(x.text)
  {
    hide Named, NameLen;
    var kept, over := Kept(inherited, pairs, le), Overrides(pairs, |pairs| / 2);
    if x in kept {
      KeptIs(inherited, pairs, le, x);
    } else {
      OverridesAre(pairs, |pairs| / 2);
      var j :| 0 <= j < |over| && over[j] == x;
      assert KeyOk(KeyAt(pairs, j));
      OverrideSpells(pairs, j);
      SpelledName(x.text, pairs, j);
    }
  }

  /** What a child reads from the block, string for string. */
  lemma ChildReads(inherited: seq<Wide>, pairs: seq<Wide>, le: (Wide, Wide) -> bool)
    requires TotalPreorder(le) && PairsOk(pairs, le) && EntriesOk(inherited)
    ensures Reads(ReadBack(Block(StableSort(Wanted(inherited, pairs, le), le))), inherited, pairs, le)
  {
    hide Block, StableSort, Wanted, OfName, NamesKey, SpellsSome, PairsOk, NameLen, NotAfter, Spells;
    var w, s := Wanted(inherited, pairs, le), StableSort(Wanted(inherited, pairs, le), le);
    EnvironmentReadsBack(inherited, pairs, le);
    SortTexts(w, le);
    Halves(pairs, le);
    forall text ensures multiset(Texts(s))[text] == HowOften(text, inherited, pairs, le) {
      WantedCount(inherited, pairs, le, text);
    }
    TextsInOrder(inherited, pairs, le, s);
  }

  lemma Halves(pairs: seq<Wide>, le: (Wide, Wide) -> bool)
    requires PairsOk(pairs, le)
    ensures |pairs| % 2 == 0
  {
  }

  lemma WantedCount(inherited: seq<Wide>, pairs: seq<Wide>, le: (Wide, Wide) -> bool, text: Wide)
    requires TotalPreorder(le) && PairsOk(pairs, le)
    ensures |pairs| % 2 == 0
    ensures multiset(Texts(Wanted(inherited, pairs, le)))[text] == HowOften(text, inherited, pairs, le)
  {
    hide Kept, Overrides, NamesKey, SpellsSome, TotalPreorder, NameLen;
    var kept, over := Kept(inherited, pairs, le), Overrides(pairs, |pairs| / 2);
    assert Texts(kept + over) == Texts(kept) + Texts(over);
    KeptCount(inherited, pairs, le, text);
    OverrideCount(pairs, |pairs| / 2, le, text);
    if SpellsSome(text, pairs, |pairs| / 2) { SpelledIsNamed(pairs, le, text); }
  }

  lemma TextsInOrder(inherited: seq<Wide>, pairs: seq<Wide>, le: (Wide, Wide) -> bool, s: seq<Entry>)
    requires PairsOk(pairs, le) && multiset(s) == multiset(Wanted(inherited, pairs, le)) && NameSorted(s, le)
    ensures forall i, j :: 0 <= i < j < |s| ==>
      le(Texts(s)[i][..NameLen(Texts(s)[i])], Texts(s)[j][..NameLen(Texts(s)[j])])
  {
    hide PairsOk, Wanted, NameLen;
    forall i | 0 <= i < |s| ensures s[i].nameLen == NameLen(s[i].text) {
      assert s[i] in multiset(s);
      WantedNames(inherited, pairs, le, s[i]);
    }
    forall i, j | 0 <= i < j < |s|
      ensures le(Texts(s)[i][..NameLen(Texts(s)[i])], Texts(s)[j][..NameLen(Texts(s)[j])])
    {
      assert NotAfter(le, s[i], s[j]);
    }
  }

  lemma BlockCloses(xs: seq<Entry>)
    ensures |Block(xs)| >= 2 && Block(xs)[|Block(xs)| - 2..] == [NUL, NUL]
  {
    if xs != [] { BodyCloses(xs); }
  }

  lemma {:induction false} BodyCloses(xs: seq<Entry>)
    requires xs != []
    ensures Body(xs) != [] && Body(xs)[|Body(xs)| - 1] == NUL
  {
    if |xs| > 1 { BodyCloses(xs[1..]); }
  }

  lemma {:induction false} BodyHolds(xs: seq<Entry>, i: nat)
    requires i < |xs|
    ensures |xs[i].text| + 1 <= |Body(xs)|
  {
    if i > 0 { BodyHolds(xs[1..], i - 1); }
  }

  lemma SeqHolds(a: seq<Entry>, b: seq<Entry>, j: nat)
    requires j < |b|
    ensures b[j] in multiset(a + b)
  {
    assert (a + b)[|a| + j] == b[j];
  }

  /** An override too long for the buffer makes the block too long. */
  lemma LongOverride(inherited: seq<Wide>, pairs: seq<Wide>, le: (Wide, Wide) -> bool, j: nat)
    requires TotalPreorder(le) && PairsOk(pairs, le) && EntriesOk(inherited) && j < |pairs| / 2
    ensures |Override(KeyAt(pairs, j), ValueAt(pairs, j)).text| + 1
         <= |Block(StableSort(Wanted(inherited, pairs, le), le))|
  {
    hide StableSort, Kept, Overrides, OfName, NameSorted, Named, PairsOk, AllNamed, WellNamed, NoNulIn;
    var kept, over := Kept(inherited, pairs, le), Overrides(pairs, |pairs| / 2);
    WantedAreEntries(inherited, pairs, le);
    StableSortSorts(Wanted(inherited, pairs, le), le);
    OverridesAre(pairs, |pairs| / 2);
    var s := StableSort(Wanted(inherited, pairs, le), le);
    SeqHolds(kept, over, j);
    assert over[j] in multiset(s);
    var i :| 0 <= i < |s| && s[i] == over[j];
    BodyHolds(s, i);
  }

  /** build_env_block. */
  method BuildEnvBlock(pairs: seq<Wide>, inherited: Option<seq<Wide>>, buf: array<Unit>,
                       le: (Wide, Wide) -> bool, f: Faults)
    returns (r: Built)
    requires inherited.Some? ==> EntriesOk(inherited.value)
    requires TotalPreorder(le)
    modifies buf
    ensures r.Built? ==>
      && inherited.Some? && PairsOk(pairs, le) && r.len <= buf.Length
      && buf[..r.len] == Block(StableSort(Wanted(inherited.value, pairs, le), le))
      && Reads(ReadBack(buf[..r.len]), inherited.value, pairs, le)
    ensures Reliable(f) && inherited.Some? && Short(inherited.value, pairs) ==>
      (r.Built? <==> PairsOk(pairs, le) && |Block(StableSort(Wanted(inherited.value, pairs, le), le))| <= buf.Length)
  {
    hide Block, StableSort, Kept, Overrides, TotalPreorder, Reliable, EntriesOk, KeyOk, Reads, ReadBack;
    if |pairs| % 2 != 0 { return Refused(NotPairs); }
    if |pairs| / 2 > INT_MAX { return Refused(TooLarge); }
    ReliableAllocs(f);
    if !f.alloc(0) || !f.alloc(1) { return Refused(OutOfMemory); }
    var bad := CheckKeys(pairs, le, f);
    if bad.Some? { return Refused(bad.value); }
    if inherited.None? { return Refused(CannotRead); }
    var inh := inherited.value;
    if !f.alloc(2) { return Refused(OutOfMemory); }
    var items := new Entry[|inh| + |pairs| / 2](_ => Entry([], 0));
    var ok, n := Collect(inh, pairs, items, le, f);
    if !ok { return Refused(CannotCompare); }
    bad, n := AddOverrides(pairs, items, n, buf.Length, f);
    if bad.Some? {
      if Reliable(f) && PairsOk(pairs, le) {
        var j :| 0 <= j < |pairs| / 2 && Unusable(KeyAt(pairs, j), ValueAt(pairs, j), buf.Length);
        LongOverride(inh, pairs, le, j);
      }
      return Refused(bad.value);
    }
    WantedAreEntries(inh, pairs, le);
    ok := SortItems(items, n, le, f);
    if !ok { return Refused(CannotCompare); }
    var pos;
    ok, pos := Emit(items[..n], buf);
    if ok { ChildReads(inh, pairs, le); }
    r := if ok then Built(pos) else Refused(TooLarge);
  }

  lemma ReliableAllocs(f: Faults)
    ensures Reliable(f) ==> f.alloc(0) && f.alloc(1) && f.alloc(2)
  {
  }
}
