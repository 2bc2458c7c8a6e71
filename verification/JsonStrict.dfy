/** Strict typed decoding: the duplicate-member test, the strict walk, and why it
    makes path lookup in the document agree with lookup in the unwrapped value. */
module JsonStrict {
  import opened TclValues
  import opened JsonEmit
  import opened JsonReader
  import opened Memory
  import opened Sorting

  function Keys(ms: seq<Member>): seq<string> {
    seq(|ms|, i requires 0 <= i < |ms| => ms[i].key)
  }

  predicate Distinct(ks: seq<string>) {
    forall i, j :: 0 <= i < j < |ks| ==> ks[i] != ks[j]
  }

  // ---- one object -----------------------------------------------------------

  const PAIRWISE: nat := 16

  datatype Verdict = Accept | Duplicate(key: string) | Deep | NoMemory

  /** JsonKeyCompare, as "does not come after": by length, then by content. */
  predicate KeyLe(x: string, y: string) {
    |x| < |y| || (|x| == |y| && LexLe(x, y))
  }

  lemma KeyOrder()
    ensures TotalPreorder(KeyLe) && AntiSymmetric(KeyLe)
  {
    forall x, y ensures KeyLe(x, y) || KeyLe(y, x) { LexTotal(x, y); }
    forall x, y | KeyLe(x, y) && KeyLe(y, x) ensures x == y { LexAntiSymmetric(x, y); }
    forall x, y, z | KeyLe(x, y) && KeyLe(y, z) ensures KeyLe(x, z) {
      if |x| == |y| == |z| { LexTransitive(x, y, z); }
    }
  }

  /** In sorted order equal keys are neighbours. */
  lemma EqualKeysMeet(ks: seq<string>, i: int, j: int)
    requires SortedBy(ks, KeyLe) && 0 <= i < j < |ks| && ks[i] == ks[j]
    ensures ks[i] == ks[i + 1]
  {
    KeyOrder();
    if i + 1 < j { assert KeyLe(ks[i], ks[i + 1]) && KeyLe(ks[i + 1], ks[j]); }
  }

  lemma RepeatSurvivesRearranging(xs: seq<string>, ys: seq<string>, i: int, j: int)
    requires Rearranges(ys, xs) && 0 <= i < j < |xs| && xs[i] == xs[j]
    ensures exists a, b :: 0 <= a < b < |ys| && ys[a] == ys[b] == xs[i]
  {
    var k := xs[i];
    assert xs == xs[..j] + [xs[j]] + xs[j + 1..];
    assert k in multiset(xs[..j]) by { assert xs[..j][i] == k; }
    assert multiset(xs) == multiset(xs[..j]) + multiset{k} + multiset(xs[j + 1..]);
    assert multiset(ys)[k] >= 2;
    var a :| 0 <= a < |ys| && ys[a] == k;
    assert ys == ys[..a] + [k] + ys[a + 1..];
    assert multiset(ys) == multiset(ys[..a]) + multiset{k} + multiset(ys[a + 1..]);
    if k in ys[a + 1..] {
      var b :| 0 <= b < |ys[a + 1..]| && ys[a + 1..][b] == k;
      assert ys[a + 1 + b] == k;
    } else {
      var b :| 0 <= b < |ys[..a]| && ys[..a][b] == k;
      assert ys[b] == k;
    }
  }

  ghost predicate RepeatsKey(ks: seq<string>, key: string) {
    exists i, j :: 0 <= i < j < |ks| && ks[i] == ks[j] == key
  }

  /** JsonObjHasDuplicate: pairwise up to 16 members, sort and adjacent scan above.
      its one allocation may fail. */
  method HasDuplicate(ms: seq<Member>, heap: Heap) returns (r: Verdict)
    modifies heap
    ensures r.Accept? ==> Distinct(Keys(ms))
    ensures r.Duplicate? ==> RepeatsKey(Keys(ms), r.key)
    ensures !r.Deep? && (r.NoMemory? <==> |ms| > PAIRWISE && !heap.grants(old(heap.calls)))
  {
    var ks := Keys(ms);
    if |ms| < 2 { return Accept; }
    if |ms| <= PAIRWISE {
      for i := 0 to |ms|
        invariant forall a, b :: 0 <= a < i && a < b < |ks| ==> ks[a] != ks[b]
      {
        for j := i + 1 to |ms|
          invariant forall b :: i < b < j ==> ks[i] != ks[b]
        {
          if |ms[j].key| == |ms[i].key| && ms[j].key == ms[i].key {
            assert ks[i] == ks[j];
            return Duplicate(ms[i].key);
          }
        }
      }
      return Accept;
    }
    var ok := heap.Malloc();
    if !ok { return NoMemory; }
    KeyOrder();
    var sorted := Qsort(ks, KeyLe);
    for i := 1 to |sorted|
      invariant forall a :: 0 < a < i ==> sorted[a - 1] != sorted[a]
    {
      if |sorted[i]| == |sorted[i - 1]| && sorted[i] == sorted[i - 1] {
        RepeatSurvivesRearranging(sorted, ks, i - 1, i);
        return Duplicate(sorted[i]);
      }
    }
    forall i, j | 0 <= i < j < |ks| ensures ks[i] != ks[j] {
      if ks[i] == ks[j] {
        RepeatSurvivesRearranging(ks, sorted, i, j);
        var a, b :| 0 <= a < b < |sorted| && sorted[a] == sorted[b] == ks[i];
        EqualKeysMeet(sorted, a, b);
        assert false;
      }
    }
    return Accept;
  }

  // ---- the whole document ---------------------------------------------------

  function NodeHeight(n: Node): (h: nat)
    ensures h >= 1
    decreases n, 1
  {
    match n
    case Arr(es) => 1 + NodesHeight(es)
    case Obj(ms) => 1 + MembersHeight(ms)
    case _ => 1
  }

  function NodesHeight(es: seq<Node>): nat
    decreases es, 0
  {
    if es == [] then 0 else Max(NodeHeight(es[0]), NodesHeight(es[1..]))
  }

  function MembersHeight(ms: seq<Member>): nat
    decreases ms, 0
  {
    if ms == [] then 0 else Max(NodeHeight(ms[0].val), MembersHeight(ms[1..]))
  }

  /** No object at any level repeats a key. */
  predicate NoRepeats(n: Node)
    decreases n
  {
    match n
    case Arr(es) => forall i :: 0 <= i < |es| ==> NoRepeats(es[i])
    case Obj(ms) => Distinct(Keys(ms)) && forall i :: 0 <= i < |ms| ==> NoRepeats(ms[i].val)
    case _ => true
  }

  /** Some object inside n holds `key` twice. */
  ghost predicate RepeatInside(n: Node, key: string)
    decreases n
  {
    match n
    case Arr(es) => exists i :: 0 <= i < |es| && RepeatInside(es[i], key)
    case Obj(ms) =>
      RepeatsKey(Keys(ms), key) || exists i :: 0 <= i < |ms| && RepeatInside(ms[i].val, key)
    case _ => false
  }

  lemma {:induction false} RepeatRefutesNoRepeats(n: Node, key: string)
    requires RepeatInside(n, key)
    ensures !NoRepeats(n)
    decreases n
  {
    match n
    case Arr(es) =>
      var i :| 0 <= i < |es| && RepeatInside(es[i], key);
      RepeatRefutesNoRepeats(es[i], key);
    case Obj(ms) =>
      if !RepeatsKey(Keys(ms), key) {
        var i :| 0 <= i < |ms| && RepeatInside(ms[i].val, key);
        RepeatRefutesNoRepeats(ms[i].val, key);
      }
    case _ =>
  }

  /** What a verdict of the walk means at this node and depth. */
  ghost predicate Means(r: Verdict, n: Node, depth: nat, heap: Heap) {
    match r
    case Accept => NoRepeats(n) && depth + NodeHeight(n) <= 512
    case Duplicate(key) => RepeatInside(n, key)
    case Deep => depth + NodeHeight(n) > 512
    case NoMemory => Starved(heap)
  }

  /** JsonCheckStrict: exactly one cause on refusal. */
  method CheckStrict(n: Node, depth: nat, heap: Heap) returns (r: Verdict)
    modifies heap
    ensures Means(r, n, depth, heap)
    decreases n
  {
    if depth >= MAX_DEPTH { return Verdict.Deep; }
    match n
    case Arr(es) =>
      for i := 0 to |es|
        invariant forall k :: 0 <= k < i ==> NoRepeats(es[k]) && depth + 1 + NodeHeight(es[k]) <= MAX_DEPTH
      {
        r := CheckStrict(es[i], depth + 1, heap);
        NodesHeightCovers(es, i);
        if r != Accept { return; }
      }
      NodesHeightBound(es, depth);
      r := Accept;
    case Obj(ms) =>
      r := HasDuplicate(ms, heap);
      if r != Accept { return; }
      for i := 0 to |ms|
        invariant forall k :: 0 <= k < i ==> NoRepeats(ms[k].val) && depth + 1 + NodeHeight(ms[k].val) <= MAX_DEPTH
      {
        r := CheckStrict(ms[i].val, depth + 1, heap);
        MembersHeightCovers(ms, i);
        if r != Accept { return; }
      }
      MembersHeightBound(ms, depth);
      r := Accept;
    case _ => r := Accept;
  }

  lemma {:induction false} NodesHeightCovers(es: seq<Node>, i: nat)
    requires i < |es|
    ensures NodeHeight(es[i]) <= NodesHeight(es)
  {
    if i > 0 { NodesHeightCovers(es[1..], i - 1); }
  }

  lemma {:induction false} NodesHeightBound(es: seq<Node>, depth: nat)
    requires depth < MAX_DEPTH
    requires forall k :: 0 <= k < |es| ==> depth + 1 + NodeHeight(es[k]) <= MAX_DEPTH
    ensures depth + 1 + NodesHeight(es) <= MAX_DEPTH
  {
    if es != [] { NodesHeightBound(es[1..], depth); }
  }

  lemma {:induction false} MembersHeightCovers(ms: seq<Member>, i: nat)
    requires i < |ms|
    ensures NodeHeight(ms[i].val) <= MembersHeight(ms)
  {
    if i > 0 { MembersHeightCovers(ms[1..], i - 1); }
  }

  lemma {:induction false} MembersHeightBound(ms: seq<Member>, depth: nat)
    requires depth < MAX_DEPTH
    requires forall k :: 0 <= k < |ms| ==> depth + 1 + NodeHeight(ms[k].val) <= MAX_DEPTH
    ensures depth + 1 + MembersHeight(ms) <= MAX_DEPTH
  {
    if ms != [] { MembersHeightBound(ms[1..], depth); }
  }

  /** With memory available the walk decides strictness. */
  method DecodeStrict(n: Node, heap: Heap) returns (r: Verdict)
    modifies heap
    ensures !Starved(heap) ==>
              (r.Accept? <==> NoRepeats(n) && NodeHeight(n) <= 512)
    ensures Means(r, n, 0, heap)
  {
    r := CheckStrict(n, 0, heap);
    if r.Duplicate? { RepeatRefutesNoRepeats(n, r.key); }
  }

  // ---- unwrapping -----------------------------------------------------------

  /** The Tcl value of a node within the cap, whatever depth it sits at. */
  ghost function TclOf(n: Node): Value
    decreases n
  {
    match n
    case Null => Scalar("")
    case Bool(b) => Scalar(if b then "1" else "0")
    case Raw(t) => Scalar(t)
    case Str(t) => Scalar(t)
    case Arr(es) => List(TclNodes(es))
    case Obj(ms) => Dict(TclPairs(ms))
  }

  ghost function TclNodes(es: seq<Node>): seq<Value>
    decreases es
  {
    seq(|es|, i requires 0 <= i < |es| => TclOf(es[i]))
  }

  /** One pair per member, for objects without a repeated key. */
  ghost function TclPairs(ms: seq<Member>): seq<Pair>
    decreases ms
  {
    seq(|ms|, i requires 0 <= i < |ms| => Pair(ms[i].key, TclOf(ms[i].val)))
  }

  /** yy_to_tcl succeeds exactly within the depth cap, and there keeps every member. */
  lemma {:induction false} YyWithinCap(n: Node, depth: nat)
    requires NoRepeats(n)
    ensures YyToTcl(n, depth) == if depth + NodeHeight(n) <= 512 then Some(TclOf(n)) else None
    decreases n, 1
  {
    match n
    case Arr(es) =>
      YyListWithinCap(es, depth + 1);
    case Obj(ms) =>
      assert [] + TclPairs(ms) == TclPairs(ms);
      assert DistinctKeys(TclPairs(ms)) by {
        forall i, j | 0 <= i < j < |ms| ensures TclPairs(ms)[i].key != TclPairs(ms)[j].key {
          assert Keys(ms)[i] != Keys(ms)[j];
        }
      }
      YyDictWithinCap(ms, [], depth + 1);
    case _ =>
  }

  lemma {:induction false} YyListWithinCap(es: seq<Node>, depth: nat)
    requires NoRepeats(Arr(es))
    ensures YyList(es, depth) ==
            if es == [] || depth + NodesHeight(es) <= MAX_DEPTH
            then Some(TclNodes(es)) else None
    decreases es, 0
  {
    if es == [] {
      assert TclNodes(es) == [];
    } else {
      YyWithinCap(es[0], depth);
      YyListWithinCap(es[1..], depth);
      assert TclNodes(es) == [TclOf(es[0])] + TclNodes(es[1..]);
      assert |es| == 1 ==> NodesHeight(es[1..]) == 0;
    }
  }

  lemma {:induction false} YyDictWithinCap(ms: seq<Member>, sofar: seq<Pair>, depth: nat)
    requires forall i :: 0 <= i < |ms| ==> NoRepeats(ms[i].val)
    requires DistinctKeys(sofar + TclPairs(ms))
    ensures YyDict(ms, sofar, depth) ==
            if ms == [] || depth + MembersHeight(ms) <= MAX_DEPTH
            then Some(sofar + TclPairs(ms)) else None
    decreases ms, 0
  {
    if ms == [] {
      assert sofar + TclPairs(ms) == sofar;
    } else {
      YyWithinCap(ms[0].val, depth);
      var p := Pair(ms[0].key, TclOf(ms[0].val));
      assert sofar + [p] + TclPairs(ms[1..]) == sofar + TclPairs(ms);
      assert Find(sofar, ms[0].key) == -1 by {
        forall j | 0 <= j < |sofar| ensures sofar[j].key != ms[0].key {
          assert (sofar + TclPairs(ms))[j] == sofar[j] && (sofar + TclPairs(ms))[|sofar|] == p;
        }
      }
      YyDictWithinCap(ms[1..], sofar + [p], depth);
    }
  }

  // ---- typed paths ----------------------------------------------------------

  /** A path word: its text, and the integer Tcl reads it as, when it reads as one. */
  datatype Step = Step(text: string, index: Option<int>)

  datatype Looked<T> = Found(at: T) | Absent | NotContainer

  function FirstMember(ms: seq<Member>, key: string): Looked<Node> {
    if ms == [] then Absent
    else if ms[0].key == key then Found(ms[0].val)
    else FirstMember(ms[1..], key)
  }

  /** JsonStep, both halves: the first member with the key, or the element at the index. */
  function StepIn(n: Node, step: Step): Looked<Node> {
    match n
    case Obj(ms) => FirstMember(ms, step.text)
    case Arr(es) =>
      if step.index.None? || step.index.value < 0 then NotContainer
      else if step.index.value < |es| then Found(es[step.index.value])
      else Absent
    case _ => NotContainer
  }

  /** The loop of `json get` over its path words. */
  method GetPath(n: Node, path: seq<Step>) returns (r: Looked<Node>)
    ensures r == PathIn(n, path)
  {
    var node := n;
    for i := 0 to |path|
      invariant PathIn(n, path) == PathIn(node, path[i..])
    {
      assert path[i..][0] == path[i] && path[i..][1..] == path[i + 1..];
      var at := StepIn(node, path[i]);
      match at
      case Found(next) => node := next;
      case _ => return at;
    }
    return Found(node);
  }

  function PathIn(n: Node, path: seq<Step>): Looked<Node>
    decreases path
  {
    if path == [] then Found(n)
    else
      var at := StepIn(n, path[0]);
      if at.Found? then PathIn(at.at, path[1..]) else at
  }

  /** The same step on a plain Tcl value: dict get, or lindex within bounds. */
  function TclStep(v: Value, step: Step): Looked<Value> {
    match v
    case Dict(ps) =>
      var g := Get(ps, step.text);
      if g.None? then Absent else Found(g.value)
    case List(es) =>
      if step.index.None? || step.index.value < 0 then NotContainer
      else if step.index.value < |es| then Found(es[step.index.value])
      else Absent
    case _ => NotContainer
  }

  function TclPath(v: Value, path: seq<Step>): Looked<Value>
    decreases path
  {
    if path == [] then Found(v)
    else
      var at := TclStep(v, path[0]);
      if at.Found? then TclPath(at.at, path[1..]) else at
  }

  function Unwrapped(l: Looked<Node>): Looked<Option<Value>> {
    match l
    case Found(n) => Found(YyToTcl(n, 0))
    case Absent => Absent
    case NotContainer => NotContainer
  }

  function Present(l: Looked<Value>): Looked<Option<Value>> {
    match l
    case Found(v) => Found(Some(v))
    case Absent => Absent
    case NotContainer => NotContainer
  }

  lemma {:induction false} FirstIsOnly(ms: seq<Member>, key: string)
    ensures FirstMember(ms, key) ==
            var i := Find(TclPairs(ms), key);
            if i < 0 then Absent else Found(ms[i].val)
    decreases ms
  {
    if ms != [] {
      FirstIsOnly(ms[1..], key);
      assert TclPairs(ms)[1..] == TclPairs(ms[1..]);
    }
  }

  /** In a document the strict walk accepts, `unwrap` after `get` is lookup in the
      unwrapped value, for every path, hit or miss. */
  lemma {:induction false} GetThenUnwrapIsLookup(n: Node, path: seq<Step>)
    requires NoRepeats(n) && NodeHeight(n) <= MAX_DEPTH
    ensures YyToTcl(n, 0).Some?
    ensures Unwrapped(PathIn(n, path)) == Present(TclPath(YyToTcl(n, 0).value, path))
    decreases path
  {
    YyWithinCap(n, 0);
    if path != [] {
      var s := path[0];
      match n
      case Obj(ms) =>
        FirstIsOnly(ms, s.text);
        var i := Find(TclPairs(ms), s.text);
        if i >= 0 {
          MembersHeightCovers(ms, i);
          GetThenUnwrapIsLookup(ms[i].val, path[1..]);
          YyWithinCap(ms[i].val, 0);
        }
      case Arr(es) =>
        if s.index.Some? && 0 <= s.index.value < |es| {
          NodesHeightCovers(es, s.index.value);
          GetThenUnwrapIsLookup(es[s.index.value], path[1..]);
          YyWithinCap(es[s.index.value], 0);
        }
      case _ =>
    }
  }
}
