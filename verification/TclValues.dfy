/** Tcl values as the plain JSON path sees them: each value's own representation
    says whether it is a dict, a list, a typed JSON value or anything else. */
module TclValues {

  datatype Option<+T> = None | Some(value: T)

  datatype Pair = Pair(key: string, val: Value)

  datatype Value =
    | Scalar(text: string)
    | List(elems: seq<Value>)
    | Dict(pairs: seq<Pair>)
    | Typed(json: string)

  function Find(ps: seq<Pair>, key: string): (i: int)
    ensures -1 <= i < |ps|
    ensures 0 <= i ==> ps[i].key == key && forall j :: 0 <= j < i ==> ps[j].key != key
    ensures i == -1 ==> forall j :: 0 <= j < |ps| ==> ps[j].key != key
  {
    if ps == [] then -1
    else if ps[0].key == key then 0
    else
      var i := Find(ps[1..], key);
      if i < 0 then -1 else i + 1
  }

  /** Tcl_DictObjPut: a new key goes last, a known key keeps its place. */
  function Put(ps: seq<Pair>, key: string, val: Value): seq<Pair> {
    var i := Find(ps, key);
    if i < 0 then ps + [Pair(key, val)] else ps[i := Pair(key, val)]
  }

  function Get(ps: seq<Pair>, key: string): Option<Value> {
    var i := Find(ps, key);
    if i < 0 then None else Some(ps[i].val)
  }

  predicate DistinctKeys(ps: seq<Pair>) {
    forall i, j :: 0 <= i < j < |ps| ==> ps[i].key != ps[j].key
  }

  lemma PutKeepsKeysDistinct(ps: seq<Pair>, key: string, val: Value)
    requires DistinctKeys(ps)
    ensures DistinctKeys(Put(ps, key, val))
  {
  }

  lemma GetAfterPut(ps: seq<Pair>, key: string, val: Value, other: string)
    requires DistinctKeys(ps)
    ensures Get(Put(ps, key, val), other) == if other == key then Some(val) else Get(ps, other)
  {
    PutKeepsKeysDistinct(ps, key, val);
    var qs := Put(ps, key, val);
    if other == key {
      assert qs[if Find(ps, key) < 0 then |ps| else Find(ps, key)].key == key;
    } else if Find(ps, other) >= 0 {
      assert qs[Find(ps, other)].key == other;
    }
  }

  /** Dicts inside the value have no repeated key, as every Tcl dict. */
  predicate WellFormed(v: Value)
    decreases v
  {
    match v
    case Scalar(_) => true
    case Typed(_) => true
    case List(es) => forall i :: 0 <= i < |es| ==> WellFormed(es[i])
    case Dict(ps) => DistinctKeys(ps) && forall i :: 0 <= i < |ps| ==> WellFormed(ps[i].val)
  }

  /** No typed JSON value anywhere inside. */
  predicate Plain(v: Value)
    decreases v
  {
    match v
    case Scalar(_) => true
    case Typed(_) => false
    case List(es) => forall i :: 0 <= i < |es| ==> Plain(es[i])
    case Dict(ps) => forall i :: 0 <= i < |ps| ==> Plain(ps[i].val)
  }

  predicate NoNul(s: string) {
    forall i :: 0 <= i < |s| ==> s[i] != '\0'
  }

  /** No U+0000 in any key or scalar. */
  predicate NulFree(v: Value)
    decreases v
  {
    match v
    case Scalar(t) => NoNul(t)
    case Typed(t) => NoNul(t)
    case List(es) => forall i :: 0 <= i < |es| ==> NulFree(es[i])
    case Dict(ps) => forall i :: 0 <= i < |ps| ==> NoNul(ps[i].key) && NulFree(ps[i].val)
  }

  function Max(a: nat, b: nat): nat {
    if a < b then b else a
  }

  /** Levels of nesting; a scalar is one level. */
  function Height(v: Value): (h: nat)
    ensures h >= 1
    decreases v, 1
  {
    match v
    case Scalar(_) => 1
    case Typed(_) => 1
    case List(es) => 1 + ListHeight(es)
    case Dict(ps) => 1 + PairsHeight(ps)
  }

  function ListHeight(es: seq<Value>): nat
    decreases es, 0
  {
    if es == [] then 0 else Max(Height(es[0]), ListHeight(es[1..]))
  }

  function PairsHeight(ps: seq<Pair>): nat
    decreases ps, 0
  {
    if ps == [] then 0 else Max(Height(ps[0].val), PairsHeight(ps[1..]))
  }
}
