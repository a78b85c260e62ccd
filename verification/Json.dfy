/** Decoded JSON as the trace tools see it: a dict lists its keys in insertion order, value i under key i. */
module Json {
  import opened Finite

  datatype Json =
    | Obj(keys: seq<string>, values: seq<Json>)
    | Arr(items: seq<Json>)
    | Str(text: string)
    | Int(n: int)
    | Float(num: real)
    | Bool(b: bool)
    | Null

  /** Every dict has one value per key, and no key twice. */
  ghost predicate WellFormed(j: Json) {
    match j
    case Obj(keys, values) =>
      && |keys| == |values|
      && (forall a, b :: 0 <= a < b < |keys| ==> keys[a] != keys[b])
      && forall i :: 0 <= i < |values| ==> WellFormed(values[i])
    case Arr(items) => forall i :: 0 <= i < |items| ==> WellFormed(items[i])
    case _ => true
  }

  /** The strings of a value, keys apart, in reading order. */
  function Strs(j: Json): seq<string> {
    match j
    case Obj(_, values) => StrsAll(values)
    case Arr(items) => StrsAll(items)
    case Str(text) => [text]
    case _ => []
  }

  function StrsAll(js: seq<Json>): seq<string> {
    if js == [] then [] else StrsAll(js[..|js| - 1]) + Strs(js[|js| - 1])
  }

  lemma StrsAllGrow(js: seq<Json>, i: nat)
    requires i < |js|
    ensures StrsAll(js[..i + 1]) == StrsAll(js[..i]) + Strs(js[i])
  {
    assert js[..i + 1][..i] == js[..i];
  }

  /** The value with f applied to every string. */
  function MapStr(j: Json, f: string -> string): Json {
    match j
    case Obj(keys, values) => Obj(keys, seq(|values|, i requires 0 <= i < |values| => MapStr(values[i], f)))
    case Arr(items) => Arr(seq(|items|, i requires 0 <= i < |items| => MapStr(items[i], f)))
    case Str(text) => Str(f(text))
    case _ => j
  }

  lemma {:induction false} StrsInside(js: seq<Json>, i: nat, s: string)
    requires i < |js| && s in Strs(js[i])
    ensures s in StrsAll(js)
    decreases |js|
  {
    if i < |js| - 1 { StrsInside(js[..|js| - 1], i, s); }
  }

  /** Only what f does to the strings of the value matters. */
  lemma {:induction false} MapStrDepends(j: Json, f: string -> string, g: string -> string)
    requires forall s :: s in Strs(j) ==> f(s) == g(s)
    ensures MapStr(j, f) == MapStr(j, g)
  {
    if j.Obj? || j.Arr? {
      var kids := if j.Obj? then j.values else j.items;
      forall i | 0 <= i < |kids|
        ensures MapStr(kids[i], f) == MapStr(kids[i], g)
      {
        forall s | s in Strs(kids[i])
          ensures f(s) == g(s)
        {
          StrsInside(kids, i, s);
        }
        MapStrDepends(kids[i], f, g);
      }
    }
  }

  // ---------- equality ----------

  /** Python compares numbers by value, and a bool as 0 or 1. */
  function Number(j: Json): real
    requires j.Int? || j.Float? || j.Bool?
  {
    match j
    case Int(n) => n as real
    case Float(r) => r
    case Bool(b) => if b then 1.0 else 0.0
  }

  predicate ScalarEq(j: Json, k: Json) {
    if (j.Int? || j.Float? || j.Bool?) && (k.Int? || k.Float? || k.Bool?) then Number(j) == Number(k)
    else j.Null? && k.Null?
  }

  /** Python's ==: dicts are compared as mappings, whatever the order of their keys. */
  ghost predicate PyEq(j: Json, k: Json)
    decreases j, 0
  {
    match (j, k)
    case (Obj(js, jv), Obj(ks, _)) =>
      |js| == |ks| && forall i :: 0 <= i < |js| && i < |jv| ==> HasEntry(k, js[i], jv[i])
    case (Arr(a), Arr(b)) => |a| == |b| && forall i :: 0 <= i < |a| ==> PyEq(a[i], b[i])
    case (Str(s), Str(t)) => s == t
    case _ => ScalarEq(j, k)
  }

  ghost predicate HasEntry(k: Json, key: string, value: Json)
    requires k.Obj?
    decreases value, 1
  {
    exists m :: 0 <= m < |k.keys| && m < |k.values| && k.keys[m] == key && PyEq(value, k.values[m])
  }

  /** Same structure, keys in the same order, equal scalars, and r relates the strings pairwise. */
  predicate Match(j: Json, k: Json, r: (string, string) -> bool) {
    match (j, k)
    case (Obj(js, jv), Obj(ks, kv)) =>
      js == ks && |jv| == |kv| && forall i :: 0 <= i < |jv| ==> Match(jv[i], kv[i], r)
    case (Arr(a), Arr(b)) => |a| == |b| && forall i :: 0 <= i < |a| ==> Match(a[i], b[i], r)
    case (Str(s), Str(t)) => r(s, t)
    case _ => ScalarEq(j, k)
  }

  predicate Equal(s: string, t: string) { s == t }

  predicate Whatever(s: string, t: string) { true }

  /** Wherever two dicts of the values have the same keys, they list them in the same order. */
  ghost predicate SameKeyOrder(j: Json, k: Json) {
    match (j, k)
    case (Obj(js, jv), Obj(ks, kv)) =>
      && ((forall x :: x in js <==> x in ks) ==> js == ks)
      && (js == ks ==> forall i :: 0 <= i < |jv| && i < |kv| ==> SameKeyOrder(jv[i], kv[i]))
    case (Arr(a), Arr(b)) => forall i :: 0 <= i < |a| && i < |b| ==> SameKeyOrder(a[i], b[i])
    case _ => true
  }

  /** With the same key order, Python's == is position by position. */
  lemma {:induction false} PyEqInOrder(j: Json, k: Json)
    requires WellFormed(j) && WellFormed(k) && SameKeyOrder(j, k)
    ensures PyEq(j, k) <==> Match(j, k, Equal)
  {
    match (j, k)
    case (Obj(js, jv), Obj(ks, kv)) =>
      if PyEq(j, k) { SameKeys(j, k); }
      if js == ks {
        forall i | 0 <= i < |jv|
          ensures HasEntry(k, js[i], jv[i]) <==> Match(jv[i], kv[i], Equal)
        {
          PyEqInOrder(jv[i], kv[i]);
          EntryAt(k, i, jv[i]);
        }
      }
    case (Arr(a), Arr(b)) =>
      if |a| == |b| { forall i | 0 <= i < |a| { PyEqInOrder(a[i], b[i]); } }
    case _ =>
  }

  lemma EntryAt(k: Json, i: nat, value: Json)
    requires k.Obj? && WellFormed(k) && i < |k.keys|
    ensures HasEntry(k, k.keys[i], value) <==> PyEq(value, k.values[i])
  {
    if HasEntry(k, k.keys[i], value) {
      var m :| 0 <= m < |k.keys| && m < |k.values| && k.keys[m] == k.keys[i] && PyEq(value, k.values[m]);
      assert m == i;
    }
  }

  lemma SameKeys(j: Json, k: Json)
    requires j.Obj? && k.Obj? && WellFormed(j) && WellFormed(k) && PyEq(j, k)
    ensures forall x :: x in j.keys <==> x in k.keys
  {
    forall x | x in j.keys
      ensures x in k.keys
    {
      var i :| 0 <= i < |j.keys| && j.keys[i] == x;
      assert HasEntry(k, x, j.values[i]);
    }
    SameElements(j.keys, k.keys);
  }

  lemma SameElements(a: seq<string>, b: seq<string>)
    requires |a| == |b| && forall x :: x in a ==> x in b
    requires forall i, j :: 0 <= i < j < |a| ==> a[i] != a[j]
    requires forall i, j :: 0 <= i < j < |b| ==> b[i] != b[j]
    ensures forall x :: x in b ==> x in a
  {
    DistinctSize(a);
    DistinctSize(b);
    SubsetSize(Elements(a), Elements(b));
    forall x | x in b
      ensures x in a
    {
      assert x in Elements(b);
    }
  }

  // ---------- structure and strings apart ----------

  ghost predicate Pairwise(a: seq<string>, b: seq<string>, r: (string, string) -> bool) {
    |a| == |b| && forall i :: 0 <= i < |a| ==> r(a[i], b[i])
  }

  lemma PairwiseConcat(a: seq<string>, b: seq<string>, c: seq<string>, d: seq<string>, r: (string, string) -> bool)
    requires |a| == |b|
    ensures Pairwise(a + c, b + d, r) <==> Pairwise(a, b, r) && Pairwise(c, d, r)
  {
    if Pairwise(a + c, b + d, r) {
      forall i | 0 <= i < |a| ensures r(a[i], b[i]) { assert (a + c)[i] == a[i] && (b + d)[i] == b[i]; }
      forall i | 0 <= i < |c| ensures r(c[i], d[i]) { assert (a + c)[|a| + i] == c[i] && (b + d)[|a| + i] == d[i]; }
    }
  }

  ghost predicate MatchAll(js: seq<Json>, ks: seq<Json>, r: (string, string) -> bool) {
    |js| == |ks| && forall i :: 0 <= i < |js| ==> Match(js[i], ks[i], r)
  }

  /** Two values match exactly when their structures do and their strings do, pairwise. */
  lemma {:induction false} MatchByParts(j: Json, k: Json, r: (string, string) -> bool)
    ensures Match(j, k, r) <==> Match(j, k, Whatever) && Pairwise(Strs(j), Strs(k), r)
    ensures Match(j, k, Whatever) ==> |Strs(j)| == |Strs(k)|
  {
    match (j, k)
    case (Obj(js, jv), Obj(ks, kv)) =>
      if js == ks && |jv| == |kv| { MatchAllByParts(jv, kv, r); }
    case (Arr(a), Arr(b)) =>
      if |a| == |b| { MatchAllByParts(a, b, r); }
    case (Str(s), Str(t)) =>
      assert Pairwise([s], [t], r) <==> r([s][0], [t][0]);
    case _ =>
  }

  lemma {:induction false} MatchAllByParts(js: seq<Json>, ks: seq<Json>, r: (string, string) -> bool)
    requires |js| == |ks|
    ensures MatchAll(js, ks, r) <==> MatchAll(js, ks, Whatever) && Pairwise(StrsAll(js), StrsAll(ks), r)
    ensures MatchAll(js, ks, Whatever) ==> |StrsAll(js)| == |StrsAll(ks)|
  {
    if js != [] {
      var n := |js| - 1;
      MatchAllByParts(js[..n], ks[..n], r);
      MatchByParts(js[n], ks[n], r);
      MatchAllSnoc(js, ks, r);
      MatchAllSnoc(js, ks, Whatever);
      if MatchAll(js[..n], ks[..n], Whatever) {
        PairwiseConcat(StrsAll(js[..n]), StrsAll(ks[..n]), Strs(js[n]), Strs(ks[n]), r);
      }
    }
  }

  lemma MatchAllSnoc(js: seq<Json>, ks: seq<Json>, r: (string, string) -> bool)
    requires |js| == |ks| > 0
    ensures MatchAll(js, ks, r) <==>
            MatchAll(js[..|js| - 1], ks[..|js| - 1], r) && Match(js[|js| - 1], ks[|js| - 1], r)
  {
    if MatchAll(js[..|js| - 1], ks[..|js| - 1], r) && Match(js[|js| - 1], ks[|js| - 1], r) {
      forall i | 0 <= i < |js|
        ensures Match(js[i], ks[i], r)
      {
        if i < |js| - 1 { assert js[..|js| - 1][i] == js[i] && ks[..|js| - 1][i] == ks[i]; }
      }
    }
  }

  function SameUnder(f: string -> string, g: string -> string): (string, string) -> bool {
    (s, t) => f(s) == g(t)
  }

  /** Matching mapped values is matching the values through the maps. */
  lemma {:induction false} MatchMapped(j: Json, k: Json, f: string -> string, g: string -> string)
    ensures Match(MapStr(j, f), MapStr(k, g), Equal) <==> Match(j, k, SameUnder(f, g))
  {
    if (j.Obj? && k.Obj?) || (j.Arr? && k.Arr?) {
      var js, ks := if j.Obj? then j.values else j.items, if k.Obj? then k.values else k.items;
      var js', ks' := MapStr(j, f), MapStr(k, g);
      if |js| == |ks| {
        forall i | 0 <= i < |js|
          ensures Match(MapStr(js[i], f), MapStr(ks[i], g), Equal) <==> Match(js[i], ks[i], SameUnder(f, g))
        {
          MatchMapped(js[i], ks[i], f, g);
        }
        if j.Arr? {
          assert forall i :: 0 <= i < |js| ==> js'.items[i] == MapStr(js[i], f) && ks'.items[i] == MapStr(ks[i], g);
        } else {
          assert forall i :: 0 <= i < |js| ==> js'.values[i] == MapStr(js[i], f) && ks'.values[i] == MapStr(ks[i], g);
        }
      }
    }
  }
}
