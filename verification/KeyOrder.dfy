/** Canonical forms of values whose dicts list their keys in any order: equality of dicts ignores that order, the
    numbering of ids does not. */
module KeyOrder {
  import opened Wrappers
  import opened Json
  import opened FirstAppearance
  import opened IdCanonical

  // ---------- equality, string by string ----------

  /** Wherever two pairs of maps agree on a string of one side and a string of the other, so does a third pair. */
  ghost predicate Entails(a: seq<string>, b: seq<string>, f1: string -> string, g1: string -> string,
                          f2: string -> string, g2: string -> string, f: string -> string, g: string -> string)
  {
    forall s, t :: s in a && t in b && f1(s) == g1(t) && f2(s) == g2(t) ==> f(s) == g(t)
  }

  lemma EntailsInside(xs: seq<Json>, i: nat, ys: seq<Json>, m: nat, f1: string -> string, g1: string -> string,
                      f2: string -> string, g2: string -> string, f: string -> string, g: string -> string)
    requires i < |xs| && m < |ys| && Entails(StrsAll(xs), StrsAll(ys), f1, g1, f2, g2, f, g)
    ensures Entails(Strs(xs[i]), Strs(ys[m]), f1, g1, f2, g2, f, g)
  {
    forall s | s in Strs(xs[i]) { StrsInside(xs, i, s); }
    forall t | t in Strs(ys[m]) { StrsInside(ys, m, t); }
  }

  /** The entry of y that x's entry under a key equals: with no key twice, it is the same one under any maps. */
  lemma SharedEntry(y: Json, key: string, value1: Json, value2: Json, g1: string -> string, g2: string -> string)
    returns (m: nat)
    requires y.Obj? && WellFormed(y) && HasEntry(MapStr(y, g1), key, value1) && HasEntry(MapStr(y, g2), key, value2)
    ensures m < |y.keys| == |y.values| && y.keys[m] == key
    ensures PyEq(value1, MapStr(y.values[m], g1)) && PyEq(value2, MapStr(y.values[m], g2))
  {
    var y1, y2 := MapStr(y, g1), MapStr(y, g2);
    var m1 :| 0 <= m1 < |y1.keys| && m1 < |y1.values| && y1.keys[m1] == key && PyEq(value1, y1.values[m1]);
    var m2 :| 0 <= m2 < |y2.keys| && m2 < |y2.values| && y2.keys[m2] == key && PyEq(value2, y2.values[m2]);
    m := m1;
    assert m1 == m2;
  }

  /** Values equal under two pairs of maps are equal under any pair those entail. */
  lemma {:induction false} EqualityTransfers(x: Json, y: Json, f1: string -> string, g1: string -> string,
                                             f2: string -> string, g2: string -> string,
                                             f: string -> string, g: string -> string)
    requires WellFormed(y) && Entails(Strs(x), Strs(y), f1, g1, f2, g2, f, g)
    requires PyEq(MapStr(x, f1), MapStr(y, g1)) && PyEq(MapStr(x, f2), MapStr(y, g2))
    ensures PyEq(MapStr(x, f), MapStr(y, g))
    decreases x
  {
    match (x, y)
    case (Obj(xk, xv), Obj(yk, yv)) =>
      forall i | 0 <= i < |xk| && i < |xv|
        ensures HasEntry(MapStr(y, g), xk[i], MapStr(x, f).values[i])
      {
        EntryTransfers(x, y, i, f1, g1, f2, g2, f, g);
      }
    case (Arr(xs), Arr(ys)) =>
      forall i | 0 <= i < |xs|
        ensures PyEq(MapStr(xs[i], f), MapStr(ys[i], g))
      {
        EntailsInside(xs, i, ys, i, f1, g1, f2, g2, f, g);
        assert PyEq(MapStr(x, f1).items[i], MapStr(y, g1).items[i]) && PyEq(MapStr(x, f2).items[i], MapStr(y, g2).items[i]);
        EqualityTransfers(xs[i], ys[i], f1, g1, f2, g2, f, g);
      }
    case (Str(s), Str(t)) =>
      assert s in [s] && t in [t];
    case _ =>
  }

  lemma {:induction false} EntryTransfers(x: Json, y: Json, i: nat, f1: string -> string, g1: string -> string,
                                          f2: string -> string, g2: string -> string,
                                          f: string -> string, g: string -> string)
    requires x.Obj? && y.Obj? && i < |x.keys| && i < |x.values|
    requires WellFormed(y) && Entails(Strs(x), Strs(y), f1, g1, f2, g2, f, g)
    requires PyEq(MapStr(x, f1), MapStr(y, g1)) && PyEq(MapStr(x, f2), MapStr(y, g2))
    ensures HasEntry(MapStr(y, g), x.keys[i], MapStr(x.values[i], f))
    decreases x, 0
  {
    var m := SharedEntry(y, x.keys[i], MapStr(x, f1).values[i], MapStr(x, f2).values[i], g1, g2);
    EntailsInside(x.values, i, y.values, m, f1, g1, f2, g2, f, g);
    EqualityTransfers(x.values[i], y.values[m], f1, g1, f2, g2, f, g);
    var z := MapStr(y, g);
    assert z.keys[m] == x.keys[i] && PyEq(MapStr(x.values[i], f), z.values[m]);
  }

  lemma {:induction false} StrsFrom(items: seq<Json>, s: string) returns (i: nat)
    requires s in StrsAll(items)
    ensures i < |items| && s in Strs(items[i])
    decreases |items|
  {
    var n := |items| - 1;
    if s in Strs(items[n]) {
      i := n;
    } else {
      i := StrsFrom(items[..n], s);
    }
  }

  /** Each string of x stands opposite one of y on which both pairs of maps agree. */
  lemma {:induction false} Opposite(x: Json, y: Json, f1: string -> string, g1: string -> string,
                                    f2: string -> string, g2: string -> string, s: string) returns (t: string)
    requires WellFormed(x) && WellFormed(y) && s in Strs(x)
    requires PyEq(MapStr(x, f1), MapStr(y, g1)) && PyEq(MapStr(x, f2), MapStr(y, g2))
    ensures t in Strs(y) && f1(s) == g1(t) && f2(s) == g2(t)
    decreases x
  {
    match (x, y)
    case (Obj(xk, xv), Obj(yk, yv)) =>
      var i := StrsFrom(xv, s);
      var x1, x2 := MapStr(x, f1), MapStr(x, f2);
      assert HasEntry(MapStr(y, g1), x1.keys[i], x1.values[i]) && HasEntry(MapStr(y, g2), x2.keys[i], x2.values[i]);
      var m := SharedEntry(y, xk[i], x1.values[i], x2.values[i], g1, g2);
      t := Opposite(xv[i], yv[m], f1, g1, f2, g2, s);
      StrsInside(yv, m, t);
    case (Arr(xs), Arr(ys)) =>
      var i := StrsFrom(xs, s);
      assert PyEq(MapStr(x, f1).items[i], MapStr(y, g1).items[i]) && PyEq(MapStr(x, f2).items[i], MapStr(y, g2).items[i]);
      t := Opposite(xs[i], ys[i], f1, g1, f2, g2, s);
      StrsInside(ys, i, t);
    case (Str(_), Str(other)) =>
      t := other;
  }

  // ---------- equal values ----------

  /** The id has the same number in both lists. */
  ghost predicate SameNumber(a: seq<string>, b: seq<string>, s: string, t: string)
    requires s in a && IdPrefix(s).Some? && IdPrefix(t) == IdPrefix(s)
  {
    t in b && Index(IdPrefix, a, s) == Index(IdPrefix, b, t)
  }

  lemma SameNumberSameCanon(a: seq<string>, b: seq<string>, s: string, t: string)
    requires s in a && t in b && IdPrefix(s).Some? && IdPrefix(t) == IdPrefix(s)
    ensures CanonOf(a, s) == CanonOf(b, t) <==> SameNumber(a, b, s, t)
  {
    IdPrefixIsOne(s);
    if CanonOf(a, s) == CanonOf(b, t) {
      PlaceholderInjective(IdPrefix(s).value, Index(IdPrefix, a, s), IdPrefix(t).value, Index(IdPrefix, b, t));
    }
  }

  /** Equal values have equal canonical forms exactly when every id has the same number in both, whatever the
      order of their keys. */
  lemma EqualValuesEqualForms(x: Json, y: Json)
    requires WellFormed(x) && WellFormed(y) && PyEq(x, y)
    ensures PyEq(Canonical(x), Canonical(y)) <==>
            forall s :: s in Strs(x) && IdPrefix(s).Some? ==> SameNumber(Strs(x), Strs(y), s, s)
  {
    var a, b, same := Strs(x), Strs(y), (s: string) => s;
    var f, g := s => CanonOf(a, s), s => CanonOf(b, s);
    MapStrSame(x, same);
    MapStrSame(y, same);
    if PyEq(Canonical(x), Canonical(y)) {
      forall s | s in a && IdPrefix(s).Some?
        ensures SameNumber(a, b, s, s)
      {
        var t := Opposite(x, y, same, same, f, g, s);
        SameNumberSameCanon(a, b, s, s);
      }
    }
    if forall s :: s in a && IdPrefix(s).Some? ==> SameNumber(a, b, s, s) {
      forall s | s in a && s in b
        ensures f(s) == g(s)
      {
        if IdPrefix(s).Some? { SameNumberSameCanon(a, b, s, s); }
      }
      EqualityTransfers(x, y, same, same, same, same, f, g);
    }
  }

  lemma MapStrSame(j: Json, same: string -> string)
    requires forall s :: same(s) == s
    ensures MapStr(j, same) == j
  {
    MapStrIdentity(j);
    MapStrDepends(j, same, s => s);
  }

  // ---------- renamed values ----------

  /** Under f every id of the one list has the number that its new name has in the other. */
  ghost predicate KeepsNumbers(f: map<string, string>, a: seq<string>, b: seq<string>) {
    forall s :: s in a && IdPrefix(s).Some? ==> s in f && IdPrefix(f[s]) == IdPrefix(s) && SameNumber(a, b, s, f[s])
  }

  function Side(s: string): string {
    if IdPrefix(s).Some? then "id" else "other"
  }

  /** The values match but for their strings, with ids opposite ids. */
  ghost predicate IdsOpposite(x: Json, y: Json) {
    PyEq(MapStr(x, Side), MapStr(y, Side))
  }

  lemma CanonDecides(a: seq<string>, b: seq<string>, s: string, t: string)
    requires s in a && t in b && CanonOf(a, s) == CanonOf(b, t) && IdPrefix(s).Some? == IdPrefix(t).Some?
    ensures IdPrefix(s) == IdPrefix(t) && if IdPrefix(s).Some? then SameNumber(a, b, s, t) else s == t
  {
    SameCanonSameName(a, b, s, t);
  }

  /** The id of b that stands for s: the one with the same canonical form. */
  ghost predicate IsPartner(a: seq<string>, b: seq<string>, s: string, t: string) {
    s in a && t in b && IdPrefix(s).Some? && IdPrefix(t) == IdPrefix(s) && SameNumber(a, b, s, t)
  }

  lemma PartnerIsOne(a: seq<string>, b: seq<string>, s: string, s': string, t: string, t': string)
    requires IsPartner(a, b, s, t) && IsPartner(a, b, s', t')
    ensures s == s' <==> t == t'
  {
    if s == s' { IndexIsUnique(IdPrefix, b, t, t'); }
    if t == t' { IndexIsUnique(IdPrefix, a, s, s'); }
  }

  ghost function Partner(a: seq<string>, b: seq<string>, s: string): (t: string)
    requires exists t :: IsPartner(a, b, s, t)
    ensures IsPartner(a, b, s, t)
  {
    var t :| IsPartner(a, b, s, t);
    t
  }

  lemma PartnersRename(a: seq<string>, b: seq<string>) returns (f: map<string, string>)
    requires forall s :: s in a && IdPrefix(s).Some? ==> exists t :: IsPartner(a, b, s, t)
    ensures IsRenaming(f) && Covers(f, a) && KeepsNumbers(f, a, b)
    ensures forall s :: s in f ==> IsPartner(a, b, s, f[s])
  {
    f := map s | s in a && IdPrefix(s).Some? :: Partner(a, b, s);
    forall s, s' | s in f && s' in f && f[s] == f[s']
      ensures s == s'
    {
      PartnerIsOne(a, b, s, s', f[s], f[s']);
    }
  }

  lemma RenamedSameForm(f: map<string, string>, x: Json, y: Json)
    requires WellFormed(x) && WellFormed(y) && RenamesTo(f, x, y) && KeepsNumbers(f, Strs(x), Strs(y))
    ensures PyEq(Canonical(x), Canonical(y)) && IdsOpposite(x, y)
  {
    var a, b, same := Strs(x), Strs(y), (s: string) => s;
    MapStrSame(y, same);
    forall s, t | s in a && t in b && Rename(f)(s) == t
      ensures CanonOf(a, s) == CanonOf(b, t) && Side(s) == Side(t)
    {
      if IdPrefix(s).Some? { SameNumberSameCanon(a, b, s, t); }
    }
    EqualityTransfers(x, y, Rename(f), same, Rename(f), same, s => CanonOf(a, s), s => CanonOf(b, s));
    EqualityTransfers(x, y, Rename(f), same, Rename(f), same, Side, Side);
  }

  lemma SameFormRenamed(x: Json, y: Json) returns (f: map<string, string>)
    requires WellFormed(x) && WellFormed(y) && PyEq(Canonical(x), Canonical(y)) && IdsOpposite(x, y)
    ensures RenamesTo(f, x, y) && KeepsNumbers(f, Strs(x), Strs(y))
  {
    var a, b, same := Strs(x), Strs(y), (s: string) => s;
    var canonA, canonB := s => CanonOf(a, s), s => CanonOf(b, s);
    forall s | s in a && IdPrefix(s).Some?
      ensures exists t :: IsPartner(a, b, s, t)
    {
      var t := Opposite(x, y, canonA, canonB, Side, Side, s);
      CanonDecides(a, b, s, t);
      assert IsPartner(a, b, s, t);
    }
    f := PartnersRename(a, b);
    forall s, t | s in a && t in b && canonA(s) == canonB(t) && Side(s) == Side(t)
      ensures Rename(f)(s) == same(t)
    {
      CanonDecides(a, b, s, t);
      if IdPrefix(s).Some? { PartnerIsOne(a, b, s, s, t, f[s]); }
    }
    EqualityTransfers(x, y, canonA, canonB, Side, Side, Rename(f), same);
    MapStrSame(y, same);
  }

  /** A one-to-one renaming of ids within their prefixes that also keeps their numbers turns one value into the
      other exactly when the canonical forms are equal and ids stand opposite ids, whatever the order of keys. */
  lemma CanonicalEqualIffNumbered(x: Json, y: Json)
    requires WellFormed(x) && WellFormed(y)
    ensures (exists f :: RenamesTo(f, x, y) && KeepsNumbers(f, Strs(x), Strs(y))) <==>
            PyEq(Canonical(x), Canonical(y)) && IdsOpposite(x, y)
  {
    if f :| RenamesTo(f, x, y) && KeepsNumbers(f, Strs(x), Strs(y)) {
      RenamedSameForm(f, x, y);
    }
    if PyEq(Canonical(x), Canonical(y)) && IdsOpposite(x, y) {
      var f := SameFormRenamed(x, y);
    }
  }

  /** Without strings of the canonical form, equal forms alone say so. */
  lemma UnreservedEqualIffNumbered(x: Json, y: Json)
    requires WellFormed(x) && WellFormed(y)
    requires forall s :: s in Strs(x) || s in Strs(y) ==> Unreserved(s)
    ensures PyEq(Canonical(x), Canonical(y)) <==> exists f :: RenamesTo(f, x, y) && KeepsNumbers(f, Strs(x), Strs(y))
  {
    var a, b := Strs(x), Strs(y);
    CanonicalEqualIffNumbered(x, y);
    if PyEq(Canonical(x), Canonical(y)) {
      forall s, t | s in a && t in b && CanonOf(a, s) == CanonOf(b, t)
        ensures Side(s) == Side(t)
      {
        IdPrefixIsOne(s);
        IdPrefixIsOne(t);
      }
      EqualityTransfers(x, y, s => CanonOf(a, s), s => CanonOf(b, s), s => CanonOf(a, s), s => CanonOf(b, s), Side, Side);
    }
  }
}
