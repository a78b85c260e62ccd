/** The trace comparer's id canonicaliser: every id becomes its prefix and a number by first appearance. */
module IdCanonical {
  import opened Wrappers
  import opened Json
  import opened FirstAppearance
  import opened Decimal

  // ---------- what an id is ----------

  predicate AsciiAlnum(c: char) {
    '0' <= c <= '9' || 'A' <= c <= 'Z' || 'a' <= c <= 'z'
  }

  predicate IdTail(s: string) {
    |s| >= 6 && forall i :: 0 <= i < |s| ==> AsciiAlnum(s[i])
  }

  /** The pattern's closing $ also matches before a final line feed. */
  predicate IdOf(prefix: string, s: string) {
    && prefix + "_" <= s
    && var tail := s[|prefix| + 1..];
       IdTail(tail) || (tail != [] && tail[|tail| - 1] == '\n' && IdTail(tail[..|tail| - 1]))
  }

  function IdPrefix(s: string): Option<string> {
    if IdOf("sess", s) then Some("sess")
    else if IdOf("item", s) then Some("item")
    else if IdOf("resp", s) then Some("resp")
    else if IdOf("event", s) then Some("event")
    else if IdOf("msg", s) then Some("msg")
    else None
  }

  const PREFIXES := {"sess", "item", "resp", "event", "msg"}

  lemma IdPrefixIsOne(s: string)
    ensures IdPrefix(s).Some? ==> IdPrefix(s).value in PREFIXES
  {}

  function Placeholder(prefix: string, idx: nat): string {
    "<" + prefix + ":" + Numeral(idx) + ">"
  }

  lemma PlaceholderInjective(p: string, i: nat, q: string, j: nat)
    requires p in PREFIXES && q in PREFIXES && Placeholder(p, i) == Placeholder(q, j)
    ensures p == q && i == j
  {
    hide Numeral;
    assert Placeholder(p, i)[1] == p[0] && Placeholder(q, j)[1] == q[0];
    var k := |p| + 2;
    assert Placeholder(p, i)[k..k + |Numeral(i)|] == Numeral(i);
    assert Placeholder(q, j)[k..k + |Numeral(j)|] == Numeral(j);
    assert |Placeholder(p, i)| == k + |Numeral(i)| + 1 && |Placeholder(q, j)| == k + |Numeral(j)| + 1;
    NumeralInjective(i, j);
  }

  // ---------- the canonical form, outright ----------

  /** What s becomes in a trace whose strings are all: an id gets the number of different ids of its prefix before it. */
  function CanonOf(all: seq<string>, s: string): string {
    NameOf(IdPrefix, Placeholder, all, s)
  }

  function Renumber(j: Json, all: seq<string>): Json {
    MapStr(j, s => CanonOf(all, s))
  }

  function Canonical(j: Json): Json {
    Renumber(j, Strs(j))
  }

  lemma RenumberStays(j: Json, all: seq<string>, more: seq<string>)
    requires forall s :: s in Strs(j) ==> s in all
    ensures Renumber(j, all + more) == Renumber(j, all)
  {
    forall s | s in Strs(j)
      ensures CanonOf(all + more, s) == CanonOf(all, s)
    {
      NameStays(IdPrefix, Placeholder, all, more, s);
    }
    MapStrDepends(j, s => CanonOf(all + more, s), s => CanonOf(all, s));
  }

  // ---------- the canonicaliser ----------

  class IdCanonicaliser {
    var nextIdx: map<string, nat>
    var mapping: map<string, string>

    /** The canonicaliser has walked values whose strings are seen. */
    ghost predicate After(seen: seq<string>)
      reads this
    {
      Numbered(IdPrefix, Placeholder, mapping, seen) && Counted(IdPrefix, nextIdx, seen)
    }

    constructor ()
      ensures After([])
    {
      nextIdx, mapping := map[], map[];
    }

    method Canon(value: string, ghost seen: seq<string>) returns (r: string)
      requires After(seen)
      modifies this
      ensures After(seen + [value]) && r == CanonOf(seen + [value], value)
    {
      if value in mapping {
        SeenAgain(IdPrefix, Placeholder, mapping, nextIdx, seen, value);
        return mapping[value];
      }
      var m := IdPrefix(value);
      if m.None? {
        SeenAgain(IdPrefix, Placeholder, mapping, nextIdx, seen, value);
        return value;
      }
      SeenFirst(IdPrefix, Placeholder, mapping, nextIdx, seen, value);
      var idx := Count(nextIdx, m.value);
      nextIdx := nextIdx[m.value := idx + 1];
      r := Placeholder(m.value, idx);
      mapping := mapping[value := r];
    }

    method Walk(obj: Json, ghost seen: seq<string>) returns (out: Json)
      requires After(seen)
      modifies this
      ensures After(seen + Strs(obj)) && out == Renumber(obj, seen + Strs(obj))
      decreases obj, 0
    {
      match obj
      case Obj(keys, values) =>
        var walked := WalkAll(values, seen);
        out := Obj(keys, walked);
      case Arr(items) =>
        var walked := WalkAll(items, seen);
        out := Arr(walked);
      case Str(text) =>
        var r := Canon(text, seen);
        out := Str(r);
      case _ =>
        assert seen + Strs(obj) == seen;
        out := obj;
    }

    method WalkAll(items: seq<Json>, ghost seen: seq<string>) returns (out: seq<Json>)
      requires After(seen)
      modifies this
      ensures After(seen + StrsAll(items))
      ensures |out| == |items| && forall k :: 0 <= k < |items| ==> out[k] == Renumber(items[k], seen + StrsAll(items))
      decreases items, 1
    {
      hide Renumber, Strs;
      out := [];
      assert seen + [] == seen;
      for i := 0 to |items|
        invariant After(seen + StrsAll(items[..i]))
        invariant |out| == i && forall k :: 0 <= k < i ==> out[k] == Renumber(items[k], seen + StrsAll(items[..i]))
      {
        ghost var sofar := seen + StrsAll(items[..i]);
        var walked := Walk(items[i], sofar);
        WalkedStays(items, i, seen);
        out := out + [walked];
      }
      assert items[..|items|] == items;
    }
  }

  lemma WalkedStays(items: seq<Json>, i: nat, seen: seq<string>)
    requires i < |items|
    ensures seen + StrsAll(items[..i]) + Strs(items[i]) == seen + StrsAll(items[..i + 1])
    ensures forall k :: 0 <= k < i ==>
              Renumber(items[k], seen + StrsAll(items[..i + 1])) == Renumber(items[k], seen + StrsAll(items[..i]))
  {
    StrsAllGrow(items, i);
    assert seen + StrsAll(items[..i]) + Strs(items[i]) == seen + StrsAll(items[..i + 1]);
    forall k | 0 <= k < i
      ensures Renumber(items[k], seen + StrsAll(items[..i + 1])) == Renumber(items[k], seen + StrsAll(items[..i]))
    {
      assert items[..i][k] == items[k];
      forall s | s in Strs(items[k]) { StrsInside(items[..i], k, s); }
      RenumberStays(items[k], seen + StrsAll(items[..i]), Strs(items[i]));
    }
  }

  predicate IsRecord(rec: Json) {
    rec.Obj? && |rec.keys| == |rec.values|
  }

  /** A record's event: what it holds under "event", or the record itself. */
  function EventOf(rec: Json): (ev: Json)
    requires IsRecord(rec)
    ensures "event" !in rec.keys ==> ev == rec
    ensures forall i :: 0 <= i < |rec.keys| && rec.keys[i] == "event" && "event" !in rec.keys[..i] ==> ev == rec.values[i]
  {
    if "event" in rec.keys then
      FirstIsOne(rec.keys, "event");
      rec.values[First(rec.keys, "event")]
    else rec
  }

  lemma FirstIsOne(keys: seq<string>, key: string)
    requires key in keys
    ensures forall i :: 0 <= i < |keys| && keys[i] == key && key !in keys[..i] ==> i == First(keys, key)
  {
    forall i | 0 <= i < |keys| && keys[i] == key && key !in keys[..i]
      ensures i == First(keys, key)
    {
      forall j | 0 <= j < i
        ensures keys[j] != key
      {
        assert keys[..i][j] == keys[j];
      }
      FirstIs(keys, key, i);
    }
  }

  lemma EventsStay(evs: seq<Json>, i: nat)
    requires i < |evs|
    ensures StrsAll(evs[..i]) + Strs(evs[i]) == StrsAll(evs[..i + 1])
    ensures forall k :: 0 <= k < i ==> Renumber(evs[k], StrsAll(evs[..i + 1])) == Renumber(evs[k], StrsAll(evs[..i]))
  {
    WalkedStays(evs, i, []);
    assert [] + StrsAll(evs[..i]) == StrsAll(evs[..i]) && [] + StrsAll(evs[..i + 1]) == StrsAll(evs[..i + 1]);
  }

  /** The events are numbered together, as one list. */
  method CanonicaliseEvents(events: seq<Json>) returns (out: seq<Json>)
    requires forall i :: 0 <= i < |events| ==> IsRecord(events[i])
    ensures Arr(out) == Canonical(Arr(Events(events)))
  {
    hide Strs, Renumber, Canonical;
    var can := new IdCanonicaliser();
    ghost var evs := Events(events);
    out := [];
    for i := 0 to |events|
      invariant can.After(StrsAll(evs[..i])) && fresh(can)
      invariant |out| == i && forall k :: 0 <= k < i ==> out[k] == Renumber(evs[k], StrsAll(evs[..i]))
    {
      var ev := EventOf(events[i]);
      var walked := can.Walk(ev, StrsAll(evs[..i]));
      EventsStay(evs, i);
      out := out + [walked];
    }
    assert evs[..|evs|] == evs;
    ListIsCanonical(evs, out);
  }

  /** A record that holds its event under "event" counts as that event, whatever else it holds; a bare event counts
      as itself. So wrapping events as the recorder does changes no canonical form. */
  lemma WrappingChangesNothing(wrapped: seq<Json>, bare: seq<Json>)
    requires |wrapped| == |bare| && forall i :: 0 <= i < |wrapped| ==> IsRecord(wrapped[i]) && Wraps(wrapped[i], bare[i])
    requires forall i :: 0 <= i < |bare| ==> IsRecord(bare[i]) && "event" !in bare[i].keys
    ensures Canonical(Arr(Events(wrapped))) == Canonical(Arr(bare))
  {
    hide Canonical;
    forall i | 0 <= i < |bare|
      ensures EventOf(wrapped[i]) == bare[i]
    {
      assert Wraps(wrapped[i], bare[i]);
    }
    assert Events(wrapped) == bare;
  }

  function Events(records: seq<Json>): (events: seq<Json>)
    requires forall i :: 0 <= i < |records| ==> IsRecord(records[i])
    ensures |events| == |records| && forall i :: 0 <= i < |records| ==> events[i] == EventOf(records[i])
  {
    seq(|records|, i requires 0 <= i < |records| => EventOf(records[i]))
  }

  /** The record is the event, or has it as the value of its one key "event". */
  predicate Wraps(rec: Json, ev: Json) {
    && IsRecord(rec)
    && (rec == ev || exists i :: 0 <= i < |rec.keys| && rec.keys[i] == "event" && "event" !in rec.keys[..i] && rec.values[i] == ev)
  }

  lemma ListIsCanonical(evs: seq<Json>, out: seq<Json>)
    requires |out| == |evs| && forall k :: 0 <= k < |evs| ==> out[k] == Renumber(evs[k], StrsAll(evs))
    ensures Arr(out) == Canonical(Arr(evs))
  {
    hide Renumber, StrsAll;
    RenumberedItems(evs, StrsAll(evs));
    assert Renumber(Arr(evs), StrsAll(evs)).items == out;
  }

  lemma RenumberedItems(items: seq<Json>, all: seq<string>)
    ensures var r := Renumber(Arr(items), all);
            r.Arr? && |r.items| == |items| && forall k :: 0 <= k < |items| ==> r.items[k] == Renumber(items[k], all)
  {
    hide CanonOf;
  }

  // ---------- canonical forms are their own ----------

  lemma PlaceholderIsNoId(p: string, i: nat)
    ensures IdPrefix(Placeholder(p, i)) == None
  {
    assert Placeholder(p, i)[0] == '<';
  }

  lemma {:induction false} MapStrTwice(j: Json, f: string -> string, g: string -> string)
    ensures MapStr(MapStr(j, f), g) == MapStr(j, s => g(f(s)))
  {
    if j.Obj? || j.Arr? {
      var kids := if j.Obj? then j.values else j.items;
      forall i | 0 <= i < |kids| { MapStrTwice(kids[i], f, g); }
      if j.Obj? {
        assert MapStr(MapStr(j, f), g).values == MapStr(j, s => g(f(s))).values;
      } else {
        assert MapStr(MapStr(j, f), g).items == MapStr(j, s => g(f(s))).items;
      }
    }
  }

  /** Canonicalising again changes nothing, for a canonical form holds no id. */
  lemma CanonicalSettles(j: Json)
    ensures Canonical(Canonical(j)) == Canonical(j)
  {
    var a := Strs(j);
    var b := Strs(Canonical(j));
    var f, g := s => CanonOf(a, s), s => CanonOf(b, s);
    MapStrTwice(j, f, g);
    forall s | s in a
      ensures g(f(s)) == f(s)
    {
      IdPrefixIsOne(s);
      if IdPrefix(s).Some? { PlaceholderIsNoId(IdPrefix(s).value, Index(IdPrefix, a, s)); }
    }
    MapStrDepends(j, s => g(f(s)), f);
  }

  // ---------- canonical equality is equality up to renaming ----------

  /** s is not itself of the form the canonicaliser writes. */
  ghost predicate Unreserved(s: string) {
    forall p, i: nat :: p in PREFIXES ==> s != Placeholder(p, i)
  }

  /** f changes ids one to one, each within its prefix. */
  ghost predicate IsRenaming(f: map<string, string>) {
    && (forall x :: x in f ==> IdPrefix(x).Some? && IdPrefix(f[x]) == IdPrefix(x))
    && (forall x, y :: x in f && y in f && f[x] == f[y] ==> x == y)
  }

  ghost predicate Covers(f: map<string, string>, all: seq<string>) {
    forall x :: x in all && IdPrefix(x).Some? ==> x in f
  }

  function Rename(f: map<string, string>): string -> string {
    s => if s in f then f[s] else s
  }

  function SameCanon(a: seq<string>, b: seq<string>): (string, string) -> bool {
    SameUnder(s => CanonOf(a, s), s => CanonOf(b, s))
  }

  /** At some position one side has an id and the other has none. */
  ghost predicate OneSided(a: seq<string>, b: seq<string>) {
    exists i :: 0 <= i < |a| && i < |b| && IdPrefix(a[i]).Some? != IdPrefix(b[i]).Some?
  }

  /** Strings become the same pairwise, with ids opposite ids, exactly under a renaming. */
  lemma SameCanonIffRenamed(a: seq<string>, b: seq<string>)
    requires |a| == |b|
    ensures Pairwise(a, b, SameCanon(a, b)) && !OneSided(a, b) <==> Renamed(IdPrefix, a, b)
  {
    if Renamed(IdPrefix, a, b) {
      forall i | 0 <= i < |a|
        ensures CanonOf(a, a[i]) == CanonOf(b, b[i])
      {
        if IdPrefix(a[i]).Some? { RenamedSameIndex(IdPrefix, a, b, i); }
      }
    }
    if Pairwise(a, b, SameCanon(a, b)) && !OneSided(a, b) {
      forall i | 0 <= i < |a|
        ensures IdPrefix(a[i]) == IdPrefix(b[i]) && (IdPrefix(a[i]).None? ==> a[i] == b[i])
        ensures IdPrefix(a[i]).Some? ==> Index(IdPrefix, a, a[i]) == Index(IdPrefix, b, b[i])
      {
        SameCanonSameName(a, b, a[i], b[i]);
      }
      SameIndexRenamed(IdPrefix, a, b);
    }
  }

  lemma SameCanonSameName(a: seq<string>, b: seq<string>, x: string, y: string)
    requires x in a && y in b && IdPrefix(x).Some? == IdPrefix(y).Some? && CanonOf(a, x) == CanonOf(b, y)
    ensures IdPrefix(x) == IdPrefix(y) && (IdPrefix(x).None? ==> x == y)
    ensures IdPrefix(x).Some? ==> Index(IdPrefix, a, x) == Index(IdPrefix, b, y)
  {
    IdPrefixIsOne(x);
    IdPrefixIsOne(y);
    if IdPrefix(x).Some? && IdPrefix(y).Some? {
      PlaceholderInjective(IdPrefix(x).value, Index(IdPrefix, a, x), IdPrefix(y).value, Index(IdPrefix, b, y));
    }
  }

  lemma RenamingFrom(a: seq<string>, b: seq<string>) returns (f: map<string, string>)
    requires Renamed(IdPrefix, a, b)
    ensures IsRenaming(f) && Covers(f, a)
    ensures Pairwise(a, b, SameUnder(Rename(f), s => s))
  {
    f := map x | x in a && IdPrefix(x).Some? :: b[First(a, x)];
  }

  lemma RenamingGives(f: map<string, string>, a: seq<string>, b: seq<string>)
    requires IsRenaming(f) && Covers(f, a) && Pairwise(a, b, SameUnder(Rename(f), s => s))
    ensures Renamed(IdPrefix, a, b)
  {
    forall i | 0 <= i < |a|
      ensures Rename(f)(a[i]) == b[i]
    {
      assert SameUnder(Rename(f), s => s)(a[i], b[i]);
    }
  }

  lemma {:induction false} MapStrIdentity(j: Json)
    ensures MapStr(j, s => s) == j
  {
    if j.Obj? || j.Arr? {
      var kids := if j.Obj? then j.values else j.items;
      forall i | 0 <= i < |kids| { MapStrIdentity(kids[i]); }
      if j.Arr? { assert MapStr(j, s => s).items == kids; } else { assert MapStr(j, s => s).values == kids; }
    }
  }

  ghost predicate RenamesTo(f: map<string, string>, x: Json, y: Json) {
    IsRenaming(f) && Covers(f, Strs(x)) && PyEq(MapStr(x, Rename(f)), y)
  }

  /** With the same key order, a one-to-one renaming of ids within their prefixes turns one value into
      the other exactly when the canonical forms are equal and ids stand opposite ids. */
  lemma CanonicalEqualIffRenamed(x: Json, y: Json)
    requires WellFormed(x) && WellFormed(y) && SameKeyOrder(x, y)
    ensures (exists f :: RenamesTo(f, x, y)) <==> PyEq(Canonical(x), Canonical(y)) && !OneSided(Strs(x), Strs(y))
  {
    var a, b := Strs(x), Strs(y);
    SameCanonMatch(x, y);
    if PyEq(Canonical(x), Canonical(y)) && !OneSided(a, b) {
      SameCanonIffRenamed(a, b);
      var f := RenamingFrom(a, b);
      RenamedMatch(f, x, y);
      assert RenamesTo(f, x, y);
    }
    if f :| RenamesTo(f, x, y) {
      RenamedMatch(f, x, y);
      RenamingGives(f, a, b);
      SameCanonIffRenamed(a, b);
    }
  }

  /** Values that hold no string of the canonical form never have equal forms with an id on one side only. */
  lemma UnreservedIsTwoSided(x: Json, y: Json)
    requires WellFormed(x) && WellFormed(y) && SameKeyOrder(x, y)
    requires forall s :: s in Strs(x) || s in Strs(y) ==> Unreserved(s)
    ensures PyEq(Canonical(x), Canonical(y)) ==> !OneSided(Strs(x), Strs(y))
    ensures PyEq(Canonical(x), Canonical(y)) <==> exists f :: RenamesTo(f, x, y)
  {
    var a, b := Strs(x), Strs(y);
    SameCanonMatch(x, y);
    CanonicalEqualIffRenamed(x, y);
    if PyEq(Canonical(x), Canonical(y)) {
      forall i | 0 <= i < |a|
        ensures IdPrefix(a[i]).Some? == IdPrefix(b[i]).Some?
      {
        assert SameCanon(a, b)(a[i], b[i]);
        assert a[i] in Strs(x) && b[i] in Strs(y);
        IdPrefixIsOne(a[i]);
        IdPrefixIsOne(b[i]);
      }
    }
  }

  /** The canonical forms are equal exactly when the structures match and the strings become the same, pairwise. */
  lemma SameCanonMatch(x: Json, y: Json)
    requires WellFormed(x) && WellFormed(y) && SameKeyOrder(x, y)
    ensures PyEq(Canonical(x), Canonical(y)) <==>
            Match(x, y, Whatever) && Pairwise(Strs(x), Strs(y), SameCanon(Strs(x), Strs(y)))
    ensures Match(x, y, Whatever) ==> |Strs(x)| == |Strs(y)|
  {
    var a, b := Strs(x), Strs(y);
    var f, g := s => CanonOf(a, s), s => CanonOf(b, s);
    MappedPyEq(x, y, f, g);
    MatchByParts(x, y, SameUnder(f, g));
    assert Pairwise(a, b, SameUnder(f, g)) <==> Pairwise(a, b, SameCanon(a, b));
  }

  /** Renaming turns x into y exactly when the structures match and the strings are renamed pairwise. */
  lemma RenamedMatch(f: map<string, string>, x: Json, y: Json)
    requires WellFormed(x) && WellFormed(y) && SameKeyOrder(x, y)
    ensures PyEq(MapStr(x, Rename(f)), y) <==>
            Match(x, y, Whatever) && Pairwise(Strs(x), Strs(y), SameUnder(Rename(f), s => s))
  {
    MapStrIdentity(y);
    MappedPyEq(x, y, Rename(f), s => s);
    MatchByParts(x, y, SameUnder(Rename(f), s => s));
  }

  lemma MappedPyEq(x: Json, y: Json, f: string -> string, g: string -> string)
    requires WellFormed(x) && WellFormed(y) && SameKeyOrder(x, y)
    ensures PyEq(MapStr(x, f), MapStr(y, g)) <==> Match(x, y, SameUnder(f, g))
  {
    MappedWellFormed(x, f);
    MappedWellFormed(y, g);
    MappedSameOrder(x, y, f, g);
    PyEqInOrder(MapStr(x, f), MapStr(y, g));
    MatchMapped(x, y, f, g);
  }

  lemma {:induction false} MappedWellFormed(j: Json, f: string -> string)
    requires WellFormed(j)
    ensures WellFormed(MapStr(j, f))
  {
    if j.Obj? || j.Arr? {
      var kids := if j.Obj? then j.values else j.items;
      forall i | 0 <= i < |kids| { MappedWellFormed(kids[i], f); }
    }
  }

  lemma {:induction false} MappedSameOrder(j: Json, k: Json, f: string -> string, g: string -> string)
    requires SameKeyOrder(j, k)
    ensures SameKeyOrder(MapStr(j, f), MapStr(k, g))
  {
    if j.Obj? && k.Obj? && j.keys == k.keys {
      forall i | 0 <= i < |j.values| && i < |k.values| { MappedSameOrder(j.values[i], k.values[i], f, g); }
    } else if j.Arr? && k.Arr? {
      forall i | 0 <= i < |j.items| && i < |k.items| { MappedSameOrder(j.items[i], k.items[i], f, g); }
    }
  }

  // ---------- why the two conditions are needed ----------

  /** A string already of the canonical form can pass for an id. */
  lemma ReservedStringPasses(s: string)
    requires IdPrefix(s).Some?
    ensures var x, y := Str(s), Str(Placeholder(IdPrefix(s).value, 0));
            SameKeyOrder(x, y) && PyEq(Canonical(x), Canonical(y)) && !exists f :: RenamesTo(f, x, y)
  {
    hide CanonOf, Placeholder, IdPrefix;
    var p := IdPrefix(s).value;
    PlaceholderIsNoId(p, 0);
    FirstOfOne(s);
    NoIdStays([Placeholder(p, 0)], Placeholder(p, 0));
    forall f
      ensures !RenamesTo(f, Str(s), Str(Placeholder(p, 0)))
    {
      if IsRenaming(f) && Covers(f, [s]) { assert s in [s] && IdPrefix(f[s]).Some?; }
    }
  }

  lemma NoIdStays(all: seq<string>, s: string)
    requires IdPrefix(s).None?
    ensures CanonOf(all, s) == s
  {}

  lemma FirstOfOne(s: string)
    requires IdPrefix(s).Some?
    ensures CanonOf([s], s) == Placeholder(IdPrefix(s).value, 0)
  {
    assert First([s], s) == 0 && [s][..0] == [];
    assert Peers(IdPrefix, [], IdPrefix(s).value) == {};
  }

  /** Equal dicts that list two ids in different orders get different canonical forms. */
  lemma KeyOrderDecides(s: string, t: string)
    requires s != t && IdPrefix(s).Some? && IdPrefix(s) == IdPrefix(t)
    ensures var x, y := Obj(["a", "b"], [Str(s), Str(t)]), Obj(["b", "a"], [Str(t), Str(s)]);
            PyEq(x, y) && !PyEq(Canonical(x), Canonical(y))
  {
    PyEqSwapped(Str(s), Str(t));
    var zero, one := Placeholder(IdPrefix(s).value, 0), Placeholder(IdPrefix(s).value, 1);
    CanonicalPair(["a", "b"], s, t);
    CanonicalPair(["b", "a"], t, s);
    assert zero != one by {
      IdPrefixIsOne(s);
      if zero == one { PlaceholderInjective(IdPrefix(s).value, 0, IdPrefix(s).value, 1); }
    }
    SwappedDiffer([Str(zero), Str(one)]);
  }

  lemma CanonicalPair(keys: seq<string>, s: string, t: string)
    requires s != t && IdPrefix(s).Some? && IdPrefix(s) == IdPrefix(t)
    ensures var p := IdPrefix(s).value;
            Canonical(Obj(keys, [Str(s), Str(t)])) == Obj(keys, [Str(Placeholder(p, 0)), Str(Placeholder(p, 1))])
  {
    TwoStrs(s, t);
    FirstOfTwo(s, t);
    MapPair(keys, s, t, x => CanonOf([s, t], x));
  }

  lemma MapPair(keys: seq<string>, s: string, t: string, f: string -> string)
    ensures MapStr(Obj(keys, [Str(s), Str(t)]), f) == Obj(keys, [Str(f(s)), Str(f(t))])
  {
    assert MapStr(Str(s), f) == Str(f(s)) && MapStr(Str(t), f) == Str(f(t));
  }

  lemma PyEqSwapped(j: Json, k: Json)
    requires j.Str? && k.Str?
    ensures PyEq(Obj(["a", "b"], [j, k]), Obj(["b", "a"], [k, j]))
  {
    var y := Obj(["b", "a"], [k, j]);
    assert y.keys[1] == "a" && PyEq(j, y.values[1]);
    assert y.keys[0] == "b" && PyEq(k, y.values[0]);
    assert HasEntry(y, "a", j) && HasEntry(y, "b", k);
  }

  lemma SwappedDiffer(v: seq<Json>)
    requires |v| == 2 && v[0].Str? && v[1].Str? && v[0] != v[1]
    ensures !PyEq(Obj(["a", "b"], v), Obj(["b", "a"], v))
  {
    var x, y := Obj(["a", "b"], v), Obj(["b", "a"], v);
    assert y.keys[0] != "a";
    assert !HasEntry(y, "a", v[0]);
    assert x.keys[0] == "a";
  }

  lemma TwoStrs(s: string, t: string)
    ensures StrsAll([Str(s), Str(t)]) == [s, t]
  {
    StrsAllGrow([Str(s), Str(t)], 0);
    StrsAllGrow([Str(s), Str(t)], 1);
    assert [Str(s), Str(t)][..2] == [Str(s), Str(t)];
  }

  lemma FirstOfTwo(s: string, t: string)
    requires s != t && IdPrefix(s).Some? && IdPrefix(s) == IdPrefix(t)
    ensures var p := IdPrefix(s).value;
            CanonOf([s, t], s) == Placeholder(p, 0) && CanonOf([s, t], t) == Placeholder(p, 1)
  {
    var p := IdPrefix(s).value;
    assert First([s, t], s) == 0 && [s, t][..0] == [];
    FirstIs([s, t], t, 1);
    assert [s, t][..1] == [s];
    assert Peers(IdPrefix, [s], p) == {s};
    assert Peers(IdPrefix, [], p) == {};
  }
}
