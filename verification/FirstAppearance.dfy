/** Numbering names by first appearance, separately for each kind of name. */
module FirstAppearance {
  import opened Finite
  import opened Wrappers

  /** The kind of a name that is to be numbered; None for any other string. */
  type Kinds = string -> Option<string>

  function First(all: seq<string>, x: string): (i: nat)
    requires x in all
    ensures i < |all| && all[i] == x && forall j :: 0 <= j < i ==> all[j] != x
  {
    if all[0] == x then 0
    else
      1 + First(all[1..], x)
  }

  /** The different names of kind p. */
  function Peers(kind: Kinds, all: seq<string>, p: string): set<string> {
    set x | x in all && kind(x) == Some(p)
  }

  /** How many different names of its kind appear before x first does. */
  function Index(kind: Kinds, all: seq<string>, x: string): nat
    requires x in all && kind(x).Some?
  {
    |Peers(kind, all[..First(all, x)], kind(x).value)|
  }

  lemma FirstIs(all: seq<string>, x: string, i: nat)
    requires i < |all| && all[i] == x && forall j :: 0 <= j < i ==> all[j] != x
    ensures First(all, x) == i
  {}

  lemma FirstStays(all: seq<string>, more: seq<string>, x: string)
    requires x in all
    ensures First(all + more, x) == First(all, x)
  {
    var i := First(all, x);
    assert (all + more)[..i] == all[..i];
    FirstIs(all + more, x, i);
  }

  /** Later appearances never change a number. */
  lemma IndexStays(kind: Kinds, all: seq<string>, more: seq<string>, x: string)
    requires x in all && kind(x).Some?
    ensures Index(kind, all + more, x) == Index(kind, all, x)
  {
    FirstStays(all, more, x);
    assert (all + more)[..First(all, x)] == all[..First(all, x)];
  }

  lemma IndexOfNew(kind: Kinds, all: seq<string>, x: string)
    requires x !in all && kind(x).Some?
    ensures Index(kind, all + [x], x) == |Peers(kind, all, kind(x).value)|
  {
    assert (all + [x])[..|all|] == all;
    FirstIs(all + [x], x, |all|);
  }

  lemma PeersGrow(kind: Kinds, all: seq<string>, x: string, p: string)
    ensures Peers(kind, all + [x], p) == Peers(kind, all, p) + if kind(x) == Some(p) then {x} else {}
  {}

  lemma PeerCountGrows(kind: Kinds, all: seq<string>, x: string, p: string)
    ensures |Peers(kind, all + [x], p)| == |Peers(kind, all, p)| + if kind(x) == Some(p) && x !in all then 1 else 0
  {
    PeersGrow(kind, all, x, p);
    if x in all { assert Peers(kind, all + [x], p) == Peers(kind, all, p); }
  }

  lemma EarlierIsSmaller(kind: Kinds, all: seq<string>, x: string, y: string)
    requires x in all && y in all && kind(x).Some? && kind(x) == kind(y) && First(all, x) < First(all, y)
    ensures Index(kind, all, x) < Index(kind, all, y)
  {
    var i, j := First(all, x), First(all, y);
    var a, b := Peers(kind, all[..i], kind(x).value), Peers(kind, all[..j], kind(x).value);
    assert all[..j][..i] == all[..i];
    assert x == all[..j][i];
    SubsetSize(a, b);
    assert x in b && x !in a;
  }

  /** Two names of one kind never share a number. */
  lemma IndexIsUnique(kind: Kinds, all: seq<string>, x: string, y: string)
    requires x in all && y in all && kind(x).Some? && kind(x) == kind(y)
    requires Index(kind, all, x) == Index(kind, all, y)
    ensures x == y
  {
    if First(all, x) < First(all, y) { EarlierIsSmaller(kind, all, x, y); }
    if First(all, y) < First(all, x) { EarlierIsSmaller(kind, all, y, x); }
  }

  // ---------- writing the numbers ----------

  /** How the name of a kind with a given number is written. */
  type Writer = (string, nat) -> string

  /** What s becomes when the strings of a trace are all. */
  function NameOf(kind: Kinds, write: Writer, all: seq<string>, s: string): string {
    if kind(s).Some? && s in all then write(kind(s).value, Index(kind, all, s)) else s
  }

  lemma NameStays(kind: Kinds, write: Writer, all: seq<string>, more: seq<string>, s: string)
    requires s in all
    ensures NameOf(kind, write, all + more, s) == NameOf(kind, write, all, s)
  {
    if kind(s).Some? { IndexStays(kind, all, more, s); }
  }

  /** mapping holds the new name of every name seen. */
  ghost predicate Numbered(kind: Kinds, write: Writer, mapping: map<string, string>, seen: seq<string>) {
    && (forall s :: s in mapping <==> s in seen && kind(s).Some?)
    && (forall s :: s in mapping ==> mapping[s] == NameOf(kind, write, seen, s))
  }

  function Count(counts: map<string, nat>, p: string): nat {
    if p in counts then counts[p] else 0
  }

  /** counts holds how many different names of each kind have been seen. */
  ghost predicate Counted(kind: Kinds, counts: map<string, nat>, seen: seq<string>) {
    forall p :: Count(counts, p) == |Peers(kind, seen, p)|
  }

  lemma SeenAgain(kind: Kinds, write: Writer, mapping: map<string, string>, counts: map<string, nat>,
                  seen: seq<string>, s: string)
    requires Numbered(kind, write, mapping, seen) && Counted(kind, counts, seen) && (s in mapping || kind(s).None?)
    ensures Numbered(kind, write, mapping, seen + [s]) && Counted(kind, counts, seen + [s])
    ensures NameOf(kind, write, seen + [s], s) == if s in mapping then mapping[s] else s
  {
    forall x | x in mapping { NameStays(kind, write, seen, [s], x); }
    forall p
      ensures Count(counts, p) == |Peers(kind, seen + [s], p)|
    {
      assert Peers(kind, seen + [s], p) == Peers(kind, seen, p);
    }
  }

  lemma SeenFirst(kind: Kinds, write: Writer, mapping: map<string, string>, counts: map<string, nat>,
                  seen: seq<string>, s: string)
    requires Numbered(kind, write, mapping, seen) && Counted(kind, counts, seen) && s !in mapping && kind(s).Some?
    ensures var p := kind(s).value;
            var idx := Count(counts, p);
            && NameOf(kind, write, seen + [s], s) == write(p, idx)
            && Numbered(kind, write, mapping[s := write(p, idx)], seen + [s])
            && Counted(kind, counts[p := idx + 1], seen + [s])
  {
    IndexOfNew(kind, seen, s);
    NumberFirst(kind, write, mapping, seen, s);
    CountFirst(kind, counts, seen, s);
  }

  lemma NumberFirst(kind: Kinds, write: Writer, mapping: map<string, string>, seen: seq<string>, s: string)
    requires Numbered(kind, write, mapping, seen) && s !in mapping && kind(s).Some?
    ensures Numbered(kind, write, mapping[s := NameOf(kind, write, seen + [s], s)], seen + [s])
  {
    var name := NameOf(kind, write, seen + [s], s);
    var now := mapping[s := name];
    forall x
      ensures x in now <==> x in seen + [s] && kind(x).Some?
      ensures x in now ==> now[x] == NameOf(kind, write, seen + [s], x)
    {
      assert x in seen + [s] <==> x in seen || x == s;
      if x in mapping { NameStays(kind, write, seen, [s], x); }
    }
  }

  lemma CountFirst(kind: Kinds, counts: map<string, nat>, seen: seq<string>, s: string)
    requires Counted(kind, counts, seen) && s !in seen && kind(s).Some?
    ensures Counted(kind, counts[kind(s).value := Count(counts, kind(s).value) + 1], seen + [s])
  {
    var p := kind(s).value;
    var now := counts[p := Count(counts, p) + 1];
    forall q
      ensures Count(now, q) == |Peers(kind, seen + [s], q)|
    {
      PeerCountGrows(kind, seen, s, q);
      assert Count(counts, q) == |Peers(kind, seen, q)|;
    }
  }

  // ---------- renaming ----------

  /** Position by position, names of a kind stand where names of that kind stood, and equal names where equal ones did. */
  ghost predicate SamePattern(kind: Kinds, a: seq<string>, b: seq<string>) {
    && |a| == |b|
    && (forall i :: 0 <= i < |a| ==> kind(a[i]) == kind(b[i]))
    && (forall i, j :: 0 <= i < |a| && 0 <= j < |a| && kind(a[i]).Some? ==> (a[i] == a[j] <==> b[i] == b[j]))
  }

  /** b is a with its names changed one to one within their kinds, and everything else as it was. */
  ghost predicate Renamed(kind: Kinds, a: seq<string>, b: seq<string>) {
    SamePattern(kind, a, b) && forall i :: 0 <= i < |a| && kind(a[i]).None? ==> a[i] == b[i]
  }

  lemma {:induction false} SamePeerCount(kind: Kinds, a: seq<string>, b: seq<string>, k: nat, p: string)
    requires SamePattern(kind, a, b) && k <= |a|
    ensures |Peers(kind, a[..k], p)| == |Peers(kind, b[..k], p)|
  {
    if k > 0 {
      var m := k - 1;
      SamePeerCount(kind, a, b, m, p);
      assert a[..k] == a[..m] + [a[m]] && b[..k] == b[..m] + [b[m]];
      PeerCountGrows(kind, a[..m], a[m], p);
      PeerCountGrows(kind, b[..m], b[m], p);
      if kind(a[m]) == Some(p) { SameHistory(kind, a, b, m); }
    }
  }

  lemma SameHistory(kind: Kinds, a: seq<string>, b: seq<string>, m: nat)
    requires SamePattern(kind, a, b) && m < |a| && kind(a[m]).Some?
    ensures a[m] in a[..m] <==> b[m] in b[..m]
  {
    if a[m] in a[..m] {
      var i :| 0 <= i < m && a[i] == a[m];
      assert b[..m][i] == b[m];
    }
    if b[m] in b[..m] {
      var i :| 0 <= i < m && b[i] == b[m];
      assert a[..m][i] == a[m];
    }
  }

  /** Renaming changes no number. */
  lemma RenamedSameIndex(kind: Kinds, a: seq<string>, b: seq<string>, i: nat)
    requires SamePattern(kind, a, b) && i < |a| && kind(a[i]).Some?
    ensures Index(kind, a, a[i]) == Index(kind, b, b[i])
  {
    var k := First(a, a[i]);
    assert forall j :: 0 <= j < k ==> a[j] != a[k];
    FirstIs(b, b[i], k);
    SamePeerCount(kind, a, b, k, kind(a[i]).value);
  }

  /** Equal numbers, position by position, mean a renaming. */
  lemma SameIndexRenamed(kind: Kinds, a: seq<string>, b: seq<string>)
    requires |a| == |b|
    requires forall i :: 0 <= i < |a| ==> kind(a[i]) == kind(b[i]) && (kind(a[i]).None? ==> a[i] == b[i])
    requires forall i :: 0 <= i < |a| && kind(a[i]).Some? ==> Index(kind, a, a[i]) == Index(kind, b, b[i])
    ensures Renamed(kind, a, b)
  {
    forall i, j | 0 <= i < |a| && 0 <= j < |a| && kind(a[i]).Some?
      ensures a[i] == a[j] <==> b[i] == b[j]
    {
      if kind(a[i]) == kind(a[j]) && Index(kind, a, a[i]) == Index(kind, a, a[j]) {
        IndexIsUnique(kind, a, a[i], a[j]);
        IndexIsUnique(kind, b, b[i], b[j]);
      }
    }
  }
}
