/** Clusters of similar names: the connected components of the kept pairs. */
module NameClusters {
  import opened UnionFind
  import opened NameSim

  const MIN_NAME_LEN := 10

  datatype Group = Group(names: set<string>, sims: seq<real>)

  ghost predicate Paired(pairs: seq<Pair>, x: string) {
    exists p :: p in pairs && (p.a == x || p.b == x)
  }

  ghost function PairEdges(pairs: seq<Pair>): set<(string, string)> {
    set p | p in pairs :: (p.b, p.a)
  }

  /** The scores of the pairs whose first name has root r, in order. */
  ghost function ScoresUnder(pairs: seq<Pair>, roots: map<string, string>, r: string): seq<real>
    requires forall p :: p in pairs ==> p.a in roots
  {
    if pairs == [] then []
    else
      var before, p := ScoresUnder(pairs[..|pairs| - 1], roots, r), pairs[|pairs| - 1];
      if roots[p.a] == r then before + [p.score] else before
  }

  ghost predicate RootsKnown(pairs: seq<Pair>, roots: map<string, string>) {
    forall p :: p in pairs ==> p.a in roots && p.b in roots && roots[p.b] == roots[p.a]
  }

  ghost predicate GroupHolds(groups: map<string, Group>, pairs: seq<Pair>, roots: map<string, string>, r: string)
    requires RootsKnown(pairs, roots)
  {
    if r in groups then
      && (exists p :: p in pairs && roots[p.a] == r)
      && (forall x :: x in groups[r].names <==> Paired(pairs, x) && x in roots && roots[x] == r)
      && groups[r].sims == ScoresUnder(pairs, roots, r)
    else forall p :: p in pairs ==> roots[p.a] != r
  }

  function AddPair(groups: map<string, Group>, r: string, p: Pair): map<string, Group> {
    var g := if r in groups then groups[r] else Group({}, []);
    groups[r := Group(g.names + {p.a, p.b}, g.sims + [p.score])]
  }

  lemma {:induction false} NoScores(pairs: seq<Pair>, roots: map<string, string>, r: string)
    requires forall p :: p in pairs ==> p.a in roots && roots[p.a] != r
    ensures ScoresUnder(pairs, roots, r) == []
  {
    if pairs != [] {
      assert pairs[|pairs| - 1] in pairs;
      NoScores(pairs[..|pairs| - 1], roots, r);
    }
  }

  lemma AddPairHolds(groups: map<string, Group>, pairs: seq<Pair>, roots: map<string, string>, p: Pair, r: string)
    requires RootsKnown(pairs + [p], roots) && RootsKnown(pairs, roots) && GroupHolds(groups, pairs, roots, r)
    ensures GroupHolds(AddPair(groups, roots[p.a], p), pairs + [p], roots, r)
  {
    assert p in pairs + [p] && (pairs + [p])[..|pairs|] == pairs;
    var after := AddPair(groups, roots[p.a], p);
    if r !in groups {
      NoScores(pairs, roots, r);
    }
    if r in after {
      forall x
        ensures x in after[r].names <==> Paired(pairs + [p], x) && x in roots && roots[x] == r
      {
        PairedNext(pairs, p, x);
        if r !in groups && Paired(pairs, x) {
          var q :| q in pairs && (q.a == x || q.b == x);
          assert q in pairs + [p];
        }
      }
    }
  }

  lemma PairedNext(pairs: seq<Pair>, p: Pair, x: string)
    ensures Paired(pairs + [p], x) <==> Paired(pairs, x) || p.a == x || p.b == x
  {
    if Paired(pairs, x) {
      var q :| q in pairs && (q.a == x || q.b == x);
      assert q in pairs + [p];
    }
    assert p in pairs + [p];
  }

  /** union: the root of b goes under the root of a. */
  method Union(sets: DisjointSets<string>, a: string, b: string)
    requires sets.Valid()
    modifies sets
    ensures sets.Valid() && sets.edges == old(sets.edges) + {(b, a)}
    ensures sets.parent.Keys == old(sets.parent.Keys) + {a, b}
  {
    var ra := sets.Lookup(a);
    label FoundA:
    var rb := sets.Lookup(b);
    assert SameRootAt(old@FoundA(sets.parent), old@FoundA(sets.depth), sets.parent, sets.depth, a);
    sets.Attach(b, a, rb, ra);  // leaves the forest alone when the roots agree
  }

  method UnionAll(pairs: seq<Pair>, sets: DisjointSets<string>)
    requires sets.Valid() && sets.edges == {} && sets.parent == map[]
    modifies sets
    ensures sets.Valid() && sets.edges == PairEdges(pairs)
    ensures forall x :: x in sets.parent <==> Paired(pairs, x)
  {
    for i := 0 to |pairs|
      invariant sets.Valid() && sets.edges == PairEdges(pairs[..i])
      invariant forall x :: x in sets.parent <==> Paired(pairs[..i], x)
    {
      assert pairs[..i + 1] == pairs[..i] + [pairs[i]];
      forall x ensures Paired(pairs[..i + 1], x) <==> Paired(pairs[..i], x) || pairs[i].a == x || pairs[i].b == x {
        PairedNext(pairs[..i], pairs[i], x);
      }
      Union(sets, pairs[i].a, pairs[i].b);
    }
    assert pairs[..|pairs|] == pairs;
  }

  method GroupPairs(pairs: seq<Pair>, sets: DisjointSets<string>, ghost roots: map<string, string>)
    returns (groups: map<string, Group>)
    requires sets.Valid() && RootsKnown(pairs, roots) && roots.Keys == sets.parent.Keys
    requires forall x :: x in sets.parent ==> roots[x] == sets.RootOf(x)
    modifies sets
    ensures sets.Valid() && sets.edges == old(sets.edges) && sets.parent.Keys == old(sets.parent.Keys)
    ensures forall x :: x in sets.parent ==> roots[x] == sets.RootOf(x)
    ensures forall r :: GroupHolds(groups, pairs, roots, r)
  {
    groups := map[];
    for i := 0 to |pairs|
      invariant sets.Valid() && sets.edges == old(sets.edges) && sets.parent.Keys == old(sets.parent.Keys)
      invariant forall x :: x in sets.parent ==> roots[x] == sets.RootOf(x)
      invariant RootsKnown(pairs[..i], roots) && forall r :: GroupHolds(groups, pairs[..i], roots, r)
    {
      var p := pairs[i];
      assert pairs[..i + 1] == pairs[..i] + [p] && p in pairs;
      label Before:
      var r := sets.Find(p.a);
      forall x | x in sets.parent
        ensures roots[x] == sets.RootOf(x)
      {
        assert SameRootAt(old@Before(sets.parent), old@Before(sets.depth), sets.parent, sets.depth, x);
      }
      var groups' := AddPair(groups, r, p);
      ghost var done := pairs[..i + 1];
      forall q
        ensures GroupHolds(groups', done, roots, q)
      {
        AddPairHolds(groups, pairs[..i], roots, p, q);
      }
      groups := groups';
    }
    assert pairs[..|pairs|] == pairs;
  }

  // ---------- the clusters ----------

  /** x and y belong together: linked by kept pairs, or one repeated name that no pair mentions. */
  ghost predicate Together(pairs: seq<Pair>, repeated: set<string>, x: string, y: string) {
    || (Paired(pairs, x) && Paired(pairs, y) && Linked(PairEdges(pairs), x, y))
    || (x == y && x in repeated && !Paired(pairs, x))
  }

  ghost predicate InOneGroup(groups: map<string, Group>, x: string, y: string) {
    exists r :: r in groups && x in groups[r].names && y in groups[r].names
  }

  /** A cluster's similarities are the scores of all pairs inside it, or 1 for a lone repeated name. */
  ghost predicate SimsAre(pairs: seq<Pair>, g: Group) {
    if exists x :: x in g.names && Paired(pairs, x) then g.sims == ScoresWithin(pairs, g.names) else g.sims == [1.0]
  }

  ghost function ScoresWithin(pairs: seq<Pair>, names: set<string>): seq<real> {
    if pairs == [] then []
    else
      var before, p := ScoresWithin(pairs[..|pairs| - 1], names), pairs[|pairs| - 1];
      if p.a in names then before + [p.score] else before
  }

  ghost predicate Clusters(pairs: seq<Pair>, repeated: set<string>, groups: map<string, Group>) {
    && (forall x, y :: InOneGroup(groups, x, y) <==> Together(pairs, repeated, x, y))
    && (forall r, q, x :: r in groups && q in groups && x in groups[r].names && x in groups[q].names ==> r == q)
    && (forall r :: r in groups ==> groups[r].names != {} && SimsAre(pairs, groups[r]))
  }

  /** What one entry of the finished table holds. */
  ghost predicate EntryHolds(groups: map<string, Group>, pairs: seq<Pair>, roots: map<string, string>, done: set<string>, r: string)
    requires RootsKnown(pairs, roots)
  {
    && (r in groups ==> if Paired(pairs, r) then GroupHolds(groups, pairs, roots, r) && Rooted(pairs, roots, r)
                        else r in done && groups[r] == Group({r}, [1.0]))
    && (r !in groups ==> !(Paired(pairs, r) && Rooted(pairs, roots, r)) && (r in done ==> Paired(pairs, r)))
  }

  ghost predicate Rooted(pairs: seq<Pair>, roots: map<string, string>, r: string) {
    r in roots && roots[r] == r
  }

  /** The forest still says what roots says; names outside it stand alone. */
  ghost predicate RootStands(parent: map<string, string>, depth: map<string, nat>, roots: map<string, string>, x: string)
    requires Forest(parent, depth)
  {
    && (x in roots ==> x in parent)
    && (x in parent ==> Root(parent, depth, x) == if x in roots then roots[x] else x)
  }

  method RootOfName(sets: DisjointSets<string>, n: string, ghost roots: map<string, string>) returns (r: string)
    requires sets.Valid() && forall x :: RootStands(sets.parent, sets.depth, roots, x)
    modifies sets
    ensures sets.Valid() && forall x :: RootStands(sets.parent, sets.depth, roots, x)
    ensures r == if n in roots then roots[n] else n
  {
    ghost var p, d := sets.parent, sets.depth;
    r := sets.Lookup(n);
    forall x
      ensures RootStands(sets.parent, sets.depth, roots, x)
    {
      assert RootStands(p, d, roots, x) && SameRootAt(p, d, sets.parent, sets.depth, x);
    }
    assert RootStands(sets.parent, sets.depth, roots, n);
  }

  method AddRepeated(pairs: seq<Pair>, repeated: set<string>, sets: DisjointSets<string>, before: map<string, Group>,
                     ghost roots: map<string, string>) returns (groups: map<string, Group>)
    requires sets.Valid() && RootsFollow(pairs, roots)
    requires forall x :: RootStands(sets.parent, sets.depth, roots, x)
    requires forall r :: EntryHolds(before, pairs, roots, {}, r)
    modifies sets
    ensures forall r :: EntryHolds(groups, pairs, roots, repeated, r)
  {
    groups := before;
    var left := repeated;
    ghost var done: set<string> := {};
    while left != {}
      invariant left !! done && left + done == repeated && sets.Valid()
      invariant forall x :: RootStands(sets.parent, sets.depth, roots, x)
      invariant forall r :: EntryHolds(groups, pairs, roots, done, r)
    {
      var n :| n in left;
      left := left - {n};
      var r := RootOfName(sets, n, roots);
      EntriesNext(pairs, groups, roots, done, n, r);
      done := done + {n};
      if r !in groups {
        groups := groups[r := Group({n}, [1.0])];
      }
    }
    assert done == repeated;
  }

  lemma EntryAtFirst(pairs: seq<Pair>, before: map<string, Group>, roots: map<string, string>, r: string)
    requires RootsFollow(pairs, roots) && GroupHolds(before, pairs, roots, r)
    ensures EntryHolds(before, pairs, roots, {}, r)
  {
  }

  lemma EntriesNext(pairs: seq<Pair>, groups: map<string, Group>, roots: map<string, string>, done: set<string>, n: string, r: string)
    requires RootsFollow(pairs, roots) && forall q :: EntryHolds(groups, pairs, roots, done, q)
    requires r == if n in roots then roots[n] else n
    ensures var groups' := if r in groups then groups else groups[r := Group({n}, [1.0])];
            forall q :: EntryHolds(groups', pairs, roots, done + {n}, q)
  {
    var groups', done' := if r in groups then groups else groups[r := Group({n}, [1.0])], done + {n};
    assert EntryHolds(groups, pairs, roots, done, r);
    forall q
      ensures EntryHolds(groups', pairs, roots, done', q)
    {
      assert EntryHolds(groups, pairs, roots, done, q);
      EntryNext(pairs, groups, roots, done, n, r, q);
    }
  }

  lemma EntryNext(pairs: seq<Pair>, groups: map<string, Group>, roots: map<string, string>, done: set<string>,
                  n: string, r: string, q: string)
    requires RootsKnown(pairs, roots)
    requires if n in roots then r == roots[n] && r in roots && roots[r] == r else r == n
    ensures (forall x :: x in roots <==> Paired(pairs, x)) &&
            EntryHolds(groups, pairs, roots, done, q) && EntryHolds(groups, pairs, roots, done, r) ==>
              EntryHolds(if r in groups then groups else groups[r := Group({n}, [1.0])], pairs, roots, done + {n}, q)
  {
  }

  lemma EntriesAreClusters(pairs: seq<Pair>, repeated: set<string>, groups: map<string, Group>, roots: map<string, string>)
    requires RootsFollow(pairs, roots) && forall r :: EntryHolds(groups, pairs, roots, repeated, r)
    ensures Clusters(pairs, repeated, groups)
  {
    forall x, y
      ensures InOneGroup(groups, x, y) <==> Together(pairs, repeated, x, y)
    {
      if InOneGroup(groups, x, y) {
        var r :| r in groups && x in groups[r].names && y in groups[r].names;
        assert EntryHolds(groups, pairs, roots, repeated, r);
      }
      if Together(pairs, repeated, x, y) {
        var r := if Paired(pairs, x) then roots[x] else x;
        assert EntryHolds(groups, pairs, roots, repeated, r);
        assert r in groups && x in groups[r].names && y in groups[r].names;
      }
    }
    forall r, q, x | r in groups && q in groups && x in groups[r].names && x in groups[q].names
      ensures r == q
    {
      assert EntryHolds(groups, pairs, roots, repeated, r) && EntryHolds(groups, pairs, roots, repeated, q);
    }
    forall r | r in groups
      ensures groups[r].names != {} && SimsAre(pairs, groups[r])
    {
      assert EntryHolds(groups, pairs, roots, repeated, r);
      assert r in groups[r].names;
      if Paired(pairs, r) {
        forall p | p in pairs
          ensures p.a in roots && (roots[p.a] == r <==> p.a in groups[r].names)
        {
          assert Paired(pairs, p.a);
        }
        ScoresAgree(pairs, roots, r, groups[r].names);
      }
    }
  }

  /** The scores filed under a root are those of the pairs that start in its names. */
  lemma {:induction false} ScoresAgree(pairs: seq<Pair>, roots: map<string, string>, r: string, names: set<string>)
    requires forall p :: p in pairs ==> p.a in roots && (roots[p.a] == r <==> p.a in names)
    ensures ScoresUnder(pairs, roots, r) == ScoresWithin(pairs, names)
  {
    if pairs != [] {
      var before, p := pairs[..|pairs| - 1], pairs[|pairs| - 1];
      assert p in pairs && forall q :: q in before ==> q in pairs;
      ScoresAgree(before, roots, r, names);
    }
  }

  ghost predicate RootsFollow(pairs: seq<Pair>, roots: map<string, string>) {
    && RootsKnown(pairs, roots)
    && (forall x :: x in roots <==> Paired(pairs, x))
    && (forall x :: x in roots ==> roots[x] in roots && roots[roots[x]] == roots[x])
    && (forall x, y :: x in roots && y in roots ==> (roots[x] == roots[y] <==> Linked(PairEdges(pairs), x, y)))
  }

  lemma RootsAreKnown(pairs: seq<Pair>, sets: DisjointSets<string>) returns (roots: map<string, string>)
    requires sets.Valid() && sets.edges == PairEdges(pairs) && forall x :: x in sets.parent <==> Paired(pairs, x)
    ensures RootsFollow(pairs, roots) && roots.Keys == sets.parent.Keys
    ensures forall x :: x in roots ==> roots[x] == sets.RootOf(x)
  {
    roots := map x | x in sets.parent :: sets.RootOf(x);
    forall p | p in pairs
      ensures p.a in roots && p.b in roots && roots[p.b] == roots[p.a]
    {
      assert Paired(pairs, p.a) && Paired(pairs, p.b);
      assert (p.b, p.a) in sets.edges;
      assert OneRoot(sets.parent, sets.depth, (p.b, p.a));
    }
    forall x | x in roots
      ensures roots[x] in roots && roots[roots[x]] == roots[x]
    {
      RootIsNearer(sets.parent, sets.depth, x);
    }
    forall x, y | x in roots && y in roots
      ensures roots[x] == roots[y] <==> Linked(PairEdges(pairs), x, y)
    {
      sets.RootsAreLinks(x, y);
    }
  }

  /** counts gives how many definitions each name has. */
  function LongNames(counts: map<string, nat>): set<string> {
    set n | n in counts && |n| >= MIN_NAME_LEN
  }

  function RepeatedNames(counts: map<string, nat>, includeSameName: bool): set<string> {
    set n | n in counts && |n| >= MIN_NAME_LEN && includeSameName && counts[n] > 1
  }

  method BuildClusters(tk: Tokens, counts: map<string, nat>, includeSameName: bool)
    returns (groups: map<string, Group>, pairs: seq<Pair>)
    ensures KeepsSimilar(tk, LongNames(counts), pairs)
    ensures Clusters(pairs, RepeatedNames(counts, includeSameName), groups)
  {
    pairs := CandidatePairs(tk, LongNames(counts));
    groups := Cluster(pairs, RepeatedNames(counts, includeSameName));
  }

  method Cluster(pairs: seq<Pair>, repeated: set<string>) returns (groups: map<string, Group>)
    ensures Clusters(pairs, repeated, groups)
  {
    var sets := new DisjointSets<string>({});
    UnionAll(pairs, sets);
    ghost var roots := RootsAreKnown(pairs, sets);
    groups := GroupPairs(pairs, sets, roots);
    forall r
      ensures EntryHolds(groups, pairs, roots, {}, r)
    {
      assert GroupHolds(groups, pairs, roots, r);
      EntryAtFirst(pairs, groups, roots, r);
    }
    assert forall x :: RootStands(sets.parent, sets.depth, roots, x);
    groups := AddRepeated(pairs, repeated, sets, groups, roots);
    EntriesAreClusters(pairs, repeated, groups, roots);
  }
}
