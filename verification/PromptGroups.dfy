/** Merging prompts that embed one another: a scan over the sorted prompts that keeps a stack of
    open prefixes and links each prompt to the top of it only. */
module PromptGroups {
  import opened Wrappers
  import opened PrefixOrder
  import opened Sorting
  import opened UnionFind

  /** A trajectory row; norm is its prompt with whitespace and case normalized away. */
  datatype Row = Row(prompt: string, norm: string, completion: string, promptTokens: Option<int>, promptBytes: nat)

  type Digest = nat

  ghost predicate Injective(hash: string -> Digest) {
    forall a, b :: hash(a) == hash(b) ==> a == b
  }

  // ---------- the relation the groups must realise ----------

  /** Some non-empty prompt of the corpus begins both x and y; or x and y are the same prompt. */
  ghost predicate Entangled(corpus: set<string>, x: string, y: string) {
    x == y || exists p :: p in corpus && p != "" && p <= x && p <= y
  }

  lemma EntangledTransitive(corpus: set<string>, x: string, y: string, z: string)
    requires Entangled(corpus, x, y) && Entangled(corpus, y, z)
    ensures Entangled(corpus, x, z)
  {
    if x != y && y != z {
      var p :| p in corpus && p != "" && p <= x && p <= y;
      var q :| q in corpus && q != "" && q <= y && q <= z;
      if |p| <= |q| {
        PrefixesNest(p, q, y);
        assert p <= x && p <= z;
      } else {
        PrefixesNest(q, p, y);
        assert q <= x && q <= z;
      }
    }
  }

  function Corpus(data: seq<Row>): set<string> {
    set r | r in data :: r.norm
  }

  // ---------- gathering the rows ----------

  ghost predicate Gathered(data: seq<Row>, hash: string -> Digest, rows: map<Digest, seq<Row>>, norms: map<Digest, string>) {
    && rows.Keys == norms.Keys
    && (forall h :: h in norms ==> norms[h] in Corpus(data) && hash(norms[h]) == h)
    && (forall x :: x in Corpus(data) ==> hash(x) in norms && norms[hash(x)] == x)
    && (forall h :: h in rows ==> rows[h] == OfNorm(data, norms[h]))
  }

  function OfNorm(data: seq<Row>, norm: string): seq<Row> {
    if data == [] then []
    else
      var before, r := OfNorm(data[..|data| - 1], norm), data[|data| - 1];
      if r.norm == norm then before + [r] else before
  }

  lemma {:induction false} OfNormAbsent(data: seq<Row>, norm: string)
    requires norm !in Corpus(data)
    ensures OfNorm(data, norm) == []
  {
    if data != [] {
      assert data[|data| - 1] in data;
      assert forall r :: r in data[..|data| - 1] ==> r in data;
      OfNormAbsent(data[..|data| - 1], norm);
    }
  }

  method Gather(data: seq<Row>, hash: string -> Digest) returns (rows: map<Digest, seq<Row>>, norms: map<Digest, string>)
    requires Injective(hash)
    ensures Gathered(data, hash, rows, norms)
  {
    rows, norms := map[], map[];
    for i := 0 to |data|
      invariant Gathered(data[..i], hash, rows, norms)
    {
      var row := data[i];
      var h := hash(row.norm);
      GatherOne(data[..i], row, hash, rows, norms);
      assert data[..i + 1] == data[..i] + [row];
      rows := rows[h := (if h in rows then rows[h] else []) + [row]];
      norms := norms[h := row.norm];
    }
    assert data[..|data|] == data;
  }

  lemma OfNormNext(data: seq<Row>, row: Row, norm: string)
    ensures OfNorm(data + [row], norm) == OfNorm(data, norm) + if row.norm == norm then [row] else []
  {
    assert (data + [row])[..|data|] == data;
  }

  lemma CorpusNext(data: seq<Row>, row: Row)
    ensures Corpus(data + [row]) == Corpus(data) + {row.norm}
  {
  }

  lemma GatherOne(data: seq<Row>, row: Row, hash: string -> Digest, rows: map<Digest, seq<Row>>, norms: map<Digest, string>)
    requires Injective(hash) && Gathered(data, hash, rows, norms)
    ensures var h := hash(row.norm);
            Gathered(data + [row], hash, rows[h := (if h in rows then rows[h] else []) + [row]], norms[h := row.norm])
  {
    hide Corpus, OfNorm;
    CorpusNext(data, row);
    forall norm { OfNormNext(data, row, norm); }
    if row.norm !in Corpus(data) {
      OfNormAbsent(data, row.norm);
    }
  }

  // ---------- the scan ----------

  ghost predicate InOrder(order: seq<Digest>, norms: map<Digest, string>) {
    && (forall i :: 0 <= i < |order| ==> order[i] in norms)
    && (forall i, j :: 0 <= i < j < |order| ==> LexLess(norms[order[i]], norms[order[j]]))
  }

  /** The stack holds the processed non-empty prompts that begin the latest one, shortest first. */
  ghost predicate OpenPrefixes(order: seq<Digest>, k: nat, norms: map<Digest, string>, stack: seq<Digest>)
    requires k <= |order| && InOrder(order, norms)
  {
    && (forall a :: 0 <= a < |stack| ==> stack[a] in order[..k] && norms[stack[a]] != "")
    && (forall a, b :: 0 <= a < b < |stack| ==> norms[stack[a]] <= norms[stack[b]])
  }

  ghost predicate CoversPrefixesOf(order: seq<Digest>, k: nat, norms: map<Digest, string>, stack: seq<Digest>, s: string)
    requires k <= |order| && InOrder(order, norms)
  {
    forall i :: 0 <= i < k && norms[order[i]] != "" && norms[order[i]] <= s ==> order[i] in stack
  }

  /** Every processed prompt is linked to each processed prompt it begins. */
  ghost predicate PrefixesLinked(order: seq<Digest>, k: nat, norms: map<Digest, string>, edges: set<(Digest, Digest)>)
    requires k <= |order| && InOrder(order, norms)
  {
    forall i, j :: 0 <= i < k && 0 <= j < k && norms[order[i]] != "" && norms[order[i]] <= norms[order[j]] ==>
      Linked(edges, order[i], order[j])
  }

  ghost predicate EdgesAreEntangled(norms: map<Digest, string>, edges: set<(Digest, Digest)>) {
    forall a, b :: (a, b) in edges ==> a in norms && b in norms && norms[b] != "" && norms[b] <= norms[a]
  }

  /** Prompts that begin the next one were still open after the last one, by contiguity. */
  lemma StillOpen(order: seq<Digest>, k: nat, norms: map<Digest, string>, stack: seq<Digest>)
    requires 0 < k < |order| && InOrder(order, norms)
    requires CoversPrefixesOf(order, k, norms, stack, norms[order[k - 1]])
    ensures CoversPrefixesOf(order, k, norms, stack, norms[order[k]])
  {
    forall i | 0 <= i < k && norms[order[i]] != "" && norms[order[i]] <= norms[order[k]]
      ensures order[i] in stack
    {
      var p, x, s := norms[order[i]], norms[order[k - 1]], norms[order[k]];
      LexTotal(x, s);
      LexTotal(p, x);
      PrefixesAreContiguous(p, x, s);
    }
  }

  /** parent[find(a)] = find(b) */
  method LinkUnder(sets: DisjointSets<Digest>, a: Digest, b: Digest)
    requires sets.Valid() && a in sets.parent && b in sets.parent
    modifies sets
    ensures sets.Valid() && sets.parent.Keys == old(sets.parent.Keys) && sets.edges == old(sets.edges) + {(a, b)}
  {
    var keep := sets.Find(b);
    label Found:
    var child := sets.Find(a);
    assert SameRootAt(old@Found(sets.parent), old@Found(sets.depth), sets.parent, sets.depth, b);
    sets.Attach(a, b, child, keep);
  }

  ghost predicate AtTop(order: seq<Digest>, k: nat, norms: map<Digest, string>, stack: seq<Digest>) {
    && k < |order| && InOrder(order, norms) && norms[order[k]] != ""
    && OpenPrefixes(order, k, norms, stack)
    && CoversPrefixesOf(order, k, norms, stack, norms[order[k]])
    && (stack != [] ==> norms[stack[|stack| - 1]] <= norms[order[k]])
  }

  lemma PushNext(order: seq<Digest>, k: nat, norms: map<Digest, string>, stack: seq<Digest>)
    requires AtTop(order, k, norms, stack)
    ensures OpenPrefixes(order, k + 1, norms, stack + [order[k]])
    ensures CoversPrefixesOf(order, k + 1, norms, stack + [order[k]], norms[order[k]])
  {
    assert order[..k + 1] == order[..k] + [order[k]];
    var longer := stack + [order[k]];
    forall a, b | 0 <= a < b < |longer|
      ensures norms[longer[a]] <= norms[longer[b]]
    {
      if b == |stack| && a < |stack| - 1 {
        assert norms[stack[a]] <= norms[stack[|stack| - 1]];
      }
    }
  }

  lemma LinkNext(order: seq<Digest>, k: nat, norms: map<Digest, string>, stack: seq<Digest>, edges: set<(Digest, Digest)>)
    requires AtTop(order, k, norms, stack) && PrefixesLinked(order, k, norms, edges)
    ensures PrefixesLinked(order, k + 1, norms, if stack == [] then edges else edges + {(order[k], stack[|stack| - 1])})
  {
    var more := if stack == [] then edges else edges + {(order[k], stack[|stack| - 1])};
    forall i: nat, j: nat | i < k + 1 && j < k + 1 && norms[order[i]] != "" && norms[order[i]] <= norms[order[j]]
      ensures Linked(more, order[i], order[j])
    {
      LinkPair(order, k, norms, stack, edges, more, i, j);
    }
  }

  lemma LinkPair(order: seq<Digest>, k: nat, norms: map<Digest, string>, stack: seq<Digest>,
                 edges: set<(Digest, Digest)>, more: set<(Digest, Digest)>, i: nat, j: nat)
    requires AtTop(order, k, norms, stack) && PrefixesLinked(order, k, norms, edges)
    requires edges <= more && (stack != [] ==> (order[k], stack[|stack| - 1]) in more)
    requires i <= k && j <= k && norms[order[i]] != "" && norms[order[i]] <= norms[order[j]]
    ensures Linked(more, order[i], order[j])
  {
    if i == j {
      LinkedSelf(more, order[i]);
    } else if i < k && j < k {
      LinkedMore(edges, more, order[i], order[j]);
    } else if j == k {
      LinkToTop(order, k, norms, stack, edges, i);
      var top := stack[|stack| - 1];
      LinkedMore(edges, more, order[i], top);
      LinkedEdge(more, top, order[k]);
      LinkedOn(more, order[i], top, order[k]);
    } else {
      assert LexLess(norms[order[j]], norms[order[k]]);
      LexTotal(norms[order[j]], norms[order[k]]);
      PrefixComesFirst(norms[order[k]], norms[order[j]]);
    }
  }

  lemma LinkToTop(order: seq<Digest>, k: nat, norms: map<Digest, string>, stack: seq<Digest>, edges: set<(Digest, Digest)>, i: nat)
    requires AtTop(order, k, norms, stack) && PrefixesLinked(order, k, norms, edges)
    requires i < k && norms[order[i]] != "" && norms[order[i]] <= norms[order[k]]
    ensures stack != [] && Linked(edges, order[i], stack[|stack| - 1])
  {
    assert order[i] in stack;
    var a :| 0 <= a < |stack| && stack[a] == order[i];
    var top := stack[|stack| - 1];
    assert norms[order[i]] <= norms[top];
    var t :| 0 <= t < k && order[t] == top;
  }

  /** Where the scan stands before prompt k. */
  ghost predicate Scanned(order: seq<Digest>, k: nat, norms: map<Digest, string>, stack: seq<Digest>, edges: set<(Digest, Digest)>) {
    && k <= |order| && InOrder(order, norms)
    && OpenPrefixes(order, k, norms, stack)
    && (k > 0 ==> CoversPrefixesOf(order, k, norms, stack, norms[order[k - 1]]))
    && PrefixesLinked(order, k, norms, edges) && EdgesAreEntangled(norms, edges)
  }

  lemma ScanEmpty(order: seq<Digest>, k: nat, norms: map<Digest, string>, stack: seq<Digest>, edges: set<(Digest, Digest)>)
    requires Scanned(order, k, norms, stack, edges) && k < |order| && norms[order[k]] == ""
    ensures Scanned(order, k + 1, norms, stack, edges)
  {
  }

  /** Drop the open prefixes that do not begin prompt k. */
  method PopClosed(order: seq<Digest>, k: nat, norms: map<Digest, string>, open: seq<Digest>) returns (stack: seq<Digest>)
    requires k < |order| && InOrder(order, norms) && OpenPrefixes(order, k, norms, open) && norms[order[k]] != ""
    requires k > 0 ==> CoversPrefixesOf(order, k, norms, open, norms[order[k - 1]])
    ensures AtTop(order, k, norms, stack)
  {
    if k > 0 { StillOpen(order, k, norms, open); }
    stack := open;
    while stack != [] && !(norms[stack[|stack| - 1]] <= norms[order[k]])
      invariant OpenPrefixes(order, k, norms, stack)
      invariant CoversPrefixesOf(order, k, norms, stack, norms[order[k]])
      decreases |stack|
    {
      stack := stack[..|stack| - 1];
    }
  }

  lemma ScanNext(order: seq<Digest>, k: nat, norms: map<Digest, string>, stack: seq<Digest>, edges: set<(Digest, Digest)>)
    requires AtTop(order, k, norms, stack) && PrefixesLinked(order, k, norms, edges) && EdgesAreEntangled(norms, edges)
    ensures Scanned(order, k + 1, norms, stack + [order[k]],
              if stack == [] then edges else edges + {(order[k], stack[|stack| - 1])})
  {
    LinkNext(order, k, norms, stack, edges);
    PushNext(order, k, norms, stack);
  }

  method LinkPrefixes(order: seq<Digest>, norms: map<Digest, string>, sets: DisjointSets<Digest>)
    requires InOrder(order, norms) && sets.Valid() && sets.edges == {} && sets.parent.Keys == norms.Keys
    modifies sets
    ensures sets.Valid() && sets.parent.Keys == norms.Keys
    ensures PrefixesLinked(order, |order|, norms, sets.edges) && EdgesAreEntangled(norms, sets.edges)
  {
    var stack: seq<Digest> := [];
    for k := 0 to |order|
      invariant sets.Valid() && sets.parent.Keys == norms.Keys
      invariant Scanned(order, k, norms, stack, sets.edges)
    {
      if norms[order[k]] == "" {
        ScanEmpty(order, k, norms, stack, sets.edges);
      } else {
        stack := PopClosed(order, k, norms, stack);
        ScanNext(order, k, norms, stack, sets.edges);
        if stack != [] {
          LinkUnder(sets, order[k], stack[|stack| - 1]);
        }
        stack := stack + [order[k]];
      }
    }
  }

  // ---------- from the forest to the groups ----------

  function SortedRows(order: seq<Digest>, rows: map<Digest, seq<Row>>): seq<Row>
    requires forall h :: h in order ==> h in rows
  {
    if order == [] then [] else SortedRows(order[..|order| - 1], rows) + rows[order[|order| - 1]]
  }

  predicate Less(a: Digest, b: Digest) { a < b }

  /** The digests that share h's root. */
  ghost function ClassOf(roots: map<Digest, Digest>, r: Digest): set<Digest> {
    set h | h in roots && roots[h] == r
  }

  /** members collects, under each root, the digests of left's complement that have that root. */
  ghost predicate Collected(members: map<Digest, set<Digest>>, roots: map<Digest, Digest>, left: set<Digest>) {
    && (forall h :: RootListed(members, roots, left, h))
    && (forall r :: MembersListed(members, roots, left, r))
  }

  ghost predicate RootListed(members: map<Digest, set<Digest>>, roots: map<Digest, Digest>, left: set<Digest>, h: Digest) {
    h in roots && h !in left ==> roots[h] in members
  }

  ghost predicate MembersListed(members: map<Digest, set<Digest>>, roots: map<Digest, Digest>, left: set<Digest>, r: Digest) {
    r in members ==> members[r] != {} && members[r] == ClassOf(roots, r) - left
  }

  function AddMember(members: map<Digest, set<Digest>>, r: Digest, h: Digest): map<Digest, set<Digest>> {
    members[r := (if r in members then members[r] else {}) + {h}]
  }

  lemma CollectOne(members: map<Digest, set<Digest>>, roots: map<Digest, Digest>, left: set<Digest>, h: Digest)
    requires Collected(members, roots, left) && h in left && h in roots
    ensures Collected(AddMember(members, roots[h], h), roots, left - {h})
  {
    var r := roots[h];
    var members' := AddMember(members, r, h);
    forall m
      ensures RootListed(members', roots, left - {h}, m)
    {
      assert RootListed(members, roots, left, m);
    }
    forall q
      ensures MembersListed(members', roots, left - {h}, q)
    {
      assert MembersListed(members, roots, left, q);
      if q == r && r !in members {
        forall m | m in roots && m !in left
          ensures roots[m] != r
        {
          assert RootListed(members, roots, left, m);
        }
      }
    }
  }

  method CollectMembers(keys: set<Digest>, sets: DisjointSets<Digest>)
    returns (members: map<Digest, set<Digest>>, ghost roots: map<Digest, Digest>)
    requires sets.Valid() && sets.parent.Keys == keys
    modifies sets
    ensures sets.Valid() && sets.edges == old(sets.edges) && sets.parent.Keys == keys
    ensures roots.Keys == keys && Collected(members, roots, {})
    ensures forall h :: h in keys ==> roots[h] == sets.RootOf(h)
  {
    members := map[];
    roots := map h | h in keys :: sets.RootOf(h);
    var left := keys;
    while left != {}
      invariant left <= keys
      invariant sets.Valid() && sets.edges == old(sets.edges) && sets.parent.Keys == keys
      invariant forall h :: h in keys ==> roots[h] == sets.RootOf(h)
      invariant Collected(members, roots, left)
    {
      var h :| h in left;
      label Before:
      var r := sets.Find(h);
      forall m | m in keys
        ensures roots[m] == sets.RootOf(m)
      {
        assert SameRootAt(old@Before(sets.parent), old@Before(sets.depth), sets.parent, sets.depth, m);
      }
      CollectOne(members, roots, left, h);
      members := AddMember(members, r, h);
      left := left - {h};
    }
  }

  /** Each group is keyed by the least digest of its class and lists the class's rows by digest. */
  ghost predicate Keyed(groups: map<Digest, seq<Row>>, rows: map<Digest, seq<Row>>, members: map<Digest, set<Digest>>,
                        left: set<Digest>, keys: map<Digest, Digest>)
  {
    && keys.Keys == members.Keys - left
    && groups.Keys == keys.Values
    && forall r {:trigger KeyedAt(groups, rows, members, keys, r)} :: r in keys ==> KeyedAt(groups, rows, members, keys, r)
  }

  ghost predicate KeyedAt(groups: map<Digest, seq<Row>>, rows: map<Digest, seq<Row>>, members: map<Digest, set<Digest>>,
                          keys: map<Digest, Digest>, r: Digest)
    requires r in keys
  {
    && r in members && members[r] <= rows.Keys && keys[r] in members[r] && keys[r] in groups
    && (forall h :: h in members[r] ==> keys[r] <= h)
    && exists order :: SortedListing(order, members[r], Less) && groups[keys[r]] == SortedRows(order, rows)
  }

  ghost predicate DisjointMembers(rows: map<Digest, seq<Row>>, members: map<Digest, set<Digest>>) {
    && (forall r :: r in members ==> members[r] != {} && members[r] <= rows.Keys)
    && (forall r, q :: r in members && q in members && r != q ==> members[r] !! members[q])
  }

  lemma KeyedAtStays(groups: map<Digest, seq<Row>>, groups': map<Digest, seq<Row>>, rows: map<Digest, seq<Row>>,
                     members: map<Digest, set<Digest>>, keys: map<Digest, Digest>, keys': map<Digest, Digest>, q: Digest)
    requires q in keys && KeyedAt(groups, rows, members, keys, q)
    requires q in keys' && keys'[q] == keys[q] && keys[q] in groups' && groups'[keys[q]] == groups[keys[q]]
    ensures KeyedAt(groups', rows, members, keys', q)
  {
  }

  lemma FreshKey(groups: map<Digest, seq<Row>>, rows: map<Digest, seq<Row>>, members: map<Digest, set<Digest>>,
                 keys: map<Digest, Digest>, r: Digest, q: Digest, key: Digest)
    requires DisjointMembers(rows, members) && r in members && q != r && key in members[r]
    requires q in keys && KeyedAt(groups, rows, members, keys, q)
    ensures keys[q] != key
  {
  }

  lemma KeyOne(groups: map<Digest, seq<Row>>, rows: map<Digest, seq<Row>>, members: map<Digest, set<Digest>>,
               left: set<Digest>, keys: map<Digest, Digest>, r: Digest, order: seq<Digest>)
    requires DisjointMembers(rows, members) && Keyed(groups, rows, members, left, keys) && r in left && r in members
    requires SortedListing(order, members[r], Less) && order != [] && forall h :: h in order ==> h in rows
    ensures Keyed(groups[order[0] := SortedRows(order, rows)], rows, members, left - {r}, keys[r := order[0]])
  {
    var key := order[0];
    var groups', keys' := groups[key := SortedRows(order, rows)], keys[r := key];
    assert key in members[r] by { assert key in order; }
    forall q {:trigger KeyedAt(groups', rows, members, keys', q)} | q in keys
      ensures KeyedAt(groups', rows, members, keys', q)
    {
      assert KeyedAt(groups, rows, members, keys, q);
      FreshKey(groups, rows, members, keys, r, q, key);
      KeyedAtStays(groups, groups', rows, members, keys, keys', q);
    }
    LeastFirst(order, members[r]);
    assert KeyedAt(groups', rows, members, keys', r);
    KeyValues(keys, r, key);
    assert keys'.Keys == members.Keys - (left - {r});
  }

  lemma LeastFirst(order: seq<Digest>, all: set<Digest>)
    requires SortedListing(order, all, Less) && order != []
    ensures forall h :: h in all ==> order[0] <= h
  {
    forall h | h in all
      ensures order[0] <= h
    {
      var i :| 0 <= i < |order| && order[i] == h;
      assert i > 0 ==> Less(order[0], order[i]);
    }
  }

  lemma KeyValues(keys: map<Digest, Digest>, r: Digest, key: Digest)
    requires r !in keys
    ensures keys[r := key].Values == keys.Values + {key}
  {
    var keys' := keys[r := key];
    forall v | v in keys.Values + {key}
      ensures v in keys'.Values
    {
      if v == key { assert keys'[r] == v; } else { var q :| q in keys && keys[q] == v; assert keys'[q] == v; }
    }
  }

  method KeyGroups(rows: map<Digest, seq<Row>>, members: map<Digest, set<Digest>>)
    returns (groups: map<Digest, seq<Row>>, ghost keys: map<Digest, Digest>)
    requires DisjointMembers(rows, members)
    ensures Keyed(groups, rows, members, {}, keys)
  {
    groups := map[];
    keys := map[];
    var left := members.Keys;
    while left != {}
      invariant left <= members.Keys
      invariant Keyed(groups, rows, members, left, keys)
    {
      var r :| r in left;
      var order := SortSet(members[r], Less);
      assert order != [] by { var h :| h in members[r]; assert h in order; }
      var all := ConcatRows(order, rows);
      KeyOne(groups, rows, members, left, keys, r, order);
      groups := groups[order[0] := all];
      keys := keys[r := order[0]];
      left := left - {r};
    }
  }

  method ConcatRows(order: seq<Digest>, rows: map<Digest, seq<Row>>) returns (all: seq<Row>)
    requires forall h :: h in order ==> h in rows
    ensures all == SortedRows(order, rows)
  {
    all := [];
    for i := 0 to |order|
      invariant all == SortedRows(order[..i], rows)
    {
      assert order[..i + 1][..i] == order[..i];
      all := all + rows[order[i]];
    }
    assert order[..|order|] == order;
  }

  // ---------- links are exactly entanglement ----------

  lemma {:induction false} PathIsEntangled(data: seq<Row>, hash: string -> Digest, rows: map<Digest, seq<Row>>,
                                           norms: map<Digest, string>, edges: set<(Digest, Digest)>, path: seq<Digest>)
    requires Gathered(data, hash, rows, norms) && EdgesAreEntangled(norms, edges)
    requires IsPath(edges, path) && path[0] in norms
    ensures path[|path| - 1] in norms && Entangled(Corpus(data), norms[path[0]], norms[path[|path| - 1]])
  {
    if |path| > 1 {
      var shorter := path[..|path| - 1];
      assert IsPath(edges, shorter);
      PathIsEntangled(data, hash, rows, norms, edges, shorter);
      var a, b := path[|path| - 2], path[|path| - 2 + 1];
      assert Adjacent(edges, a, b);
      assert Entangled(Corpus(data), norms[a], norms[b]) by {
        var p := if (a, b) in edges then norms[b] else norms[a];
        assert p in Corpus(data) && p != "" && p <= norms[a] && p <= norms[b];
      }
      EntangledTransitive(Corpus(data), norms[path[0]], norms[a], norms[b]);
    }
  }

  lemma LinkedIffEntangled(data: seq<Row>, hash: string -> Digest, rows: map<Digest, seq<Row>>, norms: map<Digest, string>,
                           order: seq<Digest>, edges: set<(Digest, Digest)>, x: Digest, y: Digest)
    requires Gathered(data, hash, rows, norms) && InOrder(order, norms) && x in norms && y in norms
    requires forall h :: h in norms ==> h in order
    requires PrefixesLinked(order, |order|, norms, edges) && EdgesAreEntangled(norms, edges)
    ensures Linked(edges, x, y) <==> Entangled(Corpus(data), norms[x], norms[y])
  {
    if Linked(edges, x, y) {
      var path :| PathFromTo(edges, path, x, y);
      PathIsEntangled(data, hash, rows, norms, edges, path);
    }
    if Entangled(Corpus(data), norms[x], norms[y]) {
      if norms[x] == norms[y] {
        LinkedSelf(edges, x);
      } else {
        var p :| p in Corpus(data) && p != "" && p <= norms[x] && p <= norms[y];
        var k :| 0 <= k < |order| && order[k] == hash(p);
        var i :| 0 <= i < |order| && order[i] == x;
        var j :| 0 <= j < |order| && order[j] == y;
        assert Linked(edges, order[k], order[i]) && Linked(edges, order[k], order[j]);
        LinkedBack(edges, hash(p), x);
        LinkedOn(edges, x, hash(p), y);
      }
    }
  }

  // ---------- groups hold every row once ----------

  lemma {:induction false} OfNormCount(data: seq<Row>, norm: string, row: Row)
    ensures multiset(OfNorm(data, norm))[row] == if row.norm == norm then multiset(data)[row] else 0
  {
    if data != [] {
      OfNormCount(data[..|data| - 1], norm, row);
      assert data == data[..|data| - 1] + [data[|data| - 1]];
    }
  }

  lemma {:induction false} SortedRowsCount(data: seq<Row>, hash: string -> Digest, rows: map<Digest, seq<Row>>,
                                           norms: map<Digest, string>, order: seq<Digest>, row: Row)
    requires Injective(hash) && Gathered(data, hash, rows, norms)
    requires (forall h :: h in order ==> h in rows) && (forall i, j :: 0 <= i < j < |order| ==> order[i] != order[j])
    ensures multiset(SortedRows(order, rows))[row] == if hash(row.norm) in order then multiset(data)[row] else 0
  {
    if order != [] {
      var before, h := order[..|order| - 1], order[|order| - 1];
      SortedRowsCount(data, hash, rows, norms, before, row);
      OfNormCount(data, norms[h], row);
      assert order == before + [h];
      assert h !in before;
    }
  }

  // ---------- the whole function ----------

  /** home gives the group of each prompt: the least digest among the prompts it is entangled with. */
  ghost predicate Grouped(data: seq<Row>, hash: string -> Digest, groups: map<Digest, seq<Row>>, home: map<string, Digest>) {
    && home.Keys == Corpus(data)
    && HomesTellEntangled(data, home)
    && HomesAreLeast(hash, home)
    && groups.Keys == home.Values
    && GroupsHoldRows(data, groups, home)
  }

  ghost predicate HomesTellEntangled(data: seq<Row>, home: map<string, Digest>) {
    forall x, y :: x in home && y in home ==> (home[x] == home[y] <==> Entangled(Corpus(data), x, y))
  }

  ghost predicate HomesAreLeast(hash: string -> Digest, home: map<string, Digest>) {
    forall x :: x in home ==> home[x] <= hash(x) && exists y :: y in home && hash(y) == home[x] && home[y] == home[x]
  }

  /** A group holds exactly the rows whose prompt has it as home, each as often as the data does. */
  ghost predicate GroupsHoldRows(data: seq<Row>, groups: map<Digest, seq<Row>>, home: map<string, Digest>) {
    forall g, row :: g in groups ==>
      multiset(groups[g])[row] == if row.norm in home && home[row.norm] == g then multiset(data)[row] else 0
  }

  /** The groups are those of some home for every prompt. */
  ghost predicate IsGrouping(data: seq<Row>, hash: string -> Digest, groups: map<Digest, seq<Row>>) {
    exists home :: Grouped(data, hash, groups, home)
  }

  method MergedPromptGroups(data: seq<Row>, hash: string -> Digest)
    returns (groups: map<Digest, seq<Row>>, ghost home: map<string, Digest>)
    requires Injective(hash)
    ensures Grouped(data, hash, groups, home) && IsGrouping(data, hash, groups)
  {
    var rows, norms := Gather(data, hash);
    var sets := new DisjointSets<Digest>(rows.Keys);
    var byNorm := (a: Digest, b: Digest) => a in norms && b in norms && LexLess(norms[a], norms[b]);
    NormsAreTotal(data, hash, rows, norms, byNorm);
    var order := SortSet(rows.Keys, byNorm);
    assert forall i :: 0 <= i < |order| ==> order[i] in rows.Keys;
    LinkPrefixes(order, norms, sets);
    ghost var edges := sets.edges;
    var members, roots := CollectMembers(rows.Keys, sets);
    forall x, y | x in roots && y in roots
      ensures roots[x] == roots[y] <==> Linked(edges, x, y)
    {
      sets.RootsAreLinks(x, y);
    }
    RootsFollowLinks(data, hash, rows, norms, order, edges, roots);
    MembersAreDisjoint(rows, roots, members);
    ghost var keys;
    groups, keys := KeyGroups(rows, members);
    ghost var least := LeastDigests(rows, roots, members, groups, keys);
    home := HomesAreGrouped(data, hash, rows, norms, roots, least, groups);
  }

  /** Two prompts have one root exactly when they are entangled. */
  ghost predicate RootsEntangle(data: seq<Row>, norms: map<Digest, string>, roots: map<Digest, Digest>) {
    roots.Keys <= norms.Keys &&
    forall x, y :: x in roots && y in roots ==> (roots[x] == roots[y] <==> Entangled(Corpus(data), norms[x], norms[y]))
  }

  lemma RootsFollowLinks(data: seq<Row>, hash: string -> Digest, rows: map<Digest, seq<Row>>, norms: map<Digest, string>,
                         order: seq<Digest>, edges: set<(Digest, Digest)>, roots: map<Digest, Digest>)
    requires Gathered(data, hash, rows, norms) && InOrder(order, norms) && roots.Keys == rows.Keys
    requires forall h :: h in norms ==> h in order
    requires PrefixesLinked(order, |order|, norms, edges) && EdgesAreEntangled(norms, edges)
    requires forall x, y :: x in roots && y in roots ==> (roots[x] == roots[y] <==> Linked(edges, x, y))
    ensures RootsEntangle(data, norms, roots)
  {
    forall x, y | x in roots && y in roots
      ensures roots[x] == roots[y] <==> Entangled(Corpus(data), norms[x], norms[y])
    {
      LinkedIffEntangled(data, hash, rows, norms, order, edges, x, y);
    }
  }

  lemma MembersAreDisjoint(rows: map<Digest, seq<Row>>, roots: map<Digest, Digest>, members: map<Digest, set<Digest>>)
    requires Collected(members, roots, {}) && roots.Keys == rows.Keys
    ensures DisjointMembers(rows, members)
  {
    forall r, q | r in members && q in members && r != q
      ensures members[r] !! members[q]
    {
      assert MembersListed(members, roots, {}, r) && MembersListed(members, roots, {}, q);
    }
    forall r | r in members
      ensures members[r] != {} && members[r] <= rows.Keys
    {
      assert MembersListed(members, roots, {}, r);
    }
  }

  lemma NormsAreTotal(data: seq<Row>, hash: string -> Digest, rows: map<Digest, seq<Row>>, norms: map<Digest, string>,
                      byNorm: (Digest, Digest) -> bool)
    requires Gathered(data, hash, rows, norms)
    requires forall a, b :: byNorm(a, b) <==> a in norms && b in norms && LexLess(norms[a], norms[b])
    ensures TotalOn(rows.Keys, byNorm)
  {
    forall x, y | x in rows.Keys && y in rows.Keys
      ensures byNorm(x, y) || byNorm(y, x) || x == y
      ensures byNorm(x, y) ==> !byNorm(y, x) && x != y
    {
      LexTotal(norms[x], norms[y]);
      assert norms[x] == norms[y] ==> hash(norms[x]) == hash(norms[y]);
    }
    forall x, y, z | x in rows.Keys && y in rows.Keys && z in rows.Keys && byNorm(x, y) && byNorm(y, z)
      ensures byNorm(x, z)
    {
      LexTransitive(norms[x], norms[y], norms[z]);
    }
  }

  /** h's group key is a member of h's own class, and the least. */
  ghost predicate HomeAt(roots: map<Digest, Digest>, members: map<Digest, set<Digest>>, keys: map<Digest, Digest>, h: Digest) {
    h in roots && roots[h] in keys &&
    var k := keys[roots[h]];
    k <= h && k in roots && roots[k] == roots[h]
  }

  lemma HomeFits(rows: map<Digest, seq<Row>>, roots: map<Digest, Digest>, members: map<Digest, set<Digest>>,
                 groups: map<Digest, seq<Row>>, keys: map<Digest, Digest>, h: Digest)
    requires Collected(members, roots, {}) && Keyed(groups, rows, members, {}, keys) && h in roots
    ensures HomeAt(roots, members, keys, h)
  {
    var r := roots[h];
    assert RootListed(members, roots, {}, h) && MembersListed(members, roots, {}, r);
    assert KeyedAt(groups, rows, members, keys, r);
    assert h in members[r] && keys[r] in ClassOf(roots, r);
  }

  /** least[h] keys the group that lists the rows of exactly the digests with that same least digest. */
  ghost predicate LeastAt(rows: map<Digest, seq<Row>>, least: map<Digest, Digest>, groups: map<Digest, seq<Row>>, h: Digest)
    requires least.Keys == rows.Keys
  {
    h in least ==>
      && least[h] <= h && least[h] in least && least[least[h]] == least[h] && least[h] in groups
      && exists order :: SortedListing(order, ClassOf(least, least[h]), Less) && (forall k :: k in order ==> k in rows) && groups[least[h]] == SortedRows(order, rows)
  }

  ghost predicate GroupAt(least: map<Digest, Digest>, groups: map<Digest, seq<Row>>, g: Digest) {
    g in groups ==> g in least && least[g] == g
  }

  ghost predicate ByLeast(rows: map<Digest, seq<Row>>, least: map<Digest, Digest>, groups: map<Digest, seq<Row>>) {
    && least.Keys == rows.Keys
    && (forall h :: LeastAt(rows, least, groups, h))
    && (forall g :: GroupAt(least, groups, g))
  }

  ghost predicate SameSplit(roots: map<Digest, Digest>, least: map<Digest, Digest>, x: Digest, y: Digest) {
    x in roots && y in roots ==> x in least && y in least && (least[x] == least[y] <==> roots[x] == roots[y])
  }

  /** least sends h to the key of its class. */
  ghost predicate LeastIs(roots: map<Digest, Digest>, members: map<Digest, set<Digest>>, keys: map<Digest, Digest>,
                          least: map<Digest, Digest>, h: Digest)
  {
    h in roots ==> HomeAt(roots, members, keys, h) && h in least && least[h] == keys[roots[h]]
  }

  lemma LeastDigests(rows: map<Digest, seq<Row>>, roots: map<Digest, Digest>, members: map<Digest, set<Digest>>,
                     groups: map<Digest, seq<Row>>, keys: map<Digest, Digest>) returns (least: map<Digest, Digest>)
    requires Collected(members, roots, {}) && Keyed(groups, rows, members, {}, keys) && roots.Keys == rows.Keys
    ensures ByLeast(rows, least, groups)
    ensures forall x, y :: SameSplit(roots, least, x, y)
  {
    least := map h | h in roots && roots[h] in keys :: keys[roots[h]];
    forall h
      ensures LeastIs(roots, members, keys, least, h)
    {
      if h in roots { HomeFits(rows, roots, members, groups, keys, h); }
    }
    assert least.Keys == rows.Keys by {
      forall h | h in roots ensures h in least { assert LeastIs(roots, members, keys, least, h); }
    }
    LeastSplits(roots, members, keys, least);
    AllLeastFit(rows, roots, members, groups, keys, least);
  }

  lemma AllLeastFit(rows: map<Digest, seq<Row>>, roots: map<Digest, Digest>, members: map<Digest, set<Digest>>,
                    groups: map<Digest, seq<Row>>, keys: map<Digest, Digest>, least: map<Digest, Digest>)
    requires Collected(members, roots, {}) && Keyed(groups, rows, members, {}, keys)
    requires roots.Keys == rows.Keys == least.Keys && forall x :: LeastIs(roots, members, keys, least, x)
    ensures ByLeast(rows, least, groups)
  {
    forall h
      ensures LeastAt(rows, least, groups, h)
    {
      if h in least {
        LeastFits(rows, roots, members, groups, keys, least, h);
      }
    }
    forall g
      ensures GroupAt(least, groups, g)
    {
      if g in groups {
        GroupFits(rows, roots, members, groups, keys, least, g);
      }
    }
  }

  lemma LeastSplits(roots: map<Digest, Digest>, members: map<Digest, set<Digest>>, keys: map<Digest, Digest>, least: map<Digest, Digest>)
    requires forall x :: LeastIs(roots, members, keys, least, x)
    ensures forall x, y :: SameSplit(roots, least, x, y)
  {
    forall x, y
      ensures SameSplit(roots, least, x, y)
    {
      assert LeastIs(roots, members, keys, least, x) && LeastIs(roots, members, keys, least, y);
    }
  }

  lemma GroupFits(rows: map<Digest, seq<Row>>, roots: map<Digest, Digest>, members: map<Digest, set<Digest>>,
                  groups: map<Digest, seq<Row>>, keys: map<Digest, Digest>, least: map<Digest, Digest>, g: Digest)
    requires Collected(members, roots, {}) && Keyed(groups, rows, members, {}, keys) && g in groups
    requires forall x :: LeastIs(roots, members, keys, least, x)
    ensures g in least && least[g] == g
  {
    var r :| r in keys && keys[r] == g;
    assert KeyedAt(groups, rows, members, keys, r) && MembersListed(members, roots, {}, r);
    assert LeastIs(roots, members, keys, least, g);
  }

  lemma LeastFits(rows: map<Digest, seq<Row>>, roots: map<Digest, Digest>, members: map<Digest, set<Digest>>,
                  groups: map<Digest, seq<Row>>, keys: map<Digest, Digest>, least: map<Digest, Digest>, h: Digest)
    requires Collected(members, roots, {}) && Keyed(groups, rows, members, {}, keys)
    requires roots.Keys == rows.Keys == least.Keys && h in least && forall x :: LeastIs(roots, members, keys, least, x)
    ensures LeastAt(rows, least, groups, h)
  {
    var r := roots[h];
    assert LeastIs(roots, members, keys, least, h);
    assert KeyedAt(groups, rows, members, keys, r) && MembersListed(members, roots, {}, r);
    assert LeastIs(roots, members, keys, least, keys[r]);
    assert ClassOf(least, least[h]) == members[r] by {
      forall x
        ensures x in ClassOf(least, least[h]) <==> x in ClassOf(roots, r)
      {
        assert LeastIs(roots, members, keys, least, x);
      }
    }
  }

  lemma HomesAreGrouped(data: seq<Row>, hash: string -> Digest, rows: map<Digest, seq<Row>>, norms: map<Digest, string>,
                        roots: map<Digest, Digest>, least: map<Digest, Digest>, groups: map<Digest, seq<Row>>)
    returns (home: map<string, Digest>)
    requires Injective(hash) && Gathered(data, hash, rows, norms) && roots.Keys == rows.Keys
    requires RootsEntangle(data, norms, roots) && ByLeast(rows, least, groups) && forall x, y :: SameSplit(roots, least, x, y)
    ensures Grouped(data, hash, groups, home)
  {
    home := map x | x in Corpus(data) && hash(x) in least :: least[hash(x)];
    assert HomesFollow(data, hash, least, home);
    HomesDistinguish(data, hash, rows, norms, roots, least, home);
    HomesKnown(data, hash, rows, norms, least, groups, home);
    HomesCover(data, hash, rows, norms, least, groups, home);
    HomesHoldRows(data, hash, rows, norms, least, groups, home);
  }

  lemma HomesHoldRows(data: seq<Row>, hash: string -> Digest, rows: map<Digest, seq<Row>>, norms: map<Digest, string>,
                      least: map<Digest, Digest>, groups: map<Digest, seq<Row>>, home: map<string, Digest>)
    requires Injective(hash) && Gathered(data, hash, rows, norms) && ByLeast(rows, least, groups)
    requires HomesFollow(data, hash, least, home)
    ensures GroupsHoldRows(data, groups, home)
  {
    forall g, row | g in groups
      ensures multiset(groups[g])[row] == if row.norm in home && home[row.norm] == g then multiset(data)[row] else 0
    {
      GroupCount(data, hash, rows, norms, least, groups, g, row);
    }
  }

  ghost predicate HomesFollow(data: seq<Row>, hash: string -> Digest, least: map<Digest, Digest>, home: map<string, Digest>) {
    home.Keys == Corpus(data) && forall x :: x in home ==> hash(x) in least && home[x] == least[hash(x)]
  }

  lemma HomesDistinguish(data: seq<Row>, hash: string -> Digest, rows: map<Digest, seq<Row>>, norms: map<Digest, string>,
                         roots: map<Digest, Digest>, least: map<Digest, Digest>, home: map<string, Digest>)
    requires Gathered(data, hash, rows, norms) && roots.Keys == rows.Keys
    requires RootsEntangle(data, norms, roots) && forall x, y :: SameSplit(roots, least, x, y)
    requires HomesFollow(data, hash, least, home)
    ensures HomesTellEntangled(data, home)
  {
    forall x, y | x in home && y in home
      ensures home[x] == home[y] <==> Entangled(Corpus(data), x, y)
    {
      assert SameSplit(roots, least, hash(x), hash(y));
      assert roots[hash(x)] == roots[hash(y)] <==> Entangled(Corpus(data), norms[hash(x)], norms[hash(y)]);
    }
  }

  lemma HomesKnown(data: seq<Row>, hash: string -> Digest, rows: map<Digest, seq<Row>>, norms: map<Digest, string>,
                   least: map<Digest, Digest>, groups: map<Digest, seq<Row>>, home: map<string, Digest>)
    requires Gathered(data, hash, rows, norms) && ByLeast(rows, least, groups) && HomesFollow(data, hash, least, home)
    ensures HomesAreLeast(hash, home)
  {
    forall x | x in home
      ensures home[x] <= hash(x)
      ensures exists y :: y in home && hash(y) == home[x] && home[y] == home[x]
    {
      assert LeastAt(rows, least, groups, hash(x));
      var y := norms[home[x]];
      assert y in home && hash(y) == home[x];
    }
  }

  lemma HomesCover(data: seq<Row>, hash: string -> Digest, rows: map<Digest, seq<Row>>, norms: map<Digest, string>,
                   least: map<Digest, Digest>, groups: map<Digest, seq<Row>>, home: map<string, Digest>)
    requires Gathered(data, hash, rows, norms) && ByLeast(rows, least, groups) && HomesFollow(data, hash, least, home)
    ensures groups.Keys == home.Values
  {
    forall x | x in home
      ensures home[x] in groups
    {
      assert LeastAt(rows, least, groups, hash(x));
    }
    forall g | g in groups
      ensures g in home.Values
    {
      assert GroupAt(least, groups, g);
      var x := norms[g];
      assert x in home && home[x] == g;
    }
  }

  lemma GroupCount(data: seq<Row>, hash: string -> Digest, rows: map<Digest, seq<Row>>, norms: map<Digest, string>,
                   least: map<Digest, Digest>, groups: map<Digest, seq<Row>>, g: Digest, row: Row)
    requires Injective(hash) && Gathered(data, hash, rows, norms) && ByLeast(rows, least, groups) && g in groups
    ensures multiset(groups[g])[row] ==
            if row.norm in Corpus(data) && hash(row.norm) in least && least[hash(row.norm)] == g then multiset(data)[row] else 0
  {
    assert GroupAt(least, groups, g) && LeastAt(rows, least, groups, g);
    var order :| SortedListing(order, ClassOf(least, g), Less) && groups[g] == SortedRows(order, rows);
    assert forall i, j :: 0 <= i < j < |order| ==> Less(order[i], order[j]);
    assert forall h :: h in order ==> h in ClassOf(least, g);
    SortedRowsCount(data, hash, rows, norms, order, row);
    assert row in data ==> row.norm in Corpus(data);
    assert hash(row.norm) in order <==> hash(row.norm) in ClassOf(least, g);
  }
}
