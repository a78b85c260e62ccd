/** Forests of parent links: what path halving, path compression and attaching one root under another
    do to the partition.  Three scripts keep such a forest; all of them rest on these facts. */
module UnionFind {
  // ---------- forests ----------

  /** Following the parent of k stays inside the forest and lowers the depth, unless k is a root. */
  ghost predicate GoodAt<K>(parent: map<K, K>, depth: map<K, nat>, k: K)
    requires parent.Keys == depth.Keys
  {
    k in parent ==> parent[k] in parent && (parent[k] != k ==> depth[parent[k]] < depth[k])
  }

  ghost predicate Forest<K(!new)>(parent: map<K, K>, depth: map<K, nat>) {
    parent.Keys == depth.Keys && forall k :: GoodAt(parent, depth, k)
  }

  ghost function Root<K(!new)>(parent: map<K, K>, depth: map<K, nat>, k: K): (r: K)
    requires Forest(parent, depth) && k in parent
    ensures r in parent && parent[r] == r
    decreases depth[k]
  {
    assert GoodAt(parent, depth, k);
    if parent[k] == k then k else Root(parent, depth, parent[k])
  }

  /** k keeps its root. */
  ghost predicate SameRootAt<K(!new)>(parent: map<K, K>, depth: map<K, nat>, parent': map<K, K>, depth': map<K, nat>, k: K)
    requires Forest(parent, depth) && Forest(parent', depth')
  {
    k in parent ==> k in parent' && Root(parent', depth', k) == Root(parent, depth, k)
  }

  ghost predicate SameRoots<K(!new)>(parent: map<K, K>, depth: map<K, nat>, parent': map<K, K>, depth': map<K, nat>)
    requires Forest(parent, depth)
  {
    Forest(parent', depth') && forall k :: SameRootAt(parent, depth, parent', depth', k)
  }

  ghost predicate Nearer<K(!new)>(parent: map<K, K>, depth: map<K, nat>, k: K, j: K) {
    Forest(parent, depth) && k in parent && j in parent && depth[j] < depth[k] &&
    Root(parent, depth, j) == Root(parent, depth, k)
  }

  /** Pointing a node nearer to its own root changes no root. */
  lemma Redirect<K(!new)>(parent: map<K, K>, depth: map<K, nat>, k: K, j: K)
    requires Nearer(parent, depth, k, j)
    ensures SameRoots(parent, depth, parent[k := j], depth)
  {
    var parent' := parent[k := j];
    forall m
      ensures GoodAt(parent', depth, m)
    {
      assert GoodAt(parent, depth, m);
    }
    forall m
      ensures SameRootAt(parent, depth, parent', depth, m)
    {
      if m in parent { RedirectOne(parent, depth, k, j, m); }
    }
  }

  lemma {:induction false} RedirectOne<K(!new)>(parent: map<K, K>, depth: map<K, nat>, k: K, j: K, m: K)
    requires Nearer(parent, depth, k, j) && m in parent
    requires Forest(parent[k := j], depth)
    ensures Root(parent[k := j], depth, m) == Root(parent, depth, m)
    decreases depth[m]
  {
    assert GoodAt(parent, depth, m) && GoodAt(parent[k := j], depth, m);
    if m == k {
      RedirectOne(parent, depth, k, j, j);
    } else if parent[m] != m {
      RedirectOne(parent, depth, k, j, parent[m]);
    }
  }

  lemma {:induction false} RootIsNearer<K(!new)>(parent: map<K, K>, depth: map<K, nat>, k: K)
    requires Forest(parent, depth) && k in parent
    ensures parent[k] != k ==> Nearer(parent, depth, k, Root(parent, depth, k))
    ensures Root(parent, depth, Root(parent, depth, k)) == Root(parent, depth, k)
    decreases depth[k]
  {
    assert GoodAt(parent, depth, k);
    if parent[k] != k { RootIsNearer(parent, depth, parent[k]); }
  }

  lemma {:induction false} InsertOne<K(!new)>(parent: map<K, K>, depth: map<K, nat>, x: K, k: K)
    requires Forest(parent, depth) && x !in parent && k in parent
    requires Forest(parent[x := x], depth[x := 0])
    ensures Root(parent[x := x], depth[x := 0], k) == Root(parent, depth, k)
    decreases depth[k]
  {
    assert GoodAt(parent, depth, k) && GoodAt(parent[x := x], depth[x := 0], k);
    if parent[k] != k { InsertOne(parent, depth, x, parent[k]); }
  }

  lemma Insert<K(!new)>(parent: map<K, K>, depth: map<K, nat>, x: K)
    requires Forest(parent, depth) && x !in parent
    ensures SameRoots(parent, depth, parent[x := x], depth[x := 0])
    ensures Root(parent[x := x], depth[x := 0], x) == x
  {
    var parent', depth' := parent[x := x], depth[x := 0];
    forall k
      ensures GoodAt(parent', depth', k)
    {
      assert GoodAt(parent, depth, k);
    }
    forall k
      ensures SameRootAt(parent, depth, parent', depth', k)
    {
      if k in parent { InsertOne(parent, depth, x, k); }
    }
  }

  /** The depths after hanging the tree of root child under root keep. */
  ghost function Deeper<K(!new)>(parent: map<K, K>, depth: map<K, nat>, child: K, keep: K): (d: map<K, nat>)
    requires Forest(parent, depth) && keep in parent
    ensures d.Keys == depth.Keys
  {
    map k | k in depth :: if Root(parent, depth, k) == child then depth[k] + depth[keep] + 1 else depth[k]
  }

  ghost predicate TwoRoots<K(!new)>(parent: map<K, K>, depth: map<K, nat>, child: K, keep: K) {
    Forest(parent, depth) && child in parent && keep in parent && child != keep &&
    parent[child] == child && parent[keep] == keep
  }

  lemma {:induction false} AttachOne<K(!new)>(parent: map<K, K>, depth: map<K, nat>, child: K, keep: K, depth': map<K, nat>, k: K)
    requires TwoRoots(parent, depth, child, keep) && k in parent
    requires Forest(parent[child := keep], depth')
    ensures Root(parent[child := keep], depth', k) ==
            if Root(parent, depth, k) == child then keep else Root(parent, depth, k)
    decreases depth[k]
  {
    var parent' := parent[child := keep];
    assert GoodAt(parent, depth, k);
    if k == child {
      assert Root(parent', depth', keep) == keep;
    } else if parent[k] != k {
      AttachOne(parent, depth, child, keep, depth', parent[k]);
    }
  }

  lemma AttachIsForest<K(!new)>(parent: map<K, K>, depth: map<K, nat>, child: K, keep: K)
    requires TwoRoots(parent, depth, child, keep)
    ensures Forest(parent[child := keep], Deeper(parent, depth, child, keep))
  {
    var parent', depth' := parent[child := keep], Deeper(parent, depth, child, keep);
    forall k
      ensures GoodAt(parent', depth', k)
    {
      assert GoodAt(parent, depth, k);
      if k == child {
        assert Root(parent, depth, keep) == keep;
      } else if k in parent && parent[k] != k {
        assert Root(parent, depth, parent[k]) == Root(parent, depth, k);
      }
    }
  }

  // ---------- links ----------

  ghost predicate Adjacent<K(!new)>(edges: set<(K, K)>, x: K, y: K) {
    (x, y) in edges || (y, x) in edges
  }

  ghost predicate IsPath<K(!new)>(edges: set<(K, K)>, path: seq<K>) {
    |path| > 0 && forall i :: 0 <= i < |path| - 1 ==> Adjacent(edges, path[i], path[i + 1])
  }

  ghost predicate PathFromTo<K(!new)>(edges: set<(K, K)>, path: seq<K>, x: K, y: K) {
    IsPath(edges, path) && path[0] == x && path[|path| - 1] == y
  }

  /** Some chain of edges, taken in either direction, joins x and y. */
  ghost predicate Linked<K(!new)>(edges: set<(K, K)>, x: K, y: K) {
    exists path :: PathFromTo(edges, path, x, y)
  }

  lemma LinkedSelf<K(!new)>(edges: set<(K, K)>, x: K)
    ensures Linked(edges, x, x)
  {
    assert PathFromTo(edges, [x], x, x);
  }

  lemma LinkedEdge<K(!new)>(edges: set<(K, K)>, x: K, y: K)
    requires Adjacent(edges, x, y)
    ensures Linked(edges, x, y)
  {
    assert PathFromTo(edges, [x, y], x, y);
  }

  lemma LinkedBack<K(!new)>(edges: set<(K, K)>, x: K, y: K)
    requires Linked(edges, x, y)
    ensures Linked(edges, y, x)
  {
    var p :| PathFromTo(edges, p, x, y);
    var q := seq(|p|, i requires 0 <= i < |p| => p[|p| - 1 - i]);
    forall i | 0 <= i < |q| - 1
      ensures Adjacent(edges, q[i], q[i + 1])
    {
      assert Adjacent(edges, p[|p| - 2 - i], p[|p| - 2 - i + 1]);
    }
    assert PathFromTo(edges, q, y, x);
  }

  lemma LinkedOn<K(!new)>(edges: set<(K, K)>, x: K, y: K, z: K)
    requires Linked(edges, x, y) && Linked(edges, y, z)
    ensures Linked(edges, x, z)
  {
    var p :| PathFromTo(edges, p, x, y);
    var q :| PathFromTo(edges, q, y, z);
    var r := p + q[1..];
    forall i | 0 <= i < |r| - 1
      ensures Adjacent(edges, r[i], r[i + 1])
    {
      if i < |p| - 1 {
        assert r[i] == p[i] && r[i + 1] == p[i + 1];
      } else {
        assert r[i] == q[i - |p| + 1] && r[i + 1] == q[i - |p| + 1 + 1];
      }
    }
    assert PathFromTo(edges, r, x, z);
  }

  lemma LinkedMore<K(!new)>(edges: set<(K, K)>, more: set<(K, K)>, x: K, y: K)
    requires Linked(edges, x, y) && edges <= more
    ensures Linked(more, x, y)
  {
    var p :| PathFromTo(edges, p, x, y);
    assert forall i :: 0 <= i < |p| - 1 ==> Adjacent(edges, p[i], p[i + 1]);
    assert PathFromTo(more, p, x, y);
  }

  // ---------- a forest that keeps the partition of its edges ----------

  ghost predicate LinkedToRoot<K(!new)>(parent: map<K, K>, depth: map<K, nat>, edges: set<(K, K)>, k: K)
    requires Forest(parent, depth)
  {
    k in parent ==> Linked(edges, k, Root(parent, depth, k))
  }

  ghost predicate OneRoot<K(!new)>(parent: map<K, K>, depth: map<K, nat>, e: (K, K))
    requires Forest(parent, depth)
  {
    e.0 in parent && e.1 in parent && Root(parent, depth, e.0) == Root(parent, depth, e.1)
  }

  ghost predicate Keeps<K(!new)>(parent: map<K, K>, depth: map<K, nat>, edges: set<(K, K)>) {
    && Forest(parent, depth)
    && (forall e :: e in edges ==> OneRoot(parent, depth, e))
    && (forall k :: LinkedToRoot(parent, depth, edges, k))
  }

  lemma {:induction false} PathHasOneRoot<K(!new)>(parent: map<K, K>, depth: map<K, nat>, edges: set<(K, K)>, path: seq<K>)
    requires Keeps(parent, depth, edges) && IsPath(edges, path) && path[0] in parent
    ensures path[|path| - 1] in parent && Root(parent, depth, path[|path| - 1]) == Root(parent, depth, path[0])
  {
    if |path| > 1 {
      var shorter := path[..|path| - 1];
      assert IsPath(edges, shorter);
      PathHasOneRoot(parent, depth, edges, shorter);
      var x, y := path[|path| - 2], path[|path| - 2 + 1];
      assert Adjacent(edges, x, y);
      assert OneRoot(parent, depth, (x, y)) || OneRoot(parent, depth, (y, x));
    }
  }

  /** The partition is exactly the transitive closure of the edges. */
  lemma SameRootIffLinked<K(!new)>(parent: map<K, K>, depth: map<K, nat>, edges: set<(K, K)>, x: K, y: K)
    requires Keeps(parent, depth, edges) && x in parent && y in parent
    ensures Root(parent, depth, x) == Root(parent, depth, y) <==> Linked(edges, x, y)
  {
    if Root(parent, depth, x) == Root(parent, depth, y) {
      assert LinkedToRoot(parent, depth, edges, x) && LinkedToRoot(parent, depth, edges, y);
      LinkedBack(edges, y, Root(parent, depth, y));
      LinkedOn(edges, x, Root(parent, depth, x), y);
    }
    if Linked(edges, x, y) {
      var path :| PathFromTo(edges, path, x, y);
      PathHasOneRoot(parent, depth, edges, path);
    }
  }

  lemma AttachKeeps<K(!new)>(parent: map<K, K>, depth: map<K, nat>, edges: set<(K, K)>, a: K, b: K, child: K, keep: K)
    requires Keeps(parent, depth, edges) && a in parent && b in parent && child != keep
    requires child == Root(parent, depth, a) && keep == Root(parent, depth, b)
    ensures Keeps(parent[child := keep], Deeper(parent, depth, child, keep), edges + {(a, b)})
  {
    var parent', depth', more := parent[child := keep], Deeper(parent, depth, child, keep), edges + {(a, b)};
    AttachIsForest(parent, depth, child, keep);
    forall e | e in more
      ensures OneRoot(parent', depth', e)
    {
      assert e == (a, b) || OneRoot(parent, depth, e);
      AttachOne(parent, depth, child, keep, depth', e.0);
      AttachOne(parent, depth, child, keep, depth', e.1);
    }
    forall k
      ensures LinkedToRoot(parent', depth', more, k)
    {
      if k in parent {
        AttachOne(parent, depth, child, keep, depth', k);
        assert LinkedToRoot(parent, depth, edges, k) && LinkedToRoot(parent, depth, edges, a) && LinkedToRoot(parent, depth, edges, b);
        LinkedMore(edges, more, k, Root(parent, depth, k));
        if Root(parent, depth, k) == child {
          LinkAcross(edges, more, k, child, a, b, keep);
        }
      }
    }
  }

  lemma LinkAcross<K(!new)>(edges: set<(K, K)>, more: set<(K, K)>, k: K, child: K, a: K, b: K, keep: K)
    requires Linked(edges, k, child) && Linked(edges, a, child) && Linked(edges, b, keep)
    requires edges <= more && (a, b) in more
    ensures Linked(more, k, keep)
  {
    LinkedMore(edges, more, k, child);
    LinkedMore(edges, more, a, child);
    LinkedMore(edges, more, b, keep);
    LinkedBack(more, a, child);
    LinkedOn(more, k, child, a);
    LinkedEdge(more, a, b);
    LinkedOn(more, k, a, b);
    LinkedOn(more, k, b, keep);
  }

  lemma SameRootsKeep<K(!new)>(parent: map<K, K>, depth: map<K, nat>, edges: set<(K, K)>,
                               parent': map<K, K>, depth': map<K, nat>)
    requires Keeps(parent, depth, edges) && SameRoots(parent, depth, parent', depth')
    requires forall k :: k in parent' && k !in parent ==> Root(parent', depth', k) == k
    ensures Keeps(parent', depth', edges)
  {
    forall e | e in edges
      ensures OneRoot(parent', depth', e)
    {
      assert OneRoot(parent, depth, e);
      assert SameRootAt(parent, depth, parent', depth', e.0) && SameRootAt(parent, depth, parent', depth', e.1);
    }
    forall k
      ensures LinkedToRoot(parent', depth', edges, k)
    {
      assert LinkedToRoot(parent, depth, edges, k) && SameRootAt(parent, depth, parent', depth', k);
      if k in parent' && k !in parent { LinkedSelf(edges, k); }
    }
  }

  lemma RedundantEdge<K(!new)>(parent: map<K, K>, depth: map<K, nat>, edges: set<(K, K)>, a: K, b: K)
    requires Keeps(parent, depth, edges) && OneRoot(parent, depth, (a, b))
    ensures Keeps(parent, depth, edges + {(a, b)})
  {
    forall k
      ensures LinkedToRoot(parent, depth, edges + {(a, b)}, k)
    {
      assert LinkedToRoot(parent, depth, edges, k);
      if k in parent { LinkedMore(edges, edges + {(a, b)}, k, Root(parent, depth, k)); }
    }
  }

  // ---------- the structure itself ----------

  class DisjointSets<K(==, !new)> {
    var parent: map<K, K>
    ghost var depth: map<K, nat>
    ghost var edges: set<(K, K)>

    ghost predicate Valid()
      reads this
    {
      Keeps(parent, depth, edges)
    }

    ghost function RootOf(k: K): K
      requires Valid() && k in parent
      reads this
    {
      Root(parent, depth, k)
    }

    constructor (keys: set<K>)
      ensures Valid() && parent.Keys == keys && edges == {}
      ensures forall k :: k in keys ==> RootOf(k) == k
    {
      parent := map k | k in keys :: k;
      depth := map k | k in keys :: 0;
      edges := {};
      new;
      assert forall k :: GoodAt(parent, depth, k);
      forall k
        ensures LinkedToRoot(parent, depth, edges, k)
      {
        LinkedSelf(edges, k);
      }
    }

    /** setdefault(x, x) */
    method Ensure(x: K)
      requires Valid()
      modifies this
      ensures Valid() && edges == old(edges) && parent.Keys == old(parent.Keys) + {x}
      ensures SameRoots(old(parent), old(depth), parent, depth)
      ensures x !in old(parent) ==> RootOf(x) == x
    {
      assert forall k :: SameRootAt(parent, depth, parent, depth, k);
      if x !in parent {
        Insert(parent, depth, x);
        SameRootsKeep(parent, depth, edges, parent[x := x], depth[x := 0]);
        parent := parent[x := x];
        depth := depth[x := 0];
      }
    }

    /** find with path halving: every other node on the way is pointed at its grandparent. */
    method Find(k: K) returns (r: K)
      requires Valid() && k in parent
      modifies this
      ensures Valid() && edges == old(edges) && parent.Keys == old(parent.Keys)
      ensures r == RootOf(k)
      ensures SameRoots(old(parent), old(depth), parent, depth)
    {
      r := k;
      assert forall m :: SameRootAt(parent, depth, parent, depth, m);
      while parent[r] != r
        invariant Valid() && edges == old(edges) && parent.Keys == old(parent.Keys) && r in parent && depth == old(depth)
        invariant RootOf(r) == old(RootOf(k))
        invariant SameRoots(old(parent), old(depth), parent, depth)
        decreases depth[r]
      {
        var up := Grandparent(r);
        Redirect(parent, depth, r, up);
        SameRootsKeep(parent, depth, edges, parent[r := up], depth);
        SameRootsOn(old(parent), old(depth), parent, depth, parent[r := up], depth);
        assert SameRootAt(parent, depth, parent[r := up], depth, r) && SameRootAt(parent, depth, parent[r := up], depth, up);
        parent := parent[r := up];
        r := parent[r];
      }
      assert SameRootAt(old(parent), old(depth), parent, depth, k);
    }

    /** setdefault(x, x), then find */
    method Lookup(x: K) returns (r: K)
      requires Valid()
      modifies this
      ensures Valid() && edges == old(edges) && parent.Keys == old(parent.Keys) + {x}
      ensures r == RootOf(x) && (x !in old(parent) ==> r == x)
      ensures SameRoots(old(parent), old(depth), parent, depth)
    {
      Ensure(x);
      label Ensured:
      r := Find(x);
      SameRootsOn(old(parent), old(depth), old@Ensured(parent), old@Ensured(depth), parent, depth);
      assert SameRootAt(old@Ensured(parent), old@Ensured(depth), parent, depth, x);
    }

    method Grandparent(k: K) returns (up: K)
      requires Valid() && k in parent && parent[k] != k
      ensures parent[k] in parent && up == parent[parent[k]] && Nearer(parent, depth, k, up)
    {
      assert GoodAt(parent, depth, k) && GoodAt(parent, depth, parent[k]);
      up := parent[parent[k]];
    }

    /** root with full compression: every node on the way is pointed at the root. */
    method Compress(k: K) returns (r: K)
      requires Valid() && k in parent
      modifies this
      ensures Valid() && edges == old(edges) && parent.Keys == old(parent.Keys) && depth == old(depth)
      ensures r == RootOf(k)
      ensures SameRoots(old(parent), old(depth), parent, depth)
      decreases depth[k]
    {
      assert GoodAt(parent, depth, k);
      assert forall m :: SameRootAt(parent, depth, parent, depth, m);
      if parent[k] != k {
        var top := Compress(parent[k]);
        assert SameRootAt(old(parent), depth, parent, depth, k) && SameRootAt(old(parent), depth, parent, depth, old(parent)[k]);
        RootIsNearer(old(parent), depth, k);
        assert SameRootAt(old(parent), depth, parent, depth, top);
        Redirect(parent, depth, k, top);
        SameRootsKeep(parent, depth, edges, parent[k := top], depth);
        SameRootsOn(old(parent), depth, parent, depth, parent[k := top], depth);
        assert SameRootAt(parent, depth, parent[k := top], depth, k);
        parent := parent[k := top];
      }
      r := parent[k];
    }

    /** parent[child] = keep, where child is the root of a and keep the root of b. */
    method Attach(ghost a: K, ghost b: K, child: K, keep: K)
      requires Valid() && a in parent && b in parent && child == RootOf(a) && keep == RootOf(b)
      modifies this
      ensures Valid() && edges == old(edges) + {(a, b)} && parent.Keys == old(parent.Keys)
    {
      if child != keep {
        AttachKeeps(parent, depth, edges, a, b, child, keep);
        depth := Deeper(parent, depth, child, keep);
      } else {
        RedundantEdge(parent, depth, edges, a, b);
        assert parent[child := keep] == parent;
      }
      parent := parent[child := keep];
      edges := edges + {(a, b)};
    }

    lemma RootsAreLinks(x: K, y: K)
      requires Valid() && x in parent && y in parent
      ensures RootOf(x) == RootOf(y) <==> Linked(edges, x, y)
    {
      SameRootIffLinked(parent, depth, edges, x, y);
    }
  }

  lemma SameRootsOn<K(!new)>(p1: map<K, K>, d1: map<K, nat>, p2: map<K, K>, d2: map<K, nat>, p3: map<K, K>, d3: map<K, nat>)
    requires Forest(p1, d1) && SameRoots(p1, d1, p2, d2) && SameRoots(p2, d2, p3, d3)
    ensures SameRoots(p1, d1, p3, d3)
  {
    forall k
      ensures SameRootAt(p1, d1, p3, d3, k)
    {
      assert SameRootAt(p1, d1, p2, d2, k) && SameRootAt(p2, d2, p3, d3, k);
    }
  }
}
