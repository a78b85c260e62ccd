/** Finding near-duplicate names: a pruned pair search that keeps what the plain one would, and
    clusters that are the connected components of the kept pairs. */
module NameSim {
  import opened Finite
  import opened Sorting
  import opened PrefixOrder
  import opened UnionFind
  import opened EditDistance

  const LEV_THRESHOLD := 0.82
  const JACCARD_THRESHOLD := 0.75

  function MaxLen(a: string, b: string): nat { if |a| < |b| then |b| else |a| }

  function Gap(a: string, b: string): nat { if |a| < |b| then |b| - |a| else |a| - |b| }

  /** 1 - distance / longer length */
  function LevSimilarity(a: string, b: string): real {
    if MaxLen(a, b) == 0 then 1.0 else 1.0 - Lev(a, b) as real / MaxLen(a, b) as real
  }

  /** How names split into tokens, and which of them name a backend or an architecture. */
  datatype Tokens = Tokens(of: string -> seq<string>, excluded: set<string>)
  {
    function SetOf(name: string): set<string> {
      set t | t in of(name)
    }

    function Jaccard(a: string, b: string): real {
      var sa, sb := SetOf(a), SetOf(b);
      if sa + sb == {} then 1.0 else |sa * sb| as real / |sa + sb| as real
    }

    /** The tokens but for the excluded ones. */
    function Kernel(tokens: seq<string>): (kernel: seq<string>)
      ensures forall t :: t in kernel <==> t in tokens && t !in excluded
    {
      if tokens == [] then []
      else if tokens[0] in excluded then Kernel(tokens[1..])
      else [tokens[0]] + Kernel(tokens[1..])
    }

    predicate BackendOnlyDifference(a: string, b: string) {
      a != b && Kernel(of(a)) == Kernel(of(b))
    }
  }

  // ---------- what the three measures mean ----------

  lemma Ratio(n: real, m: real, q: real)
    requires m > 0.0
    ensures n / m >= q <==> n >= q * m
    ensures n / m == q <==> n == q * m
  {
    var r := n / m;
    assert r * m == n;
    if r >= q { assert (r - q) * m >= 0.0; }
    if r < q { assert (q - r) * m > 0.0; }
    if r > q { assert (r - q) * m > 0.0; }
  }

  /** The distance passes exactly when at most 18 characters in a hundred of the longer name are edited. */
  lemma LevPasses(a: string, b: string)
    ensures LevSimilarity(a, b) >= LEV_THRESHOLD <==> 50 * Lev(a, b) <= 9 * MaxLen(a, b)
  {
    hide Lev;
    if MaxLen(a, b) > 0 {
      var n, m := Lev(a, b) as real, MaxLen(a, b) as real;
      Ratio(-n, m, LEV_THRESHOLD - 1.0);
      assert -n / m == -(n / m);
      assert (LEV_THRESHOLD - 1.0) * m == -0.18 * m;
    } else {
      assert Lev(a, b) == 0 by { NoNameNoEdits(a, b); }
    }
  }

  lemma NoNameNoEdits(a: string, b: string)
    requires MaxLen(a, b) == 0
    ensures Lev(a, b) == 0
  {}

  /** The overlap passes exactly when three quarters of the tokens of both are shared; it is symmetric, full for equal
      token sets alone and none for disjoint ones alone. */
  lemma JaccardPasses(tk: Tokens, a: string, b: string)
    ensures var sa, sb := tk.SetOf(a), tk.SetOf(b);
            && (tk.Jaccard(a, b) >= JACCARD_THRESHOLD <==> 4 * |sa * sb| >= 3 * |sa + sb|)
            && tk.Jaccard(a, b) == tk.Jaccard(b, a)
            && (tk.Jaccard(a, b) == 1.0 <==> sa == sb)
            && (tk.Jaccard(a, b) == 0.0 <==> sa !! sb && sa + sb != {})
  {
    var sa, sb := tk.SetOf(a), tk.SetOf(b);
    assert sa * sb == sb * sa && sa + sb == sb + sa;
    hide Tokens.SetOf;
    if sa + sb == {} {
      assert sa == {} && sb == {};
    } else {
      var n, m := |sa * sb|, |sa + sb|;
      Ratio(n as real, m as real, 0.75);
      Ratio(n as real, m as real, 1.0);
      Ratio(n as real, m as real, 0.0);
      Overlap(sa, sb);
    }
  }

  lemma Overlap(sa: set<string>, sb: set<string>)
    ensures |sa * sb| == |sa + sb| <==> sa == sb
    ensures |sa * sb| == 0 <==> sa !! sb
  {
    SubsetSize(sa * sb, sa + sb);
    assert |sa * sb| == 0 <==> sa * sb == {};
    if sa * sb == {} { assert forall t :: t in sa && t in sb ==> t in sa * sb; }
    if sa * sb == sa + sb { assert forall t :: t in sa <==> t in sb; }
    if sa == sb { assert sa * sb == sa + sb; }
  }

  lemma KernelOfOne(tk: Tokens, t: string)
    ensures tk.Kernel([t]) == if t in tk.excluded then [] else [t]
  {}

  lemma KernelNext(tk: Tokens, t: string, rest: seq<string>)
    ensures tk.Kernel([t] + rest) == (if t in tk.excluded then [] else [t]) + tk.Kernel(rest)
  {
    assert ([t] + rest)[1..] == rest;
  }

  /** The kernel of two stretches is both their kernels, one after the other. */
  lemma {:induction false} KernelSplits(tk: Tokens, s: seq<string>, t: seq<string>)
    ensures tk.Kernel(s + t) == tk.Kernel(s) + tk.Kernel(t)
  {
    if s == [] {
      assert s + t == t && tk.Kernel(s) == [];
    } else {
      hide Tokens.Kernel;
      var x, rest := s[0], s[1..];
      KernelSplits(tk, rest, t);
      assert s == [x] + rest && s + t == [x] + (rest + t);
      KernelNext(tk, x, rest);
      KernelNext(tk, x, rest + t);
    }
  }

  /** Two names that differ by one token differ only in backend exactly when that token is an excluded one. */
  lemma BackendDiffers(tk: Tokens, a: string, b: string, p: seq<string>, t: string, q: seq<string>)
    requires a != b && tk.of(a) == p + q && tk.of(b) == p + [t] + q
    ensures tk.BackendOnlyDifference(a, b) <==> t in tk.excluded
  {
    hide Tokens.Kernel;
    KernelSplits(tk, p, q);
    KernelSplits(tk, p + [t], q);
    KernelSplits(tk, p, [t]);
    KernelOfOne(tk, t);
    if t !in tk.excluded {
      assert |tk.Kernel(p + [t] + q)| == |tk.Kernel(p + q)| + 1;
    }
  }

  // ---------- the test, plain and pruned ----------

  /** What the search would ask of every pair if it computed every distance. */
  predicate Similar(tk: Tokens, a: string, b: string) {
    (LevSimilarity(a, b) >= LEV_THRESHOLD || tk.Jaccard(a, b) >= JACCARD_THRESHOLD) && !tk.BackendOnlyDifference(a, b)
  }

  /** A distance bound allows the threshold. */
  predicate Allows(bound: nat, m: nat)
    requires m > 0
  {
    bound as real / m as real <= 1.0 - LEV_THRESHOLD
  }

  ghost function BagBound(a: string, b: string): nat {
    (BagDifference(multiset(a), multiset(b)) + 1) / 2
  }

  ghost predicate LevPossible(a: string, b: string)
    requires MaxLen(a, b) > 0
  {
    Allows(Gap(a, b), MaxLen(a, b)) && Allows(BagBound(a, b), MaxLen(a, b))
  }

  lemma AllowsIsMonotone(small: nat, large: nat, m: nat)
    requires m > 0 && small <= large && Allows(large, m)
    ensures Allows(small, m)
  {
    DivideMonotone(small as real, large as real, m as real);
  }

  lemma DivideMonotone(x: real, y: real, m: real)
    requires m > 0.0 && x <= y
    ensures x / m <= y / m
  {
  }

  /** A pair the bounds rule out could not have passed the distance threshold. */
  lemma PruningIsSound(a: string, b: string)
    requires MaxLen(a, b) > 0
    ensures LevSimilarity(a, b) >= LEV_THRESHOLD ==> LevPossible(a, b)
  {
    if LevSimilarity(a, b) >= LEV_THRESHOLD {
      LengthGapBounds(a, b);
      BagBounds(a, b);
      assert Allows(Lev(a, b), MaxLen(a, b));
      AllowsIsMonotone(Gap(a, b), Lev(a, b), MaxLen(a, b));
      AllowsIsMonotone(BagBound(a, b), Lev(a, b), MaxLen(a, b));
    }
  }

  datatype Pair = Pair(a: string, b: string, score: real, simLev: real, jaccard: real)

  function MaxReal(x: real, y: real): real { if x < y then y else x }

  /** The score a kept pair carries: the distance counts only where it was computed. */
  ghost predicate Scored(tk: Tokens, p: Pair)
    requires MaxLen(p.a, p.b) > 0
  {
    && p.jaccard == tk.Jaccard(p.a, p.b)
    && p.simLev == (if LevPossible(p.a, p.b) then LevSimilarity(p.a, p.b) else 0.0)
    && p.score == MaxReal(p.simLev, p.jaccard)
  }

  /** Pruning can lower the score of a kept pair, and does so exactly when the bounds rule the
      distance out while its similarity still exceeds the token overlap. */
  lemma ScoreLoweredExactly(tk: Tokens, p: Pair)
    requires MaxLen(p.a, p.b) > 0 && Scored(tk, p)
    ensures p.score != MaxReal(LevSimilarity(p.a, p.b), p.jaccard) <==>
            !LevPossible(p.a, p.b) && LevSimilarity(p.a, p.b) > p.jaccard
  {
    JaccardIsNonNegative(tk, p.a, p.b);
  }

  lemma JaccardIsNonNegative(tk: Tokens, a: string, b: string)
    ensures tk.Jaccard(a, b) >= 0.0
  {
    var sa, sb := tk.SetOf(a), tk.SetOf(b);
    if sa + sb != {} {
      var n, m := |sa * sb| as real, |sa + sb| as real;
      assert n >= 0.0 && m > 0.0;
      assert n / m >= 0.0;
    }
  }

  /** One pair, judged with pruning. */
  method Judge(tk: Tokens, a: string, b: string, bagA: map<char, nat>, bagB: map<char, nat>)
    returns (keep: bool, p: Pair)
    requires MaxLen(a, b) > 0 && IsBag(bagA, a) && IsBag(bagB, b)
    ensures keep <==> Similar(tk, a, b)
    ensures p.a == a && p.b == b && Scored(tk, p)
  {
    var m := MaxLen(a, b);
    var levPossible := Allows(Gap(a, b), m);
    if levPossible {
      var bound := CharBagDistLowerBound(bagA, bagB, a, b);
      levPossible := Allows(bound, m);
    }
    assert levPossible <==> LevPossible(a, b);
    PruningIsSound(a, b);
    var jaccard := tk.Jaccard(a, b);
    var simLev := 0.0;
    if levPossible {
      var distance := Levenshtein(a, b);
      simLev := 1.0 - distance as real / m as real;
    }
    p := Pair(a, b, MaxReal(simLev, jaccard), simLev, jaccard);
    if !levPossible && jaccard < JACCARD_THRESHOLD { return false, p; }
    if simLev < LEV_THRESHOLD && jaccard < JACCARD_THRESHOLD { return false, p; }
    keep := !tk.BackendOnlyDifference(a, b);
  }

  // ---------- the search over all pairs ----------

  /** Kept pairs are exactly the similar ones among names[i], names[j] with (i, j) before (n, m). */
  ghost predicate KeptSoFar(tk: Tokens, order: seq<string>, pairs: seq<Pair>, n: nat, m: nat) {
    && (forall p :: p in pairs ==> PairKept(tk, order, p))
    && (forall i, j :: 0 <= i < j < |order| && (i < n || (i == n && j < m)) && Similar(tk, order[i], order[j]) ==>
          Mentions(pairs, order[i], order[j]))
  }

  /** No two of the pairs are of the same names. */
  ghost predicate ListedOnce(pairs: seq<Pair>) {
    forall k, l :: 0 <= k < l < |pairs| ==> pairs[k].a != pairs[l].a || pairs[k].b != pairs[l].b
  }

  /** Each pair's names stand in the order at places before (n, m). */
  ghost predicate Reached(order: seq<string>, pairs: seq<Pair>, n: nat, m: nat) {
    ListedOnce(pairs) && forall k :: 0 <= k < |pairs| ==> ReachedAt(order, pairs[k], n, m)
  }

  ghost predicate ReachedAt(order: seq<string>, p: Pair, n: nat, m: nat) {
    exists i, j :: 0 <= i < j < |order| && order[i] == p.a && order[j] == p.b && (i < n || (i == n && j < m))
  }

  lemma ReachedNext(order: seq<string>, pairs: seq<Pair>, n: nat, m: nat, p: Pair)
    requires n < m < |order| && Reached(order, pairs, n, m) && p.a == order[n] && p.b == order[m]
    requires forall i, j :: 0 <= i < j < |order| ==> order[i] != order[j]
    ensures Reached(order, pairs + [p], n, m + 1) && Reached(order, pairs, n, m + 1)
  {
    forall k | 0 <= k < |pairs|
      ensures ReachedAt(order, pairs[k], n, m + 1) && (pairs[k].a != p.a || pairs[k].b != p.b)
    {
      assert ReachedAt(order, pairs[k], n, m);
      var i, j :| 0 <= i < j < |order| && order[i] == pairs[k].a && order[j] == pairs[k].b && (i < n || (i == n && j < m));
    }
    assert ReachedAt(order, p, n, m + 1);
  }

  lemma ReachedLine(order: seq<string>, pairs: seq<Pair>, n: nat)
    requires Reached(order, pairs, n, |order|)
    ensures Reached(order, pairs, n + 1, n + 2)
  {
    forall k | 0 <= k < |pairs|
      ensures ReachedAt(order, pairs[k], n + 1, n + 2)
    {
      assert ReachedAt(order, pairs[k], n, |order|);
    }
  }

  ghost predicate PairKept(tk: Tokens, order: seq<string>, p: Pair) {
    && p.a in order && p.b in order && LexLess(p.a, p.b) && MaxLen(p.a, p.b) > 0
    && Similar(tk, p.a, p.b) && Scored(tk, p)
  }

  ghost predicate Mentions(pairs: seq<Pair>, a: string, b: string) {
    exists p :: p in pairs && p.a == a && p.b == b
  }

  lemma KeptNext(tk: Tokens, order: seq<string>, pairs: seq<Pair>, n: nat, m: nat, keep: bool, p: Pair)
    requires n < m < |order| && KeptSoFar(tk, order, pairs, n, m) && LexLess(order[n], order[m])
    requires p.a == order[n] && p.b == order[m] && (keep <==> Similar(tk, p.a, p.b)) && MaxLen(p.a, p.b) > 0 && Scored(tk, p)
    ensures KeptSoFar(tk, order, if keep then pairs + [p] else pairs, n, m + 1)
  {
    var longer := if keep then pairs + [p] else pairs;
    forall i, j | 0 <= i < j < |order| && (i < n || (i == n && j < m + 1)) && Similar(tk, order[i], order[j])
      ensures Mentions(longer, order[i], order[j])
    {
      if i == n && j == m {
        assert p in longer;
      } else {
        assert Mentions(pairs, order[i], order[j]);
        var q :| q in pairs && q.a == order[i] && q.b == order[j];
        assert q in longer;
      }
    }
  }

  ghost predicate AllBagged(bags: map<string, map<char, nat>>, names: set<string>) {
    forall n :: n in names ==> n in bags && IsBag(bags[n], n)
  }

  method BagAll(names: set<string>) returns (bags: map<string, map<char, nat>>)
    ensures AllBagged(bags, names)
  {
    bags := map[];
    var left := names;
    while left != {}
      invariant left <= names && AllBagged(bags, names - left)
    {
      var n :| n in left;
      var bag := CharBag(n);
      bags := bags[n := bag];
      left := left - {n};
    }
  }

  lemma NamesAreOrdered(names: set<string>)
    ensures TotalOn(names, LexLess)
  {
    forall x, y | x in names && y in names
      ensures LexLess(x, y) || LexLess(y, x) || x == y
      ensures LexLess(x, y) ==> !LexLess(y, x) && x != y
    {
      LexTotal(x, y);
    }
    forall x, y, z | x in names && y in names && z in names && LexLess(x, y) && LexLess(y, z)
      ensures LexLess(x, z)
    {
      LexTransitive(x, y, z);
    }
  }

  /** The pruned search keeps exactly the pairs the plain test keeps, each once. */
  ghost predicate KeepsSimilar(tk: Tokens, names: set<string>, pairs: seq<Pair>) {
    && ListedOnce(pairs)
    && (forall p :: p in pairs ==> p.a in names && p.b in names && LexLess(p.a, p.b) && MaxLen(p.a, p.b) > 0 && Scored(tk, p))
    && (forall a, b :: a in names && b in names && LexLess(a, b) ==> (Mentions(pairs, a, b) <==> Similar(tk, a, b)))
  }

  method CandidatePairs(tk: Tokens, names: set<string>) returns (pairs: seq<Pair>)
    ensures KeepsSimilar(tk, names, pairs)
  {
    var bags := BagAll(names);
    NamesAreOrdered(names);
    var order := SortSet(names, LexLess);
    forall i, j | 0 <= i < j < |order|
      ensures order[i] != order[j]
    {
      assert LexLess(order[i], order[j]);
    }
    pairs := [];
    for i := 0 to |order|
      invariant KeptSoFar(tk, order, pairs, i, i + 1) && Reached(order, pairs, i, i + 1)
    {
      var a := order[i];
      for j := i + 1 to |order|
        invariant KeptSoFar(tk, order, pairs, i, j) && Reached(order, pairs, i, j)
      {
        var b := order[j];
        assert a in names && b in names && LexLess(a, b);
        var keep, p := Judge(tk, a, b, bags[a], bags[b]);
        KeptNext(tk, order, pairs, i, j, keep, p);
        ReachedNext(order, pairs, i, j, p);
        if keep {
          pairs := pairs + [p];
        }
      }
      assert KeptSoFar(tk, order, pairs, i + 1, i + 2);
      ReachedLine(order, pairs, i);
    }
    AllKept(tk, names, order, pairs);
  }

  lemma AllKept(tk: Tokens, names: set<string>, order: seq<string>, pairs: seq<Pair>)
    requires SortedListing(order, names, LexLess) && KeptSoFar(tk, order, pairs, |order|, |order| + 1) && ListedOnce(pairs)
    ensures KeepsSimilar(tk, names, pairs)
  {
    forall p | p in pairs
      ensures p.a in names && p.b in names && LexLess(p.a, p.b) && MaxLen(p.a, p.b) > 0 && Scored(tk, p) && Similar(tk, p.a, p.b)
    {
      assert PairKept(tk, order, p);
    }
    forall a, b | a in names && b in names && LexLess(a, b)
      ensures Mentions(pairs, a, b) <==> Similar(tk, a, b)
    {
      var i :| 0 <= i < |order| && order[i] == a;
      var j :| 0 <= j < |order| && order[j] == b;
      if j <= i {
        assert j < i ==> LexLess(order[j], order[i]);
        LexTotal(a, b);
      }
    }
  }
}
