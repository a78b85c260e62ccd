/** Edit distance by two rows, and two cheap bounds that never exceed it. */
module EditDistance {
  function Min(a: nat, b: nat): nat { if a < b then a else b }

  function Init(s: string): string
    requires s != []
  {
    s[..|s| - 1]
  }

  function Last(s: string): char
    requires s != []
  {
    s[|s| - 1]
  }

  /** The recurrence the dynamic program tabulates. */
  function Lev(a: string, b: string): nat
    decreases |a| + |b|
  {
    if a == [] then |b|
    else if b == [] then |a|
    else Min(Min(Lev(Init(a), b) + 1, Lev(a, Init(b)) + 1),
             Lev(Init(a), Init(b)) + (if Last(a) == Last(b) then 0 else 1))
  }

  // ---------- what the distance means: single-character edits ----------

  ghost predicate Inserts(a: string, c: string) {
    exists i: nat, x :: i <= |a| && c == a[..i] + [x] + a[i..]
  }

  ghost predicate Substitutes(a: string, c: string) {
    exists i: nat, x :: i < |a| && x != a[i] && c == a[..i] + [x] + a[i + 1..]
  }

  ghost predicate OneEdit(a: string, c: string) {
    Inserts(a, c) || Inserts(c, a) || Substitutes(a, c)
  }

  /** b can be had from a by exactly k edits. */
  ghost predicate Reach(a: string, b: string, k: nat)
    decreases k
  {
    if k == 0 then a == b else exists c :: OneEdit(a, c) && Reach(c, b, k - 1)
  }

  // ---------- one edit moves the distance by at most one ----------

  lemma {:induction false} AppendMoves(a: string, x: char, b: string)
    ensures Lev(a, b) <= Lev(a + [x], b) + 1 && Lev(a + [x], b) <= Lev(a, b) + 1
    decreases |b|
  {
    assert Init(a + [x]) == a;
    if b != [] { AppendMoves(a, x, Init(b)); }
    if b != [] && a == [] { PrefixDistance(b, x); }
    if b != [] && a != [] { AppendSymmetric(a, b); }
  }

  /** Lev(a, b) is at most one more than with b's last character dropped. */
  lemma AppendSymmetric(a: string, b: string)
    requires b != []
    ensures Lev(a, b) <= Lev(a, Init(b)) + 1
  {
  }

  lemma PrefixDistance(b: string, x: char)
    requires b != []
    ensures |b| <= Lev([x], b) + 1 && Lev([x], b) <= |b|
    decreases |b|
  {
    assert Init([x]) == [];
    if |b| > 1 { PrefixDistance(Init(b), x); }
  }

  function Cell(up: nat, left: nat, diagonal: nat, same: bool): nat {
    Min(Min(up + 1, left + 1), diagonal + (if same then 0 else 1))
  }

  lemma LevIsCell(a: string, b: string)
    requires a != [] && b != []
    ensures Lev(a, b) == Cell(Lev(Init(a), b), Lev(a, Init(b)), Lev(Init(a), Init(b)), Last(a) == Last(b))
  {
  }

  lemma CellMoves(u1: nat, u2: nat, u3: nat, v1: nat, v2: nat, v3: nat, same: bool)
    requires u1 <= v1 + 1 && u2 <= v2 + 1 && u3 <= v3 + 1
    ensures Cell(u1, u2, u3, same) <= Cell(v1, v2, v3, same) + 1
  {
  }

  ghost predicate Within(u: string, v: string, b: string) {
    Lev(u, b) <= Lev(v, b) + 1
  }

  /** If u is within one of v on every smaller problem, it is within one of v. */
  lemma StepMoves(u: string, v: string, b: string)
    requires u != [] && v != [] && b != [] && Last(u) == Last(v)
    requires Within(Init(u), Init(v), b) && Within(u, v, Init(b)) && Within(Init(u), Init(v), Init(b))
    ensures Within(u, v, b)
  {
    LevIsCell(u, b);
    LevIsCell(v, b);
    CellMoves(Lev(Init(u), b), Lev(u, Init(b)), Lev(Init(u), Init(b)),
              Lev(Init(v), b), Lev(v, Init(b)), Lev(Init(v), Init(b)), Last(u) == Last(b));
  }

  lemma {:induction false} InsertMoves(p: string, x: char, s: string, b: string)
    ensures Lev(p + s, b) <= Lev(p + [x] + s, b) + 1 && Lev(p + [x] + s, b) <= Lev(p + s, b) + 1
    decreases |s| + |b|
  {
    if s == [] {
      assert p + s == p && p + [x] + s == p + [x];
      AppendMoves(p, x, b);
    } else if b != [] {
      var u, v := p + s, p + [x] + s;
      assert Init(u) == p + Init(s) && Init(v) == p + [x] + Init(s);
      InsertMoves(p, x, Init(s), b);
      InsertMoves(p, x, s, Init(b));
      InsertMoves(p, x, Init(s), Init(b));
      StepMoves(u, v, b);
      StepMoves(v, u, b);
    }
  }

  lemma {:induction false} SubstituteMoves(p: string, x: char, y: char, s: string, b: string)
    ensures Lev(p + [x] + s, b) <= Lev(p + [y] + s, b) + 1
    decreases |s| + |b|
  {
    if s == [] {
      assert p + [x] + s == p + [x] && p + [y] + s == p + [y];
      assert Init(p + [x]) == p && Init(p + [y]) == p;
      if b != [] { SubstituteMoves(p, x, y, s, Init(b)); }
    } else if b != [] {
      var u, v := p + [x] + s, p + [y] + s;
      assert Init(u) == p + [x] + Init(s) && Init(v) == p + [y] + Init(s);
      SubstituteMoves(p, x, y, Init(s), b);
      SubstituteMoves(p, x, y, s, Init(b));
      SubstituteMoves(p, x, y, Init(s), Init(b));
      StepMoves(u, v, b);
    }
  }

  lemma OneEditMoves(a: string, c: string, b: string)
    requires OneEdit(a, c)
    ensures Lev(a, b) <= Lev(c, b) + 1
  {
    if Inserts(a, c) {
      var i: nat, x :| i <= |a| && c == a[..i] + [x] + a[i..];
      assert a == a[..i] + a[i..];
      InsertMoves(a[..i], x, a[i..], b);
    } else if Inserts(c, a) {
      var i: nat, x :| i <= |c| && a == c[..i] + [x] + c[i..];
      assert c == c[..i] + c[i..];
      InsertMoves(c[..i], x, c[i..], b);
    } else {
      var i: nat, x :| i < |a| && x != a[i] && c == a[..i] + [x] + a[i + 1..];
      assert a == a[..i] + [a[i]] + a[i + 1..];
      SubstituteMoves(a[..i], a[i], x, a[i + 1..], b);
    }
  }

  lemma {:induction false} LevSelf(a: string)
    ensures Lev(a, a) == 0
  {
    if a != [] { LevSelf(Init(a)); }
  }

  lemma {:induction false} NoFewerEdits(a: string, b: string, k: nat)
    requires Reach(a, b, k)
    ensures Lev(a, b) <= k
    decreases k
  {
    if k == 0 {
      LevSelf(a);
    } else {
      var c :| OneEdit(a, c) && Reach(c, b, k - 1);
      NoFewerEdits(c, b, k - 1);
      OneEditMoves(a, c, b);
    }
  }

  // ---------- and that many edits suffice ----------

  lemma OneEditAppend(a: string, c: string, x: char)
    requires OneEdit(a, c)
    ensures OneEdit(a + [x], c + [x])
  {
    if Inserts(a, c) {
      InsertsAppend(a, c, x);
    } else if Inserts(c, a) {
      InsertsAppend(c, a, x);
    } else {
      var i: nat, y :| i < |a| && y != a[i] && c == a[..i] + [y] + a[i + 1..];
      assert c + [x] == (a + [x])[..i] + [y] + (a + [x])[i + 1..];
    }
  }

  lemma InsertsAppend(a: string, c: string, x: char)
    requires Inserts(a, c)
    ensures Inserts(a + [x], c + [x])
  {
    var i: nat, y :| i <= |a| && c == a[..i] + [y] + a[i..];
    assert c + [x] == (a + [x])[..i] + [y] + (a + [x])[i..];
  }

  lemma {:induction false} ReachAppend(a: string, b: string, k: nat, x: char)
    requires Reach(a, b, k)
    ensures Reach(a + [x], b + [x], k)
    decreases k
  {
    if k > 0 {
      var c :| OneEdit(a, c) && Reach(c, b, k - 1);
      OneEditAppend(a, c, x);
      ReachAppend(c, b, k - 1, x);
    }
  }

  lemma {:induction false} ReachThen(a: string, c: string, b: string, k: nat)
    requires Reach(a, c, k) && OneEdit(c, b)
    ensures Reach(a, b, k + 1)
    decreases k
  {
    if k == 0 {
      assert Reach(b, b, 0);
    } else {
      var d :| OneEdit(a, d) && Reach(d, c, k - 1);
      ReachThen(d, c, b, k - 1);
    }
  }

  lemma InsertsLast(a: string)
    requires a != []
    ensures Inserts(Init(a), a)
  {
    var p := Init(a);
    assert a == p[..|p|] + [Last(a)] + p[|p|..];
  }

  lemma SubstitutesLast(p: string, x: char, y: char)
    requires x != y
    ensures Substitutes(p + [x], p + [y])
  {
    var a := p + [x];
    assert p + [y] == a[..|p|] + [y] + a[|p| + 1..];
  }

  lemma InitLast(s: string)
    requires s != []
    ensures Init(s) + [Last(s)] == s
  {}

  /** Edits from p to q serve for p and q with one more character each. */
  lemma ReachDiagonal(a: string, b: string, k: nat)
    requires a != [] && b != [] && Reach(Init(a), Init(b), k)
    ensures Reach(a, b, k + (if Last(a) == Last(b) then 0 else 1))
  {
    hide Reach, Init, Last, OneEdit;
    var p, q, x, y := Init(a), Init(b), Last(a), Last(b);
    ReachAppend(p, q, k, x);
    InitLast(a);
    InitLast(b);
    if x != y {
      SubstitutesLast(q, x, y);
      ReachThen(a, q + [x], b, k);
    }
  }

  lemma ReachDrop(a: string, b: string, k: nat)
    requires a != [] && Reach(Init(a), b, k)
    ensures Reach(a, b, k + 1)
  {
    InsertsLast(a);
    assert OneEdit(a, Init(a));
  }

  lemma ReachAdd(a: string, b: string, k: nat)
    requires b != [] && Reach(a, Init(b), k)
    ensures Reach(a, b, k + 1)
  {
    InsertsLast(b);
    ReachThen(a, Init(b), b, k);
  }

  lemma {:induction false} EditsSuffice(a: string, b: string)
    ensures Reach(a, b, Lev(a, b))
    decreases |a| + |b|
  {
    if a == [] && b == [] {
    } else if a == [] || (b != [] && Lev(a, b) == Lev(a, Init(b)) + 1) {
      EditsSuffice(a, Init(b));
      ReachAdd(a, b, Lev(a, Init(b)));
    } else if b == [] || Lev(a, b) == Lev(Init(a), b) + 1 {
      EditsSuffice(Init(a), b);
      ReachDrop(a, b, Lev(Init(a), b));
    } else {
      EditsSuffice(Init(a), Init(b));
      ReachDiagonal(a, b, Lev(Init(a), Init(b)));
    }
  }

  /** The distance is the least number of insertions, deletions and substitutions from a to b. */
  lemma LevIsLeastEdits(a: string, b: string)
    ensures Reach(a, b, Lev(a, b))
    ensures forall k: nat :: Reach(a, b, k) ==> Lev(a, b) <= k
  {
    EditsSuffice(a, b);
    forall k: nat | Reach(a, b, k)
      ensures Lev(a, b) <= k
    {
      NoFewerEdits(a, b, k);
    }
  }

  lemma {:induction false} LevSymmetric(a: string, b: string)
    ensures Lev(a, b) == Lev(b, a)
    decreases |a| + |b|
  {
    if a != [] && b != [] {
      LevSymmetric(Init(a), b);
      LevSymmetric(a, Init(b));
      LevSymmetric(Init(a), Init(b));
    }
  }

  // ---------- the two-row program ----------

  /** row tabulates the distances from a to the prefixes of b. */
  predicate IsRow(row: seq<nat>, a: string, b: string, n: nat)
    requires n <= |b|
  {
    |row| == n + 1 && forall j :: 0 <= j <= n ==> row[j] == Lev(a, b[..j])
  }

  lemma RowNext(prev: seq<nat>, cur: seq<nat>, a: string, b: string, i: nat, j: nat)
    requires i < |a| && j < |b| && IsRow(prev, a[..i], b, |b|) && IsRow(cur, a[..i + 1], b, j)
    ensures IsRow(cur + [Min(Min(prev[j + 1] + 1, cur[j] + 1), prev[j] + (if a[i] == b[j] then 0 else 1))],
                  a[..i + 1], b, j + 1)
  {
    assert Init(a[..i + 1]) == a[..i] && Init(b[..j + 1]) == b[..j];
  }

  method Levenshtein(first: string, second: string) returns (distance: nat)
    ensures distance == Lev(first, second)
  {
    LevSelf(first);
    if first == second { return 0; }
    var a, b := first, second;
    if |a| < |b| {
      LevSymmetric(a, b);
      a, b := b, a;
    }
    var prev: seq<nat> := seq(|b| + 1, j requires 0 <= j <= |b| => j);
    for i := 0 to |a|
      invariant IsRow(prev, a[..i], b, |b|)
    {
      prev := NextRow(a, b, i, prev);
    }
    assert a[..|a|] == a && b[..|b|] == b;
    return prev[|b|];
  }

  /** The inner loop: the row of one more character of a, from the row before it. */
  method NextRow(a: string, b: string, i: nat, prev: seq<nat>) returns (cur: seq<nat>)
    requires i < |a| && IsRow(prev, a[..i], b, |b|)
    ensures IsRow(cur, a[..i + 1], b, |b|)
  {
    cur := [i + 1];
    for j := 0 to |b|
      invariant IsRow(cur, a[..i + 1], b, j)
    {
      RowNext(prev, cur, a, b, i, j);
      var cost := if a[i] == b[j] then 0 else 1;
      cur := cur + [Min(Min(prev[j + 1] + 1, cur[j] + 1), prev[j] + cost)];
    }
  }

  // ---------- bounds from below ----------

  lemma {:induction false} LengthGapBounds(a: string, b: string)
    ensures |a| <= |b| + Lev(a, b) && |b| <= |a| + Lev(a, b)
    decreases |a| + |b|
  {
    if a != [] && b != [] {
      LengthGapBounds(Init(a), b);
      LengthGapBounds(a, Init(b));
      LengthGapBounds(Init(a), Init(b));
    }
  }

  /** How many characters, counted with repetition, the two strings do not share. */
  ghost function BagDifference(a: multiset<char>, b: multiset<char>): nat {
    |a - b| + |b - a|
  }

  lemma GrowLeft(a: multiset<char>, x: char, b: multiset<char>)
    ensures BagDifference(a + multiset{x}, b) <= BagDifference(a, b) + 1
    ensures BagDifference(b, a + multiset{x}) <= BagDifference(b, a) + 1
  {
    var c := a + multiset{x};
    if a[x] >= b[x] {
      assert c - b == (a - b) + multiset{x} && b - c == b - a;
    } else {
      assert c - b == a - b && b - a == (b - c) + multiset{x};
    }
  }

  lemma GrowBoth(a: multiset<char>, b: multiset<char>, x: char)
    ensures BagDifference(a + multiset{x}, b + multiset{x}) == BagDifference(a, b)
  {
    assert (a + multiset{x}) - (b + multiset{x}) == a - b;
    assert (b + multiset{x}) - (a + multiset{x}) == b - a;
  }

  lemma BagStep(a: string, b: string)
    requires a != [] && b != []
    ensures BagDifference(multiset(a), multiset(b)) <= BagDifference(multiset(Init(a)), multiset(b)) + 1
    ensures BagDifference(multiset(a), multiset(b)) <= BagDifference(multiset(a), multiset(Init(b))) + 1
    ensures BagDifference(multiset(a), multiset(b)) <=
            BagDifference(multiset(Init(a)), multiset(Init(b))) + (if Last(a) == Last(b) then 0 else 2)
  {
    var p, q, x, y := Init(a), Init(b), Last(a), Last(b);
    assert a == p + [x] && b == q + [y];
    GrowLeft(multiset(p), x, multiset(b));
    GrowLeft(multiset(q), y, multiset(a));
    if x == y {
      GrowBoth(multiset(p), multiset(q), x);
    } else {
      GrowLeft(multiset(p), x, multiset(q));
    }
  }

  lemma {:induction false} BagBounds(a: string, b: string)
    ensures BagDifference(multiset(a), multiset(b)) <= 2 * Lev(a, b)
    decreases |a| + |b|
  {
    if a == [] {
      assert multiset(a) - multiset(b) == multiset{} && multiset(b) - multiset(a) == multiset(b);
    } else if b == [] {
      assert multiset(b) - multiset(a) == multiset{} && multiset(a) - multiset(b) == multiset(a);
    } else {
      BagStep(a, b);
      BagBounds(Init(a), b);
      BagBounds(a, Init(b));
      BagBounds(Init(a), Init(b));
    }
  }

  /** bag counts the characters of name. */
  predicate IsBag(bag: map<char, nat>, name: string) {
    (forall ch :: ch in bag <==> ch in name) && forall ch :: ch in bag ==> bag[ch] == multiset(name)[ch]
  }

  method CharBag(name: string) returns (bag: map<char, nat>)
    ensures IsBag(bag, name)
  {
    bag := map[];
    for i := 0 to |name|
      invariant IsBag(bag, name[..i])
    {
      assert name[..i + 1] == name[..i] + [name[i]];
      bag := bag[name[i] := (if name[i] in bag then bag[name[i]] else 0) + 1];
    }
    assert name[..|name|] == name;
  }

  function Count(bag: map<char, nat>, ch: char): nat {
    if ch in bag then bag[ch] else 0
  }

  lemma DropChar(a: multiset<char>, b: multiset<char>, ch: char)
    ensures BagDifference(a, b) == BagDifference(a[ch := 0], b[ch := 0]) +
              (if a[ch] >= b[ch] then a[ch] - b[ch] else b[ch] - a[ch])
  {
    assert a[ch := 0] - b[ch := 0] == (a - b)[ch := 0];
    assert b[ch := 0] - a[ch := 0] == (b - a)[ch := 0];
  }

  method CharBagDistLowerBound(bagA: map<char, nat>, bagB: map<char, nat>, ghost nameA: string, ghost nameB: string)
    returns (bound: nat)
    requires IsBag(bagA, nameA) && IsBag(bagB, nameB)
    ensures bound == (BagDifference(multiset(nameA), multiset(nameB)) + 1) / 2
    ensures bound <= Lev(nameA, nameB)
  {
    var diff := 0;
    var left := bagA.Keys + bagB.Keys;
    ghost var restA, restB := multiset(nameA), multiset(nameB);
    while left != {}
      invariant left <= bagA.Keys + bagB.Keys
      invariant forall ch :: restA[ch] == (if ch in left then Count(bagA, ch) else 0)
      invariant forall ch :: restB[ch] == (if ch in left then Count(bagB, ch) else 0)
      invariant diff + BagDifference(restA, restB) == BagDifference(multiset(nameA), multiset(nameB))
    {
      var ch :| ch in left;
      DropChar(restA, restB, ch);
      restA, restB := restA[ch := 0], restB[ch := 0];
      var ca, cb := Count(bagA, ch), Count(bagB, ch);
      diff := diff + (if ca >= cb then ca - cb else cb - ca);
      left := left - {ch};
    }
    assert restA == multiset{} && restB == multiset{};
    BagBounds(nameA, nameB);
    return (diff + 1) / 2;
  }
}
