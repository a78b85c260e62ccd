/** The order in which the vision model reads image patches: by merge x merge squares. */
module MergeOrder {
  import opened Finite

  // ---------- arithmetic ----------

  lemma MulStep(a: nat, b: nat, n: nat)
    requires a < b
    ensures a * n + n <= b * n
  {
    calc {
      b * n;
      (a + 1 + (b - a - 1)) * n;
      (a + 1) * n + (b - a - 1) * n;
    >= { MulNonNegative(b - a - 1, n); }
      (a + 1) * n;
      a * n + n;
    }
  }

  lemma {:induction false} MulNonNegative(a: nat, b: nat)
    ensures a * b >= 0
  {
    if a > 0 {
      MulNonNegative(a - 1, b);
      assert a * b == (a - 1) * b + b;
    }
  }

  lemma DivMod(q: nat, r: nat, n: nat)
    requires r < n
    ensures (q * n + r) / n == q && (q * n + r) % n == r
  {
    var x := q * n + r;
    var q', r' := x / n, x % n;
    assert x == q' * n + r';
    if q < q' { MulStep(q, q', n); }
    if q' < q { MulStep(q', q, n); }
  }

  lemma DivBound(x: nat, q: nat, n: nat)
    requires n > 0 && x < q * n
    ensures x / n < q
  {
    var q' := x / n;
    assert x == q' * n + x % n;
    if q < q' { MulStep(q, q', n); }
  }

  lemma MixedBound(a: nat, m: nat, b: nat, n: nat)
    requires a < m && b < n
    ensures a * n + b < m * n
  {
    MulStep(a, m, n);
  }

  lemma MulMono(a: nat, b: nat, c: nat, d: nat)
    requires a <= c && b <= d
    ensures a * b <= c * d
    ensures 0 < c && 0 < d && (a < c || b < d) ==> a * b < c * d
  {
    assert c * d - a * b == (c - a) * d + a * (d - b);
    assert (c - a) * d >= 0 && a * (d - b) >= 0;
    assert a < c && 0 < d ==> (c - a) * d > 0;
    assert 0 < a && b < d ==> a * (d - b) > 0;
  }

  function Square(m: nat): (s: nat)
    ensures m > 0 ==> s > 0
  {
    m * m
  }

  function Area(h: nat, w: nat): nat { h * w }

  // ---------- positions and patches ----------

  /** The position written for offset (dr, dc) of block (br, bc), with bw blocks in a row. */
  function Spot(bw: nat, merge: nat, br: nat, bc: nat, dr: nat, dc: nat): nat {
    (br * bw + bc) * Square(merge) + (dr * merge + dc)
  }

  /** The patch at that offset of that block, in a grid gw wide. */
  function Patch(gw: nat, merge: nat, br: nat, bc: nat, dr: nat, dc: nat): nat {
    (merge * br + dr) * gw + (merge * bc + dc)
  }

  /** How many positions the loops fill. */
  function Filled(gh: nat, gw: nat, merge: nat): nat
    requires merge > 0
  {
    Area(Area(gh / merge, gw / merge), Square(merge))
  }

  lemma SpotSteps(bw: nat, merge: nat, br: nat, bc: nat, dr: nat)
    ensures Spot(bw, merge, br, bc, dr, merge) == Spot(bw, merge, br, bc, dr + 1, 0)
    ensures Spot(bw, merge, br, bc, merge, 0) == Spot(bw, merge, br, bc + 1, 0, 0)
    ensures Spot(bw, merge, br, bw, 0, 0) == Spot(bw, merge, br + 1, 0, 0, 0)
  {
    assert dr * merge + merge == (dr + 1) * merge;
    assert (br * bw + bc) * Square(merge) + Square(merge) == (br * bw + (bc + 1)) * Square(merge);
    assert br * bw + bw == (br + 1) * bw;
  }

  /** The four indices can be read back from the position. */
  lemma SpotDigits(bw: nat, merge: nat, br: nat, bc: nat, dr: nat, dc: nat)
    requires bc < bw && dr < merge && dc < merge
    ensures var out := Spot(bw, merge, br, bc, dr, dc);
            && out / Square(merge) == br * bw + bc && out % Square(merge) == dr * merge + dc
            && (br * bw + bc) / bw == br && (br * bw + bc) % bw == bc
            && (dr * merge + dc) / merge == dr && (dr * merge + dc) % merge == dc
  {
    MixedBound(dr, merge, dc, merge);
    DivMod(br * bw + bc, dr * merge + dc, Square(merge));
    DivMod(br, bc, bw);
    DivMod(dr, dc, merge);
  }

  lemma SpotDecides(bw: nat, merge: nat, br: nat, bc: nat, dr: nat, dc: nat, br': nat, bc': nat, dr': nat, dc': nat)
    requires bc < bw && dr < merge && dc < merge && bc' < bw && dr' < merge && dc' < merge
    ensures Spot(bw, merge, br, bc, dr, dc) == Spot(bw, merge, br', bc', dr', dc') ==>
              br == br' && bc == bc' && dr == dr' && dc == dc'
  {
    SpotDigits(bw, merge, br, bc, dr, dc);
    SpotDigits(bw, merge, br', bc', dr', dc');
  }

  lemma InBlock(n: nat, merge: nat, b: nat, d: nat)
    requires merge > 0 && b < n / merge && d < merge
    ensures merge * b + d < n
  {
    MulStep(b, n / merge, merge);
    assert n / merge * merge <= n;
  }

  lemma FilledIs(gh: nat, gw: nat, merge: nat)
    requires merge > 0
    ensures Filled(gh, gw, merge) == (gh / merge * merge) * (gw / merge * merge)
  {
    var p, q := gh / merge, gw / merge;
    assert p * q * (merge * merge) == p * (q * merge) * merge;
    assert (p * merge) * (q * merge) == p * (q * merge) * merge;
  }

  lemma Multiples(n: nat, merge: nat)
    requires merge > 0
    ensures n / merge * merge == n - n % merge >= 0
  {}

  /** The loops fill no more than the grid, and all of it exactly when the merge size divides both sides. */
  lemma FilledFits(gh: nat, gw: nat, merge: nat)
    requires merge > 0
    ensures Filled(gh, gw, merge) <= gh * gw
    ensures gh % merge == 0 && gw % merge == 0 ==> Filled(gh, gw, merge) == gh * gw
    ensures 0 < gh && 0 < gw && (gh % merge != 0 || gw % merge != 0) ==> Filled(gh, gw, merge) < gh * gw
  {
    hide Filled;
    FilledIs(gh, gw, merge);
    Multiples(gh, merge);
    Multiples(gw, merge);
    MulMono(gh - gh % merge, gw - gw % merge, gh, gw);
  }

  lemma SpotBound(gh: nat, gw: nat, merge: nat, br: nat, bc: nat, dr: nat, dc: nat)
    requires merge > 0 && br < gh / merge && bc < gw / merge && dr < merge && dc < merge
    ensures Spot(gw / merge, merge, br, bc, dr, dc) < Filled(gh, gw, merge) <= gh * gw
  {
    var bh, bw := gh / merge, gw / merge;
    MixedBound(dr, merge, dc, merge);
    MixedBound(br, bh, bc, bw);
    MixedBound(br * bw + bc, bh * bw, dr * merge + dc, Square(merge));
    FilledFits(gh, gw, merge);
  }

  lemma PatchBound(gh: nat, gw: nat, merge: nat, br: nat, bc: nat, dr: nat, dc: nat)
    requires merge > 0 && br < gh / merge && bc < gw / merge && dr < merge && dc < merge
    ensures Patch(gw, merge, br, bc, dr, dc) < gh * gw
  {
    InBlock(gh, merge, br, dr);
    InBlock(gw, merge, bc, dc);
    MixedBound(merge * br + dr, gh, merge * bc + dc, gw);
  }

  /** A filled position is the spot of some block and offset. */
  lemma Unpack(gh: nat, gw: nat, merge: nat, out: nat) returns (br: nat, bc: nat, dr: nat, dc: nat)
    requires merge > 0 && out < Filled(gh, gw, merge)
    ensures br < gh / merge && bc < gw / merge && dr < merge && dc < merge
    ensures out == Spot(gw / merge, merge, br, bc, dr, dc)
  {
    var bh, bw, group := gh / merge, gw / merge, Square(merge);
    var b, r := out / group, out % group;
    DivBound(out, Area(bh, bw), group);
    DivBound(r, merge, merge);
    br, bc := SplitIn(b, bh, bw);
    dr, dc := SplitIn(r, merge, merge);
    assert b * group + r == out;
  }

  lemma SplitIn(x: nat, m: nat, n: nat) returns (q: nat, r: nat)
    requires x < m * n
    ensures q < m && r < n && x == q * n + r
  {
    assert n > 0;
    DivBound(x, m, n);
    q, r := x / n, x % n;
  }

  // ---------- the loops ----------

  /** Positions below n hold the patches of their spots, and the rest are still zero. */
  ghost predicate FilledTo(s: seq<nat>, gw: nat, merge: nat, n: nat)
    requires merge > 0
  {
    && n <= |s|
    && (forall br, bc, dr, dc: nat :: WrittenBefore(gw / merge, merge, n, br, bc, dr, dc) ==>
          s[Spot(gw / merge, merge, br, bc, dr, dc)] == Patch(gw, merge, br, bc, dr, dc))
    && (forall k :: n <= k < |s| ==> s[k] == 0)
  }

  predicate WrittenBefore(bw: nat, merge: nat, n: nat, br: nat, bc: nat, dr: nat, dc: nat) {
    bc < bw && dr < merge && dc < merge && Spot(bw, merge, br, bc, dr, dc) < n
  }

  lemma WriteNext(s: seq<nat>, gw: nat, merge: nat, br: nat, bc: nat, dr: nat, dc: nat)
    requires merge > 0 && bc < gw / merge && dr < merge && dc < merge
    requires Spot(gw / merge, merge, br, bc, dr, dc) < |s|
    requires FilledTo(s, gw, merge, Spot(gw / merge, merge, br, bc, dr, dc))
    ensures FilledTo(s[Spot(gw / merge, merge, br, bc, dr, dc) := Patch(gw, merge, br, bc, dr, dc)],
                     gw, merge, Spot(gw / merge, merge, br, bc, dr, dc + 1))
  {
    var bw, out := gw / merge, Spot(gw / merge, merge, br, bc, dr, dc);
    assert Spot(bw, merge, br, bc, dr, dc + 1) == out + 1;
    var s' := s[out := Patch(gw, merge, br, bc, dr, dc)];
    forall br', bc', dr', dc': nat | WrittenBefore(bw, merge, out + 1, br', bc', dr', dc')
      ensures s'[Spot(bw, merge, br', bc', dr', dc')] == Patch(gw, merge, br', bc', dr', dc')
    {
      if Spot(bw, merge, br', bc', dr', dc') == out {
        SpotDecides(bw, merge, br', bc', dr', dc', br, bc, dr, dc);
      } else {
        assert WrittenBefore(bw, merge, out, br', bc', dr', dc');
      }
    }
  }

  /** The two inner loops: one block. */
  method FillBlock(idx: array<nat>, gh: nat, gw: nat, merge: nat, br: nat, bc: nat)
    requires merge > 0 && idx.Length == gh * gw && br < gh / merge && bc < gw / merge
    requires FilledTo(idx[..], gw, merge, Spot(gw / merge, merge, br, bc, 0, 0))
    modifies idx
    ensures FilledTo(idx[..], gw, merge, Spot(gw / merge, merge, br, bc + 1, 0, 0))
  {
    for dr := 0 to merge
      invariant FilledTo(idx[..], gw, merge, Spot(gw / merge, merge, br, bc, dr, 0))
    {
      for dc := 0 to merge
        invariant FilledTo(idx[..], gw, merge, Spot(gw / merge, merge, br, bc, dr, dc))
      {
        FillOne(idx, gh, gw, merge, br, bc, dr, dc);
      }
      SpotSteps(gw / merge, merge, br, bc, dr);
    }
    SpotSteps(gw / merge, merge, br, bc, 0);
  }

  method FillOne(idx: array<nat>, gh: nat, gw: nat, merge: nat, br: nat, bc: nat, dr: nat, dc: nat)
    requires merge > 0 && idx.Length == gh * gw
    requires br < gh / merge && bc < gw / merge && dr < merge && dc < merge
    requires FilledTo(idx[..], gw, merge, Spot(gw / merge, merge, br, bc, dr, dc))
    modifies idx
    ensures FilledTo(idx[..], gw, merge, Spot(gw / merge, merge, br, bc, dr, dc + 1))
  {
    SpotBound(gh, gw, merge, br, bc, dr, dc);
    ghost var before := idx[..];
    WriteNext(before, gw, merge, br, bc, dr, dc);
    var bw, group := gw / merge, Square(merge);
    var out := (br * bw + bc) * group + (dr * merge + dc);
    var src := (merge * br + dr) * gw + (merge * bc + dc);
    idx[out] := src;
    assert idx[..] == before[out := src];
  }

  method MergeOrderIndices(gh: nat, gw: nat, merge: nat) returns (idx: array<nat>)
    requires merge > 0
    ensures fresh(idx) && IsTable(idx[..], gh, gw, merge)
  {
    var bh, bw := gh / merge, gw / merge;
    idx := new nat[gh * gw](_ => 0);
    for br := 0 to bh
      invariant FilledTo(idx[..], gw, merge, Spot(bw, merge, br, 0, 0, 0))
    {
      for bc := 0 to bw
        invariant FilledTo(idx[..], gw, merge, Spot(bw, merge, br, bc, 0, 0))
      {
        FillBlock(idx, gh, gw, merge, br, bc);
      }
      SpotSteps(bw, merge, br, 0, 0);
    }
    assert Spot(bw, merge, bh, 0, 0, 0) == Filled(gh, gw, merge);
  }

  // ---------- what the table is ----------

  ghost predicate IsTable(s: seq<nat>, gh: nat, gw: nat, merge: nat)
    requires merge > 0
  {
    |s| == gh * gw && FilledTo(s, gw, merge, Filled(gh, gw, merge))
  }

  /** A patch decides its block and offset. */
  lemma PatchDecides(gw: nat, merge: nat, br: nat, bc: nat, dr: nat, dc: nat, br': nat, bc': nat, dr': nat, dc': nat)
    requires merge > 0 && bc < gw / merge && dr < merge && dc < merge
    requires bc' < gw / merge && dr' < merge && dc' < merge
    requires Patch(gw, merge, br, bc, dr, dc) == Patch(gw, merge, br', bc', dr', dc')
    ensures br == br' && bc == bc' && dr == dr' && dc == dc'
  {
    PatchDigits(gw, merge, br, bc, dr, dc);
    PatchDigits(gw, merge, br', bc', dr', dc');
    Digits(merge, br, dr, br', dr');
    Digits(merge, bc, dc, bc', dc');
  }

  lemma PatchDigits(gw: nat, merge: nat, br: nat, bc: nat, dr: nat, dc: nat)
    requires merge > 0 && bc < gw / merge && dr < merge && dc < merge
    ensures gw > 0
    ensures Patch(gw, merge, br, bc, dr, dc) / gw == merge * br + dr
    ensures Patch(gw, merge, br, bc, dr, dc) % gw == merge * bc + dc
  {
    InBlock(gw, merge, bc, dc);
    DivMod(merge * br + dr, merge * bc + dc, gw);
  }

  lemma Digits(merge: nat, b: nat, d: nat, b': nat, d': nat)
    requires d < merge && d' < merge && merge * b + d == merge * b' + d'
    ensures b == b' && d == d'
  {
    DivMod(b, d, merge);
    DivMod(b', d', merge);
  }

  lemma EntryAt(s: seq<nat>, gh: nat, gw: nat, merge: nat, k: nat) returns (br: nat, bc: nat, dr: nat, dc: nat)
    requires merge > 0 && k < |s|
    ensures IsTable(s, gh, gw, merge) && k < Filled(gh, gw, merge) ==>
              && br < gh / merge && bc < gw / merge && dr < merge && dc < merge
              && k == Spot(gw / merge, merge, br, bc, dr, dc) && s[k] == Patch(gw, merge, br, bc, dr, dc) < gh * gw
  {
    br, bc, dr, dc := 0, 0, 0, 0;
    if IsTable(s, gh, gw, merge) && k < Filled(gh, gw, merge) {
      br, bc, dr, dc := Unpack(gh, gw, merge, k);
      assert WrittenBefore(gw / merge, merge, Filled(gh, gw, merge), br, bc, dr, dc);
      PatchBound(gh, gw, merge, br, bc, dr, dc);
    }
  }

  lemma FullTable(s: seq<nat>, gh: nat, gw: nat, merge: nat)
    requires merge > 0 && IsTable(s, gh, gw, merge) && gh % merge == 0 && gw % merge == 0
    ensures IsPermutation(s)
  {
    FilledFits(gh, gw, merge);
    forall i | 0 <= i < |s|
      ensures s[i] < |s|
    {
      var br, bc, dr, dc := EntryAt(s, gh, gw, merge, i);
    }
    forall i, j | 0 <= i < j < |s|
      ensures s[i] != s[j]
    {
      var br, bc, dr, dc := EntryAt(s, gh, gw, merge, i);
      var br', bc', dr', dc' := EntryAt(s, gh, gw, merge, j);
      if s[i] == s[j] { PatchDecides(gw, merge, br, bc, dr, dc, br', bc', dr', dc'); }
    }
  }

  /** Short of the whole grid, patch 0 stands both first and last. */
  lemma RepeatsZero(s: seq<nat>, gh: nat, gw: nat, merge: nat)
    requires merge > 0 && IsTable(s, gh, gw, merge) && |s| > 1 && Filled(gh, gw, merge) < |s|
    ensures s[0] == 0 == s[|s| - 1]
  {
    if Filled(gh, gw, merge) > 0 {
      var br, bc, dr, dc := EntryAt(s, gh, gw, merge, 0);
      assert Spot(gw / merge, merge, 0, 0, 0, 0) == 0 && Patch(gw, merge, 0, 0, 0, 0) == 0;
      SpotDecides(gw / merge, merge, br, bc, dr, dc, 0, 0, 0, 0);
    }
  }

  /** The table is a permutation of the patches exactly when the merge size divides both sides of the grid, or there
      is at most one patch. */
  lemma TableIsPermutation(s: seq<nat>, gh: nat, gw: nat, merge: nat)
    requires merge > 0
    ensures IsTable(s, gh, gw, merge) ==>
              (IsPermutation(s) <==> (gh % merge == 0 && gw % merge == 0) || gh * gw <= 1)
  {
    if IsTable(s, gh, gw, merge) {
      FilledFits(gh, gw, merge);
      if gh % merge == 0 && gw % merge == 0 {
        FullTable(s, gh, gw, merge);
      } else if |s| > 1 {
        assert gh > 0 && gw > 0;
        RepeatsZero(s, gh, gw, merge);
      } else if |s| == 1 {
        assert gh > 0 && gw > 0;
        assert s[0] == 0;
      }
    }
  }

  /** The group of merge * merge entries for block (br, bc) is that square of the grid, row by row. */
  lemma GroupIsSquare(s: seq<nat>, gh: nat, gw: nat, merge: nat, br: nat, bc: nat, dr: nat, dc: nat)
    requires merge > 0 && IsTable(s, gh, gw, merge)
    requires br < gh / merge && bc < gw / merge && dr < merge && dc < merge
    ensures Spot(gw / merge, merge, br, bc, dr, dc) < |s|
    ensures s[Spot(gw / merge, merge, br, bc, dr, dc)] == Patch(gw, merge, br, bc, dr, dc)
    ensures merge * br + dr < gh && merge * bc + dc < gw
  {
    SpotBound(gh, gw, merge, br, bc, dr, dc);
    assert WrittenBefore(gw / merge, merge, Filled(gh, gw, merge), br, bc, dr, dc);
    InBlock(gh, merge, br, dr);
    InBlock(gw, merge, bc, dc);
  }
}
