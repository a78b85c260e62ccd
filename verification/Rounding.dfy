/** Rounding to a table: the FP4 E2M1 element values (OCP Microscaling Formats v1.0, section 5.3.3) and the grid of
    nonzero UE4M3 block scales, over the reals. */
module Rounding {
  function Abs(x: real): real { if x < 0.0 then -x else x }

  function Clip(x: real, lo: real, hi: real): real { if x < lo then lo else if x > hi then hi else x }

  ghost predicate Increasing(s: seq<real>) {
    forall i, j :: 0 <= i < j < |s| ==> s[i] < s[j]
  }

  /** How many entries come before x: those below it, or with right those no greater. */
  function SearchSorted(s: seq<real>, x: real, right: bool): (k: nat)
    ensures k <= |s|
    ensures forall i :: 0 <= i < k ==> s[i] <= x && (!right ==> s[i] < x)
    ensures k < |s| ==> s[k] >= x && (right ==> s[k] > x)
  {
    SearchFrom(s, x, right, 0)
  }

  function SearchFrom(s: seq<real>, x: real, right: bool, from: nat): (k: nat)
    requires from <= |s|
    requires forall i :: 0 <= i < from ==> s[i] <= x && (!right ==> s[i] < x)
    ensures from <= k <= |s|
    ensures forall i :: 0 <= i < k ==> s[i] <= x && (!right ==> s[i] < x)
    ensures k < |s| ==> s[k] >= x && (right ==> s[k] > x)
    decreases |s| - from
  {
    if from < |s| && (s[from] < x || (right && s[from] == x)) then SearchFrom(s, x, right, from + 1) else from
  }

  function Midpoints(vals: seq<real>): (mids: seq<real>)
    requires vals != []
    ensures |mids| == |vals| - 1
    ensures forall i :: 0 <= i < |mids| ==> mids[i] == (vals[i] + vals[i + 1]) / 2.0
  {
    seq(|vals| - 1, i requires 0 <= i < |vals| - 1 => (vals[i] + vals[i + 1]) / 2.0)
  }

  /** Counting midpoints finds a nearest value, whichever way ties go. */
  lemma MidpointsFindNearest(vals: seq<real>, x: real, right: bool, j: nat)
    requires vals != [] && Increasing(vals) && j < |vals|
    ensures Abs(vals[SearchSorted(Midpoints(vals), x, right)] - x) <= Abs(vals[j] - x)
  {
    var mids := Midpoints(vals);
    var k := SearchSorted(mids, x, right);
    if j < k {
      assert mids[k - 1] <= x;
      assert j == k - 1 || vals[j] < vals[k - 1];
    } else if k < j {
      assert mids[k] >= x;
      assert j == k + 1 || vals[k + 1] < vals[j];
    }
  }

  /** Where an entry at a midpoint counts as passed, the upper of two nearest values is found. */
  lemma MidpointTiesGoUp(vals: seq<real>, x: real, j: nat)
    requires vals != [] && Increasing(vals) && j < |vals|
    ensures var k := SearchSorted(Midpoints(vals), x, true);
            Abs(vals[k] - x) == Abs(vals[j] - x) ==> j <= k
  {
    var mids := Midpoints(vals);
    var k := SearchSorted(mids, x, true);
    if k < j {
      assert mids[k] > x;
      assert j == k + 1 || vals[k + 1] < vals[j];
    }
  }

  // ---------- E2M1 ----------

  const E2M1_VALUES: seq<real> := [0.0, 0.5, 1.0, 1.5, 2.0, 3.0, 4.0, 6.0]
  const E2M1_LOWER_ON_TIE_MIDPOINTS: seq<real> := [0.25, 0.75, 1.25, 1.75, 2.5, 3.5, 5.0]

  lemma E2m1Midpoints()
    ensures Midpoints(E2M1_VALUES) == E2M1_LOWER_ON_TIE_MIDPOINTS && Increasing(E2M1_VALUES)
  {
    var v, m := E2M1_VALUES, Midpoints(E2M1_VALUES);
    assert v[0] < v[1] < v[2] < v[3] < v[4] < v[5] < v[6] < v[7];
    StepsIncrease(v);
    assert m[0] == 0.25 && m[1] == 0.75 && m[2] == 1.25 && m[3] == 1.75 && m[4] == 2.5 && m[5] == 3.5 && m[6] == 5.0;
  }

  lemma StepsIncrease(s: seq<real>)
    requires forall i :: 0 < i < |s| ==> s[i - 1] < s[i]
    ensures Increasing(s)
  {
    forall i, j | 0 <= i < j < |s|
      ensures s[i] < s[j]
    {
      StepsReach(s, i, j);
    }
  }

  lemma {:induction false} StepsReach(s: seq<real>, i: nat, j: nat)
    requires i < j < |s| && forall i :: 0 < i < |s| ==> s[i - 1] < s[i]
    ensures s[i] < s[j]
  {
    if i < j - 1 { StepsReach(s, i, j - 1); }
  }

  /** Four bits: a sign bit and a three-bit magnitude code. */
  type Nibble = n: nat | n < 16

  function EncodeE2m1(x: real): Nibble {
    var code := Magnitude(Abs(x));
    if x < 0.0 then 8 + code else code
  }

  function DecodeE2m1(n: Nibble): real {
    var mag := E2M1_VALUES[n % 8];
    if n >= 8 then -mag else mag
  }

  /** The element codes count halves up to 4, and two codes on the value doubles; the sign bit negates. */
  lemma ElementsDouble(n: nat)
    requires n < 8
    ensures n <= 4 ==> DecodeE2m1(n) == n as real / 2.0
    ensures 2 <= n < 6 ==> DecodeE2m1(n + 2) == 2.0 * DecodeE2m1(n)
    ensures DecodeE2m1(n + 8) == -DecodeE2m1(n)
  {}

  function Magnitude(x: real): (code: nat)
    ensures code < 8
  {
    SearchSorted(E2M1_LOWER_ON_TIE_MIDPOINTS, x, false)
  }

  lemma MagnitudesAreSmall(j: nat)
    requires j < 8
    ensures 0.0 <= E2M1_VALUES[j] <= 6.0
  {}

  /** Clipping a magnitude to 6 first does not change which element is nearest. */
  lemma MagnitudeIsNearest(a: real, j: nat)
    requires a >= 0.0 && j < 8
    ensures Abs(E2M1_VALUES[Magnitude(Clip(a, -6.0, 6.0))] - a) <= Abs(E2M1_VALUES[j] - a)
  {
    E2m1Midpoints();
    var x := Clip(a, -6.0, 6.0);
    MidpointsFindNearest(E2M1_VALUES, x, false, j);
    MagnitudesAreSmall(j);
    MagnitudesAreSmall(Magnitude(x));
    if a > 6.0 { MidpointsFindNearest(E2M1_VALUES, x, false, 7); }
  }

  lemma SignsKeepNearest(y: real, q: real, v: real)
    requires q >= 0.0 && v >= 0.0 && Abs(q - Abs(y)) <= Abs(v - Abs(y))
    ensures Abs((if y < 0.0 then -q else q) - y) <= Abs(v - y)
    ensures Abs((if y < 0.0 then -q else q) - y) <= Abs(-v - y)
  {}

  /** The element chosen for a clipped value is as near to the value as any element is. */
  lemma EncodeIsNearest(y: real, n: Nibble)
    ensures Abs(DecodeE2m1(EncodeE2m1(Clip(y, -6.0, 6.0))) - y) <= Abs(DecodeE2m1(n) - y)
  {
    var x := Clip(y, -6.0, 6.0);
    var code := Magnitude(Abs(x));
    assert Abs(x) == Clip(Abs(y), -6.0, 6.0) && (x < 0.0 <==> y < 0.0);
    MagnitudeIsNearest(Abs(y), n % 8);
    MagnitudesAreSmall(code);
    MagnitudesAreSmall(n % 8);
    EncodeParts(x);
    SignsKeepNearest(y, E2M1_VALUES[code], E2M1_VALUES[n % 8]);
  }

  lemma EncodeParts(x: real)
    ensures EncodeE2m1(x) % 8 == Magnitude(Abs(x)) && (EncodeE2m1(x) >= 8 <==> x < 0.0)
  {}

  /** A value halfway between two elements goes to the one nearer zero. */
  lemma TiesGoLower(i: nat)
    requires i < 7
    ensures DecodeE2m1(EncodeE2m1(E2M1_LOWER_ON_TIE_MIDPOINTS[i])) == E2M1_VALUES[i]
  {
    var mids := E2M1_LOWER_ON_TIE_MIDPOINTS;
    assert mids[0] < mids[1] < mids[2] < mids[3] < mids[4] < mids[5] < mids[6];
    StepsIncrease(mids);
    assert Magnitude(mids[i]) == i;
    EncodeParts(mids[i]);
  }

  // ---------- UE4M3 ----------

  function Two(e: int): (t: real)
    ensures t > 0.0
    decreases if e < 0 then -e else e
  {
    if e == 0 then 1.0 else if e > 0 then 2.0 * Two(e - 1) else Two(e + 1) / 2.0
  }

  lemma TwoDoubles(e: int)
    ensures Two(e + 1) == 2.0 * Two(e)
  {}

  const SUBNORMAL_STEP := 0.001953125

  /** The value of an unsigned E4M3 code: subnormal below 8, then eight steps to each power of two. */
  function DecodeUe4m3(code: nat): real
    requires code < 0x7F
  {
    var exp, mant := code / 8, (code % 8) as real;
    if exp == 0 then mant * SUBNORMAL_STEP else (1.0 + mant / 8.0) * Two(exp - 7)
  }

  lemma NextIsGreater(code: nat)
    requires code + 1 < 0x7F
    ensures DecodeUe4m3(code) < DecodeUe4m3(code + 1)
  {
    var exp, mant := code / 8, code % 8;
    if mant < 7 {
      assert (code + 1) / 8 == exp && (code + 1) % 8 == mant + 1;
      if exp > 0 { ScaleMono(1.0 + mant as real / 8.0, 1.0 + (mant + 1) as real / 8.0, Two(exp - 7)); }
    } else {
      assert (code + 1) / 8 == exp + 1 && (code + 1) % 8 == 0;
      if exp > 0 {
        TwoDoubles(exp - 7);
        ScaleMono(1.0 + 7.0 / 8.0, 2.0, Two(exp - 7));
      } else {
        assert Two(-6) == 0.015625;
      }
    }
  }

  /** The codes up to 16 count steps of the subnormals, and eight codes on the value doubles: with that every code has
      its value, the last one 448. */
  lemma CodesDouble(code: nat)
    requires code < 0x7F
    ensures code <= 16 ==> DecodeUe4m3(code) == code as real * SUBNORMAL_STEP
    ensures 8 <= code && code + 8 < 0x7F ==> DecodeUe4m3(code + 8) == 2.0 * DecodeUe4m3(code)
    ensures DecodeUe4m3(0x7E) == 448.0
  {
    hide Two;
    TwoPowers();
    if 8 <= code && code + 8 < 0x7F { NormalDoubles(code); }
    if 8 <= code < 16 { assert code / 8 == 1 && code % 8 == code - 8; }
  }

  lemma NormalDoubles(code: nat)
    requires 8 <= code && code + 8 < 0x7F
    ensures DecodeUe4m3(code + 8) == 2.0 * DecodeUe4m3(code)
  {
    assert (code + 8) / 8 == code / 8 + 1 && (code + 8) % 8 == code % 8;
    TwoDoubles(code / 8 - 7);
    hide Two;
    var mant, t := 1.0 + (code % 8) as real / 8.0, Two(code / 8 - 7);
    assert mant * (2.0 * t) == 2.0 * (mant * t);
  }

  lemma TwoPowers()
    ensures Two(-6) == 0.015625 && Two(-5) == 0.03125 && Two(8) == 256.0
  {
    assert Two(-1) == 0.5 && Two(-2) == 0.25 && Two(-3) == 0.125 && Two(-4) == 0.0625 && Two(-5) == 0.03125;
    assert Two(1) == 2.0 && Two(2) == 4.0 && Two(3) == 8.0 && Two(4) == 16.0;
    assert Two(5) == 32.0 && Two(6) == 64.0 && Two(7) == 128.0;
  }

  lemma ScaleMono(a: real, b: real, t: real)
    requires a < b && t > 0.0
    ensures a * t < b * t
  {}

  lemma {:induction false} DecodeIncreases(a: nat, b: nat)
    requires a < b < 0x7F
    ensures DecodeUe4m3(a) < DecodeUe4m3(b)
  {
    NextIsGreater(b - 1);
    if a < b - 1 { DecodeIncreases(a, b - 1); }
  }

  const GRID_SIZE: nat := 126

  /** The scale grid: code 0 decodes to zero and is left out, so entry i is code i + 1. */
  function ScaleGrid(): (grid: seq<real>)
    ensures |grid| == GRID_SIZE && forall i :: 0 <= i < GRID_SIZE ==> grid[i] == DecodeUe4m3(i + 1)
  {
    seq(GRID_SIZE, i requires 0 <= i < GRID_SIZE => DecodeUe4m3(i + 1))
  }

  /** The codes decode in order, so the sorted nonzero values are those of codes 1, 2, ... */
  lemma GridIncreases()
    ensures Increasing(ScaleGrid()) && forall i :: 0 <= i < GRID_SIZE ==> ScaleGrid()[i] > 0.0
  {
    forall i, j | 0 <= i < j < GRID_SIZE
      ensures ScaleGrid()[i] < ScaleGrid()[j]
    {
      DecodeIncreases(i + 1, j + 1);
    }
    forall i | 0 <= i < GRID_SIZE
      ensures ScaleGrid()[i] > 0.0
    {
      DecodeIncreases(0, i + 1);
    }
  }

  // ---------- where the scale search starts ----------

  function AbsMax(block: seq<real>): (m: real)
    ensures m >= 0.0 && forall k :: 0 <= k < |block| ==> Abs(block[k]) <= m
    ensures m == 0.0 || exists k :: 0 <= k < |block| && Abs(block[k]) == m
  {
    if block == [] then 0.0
    else
      var n := |block| - 1;
      var before := AbsMax(block[..n]);
      assert before == 0.0 || exists k :: 0 <= k < n && Abs(block[k]) == before by {
        if k :| 0 <= k < n && Abs(block[..n][k]) == before { assert Abs(block[k]) == before; }
      }
      if Abs(block[n]) > before then Abs(block[n]) else before
  }

  /** The scale that would put the largest element of the block on 6, kept within the grid. */
  function IdealScale(block: seq<real>, g: real): real {
    Clip(g * LocalScale(AbsMax(block)), 0.0, 448.0)
  }

  function LocalScale(amax: real): real { if amax == 0.0 then 1.0 else amax / 6.0 }

  function RtnIndex(block: seq<real>, g: real): (i: nat)
    ensures i < GRID_SIZE
  {
    SearchSorted(Midpoints(ScaleGrid()), IdealScale(block, g), true)
  }

  // ---------- what that start means ----------

  /** m is the largest magnitude of the block. */
  ghost predicate IsLargest(block: seq<real>, m: real) {
    (forall k :: 0 <= k < |block| ==> Abs(block[k]) <= m) && exists k :: 0 <= k < |block| && Abs(block[k]) == m
  }

  /** Under scale d over g the largest magnitude becomes 6, if the grid reaches so far; 448 is its last entry. A block
      of zeros has the scale of an element 6. */
  ghost predicate PutsLargestOnSix(block: seq<real>, g: real, d: real) {
    exists m :: IsLargest(block, m) && OnSix(m, g, d)
  }

  predicate OnSix(m: real, g: real, d: real) {
    if m == 0.0 then d == (if g <= 448.0 then g else 448.0)
    else if g * m <= 2688.0 then m * g == 6.0 * d
    else d == 448.0
  }

  /** There is just one such scale, and it is the one that the search rounds. */
  lemma IdealScaleIs(block: seq<real>, g: real, d: real)
    requires block != [] && g > 0.0
    ensures PutsLargestOnSix(block, g, d) <==> d == IdealScale(block, g)
  {
    hide OnSix, IsLargest, AbsMax, LocalScale;
    var amax := AbsMax(block);
    LargestIsAbsMax(block);
    OnSixIs(amax, g, d);
    assert IsLargest(block, amax);
  }

  lemma OnSixIs(m: real, g: real, d: real)
    requires m >= 0.0 && g > 0.0
    ensures OnSix(m, g, d) <==> d == Clip(g * LocalScale(m), 0.0, 448.0)
  {
    if m > 0.0 {
      ScaleOnSix(m, g);
    } else {
      assert g * 1.0 == g;
    }
  }

  lemma LargestIsAbsMax(block: seq<real>)
    requires block != []
    ensures forall m :: IsLargest(block, m) <==> m == AbsMax(block)
  {
    assert Abs(block[0]) >= 0.0;
  }

  lemma ScaleOnSix(m: real, g: real)
    requires m > 0.0 && g > 0.0
    ensures g * (m / 6.0) > 0.0 && 6.0 * (g * (m / 6.0)) == m * g == g * m
  {
    assert g * (m / 6.0) == g * m / 6.0;
    assert g * m > 0.0;
  }

  /** Entry i of the grid is a nearest one to d, and the upper one of two nearest. */
  ghost predicate RoundsTo(d: real, i: nat) {
    i < GRID_SIZE && forall j: nat :: j < GRID_SIZE ==> NoFarther(d, i, j)
  }

  predicate NoFarther(d: real, i: nat, j: nat)
    requires i < GRID_SIZE && j < GRID_SIZE
  {
    var off, other := Abs(ScaleGrid()[i] - d), Abs(ScaleGrid()[j] - d);
    off <= other && (off == other ==> j <= i)
  }

  /** The search starts from the entry that the scale just described rounds to. */
  lemma RtnIsNearest(block: seq<real>, g: real, d: real, i: nat)
    requires block != [] && g > 0.0 && PutsLargestOnSix(block, g, d)
    ensures RoundsTo(d, i) <==> i == RtnIndex(block, g)
  {
    IdealScaleIs(block, g, d);
    hide NoFarther, IdealScale, PutsLargestOnSix;
    var rtn := RtnIndex(block, g);
    forall j: nat | j < GRID_SIZE
      ensures NoFarther(d, rtn, j)
    {
      SearchIsNoFarther(d, j);
    }
    if RoundsTo(d, i) { NotBothFarther(d, i, rtn); }
  }

  lemma SearchIsNoFarther(d: real, j: nat)
    requires j < GRID_SIZE
    ensures NoFarther(d, SearchSorted(Midpoints(ScaleGrid()), d, true), j)
  {
    GridIncreases();
    MidpointsFindNearest(ScaleGrid(), d, true, j);
    MidpointTiesGoUp(ScaleGrid(), d, j);
  }

  lemma NotBothFarther(d: real, i: nat, j: nat)
    requires i < GRID_SIZE && j < GRID_SIZE && NoFarther(d, i, j) && NoFarther(d, j, i)
    ensures i == j
  {}
}
