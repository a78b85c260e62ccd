/** The NVFP4 format, and what its closed-form quantizer guarantees. */
module Nvfp4 {
  import opened Rounding
  import opened BlockSearch

  const CLOSED_FORM_ROW_CHUNK := 2048

  function EncodeClipped(y: real): nat { EncodeE2m1(Clip(y, -6.0, 6.0)) }

  function DecodeCode(n: nat): real { if n < 16 then DecodeE2m1(n) else 0.0 }

  function Nvfp4(): Format {
    Format(EncodeClipped, DecodeCode, ScaleGrid(), RtnIndex)
  }

  lemma Nvfp4IsSound()
    ensures Sound(Nvfp4())
  {
    forall y: real, n: nat | n < 16
      ensures NoNearer(Nvfp4(), y, n)
    {
      EncodeIsNearest(y, n);
    }
    GridIncreases();
  }

  method QuantizeRowsNvfp4(w: seq<seq<real>>, g: real) returns (packed: seq<seq<nat>>, scales: seq<seq<nat>>)
    requires g > 0.0 && AllBlocked(w)
    ensures RowsDone(Nvfp4(), w, g, packed, scales)
  {
    Nvfp4IsSound();
    packed, scales := QuantizeRowsClosedForm(Nvfp4(), w, g, CLOSED_FORM_ROW_CHUNK);
  }

  /** What the bytes of a row decode to: E2M1 codes under UE4M3 scales over the global scale. */
  function Reread(packed: seq<nat>, scales: seq<nat>, b: nat, g: real): (block: seq<real>)
    requires g > 0.0 && b < |scales| && 2 * |packed| == NVFP4_BLOCK * |scales|
    ensures |block| == NVFP4_BLOCK
  {
    var scale := if scales[b] < 0x7F then DecodeUe4m3(scales[b]) else 0.0;
    Dequantized(Nvfp4(), BlockAt(Unpack(packed), b), scale, g)
  }

  /** Grid entry i is a candidate for the block: 6 entries below to 10 above the one that the scale which puts the
      block's largest element on 6 rounds to. */
  ghost predicate Candidate(block: seq<real>, g: real, i: nat) {
    i < GRID_SIZE && exists d, r: nat :: PutsLargestOnSix(block, g, d) && RoundsTo(d, r) && r - 6 <= i <= r + 10
  }

  lemma CandidatesAreTried(block: seq<real>, g: real, i: nat)
    requires block != [] && g > 0.0
    ensures Candidate(block, g, i) <==> Window(GRID_SIZE, RtnIndex(block, g), i)
  {
    var d, r := IdealScale(block, g), RtnIndex(block, g);
    IdealScaleIs(block, g, d);
    RtnIsNearest(block, g, d, r);
    if Candidate(block, g, i) {
      var d', r': nat :| PutsLargestOnSix(block, g, d') && RoundsTo(d', r') && r' - 6 <= i <= r' + 10;
      RtnIsNearest(block, g, d', r');
    }
  }

  /** Every scale code decodes to a positive scale, and reading the bytes back gives each block an error no greater
      than any E2M1 codes under any candidate UE4M3 scale. */
  lemma Nvfp4IsOptimal(row: seq<real>, g: real, packed: seq<nat>, scales: seq<nat>, b: nat, i: nat, codes: seq<nat>)
    requires g > 0.0 && Blocked(row) && b < |scales| && 2 * |packed| == NVFP4_BLOCK * |scales| == |row|
    requires i < GRID_SIZE && |codes| == NVFP4_BLOCK && Nibbles(codes)
    ensures RowDone(Nvfp4(), row, g, packed, scales) ==>
              0 < scales[b] < 0x7F && DecodeUe4m3(scales[b]) > 0.0
    ensures RowDone(Nvfp4(), row, g, packed, scales) && Candidate(BlockAt(row, b), g, i) ==>
              SquaredError(Reread(packed, scales, b, g), BlockAt(row, b)) <=
              SquaredError(Dequantized(Nvfp4(), codes, DecodeUe4m3(i + 1), g), BlockAt(row, b))
  {
    Nvfp4IsSound();
    if RowDone(Nvfp4(), row, g, packed, scales) {
      ScaleIsPositive(row, g, packed, scales, b);
      CandidatesAreTried(BlockAt(row, b), g, i);
      if Candidate(BlockAt(row, b), g, i) {
        RowIsOptimal(Nvfp4(), row, g, packed, scales, b, i, codes);
      }
    }
  }

  /** A block that some codes under a candidate scale stand for exactly is read back exactly. */
  lemma CandidateIsLossless(row: seq<real>, g: real, packed: seq<nat>, scales: seq<nat>, b: nat, i: nat, codes: seq<nat>)
    requires g > 0.0 && Blocked(row) && b < |scales| && 2 * |packed| == NVFP4_BLOCK * |scales| == |row|
    requires RowDone(Nvfp4(), row, g, packed, scales)
    requires i < GRID_SIZE && Candidate(BlockAt(row, b), g, i) && |codes| == NVFP4_BLOCK && Nibbles(codes)
    requires BlockAt(row, b) == Dequantized(Nvfp4(), codes, DecodeUe4m3(i + 1), g)
    ensures Reread(packed, scales, b, g) == BlockAt(row, b)
  {
    hide RowDone, Candidate, Reread, Dequantized, BlockAt;
    Nvfp4IsOptimal(row, g, packed, scales, b, i, codes);
    ErrorIsNonNegative(BlockAt(row, b), BlockAt(row, b));
    ErrorIsNonNegative(Reread(packed, scales, b, g), BlockAt(row, b));
  }

  /** So a block of multiples of a grid scale over the global one, some of them 6 or -6, comes back as it was. */
  lemma FullRangeIsLossless(row: seq<real>, g: real, packed: seq<nat>, scales: seq<nat>, b: nat, i: nat, codes: seq<nat>)
    requires g > 0.0 && Blocked(row) && b < |scales| && 2 * |packed| == NVFP4_BLOCK * |scales| == |row|
    requires RowDone(Nvfp4(), row, g, packed, scales)
    requires i < GRID_SIZE && |codes| == NVFP4_BLOCK && Nibbles(codes) && exists k :: 0 <= k < |codes| && codes[k] % 8 == 7
    requires BlockAt(row, b) == Dequantized(Nvfp4(), codes, DecodeUe4m3(i + 1), g)
    ensures Reread(packed, scales, b, g) == BlockAt(row, b)
  {
    hide RowDone, Reread;
    FullRangeIsOnSix(BlockAt(row, b), g, i, codes);
    OnGrid(i);
    assert Candidate(BlockAt(row, b), g, i);
    CandidateIsLossless(row, g, packed, scales, b, i, codes);
  }

  lemma OnGrid(i: nat)
    requires i < GRID_SIZE
    ensures RoundsTo(DecodeUe4m3(i + 1), i)
  {
    GridIncreases();
    var d := DecodeUe4m3(i + 1);
    forall j: nat | j < GRID_SIZE
      ensures NoFarther(d, i, j)
    {
      assert j < i ==> ScaleGrid()[j] < ScaleGrid()[i];
      assert i < j ==> ScaleGrid()[i] < ScaleGrid()[j];
    }
  }

  lemma FullRangeIsOnSix(block: seq<real>, g: real, i: nat, codes: seq<nat>)
    requires g > 0.0 && i < GRID_SIZE && Nibbles(codes) && exists k :: 0 <= k < |codes| && codes[k] % 8 == 7
    requires block == Dequantized(Nvfp4(), codes, DecodeUe4m3(i + 1), g)
    ensures PutsLargestOnSix(block, g, DecodeUe4m3(i + 1))
  {
    var d := DecodeUe4m3(i + 1);
    hide IsLargest, DecodeUe4m3, DecodedBy;
    LastOnGrid(i);
    SixScales(d, g);
    LargestElement(block, codes, d / g);
  }

  lemma SixScales(d: real, g: real)
    requires g > 0.0 && 0.0 < d <= 448.0
    ensures d / g > 0.0 && OnSix(6.0 * (d / g), g, d)
  {
    var s := d / g;
    assert s * g == d;
    assert s > 0.0;
    assert 6.0 * s * g == 6.0 * (s * g) == g * (6.0 * s);
  }

  lemma LargestElement(block: seq<real>, codes: seq<nat>, s: real)
    requires s > 0.0 && Nibbles(codes) && exists k :: 0 <= k < |codes| && codes[k] % 8 == 7
    requires block == DecodedBy(Nvfp4(), codes, s)
    ensures IsLargest(block, 6.0 * s)
  {
    var m := 6.0 * s;
    forall k | 0 <= k < |codes|
      ensures Abs(block[k]) <= m && (codes[k] % 8 == 7 ==> Abs(block[k]) == m)
    {
      assert block[k] == DecodeCode(codes[k]) * s;
      ElementSize(codes[k], s);
    }
    var top :| 0 <= top < |codes| && codes[top] % 8 == 7;
    assert Abs(block[top]) == m;
  }

  lemma ElementSize(n: nat, s: real)
    requires n < 16 && s > 0.0
    ensures Abs(DecodeCode(n) * s) <= 6.0 * s && (n % 8 == 7 ==> Abs(DecodeCode(n) * s) == 6.0 * s)
  {
    MagnitudesAreSmall(n % 8);
    var v := E2M1_VALUES[n % 8];
    assert 0.0 <= v * s <= 6.0 * s;
    assert (-v) * s == -(v * s);
  }

  lemma LastOnGrid(i: nat)
    requires i < GRID_SIZE
    ensures 0.0 < DecodeUe4m3(i + 1) <= 448.0
  {
    DecodeIncreases(0, i + 1);
    CodesDouble(0x7E);
    if i + 1 < 0x7E { DecodeIncreases(i + 1, 0x7E); }
  }

  lemma ScaleIsPositive(row: seq<real>, g: real, packed: seq<nat>, scales: seq<nat>, b: nat)
    requires g > 0.0 && Blocked(row) && RowDone(Nvfp4(), row, g, packed, scales) && b < |scales|
    ensures 0 < scales[b] < 0x7F && DecodeUe4m3(scales[b]) > 0.0
  {
    GridIncreases();
    assert BlockDone(Nvfp4(), BlockAt(row, b), g, BlockAt(Unpack(packed), b), scales[b]);
    assert ScaleGrid()[scales[b] - 1] > 0.0;
  }
}
