/** Block quantization by a scale search: codes and a scale for each block of a row, whatever the element format. */
module BlockSearch {
  import opened Rounding

  /** An element format and a grid of scales: how a scaled value is encoded, what a code stands for, and which entry
      of the grid the search starts from. */
  datatype Format = Format(enc: real -> nat, dec: nat -> real, grid: seq<real>, rtn: (seq<real>, real) -> nat)

  /** Code n is no nearer to y than the encoder's choice. */
  predicate NoNearer(f: Format, y: real, n: nat) {
    Abs(f.dec(f.enc(y)) - y) <= Abs(f.dec(n) - y)
  }

  /** Codes are four bits, the encoder picks a nearest one, and the scales are positive. */
  ghost predicate Sound(f: Format) {
    && (forall y :: f.enc(y) < 16)
    && (forall y, n: nat :: n < 16 ==> NoNearer(f, y, n))
    && (forall i :: 0 <= i < |f.grid| ==> f.grid[i] > 0.0)
    && forall block, g :: f.rtn(block, g) < |f.grid|
  }

  const NVFP4_BLOCK: nat := 16
  const STEPS_BELOW := 6
  const STEPS_ABOVE := 10

  predicate Nibbles(codes: seq<nat>) {
    forall k :: 0 <= k < |codes| ==> codes[k] < 16
  }

  /** Codes for a block under a scale; a zero scale would leave the values as they are. */
  function Encoded(f: Format, block: seq<real>, decoded: real, g: real): (nibs: seq<nat>)
    ensures |nibs| == |block|
  {
    EncodedBy(f, block, if decoded == 0.0 then 1.0 else g / decoded)
  }

  function EncodedElement(f: Format, x: real, inv: real): nat { f.enc(x * inv) }

  function DecodedElement(f: Format, n: nat, s: real): real { f.dec(n) * s }

  function EncodedBy(f: Format, block: seq<real>, inv: real): (nibs: seq<nat>)
    ensures |nibs| == |block|
  {
    seq(|block|, k requires 0 <= k < |block| => EncodedElement(f, block[k], inv))
  }

  function Dequantized(f: Format, nibs: seq<nat>, decoded: real, g: real): (vals: seq<real>)
    requires g > 0.0
    ensures |vals| == |nibs|
  {
    DecodedBy(f, nibs, decoded / g)
  }

  function DecodedBy(f: Format, nibs: seq<nat>, s: real): (vals: seq<real>)
    ensures |vals| == |nibs|
  {
    seq(|nibs|, k requires 0 <= k < |nibs| => DecodedElement(f, nibs[k], s))
  }

  function Sq(r: real): real { r * r }

  function SquaredError(vals: seq<real>, block: seq<real>): real
    requires |vals| == |block|
  {
    if block == [] then 0.0
    else
      var n := |block| - 1;
      SquaredError(vals[..n], block[..n]) + Sq(vals[n] - block[n])
  }

  /** The error of the codes the encoder picks under a scale. */
  function ErrorUnder(f: Format, block: seq<real>, scale: real, g: real): real
    requires g > 0.0
  {
    SquaredError(Dequantized(f, Encoded(f, block, scale, g), scale, g), block)
  }

  // ---------- the encoder's codes are the best under their scale ----------

  lemma SquareMono(a: real, b: real)
    requires 0.0 <= a <= b
    ensures a * a <= b * b
  {}

  lemma AbsScales(a: real, s: real)
    requires s > 0.0
    ensures Sq(a * s) == Sq(Abs(a) * s) && Abs(a) * s >= 0.0
  {
    assert (-a) * s == -(a * s);
  }

  /** Scaling keeps the nearer of two values nearer. */
  lemma NearerSquares(q: real, v: real, y: real, s: real, x: real)
    requires s > 0.0 && y * s == x && Abs(q - y) <= Abs(v - y)
    ensures Sq(q * s - x) <= Sq(v * s - x)
  {
    assert q * s - x == (q - y) * s && v * s - x == (v - y) * s;
    AbsScales(q - y, s);
    AbsScales(v - y, s);
    assert (Abs(v - y) - Abs(q - y)) * s >= 0.0;
    SquareMono(Abs(q - y) * s, Abs(v - y) * s);
  }

  lemma ElementIsBest(f: Format, x: real, inv: real, s: real, n: nat)
    requires Sound(f) && s > 0.0 && inv * s == 1.0 && n < 16
    ensures Sq(DecodedElement(f, EncodedElement(f, x, inv), s) - x) <= Sq(DecodedElement(f, n, s) - x)
  {
    assert NoNearer(f, x * inv, n);
    assert x * inv * s == x * (inv * s);
    NearerSquares(f.dec(f.enc(x * inv)), f.dec(n), x * inv, s, x);
  }

  lemma {:induction false} CodesAreBestBy(f: Format, block: seq<real>, inv: real, s: real, codes: seq<nat>)
    requires Sound(f) && s > 0.0 && inv * s == 1.0 && |codes| == |block| && Nibbles(codes)
    ensures SquaredError(DecodedBy(f, EncodedBy(f, block, inv), s), block) <= SquaredError(DecodedBy(f, codes, s), block)
  {
    if block != [] {
      var n := |block| - 1;
      CodesAreBestBy(f, block[..n], inv, s, codes[..n]);
      ElementIsBest(f, block[n], inv, s, codes[n]);
      SplitLast(f, EncodedBy(f, block, inv), s, block);
      SplitLast(f, codes, s, block);
      var all, front := EncodedBy(f, block, inv), EncodedBy(f, block[..n], inv);
      assert forall k :: 0 <= k < n ==> all[k] == front[k];
      assert all[..n] == front;
    }
  }

  lemma SplitLast(f: Format, nibs: seq<nat>, s: real, block: seq<real>)
    requires |nibs| == |block| > 0
    ensures var n := |block| - 1;
            SquaredError(DecodedBy(f, nibs, s), block) ==
            SquaredError(DecodedBy(f, nibs[..n], s), block[..n]) + Sq(DecodedElement(f, nibs[n], s) - block[n])
  {
    var n := |block| - 1;
    var all, front := DecodedBy(f, nibs, s), DecodedBy(f, nibs[..n], s);
    assert forall k :: 0 <= k < n ==> all[k] == front[k];
    assert all[..n] == front;
  }

  lemma Reciprocals(d: real, g: real) returns (inv: real, s: real)
    requires d > 0.0 && g > 0.0
    ensures inv == g / d && s == d / g && inv * s == 1.0 && s > 0.0
  {
    inv, s := g / d, d / g;
  }

  lemma CodesAreBest(f: Format, block: seq<real>, d: real, g: real, codes: seq<nat>)
    requires Sound(f) && d > 0.0 && g > 0.0 && |codes| == |block| && Nibbles(codes)
    ensures ErrorUnder(f, block, d, g) <= SquaredError(Dequantized(f, codes, d, g), block)
  {
    var inv, s := Reciprocals(d, g);
    CodesAreBestBy(f, block, inv, s, codes);
  }

  // ---------- the scale search ----------

  /** i moved into the grid. */
  function ClipIndex(size: nat, i: int): (k: nat)
    requires size > 0
    ensures k < size && (0 <= i < size ==> k == i)
  {
    if i < 0 then 0 else if i >= size then size - 1 else i
  }

  /** Grid entry i is no more than the given steps from entry idx0. */
  predicate Window(size: nat, idx0: nat, i: nat) {
    i < size && idx0 - STEPS_BELOW <= i <= idx0 + STEPS_ABOVE
  }

  /** Entry i has the least error of the window, and is the first that has it. */
  ghost predicate FirstLeast(error: nat -> real, size: nat, idx0: nat, i: nat) {
    && Window(size, idx0, i)
    && (forall j: nat :: Window(size, idx0, j) ==> error(i) <= error(j))
    && (forall j: nat :: Window(size, idx0, j) && j < i ==> error(i) < error(j))
  }

  method SearchWindow(error: nat -> real, size: nat, idx0: nat) returns (bestIdx: nat, bestErr: real)
    requires idx0 < size
    ensures FirstLeast(error, size, idx0, bestIdx) && bestErr == error(bestIdx)
  {
    bestIdx := ClipIndex(size, idx0 - STEPS_BELOW);
    bestErr := error(bestIdx);
    for step := -STEPS_BELOW + 1 to STEPS_ABOVE + 1
      invariant Window(size, idx0, bestIdx) && bestErr == error(bestIdx)
      invariant bestIdx <= ClipIndex(size, idx0 + step - 1)
      invariant forall j: nat :: Window(size, idx0, j) && j <= ClipIndex(size, idx0 + step - 1) ==> bestErr <= error(j)
      invariant forall j: nat :: Window(size, idx0, j) && j < bestIdx ==> bestErr < error(j)
    {
      var idx := ClipIndex(size, idx0 + step);
      var err := error(idx);
      if err < bestErr {
        bestErr, bestIdx := err, idx;
      }
    }
  }

  /** The error of a block under each entry of the grid. */
  function ErrorOf(f: Format, block: seq<real>, g: real): nat -> real
    requires g > 0.0
  {
    (i: nat) => if i < |f.grid| then ErrorUnder(f, block, f.grid[i], g) else 0.0
  }

  /** Entry i is the one the search picks for the block. */
  ghost predicate IsBest(f: Format, block: seq<real>, g: real, i: nat)
    requires g > 0.0
  {
    FirstLeast(ErrorOf(f, block, g), |f.grid|, f.rtn(block, g), i)
  }

  method ClosedFormScaleGridIndex(f: Format, block: seq<real>, g: real) returns (bestIdx: nat, bestErr: real)
    requires g > 0.0 && Sound(f)
    ensures bestIdx < |f.grid| && IsBest(f, block, g, bestIdx) && bestErr == ErrorUnder(f, block, f.grid[bestIdx], g)
  {
    bestIdx, bestErr := SearchWindow(ErrorOf(f, block, g), |f.grid|, f.rtn(block, g));
  }

  /** No codes under any scale of the window do better than the encoder's under the chosen one. */
  lemma BlockIsOptimal(f: Format, block: seq<real>, g: real, best: nat, i: nat, codes: seq<nat>)
    requires Sound(f) && g > 0.0 && IsBest(f, block, g, best) && Window(|f.grid|, f.rtn(block, g), i)
    requires |codes| == |block| && Nibbles(codes)
    ensures best < |f.grid|
    ensures ErrorUnder(f, block, f.grid[best], g) <= SquaredError(Dequantized(f, codes, f.grid[i], g), block)
  {
    var error := ErrorOf(f, block, g);
    assert error(best) <= error(i);
    CodesAreBest(f, block, f.grid[i], g, codes);
  }

  lemma {:induction false} ErrorIsNonNegative(vals: seq<real>, block: seq<real>)
    requires |vals| == |block|
    ensures SquaredError(vals, block) >= 0.0
    ensures SquaredError(vals, block) == 0.0 <==> vals == block
  {
    if block != [] {
      var n := |block| - 1;
      ErrorIsNonNegative(vals[..n], block[..n]);
      SquareIsNonNegative(vals[n] - block[n]);
      assert vals == vals[..n] + [vals[n]] && block == block[..n] + [block[n]];
    }
  }

  function Times(a: real, b: real): real { a * b }

  lemma TimesIsPositive(a: real, b: real)
    requires a > 0.0 && b > 0.0
    ensures Times(a, b) > 0.0
  {}

  lemma SquareIsTimes(r: real)
    ensures Sq(r) == Times(r, r) && Sq(-r) == Sq(r) && Sq(0.0) == 0.0
  {
    assert (-r) * (-r) == r * r;
  }

  lemma SquareIsNonNegative(r: real)
    ensures Sq(r) >= 0.0 && (Sq(r) == 0.0 <==> r == 0.0)
  {
    hide Sq, Times;
    var size := Abs(r);
    SquareIsTimes(r);
    SquareIsTimes(size);
    if size > 0.0 { TimesIsPositive(size, size); }
  }

  // ---------- packing ----------

  /** The low four bits and the high four. */
  function Byte(lo: nat, hi: nat): nat { lo + 16 * hi }

  predicate Bytes(bytes: seq<nat>) {
    forall c :: 0 <= c < |bytes| ==> bytes[c] < 256
  }

  /** Two codes a byte, the first in the low half. */
  function PackNibbles(nibs: seq<nat>): (bytes: seq<nat>)
    requires |nibs| % 2 == 0
    ensures |bytes| == |nibs| / 2
    ensures Nibbles(nibs) ==> Bytes(bytes)
  {
    seq(|nibs| / 2, c requires 0 <= c < |nibs| / 2 => Byte(nibs[2 * c], nibs[2 * c + 1]))
  }

  function Unpack(bytes: seq<nat>): (nibs: seq<nat>)
    ensures |nibs| == 2 * |bytes|
    ensures Bytes(bytes) ==> Nibbles(nibs)
  {
    seq(2 * |bytes|, k requires 0 <= k < 2 * |bytes| =>
      if k % 2 == 0 then bytes[k / 2] % 16 else bytes[k / 2] / 16)
  }

  lemma UnpackPack(nibs: seq<nat>)
    requires |nibs| % 2 == 0 && Nibbles(nibs)
    ensures Unpack(PackNibbles(nibs)) == nibs
  {
    forall k | 0 <= k < |nibs|
      ensures Unpack(PackNibbles(nibs))[k] == nibs[k]
    {
      assert PackNibbles(nibs)[k / 2] == Byte(nibs[2 * (k / 2)], nibs[2 * (k / 2) + 1]);
    }
  }

  lemma Halves(c: nat)
    ensures (2 * c) / 2 == c && (2 * c + 1) / 2 == c && (2 * c) % 2 == 0 && (2 * c + 1) % 2 == 1
  {}

  lemma UnpackAt(bytes: seq<nat>, c: nat)
    requires c < |bytes|
    ensures Unpack(bytes)[2 * c] == bytes[c] % 16 && Unpack(bytes)[2 * c + 1] == bytes[c] / 16
  {
    Halves(c);
  }

  lemma PackUnpack(bytes: seq<nat>)
    requires Bytes(bytes)
    ensures PackNibbles(Unpack(bytes)) == bytes
  {
    var nibs := Unpack(bytes);
    forall c | 0 <= c < |bytes|
      ensures PackNibbles(nibs)[c] == bytes[c]
    {
      hide Unpack;
      UnpackAt(bytes, c);
    }
  }

  // ---------- rows ----------

  function BlockAt<T>(row: seq<T>, b: nat): (block: seq<T>)
    requires (b + 1) * NVFP4_BLOCK <= |row|
    ensures |block| == NVFP4_BLOCK
  {
    row[b * NVFP4_BLOCK..(b + 1) * NVFP4_BLOCK]
  }

  predicate Blocked<T>(row: seq<T>) {
    |row| % NVFP4_BLOCK == 0
  }

  /** The codes of a block and its scale code: the grid starts at scale code 1. */
  ghost predicate BlockDone(f: Format, block: seq<real>, g: real, nibs: seq<nat>, scale: nat)
    requires g > 0.0
  {
    && 0 < scale <= |f.grid| && IsBest(f, block, g, scale - 1)
    && nibs == Encoded(f, block, f.grid[scale - 1], g)
  }

  ghost predicate BlocksDone(f: Format, row: seq<real>, g: real, nibs: seq<nat>, scales: seq<nat>)
    requires g > 0.0 && |nibs| == NVFP4_BLOCK * |scales| <= |row|
  {
    forall b :: 0 <= b < |scales| ==> BlockDone(f, BlockAt(row, b), g, BlockAt(nibs, b), scales[b])
  }

  /** A row's packed codes and scale codes. */
  ghost predicate RowDone(f: Format, row: seq<real>, g: real, packed: seq<nat>, scales: seq<nat>)
    requires g > 0.0 && Blocked(row)
  {
    Bytes(packed) && 2 * |packed| == NVFP4_BLOCK * |scales| == |row| && BlocksDone(f, row, g, Unpack(packed), scales)
  }

  lemma BlockAdded(f: Format, row: seq<real>, g: real, nibs: seq<nat>, scales: seq<nat>, next: seq<nat>, scale: nat)
    requires g > 0.0 && |nibs| == NVFP4_BLOCK * |scales| && |nibs| + NVFP4_BLOCK <= |row| && |next| == NVFP4_BLOCK
    requires BlocksDone(f, row, g, nibs, scales) && BlockDone(f, BlockAt(row, |scales|), g, next, scale)
    ensures BlocksDone(f, row, g, nibs + next, scales + [scale])
  {
    forall b | 0 <= b < |scales| + 1
      ensures BlockDone(f, BlockAt(row, b), g, BlockAt(nibs + next, b), (scales + [scale])[b])
    {
      if b < |scales| {
        assert BlockAt(nibs + next, b) == BlockAt(nibs, b);
      } else {
        assert BlockAt(nibs + next, b) == next;
      }
    }
  }

  lemma NoBlocks(f: Format, row: seq<real>, g: real)
    requires g > 0.0
    ensures BlocksDone(f, row, g, [], [])
  {}

  method QuantizeRow(f: Format, row: seq<real>, g: real) returns (packed: seq<nat>, scales: seq<nat>)
    requires Sound(f) && g > 0.0 && Blocked(row)
    ensures RowDone(f, row, g, packed, scales)
  {
    hide BlocksDone, IsBest, Unpack, PackNibbles, BlockAt;
    var nibs: seq<nat> := [];
    scales := [];
    NoBlocks(f, row, g);
    for b := 0 to |row| / NVFP4_BLOCK
      invariant |scales| == b && |nibs| == NVFP4_BLOCK * b && Nibbles(nibs)
      invariant BlocksDone(f, row, g, nibs, scales)
    {
      var block := BlockAt(row, b);
      var idx, _ := ClosedFormScaleGridIndex(f, block, g);
      var next := Encoded(f, block, f.grid[idx], g);
      BlockAdded(f, row, g, nibs, scales, next, idx + 1);
      nibs := nibs + next;
      scales := scales + [idx + 1];
    }
    packed := PackNibbles(nibs);
    UnpackPack(nibs);
  }

  predicate AllBlocked(w: seq<seq<real>>) {
    forall r :: 0 <= r < |w| ==> Blocked(w[r])
  }

  ghost predicate RowsDone(f: Format, w: seq<seq<real>>, g: real, packed: seq<seq<nat>>, scales: seq<seq<nat>>)
    requires g > 0.0 && AllBlocked(w)
  {
    |packed| == |scales| == |w| && forall r :: 0 <= r < |w| ==> RowDone(f, w[r], g, packed[r], scales[r])
  }

  lemma RowsJoin(f: Format, w: seq<seq<real>>, g: real, m: nat, n: nat, packed: seq<seq<nat>>, scales: seq<seq<nat>>,
                 p: seq<seq<nat>>, s: seq<seq<nat>>)
    requires g > 0.0 && AllBlocked(w) && m <= n <= |w|
    requires RowsDone(f, w[..m], g, packed, scales) && RowsDone(f, w[m..n], g, p, s)
    ensures RowsDone(f, w[..n], g, packed + p, scales + s)
  {
    forall r | 0 <= r < n
      ensures RowDone(f, w[..n][r], g, (packed + p)[r], (scales + s)[r])
    {
      if r < m { assert w[..m][r] == w[r]; } else { assert w[m..n][r - m] == w[r]; }
    }
  }

  /** Quantizes the rows, a chunk of rows at a time. */
  method QuantizeRowsClosedForm(f: Format, w: seq<seq<real>>, g: real, rowChunk: nat)
    returns (packed: seq<seq<nat>>, scales: seq<seq<nat>>)
    requires Sound(f) && g > 0.0 && rowChunk > 0 && AllBlocked(w)
    ensures RowsDone(f, w, g, packed, scales)
  {
    packed, scales := [], [];
    var start: nat := 0;
    ghost var n: nat := 0;
    while start < |w|
      invariant n == (if start < |w| then start else |w|) && RowsDone(f, w[..n], g, packed, scales)
    {
      var end := if start + rowChunk < |w| then start + rowChunk else |w|;
      var p, s := QuantizeChunk(f, w[start..end], g);
      RowsJoin(f, w, g, start, end, packed, scales, p, s);
      packed, scales := packed + p, scales + s;
      start, n := start + rowChunk, end;
    }
    assert w[..|w|] == w;
  }

  method QuantizeChunk(f: Format, chunk: seq<seq<real>>, g: real) returns (packed: seq<seq<nat>>, scales: seq<seq<nat>>)
    requires Sound(f) && g > 0.0 && AllBlocked(chunk)
    ensures RowsDone(f, chunk, g, packed, scales)
  {
    packed, scales := [], [];
    for r := 0 to |chunk|
      invariant RowsDone(f, chunk[..r], g, packed, scales)
    {
      var p, s := QuantizeRow(f, chunk[r], g);
      RowsJoin(f, chunk, g, r, r + 1, packed, scales, [p], [s]);
      packed, scales := packed + [p], scales + [s];
    }
    assert chunk[..|chunk|] == chunk;
  }

  // ---------- what a row's bytes mean ----------

  /** Read back from its bytes, no block could be nearer to the weights under any scale of its window. */
  lemma RowIsOptimal(f: Format, row: seq<real>, g: real, packed: seq<nat>, scales: seq<nat>, b: nat, i: nat,
                     codes: seq<nat>)
    requires Sound(f) && g > 0.0 && Blocked(row) && RowDone(f, row, g, packed, scales) && b < |scales|
    requires Window(|f.grid|, f.rtn(BlockAt(row, b), g), i) && |codes| == NVFP4_BLOCK && Nibbles(codes)
    ensures 0 < scales[b] <= |f.grid|
    ensures var block := BlockAt(row, b);
            SquaredError(Dequantized(f, BlockAt(Unpack(packed), b), f.grid[scales[b] - 1], g), block) <=
            SquaredError(Dequantized(f, codes, f.grid[i], g), block)
  {
    BlockIsOptimal(f, BlockAt(row, b), g, scales[b] - 1, i, codes);
  }

  lemma BlockIsOne(f: Format, block: seq<real>, g: real, nibs: seq<nat>, scale: nat, nibs': seq<nat>, scale': nat)
    requires g > 0.0 && BlockDone(f, block, g, nibs, scale) && BlockDone(f, block, g, nibs', scale')
    ensures nibs == nibs' && scale == scale'
  {
    var error, i, j := ErrorOf(f, block, g), scale - 1, scale' - 1;
    assert error(i) <= error(j) && error(j) <= error(i);
  }

  /** A row's bytes depend on the row alone, so no choice of chunks changes them. */
  lemma RowIsOne(f: Format, row: seq<real>, g: real, p: seq<nat>, s: seq<nat>, p': seq<nat>, s': seq<nat>)
    requires g > 0.0 && Blocked(row) && RowDone(f, row, g, p, s) && RowDone(f, row, g, p', s')
    ensures p == p' && s == s'
  {
    var u, v := Unpack(p), Unpack(p');
    forall b | 0 <= b < |s|
      ensures s[b] == s'[b] && BlockAt(u, b) == BlockAt(v, b)
    {
      BlockIsOne(f, BlockAt(row, b), g, BlockAt(u, b), s[b], BlockAt(v, b), s'[b]);
    }
    SameBlocks(u, v);
    PackUnpack(p);
    PackUnpack(p');
  }

  /** Two runs over the same rows, whatever their chunk sizes, give the same bytes. */
  lemma ChunksChangeNothing(f: Format, w: seq<seq<real>>, g: real, p: seq<seq<nat>>, s: seq<seq<nat>>,
                            p': seq<seq<nat>>, s': seq<seq<nat>>)
    requires g > 0.0 && AllBlocked(w) && RowsDone(f, w, g, p, s) && RowsDone(f, w, g, p', s')
    ensures p == p' && s == s'
  {
    forall r | 0 <= r < |w|
      ensures p[r] == p'[r] && s[r] == s'[r]
    {
      RowIsOne(f, w[r], g, p[r], s[r], p'[r], s'[r]);
    }
  }

  lemma SameBlocks(a: seq<nat>, b: seq<nat>)
    requires |a| == |b| && Blocked(a)
    requires forall d :: 0 <= d < |a| / NVFP4_BLOCK ==> BlockAt(a, d) == BlockAt(b, d)
    ensures a == b
  {
    forall k | 0 <= k < |a|
      ensures a[k] == b[k]
    {
      var d := k / NVFP4_BLOCK;
      assert BlockAt(a, d)[k - d * NVFP4_BLOCK] == a[k] && BlockAt(b, d)[k - d * NVFP4_BLOCK] == b[k];
    }
  }
}
