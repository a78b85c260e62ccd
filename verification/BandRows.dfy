/** Greedy rows for the audio chunk bands of the inspector, on plain values: a chunk goes to the
    first row whose last chunk has ended, or opens a new row. */
module BandRows {
  import opened Finite

  /** One audio chunk band: the response it belongs to and its stretch of time. */
  datatype Chunk = Chunk(rid: string, t0: real, t1: real)

  // ---------- the greedy assignment ----------

  function FirstFree(ends: seq<real>, t: real): (r: nat)
    ensures r <= |ends| && (r < |ends| ==> ends[r] <= t) && forall q :: 0 <= q < r ==> ends[q] > t
  {
    FirstFreeFrom(ends, t, 0)
  }

  function FirstFreeFrom(ends: seq<real>, t: real, at: nat): (r: nat)
    requires at <= |ends| && forall q :: 0 <= q < at ==> ends[q] > t
    ensures at <= r <= |ends| && (r < |ends| ==> ends[r] <= t) && forall q :: 0 <= q < r ==> ends[q] > t
    decreases |ends| - at
  {
    if at == |ends| || ends[at] <= t then at else FirstFreeFrom(ends, t, at + 1)
  }

  function Seat(ends: seq<real>, c: Chunk): seq<real> {
    var r := FirstFree(ends, c.t0);
    if r == |ends| then ends + [c.t1] else ends[r := c.t1]
  }

  /** When each row was last in use, after all chunks. */
  function Ends(chunks: seq<Chunk>): seq<real> {
    if chunks == [] then [] else Seat(Ends(chunks[..|chunks| - 1]), chunks[|chunks| - 1])
  }

  function Rows(chunks: seq<Chunk>): (rows: seq<nat>)
    ensures |rows| == |chunks|
  {
    if chunks == [] then []
    else
      var before := chunks[..|chunks| - 1];
      Rows(before) + [FirstFree(Ends(before), chunks[|chunks| - 1].t0)]
  }

  ghost predicate ByStart(chunks: seq<Chunk>) {
    forall i, j :: 0 <= i < j < |chunks| ==> chunks[i].t0 <= chunks[j].t0
  }

  /** For each row, the chunk that was last put in it. */
  function Closers(chunks: seq<Chunk>): seq<nat> {
    if chunks == [] then []
    else
      var n := |chunks| - 1;
      var before := Closers(chunks[..n]);
      var r := FirstFree(Ends(chunks[..n]), chunks[n].t0);
      if r < |before| then before[r := n] else before + [n]
  }

  ghost predicate ClosesRow(chunks: seq<Chunk>, r: nat)
    requires r < |Ends(chunks)| == |Closers(chunks)|
  {
    Closers(chunks)[r] < |chunks| && Rows(chunks)[Closers(chunks)[r]] == r && chunks[Closers(chunks)[r]].t1 == Ends(chunks)[r]
  }

  lemma {:induction false} ClosersClose(chunks: seq<Chunk>)
    ensures |Closers(chunks)| == |Ends(chunks)|
    ensures forall r :: 0 <= r < |Ends(chunks)| ==> ClosesRow(chunks, r)
    ensures forall i :: 0 <= i < |chunks| ==> Rows(chunks)[i] < |Ends(chunks)|
  {
    if chunks != [] {
      var n := |chunks| - 1;
      var before := chunks[..n];
      ClosersClose(before);
      forall r | 0 <= r < |Ends(chunks)|
        ensures ClosesRow(chunks, r)
      {
        if r != Rows(chunks)[n] { assert ClosesRow(before, r); }
      }
      forall i | 0 <= i < |chunks|
        ensures Rows(chunks)[i] < |Ends(chunks)|
      {
        if i < n { assert Rows(chunks)[i] == Rows(before)[i]; }
      }
    }
  }

  /** Chunk i closes its row. */
  predicate IsCloser(chunks: seq<Chunk>, i: nat)
    requires i < |chunks|
  {
    Rows(chunks)[i] < |Ends(chunks)| && chunks[i].t1 == Ends(chunks)[Rows(chunks)[i]]
  }

  /** A chunk that no longer closes its row has a later chunk starting after its end. */
  lemma {:induction false} CloserOrFollowed(chunks: seq<Chunk>, i: nat)
    requires ByStart(chunks) && i < |chunks|
    ensures IsCloser(chunks, i) || exists k :: 0 <= k < |chunks| && chunks[i].t1 <= chunks[k].t0
  {
    ClosersClose(chunks);
    var n := |chunks| - 1;
    if i < n {
      var before := chunks[..n];
      CloserOrFollowed(before, i);
      assert Rows(chunks)[i] == Rows(before)[i];
      if IsCloser(before, i) {
        if Rows(before)[i] == Rows(chunks)[n] { assert chunks[i].t1 <= chunks[n].t0; }
      } else {
        var k :| 0 <= k < |before| && before[i].t1 <= before[k].t0;
        assert chunks[k] == before[k];
      }
    }
  }

  // ---------- no overlap ----------

  /** Two chunks in one row never overlap: the earlier has ended when the later starts. */
  lemma {:induction false} RowsDoNotOverlap(chunks: seq<Chunk>, i: nat, j: nat)
    requires ByStart(chunks) && i < j < |chunks| && Rows(chunks)[i] == Rows(chunks)[j]
    ensures chunks[i].t1 <= chunks[j].t0
  {
    var n := |chunks| - 1;
    var before := chunks[..n];
    if j < n {
      assert Rows(chunks)[i] == Rows(before)[i] && Rows(chunks)[j] == Rows(before)[j];
      RowsDoNotOverlap(before, i, j);
    } else {
      assert Rows(chunks)[i] == Rows(before)[i] && before[i] == chunks[i];
      CloserOrFollowed(before, i);
      if !IsCloser(before, i) {
        var k :| 0 <= k < |before| && before[i].t1 <= before[k].t0;
        assert chunks[k].t0 <= chunks[j].t0;
      }
    }
  }

  // ---------- no more rows than needed ----------

  ghost predicate Live(c: Chunk, t: real) {
    c.t0 <= t < c.t1
  }

  ghost function LiveAt(chunks: seq<Chunk>, t: real): set<nat> {
    set i: nat | i < |chunks| && Live(chunks[i], t)
  }

  /** At no instant are more chunks live than there are rows. */
  lemma LiveFitInRows(chunks: seq<Chunk>, t: real)
    requires ByStart(chunks)
    ensures |LiveAt(chunks, t)| <= |Ends(chunks)|
  {
    var live := LiveAt(chunks, t);
    forall i, j | i in live && j in live && Rows(chunks)[i] == Rows(chunks)[j]
      ensures i == j
    {
      if i < j { RowsDoNotOverlap(chunks, i, j); }
      if j < i { RowsDoNotOverlap(chunks, j, i); }
    }
    ImageSize(Rows(chunks), live);
    ClosersClose(chunks);
    SubsetSize(Image(Rows(chunks), live), UpTo(|Ends(chunks)|));
  }

  /** Among the first n chunks, x comes before y: it starts earlier, or at the same time and was laid
      out earlier. */
  ghost predicate ComesBefore(chunks: seq<Chunk>, n: nat, x: nat, y: nat) {
    n <= |chunks| && x < n && y < n && (chunks[x].t0 < chunks[y].t0 || (chunks[x].t0 == chunks[y].t0 && x < y))
  }

  /** The chunks that come before chunk i and still last when it starts. */
  ghost function Busy(chunks: seq<Chunk>, i: nat): set<nat>
    requires i < |chunks|
  {
    set j: nat | j < |chunks| && ComesBefore(chunks, |chunks|, j, i) && chunks[i].t0 < chunks[j].t1
  }

  ghost predicate Crowded(chunks: seq<Chunk>, i: nat, count: nat) {
    i < |chunks| && |Busy(chunks, i)| + 1 == count
  }

  /** count is the greatest number of chunks that a chunk meets at its start, itself included. */
  ghost predicate MostBusy(chunks: seq<Chunk>, count: nat) {
    && (forall i: nat :: i < |chunks| ==> |Busy(chunks, i)| + 1 <= count)
    && exists i: nat :: Crowded(chunks, i, count)
  }

  /** A chunk that lasts meets that many. */
  ghost predicate LastingCrowd(chunks: seq<Chunk>, count: nat) {
    exists i: nat :: Crowded(chunks, i, count) && chunks[i].t0 < chunks[i].t1
  }

  predicate AllLast(chunks: seq<Chunk>) {
    forall i :: 0 <= i < |chunks| ==> chunks[i].t0 < chunks[i].t1
  }

  lemma BusyFit(chunks: seq<Chunk>, i: nat)
    requires ByStart(chunks) && i < |chunks|
    ensures |Busy(chunks, i)| + 1 <= |Ends(chunks)|
  {
    var s := Busy(chunks, i) + {i};
    forall j, k | j in s && k in s && Rows(chunks)[j] == Rows(chunks)[k]
      ensures j == k
    {
      if j < k { RowsDoNotOverlap(chunks, j, k); }
      if k < j { RowsDoNotOverlap(chunks, k, j); }
    }
    ImageSize(Rows(chunks), s);
    ClosersClose(chunks);
    SubsetSize(Image(Rows(chunks), s), UpTo(|Ends(chunks)|));
  }

  /** When the last chunk opens a row, every earlier row is busy at its start. */
  lemma BusyCloser(chunks: seq<Chunk>, r: nat)
    requires ByStart(chunks) && chunks != []
    requires var before := chunks[..|chunks| - 1]; r < |Ends(before)| == Rows(chunks)[|chunks| - 1]
    ensures var n := |chunks| - 1; var at := Closers(chunks[..n]);
            && r < |at| && at[r] < n && Rows(chunks[..n])[at[r]] == r && Rows(chunks)[at[r]] == r
            && Live(chunks[at[r]], chunks[n].t0)
  {
    var n := |chunks| - 1;
    var before := chunks[..n];
    ClosersClose(before);
    assert ClosesRow(before, r);
  }

  /** When the last chunk opens a row, it meets a chunk in every earlier one. */
  lemma OpeningIsCrowded(chunks: seq<Chunk>)
    requires ByStart(chunks) && chunks != []
    requires Rows(chunks)[|chunks| - 1] == |Ends(chunks[..|chunks| - 1])|
    ensures Crowded(chunks, |chunks| - 1, |Ends(chunks)|)
  {
    var n := |chunks| - 1;
    var before := chunks[..n];
    var at, busy := Closers(before), Busy(chunks, n);
    ClosersClose(before);
    forall r | r in UpTo(|Ends(before)|)
      ensures r in Image(Rows(chunks), busy)
    {
      BusyCloser(chunks, r);
      assert at[r] in busy;
    }
    SubsetSize(UpTo(|Ends(before)|), Image(Rows(chunks), busy));
    ImageSize(Rows(chunks), busy);
    BusyFit(chunks, n);
  }

  lemma SameBusy(chunks: seq<Chunk>, i: nat)
    requires ByStart(chunks) && i < |chunks| - 1
    ensures Busy(chunks, i) == Busy(chunks[..|chunks| - 1], i)
  {
    var n := |chunks| - 1;
    forall j: nat
      ensures j in Busy(chunks, i) <==> j in Busy(chunks[..n], i)
    {
      assert j < n ==> (ComesBefore(chunks, |chunks|, j, i) <==> ComesBefore(chunks[..n], n, j, i));
      assert !ComesBefore(chunks, |chunks|, n, i);
    }
  }

  /** The number of rows is exactly what the most crowded chunk needs. */
  lemma {:induction false} RowsAreOptimal(chunks: seq<Chunk>)
    requires ByStart(chunks) && chunks != []
    ensures MostBusy(chunks, |Ends(chunks)|)
  {
    var n := |chunks| - 1;
    var before := chunks[..n];
    forall i: nat | i < |chunks| { BusyFit(chunks, i); }
    if Rows(chunks)[n] == |Ends(before)| {
      OpeningIsCrowded(chunks);
    } else {
      RowsAreOptimal(before);
      var i: nat :| Crowded(before, i, |Ends(before)|);
      SameBusy(chunks, i);
      assert Crowded(chunks, i, |Ends(chunks)|);
    }
  }

  /** Some instant has a live chunk in every row exactly when a chunk that lasts is a most crowded one. */
  lemma InstantNeedsAllRows(chunks: seq<Chunk>)
    requires ByStart(chunks) && chunks != []
    ensures (exists t :: |LiveAt(chunks, t)| == |Ends(chunks)|) <==> LastingCrowd(chunks, |Ends(chunks)|)
    ensures AllLast(chunks) ==> LastingCrowd(chunks, |Ends(chunks)|)
  {
    RowsAreOptimal(chunks);
    if LastingCrowd(chunks, |Ends(chunks)|) {
      var i: nat :| Crowded(chunks, i, |Ends(chunks)|) && chunks[i].t0 < chunks[i].t1;
      CrowdIsLive(chunks, i);
    }
    if t :| |LiveAt(chunks, t)| == |Ends(chunks)| {
      LiveIsCrowd(chunks, t);
    }
  }

  lemma CrowdIsLive(chunks: seq<Chunk>, i: nat)
    requires ByStart(chunks) && Crowded(chunks, i, |Ends(chunks)|) && chunks[i].t0 < chunks[i].t1
    ensures |LiveAt(chunks, chunks[i].t0)| == |Ends(chunks)|
  {
    SubsetSize(Busy(chunks, i) + {i}, LiveAt(chunks, chunks[i].t0));
    LiveFitInRows(chunks, chunks[i].t0);
  }

  lemma LiveIsCrowd(chunks: seq<Chunk>, t: real)
    requires ByStart(chunks) && chunks != [] && |LiveAt(chunks, t)| == |Ends(chunks)|
    ensures LastingCrowd(chunks, |Ends(chunks)|)
  {
    BusyFit(chunks, 0);
    var live := LiveAt(chunks, t);
    var i := Latest(live);
    forall j | j in live - {i}
      ensures j in Busy(chunks, i)
    {
      assert ComesBefore(chunks, |chunks|, j, i);
    }
    SubsetSize(live - {i}, Busy(chunks, i));
    BusyFit(chunks, i);
    assert Crowded(chunks, i, |Ends(chunks)|);
  }

  lemma {:induction false} Latest(s: set<nat>) returns (i: nat)
    requires s != {}
    ensures i in s && forall j :: j in s ==> j <= i
    decreases s
  {
    var x :| x in s;
    i := x;
    if s != {x} {
      var k := Latest(s - {x});
      i := if x < k then k else x;
      assert forall j :: j in s ==> j == x || j in s - {x};
    }
  }

  /** So a chunk of no length can open a row that no instant needs. */
  lemma EmptyChunksWasteRows()
    ensures exists chunks :: ByStart(chunks) && chunks != [] &&
              |Ends(chunks)| > 1 && forall t :: |LiveAt(chunks, t)| <= 1
  {
    var a, b := Chunk("a", 0.0, 2.0), Chunk("b", 1.0, 1.0);
    var chunks := [a, b];
    assert chunks[..1] == [a] && [a][..0] == [];
    assert Ends([a]) == [2.0];
    assert FirstFree([2.0], 1.0) == 1;
    assert Ends(chunks) == [2.0, 1.0];
    forall t
      ensures |LiveAt(chunks, t)| <= 1
    {
      assert LiveAt(chunks, t) <= {0};
      SubsetSize(LiveAt(chunks, t), {0});
    }
    assert ByStart(chunks);
  }

  // ---------- no more rows than responses ----------

  /** Chunks of one response follow one another. */
  ghost predicate ResponsesAbut(chunks: seq<Chunk>) {
    forall i, j :: 0 <= i < j < |chunks| && chunks[i].rid == chunks[j].rid ==> chunks[i].t1 <= chunks[j].t0
  }

  ghost function Rids(chunks: seq<Chunk>): set<string> {
    set c | c in chunks :: c.rid
  }

  /** When the last chunk opens a row, the busy rows and the new one serve different responses. */
  lemma OpeningNeedsNewResponse(chunks: seq<Chunk>)
    requires ByStart(chunks) && ResponsesAbut(chunks) && chunks != []
    requires Rows(chunks)[|chunks| - 1] == |Ends(chunks[..|chunks| - 1])|
    ensures |Ends(chunks)| <= |Rids(chunks)|
  {
    var n := |chunks| - 1;
    var before := chunks[..n];
    var at := Closers(before);
    ClosersClose(before);
    forall r | 0 <= r < |at|
      ensures at[r] < n && Rows(chunks)[at[r]] == r && Live(chunks[at[r]], chunks[n].t0)
    {
      BusyCloser(chunks, r);
    }
    var rids := seq(|at|, r requires 0 <= r < |at| => chunks[at[r]].rid) + [chunks[n].rid];
    forall r, q | 0 <= r < q < |rids|
      ensures rids[r] != rids[q]
    {
      var i, j := at[r], if q < |at| then at[q] else n;
      assert Rows(chunks)[i] == r && Rows(chunks)[j] == q;
      assert i < j || j < i;
    }
    DistinctSize(rids);
    forall x | x in rids
      ensures x in Rids(chunks)
    {
      var r :| 0 <= r < |rids| && rids[r] == x;
      assert chunks[if r < |at| then at[r] else n].rid == x;
    }
    SubsetSize(Elements(rids), Rids(chunks));
  }

  /** With the chunks of each response abutting, there are never more rows than responses. */
  lemma {:induction false} RowsWithinResponses(chunks: seq<Chunk>)
    requires ByStart(chunks) && ResponsesAbut(chunks)
    ensures |Ends(chunks)| <= |Rids(chunks)|
  {
    if chunks != [] {
      var n := |chunks| - 1;
      if Rows(chunks)[n] == |Ends(chunks[..n])| {
        OpeningNeedsNewResponse(chunks);
      } else {
        RowsWithinResponses(chunks[..n]);
        assert forall c :: c in chunks[..n] ==> c in chunks;
        SubsetSize(Rids(chunks[..n]), Rids(chunks));
      }
    }
  }
}
