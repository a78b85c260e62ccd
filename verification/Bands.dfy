/** The inspector's bands: objects laid out from the event stream, whose chunk rows are assigned in place. */
module Bands {
  import opened BandRows
  import opened Finite

  datatype Lane = TtsChunk | OtherLane(name: string)

  class Band {
    const lane: Lane
    const rid: string
    const t0: real
    const t1: real
    var row: int

    constructor (lane: Lane, rid: string, t0: real, t1: real)
      ensures this.lane == lane && this.rid == rid && this.t0 == t0 && this.t1 == t1
    {
      this.lane, this.rid, this.t0, this.t1 := lane, rid, t0, t1;
      row := -1;
    }

    function AsChunk(): Chunk { Chunk(rid, t0, t1) }
  }

  function Values(bands: seq<Band>): (chunks: seq<Chunk>)
    ensures |chunks| == |bands| && forall i :: 0 <= i < |bands| ==> chunks[i] == bands[i].AsChunk()
  {
    seq(|bands|, i requires 0 <= i < |bands| => bands[i].AsChunk())
  }

  /** The chunk bands, in the order in which they were laid out. */
  function ChunkBands(bands: seq<Band>): seq<Band> {
    if bands == [] then []
    else
      var before, b := ChunkBands(bands[..|bands| - 1]), bands[|bands| - 1];
      if b.lane.TtsChunk? then before + [b] else before
  }

  predicate Distinct(bands: seq<Band>) {
    forall i, j :: 0 <= i < j < |bands| ==> bands[i] != bands[j]
  }

  lemma {:induction false} ChunkBandsAre(bands: seq<Band>)
    requires Distinct(bands)
    ensures Distinct(ChunkBands(bands))
    ensures forall b :: b in ChunkBands(bands) <==> b in bands && b.lane.TtsChunk?
  {
    if bands != [] {
      var before, b := bands[..|bands| - 1], bands[|bands| - 1];
      ChunkBandsAre(before);
      assert bands == before + [b] && b !in before;
    }
  }

  // ---------- the stable sort by start ----------

  /** order lists the first n positions of chunks by start, ties in their original order. */
  ghost predicate StableOrder(chunks: seq<Chunk>, n: nat, order: seq<nat>) {
    && |order| == n <= |chunks|
    && (forall k :: 0 <= k < n ==> order[k] < n)
    && (forall a, b :: 0 <= a < b < n ==> ComesBefore(chunks, n, order[a], order[b]))
  }

  lemma InsertNext(chunks: seq<Chunk>, n: nat, order: seq<nat>, at: nat)
    requires n < |chunks| && StableOrder(chunks, n, order) && at <= n
    requires forall a :: 0 <= a < at ==> chunks[order[a]].t0 <= chunks[n].t0
    requires at < n ==> chunks[n].t0 < chunks[order[at]].t0
    ensures StableOrder(chunks, n + 1, order[..at] + [n] + order[at..])
  {
    var longer := order[..at] + [n] + order[at..];
    forall a, b | 0 <= a < b < n + 1
      ensures ComesBefore(chunks, n + 1, longer[a], longer[b])
    {
      if a == at {
        assert b - 1 > at ==> ComesBefore(chunks, n, order[at], order[b - 1]);
      } else if b != at {
        var a', b' := if a < at then a else a - 1, if b < at then b else b - 1;
        assert ComesBefore(chunks, n, order[a'], order[b']);
      }
    }
  }

  method InsertionPoint(sorted: seq<Band>, t: real) returns (at: nat)
    ensures at <= |sorted| && (forall a :: 0 <= a < at ==> sorted[a].t0 <= t) && (at < |sorted| ==> t < sorted[at].t0)
  {
    at := 0;
    while at < |sorted| && sorted[at].t0 <= t
      invariant at <= |sorted| && forall a :: 0 <= a < at ==> sorted[a].t0 <= t
    {
      at := at + 1;
    }
  }

  /** sorted holds the bands at the positions order lists. */
  ghost predicate Follows(sorted: seq<Band>, bands: seq<Band>, order: seq<nat>) {
    |sorted| == |order| && forall k :: 0 <= k < |order| ==> order[k] < |bands| && sorted[k] == bands[order[k]]
  }

  ghost predicate SortsStably(bands: seq<Band>, sorted: seq<Band>, order: seq<nat>) {
    StableOrder(Values(bands), |bands|, order) && Follows(sorted, bands, order)
  }

  ghost predicate IsStablySorted(bands: seq<Band>, sorted: seq<Band>) {
    exists order :: SortsStably(bands, sorted, order)
  }

  method SortByStart(bands: seq<Band>) returns (sorted: seq<Band>, ghost order: seq<nat>)
    ensures SortsStably(bands, sorted, order) && IsStablySorted(bands, sorted)
  {
    sorted, order := [], [];
    ghost var chunks := Values(bands);
    for i := 0 to |bands|
      invariant StableOrder(chunks, i, order) && Follows(sorted, bands, order)
    {
      var at := InsertionPoint(sorted, bands[i].t0);
      InsertNext(chunks, i, order, at);
      sorted := sorted[..at] + [bands[i]] + sorted[at..];
      order := order[..at] + [i] + order[at..];
    }
    assert SortsStably(bands, sorted, order);
  }

  lemma OrderIsPermutation(chunks: seq<Chunk>, order: seq<nat>)
    requires StableOrder(chunks, |chunks|, order)
    ensures IsPermutation(order)
  {
    forall a, b | 0 <= a < b < |order|
      ensures order[a] != order[b]
    {
      assert ComesBefore(chunks, |chunks|, order[a], order[b]);
    }
  }

  lemma SortedIsFair(bands: seq<Band>, sorted: seq<Band>, order: seq<nat>)
    requires Distinct(bands) && StableOrder(Values(bands), |bands|, order) && Follows(sorted, bands, order)
    ensures Distinct(sorted) && ByStart(Values(sorted))
    ensures forall b :: b in sorted <==> b in bands
  {
    OrderIsPermutation(Values(bands), order);
    forall i, j | 0 <= i < j < |sorted|
      ensures order[i] != order[j] && sorted[i] != sorted[j] && Values(sorted)[i].t0 <= Values(sorted)[j].t0
    {
      assert ComesBefore(Values(bands), |bands|, order[i], order[j]);
      assert order[i] < order[j] || order[j] < order[i];
    }
    forall b | b in bands
      ensures b in sorted
    {
      var i :| 0 <= i < |bands| && bands[i] == b;
      PermutationHits(order, i);
    }
  }

  // ---------- the assignment, in place ----------

  ghost function LiveBands(bands: seq<Band>, t: real): set<Band> {
    set b | b in bands && Live(b.AsChunk(), t)
  }

  lemma LiveBandsCount(bands: seq<Band>, t: real)
    requires Distinct(bands)
    ensures |LiveBands(bands, t)| == |LiveAt(Values(bands), t)|
  {
    var at := LiveAt(Values(bands), t);
    ImageSize(bands, at);
    forall b | b in LiveBands(bands, t)
      ensures b in Image(bands, at)
    {
      var i :| 0 <= i < |bands| && bands[i] == b;
      assert i in at;
    }
    assert Image(bands, at) == LiveBands(bands, t);
  }

  lemma {:induction false} RowsPrefix(chunks: seq<Chunk>, k: nat, i: nat)
    requires i < k <= |chunks|
    ensures Rows(chunks[..k])[i] == Rows(chunks)[i]
  {
    if k < |chunks| {
      RowsPrefix(chunks[..|chunks| - 1], k, i);
      assert chunks[..|chunks| - 1][..k] == chunks[..k];
    } else {
      assert chunks[..k] == chunks;
    }
  }

  lemma SeatStep(chunks: seq<Chunk>, k: nat)
    requires k < |chunks|
    ensures Ends(chunks[..k + 1]) == Seat(Ends(chunks[..k]), chunks[k])
    ensures Rows(chunks)[k] == FirstFree(Ends(chunks[..k]), chunks[k].t0)
  {
    assert chunks[..k + 1][..k] == chunks[..k];
    RowsPrefix(chunks, k + 1, k);
  }

  method FindRow(rowEnds: seq<real>, t: real) returns (row: int)
    ensures row == if FirstFree(rowEnds, t) < |rowEnds| then FirstFree(rowEnds, t) else -1
  {
    row := -1;
    for r := 0 to |rowEnds|
      invariant row == -1 && forall q :: 0 <= q < r ==> rowEnds[q] > t
    {
      if rowEnds[r] <= t {
        return r;
      }
    }
  }

  /** Rows the bands in place, in the order given, and returns the row count. */
  method SeatAll(sorted: seq<Band>) returns (count: nat)
    requires Distinct(sorted)
    modifies set b | b in sorted
    ensures forall k :: 0 <= k < |sorted| ==> sorted[k].row == Rows(Values(sorted))[k]
    ensures count == if sorted == [] then 1 else |Ends(Values(sorted))|
  {
    var rowEnds: seq<real> := [];
    var maxRow := 0;
    ghost var chunks := Values(sorted);
    for k := 0 to |sorted|
      invariant rowEnds == Ends(chunks[..k])
      invariant forall m :: 0 <= m < k ==> sorted[m].row == Rows(chunks)[m]
      invariant maxRow + 1 == if k == 0 then 1 else |rowEnds|
    {
      var band := sorted[k];
      SeatStep(chunks, k);
      var row := FindRow(rowEnds, band.t0);
      if row < 0 {
        row := |rowEnds|;
        rowEnds := rowEnds + [band.t1];
      } else {
        rowEnds := rowEnds[row := band.t1];
      }
      band.row := row;
      if row > maxRow { maxRow := row; }
    }
    assert chunks[..|chunks|] == chunks;
    count := if 1 < maxRow + 1 then maxRow + 1 else 1;
  }

  /** No two bands in one row overlap. */
  ghost predicate RowsApart(chunks: seq<Band>)
    reads chunks
  {
    forall a, b :: a in chunks && b in chunks && a != b && a.row == b.row ==> a.t1 <= b.t0 || b.t1 <= a.t0
  }

  method AssignTtsChunkRows(bands: seq<Band>) returns (count: nat, ghost sorted: seq<Band>, ghost order: seq<nat>)
    requires Distinct(bands)
    modifies set b | b in bands && b.lane.TtsChunk?
    ensures StableOrder(Values(ChunkBands(bands)), |ChunkBands(bands)|, order) && Follows(sorted, ChunkBands(bands), order)
    ensures forall k :: 0 <= k < |sorted| ==> sorted[k].row == Rows(Values(sorted))[k]
    ensures count == if sorted == [] then 1 else |Ends(Values(sorted))|
    ensures RowsApart(ChunkBands(bands))
  {
    var chunks := FilterChunks(bands);
    ChunkBandsAre(bands);
    var byStart;
    byStart, order := SortByStart(chunks);
    sorted := byStart;
    SortedIsFair(chunks, sorted, order);
    count := SeatAll(byStart);
    forall a, b | a in sorted && b in sorted && a != b && a.row == b.row
      ensures a.t1 <= b.t0 || b.t1 <= a.t0
    {
      var i :| 0 <= i < |sorted| && sorted[i] == a;
      var j :| 0 <= j < |sorted| && sorted[j] == b;
      if i < j { RowsDoNotOverlap(Values(sorted), i, j); } else { RowsDoNotOverlap(Values(sorted), j, i); }
    }
  }

  method FilterChunks(bands: seq<Band>) returns (chunks: seq<Band>)
    ensures chunks == ChunkBands(bands)
  {
    chunks := [];
    for i := 0 to |bands|
      invariant chunks == ChunkBands(bands[..i])
    {
      assert bands[..i + 1][..i] == bands[..i];
      if bands[i].lane.TtsChunk? {
        chunks := chunks + [bands[i]];
      }
    }
    assert bands[..|bands|] == bands;
  }

  /** Sorting moves no chunk past one that comes before it. */
  lemma SortedBusy(chunks: seq<Chunk>, order: seq<nat>, sorted: seq<Chunk>, k: nat)
    requires StableOrder(chunks, |chunks|, order) && |sorted| == |order| && k < |sorted|
    requires forall m :: 0 <= m < |order| ==> sorted[m] == chunks[order[m]]
    ensures |Busy(sorted, k)| == |Busy(chunks, order[k])|
  {
    var n, busy := |chunks|, Busy(sorted, k);
    OrderIsPermutation(chunks, order);
    ImageSize(order, busy);
    forall m: nat | m < n
      ensures ComesBefore(sorted, n, m, k) <==> ComesBefore(chunks, n, order[m], order[k])
    {
      if m < k { assert ComesBefore(chunks, n, order[m], order[k]); }
      if k < m { assert ComesBefore(chunks, n, order[k], order[m]); }
    }
    forall x | x in Busy(chunks, order[k])
      ensures x in Image(order, busy)
    {
      PermutationHits(order, x);
      var m :| 0 <= m < |order| && order[m] == x;
      assert m in busy;
    }
    assert Image(order, busy) == Busy(chunks, order[k]);
  }

  lemma SortedCrowd(chunks: seq<Chunk>, order: seq<nat>, sorted: seq<Chunk>, count: nat, i: nat) returns (k: nat)
    requires StableOrder(chunks, |chunks|, order) && |sorted| == |order| && i < |chunks|
    requires forall m :: 0 <= m < |order| ==> sorted[m] == chunks[order[m]]
    ensures k < |order| && order[k] == i && |Busy(sorted, k)| == |Busy(chunks, i)|
    ensures Crowded(sorted, k, count) <==> Crowded(chunks, i, count)
  {
    OrderIsPermutation(chunks, order);
    PermutationHits(order, i);
    k :| k < |order| && order[k] == i;
    SortedBusy(chunks, order, sorted, k);
  }

  lemma SortedCrowds(chunks: seq<Chunk>, order: seq<nat>, sorted: seq<Chunk>, count: nat)
    requires StableOrder(chunks, |chunks|, order) && |sorted| == |order|
    requires forall m :: 0 <= m < |order| ==> sorted[m] == chunks[order[m]]
    requires MostBusy(sorted, count)
    ensures MostBusy(chunks, count)
    ensures LastingCrowd(sorted, count) <==> LastingCrowd(chunks, count)
  {
    forall i: nat | i < |chunks|
      ensures |Busy(chunks, i)| + 1 <= count
    {
      var k := SortedCrowd(chunks, order, sorted, count, i);
    }
    forall k: nat | Crowded(sorted, k, count)
      ensures Crowded(chunks, order[k], count)
    {
      SortedBusy(chunks, order, sorted, k);
    }
    var most: nat :| Crowded(sorted, most, count);
    assert Crowded(chunks, order[most], count);
    if k: nat :| Crowded(sorted, k, count) && sorted[k].t0 < sorted[k].t1 {
      assert Crowded(chunks, order[k], count);
    }
    if i: nat :| Crowded(chunks, i, count) && chunks[i].t0 < chunks[i].t1 {
      var k := SortedCrowd(chunks, order, sorted, count, i);
      assert Crowded(sorted, k, count);
    }
  }

  lemma SameLive(bands: seq<Band>, others: seq<Band>, t: real)
    requires forall b :: b in bands <==> b in others
    ensures LiveBands(bands, t) == LiveBands(others, t)
  {
  }

  lemma NoRowsForNone(bands: seq<Band>)
    ensures bands == [] ==> Ends(Values(bands)) == []
  {
  }

  /** The row count is exactly what the most crowded chunk band needs; no instant has more bands live,
      and some instant has as many exactly when a band that lasts is a most crowded one. */
  lemma CountIsOptimal(bands: seq<Band>, sorted: seq<Band>, order: seq<nat>, count: nat)
    requires Distinct(bands) && StableOrder(Values(ChunkBands(bands)), |ChunkBands(bands)|, order)
    requires Follows(sorted, ChunkBands(bands), order)
    requires count == if sorted == [] then 1 else |Ends(Values(sorted))|
    ensures forall t :: |LiveBands(ChunkBands(bands), t)| <= count
    ensures ChunkBands(bands) != [] ==> MostBusy(Values(ChunkBands(bands)), count)
    ensures ChunkBands(bands) != [] ==>
              ((exists t :: |LiveBands(ChunkBands(bands), t)| == count) <==> LastingCrowd(Values(ChunkBands(bands)), count))
    ensures ChunkBands(bands) != [] && AllLast(Values(ChunkBands(bands))) ==>
              exists t :: |LiveBands(ChunkBands(bands), t)| == count
  {
    hide Ends, Busy, LiveAt, LiveBands, MostBusy, LastingCrowd;
    var chunks := ChunkBands(bands);
    ChunkBandsAre(bands);
    SortedIsFair(chunks, sorted, order);
    forall t
      ensures |LiveBands(chunks, t)| == |LiveAt(Values(sorted), t)| <= count
    {
      LiveBandsCount(sorted, t);
      SameLive(sorted, chunks, t);
      LiveFitInRows(Values(sorted), t);
      NoRowsForNone(sorted);
    }
    if chunks != [] {
      RowsAreOptimal(Values(sorted));
      InstantNeedsAllRows(Values(sorted));
      SortedCrowds(Values(chunks), order, Values(sorted), count);
      if AllLast(Values(chunks)) { assert AllLast(Values(sorted)); }
      if t :| |LiveBands(chunks, t)| == count { assert |LiveAt(Values(sorted), t)| == count; }
      if t :| |LiveAt(Values(sorted), t)| == count { assert |LiveBands(chunks, t)| == count; }
    }
  }

  // ---------- laying the chunks out ----------

  /** An event of the stream: an audio chunk of a response, one that yields a band in another lane, or one that
      yields none. */
  datatype Event =
    | AudioChunk(rid: string, t: real, ms: real)
    | Elsewhere(lane: string, t0: real, t1: real)
    | NoBand

  /** When the response's first chunk arrived. */
  function Origin(events: seq<Event>, rid: string): real {
    if events == [] then 0.0
    else if events[0].AudioChunk? && events[0].rid == rid then events[0].t
    else Origin(events[1..], rid)
  }

  predicate Heard(events: seq<Event>, rid: string) {
    exists i :: 0 <= i < |events| && events[i].AudioChunk? && events[i].rid == rid
  }

  /** How much audio of the response there has been. */
  function Played(events: seq<Event>, rid: string): real {
    if events == [] then 0.0
    else
      var last := events[|events| - 1];
      Played(events[..|events| - 1], rid) + (if last.AudioChunk? && last.rid == rid then last.ms else 0.0)
  }

  /** The chunk bands the stream should yield: back to back from the first chunk's arrival. */
  function Layout(events: seq<Event>): seq<Chunk> {
    if events == [] then []
    else
      var n := |events| - 1;
      var e := events[n];
      if e.AudioChunk? then
        var start := Origin(events, e.rid) + Played(events[..n], e.rid);
        Layout(events[..n]) + [Chunk(e.rid, start, start + e.ms)]
      else Layout(events[..n])
  }

  predicate NoNegativeAudio(events: seq<Event>) {
    forall i :: 0 <= i < |events| && events[i].AudioChunk? ==> events[i].ms >= 0.0
  }

  predicate PositiveAudio(events: seq<Event>) {
    forall i :: 0 <= i < |events| && events[i].AudioChunk? ==> events[i].ms > 0.0
  }

  lemma PositiveNext(events: seq<Event>, n: nat)
    requires |events| == n + 1
    ensures PositiveAudio(events) <==> PositiveAudio(events[..n]) && (events[n].AudioChunk? ==> events[n].ms > 0.0)
  {
    if PositiveAudio(events) {
      forall i | 0 <= i < n && events[..n][i].AudioChunk?
        ensures events[..n][i].ms > 0.0
      {
        assert events[..n][i] == events[i];
      }
    }
    if PositiveAudio(events[..n]) && (events[n].AudioChunk? ==> events[n].ms > 0.0) {
      forall i | 0 <= i < |events| && events[i].AudioChunk?
        ensures events[i].ms > 0.0
      {
        if i < n { assert events[..n][i] == events[i]; }
      }
    }
  }

  lemma LastsNext(before: seq<Chunk>, c: Chunk)
    ensures AllLast(before + [c]) <==> AllLast(before) && c.t0 < c.t1
  {
    var now := before + [c];
    assert now[|before|] == c && forall i :: 0 <= i < |before| ==> now[i] == before[i];
  }

  lemma {:induction false} LayoutLasts(events: seq<Event>)
    ensures PositiveAudio(events) <==> AllLast(Layout(events))
  {
    if events != [] {
      var n := |events| - 1;
      LayoutLasts(events[..n]);
      PositiveNext(events, n);
      if events[n].AudioChunk? {
        var before, c := Layout(events[..n]), Layout(events)[|Layout(events)| - 1];
        assert Layout(events) == before + [c];
        LastsNext(before, c);
      }
    }
  }

  lemma {:induction false} OriginStays(events: seq<Event>, e: Event, rid: string)
    requires Heard(events, rid)
    ensures Origin(events + [e], rid) == Origin(events, rid)
  {
    if !(events[0].AudioChunk? && events[0].rid == rid) {
      var i :| 0 <= i < |events| && events[i].AudioChunk? && events[i].rid == rid;
      assert events[1..][i - 1] == events[i];
      assert (events + [e])[1..] == events[1..] + [e];
      OriginStays(events[1..], e, rid);
    }
  }

  lemma {:induction false} OriginNow(events: seq<Event>, e: Event)
    requires e.AudioChunk? && !Heard(events, e.rid)
    ensures Origin(events + [e], e.rid) == e.t
  {
    if events != [] {
      assert !(events[0].AudioChunk? && events[0].rid == e.rid);
      assert (events + [e])[1..] == events[1..] + [e];
      assert forall i :: 0 <= i < |events[1..]| ==> events[1..][i] == events[i + 1];
      OriginNow(events[1..], e);
    }
  }

  /** How many audio chunks there have been. */
  function ChunkCount(events: seq<Event>): nat {
    if events == [] then 0 else ChunkCount(events[..|events| - 1]) + if events[|events| - 1].AudioChunk? then 1 else 0
  }

  /** Chunk k of the layout is that of event i: its response and its length, starting where the last chunk of the
      response before it ended, or when it arrived if it is the first. */
  ghost predicate LaidFor(chunks: seq<Chunk>, k: nat, e: Event) {
    && k < |chunks| && e.AudioChunk? && chunks[k].rid == e.rid && chunks[k].t1 == chunks[k].t0 + e.ms
    && (if exists j :: 0 <= j < k && chunks[j].rid == e.rid
        then exists j: nat :: IsPrevious(chunks, j, k) && chunks[k].t0 == chunks[j].t1
        else chunks[k].t0 == e.t)
  }

  ghost predicate IsPrevious(chunks: seq<Chunk>, j: nat, k: nat) {
    j < k < |chunks| && chunks[j].rid == chunks[k].rid && forall m :: j < m < k ==> chunks[m].rid != chunks[k].rid
  }

  /** The layout has one chunk for each audio chunk of the stream, in its order, each back to back with its
      response's last. */
  lemma {:induction false} LayoutIsBackToBack(events: seq<Event>)
    ensures |Layout(events)| == ChunkCount(events)
    ensures forall i :: 0 <= i < |events| && events[i].AudioChunk? ==> LaidFor(Layout(events), ChunkCount(events[..i]), events[i])
  {
    if events != [] {
      var n := |events| - 1;
      var before, e := events[..n], events[n];
      LayoutIsBackToBack(before);
      assert events == before + [e];
      forall i | 0 <= i < |events| && events[i].AudioChunk?
        ensures LaidFor(Layout(events), ChunkCount(events[..i]), events[i])
      {
        if i < n {
          assert before[..i] == events[..i] && before[i] == events[i];
          LaidStays(Layout(before), Layout(events), ChunkCount(events[..i]), events[i]);
        } else {
          LastIsLaid(before, e);
        }
      }
    }
  }

  lemma LaidStays(chunks: seq<Chunk>, more: seq<Chunk>, k: nat, e: Event)
    requires LaidFor(chunks, k, e) && chunks <= more
    ensures LaidFor(more, k, e)
  {
    if j: nat :| IsPrevious(chunks, j, k) && chunks[k].t0 == chunks[j].t1 { assert IsPrevious(more, j, k); }
  }

  lemma LastIsLaid(before: seq<Event>, e: Event)
    requires e.AudioChunk?
    ensures LaidFor(Layout(before + [e]), |Layout(before)|, e)
  {
    assert (before + [e])[..|before|] == before;
    var chunks := Layout(before + [e]);
    if j :| 0 <= j < |Layout(before)| && Layout(before)[j].rid == e.rid {
      var m := LatestLaid(before, e.rid);
      OriginStays(before, e, e.rid);
      assert IsPrevious(chunks, m, |Layout(before)|);
    } else {
      UnlaidIsUnheard(before, e.rid);
      OriginNow(before, e);
      UnheardIsSilent(before, e.rid);
    }
  }

  lemma {:induction false} UnlaidIsUnheard(events: seq<Event>, rid: string)
    requires forall j :: 0 <= j < |Layout(events)| ==> Layout(events)[j].rid != rid
    ensures !Heard(events, rid)
  {
    if events != [] {
      var n := |events| - 1;
      assert forall j :: 0 <= j < |Layout(events[..n])| ==> Layout(events[..n])[j] == Layout(events)[j];
      UnlaidIsUnheard(events[..n], rid);
      assert events == events[..n] + [events[n]];
      NextHeard(events[..n], events[n], rid);
      if events[n].AudioChunk? { assert Layout(events)[|Layout(events)| - 1].rid == events[n].rid; }
    }
  }

  /** The last chunk laid for a response ends where its audio stands. */
  lemma {:induction false} LatestLaid(events: seq<Event>, rid: string) returns (m: nat)
    requires exists j :: 0 <= j < |Layout(events)| && Layout(events)[j].rid == rid
    ensures m < |Layout(events)| && Layout(events)[m].rid == rid && Heard(events, rid)
    ensures forall j :: m < j < |Layout(events)| ==> Layout(events)[j].rid != rid
    ensures Layout(events)[m].t1 == Origin(events, rid) + Played(events, rid)
  {
    var n := |events| - 1;
    var before, e := events[..n], events[n];
    assert events == before + [e];
    NextHeard(before, e, rid);
    if e.AudioChunk? && e.rid == rid {
      m := |Layout(before)|;
    } else {
      m := LatestLaid(before, rid);
      OriginStays(before, e, rid);
    }
  }

  /** Where response rid's audio stands: its chunks so far end by here, and its next one starts here. */
  lemma {:induction false} LayoutEnds(events: seq<Event>, k: nat)
    requires NoNegativeAudio(events) && k < |Layout(events)|
    ensures Heard(events, Layout(events)[k].rid)
    ensures Layout(events)[k].t0 <= Layout(events)[k].t1 <=
            Origin(events, Layout(events)[k].rid) + Played(events, Layout(events)[k].rid)
  {
    var n := |events| - 1;
    var before, e := events[..n], events[n];
    assert events == before + [e];
    var c := Layout(events)[k];
    if k < |Layout(before)| {
      LayoutEnds(before, k);
      var i :| 0 <= i < |before| && before[i].AudioChunk? && before[i].rid == c.rid;
      assert events[i].AudioChunk? && events[i].rid == c.rid;
      OriginStays(before, e, c.rid);
    } else {
      assert events[n].AudioChunk? && events[n].rid == c.rid;
    }
  }

  /** In the order laid out, each response's chunks follow one another. */
  lemma {:induction false} LayoutAbuts(events: seq<Event>)
    requires NoNegativeAudio(events)
    ensures ResponsesAbut(Layout(events))
  {
    if events != [] {
      var n := |events| - 1;
      var before, e := events[..n], events[n];
      LayoutAbuts(before);
      assert events == before + [e];
      forall i, j | 0 <= i < j < |Layout(events)| && Layout(events)[i].rid == Layout(events)[j].rid
        ensures Layout(events)[i].t1 <= Layout(events)[j].t0
      {
        if j == |Layout(before)| {
          LayoutEnds(before, i);
          OriginStays(before, e, e.rid);
        }
      }
    }
  }

  /** Sorting by start keeps each response's chunks in order. */
  lemma SortedAbuts(chunks: seq<Chunk>, order: seq<nat>, sorted: seq<Chunk>)
    requires ResponsesAbut(chunks) && StableOrder(chunks, |chunks|, order)
    requires forall i :: 0 <= i < |chunks| ==> chunks[i].t0 <= chunks[i].t1
    requires |sorted| == |order| && forall k :: 0 <= k < |order| ==> sorted[k] == chunks[order[k]]
    ensures ResponsesAbut(sorted) && ByStart(sorted) && Rids(sorted) <= Rids(chunks)
  {
    forall i, j | 0 <= i < j < |sorted|
      ensures sorted[i].t0 <= sorted[j].t0
      ensures sorted[i].rid == sorted[j].rid ==> sorted[i].t1 <= sorted[j].t0
    {
      var x, y := order[i], order[j];
      assert ComesBefore(chunks, |chunks|, x, y);
      assert x < y || y < x;
    }
  }

  ghost function Responses(events: seq<Event>): set<string> {
    set e | e in events && e.AudioChunk? :: e.rid
  }

  lemma {:induction false} LaidOutForResponses(events: seq<Event>)
    ensures Rids(Layout(events)) <= Responses(events)
  {
    if events != [] {
      var before, e := events[..|events| - 1], events[|events| - 1];
      LaidOutForResponses(before);
      assert events == before + [e];
      assert Responses(before) <= Responses(events);
    }
  }

  /** With no chunk of negative length, the chunks laid out never need more rows than there are responses. */
  lemma RowsPerResponse(events: seq<Event>, order: seq<nat>, sorted: seq<Chunk>)
    requires NoNegativeAudio(events) && StableOrder(Layout(events), |Layout(events)|, order)
    requires |sorted| == |order| && forall k :: 0 <= k < |order| ==> sorted[k] == Layout(events)[order[k]]
    ensures |Ends(sorted)| <= |Responses(events)|
  {
    LayoutAbuts(events);
    forall i | 0 <= i < |Layout(events)|
      ensures Layout(events)[i].t0 <= Layout(events)[i].t1
    {
      LayoutEnds(events, i);
    }
    SortedAbuts(Layout(events), order, sorted);
    RowsWithinResponses(sorted);
    LaidOutForResponses(events);
    SubsetSize(Rids(sorted), Responses(events));
  }

  lemma ChunkBandsGrow(bands: seq<Band>, b: Band)
    ensures ChunkBands(bands + [b]) == ChunkBands(bands) + if b.lane.TtsChunk? then [b] else []
  {
    assert (bands + [b])[..|bands|] == bands;
  }

  lemma NextHeard(events: seq<Event>, e: Event, r: string)
    ensures Heard(events + [e], r) <==> Heard(events, r) || (e.AudioChunk? && e.rid == r)
  {
    var now := events + [e];
    if Heard(events, r) {
      var i :| 0 <= i < |events| && events[i].AudioChunk? && events[i].rid == r;
      assert now[i].AudioChunk? && now[i].rid == r;
    }
    assert now[|events|] == e;
  }

  lemma {:induction false} UnheardIsSilent(events: seq<Event>, rid: string)
    requires !Heard(events, rid)
    ensures Played(events, rid) == 0.0
  {
    if events != [] {
      var n := |events| - 1;
      assert forall i :: 0 <= i < n ==> events[..n][i] == events[i];
      UnheardIsSilent(events[..n], rid);
      assert !(events[n].AudioChunk? && events[n].rid == rid);
    }
  }

  /** Origin and cursor hold, for each response heard, when it began and how much audio it has had. */
  ghost predicate PlaybackAfter(origin: map<string, real>, cursor: map<string, real>, events: seq<Event>) {
    && (forall r :: r in origin <==> Heard(events, r))
    && cursor.Keys == origin.Keys
    && (forall r :: r in origin ==> origin[r] == Origin(events, r))
    && (forall r :: r in cursor ==> cursor[r] == Played(events, r))
  }

  lemma QuietEvent(origin: map<string, real>, cursor: map<string, real>, events: seq<Event>, e: Event)
    requires PlaybackAfter(origin, cursor, events) && !e.AudioChunk?
    ensures PlaybackAfter(origin, cursor, events + [e]) && Layout(events + [e]) == Layout(events)
  {
    assert (events + [e])[..|events|] == events;
    forall r { NextHeard(events, e, r); }
    forall r | r in origin { OriginStays(events, e, r); }
  }

  function OriginWith(origin: map<string, real>, rid: string, t: real): map<string, real> {
    if rid in origin then origin else origin[rid := t]
  }

  function CursorWith(origin: map<string, real>, cursor: map<string, real>, rid: string, ms: real): map<string, real>
    requires cursor.Keys == origin.Keys
  {
    cursor[rid := (if rid in origin then cursor[rid] else 0.0) + ms]
  }

  function ChunkNext(origin: map<string, real>, cursor: map<string, real>, rid: string, t: real, ms: real): Chunk
    requires cursor.Keys == origin.Keys
  {
    var start := if rid in origin then origin[rid] + cursor[rid] else t;
    Chunk(rid, start, start + ms)
  }

  lemma ChunkIsLaid(origin: map<string, real>, cursor: map<string, real>, events: seq<Event>, e: Event)
    requires PlaybackAfter(origin, cursor, events) && e.AudioChunk?
    ensures Layout(events + [e]) == Layout(events) + [ChunkNext(origin, cursor, e.rid, e.t, e.ms)]
  {
    var now, start := events + [e], Origin(events + [e], e.rid) + Played(events, e.rid);
    assert now[..|events|] == events;
    if e.rid in origin {
      OriginStays(events, e, e.rid);
    } else {
      OriginNow(events, e);
      UnheardIsSilent(events, e.rid);
    }
    assert ChunkNext(origin, cursor, e.rid, e.t, e.ms) == Chunk(e.rid, start, start + e.ms);
  }

  /** One more chunk keeps the records true of the events, and is laid out where the records say. */
  lemma ChunkEvent(origin: map<string, real>, cursor: map<string, real>, events: seq<Event>, e: Event)
    requires PlaybackAfter(origin, cursor, events) && e.AudioChunk?
    ensures Layout(events + [e]) == Layout(events) + [ChunkNext(origin, cursor, e.rid, e.t, e.ms)]
    ensures PlaybackAfter(OriginWith(origin, e.rid, e.t), CursorWith(origin, cursor, e.rid, e.ms), events + [e])
  {
    ChunkIsLaid(origin, cursor, events, e);
    var now, origin', cursor' := events + [e], OriginWith(origin, e.rid, e.t), CursorWith(origin, cursor, e.rid, e.ms);
    assert origin'.Keys == origin.Keys + {e.rid} == cursor'.Keys;
    forall r
      ensures r in origin' <==> Heard(now, r)
      ensures r in origin' ==> origin'[r] == Origin(now, r) && cursor'[r] == Played(now, r)
    {
      NextHeard(events, e, r);
      assert now[..|events|] == events;
      if r in origin {
        OriginStays(events, e, r);
      } else if r == e.rid {
        OriginNow(events, e);
        UnheardIsSilent(events, r);
      }
    }
  }

  class Timeline {
    var bands: seq<Band>
    var ttsPlaybackOrigin: map<string, real>
    var ttsPlaybackCursor: map<string, real>

    constructor ()
      ensures bands == [] && ttsPlaybackOrigin == map[] && ttsPlaybackCursor == map[]
    {
      bands, ttsPlaybackOrigin, ttsPlaybackCursor := [], map[], map[];
    }

    /** The timeline stands where the events so far leave it. */
    ghost predicate After(events: seq<Event>)
      reads this
    {
      && Distinct(bands)
      && Values(ChunkBands(bands)) == Layout(events)
      && PlaybackAfter(ttsPlaybackOrigin, ttsPlaybackCursor, events)
    }

    method Ingest(e: Event, ghost events: seq<Event>)
      requires After(events)
      modifies this
      ensures After(events + [e])
      ensures fresh(set b | b in bands && b !in old(bands))
    {
      match e
      case AudioChunk(rid, t, ms) =>
        ChunkEvent(ttsPlaybackOrigin, ttsPlaybackCursor, events, e);
        IngestTtsChunk(rid, t, ms);
      case Elsewhere(lane, t0, t1) =>
        QuietEvent(ttsPlaybackOrigin, ttsPlaybackCursor, events, e);
        Push(OtherLane(lane), "", t0, t1);
      case NoBand =>
        QuietEvent(ttsPlaybackOrigin, ttsPlaybackCursor, events, e);
    }

    method IngestTtsChunk(rid: string, t: real, ms: real)
      requires Distinct(bands) && ttsPlaybackCursor.Keys == ttsPlaybackOrigin.Keys
      modifies this
      ensures ttsPlaybackOrigin == old(OriginWith(ttsPlaybackOrigin, rid, t))
      ensures ttsPlaybackCursor == old(CursorWith(ttsPlaybackOrigin, ttsPlaybackCursor, rid, ms))
      ensures Distinct(bands) && Values(ChunkBands(bands)) ==
                old(Values(ChunkBands(bands)) + [ChunkNext(ttsPlaybackOrigin, ttsPlaybackCursor, rid, t, ms)])
      ensures fresh(set b | b in bands && b !in old(bands))
    {
      if rid !in ttsPlaybackOrigin {
        ttsPlaybackOrigin := ttsPlaybackOrigin[rid := t];
        ttsPlaybackCursor := ttsPlaybackCursor[rid := 0.0];
      }
      var cursor, origin := ttsPlaybackCursor[rid], ttsPlaybackOrigin[rid];
      Push(TtsChunk, rid, origin + cursor, origin + cursor + ms);
      ttsPlaybackCursor := ttsPlaybackCursor[rid := cursor + ms];
    }

    method Push(lane: Lane, rid: string, t0: real, t1: real)
      requires Distinct(bands)
      modifies `bands
      ensures Distinct(bands)
      ensures Values(ChunkBands(bands)) ==
                old(Values(ChunkBands(bands))) + if lane.TtsChunk? then [Chunk(rid, t0, t1)] else []
      ensures fresh(set b | b in bands && b !in old(bands))
    {
      var b := new Band(lane, rid, t0, t1);
      ChunkBandsGrow(bands, b);
      bands := bands + [b];
    }
  }

  /** Lays out the whole stream and rows its chunk bands. */
  method RebuildBands(events: seq<Event>) returns (timeline: Timeline, count: nat)
    ensures fresh(timeline) && timeline.After(events)
    ensures RowsApart(ChunkBands(timeline.bands))
    ensures NoNegativeAudio(events) ==> count <= if Responses(events) == {} then 1 else |Responses(events)|
    ensures forall t :: |LiveBands(ChunkBands(timeline.bands), t)| <= count
    ensures Layout(events) == [] ==> count == 1
    ensures Layout(events) != [] ==> MostBusy(Layout(events), count)
    ensures Layout(events) != [] ==>
              ((exists t :: |LiveBands(ChunkBands(timeline.bands), t)| == count) <==> LastingCrowd(Layout(events), count))
    ensures Layout(events) != [] && PositiveAudio(events) ==>
              exists t :: |LiveBands(ChunkBands(timeline.bands), t)| == count
  {
    hide PositiveAudio, AllLast, MostBusy, LastingCrowd, Busy, StableOrder;
    timeline := new Timeline();
    for i := 0 to |events|
      invariant fresh(timeline) && timeline.After(events[..i])
      invariant fresh(set b | b in timeline.bands)
    {
      timeline.Ingest(events[i], events[..i]);
      assert events[..i] + [events[i]] == events[..i + 1];
    }
    assert events[..|events|] == events;
    ghost var sorted, order;
    count, sorted, order := AssignTtsChunkRows(timeline.bands);
    CountIsOptimal(timeline.bands, sorted, order, count);
    LayoutLasts(events);
    if NoNegativeAudio(events) {
      RowsPerResponse(events, order, Values(sorted));
    }
  }
}
