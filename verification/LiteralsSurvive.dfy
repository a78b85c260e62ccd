/** Literals come through stripping and blank-line collapse byte for byte. */
module LiteralsSurvive {
  import opened TextLines
  import opened BlankLines
  import opened CommentEmitter
  import opened GoScanner
  import opened RustScanner
  import opened SourceScan

  // ---------- where a literal's lines are ----------

  lemma RunOnAtOne(a: seq<string>, s: string, c: seq<string>)
    requires a != [] && c != []
    ensures RunOn(RunOn(a, [s]), c)[|a| - 1] == a[|a| - 1] + s + c[0]
  {}

  /** The lines with u put before the first and v after the last. */
  function Around(u: string, b: seq<string>, v: string): seq<string>
    requires |b| >= 2
  {
    [u + b[0]] + b[1..|b| - 1] + [b[|b| - 1] + v]
  }

  lemma RunOnAtMany(a: seq<string>, b: seq<string>, c: seq<string>)
    requires a != [] && |b| >= 2 && c != []
    ensures var lines := RunOn(RunOn(a, b), c);
            |a| - 1 + |b| <= |lines| && lines[|a| - 1..|a| - 1 + |b|] == Around(a[|a| - 1], b, c[0])
  {
    var ab := RunOn(a, b);
    assert ab[|a| - 1] == a[|a| - 1] + b[0] && ab[|ab| - 1] == b[|b| - 1];
    var got, want := RunOn(ab, c)[|a| - 1..|a| - 1 + |b|], Around(a[|a| - 1], b, c[0]);
    forall k | 0 <= k < |b|
      ensures got[k] == want[k]
    {
      if 0 < k < |b| - 1 { assert ab[|a| - 1 + k] == b[k]; }
    }
  }

  /** Lines at to at + n, joined, hold the piece behind u characters, with v characters after it and
      last characters of it on its last line, counting what stands before it there. */
  ghost predicate Touched(lines: seq<string>, at: nat, n: nat, u: nat, lit: string, last: nat, v: nat) {
    && at + n < |lines|
    && (n > 0 ==> HoldsAt(Join(lines[at..at + n + 1]), lit, u, v) && |lines[at + n]| == last + v)
    && (n == 0 ==> HoldsAt(lines[at], lit, u, v) && last == u + |lit|)
  }

  /** The text is the piece with u characters before it and v after it. */
  predicate HoldsAt(s: string, lit: string, u: nat, v: nat) {
    |s| == u + |lit| + v && At(s, lit, u)
  }

  lemma ConcatHolds(u: string, lit: string, v: string)
    ensures HoldsAt(u + lit + v, lit, |u|, |v|)
  {}

  lemma TouchedLines(pre: string, lit: string, post: string) returns (v: nat)
    ensures Touched(Lines(pre + lit + post), Breaks(pre), Breaks(lit), |LastLine(pre)|, lit, |LastLine(pre + lit)|, v)
  {
    hide Lines, Join;
    LastLineConcat(pre, lit);
    LinesConcat(pre, lit);
    LinesConcat(pre + lit, post);
    JoinLines(lit);
    v := TouchedRun(Lines(pre), Lines(lit), Lines(post));
  }

  lemma TouchedRun(a: seq<string>, b: seq<string>, c: seq<string>) returns (v: nat)
    requires a != [] && b != [] && c != []
    ensures var last := if |b| == 1 then |a[|a| - 1]| + |b[0]| else |b[|b| - 1]|;
            Touched(RunOn(RunOn(a, b), c), |a| - 1, |b| - 1, |a[|a| - 1]|, Join(b), last, v)
  {
    hide Join;
    v := |c[0]|;
    var u := a[|a| - 1];
    assert |RunOn(RunOn(a, b), c)| == |a| + |b| + |c| - 2;
    ConcatHolds(u, Join(b), c[0]);
    if |b| == 1 {
      JoinOne(b[0]);
      assert b == [b[0]];
      RunOnAtOne(a, b[0], c);
    } else {
      RunOnAtMany(a, b, c);
      JoinAround(b, u, c[0]);
      assert RunOn(RunOn(a, b), c)[|a| - 1..|a| - 1 + |b|][|b| - 1] == b[|b| - 1] + c[0];
    }
  }

  lemma JoinOne(line: string)
    ensures Join([line]) == line
  {}

  lemma JoinAround(b: seq<string>, u: string, v: string)
    requires |b| >= 2
    ensures Join(Around(u, b, v)) == u + Join(b) + v
  {
    var n := |b| - 1;
    JoinBefore(b[..n], u);
    var front := [u + b[0]] + b[..n][1..];
    var all := Around(u, b, v);
    assert all[..n] == front && all[n] == b[n] + v;
    assert Join(front) == u + Join(b[..n]);
    JoinedAround(Join(b[..n]), u, b[n], v);
  }

  lemma JoinedAround(head: string, u: string, last: string, v: string)
    ensures u + head + "\n" + (last + v) == u + (head + "\n" + last) + v
  {}

  lemma {:induction false} JoinBefore(b: seq<string>, u: string)
    requires b != []
    ensures Join([u + b[0]] + b[1..]) == u + Join(b)
  {
    var n := |b| - 1;
    var all := [u + b[0]] + b[1..];
    if n > 0 {
      JoinBefore(b[..n], u);
      assert all[..|all| - 1] == [u + b[0]] + b[..n][1..];
      assert u + Join(b[..n]) + "\n" + b[n] == u + (Join(b[..n]) + "\n" + b[n]);
    }
  }

  // ---------- a literal and the collapser ----------

  ghost predicate Protects(protected: set<nat>, at: nat, n: nat) {
    forall l :: at <= l <= at + n ==> l in protected
  }

  /** Protected lines stay as they are. */
  lemma {:induction false} ProtectedStay(lines: seq<string>, protected: set<nat>, a: nat, b: nat)
    requires a <= b <= |lines| && forall k :: a <= k < b ==> k in protected
    ensures Survivors(lines, protected, b) == Survivors(lines, protected, a) + lines[a..b]
    decreases b
  {
    if a < b {
      ProtectedStay(lines, protected, a, b - 1);
      assert lines[a..b] == lines[a..b - 1] + [lines[b - 1]];
    }
  }

  /** What the collapser makes of a text, but for the line feed it adds at the end. */
  function Body(text: string, protected: set<nat>): string {
    Join(Survivors(Lines(text), protected, |Lines(text)|))
  }

  /** Where the collapser puts column c of line l: behind the lines that stay before it. */
  function Spot(lines: seq<string>, protected: set<nat>, l: nat, c: nat): nat
    requires l <= |lines|
  {
    |Lead(Survivors(lines, protected, l))| + c
  }

  /** Line l stays, and is shown at least up to column c. */
  ghost predicate ShownTo(lines: seq<string>, protected: set<nat>, l: nat, c: nat) {
    l < |lines| && !Empty(lines, protected, l) && c <= |Shown(lines, protected, l)|
  }

  /** Lines that stay together after the first a come out together, behind those of the first a that stay. */
  lemma RunLands(lines: seq<string>, protected: set<nat>, a: nat, b: nat, run: seq<string>)
    requires a <= b <= |lines| && run != []
    requires Survivors(lines, protected, b) == Survivors(lines, protected, a) + run
    ensures At(Join(Survivors(lines, protected, |lines|)), Join(run), Spot(lines, protected, a, 0))
    ensures Spot(lines, protected, b, 0) == Spot(lines, protected, a, |Join(run)| + 1)
  {
    var after := SurvivorsGrow(lines, protected, b, |lines|);
    JoinHolds(Survivors(lines, protected, a), run, after);
    JoinTail(Survivors(lines, protected, a), run);
  }

  lemma StretchLands(lines: seq<string>, protected: set<nat>, a: nat, b: nat)
    requires a < b <= |lines| && forall k :: a <= k < b ==> k in protected
    ensures At(Join(Survivors(lines, protected, |lines|)), Join(lines[a..b]), Spot(lines, protected, a, 0))
    ensures Spot(lines, protected, b, 0) == Spot(lines, protected, a, |Join(lines[a..b])| + 1)
  {
    ProtectedStay(lines, protected, a, b);
    RunLands(lines, protected, a, b, lines[a..b]);
  }

  /** A piece of several lines, all of them protected, comes through the collapser. */
  lemma LinesLand(lines: seq<string>, protected: set<nat>, at: nat, n: nat, u: nat, lit: string, v: nat)
    requires at + n < |lines| && Protects(protected, at, n) && HoldsAt(Join(lines[at..at + n + 1]), lit, u, v)
    ensures At(Join(Survivors(lines, protected, |lines|)), lit, Spot(lines, protected, at, u))
  {
    hide Survivors, Join;
    StretchLands(lines, protected, at, at + n + 1);
    AtWithin(Join(Survivors(lines, protected, |lines|)), Join(lines[at..at + n + 1]), lit, Spot(lines, protected, at, 0), u);
  }

  /** The end of such a piece lands right behind it. */
  lemma LinesEnd(lines: seq<string>, protected: set<nat>, at: nat, n: nat, u: nat, lit: string, last: nat, v: nat)
    requires n > 0 && at + n < |lines| && Protects(protected, at, n)
    requires |Join(lines[at..at + n + 1])| == u + |lit| + v && |lines[at + n]| == last + v
    ensures Spot(lines, protected, at + n, last) == Spot(lines, protected, at, u + |lit|)
    ensures ShownTo(lines, protected, at + n, last)
  {
    hide Survivors, Join;
    StretchLands(lines, protected, at, at + n);
    JoinedLength(lines, at, n);
    assert at + n in protected;
  }

  lemma JoinedLength(lines: seq<string>, at: nat, n: nat)
    requires n > 0 && at + n < |lines|
    ensures |Join(lines[at..at + n + 1])| == |Join(lines[at..at + n])| + 1 + |lines[at + n]|
  {
    var run := lines[at..at + n + 1];
    assert run[..|run| - 1] == lines[at..at + n] && run[|run| - 1] == lines[at + n];
  }

  lemma LineStays(lines: seq<string>, protected: set<nat>, l: nat)
    requires l < |lines| && !Empty(lines, protected, l)
    ensures Survivors(lines, protected, l + 1) == Survivors(lines, protected, l) + [Shown(lines, protected, l)]
  {
    hide RStrip;
  }

  /** A piece within one line comes through if the line is protected or the piece ends in no blank. */
  lemma LineLands(lines: seq<string>, protected: set<nat>, at: nat, u: nat, lit: string, v: nat)
    requires at < |lines| && HoldsAt(lines[at], lit, u, v)
    requires at in protected || (lit != [] && !Blank(lit[|lit| - 1]))
    ensures At(Join(Survivors(lines, protected, |lines|)), lit, Spot(lines, protected, at, u))
    ensures ShownTo(lines, protected, at, u + |lit|)
  {
    hide Survivors, Join, RStrip;
    var shown := Shown(lines, protected, at);
    if at !in protected { StripHolds(lines[at], lit, u); }
    LineStays(lines, protected, at);
    RunLands(lines, protected, at, at + 1, [shown]);
    JoinOne(shown);
    AtWithin(Join(Survivors(lines, protected, |lines|)), shown, lit, Spot(lines, protected, at, 0), u);
  }

  lemma StripHolds(line: string, lit: string, u: nat)
    requires At(line, lit, u) && lit != [] && !Blank(lit[|lit| - 1])
    ensures At(RStrip(line), lit, u) && |RStrip(line)| >= u + |lit|
  {
    assert line[u..u + |lit|][|lit| - 1] == line[u + |lit| - 1];
    assert RStrip(line)[u..u + |lit|] == line[u..u + |lit|];
  }

  lemma TouchedLands(lines: seq<string>, protected: set<nat>, at: nat, n: nat, u: nat, lit: string, last: nat, v: nat)
    requires Touched(lines, at, n, u, lit, last, v)
    requires Protects(protected, at, n) || (n == 0 && lit != [] && !Blank(lit[|lit| - 1]))
    ensures At(Join(Survivors(lines, protected, |lines|)), lit, Spot(lines, protected, at, u))
    ensures Spot(lines, protected, at + n, last) == Spot(lines, protected, at, u + |lit|)
    ensures ShownTo(lines, protected, at + n, last)
  {
    hide Survivors, Join, RStrip;
    if n > 0 {
      LinesLand(lines, protected, at, n, u, lit, v);
      LinesEnd(lines, protected, at, n, u, lit, last, v);
    } else {
      LineLands(lines, protected, at, u, lit, v);
    }
  }

  /** Spots keep their order, from any place that is shown on. */
  lemma SpotsInOrder(lines: seq<string>, protected: set<nat>, l: nat, c: nat, m: nat, d: nat)
    requires ShownTo(lines, protected, l, c) && m <= |lines| && (l < m || (l == m && c <= d))
    ensures Spot(lines, protected, l, c) <= Spot(lines, protected, m, d)
  {
    if l < m {
      hide Survivors, Join, RStrip;
      LineStays(lines, protected, l);
      RunLands(lines, protected, l, l + 1, [Shown(lines, protected, l)]);
      assert Join([Shown(lines, protected, l)]) == Shown(lines, protected, l) by { JoinOne(Shown(lines, protected, l)); }
      SpotsGrow(lines, protected, l + 1, m);
    }
  }

  lemma {:induction false} SpotsGrow(lines: seq<string>, protected: set<nat>, a: nat, b: nat)
    requires a <= b <= |lines|
    ensures Spot(lines, protected, a, 0) <= Spot(lines, protected, b, 0)
    decreases b
  {
    if a < b {
      SpotsGrow(lines, protected, a, b - 1);
      LeadGrows(Survivors(lines, protected, b - 1), Shown(lines, protected, b - 1));
      assert Survivors(lines, protected, b) == Survivors(lines, protected, b - 1) +
             if Stays(lines, protected, b - 1) then [Shown(lines, protected, b - 1)] else [];
      assert Survivors(lines, protected, b - 1) + [] == Survivors(lines, protected, b - 1);
    }
  }

  lemma LeadGrows(before: seq<string>, line: string)
    ensures |Lead(before)| <= |Lead(before + [line])|
  {
    JoinTail(before, [line]);
  }

  // ---------- places in the text ----------

  /** Where the collapser puts what stands at o in the text. */
  function Landing(text: string, protected: set<nat>, o: nat): nat
    requires o <= |text|
  {
    LinesUpTo(text, o);
    Spot(Lines(text), protected, Breaks(text[..o]), |LastLine(text[..o])|)
  }

  lemma LinesUpTo(text: string, o: nat)
    requires o <= |text|
    ensures Breaks(text[..o]) < |Lines(text)|
  {
    LinesConcat(text[..o], text[o..]);
    assert text[..o] + text[o..] == text;
  }

  ghost predicate StaysAt(text: string, protected: set<nat>, o: nat)
    requires o <= |text|
  {
    ShownTo(Lines(text), protected, Breaks(text[..o]), |LastLine(text[..o])|)
  }

  /** The piece at o comes out unbroken, from the landing of its beginning to that of its end. */
  ghost predicate Lands(text: string, protected: set<nat>, o: nat, lit: string) {
    && o + |lit| <= |text|
    && At(Body(text, protected), lit, Landing(text, protected, o))
    && Landing(text, protected, o + |lit|) == Landing(text, protected, o) + |lit|
    && StaysAt(text, protected, o + |lit|)
  }

  lemma Upto(pre: string, lit: string, post: string)
    ensures var text := pre + lit + post; text[..|pre|] == pre && text[..|pre| + |lit|] == pre + lit
  {}

  /** The two ways in which a piece comes through. */
  predicate Guards(pre: string, lit: string, protected: set<nat>) {
    || (forall l :: Breaks(pre) <= l <= Breaks(pre) + Breaks(lit) ==> l in protected)
    || (Breaks(lit) == 0 && lit != [] && !Blank(lit[|lit| - 1]))
  }

  lemma PieceLands(pre: string, lit: string, post: string, protected: set<nat>)
    requires Guards(pre, lit, protected)
    ensures Lands(pre + lit + post, protected, |pre|, lit)
  {
    hide Survivors, Join, Lines, RStrip;
    var v := TouchedLines(pre, lit, post);
    TouchedLands(Lines(pre + lit + post), protected, Breaks(pre), Breaks(lit), |LastLine(pre)|, lit, |LastLine(pre + lit)|, v);
    LastLineConcat(pre, lit);
    Upto(pre, lit, post);
  }

  /** Landings keep their order, from any place that is shown on. */
  lemma LandingsInOrder(text: string, protected: set<nat>, q: nat, p: nat)
    requires q <= p <= |text| && StaysAt(text, protected, q)
    ensures Landing(text, protected, q) <= Landing(text, protected, p)
  {
    hide Survivors, Join, Lines, RStrip;
    LinesUpTo(text, p);
    assert text[..p] == text[..q] + text[q..p];
    LastLineConcat(text[..q], text[q..p]);
    SpotsInOrder(Lines(text), protected, Breaks(text[..q]), |LastLine(text[..q])|, Breaks(text[..p]), |LastLine(text[..p])|);
  }

  /** What lands whole comes before whatever lands from a later place. */
  lemma LandsBefore(text: string, protected: set<nat>, o: nat, lit: string, p: nat)
    requires Lands(text, protected, o, lit) && o + |lit| <= p <= |text|
    ensures Landing(text, protected, o) + |lit| <= Landing(text, protected, p)
  {
    hide Survivors, Join, Lines, RStrip, Spot;
    LandingsInOrder(text, protected, o + |lit|, p);
  }

  lemma LandsInCollapsed(text: string, protected: set<nat>, o: nat, lit: string)
    requires Lands(text, protected, o, lit)
    ensures At(Collapsed(text, protected), lit, Landing(text, protected, o))
  {
    hide Survivors, Join, Lines, RStrip;
    var body := Body(text, protected);
    assert At(body + "\n", body, 0);
    AtWithin(body + "\n", body, lit, 0, Landing(text, protected, o));
  }

  function Collapsed(text: string, protected: set<nat>): string {
    Body(text, protected) + "\n"
  }

  // ---------- the literals of the strippers' output ----------

  /** The output line that piece k starts on. */
  function LineAt(src: string, pieces: seq<Piece>, k: nat): nat
    requires AllInSource(src, pieces) && k <= |pieces|
  {
    if k == |pieces| then Breaks(TextOf(src, pieces)) else LineAt(src, pieces[..|pieces| - 1], k)
  }

  lemma {:induction false} LineAtIs(src: string, pieces: seq<Piece>, k: nat)
    requires AllInSource(src, pieces) && k <= |pieces|
    ensures LineAt(src, pieces, k) == Breaks(TextOf(src, pieces[..k]))
  {
    if k < |pieces| {
      var before := pieces[..|pieces| - 1];
      LineAtIs(src, before, k);
      assert before[..k] == pieces[..k];
    } else {
      assert pieces[..k] == pieces;
    }
  }

  /** Piece k is a literal of several lines that touches line l. */
  ghost predicate Touches(src: string, pieces: seq<Piece>, k: nat, l: nat)
    requires AllInSource(src, pieces)
  {
    && k < |pieces| && IsLiteral(pieces[k]) && Breaks(PieceText(src, pieces[k])) > 0
    && LineAt(src, pieces, k) <= l <= LineAt(src, pieces, k) + Breaks(PieceText(src, pieces[k]))
  }

  lemma GuardedGrows(src: string, pieces: seq<Piece>)
    requires AllInSource(src, pieces) && pieces != []
    ensures var before, p := pieces[..|pieces| - 1], pieces[|pieces| - 1];
            var at, breaks := Breaks(TextOf(src, before)), Breaks(PieceText(src, p));
            forall l :: l in Guarded(src, pieces) <==>
              l in Guarded(src, before) || (IsLiteral(p) && breaks > 0 && at <= l <= at + breaks)
  {}

  lemma TouchedBefore(src: string, pieces: seq<Piece>, k: nat, l: nat)
    requires AllInSource(src, pieces) && k + 1 < |pieces|
    ensures Touches(src, pieces, k, l) <==> Touches(src, pieces[..|pieces| - 1], k, l)
  {
    var before := pieces[..|pieces| - 1];
    assert before[k] == pieces[k] && LineAt(src, pieces, k) == LineAt(src, before, k);
  }

  lemma TouchedAtEnd(src: string, pieces: seq<Piece>, l: nat)
    requires AllInSource(src, pieces) && pieces != []
    ensures Touches(src, pieces, |pieces| - 1, l) ==> l in Guarded(src, pieces)
  {
    GuardedGrows(src, pieces);
    var before := pieces[..|pieces| - 1];
    assert LineAt(src, pieces, |before|) == LineAt(src, before, |before|) == Breaks(TextOf(src, before));
  }

  lemma {:induction false} TouchedIsGuarded(src: string, pieces: seq<Piece>, k: nat, l: nat)
    requires AllInSource(src, pieces) && Touches(src, pieces, k, l)
    ensures l in Guarded(src, pieces)
  {
    if k + 1 < |pieces| {
      TouchedBefore(src, pieces, k, l);
      TouchedIsGuarded(src, pieces[..|pieces| - 1], k, l);
      GuardedGrows(src, pieces);
    } else {
      TouchedAtEnd(src, pieces, l);
    }
  }

  lemma {:induction false} GuardedIsTouched(src: string, pieces: seq<Piece>, l: nat) returns (k: nat)
    requires AllInSource(src, pieces) && l in Guarded(src, pieces)
    ensures Touches(src, pieces, k, l)
  {
    var before := pieces[..|pieces| - 1];
    if l in Guarded(src, before) {
      k := GuardedIsTouched(src, before, l);
      TouchedBefore(src, pieces, k, l);
    } else {
      k := |before|;
    }
  }

  /** The protected lines are exactly those that literals of several lines touch. */
  lemma GuardedAreTouched(src: string, pieces: seq<Piece>, l: nat)
    requires AllInSource(src, pieces)
    ensures l in Guarded(src, pieces) <==> exists k :: Touches(src, pieces, k, l)
  {
    if l in Guarded(src, pieces) { var k := GuardedIsTouched(src, pieces, l); }
    if k :| Touches(src, pieces, k, l) { TouchedIsGuarded(src, pieces, k, l); }
  }

  lemma GuardedHolds(src: string, pieces: seq<Piece>, k: nat)
    requires AllInSource(src, pieces) && k < |pieces| && IsLiteral(pieces[k]) && Breaks(PieceText(src, pieces[k])) > 0
    ensures Protects(Guarded(src, pieces), Breaks(TextOf(src, pieces[..k])), Breaks(PieceText(src, pieces[k])))
  {
    var at, n := LineAt(src, pieces, k), Breaks(PieceText(src, pieces[k]));
    LineAtIs(src, pieces, k);
    forall l | at <= l <= at + n
      ensures l in Guarded(src, pieces)
    {
      TouchedIsGuarded(src, pieces, k, l);
    }
  }

  lemma {:induction false} TextAround(src: string, pieces: seq<Piece>, k: nat) returns (post: string)
    requires AllInSource(src, pieces) && k < |pieces|
    ensures TextOf(src, pieces) == TextOf(src, pieces[..k]) + PieceText(src, pieces[k]) + post
  {
    var n := |pieces| - 1;
    var before := pieces[..n];
    if k == n {
      post := "";
    } else {
      var more := TextAround(src, before, k);
      assert before[..k] == pieces[..k];
      post := more + PieceText(src, pieces[n]);
    }
  }

  /** A literal that spans lines, or ends in no blank as every closed one does, or stands on a line that a literal
      of several lines touches, comes through unchanged. */
  lemma LiteralLands(src: string, pieces: seq<Piece>, k: nat)
    requires AllInSource(src, pieces) && k < |pieces| && IsLiteral(pieces[k])
    requires var lit := PieceText(src, pieces[k]);
             Breaks(lit) > 0 || !Blank(lit[|lit| - 1]) || LineAt(src, pieces, k) in Guarded(src, pieces)
    ensures Lands(TextOf(src, pieces), Guarded(src, pieces), |TextOf(src, pieces[..k])|, PieceText(src, pieces[k]))
  {
    hide Lands, Guarded, TextOf, Lines, Text, PieceText;
    var pre, lit, protected := TextOf(src, pieces[..k]), PieceText(src, pieces[k]), Guarded(src, pieces);
    var post := TextAround(src, pieces, k);
    LineAtIs(src, pieces, k);
    if Breaks(lit) > 0 { GuardedHolds(src, pieces, k); }
    PieceLands(pre, lit, post, protected);
  }

  // ---------- every literal of the source ----------

  /** The piece that token t became. */
  function PieceOf(pieces: seq<Piece>, t: Token): (k: nat)
    ensures Source(t) in pieces ==> k < |pieces| && pieces[k] == Source(t)
  {
    if pieces == [] then 0
    else
      var n := |pieces| - 1;
      if pieces[n] == Source(t) then n else PieceOf(pieces[..n], t)
  }

  lemma {:induction false} SolidIsPiece(src: string, pieces: seq<Piece>, t: Token)
    requires AllInSource(src, pieces) && t in Solid(src, pieces)
    ensures Source(t) in pieces
  {
    var n := |pieces| - 1;
    if t in Solid(src, pieces[..n]) { SolidIsPiece(src, pieces[..n], t); }
  }

  /** The tokens among the pieces stand in source order, all before n. */
  ghost predicate InOrder(pieces: seq<Piece>, n: nat) {
    && (forall k :: 0 <= k < |pieces| && pieces[k].Source? ==> pieces[k].token.end <= n)
    && (forall j, k :: 0 <= j < k < |pieces| && pieces[j].Source? && pieces[k].Source? ==>
          pieces[j].token.end <= pieces[k].token.start)
  }

  lemma {:induction false} PlayInOrder(src: string, alnum: CharClass, tokens: seq<Token>, n: nat)
    requires Tiles(src, tokens, n)
    ensures InOrder(Play(src, alnum, tokens), n)
  {
    if tokens != [] {
      hide Text, PieceText, Step;
      var before, t := tokens[..|tokens| - 1], tokens[|tokens| - 1];
      TilesBefore(src, tokens, n);
      PlayInOrder(src, alnum, before, t.start);
      StepInOrder(src, alnum, Play(src, alnum, before), t);
    }
  }

  lemma StepInOrder(src: string, alnum: CharClass, pieces: seq<Piece>, t: Token)
    requires AllInSource(src, pieces) && Lexical(src, t) && InOrder(pieces, t.start)
    ensures InOrder(Step(src, alnum, pieces, t), t.end)
  {
    hide Text, PieceText, IsSpace, Popped;
  }

  lemma {:induction false} TokensInOrder(src: string, tokens: seq<Token>, n: nat, i: nat, j: nat)
    requires Tiles(src, tokens, n) && i < j < |tokens|
    ensures tokens[i].end <= tokens[j].start
    decreases j
  {
    if i < j - 1 { TokensInOrder(src, tokens, n, i, j - 1); }
  }

  lemma {:induction false} TextsInOrder(src: string, pieces: seq<Piece>, j: nat, k: nat)
    requires AllInSource(src, pieces) && j < k <= |pieces|
    ensures |TextOf(src, pieces[..j])| + |PieceText(src, pieces[j])| <= |TextOf(src, pieces[..k])|
    decreases k
  {
    TextGrows(src, pieces, k - 1);
    if j < k - 1 { TextsInOrder(src, pieces, j, k - 1); }
  }

  lemma {:induction false} TextPrefix(src: string, pieces: seq<Piece>, k: nat)
    requires AllInSource(src, pieces) && k <= |pieces|
    ensures |TextOf(src, pieces[..k])| <= |TextOf(src, pieces)|
    decreases |pieces| - k
  {
    if k < |pieces| {
      TextGrows(src, pieces, k);
      TextPrefix(src, pieces, k + 1);
    } else {
      assert pieces[..k] == pieces;
    }
  }

  lemma LiteralIsSolid(src: string, t: Token)
    requires Lexical(src, t) && t.kind.Literal?
    ensures !IsSpace(src, Source(t))
  {
    assert Text(src, t)[0] == src[t.start];
  }

  lemma {:induction false} LiteralIsSubstance(src: string, tokens: seq<Token>, i: nat)
    requires forall k :: 0 <= k < |tokens| ==> Lexical(src, tokens[k])
    requires i < |tokens| && tokens[i].kind.Literal?
    ensures tokens[i] in Substance(src, tokens)
  {
    hide Text, PieceText, IsSpace;
    var n := |tokens| - 1;
    var before := tokens[..n];
    if i < n {
      LiteralIsSubstance(src, before, i);
    } else {
      LiteralIsSolid(src, tokens[n]);
    }
  }

  /** Such a literal is one that spans lines, or ends in no blank: every literal that is closed. */
  predicate Lasting(src: string, t: Token) {
    && Lexical(src, t) && t.kind.Literal?
    && var lit := Text(src, t); Breaks(lit) > 0 || !Blank(lit[|lit| - 1])
  }

  /** A literal that lasts, or whose line in the output some literal of several lines touches. */
  ghost predicate Kept(src: string, pieces: seq<Piece>, t: Token)
    requires AllInSource(src, pieces)
  {
    && Lexical(src, t) && t.kind.Literal?
    && var k := PieceOf(pieces, t);
       k < |pieces| && (Lasting(src, t) || LineAt(src, pieces, k) in Guarded(src, pieces))
  }

  /** Every such literal of the source is in the final text, byte for byte and unbroken, at places that
      follow one another as the literals do. */
  ghost predicate LandAt(src: string, tokens: seq<Token>, pieces: seq<Piece>, final: string, places: seq<nat>)
    requires AllInSource(src, pieces)
  {
    && |places| == |tokens|
    && (forall i :: 0 <= i < |tokens| && Kept(src, pieces, tokens[i]) ==> At(final, Text(src, tokens[i]), places[i]))
    && (forall i, j :: 0 <= i < j < |tokens| && Kept(src, pieces, tokens[i]) && Kept(src, pieces, tokens[j]) ==>
          places[i] + |Text(src, tokens[i])| <= places[j])
  }

  ghost predicate KeepsLiterals(src: string, tokens: seq<Token>, pieces: seq<Piece>, final: string)
    requires AllInSource(src, pieces)
  {
    exists places :: LandAt(src, tokens, pieces, final, places)
  }

  /** Where token t of the source comes out in the end. */
  function PlaceOf(src: string, pieces: seq<Piece>, t: Token): nat
    requires AllInSource(src, pieces)
  {
    var k := PieceOf(pieces, t);
    if k < |pieces| then
      TextPrefix(src, pieces, k);
      Landing(TextOf(src, pieces), Guarded(src, pieces), |TextOf(src, pieces[..k])|)
    else 0
  }

  lemma LiteralIsPiece(src: string, alnum: CharClass, tokens: seq<Token>, i: nat)
    requires forall k :: 0 <= k < |tokens| ==> Lexical(src, tokens[k])
    requires i < |tokens| && tokens[i].kind.Literal?
    ensures Source(tokens[i]) in Play(src, alnum, tokens)
  {
    PlayKeepsSubstance(src, alnum, tokens);
    LiteralIsSubstance(src, tokens, i);
    SolidIsPiece(src, Play(src, alnum, tokens), tokens[i]);
  }

  lemma TokenLands(src: string, alnum: CharClass, tokens: seq<Token>, i: nat)
    requires forall k :: 0 <= k < |tokens| ==> Lexical(src, tokens[k])
    requires i < |tokens| && Kept(src, Play(src, alnum, tokens), tokens[i])
    ensures var pieces := Play(src, alnum, tokens);
            var k := PieceOf(pieces, tokens[i]);
            && k < |pieces| && pieces[k] == Source(tokens[i])
            && Lands(TextOf(src, pieces), Guarded(src, pieces), |TextOf(src, pieces[..k])|, Text(src, tokens[i]))
  {
    hide Play, Guarded, TextOf, Lines, Lands, Substance, Solid;
    var pieces := Play(src, alnum, tokens);
    LiteralIsPiece(src, alnum, tokens, i);
    LiteralLands(src, pieces, PieceOf(pieces, tokens[i]));
  }

  /** Two literal tokens became two pieces in the same order. */
  lemma PiecesApart(src: string, alnum: CharClass, tokens: seq<Token>, n: nat, i: nat, j: nat)
    requires Tiles(src, tokens, n) && i < j < |tokens|
    requires var pieces := Play(src, alnum, tokens); Source(tokens[i]) in pieces && Source(tokens[j]) in pieces
    ensures PieceOf(Play(src, alnum, tokens), tokens[i]) < PieceOf(Play(src, alnum, tokens), tokens[j])
  {
    hide Play;
    PlayInOrder(src, alnum, tokens, n);
    TokensInOrder(src, tokens, n, i, j);
    assert Lexical(src, tokens[i]) && Lexical(src, tokens[j]);
  }

  lemma PlacesApart(src: string, pieces: seq<Piece>, t: Token, t': Token)
    requires AllInSource(src, pieces) && PieceOf(pieces, t) < PieceOf(pieces, t') < |pieces| && pieces[PieceOf(pieces, t)] == Source(t)
    requires Lands(TextOf(src, pieces), Guarded(src, pieces), |TextOf(src, pieces[..PieceOf(pieces, t)])|, Text(src, t))
    ensures PlaceOf(src, pieces, t) + |Text(src, t)| <= PlaceOf(src, pieces, t')
  {
    hide Survivors, Join, Lines, RStrip, Spot, Landing, TextOf, Guarded;
    var k, m := PieceOf(pieces, t), PieceOf(pieces, t');
    TextsInOrder(src, pieces, k, m);
    TextPrefix(src, pieces, m);
    LandsBefore(TextOf(src, pieces), Guarded(src, pieces), |TextOf(src, pieces[..k])|, Text(src, t), |TextOf(src, pieces[..m])|);
  }

  lemma TokensApart(src: string, alnum: CharClass, tokens: seq<Token>, n: nat, i: nat, j: nat)
    requires Tiles(src, tokens, n) && i < j < |tokens|
    requires Kept(src, Play(src, alnum, tokens), tokens[i]) && Kept(src, Play(src, alnum, tokens), tokens[j])
    ensures var pieces := Play(src, alnum, tokens);
            PlaceOf(src, pieces, tokens[i]) + |Text(src, tokens[i])| <= PlaceOf(src, pieces, tokens[j])
  {
    hide Play, PlaceOf, TextOf, Guarded;
    var pieces := Play(src, alnum, tokens);
    TokenLands(src, alnum, tokens, i);
    TokenLands(src, alnum, tokens, j);
    PiecesApart(src, alnum, tokens, n, i, j);
    PlacesApart(src, pieces, tokens[i], tokens[j]);
  }

  lemma TokenIsPlaced(src: string, alnum: CharClass, tokens: seq<Token>, i: nat)
    requires forall k :: 0 <= k < |tokens| ==> Lexical(src, tokens[k])
    requires i < |tokens| && Kept(src, Play(src, alnum, tokens), tokens[i])
    ensures var pieces := Play(src, alnum, tokens);
            At(Collapsed(TextOf(src, pieces), Guarded(src, pieces)), Text(src, tokens[i]), PlaceOf(src, pieces, tokens[i]))
  {
    TokenLands(src, alnum, tokens, i);
    PieceIsPlaced(src, Play(src, alnum, tokens), tokens[i]);
  }

  lemma PieceIsPlaced(src: string, pieces: seq<Piece>, t: Token)
    requires AllInSource(src, pieces) && Lexical(src, t) && PieceOf(pieces, t) < |pieces|
    requires Lands(TextOf(src, pieces), Guarded(src, pieces), |TextOf(src, pieces[..PieceOf(pieces, t)])|, Text(src, t))
    ensures At(Collapsed(TextOf(src, pieces), Guarded(src, pieces)), Text(src, t), PlaceOf(src, pieces, t))
  {
    hide Survivors, Join, Lines, Spot, Landing, TextOf, Guarded;
    LandsInCollapsed(TextOf(src, pieces), Guarded(src, pieces), |TextOf(src, pieces[..PieceOf(pieces, t)])|, Text(src, t));
  }

  // ---------- the literal that is cut short ----------

  predicate AtLineEnd(src: string, n: nat) {
    n <= |src| && (n < |src| ==> src[n] == '\n')
  }

  lemma StringCut(src: string, i: nat, quote: char)
    requires i < |src|
    ensures var end := StringEnd(src, i, quote); AtLineEnd(src, end) || src[end - 1] == quote
  {}

  /** A literal begins with no blank, and either lasts or was cut short by the end of a line or of the source. */
  predicate Whole(src: string, t: Token)
    requires Lexical(src, t)
  {
    t.kind.Literal? ==> !Blank(src[t.start]) && (Lasting(src, t) || AtLineEnd(src, t.end))
  }

  lemma EndLasts(src: string, t: Token)
    requires Lexical(src, t) && t.kind.Literal? && !Blank(src[t.end - 1])
    ensures Lasting(src, t)
  {}

  lemma GoLiteralIsWhole(src: string, i: nat)
    requires i < |src|
    ensures Whole(src, GoToken(src, i))
  {
    var t := GoToken(src, i);
    if t.kind.Literal? && !AtLineEnd(src, t.end) {
      hide StringEnd, DirectiveBlock, BlockBodyEnd, Find, At;
      PairAt(src, i, "/*");
      if src[i] == '"' || src[i] == '\'' {
        StringCut(src, i, src[i]);
      } else if src[i] == '`' {
        EndsAt(src, "`", Find(src, "`", i + 1));
      } else {
        BlockIsWhole(src, i);
      }
      EndLasts(src, t);
    }
  }

  lemma BlockIsWhole(src: string, i: nat)
    requires At(src, "/*", i)
    ensures var j := BlockBodyEnd(src, i); j + 2 < |src| ==> src[j + 1] == '/'
  {
    EndsAt(src, "*/", BlockBodyEnd(src, i));
  }

  lemma EndsAt(src: string, part: string, k: int)
    requires part != []
    ensures At(src, part, k) ==> src[k + |part| - 1] == part[|part| - 1]
  {
    if At(src, part, k) { assert src[k..k + |part|][|part| - 1] == src[k + |part| - 1]; }
  }

  lemma RustLiteralIsWhole(src: string, doctest: set<nat>, i: nat)
    requires i < |src|
    ensures Whole(src, RustToken(src, doctest, i))
  {
    var t := RustToken(src, doctest, i);
    if t.kind.Literal? && !AtLineEnd(src, t.end) {
      hide StringEnd, LineOf;
      if RawEnd(src, i) >= 0 {
        RawIsWhole(src, i);
      } else if src[i] == 'b' {
        StringCut(src, i + 1, src[i + 1]);
      } else if src[i] == '"' {
        StringCut(src, i, '"');
      }
      EndLasts(src, t);
    }
  }

  lemma RawIsWhole(src: string, i: nat)
    requires i < |src| && RawEnd(src, i) >= 0
    ensures var end := RawEnd(src, i); end == |src| || !Blank(src[end - 1])
  {
    var raw, end := RawAt(src, i), RawEnd(src, i);
    var q :| OpensAt(src, raw, q);
    if end != |src| {
      EndsAt(src, Terminator(q - raw - 1), end - (q - raw));
      TerminatorIsSolid(q - raw - 1);
    }
  }

  lemma TerminatorIsSolid(hashes: nat)
    ensures !Blank(Terminator(hashes)[hashes])
  {}

  /** What both scanners keep to: literals are whole, and a line feed where a token starts is code. */
  ghost predicate Orderly(src: string, tokens: seq<Token>) {
    && Tiles(src, tokens, |src|)
    && (forall k :: 0 <= k < |tokens| ==> Whole(src, tokens[k]))
    && (forall k :: 0 <= k < |tokens| && src[tokens[k].start] == '\n' ==> tokens[k].kind.CodeChar?)
  }

  lemma GoIsOrderly(src: string, tokens: seq<Token>)
    requires Tiles(src, tokens, |src|) && GoTokens(src, tokens)
    ensures Orderly(src, tokens)
  {
    forall k | 0 <= k < |tokens|
      ensures Whole(src, tokens[k]) && (src[tokens[k].start] == '\n' ==> tokens[k].kind.CodeChar?)
    {
      GoLiteralIsWhole(src, tokens[k].start);
      PairAt(src, tokens[k].start, "//");
      PairAt(src, tokens[k].start, "/*");
    }
  }

  lemma RustIsOrderly(src: string, doctest: set<nat>, tokens: seq<Token>)
    requires Tiles(src, tokens, |src|) && RustTokens(src, doctest, tokens)
    ensures Orderly(src, tokens)
  {
    forall k | 0 <= k < |tokens|
      ensures Whole(src, tokens[k]) && (src[tokens[k].start] == '\n' ==> tokens[k].kind.CodeChar?)
    {
      RustLiteralIsWhole(src, doctest, tokens[k].start);
      PairAt(src, tokens[k].start, "//");
      PairAt(src, tokens[k].start, "/*");
    }
  }

  // ---------- what follows it in the output ----------

  lemma {:induction false} PopKeeps(src: string, pieces: seq<Piece>, k: nat)
    requires AllInSource(src, pieces) && k < |pieces| && !IsSpace(src, pieces[k])
    ensures k < |Popped(src, pieces)|
  {
    if k < |pieces| - 1 && IsSpace(src, pieces[|pieces| - 1]) { PopKeeps(src, pieces[..|pieces| - 1], k); }
  }

  /** What stood in the output when a token other than a comment or a space was emitted stays. */
  lemma {:induction false} SolidStays(src: string, alnum: CharClass, tokens: seq<Token>, i: nat)
    requires forall k :: 0 <= k < |tokens| ==> Lexical(src, tokens[k])
    requires i < |tokens| && (tokens[i].kind.CodeChar? || tokens[i].kind.Literal?) && !IsSpace(src, Source(tokens[i]))
    ensures Play(src, alnum, tokens[..i + 1]) == Play(src, alnum, tokens[..i]) + [Source(tokens[i])]
    ensures Play(src, alnum, tokens[..i + 1]) <= Play(src, alnum, tokens)
    decreases |tokens|
  {
    hide IsSpace, Popped, WouldGlue;
    var n := |tokens| - 1;
    assert tokens[..i + 1][..i] == tokens[..i];
    if i < n {
      assert tokens[..n][..i + 1] == tokens[..i + 1] && tokens[..n][..i] == tokens[..i];
      SolidStays(src, alnum, tokens[..n], i);
      PopKeeps(src, Play(src, alnum, tokens[..n]), |Play(src, alnum, tokens[..i])|);
    } else {
      assert tokens[..i + 1] == tokens;
    }
  }

  lemma PieceOfLiteral(src: string, alnum: CharClass, tokens: seq<Token>, n: nat, i: nat)
    requires Tiles(src, tokens, n) && i < |tokens| && tokens[i].kind.Literal?
    ensures var k := PieceOf(Play(src, alnum, tokens), tokens[i]);
            && k == |Play(src, alnum, tokens[..i])| && k < |Play(src, alnum, tokens)|
            && Play(src, alnum, tokens)[k] == Source(tokens[i])
  {
    hide Play, IsSpace;
    LiteralIsSolid(src, tokens[i]);
    SolidStays(src, alnum, tokens, i);
    PlayInOrder(src, alnum, tokens, n);
    LiteralIsPiece(src, alnum, tokens, i);
    var pieces, k := Play(src, alnum, tokens), |Play(src, alnum, tokens[..i])|;
    assert pieces[k] == Play(src, alnum, tokens[..i + 1])[k] == Source(tokens[i]);
    assert Lexical(src, tokens[i]);
  }

  lemma FeedIsSolid(src: string, t: Token)
    requires Lexical(src, t) && src[t.start] == '\n'
    ensures !IsSpace(src, Source(t))
  {
    assert Text(src, t)[0] == src[t.start];
  }

  /** Behind a literal that ends where a line does, the output goes on with a line feed or ends. */
  lemma FeedFollows(src: string, alnum: CharClass, tokens: seq<Token>, i: nat) returns (post: string)
    requires Orderly(src, tokens) && i < |tokens| && tokens[i].kind.Literal? && AtLineEnd(src, tokens[i].end)
    ensures var pieces := Play(src, alnum, tokens);
            var k := PieceOf(pieces, tokens[i]);
            && k < |pieces| && pieces[k] == Source(tokens[i])
            && TextOf(src, pieces) == TextOf(src, pieces[..k]) + Text(src, tokens[i]) + post
    ensures post == [] || post[0] == '\n'
  {
    hide Play, IsSpace, PieceOf, Lasting, TextOf;
    var pieces := Play(src, alnum, tokens);
    PieceOfLiteral(src, alnum, tokens, |src|, i);
    LiteralIsSolid(src, tokens[i]);
    SolidStays(src, alnum, tokens, i);
    var k := PieceOf(pieces, tokens[i]);
    TextGrows(src, pieces, k);
    if i + 1 < |tokens| {
      assert Text(src, tokens[i + 1]) == "\n";
      FeedIsSolid(src, tokens[i + 1]);
      SolidStays(src, alnum, tokens, i + 1);
      assert pieces[..k + 2] == Play(src, alnum, tokens[..i + 2]);
      var rest := TextAround(src, pieces, k + 1);
      post := "\n" + rest;
      assert TextOf(src, pieces[..k + 1]) + "\n" + rest == TextOf(src, pieces[..k + 1]) + post;
    } else {
      assert tokens[..i + 1] == tokens && pieces[..k + 1] == pieces;
      post := "";
    }
  }

  // ---------- whether it survives ----------

  lemma {:induction false} NoFeed(s: string)
    requires Breaks(s) == 0
    ensures forall k :: 0 <= k < |s| ==> s[k] != '\n'
  {
    if s != [] { NoFeed(s[..|s| - 1]); }
  }

  lemma FirstLineEmpty(post: string)
    requires post == [] || post[0] == '\n'
    ensures Lines(post)[0] == ""
  {
    if post != [] {
      assert post == "\n" + post[1..] && "\n"[..0] == "";
      assert Lines("\n") == Extend(Lines(""), '\n') == ["", ""];
      LinesConcat("\n", post[1..]);
    }
  }

  lemma LineOfCut(pre: string, lit: string, post: string)
    requires Breaks(lit) == 0 && (post == [] || post[0] == '\n')
    ensures var lines := Lines(pre + lit + post); Breaks(pre) < |lines| && lines[Breaks(pre)] == LastLine(pre) + lit
  {
    hide Lines;
    LastLineConcat(pre, lit);
    LinesConcat(pre + lit, post);
    FirstLineEmpty(post);
    assert LastLine(pre + lit) + "" == LastLine(pre + lit);
  }

  /** A line that stays is followed by a line feed. */
  lemma LineIsClosed(lines: seq<string>, protected: set<nat>, l: nat)
    requires l < |lines| && !Empty(lines, protected, l)
    ensures var body := Join(Survivors(lines, protected, |lines|)) + "\n";
            var end := Spot(lines, protected, l, |Shown(lines, protected, l)|);
            end < |body| && body[end] == '\n'
  {
    hide Survivors, Join, RStrip;
    var shown := Shown(lines, protected, l);
    LineStays(lines, protected, l);
    var before := Survivors(lines, protected, l + 1);
    var after := SurvivorsGrow(lines, protected, l + 1, |lines|);
    RunLands(lines, protected, l, l + 1, [shown]);
    JoinOne(shown);
    assert Lead(before)[|Lead(before)| - 1] == '\n';
    if after == [] {
      assert before + after == before;
    } else {
      JoinTail(before, after);
    }
  }

  /** On a line that is not protected the blank at its end goes, and the piece with it. */
  lemma CutMisses(lines: seq<string>, protected: set<nat>, at: nat, u: nat, lit: string)
    requires at < |lines| && at !in protected && HoldsAt(lines[at], lit, u, 0)
    requires Breaks(lit) == 0 && lit != [] && !Blank(lit[0]) && Blank(lit[|lit| - 1])
    ensures !At(Join(Survivors(lines, protected, |lines|)) + "\n", lit, Spot(lines, protected, at, u))
  {
    hide Survivors, Join, Spot, Lines;
    var line, r := lines[at], RStrip(lines[at]);
    assert line[u..u + |lit|][0] == line[u] && line[u..u + |lit|][|lit| - 1] == line[|line| - 1];
    assert u < |r| < |line|;
    LineIsClosed(lines, protected, at);
    NoFeed(lit);
    MissedBy(Join(Survivors(lines, protected, |lines|)) + "\n", lit, Spot(lines, protected, at, u), |r| - u) by {
      SpotShifts(lines, protected, at, u, |r|);
    }
  }

  lemma SpotShifts(lines: seq<string>, protected: set<nat>, l: nat, c: nat, d: nat)
    requires l <= |lines| && c <= d
    ensures Spot(lines, protected, l, d) == Spot(lines, protected, l, c) + (d - c)
  {}

  lemma MissedBy(s: string, lit: string, at: nat, k: nat)
    requires k < |lit| && at + k < |s| && s[at + k] != lit[k]
    ensures !At(s, lit, at)
  {
    if at + |lit| <= |s| { assert s[at..at + |lit|][k] == s[at + k]; }
  }

  /** A piece within one line that ends it in a blank survives exactly when the line is protected. */
  lemma CutLands(pre: string, lit: string, post: string, protected: set<nat>)
    requires Breaks(lit) == 0 && lit != [] && !Blank(lit[0]) && Blank(lit[|lit| - 1])
    requires post == [] || post[0] == '\n'
    ensures var text := pre + lit + post;
            At(Collapsed(text, protected), lit, Landing(text, protected, |pre|)) <==> Breaks(pre) in protected
  {
    hide Lines, Survivors, Join, Spot;
    var text := pre + lit + post;
    Upto(pre, lit, post);
    if Breaks(pre) in protected {
      PieceLands(pre, lit, post, protected);
      LandsInCollapsed(text, protected, |pre|, lit);
    } else {
      LineOfCut(pre, lit, post);
      CutMisses(Lines(text), protected, Breaks(pre), |LastLine(pre)|, lit);
    }
  }

  /** Every literal is in the final text at its place exactly when it lasts, or stands on an output line that
      some literal of several lines touches. */
  lemma LiteralKeptIff(src: string, alnum: CharClass, tokens: seq<Token>, i: nat)
    requires Orderly(src, tokens) && i < |tokens| && tokens[i].kind.Literal?
    ensures var pieces := Play(src, alnum, tokens);
            At(Collapsed(TextOf(src, pieces), Guarded(src, pieces)), Text(src, tokens[i]), PlaceOf(src, pieces, tokens[i])) <==>
              Kept(src, pieces, tokens[i])
  {
    hide Collapsed, Guarded, Play, TextOf, Lines, IsSpace, Landing;
    var pieces, t := Play(src, alnum, tokens), tokens[i];
    PieceOfLiteral(src, alnum, tokens, |src|, i);
    if Kept(src, pieces, t) {
      TokenIsPlaced(src, alnum, tokens, i);
    } else {
      assert Whole(src, t);
      var post := FeedFollows(src, alnum, tokens, i);
      var k := PieceOf(pieces, t);
      LineAtIs(src, pieces, k);
      TextPrefix(src, pieces, k);
      assert !Blank(Text(src, t)[0]);
      CutLands(TextOf(src, pieces[..k]), Text(src, t), post, Guarded(src, pieces));
    }
  }

  // ---------- the two programs ----------

  lemma TokensSurvive(src: string, alnum: CharClass, tokens: seq<Token>, n: nat)
    requires Tiles(src, tokens, n)
    ensures var pieces := Play(src, alnum, tokens);
            KeepsLiterals(src, tokens, pieces, Collapsed(TextOf(src, pieces), Guarded(src, pieces)))
  {
    var pieces := Play(src, alnum, tokens);
    var places := seq(|tokens|, i requires 0 <= i < |tokens| => PlaceOf(src, pieces, tokens[i]));
    forall i | 0 <= i < |tokens| && Kept(src, pieces, tokens[i]) { TokenIsPlaced(src, alnum, tokens, i); }
    forall i, j | 0 <= i < j < |tokens| && Kept(src, pieces, tokens[i]) && Kept(src, pieces, tokens[j]) {
      TokensApart(src, alnum, tokens, n, i, j);
    }
    assert LandAt(src, tokens, pieces, Collapsed(TextOf(src, pieces), Guarded(src, pieces)), places);
  }

  /** A literal is in the final text at its place exactly when it is kept. */
  ghost predicate KeepsNoOthers(src: string, tokens: seq<Token>, pieces: seq<Piece>, final: string)
    requires AllInSource(src, pieces)
  {
    forall i :: 0 <= i < |tokens| && Lexical(src, tokens[i]) && tokens[i].kind.Literal? ==>
      (At(final, Text(src, tokens[i]), PlaceOf(src, pieces, tokens[i])) <==> Kept(src, pieces, tokens[i]))
  }

  lemma OthersAreLost(src: string, alnum: CharClass, tokens: seq<Token>)
    requires Orderly(src, tokens)
    ensures var pieces := Play(src, alnum, tokens);
            KeepsNoOthers(src, tokens, pieces, Collapsed(TextOf(src, pieces), Guarded(src, pieces)))
  {
    hide Collapsed, Guarded, Play, TextOf, PlaceOf, Kept, Text;
    forall i | 0 <= i < |tokens| && tokens[i].kind.Literal? { LiteralKeptIff(src, alnum, tokens, i); }
  }

  /** The final text is the collapsed text of the source's tokens, and keeps its literals as far as said above. */
  ghost predicate GoProcessed(src: string, alnum: CharClass, tokens: seq<Token>, final: string) {
    && Tiles(src, tokens, |src|) && GoTokens(src, tokens)
    && var pieces := Play(src, alnum, tokens);
       final == Collapsed(TextOf(src, pieces), Guarded(src, pieces)) && KeepsLiterals(src, tokens, pieces, final)
       && KeepsNoOthers(src, tokens, pieces, final)
  }

  ghost predicate IsGoProcessed(src: string, alnum: CharClass, final: string) {
    exists tokens :: GoProcessed(src, alnum, tokens, final)
  }

  lemma GoProcessedIs(src: string, alnum: CharClass, tokens: seq<Token>, final: string)
    requires GoProcessed(src, alnum, tokens, final)
    ensures IsGoProcessed(src, alnum, final)
  {}

  method ProcessGo(src: string, alnum: CharClass) returns (final: string, ghost tokens: seq<Token>)
    ensures GoProcessed(src, alnum, tokens, final)
    ensures IsGoProcessed(src, alnum, final)
  {
    var text, protected;
    text, protected, tokens := StripGo(src, alnum);
    final := CollapseBlankLines(text, protected);
    TokensSurvive(src, alnum, tokens, |src|);
    GoIsOrderly(src, tokens);
    OthersAreLost(src, alnum, tokens);
    GoProcessedIs(src, alnum, tokens, final);
  }

  /** The same of a Rust source. */
  ghost predicate RustProcessed(src: string, alnum: CharClass, doctest: set<nat>, tokens: seq<Token>, final: string) {
    && Tiles(src, tokens, |src|) && RustTokens(src, doctest, tokens)
    && var pieces := Play(src, alnum, tokens);
       final == Collapsed(TextOf(src, pieces), Guarded(src, pieces)) && KeepsLiterals(src, tokens, pieces, final)
       && KeepsNoOthers(src, tokens, pieces, final)
  }

  ghost predicate IsRustProcessed(src: string, alnum: CharClass, doctest: set<nat>, final: string) {
    exists tokens :: RustProcessed(src, alnum, doctest, tokens, final)
  }

  lemma RustProcessedIs(src: string, alnum: CharClass, doctest: set<nat>, tokens: seq<Token>, final: string)
    requires RustProcessed(src, alnum, doctest, tokens, final)
    ensures IsRustProcessed(src, alnum, doctest, final)
  {}

  method ProcessRust(src: string, alnum: CharClass, doctest: set<nat>) returns (final: string, ghost tokens: seq<Token>)
    ensures RustProcessed(src, alnum, doctest, tokens, final)
    ensures IsRustProcessed(src, alnum, doctest, final)
  {
    var text, protected;
    text, protected, tokens := StripRust(src, alnum, doctest);
    final := CollapseBlankLines(text, protected);
    TokensSurvive(src, alnum, tokens, |src|);
    RustIsOrderly(src, doctest, tokens);
    OthersAreLost(src, alnum, tokens);
    RustProcessedIs(src, alnum, doctest, tokens, final);
  }

  // ---------- an unclosed literal ----------

  lemma BodyOfLine(line: string)
    requires Breaks(line) == 0
    ensures Body(line, {}) == RStrip(line)
  {
    JoinLines(line);
    assert Lines(line) == [Lines(line)[0]] == [line];
    assert Survivors([line], {}, 0) == [];
  }

  /** A literal within one line that ends in a blank loses it when it is all there is on its line. */
  lemma BlankEndIsLost(lit: string)
    requires Breaks(lit) == 0 && lit != [] && Blank(lit[|lit| - 1])
    ensures Collapsed(lit, {}) == RStrip(lit) + "\n"
    ensures forall k :: !At(Collapsed(lit, {}), lit, k)
  {
    BodyOfLine(lit);
    NoFeed(lit);
    NotInLine(RStrip(lit), lit);
  }

  lemma NotInLine(r: string, lit: string)
    requires |r| < |lit| && lit[|lit| - 1] != '\n'
    ensures forall k :: !At(r + "\n", lit, k)
  {
    forall k
      ensures !At(r + "\n", lit, k)
    {
      if 0 <= k <= |r + "\n"| - |lit| { assert (r + "\n")[k..k + |lit|][|lit| - 1] == '\n'; }
    }
  }

  /** Such a literal: it runs to the end of a Go source and loses its space, and is nowhere in the final text. */
  lemma UnclosedLiteralLosesBlank(alnum: CharClass)
    ensures var src, tokens := "'a ", [Token(Literal, 0, 3)];
            && GoProcessed(src, alnum, tokens, RStrip(src) + "\n") && RStrip(src) == "'a"
            && forall k :: !At(RStrip(src) + "\n", Text(src, tokens[0]), k)
  {
    hide Play, GoToken, Guarded, TextOf, Lines, RStrip, Survivors;
    var src, t := "'a ", Token(Literal, 0, 3);
    ReadsUnclosed();
    OneLine(src);
    OneToken(src, alnum, t);
    BlankEndIsLost(src);
    TokensSurvive(src, alnum, [t], 3);
    GoIsOrderly(src, [t]);
    OthersAreLost(src, alnum, [t]);
  }

  lemma ReadsUnclosed()
    ensures GoToken("'a ", 0) == Token(Literal, 0, 3)
  {
    assert forall k: nat :: !Stops("'a ", 0, '\'', k);
  }

  lemma OneToken(src: string, alnum: CharClass, t: Token)
    requires Lexical(src, t) && t.kind.Literal? && t.start == 0 && t.end == |src| && Breaks(src) == 0
    ensures var pieces := Play(src, alnum, [t]); TextOf(src, pieces) == src && Guarded(src, pieces) == {}
  {
    assert Play(src, alnum, []) == [] && [t][..0] == [];
    assert Play(src, alnum, [t]) == [] + [Source(t)];
    assert Text(src, t) == src;
    PieceAdded(src, [], Source(t));
  }

  lemma OneLine(s: string)
    requires s == "'a "
    ensures Breaks(s) == 0 && RStrip(s) == "'a"
  {
    assert s[..2] == "'a" && "'a"[..1] == "'" && "'"[..0] == "";
    assert Lines("") == [""];
    assert Lines("'") == Extend([""], '\'');
    assert Breaks("'a") == 0;
    assert !Blank('a') && Blank(' ');
  }
}
