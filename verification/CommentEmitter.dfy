/** What the comment strippers emit: tokens of the source, comments dropped, and the lines multi-line literals touch. */
module CommentEmitter {
  import opened TextLines

  // ---------- tokens of the source ----------

  datatype TokenKind = CodeChar | Literal | KeptLine | LineComment | BlockComment

  /** A stretch of the source, read as one token. */
  datatype Token = Token(kind: TokenKind, start: nat, end: nat)

  function Text(src: string, t: Token): string
    requires t.start <= t.end <= |src|
  {
    src[t.start..t.end]
  }

  /** What holds of the tokens of either language. */
  predicate Lexical(src: string, t: Token) {
    && t.start < t.end <= |src|
    && (t.kind.CodeChar? ==> t.end == t.start + 1)
    && (t.kind.Literal? || t.kind.KeptLine? ==> src[t.start] != ' ' && src[t.start] != '\t')
    && (t.kind.LineComment? ==> t.end == |src| || src[t.end] == '\n')
  }

  /** The tokens cover the source up to n, one after the other. */
  predicate Tiles(src: string, tokens: seq<Token>, n: nat) {
    && n <= |src|
    && (forall k :: 0 <= k < |tokens| ==> Lexical(src, tokens[k]))
    && (forall k :: 0 < k < |tokens| ==> tokens[k].start == tokens[k - 1].end)
    && (if tokens == [] then n == 0 else tokens[0].start == 0 && tokens[|tokens| - 1].end == n)
  }

  // ---------- the pieces of the output ----------

  /** A token of the source, or the space that stands for a block comment between two words. */
  datatype Piece = Source(token: Token) | Gap(at: nat)

  predicate InSource(src: string, p: Piece) {
    p.Source? ==> Lexical(src, p.token)
  }

  predicate AllInSource(src: string, pieces: seq<Piece>) {
    forall k :: 0 <= k < |pieces| ==> InSource(src, pieces[k])
  }

  function PieceText(src: string, p: Piece): (s: string)
    requires InSource(src, p)
    ensures s != []
  {
    if p.Gap? then " " else Text(src, p.token)
  }

  function TextOf(src: string, pieces: seq<Piece>): string
    requires AllInSource(src, pieces)
  {
    if pieces == [] then "" else TextOf(src, pieces[..|pieces| - 1]) + PieceText(src, pieces[|pieces| - 1])
  }

  predicate IsLiteral(p: Piece) {
    p.Source? && p.token.kind.Literal?
  }

  /** The lines from at to at + breaks. */
  function Span(at: nat, breaks: nat): (lines: set<nat>)
    ensures forall l :: l in lines <==> at <= l <= at + breaks
  {
    if breaks == 0 then {at} else Span(at, breaks - 1) + {at + breaks}
  }

  /** The output lines touched by literals that span lines. */
  function Guarded(src: string, pieces: seq<Piece>): set<nat>
    requires AllInSource(src, pieces)
  {
    if pieces == [] then {}
    else
      var before, p := pieces[..|pieces| - 1], pieces[|pieces| - 1];
      var at, breaks := Breaks(TextOf(src, before)), Breaks(PieceText(src, p));
      Guarded(src, before) + if IsLiteral(p) && breaks > 0 then Span(at, breaks) else {}
  }

  predicate IsSpace(src: string, p: Piece)
    requires InSource(src, p)
  {
    PieceText(src, p) == " " || PieceText(src, p) == "\t"
  }

  function Popped(src: string, pieces: seq<Piece>): (rest: seq<Piece>)
    requires AllInSource(src, pieces)
    ensures rest <= pieces
  {
    if pieces != [] && IsSpace(src, pieces[|pieces| - 1]) then Popped(src, pieces[..|pieces| - 1]) else pieces
  }

  /** What is popped are spaces, and what is left ends in none. */
  lemma {:induction false} PoppedAreSpaces(src: string, pieces: seq<Piece>)
    requires AllInSource(src, pieces)
    ensures var rest := Popped(src, pieces);
            && (rest == [] || !IsSpace(src, rest[|rest| - 1]))
            && forall k :: |rest| <= k < |pieces| ==> IsSpace(src, pieces[k])
  {
    hide IsSpace;
    if pieces != [] && IsSpace(src, pieces[|pieces| - 1]) { PoppedAreSpaces(src, pieces[..|pieces| - 1]); }
  }

  /** Which characters Python counts as alphanumeric. */
  type CharClass = char -> bool

  predicate Word(alnum: CharClass, c: char) {
    alnum(c) || c == '_'
  }

  predicate EndsInWord(alnum: CharClass, s: string) {
    s != [] && Word(alnum, s[|s| - 1])
  }

  predicate Sensible(alnum: CharClass) {
    !alnum(' ') && !alnum('\t') && !alnum('\n')
  }

  /** The last piece and the source at i are both of word characters. */
  predicate WouldGlue(src: string, alnum: CharClass, pieces: seq<Piece>, i: nat)
    requires AllInSource(src, pieces)
  {
    pieces != [] && i < |src| && EndsInWord(alnum, PieceText(src, pieces[|pieces| - 1])) && Word(alnum, src[i])
  }

  /** The pieces once a block comment ending at i has been dropped. */
  function Closed(src: string, alnum: CharClass, pieces: seq<Piece>, i: nat): (rest: seq<Piece>)
    requires AllInSource(src, pieces)
    ensures AllInSource(src, rest)
  {
    var kept := Popped(src, pieces);
    if WouldGlue(src, alnum, kept, i) then kept + [Gap(i)] else kept
  }

  function Step(src: string, alnum: CharClass, pieces: seq<Piece>, t: Token): (rest: seq<Piece>)
    requires AllInSource(src, pieces) && Lexical(src, t)
    ensures AllInSource(src, rest)
  {
    match t.kind
    case LineComment => Popped(src, pieces)
    case BlockComment => Closed(src, alnum, pieces, t.end)
    case _ => pieces + [Source(t)]
  }

  /** The pieces the tokens leave. */
  function Play(src: string, alnum: CharClass, tokens: seq<Token>): (pieces: seq<Piece>)
    requires forall k :: 0 <= k < |tokens| ==> Lexical(src, tokens[k])
    ensures AllInSource(src, pieces)
  {
    if tokens == [] then []
    else Step(src, alnum, Play(src, alnum, tokens[..|tokens| - 1]), tokens[|tokens| - 1])
  }

  lemma TilesMore(src: string, alnum: CharClass, tokens: seq<Token>, t: Token)
    requires Tiles(src, tokens, t.start) && Lexical(src, t)
    ensures Tiles(src, tokens + [t], t.end)
    ensures Play(src, alnum, tokens + [t]) == Step(src, alnum, Play(src, alnum, tokens), t)
  {
    assert (tokens + [t])[..|tokens|] == tokens;
  }

  // ---------- popping white space touches no literal ----------

  lemma SpaceBreaksNothing(s: string, space: string)
    requires space == " " || space == "\t"
    ensures Breaks(s + space) == Breaks(s) && Breaks(space) == 0
  {
    assert space[..0] == "" && "" + [space[0]] == space;
    assert Lines(space) == Extend([""], space[0]) == [space];
    LinesConcat(s, space);
  }

  lemma {:induction false} PoppedKeepsLines(src: string, pieces: seq<Piece>)
    requires AllInSource(src, pieces)
    ensures Breaks(TextOf(src, Popped(src, pieces))) == Breaks(TextOf(src, pieces))
    ensures Guarded(src, Popped(src, pieces)) == Guarded(src, pieces)
  {
    if pieces != [] && IsSpace(src, pieces[|pieces| - 1]) {
      var before := pieces[..|pieces| - 1];
      PoppedKeepsLines(src, before);
      SpaceBreaksNothing(TextOf(src, before), PieceText(src, pieces[|pieces| - 1]));
    }
  }

  lemma BreaksAdd(a: string, b: string)
    ensures Breaks(a + b) == Breaks(a) + Breaks(b)
  {
    LinesConcat(a, b);
  }

  lemma PieceAdded(src: string, pieces: seq<Piece>, p: Piece)
    requires AllInSource(src, pieces) && InSource(src, p)
    ensures AllInSource(src, pieces + [p]) && TextOf(src, pieces + [p]) == TextOf(src, pieces) + PieceText(src, p)
    ensures var at, breaks := Breaks(TextOf(src, pieces)), Breaks(PieceText(src, p));
            && Breaks(TextOf(src, pieces + [p])) == at + breaks
            && Guarded(src, pieces + [p]) == Guarded(src, pieces) +
                 if IsLiteral(p) && breaks > 0 then Span(at, breaks) else {}
  {
    assert (pieces + [p])[..|pieces|] == pieces;
    BreaksAdd(TextOf(src, pieces), PieceText(src, p));
  }

  // ---------- the emitter ----------

  predicate Spells(src: string, out: seq<string>, pieces: seq<Piece>)
    requires AllInSource(src, pieces)
  {
    |out| == |pieces| && forall k :: 0 <= k < |out| ==> out[k] == PieceText(src, pieces[k])
  }

  /** The emitter's fields once it has emitted the pieces. */
  ghost predicate Emitted(src: string, pieces: seq<Piece>, out: seq<string>, line: nat, protected: set<nat>) {
    && AllInSource(src, pieces)
    && Spells(src, out, pieces)
    && line == Breaks(TextOf(src, pieces))
    && protected == Guarded(src, pieces)
  }

  lemma EmittedMore(src: string, pieces: seq<Piece>, out: seq<string>, line: nat, protected: set<nat>, p: Piece)
    requires Emitted(src, pieces, out, line, protected) && InSource(src, p)
    ensures var s := PieceText(src, p);
            var nl := Breaks(s);
            Emitted(src, pieces + [p], out + [s], line + nl,
                    if IsLiteral(p) && nl > 0 then protected + Span(line, nl) else protected)
  {
    PieceAdded(src, pieces, p);
  }

  predicate SpaceText(s: string) { s == " " || s == "\t" }

  method PopSpaces(out: seq<string>, ghost src: string, ghost pieces: seq<Piece>) returns (rest: seq<string>)
    requires AllInSource(src, pieces) && Spells(src, out, pieces)
    ensures Spells(src, rest, Popped(src, pieces))
  {
    rest := out;
    ghost var left := pieces;
    while rest != [] && SpaceText(rest[|rest| - 1])
      invariant AllInSource(src, left) && Spells(src, rest, left)
      invariant Popped(src, left) == Popped(src, pieces)
      decreases |rest|
    {
      rest := rest[..|rest| - 1];
      left := left[..|left| - 1];
    }
    assert rest != [] ==> !IsSpace(src, left[|left| - 1]);
  }

  lemma PoppedIsEmitted(src: string, pieces: seq<Piece>, out: seq<string>, line: nat, protected: set<nat>,
                        rest: seq<string>)
    requires Emitted(src, pieces, out, line, protected) && Spells(src, rest, Popped(src, pieces))
    ensures Emitted(src, Popped(src, pieces), rest, line, protected)
  {
    PoppedKeepsLines(src, pieces);
  }

  lemma TextGrows(src: string, pieces: seq<Piece>, k: nat)
    requires AllInSource(src, pieces) && k < |pieces|
    ensures TextOf(src, pieces[..k + 1]) == TextOf(src, pieces[..k]) + PieceText(src, pieces[k])
  {
    assert pieces[..k + 1][..k] == pieces[..k];
  }

  method Concat(out: seq<string>, ghost src: string, ghost pieces: seq<Piece>) returns (text: string)
    requires AllInSource(src, pieces) && Spells(src, out, pieces)
    ensures text == TextOf(src, pieces)
  {
    text := "";
    for k := 0 to |out|
      invariant text == TextOf(src, pieces[..k])
    {
      TextGrows(src, pieces, k);
      text := text + out[k];
    }
    assert pieces[..|out|] == pieces;
  }

  class Emitter {
    var out: seq<string>
    var line: nat
    var protected: set<nat>
    ghost var pieces: seq<Piece>

    ghost predicate Valid(src: string)
      reads this
    {
      Emitted(src, pieces, out, line, protected)
    }

    constructor (ghost src: string)
      ensures Valid(src) && pieces == []
    {
      out, line, protected, pieces := [], 0, {}, [];
    }

    method Emit(s: string, literal: bool, ghost src: string, ghost p: Piece)
      requires Valid(src) && InSource(src, p) && s == PieceText(src, p) && literal == IsLiteral(p)
      modifies this
      ensures Valid(src) && pieces == old(pieces) + [p]
    {
      hide PieceText, TextOf, Guarded, Lines;
      EmittedMore(src, pieces, out, line, protected, p);
      var nl := Breaks(s);
      if literal && nl > 0 {
        protected := protected + Span(line, nl);
      }
      line := line + nl;
      out := out + [s];
      pieces := pieces + [p];
    }

    method PopTrailingWs(ghost src: string)
      requires Valid(src)
      modifies this
      ensures Valid(src) && pieces == Popped(src, old(pieces))
    {
      var rest := PopSpaces(out, src, pieces);
      PoppedIsEmitted(src, pieces, out, line, protected, rest);
      out, pieces := rest, Popped(src, pieces);
    }

    method CloseBlockComment(src: string, alnum: CharClass, i: nat)
      requires Valid(src)
      modifies this
      ensures Valid(src) && pieces == Closed(src, alnum, old(pieces), i)
    {
      PopTrailingWs(src);
      var glue := out != [] && i < |src| && EndsInWord(alnum, out[|out| - 1]) && Word(alnum, src[i]);
      assert glue == WouldGlue(src, alnum, pieces, i);
      if glue {
        Emit(" ", false, src, Gap(i));
      }
    }

    /** What was emitted, in one string. */
    method JoinOut(ghost src: string) returns (text: string)
      requires Valid(src)
      ensures text == TextOf(src, pieces)
    {
      text := Concat(out, src, pieces);
    }
  }

  // ---------- nothing but comments and white space goes, and no two words meet ----------

  /** The output pieces but for inserted gaps, spaces and tabs. */
  function Solid(src: string, pieces: seq<Piece>): seq<Token>
    requires AllInSource(src, pieces)
  {
    if pieces == [] then []
    else
      var p := pieces[|pieces| - 1];
      Solid(src, pieces[..|pieces| - 1]) + if p.Source? && !IsSpace(src, p) then [p.token] else []
  }

  /** The tokens but for comments, spaces and tabs. */
  function Substance(src: string, tokens: seq<Token>): seq<Token>
    requires forall k :: 0 <= k < |tokens| ==> Lexical(src, tokens[k])
  {
    if tokens == [] then []
    else
      var t := tokens[|tokens| - 1];
      Substance(src, tokens[..|tokens| - 1]) +
      if t.kind.LineComment? || t.kind.BlockComment? || IsSpace(src, Source(t)) then [] else [t]
  }

  lemma {:induction false} PoppedKeepsSolid(src: string, pieces: seq<Piece>)
    requires AllInSource(src, pieces)
    ensures Solid(src, Popped(src, pieces)) == Solid(src, pieces)
  {
    if pieces != [] && IsSpace(src, pieces[|pieces| - 1]) {
      PoppedKeepsSolid(src, pieces[..|pieces| - 1]);
    }
  }

  /** Everything that is not a comment, a space or a tab comes out, in order, and nothing else does. */
  lemma {:induction false} PlayKeepsSubstance(src: string, alnum: CharClass, tokens: seq<Token>)
    requires forall k :: 0 <= k < |tokens| ==> Lexical(src, tokens[k])
    ensures Solid(src, Play(src, alnum, tokens)) == Substance(src, tokens)
  {
    if tokens != [] {
      var before, t := tokens[..|tokens| - 1], tokens[|tokens| - 1];
      PlayKeepsSubstance(src, alnum, before);
      StepKeepsSubstance(src, alnum, Play(src, alnum, before), t);
    }
  }

  lemma StepKeepsSubstance(src: string, alnum: CharClass, pieces: seq<Piece>, t: Token)
    requires AllInSource(src, pieces) && Lexical(src, t)
    ensures Solid(src, Step(src, alnum, pieces, t)) == Solid(src, pieces) +
              if t.kind.LineComment? || t.kind.BlockComment? || IsSpace(src, Source(t)) then [] else [t]
  {
    if t.kind.LineComment? || t.kind.BlockComment? {
      PoppedKeepsSolid(src, pieces);
      var kept := Popped(src, pieces);
      assert (kept + [Gap(t.end)])[..|kept|] == kept;
    } else {
      assert (pieces + [Source(t)])[..|pieces|] == pieces;
    }
  }

  function Start(p: Piece): nat { if p.Gap? then p.at else p.token.start }

  function End(p: Piece): nat { if p.Gap? then p.at else p.token.end }

  predicate WordsMeet(src: string, alnum: CharClass, p: Piece, q: Piece)
    requires InSource(src, p) && InSource(src, q)
  {
    EndsInWord(alnum, PieceText(src, p)) && Word(alnum, PieceText(src, q)[0])
  }

  /** In source order, and if the two are words that meet, they met in the source. */
  predicate Beside(src: string, alnum: CharClass, p: Piece, q: Piece)
    requires InSource(src, p) && InSource(src, q)
  {
    End(p) <= Start(q) && (WordsMeet(src, alnum, p, q) ==> End(p) == Start(q))
  }

  ghost predicate Unglued(src: string, alnum: CharClass, pieces: seq<Piece>)
    requires AllInSource(src, pieces)
  {
    forall k :: 0 < k < |pieces| ==> Beside(src, alnum, pieces[k - 1], pieces[k])
  }

  predicate EndsBy(pieces: seq<Piece>, n: nat) {
    pieces != [] ==> End(pieces[|pieces| - 1]) <= n
  }

  /** A word at n would run on from the last piece only as it did in the source. */
  predicate Ready(src: string, alnum: CharClass, pieces: seq<Piece>, n: nat)
    requires AllInSource(src, pieces)
  {
    WouldGlue(src, alnum, pieces, n) ==> End(pieces[|pieces| - 1]) == n
  }

  lemma {:induction false} PoppedStaysUnglued(src: string, alnum: CharClass, pieces: seq<Piece>, n: nat)
    requires AllInSource(src, pieces) && Unglued(src, alnum, pieces) && EndsBy(pieces, n)
    ensures Unglued(src, alnum, Popped(src, pieces)) && EndsBy(Popped(src, pieces), n)
  {
    if pieces != [] && IsSpace(src, pieces[|pieces| - 1]) {
      var before := pieces[..|pieces| - 1];
      if before != [] { assert Beside(src, alnum, pieces[|before| - 1], pieces[|before|]); }
      PoppedStaysUnglued(src, alnum, before, n);
    }
  }

  lemma AddedStaysUnglued(src: string, alnum: CharClass, pieces: seq<Piece>, p: Piece)
    requires AllInSource(src, pieces) && Unglued(src, alnum, pieces) && InSource(src, p)
    requires pieces != [] ==> Beside(src, alnum, pieces[|pieces| - 1], p)
    ensures Unglued(src, alnum, pieces + [p])
  {
    var more := pieces + [p];
    forall k | 0 < k < |more|
      ensures Beside(src, alnum, more[k - 1], more[k])
    {
      if k < |pieces| { assert more[k - 1] == pieces[k - 1] && more[k] == pieces[k]; }
    }
  }

  lemma TilesBefore(src: string, tokens: seq<Token>, n: nat)
    requires Tiles(src, tokens, n) && tokens != []
    ensures Tiles(src, tokens[..|tokens| - 1], tokens[|tokens| - 1].start)
  {}

  /** The strippers never join two words that the source kept apart. */
  lemma {:induction false} PlayNeverGlues(src: string, alnum: CharClass, tokens: seq<Token>, n: nat)
    requires Sensible(alnum) && Tiles(src, tokens, n)
    ensures var pieces := Play(src, alnum, tokens);
            Unglued(src, alnum, pieces) && EndsBy(pieces, n) && Ready(src, alnum, pieces, n)
  {
    if tokens != [] {
      var before, t := tokens[..|tokens| - 1], tokens[|tokens| - 1];
      TilesBefore(src, tokens, n);
      PlayNeverGlues(src, alnum, before, t.start);
      StepNeverGlues(src, alnum, Play(src, alnum, before), t);
    }
  }

  lemma StepNeverGlues(src: string, alnum: CharClass, pieces: seq<Piece>, t: Token)
    requires Sensible(alnum) && AllInSource(src, pieces) && Lexical(src, t) && Unglued(src, alnum, pieces)
    requires EndsBy(pieces, t.start) && Ready(src, alnum, pieces, t.start)
    ensures var next := Step(src, alnum, pieces, t);
            Unglued(src, alnum, next) && EndsBy(next, t.end) && Ready(src, alnum, next, t.end)
  {
    match t.kind
    case LineComment =>
      PoppedStaysUnglued(src, alnum, pieces, t.end);
    case BlockComment =>
      BlockNeverGlues(src, alnum, pieces, t.end);
    case _ =>
      SourceNeverGlues(src, alnum, pieces, t);
  }

  lemma BlockNeverGlues(src: string, alnum: CharClass, pieces: seq<Piece>, n: nat)
    requires Sensible(alnum) && AllInSource(src, pieces) && Unglued(src, alnum, pieces) && EndsBy(pieces, n)
    ensures var next := Closed(src, alnum, pieces, n);
            Unglued(src, alnum, next) && EndsBy(next, n) && Ready(src, alnum, next, n)
  {
    PoppedStaysUnglued(src, alnum, pieces, n);
    var kept := Popped(src, pieces);
    if WouldGlue(src, alnum, kept, n) {
      AddedStaysUnglued(src, alnum, kept, Gap(n));
    }
  }

  lemma SourceNeverGlues(src: string, alnum: CharClass, pieces: seq<Piece>, t: Token)
    requires AllInSource(src, pieces) && Lexical(src, t) && Unglued(src, alnum, pieces)
    requires EndsBy(pieces, t.start) && Ready(src, alnum, pieces, t.start)
    ensures Unglued(src, alnum, pieces + [Source(t)])
  {
    if pieces != [] {
      assert PieceText(src, Source(t))[0] == src[t.start];
      assert Beside(src, alnum, pieces[|pieces| - 1], Source(t));
    }
    AddedStaysUnglued(src, alnum, pieces, Source(t));
  }
}
