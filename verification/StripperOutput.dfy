/** Exactly which tokens the strippers put out, and where they put a space of their own. */
module StripperOutput {
  import opened TextLines
  import opened CommentEmitter

  predicate IsComment(t: Token) {
    t.kind.LineComment? || t.kind.BlockComment?
  }

  predicate IsSolid(src: string, t: Token)
    requires Lexical(src, t)
  {
    !IsComment(t) && !IsSpace(src, Source(t))
  }

  predicate AllLexical(src: string, tokens: seq<Token>) {
    forall k :: 0 <= k < |tokens| ==> Lexical(src, tokens[k])
  }

  /** Token i is no comment, and no space that only spaces and comments part from a comment behind it. */
  ghost predicate ComesOut(src: string, tokens: seq<Token>, i: nat)
    requires AllLexical(src, tokens) && i < |tokens|
  {
    && !IsComment(tokens[i])
    && (IsSpace(src, Source(tokens[i])) ==>
          forall j :: i < j < |tokens| && IsComment(tokens[j]) ==> SolidBetween(src, tokens, i, j))
  }

  ghost predicate SolidBetween(src: string, tokens: seq<Token>, i: int, j: int)
    requires AllLexical(src, tokens)
  {
    exists m :: i < m < j && 0 <= m < |tokens| && IsSolid(src, tokens[m])
  }

  /** Those of the first n tokens, in order. */
  ghost function Coming(src: string, tokens: seq<Token>, n: nat): seq<Token>
    requires AllLexical(src, tokens) && n <= |tokens|
  {
    if n == 0 then []
    else Coming(src, tokens, n - 1) + if ComesOut(src, tokens, n - 1) then [tokens[n - 1]] else []
  }

  function Sources(pieces: seq<Piece>): seq<Token> {
    if pieces == [] then []
    else
      var p := pieces[|pieces| - 1];
      Sources(pieces[..|pieces| - 1]) + if p.Source? then [p.token] else []
  }

  function DropSpaces(src: string, tokens: seq<Token>): seq<Token>
    requires AllLexical(src, tokens)
  {
    if tokens != [] && IsSpace(src, Source(tokens[|tokens| - 1])) then DropSpaces(src, tokens[..|tokens| - 1]) else tokens
  }

  lemma {:induction false} SourcesAreLexical(src: string, pieces: seq<Piece>)
    requires AllInSource(src, pieces)
    ensures AllLexical(src, Sources(pieces))
  {
    if pieces != [] { SourcesAreLexical(src, pieces[..|pieces| - 1]); }
  }

  /** Popping pieces drops their spaces, and gaps. */
  lemma {:induction false} PoppedSources(src: string, pieces: seq<Piece>)
    requires AllInSource(src, pieces)
    ensures AllLexical(src, Sources(pieces)) && Sources(Popped(src, pieces)) == DropSpaces(src, Sources(pieces))
  {
    SourcesAreLexical(src, pieces);
    if pieces != [] {
      var before, p := pieces[..|pieces| - 1], pieces[|pieces| - 1];
      PoppedSources(src, before);
      if p.Source? {
        DropNext(src, Sources(before), p.token);
      } else {
        assert Sources(pieces) == Sources(before);
      }
    }
  }

  lemma DropNext(src: string, tokens: seq<Token>, t: Token)
    requires AllLexical(src, tokens) && Lexical(src, t)
    ensures AllLexical(src, tokens + [t])
    ensures DropSpaces(src, tokens + [t]) == if IsSpace(src, Source(t)) then DropSpaces(src, tokens) else tokens + [t]
  {
    assert (tokens + [t])[..|tokens|] == tokens;
  }

  lemma {:induction false} ComingIsLexical(src: string, tokens: seq<Token>, n: nat)
    requires AllLexical(src, tokens) && n <= |tokens|
    ensures AllLexical(src, Coming(src, tokens, n))
  {
    if n > 0 { ComingIsLexical(src, tokens, n - 1); }
  }

  /** A token that is no comment takes nothing back. */
  lemma {:induction false} ComingStays(src: string, tokens: seq<Token>, t: Token, n: nat)
    requires AllLexical(src, tokens + [t]) && AllLexical(src, tokens) && n <= |tokens| && !IsComment(t)
    ensures Coming(src, tokens + [t], n) == Coming(src, tokens, n)
  {
    if n > 0 {
      var i := n - 1;
      ComingStays(src, tokens, t, i);
      forall j: nat | j < |tokens|
        ensures SolidBetween(src, tokens + [t], i, j) <==> SolidBetween(src, tokens, i, j)
      {
        SolidStays(src, tokens, t, i, j);
      }
      assert forall j :: 0 <= j < |tokens| ==> (tokens + [t])[j] == tokens[j];
    }
  }

  lemma SolidStays(src: string, tokens: seq<Token>, t: Token, i: nat, j: nat)
    requires AllLexical(src, tokens + [t]) && AllLexical(src, tokens) && j <= |tokens|
    ensures SolidBetween(src, tokens + [t], i, j) <==> SolidBetween(src, tokens, i, j)
  {
    var more := tokens + [t];
    if m :| i < m < j && IsSolid(src, more[m]) { assert more[m] == tokens[m]; }
    if m :| i < m < j && IsSolid(src, tokens[m]) { assert more[m] == tokens[m]; }
  }

  /** A comment takes back the spaces since the last solid token. */
  lemma {:induction false} ComingBeforeComment(src: string, tokens: seq<Token>, t: Token, n: nat)
    requires AllLexical(src, tokens + [t]) && AllLexical(src, tokens) && n <= |tokens| && IsComment(t)
    ensures AllLexical(src, Coming(src, tokens, n))
    ensures Coming(src, tokens + [t], n) ==
            if SolidBetween(src, tokens, n - 1, |tokens|) then Coming(src, tokens, n) else DropSpaces(src, Coming(src, tokens, n))
  {
    ComingIsLexical(src, tokens, n);
    if n > 0 {
      ComingBeforeComment(src, tokens, t, n - 1);
      ComingNext(src, tokens, t, n - 1);
    }
  }

  lemma ComingNext(src: string, tokens: seq<Token>, t: Token, i: nat)
    requires AllLexical(src, tokens + [t]) && AllLexical(src, tokens) && i < |tokens| && IsComment(t)
    requires AllLexical(src, Coming(src, tokens, i))
    requires Coming(src, tokens + [t], i) ==
             if SolidBetween(src, tokens, i - 1, |tokens|) then Coming(src, tokens, i) else DropSpaces(src, Coming(src, tokens, i))
    ensures AllLexical(src, Coming(src, tokens, i + 1))
    ensures Coming(src, tokens + [t], i + 1) ==
            if SolidBetween(src, tokens, i, |tokens|) then Coming(src, tokens, i + 1) else DropSpaces(src, Coming(src, tokens, i + 1))
  {
    ComesOutBeforeComment(src, tokens, t, i);
    SolidFrom(src, tokens, i);
    assert (tokens + [t])[i] == tokens[i];
    SolidComesOut(src, tokens, i);
    hide ComesOut, SolidBetween, DropSpaces;
    TokenTakenBack(src, Coming(src, tokens, i), Coming(src, tokens + [t], i), tokens[i],
                   SolidBetween(src, tokens, i, |tokens|), ComesOut(src, tokens, i), ComesOut(src, tokens + [t], i));
  }

  /** One more token before a comment, solid telling whether a solid one stands behind it. */
  lemma TokenTakenBack(src: string, kept: seq<Token>, left: seq<Token>, x: Token, solid: bool, came: bool, comes: bool)
    requires AllLexical(src, kept) && Lexical(src, x)
    requires left == if IsSolid(src, x) || solid then kept else DropSpaces(src, kept)
    requires comes == (came && (IsSpace(src, Source(x)) ==> solid))
    requires (IsSolid(src, x) ==> came) && (came ==> IsSolid(src, x) || IsSpace(src, Source(x)))
    ensures var now := kept + if came then [x] else [];
            AllLexical(src, now) && left + (if comes then [x] else []) == if solid then now else DropSpaces(src, now)
  {
    DropNext(src, kept, x);
    assert kept + [] == kept && left + [] == left;
  }

  lemma SolidComesOut(src: string, tokens: seq<Token>, i: nat)
    requires AllLexical(src, tokens) && i < |tokens|
    ensures IsSolid(src, tokens[i]) ==> ComesOut(src, tokens, i)
    ensures ComesOut(src, tokens, i) ==> IsSolid(src, tokens[i]) || IsSpace(src, Source(tokens[i]))
  {}

  lemma ComesOutBeforeComment(src: string, tokens: seq<Token>, t: Token, i: nat)
    requires AllLexical(src, tokens + [t]) && AllLexical(src, tokens) && i < |tokens| && IsComment(t)
    ensures ComesOut(src, tokens + [t], i) <==>
              ComesOut(src, tokens, i) && (IsSpace(src, Source(tokens[i])) ==> SolidBetween(src, tokens, i, |tokens|))
  {
    var more := tokens + [t];
    assert forall j :: 0 <= j < |tokens| ==> more[j] == tokens[j];
    forall j: nat | j <= |tokens| { SolidStays(src, tokens, t, i, j); }
    assert more[|tokens|] == t;
  }

  lemma SolidFrom(src: string, tokens: seq<Token>, i: nat)
    requires AllLexical(src, tokens) && i < |tokens|
    ensures SolidBetween(src, tokens, i - 1, |tokens|) <==> IsSolid(src, tokens[i]) || SolidBetween(src, tokens, i, |tokens|)
  {
    if m :| i - 1 < m < |tokens| && IsSolid(src, tokens[m]) {
      if m != i { assert i < m; }
    }
  }

  /** What the strippers put out, spaces of their own apart, is exactly the tokens that come out, in order. */
  lemma {:induction false} OutputIsComing(src: string, alnum: CharClass, tokens: seq<Token>)
    requires AllLexical(src, tokens)
    ensures Sources(Play(src, alnum, tokens)) == Coming(src, tokens, |tokens|)
  {
    if tokens != [] {
      var n := |tokens| - 1;
      var before, t := tokens[..n], tokens[n];
      OutputIsComing(src, alnum, before);
      assert tokens == before + [t];
      StepIsComing(src, alnum, before, t);
    }
  }

  lemma StepIsComing(src: string, alnum: CharClass, tokens: seq<Token>, t: Token)
    requires AllLexical(src, tokens + [t]) && AllLexical(src, tokens) && Lexical(src, t)
    requires Sources(Play(src, alnum, tokens)) == Coming(src, tokens, |tokens|)
    ensures Sources(Step(src, alnum, Play(src, alnum, tokens), t)) == Coming(src, tokens + [t], |tokens| + 1)
  {
    var pieces, n := Play(src, alnum, tokens), |tokens|;
    hide Play, IsSpace;
    if IsComment(t) {
      ComingBeforeComment(src, tokens, t, n);
      PoppedSources(src, pieces);
      ClosedSources(src, alnum, pieces, t.end);
      assert !SolidBetween(src, tokens, n - 1, n);
    } else {
      ComingStays(src, tokens, t, n);
      assert (pieces + [Source(t)])[..|pieces|] == pieces;
      assert ComesOut(src, tokens + [t], n);
    }
  }

  lemma ClosedSources(src: string, alnum: CharClass, pieces: seq<Piece>, i: nat)
    requires AllInSource(src, pieces)
    ensures Sources(Closed(src, alnum, pieces, i)) == Sources(Popped(src, pieces))
  {
    var kept := Popped(src, pieces);
    assert (kept + [Gap(i)])[..|kept|] == kept;
  }

  // ---------- spaces of their own ----------

  /** Such a space stands behind a word, and a word follows the comment it stands for. */
  predicate IsNeeded(src: string, alnum: CharClass, pieces: seq<Piece>, k: nat)
    requires AllInSource(src, pieces) && k < |pieces|
  {
    pieces[k].Gap? ==>
      k > 0 && EndsInWord(alnum, PieceText(src, pieces[k - 1])) && pieces[k].at < |src| && Word(alnum, src[pieces[k].at])
  }

  predicate AllNeeded(src: string, alnum: CharClass, pieces: seq<Piece>)
    requires AllInSource(src, pieces)
  {
    forall k :: 0 <= k < |pieces| ==> IsNeeded(src, alnum, pieces, k)
  }

  lemma NoneNeeded(src: string, alnum: CharClass)
    ensures AllNeeded(src, alnum, [])
  {}

  /** The strippers put no space of their own where none is needed. */
  lemma {:induction false} GapsAreNeeded(src: string, alnum: CharClass, tokens: seq<Token>)
    requires AllLexical(src, tokens)
    ensures AllNeeded(src, alnum, Play(src, alnum, tokens))
  {
    hide AllNeeded;
    if tokens == [] { assert AllNeeded(src, alnum, []) by { NoneNeeded(src, alnum); } }
    if tokens != [] {
      GapsAreNeeded(src, alnum, tokens[..|tokens| - 1]);
      StepGaps(src, alnum, Play(src, alnum, tokens[..|tokens| - 1]), tokens[|tokens| - 1]);
    }
  }

  lemma StepGaps(src: string, alnum: CharClass, pieces: seq<Piece>, t: Token)
    requires AllInSource(src, pieces) && Lexical(src, t) && AllNeeded(src, alnum, pieces)
    ensures AllNeeded(src, alnum, Step(src, alnum, pieces, t))
  {
    var next, kept := Step(src, alnum, pieces, t), Popped(src, pieces);
    forall k | 0 <= k < |next|
      ensures IsNeeded(src, alnum, next, k)
    {
      if k < |kept| {
        assert IsNeeded(src, alnum, pieces, k);
      } else if k < |pieces| && !IsComment(t) {
        assert IsNeeded(src, alnum, pieces, k);
      }
    }
  }
}
