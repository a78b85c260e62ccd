/** Scanning steps the Go and Rust comment strippers share. */
module SourceScan {
  import opened TextLines
  import opened CommentEmitter

  /** The character at k, in a literal opened at i, is escaped: an unescaped backslash stands before it. */
  predicate Escaped(src: string, i: nat, k: nat) {
    i < k - 1 && k <= |src| && src[k - 1] == '\\' && !Escaped(src, i, k - 1)
  }

  /** At k the literal opened at i stops: at its quote, or, if that is a single quote, at the end of the line. */
  predicate Stops(src: string, i: nat, quote: char, k: nat) {
    i < k < |src| && !Escaped(src, i, k) && (src[k] == quote || (src[k] == '\n' && quote == '\''))
  }

  /** The end of the literal: past its first stop if that is the quote, or the end of the source. */
  ghost predicate EndsString(src: string, i: nat, quote: char, end: nat) {
    || (end == |src| && forall k: nat :: !Stops(src, i, quote, k))
    || exists k: nat :: Stops(src, i, quote, k) && (forall m: nat :: m < k ==> !Stops(src, i, quote, m)) &&
         end == if src[k] == quote then k + 1 else k
  }

  function StringEndFrom(src: string, i: nat, quote: char, k: nat): (end: nat)
    requires i < k <= |src| && forall m: nat :: m < k ==> !Stops(src, i, quote, m)
    ensures i < end <= |src| && EndsString(src, i, quote, end)
    decreases |src| - k
  {
    if k == |src| then k
    else if Stops(src, i, quote, k) then (if src[k] == quote then k + 1 else k)
    else StringEndFrom(src, i, quote, k + 1)
  }

  function StringEnd(src: string, i: nat, quote: char): (end: nat)
    requires i < |src|
    ensures i < end <= |src| && EndsString(src, i, quote, end)
  {
    StringEndFrom(src, i, quote, i + 1)
  }

  method ConsumeString(src: string, i: nat, quote: char) returns (end: nat)
    requires i < |src| && quote != '\\'
    ensures end == StringEnd(src, i, quote)
  {
    var n := |src|;
    var j := i + 1;
    while j < n
      invariant i < j <= n && (j < n ==> !Escaped(src, i, j))
      invariant forall m: nat :: m < j ==> !Stops(src, i, quote, m)
      invariant StringEndFrom(src, i, quote, i + 1) == StringEndFrom(src, i, quote, j)
    {
      var ch := src[j];
      if ch == '\\' && j + 1 < n {
        assert Escaped(src, i, j + 1) && !Escaped(src, i, j + 2);
        j := j + 2;
        continue;
      }
      if ch == quote {
        return j + 1;
      }
      if ch == '\n' && quote == '\'' {
        return j;
      }
      j := j + 1;
    }
    return n;
  }

  lemma PairAt(src: string, i: nat, part: string)
    requires i < |src| && |part| == 2
    ensures At(src, part, i) <==> i + 1 < |src| && src[i] == part[0] && src[i + 1] == part[1]
  {
    if i + 1 < |src| { assert src[i..i + 2] == [src[i], src[i + 1]]; }
  }

  /** The first place at or after from where part stands, or -1. */
  function Find(src: string, part: string, from: nat): (at: int)
    requires from <= |src|
    ensures at == -1 || (from <= at && At(src, part, at))
    ensures forall k :: from <= k && (at == -1 || k < at) ==> !At(src, part, k)
    decreases |src| - from
  {
    if At(src, part, from) then from
    else if from == |src| then -1
    else Find(src, part, from + 1)
  }

  predicate Holds(s: string, part: string) {
    Find(s, part, 0) != -1
  }

  /** The end of the line that i is on. */
  function LineEnd(src: string, i: nat): (j: nat)
    requires i <= |src|
    ensures i <= j <= |src| && (j == |src| || src[j] == '\n') && forall k :: i <= k < j ==> src[k] != '\n'
    decreases |src| - i
  {
    if i == |src| || src[i] == '\n' then i else LineEnd(src, i + 1)
  }

  method SkipLine(src: string, i: nat) returns (j: nat)
    requires i <= |src|
    ensures j == LineEnd(src, i)
  {
    j := i;
    while j < |src| && src[j] != '\n'
      invariant i <= j <= |src| && LineEnd(src, i) == LineEnd(src, j)
    {
      j := j + 1;
    }
  }

  /** The stripper has read the source up to n as tokens, and emitted what they leave. */
  ghost predicate Stripped(src: string, alnum: CharClass, tokens: seq<Token>, n: nat, pieces: seq<Piece>) {
    Tiles(src, tokens, n) && pieces == Play(src, alnum, tokens)
  }

  /** One token further: what every branch of the strippers does to the emitter. */
  method EmitToken(em: Emitter, src: string, alnum: CharClass, t: Token, ghost tokens: seq<Token>)
    requires em.Valid(src) && Lexical(src, t) && Stripped(src, alnum, tokens, t.start, em.pieces)
    modifies em
    ensures em.Valid(src) && Stripped(src, alnum, tokens + [t], t.end, em.pieces)
  {
    TilesMore(src, alnum, tokens, t);
    match t.kind
    case LineComment => em.PopTrailingWs(src);
    case BlockComment => em.CloseBlockComment(src, alnum, t.end);
    case _ => em.Emit(src[t.start..t.end], t.kind.Literal?, src, Source(t));
  }
}
