/** The Rust stripper: raw strings, byte strings, character literals against lifetimes, nested comments. */
module RustScanner {
  import opened TextLines
  import opened CommentEmitter
  import opened SourceScan

  // ---------- raw strings ----------

  predicate OpensRaw(src: string, j: nat) {
    j < |src| && (src[j] == '"' || src[j] == '#')
  }

  /** Where the r of a raw string would stand, or -1. */
  function RawAt(src: string, i: nat): (at: int)
    requires i < |src|
    ensures at == -1 || i <= at < |src|
  {
    if src[i] == 'r' && OpensRaw(src, i + 1) then i
    else if src[i] == 'b' && i + 1 < |src| && src[i + 1] == 'r' && OpensRaw(src, i + 2) then i + 1
    else -1
  }

  function HashEnd(src: string, j: nat): (k: nat)
    requires j <= |src|
    ensures j <= k <= |src| && (k < |src| ==> src[k] != '#') && forall m :: j <= m < k ==> src[m] == '#'
    decreases |src| - j
  {
    if j < |src| && src[j] == '#' then HashEnd(src, j + 1) else j
  }

  function Terminator(hashes: nat): (s: string)
    ensures |s| == hashes + 1
  {
    "\"" + seq(hashes, _ => '#')
  }

  /** A raw string whose r is at raw opens with the quote at q: nothing but hashes stands between them. */
  predicate OpensAt(src: string, raw: int, q: int) {
    0 <= raw < q < |src| && src[q] == '"' && forall m :: raw < m < q ==> src[m] == '#'
  }

  /** At k stands a quote with as many hashes after it as stand between raw and q. */
  predicate ClosesAt(src: string, raw: int, q: int, k: int) {
    raw < q < k && At(src, Terminator(q - raw - 1), k)
  }

  /** A raw string opened at q ends behind the first quote after q with as many hashes, or with the source. */
  ghost predicate EndsRaw(src: string, raw: int, q: int, end: int) {
    || (end == |src| && forall k :: !ClosesAt(src, raw, q, k))
    || (ClosesAt(src, raw, q, end - (q - raw)) && forall k :: k < end - (q - raw) ==> !ClosesAt(src, raw, q, k))
  }

  lemma OpensAfterHashes(src: string, raw: nat)
    requires raw < |src|
    ensures forall q :: OpensAt(src, raw, q) <==> q == HashEnd(src, raw + 1) && q < |src| && src[q] == '"'
  {
    var j := HashEnd(src, raw + 1);
    forall q | OpensAt(src, raw, q)
      ensures q == j
    {
      assert !(q < j) && !(j < q);
    }
  }

  lemma FoundEnds(src: string, raw: nat, q: nat)
    requires raw < q < |src|
    ensures var close := Find(src, Terminator(q - raw - 1), q + 1);
            EndsRaw(src, raw, q, if close == -1 then |src| else close + (q - raw))
  {
    hide Terminator, Find;
  }

  /** The end of the raw string at i, or -1 if none starts there. It ends at the first quote with as many hashes. */
  function RawEnd(src: string, i: nat): (end: int)
    requires i < |src|
    ensures end == -1 || i < end <= |src|
    ensures end == -1 <==> forall q :: !OpensAt(src, RawAt(src, i), q)
    ensures forall q :: OpensAt(src, RawAt(src, i), q) ==> EndsRaw(src, RawAt(src, i), q, end)
  {
    var raw := RawAt(src, i);
    if raw == -1 then -1
    else
      var j := HashEnd(src, raw + 1);
      OpensAfterHashes(src, raw);
      if j == |src| || src[j] != '"' then -1
      else
        FoundEnds(src, raw, j);
        var close := Find(src, Terminator(j - raw - 1), j + 1);
        if close == -1 then |src| else close + (j - raw)
  }

  method ScanRaw(src: string, i: nat) returns (end: int)
    requires i < |src|
    ensures end == RawEnd(src, i)
  {
    var rawAt := RawAt(src, i);
    if rawAt < 0 {
      return -1;
    }
    var j, hashes := rawAt + 1, 0;
    while j < |src| && src[j] == '#'
      invariant j <= |src| && hashes == j - (rawAt + 1) && HashEnd(src, rawAt + 1) == HashEnd(src, j)
    {
      hashes := hashes + 1;
      j := j + 1;
    }
    if j < |src| && src[j] == '"' {
      var terminator := Terminator(hashes);
      end := Find(src, terminator, j + 1);
      return if end == -1 then |src| else end + |terminator|;
    }
    return -1;
  }

  // ---------- character literals ----------

  /** The end of the character literal at i, or -1 if the quote opens a lifetime or nothing. */
  function CharEnd(src: string, i: nat): (end: int)
    requires i < |src|
    ensures end == -1 || i < end <= |src|
  {
    if i + 1 == |src| then -1
    else if src[i + 1] == '\\' then
      if At(src, "u{", i + 2) then
        var close := Find(src, "}", i + 4);
        if close == -1 then |src| else QuoteAt(src, close + 1)
      else QuoteAt(src, if i + 2 < |src| then i + 3 else i + 2)
    else if i + 2 < |src| && src[i + 2] == '\'' then i + 3
    else -1
  }

  function QuoteAt(src: string, j: nat): int {
    if j < |src| && src[j] == '\'' then j + 1 else -1
  }

  // ---------- nested comments ----------

  predicate Pair(src: string, i: nat, a: char, b: char) {
    i + 1 < |src| && src[i] == a && src[i + 1] == b
  }

  /** Where a comment nested depth deep at i ends. */
  function NestEnd(src: string, i: nat, depth: nat): (end: nat)
    requires i <= |src|
    ensures i <= end <= |src|
    ensures depth > 0 ==> end == |src| || (end >= 2 && Pair(src, end - 2, '*', '/'))
    decreases |src| - i
  {
    if i == |src| || depth == 0 then i
    else if Pair(src, i, '/', '*') then NestEnd(src, i + 2, depth + 1)
    else if Pair(src, i, '*', '/') then NestEnd(src, i + 2, depth - 1)
    else NestEnd(src, i + 1, depth)
  }

  method SkipNested(src: string, start: nat) returns (i: nat)
    requires start <= |src|
    ensures i == NestEnd(src, start, 1)
  {
    var n, depth: nat := |src|, 1;
    i := start;
    while i < n && depth > 0
      invariant start <= i <= n && NestEnd(src, start, 1) == NestEnd(src, i, depth)
    {
      if i + 1 < n && src[i] == '/' && src[i + 1] == '*' {
        depth := depth + 1;
        i := i + 2;
      } else if i + 1 < n && src[i] == '*' && src[i + 1] == '/' {
        depth := depth - 1;
        i := i + 2;
      } else {
        i := i + 1;
      }
    }
  }

  // ---------- tokens ----------

  function LineOf(src: string, i: nat): nat
    requires i <= |src|
  {
    Breaks(src[..i])
  }

  function RustToken(src: string, doctest: set<nat>, i: nat): (t: Token)
    requires i < |src|
    ensures t.start == i && Lexical(src, t)
  {
    var end := RawEnd(src, i);
    if end >= 0 then Token(Literal, i, end)
    else if src[i] == 'b' && i + 1 < |src| && (src[i + 1] == '"' || src[i + 1] == '\'') then
      Token(Literal, i, StringEnd(src, i + 1, src[i + 1]))
    else if src[i] == '"' then Token(Literal, i, StringEnd(src, i, '"'))
    else if src[i] == '\'' then
      var close := CharEnd(src, i);
      if close >= 0 then Token(Literal, i, close) else Token(CodeChar, i, i + 1)
    else if At(src, "//", i) then
      assert src[i..i + 2][0] == '/';
      Token(if LineOf(src, i) in doctest then KeptLine else LineComment, i, LineEnd(src, i))
    else if At(src, "/*", i) then Token(BlockComment, i, NestEnd(src, i + 2, 1))
    else Token(CodeChar, i, i + 1)
  }

  method NextRustToken(src: string, doctest: set<nat>, i: nat) returns (t: Token)
    requires i < |src|
    ensures t == RustToken(src, doctest, i)
  {
    var n, c := |src|, src[i];
    var nxt := if i + 1 < n then [src[i + 1]] else "";
    PairAt(src, i, "//");
    PairAt(src, i, "/*");
    var raw := ScanRaw(src, i);
    if raw >= 0 {
      return Token(Literal, i, raw);
    }
    if c == 'b' && nxt == "\"" {
      var end := ConsumeString(src, i + 1, '"');
      return Token(Literal, i, end);
    }
    if c == 'b' && nxt == "'" {
      var end := ConsumeString(src, i + 1, '\'');
      return Token(Literal, i, end);
    }
    if c == '"' {
      var end := ConsumeString(src, i, '"');
      return Token(Literal, i, end);
    }
    if c == '\'' {
      t := NextQuoteToken(src, i);
      return;
    }
    if c == '/' && nxt == "/" {
      var j := SkipLine(src, i);
      return Token(if LineOf(src, i) in doctest then KeptLine else LineComment, i, j);
    }
    if c == '/' && nxt == "*" {
      var end := SkipNested(src, i + 2);
      return Token(BlockComment, i, end);
    }
    return Token(CodeChar, i, i + 1);
  }

  method NextQuoteToken(src: string, i: nat) returns (t: Token)
    requires i < |src|
    ensures t == if CharEnd(src, i) >= 0 then Token(Literal, i, CharEnd(src, i)) else Token(CodeChar, i, i + 1)
  {
    var n := |src|;
    if i + 1 < n {
      var a := src[i + 1];
      if a == '\\' {
        var j := i + 2;
        if j < n { PairAt(src, j, "u{"); }
        if j < n && src[j] == 'u' && j + 1 < n && src[j + 1] == '{' {
          var close := Find(src, "}", j + 2);
          if close == -1 {
            return Token(Literal, i, n);
          }
          j := close + 1;
        } else {
          j := if j < n then j + 1 else j;
        }
        if j < n && src[j] == '\'' {
          return Token(Literal, i, j + 1);
        }
        return Token(CodeChar, i, i + 1);
      }
      if i + 2 < n && src[i + 2] == '\'' {
        return Token(Literal, i, i + 3);
      }
    }
    return Token(CodeChar, i, i + 1);
  }

  /** The tokens are those the Rust scanner reads. */
  ghost predicate RustTokens(src: string, doctest: set<nat>, tokens: seq<Token>) {
    forall k :: 0 <= k < |tokens| ==> tokens[k].start < |src| && tokens[k] == RustToken(src, doctest, tokens[k].start)
  }

  lemma RustTokensMore(src: string, doctest: set<nat>, tokens: seq<Token>, t: Token)
    requires RustTokens(src, doctest, tokens) && t.start < |src| && t == RustToken(src, doctest, t.start)
    ensures RustTokens(src, doctest, tokens + [t])
  {}

  /** The tokens are all of the source, the text is what they leave, and protected the lines their literals span. */
  ghost predicate RustStrips(src: string, alnum: CharClass, doctest: set<nat>, tokens: seq<Token>, text: string,
                           protected: set<nat>) {
    && Tiles(src, tokens, |src|) && RustTokens(src, doctest, tokens)
    && var pieces := Play(src, alnum, tokens);
       text == TextOf(src, pieces) && protected == Guarded(src, pieces)
  }

  ghost predicate IsRustStripped(src: string, alnum: CharClass, doctest: set<nat>, text: string, protected: set<nat>) {
    exists tokens :: RustStrips(src, alnum, doctest, tokens, text, protected)
  }

  lemma RustStripsIs(src: string, alnum: CharClass, doctest: set<nat>, tokens: seq<Token>, text: string, protected: set<nat>)
    requires RustStrips(src, alnum, doctest, tokens, text, protected)
    ensures IsRustStripped(src, alnum, doctest, text, protected)
  {}

  method StripRust(src: string, alnum: CharClass, doctest: set<nat>)
    returns (text: string, protected: set<nat>, ghost tokens: seq<Token>)
    ensures RustStrips(src, alnum, doctest, tokens, text, protected)
    ensures IsRustStripped(src, alnum, doctest, text, protected)
  {
    var em := new Emitter(src);
    tokens := [];
    var i := 0;
    while i < |src|
      invariant i <= |src| && em.Valid(src) && fresh(em)
      invariant Stripped(src, alnum, tokens, i, em.pieces) && RustTokens(src, doctest, tokens)
    {
      var t := NextRustToken(src, doctest, i);
      EmitToken(em, src, alnum, t, tokens);
      RustTokensMore(src, doctest, tokens, t);
      tokens := tokens + [t];
      i := t.end;
    }
    text := em.JoinOut(src);
    protected := em.protected;
    RustStripsIs(src, alnum, doctest, tokens, text, protected);
  }
}
