/** What grammars of sources share, written without the scanners: texts as they follow one another, strings with
    escapes, and lexemes as they become tokens. */
module Lexemes {
  import opened TextLines
  import opened CommentEmitter
  import opened SourceScan

  // ---------- what stands where ----------

  /** From i on the source reads s. */
  predicate Reads(src: string, i: nat, s: string) {
    i <= |src| && src[i..] == s
  }

  lemma ReadsParts(src: string, i: nat, a: string, b: string)
    requires Reads(src, i, a + b)
    ensures i + |a| + |b| == |src| && At(src, a, i) && Reads(src, i + |a|, b)
    ensures forall k :: 0 <= k < |a| ==> src[i + k] == a[k]
  {
    assert forall k :: 0 <= k < |a| ==> src[i..][k] == a[k];
    assert src[i..][..|a|] == src[i..i + |a|] && src[i..][|a|..] == src[i + |a|..];
  }

  lemma FoundAt(src: string, part: string, from: nat, at: nat)
    requires from <= at && At(src, part, at) && forall k :: from <= k < at ==> !At(src, part, k)
    ensures Find(src, part, from) == at
  {}

  /** The first place of part in body + part is behind the body. */
  predicate FirstBehind(body: string, part: string) {
    forall k :: 0 <= k < |body| ==> !At(body + part, part, k)
  }

  lemma FoundBehind(src: string, i: nat, body: string, part: string, rest: string)
    requires Reads(src, i, body + (part + rest)) && FirstBehind(body, part)
    ensures Find(src, part, i) == i + |body| && At(src, part, i + |body|)
  {
    ReadsParts(src, i, body, part + rest);
    ReadsParts(src, i + |body|, part, rest);
    forall k | i <= k < i + |body|
      ensures !At(src, part, k)
    {
      var m, whole := k - i, body + part;
      assert !At(whole, part, m) && src[i..] == whole + rest;
      assert whole[m..m + |part|] == src[i..][m..m + |part|] == src[k..k + |part|];
    }
    FoundAt(src, part, i, i + |body|);
  }

  /** A line comment may hold anything but a line feed, and ends before one or with the source. */
  predicate IsLine(body: string, next: string) {
    '\n' !in body && (next == [] || next[0] == '\n')
  }

  lemma LineEndIsRead(src: string, i: nat, body: string, rest: string)
    requires Reads(src, i, "//" + body + rest) && IsLine(body, rest)
    ensures At(src, "//", i) && LineEnd(src, i) == i + 2 + |body|
  {
    assert "//" + body + rest == "//" + (body + rest);
    ReadsParts(src, i, "//", body + rest);
    ReadsParts(src, i + 2, body, rest);
    var end := i + 2 + |body|;
    assert src[i + 0] == '/' && src[i + 1] == '/';
    assert rest != [] ==> src[end..][0] == rest[0];
    forall k | i <= k < end
      ensures src[k] != '\n'
    {
      if k >= i + 2 { assert src[i + 2 + (k - i - 2)] == body[k - i - 2]; }
    }
    LineEndIs(src, i, end);
  }

  lemma LineEndIs(src: string, i: nat, end: nat)
    requires i <= end <= |src| && (end == |src| || src[end] == '\n') && forall k :: i <= k < end ==> src[k] != '\n'
    ensures LineEnd(src, i) == end
  {}

  // ---------- strings with escapes ----------

  datatype Unit = Plain(c: char) | Escape(c: char)

  function SpellUnits(units: seq<Unit>): string {
    if units == [] then "" else SpellUnit(units[0]) + SpellUnits(units[1..])
  }

  function SpellUnit(u: Unit): string {
    match u
    case Plain(c) => [c]
    case Escape(c) => ['\\', c]
  }

  /** A string may hold anything escaped, and plain what is neither its quote nor a backslash, nor, between single
      quotes, a line feed. */
  predicate IsQuoted(quote: char, units: seq<Unit>) {
    forall k :: 0 <= k < |units| ==> UnitOk(quote, units[k])
  }

  predicate UnitOk(quote: char, u: Unit) {
    u.Plain? ==> u.c != quote && u.c != '\\' && (quote == '\'' ==> u.c != '\n')
  }

  predicate IsQuote(quote: char) { quote == '"' || quote == '\'' }

  function SpellQuoted(quote: char, units: seq<Unit>): string {
    [quote] + SpellUnits(units) + [quote]
  }

  lemma QuotedIsRead(src: string, i: nat, quote: char, units: seq<Unit>, rest: string)
    requires Reads(src, i, SpellQuoted(quote, units) + rest) && IsQuote(quote) && IsQuoted(quote, units)
    ensures i < |src| && StringEnd(src, i, quote) == i + |SpellQuoted(quote, units)|
  {
    var tail := SpellUnits(units) + ([quote] + rest);
    assert SpellQuoted(quote, units) + rest == [quote] + tail;
    ReadsParts(src, i, [quote], tail);
    UnitsAreRead(src, i, i + 1, quote, units, rest);
  }

  lemma {:induction false} UnitsAreRead(src: string, i: nat, k: nat, quote: char, units: seq<Unit>, rest: string)
    requires Reads(src, k, SpellUnits(units) + ([quote] + rest)) && IsQuote(quote) && IsQuoted(quote, units)
    requires i < k && !Escaped(src, i, k) && forall m: nat :: m < k ==> !Stops(src, i, quote, m)
    ensures k < |src| && StringEndFrom(src, i, quote, k) == k + |SpellUnits(units)| + 1
    decreases units
  {
    if units == [] {
      assert SpellUnits(units) + ([quote] + rest) == [quote] + rest;
      ReadsParts(src, k, [quote], rest);
      assert src[k + 0] == quote;
    } else {
      var head, others := SpellUnit(units[0]), SpellUnits(units[1..]) + ([quote] + rest);
      assert SpellUnits(units) + ([quote] + rest) == head + others;
      ReadsParts(src, k, head, others);
      assert src[k + 0] == head[0] && UnitOk(quote, units[0]);
      UnitIsPassed(src, i, k, quote, units[0]);
      UnitsAreRead(src, i, k + |head|, quote, units[1..], rest);
    }
  }

  lemma UnitIsPassed(src: string, i: nat, k: nat, quote: char, u: Unit)
    requires i < k && !Escaped(src, i, k) && forall m: nat :: m < k ==> !Stops(src, i, quote, m)
    requires IsQuote(quote) && UnitOk(quote, u) && k + |SpellUnit(u)| < |src|
    requires forall j :: 0 <= j < |SpellUnit(u)| ==> src[k + j] == SpellUnit(u)[j]
    ensures var next := k + |SpellUnit(u)|;
            && !Escaped(src, i, next) && (forall m: nat :: m < next ==> !Stops(src, i, quote, m))
            && StringEndFrom(src, i, quote, k) == StringEndFrom(src, i, quote, next)
  {
    assert src[k + 0] == SpellUnit(u)[0];
    if u.Escape? { assert Escaped(src, i, k + 1) && !Escaped(src, i, k + 2); }
  }

  // ---------- lexemes and tokens ----------

  /** A lexeme as it is to become a token. */
  datatype Lex = Lex(kind: TokenKind, text: string)

  function Printed(lexes: seq<Lex>): string {
    if lexes == [] then "" else lexes[0].text + Printed(lexes[1..])
  }

  lemma PrintedNext(lexes: seq<Lex>, k: nat)
    requires k < |lexes|
    ensures Printed(lexes[k..]) == lexes[k].text + Printed(lexes[k + 1..])
  {
    assert lexes[k..][1..] == lexes[k + 1..];
  }

  lemma {:induction false} PrintedSplits(lexes: seq<Lex>, k: nat)
    requires k <= |lexes|
    ensures Printed(lexes) == Printed(lexes[..k]) + Printed(lexes[k..])
  {
    if k == 0 {
      assert lexes[..0] == [] && lexes[0..] == lexes;
    } else {
      PrintedSplits(lexes[1..], k - 1);
      var first, before, after := lexes[0].text, Printed(lexes[1..][..k - 1]), Printed(lexes[k..]);
      assert lexes[1..][k - 1..] == lexes[k..] && lexes[..k][1..] == lexes[1..][..k - 1];
      assert first + (before + after) == first + before + after;
    }
  }

  /** The tokens are the lexemes, one by one. */
  ghost predicate AreLexes(src: string, tokens: seq<Token>, lexes: seq<Lex>) {
    |tokens| == |lexes| && forall k :: 0 <= k < |tokens| ==> IsLex(src, tokens[k], lexes[k])
  }

  predicate IsLex(src: string, t: Token, lex: Lex) {
    t.kind == lex.kind && t.start <= t.end <= |src| && Text(src, t) == lex.text
  }

  function StartOf(src: string, tokens: seq<Token>, j: nat): nat
    requires j <= |tokens|
  {
    if j < |tokens| then tokens[j].start else |src|
  }

  /** Wherever a token starts and the source goes on with lexeme k and those after it, the token is lexeme k. */
  ghost predicate ReadsAsLexes(src: string, tokens: seq<Token>, lexes: seq<Lex>) {
    forall j, k :: 0 <= j < |tokens| && 0 <= k < |lexes| && Reads(src, tokens[j].start, Printed(lexes[k..])) ==>
      IsLex(src, tokens[j], lexes[k])
  }

  lemma ReadsAll(src: string, tokens: seq<Token>, lexes: seq<Lex>)
    requires Tiles(src, tokens, |src|) && src == Printed(lexes)
    ensures Reads(src, StartOf(src, tokens, 0), Printed(lexes[0..]))
  {
    assert lexes[0..] == lexes && src[0..] == src;
  }

  lemma {:induction false} TokensAreLexes(src: string, tokens: seq<Token>, lexes: seq<Lex>, j: nat)
    requires Tiles(src, tokens, |src|) && ReadsAsLexes(src, tokens, lexes) && j <= |tokens| && j <= |lexes|
    requires Reads(src, StartOf(src, tokens, j), Printed(lexes[j..])) && forall k :: j <= k < |lexes| ==> lexes[k].text != []
    ensures |tokens| == |lexes| && forall k :: j <= k < |tokens| ==> IsLex(src, tokens[k], lexes[k])
    decreases |lexes| - j
  {
    var left := lexes[j..];
    if j == |lexes| {
      assert Printed(left) == "";
      assert j < |tokens| ==> Lexical(src, tokens[j]);
    } else {
      var head, others := left[0].text, Printed(left[1..]);
      ReadsParts(src, StartOf(src, tokens, j), head, others);
      assert left[1..] == lexes[j + 1..] && head == lexes[j].text;
      assert IsLex(src, tokens[j], lexes[j]) && Lexical(src, tokens[j]);
      assert tokens[j].end == tokens[j].start + |head|;
      assert StartOf(src, tokens, j + 1) == tokens[j].end;
      TokensAreLexes(src, tokens, lexes, j + 1);
    }
  }

  // ---------- what comes out ----------

  /** The texts of the lexemes but for comments, spaces and tabs. */
  function Remaining(lexes: seq<Lex>): seq<string> {
    if lexes == [] then []
    else
      var last := lexes[|lexes| - 1];
      Remaining(lexes[..|lexes| - 1]) +
      if last.kind.LineComment? || last.kind.BlockComment? || last.text == " " || last.text == "\t" then [] else [last.text]
  }

  function Texts(src: string, tokens: seq<Token>): seq<string>
    requires forall k :: 0 <= k < |tokens| ==> Lexical(src, tokens[k])
  {
    seq(|tokens|, k requires 0 <= k < |tokens| => assert Lexical(src, tokens[k]); Text(src, tokens[k]))
  }

  lemma {:induction false} SubstanceIsLexical(src: string, tokens: seq<Token>)
    requires forall k :: 0 <= k < |tokens| ==> Lexical(src, tokens[k])
    ensures forall k :: 0 <= k < |Substance(src, tokens)| ==> Lexical(src, Substance(src, tokens)[k])
  {
    if tokens != [] { SubstanceIsLexical(src, tokens[..|tokens| - 1]); }
  }

  lemma {:induction false} SubstanceRemains(src: string, tokens: seq<Token>, lexes: seq<Lex>)
    requires (forall k :: 0 <= k < |tokens| ==> Lexical(src, tokens[k])) && AreLexes(src, tokens, lexes)
    ensures forall k :: 0 <= k < |Substance(src, tokens)| ==> Lexical(src, Substance(src, tokens)[k])
    ensures Texts(src, Substance(src, tokens)) == Remaining(lexes)
  {
    SubstanceIsLexical(src, tokens);
    if tokens != [] {
      var n := |tokens| - 1;
      assert IsLex(src, tokens[n], lexes[n]);
      forall k | 0 <= k < n ensures IsLex(src, tokens[..n][k], lexes[..n][k]) { assert IsLex(src, tokens[k], lexes[k]); }
      SubstanceRemains(src, tokens[..n], lexes[..n]);
    }
  }

  /** What the strippers emit of a source read as these lexemes, gaps, spaces and tabs apart, is the lexemes but for
      the comments. */
  lemma OutputIsRemaining(src: string, alnum: CharClass, tokens: seq<Token>, lexes: seq<Lex>)
    requires (forall k :: 0 <= k < |tokens| ==> Lexical(src, tokens[k])) && AreLexes(src, tokens, lexes)
    ensures var solid := Solid(src, Play(src, alnum, tokens));
            (forall k :: 0 <= k < |solid| ==> Lexical(src, solid[k])) && Texts(src, solid) == Remaining(lexes)
  {
    hide Play, Solid, Substance, Texts, Remaining, AreLexes;
    PlayKeepsSubstance(src, alnum, tokens);
    SubstanceRemains(src, tokens, lexes);
  }
}
