/** A grammar of Go sources, and that the scanner reads them by it. */
module GoGrammar {
  import opened TextLines
  import opened CommentEmitter
  import opened SourceScan
  import opened GoScanner
  import opened Lexemes

  datatype GoLexeme =
    | GoString(quote: char, units: seq<Unit>)
    | GoRaw(body: string)
    | GoLine(body: string)
    | GoBlock(body: string)
    | GoCode(c: char)

  function SpellGo(l: GoLexeme): (s: string)
    ensures s != []
  {
    match l
    case GoString(quote, body) => SpellQuoted(quote, body)
    case GoRaw(body) => "`" + body + "`"
    case GoLine(body) => "//" + body
    case GoBlock(body) => "/*" + body + "*/"
    case GoCode(c) => [c]
  }

  /** The lexeme is one, before the text next. */
  predicate IsGo(l: GoLexeme, next: string) {
    match l
    case GoString(quote, body) => IsQuote(quote) && IsQuoted(quote, body)
    case GoRaw(body) => '`' !in body
    case GoLine(body) => IsLine(body, next)
    case GoBlock(body) => FirstBehind(body, "*/")
    case GoCode(c) => !IsQuote(c) && c != '`' && (c == '/' ==> next == [] || (next[0] != '/' && next[0] != '*'))
  }

  /** Strings are literals; comments go, but for directives and the preambles of cgo. */
  function GoLex(l: GoLexeme): (lex: Lex)
    ensures lex.text == SpellGo(l)
  {
    var text := SpellGo(l);
    match l
    case GoString(_, _) => Lex(Literal, text)
    case GoRaw(_) => Lex(Literal, text)
    case GoLine(_) => Lex(if GoDirective(text) then KeptLine else LineComment, text)
    case GoBlock(body) => Lex(if DirectiveBlock(body) then Literal else BlockComment, text)
    case GoCode(_) => Lex(CodeChar, text)
  }

  function GoLexes(program: seq<GoLexeme>): (lexes: seq<Lex>)
    ensures |lexes| == |program| && forall k :: 0 <= k < |program| ==> lexes[k] == GoLex(program[k])
  {
    seq(|program|, k requires 0 <= k < |program| => GoLex(program[k]))
  }

  /** Every lexeme is one, before the text of those after it. */
  predicate IsGoProgram(program: seq<GoLexeme>) {
    forall k :: 0 <= k < |program| ==> IsGo(program[k], Printed(GoLexes(program)[k + 1..]))
  }

  lemma GoLexIsRead(src: string, i: nat, l: GoLexeme, rest: string)
    requires Reads(src, i, SpellGo(l) + rest) && IsGo(l, rest)
    ensures i < |src| && IsLex(src, GoToken(src, i), GoLex(l))
  {
    ReadsParts(src, i, SpellGo(l), rest);
    hide GoToken, IsGo, Reads;
    match l
    case GoString(quote, units) => StringIsRead(src, i, quote, units, rest);
    case GoRaw(body) => RawIsRead(src, i, body, rest);
    case GoLine(body) => LineIsRead(src, i, body, rest);
    case GoBlock(body) => BlockIsRead(src, i, body, rest);
    case GoCode(c) => CodeIsRead(src, i, c, rest);
  }

  lemma StringIsRead(src: string, i: nat, quote: char, units: seq<Unit>, rest: string)
    requires Reads(src, i, SpellQuoted(quote, units) + rest) && IsGo(GoString(quote, units), rest)
    ensures i < |src| && GoToken(src, i) == Token(Literal, i, i + |SpellQuoted(quote, units)|)
  {
    ReadsParts(src, i, SpellQuoted(quote, units), rest);
    assert src[i + 0] == quote;
    hide SpellQuoted;
    QuotedIsRead(src, i, quote, units, rest);
  }

  lemma RawIsRead(src: string, i: nat, body: string, rest: string)
    requires Reads(src, i, "`" + body + "`" + rest) && IsGo(GoRaw(body), rest)
    ensures i < |src| && GoToken(src, i) == Token(Literal, i, i + |body| + 2)
  {
    assert "`" + body + "`" + rest == "`" + (body + ("`" + rest));
    ReadsParts(src, i, "`", body + ("`" + rest));
    assert src[i + 0] == '`';
    forall k | 0 <= k < |body|
      ensures !At(body + "`", "`", k)
    {
      assert (body + "`")[k..k + 1][0] == body[k];
    }
    FoundBehind(src, i + 1, body, "`", rest);
  }

  lemma LineIsRead(src: string, i: nat, body: string, rest: string)
    requires Reads(src, i, "//" + body + rest) && IsGo(GoLine(body), rest)
    ensures i < |src|
    ensures GoToken(src, i) == Token(if GoDirective("//" + body) then KeptLine else LineComment, i, i + 2 + |body|)
  {
    LineEndIsRead(src, i, body, rest);
    ReadsParts(src, i, "//" + body, rest);
    assert src[i + 0] == '/';
    hide Reads, LineEnd, GoDirective;
  }

  lemma BlockIsRead(src: string, i: nat, body: string, rest: string)
    requires Reads(src, i, "/*" + body + "*/" + rest) && IsGo(GoBlock(body), rest)
    ensures i < |src|
    ensures GoToken(src, i) == Token(if DirectiveBlock(body) then Literal else BlockComment, i, i + |body| + 4)
  {
    hide DirectiveBlock;
    assert "/*" + body + "*/" + rest == "/*" + (body + ("*/" + rest));
    ReadsParts(src, i, "/*", body + ("*/" + rest));
    PairAt(src, i, "//");
    assert src[i + 0] == '/' && src[i + 1] == '*';
    ReadsParts(src, i + 2, body, "*/" + rest);
    FoundBehind(src, i + 2, body, "*/", rest);
  }

  lemma CodeIsRead(src: string, i: nat, c: char, rest: string)
    requires Reads(src, i, [c] + rest) && IsGo(GoCode(c), rest)
    ensures i < |src| && GoToken(src, i) == Token(CodeChar, i, i + 1)
  {
    ReadsParts(src, i, [c], rest);
    assert src[i + 0] == c;
    assert rest != [] ==> src[i + 1..][0] == rest[0];
    PairAt(src, i, "//");
    PairAt(src, i, "/*");
  }

  lemma GoReadsLexes(src: string, i: nat, program: seq<GoLexeme>, k: nat)
    requires IsGoProgram(program) && k < |program| && Reads(src, i, Printed(GoLexes(program)[k..]))
    ensures i < |src| && IsLex(src, GoToken(src, i), GoLexes(program)[k])
  {
    PrintedNext(GoLexes(program), k);
    hide GoToken, SpellGo, IsGo, Printed;
    GoLexIsRead(src, i, program[k], Printed(GoLexes(program)[k + 1..]));
  }

  /** The tokens of a source printed from a program of the grammar are its lexemes. */
  lemma GoIsReadByGrammar(src: string, tokens: seq<Token>, program: seq<GoLexeme>)
    requires Tiles(src, tokens, |src|) && GoTokens(src, tokens) && IsGoProgram(program) && src == Printed(GoLexes(program))
    ensures AreLexes(src, tokens, GoLexes(program))
  {
    hide GoToken, IsGoProgram, Printed, SpellGo, Reads, GoLex, ReadsAsLexes;
    var lexes := GoLexes(program);
    TokensReadLexes(src, tokens, program);
    ReadsAll(src, tokens, lexes);
    TokensAreLexes(src, tokens, lexes, 0);
  }

  lemma TokensReadLexes(src: string, tokens: seq<Token>, program: seq<GoLexeme>)
    requires GoTokens(src, tokens) && IsGoProgram(program) && src == Printed(GoLexes(program))
    ensures ReadsAsLexes(src, tokens, GoLexes(program))
  {
    hide GoToken, IsGoProgram, Printed, SpellGo, Reads, GoLex, IsLex;
    var lexes := GoLexes(program);
    forall j, k | 0 <= j < |tokens| && 0 <= k < |lexes| && Reads(src, tokens[j].start, Printed(lexes[k..]))
      ensures IsLex(src, tokens[j], lexes[k])
    {
      GoReadsLexes(src, tokens[j].start, program, k);
    }
  }
}
