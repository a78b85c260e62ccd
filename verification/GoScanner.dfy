/** The Go stripper: its scanner, token by token, and the loop that emits what stays. */
module GoScanner {
  import opened TextLines
  import opened CommentEmitter
  import opened SourceScan

  predicate GoDirective(line: string) {
    "//go:" <= line || "//export " <= line || "//export\t" <= line
  }

  predicate DirectiveBlock(body: string) {
    Holds(body, "#cgo") || Holds(body, "#include") || Holds(body, "extern ")
  }

  /** Where the body of the block comment at i ends; when nothing closes it, one short of the end of the source. */
  function BlockBodyEnd(src: string, i: nat): (j: nat)
    requires At(src, "/*", i)
    ensures i + 2 <= j <= |src|
  {
    var close := Find(src, "*/", i + 2);
    if close != -1 then close else if i + 2 < |src| then |src| - 1 else |src|
  }

  function GoToken(src: string, i: nat): (t: Token)
    requires i < |src|
    ensures t.start == i && Lexical(src, t)
  {
    if src[i] == '"' || src[i] == '\'' then Token(Literal, i, StringEnd(src, i, src[i]))
    else if src[i] == '`' then
      var close := Find(src, "`", i + 1);
      Token(Literal, i, if close == -1 then |src| else close + 1)
    else if At(src, "//", i) then
      var j := LineEnd(src, i);
      assert src[i..i + 2][0] == '/';
      Token(if GoDirective(src[i..j]) then KeptLine else LineComment, i, j)
    else if At(src, "/*", i) then
      var j := BlockBodyEnd(src, i);
      Token(if DirectiveBlock(src[i + 2..j]) then Literal else BlockComment, i, if j + 2 < |src| then j + 2 else |src|)
    else Token(CodeChar, i, i + 1)
  }

  method SkipBlock(src: string, i: nat) returns (j: nat)
    requires At(src, "/*", i)
    ensures j == BlockBodyEnd(src, i)
  {
    j := i + 2;
    while j + 1 < |src| && !(src[j] == '*' && src[j + 1] == '/')
      invariant i + 2 <= j <= |src| && (j == i + 2 || j < |src|)
      invariant forall k :: i + 2 <= k < j ==> !At(src, "*/", k)
    {
      PairAt(src, j, "*/");
      j := j + 1;
    }
    if j + 1 < |src| {
      PairAt(src, j, "*/");
      assert Find(src, "*/", i + 2) == j;
    } else {
      assert Find(src, "*/", i + 2) == -1;
    }
  }

  method NextGoToken(src: string, i: nat) returns (t: Token)
    requires i < |src|
    ensures t == GoToken(src, i)
  {
    var n, c := |src|, src[i];
    var nxt := if i + 1 < n then [src[i + 1]] else "";
    PairAt(src, i, "//");
    PairAt(src, i, "/*");
    if c == '"' {
      var end := ConsumeString(src, i, '"');
      return Token(Literal, i, end);
    }
    if c == '\'' {
      var end := ConsumeString(src, i, '\'');
      return Token(Literal, i, end);
    }
    if c == '`' {
      var end := Find(src, "`", i + 1);
      if end == -1 {
        return Token(Literal, i, n);
      }
      return Token(Literal, i, end + 1);
    }
    if c == '/' && nxt == "/" {
      var j := SkipLine(src, i);
      return Token(if GoDirective(src[i..j]) then KeptLine else LineComment, i, j);
    }
    if c == '/' && nxt == "*" {
      var j := SkipBlock(src, i);
      var end := if j + 2 < n then j + 2 else n;
      return Token(if DirectiveBlock(src[i + 2..j]) then Literal else BlockComment, i, end);
    }
    return Token(CodeChar, i, i + 1);
  }

  /** The tokens are those the Go scanner reads. */
  ghost predicate GoTokens(src: string, tokens: seq<Token>) {
    forall k :: 0 <= k < |tokens| ==> tokens[k].start < |src| && tokens[k] == GoToken(src, tokens[k].start)
  }

  lemma GoTokensMore(src: string, tokens: seq<Token>, t: Token)
    requires GoTokens(src, tokens) && t.start < |src| && t == GoToken(src, t.start)
    ensures GoTokens(src, tokens + [t])
  {}

  /** The tokens are all of the source, the text is what they leave, and protected the lines their literals span. */
  ghost predicate GoStrips(src: string, alnum: CharClass, tokens: seq<Token>, text: string,
                           protected: set<nat>) {
    && Tiles(src, tokens, |src|) && GoTokens(src, tokens)
    && var pieces := Play(src, alnum, tokens);
       text == TextOf(src, pieces) && protected == Guarded(src, pieces)
  }

  ghost predicate IsGoStripped(src: string, alnum: CharClass, text: string, protected: set<nat>) {
    exists tokens :: GoStrips(src, alnum, tokens, text, protected)
  }

  lemma GoStripsIs(src: string, alnum: CharClass, tokens: seq<Token>, text: string, protected: set<nat>)
    requires GoStrips(src, alnum, tokens, text, protected)
    ensures IsGoStripped(src, alnum, text, protected)
  {}

  method StripGo(src: string, alnum: CharClass)
    returns (text: string, protected: set<nat>, ghost tokens: seq<Token>)
    ensures GoStrips(src, alnum, tokens, text, protected)
    ensures IsGoStripped(src, alnum, text, protected)
  {
    var em := new Emitter(src);
    tokens := [];
    var i := 0;
    while i < |src|
      invariant i <= |src| && em.Valid(src) && fresh(em)
      invariant Stripped(src, alnum, tokens, i, em.pieces) && GoTokens(src, tokens)
    {
      var t := NextGoToken(src, i);
      EmitToken(em, src, alnum, t, tokens);
      GoTokensMore(src, tokens, t);
      tokens := tokens + [t];
      i := t.end;
    }
    text := em.JoinOut(src);
    protected := em.protected;
    GoStripsIs(src, alnum, tokens, text, protected);
  }
}
