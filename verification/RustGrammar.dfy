/** A grammar of Rust sources, and that the scanner reads them by it. */
module RustGrammar {
  import opened TextLines
  import opened CommentEmitter
  import opened SourceScan
  import opened RustScanner
  import opened Lexemes

  // ---------- nested comments ----------

  /** A comment holds characters and whole comments. */
  datatype Comment = Comment(parts: seq<Part>)
  datatype Part = Char(c: char) | Inner(comment: Comment)

  function SpellComment(c: Comment): string {
    "/*" + SpellParts(c.parts) + "*/"
  }

  function SpellParts(parts: seq<Part>): string {
    if parts == [] then "" else SpellPart(parts[0]) + SpellParts(parts[1..])
  }

  function SpellPart(p: Part): (s: string)
    ensures s != []
  {
    match p
    case Char(c) => [c]
    case Inner(comment) => SpellComment(comment)
  }

  predicate StartsPair(s: string) {
    Pair(s, 0, '/', '*') || Pair(s, 0, '*', '/')
  }

  /** None of the characters begins an opener or a closer, read with what follows it. */
  predicate PartsOk(parts: seq<Part>, rest: string) {
    parts == [] || (PartOk(parts[0], SpellParts(parts[1..]) + rest) && PartsOk(parts[1..], rest))
  }

  predicate PartOk(p: Part, next: string) {
    match p
    case Char(c) => !StartsPair([c] + next)
    case Inner(comment) => IsComment(comment)
  }

  predicate IsComment(c: Comment) {
    PartsOk(c.parts, "*/")
  }

  lemma ReadsTwo(src: string, i: nat, s: string)
    requires Reads(src, i, s)
    ensures forall a, b :: Pair(src, i, a, b) <==> Pair(s, 0, a, b)
  {
    assert forall k :: 0 <= k < |s| ==> src[i + k] == s[k];
  }

  lemma NestSteps(src: string, i: nat, depth: nat)
    requires i < |src| && depth > 0
    ensures Pair(src, i, '/', '*') ==> NestEnd(src, i, depth) == NestEnd(src, i + 2, depth + 1)
    ensures Pair(src, i, '*', '/') ==> NestEnd(src, i, depth) == NestEnd(src, i + 2, depth - 1)
    ensures !Pair(src, i, '/', '*') && !Pair(src, i, '*', '/') ==> NestEnd(src, i, depth) == NestEnd(src, i + 1, depth)
  {}

  lemma JoinedThree(a: string, b: string, c: string)
    ensures a + b + c == a + (b + c)
  {}

  /** At any depth the scan passes over the parts of a comment, whatever comes behind its closer. */
  lemma {:induction false} PartsAreRead(src: string, i: nat, parts: seq<Part>, rest: string, depth: nat)
    requires Reads(src, i, SpellParts(parts) + rest) && PartsOk(parts, "*/") && "*/" <= rest && depth > 0
    ensures i + |SpellParts(parts)| <= |src|
    ensures NestEnd(src, i, depth) == NestEnd(src, i + |SpellParts(parts)|, depth)
    decreases parts
  {
    hide *;
    if parts == [] {
      NoParts();
      ReadsParts(src, i, SpellParts(parts), rest);
    } else {
      var head, others := SpellPart(parts[0]), SpellParts(parts[1..]);
      FirstPart(parts, rest);
      assert PartsOk(parts[1..], "*/") && PartOk(parts[0], others + "*/");
      SameFirst(others, "*/", rest);
      ReadsParts(src, i, head, others + rest);
      PartIsRead(src, i, parts[0], others + "*/", others + rest, depth);
      PartsAreRead(src, i + |head|, parts[1..], rest, depth);
      assert i + |SpellParts(parts)| == i + |head| + |others|;
    }
  }

  lemma FirstPart(parts: seq<Part>, rest: string)
    requires parts != []
    ensures |SpellParts(parts)| == |SpellPart(parts[0])| + |SpellParts(parts[1..])|
    ensures SpellParts(parts) + rest == SpellPart(parts[0]) + (SpellParts(parts[1..]) + rest)
    ensures PartsOk(parts, "*/") <==> PartOk(parts[0], SpellParts(parts[1..]) + "*/") && PartsOk(parts[1..], "*/")
  {
    hide PartOk, SpellPart;
    var head, others := SpellPart(parts[0]), SpellParts(parts[1..]);
    assert SpellParts(parts) == head + others;
    JoinedThree(head, others, rest);
  }

  lemma SameFirst(s: string, a: string, b: string)
    requires a != [] && a <= b
    ensures s + a != [] && s + b != [] && (s + a)[0] == (s + b)[0]
  {}

  lemma {:induction false} PartIsRead(src: string, i: nat, p: Part, next: string, rest: string, depth: nat)
    requires Reads(src, i, SpellPart(p) + rest) && PartOk(p, next) && depth > 0
    requires next != [] && rest != [] && next[0] == rest[0]
    ensures i + |SpellPart(p)| <= |src|
    ensures NestEnd(src, i, depth) == NestEnd(src, i + |SpellPart(p)|, depth)
    decreases p
  {
    hide NestEnd;
    ReadsParts(src, i, SpellPart(p), rest);
    match p
    case Char(c) =>
      ReadsTwo(src, i, [c] + rest);
      assert ([c] + rest)[1] == ([c] + next)[1];
      NestSteps(src, i, depth);
    case Inner(comment) =>
      CommentIsRead(src, i, comment, rest, depth);
  }

  /** A comment takes the scan past itself, one level up. */
  lemma {:induction false} CommentIsRead(src: string, i: nat, c: Comment, rest: string, depth: nat)
    requires Reads(src, i, SpellComment(c) + rest) && IsComment(c)
    ensures i + 2 <= i + |SpellComment(c)| <= |src|
    ensures depth > 0 ==> NestEnd(src, i, depth) == NestEnd(src, i + 2, depth + 1)
    ensures NestEnd(src, i + 2, depth + 1) == NestEnd(src, i + |SpellComment(c)|, depth)
    decreases c
  {
    var body, tail := SpellParts(c.parts), "*/" + rest;
    CommentParts(c, rest);
    hide *;
    ReadsParts(src, i, "/*", body + tail);
    PartsAreRead(src, i + 2, c.parts, tail, depth + 1);
    ReadsParts(src, i + 2, body, tail);
    ReadsParts(src, i + 2 + |body|, "*/", rest);
    PairsRead(src, i, "/*");
    PairsRead(src, i + 2 + |body|, "*/");
    if depth > 0 { NestSteps(src, i, depth); }
    NestSteps(src, i + 2 + |body|, depth + 1);
  }

  lemma CommentParts(c: Comment, rest: string)
    ensures SpellComment(c) + rest == "/*" + (SpellParts(c.parts) + ("*/" + rest))
    ensures |SpellComment(c)| == |SpellParts(c.parts)| + 4 && (IsComment(c) <==> PartsOk(c.parts, "*/"))
  {
    hide SpellParts, PartsOk;
  }

  lemma PairsRead(src: string, i: nat, part: string)
    requires |part| == 2 && At(src, part, i)
    ensures Pair(src, i, part[0], part[1])
    ensures part[0] != part[1] ==> !Pair(src, i, part[1], part[0])
  {
    assert src[i..i + 2][0] == src[i] && src[i..i + 2][1] == src[i + 1];
  }

  /** Reading on from i one gets either parts up to the closer, or the end of the source at every depth. */
  lemma {:induction false} ReadOn(src: string, i: nat) returns (closed: bool, parts: seq<Part>, end: nat)
    requires i <= |src|
    ensures closed ==> i <= end <= |src| && PartsOk(parts, "*/") && src[i..end] == SpellParts(parts) + "*/"
    ensures !closed ==> forall depth: nat :: depth > 0 ==> NestEnd(src, i, depth) == |src|
    decreases |src| - i
  {
    hide NestEnd, SpellParts, PartsOk, SpellComment;
    closed, parts, end := false, [], i;
    if i == |src| {
      AtSourceEnd(src);
    } else if Pair(src, i, '/', '*') {
      forall depth: nat | depth > 0
        ensures NestEnd(src, i, depth) == NestEnd(src, i + 2, depth + 1)
      {
        NestSteps(src, i, depth);
      }
      var inner, innerEnd;
      closed, inner, innerEnd := ReadOn(src, i + 2);
      assert !closed ==> forall depth: nat :: depth > 0 ==> NestEnd(src, i, depth) == NestEnd(src, i + 2, depth + 1) == |src|;
      if closed {
        var c := Comment(inner);
        ReadInner(src, i, c, innerEnd);
        var others;
        closed, others, end := ReadOn(src, innerEnd);
        assert !closed ==> forall depth: nat :: depth > 0 ==> NestEnd(src, i, depth) == NestEnd(src, innerEnd, depth) == |src|;
        if closed {
          parts := [Inner(c)] + others;
          PartAdded(src, i, Inner(c), innerEnd, others, end);
        }
      }
    } else if Pair(src, i, '*', '/') {
      closed, end := true, i + 2;
      NoParts();
    } else {
      forall depth: nat | depth > 0
        ensures NestEnd(src, i, depth) == NestEnd(src, i + 1, depth)
      {
        NestSteps(src, i, depth);
      }
      var others;
      closed, others, end := ReadOn(src, i + 1);
      if closed {
        parts := [Char(src[i])] + others;
        var rest := SpellParts(others) + "*/";
        assert src[i + 1] == src[i + 1..end][0] == rest[0];
        assert !StartsPair([src[i]] + rest);
        PartAdded(src, i, Char(src[i]), i + 1, others, end);
      }
    }
  }

  lemma AtSourceEnd(src: string)
    ensures forall depth: nat :: NestEnd(src, |src|, depth) == |src|
  {}

  lemma NoParts()
    ensures SpellParts([]) == "" && PartsOk([], "*/")
  {}

  lemma PartAdded(src: string, i: nat, p: Part, mid: nat, others: seq<Part>, end: nat)
    requires i <= mid <= end <= |src| && src[i..mid] == SpellPart(p) && src[mid..end] == SpellParts(others) + "*/"
    requires PartOk(p, SpellParts(others) + "*/") && PartsOk(others, "*/")
    ensures PartsOk([p] + others, "*/") && src[i..end] == SpellParts([p] + others) + "*/"
  {
    assert ([p] + others)[1..] == others;
    assert src[i..end] == src[i..mid] + src[mid..end];
    JoinedThree(SpellPart(p), SpellParts(others), "*/");
  }

  lemma InnerIsSpelled(src: string, i: nat, c: Comment, end: nat)
    requires Pair(src, i, '/', '*') && i + 2 <= end <= |src|
    requires PartsOk(c.parts, "*/") && src[i + 2..end] == SpellParts(c.parts) + "*/"
    ensures src[i..end] == SpellComment(c) && IsComment(c) && Reads(src, i, SpellComment(c) + src[end..])
  {
    hide SpellParts, PartsOk;
    assert src[i..end] == "/*" + src[i + 2..end];
    JoinedThree("/*", SpellParts(c.parts), "*/");
    assert src[i..] == src[i..end] + src[end..];
  }

  lemma ReadInner(src: string, i: nat, c: Comment, end: nat)
    requires Pair(src, i, '/', '*') && i + 2 <= end <= |src|
    requires PartsOk(c.parts, "*/") && src[i + 2..end] == SpellParts(c.parts) + "*/"
    ensures src[i..end] == SpellComment(c) && IsComment(c)
    ensures forall depth: nat :: depth > 0 ==> NestEnd(src, i + 2, depth + 1) == NestEnd(src, end, depth)
  {
    InnerIsSpelled(src, i, c, end);
    hide *;
    forall depth: nat | depth > 0
      ensures NestEnd(src, i + 2, depth + 1) == NestEnd(src, end, depth)
    {
      CommentIsRead(src, i, c, src[end..], depth);
    }
  }

  /** The comment that begins at i ends at end. */
  ghost predicate CommentAt(src: string, i: nat, end: nat) {
    i <= end <= |src| && exists c :: IsComment(c) && src[i..end] == SpellComment(c)
  }

  /** A nested comment ends exactly where the grammar has it end, and with the source if the grammar has no comment
      there. */
  lemma NestEndIsGrammar(src: string, i: nat)
    requires At(src, "/*", i)
    ensures var end := NestEnd(src, i + 2, 1);
            (forall e: nat :: CommentAt(src, i, e) ==> e == end) && (CommentAt(src, i, end) || end == |src|)
  {
    forall e: nat | CommentAt(src, i, e)
      ensures e == NestEnd(src, i + 2, 1)
    {
      var c :| IsComment(c) && src[i..e] == SpellComment(c);
      assert src[i..] == SpellComment(c) + src[e..];
      CommentIsRead(src, i, c, src[e..], 0);
    }
    var closed, parts, end := ReadOn(src, i + 2);
    if closed {
      var c := Comment(parts);
      assert src[i..end] == src[i..i + 2] + src[i + 2..end] == SpellComment(c);
      assert CommentAt(src, i, end);
    }
  }

  // ---------- lexemes ----------

  /** What stands between the quotes of a character literal. */
  datatype CharBody = One(c: char) | Escaped(c: char) | Unicode(digits: string)

  function SpellChar(b: CharBody): string {
    match b
    case One(c) => [c]
    case Escaped(c) => ['\\', c]
    case Unicode(digits) => "\\u{" + digits + "}"
  }

  predicate IsChar(b: CharBody) {
    match b
    case One(c) => c != '\\'
    case Escaped(_) => true
    case Unicode(digits) => '}' !in digits
  }

  datatype RustLexeme =
    | RustString(byte: bool, units: seq<Unit>)
    | RustByteChar(units: seq<Unit>)
    | RustRaw(byte: bool, hashes: nat, body: string)
    | RustChar(held: CharBody)
    | RustLine(body: string)
    | RustBlock(comment: Comment)
    | RustCode(c: char)

  function Hashes(n: nat): string {
    seq(n, _ => '#')
  }

  function SpellRust(l: RustLexeme): (s: string)
    ensures s != []
  {
    match l
    case RustString(byte, units) => (if byte then "b" else "") + SpellQuoted('"', units)
    case RustByteChar(units) => "b" + SpellQuoted('\'', units)
    case RustRaw(byte, hashes, body) => (if byte then "br" else "r") + Hashes(hashes) + "\"" + body + "\"" + Hashes(hashes)
    case RustChar(b) => "'" + SpellChar(b) + "'"
    case RustLine(body) => "//" + body
    case RustBlock(comment) => SpellComment(comment)
    case RustCode(c) => [c]
  }

  /** The text goes on as a raw string does behind its r. */
  predicate OpensRawText(next: string) {
    exists h: nat :: h < |next| && next[h] == '"' && forall k :: 0 <= k < h ==> next[k] == '#'
  }

  /** The text goes on as a character literal does behind its quote, or as a long escape that nothing closes. */
  ghost predicate GoesOnAsChar(next: string) {
    || (exists b :: IsChar(b) && SpellChar(b) + "'" <= next)
    || ("\\u{" <= next && '}' !in next)
  }

  /** A character of code begins no literal and no comment. */
  ghost predicate IsCode(c: char, next: string) {
    match c
    case '"' => false
    case '\'' => !GoesOnAsChar(next)
    case 'r' => !OpensRawText(next)
    case 'b' => next == [] || (!IsQuote(next[0]) && !(next[0] == 'r' && OpensRawText(next[1..])))
    case '/' => next == [] || (next[0] != '/' && next[0] != '*')
    case _ => true
  }

  /** The lexeme is one, before the text next. */
  ghost predicate IsRust(l: RustLexeme, next: string) {
    match l
    case RustString(_, units) => IsQuoted('"', units)
    case RustByteChar(units) => IsQuoted('\'', units)
    case RustRaw(_, hashes, body) => FirstBehind(body, "\"" + Hashes(hashes))
    case RustChar(b) => IsChar(b)
    case RustLine(body) => IsLine(body, next)
    case RustBlock(comment) => IsComment(comment)
    case RustCode(c) => IsCode(c, next)
  }

  /** Strings are literals; comments go, but for those on lines that are kept. */
  function RustLex(l: RustLexeme, kept: bool): (lex: Lex)
    ensures lex.text == SpellRust(l)
  {
    var text := SpellRust(l);
    match l
    case RustLine(_) => Lex(if kept then KeptLine else LineComment, text)
    case RustBlock(_) => Lex(BlockComment, text)
    case RustCode(_) => Lex(CodeChar, text)
    case _ => Lex(Literal, text)
  }

  // ---------- no raw string here ----------

  lemma NotRaw(src: string, i: nat, rest: string)
    requires i < |src| && Reads(src, i + 1, rest)
    requires src[i] == 'r' ==> !OpensRawText(rest)
    requires src[i] == 'b' && rest != [] && rest[0] == 'r' ==> !OpensRawText(rest[1..])
    ensures RawEnd(src, i) == -1
  {
    assert forall k :: 0 <= k < |rest| ==> rest[k] == src[i + 1 + k];
    var raw := RawAt(src, i);
    if raw >= 0 {
      OpensText(src, raw);
      assert src[raw + 1..] == if raw == i then rest else rest[1..];
    }
  }

  lemma OpensText(src: string, raw: nat)
    requires raw < |src|
    ensures OpensRawText(src[raw + 1..]) <==> exists q :: OpensAt(src, raw, q)
  {
    var text := src[raw + 1..];
    assert forall k :: 0 <= k < |text| ==> text[k] == src[raw + 1 + k];
    if q :| OpensAt(src, raw, q) {
      var h: nat := q - raw - 1;
      assert text[h] == '"' && forall k :: 0 <= k < h ==> text[k] == '#';
    }
    if h: nat :| h < |text| && text[h] == '"' && forall k :: 0 <= k < h ==> text[k] == '#' {
      forall m | raw < m < raw + 1 + h ensures src[m] == '#' { assert src[m] == text[m - raw - 1]; }
      assert OpensAt(src, raw, raw + 1 + h);
    }
  }

  // ---------- each lexeme is read ----------

  lemma RustStringIsRead(src: string, doctest: set<nat>, i: nat, byte: bool, quote: char, units: seq<Unit>, rest: string)
    requires Reads(src, i, (if byte then "b" else "") + SpellQuoted(quote, units) + rest)
    requires IsQuote(quote) && IsQuoted(quote, units) && (quote == '\'' ==> byte)
    ensures i < |src|
    ensures RustToken(src, doctest, i) == Token(Literal, i, i + |(if byte then "b" else "") + SpellQuoted(quote, units)|)
  {
    var text := SpellQuoted(quote, units);
    if byte {
      assert "b" + text + rest == "b" + (text + rest);
      ReadsParts(src, i, "b", text + rest);
      assert src[i + 0] == 'b';
      QuotedIsRead(src, i + 1, quote, units, rest);
      ReadsParts(src, i + 1, text, rest);
      assert src[i + 1 + 0] == quote;
      NotRaw(src, i, text + rest);
    } else {
      assert "" + text + rest == text + rest;
      QuotedIsRead(src, i, quote, units, rest);
      ReadsParts(src, i, text, rest);
      assert src[i + 0] == quote;
      NotRaw(src, i, src[i + 1..]);
    }
  }

  lemma RustLineIsRead(src: string, doctest: set<nat>, i: nat, body: string, rest: string)
    requires Reads(src, i, "//" + body + rest) && IsLine(body, rest)
    ensures i < |src|
    ensures RustToken(src, doctest, i) ==
            Token(if LineOf(src, i) in doctest then KeptLine else LineComment, i, i + 2 + |body|)
  {
    LineEndIsRead(src, i, body, rest);
    assert src[i..i + 2][0] == '/';
    NotRaw(src, i, src[i + 1..]);
  }

  lemma RustBlockIsRead(src: string, doctest: set<nat>, i: nat, c: Comment, rest: string)
    requires Reads(src, i, SpellComment(c) + rest) && IsComment(c)
    ensures i < |src| && RustToken(src, doctest, i) == Token(BlockComment, i, i + |SpellComment(c)|)
  {
    CommentIsRead(src, i, c, rest, 0);
    CommentParts(c, rest);
    ReadsParts(src, i, "/*", SpellParts(c.parts) + ("*/" + rest));
    assert src[i + 0] == '/' && src[i + 1] == '*';
    PairAt(src, i, "//");
    NotRaw(src, i, src[i + 1..]);
  }

  lemma RawTail(src: string, raw: nat, hashes: nat, body: string, rest: string)
    requires raw < |src| && FirstBehind(body, "\"" + Hashes(hashes))
    requires Reads(src, raw + 1, Hashes(hashes) + ("\"" + (body + ("\"" + Hashes(hashes) + rest))))
    ensures OpensRaw(src, raw + 1) && OpensAt(src, raw, raw + 1 + hashes)
    ensures Find(src, Terminator(hashes), raw + hashes + 2) == raw + hashes + 2 + |body|
  {
    var fence := "\"" + Hashes(hashes);
    var tail := body + (fence + rest);
    ReadsParts(src, raw + 1, Hashes(hashes), "\"" + tail);
    ReadsParts(src, raw + 1 + hashes, "\"", tail);
    assert src[raw + 1 + hashes + 0] == '"';
    forall m | raw < m < raw + 1 + hashes ensures src[m] == '#' { assert src[raw + 1 + (m - raw - 1)] == '#'; }
    FoundBehind(src, raw + hashes + 2, body, fence, rest);
    assert fence == Terminator(hashes);
  }

  lemma RustRawIsRead(src: string, doctest: set<nat>, i: nat, byte: bool, hashes: nat, body: string, rest: string)
    requires Reads(src, i, SpellRust(RustRaw(byte, hashes, body)) + rest) && FirstBehind(body, "\"" + Hashes(hashes))
    ensures i < |src|
    ensures RustToken(src, doctest, i) == Token(Literal, i, i + |SpellRust(RustRaw(byte, hashes, body))|)
  {
    var fence := "\"" + Hashes(hashes);
    var start, tail := if byte then "br" else "r", Hashes(hashes) + ("\"" + (body + (fence + rest)));
    RawSpelled(byte, hashes, body, rest);
    ReadsParts(src, i, start, tail);
    var raw := i + |start| - 1;
    assert src[i + 0] == start[0] && src[raw] == 'r';
    RawTail(src, raw, hashes, body, rest);
    hide Find, At, Reads, SpellRust, HashEnd, Hashes, OpensAt, FirstBehind, Terminator;
    assert RawAt(src, i) == raw;
    RawEndsAt(src, i, hashes, body);
  }

  lemma RawEndsAt(src: string, i: nat, hashes: nat, body: string)
    requires i < |src| && RawAt(src, i) >= 0
    requires var raw := RawAt(src, i);
             OpensAt(src, raw, raw + 1 + hashes) && Find(src, Terminator(hashes), raw + hashes + 2) == raw + hashes + 2 + |body|
    ensures RawEnd(src, i) == RawAt(src, i) + 2 * hashes + |body| + 3
  {
    OpensAfterHashes(src, RawAt(src, i));
  }

  lemma RawSpelled(byte: bool, hashes: nat, body: string, rest: string)
    ensures SpellRust(RustRaw(byte, hashes, body)) + rest ==
            (if byte then "br" else "r") + (Hashes(hashes) + ("\"" + (body + ("\"" + Hashes(hashes) + rest))))
    ensures |SpellRust(RustRaw(byte, hashes, body))| == (if byte then 2 else 1) + 2 * hashes + |body| + 2
  {}

  lemma RustCharIsRead(src: string, doctest: set<nat>, i: nat, b: CharBody, rest: string)
    requires Reads(src, i, SpellRust(RustChar(b)) + rest) && IsChar(b)
    ensures i < |src| && RustToken(src, doctest, i) == Token(Literal, i, i + |SpellChar(b)| + 2)
  {
    assert SpellRust(RustChar(b)) + rest == "'" + (SpellChar(b) + ("'" + rest));
    ReadsParts(src, i, "'", SpellChar(b) + ("'" + rest));
    ReadsParts(src, i + 1, SpellChar(b), "'" + rest);
    ReadsParts(src, i + 1 + |SpellChar(b)|, "'", rest);
    assert src[i + 0] == '\'' && src[i + 1 + |SpellChar(b)| + 0] == '\'';
    assert src[i + 1 + 0] == SpellChar(b)[0];
    NotRaw(src, i, src[i + 1..]);
    CharIsRead(src, i, b, rest);
  }

  lemma CharIsRead(src: string, i: nat, b: CharBody, rest: string)
    requires i < |src| && Reads(src, i + 1, SpellChar(b) + ("'" + rest)) && IsChar(b)
    ensures CharEnd(src, i) == i + |SpellChar(b)| + 2
  {
    ReadsParts(src, i + 1, SpellChar(b), "'" + rest);
    ReadsParts(src, i + 1 + |SpellChar(b)|, "'", rest);
    assert src[i + 1 + |SpellChar(b)| + 0] == '\'';
    assert src[i + 1 + 0] == SpellChar(b)[0];
    hide Reads, Find, At;
    match b
    case One(_) => CharEndsAt(src, i, 0);
    case Escaped(c) =>
      assert src[i + 1 + 1] == c;
      CharEndsAt(src, i, 0);
    case Unicode(digits) =>
      UnicodeIsRead(src, i, digits, rest);
      CharEndsAt(src, i, |digits|);
  }

  lemma CharEndsAt(src: string, i: nat, n: nat)
    requires i + 2 < |src|
    ensures src[i + 1] != '\\' && src[i + 2] == '\'' ==> CharEnd(src, i) == i + 3
    ensures src[i + 1] == '\\' && i + 3 < |src| && src[i + 3] == '\'' ==> CharEnd(src, i) == i + 4
    ensures src[i + 1] == '\\' && At(src, "u{", i + 2) && Find(src, "}", i + 4) == i + 4 + n ==>
              (i + 5 + n < |src| && src[i + 5 + n] == '\'' ==> CharEnd(src, i) == i + 6 + n)
  {
    hide Find;
    PairAt(src, i + 2, "u{");
  }

  lemma UnicodeIsRead(src: string, i: nat, digits: string, rest: string)
    requires i < |src| && Reads(src, i + 1, "\\u{" + digits + "}" + ("'" + rest)) && '}' !in digits
    ensures i + 1 < |src| && src[i + 1] == '\\' && At(src, "u{", i + 2) && Find(src, "}", i + 4) == i + 4 + |digits|
  {
    var tail := digits + ("}" + ("'" + rest));
    assert "\\u{" + digits + "}" + ("'" + rest) == "\\" + ("u{" + tail);
    ReadsParts(src, i + 1, "\\", "u{" + tail);
    assert src[i + 1 + 0] == '\\';
    ReadsParts(src, i + 2, "u{", tail);
    forall k | 0 <= k < |digits|
      ensures !At(digits + "}", "}", k)
    {
      assert (digits + "}")[k..k + 1][0] == digits[k];
    }
    FoundBehind(src, i + 4, digits, "}", "'" + rest);
  }

  /** Where the scanner finds a character literal, the text goes on as one. */
  lemma CharGoesOn(src: string, i: nat, rest: string)
    requires i < |src| && Reads(src, i + 1, rest) && CharEnd(src, i) != -1
    ensures GoesOnAsChar(rest)
  {
    assert forall k :: 0 <= k < |rest| ==> rest[k] == src[i + 1 + k];
    if src[i + 1] == '\\' && At(src, "u{", i + 2) {
      UnicodeGoesOn(src, i, rest);
    } else if src[i + 1] == '\\' {
      var b := Escaped(rest[1]);
      assert SpellChar(b) + "'" == [rest[0], rest[1], rest[2]] <= rest;
    } else {
      var b := One(rest[0]);
      assert SpellChar(b) + "'" == [rest[0], rest[1]] <= rest;
    }
  }

  lemma UnicodeGoesOn(src: string, i: nat, rest: string)
    requires i < |src| && Reads(src, i + 1, rest) && rest != [] && rest[0] == '\\' && At(src, "u{", i + 2) && CharEnd(src, i) != -1
    ensures GoesOnAsChar(rest)
  {
    assert forall k :: 0 <= k < |rest| ==> rest[k] == src[i + 1 + k];
    PairAt(src, i + 2, "u{");
    assert rest[1] == 'u' && rest[2] == '{';
    assert "\\u{" == [rest[0], rest[1], rest[2]] <= rest;
    var close := Find(src, "}", i + 4);
    NoneBefore(src, '}', i + 4, close);
    hide Find;
    if close != -1 {
      ClosedGoesOn(rest, close - i - 1);
    } else {
      assert '}' !in rest;
    }
  }

  lemma NoneBefore(src: string, c: char, from: nat, at: int)
    requires from <= |src| && at == Find(src, [c], from)
    ensures forall k :: from <= k < |src| && (at == -1 || k < at) ==> src[k] != c
    ensures at != -1 ==> from <= at < |src| && src[at] == c
  {
    forall k | from <= k < |src| && (at == -1 || k < at)
      ensures src[k] != c
    {
      assert !At(src, [c], k);
      assert src[k..k + 1] == [src[k]];
    }
    if at != -1 { assert src[at..at + 1] == [src[at]]; }
  }

  lemma ClosedGoesOn(rest: string, n: nat)
    requires 3 <= n && n + 1 < |rest| && rest[0] == '\\' && rest[1] == 'u' && rest[2] == '{'
    requires rest[n] == '}' && rest[n + 1] == '\'' && forall k :: 3 <= k < n ==> rest[k] != '}'
    ensures GoesOnAsChar(rest)
  {
    var b := Unicode(rest[3..n]);
    assert rest[..3] == "\\u{" && rest[n..n + 2] == "}'";
    assert rest[..n + 2] == rest[..3] + rest[3..n] + rest[n..n + 2];
    assert SpellChar(b) + "'" == rest[..n + 2];
    assert IsChar(b) && SpellChar(b) + "'" <= rest;
  }

  lemma RustCodeIsRead(src: string, doctest: set<nat>, i: nat, c: char, rest: string)
    requires Reads(src, i, [c] + rest) && IsCode(c, rest)
    ensures i < |src| && RustToken(src, doctest, i) == Token(CodeChar, i, i + 1)
  {
    ReadsParts(src, i, [c], rest);
    assert src[i + 0] == c;
    assert forall k :: 0 <= k < |rest| ==> src[i + 1..][k] == rest[k];
    PairAt(src, i, "//");
    PairAt(src, i, "/*");
    NotRaw(src, i, rest);
    if c == '\'' && CharEnd(src, i) != -1 { CharGoesOn(src, i, rest); }
  }

  // ---------- whole sources ----------

  lemma RustLexIsRead(src: string, doctest: set<nat>, i: nat, l: RustLexeme, rest: string)
    requires Reads(src, i, SpellRust(l) + rest) && IsRust(l, rest)
    ensures i < |src| && IsLex(src, RustToken(src, doctest, i), RustLex(l, LineOf(src, i) in doctest))
  {
    ReadsParts(src, i, SpellRust(l), rest);
    hide RustToken, Reads, LineOf;
    match l
    case RustString(byte, units) => RustStringIsRead(src, doctest, i, byte, '"', units, rest);
    case RustByteChar(units) => RustStringIsRead(src, doctest, i, true, '\'', units, rest);
    case RustRaw(byte, hashes, body) => RustRawIsRead(src, doctest, i, byte, hashes, body, rest);
    case RustChar(b) => RustCharIsRead(src, doctest, i, b, rest);
    case RustLine(body) => RustLineIsRead(src, doctest, i, body, rest);
    case RustBlock(comment) => RustBlockIsRead(src, doctest, i, comment, rest);
    case RustCode(c) => RustCodeIsRead(src, doctest, i, c, rest);
  }

  function RustLexes(program: seq<RustLexeme>, kept: seq<bool>): (lexes: seq<Lex>)
    requires |kept| == |program|
    ensures |lexes| == |program| && forall k :: 0 <= k < |program| ==> lexes[k] == RustLex(program[k], kept[k])
  {
    seq(|program|, k requires 0 <= k < |program| => RustLex(program[k], kept[k]))
  }

  /** Every lexeme is one, before the text of those after it; kept are those that start on a line that is. */
  ghost predicate IsRustProgram(program: seq<RustLexeme>, kept: seq<bool>, doctest: set<nat>) {
    && |kept| == |program|
    && (forall k :: 0 <= k < |program| ==> IsRust(program[k], Printed(RustLexes(program, kept)[k + 1..])))
    && (forall k :: 0 <= k < |program| ==> kept[k] == (Breaks(Printed(RustLexes(program, kept)[..k])) in doctest))
  }

  lemma RustReadsLexes(src: string, doctest: set<nat>, i: nat, program: seq<RustLexeme>, kept: seq<bool>, k: nat)
    requires IsRustProgram(program, kept, doctest) && src == Printed(RustLexes(program, kept)) && k < |program|
    requires Reads(src, i, Printed(RustLexes(program, kept)[k..]))
    ensures i < |src| && IsLex(src, RustToken(src, doctest, i), RustLexes(program, kept)[k])
  {
    var lexes := RustLexes(program, kept);
    PrintedSplits(lexes, k);
    PrintedNext(lexes, k);
    assert src[..i] == Printed(lexes[..k]);
    hide RustToken, SpellRust, IsRust, Printed, Lines;
    RustLexIsRead(src, doctest, i, program[k], Printed(lexes[k + 1..]));
  }

  /** The tokens of a source printed from a program of the grammar are its lexemes. */
  lemma RustIsReadByGrammar(src: string, doctest: set<nat>, tokens: seq<Token>, program: seq<RustLexeme>, kept: seq<bool>)
    requires Tiles(src, tokens, |src|) && RustTokens(src, doctest, tokens)
    requires IsRustProgram(program, kept, doctest) && src == Printed(RustLexes(program, kept))
    ensures AreLexes(src, tokens, RustLexes(program, kept))
  {
    var lexes := RustLexes(program, kept);
    hide RustToken, IsRustProgram, Printed, SpellRust, Reads, RustLex, ReadsAsLexes;
    TokensReadLexes(src, doctest, tokens, program, kept);
    ReadsAll(src, tokens, lexes);
    TokensAreLexes(src, tokens, lexes, 0);
  }

  lemma TokensReadLexes(src: string, doctest: set<nat>, tokens: seq<Token>, program: seq<RustLexeme>, kept: seq<bool>)
    requires RustTokens(src, doctest, tokens)
    requires IsRustProgram(program, kept, doctest) && src == Printed(RustLexes(program, kept))
    ensures ReadsAsLexes(src, tokens, RustLexes(program, kept))
  {
    var lexes := RustLexes(program, kept);
    hide RustToken, IsRustProgram, Printed, SpellRust, Reads, RustLex, IsLex;
    forall j, k | 0 <= j < |tokens| && 0 <= k < |lexes| && Reads(src, tokens[j].start, Printed(lexes[k..]))
      ensures IsLex(src, tokens[j], lexes[k])
    {
      RustReadsLexes(src, doctest, tokens[j].start, program, kept, k);
    }
  }
}
