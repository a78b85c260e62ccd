/** Text as lines: splitting at line feeds, joining, and stripping blanks at the end of a line. */
module TextLines {
  /** The lines with one more character at the end. */
  function Extend(lines: seq<string>, c: char): (longer: seq<string>)
    requires lines != []
    ensures longer != []
  {
    if c == '\n' then lines + [""] else lines[..|lines| - 1] + [lines[|lines| - 1] + [c]]
  }

  /** The text split at its line feeds; there is always at least one line. */
  function Lines(s: string): (lines: seq<string>)
    ensures lines != []
  {
    if s == [] then [""] else Extend(Lines(s[..|s| - 1]), s[|s| - 1])
  }

  function Breaks(s: string): nat { |Lines(s)| - 1 }

  function Join(lines: seq<string>): string {
    if lines == [] then ""
    else if |lines| == 1 then lines[0]
    else Join(lines[..|lines| - 1]) + "\n" + lines[|lines| - 1]
  }

  predicate At(s: string, part: string, k: int) {
    0 <= k <= |s| - |part| && s[k..k + |part|] == part
  }

  lemma AtWithin(s: string, part: string, inner: string, k: nat, m: nat)
    requires At(s, part, k) && At(part, inner, m)
    ensures At(s, inner, k + m)
  {
    var found := s[k + m..k + m + |inner|];
    forall i | 0 <= i < |inner|
      ensures found[i] == inner[i]
    {
      assert s[k..k + |part|][m + i] == part[m + i] && part[m..m + |inner|][i] == inner[i];
    }
  }

  /** Two texts one after the other: the last line of the first runs on into the first line of the second. */
  function RunOn(a: seq<string>, b: seq<string>): seq<string>
    requires a != [] && b != []
  {
    a[..|a| - 1] + [a[|a| - 1] + b[0]] + b[1..]
  }

  lemma RunOnExtends(a: seq<string>, b: seq<string>, c: char)
    requires a != [] && b != []
    ensures Extend(RunOn(a, b), c) == RunOn(a, Extend(b, c))
  {
    if c != '\n' && |b| == 1 {
      assert a[|a| - 1] + b[0] + [c] == a[|a| - 1] + (b[0] + [c]);
    }
  }

  lemma {:induction false} LinesConcat(a: string, b: string)
    ensures Lines(a + b) == RunOn(Lines(a), Lines(b))
  {
    if b == [] {
      var la := Lines(a);
      assert a + b == a && la[|la| - 1] + "" == la[|la| - 1];
    } else {
      var b', c := b[..|b| - 1], b[|b| - 1];
      LinesConcat(a, b');
      assert (a + b)[..|a + b| - 1] == a + b';
      RunOnExtends(Lines(a), Lines(b'), c);
    }
  }

  lemma {:induction false} JoinLines(s: string)
    ensures Join(Lines(s)) == s
  {
    if s != [] {
      var before, c := Lines(s[..|s| - 1]), s[|s| - 1];
      JoinLines(s[..|s| - 1]);
      assert s == s[..|s| - 1] + [c];
      if c == '\n' {
        assert (before + [""])[..|before|] == before;
        assert Join(before + [""]) == Join(before) + "\n" + "";
      } else {
        var longer := before[..|before| - 1] + [before[|before| - 1] + [c]];
        assert longer[..|longer| - 1] == before[..|before| - 1];
        assert Join(longer) == Join(before) + [c];
      }
    }
  }

  /** The lines, joined, with the line feed that sets off what comes after them. */
  function Lead(before: seq<string>): string {
    if before == [] then "" else Join(before) + "\n"
  }

  /** Among other lines a run, joined, stands right after those before it. */
  lemma JoinHolds(before: seq<string>, run: seq<string>, after: seq<string>)
    requires run != []
    ensures At(Join(before + run + after), Join(run), |Lead(before)|)
  {
    hide Join, Lead;
    JoinTail(before, run + after);
    var tail := JoinHead(run, after);
    assert before + run + after == before + (run + after);
    assert Lead(before) + (Join(run) + tail) == Lead(before) + Join(run) + tail;
  }

  lemma {:induction false} JoinHead(run: seq<string>, after: seq<string>) returns (tail: string)
    requires run != []
    ensures Join(run + after) == Join(run) + tail
    decreases |after|
  {
    var all, n := run + after, |after| - 1;
    if after == [] {
      assert all == run;
      tail := "";
    } else {
      tail := JoinHead(run, after[..n]);
      assert all[..|all| - 1] == run + after[..n] && all[|all| - 1] == after[n];
      assert Join(run) + tail + "\n" + after[n] == Join(run) + (tail + "\n" + after[n]);
      tail := tail + "\n" + after[n];
    }
  }

  lemma {:induction false} JoinTail(before: seq<string>, run: seq<string>)
    requires run != []
    ensures Join(before + run) == Lead(before) + Join(run)
    decreases |run|
  {
    var all, n := before + run, |run| - 1;
    assert all[|all| - 1] == run[n];
    if n == 0 {
      assert all[..|all| - 1] == before;
    } else {
      JoinTail(before, run[..n]);
      assert all[..|all| - 1] == before + run[..n];
      assert Lead(before) + Join(run[..n]) + "\n" + run[n] == Lead(before) + (Join(run[..n]) + "\n" + run[n]);
    }
  }

  /** The line the text ends in. */
  function LastLine(s: string): string {
    Lines(s)[Breaks(s)]
  }

  lemma LastLineConcat(a: string, b: string)
    ensures Breaks(a + b) == Breaks(a) + Breaks(b)
    ensures LastLine(a + b) == if Breaks(b) == 0 then LastLine(a) + b else LastLine(b)
  {
    LinesConcat(a, b);
    JoinLines(b);
    assert Breaks(b) == 0 ==> Lines(b) == [Lines(b)[0]];
  }

  // ---------- white space ----------

  /** The characters Python's rstrip removes. */
  predicate Blank(c: char) {
    var u := c as int;
    0x09 <= u <= 0x0D || 0x1C <= u <= 0x20 || u == 0x85 || u == 0xA0 || u == 0x1680 || 0x2000 <= u <= 0x200A ||
    u == 0x2028 || u == 0x2029 || u == 0x202F || u == 0x205F || u == 0x3000
  }

  /** The text without the blanks at its end. */
  function RStrip(s: string): (r: string)
    ensures r <= s && (r == [] || !Blank(r[|r| - 1])) && forall i :: |r| <= i < |s| ==> Blank(s[i])
  {
    if s != [] && Blank(s[|s| - 1]) then RStrip(s[..|s| - 1]) else s
  }
}
