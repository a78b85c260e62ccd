/** The blank-line collapser: protected lines stay as they are; elsewhere trailing blanks go, and so do blank lines
    after a blank line and at the end. */
module BlankLines {
  import opened TextLines

  predicate Empty(lines: seq<string>, protected: set<nat>, i: nat)
    requires i < |lines|
  {
    i !in protected && RStrip(lines[i]) == ""
  }

  /** What a line that stays looks like. */
  function Shown(lines: seq<string>, protected: set<nat>, i: nat): string
    requires i < |lines|
  {
    if i in protected then lines[i] else RStrip(lines[i])
  }

  /** A line stays unless it is empty and either follows an empty one or has only empty ones after it. */
  predicate Stays(lines: seq<string>, protected: set<nat>, i: nat)
    requires i < |lines|
  {
    Empty(lines, protected, i) ==>
      (i == 0 || !Empty(lines, protected, i - 1)) && exists k :: i < k < |lines| && !Empty(lines, protected, k)
  }

  /** The lines among the first n that stay, in order. */
  function Survivors(lines: seq<string>, protected: set<nat>, n: nat): seq<string>
    requires n <= |lines|
  {
    if n == 0 then []
    else Survivors(lines, protected, n - 1) +
         if Stays(lines, protected, n - 1) then [Shown(lines, protected, n - 1)] else []
  }

  // ---------- the collapser's two passes ----------

  predicate StartsRun(lines: seq<string>, protected: set<nat>, i: nat)
    requires i < |lines|
  {
    Empty(lines, protected, i) ==> i == 0 || !Empty(lines, protected, i - 1)
  }

  function Runs(lines: seq<string>, protected: set<nat>, n: nat): seq<(string, bool)>
    requires n <= |lines|
  {
    if n == 0 then []
    else Runs(lines, protected, n - 1) +
         if StartsRun(lines, protected, n - 1) then [(Shown(lines, protected, n - 1), n - 1 in protected)] else []
  }

  /** The last line the first pass kept, with only empty lines after it. */
  lemma {:induction false} LastRun(lines: seq<string>, protected: set<nat>, n: nat) returns (i: nat)
    requires n <= |lines| && Runs(lines, protected, n) != []
    ensures i < n && StartsRun(lines, protected, i)
    ensures Runs(lines, protected, n) == Runs(lines, protected, i) + [(Shown(lines, protected, i), i in protected)]
    ensures forall k :: i < k < n ==> Empty(lines, protected, k) && !StartsRun(lines, protected, k)
  {
    i := n - 1;
    if !StartsRun(lines, protected, n - 1) {
      i := LastRun(lines, protected, n - 1);
    }
  }

  function Texts(kept: seq<(string, bool)>): (texts: seq<string>)
    ensures |texts| == |kept| && forall i :: 0 <= i < |kept| ==> texts[i] == kept[i].0
  {
    seq(|kept|, i requires 0 <= i < |kept| => kept[i].0)
  }

  /** Cutting the empty tail off the first pass leaves the lines that stay. */
  lemma {:induction false} TrimmedRuns(lines: seq<string>, protected: set<nat>, m: nat, n: nat)
    requires m <= n <= |lines|
    requires forall k :: m <= k < |lines| ==> Empty(lines, protected, k)
    requires m == 0 || !Empty(lines, protected, m - 1)
    ensures Survivors(lines, protected, n) == Texts(Runs(lines, protected, m))
    decreases n
  {
    if n > m {
      TrimmedRuns(lines, protected, m, n - 1);
      assert !Stays(lines, protected, n - 1);
    } else {
      FullRuns(lines, protected, m, m);
    }
  }

  lemma {:induction false} FullRuns(lines: seq<string>, protected: set<nat>, m: nat, n: nat)
    requires n <= m <= |lines| && (m == 0 || !Empty(lines, protected, m - 1))
    ensures Survivors(lines, protected, n) == Texts(Runs(lines, protected, n))
    decreases n
  {
    if n > 0 {
      FullRuns(lines, protected, m, n - 1);
      if Empty(lines, protected, n - 1) { assert n - 1 < m - 1; }
      assert Stays(lines, protected, n - 1) <==> StartsRun(lines, protected, n - 1);
    }
  }

  method CollapseBlankLines(src: string, protected: set<nat>) returns (final: string)
    ensures final == Join(Survivors(Lines(src), protected, |Lines(src)|)) + "\n"
  {
    var lines := Lines(src);
    var out: seq<(string, bool)> := [];
    var blankRun := 0;
    for i := 0 to |lines|
      invariant out == Runs(lines, protected, i)
      invariant blankRun > 0 <==> i > 0 && Empty(lines, protected, i - 1)
      invariant blankRun >= 0
    {
      var raw := lines[i];
      if i in protected {
        out := out + [(raw, true)];
        blankRun := 0;
      } else {
        var ln := RStrip(raw);
        if ln == "" {
          blankRun := blankRun + 1;
          if blankRun <= 1 {
            out := out + [(ln, false)];
          }
        } else {
          blankRun := 0;
          out := out + [(ln, false)];
        }
      }
    }
    ghost var m: nat := |lines|;
    while out != [] && out[|out| - 1] == ("", false)
      invariant m <= |lines| && out == Runs(lines, protected, m)
      invariant forall k :: m <= k < |lines| ==> Empty(lines, protected, k)
      decreases |out|
    {
      m := LastRun(lines, protected, m);
      out := out[..|out| - 1];
    }
    ghost var last := Settle(lines, protected, m);
    TrimmedRuns(lines, protected, last, |lines|);
    final := Join(Texts(out)) + "\n";
  }

  lemma Settle(lines: seq<string>, protected: set<nat>, m: nat) returns (last: nat)
    requires m <= |lines| && forall k :: m <= k < |lines| ==> Empty(lines, protected, k)
    requires var out := Runs(lines, protected, m); out == [] || out[|out| - 1] != ("", false)
    ensures last <= |lines| && Runs(lines, protected, last) == Runs(lines, protected, m)
    ensures forall k :: last <= k < |lines| ==> Empty(lines, protected, k)
    ensures last == 0 || !Empty(lines, protected, last - 1)
  {
    hide RStrip;
    if Runs(lines, protected, m) == [] {
      last := 0;
      if m > 0 { NothingBefore(lines, protected, m); }
    } else {
      var i := LastRun(lines, protected, m);
      last := i + 1;
    }
  }

  lemma {:induction false} NothingBefore(lines: seq<string>, protected: set<nat>, m: nat)
    requires 0 < m <= |lines|
    ensures Runs(lines, protected, m) != []
  {
    if m > 1 { NothingBefore(lines, protected, m - 1); }
  }

  // ---------- which lines stay ----------

  /** Where the lines stand that stay. */
  function Staying(lines: seq<string>, protected: set<nat>, n: nat): (at: seq<nat>)
    requires n <= |lines|
    ensures forall k :: 0 <= k < |at| ==> at[k] < n && Stays(lines, protected, at[k])
    ensures forall k, m :: 0 <= k < m < |at| ==> at[k] < at[m]
    ensures forall i :: 0 <= i < n && Stays(lines, protected, i) ==> i in at
  {
    if n == 0 then []
    else Staying(lines, protected, n - 1) + if Stays(lines, protected, n - 1) then [n - 1] else []
  }

  lemma {:induction false} SurvivorsStand(lines: seq<string>, protected: set<nat>, n: nat)
    requires n <= |lines|
    ensures |Survivors(lines, protected, n)| == |Staying(lines, protected, n)|
    ensures forall k :: 0 <= k < |Staying(lines, protected, n)| ==>
              Survivors(lines, protected, n)[k] == Shown(lines, protected, Staying(lines, protected, n)[k])
  {
    if n > 0 { SurvivorsStand(lines, protected, n - 1); }
  }

  ghost predicate AllEmpty(lines: seq<string>, protected: set<nat>, i: nat, j: nat) {
    forall k :: i <= k <= j && k < |lines| ==> Empty(lines, protected, k)
  }

  /** In the collapsed text no two empty lines are adjacent and none is last, while no other line is lost, and no gap
      between two of them is closed. */
  lemma CollapsedIsTidy(lines: seq<string>, protected: set<nat>)
    ensures var at := Staying(lines, protected, |lines|);
            && (forall i :: 0 <= i < |lines| && !Empty(lines, protected, i) ==> i in at)
            && (forall k :: 0 < k < |at| ==> !(Empty(lines, protected, at[k - 1]) && Empty(lines, protected, at[k])))
            && (at != [] ==> !Empty(lines, protected, at[|at| - 1]))
            && forall i: nat, j :: i < j < |lines| && Empty(lines, protected, i) && !Empty(lines, protected, j) ==>
                 exists g: nat :: g <= i && g in at && AllEmpty(lines, protected, g, i)
  {
    hide Empty, Stays, Staying;
    var at := Staying(lines, protected, |lines|);
    forall i | 0 <= i < |lines| && !Empty(lines, protected, i) ensures i in at { FullStays(lines, protected, i); }
    forall k | 0 < k < |at| && Empty(lines, protected, at[k])
      ensures !Empty(lines, protected, at[k - 1])
    {
      GapIsClosed(lines, protected, at, k);
    }
    if at != [] { LastIsFull(lines, protected, at); }
    forall i: nat, j | i < j < |lines| && Empty(lines, protected, i) && !Empty(lines, protected, j)
      ensures exists g: nat :: g <= i && g in at && AllEmpty(lines, protected, g, i)
    {
      var g := GapStarts(lines, protected, i);
      GapStays(lines, protected, g, j);
    }
  }

  lemma FullStays(lines: seq<string>, protected: set<nat>, i: nat)
    requires i < |lines| && !Empty(lines, protected, i)
    ensures Stays(lines, protected, i)
  {}

  lemma GapStays(lines: seq<string>, protected: set<nat>, g: nat, j: nat)
    requires g < j < |lines| && (g == 0 || !Empty(lines, protected, g - 1)) && !Empty(lines, protected, j)
    ensures Stays(lines, protected, g)
  {}

  lemma LastIsFull(lines: seq<string>, protected: set<nat>, at: seq<nat>)
    requires at == Staying(lines, protected, |lines|) && at != []
    ensures !Empty(lines, protected, at[|at| - 1])
  {
    var last := at[|at| - 1];
    assert Stays(lines, protected, last);
    forall k | last < k < |lines|
      ensures Empty(lines, protected, k)
    {
      assert Stays(lines, protected, k) ==> k in at;
      assert forall m :: 0 <= m < |at| ==> at[m] <= last;
    }
  }

  lemma GapIsClosed(lines: seq<string>, protected: set<nat>, at: seq<nat>, k: nat)
    requires at == Staying(lines, protected, |lines|) && 0 < k < |at| && Empty(lines, protected, at[k])
    ensures !Empty(lines, protected, at[k - 1])
  {
    var before := at[k] - 1;
    assert Stays(lines, protected, at[k]) && at[k] > 0;
    assert !Empty(lines, protected, before) && Stays(lines, protected, before);
    var m :| 0 <= m < |at| && at[m] == before;
    Ordered(at, m, k);
    Ordered(at, m, k - 1);
    Ordered(at, k - 1, m);
  }

  lemma Ordered(at: seq<nat>, i: nat, j: nat)
    requires i < |at| && j < |at| && forall k, m :: 0 <= k < m < |at| ==> at[k] < at[m]
    ensures at[i] < at[j] <==> i < j
  {}

  lemma {:induction false} GapStarts(lines: seq<string>, protected: set<nat>, i: nat) returns (g: nat)
    requires i < |lines| && Empty(lines, protected, i)
    ensures g <= i && AllEmpty(lines, protected, g, i) && (g == 0 || !Empty(lines, protected, g - 1))
  {
    g := i;
    if i > 0 && Empty(lines, protected, i - 1) { g := GapStarts(lines, protected, i - 1); }
  }

  // ---------- what stays ----------

  lemma {:induction false} SurvivorsGrow(lines: seq<string>, protected: set<nat>, b: nat, n: nat)
    returns (after: seq<string>)
    requires b <= n <= |lines|
    ensures Survivors(lines, protected, n) == Survivors(lines, protected, b) + after
  {
    if b == n {
      after := [];
    } else {
      after := SurvivorsGrow(lines, protected, b, n - 1);
      after := after + if Stays(lines, protected, n - 1) then [Shown(lines, protected, n - 1)] else [];
    }
  }
}
