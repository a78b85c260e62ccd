/** Drawing a held-out set by whole prompt groups, and scoring it by windows of one group each. */
module HoldoutSplit {
  import opened Wrappers
  import opened Finite
  import opened Sorting
  import opened PromptGroups

  const MIN_WINDOWS := 9
  const EVAL_TOKENS := 512
  const TOKEN_SLACK := 8

  /** The eval window keeps a completion token scorable. */
  predicate Eligible(row: Row) {
    if row.promptTokens.Some? then row.promptTokens.value + TOKEN_SLACK < EVAL_TOKENS
    else row.promptBytes < EVAL_TOKENS
  }

  predicate AllEligible(rows: seq<Row>) {
    forall r :: r in rows ==> Eligible(r)
  }

  function Sum(sizes: seq<nat>): nat {
    if sizes == [] then 0 else Sum(sizes[..|sizes| - 1]) + sizes[|sizes| - 1]
  }

  function Min(a: int, b: int): int { if a < b then a else b }
  function Max(a: int, b: int): int { if a < b then b else a }

  /** fracRows is int(len(data) * holdout_frac). */
  function TargetRows(data: seq<Row>, fracRows: int): (target: int)
    ensures target < |data| && (target < |data| - 1 ==> target >= MIN_WINDOWS && target >= fracRows)
    ensures target >= |data| - 1 || target == MIN_WINDOWS || target == fracRows
  {
    Min(|data| - 1, Max(MIN_WINDOWS, fracRows))
  }

  // ---------- the windows ----------

  ghost function Concat(groups: map<Digest, seq<Row>>, seated: seq<Digest>): seq<Row>
    requires forall g :: g in seated ==> g in groups
  {
    if seated == [] then [] else Concat(groups, seated[..|seated| - 1]) + groups[seated[|seated| - 1]]
  }

  /** The held-out rows are the seated groups, one after the other, and sizes gives their lengths. */
  ghost predicate Windows(groups: map<Digest, seq<Row>>, seated: seq<Digest>, holdout: seq<Row>, sizes: seq<nat>) {
    && (forall g :: g in seated ==> g in groups)
    && (forall i, j :: 0 <= i < j < |seated| ==> seated[i] != seated[j])
    && |sizes| == |seated|
    && (forall k :: 0 <= k < |seated| ==> sizes[k] == |groups[seated[k]]|)
    && holdout == Concat(groups, seated)
  }

  lemma {:induction false} WindowStart(groups: map<Digest, seq<Row>>, seated: seq<Digest>, holdout: seq<Row>, sizes: seq<nat>)
    requires Windows(groups, seated, holdout, sizes)
    ensures |holdout| == Sum(sizes)
  {
    if seated != [] {
      var n := |seated| - 1;
      assert forall g :: g in seated[..n] ==> g in seated;
      WindowStart(groups, seated[..n], Concat(groups, seated[..n]), sizes[..n]);
    }
  }

  lemma {:induction false} SumGrows(sizes: seq<nat>, k: nat)
    requires k <= |sizes|
    ensures Sum(sizes[..k]) <= Sum(sizes)
  {
    if k < |sizes| {
      SumGrows(sizes[..|sizes| - 1], k);
      assert sizes[..|sizes| - 1][..k] == sizes[..k];
    } else {
      assert sizes[..k] == sizes;
    }
  }

  /** Window k, read off by the running start, is exactly the rows of the k-th seated group. */
  lemma {:induction false} WindowIsGroup(groups: map<Digest, seq<Row>>, seated: seq<Digest>, holdout: seq<Row>, sizes: seq<nat>, k: nat)
    requires Windows(groups, seated, holdout, sizes) && k < |seated|
    ensures Sum(sizes[..k]) + sizes[k] <= |holdout|
    ensures holdout[Sum(sizes[..k])..Sum(sizes[..k]) + sizes[k]] == groups[seated[k]]
  {
    var n := |seated| - 1;
    assert forall g :: g in seated[..n] ==> g in seated;
    var before := Concat(groups, seated[..n]);
    assert Windows(groups, seated[..n], before, sizes[..n]);
    WindowStart(groups, seated[..n], before, sizes[..n]);
    if k < n {
      WindowIsGroup(groups, seated[..n], before, sizes[..n], k);
      assert sizes[..n][..k] == sizes[..k];
    }
  }

  // ---------- the split ----------

  /** No held-out prompt equals, extends or is extended by a training prompt, empty prompts aside
      from equality. */
  ghost predicate NoLeak(holdout: seq<Row>, train: seq<Row>) {
    forall h, t :: h in holdout && t in train ==>
      h.norm != t.norm && (h.norm != "" ==> !(h.norm <= t.norm)) && (t.norm != "" ==> !(t.norm <= h.norm))
  }

  /** Each row placed so far sits on the side of its own group. */
  ghost predicate Placed(data: seq<Row>, home: map<string, Digest>, seated: set<Digest>, benched: set<Digest>,
                         holdout: seq<Row>, train: seq<Row>)
  {
    && (forall row :: multiset(holdout)[row] == if row.norm in home && home[row.norm] in seated then multiset(data)[row] else 0)
    && (forall row :: multiset(train)[row] == if row.norm in home && home[row.norm] in benched then multiset(data)[row] else 0)
  }

  lemma PlaceOne(data: seq<Row>, groups: map<Digest, seq<Row>>, home: map<string, Digest>,
                 seated: set<Digest>, side: seq<Row>, g: Digest)
    requires GroupsHoldRows(data, groups, home) && g in groups && g !in seated
    requires forall row :: multiset(side)[row] == if row.norm in home && home[row.norm] in seated then multiset(data)[row] else 0
    ensures forall row :: multiset(side + groups[g])[row] ==
              if row.norm in home && home[row.norm] in seated + {g} then multiset(data)[row] else 0
  {
  }

  /** The wholly eligible groups, in order. */
  ghost function EligibleIn(groups: map<Digest, seq<Row>>, order: seq<Digest>): seq<Digest>
    requires forall g :: g in order ==> g in groups
  {
    if order == [] then []
    else
      var before, g := EligibleIn(groups, order[..|order| - 1]), order[|order| - 1];
      if AllEligible(groups[g]) then before + [g] else before
  }

  /** The groups that are not taken, in order. */
  ghost function Without(order: seq<Digest>, taken: set<Digest>): seq<Digest> {
    if order == [] then []
    else
      var before, g := Without(order[..|order| - 1], taken), order[|order| - 1];
      if g in taken then before else before + [g]
  }

  /** Enough rows and enough windows are held out. */
  predicate Met(sizes: seq<nat>, target: int) {
    Sum(sizes) >= target && |sizes| >= MIN_WINDOWS
  }

  /** The seated groups are the first wholly eligible ones in order, until both targets are met and no
      further; all others are benched, in order. */
  ghost predicate SeatedRightly(groups: map<Digest, seq<Row>>, order: seq<Digest>, seated: seq<Digest>, benched: seq<Digest>,
                                sizes: seq<nat>, target: int)
  {
    && (forall g :: g in order ==> g in groups)
    && |sizes| == |seated|
    && seated <= EligibleIn(groups, order)
    && (forall k :: 0 <= k < |seated| ==> !Met(sizes[..k], target))
    && (seated == EligibleIn(groups, order) || Met(sizes, target))
    && benched == Without(order, Elements(seated))
  }

  lemma {:induction false} WithoutNew(order: seq<Digest>, taken: set<Digest>, g: Digest)
    requires g !in order
    ensures Without(order, taken + {g}) == Without(order, taken)
  {
    if order != [] { WithoutNew(order[..|order| - 1], taken, g); }
  }

  lemma NextInOrder(groups: map<Digest, seq<Row>>, order: seq<Digest>, g: Digest, taken: set<Digest>)
    requires g in groups && forall x :: x in order ==> x in groups
    ensures forall x :: x in order + [g] ==> x in groups
    ensures EligibleIn(groups, order + [g]) == EligibleIn(groups, order) + if AllEligible(groups[g]) then [g] else []
    ensures Without(order + [g], taken) == Without(order, taken) + if g in taken then [] else [g]
  {
    assert (order + [g])[..|order|] == order;
  }

  lemma SeatOne(groups: map<Digest, seq<Row>>, order: seq<Digest>, seated: seq<Digest>, benched: seq<Digest>,
                sizes: seq<nat>, target: int, g: Digest)
    requires SeatedRightly(groups, order, seated, benched, sizes, target) && g in groups && g !in order
    requires AllEligible(groups[g]) && !Met(sizes, target)
    ensures SeatedRightly(groups, order + [g], seated + [g], benched, sizes + [|groups[g]|], target)
  {
    var sizes' := sizes + [|groups[g]|];
    assert sizes'[..|sizes|] == sizes;
    forall k | 0 <= k <= |seated|
      ensures !Met(sizes'[..k], target)
    {
      assert sizes'[..k] == if k < |sizes| then sizes[..k] else sizes;
    }
    NextInOrder(groups, order, g, Elements(seated + [g]));
    assert Elements(seated + [g]) == Elements(seated) + {g};
    WithoutNew(order, Elements(seated), g);
  }

  lemma BenchOne(groups: map<Digest, seq<Row>>, order: seq<Digest>, seated: seq<Digest>, benched: seq<Digest>,
                 sizes: seq<nat>, target: int, g: Digest)
    requires SeatedRightly(groups, order, seated, benched, sizes, target) && g in groups && g !in seated
    requires !AllEligible(groups[g]) || Met(sizes, target)
    ensures SeatedRightly(groups, order + [g], seated, benched + [g], sizes, target)
  {
    NextInOrder(groups, order, g, Elements(seated));
  }

  /** Where the split stands once the groups in done have had their turn. */
  ghost predicate Splitting(data: seq<Row>, groups: map<Digest, seq<Row>>, home: map<string, Digest>,
                            done: seq<Digest>, target: int, seated: seq<Digest>, benched: seq<Digest>,
                            holdout: seq<Row>, train: seq<Row>, sizes: seq<nat>)
  {
    && Windows(groups, seated, holdout, sizes)
    && SeatedRightly(groups, done, seated, benched, sizes, target)
    && (forall g :: g in benched ==> g in groups) && train == Concat(groups, benched)
    && Elements(seated) + Elements(benched) == Elements(done)
    && Elements(seated) !! Elements(benched)
    && Placed(data, home, Elements(seated), Elements(benched), holdout, train)
  }

  lemma WindowsNext(groups: map<Digest, seq<Row>>, seated: seq<Digest>, holdout: seq<Row>, sizes: seq<nat>, g: Digest)
    requires Windows(groups, seated, holdout, sizes) && g in groups && g !in seated
    ensures Windows(groups, seated + [g], holdout + groups[g], sizes + [|groups[g]|])
  {
    assert (seated + [g])[..|seated|] == seated;
  }

  lemma ElementsNext(s: seq<Digest>, g: Digest)
    ensures Elements(s + [g]) == Elements(s) + {g}
  {
  }

  lemma SeatNext(data: seq<Row>, groups: map<Digest, seq<Row>>, home: map<string, Digest>,
                 done: seq<Digest>, target: int, seated: seq<Digest>, benched: seq<Digest>,
                 holdout: seq<Row>, train: seq<Row>, sizes: seq<nat>, g: Digest)
    requires GroupsHoldRows(data, groups, home) && g in groups && g !in done
    requires Splitting(data, groups, home, done, target, seated, benched, holdout, train, sizes)
    requires AllEligible(groups[g]) && !Met(sizes, target)
    ensures Splitting(data, groups, home, done + [g], target, seated + [g], benched,
                      holdout + groups[g], train, sizes + [|groups[g]|])
  {
    assert g !in Elements(done) && g !in seated;
    SeatOne(groups, done, seated, benched, sizes, target, g);
    WindowsNext(groups, seated, holdout, sizes, g);
    PlaceOne(data, groups, home, Elements(seated), holdout, g);
    ElementsNext(seated, g);
    ElementsNext(done, g);
  }

  lemma BenchNext(data: seq<Row>, groups: map<Digest, seq<Row>>, home: map<string, Digest>,
                  done: seq<Digest>, target: int, seated: seq<Digest>, benched: seq<Digest>,
                  holdout: seq<Row>, train: seq<Row>, sizes: seq<nat>, g: Digest)
    requires GroupsHoldRows(data, groups, home) && g in groups && g !in done
    requires Splitting(data, groups, home, done, target, seated, benched, holdout, train, sizes)
    requires !AllEligible(groups[g]) || Met(sizes, target)
    ensures Splitting(data, groups, home, done + [g], target, seated, benched + [g], holdout, train + groups[g], sizes)
  {
    assert g !in Elements(done) && g !in seated;
    BenchOne(groups, done, seated, benched, sizes, target, g);
    PlaceOne(data, groups, home, Elements(benched), train, g);
    ElementsNext(benched, g);
    ElementsNext(done, g);
    assert (benched + [g])[..|benched|] == benched;
  }

  lemma SidesPartition(data: seq<Row>, groups: map<Digest, seq<Row>>, home: map<string, Digest>,
                       seated: seq<Digest>, benched: seq<Digest>, holdout: seq<Row>, train: seq<Row>)
    requires home.Keys == Corpus(data) && groups.Keys == home.Values
    requires Elements(seated) + Elements(benched) == groups.Keys && Elements(seated) !! Elements(benched)
    requires Placed(data, home, Elements(seated), Elements(benched), holdout, train)
    ensures multiset(holdout) + multiset(train) == multiset(data)
  {
    forall row
      ensures (multiset(holdout) + multiset(train))[row] == multiset(data)[row]
    {
      if row in data {
        assert row.norm in home && home[row.norm] in home.Values;
      }
    }
  }

  lemma SidesDoNotLeak(data: seq<Row>, home: map<string, Digest>,
                       seated: set<Digest>, benched: set<Digest>, holdout: seq<Row>, train: seq<Row>)
    requires home.Keys == Corpus(data) && HomesTellEntangled(data, home) && seated !! benched
    requires Placed(data, home, seated, benched, holdout, train)
    ensures NoLeak(holdout, train)
  {
    forall h, t | h in holdout && t in train
      ensures h.norm != t.norm && (h.norm != "" ==> !(h.norm <= t.norm)) && (t.norm != "" ==> !(t.norm <= h.norm))
    {
      assert multiset(holdout)[h] > 0 && multiset(train)[t] > 0;
      assert !Entangled(Corpus(data), h.norm, t.norm);
    }
  }

  lemma GroupsAreNonEmpty(data: seq<Row>, groups: map<Digest, seq<Row>>, home: map<string, Digest>, g: Digest)
    requires home.Keys == Corpus(data) && groups.Keys == home.Values && GroupsHoldRows(data, groups, home) && g in groups
    ensures |groups[g]| > 0
  {
    var x :| x in home && home[x] == g;
    var row :| row in data && row.norm == x;
    assert multiset(groups[g])[row] > 0;
  }

  method SeatGroups(ghost data: seq<Row>, merged: map<Digest, seq<Row>>, ghost home: map<string, Digest>,
                    order: seq<Digest>, target: int)
    returns (holdout: seq<Row>, train: seq<Row>, sizes: seq<nat>, ghost seated: seq<Digest>, ghost benched: seq<Digest>)
    requires GroupsHoldRows(data, merged, home)
    requires forall g :: g in order ==> g in merged
    requires forall i, j :: 0 <= i < j < |order| ==> order[i] != order[j]
    ensures Splitting(data, merged, home, order, target, seated, benched, holdout, train, sizes)
  {
    hide Splitting, GroupsHoldRows;
    holdout, train, sizes := [], [], [];
    seated, benched := [], [];
    NothingSeated(data, merged, home, target);
    for i := 0 to |order|
      invariant Splitting(data, merged, home, order[..i], target, seated, benched, holdout, train, sizes)
    {
      assert order[i] !in order[..i] && order[..i + 1] == order[..i] + [order[i]];
      holdout, train, sizes, seated, benched :=
        SeatOrBench(data, merged, home, order[..i], target, holdout, train, sizes, seated, benched, order[i]);
    }
    assert order[..|order|] == order;
  }

  lemma NothingSeated(data: seq<Row>, groups: map<Digest, seq<Row>>, home: map<string, Digest>, target: int)
    ensures Splitting(data, groups, home, [], target, [], [], [], [], [])
  {
    assert Elements<Digest>([]) == {};
  }

  /** One group's turn. */
  method SeatOrBench(ghost data: seq<Row>, merged: map<Digest, seq<Row>>, ghost home: map<string, Digest>,
                     ghost done: seq<Digest>, target: int, holdout: seq<Row>, train: seq<Row>, sizes: seq<nat>,
                     ghost seated: seq<Digest>, ghost benched: seq<Digest>, g: Digest)
    returns (holdout': seq<Row>, train': seq<Row>, sizes': seq<nat>, ghost seated': seq<Digest>, ghost benched': seq<Digest>)
    requires GroupsHoldRows(data, merged, home) && g in merged && g !in done
    requires Splitting(data, merged, home, done, target, seated, benched, holdout, train, sizes)
    ensures Splitting(data, merged, home, done + [g], target, seated', benched', holdout', train', sizes')
  {
    holdout', train', sizes', seated', benched' := holdout, train, sizes, seated, benched;
    WindowStart(merged, seated, holdout, sizes);
    var rows := merged[g];
    if (|holdout| < target || |sizes| < MIN_WINDOWS) && AllEligible(rows) {
      SeatNext(data, merged, home, done, target, seated, benched, holdout, train, sizes, g);
      holdout' := holdout + rows;
      sizes' := sizes + [|rows|];
      seated' := seated + [g];
    } else {
      BenchNext(data, merged, home, done, target, seated, benched, holdout, train, sizes, g);
      train' := train + rows;
      benched' := benched + [g];
    }
  }

  /** The outcome of a split: its sides partition the rows, share no prompt, and are the seated and the
      benched groups, each as a whole and in order. */
  ghost predicate SplitBy(data: seq<Row>, groups: map<Digest, seq<Row>>, order: seq<Digest>, seated: seq<Digest>,
                          benched: seq<Digest>, target: int, holdout: seq<Row>, train: seq<Row>, sizes: seq<nat>)
  {
    && multiset(holdout) + multiset(train) == multiset(data)
    && NoLeak(holdout, train)
    && Windows(groups, seated, holdout, sizes)
    && (forall k :: 0 <= k < |sizes| ==> sizes[k] > 0)
    && SeatedRightly(groups, order, seated, benched, sizes, target)
    && (forall g :: g in benched ==> g in groups) && train == Concat(groups, benched)
    && Elements(seated) + Elements(benched) == groups.Keys
  }

  lemma WindowsAreNonEmpty(data: seq<Row>, hash: string -> Digest, groups: map<Digest, seq<Row>>, home: map<string, Digest>,
                           seated: seq<Digest>, holdout: seq<Row>, sizes: seq<nat>)
    requires Grouped(data, hash, groups, home) && Windows(groups, seated, holdout, sizes)
    ensures forall k :: 0 <= k < |sizes| ==> sizes[k] > 0
  {
    forall k | 0 <= k < |sizes|
      ensures sizes[k] > 0
    {
      GroupsAreNonEmpty(data, groups, home, seated[k]);
    }
  }

  lemma SplitIsSound(data: seq<Row>, hash: string -> Digest, groups: map<Digest, seq<Row>>, home: map<string, Digest>,
                     order: seq<Digest>, target: int, seated: seq<Digest>, benched: seq<Digest>,
                     holdout: seq<Row>, train: seq<Row>, sizes: seq<nat>)
    requires Grouped(data, hash, groups, home) && Elements(order) == groups.Keys
    requires Splitting(data, groups, home, order, target, seated, benched, holdout, train, sizes)
    ensures SplitBy(data, groups, order, seated, benched, target, holdout, train, sizes)
  {
    SidesPartition(data, groups, home, seated, benched, holdout, train);
    SidesDoNotLeak(data, home, Elements(seated), Elements(benched), holdout, train);
    WindowsAreNonEmpty(data, hash, groups, home, seated, holdout, sizes);
  }

  /** The groups' keys by their seeded digests, for which rank stands. */
  ghost predicate Ranked(order: seq<Digest>, keys: set<Digest>, rank: Digest -> nat) {
    Elements(order) == keys && forall i, j :: 0 <= i < j < |order| ==> rank(order[i]) < rank(order[j])
  }

  /** The rows are split by whole groups of the merged grouping, taken by rank. */
  ghost predicate IsSplit(data: seq<Row>, hash: string -> Digest, rank: Digest -> nat, target: int,
                          holdout: seq<Row>, train: seq<Row>, sizes: seq<nat>) {
    exists groups, home, order, seated, benched ::
      Grouped(data, hash, groups, home) && Ranked(order, groups.Keys, rank) &&
      SplitBy(data, groups, order, seated, benched, target, holdout, train, sizes)
  }

  method SplitHoldout(data: seq<Row>, hash: string -> Digest, rank: Digest -> nat, fracRows: int)
    returns (holdout: seq<Row>, train: seq<Row>, sizes: seq<nat>,
             ghost groups: map<Digest, seq<Row>>, ghost home: map<string, Digest>, ghost order: seq<Digest>,
             ghost seated: seq<Digest>, ghost benched: seq<Digest>)
    requires Injective(hash) && forall a, b :: rank(a) == rank(b) ==> a == b
    ensures Grouped(data, hash, groups, home) && Ranked(order, groups.Keys, rank)
    ensures SplitBy(data, groups, order, seated, benched, TargetRows(data, fracRows), holdout, train, sizes)
    ensures IsSplit(data, hash, rank, TargetRows(data, fracRows), holdout, train, sizes)
  {
    var merged;
    merged, home := MergedPromptGroups(data, hash);
    groups := merged;
    var byRank := (a: Digest, b: Digest) => rank(a) < rank(b);
    var keyed := SortSet(merged.Keys, byRank);
    order := keyed;
    forall i, j | 0 <= i < j < |order|
      ensures order[i] != order[j] && rank(order[i]) < rank(order[j])
    {
      assert byRank(order[i], order[j]);
    }
    holdout, train, sizes, seated, benched := SeatGroups(data, merged, home, keyed, TargetRows(data, fracRows));
    assert Elements(order) == merged.Keys;
    SplitIsSound(data, hash, groups, home, order, TargetRows(data, fracRows), seated, benched, holdout, train, sizes);
  }

  // ---------- nine windows ----------

  ghost function EligibleGroups(groups: map<Digest, seq<Row>>): set<Digest> {
    set g | g in groups && AllEligible(groups[g])
  }

  lemma {:induction false} EligibleInHas(groups: map<Digest, seq<Row>>, order: seq<Digest>, g: Digest)
    requires (forall x :: x in order ==> x in groups) && g in order && AllEligible(groups[g])
    ensures g in EligibleIn(groups, order)
  {
    var n := |order| - 1;
    if g != order[n] {
      assert g in order[..n];
      EligibleInHas(groups, order[..n], g);
    }
  }

  /** Whenever nine wholly eligible groups exist, nine windows are seated; and no eligible group is
      left out before both the row target and nine windows are reached. */
  lemma NineWindowsSeated(groups: map<Digest, seq<Row>>, order: seq<Digest>, seated: seq<Digest>, benched: seq<Digest>,
                          holdout: seq<Row>, sizes: seq<nat>, target: int)
    requires Windows(groups, seated, holdout, sizes) && SeatedRightly(groups, order, seated, benched, sizes, target)
    requires Elements(order) == groups.Keys
    ensures |EligibleGroups(groups)| >= MIN_WINDOWS ==> |sizes| >= MIN_WINDOWS
    ensures EligibleGroups(groups) <= Elements(seated) || (|holdout| >= target && |sizes| >= MIN_WINDOWS)
  {
    WindowStart(groups, seated, holdout, sizes);
    if !Met(sizes, target) {
      forall g | g in EligibleGroups(groups)
        ensures g in Elements(seated)
      {
        assert g in Elements(order);
        EligibleInHas(groups, order, g);
      }
      SubsetSize(EligibleGroups(groups), Elements(seated));
      DistinctSize(seated);
    }
  }

  // ---------- one delta per window ----------

  function SumReal(xs: seq<real>): real {
    if xs == [] then 0.0 else SumReal(xs[..|xs| - 1]) + xs[|xs| - 1]
  }

  function Mean(xs: seq<real>): real
    requires xs != []
  {
    SumReal(xs) / |xs| as real
  }

  function Deltas(adapter: seq<real>, base: seq<real>): (deltas: seq<real>)
    requires |adapter| == |base|
    ensures |deltas| == |adapter|
  {
    seq(|adapter|, i requires 0 <= i < |adapter| => adapter[i] - base[i])
  }

  datatype StatsError = Unusable | SizesDoNotCover

  /** The stretch of xs that window k covers. */
  function Window(xs: seq<real>, sizes: seq<nat>, k: nat): (window: seq<real>)
    requires k < |sizes| && Sum(sizes) == |xs|
    ensures |window| == sizes[k]
  {
    SumGrows(sizes, k);
    WindowFits(sizes, k);
    xs[Sum(sizes[..k])..Sum(sizes[..k]) + sizes[k]]
  }

  lemma WindowFits(sizes: seq<nat>, k: nat)
    requires k < |sizes|
    ensures Sum(sizes[..k]) + sizes[k] == Sum(sizes[..k + 1]) <= Sum(sizes)
  {
    assert sizes[..k + 1][..k] == sizes[..k];
    SumGrows(sizes, k + 1);
  }

  /** How many of xs are below zero. */
  function Below(xs: seq<real>): nat {
    if xs == [] then 0 else Below(xs[..|xs| - 1]) + (if xs[|xs| - 1] < 0.0 then 1 else 0)
  }

  function Negated(xs: seq<real>): seq<real> {
    seq(|xs|, i requires 0 <= i < |xs| => -xs[i])
  }

  /** deltas holds the mean of each of the first windows. */
  ghost predicate MeansOf(deltas: seq<real>, xs: seq<real>, sizes: seq<nat>)
    requires Sum(sizes) == |xs| && |deltas| <= |sizes|
  {
    forall j :: 0 <= j < |deltas| ==> Window(xs, sizes, j) != [] && deltas[j] == Mean(Window(xs, sizes, j))
  }

  lemma MeansNext(deltas: seq<real>, xs: seq<real>, sizes: seq<nat>, delta: real)
    requires Sum(sizes) == |xs| && |deltas| < |sizes| && MeansOf(deltas, xs, sizes)
    requires Window(xs, sizes, |deltas|) != [] && delta == Mean(Window(xs, sizes, |deltas|))
    ensures MeansOf(deltas + [delta], xs, sizes)
  {
    hide Window, Mean, Sum;
  }

  /** The windows' mean deltas, with their number of wins and losses. */
  method WindowDeltas(adapter: seq<real>, base: seq<real>, sizes: seq<nat>)
    returns (result: Result<(seq<real>, nat, nat), StatsError>)
    requires forall k :: 0 <= k < |sizes| ==> sizes[k] > 0
    ensures result == Failure(Unusable) <==> adapter == [] || |adapter| != |base|
    ensures result == Failure(SizesDoNotCover) <==> adapter != [] && |adapter| == |base| && Sum(sizes) != |adapter|
    ensures result.Success? ==>
              var (deltas, wins, losses) := result.value;
              && |deltas| == |sizes| && Sum(sizes) == |adapter|
              && MeansOf(deltas, Deltas(adapter, base), sizes)
              && (forall k :: 0 <= k < |sizes| ==> AveragesGain(deltas[k], adapter, base, sizes, k))
              && wins == |Lower(adapter, base, sizes)| && losses == |Lower(base, adapter, sizes)|
  {
    if adapter == [] || |adapter| != |base| { return Failure(Unusable); }
    if Sum(sizes) != |adapter| { return Failure(SizesDoNotCover); }
    var rowDeltas := Deltas(adapter, base);
    var deltas: seq<real> := [];
    var start := 0;
    var wins, losses := 0, 0;
    for k := 0 to |sizes|
      invariant start == Sum(sizes[..k]) && |deltas| == k
      invariant MeansOf(deltas, rowDeltas, sizes)
      invariant wins == Below(deltas) && losses == Below(Negated(deltas))
    {
      WindowFits(sizes, k);
      var delta := MeanOf(rowDeltas[start..start + sizes[k]]);
      MeansNext(deltas, rowDeltas, sizes, delta);
      CountNext(deltas, delta);
      deltas := deltas + [delta];
      start := start + sizes[k];
      if delta < 0.0 { wins := wins + 1; } else if delta > 0.0 { losses := losses + 1; }
    }
    assert sizes[..|sizes|] == sizes;
    MeansAverageGains(deltas, adapter, base, sizes);
    WinsAreLower(deltas, adapter, base, sizes);
    LossesAreLower(deltas, adapter, base, sizes);
    return Success((deltas, wins, losses));
  }

  // ---------- what the deltas say of the two vectors ----------

  /** Over the rows of window k, delta adds up to what the adapter's values exceed the base's by. */
  predicate AveragesGain(delta: real, adapter: seq<real>, base: seq<real>, sizes: seq<nat>, k: nat)
    requires k < |sizes| && Sum(sizes) == |adapter| == |base|
  {
    delta * sizes[k] as real == SumReal(Window(adapter, sizes, k)) - SumReal(Window(base, sizes, k))
  }

  /** The windows over which the values of a add up to less than those of b. */
  ghost function Lower(a: seq<real>, b: seq<real>, sizes: seq<nat>): set<nat>
    requires Sum(sizes) == |a| == |b|
  {
    set k: nat | k < |sizes| && IsLower(a, b, sizes, k)
  }

  predicate IsLower(a: seq<real>, b: seq<real>, sizes: seq<nat>, k: nat)
    requires k < |sizes| && Sum(sizes) == |a| == |b|
  {
    SumReal(Window(a, sizes, k)) < SumReal(Window(b, sizes, k))
  }

  /** Sums are of the elements, each once: of one it is that one, of two stretches it is both sums. */
  lemma {:induction false} SumRealSplits(a: seq<real>, b: seq<real>)
    ensures SumReal(a + b) == SumReal(a) + SumReal(b)
    ensures |b| == 1 ==> SumReal(b) == b[0]
  {
    if b == [] {
      assert a + b == a;
    } else {
      var n := |b| - 1;
      SumRealSplits(a, b[..n]);
      assert (a + b)[..|a + b| - 1] == a + b[..n];
    }
  }

  lemma {:induction false} DeltasSum(adapter: seq<real>, base: seq<real>)
    requires |adapter| == |base|
    ensures SumReal(Deltas(adapter, base)) == SumReal(adapter) - SumReal(base)
  {
    if adapter != [] {
      var n := |adapter| - 1;
      DeltasSum(adapter[..n], base[..n]);
      assert Deltas(adapter, base)[..n] == Deltas(adapter[..n], base[..n]);
    }
  }

  lemma StretchDeltas(adapter: seq<real>, base: seq<real>, start: nat, n: nat)
    requires start + n <= |adapter| == |base|
    ensures Deltas(adapter, base)[start..start + n] == Deltas(adapter[start..start + n], base[start..start + n])
  {}

  lemma MeanAveragesGain(adapter: seq<real>, base: seq<real>, sizes: seq<nat>, k: nat)
    requires k < |sizes| && Sum(sizes) == |adapter| == |base| && sizes[k] > 0
    ensures AveragesGain(Mean(Window(Deltas(adapter, base), sizes, k)), adapter, base, sizes, k)
  {
    hide SumReal, Sum, Deltas;
    WindowFits(sizes, k);
    StretchDeltas(adapter, base, Sum(sizes[..k]), sizes[k]);
    DeltasSum(Window(adapter, sizes, k), Window(base, sizes, k));
  }

  lemma MeansAverageGains(deltas: seq<real>, adapter: seq<real>, base: seq<real>, sizes: seq<nat>)
    requires Sum(sizes) == |adapter| == |base| && |deltas| == |sizes|
    requires MeansOf(deltas, Deltas(adapter, base), sizes)
    ensures forall k :: 0 <= k < |sizes| ==> sizes[k] > 0 && AveragesGain(deltas[k], adapter, base, sizes, k)
  {
    forall k | 0 <= k < |sizes|
      ensures sizes[k] > 0 && AveragesGain(deltas[k], adapter, base, sizes, k)
    {
      assert Window(Deltas(adapter, base), sizes, k) != [];
      MeanAveragesGain(adapter, base, sizes, k);
    }
  }

  ghost function BelowAt(xs: seq<real>): set<nat> {
    set k: nat | k < |xs| && xs[k] < 0.0
  }

  lemma {:induction false} BelowCounts(xs: seq<real>)
    ensures Below(xs) == |BelowAt(xs)|
  {
    if xs != [] {
      var n := |xs| - 1;
      BelowCounts(xs[..n]);
      assert BelowAt(xs) == BelowAt(xs[..n]) + if xs[n] < 0.0 then {n} else {};
    }
  }

  lemma SignOf(delta: real, size: nat, gain: real)
    requires size > 0 && delta * size as real == gain
    ensures delta < 0.0 <==> gain < 0.0
    ensures delta > 0.0 <==> gain > 0.0
  {}

  lemma BelowIsLower(delta: real, adapter: seq<real>, base: seq<real>, sizes: seq<nat>, k: nat)
    requires k < |sizes| && Sum(sizes) == |adapter| == |base| && sizes[k] > 0 && AveragesGain(delta, adapter, base, sizes, k)
    ensures delta < 0.0 <==> IsLower(adapter, base, sizes, k)
  {
    hide Window, SumReal, Sum;
    SignOf(delta, sizes[k], SumReal(Window(adapter, sizes, k)) - SumReal(Window(base, sizes, k)));
  }

  lemma WinsAreLower(deltas: seq<real>, adapter: seq<real>, base: seq<real>, sizes: seq<nat>)
    requires Sum(sizes) == |adapter| == |base| && |deltas| == |sizes|
    requires forall k :: 0 <= k < |sizes| ==> sizes[k] > 0 && AveragesGain(deltas[k], adapter, base, sizes, k)
    ensures Below(deltas) == |Lower(adapter, base, sizes)|
  {
    hide Window, SumReal, IsLower, AveragesGain, Below, Sum;
    BelowCounts(deltas);
    forall k | 0 <= k < |sizes|
      ensures deltas[k] < 0.0 <==> IsLower(adapter, base, sizes, k)
    {
      BelowIsLower(deltas[k], adapter, base, sizes, k);
    }
    assert BelowAt(deltas) == Lower(adapter, base, sizes);
  }

  lemma LossesAreLower(deltas: seq<real>, adapter: seq<real>, base: seq<real>, sizes: seq<nat>)
    requires Sum(sizes) == |adapter| == |base| && |deltas| == |sizes|
    requires forall k :: 0 <= k < |sizes| ==> sizes[k] > 0 && AveragesGain(deltas[k], adapter, base, sizes, k)
    ensures Below(Negated(deltas)) == |Lower(base, adapter, sizes)|
  {
    hide Window, SumReal;
    forall k | 0 <= k < |sizes|
      ensures AveragesGain(Negated(deltas)[k], base, adapter, sizes, k)
    {
      NegatedGain(deltas[k], sizes[k] as real);
    }
    WinsAreLower(Negated(deltas), base, adapter, sizes);
  }

  lemma NegatedGain(delta: real, size: real)
    ensures -delta * size == -(delta * size)
  {}

  lemma CountNext(xs: seq<real>, x: real)
    ensures Below(xs + [x]) == Below(xs) + (if x < 0.0 then 1 else 0)
    ensures Below(Negated(xs + [x])) == Below(Negated(xs)) + (if x > 0.0 then 1 else 0)
  {
    assert (xs + [x])[..|xs|] == xs;
    assert Negated(xs + [x])[..|xs|] == Negated(xs);
  }

  method MeanOf(xs: seq<real>) returns (mean: real)
    requires xs != []
    ensures mean == Mean(xs)
  {
    var total := 0.0;
    for i := 0 to |xs|
      invariant total == SumReal(xs[..i])
    {
      assert xs[..i + 1][..i] == xs[..i];
      total := total + xs[i];
    }
    assert xs[..|xs|] == xs;
    mean := total / |xs| as real;
  }

  // ---------- the label-shuffled control ----------

  function After(i: nat, n: nat): (j: nat)
    requires i < n
    ensures j < n && (i + 1 < n ==> j == i + 1) && (i + 1 == n ==> j == 0)
  {
    (i + 1) % n
  }

  /** Each prompt in shuffled order, paired with the completion of the next one around the cycle. */
  function NullRows(train: seq<Row>, order: seq<nat>): seq<(string, string)>
    requires |order| == |train| && forall i :: 0 <= i < |order| ==> order[i] < |train|
  {
    seq(|train|, i requires 0 <= i < |train| => (train[order[i]].prompt, train[order[After(i, |train|)]].completion))
  }

  /** No prompt keeps its own row's completion, yet every row's prompt and every row's completion is
      used exactly once. */
  lemma NullRowsDerange(train: seq<Row>, order: seq<nat>, row: nat)
    requires |order| == |train| && |train| >= 2 && IsPermutation(order) && row < |train|
    ensures forall i :: 0 <= i < |train| ==> order[i] != order[After(i, |train|)]
    ensures exists i :: 0 <= i < |train| && order[i] == row && NullRows(train, order)[i].0 == train[row].prompt &&
              forall k :: 0 <= k < |train| && order[k] == row ==> k == i
    ensures exists i :: 0 <= i < |train| && order[After(i, |train|)] == row && NullRows(train, order)[i].1 == train[row].completion &&
              forall k :: 0 <= k < |train| && order[After(k, |train|)] == row ==> k == i
  {
    var n := |train|;
    PermutationHits(order, row);
    var i :| 0 <= i < n && order[i] == row;
    assert NullRows(train, order)[i].0 == train[row].prompt;
    var before := if i == 0 then n - 1 else i - 1;
    assert After(before, n) == i && NullRows(train, order)[before].1 == train[row].completion;
    forall k | 0 <= k < n && order[After(k, n)] == row
      ensures k == before
    {
      assert After(k, n) == i;
    }
  }
}
