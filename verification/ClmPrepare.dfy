/** Preparing a corpus of labelled decisions: one row per decision, held-out questions and their
    conversations excluded, and whole components of questions and conversations sent to one split. */
module ClmPrepare {
  import opened Finite
  import opened UnionFind

  datatype Question = Question(body: string, answer: string)

  /** conversation is "" when the row has none; source is the corpus it came from. */
  datatype SourceRow = SourceRow(state: string, questions: map<string, Question>, source: string, conversation: string)

  type Digest = int
  type Identity = (string, map<string, string>)
  type Conversation = (string, string)

  /** What makes two rows the same decision: everything but the labels. */
  function IdentityOf(row: SourceRow): Identity {
    (row.state, map q | q in row.questions :: row.questions[q].body)
  }

  function Labels(row: SourceRow): map<string, string> {
    map q | q in row.questions :: row.questions[q].answer
  }

  function ConversationOf(row: SourceRow): Conversation {
    (row.source, row.conversation)
  }

  /** Rows are one decision exactly when they differ in answers, source and conversation at most; they carry the same
      labels when their answers are the same too. */
  lemma SameDecision(a: SourceRow, b: SourceRow)
    ensures IdentityOf(a) == IdentityOf(b) <==>
              && a.state == b.state && a.questions.Keys == b.questions.Keys
              && forall q :: q in a.questions && q in b.questions ==> a.questions[q].body == b.questions[q].body
    ensures Labels(a) == Labels(b) <==>
              && a.questions.Keys == b.questions.Keys
              && forall q :: q in a.questions && q in b.questions ==> a.questions[q].answer == b.questions[q].answer
  {
    var ia, ib, la, lb := IdentityOf(a).1, IdentityOf(b).1, Labels(a), Labels(b);
    assert ia.Keys == a.questions.Keys == la.Keys && ib.Keys == b.questions.Keys == lb.Keys;
    if a.questions.Keys == b.questions.Keys {
      forall q | q in a.questions
        ensures ia[q] == a.questions[q].body && ib[q] == b.questions[q].body
        ensures la[q] == a.questions[q].answer && lb[q] == b.questions[q].answer
      {}
      if forall q :: q in a.questions && q in b.questions ==> a.questions[q].body == b.questions[q].body { assert ia == ib; }
      if forall q :: q in a.questions && q in b.questions ==> a.questions[q].answer == b.questions[q].answer { assert la == lb; }
    }
  }

  datatype Split = Train | Validation | Calibration | Test

  function SplitAt(value: nat): Split {
    if value < 20 then Test else if value < 40 then Calibration else if value < 60 then Validation else Train
  }

  const BUCKETS: nat := 1000

  ghost function BucketsOf(split: Split): set<nat> {
    set value: nat | value < BUCKETS && SplitAt(value) == split
  }

  /** Of a thousand buckets each held-out split gets twenty and training the rest. */
  lemma SplitShares(split: Split)
    ensures |BucketsOf(split)| == if split == Train then 940 else 20
  {
    match split
    case Test => assert BucketsOf(split) == UpTo(20);
    case Calibration => SharesBetween(split, 20, 40);
    case Validation => SharesBetween(split, 40, 60);
    case Train => SharesBetween(split, 60, BUCKETS);
  }

  lemma SharesBetween(split: Split, from: nat, to: nat)
    requires from <= to && forall v: nat :: v in BucketsOf(split) <==> from <= v < to
    ensures |BucketsOf(split)| == to - from
  {
    assert BucketsOf(split) == UpTo(to) - UpTo(from);
    assert UpTo(to) == UpTo(from) + BucketsOf(split);
  }

  /** The rows a run works from, with the digest of a row's question and the bucket of a digest. */
  datatype Run = Run(sources: seq<SourceRow>, exclusions: seq<SourceRow>, topic: string -> Digest, bucket: Digest -> nat)
  {
    function Topic(row: SourceRow): Digest { topic(row.state) }

    function Forbidden(): set<Digest> {
      set row | row in exclusions :: Topic(row)
    }

    /** Row i asks a held-out question. */
    predicate HeldOut(row: SourceRow) {
      Topic(row) in Forbidden()
    }
  }

  // ---------- the rows that survive ----------

  ghost predicate FirstAt(rows: seq<SourceRow>, i: nat)
    requires i < |rows|
  {
    forall j :: 0 <= j < i ==> IdentityOf(rows[j]) != IdentityOf(rows[i])
  }

  /** No held-out match among the rows shares the row's conversation. */
  ghost predicate CleanConversation(run: Run, row: SourceRow) {
    row.conversation == "" ||
    forall r :: r in run.sources && run.HeldOut(r) ==> ConversationOf(r) != ConversationOf(row)
  }

  /** The row stands for its decision: it is the first of its identity, its question is not held
      out, and neither is its conversation. */
  ghost predicate Kept(run: Run, row: SourceRow) {
    && (exists i :: 0 <= i < |run.sources| && run.sources[i] == row && FirstAt(run.sources, i))
    && !run.HeldOut(row) && CleanConversation(run, row)
  }

  /** Every source row of the same decision carries the same labels. */
  ghost predicate Unconflicted(run: Run, row: SourceRow) {
    forall r :: r in run.sources && IdentityOf(r) == IdentityOf(row) ==> Labels(r) == Labels(row)
  }

  predicate Shares(run: Run, a: SourceRow, b: SourceRow) {
    run.Topic(a) == run.Topic(b) || (a.conversation != "" && ConversationOf(a) == ConversationOf(b))
  }

  ghost function ShareEdges(run: Run, rows: seq<SourceRow>): set<(SourceRow, SourceRow)> {
    set a, b | a in rows && b in rows && Shares(run, a, b) :: (a, b)
  }

  // ---------- gathering one row per decision ----------

  /** What the first pass knows after the first n rows. */
  ghost predicate Gathered(run: Run, n: nat, order: seq<Identity>, unique: map<Identity, SourceRow>,
                           conflicts: set<Identity>, banned: set<Conversation>)
  {
    && n <= |run.sources|
    && (forall k :: k in unique <==> k in order)
    && (forall i, j :: 0 <= i < j < |order| ==> order[i] != order[j])
    && (forall k {:trigger FirstOfAt(run, n, unique, k)} :: k in unique ==> FirstOfAt(run, n, unique, k))
    && (forall i {:trigger SeenAt(run, i, unique, conflicts, banned)} :: 0 <= i < n ==> SeenAt(run, i, unique, conflicts, banned))
    && (forall k {:trigger ConflictAt(run, n, unique, k)} :: k in conflicts ==> ConflictAt(run, n, unique, k))
    && (forall c {:trigger BannedAt(run, n, c)} :: c in banned ==> BannedAt(run, n, c))
  }

  ghost predicate FirstOfAt(run: Run, n: nat, unique: map<Identity, SourceRow>, k: Identity)
    requires n <= |run.sources| && k in unique
  {
    IdentityOf(unique[k]) == k && !run.HeldOut(unique[k]) &&
    exists i :: 0 <= i < n && run.sources[i] == unique[k] && FirstAt(run.sources, i)
  }

  ghost predicate SeenAt(run: Run, i: nat, unique: map<Identity, SourceRow>, conflicts: set<Identity>, banned: set<Conversation>)
    requires i < |run.sources|
  {
    var row := run.sources[i];
    if run.HeldOut(row) then row.conversation != "" ==> ConversationOf(row) in banned
    else IdentityOf(row) in unique && (IdentityOf(row) in conflicts || Labels(row) == Labels(unique[IdentityOf(row)]))
  }

  ghost predicate ConflictAt(run: Run, n: nat, unique: map<Identity, SourceRow>, k: Identity)
    requires n <= |run.sources|
  {
    k in unique && exists i :: 0 <= i < n && IdentityOf(run.sources[i]) == k && Labels(run.sources[i]) != Labels(unique[k])
  }

  ghost predicate BannedAt(run: Run, n: nat, c: Conversation)
    requires n <= |run.sources|
  {
    c.1 != "" && exists i :: 0 <= i < n && run.HeldOut(run.sources[i]) && ConversationOf(run.sources[i]) == c
  }

  method Gather(run: Run)
    returns (order: seq<Identity>, unique: map<Identity, SourceRow>, conflicts: set<Identity>, banned: set<Conversation>)
    ensures Gathered(run, |run.sources|, order, unique, conflicts, banned)
  {
    order, unique, conflicts, banned := [], map[], {}, {};
    for i := 0 to |run.sources|
      invariant Gathered(run, i, order, unique, conflicts, banned)
    {
      var row := run.sources[i];
      var key := IdentityOf(row);
      if key in unique {
        if Labels(row) != Labels(unique[key]) {
          GatherDuplicate(run, i, order, unique, conflicts, banned, conflicts + {key});
          conflicts := conflicts + {key};
        } else {
          GatherDuplicate(run, i, order, unique, conflicts, banned, conflicts);
        }
      } else if run.HeldOut(row) {
        var more := if row.conversation != "" then banned + {ConversationOf(row)} else banned;
        GatherHeldOut(run, i, order, unique, conflicts, banned, more);
        banned := more;
      } else {
        GatherFirst(run, i, order, unique, conflicts, banned);
        order := order + [key];
        unique := unique[key := row];
      }
    }
  }

  lemma DuplicatesSeen(run: Run, i: nat, order: seq<Identity>, unique: map<Identity, SourceRow>,
                       conflicts: set<Identity>, banned: set<Conversation>, conflicts': set<Identity>)
    requires i < |run.sources| && Gathered(run, i, order, unique, conflicts, banned) && IdentityOf(run.sources[i]) in unique
    requires var key := IdentityOf(run.sources[i]);
             conflicts' == if Labels(run.sources[i]) != Labels(unique[key]) then conflicts + {key} else conflicts
    ensures forall m {:trigger SeenAt(run, m, unique, conflicts', banned)} :: 0 <= m < i + 1 ==> SeenAt(run, m, unique, conflicts', banned)
  {
    var key := IdentityOf(run.sources[i]);
    assert FirstOfAt(run, i, unique, key);
    assert run.sources[i].state == key.0 == unique[key].state;
    forall m | 0 <= m < i + 1
      ensures SeenAt(run, m, unique, conflicts', banned)
    {
      assert m < i ==> SeenAt(run, m, unique, conflicts, banned);
    }
  }

  lemma GatherDuplicate(run: Run, i: nat, order: seq<Identity>, unique: map<Identity, SourceRow>,
                        conflicts: set<Identity>, banned: set<Conversation>, conflicts': set<Identity>)
    requires i < |run.sources| && Gathered(run, i, order, unique, conflicts, banned) && IdentityOf(run.sources[i]) in unique
    requires var key := IdentityOf(run.sources[i]);
             conflicts' == if Labels(run.sources[i]) != Labels(unique[key]) then conflicts + {key} else conflicts
    ensures Gathered(run, i + 1, order, unique, conflicts', banned)
  {
    hide SeenAt;
    var key := IdentityOf(run.sources[i]);
    assert FirstOfAt(run, i, unique, key);
    assert run.sources[i].state == key.0 == unique[key].state;
    forall k | k in unique
      ensures FirstOfAt(run, i + 1, unique, k)
    {
      assert FirstOfAt(run, i, unique, k);
    }
    DuplicatesSeen(run, i, order, unique, conflicts, banned, conflicts');
    forall k | k in conflicts'
      ensures ConflictAt(run, i + 1, unique, k)
    {
      assert k in conflicts ==> ConflictAt(run, i, unique, k);
    }
    forall c | c in banned
      ensures BannedAt(run, i + 1, c)
    {
      assert BannedAt(run, i, c);
    }
  }

  lemma GatherHeldOut(run: Run, i: nat, order: seq<Identity>, unique: map<Identity, SourceRow>,
                      conflicts: set<Identity>, banned: set<Conversation>, more: set<Conversation>)
    requires i < |run.sources| && Gathered(run, i, order, unique, conflicts, banned) && run.HeldOut(run.sources[i])
    requires var row := run.sources[i]; more == if row.conversation != "" then banned + {ConversationOf(row)} else banned
    ensures Gathered(run, i + 1, order, unique, conflicts, more)
  {
    forall k | k in unique
      ensures FirstOfAt(run, i + 1, unique, k)
    {
      assert FirstOfAt(run, i, unique, k);
    }
    forall m | 0 <= m < i + 1
      ensures SeenAt(run, m, unique, conflicts, more)
    {
      assert m < i ==> SeenAt(run, m, unique, conflicts, banned);
    }
    forall k | k in conflicts
      ensures ConflictAt(run, i + 1, unique, k)
    {
      assert ConflictAt(run, i, unique, k);
    }
    forall c | c in more
      ensures BannedAt(run, i + 1, c)
    {
      assert c in banned ==> BannedAt(run, i, c);
    }
  }

  lemma GatherFirst(run: Run, i: nat, order: seq<Identity>, unique: map<Identity, SourceRow>,
                    conflicts: set<Identity>, banned: set<Conversation>)
    requires i < |run.sources| && Gathered(run, i, order, unique, conflicts, banned)
    requires IdentityOf(run.sources[i]) !in unique && !run.HeldOut(run.sources[i])
    ensures var key := IdentityOf(run.sources[i]);
            Gathered(run, i + 1, order + [key], unique[key := run.sources[i]], conflicts, banned)
  {
    var row := run.sources[i];
    var key := IdentityOf(row);
    var unique' := unique[key := row];
    assert FirstAt(run.sources, i) by {
      forall j | 0 <= j < i
        ensures IdentityOf(run.sources[j]) != key
      {
        assert SeenAt(run, j, unique, conflicts, banned);
      }
    }
    forall k | k in unique'
      ensures FirstOfAt(run, i + 1, unique', k)
    {
      if k != key { assert FirstOfAt(run, i, unique, k); }
    }
    forall m | 0 <= m < i + 1
      ensures SeenAt(run, m, unique', conflicts, banned)
    {
      assert m < i ==> SeenAt(run, m, unique, conflicts, banned);
    }
    forall k | k in conflicts
      ensures ConflictAt(run, i + 1, unique', k)
    {
      assert ConflictAt(run, i, unique, k);
    }
    forall c | c in banned
      ensures BannedAt(run, i + 1, c)
    {
      assert BannedAt(run, i, c);
    }
  }

  // ---------- reading the gathered state back ----------

  function Survivors(order: seq<Identity>, unique: map<Identity, SourceRow>, banned: set<Conversation>): seq<SourceRow>
    requires forall k :: k in order ==> k in unique
  {
    if order == [] then []
    else
      var before, row := Survivors(order[..|order| - 1], unique, banned), unique[order[|order| - 1]];
      if ConversationOf(row) in banned then before else before + [row]
  }

  ghost predicate Distinct(rows: seq<SourceRow>) {
    forall i, j :: 0 <= i < j < |rows| ==> IdentityOf(rows[i]) != IdentityOf(rows[j])
  }

  lemma {:induction false} SurvivorsAre(order: seq<Identity>, unique: map<Identity, SourceRow>, banned: set<Conversation>)
    requires (forall k :: k in order ==> k in unique) && (forall i, j :: 0 <= i < j < |order| ==> order[i] != order[j])
    requires forall k :: k in unique ==> IdentityOf(unique[k]) == k
    ensures Distinct(Survivors(order, unique, banned))
    ensures forall row :: row in Survivors(order, unique, banned) <==>
              IdentityOf(row) in order && unique[IdentityOf(row)] == row && ConversationOf(row) !in banned
  {
    if order != [] {
      var before, last := order[..|order| - 1], order[|order| - 1];
      SurvivorsAre(before, unique, banned);
      assert order == before + [last];
      assert last !in before;
    }
  }

  /** The surviving rows are exactly the kept rows, each decision once. */
  lemma SurvivorsAreKept(run: Run, order: seq<Identity>, unique: map<Identity, SourceRow>,
                         conflicts: set<Identity>, banned: set<Conversation>)
    requires Gathered(run, |run.sources|, order, unique, conflicts, banned)
    ensures Distinct(Survivors(order, unique, banned))
    ensures forall row :: row in Survivors(order, unique, banned) <==> Kept(run, row)
  {
    forall k | k in unique ensures IdentityOf(unique[k]) == k { assert FirstOfAt(run, |run.sources|, unique, k); }
    SurvivorsAre(order, unique, banned);
    forall row
      ensures row in Survivors(order, unique, banned) <==> Kept(run, row)
    {
      if row in Survivors(order, unique, banned) {
        assert FirstOfAt(run, |run.sources|, unique, IdentityOf(row));
        BannedIsUnclean(run, order, unique, conflicts, banned, row);
      } else if Kept(run, row) {
        var i :| 0 <= i < |run.sources| && run.sources[i] == row && FirstAt(run.sources, i);
        assert SeenAt(run, i, unique, conflicts, banned);
        var k := IdentityOf(row);
        assert FirstOfAt(run, |run.sources|, unique, k);
        var j :| 0 <= j < |run.sources| && run.sources[j] == unique[k] && FirstAt(run.sources, j);
        assert !(i < j) && !(j < i);
        BannedIsUnclean(run, order, unique, conflicts, banned, row);
      }
    }
  }

  lemma BannedIsUnclean(run: Run, order: seq<Identity>, unique: map<Identity, SourceRow>,
                        conflicts: set<Identity>, banned: set<Conversation>, row: SourceRow)
    requires Gathered(run, |run.sources|, order, unique, conflicts, banned)
    ensures ConversationOf(row) in banned <==> !CleanConversation(run, row)
  {
    if ConversationOf(row) in banned {
      assert BannedAt(run, |run.sources|, ConversationOf(row));
    } else if row.conversation != "" {
      forall r | r in run.sources && run.HeldOut(r)
        ensures ConversationOf(r) != ConversationOf(row)
      {
        var i :| 0 <= i < |run.sources| && run.sources[i] == r;
        assert SeenAt(run, i, unique, conflicts, banned);
      }
    }
  }

  lemma ConflictsAreConflicts(run: Run, order: seq<Identity>, unique: map<Identity, SourceRow>,
                              conflicts: set<Identity>, banned: set<Conversation>, row: SourceRow)
    requires Gathered(run, |run.sources|, order, unique, conflicts, banned)
    requires IdentityOf(row) in unique && unique[IdentityOf(row)] == row
    ensures IdentityOf(row) in conflicts <==> !Unconflicted(run, row)
  {
    if IdentityOf(row) in conflicts {
      assert ConflictAt(run, |run.sources|, unique, IdentityOf(row));
    } else {
      assert FirstOfAt(run, |run.sources|, unique, IdentityOf(row));
      forall r | r in run.sources && IdentityOf(r) == IdentityOf(row)
        ensures Labels(r) == Labels(row)
      {
        var i :| 0 <= i < |run.sources| && run.sources[i] == r;
        assert SeenAt(run, i, unique, conflicts, banned) && r.state == row.state;
      }
    }
  }

  // ---------- linking questions that share a conversation ----------

  /** parent.setdefault, then parent[root(group)] = root(previous) */
  method LinkTopics(sets: DisjointSets<Digest>, group: Digest, previous: Digest)
    requires sets.Valid()
    modifies sets
    ensures sets.Valid() && sets.edges == old(sets.edges) + {(group, previous)}
  {
    sets.Ensure(previous);
    var keep := sets.Compress(previous);
    label Kept:
    sets.Ensure(group);
    assert SameRootAt(old@Kept(sets.parent), old@Kept(sets.depth), sets.parent, sets.depth, previous);
    label Both:
    var child := sets.Compress(group);
    assert SameRootAt(old@Both(sets.parent), old@Both(sets.depth), sets.parent, sets.depth, previous);
    sets.Attach(group, previous, child, keep);
  }

  /** Each conversation seen so far is filed under a question linked to all of its questions. */
  ghost predicate Filed(run: Run, rows: seq<SourceRow>, groups: map<Conversation, Digest>, edges: set<(Digest, Digest)>) {
    forall row :: row in rows && row.conversation != "" ==> FiledAt(run, groups, edges, row)
  }

  ghost predicate FiledAt(run: Run, groups: map<Conversation, Digest>, edges: set<(Digest, Digest)>, row: SourceRow) {
    ConversationOf(row) in groups && Linked(edges, run.Topic(row), groups[ConversationOf(row)])
  }

  /** The edge joins the questions of two rows of one conversation. */
  ghost predicate Bridges(run: Run, rows: seq<SourceRow>, e: (Digest, Digest)) {
    exists a, b :: a in rows && b in rows && SameTalk(a, b) && run.Topic(a) == e.0 && run.Topic(b) == e.1
  }

  predicate SameTalk(a: SourceRow, b: SourceRow) {
    a.conversation != "" && b.conversation != "" && ConversationOf(a) == ConversationOf(b)
  }

  ghost predicate FiledUnder(run: Run, rows: seq<SourceRow>, c: Conversation, d: Digest) {
    exists b :: b in rows && b.conversation != "" && ConversationOf(b) == c && run.Topic(b) == d
  }

  /** Nothing is filed or linked but by way of the rows. */
  ghost predicate Traced(run: Run, rows: seq<SourceRow>, groups: map<Conversation, Digest>, edges: set<(Digest, Digest)>) {
    && (forall c :: c in groups ==> FiledUnder(run, rows, c, groups[c]))
    && (forall e :: e in edges ==> Bridges(run, rows, e))
  }

  lemma TraceNext(run: Run, rows: seq<SourceRow>, groups: map<Conversation, Digest>, edges: set<(Digest, Digest)>, row: SourceRow)
    requires Traced(run, rows, groups, edges) && row.conversation != ""
    ensures var c, t := ConversationOf(row), run.Topic(row);
            var groups' := if c in groups then groups else groups[c := t];
            Traced(run, rows + [row], groups', edges + {(t, groups'[c])})
  {
    var c, t, more := ConversationOf(row), run.Topic(row), rows + [row];
    var groups' := if c in groups then groups else groups[c := t];
    assert row in more;
    forall d | d in groups'
      ensures FiledUnder(run, more, d, groups'[d])
    {
      if d in groups {
        assert FiledUnder(run, rows, d, groups[d]);
        var b :| b in rows && b.conversation != "" && ConversationOf(b) == d && run.Topic(b) == groups[d];
        assert b in more;
      }
    }
    assert FiledUnder(run, more, c, groups'[c]);
    assert Bridges(run, more, (t, groups'[c]));
    forall e | e in edges ensures Bridges(run, more, e) { TraceStays(run, rows, row, e); }
  }

  lemma TraceStays(run: Run, rows: seq<SourceRow>, row: SourceRow, e: (Digest, Digest))
    requires Bridges(run, rows, e)
    ensures Bridges(run, rows + [row], e)
  {
    var a, b :| a in rows && b in rows && SameTalk(a, b) && run.Topic(a) == e.0 && run.Topic(b) == e.1;
    assert a in rows + [row] && b in rows + [row];
  }

  lemma TraceIdle(run: Run, rows: seq<SourceRow>, groups: map<Conversation, Digest>, edges: set<(Digest, Digest)>, row: SourceRow)
    requires Traced(run, rows, groups, edges)
    ensures Traced(run, rows + [row], groups, edges)
  {
    forall c | c in groups
      ensures FiledUnder(run, rows + [row], c, groups[c])
    {
      var b :| b in rows && b.conversation != "" && ConversationOf(b) == c && run.Topic(b) == groups[c];
      assert b in rows + [row];
    }
    forall e | e in edges ensures Bridges(run, rows + [row], e) { TraceStays(run, rows, row, e); }
  }

  lemma FileNext(run: Run, rows: seq<SourceRow>, groups: map<Conversation, Digest>, edges: set<(Digest, Digest)>, row: SourceRow)
    requires Filed(run, rows, groups, edges) && row.conversation != ""
    ensures var c, t := ConversationOf(row), run.Topic(row);
            var groups' := if c in groups then groups else groups[c := t];
            Filed(run, rows + [row], groups', edges + {(t, groups'[c])})
  {
    var c, t := ConversationOf(row), run.Topic(row);
    var groups' := if c in groups then groups else groups[c := t];
    var more := edges + {(t, groups'[c])};
    forall r | r in rows + [row] && r.conversation != ""
      ensures FiledAt(run, groups', more, r)
    {
      if r in rows {
        assert FiledAt(run, groups, edges, r);
        LinkedMore(edges, more, run.Topic(r), groups[ConversationOf(r)]);
      } else {
        LinkedEdge(more, t, groups'[c]);
      }
    }
  }

  method LinkConversations(run: Run, kept: seq<SourceRow>, sets: DisjointSets<Digest>)
    returns (ghost groups: map<Conversation, Digest>)
    requires sets.Valid() && sets.edges == {}
    modifies sets
    ensures sets.Valid() && Filed(run, kept, groups, sets.edges) && Traced(run, kept, groups, sets.edges)
  {
    var table: map<Conversation, Digest> := map[];
    for i := 0 to |kept|
      invariant sets.Valid() && Filed(run, kept[..i], table, sets.edges) && Traced(run, kept[..i], table, sets.edges)
    {
      var row := kept[i];
      assert kept[..i + 1] == kept[..i] + [row];
      if row.conversation != "" {
        FileNext(run, kept[..i], table, sets.edges, row);
        TraceNext(run, kept[..i], table, sets.edges, row);
        var c := ConversationOf(row);
        if c !in table {
          table := table[c := run.Topic(row)];
        }
        LinkTopics(sets, run.Topic(row), table[c]);
      } else {
        TraceIdle(run, kept[..i], table, sets.edges, row);
      }
    }
    assert kept[..|kept|] == kept;
    groups := table;
  }

  /** Rows that share a question or a conversation, directly or through others, have linked questions. */
  lemma {:induction false} ChainLinksTopics(run: Run, kept: seq<SourceRow>, groups: map<Conversation, Digest>,
                                            edges: set<(Digest, Digest)>, path: seq<SourceRow>)
    requires Filed(run, kept, groups, edges) && IsPath(ShareEdges(run, kept), path)
    ensures Linked(edges, run.Topic(path[0]), run.Topic(path[|path| - 1]))
  {
    if |path| == 1 {
      LinkedSelf(edges, run.Topic(path[0]));
    } else {
      var n := |path| - 1;
      assert IsPath(ShareEdges(run, kept), path[..n]);
      ChainLinksTopics(run, kept, groups, edges, path[..n]);
      var a, b := path[n - 1], path[n - 1 + 1];
      assert Adjacent(ShareEdges(run, kept), a, b);
      if run.Topic(a) == run.Topic(b) {
        LinkedSelf(edges, run.Topic(a));
      } else {
        assert FiledAt(run, groups, edges, a) && FiledAt(run, groups, edges, b);
        LinkedBack(edges, run.Topic(b), groups[ConversationOf(b)]);
        LinkedOn(edges, run.Topic(a), groups[ConversationOf(a)], run.Topic(b));
      }
      LinkedOn(edges, run.Topic(path[0]), run.Topic(a), run.Topic(b));
    }
  }

  /** And only they do: whatever is linked to a row's question is the question of a row so joined to it. */
  lemma {:induction false} LinkedTopicsChain(run: Run, kept: seq<SourceRow>, groups: map<Conversation, Digest>,
                                             edges: set<(Digest, Digest)>, path: seq<Digest>, a: SourceRow) returns (b: SourceRow)
    requires Traced(run, kept, groups, edges) && IsPath(edges, path) && a in kept && run.Topic(a) == path[0]
    ensures b in kept && run.Topic(b) == path[|path| - 1] && Linked(ShareEdges(run, kept), a, b)
  {
    if |path| == 1 {
      b := a;
      LinkedSelf(ShareEdges(run, kept), a);
    } else {
      var n := |path| - 1;
      assert IsPath(edges, path[..n]);
      var c := LinkedTopicsChain(run, kept, groups, edges, path[..n], a);
      assert Adjacent(edges, path[n - 1], path[n - 1 + 1]);
      b := AcrossBridge(run, kept, edges, path[n - 1], path[n], c);
      LinkedOn(ShareEdges(run, kept), a, c, b);
    }
  }

  lemma AcrossBridge(run: Run, kept: seq<SourceRow>, edges: set<(Digest, Digest)>, x: Digest, y: Digest, a: SourceRow)
    returns (b: SourceRow)
    requires Adjacent(edges, x, y) && (forall e :: e in edges ==> Bridges(run, kept, e))
    requires a in kept && run.Topic(a) == x
    ensures b in kept && run.Topic(b) == y && Linked(ShareEdges(run, kept), a, b)
  {
    var e := if (x, y) in edges then (x, y) else (y, x);
    assert Bridges(run, kept, e);
    var l, r :| l in kept && r in kept && SameTalk(l, r) && run.Topic(l) == e.0 && run.Topic(r) == e.1;
    var near;
    near, b := if e.0 == x && e.1 == y then l else r, if e.0 == x && e.1 == y then r else l;
    LinkedEdge(ShareEdges(run, kept), a, near);
    LinkedEdge(ShareEdges(run, kept), near, b);
    LinkedOn(ShareEdges(run, kept), a, near, b);
  }

  // ---------- choosing the split ----------

  /** The digest that stands for d's component; a digest outside the forest stands for itself. */
  ghost function Rep(parent: map<Digest, Digest>, depth: map<Digest, nat>, d: Digest): Digest
    requires Forest(parent, depth)
  {
    if d in parent then Root(parent, depth, d) else d
  }

  lemma LinkedSameRep(parent: map<Digest, Digest>, depth: map<Digest, nat>, edges: set<(Digest, Digest)>, x: Digest, y: Digest)
    requires Keeps(parent, depth, edges) && Linked(edges, x, y)
    ensures Rep(parent, depth, x) == Rep(parent, depth, y)
  {
    var path :| PathFromTo(edges, path, x, y);
    if |path| > 1 {
      assert Adjacent(edges, path[0], path[0 + 1]);
      assert OneRoot(parent, depth, (path[0], path[1])) || OneRoot(parent, depth, (path[1], path[0]));
      PathHasOneRoot(parent, depth, edges, path);
    }
  }

  ghost predicate SameRep(p: map<Digest, Digest>, d: map<Digest, nat>, p': map<Digest, Digest>, d': map<Digest, nat>, x: Digest)
    requires Forest(p, d) && Forest(p', d')
  {
    Rep(p', d', x) == Rep(p, d, x)
  }

  /** root(key): look up or create, and compress. */
  method RootOfTopic(sets: DisjointSets<Digest>, d: Digest) returns (r: Digest)
    requires sets.Valid()
    modifies sets
    ensures sets.Valid() && sets.edges == old(sets.edges)
    ensures r == old(Rep(sets.parent, sets.depth, d))
    ensures forall x :: SameRep(old(sets.parent), old(sets.depth), sets.parent, sets.depth, x)
  {
    sets.Ensure(d);
    forall x
      ensures SameRep(old(sets.parent), old(sets.depth), sets.parent, sets.depth, x)
    {
      assert SameRootAt(old(sets.parent), old(sets.depth), sets.parent, sets.depth, x);
    }
    label Ensured:
    r := sets.Compress(d);
    forall x
      ensures SameRep(old(sets.parent), old(sets.depth), sets.parent, sets.depth, x)
    {
      assert SameRep(old(sets.parent), old(sets.depth), old@Ensured(sets.parent), old@Ensured(sets.depth), x);
      assert SameRootAt(old@Ensured(sets.parent), old@Ensured(sets.depth), sets.parent, sets.depth, x);
    }
    assert SameRep(old(sets.parent), old(sets.depth), sets.parent, sets.depth, d);
  }

  const ALL_SPLITS: set<Split> := {Train, Validation, Calibration, Test}

  lemma EverySplit(s: Split)
    ensures s in ALL_SPLITS
  {
    match s
    case Train =>
    case Validation =>
    case Calibration =>
    case Test =>
  }

  function NoRows(): (m: map<Split, seq<SourceRow>>)
    ensures forall s: Split :: s in m
  {
    assert forall s: Split :: s in ALL_SPLITS by {
      forall s: Split ensures s in ALL_SPLITS { EverySplit(s); }
    }
    map s | s in ALL_SPLITS :: []
  }

  type Splits = m: map<Split, seq<SourceRow>> | forall s: Split :: s in m
    witness NoRows()

  ghost function SplitOf(run: Run, rep: Digest -> Digest, row: SourceRow): Split {
    SplitAt(run.bucket(rep(run.Topic(row))) % BUCKETS)
  }

  /** Of the rows seen so far, each that is wanted sits in its own split, and in no other. */
  ghost predicate Sorted(run: Run, rep: Digest -> Digest, wanted: seq<SourceRow>, splits: Splits) {
    && (forall s, row :: row in splits[s] <==> row in wanted && SplitOf(run, rep, row) == s)
    && (forall s :: Distinct(splits[s]))
  }

  lemma SortNext(run: Run, rep: Digest -> Digest, wanted: seq<SourceRow>, splits: Splits, row: SourceRow)
    requires Sorted(run, rep, wanted, splits) && forall r :: r in wanted ==> IdentityOf(r) != IdentityOf(row)
    ensures var s := SplitOf(run, rep, row); Sorted(run, rep, wanted + [row], splits[s := splits[s] + [row]])
  {
    var s := SplitOf(run, rep, row);
    forall i | 0 <= i < |splits[s]|
      ensures IdentityOf(splits[s][i]) != IdentityOf(row)
    {
      assert splits[s][i] in wanted;
    }
  }

  method SplitRows(run: Run, kept: seq<SourceRow>, conflicts: set<Identity>, sets: DisjointSets<Digest>)
    returns (splits: Splits, ghost wanted: seq<SourceRow>, ghost rep: Digest -> Digest)
    requires sets.Valid() && Distinct(kept)
    modifies sets
    ensures forall row :: row in wanted <==> row in kept && IdentityOf(row) !in conflicts
    ensures Sorted(run, rep, wanted, splits)
    ensures forall d :: rep(d) == old(Rep(sets.parent, sets.depth, d))
  {
    ghost var p0, d0 := sets.parent, sets.depth;
    rep := d requires Forest(p0, d0) => Rep(p0, d0, d);
    splits := NoRows();
    wanted := [];
    for i := 0 to |kept|
      invariant sets.Valid() && forall x :: SameRep(p0, d0, sets.parent, sets.depth, x)
      invariant forall row :: row in wanted <==> row in kept[..i] && IdentityOf(row) !in conflicts
      invariant Sorted(run, rep, wanted, splits)
    {
      var row := kept[i];
      assert kept[..i + 1] == kept[..i] + [row];
      if IdentityOf(row) in conflicts {
        continue;
      }
      label Before:
      var r := RootOfTopic(sets, run.Topic(row));
      forall x
        ensures SameRep(p0, d0, sets.parent, sets.depth, x)
      {
        assert SameRep(p0, d0, old@Before(sets.parent), old@Before(sets.depth), x);
        assert SameRep(old@Before(sets.parent), old@Before(sets.depth), sets.parent, sets.depth, x);
      }
      assert SameRep(p0, d0, old@Before(sets.parent), old@Before(sets.depth), run.Topic(row));
      SortNext(run, rep, wanted, splits, row);
      var s := SplitAt(run.bucket(r) % BUCKETS);
      splits := splits[s := splits[s] + [row]];
      wanted := wanted + [row];
    }
    assert kept[..|kept|] == kept;
  }

  // ---------- the whole of prepare ----------

  /** rep picks one question for each class of rows that chains of shared questions and conversations
      join: the question of some row of the class, and a different one for each class. */
  ghost predicate Represents(run: Run, kept: seq<SourceRow>, rep: Digest -> Digest) {
    && (forall a, b :: a in kept && b in kept ==>
          (rep(run.Topic(a)) == rep(run.Topic(b)) <==> Linked(ShareEdges(run, kept), a, b)))
    && (forall a :: a in kept ==> Represented(run, kept, rep, a))
  }

  ghost predicate Represented(run: Run, kept: seq<SourceRow>, rep: Digest -> Digest, a: SourceRow) {
    exists b :: b in kept && run.Topic(b) == rep(run.Topic(a)) && Linked(ShareEdges(run, kept), a, b)
  }

  /** Each row goes to the split that its class's question hashes to. */
  ghost predicate ByBucket(run: Run, kept: seq<SourceRow>, splits: Splits) {
    exists rep :: Represents(run, kept, rep) && forall s, row :: row in splits[s] ==> s == SplitOf(run, rep, row)
  }

  lemma RepIsLinked(p0: map<Digest, Digest>, d0: map<Digest, nat>, edges: set<(Digest, Digest)>, x: Digest, y: Digest)
    requires Keeps(p0, d0, edges)
    ensures Linked(edges, x, Rep(p0, d0, x))
    ensures Rep(p0, d0, x) == Rep(p0, d0, y) <==> Linked(edges, x, y)
  {
    LinkedSelf(edges, x);
    assert LinkedToRoot(p0, d0, edges, x);
    if Linked(edges, x, y) {
      LinkedSameRep(p0, d0, edges, x, y);
    } else if x in p0 && y in p0 {
      SameRootIffLinked(p0, d0, edges, x, y);
    }
  }

  lemma RepRepresents(run: Run, kept: seq<SourceRow>, groups: map<Conversation, Digest>, edges: set<(Digest, Digest)>,
                      p0: map<Digest, Digest>, d0: map<Digest, nat>, rep: Digest -> Digest)
    requires Keeps(p0, d0, edges) && Filed(run, kept, groups, edges) && Traced(run, kept, groups, edges)
    requires forall d :: rep(d) == Rep(p0, d0, d)
    ensures Represents(run, kept, rep)
  {
    forall a, b | a in kept && b in kept
      ensures rep(run.Topic(a)) == rep(run.Topic(b)) <==> Linked(ShareEdges(run, kept), a, b)
    {
      RepIsLinked(p0, d0, edges, run.Topic(a), run.Topic(b));
      TopicsLinkedIffRows(run, kept, groups, edges, a, b);
    }
    forall a | a in kept
      ensures Represented(run, kept, rep, a)
    {
      RepIsLinked(p0, d0, edges, run.Topic(a), run.Topic(a));
      var path :| PathFromTo(edges, path, run.Topic(a), rep(run.Topic(a)));
      var b := LinkedTopicsChain(run, kept, groups, edges, path, a);
    }
  }

  lemma TopicsLinkedIffRows(run: Run, kept: seq<SourceRow>, groups: map<Conversation, Digest>, edges: set<(Digest, Digest)>,
                            a: SourceRow, b: SourceRow)
    requires Filed(run, kept, groups, edges) && Traced(run, kept, groups, edges) && a in kept && b in kept
    ensures Linked(edges, run.Topic(a), run.Topic(b)) <==> Linked(ShareEdges(run, kept), a, b)
  {
    if Linked(ShareEdges(run, kept), a, b) {
      var path :| PathFromTo(ShareEdges(run, kept), path, a, b);
      ChainLinksTopics(run, kept, groups, edges, path);
    }
    if Linked(edges, run.Topic(a), run.Topic(b)) {
      var path :| PathFromTo(edges, path, run.Topic(a), run.Topic(b));
      var c := LinkedTopicsChain(run, kept, groups, edges, path, a);
      LinkedEdge(ShareEdges(run, kept), c, b);
      LinkedOn(ShareEdges(run, kept), a, c, b);
    }
  }

  /** What the prepared splits promise. */
  ghost predicate Prepared(run: Run, kept: seq<SourceRow>, splits: Splits) {
    && (forall row :: row in kept <==> Kept(run, row))
    // a row is emitted exactly when it stands for its decision and all copies agree on the labels
    && (forall row :: (exists s :: row in splits[s]) <==> Kept(run, row) && Unconflicted(run, row))
    // each decision is emitted once
    && (forall s :: Distinct(splits[s]))
    // whatever is joined by a chain of shared questions and conversations shares its split
    && (forall s, t, a, b :: a in splits[s] && b in splits[t] && Linked(ShareEdges(run, kept), a, b) ==> s == t)
    // and that split is the one its representative question hashes to
    && ByBucket(run, kept, splits)
  }

  method KeepClean(order: seq<Identity>, unique: map<Identity, SourceRow>, banned: set<Conversation>) returns (kept: seq<SourceRow>)
    requires forall k :: k in order ==> k in unique
    ensures kept == Survivors(order, unique, banned)
  {
    kept := [];
    for i := 0 to |order|
      invariant kept == Survivors(order[..i], unique, banned)
    {
      assert order[..i + 1][..i] == order[..i];
      var row := unique[order[i]];
      if ConversationOf(row) !in banned {
        kept := kept + [row];
      }
    }
    assert order[..|order|] == order;
  }

  /** The splits are those of the kept rows. */
  ghost predicate IsPreparation(run: Run, splits: Splits) {
    exists kept :: Prepared(run, kept, splits)
  }

  method Prepare(run: Run) returns (splits: Splits, ghost kept: seq<SourceRow>)
    ensures Prepared(run, kept, splits) && IsPreparation(run, splits)
  {
    var order, unique, conflicts, banned := Gather(run);
    var rows := KeepClean(order, unique, banned);
    kept := rows;
    SurvivorsAreKept(run, order, unique, conflicts, banned);
    var sets := new DisjointSets<Digest>({});
    ghost var groups := LinkConversations(run, rows, sets);
    ghost var p0, d0, edges := sets.parent, sets.depth, sets.edges;
    ghost var wanted, rep;
    splits, wanted, rep := SplitRows(run, rows, conflicts, sets);
    forall row | Kept(run, row)
      ensures IdentityOf(row) in conflicts <==> !Unconflicted(run, row)
    {
      KeptIsUnique(run, order, unique, conflicts, banned, row);
      ConflictsAreConflicts(run, order, unique, conflicts, banned, row);
    }
    SortedIsPrepared(run, kept, groups, edges, p0, d0, rep, wanted, splits);
  }

  lemma KeptIsUnique(run: Run, order: seq<Identity>, unique: map<Identity, SourceRow>,
                     conflicts: set<Identity>, banned: set<Conversation>, row: SourceRow)
    requires Gathered(run, |run.sources|, order, unique, conflicts, banned) && Kept(run, row)
    ensures IdentityOf(row) in unique && unique[IdentityOf(row)] == row
  {
    var i :| 0 <= i < |run.sources| && run.sources[i] == row && FirstAt(run.sources, i);
    assert SeenAt(run, i, unique, conflicts, banned);
    var k := IdentityOf(row);
    assert FirstOfAt(run, |run.sources|, unique, k);
    var j :| 0 <= j < |run.sources| && run.sources[j] == unique[k] && FirstAt(run.sources, j);
    assert !(i < j) && !(j < i);
  }

  lemma SortedByBucket(run: Run, kept: seq<SourceRow>, rep: Digest -> Digest, wanted: seq<SourceRow>, splits: Splits)
    requires Represents(run, kept, rep) && Sorted(run, rep, wanted, splits) && forall row :: row in wanted ==> row in kept
    ensures ByBucket(run, kept, splits)
    ensures forall s, t, a, b :: a in splits[s] && b in splits[t] && Linked(ShareEdges(run, kept), a, b) ==> s == t
  {
    forall s, row | row in splits[s]
      ensures row in kept && s == SplitOf(run, rep, row)
    {
      assert row in wanted;
    }
    forall s, t, a, b | a in splits[s] && b in splits[t] && Linked(ShareEdges(run, kept), a, b)
      ensures s == t
    {
      assert a in kept && b in kept && s == SplitOf(run, rep, a) && t == SplitOf(run, rep, b);
      assert rep(run.Topic(a)) == rep(run.Topic(b));
    }
  }

  lemma SortedIsPrepared(run: Run, kept: seq<SourceRow>, groups: map<Conversation, Digest>, edges: set<(Digest, Digest)>,
                         p0: map<Digest, Digest>, d0: map<Digest, nat>, rep: Digest -> Digest, wanted: seq<SourceRow>, splits: Splits)
    requires Keeps(p0, d0, edges) && Filed(run, kept, groups, edges) && Traced(run, kept, groups, edges)
    requires forall d :: rep(d) == Rep(p0, d0, d)
    requires forall row :: row in kept <==> Kept(run, row)
    requires forall row :: row in wanted <==> Kept(run, row) && Unconflicted(run, row)
    requires Sorted(run, rep, wanted, splits)
    ensures Prepared(run, kept, splits)
  {
    hide Kept, Unconflicted, ShareEdges, ByBucket, Represents, Filed, Traced;
    forall row
      ensures (exists s :: row in splits[s]) <==> Kept(run, row) && Unconflicted(run, row)
    {
      if row in wanted { assert row in splits[SplitOf(run, rep, row)]; }
    }
    RepRepresents(run, kept, groups, edges, p0, d0, rep);
    SortedByBucket(run, kept, rep, wanted, splits);
  }
}
