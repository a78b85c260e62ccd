/** When two traces have the same canonical form, and what that form holds. */
module TraceEquality {
  import opened Wrappers
  import opened Json
  import opened FirstAppearance
  import opened TraceCanonical

  // ---------- what counts as the same ----------

  predicate IsClock(v: Json) { v.Int? && v.n >= 0 }

  predicate IsScore(v: Json) { v.Int? || v.Float? }

  predicate IsPayload(key: string, v: Json) {
    key in AUDIO_FIELDS && v.Str? && IdKind(v.text).None?
  }

  /** n thousandths are nearest to x, and an even number of them if two are equally near. */
  ghost predicate NearestThousandths(x: real, n: int) {
    forall m: int :: FartherThousandths(x, n, m)
  }

  predicate FartherThousandths(x: real, n: int, m: int) {
    var off, other := Distance(x, n), Distance(x, m);
    off <= other && (off == other && m != n ==> n % 2 == 0)
  }

  function Distance(x: real, n: int): real {
    var d := n as real / 1000.0 - x;
    if d < 0.0 then -d else d
  }

  ghost predicate SameScore(v: Json, w: Json)
    requires IsScore(v) && IsScore(w)
  {
    exists n: int :: NearestThousandths(Number(v), n) && NearestThousandths(Number(w), n)
  }

  /** Same structure and keys, equal but for clocks, which may tell any time, for scores, which may differ below the
      thousandths, for audio payloads, of which only the length counts, and for strings related by same. */
  ghost predicate Like(v: Json, w: Json, same: (string, string) -> bool)
    decreases v, 0
  {
    match (v, w)
    case (Obj(keys, vs), Obj(others, ws)) =>
      keys == others && |vs| == |ws| && forall i :: 0 <= i < |vs| ==> LikeField(KeyAt(keys, i), vs[i], ws[i], same)
    case (Arr(vs), Arr(ws)) => |vs| == |ws| && forall i :: 0 <= i < |vs| ==> Like(vs[i], ws[i], same)
    case (Str(s), Str(t)) => same(s, t)
    case _ => v == w
  }

  ghost predicate LikeField(key: string, v: Json, w: Json, same: (string, string) -> bool)
    decreases v, 1
  {
    if key in TS_FIELDS then v == w || (IsClock(v) && IsClock(w))
    else if key in FLOAT_FIELDS then v == w || (IsScore(v) && IsScore(w) && SameScore(v, w))
    else if IsPayload(key, v) && IsPayload(key, w) then |v.text| == |w.text|
    else Like(v, w, same)
  }

  /** The ids s of a and t of b are of one kind and have one number; other strings are the same. */
  function SameName(a: seq<string>, b: seq<string>): (string, string) -> bool {
    (s: string, t: string) =>
      if IdKind(s).Some? || IdKind(t).Some? then
        IdKind(s) == IdKind(t) && s in a && t in b && Index(IdKind, a, s) == Index(IdKind, b, t)
      else s == t
  }

  // ---------- rounding ----------

  /** Rounding finds the nearest thousandths, and there is just one such number. */
  lemma Round3IsNearest(x: real, n: int)
    ensures NearestThousandths(x, n) <==> Round3(x) == n as real / 1000.0
  {
    var k := Thousandths(x);
    forall m: int
      ensures FartherThousandths(x, k, m)
    {
      ThousandthsAreNearest(x, m);
    }
    if NearestThousandths(x, n) { assert FartherThousandths(x, n, k) && FartherThousandths(x, k, n); }
  }

  function Thousandths(x: real): (k: int)
    ensures Round3(x) == k as real / 1000.0
  {
    var y := x * 1000.0;
    if y - y.Floor as real > 0.5 || (y - y.Floor as real == 0.5 && y.Floor % 2 == 1) then y.Floor + 1 else y.Floor
  }

  lemma ThousandthsAreNearest(x: real, m: int)
    ensures FartherThousandths(x, Thousandths(x), m)
  {
  }

  /** So a score moves by half a thousandth at most. */
  lemma Round3IsNear(x: real)
    ensures -0.0005 <= Round3(x) - x <= 0.0005
  {}

  lemma SameScoreIs(v: Json, w: Json)
    requires IsScore(v) && IsScore(w)
    ensures SameScore(v, w) <==> Round3(Number(v)) == Round3(Number(w))
  {
    var n := Thousandths(Number(v));
    Round3IsNearest(Number(v), n);
    Round3IsNearest(Number(w), n);
    if SameScore(v, w) {
      var k: int :| NearestThousandths(Number(v), k) && NearestThousandths(Number(w), k);
      Round3IsNearest(Number(v), k);
      Round3IsNearest(Number(w), k);
    }
  }

  // ---------- equal canonical forms ----------

  lemma NamesEqual(a: seq<string>, b: seq<string>, s: string, t: string)
    requires s in a && t in b
    ensures IdName(a, s) == IdName(b, t) <==> SameName(a, b)(s, t)
  {
    IdKindIsOne(s);
    IdKindIsOne(t);
    if IdKind(s).Some? { NumberedIdKind(IdKind(s).value, Index(IdKind, a, s)); }
    if IdKind(t).Some? { NumberedIdKind(IdKind(t).value, Index(IdKind, b, t)); }
    if IdKind(s).Some? && IdKind(s) == IdKind(t) && IdName(a, s) == IdName(b, t) {
      NumberedIdInjective(IdKind(s).value, Index(IdKind, a, s), Index(IdKind, b, t));
    }
  }

  lemma {:induction false} NodesEqual(v: Json, w: Json, a: seq<string>, b: seq<string>)
    requires Within(Seen(v), a) && Within(Seen(w), b)
    ensures CanonNode(v, a) == CanonNode(w, b) <==> Like(v, w, SameName(a, b))
    decreases v, 0
  {
    match (v, w)
    case (Obj(keys, vs), Obj(others, ws)) =>
      var x, y := CanonNode(v, a), CanonNode(w, b);
      assert |x.values| == |vs| && |y.values| == |ws|;
      if keys == others && |vs| == |ws| {
        forall i | 0 <= i < |vs|
          ensures x.values[i] == y.values[i] <==> LikeField(KeyAt(keys, i), vs[i], ws[i], SameName(a, b))
        {
          forall s | s in SeenField(KeyAt(keys, i), vs[i]) { SeenInFields(keys, vs, i, s); }
          forall s | s in SeenField(KeyAt(keys, i), ws[i]) { SeenInFields(keys, ws, i, s); }
          FieldsEqual(KeyAt(keys, i), vs[i], ws[i], a, b);
        }
      }
    case (Arr(vs), Arr(ws)) =>
      var x, y := CanonNode(v, a), CanonNode(w, b);
      assert |x.items| == |vs| && |y.items| == |ws|;
      if |vs| == |ws| {
        forall i | 0 <= i < |vs|
          ensures x.items[i] == y.items[i] <==> Like(vs[i], ws[i], SameName(a, b))
        {
          forall s | s in Seen(vs[i]) { SeenInAll(vs, i, s); }
          forall s | s in Seen(ws[i]) { SeenInAll(ws, i, s); }
          NodesEqual(vs[i], ws[i], a, b);
        }
      }
    case (Str(s), Str(t)) => NamesEqual(a, b, s, t);
    case _ =>
  }

  lemma {:induction false} FieldsEqual(key: string, v: Json, w: Json, a: seq<string>, b: seq<string>)
    requires Within(SeenField(key, v), a) && Within(SeenField(key, w), b)
    ensures CanonField(key, v, a) == CanonField(key, w, b) <==> LikeField(key, v, w, SameName(a, b))
    decreases v, 1
  {
    if key in TS_FIELDS {
    } else if key in FLOAT_FIELDS {
      if IsScore(v) && IsScore(w) { SameScoreIs(v, w); }
    } else if v.Str? && w.Str? {
      TextsEqual(key, v.text, w.text, a, b);
    } else {
      NodesEqual(v, w, a, b);
    }
  }

  lemma TextsEqual(key: string, s: string, t: string, a: seq<string>, b: seq<string>)
    requires !Skipped(key) && s in a && t in b
    ensures CanonField(key, Str(s), a) == CanonField(key, Str(t), b) <==> LikeField(key, Str(s), Str(t), SameName(a, b))
  {
    NamesEqual(a, b, s, t);
    BytesIsNoId(|s|);
    BytesIsNoId(|t|);
    if Bytes(|s|) == Bytes(|t|) { BytesInjective(|s|, |t|); }
    if IdKind(s).Some? { NumberedIsId(a, s); }
    if IdKind(t).Some? { NumberedIsId(b, t); }
  }

  lemma NumberedIsId(all: seq<string>, s: string)
    requires s in all && IdKind(s).Some?
    ensures IdKind(IdName(all, s)).Some?
  {
    IdKindIsOne(s);
    NumberedIdKind(IdKind(s).value, Index(IdKind, all, s));
  }

  ghost predicate LikeEvent(v: Json, w: Json, same: (string, string) -> bool) {
    if v.Str? || w.Str? then v == w else Like(v, w, same)
  }

  ghost predicate LikeTrace(x: seq<Json>, y: seq<Json>, same: (string, string) -> bool) {
    |x| == |y| && forall i :: 0 <= i < |x| ==> LikeEvent(x[i], y[i], same)
  }

  /** Two traces have one canonical form exactly when they are alike event by event, with ids of one kind and number
      opposite each other and bare strings the same. */
  lemma TracesEqualIff(x: seq<Json>, y: seq<Json>)
    ensures CanonTrace(x) == CanonTrace(y) <==> LikeTrace(x, y, SameName(SeenAll(x), SeenAll(y)))
  {
    var a, b := SeenAll(x), SeenAll(y);
    if |x| == |y| {
      forall i | 0 <= i < |x|
        ensures CanonTrace(x)[i] == CanonTrace(y)[i] <==> LikeEvent(x[i], y[i], SameName(a, b))
      {
        forall s | s in Seen(x[i]) { SeenInAll(x, i, s); }
        forall s | s in Seen(y[i]) { SeenInAll(y, i, s); }
        NodesEqual(x[i], y[i], a, b);
      }
    }
  }

  // ---------- equal up to renaming ----------

  /** f changes ids one to one, each within its kind. */
  ghost predicate IsRenaming(f: map<string, string>) {
    && (forall s :: s in f ==> IdKind(s).Some? && IdKind(f[s]) == IdKind(s))
    && (forall s, t :: s in f && t in f && f[s] == f[t] ==> s == t)
  }

  function RenamedBy(f: map<string, string>): (string, string) -> bool {
    (s: string, t: string) => if IdKind(s).Some? then s in f && f[s] == t else s == t
  }

  /** Related, or both no ids, as audio payloads are. */
  function OrNoIds(same: (string, string) -> bool): (string, string) -> bool {
    (s: string, t: string) => same(s, t) || (IdKind(s).None? && IdKind(t).None?)
  }

  lemma {:induction false} LikeSeen(v: Json, w: Json, same: (string, string) -> bool)
    requires Like(v, w, same)
    ensures Pairwise(Seen(v), Seen(w), OrNoIds(same))
    decreases v, 0
  {
    match (v, w)
    case (Obj(keys, vs), Obj(_, ws)) => LikeFieldsSeen(keys, vs, ws, same);
    case (Arr(vs), Arr(ws)) => LikeItemsSeen(vs, ws, same);
    case _ =>
  }

  lemma {:induction false} LikeFieldSeen(key: string, v: Json, w: Json, same: (string, string) -> bool)
    requires LikeField(key, v, w, same)
    ensures Pairwise(SeenField(key, v), SeenField(key, w), OrNoIds(same))
    decreases v, 1
  {
    if !Skipped(key) && !(IsPayload(key, v) && IsPayload(key, w)) { LikeSeen(v, w, same); }
  }

  lemma {:induction false} LikeItemsSeen(vs: seq<Json>, ws: seq<Json>, same: (string, string) -> bool)
    requires |vs| == |ws| && forall i :: 0 <= i < |vs| ==> Like(vs[i], ws[i], same)
    ensures Pairwise(SeenAll(vs), SeenAll(ws), OrNoIds(same))
    decreases vs, 2
  {
    if vs != [] {
      var n := |vs| - 1;
      LikeItemsSeen(vs[..n], ws[..n], same);
      LikeSeen(vs[n], ws[n], same);
      PairwiseConcat(SeenAll(vs[..n]), SeenAll(ws[..n]), Seen(vs[n]), Seen(ws[n]), OrNoIds(same));
    }
  }

  lemma {:induction false} LikeFieldsSeen(keys: seq<string>, vs: seq<Json>, ws: seq<Json>, same: (string, string) -> bool)
    requires |vs| == |ws| && forall i :: 0 <= i < |vs| ==> LikeField(KeyAt(keys, i), vs[i], ws[i], same)
    ensures Pairwise(SeenFields(keys, vs), SeenFields(keys, ws), OrNoIds(same))
    decreases vs, 2
  {
    if vs != [] {
      var n := |vs| - 1;
      var key := KeyAt(keys, n);
      LikeFieldsSeen(keys, vs[..n], ws[..n], same);
      LikeFieldSeen(key, vs[n], ws[n], same);
      PairwiseConcat(SeenFields(keys, vs[..n]), SeenFields(keys, ws[..n]),
                     SeenField(key, vs[n]), SeenField(key, ws[n]), OrNoIds(same));
    }
  }

  ghost predicate Entails(a: seq<string>, b: seq<string>, same: (string, string) -> bool, other: (string, string) -> bool) {
    forall s, t :: s in a && t in b && same(s, t) ==> other(s, t)
  }

  lemma {:induction false} LikeEntails(v: Json, w: Json, a: seq<string>, b: seq<string>,
                                       same: (string, string) -> bool, other: (string, string) -> bool)
    requires Like(v, w, same) && Within(Seen(v), a) && Within(Seen(w), b) && Entails(a, b, same, other)
    ensures Like(v, w, other)
    decreases v, 0
  {
    match (v, w)
    case (Obj(keys, vs), Obj(_, ws)) =>
      forall i | 0 <= i < |vs|
        ensures LikeField(KeyAt(keys, i), vs[i], ws[i], other)
      {
        forall s | s in SeenField(KeyAt(keys, i), vs[i]) { SeenInFields(keys, vs, i, s); }
        forall s | s in SeenField(KeyAt(keys, i), ws[i]) { SeenInFields(keys, ws, i, s); }
        LikeFieldEntails(KeyAt(keys, i), vs[i], ws[i], a, b, same, other);
      }
    case (Arr(vs), Arr(ws)) =>
      forall i | 0 <= i < |vs|
        ensures Like(vs[i], ws[i], other)
      {
        forall s | s in Seen(vs[i]) { SeenInAll(vs, i, s); }
        forall s | s in Seen(ws[i]) { SeenInAll(ws, i, s); }
        LikeEntails(vs[i], ws[i], a, b, same, other);
      }
    case (Str(s), Str(t)) => assert s in Seen(v) && t in Seen(w);
    case _ =>
  }

  lemma {:induction false} LikeFieldEntails(key: string, v: Json, w: Json, a: seq<string>, b: seq<string>,
                                            same: (string, string) -> bool, other: (string, string) -> bool)
    requires LikeField(key, v, w, same)
    requires Within(SeenField(key, v), a) && Within(SeenField(key, w), b) && Entails(a, b, same, other)
    ensures LikeField(key, v, w, other)
    decreases v, 1
  {
    if !Skipped(key) && !(IsPayload(key, v) && IsPayload(key, w)) { LikeEntails(v, w, a, b, same, other); }
  }

  /** No event is a bare string. */
  predicate Contained(trace: seq<Json>) {
    forall i :: 0 <= i < |trace| ==> !trace[i].Str?
  }

  lemma TraceSeen(x: seq<Json>, y: seq<Json>, same: (string, string) -> bool)
    requires Contained(x) && Contained(y) && LikeTrace(x, y, same)
    ensures Pairwise(SeenAll(x), SeenAll(y), OrNoIds(same))
  {
    forall i | 0 <= i < |x| ensures Like(x[i], y[i], same) { assert LikeEvent(x[i], y[i], same); }
    LikeItemsSeen(x, y, same);
  }

  lemma TraceEntails(x: seq<Json>, y: seq<Json>, same: (string, string) -> bool, other: (string, string) -> bool)
    requires LikeTrace(x, y, same) && Entails(SeenAll(x), SeenAll(y), same, other)
    ensures LikeTrace(x, y, other)
  {
    forall i | 0 <= i < |x|
      ensures LikeEvent(x[i], y[i], other)
    {
      assert LikeEvent(x[i], y[i], same);
      forall s | s in Seen(x[i]) { SeenInAll(x, i, s); }
      forall s | s in Seen(y[i]) { SeenInAll(y, i, s); }
      if !x[i].Str? && !y[i].Str? { LikeEntails(x[i], y[i], SeenAll(x), SeenAll(y), same, other); }
    }
  }

  lemma SameNamesSamePattern(a: seq<string>, b: seq<string>)
    requires Pairwise(a, b, OrNoIds(SameName(a, b)))
    ensures SamePattern(IdKind, a, b)
  {
    forall i | 0 <= i < |a|
      ensures IdKind(a[i]) == IdKind(b[i])
      ensures IdKind(a[i]).Some? ==> Index(IdKind, a, a[i]) == Index(IdKind, b, b[i])
    {
      assert OrNoIds(SameName(a, b))(a[i], b[i]);
    }
    forall i, j | 0 <= i < |a| && 0 <= j < |a| && IdKind(a[i]).Some?
      ensures a[i] == a[j] <==> b[i] == b[j]
    {
      if IdKind(a[i]) == IdKind(a[j]) && Index(IdKind, a, a[i]) == Index(IdKind, a, a[j]) {
        IndexIsUnique(IdKind, a, a[i], a[j]);
        IndexIsUnique(IdKind, b, b[i], b[j]);
      }
    }
  }

  /** The renaming under which the ids of a stand opposite those of b. */
  function Opposite(a: seq<string>, b: seq<string>): map<string, string>
    requires |a| == |b|
  {
    map s | s in a && IdKind(s).Some? :: b[First(a, s)]
  }

  lemma OppositeRenames(a: seq<string>, b: seq<string>)
    requires SamePattern(IdKind, a, b)
    ensures IsRenaming(Opposite(a, b))
    ensures Entails(a, b, SameName(a, b), RenamedBy(Opposite(a, b)))
  {
    var f := Opposite(a, b);
    forall s, t | s in a && t in b && SameName(a, b)(s, t)
      ensures RenamedBy(f)(s, t)
    {
      if IdKind(s).Some? {
        RenamedSameIndex(IdKind, a, b, First(a, s));
        IndexIsUnique(IdKind, b, f[s], t);
      }
    }
  }

  lemma RenamedSamePattern(f: map<string, string>, a: seq<string>, b: seq<string>)
    requires IsRenaming(f) && Pairwise(a, b, OrNoIds(RenamedBy(f)))
    ensures SamePattern(IdKind, a, b)
    ensures Entails(a, b, RenamedBy(f), SameName(a, b))
  {
    forall i | 0 <= i < |a|
      ensures IdKind(a[i]) == IdKind(b[i]) && (IdKind(a[i]).Some? ==> a[i] in f && b[i] == f[a[i]])
    {
      assert OrNoIds(RenamedBy(f))(a[i], b[i]);
    }
    forall s, t | s in a && t in b && RenamedBy(f)(s, t)
      ensures SameName(a, b)(s, t)
    {
      if IdKind(s).Some? { RenamedSameIndex(IdKind, a, b, First(a, s)); }
    }
  }

  ghost predicate SameUpToRenaming(x: seq<Json>, y: seq<Json>) {
    exists f :: IsRenaming(f) && LikeTrace(x, y, RenamedBy(f))
  }

  /** Traces without bare strings have one canonical form exactly when, clocks, small differences of scores and what
      audio payloads say apart, a one-to-one renaming of ids within their kinds turns one into the other. */
  lemma EqualIffRenamed(x: seq<Json>, y: seq<Json>)
    requires Contained(x) && Contained(y)
    ensures CanonTrace(x) == CanonTrace(y) <==> SameUpToRenaming(x, y)
  {
    hide LikeTrace, CanonTrace;
    var a, b := SeenAll(x), SeenAll(y);
    TracesEqualIff(x, y);
    if LikeTrace(x, y, SameName(a, b)) {
      TraceSeen(x, y, SameName(a, b));
      SameNamesSamePattern(a, b);
      OppositeRenames(a, b);
      TraceEntails(x, y, SameName(a, b), RenamedBy(Opposite(a, b)));
    }
    if f :| IsRenaming(f) && LikeTrace(x, y, RenamedBy(f)) {
      TraceSeen(x, y, RenamedBy(f));
      RenamedSamePattern(f, a, b);
      TraceEntails(x, y, RenamedBy(f), SameName(a, b));
    }
  }

  // ---------- what a canonical trace holds ----------

  /** No clock that is met tells a time. */
  predicate ClocksAtZero(v: Json)
    decreases v, 0
  {
    match v
    case Obj(keys, values) => forall i :: 0 <= i < |values| ==> ClockAtZero(KeyAt(keys, i), values[i])
    case Arr(items) => forall i :: 0 <= i < |items| ==> ClocksAtZero(items[i])
    case _ => true
  }

  predicate ClockAtZero(key: string, v: Json)
    decreases v, 1
  {
    if key in TS_FIELDS then IsClock(v) ==> v.n == 0
    else Skipped(key) || ClocksAtZero(v)
  }

  lemma {:induction false} CanonicalClocks(v: Json, all: seq<string>)
    ensures ClocksAtZero(CanonNode(v, all))
    decreases v, 0
  {
    match v
    case Obj(keys, values) =>
      forall i | 0 <= i < |values|
        ensures ClockAtZero(KeyAt(keys, i), CanonField(KeyAt(keys, i), values[i], all))
      {
        CanonicalClock(KeyAt(keys, i), values[i], all);
      }
    case Arr(items) => forall i | 0 <= i < |items| { CanonicalClocks(items[i], all); }
    case _ =>
  }

  lemma {:induction false} CanonicalClock(key: string, v: Json, all: seq<string>)
    ensures ClockAtZero(key, CanonField(key, v, all))
    decreases v, 1
  {
    if !Skipped(key) && !v.Str? { CanonicalClocks(v, all); }
  }
}
