/** When canonicalising a canonical trace changes nothing. */
module TraceSettles {
  import opened Finite
  import opened Wrappers
  import opened Json
  import opened FirstAppearance
  import opened TraceCanonical

  // ---------- what the second pass sees ----------

  /** t is what the first pass, which looked up all, left of s in a container: a renumbered id, or again no id. */
  function Left(all: seq<string>): (string, string) -> bool {
    (s: string, t: string) => if IdKind(s).Some? then t == IdName(all, s) else IdKind(t).None?
  }

  lemma {:induction false} NodeSeenAgain(v: Json, all: seq<string>)
    requires Within(Seen(v), all)
    ensures Pairwise(Seen(v), Seen(CanonNode(v, all)), Left(all))
    decreases v, 0
  {
    match v
    case Obj(keys, values) =>
      FieldsSeenAgain(keys, values, CanonNode(v, all).values, all);
    case Arr(items) =>
      ItemsSeenAgain(items, CanonNode(v, all).items, all);
    case Str(text) =>
      assert text in [text];
    case _ =>
  }

  lemma {:induction false} FieldSeenAgain(key: string, v: Json, all: seq<string>)
    requires Within(SeenField(key, v), all)
    ensures Pairwise(SeenField(key, v), SeenField(key, CanonField(key, v, all)), Left(all))
    decreases v, 1
  {
    if !Skipped(key) {
      if v.Str? { BytesIsNoId(|v.text|); } else { NodeSeenAgain(v, all); }
    }
  }

  lemma {:induction false} ItemsSeenAgain(items: seq<Json>, out: seq<Json>, all: seq<string>)
    requires |out| == |items| && forall i :: 0 <= i < |items| ==> out[i] == CanonNode(items[i], all)
    requires Within(SeenAll(items), all)
    ensures Pairwise(SeenAll(items), SeenAll(out), Left(all))
    decreases items, 2
  {
    if items != [] {
      var n := |items| - 1;
      forall s | s in Seen(items[n]) { SeenInAll(items, n, s); }
      ItemsSeenAgain(items[..n], out[..n], all);
      NodeSeenAgain(items[n], all);
      PairwiseConcat(SeenAll(items[..n]), SeenAll(out[..n]), Seen(items[n]), Seen(out[n]), Left(all));
    }
  }

  lemma {:induction false} FieldsSeenAgain(keys: seq<string>, values: seq<Json>, out: seq<Json>, all: seq<string>)
    requires |out| == |values| && forall i :: 0 <= i < |values| ==> out[i] == CanonField(KeyAt(keys, i), values[i], all)
    requires Within(SeenFields(keys, values), all)
    ensures Pairwise(SeenFields(keys, values), SeenFields(keys, out), Left(all))
    decreases values, 2
  {
    if values != [] {
      var n := |values| - 1;
      var key := KeyAt(keys, n);
      forall s | s in SeenField(key, values[n]) { SeenInFields(keys, values, n, s); }
      FieldsSeenAgain(keys, values[..n], out[..n], all);
      FieldSeenAgain(key, values[n], all);
      PairwiseConcat(SeenFields(keys, values[..n]), SeenFields(keys, out[..n]),
                     SeenField(key, values[n]), SeenField(key, out[n]), Left(all));
    }
  }

  /** The new name of s has the same number in the second pass as s had in the first. */
  ghost predicate KeepsNumber(all: seq<string>, again: seq<string>, s: string)
    requires s in all && IdKind(s).Some?
  {
    && IdName(all, s) in again && IdKind(IdName(all, s)) == IdKind(s)
    && Index(IdKind, again, IdName(all, s)) == Index(IdKind, all, s)
  }

  lemma KeptNumberKeepsName(all: seq<string>, again: seq<string>, s: string)
    requires s in all && IdKind(s).Some? && IdName(all, s) in again
    ensures IdName(again, IdName(all, s)) == IdName(all, s) <==> KeepsNumber(all, again, s)
  {
    NameKind(all, s);
    if IdName(again, IdName(all, s)) == IdName(all, s) {
      NumberedIdInjective(IdKind(s).value, Index(IdKind, again, IdName(all, s)), Index(IdKind, all, s));
    }
  }

  lemma NameKind(all: seq<string>, s: string)
    requires s in all
    ensures IdKind(s).Some? ==> IdKind(IdName(all, s)) == IdKind(s)
  {
    if IdKind(s).Some? {
      IdKindIsOne(s);
      NumberedIdKind(IdKind(s).value, Index(IdKind, all, s));
    }
  }

  lemma NameDecides(all: seq<string>, s: string, t: string)
    requires s in all && t in all && IdKind(s).Some? && IdKind(s) == IdKind(t) && IdName(all, s) == IdName(all, t)
    ensures s == t
  {
    NumberedIdInjective(IdKind(s).value, Index(IdKind, all, s), Index(IdKind, all, t));
    IndexIsUnique(IdKind, all, s, t);
  }

  // ---------- the audio fields ----------

  /** Every plain string the canonicaliser meets directly under an audio key has 9 or 10 characters. */
  predicate AudioShort(v: Json)
    decreases v, 0
  {
    match v
    case Obj(keys, values) => forall i :: 0 <= i < |values| ==> AudioShortField(KeyAt(keys, i), values[i])
    case Arr(items) => forall i :: 0 <= i < |items| ==> AudioShort(items[i])
    case _ => true
  }

  predicate AudioShortField(key: string, v: Json)
    decreases v, 1
  {
    if Skipped(key) then true
    else if v.Str? then IdKind(v.text).None? && key in AUDIO_FIELDS ==> |v.text| == 9 || |v.text| == 10
    else AudioShort(v)
  }

  /** Every id among the strings keeps its new name in the second pass. */
  ghost predicate NamesKept(part: seq<string>, all: seq<string>, again: seq<string>) {
    forall s :: s in part && IdKind(s).Some? ==> IdName(again, IdName(all, s)) == IdName(all, s)
  }

  lemma NoneKept(all: seq<string>, again: seq<string>)
    ensures NamesKept([], all, again)
  {}

  lemma {:induction false} FieldsKept(keys: seq<string>, values: seq<Json>, all: seq<string>, again: seq<string>)
    ensures NamesKept(SeenFields(keys, values), all, again) <==>
            forall i :: 0 <= i < |values| ==> NamesKept(SeenField(KeyAt(keys, i), values[i]), all, again)
    decreases |values|
  {
    hide NamesKept, SeenField;
    NoneKept(all, again);
    if values != [] {
      var n := |values| - 1;
      FieldsKept(keys, values[..n], all, again);
      SeenFieldsGrow(keys, values, n);
      assert values[..n + 1] == values;
      assert forall i :: 0 <= i < n ==> values[..n][i] == values[i];
      ConcatKept(SeenFields(keys, values[..n]), SeenField(KeyAt(keys, n), values[n]), all, again);
    }
  }

  lemma {:induction false} ItemsKept(items: seq<Json>, all: seq<string>, again: seq<string>)
    ensures NamesKept(SeenAll(items), all, again) <==>
            forall i :: 0 <= i < |items| ==> NamesKept(Seen(items[i]), all, again)
    decreases |items|
  {
    hide NamesKept;
    NoneKept(all, again);
    if items != [] {
      var n := |items| - 1;
      ItemsKept(items[..n], all, again);
      assert forall i :: 0 <= i < n ==> items[..n][i] == items[i];
      ConcatKept(SeenAll(items[..n]), Seen(items[n]), all, again);
    }
  }

  lemma ConcatKept(a: seq<string>, b: seq<string>, all: seq<string>, again: seq<string>)
    ensures NamesKept(a + b, all, again) <==> NamesKept(a, all, again) && NamesKept(b, all, again)
  {
    assert forall s :: s in a + b <==> s in a || s in b;
  }

  lemma {:induction false} NodeSettles(v: Json, all: seq<string>, again: seq<string>)
    requires Within(Seen(v), all)
    ensures CanonNode(CanonNode(v, all), again) == CanonNode(v, all) <==> AudioShort(v) && NamesKept(Seen(v), all, again)
    decreases v, 0
  {
    match v
    case Obj(keys, values) =>
      var once, twice := CanonNode(v, all), CanonNode(CanonNode(v, all), again);
      FieldsKept(keys, values, all, again);
      forall i | 0 <= i < |values|
        ensures twice.values[i] == once.values[i] <==>
                AudioShortField(KeyAt(keys, i), values[i]) && NamesKept(SeenField(KeyAt(keys, i), values[i]), all, again)
      {
        forall s | s in SeenField(KeyAt(keys, i), values[i]) { SeenInFields(keys, values, i, s); }
        FieldSettles(KeyAt(keys, i), values[i], all, again);
      }
    case Arr(items) =>
      var once, twice := CanonNode(v, all), CanonNode(CanonNode(v, all), again);
      ItemsKept(items, all, again);
      forall i | 0 <= i < |items|
        ensures twice.items[i] == once.items[i] <==> AudioShort(items[i]) && NamesKept(Seen(items[i]), all, again)
      {
        forall s | s in Seen(items[i]) { SeenInAll(items, i, s); }
        NodeSettles(items[i], all, again);
      }
    case Str(text) =>
      TextSettles(text, all, again);
    case _ =>
  }

  lemma TextSettles(text: string, all: seq<string>, again: seq<string>)
    requires text in all
    ensures IdName(again, IdName(all, text)) == IdName(all, text) <==> NamesKept([text], all, again)
  {
    assert text in [text];
  }

  lemma {:induction false} FieldSettles(key: string, v: Json, all: seq<string>, again: seq<string>)
    requires Within(SeenField(key, v), all)
    ensures CanonField(key, CanonField(key, v, all), again) == CanonField(key, v, all) <==>
            AudioShortField(key, v) && NamesKept(SeenField(key, v), all, again)
    decreases v, 1
  {
    if key in FLOAT_FIELDS {
      if v.Int? { Round3Settles(v.n as real); }
      if v.Float? { Round3Settles(v.num); }
    } else if key !in TS_FIELDS {
      if v.Str? {
        TextFieldSettles(key, v.text, all, again);
      } else {
        NodeSettles(v, all, again);
      }
    }
  }

  lemma TextFieldSettles(key: string, text: string, all: seq<string>, again: seq<string>)
    requires !Skipped(key) && text in all
    ensures CanonField(key, CanonField(key, Str(text), all), again) == CanonField(key, Str(text), all) <==>
            AudioShortField(key, Str(text)) && NamesKept([text], all, again)
  {
    TextSettles(text, all, again);
    BytesIsNoId(|text|);
    BytesSettle(|text|);
    NameKind(all, text);
  }

  // ---------- idempotence ----------

  /** s is an id that some event other than a bare string holds. */
  ghost predicate InContainer(trace: seq<Json>, s: string) {
    IdKind(s).Some? && exists i :: 0 <= i < |trace| && HeldIn(trace[i], s)
  }

  predicate HeldIn(ev: Json, s: string) {
    !ev.Str? && s in Seen(ev)
  }

  lemma HeldIsSeen(trace: seq<Json>, i: nat, s: string)
    requires i < |trace| && HeldIn(trace[i], s)
    ensures s in SeenAll(trace)
    ensures IdKind(s).Some? ==> IdName(SeenAll(trace), s) in SeenAll(CanonTrace(trace))
  {
    var all, once := SeenAll(trace), CanonTrace(trace);
    SeenInAll(trace, i, s);
    if IdKind(s).Some? {
      forall t | t in Seen(trace[i]) { SeenInAll(trace, i, t); }
      NodeSeenAgain(trace[i], all);
      var m :| 0 <= m < |Seen(trace[i])| && Seen(trace[i])[m] == s;
      assert Left(all)(s, Seen(once[i])[m]);
      SeenInAll(once, i, IdName(all, s));
    }
  }

  predicate AudioShortThroughout(trace: seq<Json>) {
    forall i :: 0 <= i < |trace| ==> AudioShort(trace[i])
  }

  /** Every id in a container gets its number again from the second pass. */
  ghost predicate NumbersStay(trace: seq<Json>) {
    var all, again := SeenAll(trace), SeenAll(CanonTrace(trace));
    forall s :: InContainer(trace, s) ==> s in all && KeepsNumber(all, again, s)
  }

  /** Canonicalising again changes nothing exactly when every plain audio string has 9 or 10 characters, so that the
      text standing for it is as long as it says, and the second pass gives every id its number again. */
  lemma CanonTraceSettles(trace: seq<Json>)
    ensures CanonTrace(CanonTrace(trace)) == CanonTrace(trace) <==> AudioShortThroughout(trace) && NumbersStay(trace)
  {
    var once := CanonTrace(trace);
    var all, again := SeenAll(trace), SeenAll(once);
    forall i | 0 <= i < |trace|
      ensures CanonTrace(once)[i] == once[i] <==> AudioShort(trace[i]) && EventKept(trace[i], all, again)
    {
      forall s | s in Seen(trace[i]) { SeenInAll(trace, i, s); }
      if !trace[i].Str? { NodeSettles(trace[i], all, again); }
    }
    forall s | InContainer(trace, s)
      ensures s in all && (IdName(again, IdName(all, s)) == IdName(all, s) <==> KeepsNumber(all, again, s))
    {
      var i :| 0 <= i < |trace| && HeldIn(trace[i], s);
      HeldIsSeen(trace, i, s);
      KeptNumberKeepsName(all, again, s);
    }
    EventsKept(trace, all, again);
  }

  ghost predicate EventKept(ev: Json, all: seq<string>, again: seq<string>) {
    ev.Str? || NamesKept(Seen(ev), all, again)
  }

  lemma EventsKept(trace: seq<Json>, all: seq<string>, again: seq<string>)
    ensures (forall i :: 0 <= i < |trace| ==> EventKept(trace[i], all, again)) <==>
            forall s :: InContainer(trace, s) ==> IdName(again, IdName(all, s)) == IdName(all, s)
  {
    if forall i :: 0 <= i < |trace| ==> EventKept(trace[i], all, again) {
      forall s | InContainer(trace, s)
        ensures IdName(again, IdName(all, s)) == IdName(all, s)
      {
        var i :| 0 <= i < |trace| && HeldIn(trace[i], s);
        assert EventKept(trace[i], all, again);
      }
    }
    if forall s :: InContainer(trace, s) ==> IdName(again, IdName(all, s)) == IdName(all, s) {
      forall i | 0 <= i < |trace|
        ensures EventKept(trace[i], all, again)
      {
        forall s | HeldIn(trace[i], s) && IdKind(s).Some?
          ensures IdName(again, IdName(all, s)) == IdName(all, s)
        {
          assert InContainer(trace, s);
        }
      }
    }
  }

  // ---------- where ids stand ----------

  /** For each string looked up, whether it is an event of its own. */
  function Bare(trace: seq<Json>): (bare: seq<bool>)
    ensures |bare| == |SeenAll(trace)|
  {
    if trace == [] then []
    else
      var n := |trace| - 1;
      Bare(trace[..n]) + seq(|Seen(trace[n])|, _ => trace[n].Str?)
  }

  /** again is what the second pass looks up: bare strings as they were, the others as the first pass left them. */
  ghost predicate LookedUpAgain(all: seq<string>, bare: seq<bool>, again: seq<string>) {
    && |all| == |bare| == |again|
    && (forall i :: 0 <= i < |all| ==> if bare[i] then again[i] == all[i] else Left(all)(all[i], again[i]))
  }

  lemma {:induction false} EventsSeenAgain(trace: seq<Json>, out: seq<Json>, all: seq<string>)
    requires |out| == |trace| && forall i :: 0 <= i < |trace| ==> out[i] == CanonEvent(trace[i], all)
    requires Within(SeenAll(trace), all)
    ensures |SeenAll(out)| == |SeenAll(trace)|
    ensures forall i :: 0 <= i < |SeenAll(trace)| ==>
              if Bare(trace)[i] then SeenAll(out)[i] == SeenAll(trace)[i] else Left(all)(SeenAll(trace)[i], SeenAll(out)[i])
  {
    if trace != [] {
      var n := |trace| - 1;
      EventsSeenAgain(trace[..n], out[..n], all);
      if !trace[n].Str? { NodeSeenAgain(trace[n], all); }
    }
  }

  /** s stands at i, as an event of its own or in a container. */
  predicate StandsAt(all: seq<string>, bare: seq<bool>, i: int, s: string, alone: bool)
    requires |all| == |bare|
  {
    0 <= i < |all| && all[i] == s && bare[i] == alone
  }

  ghost predicate StandsBefore(all: seq<string>, bare: seq<bool>, p: int, s: string, alone: bool)
    requires |all| == |bare|
  {
    exists i :: i < p && StandsAt(all, bare, i, s, alone)
  }

  /** At p the id s first stands in a container. */
  ghost predicate FirstHeld(all: seq<string>, bare: seq<bool>, p: int, s: string)
    requires |all| == |bare|
  {
    IdKind(s).Some? && StandsAt(all, bare, p, s, false) && !StandsBefore(all, bare, p, s, false)
  }

  /** Before p, s has not stood bare, and no id of its kind has stood both bare and in a container. */
  ghost predicate Undisturbed(all: seq<string>, bare: seq<bool>, p: int, s: string)
    requires |all| == |bare|
  {
    && !StandsBefore(all, bare, p, s, true)
    && (forall t :: IdKind(t) == IdKind(s) ==> !(StandsBefore(all, bare, p, t, true) && StandsBefore(all, bare, p, t, false)))
  }

  /** No id that stands bare is of the form the canonicaliser writes. */
  ghost predicate Unnumbered(all: seq<string>, bare: seq<bool>)
    requires |all| == |bare|
  {
    forall i :: 0 <= i < |all| && bare[i] ==> PlainId(all[i])
  }

  ghost predicate PlainId(s: string) {
    IdKind(s).Some? ==> forall n: nat :: s != NumberedId(IdKind(s).value, n)
  }

  /** The ids of kind k that stand bare, or in containers, among the first p. */
  function Standing(all: seq<string>, bare: seq<bool>, p: nat, k: string, alone: bool): set<string>
    requires |all| == |bare| && p <= |all|
  {
    set i | 0 <= i < p && bare[i] == alone && IdKind(all[i]) == Some(k) :: all[i]
  }

  /** The new names of some ids. */
  ghost function NamesOf(all: seq<string>, ids: set<string>): set<string> {
    set s | s in ids :: IdName(all, s)
  }

  lemma {:induction false} NamesOfCount(all: seq<string>, ids: set<string>, k: string)
    requires forall s :: s in ids ==> s in all && IdKind(s) == Some(k)
    ensures |NamesOf(all, ids)| == |ids|
    decreases ids
  {
    hide IdName, IdKind;
    if ids != {} {
      var s :| s in ids;
      NamesOfCount(all, ids - {s}, k);
      assert NamesOf(all, ids) == NamesOf(all, ids - {s}) + {IdName(all, s)};
      if IdName(all, s) in NamesOf(all, ids - {s}) {
        var t :| t in ids - {s} && IdName(all, t) == IdName(all, s);
        NameDecides(all, s, t);
      }
    }
  }

  lemma NameIsNumbered(all: seq<string>, s: string)
    requires s in all && IdKind(s).Some?
    ensures IdName(all, s) == NumberedId(IdKind(s).value, Index(IdKind, all, s)) && IdKind(IdName(all, s)) == IdKind(s)
  {
    NameKind(all, s);
  }

  /** Among the first p lookups of the second pass, the ids of kind k are those that stood bare and the new names
      of those that stood in containers. */
  lemma PeersAgain(all: seq<string>, bare: seq<bool>, again: seq<string>, p: nat, k: string)
    requires LookedUpAgain(all, bare, again) && p <= |all|
    ensures Peers(IdKind, again[..p], k) == Standing(all, bare, p, k, true) + NamesOf(all, Standing(all, bare, p, k, false))
  {
    forall i | 0 <= i < |all| { NameKind(all, all[i]); }
    var held := Standing(all, bare, p, k, false);
    forall t | t in Peers(IdKind, again[..p], k)
      ensures t in Standing(all, bare, p, k, true) + NamesOf(all, held)
    {
      var i :| 0 <= i < p && again[i] == t;
      if !bare[i] { assert Left(all)(all[i], again[i]) && all[i] in held; }
    }
    forall t | t in NamesOf(all, held)
      ensures t in again[..p] && IdKind(t) == Some(k)
    {
      var s :| s in held && IdName(all, s) == t;
      var i :| 0 <= i < p && !bare[i] && all[i] == s;
      assert Left(all)(all[i], again[i]) && again[..p][i] == t;
    }
    forall t | t in Standing(all, bare, p, k, true)
      ensures t in again[..p]
    {
      var i :| 0 <= i < p && bare[i] && all[i] == t;
      assert again[..p][i] == t;
    }
  }

  lemma PeersStand(all: seq<string>, bare: seq<bool>, p: nat, k: string)
    requires |all| == |bare| && p <= |all|
    ensures Peers(IdKind, all[..p], k) == Standing(all, bare, p, k, true) + Standing(all, bare, p, k, false)
  {
    forall s | s in Peers(IdKind, all[..p], k)
      ensures s in Standing(all, bare, p, k, true) + Standing(all, bare, p, k, false)
    {
      var i :| 0 <= i < p && all[..p][i] == s;
      assert all[i] in Standing(all, bare, p, k, bare[i]);
    }
    forall s | s in Standing(all, bare, p, k, true) + Standing(all, bare, p, k, false)
      ensures s in all[..p]
    {
      var i :| 0 <= i < p && all[i] == s;
      assert all[..p][i] == s;
    }
  }

  /** So, with the bare ids unnumbered, as many as stood bare and stood in containers, counted apart. */
  lemma CountAgain(all: seq<string>, bare: seq<bool>, again: seq<string>, p: nat, k: string)
    requires LookedUpAgain(all, bare, again) && Unnumbered(all, bare) && p <= |all|
    ensures |Peers(IdKind, again[..p], k)| ==
            |Standing(all, bare, p, k, true)| + |Standing(all, bare, p, k, false)|
  {
    var alone, held := Standing(all, bare, p, k, true), Standing(all, bare, p, k, false);
    PeersAgain(all, bare, again, p, k);
    NamesOfCount(all, held, k);
    forall t | t in NamesOf(all, held)
      ensures t !in alone
    {
      var s :| s in held && IdName(all, s) == t;
      NameIsNumbered(all, s);
      assert !PlainId(t);
    }
    assert alone !! NamesOf(all, held);
  }

  /** The new name of s is first looked up where s first stands in a container. */
  lemma FirstLookedUp(all: seq<string>, bare: seq<bool>, again: seq<string>, p: nat, s: string)
    requires LookedUpAgain(all, bare, again) && Unnumbered(all, bare) && FirstHeld(all, bare, p, s)
    ensures IdName(all, s) in again && First(again, IdName(all, s)) == p
  {
    assert s in all && Left(all)(all[p], again[p]);
    NameIsNumbered(all, s);
    forall j | 0 <= j < p
      ensures again[j] != IdName(all, s)
    {
      if bare[j] {
        assert PlainId(all[j]);
      } else {
        assert Left(all)(all[j], again[j]) && !StandsAt(all, bare, j, s, false);
        NameKind(all, all[j]);
        if again[j] == IdName(all, s) { NameDecides(all, all[j], s); }
      }
    }
    FirstIs(again, IdName(all, s), p);
  }

  lemma StandingMeans(all: seq<string>, bare: seq<bool>, p: nat, t: string, alone: bool)
    requires |all| == |bare| && p <= |all| && IdKind(t).Some?
    ensures t in Standing(all, bare, p, IdKind(t).value, alone) <==> StandsBefore(all, bare, p, t, alone)
  {
    if StandsBefore(all, bare, p, t, alone) {
      var i :| i < p && StandsAt(all, bare, i, t, alone);
      assert all[i] in Standing(all, bare, p, IdKind(t).value, alone);
    }
    if t in Standing(all, bare, p, IdKind(t).value, alone) {
      var i :| 0 <= i < p && bare[i] == alone && all[i] == t;
      assert StandsAt(all, bare, i, t, alone);
    }
  }

  lemma UndisturbedMeans(all: seq<string>, bare: seq<bool>, p: nat, s: string)
    requires |all| == |bare| && p <= |all| && IdKind(s).Some?
    ensures var k := IdKind(s).value;
            Undisturbed(all, bare, p, s) <==>
              s !in Standing(all, bare, p, k, true) && Standing(all, bare, p, k, true) !! Standing(all, bare, p, k, false)
  {
    var k := IdKind(s).value;
    StandingMeans(all, bare, p, s, true);
    forall t | IdKind(t) == IdKind(s)
      ensures t in Standing(all, bare, p, k, true) <==> StandsBefore(all, bare, p, t, true)
      ensures t in Standing(all, bare, p, k, false) <==> StandsBefore(all, bare, p, t, false)
    {
      StandingMeans(all, bare, p, t, true);
      StandingMeans(all, bare, p, t, false);
    }
  }

  /** An id first held at p keeps its number exactly when it is undisturbed there. */
  lemma NumberKept(all: seq<string>, bare: seq<bool>, again: seq<string>, p: nat, s: string)
    requires LookedUpAgain(all, bare, again) && Unnumbered(all, bare) && FirstHeld(all, bare, p, s)
    ensures s in all && (KeepsNumber(all, again, s) <==> Undisturbed(all, bare, p, s))
  {
    var k := IdKind(s).value;
    var alone, held := Standing(all, bare, p, k, true), Standing(all, bare, p, k, false);
    assert all[p] == s;
    NameKind(all, s);
    FirstLookedUp(all, bare, again, p, s);
    CountAgain(all, bare, again, p, k);
    UndisturbedMeans(all, bare, p, s);
    FirstNumber(all, bare, p, s);
    assert Index(IdKind, again, IdName(all, s)) == |alone| + |held|;
    UnionCount(alone, held);
  }

  lemma UnionCount<T>(a: set<T>, b: set<T>)
    ensures |a + b| + |a * b| == |a| + |b|
    ensures a * b == {} <==> a !! b
  {
    assert a + b == a + (b - a) && b == (b - a) + a * b;
  }

  /** The first number of s counts the ids before p once each, unless s stood bare, when it counts fewer. */
  lemma FirstNumber(all: seq<string>, bare: seq<bool>, p: nat, s: string)
    requires |all| == |bare| && FirstHeld(all, bare, p, s) && s in all
    ensures var k := IdKind(s).value;
            var before := Standing(all, bare, p, k, true) + Standing(all, bare, p, k, false);
            if s in Standing(all, bare, p, k, true) then Index(IdKind, all, s) < |before|
            else Index(IdKind, all, s) == |before|
  {
    var k, f := IdKind(s).value, First(all, s);
    PeersStand(all, bare, p, k);
    StandingMeans(all, bare, p, s, true);
    if s in Standing(all, bare, p, k, true) {
      var i :| i < p && StandsAt(all, bare, i, s, true);
      assert f <= i;
      var early, before := Peers(IdKind, all[..f], k), Peers(IdKind, all[..p], k);
      assert all[..p][..f] == all[..f];
      assert s in before && s !in early;
      SubsetSize(early, before);
    } else {
      forall j | 0 <= j < p
        ensures all[j] != s
      {
        assert !StandsAt(all, bare, j, s, bare[j]);
      }
      FirstIs(all, s, p);
    }
  }

  // ---------- the trace ----------

  lemma {:induction false} HeldStands(trace: seq<Json>, s: string) returns (p: nat)
    requires IdKind(s).Some?
    ensures InContainer(trace, s) ==> p < |SeenAll(trace)| && StandsAt(SeenAll(trace), Bare(trace), p, s, false)
    ensures !InContainer(trace, s) ==> forall i :: !StandsAt(SeenAll(trace), Bare(trace), i, s, false)
  {
    hide InContainer, Seen, IdKind;
    p := 0;
    if trace == [] {
      assert !InContainer(trace, s) by { NothingHeld(s); }
    } else {
      var n := |trace| - 1;
      var q := HeldStands(trace[..n], s);
      HeldNext(trace, s);
      var m := |SeenAll(trace[..n])|;
      if HeldIn(trace[n], s) {
        var i :| 0 <= i < |Seen(trace[n])| && Seen(trace[n])[i] == s;
        p := m + i;
      } else if InContainer(trace[..n], s) {
        p := q;
      } else {
        forall i
          ensures !StandsAt(SeenAll(trace), Bare(trace), i, s, false)
        {
          if i < m { assert !StandsAt(SeenAll(trace[..n]), Bare(trace[..n]), i, s, false); }
        }
      }
    }
  }

  lemma NothingHeld(s: string)
    ensures !InContainer([], s)
  {}

  lemma HeldNext(trace: seq<Json>, s: string)
    requires trace != [] && IdKind(s).Some?
    ensures InContainer(trace, s) <==> InContainer(trace[..|trace| - 1], s) || HeldIn(trace[|trace| - 1], s)
  {
    var n := |trace| - 1;
    assert forall i :: 0 <= i < n ==> trace[..n][i] == trace[i];
  }

  lemma {:induction false} FirstHeldAt(all: seq<string>, bare: seq<bool>, q: nat, s: string) returns (p: nat)
    requires |all| == |bare| && IdKind(s).Some? && StandsAt(all, bare, q, s, false)
    ensures FirstHeld(all, bare, p, s)
  {
    p := q;
    if i :| i < q && StandsAt(all, bare, i, s, false) {
      p := FirstHeldAt(all, bare, i, s);
    }
  }

  /** Every id is undisturbed where it first stands in a container. */
  ghost predicate UndisturbedThroughout(trace: seq<Json>) {
    forall p, s :: FirstHeld(SeenAll(trace), Bare(trace), p, s) ==> Undisturbed(SeenAll(trace), Bare(trace), p, s)
  }

  /** Where bare ids are not of the numbered form, canonicalising again changes nothing exactly when the audio
      strings are short and every id is undisturbed where it first stands in a container. */
  lemma CanonTraceSettlesIff(trace: seq<Json>)
    requires Unnumbered(SeenAll(trace), Bare(trace))
    ensures CanonTrace(CanonTrace(trace)) == CanonTrace(trace) <==>
            AudioShortThroughout(trace) && UndisturbedThroughout(trace)
  {
    CanonTraceSettles(trace);
    NumbersKeptIff(trace);
  }

  lemma NumbersKeptIff(trace: seq<Json>)
    requires Unnumbered(SeenAll(trace), Bare(trace))
    ensures NumbersStay(trace) <==> UndisturbedThroughout(trace)
  {
    hide CanonTrace, SeenAll, Bare, Unnumbered, HeldIn, StandsAt, StandsBefore, Undisturbed;
    var all, bare, again := SeenAll(trace), Bare(trace), SeenAll(CanonTrace(trace));
    forall p, s | FirstHeld(all, bare, p, s)
      ensures InContainer(trace, s) && s in all && (KeepsNumber(all, again, s) <==> Undisturbed(all, bare, p, s))
    {
      FirstHeldSettles(trace, p, s);
    }
    forall s | InContainer(trace, s)
      ensures exists p :: FirstHeld(all, bare, p, s)
    {
      var p := FirstHeldOf(trace, s);
    }
  }

  lemma FirstHeldSettles(trace: seq<Json>, p: int, s: string)
    requires Unnumbered(SeenAll(trace), Bare(trace)) && FirstHeld(SeenAll(trace), Bare(trace), p, s)
    ensures var all, again := SeenAll(trace), SeenAll(CanonTrace(trace));
            && InContainer(trace, s) && s in all
            && (KeepsNumber(all, again, s) <==> Undisturbed(all, Bare(trace), p, s))
  {
    hide Undisturbed, KeepsNumber;
    var all, once := SeenAll(trace), CanonTrace(trace);
    forall i | 0 <= i < |trace|
      ensures Within(Seen(trace[i]), all)
    {
      forall t | t in Seen(trace[i]) { SeenInAll(trace, i, t); }
    }
    EventsSeenAgain(trace, once, all);
    var _ := HeldStands(trace, s);
    NumberKept(all, Bare(trace), SeenAll(once), p, s);
  }

  lemma FirstHeldOf(trace: seq<Json>, s: string) returns (p: nat)
    requires InContainer(trace, s)
    ensures FirstHeld(SeenAll(trace), Bare(trace), p, s)
  {
    var q := HeldStands(trace, s);
    p := FirstHeldAt(SeenAll(trace), Bare(trace), q, s);
  }

  /** No bare id occurs in a container, and none is of the form the canonicaliser writes. */
  ghost predicate BareIdsApart(trace: seq<Json>) {
    && Unnumbered(SeenAll(trace), Bare(trace))
    && forall i :: 0 <= i < |trace| && trace[i].Str? ==> !InContainer(trace, trace[i].text)
  }

  lemma {:induction false} BareIsEvent(trace: seq<Json>, p: int, s: string) returns (i: nat)
    requires StandsAt(SeenAll(trace), Bare(trace), p, s, true)
    ensures i < |trace| && trace[i] == Str(s)
  {
    var n := |trace| - 1;
    if p < |SeenAll(trace[..n])| {
      i := BareIsEvent(trace[..n], p, s);
    } else {
      i := n;
    }
  }

  /** With the bare ids apart -- with none at all, say -- only the audio strings matter. */
  lemma BareIdsApartSettle(trace: seq<Json>)
    requires BareIdsApart(trace)
    ensures CanonTrace(CanonTrace(trace)) == CanonTrace(trace) <==> AudioShortThroughout(trace)
  {
    var all, bare := SeenAll(trace), Bare(trace);
    CanonTraceSettlesIff(trace);
    forall p, s | StandsAt(all, bare, p, s, true) && IdKind(s).Some?
      ensures forall q :: !StandsAt(all, bare, q, s, false)
    {
      var i := BareIsEvent(trace, p, s);
      var _ := HeldStands(trace, s);
    }
    forall p, s | FirstHeld(all, bare, p, s)
      ensures Undisturbed(all, bare, p, s)
    {
    }
  }

  /** A bare id before its own first container loses that container its number, unless it is the
      canonical first id already. */
  lemma BareIdShiftsNumbers(s: string)
    requires IdKind(s).Some?
    ensures var trace, first := [Str(s), Arr([Str(s)])], NumberedId(IdKind(s).value, 0);
            && CanonTrace(trace) == [Str(s), Arr([Str(first)])]
            && (CanonTrace(CanonTrace(trace)) == CanonTrace(trace) <==> s == first)
  {
    var p := IdKind(s).value;
    var first := NumberedId(p, 0);
    PairTrace(s, s);
    PairTrace(s, first);
    IdKindIsOne(s);
    NumberedIdKind(p, 0);
    assert First([s, s], s) == 0 && [s, s][..0] == [];
    assert Peers(IdKind, [], p) == {};
    if s != first {
      FirstIs([s, first], first, 1);
      assert [s, first][..1] == [s];
      assert Peers(IdKind, [s], p) == {s};
      if NumberedId(p, 1) == first { NumberedIdInjective(p, 1, 0); }
    }
  }

  lemma PairTrace(s: string, t: string)
    ensures CanonTrace([Str(s), Arr([Str(t)])]) == [Str(s), Arr([Str(IdName([s, t], t))])]
  {
    var trace := [Str(s), Arr([Str(t)])];
    SeenAllGrow(trace, 0);
    SeenAllGrow(trace, 1);
    SeenAllGrow([Str(t)], 0);
    assert trace[..2] == trace && [Str(t)][..1] == [Str(t)];
    assert SeenAll(trace) == [s, t];
    assert CanonNode(Arr([Str(t)]), [s, t]) == Arr([CanonNode(Str(t), [s, t])]);
  }
}
