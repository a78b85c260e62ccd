/** Canonical traces for replay comparison: ids numbered by first appearance, clocks zeroed, scores rounded,
    audio payloads reduced to their length. */
module TraceCanonical {
  import opened Wrappers
  import opened Json
  import opened FirstAppearance
  import opened Decimal

  const TS_FIELDS := {"ts_ms", "created_at", "audio_start_ms", "audio_end_ms"}
  const FLOAT_FIELDS := {"score", "eou.score", "eou.eager_score", "eou.threshold", "vad.probability"}
  const AUDIO_FIELDS := {"audio", "data"}

  function IdKind(s: string): Option<string> {
    if "sess_" <= s then Some("sess")
    else if "item_" <= s then Some("item")
    else if "resp_" <= s then Some("resp")
    else if "evt_" <= s then Some("evt")
    else None
  }

  function NumberedId(kind: string, idx: nat): string {
    kind + "_" + Numeral(idx + 1)
  }

  const KINDS := {"sess", "item", "resp", "evt"}

  lemma IdKindIsOne(s: string)
    ensures IdKind(s).Some? ==> IdKind(s).value in KINDS
  {}

  /** The canonical id is an id of the same kind. */
  lemma NumberedIdKind(kind: string, idx: nat)
    requires kind in KINDS
    ensures IdKind(NumberedId(kind, idx)) == Some(kind)
  {
    assert kind + "_" <= NumberedId(kind, idx);
    assert NumberedId(kind, idx)[0] == kind[0];
  }

  lemma NumberedIdInjective(kind: string, i: nat, j: nat)
    requires NumberedId(kind, i) == NumberedId(kind, j)
    ensures i == j
  {
    var k := |kind| + 1;
    assert NumberedId(kind, i)[k..] == Numeral(i + 1) && NumberedId(kind, j)[k..] == Numeral(j + 1);
    NumeralInjective(i + 1, j + 1);
  }

  function IdName(all: seq<string>, s: string): string {
    NameOf(IdKind, NumberedId, all, s)
  }

  // ---------- the other fields ----------

  /** Round half to even, to three decimals. */
  function Round3(x: real): real {
    var y := x * 1000.0;
    var f := y.Floor;
    var up := y - f as real > 0.5 || (y - f as real == 0.5 && f % 2 == 1);
    (if up then f + 1 else f) as real / 1000.0
  }

  lemma Round3Settles(x: real)
    ensures Round3(Round3(x)) == Round3(x)
  {
    var r := Round3(x);
    var n := (r * 1000.0).Floor;
    assert r * 1000.0 == n as real;
  }

  function Bytes(n: nat): string {
    "<" + Numeral(n) + " bytes>"
  }

  lemma BytesIsNoId(n: nat)
    ensures IdKind(Bytes(n)) == None
  {
    assert Bytes(n)[0] == '<';
  }

  lemma BytesInjective(m: nat, n: nat)
    requires Bytes(m) == Bytes(n)
    ensures m == n
  {
    assert Bytes(m)[1..1 + |Numeral(m)|] == Numeral(m) && |Bytes(m)| == |Numeral(m)| + 8;
    assert Bytes(n)[1..1 + |Numeral(n)|] == Numeral(n) && |Bytes(n)| == |Numeral(n)| + 8;
    NumeralInjective(m, n);
  }

  lemma {:induction false} NumeralLength(n: nat)
    ensures |Numeral(n)| == 1 <==> n < 10
    ensures |Numeral(n)| == 2 <==> 10 <= n < 100
    ensures n >= 11 ==> |Numeral(n)| + 8 < n
  {
    if n >= 10 {
      NumeralLength(n / 10);
    }
  }

  /** A byte count describes itself exactly when it is 9 or 10. */
  lemma BytesSettle(n: nat)
    ensures Bytes(|Bytes(n)|) == Bytes(n) <==> n == 9 || n == 10
  {
    NumeralLength(n);
    assert |Bytes(n)| == |Numeral(n)| + 8;
    if Bytes(|Bytes(n)|) == Bytes(n) { BytesInjective(|Bytes(n)|, n); }
  }

  // ---------- the canonical form, outright ----------

  function KeyAt(keys: seq<string>, i: nat): string {
    if i < |keys| then keys[i] else ""
  }

  predicate Skipped(key: string) {
    key in TS_FIELDS || key in FLOAT_FIELDS
  }

  /** The strings looked up as ids, in reading order. */
  function Seen(v: Json): seq<string> {
    match v
    case Obj(keys, values) => SeenFields(keys, values)
    case Arr(items) => SeenAll(items)
    case Str(text) => [text]
    case _ => []
  }

  function SeenAll(items: seq<Json>): seq<string> {
    if items == [] then [] else SeenAll(items[..|items| - 1]) + Seen(items[|items| - 1])
  }

  function SeenFields(keys: seq<string>, values: seq<Json>): seq<string>
    decreases values
  {
    if values == [] then []
    else
      var n := |values| - 1;
      SeenFields(keys, values[..n]) + if Skipped(KeyAt(keys, n)) then [] else Seen(values[n])
  }

  function SeenField(key: string, v: Json): seq<string> {
    if Skipped(key) then [] else Seen(v)
  }

  function CanonField(key: string, v: Json, all: seq<string>): Json
    decreases v, 1
  {
    if key in TS_FIELDS then (if v.Int? && v.n >= 0 then Int(0) else v)
    else if key in FLOAT_FIELDS then
      match v
      case Int(n) => Float(Round3(n as real))
      case Float(r) => Float(Round3(r))
      case _ => v
    else if v.Str? then
      if IdKind(v.text).Some? then Str(IdName(all, v.text))
      else if key in AUDIO_FIELDS then Str(Bytes(|v.text|))
      else v
    else CanonNode(v, all)
  }

  function CanonNode(v: Json, all: seq<string>): Json
    decreases v, 0
  {
    match v
    case Obj(keys, values) =>
      Obj(keys, seq(|values|, i requires 0 <= i < |values| => CanonField(KeyAt(keys, i), values[i], all)))
    case Arr(items) => Arr(seq(|items|, i requires 0 <= i < |items| => CanonNode(items[i], all)))
    case Str(text) => Str(IdName(all, text))
    case _ => v
  }

  /** A bare string event is counted but, its new name being thrown away, not changed. */
  function CanonEvent(ev: Json, all: seq<string>): Json {
    if ev.Str? then ev else CanonNode(ev, all)
  }

  function CanonTrace(trace: seq<Json>): (out: seq<Json>)
    ensures |out| == |trace|
  {
    seq(|trace|, i requires 0 <= i < |trace| => CanonEvent(trace[i], SeenAll(trace)))
  }

  // ---------- later strings change nothing ----------

  lemma SeenAllGrow(items: seq<Json>, i: nat)
    requires i < |items|
    ensures SeenAll(items[..i + 1]) == SeenAll(items[..i]) + Seen(items[i])
  {
    assert items[..i + 1][..i] == items[..i];
  }

  lemma SeenFieldsGrow(keys: seq<string>, values: seq<Json>, i: nat)
    requires i < |values|
    ensures SeenFields(keys, values[..i + 1]) == SeenFields(keys, values[..i]) + SeenField(KeyAt(keys, i), values[i])
  {
    assert values[..i + 1][..i] == values[..i];
  }

  lemma {:induction false} SeenInAll(items: seq<Json>, i: nat, s: string)
    requires i < |items| && s in Seen(items[i])
    ensures s in SeenAll(items)
    decreases |items|
  {
    if i < |items| - 1 { SeenInAll(items[..|items| - 1], i, s); }
  }

  lemma {:induction false} SeenInFields(keys: seq<string>, values: seq<Json>, i: nat, s: string)
    requires i < |values| && s in SeenField(KeyAt(keys, i), values[i])
    ensures s in SeenFields(keys, values)
    decreases |values|
  {
    if i < |values| - 1 { SeenInFields(keys, values[..|values| - 1], i, s); }
  }

  predicate Within(part: seq<string>, all: seq<string>) {
    forall s :: s in part ==> s in all
  }

  lemma {:induction false} NodeStays(v: Json, all: seq<string>, more: seq<string>)
    requires Within(Seen(v), all)
    ensures CanonNode(v, all + more) == CanonNode(v, all)
    decreases v, 0
  {
    match v
    case Obj(keys, values) =>
      forall i | 0 <= i < |values|
        ensures CanonField(KeyAt(keys, i), values[i], all + more) == CanonField(KeyAt(keys, i), values[i], all)
      {
        forall s | s in SeenField(KeyAt(keys, i), values[i]) { SeenInFields(keys, values, i, s); }
        FieldStays(KeyAt(keys, i), values[i], all, more);
      }
    case Arr(items) =>
      forall i | 0 <= i < |items|
        ensures CanonNode(items[i], all + more) == CanonNode(items[i], all)
      {
        forall s | s in Seen(items[i]) { SeenInAll(items, i, s); }
        NodeStays(items[i], all, more);
      }
    case Str(text) => NameStays(IdKind, NumberedId, all, more, text);
    case _ =>
  }

  lemma {:induction false} FieldStays(key: string, v: Json, all: seq<string>, more: seq<string>)
    requires Within(SeenField(key, v), all)
    ensures CanonField(key, v, all + more) == CanonField(key, v, all)
    decreases v, 1
  {
    if !Skipped(key) { NodeStays(v, all, more); }
  }

  // ---------- the canonicaliser ----------

  class Canonicaliser {
    var idMap: map<string, string>
    var counters: map<string, nat>

    /** The canonicaliser has looked up the strings seen. */
    ghost predicate After(seen: seq<string>)
      reads this
    {
      Numbered(IdKind, NumberedId, idMap, seen) && Counted(IdKind, counters, seen)
    }

    constructor ()
      ensures After([])
    {
      idMap, counters := map[], map[];
    }

    method CanonId(s: string, ghost seen: seq<string>) returns (canon: Option<string>)
      requires After(seen)
      modifies this
      ensures After(seen + [s])
      ensures canon == if IdKind(s).Some? then Some(IdName(seen + [s], s)) else None
    {
      var kind := IdKind(s);
      if kind.None? {
        SeenAgain(IdKind, NumberedId, idMap, counters, seen, s);
        return None;
      }
      if s in idMap {
        SeenAgain(IdKind, NumberedId, idMap, counters, seen, s);
        return Some(idMap[s]);
      }
      SeenFirst(IdKind, NumberedId, idMap, counters, seen, s);
      var n := Count(counters, kind.value) + 1;
      counters := counters[kind.value := n];
      var name := NumberedId(kind.value, n - 1);
      idMap := idMap[s := name];
      return Some(name);
    }

    method CanonicalizeNode(v: Json, ghost seen: seq<string>) returns (out: Json)
      requires After(seen)
      modifies this
      ensures After(seen + Seen(v)) && out == CanonNode(v, seen + Seen(v))
      decreases v, 0
    {
      match v
      case Obj(keys, values) =>
        var fields := CanonicalizeFields(keys, values, seen);
        out := Obj(keys, fields);
      case Arr(items) =>
        var nodes := CanonicalizeItems(items, seen);
        out := Arr(nodes);
      case Str(text) =>
        var canon := CanonId(text, seen);
        out := if canon.Some? then Str(canon.value) else v;
      case _ =>
        assert seen + Seen(v) == seen;
        out := v;
    }

    method CanonicalizeItems(items: seq<Json>, ghost seen: seq<string>) returns (out: seq<Json>)
      requires After(seen)
      modifies this
      ensures After(seen + SeenAll(items))
      ensures |out| == |items| && forall k :: 0 <= k < |items| ==> out[k] == CanonNode(items[k], seen + SeenAll(items))
      decreases items, 1
    {
      hide CanonNode, Seen;
      out := [];
      assert seen + [] == seen;
      for i := 0 to |items|
        invariant After(seen + SeenAll(items[..i]))
        invariant |out| == i && forall k :: 0 <= k < i ==> out[k] == CanonNode(items[k], seen + SeenAll(items[..i]))
      {
        var node := CanonicalizeNode(items[i], seen + SeenAll(items[..i]));
        ItemsStay(items, i, seen);
        out := out + [node];
      }
      assert items[..|items|] == items;
    }

    method CanonicalizeFields(keys: seq<string>, values: seq<Json>, ghost seen: seq<string>) returns (out: seq<Json>)
      requires After(seen)
      modifies this
      ensures After(seen + SeenFields(keys, values))
      ensures |out| == |values| && forall k :: 0 <= k < |values| ==>
                out[k] == CanonField(KeyAt(keys, k), values[k], seen + SeenFields(keys, values))
      decreases values, 2
    {
      hide CanonField, SeenField;
      out := [];
      assert seen + [] == seen;
      for i := 0 to |values|
        invariant After(seen + SeenFields(keys, values[..i]))
        invariant |out| == i && forall k :: 0 <= k < i ==>
                    out[k] == CanonField(KeyAt(keys, k), values[k], seen + SeenFields(keys, values[..i]))
      {
        var field := CanonicalizeField(KeyAt(keys, i), values[i], seen + SeenFields(keys, values[..i]));
        FieldsStay(keys, values, i, seen);
        out := out + [field];
      }
      assert values[..|values|] == values;
    }

    method CanonicalizeField(key: string, child: Json, ghost seen: seq<string>) returns (out: Json)
      requires After(seen)
      modifies this
      ensures After(seen + SeenField(key, child)) && out == CanonField(key, child, seen + SeenField(key, child))
      decreases child, 1
    {
      out := child;
      if key in TS_FIELDS {
        assert seen + [] == seen;
        if child.Int? && child.n >= 0 {
          out := Int(0);
        }
      } else if key in FLOAT_FIELDS {
        assert seen + [] == seen;
        if child.Int? {
          out := Float(Round3(child.n as real));
        } else if child.Float? {
          out := Float(Round3(child.num));
        }
      } else if child.Str? {
        var canon := CanonId(child.text, seen);
        if canon.Some? {
          out := Str(canon.value);
        } else if key in AUDIO_FIELDS {
          out := Str(Bytes(|child.text|));
        }
      } else {
        out := CanonicalizeNode(child, seen);
      }
    }
  }

  lemma ItemsStay(items: seq<Json>, i: nat, seen: seq<string>)
    requires i < |items|
    ensures seen + SeenAll(items[..i]) + Seen(items[i]) == seen + SeenAll(items[..i + 1])
    ensures forall k :: 0 <= k < i ==>
              CanonNode(items[k], seen + SeenAll(items[..i + 1])) == CanonNode(items[k], seen + SeenAll(items[..i]))
  {
    SeenAllGrow(items, i);
    assert seen + SeenAll(items[..i]) + Seen(items[i]) == seen + SeenAll(items[..i + 1]);
    forall k | 0 <= k < i
      ensures CanonNode(items[k], seen + SeenAll(items[..i + 1])) == CanonNode(items[k], seen + SeenAll(items[..i]))
    {
      assert items[..i][k] == items[k];
      forall s | s in Seen(items[k]) { SeenInAll(items[..i], k, s); }
      NodeStays(items[k], seen + SeenAll(items[..i]), Seen(items[i]));
    }
  }

  lemma FieldsStay(keys: seq<string>, values: seq<Json>, i: nat, seen: seq<string>)
    requires i < |values|
    ensures seen + SeenFields(keys, values[..i]) + SeenField(KeyAt(keys, i), values[i]) ==
            seen + SeenFields(keys, values[..i + 1])
    ensures forall k :: 0 <= k < i ==>
              CanonField(KeyAt(keys, k), values[k], seen + SeenFields(keys, values[..i + 1])) ==
              CanonField(KeyAt(keys, k), values[k], seen + SeenFields(keys, values[..i]))
  {
    SeenFieldsGrow(keys, values, i);
    var sofar, next := seen + SeenFields(keys, values[..i]), SeenField(KeyAt(keys, i), values[i]);
    assert sofar + next == seen + SeenFields(keys, values[..i + 1]);
    forall k | 0 <= k < i
      ensures CanonField(KeyAt(keys, k), values[k], sofar + next) == CanonField(KeyAt(keys, k), values[k], sofar)
    {
      assert values[..i][k] == values[k];
      forall s | s in SeenField(KeyAt(keys, k), values[k]) { SeenInFields(keys, values[..i], k, s); }
      FieldStays(KeyAt(keys, k), values[k], sofar, next);
    }
  }

  lemma EventsStay(trace: seq<Json>, i: nat)
    requires i < |trace|
    ensures SeenAll(trace[..i]) + Seen(trace[i]) == SeenAll(trace[..i + 1])
    ensures forall k :: 0 <= k < i ==>
              CanonEvent(trace[k], SeenAll(trace[..i + 1])) == CanonEvent(trace[k], SeenAll(trace[..i]))
  {
    ItemsStay(trace, i, []);
    assert [] + SeenAll(trace[..i]) == SeenAll(trace[..i]) && [] + SeenAll(trace[..i + 1]) == SeenAll(trace[..i + 1]);
  }

  method CanonicalizeTrace(trace: seq<Json>) returns (out: seq<Json>)
    ensures out == CanonTrace(trace)
  {
    hide CanonNode, Seen;
    var canonicaliser := new Canonicaliser();
    out := [];
    for i := 0 to |trace|
      invariant canonicaliser.After(SeenAll(trace[..i])) && fresh(canonicaliser)
      invariant |out| == i && forall k :: 0 <= k < i ==> out[k] == CanonEvent(trace[k], SeenAll(trace[..i]))
    {
      var node := canonicaliser.CanonicalizeNode(trace[i], SeenAll(trace[..i]));
      EventsStay(trace, i);
      out := out + [if trace[i].Str? then trace[i] else node];
    }
    assert trace[..|trace|] == trace;
  }
}
