/** The one-pass trace checkers, each proved against what its rule says about positions in the
    trace.  Every checker returns its violations; an empty list means the trace is accepted. */
module TraceRules {
  import opened Wrappers
  import opened Wire

  // ---------- what a positional rule forbids ----------

  datatype Rule = Stray | Late | OutOfTurn | NoAudioEnd | Race | Untruncated | UnpairedTruncation

  ghost predicate Bad(rule: Rule, events: seq<Event>, n: nat)
    requires n < |events|
  {
    match rule
    case Stray => StrayAt(events, n)
    case Late => LateAt(events, n)
    case OutOfTurn => OutOfTurnAt(events, n)
    case NoAudioEnd => events[n].kind.ResponseDone? && DoneAudioEnd(events[n]).None?
    case Race => RaceAt(events, n)
    case Untruncated => IsCancelledDone(events[n]) && !exists j: nat :: TruncatedAfter(events, n, j)
    case UnpairedTruncation => events[n].kind.AssistantTruncated? && !PairedTruncation(events, n)
  }

  ghost predicate Obeys(rule: Rule, events: seq<Event>) {
    forall n :: 0 <= n < |events| ==> !Bad(rule, events, n)
  }

  /** The positions listed are exactly those before n that break the rule, in order. */
  ghost predicate Lists(positions: seq<nat>, rule: Rule, events: seq<Event>, n: nat)
    requires n <= |events|
  {
    && (forall i :: i in positions ==> i < n && Bad(rule, events, i))
    && (forall i :: 0 <= i < n && Bad(rule, events, i) ==> i in positions)
    && (forall i, j :: 0 <= i < j < |positions| ==> positions[i] < positions[j])
  }

  lemma ListNext(positions: seq<nat>, rule: Rule, events: seq<Event>, n: nat)
    requires n < |events| && Lists(positions, rule, events, n)
    ensures if Bad(rule, events, n) then Lists(positions + [n], rule, events, n + 1)
            else Lists(positions, rule, events, n + 1)
  {
    if Bad(rule, events, n) {
      var longer := positions + [n];
      assert forall i :: i in longer <==> i in positions || i == n;
      assert forall i :: 0 <= i < |positions| ==> positions[i] in positions;
    }
  }

  lemma EmptyListObeys(positions: seq<nat>, rule: Rule, events: seq<Event>)
    requires Lists(positions, rule, events, |events|)
    ensures positions == [] <==> Obeys(rule, events)
  {
    if positions != [] {
      assert positions[0] in positions;
    }
  }

  // ---------- W1: created and done pair up, once each ----------

  datatype PairViolation =
    | DuplicateCreated(at: nat, id: string, first: nat)
    | DuplicateDone(at: nat, id: string, first: nat)
    | NeverDone(id: string, created: nat)
    | NeverCreated(id: string, done: nat)

  ghost predicate PairedFor(events: seq<Event>, r: string) {
    && (forall i, j :: 0 <= i < j < |events| && CreatedFor(events[i], r) ==> !CreatedFor(events[j], r))
    && (forall i, j :: 0 <= i < j < |events| && DoneFor(events[i], r) ==> !DoneFor(events[j], r))
    && ((exists i :: 0 <= i < |events| && CreatedFor(events[i], r)) <==>
        (exists i :: 0 <= i < |events| && DoneFor(events[i], r)))
  }

  ghost predicate Paired(events: seq<Event>) {
    forall r :: PairedFor(events, r)
  }

  /** What a reported violation claims about the trace. */
  ghost predicate PairViolationHolds(events: seq<Event>, v: PairViolation) {
    match v
    case DuplicateCreated(at, id, first) =>
      first < at < |events| && CreatedFor(events[first], id) && CreatedFor(events[at], id)
    case DuplicateDone(at, id, first) =>
      first < at < |events| && DoneFor(events[first], id) && DoneFor(events[at], id)
    case NeverDone(id, created) =>
      created < |events| && CreatedFor(events[created], id) &&
      forall i :: 0 <= i < |events| ==> !DoneFor(events[i], id)
    case NeverCreated(id, done) =>
      done < |events| && DoneFor(events[done], id) &&
      forall i :: 0 <= i < |events| ==> !CreatedFor(events[i], id)
  }

  /** No id is created twice or done twice. */
  ghost predicate NoRepeats(events: seq<Event>) {
    forall i, j :: 0 <= i < j < |events| && FiledId(events[i]) == FiledId(events[j]) ==>
      !(events[i].kind.ResponseCreated? && events[j].kind.ResponseCreated?) &&
      !(events[i].kind.ResponseDone? && events[j].kind.ResponseDone?)
  }

  predicate IsUnmatched(v: PairViolation) {
    v.NeverDone? || v.NeverCreated?
  }

  /** `at` files under each id the only position of that kind seen among the first n events. */
  ghost predicate FiledAt(events: seq<Event>, n: nat, at: map<string, nat>, created: bool)
    requires n <= |events|
  {
    && (forall r :: r in at ==> at[r] < n && IsEnd(events[at[r]], r, created))
    && (forall i, r :: 0 <= i < n && IsEnd(events[i], r, created) ==> r in at && at[r] == i)
  }

  predicate IsEnd(ev: Event, r: string, created: bool) {
    if created then CreatedFor(ev, r) else DoneFor(ev, r)
  }

  /** The keys of one table that the other lacks, in some order. */
  method KeysWithout(of: map<string, nat>, others: map<string, nat>) returns (missing: seq<string>)
    ensures forall r :: r in missing <==> r in of && r !in others
  {
    missing := [];
    var left := of.Keys;
    while left != {}
      invariant left <= of.Keys
      invariant forall r :: r in missing <==> r in of && r !in left && r !in others
    {
      var rid :| rid in left;
      left := left - {rid};
      if rid !in others {
        missing := missing + [rid];
      }
    }
  }

  lemma Refile(events: seq<Event>, n: nat, at: map<string, nat>, created: bool)
    requires n < |events| && FiledAt(events, n, at, created)
    ensures !IsEnd(events[n], FiledId(events[n]), created) ==> FiledAt(events, n + 1, at, created)
    ensures IsEnd(events[n], FiledId(events[n]), created) && FiledId(events[n]) !in at ==>
              FiledAt(events, n + 1, at[FiledId(events[n]) := n], created)
  {
  }

  method CheckResponseDonePerCreated(events: seq<Event>) returns (violations: seq<PairViolation>)
    ensures violations == [] <==> Paired(events)
    ensures forall v :: v in violations ==> PairViolationHolds(events, v)
    ensures NoRepeats(events) ==> forall v :: v in violations <==> IsUnmatched(v) && PairViolationHolds(events, v)
    ensures !NoRepeats(events) ==> |violations| == 1 && !IsUnmatched(violations[0])
  {
    var created: map<string, nat>, terminals: map<string, nat> := map[], map[];
    for i := 0 to |events|
      invariant FiledAt(events, i, created, true)
      invariant FiledAt(events, i, terminals, false)
    {
      Refile(events, i, created, true);
      Refile(events, i, terminals, false);
      var rid := FiledId(events[i]);
      if events[i].kind.ResponseCreated? {
        if rid in created {
          assert IsEnd(events[created[rid]], rid, true);
          assert !PairedFor(events, rid);
          return [DuplicateCreated(i, rid, created[rid])];
        }
        created := created[rid := i];
      } else if events[i].kind.ResponseDone? {
        if rid in terminals {
          assert IsEnd(events[terminals[rid]], rid, false);
          assert !PairedFor(events, rid);
          return [DuplicateDone(i, rid, terminals[rid])];
        }
        terminals := terminals[rid := i];
      }
    }
    FiledOnce(events, created, terminals);
    violations := ListUnmatched(events, created, terminals);
  }

  lemma FiledOnce(events: seq<Event>, created: map<string, nat>, terminals: map<string, nat>)
    requires FiledAt(events, |events|, created, true) && FiledAt(events, |events|, terminals, false)
    ensures NoRepeats(events)
  {
    forall i, j | 0 <= i < j < |events| && FiledId(events[i]) == FiledId(events[j])
      ensures !(events[i].kind.ResponseCreated? && events[j].kind.ResponseCreated?)
      ensures !(events[i].kind.ResponseDone? && events[j].kind.ResponseDone?)
    {
      FiledMeansSeen(events, created, true, FiledId(events[i]));
      FiledMeansSeen(events, terminals, false, FiledId(events[i]));
      assert IsEnd(events[i], FiledId(events[i]), true) ==> !IsEnd(events[j], FiledId(events[i]), true);
      assert IsEnd(events[i], FiledId(events[i]), false) ==> !IsEnd(events[j], FiledId(events[i]), false);
    }
  }

  /** The violation for an id that one table has and the other lacks. */
  function Unmatched(id: string, at: nat, created: bool): PairViolation {
    if created then NeverDone(id, at) else NeverCreated(id, at)
  }

  method ListMissing(of: map<string, nat>, others: map<string, nat>, created: bool)
    returns (violations: seq<PairViolation>)
    ensures forall v :: v in violations <==> exists id :: id in of && id !in others && v == Unmatched(id, of[id], created)
    ensures violations == [] <==> of.Keys <= others.Keys
  {
    violations := [];
    var missing := KeysWithout(of, others);
    for k := 0 to |missing|
      invariant |violations| == k
      invariant forall m :: 0 <= m < k ==> missing[m] in of && violations[m] == Unmatched(missing[m], of[missing[m]], created)
    {
      assert missing[k] in missing;
      violations := violations + [Unmatched(missing[k], of[missing[k]], created)];
    }
    forall id | id in of && id !in others
      ensures Unmatched(id, of[id], created) in violations
    {
      var m :| 0 <= m < |missing| && missing[m] == id;
      assert violations[m] == Unmatched(id, of[id], created);
    }
    forall v | v in violations
      ensures exists id :: id in of && id !in others && v == Unmatched(id, of[id], created)
    {
      var m :| 0 <= m < |violations| && violations[m] == v;
      assert missing[m] in missing;
    }
    if missing != [] { assert missing[0] in missing; }
  }

  method ListUnmatched(ghost events: seq<Event>, created: map<string, nat>, terminals: map<string, nat>)
    returns (violations: seq<PairViolation>)
    requires FiledAt(events, |events|, created, true) && FiledAt(events, |events|, terminals, false)
    ensures violations == [] <==> Paired(events)
    ensures forall v :: v in violations <==> IsUnmatched(v) && PairViolationHolds(events, v)
  {
    PairedMeansSameKeys(events, created, terminals);
    var noDone := ListMissing(created, terminals, true);
    var noCreated := ListMissing(terminals, created, false);
    violations := noDone + noCreated;
    forall v
      ensures v in noDone <==> v.NeverDone? && PairViolationHolds(events, v)
      ensures v in noCreated <==> v.NeverCreated? && PairViolationHolds(events, v)
    {
      if v.NeverDone? { UnmatchedIff(events, created, terminals, true, v); }
      if v.NeverCreated? { UnmatchedIff(events, terminals, created, false, v); }
    }
  }

  lemma UnmatchedIff(events: seq<Event>, of: map<string, nat>, others: map<string, nat>, created: bool, v: PairViolation)
    requires FiledAt(events, |events|, of, created) && FiledAt(events, |events|, others, !created)
    requires if created then v.NeverDone? else v.NeverCreated?
    ensures PairViolationHolds(events, v) <==> exists id :: id in of && id !in others && v == Unmatched(id, of[id], created)
  {
    var at := if created then v.created else v.done;
    FiledMeansSeen(events, others, !created, v.id);
    assert forall i :: 0 <= i < |events| ==> IsEnd(events[i], v.id, true) == CreatedFor(events[i], v.id);
    assert forall i :: 0 <= i < |events| ==> IsEnd(events[i], v.id, false) == DoneFor(events[i], v.id);
    assert PairViolationHolds(events, v) <==> at < |events| && IsEnd(events[at], v.id, created) && v.id !in others;
    assert v == Unmatched(v.id, at, created);
  }

  lemma FiledMeansSeen(events: seq<Event>, at: map<string, nat>, created: bool, r: string)
    requires FiledAt(events, |events|, at, created)
    ensures (exists i :: 0 <= i < |events| && IsEnd(events[i], r, created)) <==> r in at
    ensures forall i, j :: 0 <= i < j < |events| && IsEnd(events[i], r, created) ==> !IsEnd(events[j], r, created)
  {
    if r in at { assert IsEnd(events[at[r]], r, created); }
  }

  lemma PairedForMeans(events: seq<Event>, created: map<string, nat>, terminals: map<string, nat>, r: string)
    requires FiledAt(events, |events|, created, true) && FiledAt(events, |events|, terminals, false)
    ensures PairedFor(events, r) <==> (r in created <==> r in terminals)
  {
    FiledMeansSeen(events, created, true, r);
    FiledMeansSeen(events, terminals, false, r);
    assert forall i :: 0 <= i < |events| ==> IsEnd(events[i], r, true) == CreatedFor(events[i], r);
    assert forall i :: 0 <= i < |events| ==> IsEnd(events[i], r, false) == DoneFor(events[i], r);
  }

  lemma PairedMeansSameKeys(events: seq<Event>, created: map<string, nat>, terminals: map<string, nat>)
    requires FiledAt(events, |events|, created, true) && FiledAt(events, |events|, terminals, false)
    ensures Paired(events) <==> created.Keys <= terminals.Keys && terminals.Keys <= created.Keys
  {
    hide PairedFor;
    forall r
      ensures PairedFor(events, r) <==> (r in created <==> r in terminals)
    {
      PairedForMeans(events, created, terminals, r);
    }
    if Paired(events) {
      forall r | r in created || r in terminals
        ensures r in created && r in terminals
      {
        assert PairedFor(events, r);
      }
    }
  }

  // ---------- W2: response events only inside an open window ----------

  /** Response r is open just before event n: the latest of its created and done events so far is
      a created. */
  ghost predicate OpenAt(events: seq<Event>, n: nat, r: string)
    requires n <= |events|
  {
    exists c :: 0 <= c < n && CreatedFor(events[c], r) && NoDoneBetween(events, c, n, r)
  }

  ghost predicate NoDoneBetween(events: seq<Event>, c: nat, n: nat, r: string)
    requires n <= |events|
  {
    forall d :: c < d < n ==> !DoneFor(events[d], r)
  }

  ghost predicate StrayAt(events: seq<Event>, n: nat)
    requires n < |events|
  {
    exists r :: WindowFor(events[n], r) && !OpenAt(events, n, r)
  }

  lemma OpenStep(events: seq<Event>, n: nat, r: string)
    requires n < |events|
    ensures OpenAt(events, n + 1, r) <==>
            CreatedFor(events[n], r) || (OpenAt(events, n, r) && !DoneFor(events[n], r))
  {
    if CreatedFor(events[n], r) {
      assert NoDoneBetween(events, n, n + 1, r);
    } else if OpenAt(events, n, r) && !DoneFor(events[n], r) {
      var c :| 0 <= c < n && CreatedFor(events[c], r) && NoDoneBetween(events, c, n, r);
      assert NoDoneBetween(events, c, n + 1, r);
    }
    if OpenAt(events, n + 1, r) && !CreatedFor(events[n], r) {
      var c :| 0 <= c < n + 1 && CreatedFor(events[c], r) && NoDoneBetween(events, c, n + 1, r);
      assert NoDoneBetween(events, c, n, r);
    }
  }

  method CheckDeltaOnlyBetweenCreatedAndDone(events: seq<Event>) returns (violations: seq<nat>)
    ensures Lists(violations, Stray, events, |events|)
    ensures violations == [] <==> Obeys(Stray, events)
  {
    var openIds: set<string> := {};
    violations := [];
    for i := 0 to |events|
      invariant forall r :: r in openIds <==> OpenAt(events, i, r)
      invariant Lists(violations, Stray, events, i)
    {
      ListNext(violations, Stray, events, i);
      forall r: string { OpenStep(events, i, r); }
      var ev := events[i];
      if ev.kind.ResponseCreated? {
        openIds := openIds + {FiledId(ev)};
      } else if ev.kind.ResponseDone? {
        openIds := openIds - {FiledId(ev)};
      } else if ev.kind.InWindow() {
        var rid := Owner(ev);
        if rid.Some? && rid.value !in openIds {
          assert WindowFor(ev, rid.value);
          violations := violations + [i];
        }
      }
    }
    EmptyListObeys(violations, Stray, events);
  }

  // ---------- W6: nothing in the bracket after the response is done ----------

  ghost predicate LateAt(events: seq<Event>, n: nat)
    requires n < |events|
  {
    events[n].kind.InBracket() && Owner(events[n]).Some? &&
    exists d :: 0 <= d < n && events[d].kind.ResponseDone? && GetId(events[d]) == Owner(events[n])
  }

  method CheckNoResponseEventsAfterDone(events: seq<Event>) returns (violations: seq<nat>)
    ensures Lists(violations, Late, events, |events|)
    ensures violations == [] <==> Obeys(Late, events)
  {
    var doneAt: map<string, nat> := map[];
    for i := 0 to |events|
      invariant forall r :: r in doneAt ==>
        doneAt[r] < i && events[doneAt[r]].kind.ResponseDone? && GetId(events[doneAt[r]]) == Some(r)
      invariant forall d :: 0 <= d < i && events[d].kind.ResponseDone? && GetId(events[d]).Some? ==>
        GetId(events[d]).value in doneAt && doneAt[GetId(events[d]).value] <= d
    {
      if events[i].kind.ResponseDone? && GetId(events[i]).Some? {
        var rid := GetId(events[i]).value;
        if rid !in doneAt {
          doneAt := doneAt[rid := i];
        }
      }
    }
    violations := [];
    for j := 0 to |events|
      invariant Lists(violations, Late, events, j)
    {
      ListNext(violations, Late, events, j);
      if events[j].kind.InBracket() {
        var rid := Owner(events[j]);
        if rid.Some? && rid.value in doneAt && j > doneAt[rid.value] {
          violations := violations + [j];
        }
      }
    }
    EmptyListObeys(violations, Late, events);
  }

  // ---------- W4: every done event carries a number of played milliseconds ----------

  method CheckResponseDoneCarriesAudioEndMs(events: seq<Event>) returns (violations: seq<nat>)
    ensures Lists(violations, NoAudioEnd, events, |events|)
    ensures violations == [] <==> Obeys(NoAudioEnd, events)
  {
    violations := [];
    for i := 0 to |events|
      invariant Lists(violations, NoAudioEnd, events, i)
    {
      ListNext(violations, NoAudioEnd, events, i);
      if events[i].kind.ResponseDone? && DoneAudioEnd(events[i]).None? {
        violations := violations + [i];
      }
    }
    EmptyListObeys(violations, NoAudioEnd, events);
  }

  // ---------- W3: the comparison looks the wrong way ----------

  predicate NamesItem(ev: Event, kind: EventType, item: string) {
    ev.kind == kind && ev.itemId == Some(item) && item != ""
  }

  /** The latest position before n of an event of the kind that names the item. */
  function Latest(events: seq<Event>, n: nat, kind: EventType, item: string): (at: Option<nat>)
    requires n <= |events|
    ensures at.Some? ==> at.value < n && NamesItem(events[at.value], kind, item)
    ensures forall k :: (if at.Some? then at.value < k else 0 <= k) && k < n ==> !NamesItem(events[k], kind, item)
  {
    if n == 0 then None
    else if NamesItem(events[n - 1], kind, item) then Some(n - 1)
    else Latest(events, n - 1, kind, item)
  }

  /** The event at i is a commit whose latest stop, or an added item whose latest commit, comes after i: what the
      rule's comparisons test, among the events up to i. */
  predicate OutOfTurnAt(events: seq<Event>, i: nat)
    requires i < |events|
  {
    var ev := events[i];
    if ev.kind.Committed? then
      ev.itemId.Some? && var at := Latest(events, i + 1, SpeechStopped, ev.itemId.value); at.Some? && at.value > i
    else
      && ev.kind.ItemAdded? && ev.addedItem.Some?
      && var at := Latest(events, i + 1, Committed, ev.addedItem.value); at.Some? && at.value > i
  }

  /** The table holds the latest event of the kind for each item named so far. */
  ghost predicate HoldsLatest(events: seq<Event>, n: nat, kind: EventType, table: map<string, nat>)
    requires n <= |events|
  {
    forall item :: Latest(events, n, kind, item) == if item in table then Some(table[item]) else None
  }

  function Filed(table: map<string, nat>, kind: EventType, ev: Event, i: nat): map<string, nat> {
    if ev.kind == kind && ev.itemId.Some? && ev.itemId.value != "" then table[ev.itemId.value := i] else table
  }

  lemma LatestNext(events: seq<Event>, i: nat, kind: EventType, table: map<string, nat>)
    requires i < |events| && HoldsLatest(events, i, kind, table)
    ensures HoldsLatest(events, i + 1, kind, Filed(table, kind, events[i], i))
  {}

  predicate ComesLater(table: map<string, nat>, item: Option<string>, i: nat) {
    item.Some? && item.value != "" && item.value in table && table[item.value] > i
  }

  predicate FoundLate(ev: Event, i: nat, stoppedAt: map<string, nat>, committedAt: map<string, nat>) {
    || (ev.kind.Committed? && ComesLater(stoppedAt, ev.itemId, i))
    || (ev.kind.ItemAdded? && ComesLater(committedAt, ev.addedItem, i))
  }

  lemma OutOfTurnInTables(events: seq<Event>, i: nat, stoppedAt: map<string, nat>, committedAt: map<string, nat>)
    requires i < |events|
    requires HoldsLatest(events, i + 1, SpeechStopped, stoppedAt) && HoldsLatest(events, i + 1, Committed, committedAt)
    ensures OutOfTurnAt(events, i) <==> FoundLate(events[i], i, stoppedAt, committedAt)
  {
    hide Latest;
    NoNameFiled(events, i + 1, SpeechStopped, stoppedAt);
    NoNameFiled(events, i + 1, Committed, committedAt);
  }

  lemma ListLate(violations: seq<nat>, events: seq<Event>, i: nat, stoppedAt: map<string, nat>, committedAt: map<string, nat>)
    requires i < |events| && Lists(violations, OutOfTurn, events, i)
    requires HoldsLatest(events, i, SpeechStopped, stoppedAt) && HoldsLatest(events, i, Committed, committedAt)
    ensures var stopped, committed := Filed(stoppedAt, SpeechStopped, events[i], i), Filed(committedAt, Committed, events[i], i);
            && HoldsLatest(events, i + 1, SpeechStopped, stopped) && HoldsLatest(events, i + 1, Committed, committed)
            && Lists(if FoundLate(events[i], i, stopped, committed) then violations + [i] else violations,
                     OutOfTurn, events, i + 1)
  {
    hide HoldsLatest, OutOfTurnAt, FoundLate, Filed, Lists;
    LatestNext(events, i, SpeechStopped, stoppedAt);
    LatestNext(events, i, Committed, committedAt);
    OutOfTurnInTables(events, i, Filed(stoppedAt, SpeechStopped, events[i], i), Filed(committedAt, Committed, events[i], i));
    ListNext(violations, OutOfTurn, events, i);
  }

  lemma NobodyIsOutOfTurn(events: seq<Event>)
    ensures Obeys(OutOfTurn, events)
  {}

  lemma NoNameFiled(events: seq<Event>, n: nat, kind: EventType, table: map<string, nat>)
    requires n <= |events| && HoldsLatest(events, n, kind, table)
    ensures "" !in table
  {
    assert Latest(events, n, kind, "") == None;
  }

  /** The rule that a commit follows its stop and precedes its item only ever compares positions
      already passed with the current one, so it reports nothing, whatever the trace. */
  method CheckCommittedAfterStoppedBeforeCreated(events: seq<Event>) returns (violations: seq<int>)
    ensures violations == [] && Lists(violations, OutOfTurn, events, |events|)
  {
    var stoppedAt: map<string, nat>, committedAt: map<string, nat> := map[], map[];
    violations := [];
    for i := 0 to |events|
      invariant (forall k :: 0 <= k < |violations| ==> violations[k] >= 0) && Lists(violations, OutOfTurn, events, i)
      invariant HoldsLatest(events, i, SpeechStopped, stoppedAt) && HoldsLatest(events, i, Committed, committedAt)
    {
      hide HoldsLatest, Lists;
      ListLate(violations, events, i, stoppedAt, committedAt);
      var ev := events[i];
      var named := ev.itemId.Some? && ev.itemId.value != "";
      if ev.kind.SpeechStopped? && named {
        stoppedAt := stoppedAt[ev.itemId.value := i];
      } else if ev.kind.Committed? && named {
        var iid := ev.itemId.value;
        committedAt := committedAt[iid := i];
        if iid in stoppedAt && stoppedAt[iid] > i {
          violations := violations + [i];
        }
      } else if ev.kind.ItemAdded? && ev.addedItem.Some? && ev.addedItem.value != "" {
        var iid := ev.addedItem.value;
        if iid in committedAt && committedAt[iid] > i {
          violations := violations + [i];
        }
      }
    }
    NobodyIsOutOfTurn(events);
    EmptyListObeys(violations, OutOfTurn, events);
  }

  /** The commit at i comes before any stop of its item, though one follows at j. */
  ghost predicate CommitTooEarly(events: seq<Event>, i: nat, j: nat) {
    && i < j < |events|
    && events[i].kind.Committed? && events[j].kind.SpeechStopped?
    && events[i].itemId.Some? && events[i].itemId.value != "" && events[j].itemId == events[i].itemId
    && forall k :: 0 <= k < i && events[k].kind.SpeechStopped? ==> events[k].itemId != events[i].itemId
  }

  /** So it lets a commit pass that comes before its stop. */
  lemma EarlyCommitPasses()
    ensures exists events: seq<Event> :: CommitTooEarly(events, 0, 1) && Obeys(OutOfTurn, events)
  {
    var commit := Event(Committed, None, None, Some("a"), None, None, None, None);
    var events := [commit, commit.(kind := SpeechStopped)];
    assert CommitTooEarly(events, 0, 1);
    NobodyIsOutOfTurn(events);
  }

  // ---------- speech and response phases exclude each other ----------

  /** The speech item that is still being spoken just before event n. */
  function SpeakingItem(ev: Event): Option<string> {
    if ev.itemId.Some? && ev.itemId.value != "" then ev.itemId else GetItemId(ev)
  }

  predicate EndsSpeech(ev: Event, start: Event) {
    (ev.kind.SpeechStopped? || ev.kind.Committed?) &&
    SpeakingItem(start).Some? && (ev.itemId.None? || ev.itemId == SpeakingItem(start))
  }

  ghost predicate SpeakingSince(events: seq<Event>, s: nat, n: nat)
    requires n <= |events|
  {
    s < n && events[s].kind.SpeechStarted? &&
    forall k :: s < k < n ==> !events[k].kind.SpeechStarted? && !EndsSpeech(events[k], events[s])
  }

  /** Just before event n, the latest speech_started has not been stopped. */
  ghost predicate SpeakingAt(events: seq<Event>, n: nat)
    requires n <= |events|
  {
    exists s: nat :: SpeakingSince(events, s, n)
  }

  /** Just before event n, the latest response.created naming an id has had no done or unnamed
      created after it. */
  ghost predicate RespondingAt(events: seq<Event>, n: nat)
    requires n <= |events|
  {
    exists c :: 0 <= c < n && RespondingSince(events, c, n)
  }

  /** get_event_id(ev, "id") or get_event_id(ev, "response.id"). */
  function ActiveId(ev: Event): Option<string> {
    Or(GetId(ev), if ev.response.Some? then ev.response.value.id else None)
  }

  ghost predicate RespondingSince(events: seq<Event>, c: nat, n: nat)
    requires n <= |events|
  {
    c < n && events[c].kind.ResponseCreated? && ActiveId(events[c]).Some? &&
    forall k :: c < k < n ==> !events[k].kind.ResponseDone? && !events[k].kind.ResponseCreated?
  }

  ghost predicate RaceAt(events: seq<Event>, n: nat)
    requires n < |events|
  {
    || (events[n].kind.SpeechStarted? && RespondingAt(events, n))
    || (events[n].kind.ResponseCreated? && SpeakingAt(events, n))
  }

  lemma SpeakingStep(events: seq<Event>, s: nat, n: nat)
    requires n < |events|
    ensures SpeakingSince(events, s, n + 1) <==>
            if events[n].kind.SpeechStarted? then s == n
            else SpeakingSince(events, s, n) && !EndsSpeech(events[n], events[s])
  {
  }

  lemma RespondingStep(events: seq<Event>, n: nat)
    requires n < |events|
    ensures RespondingAt(events, n + 1) <==>
            if events[n].kind.ResponseCreated? then ActiveId(events[n]).Some?
            else RespondingAt(events, n) && !events[n].kind.ResponseDone?
  {
    if events[n].kind.ResponseCreated? {
      if ActiveId(events[n]).Some? { assert RespondingSince(events, n, n + 1); }
    } else if RespondingAt(events, n) && !events[n].kind.ResponseDone? {
      var c :| 0 <= c < n && RespondingSince(events, c, n);
      assert RespondingSince(events, c, n + 1);
    }
    if RespondingAt(events, n + 1) && !events[n].kind.ResponseCreated? {
      var c :| 0 <= c < n + 1 && RespondingSince(events, c, n + 1);
      assert RespondingSince(events, c, n);
    }
  }

  method CheckSpeechResponseAtomicity(events: seq<Event>) returns (violations: seq<nat>)
    ensures Lists(violations, Race, events, |events|)
    ensures violations == [] <==> Obeys(Race, events)
  {
    violations := [];
    var speaking := false;
    var speakingItem: Option<string> := None;
    var activeResponse: Option<string> := None;
    ghost var since := 0;
    for i := 0 to |events|
      invariant speaking ==> since < i && SpeakingSince(events, since, i) && speakingItem == SpeakingItem(events[since])
      invariant speaking || speakingItem.None?
      invariant speaking <==> SpeakingAt(events, i)
      invariant speaking ==> forall s: nat :: SpeakingSince(events, s, i) ==> s == since
      invariant activeResponse.Some? <==> RespondingAt(events, i)
      invariant Lists(violations, Race, events, i)
    {
      ListNext(violations, Race, events, i);
      forall s: nat { SpeakingStep(events, s, i); }
      RespondingStep(events, i);
      var ev := events[i];
      if ev.kind.SpeechStarted? {
        speaking := true;
        since := i;
        speakingItem := SpeakingItem(ev);
        if activeResponse.Some? {
          violations := violations + [i];
        }
      } else if ev.kind.SpeechStopped? || ev.kind.Committed? {
        if speakingItem.Some? && (ev.itemId.None? || ev.itemId == speakingItem) {
          speaking := false;
          speakingItem := None;
        }
      } else if ev.kind.ResponseCreated? {
        if speaking {
          violations := violations + [i];
        }
        activeResponse := ActiveId(ev);
      } else if ev.kind.ResponseDone? {
        activeResponse := None;
      }
    }
    EmptyListObeys(violations, Race, events);
  }

  // ---------- a cancelled response is followed by its truncation ----------

  /** Event j is a truncation of the assistant item that done event i was speaking. */
  predicate Truncates(events: seq<Event>, i: nat, j: nat)
    requires i < |events| && j < |events|
  {
    events[j].kind.AssistantTruncated? &&
    (OutputItem(events[i]).Some? ==> events[j].itemId == OutputItem(events[i]))
  }

  predicate SameAudioEnd(done: Event, truncated: Event) {
    truncated.audioEndMs.Some? &&
    (DoneAudioEnd(done).Some? ==> truncated.audioEndMs == DoneAudioEnd(done))
  }

  /** The first truncation of i's item after i comes before any response.created and agrees with i
      on the audio end. */
  ghost predicate TruncatedAfter(events: seq<Event>, i: nat, j: nat)
    requires i < |events|
  {
    FirstTruncation(events, i, j) && SameAudioEnd(events[i], events[j])
  }

  ghost predicate FirstTruncation(events: seq<Event>, i: nat, j: nat)
    requires i < |events|
  {
    i < j < |events| && Truncates(events, i, j) &&
    forall k :: i < k < j ==> !events[k].kind.ResponseCreated? && !Truncates(events, i, k)
  }

  /** A violation of done i is filed at its first truncation, or at i itself if it has none. */
  ghost predicate FiledFor(events: seq<Event>, i: nat, at: nat)
    requires i < |events|
  {
    FirstTruncation(events, i, at) || (at == i && !exists j: nat :: FirstTruncation(events, i, j))
  }

  /** A violation: the done event that has it, and the event it is filed at. */
  type TruncationViolation = (nat, nat)

  function Dones(violations: seq<TruncationViolation>): seq<nat> {
    seq(|violations|, k requires 0 <= k < |violations| => violations[k].0)
  }

  predicate IsCancelledDone(ev: Event) {
    ev.kind.ResponseDone? && StatusOf(ev) == Some(Cancelled)
  }

  method CheckCancelledEmitsTruncate(events: seq<Event>) returns (violations: seq<TruncationViolation>)
    ensures Lists(Dones(violations), Untruncated, events, |events|)
    ensures forall v :: v in violations ==> v.0 < |events| && FiledFor(events, v.0, v.1)
    ensures violations == [] <==> Obeys(Untruncated, events)
  {
    violations := [];
    for i := 0 to |events|
      invariant Lists(Dones(violations), Untruncated, events, i)
      invariant forall v :: v in violations ==> v.0 < |events| && FiledFor(events, v.0, v.1)
    {
      ListNext(Dones(violations), Untruncated, events, i);
      if IsCancelledDone(events[i]) {
        var at := TruncationOf(events, i);
        TruncationDecides(events, i, at);
        if at.None? || !SameAudioEnd(events[i], events[at.value]) {
          var v := (i, if at.None? then i else at.value);
          assert Dones(violations + [v]) == Dones(violations) + [i];
          violations := violations + [v];
        }
      }
    }
    EmptyListObeys(Dones(violations), Untruncated, events);
  }

  /** The first truncation of done i's item before the next response.created. */
  method TruncationOf(events: seq<Event>, i: nat) returns (at: Option<nat>)
    requires i < |events|
    ensures at.Some? ==> FirstTruncation(events, i, at.value)
    ensures at.None? ==> !exists j: nat :: FirstTruncation(events, i, j)
  {
    var j := i + 1;
    while j < |events| && !events[j].kind.ResponseCreated?
      invariant i + 1 <= j <= |events|
      invariant forall k :: i < k < j ==> !events[k].kind.ResponseCreated? && !Truncates(events, i, k)
    {
      if Truncates(events, i, j) {
        return Some(j);
      }
      j := j + 1;
    }
    return None;
  }

  lemma TruncationDecides(events: seq<Event>, i: nat, at: Option<nat>)
    requires i < |events| && IsCancelledDone(events[i])
    requires if at.Some? then FirstTruncation(events, i, at.value) else !exists j: nat :: FirstTruncation(events, i, j)
    ensures Bad(Untruncated, events, i) <==> at.None? || !SameAudioEnd(events[i], events[at.value])
  {
    if at.Some? {
      assert forall k: nat :: FirstTruncation(events, i, k) ==> !(k < at.value) && !(at.value < k);
      assert SameAudioEnd(events[i], events[at.value]) ==> TruncatedAfter(events, i, at.value);
    }
  }

  // ---------- W7: a truncation answers a cancelled or incomplete done ----------

  ghost predicate LatestDone(events: seq<Event>, d: nat, n: nat)
    requires n <= |events|
  {
    d < n && events[d].kind.ResponseDone? && forall k :: d < k < n ==> !events[k].kind.ResponseDone?
  }

  ghost predicate PairedTruncation(events: seq<Event>, n: nat)
    requires n < |events|
  {
    exists d: nat :: LatestDone(events, d, n) && StatusOf(events[d]) in {Some(Cancelled), Some(Incomplete)}
  }

  method CheckAssistantTruncatedPaired(events: seq<Event>) returns (violations: seq<nat>)
    ensures Lists(violations, UnpairedTruncation, events, |events|)
    ensures violations == [] <==> Obeys(UnpairedTruncation, events)
  {
    violations := [];
    var lastDoneStatus: Option<Status> := None;
    ghost var last: Option<nat> := None;
    for i := 0 to |events|
      invariant last.None? ==> lastDoneStatus.None? && forall d :: 0 <= d < i ==> !events[d].kind.ResponseDone?
      invariant last.Some? ==> LatestDone(events, last.value, i) && lastDoneStatus == StatusOf(events[last.value])
      invariant Lists(violations, UnpairedTruncation, events, i)
    {
      ListNext(violations, UnpairedTruncation, events, i);
      if events[i].kind.ResponseDone? {
        lastDoneStatus := StatusOf(events[i]);
        last := Some(i);
      } else if events[i].kind.AssistantTruncated? {
        forall d: nat | LatestDone(events, d, i)
          ensures last == Some(d)
        {
          assert last.Some? ==> !(d < last.value) && !(last.value < d);
        }
        if lastDoneStatus.None? || lastDoneStatus.value !in {Cancelled, Incomplete} {
          violations := violations + [i];
        }
      }
    }
    EmptyListObeys(violations, UnpairedTruncation, events);
  }
}
