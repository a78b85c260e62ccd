/** What every replay keeps, whatever the op stream: the properties of the run and of its trace
    that need no discipline from the caller. */
module ReplaySafety {
  import opened Wrappers
  import opened Wire
  import opened SessionPhases
  import opened Replay
  import opened ReplayEffects
  import opened TraceRules

  // ---------- the session state stays sane ----------

  ghost predicate Sane(w: World) {
    && w.session.runtime == w.session.resp.Active()
    && (w.session.resp.Active() ==> w.session.resp.id != "" && w.started)
    && !(w.session.vad.Speaking? && w.session.resp.Active())
    && (!w.session.vad.Silent? ==> w.started)
    && (w.session.conversation != [] ==> w.started)
  }

  lemma SaneEffect(w: World, w': World, events: seq<Event>, e: Effect)
    requires Sane(w) && Acts(w, w', events, e)
    ensures Sane(w')
  {
  }

  lemma RunIsSane(ops: seq<Op>)
    ensures Run(ops).Went? ==> Sane(Run(ops).world)
  {
    var keeps := (w: World, trace: seq<Event>) => Sane(w);
    forall w, trace, w', events, e | keeps(w, trace) && Acts(w, w', events, e)
      ensures keeps(w', trace + events)
    {
      SaneEffect(w, w', events, e);
    }
    RunKeeps(ops, keeps);
  }

  /** The item being spoken already stands in the conversation, in progress. */
  predicate Voiced(s: Phases) {
    s.vad.Speaking? &&
    exists i :: 0 <= i < |s.conversation| && s.conversation[i] == ConversationItem(s.vad.item, User, InProgress)
  }

  /** What the invariant check would say of any state a run reaches: it can object to a stop before its
      start and to a spoken item already committed, and to nothing else. */
  lemma ReachedStateChecks(ops: seq<Op>)
    requires Run(ops).Went?
    ensures var s := Run(ops).world.session;
            CheckState(s) == if EndsBeforeStart(s.vad) then Some(StoppedWithoutEnd)
                             else if Voiced(s) then Some(ConvHasVoiced(s.vad.item)) else None
  {
    RunIsSane(ops);
  }

  /** The first objection does arise: the voice ops move the phase without running the check. */
  lemma EarlyStopIsReached()
    ensures var ops := [VadSpeechStart("a", 5), VadSpeechEnd(0)];
            Run(ops).Went? && CheckState(Run(ops).world.session) == Some(StoppedWithoutEnd)
  {
    var started := VoiceRun([], Silent, [], VadSpeechStart("a", 5));
    var stopped := VoiceRun([] + [VadSpeechStart("a", 5)], Speaking("a", 5), [], VadSpeechEnd(0));
    assert [] + [VadSpeechStart("a", 5)] + [VadSpeechEnd(0)] == [VadSpeechStart("a", 5), VadSpeechEnd(0)];
  }

  /** So does the second, when a committed item is spoken again. */
  lemma VoicedItemIsReached()
    ensures var ops := [VadSpeechStart("a", 0), VadSpeechEnd(1), CommitFire, VadSpeechStart("a", 2)];
            Run(ops).Went? && CheckState(Run(ops).world.session) == Some(ConvHasVoiced("a"))
  {
    var ops := [VadSpeechStart("a", 0), VadSpeechEnd(1), CommitFire, VadSpeechStart("a", 2)];
    assert [] + ops[..1] == ops[..1] && ops[..1] + ops[1..2] == ops[..2] && ops[..2] + ops[2..3] == ops[..3];
    assert ops[..3] + ops[3..] == ops;
    var started := VoiceRun([], Silent, [], ops[0]);
    var stopped := VoiceRun(ops[..1], Speaking("a", 0), [], ops[1]);
    var committed := VoiceRun(ops[..2], Stopped("a", 0, 1), [], ops[2]);
    var again := VoiceRun(ops[..3], Silent, [] + [ConversationItem("a", User, InProgress)], ops[3]);
    ReachedStateChecks(ops);
    assert again.world.session.conversation[0] == ConversationItem("a", User, InProgress);
  }

  /** One more voice op of a run that has no response. */
  lemma VoiceRun(ops: seq<Op>, vad: Vad, conversation: seq<ConversationItem>, op: Op) returns (o: Outcome)
    requires Run(ops).Went? && Run(ops).world.session == Phases(vad, NoResponse, false, 0, conversation)
    requires IsVoiceOp(op)
    ensures o == Run(ops + [op]) && o.Went?
    ensures o.world.session == ActOnVoice(Run(ops).world, op).world.session
  {
    assert (ops + [op])[..|ops|] == ops;
    o := Run(ops + [op]);
  }

  // ---------- when a run goes wrong ----------

  /** Exactly when an op raises: the invariant check itself can only ever object to a stop that
      precedes its start or to an empty response id; a missing runtime or a voiced item is never raised. */
  ghost predicate Objects(w: World, op: Op) {
    var s := w.session;
    match op
    case ResponseCreate(id, _) => s.resp.Active() || s.vad.Speaking? || EndsBeforeStart(s.vad) || id == ""
    case VadSpeechStart(_, _) => s.resp.Active() && EndsBeforeStart(s.vad)
    case LlmComplete(_, _) => (s.resp.Created? || s.resp.Streaming?) && EndsBeforeStart(s.vad)
    case DrainCapExpired(_, _, _) => s.resp.Active() && EndsBeforeStart(s.vad)
    case AudioDrained(epoch, playedMs) =>
      s.resp.Drain? && playedMs >= Get(w.planned, epoch) && EndsBeforeStart(s.vad)
    case ResponseFailed(_) => !s.resp.Active() || EndsBeforeStart(s.vad)
    case UnknownOp(_) => true
    case _ => false
  }

  /** The only violations a run raises. */
  predicate Raisable(o: Outcome) {
    o.Raised? && o.error.StateError? ==>
      o.error.violation in {IllegalTransition, SpeakingWithActiveResponse, StoppedWithoutEnd, EmptyResponseId}
  }

  lemma ToDrainRaises(w: World, plannedMs: int)
    requires Sane(w)
    ensures var s := w.session;
            ToDrain(s, plannedMs).1 ==
              if (s.resp.Created? || s.resp.Streaming?) && EndsBeforeStart(s.vad) then Some(StoppedWithoutEnd) else None
  {
  }

  lemma RetireRaises(w: World, s: Phases)
    requires Sane(w) && s.vad == w.session.vad && s.conversation == w.session.conversation && w.session.resp.Active()
    ensures RetireToNone(s).1 == if EndsBeforeStart(s.vad) then Some(StoppedWithoutEnd) else None
  {
  }

  lemma ResponseOpRaises(w: World, op: Op)
    requires Sane(w) && IsResponseOp(op) && !op.DrainCapExpired?
    ensures ActOnResponse(w, op).Raised? <==> Objects(w, op)
    ensures Raisable(ActOnResponse(w, op))
  {
    if op.LlmComplete? {
      ToDrainRaises(w, w.planned[op.epoch := Get(w.planned, op.epoch) + op.plannedMs][op.epoch]);
    } else if !op.ResponseCreate? && w.session.resp.Active() {
      RetireRaises(w, w.session);
    }
  }

  lemma DrainCapRaises(w: World, epoch: int, plannedMs: int, playedMs: int)
    requires Sane(w)
    ensures var o := ActOnResponse(w, DrainCapExpired(epoch, plannedMs, playedMs));
            Raisable(o) && (o.Raised? <==> w.session.resp.Active() && EndsBeforeStart(w.session.vad))
  {
    var total := w.planned[epoch := Get(w.planned, epoch) + plannedMs][epoch];
    ToDrainRaises(w, total);
    ToDrainKeeps(w.session, total);
    if w.session.resp.Active() { RetireRaises(w, ToDrain(w.session, total).0); }
  }

  lemma StepRaisesExactly(w: World, op: Op)
    requires Sane(w)
    ensures (Step(w, op).Raised? <==> Objects(w, op)) && Raisable(Step(w, op))
  {
    var w1 := Start(w, op).world;
    assert Objects(w1, op) <==> Objects(w, op);
    if op.VadSpeechStart? {
      if w.session.resp.Active() { RetireRaises(w, w.session); }
    } else if op.DrainCapExpired? {
      DrainCapRaises(w1, op.epoch, op.plannedMs, op.playedMs);
    } else if IsResponseOp(op) {
      ResponseOpRaises(w1, op);
    }
  }

  lemma RunRaisesExactly(ops: seq<Op>, op: Op)
    requires Run(ops).Went?
    ensures Run(ops + [op]).Raised? <==> Objects(Run(ops).world, op)
    ensures Raisable(Run(ops + [op]))
  {
    RunIsSane(ops);
    StepRaisesExactly(Run(ops).world, op);
    assert (ops + [op])[..|ops|] == ops;
  }

  // ---------- speech and responses never overlap on the wire ----------

  /** The atomicity checker as a running summary of the trace. */
  datatype Watcher = Watcher(talking: Option<Event>, responding: bool, clean: bool)

  function Watch(k: Watcher, ev: Event): Watcher {
    if ev.kind.SpeechStarted? then Watcher(Some(ev), k.responding, k.clean && !k.responding)
    else if k.talking.Some? && EndsSpeech(ev, k.talking.value) then k.(talking := None)
    else if ev.kind.ResponseCreated? then Watcher(k.talking, ActiveId(ev).Some?, k.clean && k.talking.None?)
    else if ev.kind.ResponseDone? then k.(responding := false)
    else k
  }

  function Watched(events: seq<Event>): Watcher {
    if events == [] then Watcher(None, false, true)
    else Watch(Watched(events[..|events| - 1]), events[|events| - 1])
  }

  lemma {:induction false} WatchedMeans(events: seq<Event>, n: nat)
    requires n <= |events|
    ensures Watched(events[..n]).responding <==> RespondingAt(events, n)
    ensures Watched(events[..n]).talking.Some? <==> SpeakingAt(events, n)
    ensures forall s: nat :: SpeakingSince(events, s, n) ==> Watched(events[..n]).talking == Some(events[s])
    ensures Watched(events[..n]).clean <==> forall i :: 0 <= i < n ==> !RaceAt(events, i)
  {
    if n > 0 {
      var m := n - 1;
      WatchedMeans(events, m);
      assert events[..n][..m] == events[..m];
      RespondingStep(events, m);
      forall s: nat { SpeakingStep(events, s, m); }
      if SpeakingAt(events, m) {
        var s: nat :| SpeakingSince(events, s, m);
        assert SpeakingSince(events, s, n) <==> !events[m].kind.SpeechStarted? && !EndsSpeech(events[m], events[s]);
      }
      assert events[m].kind.SpeechStarted? ==> SpeakingSince(events, m, n);
      assert (forall i :: 0 <= i < n ==> !RaceAt(events, i)) <==>
             (forall i :: 0 <= i < m ==> !RaceAt(events, i)) && !RaceAt(events, m);
    }
  }

  lemma WatchedIsAtomicity(events: seq<Event>)
    ensures Watched(events).clean <==> Obeys(Race, events)
  {
    WatchedMeans(events, |events|);
    assert events[..|events|] == events;
    assert forall i :: 0 <= i < |events| ==> Bad(Race, events, i) == RaceAt(events, i);
  }

  lemma WatchedAppend(trace: seq<Event>, ev: Event)
    ensures Watched(trace + [ev]) == Watch(Watched(trace), ev)
  {
    assert (trace + [ev])[..|trace|] == trace;
  }

  lemma WatchedAppendAll(trace: seq<Event>, events: seq<Event>)
    requires |events| <= 2
    ensures Watched(trace + events) ==
            match |events|
            case 0 => Watched(trace)
            case 1 => Watch(Watched(trace), events[0])
            case _ => Watch(Watch(Watched(trace), events[0]), events[1])
  {
    if |events| == 0 {
      assert trace + events == trace;
    } else {
      WatchedAppend(trace, events[0]);
      if |events| == 1 {
        assert trace + events == trace + [events[0]];
      } else {
        WatchedAppend(trace + [events[0]], events[1]);
        assert trace + events == trace + [events[0]] + [events[1]];
      }
    }
  }

  /** On the wire speech is on only while the session hears it, and a response is open exactly
      while the session has one. */
  ghost predicate NoOverlap(w: World, trace: seq<Event>) {
    Sane(w) && Agree(w, Watched(trace))
  }

  /** The events the watch passes over. */
  predicate Unwatched(ev: Event) {
    !ev.kind.SpeechStarted? && !ev.kind.SpeechStopped? && !ev.kind.Committed? && !ev.kind.ResponseCreated? &&
    !ev.kind.ResponseDone?
  }

  lemma NoOverlapEffect(w: World, trace: seq<Event>, w': World, events: seq<Event>, e: Effect)
    requires NoOverlap(w, trace) && Acts(w, w', events, e)
    ensures NoOverlap(w', trace + events)
  {
    SaneEffect(w, w', events, e);
    if MovesWatch(e) {
      MovedWatch(w, Watched(trace), w', events, e);
    } else {
      UnwatchedEffect(w, w', events, e);
    }
    WatchedAppendAll(trace, events);
  }

  predicate MovesWatch(e: Effect) {
    e.Talks? || e.Pauses? || e.Commits? || e.Creates? || e.Ends?
  }

  lemma UnwatchedEffect(w: World, w': World, events: seq<Event>, e: Effect)
    requires Acts(w, w', events, e) && !MovesWatch(e)
    ensures |events| <= 2 && forall i :: 0 <= i < |events| ==> Unwatched(events[i])
    ensures w'.session.resp.Active() == w.session.resp.Active()
    ensures w.session.vad.Speaking? ==> w'.session.vad == w.session.vad
  {
  }

  /** The watch and the session agree. */
  ghost predicate Agree(w: World, k: Watcher) {
    && k.clean
    && (k.responding <==> w.session.resp.Active())
    && (k.talking.Some? ==> w.session.vad.Speaking? && SpeakingItem(k.talking.value) == Some(w.session.vad.item))
  }

  lemma MovedWatch(w: World, k: Watcher, w': World, events: seq<Event>, e: Effect)
    requires Sane(w) && Agree(w, k) && Acts(w, w', events, e) && MovesWatch(e)
    ensures 1 <= |events| <= 2
    ensures Agree(w', if |events| == 1 then Watch(k, events[0]) else Watch(Watch(k, events[0]), events[1]))
  {
  }

  /** No speech starts while a response is open, and no response is created while speech is on:
      the atomicity rule accepts every replay. */
  lemma ReplayIsAtomic(ops: seq<Op>)
    ensures Run(ops).Went? ==> Obeys(Race, Run(ops).events)
  {
    var keeps := (w: World, trace: seq<Event>) => NoOverlap(w, trace);
    forall w, trace, w', events, e | keeps(w, trace) && Acts(w, w', events, e)
      ensures keeps(w', trace + events)
    {
      NoOverlapEffect(w, trace, w', events, e);
    }
    RunKeeps(ops, keeps);
    if Run(ops).Went? {
      WatchedIsAtomicity(Run(ops).events);
    }
  }

  // ---------- a turn of speech: started, stopped once or more, committed ----------

  datatype Turn = Quiet | Talking(item: string) | Paused(item: string) | Garbled

  function Hear(t: Turn, ev: Event): Turn {
    if !ev.kind.SpeechStarted? && !ev.kind.SpeechStopped? && !ev.kind.Committed? then t
    else if ev.itemId.None? then Garbled
    else
      var item := ev.itemId.value;
      match ev.kind
      case SpeechStarted => if t.Quiet? then Talking(item) else Garbled
      case SpeechStopped => if t == Talking(item) || t == Paused(item) then Paused(item) else Garbled
      case _ => if t == Paused(item) then Quiet else Garbled
  }

  function Heard(events: seq<Event>): Turn {
    if events == [] then Quiet else Hear(Heard(events[..|events| - 1]), events[|events| - 1])
  }

  function Ids(events: seq<Event>, kind: EventType): seq<string> {
    if events == [] then []
    else
      var before, ev := Ids(events[..|events| - 1], kind), events[|events| - 1];
      if ev.kind != kind then before
      else if kind.ItemAdded? then before + (if ev.addedItem.Some? then [ev.addedItem.value] else [])
      else before + (if ev.itemId.Some? then [ev.itemId.value] else [])
  }

  function ConversationIds(items: seq<ConversationItem>): seq<string> {
    if items == [] then [] else ConversationIds(items[..|items| - 1]) + [items[|items| - 1].id]
  }

  ghost predicate StoppedSince(events: seq<Event>, k: nat, n: nat, item: string)
    requires n <= |events|
  {
    k < n && events[k].kind.SpeechStopped? && events[k].itemId == Some(item) &&
    forall m :: k < m < n ==> !events[m].kind.SpeechStarted? && !events[m].kind.Committed?
  }

  /** The commit at n closes a turn of its own item: a stop of that item comes before it, with no
      other start or commit in between. */
  ghost predicate CommitStopped(events: seq<Event>, n: nat)
    requires n < |events|
  {
    events[n].itemId.Some? && exists k: nat :: StoppedSince(events, k, n, events[n].itemId.value)
  }

  lemma {:induction false} HeardMeans(events: seq<Event>, n: nat)
    requires n <= |events| && Heard(events[..n]) != Garbled
    ensures Heard(events[..n]).Paused? ==> exists k: nat :: StoppedSince(events, k, n, Heard(events[..n]).item)
    ensures forall i :: 0 <= i < n && events[i].kind.Committed? ==> CommitStopped(events, i)
  {
    if n > 0 {
      var m := n - 1;
      assert events[..n][..m] == events[..m];
      HeardMeans(events, m);
      var t := Heard(events[..m]);
      if events[m].kind.SpeechStopped? {
        assert StoppedSince(events, m, n, Heard(events[..n]).item);
      } else if t.Paused? {
        var k: nat :| StoppedSince(events, k, m, t.item);
        if !events[m].kind.Committed? {
          assert StoppedSince(events, k, n, t.item);
        }
      }
    }
  }

  lemma AppendOne(trace: seq<Event>, ev: Event)
    ensures Heard(trace + [ev]) == Hear(Heard(trace), ev)
    ensures forall kind :: Ids(trace + [ev], kind) ==
              Ids(trace, kind) + (if ev.kind != kind then [] else if kind.ItemAdded?
                                  then (if ev.addedItem.Some? then [ev.addedItem.value] else [])
                                  else (if ev.itemId.Some? then [ev.itemId.value] else []))
  {
    assert (trace + [ev])[..|trace|] == trace;
  }

  ghost predicate TurnsKept(w: World, trace: seq<Event>) {
    var t := Heard(trace);
    && Sane(w)
    && (match w.session.vad
        case Silent => t == Quiet
        case Speaking(item, _) => t == Talking(item) || t == Paused(item)
        case Stopped(item, _, _) => t == Paused(item))
    && Ids(trace, Committed) == ConversationIds(w.session.conversation)
    && Ids(trace, ItemAdded) == ConversationIds(w.session.conversation)
  }

  predicate Speechless(kind: EventType) {
    !kind.SpeechStarted? && !kind.SpeechStopped? && !kind.Committed? && !kind.ItemAdded?
  }

  lemma SpeechlessOne(trace: seq<Event>, ev: Event)
    requires Speechless(ev.kind)
    ensures Heard(trace + [ev]) == Heard(trace)
    ensures Ids(trace + [ev], Committed) == Ids(trace, Committed)
    ensures Ids(trace + [ev], ItemAdded) == Ids(trace, ItemAdded)
  {
    assert (trace + [ev])[..|trace|] == trace;
  }

  lemma SpeechlessAppend(trace: seq<Event>, events: seq<Event>)
    requires |events| <= 2 && forall i :: 0 <= i < |events| ==> Speechless(events[i].kind)
    ensures Heard(trace + events) == Heard(trace)
    ensures Ids(trace + events, Committed) == Ids(trace, Committed)
    ensures Ids(trace + events, ItemAdded) == Ids(trace, ItemAdded)
  {
    if |events| == 0 {
      assert trace + events == trace;
    } else if |events| == 1 {
      SpeechlessOne(trace, events[0]);
      assert trace + events == trace + [events[0]];
    } else {
      SpeechlessOne(trace, events[0]);
      SpeechlessOne(trace + [events[0]], events[1]);
      assert trace + events == trace + [events[0]] + [events[1]];
    }
  }

  lemma ConversationGrows(items: seq<ConversationItem>, item: ConversationItem)
    ensures ConversationIds(items + [item]) == ConversationIds(items) + [item.id]
  {
    assert (items + [item])[..|items|] == items;
  }

  /** A stopped turn committed and added to the conversation leaves all three sequences equal. */
  lemma CommittedTurn(w: World, after: World, trace: seq<Event>, item: string)
    requires TurnsKept(w, trace) && w.session.vad.Stopped? && w.session.vad.item == item && Sane(after)
    requires after.session.vad == Silent
    requires after.session.conversation == w.session.conversation + [ConversationItem(item, User, InProgress)]
    ensures TurnsKept(after, trace + [ItemEvent(Committed, item), ItemAddedEvent(item)])
  {
    var committed, added := ItemEvent(Committed, item), ItemAddedEvent(item);
    AppendOne(trace, committed);
    AppendOne(trace + [committed], added);
    assert trace + [committed, added] == trace + [committed] + [added];
    ConversationGrows(w.session.conversation, ConversationItem(item, User, InProgress));
  }

  predicate MovesSpeech(e: Effect) {
    e.Talks? || e.Resumes? || e.Pauses? || e.Commits?
  }

  lemma SpeechlessEffect(w: World, w': World, events: seq<Event>, e: Effect)
    requires Acts(w, w', events, e) && !MovesSpeech(e)
    ensures w'.session.vad == w.session.vad && w'.session.conversation == w.session.conversation
    ensures |events| <= 2 && forall i :: 0 <= i < |events| ==> Speechless(events[i].kind)
  {
  }

  lemma TalkKeepsTurns(w: World, trace: seq<Event>, w': World, events: seq<Event>, e: Effect)
    requires TurnsKept(w, trace) && Acts(w, w', events, e) && Sane(w') && (e.Talks? || e.Pauses?)
    ensures TurnsKept(w', trace + events)
  {
    AppendOne(trace, events[0]);
    assert Ids(trace + events, Committed) == Ids(trace, Committed);
    assert Ids(trace + events, ItemAdded) == Ids(trace, ItemAdded);
  }

  lemma TurnsKeptEffect(w: World, trace: seq<Event>, w': World, events: seq<Event>, e: Effect)
    requires TurnsKept(w, trace) && Acts(w, w', events, e)
    ensures TurnsKept(w', trace + events)
  {
    SaneEffect(w, w', events, e);
    if !MovesSpeech(e) {
      SpeechlessEffect(w, w', events, e);
      SpeechlessAppend(trace, events);
    } else if e.Commits? {
      CommittedTurn(w, w', trace, w.session.vad.item);
    } else if e.Resumes? {
      assert trace + events == trace;
    } else {
      TalkKeepsTurns(w, trace, w', events, e);
    }
  }

  /** Speech goes by turns even across re-entry: every commit closes a stopped turn of its own
      item, and committed ids, added ids and the stored conversation are one sequence. */
  lemma ReplayKeepsTurns(ops: seq<Op>)
    requires Run(ops).Went?
    ensures Heard(Run(ops).events) != Garbled
    ensures Ids(Run(ops).events, Committed) == Ids(Run(ops).events, ItemAdded)
            == ConversationIds(Run(ops).world.session.conversation)
    ensures forall n :: 0 <= n < |Run(ops).events| && Run(ops).events[n].kind.Committed? ==> CommitStopped(Run(ops).events, n)
  {
    var keeps := (w: World, trace: seq<Event>) => TurnsKept(w, trace);
    forall w, trace, w', events, e | keeps(w, trace) && Acts(w, w', events, e)
      ensures keeps(w', trace + events)
    {
      TurnsKeptEffect(w, trace, w', events, e);
    }
    RunKeeps(ops, keeps);
    var trace := Run(ops).events;
    assert trace[..|trace|] == trace;
    HeardMeans(trace, |trace|);
  }

  // ---------- every cancelled response is truncated at once ----------

  /** A cancelled done is followed at once by the truncation of the same item at the same audio end,
      a truncation only ever follows a cancelled done, and every done carries its audio end. */
  ghost predicate Tidy(events: seq<Event>) {
    && (forall i :: 0 <= i < |events| && IsCancelledDone(events[i]) ==>
          i + 1 < |events| && events[i + 1].kind.AssistantTruncated? && events[i + 1].itemId.Some? &&
          events[i + 1].itemId == OutputItem(events[i]) && events[i + 1].audioEndMs == DoneAudioEnd(events[i]))
    && (forall i :: 0 <= i < |events| && events[i].kind.AssistantTruncated? ==> i > 0 && IsCancelledDone(events[i - 1]))
    && (forall i :: 0 <= i < |events| && events[i].kind.ResponseDone? ==> DoneAudioEnd(events[i]).Some?)
  }

  lemma TidyEnd(resp: Resp, status: Status, playedMs: int)
    requires resp.Active()
    ensures Tidy(EndEvents(resp, status, playedMs))
  {
  }

  lemma TidyEffect(w: World, w': World, events: seq<Event>, e: Effect)
    requires Acts(w, w', events, e)
    ensures Tidy(events)
  {
    if e.Ends? {
      TidyEnd(w.session.resp, e.status, e.playedMs);
    } else {
      assert forall i :: 0 <= i < |events| ==> !events[i].kind.ResponseDone? && !events[i].kind.AssistantTruncated?;
    }
  }

  lemma TidyAppend(a: seq<Event>, b: seq<Event>)
    requires Tidy(a) && Tidy(b)
    ensures Tidy(a + b)
  {
    var c := a + b;
    forall i | 0 <= i < |c| && IsCancelledDone(c[i])
      ensures i + 1 < |c| && c[i + 1].kind.AssistantTruncated? && c[i + 1].itemId.Some? &&
              c[i + 1].itemId == OutputItem(c[i]) && c[i + 1].audioEndMs == DoneAudioEnd(c[i])
    {
      if i < |a| { assert c[i] == a[i] && c[i + 1] == a[i + 1]; } else { assert c[i] == b[i - |a|] && c[i + 1] == b[i - |a| + 1]; }
    }
    forall i | 0 <= i < |c| && c[i].kind.AssistantTruncated?
      ensures i > 0 && IsCancelledDone(c[i - 1])
    {
      if i < |a| { assert c[i - 1] == a[i - 1]; } else { assert c[i] == b[i - |a|] && c[i - 1] == b[i - |a| - 1]; }
    }
  }

  lemma TidyObeys(events: seq<Event>)
    requires Tidy(events)
    ensures Obeys(Untruncated, events) && Obeys(UnpairedTruncation, events) && Obeys(NoAudioEnd, events)
  {
    forall n | 0 <= n < |events|
      ensures !Bad(Untruncated, events, n) && !Bad(UnpairedTruncation, events, n) && !Bad(NoAudioEnd, events, n)
    {
      if IsCancelledDone(events[n]) {
        assert TruncatedAfter(events, n, n + 1);
      }
      if events[n].kind.AssistantTruncated? {
        assert LatestDone(events, n - 1, n);
      }
    }
  }

  /** The truncation rules and the audio-end rule accept every replay, because cancellation and
      truncation leave as one pair. */
  lemma ReplayTruncatesCancelled(ops: seq<Op>)
    requires Run(ops).Went?
    ensures Tidy(Run(ops).events)
    ensures Obeys(Untruncated, Run(ops).events) && Obeys(UnpairedTruncation, Run(ops).events)
    ensures Obeys(NoAudioEnd, Run(ops).events)
  {
    var keeps := (w: World, trace: seq<Event>) => Tidy(trace);
    forall w, trace, w', events, e | keeps(w, trace) && Acts(w, w', events, e)
      ensures keeps(w', trace + events)
    {
      TidyEffect(w, w', events, e);
      TidyAppend(trace, events);
    }
    RunKeeps(ops, keeps);
    TidyObeys(Run(ops).events);
  }

  // ---------- the session is created once, and first ----------

  ghost predicate CreatedOnce(w: World, trace: seq<Event>) {
    && (forall i, j :: 0 <= i < j < |trace| && trace[i].kind.SessionCreated? ==> !trace[j].kind.SessionCreated?)
    && (w.started <==> exists i :: 0 <= i < |trace| && trace[i].kind.SessionCreated?)
  }

  lemma CreatedOnceEffect(w: World, trace: seq<Event>, w': World, events: seq<Event>, e: Effect)
    requires CreatedOnce(w, trace) && Acts(w, w', events, e)
    ensures CreatedOnce(w', trace + events)
  {
    var longer := trace + events;
    assert forall i :: 0 <= i < |trace| ==> longer[i] == trace[i];
    assert forall i :: |trace| <= i < |longer| ==> longer[i] == events[i - |trace|];
    if e.Begins? {
      assert longer[|trace|].kind.SessionCreated?;
    } else {
      OnlyBeginsCreates(w, w', events, e);
    }
  }

  lemma OnlyBeginsCreates(w: World, w': World, events: seq<Event>, e: Effect)
    requires Acts(w, w', events, e) && !e.Begins?
    ensures w'.started == w.started
    ensures forall i :: 0 <= i < |events| ==> !events[i].kind.SessionCreated?
  {
  }

  /** Some op starts the session before any audio delta is replayed. */
  ghost predicate OpensWithSession(ops: seq<Op>) {
    exists k :: 0 <= k < |ops| && Starts(ops[k]) && forall j :: 0 <= j < k ==> !ops[j].AudioDeltaOp?
  }

  lemma StepBeforeStart(w: World, op: Op)
    requires Sane(w) && !w.started && Step(w, op).Went?
    ensures Starts(op) ==> Step(w, op).events != [] && Step(w, op).events[0].kind.SessionCreated?
    ensures op.AudioDeltaOp? ==> Step(w, op).events != [] && !Step(w, op).events[0].kind.SessionCreated?
    ensures !Starts(op) && !op.AudioDeltaOp? ==> Step(w, op).events == []
    ensures Step(w, op).world.started <==> Starts(op)
  {
  }

  lemma StepKeepsStarted(w: World, op: Op)
    requires Step(w, op).Went? && w.started
    ensures Step(w, op).world.started
  {
    var w1, w2, t1, t2, t3, e1, e2, e3 := StepActs(w, op);
  }

  lemma {:induction false} StartedIff(ops: seq<Op>)
    requires Run(ops).Went?
    ensures Run(ops).world.started <==> exists k :: 0 <= k < |ops| && Starts(ops[k])
  {
    if ops != [] {
      var n := |ops| - 1;
      RunSplits(ops);
      StartedIff(ops[..n]);
      RunIsSane(ops[..n]);
      var w := Run(ops[..n]).world;
      if w.started { StepKeepsStarted(w, ops[n]); } else { StepBeforeStart(w, ops[n]); }
      assert forall k :: 0 <= k < n ==> ops[k] == ops[..n][k];
    }
  }

  /** Before the session starts nothing but audio deltas can have reached the trace. */
  lemma {:induction false} TraceIsEmptyIff(ops: seq<Op>)
    requires Run(ops).Went?
    ensures Run(ops).events == [] <==> forall k :: 0 <= k < |ops| ==> !Starts(ops[k]) && !ops[k].AudioDeltaOp?
  {
    hide Step, Starts, Sane;
    if ops != [] {
      var n := |ops| - 1;
      RunSplits(ops);
      TraceIsEmptyIff(ops[..n]);
      RunIsSane(ops[..n]);
      StartedIff(ops[..n]);
      assert forall k :: 0 <= k < n ==> ops[k] == ops[..n][k];
      if !Run(ops[..n]).world.started { StepBeforeStart(Run(ops[..n]).world, ops[n]); }
    }
  }

  lemma {:induction false} FirstEvent(ops: seq<Op>)
    requires Run(ops).Went?
    ensures Run(ops).events != [] ==> (Run(ops).events[0].kind.SessionCreated? <==> OpensWithSession(ops))
  {
    if ops != [] {
      var n := |ops| - 1;
      RunSplits(ops);
      FirstEvent(ops[..n]);
      TraceIsEmptyIff(ops[..n]);
      OpensNext(ops);
      var r := Run(ops[..n]);
      if r.events == [] {
        RunIsSane(ops[..n]);
        StartedIff(ops[..n]);
        StepBeforeStart(r.world, ops[n]);
      }
    }
  }

  lemma OpensNext(ops: seq<Op>)
    requires ops != []
    ensures var before, op := ops[..|ops| - 1], ops[|ops| - 1];
            OpensWithSession(ops) <==>
              OpensWithSession(before) || (Starts(op) && forall j :: 0 <= j < |before| ==> !before[j].AudioDeltaOp?)
  {
    var before := ops[..|ops| - 1];
    assert forall k :: 0 <= k < |before| ==> ops[k] == before[k];
    if OpensWithSession(before) {
      var k :| 0 <= k < |before| && Starts(before[k]) && forall j :: 0 <= j < k ==> !before[j].AudioDeltaOp?;
      assert Starts(ops[k]);
    }
  }

  /** session.created is emitted at most once, and it is the first event exactly when an op that
      starts the session comes before any audio delta. */
  lemma ReplayCreatesSessionOnce(ops: seq<Op>)
    requires Run(ops).Went?
    ensures CreatedOnce(Run(ops).world, Run(ops).events)
    ensures Run(ops).events != [] && Run(ops).events[0].kind.SessionCreated? <==> OpensWithSession(ops)
  {
    hide Run, Acts;
    var keeps := (w: World, trace: seq<Event>) => CreatedOnce(w, trace);
    forall w, trace, w', events, e | keeps(w, trace) && Acts(w, w', events, e)
      ensures keeps(w', trace + events)
    {
      CreatedOnceEffect(w, trace, w', events, e);
    }
    RunKeeps(ops, keeps);
    FirstEvent(ops);
    TraceIsEmptyIff(ops);
  }
}
