/** What the parts of an op can do: every run is a chain of a few kinds of effects on the session and
    the wire.  Whatever each kind of effect keeps holds after every run. */
module ReplayEffects {
  import opened Wrappers
  import opened Wire
  import opened SessionPhases
  import opened Replay

  datatype Effect =
    | Aside
    | Begins
    | Talks(item: string)
    | Resumes
    | Pauses
    | Commits
    | Creates(id: string)
    | Plays(id: string)
    | Ends(status: Status, playedMs: int)

  /** An event that belongs to no turn of speech, no response and no start of the session. */
  predicate Incidental(ev: Event) {
    ev.kind.SessionUpdated? || ev.kind.ErrorEvent? || ev.kind.TranscriptionCompleted?
  }

  /** How a response ends on the wire. */
  function EndEvents(resp: Resp, status: Status, playedMs: int): seq<Event>
    requires resp.Active()
  {
    match status
    case Cancelled => [DoneEvent(resp.id, Cancelled, playedMs, Some(resp.item)), TruncatedEvent(resp.item, playedMs)]
    case Completed => [AudioDoneEvent(resp.id, playedMs), DoneEvent(resp.id, Completed, playedMs, None)]
    case _ => [DoneEvent(resp.id, status, playedMs, Some(resp.item))]
  }

  /** Neither speech nor the conversation moves, and the session has not just started. */
  predicate SpeechStays(w: World, w': World) {
    w'.started == w.started && w'.session.vad == w.session.vad && w'.session.conversation == w.session.conversation
  }

  /** The session is on, and of the whole world only the voice phase moves. */
  predicate OnlyVoice(w: World, w': World) {
    w.started && w' == w.(session := w.session.(vad := w'.session.vad))
  }

  ghost predicate Acts(w: World, w': World, events: seq<Event>, e: Effect) {
    var s, s' := w.session, w'.session;
    match e
    case Aside =>
      && SpeechStays(w, w')
      && s'.runtime == s.runtime && s'.resp.Active() == s.resp.Active() && (s.resp.Active() ==> s'.resp.id == s.resp.id)
      && |events| <= 2 && forall i :: 0 <= i < |events| ==> Incidental(events[i])
    case Begins => !w.started && w' == w.(started := true) && events == [SessionCreatedEvent]
    case Talks(item) =>
      && OnlyVoice(w, w') && !s.resp.Active() && s.vad.Silent? && s'.vad.Speaking? && s'.vad.item == item
      && events == [ItemEvent(SpeechStarted, item)]
    case Resumes =>
      && OnlyVoice(w, w') && !s.resp.Active() && s.vad.Stopped?
      && s'.vad == Speaking(s.vad.item, s.vad.startMs) && events == []
    case Pauses =>
      && OnlyVoice(w, w') && s.vad.Speaking? && s'.vad.Stopped? && s'.vad.item == s.vad.item
      && events == [ItemEvent(SpeechStopped, s.vad.item)]
    case Commits =>
      && w.started && s.vad.Stopped?
      && w' == w.(session := s.(vad := Silent,
                                conversation := s.conversation + [ConversationItem(s.vad.item, User, InProgress)]))
      && events == [ItemEvent(Committed, s.vad.item), ItemAddedEvent(s.vad.item)]
    case Creates(id) =>
      && w.started && SpeechStays(w, w') && !s.resp.Active() && !s.vad.Speaking?
      && s'.resp.Created? && s'.resp.id == id && id != "" && s'.runtime && events == [ResponseCreatedEvent(id)]
    case Plays(id) => w' == w && events == [DeltaEvent(id)]
    case Ends(status, playedMs) =>
      && SpeechStays(w, w') && s.resp.Active() && s'.resp.NoResponse? && !s'.runtime
      && events == EndEvents(s.resp, status, playedMs)
  }

  /** The effect neither creates a response nor plays one. */
  predicate Passive(e: Effect) {
    !e.Creates? && !e.Plays?
  }

  // ---------- the three parts of an op ----------

  lemma StartActs(w: World, op: Op) returns (e: Effect)
    ensures Acts(w, Start(w, op).world, Start(w, op).events, e) && Passive(e)
    ensures Start(w, op).world == if Starts(op) then w.(started := true) else w
  {
    e := if Starts(op) && !w.started then Begins else Aside;
  }

  lemma InterruptActs(w: World, op: Op) returns (e: Effect)
    requires Interrupt(w, op).Went?
    ensures var o := Interrupt(w, op);
            Acts(w, o.world, o.events, e) && o.world.started == w.started &&
            (if op.VadSpeechStart? then !o.world.session.resp.Active() else o.world == w)
    ensures Passive(e)
  {
    var resp := w.session.resp;
    e := if op.VadSpeechStart? && resp.Active() then Ends(Cancelled, Get(w.played, resp.epoch)) else Aside;
  }

  lemma VoiceActs(w: World, op: Op) returns (e: Effect)
    requires IsVoiceOp(op) && w.started && (op.VadSpeechStart? ==> !w.session.resp.Active())
    ensures ActOnVoice(w, op).Went? && Acts(w, ActOnVoice(w, op).world, ActOnVoice(w, op).events, e) && Passive(e)
  {
    var vad := w.session.vad;
    e := match op
         case VadSpeechStart(item, _) => if vad.Silent? then Talks(item) else if vad.Stopped? then Resumes else Aside
         case VadSpeechEnd(_) => if vad.Speaking? then Pauses else Aside
         case _ => if vad.Stopped? then Commits else Aside;
  }

  lemma ToDrainKeeps(p: Phases, plannedMs: int)
    ensures var t := ToDrain(p, plannedMs);
            && t.0.vad == p.vad && t.0.conversation == p.conversation && t.0.runtime == p.runtime
            && t.0.resp.Active() == p.resp.Active()
            && (p.resp.Active() ==> t.0.resp.id == p.resp.id && t.0.resp.item == p.resp.item)
    ensures ToDrain(p, plannedMs).1.None? ==> (p.resp.Active() <==> ToDrain(p, plannedMs).0.resp.Drain?)
  {
  }

  lemma PlannedActs(w: World, epoch: int, plannedMs: int)
    requires ActOnResponse(w, LlmComplete(epoch, plannedMs)).Went?
    ensures var o := ActOnResponse(w, LlmComplete(epoch, plannedMs)); Acts(w, o.world, o.events, Aside)
  {
    ToDrainKeeps(w.session, w.planned[epoch := Get(w.planned, epoch) + plannedMs][epoch]);
  }

  lemma DrainCapActs(w: World, epoch: int, plannedMs: int, playedMs: int) returns (e: Effect)
    requires ActOnResponse(w, DrainCapExpired(epoch, plannedMs, playedMs)).Went?
    ensures var o := ActOnResponse(w, DrainCapExpired(epoch, plannedMs, playedMs)); Acts(w, o.world, o.events, e)
    ensures Passive(e)
  {
    ToDrainKeeps(w.session, w.planned[epoch := Get(w.planned, epoch) + plannedMs][epoch]);
    e := if w.session.resp.Active() then Ends(Incomplete, playedMs) else Aside;
  }

  lemma ResponseActs(w: World, op: Op) returns (e: Effect)
    requires IsResponseOp(op) && ActOnResponse(w, op).Went? && (op.ResponseCreate? ==> w.started)
    ensures Acts(w, ActOnResponse(w, op).world, ActOnResponse(w, op).events, e)
    ensures if op.ResponseCreate? then e == Creates(op.respId) else Passive(e)
  {
    var s := w.session;
    match op
    case ResponseCreate(id, _) => e := Creates(id);
    case AudioDrained(epoch, playedMs) =>
      e := if s.resp.Drain? && playedMs >= Get(w.planned, epoch) then Ends(Completed, playedMs) else Aside;
    case ResponseFailed(playedMs) => e := Ends(Failed, playedMs);
    case LlmComplete(epoch, plannedMs) =>
      PlannedActs(w, epoch, plannedMs);
      e := Aside;
    case DrainCapExpired(epoch, plannedMs, playedMs) => e := DrainCapActs(w, epoch, plannedMs, playedMs);
  }

  lemma ActActs(w: World, op: Op) returns (e: Effect)
    requires Act(w, op).Went? && (Starts(op) ==> w.started) && (op.VadSpeechStart? ==> !w.session.resp.Active())
    ensures Acts(w, Act(w, op).world, Act(w, op).events, e)
    ensures match op
            case ResponseCreate(id, _) => e == Creates(id)
            case AudioDeltaOp(id) => e == Plays(id)
            case _ => Passive(e)
  {
    if IsVoiceOp(op) {
      e := VoiceActs(w, op);
    } else if IsResponseOp(op) {
      e := ResponseActs(w, op);
    } else {
      e := if op.AudioDeltaOp? then Plays(op.respId) else Aside;
    }
  }

  // ---------- an op, and a run ----------

  /** A step is three effects in a row; only the last one creates or plays, and it does so from the
      session the op found. */
  lemma StepActs(w: World, op: Op)
    returns (w1: World, w2: World, t1: seq<Event>, t2: seq<Event>, t3: seq<Event>, e1: Effect, e2: Effect, e3: Effect)
    requires Step(w, op).Went?
    ensures Acts(w, w1, t1, e1) && Acts(w1, w2, t2, e2) && Acts(w2, Step(w, op).world, t3, e3)
    ensures Step(w, op).events == t1 + t2 + t3 && Passive(e1) && Passive(e2)
    ensures match op
            case ResponseCreate(id, _) => e3 == Creates(id) && w2.session == w.session
            case AudioDeltaOp(id) => e3 == Plays(id) && w2.session == w.session
            case _ => Passive(e3)
  {
    e1 := StartActs(w, op);
    w1, t1 := Start(w, op).world, Start(w, op).events;
    e2 := InterruptActs(w1, op);
    w2, t2 := Interrupt(w1, op).world, Interrupt(w1, op).events;
    e3 := ActActs(w2, op);
    t3 := Act(w2, op).events;
  }

  lemma RunSplits(ops: seq<Op>)
    requires ops != [] && Run(ops).Went?
    ensures Run(ops[..|ops| - 1]).Went?
    ensures var r, op := Run(ops[..|ops| - 1]), ops[|ops| - 1];
            Step(r.world, op).Went? && Run(ops) == Went(Step(r.world, op).world, r.events + Step(r.world, op).events)
  {
  }

  /** A property that every effect keeps. */
  ghost predicate Kept(keeps: (World, seq<Event>) -> bool) {
    forall w, trace, w', events, e :: keeps(w, trace) && Acts(w, w', events, e) ==> keeps(w', trace + events)
  }

  /** Three moves in a row keep whatever each move keeps. */
  lemma ThreeMoves(keeps: (World, seq<Event>) -> bool, moves: (World, World, seq<Event>) -> bool,
                   w0: World, w1: World, w2: World, w3: World, trace: seq<Event>, t1: seq<Event>, t2: seq<Event>, t3: seq<Event>)
    requires forall w, trace, w', events :: keeps(w, trace) && moves(w, w', events) ==> keeps(w', trace + events)
    requires keeps(w0, trace) && moves(w0, w1, t1) && moves(w1, w2, t2) && moves(w2, w3, t3)
    ensures keeps(w3, trace + (t1 + t2 + t3))
  {
    assert keeps(w1, trace + t1);
    assert keeps(w2, trace + t1 + t2);
    assert keeps(w3, trace + t1 + t2 + t3);
    assert trace + (t1 + t2 + t3) == trace + t1 + t2 + t3;
  }

  lemma StepKeeps(keeps: (World, seq<Event>) -> bool, w: World, trace: seq<Event>, op: Op)
    requires Kept(keeps) && keeps(w, trace) && Step(w, op).Went?
    ensures keeps(Step(w, op).world, trace + Step(w, op).events)
  {
    var w1, w2, t1, t2, t3, e1, e2, e3 := StepActs(w, op);
    ThreeMoves(keeps, (w, w', events) => exists e :: Acts(w, w', events, e), w, w1, w2, Step(w, op).world, trace, t1, t2, t3);
  }

  /** Such a property, if it holds at the beginning, holds after every run. */
  lemma {:induction false} RunKeeps(ops: seq<Op>, keeps: (World, seq<Event>) -> bool)
    requires keeps(Initial, []) && Kept(keeps)
    ensures Run(ops).Went? ==> keeps(Run(ops).world, Run(ops).events)
  {
    if ops != [] && Run(ops).Went? {
      RunSplits(ops);
      var before := Run(ops[..|ops| - 1]);
      RunKeeps(ops[..|ops| - 1], keeps);
      StepKeeps(keeps, before.world, before.events, ops[|ops| - 1]);
    }
  }
}
