/** The replay harness: it drives a session through an op stream and collects the wire trace. */
module Replay {
  import opened Wrappers
  import opened Wire
  import opened SessionPhases

  datatype Op =
    | MarkActive
    | SessionUpdate
    | SessionUpdateInvalid
    | VadSpeechStart(item: string, startMs: int)
    | VadSpeechEnd(endMs: int)
    | CommitFire
    | TranscriptionComplete(item: string)
    | ResponseCreate(respId: string, item: string)
    | AudioDeltaOp(respId: string)
    | LlmComplete(epoch: int, plannedMs: int)
    | AudioDrained(epoch: int, playedMs: int)
    | ResponseFailed(playedMs: int)
    | DrainCapExpired(epoch: int, plannedMs: int, playedMs: int)
    | UnknownOp(name: string)

  datatype ReplayError = StateError(violation: Violation) | NoInFlightResponse | BadOp

  datatype World = World(session: Phases, started: bool, planned: map<int, int>, played: map<int, int>)

  datatype Outcome = Raised(error: ReplayError) | Went(world: World, events: seq<Event>)

  const Initial := World(Phases(Silent, NoResponse, false, 0, []), false, map[], map[])

  // ---------- the events the harness emits ----------

  function Plain(kind: EventType): Event {
    Event(kind, None, None, None, None, None, None, None)
  }

  const SessionCreatedEvent := Plain(SessionCreated).(sessionId := Some("sess_1"))
  const SessionUpdatedEvent := Plain(SessionUpdated).(sessionId := Some("sess_1"))

  function ItemEvent(kind: EventType, item: string): Event {
    Plain(kind).(itemId := Some(item))
  }

  function ItemAddedEvent(item: string): Event {
    Plain(ItemAdded).(addedItem := Some(item))
  }

  function ResponseCreatedEvent(id: string): Event {
    Plain(ResponseCreated).(response := Some(ResponseBody(Some(id), None, None, None, None, None)))
  }

  function DeltaEvent(id: string): Event {
    Plain(AudioDelta).(responseId := Some(id))
  }

  function AudioDoneEvent(id: string, playedMs: int): Event {
    Plain(AudioDone).(response := Some(ResponseBody(Some(id), None, None, None, Some(playedMs), None)))
  }

  function DoneEvent(id: string, status: Status, playedMs: int, output: Option<string>): Event {
    Plain(ResponseDone).(response := Some(ResponseBody(Some(id), None, None, Some(status), Some(playedMs), output)))
  }

  function TruncatedEvent(item: string, playedMs: int): Event {
    ItemEvent(AssistantTruncated, item).(audioEndMs := Some(playedMs))
  }

  // ---------- one op, in three parts ----------

  predicate Starts(op: Op) {
    !op.AudioDeltaOp? && !op.LlmComplete? && !op.AudioDrained? && !op.ResponseFailed? && !op.DrainCapExpired? && !op.UnknownOp?
  }

  /** The session starts with the first op that needs it. */
  function Start(w: World, op: Op): (o: Outcome)
    ensures o.Went?
  {
    if Starts(op) && !w.started then Went(w.(started := true), [SessionCreatedEvent]) else Went(w, [])
  }

  /** Speech over an active response cancels it. */
  function Interrupt(w: World, op: Op): Outcome {
    var resp := w.session.resp;
    if op.VadSpeechStart? && resp.Active() then
      var playedMs := Get(w.played, resp.epoch);
      Settle(w, RetireToNone(w.session),
        [DoneEvent(resp.id, Cancelled, playedMs, Some(resp.item)), TruncatedEvent(resp.item, playedMs)])
    else Went(w, [])
  }

  function Get(m: map<int, int>, k: int): int {
    if k in m then m[k] else 0
  }

  function Settle(w: World, t: Transition, events: seq<Event>): Outcome {
    if t.1.Some? then Raised(StateError(t.1.value)) else Went(w.(session := t.0), events)
  }

  /** Created and streaming responses move on to drain. */
  function ToDrain(p: Phases, plannedMs: int): Transition {
    if p.resp.Created? then
      var (q, err) := AdvanceToStreaming(p);
      if err.Some? then (q, err) else DrainFromStreaming(q, plannedMs)
    else if p.resp.Streaming? then DrainFromStreaming(p, plannedMs)
    else (p, None)
  }

  predicate IsVoiceOp(op: Op) {
    op.VadSpeechStart? || op.VadSpeechEnd? || op.CommitFire?
  }

  predicate IsResponseOp(op: Op) {
    op.ResponseCreate? || op.LlmComplete? || op.AudioDrained? || op.ResponseFailed? || op.DrainCapExpired?
  }

  function Act(w: World, op: Op): Outcome {
    if IsVoiceOp(op) then ActOnVoice(w, op)
    else if IsResponseOp(op) then ActOnResponse(w, op)
    else
      match op
      case SessionUpdate => Went(w, [SessionUpdatedEvent])
      case SessionUpdateInvalid => Went(w, [Plain(ErrorEvent), SessionUpdatedEvent])
      case TranscriptionComplete(item) => Went(w, [ItemEvent(TranscriptionCompleted, item)])
      case AudioDeltaOp(respId) => Went(w, [DeltaEvent(respId)])
      case UnknownOp(_) => Raised(BadOp)
      case _ => Went(w, [])
  }

  function ActOnVoice(w: World, op: Op): Outcome
    requires IsVoiceOp(op)
  {
    var s := w.session;
    match op
    case VadSpeechStart(item, startMs) =>
      (match s.vad
       case Speaking(_, _) => Went(w, [])
       case Stopped(spoken, start, _) => Went(w.(session := s.(vad := Speaking(spoken, start))), [])
       case Silent => Went(w.(session := s.(vad := Speaking(item, startMs))), [ItemEvent(SpeechStarted, item)]))
    case VadSpeechEnd(endMs) =>
      if s.vad.Speaking? then
        Went(w.(session := s.(vad := Stopped(s.vad.item, s.vad.startMs, endMs))), [ItemEvent(SpeechStopped, s.vad.item)])
      else Went(w, [])
    case CommitFire =>
      if s.vad.Stopped? then
        Went(w.(session := s.(vad := Silent, conversation := s.conversation + [ConversationItem(s.vad.item, User, InProgress)])),
             [ItemEvent(Committed, s.vad.item), ItemAddedEvent(s.vad.item)])
      else Went(w, [])
  }

  function ActOnResponse(w: World, op: Op): Outcome
    requires IsResponseOp(op)
  {
    var s := w.session;
    match op
    case ResponseCreate(respId, item) =>
      Settle(w, CreateFromNone(s, respId, item), [ResponseCreatedEvent(respId)])
    case LlmComplete(epoch, plannedMs) =>
      var planned := w.planned[epoch := Get(w.planned, epoch) + plannedMs];
      Settle(w.(planned := planned), ToDrain(s, planned[epoch]), [])
    case AudioDrained(epoch, playedMs) =>
      var w' := w.(played := w.played[epoch := playedMs]);
      if s.resp.Drain? && playedMs >= Get(w.planned, epoch) then
        Settle(w', RetireToNone(s),
          [AudioDoneEvent(s.resp.id, playedMs), DoneEvent(s.resp.id, Completed, playedMs, None)])
      else Went(w', [])
    case ResponseFailed(playedMs) =>
      if !s.resp.Active() then Raised(NoInFlightResponse)
      else Settle(w, RetireToNone(s), [DoneEvent(s.resp.id, Failed, playedMs, Some(s.resp.item))])
    case DrainCapExpired(epoch, plannedMs, playedMs) =>
      var planned := w.planned[epoch := Get(w.planned, epoch) + plannedMs];
      var w' := w.(planned := planned, played := w.played[epoch := playedMs]);
      var t := ToDrain(s, planned[epoch]);
      if t.1.Some? then Raised(StateError(t.1.value))
      else if t.0.resp.Drain? then
        Settle(w', RetireToNone(t.0), [DoneEvent(t.0.resp.id, Incomplete, playedMs, Some(t.0.resp.item))])
      else Settle(w', t, [])
  }

  /** What o says, after some earlier events. */
  function After(events: seq<Event>, o: Outcome): Outcome {
    if o.Raised? then o else Went(o.world, events + o.events)
  }

  function Step(w: World, op: Op): Outcome {
    var started := Start(w, op);
    var cleared := Interrupt(started.world, op);
    if cleared.Raised? then cleared else After(started.events + cleared.events, Act(cleared.world, op))
  }

  /** The world and the trace after a whole op stream, or the first error. */
  function Run(ops: seq<Op>): Outcome {
    if ops == [] then Went(Initial, [])
    else
      var before := Run(ops[..|ops| - 1]);
      if before.Raised? then before else After(before.events, Step(before.world, ops[|ops| - 1]))
  }

  lemma RunNext(ops: seq<Op>, i: nat)
    requires i < |ops|
    ensures Run(ops[..i + 1]) ==
            var before := Run(ops[..i]);
            if before.Raised? then before else After(before.events, Step(before.world, ops[i]))
  {
    assert ops[..i + 1][..i] == ops[..i];
  }

  lemma {:induction false} RaisedForever(ops: seq<Op>, i: nat)
    requires i <= |ops| && Run(ops[..i]).Raised?
    ensures Run(ops) == Run(ops[..i])
    decreases |ops| - i
  {
    if i < |ops| {
      RunNext(ops, i);
      RaisedForever(ops, i + 1);
    } else {
      assert ops[..i] == ops;
    }
  }

  // ---------- the harness itself ----------

  method DriveToDrain(s: SessionState, plannedMs: int) returns (raised: Option<Violation>)
    modifies s
    ensures (s.View(), raised) == ToDrain(old(s.View()), plannedMs)
  {
    raised := None;
    if s.resp.Created? {
      raised := s.RespAdvanceToStreaming();
      if raised.Some? { return; }
    }
    if s.resp.Streaming? {
      raised := s.RespDrain(plannedMs);
    }
  }

  method ReplayOps(ops: seq<Op>) returns (result: Result<seq<Event>, ReplayError>)
    ensures result == match Run(ops) case Raised(e) => Failure(e) case Went(_, trace) => Success(trace)
  {
    var s := new SessionState();
    var trace: seq<Event> := [];
    var started := false;
    var planned: map<int, int>, played: map<int, int> := map[], map[];
    for i := 0 to |ops|
      invariant fresh(s)
      invariant Run(ops[..i]) == Went(World(s.View(), started, planned, played), trace)
    {
      RunNext(ops, i);
      var error;
      started, planned, played, trace, error := DriveOp(s, ops[i], started, planned, played, trace);
      if error.Some? {
        RaisedForever(ops, i + 1);
        return Failure(error.value);
      }
    }
    assert ops[..|ops|] == ops;
    return Success(trace);
  }

  /** The harness stands where outcome o says, its trace longer by o's events, or has o's error. */
  ghost predicate Reflects(o: Outcome, w: World, trace: seq<Event>, trace': seq<Event>, error: Option<ReplayError>) {
    match o
    case Raised(e) => error == Some(e)
    case Went(w', events) => error.None? && w' == w && trace' == trace + events
  }

  lemma AfterReflects(o: Outcome, w: World, trace: seq<Event>, events: seq<Event>, trace': seq<Event>, error: Option<ReplayError>)
    requires Reflects(o, w, trace + events, trace', error)
    ensures Reflects(After(events, o), w, trace, trace', error)
  {
  }

  method DriveOp(s: SessionState, op: Op, started: bool, planned: map<int, int>, played: map<int, int>, trace: seq<Event>)
    returns (started': bool, planned': map<int, int>, played': map<int, int>, trace': seq<Event>, error: Option<ReplayError>)
    modifies s
    ensures Reflects(Step(World(old(s.View()), started, planned, played), op),
                     World(s.View(), started', planned', played'), trace, trace', error)
  {
    ghost var w := World(s.View(), started, planned, played);
    planned', played' := planned, played;
    started', trace' := started, trace;
    if Starts(op) && !started {
      trace' := trace' + [SessionCreatedEvent];
      started' := true;
    }
    trace', error := CancelActive(s, op, started', planned, played, trace');
    if error.Some? { return; }
    ghost var w2 := World(s.View(), started', planned, played);
    assert trace' == trace + (Start(w, op).events + Interrupt(Start(w, op).world, op).events);
    started', planned', played', trace', error := Drive(s, op, started', planned', played', trace');
    AfterReflects(Act(w2, op), World(s.View(), started', planned', played'), trace,
      Start(w, op).events + Interrupt(Start(w, op).world, op).events, trace', error);
  }

  /** Cancels the active response when speech starts. */
  method CancelActive(s: SessionState, op: Op, ghost started: bool, ghost planned: map<int, int>, played: map<int, int>,
                      trace: seq<Event>)
    returns (trace': seq<Event>, error: Option<ReplayError>)
    modifies s
    ensures Reflects(Interrupt(World(old(s.View()), started, planned, played), op),
                     World(s.View(), started, planned, played), trace, trace', error)
  {
    trace', error := trace, None;
    if op.VadSpeechStart? && s.resp.Active() {
      var playedMs := Get(played, s.resp.epoch);
      trace' := trace + [DoneEvent(s.resp.id, Cancelled, playedMs, Some(s.resp.item)), TruncatedEvent(s.resp.item, playedMs)];
      var raised := s.RespRetireToNone();
      if raised.Some? {
        error := Some(StateError(raised.value));
      }
    }
  }

  /** The body of the op switch, after the session has started and any response was interrupted. */
  method Drive(s: SessionState, op: Op, started: bool, planned: map<int, int>, played: map<int, int>, trace: seq<Event>)
    returns (started': bool, planned': map<int, int>, played': map<int, int>, trace': seq<Event>, error: Option<ReplayError>)
    modifies s
    ensures Reflects(Act(World(old(s.View()), started, planned, played), op),
                     World(s.View(), started', planned', played'), trace, trace', error)
  {
    started', planned', played', trace', error := started, planned, played, trace, None;
    var raised: Option<Violation> := None;
    match op {
    case MarkActive =>
    case SessionUpdate =>
      trace' := trace + [SessionUpdatedEvent];
    case SessionUpdateInvalid =>
      trace' := trace + [Plain(ErrorEvent), SessionUpdatedEvent];
    case VadSpeechStart(item, startMs) =>
      match s.vad {
        case Speaking(_, _) =>
        case Stopped(spoken, start, _) =>
          s.vad := Speaking(spoken, start);
        case Silent =>
          s.vad := Speaking(item, startMs);
          trace' := trace + [ItemEvent(SpeechStarted, item)];
      }
    case VadSpeechEnd(endMs) =>
      if s.vad.Speaking? {
        var item := s.vad.item;
        s.vad := Stopped(item, s.vad.startMs, endMs);
        trace' := trace + [ItemEvent(SpeechStopped, item)];
      }
    case CommitFire =>
      if s.vad.Stopped? {
        var item := s.vad.item;
        s.vad := Silent;
        s.conversation := s.conversation + [ConversationItem(item, User, InProgress)];
        trace' := trace + [ItemEvent(Committed, item), ItemAddedEvent(item)];
      }
    case TranscriptionComplete(item) =>
      trace' := trace + [ItemEvent(TranscriptionCompleted, item)];
    case ResponseCreate(respId, item) =>
      raised := s.RespCreateFromNone(respId, item);
      trace' := trace + [ResponseCreatedEvent(respId)];
    case AudioDeltaOp(respId) =>
      trace' := trace + [DeltaEvent(respId)];
    case LlmComplete(_, _) =>
      planned', played', trace', error := DriveResponse(s, op, started, planned, played, trace);
      return;
    case AudioDrained(_, _) =>
      planned', played', trace', error := DriveResponse(s, op, started, planned, played, trace);
      return;
    case ResponseFailed(_) =>
      planned', played', trace', error := DriveResponse(s, op, started, planned, played, trace);
      return;
    case DrainCapExpired(_, _, _) =>
      planned', played', trace', error := DriveResponse(s, op, started, planned, played, trace);
      return;
    case UnknownOp(_) =>
      error := Some(BadOp);
    }
    if raised.Some? {
      error := Some(StateError(raised.value));
    }
  }

  /** The ops that move a response on, or end it. */
  method DriveResponse(s: SessionState, op: Op, ghost started: bool, planned: map<int, int>, played: map<int, int>,
                       trace: seq<Event>)
    returns (planned': map<int, int>, played': map<int, int>, trace': seq<Event>, error: Option<ReplayError>)
    requires op.LlmComplete? || op.AudioDrained? || op.ResponseFailed? || op.DrainCapExpired?
    modifies s
    ensures Reflects(ActOnResponse(World(old(s.View()), started, planned, played), op),
                     World(s.View(), started, planned', played'), trace, trace', error)
  {
    planned', played', trace', error := planned, played, trace, None;
    var raised: Option<Violation> := None;
    match op {
    case AudioDrained(epoch, playedMs) =>
      played' := played[epoch := playedMs];
      if s.resp.Drain? && playedMs >= Get(planned, epoch) {
        trace' := trace + [AudioDoneEvent(s.resp.id, playedMs), DoneEvent(s.resp.id, Completed, playedMs, None)];
        raised := s.RespRetireToNone();
      }
    case ResponseFailed(playedMs) =>
      if !s.resp.Active() {
        error := Some(NoInFlightResponse);
      } else {
        trace' := trace + [DoneEvent(s.resp.id, Failed, playedMs, Some(s.resp.item))];
        raised := s.RespRetireToNone();
      }
    case LlmComplete(epoch, plannedMs) =>
      planned' := planned[epoch := Get(planned, epoch) + plannedMs];
      raised := DriveToDrain(s, planned'[epoch]);
    case DrainCapExpired(epoch, plannedMs, playedMs) =>
      planned', played', trace', raised := ExpireDrainCap(s, epoch, plannedMs, playedMs, started, planned, played, trace);
    }
    if raised.Some? {
      error := Some(StateError(raised.value));
    }
  }

  /** The last part of the audio is planned, and the response ends however much of it was played. */
  method ExpireDrainCap(s: SessionState, epoch: int, plannedMs: int, playedMs: int, ghost started: bool,
                        planned: map<int, int>, played: map<int, int>, trace: seq<Event>)
    returns (planned': map<int, int>, played': map<int, int>, trace': seq<Event>, raised: Option<Violation>)
    modifies s
    ensures Reflects(ActOnResponse(World(old(s.View()), started, planned, played), DrainCapExpired(epoch, plannedMs, playedMs)),
                     World(s.View(), started, planned', played'), trace, trace',
                     if raised.Some? then Some(StateError(raised.value)) else None)
  {
    planned', played', trace' := planned[epoch := Get(planned, epoch) + plannedMs], played, trace;
    raised := DriveToDrain(s, planned'[epoch]);
    if raised.None? {
      played' := played[epoch := playedMs];
      if s.resp.Drain? {
        trace' := trace + [DoneEvent(s.resp.id, Incomplete, playedMs, Some(s.resp.item))];
        raised := s.RespRetireToNone();
      }
    }
  }
}
