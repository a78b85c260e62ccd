/** What a replay puts on the wire, told from the op stream alone: which op ends a response, as what and with how much
    audio played, where speech starts and which turn a stop belongs to, and what only repeats an op. */
module ReplayWire {
  import opened Wrappers
  import opened Wire
  import opened SessionPhases
  import opened Replay
  import opened ReplayEffects

  // ---------- the op stream ----------

  /** The op tells how much of an epoch's audio has been played. */
  predicate TellsPlayed(op: Op, epoch: int) {
    (op.AudioDrained? || op.DrainCapExpired?) && op.epoch == epoch
  }

  /** ms is what the latest such op says, or 0 if there is none. */
  ghost predicate LatestPlayed(ops: seq<Op>, epoch: int, ms: int) {
    if exists i: nat :: i < |ops| && TellsPlayed(ops[i], epoch)
    then exists i: nat :: TellsLast(ops, i, epoch) && ops[i].playedMs == ms
    else ms == 0
  }

  ghost predicate TellsLast(ops: seq<Op>, i: nat, epoch: int) {
    i < |ops| && TellsPlayed(ops[i], epoch) && forall j :: i < j < |ops| ==> !TellsPlayed(ops[j], epoch)
  }

  /** How much audio the ops of an epoch bring, together. */
  function PlannedMs(ops: seq<Op>, epoch: int): int {
    if ops == [] then 0
    else
      var op := ops[|ops| - 1];
      PlannedMs(ops[..|ops| - 1], epoch) +
      if (op.LlmComplete? || op.DrainCapExpired?) && op.epoch == epoch then op.plannedMs else 0
  }

  ghost function Creations(ops: seq<Op>): set<nat> {
    set c: nat | c < |ops| && ops[c].ResponseCreate?
  }

  /** The model has completed since op c, so the response created there only drains. */
  ghost predicate Drains(ops: seq<Op>, c: nat, j: nat) {
    exists i :: c < i < j && i < |ops| && ops[i].LlmComplete?
  }

  /** Op j would end the response that op c created: speech, failure and the drain cap do at once, a drained epoch once
      the model has completed and no less has been played than the epoch's ops brought. */
  ghost predicate EndsAt(ops: seq<Op>, c: nat, j: nat) {
    c < j < |ops| &&
    match ops[j]
    case VadSpeechStart(_, _) => true
    case ResponseFailed(_) => true
    case DrainCapExpired(_, _, _) => true
    case AudioDrained(epoch, ms) => Drains(ops, c, j) && ms >= PlannedMs(ops[..j], epoch)
    case _ => false
  }

  /** Op c created a response, and no later op ended it. */
  ghost predicate OpenSince(ops: seq<Op>, c: nat) {
    c < |ops| && ops[c].ResponseCreate? && forall j: nat :: !EndsAt(ops, c, j)
  }

  /** How op j shows the end of the response of op c on the wire: a cancelled one with what its epoch had played. */
  ghost predicate EndsAs(ops: seq<Op>, c: nat, j: nat, done: Event)
    requires c < |ops| && j < |ops| && ops[c].ResponseCreate?
  {
    var id, item := ops[c].respId, Some(ops[c].item);
    match ops[j]
    case VadSpeechStart(_, _) =>
      exists ms :: LatestPlayed(ops[..j], |Creations(ops[..j])|, ms) && done == DoneEvent(id, Cancelled, ms, item)
    case ResponseFailed(ms) => done == DoneEvent(id, Failed, ms, item)
    case DrainCapExpired(_, _, ms) => done == DoneEvent(id, Incomplete, ms, item)
    case AudioDrained(_, ms) => done == DoneEvent(id, Completed, ms, None)
    case _ => false
  }

  /** Kinds of events to look at: done events alone, with those that go with them, starts of speech, and
      those that only repeat an op. */
  datatype Class = DoneEvents | ClosingEvents | SpeechStarts | Echoes

  predicate IsOf(c: Class, ev: Event) {
    match c
    case DoneEvents => ev.kind.ResponseDone?
    case ClosingEvents => ev.kind.ResponseDone? || ev.kind.AudioDone? || ev.kind.AssistantTruncated?
    case SpeechStarts => ev.kind.SpeechStarted?
    case Echoes =>
      ev.kind.SessionUpdated? || ev.kind.ErrorEvent? || ev.kind.TranscriptionCompleted? || ev.kind.AudioDelta? ||
      ev.kind.ResponseCreated?
  }

  function Only(c: Class, events: seq<Event>): seq<Event> {
    if events == [] then []
    else
      var last := events[|events| - 1];
      Only(c, events[..|events| - 1]) + if IsOf(c, last) then [last] else []
  }

  // ---------- the session follows the op stream ----------

  ghost predicate TablesFollow(ops: seq<Op>, w: World) {
    && (forall e :: LatestPlayed(ops, e, Get(w.played, e)))
    && (forall e :: Get(w.planned, e) == PlannedMs(ops, e))
    && w.session.lastEpoch == |Creations(ops)|
  }

  ghost predicate ResponseFollows(ops: seq<Op>, w: World) {
    var resp := w.session.resp;
    && (resp.Active() <==> exists c :: OpenSince(ops, c))
    && (forall c :: OpenSince(ops, c) ==> ResponseIs(ops, w, c))
    && (forall c, d :: OpenSince(ops, c) && OpenSince(ops, d) ==> c == d)
  }

  ghost predicate ResponseIs(ops: seq<Op>, w: World, c: nat)
    requires OpenSince(ops, c)
  {
    var resp := w.session.resp;
    && resp.Active() && resp.id == ops[c].respId && resp.item == ops[c].item && resp.epoch == |Creations(ops)|
    && (if Drains(ops, c, |ops|) then resp.Drain? else resp.Created?)
  }

  lemma ActTables(w: World, op: Op)
    requires Act(w, op).Went?
    ensures TablesMove(w, op, Act(w, op).world)
  {
    hide CheckState;
    if IsResponseOp(op) {
      ResponseTables(w, op);
    }
  }

  lemma ResponseTables(w: World, op: Op)
    requires IsResponseOp(op) && ActOnResponse(w, op).Went?
    ensures TablesMove(w, op, ActOnResponse(w, op).world)
  {
    hide CheckState;
  }

  /** The tables and the count of epochs change as the op says. */
  predicate TablesMove(w: World, op: Op, w': World) {
    && w'.played == (if op.AudioDrained? || op.DrainCapExpired? then w.played[op.epoch := op.playedMs] else w.played)
    && w'.planned == (if op.LlmComplete? || op.DrainCapExpired? then
                        w.planned[op.epoch := Get(w.planned, op.epoch) + op.plannedMs]
                      else w.planned)
    && w'.session.lastEpoch == w.session.lastEpoch + if op.ResponseCreate? then 1 else 0
  }

  lemma TablesNext(w: World, op: Op)
    requires Step(w, op).Went?
    ensures TablesMove(w, op, Step(w, op).world)
  {
    hide CheckState, Act;
    ActTables(Interrupt(Start(w, op).world, op).world, op);
  }

  lemma PlannedMsNext(ops: seq<Op>, op: Op, epoch: int)
    ensures PlannedMs(ops + [op], epoch) == PlannedMs(ops, epoch) +
              if (op.LlmComplete? || op.DrainCapExpired?) && op.epoch == epoch then op.plannedMs else 0
  {
    assert (ops + [op])[..|ops|] == ops;
  }

  lemma LatestPlayedNext(ops: seq<Op>, op: Op, epoch: int, ms: int)
    requires LatestPlayed(ops, epoch, ms)
    ensures LatestPlayed(ops + [op], epoch, if TellsPlayed(op, epoch) then op.playedMs else ms)
  {
    var more := ops + [op];
    assert forall i :: 0 <= i < |ops| ==> more[i] == ops[i];
    if TellsPlayed(op, epoch) {
      assert TellsLast(more, |ops|, epoch);
    } else if i: nat :| TellsLast(ops, i, epoch) && ops[i].playedMs == ms {
      assert TellsLast(more, i, epoch) && TellsPlayed(more[i], epoch);
    } else {
      forall i: nat | i < |more|
        ensures !TellsPlayed(more[i], epoch)
      {}
    }
  }

  lemma CreationsNext(ops: seq<Op>, op: Op)
    ensures |Creations(ops + [op])| == |Creations(ops)| + if op.ResponseCreate? then 1 else 0
  {
    assert Creations(ops + [op]) == Creations(ops) + if op.ResponseCreate? then {|ops|} else {};
  }

  lemma TablesStep(ops: seq<Op>, w: World, op: Op)
    requires TablesFollow(ops, w) && Step(w, op).Went?
    ensures TablesFollow(ops + [op], Step(w, op).world)
  {
    hide Step, LatestPlayed, PlannedMs;
    TablesNext(w, op);
    CreationsNext(ops, op);
    var more, w' := ops + [op], Step(w, op).world;
    forall e
      ensures LatestPlayed(more, e, Get(w'.played, e))
    {
      LatestPlayedNext(ops, op, e, Get(w.played, e));
    }
    forall e
      ensures Get(w'.planned, e) == PlannedMs(more, e)
    {
      PlannedMsNext(ops, op, e);
    }
  }

  /** What an op that goes through makes of the response. */
  lemma ResponseNext(w: World, op: Op)
    requires Step(w, op).Went?
    ensures var resp, resp' := w.session.resp, Step(w, op).world.session.resp;
            match op
            case ResponseCreate(id, item) => !resp.Active() && resp' == Created(id, item, w.session.lastEpoch + 1)
            case VadSpeechStart(_, _) => resp'.NoResponse?
            case ResponseFailed(_) => resp.Active() && resp'.NoResponse?
            case DrainCapExpired(_, _, _) => resp'.NoResponse?
            case AudioDrained(epoch, ms) =>
              resp' == if resp.Drain? && ms >= Get(w.planned, epoch) then NoResponse else resp
            case LlmComplete(_, _) =>
              if resp.Created? || resp.Streaming? then
                resp'.Drain? && resp'.id == resp.id && resp'.item == resp.item && resp'.epoch == resp.epoch
              else resp' == resp
            case _ => resp' == resp
  {
    hide CheckState;
  }

  lemma EndsAtBefore(ops: seq<Op>, op: Op, c: nat, j: nat)
    requires j < |ops|
    ensures EndsAt(ops + [op], c, j) <==> EndsAt(ops, c, j)
    ensures Drains(ops + [op], c, j) <==> Drains(ops, c, j)
  {
    var more := ops + [op];
    assert more[..j] == ops[..j] && forall i :: 0 <= i < |ops| ==> more[i] == ops[i];
  }

  lemma OpenNext(ops: seq<Op>, op: Op, c: nat)
    ensures OpenSince(ops + [op], c) <==>
              if c < |ops| then OpenSince(ops, c) && !EndsAt(ops + [op], c, |ops|) else c == |ops| && op.ResponseCreate?
  {
    var more := ops + [op];
    forall j: nat | j < |ops| { EndsAtBefore(ops, op, c, j); }
    if c < |ops| && OpenSince(more, c) {
      forall j: nat
        ensures !EndsAt(ops, c, j)
      {
        if j < |ops| { assert !EndsAt(more, c, j); }
      }
    }
    if c < |ops| && OpenSince(ops, c) && !EndsAt(more, c, |ops|) {
      forall j: nat
        ensures !EndsAt(more, c, j)
      {
        if j < |ops| { assert !EndsAt(ops, c, j); }
      }
    }
  }

  lemma OpenIsLatest(ops: seq<Op>, op: Op, w: World)
    requires ResponseFollows(ops, w) && Step(w, op).Went? && op.ResponseCreate?
    ensures forall c: nat :: c < |ops| ==> !OpenSince(ops + [op], c)
  {
    ResponseNext(w, op);
    forall c: nat | c < |ops| ensures !OpenSince(ops + [op], c) { OpenNext(ops, op, c); }
  }

  /** A response that was open stays open, and is still the session's, unless the op ends it. */
  lemma OpenFollows(ops: seq<Op>, w: World, op: Op, c: nat)
    requires TablesFollow(ops, w) && Step(w, op).Went? && !op.ResponseCreate?
    requires c < |ops| && OpenSince(ops, c) && ResponseIs(ops, w, c)
    ensures OpenSince(ops + [op], c) <==> Step(w, op).world.session.resp.Active()
    ensures OpenSince(ops + [op], c) ==> ResponseIs(ops + [op], Step(w, op).world, c)
  {
    hide Step, OpenSince, TablesMove, PlannedMs;
    ResponseNext(w, op);
    OpenNext(ops, op, c);
    CreationsNext(ops, op);
    DrainsNext(ops, op, c);
    EndsNow(ops, op, c);
  }

  lemma DrainsNext(ops: seq<Op>, op: Op, c: nat)
    requires c < |ops|
    ensures Drains(ops + [op], c, |ops|) <==> Drains(ops, c, |ops|)
    ensures Drains(ops + [op], c, |ops| + 1) <==> Drains(ops, c, |ops|) || op.LlmComplete?
  {
    var more := ops + [op];
    assert forall i :: 0 <= i < |ops| ==> more[i] == ops[i];
    if i :| c < i < |ops| && ops[i].LlmComplete? { assert more[i].LlmComplete?; }
    if op.LlmComplete? { assert more[|ops|].LlmComplete?; }
  }

  lemma EndsNow(ops: seq<Op>, op: Op, c: nat)
    requires c < |ops|
    ensures EndsAt(ops + [op], c, |ops|) <==>
              || op.VadSpeechStart? || op.ResponseFailed? || op.DrainCapExpired?
              || (op.AudioDrained? && Drains(ops, c, |ops|) && op.playedMs >= PlannedMs(ops, op.epoch))
  {
    DrainsNext(ops, op, c);
    assert (ops + [op])[..|ops|] == ops;
  }

  lemma ResponseStep(ops: seq<Op>, w: World, op: Op)
    requires TablesFollow(ops, w) && ResponseFollows(ops, w) && Step(w, op).Went?
    ensures ResponseFollows(ops + [op], Step(w, op).world)
  {
    hide Step, OpenSince, TablesFollow, ResponseIs;
    var more, w' := ops + [op], Step(w, op).world;
    forall c: nat
      ensures OpenSince(more, c) ==> c <= |ops| && (c < |ops| ==> OpenSince(ops, c))
      ensures c == |ops| ==> (OpenSince(more, c) <==> op.ResponseCreate?)
      ensures OpenSince(ops, c) ==> c < |ops|
    {
      OpenNext(ops, op, c);
      OpenIsPast(ops, c);
    }
    if op.ResponseCreate? {
      OpenIsLatest(ops, op, w);
      CreatedFollows(ops, w, op);
    } else {
      forall c: nat | OpenSince(ops, c) { OpenFollows(ops, w, op, c); }
      ResponseNext(w, op);
    }
  }

  lemma OpenIsPast(ops: seq<Op>, c: nat)
    ensures OpenSince(ops, c) ==> c < |ops|
  {}

  lemma CreatedFollows(ops: seq<Op>, w: World, op: Op)
    requires TablesFollow(ops, w) && Step(w, op).Went? && op.ResponseCreate?
    ensures OpenSince(ops + [op], |ops|) && ResponseIs(ops + [op], Step(w, op).world, |ops|)
    ensures Step(w, op).world.session.resp.Active()
  {
    hide Step;
    OpenNext(ops, op, |ops|);
    ResponseNext(w, op);
    CreationsNext(ops, op);
  }

  /** In every run the tables and the response are what the op stream says. */
  lemma {:induction false} RunFollows(ops: seq<Op>)
    requires Run(ops).Went?
    ensures TablesFollow(ops, Run(ops).world) && ResponseFollows(ops, Run(ops).world)
  {
    if ops == [] {
      NothingFollows();
    } else {
      var n := |ops| - 1;
      RunSplits(ops);
      RunFollows(ops[..n]);
      hide TablesFollow, ResponseFollows, Step;
      TablesStep(ops[..n], Run(ops[..n]).world, ops[n]);
      ResponseStep(ops[..n], Run(ops[..n]).world, ops[n]);
      assert ops == ops[..n] + [ops[n]];
    }
  }

  lemma NothingFollows()
    ensures TablesFollow([], Initial) && ResponseFollows([], Initial)
  {
    assert Creations([]) == {};
  }

  // ---------- the ends of responses on the wire ----------

  lemma {:induction false} OnlyConcat(c: Class, a: seq<Event>, b: seq<Event>)
    ensures Only(c, a + b) == Only(c, a) + Only(c, b)
  {
    if b == [] {
      assert a + b == a;
    } else {
      var n := |b| - 1;
      OnlyConcat(c, a, b[..n]);
      assert (a + b)[..|a + b| - 1] == a + b[..n];
    }
  }

  lemma FewOnly(c: Class, events: seq<Event>)
    requires |events| <= 2
    ensures events == [] ==> Only(c, events) == []
    ensures |events| == 1 ==> Only(c, events) == if IsOf(c, events[0]) then events else []
    ensures |events| == 2 ==>
              Only(c, events) == (if IsOf(c, events[0]) then [events[0]] else []) + (if IsOf(c, events[1]) then [events[1]] else [])
  {
    hide *;
    NoneOnly(c);
    if |events| == 1 {
      assert events == [events[0]];
      OneOnly(c, events[0]);
    } else if |events| == 2 {
      assert events == [events[0]] + [events[1]];
      OneOnly(c, events[0]);
      OneOnly(c, events[1]);
      OnlyConcat(c, [events[0]], [events[1]]);
    }
  }

  lemma NoneOnly(c: Class)
    ensures Only(c, []) == []
  {}

  lemma OneOnly(c: Class, ev: Event)
    ensures Only(c, [ev]) == if IsOf(c, ev) then [ev] else []
  {
    assert [ev][..0] == [];
  }

  /** What the three parts of an op emit. */
  lemma StepOnly(c: Class, w: World, op: Op)
    requires Step(w, op).Went?
    ensures var w1 := Start(w, op).world;
            var o := Interrupt(w1, op);
            Only(c, Step(w, op).events) == Only(c, o.events) + Only(c, Act(o.world, op).events)
  {
    hide Interrupt, Act, Only;
    var started := Start(w, op);
    var cleared := Interrupt(started.world, op);
    var acted := Act(cleared.world, op);
    FewOnly(c, started.events);
    OnlyConcat(c, started.events + cleared.events, acted.events);
    OnlyConcat(c, started.events, cleared.events);
  }

  /** What an op puts on the wire about the end of a response, told from the world it finds. */
  ghost function Ending(w: World, op: Op): seq<Event> {
    var resp := w.session.resp;
    if !resp.Active() then []
    else
      match op
      case VadSpeechStart(_, _) => [DoneEvent(resp.id, Cancelled, Get(w.played, resp.epoch), Some(resp.item))]
      case ResponseFailed(ms) => [DoneEvent(resp.id, Failed, ms, Some(resp.item))]
      case DrainCapExpired(_, _, ms) => [DoneEvent(resp.id, Incomplete, ms, Some(resp.item))]
      case AudioDrained(epoch, ms) =>
        if resp.Drain? && ms >= Get(w.planned, epoch) then [DoneEvent(resp.id, Completed, ms, None)] else []
      case _ => []
  }

  lemma ActDones(w: World, op: Op)
    requires Act(w, op).Went? && (op.VadSpeechStart? ==> !w.session.resp.Active())
    ensures |Act(w, op).events| <= 2 && Only(DoneEvents, Act(w, op).events) == Ending(w, op)
  {
    hide CheckState, Only;
    var events := Act(w, op).events;
    assert |events| <= 2;
    FewOnly(DoneEvents, events);
  }

  lemma InterruptDones(w: World, op: Op)
    requires Interrupt(w, op).Went?
    ensures Only(DoneEvents, Interrupt(w, op).events) == if op.VadSpeechStart? then Ending(w, op) else []
  {
    hide CheckState, Only;
    var events := Interrupt(w, op).events;
    FewOnly(DoneEvents, events);
  }

  lemma StepEnding(w: World, op: Op)
    requires Step(w, op).Went?
    ensures Only(DoneEvents, Step(w, op).events) == Ending(w, op)
  {
    hide CheckState, Only, Act;
    StepOnly(DoneEvents, w, op);
    var w1 := Start(w, op).world;
    InterruptDones(w1, op);
    ActDones(Interrupt(w1, op).world, op);
  }

  /** Op j ended the response of op c. */
  ghost predicate Ended(ops: seq<Op>, c: nat, j: nat) {
    j < |ops| && OpenSince(ops[..j], c) && EndsAt(ops, c, j)
  }

  /** An op tells of the end of a response exactly if it ends one, and tells which, how and with how much audio. */
  lemma OpEnds(ops: seq<Op>, op: Op) returns (c: nat)
    requires Run(ops).Went? && Step(Run(ops).world, op).Went?
    ensures var dones := Only(DoneEvents, Step(Run(ops).world, op).events);
            if dones == [] then forall d: nat :: !Ended(ops + [op], d, |ops|)
            else |dones| == 1 && ShowsEnd(ops + [op], dones[0], c, |ops|) && forall d: nat :: Ended(ops + [op], d, |ops|) ==> d == c
  {
    var w := Run(ops).world;
    RunFollows(ops);
    StepEnding(w, op);
    c := EndingShows(ops, w, op);
  }

  lemma EndingShows(ops: seq<Op>, w: World, op: Op) returns (c: nat)
    requires TablesFollow(ops, w) && ResponseFollows(ops, w)
    ensures |Ending(w, op)| <= 1
    ensures if Ending(w, op) == [] then forall d: nat :: !Ended(ops + [op], d, |ops|)
            else ShowsEnd(ops + [op], Ending(w, op)[0], c, |ops|) && forall d: nat :: Ended(ops + [op], d, |ops|) ==> d == c
  {
    assert (ops + [op])[..|ops|] == ops;
    c := 0;
    if d: nat :| OpenSince(ops, d) {
      c := d;
      OpenIsPast(ops, c);
      OpenEnds(ops, w, op, c);
    }
  }

  lemma OpenEnds(ops: seq<Op>, w: World, op: Op, c: nat)
    requires c < |ops| && OpenSince(ops, c) && ResponseIs(ops, w, c) && TablesFollow(ops, w)
    ensures EndsAt(ops + [op], c, |ops|) <==> Ending(w, op) != []
    ensures Ending(w, op) != [] ==> EndsAs(ops + [op], c, |ops|, Ending(w, op)[0])
  {
    assert ops[c].ResponseCreate?;
    hide OpenSince;
    EndsNow(ops, op, c);
    assert (ops + [op])[..|ops|] == ops;
    assert LatestPlayed(ops, |Creations(ops)|, Get(w.played, |Creations(ops)|));
  }

  /** The done events are the ends of the responses listed, each by the op that ended it, in order. */
  ghost predicate ShowsEnds(ops: seq<Op>, dones: seq<Event>, ends: seq<(nat, nat)>) {
    && |dones| == |ends|
    && (forall k :: 0 <= k < |ends| ==> ShowsEnd(ops, dones[k], ends[k].0, ends[k].1))
    && (forall k, l :: 0 <= k < l < |ends| ==> ends[k].1 < ends[l].1)
    && (forall c: nat, j: nat :: Ended(ops, c, j) ==> Listed(ends, c, j))
  }

  ghost predicate Listed(ends: seq<(nat, nat)>, c: nat, j: nat) {
    exists k :: 0 <= k < |ends| && ends[k] == (c, j)
  }

  ghost predicate ShowsEnd(ops: seq<Op>, done: Event, c: nat, j: nat) {
    Ended(ops, c, j) && c < |ops| && ops[c].ResponseCreate? && EndsAs(ops, c, j, done)
  }

  lemma EndedBefore(ops: seq<Op>, op: Op, c: nat, j: nat)
    requires j < |ops|
    ensures Ended(ops + [op], c, j) <==> Ended(ops, c, j)
    ensures c < |ops| && ops[c].ResponseCreate? ==> forall done :: EndsAs(ops + [op], c, j, done) <==> EndsAs(ops, c, j, done)
  {
    assert (ops + [op])[..j] == ops[..j];
    EndsAtBefore(ops, op, c, j);
  }

  /** In every run the done events on the wire are exactly the ends of its responses. */
  lemma {:induction false} RunShowsEnds(ops: seq<Op>) returns (ends: seq<(nat, nat)>)
    requires Run(ops).Went?
    ensures ShowsEnds(ops, Only(DoneEvents, Run(ops).events), ends)
  {
    hide Step, ShowsEnds, ShowsEnd, Ended, Only, Run;
    if ops == [] {
      ends := [];
      NothingEnds();
    } else {
      var n := |ops| - 1;
      var before, op := ops[..n], ops[n];
      assert ops == before + [op];
      RunSplits(ops);
      var earlier := RunShowsEnds(before);
      ends := StepShowsEnds(before, op, earlier);
    }
  }

  lemma NothingEnds()
    ensures ShowsEnds([], Only(DoneEvents, Run([]).events), [])
  {}

  lemma StepShowsEnds(ops: seq<Op>, op: Op, earlier: seq<(nat, nat)>) returns (ends: seq<(nat, nat)>)
    requires Run(ops).Went? && Step(Run(ops).world, op).Went? && ShowsEnds(ops, Only(DoneEvents, Run(ops).events), earlier)
    ensures ShowsEnds(ops + [op], Only(DoneEvents, Run(ops).events + Step(Run(ops).world, op).events), ends)
  {
    hide Step, ShowsEnds, ShowsEnd, Ended, Only, Run;
    var trace, events := Run(ops).events, Step(Run(ops).world, op).events;
    var c := OpEnds(ops, op);
    OnlyConcat(DoneEvents, trace, events);
    ends := EndsGrow(ops, op, Only(DoneEvents, trace), earlier, Only(DoneEvents, events), c);
  }

  lemma EndsGrow(ops: seq<Op>, op: Op, dones: seq<Event>, ends: seq<(nat, nat)>, more: seq<Event>, c: nat)
    returns (longer: seq<(nat, nat)>)
    requires ShowsEnds(ops, dones, ends)
    requires if more == [] then forall d: nat :: !Ended(ops + [op], d, |ops|)
             else |more| == 1 && ShowsEnd(ops + [op], more[0], c, |ops|) && forall d: nat :: Ended(ops + [op], d, |ops|) ==> d == c
    ensures ShowsEnds(ops + [op], dones + more, longer)
  {
    EndsCarry(ops, op, dones, ends);
    if more == [] {
      longer := ends;
      EndsUpTo(ops + [op], |ops|, longer);
      assert dones + more == dones;
    } else {
      longer := EndsAdd(ops + [op], |ops|, dones, ends, more[0], c);
      assert more == [more[0]];
    }
  }

  /** The first n ops are shown to end what is listed. */
  ghost predicate ShowsSoFar(ops: seq<Op>, n: nat, dones: seq<Event>, ends: seq<(nat, nat)>) {
    && |dones| == |ends|
    && (forall k :: 0 <= k < |ends| ==> ends[k].1 < n && ShowsEnd(ops, dones[k], ends[k].0, ends[k].1))
    && (forall k, l :: 0 <= k < l < |ends| ==> ends[k].1 < ends[l].1)
    && (forall c: nat, j: nat :: j < n && Ended(ops, c, j) ==> Listed(ends, c, j))
  }

  lemma EndsUpTo(ops: seq<Op>, n: nat, ends: seq<(nat, nat)>)
    requires |ops| == n + 1 && forall d: nat :: !Ended(ops, d, n)
    requires forall c: nat, j: nat :: j < n && Ended(ops, c, j) ==> Listed(ends, c, j)
    ensures forall c: nat, j: nat :: Ended(ops, c, j) ==> Listed(ends, c, j)
  {
    hide OpenSince, EndsAt, Listed;
  }

  lemma EndsAdd(ops: seq<Op>, n: nat, dones: seq<Event>, ends: seq<(nat, nat)>, done: Event, c: nat)
    returns (longer: seq<(nat, nat)>)
    requires |ops| == n + 1 && ShowsSoFar(ops, n, dones, ends) && ShowsEnd(ops, done, c, n)
    requires forall d: nat :: Ended(ops, d, n) ==> d == c
    ensures ShowsEnds(ops, dones + [done], longer)
  {
    longer := ends + [(c, n)];
    forall d: nat, j: nat | Ended(ops, d, j)
      ensures Listed(longer, d, j)
    {
      assert j < |ops|;
      if j < n {
        var k :| 0 <= k < |ends| && ends[k] == (d, j);
        assert longer[k] == (d, j);
      } else {
        assert longer[|ends|] == (d, j);
      }
    }
    hide Ended, ShowsEnd, Listed;
  }

  lemma EndsCarry(ops: seq<Op>, op: Op, dones: seq<Event>, ends: seq<(nat, nat)>)
    requires ShowsEnds(ops, dones, ends)
    ensures ShowsSoFar(ops + [op], |ops|, dones, ends)
  {
    forall k | 0 <= k < |ends|
      ensures ends[k].1 < |ops| && ShowsEnd(ops + [op], dones[k], ends[k].0, ends[k].1)
    {
      assert ShowsEnd(ops, dones[k], ends[k].0, ends[k].1);
      EndedBefore(ops, op, ends[k].0, ends[k].1);
    }
    hide EndsAs, ShowsEnd, OpenSince, EndsAt, Listed;
    forall d: nat, j: nat | j < |ops| && Ended(ops + [op], d, j)
      ensures Listed(ends, d, j)
    {
      EndedBefore(ops, op, d, j);
    }
  }

  // ---------- what goes with a done event ----------

  predicate HasEnd(done: Event) {
    done.response.Some? && done.response.value.id.Some? && done.response.value.audioEndMs.Some?
  }

  /** A cancelled response is truncated next, its item at its audio end; a completed one has its audio done before. */
  function WithPair(done: Event): seq<Event>
    requires HasEnd(done)
  {
    var r := done.response.value;
    if r.status == Some(Cancelled) && r.outputItem.Some? then [done, TruncatedEvent(r.outputItem.value, r.audioEndMs.value)]
    else if r.status == Some(Completed) then [AudioDoneEvent(r.id.value, r.audioEndMs.value), done]
    else [done]
  }

  function Paired(dones: seq<Event>): seq<Event>
    requires forall i :: 0 <= i < |dones| ==> HasEnd(dones[i])
  {
    if dones == [] then [] else Paired(dones[..|dones| - 1]) + WithPair(dones[|dones| - 1])
  }

  /** Besides done events, an op puts on the wire only what goes with them. */
  ghost predicate ClosesAs(events: seq<Event>, ending: seq<Event>) {
    && |ending| <= 1 && (ending != [] ==> HasEnd(ending[0]))
    && Only(ClosingEvents, events) == if ending == [] then [] else WithPair(ending[0])
  }

  lemma ActCloses(w: World, op: Op)
    requires Act(w, op).Went? && (op.VadSpeechStart? ==> !w.session.resp.Active())
    ensures ClosesAs(Act(w, op).events, Ending(w, op))
  {
    hide ActOnResponse, ActOnVoice, ClosesAs, Ending;
    if IsResponseOp(op) {
      ResponseCloses(w, op);
    } else {
      OtherCloses(w, op);
    }
  }

  lemma OtherCloses(w: World, op: Op)
    requires !IsResponseOp(op) && Act(w, op).Went? && (op.VadSpeechStart? ==> !w.session.resp.Active())
    ensures ClosesAs(Act(w, op).events, Ending(w, op))
  {
    hide CheckState, Only, ActOnResponse;
    FewOnly(ClosingEvents, Act(w, op).events);
  }

  lemma ResponseCloses(w: World, op: Op)
    requires IsResponseOp(op) && ActOnResponse(w, op).Went?
    ensures ClosesAs(ActOnResponse(w, op).events, Ending(w, op))
  {
    hide CheckState, Only;
    FewOnly(ClosingEvents, ActOnResponse(w, op).events);
  }

  lemma InterruptCloses(w: World, op: Op)
    requires Interrupt(w, op).Went?
    ensures ClosesAs(Interrupt(w, op).events, if op.VadSpeechStart? then Ending(w, op) else [])
  {
    hide CheckState, Only;
    var events := Interrupt(w, op).events;
    FewOnly(ClosingEvents, events);
  }

  lemma StepCloses(w: World, op: Op)
    requires Step(w, op).Went?
    ensures ClosesAs(Step(w, op).events, Ending(w, op))
  {
    hide CheckState, Only, Act;
    StepOnly(ClosingEvents, w, op);
    var w1 := Start(w, op).world;
    InterruptCloses(w1, op);
    ActCloses(Interrupt(w1, op).world, op);
  }

  /** In every run each cancelled done is followed by its truncation and each completed one preceded by its audio
      done, with the audio end of the done itself, and there are no other such events. */
  lemma {:induction false} RunPairs(ops: seq<Op>)
    requires Run(ops).Went?
    ensures var dones := Only(DoneEvents, Run(ops).events);
            (forall i :: 0 <= i < |dones| ==> HasEnd(dones[i])) && Only(ClosingEvents, Run(ops).events) == Paired(dones)
  {
    if ops != [] {
      var n := |ops| - 1;
      RunSplits(ops);
      RunPairs(ops[..n]);
      StepPairs(Run(ops[..n]).world, Run(ops[..n]).events, ops[n]);
    }
  }

  lemma StepPairs(w: World, trace: seq<Event>, op: Op)
    requires Step(w, op).Went?
    requires (forall i :: 0 <= i < |Only(DoneEvents, trace)| ==> HasEnd(Only(DoneEvents, trace)[i])) && Only(ClosingEvents, trace) == Paired(Only(DoneEvents, trace))
    ensures var dones := Only(DoneEvents, trace + Step(w, op).events);
            (forall i :: 0 <= i < |dones| ==> HasEnd(dones[i])) && Only(ClosingEvents, trace + Step(w, op).events) == Paired(dones)
  {
    hide Step, Only, Ending;
    var events := Step(w, op).events;
    StepCloses(w, op);
    StepEnding(w, op);
    OnlyConcat(DoneEvents, trace, events);
    OnlyConcat(ClosingEvents, trace, events);
    var dones := Only(DoneEvents, trace);
    if Ending(w, op) == [] {
      assert dones + Ending(w, op) == dones;
    } else {
      assert (dones + Ending(w, op))[..|dones|] == dones;
    }
  }

  // ---------- starts of speech ----------

  /** Speech starts on the wire exactly when an op starts it in silence, under the item the op names. */
  lemma StepStarts(w: World, op: Op)
    requires Step(w, op).Went?
    ensures Only(SpeechStarts, Step(w, op).events) ==
            if op.VadSpeechStart? && w.session.vad.Silent? then [ItemEvent(SpeechStarted, op.item)] else []
  {
    hide CheckState, Only, Act;
    StepOnly(SpeechStarts, w, op);
    var cleared := Interrupt(Start(w, op).world, op);
    FewOnly(SpeechStarts, cleared.events);
    ActStarts(cleared.world, op);
  }

  lemma ActStarts(w: World, op: Op)
    requires Act(w, op).Went?
    ensures Only(SpeechStarts, Act(w, op).events) ==
            if op.VadSpeechStart? && w.session.vad.Silent? then [ItemEvent(SpeechStarted, op.item)] else []
  {
    hide CheckState, Only;
    var events := Act(w, op).events;
    assert |events| <= 2;
    FewOnly(SpeechStarts, events);
  }

  /** The item of the latest start of speech. */
  function LatestStart(events: seq<Event>): Option<string> {
    if events == [] then None
    else if events[|events| - 1].kind.SpeechStarted? then events[|events| - 1].itemId
    else LatestStart(events[..|events| - 1])
  }

  /** Every stop and every commit names the item whose speech started last, and so does speech that is not over. */
  ghost predicate TurnsNamed(w: World, events: seq<Event>) {
    && (w.session.vad.Silent? || LatestStart(events) == Some(w.session.vad.item))
    && forall n :: 0 <= n < |events| && (events[n].kind.SpeechStopped? || events[n].kind.Committed?) ==>
         LatestStart(events[..n]) == events[n].itemId
  }

  lemma {:induction false} NoStart(trace: seq<Event>, events: seq<Event>)
    requires forall i :: 0 <= i < |events| ==> !events[i].kind.SpeechStarted?
    ensures LatestStart(trace + events) == LatestStart(trace)
  {
    if events == [] {
      assert trace + events == trace;
    } else {
      var n := |events| - 1;
      NoStart(trace, events[..n]);
      assert (trace + events)[..|trace + events| - 1] == trace + events[..n];
    }
  }

  lemma TurnsNamedNext(w: World, trace: seq<Event>, w': World, events: seq<Event>, e: Effect)
    requires TurnsNamed(w, trace) && Acts(w, w', events, e)
    ensures TurnsNamed(w', trace + events)
  {
    var more := trace + events;
    StartsMove(w, trace, w', events, e);
    forall n | 0 <= n < |more| && (more[n].kind.SpeechStopped? || more[n].kind.Committed?)
      ensures LatestStart(more[..n]) == more[n].itemId
    {
      if n < |trace| {
        assert more[..n] == trace[..n] && more[n] == trace[n];
      } else {
        StopIsFirst(w, w', events, e, n - |trace|);
        assert more[..n] == trace && more[n] == events[0];
      }
    }
  }

  lemma StopIsFirst(w: World, w': World, events: seq<Event>, e: Effect, k: nat)
    requires Acts(w, w', events, e) && k < |events| && (events[k].kind.SpeechStopped? || events[k].kind.Committed?)
    ensures k == 0 && !w.session.vad.Silent? && events[0].itemId == Some(w.session.vad.item)
  {}

  lemma StartsMove(w: World, trace: seq<Event>, w': World, events: seq<Event>, e: Effect)
    requires TurnsNamed(w, trace) && Acts(w, w', events, e)
    ensures w'.session.vad.Silent? || LatestStart(trace + events) == Some(w'.session.vad.item)
  {
    if e.Talks? {
      assert (trace + events)[..|trace|] == trace;
    } else {
      OnlyTalksStarts(w, w', events, e);
      NoStart(trace, events);
    }
  }

  lemma OnlyTalksStarts(w: World, w': World, events: seq<Event>, e: Effect)
    requires Acts(w, w', events, e) && !e.Talks?
    ensures forall i :: 0 <= i < |events| ==> !events[i].kind.SpeechStarted?
    ensures w'.session.vad.Silent? || (!w.session.vad.Silent? && w'.session.vad.item == w.session.vad.item)
  {}

  /** In every run, speech re-entry included, stops and commits name the item whose speech started last. */
  lemma RunNamesTurns(ops: seq<Op>)
    requires Run(ops).Went?
    ensures TurnsNamed(Run(ops).world, Run(ops).events)
  {
    var keeps := (w: World, trace: seq<Event>) => TurnsNamed(w, trace);
    forall w, trace, w', events, e | keeps(w, trace) && Acts(w, w', events, e)
      ensures keeps(w', trace + events)
    {
      TurnsNamedNext(w, trace, w', events, e);
    }
    RunKeeps(ops, keeps);
  }

  // ---------- what only repeats an op ----------

  function Echo(op: Op): seq<Event> {
    match op
    case SessionUpdate => [SessionUpdatedEvent]
    case SessionUpdateInvalid => [Plain(ErrorEvent), SessionUpdatedEvent]
    case TranscriptionComplete(item) => [ItemEvent(TranscriptionCompleted, item)]
    case AudioDeltaOp(id) => [DeltaEvent(id)]
    case ResponseCreate(id, _) => [ResponseCreatedEvent(id)]
    case _ => []
  }

  function EchoAll(ops: seq<Op>): seq<Event> {
    if ops == [] then [] else EchoAll(ops[..|ops| - 1]) + Echo(ops[|ops| - 1])
  }

  lemma StepEchoes(w: World, op: Op)
    requires Step(w, op).Went?
    ensures Only(Echoes, Step(w, op).events) == Echo(op)
  {
    hide CheckState, Only, Act;
    StepOnly(Echoes, w, op);
    var cleared := Interrupt(Start(w, op).world, op);
    FewOnly(Echoes, cleared.events);
    ActEchoes(cleared.world, op);
  }

  lemma ActEchoes(w: World, op: Op)
    requires Act(w, op).Went?
    ensures Only(Echoes, Act(w, op).events) == Echo(op)
  {
    hide CheckState, Only;
    var events := Act(w, op).events;
    assert |events| <= 2;
    FewOnly(Echoes, events);
  }

  /** In every run the session updates, errors, transcriptions, deltas and created events are those that the ops call
      for, in their order. */
  lemma {:induction false} RunEchoes(ops: seq<Op>)
    requires Run(ops).Went?
    ensures Only(Echoes, Run(ops).events) == EchoAll(ops)
  {
    if ops != [] {
      var n := |ops| - 1;
      RunSplits(ops);
      RunEchoes(ops[..n]);
      hide Step, Only, Echo;
      var w := Run(ops[..n]).world;
      StepEchoes(w, ops[n]);
      OnlyConcat(Echoes, Run(ops[..n]).events, Step(w, ops[n]).events);
    }
  }
}
