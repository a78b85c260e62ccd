/** The discipline an op stream must follow for its trace to pass W1, W2 and W6 -- no more, no less. */
module ReplayDiscipline {
  import opened Wrappers
  import opened Wire
  import opened SessionPhases
  import opened Replay
  import opened ReplayEffects
  import opened TraceRules
  import opened ResponseLanguage
  import opened ReplaySafety

  /** The ids of the responses the ops create. */
  function UsedIds(ops: seq<Op>): set<string> {
    set op | op in ops && op.ResponseCreate? :: op.respId
  }

  /** op creates a response under a new id, or plays audio of the active response (or of none). */
  predicate Orderly(resp: Resp, used: set<string>, op: Op) {
    match op
    case ResponseCreate(id, _) => id !in used
    case AudioDeltaOp(id) => id == "" || (resp.Active() && resp.id == id)
    case _ => true
  }

  /** Every op is orderly where it stands: the code checks neither condition. */
  ghost predicate Disciplined(ops: seq<Op>) {
    forall k :: 0 <= k < |ops| ==> OrderlyAt(ops, k)
  }

  ghost predicate OrderlyAt(ops: seq<Op>, k: nat)
    requires k < |ops|
  {
    Run(ops[..k]).Went? ==> Orderly(Run(ops[..k]).world.session.resp, UsedIds(ops[..k]), ops[k])
  }

  /** The phase every response should be in: one open at most, the active one. */
  function Expected(resp: Resp, used: set<string>, r: string): Phase {
    if resp.Active() && resp.id == r then Open else if r in used then Closed else Fresh
  }

  ghost predicate PhasesMatch(resp: Resp, used: set<string>, trace: seq<Event>) {
    && (resp.Active() ==> resp.id in used)
    && forall r :: PhaseOf(trace, r) == Expected(resp, used, r)
  }

  ghost predicate SomeBroken(trace: seq<Event>) {
    exists r :: PhaseOf(trace, r) == Broken
  }

  function UsedBy(op: Op): set<string> {
    if op.ResponseCreate? then {op.respId} else {}
  }

  /** An event that is no step in any response's life. */
  predicate OffStage(kind: EventType) {
    !kind.ResponseCreated? && !kind.ResponseDone? && !kind.InWindow()
  }

  // ---------- what an effect does to the phases ----------

  lemma OffStageKeepsPhases(trace: seq<Event>, events: seq<Event>, r: string)
    requires |events| <= 2 && forall i :: 0 <= i < |events| ==> OffStage(events[i].kind)
    ensures PhaseOf(trace + events, r) == PhaseOf(trace, r)
  {
    if |events| == 0 {
      assert trace + events == trace;
    } else {
      PhaseStep(trace, events[0], r);
      if |events| == 1 {
        assert trace + events == trace + [events[0]];
      } else {
        PhaseStep(trace + [events[0]], events[1], r);
        assert trace + events == trace + [events[0]] + [events[1]];
      }
    }
  }

  /** The steps that the harness's own response events are. */
  lemma StepsAre(id: string, r: string, status: Status, playedMs: int, output: Option<string>)
    requires id != ""
    ensures StepOf(ResponseCreatedEvent(id), r) == if r == id then Some(Begin) else None
    ensures StepOf(AudioDoneEvent(id, playedMs), r) == if r == id then Some(Body) else None
    ensures StepOf(DoneEvent(id, status, playedMs, output), r) == if r == id then Some(End) else None
  {
  }

  lemma DeltaStepIs(id: string, r: string)
    ensures StepOf(DeltaEvent(id), r) == if r == id && id != "" then Some(Body) else None
  {
  }

  lemma EndClosesPhase(resp: Resp, status: Status, playedMs: int, trace: seq<Event>, r: string)
    requires resp.Active() && resp.id != "" && (r == resp.id ==> PhaseOf(trace, r) == Open)
    ensures PhaseOf(trace + EndEvents(resp, status, playedMs), r) == if r == resp.id then Closed else PhaseOf(trace, r)
  {
    var events := EndEvents(resp, status, playedMs);
    var done := if status.Completed? then events[1] else events[0];
    StepsAre(resp.id, r, status, playedMs, OutputItem(done));
    if status.Completed? || status.Cancelled? {
      TwoPhaseSteps(trace, events[0], events[1], r);
      assert events == [events[0], events[1]];
    } else {
      PhaseStep(trace, done, r);
    }
  }

  lemma TwoPhaseSteps(trace: seq<Event>, first: Event, second: Event, r: string)
    ensures PhaseOf(trace + [first, second], r) ==
            var p := match StepOf(first, r) case None => PhaseOf(trace, r) case Some(s) => Advance(PhaseOf(trace, r), s);
            match StepOf(second, r) case None => p case Some(s) => Advance(p, s)
  {
    PhaseStep(trace, first, r);
    PhaseStep(trace + [first], second, r);
    assert trace + [first, second] == trace + [first] + [second];
  }

  function UsedAfter(used: set<string>, e: Effect): set<string> {
    if e.Creates? then used + {e.id} else used
  }

  predicate OrderlyEffect(resp: Resp, used: set<string>, e: Effect) {
    match e
    case Creates(id) => id !in used
    case Plays(id) => id == "" || (resp.Active() && resp.id == id)
    case _ => true
  }

  lemma PassiveIsOffStage(w: World, w': World, events: seq<Event>, e: Effect)
    requires Acts(w, w', events, e) && Passive(e) && !e.Ends?
    ensures |events| <= 2 && forall i :: 0 <= i < |events| ==> OffStage(events[i].kind)
    ensures w'.session.resp.Active() == w.session.resp.Active()
    ensures w.session.resp.Active() ==> w'.session.resp.id == w.session.resp.id
  {
  }

  lemma EndOnPhases(resp: Resp, status: Status, playedMs: int, used: set<string>, trace: seq<Event>)
    requires resp.Active() && resp.id != "" && PhasesMatch(resp, used, trace)
    ensures PhasesMatch(NoResponse, used, trace + EndEvents(resp, status, playedMs))
  {
    forall r
      ensures PhaseOf(trace + EndEvents(resp, status, playedMs), r) == Expected(NoResponse, used, r)
    {
      assert PhaseOf(trace, r) == Expected(resp, used, r);
      EndClosesPhase(resp, status, playedMs, trace, r);
    }
  }

  lemma OffStageOnPhases(resp: Resp, resp': Resp, events: seq<Event>, used: set<string>, trace: seq<Event>)
    requires |events| <= 2 && forall i :: 0 <= i < |events| ==> OffStage(events[i].kind)
    requires resp'.Active() == resp.Active() && (resp.Active() ==> resp'.id == resp.id) && PhasesMatch(resp, used, trace)
    ensures PhasesMatch(resp', used, trace + events)
  {
    forall r
      ensures PhaseOf(trace + events, r) == Expected(resp', used, r)
    {
      assert PhaseOf(trace, r) == Expected(resp, used, r);
      OffStageKeepsPhases(trace, events, r);
    }
  }

  lemma PassiveOnPhases(w: World, w': World, events: seq<Event>, e: Effect, used: set<string>, trace: seq<Event>)
    requires Sane(w) && Acts(w, w', events, e) && Passive(e) && PhasesMatch(w.session.resp, used, trace)
    ensures Sane(w') && PhasesMatch(w'.session.resp, used, trace + events)
  {
    SaneEffect(w, w', events, e);
    if e.Ends? {
      EndOnPhases(w.session.resp, e.status, e.playedMs, used, trace);
    } else {
      PassiveIsOffStage(w, w', events, e);
      OffStageOnPhases(w.session.resp, w'.session.resp, events, used, trace);
    }
  }

  lemma CreateOnPhases(resp: Resp, resp': Resp, id: string, used: set<string>, trace: seq<Event>)
    requires !resp.Active() && resp'.Active() && resp'.id == id && id != "" && PhasesMatch(resp, used, trace)
    ensures id !in used ==> PhasesMatch(resp', used + {id}, trace + [ResponseCreatedEvent(id)])
    ensures id in used ==> PhaseOf(trace + [ResponseCreatedEvent(id)], id) == Broken
  {
    forall r
      ensures PhaseOf(trace + [ResponseCreatedEvent(id)], r) ==
              if r == id then Advance(Expected(resp, used, r), Begin) else Expected(resp, used, r)
    {
      StepsAre(id, r, Failed, 0, None);
      PhaseStep(trace, ResponseCreatedEvent(id), r);
      assert PhaseOf(trace, r) == Expected(resp, used, r);
    }
  }

  lemma PlayOnPhases(resp: Resp, id: string, used: set<string>, trace: seq<Event>)
    requires (resp.Active() ==> resp.id != "") && PhasesMatch(resp, used, trace)
    ensures if OrderlyEffect(resp, used, Plays(id)) then PhasesMatch(resp, used, trace + [DeltaEvent(id)])
            else PhaseOf(trace + [DeltaEvent(id)], id) == Broken
  {
    forall r
      ensures PhaseOf(trace + [DeltaEvent(id)], r) ==
              if r == id && id != "" then Advance(Expected(resp, used, r), Body) else Expected(resp, used, r)
    {
      DeltaStepIs(id, r);
      PhaseStep(trace, DeltaEvent(id), r);
      assert PhaseOf(trace, r) == Expected(resp, used, r);
    }
  }

  lemma EffectOnPhases(w: World, w': World, events: seq<Event>, e: Effect, used: set<string>, trace: seq<Event>)
    requires Sane(w) && Acts(w, w', events, e) && PhasesMatch(w.session.resp, used, trace)
    ensures OrderlyEffect(w.session.resp, used, e) ==> PhasesMatch(w'.session.resp, UsedAfter(used, e), trace + events)
    ensures !OrderlyEffect(w.session.resp, used, e) ==> SomeBroken(trace + events)
  {
    match e
    case Creates(id) => CreateOnPhases(w.session.resp, w'.session.resp, id, used, trace);
    case Plays(id) => PlayOnPhases(w.session.resp, id, used, trace);
    case _ => PassiveOnPhases(w, w', events, e, used, trace);
  }

  lemma BrokenPersists(trace: seq<Event>, events: seq<Event>)
    requires SomeBroken(trace)
    ensures SomeBroken(trace + events)
  {
    var r :| PhaseOf(trace, r) == Broken;
    assert (trace + events)[..|trace|] == trace;
    assert (trace + events)[..|trace + events|] == trace + events;
    BrokenForever(trace + events, |trace|, |trace + events|, r);
  }

  // ---------- one op, and a whole run ----------

  /** Three effects, the first two passive, judged by the last. */
  lemma ThreeOnPhases(w: World, w1: World, w2: World, w3: World, t1: seq<Event>, t2: seq<Event>, t3: seq<Event>,
                      e1: Effect, e2: Effect, e3: Effect, used: set<string>, trace: seq<Event>)
    requires Sane(w) && PhasesMatch(w.session.resp, used, trace) && Passive(e1) && Passive(e2)
    requires Acts(w, w1, t1, e1) && Acts(w1, w2, t2, e2) && Acts(w2, w3, t3, e3)
    ensures if OrderlyEffect(w2.session.resp, used, e3)
            then PhasesMatch(w3.session.resp, UsedAfter(used, e3), trace + (t1 + t2 + t3))
            else SomeBroken(trace + (t1 + t2 + t3))
  {
    PassiveOnPhases(w, w1, t1, e1, used, trace);
    PassiveOnPhases(w1, w2, t2, e2, used, trace + t1);
    EffectOnPhases(w2, w3, t3, e3, used, trace + t1 + t2);
    assert trace + (t1 + t2 + t3) == trace + t1 + t2 + t3;
  }

  /** The last effect of an op is judged as the op is. */
  lemma OrderlyAlike(resp: Resp, resp2: Resp, used: set<string>, op: Op, e: Effect)
    requires match op
             case ResponseCreate(id, _) => e == Creates(id) && resp2 == resp
             case AudioDeltaOp(id) => e == Plays(id) && resp2 == resp
             case _ => Passive(e)
    ensures OrderlyEffect(resp2, used, e) <==> Orderly(resp, used, op)
    ensures UsedAfter(used, e) == used + UsedBy(op)
  {
  }

  lemma StepOnPhases(w: World, op: Op, used: set<string>, trace: seq<Event>)
    requires Sane(w) && Step(w, op).Went? && PhasesMatch(w.session.resp, used, trace)
    ensures if Orderly(w.session.resp, used, op)
            then PhasesMatch(Step(w, op).world.session.resp, used + UsedBy(op), trace + Step(w, op).events)
            else SomeBroken(trace + Step(w, op).events)
  {
    var w1, w2, t1, t2, t3, e1, e2, e3 := StepActs(w, op);
    ThreeOnPhases(w, w1, w2, Step(w, op).world, t1, t2, t3, e1, e2, e3, used, trace);
    OrderlyAlike(w.session.resp, w2.session.resp, used, op, e3);
  }

  lemma OrderlyAtPrefix(ops: seq<Op>, n: nat, k: nat)
    requires k < n <= |ops|
    ensures OrderlyAt(ops[..n], k) == OrderlyAt(ops, k)
  {
    assert ops[..n][..k] == ops[..k];
  }

  lemma DisciplinedPrefix(ops: seq<Op>)
    requires ops != []
    ensures Disciplined(ops) <==> (Disciplined(ops[..|ops| - 1]) && OrderlyAt(ops, |ops| - 1))
    ensures UsedIds(ops) == UsedIds(ops[..|ops| - 1]) + UsedBy(ops[|ops| - 1])
  {
    var n := |ops| - 1;
    forall k: nat | k < n
      ensures OrderlyAt(ops[..n], k) == OrderlyAt(ops, k)
    {
      OrderlyAtPrefix(ops, n, k);
    }
    assert ops == ops[..n] + [ops[n]];
  }

  lemma {:induction false} RunOnPhases(ops: seq<Op>)
    requires Run(ops).Went?
    ensures Disciplined(ops) ==> PhasesMatch(Run(ops).world.session.resp, UsedIds(ops), Run(ops).events)
    ensures !Disciplined(ops) ==> SomeBroken(Run(ops).events)
  {
    if ops != [] {
      var before, op := ops[..|ops| - 1], ops[|ops| - 1];
      RunSplits(ops);
      RunOnPhases(before);
      DisciplinedPrefix(ops);
      RunIsSane(before);
      var r := Run(before);
      if Disciplined(before) {
        StepOnPhases(r.world, op, UsedIds(before), r.events);
      } else {
        BrokenPersists(r.events, Step(r.world, op).events);
      }
    }
  }

  // ---------- the main results ----------

  lemma NamedEffect(w: World, w': World, events: seq<Event>, e: Effect)
    requires Sane(w) && Acts(w, w', events, e)
    ensures Named(events)
  {
  }

  lemma ReplayIsNamed(ops: seq<Op>)
    requires Run(ops).Went?
    ensures Named(Run(ops).events)
  {
    var keeps := (w: World, trace: seq<Event>) => Sane(w) && Named(trace);
    forall w, trace, w', events, e | keeps(w, trace) && Acts(w, w', events, e)
      ensures keeps(w', trace + events)
    {
      SaneEffect(w, w', events, e);
      NamedEffect(w, w', events, e);
    }
    assert Sane(Initial) && Named([]);
    RunKeeps(ops, keeps);
  }

  predicate Settled(p: Phase) {
    p.Fresh? || p.Closed?
  }

  lemma WholeIsSettled(trace: seq<Event>, r: string)
    ensures WholeFor(trace, r) <==> Settled(PhaseOf(trace, r))
  {
    PhaseReadsLanguage(OwnSteps(trace, r));
  }

  lemma MatchedAllWhole(resp: Resp, used: set<string>, trace: seq<Event>)
    requires PhasesMatch(resp, used, trace)
    ensures (forall r :: WholeFor(trace, r)) <==> resp.NoResponse?
  {
    if resp.Active() {
      assert PhaseOf(trace, resp.id) == Expected(resp, used, resp.id);
      WholeIsSettled(trace, resp.id);
    } else {
      forall r
        ensures WholeFor(trace, r)
      {
        assert PhaseOf(trace, r) == Expected(resp, used, r);
        WholeIsSettled(trace, r);
      }
    }
  }

  lemma BrokenIsNotWhole(trace: seq<Event>)
    requires SomeBroken(trace)
    ensures exists r :: !WholeFor(trace, r)
  {
    var r :| PhaseOf(trace, r) == Broken;
    WholeIsSettled(trace, r);
  }

  /** W1, W2 and W6 accept a replay exactly when its ops are disciplined and leave no response active. */
  lemma AcceptedIffDisciplined(ops: seq<Op>)
    requires Run(ops).Went?
    ensures Accepted(Run(ops).events) <==> Disciplined(ops) && Run(ops).world.session.resp.NoResponse?
  {
    var trace := Run(ops).events;
    ReplayIsNamed(ops);
    AcceptedIffWholeResponses(trace);
    RunOnPhases(ops);
    if Disciplined(ops) {
      MatchedAllWhole(Run(ops).world.session.resp, UsedIds(ops), trace);
    } else {
      BrokenIsNotWhole(trace);
    }
  }

  /** A run that plays audio of no active response is not accepted, though nothing stops it. */
  lemma StrayDeltaIsRejected()
    ensures var ops := [AudioDeltaOp("x")];
            Run(ops).Went? && Run(ops).world.session.resp.NoResponse? && !Accepted(Run(ops).events)
  {
    var ops := [AudioDeltaOp("x")];
    assert ops[..0] == [] && Run(ops[..0]) == Went(Initial, []);
    assert Run(ops) == After([], Step(Initial, ops[0]));
    AcceptedIffDisciplined(ops);
    assert !OrderlyAt(ops, 0);
  }

  /** At every point of a disciplined run the active response, and no other, is open on the wire, and
      every response's own events are the beginning of a whole response. */
  lemma OneResponseOpen(ops: seq<Op>, r: string)
    requires Run(ops).Went? && Disciplined(ops)
    ensures var trace, resp := Run(ops).events, Run(ops).world.session.resp;
            && (OpenAt(trace, |trace|, r) <==> resp.Active() && resp.id == r)
            && PartOfWhole(OwnSteps(trace, r))
  {
    var trace := Run(ops).events;
    RunOnPhases(ops);
    assert trace[..|trace|] == trace;
    PhaseMeaning(trace, |trace|, r);
    UnbrokenIsPartOfWhole(OwnSteps(trace, r));
  }
}
