/** Rules W1, W2 and W6 together, restated as a language: what one response's own events may read. */
module ResponseLanguage {
  import opened Wrappers
  import opened Wire
  import opened TraceRules

  datatype Stage = Begin | Body | End

  /** The step an event takes in the life of response r, if it is one of r's own events. */
  function StepOf(ev: Event, r: string): Option<Stage> {
    if CreatedFor(ev, r) then Some(Begin)
    else if DoneFor(ev, r) then Some(End)
    else if WindowFor(ev, r) then Some(Body)
    else None
  }

  /** Response r's own events, in order. */
  function OwnSteps(events: seq<Event>, r: string): seq<Stage> {
    if events == [] then []
    else
      var before := OwnSteps(events[..|events| - 1], r);
      var step := StepOf(events[|events| - 1], r);
      if step.Some? then before + [step.value] else before
  }

  /** Created, then any number of other events, then one done; or nothing at all. */
  predicate Whole(steps: seq<Stage>) {
    steps == [] ||
    (|steps| >= 2 && steps[0] == Begin && steps[|steps| - 1] == End &&
     forall i :: 0 < i < |steps| - 1 ==> steps[i] == Body)
  }

  /** Response r's own events read created, others, done; or it has none. */
  predicate WholeFor(events: seq<Event>, r: string) {
    Whole(OwnSteps(events, r))
  }

  /** A prefix of a whole response. */
  ghost predicate PartOfWhole(steps: seq<Stage>) {
    exists rest :: Whole(steps + rest)
  }

  // ---------- the same language as an automaton ----------

  datatype Phase = Fresh | Open | Closed | Broken

  function Advance(p: Phase, s: Stage): Phase {
    match (p, s)
    case (Fresh, Begin) => Open
    case (Open, Body) => Open
    case (Open, End) => Closed
    case _ => Broken
  }

  function PhaseAfter(steps: seq<Stage>): Phase {
    if steps == [] then Fresh
    else Advance(PhaseAfter(steps[..|steps| - 1]), steps[|steps| - 1])
  }

  predicate Running(steps: seq<Stage>) {
    |steps| >= 1 && steps[0] == Begin && forall i :: 0 < i < |steps| ==> steps[i] == Body
  }

  lemma {:induction false} PhaseReadsLanguage(steps: seq<Stage>)
    ensures PhaseAfter(steps) == Fresh <==> steps == []
    ensures PhaseAfter(steps) == Open <==> Running(steps)
    ensures PhaseAfter(steps) == Closed <==> steps != [] && Whole(steps)
  {
    if steps != [] {
      PhaseReadsLanguage(steps[..|steps| - 1]);
    }
  }

  /** Not being broken is the same as being extensible to a whole response. */
  lemma UnbrokenIsPartOfWhole(steps: seq<Stage>)
    ensures PhaseAfter(steps) != Broken <==> PartOfWhole(steps)
  {
    PhaseReadsLanguage(steps);
    match PhaseAfter(steps)
    case Fresh => assert Whole(steps + []);
    case Open => assert Whole(steps + [End]);
    case Closed => assert steps + [] == steps && Whole(steps + []);
    case Broken =>
      forall rest
        ensures !Whole(steps + rest)
      {
        StaysBroken(steps, rest);
        PhaseReadsLanguage(steps + rest);
      }
  }

  lemma {:induction false} StaysBroken(steps: seq<Stage>, rest: seq<Stage>)
    requires PhaseAfter(steps) == Broken
    ensures PhaseAfter(steps + rest) == Broken
  {
    if rest == [] {
      assert steps + rest == steps;
    } else {
      StaysBroken(steps, rest[..|rest| - 1]);
      assert (steps + rest)[..|steps + rest| - 1] == steps + rest[..|rest| - 1];
    }
  }

  /** The phase of response r after a whole trace. */
  function PhaseOf(events: seq<Event>, r: string): Phase {
    PhaseAfter(OwnSteps(events, r))
  }

  lemma PhaseStep(events: seq<Event>, ev: Event, r: string)
    ensures PhaseOf(events + [ev], r) ==
            match StepOf(ev, r) case None => PhaseOf(events, r) case Some(s) => Advance(PhaseOf(events, r), s)
  {
    assert (events + [ev])[..|events|] == events;
  }

  lemma PhaseAt(events: seq<Event>, n: nat, r: string)
    requires n < |events|
    ensures PhaseOf(events[..n + 1], r) ==
            match StepOf(events[n], r)
            case None => PhaseOf(events[..n], r)
            case Some(s) => Advance(PhaseOf(events[..n], r), s)
  {
    PhaseStep(events[..n], events[n], r);
    assert events[..n + 1] == events[..n] + [events[n]];
  }

  // ---------- the automaton against positions in the trace ----------

  ghost predicate SeenCreated(events: seq<Event>, n: nat, r: string)
    requires n <= |events|
  {
    exists c :: 0 <= c < n && CreatedFor(events[c], r)
  }

  ghost predicate SeenDone(events: seq<Event>, n: nat, r: string)
    requires n <= |events|
  {
    exists d :: 0 <= d < n && DoneFor(events[d], r)
  }

  /** While r is not broken, its phase says which of its created and done events have passed. */
  lemma {:induction false} PhaseMeaning(events: seq<Event>, n: nat, r: string)
    requires n <= |events|
    requires PhaseOf(events[..n], r) != Broken
    ensures SeenCreated(events, n, r) <==> PhaseOf(events[..n], r) != Fresh
    ensures SeenDone(events, n, r) <==> PhaseOf(events[..n], r) == Closed
    ensures OpenAt(events, n, r) <==> PhaseOf(events[..n], r) == Open
  {
    if n > 0 {
      PhaseAt(events, n - 1, r);
      PhaseMeaning(events, n - 1, r);
      OpenStep(events, n - 1, r);
    }
  }

  lemma {:induction false} BrokenForever(events: seq<Event>, m: nat, n: nat, r: string)
    requires m <= n <= |events| && PhaseOf(events[..m], r) == Broken
    ensures PhaseOf(events[..n], r) == Broken
  {
    if m < n {
      BrokenForever(events, m, n - 1, r);
      PhaseAt(events, n - 1, r);
    }
  }

  // ---------- one response ----------

  ghost predicate StrayFor(events: seq<Event>, n: nat, r: string)
    requires n < |events|
  {
    WindowFor(events[n], r) && !OpenAt(events, n, r)
  }

  ghost predicate LateFor(events: seq<Event>, n: nat, r: string)
    requires n < |events|
  {
    events[n].kind.InBracket() && Owner(events[n]) == Some(r) &&
    exists d :: 0 <= d < n && events[d].kind.ResponseDone? && GetId(events[d]) == Some(r)
  }

  ghost predicate AcceptedFor(events: seq<Event>, r: string) {
    && PairedFor(events, r)
    && (forall n :: 0 <= n < |events| ==> !StrayFor(events, n, r))
    && (forall n :: 0 <= n < |events| ==> !LateFor(events, n, r))
  }

  function OwnStage(ev: Event, r: string): seq<Stage> {
    if StepOf(ev, r).Some? then [StepOf(ev, r).value] else []
  }

  lemma OwnStep(events: seq<Event>, n: nat, r: string)
    requires n < |events|
    ensures OwnSteps(events[..n + 1], r) == OwnSteps(events[..n], r) + OwnStage(events[n], r)
  {
    assert events[..n + 1][..n] == events[..n];
  }

  lemma {:induction false} OwnPrefix(events: seq<Event>, n: nat, r: string)
    requires n <= |events|
    ensures OwnSteps(events[..n], r) <= OwnSteps(events, r)
    decreases |events| - n
  {
    if n < |events| {
      OwnStep(events, n, r);
      OwnPrefix(events, n + 1, r);
    } else {
      assert events[..n] == events;
    }
  }

  // ---------- W1 and W2 on their own ----------

  /** The other order: done first, then created, then any others; or the beginning of it. */
  predicate Turned(steps: seq<Stage>) {
    |steps| >= 1 && steps[0] == End && (|steps| >= 2 ==> steps[1] == Begin) &&
    forall i :: 2 <= i < |steps| ==> steps[i] == Body
  }

  predicate Backward(steps: seq<Stage>) {
    |steps| >= 2 && Turned(steps)
  }

  lemma TurnedPrefix(part: seq<Stage>, steps: seq<Stage>)
    requires Turned(steps) && part <= steps && part != []
    ensures Turned(part)
  {
    assert forall i :: 0 <= i < |part| ==> part[i] == steps[i];
  }

  ghost predicate TidyFor(events: seq<Event>, r: string) {
    PairedFor(events, r) && forall n :: 0 <= n < |events| ==> !StrayFor(events, n, r)
  }

  lemma {:induction false} TurnedMeaning(events: seq<Event>, n: nat, r: string)
    requires n <= |events| && Turned(OwnSteps(events[..n], r))
    ensures SeenDone(events, n, r)
    ensures SeenCreated(events, n, r) <==> |OwnSteps(events[..n], r)| >= 2
    ensures OpenAt(events, n, r) <==> |OwnSteps(events[..n], r)| >= 2
  {
    if n > 0 {
      OwnStep(events, n - 1, r);
      OpenStep(events, n - 1, r);
      if OwnSteps(events[..n - 1], r) == [] {
        PhaseMeaning(events, n - 1, r);
      } else {
        TurnedPrefix(OwnSteps(events[..n - 1], r), OwnSteps(events[..n], r));
        assert OwnSteps(events[..n], r)[|OwnSteps(events[..n], r)| - 1] != End || OwnStage(events[n - 1], r) == [];
        assert StepOf(events[n - 1], r) != Some(End);
        TurnedMeaning(events, n - 1, r);
      }
    }
  }

  lemma {:induction false} TidyStaysInOrder(events: seq<Event>, n: nat, r: string)
    requires n <= |events| && TidyFor(events, r)
    ensures PhaseOf(events[..n], r) != Broken || Turned(OwnSteps(events[..n], r))
  {
    if n > 0 {
      var i := n - 1;
      TidyStaysInOrder(events, i, r);
      OwnStep(events, i, r);
      PhaseAt(events, i, r);
      assert !StrayFor(events, i, r);
      if CreatedFor(events[i], r) { assert !SeenCreated(events, i, r); }
      if DoneFor(events[i], r) { assert !SeenDone(events, i, r); }
      if PhaseOf(events[..i], r) != Broken {
        PhaseMeaning(events, i, r);
        PhaseReadsLanguage(OwnSteps(events[..i], r));
      } else {
        TurnedMeaning(events, i, r);
      }
    }
  }

  lemma WholeStaysUnbroken(events: seq<Event>, n: nat, r: string)
    requires n <= |events| && WholeFor(events, r)
    ensures PhaseOf(events[..n], r) != Broken
  {
    PhaseReadsLanguage(OwnSteps(events, r));
    assert events[..|events|] == events;
    if PhaseOf(events[..n], r) == Broken {
      BrokenForever(events, n, |events|, r);
    }
  }

  /** Where a response's own events may stand: in a whole response created comes first and done
      last; in a backward one done comes first and created second. */
  ghost predicate InPlace(events: seq<Event>, n: nat, r: string)
    requires n < |events|
  {
    match StepOf(events[n], r)
    case None => true
    case Some(Begin) => !SeenCreated(events, n, r) && (SeenDone(events, n, r) <==> Backward(OwnSteps(events, r)))
    case Some(Body) => OpenAt(events, n, r) && (SeenDone(events, n, r) <==> Backward(OwnSteps(events, r)))
    case Some(End) => !SeenDone(events, n, r)
  }

  lemma OrderedInPlace(events: seq<Event>, n: nat, r: string)
    requires n < |events| && (WholeFor(events, r) || Backward(OwnSteps(events, r)))
    ensures InPlace(events, n, r)
  {
    if WholeFor(events, r) {
      WholeStaysUnbroken(events, n + 1, r);
      PhaseAt(events, n, r);
      PhaseMeaning(events, n, r);
    } else if StepOf(events[n], r).Some? {
      OwnStep(events, n, r);
      OwnPrefix(events, n + 1, r);
      var before := OwnSteps(events[..n], r);
      assert OwnSteps(events, r)[|before|] == StepOf(events[n], r).value;
      if before == [] {
        PhaseMeaning(events, n, r);
      } else {
        TurnedPrefix(before, OwnSteps(events, r));
        TurnedMeaning(events, n, r);
      }
    }
  }

  lemma OrderedPairs(events: seq<Event>, r: string)
    requires WholeFor(events, r) || Backward(OwnSteps(events, r))
    ensures PairedFor(events, r)
  {
    forall i, j | 0 <= i < j < |events|
      ensures CreatedFor(events[i], r) ==> !CreatedFor(events[j], r)
      ensures DoneFor(events[i], r) ==> !DoneFor(events[j], r)
    {
      OrderedInPlace(events, j, r);
      assert CreatedFor(events[i], r) ==> SeenCreated(events, j, r);
      assert DoneFor(events[i], r) ==> SeenDone(events, j, r);
    }
    assert events[..|events|] == events;
    if WholeFor(events, r) {
      PhaseReadsLanguage(OwnSteps(events, r));
      PhaseMeaning(events, |events|, r);
    } else {
      TurnedMeaning(events, |events|, r);
    }
    assert SeenCreated(events, |events|, r) <==> SeenDone(events, |events|, r);
  }

  /** W1 and W2 by themselves let a response pass in either order. */
  lemma TidyIffOrdered(events: seq<Event>, r: string)
    ensures TidyFor(events, r) <==> WholeFor(events, r) || Backward(OwnSteps(events, r))
  {
    if TidyFor(events, r) {
      TidyStaysInOrder(events, |events|, r);
      assert events[..|events|] == events;
      assert SeenCreated(events, |events|, r) <==> SeenDone(events, |events|, r);
      if PhaseOf(events, r) != Broken {
        PhaseMeaning(events, |events|, r);
        PhaseReadsLanguage(OwnSteps(events, r));
      } else {
        TurnedMeaning(events, |events|, r);
      }
    } else if WholeFor(events, r) || Backward(OwnSteps(events, r)) {
      OrderedPairs(events, r);
      forall n | 0 <= n < |events|
        ensures !StrayFor(events, n, r)
      {
        OrderedInPlace(events, n, r);
      }
    }
  }

  // ---------- what W6 adds ----------

  /** A response.created that W1 and W2 file under another id names r by its response_id, and
      comes after r's done. */
  ghost predicate Cross(events: seq<Event>, r: string) {
    exists d, n :: 0 <= d < n < |events| && DoneFor(events[d], r) && IsAlias(events[n], r)
  }

  predicate IsAlias(ev: Event, r: string) {
    ev.kind.ResponseCreated? && FiledId(ev) != r && Owner(ev) == Some(r)
  }

  /** Some done and some event W6 watches give the placeholder itself as their response's id. */
  ghost predicate PlaceholderNamed(events: seq<Event>) {
    && (exists d :: 0 <= d < |events| && NamesPlaceholder(events[d]))
    && (exists n :: 0 <= n < |events| && events[n].kind.InBracket() && Owner(events[n]) == Some(MISSING))
  }

  predicate NamesPlaceholder(ev: Event) {
    ev.kind.ResponseDone? && GetId(ev) == Some(MISSING)
  }

  ghost predicate SomeLate(events: seq<Event>, r: string) {
    exists n :: 0 <= n < |events| && LateFor(events, n, r)
  }

  lemma LateIsAfterDone(events: seq<Event>, n: nat, r: string)
    requires n < |events| && LateFor(events, n, r)
    ensures SeenDone(events, n, r)
  {
    var d :| 0 <= d < n && events[d].kind.ResponseDone? && GetId(events[d]) == Some(r);
    assert DoneFor(events[d], r);
  }

  lemma LateInWhole(events: seq<Event>, r: string)
    requires WholeFor(events, r)
    ensures SomeLate(events, r) <==> Cross(events, r)
  {
    if SomeLate(events, r) {
      var n :| 0 <= n < |events| && LateFor(events, n, r);
      LateIsAfterDone(events, n, r);
      OrderedInPlace(events, n, r);
      var d :| 0 <= d < n && DoneFor(events[d], r);
      assert IsAlias(events[n], r);
    }
    if Cross(events, r) {
      var d, n :| 0 <= d < n < |events| && DoneFor(events[d], r) && IsAlias(events[n], r);
      assert LateFor(events, n, r);
    }
  }

  /** In a backward response an own event other than the done is late exactly when the done and the
      event both name the response. */
  lemma LateInBackward(events: seq<Event>, r: string)
    requires Backward(OwnSteps(events, r))
    ensures SomeLate(events, r) <==> r != MISSING || PlaceholderNamed(events)
  {
    OrderedPairs(events, r);
    assert events[..|events|] == events;
    TurnedMeaning(events, |events|, r);
    var d :| 0 <= d < |events| && DoneFor(events[d], r);
    if r != MISSING {
      var c :| 0 <= c < |events| && CreatedFor(events[c], r);
      OwnEventIsLate(events, d, c, r);
    } else if PlaceholderNamed(events) {
      var n :| 0 <= n < |events| && events[n].kind.InBracket() && Owner(events[n]) == Some(MISSING);
      var e :| 0 <= e < |events| && NamesPlaceholder(events[e]);
      OwnEventIsLate(events, e, n, r);
    }
  }

  lemma OwnEventIsLate(events: seq<Event>, d: nat, n: nat, r: string)
    requires d < |events| && n < |events| && Backward(OwnSteps(events, r)) && PairedFor(events, r)
    requires events[d].kind.ResponseDone? && GetId(events[d]) == Some(r) && DoneFor(events[d], r)
    requires events[n].kind.InBracket() && Owner(events[n]) == Some(r)
    requires r == MISSING || CreatedFor(events[n], r)
    ensures SomeLate(events, r)
  {
    OrderedInPlace(events, n, r);
    assert StepOf(events[n], r) in {Some(Begin), Some(Body)};
    var e :| 0 <= e < n && DoneFor(events[e], r);
    assert e == d;
    assert LateFor(events, n, r);
  }

  /** What the three rules together ask of one response, on any trace: its own events read created,
      others, done and no alias of it is created after its done.  The placeholder under which
      unnamed events are filed may also read backwards, unless it is itself used as an id. */
  ghost predicate Passes(events: seq<Event>, r: string) {
    || (WholeFor(events, r) && !Cross(events, r))
    || (r == MISSING && Backward(OwnSteps(events, r)) && !PlaceholderNamed(events))
  }

  lemma ResponseAccepted(events: seq<Event>, r: string)
    ensures AcceptedFor(events, r) <==> Passes(events, r)
  {
    TidyIffOrdered(events, r);
    assert AcceptedFor(events, r) <==> TidyFor(events, r) && !SomeLate(events, r);
    if WholeFor(events, r) {
      LateInWhole(events, r);
    } else if Backward(OwnSteps(events, r)) {
      LateInBackward(events, r);
    }
  }

  /** Every response.created and response.done names its response. */
  predicate Named(events: seq<Event>) {
    forall n :: 0 <= n < |events| && (events[n].kind.ResponseCreated? || events[n].kind.ResponseDone?) ==>
      GetId(events[n]).Some? && GetId(events[n]).value != ""
  }

  /** On a named trace nothing but wholeness matters. */
  lemma NamedPassesIffWhole(events: seq<Event>, r: string)
    requires Named(events)
    ensures Passes(events, r) <==> WholeFor(events, r)
  {
    if r == MISSING && Backward(OwnSteps(events, r)) {
      assert events[..|events|] == events;
      TurnedMeaning(events, |events|, r);
      var d :| 0 <= d < |events| && DoneFor(events[d], r);
      var c :| 0 <= c < |events| && CreatedFor(events[c], r);
      assert NamesPlaceholder(events[d]) && events[c].kind.InBracket();
    }
  }

  // ---------- the whole trace ----------

  /** W1, W2 and W6 all report nothing. */
  ghost predicate Accepted(events: seq<Event>) {
    Paired(events) && Obeys(Stray, events) && Obeys(Late, events)
  }

  lemma AcceptedIsPerResponse(events: seq<Event>)
    ensures Accepted(events) <==> forall r :: AcceptedFor(events, r)
  {
    if Accepted(events) {
      forall r
        ensures AcceptedFor(events, r)
      {
        forall n | 0 <= n < |events|
          ensures !StrayFor(events, n, r) && !LateFor(events, n, r)
        {
          assert !Bad(Stray, events, n) && !Bad(Late, events, n);
        }
        assert PairedFor(events, r);
      }
    }
    if forall r :: AcceptedFor(events, r) {
      forall r ensures PairedFor(events, r) { assert AcceptedFor(events, r); }
      forall n | 0 <= n < |events|
        ensures !Bad(Stray, events, n) && !Bad(Late, events, n)
      {
        if StrayAt(events, n) {
          var r :| WindowFor(events[n], r) && !OpenAt(events, n, r);
          assert AcceptedFor(events, r) && StrayFor(events, n, r);
        }
        if LateAt(events, n) {
          var r := Owner(events[n]).value;
          assert AcceptedFor(events, r) && LateFor(events, n, r);
        }
      }
    }
  }

  /** The three checkers accept a trace exactly when every response passes. */
  lemma AcceptedIffAllPass(events: seq<Event>)
    ensures Accepted(events) <==> forall r :: Passes(events, r)
  {
    AcceptedIsPerResponse(events);
    forall r
      ensures AcceptedFor(events, r) <==> Passes(events, r)
    {
      ResponseAccepted(events, r);
    }
    if Accepted(events) {
      forall r ensures Passes(events, r) { assert AcceptedFor(events, r); }
    }
    if forall r :: Passes(events, r) {
      forall r ensures AcceptedFor(events, r) { assert Passes(events, r); }
    }
  }

  /** If every created and done carries an id, that is when every response's own events read
      created, others, done. */
  lemma AcceptedIffWholeResponses(events: seq<Event>)
    requires Named(events)
    ensures Accepted(events) <==> forall r :: WholeFor(events, r)
  {
    AcceptedIffAllPass(events);
    forall r
      ensures Passes(events, r) <==> WholeFor(events, r)
    {
      NamedPassesIffWhole(events, r);
    }
    if Accepted(events) {
      forall r ensures WholeFor(events, r) { assert Passes(events, r); }
    }
    if forall r :: WholeFor(events, r) {
      forall r ensures Passes(events, r) { assert WholeFor(events, r); }
    }
  }

  /** Without names the rules can be fooled: a done before its created passes all three, because
      W6 skips a done that carries no id. */
  lemma UnnamedTraceFoolsTheRules()
    ensures exists events :: !Named(events) && Accepted(events) && !WholeFor(events, MISSING)
  {
    var blank := Event(ResponseDone, None, None, None, None, None, None, None);
    var events := [blank, blank.(kind := ResponseCreated)];
    assert !Named(events);
    forall r
      ensures OwnSteps(events, r) == if r == MISSING then [End, Begin] else []
    {
      TwoSteps(events, r);
    }
    forall r
      ensures Passes(events, r)
    {
      if r == MISSING {
        assert Backward(OwnSteps(events, r)) && !PlaceholderNamed(events);
      } else {
        assert WholeFor(events, r) && !Cross(events, r);
      }
    }
    AcceptedIffAllPass(events);
  }

  lemma TwoSteps(events: seq<Event>, r: string)
    requires |events| == 2
    ensures OwnSteps(events, r) == OwnStage(events[0], r) + OwnStage(events[1], r)
  {
    OwnStep(events, 0, r);
    OwnStep(events, 1, r);
    assert events[..2] == events;
  }

  /** Without names they also refuse traces whose every response is whole: a created that only a
      response_id names is filed under the placeholder by W1 and W2, but belongs to that id in W6. */
  lemma AliasedTraceIsRefused()
    ensures exists events :: !Accepted(events) && forall r :: WholeFor(events, r)
  {
    var blank := Event(ResponseCreated, None, None, None, None, None, None, None);
    var events := [blank.(id := Some("a")), blank.(kind := ResponseDone, id := Some("a")),
                   blank.(responseId := Some("a")), blank.(kind := ResponseDone)];
    assert DoneFor(events[1], "a") && IsAlias(events[2], "a");
    AcceptedIffAllPass(events);
    assert !Passes(events, "a");
    forall r
      ensures WholeFor(events, r)
    {
      FourSteps(events, r);
    }
  }

  lemma FourSteps(events: seq<Event>, r: string)
    requires |events| == 4
    ensures OwnSteps(events, r) ==
            OwnStage(events[0], r) + OwnStage(events[1], r) + OwnStage(events[2], r) + OwnStage(events[3], r)
  {
    OwnStep(events, 0, r);
    OwnStep(events, 1, r);
    OwnStep(events, 2, r);
    OwnStep(events, 3, r);
    assert events[..4] == events;
  }
}
