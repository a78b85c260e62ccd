/** The request batcher as a protocol: submitters, timers and flushes interleaved at the granularity of its lock. */
module BatcherProtocol {
  type Key = string
  type Payload = string
  type Value = string
  type Exn = string
  type Runner = nat

  /** Slots are numbered in the order of submission. */
  type Slot = nat

  datatype Submission = Submission(key: Key, payload: Payload, runner: Runner)

  datatype Outcome = Returned(results: seq<Value>) | Raised(error: Exn)

  datatype Phase = Running | Delivering(outcome: Outcome, next: nat)

  /** A batch taken by a flush. */
  datatype Flight = Flight(key: Key, slots: seq<Slot>, runner: Runner, phase: Phase)

  datatype Answer = Result(value: Value) | Error(error: Exn)

  datatype State = State(
    submitted: seq<Submission>,
    pending: map<Key, seq<Slot>>,
    timers: map<Key, Runner>,
    flights: seq<Flight>,
    done: map<Slot, Answer>)

  const INITIAL := State([], map[], map[], [], map[])

  /** One atomic action: a submitter's locked section, a flush's locked section, a runner coming back, or the
      completion of one slot. */
  datatype Step =
    | Submit(key: Key, payload: Payload, runner: Runner)
    | Take(key: Key)
    | Return(flight: nat, outcome: Outcome)
    | Complete(flight: nat)

  function Pending(s: State, key: Key): seq<Slot> {
    if key in s.pending then s.pending[key] else []
  }

  /** How many slots the outcome can answer: all of them if the runner raised. */
  function Answered(slots: seq<Slot>, outcome: Outcome): (n: nat)
    ensures n <= |slots|
  {
    match outcome
    case Raised(_) => |slots|
    case Returned(results) => if |results| < |slots| then |results| else |slots|
  }

  function AnswerAt(outcome: Outcome, i: nat): Answer
    requires outcome.Returned? ==> i < |outcome.results|
  {
    match outcome
    case Raised(error) => Error(error)
    case Returned(results) => Result(results[i])
  }

  predicate Enabled(s: State, step: Step) {
    match step
    case Submit(_, _, _) => true
    case Take(key) => key in s.timers
    case Return(f, _) => f < |s.flights| && s.flights[f].phase.Running?
    case Complete(f) =>
      f < |s.flights| && s.flights[f].phase.Delivering? &&
      s.flights[f].phase.next < Answered(s.flights[f].slots, s.flights[f].phase.outcome)
  }

  function Next(s: State, step: Step): State
    requires Enabled(s, step)
  {
    match step
    case Submit(key, payload, runner) =>
      s.(submitted := s.submitted + [Submission(key, payload, runner)],
         pending := s.pending[key := Pending(s, key) + [|s.submitted|]],
         timers := if key in s.timers then s.timers else s.timers[key := runner])
    case Take(key) =>
      var slots := Pending(s, key);
      s.(pending := s.pending - {key}, timers := s.timers - {key},
         flights := if slots == [] then s.flights else s.flights + [Flight(key, slots, s.timers[key], Running)])
    case Return(f, outcome) =>
      s.(flights := s.flights[f := s.flights[f].(phase := Delivering(outcome, 0))])
    case Complete(f) =>
      var flight := s.flights[f];
      var i := flight.phase.next;
      s.(flights := s.flights[f := flight.(phase := flight.phase.(next := i + 1))],
         done := s.done[flight.slots[i] := AnswerAt(flight.phase.outcome, i)])
  }

  // ---------- the invariant ----------

  /** The slots of one batch: of its key, in submission order, and at least one. */
  predicate Batch(submitted: seq<Submission>, key: Key, slots: seq<Slot>) {
    && slots != []
    && (forall i :: 0 <= i < |slots| ==> slots[i] < |submitted| && submitted[slots[i]].key == key)
    && (forall i, j :: 0 <= i < j < |slots| ==> slots[i] < slots[j])
  }

  ghost predicate Waiting(s: State, id: Slot) {
    id < |s.submitted| && id in Pending(s, s.submitted[id].key)
  }

  ghost predicate Aboard(s: State, id: Slot, f: nat) {
    f < |s.flights| && id in s.flights[f].slots
  }

  /** A key has a timer exactly when it has pending slots, and the timer runs the first submitter's runner. */
  ghost predicate TimersMatch(s: State) {
    && s.timers.Keys == s.pending.Keys
    && (forall key :: key in s.pending ==> Batch(s.submitted, key, s.pending[key]))
    && (forall key :: key in s.timers ==> s.timers[key] == s.submitted[s.pending[key][0]].runner)
  }

  ghost predicate FlightsMatch(s: State) {
    forall f :: 0 <= f < |s.flights| ==>
      && Batch(s.submitted, s.flights[f].key, s.flights[f].slots)
      && s.flights[f].runner == s.submitted[s.flights[f].slots[0]].runner
      && (s.flights[f].phase.Delivering? ==>
            s.flights[f].phase.next <= Answered(s.flights[f].slots, s.flights[f].phase.outcome))
  }

  /** Every slot is waiting or aboard one flight, never both. */
  ghost predicate SomewhereOnce(s: State) {
    && (forall id: Slot :: id < |s.submitted| ==> Waiting(s, id) || exists f: nat :: Aboard(s, id, f))
    && (forall id: Slot, f: nat :: Aboard(s, id, f) ==> !Waiting(s, id))
    && (forall id: Slot, f: nat, g: nat :: Aboard(s, id, f) && Aboard(s, id, g) ==> f == g)
  }

  /** Flight f has delivered to its slot i. */
  predicate Delivered(s: State, f: nat, i: nat) {
    && f < |s.flights| && s.flights[f].phase.Delivering?
    && i < s.flights[f].phase.next <= Answered(s.flights[f].slots, s.flights[f].phase.outcome)
  }

  predicate AnsweredAt(s: State, f: nat, i: nat, id: Slot) {
    Delivered(s, f, i) && s.flights[f].slots[i] == id
  }

  predicate Recorded(s: State, f: nat, i: nat)
    requires Delivered(s, f, i)
  {
    var id := s.flights[f].slots[i];
    id in s.done && s.done[id] == AnswerAt(s.flights[f].phase.outcome, i)
  }

  /** A slot is answered exactly when its flight has delivered to it, with the answer of its own place. */
  ghost predicate AnswersMatch(s: State) {
    && (forall id :: id in s.done ==> exists f: nat, i: nat :: AnsweredAt(s, f, i, id))
    && (forall f: nat, i: nat :: Delivered(s, f, i) ==>
          Recorded(s, f, i))
  }

  ghost predicate Inv(s: State) {
    TimersMatch(s) && FlightsMatch(s) && SomewhereOnce(s) && AnswersMatch(s)
  }

  lemma BatchGrows(submitted: seq<Submission>, more: Submission, key: Key, slots: seq<Slot>)
    requires Batch(submitted, key, slots)
    ensures Batch(submitted + [more], key, slots)
  {}

  lemma SubmitKeeps(s: State, key: Key, payload: Payload, runner: Runner)
    requires Inv(s)
    ensures Inv(Next(s, Submit(key, payload, runner)))
  {
    SubmitBatches(s, key, payload, runner);
    SubmitPlaces(s, key, payload, runner);
    SubmitAnswers(s, key, payload, runner);
  }

  lemma SubmitTimers(s: State, key: Key, payload: Payload, runner: Runner)
    requires TimersMatch(s)
    ensures TimersMatch(Next(s, Submit(key, payload, runner)))
  {
    var t := Next(s, Submit(key, payload, runner));
    forall k | k in t.pending
      ensures Batch(t.submitted, k, t.pending[k])
      ensures t.timers[k] == t.submitted[t.pending[k][0]].runner
    {
      if k in s.pending { BatchGrows(s.submitted, Submission(key, payload, runner), k, s.pending[k]); }
    }
  }

  lemma SubmitBatches(s: State, key: Key, payload: Payload, runner: Runner)
    requires Inv(s)
    ensures var t := Next(s, Submit(key, payload, runner)); TimersMatch(t) && FlightsMatch(t)
  {
    SubmitTimers(s, key, payload, runner);
    var t := Next(s, Submit(key, payload, runner));
    forall f | 0 <= f < |t.flights|
      ensures Batch(t.submitted, t.flights[f].key, t.flights[f].slots)
    {
      BatchGrows(s.submitted, Submission(key, payload, runner), s.flights[f].key, s.flights[f].slots);
    }
  }

  lemma SubmitAnswers(s: State, key: Key, payload: Payload, runner: Runner)
    requires Inv(s)
    ensures AnswersMatch(Next(s, Submit(key, payload, runner)))
  {
    var t := Next(s, Submit(key, payload, runner));
    forall f: nat, i: nat | Delivered(t, f, i)
      ensures Recorded(t, f, i)
    {
      assert Delivered(s, f, i) && Recorded(s, f, i);
    }
    forall x | x in t.done
      ensures exists f: nat, i: nat :: AnsweredAt(t, f, i, x)
    {
      var f: nat, i: nat :| AnsweredAt(s, f, i, x);
      assert AnsweredAt(t, f, i, x);
    }
  }

  lemma SubmitPlaces(s: State, key: Key, payload: Payload, runner: Runner)
    requires Inv(s)
    ensures SomewhereOnce(Next(s, Submit(key, payload, runner)))
  {
    var t := Next(s, Submit(key, payload, runner));
    forall id: Slot | id < |t.submitted|
      ensures Waiting(t, id) <==> Waiting(s, id) || id == |s.submitted|
    {
      if id < |s.submitted| { assert t.submitted[id] == s.submitted[id]; }
    }
    forall id: Slot, f: nat
      ensures Aboard(t, id, f) <==> Aboard(s, id, f)
      ensures Aboard(s, id, f) ==> id < |s.submitted|
    {
      if Aboard(s, id, f) { AboardIsSubmitted(s, id, f); }
    }
    forall id: Slot | id < |t.submitted|
      ensures Waiting(t, id) || exists f: nat :: Aboard(t, id, f)
    {
      if id < |s.submitted| && !Waiting(s, id) {
        var f: nat :| Aboard(s, id, f);
        assert Aboard(t, id, f);
      }
    }
  }

  lemma AboardIsSubmitted(s: State, id: Slot, f: nat)
    requires FlightsMatch(s) && Aboard(s, id, f)
    ensures id < |s.submitted| && s.submitted[id].key == s.flights[f].key
  {}

  lemma TakeKeeps(s: State, key: Key)
    requires Inv(s) && Enabled(s, Take(key))
    ensures Inv(Next(s, Take(key)))
    ensures Pending(s, key) != [] && |Next(s, Take(key)).flights| == |s.flights| + 1
  {
    var t, slots, n := Next(s, Take(key)), Pending(s, key), |s.flights|;
    assert Batch(s.submitted, key, slots);
    TakePlaces(s, key);
    forall f: nat, i: nat | Delivered(t, f, i)
      ensures Recorded(t, f, i)
    {
      assert f < n && Delivered(s, f, i) && Recorded(s, f, i);
    }
    forall x | x in t.done
      ensures exists f: nat, i: nat :: AnsweredAt(t, f, i, x)
    {
      var f: nat, i: nat :| AnsweredAt(s, f, i, x);
      assert AnsweredAt(t, f, i, x);
    }
  }

  lemma TakePlaces(s: State, key: Key)
    requires Inv(s) && Enabled(s, Take(key))
    ensures SomewhereOnce(Next(s, Take(key)))
  {
    var t, slots, n := Next(s, Take(key)), Pending(s, key), |s.flights|;
    forall id: Slot
      ensures Waiting(t, id) <==> Waiting(s, id) && s.submitted[id].key != key
    {}
    forall id: Slot
      ensures Aboard(t, id, n) <==> Waiting(s, id) && s.submitted[id].key == key
    {
      if id in slots { assert Batch(s.submitted, key, slots); }
    }
    forall id: Slot, f: nat
      ensures Aboard(t, id, f) <==> Aboard(s, id, f) || (f == n && Aboard(t, id, n))
    {}
    forall id: Slot | id < |t.submitted|
      ensures Waiting(t, id) || exists f: nat :: Aboard(t, id, f)
    {
      if !Waiting(t, id) {
        if Waiting(s, id) {
          assert Aboard(t, id, n);
        } else {
          var f: nat :| Aboard(s, id, f);
          assert Aboard(t, id, f);
        }
      }
    }
  }

  lemma ReturnKeeps(s: State, f: nat, outcome: Outcome)
    requires Inv(s) && Enabled(s, Return(f, outcome))
    ensures Inv(Next(s, Return(f, outcome)))
  {
    var t := Next(s, Return(f, outcome));
    SamePlaces(s, t);
    forall g: nat, i: nat | Delivered(t, g, i)
      ensures Recorded(t, g, i)
    {
      assert Delivered(s, g, i) && Recorded(s, g, i);
    }
    forall x | x in t.done
      ensures exists g: nat, i: nat :: AnsweredAt(t, g, i, x)
    {
      var g: nat, i: nat :| AnsweredAt(s, g, i, x);
      assert AnsweredAt(t, g, i, x);
    }
  }

  lemma SamePlaces(s: State, t: State)
    requires SomewhereOnce(s) && s.submitted == t.submitted && s.pending == t.pending && |s.flights| == |t.flights|
    requires forall f :: 0 <= f < |s.flights| ==> s.flights[f].slots == t.flights[f].slots
    ensures SomewhereOnce(t)
  {
    forall id: Slot ensures Waiting(t, id) <==> Waiting(s, id) {}
    forall id: Slot, f: nat ensures Aboard(t, id, f) <==> Aboard(s, id, f) {}
    forall id: Slot | id < |t.submitted|
      ensures Waiting(t, id) || exists f: nat :: Aboard(t, id, f)
    {
      if !Waiting(s, id) {
        var f: nat :| Aboard(s, id, f);
        assert Aboard(t, id, f);
      }
    }
  }

  /** No slot is completed twice. */
  lemma CompletesOnce(s: State, f: nat)
    requires Inv(s) && Enabled(s, Complete(f))
    ensures s.flights[f].slots[s.flights[f].phase.next] !in s.done
  {
    var flight := s.flights[f];
    var id := flight.slots[flight.phase.next];
    if id in s.done {
      var g: nat, i: nat :| AnsweredAt(s, g, i, id);
      assert Aboard(s, id, f) && Aboard(s, id, g);
    }
  }

  lemma CompleteKeeps(s: State, f: nat)
    requires Inv(s) && Enabled(s, Complete(f))
    ensures Inv(Next(s, Complete(f)))
  {
    CompletesOnce(s, f);
    SamePlaces(s, Next(s, Complete(f)));
    CompleteAnswers(s, f);
  }

  lemma CompleteAnswers(s: State, f: nat)
    requires Inv(s) && Enabled(s, Complete(f))
    ensures AnswersMatch(Next(s, Complete(f)))
  {
    var t, n := Next(s, Complete(f)), s.flights[f].phase.next;
    CompletesOnce(s, f);
    forall g: nat, i: nat
      ensures Delivered(t, g, i) <==> Delivered(s, g, i) || (g == f && i == n)
    {}
    forall g: nat, i: nat | Delivered(t, g, i)
      ensures Recorded(t, g, i)
    {
      if Delivered(s, g, i) { assert Recorded(s, g, i); }
    }
    forall x | x in t.done
      ensures exists g: nat, i: nat :: AnsweredAt(t, g, i, x)
    {
      if x in s.done {
        var g: nat, i: nat :| AnsweredAt(s, g, i, x);
        assert AnsweredAt(t, g, i, x);
      } else {
        assert AnsweredAt(t, f, n, x);
      }
    }
  }

  /** Every step keeps the invariant, and no answer ever changes. */
  lemma StepKeeps(s: State, step: Step)
    requires Inv(s) && Enabled(s, step)
    ensures Inv(Next(s, step))
    ensures forall id :: id in s.done ==> id in Next(s, step).done && Next(s, step).done[id] == s.done[id]
  {
    hide TimersMatch, FlightsMatch, SomewhereOnce, AnswersMatch;
    match step
    case Submit(key, payload, runner) => SubmitKeeps(s, key, payload, runner);
    case Take(key) => TakeKeeps(s, key);
    case Return(f, outcome) => ReturnKeeps(s, f, outcome);
    case Complete(f) =>
      CompleteKeeps(s, f);
      CompletesOnce(s, f);
  }

  // ---------- whole runs ----------

  ghost predicate Runs(steps: seq<Step>, s: State) {
    if steps == [] then s == INITIAL
    else
      var n := |steps| - 1;
      exists before :: Runs(steps[..n], before) && Enabled(before, steps[n]) && s == Next(before, steps[n])
  }

  /** In every interleaving, the invariant holds. */
  lemma {:induction false} RunKeeps(steps: seq<Step>, s: State)
    requires Runs(steps, s)
    ensures Inv(s)
  {
    if steps != [] {
      var n := |steps| - 1;
      var before :| Runs(steps[..n], before) && Enabled(before, steps[n]) && s == Next(before, steps[n]);
      RunKeeps(steps[..n], before);
      StepKeeps(before, steps[n]);
    }
  }

  // ---------- every submitter gets its own answer ----------

  /** What the runner of a flight is called with. */
  function Payloads(s: State, f: nat): (payloads: seq<Payload>)
    requires f < |s.flights| && Batch(s.submitted, s.flights[f].key, s.flights[f].slots)
    ensures |payloads| == |s.flights[f].slots|
  {
    var slots := s.flights[f].slots;
    seq(|slots|, i requires 0 <= i < |slots| => s.submitted[slots[i]].payload)
  }

  /** Every runner that came back with results gave one per payload, computed from it by run. */
  ghost predicate OnePerPayload(s: State, run: (Runner, Payload) -> Value)
    requires FlightsMatch(s)
  {
    forall f: nat :: f < |s.flights| && s.flights[f].phase.Delivering? && s.flights[f].phase.outcome.Returned? ==>
      var results, payloads := s.flights[f].phase.outcome.results, Payloads(s, f);
      |results| == |payloads| && forall i :: 0 <= i < |results| ==> results[i] == run(s.flights[f].runner, payloads[i])
  }

  /** In every interleaving, an answered slot has its runner's value for its own payload, or the runner's exception;
      the runner is that of the first submitter of its batch, whose key it shares. */
  lemma AnsweredWithOwn(steps: seq<Step>, s: State, run: (Runner, Payload) -> Value, id: Slot)
    requires Runs(steps, s) && FlightsMatch(s) && OnePerPayload(s, run) && id in s.done
    ensures id < |s.submitted|
    ensures exists f: nat :: Aboard(s, id, f) && s.flights[f].phase.Delivering? &&
              s.done[id] == match s.flights[f].phase.outcome
                            case Raised(error) => Error(error)
                            case Returned(_) => Result(run(s.flights[f].runner, s.submitted[id].payload))
  {
    RunKeeps(steps, s);
    var f: nat, i: nat :| AnsweredAt(s, f, i, id);
    assert Recorded(s, f, i);
    assert Batch(s.submitted, s.flights[f].key, s.flights[f].slots);
    assert Payloads(s, f)[i] == s.submitted[id].payload;
    assert Aboard(s, id, f);
  }

  /** Nothing is left to do but submit. */
  ghost predicate Quiet(s: State) {
    && (forall key :: !Enabled(s, Take(key)))
    && (forall f: nat, outcome: Outcome :: !Enabled(s, Return(f, outcome)))
    && (forall f: nat :: !Enabled(s, Complete(f)))
  }

  /** The flight's runner came back with fewer results than slots, and the slot is one it has none for. */
  ghost predicate LeftOut(s: State, id: Slot, f: nat, i: nat) {
    && f < |s.flights| && i < |s.flights[f].slots| && s.flights[f].slots[i] == id
    && s.flights[f].phase.Delivering? && s.flights[f].phase.outcome.Returned?
    && |s.flights[f].phase.outcome.results| <= i
  }

  /** Once nothing but submitting is left, a slot is unanswered exactly when its runner returned too few results. */
  lemma QuietIsAnswered(steps: seq<Step>, s: State, id: Slot)
    requires Runs(steps, s) && Quiet(s) && id < |s.submitted|
    ensures id !in s.done <==> exists f: nat, i: nat :: LeftOut(s, id, f, i)
  {
    RunKeeps(steps, s);
    if id !in s.done {
      NobodyWaits(s, id);
      var f: nat :| Aboard(s, id, f);
      var i: nat :| i < |s.flights[f].slots| && s.flights[f].slots[i] == id;
      assert !Enabled(s, Return(f, Returned([]))) && !Enabled(s, Complete(f));
      assert !Delivered(s, f, i);
      assert LeftOut(s, id, f, i);
    }
    if f: nat, i: nat :| LeftOut(s, id, f, i) {
      if id in s.done { AnsweredIsNotLeftOut(s, id, f, i); }
    }
  }

  lemma NobodyWaits(s: State, id: Slot)
    requires Inv(s) && Quiet(s)
    ensures !Waiting(s, id)
  {
    if id < |s.submitted| { assert !Enabled(s, Take(s.submitted[id].key)); }
  }

  lemma AnsweredIsNotLeftOut(s: State, id: Slot, f: nat, i: nat)
    requires Inv(s) && id in s.done
    ensures !LeftOut(s, id, f, i)
  {
    var g: nat, j: nat :| AnsweredAt(s, g, j, id);
    assert Aboard(s, id, g);
    if LeftOut(s, id, f, i) {
      SameSlotSamePlace(s, id, f, i, g, j);
    }
  }

  lemma SameSlotSamePlace(s: State, id: Slot, f: nat, i: nat, g: nat, j: nat)
    requires Inv(s) && f < |s.flights| && g < |s.flights| && i < |s.flights[f].slots| && j < |s.flights[g].slots|
    requires s.flights[f].slots[i] == id == s.flights[g].slots[j]
    ensures f == g && i == j
  {
    assert Aboard(s, id, f) && Aboard(s, id, g);
    assert Batch(s.submitted, s.flights[f].key, s.flights[f].slots);
  }

  // ---------- delivering a whole batch ----------

  /** Flight f has answers left for n more of its slots. */
  predicate CanComplete(s: State, f: nat, n: nat) {
    f < |s.flights| && s.flights[f].phase.Delivering? &&
    s.flights[f].phase.next + n <= Answered(s.flights[f].slots, s.flights[f].phase.outcome)
  }

  /** The state after n completions of flight f in a row. */
  function Completions(s: State, f: nat, n: nat): (t: State)
    requires CanComplete(s, f, n)
    ensures |t.flights| == |s.flights| && t.flights[f].slots == s.flights[f].slots
    ensures t.flights[f].phase == s.flights[f].phase.(next := s.flights[f].phase.next + n)
  {
    if n == 0 then s else Next(Completions(s, f, n - 1), Complete(f))
  }

  /** They are steps of the protocol, and a flight's slots are answered just as far as it has delivered. */
  lemma {:induction false} CompletionsKeep(s: State, f: nat, n: nat)
    requires Inv(s) && CanComplete(s, f, n)
    ensures n > 0 ==> Enabled(Completions(s, f, n - 1), Complete(f))
    ensures Inv(Completions(s, f, n))
    decreases n
  {
    if n > 0 {
      CompletionsKeep(s, f, n - 1);
      StepKeeps(Completions(s, f, n - 1), Complete(f));
    }
  }

  lemma AnsweredSoFar(s: State, f: nat, i: nat)
    requires Inv(s) && f < |s.flights| && s.flights[f].phase.Delivering? && i < |s.flights[f].slots|
    ensures s.flights[f].slots[i] in s.done <==> i < s.flights[f].phase.next
    ensures i < s.flights[f].phase.next ==> Recorded(s, f, i)
  {
    var id := s.flights[f].slots[i];
    if i < s.flights[f].phase.next {
      assert Delivered(s, f, i);
    } else if id in s.done {
      var g: nat, j: nat :| AnsweredAt(s, g, j, id);
      SameSlotSamePlace(s, id, f, i, g, j);
    }
  }

  // ---------- every run dies down ----------

  function Actions(steps: seq<Step>): nat {
    if steps == [] then 0 else Actions(steps[..|steps| - 1]) + if steps[|steps| - 1].Submit? then 0 else 1
  }

  function BackCount(flights: seq<Flight>): (n: nat)
    ensures n <= |flights|
  {
    if flights == [] then 0
    else BackCount(flights[..|flights| - 1]) + if flights[|flights| - 1].phase.Delivering? then 1 else 0
  }

  lemma {:induction false} BackCountAt(flights: seq<Flight>, f: nat, flight: Flight)
    requires f < |flights|
    ensures BackCount(flights[f := flight]) ==
            BackCount(flights) - (if flights[f].phase.Delivering? then 1 else 0) + (if flight.phase.Delivering? then 1 else 0)
  {
    var n := |flights| - 1;
    if f < n {
      BackCountAt(flights[..n], f, flight);
      assert flights[f := flight][..n] == flights[..n][f := flight];
    } else {
      assert flights[f := flight][..n] == flights[..n];
    }
  }

  /** Flushes, returns and completions so far are the flights, those come back, and the slots answered. */
  lemma {:induction false} ActionsAre(steps: seq<Step>, s: State)
    requires Runs(steps, s)
    ensures Actions(steps) == |s.flights| + BackCount(s.flights) + |s.done|
  {
    if steps != [] {
      var n := |steps| - 1;
      var before :| Runs(steps[..n], before) && Enabled(before, steps[n]) && s == Next(before, steps[n]);
      ActionsAre(steps[..n], before);
      RunKeeps(steps[..n], before);
      ActionCounts(before, steps[n]);
    }
  }

  /** Every step but a submission adds one to the flights, the returns or the answers. */
  lemma ActionCounts(s: State, step: Step)
    requires Inv(s) && Enabled(s, step)
    ensures var t := Next(s, step);
            |t.flights| + BackCount(t.flights) + |t.done| ==
            |s.flights| + BackCount(s.flights) + |s.done| + if step.Submit? then 0 else 1
  {
    var t := Next(s, step);
    match step
    case Submit(_, _, _) =>
    case Take(key) =>
      TakeKeeps(s, key);
      assert t.flights[..|s.flights|] == s.flights;
    case Return(f, outcome) =>
      BackCountAt(s.flights, f, t.flights[f]);
    case Complete(f) =>
      BackCountAt(s.flights, f, t.flights[f]);
      CompletesOnce(s, f);
  }

  lemma {:induction false} AtMost(s: set<nat>, n: nat)
    requires forall x :: x in s ==> x < n
    ensures |s| <= n
  {
    if n > 0 {
      AtMost(s - {n - 1}, n - 1);
      assert s <= (s - {n - 1}) + {n - 1};
    } else {
      assert s == {};
    }
  }

  lemma {:induction false} FirstSlots(s: State, k: nat)
    requires Inv(s) && k <= |s.flights|
    ensures |set f: nat | f < k :: s.flights[f].slots[0]| == k
  {
    if k > 0 {
      FirstSlots(s, k - 1);
      var now, before := set f: nat | f < k :: s.flights[f].slots[0], set f: nat | f < k - 1 :: s.flights[f].slots[0];
      assert now == before + {s.flights[k - 1].slots[0]};
      hide SomewhereOnce, AnswersMatch, TimersMatch;
      if s.flights[k - 1].slots[0] in before {
        var f: nat :| f < k - 1 && s.flights[f].slots[0] == s.flights[k - 1].slots[0];
        SameSlotSamePlace(s, s.flights[f].slots[0], f, 0, k - 1, 0);
      }
    }
  }

  /** However steps interleave, there are never more than three actions to a submission. */
  lemma ActionsAreFew(steps: seq<Step>, s: State)
    requires Runs(steps, s)
    ensures Actions(steps) <= 3 * |s.submitted|
  {
    RunKeeps(steps, s);
    ActionsAre(steps, s);
    FirstSlots(s, |s.flights|);
    var firsts := set f: nat | f < |s.flights| :: s.flights[f].slots[0];
    forall x | x in firsts
      ensures x < |s.submitted|
    {
      var f: nat :| f < |s.flights| && s.flights[f].slots[0] == x;
      assert Batch(s.submitted, s.flights[f].key, s.flights[f].slots);
    }
    AtMost(firsts, |s.submitted|);
    forall id | id in s.done
      ensures id < |s.submitted|
    {
      var f: nat, i: nat :| AnsweredAt(s, f, i, id);
      assert Batch(s.submitted, s.flights[f].key, s.flights[f].slots);
    }
    AtMost(s.done.Keys, |s.submitted|);
  }
}
