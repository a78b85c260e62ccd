/** The batcher object: its two locked sections and the delivery of a batch, against the protocol's steps. */
module RequestBatcher {
  import opened Wrappers
  import opened BatcherProtocol

  /** What a submitter waits on; id is its number in the protocol. */
  class Ticket {
    ghost const id: Slot
    const payload: Payload
    var result: Option<Value>
    var error: Option<Exn>
    var completed: bool

    constructor (ghost id: Slot, payload: Payload)
      ensures this.id == id && this.payload == payload && result == None && error == None && !completed
    {
      this.id, this.payload := id, payload;
      result, error, completed := None, None, false;
    }

    /** The ticket has been completed, with this answer. */
    predicate Holds(answer: Answer)
      reads this
    {
      completed && match answer
                   case Result(value) => result == Some(value) && error == None
                   case Error(exn) => error == Some(exn) && result == None
    }
  }

  ghost function Ids(tickets: seq<Ticket>): (ids: seq<Slot>)
    ensures |ids| == |tickets| && forall i :: 0 <= i < |ids| ==> ids[i] == tickets[i].id
  {
    seq(|tickets|, i requires 0 <= i < |tickets| => tickets[i].id)
  }

  class Batcher {
    var pending: map<Key, seq<Ticket>>
    var timers: map<Key, Runner>

    /** The object stands where the protocol does. */
    ghost predicate Represents(s: State)
      reads this
    {
      && pending.Keys == s.pending.Keys && timers == s.timers
      && forall key :: key in pending ==> Ids(pending[key]) == s.pending[key]
    }

    constructor ()
      ensures Represents(INITIAL)
    {
      pending, timers := map[], map[];
    }

    /** A submitter's locked section: file the ticket, and start a timer unless the key has one. */
    method Submit(key: Key, payload: Payload, runner: Runner, ghost s: State) returns (ticket: Ticket, started: bool)
      requires Represents(s)
      modifies this
      ensures Represents(Next(s, BatcherProtocol.Step.Submit(key, payload, runner)))
      ensures fresh(ticket) && ticket.payload == payload && !ticket.completed && started == (key !in s.timers)
      ensures key in pending && ticket in pending[key]
    {
      ticket := new Ticket(|s.submitted|, payload);
      var before := if key in pending then pending[key] else [];
      FiledIds(before, ticket);
      pending := pending[key := before + [ticket]];
      started := key !in timers;
      if started {
        timers := timers[key := runner];
      }
    }

    /** A flush's locked section: take the key's tickets and its timer. */
    method Take(key: Key, ghost s: State) returns (tickets: seq<Ticket>)
      requires Inv(s) && Represents(s) && Enabled(s, BatcherProtocol.Take(key))
      modifies this
      ensures Represents(Next(s, BatcherProtocol.Take(key)))
      ensures tickets != [] && Ids(tickets) == Pending(s, key)
      ensures var flights := Next(s, BatcherProtocol.Take(key)).flights;
              |flights| == |s.flights| + 1 && flights[|s.flights|].slots == Ids(tickets)
    {
      TakeKeeps(s, key);
      tickets := if key in pending then pending[key] else [];
      pending := pending - {key};
      timers := timers - {key};
    }
  }

  lemma FiledIds(before: seq<Ticket>, ticket: Ticket)
    ensures Ids(before + [ticket]) == Ids(before) + [ticket.id]
  {}

  predicate Different(tickets: seq<Ticket>) {
    forall i, j :: 0 <= i < j < |tickets| ==> tickets[i] != tickets[j]
  }

  /** The tickets are those of flight f, whose runner has just come back with the outcome. */
  ghost predicate Carries(s: State, f: nat, tickets: seq<Ticket>, outcome: Outcome) {
    f < |s.flights| && s.flights[f].slots == Ids(tickets) && s.flights[f].phase == Delivering(outcome, 0)
  }

  lemma CarriedDiffer(s: State, f: nat, tickets: seq<Ticket>, outcome: Outcome)
    requires Inv(s) && Carries(s, f, tickets, outcome)
    ensures Different(tickets)
  {
    assert Batch(s.submitted, s.flights[f].key, s.flights[f].slots);
    forall i, j | 0 <= i < j < |tickets|
      ensures tickets[i] != tickets[j]
    {
      assert Ids(tickets)[i] < Ids(tickets)[j];
    }
  }

  /** What every ticket of a batch holds once the protocol can complete no more of its slots. */
  lemma CarriedAnswers(s: State, f: nat, tickets: seq<Ticket>, outcome: Outcome)
    requires Inv(s) && Carries(s, f, tickets, outcome)
    ensures var n := Answered(Ids(tickets), outcome);
            var t := Completions(s, f, n);
            && Inv(t) && !Enabled(t, Complete(f))
            && forall i :: 0 <= i < |tickets| ==>
                 (tickets[i].id in t.done <==> i < n) && (i < n ==> t.done[tickets[i].id] == AnswerAt(outcome, i))
  {
    hide Inv;
    var n := Answered(Ids(tickets), outcome);
    CompletionsKeep(s, f, n);
    forall i | 0 <= i < |tickets| { AnsweredSoFar(Completions(s, f, n), f, i); }
  }

  /** Hands the outcome to the tickets in order, as far as it goes; mismatched tells that the lengths differed. */
  method Deliver(tickets: seq<Ticket>, outcome: Outcome, ghost s: State, ghost f: nat) returns (mismatched: bool)
    requires Inv(s) && Carries(s, f, tickets, outcome)
    requires forall i :: 0 <= i < |tickets| ==> !tickets[i].completed
    requires forall i :: 0 <= i < |tickets| ==> tickets[i].result == None && tickets[i].error == None
    modifies set t | t in tickets
    ensures var t := Completions(s, f, Answered(Ids(tickets), outcome));
            && Inv(t) && !Enabled(t, Complete(f))
            && forall i :: 0 <= i < |tickets| ==>
                 (tickets[i].completed <==> tickets[i].id in t.done) &&
                 (tickets[i].completed ==> tickets[i].Holds(t.done[tickets[i].id]))
    ensures forall i :: 0 <= i < Answered(Ids(tickets), outcome) ==> tickets[i].Holds(AnswerAt(outcome, i))
    ensures forall i :: Answered(Ids(tickets), outcome) <= i < |tickets| ==> !tickets[i].completed
    ensures (forall i :: 0 <= i < |tickets| ==> tickets[i].completed) <==>
              outcome.Raised? || |outcome.results| >= |tickets|
    ensures mismatched <==> outcome.Returned? && |outcome.results| != |tickets|
  {
    hide Inv, Completions;
    CarriedDiffer(s, f, tickets, outcome);
    CarriedAnswers(s, f, tickets, outcome);
    match outcome
    case Raised(error) =>
      for i := 0 to |tickets|
        invariant forall j :: 0 <= j < i ==> tickets[j].Holds(Error(error))
        invariant forall j :: i <= j < |tickets| ==> tickets[j].result == None
      {
        tickets[i].error := Some(error);
        tickets[i].completed := true;
      }
      assert forall j :: 0 <= j < |tickets| ==> tickets[j].completed;
      mismatched := false;
    case Returned(results) =>
      var i := 0;
      while i < |tickets| && i < |results|
        invariant i <= |tickets| && i <= |results|
        invariant forall j :: 0 <= j < i ==> tickets[j].Holds(Result(results[j]))
        invariant forall j :: i <= j < |tickets| ==> !tickets[j].completed && tickets[j].error == None
      {
        tickets[i].result := Some(results[i]);
        tickets[i].completed := true;
        i := i + 1;
      }
      mismatched := |results| != |tickets|;
      if i < |tickets| {
        assert !tickets[i].completed;
      } else {
        assert forall j :: 0 <= j < |tickets| ==> tickets[j].Holds(Result(results[j]));
      }
  }
}
