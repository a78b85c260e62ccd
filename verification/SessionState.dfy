/** The voice-activity and response phases of one realtime session, with the transitions the
    replay harness drives and the invariant check each of them runs. */
module SessionPhases {
  import opened Wrappers

  datatype Vad =
    | Silent
    | Speaking(item: string, startMs: int)
    | Stopped(item: string, startMs: int, endMs: int)

  datatype Resp =
    | NoResponse
    | Created(id: string, item: string, epoch: int)
    | Streaming(id: string, item: string, epoch: int)
    | Drain(id: string, item: string, epoch: int, plannedMs: int)
  {
    predicate Active() { !NoResponse? }
  }

  datatype Role = User | Assistant | System
  datatype ItemStatus = InProgress | ItemCompleted | ItemIncomplete
  datatype ConversationItem = ConversationItem(id: string, role: Role, status: ItemStatus)

  datatype Violation =
    | IllegalTransition
    | SpeakingWithActiveResponse
    | StoppedWithoutEnd
    | RuntimeMismatch
    | EmptyResponseId
    | ConvHasVoiced(item: string)

  /** The part of the session state a replay touches; runtime says whether a response runtime is attached. */
  datatype Phases = Phases(vad: Vad, resp: Resp, runtime: bool, lastEpoch: int, conversation: seq<ConversationItem>)

  predicate EndsBeforeStart(vad: Vad) {
    vad.Stopped? && vad.endMs < vad.startMs
  }

  function CheckState(p: Phases): Option<Violation> {
    if p.vad.Speaking? && p.resp.Active() then Some(SpeakingWithActiveResponse)
    else if EndsBeforeStart(p.vad) then Some(StoppedWithoutEnd)
    else if p.resp.NoResponse? && p.runtime then Some(RuntimeMismatch)
    else if p.resp.Active() && !p.runtime then Some(RuntimeMismatch)
    else if p.resp.Active() && p.resp.id == "" then Some(EmptyResponseId)
    else if p.vad.Speaking? &&
            exists i :: 0 <= i < |p.conversation| && p.conversation[i] == ConversationItem(p.vad.item, User, InProgress)
      then Some(ConvHasVoiced(p.vad.item))
    else None
  }

  /** A transition: the state it leaves, and the violation it raises, if any. */
  type Transition = (Phases, Option<Violation>)

  function CreateFromNone(p: Phases, id: string, item: string): Transition {
    if p.resp.Active() then (p, Some(IllegalTransition))
    else if p.vad.Speaking? then (p, Some(SpeakingWithActiveResponse))
    else
      var q := p.(lastEpoch := p.lastEpoch + 1, resp := Created(id, item, p.lastEpoch + 1), runtime := true);
      (q, CheckState(q))
  }

  function AdvanceToStreaming(p: Phases): Transition {
    if !p.resp.Created? then (p, Some(IllegalTransition))
    else
      var q := p.(resp := Streaming(p.resp.id, p.resp.item, p.resp.epoch));
      (q, CheckState(q))
  }

  function DrainFromStreaming(p: Phases, plannedMs: int): Transition {
    if !p.resp.Streaming? then (p, Some(IllegalTransition))
    else
      var q := p.(resp := Drain(p.resp.id, p.resp.item, p.resp.epoch, plannedMs));
      (q, CheckState(q))
  }

  function RetireToNone(p: Phases): Transition {
    var q := p.(resp := NoResponse, runtime := false);
    (q, CheckState(q))
  }

  class SessionState {
    var vad: Vad
    var resp: Resp
    var currentResponse: bool
    var lastEpoch: int
    var conversation: seq<ConversationItem>

    constructor ()
      ensures View() == Phases(Silent, NoResponse, false, 0, [])
    {
      vad, resp, currentResponse, lastEpoch, conversation := Silent, NoResponse, false, 0, [];
    }

    function View(): Phases
      reads this
    {
      Phases(vad, resp, currentResponse, lastEpoch, conversation)
    }

    method Check() returns (raised: Option<Violation>)
      ensures raised == CheckState(View())
    {
      if vad.Speaking? && resp.Active() { return Some(SpeakingWithActiveResponse); }
      if vad.Stopped? && vad.endMs < vad.startMs { return Some(StoppedWithoutEnd); }
      if resp.NoResponse? && currentResponse { return Some(RuntimeMismatch); }
      if resp.Active() {
        if !currentResponse { return Some(RuntimeMismatch); }
        if resp.id == "" { return Some(EmptyResponseId); }
      }
      if vad.Speaking? {
        for k := 0 to |conversation|
          invariant forall i :: 0 <= i < k ==> conversation[i] != ConversationItem(vad.item, User, InProgress)
        {
          var it := conversation[k];
          if it.id == vad.item && it.role == User && it.status == InProgress {
            assert conversation[k] == ConversationItem(vad.item, User, InProgress);
            return Some(ConvHasVoiced(vad.item));
          }
        }
      }
      return None;
    }

    method RespCreateFromNone(id: string, item: string) returns (raised: Option<Violation>)
      modifies this
      ensures (View(), raised) == CreateFromNone(old(View()), id, item)
    {
      if !resp.NoResponse? { return Some(IllegalTransition); }
      if vad.Speaking? { return Some(SpeakingWithActiveResponse); }
      lastEpoch := lastEpoch + 1;
      resp := Created(id, item, lastEpoch);
      currentResponse := true;
      raised := Check();
    }

    method RespAdvanceToStreaming() returns (raised: Option<Violation>)
      modifies this
      ensures (View(), raised) == AdvanceToStreaming(old(View()))
    {
      if !resp.Created? { return Some(IllegalTransition); }
      resp := Streaming(resp.id, resp.item, resp.epoch);
      raised := Check();
    }

    method RespDrain(plannedMs: int) returns (raised: Option<Violation>)
      modifies this
      ensures (View(), raised) == DrainFromStreaming(old(View()), plannedMs)
    {
      if !resp.Streaming? { return Some(IllegalTransition); }
      resp := Drain(resp.id, resp.item, resp.epoch, plannedMs);
      raised := Check();
    }

    method RespRetireToNone() returns (raised: Option<Violation>)
      modifies this
      ensures (View(), raised) == RetireToNone(old(View()))
    {
      resp := NoResponse;
      currentResponse := false;
      raised := Check();
    }
  }
}
