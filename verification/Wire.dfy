/** The wire events of a realtime session, as the trace rules and the replay harness see them. */
module Wire {
  import opened Wrappers

  /** One constructor for every event type a modelled rule tells apart.  OtherResponse stands for
      the remaining types that begin with "response."; Other for every remaining type. */
  datatype EventType =
    | SessionCreated | SessionUpdated | ErrorEvent
    | SpeechStarted | SpeechStopped | Committed
    | ItemAdded | TranscriptionCompleted | AssistantTruncated | ClientTruncate
    | ResponseCreated | ResponseDone | ToolProgress
    | OutputItemAdded | OutputItemDone | ContentPartAdded | ContentPartDone
    | TranscriptDelta | TranscriptDone | AudioDelta | AudioDone
    | OtherResponse(name: string)
    | Other(name: string)
  {
    /** The types the late-event rule W6 watches. */
    predicate InBracket() {
      ResponseCreated? || OutputItemAdded? || OutputItemDone? || ContentPartAdded? || ContentPartDone? ||
      TranscriptDelta? || TranscriptDone? || AudioDelta? || AudioDone?
    }

    /** The types that must fall inside an open response: "response.*" other than created, done
        and tool_progress. */
    predicate InWindow() {
      OtherResponse? || (InBracket() && !ResponseCreated?)
    }
  }

  datatype Status = Completed | Cancelled | Failed | Incomplete | OtherStatus(name: string)

  /** The "response" object of an event.  A field that is missing and a field of the wrong type
      read the same to every rule, so both are None. */
  datatype ResponseBody = ResponseBody(
    id: Option<string>,
    responseId: Option<string>,
    itemId: Option<string>,
    status: Option<Status>,
    audioEndMs: Option<int>,
    outputItem: Option<string>)  // the id of output[0]

  datatype Event = Event(
    kind: EventType,
    id: Option<string>,
    responseId: Option<string>,
    itemId: Option<string>,
    audioEndMs: Option<int>,
    response: Option<ResponseBody>,
    sessionId: Option<string>,
    addedItem: Option<string>)  // the id of the "item" object

  /** Python's `a or b` on optional strings: the empty string counts as absent. */
  function Or(a: Option<string>, b: Option<string>): Option<string> {
    if a.Some? && a.value != "" then a else b
  }

  function GetId(ev: Event): Option<string> {
    if ev.id.Some? then ev.id
    else if ev.response.Some? && ev.response.value.id.Some? then ev.response.value.id
    else ev.sessionId
  }

  function GetResponseId(ev: Event): Option<string> {
    if ev.responseId.Some? then ev.responseId
    else if ev.response.Some? then ev.response.value.responseId
    else None
  }

  function GetItemId(ev: Event): Option<string> {
    if ev.itemId.Some? then ev.itemId
    else if ev.response.Some? then ev.response.value.itemId
    else None
  }

  /** The response an event inside a window belongs to, if it names one. */
  function Owner(ev: Event): Option<string> {
    Or(Or(GetId(ev), GetResponseId(ev)), None)
  }

  const MISSING := "<missing>"

  /** The id under which created and done events are filed. */
  function FiledId(ev: Event): string {
    Or(GetId(ev), Some(MISSING)).value
  }

  predicate CreatedFor(ev: Event, r: string) {
    ev.kind.ResponseCreated? && FiledId(ev) == r
  }

  predicate DoneFor(ev: Event, r: string) {
    ev.kind.ResponseDone? && FiledId(ev) == r
  }

  predicate WindowFor(ev: Event, r: string) {
    ev.kind.InWindow() && Owner(ev) == Some(r)
  }

  function StatusOf(ev: Event): Option<Status> {
    if ev.response.Some? then ev.response.value.status else None
  }

  function DoneAudioEnd(ev: Event): Option<int> {
    if ev.response.Some? then ev.response.value.audioEndMs else None
  }

  function OutputItem(ev: Event): Option<string> {
    if ev.response.Some? then ev.response.value.outputItem else None
  }
}
