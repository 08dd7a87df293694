/** The records the session manager works with: stream events, assistant messages, sessions. */
module Types {
  import opened Wrappers

  /** One element of an assistant message's content; only text content is rendered. */
  datatype Content = Text(text: string) | NonText(kind: string)

  datatype Usage = Usage(inputTokens: nat, outputTokens: nat)

  datatype AssistantMessage = AssistantMessage(
    id: string,
    model: string,
    content: seq<Content>,
    stopReason: Option<string>,
    stopSequence: Option<string>,
    usage: Usage)

  datatype Kind = System | Assistant | Result

  /** One event of the generation service's stream. */
  datatype StreamMessage = StreamMessage(kind: Kind, message: Option<AssistantMessage>, usage: Option<Usage>)

  datatype Session = Session(
    id: string,
    model: string,
    bufnr: int,
    messages: seq<AssistantMessage>,
    active: bool,
    lastActivity: int)
}
