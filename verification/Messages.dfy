/** Messages and their content blocks, as far as the repair passes, the stream
    coalescers and the agent loop look at them (conversation/message.rs). */
module Messages {
  import opened Common

  datatype Role = User | Assistant

  datatype Annotations = Annotations(audience: Option<seq<Role>>, other: nat)

  /** One content item of a tool result. */
  datatype ResultItem = ResultText(text: string) | ResultResource(text: string) | ResultImage | ResultOther

  datatype ToolResult = Ok(items: seq<ResultItem>) | Failed(error: string)

  datatype ToolCall = Call(name: string, arguments: nat) | BadCall(error: string)

  datatype Block =
    | Text(text: string, annotations: Annotations)
    | Image(data: nat)
    | Document(data: nat)
    | ToolRequest(id: string, call: ToolCall, external: bool)
    | ToolResponse(id: string, result: ToolResult)
    | ToolConfirmationRequest(id: string)
    | ActionRequired(data: nat)
    | Thinking(thinking: string, signature: string)
    | RedactedThinking(data: nat)
    | SystemNotification(data: nat)
    | ErrorBlock(kind: nat)

  datatype Metadata = Metadata(
    userVisible: bool,
    agentVisible: bool,
    turnContext: bool,
    inference: Option<nat>,
    outputTokenLimitReached: bool,
    other: nat)

  datatype Message = Message(id: Option<string>, role: Role, content: seq<Block>, meta: Metadata)

  const DEFAULT_METADATA := Metadata(true, true, false, None, false, 0)

  datatype EffectiveRole = UserRole | AssistantRole | ToolRole

  predicate HasToolResponse(bs: seq<Block>) { exists i :: 0 <= i < |bs| && bs[i].ToolResponse? }

  /** A user message that carries a tool response plays the role of the tool. */
  function EffectiveRoleOf(m: Message): EffectiveRole {
    if m.role == Assistant then AssistantRole
    else if HasToolResponse(m.content) then ToolRole
    else UserRole
  }

  predicate IsEmptyText(b: Block) { b.Text? && b.text == "" }

  predicate AllEmptyText(bs: seq<Block>) { forall i :: 0 <= i < |bs| ==> IsEmptyText(bs[i]) }

  /** A block together with the role of the message that carries it. */
  datatype Item = Item(role: Role, block: Block)

  function ItemsOf(role: Role, bs: seq<Block>): (r: seq<Item>)
    ensures |r| == |bs| && forall i :: 0 <= i < |r| ==> r[i] == Item(role, bs[i])
  {
    seq(|bs|, i requires 0 <= i < |bs| => Item(role, bs[i]))
  }

  lemma ItemsOfConcat(role: Role, a: seq<Block>, b: seq<Block>)
    ensures ItemsOf(role, a + b) == ItemsOf(role, a) + ItemsOf(role, b)
  {}

  /** The whole conversation as one list of items. */
  function Items(ms: seq<Message>): seq<Item> {
    if ms == [] then [] else Items(ms[..|ms| - 1]) + ItemsOf(ms[|ms| - 1].role, ms[|ms| - 1].content)
  }

  lemma ItemsSnoc(ms: seq<Message>, m: Message)
    ensures Items(ms + [m]) == Items(ms) + ItemsOf(m.role, m.content)
  {
    assert (ms + [m])[..|ms|] == ms;
  }
}
