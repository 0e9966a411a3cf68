/** The message a chat parser fills in (chat.h). */
module ChatMessage {
  datatype ToolCall = ToolCall(name: string, arguments: string, id: string)

  datatype ContentPart = ContentPart(kind: string, text: string)

  datatype Message = Message(
    role: string,
    content: string,
    contentParts: seq<ContentPart>,
    toolCalls: seq<ToolCall>,
    reasoning: string,
    toolName: string,
    toolCallId: string)
}
