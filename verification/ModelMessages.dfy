/** The messages a model is sent. */
module ModelMessages {

  /** An image part is an object of its own: `key` tells two images with the same bytes apart. */
  datatype Part = TextPart(text: string) | ImagePart(key: nat, byteLength: nat, source: Source)

  datatype Source = NoSource | ToolResultImage(name: string) | UserAttachment(name: string)

  datatype Content = Plain(text: string) | Parts(parts: seq<Part>)

  datatype Role = User | System | Assistant | Tool

  /** `calls` are the ids of an assistant's tool calls, `callId` is the call a tool message answers. */
  datatype ModelMessage = ModelMessage(role: Role, content: Content, calls: seq<string>, callId: string)

  predicate HasText(content: Content)
  {
    match content
    case Plain(text) => |text| > 0
    case Parts(parts) => exists i :: 0 <= i < |parts| && parts[i].TextPart? && |parts[i].text| > 0
  }

  function IdSet(ids: seq<string>): set<string> { set id | id in ids }
}
