/** The message types that travel over the stream, and the JSON text they travel as. */
module StreamTypes {
  import opened Wrappers

  type u32 = n: int | 0 <= n < 0x1_0000_0000

  /** A JSON value. Object fields are unordered, as in the map that holds them. */
  datatype Json =
    | JsonNull
    | JsonBool(b: bool)
    | JsonNumber(text: string)
    | JsonString(s: string)
    | JsonArray(items: seq<Json>)
    | JsonObject(fields: map<string, Json>)

  const EMPTY_OBJECT := JsonObject(map[])

  datatype Usage = Usage(input: u32, cacheCreation: u32, cacheRead: u32, output: u32)

  datatype OutputBlock =
    | Text(text: string)
    | ToolUse(id: string, name: string, input: Json)
    | Thinking(thinking: string, signature: Option<string>)
    | RedactedThinking(data: Json)

  datatype MessageResponse = MessageResponse(
    id: string,
    content: seq<OutputBlock>,
    model: string,
    stopReason: Option<string>,
    usage: Usage)

  datatype Delta =
    | TextDelta(text: string)
    | InputJsonDelta(partialJson: string)
    | ThinkingDelta(thinking: string)
    | SignatureDelta(signature: string)

  datatype StreamEvent =
    | MessageStart(message: MessageResponse)
    | MessageDelta(stopReason: Option<string>, usage: Usage)
    | ContentBlockStart(index: u32, block: OutputBlock)
    | ContentBlockDelta(index: u32, delta: Delta)
    | ContentBlockStop(index: u32)
    | MessageStop

  /** The JSON library: text of values and events, and reading them back. */
  datatype JsonCodec = JsonCodec(
    printValue: Json -> string,
    parseValue: string -> Option<Json>,
    printEvent: StreamEvent -> string,
    parseEvent: string -> Option<StreamEvent>)
  {
    /** What the library promises of a compactly printed event: one line, one object, and
        reading it gives the event again. */
    ghost predicate Lawful() {
      forall e :: CompactObject(printEvent(e)) && parseEvent(printEvent(e)) == Some(e)
    }
  }

  predicate CompactObject(s: string) {
    && |s| >= 2
    && s[0] == '{' && s[|s| - 1] == '}'
    && '\n' !in s && '\r' !in s
  }
}
