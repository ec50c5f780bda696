/** The turn loop of an agent run: what the conversation looks like, whatever the model and
    the tools do. */
module AgentLoop {
  import opened Sequences
  import opened StreamTypes
  import opened Text
  import opened Wrappers

  datatype InputBlock =
    | TextBlock(text: string)
    | ToolUseBlock(id: string, name: string, input: Json)
    | ToolResultBlock(toolUseId: string, text: string, isError: bool)

  datatype Role = User | Assistant

  datatype InputMessage = InputMessage(role: Role, content: seq<InputBlock>)

  datatype ToolCall = ToolCall(id: string, name: string, input: Json)

  function CollectToolUses(content: seq<OutputBlock>): seq<ToolCall> {
    if content == [] then []
    else
      (match content[0]
       case ToolUse(id, name, input) => [ToolCall(id, name, input)]
       case _ => [])
      + CollectToolUses(content[1..])
  }

  function OutputToInputBlocks(content: seq<OutputBlock>): seq<InputBlock> {
    if content == [] then []
    else
      (match content[0]
       case Text(text) => [TextBlock(text)]
       case ToolUse(id, name, input) => [ToolUseBlock(id, name, input)]
       case _ => [])
      + OutputToInputBlocks(content[1..])
  }

  /** The model's answer to a request, if it gives one, and the text each tool call yields
      in a turn. Both may be anything at all. */
  datatype World = World(
    respond: (nat, seq<InputMessage>) -> Option<MessageResponse>,
    runTool: (nat, nat, ToolCall) -> string)

  function ResultOf(call: ToolCall, text: string): InputBlock {
    ToolResultBlock(call.id, text, StartsWith(text, "error:"))
  }

  function ToolResults(w: World, turn: nat, calls: seq<ToolCall>): (r: seq<InputBlock>)
    ensures |r| == |calls|
  {
    seq(|calls|, i requires 0 <= i < |calls| => ResultOf(calls[i], w.runTool(turn, i, calls[i])))
  }

  function AssistantMessage(r: MessageResponse): InputMessage {
    InputMessage(Assistant, OutputToInputBlocks(r.content))
  }

  /** The run goes on only for a response that stopped for its tools. */
  predicate GoesOn(r: MessageResponse) {
    CollectToolUses(r.content) != [] && r.stopReason == Some("tool_use")
  }

  /** The requests that a run sends, and the conversation it ends with. */
  datatype Transcript = Transcript(requests: seq<seq<InputMessage>>, messages: seq<InputMessage>, failed: bool)

  function Converse(w: World, messages: seq<InputMessage>, turn: nat, maxTurns: nat): Transcript
    decreases maxTurns - turn
  {
    if turn >= maxTurns then Transcript([], messages, false)
    else
      match w.respond(turn, messages)
      case None => Transcript([messages], messages, true)
      case Some(r) =>
        var answered := messages + [AssistantMessage(r)];
        if !GoesOn(r) then Transcript([messages], answered, false)
        else
          var results := InputMessage(User, ToolResults(w, turn, CollectToolUses(r.content)));
          var t := Converse(w, answered + [results], turn + 1, maxTurns);
          Transcript([messages] + t.requests, t.messages, t.failed)
  }

  function Opening(prompt: string): seq<InputMessage> {
    [InputMessage(User, [TextBlock(prompt)])]
  }

  method Run(w: World, prompt: string, maxTurns: nat) returns (messages: seq<InputMessage>, requests: seq<seq<InputMessage>>, failed: bool)
    ensures Transcript(requests, messages, failed) == Converse(w, Opening(prompt), 0, maxTurns)
  {
    messages, requests, failed := Opening(prompt), [], false;
    for turn := 0 to maxTurns
      invariant Joined(requests, Converse(w, messages, turn, maxTurns)) == Converse(w, Opening(prompt), 0, maxTurns)
      invariant !failed
    {
      var response := w.respond(turn, messages);
      TurnJoined(w, requests, messages, turn, maxTurns);
      requests := requests + [messages];
      if response.None? {
        return messages, requests, true;
      }
      messages := messages + [AssistantMessage(response.value)];
      var toolUses := CollectToolUses(response.value.content);
      if toolUses == [] || response.value.stopReason != Some("tool_use") {
        return messages, requests, false;
      }
      var results := ToolLoop(w, turn, toolUses);
      messages := messages + [InputMessage(User, results)];
    }
    assert requests + [] == requests;
  }

  method ToolLoop(w: World, turn: nat, calls: seq<ToolCall>) returns (results: seq<InputBlock>)
    ensures results == ToolResults(w, turn, calls)
  {
    results := [];
    for i := 0 to |calls|
      invariant results == ToolResults(w, turn, calls)[..i]
    {
      var text := w.runTool(turn, i, calls[i]);
      var isError := StartsWith(text, "error:");
      results := results + [ToolResultBlock(calls[i].id, text, isError)];
    }
  }

  function Joined(requests: seq<seq<InputMessage>>, t: Transcript): Transcript {
    Transcript(requests + t.requests, t.messages, t.failed)
  }

  /** One turn taken off the conversation ahead. */
  lemma TurnJoined(w: World, requests: seq<seq<InputMessage>>, messages: seq<InputMessage>, turn: nat, maxTurns: nat)
    requires turn < maxTurns
    ensures var response := w.respond(turn, messages);
            var asked := requests + [messages];
            Joined(requests, Converse(w, messages, turn, maxTurns)) ==
            if response.None? then Transcript(asked, messages, true)
            else
              var answered := messages + [AssistantMessage(response.value)];
              if !GoesOn(response.value) then Transcript(asked, answered, false)
              else
                var results := InputMessage(User, ToolResults(w, turn, CollectToolUses(response.value.content)));
                Joined(asked, Converse(w, answered + [results], turn + 1, maxTurns))
  {
    var t := Converse(w, messages, turn, maxTurns);
    var later := if t.requests == [] then [] else t.requests[1..];
    assert t.requests == [messages] + later;
    ConcatAssociative(requests, [messages], later);
    assert (requests + [messages]) + [] == requests + [messages];
  }

  // ----- The shape of a conversation -----

  function ToolUseIds(content: seq<InputBlock>): seq<string> {
    if content == [] then []
    else (if content[0].ToolUseBlock? then [content[0].id] else []) + ToolUseIds(content[1..])
  }

  /** A message that answers tool calls: one result for each, in their order, by id. */
  predicate AnswersCalls(answer: InputMessage, ids: seq<string>) {
    && answer.role == User
    && |answer.content| == |ids|
    && forall i | 0 <= i < |ids| :: answer.content[i].ToolResultBlock? && answer.content[i].toolUseId == ids[i]
  }

  /** The message at `i` is the model's, or answers the calls of the one before. */
  predicate ShapeAt(messages: seq<InputMessage>, i: nat)
    requires 0 < i < |messages|
  {
    if i % 2 == 1 then messages[i].role == Assistant
    else AnswersCalls(messages[i], ToolUseIds(messages[i - 1].content)) && ToolUseIds(messages[i - 1].content) != []
  }

  /** Roles alternate from the user's prompt on, and every assistant message that is
      followed by another has made tool calls, which that message answers. */
  predicate WellShaped(messages: seq<InputMessage>) {
    && messages != [] && messages[0].role == User
    && forall i | 0 < i < |messages| :: ShapeAt(messages, i)
  }

  /** A conversation whose last message is the user's. */
  predicate AwaitsModel(messages: seq<InputMessage>) {
    WellShaped(messages) && |messages| % 2 == 1
  }

  function IdsOf(calls: seq<ToolCall>): (ids: seq<string>)
    ensures |ids| == |calls| && forall i | 0 <= i < |calls| :: ids[i] == calls[i].id
  {
    if calls == [] then [] else [calls[0].id] + IdsOf(calls[1..])
  }

  /** What is copied into the conversation are exactly the calls that are carried out. */
  lemma {:induction false} CallsAreCopied(content: seq<OutputBlock>)
    ensures ToolUseIds(OutputToInputBlocks(content)) == IdsOf(CollectToolUses(content))
  {
    if content != [] {
      CallsAreCopied(content[1..]);
      var rest, calls := OutputToInputBlocks(content[1..]), CollectToolUses(content[1..]);
      match content[0]
      case Text(text) =>
        HeadTail(TextBlock(text), rest, []);
        assert [] + calls == calls;
        assert ToolUseIds([TextBlock(text)] + rest) == [] + ToolUseIds(rest);
        assert [] + ToolUseIds(rest) == ToolUseIds(rest);
      case ToolUse(id, name, input) =>
        HeadTail(ToolUseBlock(id, name, input), rest, []);
        HeadTail(ToolCall(id, name, input), calls, []);
      case _ =>
        assert [] + rest == rest && [] + calls == calls;
    }
  }

  lemma ResultsAnswer(w: World, turn: nat, calls: seq<ToolCall>)
    ensures AnswersCalls(InputMessage(User, ToolResults(w, turn, calls)), IdsOf(calls))
  {
    var results := ToolResults(w, turn, calls);
    forall i | 0 <= i < |calls| ensures results[i].ToolResultBlock? && results[i].toolUseId == IdsOf(calls)[i] {
      assert results[i] == ResultOf(calls[i], w.runTool(turn, i, calls[i]));
    }
  }

  lemma TurnKeepsShape(w: World, messages: seq<InputMessage>, turn: nat, r: MessageResponse)
    requires AwaitsModel(messages) && GoesOn(r)
    ensures AwaitsModel(messages + [AssistantMessage(r)] + [InputMessage(User, ToolResults(w, turn, CollectToolUses(r.content)))])
  {
    CallsAreCopied(r.content);
    var assistant := AssistantMessage(r);
    var calls := CollectToolUses(r.content);
    var answer := InputMessage(User, ToolResults(w, turn, calls));
    ResultsAnswer(w, turn, calls);
    ExtendShape(messages, assistant, answer);
  }

  lemma ExtendShape(messages: seq<InputMessage>, assistant: InputMessage, answer: InputMessage)
    requires AwaitsModel(messages) && assistant.role == Assistant
    requires AnswersCalls(answer, ToolUseIds(assistant.content)) && ToolUseIds(assistant.content) != []
    ensures AwaitsModel(messages + [assistant] + [answer])
  {
    var longer := messages + [assistant] + [answer];
    var n := |messages|;
    assert longer[n] == assistant && longer[n + 1] == answer;
    forall i | 0 < i < |longer| ensures ShapeAt(longer, i) {
      if i < n {
        assert ShapeAt(messages, i);
        assert longer[i] == messages[i] && longer[i - 1] == messages[i - 1];
      }
    }
  }

  lemma {:induction false} RequestsAlternate(w: World, messages: seq<InputMessage>, turn: nat, maxTurns: nat)
    requires AwaitsModel(messages) && turn <= maxTurns
    ensures var t := Converse(w, messages, turn, maxTurns);
            && |t.requests| <= maxTurns - turn
            && (forall q | q in t.requests :: AwaitsModel(q) && messages <= q)
            && (forall i | 0 <= i < |t.requests| :: |t.requests[i]| == |messages| + 2 * i)
            && messages <= t.messages && WellShaped(t.messages)
            && (t.failed ==> t.requests != [] && t.messages == t.requests[|t.requests| - 1])
    decreases maxTurns - turn
  {
    if turn < maxTurns && w.respond(turn, messages).Some? {
      var r := w.respond(turn, messages).value;
      var answered := messages + [AssistantMessage(r)];
      AnsweredShape(messages, r);
      if GoesOn(r) {
        var next := answered + [InputMessage(User, ToolResults(w, turn, CollectToolUses(r.content)))];
        TurnKeepsShape(w, messages, turn, r);
        RequestsAlternate(w, next, turn + 1, maxTurns);
        var t := Converse(w, next, turn + 1, maxTurns);
        assert messages <= next;
        forall q | q in [messages] + t.requests ensures AwaitsModel(q) && messages <= q {
          if q != messages {
            assert q in t.requests;
            PrefixTrans(messages, next, q);
          }
        }
        PrefixTrans(messages, next, t.messages);
      }
    }
  }

  /** Each request is the start of the next one, and the last is the start of the conversation
      that is kept: all of it if the model failed, else all but the model's last answer, or,
      where the turns are used up, all but the last answered turn. */
  predicate Extending(t: Transcript, turns: nat) {
    && (forall i | 0 <= i < |t.requests| - 1 :: t.requests[i] <= t.requests[i + 1])
    && (t.requests != [] ==>
          var last := t.requests[|t.requests| - 1];
          && last <= t.messages
          && (t.failed ==> t.messages == last)
          && (!t.failed ==> |t.messages| == |last| + 1 || (|t.messages| == |last| + 2 && |t.requests| == turns)))
  }

  /** The transcript of a run on this conversation with so many turns left. */
  predicate Follows(messages: seq<InputMessage>, t: Transcript, turns: nat) {
    && Extending(t, turns)
    && if t.requests == [] then turns == 0 && t == Transcript([], messages, false) else t.requests[0] == messages
  }

  lemma {:induction false} RequestsExtend(w: World, messages: seq<InputMessage>, turn: nat, maxTurns: nat)
    requires turn <= maxTurns
    ensures Follows(messages, Converse(w, messages, turn, maxTurns), maxTurns - turn)
    decreases maxTurns - turn
  {
    if turn < maxTurns && w.respond(turn, messages).Some? {
      var r := w.respond(turn, messages).value;
      if GoesOn(r) {
        var next := messages + [AssistantMessage(r)] + [InputMessage(User, ToolResults(w, turn, CollectToolUses(r.content)))];
        var t := Converse(w, next, turn + 1, maxTurns);
        RequestsExtend(w, next, turn + 1, maxTurns);
        OneMoreRequest(messages, next, t, maxTurns - turn);
        assert Converse(w, messages, turn, maxTurns) == Joined([messages], t);
      }
    }
  }

  lemma OneMoreRequest(messages: seq<InputMessage>, next: seq<InputMessage>, t: Transcript, turns: nat)
    requires turns > 0 && messages <= next && |next| == |messages| + 2 && Follows(next, t, turns - 1)
    ensures Follows(messages, Joined([messages], t), turns)
  {
    var all := [messages] + t.requests;
    forall i | 0 <= i < |all| - 1 ensures all[i] <= all[i + 1] {
      if i > 0 {
        assert all[i] == t.requests[i - 1] && all[i + 1] == t.requests[i];
      }
    }
    if t.requests != [] {
      assert all[|all| - 1] == t.requests[|t.requests| - 1];
    }
  }

  /** In a fresh run, for every model and all tools: each request alternates roles, with all
      tool calls answered one to one and in order; each extends the one before by two
      messages; there are at most `maxTurns` of them; and the conversation that is kept is
      the last request, or adds one assistant message or, when the turns are used up, one
      answered turn to it. */
  lemma RequestsWellShaped(w: World, messages: seq<InputMessage>, turn: nat, maxTurns: nat)
    requires AwaitsModel(messages) && turn <= maxTurns
    ensures var t := Converse(w, messages, turn, maxTurns);
            && |t.requests| <= maxTurns - turn
            && (forall q | q in t.requests :: AwaitsModel(q) && messages <= q)
            && (forall i | 0 <= i < |t.requests| :: |t.requests[i]| == |messages| + 2 * i)
            && messages <= t.messages && WellShaped(t.messages)
            && Extending(t, maxTurns - turn)
  {
    RequestsAlternate(w, messages, turn, maxTurns);
    RequestsExtend(w, messages, turn, maxTurns);
  }

  lemma AnsweredShape(messages: seq<InputMessage>, r: MessageResponse)
    requires AwaitsModel(messages)
    ensures WellShaped(messages + [AssistantMessage(r)])
  {
    var longer := messages + [AssistantMessage(r)];
    assert longer[|messages|] == AssistantMessage(r);
    forall i | 0 < i < |longer| ensures ShapeAt(longer, i) {
      if i < |messages| {
        assert ShapeAt(messages, i);
        assert longer[i] == messages[i] && longer[i - 1] == messages[i - 1];
      }
    }
  }

  /** The prompt alone is a conversation that awaits the model. */
  lemma FreshRun(w: World, prompt: string, maxTurns: nat)
    ensures var t := Converse(w, Opening(prompt), 0, maxTurns);
            && |t.requests| <= maxTurns
            && (forall q | q in t.requests :: AwaitsModel(q) && Opening(prompt) <= q)
            && WellShaped(t.messages) && Extending(t, maxTurns)
  {
    RequestsWellShaped(w, Opening(prompt), 0, maxTurns);
  }
}
