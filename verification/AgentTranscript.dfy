/** What the messages of an agent run carry: the words and calls of the model, and the
    answers of the tools. */
module AgentTranscript {
  import opened AgentLoop
  import opened StreamTypes
  import opened Wrappers

  // ----- What is copied -----

  predicate IsThought(b: OutputBlock) {
    b.Thinking? || b.RedactedThinking?
  }

  /** The same text, or the same call, as input. */
  predicate SaysSame(o: OutputBlock, b: InputBlock) {
    || (o.Text? && b == TextBlock(o.text))
    || (o.ToolUse? && b == ToolUseBlock(o.id, o.name, o.input))
  }

  /** The blocks that are no thoughts, one for one and in order. */
  predicate Copied(content: seq<OutputBlock>, blocks: seq<InputBlock>)
    decreases |content|
  {
    if content == [] then blocks == []
    else if IsThought(content[0]) then Copied(content[1..], blocks)
    else blocks != [] && SaysSame(content[0], blocks[0]) && Copied(content[1..], blocks[1..])
  }

  lemma {:induction false} ContentIsCopied(content: seq<OutputBlock>)
    ensures Copied(content, OutputToInputBlocks(content))
  {
    if content != [] {
      var rest := OutputToInputBlocks(content[1..]);
      ContentIsCopied(content[1..]);
      match content[0]
      case Text(text) => assert ([TextBlock(text)] + rest)[1..] == rest;
      case ToolUse(id, name, input) => assert ([ToolUseBlock(id, name, input)] + rest)[1..] == rest;
      case _ => assert [] + rest == rest;
    }
  }

  /** Where there are no thoughts, content is copied block for block. */
  lemma {:induction false} CopiedBlockForBlock(content: seq<OutputBlock>, blocks: seq<InputBlock>)
    requires Copied(content, blocks) && forall b | b in content :: !IsThought(b)
    ensures |blocks| == |content| && forall i | 0 <= i < |content| :: SaysSame(content[i], blocks[i])
    decreases |content|
  {
    if content != [] {
      assert content[0] in content && forall b | b in content[1..] :: b in content;
      CopiedBlockForBlock(content[1..], blocks[1..]);
      forall i | 0 <= i < |content| ensures SaysSame(content[i], blocks[i]) {
        if i > 0 {
          assert content[i] == content[1..][i - 1] && blocks[i] == blocks[1..][i - 1];
        }
      }
    }
  }

  /** Thoughts, wherever they stand, change nothing. */
  lemma {:induction false} ThoughtsAreLeftOut(a: seq<OutputBlock>, thought: OutputBlock, b: seq<OutputBlock>)
    requires IsThought(thought)
    ensures OutputToInputBlocks(a + [thought] + b) == OutputToInputBlocks(a + b)
    ensures CollectToolUses(a + [thought] + b) == CollectToolUses(a + b)
  {
    var with, without := a + [thought] + b, a + b;
    if a == [] {
      assert with[1..] == b && without == b;
      assert [] + OutputToInputBlocks(b) == OutputToInputBlocks(b) && [] + CollectToolUses(b) == CollectToolUses(b);
    } else {
      assert with[1..] == a[1..] + [thought] + b && without[1..] == a[1..] + b;
      ThoughtsAreLeftOut(a[1..], thought, b);
    }
  }

  // ----- What the tools answer -----

  /** The text starts with the mark of a failure. */
  predicate Fails(text: string) {
    |text| >= 6 && text[..6] == "error:"
  }

  /** One result for each call, in order, with the text of its tool; `k` calls came before. */
  predicate Answered(content: seq<OutputBlock>, blocks: seq<InputBlock>, w: World, turn: nat, k: nat)
    decreases |content|
  {
    if content == [] then blocks == []
    else if !content[0].ToolUse? then Answered(content[1..], blocks, w, turn, k)
    else
      && blocks != [] && Answered(content[1..], blocks[1..], w, turn, k + 1)
      && var text := w.runTool(turn, k, ToolCall(content[0].id, content[0].name, content[0].input));
         blocks[0] == ToolResultBlock(content[0].id, text, Fails(text))
  }

  /** The results of the calls from the `k`th on. */
  function ResultsFrom(w: World, turn: nat, calls: seq<ToolCall>, k: nat): seq<InputBlock> {
    seq(|calls|, i requires 0 <= i < |calls| => ResultOf(calls[i], w.runTool(turn, k + i, calls[i])))
  }

  lemma ResultsCons(w: World, turn: nat, call: ToolCall, calls: seq<ToolCall>, k: nat)
    ensures ResultsFrom(w, turn, [call] + calls, k) == [ResultOf(call, w.runTool(turn, k, call))] + ResultsFrom(w, turn, calls, k + 1)
  {
  }

  lemma {:induction false} CallsAreAnswered(content: seq<OutputBlock>, w: World, turn: nat, k: nat)
    ensures Answered(content, ResultsFrom(w, turn, CollectToolUses(content), k), w, turn, k)
    decreases |content|
  {
    if content != [] {
      var calls := CollectToolUses(content[1..]);
      match content[0]
      case ToolUse(id, name, input) =>
        CallsAreAnswered(content[1..], w, turn, k + 1);
        ResultsCons(w, turn, ToolCall(id, name, input), calls, k);
        var rest := ResultsFrom(w, turn, calls, k + 1);
        assert ([ResultOf(ToolCall(id, name, input), w.runTool(turn, k, ToolCall(id, name, input)))] + rest)[1..] == rest;
      case _ =>
        CallsAreAnswered(content[1..], w, turn, k);
        assert [] + calls == calls;
    }
  }

  lemma ResultsAreAnswers(content: seq<OutputBlock>, w: World, turn: nat)
    ensures Answered(content, ToolResults(w, turn, CollectToolUses(content)), w, turn, 0)
  {
    CallsAreAnswered(content, w, turn, 0);
    assert ToolResults(w, turn, CollectToolUses(content)) == ResultsFrom(w, turn, CollectToolUses(content), 0);
  }

  lemma {:induction false} CallsExist(content: seq<OutputBlock>)
    ensures CollectToolUses(content) != [] <==> exists b | b in content :: b.ToolUse?
  {
    if content != [] {
      CallsExist(content[1..]);
      assert forall b :: b in content <==> b == content[0] || b in content[1..];
    }
  }

  // ----- A whole run -----

  /** The response made tool calls and stopped for them. */
  predicate StoppedForTools(r: MessageResponse) {
    (exists b | b in r.content :: b.ToolUse?) && r.stopReason == Some("tool_use")
  }

  predicate IsAnswer(m: InputMessage, r: MessageResponse) {
    m.role == Assistant && Copied(r.content, m.content)
  }

  predicate IsResults(m: InputMessage, r: MessageResponse, w: World, turn: nat) {
    m.role == User && Answered(r.content, m.content, w, turn, 0)
  }

  /** The conversation behind the `j`th request: the next request, or what is kept at the end. */
  function Next(t: Transcript, j: nat): seq<InputMessage>
    requires j < |t.requests|
  {
    if j + 1 < |t.requests| then t.requests[j + 1] else t.messages
  }

  /** What became of one request: the model failed and the run with it, or its answer was
      kept and ended the run, or its calls were answered too and the run went on, as long as
      there were turns. */
  predicate TurnTold(w: World, t: Transcript, j: nat, turn: nat, maxTurns: nat)
    requires j < |t.requests|
  {
    var request, next, response, last := t.requests[j], Next(t, j), w.respond(turn + j, t.requests[j]), j + 1 == |t.requests|;
    if response.None? then last && t.failed && next == request
    else
      var n := |request|;
      && (last ==> !t.failed)
      && request <= next && n < |next| && IsAnswer(next[n], response.value)
      && if !StoppedForTools(response.value) then last && |next| == n + 1
         else (last ==> turn + j + 1 == maxTurns) && |next| == n + 2 && IsResults(next[n + 1], response.value, w, turn + j)
  }

  ghost predicate RunTold(w: World, messages: seq<InputMessage>, turn: nat, maxTurns: nat, t: Transcript) {
    if turn >= maxTurns then t == Transcript([], messages, false)
    else
      && t.requests != [] && t.requests[0] == messages
      && forall j | 0 <= j < |t.requests| :: TurnTold(w, t, j, turn, maxTurns)
  }

  lemma TurnLater(w: World, messages: seq<InputMessage>, t: Transcript, j: nat, turn: nat, maxTurns: nat)
    requires j < |t.requests| && TurnTold(w, t, j, turn + 1, maxTurns)
    ensures TurnTold(w, Joined([messages], t), j + 1, turn, maxTurns)
  {
    var all := Joined([messages], t);
    assert all.requests[j + 1] == t.requests[j];
    if j + 1 < |t.requests| {
      assert all.requests[j + 2] == t.requests[j + 1];
    }
  }

  lemma GoesOnIs(r: MessageResponse)
    ensures GoesOn(r) <==> StoppedForTools(r)
  {
    CallsExist(r.content);
  }

  /** The first turn of a run that goes on. */
  lemma FirstTurn(w: World, messages: seq<InputMessage>, next: seq<InputMessage>, r: MessageResponse, t: Transcript, turn: nat, maxTurns: nat)
    requires turn < maxTurns && w.respond(turn, messages) == Some(r) && GoesOn(r)
    requires next == messages + [AssistantMessage(r)] + [InputMessage(User, ToolResults(w, turn, CollectToolUses(r.content)))]
    requires RunTold(w, next, turn + 1, maxTurns, t)
    ensures TurnTold(w, Joined([messages], t), 0, turn, maxTurns)
  {
    var all, n := Joined([messages], t), |messages|;
    GoesOnIs(r);
    ContentIsCopied(r.content);
    ResultsAreAnswers(r.content, w, turn);
    assert next[n] == AssistantMessage(r) && next[n + 1].content == ToolResults(w, turn, CollectToolUses(r.content));
    assert Next(all, 0) == next;
  }

  lemma LastTurn(w: World, messages: seq<InputMessage>, r: MessageResponse, turn: nat, maxTurns: nat)
    requires turn < maxTurns && w.respond(turn, messages) == Some(r) && !GoesOn(r)
    ensures RunTold(w, messages, turn, maxTurns, Transcript([messages], messages + [AssistantMessage(r)], false))
  {
    GoesOnIs(r);
    ContentIsCopied(r.content);
    assert (messages + [AssistantMessage(r)])[|messages|] == AssistantMessage(r);
  }

  /** Over a whole run, for every model and all tools: each assistant message carries exactly
      the text and the calls of its response, each answer one result for each of those calls,
      with the text its tool gave and flagged exactly if that tells of an error; and the run
      goes on exactly as long as the model stops for its tools and there are turns. */
  lemma {:induction false} RunIsTold(w: World, messages: seq<InputMessage>, turn: nat, maxTurns: nat)
    ensures RunTold(w, messages, turn, maxTurns, Converse(w, messages, turn, maxTurns))
    decreases maxTurns - turn
  {
    if turn < maxTurns {
      var response := w.respond(turn, messages);
      if response.Some? && !GoesOn(response.value) {
        LastTurn(w, messages, response.value, turn, maxTurns);
      } else if response.Some? {
        var r := response.value;
        var next := messages + [AssistantMessage(r)] + [InputMessage(User, ToolResults(w, turn, CollectToolUses(r.content)))];
        var t := Converse(w, next, turn + 1, maxTurns);
        RunIsTold(w, next, turn + 1, maxTurns);
        FirstTurn(w, messages, next, r, t, turn, maxTurns);
        LaterTurns(w, messages, next, t, turn, maxTurns);
        assert Converse(w, messages, turn, maxTurns) == Joined([messages], t);
      }
    }
  }

  lemma LaterTurns(w: World, messages: seq<InputMessage>, next: seq<InputMessage>, t: Transcript, turn: nat, maxTurns: nat)
    requires turn < maxTurns && RunTold(w, next, turn + 1, maxTurns, t) && TurnTold(w, Joined([messages], t), 0, turn, maxTurns)
    ensures RunTold(w, messages, turn, maxTurns, Joined([messages], t))
  {
    var all := Joined([messages], t);
    forall j | 0 <= j < |all.requests| ensures TurnTold(w, all, j, turn, maxTurns) {
      if j > 0 {
        TurnLater(w, messages, t, j - 1, turn, maxTurns);
      }
    }
  }

  /** A fresh run starts with the prompt and nothing else. */
  lemma FreshRunIsTold(w: World, prompt: string, maxTurns: nat)
    ensures RunTold(w, [InputMessage(User, [TextBlock(prompt)])], 0, maxTurns, Converse(w, Opening(prompt), 0, maxTurns))
  {
    RunIsTold(w, Opening(prompt), 0, maxTurns);
  }
}
