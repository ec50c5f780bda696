/** What comes of the blocks of any stream, whatever events come for them in whatever order. */
module StreamBlocks {
  import opened SortedMaps
  import opened SseStream
  import opened StreamAssembly
  import opened StreamReply
  import opened StreamTypes
  import opened Wrappers

  /** A text or tool block is started here; thinking is not kept. */
  predicate Opens(e: StreamEvent) {
    e.ContentBlockStart? && (e.block.Text? || e.block.ToolUse?)
  }

  /** The place of the start that is not stopped yet behind the events of one block. */
  function Open(es: seq<StreamEvent>): (q: Option<nat>)
    ensures q.Some? ==> q.value < |es| && Opens(es[q.value])
    decreases |es|
  {
    if es == [] then None
    else
      var n := |es| - 1;
      if es[n].ContentBlockStop? then None
      else if Opens(es[n]) then Some(n)
      else Open(es[..n])
  }

  /** The pieces of text among events, joined. */
  function TextIn(es: seq<StreamEvent>): string
    decreases |es|
  {
    if es == [] then ""
    else
      var n := |es| - 1;
      TextIn(es[..n]) + if es[n].ContentBlockDelta? && es[n].delta.TextDelta? then es[n].delta.text else ""
  }

  /** The pieces of argument text among events, joined. */
  function JsonIn(es: seq<StreamEvent>): string
    decreases |es|
  {
    if es == [] then ""
    else
      var n := |es| - 1;
      JsonIn(es[..n]) + if es[n].ContentBlockDelta? && es[n].delta.InputJsonDelta? then es[n].delta.partialJson else ""
  }

  /** The block that a start and the events behind it make up: its text with all pieces of
      text, unless that is empty, or its call with all pieces of argument text. */
  function BlockOf(start: StreamEvent, behind: seq<StreamEvent>, codec: JsonCodec): Option<OutputBlock>
    requires Opens(start)
  {
    match start.block
    case Text(text) => if text + TextIn(behind) == "" then None else Some(Text(text + TextIn(behind)))
    case ToolUse(id, name, input) =>
      var json := (if input == EMPTY_OBJECT then "" else codec.printValue(input)) + JsonIn(behind);
      var parsed := codec.parseValue(json);
      Some(ToolUse(id, name, if parsed.Some? then parsed.value else JsonObject(map["raw" := JsonString(json)])))
  }

  /** The block that the last stop ends. */
  function Ended(es: seq<StreamEvent>, codec: JsonCodec): Option<OutputBlock> {
    match Open(es)
    case None => None
    case Some(q) => BlockOf(es[q], es[q + 1..], codec)
  }

  /** What comes of the events of one block: the last block that a stop ended. */
  function Came(es: seq<StreamEvent>, codec: JsonCodec): Option<OutputBlock>
    decreases |es|
  {
    if es == [] then None
    else
      var n := |es| - 1;
      if es[n].ContentBlockStop? && Ended(es[..n], codec).Some? then Ended(es[..n], codec)
      else Came(es[..n], codec)
  }

  /** A slot holds an open block with what was read of it. */
  predicate Holds(s: Slot, start: StreamEvent, behind: seq<StreamEvent>, codec: JsonCodec)
    requires Opens(start)
  {
    match start.block
    case Text(text) => s.kind == Some(TextKind) && s.text == Some(text + TextIn(behind))
    case ToolUse(id, name, input) => s.kind == Some(ToolKind(id, name, InitialJson(input, codec) + JsonIn(behind)))
  }

  predicate Tells(s: Slot, es: seq<StreamEvent>, codec: JsonCodec) {
    && s.finished == Came(es, codec)
    && match Open(es)
       case None => s.kind == None
       case Some(q) => Holds(s, es[q], es[q + 1..], codec)
  }

  lemma StopTells(s: Slot, es: seq<StreamEvent>, e: StreamEvent, codec: JsonCodec)
    requires Tells(s, es, codec) && e.ContentBlockStop?
    ensures Tells(SlotStep(s, e, codec), es + [e], codec)
  {
    assert (es + [e])[..|es|] == es;
  }

  lemma StartTells(s: Slot, es: seq<StreamEvent>, e: StreamEvent, codec: JsonCodec)
    requires Tells(s, es, codec) && Opens(e)
    ensures Tells(SlotStep(s, e, codec), es + [e], codec)
  {
    var all := es + [e];
    assert all[..|es|] == es && all[|es| + 1..] == [];
    assert forall t: string :: t + "" == t;
  }

  lemma DeltaTells(s: Slot, es: seq<StreamEvent>, e: StreamEvent, codec: JsonCodec)
    requires Tells(s, es, codec) && !e.ContentBlockStop? && !Opens(e)
    ensures Tells(SlotStep(s, e, codec), es + [e], codec)
  {
    var all := es + [e];
    assert all[..|es|] == es && Open(all) == Open(es);
    if Open(es).Some? {
      var q := Open(es).value;
      var behind := es[q + 1..];
      assert all[q + 1..] == behind + [e] && all[q] == es[q];
      HoldsMore(s, es[q], behind, e, codec);
    }
  }

  lemma HoldsMore(s: Slot, start: StreamEvent, behind: seq<StreamEvent>, e: StreamEvent, codec: JsonCodec)
    requires Opens(start) && Holds(s, start, behind, codec) && !e.ContentBlockStop? && !Opens(e)
    ensures Holds(SlotStep(s, e, codec), start, behind + [e], codec)
  {
    assert (behind + [e])[..|behind|] == behind;
    if start.block.Text? {
      PieceBehind(start.block.text, TextIn(behind), if e.ContentBlockDelta? && e.delta.TextDelta? then e.delta.text else "");
    } else {
      PieceBehind(InitialJson(start.block.input, codec), JsonIn(behind),
        if e.ContentBlockDelta? && e.delta.InputJsonDelta? then e.delta.partialJson else "");
    }
  }

  lemma PieceBehind(initial: string, sofar: string, piece: string)
    ensures initial + (sofar + piece) == initial + sofar + piece
    ensures piece == "" ==> initial + (sofar + piece) == initial + sofar
  {
  }

  lemma {:induction false} SlotTells(es: seq<StreamEvent>, codec: JsonCodec)
    ensures Tells(SlotRun(EMPTY_SLOT, es, codec), es, codec)
    decreases |es|
  {
    if es != [] {
      var n := |es| - 1;
      var before, e := es[..n], es[n];
      var s := SlotRun(EMPTY_SLOT, before, codec);
      SlotTells(before, codec);
      assert es == before + [e];
      SlotRunConcat(EMPTY_SLOT, before, [e], codec);
      assert SlotRun(s, [e], codec) == SlotStep(s, e, codec);
      if e.ContentBlockStop? {
        StopTells(s, before, e, codec);
      } else if Opens(e) {
        StartTells(s, before, e, codec);
      } else {
        DeltaTells(s, before, e, codec);
      }
    }
  }

  /** After any events, a block is there exactly if it came of the events of its index. */
  lemma BlocksAreTold(es: seq<StreamEvent>, i: u32, model: string, codec: JsonCodec)
    requires MessageStop !in es
    ensures Get(Fold(Start(model), es, codec).finished, i) == Came(OnIndex(es, i), codec)
  {
    FoldOnSlot(Start(model), es, i, codec);
    SlotTells(OnIndex(es, i), codec);
  }

  /** At each index stands what came of its events, and nothing else. */
  ghost predicate AreBlocks(blocks: map<u32, OutputBlock>, es: seq<StreamEvent>, codec: JsonCodec) {
    forall i: u32 :: Get(blocks, i) == Came(OnIndex(es, i), codec)
  }

  /** Any stream that is stopped is answered with the blocks that came of it in index order
      and the last id, model, usage and stop reason it gave; the reason falls back to
      `tool_use` just when a call is among the blocks. Without blocks it is sent again. */
  lemma ReplyIsTold(es: seq<StreamEvent>, tail: Trace, model: string, codec: JsonCodec) returns (blocks: map<u32, OutputBlock>)
    requires MessageStop !in es
    ensures AreBlocks(blocks, es, codec)
    ensures var content := Values(blocks);
            var told := HeaderTold(es, model);
            var fallback := if exists i :: i in blocks && blocks[i].ToolUse? then "tool_use" else "end_turn";
            ReplyTo(Then(es + [MessageStop], tail), model, codec) ==
            if blocks == map[] then SentAgain
            else Streamed(MessageResponse(told.id, content, told.model,
                            Some(UnwrapOr(told.stopReason, fallback)), told.usage))
  {
    blocks := Fold(Start(model), es, codec).finished;
    forall i: u32 ensures Get(blocks, i) == Came(OnIndex(es, i), codec) {
      BlocksAreTold(es, i, model, codec);
    }
    HeaderIsTold(es, model, codec);
    FoldToStop(Start(model), es, tail.events, codec);
    ToolsAmong(blocks);
  }

  lemma ToolsAmong(blocks: map<u32, OutputBlock>)
    ensures (exists b :: b in Values(blocks) && b.ToolUse?) <==> (exists i :: i in blocks && blocks[i].ToolUse?)
    ensures Values(blocks) == [] <==> blocks == map[]
  {
    if b :| b in Values(blocks) && b.ToolUse? {
      ValuesAre(blocks, b);
    }
    if i :| i in blocks && blocks[i].ToolUse? {
      ValuesAre(blocks, blocks[i]);
    }
    if blocks != map[] {
      var i :| i in blocks;
      ValuesAre(blocks, blocks[i]);
    }
  }
}
