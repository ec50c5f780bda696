/** How streamed events are folded into one message: `stream_to_message_response`. */
module StreamAssembly {
  import opened SortedMaps
  import opened SseFrame
  import opened SseStream
  import opened StreamTypes
  import opened Wrappers

  datatype BlockKind = TextKind | ToolKind(id: string, name: string, json: string)

  /** The local variables of the loop. */
  datatype Assembly = Assembly(
    kinds: map<u32, BlockKind>,
    texts: map<u32, string>,
    finished: map<u32, OutputBlock>,
    id: string,
    model: string,
    stopReason: Option<string>,
    usage: Usage,
    sawStop: bool)

  const NO_USAGE := Usage(0, 0, 0, 0)

  function Start(model: string): Assembly {
    Assembly(map[], map[], map[], "stream", model, None, NO_USAGE, false)
  }

  /** The text a tool block starts from: nothing for an empty input object. */
  function InitialJson(input: Json, codec: JsonCodec): string {
    if input == EMPTY_OBJECT then "" else codec.printValue(input)
  }

  /** The collected argument text as a value; text that is no JSON is kept as it is. */
  function ToolInput(json: string, codec: JsonCodec): Json {
    match codec.parseValue(json)
    case Some(v) => v
    case None => JsonObject(map["raw" := JsonString(json)])
  }

  function Step(st: Assembly, e: StreamEvent, codec: JsonCodec): Assembly {
    match e
    case MessageStart(message) => st.(id := message.id, model := message.model)
    case ContentBlockStart(i, Text(text)) => st.(kinds := st.kinds[i := TextKind], texts := st.texts[i := text])
    case ContentBlockStart(i, ToolUse(id, name, input)) =>
      st.(kinds := st.kinds[i := ToolKind(id, name, InitialJson(input, codec))])
    case ContentBlockStart(_, _) => st
    case ContentBlockDelta(i, TextDelta(text)) =>
      if text == "" then st
      else st.(texts := st.texts[i := (if i in st.texts then st.texts[i] else "") + text])
    case ContentBlockDelta(i, InputJsonDelta(partial)) =>
      if i in st.kinds && st.kinds[i].ToolKind?
      then st.(kinds := st.kinds[i := st.kinds[i].(json := st.kinds[i].json + partial)])
      else st
    case ContentBlockDelta(_, _) => st
    case ContentBlockStop(i) =>
      if i !in st.kinds then st
      else
        var kinds := st.kinds - {i};
        (match st.kinds[i]
         case TextKind =>
           var text := if i in st.texts then st.texts[i] else "";
           st.(kinds := kinds, texts := st.texts - {i},
             finished := if text == "" then st.finished else st.finished[i := Text(text)])
         case ToolKind(id, name, json) =>
           st.(kinds := kinds, finished := st.finished[i := ToolUse(id, name, ToolInput(json, codec))]))
    case MessageDelta(reason, usage) =>
      st.(usage := usage, stopReason := if reason.Some? then reason else st.stopReason)
    case MessageStop => st.(sawStop := true)
  }

  /** Folds events until the message is stopped. */
  function Fold(st: Assembly, es: seq<StreamEvent>, codec: JsonCodec): Assembly
    decreases |es|
  {
    if es == [] || st.sawStop then st else Fold(Step(st, es[0], codec), es[1..], codec)
  }

  /** What the caller of the stream gets: the streamed message, the answer to sending the
      request once more without streaming, or the stream's error. */
  datatype Reply = Streamed(message: MessageResponse) | SentAgain | Failed(error: ParseError)

  function Finish(st: Assembly): Reply {
    var content := Values(st.finished);
    if !st.sawStop || content == [] then SentAgain
    else
      var hasTools := exists b | b in content :: b.ToolUse?;
      var fallback := if hasTools then "tool_use" else "end_turn";
      Streamed(MessageResponse(st.id, content, st.model, Some(UnwrapOr(st.stopReason, fallback)), st.usage))
  }

  /** The reply to everything a stream delivers. */
  function ReplyTo(t: Trace, model: string, codec: JsonCodec): Reply {
    var st := Fold(Start(model), t.events, codec);
    if !st.sawStop && t.error.Some? then Failed(t.error.value) else Finish(st)
  }

  /** One event of the stream, applied to the tables of open and finished blocks. */
  method ApplyEvent(st: Assembly, e: StreamEvent, codec: JsonCodec) returns (next: Assembly)
    ensures next == Step(st, e, codec)
  {
    match e {
      case MessageStart(message) =>
        next := st.(id := message.id, model := message.model);
      case ContentBlockStart(index, block) =>
        next := OpenBlock(st, index, block, codec);
      case ContentBlockDelta(index, delta) =>
        next := ExtendBlock(st, index, delta, codec);
      case ContentBlockStop(index) =>
        next := CloseBlock(st, index, codec);
      case MessageDelta(reason, usage) =>
        next := st.(usage := usage, stopReason := if reason.Some? then reason else st.stopReason);
      case MessageStop =>
        next := st.(sawStop := true);
    }
  }

  method OpenBlock(st: Assembly, index: u32, block: OutputBlock, codec: JsonCodec) returns (next: Assembly)
    ensures next == Step(st, ContentBlockStart(index, block), codec)
  {
    var blockKind, textBuf := st.kinds, st.texts;
    match block {
      case Text(text) =>
        blockKind := blockKind[index := TextKind];
        textBuf := textBuf[index := text];
      case ToolUse(id, name, input) =>
        var json := "";
        if input != EMPTY_OBJECT {
          json := codec.printValue(input);
        }
        blockKind := blockKind[index := ToolKind(id, name, json)];
      case _ =>
    }
    next := st.(kinds := blockKind, texts := textBuf);
  }

  method ExtendBlock(st: Assembly, index: u32, delta: Delta, codec: JsonCodec) returns (next: Assembly)
    ensures next == Step(st, ContentBlockDelta(index, delta), codec)
  {
    var blockKind, textBuf := st.kinds, st.texts;
    match delta {
      case TextDelta(text) =>
        if text != "" {
          if index !in textBuf {
            textBuf := textBuf[index := ""];
          }
          textBuf := textBuf[index := textBuf[index] + text];
        }
      case InputJsonDelta(partial) =>
        if index in blockKind && blockKind[index].ToolKind? {
          var tool := blockKind[index];
          blockKind := blockKind[index := tool.(json := tool.json + partial)];
        }
      case _ =>
    }
    next := st.(kinds := blockKind, texts := textBuf);
  }

  method CloseBlock(st: Assembly, index: u32, codec: JsonCodec) returns (next: Assembly)
    ensures next == Step(st, ContentBlockStop(index), codec)
  {
    if index !in st.kinds {
      return st;
    }
    var textBuf, finished := st.texts, st.finished;
    match st.kinds[index] {
      case TextKind =>
        var text := "";
        if index in textBuf {
          text := textBuf[index];
          textBuf := textBuf - {index};
        }
        if text != "" {
          finished := finished[index := Text(text)];
        }
        assert textBuf == st.texts - {index};
      case ToolKind(id, name, json) =>
        var input := codec.parseValue(json);
        if input.None? {
          input := Some(JsonObject(map["raw" := JsonString(json)]));
        }
        finished := finished[index := ToolUse(id, name, input.value)];
    }
    next := st.(kinds := st.kinds - {index}, texts := textBuf, finished := finished);
  }

  method StreamToMessage(stream: MessageStream, model: string, codec: JsonCodec) returns (reply: Reply)
    modifies stream, stream.parser
    ensures reply == ReplyTo(old(stream.Ahead()), model, codec)
  {
    ghost var t := stream.Ahead();
    var st := Start(model);
    while !st.sawStop
      invariant Fold(st, stream.Ahead().events, codec) == Fold(Start(model), t.events, codec)
      invariant stream.Ahead().error == t.error
      decreases |stream.Ahead().events|, !st.sawStop
    {
      var event := stream.NextEvent();
      match event {
        case Err(e) => return Failed(e);
        case Ok(None) => return Finish(st);
        case Ok(Some(e)) => st := ApplyEvent(st, e, codec);
      }
    }
    return Finish(st);
  }

  // ----- One block at a time -----

  /** What the loop holds for one block index. */
  datatype Slot = Slot(kind: Option<BlockKind>, text: Option<string>, finished: Option<OutputBlock>)

  const EMPTY_SLOT := Slot(None, None, None)

  function SlotOf(st: Assembly, i: u32): Slot {
    Slot(Get(st.kinds, i), Get(st.texts, i), Get(st.finished, i))
  }

  function EventIndex(e: StreamEvent): Option<u32> {
    match e
    case ContentBlockStart(i, _) => Some(i)
    case ContentBlockDelta(i, _) => Some(i)
    case ContentBlockStop(i) => Some(i)
    case _ => None
  }

  function SlotStep(s: Slot, e: StreamEvent, codec: JsonCodec): Slot {
    match e
    case ContentBlockStart(_, Text(text)) => s.(kind := Some(TextKind), text := Some(text))
    case ContentBlockStart(_, ToolUse(id, name, input)) => s.(kind := Some(ToolKind(id, name, InitialJson(input, codec))))
    case ContentBlockDelta(_, TextDelta(text)) =>
      if text == "" then s else s.(text := Some(UnwrapOr(s.text, "") + text))
    case ContentBlockDelta(_, InputJsonDelta(partial)) =>
      if s.kind.Some? && s.kind.value.ToolKind?
      then s.(kind := Some(s.kind.value.(json := s.kind.value.json + partial)))
      else s
    case ContentBlockStop(_) =>
      if s.kind.None? then s
      else
        (match s.kind.value
         case TextKind =>
           var text := UnwrapOr(s.text, "");
           Slot(None, None, if text == "" then s.finished else Some(Text(text)))
         case ToolKind(id, name, json) =>
           Slot(None, s.text, Some(ToolUse(id, name, ToolInput(json, codec)))))
    case _ => s
  }

  function SlotRun(s: Slot, es: seq<StreamEvent>, codec: JsonCodec): Slot
    decreases |es|
  {
    if es == [] then s else SlotRun(SlotStep(s, es[0], codec), es[1..], codec)
  }

  /** The events of one block index, in their order. */
  function OnIndex(es: seq<StreamEvent>, i: u32): seq<StreamEvent> {
    if es == [] then []
    else if EventIndex(es[0]) == Some(i) then [es[0]] + OnIndex(es[1..], i)
    else OnIndex(es[1..], i)
  }

  /** The events that belong to no block, in their order. */
  function Global(es: seq<StreamEvent>): seq<StreamEvent> {
    if es == [] then []
    else if EventIndex(es[0]).None? then [es[0]] + Global(es[1..])
    else Global(es[1..])
  }

  /** A step on one block leaves every other block alone and ignores what they hold. */
  lemma StepOnSlot(st: Assembly, e: StreamEvent, i: u32, codec: JsonCodec)
    ensures SlotOf(Step(st, e, codec), i) ==
            if EventIndex(e) == Some(i) then SlotStep(SlotOf(st, i), e, codec) else SlotOf(st, i)
  {
    match e
    case ContentBlockStart(j, _) => StartOnSlot(st, e, j, i, codec);
    case ContentBlockDelta(j, _) => DeltaOnSlot(st, e, j, i, codec);
    case ContentBlockStop(j) => StopOnSlot(st, e, j, i, codec);
    case _ =>
  }

  lemma StartOnSlot(st: Assembly, e: StreamEvent, j: u32, i: u32, codec: JsonCodec)
    requires e.ContentBlockStart? && e.index == j
    ensures SlotOf(Step(st, e, codec), i) == if i == j then SlotStep(SlotOf(st, i), e, codec) else SlotOf(st, i)
  {
  }

  lemma DeltaOnSlot(st: Assembly, e: StreamEvent, j: u32, i: u32, codec: JsonCodec)
    requires e.ContentBlockDelta? && e.index == j
    ensures SlotOf(Step(st, e, codec), i) == if i == j then SlotStep(SlotOf(st, i), e, codec) else SlotOf(st, i)
  {
  }

  lemma StopOnSlot(st: Assembly, e: StreamEvent, j: u32, i: u32, codec: JsonCodec)
    requires e.ContentBlockStop? && e.index == j
    ensures SlotOf(Step(st, e, codec), i) == if i == j then SlotStep(SlotOf(st, i), e, codec) else SlotOf(st, i)
  {
  }

  lemma {:induction false} FoldOnSlot(st: Assembly, es: seq<StreamEvent>, i: u32, codec: JsonCodec)
    requires !st.sawStop && MessageStop !in es
    ensures SlotOf(Fold(st, es, codec), i) == SlotRun(SlotOf(st, i), OnIndex(es, i), codec)
    decreases |es|
  {
    if es != [] {
      assert es[0] in es;
      StepOnSlot(st, es[0], i, codec);
      FoldOnSlot(Step(st, es[0], codec), es[1..], i, codec);
      assert ([es[0]] + OnIndex(es[1..], i))[1..] == OnIndex(es[1..], i);
    }
  }

  /** The part of the state that belongs to no block. */
  datatype Header = Header(id: string, model: string, stopReason: Option<string>, usage: Usage, sawStop: bool)

  function HeaderOf(st: Assembly): Header {
    Header(st.id, st.model, st.stopReason, st.usage, st.sawStop)
  }

  lemma StepOnHeader(st: Assembly, other: Assembly, e: StreamEvent, codec: JsonCodec)
    ensures EventIndex(e).Some? ==> HeaderOf(Step(st, e, codec)) == HeaderOf(st)
    ensures HeaderOf(st) == HeaderOf(other) ==> HeaderOf(Step(st, e, codec)) == HeaderOf(Step(other, e, codec))
  {
    HeaderStep(st, e, codec);
    HeaderStep(other, e, codec);
  }

  lemma HeaderStep(st: Assembly, e: StreamEvent, codec: JsonCodec)
    ensures HeaderOf(Step(st, e, codec)) ==
            Header(
              if e.MessageStart? then e.message.id else st.id,
              if e.MessageStart? then e.message.model else st.model,
              if e.MessageDelta? && e.stopReason.Some? then e.stopReason else st.stopReason,
              if e.MessageDelta? then e.usage else st.usage,
              st.sawStop || e.MessageStop?)
  {
  }

  lemma {:induction false} FoldOnHeader(st: Assembly, other: Assembly, es: seq<StreamEvent>, codec: JsonCodec)
    requires !st.sawStop && MessageStop !in es && HeaderOf(st) == HeaderOf(other)
    ensures HeaderOf(Fold(st, es, codec)) == HeaderOf(Fold(other, Global(es), codec))
    decreases |es|
  {
    if es != [] {
      assert es[0] in es;
      StepOnHeader(st, other, es[0], codec);
      var g := Global(es[1..]);
      if EventIndex(es[0]).None? {
        assert ([es[0]] + g)[1..] == g;
        FoldOnHeader(Step(st, es[0], codec), Step(other, es[0], codec), es[1..], codec);
      } else {
        FoldOnHeader(Step(st, es[0], codec), other, es[1..], codec);
      }
    }
  }

  lemma {:induction false} FoldToStop(st: Assembly, es: seq<StreamEvent>, tail: seq<StreamEvent>, codec: JsonCodec)
    requires !st.sawStop && MessageStop !in es
    ensures Fold(st, es + [MessageStop] + tail, codec) == Fold(st, es, codec).(sawStop := true)
    decreases |es|
  {
    var all := es + [MessageStop] + tail;
    if es == [] {
      assert all[0] == MessageStop;
    } else {
      assert es[0] in es;
      assert all[0] == es[0] && all[1..] == es[1..] + [MessageStop] + tail;
      FoldToStop(Step(st, es[0], codec), es[1..], tail, codec);
    }
  }

  lemma SlotsDecide(st: Assembly, other: Assembly)
    requires forall i: u32 :: SlotOf(st, i) == SlotOf(other, i)
    ensures st.kinds == other.kinds && st.texts == other.texts && st.finished == other.finished
  {
    forall i: u32 ensures Get(st.kinds, i) == Get(other.kinds, i) { var _ := SlotOf(st, i); }
    forall i: u32 ensures Get(st.texts, i) == Get(other.texts, i) { var _ := SlotOf(st, i); }
    forall i: u32 ensures Get(st.finished, i) == Get(other.finished, i) { var _ := SlotOf(st, i); }
    GetDecides(st.kinds, other.kinds);
    GetDecides(st.texts, other.texts);
    GetDecides(st.finished, other.finished);
  }

  /** How blocks interleave before the stop is unobservable: only the order of each block's
      own events and of the events outside all blocks counts. What follows the stop, an
      error included, is unobservable too. */
  lemma InterleavingUnobserved(es: seq<StreamEvent>, fs: seq<StreamEvent>, t: Trace, u: Trace, model: string, codec: JsonCodec)
    requires MessageStop !in es && MessageStop !in fs
    requires Global(es) == Global(fs) && forall i: u32 :: OnIndex(es, i) == OnIndex(fs, i)
    ensures ReplyTo(Then(es + [MessageStop], t), model, codec) == ReplyTo(Then(fs + [MessageStop], u), model, codec)
  {
    var st := Start(model);
    forall i: u32 ensures SlotOf(Fold(st, es, codec), i) == SlotOf(Fold(st, fs, codec), i) {
      FoldOnSlot(st, es, i, codec);
      FoldOnSlot(st, fs, i, codec);
    }
    SlotsDecide(Fold(st, es, codec), Fold(st, fs, codec));
    FoldOnHeader(st, st, es, codec);
    FoldOnHeader(st, st, fs, codec);
    FoldToStop(st, es, t.events, codec);
    FoldToStop(st, fs, u.events, codec);
  }

  // ----- What a block comes to -----

  /** The life of one block as a server streams it. */
  datatype Script =
    | TextScript(initial: string, parts: seq<string>, stopped: bool)
    | ToolScript(id: string, name: string, input: Json, parts: seq<string>, stopped: bool)
    | ThinkingScript(thinking: string, signature: Option<string>, deltas: seq<Delta>, stopped: bool)

  predicate WellFormed(s: Script) {
    s.ThinkingScript? ==> forall d | d in s.deltas :: d.ThinkingDelta? || d.SignatureDelta?
  }

  function Flat(parts: seq<string>): string {
    if parts == [] then "" else parts[0] + Flat(parts[1..])
  }

  function Deltas(i: u32, ds: seq<Delta>): seq<StreamEvent> {
    if ds == [] then [] else [ContentBlockDelta(i, ds[0])] + Deltas(i, ds[1..])
  }

  function TextDeltas(parts: seq<string>): seq<Delta> {
    if parts == [] then [] else [TextDelta(parts[0])] + TextDeltas(parts[1..])
  }

  function JsonDeltas(parts: seq<string>): seq<Delta> {
    if parts == [] then [] else [InputJsonDelta(parts[0])] + JsonDeltas(parts[1..])
  }

  function ScriptBlock(s: Script): OutputBlock {
    match s
    case TextScript(initial, _, _) => Text(initial)
    case ToolScript(id, name, input, _, _) => ToolUse(id, name, input)
    case ThinkingScript(thinking, signature, _, _) => Thinking(thinking, signature)
  }

  function ScriptDeltas(s: Script): seq<Delta> {
    match s
    case TextScript(_, deltas, _) => TextDeltas(deltas)
    case ToolScript(_, _, _, parts, _) => JsonDeltas(parts)
    case ThinkingScript(_, _, deltas, _) => deltas
  }

  function ScriptEvents(i: u32, s: Script): seq<StreamEvent> {
    [ContentBlockStart(i, ScriptBlock(s))] + Deltas(i, ScriptDeltas(s)) + if s.stopped then [ContentBlockStop(i)] else []
  }

  /** The block that should come of a script: text unless empty, a tool call with its
      collected arguments, and nothing of thinking or of a block that never stopped. */
  function Outcome(s: Script, codec: JsonCodec): Option<OutputBlock> {
    if !s.stopped then None
    else
      match s
      case TextScript(initial, deltas, _) =>
        if initial + Flat(deltas) == "" then None else Some(Text(initial + Flat(deltas)))
      case ToolScript(id, name, input, parts, _) =>
        var json := (if input == EMPTY_OBJECT then "" else codec.printValue(input)) + Flat(parts);
        var parsed := codec.parseValue(json);
        Some(ToolUse(id, name, if parsed.Some? then parsed.value else JsonObject(map["raw" := JsonString(json)])))
      case ThinkingScript(_, _, _, _) => None
  }

  lemma {:induction false} SlotRunConcat(s: Slot, a: seq<StreamEvent>, b: seq<StreamEvent>, codec: JsonCodec)
    ensures SlotRun(s, a + b, codec) == SlotRun(SlotRun(s, a, codec), b, codec)
    decreases |a|
  {
    if a == [] {
      assert a + b == b;
    } else {
      assert (a + b)[1..] == a[1..] + b;
      SlotRunConcat(SlotStep(s, a[0], codec), a[1..], b, codec);
    }
  }

  lemma {:induction false} TextDeltasRun(i: u32, text: string, parts: seq<string>, codec: JsonCodec)
    ensures SlotRun(Slot(Some(TextKind), Some(text), None), Deltas(i, TextDeltas(parts)), codec) ==
            Slot(Some(TextKind), Some(text + Flat(parts)), None)
    decreases |parts|
  {
    if parts == [] {
      assert text + "" == text;
    } else {
      TextDeltasRun(i, text + parts[0], parts[1..], codec);
      Rest(i, TextDelta(parts[0]), TextDeltas(parts[1..]));
      assert parts[0] == "" ==> text + parts[0] == text;
      assert (text + parts[0]) + Flat(parts[1..]) == text + (parts[0] + Flat(parts[1..]));
    }
  }

  lemma Rest(i: u32, d: Delta, ds: seq<Delta>)
    ensures Deltas(i, [d] + ds) == [ContentBlockDelta(i, d)] + Deltas(i, ds)
    ensures ([ContentBlockDelta(i, d)] + Deltas(i, ds))[1..] == Deltas(i, ds)
  {
    assert ([d] + ds)[1..] == ds;
  }

  lemma {:induction false} JsonDeltasRun(i: u32, id: string, name: string, json: string, parts: seq<string>, codec: JsonCodec)
    ensures SlotRun(Slot(Some(ToolKind(id, name, json)), None, None), Deltas(i, JsonDeltas(parts)), codec) ==
            Slot(Some(ToolKind(id, name, json + Flat(parts))), None, None)
    decreases |parts|
  {
    if parts == [] {
      assert json + "" == json;
    } else {
      JsonDeltasRun(i, id, name, json + parts[0], parts[1..], codec);
      Rest(i, InputJsonDelta(parts[0]), JsonDeltas(parts[1..]));
      assert (json + parts[0]) + Flat(parts[1..]) == json + (parts[0] + Flat(parts[1..]));
    }
  }

  lemma {:induction false} ThinkingRun(i: u32, ds: seq<Delta>, codec: JsonCodec)
    requires forall d | d in ds :: d.ThinkingDelta? || d.SignatureDelta?
    ensures SlotRun(EMPTY_SLOT, Deltas(i, ds), codec) == EMPTY_SLOT
    decreases |ds|
  {
    if ds != [] {
      ThinkingRun(i, ds[1..], codec);
      Rest(i, ds[0], ds[1..]);
      assert ds[0] in ds;
    }
  }

  lemma ScriptRun(i: u32, s: Script, codec: JsonCodec)
    requires WellFormed(s)
    ensures SlotRun(EMPTY_SLOT, ScriptEvents(i, s), codec).finished == Outcome(s, codec)
  {
    var start := [ContentBlockStart(i, ScriptBlock(s))];
    var deltas := Deltas(i, ScriptDeltas(s));
    var stop := if s.stopped then [ContentBlockStop(i)] else [];
    SlotRunConcat(EMPTY_SLOT, start + deltas, stop, codec);
    SlotRunConcat(EMPTY_SLOT, start, deltas, codec);
    assert SlotRun(EMPTY_SLOT, start, codec) == SlotStep(EMPTY_SLOT, start[0], codec);
    match s
    case TextScript(initial, parts, _) => TextDeltasRun(i, initial, parts, codec);
    case ToolScript(id, name, input, parts, _) => JsonDeltasRun(i, id, name, InitialJson(input, codec), parts, codec);
    case ThinkingScript(_, _, ds, _) => ThinkingRun(i, ds, codec);
  }

  /** The blocks that should come of scripts, by index. */
  function Outcomes(plan: map<u32, Script>, codec: JsonCodec): map<u32, OutputBlock> {
    map i | i in plan && Outcome(plan[i], codec).Some? :: Outcome(plan[i], codec).value
  }

  ghost predicate Interleaves(es: seq<StreamEvent>, plan: map<u32, Script>) {
    forall i: u32 :: OnIndex(es, i) == if i in plan then ScriptEvents(i, plan[i]) else []
  }

  /** Any interleaving of well-formed blocks comes to their outcomes in index order. */
  lemma InterleavedScripts(es: seq<StreamEvent>, plan: map<u32, Script>, model: string, codec: JsonCodec)
    requires MessageStop !in es && Interleaves(es, plan) && forall i | i in plan :: WellFormed(plan[i])
    ensures Fold(Start(model), es, codec).finished == Outcomes(plan, codec)
  {
    var finished := Fold(Start(model), es, codec).finished;
    forall i: u32 ensures Get(finished, i) == Get(Outcomes(plan, codec), i) {
      FoldOnSlot(Start(model), es, i, codec);
      if i in plan {
        ScriptRun(i, plan[i], codec);
      }
    }
    GetDecides(finished, Outcomes(plan, codec));
  }
}
