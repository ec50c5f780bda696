/** The mock service's streamed replies, and that a client reads back what they say. */
module MockService {
  import opened Machine
  import opened Sequences
  import opened SortedMaps
  import opened SseFrame
  import opened SseFraming
  import opened SseStream
  import opened StreamAssembly
  import opened StreamTypes
  import opened Text
  import opened Utf8
  import opened Wrappers

  const DEFAULT_MODEL := "claude-sonnet-4-6"

  function EventName(e: StreamEvent): string {
    match e
    case MessageStart(_) => "message_start"
    case MessageDelta(_, _) => "message_delta"
    case ContentBlockStart(_, _) => "content_block_start"
    case ContentBlockDelta(_, _) => "content_block_delta"
    case ContentBlockStop(_) => "content_block_stop"
    case MessageStop => "message_stop"
  }

  /** One event as `append_sse` writes it. */
  function SseText(e: StreamEvent, codec: JsonCodec): string {
    "event: " + EventName(e) + "\n" + "data: " + codec.printEvent(e) + "\n" + "\n"
  }

  function SseBody(es: seq<StreamEvent>, codec: JsonCodec): string {
    Printed(es, (e: StreamEvent) => SseText(e, codec))
  }

  function Printed<T>(xs: seq<T>, text: T -> string): string {
    if xs == [] then "" else text(xs[0]) + Printed(xs[1..], text)
  }

  method AppendSse(body: string, e: StreamEvent, codec: JsonCodec) returns (longer: string)
    ensures longer == body + SseText(e, codec)
  {
    longer := body + ("event: " + EventName(e) + "\n");
    longer := longer + ("data: " + codec.printEvent(e) + "\n");
    longer := longer + "\n";
  }

  /** A tool call with the pieces its argument text is streamed in. */
  datatype ToolUseSse = ToolUseSse(id: string, name: string, parts: seq<string>)

  /** A tool call with its arguments as one value. */
  datatype ToolUseMessage = ToolUseMessage(id: string, name: string, input: Json)

  function ToolScriptOf(t: ToolUseSse): Script {
    ToolScript(t.id, t.name, EMPTY_OBJECT, t.parts, true)
  }

  /** Block events are numbered from `from`; an index is a u32. */
  function BlockEvents(tools: seq<ToolUseSse>, from: nat): seq<StreamEvent>
    requires from + |tools| <= 0x1_0000_0000
    decreases |tools|
  {
    if tools == [] then []
    else ScriptEvents(from, ToolScriptOf(tools[0])) + BlockEvents(tools[1..], from + 1)
  }

  function MessageId(tools: seq<ToolUseSse>): string {
    if tools == [] then "msg_tool_use" else "msg_" + tools[0].id
  }

  function OpeningEvent(tools: seq<ToolUseSse>): StreamEvent {
    MessageStart(MessageResponse(MessageId(tools), [], DEFAULT_MODEL, None, Usage(12, 0, 0, 0)))
  }

  const CLOSING_EVENT := MessageDelta(Some("tool_use"), Usage(12, 0, 0, 4))

  function ToolUseEvents(tools: seq<ToolUseSse>): seq<StreamEvent>
    requires |tools| <= 0x1_0000_0000
  {
    [OpeningEvent(tools)] + BlockEvents(tools, 0) + [CLOSING_EVENT] + [MessageStop]
  }

  /** One tool call: its start, a delta for each piece, its stop. */
  method AppendToolUse(body: string, index: u32, tool: ToolUseSse, codec: JsonCodec) returns (longer: string)
    ensures longer == body + SseBody(ScriptEvents(index, ToolScriptOf(tool)), codec)
  {
    ghost var text := (e: StreamEvent) => SseText(e, codec);
    var start := ContentBlockStart(index, ToolUse(tool.id, tool.name, EMPTY_OBJECT));
    longer := AppendSse(body, start, codec);
    ghost var done := [start];
    PrintedAppend([], start, text);
    for k := 0 to |tool.parts|
      invariant longer == body + Printed(done, text)
      invariant done + Deltas(index, JsonDeltas(tool.parts[k..])) == [start] + Deltas(index, JsonDeltas(tool.parts))
    {
      var delta := ContentBlockDelta(index, InputJsonDelta(tool.parts[k]));
      longer := AppendSse(longer, delta, codec);
      PrintedAppend(done, delta, text);
      ConcatAssociative(body, Printed(done, text), text(delta));
      assert tool.parts[k..][1..] == tool.parts[k + 1..];
      Rest(index, InputJsonDelta(tool.parts[k]), JsonDeltas(tool.parts[k + 1..]));
      ConcatAssociative(done, [delta], Deltas(index, JsonDeltas(tool.parts[k + 1..])));
      done := done + [delta];
    }
    longer := AppendSse(longer, ContentBlockStop(index), codec);
    PrintedAppend(done, ContentBlockStop(index), text);
    ConcatAssociative(body, Printed(done, text), text(ContentBlockStop(index)));
    assert done + [] == done;
  }

  method ToolUsesSse(tools: seq<ToolUseSse>, codec: JsonCodec) returns (body: string)
    requires |tools| <= 0x1_0000_0000
    ensures body == SseBody(ToolUseEvents(tools), codec)
  {
    ghost var text := (e: StreamEvent) => SseText(e, codec);
    body := AppendSse("", OpeningEvent(tools), codec);
    ghost var done := [OpeningEvent(tools)];
    PrintedAppend([], OpeningEvent(tools), text);
    for index := 0 to |tools|
      invariant body == Printed(done, text)
      invariant done + BlockEvents(tools[index..], index) == [OpeningEvent(tools)] + BlockEvents(tools, 0)
    {
      ghost var block := ScriptEvents(index, ToolScriptOf(tools[index]));
      body := AppendToolUse(body, index, tools[index], codec);
      PrintedConcat(done, block, text);
      assert tools[index..][1..] == tools[index + 1..];
      ConcatAssociative(done, block, BlockEvents(tools[index + 1..], index + 1));
      done := done + block;
    }
    assert done + [] == done;
    body := AppendSse(body, CLOSING_EVENT, codec);
    PrintedAppend(done, CLOSING_EVENT, text);
    body := AppendSse(body, MessageStop, codec);
    PrintedAppend(done + [CLOSING_EVENT], MessageStop, text);
  }

  lemma {:induction false} PrintedConcat<T>(a: seq<T>, b: seq<T>, text: T -> string)
    ensures Printed(a + b, text) == Printed(a, text) + Printed(b, text)
  {
    if a == [] {
      assert a + b == b;
    } else {
      PrintedConcat(a[1..], b, text);
      assert (a + b)[1..] == a[1..] + b;
      ConcatAssociative(text(a[0]), Printed(a[1..], text), Printed(b, text));
    }
  }

  lemma PrintedAppend<T>(xs: seq<T>, x: T, text: T -> string)
    ensures Printed(xs + [x], text) == Printed(xs, text) + text(x)
    ensures Printed([x], text) == text(x)
  {
    PrintedConcat(xs, [x], text);
    assert Printed([x], text) == text(x) + "";
  }

  // ----- Whatever is printed is read back -----

  function PrintedFrame(e: StreamEvent, codec: JsonCodec): string {
    FrameText(EventName(e), [codec.printEvent(e)])
  }

  function PrintedFrames(es: seq<StreamEvent>, codec: JsonCodec): seq<bytes> {
    if es == [] then [] else [Encode(PrintedFrame(es[0], codec))] + PrintedFrames(es[1..], codec)
  }

  lemma NameIsLine(e: StreamEvent)
    ensures LineText(EventName(e)) && EventName(e) != "ping"
  {
  }

  lemma PayloadIsLine(e: StreamEvent, codec: JsonCodec)
    requires codec.Lawful()
    ensures LineText(codec.printEvent(e)) && LineText(EventName(e)) && EventName(e) != "ping"
    ensures codec.printEvent(e) != "[DONE]"
  {
    NameIsLine(e);
    assert CompactObject(codec.printEvent(e));
  }

  lemma FrameReadsBack(e: StreamEvent, ctx: FrameContext)
    requires ctx.codec.Lawful()
    ensures FrameReader(ctx)(Encode(PrintedFrame(e, ctx.codec))) == Ok(Some(e))
  {
    PayloadIsLine(e, ctx.codec);
    DecodeEncode(PrintedFrame(e, ctx.codec));
    LineTextKept(EventName(e));
    OnePieceRead(EventName(e), ctx.codec.printEvent(e), e, ctx);
  }

  lemma {:induction false} FramesReadBack(es: seq<StreamEvent>, ctx: FrameContext, read: Reader)
    requires forall e :: read(Encode(PrintedFrame(e, ctx.codec))) == Ok(Some(e))
    ensures FrameTrace(PrintedFrames(es, ctx.codec), read) == Trace(es, None)
  {
    if es != [] {
      FramesReadBack(es[1..], ctx, read);
      HeadTail(Encode(PrintedFrame(es[0], ctx.codec)), PrintedFrames(es[1..], ctx.codec), []);
      assert [es[0]] + es[1..] == es;
    }
  }

  /** Two lines and an empty one: the first LF LF ends the second line. */
  lemma FirstLfLf(a: bytes, b: bytes, rest: bytes)
    requires 10 !in a && 10 !in b && b != []
    ensures Find(a + [10] + b + LF_LF + rest, LF_LF) == Some(|a| + 1 + |b|)
  {
    var s := a + [10] + b + LF_LF + rest;
    var p := |a| + 1 + |b|;
    assert s[p..p + 2] == LF_LF;
    assert At(s, LF_LF, p);
    forall i: nat | i < p ensures !At(s, LF_LF, i) {
      assert i < |a| ==> s[i] == a[i];
      assert i == |a| ==> s[i + 1] == b[0];
      assert i > |a| ==> s[i] == b[i - |a| - 1];
      assert s[i] != 10 || s[i + 1] != 10;
      var two := s[i..i + 2];
      assert two[0] == s[i] && two[1] == s[i + 1];
    }
    FindIsFirst(s, LF_LF, Some(p));
  }

  /** The bytes of one printed event: two lines without line feeds, then LF LF. */
  lemma PrintedBytes(e: StreamEvent, codec: JsonCodec) returns (a: bytes, b: bytes)
    requires codec.Lawful()
    ensures 10 !in a && 10 !in b && b != []
    ensures Encode(PrintedFrame(e, codec)) == a + [10] + b
    ensures Encode(SseText(e, codec)) == a + [10] + b + LF_LF
    ensures 13 !in a && 13 !in b
  {
    var first, second := "event: " + EventName(e), "data: " + codec.printEvent(e);
    PayloadIsLine(e, codec);
    a, b := Encode(first), Encode(second);
    EncodeKeepsOut(first, 10);
    EncodeKeepsOut(second, 10);
    EncodeKeepsOut(first, 13);
    EncodeKeepsOut(second, 13);
    TwoLines(first, second);
    PrintedText(e, codec);
  }

  lemma PrintedText(e: StreamEvent, codec: JsonCodec)
    ensures PrintedFrame(e, codec) == ("event: " + EventName(e)) + ("\n" + ("data: " + codec.printEvent(e)))
    ensures SseText(e, codec) == PrintedFrame(e, codec) + "\n\n"
  {
    var first, second := "event: " + EventName(e), "data: " + codec.printEvent(e);
    assert [codec.printEvent(e)][1..] == [];
    assert DataLines([codec.printEvent(e)]) == [second];
    assert [first, second][1..] == [second];
    assert Join([first, second], "\n") == first + "\n" + second;
  }

  lemma TwoLines(first: string, second: string)
    ensures var t := first + ("\n" + second);
            && Encode(t) == Encode(first) + [10] + Encode(second)
            && Encode(t + "\n\n") == Encode(first) + [10] + Encode(second) + LF_LF
  {
    EncodeConcat(first, "\n" + second);
    EncodeConcat("\n", second);
    EncodeConcat(first + ("\n" + second), "\n\n");
    EncodeNewlines();
  }

  lemma EncodeNewlines()
    ensures Encode("\n") == [10] && Encode("\n\n") == LF_LF
  {
    assert "\n"[1..] == "" && "\n\n"[1..] == "\n";
  }

  lemma {:induction false} BodyDrains(es: seq<StreamEvent>, codec: JsonCodec)
    requires codec.Lawful()
    ensures var d := Drain(Encode(SseBody(es, codec)));
            d.rest == [] && FramesOf(d.cuts) == PrintedFrames(es, codec)
  {
    if es == [] {
      assert Drain([]) == Drained([], []);
    } else {
      BodyDrains(es[1..], codec);
      EncodeConcat(SseText(es[0], codec), SseBody(es[1..], codec));
      PrintedFirst(es[0], codec, Encode(SseBody(es[1..], codec)));
    }
  }

  lemma PrintedFirst(e: StreamEvent, codec: JsonCodec, tail: bytes)
    requires codec.Lawful()
    ensures var d := Drain(Encode(SseText(e, codec)) + tail);
            d.rest == Drain(tail).rest && FramesOf(d.cuts) == [Encode(PrintedFrame(e, codec))] + FramesOf(Drain(tail).cuts)
  {
    var a, b := PrintedBytes(e, codec);
    FirstLfLf(a, b, tail);
    DrainFirst(a + [10] + b, tail);
  }

  lemma DrainFirst(frame: bytes, tail: bytes)
    requires Find(frame + LF_LF + tail, LF_LF) == Some(|frame|)
    ensures var d := Drain(frame + LF_LF + tail);
            d.rest == Drain(tail).rest && FramesOf(d.cuts) == [frame] + FramesOf(Drain(tail).cuts)
  {
    var s := frame + LF_LF + tail;
    assert s[..|frame|] == frame && s[|frame| + 2..] == tail;
    FramesBehind(Cut(frame, LF_LF), Drain(tail));
  }

  lemma {:induction false} BodyHasNoCarriageReturn(es: seq<StreamEvent>, codec: JsonCodec)
    requires codec.Lawful()
    ensures 13 !in Encode(SseBody(es, codec))
  {
    if es != [] {
      BodyHasNoCarriageReturn(es[1..], codec);
      var a, b := PrintedBytes(es[0], codec);
      EncodeConcat(SseText(es[0], codec), SseBody(es[1..], codec));
    }
  }

  lemma NoCarriageReturnOrdered(s: bytes)
    requires 13 !in s
    ensures SeparatorsOrdered(s)
  {
    forall i: nat ensures !At(s, CRLF_CRLF, i) {
      if i + 4 <= |s| {
        assert s[i] in s && s[i..i + 4][0] == s[i];
      }
    }
  }

  /** Any list of events, printed, cut into chunks anywhere, even inside a character, and
      parsed, arrives as exactly that list. */
  lemma PrintedEventsArrive(es: seq<StreamEvent>, chunks: seq<bytes>, ctx: FrameContext)
    requires ctx.codec.Lawful() && Concat(chunks) == Encode(SseBody(es, ctx.codec))
    ensures Delivered([], chunks, FrameReader(ctx)) == Trace(es, None)
  {
    var s := Encode(SseBody(es, ctx.codec));
    var read := FrameReader(ctx);
    forall e ensures read(Encode(PrintedFrame(e, ctx.codec))) == Ok(Some(e)) {
      FrameReadsBack(e, ctx);
    }
    BodyHasNoCarriageReturn(es, ctx.codec);
    NoCarriageReturnOrdered(s);
    BodyDrains(es, ctx.codec);
    assert StreamFrames(Drain(s)) == PrintedFrames(es, ctx.codec);
    FramesReadBack(es, ctx, read);
    NothingLostThen(s, chunks, read);
  }

  // ----- The streamed reply says what the plain reply says -----

  function ToolMessageResponseMany(id: string, tools: seq<ToolUseMessage>): MessageResponse {
    MessageResponse(id, seq(|tools|, i requires 0 <= i < |tools| => ToolUse(tools[i].id, tools[i].name, tools[i].input)),
      DEFAULT_MODEL, Some("tool_use"), Usage(10, 0, 0, 3))
  }

  /** The same tool calls, streamed and plain: the pieces make up text that means the input. */
  ghost predicate SameTools(sse: seq<ToolUseSse>, plain: seq<ToolUseMessage>, codec: JsonCodec) {
    && |sse| == |plain|
    && forall i | 0 <= i < |sse| ::
         sse[i].id == plain[i].id && sse[i].name == plain[i].name && codec.parseValue(Flat(sse[i].parts)) == Some(plain[i].input)
  }

  function Plan(tools: seq<ToolUseSse>): map<u32, Script>
    requires |tools| <= 0x1_0000_0000
  {
    map i: u32 | 0 <= i < |tools| :: ToolScriptOf(tools[i])
  }

  lemma {:induction false} OnIndexConcat(a: seq<StreamEvent>, b: seq<StreamEvent>, i: u32)
    ensures OnIndex(a + b, i) == OnIndex(a, i) + OnIndex(b, i)
  {
    if a == [] {
      assert a + b == b;
    } else {
      assert (a + b)[1..] == a[1..] + b;
      OnIndexConcat(a[1..], b, i);
    }
  }

  lemma {:induction false} OnOneIndex(es: seq<StreamEvent>, j: u32, i: u32)
    requires forall e | e in es :: EventIndex(e) == Some(j)
    ensures OnIndex(es, i) == if i == j then es else []
  {
    if es != [] {
      OnOneIndex(es[1..], j, i);
      assert es[0] in es && [es[0]] + es[1..] == es;
    }
  }

  lemma {:induction false} DeltasOnIndex(i: u32, ds: seq<Delta>)
    ensures forall e | e in Deltas(i, ds) :: EventIndex(e) == Some(i)
  {
    if ds != [] {
      DeltasOnIndex(i, ds[1..]);
    }
  }

  /** The events of block `i`, when blocks are numbered from `from`. */
  function BlockOnIndex(tools: seq<ToolUseSse>, from: nat, i: u32): seq<StreamEvent> {
    if from <= i < from + |tools| then ScriptEvents(i, ToolScriptOf(tools[i - from])) else []
  }

  lemma BlockOnIndexStep(tools: seq<ToolUseSse>, from: nat, i: u32)
    requires tools != []
    ensures i == from ==> BlockOnIndex(tools, from, i) == ScriptEvents(i, ToolScriptOf(tools[0])) && BlockOnIndex(tools[1..], from + 1, i) == []
    ensures i != from ==> BlockOnIndex(tools, from, i) == BlockOnIndex(tools[1..], from + 1, i)
  {
  }

  lemma {:induction false} BlockEventsOnIndex(tools: seq<ToolUseSse>, from: nat, i: u32)
    requires from + |tools| <= 0x1_0000_0000
    ensures OnIndex(BlockEvents(tools, from), i) == BlockOnIndex(tools, from, i)
    decreases |tools|
  {
    if tools != [] {
      BlockEventsOnIndex(tools[1..], from + 1, i);
      BlockOnIndexStep(tools, from, i);
      HeadOnIndex(from, tools[0], BlockEvents(tools[1..], from + 1), i);
    }
  }

  lemma HeadOnIndex(index: u32, tool: ToolUseSse, rest: seq<StreamEvent>, i: u32)
    ensures var head := ScriptEvents(index, ToolScriptOf(tool));
            OnIndex(head + rest, i) == (if i == index then head else []) + OnIndex(rest, i)
    ensures i != index ==> [] + OnIndex(rest, i) == OnIndex(rest, i)
    ensures ScriptEvents(index, ToolScriptOf(tool)) + [] == ScriptEvents(index, ToolScriptOf(tool))
  {
    var head := ScriptEvents(index, ToolScriptOf(tool));
    DeltasOnIndex(index, JsonDeltas(tool.parts));
    OnOneIndex(head, index, i);
    OnIndexConcat(head, rest, i);
  }

  lemma {:induction false} BlockEventsIndexed(tools: seq<ToolUseSse>, from: nat)
    requires from + |tools| <= 0x1_0000_0000
    ensures forall e | e in BlockEvents(tools, from) :: EventIndex(e).Some?
    decreases |tools|
  {
    if tools != [] {
      DeltasOnIndex(from, JsonDeltas(tools[0].parts));
      BlockEventsIndexed(tools[1..], from + 1);
    }
  }

  lemma {:induction false} GlobalConcat(a: seq<StreamEvent>, b: seq<StreamEvent>)
    ensures Global(a + b) == Global(a) + Global(b)
  {
    if a == [] {
      assert a + b == b;
    } else {
      assert (a + b)[1..] == a[1..] + b;
      GlobalConcat(a[1..], b);
    }
  }

  lemma {:induction false} NoneGlobal(es: seq<StreamEvent>)
    requires forall e | e in es :: EventIndex(e).Some?
    ensures Global(es) == []
  {
    if es != [] {
      assert es[0] in es;
      NoneGlobal(es[1..]);
    }
  }

  /** The events of a streamed reply before its stop. */
  function OpenEvents(tools: seq<ToolUseSse>): seq<StreamEvent>
    requires |tools| <= 0x1_0000_0000
  {
    [OpeningEvent(tools)] + BlockEvents(tools, 0) + [CLOSING_EVENT]
  }

  lemma OpenEventsInterleave(tools: seq<ToolUseSse>)
    requires |tools| <= 0x1_0000_0000
    ensures MessageStop !in OpenEvents(tools) && Interleaves(OpenEvents(tools), Plan(tools))
    ensures Global(OpenEvents(tools)) == [OpeningEvent(tools), CLOSING_EVENT]
  {
    var open, blocks := [OpeningEvent(tools)], BlockEvents(tools, 0);
    BlockEventsIndexed(tools, 0);
    forall i: u32 ensures OnIndex(OpenEvents(tools), i) == OnIndex(blocks, i) {
      OnIndexConcat(open + blocks, [CLOSING_EVENT], i);
      OnIndexConcat(open, blocks, i);
      assert OnIndex(open, i) == [] && OnIndex([CLOSING_EVENT], i) == [];
    }
    forall i: u32 ensures OnIndex(OpenEvents(tools), i) == if i in Plan(tools) then ScriptEvents(i, Plan(tools)[i]) else [] {
      BlockEventsOnIndex(tools, 0, i);
    }
    GlobalConcat(open + blocks, [CLOSING_EVENT]);
    GlobalConcat(open, blocks);
    NoneGlobal(blocks);
    assert Global(open) == open && Global([CLOSING_EVENT]) == [CLOSING_EVENT];
  }

  lemma OpenHeader(tools: seq<ToolUseSse>, model: string, codec: JsonCodec)
    requires |tools| <= 0x1_0000_0000
    ensures HeaderOf(Fold(Start(model), OpenEvents(tools), codec)) ==
            Header(MessageId(tools), DEFAULT_MODEL, Some("tool_use"), Usage(12, 0, 0, 4), false)
  {
    OpenEventsInterleave(tools);
    FoldOnHeader(Start(model), Start(model), OpenEvents(tools), codec);
    var es := [OpeningEvent(tools), CLOSING_EVENT];
    var st := Step(Start(model), es[0], codec);
    assert es[1..] == [CLOSING_EVENT] && es[1..][1..] == [];
    assert Fold(Start(model), es, codec) == Fold(st, es[1..], codec);
    assert Fold(st, es[1..], codec) == Step(st, CLOSING_EVENT, codec);
  }

  /** A streamed reply, cut into chunks anywhere, is assembled into the content and the stop
      reason of the plain reply for the same tool calls. */
  lemma StreamedReplyMatchesPlain(
      sse: seq<ToolUseSse>, plain: seq<ToolUseMessage>, id: string, chunks: seq<bytes>, ctx: FrameContext, model: string)
    requires ctx.codec.Lawful() && sse != [] && |sse| <= 0x1_0000_0000 && SameTools(sse, plain, ctx.codec)
    requires Concat(chunks) == Encode(SseBody(ToolUseEvents(sse), ctx.codec))
    ensures var reply := ReplyTo(Delivered([], chunks, FrameReader(ctx)), model, ctx.codec);
            && reply.Streamed?
            && reply.message.content == ToolMessageResponseMany(id, plain).content
            && reply.message.stopReason == ToolMessageResponseMany(id, plain).stopReason
            && reply.message.model == ToolMessageResponseMany(id, plain).model
            && reply.message.id == "msg_" + plain[0].id
  {
    PrintedEventsArrive(ToolUseEvents(sse), chunks, ctx);
    ToolUseReply(sse, model, ctx.codec);
    PlanValues(sse, plain, id, ctx.codec);
  }

  /** What the events of a streamed reply come to, in whatever chunks they came. */
  lemma ToolUseReply(sse: seq<ToolUseSse>, model: string, codec: JsonCodec)
    requires |sse| <= 0x1_0000_0000
    ensures var content := Values(Outcomes(Plan(sse), codec));
            ReplyTo(Trace(ToolUseEvents(sse), None), model, codec) ==
            if content == [] then SentAgain
            else Streamed(MessageResponse(MessageId(sse), content, DEFAULT_MODEL, Some("tool_use"), Usage(12, 0, 0, 4)))
  {
    var open := OpenEvents(sse);
    assert ToolUseEvents(sse) == open + [MessageStop] + [];
    OpenEventsInterleave(sse);
    FoldToStop(Start(model), open, [], codec);
    InterleavedScripts(open, Plan(sse), model, codec);
    OpenHeader(sse, model, codec);
  }

  lemma PlanValues(sse: seq<ToolUseSse>, plain: seq<ToolUseMessage>, id: string, codec: JsonCodec)
    requires |sse| <= 0x1_0000_0000 && SameTools(sse, plain, codec)
    ensures Values(Outcomes(Plan(sse), codec)) == ToolMessageResponseMany(id, plain).content
  {
    var m := Outcomes(Plan(sse), codec);
    var vs := ToolMessageResponseMany(id, plain).content;
    forall i: u32 | i in Plan(sse) ensures Outcome(Plan(sse)[i], codec) == Some(vs[i]) {
      assert "" + Flat(sse[i].parts) == Flat(sse[i].parts);
    }
    ValuesOfIndices(m, vs);
  }

  /** A stream without tool calls has no content: the request is sent again. */
  lemma EmptyReplyIsSentAgain(chunks: seq<bytes>, ctx: FrameContext, model: string)
    requires ctx.codec.Lawful() && Concat(chunks) == Encode(SseBody(ToolUseEvents([]), ctx.codec))
    ensures ReplyTo(Delivered([], chunks, FrameReader(ctx)), model, ctx.codec) == SentAgain
  {
    PrintedEventsArrive(ToolUseEvents([]), chunks, ctx);
    ToolUseReply([], model, ctx.codec);
    PlanValues([], [], "", ctx.codec);
  }
}
