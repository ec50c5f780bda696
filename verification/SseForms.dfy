/** Other forms of the stream than the mock service's: frames without an event line, and
    lines that end in CRLF. */
module SseForms {
  import opened Machine
  import opened MockService
  import opened Sequences
  import opened SseFrame
  import opened SseFraming
  import opened SseStream
  import opened StreamTypes
  import opened Text
  import opened Utf8
  import opened Wrappers

  // ----- Frames without an event line -----

  lemma DataFieldsRead(data: seq<string>)
    requires data != [] && forall s | s in data :: '\n' !in s
    ensures var t := Trim(Join(DataLines(data), "\n"));
            t != "" && ReadLines(Fields(None, []), Lines(t)) == Fields(None, ReadData(data))
  {
    var lines := DataLines(data);
    DataLinesCount(data);
    DataLinesStart(data);
    assert lines[0] in lines;
    TrimmedLines(lines, IsWhitespace);
    JoinStarts(lines);
    TrimStartKeeps(Join(lines, "\n"), IsWhitespace);
    DataLinesRead(Fields(None, []), data);
    assert [] + ReadData(data) == ReadData(data);
  }

  lemma NamelessMeans(data: seq<string>, ctx: FrameContext)
    ensures Interpret(Fields(None, data), ctx) ==
            var payload := Join(data, "\n");
            if data == [] || payload == "[DONE]" then Ok(None)
            else match ctx.codec.parseEvent(payload)
                 case Some(e) => Ok(Some(e))
                 case None => Err(ParseError(ctx.provider, ctx.model, payload))
  {
  }

  /** A frame of data lines alone, such as `data: [DONE]`, means what its pieces decide. */
  lemma DataFrameMeans(data: seq<string>, ctx: FrameContext)
    requires data != [] && forall s | s in data :: '\n' !in s
    ensures ParseFrame(Join(DataLines(data), "\n"), ctx) ==
            var payload := Join(ReadData(data), "\n");
            if payload == "[DONE]" then Ok(None)
            else match ctx.codec.parseEvent(payload)
                 case Some(e) => Ok(Some(e))
                 case None => Err(ParseError(ctx.provider, ctx.model, payload))
  {
    DataFieldsRead(data);
    ParsedFields(Join(DataLines(data), "\n"), Fields(None, ReadData(data)), ctx);
    ReadDataCount(data);
    NamelessMeans(ReadData(data), ctx);
  }

  // ----- Lines that end in CRLF -----

  /** Every line but the last with a carriage return behind it. */
  function WithCr(lines: seq<string>): seq<string> {
    if |lines| <= 1 then lines else [lines[0] + "\r"] + WithCr(lines[1..])
  }

  lemma {:induction false} JoinedByCrlf(lines: seq<string>, lf: string, crlf: string)
    requires lf == "\n" && crlf == "\r\n"
    ensures Join(lines, crlf) == Join(WithCr(lines), lf) && |WithCr(lines)| == |lines|
  {
    if |lines| > 1 {
      JoinedByCrlf(lines[1..], lf, crlf);
      HeadTail(lines[0] + "\r", WithCr(lines[1..]), []);
      assert lines[0] + crlf == lines[0] + "\r" + lf;
    }
  }

  lemma {:induction false} CrDropped(lines: seq<string>, ws: char -> bool)
    requires forall l | l in lines :: '\r' !in l
    ensures Trimmed(WithCr(lines), ws) == Trimmed(lines, ws) && |WithCr(lines)| == |lines|
  {
    if |lines| > 1 {
      CrDropped(lines[1..], ws);
      HeadTail(lines[0] + "\r", WithCr(lines[1..]), []);
      assert lines[0] in lines;
      assert (lines[0] + "\r")[..|lines[0]|] == lines[0];
    }
  }

  lemma {:induction false} CrStarts(lines: seq<string>, ws: char -> bool)
    requires forall l | l in lines :: Starts(l, ws)
    ensures forall l | l in WithCr(lines) :: Starts(l, ws)
    ensures lines != [] ==> WithCr(lines) != []
  {
    if |lines| > 1 {
      assert lines[0] in lines && Starts(lines[0] + "\r", ws);
      CrStarts(lines[1..], ws);
    }
  }

  lemma LinesParsed(lines: seq<string>, ctx: FrameContext)
    requires lines != [] && forall l | l in lines :: Starts(l, IsWhitespace)
    ensures ParseFrame(Join(lines, "\n"), ctx) == Interpret(ReadLines(Fields(None, []), Trimmed(lines, IsWhitespace)), ctx)
  {
    assert lines[0] in lines;
    TrimmedLines(lines, IsWhitespace);
    JoinStarts(lines);
    TrimStartKeeps(Join(lines, "\n"), IsWhitespace);
    ParsedFields(Join(lines, "\n"), ReadLines(Fields(None, []), Trimmed(lines, IsWhitespace)), ctx);
  }

  /** Lines of whatever kind mean the same with CRLF between them as with LF. */
  lemma CrlfMeansLf(lines: seq<string>, ctx: FrameContext)
    requires lines != [] && forall l | l in lines :: Starts(l, IsWhitespace) && '\r' !in l
    ensures ParseFrame(Join(lines, "\r\n"), ctx) == ParseFrame(Join(lines, "\n"), ctx)
  {
    JoinedByCrlf(lines, "\n", "\r\n");
    CrDropped(lines, IsWhitespace);
    CrStarts(lines, IsWhitespace);
    LinesParsed(lines, ctx);
    LinesParsed(WithCr(lines), ctx);
  }

  /** A printed event whose lines end in CRLF. */
  function CrlfFrame(e: StreamEvent, codec: JsonCodec): string {
    "event: " + EventName(e) + ("\r\n" + ("data: " + codec.printEvent(e)))
  }

  function CrlfText(e: StreamEvent, codec: JsonCodec): string {
    CrlfFrame(e, codec) + "\r\n\r\n"
  }

  function CrlfBody(es: seq<StreamEvent>, codec: JsonCodec): string {
    if es == [] then "" else CrlfText(es[0], codec) + CrlfBody(es[1..], codec)
  }

  function CrlfFrames(es: seq<StreamEvent>, codec: JsonCodec): seq<bytes> {
    if es == [] then [] else [Encode(CrlfFrame(es[0], codec))] + CrlfFrames(es[1..], codec)
  }

  /** The carriage return of a first line reads as part of its value. */
  lemma FrameForm(name: string, payload: string)
    ensures FrameText(name + "\r", [payload]) == "event: " + name + ("\r\n" + ("data: " + payload))
  {
    var first, second := "event: " + (name + "\r"), "data: " + payload;
    assert [payload][1..] == [];
    assert DataLines([payload]) == [second];
    assert [first] + [second] == [first, second] && [first, second][1..] == [second];
    assert Join([first, second], "\n") == first + "\n" + second;
    CrlfBetween("event: ", name, second);
  }

  lemma CrlfBetween(field: string, name: string, second: string)
    ensures field + (name + "\r") + "\n" + second == field + name + ("\r\n" + second)
  {
    assert ['\r'] + ['\n'] == "\r\n";
  }

  lemma CarriageReturnTrimmed(name: string)
    requires LineText(name)
    ensures Trim(name + "\r") == name
  {
    TrimStartKeeps(name + "\r", IsWhitespace);
    assert (name + "\r")[..|name|] == name;
    TrimEndKeeps(name, IsWhitespace);
  }

  lemma CrlfReadsBack(e: StreamEvent, ctx: FrameContext)
    requires ctx.codec.Lawful()
    ensures FrameReader(ctx)(Encode(CrlfFrame(e, ctx.codec))) == Ok(Some(e))
  {
    var payload := ctx.codec.printEvent(e);
    PayloadIsLine(e, ctx.codec);
    DecodeEncode(CrlfFrame(e, ctx.codec));
    FrameForm(EventName(e), payload);
    CarriageReturnTrimmed(EventName(e));
    OnePieceRead(EventName(e) + "\r", payload, e, ctx);
  }

  lemma {:induction false} CrlfFramesReadBack(es: seq<StreamEvent>, ctx: FrameContext, read: Reader)
    requires forall e :: read(Encode(CrlfFrame(e, ctx.codec))) == Ok(Some(e))
    ensures FrameTrace(CrlfFrames(es, ctx.codec), read) == Trace(es, None)
  {
    if es != [] {
      CrlfFramesReadBack(es[1..], ctx, read);
      HeadTail(Encode(CrlfFrame(es[0], ctx.codec)), CrlfFrames(es[1..], ctx.codec), []);
      assert [es[0]] + es[1..] == es;
    }
  }

  /** Every line feed stands behind a carriage return. */
  predicate OnlyCrlf(s: bytes) {
    forall i | 0 <= i < |s| && s[i] == 10 :: i > 0 && s[i - 1] == 13
  }

  lemma OnlyCrlfConcat(a: bytes, b: bytes)
    requires OnlyCrlf(a) && OnlyCrlf(b)
    ensures OnlyCrlf(a + b)
  {
    forall i | 0 <= i < |a + b| && (a + b)[i] == 10 ensures i > 0 && (a + b)[i - 1] == 13 {
      if i >= |a| {
        assert b[i - |a|] == 10;
      }
    }
  }

  lemma NoLfLf(s: bytes)
    requires OnlyCrlf(s)
    ensures Find(s, LF_LF) == None && SeparatorsOrdered(s)
  {
    forall i: nat ensures !At(s, LF_LF, i) {
      if i + 2 <= |s| {
        var two := s[i..i + 2];
        assert two[0] == s[i] && two[1] == s[i + 1];
      }
    }
    FindIsFirst(s, LF_LF, None);
  }

  /** The bytes of one printed event: two lines without line ends, with CRLF between them and
      CRLF CRLF behind. */
  lemma CrlfBytes(e: StreamEvent, codec: JsonCodec) returns (a: bytes, b: bytes)
    requires codec.Lawful()
    ensures 10 !in a && 10 !in b && 13 !in a && 13 !in b && b != []
    ensures Encode(CrlfFrame(e, codec)) == a + [13, 10] + b
    ensures Encode(CrlfText(e, codec)) == a + [13, 10] + b + CRLF_CRLF
  {
    var first, second := "event: " + EventName(e), "data: " + codec.printEvent(e);
    PayloadIsLine(e, codec);
    a, b := Encode(first), Encode(second);
    EncodeKeepsOut(first, 10);
    EncodeKeepsOut(second, 10);
    EncodeKeepsOut(first, 13);
    EncodeKeepsOut(second, 13);
    CrlfLines(first, second);
  }

  lemma CrlfLines(first: string, second: string)
    ensures var t := first + ("\r\n" + second);
            && Encode(t) == Encode(first) + [13, 10] + Encode(second)
            && Encode(t + "\r\n\r\n") == Encode(first) + [13, 10] + Encode(second) + CRLF_CRLF
  {
    EncodeEnds();
    EncodeConcat(first, "\r\n" + second);
    EncodeConcat("\r\n", second);
    EncodeConcat(first + ("\r\n" + second), "\r\n\r\n");
  }

  lemma EncodeEnds()
    ensures Encode("\r\n") == [13, 10] && Encode("\r\n\r\n") == CRLF_CRLF
  {
    assert "\r\n"[1..] == "\n" && "\n"[1..] == "";
    assert "\r\n" + "\r\n" == "\r\n\r\n";
    EncodeConcat("\r\n", "\r\n");
  }

  lemma OnlyCrlfText(a: bytes, b: bytes)
    requires 10 !in a && 10 !in b
    ensures OnlyCrlf(a + [13, 10] + b + CRLF_CRLF)
  {
    assert OnlyCrlf(a) && OnlyCrlf(b) && OnlyCrlf([13, 10]) && OnlyCrlf(CRLF_CRLF);
    OnlyCrlfConcat(a, [13, 10]);
    OnlyCrlfConcat(a + [13, 10], b);
    OnlyCrlfConcat(a + [13, 10] + b, CRLF_CRLF);
  }

  lemma FirstCrlf(a: bytes, b: bytes, tail: bytes)
    requires 13 !in a && 13 !in b && b != []
    ensures Find(a + [13, 10] + b + CRLF_CRLF + tail, CRLF_CRLF) == Some(|a| + 2 + |b|)
  {
    var s := a + [13, 10] + b + CRLF_CRLF + tail;
    var p := |a| + 2 + |b|;
    assert s[p..p + 4] == CRLF_CRLF;
    forall i: nat | i < p ensures !At(s, CRLF_CRLF, i) {
      var four := s[i..i + 4];
      assert four[0] == s[i] && four[2] == s[i + 2];
      assert i < |a| ==> s[i] == a[i];
      assert i == |a| ==> s[i + 2] == b[0];
      assert i >= |a| + 2 ==> s[i] == b[i - |a| - 2];
    }
    FindIsFirst(s, CRLF_CRLF, Some(p));
  }

  lemma CrlfFirst(e: StreamEvent, codec: JsonCodec, tail: bytes)
    requires codec.Lawful() && OnlyCrlf(tail)
    ensures OnlyCrlf(Encode(CrlfText(e, codec)) + tail)
    ensures var d := Drain(Encode(CrlfText(e, codec)) + tail);
            d.rest == Drain(tail).rest && FramesOf(d.cuts) == [Encode(CrlfFrame(e, codec))] + FramesOf(Drain(tail).cuts)
  {
    var a, b := CrlfBytes(e, codec);
    OnlyCrlfText(a, b);
    OnlyCrlfConcat(a + [13, 10] + b + CRLF_CRLF, tail);
    FirstCrlf(a, b, tail);
    NoLfLf(a + [13, 10] + b + CRLF_CRLF + tail);
    CutCrlf(a + [13, 10] + b, tail);
  }

  lemma CutCrlf(frame: bytes, tail: bytes)
    requires Separator(frame + CRLF_CRLF + tail) == Some((|frame|, CRLF_CRLF))
    ensures var d := Drain(frame + CRLF_CRLF + tail);
            d.rest == Drain(tail).rest && FramesOf(d.cuts) == [frame] + FramesOf(Drain(tail).cuts)
  {
    var s := frame + CRLF_CRLF + tail;
    SseFraming.DrainFirst(s, |frame|, CRLF_CRLF);
    assert s[..|frame|] == frame && s[|frame| + 4..] == tail;
    FramesBehind(Cut(frame, CRLF_CRLF), Drain(tail));
  }

  lemma {:induction false} CrlfDrains(es: seq<StreamEvent>, codec: JsonCodec)
    requires codec.Lawful()
    ensures OnlyCrlf(Encode(CrlfBody(es, codec)))
    ensures var d := Drain(Encode(CrlfBody(es, codec)));
            d.rest == [] && FramesOf(d.cuts) == CrlfFrames(es, codec)
  {
    if es == [] {
      assert Drain([]) == Drained([], []);
    } else {
      CrlfDrains(es[1..], codec);
      EncodeConcat(CrlfText(es[0], codec), CrlfBody(es[1..], codec));
      CrlfFirst(es[0], codec, Encode(CrlfBody(es[1..], codec)));
    }
  }

  /** Events printed with CRLF at the end of each line arrive just so, cut anywhere. */
  lemma CrlfEventsArrive(es: seq<StreamEvent>, chunks: seq<bytes>, ctx: FrameContext)
    requires ctx.codec.Lawful() && Concat(chunks) == Encode(CrlfBody(es, ctx.codec))
    ensures Delivered([], chunks, FrameReader(ctx)) == Trace(es, None)
  {
    var s, read := Encode(CrlfBody(es, ctx.codec)), FrameReader(ctx);
    forall e ensures read(Encode(CrlfFrame(e, ctx.codec))) == Ok(Some(e)) {
      CrlfReadsBack(e, ctx);
    }
    CrlfDrains(es, ctx.codec);
    NoLfLf(s);
    assert StreamFrames(Drain(s)) == CrlfFrames(es, ctx.codec);
    CrlfFramesReadBack(es, ctx, read);
    NothingLostThen(s, chunks, read);
  }
}
