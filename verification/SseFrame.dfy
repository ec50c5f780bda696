/** How the text of one frame becomes an event: `parse_frame_with_provider`. */
module SseFrame {
  import opened Sequences
  import opened StreamTypes
  import opened Text
  import opened Wrappers

  /** A payload that is not the JSON of an event, with where it came from. */
  datatype ParseError = ParseError(provider: string, model: string, payload: string)

  /** Everything a frame is read with. */
  datatype FrameContext = FrameContext(codec: JsonCodec, provider: string, model: string)

  type Parsed = Result<Option<StreamEvent>, ParseError>

  /** The `event` name and the `data` lines of a frame. */
  datatype Fields = Fields(name: Option<string>, data: seq<string>)

  function ReadLine(f: Fields, line: string): Fields {
    if StartsWith(line, ":") then f
    else if StartsWith(line, "event:") then f.(name := Some(Trim(line[6..])))
    else if StartsWith(line, "data:") then f.(data := f.data + [TrimStart(line[5..])])
    else f
  }

  function ReadLines(f: Fields, lines: seq<string>): Fields
    decreases |lines|
  {
    if lines == [] then f else ReadLines(ReadLine(f, lines[0]), lines[1..])
  }

  function Interpret(f: Fields, ctx: FrameContext): Parsed {
    if f.name == Some("ping") || f.data == [] then Ok(None)
    else
      var payload := Join(f.data, "\n");
      if payload == "[DONE]" then Ok(None)
      else
        match ctx.codec.parseEvent(payload)
        case Some(e) => Ok(Some(e))
        case None => Err(ParseError(ctx.provider, ctx.model, payload))
  }

  function ParseFrame(frame: string, ctx: FrameContext): Parsed {
    var trimmed := Trim(frame);
    if trimmed == "" then Ok(None)
    else Interpret(ReadLines(Fields(None, []), Lines(trimmed)), ctx)
  }

  method ParseFrameLoop(frame: string, ctx: FrameContext) returns (r: Parsed)
    ensures r == ParseFrame(frame, ctx)
  {
    var trimmed := Trim(frame);
    if trimmed == "" {
      return Ok(None);
    }
    var dataLines: seq<string> := [];
    var eventName: Option<string> := None;
    var lines := Lines(trimmed);
    for i := 0 to |lines|
      invariant ReadLines(Fields(eventName, dataLines), lines[i..]) == ReadLines(Fields(None, []), lines)
    {
      var line := lines[i];
      assert lines[i..][1..] == lines[i + 1..];
      if StartsWith(line, ":") {
        continue;
      }
      if StartsWith(line, "event:") {
        eventName := Some(Trim(line[6..]));
        continue;
      }
      if StartsWith(line, "data:") {
        dataLines := dataLines + [TrimStart(line[5..])];
      }
    }
    if eventName == Some("ping") {
      return Ok(None);
    }
    if dataLines == [] {
      return Ok(None);
    }
    var payload := Join(dataLines, "\n");
    if payload == "[DONE]" {
      return Ok(None);
    }
    match ctx.codec.parseEvent(payload) {
      case Some(e) => return Ok(Some(e));
      case None => return Err(ParseError(ctx.provider, ctx.model, payload));
    }
  }

  // ----- Reading back a printed frame -----

  function DataLines(data: seq<string>): seq<string> {
    if data == [] then [] else ["data: " + data[0]] + DataLines(data[1..])
  }

  /** A frame as a server prints it: one `event` line, then one `data` line per piece. */
  function FrameText(name: string, data: seq<string>): string {
    Join(["event: " + name] + DataLines(data), "\n")
  }

  /** What is read of printed pieces: leading blanks are dropped, a carriage return at the
      end of a line, and all blanks at the end of the frame. */
  function ReadData(data: seq<string>): seq<string> {
    if data == [] then []
    else if |data| == 1 then [Trim(data[0])]
    else [TrimStart(DropCr(data[0]))] + ReadData(data[1..])
  }

  /** The lines of a trimmed text whose lines were these. */
  function Trimmed(lines: seq<string>, ws: char -> bool): seq<string> {
    if lines == [] then []
    else if |lines| == 1 then [TrimEndBy(lines[0], ws)]
    else [DropCr(lines[0])] + Trimmed(lines[1..], ws)
  }

  /** A line of its own that is not blank from its start. */
  predicate Starts(l: string, ws: char -> bool) {
    l != "" && !ws(l[0]) && '\n' !in l
  }

  lemma {:induction false} TrimmedLines(lines: seq<string>, ws: char -> bool)
    requires lines != [] && Starts(lines[0], ws) && forall l | l in lines :: Starts(l, ws)
    ensures var t := TrimEndBy(Join(lines, "\n"), ws);
            t != "" && t[0] == lines[0][0] && Lines(t) == Trimmed(lines, ws)
  {
    var l := lines[0];
    if |lines| == 1 {
      StartStays(l, ws);
      LinesOfOne(TrimEndBy(l, ws));
    } else {
      assert lines[1] in lines;
      TrimmedLines(lines[1..], ws);
      var rest := Join(lines[1..], "\n");
      TrimEndWhole(l + "\n", rest, ws);
      LinesOfMore(l, TrimEndBy(rest, ws));
    }
  }

  lemma StartStays(l: string, ws: char -> bool)
    requires Starts(l, ws)
    ensures TrimEndBy(l, ws) != "" && TrimEndBy(l, ws)[0] == l[0] && '\n' !in TrimEndBy(l, ws)
  {
    assert [l[0]] + l[1..] == l;
    TrimEndTail([l[0]], l[1..], ws);
    assert forall c | c in TrimEndBy(l, ws) :: c in l;
  }

  /** How a piece reads on a line behind a field name, inside the frame and at its end. */
  lemma PieceRead(field: string, s: string, ws: char -> bool)
    requires field != "" && !ws(field[|field| - 1]) && ws(' ') && ws('\r') && field[|field| - 1] != '\r'
    ensures DropCr(field + " " + s) == field + (" " + DropCr(s))
    ensures TrimEndBy(field + " " + s, ws) == field + TrimEndBy(" " + s, ws)
    ensures TrimStartBy(" " + DropCr(s), ws) == TrimStartBy(DropCr(s), ws)
    ensures TrimStartBy(TrimEndBy(" " + s, ws), ws) == TrimBy(s, ws)
    ensures TrimBy(" " + DropCr(s), ws) == TrimBy(s, ws) && TrimBy(TrimEndBy(" " + s, ws), ws) == TrimBy(s, ws)
  {
    assert field + " " + s == field + (" " + s);
    DropCrBehind(field, s);
    TrimEndTail(field, " " + s, ws);
    TrimStartDrops(' ', s, ws);
    TrimStartDrops(' ', DropCr(s), ws);
    TrimCommutes(" " + s, ws);
    DropCrTrimmed(s, ws);
    TrimmedTwice(" " + s, ws);
  }

  lemma DropCrBehind(field: string, s: string)
    requires field != ""
    ensures DropCr(field + " " + s) == field + (" " + DropCr(s))
  {
    var line := field + " " + s;
    if s != "" {
      assert line[|line| - 1] == s[|s| - 1] && line[..|line| - 1] == field + (" " + s[..|s| - 1]);
    }
    assert line == field + (" " + s);
  }

  lemma DropCrTrimmed(s: string, ws: char -> bool)
    requires ws('\r')
    ensures TrimBy(DropCr(s), ws) == TrimBy(s, ws)
  {
    CrBehind(s);
    if s != DropCr(s) {
      TrimDropsLast(DropCr(s), '\r', ws);
    }
  }

  lemma CrBehind(s: string)
    ensures s == DropCr(s) || s == DropCr(s) + ['\r']
  {
  }

  lemma TrimEndTwice(s: string, ws: char -> bool)
    ensures TrimEndBy(TrimEndBy(s, ws), ws) == TrimEndBy(s, ws)
  {
    TrimEndStops(s, ws);
    TrimEndKeeps(TrimEndBy(s, ws), ws);
  }

  lemma TrimmedTwice(s: string, ws: char -> bool)
    ensures TrimBy(TrimEndBy(s, ws), ws) == TrimBy(s, ws)
  {
    TrimEndTwice(s, ws);
    TrimCommutes(TrimEndBy(s, ws), ws);
    TrimCommutes(s, ws);
  }

  lemma EventLineRead(f: Fields, name: string)
    ensures ReadLine(f, DropCr("event: " + name)) == f.(name := Some(Trim(name)))
    ensures ReadLine(f, TrimEndBy("event: " + name, IsWhitespace)) == f.(name := Some(Trim(name)))
  {
    var field := "event:";
    assert "event: " + name == field + " " + name;
    PieceRead(field, name, IsWhitespace);
    EventLine(f, " " + DropCr(name));
    EventLine(f, TrimEndBy(" " + name, IsWhitespace));
  }

  lemma OtherField(line: string, prefix: string)
    requires line != "" && prefix != "" && line[0] != prefix[0]
    ensures !StartsWith(line, prefix)
  {
  }

  lemma EventLine(f: Fields, value: string)
    ensures ReadLine(f, "event:" + value) == f.(name := Some(Trim(value)))
  {
    var e := "event:" + value;
    assert e[..6] == "event:" && e[6..] == value && e[0] == 'e';
    OtherField(e, ":");
  }

  lemma DataLine(f: Fields, value: string)
    ensures ReadLine(f, "data:" + value) == f.(data := f.data + [TrimStart(value)])
  {
    var d := "data:" + value;
    assert d[..5] == "data:" && d[5..] == value && d[0] == 'd';
    OtherField(d, ":");
    OtherField(d, "event:");
  }

  lemma DataLineRead(f: Fields, s: string)
    ensures ReadLine(f, DropCr("data: " + s)) == f.(data := f.data + [TrimStart(DropCr(s))])
    ensures ReadLine(f, TrimEndBy("data: " + s, IsWhitespace)) == f.(data := f.data + [Trim(s)])
  {
    var field := "data:";
    assert "data: " + s == field + " " + s;
    PieceRead(field, s, IsWhitespace);
    DataLine(f, " " + DropCr(s));
    DataLine(f, TrimEndBy(" " + s, IsWhitespace));
  }

  lemma {:induction false} DataLinesRead(f: Fields, data: seq<string>)
    ensures ReadLines(f, Trimmed(DataLines(data), IsWhitespace)) == f.(data := f.data + ReadData(data))
    decreases |data|
  {
    if data == [] {
      assert f.data + [] == f.data;
    } else {
      DataLineRead(f, data[0]);
      DataLinesCount(data);
      var lines := Trimmed(DataLines(data), IsWhitespace);
      if |data| == 1 {
        OneLine(f, lines[0]);
      } else {
        var first := TrimStart(DropCr(data[0]));
        var rest := Trimmed(DataLines(data[1..]), IsWhitespace);
        DataLinesRead(f.(data := f.data + [first]), data[1..]);
        HeadTail(lines[0], rest, []);
        ConcatAssociative(f.data, [first], ReadData(data[1..]));
      }
    }
  }

  lemma OneLine(f: Fields, line: string)
    ensures ReadLines(f, [line]) == ReadLine(f, line)
  {
    var lines := [line];
    assert lines[1..] == [];
  }

  lemma DataLinesCount(data: seq<string>)
    requires data != []
    ensures |DataLines(data)| >= 1 && DataLines(data)[0] == "data: " + data[0]
    ensures DataLines(data)[1..] == DataLines(data[1..])
    ensures |data| > 1 ==> |DataLines(data)| > 1
    ensures |data| == 1 ==> |DataLines(data)| == 1
  {
    if |data| > 1 {
      assert DataLines(data[1..]) != [];
    }
  }

  lemma {:induction false} DataLinesStart(data: seq<string>)
    requires forall s | s in data :: '\n' !in s
    ensures forall l | l in DataLines(data) :: Starts(l, IsWhitespace)
  {
    if data != [] {
      DataLinesStart(data[1..]);
      FieldStarts("data: ", data[0]);
    }
  }

  lemma FieldStarts(p: string, s: string)
    requires p != "" && !IsWhitespace(p[0]) && '\n' !in p && '\n' !in s
    ensures Starts(p + s, IsWhitespace)
  {
  }

  /** A printed frame, whatever its name and pieces, reads back as its trimmed name and the
      pieces as they are read. */
  lemma FrameFields(name: string, data: seq<string>)
    requires '\n' !in name && forall s | s in data :: '\n' !in s
    ensures var t := Trim(FrameText(name, data));
            t != "" && ReadLines(Fields(None, []), Lines(t)) == Fields(Some(Trim(name)), ReadData(data))
  {
    var lines := ["event: " + name] + DataLines(data);
    FieldStarts("event: ", name);
    DataLinesStart(data);
    forall l | l in lines ensures Starts(l, IsWhitespace) {
      assert l == lines[0] || l in DataLines(data);
    }
    TrimmedLines(lines, IsWhitespace);
    JoinStarts(lines);
    TrimStartKeeps(Join(lines, "\n"), IsWhitespace);
    FrameLinesRead(Fields(None, []), name, data);
  }

  lemma JoinStarts(lines: seq<string>)
    requires lines != [] && Starts(lines[0], IsWhitespace)
    ensures Join(lines, "\n") != "" && Join(lines, "\n")[0] == lines[0][0]
  {
  }

  lemma FrameLinesRead(f: Fields, name: string, data: seq<string>)
    requires f.data == []
    ensures ReadLines(f, Trimmed(["event: " + name] + DataLines(data), IsWhitespace)) == Fields(Some(Trim(name)), ReadData(data))
  {
    var lines := ["event: " + name] + DataLines(data);
    EventLineRead(f, name);
    var named := f.(name := Some(Trim(name)));
    DataLinesRead(named, data);
    assert named.data + ReadData(data) == ReadData(data);
    HeadTail("event: " + name, DataLines(data), []);
    if data == [] {
      assert lines == ["event: " + name];
      OneLine(f, TrimEndBy("event: " + name, IsWhitespace));
    } else {
      DataLinesCount(data);
      HeadTail(DropCr("event: " + name), Trimmed(DataLines(data), IsWhitespace), []);
    }
  }

  /** What a printed frame means is decided by its name and its pieces as they are read. */
  lemma PrintedFrameMeans(name: string, data: seq<string>, ctx: FrameContext)
    requires '\n' !in name && forall s | s in data :: '\n' !in s
    ensures ParseFrame(FrameText(name, data), ctx) ==
            var payload := Join(ReadData(data), "\n");
            if Trim(name) == "ping" || data == [] || payload == "[DONE]" then Ok(None)
            else match ctx.codec.parseEvent(payload)
                 case Some(e) => Ok(Some(e))
                 case None => Err(ParseError(ctx.provider, ctx.model, payload))
  {
    FrameFields(name, data);
    ParsedFields(FrameText(name, data), Fields(Some(Trim(name)), ReadData(data)), ctx);
    ReadDataCount(data);
    FieldsMean(Trim(name), ReadData(data), ctx);
  }

  lemma ParsedFields(frame: string, f: Fields, ctx: FrameContext)
    requires Trim(frame) != "" && ReadLines(Fields(None, []), Lines(Trim(frame))) == f
    ensures ParseFrame(frame, ctx) == Interpret(f, ctx)
  {
  }

  lemma {:induction false} ReadDataCount(data: seq<string>)
    ensures |ReadData(data)| == |data|
  {
    if |data| > 1 {
      ReadDataCount(data[1..]);
    }
  }

  lemma FieldsMean(name: string, data: seq<string>, ctx: FrameContext)
    ensures Interpret(Fields(Some(name), data), ctx) ==
            var payload := Join(data, "\n");
            if name == "ping" || data == [] || payload == "[DONE]" then Ok(None)
            else match ctx.codec.parseEvent(payload)
                 case Some(e) => Ok(Some(e))
                 case None => Err(ParseError(ctx.provider, ctx.model, payload))
  {
  }

  /** Text on one line that is not trimmed there. */
  predicate LineText(s: string) {
    s != "" && !IsWhitespace(s[0]) && !IsWhitespace(s[|s| - 1]) && '\n' !in s && '\r' !in s
  }

  lemma LineTextKept(s: string)
    requires LineText(s)
    ensures Trim(s) == s
  {
    TrimStartKeeps(s, IsWhitespace);
    TrimEndKeeps(s, IsWhitespace);
  }

  /** A frame of one piece that is not trimmed, and that is an event, is read as that event. */
  lemma OnePieceRead(name: string, payload: string, e: StreamEvent, ctx: FrameContext)
    requires '\n' !in name && Trim(name) != "ping" && LineText(payload) && payload != "[DONE]"
    requires ctx.codec.parseEvent(payload) == Some(e)
    ensures ParseFrame(FrameText(name, [payload]), ctx) == Ok(Some(e))
  {
    PrintedFrameMeans(name, [payload], ctx);
    OnePieceJoined(payload);
  }

  lemma OnePieceJoined(payload: string)
    requires LineText(payload)
    ensures Join(ReadData([payload]), "\n") == payload
  {
    LineTextKept(payload);
  }

  /** Comment lines and unknown fields never change what a list of lines means. */
  lemma {:induction false} IgnoredLine(f: Fields, before: seq<string>, line: string, after: seq<string>)
    requires StartsWith(line, ":") || !(StartsWith(line, "event:") || StartsWith(line, "data:"))
    ensures ReadLines(f, before + [line] + after) == ReadLines(f, before + after)
    decreases |before|
  {
    if before == [] {
      assert ([] + [line] + after)[1..] == after && [] + after == after;
    } else {
      assert (before + [line] + after)[1..] == before[1..] + [line] + after;
      assert (before + after)[1..] == before[1..] + after;
      IgnoredLine(ReadLine(f, before[0]), before[1..], line, after);
    }
  }

  lemma {:induction false} ReadLinesConcat(f: Fields, a: seq<string>, b: seq<string>)
    ensures ReadLines(f, a + b) == ReadLines(ReadLines(f, a), b)
    decreases |a|
  {
    if a == [] {
      assert a + b == b;
    } else {
      assert (a + b)[1..] == a[1..] + b;
      ReadLinesConcat(ReadLine(f, a[0]), a[1..], b);
    }
  }

  /** The last `event` line names the frame, and every `data` line adds to its payload. */
  lemma LastLineDecides(f: Fields, before: seq<string>, value: string)
    ensures ReadLines(f, before + ["event:" + value]) == ReadLines(f, before).(name := Some(Trim(value)))
    ensures var g := ReadLines(f, before);
            ReadLines(f, before + ["data:" + value]) == g.(data := g.data + [TrimStart(value)])
  {
    var g := ReadLines(f, before);
    ReadLinesConcat(f, before, ["event:" + value]);
    ReadLinesConcat(f, before, ["data:" + value]);
    OneLine(g, "event:" + value);
    OneLine(g, "data:" + value);
    EventLine(g, value);
    DataLine(g, value);
  }
}
