/** `SseParser` and the client stream that pulls chunks through it one event at a time. */
module SseStream {
  import opened Machine
  import opened Sequences
  import opened SseFrame
  import opened SseFraming
  import opened StreamTypes
  import opened Utf8
  import opened Wrappers

  type Events = Result<seq<StreamEvent>, ParseError>

  /** What a parser does with the bytes of one frame. */
  type Reader = bytes -> Parsed

  /** Decoding, then reading the frame text with the given provider and model. */
  function FrameReader(ctx: FrameContext): Reader {
    (frame: bytes) => ParseFrame(DecodeLossy(frame), ctx)
  }

  function EventOf(o: Option<StreamEvent>): seq<StreamEvent> {
    match o
    case Some(e) => [e]
    case None => []
  }

  /** Events already collected, in front of an outcome; an error forgets them. */
  function Prepend(es: seq<StreamEvent>, r: Events): Events {
    match r
    case Ok(more) => Ok(es + more)
    case Err(e) => Err(e)
  }

  /** The first frame of a buffer, and the buffer without it and its separator. */
  function FirstFrame(b: bytes): (r: (Option<bytes>, bytes))
    ensures r.0.Some? ==> |r.1| < |b|
  {
    match Separator(b)
    case None => (None, b)
    case Some((p, sep)) => (Some(b[..p]), b[p + |sep|..])
  }

  /** The outcome of one `push` that found `b` in the buffer, and the buffer it leaves. */
  function PushOutcome(b: bytes, read: Reader): (Events, bytes)
    decreases |b|, 0
  {
    var (frame, rest) := FirstFrame(b);
    if frame.None? then (Ok([]), rest) else AfterFrame([], frame.value, rest, read)
  }

  /** With `events` collected and `frame` just cut off: the rest of the push. */
  function AfterFrame(events: seq<StreamEvent>, frame: bytes, rest: bytes, read: Reader): (Events, bytes)
    decreases |rest|, 1
  {
    match read(frame)
    case Err(e) => (Err(e), rest)
    case Ok(o) => (Prepend(events + EventOf(o), PushOutcome(rest, read).0), PushOutcome(rest, read).1)
  }

  function FinishOutcome(b: bytes, read: Reader): Events {
    if b == [] then Ok([])
    else
      match read(b)
      case Err(e) => Err(e)
      case Ok(o) => Ok(EventOf(o))
  }

  /** The parser: a byte buffer, and how it reads a frame. Its provider and model only
      go into the errors of that reading, so they are kept as part of it. */
  class SseParser {
    var buffer: bytes
    var read: Reader
    const codec: JsonCodec

    constructor (codec: JsonCodec)
      ensures buffer == [] && this.codec == codec
      ensures read == FrameReader(FrameContext(codec, "unknown", "unknown"))
    {
      buffer := [];
      read := FrameReader(FrameContext(codec, "unknown", "unknown"));
      this.codec := codec;
    }

    method WithContext(provider: string, model: string)
      modifies this`read
      ensures read == FrameReader(FrameContext(codec, provider, model))
    {
      read := FrameReader(FrameContext(codec, provider, model));
    }

    method NextFrame() returns (frame: Option<bytes>)
      modifies this`buffer
      ensures (frame, buffer) == FirstFrame(old(buffer))
    {
      var separator := Separator(buffer);
      match separator {
        case None =>
          frame := None;
        case Some((position, sep)) =>
          var drained := buffer[..position + |sep|];
          buffer := buffer[position + |sep|..];
          SliceOfTake(old(buffer), position, position + |sep|);
          frame := Some(drained[..|drained| - |sep|]);
      }
    }

    method Push(chunk: bytes) returns (r: Events)
      modifies this`buffer
      ensures (r, buffer) == PushOutcome(old(buffer) + chunk, read)
    {
      buffer := buffer + chunk;
      ghost var b := buffer;
      var events: seq<StreamEvent> := [];
      var frame := NextFrame();
      while frame.Some?
        invariant frame.None? ==> PushOutcome(b, read) == (Ok(events), buffer)
        invariant frame.Some? ==> PushOutcome(b, read) == AfterFrame(events, frame.value, buffer, read)
        decreases |buffer|, if frame.Some? then 1 else 0
      {
        ghost var rest := buffer;
        var parsed := read(frame.value);
        match parsed {
          case Err(e) =>
            return Err(e);
          case Ok(None) =>
            assert events + EventOf(None) == events;
          case Ok(Some(e)) =>
            events := events + [e];
        }
        frame := NextFrame();
        PrependTwice(events, rest, read);
      }
      return Ok(events);
    }

    method Finish() returns (r: Events)
      modifies this`buffer
      ensures r == FinishOutcome(old(buffer), read) && buffer == []
    {
      if buffer == [] {
        return Ok([]);
      }
      var trailing := buffer;
      buffer := [];
      var parsed := read(trailing);
      match parsed {
        case Err(e) => return Err(e);
        case Ok(o) => return Ok(EventOf(o));
      }
    }
  }

  /** Collecting the events of a push one frame at a time. */
  lemma PrependTwice(es: seq<StreamEvent>, b: bytes, read: Reader)
    ensures var (frame, rest) := FirstFrame(b);
            (Prepend(es, PushOutcome(b, read).0), PushOutcome(b, read).1) ==
            if frame.None? then (Ok(es), rest) else AfterFrame(es, frame.value, rest, read)
  {
    var (frame, rest) := FirstFrame(b);
    if frame.None? {
      assert es + [] == es;
    } else {
      var parsed := read(frame.value);
      var r := PushOutcome(rest, read).0;
      if parsed.Ok? && r.Ok? {
        assert [] + EventOf(parsed.value) == EventOf(parsed.value);
        ConcatAssociative(es, EventOf(parsed.value), r.value);
      }
    }
  }

  // ----- What a client receives -----

  /** The events a client receives in order, and the error that ends them, if one does. */
  datatype Trace = Trace(events: seq<StreamEvent>, error: Option<ParseError>)

  function Then(es: seq<StreamEvent>, t: Trace): Trace {
    Trace(es + t.events, t.error)
  }

  lemma ThenNothing(t: Trace)
    ensures Then([], t) == t
  {
    assert [] + t.events == t.events;
  }

  function TraceOf(r: Events): Trace {
    match r
    case Ok(es) => Trace(es, None)
    case Err(e) => Trace([], Some(e))
  }

  /** Pushing the chunks in turn, then finishing. */
  function Delivered(buffer: bytes, chunks: seq<bytes>, read: Reader): Trace
    decreases |chunks|
  {
    if chunks == [] then TraceOf(FinishOutcome(buffer, read))
    else
      var (r, rest) := PushOutcome(buffer + chunks[0], read);
      match r
      case Err(e) => Trace([], Some(e))
      case Ok(es) => Then(es, Delivered(rest, chunks[1..], read))
  }

  lemma DeliveredStep(buffer: bytes, chunks: seq<bytes>, read: Reader)
    requires chunks != []
    ensures var (r, rest) := PushOutcome(buffer + chunks[0], read);
            Delivered(buffer, chunks, read) ==
            if r.Err? then Trace([], Some(r.error)) else Then(r.value, Delivered(rest, chunks[1..], read))
  {
  }

  /** One answer that a client gets. */
  type Answer = Result<StreamEvent, ParseError>

  function Answered(es: seq<StreamEvent>): seq<Answer> {
    seq(|es|, i requires 0 <= i < |es| => Ok(es[i]))
  }

  function AnswersOf(r: Events): seq<Answer> {
    match r
    case Ok(es) => Answered(es)
    case Err(e) => [Err(e)]
  }

  /** Every answer to a client that asks on after errors, up to the end of the body. */
  function Answers(buffer: bytes, chunks: seq<bytes>, read: Reader): seq<Answer>
    decreases |chunks|
  {
    if chunks == [] then AnswersOf(FinishOutcome(buffer, read))
    else
      var (r, rest) := PushOutcome(buffer + chunks[0], read);
      AnswersOf(r) + Answers(rest, chunks[1..], read)
  }

  /** What a client that stops at an error gets. */
  function UpToError(answers: seq<Answer>): Trace {
    if answers == [] then Trace([], None)
    else
      match answers[0]
      case Ok(e) => Then([e], UpToError(answers[1..]))
      case Err(e) => Trace([], Some(e))
  }

  lemma {:induction false} EventsUpToError(es: seq<StreamEvent>, answers: seq<Answer>)
    ensures UpToError(Answered(es) + answers) == Then(es, UpToError(answers))
    decreases |es|
  {
    if es == [] {
      ThenNothing(UpToError(answers));
      assert Answered(es) + answers == answers;
    } else {
      EventsUpToError(es[1..], answers);
      assert (Answered(es) + answers)[1..] == Answered(es[1..]) + answers;
      assert [es[0]] + es[1..] == es;
      ConcatAssociative([es[0]], es[1..], UpToError(answers).events);
    }
  }

  lemma OutcomeUpToError(r: Events, answers: seq<Answer>)
    ensures UpToError(AnswersOf(r) + answers) == if r.Err? then Trace([], Some(r.error)) else Then(r.value, UpToError(answers))
  {
    match r
    case Ok(es) => EventsUpToError(es, answers);
    case Err(_) =>
  }

  /** Up to its first error, a client gets what the chunks deliver. */
  lemma {:induction false} AnswersDeliver(buffer: bytes, chunks: seq<bytes>, read: Reader)
    ensures UpToError(Answers(buffer, chunks, read)) == Delivered(buffer, chunks, read)
    decreases |chunks|
  {
    if chunks == [] {
      var r := FinishOutcome(buffer, read);
      OutcomeUpToError(r, []);
      assert AnswersOf(r) + [] == AnswersOf(r);
      if r.Ok? {
        assert r.value + [] == r.value;
      }
    } else {
      var (r, rest) := PushOutcome(buffer + chunks[0], read);
      OutcomeUpToError(r, Answers(rest, chunks[1..], read));
      AnswersDeliver(rest, chunks[1..], read);
      DeliveredStep(buffer, chunks, read);
    }
  }

  /** A response body that arrives in chunks, read through an `SseParser`. */
  class MessageStream {
    const parser: SseParser
    var chunks: seq<bytes>
    var pending: seq<StreamEvent>
    var done: bool

    constructor (parser: SseParser, chunks: seq<bytes>)
      ensures this.parser == parser
      ensures AllAhead() == Answers(parser.buffer, chunks, parser.read)
      ensures Ahead() == Delivered(parser.buffer, chunks, parser.read)
    {
      this.parser, this.chunks := parser, chunks;
      pending, done := [], false;
      new;
      assert Answered([]) + Answers(parser.buffer, chunks, parser.read) == Answers(parser.buffer, chunks, parser.read);
      AnswersDeliver(parser.buffer, chunks, parser.read);
    }

    /** Every answer this stream will still give. */
    function AllAhead(): seq<Answer>
      reads this, parser
    {
      Answered(pending) +
      if done then AnswersOf(FinishOutcome(parser.buffer, parser.read)) else Answers(parser.buffer, chunks, parser.read)
    }

    /** Everything this stream will still deliver to a client that stops at an error. */
    function Ahead(): Trace
      reads this, parser
    {
      UpToError(AllAhead())
    }

    method PopFront() returns (event: StreamEvent)
      requires pending != []
      modifies this`pending
      ensures old(AllAhead()) == [Ok(event)] + AllAhead()
    {
      event := pending[0];
      assert Answered(pending) == [Ok(event)] + Answered(pending[1..]);
      pending := pending[1..];
    }

    /** Pushes the next chunk of the body. */
    method PullChunk() returns (error: Option<ParseError>)
      requires pending == [] && !done && chunks != []
      modifies this`chunks, this`pending, parser`buffer
      ensures |chunks| < |old(chunks)|
      ensures old(AllAhead()) == (if error.Some? then [Err(error.value)] else []) + AllAhead()
    {
      var chunk := chunks[0];
      ghost var later := Answers(PushOutcome(parser.buffer + chunk, parser.read).1, chunks[1..], parser.read);
      var events := parser.Push(chunk);
      chunks := chunks[1..];
      match events {
        case Err(e) =>
          error := Some(e);
          NothingPending(AnswersOf(events) + later);
          NothingPending(later);
        case Ok(es) =>
          error := None;
          assert [] + es == es;
          pending := pending + es;
          NothingPending(Answered(es) + later);
      }
    }

    /** Reads what the body left unfinished at its end. */
    method PullRemaining() returns (error: Option<ParseError>)
      requires pending == [] && done
      modifies this`pending, parser`buffer
      ensures old(AllAhead()) == (if error.Some? then [Err(error.value)] else []) + AllAhead()
      ensures error.None? && pending == [] ==> AllAhead() == []
    {
      NothingPending(AnswersOf(FinishOutcome(parser.buffer, parser.read)));
      var remaining := parser.Finish();
      assert AnswersOf(FinishOutcome([], parser.read)) == [];
      match remaining {
        case Err(e) => error := Some(e);
        case Ok(es) =>
          error := None;
          assert [] + es == es;
          pending := pending + es;
          assert Answered(es) + [] == Answered(es);
          NothingPending(Answered(es));
      }
    }

    method NextEvent() returns (r: Result<Option<StreamEvent>, ParseError>)
      modifies this`chunks, this`pending, this`done, parser`buffer
      ensures var a := old(AllAhead());
              if a == [] then r == Ok(None) && AllAhead() == []
              else AllAhead() == a[1..] && (if a[0].Ok? then r == Ok(Some(a[0].value)) else r == Err(a[0].error))
      ensures var t := old(Ahead());
              if t.events != [] then r == Ok(Some(t.events[0])) && Ahead() == Trace(t.events[1..], t.error)
              else if t.error.Some? then r == Err(t.error.value)
              else r == Ok(None) && Ahead() == t
    {
      ghost var a := AllAhead();
      while true
        invariant AllAhead() == a
        decreases !done, |chunks|
      {
        if pending != [] {
          var event := PopFront();
          return Ok(Some(event));
        }
        var error := None;
        if done {
          error := PullRemaining();
          if error.Some? {
            return Err(error.value);
          }
          NothingPending(AllAhead());
          if pending != [] {
            var event := PopFront();
            return Ok(Some(event));
          }
          return Ok(None);
        }
        if chunks != [] {
          error := PullChunk();
          if error.Some? {
            return Err(error.value);
          }
          NothingPending(AllAhead());
        } else {
          done := true;
        }
      }
    }
  }

  lemma NothingPending(answers: seq<Answer>)
    ensures [] + answers == answers && Answered([]) + answers == answers
  {
  }

  // ----- Chunking does not matter to the client -----

  /** Reading whole frames one after another, up to the first that is no event. */
  function FrameTrace(frames: seq<bytes>, read: Reader): Trace {
    if frames == [] then Trace([], None)
    else
      match read(frames[0])
      case Err(e) => Trace([], Some(e))
      case Ok(o) => Then(EventOf(o), FrameTrace(frames[1..], read))
  }

  function FramesOf(cuts: seq<Cut>): seq<bytes> {
    if cuts == [] then [] else [cuts[0].frame] + FramesOf(cuts[1..])
  }

  /** The frames of a whole stream: those that were ended, and an unfinished last one. */
  function StreamFrames(d: Drained): seq<bytes> {
    FramesOf(d.cuts) + if d.rest == [] then [] else [d.rest]
  }

  lemma {:induction false} FramesOfConcat(a: seq<Cut>, b: seq<Cut>)
    ensures FramesOf(a + b) == FramesOf(a) + FramesOf(b)
  {
    if a == [] {
      assert a + b == b;
    } else {
      FramesOfConcat(a[1..], b);
      assert (a + b)[1..] == a[1..] + b;
      HeadTail(a[0].frame, FramesOf(a[1..]), FramesOf(b));
    }
  }

  lemma {:induction false} FrameTraceConcat(a: seq<bytes>, b: seq<bytes>, read: Reader)
    ensures var t := FrameTrace(a, read);
            FrameTrace(a + b, read) == if t.error.Some? then t else Then(t.events, FrameTrace(b, read))
  {
    if a == [] {
      assert a + b == b;
    } else {
      FrameTraceConcat(a[1..], b, read);
      assert (a + b)[1..] == a[1..] + b;
      match read(a[0])
      case Err(_) =>
      case Ok(o) =>
        ConcatAssociative(EventOf(o), FrameTrace(a[1..], read).events, FrameTrace(b, read).events);
    }
  }

  lemma PushStep(frame: bytes, rest: bytes, read: Reader)
    requires read(frame).Ok?
    ensures AfterFrame([], frame, rest, read) ==
            (Prepend(EventOf(read(frame).value), PushOutcome(rest, read).0), PushOutcome(rest, read).1)
  {
    assert [] + EventOf(read(frame).value) == EventOf(read(frame).value);
  }

  /** A push reads the frames it cuts, and reports the first bad one. */
  ghost predicate PushReads(r: Events, rest: bytes, d: Drained, read: Reader) {
    var t := FrameTrace(FramesOf(d.cuts), read);
    if r.Err? then t.error == Some(r.error) else t == Trace(r.value, None) && rest == d.rest
  }

  lemma PushReadsOneMore(r: Events, rest: bytes, cut: Cut, d: Drained, o: Option<StreamEvent>, read: Reader)
    requires PushReads(r, rest, d, read) && read(cut.frame) == Ok(o)
    ensures PushReads(Prepend(EventOf(o), r), rest, Behind(cut, d), read)
  {
    FramesBehind(cut, d);
  }

  lemma {:induction false} PushReadsFrames(b: bytes, read: Reader)
    ensures PushReads(PushOutcome(b, read).0, PushOutcome(b, read).1, Drain(b), read)
    decreases |b|
  {
    match Separator(b)
    case None =>
    case Some((p, sep)) =>
      var cut, rest := Cut(b[..p], sep), b[p + |sep|..];
      PushReadsFrames(rest, read);
      assert PushOutcome(b, read) == AfterFrame([], cut.frame, rest, read);
      assert Drain(b) == Behind(cut, Drain(rest));
      match read(cut.frame)
      case Err(_) =>
        FramesBehind(cut, Drain(rest));
      case Ok(o) =>
        PushStep(cut.frame, rest, read);
        PushReadsOneMore(PushOutcome(rest, read).0, PushOutcome(rest, read).1, cut, Drain(rest), o, read);
  }

  lemma FramesBehind(cut: Cut, d: Drained)
    ensures FramesOf(Behind(cut, d).cuts) == [cut.frame] + FramesOf(d.cuts)
    ensures ([cut.frame] + FramesOf(d.cuts))[1..] == FramesOf(d.cuts)
  {
    assert ([cut] + d.cuts)[1..] == d.cuts;
  }

  /** What an error costs: the events of the frames in front of the first bad one that were
      completed by the same push. */
  function LostEvents(buffer: bytes, chunks: seq<bytes>, read: Reader): seq<StreamEvent>
    decreases |chunks|
  {
    if chunks == [] then []
    else
      var d := Drain(buffer + chunks[0]);
      var t := FrameTrace(FramesOf(d.cuts), read);
      if t.error.Some? then t.events else LostEvents(d.rest, chunks[1..], read)
  }

  /** Delivered events and lost ones together. */
  function WithLost(t: Trace, lost: seq<StreamEvent>): Trace {
    Trace(t.events + lost, t.error)
  }

  /** Whatever the stream and its split: what is delivered, followed by exactly the lost
      events, is what the frames say up to the first bad one, and the error is that one's. */
  lemma {:induction false} DeliveredFrames(buffer: bytes, chunks: seq<bytes>, read: Reader)
    ensures WithLost(Delivered(buffer, chunks, read), LostEvents(buffer, chunks, read)) ==
            FrameTrace(StreamFrames(DrainChunks(buffer, chunks)), read)
    decreases |chunks|
  {
    if chunks == [] {
      LastFrame(buffer, read);
      NothingLost(Delivered(buffer, chunks, read));
    } else {
      var d := Drain(buffer + chunks[0]);
      var more := DrainChunks(d.rest, chunks[1..]);
      ChunkFrames(buffer, chunks);
      FrameTraceConcat(FramesOf(d.cuts), StreamFrames(more), read);
      PushReadsFrames(buffer + chunks[0], read);
      DeliveredStep(buffer, chunks, read);
      if FrameTrace(FramesOf(d.cuts), read).error.None? {
        DeliveredFrames(d.rest, chunks[1..], read);
        ConcatAssociative(FrameTrace(FramesOf(d.cuts), read).events,
          Delivered(d.rest, chunks[1..], read).events, LostEvents(d.rest, chunks[1..], read));
      } else {
        assert [] + FrameTrace(FramesOf(d.cuts), read).events == FrameTrace(FramesOf(d.cuts), read).events;
      }
    }
  }

  lemma NothingLost(t: Trace)
    ensures WithLost(t, []) == t
  {
    assert t.events + [] == t.events;
  }

  lemma ChunkFrames(buffer: bytes, chunks: seq<bytes>)
    requires chunks != []
    ensures var d := Drain(buffer + chunks[0]);
            var more := DrainChunks(d.rest, chunks[1..]);
            && FramesOf(DrainChunks(buffer, chunks).cuts) == FramesOf(d.cuts) + FramesOf(more.cuts)
            && StreamFrames(DrainChunks(buffer, chunks)) == FramesOf(d.cuts) + StreamFrames(more)
  {
    var d := Drain(buffer + chunks[0]);
    var more := DrainChunks(d.rest, chunks[1..]);
    FramesOfConcat(d.cuts, more.cuts);
    ConcatAssociative(FramesOf(d.cuts), FramesOf(more.cuts), if more.rest == [] then [] else [more.rest]);
  }

  /** Only events in front of a bad frame that was cut are ever lost. */
  lemma {:induction false} LostInFront(buffer: bytes, chunks: seq<bytes>, read: Reader)
    ensures var t := FrameTrace(FramesOf(DrainChunks(buffer, chunks).cuts), read);
            |LostEvents(buffer, chunks, read)| <= if t.error.Some? then |t.events| else 0
    decreases |chunks|
  {
    if chunks != [] {
      var d := Drain(buffer + chunks[0]);
      var more := DrainChunks(d.rest, chunks[1..]);
      ChunkFrames(buffer, chunks);
      FrameTraceConcat(FramesOf(d.cuts), FramesOf(more.cuts), read);
      LostInFront(d.rest, chunks[1..], read);
    }
  }

  lemma LastFrame(buffer: bytes, read: Reader)
    ensures TraceOf(FinishOutcome(buffer, read)) == FrameTrace(StreamFrames(Drained([], buffer)), read)
  {
    if buffer != [] {
      assert StreamFrames(Drained([], buffer)) == [buffer];
      assert [buffer][1..] == [];
    }
  }

  /** For an ordered stream, the split decides nothing but which events are lost. */
  lemma ChunkingUnobserved(s: bytes, chunks: seq<bytes>, read: Reader)
    requires SeparatorsOrdered(s) && Concat(chunks) == s
    ensures WithLost(Delivered([], chunks, read), LostEvents([], chunks, read)) == FrameTrace(StreamFrames(Drain(s)), read)
  {
    ChunkInvarianceIff(s);
    DeliveredFrames([], chunks, read);
  }

  /** Every split of the stream delivers what its frames say. */
  ghost predicate SplitUnobserved(s: bytes, read: Reader) {
    forall chunks | Concat(chunks) == s :: Delivered([], chunks, read) == FrameTrace(StreamFrames(Drain(s)), read)
  }

  /** The split of an ordered stream is unobservable if and only if no event comes before a
      bad frame that was ended by its separator. */
  lemma ChunkingUnobservedIff(s: bytes, read: Reader)
    requires SeparatorsOrdered(s)
    ensures var t := FrameTrace(FramesOf(Drain(s).cuts), read);
            SplitUnobserved(s, read) <==> t.error.None? || t.events == []
  {
    var t := FrameTrace(FramesOf(Drain(s).cuts), read);
    if t.error.None? || t.events == [] {
      forall chunks | Concat(chunks) == s
        ensures Delivered([], chunks, read) == FrameTrace(StreamFrames(Drain(s)), read)
      {
        NothingLostThen(s, chunks, read);
      }
    } else {
      LossInOnePush(s, read);
      assert Concat([s]) == s;
    }
  }

  lemma NothingLostThen(s: bytes, chunks: seq<bytes>, read: Reader)
    requires SeparatorsOrdered(s) && Concat(chunks) == s
    requires var t := FrameTrace(FramesOf(Drain(s).cuts), read); t.error.None? || t.events == []
    ensures Delivered([], chunks, read) == FrameTrace(StreamFrames(Drain(s)), read)
  {
    ChunkInvarianceIff(s);
    LostInFront([], chunks, read);
    ChunkingUnobserved(s, chunks, read);
    NothingLost(Delivered([], chunks, read));
  }

  lemma LossInOnePush(s: bytes, read: Reader)
    requires var t := FrameTrace(FramesOf(Drain(s).cuts), read); t.error.Some? && t.events != []
    ensures Delivered([], [s], read) != FrameTrace(StreamFrames(Drain(s)), read)
  {
    OnePushDropsEvents(s, read);
    FrameTraceConcat(FramesOf(Drain(s).cuts), if Drain(s).rest == [] then [] else [Drain(s).rest], read);
  }

  // ----- Streams that are not ordered -----

  ghost predicate NeverFails(read: Reader) {
    forall frame :: read(frame).Ok?
  }

  lemma {:induction false} NoError(frames: seq<bytes>, read: Reader)
    requires NeverFails(read)
    ensures FrameTrace(frames, read).error.None?
  {
    if frames != [] {
      NoError(frames[1..], read);
    }
  }

  /** Where no frame is bad, the chunks deliver what the frames they are cut into say. */
  lemma AllDelivered(chunks: seq<bytes>, read: Reader)
    requires NeverFails(read)
    ensures Delivered([], chunks, read) == FrameTrace(StreamFrames(DrainChunks([], chunks)), read)
  {
    DeliveredFrames([], chunks, read);
    LostInFront([], chunks, read);
    NoError(FramesOf(DrainChunks([], chunks).cuts), read);
    NothingLost(Delivered([], chunks, read));
  }

  function Letters(frame: bytes): string {
    seq(|frame|, i requires 0 <= i < |frame| => frame[i] as char)
  }

  /** A reader whose events tell all frames apart. */
  const TELLING: Reader := (frame: bytes) => Ok(Some(ContentBlockDelta(0, TextDelta(Letters(frame)))))

  lemma LettersTell(a: bytes, b: bytes)
    requires a != b
    ensures Letters(a) != Letters(b)
  {
    if |a| == |b| {
      var i :| 0 <= i < |a| && a[i] != b[i];
      assert Letters(a)[i] != Letters(b)[i];
    }
  }

  lemma {:induction false} Told(frames: seq<bytes>, k: nat)
    requires k < |frames|
    ensures var es := FrameTrace(frames, TELLING).events; |es| == |frames| && Ok(Some(es[k])) == TELLING(frames[k])
  {
    if |frames| > 1 {
      Told(frames[1..], if k > 0 then k - 1 else 0);
    } else {
      assert frames[1..] == [];
    }
  }

  lemma {:induction false} FrameAt(cuts: seq<Cut>, k: nat)
    requires k < |cuts|
    ensures |FramesOf(cuts)| == |cuts| && FramesOf(cuts)[k] == cuts[k].frame
  {
    if |cuts| > 1 {
      FrameAt(cuts[1..], if k > 0 then k - 1 else 0);
    }
  }

  lemma ApartTold(x: Drained, y: Drained)
    requires Apart(x, y)
    ensures FrameTrace(StreamFrames(x), TELLING) != FrameTrace(StreamFrames(y), TELLING)
  {
    var k: nat :| k < |x.cuts| && k < |y.cuts| && x.cuts[k].frame != y.cuts[k].frame;
    FrameAt(x.cuts, k);
    FrameAt(y.cuts, k);
    Told(StreamFrames(x), k);
    Told(StreamFrames(y), k);
    LettersTell(x.cuts[k].frame, y.cuts[k].frame);
  }

  /** A stream that is not ordered has a split that a client can tell from another: a reader
      that finds no frame bad gets other events. */
  lemma DisorderObserved(s: bytes) returns (read: Reader, chunks: seq<bytes>)
    requires !SeparatorsOrdered(s)
    ensures NeverFails(read) && Concat(chunks) == s
    ensures Delivered([], chunks, read) != Delivered([], [s], read)
    ensures Delivered([], [s], read) == FrameTrace(StreamFrames(Drain(s)), read)
  {
    var a, b := DisorderedSplit(s);
    read, chunks := TELLING, [a, b];
    TwoChunks(a, b);
    OneChunk(s);
    assert [a, b][1..] == [b] && Concat([b]) == b;
    AllDelivered(chunks, read);
    AllDelivered([s], read);
    ApartTold(DrainTwo(a, b), Drain(s));
  }

  lemma OneChunk(s: bytes)
    ensures DrainChunks([], [s]) == Drain(s)
  {
    assert [] + s == s && [s][1..] == [];
    assert Drain(s).cuts + [] == Drain(s).cuts;
  }

  /** For all readers that find no frame bad every split is unobservable if and only if the
      stream is ordered. */
  lemma OrderUnobservedIff(s: bytes)
    ensures (forall read | NeverFails(read) :: SplitUnobserved(s, read)) <==> SeparatorsOrdered(s)
  {
    if SeparatorsOrdered(s) {
      forall read | NeverFails(read) ensures SplitUnobserved(s, read) {
        NoError(FramesOf(Drain(s).cuts), read);
        ChunkingUnobservedIff(s, read);
      }
    } else {
      var read, chunks := DisorderObserved(s);
      assert !SplitUnobserved(s, read);
    }
  }

  // ----- What an error costs -----

  /** A failed push that found `d` to cut stopped behind `bad`, with `left` still to cut. */
  ghost predicate StoppedAt(error: ParseError, ahead: Drained, d: Drained,
                            good: seq<Cut>, bad: Cut, left: seq<Cut>, read: Reader) {
    && d.cuts == good + [bad] + left
    && FrameTrace(FramesOf(good), read).error.None?
    && read(bad.frame) == Err(error)
    && ahead == Drained(left, d.rest)
  }

  /** A push that meets a bad frame stops behind it: the frames before it are read, their
      events lost, and the frames after it are still in the buffer. */
  lemma {:induction false} PushErrorResumes(b: bytes, read: Reader) returns (good: seq<Cut>, bad: Cut, left: seq<Cut>)
    requires PushOutcome(b, read).0.Err?
    ensures StoppedAt(PushOutcome(b, read).0.error, Drain(PushOutcome(b, read).1), Drain(b), good, bad, left, read)
    decreases |b|
  {
    var (p, sep) := Separator(b).value;
    var cut, rest := Cut(b[..p], sep), b[p + |sep|..];
    assert PushOutcome(b, read) == AfterFrame([], cut.frame, rest, read);
    if read(cut.frame).Err? {
      good, bad, left := [], cut, Drain(rest).cuts;
    } else {
      PushStep(cut.frame, rest, read);
      good, bad, left := PushErrorResumes(rest, read);
      StoppedLater(PushOutcome(rest, read).0.error, Drain(PushOutcome(rest, read).1), cut, Drain(rest), good, bad, left, read);
      good := [cut] + good;
    }
  }

  lemma StoppedLater(error: ParseError, ahead: Drained, cut: Cut, d: Drained,
                     good: seq<Cut>, bad: Cut, left: seq<Cut>, read: Reader)
    requires StoppedAt(error, ahead, d, good, bad, left, read) && read(cut.frame).Ok?
    ensures StoppedAt(error, ahead, Behind(cut, d), [cut] + good, bad, left, read)
  {
    GoodFrameFirst(cut, good, read);
    assert [cut] + (good + [bad] + left) == [cut] + good + [bad] + left;
  }

  lemma GoodFrameFirst(cut: Cut, good: seq<Cut>, read: Reader)
    requires read(cut.frame).Ok? && FrameTrace(FramesOf(good), read).error.None?
    ensures FrameTrace(FramesOf([cut] + good), read).error.None?
  {
    FramesBehind(cut, Drained(good, []));
  }

  /** Pushed as one chunk, a stream with a bad frame delivers no event at all. */
  lemma OnePushDropsEvents(s: bytes, read: Reader)
    requires FrameTrace(FramesOf(Drain(s).cuts), read).error.Some?
    ensures Delivered([], [s], read) == Trace([], FrameTrace(FramesOf(Drain(s).cuts), read).error)
  {
    assert [] + s == s;
    PushReadsFrames(s, read);
  }

  /** A chunk for each frame with its separator, and one for what is left. */
  function FrameChunks(d: Drained): seq<bytes>
    decreases |d.cuts|
  {
    if d.cuts == [] then [d.rest]
    else [d.cuts[0].frame + d.cuts[0].sep] + FrameChunks(Drained(d.cuts[1..], d.rest))
  }

  /** A frame alone with its separator is cut off as that frame. */
  lemma FrameAlone(b: bytes, p: nat, sep: bytes)
    requires Separator(b) == Some((p, sep))
    ensures Drain(b[..p] + sep) == Drained([Cut(b[..p], sep)], [])
  {
    var a := b[..p] + sep;
    SeparatorStands(b);
    SplitTwice(b, p, p + |sep|);
    SeparatorInPrefix(a, b[p + |sep|..], p, sep);
    DrainFirst(a, p, sep);
    assert a[p + |sep|..] == [] && a[..p] == b[..p];
    assert Drain([]) == Drained([], []);
  }

  lemma SeparatorInPrefix(a: bytes, t: bytes, p: nat, sep: bytes)
    requires Separator(a + t) == Some((p, sep)) && |a| == p + |sep|
    ensures Separator(a) == Some((p, sep))
  {
    SeparatorStands(a + t);
    FindInPrefix(a, t, sep, p);
    if sep == CRLF_CRLF {
      FindIsFirst(a + t, LF_LF, None);
      forall x: nat ensures !At(a, LF_LF, x) {
        if x + 2 <= |a| {
          AtPrefix(a, t, LF_LF, x);
        }
      }
      FindIsFirst(a, LF_LF, None);
    }
  }

  /** These chunks are a split of what was cut. */
  lemma {:induction false} FrameChunksConcat(d: Drained)
    ensures Concat(FrameChunks(d)) == Uncut(d.cuts) + d.rest
    decreases |d.cuts|
  {
    if d.cuts == [] {
      assert [d.rest][1..] == [] && d.rest + [] == d.rest && [] + d.rest == d.rest;
    } else {
      var later := Drained(d.cuts[1..], d.rest);
      FrameChunksConcat(later);
      HeadTail(d.cuts[0].frame + d.cuts[0].sep, FrameChunks(later), []);
      ConcatAssociative(d.cuts[0].frame + d.cuts[0].sep, Uncut(later.cuts), d.rest);
    }
  }

  /** Any stream has a split, frame by frame, that delivers every event before its first bad
      frame. */
  lemma FrameByFrameKeepsEvents(b: bytes, read: Reader)
    ensures Concat(FrameChunks(Drain(b))) == b
    ensures Delivered([], FrameChunks(Drain(b)), read) == FrameTrace(StreamFrames(Drain(b)), read)
  {
    FrameChunksConcat(Drain(b));
    DrainConserves(b);
    FrameChunksDeliver(b, read);
  }

  lemma {:induction false} FrameChunksDeliver(b: bytes, read: Reader)
    ensures Delivered([], FrameChunks(Drain(b)), read) == FrameTrace(StreamFrames(Drain(b)), read)
    decreases |b|
  {
    if Separator(b).None? {
      DrainDry(b);
      OnlyRest(b, read);
    } else {
      var (p, sep) := Separator(b).value;
      FrameChunksDeliver(b[p + |sep|..], read);
      FrameAlone(b, p, sep);
      DrainFirst(b, p, sep);
      OneFrameChunk(Cut(b[..p], sep), Drain(b[p + |sep|..]), read);
    }
  }

  lemma OnlyRest(b: bytes, read: Reader)
    requires Separator(b) == None
    ensures Delivered([], [b], read) == FrameTrace(StreamFrames(Drained([], b)), read)
  {
    assert [] + b == b && [b][1..] == [];
    assert PushOutcome(b, read) == (Ok([]), b);
    LastFrame(b, read);
    ThenNothing(TraceOf(FinishOutcome(b, read)));
  }

  lemma OneFrameChunk(cut: Cut, d: Drained, read: Reader)
    requires Drain(cut.frame + cut.sep) == Drained([cut], [])
    requires Delivered([], FrameChunks(d), read) == FrameTrace(StreamFrames(d), read)
    ensures Delivered([], FrameChunks(Behind(cut, d)), read) == FrameTrace(StreamFrames(Behind(cut, d)), read)
  {
    var chunk := cut.frame + cut.sep;
    HeadTail(cut, d.cuts, []);
    HeadTail(chunk, FrameChunks(d), []);
    assert [] + chunk == chunk;
    PushReadsFrames(chunk, read);
    OneFrame(cut.frame, read);
    assert FramesOf([cut]) == [cut.frame];
    FramesBehind(cut, d);
    HeadTail(cut.frame, FramesOf(d.cuts), if d.rest == [] then [] else [d.rest]);
    assert StreamFrames(Behind(cut, d)) == [cut.frame] + StreamFrames(d);
    HeadTail(cut.frame, StreamFrames(d), []);
  }

  lemma OneFrame(frame: bytes, read: Reader)
    ensures FrameTrace([frame], read) == (if read(frame).Err? then Trace([], Some(read(frame).error)) else Trace(EventOf(read(frame).value), None))
  {
    assert [frame][1..] == [];
    if read(frame).Ok? {
      assert EventOf(read(frame).value) + [] == EventOf(read(frame).value);
    }
  }
}
