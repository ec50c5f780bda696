# Verified models of the Rust crates

A Dafny project that models the algorithmic core of the Rust crates and proves what they are
relied on for. `dafny verify dfyconfig.toml` checks all of it. One module stands for one
component; small shared modules hold sequences, text, UTF-8, sorting and ordered maps.

**Streaming.** `MockService` prints events as server-sent event frames. `SseFraming`,
`SseFrame` and `SseStream` cut arbitrary byte chunks back into frames, read them, and hand
events to a client; `SseForms` adds frames without an event line and lines that end in CRLF,
`Utf8Lossy` bytes that are no text. `StreamAssembly` folds events into a message with tables
keyed by block index; `StreamReply` and `StreamBlocks` say what comes of any stream. The
main results are that any list of events arrives whole however its bytes are split, that a
streamed reply assembles to what the plain reply says, that the interleaving of blocks is
unobservable, and exactly when the chunking of a stream is.

**Edit distance and suggestions.** `Levenshtein` shows that the two-row loop computes the
length of a shortest edit script and that it is a metric; `SlashCommands` that suggestions
are the best close commands in a total order, and `SuggestionMeaning` tells from the
spellings which those are.

**Incremental index.** `ChunkText`, `VectorBlob`, `RagDatabase`, `IngestIndex`, `Ingest` and
`VectorSearch` model the retrieval service: windows over text, tables, runs that complete or
stop half way, pruning, and ranking. `IngestIndex` specifies runs over an abstract index;
`Ingest` proves the batched, row-by-row program against it, with what it asks of the
embedding service: nothing for files that are up to date. `ChunkWindows` says where windows
stand, and `VectorGeometry` that hits are the nearest rows.

**Scheduling.** `Scheduler` and `SchedulerRuns` model the collection scheduler in saturating
64-bit arithmetic and prove its cadence and its bounds over whole runs.

**Prompt cache.** `PromptCache` refines a plain history of recorded responses; `Fnv` treats
its FNV-1a hash.

**Context and redaction.** `ContextPayload` covers budgets, pages and port references;
`Redaction` and `RedactedText` the masking automaton, `HiddenValues` and `QuotedValues`
which values it hides, and `CutRedaction` what cutting the result to length does to it.
`TokenMeaning` tells what becomes of every kind of token, from where strings stand in it
(`Substrings`, `Trimming`, `ValueMeaning`) instead of from the trimming and searching of the
code.

**Agent loop and skills.** `AgentLoop` proves the shape of every conversation, and
`AgentTranscript` what its messages carry; `Skills` that two independent lookups over the
same directories agree, and `SkillListing` what both find, from the entries of the
directories.

## How the code is followed

- The frame syntax is a part of the event stream format of the WHATWG HTML standard
  (sections 9.2.5 and 9.2.6). The code differs from the standard, and the model follows the
  code: `data:` values lose all leading whitespace, event names lose it on both sides, only
  whole frames are decoded, and LF LF anywhere in the buffer is taken before an earlier
  CRLF CRLF. `SseFraming.ChunkInvarianceIff` states exactly what the last point costs.
- A parse error drops the events already gathered in that push. `SseStream` states what is
  lost, what stays in the buffer, and exactly which streams with ordered separators make the
  split observable: those with an event before a bad frame that was ended by its separator.
  Where no frame is bad, the split is observable exactly on streams that are not ordered.
- A slash in front of a query is dropped, but not the blanks behind it
  (`SlashCommands.SlashIgnoredIff`).
- A completed run agrees with a full rebuild from the same walk exactly when every path in the
  index was read by the walk, or has a row and was not walked. A run that stopped can leave
  chunks without a row behind, and a file that cannot be read keeps its old ones.
- The bound on successful collections holds for times before `u64::MAX`, where a saturated
  deadline stays due; at that time it holds exactly if the run limit already implies it. That
  time is also the only one at which a scheduler can spin.
- Deleting expired completions shows exactly where a response is young again after a lookup
  has evicted it. A clock that never goes back never gets there, and one that goes back may.
  With a time to live of zero nothing is served, not even a response from the future.
- Redaction splits a token at its first `=`, and at its first `:` only if it has no `=`. A value
  behind `key:` that holds `=` therefore comes out up to there, and a pair behind an earlier
  `=` is not split at all. `HiddenValues.ValueHiddenIff` says exactly which values within one
  token are hidden. A value in quotes that goes on over later tokens is masked, as a rule, up to
  the token behind its first, so `password="a b c"` comes out with its last word, and less far
  where the first holds an apostrophe. `QuotedValues.QuotedValueHiddenIff` says exactly when
  all of its tokens are masked.
- Redacting and cutting twice is not always the same as doing it once;
  `CutRedaction.RedactionIdempotentIff` says exactly when it is.

Inputs of the outside world are parameters: the JSON library is a pair of functions with the
law that a printed event is one compact line and reads back (`JsonCodec.Lawful`), times are
arguments, file contents and directory listings are given, the embedding service and the
model may answer anything, and hashes of file contents are a function that the rebuild
theorem takes to be injective.

## Model

| member | source | states |
|---|---|---|
| `SseFraming.FindIsFirst` | rust/crates/api/src/sse.rs:60-70 | a separator is found at its first place in the buffer: that place and no other answers the search, and none is reported only where it stands nowhere |
| `SseFraming.SeparatorStands` | rust/crates/api/src/sse.rs:60-70 | the separator in use stands where it was found and not earlier, and it is CRLF CRLF only if LF LF stands nowhere in the buffer |
| `SseFraming.DrainConserves` | rust/crates/api/src/sse.rs:59-80 | frames, their separators and the rest, joined again, are exactly the bytes that were in the buffer |
| `SseFraming.ChunksConserve` | rust/crates/api/src/sse.rs:28-39 | over any sequence of pushes, extracted frames with their separators plus the buffer equal everything pushed |
| `SseFraming.DrainSplit` | rust/crates/api/src/sse.rs:28-80 | if no CRLF CRLF starts before an LF LF, two pushes extract what one push of both extracts |
| `SseFraming.DisorderedSplit` | rust/crates/api/src/sse.rs:28-80 | where that order fails, some split into two pushes extracts a frame that differs from the unsplit one in its place |
| `SseFraming.ChunkInvarianceIff` | rust/crates/api/src/sse.rs:28-80 | every split of a stream into pushes yields the same frames and final buffer if and only if no CRLF CRLF starts before an LF LF in it |
| `SseFraming.OneSeparatorOrdered` | rust/crates/api/src/sse.rs:60-70 | a stream with only one of the two separators is chunk invariant |
| `SseFrame.ParseFrameLoop` | rust/crates/api/src/sse.rs:86-128 | the loop over the lines computes the meaning of a frame: blank frames, comments, pings, missing data and [DONE] give no event, the joined data lines are parsed otherwise, and an unparsable payload is an error that names provider, model and payload |
| `SseFrame.FrameFields` | rust/crates/api/src/sse.rs:91-110 | a frame printed with any event name and any pieces free of line feeds is read back as the trimmed name and the pieces as they are read: leading blanks dropped, one carriage return at the end of a line, and all blanks at the end of the frame |
| `SseFrame.PrintedFrameMeans` | rust/crates/api/src/sse.rs:91-128 | such a frame means what its trimmed name and the joined pieces as they are read decide, and nothing else |
| `SseForms.DataFrameMeans` | rust/crates/api/src/sse.rs:99-128 | a frame of data lines alone, such as `data: [DONE]`, means what its joined pieces decide: nothing, their event, or an error |
| `SseForms.CrlfMeansLf` | rust/crates/api/src/sse.rs:98-128 | a frame of lines that do not start with a blank means the same with CRLF between them as with LF |
| `SseForms.CrlfEventsArrive` | rust/crates/api/src/sse.rs:59-128 | any list of events printed with CRLF at the end of each line, cut into chunks anywhere, is delivered as exactly that list |
| `SseFrame.IgnoredLine` | rust/crates/api/src/sse.rs:99-110 | a comment line or an unknown field, put anywhere, never changes what the lines mean |
| `SseFrame.LastLineDecides` | rust/crates/api/src/sse.rs:103-109 | after any lines, one more event line replaces the name and one more data line is appended with its leading blanks dropped |
| `SseStream.SseParser.constructor` | rust/crates/api/src/sse.rs:11-20 | a new parser has an empty buffer and the context unknown/unknown |
| `SseStream.SseParser.WithContext` | rust/crates/api/src/sse.rs:22-26 | the context only changes what a frame is read with |
| `SseStream.SseParser.NextFrame` | rust/crates/api/src/sse.rs:59-80 | the first frame is returned, it and its separator leave the buffer; without a separator nothing changes |
| `SseStream.SseParser.Push` | rust/crates/api/src/sse.rs:28-39 | the outcome and the buffer of a push, as a function of old buffer, chunk and reader |
| `SseStream.SseParser.Finish` | rust/crates/api/src/sse.rs:41-51 | what is left in the buffer is read as one last frame, and the buffer is emptied whatever comes of it |
| `SseStream.PushReadsFrames` | rust/crates/api/src/sse.rs:28-39 | a push reports the events of all frames it cuts, or the error of the first bad one |
| `SseStream.PushErrorResumes` | rust/crates/api/src/sse.rs:28-39 | a failed push stopped exactly behind its first bad frame: the frames before it are consumed and their events lost, the frames after it are still in the buffer |
| `SseStream.OnePushDropsEvents` | rust/crates/api/src/sse.rs:28-39 | a stream with a bad frame, pushed as one chunk, delivers no event at all, only the error |
| `SseStream.FrameByFrameKeepsEvents` | rust/crates/api/src/sse.rs:28-51 | every stream has a split, frame by frame, that delivers every event before its first bad frame |
| `SseStream.MessageStream.constructor` | rust/crates/api/src/providers/anthropic.rs:798-808 | a stream will give every answer that its body's chunks come to, and deliver what they deliver |
| `SseStream.MessageStream.NextEvent` | rust/crates/api/src/providers/anthropic.rs:816-842 | each call gives the next answer of the body, an event or an error, however the chunks fall, and goes on behind errors until the end |
| `SseStream.AnswersDeliver` | rust/crates/api/src/sse.rs:28-51 | the answers up to the first error are what the chunks deliver |
| `SseStream.DeliveredFrames` | rust/crates/api/src/sse.rs:28-51 | for any stream and split, the events delivered, followed by exactly the events lost with the failing push, are those of the frames before the first bad one, and the error is that one's |
| `SseStream.LostInFront` | rust/crates/api/src/sse.rs:28-51 | events are only ever lost in front of a bad frame that was ended by its separator |
| `SseStream.ChunkingUnobserved` | rust/crates/api/src/sse.rs:28-51 | for an ordered stream the split decides nothing but which events are lost: delivered and lost ones together are those of the unsplit stream, with the same error |
| `SseStream.ChunkingUnobservedIff` | rust/crates/api/src/sse.rs:28-51 | every split of an ordered stream delivers the same if and only if no event comes before a bad frame that was ended by its separator; a bad unfinished last frame costs nothing |
| `SseStream.DisorderObserved` | rust/crates/api/src/sse.rs:28-80 | every stream whose separators are not in order has a split that delivers other events than the unsplit stream, to a reader that finds no frame bad |
| `SseStream.OrderUnobservedIff` | rust/crates/api/src/sse.rs:28-80 | all splits deliver the same to all readers that find no frame bad if and only if the separators of the stream are in order |
| `StreamAssembly.ApplyEvent` | rust/crates/claw-analog/src/lib.rs:1444-1539 | one event changes the open blocks, texts, finished blocks and header as the specification step says |
| `StreamAssembly.OpenBlock` | rust/crates/claw-analog/src/lib.rs:1469-1487 | a text or tool block is opened, with empty argument text for an empty input object; thinking opens nothing |
| `StreamAssembly.ExtendBlock` | rust/crates/claw-analog/src/lib.rs:1488-1513 | text grows its buffer, argument text only an open tool block |
| `StreamAssembly.CloseBlock` | rust/crates/claw-analog/src/lib.rs:1514-1530 | a stopped block is finished: text unless empty, a tool call with its parsed arguments or the raw text; an unknown index is ignored |
| `StreamAssembly.StreamToMessage` | rust/crates/claw-analog/src/lib.rs:1428-1571 | the reply computed event by event is the reply to everything the stream delivers |
| `StreamAssembly.FoldOnSlot` | rust/crates/claw-analog/src/lib.rs:1444-1539 | after any events the state of a block is decided by that block's own events |
| `StreamAssembly.FoldOnHeader` | rust/crates/claw-analog/src/lib.rs:1435-1534 | id, model, stop reason and usage are decided by the events outside all blocks |
| `StreamAssembly.FoldToStop` | rust/crates/claw-analog/src/lib.rs:1535-1538 | nothing after the message stop is read |
| `StreamAssembly.InterleavingUnobserved` | rust/crates/claw-analog/src/lib.rs:1435-1571 | any two merges of the same per-block and outer event sequences give the same reply, whatever follows the stop |
| `StreamAssembly.ScriptRun` | rust/crates/claw-analog/src/lib.rs:1469-1530 | a block's start, deltas and stop come to its text, its tool call, or nothing |
| `StreamAssembly.InterleavedScripts` | rust/crates/claw-analog/src/lib.rs:1435-1546 | any interleaving of blocks comes to exactly their outcomes by index; empty texts, thinking and unstopped blocks are absent |
| `StreamReply.HeaderIsTold` | rust/crates/claw-analog/src/lib.rs:1445-1534 | id and model come from the last message start, usage from the last message delta, the stop reason from the last delta that gave one |
| `StreamReply.UnstoppedIsNoReply` | rust/crates/claw-analog/src/lib.rs:1444-1544 | without a message stop there is never a streamed message: the error is passed on, or the request is sent again; after a stop no error is seen |
| `StreamReply.ReplyOfBlocks` | rust/crates/claw-analog/src/lib.rs:1542-1571 | the whole reply to interleaved blocks: outcomes in index order with the last header, stop reason falling back to tool_use exactly when a tool block was stopped and to end_turn otherwise; sent again if nothing came of it |
| `StreamBlocks.BlocksAreTold` | rust/crates/claw-analog/src/lib.rs:1469-1530 | for any events in any order, what is finished at an index is the last block that a stop ended there with something in it: the block started last, with all pieces of its own kind since; other pieces, thinking, and stops of nothing are ignored |
| `StreamBlocks.ReplyIsTold` | rust/crates/claw-analog/src/lib.rs:1435-1571 | the whole reply to any stream that is stopped, well-formed or not: those blocks in index order with the last header, or the request is sent again exactly if there is no block |
| `MockService.AppendSse` | rust/crates/mock-anthropic-service/src/lib.rs:1153-1158 | an event is appended as its event line, its data line and an empty line |
| `MockService.AppendToolUse` | rust/crates/mock-anthropic-service/src/lib.rs:979-1012 | a tool call is appended as its start, one delta per piece, and its stop |
| `MockService.ToolUsesSse` | rust/crates/mock-anthropic-service/src/lib.rs:955-1024 | the streamed body is the printed event list of the tool calls |
| `MockService.PrintedEventsArrive` | rust/crates/mock-anthropic-service/src/lib.rs:1153-1158 | any list of events, printed and cut into chunks anywhere, even inside a character, is delivered as exactly that list |
| `MockService.ToolUseReply` | rust/crates/mock-anthropic-service/src/lib.rs:955-1024 | what the client assembles from the streamed reply: content, id, model, stop reason and usage |
| `MockService.StreamedReplyMatchesPlain` | rust/crates/mock-anthropic-service/src/lib.rs:848-872 | for every non-empty list of tool calls whose pieces make up text meaning the input, the streamed reply in any chunks assembles to content, model and stop reason of the plain reply |
| `MockService.EmptyReplyIsSentAgain` | rust/crates/mock-anthropic-service/src/lib.rs:955-1024 | without tool calls the streamed reply has no content and the client sends the request again |
| `Utf8.DecodeEncode` | rust/crates/api/src/sse.rs:48-79 | lossy decoding, byte by byte as RFC 3629 reads, gives back encoded text unchanged |
| `Utf8.EncodeKeepsOut` | rust/crates/api/src/sse.rs:60-68 | an ASCII byte occurs in encoded text only where its character does, so no separator hides inside a character |
| `Utf8Lossy.CharacterRead` | rust/crates/api/src/sse.rs:48-79 | a character in front is read as itself, whatever bytes follow |
| `Utf8Lossy.BadBytesReplaced` | rust/crates/api/src/sse.rs:48-79 | where no character starts, one U+FFFD is read for the longest part that some character begins with, or else for one byte, and reading goes on behind it |
| `Levenshtein.LevenshteinDistance` | rust/crates/commands/src/lib.rs:1979-2006 | the two-row loop with its early returns computes the recursive edit distance |
| `Levenshtein.FillRow` | rust/crates/commands/src/lib.rs:1994-2003 | the inner loop fills the next row of the table from the one before |
| `Levenshtein.DistanceIsMetric` | rust/crates/commands/src/lib.rs:1979-2006 | zero exactly for equal strings, symmetric, and subject to the triangle inequality |
| `Levenshtein.DistanceBounds` | rust/crates/commands/src/lib.rs:1979-2006 | between the difference of the lengths and the longer length |
| `Levenshtein.OneEditIsNear` | rust/crates/commands/src/lib.rs:1979-2006 | one insertion, deletion or substitution moves a string by at most 1 |
| `Levenshtein.ShortScript` | rust/crates/commands/src/lib.rs:1979-2006 | some script of exactly the distance transforms one prefix into the other, whatever text follows |
| `Levenshtein.ScriptIsLong` | rust/crates/commands/src/lib.rs:1979-2006 | no script between two strings is shorter than their distance |
| `Levenshtein.DistanceIsShortestScript` | rust/crates/commands/src/lib.rs:1979-2006 | the distance is the length of a shortest edit script: attained by one, beaten by none |
| `SlashCommands.SuggestSlashCommands` | rust/crates/commands/src/lib.rs:2009-2051 | the suggestions computed are those of the specification for the normalised query |
| `SlashCommands.SpecScoreIsBest` | rust/crates/commands/src/lib.rs:2018-2033 | a command is scored by the best (rank, distance) among its name and aliases |
| `SlashCommands.MatchingIsClose` | rust/crates/commands/src/lib.rs:2035-2042 | a command is a candidate if and only if its best score has rank at most 1 or distance at most 2 |
| `SlashCommands.SuggestionsAreBest` | rust/crates/commands/src/lib.rs:2015-2050 | the suggestions are the first `limit` candidates in (rank, distance, name length, name) order; every candidate left out comes after all of them |
| `SlashCommands.AnySortGivesSuggestions` | rust/crates/commands/src/lib.rs:2045 | the order is total, so the unstable sort has one possible outcome |
| `SlashCommands.ExactMatchFirst` | rust/crates/commands/src/lib.rs:2009-2051 | a query that is the spelling of some command suggests a command spelled exactly so first |
| `SlashCommands.SlashIgnoredIff` | rust/crates/commands/src/lib.rs:2010 | a slash put in front of the input changes nothing if and only if the input is blank or does not start with a blank, since blanks behind a slash are kept |
| `SuggestionMeaning.ScoreMeans` | rust/crates/commands/src/lib.rs:2020-2030 | a spelling is ranked 0 exactly if it or the query starts with the other, 1 exactly if neither does but one contains the other, and 2 otherwise, and its distance is that of a shortest edit script |
| `SuggestionMeaning.SuggestedIff` | rust/crates/commands/src/lib.rs:2009-2051 | every suggestion is the slashed name of a command one of whose spellings contains the query, or the other way round, or is at most two edits from it; where fewer than `limit` are suggested, every such command is |
| `SuggestionMeaning.SuggestionsInOrder` | rust/crates/commands/src/lib.rs:2015-2050 | suggestions come by the best score over their spellings, then by the bytes of the name, then by the name |
| `SuggestionMeaning.QueryIs` | rust/crates/commands/src/lib.rs:2010-2013 | the query is the text in lower case without the blanks around it and the slashes in front |
| `SuggestionMeaning.SlashesSuggestNothing` | rust/crates/commands/src/lib.rs:2010-2013 | slashes alone, with blanks around them, suggest nothing |
| `ChunkText.ChunkTextLoop` | rust/crates/claw-rag-service/src/chunk.rs:4-28 | the loop ends for all parameters and yields the non-blank windows in order |
| `ChunkText.WindowLoop` | rust/crates/claw-rag-service/src/chunk.rs:14-27 | each pass takes the piece of the next window and advances by the clamped step, for any text that the pieces come from |
| `ChunkText.WindowsRebuild` | rust/crates/claw-rag-service/src/chunk.rs:8-26 | the first window, then each later one without its clamped overlap, is the whole text |
| `ChunkText.ChunksCover` | rust/crates/claw-rag-service/src/chunk.rs:17-20 | every position that is not whitespace lies, at its place, in an emitted chunk |
| `ChunkText.ChunksFit` | rust/crates/claw-rag-service/src/chunk.rs:14-20 | an emitted chunk is a piece of the text, not blank, and at most `max_chars` long |
| `ChunkWindows.ChunksInOrder` | rust/crates/claw-rag-service/src/chunk.rs:4-28 | the chunks are, in order, the pieces that are not blank of windows at multiples of the step, `max_chars` long unless cut at the end, as many as it takes to reach it; the step is `max_chars - overlap`, or 1 where the overlap is as large as the window |
| `ChunkWindows.BlankIff` | rust/crates/claw-rag-service/src/chunk.rs:17-20 | a piece is left out exactly if it is nothing but whitespace |
| `VectorBlob.F32SliceToBlob` | rust/crates/claw-rag-service/src/db.rs:156-162 | the loop writes four little-endian bytes for each float |
| `VectorBlob.BlobToF32Vec` | rust/crates/claw-rag-service/src/db.rs:164-173 | the loop reads them back, and refuses a blob of the wrong length |
| `VectorBlob.BlobRoundTrip` | rust/crates/claw-rag-service/src/db.rs:156-173 | a vector written and read is the same vector, bit for bit |
| `VectorBlob.VectorRoundTrip` | rust/crates/claw-rag-service/src/db.rs:156-173 | a blob of the right length read and written is the same blob |
| `VectorBlob.LittleEndian` | rust/crates/claw-rag-service/src/db.rs:156-162 | the bytes of each float stand at its place, the lowest first |
| `RagDatabase.Database.FileIsUnchanged` | rust/crates/claw-rag-service/src/db.rs:58-76 | true exactly when the stored row has this hash, size and time |
| `RagDatabase.Database.UpsertFileMeta` | rust/crates/claw-rag-service/src/db.rs:78-100 | the row of one file is replaced or added, all else kept |
| `RagDatabase.Database.DeleteFileAndChunks` | rust/crates/claw-rag-service/src/db.rs:102-109 | chunks, embeddings and row of one path are gone, all else is kept |
| `RagDatabase.Database.InsertChunk` | rust/crates/claw-rag-service/src/db.rs:125-137 | a chunk is added under a new id, and refused exactly when its path has that ordinal already |
| `RagDatabase.Database.InsertEmbedding` | rust/crates/claw-rag-service/src/db.rs:139-154 | an embedding is stored for a chunk that exists and has none |
| `RagDatabase.Database.InsertEmbedded` | rust/crates/claw-rag-service/src/db.rs:125-154 | at the next ordinal of a path, chunk and embedding are stored together and no constraint is in the way |
| `RagDatabase.Database.LoadAllIndexed` | rust/crates/claw-rag-service/src/db.rs:182-203 | every chunk is joined with its own vector; none is dropped or read twice |
| `RagDatabase.Database.ListAllFiles` | rust/crates/claw-rag-service/src/db.rs:111-123 | lists exactly the paths with a row |
| `RagDatabase.TextsOfWithout` | rust/crates/claw-rag-service/src/db.rs:102-109 | deletion empties one path and touches no other |
| `RagDatabase.DenseOrdinals` | rust/crates/claw-rag-service/src/db.rs:7-29 | a path with n chunks has exactly the ordinals below n |
| `RagDatabase.DenseUnique` | rust/crates/claw-rag-service/src/db.rs:7-29 | no two chunks share path and ordinal |
| `IngestIndex.EveryHistoryFaithful` | rust/crates/claw-rag-service/src/ingest.rs:92-207 | in every state reached by completed, stopped and refused runs, a file row means the path's chunks are exactly the chunks of content with that hash |
| `IngestIndex.AfterFilesAt` | rust/crates/claw-rag-service/src/ingest.rs:145-192 | a path ends as its last readable entry says, any other path is untouched |
| `IngestIndex.RunOrphans` | rust/crates/claw-rag-service/src/ingest.rs:145-204 | a run leaves at most one new path with chunks and no row: the file it stopped at |
| `IngestIndex.CompletedIsRebuildIff` | rust/crates/claw-rag-service/src/ingest.rs:92-207 | a completed run leaves exactly the index of a full rebuild from the same walk if and only if every path in the index was read by the walk, or has a row and was not walked at all |
| `IngestIndex.ReadableWalkRebuildsIff` | rust/crates/claw-rag-service/src/ingest.rs:92-207 | where all walked files can be read, that means exactly that every path with chunks and no row was walked |
| `IngestIndex.CompletedHistoryHasNoOrphans` | rust/crates/claw-rag-service/src/ingest.rs:92-207 | if all runs completed there is never such a path, so every completed run is a rebuild |
| `IngestIndex.RepeatIsQuietIff` | rust/crates/claw-rag-service/src/ingest.rs:92-207 | after a completed run the same walk finds nothing to do if and only if any two readable entries of one path agree, or neither has chunks |
| `IngestIndex.WorkIsFresh` | rust/crates/claw-rag-service/src/ingest.rs:145-192 | over a walk of distinct files, the chunks embedded are exactly those of the files that can be read and have no row with their hash, size and time |
| `Ingest.FlushPathBatch` | rust/crates/claw-rag-service/src/ingest.rs:49-90 | a batch is stored whole at the next ordinals of its path, each chunk with the vector of its own text, after one call, or the database is left alone with the error of the service |
| `Ingest.StoreBatch` | rust/crates/claw-rag-service/src/ingest.rs:69-84 | row by row, chunks and vectors are stored in step and no constraint is ever violated |
| `Ingest.StorePieces` | rust/crates/claw-rag-service/src/ingest.rs:175-185 | all chunks of a path are stored, or a first part of whole batches |
| `Ingest.Reindex` | rust/crates/claw-rag-service/src/ingest.rs:167-191 | the old chunks of a changed file are replaced by the new ones and its row written last |
| `Ingest.IngestFile` | rust/crates/claw-rag-service/src/ingest.rs:145-192 | one file brought up to date: skipped with no call of the service and no change if it cannot be read or its row has its hash, size and time; refused if its size does not fit; else replaced, with one call for each started batch of its chunks; it succeeds unless the service, the size or the number of chunks is in the way |
| `Ingest.PruneLoop` | rust/crates/claw-rag-service/src/ingest.rs:194-204 | rows of files that were not walked go with their chunks, and nothing else |
| `Ingest.RunIngest` | rust/crates/claw-rag-service/src/ingest.rs:92-207 | a run completes as specified, with one call for each started batch of chunks that are new, or stops at a file with whole batches of it stored; where every walked file is unreadable or up to date it succeeds, with nothing embedded and no call; nothing but the service, a size or the number of chunks can stop it, and vectors stay with their texts throughout |
| `Ingest.QueriedVectors` | rust/crates/claw-rag-service/src/db.rs:182-203 | where vectors stayed with their texts, a query reads each text with its own vector |
| `VectorSearch.CauchySchwarz` | rust/crates/claw-rag-service/src/embed.rs:118-129 | the Cauchy-Schwarz inequality over vectors of any length |
| `VectorSearch.CosineBounded` | rust/crates/claw-rag-service/src/embed.rs:118-129 | a score lies in [-1, 1], including the zero-vector and length-mismatch cases |
| `VectorSearch.CosineSelf` | rust/crates/claw-rag-service/src/embed.rs:118-129 | a non-zero vector scores 1 against itself |
| `VectorGeometry.LawOfCosines` | rust/crates/claw-rag-service/src/embed.rs:118-129 | the squared distance of two vectors with lengths x and y is x*x + y*y - 2*x*y times their score |
| `VectorGeometry.NothingScoresZero` | rust/crates/claw-rag-service/src/embed.rs:113-129 | vectors of different dimension, and any with length zero, score 0 |
| `VectorGeometry.HigherIsNearer` | rust/crates/claw-rag-service/src/embed.rs:118-129 | of two vectors of the same length, the one that scores higher against a query is the one that is nearer to it |
| `VectorSearch.QueryIndex` | rust/crates/claw-rag-service/src/search.rs:11-79 | the answer to a query: no hits without a database or rows, errors of the embedding service and of the dimension, the best min(top_k, 64, rows) hits otherwise, each with the first 480 characters of its text |
| `VectorSearch.BestHits` | rust/crates/claw-rag-service/src/search.rs:54-73 | the hits are taken off the scored and sorted rows with their path, snippet and score |
| `VectorSearch.RankingShape` | rust/crates/claw-rag-service/src/search.rs:54-60 | the ranking holds every row once with its own score, by descending score, equal scores in row order |
| `VectorSearch.HitsAreBest` | rust/crates/claw-rag-service/src/search.rs:61-73 | the hits are the first min(top_k, 64, rows) of the ranking: every row stands in it once, no row left out outscores a hit, and of equal scores the earlier row wins |
| `VectorGeometry.HitsAreNearest` | rust/crates/claw-rag-service/src/search.rs:54-73 | over rows of the same length, no row left out is nearer to the query than a hit |
| `Scheduler.OwnInterval` | rust/crates/os-sense/src/scheduler.rs:39-47 | setting the interval of one dimension sets what is read for it, and for no other |
| `Scheduler.CollectionScheduler.constructor` | rust/crates/os-sense/src/scheduler.rs:112-130 | every dimension is first due at the start time and no run is counted |
| `Scheduler.CollectionScheduler.New` | rust/crates/os-sense/src/scheduler.rs:112-130 | a scheduler exists exactly if all five intervals and the retry delay are positive |
| `Scheduler.CollectionScheduler.DueDimensions` | rust/crates/os-sense/src/scheduler.rs:138-150 | exactly the due dimensions, in the fixed order |
| `Scheduler.CollectionScheduler.MarkAttempted` | rust/crates/os-sense/src/scheduler.rs:156-187 | deadlines and run count after marking, as the specification says |
| `Scheduler.CollectionScheduler.MarkCollected` | rust/crates/os-sense/src/scheduler.rs:152-154 | all attempted dimensions are marked as updated |
| `Scheduler.CollectionScheduler.IsDue` | rust/crates/os-sense/src/scheduler.rs:133-135 | true exactly when some dimension is due |
| `Scheduler.CollectionScheduler.NextDueMs` | rust/crates/os-sense/src/scheduler.rs:195-204 | the next deadline, or u64::MAX once the run limit is reached |
| `Scheduler.EarliestIsLeast` | rust/crates/os-sense/src/scheduler.rs:199-203 | the next deadline is the least effective one, attained by a dimension |
| `Scheduler.NextDueIs` | rust/crates/os-sense/src/scheduler.rs:195-204 | the next deadline is that of some dimension and no later than any other, or u64::MAX where the run limit is reached |
| `Scheduler.IsDueIff` | rust/crates/os-sense/src/scheduler.rs:133-218 | something is due at `now` if and only if the limit is unreached and the next deadline is at most `now` |
| `SchedulerRuns.NextIndexIsLeast` | rust/crates/os-sense/src/scheduler.rs:174-182 | the grid index computed by division is the least one strictly after the time |
| `SchedulerRuns.AdvancedExact` | rust/crates/os-sense/src/scheduler.rs:174-182 | for a due deadline the saturating steps give exactly the mathematical advance, capped once at u64::MAX |
| `SchedulerRuns.AdvancedOnGrid` | rust/crates/os-sense/src/scheduler.rs:174-182 | the new cadence deadline is min(u64::MAX, the least start + k * interval strictly after `now`) |
| `SchedulerRuns.RunInv` | rust/crates/os-sense/src/scheduler.rs:156-187 | over every run that attempts only due dimensions: cadence deadlines stay on the grid or at u64::MAX, the effective deadline is never before it, and completed runs never exceed the limit |
| `SchedulerRuns.UpdateKeepsCadence` | rust/crates/os-sense/src/scheduler.rs:156-187 | in every reachable state an update of a due dimension puts it at the least later grid point |
| `SchedulerRuns.FailureRetries` | rust/crates/os-sense/src/scheduler.rs:183-185 | a failed dimension is due again exactly `failure_retry_ms` after the attempt, and not before, however often the attempt names it |
| `SchedulerRuns.EachMentionSteps` | rust/crates/os-sense/src/scheduler.rs:162-187 | a call that names an updated dimension k times puts it k - 1 grid points behind the least one after the time, capped at u64::MAX |
| `SchedulerRuns.DueInRun` | rust/crates/os-sense/src/scheduler.rs:138-170 | over every run, a dimension is due exactly while fewer calls than the limit attempted something, whether or not it succeeded, and its retry, or else its cadence deadline, has come |
| `SchedulerRuns.NothingDueTwice` | rust/crates/os-sense/src/scheduler.rs:156-187 | attempting everything that is due, whatever succeeds, leaves nothing due at that time if and only if the time is before u64::MAX or the run limit is reached |
| `SchedulerRuns.SuccessesBounded` | rust/crates/os-sense/src/scheduler.rs:156-187 | on a monotone clock, updates of a dimension by time T before u64::MAX number at most (T - start) / interval + 1 |
| `SchedulerRuns.RoomSufficesIff` | rust/crates/os-sense/src/scheduler.rs:156-187 | that bound holds for every run up to T if and only if T is before u64::MAX, where saturated deadlines stay due forever, or the run limit is no larger than the bound |
| `Fnv.StableHashBytes` | rust/crates/api/src/prompt_cache.rs:492-499 | the loop computes the FNV-1a hash |
| `Fnv.XorLowBits` | rust/crates/api/src/prompt_cache.rs:495 | the exclusive or with a byte is one at every bit of the state |
| `Fnv.PublishedHashes` | rust/crates/api/src/prompt_cache.rs:492-499 | the hashes of the empty text and of `a` are the published FNV-1a values |
| `Fnv.StepIsBijective` | rust/crates/api/src/prompt_cache.rs:492-499 | for each byte the step is a bijection on the 64-bit words, with an explicit inverse |
| `Fnv.StepSeparatesBytes` | rust/crates/api/src/prompt_cache.rs:492-499 | from the same state different bytes lead to different states |
| `Fnv.CommonSuffix` | rust/crates/api/src/prompt_cache.rs:492-499 | a common suffix never changes whether two byte strings collide |
| `Fnv.OneByteChangeNeverCollides` | rust/crates/api/src/prompt_cache.rs:492-499 | byte strings of equal length that differ in exactly one position never collide |
| `PromptCache.PromptCache.LookupCompletion` | rust/crates/api/src/prompt_cache.rs:145-193 | the answer and the whole new state of a lookup: an entry of another version, or too old, is not served and is deleted |
| `PromptCache.PromptCache.RecordUsageInternal` | rust/crates/api/src/prompt_cache.rs:209-243 | the break that is found and the whole new state of a record; against another version of the fingerprint any drop is expected |
| `PromptCache.LookupRefinesHistory` | rust/crates/api/src/prompt_cache.rs:145-243 | with a clock that never goes back and no key collisions, a lookup answers r exactly when the last response recorded for the request is r and is younger than the time to live; deletion on expiry is unobservable |
| `PromptCache.RefinesHistoryIff` | rust/crates/api/src/prompt_cache.rs:145-243 | over a set of requests that agreement holds for every history if and only if no two of them collide, or nothing is ever served |
| `PromptCache.AgreesWithHistoryIff` | rust/crates/api/src/prompt_cache.rs:145-243 | whatever the clock does, without key collisions, a lookup agrees with the history unless, and only unless, the last response is younger than the time to live though a lookup has evicted it since, or nothing is ever served |
| `PromptCache.ClockStepsBack` | rust/crates/api/src/prompt_cache.rs:170-178 | one case of it: a lookup at the end of a response's time and one at its beginning again find it gone though it is young |
| `PromptCache.StatsConserved` | rust/crates/api/src/prompt_cache.rs:145-243 | over every history: hits and misses add up to lookups, records to tracked requests, breaks counted are at most the tracked requests, token totals are the sums over hits and records |
| `PromptCache.BreaksAreDrops` | rust/crates/api/src/prompt_cache.rs:209-382 | over every history of requests whose parts do not collide, unexpected breaks are exactly the drops below the last call tracked or served with the same prompt within its time, expected ones exactly the other drops, and the statistics name that call's usage |
| `PromptCache.BreakBlamedIff` | rust/crates/api/src/prompt_cache.rs:314-382 | between two requests whose parts do not collide, a drop is reported exactly from the configured size on, and blamed on exactly the parts of the prompt that differ, by name, else on expiry, else on the cache |
| `PromptCache.LastNamed` | rust/crates/api/src/prompt_cache.rs:145-312 | over every history the statistics name the last request looked up, and whether the last usage came from the cache or from the service |
| `PromptCache.OneByteChangeIsExplained` | rust/crates/api/src/prompt_cache.rs:314-382 | a request that differs from the one before in one byte of its messages never counts as an unexpected break |
| `Redaction.RedactLoop` | rust/crates/os-sense/src/redaction.rs:18-82 | the loop over the tokens computes the masking automaton |
| `Redaction.RedactLength` | rust/crates/os-sense/src/redaction.rs:18-82 | one token comes out for each token that goes in |
| `Redaction.RedactAt` | rust/crates/os-sense/src/redaction.rs:22-80 | at each position: masked exactly while the counter is positive, which then falls by one; otherwise the token decides |
| `Redaction.FollowersMasked` | rust/crates/os-sense/src/redaction.rs:22-27 | as many tokens as one asks for come out masked behind it |
| `Redaction.MaskedLeavesNoTrace` | rust/crates/os-sense/src/redaction.rs:22-27 | whatever stood in a masked place, the output is the same |
| `HiddenValues.KeyedToken` | rust/crates/os-sense/src/redaction.rs:29-71 | what becomes of any token with a sensitive key, a separator and a value: masked behind its split point, or unchanged where an earlier separator leaves no sensitive name in front of it, and then the next tokens are masked |
| `TokenMeaning.KeyedMeans` | rust/crates/os-sense/src/redaction.rs:30-60 | a token with a sensitive name anywhere in front of its split comes out masked behind it; behind nothing but quotes it asks for one token, or two of an authorization, and one of those where a scheme is its value; behind an odd number of quotes for one; else for none |
| `TokenMeaning.NameMeans` | rust/crates/os-sense/src/redaction.rs:63-71 | any other token with a sensitive name in it comes out as it is and asks for the next token, or the next two if it names an authorization |
| `TokenMeaning.SchemeMeans` | rust/crates/os-sense/src/redaction.rs:72-76 | of the others, the word of a scheme comes out bare and asks for the next token |
| `TokenMeaning.PlainMeans` | rust/crates/os-sense/src/redaction.rs:77-80 | all that is left comes out as it is and asks for nothing |
| `TokenMeaning.TokenInText` | rust/crates/os-sense/src/redaction.rs:22-80 | in a text, exactly as many tokens behind one that is reached unmasked are masked as it asks for, and the one behind those is reached unmasked |
| `TokenMeaning.NothingAsks` | rust/crates/os-sense/src/redaction.rs:44-60 | `password:` asks for the next token, `authorization:` for the next two |
| `TokenMeaning.SchemeAsks` | rust/crates/os-sense/src/redaction.rs:44-60 | `Authorization:Bearer`, in any case, asks for exactly one |
| `ValueMeaning.SensitiveIff` | rust/crates/os-sense/src/redaction.rs:1-17 | a key is sensitive exactly if one of the listed names stands anywhere in its lower-case text |
| `HiddenValues.ValueHiddenIff` | rust/crates/os-sense/src/redaction.rs:29-60 | for every sensitive key and every value: the value is hidden if and only if it is the replacement already, or the token splits no later than behind the key and what is in front of the split is a sensitive name |
| `HiddenValues.ValueHidden` | rust/crates/os-sense/src/redaction.rs:29-60 | behind a key that does not split the token earlier, the output is the key, the separator and the replacement if and only if the separator is `=` or the value has no `=`; otherwise the value comes out up to its first `=` |
| `HiddenValues.PaddedValueShows` | rust/crates/os-sense/src/redaction.rs:30-42 | `token:YWJj==` comes out as `token:YWJj=[REDACTED]`: the first `=` splits it, not the earlier `:` |
| `HiddenValues.EarlierPairShows` | rust/crates/os-sense/src/redaction.rs:30-42 | `a=1&password=abc` comes out unchanged: its first `=` belongs to another name |
| `HiddenValues.SensitiveHidden` | rust/crates/os-sense/src/redaction.rs:22-60 | in a text, a sensitive key reached unmasked hides its value in its own token exactly under that condition, and where it splits the token, as many later tokens as that value asks for: one for an opened quote or a scheme, one or two for a value still to come, none otherwise |
| `HiddenValues.BareKeyHides` | rust/crates/os-sense/src/redaction.rs:63-71 | a sensitive key that is not masked itself hides the next token, and one that names an authorization the next two |
| `QuotedValues.RunMaskedIff` | rust/crates/os-sense/src/redaction.rs:22-82 | all of the next n tokens behind any token reached unmasked come out masked if and only if those it does not ask for are [REDACTED] already |
| `QuotedValues.QuotedValueHiddenIff` | rust/crates/os-sense/src/redaction.rs:22-60 | of a value in quotes over several tokens, behind a sensitive key that splits its token, the first token is masked, and all the others are if and only if those not reached are [REDACTED] already; reached is one, or none where the first holds an odd number of quotes of the other kind and is not the scheme of an authorization, or two where it is nothing but quotes behind an authorization |
| `QuotedValues.QuotedWordShows` | rust/crates/os-sense/src/redaction.rs:18-84 | `password="a b c"` comes out as `password=[REDACTED] [REDACTED] c"`, with its last word |
| `QuotedValues.ApostropheShows` | rust/crates/os-sense/src/redaction.rs:18-84 | `password="it's a"` comes out as `password=[REDACTED] a"`: two quotes of different kinds look closed |
| `Redaction.SecondPass` | rust/crates/os-sense/src/redaction.rs:18-82 | a second pass whose counter starts no higher changes nothing, for every classification that settles |
| `Redaction.SecondPassMasksNoMore` | rust/crates/os-sense/src/redaction.rs:18-82 | in front of every position the counter of that second pass is no higher than the counter of the first was |
| `Redaction.ClassifySettles` | rust/crates/os-sense/src/redaction.rs:29-80 | the classification settles: what a token becomes is left as it is and asks for no more masking |
| `RedactedText.RedactSensitiveText` | rust/crates/os-sense/src/redaction.rs:18-91 | the text is split at whitespace, masked, joined by single spaces and cut to length |
| `RedactedText.SplitJoined` | rust/crates/os-sense/src/redaction.rs:21-82 | tokens joined by single spaces are split into the same tokens again |
| `RedactedText.SplitWoven` | rust/crates/os-sense/src/redaction.rs:21 | whatever blanks stand around and between them, splitting finds exactly the words of a text, in order |
| `RedactedText.RedactTextIdempotent` | rust/crates/os-sense/src/redaction.rs:18-82 | redaction before it is cut is idempotent on every text |
| `CutRedaction.SecondPassOfCut` | rust/crates/os-sense/src/redaction.rs:18-91 | a second pass over a text that was cut keeps its whole tokens and changes only the token with the marker |
| `CutRedaction.RedactionIdempotentIff` | rust/crates/os-sense/src/redaction.rs:18-91 | for every text and length, redacting and cutting is idempotent if and only if nothing is cut, or, in the token that is cut, what is left in the place of a masked text properly begins `[REDACTED]` |
| `CutRedaction.CutBehindExample` | rust/crates/os-sense/src/redaction.rs:84-91 | `token=abc x` cut after 16 characters, exactly behind a replacement, is not |
| `CutRedaction.CutInsideExample` | rust/crates/os-sense/src/redaction.rs:84-91 | `token:abc=def` cut after 8 characters, in front of the `=` it was split at, is not |
| `ContextPayload.ContextInputBudget.BoundVecWithLimit` | rust/crates/os-sense/src/context_payload.rs:81-113 | a vector keeps its longest prefix within all limits, the budget pays for exactly that, and the outcome reports it |
| `ContextPayload.MadeUnique` | rust/crates/os-sense/src/context_payload.rs:81-113 | over any sequence of calls on a budget, what each call keeps is decided by the inputs and limits alone |
| `ContextPayload.BudgetConserved` | rust/crates/os-sense/src/context_payload.rs:65-113 | over any sequence of calls, what was kept and what remains add up to the initial item and byte budgets |
| `ContextPayload.FitsIff` | rust/crates/os-sense/src/context_payload.rs:81-113 | capping the cost of an item decides nothing: a prefix is kept exactly if its real costs are within the limits, and it is charged in full |
| `ContextPayload.BoundedPage` | rust/crates/os-sense/src/context_payload.rs:677-716 | the page shows the items of the smallest keys, one per key, and its counts are honest |
| `ContextPayload.FirstIsKept` | rust/crates/os-sense/src/context_payload.rs:692-696 | of several items with the same key the first is shown |
| `ContextPayload.KeysPermutationInvariant` | rust/crates/os-sense/src/context_payload.rs:692-704 | the keys of a page do not depend on the order of the items |
| `ContextPayload.TruncatedIff` | rust/crates/os-sense/src/context_payload.rs:705-716 | a page says it is cut exactly when items were left out, here or before |
| `ContextPayload.CombinedPages` | rust/crates/os-sense/src/context_payload.rs:866-877 | the accounting of two bounded pages counts the different keys of both and all that was declared omitted, barring saturation, is of unknown size exactly if either page is, and says cut exactly when either page left something out |
| `ContextPayload.BoundedPortRefs` | rust/crates/os-sense/src/context_payload.rs:771-802 | exactly the bindings within the limits, in order, and the input counted for the units looked at; flagged unknown if and only if a limit was met, complete if not flagged |
| `ContextPayload.StopsFirst` | rust/crates/os-sense/src/context_payload.rs:775-783 | the units looked at end with the first at which all bindings together reach the limit, or with the last there is |
| `ContextPayload.PortsPage` | rust/crates/os-sense/src/context_payload.rs:531-552 | the page of ports is of unknown size exactly when a limit was met on the way in, and complete exactly when none was, none was declared omitted and all different bindings fit; it then shows those of all units and those without one, else those collected within the limits with one more in the total; its counts and its accounting are honest |
| `AgentLoop.Run` | rust/crates/claw-analog/src/lib.rs:1285-1419 | the turn loop sends the requests and keeps the conversation of the specification |
| `AgentLoop.CallsAreCopied` | rust/crates/claw-analog/src/lib.rs:1580-1614 | the tool calls copied into the conversation are exactly those carried out, in order, by id |
| `AgentTranscript.ContentIsCopied` | rust/crates/claw-analog/src/lib.rs:1597-1614 | the blocks that are no thoughts are copied one for one, in order, with their text, id, name and input |
| `AgentTranscript.CopiedBlockForBlock` | rust/crates/claw-analog/src/lib.rs:1597-1614 | content without thoughts is copied block for block |
| `AgentTranscript.ThoughtsAreLeftOut` | rust/crates/claw-analog/src/lib.rs:1580-1614 | a thought put anywhere changes neither the message kept nor the calls carried out |
| `AgentLoop.RequestsWellShaped` | rust/crates/claw-analog/src/lib.rs:1285-1419 | from any conversation that awaits the model: every request alternates roles with each tool call answered once, in order, by id; each extends the one before by two messages; there are at most `max_turns`; and the conversation kept extends the last by nothing if the model failed, else by its answer or, with the turns used up, by an answered turn |
| `AgentLoop.FreshRun` | rust/crates/claw-analog/src/lib.rs:1257-1419 | in particular for every fresh run, whatever the model and the tools do |
| `AgentTranscript.RunIsTold` | rust/crates/claw-analog/src/lib.rs:1285-1419 | over every run: behind each request stands either nothing, as the model failed, or exactly the text and calls of its response, and behind these, exactly if it made calls and stopped for them, one result for each call with its tool's text, flagged as an error exactly if that starts with `error:`; the run goes on exactly then and below `max_turns` |
| `AgentTranscript.FreshRunIsTold` | rust/crates/claw-analog/src/lib.rs:1257-1419 | the same for a fresh run, whose first request is the prompt alone |
| `Skills.LoadSkillsFromRoots` | rust/crates/commands/src/lib.rs:3922-3999 | the listing computed is that of the specification, which `SkillListing` tells from the entries, or fails when a root or a skill cannot be read |
| `Skills.RootSkillsLoop` | rust/crates/commands/src/lib.rs:3927-3985 | the skills of one root in listing order, directories and legacy markdown files told apart |
| `Skills.MarkLoop` | rust/crates/commands/src/lib.rs:3987-3995 | the loop over the sorted skills of a root marks those whose name was claimed before, and claims the others |
| `Skills.RootNamesLoop` | rust/crates/commands/src/lib.rs:3010-3055 | the names and markdown files of the skills of one root, or failure when one cannot be read |
| `Skills.ResolveSkillPath` | rust/crates/commands/src/lib.rs:2999-3069 | the search over the roots, root by root, with its errors for an empty name, an unreadable root and a missing skill; `SkillListing` tells from the entries what it finds |
| `Skills.MarkAt` | rust/crates/commands/src/lib.rs:3987-3995 | every skill is listed as found, shadowed by the source of the first earlier one of its case-folded name, and by none if there is none |
| `Skills.MarkedFirst` | rust/crates/commands/src/lib.rs:3987-3995 | the unshadowed skill of a name is the first of that name, and the only one |
| `Skills.ResolveIsFirst` | rust/crates/commands/src/lib.rs:3008-3063 | resolving finds the file of the first skill of that name over all roots, or reports it missing |
| `Skills.LaterRootsUnread` | rust/crates/commands/src/lib.rs:3008-3063 | roots behind the one that has the skill do not matter, even unreadable ones |
| `Skills.LookupsAgree` | rust/crates/commands/src/lib.rs:2999-3069 | resolving what the user typed finds exactly the one unshadowed listed skill of that name, ignoring case, and fails if and only if there is none |
| `SkillListing.ListingIff` | rust/crates/commands/src/lib.rs:3922-3999 | the listing fails exactly if a root or a skill in one cannot be read; else it holds, under the name of its front matter or else its file name, stem or `SKILL`, exactly the directories with a SKILL.md and, in legacy roots, the markdown files |
| `SkillListing.ListedResolves` | rust/crates/commands/src/lib.rs:2999-3069 | where the listing succeeds, a name resolves exactly if it is listed in some case, and then to the file of such a skill |
| `Text.LowerIff` | rust/crates/commands/src/lib.rs:3059 | names are equal but for case exactly if they are so letter by letter, in ASCII |
| `SkillListing.RequestedIs` | rust/crates/commands/src/lib.rs:3000-3003 | blanks around it, and slashes and then dollar signs in front, are not part of the name that is looked for |
| `SkillListing.NoNameIsRefused` | rust/crates/commands/src/lib.rs:3000-3006 | where blanks, slashes and dollar signs are all that was typed, it is refused as empty, whatever roots there are |
| `SkillListing.RootIsSorted` | rust/crates/commands/src/lib.rs:3986 | the skills of one root are listed by name |

## Left out

- HTTP, TCP, processes, environment variables and the file system: response bodies are lists of chunks, directories are listings, transport errors do not occur.
- SQLite: tables are sequences and maps, one call of a statement is atomic, and I/O errors of the database do not occur; constraint violations do.
- Real JSON: values and events are abstract, and parsing is a function that agrees with printing on printed events only.
- SseStream.SseParser.constructor: provider and model are held as part of the frame reader instead of two fields, since only error values mention them.
- SseStream.MessageStream.NextEvent: events are not observed for the usage that is recorded in the prompt cache, and chunks arrive without transport errors.
- StreamAssembly.StreamToMessage: the text echoed to the terminal while streaming, and errors of writing it, are not part of the model; the answer to a request that is sent again is the value `SentAgain`.
- AgentLoop.Run: messages printed per turn, session files and runs resumed from them, permission checks and what the tools do; a tool result is any text, a failed request ends the run.
- Ingest.RunIngest: the walk itself with its name and size filters, the sorting of its result, the time of indexing stored with a row, and the vector database behind a feature flag; an unreadable file is one without content.
- IngestIndex.CompletedIsRebuildIff: content hashes are taken to be injective; without that an unchanged row proves nothing about its content.
- VectorSearch.QueryIndex: f32 rounding and NaN; scores are exact reals and the square root is a parameter with its defining property.
- VectorBlob.BlobRoundTrip: floats are 32-bit words; what a word means as a number is not modelled.
- PromptCache.PromptCache.LookupCompletion: cache files are a map by request hash, and hashes are numbers instead of their hexadecimal text.
- PromptCache.PromptCache.RecordUsageInternal: reasons of a break are values instead of sentences; counters do not overflow, and writing the cache does not fail.
- Scheduler.CollectionScheduler.MarkAttempted: the count of runs does not overflow `usize`.
- ContextPayload.BoundedPage: keys are integers in the order of the original string keys; how the pages of each section map their items is not modelled.
- Skills.LookupsAgree: roots are given instead of discovered, front matter is parsed already, and a directory lists its entries in the same order for both lookups.
- Sanitizing of path segments, mock embedding vectors, rendering, configuration, argument parsing, the scenario table of the mock service and the Python tree: they would only add easy members.
