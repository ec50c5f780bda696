/** The completion cache of a session and its bookkeeping: `PromptCache`. */
module PromptCache {
  import opened Machine
  import opened StreamTypes
  import opened Wrappers
  import Fnv

  const FINGERPRINT_VERSION: nat := 1

  /** A request as the JSON it is hashed from: the whole of it, which determines it, and
      its four parts. */
  datatype Request = Request(json: bytes, model: bytes, system: bytes, tools: bytes, messages: bytes)

  datatype Config = Config(completionTtl: nat, promptTtl: nat, breakMinDrop: nat)

  datatype Entry = Entry(cachedAt: nat, version: nat, response: MessageResponse)

  datatype Tracked = Tracked(
    observedAt: nat, version: nat,
    modelHash: u64, systemHash: u64, toolsHash: u64, messagesHash: u64,
    cacheRead: nat)

  datatype Reason =
    | VersionChanged(from: nat, to: nat)
    | PromptChanged(parts: seq<string>)
    | TtlExpiry(elapsed: nat)
    | Unexplained

  datatype CacheBreak = CacheBreak(unexpected: bool, reason: Reason, previousRead: nat, currentRead: nat, drop: nat)

  datatype Stats = Stats(
    trackedRequests: nat, hits: nat, misses: nat, writes: nat,
    expectedInvalidations: nat, unexpectedBreaks: nat,
    totalCreation: nat, totalRead: nat,
    lastCreation: Option<u32>, lastRead: Option<u32>,
    lastHash: Option<u64>, lastKey: Option<u64>, lastSource: Option<Source>, lastReason: Option<Reason>)

  /** Where a usage came from. */
  datatype Source = CompletionCache | ApiResponse

  const NO_STATS := Stats(0, 0, 0, 0, 0, 0, 0, 0, None, None, None, None, None, None)

  datatype State = State(entries: map<u64, Entry>, stats: Stats, previous: Option<Tracked>)

  const FRESH_STATE := State(map[], NO_STATS, None)

  function Key(r: Request): u64 {
    Fnv.Hash(r.json)
  }

  function Track(r: Request, usage: Usage, now: nat): Tracked {
    Tracked(now, FINGERPRINT_VERSION, Fnv.Hash(r.model), Fnv.Hash(r.system), Fnv.Hash(r.tools), Fnv.Hash(r.messages), usage.cacheRead)
  }

  function ChangedParts(p: Tracked, c: Tracked): seq<string> {
    (if p.modelHash != c.modelHash then ["model changed"] else [])
    + (if p.systemHash != c.systemHash then ["system prompt changed"] else [])
    + (if p.toolsHash != c.toolsHash then ["tool definitions changed"] else [])
    + (if p.messagesHash != c.messagesHash then ["message payload changed"] else [])
  }

  function DetectCacheBreak(c: Config, previous: Option<Tracked>, current: Tracked): Option<CacheBreak> {
    if previous.None? then None
    else
      var p := previous.value;
      var drop := SaturatingSub(p.cacheRead, current.cacheRead);
      if p.version != current.version then
        Some(CacheBreak(false, VersionChanged(p.version, current.version), p.cacheRead, current.cacheRead, drop))
      else if drop < c.breakMinDrop then None
      else
        var parts := ChangedParts(p, current);
        var elapsed := SaturatingSub(current.observedAt, p.observedAt);
        if parts != [] then Some(CacheBreak(false, PromptChanged(parts), p.cacheRead, current.cacheRead, drop))
        else if elapsed > c.promptTtl then Some(CacheBreak(false, TtlExpiry(elapsed), p.cacheRead, current.cacheRead, drop))
        else Some(CacheBreak(true, Unexplained, p.cacheRead, current.cacheRead, drop))
  }

  function ApplyUsage(s: Stats, u: Usage, hash: u64, source: Source): Stats {
    s.(totalCreation := s.totalCreation + u.cacheCreation, totalRead := s.totalRead + u.cacheRead,
       lastCreation := Some(u.cacheCreation), lastRead := Some(u.cacheRead), lastHash := Some(hash), lastSource := Some(source))
  }

  function Missed(s: Stats, key: u64): Stats {
    s.(misses := s.misses + 1, lastKey := Some(key))
  }

  /** The entry is current and younger than the time to live. */
  predicate Live(e: Entry, c: Config, now: nat) {
    e.version == FINGERPRINT_VERSION && SaturatingSub(now, e.cachedAt) < c.completionTtl
  }

  function Answer(st: State, c: Config, r: Request, now: nat): Option<MessageResponse> {
    if Key(r) in st.entries && Live(st.entries[Key(r)], c, now) then Some(st.entries[Key(r)].response) else None
  }

  function AfterLookup(st: State, c: Config, r: Request, now: nat): State {
    match Answer(st, c, r, now)
    case None => State(st.entries - {Key(r)}, Missed(st.stats, Key(r)), st.previous)
    case Some(response) =>
      State(
        st.entries,
        ApplyUsage(st.stats.(hits := st.stats.hits + 1, lastKey := Some(Key(r))), response.usage, Key(r), CompletionCache),
        Some(Track(r, response.usage, now)))
  }

  function CountBreak(s: Stats, b: Option<CacheBreak>): Stats {
    if b.None? then s
    else if b.value.unexpected then s.(unexpectedBreaks := s.unexpectedBreaks + 1, lastReason := Some(b.value.reason))
    else s.(expectedInvalidations := s.expectedInvalidations + 1, lastReason := Some(b.value.reason))
  }

  function AfterRecord(st: State, c: Config, r: Request, u: Usage, response: Option<MessageResponse>, now: nat): State {
    var broken := DetectCacheBreak(c, st.previous, Track(r, u, now));
    var stats := CountBreak(ApplyUsage(st.stats.(trackedRequests := st.stats.trackedRequests + 1), u, Key(r), ApiResponse), broken);
    State(
      if response.Some? then st.entries[Key(r) := Entry(now, FINGERPRINT_VERSION, response.value)] else st.entries,
      if response.Some? then stats.(writes := stats.writes + 1) else stats,
      Some(Track(r, u, now)))
  }

  class PromptCache {
    const config: Config
    var entries: map<u64, Entry>
    var stats: Stats
    var previous: Option<Tracked>

    constructor (config: Config)
      ensures this.config == config && StateOf() == FRESH_STATE
    {
      this.config := config;
      entries, stats, previous := map[], NO_STATS, None;
    }

    function StateOf(): State
      reads this
    {
      State(entries, stats, previous)
    }

    method LookupCompletion(r: Request, now: nat) returns (answer: Option<MessageResponse>)
      modifies this
      ensures answer == Answer(old(StateOf()), config, r, now)
      ensures StateOf() == AfterLookup(old(StateOf()), config, r, now)
      ensures var key, had := Fnv.Hash(r.json), old(entries);
              && (answer.Some? <==> key in had && had[key].version == FINGERPRINT_VERSION
                                    && (now < had[key].cachedAt + config.completionTtl && config.completionTtl > 0))
              && (answer.Some? ==> answer.value == had[key].response && entries == had)
              && (answer.None? ==> entries == had - {key})
    {
      var key := Fnv.StableHashBytes(r.json);
      if key !in entries {
        stats := Missed(stats, key);
        assert entries - {key} == entries;
        return None;
      }
      var entry := entries[key];
      if entry.version != FINGERPRINT_VERSION {
        stats := Missed(stats, key);
        entries := entries - {key};
        return None;
      }
      var expired := SaturatingSub(now, entry.cachedAt) >= config.completionTtl;
      if expired {
        stats := Missed(stats, key);
        entries := entries - {key};
        return None;
      }
      stats := stats.(hits := stats.hits + 1, lastKey := Some(key));
      stats := ApplyUsage(stats, entry.response.usage, key, CompletionCache);
      previous := Some(Track(r, entry.response.usage, now));
      return Some(entry.response);
    }

    method RecordUsageInternal(r: Request, usage: Usage, response: Option<MessageResponse>, now: nat)
      returns (broken: Option<CacheBreak>)
      modifies this
      ensures broken == DetectCacheBreak(config, old(previous), Track(r, usage, now))
      ensures old(previous).Some? && old(previous).value.version != FINGERPRINT_VERSION ==>
                && broken.Some? && !broken.value.unexpected
                && broken.value.reason == VersionChanged(old(previous).value.version, FINGERPRINT_VERSION)
      ensures StateOf() == AfterRecord(old(StateOf()), config, r, usage, response, now)
    {
      var key := Fnv.StableHashBytes(r.json);
      var current := Track(r, usage, now);
      broken := DetectCacheBreak(config, previous, current);
      stats := stats.(trackedRequests := stats.trackedRequests + 1);
      stats := ApplyUsage(stats, usage, key, ApiResponse);
      if broken.Some? {
        if broken.value.unexpected {
          stats := stats.(unexpectedBreaks := stats.unexpectedBreaks + 1);
        } else {
          stats := stats.(expectedInvalidations := stats.expectedInvalidations + 1);
        }
        stats := stats.(lastReason := Some(broken.value.reason));
      }
      previous := Some(current);
      if response.Some? {
        entries := entries[key := Entry(now, FINGERPRINT_VERSION, response.value)];
        stats := stats.(writes := stats.writes + 1);
      }
    }
  }

  // ----- A history of calls -----

  datatype Op =
    | Lookup(now: nat, request: Request)
    | RecordResponse(now: nat, request: Request, response: MessageResponse)
    | RecordUsage(now: nat, request: Request, usage: Usage)

  function AfterOp(st: State, c: Config, op: Op): State {
    match op
    case Lookup(now, r) => AfterLookup(st, c, r, now)
    case RecordResponse(now, r, response) => AfterRecord(st, c, r, response.usage, Some(response), now)
    case RecordUsage(now, r, usage) => AfterRecord(st, c, r, usage, None, now)
  }

  function AfterOps(ops: seq<Op>, c: Config): State {
    if ops == [] then FRESH_STATE else AfterOp(AfterOps(ops[..|ops| - 1], c), c, ops[|ops| - 1])
  }

  /** A response and when it was recorded. */
  datatype Recorded = Recorded(at: nat, response: MessageResponse)

  /** The last response that the history recorded for a request. */
  function LastRecorded(ops: seq<Op>, r: Request): Option<Recorded> {
    if ops == [] then None
    else
      var op := ops[|ops| - 1];
      if op.RecordResponse? && op.request == r then Some(Recorded(op.now, op.response))
      else LastRecorded(ops[..|ops| - 1], r)
  }

  /** What a plain history answers, with nothing ever deleted. */
  function HistoryAnswer(ops: seq<Op>, c: Config, r: Request, now: nat): Option<MessageResponse> {
    match LastRecorded(ops, r)
    case Some(Recorded(at, response)) => if now - at < c.completionTtl then Some(response) else None
    case None => None
  }

  /** The clock never goes back, up to `now`. */
  predicate Monotone(ops: seq<Op>, now: nat) {
    ops == [] || (ops[|ops| - 1].now <= now && Monotone(ops[..|ops| - 1], ops[|ops| - 1].now))
  }

  /** No two of the requests hash alike. */
  ghost predicate CollisionFree(rs: set<Request>) {
    forall r, s | r in rs && s in rs && Key(r) == Key(s) :: r == s
  }

  ghost predicate Over(ops: seq<Op>, rs: set<Request>) {
    forall op | op in ops :: op.request in rs
  }

  /** A lookup of the request, since a response was last recorded for it, found it too old. */
  predicate Evicted(ops: seq<Op>, c: Config, r: Request) {
    ops != [] &&
    (var before, op := ops[..|ops| - 1], ops[|ops| - 1];
     if op.RecordResponse? && op.request == r then false
     else Evicted(before, c, r) ||
          (op.Lookup? && op.request == r && LastRecorded(before, r).Some? &&
           SaturatingSub(op.now, LastRecorded(before, r).value.at) >= c.completionTtl))
  }

  /** The store holds the last recorded response until a lookup evicts it. */
  ghost predicate Remembers(st: State, ops: seq<Op>, c: Config, r: Request) {
    match LastRecorded(ops, r)
    case None => Key(r) !in st.entries
    case Some(Recorded(at, response)) =>
      if Evicted(ops, c, r) then Key(r) !in st.entries
      else Key(r) in st.entries && st.entries[Key(r)] == Entry(at, FINGERPRINT_VERSION, response)
  }

  lemma {:induction false} HistoryRemembered(ops: seq<Op>, c: Config, rs: set<Request>, r: Request)
    requires CollisionFree(rs) && Over(ops, rs) && r in rs
    ensures Remembers(AfterOps(ops, c), ops, c, r)
  {
    if ops != [] {
      var op, before := ops[|ops| - 1], ops[..|ops| - 1];
      HistoryRemembered(before, c, rs, r);
      assert op in ops;
      assert Key(op.request) == Key(r) ==> op.request == r;
    }
  }

  /** Whatever the clock does, a lookup answers what the plain history answers, unless the
      response is young again after a lookup had found it too old, or was recorded in the
      future where nothing is ever served. */
  lemma AgreesWithHistoryIff(ops: seq<Op>, c: Config, rs: set<Request>, r: Request, now: nat)
    requires CollisionFree(rs) && Over(ops, rs) && r in rs
    ensures var last := LastRecorded(ops, r);
            Answer(AfterOps(ops, c), c, r, now) == HistoryAnswer(ops, c, r, now) <==>
            !(last.Some? && now - last.value.at < c.completionTtl && (Evicted(ops, c, r) || c.completionTtl == 0))
  {
    HistoryRemembered(ops, c, rs, r);
  }

  /** On a clock that never goes back nothing is young again. */
  lemma {:induction false} EvictedStaysOld(ops: seq<Op>, c: Config, r: Request, now: nat)
    requires Monotone(ops, now)
    ensures LastRecorded(ops, r).Some? ==> LastRecorded(ops, r).value.at <= now
    ensures LastRecorded(ops, r).Some? && Evicted(ops, c, r) ==> now - LastRecorded(ops, r).value.at >= c.completionTtl
  {
    if ops != [] {
      EvictedStaysOld(ops[..|ops| - 1], c, r, ops[|ops| - 1].now);
    }
  }

  /** A lookup answers what the plain history answers: that entries are deleted when they
      expire is unobservable. */
  lemma LookupRefinesHistory(ops: seq<Op>, c: Config, rs: set<Request>, r: Request, now: nat)
    requires Monotone(ops, now) && CollisionFree(rs) && Over(ops, rs) && r in rs
    ensures Answer(AfterOps(ops, c), c, r, now) == HistoryAnswer(ops, c, r, now)
  {
    EvictedStaysOld(ops, c, r, now);
    AgreesWithHistoryIff(ops, c, rs, r, now);
  }

  ghost predicate RefinesHistory(rs: set<Request>, c: Config) {
    forall ops, r, now | Monotone(ops, now) && Over(ops, rs) && r in rs ::
      Answer(AfterOps(ops, c), c, r, now) == HistoryAnswer(ops, c, r, now)
  }

  /** Over a set of requests, every lookup of every history with a clock that never goes
      back agrees with the plain history if and only if no two of them collide, unless
      nothing is ever served. */
  lemma RefinesHistoryIff(rs: set<Request>, c: Config, response: MessageResponse)
    ensures RefinesHistory(rs, c) <==> CollisionFree(rs) || c.completionTtl == 0
  {
    if CollisionFree(rs) {
      forall ops, r, now | Monotone(ops, now) && Over(ops, rs) && r in rs
        ensures Answer(AfterOps(ops, c), c, r, now) == HistoryAnswer(ops, c, r, now)
      {
        LookupRefinesHistory(ops, c, rs, r, now);
      }
    } else if c.completionTtl > 0 {
      var r, s :| r in rs && s in rs && Key(r) == Key(s) && r != s;
      WrongAnswer(r, s, c, response);
      assert Over([RecordResponse(0, r, response)], rs);
    } else {
      forall ops, r, now | Monotone(ops, now) && Over(ops, rs) && r in rs
        ensures Answer(AfterOps(ops, c), c, r, now) == HistoryAnswer(ops, c, r, now)
      {
        EvictedStaysOld(ops, c, r, now);
      }
    }
  }

  /** After a response to `r`, a colliding request gets it too. */
  lemma WrongAnswer(r: Request, s: Request, c: Config, response: MessageResponse)
    requires Key(r) == Key(s) && r != s && c.completionTtl > 0
    ensures var ops := [RecordResponse(0, r, response)];
            Monotone(ops, 0) && Answer(AfterOps(ops, c), c, s, 0) == Some(response) && HistoryAnswer(ops, c, s, 0) == None
  {
    var ops := [RecordResponse(0, r, response)];
    assert ops[..0] == [];
    assert AfterOps(ops, c) == AfterOp(FRESH_STATE, c, ops[0]);
    assert LastRecorded(ops[..0], s) == None;
  }

  /** A clock that steps back can show the deletion: a lookup at the end of a response's
      time and one at its beginning again leave it gone though it is young. */
  lemma ClockStepsBack(r: Request, c: Config, response: MessageResponse, t: nat)
    requires c.completionTtl > 0
    ensures var ops := [RecordResponse(t, r, response), Lookup(t + c.completionTtl, r)];
            Answer(AfterOps(ops, c), c, r, t) == None && HistoryAnswer(ops, c, r, t) == Some(response)
  {
    var first := [RecordResponse(t, r, response)];
    var ops := [RecordResponse(t, r, response), Lookup(t + c.completionTtl, r)];
    assert ops[..1] == first && LastRecorded(first, r) == Some(Recorded(t, response));
    AgreesWithHistoryIff(ops, c, {r}, r, t);
    HistoryRemembered(ops, c, {r}, r);
  }

  // ----- The bookkeeping -----

  function CountLookups(ops: seq<Op>): nat {
    if ops == [] then 0 else CountLookups(ops[..|ops| - 1]) + if ops[|ops| - 1].Lookup? then 1 else 0
  }

  /** The usage that a call brought in: that of a record, or of a response served again. */
  function UsageOf(st: State, c: Config, op: Op): Usage {
    match op
    case Lookup(now, r) => if Answer(st, c, r, now).Some? then Answer(st, c, r, now).value.usage else Usage(0, 0, 0, 0)
    case RecordResponse(_, _, response) => response.usage
    case RecordUsage(_, _, usage) => usage
  }

  function TotalRead(ops: seq<Op>, c: Config): nat {
    if ops == [] then 0
    else TotalRead(ops[..|ops| - 1], c) + UsageOf(AfterOps(ops[..|ops| - 1], c), c, ops[|ops| - 1]).cacheRead
  }

  function TotalCreation(ops: seq<Op>, c: Config): nat {
    if ops == [] then 0
    else TotalCreation(ops[..|ops| - 1], c) + UsageOf(AfterOps(ops[..|ops| - 1], c), c, ops[|ops| - 1]).cacheCreation
  }

  function Breaks(s: Stats): nat {
    s.unexpectedBreaks + s.expectedInvalidations
  }

  /** What one call adds to each counter. */
  lemma StatsStep(st: State, c: Config, op: Op)
    ensures var s, t := st.stats, AfterOp(st, c, op).stats;
            var u := UsageOf(st, c, op);
            && t.hits + t.misses == s.hits + s.misses + (if op.Lookup? then 1 else 0)
            && t.trackedRequests == s.trackedRequests + (if op.Lookup? then 0 else 1)
            && t.writes == s.writes + (if op.RecordResponse? then 1 else 0)
            && t.totalRead == s.totalRead + u.cacheRead && t.totalCreation == s.totalCreation + u.cacheCreation
            && Breaks(t) <= Breaks(s) + (if op.Lookup? then 0 else 1)
            && (st.previous.None? ==> Breaks(t) == Breaks(s))
            && (AfterOp(st, c, op).previous.None? <==> st.previous.None? && op.Lookup? && t.hits == s.hits)
  {
    match op
    case Lookup(now, r) =>
    case RecordResponse(now, r, response) => BreakStep(st, c, r, response.usage, Some(response), now);
    case RecordUsage(now, r, usage) => BreakStep(st, c, r, usage, None, now);
  }

  lemma BreakStep(st: State, c: Config, r: Request, u: Usage, response: Option<MessageResponse>, now: nat)
    ensures Breaks(AfterRecord(st, c, r, u, response, now).stats) ==
            Breaks(st.stats) + if DetectCacheBreak(c, st.previous, Track(r, u, now)).Some? then 1 else 0
  {
  }

  /** What the statistics name as the last: the key of a lookup; where a usage came from; and
      the reason of a break. */
  lemma NamesStep(st: State, c: Config, op: Op)
    ensures var s, t := st.stats, AfterOp(st, c, op).stats;
            var hit := op.Lookup? && Answer(st, c, op.request, op.now).Some?;
            && t.lastKey == (if op.Lookup? then Some(Fnv.Hash(op.request.json)) else s.lastKey)
            && t.lastSource == (if hit then Some(CompletionCache) else if op.Lookup? then s.lastSource else Some(ApiResponse))
            && (op.Lookup? ==> t.lastReason == s.lastReason)
            && (!op.Lookup? ==>
                  var broken := DetectCacheBreak(c, st.previous, Track(op.request, UsageOf(st, c, op), op.now));
                  t.lastReason == if broken.Some? then Some(broken.value.reason) else s.lastReason)
  {
  }

  /** The last lookup of a history, and where its last usage came from. */
  function LastLookup(ops: seq<Op>): Option<Request> {
    if ops == [] then None
    else if ops[|ops| - 1].Lookup? then Some(ops[|ops| - 1].request)
    else LastLookup(ops[..|ops| - 1])
  }

  function LastSource(ops: seq<Op>, c: Config): Option<Source> {
    if ops == [] then None
    else
      var before, op := ops[..|ops| - 1], ops[|ops| - 1];
      if !op.Lookup? then Some(ApiResponse)
      else if Answer(AfterOps(before, c), c, op.request, op.now).Some? then Some(CompletionCache)
      else LastSource(before, c)
  }

  /** Over every history the statistics name the key of the last lookup, and the source of
      the last usage. */
  lemma {:induction false} LastNamed(ops: seq<Op>, c: Config)
    ensures var s, last := AfterOps(ops, c).stats, LastLookup(ops);
            && s.lastKey == (if last.Some? then Some(Fnv.Hash(last.value.json)) else None)
            && s.lastSource == LastSource(ops, c)
  {
    if ops != [] {
      LastNamed(ops[..|ops| - 1], c);
      NamesStep(AfterOps(ops[..|ops| - 1], c), c, ops[|ops| - 1]);
    }
  }

  /** Over every history: each lookup is a hit or a miss, each other call is tracked, no more
      breaks are counted than calls tracked, fewer if nothing was ever served again, and
      the token totals are the sums over all hits and records. */
  lemma {:induction false} StatsConserved(ops: seq<Op>, c: Config)
    ensures var s := AfterOps(ops, c).stats;
            && s.hits + s.misses == CountLookups(ops)
            && s.trackedRequests == |ops| - CountLookups(ops)
            && s.writes <= s.trackedRequests
            && Breaks(s) <= s.trackedRequests && (s.hits == 0 && s.trackedRequests > 0 ==> Breaks(s) < s.trackedRequests)
            && (AfterOps(ops, c).previous.None? <==> s.trackedRequests == 0 && s.hits == 0)
            && s.totalRead == TotalRead(ops, c) && s.totalCreation == TotalCreation(ops, c)
  {
    if ops != [] {
      StatsConserved(ops[..|ops| - 1], c);
      StatsStep(AfterOps(ops[..|ops| - 1], c), c, ops[|ops| - 1]);
    }
  }

  /** A request that differs from the one before in a single byte of its messages is never
      blamed on the cache: the drop is put down to the changed messages. */
  lemma OneByteChangeIsExplained(c: Config, r: Request, s: Request, u: Usage, v: Usage, t: nat, now: nat,
                                 front: bytes, b: byte, d: byte, back: bytes)
    requires r.messages == front + [b] + back && s.messages == front + [d] + back && b != d
    requires v.cacheRead + c.breakMinDrop <= u.cacheRead
    ensures var broken := DetectCacheBreak(c, Some(Track(r, u, t)), Track(s, v, now));
            && broken.Some? && !broken.value.unexpected && broken.value.reason.PromptChanged?
            && "message payload changed" in broken.value.reason.parts
  {
    Fnv.OneByteChangeNeverCollides(front, b, d, back);
    var parts := ChangedParts(Track(r, u, t), Track(s, v, now));
    assert parts[|parts| - 1] == "message payload changed";
  }

  /** The four parts of these requests that are hashed for break detection do not collide. */
  predicate PartsApart(r: Request, s: Request) {
    && (Fnv.Hash(r.model) == Fnv.Hash(s.model) ==> r.model == s.model)
    && (Fnv.Hash(r.system) == Fnv.Hash(s.system) ==> r.system == s.system)
    && (Fnv.Hash(r.tools) == Fnv.Hash(s.tools) ==> r.tools == s.tools)
    && (Fnv.Hash(r.messages) == Fnv.Hash(s.messages) ==> r.messages == s.messages)
  }

  predicate SamePrompt(r: Request, s: Request) {
    r.model == s.model && r.system == s.system && r.tools == s.tools && r.messages == s.messages
  }

  ghost predicate AllApart(rs: set<Request>) {
    forall r, s | r in rs && s in rs :: PartsApart(r, s)
  }

  /** A call that brought a response's usage in, and when. */
  datatype Seen = Seen(now: nat, request: Request, usage: Usage)

  /** The usage that a call is tracked with: of a record, or of a response served again. */
  function SeenBy(st: State, c: Config, op: Op): Option<Seen> {
    if op.Lookup? && Answer(st, c, op.request, op.now).None? then None
    else Some(Seen(op.now, op.request, UsageOf(st, c, op)))
  }

  /** The last such call of a history. */
  function LastSeen(ops: seq<Op>, c: Config): Option<Seen> {
    if ops == [] then None
    else
      var before, op := ops[..|ops| - 1], ops[|ops| - 1];
      var seen := SeenBy(AfterOps(before, c), c, op);
      if seen.Some? then seen else LastSeen(before, c)
  }

  /** Fewer cached tokens were read than by the call before, by at least the set amount. */
  predicate Dropped(c: Config, before: Option<Seen>, usage: Usage) {
    before.Some? && SaturatingSub(before.value.usage.cacheRead, usage.cacheRead) >= c.breakMinDrop
  }

  /** Nothing about the prompt explains a drop: it is the same one, and not too old. */
  predicate Unexplainable(c: Config, before: Option<Seen>, r: Request, now: nat) {
    before.Some? && SamePrompt(before.value.request, r) && SaturatingSub(now, before.value.now) <= c.promptTtl
  }

  /** The records of a history whose drop is unexplained, or whose drop is explained. */
  function CountDrops(ops: seq<Op>, c: Config, unexplained: bool): nat {
    if ops == [] then 0
    else
      var before, op := ops[..|ops| - 1], ops[|ops| - 1];
      var seen := LastSeen(before, c);
      CountDrops(before, c, unexplained)
      + if !op.Lookup? && Dropped(c, seen, UsageOf(AfterOps(before, c), c, op))
           && Unexplainable(c, seen, op.request, op.now) == unexplained then 1 else 0
  }

  /** Over every history of requests whose parts do not collide, the unexpected breaks are
      exactly the drops below the last call that was tracked or served, with the same prompt
      and within its time; the expected ones are exactly the other drops. */
  lemma {:induction false} BreaksAreDrops(ops: seq<Op>, c: Config, rs: set<Request>)
    requires Over(ops, rs) && AllApart(rs)
    ensures var st := AfterOps(ops, c);
            && st.stats.unexpectedBreaks == CountDrops(ops, c, true)
            && st.stats.expectedInvalidations == CountDrops(ops, c, false)
            && st.previous == TrackSeen(LastSeen(ops, c))
            && (LastSeen(ops, c).Some? ==> LastIs(st.stats, LastSeen(ops, c).value))
            && (LastSeen(ops, c).Some? ==> LastSeen(ops, c).value.request in rs)
  {
    if ops != [] {
      var before, op := ops[..|ops| - 1], ops[|ops| - 1];
      BreaksAreDrops(before, c, rs);
      assert op in ops;
      BreakOfOp(AfterOps(before, c), c, LastSeen(before, c), op);
    }
  }

  /** The statistics name the last usage and the request it was for. */
  predicate LastIs(s: Stats, seen: Seen) {
    && s.lastRead == Some(seen.usage.cacheRead) && s.lastCreation == Some(seen.usage.cacheCreation)
    && s.lastHash == Some(Key(seen.request))
  }

  function TrackSeen(seen: Option<Seen>): Option<Tracked> {
    match seen
    case None => None
    case Some(Seen(now, r, usage)) => Some(Track(r, usage, now))
  }

  lemma BreakOfOp(st: State, c: Config, seen: Option<Seen>, op: Op)
    requires st.previous == TrackSeen(seen)
    requires seen.Some? ==> PartsApart(seen.value.request, op.request)
    ensures var s, after := st.stats, AfterOp(st, c, op);
            var now := SeenBy(st, c, op);
            var drop := !op.Lookup? && Dropped(c, seen, UsageOf(st, c, op));
            var unexplained := Unexplainable(c, seen, op.request, op.now);
            && after.stats.unexpectedBreaks == s.unexpectedBreaks + (if drop && unexplained then 1 else 0)
            && after.stats.expectedInvalidations == s.expectedInvalidations + (if drop && !unexplained then 1 else 0)
            && after.previous == (if now.Some? then TrackSeen(now) else st.previous)
            && (now.Some? ==> LastIs(after.stats, now.value))
            && (now.None? && seen.Some? && LastIs(s, seen.value) ==> LastIs(after.stats, seen.value))
  {
    if seen.Some? && !op.Lookup? {
      BreakBlamedIff(c, seen.value.request, op.request, seen.value.usage, UsageOf(st, c, op), seen.value.now, op.now);
    }
  }

  /** What a drop in cached tokens is put down to, between two requests without collisions:
      the cache itself exactly when the prompt is the same and not too old. */
  lemma BreakBlamedIff(c: Config, r: Request, s: Request, u: Usage, v: Usage, t: nat, now: nat)
    requires PartsApart(r, s)
    ensures var broken := DetectCacheBreak(c, Some(Track(r, u, t)), Track(s, v, now));
            var elapsed := SaturatingSub(now, t);
            && (broken.Some? <==> SaturatingSub(u.cacheRead, v.cacheRead) >= c.breakMinDrop)
            && (broken.Some? ==>
                  && broken.value.previousRead == u.cacheRead && broken.value.currentRead == v.cacheRead
                  && broken.value.drop == SaturatingSub(u.cacheRead, v.cacheRead)
                  && (broken.value.unexpected <==> broken.value.reason == Unexplained)
                  && (broken.value.unexpected <==> SamePrompt(r, s) && elapsed <= c.promptTtl)
                  && (broken.value.reason == TtlExpiry(elapsed) <==> SamePrompt(r, s) && elapsed > c.promptTtl)
                  && (broken.value.reason.PromptChanged? <==> !SamePrompt(r, s))
                  && (broken.value.reason.PromptChanged? ==> NamesChanges(broken.value.reason.parts, r, s)))
  {
    var p, q := Track(r, u, t), Track(s, v, now);
    NoPartsIff(p, q);
    PartsNamed(r, s, u, v, t, now);
  }

  /** The parts that differ are named, each once, in this order. */
  predicate NamesChanges(parts: seq<string>, r: Request, s: Request) {
    var model, system := if r.model != s.model then 1 else 0, if r.system != s.system then 1 else 0;
    var tools, messages := if r.tools != s.tools then 1 else 0, if r.messages != s.messages then 1 else 0;
    && |parts| == model + system + tools + messages
    && (model == 1 ==> parts[0] == "model changed")
    && (system == 1 ==> parts[model] == "system prompt changed")
    && (tools == 1 ==> parts[model + system] == "tool definitions changed")
    && (messages == 1 ==> parts[model + system + tools] == "message payload changed")
  }

  lemma PartsNamed(r: Request, s: Request, u: Usage, v: Usage, t: nat, now: nat)
    requires PartsApart(r, s)
    ensures NamesChanges(ChangedParts(Track(r, u, t), Track(s, v, now)), r, s)
  {
  }

  lemma NoPartsIff(p: Tracked, q: Tracked)
    ensures ChangedParts(p, q) == [] <==>
            p.modelHash == q.modelHash && p.systemHash == q.systemHash && p.toolsHash == q.toolsHash && p.messagesHash == q.messagesHash
  {
    var ps := ChangedParts(p, q);
    assert |ps| == (if p.modelHash != q.modelHash then 1 else 0) + (if p.systemHash != q.systemHash then 1 else 0)
                   + (if p.toolsHash != q.toolsHash then 1 else 0) + (if p.messagesHash != q.messagesHash then 1 else 0);
  }
}
