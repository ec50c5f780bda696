/** When each resource dimension is collected: `CollectionScheduler`, in saturating u64
    arithmetic. */
module Scheduler {
  import opened Machine
  import opened Wrappers

  function SaturatingAdd(a: u64, b: u64): u64 { if a + b > U64_MAX then U64_MAX else a + b }

  function SaturatingMul(a: u64, b: u64): u64
  {
    MulNonNegative(a, b);
    if a * b > U64_MAX then U64_MAX else a * b
  }

  lemma MulNonNegative(a: nat, b: nat)
    ensures a * b >= 0
  {
  }

  datatype Dimension = Cpu | Memory | Disk | Network | Thermal

  const ALL: seq<Dimension> := [Cpu, Memory, Disk, Network, Thermal]

  datatype Intervals = Intervals(cpu: u64, memory: u64, disk: u64, network: u64, thermal: u64) {
    function For(d: Dimension): u64 {
      match d
      case Cpu => cpu
      case Memory => memory
      case Disk => disk
      case Network => network
      case Thermal => thermal
    }
  }

  datatype Config = Config(intervals: Intervals, failureRetry: u64, maxRuns: Option<nat>) {
    predicate IsValid() {
      && (forall d | d in ALL :: intervals.For(d) != 0)
      && failureRetry != 0
    }
  }

  lemma IsValidIff(c: Config)
    ensures var i := c.intervals;
            c.IsValid() <==> i.cpu > 0 && i.memory > 0 && i.disk > 0 && i.network > 0 && i.thermal > 0 && c.failureRetry > 0
  {
    EveryDimension();
    if c.IsValid() {
      assert c.intervals.For(Cpu) != 0 && c.intervals.For(Memory) != 0 && c.intervals.For(Disk) != 0;
      assert c.intervals.For(Network) != 0 && c.intervals.For(Thermal) != 0;
    }
  }

  /** Setting the interval of one dimension sets what is read for it, and for no other. */
  lemma OwnInterval(i: Intervals, x: u64, d: Dimension)
    ensures i.(cpu := x).For(d) == (if d == Cpu then x else i.For(d))
    ensures i.(memory := x).For(d) == (if d == Memory then x else i.For(d))
    ensures i.(disk := x).For(d) == (if d == Disk then x else i.For(d))
    ensures i.(network := x).For(d) == (if d == Network then x else i.For(d))
    ensures i.(thermal := x).For(d) == (if d == Thermal then x else i.For(d))
  {
  }

  /** The place of a dimension in `ALL`. */
  function Rank(d: Dimension): nat {
    match d
    case Cpu => 0
    case Memory => 1
    case Disk => 2
    case Network => 3
    case Thermal => 4
  }

  lemma AllDimensions(d: Dimension)
    ensures d in ALL
  {
    match d
    case Cpu => assert ALL[0] == d;
    case Memory => assert ALL[1] == d;
    case Disk => assert ALL[2] == d;
    case Network => assert ALL[3] == d;
    case Thermal => assert ALL[4] == d;
  }

  lemma EveryDimension()
    ensures forall d: Dimension :: d in ALL
  {
    forall d: Dimension ensures d in ALL { AllDimensions(d); }
  }

  datatype Deadline = Deadline(cadence: u64, retry: Option<u64>) {
    function Effective(): u64 { UnwrapOr(retry, cadence) }
  }

  /** The state of a scheduler; every dimension has a deadline. */
  datatype State = State(deadlines: map<Dimension, Deadline>, completed: nat)

  predicate HasAll(st: State) {
    forall d: Dimension :: d in st.deadlines
  }

  function Initial(start: u64): (st: State)
    ensures HasAll(st)
  {
    State(InitialDeadlines(start), 0)
  }

  function InitialDeadlines(start: u64): (ds: map<Dimension, Deadline>)
    ensures forall d: Dimension :: d in ds && ds[d] == Deadline(start, None)
  {
    EveryDimension();
    map d | d in ALL :: Deadline(start, None)
  }

  predicate ReachedLimit(st: State, c: Config) {
    c.maxRuns.Some? && st.completed >= c.maxRuns.value
  }

  predicate Due(st: State, c: Config, now: u64, d: Dimension)
    requires HasAll(st)
  {
    !ReachedLimit(st, c) && now >= st.deadlines[d].Effective()
  }

  /** The cadence deadline of a dimension that was updated at `now`. */
  function Advanced(cadence: u64, interval: u64, now: u64): u64
    requires interval > 0
  {
    var elapsed := SaturatingSub(now, cadence);
    QuotientSmall(elapsed, interval);
    SaturatingAdd(cadence, SaturatingMul(interval, SaturatingAdd(elapsed / interval, 1)))
  }

  lemma QuotientSmall(a: nat, b: nat)
    requires b > 0
    ensures 0 <= a / b <= a
  {
    var q := a / b;
    assert q >= 0;
    MulNonNegative(q, b - 1);
    assert q * b == q * (b - 1) + q;
  }

  function AfterAttempt(dl: Deadline, c: Config, d: Dimension, now: u64, updated: bool): Deadline
    requires c.intervals.For(d) > 0
  {
    if updated then Deadline(Advanced(dl.cadence, c.intervals.For(d), now), None)
    else dl.(retry := Some(SaturatingAdd(now, c.failureRetry)))
  }

  /** The deadlines after the attempted dimensions have been gone through in order. */
  function AfterDimensions(
      ds: map<Dimension, Deadline>, c: Config, now: u64, attempted: seq<Dimension>, updated: seq<Dimension>): map<Dimension, Deadline>
    requires c.IsValid() && forall d: Dimension :: d in ds
  {
    if attempted == [] then ds
    else
      var d := attempted[0];
      AllDimensions(d);
      AfterDimensions(ds[d := AfterAttempt(ds[d], c, d, now, d in updated)], c, now, attempted[1..], updated)
  }

  /** One call of `mark_attempted`. */
  datatype Attempt = Attempt(now: u64, attempted: seq<Dimension>, updated: seq<Dimension>)

  function AfterMark(st: State, c: Config, a: Attempt): State
    requires c.IsValid() && HasAll(st)
  {
    if a.attempted == [] then st
    else State(AfterDimensions(st.deadlines, c, a.now, a.attempted, a.updated), st.completed + 1)
  }

  class CollectionScheduler {
    const config: Config
    var deadlines: map<Dimension, Deadline>
    var completedRuns: nat

    ghost predicate Valid()
      reads this
    {
      config.IsValid() && HasAll(StateOf())
    }

    function StateOf(): State
      reads this
    {
      State(deadlines, completedRuns)
    }

    constructor (config: Config, start: u64)
      requires config.IsValid()
      ensures Valid() && this.config == config && StateOf() == Initial(start)
    {
      this.config := config;
      this.deadlines := InitialDeadlines(start);
      this.completedRuns := 0;
    }

    method DueDimensions(now: u64) returns (due: seq<Dimension>)
      requires Valid()
      ensures forall d :: d in due <==> Due(StateOf(), config, now, d)
      ensures forall i, j | 0 <= i < j < |due| :: Rank(due[i]) < Rank(due[j])
    {
      due := [];
      if ReachedLimit(StateOf(), config) {
        return;
      }
      for i := 0 to |ALL|
        invariant forall d :: d in due <==> d in ALL[..i] && now >= deadlines[d].Effective()
        invariant forall j | 0 <= j < |due| :: Rank(due[j]) < i
        invariant forall j, k | 0 <= j < k < |due| :: Rank(due[j]) < Rank(due[k])
      {
        var d := ALL[i];
        assert ALL[..i + 1] == ALL[..i] + [d] && Rank(d) == i;
        if now >= deadlines[d].Effective() {
          due := due + [d];
        }
      }
      forall d: Dimension ensures d in ALL[..|ALL|] {
        AllDimensions(d);
        assert ALL[..|ALL|] == ALL;
      }
    }

    method MarkAttempted(now: u64, attempted: seq<Dimension>, updated: seq<Dimension>)
      requires Valid()
      modifies this
      ensures Valid() && StateOf() == AfterMark(old(StateOf()), config, Attempt(now, attempted, updated))
    {
      if attempted == [] {
        return;
      }
      completedRuns := completedRuns + 1;
      for i := 0 to |attempted|
        invariant Valid() && completedRuns == old(completedRuns) + 1
        invariant AfterDimensions(deadlines, config, now, attempted[i..], updated) ==
                  AfterDimensions(old(deadlines), config, now, attempted, updated)
      {
        var d := attempted[i];
        AllDimensions(d);
        assert attempted[i..][1..] == attempted[i + 1..];
        var dl := deadlines[d];
        if d in updated {
          var interval := config.intervals.For(d);
          var elapsed := SaturatingSub(now, dl.cadence);
          QuotientSmall(elapsed, interval);
          var advance := SaturatingAdd(elapsed / interval, 1);
          var next := SaturatingAdd(dl.cadence, SaturatingMul(interval, advance));
          deadlines := deadlines[d := Deadline(next, None)];
        } else {
          deadlines := deadlines[d := dl.(retry := Some(SaturatingAdd(now, config.failureRetry)))];
        }
      }
    }

    /** Every attempted dimension was updated. */
    method MarkCollected(now: u64, dimensions: seq<Dimension>)
      requires Valid()
      modifies this
      ensures Valid() && StateOf() == AfterMark(old(StateOf()), config, Attempt(now, dimensions, dimensions))
    {
      MarkAttempted(now, dimensions, dimensions);
    }

    method IsDue(now: u64) returns (due: bool)
      requires Valid()
      ensures due <==> AnyDue(StateOf(), config, now)
    {
      var ds := DueDimensions(now);
      due := ds != [];
      if due {
        assert ds[0] in ds;
        assert Due(StateOf(), config, now, ds[0]);
      } else {
        assert forall d :: d !in ds;
      }
    }

    method NextDueMs() returns (next: u64)
      requires Valid()
      ensures next == NextDue(StateOf(), config)
    {
      if ReachedLimit(StateOf(), config) {
        return U64_MAX;
      }
      next := U64_MAX;
      for i := 0 to |ALL|
        invariant Earliest(deadlines, ALL, U64_MAX) == Earliest(deadlines, ALL[i..], next)
      {
        assert ALL[i..][1..] == ALL[i + 1..];
        var due := deadlines[ALL[i]].Effective();
        if due < next {
          next := due;
        }
      }
    }

    /** A scheduler for a valid configuration; none for an invalid one. */
    static method New(config: Config, start: u64) returns (s: Option<CollectionScheduler>)
      ensures var i := config.intervals;
              s.Some? <==> i.cpu > 0 && i.memory > 0 && i.disk > 0 && i.network > 0 && i.thermal > 0 && config.failureRetry > 0
      ensures s.Some? ==> s.value.Valid() && s.value.config == config && s.value.StateOf() == Initial(start)
    {
      IsValidIff(config);
      if config.IsValid() {
        var scheduler := new CollectionScheduler(config, start);
        return Some(scheduler);
      }
      return None;
    }
  }

  ghost predicate AnyDue(st: State, c: Config, now: u64)
    requires HasAll(st)
  {
    exists d :: Due(st, c, now, d)
  }

  function Earliest(ds: map<Dimension, Deadline>, dims: seq<Dimension>, best: u64): u64
    requires forall d: Dimension :: d in ds
  {
    if dims == [] then best
    else
      var due := ds[dims[0]].Effective();
      Earliest(ds, dims[1..], if due < best then due else best)
  }

  function NextDue(st: State, c: Config): u64
    requires HasAll(st)
  {
    if ReachedLimit(st, c) then U64_MAX else Earliest(st.deadlines, ALL, U64_MAX)
  }

  lemma {:induction false} EarliestIsLeast(ds: map<Dimension, Deadline>, dims: seq<Dimension>, best: u64)
    requires forall d: Dimension :: d in ds
    ensures var e := Earliest(ds, dims, best);
            && e <= best && (forall d | d in dims :: e <= ds[d].Effective())
            && (e == best || exists d | d in dims :: e == ds[d].Effective())
    decreases |dims|
  {
    if dims != [] {
      var due := ds[dims[0]].Effective();
      EarliestIsLeast(ds, dims[1..], if due < best then due else best);
      assert forall d :: d in dims <==> d == dims[0] || d in dims[1..];
    }
  }

  /** The next deadline is that of some dimension and no later than any other, or the end of
      time where the run limit is reached. */
  lemma NextDueIs(st: State, c: Config)
    requires HasAll(st)
    ensures c.maxRuns.Some? && st.completed >= c.maxRuns.value ==> NextDue(st, c) == U64_MAX
    ensures c.maxRuns.None? || st.completed < c.maxRuns.value ==>
              && (forall d: Dimension :: NextDue(st, c) <= st.deadlines[d].Effective())
              && exists d: Dimension :: NextDue(st, c) == st.deadlines[d].Effective()
  {
    EarliestIsLeast(st.deadlines, ALL, U64_MAX);
    EveryDimension();
    if NextDue(st, c) == U64_MAX && !ReachedLimit(st, c) {
      assert NextDue(st, c) <= st.deadlines[Cpu].Effective();
    }
  }

  /** Something is due exactly when the limit is unreached and the next deadline has come. */
  lemma IsDueIff(st: State, c: Config, now: u64)
    requires HasAll(st)
    ensures AnyDue(st, c, now) <==> !ReachedLimit(st, c) && NextDue(st, c) <= now
  {
    EarliestIsLeast(st.deadlines, ALL, U64_MAX);
    EveryDimension();
    if !ReachedLimit(st, c) && NextDue(st, c) <= now {
      if NextDue(st, c) == U64_MAX {
        assert st.deadlines[Cpu].Effective() <= now;
        assert Due(st, c, now, Cpu);
      } else {
        var d :| d in ALL && NextDue(st, c) == st.deadlines[d].Effective();
        assert Due(st, c, now, d);
      }
    }
  }
}
