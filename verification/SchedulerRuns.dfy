/** What holds over whole runs of a scheduler whose caller attempts only what is due. */
module SchedulerRuns {
  import opened Machine
  import opened Scheduler
  import opened Wrappers

  function Cap(n: nat): u64 {
    if n > U64_MAX then U64_MAX else n
  }

  /** A point of the grid of a dimension. */
  function Grid(start: nat, interval: nat, k: nat): nat {
    MulNonNegative(k, interval);
    start + k * interval
  }

  /** The number of the first grid point strictly after `t`. */
  function NextIndex(start: nat, interval: nat, t: nat): nat
    requires interval > 0
  {
    if t < start then 0
    else
      QuotientSmall(t - start, interval);
      (t - start) / interval + 1
  }

  lemma GridMonotone(start: nat, interval: nat, j: nat, k: nat)
    requires j <= k
    ensures Grid(start, interval, j) <= Grid(start, interval, k)
    ensures j < k ==> Grid(start, interval, j) + interval <= Grid(start, interval, k)
  {
    MulNonNegative(k - j, interval);
    assert k * interval == j * interval + (k - j) * interval;
    if j < k {
      MulNonNegative(k - j - 1, interval);
      assert (k - j) * interval == (k - j - 1) * interval + interval;
    }
  }

  /** It is the least grid point after `t`. */
  lemma NextIndexIsLeast(start: nat, interval: nat, t: nat, k: nat)
    requires interval > 0
    ensures Grid(start, interval, NextIndex(start, interval, t)) > t
    ensures Grid(start, interval, k) > t <==> k >= NextIndex(start, interval, t)
  {
    var n := NextIndex(start, interval, t);
    if t >= start {
      var q := (t - start) / interval;
      assert q * interval <= t - start < q * interval + interval;
      assert Grid(start, interval, q) <= t;
      assert (q + 1) * interval == q * interval + interval;
      if k <= q {
        GridMonotone(start, interval, k, q);
      } else {
        GridMonotone(start, interval, q + 1, k);
      }
    } else {
      GridMonotone(start, interval, 0, k);
    }
  }

  lemma QuotientShift(k: nat, e: nat, i: nat)
    requires i > 0
    ensures (k * i + e) / i == k + e / i
  {
    var q := e / i;
    assert q * i <= e < q * i + i;
    var p := (k * i + e) / i;
    assert p * i <= k * i + e < p * i + i;
    assert (k + q) * i == k * i + q * i;
    Sandwich(p, k + q, i, k * i + e);
  }

  lemma Sandwich(p: int, q: int, i: int, x: int)
    requires i > 0 && p * i <= x < p * i + i && q * i <= x < q * i + i
    ensures p == q
  {
    if p < q {
      StepApart(p, q, i);
    } else if q < p {
      StepApart(q, p, i);
    }
  }

  lemma StepApart(p: int, q: int, i: int)
    requires i > 0 && p < q
    ensures p * i + i <= q * i
  {
    MulNonNegative(q - p - 1, i);
    assert q * i == (q - p - 1) * i + p * i + i;
  }

  /** Saturating at each step is saturating once at the end. */
  lemma AdvancedExact(cadence: u64, interval: u64, now: u64)
    requires interval > 0
    ensures var elapsed := SaturatingSub(now, cadence);
            elapsed / interval >= 0 && interval * (elapsed / interval + 1) >= 0 &&
            Advanced(cadence, interval, now) == Cap(cadence + interval * (elapsed / interval + 1))
  {
    var elapsed := SaturatingSub(now, cadence);
    QuotientSmall(elapsed, interval);
    var n := elapsed / interval + 1;
    MulNonNegative(interval, n);
    AtLeastFactor(interval, n);
    if n > U64_MAX {
      AtLeastFactor(interval, U64_MAX);
    }
  }

  lemma AtLeastFactor(a: nat, b: nat)
    requires a > 0
    ensures a * b >= b
  {
    MulNonNegative(a - 1, b);
    assert a * b == (a - 1) * b + b;
  }

  /** From a grid point, the next cadence deadline is the first grid point after both the
      old deadline and the time of the update. */
  lemma AdvancedOnGrid(start: u64, interval: u64, k: nat, now: u64)
    requires interval > 0
    ensures var cadence := Cap(Grid(start, interval, k));
            var t := if now < cadence then cadence else now;
            && Advanced(cadence, interval, now) == Cap(Grid(start, interval, NextIndex(start, interval, t)))
            && NextIndex(start, interval, t) > 0
  {
    var cadence := Cap(Grid(start, interval, k));
    var t := if now < cadence then cadence else now;
    AdvancedExact(cadence, interval, now);
    NextIndexIsLeast(start, interval, t, 0);
    GridMonotone(start, interval, 0, k);
    if Grid(start, interval, k) > U64_MAX {
      assert t == U64_MAX;
    } else {
      var e := t - cadence;
      MulNonNegative(k, interval);
      QuotientShift(k, e, interval);
      assert (k + e / interval + 1) * interval == k * interval + interval * (e / interval + 1);
    }
  }

  // ----- One dimension through one call -----

  predicate Distinct(ds: seq<Dimension>) {
    forall i, j | 0 <= i < j < |ds| :: ds[i] != ds[j]
  }

  lemma {:induction false} AfterDimensionsAt(
      ds: map<Dimension, Deadline>, c: Config, now: u64, attempted: seq<Dimension>, updated: seq<Dimension>, d: Dimension)
    requires c.IsValid() && (forall x: Dimension :: x in ds) && (Distinct(attempted) || d !in updated)
    ensures var after := AfterDimensions(ds, c, now, attempted, updated);
            && (forall x: Dimension :: x in after)
            && c.intervals.For(d) > 0
            && after[d] == if d in attempted then AfterAttempt(ds[d], c, d, now, d in updated) else ds[d]
    decreases |attempted|
  {
    AllDimensions(d);
    if attempted != [] {
      var first := attempted[0];
      AllDimensions(first);
      AfterDimensionsAt(ds[first := AfterAttempt(ds[first], c, first, now, first in updated)], c, now, attempted[1..], updated, d);
      assert Distinct(attempted) ==> first !in attempted[1..] && Distinct(attempted[1..]);
      assert d in attempted <==> d == first || d in attempted[1..];
    }
  }

  /** The caller attempts dimensions that are due, each once. */
  ghost predicate OnlyDue(st: State, c: Config, a: Attempt)
    requires HasAll(st)
  {
    Distinct(a.attempted) && forall d | d in a.attempted :: Due(st, c, a.now, d)
  }

  lemma MarkAt(st: State, c: Config, a: Attempt, d: Dimension)
    requires c.IsValid() && HasAll(st) && (Distinct(a.attempted) || d !in a.updated)
    ensures var after := AfterMark(st, c, a);
            && HasAll(after) && c.intervals.For(d) > 0
            && after.deadlines[d] ==
               if d in a.attempted then AfterAttempt(st.deadlines[d], c, d, a.now, d in a.updated) else st.deadlines[d]
  {
    AfterDimensionsAt(st.deadlines, c, a.now, a.attempted, a.updated, d);
  }

  // ----- Whole runs -----

  ghost predicate GoodRun(st: State, c: Config, run: seq<Attempt>)
    requires c.IsValid() && HasAll(st)
    decreases |run|
  {
    run == [] ||
    (OnlyDue(st, c, run[0]) &&
     (MarkAt(st, c, run[0], Cpu); GoodRun(AfterMark(st, c, run[0]), c, run[1..])))
  }

  ghost function AfterRun(st: State, c: Config, run: seq<Attempt>): (after: State)
    requires c.IsValid() && HasAll(st) && GoodRun(st, c, run)
    ensures HasAll(after)
    decreases |run|
  {
    if run == [] then st
    else
      MarkAt(st, c, run[0], Cpu);
      AfterRun(AfterMark(st, c, run[0]), c, run[1..])
  }

  ghost predicate OnGrid(start: u64, interval: u64, cadence: u64) {
    exists k: nat :: cadence == Cap(Grid(start, interval, k))
  }

  /** Every cadence deadline lies on its grid, or past the end of time; a retry is never
      before it; and no more runs are counted than allowed. */
  ghost predicate Inv(st: State, c: Config, start: u64) {
    && HasAll(st)
    && (forall d :: OnGrid(start, c.intervals.For(d), st.deadlines[d].cadence))
    && (forall d :: st.deadlines[d].cadence <= st.deadlines[d].Effective())
    && (c.maxRuns.Some? ==> st.completed <= c.maxRuns.value)
  }

  lemma InitialInv(c: Config, start: u64)
    requires c.IsValid()
    ensures Inv(Initial(start), c, start)
  {
    forall d ensures OnGrid(start, c.intervals.For(d), Initial(start).deadlines[d].cadence) {
      assert Grid(start, c.intervals.For(d), 0) == start;
    }
  }

  lemma MarkInv(st: State, c: Config, start: u64, a: Attempt)
    requires c.IsValid() && Inv(st, c, start) && OnlyDue(st, c, a)
    ensures Inv(AfterMark(st, c, a), c, start)
  {
    var after := AfterMark(st, c, a);
    MarkAt(st, c, a, Cpu);
    forall d
      ensures OnGrid(start, c.intervals.For(d), after.deadlines[d].cadence)
      ensures after.deadlines[d].cadence <= after.deadlines[d].Effective()
    {
      MarkAt(st, c, a, d);
      assert OnGrid(start, c.intervals.For(d), st.deadlines[d].cadence);
      if d in a.attempted {
        assert Due(st, c, a.now, d);
        if d in a.updated {
          var k: nat :| st.deadlines[d].cadence == Cap(Grid(start, c.intervals.For(d), k));
          AdvancedOnGrid(start, c.intervals.For(d), k, a.now);
        }
      }
    }
    if a.attempted != [] {
      assert a.attempted[0] in a.attempted;
    }
  }

  /** The invariant holds after every run that attempts only what is due. */
  lemma {:induction false} RunInv(st: State, c: Config, start: u64, run: seq<Attempt>)
    requires c.IsValid() && Inv(st, c, start) && GoodRun(st, c, run)
    ensures Inv(AfterRun(st, c, run), c, start)
    decreases |run|
  {
    if run != [] {
      MarkInv(st, c, start, run[0]);
      RunInv(AfterMark(st, c, run[0]), c, start, run[1..]);
    }
  }

  /** Without drift: whenever a due dimension is updated in a run, its next cadence deadline
      is exactly the first grid point after that time, or the end of time. */
  lemma UpdateKeepsCadence(c: Config, start: u64, run: seq<Attempt>, a: Attempt, d: Dimension)
    requires c.IsValid() && GoodRun(Initial(start), c, run)
    requires OnlyDue(AfterRun(Initial(start), c, run), c, a) && d in a.attempted && d in a.updated
    ensures c.intervals.For(d) > 0 && HasAll(AfterMark(AfterRun(Initial(start), c, run), c, a))
    ensures var next := AfterMark(AfterRun(Initial(start), c, run), c, a).deadlines[d];
            next == Deadline(Cap(Grid(start, c.intervals.For(d), NextIndex(start, c.intervals.For(d), a.now))), None)
  {
    var st := AfterRun(Initial(start), c, run);
    InitialInv(c, start);
    RunInv(Initial(start), c, start, run);
    MarkAt(st, c, a, d);
    assert OnGrid(start, c.intervals.For(d), st.deadlines[d].cadence);
    var k: nat :| st.deadlines[d].cadence == Cap(Grid(start, c.intervals.For(d), k));
    assert Due(st, c, a.now, d);
    AdvancedOnGrid(start, c.intervals.For(d), k, a.now);
  }

  /** A dimension that failed is due again exactly from its retry time on. */
  lemma FailureRetries(st: State, c: Config, a: Attempt, d: Dimension, t: u64)
    requires c.IsValid() && HasAll(st) && d in a.attempted && d !in a.updated
    ensures HasAll(AfterMark(st, c, a))
    ensures Due(AfterMark(st, c, a), c, t, d) <==>
            !ReachedLimit(AfterMark(st, c, a), c) && t >= Cap(a.now + c.failureRetry)
    ensures AfterMark(st, c, a).deadlines[d].cadence == st.deadlines[d].cadence
  {
    MarkAt(st, c, a, d);
  }

  /** Attempting everything that is due, whatever succeeds, leaves nothing due at that time
      if and only if the clock does not stand at its last value or the run limit is reached:
      only there does a scheduler spin. */
  lemma NothingDueTwice(c: Config, start: u64, run: seq<Attempt>, a: Attempt)
    requires c.IsValid() && GoodRun(Initial(start), c, run)
    requires OnlyDue(AfterRun(Initial(start), c, run), c, a)
    requires forall d | Due(AfterRun(Initial(start), c, run), c, a.now, d) :: d in a.attempted
    requires a.attempted != []
    ensures HasAll(AfterMark(AfterRun(Initial(start), c, run), c, a))
    ensures var after := AfterMark(AfterRun(Initial(start), c, run), c, a);
            !AnyDue(after, c, a.now) <==> a.now < U64_MAX || ReachedLimit(after, c)
  {
    var st := AfterRun(Initial(start), c, run);
    var after := AfterMark(st, c, a);
    MarkAt(st, c, a, Cpu);
    assert a.attempted[0] in a.attempted;
    if a.now < U64_MAX {
      forall d ensures !Due(after, c, a.now, d) {
        MarkAt(st, c, a, d);
        if d in a.attempted && d in a.updated {
          UpdateKeepsCadence(c, start, run, a, d);
          NextIndexIsLeast(start, c.intervals.For(d), a.now, 0);
        }
      }
    } else if !ReachedLimit(after, c) {
      assert Due(after, c, a.now, Cpu);
    }
  }

  // ----- Repeated mentions, and the run limit -----

  function Mentions(attempted: seq<Dimension>, d: Dimension): nat {
    if attempted == [] then 0 else (if attempted[0] == d then 1 else 0) + Mentions(attempted[1..], d)
  }

  /** Where a dimension stands that was updated `k` times at `now`, from a grid point on. */
  function Stepped(start: u64, interval: u64, dl: Deadline, now: u64, k: nat): Deadline
    requires interval > 0
  {
    if k == 0 then dl
    else
      var t := if now < dl.cadence then dl.cadence else now;
      Deadline(Cap(Grid(start, interval, NextIndex(start, interval, t) + k - 1)), None)
  }

  lemma NextStep(start: u64, interval: u64, dl: Deadline, now: u64, j: nat, k: nat)
    requires interval > 0 && dl.cadence == Cap(Grid(start, interval, j))
    ensures var t := if now < dl.cadence then dl.cadence else now;
            var m := NextIndex(start, interval, t);
            var next := Deadline(Advanced(dl.cadence, interval, now), None);
            && next.cadence == Cap(Grid(start, interval, m))
            && Stepped(start, interval, next, now, k) == Stepped(start, interval, dl, now, k + 1)
  {
    var t := if now < dl.cadence then dl.cadence else now;
    var m := NextIndex(start, interval, t);
    AdvancedOnGrid(start, interval, j, now);
    NextIndexIsLeast(start, interval, t, m);
    var next := Cap(Grid(start, interval, m));
    if k > 0 {
      NextIndexIsLeast(start, interval, next, m);
      NextIndexIsLeast(start, interval, next, m + 1);
      GridMonotone(start, interval, m, m + k);
      GridMonotone(start, interval, m, m + 1);
      if Grid(start, interval, m) > U64_MAX {
        var n := NextIndex(start, interval, next);
        NextIndexIsLeast(start, interval, next, n);
        GridMonotone(start, interval, n, n + k - 1);
      }
    }
  }

  /** A call that names an updated dimension several times moves it on once for each. */
  lemma {:induction false} EachMentionSteps(ds: map<Dimension, Deadline>, c: Config, start: u64, j: nat, now: u64,
                                            attempted: seq<Dimension>, updated: seq<Dimension>, d: Dimension)
    requires c.IsValid() && (forall x: Dimension :: x in ds) && d in updated && c.intervals.For(d) > 0
    requires ds[d].cadence == Cap(Grid(start, c.intervals.For(d), j))
    ensures var after := AfterDimensions(ds, c, now, attempted, updated);
            d in after && after[d] == Stepped(start, c.intervals.For(d), ds[d], now, Mentions(attempted, d))
    decreases |attempted|
  {
    if attempted != [] {
      var first := attempted[0];
      AllDimensions(first);
      var next := ds[first := AfterAttempt(ds[first], c, first, now, first in updated)];
      var i := c.intervals.For(d);
      if first == d {
        NextStep(start, i, ds[d], now, j, Mentions(attempted[1..], d));
        var t := if now < ds[d].cadence then ds[d].cadence else now;
        EachMentionSteps(next, c, start, NextIndex(start, i, t), now, attempted[1..], updated, d);
      } else {
        EachMentionSteps(next, c, start, j, now, attempted[1..], updated, d);
      }
    }
  }

  /** The calls that attempted something. */
  function Rounds(run: seq<Attempt>): nat {
    if run == [] then 0 else (if run[0].attempted == [] then 0 else 1) + Rounds(run[1..])
  }

  lemma {:induction false} RoundsAreCounted(st: State, c: Config, run: seq<Attempt>)
    requires c.IsValid() && HasAll(st) && GoodRun(st, c, run)
    ensures AfterRun(st, c, run).completed == st.completed + Rounds(run)
    decreases |run|
  {
    if run != [] {
      MarkAt(st, c, run[0], Cpu);
      RoundsAreCounted(AfterMark(st, c, run[0]), c, run[1..]);
    }
  }

  /** In a run, a dimension is due exactly while fewer calls than the limit attempted
      something, failed or not, and its retry or else its cadence deadline has come. */
  lemma DueInRun(c: Config, start: u64, run: seq<Attempt>, now: u64, d: Dimension)
    requires c.IsValid() && GoodRun(Initial(start), c, run)
    ensures var st := AfterRun(Initial(start), c, run);
            Due(st, c, now, d) <==>
            && (c.maxRuns.None? || Rounds(run) < c.maxRuns.value)
            && now >= if st.deadlines[d].retry.Some? then st.deadlines[d].retry.value else st.deadlines[d].cadence
  {
    RoundsAreCounted(Initial(start), c, run);
  }

  // ----- How often a dimension is collected -----

  predicate Succeeds(a: Attempt, d: Dimension) {
    d in a.attempted && d in a.updated
  }

  function Successes(run: seq<Attempt>, d: Dimension): nat {
    if run == [] then 0 else (if Succeeds(run[0], d) then 1 else 0) + Successes(run[1..], d)
  }

  ghost predicate Until(run: seq<Attempt>, t: u64) {
    forall a | a in run :: a.now <= t
  }

  /** From the k-th grid point on, at most the grid points up to `t` are left. */
  lemma {:induction false} SuccessesLeft(st: State, c: Config, start: u64, run: seq<Attempt>, d: Dimension, t: u64, k: nat)
    requires c.IsValid() && Inv(st, c, start) && GoodRun(st, c, run) && Until(run, t) && t < U64_MAX
    requires c.intervals.For(d) > 0 && st.deadlines[d].cadence == Cap(Grid(start, c.intervals.For(d), k))
    ensures var n := NextIndex(start, c.intervals.For(d), t);
            Successes(run, d) <= if k < n then n - k else 0
    decreases |run|
  {
    if run != [] {
      var a, i := run[0], c.intervals.For(d);
      var after := AfterMark(st, c, a);
      MarkInv(st, c, start, a);
      MarkAt(st, c, a, d);
      assert a in run;
      assert Until(run[1..], t) by {
        assert forall x | x in run[1..] :: x in run;
      }
      if Succeeds(a, d) {
        assert Due(st, c, a.now, d);
        AdvancedOnGrid(start, i, k, a.now);
        var m := NextIndex(start, i, a.now);
        NextIndexIsLeast(start, i, a.now, k);
        NextIndexIsLeast(start, i, t, m);
        NextIndexIsLeast(start, i, a.now, NextIndex(start, i, t));
        NextIndexIsLeast(start, i, t, NextIndex(start, i, t));
        SuccessesLeft(after, c, start, run[1..], d, t, m);
      } else {
        SuccessesLeft(after, c, start, run[1..], d, t, k);
      }
    }
  }

  /** The most successes the grid has room for up to a time. */
  function Room(c: Config, start: u64, d: Dimension, t: u64): nat
    requires c.intervals.For(d) > 0
  {
    NextIndex(start, c.intervals.For(d), t)
  }

  /** By a time before the end of time, a dimension has been collected at most once for
      each interval begun since the start. */
  lemma SuccessesBounded(c: Config, start: u64, run: seq<Attempt>, d: Dimension, t: u64)
    requires c.IsValid() && GoodRun(Initial(start), c, run) && Until(run, t) && t < U64_MAX
    ensures c.intervals.For(d) > 0 && Successes(run, d) <= Room(c, start, d, t)
  {
    AllDimensions(d);
    InitialInv(c, start);
    assert Grid(start, c.intervals.For(d), 0) == start;
    SuccessesLeft(Initial(start), c, start, run, d, t, 0);
  }

  /** The same update at the end of time, over and over. */
  function Spin(d: Dimension, n: nat): seq<Attempt> {
    if n == 0 then [] else [Attempt(U64_MAX, [d], [d])] + Spin(d, n - 1)
  }

  lemma {:induction false} SpinIsGood(st: State, c: Config, d: Dimension, n: nat)
    requires c.IsValid() && HasAll(st) && (c.maxRuns.Some? ==> st.completed + n <= c.maxRuns.value)
    ensures GoodRun(st, c, Spin(d, n)) && Successes(Spin(d, n), d) == n && Until(Spin(d, n), U64_MAX)
    decreases n
  {
    if n > 0 {
      var a := Attempt(U64_MAX, [d], [d]);
      MarkAt(st, c, a, Cpu);
      SpinIsGood(AfterMark(st, c, a), c, d, n - 1);
      assert Spin(d, n)[0] == a && Spin(d, n)[1..] == Spin(d, n - 1);
      assert OnlyDue(st, c, a);
    }
  }

  ghost predicate RoomSuffices(c: Config, start: u64, d: Dimension, t: u64)
    requires c.IsValid() && c.intervals.For(d) > 0
  {
    forall run | GoodRun(Initial(start), c, run) && Until(run, t) :: Successes(run, d) <= Room(c, start, d, t)
  }

  /** Every success is counted as a run. */
  lemma {:induction false} SuccessesAreRuns(st: State, c: Config, run: seq<Attempt>, d: Dimension)
    requires c.IsValid() && HasAll(st) && GoodRun(st, c, run)
    ensures st.completed + Successes(run, d) <= AfterRun(st, c, run).completed
    decreases |run|
  {
    if run != [] {
      MarkAt(st, c, run[0], Cpu);
      SuccessesAreRuns(AfterMark(st, c, run[0]), c, run[1..], d);
    }
  }

  /** The bound holds for all runs up to a time if and only if that is not the end of time,
      where a saturated deadline stays due for ever, or the run limit keeps it anyway. */
  lemma RoomSufficesIff(c: Config, start: u64, d: Dimension, t: u64)
    requires c.IsValid()
    ensures c.intervals.For(d) > 0
    ensures RoomSuffices(c, start, d, t) <==>
            t < U64_MAX || (c.maxRuns.Some? && c.maxRuns.value <= Room(c, start, d, t))
  {
    AllDimensions(d);
    if t < U64_MAX {
      forall run | GoodRun(Initial(start), c, run) && Until(run, t) ensures Successes(run, d) <= Room(c, start, d, t) {
        SuccessesBounded(c, start, run, d, t);
      }
    } else if c.maxRuns.Some? && c.maxRuns.value <= Room(c, start, d, t) {
      forall run | GoodRun(Initial(start), c, run) ensures Successes(run, d) <= c.maxRuns.value {
        InitialInv(c, start);
        RunInv(Initial(start), c, start, run);
        SuccessesAreRuns(Initial(start), c, run, d);
      }
    } else {
      SpinIsGood(Initial(start), c, d, Room(c, start, d, t) + 1);
    }
  }
}
