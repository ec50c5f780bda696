/** Bounding what a context is built from, and accounting for what was left out. */
module ContextPayload {
  import opened Machine
  import opened Sequences
  import opened SortedMaps

  const USIZE_MAX := 0xFFFF_FFFF_FFFF_FFFF
  const MAX_INPUT_ITEMS := 4096
  const MAX_INPUT_BYTES := 256 * 1024
  const MAX_GLOBAL_ITEMS := 8192
  const MAX_GLOBAL_BYTES := 512 * 1024
  const MAX_BINDINGS := 64

  type usize = n: int | 0 <= n <= USIZE_MAX

  function Saturate(n: nat): usize {
    if n > USIZE_MAX then USIZE_MAX else n
  }

  function Min(a: nat, b: nat): nat { if a <= b then a else b }

  // ----- The input budget -----

  /** The cost of an item as it is charged: at most one more than a whole vector may cost. */
  function Charged(cost: usize): nat {
    Min(cost, MAX_INPUT_BYTES + 1)
  }

  function TotalCharged(costs: seq<usize>): nat {
    if costs == [] then 0 else TotalCharged(costs[..|costs| - 1]) + Charged(costs[|costs| - 1])
  }

  datatype Budget = Budget(items: nat, bytes: nat)

  const FULL_BUDGET := Budget(MAX_GLOBAL_ITEMS, MAX_GLOBAL_BYTES)

  /** The first `k` items are within every limit. */
  predicate PrefixFits(b: Budget, costs: seq<usize>, limit: nat, k: nat) {
    && k <= |costs| && k <= limit && k <= MAX_INPUT_ITEMS && k <= b.items
    && TotalCharged(costs[..k]) <= MAX_INPUT_BYTES && TotalCharged(costs[..k]) <= b.bytes
  }

  /** How many items are kept: the longest prefix that fits. */
  ghost predicate Longest(b: Budget, costs: seq<usize>, limit: nat, k: nat) {
    PrefixFits(b, costs, limit, k) && forall j: nat :: PrefixFits(b, costs, limit, j) ==> j <= k
  }

  lemma {:induction false} ChargedMonotone(costs: seq<usize>, j: nat, k: nat)
    requires j <= k <= |costs|
    ensures TotalCharged(costs[..j]) <= TotalCharged(costs[..k])
    decreases k
  {
    if j < k {
      ChargedMonotone(costs, j, k - 1);
      assert costs[..k][..k - 1] == costs[..k - 1];
    }
  }

  function Sum(costs: seq<usize>): nat {
    if costs == [] then 0 else Sum(costs[..|costs| - 1]) + costs[|costs| - 1]
  }

  lemma {:induction false} ChargedIsReal(costs: seq<usize>)
    ensures TotalCharged(costs) <= Sum(costs)
    ensures TotalCharged(costs) <= MAX_INPUT_BYTES ==> TotalCharged(costs) == Sum(costs)
  {
    if costs != [] {
      ChargedIsReal(costs[..|costs| - 1]);
    }
  }

  /** Capping what is charged decides nothing: a prefix fits exactly if its real costs are
      within the limits, and what is kept is charged in full. */
  lemma FitsIff(b: Budget, costs: seq<usize>, limit: nat, k: nat)
    ensures PrefixFits(b, costs, limit, k) <==>
            && k <= |costs| && k <= limit && k <= MAX_INPUT_ITEMS && k <= b.items
            && Sum(costs[..k]) <= MAX_INPUT_BYTES && Sum(costs[..k]) <= b.bytes
    ensures PrefixFits(b, costs, limit, k) ==> TotalCharged(costs[..k]) == Sum(costs[..k])
  {
    if k <= |costs| {
      ChargedIsReal(costs[..k]);
    }
  }

  datatype Outcome = Outcome(inputLen: nat, retainedLen: nat, omitted: nat, totalUnknown: bool, truncated: bool)

  class ContextInputBudget {
    var remainingItems: nat
    var remainingBytes: nat

    constructor ()
      ensures Remaining() == FULL_BUDGET
    {
      remainingItems, remainingBytes := MAX_GLOBAL_ITEMS, MAX_GLOBAL_BYTES;
    }

    function Remaining(): Budget
      reads this
    {
      Budget(remainingItems, remainingBytes)
    }

    /** Keeps the longest prefix of the items that fits, and pays for it. */
    method BoundVecWithLimit<T>(items: seq<T>, limit: nat, cost: T -> usize) returns (kept: seq<T>, outcome: Outcome)
      modifies this
      ensures var costs := Costs(items, cost);
              var k := |kept|;
              && kept <= items && Longest(old(Remaining()), costs, limit, k)
              && Remaining() == Budget(old(remainingItems) - k, old(remainingBytes) - TotalCharged(costs[..k]))
              && outcome == Outcome(|items|, k, |items| - k, k < |items|, k < |items|)
    {
      ghost var b, costs := Remaining(), Costs(items, cost);
      var itemLimit := Min(Min(limit, MAX_INPUT_ITEMS), remainingItems);
      var byteLimit := Min(MAX_INPUT_BYTES, remainingBytes);
      var retainedLen, retainedBytes := 0, 0;
      while retainedLen < Min(|items|, itemLimit)
        invariant retainedLen <= Min(|items|, itemLimit)
        invariant retainedBytes == TotalCharged(costs[..retainedLen]) <= byteLimit
      {
        var itemCost := Charged(cost(items[retainedLen]));
        assert costs[..retainedLen + 1][..retainedLen] == costs[..retainedLen];
        if Saturate(retainedBytes + itemCost) > byteLimit {
          break;
        }
        retainedLen := retainedLen + 1;
        retainedBytes := Saturate(retainedBytes + itemCost);
      }
      forall j: nat | PrefixFits(b, costs, limit, j) ensures j <= retainedLen {
        if j > retainedLen {
          ChargedMonotone(costs, retainedLen + 1, j);
        }
      }
      remainingItems := SaturatingSub(remainingItems, retainedLen);
      remainingBytes := SaturatingSub(remainingBytes, retainedBytes);
      kept := items[..retainedLen];
      outcome := Outcome(|items|, retainedLen, |items| - retainedLen, retainedLen < |items|, retainedLen < |items|);
    }
  }

  function Costs<T>(items: seq<T>, cost: T -> usize): (r: seq<usize>)
    ensures |r| == |items| && forall i | 0 <= i < |items| :: r[i] == cost(items[i])
  {
    seq(|items|, i requires 0 <= i < |items| => cost(items[i]))
  }

  /** One call on the budget: the costs of its items, its limit, and how many it kept. */
  datatype Call = Call(costs: seq<usize>, limit: nat, kept: nat)

  function After(b: Budget, c: Call): Budget
    requires PrefixFits(b, c.costs, c.limit, c.kept)
  {
    Budget(b.items - c.kept, b.bytes - TotalCharged(c.costs[..c.kept]))
  }

  /** The calls were made one after another on the budget, each keeping what it should. */
  ghost predicate Made(b: Budget, calls: seq<Call>)
    decreases |calls|
  {
    calls == [] || (Longest(b, calls[0].costs, calls[0].limit, calls[0].kept) && Made(After(b, calls[0]), calls[1..]))
  }

  ghost function AfterAll(b: Budget, calls: seq<Call>): Budget
    requires Made(b, calls)
    decreases |calls|
  {
    if calls == [] then b else AfterAll(After(b, calls[0]), calls[1..])
  }

  function KeptItems(calls: seq<Call>): nat {
    if calls == [] then 0 else calls[0].kept + KeptItems(calls[1..])
  }

  function KeptBytes(calls: seq<Call>): nat {
    if calls == [] then 0
    else TotalCharged(calls[0].costs[..Min(calls[0].kept, |calls[0].costs|)]) + KeptBytes(calls[1..])
  }

  /** Over any sequence of calls, what is kept and what remains add up to the budget. */
  lemma {:induction false} BudgetConserved(b: Budget, calls: seq<Call>)
    requires Made(b, calls)
    ensures AfterAll(b, calls).items + KeptItems(calls) == b.items
    ensures AfterAll(b, calls).bytes + KeptBytes(calls) == b.bytes
    decreases |calls|
  {
    if calls != [] {
      BudgetConserved(After(b, calls[0]), calls[1..]);
    }
  }

  /** What one call keeps is decided by its input and the budget alone. */
  lemma LongestUnique(b: Budget, costs: seq<usize>, limit: nat, j: nat, k: nat)
    requires Longest(b, costs, limit, j) && Longest(b, costs, limit, k)
    ensures j == k
  {
  }

  /** So over any sequence of calls: the same inputs and limits on the same budget keep the
      same prefixes. */
  lemma {:induction false} MadeUnique(b: Budget, calls: seq<Call>, others: seq<Call>)
    requires Made(b, calls) && Made(b, others) && |calls| == |others|
    requires forall i | 0 <= i < |calls| :: calls[i].costs == others[i].costs && calls[i].limit == others[i].limit
    ensures calls == others
    decreases |calls|
  {
    if calls != [] {
      var c, o := calls[0], others[0];
      LongestUnique(b, c.costs, c.limit, c.kept, o.kept);
      MadeUnique(After(b, c), calls[1..], others[1..]);
      assert calls == [c] + calls[1..] && others == [o] + others[1..];
    }
  }

  // ----- Pages -----

  datatype Page<U> = Page(total: usize, returnedCount: nat, omitted: nat, totalUnknown: bool, truncated: bool, items: seq<U>)

  /** The counts of a page tell the truth about each other. */
  predicate Honest<U>(p: Page<U>) {
    && p.returnedCount == |p.items|
    && p.returnedCount + p.omitted == p.total
    && (p.truncated <==> p.omitted > 0 || p.totalUnknown)
  }

  /** The first item of each key. Keys are taken by their place in their order. */
  function FirstByKey<T>(items: seq<T>, key: T -> int): map<int, T> {
    if items == [] then map[]
    else
      var m := FirstByKey(items[..|items| - 1], key);
      var last := items[|items| - 1];
      if key(last) in m then m else m[key(last) := last]
  }

  method FirstByKeyLoop<T>(items: seq<T>, key: T -> int) returns (unique: map<int, T>)
    ensures unique == FirstByKey(items, key)
  {
    unique := map[];
    for i := 0 to |items|
      invariant unique == FirstByKey(items[..i], key)
    {
      assert items[..i + 1][..i] == items[..i];
      var k := key(items[i]);
      if k !in unique {
        unique := unique[k := items[i]];
      }
    }
    assert items[..|items|] == items;
  }

  method BoundedPage<T, U>(items: seq<T>, declaredOmitted: usize, limit: nat, key: T -> int, show: T -> U)
    returns (p: Page<U>)
    requires |items| <= USIZE_MAX
    ensures Honest(p) && !p.totalUnknown
    ensures IsPageOf(p, FirstByKey(items, key), declaredOmitted, limit, show)
  {
    var unique := FirstByKeyLoop(items, key);
    KeyCount(items, key);
    p := PageOfUnique(unique, declaredOmitted, limit, show);
  }

  /** The page shows the values of the smallest keys, and counts all. */
  ghost predicate IsPageOf<T, U>(p: Page<U>, unique: map<int, T>, declaredOmitted: usize, limit: nat, show: T -> U) {
    p.total == Saturate(|unique| + declaredOmitted) && ShowsFirst(p, unique, limit, show)
  }

  ghost predicate ShowsFirst<T, U>(p: Page<U>, unique: map<int, T>, limit: nat, show: T -> U) {
    && |p.items| == Min(|unique|, limit) && |Values(unique)| == |unique|
    && forall i | 0 <= i < |p.items| :: p.items[i] == show(Values(unique)[i])
  }

  method PageOfUnique<T, U>(unique: map<int, T>, declaredOmitted: usize, limit: nat, show: T -> U) returns (p: Page<U>)
    requires |unique| <= USIZE_MAX
    ensures Honest(p) && !p.totalUnknown
    ensures IsPageOf(p, unique, declaredOmitted, limit, show)
  {
    KeysCounted(unique.Keys);
    var total := Saturate(|unique| + declaredOmitted);
    var values := Values(unique);
    var n := Min(|values|, limit);
    var shown := seq(n, i requires 0 <= i < n => show(values[i]));
    var omitted := total - |shown|;
    p := Page(total, |shown|, omitted, false, omitted > 0, shown);
  }

  lemma {:induction false} KeyCount<T>(items: seq<T>, key: T -> int)
    ensures |FirstByKey(items, key)| <= |items|
  {
    if items != [] {
      KeyCount(items[..|items| - 1], key);
    }
  }

  lemma {:induction false} KeysCounted(s: set<int>)
    ensures |SortedKeys(s)| == |s|
    decreases |s|
  {
    if s != {} {
      KeysCounted(s - {Least(s)});
    }
  }

  lemma {:induction false} KeysOfItems<T>(items: seq<T>, key: T -> int, k: int)
    ensures k in FirstByKey(items, key) <==> exists i | 0 <= i < |items| :: key(items[i]) == k
  {
    if items != [] {
      var before := items[..|items| - 1];
      KeysOfItems(before, key, k);
      if k in FirstByKey(items, key) {
        if k in FirstByKey(before, key) {
          var i :| 0 <= i < |before| && key(before[i]) == k;
          assert items[i] == before[i];
        } else {
          assert key(items[|items| - 1]) == k;
        }
      } else {
        forall i | 0 <= i < |items| ensures key(items[i]) != k {
          assert i < |before| ==> before[i] == items[i];
        }
      }
    }
  }

  /** Of several items with the same key, the first one is shown. */
  lemma {:induction false} FirstIsKept<T>(items: seq<T>, key: T -> int, i: nat)
    requires i < |items| && forall j: nat | j < i :: key(items[j]) != key(items[i])
    ensures key(items[i]) in FirstByKey(items, key) && FirstByKey(items, key)[key(items[i])] == items[i]
  {
    var before := items[..|items| - 1];
    if i < |before| {
      FirstIsKept(before, key, i);
    } else {
      KeysOfItems(before, key, key(items[i]));
      assert forall j: nat | j < |before| :: before[j] == items[j] && key(items[j]) != key(items[i]);
    }
  }

  /** The keys that a page shows do not depend on the order the items came in. */
  lemma KeysPermutationInvariant<T>(items: seq<T>, others: seq<T>, key: T -> int)
    requires multiset(items) == multiset(others)
    ensures SortedKeys(FirstByKey(items, key).Keys) == SortedKeys(FirstByKey(others, key).Keys)
  {
    SameKeys(items, others, key);
    SameKeys(others, items, key);
    assert FirstByKey(items, key).Keys == FirstByKey(others, key).Keys;
  }

  lemma SameKeys<T>(items: seq<T>, others: seq<T>, key: T -> int)
    requires multiset(items) == multiset(others)
    ensures FirstByKey(items, key).Keys <= FirstByKey(others, key).Keys
  {
    forall k | k in FirstByKey(items, key) ensures k in FirstByKey(others, key) {
      KeysOfItems(items, key, k);
      KeysOfItems(others, key, k);
      var i :| 0 <= i < |items| && key(items[i]) == k;
      assert items[i] in multiset(others);
    }
  }

  /** A page says it is cut exactly when items were left out, here or before. */
  lemma TruncatedIff<T, U>(p: Page<U>, items: seq<T>, key: T -> int, declaredOmitted: usize, limit: nat, show: T -> U)
    requires |items| < USIZE_MAX && Honest(p) && !p.totalUnknown
    requires IsPageOf(p, FirstByKey(items, key), declaredOmitted, limit, show)
    ensures p.truncated <==> |FirstByKey(items, key)| > limit || declaredOmitted > 0
  {
    KeyCount(items, key);
  }

  datatype Accounting = Accounting(total: usize, returnedCount: nat, omitted: nat, totalUnknown: bool, truncated: bool)

  function PageAccounting<U>(p: Page<U>): Accounting {
    Accounting(p.total, |p.items|, SaturatingSub(p.total, |p.items|), p.totalUnknown, p.truncated || p.total > |p.items|)
  }

  function CombineAccounting<U, V>(l: Page<U>, r: Page<V>): Accounting {
    var total := Saturate(l.total + r.total);
    var returned := Saturate(|l.items| + |r.items|);
    Accounting(total, returned, SaturatingSub(total, returned), l.totalUnknown || r.totalUnknown, l.truncated || r.truncated)
  }

  /** An accounting that tells the truth. */
  predicate HonestAccounting(a: Accounting) {
    && a.returnedCount + a.omitted == a.total
    && (a.truncated <==> a.omitted > 0 || a.totalUnknown)
  }

  lemma PageAccountingHonest<U>(p: Page<U>)
    requires Honest(p)
    ensures HonestAccounting(PageAccounting(p))
    ensures var a := PageAccounting(p);
            a.total == p.total && a.returnedCount == p.returnedCount && a.omitted == p.omitted && a.truncated == p.truncated
  {
  }

  /** Two honest pages are accounted for honestly together, even where totals saturate. */
  lemma CombinedHonest<U, V>(l: Page<U>, r: Page<V>)
    requires Honest(l) && Honest(r) && |l.items| + |r.items| < USIZE_MAX
    ensures HonestAccounting(CombineAccounting(l, r))
    ensures var a := CombineAccounting(l, r);
            && a.returnedCount == |l.items| + |r.items| && a.total == Saturate(l.total + r.total)
            && (a.totalUnknown <==> l.totalUnknown || r.totalUnknown)
            && (l.total + r.total <= USIZE_MAX ==> a.omitted == l.omitted + r.omitted)
  {
  }

  /** What the accounting of two pages says, given how many different keys each had. */
  predicate CountsBoth(a: Accounting, m: nat, leftOmitted: usize, leftLimit: nat, n: nat, rightOmitted: usize, rightLimit: nat) {
    && HonestAccounting(a) && !a.totalUnknown
    && a.total == Saturate(m + leftOmitted + n + rightOmitted)
    && a.returnedCount == Min(m, leftLimit) + Min(n, rightLimit)
    && (a.truncated <==> m > leftLimit || leftOmitted > 0 || n > rightLimit || rightOmitted > 0)
  }

  /** The accounting of two bounded pages together: it counts the different keys of both and
      all that was declared omitted, and says it is cut exactly when either page left
      something out. */
  lemma CombinedPages<S, T, U, V>(l: Page<U>, left: seq<S>, leftKey: S -> int, leftOmitted: usize, leftLimit: nat, leftShow: S -> U,
                                  r: Page<V>, right: seq<T>, rightKey: T -> int, rightOmitted: usize, rightLimit: nat, rightShow: T -> V)
    requires Honest(l) && !l.totalUnknown && IsPageOf(l, FirstByKey(left, leftKey), leftOmitted, leftLimit, leftShow)
    requires Honest(r) && !r.totalUnknown && IsPageOf(r, FirstByKey(right, rightKey), rightOmitted, rightLimit, rightShow)
    requires |left| + |right| < USIZE_MAX
    ensures CountsBoth(CombineAccounting(l, r), |FirstByKey(left, leftKey)|, leftOmitted, leftLimit,
                       |FirstByKey(right, rightKey)|, rightOmitted, rightLimit)
  {
    var m := PageCounts(l, left, leftKey, leftOmitted, leftLimit, leftShow);
    var n := PageCounts(r, right, rightKey, rightOmitted, rightLimit, rightShow);
    CombinedCounts(l, m, leftOmitted, leftLimit, r, n, rightOmitted, rightLimit);
  }

  /** What a page says of its size, given how many different keys there were. */
  ghost predicate Counts<U>(p: Page<U>, unique: nat, declaredOmitted: usize, limit: nat) {
    && Honest(p) && !p.totalUnknown
    && p.total == Saturate(unique + declaredOmitted) && |p.items| == Min(unique, limit)
    && (p.truncated <==> unique > limit || declaredOmitted > 0)
  }

  lemma PageCounts<T, U>(p: Page<U>, items: seq<T>, key: T -> int, declaredOmitted: usize, limit: nat, show: T -> U) returns (unique: nat)
    requires |items| < USIZE_MAX && Honest(p) && !p.totalUnknown
    requires IsPageOf(p, FirstByKey(items, key), declaredOmitted, limit, show)
    ensures unique == |FirstByKey(items, key)| <= |items| && Counts(p, unique, declaredOmitted, limit)
  {
    KeyCount(items, key);
    TruncatedIff(p, items, key, declaredOmitted, limit, show);
    unique := |FirstByKey(items, key)|;
  }

  lemma CombinedCounts<U, V>(l: Page<U>, m: nat, leftOmitted: usize, leftLimit: nat, r: Page<V>, n: nat, rightOmitted: usize, rightLimit: nat)
    requires Counts(l, m, leftOmitted, leftLimit) && Counts(r, n, rightOmitted, rightLimit) && m + n < USIZE_MAX
    ensures CountsBoth(CombineAccounting(l, r), m, leftOmitted, leftLimit, n, rightOmitted, rightLimit)
  {
    CombinedHonest(l, r);
  }

  function ForceUnknown<U>(p: Page<U>): Page<U> {
    var total := if p.totalUnknown then p.total else Saturate(p.total + 1);
    var omitted := if p.totalUnknown then p.omitted else SaturatingSub(total, |p.items|);
    p.(total := total, omitted := omitted, totalUnknown := true, truncated := true)
  }

  /** A page forced to be of unknown size stays honest, is never shown as complete, and
      forcing it again changes nothing. */
  lemma ForcedHonest<U>(p: Page<U>)
    requires Honest(p)
    ensures Honest(ForceUnknown(p)) && ForceUnknown(ForceUnknown(p)) == ForceUnknown(p)
    ensures ForceUnknown(p).items == p.items
    ensures ForceUnknown(p).total == if p.totalUnknown then p.total else Min(p.total + 1, USIZE_MAX)
    ensures ForceUnknown(p).omitted > 0 <==> if p.totalUnknown then p.omitted > 0 else |p.items| < USIZE_MAX
  {
  }

  // ----- Port references -----

  function AllBindings<B>(units: seq<seq<B>>): seq<B> {
    if units == [] then [] else AllBindings(units[..|units| - 1]) + units[|units| - 1]
  }

  /** Every bound that could leave a binding out is kept. */
  ghost predicate NothingCut<B>(units: seq<seq<B>>, unowned: seq<B>) {
    && |units| <= MAX_INPUT_ITEMS
    && (forall u | u in units :: |u| <= MAX_BINDINGS)
    && |AllBindings(units)| < MAX_INPUT_ITEMS
    && |AllBindings(units)| + |unowned| <= MAX_INPUT_ITEMS
  }

  /** The first bindings of every unit, as many as one unit may have. */
  function CappedBindings<B>(units: seq<seq<B>>): seq<B> {
    if units == [] then []
    else CappedBindings(units[..|units| - 1]) + Take(units[|units| - 1], MAX_BINDINGS)
  }

  /** What the units contribute: whole units until the limit is reached. */
  function UnitRefs<B>(units: seq<seq<B>>): seq<B> {
    Take(CappedBindings(Take(units, MAX_INPUT_ITEMS)), MAX_INPUT_ITEMS)
  }

  /** What the units contribute, then the bindings without a unit while there is room. */
  function PortRefs<B>(units: seq<seq<B>>, unowned: seq<B>): seq<B> {
    UnitRefs(units) + Take(unowned, MAX_INPUT_ITEMS - |UnitRefs(units)|)
  }

  /** How many of the units from `i` on are looked at: up to the one that meets the limit. */
  function StopAt<B>(looked: seq<seq<B>>, i: nat): (n: nat)
    requires i <= |looked|
    ensures i <= n <= |looked|
    decreases |looked| - i
  {
    if i == |looked| || |CappedBindings(looked[..i])| >= MAX_INPUT_ITEMS then i else StopAt(looked, i + 1)
  }

  /** They end with the first that meets the limit, or with the last there is. */
  lemma {:induction false} StopsFirst<B>(looked: seq<seq<B>>, i: nat)
    requires i <= |looked|
    ensures var n := StopAt(looked, i);
            && (n == |looked| || |CappedBindings(looked[..n])| >= MAX_INPUT_ITEMS)
            && forall j | i <= j < n :: |CappedBindings(looked[..j])| < MAX_INPUT_ITEMS
    decreases |looked| - i
  {
    if i < StopAt(looked, i) {
      StopsFirst(looked, i + 1);
    }
  }

  /** The bindings counted as input: those of the units looked at. */
  function UnitInput<B>(units: seq<seq<B>>): nat {
    var looked := Take(units, MAX_INPUT_ITEMS);
    |CappedBindings(looked[..StopAt(looked, 0)])|
  }

  lemma {:induction false} CappedPrefix<B>(units: seq<seq<B>>, i: nat)
    requires i <= |units|
    ensures CappedBindings(units[..i]) <= CappedBindings(units)
    decreases |units| - i
  {
    if i < |units| {
      CappedPrefix(units, i + 1);
      assert units[..i + 1][..i] == units[..i];
      PrefixTrans(CappedBindings(units[..i]), CappedBindings(units[..i + 1]), CappedBindings(units));
    } else {
      assert units[..i] == units;
    }
  }

  lemma {:induction false} UncappedBindings<B>(units: seq<seq<B>>)
    requires forall u | u in units :: |u| <= MAX_BINDINGS
    ensures CappedBindings(units) == AllBindings(units)
  {
    if units != [] {
      assert units[|units| - 1] in units;
      forall u | u in units[..|units| - 1] ensures |u| <= MAX_BINDINGS { assert u in units; }
      UncappedBindings(units[..|units| - 1]);
    }
  }

  /** Collects the bindings of the units, then those without a unit, within limits. The
      result is flagged as of unknown size exactly when a limit may have cut something, and
      is complete if it is not flagged. */
  method BoundedPortRefs<B>(units: seq<seq<B>>, unowned: seq<B>) returns (refs: seq<B>, inputLen: nat, unknown: bool)
    ensures refs == PortRefs(units, unowned) && |refs| <= MAX_INPUT_ITEMS
    ensures !unknown <==> NothingCut(units, unowned)
    ensures inputLen == UnitInput(units) + |Take(unowned, MAX_INPUT_ITEMS - |UnitRefs(units)|)|
    ensures !unknown ==> refs == AllBindings(units) + unowned && inputLen == |refs|
  {
    refs, inputLen, unknown := UnitRefsLoop(units);
    var remaining := MAX_INPUT_ITEMS - |refs|;
    inputLen := inputLen + Min(|unowned|, remaining);
    UnitsUncut(units, unowned, refs, unknown);
    unknown := unknown || |unowned| > remaining;
    refs := refs + unowned[..Min(|unowned|, remaining)];
  }

  /** Some unit has more bindings than are looked at. */
  ghost predicate SomeLong<B>(units: seq<seq<B>>) {
    exists u | u in units :: |u| > MAX_BINDINGS
  }

  lemma OneMoreUnit<B>(units: seq<seq<B>>, i: nat)
    requires i < |units|
    ensures SomeLong(units[..i + 1]) <==> SomeLong(units[..i]) || |units[i]| > MAX_BINDINGS
    ensures CappedBindings(units[..i + 1]) == CappedBindings(units[..i]) + Take(units[i], MAX_BINDINGS)
  {
    assert units[..i + 1] == units[..i] + [units[i]] && units[..i + 1][..i] == units[..i];
  }

  /** A limit was met on the number of units, on one of them, or on all their bindings. */
  ghost predicate UnitsCut<B>(units: seq<seq<B>>) {
    |units| > MAX_INPUT_ITEMS || SomeLong(units) || |CappedBindings(Take(units, MAX_INPUT_ITEMS))| >= MAX_INPUT_ITEMS
  }

  method UnitRefsLoop<B>(units: seq<seq<B>>) returns (refs: seq<B>, inputLen: nat, unknown: bool)
    ensures refs == UnitRefs(units)
    ensures unknown <==> UnitsCut(units)
    ensures inputLen == UnitInput(units) && (!unknown ==> inputLen == |refs|)
  {
    refs, inputLen := [], 0;
    unknown := |units| > MAX_INPUT_ITEMS;
    var looked := Take(units, MAX_INPUT_ITEMS);
    var i := 0;
    while i < |looked|
      invariant i <= |looked| && |refs| < MAX_INPUT_ITEMS && inputLen == |refs|
      invariant unknown <==> |units| > MAX_INPUT_ITEMS || SomeLong(looked[..i])
      invariant refs == CappedBindings(looked[..i]) && StopAt(looked, i) == StopAt(looked, 0)
    {
      var u := looked[i];
      OneMoreUnit(looked, i);
      inputLen := inputLen + Min(|u|, MAX_BINDINGS);
      unknown := unknown || |u| > MAX_BINDINGS;
      refs := refs + u[..Min(|u|, MAX_BINDINGS)];
      i := i + 1;
      if |refs| >= MAX_INPUT_ITEMS {
        StoppedEarly(units, i, refs);
        refs := refs[..MAX_INPUT_ITEMS];
        return refs, inputLen, true;
      }
    }
    assert looked[..i] == looked;
    AllLooked(units, refs, unknown);
  }

  lemma StoppedEarly<B>(units: seq<seq<B>>, i: nat, refs: seq<B>)
    requires i <= |Take(units, MAX_INPUT_ITEMS)| && refs == CappedBindings(Take(units, MAX_INPUT_ITEMS)[..i])
    requires |refs| >= MAX_INPUT_ITEMS
    ensures refs[..MAX_INPUT_ITEMS] == UnitRefs(units) && UnitsCut(units)
  {
    CappedPrefix(Take(units, MAX_INPUT_ITEMS), i);
  }

  lemma AllLooked<B>(units: seq<seq<B>>, refs: seq<B>, unknown: bool)
    requires refs == CappedBindings(Take(units, MAX_INPUT_ITEMS)) && |refs| < MAX_INPUT_ITEMS
    requires unknown <==> |units| > MAX_INPUT_ITEMS || SomeLong(Take(units, MAX_INPUT_ITEMS))
    ensures refs == UnitRefs(units) && (unknown <==> UnitsCut(units))
  {
  }

  lemma UnitsUncut<B>(units: seq<seq<B>>, unowned: seq<B>, refs: seq<B>, cut: bool)
    requires refs == UnitRefs(units) && (cut <==> UnitsCut(units))
    ensures NothingCut(units, unowned) <==> !cut && |refs| + |unowned| <= MAX_INPUT_ITEMS
    ensures NothingCut(units, unowned) ==> refs == AllBindings(units)
  {
    if |units| <= MAX_INPUT_ITEMS && !SomeLong(units) {
      UncappedBindings(units);
    }
  }

  /** A page of collected bindings, cut or else all there are: it is of unknown size exactly
      if they were cut, and complete exactly if they were not, none was declared omitted and
      the different ones are within the limit of the page; its counts are honest. */
  ghost predicate ShowsPorts<B, U>(
      p: Page<U>, refs: seq<B>, all: seq<B>, cut: bool, declaredOmitted: usize, limit: nat, key: B -> int, show: B -> U)
  {
    var seen, unique := FirstByKey(refs, key), FirstByKey(all, key);
    && Honest(p) && p.totalUnknown == cut
    && (!p.truncated <==> !cut && declaredOmitted == 0 && |unique| <= limit)
    && (!cut ==> IsPageOf(p, unique, declaredOmitted, limit, show))
    && ShowsFirst(p, seen, limit, show)
    && p.total == Saturate(|seen| + declaredOmitted + if cut then 1 else 0)
    && PageAccounting(p) == Accounting(p.total, p.returnedCount, p.omitted, p.totalUnknown, p.truncated)
  }

  method PageOfRefs<B, U>(refs: seq<B>, ghost all: seq<B>, cut: bool, declaredOmitted: usize, limit: nat, key: B -> int, show: B -> U)
    returns (p: Page<U>)
    requires |refs| < USIZE_MAX && (!cut ==> refs == all)
    ensures ShowsPorts(p, refs, all, cut, declaredOmitted, limit, key, show)
  {
    p := BoundedPage(refs, declaredOmitted, limit, key, show);
    TruncatedIff(p, refs, key, declaredOmitted, limit, show);
    if cut {
      ForcedHonest(p);
      p := ForceUnknown(p);
    }
    PageAccountingHonest(p);
  }

  /** The page of the ports of a service: the bindings within the limits on the way in, which
      are those of all units and those without one exactly if no limit was met. */
  method PortsPage<B, U>(units: seq<seq<B>>, unowned: seq<B>, declaredOmitted: usize, limit: nat, key: B -> int, show: B -> U)
    returns (p: Page<U>)
    ensures ShowsPorts(p, PortRefs(units, unowned), AllBindings(units) + unowned, !NothingCut(units, unowned),
                       declaredOmitted, limit, key, show)
  {
    var refs, _, unknown := BoundedPortRefs(units, unowned);
    p := PageOfRefs(refs, AllBindings(units) + unowned, unknown, declaredOmitted, limit, key, show);
  }
}
