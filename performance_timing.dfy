// PerformanceTimingAggregate: the running statistics the server keeps per
// timed action (a query, a method call): the smallest and largest running
// time, the totals of running and interval times, the sum of squares for
// the standard deviation, and how many records were timed. A top-level
// aggregate also keeps one for the time spent in its sub-actions.
module PerformanceTiming {
  import opened JavaLang

  /** The action types the aggregate tells apart (IDataServer's method-call codes), other codes kept as they are. */
  datatype ActionType = MethodCall | MethodCallWaitingForUserInput | Other(code: int)

  /** One timed run: its interval and running time and how many records it counts for. */
  datatype Sample = Sample(intervalMs: int, runningMs: int, nrecords: int)

  /** The counters of an aggregate. */
  datatype Counters = Counters(minMs: int, maxMs: int, s2: int, totalMs: int, totalIntervalMs: int, count: int)

  const ZERO := Counters(0, 0, 0, 0, 0, 0)

  /** updateTime(interval, running, nrecords): the first run (count 0) sets min and max; later runs fold them. */
  function Updated(c: Counters, x: Sample): Counters
  {
    Counters(
      if c.count == 0 then x.runningMs else Min(c.minMs, x.runningMs),
      if c.count == 0 then x.runningMs else Max(c.maxMs, x.runningMs),
      c.s2 + x.runningMs * x.runningMs,
      c.totalMs + x.runningMs,
      c.totalIntervalMs + x.intervalMs,
      c.count + x.nrecords)
  }

  /** updateTime(totalInterval, running, min, max, s, cnt): adds another aggregate's counters. */
  function Merged(c: Counters, d: Counters): Counters
  {
    Counters(Min(c.minMs, d.minMs), Max(c.maxMs, d.maxMs), c.s2 + d.s2, c.totalMs + d.totalMs,
      c.totalIntervalMs + d.totalIntervalMs, c.count + d.count)
  }

  /** The counters of a single run. */
  function Single(x: Sample): Counters
  {
    Counters(x.runningMs, x.runningMs, x.runningMs * x.runningMs, x.runningMs, x.intervalMs, x.nrecords)
  }

  /** The counters after the runs, one updateTime each, from c. */
  function Fold(c: Counters, xs: seq<Sample>): Counters
  {
    if xs == [] then c else Updated(Fold(c, xs[..|xs| - 1]), xs[|xs| - 1])
  }

  /** The statistics of a non-empty series of runs, built up run by run. */
  function Stats(xs: seq<Sample>): Counters
    requires xs != []
  {
    if |xs| == 1 then Single(xs[0]) else Merged(Stats(xs[..|xs| - 1]), Single(xs[|xs| - 1]))
  }

  /** The statistics hold the smallest and the largest running time of the runs. */
  lemma {:induction false} StatsBounds(xs: seq<Sample>)
    requires xs != []
    ensures forall i | 0 <= i < |xs| :: Stats(xs).minMs <= xs[i].runningMs <= Stats(xs).maxMs
    ensures exists i | 0 <= i < |xs| :: Stats(xs).minMs == xs[i].runningMs
    ensures exists i | 0 <= i < |xs| :: Stats(xs).maxMs == xs[i].runningMs
  {
    if |xs| > 1 {
      var init := xs[..|xs| - 1];
      StatsBounds(init);
      assert forall i | 0 <= i < |init| :: init[i] == xs[i];
    }
  }

  /** From a fresh aggregate, runs that each count records give exactly the statistics of the runs. */
  lemma {:induction false} FoldIsStats(xs: seq<Sample>)
    requires xs != [] && forall i | 0 <= i < |xs| :: xs[i].nrecords > 0
    ensures Fold(ZERO, xs) == Stats(xs) && Fold(ZERO, xs).count > 0
  {
    var init := xs[..|xs| - 1];
    if init != [] {
      assert forall i | 0 <= i < |init| :: init[i] == xs[i];
      FoldIsStats(init);
    }
  }

  /** Adding the counters of two series of runs gives the counters of the runs together. */
  lemma {:induction false} MergedStats(xs: seq<Sample>, ys: seq<Sample>)
    requires xs != [] && ys != []
    ensures Merged(Stats(xs), Stats(ys)) == Stats(xs + ys)
  {
    var zs := xs + ys;
    var init := ys[..|ys| - 1];
    var last := Single(ys[|ys| - 1]);
    assert zs[..|zs| - 1] == xs + init;
    assert zs[|zs| - 1] == ys[|ys| - 1];
    if |ys| > 1 {
      MergedStats(xs, init);
      MergedAssociative(Stats(xs), Stats(init), last);
    }
  }

  lemma MergedAssociative(a: Counters, b: Counters, c: Counters)
    ensures Merged(Merged(a, b), c) == Merged(a, Merged(b, c))
  {
  }

  /** Merging into an aggregate that has seen no runs keeps its min of 0 below any positive min. */
  lemma MergedIntoFresh(d: Counters)
    ensures Merged(ZERO, d).minMs == Min(0, d.minMs)
    ensures Merged(ZERO, d).maxMs == Max(0, d.maxMs)
  {
  }

  /** The sub-action aggregate starts at count -1, so its first run does not set min and max but folds them with 0. */
  lemma SubActionFirstUpdate(x: Sample)
    ensures var c := Updated(ZERO.(count := -1), x);
      c.minMs == Min(0, x.runningMs) && c.maxMs == Max(0, x.runningMs) && c.count == x.nrecords - 1
  {
  }

  /**
   * A first run of one record brings the sub-action count from -1 to 0, so
   * the next run sets min and max to its own time and the first run's
   * extremes are lost.
   */
  lemma SubActionSecondUpdateResets(x: Sample, y: Sample)
    requires x.nrecords == 1
    ensures var c := Updated(Updated(ZERO.(count := -1), x), y);
      c.minMs == y.runningMs && c.maxMs == y.runningMs && c.count == y.nrecords
  {
  }

  /** getAverageTimeMS and getAverageIntervalTimeMS: the total over the count in long division, the total itself when the count is 0. */
  function Average(total: int, count: int): int
  {
    if count == 0 then total else JavaDiv(total, count)
  }

  /** For a positive count and a non-negative total the average is the total divided down. */
  lemma AverageBounds(total: int, count: int)
    requires count > 0 && total >= 0
    ensures var a := Average(total, count); a >= 0 && a * count <= total < (a + 1) * count
  {
    var q, m := total / count, total % count;
    assert total == q * count + m;
    assert (q + 1) * count == q * count + count;
  }

  /** The sub-action timings of one call as updateSubActionTimes reads them. */
  datatype SubTiming = SubTiming(kind: ActionType, totalIntervalMs: int, totalMs: int)

  /** The interval and running times of the sub-actions, not counting waiting for user input. */
  function SubTotals(subs: seq<SubTiming>): (int, int)
  {
    if subs == [] then (0, 0)
    else
      var (it, rt) := SubTotals(subs[..|subs| - 1]);
      var s := subs[|subs| - 1];
      if s.kind == MethodCallWaitingForUserInput then (it, rt) else (it + s.totalIntervalMs, rt + s.totalMs)
  }

  /** Sub-actions that all wait for user input add no time. */
  lemma {:induction false} WaitingAddsNothing(subs: seq<SubTiming>)
    requires forall i | 0 <= i < |subs| :: subs[i].kind == MethodCallWaitingForUserInput
    ensures SubTotals(subs) == (0, 0)
  {
    if subs != [] {
      WaitingAddsNothing(subs[..|subs| - 1]);
    }
  }

  /** The summing loop of updateSubActionTimes. */
  method SumSubTimes(subs: seq<SubTiming>) returns (it: int, rt: int)
    ensures (it, rt) == SubTotals(subs)
  {
    it, rt := 0, 0;
    for i := 0 to |subs|
      invariant (it, rt) == SubTotals(subs[..i])
    {
      assert subs[..i + 1][..i] == subs[..i];
      if subs[i].kind != MethodCallWaitingForUserInput {
        it := it + subs[i].totalIntervalMs;
        rt := rt + subs[i].totalMs;
      }
    }
    assert subs[..|subs|] == subs;
  }

  class PerformanceTimingAggregate {
    const action: string
    const kind: ActionType
    var minMs: int
    var maxMs: int
    var s2: int
    var totalMs: int
    var totalIntervalMs: int
    var count: int
    /** The aggregate of the sub-action times; null for a sub-action aggregate itself. */
    const sub: PerformanceTimingAggregate?

    function State(): Counters
      reads this
    {
      Counters(minMs, maxMs, s2, totalMs, totalIntervalMs, count)
    }

    ghost predicate Valid()
      reads this, sub
    {
      sub != this && (sub != null ==> sub.sub == null && sub.kind == MethodCall)
    }

    /** The public constructor: fresh counters and a sub-action aggregate starting at count -1. */
    constructor(action: string, kind: ActionType)
      ensures this.action == action && this.kind == kind && State() == ZERO
      ensures sub != null && fresh(sub) && sub.action == action + " - subactions"
      ensures sub.State() == ZERO.(count := -1)
      ensures Valid()
    {
      this.action := action;
      this.kind := kind;
      minMs, maxMs, s2, totalMs, totalIntervalMs, count := 0, 0, 0, 0, 0, 0;
      var s := new PerformanceTimingAggregate.SubActions(action + " - subactions");
      s.count := -1;
      sub := s;
    }

    /** The private constructor of a sub-action aggregate: a method call without sub-actions of its own. */
    constructor SubActions(action: string)
      ensures this.action == action && kind == MethodCall && State() == ZERO && sub == null
    {
      this.action := action;
      kind := MethodCall;
      minMs, maxMs, s2, totalMs, totalIntervalMs, count := 0, 0, 0, 0, 0, 0;
      sub := null;
    }

    /** The copy constructor: the same counters, and a copy of the sub-action aggregate. */
    constructor Copy(copy: PerformanceTimingAggregate)
      requires copy.Valid()
      ensures action == copy.action && kind == copy.kind && State() == copy.State()
      ensures (sub == null) == (copy.sub == null)
      ensures sub != null ==>
        fresh(sub) && sub.action == copy.sub.action && sub.kind == copy.sub.kind &&
        sub.State() == copy.sub.State() && sub.sub == null
      ensures Valid()
    {
      action, kind := copy.action, copy.kind;
      minMs, maxMs, s2 := copy.minMs, copy.maxMs, copy.s2;
      totalMs, totalIntervalMs, count := copy.totalMs, copy.totalIntervalMs, copy.count;
      if copy.sub != null {
        sub := new PerformanceTimingAggregate.CopyOfSubActions(copy.sub);
      } else {
        sub := null;
      }
    }

    /** The copy constructor on a sub-action aggregate, which has no sub-actions to copy. */
    constructor CopyOfSubActions(copy: PerformanceTimingAggregate)
      requires copy.sub == null
      ensures action == copy.action && kind == copy.kind && State() == copy.State() && sub == null
    {
      action, kind := copy.action, copy.kind;
      minMs, maxMs, s2 := copy.minMs, copy.maxMs, copy.s2;
      totalMs, totalIntervalMs, count := copy.totalMs, copy.totalIntervalMs, copy.count;
      sub := null;
    }

    /** updateTime(interval, running, nrecords). */
    method UpdateTime(intervalMs: int, runningMs: int, nrecords: int)
      modifies this
      ensures State() == Updated(old(State()), Sample(intervalMs, runningMs, nrecords))
    {
      totalIntervalMs := totalIntervalMs + intervalMs;
      totalMs := totalMs + runningMs;
      minMs := if count == 0 then runningMs else Min(minMs, runningMs);
      maxMs := if count == 0 then runningMs else Max(maxMs, runningMs);
      s2 := s2 + runningMs * runningMs;
      count := count + nrecords;
    }

    /** updateTime(totalInterval, running, min, max, s, cnt): merges another aggregate's counters. */
    method MergeTime(intervalMs: int, runningMs: int, min: int, max: int, s: int, cnt: int)
      modifies this
      ensures State() == Merged(old(State()), Counters(min, max, s, runningMs, intervalMs, cnt))
    {
      totalIntervalMs := totalIntervalMs + intervalMs;
      totalMs := totalMs + runningMs;
      minMs := Min(minMs, min);
      maxMs := Max(maxMs, max);
      s2 := s2 + s;
      count := count + cnt;
    }

    /**
     * updateSubActionTimes: when the sub-actions not waiting for user input
     * took any time, the sub-action aggregate is updated with their totals.
     * On an aggregate without one that is a null dereference, reported as
     * ok == false.
     */
    method UpdateSubActionTimes(subs: seq<SubTiming>, nrecords: int) returns (ok: bool)
      requires Valid()
      modifies sub
      ensures var (it, rt) := SubTotals(subs);
        if it == 0 && rt == 0 then ok && (sub != null ==> sub.State() == old(sub.State()))
        else ok == (sub != null) && (sub != null ==> sub.State() == Updated(old(sub.State()), Sample(it, rt, nrecords)))
    {
      var it, rt := SumSubTimes(subs);
      if it != 0 || rt != 0 {
        if sub == null {
          return false;
        }
        sub.UpdateTime(it, rt, nrecords);
      }
      return true;
    }

    function AverageIntervalTimeMs(): int
      reads this
    {
      Average(totalIntervalMs, count)
    }

    function AverageTimeMs(): int
      reads this
    {
      Average(totalMs, count)
    }
  }
}
