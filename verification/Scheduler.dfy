/** The benchmark run scheduler: a list with every runner's index once per repetition, shuffled at
    will; runners that settle their iteration count in the first repetition; and one record per
    family, from which a complexity report is computed and which is then erased. */
module Scheduler {

  const MAX_ITERATIONS: nat := 1000000000000

  /** What one measured batch gave back. */
  datatype Result = Result(iters: nat, seconds: real, realTime: real, skipped: bool)

  /** The settings of a runner that do not change, and how its arithmetic rounds: rounded gives the
      floating-point result that stands for an exact one, and nothing is assumed about it. */
  datatype Config = Config(
    minTime: real, minWarmupTime: real, repeats: nat, explicitIters: bool, startIters: nat,
    manualTime: bool, dryRun: bool, rounded: real -> real)

  /** The benchmark under measurement: call number and iterations asked for, to result. */
  type Bench = (nat, nat) -> Result

  /** A batch runs at least the iterations asked for, unless it was skipped; time does not run back. */
  ghost predicate Honest(b: Bench) {
    forall call, n :: b(call, n).seconds >= 0.0 && (b(call, n).skipped || b(call, n).iters >= n)
  }

  predicate ShouldReport(c: Config, minTime: real, r: Result) {
    || r.skipped || c.dryRun || r.iters >= MAX_ITERATIONS || r.seconds >= minTime
    || (r.realTime >= c.rounded(5.0 * minTime) && !c.manualTime)
  }

  /** llround of a positive value. */
  function Round(x: real): int {
    (x + 0.5).Floor
  }

  /** PredictNumItersNeeded. However the products and quotients are rounded, a batch that is not
      reported yet is followed by one with strictly more iterations, never above the limit: one more
      than a count below the limit is exact in a double. */
  function Predict(c: Config, minTime: real, r: Result): (n: nat)
    requires !ShouldReport(c, minTime, r) && r.seconds >= 0.0
    ensures r.iters < n <= MAX_ITERATIONS
  {
    var seconds := if r.seconds >= 0.000000001 then r.seconds else 0.000000001;
    var significant := c.rounded(r.seconds / minTime) > 0.1;
    var multiplier := if significant then c.rounded(c.rounded(minTime * 1.4) / seconds) else 10.0;
    var scaled := c.rounded(multiplier * r.iters as real);
    var wanted := if scaled >= r.iters as real + 1.0 then scaled else r.iters as real + 1.0;
    var next := Round(wanted);
    if next <= MAX_ITERATIONS then next else MAX_ITERATIONS
  }

  // ----- reference: which calls of its benchmark make up a runner's repetitions

  /** The first call, from call with n iterations on, that is long enough, and its iterations. */
  ghost function LongEnough(c: Config, bench: Bench, minTime: real, call: nat, n: nat): (s: (nat, nat))
    requires Honest(bench)
    ensures ShouldReport(c, minTime, bench(s.0, s.1))
    decreases if n <= MAX_ITERATIONS then MAX_ITERATIONS - n else 0
  {
    var r := bench(call, n);
    if ShouldReport(c, minTime, r) then (call, n)
    else LongEnough(c, bench, minTime, call + 1, Predict(c, minTime, r))
  }

  /** The number of the first call behind a warm-up that starts at call with n iterations. */
  ghost function BehindWarmUp(c: Config, bench: Bench, call: nat, n: nat): nat
    requires Honest(bench)
  {
    LongEnough(c, bench, c.minWarmupTime, call, n).0 + 1
  }

  predicate WarmsUp(c: Config) {
    !c.dryRun && c.minWarmupTime > 0.0
  }

  function FirstIters(c: Config): nat {
    if c.dryRun then 1 else c.startIters
  }

  /** The call that is the first repetition, and the iterations that it settles for all of them. */
  ghost function Settled(c: Config, bench: Bench): (nat, nat)
    requires Honest(bench)
  {
    var call := if WarmsUp(c) then BehindWarmUp(c, bench, 0, FirstIters(c)) else 0;
    if c.explicitIters then (call, FirstIters(c)) else LongEnough(c, bench, c.minTime, call, FirstIters(c))
  }

  /** What repetition k gives back: one call each, all with the settled number of iterations. */
  ghost function Repetition(c: Config, bench: Bench, k: nat): Result
    requires Honest(bench)
  {
    bench(Settled(c, bench).0 + k, Settled(c, bench).1)
  }

  ghost function Repetitions(c: Config, bench: Bench, n: nat): (rs: seq<Result>)
    requires Honest(bench)
    ensures |rs| == n
  {
    seq(n, k requires 0 <= k < n => Repetition(c, bench, k))
  }

  /** One record per benchmark family with a complexity report. */
  class FamilyReport {
    const family: int
    var total: nat
    var done: nat
    var runs: seq<int>  // the family index of every run that was not skipped

    constructor (family: int)
      ensures this.family == family && total == 0 && done == 0 && runs == []
    {
      this.family, total, done, runs := family, 0, 0, [];
    }
  }

  class Runner {
    const config: Config
    const report: FamilyReport?
    var warmupDone: bool
    var iters: nat
    var repetitionsDone: nat
    var calls: nat
    var results: seq<Result>

    constructor (config: Config, report: FamilyReport?)
      ensures this.config == config && this.report == report && Unstarted()
    {
      this.config, this.report := config, report;
      warmupDone := config.dryRun || !(config.minWarmupTime > 0.0);
      iters := if config.dryRun then 1 else config.startIters;
      repetitionsDone, calls, results := 0, 0, [];
    }

    ghost predicate Unstarted()
      reads this
    {
      && results == [] && repetitionsDone == 0 && calls == 0
      && iters == FirstIters(config) && warmupDone == !WarmsUp(config)
    }

    /** The repetitions so far were the reference ones, and the next one will be. */
    ghost predicate OnTrack(bench: Bench)
      requires Honest(bench)
      reads this
    {
      && results == Repetitions(config, bench, repetitionsDone)
      && (if repetitionsDone == 0 then Unstarted()
          else warmupDone && (calls, iters) == (Settled(config, bench).0 + repetitionsDone, Settled(config, bench).1))
    }

    function MinTimeToApply(): real
      reads this
    {
      if warmupDone then config.minTime else config.minWarmupTime
    }

    /** The warm-up leaves no trace but its flag: the iteration count is what it was. */
    method RunWarmUp(bench: Bench)
      requires Honest(bench) && !warmupDone
      modifies this
      ensures warmupDone && iters == old(iters)
      ensures repetitionsDone == old(repetitionsDone) && results == old(results)
      ensures calls == BehindWarmUp(config, bench, old(calls), old(iters))
    {
      var backup := iters;
      while true
        invariant !warmupDone && repetitionsDone == old(repetitionsDone) && results == old(results)
        invariant BehindWarmUp(config, bench, calls, iters) == BehindWarmUp(config, bench, old(calls), old(iters))
        decreases if iters <= MAX_ITERATIONS then MAX_ITERATIONS - iters else 0
      {
        var r := bench(calls, iters);
        calls := calls + 1;
        if ShouldReport(config, MinTimeToApply(), r) {
          warmupDone := true;
          iters := backup;
          break;
        }
        iters := Predict(config, MinTimeToApply(), r);
      }
    }

    /** One repetition, the warm-up before the first one included. */
    method DoOneRepetition(bench: Bench) returns (r: Result)
      requires Honest(bench) && OnTrack(bench) && repetitionsDone < config.repeats
      modifies this, report
      ensures OnTrack(bench) && repetitionsDone == old(repetitionsDone) + 1
      ensures r == Repetition(config, bench, old(repetitionsDone))
      ensures report != null ==>
                report.total == old(report.total) && report.done == old(report.done) + 1 &&
                report.runs == old(report.runs) + if r.skipped then [] else [report.family]
    {
      r := MeasureBatch(bench);
      if report != null {
        report.done := report.done + 1;
        if !r.skipped {
          report.runs := report.runs + [report.family];
        }
      }
      results := results + [r];
      repetitionsDone := repetitionsDone + 1;
    }

    /** The batches of one repetition up to the one that is kept. */
    method MeasureBatch(bench: Bench) returns (r: Result)
      requires Honest(bench) && OnTrack(bench)
      modifies this
      ensures repetitionsDone == old(repetitionsDone) && results == old(results) && warmupDone
      ensures r == Repetition(config, bench, repetitionsDone)
      ensures (calls, iters) == (Settled(config, bench).0 + repetitionsDone + 1, Settled(config, bench).1)
    {
      var first := repetitionsDone == 0;
      if !warmupDone {
        RunWarmUp(bench);
      }
      while true
        invariant warmupDone && repetitionsDone == old(repetitionsDone) && results == old(results)
        invariant first == (repetitionsDone == 0)
        invariant first && !config.explicitIters ==>
                    LongEnough(config, bench, config.minTime, calls, iters) == Settled(config, bench)
        invariant !first || config.explicitIters ==>
                    (calls, iters) == (Settled(config, bench).0 + repetitionsDone, Settled(config, bench).1)
        decreases if iters <= MAX_ITERATIONS then MAX_ITERATIONS - iters else 0
      {
        r := bench(calls, iters);
        calls := calls + 1;
        if !first || config.explicitIters || ShouldReport(config, MinTimeToApply(), r) {
          break;
        }
        iters := Predict(config, MinTimeToApply(), r);
      }
    }
  }

  /** A batch that is not worth reporting, condition by condition: not skipped, no dry run, below the
      iteration limit, short of the minimum time, and, unless timed by hand, of five times the minimum
      time in real time. */
  predicate TooShort(c: Config, minTime: real, r: Result) {
    && !r.skipped && !c.dryRun && r.iters < 1000000000000 && r.seconds < minTime
    && (c.manualTime || r.realTime < c.rounded(5.0 * minTime))
  }

  lemma TooShortIff(c: Config, minTime: real, r: Result)
    ensures TooShort(c, minTime, r) <==> !ShouldReport(c, minTime, r)
  {
  }

  /** A batch too short is followed by a call that asks for n iterations. */
  ghost predicate Follows(c: Config, minTime: real, r: Result, n: nat) {
    TooShort(c, minTime, r) && r.seconds >= 0.0 && n == Predict(c, minTime, r)
  }

  /** Calls from number call on that ask for ns: all but the last are too short, each asks for what the
      one before it predicts, and the last is long enough. */
  ghost predicate UpToLongEnough(c: Config, bench: Bench, minTime: real, call: nat, ns: seq<nat>)
    decreases |ns|
  {
    && ns != []
    && if |ns| == 1 then !TooShort(c, minTime, bench(call, ns[0]))
       else Follows(c, minTime, bench(call, ns[0]), ns[1]) && UpToLongEnough(c, bench, minTime, call + 1, ns[1..])
  }

  /** Of the batches only the last is long enough. */
  lemma {:induction false} OnlyTheLast(c: Config, bench: Bench, minTime: real, call: nat, ns: seq<nat>, i: nat)
    requires UpToLongEnough(c, bench, minTime, call, ns) && i < |ns|
    ensures TooShort(c, minTime, bench(call + i, ns[i])) <==> i < |ns| - 1
    decreases i
  {
    if i > 0 {
      OnlyTheLast(c, bench, minTime, call + 1, ns[1..], i - 1);
    }
  }

  lemma {:induction false} UntilLongEnough(c: Config, bench: Bench, minTime: real, call: nat, n: nat)
    returns (ns: seq<nat>)
    requires Honest(bench)
    ensures UpToLongEnough(c, bench, minTime, call, ns) && ns[0] == n
    ensures LongEnough(c, bench, minTime, call, n) == (call + |ns| - 1, ns[|ns| - 1])
    decreases if n <= MAX_ITERATIONS then MAX_ITERATIONS - n else 0
  {
    hide Predict, ShouldReport, TooShort;
    var r := bench(call, n);
    TooShortIff(c, minTime, r);
    if ShouldReport(c, minTime, r) {
      ns := [n];
    } else {
      var next := Predict(c, minTime, r);
      assert !r.skipped by {
        NotSkipped(c, minTime, r);
      }
      var more := UntilLongEnough(c, bench, minTime, call + 1, next);
      ns := [n] + more;
      assert ns[1..] == more;
    }
  }

  lemma NotSkipped(c: Config, minTime: real, r: Result)
    requires !ShouldReport(c, minTime, r)
    ensures !r.skipped
  {
  }

  /** The calls made for the first repetition: those of the warm-up, if there is one, and those measured.
      In both all but the last are too short, and the last is long enough; only an explicit count is
      taken as it is. */
  lemma FirstRepetition(c: Config, bench: Bench) returns (warm: seq<nat>, ns: seq<nat>)
    requires Honest(bench)
    ensures warm != [] <==> !c.dryRun && c.minWarmupTime > 0.0
    ensures warm != [] ==> warm[0] == c.startIters && UpToLongEnough(c, bench, c.minWarmupTime, 0, warm)
    ensures ns != [] && ns[0] == if c.dryRun then 1 else c.startIters
    ensures if c.explicitIters then |ns| == 1 else UpToLongEnough(c, bench, c.minTime, |warm|, ns)
    ensures forall i :: 0 <= i < |warm| ==>
              (TooShort(c, c.minWarmupTime, bench(i, warm[i])) <==> i < |warm| - 1)
    ensures !c.explicitIters ==>
              forall i :: 0 <= i < |ns| ==> (TooShort(c, c.minTime, bench(|warm| + i, ns[i])) <==> i < |ns| - 1)
    ensures Settled(c, bench) == (|warm| + |ns| - 1, ns[|ns| - 1])
  {
    hide LongEnough, UpToLongEnough, TooShort;
    warm := [];
    if WarmsUp(c) {
      warm := UntilLongEnough(c, bench, c.minWarmupTime, 0, FirstIters(c));
      SomeCalls(c, bench, c.minWarmupTime, 0, warm);
      forall i | 0 <= i < |warm|
        ensures TooShort(c, c.minWarmupTime, bench(i, warm[i])) <==> i < |warm| - 1
      {
        OnlyTheLast(c, bench, c.minWarmupTime, 0, warm, i);
      }
    }
    ns := [FirstIters(c)];
    if !c.explicitIters {
      ns := UntilLongEnough(c, bench, c.minTime, |warm|, FirstIters(c));
      SomeCalls(c, bench, c.minTime, |warm|, ns);
      forall i | 0 <= i < |ns|
        ensures TooShort(c, c.minTime, bench(|warm| + i, ns[i])) <==> i < |ns| - 1
      {
        OnlyTheLast(c, bench, c.minTime, |warm|, ns, i);
      }
    }
  }

  lemma SomeCalls(c: Config, bench: Bench, minTime: real, call: nat, ns: seq<nat>)
    requires UpToLongEnough(c, bench, minTime, call, ns)
    ensures ns != []
  {
  }

  /** How the iterations grow when the arithmetic is exact: tenfold behind a batch of at most a tenth of
      the minimum time, and otherwise towards 1.4 times the minimum time at the rate measured, to the
      nearest count; by one at least, and not above the limit. */
  lemma PredictGrowth(c: Config, minTime: real, r: Result)
    requires !ShouldReport(c, minTime, r) && r.seconds >= 0.0
    requires forall x :: c.rounded(x) == x
    ensures r.seconds <= 0.1 * minTime ==>
              Predict(c, minTime, r) ==
                if r.iters == 0 then 1 else if 10 * r.iters <= 1000000000000 then 10 * r.iters else 1000000000000
    ensures r.seconds > 0.1 * minTime && r.seconds >= 0.000000001 ==>
              var wanted := 1.4 * minTime / r.seconds * r.iters as real;
              var n := Predict(c, minTime, r) as real;
              && (r.iters as real + 1.0 <= wanted <= 1000000000000.0 ==> wanted - 0.5 < n <= wanted + 0.5)
              && (wanted > 1000000000000.0 ==> n == 1000000000000.0)
              && (wanted < r.iters as real + 1.0 ==> n == r.iters as real + 1.0)
  {
    Share(r.seconds, minTime);
  }

  /** Exact arithmetic keeps the promise that no batch is more than 14 times as large as the one before. */
  lemma ExpansionBound(c: Config, minTime: real, r: Result)
    requires !ShouldReport(c, minTime, r) && r.seconds >= 0.0 && r.iters > 0
    requires forall x :: c.rounded(x) == x
    ensures Predict(c, minTime, r) <= 14 * r.iters
  {
    var seconds := if r.seconds >= 0.000000001 then r.seconds else 0.000000001;
    var multiplier := if r.seconds / minTime > 0.1 then minTime * 1.4 / seconds else 10.0;
    PredictExactly(c, minTime, r, seconds, multiplier);
    hide Predict;
    if r.seconds / minTime > 0.1 {
      Share(r.seconds, minTime);
      Ratio(minTime * 1.4, seconds, 14.0);
    }
    GrowthBound(multiplier, r.iters);
  }

  /** The iterations for a multiplier, before they are cut at the limit. */
  function Wanted(multiplier: real, iters: nat): int {
    var scaled := multiplier * iters as real;
    Round(if scaled >= iters as real + 1.0 then scaled else iters as real + 1.0)
  }

  lemma PredictExactly(c: Config, minTime: real, r: Result, seconds: real, multiplier: real)
    requires !ShouldReport(c, minTime, r) && r.seconds >= 0.0
    requires forall x :: c.rounded(x) == x
    requires seconds == if r.seconds >= 0.000000001 then r.seconds else 0.000000001
    requires multiplier == if r.seconds / minTime > 0.1 then minTime * 1.4 / seconds else 10.0
    ensures Predict(c, minTime, r) <= Wanted(multiplier, r.iters)
  {
  }

  lemma GrowthBound(multiplier: real, iters: nat)
    requires multiplier <= 14.0 && iters > 0
    ensures Wanted(multiplier, iters) <= 14 * iters
  {
    var n, scaled := iters as real, multiplier * iters as real;
    Scale(multiplier, 14.0, n);
    Fourteen(iters);
    RoundAtMost(if scaled >= n + 1.0 then scaled else n + 1.0, 14 * iters);
  }

  lemma Fourteen(n: nat)
    requires n > 0
    ensures (14 * n) as real == 14.0 * n as real && n as real + 1.0 <= 14.0 * n as real
  {
  }

  lemma RoundAtMost(x: real, n: int)
    requires x <= n as real
    ensures Round(x) <= n
  {
  }

  lemma Ratio(x: real, y: real, bound: real)
    requires y > 0.0 && x < bound * y
    ensures x / y < bound
  {
    var q := x / y;
    assert q * y == x;
    if q >= bound {
      Times(q - bound, y);
    }
  }

  lemma Scale(x: real, y: real, n: real)
    requires x <= y && n > 0.0
    ensures x * n <= y * n
  {
    Times(y - x, n);
  }

  lemma Share(seconds: real, minTime: real)
    requires minTime > 0.0
    ensures seconds / minTime > 0.1 <==> seconds > 0.1 * minTime
  {
    var q := seconds / minTime;
    assert q * minTime == seconds;
    if q > 0.1 {
      Times(q - 0.1, minTime);
    } else {
      Times(0.1 - q, minTime);
    }
  }

  lemma Times(x: real, y: real)
    requires x >= 0.0 && y > 0.0
    ensures x * y >= 0.0 && (x > 0.0 ==> x * y > 0.0)
  {
  }

  /** Half a second asked for: 0.6 s for one iteration are enough at once; with 0.1 s for one
      iteration, the second call asks for seven. */
  lemma SettlesAt(c: Config, slow: Bench, quick: Bench)
    requires c.minTime == 0.5 && c.startIters == 1 && !WarmsUp(c) && !c.dryRun && !c.explicitIters && !c.manualTime
    requires forall x :: c.rounded(x) == x
    requires forall call, n :: slow(call, n) == Result(n, 0.6 * n as real, 0.6 * n as real, false)
    requires forall call, n :: quick(call, n) == Result(n, 0.1 * n as real, 0.1 * n as real, false)
    ensures Honest(slow) && Settled(c, slow) == (0, 1)
    ensures Honest(quick) && Settled(c, quick) == (1, 7)
  {
    assert slow(0, 1) == Result(1, 0.6, 0.6, false) && quick(0, 1) == Result(1, 0.1, 0.1, false);
    var r := quick(1, 7);
    assert r.seconds == 0.7 && c.rounded(2.5) == 2.5;
    assert Predict(c, 0.5, quick(0, 1)) == 7 by {
      PredictGrowth(c, 0.5, quick(0, 1));
      hide Predict;
      assert 1.4 * 0.5 / 0.1 * 1.0 == 7.0;
    }
    hide Predict;
    assert Honest(slow) && Honest(quick);
    assert LongEnough(c, quick, 0.5, 1, 7) == (1, 7);
  }

  /** A benchmark instance: its settings, and its family when a complexity report is wanted. */
  datatype Instance = Instance(config: Config, family: int, complexity: bool)

  /** What the scheduler reports: the runs of runner r, with the complexity report or without. */
  datatype Event = Report(r: nat, complexity: bool)

  /** How often runner r, and any runner of family f, occurs in a list of indices. */
  ghost function Count(order: seq<nat>, r: nat): nat {
    if order == [] then 0 else Count(order[..|order| - 1], r) + if order[|order| - 1] == r then 1 else 0
  }

  predicate InFamily(b: seq<Instance>, r: nat, f: int) {
    r < |b| && b[r].complexity && b[r].family == f
  }

  ghost function CountFamily(b: seq<Instance>, order: seq<nat>, f: int): nat {
    if order == [] then 0
    else CountFamily(b, order[..|order| - 1], f) + if InFamily(b, order[|order| - 1], f) then 1 else 0
  }

  /** The repetitions of the first n instances that belong to family f. */
  ghost function Quota(b: seq<Instance>, f: int, n: nat): nat
    requires n <= |b|
  {
    if n == 0 then 0 else Quota(b, f, n - 1) + if InFamily(b, n - 1, f) then b[n - 1].config.repeats else 0
  }

  ghost predicate Indices(b: seq<Instance>, order: seq<nat>) {
    forall i :: 0 <= i < |order| ==> order[i] < |b|
  }

  /** Reference: a runner is reported right after its last repetition, with the complexity report of
      its family just if that was the family's last repetition too. */
  ghost function EventsOf(b: seq<Instance>, order: seq<nat>): seq<Event>
    requires Indices(b, order)
  {
    if order == [] then []
    else EventsOf(b, order[..|order| - 1]) + EventAt(b, order)
  }

  ghost function EventAt(b: seq<Instance>, order: seq<nat>): seq<Event>
    requires Indices(b, order) && order != []
  {
    var r := order[|order| - 1];
    if Count(order, r) != b[r].config.repeats then []
    else [Report(r, b[r].complexity && CountFamily(b, order, b[r].family) == Quota(b, b[r].family, |b|))]
  }

  /** No runner occurs more often than it has repetitions. */
  ghost predicate WithinQuota(b: seq<Instance>, order: seq<nat>) {
    Indices(b, order) && forall r :: 0 <= r < |b| ==> Count(order, r) <= b[r].config.repeats
  }

  ghost function ReportsOf(ev: seq<Event>, r: nat): nat {
    if ev == [] then 0 else ReportsOf(ev[..|ev| - 1], r) + if ev[|ev| - 1].r == r then 1 else 0
  }

  ghost function ComplexityReports(b: seq<Instance>, ev: seq<Event>, f: int): nat {
    if ev == [] then 0
    else
      var e := ev[|ev| - 1];
      ComplexityReports(b, ev[..|ev| - 1], f) + if e.complexity && InFamily(b, e.r, f) then 1 else 0
  }

  lemma WithinPrefix(b: seq<Instance>, order: seq<nat>)
    requires WithinQuota(b, order) && order != []
    ensures WithinQuota(b, order[..|order| - 1])
  {
    forall r | 0 <= r < |b|
      ensures Count(order[..|order| - 1], r) <= b[r].config.repeats
    {
      assert Count(order, r) <= b[r].config.repeats;
    }
  }

  /** Each runner is reported once, as soon as its repetitions are done, and not before. */
  lemma {:induction false} ReportedOnce(b: seq<Instance>, order: seq<nat>, r: nat)
    requires WithinQuota(b, order) && r < |b| && b[r].config.repeats > 0
    ensures ReportsOf(EventsOf(b, order), r) == if Count(order, r) == b[r].config.repeats then 1 else 0
  {
    if order == [] {
    } else {
      var before := order[..|order| - 1];
      WithinPrefix(b, order);
      ReportedOnce(b, before, r);
      AppendEvent(b, EventsOf(b, before), EventAt(b, order), r, 0);
      assert Count(order, r) <= b[r].config.repeats;
    }
  }

  lemma AppendEvent(b: seq<Instance>, ev: seq<Event>, one: seq<Event>, r: nat, f: int)
    requires |one| <= 1
    ensures one == [] ==> ev + one == ev
    ensures one != [] ==>
              && ReportsOf(ev + one, r) == ReportsOf(ev, r) + (if one[0].r == r then 1 else 0)
              && ComplexityReports(b, ev + one, f)
              == ComplexityReports(b, ev, f) + (if one[0].complexity && InFamily(b, one[0].r, f) then 1 else 0)
  {
    if one != [] {
      assert (ev + one)[..|ev + one| - 1] == ev;
    }
  }

  /** The runs of a family are those of its runners. */
  ghost function FamilySum(b: seq<Instance>, order: seq<nat>, f: int, n: nat): nat
    requires n <= |b|
  {
    if n == 0 then 0 else FamilySum(b, order, f, n - 1) + if InFamily(b, n - 1, f) then Count(order, n - 1) else 0
  }

  lemma {:induction false} FamilySumStep(b: seq<Instance>, order: seq<nat>, f: int, n: nat)
    requires n <= |b| && order != []
    ensures var last := order[|order| - 1];
            FamilySum(b, order, f, n) ==
              FamilySum(b, order[..|order| - 1], f, n) + if last < n && InFamily(b, last, f) then 1 else 0
  {
    if n > 0 {
      FamilySumStep(b, order, f, n - 1);
    }
  }

  lemma {:induction false} FamilySumEmpty(b: seq<Instance>, f: int, n: nat)
    requires n <= |b|
    ensures FamilySum(b, [], f, n) == 0
  {
    if n > 0 {
      FamilySumEmpty(b, f, n - 1);
    }
  }

  lemma {:induction false} CountFamilyIsSum(b: seq<Instance>, order: seq<nat>, f: int)
    requires Indices(b, order)
    ensures CountFamily(b, order, f) == FamilySum(b, order, f, |b|)
  {
    if order == [] {
      FamilySumEmpty(b, f, |b|);
    } else {
      CountFamilyIsSum(b, order[..|order| - 1], f);
      FamilySumStep(b, order, f, |b|);
    }
  }

  /** A family is complete exactly when all its runners are. */
  lemma {:induction false} SumAgainstQuota(b: seq<Instance>, order: seq<nat>, f: int, n: nat)
    requires WithinQuota(b, order) && n <= |b|
    ensures FamilySum(b, order, f, n) <= Quota(b, f, n)
    ensures FamilySum(b, order, f, n) == Quota(b, f, n) <==>
            forall r :: 0 <= r < n && InFamily(b, r, f) ==> Count(order, r) == b[r].config.repeats
  {
    if n > 0 {
      SumAgainstQuota(b, order, f, n - 1);
    }
  }

  lemma FamilyComplete(b: seq<Instance>, order: seq<nat>, f: int)
    requires WithinQuota(b, order)
    ensures CountFamily(b, order, f) <= Quota(b, f, |b|)
    ensures CountFamily(b, order, f) == Quota(b, f, |b|) <==>
            forall r :: 0 <= r < |b| && InFamily(b, r, f) ==> Count(order, r) == b[r].config.repeats
  {
    CountFamilyIsSum(b, order, f);
    SumAgainstQuota(b, order, f, |b|);
  }

  /** The complexity report of a family is computed once, when all its repetitions are done. */
  lemma {:induction false} ComplexityOnce(b: seq<Instance>, order: seq<nat>, f: int)
    requires WithinQuota(b, order) && Quota(b, f, |b|) > 0
    ensures ComplexityReports(b, EventsOf(b, order), f) == if CountFamily(b, order, f) == Quota(b, f, |b|) then 1 else 0
  {
    if order == [] {
    } else {
      var before, r := order[..|order| - 1], order[|order| - 1];
      WithinPrefix(b, order);
      ComplexityOnce(b, before, f);
      AppendEvent(b, EventsOf(b, before), EventAt(b, order), 0, f);
      FamilyComplete(b, before, f);
      FamilyComplete(b, order, f);
    }
  }

  /** The list before the shuffle: every index, once per repetition. */
  ghost function Filled(b: seq<Instance>, n: nat): seq<nat>
    requires n <= |b|
  {
    if n == 0 then [] else Filled(b, n - 1) + seq(b[n - 1].config.repeats, i => n - 1)
  }

  lemma {:induction false} CountIsMultiplicity(order: seq<nat>, r: nat)
    ensures Count(order, r) == multiset(order)[r]
  {
    if order == [] {
    } else {
      CountIsMultiplicity(order[..|order| - 1], r);
      assert order == order[..|order| - 1] + [order[|order| - 1]];
    }
  }

  lemma {:induction false} CountAppend(a: seq<nat>, c: seq<nat>, r: nat)
    ensures Count(a + c, r) == Count(a, r) + Count(c, r)
  {
    if c == [] {
      assert a + c == a;
    } else {
      CountAppend(a, c[..|c| - 1], r);
      assert (a + c)[..|a + c| - 1] == a + c[..|c| - 1];
    }
  }

  lemma {:induction false} CountConstant(k: nat, v: nat, r: nat)
    ensures Count(seq(k, i => v), r) == if r == v then k else 0
  {
    if k > 0 {
      CountConstant(k - 1, v, r);
      assert seq(k, i => v)[..k - 1] == seq(k - 1, i => v);
    }
  }

  lemma {:induction false} FilledCounts(b: seq<Instance>, n: nat, r: nat)
    requires n <= |b|
    ensures Count(Filled(b, n), r) == if r < n then b[r].config.repeats else 0
  {
    if n > 0 {
      FilledCounts(b, n - 1, r);
      CountAppend(Filled(b, n - 1), seq(b[n - 1].config.repeats, i => n - 1), r);
      CountConstant(b[n - 1].config.repeats, n - 1, r);
    }
  }

  lemma CountPositive(order: seq<nat>, r: nat)
    ensures Count(order, r) > 0 <==> r in order
  {
    CountIsMultiplicity(order, r);
  }

  /** Any shuffle of the filled list gives every runner exactly its repetitions. */
  lemma ShuffleKeepsQuota(b: seq<Instance>, order: seq<nat>)
    requires multiset(order) == multiset(Filled(b, |b|))
    ensures WithinQuota(b, order)
    ensures forall r :: 0 <= r < |b| ==> Count(order, r) == b[r].config.repeats
  {
    forall r: nat
      ensures Count(order, r) == if r < |b| then b[r].config.repeats else 0
    {
      CountIsMultiplicity(order, r);
      CountIsMultiplicity(Filled(b, |b|), r);
      FilledCounts(b, |b|, r);
    }
    forall i | 0 <= i < |order|
      ensures order[i] < |b|
    {
      CountPositive(order, order[i]);
    }
  }

  /** Main result for the reports: under every shuffle each runner is reported exactly once and each
      family's complexity report is computed exactly once. */
  lemma EveryReportOnce(b: seq<Instance>, order: seq<nat>)
    requires multiset(order) == multiset(Filled(b, |b|))
    requires forall r :: 0 <= r < |b| ==> b[r].config.repeats > 0
    ensures Indices(b, order)
    ensures forall r :: 0 <= r < |b| ==> ReportsOf(EventsOf(b, order), r) == 1
    ensures forall r :: 0 <= r < |b| && b[r].complexity ==> ComplexityReports(b, EventsOf(b, order), b[r].family) == 1
  {
    ShuffleKeepsQuota(b, order);
    forall r | 0 <= r < |b|
      ensures ReportsOf(EventsOf(b, order), r) == 1
    {
      ReportedOnce(b, order, r);
    }
    forall r | 0 <= r < |b| && b[r].complexity
      ensures ComplexityReports(b, EventsOf(b, order), b[r].family) == 1
    {
      FamilyComplete(b, order, b[r].family);
      FamilyComplete(b, [], b[r].family);
      ComplexityOnce(b, order, b[r].family);
    }
  }

  /** The runs of family f that were kept: one for every repetition that was not skipped. */
  ghost function Kept(b: seq<Instance>, order: seq<nat>, skipped: seq<bool>, f: int): nat
    requires |skipped| == |order|
  {
    if order == [] then 0
    else
      var n := |order| - 1;
      Kept(b, order[..n], skipped[..n], f) + if InFamily(b, order[n], f) && !skipped[n] then 1 else 0
  }

  /** The runners and the family records after the repetitions of order. */
  ghost predicate InProgress(
    b: seq<Instance>, runners: seq<Runner>, all: map<int, FamilyReport>, order: seq<nat>, skipped: seq<bool>)
    reads runners, all.Values
    requires |skipped| == |order|
  {
    && |runners| == |b|
    && (forall r, q :: 0 <= r < q < |b| ==> runners[r] != runners[q])
    && (forall r :: 0 <= r < |b| ==>
          && runners[r].config == b[r].config && runners[r].repetitionsDone == Count(order, r)
          && (b[r].complexity ==> b[r].family in all && runners[r].report == all[b[r].family])
          && (!b[r].complexity ==> runners[r].report == null))
    && (forall f :: f in all ==>
          && all[f].family == f && all[f].total == Quota(b, f, |b|) && all[f].done == CountFamily(b, order, f)
          && |all[f].runs| == Kept(b, order, skipped, f) && (forall x :: x in all[f].runs ==> x == f))
    && (forall f, g :: f in all && g in all && f != g ==> all[f] != all[g])
  }

  ghost predicate Measured(runners: seq<Runner>, benches: seq<Bench>)
    requires |benches| == |runners| && forall r :: 0 <= r < |benches| ==> Honest(benches[r])
    reads runners
  {
    forall r :: 0 <= r < |runners| ==> runners[r].OnTrack(benches[r])
  }

  /** Reference: what the repetitions give back when they run in this order. */
  ghost function Outcomes(b: seq<Instance>, benches: seq<Bench>, order: seq<nat>): (rs: seq<Result>)
    requires |benches| == |b| && Indices(b, order) && forall r :: 0 <= r < |benches| ==> Honest(benches[r])
    ensures |rs| == |order|
  {
    seq(|order|, i requires 0 <= i < |order| =>
      Repetition(b[order[i]].config, benches[order[i]], Count(order[..i], order[i])))
  }

  ghost function Skips(rs: seq<Result>): (s: seq<bool>)
    ensures |s| == |rs| && forall i :: 0 <= i < |rs| ==> s[i] == rs[i].skipped
  {
    seq(|rs|, i requires 0 <= i < |rs| => rs[i].skipped)
  }

  /** Just the records of unfinished families have not been erased. */
  ghost predicate Unerased(b: seq<Instance>, all: map<int, FamilyReport>, live: map<int, FamilyReport>,
      order: seq<nat>) {
    && (forall f :: f in live <==> f in all && CountFamily(b, order, f) < Quota(b, f, |b|))
    && (forall f :: f in live ==> live[f] == all[f])
  }

  /** Every erased record belonged to a family with a kept run. */
  ghost predicate ErasedKept(
    b: seq<Instance>, all: map<int, FamilyReport>, live: map<int, FamilyReport>, order: seq<nat>, skipped: seq<bool>)
    requires |skipped| == |order|
  {
    forall f :: f in all && f !in live ==> Kept(b, order, skipped, f) > 0
  }

  /** The runners of the first n instances stand ready, with the records of their families. */
  ghost predicate Ready(b: seq<Instance>, n: nat, runners: seq<Runner>, reports: map<int, FamilyReport>)
    reads runners, reports.Values
    requires n <= |b|
  {
    RunnersReady(b, n, runners, reports) && ReportsReady(b, n, reports)
  }

  ghost predicate RunnersReady(b: seq<Instance>, n: nat, runners: seq<Runner>, reports: map<int, FamilyReport>)
    reads runners
    requires n <= |b|
  {
    && |runners| == n
    && (forall r, q :: 0 <= r < q < n ==> runners[r] != runners[q])
    && (forall r :: 0 <= r < n ==>
          && runners[r].config == b[r].config && runners[r].Unstarted()
          && (b[r].complexity ==> b[r].family in reports && runners[r].report == reports[b[r].family])
          && (!b[r].complexity ==> runners[r].report == null))
  }

  ghost predicate ReportsReady(b: seq<Instance>, n: nat, reports: map<int, FamilyReport>)
    reads reports.Values
    requires n <= |b|
  {
    && (forall f :: f in reports ==>
          && reports[f].family == f && reports[f].total == Quota(b, f, n)
          && reports[f].done == 0 && reports[f].runs == [])
    && (forall f :: f in reports <==> Quota(b, f, n) > 0)
    && (forall f, g :: f in reports && g in reports && f != g ==> reports[f] != reports[g])
  }

  /** Creates the runners, and a record for every family with a complexity report. */
  method Setup(b: seq<Instance>) returns (runners: seq<Runner>, reports: map<int, FamilyReport>)
    requires forall r :: 0 <= r < |b| ==> b[r].config.repeats > 0
    ensures forall r :: 0 <= r < |runners| ==> fresh(runners[r])
    ensures forall f :: f in reports ==> fresh(reports[f])
    ensures Ready(b, |b|, runners, reports)
  {
    runners, reports := [], map[];
    for n := 0 to |b|
      invariant Ready(b, n, runners, reports)
      invariant forall r :: 0 <= r < n ==> fresh(runners[r])
      invariant forall f :: f in reports ==> fresh(reports[f])
    {
      runners, reports := AddRunner(b, n, runners, reports);
    }
  }

  lemma QuotaNext(b: seq<Instance>, n: nat)
    requires n < |b|
    ensures forall f :: Quota(b, f, n + 1)
                     == Quota(b, f, n) + if b[n].complexity && b[n].family == f then b[n].config.repeats else 0
  {
  }

  method AddRunner(b: seq<Instance>, n: nat, runners0: seq<Runner>, reports0: map<int, FamilyReport>)
    returns (runners: seq<Runner>, reports: map<int, FamilyReport>)
    requires n < |b| && b[n].config.repeats > 0 && Ready(b, n, runners0, reports0)
    modifies if b[n].family in reports0 then {reports0[b[n].family]} else {}
    ensures Ready(b, n + 1, runners, reports)
    ensures |runners| == n + 1 && runners[..n] == runners0 && fresh(runners[n])
    ensures forall f :: f in reports ==> fresh(reports[f]) || (f in reports0 && reports[f] == reports0[f])
  {
    hide Quota, InFamily, Runner.Unstarted, RunnersReady, ReportsReady;
    var report;
    report, reports := ReportFor(b, n, reports0);
    SameReports(b, n, runners0, reports0, reports);
    var runner := new Runner(b[n].config, report);
    runners := runners0 + [runner];
    OneMoreRunner(b, n, runners0, runner, reports);
  }

  lemma SameReports(b: seq<Instance>, n: nat, runners: seq<Runner>, was: map<int, FamilyReport>, reports: map<int,
      FamilyReport>)
    requires n <= |b| && RunnersReady(b, n, runners, was)
    requires forall f :: f in was ==> f in reports && reports[f] == was[f]
    ensures RunnersReady(b, n, runners, reports)
  {
  }

  lemma OneMoreRunner(b: seq<Instance>, n: nat, runners: seq<Runner>, runner: Runner, reports: map<int, FamilyReport>)
    requires n < |b| && RunnersReady(b, n, runners, reports) && runner !in runners
    requires runner.config == b[n].config && runner.Unstarted()
    requires b[n].complexity ==> b[n].family in reports && runner.report == reports[b[n].family]
    requires !b[n].complexity ==> runner.report == null
    ensures RunnersReady(b, n + 1, runners + [runner], reports)
  {
  }

  /** The record of the family of instance n, made if it is the family's first, with n's repetitions
      added to its total. */
  method ReportFor(b: seq<Instance>, n: nat, reports0: map<int, FamilyReport>)
    returns (report: FamilyReport?, reports: map<int, FamilyReport>)
    requires n < |b| && b[n].config.repeats > 0 && ReportsReady(b, n, reports0)
    modifies if b[n].family in reports0 then {reports0[b[n].family]} else {}
    ensures ReportsReady(b, n + 1, reports)
    ensures if b[n].complexity then b[n].family in reports && report == reports[b[n].family] else report == null
    ensures forall f :: f in reports0 ==> f in reports && reports[f] == reports0[f]
    ensures forall f :: f in reports ==> fresh(reports[f]) || (f in reports0 && reports[f] == reports0[f])
  {
    hide Quota, InFamily;
    QuotaNext(b, n);
    report, reports := null, reports0;
    if b[n].complexity {
      if b[n].family !in reports {
        var made := new FamilyReport(b[n].family);
        reports := reports[b[n].family := made];
      }
      report := reports[b[n].family];
      report.total := report.total + b[n].config.repeats;
    }
  }

  /** One turn of the scheduler's loop up to the repetition: exactly the counters of this runner and
      of its family move. */
  method Turn(b: seq<Instance>, benches: seq<Bench>, runners: seq<Runner>, ghost all: map<int, FamilyReport>,
              ghost order: seq<nat>, ghost skipped: seq<bool>, r: nat) returns (res: Result)
    requires |skipped| == |order| && InProgress(b, runners, all, order, skipped)
    requires |benches| == |runners| && (forall q :: 0 <= q < |benches| ==> Honest(benches[q]))
             && Measured(runners, benches)
    requires r < |b| && Count(order, r) < b[r].config.repeats
    modifies runners[r], if b[r].complexity then {all[b[r].family]} else {}
    ensures InProgress(b, runners, all, order + [r], skipped + [res.skipped]) && Measured(runners, benches)
    ensures res == Repetition(b[r].config, benches[r], Count(order, r))
  {
    hide Quota, Count, CountFamily, Kept, Honest, Repetition, Runner.OnTrack;
    OneMoreTurn(b, order, skipped, r);
    res := runners[r].DoOneRepetition(benches[r]);
  }

  lemma OneMoreTurn(b: seq<Instance>, order: seq<nat>, skipped: seq<bool>, r: nat)
    requires |skipped| == |order|
    ensures forall q :: Count(order + [r], q) == Count(order, q) + if r == q then 1 else 0
    ensures forall f :: CountFamily(b, order + [r], f) == CountFamily(b, order, f) + if InFamily(b, r, f) then 1 else 0
    ensures forall f, s :: Kept(b, order + [r], skipped + [s], f)
                        == Kept(b, order, skipped, f) + if InFamily(b, r, f) && !s then 1 else 0
  {
    assert (order + [r])[..|order + [r]| - 1] == order;
    forall s: bool
      ensures (skipped + [s])[..|order|] == skipped
    {
    }
  }

  /** RunBenchmarks, for whatever list a shuffle leaves. Every repetition finds repeats remaining and
      its family's record not yet erased, and gives back what the reference says. The one undefined
      step is erasing the record of a family whose runs were all skipped, since its key is read off
      the first kept run; it is met exactly when there is such a family, whatever the shuffle. */
  method RunBenchmarks(b: seq<Instance>, order: seq<nat>, benches: seq<Bench>)
    returns (results: seq<Result>, events: seq<Event>, undefined: bool)
    requires |benches| == |b| && forall r :: 0 <= r < |benches| ==> Honest(benches[r])
    requires forall r :: 0 <= r < |b| ==> b[r].config.repeats > 0
    requires multiset(order) == multiset(Filled(b, |b|))
    ensures Indices(b, order) && results <= Outcomes(b, benches, order)
    ensures undefined <==> exists r :: 0 <= r < |b| && AllSkipped(b, benches, r)
    ensures !undefined ==> results == Outcomes(b, benches, order) && events == EventsOf(b, order)
    ensures undefined ==>
              && 0 < |results| <= |order| && events == EventsOf(b, order[..|results| - 1])
              && AllSkipped(b, benches, order[|results| - 1])
  {
    hide Quota, Count, CountFamily, Kept, Honest, InFamily, EventsOf, EventAt, Unerased, ErasedKept, InProgress,
         Outcomes, Measured, Skips, AllSkipped;
    ShuffleKeepsQuota(b, order);
    var runners, reports := Setup(b);
    ghost var all := reports;
    results, events, undefined := [], [], false;
    Started(b, benches, runners, all);
    for i := 0 to |order|
      invariant |results| == i && !undefined && events == EventsOf(b, order[..i])
      invariant results == Outcomes(b, benches, order)[..i]
      invariant InProgress(b, runners, all, order[..i], Skips(results)) && Unerased(b, all, reports, order[..i])
      invariant |runners| == |b| && Measured(runners, benches)
      invariant ErasedKept(b, all, reports, order[..i], Skips(results))
      invariant forall r :: 0 <= r < |runners| ==> fresh(runners[r])
      invariant forall f :: f in all ==> fresh(all[f])
      invariant forall r :: 0 <= r < |b| && b[r].complexity ==> b[r].family in all
    {
      TurnFacts(b, order, i, Skips(results));
      var res, more, rest;
      res, more, rest, undefined := OneTurn(b, benches, runners, reports, order, i, all, Skips(results));
      NextOutcome(b, benches, order, i, results, res);
      results := results + [res];
      if undefined {
        assert order[..|results| - 1] == order[..i];
        SkippedForGood(b, benches, order, i + 1, order[i], results);
        KeepsNoneIff(b, benches, order, order[i]);
        return;
      }
      events, reports := events + more, rest;
    }
    assert order[..|order|] == order && Outcomes(b, benches, order)[..|order|] == Outcomes(b, benches, order);
    NoneSkipped(b, benches, order, all, reports);
  }

  /** At the end every record is erased, so every family with one has kept a run. */
  lemma NoneSkipped(b: seq<Instance>, benches: seq<Bench>, order: seq<nat>, all: map<int, FamilyReport>,
      live: map<int, FamilyReport>)
    requires |benches| == |b| && Indices(b, order) && forall q :: 0 <= q < |benches| ==> Honest(benches[q])
    requires WithinQuota(b, order) && forall r :: 0 <= r < |b| ==> Count(order, r) == b[r].config.repeats
    requires Unerased(b, all, live, order) && forall r :: 0 <= r < |b| && b[r].complexity ==> b[r].family in all
    requires ErasedKept(b, all, live, order, Skips(Outcomes(b, benches, order)))
    ensures forall r :: 0 <= r < |b| ==> !AllSkipped(b, benches, r)
  {
    hide Quota, Count, CountFamily, Kept, Honest, Outcomes, Unerased;
    forall r | 0 <= r < |b| && b[r].complexity
      ensures !AllSkipped(b, benches, r)
    {
      KeepsNoneIff(b, benches, order, r);
      FamilyComplete(b, order, b[r].family);
      Erased(b, all, live, order, b[r].family);
    }
  }

  /** Instance r belongs to a family with a complexity report, and no run of it is kept. */
  ghost predicate KeepsNone(b: seq<Instance>, benches: seq<Bench>, order: seq<nat>, r: nat)
    requires |benches| == |b| && Indices(b, order) && forall q :: 0 <= q < |benches| ==> Honest(benches[q])
  {
    r < |b| && b[r].complexity && Kept(b, order, Skips(Outcomes(b, benches, order)), b[r].family) == 0
  }

  /** Instance r belongs to a family with a complexity report, and every repetition of every instance
      of that family is skipped. */
  ghost predicate AllSkipped(b: seq<Instance>, benches: seq<Bench>, r: nat)
    requires |benches| == |b| && forall q :: 0 <= q < |benches| ==> Honest(benches[q])
  {
    && r < |b| && b[r].complexity
    && forall q, k :: 0 <= q < |b| && InFamily(b, q, b[r].family) && 0 <= k < b[q].config.repeats ==>
                        Repetition(b[q].config, benches[q], k).skipped
  }

  lemma {:induction false} KeptNoneMeans(b: seq<Instance>, order: seq<nat>, skipped: seq<bool>, f: int)
    requires |skipped| == |order|
    ensures Kept(b, order, skipped, f) == 0 <==>
            forall i :: 0 <= i < |order| && InFamily(b, order[i], f) ==> skipped[i]
    decreases |order|
  {
    hide InFamily;
    if order != [] {
      var m := |order| - 1;
      KeptNoneMeans(b, order[..m], skipped[..m], f);
      assert forall i :: 0 <= i < m ==> order[..m][i] == order[i] && skipped[..m][i] == skipped[i];
    }
  }

  /** Repetition k of runner q has a place in the order, if that many come. */
  lemma {:induction false} PlaceOf(order: seq<nat>, q: nat, k: nat) returns (i: nat)
    requires k < Count(order, q)
    ensures i < |order| && order[i] == q && Count(order[..i], q) == k
    decreases |order|
  {
    var m := |order| - 1;
    if order[m] == q && Count(order[..m], q) == k {
      i := m;
    } else {
      i := PlaceOf(order[..m], q, k);
      assert order[..m][..i] == order[..i];
    }
  }

  lemma {:induction false} CountBefore(order: seq<nat>, i: nat)
    requires i < |order|
    ensures Count(order[..i], order[i]) < Count(order, order[i])
    decreases |order|
  {
    var m := |order| - 1;
    if i < m {
      CountBefore(order[..m], i);
      assert order[..m][..i] == order[..i];
    }
  }

  /** Which runs are kept does not depend on the shuffle. */
  lemma KeepsNoneIff(b: seq<Instance>, benches: seq<Bench>, order: seq<nat>, r: nat)
    requires |benches| == |b| && Indices(b, order) && forall q :: 0 <= q < |benches| ==> Honest(benches[q])
    requires forall q :: 0 <= q < |b| ==> Count(order, q) == b[q].config.repeats
    ensures KeepsNone(b, benches, order, r) <==> AllSkipped(b, benches, r)
  {
    hide Repetition, Count, Kept, Honest, InFamily;
    if r < |b| && b[r].complexity {
      var f, outcomes := b[r].family, Outcomes(b, benches, order);
      KeptNoneMeans(b, order, Skips(outcomes), f);
      if AllSkipped(b, benches, r) {
        forall i | 0 <= i < |order| && InFamily(b, order[i], f)
          ensures Skips(outcomes)[i]
        {
          CountBefore(order, i);
        }
      }
      if KeepsNone(b, benches, order, r) {
        forall q, k | 0 <= q < |b| && InFamily(b, q, f) && 0 <= k < b[q].config.repeats
          ensures Repetition(b[q].config, benches[q], k).skipped
        {
          var i := PlaceOf(order, q, k);
          assert Skips(outcomes)[i];
        }
      }
    }
  }

  lemma NextOutcome(b: seq<Instance>, benches: seq<Bench>, order: seq<nat>, i: nat, results: seq<Result>, res: Result)
    requires |benches| == |b| && Indices(b, order) && forall q :: 0 <= q < |benches| ==> Honest(benches[q])
    requires i < |order| && results == Outcomes(b, benches, order)[..i]
    requires res == Repetition(b[order[i]].config, benches[order[i]], Count(order[..i], order[i]))
    ensures results + [res] == Outcomes(b, benches, order)[..i + 1]
    ensures Skips(results + [res]) == Skips(results) + [res.skipped]
  {
  }

  /** After a family's last repetition nothing is added to its kept runs. */
  lemma SkippedForGood(b: seq<Instance>, benches: seq<Bench>, order: seq<nat>, n: nat, r: nat, results: seq<Result>)
    requires |benches| == |b| && Indices(b, order) && forall q :: 0 <= q < |benches| ==> Honest(benches[q])
    requires WithinQuota(b, order) && n <= |order| && results == Outcomes(b, benches, order)[..n] && r < |b|
    requires b[r].complexity && CountFamily(b, order[..n], b[r].family) == Quota(b, b[r].family, |b|)
    requires Kept(b, order[..n], Skips(results), b[r].family) == 0
    ensures KeepsNone(b, benches, order, r)
  {
    hide Quota, CountFamily, Kept, Honest, WithinQuota;
    var skips := Skips(Outcomes(b, benches, order));
    assert skips[..n] == Skips(results);
    FamilyComplete(b, order, b[r].family);
    KeptStays(b, order, skips, n, b[r].family);
  }

  lemma {:induction false} KeptStays(b: seq<Instance>, order: seq<nat>, skipped: seq<bool>, n: nat, f: int)
    requires |skipped| == |order| && n <= |order|
    ensures CountFamily(b, order[..n], f) <= CountFamily(b, order, f)
    ensures CountFamily(b, order[..n], f) == CountFamily(b, order, f) ==>
              Kept(b, order, skipped, f) == Kept(b, order[..n], skipped[..n], f)
    decreases |order|
  {
    if n == |order| {
      assert order[..n] == order && skipped[..n] == skipped;
    } else {
      var m := |order| - 1;
      KeptStays(b, order[..m], skipped[..m], n, f);
      assert order[..m][..n] == order[..n] && skipped[..m][..n] == skipped[..n];
    }
  }

  lemma Erased(b: seq<Instance>, all: map<int, FamilyReport>, live: map<int, FamilyReport>, order: seq<nat>, f: int)
    requires Unerased(b, all, live, order) && CountFamily(b, order, f) >= Quota(b, f, |b|)
    ensures f !in live
  {
  }

  /** One turn of the loop: the repetition, and, if the runner is finished, its report. */
  method OneTurn(b: seq<Instance>, benches: seq<Bench>, runners: seq<Runner>, live: map<int, FamilyReport>,
                 order: seq<nat>, i: nat, ghost all: map<int, FamilyReport>, ghost skipped: seq<bool>)
    returns (res: Result, report: seq<Event>, rest: map<int, FamilyReport>, undefined: bool)
    requires i < |order| && |skipped| == i && WithinQuota(b, order)
    requires |benches| == |runners| && (forall q :: 0 <= q < |benches| ==> Honest(benches[q]))
             && Measured(runners, benches)
    requires InProgress(b, runners, all, order[..i], skipped) && Unerased(b, all, live, order[..i])
    requires ErasedKept(b, all, live, order[..i], skipped)
    requires |runners| == |b| && (b[order[i]].complexity ==> b[order[i]].family in all)
    modifies runners[order[i]], if b[order[i]].complexity then {all[b[order[i]].family]} else {}
    ensures Indices(b, order[..i + 1]) && InProgress(b, runners, all, order[..i + 1], skipped + [res.skipped])
    ensures Measured(runners, benches)
    ensures res == Repetition(b[order[i]].config, benches[order[i]], Count(order[..i], order[i]))
    ensures !undefined ==> Unerased(b, all, rest, order[..i + 1]) && report == EventAt(b, order[..i + 1])
    ensures !undefined ==> ErasedKept(b, all, rest, order[..i + 1], skipped + [res.skipped])
    ensures undefined ==>
              var r := order[i];
              && b[r].complexity && Kept(b, order[..i + 1], skipped + [res.skipped], b[r].family) == 0
              && CountFamily(b, order[..i + 1], b[r].family) == Quota(b, b[r].family, |b|)
  {
    hide Quota, Count, CountFamily, Kept, Honest, InFamily, EventsOf, EventAt, Unerased, Measured, Repetition;
    var r := order[i];
    PrefixQuota(b, order, i);
    PrefixQuota(b, order, i + 1);
    TurnFacts(b, order, i, skipped);
    assert Count(order[..i + 1], r) <= b[r].config.repeats;
    if b[r].complexity && Count(order[..i + 1], r) < b[r].config.repeats {
      UnfinishedFamily(b, order[..i + 1], r);
    }
    UnerasedNext(b, all, live, order, i);
    // the record that the repetition updates has not been erased
    assert b[r].complexity ==> b[r].family in live;
    report, rest, undefined := [], live, false;
    res := Turn(b, benches, runners, all, order[..i], skipped, r);
    var runner := runners[r];
    if runner.repetitionsDone != runner.config.repeats {
      return;
    }
    var complexity := false;
    if runner.report != null && runner.report.done == runner.report.total {
      if runner.report.runs == [] {
        undefined := true;
        return;
      }
      complexity := true;
      assert runner.report.runs[0] in runner.report.runs && runner.report.runs[0] == b[r].family;
      rest := rest - {runner.report.runs[0]};
    }
    assert !complexity && b[r].complexity ==> CountFamily(b, order[..i + 1], b[r].family) < Quota(b, b[r].family, |b|);
    report := [Report(r, complexity)];
  }

  lemma UnerasedNext(b: seq<Instance>, all: map<int, FamilyReport>, live: map<int, FamilyReport>, order: seq<nat>,
      i: nat)
    requires i < |order| && Indices(b, order) && Unerased(b, all, live, order[..i])
    ensures var r, ran := order[i], order[..i + 1];
            && (forall f :: f in live <==> f in all && CountFamily(b, order[..i], f) < Quota(b, f, |b|))
            && (b[r].complexity && CountFamily(b, ran, b[r].family) >= Quota(b, b[r].family, |b|) ==>
                  Unerased(b, all, live - {b[r].family}, ran))
            && (!b[r].complexity || CountFamily(b, ran, b[r].family) < Quota(b, b[r].family, |b|) ==>
                  Unerased(b, all, live, ran))
  {
    hide Quota, CountFamily;
    assert order[..i + 1] == order[..i] + [order[i]];
    OneMoreTurn(b, order[..i], seq(i, k => false), order[i]);
  }

  /** While a runner has repetitions left, so has its family. */
  lemma UnfinishedFamily(b: seq<Instance>, ran: seq<nat>, r: nat)
    requires WithinQuota(b, ran) && r < |b| && b[r].complexity && Count(ran, r) < b[r].config.repeats
    ensures CountFamily(b, ran, b[r].family) < Quota(b, b[r].family, |b|)
  {
    FamilyComplete(b, ran, b[r].family);
    assert InFamily(b, r, b[r].family);
  }

  /** What the i-th turn changes, and when it reports. */
  lemma TurnFacts(b: seq<Instance>, order: seq<nat>, i: nat, skipped: seq<bool>)
    requires i < |order| && |skipped| == i && Indices(b, order)
    ensures var r, ran := order[i], order[..i + 1];
            && ran == order[..i] + [r] && Indices(b, ran) && Indices(b, order[..i])
            && Count(ran, r) == Count(order[..i], r) + 1
            && (b[r].complexity ==> CountFamily(b, ran, b[r].family) == CountFamily(b, order[..i], b[r].family) + 1)
            && (forall f :: f != b[r].family || !b[r].complexity ==>
                              CountFamily(b, ran, f) == CountFamily(b, order[..i], f))
            && (forall f, s :: Kept(b, ran, skipped + [s], f) >= Kept(b, order[..i], skipped, f))
            && EventsOf(b, ran) == EventsOf(b, order[..i]) + EventAt(b, ran)
            && EventAt(b, ran) ==
               (if Count(ran, r) != b[r].config.repeats then []
                else [Report(r, b[r].complexity && CountFamily(b, ran, b[r].family) == Quota(b, b[r].family, |b|))])
  {
    OneMoreTurn(b, order[..i], skipped, order[i]);
    assert order[..i + 1] == order[..i] + [order[i]];
    assert order[..i + 1][..i] == order[..i];
  }

  lemma Started(b: seq<Instance>, benches: seq<Bench>, runners: seq<Runner>, reports: map<int, FamilyReport>)
    requires Ready(b, |b|, runners, reports) && |benches| == |b|
    requires forall q :: 0 <= q < |benches| ==> Honest(benches[q])
    ensures |runners| == |b| && Measured(runners, benches)
    ensures InProgress(b, runners, reports, [], []) && Unerased(b, reports, reports, [])
    ensures ErasedKept(b, reports, reports, [], []) && Skips([]) == []
    ensures EventsOf(b, []) == [] && |runners| == |b|
    ensures forall r :: 0 <= r < |b| && b[r].complexity ==> b[r].family in reports
  {
  }

  lemma {:induction false} PrefixQuota(b: seq<Instance>, order: seq<nat>, i: nat)
    requires WithinQuota(b, order) && i <= |order|
    ensures WithinQuota(b, order[..i])
    ensures forall f :: CountFamily(b, order[..i], f) <= Quota(b, f, |b|)
    decreases |order|
  {
    if i == |order| {
      assert order[..i] == order;
      forall f
        ensures CountFamily(b, order, f) <= Quota(b, f, |b|)
      {
        FamilyComplete(b, order, f);
      }
    } else {
      WithinPrefix(b, order);
      PrefixQuota(b, order[..|order| - 1], i);
      assert order[..|order| - 1][..i] == order[..i];
    }
  }

  /** A family of one benchmark that skips: its one repetition is a schedule that meets the undefined
      step. */
  lemma OneSkippedFamily(c: Config) returns (b: seq<Instance>, benches: seq<Bench>, order: seq<nat>)
    requires c.repeats == 1
    ensures |benches| == |b| == 1 && b[0] == Instance(c, 0, true) && Honest(benches[0])
    ensures multiset(order) == multiset(Filled(b, |b|)) && AllSkipped(b, benches, 0)
  {
    b := [Instance(c, 0, true)];
    benches := [(call, n) => Result(0, 0.0, 0.0, true)];
    order := [0];
    assert Filled(b, 0) == [] && Filled(b, 1) == [] + seq(1, i => 0) == [0];
  }
}
