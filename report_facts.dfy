/** Properties of a run of `LoadTestHandler`: the dispatch count against
    the channel capacity, what the error count and the error counter hold
    afterwards, and what the average, the percentiles and the per-status
    summaries of the report mean. */
module ReportFacts {
  import opened GoInt
  import opened Seqs
  import opened Aggregate
  import opened DrainFacts
  import opened Percentile
  import opened LoadTest

  // ---------------------------------------------------------------------
  // Dispatch and the channel.

  /** Every worker sends one record unless it panics; the failed records
      are the transport errors; the workers' own increments are the
      transport errors and the panics. */
  lemma {:induction false} Tally(outcome: nat -> Exchange, n: nat)
    ensures |SentBy(outcome, n)| + Panics(outcome, n) == n
    ensures Failures(SentBy(outcome, n)) == Transports(outcome, n)
    ensures WorkerErrors(outcome, n) == Transports(outcome, n) + Panics(outcome, n)
  {
    if n > 0 {
      Tally(outcome, n - 1);
      var xs, e := SentBy(outcome, n - 1), outcome(n - 1);
      assert SentBy(outcome, n) == xs + Sends(e);
      if e.Panic? {
        assert xs + Sends(e) == xs;
      } else {
        var r := if e.Reply? then Result(e.status, e.latency, false) else Result(0, e.latency, true);
        assert Sends(e) == [r];
        FailuresSnoc(xs, r);
      }
    }
  }

  /** Without overflow, the channel is sized to exactly the number of
      workers the loops start. */
  lemma CapacityIsDispatchCount(rps: Int64, duration: Int64)
    requires rps > 0 && duration > 0 && rps * duration <= MaxInt64
    ensures Mul(rps, duration) == DispatchCount(rps, duration)
  {
    MulAtLeast(rps, duration);
  }

  /** When `rps * duration` neither overflows nor exceeds the largest
      channel size, no worker blocks and the report is built, with
      `totalRequests` at least the number of workers started. */
  lemma NoOverflowCompletes(rps: Int64, duration: Int64, outcome: nat -> Exchange)
    requires 0 <= rps * duration <= MaxChanCap
    ensures Report(rps, duration, outcome).Completed?
    ensures Report(rps, duration, outcome).metrics.totalRequests >= DispatchCount(rps, duration)
  {
    var n := DispatchCount(rps, duration);
    Tally(outcome, n);
    if rps > 0 && duration > 0 {
      CapacityIsDispatchCount(rps, duration);
    }
  }

  /** With both rates negative the loops start no worker, yet the channel
      gets capacity 1 and the report claims one request. */
  lemma NegativeRates(outcome: nat -> Exchange)
    ensures DispatchCount(-1, -1) == 0
    ensures Report(-1, -1, outcome).Completed?
    ensures Report(-1, -1, outcome).metrics.totalRequests == 1
  {
  }

  /** A negative product is a negative channel size: `make` panics before
      any worker starts. */
  lemma NegativeCapacity(outcome: nat -> Exchange)
    ensures Report(-1, 1, outcome) == ChannelPanic
  {
  }

  /** A product above the largest channel size also makes `make` panic,
      before any worker starts, and the counter keeps its reset value. */
  lemma TooLargePanics(outcome: nat -> Exchange)
    ensures Mul(10_000_000, 1_000_000) == 10_000_000_000_000 > MaxChanCap
    ensures Report(10_000_000, 1_000_000, outcome) == ChannelPanic
    ensures FinalCount(10_000_000, 1_000_000, outcome) == 0
  {
  }

  /** Every request gets a 200 response after one nanosecond. */
  function AllOk(k: nat): Exchange
  {
    Reply(200, 1)
  }

  /** `rps * duration` wraps to 0 for rps = duration = 2^32: the channel is
      unbuffered, and the first worker to send blocks forever. */
  lemma OverflowBlocks()
    ensures Mul(0x1_0000_0000, 0x1_0000_0000) == 0
    ensures Report(0x1_0000_0000, 0x1_0000_0000, AllOk) == Blocked
  {
    var n := DispatchCount(0x1_0000_0000, 0x1_0000_0000);
    WrapUnique(0x1_0000_0000 * 0x1_0000_0000, 0, 1);
    assert |SentBy(AllOk, n)| >= 1 by {
      assert SentBy(AllOk, n) == SentBy(AllOk, n - 1) + Sends(AllOk(n - 1));
    }
  }

  // ---------------------------------------------------------------------
  // The error count and the error counter.

  /** The reported error count is read before the drain: it counts each
      transport error and each panic once, as a wrapping count of
      increments. */
  lemma ReportedErrors(rps: Int64, duration: Int64, outcome: nat -> Exchange)
    requires ChanSizeOk(Mul(rps, duration))
    requires |SentBy(outcome, DispatchCount(rps, duration))| <= Mul(rps, duration)
    ensures var n := DispatchCount(rps, duration);
      var t, p := Transports(outcome, n), Panics(outcome, n);
      Report(rps, duration, outcome).metrics.totalErrors == Incremented(0, t + p)
  {
    var n := DispatchCount(rps, duration);
    var t, p := Transports(outcome, n), Panics(outcome, n);
    Tally(outcome, n);
    ReportCases(rps, duration, outcome);
    CompletedErrors(Report(rps, duration, outcome), rps, duration, WorkerErrors(outcome, n), SentBy(outcome, n), t + p);
  }

  lemma CompletedErrors(o: Outcome, rps: Int64, duration: Int64, w: nat, rs: seq<Result>, k: nat)
    requires |rs| <= MaxInt64 && w == k
    requires o == Completed(Collect(rps, duration, Incremented(0, w), rs))
    ensures o.metrics.totalErrors == Incremented(0, k)
  {
    CollectFields(rps, duration, Incremented(0, w), rs);
  }

  /** The drain counts every transport error a second time: the counter
      ends at twice the transport errors plus the panics. */
  lemma CounterAfterRun(rps: Int64, duration: Int64, outcome: nat -> Exchange)
    requires ChanSizeOk(Mul(rps, duration))
    requires |SentBy(outcome, DispatchCount(rps, duration))| <= Mul(rps, duration)
    ensures var n := DispatchCount(rps, duration);
      var t, p := Transports(outcome, n), Panics(outcome, n);
      FinalCount(rps, duration, outcome) == Incremented(0, 2 * t + p)
  {
    var n := DispatchCount(rps, duration);
    var t, p := Transports(outcome, n), Panics(outcome, n);
    Tally(outcome, n);
    FinalCountCases(rps, duration, outcome);
    assert WorkerErrors(outcome, n) + Failures(SentBy(outcome, n)) == 2 * t + p;
  }

  /** With positive rates whose product is a channel size `make` accepts,
      the error count is between 0 and the number of requests, so the
      error rate is a percentage. */
  lemma ErrorRateBounded(rps: Int64, duration: Int64, outcome: nat -> Exchange)
    requires rps > 0 && duration > 0 && rps * duration <= MaxChanCap
    ensures Report(rps, duration, outcome).Completed?
    ensures var m := Report(rps, duration, outcome).metrics;
      0 <= m.totalErrors <= m.totalRequests
  {
    var n := DispatchCount(rps, duration);
    NoOverflowCompletes(rps, duration, outcome);
    CapacityIsDispatchCount(rps, duration);
    Tally(outcome, n);
    var t, p := Transports(outcome, n), Panics(outcome, n);
    ReportCases(rps, duration, outcome);
    CollectFields(rps, duration, Incremented(0, WorkerErrors(outcome, n)), SentBy(outcome, n));
    IncrementedExact(0, t + p);
  }

  // ---------------------------------------------------------------------
  // The report.

  /** The fields copied into the report unchanged. */
  lemma CollectFields(rps: Int64, duration: Int64, totalErrors: Int64, rs: seq<Result>)
    requires |rs| <= MaxInt64
    ensures var m, d := Collect(rps, duration, totalErrors, rs), Expected(rs);
      && m.totalRequests == Mul(rps, duration)
      && m.requestsPerSecond == rps
      && m.totalErrors == totalErrors
      && m.minLatency == d.minLatency
      && m.maxLatency == d.maxLatency
  {
  }

  /** The average divides the wrapped latency sum by the number of requests
      asked for, truncating toward zero, and is 0 when that number is not
      positive. */
  lemma AverageMeaning(rps: Int64, duration: Int64, totalErrors: Int64, rs: seq<Result>)
    requires |rs| <= MaxInt64
    ensures var m, sum := Collect(rps, duration, totalErrors, rs), Wrap(Sum(Latencies(rs)));
      var a, total := m.averageLatency, m.totalRequests;
      && (total <= 0 ==> a == 0)
      && (total > 0 && sum >= 0 ==> 0 <= a * total <= sum < a * total + total)
      && (total > 0 && sum < 0 ==> a * total - total < sum <= a * total <= 0)
  {
    var total := Mul(rps, duration);
    MetricsMeaning(Latencies(rs));
    if total > 0 {
      QuoBounds(Expected(rs).sumLatency, total);
    }
  }

  /** When every requested result succeeded and their sum does not wrap,
      the average lies between the least and the greatest latency. */
  lemma AverageWithinRange(rps: Int64, duration: Int64, totalErrors: Int64, rs: seq<Result>)
    requires |rs| <= MaxInt64
    requires 0 < Mul(rps, duration) == |Latencies(rs)|
    requires MinInt64 <= Sum(Latencies(rs)) <= MaxInt64
    ensures var m := Collect(rps, duration, totalErrors, rs);
      m.minLatency <= m.averageLatency <= m.maxLatency
  {
    var lats := Latencies(rs);
    var e := MetricsOf(lats);
    MetricsMeaning(lats);
    SumBounds(lats, e.minLatency, e.maxLatency);
    QuoBetween(e.sumLatency, |lats|, e.minLatency, e.maxLatency);
  }

  /** Failed requests still count in the divisor: three 50ns successes and
      two transport errors out of five requests average 30ns. */
  lemma AverageCountsFailures()
    ensures var ok, failed := Result(200, 50, false), Result(0, 7, true);
      Collect(5, 1, 2, [ok, ok, ok, failed, failed]).averageLatency == 30
  {
    var ok, failed := Result(200, 50, false), Result(0, 7, true);
    var rs := [ok, ok, ok, failed, failed];
    assert Latencies(rs) == [50, 50, 50] by {
      assert rs == [ok, ok, ok, failed] + [failed];
      assert [ok, ok, ok, failed] == [ok, ok, ok] + [failed];
      assert [ok, ok, ok] == [ok, ok] + [ok];
      assert [ok, ok] == [ok] + [ok];
      assert [ok] == [] + [ok];
      SampleSnoc([ok, ok, ok, failed], failed, AnyStatus);
      SampleSnoc([ok, ok, ok], failed, AnyStatus);
      SampleSnoc([ok, ok], ok, AnyStatus);
      SampleSnoc([ok], ok, AnyStatus);
      SampleSnoc([], ok, AnyStatus);
    }
    assert WrappedSum([50, 50, 50]) == 150 by {
      assert [50, 50, 50][..2] == [50, 50];
      assert [50, 50][..1] == [50];
      assert [50][..0] == [];
    }
  }

  /** Five requests, three answered with 200 after 50ns and two transport
      errors: the report counts five requests and two errors, so an error
      rate of 40 percent, and an average of 30ns. */
  function ThreeOfFive(k: nat): Exchange
  {
    if k < 3 then Reply(200, 50) else TransportError(7)
  }

  lemma ThreeOfFiveSent()
    ensures DispatchCount(5, 1) == 5
    ensures SentBy(ThreeOfFive, 5) == [Result(200, 50, false), Result(200, 50, false),
      Result(200, 50, false), Result(0, 7, true), Result(0, 7, true)]
    ensures WorkerErrors(ThreeOfFive, 5) == 2
  {
    var ok, failed := Result(200, 50, false), Result(0, 7, true);
    assert Sends(ThreeOfFive(0)) == Sends(ThreeOfFive(1)) == Sends(ThreeOfFive(2)) == [ok];
    assert Sends(ThreeOfFive(3)) == Sends(ThreeOfFive(4)) == [failed];
    DispatchStep(ThreeOfFive, 0);
    DispatchStep(ThreeOfFive, 1);
    DispatchStep(ThreeOfFive, 2);
    DispatchStep(ThreeOfFive, 3);
    DispatchStep(ThreeOfFive, 4);
    assert SentBy(ThreeOfFive, 0) == [];
  }

  lemma ThreeOfFiveReport()
    ensures Report(5, 1, ThreeOfFive).Completed?
    ensures var m := Report(5, 1, ThreeOfFive).metrics;
      m.totalRequests == 5 && m.totalErrors == 2 && m.averageLatency == 30
  {
    var ok, failed := Result(200, 50, false), Result(0, 7, true);
    var rs := [ok, ok, ok, failed, failed];
    ThreeOfFiveSent();
    ReportCases(5, 1, ThreeOfFive);
    assert Report(5, 1, ThreeOfFive) == Completed(Collect(5, 1, Incremented(0, 2), rs));
    IncrementedExact(0, 2);
    AverageCountsFailures();
    CollectFields(5, 1, 2, rs);
  }

  /** Min and max with no successful result keep their initial values and
      every percentile is 0; otherwise the percentiles are observed
      latencies, in order, between the minimum and the maximum. */
  lemma PercentilesOrdered(rps: Int64, duration: Int64, totalErrors: Int64, rs: seq<Result>)
    requires |rs| <= MaxInt64
    ensures var m, lats := Collect(rps, duration, totalErrors, rs), Latencies(rs);
      && (lats == [] ==>
            && m.minLatency == MaxInt64 && m.maxLatency == 0
            && m.p50 == 0 && m.p90 == 0 && m.p95 == 0 && m.p99 == 0)
      && (lats != [] ==>
            && m.minLatency in lats
            && m.p50 in lats && m.p90 in lats && m.p95 in lats && m.p99 in lats
            && m.minLatency <= m.p50 <= m.p90 <= m.p95 <= m.p99 <= m.maxLatency)
  {
    var lats := Latencies(rs);
    var sorted := SortSeq(lats);
    MetricsMeaning(lats);
    if lats != [] {
      assert |sorted| == |multiset(sorted)| == |lats|;
      PercentileMonotone(sorted, 50, 90);
      PercentileMonotone(sorted, 90, 95);
      PercentileMonotone(sorted, 95, 99);
      InSorted(lats, sorted, PercentileOf(sorted, 50));
      InSorted(lats, sorted, PercentileOf(sorted, 90));
      InSorted(lats, sorted, PercentileOf(sorted, 95));
      InSorted(lats, sorted, PercentileOf(sorted, 99));
      PercentileInSample(sorted, 50);
      PercentileInSample(sorted, 99);
    }
  }

  /** A value of the sorted sample is a value of the sample. */
  lemma InSorted(lats: seq<Int64>, sorted: seq<Int64>, x: Int64)
    requires multiset(sorted) == multiset(lats) && x in sorted
    ensures x in lats
  {
    assert x in multiset(sorted);
  }

  /** A status code has a summary exactly when some successful result
      carried it. Its count is the size of that code's sample, its minimum
      was observed, and, when the code's latencies do not wrap in their sum,
      its average lies between its minimum and its maximum. */
  lemma StatusSummaryMeaning(rps: Int64, duration: Int64, totalErrors: Int64, rs: seq<Result>, code: int)
    requires |rs| <= MaxInt64
    ensures var m := Collect(rps, duration, totalErrors, rs);
      code in m.statusMetrics <==> StatusLatencies(rs, code) != []
    ensures var m, lats := Collect(rps, duration, totalErrors, rs), StatusLatencies(rs, code);
      code in m.statusMetrics ==>
        var s := m.statusMetrics[code];
        && 1 <= s.count == |lats|
        && s.minLatency in lats && s.minLatency <= s.maxLatency
        && (MinInt64 <= Sum(lats) <= MaxInt64 ==> s.minLatency <= s.avgLatency <= s.maxLatency)
  {
    StatusesIff(rs, code);
    var d := Expected(rs);
    if code in d.statusMetrics {
      var e, lats := d.statusMetrics[code], StatusLatencies(rs, code);
      StatusEntry(rs, code);
      if MinInt64 <= Sum(lats) <= MaxInt64 {
        SumBounds(lats, e.minLatency, e.maxLatency);
        QuoBetween(e.sumLatency, e.count, e.minLatency, e.maxLatency);
      }
    }
  }

  /** The report does not depend on the order in which the results arrive
      on the channel. */
  lemma CollectOrderFree(rps: Int64, duration: Int64, totalErrors: Int64, rs: seq<Result>, ts: seq<Result>)
    requires |rs| <= MaxInt64 && multiset(rs) == multiset(ts)
    ensures |ts| == |rs|
    ensures Collect(rps, duration, totalErrors, rs) == Collect(rps, duration, totalErrors, ts)
  {
    assert |rs| == |multiset(rs)| == |ts|;
    ExpectedPerm(rs, ts);
    var a, b := Expected(rs).latencies, Expected(ts).latencies;
    SortedUnique(SortSeq(a), SortSeq(b));
  }
}
