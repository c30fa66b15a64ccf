/** `LoadTestHandler` around the drain: reset the error counter, size the
    result channel, start `rps` workers in each of `duration` rounds, drain
    the channel, and derive the averages, the per-status summaries and the
    four percentiles.

    What a worker's HTTP exchange returns is not computed here: the k-th
    worker started (counting from 0) observes `outcome(k)`. The workers run
    one after the other, in the order they are started; the lemmas in
    DrainFacts show that the order in which their results arrive changes
    nothing but the order of the latency slice, and `CollectOrderFree` below
    that it changes nothing in the report. */
module LoadTest {
  import opened GoInt
  import opened Seqs
  import opened Errors
  import opened Aggregate
  import opened DrainFacts
  import opened Percentile

  /** What one worker's `Run` observes: a response and its status code, an
      error from `client.Get`, or a panic that its deferred `recover`
      catches before the result is sent. The latency is the measured
      `time.Since(start)`. */
  datatype Exchange =
    | Reply(status: int, latency: Int64)
    | TransportError(latency: Int64)
    | Panic

  /** The records a worker puts on the channel: a panicking worker sends
      none; a failed request is sent with status 0 and its error. */
  function Sends(e: Exchange): seq<Result>
  {
    match e
    case Reply(status, latency) => [Result(status, latency, false)]
    case TransportError(latency) => [Result(0, latency, true)]
    case Panic => []
  }

  /** `Worker.Run` for one exchange. */
  method RunWorker(e: Exchange, counter: ErrorCounter) returns (sent: seq<Result>)
    modifies counter
    ensures sent == Sends(e)
    ensures counter.value == if e.Reply? then old(counter.value) else Add(old(counter.value), 1)
  {
    match e {
      case Reply(status, latency) =>
        sent := [Result(status, latency, false)];
      case TransportError(latency) =>
        counter.Increment();
        sent := [Result(0, latency, true)];
      case Panic =>
        // the deferred recover
        counter.Increment();
        sent := [];
    }
  }

  // ---------------------------------------------------------------------
  // Dispatch.

  /** The number of workers the nested loops start: `duration` rounds of
      `rps`, and none when either is not positive. */
  function DispatchCount(rps: Int64, duration: Int64): (n: nat)
    ensures n == 0 <==> rps <= 0 || duration <= 0
  {
    if rps > 0 && duration > 0 then
      MulAtLeast(rps, duration);
      rps * duration
    else 0
  }

  /** One more round starts `rps` more workers. */
  lemma DispatchRound(rps: Int64, round: Int64)
    requires 0 <= round < MaxInt64
    ensures DispatchCount(rps, round + 1) == DispatchCount(rps, round) + if rps > 0 then rps else 0
  {
    if rps > 0 && round > 0 {
      assert (round + 1) * rps == round * rps + rps;
    }
  }

  /** Everything the first `n` workers send, in the order they are started. */
  function SentBy(outcome: nat -> Exchange, n: nat): seq<Result>
  {
    if n == 0 then [] else SentBy(outcome, n - 1) + Sends(outcome(n - 1))
  }

  /** How many of the first `n` workers got a transport error. */
  function Transports(outcome: nat -> Exchange, n: nat): nat
  {
    if n == 0 then 0 else Transports(outcome, n - 1) + if outcome(n - 1).TransportError? then 1 else 0
  }

  /** How many of the first `n` workers panicked. */
  function Panics(outcome: nat -> Exchange, n: nat): nat
  {
    if n == 0 then 0 else Panics(outcome, n - 1) + if outcome(n - 1).Panic? then 1 else 0
  }

  /** How many of the first `n` workers incremented the error counter. */
  function WorkerErrors(outcome: nat -> Exchange, n: nat): nat
  {
    if n == 0 then 0 else WorkerErrors(outcome, n - 1) + if outcome(n - 1).Reply? then 0 else 1
  }

  /** The start of the next worker: what it sends is appended and, unless
      it got a reply, one more worker has incremented the counter. */
  lemma DispatchStep(outcome: nat -> Exchange, n: nat)
    ensures SentBy(outcome, n + 1) == SentBy(outcome, n) + Sends(outcome(n))
    ensures WorkerErrors(outcome, n + 1) == WorkerErrors(outcome, n) + if outcome(n).Reply? then 0 else 1
  {
  }

  /** The dispatch loops of `LoadTestHandler`: `duration` rounds, each
      starting `rps` workers. */
  method Dispatch(rps: Int64, duration: Int64, outcome: nat -> Exchange, counter: ErrorCounter)
    returns (channel: seq<Result>)
    modifies counter
    ensures channel == SentBy(outcome, DispatchCount(rps, duration))
    ensures counter.value == Incremented(old(counter.value), WorkerErrors(outcome, DispatchCount(rps, duration)))
  {
    channel := [];
    // the count `wg.Add(1)` keeps of the workers started so far
    var launched: nat := 0;
    ghost var start := counter.value;
    var round: Int64 := 0;
    while round < duration
      invariant 0 <= round <= if duration > 0 then duration else 0
      invariant launched == DispatchCount(rps, round)
      invariant channel == SentBy(outcome, launched)
      invariant counter.value == Incremented(start, WorkerErrors(outcome, launched))
    {
      var i: Int64 := 0;
      ghost var before := launched;
      while i < rps
        invariant 0 <= i <= if rps > 0 then rps else 0
        invariant launched == before + i
        invariant channel == SentBy(outcome, launched)
        invariant counter.value == Incremented(start, WorkerErrors(outcome, launched))
      {
        DispatchStep(outcome, launched);
        var sent := RunWorker(outcome(launched), counter);
        channel := channel + sent;
        launched := launched + 1;
        i := i + 1;
      }
      DispatchRound(rps, round);
      round := round + 1;
    }
  }

  // ---------------------------------------------------------------------
  // The report.

  /** One entry of `resStatusMetrics`, before its durations are formatted. */
  datatype StatusSummary = StatusSummary(count: nat, minLatency: Int64, maxLatency: Int64, avgLatency: Int64)

  /** The numeric fields of `LoadTestMetrics`, with every duration kept as
      its nanosecond count. The error rate is kept as its numerator
      `totalErrors`; its denominator is `totalRequests`. */
  datatype Metrics = Metrics(
    totalRequests: Int64,
    averageLatency: Int64,
    requestsPerSecond: Int64,
    minLatency: Int64,
    maxLatency: Int64,
    totalErrors: Int64,
    statusMetrics: map<int, StatusSummary>,
    p50: Int64,
    p90: Int64,
    p95: Int64,
    p99: Int64)

  /** How a run of the handler ends: `make` panics on a channel size it
      rejects (see `ChanSizeOk`); a worker that finds the channel full blocks forever, since
      nothing receives before `wg.Wait()` returns; or the report is built. */
  datatype Outcome = ChannelPanic | Blocked | Completed(metrics: Metrics)

  /** Every entry has a count the Go `int` conversion and the division
      accept. */
  predicate CountsInRange(m: map<int, StatusCodeMetrics>)
  {
    forall c :: c in m ==> 1 <= m[c].count <= MaxInt64
  }

  function Summary(e: StatusCodeMetrics): StatusSummary
    requires 1 <= e.count <= MaxInt64
  {
    StatusSummary(e.count, e.minLatency, e.maxLatency, Quo(e.sumLatency, e.count))
  }

  /** `resStatusMetrics`: each entry with its average `SumLatency / Count`. */
  function Summaries(m: map<int, StatusCodeMetrics>): map<int, StatusSummary>
    requires CountsInRange(m)
  {
    map c | c in m :: Summary(m[c])
  }

  /** The loop that builds `resStatusMetrics`. */
  method Summarize(statusMetrics: map<int, StatusCodeMetrics>) returns (res: map<int, StatusSummary>)
    requires CountsInRange(statusMetrics)
    ensures res.Keys == statusMetrics.Keys
    ensures forall c :: c in res ==> res[c] == Summary(statusMetrics[c])
  {
    res := map[];
    var todo := statusMetrics.Keys;
    while todo != {}
      invariant todo <= statusMetrics.Keys
      invariant res.Keys == statusMetrics.Keys - todo
      invariant forall c :: c in res ==> res[c] == Summary(statusMetrics[c])
      decreases |todo|
    {
      assert (forall k :: k !in todo) ==> todo == {};
      var status :| status in todo;
      var metrics := statusMetrics[status];
      // &ResponseStatusCodeMetrics{...}
      res := res[status := Summary(metrics)];
      todo := todo - {status};
    }
  }

  lemma SummariesExt(m: map<int, StatusCodeMetrics>, res: map<int, StatusSummary>)
    requires CountsInRange(m) && res.Keys == m.Keys
    requires forall c :: c in res ==> res[c] == Summary(m[c])
    ensures res == Summaries(m)
  {
    var s := Summaries(m);
    assert s.Keys == m.Keys;
    forall c | c in res
      ensures res[c] == s[c]
    {
    }
  }

  /** The average latency: the latency sum over the number of requests
      asked for, or 0 when that number is not positive. */
  function Average(sumLatency: Int64, totalRequests: Int64): Int64
  {
    if totalRequests > 0 then Quo(sumLatency, totalRequests) else 0
  }

  /** With at most MaxInt64 results on the channel, no entry's count is out
      of range. */
  lemma CountsBounded(rs: seq<Result>)
    requires |rs| <= MaxInt64
    ensures CountsInRange(Expected(rs).statusMetrics)
  {
    forall c | c in Expected(rs).statusMetrics
      ensures 1 <= Expected(rs).statusMetrics[c].count <= MaxInt64
    {
      StatusEntry(rs, c);
    }
  }

  /** The report built from the drained channel `rs`, the rates it was
      asked for and the error count read before the drain. */
  function Collect(rps: Int64, duration: Int64, totalErrors: Int64, rs: seq<Result>): Metrics
    requires |rs| <= MaxInt64
  {
    var d := Expected(rs);
    var totalRequests := Mul(rps, duration);
    var sorted := SortSeq(d.latencies);
    CountsBounded(rs);
    Metrics(totalRequests, Average(d.sumLatency, totalRequests), rps, d.minLatency, d.maxLatency,
            totalErrors, Summaries(d.statusMetrics),
            PercentileOf(sorted, 50), PercentileOf(sorted, 90), PercentileOf(sorted, 95), PercentileOf(sorted, 99))
  }

  // ---------------------------------------------------------------------
  // The channel's size check.

  /** The bytes of one `Result` on a 64-bit platform: `workerID`, `status`
      and `latency` take 8 bytes each and the `err` interface 16. */
  const ResultSize: int := 40
  /** The largest allocation the Go runtime hands out on linux/amd64
      (`maxAlloc`, 2^48 bytes). */
  const MaxAlloc: int := 0x1_0000_0000_0000
  /** The bytes of the channel header `hchan` on a 64-bit platform in Go
      releases up to 1.22 (from 1.23 it also holds a timer pointer). */
  const ChanHeader: int := 96
  /** The largest size `make(chan Result, size)` accepts there. */
  const MaxChanCap: int := 7_036_874_417_764

  /** `makechan` accepts a size that is not negative and whose buffer, with
      the header, fits in the largest allocation; any other size panics. */
  predicate ChanSizeOk(size: int)
  {
    0 <= size <= MaxChanCap
  }

  /** `MaxChanCap` is the largest size whose buffer and header fit in
      `MaxAlloc` bytes. */
  lemma MaxChanCapMeaning(size: int)
    ensures ChanSizeOk(size) <==> 0 <= size && size * ResultSize <= MaxAlloc - ChanHeader
  {
  }

  /** The run of the handler for the given rates and exchanges. */
  function Report(rps: Int64, duration: Int64, outcome: nat -> Exchange): Outcome
  {
    var capacity := Mul(rps, duration);
    if !ChanSizeOk(capacity) then ChannelPanic
    else
      var n := DispatchCount(rps, duration);
      var rs := SentBy(outcome, n);
      if |rs| > capacity then Blocked
      else Completed(Collect(rps, duration, Incremented(0, WorkerErrors(outcome, n)), rs))
  }

  /** The error counter once a run has ended: zero after a channel panic;
      the workers' increments once the drain is blocked; and the drain's
      increments on top of those once the report is built. */
  function FinalCount(rps: Int64, duration: Int64, outcome: nat -> Exchange): Int64
  {
    var capacity := Mul(rps, duration);
    var n := DispatchCount(rps, duration);
    var rs := SentBy(outcome, n);
    if !ChanSizeOk(capacity) then 0
    else if |rs| > capacity then Incremented(0, WorkerErrors(outcome, n))
    else Incremented(0, WorkerErrors(outcome, n) + Failures(rs))
  }

  /** The three ways a run ends, by the channel capacity and the number of
      results sent. */
  lemma ReportCases(rps: Int64, duration: Int64, outcome: nat -> Exchange)
    ensures var capacity, n := Mul(rps, duration), DispatchCount(rps, duration);
      var rs, workers := SentBy(outcome, n), WorkerErrors(outcome, n);
      && (!ChanSizeOk(capacity) ==> Report(rps, duration, outcome) == ChannelPanic)
      && (ChanSizeOk(capacity) && capacity < |rs| ==> Report(rps, duration, outcome) == Blocked)
      && (ChanSizeOk(capacity) && |rs| <= capacity ==>
            Report(rps, duration, outcome) == Completed(Collect(rps, duration, Incremented(0, workers), rs)))
  {
  }

  /** The error counter in each of the three cases. */
  lemma FinalCountCases(rps: Int64, duration: Int64, outcome: nat -> Exchange)
    ensures var capacity, n := Mul(rps, duration), DispatchCount(rps, duration);
      var rs, workers := SentBy(outcome, n), WorkerErrors(outcome, n);
      && (!ChanSizeOk(capacity) ==> FinalCount(rps, duration, outcome) == 0)
      && (ChanSizeOk(capacity) && capacity < |rs| ==> FinalCount(rps, duration, outcome) == Incremented(0, workers))
      && (ChanSizeOk(capacity) && |rs| <= capacity ==>
            FinalCount(rps, duration, outcome) == Incremented(0, workers + Failures(rs)))
  {
  }

  /** `LoadTestHandler`, from the parsed `rps` and `duration` on. */
  method LoadTestHandler(rps: Int64, duration: Int64, outcome: nat -> Exchange, counter: ErrorCounter)
    returns (o: Outcome)
    modifies counter
    ensures o == Report(rps, duration, outcome)
    ensures counter.value == FinalCount(rps, duration, outcome)
  {
    ReportCases(rps, duration, outcome);
    FinalCountCases(rps, duration, outcome);
    counter.Reset();
    var totalRequests := Mul(rps, duration);
    if !ChanSizeOk(totalRequests) {
      // make(chan Result, totalRequests) panics
      return ChannelPanic;
    }
    var channel := Dispatch(rps, duration, outcome, counter);
    if |channel| > totalRequests {
      return Blocked;
    }
    var totalErrors := counter.Get();
    var d := Drain(channel, counter);
    ghost var workers := WorkerErrors(outcome, DispatchCount(rps, duration));
    IncrementedTwice(0, workers, Failures(channel));
    assert counter.value == Incremented(0, workers + Failures(channel));
    var m := Derive(rps, duration, totalErrors, channel, d);
    o := Completed(m);
  }

  /** The four `calculatePercentile` calls on the latency slice, which the
      first call sorts in place: each result is the percentile of the
      ascending order of the sample. */
  method Percentiles(sample: seq<Int64>) returns (p50: Int64, p90: Int64, p95: Int64, p99: Int64)
    ensures var sorted := SortSeq(sample);
      && p50 == PercentileOf(sorted, 50) && p90 == PercentileOf(sorted, 90)
      && p95 == PercentileOf(sorted, 95) && p99 == PercentileOf(sorted, 99)
  {
    var latencies := new Int64[|sample|](i requires 0 <= i < |sample| => sample[i]);
    ghost var sorted := SortSeq(sample);
    assert latencies[..] == sample;
    p50 := CalculatePercentile(latencies, 50);
    SortedUnique(latencies[..], sorted);
    p90 := CalculatePercentile(latencies, 90);
    SortedUnique(latencies[..], sorted);
    p95 := CalculatePercentile(latencies, 95);
    SortedUnique(latencies[..], sorted);
    p99 := CalculatePercentile(latencies, 99);
    SortedUnique(latencies[..], sorted);
  }

  /** The code after the drain: the average, the four percentiles of the
      latency slice and the per-status summaries. */
  method Derive(rps: Int64, duration: Int64, totalErrors: Int64, rs: seq<Result>, d: Drained)
    returns (m: Metrics)
    requires |rs| <= MaxInt64 && d == Expected(rs)
    ensures m == Collect(rps, duration, totalErrors, rs)
  {
    var totalRequests := Mul(rps, duration);
    var avgLatency: Int64 := 0;
    if totalRequests > 0 {
      avgLatency := Quo(d.sumLatency, totalRequests);
    }
    var p50, p90, p95, p99 := Percentiles(d.latencies);
    CountsBounded(rs);
    var resStatusMetrics := Summarize(d.statusMetrics);
    SummariesExt(d.statusMetrics, resStatusMetrics);
    m := Metrics(totalRequests, avgLatency, rps, d.minLatency, d.maxLatency, totalErrors,
         resStatusMetrics, p50, p90, p95, p99);
  }
}
