# Load tester metrics core, in Dafny

This project models the metrics side of the HTTP load tester in
`load_test/load.go`, and proves properties about it. `LoadTestHandler` does the following:

1. It resets a global error counter.
2. It sizes a buffered result channel to `rps * duration`.
3. It starts `rps` workers in each of `duration` rounds. Each worker makes one GET request and sends a
   `Result` (status, latency, error).
4. It drains the closed channel into a latency sum, a global minimum and maximum, a slice of
   successful latencies and a per-status-code `StatusCodeMetrics` map.
5. From the drained data it derives:
   - the average latency;
   - the per-status averages;
   - four percentiles, each computed by `calculatePercentile`.

The modules follow the program's structure:

- `GoInt` (`goint.dfy`): Go's 64-bit `int` / `time.Duration` arithmetic. Addition, subtraction and
  multiplication wrap modulo 2^64. Division truncates toward zero. `Incremented(v, n)` is `n`
  executions of `v++`.
- `Seqs` (`seqs.dfy`): sums, minimum and maximum of sequences, and their permutation facts.
- `Errors` (`errors.dfy`): the error counter `errCounter` as a class with `Reset`, `Increment`
  (`incrementErrorCounter`) and `Get` (`getErrorCounter`).
- `Aggregate` (`aggregate.dfy`): the drain loop `Drain`. It is proved against a reference
  `Expected(rs)`, which states the drained data as sample statistics of the results.
- `DrainFacts` (`drain_facts.dfy`): what the drained data means. The per-status entries add up to
  the global figures. Failed results leave no trace. The arrival order changes nothing but the order
  of the latency slice.
- `Percentile` (`percentile.dfy`): `calculatePercentile` on an `array`. It sorts in place, then
  picks the order statistic of rank `floor(p/100 * (n-1))`.
- `LoadTest` (`loadtest.dfy`): a worker's `Run`, the dispatch loops, the per-status summary loop
  and the handler from the parsed `rps` and `duration` on. The whole run is specified by the
  function `Report`.
- `ReportFacts` (`report_facts.dfy`): properties of `Report`:
  - the dispatch count against the channel capacity;
  - what the reported error count and the counter hold;
  - the meaning of the average, the percentiles and the per-status summaries;
  - independence from arrival order.

The handler's I/O is a parameter. Worker `k`, counting from 0 in start order, observes
`outcome(k)`, which is one of:

- a reply with a status code and a latency;
- a transport error with a latency;
- a panic that its deferred `recover` catches.

A run ends in one of three ways:

- `ChannelPanic`: `make(chan Result, totalRequests)` rejects the size. The size is rejected when it
  is negative, or when its buffer and the channel header need more than the largest allocation the
  runtime hands out. On linux/amd64 a `Result` takes 40 bytes, the header 96 bytes (Go up to 1.22)
  and the largest allocation is 2^48 bytes, so the largest accepted size is `MaxChanCap` = 7,036,874,417,764.
- `Blocked`: more results are sent than the channel holds. Nothing receives before `wg.Wait()`,
  so a worker blocks forever.
- `Completed(metrics)`: the report is built.

The model follows the code as written, including where the code does not do what its own
comments, or a reader of it, would expect:

- **No interpolation.** `indexOffset` converts a fraction in (0, 1) to a `time.Duration`, which
  truncates it to 0. Every percentile is therefore the lower order statistic `sorted[floor(index)]`.
  The comments at lines 353 and 361 say the code interpolates between the two nearest values, but it
  does not (`Percentile.NoInterpolation`).
- **The counter counts transport errors twice.** A transport error increments the counter once in
  the worker and again in the drain loop. The reported `totalErrors` is read before the drain, so it
  counts each failure once. The counter itself ends at twice the transport errors plus the panics
  (`ReportFacts.CounterAfterRun`).
- **A panicking worker sends no record.** One might expect a recovered panic to be reported as a
  failed result, like a transport error. In the code, the deferred `recover` only increments the
  counter and prints a message. Panics therefore count in `totalErrors` but not on the channel.
- **No validation of `rps` and `duration`.**
  - With both negative, no worker starts, yet `totalRequests` is 1 (`ReportFacts.NegativeRates`).
  - A negative product panics at `make` (`ReportFacts.NegativeCapacity`).
  - So does a product above `MaxChanCap`, such as `rps` = 10,000,000 with `duration` = 1,000,000
    (`ReportFacts.TooLargePanics`).
  - A product that wraps to a small value blocks the workers (`ReportFacts.OverflowBlocks`).

## Model

| member | source | states |
|---|---|---|
| GoInt.AddIsWrap | load_test/load.go:244 | Go's `+=` on durations is the exact sum wrapped modulo 2^64 into the int64 range |
| GoInt.SubIsWrap | load_test/load.go:362 | Go's `-` on durations is the exact difference wrapped modulo 2^64 |
| GoInt.Add | load_test/load.go:244 | Go's `+` on int64 and `time.Duration` (`+=` at lines 244 and 267): the exact sum, brought back into the int64 range by one correction of 2^64 |
| GoInt.Sub | load_test/load.go:362 | Go's `-` on int64: the exact difference, brought back into the int64 range by one correction of 2^64 |
| GoInt.Mul | load_test/load.go:191 | Go's `rps * duration`: the exact product wrapped modulo 2^64 into the int64 range; 0 when a factor is 0 |
| GoInt.Quo | load_test/load.go:280 | Go's `/` on int64 with a positive divisor (lines 280 and 298): the quotient of the magnitudes, with the dividend's sign, so truncated toward zero |
| GoInt.Incremented | load_test/load.go:34-38 | the counter's value after `n` executions of `errCounter++` from `v`: `Add(_, 1)` applied `n` times |
| GoInt.IncrementedIsWrap | load_test/load.go:34-38 | `n` executions of `errCounter++` give `v + n` wrapped modulo 2^64 |
| GoInt.IncrementedExact | load_test/load.go:34-38 | increments that stay within the int64 range are exact |
| GoInt.IncrementedTwice | load_test/load.go:34-38 | `a` increments followed by `b` more equal `a + b` increments |
| GoInt.QuoBounds | load_test/load.go:280 | Go's integer division truncates toward zero: the quotient times the divisor lies between the dividend and 0, less than one divisor away from the dividend |
| GoInt.QuoBetween | load_test/load.go:298 | a truncated quotient of a value in `[c*lo, c*hi]` by `c` lies in `[lo, hi]` |
| Errors.ErrorCounter.constructor | load_test/load.go:20-24 | the package-level counter starts at 0 |
| Errors.ErrorCounter.Reset | load_test/load.go:173-175 | the reset sets the counter to 0 |
| Errors.ErrorCounter.Increment | load_test/load.go:34-38 | the counter goes up by exactly one, wrapping at the int64 bound |
| Errors.ErrorCounter.Get | load_test/load.go:27-31 | returns the counter's current value and changes nothing |
| Aggregate.Drain | load_test/load.go:231-275 | draining the channel leaves exactly `Expected(results)`. It also adds one increment to the counter per failed result |
| Aggregate.UpdateStatusMetrics | load_test/load.go:256-274 | a new code gets the entry with count 0, min MaxInt64, max 0 and sum 0. The entry then counts the result and folds its latency into min, max and a wrapping sum. No other entry changes |
| Aggregate.Fresh | load_test/load.go:259-264 | the entry created for a status code seen for the first time: count 0, min MaxInt64, max 0, sum 0 |
| Aggregate.Bump | load_test/load.go:266-273 | one result's update of its status entry: the count goes up by one, the latency lowers the min and raises the max, and it is added to the wrapping sum |
| Aggregate.Step | load_test/load.go:238-274 | one pass of the loop body on the locals: a failed result changes nothing; a successful one adds its latency to the wrapping sum, lowers the min, raises the max, appends to the slice and updates its status entry |
| Aggregate.Fold | load_test/load.go:231-275 | the locals after the loop over a prefix of the results, starting from sum 0, min MaxInt64, max 0, an empty slice and an empty map |
| Aggregate.Expected | load_test/load.go:231-275 | the reference for the drained data: the wrapped sum, least latency (MaxInt64 if none), greatest latency or 0, the successful latencies in arrival order, and one entry per seen status code with that code's sample statistics |
| Aggregate.FoldIsExpected | load_test/load.go:238-275 | iterating the loop body over the results computes the sample statistics `Expected` |
| Aggregate.StepFailed | load_test/load.go:239-242 | appending a failed result changes none of the drained data |
| Aggregate.StepSuccess | load_test/load.go:243-274 | appending a successful result updates `Expected` exactly as one pass of the loop body updates the locals |
| Aggregate.StepGlobal | load_test/load.go:244-254 | a successful result updates the sum, min, max and latency slice as the loop body does |
| Aggregate.StepStatus | load_test/load.go:256-274 | a successful result updates the status map as the locked block does |
| Aggregate.StatusesIff | load_test/load.go:258-265 | a status code has an entry exactly when some successful result carried it |
| Aggregate.MetricsSnoc | load_test/load.go:266-273 | adding one latency to a sample updates its statistics as the entry update does |
| DrainFacts.MetricsMeaning | load_test/load.go:231-254 | the count is the sample size and the sum is the wrapped exact sum; an empty sample keeps min MaxInt64 and max 0; otherwise the min was observed, the max was observed or is 0, and every latency lies between them |
| DrainFacts.WrappedSumIsWrap | load_test/load.go:244 | summing with wrap-around at every step equals the exact sum wrapped once |
| DrainFacts.StatusEntry | load_test/load.go:256-274 | every status entry has count at least 1, equal to the size of that code's sample; its min was observed and is at most its max; its sum is that code's wrapped latency sum; every latency of the code lies between its min and max |
| DrainFacts.SampleSubset | load_test/load.go:247-267 | a status code's latencies are a sub-multiset of the latency slice |
| DrainFacts.FailuresComplement | load_test/load.go:238-247 | every result is either a failure or contributes one latency to the slice |
| DrainFacts.StatusTotals | load_test/load.go:244-274 | the per-status counts add up to the length of the latency slice. The per-status sums add up, modulo 2^64, to the global latency sum |
| DrainFacts.TotalsBump | load_test/load.go:244-274 | one successful result keeps the per-status totals in agreement with the global figures |
| DrainFacts.FailedIgnored | load_test/load.go:239-242 | a failed result anywhere in the channel leaves the drained data as if it were absent, and adds one failure |
| DrainFacts.SamplePerm | load_test/load.go:238-247 | reordering the results reorders every latency sample and nothing else |
| DrainFacts.MetricsPerm | load_test/load.go:249-273 | samples with the same values have the same count, min, max and wrapped sum |
| DrainFacts.ExpectedPerm | load_test/load.go:238-275 | for any arrival order the sum, min, max, status map and failure count are unchanged and the latency slice is the same multiset |
| Percentile.Idx | load_test/load.go:347-357 | the rank lies in `[0, n-1]`. It is 0 at p = 0 and n-1 at p = 100 |
| Percentile.RankBounds | load_test/load.go:347-357 | `100 * index` lies in `[0, 100 * (n-1)]`, so `lowerIndex` and `upperIndex` are in bounds |
| Percentile.IdxMonotone | load_test/load.go:347 | a larger percentile never gives a smaller rank |
| Percentile.SortSeq | load_test/load.go:343-345 | an ascending permutation of the sample |
| Percentile.SortAscending | load_test/load.go:343-345 | `sort.Slice` leaves the array ascending and a permutation of its old contents |
| Percentile.SinkLast | load_test/load.go:343-345 | one insertion step extends the ascending prefix by one and permutes the array |
| Percentile.SortedUnique | load_test/load.go:284-287 | two ascending orders of the same values are equal. The in-place sort done by the first call is therefore the one later calls see |
| Percentile.CalculatePercentile | load_test/load.go:338-364 | an empty slice gives 0 and is left untouched; otherwise the slice is left ascending and a permutation of its input, and the result is `sorted[Idx(p, n)]` |
| Percentile.PercentileOf | load_test/load.go:339-363 | the value returned for percentile `p` of an ascending sample: 0 when it is empty, else the element at `Idx(p, n)` |
| Percentile.PercentileInSample | load_test/load.go:347-363 | a percentile of a non-empty sample is one of its values, between its least and its greatest |
| Percentile.PercentileEndpoints | load_test/load.go:347-363 | percentile 0 is the minimum and percentile 100 the maximum |
| Percentile.PercentileMonotone | load_test/load.go:347-363 | a larger percentile never gives a smaller latency |
| Percentile.NoInterpolation | load_test/load.go:358-363 | the median of [10, 20] is 10: the truncated `indexOffset` adds nothing |
| LoadTest.Sends | load_test/load.go:83-98 | the records a worker puts on the channel: one with its status for a reply, one failed record with status 0 for a transport error, none after a recovered panic |
| LoadTest.RunWorker | load_test/load.go:68-99 | a reply sends one record with its status; a transport error increments the counter once and sends one failed record with status 0; a recovered panic increments the counter once and sends nothing |
| LoadTest.DispatchCount | load_test/load.go:214-223 | no worker starts exactly when `rps <= 0` or `duration <= 0` |
| LoadTest.DispatchRound | load_test/load.go:214-223 | one more round starts `rps` more workers, or none when `rps <= 0` |
| LoadTest.SentBy | load_test/load.go:214-223 | everything the first `n` workers started send, in start order |
| LoadTest.Dispatch | load_test/load.go:214-225 | the nested loops start `DispatchCount(rps, duration)` workers. The channel holds what they send, in start order, and the counter holds their increments |
| LoadTest.Summarize | load_test/load.go:292-300 | every status entry becomes a summary with the same count, min and max and the truncated average `SumLatency / Count`; no key is added or lost |
| LoadTest.Summary | load_test/load.go:294-299 | one entry of `resStatusMetrics`: the entry's count, min and max, and the average `SumLatency / Count` truncated toward zero |
| LoadTest.Summaries | load_test/load.go:292-300 | `resStatusMetrics`: one summary per status entry, with its count, min, max and the truncated average `SumLatency / Count` |
| LoadTest.SummariesExt | load_test/load.go:292-300 | the loop's map is the summary map `Summaries` |
| LoadTest.CountsBounded | load_test/load.go:298 | with at most MaxInt64 results, every status count is between 1 and MaxInt64, so the division is defined |
| LoadTest.Average | load_test/load.go:277-281 | the average latency: the sum divided by `totalRequests`, truncated, or 0 when `totalRequests <= 0` |
| LoadTest.Collect | load_test/load.go:277-314 | the report built from the drained channel: `totalRequests` = `rps * duration` wrapped, the average, `rps`, the global min and max, the error count read before the drain, the status summaries and the four percentiles of the sorted latencies |
| LoadTest.ChanSizeOk | load_test/load.go:197 | the sizes `make(chan Result, size)` accepts on linux/amd64: from 0 to `MaxChanCap` |
| LoadTest.MaxChanCapMeaning | load_test/load.go:197 | a size is accepted exactly when it is not negative and its 40-byte buffer fits in 2^48 bytes together with the 96-byte channel header of Go up to 1.22 |
| LoadTest.Report | load_test/load.go:172-314 | the outcome of a run: `ChannelPanic` when `make` rejects `rps * duration`; `Blocked` when the workers send more records than that capacity; otherwise `Completed` with `Collect` of the records and the workers' error count |
| LoadTest.FinalCount | load_test/load.go:172-241 | the counter after a run: 0 after the channel panic, the workers' increments when blocked, and those plus one per failed record when the run completes |
| LoadTest.LoadTestHandler | load_test/load.go:172-300 | the handler's outcome is `Report(rps, duration, outcome)` and its final counter is `FinalCount` |
| LoadTest.Percentiles | load_test/load.go:283-287 | the four calls on the shared latency slice give p50, p90, p95 and p99 of its ascending order |
| LoadTest.Derive | load_test/load.go:277-314 | the code after the drain builds `Collect` of the drained results |
| ReportFacts.Tally | load_test/load.go:68-99 | every worker sends one record unless it panics; the failed records are exactly the transport errors; the workers' own increments are the transport errors plus the panics |
| ReportFacts.CapacityIsDispatchCount | load_test/load.go:191-223 | with positive rates and no overflow, the channel capacity equals the number of workers started |
| ReportFacts.NoOverflowCompletes | load_test/load.go:191-228 | when `rps * duration` is in `[0, MaxChanCap]`, no worker blocks. The report is built, and `totalRequests` is at least the number of workers |
| ReportFacts.NegativeRates | load_test/load.go:191-223 | `rps = duration = -1` starts no worker, yet completes with `totalRequests` 1 |
| ReportFacts.NegativeCapacity | load_test/load.go:197 | a negative `rps * duration` makes `make` panic |
| ReportFacts.TooLargePanics | load_test/load.go:197 | `rps` = 10,000,000 with `duration` = 1,000,000 is a size above `MaxChanCap`: `make` panics and the counter stays 0 |
| ReportFacts.OverflowBlocks | load_test/load.go:191-198 | `rps = duration = 2^32` wraps the capacity to 0, and the run blocks |
| ReportFacts.ReportedErrors | load_test/load.go:235 | when the run completes, the reported error count is the transport errors plus the panics, each counted once |
| ReportFacts.CounterAfterRun | load_test/load.go:235-241 | when the run completes, the counter ends at twice the transport errors plus the panics |
| ReportFacts.ErrorRateBounded | load_test/load.go:289-290 | with positive rates whose product is at most `MaxChanCap`, `0 <= totalErrors <= totalRequests`, so the error rate is a percentage in [0, 100] |
| ReportFacts.AverageMeaning | load_test/load.go:277-281 | the average is 0 when `totalRequests <= 0`; otherwise it is the wrapped sum of the successful latencies divided by `totalRequests` (requests asked for, not successes), truncated toward zero |
| ReportFacts.AverageWithinRange | load_test/load.go:277-281 | when every requested result succeeded and the sum does not wrap, the average lies between the minimum and the maximum |
| ReportFacts.AverageCountsFailures | load_test/load.go:277-281 | three 50ns successes and two failures out of five requests average 30ns |
| ReportFacts.ThreeOfFiveSent | load_test/load.go:214-223 | five workers with three replies and two transport errors send those five records, with two worker increments |
| ReportFacts.ThreeOfFiveReport | load_test/load.go:277-309 | that run reports 5 requests, 2 errors (a 40 percent error rate) and a 30ns average |
| ReportFacts.PercentilesOrdered | load_test/load.go:231-287 | with no successful result min is MaxInt64, max 0 and every percentile 0; otherwise min and every percentile are observed latencies and `min <= p50 <= p90 <= p95 <= p99 <= max` |
| ReportFacts.StatusSummaryMeaning | load_test/load.go:292-300 | a code has a summary exactly when some successful result carried it; its count is the size of that code's sample, its min was observed and is at most its max, and without a wrapping sum its average lies between them |
| ReportFacts.CollectOrderFree | load_test/load.go:238-300 | results with the same multiset give the same report, whatever their arrival order |

## Left out

- HTTP, wall-clock time, `time.Sleep` and the `fmt.Println` logging in `Worker.Run` (lines 73,
  78-80, 85, 200-205, 224). They become the parameter `outcome`, which fixes what each worker
  observes; the printed messages are not modelled.
- Goroutines, `sync.WaitGroup`, the mutexes and the channel close (lines 23, 45, 94-95, 194, 209,
  218-228). Workers run one after another in start order, and the channel is a `seq<Result>`.
  `DrainFacts.ExpectedPerm` and `ReportFacts.CollectOrderFree` show that the arrival order does not
  change the report. Each request to `/loadtest` runs in its own goroutine, and `errCounter` is
  package-level (lines 20-24), so two overlapping runs share it: the second run's reset and its
  workers' increments reach the first run's `totalErrors`. The model runs one handler at a time, so
  `ReportFacts.ReportedErrors`, `ReportFacts.CounterAfterRun` and `ReportFacts.ErrorRateBounded`
  hold for a run that overlaps no other.
- `LoadTest.ChanSizeOk`: the limit is that of linux/amd64 with a 96-byte channel header, as in Go
  releases up to 1.22. From Go 1.23 the channel header also holds a timer pointer, which makes it
  104 bytes and the largest accepted size 7,036,874,417,763, one less. Other platforms have other
  limits.
- `LoadTest.Dispatch`: it runs every worker to completion and the handler then compares the number
  of records with the capacity. It does not model which worker blocks, or that blocked workers
  never finish.
- `LoadTest.RunWorker`: a panic is modelled as happening before the send. A panic after the send
  (for instance in the deferred body close) would both send a record and count an error; that case
  is not modelled.
- The worker id and `NewWorker` (lines 50, 56-65): the id is only printed.
- Query parsing with `strconv.Atoi` and its `400` responses (lines 177-188): the model starts from
  the parsed `rps` and `duration`.
- The floating-point error rate (line 290): the report keeps its numerator `totalErrors`, next to
  its denominator `totalRequests`. `ReportFacts.ErrorRateBounded` bounds the quotient. The NaN or
  infinity for `totalRequests = 0` is not modelled.
- `Percentile.Idx`: the float index `float64(p)/100*float64(n-1)` is modelled by the exact
  `floor(p*(n-1)/100)`. IEEE rounding can differ from it by one at some ranks (for example p = 29,
  n - 1 = 100). The proved properties hold for both: bounds, monotonicity, and the values at
  p = 0 and p = 100. At the four percentiles the handler asks for (50, 90, 95 and 99, lines
  284-287) the two agree, for the following reasons:
  - `float64(p)/100` is within relative error 2^-54 of `p/100`.
  - When `p*(n-1)/100` is an integer `k`, the computed product is therefore less than half a unit
    in the last place away from `k`, so it rounds to `k` itself.
  - Otherwise the fractional part is between 0.01 and 0.99.
  - `n` is at most `MaxChanCap`, below 2^43. So the computed product is less than 0.002 away from
    the exact value, and `floor` gives the same rank.
- `Percentile.CalculatePercentile`: it requires `0 <= p <= 100` when there are at least two
  latencies. For any other `p` the source indexes out of range at line 351 or 357 and panics; that
  panic is not modelled. The only calls (lines 284-287) pass 50, 90, 95 and 99.
- `Percentile.SortAscending`: `sort.Slice` is modelled by an insertion sort. Only its result
  matters here: an ascending permutation, which is unique.
- `LoadTest.Percentiles`: the latency slice is copied into a fresh array. The slice itself is not
  used after the percentiles, so aliasing with it is not modelled.
- `Duration.String()`, `writeMetricsToCSV` and the JSON response (lines 102-139, 296-334): these
  are formatting and I/O. `Metrics` keeps every duration as its nanosecond count.
- `main` and signal handling (lines 366-392), and all of `main.go` (database, cache and HTTP
  handlers): they are I/O glue outside the metrics core.
