/** The drain loop of `LoadTestHandler`: it folds the closed result channel
    into a running latency sum, a global minimum and maximum, the slice of
    successful latencies, and one `StatusCodeMetrics` entry per status code. */
module Aggregate {
  import opened GoInt
  import opened Seqs
  import opened Errors

  /** One record from the result channel. `failed` stands for `err != nil`;
      the worker id is only printed, so it is not kept. */
  datatype Result = Result(status: int, latency: Int64, failed: bool)

  /** The per-status sub-aggregate. `count` cannot wrap: it never exceeds the
      number of results, which is itself a Go `int`. */
  datatype StatusCodeMetrics =
    StatusCodeMetrics(count: nat, minLatency: Int64, maxLatency: Int64, sumLatency: Int64)

  /** The entry created for a status code seen for the first time. */
  const Fresh := StatusCodeMetrics(0, MaxInt64, 0, 0)

  /** The locals of `LoadTestHandler` once the channel is drained. */
  datatype Drained = Drained(
    sumLatency: Int64,
    minLatency: Int64,
    maxLatency: Int64,
    latencies: seq<Int64>,
    statusMetrics: map<int, StatusCodeMetrics>)

  /** Which successful results a statistic is taken over. */
  datatype Selector = AnyStatus | OnlyStatus(code: int)

  predicate Selects(sel: Selector, r: Result)
  {
    !r.failed && (sel.AnyStatus? || r.status == sel.code)
  }

  /** The latencies of the results `sel` selects, in arrival order. */
  function Sample(rs: seq<Result>, sel: Selector): (s: seq<Int64>)
    ensures |s| <= |rs|
  {
    if rs == [] then []
    else
      var r := rs[|rs| - 1];
      if Selects(sel, r) then Sample(rs[..|rs| - 1], sel) + [r.latency]
      else Sample(rs[..|rs| - 1], sel)
  }

  /** The latencies of the successful results, in arrival order. */
  function Latencies(rs: seq<Result>): seq<Int64>
  {
    Sample(rs, AnyStatus)
  }

  /** The latencies of the successful results with status `code`. */
  function StatusLatencies(rs: seq<Result>, code: int): seq<Int64>
  {
    Sample(rs, OnlyStatus(code))
  }

  /** The number of results that carry an error. */
  function Failures(rs: seq<Result>): (n: nat)
    ensures n <= |rs|
  {
    if rs == [] then 0
    else Failures(rs[..|rs| - 1]) + if rs[|rs| - 1].failed then 1 else 0
  }

  /** The status codes of the successful results. */
  function Statuses(rs: seq<Result>): set<int>
  {
    if rs == [] then {}
    else
      var r := rs[|rs| - 1];
      Statuses(rs[..|rs| - 1]) + if r.failed then {} else {r.status}
  }

  /** The sample summed with Go's wrapping `+=`, starting from 0. */
  function WrappedSum(lats: seq<Int64>): Int64
  {
    if lats == [] then 0 else Add(WrappedSum(lats[..|lats| - 1]), lats[|lats| - 1])
  }

  /** Count, least, greatest (never below the initial 0) and wrapped sum of
      a latency sample; the empty sample gives the initial entry `Fresh`. */
  function MetricsOf(lats: seq<Int64>): StatusCodeMetrics
  {
    if lats == [] then Fresh
    else
      var lo, hi := SeqMin(lats), SeqMax(lats);
      StatusCodeMetrics(|lats|, lo, if hi > 0 then hi else 0, WrappedSum(lats))
  }

  /** What the drain leaves behind for the results `rs`, stated through the
      sample statistics of `MetricsOf` rather than through the loop. */
  function Expected(rs: seq<Result>): Drained
  {
    var all := MetricsOf(Latencies(rs));
    Drained(all.sumLatency, all.minLatency, all.maxLatency, Latencies(rs), StatusMap(rs))
  }

  /** One entry per status code seen, holding that code's sample statistics. */
  function StatusMap(rs: seq<Result>): map<int, StatusCodeMetrics>
  {
    map c | c in Statuses(rs) :: MetricsOf(StatusLatencies(rs, c))
  }

  /** One record's update of a per-status entry. */
  function Bump(e: StatusCodeMetrics, latency: Int64): StatusCodeMetrics
  {
    StatusCodeMetrics(e.count + 1,
                      if latency < e.minLatency then latency else e.minLatency,
                      if latency > e.maxLatency then latency else e.maxLatency,
                      Add(e.sumLatency, latency))
  }

  function EntryOr(m: map<int, StatusCodeMetrics>, code: int): StatusCodeMetrics
  {
    if code in m then m[code] else Fresh
  }

  /** The drain loop. A failed result increments the error counter once
      more and is otherwise skipped. */
  method Drain(results: seq<Result>, counter: ErrorCounter) returns (d: Drained)
    modifies counter
    ensures d == Expected(results)
    ensures counter.value == Incremented(old(counter.value), Failures(results))
  {
    var minLatency: Int64, maxLatency: Int64 := MaxInt64, 0;
    var sumLatency: Int64 := 0;
    var latencies: seq<Int64> := [];
    var statusMetrics: map<int, StatusCodeMetrics> := map[];
    ghost var start := counter.value;
    for i := 0 to |results|
      invariant Drained(sumLatency, minLatency, maxLatency, latencies, statusMetrics) == Fold(results[..i])
      invariant counter.value == Incremented(start, Failures(results[..i]))
    {
      var result := results[i];
      ghost var before := results[..i];
      assert results[..i + 1] == before + [result];
      CounterStep(start, before, result);
      FoldSnoc(before, result);
      if result.failed {
        counter.Increment();
        continue;
      }
      sumLatency := Add(sumLatency, result.latency);
      latencies := latencies + [result.latency];
      if result.latency < minLatency {
        minLatency := result.latency;
      }
      if result.latency > maxLatency {
        maxLatency := result.latency;
      }
      statusMetrics := UpdateStatusMetrics(statusMetrics, result);
    }
    assert results[..|results|] == results;
    FoldIsExpected(results);
    d := Drained(sumLatency, minLatency, maxLatency, latencies, statusMetrics);
  }

  /** The loop's locals after draining `rs`, one iteration at a time. */
  function Fold(rs: seq<Result>): Drained
  {
    if rs == [] then Drained(0, MaxInt64, 0, [], map[])
    else Step(Fold(rs[..|rs| - 1]), rs[|rs| - 1])
  }

  /** One iteration of the drain loop on its locals. */
  function Step(d: Drained, r: Result): Drained
  {
    if r.failed then d
    else
      var lat, m := r.latency, d.statusMetrics;
      Drained(Add(d.sumLatency, lat),
              if lat < d.minLatency then lat else d.minLatency,
              if lat > d.maxLatency then lat else d.maxLatency,
              d.latencies + [lat],
              m[r.status := Bump(EntryOr(m, r.status), lat)])
  }

  lemma FoldSnoc(xs: seq<Result>, r: Result)
    ensures Fold(xs + [r]) == Step(Fold(xs), r)
  {
    assert (xs + [r])[..|xs|] == xs;
  }

  /** Iterating the loop body computes the sample statistics. */
  lemma {:induction false} FoldIsExpected(rs: seq<Result>)
    ensures Fold(rs) == Expected(rs)
    decreases |rs|
  {
    if rs == [] {
      assert StatusMap(rs) == map[];
    } else {
      var xs, r := rs[..|rs| - 1], rs[|rs| - 1];
      assert rs == xs + [r];
      FoldIsExpected(xs);
      if r.failed {
        StepFailed(xs, r);
      } else {
        StepSuccess(xs, r);
      }
    }
  }

  /** The locked block of the drain loop: create the entry for a new status
      code, then count the result and fold its latency into the entry. */
  method UpdateStatusMetrics(statusMetrics: map<int, StatusCodeMetrics>, result: Result)
    returns (updated: map<int, StatusCodeMetrics>)
    ensures updated == statusMetrics[result.status := Bump(EntryOr(statusMetrics, result.status), result.latency)]
  {
    updated := statusMetrics;
    if result.status !in updated {
      updated := updated[result.status := StatusCodeMetrics(0, MaxInt64, 0, 0)];
    }
    var entry := updated[result.status];
    entry := entry.(count := entry.count + 1);
    entry := entry.(sumLatency := Add(entry.sumLatency, result.latency));
    if result.latency < entry.minLatency {
      entry := entry.(minLatency := result.latency);
    }
    if result.latency > entry.maxLatency {
      entry := entry.(maxLatency := result.latency);
    }
    updated := updated[result.status := entry];
  }

  lemma FailuresSnoc(xs: seq<Result>, r: Result)
    ensures Failures(xs + [r]) == Failures(xs) + if r.failed then 1 else 0
  {
    assert (xs + [r])[..|xs|] == xs;
  }

  /** One more failed result is one more wrapped increment of the counter. */
  lemma CounterStep(start: Int64, xs: seq<Result>, r: Result)
    ensures r.failed ==> Incremented(start, Failures(xs + [r])) == Add(Incremented(start, Failures(xs)), 1)
    ensures !r.failed ==> Incremented(start, Failures(xs + [r])) == Incremented(start, Failures(xs))
  {
    FailuresSnoc(xs, r);
  }

  // ---------------------------------------------------------------------
  // The step: appending one result to the channel changes the expected
  // aggregate exactly as one iteration of the loop does.

  lemma SampleSnoc(xs: seq<Result>, r: Result, sel: Selector)
    ensures Selects(sel, r) ==> Sample(xs + [r], sel) == Sample(xs, sel) + [r.latency]
    ensures !Selects(sel, r) ==> Sample(xs + [r], sel) == Sample(xs, sel)
  {
    assert (xs + [r])[..|xs|] == xs;
  }

  lemma MetricsSnoc(lats: seq<Int64>, latency: Int64)
    ensures MetricsOf(lats + [latency]) == Bump(MetricsOf(lats), latency)
  {
    var s := lats + [latency];
    assert s[..|s| - 1] == lats;
    if lats == [] {
      assert s == [latency];
      assert WrappedSum(s) == Add(0, latency) == latency;
      assert SeqMin(s) == latency && SeqMax(s) == latency;
    }
  }

  /** A status code has been seen exactly when its sample is non-empty. */
  lemma {:induction false} StatusesIff(rs: seq<Result>, code: int)
    ensures code in Statuses(rs) <==> StatusLatencies(rs, code) != []
    decreases |rs|
  {
    if rs != [] {
      var xs, r := rs[..|rs| - 1], rs[|rs| - 1];
      assert rs == xs + [r];
      StatusesIff(xs, code);
      SampleSnoc(xs, r, OnlyStatus(code));
    }
  }

  lemma StepFailed(xs: seq<Result>, r: Result)
    requires r.failed
    ensures Expected(xs + [r]) == Expected(xs)
  {
    var rs := xs + [r];
    assert rs[..|rs| - 1] == xs;
    SampleSnoc(xs, r, AnyStatus);
    assert Statuses(rs) == Statuses(xs);
    var m, m' := StatusMap(xs), StatusMap(rs);
    forall c | c in m
      ensures m'[c] == m[c]
    {
      SampleSnoc(xs, r, OnlyStatus(c));
    }
    assert m' == m;
  }

  lemma StepGlobal(xs: seq<Result>, r: Result)
    requires !r.failed
    ensures var e, e' := Expected(xs), Expected(xs + [r]);
      && e'.sumLatency == Add(e.sumLatency, r.latency)
      && e'.minLatency == (if r.latency < e.minLatency then r.latency else e.minLatency)
      && e'.maxLatency == (if r.latency > e.maxLatency then r.latency else e.maxLatency)
      && e'.latencies == e.latencies + [r.latency]
  {
    SampleSnoc(xs, r, AnyStatus);
    MetricsSnoc(Latencies(xs), r.latency);
  }

  /** Appending a successful result updates the expected aggregate exactly
      as the source's loop body updates its locals. */
  lemma StepSuccess(xs: seq<Result>, r: Result)
    requires !r.failed
    ensures var d, lat := Expected(xs), r.latency;
      Expected(xs + [r]) == Drained(
        Add(d.sumLatency, lat),
        if lat < d.minLatency then lat else d.minLatency,
        if lat > d.maxLatency then lat else d.maxLatency,
        d.latencies + [lat],
        d.statusMetrics[r.status := Bump(EntryOr(d.statusMetrics, r.status), lat)])
  {
    StepGlobal(xs, r);
    StepStatus(xs, r);
  }

  lemma StepStatus(xs: seq<Result>, r: Result)
    requires !r.failed
    ensures var m := StatusMap(xs);
      StatusMap(xs + [r]) == m[r.status := Bump(EntryOr(m, r.status), r.latency)]
  {
    var m, m' := StatusMap(xs), StatusMap(xs + [r]);
    var c := r.status;
    var want := m[c := Bump(EntryOr(m, c), r.latency)];
    StatusesSnoc(xs, r);
    assert m'.Keys == want.Keys;
    forall k | k in m'
      ensures m'[k] == want[k]
    {
      if k == c {
        StepSameStatus(xs, r);
      } else {
        StepOtherStatus(xs, r, k);
      }
    }
  }

  lemma StatusesSnoc(xs: seq<Result>, r: Result)
    ensures Statuses(xs + [r]) == Statuses(xs) + if r.failed then {} else {r.status}
  {
    assert (xs + [r])[..|xs|] == xs;
  }

  lemma StepSameStatus(xs: seq<Result>, r: Result)
    requires !r.failed
    ensures r.status in StatusMap(xs + [r])
    ensures StatusMap(xs + [r])[r.status] == Bump(EntryOr(StatusMap(xs), r.status), r.latency)
  {
    var rs := xs + [r];
    assert rs[..|rs| - 1] == xs;
    var c := r.status;
    assert c in Statuses(rs);
    StatusesIff(xs, c);
    SampleSnoc(xs, r, OnlyStatus(c));
    MetricsSnoc(StatusLatencies(xs, c), r.latency);
    assert EntryOr(StatusMap(xs), c) == MetricsOf(StatusLatencies(xs, c));
  }

  lemma StepOtherStatus(xs: seq<Result>, r: Result, k: int)
    requires k != r.status && k in StatusMap(xs + [r])
    ensures k in StatusMap(xs) && StatusMap(xs + [r])[k] == StatusMap(xs)[k]
  {
    var rs := xs + [r];
    assert rs[..|rs| - 1] == xs;
    assert k in Statuses(xs);
    SampleSnoc(xs, r, OnlyStatus(k));
  }
}
