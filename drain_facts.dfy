/** Properties of the drained aggregate: what each entry means, how the
    per-status entries add up to the global figures, that failed results
    leave no trace, and that the arrival order does not matter. */
module DrainFacts {
  import opened GoInt
  import opened Seqs
  import opened Aggregate

  /** What the statistics of a latency sample mean. The maximum starts at 0
      in the source, so it is the greatest latency or 0, whichever is larger. */
  lemma MetricsMeaning(lats: seq<Int64>)
    ensures var e := MetricsOf(lats);
      && e.count == |lats|
      && e.sumLatency == Wrap(Sum(lats))
      && (lats == [] ==> e.minLatency == MaxInt64 && e.maxLatency == 0)
      && (lats != [] ==> e.minLatency in lats)
      && (e.maxLatency in lats || e.maxLatency == 0)
      && 0 <= e.maxLatency
      && (forall i :: 0 <= i < |lats| ==> e.minLatency <= lats[i] <= e.maxLatency)
  {
    WrappedSumIsWrap(lats);
  }

  /** Summing with wrap-around at every step gives the exact sum wrapped
      once at the end. */
  lemma {:induction false} WrappedSumIsWrap(lats: seq<Int64>)
    ensures WrappedSum(lats) == Wrap(Sum(lats))
    decreases |lats|
  {
    if lats != [] {
      var prefix, x := lats[..|lats| - 1], lats[|lats| - 1];
      WrappedSumIsWrap(prefix);
      AddIsWrap(WrappedSum(prefix), x);
      WrapAdd(WrappedSum(prefix), Sum(prefix), x);
    }
  }

  /** Every status entry describes a non-empty sample: its count is at least
      one, its minimum was observed and its maximum bounds the sample. */
  lemma StatusEntry(rs: seq<Result>, code: int)
    requires code in Expected(rs).statusMetrics
    ensures var e, lats := Expected(rs).statusMetrics[code], StatusLatencies(rs, code);
      && 1 <= e.count == |lats| <= |Latencies(rs)|
      && e.minLatency in lats && e.minLatency <= e.maxLatency
      && e.sumLatency == Wrap(Sum(lats))
      && (forall i :: 0 <= i < |lats| ==> e.minLatency <= lats[i] <= e.maxLatency)
  {
    StatusesIff(rs, code);
    MetricsMeaning(StatusLatencies(rs, code));
    SampleSubset(rs, code);
  }

  /** A status code's sample is a sub-multiset of all successful latencies. */
  lemma {:induction false} SampleSubset(rs: seq<Result>, code: int)
    ensures multiset(StatusLatencies(rs, code)) <= multiset(Latencies(rs))
    ensures |StatusLatencies(rs, code)| <= |Latencies(rs)|
    decreases |rs|
  {
    if rs != [] {
      var xs, r := rs[..|rs| - 1], rs[|rs| - 1];
      assert rs == xs + [r];
      SampleSubset(xs, code);
      SampleSnoc(xs, r, AnyStatus);
      SampleSnoc(xs, r, OnlyStatus(code));
    }
  }

  /** Each result is either counted as a failure or contributes a latency. */
  lemma {:induction false} FailuresComplement(rs: seq<Result>)
    ensures Failures(rs) + |Latencies(rs)| == |rs|
    decreases |rs|
  {
    if rs != [] {
      var xs, r := rs[..|rs| - 1], rs[|rs| - 1];
      assert rs == xs + [r];
      FailuresComplement(xs);
      FailuresSnoc(xs, r);
      SampleSnoc(xs, r, AnyStatus);
    }
  }

  // ---------------------------------------------------------------------
  // Totals over the status map.

  datatype Field = CountField | SumField

  function Get(e: StatusCodeMetrics, f: Field): int
  {
    if f.CountField? then e.count else e.sumLatency
  }

  ghost function PickKey(keys: set<int>): (k: int)
    requires keys != {}
    ensures k in keys
  {
    HasElement(keys);
    var k :| k in keys; k
  }

  lemma HasElement(keys: set<int>)
    requires keys != {}
    ensures exists k :: k in keys
  {
    assert (forall k :: k !in keys) ==> keys == {};
  }

  /** The sum of field `f` over the entries of `m` at `keys`. */
  ghost function Total(m: map<int, StatusCodeMetrics>, keys: set<int>, f: Field): int
    requires keys <= m.Keys
    decreases |keys|
  {
    if keys == {} then 0
    else
      var k := PickKey(keys);
      Get(m[k], f) + Total(m, keys - {k}, f)
  }

  /** Any key can be taken out first. */
  lemma {:induction false} TotalRemove(m: map<int, StatusCodeMetrics>, keys: set<int>, k: int, f: Field)
    requires k in keys && keys <= m.Keys
    ensures Total(m, keys, f) == Get(m[k], f) + Total(m, keys - {k}, f)
    decreases |keys|
  {
    var j := PickKey(keys);
    if j != k {
      TotalRemove(m, keys - {j}, k, f);
      TotalRemove(m, keys - {k}, j, f);
      assert keys - {j} - {k} == keys - {k} - {j};
    }
  }

  /** Maps that agree on `keys` have the same total there. */
  lemma {:induction false} TotalAgree(m: map<int, StatusCodeMetrics>, m': map<int, StatusCodeMetrics>, keys: set<int>, f: Field)
    requires keys <= m.Keys && keys <= m'.Keys
    requires forall k :: k in keys ==> m[k] == m'[k]
    ensures Total(m, keys, f) == Total(m', keys, f)
    decreases |keys|
  {
    if keys != {} {
      var j := PickKey(keys);
      TotalAgree(m, m', keys - {j}, f);
    }
  }

  /** Replacing or adding the entry for `k` changes the total by the
      difference of the entries. */
  lemma TotalPut(m: map<int, StatusCodeMetrics>, keys: set<int>, k: int, e: StatusCodeMetrics, f: Field)
    requires keys <= m.Keys
    ensures k in keys ==> Total(m[k := e], keys, f) == Total(m, keys, f) - Get(m[k], f) + Get(e, f)
    ensures k !in keys ==> Total(m[k := e], keys + {k}, f) == Total(m, keys, f) + Get(e, f)
  {
    var m' := m[k := e];
    if k in keys {
      TotalRemove(m, keys, k, f);
      TotalRemove(m', keys, k, f);
      TotalAgree(m, m', keys - {k}, f);
    } else {
      TotalRemove(m', keys + {k}, k, f);
      assert keys + {k} - {k} == keys;
      TotalAgree(m, m', keys, f);
    }
  }

  /** The per-status counts add up to the length of the latency slice, and
      the per-status sums add up, modulo 2^64, to the global latency sum. */
  ghost predicate TotalsAgree(d: Drained)
  {
    var m := d.statusMetrics;
    && Total(m, m.Keys, CountField) == |d.latencies|
    && Wrap(Total(m, m.Keys, SumField)) == d.sumLatency
  }

  /** Recording one successful result keeps the totals in agreement. */
  lemma TotalsBump(d: Drained, d': Drained, c: int, latency: Int64)
    requires TotalsAgree(d)
    requires d'.statusMetrics == d.statusMetrics[c := Bump(EntryOr(d.statusMetrics, c), latency)]
    requires d'.latencies == d.latencies + [latency]
    requires d'.sumLatency == Add(d.sumLatency, latency)
    ensures TotalsAgree(d')
  {
    var m := d.statusMetrics;
    AddIsWrap(d.sumLatency, latency);
    CountBump(m, c, latency);
    SumBump(m, c, latency);
    WrapAdd(d.sumLatency, Total(m, m.Keys, SumField), latency);
  }

  lemma CountBump(m: map<int, StatusCodeMetrics>, c: int, latency: Int64)
    ensures var m' := m[c := Bump(EntryOr(m, c), latency)];
      Total(m', m'.Keys, CountField) == Total(m, m.Keys, CountField) + 1
  {
    var m' := m[c := Bump(EntryOr(m, c), latency)];
    TotalPut(m, m.Keys, c, m'[c], CountField);
    assert m'.Keys == m.Keys + {c};
    if c in m {
      assert m.Keys + {c} == m.Keys;
    }
  }

  lemma SumBump(m: map<int, StatusCodeMetrics>, c: int, latency: Int64)
    ensures var m' := m[c := Bump(EntryOr(m, c), latency)];
      Wrap(Total(m', m'.Keys, SumField)) == Wrap(Total(m, m.Keys, SumField) + latency)
  {
    var e := EntryOr(m, c);
    var m' := m[c := Bump(e, latency)];
    TotalPut(m, m.Keys, c, m'[c], SumField);
    assert m'.Keys == m.Keys + {c};
    if c in m {
      assert m.Keys + {c} == m.Keys;
    }
    var sum, sum' := Total(m, m.Keys, SumField), Total(m', m'.Keys, SumField);
    AddIsWrap(e.sumLatency, latency);
    var k := WrapDiff(e.sumLatency + latency);
    assert sum' == sum + latency - k * Modulus;
    WrapPeriodic(sum + latency, sum', k);
  }

  /** The status map accounts for every successful result and its latency. */
  lemma {:induction false} StatusTotals(rs: seq<Result>)
    ensures TotalsAgree(Expected(rs))
    decreases |rs|
  {
    if rs == [] {
      return;
    }
    var xs, r := rs[..|rs| - 1], rs[|rs| - 1];
    assert rs == xs + [r];
    StatusTotals(xs);
    if r.failed {
      StepFailed(xs, r);
    } else {
      StepGlobal(xs, r);
      StepStatus(xs, r);
      TotalsBump(Expected(xs), Expected(rs), r.status, r.latency);
    }
  }

  // ---------------------------------------------------------------------
  // Failed results and arrival order.

  lemma {:induction false} SampleAppend(a: seq<Result>, b: seq<Result>, sel: Selector)
    ensures Sample(a + b, sel) == Sample(a, sel) + Sample(b, sel)
    decreases |b|
  {
    if b == [] {
      assert a + b == a;
    } else {
      var b', r := b[..|b| - 1], b[|b| - 1];
      assert b == b' + [r];
      assert a + b == (a + b') + [r];
      SampleAppend(a, b', sel);
      SampleSnoc(a + b', r, sel);
      SampleSnoc(b', r, sel);
    }
  }

  /** Reordering the results reorders each sample and nothing else. */
  lemma {:induction false} SamplePerm(s: seq<Result>, t: seq<Result>, sel: Selector)
    requires multiset(s) == multiset(t)
    ensures multiset(Sample(s, sel)) == multiset(Sample(t, sel))
    decreases |s|
  {
    if s == [] {
      assert |multiset(t)| == 0;
      return;
    }
    var s', x := s[..|s| - 1], s[|s| - 1];
    assert x in multiset(t);
    var j :| 0 <= j < |t| && t[j] == x;
    var t' := t[..j] + t[j + 1..];
    assert multiset(s') == multiset(t') by {
      RemoveAt(t, j);
      DropLast(s);
    }
    SamplePerm(s', t', sel);
    calc {
      multiset(Sample(s, sel));
      { assert s == s' + [x]; SampleAppend(s', [x], sel); }
      multiset(Sample(s', sel)) + multiset(Sample([x], sel));
      multiset(Sample(t', sel)) + multiset(Sample([t[j]], sel));
      { SampleRemoveAt(t, j, sel); }
      multiset(Sample(t, sel));
    }
  }

  /** Taking out the result at `j` takes its latency, if selected, out of
      the sample. */
  lemma SampleRemoveAt(t: seq<Result>, j: int, sel: Selector)
    requires 0 <= j < |t|
    ensures multiset(Sample(t, sel)) == multiset(Sample(t[..j] + t[j + 1..], sel)) + multiset(Sample([t[j]], sel))
  {
    var a, x, b := t[..j], t[j], t[j + 1..];
    assert t == (a + [x]) + b;
    SampleAppend(a + [x], b, sel);
    SampleAppend(a, [x], sel);
    SampleAppend(a, b, sel);
  }

  /** Two samples with the same values have the same statistics. */
  lemma MetricsPerm(a: seq<Int64>, b: seq<Int64>)
    requires multiset(a) == multiset(b)
    ensures MetricsOf(a) == MetricsOf(b)
  {
    assert |a| == |multiset(a)| == |b|;
    if a != [] {
      SumPerm(a, b);
      WrappedSumIsWrap(a);
      WrappedSumIsWrap(b);
      MinMaxPerm(a, b);
    }
  }

  /** Results with the same samples drain to the same aggregate. */
  lemma SamplesDetermine(rs: seq<Result>, ts: seq<Result>)
    requires forall sel :: Sample(rs, sel) == Sample(ts, sel)
    ensures Expected(rs) == Expected(ts)
  {
    assert Latencies(rs) == Latencies(ts);
    forall c
      ensures c in Statuses(rs) <==> c in Statuses(ts)
    {
      assert StatusLatencies(rs, c) == StatusLatencies(ts, c);
      StatusesIff(rs, c);
      StatusesIff(ts, c);
    }
    assert Statuses(rs) == Statuses(ts);
    forall c | c in Statuses(rs)
      ensures StatusMap(rs)[c] == StatusMap(ts)[c]
    {
      assert StatusLatencies(rs, c) == StatusLatencies(ts, c);
    }
  }

  /** A failed result anywhere in the channel leaves the aggregate as if it
      had not been sent; it only moves the error counter. */
  lemma FailedIgnored(xs: seq<Result>, r: Result, ys: seq<Result>)
    requires r.failed
    ensures Expected(xs + [r] + ys) == Expected(xs + ys)
    ensures Failures(xs + [r] + ys) == Failures(xs + ys) + 1
  {
    forall sel
      ensures Sample(xs + [r] + ys, sel) == Sample(xs + ys, sel)
    {
      SampleAppend(xs + [r], ys, sel);
      SampleAppend(xs, ys, sel);
      SampleSnoc(xs, r, sel);
    }
    SamplesDetermine(xs + [r] + ys, xs + ys);
    FailuresComplement(xs + [r] + ys);
    FailuresComplement(xs + ys);
  }

  /** The order in which the workers' results arrive changes nothing but
      the order of the latency slice. */
  lemma ExpectedPerm(rs: seq<Result>, ts: seq<Result>)
    requires multiset(rs) == multiset(ts)
    ensures var d, e := Expected(rs), Expected(ts);
      && d.sumLatency == e.sumLatency
      && d.minLatency == e.minLatency
      && d.maxLatency == e.maxLatency
      && multiset(d.latencies) == multiset(e.latencies)
      && d.statusMetrics == e.statusMetrics
    ensures Failures(rs) == Failures(ts)
  {
    SamplePerm(rs, ts, AnyStatus);
    MetricsPerm(Latencies(rs), Latencies(ts));
    forall c
      ensures c in Statuses(rs) <==> c in Statuses(ts)
    {
      SamplePerm(rs, ts, OnlyStatus(c));
      StatusesIff(rs, c);
      StatusesIff(ts, c);
    }
    assert Statuses(rs) == Statuses(ts);
    forall c | c in Statuses(rs)
      ensures StatusMap(rs)[c] == StatusMap(ts)[c]
    {
      SamplePerm(rs, ts, OnlyStatus(c));
      MetricsPerm(StatusLatencies(rs, c), StatusLatencies(ts, c));
    }
    assert |multiset(rs)| == |rs| && |multiset(ts)| == |ts|;
    assert |multiset(Latencies(rs))| == |Latencies(rs)|;
    assert |multiset(Latencies(ts))| == |Latencies(ts)|;
    FailuresComplement(rs);
    FailuresComplement(ts);
  }
}
