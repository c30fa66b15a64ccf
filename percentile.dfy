/** `calculatePercentile`: sort the latency sample in place, then pick the
    order statistic at rank `p/100 * (n-1)`. The "interpolation" between the
    two neighbouring order statistics multiplies their difference by
    `time.Duration(fraction)`, which truncates a fraction in (0,1) to 0, so the
    result is always the lower neighbour. */
module Percentile {
  import opened GoInt

  ghost predicate Sorted(s: seq<int>)
  {
    forall i, j :: 0 <= i < j < |s| ==> s[i] <= s[j]
  }

  /** The rank `floor(p/100 * (n-1))` of the order statistic for percentile
      `p` in a sample of `n` values, in exact arithmetic. */
  function Idx(p: int, n: int): (k: int)
    requires n >= 1 && (n == 1 || 0 <= p <= 100)
    ensures 0 <= k <= n - 1
    ensures p == 0 ==> k == 0
    ensures p == 100 ==> k == n - 1
  {
    RankBounds(p, n);
    p * (n - 1) / 100
  }

  /** The exact value of `100 * index` lies in [0, 100 * (n-1)]. */
  lemma RankBounds(p: int, n: int)
    requires n >= 1 && (n == 1 || 0 <= p <= 100)
    ensures 0 <= p * (n - 1) <= 100 * (n - 1)
    ensures 0 <= p * (n - 1) / 100 <= n - 1
  {
    if n > 1 {
      assert 100 * (n - 1) - p * (n - 1) == (100 - p) * (n - 1);
      MulNonNeg(100 - p, n - 1);
      MulNonNeg(p, n - 1);
    }
  }

  /** A larger percentile never picks a smaller rank. */
  lemma IdxMonotone(p1: int, p2: int, n: int)
    requires n >= 1 && (n == 1 || 0 <= p1 <= p2 <= 100)
    requires p1 <= p2
    ensures Idx(p1, n) <= Idx(p2, n)
  {
    assert p2 * (n - 1) - p1 * (n - 1) == (p2 - p1) * (n - 1);
    MulNonNeg(p2 - p1, n - 1);
  }

  /** What the source returns for percentile `p` of an ascending sample:
      0 for an empty sample, else the order statistic of rank `Idx(p, n)`. */
  function PercentileOf(sorted: seq<Int64>, p: int): Int64
    requires |sorted| <= 1 || 0 <= p <= 100
  {
    if |sorted| == 0 then 0 else sorted[Idx(p, |sorted|)]
  }

  /** Ascending order of `s`, by insertion. */
  function SortSeq(s: seq<Int64>): (r: seq<Int64>)
    ensures Sorted(r) && multiset(r) == multiset(s)
  {
    if s == [] then []
    else
      assert s == [s[0]] + s[1..];
      Insert(s[0], SortSeq(s[1..]))
  }

  function Insert(x: Int64, s: seq<Int64>): (r: seq<Int64>)
    requires Sorted(s)
    ensures Sorted(r) && multiset(r) == multiset(s) + multiset{x}
  {
    if s == [] then [x]
    else if x <= s[0] then [x] + s
    else
      assert s == [s[0]] + s[1..];
      var rest := Insert(x, s[1..]);
      InsertHead(s[0], x, s[1..], rest);
      [s[0]] + rest
  }

  lemma InsertHead(h: Int64, x: Int64, tail: seq<Int64>, rest: seq<Int64>)
    requires h < x && Sorted(rest) && (forall i :: 0 <= i < |tail| ==> h <= tail[i])
    requires multiset(rest) == multiset(tail) + multiset{x}
    ensures Sorted([h] + rest)
  {
    forall k | 0 <= k < |rest|
      ensures h <= rest[k]
    {
      assert rest[k] in multiset(rest);
      if rest[k] != x {
        assert rest[k] in multiset(tail);
      }
    }
  }

  /** Two ascending orders of the same multiset are the same sequence: the
      sorted sample, and so every percentile, depends only on which values
      were observed, not on their arrival order. */
  lemma {:induction false} SortedUnique(a: seq<Int64>, b: seq<Int64>)
    requires Sorted(a) && Sorted(b) && multiset(a) == multiset(b)
    ensures a == b
    decreases |a|
  {
    SameLength(a, b);
    if a != [] {
      SameHead(a, b);
      DropFirst(a);
      DropFirst(b);
      SortedUnique(a[1..], b[1..]);
      assert a == [a[0]] + a[1..];
      assert b == [b[0]] + b[1..];
    }
  }

  lemma SameLength(a: seq<Int64>, b: seq<Int64>)
    requires multiset(a) == multiset(b)
    ensures |a| == |b|
  {
    assert |a| == |multiset(a)| && |b| == |multiset(b)|;
  }

  lemma SameHead(a: seq<Int64>, b: seq<Int64>)
    requires Sorted(a) && Sorted(b) && a != [] && b != [] && multiset(a) == multiset(b)
    ensures a[0] == b[0]
  {
    assert b[0] in multiset(b) && a[0] in multiset(a);
    HeadIsLeast(a, b[0]);
    HeadIsLeast(b, a[0]);
  }

  /** The tail of an ascending sequence is ascending and holds one copy of
      the head fewer. */
  lemma DropFirst(a: seq<Int64>)
    requires Sorted(a) && a != []
    ensures Sorted(a[1..]) && multiset(a[1..]) == multiset(a) - multiset{a[0]}
  {
    assert a == [a[0]] + a[1..];
  }

  lemma HeadIsLeast(a: seq<Int64>, x: Int64)
    requires Sorted(a) && x in multiset(a)
    ensures a[0] <= x
  {
    var j :| 0 <= j < |a| && a[j] == x;
  }

  /** `sort.Slice(data, less)`: the standard library sort, here by insertion
      with adjacent swaps. */
  method SortAscending(a: array<Int64>)
    modifies a
    ensures Sorted(a[..])
    ensures multiset(a[..]) == multiset(old(a[..]))
  {
    var i := 0;
    while i < a.Length
      invariant 0 <= i <= a.Length
      invariant SortedUpTo(a[..], i)
      invariant multiset(a[..]) == multiset(old(a[..]))
    {
      SinkLast(a, i);
      i := i + 1;
    }
  }

  ghost predicate SortedUpTo(s: seq<int>, n: int)
    requires n <= |s|
  {
    forall k, l :: 0 <= k < l < n ==> s[k] <= s[l]
  }

  /** `s[..i + 1]` is ascending once `s[j]` is left out, and `s[j]` is at
      most everything after it. */
  ghost predicate Sinking(s: seq<int>, i: int, j: int)
    requires 0 <= j <= i < |s|
  {
    && (forall k, l :: 0 <= k < l <= i && k != j && l != j ==> s[k] <= s[l])
    && (forall l :: j < l <= i ==> s[j] <= s[l])
  }

  /** `s` with its elements at `j - 1` and `j` exchanged. */
  function Swapped(s: seq<Int64>, j: int): (t: seq<Int64>)
    requires 0 < j < |s|
    ensures multiset(t) == multiset(s)
  {
    s[j - 1 := s[j]][j := s[j - 1]]
  }

  lemma SinkStep(s: seq<Int64>, i: int, j: int)
    requires 0 < j <= i < |s| && Sinking(s, i, j) && s[j - 1] > s[j]
    ensures Sinking(Swapped(s, j), i, j - 1)
  {
  }

  lemma SinkDone(s: seq<Int64>, i: int, j: int)
    requires 0 <= j <= i < |s| && Sinking(s, i, j) && (j == 0 || s[j - 1] <= s[j])
    ensures SortedUpTo(s, i + 1)
  {
  }

  /** Moves `a[i]` down into the ascending prefix `a[..i]`. */
  method SinkLast(a: array<Int64>, i: int)
    requires 0 <= i < a.Length
    requires SortedUpTo(a[..], i)
    modifies a
    ensures SortedUpTo(a[..], i + 1)
    ensures multiset(a[..]) == multiset(old(a[..]))
  {
    var j := i;
    while j > 0 && a[j - 1] > a[j]
      invariant 0 <= j <= i
      invariant Sinking(a[..], i, j)
      invariant multiset(a[..]) == multiset(old(a[..]))
    {
      SinkStep(a[..], i, j);
      ghost var s := a[..];
      a[j - 1], a[j] := a[j], a[j - 1];
      assert a[..] == Swapped(s, j);
      j := j - 1;
    }
    SinkDone(a[..], i, j);
  }

  /** `calculatePercentile(data, p)`. */
  method CalculatePercentile(data: array<Int64>, p: int) returns (r: Int64)
    requires data.Length <= 1 || 0 <= p <= 100
    modifies data
    ensures data.Length == 0 ==> r == 0 && data[..] == old(data[..])
    ensures Sorted(data[..]) && multiset(data[..]) == multiset(old(data[..]))
    ensures r == PercentileOf(data[..], p)
  {
    if data.Length == 0 {
      return 0;
    }
    SortAscending(data);
    var n := data.Length;
    RankBounds(p, n);
    // 100 * index, computed exactly
    var rank := p * (n - 1);
    if rank % 100 == 0 {
      // index is an integer
      r := data[rank / 100];
      return;
    }
    var lowerIndex := rank / 100;
    var upperIndex := lowerIndex + 1;
    assert upperIndex <= n - 1;
    var lowerValue := data[lowerIndex];
    var upperValue := data[upperIndex];
    // time.Duration(index - float64(lowerIndex)): a fraction in (0, 1), truncated
    assert 0 < rank - lowerIndex * 100 < 100;
    var indexOffset: Int64 := (rank - lowerIndex * 100) / 100;
    r := Add(lowerValue, Mul(Sub(upperValue, lowerValue), indexOffset));
  }

  /** The result is one of the observed values, between the least and the
      greatest of them. */
  lemma PercentileInSample(s: seq<Int64>, p: int)
    requires Sorted(s) && s != [] && (|s| <= 1 || 0 <= p <= 100)
    ensures PercentileOf(s, p) in s
    ensures s[0] <= PercentileOf(s, p) <= s[|s| - 1]
    ensures forall i :: 0 <= i < |s| ==> s[0] <= s[i] <= s[|s| - 1]
  {
  }

  /** Percentile 0 is the minimum and percentile 100 the maximum. */
  lemma PercentileEndpoints(s: seq<Int64>)
    requires Sorted(s) && s != []
    ensures forall i :: 0 <= i < |s| ==> PercentileOf(s, 0) <= s[i] <= PercentileOf(s, 100)
  {
  }

  /** A larger percentile never gives a smaller latency. */
  lemma PercentileMonotone(s: seq<Int64>, p1: int, p2: int)
    requires Sorted(s) && 0 <= p1 <= p2 <= 100
    ensures PercentileOf(s, p1) <= PercentileOf(s, p2)
  {
    if s != [] {
      IdxMonotone(p1, p2, |s|);
    }
  }

  /** The truncation of `indexOffset` means no interpolation happens: for the
      sample [10, 20] the median is 10, not 15. */
  lemma NoInterpolation()
    ensures PercentileOf([10, 20], 50) == 10
  {
  }
}
