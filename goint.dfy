/** Go's 64-bit signed integers: `int` (on 64-bit platforms), `int64` and
    `time.Duration` all wrap around modulo 2^64 on overflow. */
module GoInt {

  const MaxInt64: int := 0x7fff_ffff_ffff_ffff
  const MinInt64: int := -0x8000_0000_0000_0000
  const Modulus: int := 0x1_0000_0000_0000_0000

  /** A value of a 64-bit signed Go integer type. */
  type Int64 = x: int | MinInt64 <= x <= MaxInt64

  /** Two's-complement wrap-around: the Int64 congruent to `x` modulo 2^64. */
  function Wrap(x: int): (r: Int64)
    ensures MinInt64 <= x <= MaxInt64 ==> r == x
  {
    (x - MinInt64) % Modulus + MinInt64
  }

  /** The wrapped value differs from the exact one by a multiple of 2^64. */
  lemma WrapDiff(x: int) returns (k: int)
    ensures x == Wrap(x) + k * Modulus
  {
    k := (x - MinInt64) / Modulus;
  }

  /** An in-range value congruent to `x` modulo 2^64 is the wrapped value. */
  lemma WrapUnique(x: int, y: int, k: int)
    requires MinInt64 <= y <= MaxInt64 && x == y + k * Modulus
    ensures Wrap(x) == y
  {
    var j := WrapDiff(x);
    assert (k - j) * Modulus == Wrap(x) - y;
  }

  /** Values congruent modulo 2^64 wrap to the same Int64. */
  lemma WrapPeriodic(x: int, y: int, k: int)
    requires x == y + k * Modulus
    ensures Wrap(x) == Wrap(y)
  {
    var j := WrapDiff(y);
    WrapUnique(x, Wrap(y), j + k);
  }

  /** Wrapping an intermediate result changes nothing: `w` is the wrapped
      value of `x`, and adding `y` to either wraps to the same Int64. */
  lemma WrapAdd(w: int, x: int, y: int)
    requires w == Wrap(x)
    ensures Wrap(w + y) == Wrap(x + y)
  {
    var k := WrapDiff(x);
    WrapPeriodic(x + y, w + y, k);
  }

  /** Go's `a + b` on 64-bit integers: the exact sum lies within one period
      of the range, so one correction brings it back. */
  function Add(a: Int64, b: Int64): Int64
  {
    var s := a + b;
    if s > MaxInt64 then s - Modulus else if s < MinInt64 then s + Modulus else s
  }

  /** Go's `a - b` on 64-bit integers. */
  function Sub(a: Int64, b: Int64): Int64
  {
    var s := a - b;
    if s > MaxInt64 then s - Modulus else if s < MinInt64 then s + Modulus else s
  }

  /** Go's `a * b` on 64-bit integers. */
  function Mul(a: Int64, b: Int64): (r: Int64)
    ensures b == 0 ==> r == 0
  {
    Wrap(a * b)
  }

  lemma AddIsWrap(a: Int64, b: Int64)
    ensures Add(a, b) == Wrap(a + b)
  {
    var s := a + b;
    if s > MaxInt64 {
      WrapUnique(s, s - Modulus, 1);
    } else if s < MinInt64 {
      WrapUnique(s, s + Modulus, -1);
    }
  }

  lemma SubIsWrap(a: Int64, b: Int64)
    ensures Sub(a, b) == Wrap(a - b)
  {
    var s := a - b;
    if s > MaxInt64 {
      WrapUnique(s, s - Modulus, 1);
    } else if s < MinInt64 {
      WrapUnique(s, s + Modulus, -1);
    }
  }

  /** `n` executions of `v++`. */
  function Incremented(v: Int64, n: nat): Int64
  {
    if n == 0 then v else Add(Incremented(v, n - 1), 1)
  }

  /** `n` increments wrap the exact sum `v + n`. */
  lemma {:induction false} IncrementedIsWrap(v: Int64, n: nat)
    ensures Incremented(v, n) == Wrap(v + n)
  {
    if n > 0 {
      IncrementedIsWrap(v, n - 1);
      var w := Incremented(v, n - 1);
      AddIsWrap(w, 1);
      WrapAdd(w, v + (n - 1), 1);
    }
  }

  lemma MulNonNeg(a: int, b: int)
    requires a >= 0 && b >= 0
    ensures a * b >= 0
  {
  }

  lemma MulCancel(c: int, x: int, y: int)
    requires c > 0 && x * c <= y * c
    ensures x <= y
  {
  }

  lemma MulCancelStrict(c: int, x: int, y: int)
    requires c > 0 && x * c < y * c
    ensures x < y
  {
  }

  /** Increments that stay in range are exact. */
  lemma {:induction false} IncrementedExact(v: Int64, n: nat)
    requires v + n <= MaxInt64
    ensures Incremented(v, n) == v + n
  {
    if n > 0 {
      IncrementedExact(v, n - 1);
    }
  }

  /** `a` increments followed by `b` more are `a + b` increments. */
  lemma {:induction false} IncrementedTwice(v: Int64, a: nat, b: nat)
    ensures Incremented(Incremented(v, a), b) == Incremented(v, a + b)
  {
    if b > 0 {
      IncrementedTwice(v, a, b - 1);
    }
  }

  /** A product with a positive factor is at least the other factor. */
  lemma {:induction false} MulAtLeast(q: nat, b: nat)
    requires b >= 1
    ensures q * b >= q
    decreases b
  {
    if b > 1 {
      MulAtLeast(q, b - 1);
      assert q * b == q * (b - 1) + q;
    }
  }

  /** Euclidean division of a non-negative number by a positive one. */
  lemma DivBounds(n: int, b: int)
    requires n >= 0 && b > 0
    ensures 0 <= n / b <= n
    ensures 0 <= (n / b) * b <= n < (n / b) * b + b
  {
    var q, r := n / b, n % b;
    assert n == q * b + r && 0 <= r < b;
    MulAtLeast(q, b);
  }

  /** Go's `/` on integers with a positive divisor: the quotient is truncated
      toward zero (Dafny's own `/` is Euclidean). */
  function Quo(a: Int64, b: Int64): Int64
    requires b > 0
  {
    var magnitude: int := if a >= 0 then a as int else 0 - a as int;
    DivBounds(magnitude, b);
    var t := magnitude / b;
    if a >= 0 then t else -t
  }

  /** The truncated quotient times the divisor lies between the dividend
      and zero, less than one divisor away from the dividend. */
  lemma QuoBounds(a: Int64, b: Int64)
    requires b > 0
    ensures var q := Quo(a, b);
      && (a >= 0 ==> 0 <= q * b <= a < q * b + b)
      && (a < 0 ==> q * b - b < a <= q * b <= 0)
  {
    var magnitude: int := if a >= 0 then a as int else 0 - a as int;
    DivBounds(magnitude, b);
    var t := magnitude / b;
    assert (-t) * b == -(t * b);
  }

  /** The truncated quotient of a value between `c * lo` and `c * hi` lies
      between `lo` and `hi`: an average of values lies between their least
      and their greatest. */
  lemma QuoBetween(sum: Int64, c: Int64, lo: int, hi: int)
    requires c >= 1 && c * lo <= sum <= c * hi
    ensures lo <= Quo(sum, c) <= hi
  {
    var q := Quo(sum, c);
    QuoBounds(sum, c);
    if sum >= 0 {
      MulCancel(c, q, hi);
      assert lo * c < (q + 1) * c;
      MulCancelStrict(c, lo, q + 1);
    } else {
      MulCancel(c, lo, q);
      assert (q - 1) * c < hi * c;
      MulCancelStrict(c, q - 1, hi);
    }
  }
}
