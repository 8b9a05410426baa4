/** `std::time::Duration` as a count of nanoseconds.

    A Rust duration holds whole seconds and a nanosecond part below one
    second; every value it can hold is one natural number of nanoseconds,
    and the operations used by path state (comparison, `+`, `-`, `u32 * d`)
    act on that number exactly. Division by a `u32` is the one operation
    that works on the two parts separately; `StdDiv` models it and
    `StdDivExact` shows it is plain floor division for the divisors in use. */
module Durations {

  type Duration = nat

  const NANOS_PER_SEC: nat := 1_000_000_000
  const U64_MAX: nat := 0xFFFF_FFFF_FFFF_FFFF

  /** `cmp::min` */
  function Min(a: Duration, b: Duration): (r: Duration)
    ensures r <= a && r <= b
    ensures r == a || r == b
  {
    if a <= b then a else b
  }

  /** `cmp::max` */
  function Max(a: Duration, b: Duration): (r: Duration)
    ensures r >= a && r >= b
    ensures r == a || r == b
  {
    if b >= a then b else a
  }

  /** `Duration / k`: the seconds are divided first, the seconds left over
      are carried into the nanoseconds, and the nanosecond part is divided
      on its own. */
  function StdDiv(d: Duration, k: nat): Duration
    requires k > 0
  {
    var secs: nat := d / NANOS_PER_SEC;
    var nanos: nat := d % NANOS_PER_SEC;
    var qsecs: nat := secs / k;
    var carry: nat := secs % k;
    var extraNanos: nat := carry * NANOS_PER_SEC / k;
    var wholeNanos: nat := qsecs * NANOS_PER_SEC;
    wholeNanos + (nanos / k + extraNanos)
  }

  /** Division is determined by quotient and remainder. */
  lemma DivUnique(n: int, k: int, q: int, r: int)
    requires k > 0 && 0 <= r < k && n == q * k + r
    ensures n / k == q && n % k == r
  {
    var q', r' := n / k, n % k;
    assert q' * k + r' == q * k + r;
    if q' < q {
      MulAtLeast(q - q', k);
    } else if q' > q {
      MulAtLeast(q' - q, k);
    }
  }

  lemma MulAtLeast(a: int, k: int)
    requires a >= 1 && k > 0
    ensures a * k >= k
  {
  }

  /** Adding a multiple of the divisor adds its quotient. */
  lemma DivAddMultiple(a: nat, b: nat, k: nat)
    requires k > 0
    ensures (a * k + b) / k == a + b / k
  {
    DivUnique(a * k + b, k, a + b / k, b % k);
  }

  /** When `k` divides one second, `StdDiv` loses nothing to the split into
      seconds and nanoseconds: it is floor division of the total. */
  lemma StdDivExact(d: Duration, k: nat)
    requires k > 0 && NANOS_PER_SEC % k == 0
    ensures StdDiv(d, k) == d / k
  {
    var secs := d / NANOS_PER_SEC;
    var nanos := d % NANOS_PER_SEC;
    var qsecs := secs / k;
    var carry := secs % k;
    var perSec := NANOS_PER_SEC / k;
    assert NANOS_PER_SEC == perSec * k;
    assert carry * NANOS_PER_SEC == (carry * perSec) * k;
    DivAddMultiple(carry * perSec, 0, k);
    assert carry * NANOS_PER_SEC / k == carry * perSec;
    assert secs == qsecs * k + carry;
    assert d == secs * NANOS_PER_SEC + nanos;
    assert d == (qsecs * NANOS_PER_SEC + carry * perSec) * k + nanos;
    DivAddMultiple(qsecs * NANOS_PER_SEC + carry * perSec, nanos, k);
  }
}
