/** Round-trip-time estimation for one path: the smoothed estimator of
    section 2 of RFC 6298 (alpha = 1/8, beta = 1/4), with the peer's
    reported ack delay removed from a sample only when that leaves the
    sample above the minimum seen so far, in the manner of section 5.3 of
    RFC 9002. */
module Rtt {
  import opened Wrappers
  import opened Durations

  /** The floor a fresh estimator starts from: `u64::MAX` whole seconds,
      so that the first sample always lowers it. */
  const INITIAL_MIN: Duration := U64_MAX * NANOS_PER_SEC

  /** `latest` is the last sample after ack-delay adjustment, `smoothed`
      is absent until the first sample, `variance` is the RTT variance and
      `min` the smallest raw sample, ack delay ignored. */
  datatype RttEstimator = RttEstimator(
    latest: Duration,
    smoothed: Option<Duration>,
    variance: Duration,
    min: Duration)

  /** An acknowledgment's contribution: the delay the peer reports and the
      measured round trip. */
  datatype Sample = Sample(ackDelay: Duration, rtt: Duration)

  /** `RttEstimator::new`: no sample yet, zero latest and variance, and a
      floor that every sample it can meet lowers to that sample. */
  function New(): (r: RttEstimator)
    ensures r.smoothed.None? && r.latest == 0 && r.variance == 0
    ensures forall d: Duration :: d <= INITIAL_MIN ==> Min(r.min, d) == d
  {
    RttEstimator(0, None, 0, INITIAL_MIN)
  }

  /** `x` lies between `a` and `b`, whichever of them is smaller. */
  predicate Between(x: int, a: int, b: int) {
    (a <= x <= b) || (b <= x <= a)
  }

  /** `|a - b|` */
  function AbsDiff(a: Duration, b: Duration): (r: Duration)
    ensures r + Min(a, b) == Max(a, b)
  {
    if a > b then a - b else b - a
  }

  /** What every estimator built by `New` and `Update` satisfies: a fresh
      one is untouched, and once a sample exists neither the latest nor the
      smoothed value lies below the floor. */
  predicate Valid(r: RttEstimator) {
    && (r.smoothed.None? ==> r == New())
    && (r.smoothed.Some? ==> r.min <= r.latest && r.min <= r.smoothed.value)
  }

  /** `RttEstimator::update`. The two subtractions are checked by the
      verifier: `rtt - min` because `min` was just lowered to at most
      `rtt`, `rtt - ackDelay` because it is taken only when `ackDelay` is
      below `rtt - min`. */
  function Update(r: RttEstimator, ackDelay: Duration, rtt: Duration): (r': RttEstimator)
    // the floor ignores ack delay and never rises
    ensures r'.min == Min(r.min, rtt)
    ensures r'.min <= r.min
    // the ack delay is removed exactly when the result stays above the floor
    ensures || (r'.latest + ackDelay == rtt && r'.min < r'.latest)
            || (r'.latest == rtt && rtt <= r'.min + ackDelay)
    ensures r'.min <= r'.latest <= rtt
    ensures r'.smoothed.Some?
    // the first sample is taken as it is
    ensures r.smoothed.None? ==>
              && r'.smoothed == Some(r'.latest)
              && 2 * r'.variance <= r'.latest < 2 * r'.variance + 2
    // later samples: RFC 6298 section 2.3, rounded down
    ensures r.smoothed.Some? ==>
              var s, s' := r.smoothed.value, r'.smoothed.value;
              && 8 * s' <= 7 * s + r'.latest < 8 * s' + 8
              && 4 * r'.variance <= 3 * r.variance + AbsDiff(s, r'.latest) < 4 * r'.variance + 4
              && Between(s', s, r'.latest)
              && Between(r'.variance, r.variance, AbsDiff(s, r'.latest))
  {
    var latest := rtt;
    var min := Min(r.min, latest);
    var excess: Duration := latest - min;
    var latest: Duration := if excess > ackDelay then latest - ackDelay else latest;
    match r.smoothed
    case Some(smoothed) =>
      var varSample: Duration := if smoothed > latest then smoothed - latest else latest - smoothed;
      StdDivExact(3 * r.variance + varSample, 4);
      StdDivExact(7 * smoothed + latest, 8);
      RttEstimator(latest, Some(StdDiv(7 * smoothed + latest, 8)), StdDiv(3 * r.variance + varSample, 4), min)
    case None =>
      StdDivExact(latest, 2);
      RttEstimator(latest, Some(latest), StdDiv(latest, 2), min)
  }

  /** `RttEstimator::get`: the larger of the smoothed and the latest value,
      so never below the latest sample. */
  function Get(r: RttEstimator): (g: Duration)
    ensures g >= r.latest
    ensures r.smoothed.Some? ==> g >= r.smoothed.value
    ensures g == r.latest || (r.smoothed.Some? && g == r.smoothed.value)
  {
    match r.smoothed
    case None => r.latest
    case Some(x) => Max(x, r.latest)
  }

  /** `RttEstimator::pto_base`: `srtt + max(4 * rttvar, G)` once a sample
      exists, where `granularity` is the system timer granularity G. */
  function PtoBase(r: RttEstimator, granularity: Duration): (p: Option<Duration>)
    ensures p.Some? <==> r.smoothed.Some?
    ensures p.Some? ==>
              && p.value >= r.smoothed.value + granularity
              && p.value >= r.smoothed.value + 4 * r.variance
              && (p.value == r.smoothed.value + granularity || p.value == r.smoothed.value + 4 * r.variance)
  {
    match r.smoothed
    case None => None
    case Some(srtt) => Some(srtt + Max(4 * r.variance, granularity))
  }

  /** The estimator after feeding it `samples` in order. */
  function Replay(r: RttEstimator, samples: seq<Sample>): RttEstimator
    decreases |samples|
  {
    if |samples| == 0 then r
    else Replay(Update(r, samples[0].ackDelay, samples[0].rtt), samples[1..])
  }

  /** A fresh estimator satisfies the invariant. */
  lemma NewValid()
    ensures Valid(New())
  {
  }

  /** Every update preserves the invariant. */
  lemma UpdateValid(r: RttEstimator, ackDelay: Duration, rtt: Duration)
    requires Valid(r)
    ensures Valid(Update(r, ackDelay, rtt))
  {
  }

  lemma {:induction false} ReplayValid(r: RttEstimator, samples: seq<Sample>)
    requires Valid(r)
    ensures Valid(Replay(r, samples))
    decreases |samples|
  {
    if |samples| > 0 {
      UpdateValid(r, samples[0].ackDelay, samples[0].rtt);
      ReplayValid(Update(r, samples[0].ackDelay, samples[0].rtt), samples[1..]);
    }
  }

  /** Feeding two runs of samples is feeding their concatenation. */
  lemma {:induction false} ReplayAppend(r: RttEstimator, xs: seq<Sample>, ys: seq<Sample>)
    ensures Replay(r, xs + ys) == Replay(Replay(r, xs), ys)
    decreases |xs|
  {
    if |xs| > 0 {
      assert (xs + ys)[0] == xs[0];
      assert (xs + ys)[1..] == xs[1..] + ys;
      ReplayAppend(Update(r, xs[0].ackDelay, xs[0].rtt), xs[1..], ys);
    } else {
      assert xs + ys == ys;
    }
  }

  /** `smoothed` is absent exactly until the first sample. */
  lemma {:induction false} ReplaySmoothed(r: RttEstimator, samples: seq<Sample>)
    ensures Replay(r, samples).smoothed.None? <==> r.smoothed.None? && |samples| == 0
    decreases |samples|
  {
    if |samples| > 0 {
      ReplaySmoothed(Update(r, samples[0].ackDelay, samples[0].rtt), samples[1..]);
    }
  }

  /** The floor is the smallest of the starting floor and every raw sample. */
  lemma {:induction false} ReplayMin(r: RttEstimator, samples: seq<Sample>)
    ensures Replay(r, samples).min <= r.min
    ensures forall i :: 0 <= i < |samples| ==> Replay(r, samples).min <= samples[i].rtt
    ensures Replay(r, samples).min == r.min
            || exists i :: 0 <= i < |samples| && Replay(r, samples).min == samples[i].rtt
    decreases |samples|
  {
    if |samples| > 0 {
      var r1 := Update(r, samples[0].ackDelay, samples[0].rtt);
      var m := Replay(r, samples).min;
      ReplayMin(r1, samples[1..]);
      assert m == Replay(r1, samples[1..]).min;
      forall i | 0 <= i < |samples|
        ensures m <= samples[i].rtt
      {
        if i > 0 {
          assert samples[1..][i - 1] == samples[i];
        }
      }
      if m != r.min && m != r1.min {
        var j :| 0 <= j < |samples[1..]| && m == samples[1..][j].rtt;
        assert m == samples[j + 1].rtt;
      }
    }
  }

  /** The floor never rises: a longer run of samples ends at a floor no
      higher than any prefix of it. */
  lemma MinNonIncreasing(r: RttEstimator, xs: seq<Sample>, ys: seq<Sample>)
    ensures Replay(r, xs + ys).min <= Replay(r, xs).min
  {
    ReplayAppend(r, xs, ys);
    ReplayMin(Replay(r, xs), ys);
  }

  /** The first sample on a fresh estimator becomes the smoothed value and
      the floor unchanged, whatever ack delay the peer claims, as long as it
      is below the initial floor of `u64::MAX` seconds. */
  lemma FirstSample(ackDelay: Duration, rtt: Duration)
    requires rtt <= INITIAL_MIN
    ensures Update(New(), ackDelay, rtt) == RttEstimator(rtt, Some(rtt), rtt / 2, rtt)
  {
  }

  /** Smoothed 100 ms, variance 20 ms, floor 100 ms, then a 140 ms sample
      with no ack delay: the variance becomes (3 * 20 + 40) / 4 = 25 ms and
      the smoothed value (7 * 100 + 140) / 8 = 105 ms. */
  lemma SecondSampleExample()
    ensures var ms := 1_000_000;
            var r := RttEstimator(100 * ms, Some(100 * ms), 20 * ms, 100 * ms);
            Update(r, 0, 140 * ms) == RttEstimator(140 * ms, Some(105 * ms), 25 * ms, 100 * ms)
  {
  }
}
