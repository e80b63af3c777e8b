/**
  The bitrate adapter: down by a fifth while the buffer is low, up by a fifth while it is well filled
  and the network is fast, truncated to whole numbers at every step.
 */
module Bitrate {
  import opened Arith

  datatype Limits = Limits(min: int, max: int, bufferSize: int)

  datatype Sample = Sample(speed: real, level: int)

  /** Go's conversion to an integer, which truncates toward zero. */
  function Truncate(x: real): int {
    if x >= 0.0 then x.Floor else -(-x).Floor
  }

  function Higher(a: real, b: real): real { if a >= b then a else b }

  function Lower(a: real, b: real): real { if a <= b then a else b }

  predicate Low(l: Limits, s: Sample) {
    s.level < Quotient(l.bufferSize, 2)
  }

  predicate Filled(l: Limits, s: Sample) {
    !Low(l, s) && s.level > Quotient(l.bufferSize * 3, 4)
  }

  /** The bitrate after a sample. */
  function Adapt(l: Limits, current: int, s: Sample): int {
    if Low(l, s) then Truncate(Higher(l.min as real, current as real * 0.8))
    else if Filled(l, s) && s.speed > current as real * 1.5 then
      Truncate(Lower(l.max as real, current as real * 1.2))
    else current
  }

  function Run(l: Limits, current: int, samples: seq<Sample>): int {
    if samples == [] then current
    else Adapt(l, Run(l, current, samples[..|samples| - 1]), samples[|samples| - 1])
  }

  predicate InRange(l: Limits, current: int) {
    l.min <= current <= l.max
  }

  // ---- one step in whole numbers -------------------------------------------------------------

  lemma TruncateOf(x: real, n: int)
    requires n as real <= x < n as real + 1.0 && n >= 0
    ensures Truncate(x) == n
  {
  }

  lemma StepDown(l: Limits, current: int, s: Sample)
    requires Low(l, s) && current >= 0
    ensures Adapt(l, current, s) == if 4 * current / 5 >= l.min then 4 * current / 5 else l.min
  {
    var n := 4 * current / 5;
    assert 5 * n <= 4 * current <= 5 * n + 4;
    TruncateOf(current as real * 0.8, n);
  }

  lemma StepUp(l: Limits, current: int, s: Sample)
    requires Filled(l, s) && s.speed > current as real * 1.5 && current >= 0 && l.max >= 0
    ensures Adapt(l, current, s) == if 6 * current / 5 <= l.max then 6 * current / 5 else l.max
  {
    var n := 6 * current / 5;
    assert 5 * n <= 6 * current <= 5 * n + 4;
    TruncateOf(current as real * 1.2, n);
  }

  /** A step in plain whole numbers, for a bitrate and limits that are not negative: below half of the
      buffer a fifth comes off, above three quarters, when the network is half as fast again as the
      bitrate, a fifth goes on, both cut off at the limits; otherwise nothing changes. */
  lemma StepInPlainTerms(l: Limits, current: int, s: Sample)
    requires current >= 0 && l.max >= 0 && l.bufferSize >= 0
    ensures Adapt(l, current, s) ==
            if 2 * (s.level + 1) <= l.bufferSize then if 4 * current / 5 >= l.min then 4 * current / 5 else l.min
            else if 4 * s.level > 3 * l.bufferSize && 2.0 * s.speed > 3.0 * current as real then
              if 6 * current / 5 <= l.max then 6 * current / 5 else l.max
            else current
  {
    Thresholds(l, s);
    if Low(l, s) {
      StepDown(l, current, s);
    } else if Filled(l, s) && s.speed > current as real * 1.5 {
      StepUp(l, current, s);
    }
    hide Low, Filled;
  }

  /** Half and three quarters of the buffer, without division. */
  lemma Thresholds(l: Limits, s: Sample)
    requires l.bufferSize >= 0
    ensures Low(l, s) <==> 2 * (s.level + 1) <= l.bufferSize
    ensures Filled(l, s) <==> 4 * s.level > 3 * l.bufferSize
  {
    QuotientTruncates(l.bufferSize, 2);
    QuotientTruncates(l.bufferSize * 3, 4);
  }

  // ---- staying in range ----------------------------------------------------------------------

  ghost predicate KeepsRange(l: Limits) {
    forall current, s :: InRange(l, current) ==> InRange(l, Adapt(l, current, s))
  }

  /** Rounding toward zero keeps the bitrate within its limits exactly when the upper one is not
      negative and the lower one is at least -4. */
  lemma RangeIsKept(l: Limits)
    requires l.min <= l.max
    ensures KeepsRange(l) <==> l.max >= 0 && l.min >= -4
  {
    if l.max >= 0 && l.min >= -4 {
      forall current, s | InRange(l, current) ensures InRange(l, Adapt(l, current, s)) {
        OneStepInRange(l, current, s);
      }
    } else if l.max < 0 {
      var s := Sample(0.0, Quotient(l.bufferSize, 2) - 1);
      NegativeRises(l, s);
      assert !InRange(l, Adapt(l, l.max, s));
    } else {
      var s := HighSample(l, l.min);
      NegativeFalls(l, s);
      assert !InRange(l, Adapt(l, l.min, s));
    }
  }

  function HighSample(l: Limits, current: int): (s: Sample)
    ensures Filled(l, s) && s.speed > current as real * 1.5
  {
    var half, most := Quotient(l.bufferSize, 2), Quotient(l.bufferSize * 3, 4);
    Sample(current as real * 1.5 + 1.0, if half > most then half else most + 1)
  }

  lemma OneStepInRange(l: Limits, current: int, s: Sample)
    requires l.max >= 0 && l.min >= -4 && InRange(l, current)
    ensures InRange(l, Adapt(l, current, s))
  {
    if current >= 0 {
      if Low(l, s) {
        StepDown(l, current, s);
      } else if Filled(l, s) && s.speed > current as real * 1.5 {
        StepUp(l, current, s);
      }
    }
  }

  lemma NegativeRises(l: Limits, s: Sample)
    requires l.min <= l.max < 0 && Low(l, s)
    ensures Adapt(l, l.max, s) > l.max
  {
  }

  lemma NegativeFalls(l: Limits, s: Sample)
    requires l.min < -4 && l.max >= 0 && Filled(l, s) && s.speed > l.min as real * 1.5
    ensures Adapt(l, l.min, s) < l.min
  {
  }

  /** Over all runs the bitrate stays within its limits. */
  lemma {:induction false} StaysInRange(l: Limits, current: int, samples: seq<Sample>)
    requires l.max >= 0 && l.min >= -4 && InRange(l, current)
    ensures InRange(l, Run(l, current, samples))
  {
    if samples != [] {
      StaysInRange(l, current, samples[..|samples| - 1]);
      OneStepInRange(l, Run(l, current, samples[..|samples| - 1]), samples[|samples| - 1]);
    }
  }

  // ---- converging ----------------------------------------------------------------------------

  function Pow(b: nat, k: nat): nat {
    if k == 0 then 1 else b * Pow(b, k - 1)
  }

  /** Where the bitrate goes while the buffer stays low. */
  function Bottom(l: Limits): nat {
    if l.min < 0 then 0 else l.min
  }

  /** While the buffer stays low, the bitrate is at the bottom or has fallen by a fifth at each step. */
  lemma {:induction false} LowFalls(l: Limits, current: int, samples: seq<Sample>)
    requires Bottom(l) <= current && forall s | s in samples :: Low(l, s)
    ensures var r, k := Run(l, current, samples), |samples|;
            && Bottom(l) <= r <= current
            && (r == Bottom(l) || (r * Pow(5, k) <= current * Pow(4, k) && r <= current - k))
  {
    var k := |samples|;
    if k > 0 {
      var before := Run(l, current, samples[..k - 1]);
      LowFalls(l, current, samples[..k - 1]);
      StepDown(l, before, samples[k - 1]);
      var r := Adapt(l, before, samples[k - 1]);
      if r != Bottom(l) {
        assert 5 * r <= 4 * before;
        Times(5 * r, 4 * before, Pow(5, k - 1));
        Rearrange(r, before, current, Pow(5, k - 1), Pow(4, k - 1));
      }
    }
  }

  lemma Times(a: int, b: int, n: nat)
    requires a <= b
    ensures a * n <= b * n
  {
  }

  lemma Rearrange(r: int, before: int, current: int, five: nat, four: nat)
    requires 5 * r * five <= 4 * before * five && before * five <= current * four
    ensures r * (5 * five) <= current * (4 * four)
  {
    assert r * (5 * five) == 5 * r * five;
    assert 4 * before * five == 4 * (before * five);
    assert current * (4 * four) == 4 * (current * four);
  }

  /** A persistently low buffer reaches the minimum: after k steps with current * (4/5)^k below one
      more than it, and in any case after as many steps as there are bitrates between. */
  lemma {:induction false} LowReachesMin(l: Limits, current: int, samples: seq<Sample>)
    requires 0 <= l.min <= current && forall s | s in samples :: Low(l, s)
    requires var k := |samples|; current * Pow(4, k) < (l.min + 1) * Pow(5, k) || k >= current - l.min
    ensures Run(l, current, samples) == l.min
  {
    LowFalls(l, current, samples);
    var r, k := Run(l, current, samples), |samples|;
    if r > l.min {
      Times(l.min + 1, r, Pow(5, k));
    }
  }

  /** A sample with a filled buffer and a network faster than any bitrate needs. */
  predicate Fast(l: Limits, s: Sample) {
    Filled(l, s) && s.speed > l.max as real * 1.5
  }

  /** While the buffer stays filled and the network fast, the bitrate is at the maximum, or its distance
      from 4 has grown by a fifth at each step. */
  lemma {:induction false} HighRises(l: Limits, current: int, samples: seq<Sample>)
    requires 5 <= current <= l.max && forall s | s in samples :: Fast(l, s)
    ensures var r, k := Run(l, current, samples), |samples|;
            && current <= r <= l.max
            && (r == l.max || ((r - 4) * Pow(5, k) >= (current - 4) * Pow(6, k) && r >= current + k))
  {
    var k := |samples|;
    if k > 0 {
      var before := Run(l, current, samples[..k - 1]);
      HighRises(l, current, samples[..k - 1]);
      assert samples[k - 1] in samples && Fast(l, samples[k - 1]);
      StepUp(l, before, samples[k - 1]);
      var r := Adapt(l, before, samples[k - 1]);
      if r != l.max {
        assert 5 * (r - 4) >= 6 * (before - 4);
        Times(6 * (before - 4), 5 * (r - 4), Pow(5, k - 1));
        RearrangeUp(r - 4, before - 4, current - 4, Pow(5, k - 1), Pow(6, k - 1));
      }
    }
  }

  lemma RearrangeUp(r: int, before: int, current: int, five: nat, six: nat)
    requires 5 * r * five >= 6 * before * five && before * five >= current * six
    ensures r * (5 * five) >= current * (6 * six)
  {
    assert r * (5 * five) == 5 * r * five;
    assert 6 * before * five == 6 * (before * five);
    assert current * (6 * six) == 6 * (current * six);
  }

  /** A bitrate below 5 never rises: a fifth of it is cut off again. */
  lemma {:induction false} StuckBelowFive(l: Limits, current: int, samples: seq<Sample>)
    requires 0 <= current < 5 && current <= l.max && forall s | s in samples :: Fast(l, s)
    ensures Run(l, current, samples) == current
  {
    if samples != [] {
      StuckBelowFive(l, current, samples[..|samples| - 1]);
      assert samples[|samples| - 1] in samples && Fast(l, samples[|samples| - 1]);
      StepUp(l, current, samples[|samples| - 1]);
    }
  }

  /** A persistently filled buffer and fast network reach the maximum exactly from a bitrate of 5 or
      more, or from the maximum itself: after k steps with (current - 4) * (6/5)^k at least max - 4,
      and in any case after as many steps as there are bitrates between. */
  lemma {:induction false} HighReachesMax(l: Limits, current: int, samples: seq<Sample>)
    requires 0 <= current <= l.max && forall s | s in samples :: Fast(l, s)
    requires var k := |samples|; (current - 4) * Pow(6, k) >= (l.max - 4) * Pow(5, k) || k >= l.max - current
    ensures Run(l, current, samples) == l.max <==> current >= 5 || current == l.max
  {
    if current < 5 {
      StuckBelowFive(l, current, samples);
    } else {
      HighRises(l, current, samples);
      var r, k := Run(l, current, samples), |samples|;
      if r < l.max {
        PowPositive(5, k);
        StrictTimes(r - 4, l.max - 4, Pow(5, k));
      }
    }
  }

  lemma {:induction false} PowPositive(b: nat, k: nat)
    requires b > 0
    ensures Pow(b, k) > 0
  {
    if k > 0 {
      PowPositive(b, k - 1);
    }
  }

  lemma StrictTimes(a: int, b: int, n: nat)
    requires a < b && n > 0
    ensures a * n < b * n
  {
  }

  // ---- the adapter ---------------------------------------------------------------------------

  class BitrateAdapter {
    const limits: Limits
    var currentBitrate: int

    constructor (minBitrate: int, maxBitrate: int, bufferSize: int)
      ensures limits == Limits(minBitrate, maxBitrate, bufferSize) && currentBitrate == minBitrate
    {
      limits := Limits(minBitrate, maxBitrate, bufferSize);
      currentBitrate := minBitrate;
    }

    method AdaptBitrate(downloadSpeed: real, bufferLevel: int) returns (bitrate: int)
      modifies this
      ensures currentBitrate == Adapt(limits, old(currentBitrate), Sample(downloadSpeed, bufferLevel)) == bitrate
    {
      if bufferLevel < Quotient(limits.bufferSize, 2) {
        currentBitrate := Truncate(Higher(limits.min as real, currentBitrate as real * 0.8));
      } else if bufferLevel > Quotient(limits.bufferSize * 3, 4) && downloadSpeed > currentBitrate as real * 1.5 {
        currentBitrate := Truncate(Lower(limits.max as real, currentBitrate as real * 1.2));
      }
      bitrate := currentBitrate;
    }
  }
}
