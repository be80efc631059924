/**
 * Frame and time arithmetic of the element: frame count, total duration,
 * per-buffer duration and timestamps, and the conversion of a seek position
 * back into a frame number. Times are in nanoseconds.
 */
module Timing {

  /** `Gst.SECOND`: nanoseconds in one second. */
  const Second: nat := 1_000_000_000

  type Pos = n: int | n > 0 witness 1

  /** The element's frame rate, `num` frames every `denom` seconds. */
  datatype Fraction = Fraction(num: Pos, denom: Pos)

  /** The frame rate the element is created with; no property changes it. */
  const DefaultFramerate: Fraction := Fraction(1, 1)

  /** `count_frames`: frames in the inclusive range `[start, end]` (not positive for an empty range). */
  function CountFrames(start: nat, end: nat): (c: int)
    ensures c > 0 <==> start <= end
  {
    end - start + 1
  }

  /**
   * `calculate_duration`: `Gst.util_uint64_scale(SECOND * count, denom, num)`,
   * the exact length of the frame range rounded down to a nanosecond.
   */
  function CalculateDuration(start: nat, end: nat, fr: Fraction): (d: nat)
    requires start <= end
    ensures d * fr.num <= Second * CountFrames(start, end) * fr.denom < (d + 1) * fr.num
  {
    MulNonNeg(Second * CountFrames(start, end), fr.denom);
    Quot(Second * CountFrames(start, end) * fr.denom, fr.num)
  }

  /** The duration of one buffer, `SECOND * denom / num`: the exact frame period rounded down to a nanosecond. */
  function FrameDuration(fr: Fraction): (d: nat)
    ensures d * fr.num <= Second * fr.denom < (d + 1) * fr.num
  {
    MulNonNeg(Second, fr.denom);
    Quot(Second * fr.denom, fr.num)
  }

  /**
   * The presentation timestamp of the buffer `offset` frames after the start
   * frame: never later than the frame's exact start time, and equal to it
   * when a frame lasts a whole number of nanoseconds.
   */
  function Pts(offset: nat, fr: Fraction): (t: nat)
    ensures t * fr.num <= offset * Second * fr.denom
    ensures ExactFrameDuration(fr) ==> t * fr.num == offset * Second * fr.denom
  {
    var d := FrameDuration(fr);
    MulLeftMono(offset, d * fr.num, Second * fr.denom);
    assert offset * d * fr.num == offset * (d * fr.num);
    assert offset * Second * fr.denom == offset * (Second * fr.denom);
    ExactPeriod(fr);
    offset * d
  }

  /**
   * The frame a seek to `position` lands on: `start + position * num / (denom * SECOND)`,
   * rounded down; the frame whose time slot holds `position`.
   */
  function SeekIndex(start: nat, position: nat, fr: Fraction): (i: nat)
    ensures i >= start
  {
    MulNonNeg(position, fr.num);
    MulNonNeg(fr.denom, Second);
    start + Quot(position * fr.num, fr.denom * Second)
  }

  /** Division of naturals rounded down, as `util_uint64_scale` and the model of `/` do it. */
  function Quot(x: nat, n: Pos): (q: nat)
    ensures q * n <= x < (q + 1) * n
  {
    var q: int := x / n;
    FloorDiv(x, n);
    q
  }

  /** The frame rate's frame duration is a whole number of nanoseconds. */
  predicate ExactFrameDuration(fr: Fraction) {
    (Second * fr.denom) % fr.num == 0
  }

  // ---------------------------------------------------------------------------
  // Lemmas

  /** A seek lands on the frame whose time slot holds the position. */
  lemma SeekLandsInSlot(start: nat, position: nat, fr: Fraction)
    ensures var i := SeekIndex(start, position, fr);
      (i - start) * (fr.denom * Second) <= position * fr.num < (i - start + 1) * (fr.denom * Second)
  {
    FloorDiv(position * fr.num, fr.denom * Second);
  }

  /** Consecutive buffers are one frame duration apart. */
  lemma PtsSpacing(offset: nat, fr: Fraction)
    ensures Pts(offset + 1, fr) == Pts(offset, fr) + FrameDuration(fr)
  {
  }

  /**
   * The cached total duration is never shorter than the frames' buffer durations
   * added up, and equals it exactly when a frame lasts a whole number of nanoseconds.
   */
  lemma DurationCoversFrames(start: nat, end: nat, fr: Fraction)
    requires start <= end
    ensures CountFrames(start, end) * FrameDuration(fr) <= CalculateDuration(start, end, fr)
    ensures ExactFrameDuration(fr) ==> CalculateDuration(start, end, fr) == CountFrames(start, end) * FrameDuration(fr)
  {
    var c, d, t := CountFrames(start, end), FrameDuration(fr), CalculateDuration(start, end, fr);
    assert c * d * fr.num <= Second * c * fr.denom by {
      MulLeftMono(c, d * fr.num, Second * fr.denom);
      assert c * d * fr.num == c * (d * fr.num);
      assert Second * c * fr.denom == c * (Second * fr.denom);
    }
    FloorIsLargest(c * d, Second * c * fr.denom, fr.num, t);
    if ExactFrameDuration(fr) {
      assert d * fr.num == Second * fr.denom;
      assert Second * c * fr.denom == (c * d) * fr.num by {
        assert Second * c * fr.denom == c * (Second * fr.denom);
        assert (c * d) * fr.num == c * (d * fr.num);
      }
      QuotientOfMultiple(c * d, fr.num);
    }
  }

  /** Seeking to a buffer's timestamp moves the cursor back to the frame that produced it. */
  lemma SeekInvertsPts(start: nat, offset: nat, fr: Fraction)
    requires ExactFrameDuration(fr)
    ensures SeekIndex(start, Pts(offset, fr), fr) == start + offset
  {
    var d := FrameDuration(fr);
    assert d * fr.num == Second * fr.denom;
    assert Pts(offset, fr) * fr.num == offset * (fr.denom * Second) by {
      assert Pts(offset, fr) * fr.num == offset * (d * fr.num);
    }
    QuotientOfMultiple(offset, fr.denom * Second);
  }

  /** At a whole-nanosecond frame period the rounded-down buffer duration is exact. */
  lemma ExactPeriod(fr: Fraction)
    ensures ExactFrameDuration(fr) <==> FrameDuration(fr) * fr.num == Second * fr.denom
  {
    var x := Second * fr.denom;
    assert x == (x / fr.num) * fr.num + x % fr.num;
  }

  /** With the default frame rate every frame lasts exactly one second. */
  lemma DefaultFramerateIsExact()
    ensures ExactFrameDuration(DefaultFramerate)
    ensures FrameDuration(DefaultFramerate) == Second
  {
  }

  /** A product of naturals is a natural, and positive when both factors are. */
  lemma MulNonNeg(a: nat, b: nat)
    ensures a * b >= 0
    ensures a > 0 && b > 0 ==> a * b > 0
  {
    if a > 0 && b > 0 {
      MulLeftMono(a, 1, b);
    }
  }

  lemma MulLeftMono(c: nat, x: int, y: int)
    requires x <= y
    ensures c * x <= c * y
  {
  }

  /** Integer division rounds down: the quotient's multiple is the largest one not above the dividend. */
  lemma FloorDiv(x: nat, n: Pos)
    ensures (x / n) * n <= x < (x / n + 1) * n
  {
    assert x == (x / n) * n + x % n;
    assert (x / n + 1) * n == (x / n) * n + n;
  }

  /** The quotient is the only number whose multiples bracket the dividend. */
  lemma DivUnique(x: nat, n: Pos, q: nat)
    requires q * n <= x < (q + 1) * n
    ensures x / n == q
  {
    var p := x / n;
    FloorDiv(x, n);
    if p < q {
      MulRightMono(p + 1, q, n);
    } else if p > q {
      MulRightMono(q + 1, p, n);
    }
  }

  lemma MulRightMono(x: int, y: int, n: Pos)
    requires x <= y
    ensures x * n <= y * n
  {
  }

  /** A number whose product with `n` fits under `m` is at most `m / n`. */
  lemma FloorIsLargest(a: nat, m: nat, n: Pos, q: nat)
    requires a * n <= m
    requires q == m / n
    ensures a <= q
  {
    FloorDiv(m, n);
    if a > q {
      MulRightMono(q + 1, a, n);
    }
  }

  lemma QuotientOfMultiple(a: nat, n: Pos)
    ensures (a * n) / n == a
  {
    assert (a + 1) * n == a * n + n;
    DivUnique(a * n, n, a);
  }
}
