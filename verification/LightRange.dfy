/** Standalone light ranges: validated 16-bit grids, snapping, and percentages. */
module LightRange {
  import opened Arithmetic
  import opened Machine
  import opened Wrappers

  function SaturatingAdd(a: U16, b: U16): U16 { if a + b <= U16_MAX then a + b else U16_MAX }
  function SaturatingMul(a: U16, b: U16): U16 { if a * b <= U16_MAX then a * b else U16_MAX }
  function Min(a: U16, b: U16): U16 { if a <= b then a else b }
  function Clamp(v: U16, lo: U16, hi: U16): U16 { if v < lo then lo else if v > hi then hi else v }

  datatype Unit = Percent | Lumens | Kelvin

  datatype Range = Range(min: U16, max: U16, step: U16, unit: Unit)

  datatype RangeError = Reversed | ZeroStep | Unaligned | PercentOutOfBounds

  function New(min: U16, max: U16, step: U16, unit: Unit): Result<Range, RangeError> {
    if min > max then Err(Reversed)
    else if step == 0 then Err(ZeroStep)
    else if (max - min) % step != 0 then Err(Unaligned)
    else if unit.Percent? && max > 100 then Err(PercentOutOfBounds)
    else Ok(Range(min, max, step, unit))
  }

  /** What the constructor lets through. */
  predicate Valid(r: Range) { New(r.min, r.max, r.step, r.unit).Ok? }

  predicate Contains(r: Range, v: U16) {
    v >= r.min && v <= r.max && r.step != 0 && (v - r.min) % r.step == 0
  }

  function Quantize(r: Range, v: U16): U16
    requires Valid(r)
  {
    var offset := Clamp(v, r.min, r.max) - r.min;
    var lower, remainder := offset / r.step, offset % r.step;
    QuotientFits(offset, r.step);
    var index := if SaturatingMul(remainder, 2) >= r.step then SaturatingAdd(lower, 1) else lower;
    Min(SaturatingAdd(r.min, SaturatingMul(index, r.step)), r.max)
  }

  function NativeForPercent(r: Range, percent: U8): Option<U16>
    requires Valid(r)
  {
    if percent > 100 then None
    else
      MulNonNegative(r.max - r.min, percent);
      var raw := r.min + ((r.max - r.min) * percent + 50) / 100;
      if raw <= U16_MAX then Some(Quantize(r, raw)) else None
  }

  function PercentForNative(r: Range, v: U16): Option<U8>
    requires Valid(r)
  {
    if !Contains(r, v) then None
    else
      var span := r.max - r.min;
      if span == 0 then Some(0)
      else
        Divide((v - r.min) * 100 + span / 2, span);
        var percent := ((v - r.min) * 100 + span / 2) / span;
        if percent <= 255 then Some(percent) else None
  }

  // ---------------------------------------------------------------------
  // Snapping
  // ---------------------------------------------------------------------

  /** The grid point of index `k`. */
  function Point(r: Range, k: nat): nat { r.min + k * r.step }

  function Steps(r: Range): nat
    requires r.min <= r.max && r.step > 0
  {
    (r.max - r.min) / r.step
  }

  lemma LastPoint(r: Range)
    requires Valid(r)
    ensures Point(r, Steps(r)) == r.max
  {
    Divide(r.max - r.min, r.step);
  }

  /** A range is accepted exactly when its end is whole positive steps from its start, and percentages stop at 100. */
  lemma AcceptedExactly(min: U16, max: U16, step: U16, unit: Unit)
    ensures New(min, max, step, unit).Ok?
            <==> && step > 0
                 && (exists k: nat :: max == Point(Range(min, max, step, unit), k))
                 && (unit.Percent? ==> max <= 100)
  {
    var r := Range(min, max, step, unit);
    if New(min, max, step, unit).Ok? {
      LastPoint(r);
    } else if step > 0 {
      if k: nat :| max == Point(r, k) {
        MulNonNegative(k, step);
        QuotientIs(k * step, step, k);
      }
    }
  }

  lemma PointsAscend(r: Range, j: nat, k: nat)
    ensures j < k ==> Point(r, j) + r.step <= Point(r, k)
    ensures j <= k ==> Point(r, j) <= Point(r, k)
  {
    if j < k {
      MulStep(j, k, r.step);
    }
  }

  /** The grid points are exactly the values the range contains. */
  lemma ContainsExactly(r: Range, v: U16)
    requires Valid(r)
    ensures Contains(r, v) <==> exists k :: 0 <= k <= Steps(r) && v == Point(r, k)
  {
    if Contains(r, v) {
      ContainedIsAPoint(r, v);
    }
    if k :| 0 <= k <= Steps(r) && v == Point(r, k) {
      PointIsContained(r, k);
    }
  }

  lemma ContainedIsAPoint(r: Range, v: U16)
    requires Valid(r) && Contains(r, v)
    ensures 0 <= (v - r.min) / r.step <= Steps(r) && v == Point(r, (v - r.min) / r.step)
  {
    var k := (v - r.min) / r.step;
    LastPoint(r);
    Divide(v - r.min, r.step);
    if k > Steps(r) {
      PointsAscend(r, Steps(r), k);
    }
  }

  lemma PointIsContained(r: Range, k: nat)
    requires Valid(r) && k <= Steps(r)
    ensures Point(r, k) <= U16_MAX && Contains(r, Point(r, k))
  {
    LastPoint(r);
    PointsAscend(r, k, Steps(r));
    MulNonNegative(k, r.step);
    QuotientIs(k * r.step, r.step, k);
  }

  /** `v`, brought into the range, lies within half a step of point `k`; halfway counts from below. */
  predicate NearPoint(r: Range, v: U16, k: nat) {
    var c := Clamp(v, r.min, r.max);
    2 * Point(r, k) <= 2 * c + r.step && 2 * c < 2 * Point(r, k) + r.step
  }

  /** Rounding a quotient half up finds the multiple the offset is near. */
  lemma NearestQuotient(offset: nat, s: nat, k: nat)
    requires s > 0 && 2 * (k * s) <= 2 * offset + s && 2 * offset < 2 * (k * s) + s
    ensures k == if 2 * (offset % s) >= s then offset / s + 1 else offset / s
  {
    if offset >= k * s {
      QuotientIs(offset, s, k);
    } else {
      MulMinus(k, 1, s);
      QuotientIs(offset, s, k - 1);
    }
  }

  lemma QuantizeTo(r: Range, v: U16, k: nat)
    requires Valid(r) && k <= Steps(r) && NearPoint(r, v, k)
    ensures Quantize(r, v) == Point(r, k)
  {
    LastPoint(r);
    PointsAscend(r, k, Steps(r));
    var offset := Clamp(v, r.min, r.max) - r.min;
    Divide(offset, r.step);
    QuotientFits(r.max - r.min, r.step);
    NearestQuotient(offset, r.step, k);
    assert k * r.step == Point(r, k) - r.min;
  }

  lemma NearestIndex(r: Range, v: U16) returns (k: nat)
    requires Valid(r)
    ensures k <= Steps(r) && NearPoint(r, v, k)
  {
    LastPoint(r);
    var offset := Clamp(v, r.min, r.max) - r.min;
    Divide(offset, r.step);
    k := offset / r.step;
    if 2 * (offset % r.step) >= r.step {
      k := k + 1;
      MulMinus(k, 1, r.step);
    }
    if k > Steps(r) {
      PointsAscend(r, Steps(r), k);
    }
  }

  function Distance(a: nat, b: nat): nat { if a <= b then b - a else a - b }

  lemma NearPointIsNearest(r: Range, v: U16, k: nat, j: nat)
    requires Valid(r) && k <= Steps(r) && j <= Steps(r) && NearPoint(r, v, k)
    ensures Distance(v, Point(r, k)) <= Distance(v, Point(r, j))
    ensures Distance(v, Point(r, k)) == Distance(v, Point(r, j)) ==> Point(r, j) <= Point(r, k)
  {
    LastPoint(r);
    PointsAscend(r, k, Steps(r));
    PointsAscend(r, j, Steps(r));
    PointsAscend(r, j, k);
    PointsAscend(r, k, j);
  }

  /** Snapping yields a supported value, and no supported value is nearer; ties go up. */
  lemma QuantizeIsNearest(r: Range, v: U16, g: U16)
    requires Valid(r) && Contains(r, g)
    ensures Contains(r, Quantize(r, v))
    ensures Distance(v, Quantize(r, v)) <= Distance(v, g)
    ensures Distance(v, Quantize(r, v)) == Distance(v, g) ==> g <= Quantize(r, v)
  {
    var k := NearestIndex(r, v);
    QuantizeTo(r, v, k);
    LastPoint(r);
    PointsAscend(r, k, Steps(r));
    ContainsExactly(r, Point(r, k));
    ContainsExactly(r, g);
    var j: nat :| j <= Steps(r) && g == Point(r, j);
    NearPointIsNearest(r, v, k, j);
  }

  lemma NearOrdered(x: int, y: int, c: int, d: int, s: int)
    requires 2 * x <= 2 * c + s && c <= d && 2 * d < 2 * y + s && (x <= y || y + s <= x)
    ensures x <= y
  {}

  lemma NearPointsOrdered(r: Range, v: U16, w: U16, j: nat, k: nat)
    requires r.min <= r.max && r.step > 0 && v <= w && NearPoint(r, v, j) && NearPoint(r, w, k)
    ensures Point(r, j) <= Point(r, k)
  {
    PointsAscend(r, k, j);
    PointsAscend(r, j, k);
    NearOrdered(Point(r, j), Point(r, k), Clamp(v, r.min, r.max), Clamp(w, r.min, r.max), r.step);
  }

  /** Snapping keeps order. */
  lemma QuantizeMonotone(r: Range, v: U16, w: U16)
    requires Valid(r) && v <= w
    ensures Quantize(r, v) <= Quantize(r, w)
  {
    var j := NearestIndex(r, v);
    var k := NearestIndex(r, w);
    QuantizeTo(r, v, j);
    QuantizeTo(r, w, k);
    NearPointsOrdered(r, v, w, j, k);
  }

  /** The supported values are exactly the ones snapping leaves alone, so it snaps once. */
  lemma QuantizeIdempotent(r: Range, v: U16)
    requires Valid(r)
    ensures Contains(r, v) <==> Quantize(r, v) == v
    ensures Quantize(r, Quantize(r, v)) == Quantize(r, v)
  {
    assert Contains(r, r.min);
    QuantizeIsNearest(r, v, r.min);
    QuantizeIsNearest(r, Quantize(r, v), Quantize(r, v));
    if Contains(r, v) {
      QuantizeIsNearest(r, v, v);
    }
  }

  // ---------------------------------------------------------------------
  // Percent round trips
  // ---------------------------------------------------------------------

  /** `e` is at most half of `n` in size. */
  predicate HalfWithin(e: int, n: nat) { 0 <= n + 2 * e && 2 * e <= n }

  lemma MissTimesStep(n: int, p: int, k: int, s: int)
    ensures (n * p - 100 * k) * s == p * (n * s) - (k * s) * 100
  {
    MulSwap(p, n, s);
    MulMinus(n * p, 100 * k, s);
    assert (100 * k) * s == (k * s) * 100;
  }

  lemma HalfCancels(e: int, n: nat, s: nat)
    requires s > 0 && 0 <= n * s + 2 * (e * s) && 2 * (e * s) <= n * s
    ensures HalfWithin(e, n)
  {
    assert (2 * e) * s == 2 * (e * s);
    assert (0 - n) * s == 0 - n * s;
    MulCancel(2 * e, n, s);
    MulCancel(0 - n, 2 * e, s);
  }

  /** `p` is what rounding `100 * k / n` to a whole number gives, half up, computed on multiples of `s`. */
  lemma RoundedRatio(k: nat, n: nat, s: nat, span: nat, p: nat)
    requires s > 0 && n > 0 && k <= n && span == n * s && span > 0
    requires p == ((k * s) * 100 + span / 2) / span
    ensures HalfWithin(n * p - 100 * k, n)
  {
    MulNonNegative(k, s);
    Divide((k * s) * 100 + span / 2, span);
    MissTimesStep(n, p, k, s);
    HalfCancels(n * p - 100 * k, n, s);
  }

  lemma PercentBounded(k: nat, n: nat, p: nat)
    requires n > 0 && k <= n && HalfWithin(n * p - 100 * k, n)
    ensures p <= 100
    ensures k == 0 ==> p == 0
    ensures k == n ==> p == 100
  {
    if p > 100 {
      MulStep(100, p, n);
    }
    if k == n && p < 100 {
      MulStep(p, 100, n);
    }
    if k == 0 && p > 0 {
      MulStep(0, p, n);
    }
  }

  /** The rounded percentage of grid point `k`. */
  function PercentAt(r: Range, k: nat): nat
    requires r.min < r.max
  {
    MulNonNegative(k, r.step);
    ((k * r.step) * 100 + (r.max - r.min) / 2) / (r.max - r.min)
  }

  lemma PercentAtBounds(r: Range, k: nat)
    requires Valid(r) && r.min < r.max && k <= Steps(r)
    ensures Steps(r) > 0
    ensures var p := PercentAt(r, k);
            && HalfWithin(Steps(r) * p - 100 * k, Steps(r)) && p <= 100
            && (k == 0 ==> p == 0) && (k == Steps(r) ==> p == 100)
  {
    LastPoint(r);
    var n := Steps(r);
    RoundedRatio(k, n, r.step, r.max - r.min, PercentAt(r, k));
    PercentBounded(k, n, PercentAt(r, k));
  }

  /** The percentage shown for grid point `k`, within half a percent of the true ratio. */
  lemma PercentOf(r: Range, k: nat)
    requires Valid(r) && r.min < r.max && k <= Steps(r)
    ensures Point(r, k) <= U16_MAX && PercentForNative(r, Point(r, k)) == Some(PercentAt(r, k))
  {
    LastPoint(r);
    PointsAscend(r, k, Steps(r));
    ContainsExactly(r, Point(r, k));
    PercentAtBounds(r, k);
  }

  lemma RawOffset(k: nat, n: int, s: nat, p: nat, e: int)
    requires e == n * p - 100 * k
    ensures ((n * s) * p + 50) / 100 == k * s + (e * s + 50) / 100
  {
    MulSwap(p, n, s);
    assert (n * s) * p == (n * p) * s;
    MulMinus(n * p, 100 * k, s);
    assert (100 * k) * s == 100 * (k * s);
  }

  ghost predicate RoundTrips(r: Range, k: nat)
    requires Valid(r) && k <= Steps(r)
  {
    && Point(r, k) <= U16_MAX
    && PercentForNative(r, Point(r, k)).Some?
    && NativeForPercent(r, PercentForNative(r, Point(r, k)).value) == Some(Point(r, k))
  }

  /** A miss small enough for snapping to undo. */
  predicate StepRounds(miss: int, s: nat) { 0 <= s + 2 * miss && 2 * miss < s }

  lemma RawWithin(span: nat, p: nat)
    requires p <= 100
    ensures 0 <= (span * p + 50) / 100 <= span
  {
    MulMonotone(p, 100, span);
    MulNonNegative(span, p);
    assert span * p == p * span;
  }

  lemma RawInRange(r: Range, k: nat, p: nat, e: int)
    requires Valid(r) && k <= Steps(r) && p <= 100 && e == Steps(r) * p - 100 * k
    ensures var raw := r.min + ((r.max - r.min) * p + 50) / 100;
            r.min <= raw <= r.max && raw == Point(r, k) + (e * r.step + 50) / 100
  {
    LastPoint(r);
    RawOffset(k, Steps(r), r.step, p, e);
    RawWithin(r.max - r.min, p);
  }

  /** Reading back misses point `k` by the rounding error `e`; less than half a step is undone by snapping. */
  lemma SmallErrorReadsBack(r: Range, k: nat, p: nat, e: int)
    requires Valid(r) && k <= Steps(r) && p <= 100 && e == Steps(r) * p - 100 * k
    requires StepRounds((e * r.step + 50) / 100, r.step)
    ensures NativeForPercent(r, p) == Some(Point(r, k))
  {
    RawInRange(r, k, p, e);
    var raw := r.min + ((r.max - r.min) * p + 50) / 100;
    assert NearPoint(r, raw, k);
    QuantizeTo(r, raw, k);
  }

  lemma ErrorBelowHalf(e: int, bound: nat, s: nat)
    requires s > 0 && 0 <= bound + e && e <= bound
    requires bound <= 24 || (bound <= 49 && s % 2 == 1)
    ensures StepRounds((e * s + 50) / 100, s)
  {
    var most := if bound <= 24 then 24 else 49;
    MulMonotone(e, most, s);
    MulMonotone(0 - most, e, s);
  }

  lemma WholePercents(n: nat, p: nat, k: nat)
    requires HalfWithin(n * p - 100 * k, n)
    ensures n == 50 ==> (n * p - 100 * k) % 50 == 0
    ensures n == 100 ==> n * p - 100 * k == 0
  {
    if n == 50 {
      assert n * p - 100 * k == 50 * (p - 2 * k);
    } else if n == 100 {
      assert n * p - 100 * k == 100 * (p - k);
    }
  }

  /** The rounding error stays below half of every step the range can have. */
  lemma ErrorRounds(r: Range, k: nat)
    requires Valid(r) && r.min < r.max && k <= Steps(r)
    requires Steps(r) <= 50 || (Steps(r) <= 100 && r.step % 2 == 1)
    ensures StepRounds(((Steps(r) * PercentAt(r, k) - 100 * k) * r.step + 50) / 100, r.step)
  {
    PercentAtBounds(r, k);
    var e := Steps(r) * PercentAt(r, k) - 100 * k;
    WholePercents(Steps(r), PercentAt(r, k), k);
    ErrorBelowHalf(e, if Steps(r) <= 50 then 24 else 49, r.step);
  }

  lemma SmallStepsRoundTrip(r: Range, k: nat)
    requires Valid(r) && k <= Steps(r)
    requires Steps(r) <= 50 || (Steps(r) <= 100 && r.step % 2 == 1)
    ensures RoundTrips(r, k)
  {
    if r.min == r.max {
      OnePointRoundTrips(r, k);
    } else {
      PercentOf(r, k);
      PercentAtBounds(r, k);
      ErrorRounds(r, k);
      SmallErrorReadsBack(r, k, PercentAt(r, k), Steps(r) * PercentAt(r, k) - 100 * k);
    }
  }

  lemma OnePointRoundTrips(r: Range, k: nat)
    requires Valid(r) && r.min == r.max && k <= Steps(r)
    ensures RoundTrips(r, k)
  {
    LastPoint(r);
    PointsAscend(r, 0, k);
    PointsAscend(r, k, Steps(r));
    assert Contains(r, r.min);
    QuantizeIdempotent(r, r.min);
  }

  /** A larger error is not undone: the value read back is another one. */
  lemma LargeErrorReadsAnother(r: Range, k: nat, p: nat, e: int)
    requires Valid(r) && k <= Steps(r) && p <= 100 && e == Steps(r) * p - 100 * k
    requires !StepRounds((e * r.step + 50) / 100, r.step)
    ensures NativeForPercent(r, p) != Some(Point(r, k))
  {
    RawInRange(r, k, p, e);
    var raw := r.min + ((r.max - r.min) * p + 50) / 100;
    assert !NearPoint(r, raw, k);
    var j := NearestIndex(r, raw);
    QuantizeTo(r, raw, j);
    PointsAscend(r, j, k);
    PointsAscend(r, k, j);
  }

  /**
   Over every range, a value reads back from its percentage exactly when the
   rounding error of the percentage, turned back into the range, is less than
   half a step.
   */
  lemma ReadsBackExactly(r: Range, k: nat)
    requires Valid(r) && r.min < r.max && k <= Steps(r)
    ensures RoundTrips(r, k)
            <==> StepRounds(((Steps(r) * PercentAt(r, k) - 100 * k) * r.step + 50) / 100, r.step)
  {
    var p := PercentAt(r, k);
    var e := Steps(r) * p - 100 * k;
    PercentOf(r, k);
    PercentAtBounds(r, k);
    if StepRounds((e * r.step + 50) / 100, r.step) {
      SmallErrorReadsBack(r, k, p, e);
    } else {
      LargeErrorReadsAnother(r, k, p, e);
    }
  }

  /** A range of at most 50 steps shows every supported value as a percentage that reads back as it. */
  lemma FiftyStepsRoundTrip(r: Range, v: U16)
    requires Valid(r) && Steps(r) <= 50 && Contains(r, v)
    ensures PercentForNative(r, v).Some?
    ensures NativeForPercent(r, PercentForNative(r, v).value) == Some(v)
  {
    ContainsExactly(r, v);
    var k: nat :| k <= Steps(r) && v == Point(r, k);
    SmallStepsRoundTrip(r, k);
  }

  /**
   Exactly the supported values have a percentage, the ends are 0 and 100, and
   no whole number of percent is nearer to where the value lies in the range.
   */
  lemma PercentShownExactly(r: Range, v: U16)
    requires Valid(r)
    ensures PercentForNative(r, v).Some? <==> Contains(r, v)
    ensures Contains(r, v) ==>
              var p, span := PercentForNative(r, v).value, r.max - r.min;
              && p <= 100
              && (v == r.min ==> p == 0) && (v == r.max && span > 0 ==> p == 100)
              && 2 * (p * span - 100 * (v - r.min)) <= span && 2 * (100 * (v - r.min) - p * span) <= span
  {
    if Contains(r, v) && r.min < r.max {
      ContainedIsAPoint(r, v);
      var k := (v - r.min) / r.step;
      PercentOf(r, k);
      PercentAtBounds(r, k);
      LastPoint(r);
      RoundsNearest((v - r.min) * 100, r.max - r.min);
    }
  }

  lemma RoundsNearest(value: nat, span: nat)
    requires span > 0
    ensures var p := (value + span / 2) / span;
            2 * (p * span - value) <= span && 2 * (value - p * span) <= span
  {
    Divide(value + span / 2, span);
  }

  /**
   Exactly the percentages up to 100 name a value, which is supported, the ends
   are the ends of the range, and it lies within half a step, and the rounding
   of the percentage, of that share of the range.
   */
  lemma NativeShownExactly(r: Range, percent: U8)
    requires Valid(r)
    ensures NativeForPercent(r, percent).Some? <==> percent <= 100
    ensures percent <= 100 ==>
              var v, share := NativeForPercent(r, percent).value, (r.max - r.min) * percent;
              && Contains(r, v)
              && (percent == 0 ==> v == r.min) && (percent == 100 ==> v == r.max)
              && 100 * (v - r.min) - share <= 50 * r.step + 50
              && share - 100 * (v - r.min) <= 50 * r.step + 50
  {
    if percent <= 100 {
      RawWithin(r.max - r.min, percent);
      MulNonNegative(r.max - r.min, percent);
      var raw := r.min + ((r.max - r.min) * percent + 50) / 100;
      var k := NearestIndex(r, raw);
      QuantizeTo(r, raw, k);
      PointIsContained(r, k);
      EndsAreKept(r, percent, raw);
      WithinHalfAStep(r, raw, k);
    }
  }

  lemma WithinHalfAStep(r: Range, v: U16, k: nat)
    requires Valid(r) && k <= Steps(r) && r.min <= v <= r.max && NearPoint(r, v, k)
    ensures 2 * (Point(r, k) - v) <= r.step && 2 * (v - Point(r, k)) <= r.step
  {}

  lemma EndShares(span: nat)
    ensures (span * 0 + 50) / 100 == 0 && (span * 100 + 50) / 100 == span
  {}

  lemma EndsAreKept(r: Range, percent: nat, raw: nat)
    requires Valid(r) && percent <= 100
    requires raw == r.min + ((r.max - r.min) * percent + 50) / 100 && raw <= U16_MAX
    ensures percent == 0 ==> Quantize(r, raw) == r.min
    ensures percent == 100 ==> Quantize(r, raw) == r.max
  {
    EndShares(r.max - r.min);
    if percent == 0 {
      QuantizeIdempotent(r, r.min);
    } else if percent == 100 {
      EndIsContained(r);
      QuantizeIdempotent(r, r.max);
    }
  }

  lemma EndIsContained(r: Range)
    requires Valid(r)
    ensures Contains(r, r.max)
  {
    LastPoint(r);
    PointIsContained(r, Steps(r));
  }

  lemma SharesAscend(span: nat, p: nat, q: nat)
    requires p <= q
    ensures 0 <= (span * p + 50) / 100 <= (span * q + 50) / 100
  {
    MulMonotone(p, q, span);
    MulNonNegative(span, p);
    assert span * p == p * span && span * q == q * span;
    QuotientMonotone(span * p + 50, span * q + 50, 100);
  }

  /** A higher percentage never names a lower value. */
  lemma NativeMonotone(r: Range, p: U8, q: U8)
    requires Valid(r) && p <= q <= 100
    ensures NativeForPercent(r, p).Some? && NativeForPercent(r, q).Some?
    ensures NativeForPercent(r, p).value <= NativeForPercent(r, q).value
  {
    var span := r.max - r.min;
    RawWithin(span, p);
    RawWithin(span, q);
    SharesAscend(span, p, q);
    var low, high := r.min + (span * p + 50) / 100, r.min + (span * q + 50) / 100;
    QuantizeMonotone(r, low, high);
  }

  lemma PercentMonotone(r: Range, j: nat, k: nat)
    requires Valid(r) && j <= k <= Steps(r) && Steps(r) > 0
    requires Point(r, j) <= U16_MAX && Point(r, k) <= U16_MAX
    requires PercentForNative(r, Point(r, j)).Some? && PercentForNative(r, Point(r, k)).Some?
    ensures PercentForNative(r, Point(r, j)).value <= PercentForNative(r, Point(r, k)).value
  {
    var span := r.max - r.min;
    LastPoint(r);
    MulStep(0, Steps(r), r.step);
    PointsAscend(r, j, k);
    QuotientMonotone((j * r.step) * 100 + span / 2, (k * r.step) * 100 + span / 2, span);
  }

  /** Values that all read back have different percentages, so the k-th is at least `k`. */
  lemma {:induction false} PercentAtLeastIndex(r: Range, k: nat)
    requires Valid(r) && k <= Steps(r) && Steps(r) > 0
    requires forall j :: 0 <= j <= k ==> RoundTrips(r, j)
    ensures Point(r, k) <= U16_MAX && PercentForNative(r, Point(r, k)).Some?
    ensures PercentForNative(r, Point(r, k)).value >= k
  {
    assert RoundTrips(r, k);
    if k > 0 {
      PercentAtLeastIndex(r, k - 1);
      assert RoundTrips(r, k - 1);
      PointsAscend(r, k - 1, k);
      PercentMonotone(r, k - 1, k);
    }
  }

  /**
   With an odd step the round trip is exact on the whole range precisely up to
   100 steps: beyond that there are more supported values than percentages.
   */
  lemma OddStepRoundTripExactly(r: Range)
    requires Valid(r) && r.step % 2 == 1
    ensures (forall k :: 0 <= k <= Steps(r) ==> RoundTrips(r, k)) <==> Steps(r) <= 100
  {
    if Steps(r) <= 100 {
      forall k: nat | k <= Steps(r) ensures RoundTrips(r, k) {
        SmallStepsRoundTrip(r, k);
      }
    } else if forall k :: 0 <= k <= Steps(r) ==> RoundTrips(r, k) {
      PercentAtLeastIndex(r, Steps(r));
      PercentOf(r, Steps(r));
      PercentAtBounds(r, Steps(r));
    }
  }

  // ---------------------------------------------------------------------
  // Percent round trips over even steps
  // ---------------------------------------------------------------------

  function LargestMultiple(g: nat, bound: nat): nat
    requires g > 0
  {
    Divide(bound, g);
    MulNonNegative(g, bound / g);
    g * (bound / g)
  }

  /**
   The largest rounding error of a percentage over `n` steps, in hundredths of a
   step: the largest multiple up to `n / 2` of what `n` shares with 100.
   */
  function LargestMiss(n: nat): nat
    requires n > 0
  {
    LargestMultiple(Gcd(n, 100), n / 2)
  }

  lemma MissIsAMultiple(n: nat, p: int, k: int, g: int, u: int, v: int)
    requires n == g * u && 100 == g * v
    ensures n * p - 100 * k == g * (u * p - v * k)
  {
    assert (g * u) * p == g * (u * p) && (g * v) * k == g * (v * k);
    assert g * (u * p - v * k) == g * (u * p) - g * (v * k);
  }

  lemma MultipleBelow(t: int, g: nat, bound: nat)
    requires g > 0 && g * t <= bound
    ensures g * t <= LargestMultiple(g, bound)
  {
    Divide(bound, g);
    if t > bound / g {
      MulStep(bound / g, t, g);
    } else {
      MulMonotone(t, bound / g, g);
    }
  }

  /** No rounding error exceeds the largest miss. */
  lemma MissAtMostLargest(n: nat, p: nat, k: nat, e: int)
    requires n > 0 && e == n * p - 100 * k && 2 * e <= n
    ensures e <= LargestMiss(n)
  {
    var u, v, x, y := GcdCombines(n, 100);
    MissIsAMultiple(n, p, k, Gcd(n, 100), u, v);
    MultipleBelow(u * p - v * k, Gcd(n, 100), n / 2);
  }

  lemma Shifted(n: int, t: int, x: int, y: int, q: int, k: int, g: int)
    requires g == x * n + y * 100 && 0 - t * y == q * n + k
    ensures n * (t * x - 100 * q) - 100 * k == g * t
  {
    assert g * t == (x * n) * t + (y * 100) * t;
    assert n * (t * x - 100 * q) == n * (t * x) - n * (100 * q);
    assert (x * n) * t == n * (t * x) && (y * 100) * t == 100 * (t * y) && n * (100 * q) == 100 * (q * n);
  }

  lemma Wraps(a: int, n: nat) returns (q: int, k: nat)
    requires n > 0
    ensures a == q * n + k && k < n
  {
    q, k := a / n, a % n;
  }

  lemma RatioIsNatural(n: nat, ratio: int, product: nat)
    requires n > 0 && n * ratio == product
    ensures ratio >= 0
  {
    if ratio < 0 {
      MulMonotone(ratio, -1, n);
    }
  }

  /** Some grid point has the largest miss. */
  lemma LargestMissAttained(n: nat) returns (k: nat, p: nat)
    requires n > 0
    ensures k < n && n * p - 100 * k == LargestMiss(n)
  {
    var g := Gcd(n, 100);
    var u, v, x, y := GcdCombines(n, 100);
    var t := n / 2 / g;
    var q;
    q, k := Wraps(0 - t * y, n);
    Shifted(n, t, x, y, q, k, g);
    RatioIsNatural(n, t * x - 100 * q, LargestMiss(n) + 100 * k);
    p := t * x - 100 * q;
  }

  lemma LargestMissFits(n: nat)
    requires n > 0
    ensures 2 * LargestMiss(n) <= n
  {
    Divide(n / 2, Gcd(n, 100));
  }

  lemma RoundsTo(value: nat, excess: nat, span: nat, p: nat)
    requires span > 0 && p * span == value + excess && 2 * excess <= span
    ensures (value + span / 2) / span == p
  {
    QuotientIs(value + span / 2, span, p);
  }

  lemma ScaledMiss(n: nat, p: nat, k: nat, s: nat, e: nat)
    requires e == n * p - 100 * k && 2 * e <= n
    ensures p * (n * s) == (k * s) * 100 + e * s && 2 * (e * s) <= n * s
  {
    MulSwap(p, n, s);
    MulMinus(n * p, 100 * k, s);
    assert (100 * k) * s == (k * s) * 100;
    MulMonotone(2 * e, n, s);
    assert (2 * e) * s == 2 * (e * s);
  }

  /** A percentage that misses by no more than half a step upwards is the one shown. */
  lemma ShownIs(r: Range, k: nat, p: nat)
    requires Valid(r) && r.min < r.max && k <= Steps(r)
    requires 0 <= 2 * (Steps(r) * p - 100 * k) <= Steps(r)
    ensures PercentAt(r, k) == p
  {
    LastPoint(r);
    var e := Steps(r) * p - 100 * k;
    ScaledMiss(Steps(r), p, k, r.step, e);
    MulNonNegative(k, r.step);
    MulNonNegative(e, r.step);
    RoundsTo((k * r.step) * 100, e * r.step, r.max - r.min, p);
  }

  /** With an even step, what snapping undoes in terms of the miss itself. */
  lemma EvenStepRounds(e: int, s: nat)
    requires s > 0 && s % 2 == 0 && -100 <= 2 * e
    ensures StepRounds((e * s + 50) / 100, s) <==> e * s < 50 * (s - 1)
  {
    MulMonotone(-50, e, s);
  }

  lemma EvenStepReadsBack(r: Range, k: nat)
    requires Valid(r) && r.min < r.max && k <= Steps(r) && Steps(r) <= 100 && r.step % 2 == 0
    requires LargestMiss(Steps(r)) * r.step < 50 * (r.step - 1)
    ensures RoundTrips(r, k)
  {
    var n, p := Steps(r), PercentAt(r, k);
    PercentAtBounds(r, k);
    MissAtMostLargest(n, p, k, n * p - 100 * k);
    MulMonotone(n * p - 100 * k, LargestMiss(n), r.step);
    EvenStepRounds(n * p - 100 * k, r.step);
    ReadsBackExactly(r, k);
  }

  lemma LargestMissFails(r: Range)
    requires Valid(r) && r.min < r.max && r.step % 2 == 0
    requires LargestMiss(Steps(r)) * r.step >= 50 * (r.step - 1)
    ensures Steps(r) > 0 && exists k: nat :: k <= Steps(r) && !RoundTrips(r, k)
  {
    PercentAtBounds(r, 0);
    var k, p := LargestMissAttained(Steps(r));
    LargestMissFits(Steps(r));
    ShownIs(r, k, p);
    EvenStepRounds(LargestMiss(Steps(r)), r.step);
    ReadsBackExactly(r, k);
    assert !RoundTrips(r, k);
  }

  /**
   With an even step the round trip is exact on the whole range precisely when
   there are at most 100 steps and the largest miss stays under half a step.
   */
  lemma EvenStepRoundTripExactly(r: Range)
    requires Valid(r) && r.min < r.max && r.step % 2 == 0
    ensures Steps(r) > 0
    ensures (forall k :: 0 <= k <= Steps(r) ==> RoundTrips(r, k))
            <==> Steps(r) <= 100 && LargestMiss(Steps(r)) * r.step < 50 * (r.step - 1)
  {
    PercentAtBounds(r, 0);
    if Steps(r) > 100 {
      if forall k :: 0 <= k <= Steps(r) ==> RoundTrips(r, k) {
        PercentAtLeastIndex(r, Steps(r));
        PercentOf(r, Steps(r));
        PercentAtBounds(r, Steps(r));
      }
    } else if LargestMiss(Steps(r)) * r.step < 50 * (r.step - 1) {
      forall k: nat | k <= Steps(r) ensures RoundTrips(r, k) {
        EvenStepReadsBack(r, k);
      }
    } else {
      LargestMissFails(r);
    }
  }

  /** With an even step the round trip can fail at 51 steps already. */
  lemma EvenStepFailsAtFiftyOne()
    ensures var r := Range(0, 102, 2, Lumens);
            Valid(r) && Steps(r) == 51 && PercentForNative(r, 76) == Some(75) && NativeForPercent(r, 75) == Some(78)
  {}
}
