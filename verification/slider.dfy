/**
 * The value model of `LabeledSeekSlider`: its configuration and operational
 * state as one immutable record, the property setters as pure transitions, and
 * the derived values every frame uses (the snapped display value, the unit
 * label and the x position of a value).
 */
module Slider {
  import opened Options
  import opened KotlinMath
  import opened Decimal
  import opened UnitPositions

  datatype SliderState = SliderState(
    minValue: int,
    maxValue: int,
    defaultValue: int,
    limitValue: Option<int>,
    allowLimitValueBypass: bool,
    vibrateOnLimitReached: bool,
    slidingInterval: int,
    valuesToSkip: seq<int>,
    isDisabled: bool,
    isBubbleHidden: bool,
    unit: string,
    unitPosition: UnitPosition,
    limitValueIndicator: string,
    /** The value the thumb stands for, before snapping. */
    actualFractionalValue: int,
    /** Where the last drag left the thumb; None means "derive it from the value". */
    actualXPosition: Option<real>,
    bubbleText: string,
    /** The last value shown in the bubble; read-only to the host. */
    currentValue: int
  )

  /** Layout inputs: the measured view width in pixels, the thumb radius and the
      density factor that `dp(1f)` returns. */
  datatype Metrics = Metrics(measuredWidth: int, thumbRadius: real, dp: real)

  /** The horizontal room the thumb's value maps onto. */
  function SlidingAreaWidth(m: Metrics): real
  {
    m.measuredWidth as real - m.thumbRadius
  }

  /** The state of a freshly constructed slider, before any attribute is applied.
      Both the value and the public `currentValue` start at 150, outside the
      default range [0, 100]. */
  function Initial(): (s: SliderState)
    ensures s.minValue == 0 && s.maxValue == 100 && s.defaultValue == 50
    ensures s.limitValue == None && s.slidingInterval == 1 && s.bubbleText == ""
    ensures s.actualFractionalValue == s.currentValue == 150 && !InRange(s)
    ensures s.actualXPosition == None && s.valuesToSkip == []
  {
    SliderState(0, 100, 50, None, false, true, 1, [], false, false, "", Back, "Max",
                150, None, "", 150)
  }

  /** Applying the default attributes on construction (minValue 0, maxValue 100,
      defaultValue 50) brings the value into range at 50, while `currentValue`
      keeps its initial 150 until the first frame is drawn. */
  lemma DefaultAttributesBringValueInRange()
    ensures var s := SetDefaultValue(SetMaxValue(SetMinValue(Initial(), 0), 100), 50);
            InRange(s) && s.actualFractionalValue == s.defaultValue == 50 &&
            s.actualXPosition == None && s.currentValue == 150
  {
  }

  // ---------------------------------------------------------------- setters

  /** Assigning `minValue`. */
  function SetMinValue(s: SliderState, v: int): (r: SliderState)
    ensures r.minValue == v
    ensures r.actualFractionalValue == MaxInt(s.actualFractionalValue, v)
    ensures r.actualXPosition == if s.minValue != v then None else s.actualXPosition
    ensures r == s.(minValue := v, actualFractionalValue := r.actualFractionalValue,
                    actualXPosition := r.actualXPosition)
  {
    var s1 := if s.minValue != v then s.(actualXPosition := None) else s;
    var s2 := s1.(minValue := v);
    if s2.actualFractionalValue < v then s2.(actualFractionalValue := v) else s2
  }

  /** Assigning `maxValue`. */
  function SetMaxValue(s: SliderState, v: int): (r: SliderState)
    ensures r.maxValue == v
    ensures r.actualFractionalValue == MinInt(s.actualFractionalValue, v)
    ensures r.actualXPosition == if s.maxValue != v then None else s.actualXPosition
    ensures r == s.(maxValue := v, actualFractionalValue := r.actualFractionalValue,
                    actualXPosition := r.actualXPosition)
  {
    var s1 := if s.maxValue != v then s.(actualXPosition := None) else s;
    var s2 := s1.(maxValue := v);
    if s2.actualFractionalValue > v then s2.(actualFractionalValue := v) else s2
  }

  /** Assigning `defaultValue`: the value is clamped into [minValue, maxValue]
      (maxValue wins when the bounds cross) and becomes the current value.
      The drag position is dropped unless both the stored default and the
      shown value already equal `v`; reading the shown value divides by the
      sliding interval. */
  function SetDefaultValue(s: SliderState, v: int): (r: SliderState)
    requires s.defaultValue == v ==> s.slidingInterval != 0
    ensures s.minValue <= s.maxValue ==> s.minValue <= r.defaultValue <= s.maxValue
    ensures s.minValue <= v <= s.maxValue ==> r.defaultValue == v
    ensures v < s.minValue <= s.maxValue ==> r.defaultValue == s.minValue
    ensures s.maxValue < v ==> r.defaultValue == s.maxValue
    ensures s.maxValue < s.minValue ==> r.defaultValue == s.maxValue
    ensures r.actualFractionalValue == r.defaultValue
    ensures r.actualXPosition ==
      if s.defaultValue != v || s.defaultValue != GetDisplayValue(s) then None else s.actualXPosition
    ensures r == s.(defaultValue := r.defaultValue, actualFractionalValue := r.actualFractionalValue,
                    actualXPosition := r.actualXPosition)
  {
    var s1 := if s.defaultValue != v || s.defaultValue != GetDisplayValue(s)
              then s.(actualXPosition := None) else s;
    var clamped := MinInt(s.maxValue, MaxInt(s.minValue, v));
    s1.(defaultValue := clamped, actualFractionalValue := clamped)
  }

  /** Assigning `limitValue`. The limit itself is stored as given: it is not
      clamped into [minValue, maxValue]. */
  function SetLimitValue(s: SliderState, v: Option<int>): (r: SliderState)
    ensures r.limitValue == v
    ensures v.Some? ==> r.actualFractionalValue == MinInt(s.actualFractionalValue, v.value)
    ensures v.None? ==> r.actualFractionalValue == s.actualFractionalValue
    ensures r.actualXPosition == if s.limitValue != v then None else s.actualXPosition
    ensures r == s.(limitValue := v, actualFractionalValue := r.actualFractionalValue,
                    actualXPosition := r.actualXPosition)
  {
    var s1 := if s.limitValue != v then s.(actualXPosition := None) else s;
    var s2 := s1.(limitValue := v);
    if v.Some? && s2.actualFractionalValue > v.value then s2.(actualFractionalValue := v.value) else s2
  }

  /** The value lies within the configured bounds. */
  predicate InRange(s: SliderState)
  {
    s.minValue <= s.actualFractionalValue <= s.maxValue
  }

  /** Moving either bound while it stays on its side of the other keeps the value in range. */
  lemma BoundSettersKeepRange(s: SliderState, lo: int, hi: int)
    requires InRange(s)
    ensures lo <= s.maxValue ==> InRange(SetMinValue(s, lo))
    ensures s.minValue <= hi ==> InRange(SetMaxValue(s, hi))
  {
  }

  /** Setting a limit inside the range keeps the value in range and under the limit. */
  lemma LimitSetterKeepsRange(s: SliderState, l: int)
    requires InRange(s) && s.minValue <= l
    ensures InRange(SetLimitValue(s, Some(l)))
    ensures SetLimitValue(s, Some(l)).actualFractionalValue <= l
  {
  }

  /** A limit below minValue is accepted and drags the value below the range. */
  lemma LimitBelowMinLeavesRange(s: SliderState, l: int)
    requires InRange(s) && l < s.minValue
    ensures SetLimitValue(s, Some(l)).actualFractionalValue == l < s.minValue
  {
  }

  /** Re-applying the same default changes nothing further. */
  lemma SetDefaultValueIdempotent(s: SliderState, v: int)
    requires s.slidingInterval != 0
    requires s.minValue <= v <= s.maxValue
    ensures SetDefaultValue(SetDefaultValue(s, v), v) == SetDefaultValue(s, v)
  {
    SnapIdempotent(s.actualFractionalValue, s.slidingInterval);
  }

  // --------------------------------------------------------- derived values

  /** The value snapped toward zero to a multiple of the sliding interval
      (Kotlin's `Int.div` truncates). */
  function Snap(value: int, interval: int): (d: int)
    requires interval != 0
    ensures value >= 0 ==> 0 <= value - d < Abs(interval)
    ensures value < 0 ==> -Abs(interval) < value - d <= 0
  {
    TruncDiv(value, interval) * interval
  }

  /** `getDisplayValue`: the value snapped toward zero, never more than one
      interval away from it. */
  function GetDisplayValue(s: SliderState): (d: int)
    requires s.slidingInterval != 0
    ensures s.actualFractionalValue >= 0 ==> 0 <= s.actualFractionalValue - d < Abs(s.slidingInterval)
    ensures s.actualFractionalValue < 0 ==> -Abs(s.slidingInterval) < s.actualFractionalValue - d <= 0
  {
    Snap(s.actualFractionalValue, s.slidingInterval)
  }

  /** A snapped value is a multiple of the interval... */
  lemma SnapIsMultiple(value: int, interval: int)
    requires interval != 0
    ensures Snap(value, interval) % interval == 0
  {
    var q := TruncDiv(value, interval);
    var d := q * interval;
    if interval > 0 {
      MulMod(q, interval);
    } else {
      assert d == (-q) * (-interval);
      MulMod(-q, -interval);
      assert d % (-interval) == 0;
      ModNegDivisor(d, interval);
    }
  }

  lemma {:induction false} MulMod(q: int, b: int)
    requires b > 0
    ensures (q * b) % b == 0
  {
    var r := (q * b) % b;
    var k := (q * b) / b;
    assert q * b == k * b + r;
    assert 0 <= (q * b) - k * b < b;
    assert 0 <= (q * b) - q * b < b;
    QuotientUnique(q * b, b, k, q);
  }

  lemma ModNegDivisor(d: int, b: int)
    requires b < 0
    requires d % (-b) == 0
    ensures d % b == 0
  {
    var k := d / (-b);
    assert d == k * (-b);
    assert d == (-k) * b;
    var k2 := d / b;
    var r2 := d % b;
    assert d == k2 * b + r2 && 0 <= r2 < -b;
    assert 0 <= d - (-k) * b < -b;
    assert 0 <= d - k2 * b < -b;
    assert (-k) * b == k * (-b);
    assert k2 * b == (-k2) * (-b);
    QuotientUnique(d, -b, k, -k2);
  }

  /** ... and snapping it again leaves it unchanged. */
  lemma SnapIdempotent(value: int, interval: int)
    requires interval != 0
    ensures Snap(Snap(value, interval), interval) == Snap(value, interval)
  {
    var q := TruncDiv(value, interval);
    var d := q * interval;
    assert d - q * interval == 0;
    TruncDivUnique(d, interval, q);
  }

  /** Negative values snap toward zero, not toward minus infinity. */
  lemma SnapTruncatesNegatives()
    ensures Snap(47, 10) == 40
    ensures Snap(-7, 5) == -5
  {
    TruncDivUnique(47, 10, 4);
    TruncDivUnique(-7, 5, -1);
  }

  /** With a positive interval the snapped value lies between zero and the value. */
  lemma SnapTowardZero(value: int, interval: int)
    requires interval > 0
    ensures value >= 0 ==> 0 <= Snap(value, interval) <= value
    ensures value <= 0 ==> value <= Snap(value, interval) <= 0
  {
    var q := TruncDiv(value, interval);
    if value >= 0 && q < 0 {
      assert (-q) * interval == -(q * interval);
      MulAtLeast(-q, interval);
    } else if value < 0 && q > 0 {
      MulAtLeast(q, interval);
    }
  }

  /** A snapped value can fall below minValue when minValue is not a multiple
      of the interval: min 5, interval 10 shows 0. */
  lemma SnapCanUndershootMin()
    ensures Snap(5, 10) == 0 < 5
  {
    TruncDivUnique(5, 10, 0);
  }

  /** `getUnitValue`: the number followed by the unit, directly for FRONT and
      after one space for BACK. */
  function GetUnitValue(value: int, unit: string, position: UnitPosition): (t: string)
    ensures |t| >= |ToDecimal(value)| && t[..|ToDecimal(value)|] == ToDecimal(value)
    ensures position == Front ==> t[|ToDecimal(value)|..] == unit
    ensures position == Back ==> t[|ToDecimal(value)|..] == " " + unit
  {
    if position == Front then ToDecimal(value) + unit
    else ToDecimal(value) + " " + unit
  }

  /** The number can be read back from a unit label once the unit is stripped. */
  lemma UnitValueRoundTrip(value: int, unit: string, position: UnitPosition)
    ensures var t := GetUnitValue(value, unit, position);
            var sep := if position == Front then 0 else 1;
            |t| >= |unit| + sep &&
            ParseDecimal(t[..|t| - |unit| - sep]) == Some(value)
  {
    var t := GetUnitValue(value, unit, position);
    var sep := if position == Front then 0 else 1;
    assert t[..|t| - |unit| - sep] == ToDecimal(value);
    DecimalRoundTrip(value);
  }

  /** Two values print the same unit label only if they are equal. */
  lemma UnitValueInjective(a: int, b: int, unit: string, position: UnitPosition)
    requires GetUnitValue(a, unit, position) == GetUnitValue(b, unit, position)
    ensures a == b
  {
    UnitValueRoundTrip(a, unit, position);
    UnitValueRoundTrip(b, unit, position);
  }

  /** `getActiveX`: the x position a value maps to, linear from 0 at minValue to
      the sliding area's width at maxValue. */
  function GetActiveX(s: SliderState, m: Metrics, value: int): (x: real)
    requires s.minValue != s.maxValue
    ensures value == s.minValue ==> x == 0.0
    ensures value == s.maxValue ==> x == SlidingAreaWidth(m)
    ensures s.minValue < s.maxValue && SlidingAreaWidth(m) >= 0.0 && s.minValue <= value <= s.maxValue
            ==> 0.0 <= x <= SlidingAreaWidth(m)
  {
    var progress := (value - s.minValue) as real / (s.maxValue - s.minValue) as real;
    ProgressInUnit(value - s.minValue, s.maxValue - s.minValue);
    SlidingAreaWidth(m) * progress
  }

  lemma ProgressInUnit(k: int, n: int)
    requires n != 0
    ensures 0 < n && 0 <= k <= n ==> 0.0 <= k as real / n as real <= 1.0
  {
  }

  /** Larger values sit further right. */
  lemma ActiveXMonotone(s: SliderState, m: Metrics, a: int, b: int)
    requires s.minValue < s.maxValue && SlidingAreaWidth(m) >= 0.0 && a <= b
    ensures GetActiveX(s, m, a) <= GetActiveX(s, m, b)
  {
    var n := (s.maxValue - s.minValue) as real;
    var pa := (a - s.minValue) as real / n;
    var pb := (b - s.minValue) as real / n;
    DivMonotone((a - s.minValue) as real, (b - s.minValue) as real, n);
    ScaledLe(GetActiveX(s, m, a), GetActiveX(s, m, b), SlidingAreaWidth(m), pa, pb);
  }

  lemma ScaledLe(x: real, y: real, w: real, p: real, q: real)
    requires w >= 0.0 && p <= q && x == w * p && y == w * q
    ensures x <= y
  {
    ScaleMonotone(w, p, q);
  }

  lemma ScaleMonotone(n: real, p: real, q: real)
    requires n >= 0.0 && p <= q
    ensures n * p <= n * q
  {
    assert n * q - n * p == n * (q - p);
  }

  lemma DivMonotone(x: real, y: real, n: real)
    requires n > 0.0 && x <= y
    ensures x / n <= y / n
  {
    assert y / n - x / n == (y - x) / n;
  }
}
