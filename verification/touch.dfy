/**
 * Touch handling: `onTouchEvent` dispatch and `handleSlidingMovement`, which
 * turns a pointer x coordinate into a value, applies the limit and decides
 * where the thumb is drawn.
 */
module Touch {
  import opened Options
  import opened KotlinMath
  import opened Slider

  /** The `MotionEvent` actions the slider distinguishes; cancel and every other
      action are `OtherAction`. */
  datatype MotionAction = ActionDown | ActionMove | ActionUp | OtherAction

  datatype TouchOutcome = TouchOutcome(handled: bool, state: SliderState)

  /** Whether a limit currently caps dragging. */
  predicate LimitActive(s: SliderState)
  {
    s.limitValue.Some? && !s.allowLimitValueBypass
  }

  /** What a drag needs to be defined over exact reals: a non-degenerate sliding
      area, and distinct bounds whenever a limit is active (the limit's x position
      divides by `maxValue - minValue` when a drag passes the limit). */
  predicate DragDefined(s: SliderState, m: Metrics)
  {
    SlidingAreaWidth(m) != 0.0 && (LimitActive(s) ==> s.minValue != s.maxValue)
  }

  /** The pointer x clamped into [-thumbRadius, measuredWidth - thumbRadius]. */
  function RelativeX(m: Metrics, x: real): (rx: real)
    ensures rx <= SlidingAreaWidth(m)
    ensures -m.thumbRadius <= SlidingAreaWidth(m) ==> -m.thumbRadius <= rx
    ensures -m.thumbRadius <= x <= SlidingAreaWidth(m) ==> rx == x
    ensures x < -m.thumbRadius <= SlidingAreaWidth(m) ==> rx == -m.thumbRadius
    ensures SlidingAreaWidth(m) < x ==> rx == SlidingAreaWidth(m)
  {
    MinReal(SlidingAreaWidth(m), MaxReal(-m.thumbRadius, x))
  }

  /** The clamped pointer position scaled onto a span of `maxValue - minValue`. */
  function Scaled(s: SliderState, m: Metrics, x: real): real
    requires SlidingAreaWidth(m) != 0.0
  {
    (s.maxValue - s.minValue) as real * (RelativeX(m, x) / SlidingAreaWidth(m))
  }

  /** `newValue` of `handleSlidingMovement`: the scaled pointer position rounded,
      offset by minValue and clamped into [minValue, maxValue]. */
  function DragValue(s: SliderState, m: Metrics, x: real): (v: int)
    requires SlidingAreaWidth(m) != 0.0
    ensures v <= s.maxValue
    ensures s.minValue <= s.maxValue ==> s.minValue <= v
  {
    MinInt(s.maxValue, MaxInt(s.minValue, s.minValue + RoundHalfEven(Scaled(s, m, x))))
  }

  /** `handleSlidingMovement(x)`. */
  function HandleSlidingMovement(s: SliderState, m: Metrics, x: real): (r: TouchOutcome)
    requires DragDefined(s, m)
    ensures r.handled
    ensures !LimitActive(s) ==> r.state.actualFractionalValue == DragValue(s, m, x)
    ensures LimitActive(s) ==>
      r.state.actualFractionalValue == MinInt(DragValue(s, m, x), s.limitValue.value)
    ensures LimitActive(s) && DragValue(s, m, x) > s.limitValue.value
            ==> r.state.actualXPosition == Some(GetActiveX(s, m, s.limitValue.value))
    ensures !(LimitActive(s) && DragValue(s, m, x) > s.limitValue.value)
            ==> r.state.actualXPosition == Some(x)
    ensures r.state == s.(actualFractionalValue := r.state.actualFractionalValue,
                          actualXPosition := r.state.actualXPosition)
  {
    var newValue := DragValue(s, m, x);
    var value := if s.limitValue.None? || s.allowLimitValueBypass then newValue
                 else MinInt(newValue, s.limitValue.value);
    var position :=
      if s.limitValue.Some? && !s.allowLimitValueBypass then
        if newValue <= s.limitValue.value then Some(x)
        else Some(GetActiveX(s, m, s.limitValue.value))
      else Some(x);
    TouchOutcome(true, s.(actualFractionalValue := value, actualXPosition := position))
  }

  /** `onTouchEvent`: a disabled slider and any action other than down, move or
      up leave the state alone and report the event unhandled. */
  function OnTouchEvent(s: SliderState, m: Metrics, action: MotionAction, x: real): (r: TouchOutcome)
    requires !s.isDisabled && action != OtherAction ==> DragDefined(s, m)
    ensures s.isDisabled || action == OtherAction <==> !r.handled
    ensures !r.handled ==> r.state == s
    ensures r.handled ==> r == HandleSlidingMovement(s, m, x)
  {
    if s.isDisabled then TouchOutcome(false, s)
    else match action
      case ActionDown => HandleSlidingMovement(s, m, x)
      case ActionMove => HandleSlidingMovement(s, m, x)
      case ActionUp => HandleSlidingMovement(s, m, x)
      case OtherAction => TouchOutcome(false, s)
  }

  /** A drag never leaves the value above an active limit, and never outside
      [minValue, maxValue] when the limit lies within the range. */
  lemma DragRespectsLimit(s: SliderState, m: Metrics, x: real)
    requires DragDefined(s, m) && LimitActive(s)
    ensures HandleSlidingMovement(s, m, x).state.actualFractionalValue <= s.limitValue.value
    ensures s.minValue <= s.limitValue.value <= s.maxValue ==>
      InRange(HandleSlidingMovement(s, m, x).state)
  {
  }

  /** Without an active limit a drag keeps the value in range. */
  lemma DragStaysInRange(s: SliderState, m: Metrics, x: real)
    requires DragDefined(s, m) && !LimitActive(s) && s.minValue <= s.maxValue
    ensures InRange(HandleSlidingMovement(s, m, x).state)
  {
  }

  /** Since the limit is never clamped into the range, a limit below minValue
      pulls every drag's value below minValue. */
  lemma DragBelowMinUnderLowLimit(s: SliderState, m: Metrics, x: real)
    requires DragDefined(s, m) && LimitActive(s) && s.limitValue.value < s.minValue <= s.maxValue
    ensures HandleSlidingMovement(s, m, x).state.actualFractionalValue < s.minValue
  {
  }

  /** Dragging to or past either end of the sliding area lands exactly on the bound. */
  lemma {:induction false} DragEdges(s: SliderState, m: Metrics, x: real)
    requires SlidingAreaWidth(m) > 0.0 && m.thumbRadius >= 0.0 && s.minValue <= s.maxValue
    ensures x <= 0.0 ==> DragValue(s, m, x) == s.minValue
    ensures x >= SlidingAreaWidth(m) ==> DragValue(s, m, x) == s.maxValue
  {
    var a := SlidingAreaWidth(m);
    var n := (s.maxValue - s.minValue) as real;
    var relativeX := RelativeX(m, x);
    if x <= 0.0 {
      assert relativeX <= 0.0;
      assert relativeX / a <= 0.0;
      assert n * (relativeX / a) <= 0.0;
    }
    if x >= a {
      assert relativeX == a;
      assert relativeX / a == 1.0;
      RoundOfInteger(s.maxValue - s.minValue);
    }
  }

  /** The value read back at the x position of an in-range value is that value. */
  lemma {:induction false} DragRoundTrip(s: SliderState, m: Metrics, v: int)
    requires SlidingAreaWidth(m) > 0.0 && m.thumbRadius >= 0.0
    requires s.minValue < s.maxValue && s.minValue <= v <= s.maxValue
    ensures DragValue(s, m, GetActiveX(s, m, v)) == v
  {
    var a := SlidingAreaWidth(m);
    var n := (s.maxValue - s.minValue) as real;
    var k := (v - s.minValue) as real;
    var x := GetActiveX(s, m, v);
    assert x == a * (k / n);
    assert RelativeX(m, x) == x;
    ScaleBack(a, n, k);
    RoundOfInteger(v - s.minValue);
  }

  lemma ScaleBack(a: real, n: real, k: real)
    requires a > 0.0 && n > 0.0
    ensures n * ((a * (k / n)) / a) == k
  {
    assert (a * (k / n)) / a == k / n;
  }

  /** Moving the pointer right never lowers the dragged value. */
  lemma {:induction false} DragMonotone(s: SliderState, m: Metrics, x: real, y: real)
    requires SlidingAreaWidth(m) > 0.0 && s.minValue <= s.maxValue && x <= y
    ensures DragValue(s, m, x) <= DragValue(s, m, y)
  {
    RoundedMonotone(s, m, x, y);
    ClampMonotone(s.minValue, s.maxValue, RoundHalfEven(Scaled(s, m, x)), RoundHalfEven(Scaled(s, m, y)));
  }

  lemma RoundedMonotone(s: SliderState, m: Metrics, x: real, y: real)
    requires SlidingAreaWidth(m) > 0.0 && s.minValue <= s.maxValue && x <= y
    ensures RoundHalfEven(Scaled(s, m, x)) <= RoundHalfEven(Scaled(s, m, y))
  {
    var n := (s.maxValue - s.minValue) as real;
    ScaledMonotone(n, SlidingAreaWidth(m), RelativeX(m, x), RelativeX(m, y));
    RoundMonotone(Scaled(s, m, x), Scaled(s, m, y));
  }

  lemma ScaledMonotone(n: real, a: real, p: real, q: real)
    requires n >= 0.0 && a > 0.0 && p <= q
    ensures n * (p / a) <= n * (q / a)
  {
    DivMonotone(p, q, a);
    ScaleMonotone(n, p / a, q / a);
  }

  lemma ClampMonotone(lo: int, hi: int, kx: int, ky: int)
    requires kx <= ky
    ensures MinInt(hi, MaxInt(lo, lo + kx)) <= MinInt(hi, MaxInt(lo, lo + ky))
  {
  }

}
