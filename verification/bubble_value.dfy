/**
 * The state and notification half of `drawBubbleValue`, run once per frame:
 * it decides the new bubble text and current value, whether `onValueChanged`
 * fires and whether a 50 ms vibration is requested. The side effects are
 * returned as data; drawing the text is left to the host.
 */
module BubbleValue {
  import opened Options
  import opened Decimal
  import opened UnitPositions
  import opened Slider

  datatype BubbleStep = BubbleStep(
    state: SliderState,
    /** The argument `onValueChanged` is invoked with, if it is invoked. */
    notified: Option<int>,
    /** Whether `vibrate(50)` is requested. */
    vibrate: bool
  )

  /** The value sits exactly on the limit and the limit may not be passed. */
  predicate LimitReached(s: SliderState)
  {
    s.limitValue == Some(s.actualFractionalValue) && !s.allowLimitValueBypass
  }

  /** The bubble label for a value. */
  function ValueText(s: SliderState, value: int): string
  {
    GetUnitValue(value, s.unit, s.unitPosition)
  }

  /** The bubble label while the limit is reached: the indicator, a space, the limit with its unit. */
  function LimitText(s: SliderState): (t: string)
    requires s.limitValue.Some?
    ensures |t| > |s.limitValueIndicator| && t[..|s.limitValueIndicator|] == s.limitValueIndicator
    ensures t[|s.limitValueIndicator|] == ' '
    ensures var rest := t[|s.limitValueIndicator| + 1..];
            var sep := if s.unitPosition == Front then 0 else 1;
            |rest| >= |s.unit| + sep && ParseDecimal(rest[..|rest| - |s.unit| - sep]) == Some(s.limitValue.value)
  {
    var t := s.limitValueIndicator + " " + ValueText(s, s.limitValue.value);
    UnitValueRoundTrip(s.limitValue.value, s.unit, s.unitPosition);
    assert t[|s.limitValueIndicator| + 1..] == ValueText(s, s.limitValue.value);
    t
  }

  /** The displayed value is on the skip list: nothing changes this frame. */
  predicate Skipped(s: SliderState)
    requires s.slidingInterval != 0
  {
    GetDisplayValue(s) in s.valuesToSkip
  }

  function DrawBubbleValue(s: SliderState): (r: BubbleStep)
    requires s.slidingInterval != 0
    ensures Skipped(s) ==> r == BubbleStep(s, None, false)
    ensures r.state == s.(bubbleText := r.state.bubbleText, currentValue := r.state.currentValue)
    ensures !Skipped(s) && LimitReached(s) ==>
      r.state.currentValue == s.limitValue.value && r.state.bubbleText == LimitText(s)
    ensures !Skipped(s) && !LimitReached(s) ==>
      r.state.currentValue == GetDisplayValue(s) &&
      r.state.bubbleText == ValueText(s, GetDisplayValue(s))
    ensures r.vibrate <==>
      !Skipped(s) && LimitReached(s) && s.vibrateOnLimitReached && s.bubbleText != [] &&
      !Contains(s.bubbleText, ToDecimal(s.limitValue.value))
    ensures r.notified.Some? <==> !Skipped(s) && s.bubbleText != [] && r.state.bubbleText != s.bubbleText
    ensures r.notified.Some? ==> r.notified.value == r.state.currentValue
  {
    var displayValue := GetDisplayValue(s);
    if displayValue in s.valuesToSkip then
      BubbleStep(s, None, false)
    else
      var previousText := s.bubbleText;
      if LimitReached(s) then
        var limit := s.limitValue.value;
        var vibrate := s.vibrateOnLimitReached &&
          !Contains(s.bubbleText, ToDecimal(limit)) && previousText != [];
        Announce(previousText, s.(bubbleText := LimitText(s), currentValue := limit), vibrate)
      else
        Announce(previousText, s.(bubbleText := ValueText(s, displayValue), currentValue := displayValue), false)
  }

  /** Fires the callback with the new current value when the text changed from a non-empty one. */
  function Announce(previousText: string, next: SliderState, vibrate: bool): BubbleStep
  {
    var notified := if previousText != next.bubbleText && previousText != [] then Some(next.currentValue) else None;
    BubbleStep(next, notified, vibrate)
  }

  /** The very first frame, drawn from an empty bubble, neither notifies nor vibrates. */
  lemma FirstDrawIsSilent(s: SliderState)
    requires s.slidingInterval != 0 && s.bubbleText == []
    ensures DrawBubbleValue(s).notified == None
    ensures !DrawBubbleValue(s).vibrate
  {
  }

  /** The limit label mentions the limit's number. */
  lemma LimitTextShowsLimit(s: SliderState)
    requires s.limitValue.Some?
    ensures Contains(LimitText(s), ToDecimal(s.limitValue.value))
  {
    var d := ToDecimal(s.limitValue.value);
    var t := ValueText(s, s.limitValue.value);
    assert t == d + t[|d|..];
    assert LimitText(s) == (s.limitValueIndicator + " ") + d + t[|d|..];
    ContainsInfix(s.limitValueIndicator + " ", d, t[|d|..]);
  }

  /** Redrawing without an intervening change is harmless: the second frame
      leaves the state as the first left it, and neither notifies nor vibrates. */
  lemma RedrawIsQuiet(s: SliderState)
    requires s.slidingInterval != 0
    ensures var r := DrawBubbleValue(s);
            var r2 := DrawBubbleValue(r.state);
            r2.state == r.state && r2.notified == None && !r2.vibrate
  {
    var r := DrawBubbleValue(s);
    assert GetDisplayValue(r.state) == GetDisplayValue(s);
    if !Skipped(s) && LimitReached(s) {
      LimitTextShowsLimit(s);
    }
  }

  /** While the bubble shows a plain value, the callback fires exactly when the
      newly displayed value differs from the one shown. */
  lemma NotifiesIffValueChanges(s: SliderState)
    requires s.slidingInterval != 0 && !Skipped(s) && !LimitReached(s)
    requires s.bubbleText == ValueText(s, s.currentValue)
    ensures DrawBubbleValue(s).notified.Some? <==> GetDisplayValue(s) != s.currentValue
    ensures DrawBubbleValue(s).notified.Some? ==>
      DrawBubbleValue(s).notified.value == GetDisplayValue(s)
  {
    if ValueText(s, GetDisplayValue(s)) == s.bubbleText {
      UnitValueInjective(GetDisplayValue(s), s.currentValue, s.unit, s.unitPosition);
    }
  }

  /** Reaching the limit from a shown plain value vibrates exactly when that
      text does not already contain the limit's digits. */
  lemma VibratesOnReachingLimit(s: SliderState)
    requires s.slidingInterval != 0 && !Skipped(s) && LimitReached(s)
    requires s.vibrateOnLimitReached && s.bubbleText == ValueText(s, s.currentValue)
    ensures DrawBubbleValue(s).vibrate <==> !Contains(s.bubbleText, ToDecimal(s.limitValue.value))
  {
  }

  /** The limit test is a substring search, so a unit that contains the limit's
      digits suppresses the vibration: with unit "m2" and limit 2, the text
      "1 m2" already contains "2". */
  lemma DigitInUnitSuppressesVibration(s: SliderState)
    requires s.slidingInterval == 1 && s.valuesToSkip == []
    requires s.limitValue == Some(2) && s.actualFractionalValue == 2 && !s.allowLimitValueBypass
    requires s.vibrateOnLimitReached && s.unit == "m2" && s.unitPosition.Back?
    requires s.bubbleText == "1 m2"
    ensures !DrawBubbleValue(s).vibrate
  {
    assert DigitChar(2) == '2';
    assert ToDecimal(2) == "2";
    ContainsInfix("1 m", "2", "");
    assert "1 m" + "2" + "" == s.bubbleText;
  }

  /** The skip list does not keep the limit from being announced: with a
      sliding interval of 10 the value 47 displays as 40, which is not skipped,
      so the limit branch shows and reports 47 although 47 is on the list. */
  lemma SkippedLimitIsAnnounced(s: SliderState)
    requires s.slidingInterval == 10 && s.valuesToSkip == [47]
    requires s.limitValue == Some(47) && s.actualFractionalValue == 47 && !s.allowLimitValueBypass
    requires s.bubbleText != [] && s.bubbleText != LimitText(s)
    ensures !Skipped(s) && 47 in s.valuesToSkip
    ensures DrawBubbleValue(s).notified == Some(47)
  {
    SnapTruncatesNegatives();
  }

  /** A non-negative value under a bound, such as an active limit or maxValue,
      yields a current value under that bound (a skipped frame keeps the old one). */
  lemma CurrentValueUnderBound(s: SliderState, bound: int)
    requires s.slidingInterval > 0 && 0 <= s.actualFractionalValue <= bound
    requires Skipped(s) ==> s.currentValue <= bound
    ensures DrawBubbleValue(s).state.currentValue <= bound
  {
    SnapTowardZero(s.actualFractionalValue, s.slidingInterval);
  }
}
