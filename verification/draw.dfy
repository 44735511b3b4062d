/**
 * One `onDraw` pass, reduced to what it decides: the x the frame is drawn at,
 * the bubble-text step with its notifications, and the geometry of the bubble,
 * its tail, the thumb and the active track. The measured width of a text, in
 * whole pixels, is a parameter supplied by the host.
 */
module Draw {
  import opened Options
  import opened KotlinMath
  import opened Decimal
  import opened Slider
  import opened Touch
  import opened BubbleValue
  import opened Geometry

  datatype BubbleLayout = BubbleLayout(
    width: real,
    left: real,
    textLeft: real,
    tailStart: real,
    outline: Outline
  )

  datatype Frame = Frame(
    step: BubbleStep,
    x: real,
    thumbCenterX: real,
    activeTrackRight: real,
    /** None when the bubble is hidden. */
    bubble: Option<BubbleLayout>
  )

  /** The x the frame is drawn at: the last drag position, else the value's position. */
  function FrameX(s: SliderState, m: Metrics): (x: real)
    requires s.actualXPosition.None? ==> s.minValue != s.maxValue
    ensures s.actualXPosition.Some? ==> x == s.actualXPosition.value
    ensures s.actualXPosition.None? ==> x == GetActiveX(s, m, s.actualFractionalValue)
  {
    match s.actualXPosition
    case Some(x) => x
    case None => GetActiveX(s, m, s.actualFractionalValue)
  }

  function OnDraw(s: SliderState, m: Metrics, textWidth: string -> nat): (f: Frame)
    requires s.slidingInterval != 0
    requires s.actualXPosition.None? ==> s.minValue != s.maxValue
    ensures f.step == DrawBubbleValue(s)
    ensures f.x == FrameX(s, m)
    ensures s.isBubbleHidden <==> f.bubble.None?
    ensures f.bubble.Some? ==>
      f.bubble.value.width == BubbleWidth(textWidth(f.step.state.bubbleText) as real, m.dp) &&
      f.bubble.value.outline.startX == f.bubble.value.left
  {
    var x := FrameX(s, m);
    var step := DrawBubbleValue(s);
    var width := m.measuredWidth as real;
    var bubble :=
      if s.isBubbleHidden then None
      else
        var tw := textWidth(step.state.bubbleText);
        var bw := BubbleWidth(tw as real, m.dp);
        Some(BubbleLayout(bw, BubbleLeft(width, bw, x), BubbleTextLeft(width, tw, m.dp, x),
                          TailStart(width, bw, x, m.thumbRadius, m.dp),
                          BubbleOutline(width, bw, x, m.thumbRadius, m.dp)));
    Frame(step, x, ThumbCenterX(width, m.thumbRadius, x), ActiveTrackRight(width, m.thumbRadius, x), bubble)
  }

  /** Away from the edges, the tail tip, the thumb centre and the end of the
      filled track all sit at the frame's x. */
  lemma TailThumbAndTrackAgree(s: SliderState, m: Metrics, textWidth: string -> nat)
    requires s.slidingInterval != 0
    requires s.actualXPosition.None? ==> s.minValue != s.maxValue
    requires m.thumbRadius >= 0.0 && m.dp >= 0.0 && !s.isBubbleHidden
    requires var f := OnDraw(s, m, textWidth);
             var w := m.measuredWidth as real;
             f.bubble.value.width <= w &&
             ClipDistance(w, f.bubble.value.width, f.x) <= TailCap(m.thumbRadius, m.dp) &&
             m.thumbRadius / 2.0 <= f.x <= w - m.thumbRadius / 2.0
    ensures var f := OnDraw(s, m, textWidth);
            TailTipX(f.bubble.value.outline) == f.x == f.thumbCenterX == f.activeTrackRight
  {
    var f := OnDraw(s, m, textWidth);
    TailTipTracksX(m.measuredWidth as real, f.bubble.value.width, f.x, m.thumbRadius, m.dp);
  }

  /** Text and outline of the bubble share one centre, up to the half pixel the
      integer halving of an odd text width loses. */
  lemma BubbleTextCentred(s: SliderState, m: Metrics, textWidth: string -> nat)
    requires s.slidingInterval != 0
    requires s.actualXPosition.None? ==> s.minValue != s.maxValue
    requires !s.isBubbleHidden
    ensures var f := OnDraw(s, m, textWidth);
            var tw := textWidth(f.step.state.bubbleText);
            var gap := (f.bubble.value.textLeft + tw as real / 2.0) - (f.bubble.value.left + f.bubble.value.width / 2.0);
            0.0 <= gap <= 0.5 && (tw % 2 == 0 ==> gap == 0.0)
  {
  }

  /** Dragging to or past an active limit and drawing shows the limit label with
      the limit as current value; the vibration is requested only when the text
      shown before did not already carry the limit's digits. */
  lemma DragPastLimitShowsLimit(s: SliderState, m: Metrics, x: real)
    requires DragDefined(s, m) && LimitActive(s) && s.slidingInterval != 0
    requires DragValue(s, m, x) >= s.limitValue.value
    requires Snap(s.limitValue.value, s.slidingInterval) !in s.valuesToSkip
    ensures var t := HandleSlidingMovement(s, m, x).state;
            var r := DrawBubbleValue(t);
            r.state.currentValue == s.limitValue.value &&
            r.state.bubbleText == LimitText(s) &&
            (r.vibrate <==> s.vibrateOnLimitReached && s.bubbleText != [] &&
                            !Contains(s.bubbleText, ToDecimal(s.limitValue.value)))
  {
    var t := HandleSlidingMovement(s, m, x).state;
    assert t.actualFractionalValue == s.limitValue.value;
    assert LimitText(t) == LimitText(s);
  }

  /** Held at the limit, further drags past it neither vibrate nor notify again. */
  lemma HeldAtLimitIsQuiet(s: SliderState, m: Metrics, x: real)
    requires DragDefined(s, m) && LimitActive(s) && s.slidingInterval != 0
    requires DragValue(s, m, x) >= s.limitValue.value
    requires Snap(s.limitValue.value, s.slidingInterval) !in s.valuesToSkip
    requires s.bubbleText == LimitText(s)
    ensures var r := DrawBubbleValue(HandleSlidingMovement(s, m, x).state);
            !r.vibrate && r.notified == None
  {
    DragPastLimitShowsLimit(s, m, x);
    LimitTextShowsLimit(s);
  }
}
