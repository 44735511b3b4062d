# LabeledSeekSlider — a Dafny model of the value model, notification step and layout clamps

`LabeledSeekSlider` is an Android slider view: a track with a draggable thumb, a
floating "bubble" above the thumb that shows the current value with its unit, an
optional soft limit (with a "Max" indicator and a one-shot vibration when it is
reached), a sliding interval that snaps the displayed value, and a list of snapped display
values that are never announced. This project models the part of the view that decides
things, as pure functions over one immutable state record:

- `options.dfy` — `Option`, the model of Kotlin's nullable types and `?:`.
- `kotlin_math.dfy` — `Int.div` (truncating toward zero), `kotlin.math.round`
  (half to even, over `real`), `min`/`max`.
- `decimal.dfy` — `Int.toString()`, a parser inverting it, `String.contains`.
- `unit_position.dfy` — the `UnitPosition` enum, its codes and `parse`.
- `slider.dfy` — the state record, the `minValue`/`maxValue`/`defaultValue`/
  `limitValue` setters, `getDisplayValue`, `getUnitValue`, `getActiveX`.
- `touch.dfy` — `onTouchEvent` and `handleSlidingMovement`.
- `bubble_value.dfy` — the state/notification half of `drawBubbleValue`: the new
  bubble text and current value, whether `onValueChanged` fires and whether a
  vibration is requested, returned as data.
- `geometry.dfy` — thumb-centre clamp, active-track edge, bubble width, bubble and
  text placement, tail position and the bubble outline path, over `real`.
- `measure.dfy` — `measureDimension`.
- `draw.dfy` — one `onDraw` pass tying the above together.

Inputs the view gets from its platform are parameters: the measured width, the
thumb radius and the density factor `dp(1f)` (`Slider.Metrics`), and the measured
width of a text (a `string -> nat` function, in whole pixels as a text-bounds `Rect` reports it).

Where the code does something one might not expect, the model follows the code:

- The display value is `actualFractionalValue.div(slidingInterval) * slidingInterval`,
  which truncates toward zero (`Snap(-7, 5) == -5`), and it can fall below
  `minValue` when `minValue` is not a multiple of the interval (`Snap(5, 10) == 0`).
- The `limitValue` setter stores the limit as given; it is not clamped into
  `[minValue, maxValue]`. A limit below `minValue` therefore pulls every drag below
  the range (`Touch.DragBelowMinUnderLowLimit`).
- A skipped display value freezes the bubble text and current value for that
  frame; nothing "jumps" to a neighbouring value.
- The skip list is tested against the snapped display value only. A limit that
  is on the list but is not itself a display value is still shown and reported:
  with interval 10, limit 47 and 47 on the list, the value 47 displays as 40,
  and the limit branch announces 47 (`BubbleValue.SkippedLimitIsAnnounced`).
- The bubble is kept within `[0, width]` with no side padding; the tail leans at
  most `thumbRadius / 2 + dp(2)` from the bubble's centre.
- FRONT puts the unit right after the number (`"5kg"`), BACK after a space (`"5 kg"`).
- The "already at the limit" test before vibrating is a substring search for the
  limit's digits in the previous text, so a unit such as `"m2"` with limit 2
  suppresses the vibration (`BubbleValue.DigitInUnitSuppressesVibration`).

## Model

| member | source | states |
|---|---|---|
| KotlinMath.TruncDiv | labeledseekslider/src/main/java/com/zigis/labeledseekslider/LabeledSeekSlider.kt:784 | `Int.div`: the remainder has the sign of the dividend and is smaller than the divisor in magnitude |
| KotlinMath.TruncDivUnique | labeledseekslider/src/main/java/com/zigis/labeledseekslider/LabeledSeekSlider.kt:784 | that remainder rule determines the quotient uniquely |
| KotlinMath.RoundHalfEven | labeledseekslider/src/main/java/com/zigis/labeledseekslider/LabeledSeekSlider.kt:583 | `round` lands within one half of its argument |
| KotlinMath.RoundOfInteger | labeledseekslider/src/main/java/com/zigis/labeledseekslider/LabeledSeekSlider.kt:583 | `round` leaves integral values unchanged |
| KotlinMath.RoundMonotone | labeledseekslider/src/main/java/com/zigis/labeledseekslider/LabeledSeekSlider.kt:583 | `round` is monotone |
| Decimal.ToDecimal | labeledseekslider/src/main/java/com/zigis/labeledseekslider/LabeledSeekSlider.kt:859 | `toString` is non-empty, all digits for non-negatives, leading '-' exactly for negatives |
| Decimal.DecimalRoundTrip | labeledseekslider/src/main/java/com/zigis/labeledseekslider/LabeledSeekSlider.kt:859 | parsing the printed number gives the number back |
| Decimal.DecimalInjective | labeledseekslider/src/main/java/com/zigis/labeledseekslider/LabeledSeekSlider.kt:859 | distinct values print differently |
| Decimal.Contains | labeledseekslider/src/main/java/com/zigis/labeledseekslider/LabeledSeekSlider.kt:724 | the empty block is always found, a longer block never is, and a full-length match is equality |
| Decimal.ContainsIffOccurs | labeledseekslider/src/main/java/com/zigis/labeledseekslider/LabeledSeekSlider.kt:724 | `contains` holds exactly when the block occurs at some index |
| Decimal.ContainsInfix | labeledseekslider/src/main/java/com/zigis/labeledseekslider/LabeledSeekSlider.kt:724 | a text contains every block written inside it |
| UnitPositions.FirstWithValue | labeledseekslider/src/main/java/com/zigis/labeledseekslider/custom/UnitPosition.kt:9 | `firstOrNull` returns the first entry whose code matches, or nothing when none does |
| UnitPositions.Parse | labeledseekslider/src/main/java/com/zigis/labeledseekslider/custom/UnitPosition.kt:8-10 | `parse` gives FRONT exactly for code 0 |
| UnitPositions.CodesDistinct | labeledseekslider/src/main/java/com/zigis/labeledseekslider/custom/UnitPosition.kt:3-5 | the two codes differ, so a code names at most one constant |
| UnitPositions.ParseKnownCodes | labeledseekslider/src/main/java/com/zigis/labeledseekslider/custom/UnitPosition.kt:3-9 | 0 parses to FRONT, 1 to BACK |
| UnitPositions.ParseFallback | labeledseekslider/src/main/java/com/zigis/labeledseekslider/custom/UnitPosition.kt:9 | any other code, or null, parses to BACK |
| UnitPositions.ParseRoundTrip | labeledseekslider/src/main/java/com/zigis/labeledseekslider/custom/UnitPosition.kt:3-10 | every constant's code parses back to it |
| Slider.Initial | labeledseekslider/src/main/java/com/zigis/labeledseekslider/LabeledSeekSlider.kt:35-303 | a new slider spans 0..100 with default 50, no limit, interval 1 and an empty bubble, while its value and `currentValue` start at 150, outside the range |
| Slider.DefaultAttributesBringValueInRange | labeledseekslider/src/main/java/com/zigis/labeledseekslider/LabeledSeekSlider.kt:382-395 | applying minValue 0, maxValue 100 and defaultValue 50 at construction puts the value in range at 50 with no drag position, and `currentValue` stays 150 until the first frame |
| Slider.SetMinValue | labeledseekslider/src/main/java/com/zigis/labeledseekslider/LabeledSeekSlider.kt:35-45 | the value is raised to the new minimum; a changed minimum drops the drag position; nothing else changes |
| Slider.SetMaxValue | labeledseekslider/src/main/java/com/zigis/labeledseekslider/LabeledSeekSlider.kt:49-59 | the value is lowered to the new maximum; a changed maximum drops the drag position; nothing else changes |
| Slider.SetDefaultValue | labeledseekslider/src/main/java/com/zigis/labeledseekslider/LabeledSeekSlider.kt:63-72 | the default is clamped into the range (maximum wins when the bounds cross) and becomes the value |
| Slider.SetLimitValue | labeledseekslider/src/main/java/com/zigis/labeledseekslider/LabeledSeekSlider.kt:77-87 | the limit is stored unclamped and lowers a value above it; a changed limit drops the drag position |
| Slider.BoundSettersKeepRange | labeledseekslider/src/main/java/com/zigis/labeledseekslider/LabeledSeekSlider.kt:35-59 | moving a bound without crossing the other keeps the value in range |
| Slider.LimitSetterKeepsRange | labeledseekslider/src/main/java/com/zigis/labeledseekslider/LabeledSeekSlider.kt:77-87 | a limit at or above the minimum keeps the value in range and under the limit |
| Slider.LimitBelowMinLeavesRange | labeledseekslider/src/main/java/com/zigis/labeledseekslider/LabeledSeekSlider.kt:73-87 | a limit below the minimum is accepted and moves the value below the range |
| Slider.SetDefaultValueIdempotent | labeledseekslider/src/main/java/com/zigis/labeledseekslider/LabeledSeekSlider.kt:63-72 | applying an in-range default twice equals applying it once |
| Slider.Snap | labeledseekslider/src/main/java/com/zigis/labeledseekslider/LabeledSeekSlider.kt:783-785 | the display value lies less than one interval from the value, on the side of zero |
| Slider.GetDisplayValue | labeledseekslider/src/main/java/com/zigis/labeledseekslider/LabeledSeekSlider.kt:783-785 | the shown value lies less than one sliding interval from the slider's value, on the side of zero |
| Slider.SnapIsMultiple | labeledseekslider/src/main/java/com/zigis/labeledseekslider/LabeledSeekSlider.kt:783-785 | the display value is a multiple of the interval |
| Slider.SnapIdempotent | labeledseekslider/src/main/java/com/zigis/labeledseekslider/LabeledSeekSlider.kt:783-785 | snapping twice equals snapping once |
| Slider.SnapTruncatesNegatives | labeledseekslider/src/main/java/com/zigis/labeledseekslider/LabeledSeekSlider.kt:783-785 | 47 with interval 10 shows 40; -7 with interval 5 shows -5, not -10 |
| Slider.SnapTowardZero | labeledseekslider/src/main/java/com/zigis/labeledseekslider/LabeledSeekSlider.kt:783-785 | with a positive interval the display value lies between zero and the value |
| Slider.SnapCanUndershootMin | labeledseekslider/src/main/java/com/zigis/labeledseekslider/LabeledSeekSlider.kt:783-785 | minimum 5 with interval 10 is displayed as 0 |
| Slider.GetUnitValue | labeledseekslider/src/main/java/com/zigis/labeledseekslider/LabeledSeekSlider.kt:857-863 | the label is the number, then the unit directly (FRONT) or after one space (BACK) |
| Slider.UnitValueRoundTrip | labeledseekslider/src/main/java/com/zigis/labeledseekslider/LabeledSeekSlider.kt:857-863 | stripping the unit and separator and parsing gives the value back |
| Slider.UnitValueInjective | labeledseekslider/src/main/java/com/zigis/labeledseekslider/LabeledSeekSlider.kt:857-863 | distinct values get distinct labels |
| Slider.GetActiveX | labeledseekslider/src/main/java/com/zigis/labeledseekslider/LabeledSeekSlider.kt:603-607 | minValue maps to 0, maxValue to the sliding width, in-range values in between |
| Slider.ActiveXMonotone | labeledseekslider/src/main/java/com/zigis/labeledseekslider/LabeledSeekSlider.kt:603-607 | larger values map further right |
| Touch.RelativeX | labeledseekslider/src/main/java/com/zigis/labeledseekslider/LabeledSeekSlider.kt:578 | the pointer is clamped into [-thumbRadius, slidingWidth]: unchanged inside, pinned to the nearer end outside |
| Touch.DragValue | labeledseekslider/src/main/java/com/zigis/labeledseekslider/LabeledSeekSlider.kt:577-584 | the dragged value never exceeds maxValue and, with ordered bounds, never falls below minValue |
| Touch.HandleSlidingMovement | labeledseekslider/src/main/java/com/zigis/labeledseekslider/LabeledSeekSlider.kt:577-601 | the value is the dragged value, capped by an active limit; the thumb is pinned at the limit's x exactly when the drag passes an active limit, else at the pointer; always handled |
| Touch.OnTouchEvent | labeledseekslider/src/main/java/com/zigis/labeledseekslider/LabeledSeekSlider.kt:569-575 | a disabled slider or another action is unhandled and unchanged; down, move and up drag |
| Touch.DragRespectsLimit | labeledseekslider/src/main/java/com/zigis/labeledseekslider/LabeledSeekSlider.kt:581-587 | under an active limit a drag never leaves the value above it, nor out of range when the limit is in range |
| Touch.DragStaysInRange | labeledseekslider/src/main/java/com/zigis/labeledseekslider/LabeledSeekSlider.kt:581-587 | without an active limit a drag keeps the value in range |
| Touch.DragBelowMinUnderLowLimit | labeledseekslider/src/main/java/com/zigis/labeledseekslider/LabeledSeekSlider.kt:585-587 | a limit below minValue pulls every drag below minValue |
| Touch.DragEdges | labeledseekslider/src/main/java/com/zigis/labeledseekslider/LabeledSeekSlider.kt:578-584 | dragging to or past the left end gives minValue, to or past the right end gives maxValue |
| Touch.DragRoundTrip | labeledseekslider/src/main/java/com/zigis/labeledseekslider/LabeledSeekSlider.kt:577-607 | dragging to the x of an in-range value yields that value |
| Touch.DragMonotone | labeledseekslider/src/main/java/com/zigis/labeledseekslider/LabeledSeekSlider.kt:578-584 | moving the pointer right never lowers the value |
| BubbleValue.DrawBubbleValue | labeledseekslider/src/main/java/com/zigis/labeledseekslider/LabeledSeekSlider.kt:712-737 | skipped values change nothing; at the limit the label is indicator + limit and the value the limit, else the snapped value; vibration and callback conditions |
| BubbleValue.FirstDrawIsSilent | labeledseekslider/src/main/java/com/zigis/labeledseekslider/LabeledSeekSlider.kt:723-737 | drawing from an empty bubble neither notifies nor vibrates |
| BubbleValue.LimitText | labeledseekslider/src/main/java/com/zigis/labeledseekslider/LabeledSeekSlider.kt:728 | the limit label is the indicator, a space, then a label from which the limit parses back |
| BubbleValue.LimitTextShowsLimit | labeledseekslider/src/main/java/com/zigis/labeledseekslider/LabeledSeekSlider.kt:724-728 | the limit label contains the limit's digits |
| BubbleValue.RedrawIsQuiet | labeledseekslider/src/main/java/com/zigis/labeledseekslider/LabeledSeekSlider.kt:712-737 | a second frame without changes keeps the state and neither notifies nor vibrates |
| BubbleValue.NotifiesIffValueChanges | labeledseekslider/src/main/java/com/zigis/labeledseekslider/LabeledSeekSlider.kt:730-737 | from a shown plain value, the callback fires exactly when the display value changes, with the new value |
| BubbleValue.VibratesOnReachingLimit | labeledseekslider/src/main/java/com/zigis/labeledseekslider/LabeledSeekSlider.kt:722-727 | reaching the limit from a plain value vibrates exactly when that text lacks the limit's digits |
| BubbleValue.DigitInUnitSuppressesVibration | labeledseekslider/src/main/java/com/zigis/labeledseekslider/LabeledSeekSlider.kt:724 | unit "m2" with limit 2 and previous text "1 m2" gives no vibration |
| BubbleValue.SkippedLimitIsAnnounced | labeledseekslider/src/main/java/com/zigis/labeledseekslider/LabeledSeekSlider.kt:712-736 | with interval 10, limit 47 on the skip list and value 47, the frame is not skipped and `onValueChanged` receives 47 |
| BubbleValue.CurrentValueUnderBound | labeledseekslider/src/main/java/com/zigis/labeledseekslider/LabeledSeekSlider.kt:712-733 | a non-negative value under a bound yields a current value under that bound |
| Geometry.ThumbCenterX | labeledseekslider/src/main/java/com/zigis/labeledseekslider/LabeledSeekSlider.kt:610-613 | the thumb centre stays half a radius inside both edges and equals x away from them |
| Geometry.ActiveTrackRight | labeledseekslider/src/main/java/com/zigis/labeledseekslider/LabeledSeekSlider.kt:638 | the filled track ends within [radius/2, width] and at x inside that span |
| Geometry.ActiveTrackEndsAtThumb | labeledseekslider/src/main/java/com/zigis/labeledseekslider/LabeledSeekSlider.kt:610-638 | away from the edges the filled track ends at the thumb centre |
| Geometry.BubbleWidth | labeledseekslider/src/main/java/com/zigis/labeledseekslider/LabeledSeekSlider.kt:808 | the bubble is at least the minimum width and at least the text plus both paddings, and equals one of them |
| Geometry.BubbleLeft | labeledseekslider/src/main/java/com/zigis/labeledseekslider/LabeledSeekSlider.kt:796-801 | a bubble that fits lies within the view, centred over x when possible |
| Geometry.BubbleTextLeft | labeledseekslider/src/main/java/com/zigis/labeledseekslider/LabeledSeekSlider.kt:806-816 | with the text width an integer halved by integer division, the text's centre lies between the bubble's centre and half a pixel right of it (exactly on it for an even width), and likewise relative to `x` when the bubble fits around `x` |
| Geometry.OddWidthTextOffCentre | labeledseekslider/src/main/java/com/zigis/labeledseekslider/LabeledSeekSlider.kt:806-816 | a 41-pixel text at x 200 in a 400-pixel view starts at 180, half a pixel right of centring in its bubble centred on 200 |
| Geometry.TailStart | labeledseekslider/src/main/java/com/zigis/labeledseekslider/LabeledSeekSlider.kt:666-683 | the tail lies within the cap of the bubble's centre |
| Geometry.BubbleOutline | labeledseekslider/src/main/java/com/zigis/labeledseekslider/LabeledSeekSlider.kt:662-695 | the outline is seven relative moves |
| Geometry.OutlineCloses | labeledseekslider/src/main/java/com/zigis/labeledseekslider/LabeledSeekSlider.kt:686-694 | the moves sum to zero in both directions |
| Geometry.TailTipAtTailEnd | labeledseekslider/src/main/java/com/zigis/labeledseekslider/LabeledSeekSlider.kt:684-690 | the tip sits at the bubble's left edge plus tailEnd |
| Geometry.TailTipTracksX | labeledseekslider/src/main/java/com/zigis/labeledseekslider/LabeledSeekSlider.kt:664-690 | the tip points at x when the clip distance is within the cap, else leans the full cap |
| Geometry.TailWithinBottomEdge | labeledseekslider/src/main/java/com/zigis/labeledseekslider/LabeledSeekSlider.kt:669-691 | with a minimum-width bubble and radius up to 74 dp, the tail leaves the bottom edge between its two ends |
| Measure.MeasureDimension | labeledseekslider/src/main/java/com/zigis/labeledseekslider/LabeledSeekSlider.kt:519-532 | EXACTLY gives the spec size, AT_MOST the smaller of both, otherwise the desired size |
| Measure.DesiredSizeGrantedWhenItFits | labeledseekslider/src/main/java/com/zigis/labeledseekslider/LabeledSeekSlider.kt:519-532 | the desired size is granted whenever the parent leaves room for it |
| Draw.FrameX | labeledseekslider/src/main/java/com/zigis/labeledseekslider/LabeledSeekSlider.kt:536 | a frame is drawn at the drag position, else at the value's x |
| Draw.OnDraw | labeledseekslider/src/main/java/com/zigis/labeledseekslider/LabeledSeekSlider.kt:534-546 | a frame runs the bubble step, and lays out a bubble exactly when it is not hidden, sized by the new text |
| Draw.TailThumbAndTrackAgree | labeledseekslider/src/main/java/com/zigis/labeledseekslider/LabeledSeekSlider.kt:534-546 | away from the edges tail tip, thumb centre and track end coincide at x |
| Draw.BubbleTextCentred | labeledseekslider/src/main/java/com/zigis/labeledseekslider/LabeledSeekSlider.kt:534-546 | in a frame the bubble text's centre is at most half a pixel right of the bubble's centre, and on it for an even text width |
| Draw.DragPastLimitShowsLimit | labeledseekslider/src/main/java/com/zigis/labeledseekslider/LabeledSeekSlider.kt:577-737 | dragging past an active limit and drawing shows the limit label and value, vibrating only when the old text lacked the limit's digits |
| Draw.HeldAtLimitIsQuiet | labeledseekslider/src/main/java/com/zigis/labeledseekslider/LabeledSeekSlider.kt:577-737 | held at the limit, further drags neither vibrate nor notify |

## Left out

- Integers are unbounded: 32-bit overflow of Kotlin `Int` (for example in
  `maxValue - minValue`, or `Float.toInt()` saturation) is not modelled.
- `Float` is idealised as `real`: no rounding error, no NaN or infinity. Where the
  code would divide by zero in floating point, the model requires the divisor to
  be non-zero instead: `minValue != maxValue` when the frame's x comes from
  `getActiveX` and, for a drag, whenever a limit is active; and
  `measuredWidth - thumbRadius != 0` for a drag.
- `slidingInterval == 0` makes `Int.div` throw; the model requires it non-zero
  wherever the display value is read. Negative intervals are modelled.
- Canvas drawing, paints, fonts, shadows, `StaticLayout`, text measurement (a
  parameter) and the disabled-state colour matrix are rendering concerns.
- `invalidate()` is not modelled; every setter is a plain state transition.
- Setters that only store a field and redraw (`title`, `unit`, `unitPosition`,
  `limitValueIndicator`, `isDisabled`, colours, fonts, sizes) are record updates.
- Attribute parsing in `init`, font loading and the `dp` conversion are platform
  resources; `dp(1f)` is the `Metrics.dp` parameter.
- The vibration itself (`custom/ContextExtensions.kt`) is a system-service call;
  the model only returns a request flag.
- `onMeasure`'s choice of desired height from `isBubbleHidden` and
  `isRangeIndicationHidden`, and the bit packing of a measure spec, are layout
  outside the value and clamp core; `Measure.MeasureDimension` takes the spec's
  mode and size.
- Vertical offsets (title, track, range texts, including the track offset's
  branch on the two hidden flags) and the max range label's `measuredWidth -
  textWidth` placement are layout outside the value and clamp core.
- The thumb drawable's integer bounds (`toInt()` truncations) are not modelled;
  only the thumb centre is.
- The bubble layout of a frame measures the current bubble text; the code reuses
  the last measurement when the value is skipped, which is the same text unless
  the bubble was hidden in between.
- The app module's `MainActivity` only wires a logging callback.
