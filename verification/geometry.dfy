/**
 * Per-frame pixel geometry, idealised from `Float` to `real`: where the thumb
 * and the active track end, how wide the value bubble is, where it is placed,
 * where its text goes, and the outline path with the tail pointing at the thumb.
 * `dp` is the density factor (`dp(1f)`); sizes in dp are multiples of it.
 */
module Geometry {
  import opened KotlinMath

  /** Fixed style metrics, in dp. */
  function TopPadding(dp: real): real { 2.0 * dp }
  function BubbleHeight(dp: real): real { 26.0 * dp }
  function MinimumBubbleWidth(dp: real): real { 84.0 * dp }
  function BubbleTextPadding(dp: real): real { 16.0 * dp }

  /** Centre of the drawn thumb: the drag position kept half a radius inside
      both edges of the view. */
  function ThumbCenterX(width: real, radius: real, x: real): (c: real)
    ensures c <= width - radius / 2.0
    ensures radius <= width ==> radius / 2.0 <= c
    ensures radius / 2.0 <= x <= width - radius / 2.0 ==> c == x
  {
    MinReal(width - radius / 2.0, MaxReal(radius / 2.0, x))
  }

  /** Right edge of the filled part of the track. */
  function ActiveTrackRight(width: real, radius: real, x: real): (e: real)
    ensures e <= width
    ensures radius / 2.0 <= width ==> radius / 2.0 <= e
    ensures radius / 2.0 <= x <= width ==> e == x
  {
    MinReal(width, MaxReal(radius / 2.0, x))
  }

  /** Where the thumb can move freely, the filled track ends at its centre. */
  lemma ActiveTrackEndsAtThumb(width: real, radius: real, x: real)
    requires radius >= 0.0 && radius / 2.0 <= x <= width - radius / 2.0
    ensures ActiveTrackRight(width, radius, x) == ThumbCenterX(width, radius, x)
  {
  }

  /** Bubble width: wide enough for the text plus padding on both sides, and
      never narrower than the minimum. */
  function BubbleWidth(textWidth: real, dp: real): (w: real)
    ensures w >= MinimumBubbleWidth(dp)
    ensures w >= textWidth + 2.0 * BubbleTextPadding(dp)
    ensures w == MinimumBubbleWidth(dp) || w == textWidth + 2.0 * BubbleTextPadding(dp)
  {
    MaxReal(MinimumBubbleWidth(dp), textWidth + BubbleTextPadding(dp) * 2.0)
  }

  /** Left edge of the bubble: centred over `x`, then kept inside the view. */
  function BubbleLeft(width: real, bubbleWidth: real, x: real): (left: real)
    ensures left <= width - bubbleWidth
    ensures bubbleWidth <= width ==> 0.0 <= left
    ensures 0.0 <= x - bubbleWidth / 2.0 <= width - bubbleWidth ==> left == x - bubbleWidth / 2.0
  {
    MinReal(width - bubbleWidth, MaxReal(0.0, x - bubbleWidth / 2.0))
  }

  /** Half a text width as the view computes it: the measured bounds are an
      `Int`, so `width() / 2` is integer division, which loses half a pixel
      for an odd width. */
  lemma HalfOfWidth(n: nat)
    ensures n % 2 == 0 ==> (n / 2) as real == n as real / 2.0
    ensures n % 2 == 1 ==> (n / 2) as real == n as real / 2.0 - 0.5
  {
    assert n == 2 * (n / 2) + n % 2;
  }

  /** Left edge of the bubble text (`getBubbleTextHorizontalOffset`), which also
      fixes the bubble width from the measured text width, an integer number of
      pixels. The clamp to the right edge halves the remaining room exactly, but
      the other two candidates subtract the integer half of the text width, so
      the text's centre sits up to half a pixel right of the bubble's centre,
      exactly on it for an even width; a bubble that fits around `x` has the
      text centred on `x` in the same sense. */
  function BubbleTextLeft(width: real, textWidth: nat, dp: real, x: real): (left: real)
    ensures var bw := BubbleWidth(textWidth as real, dp);
            var gap := (left + textWidth as real / 2.0) - (BubbleLeft(width, bw, x) + bw / 2.0);
            0.0 <= gap <= 0.5 && (textWidth % 2 == 0 ==> gap == 0.0)
    ensures var bw := BubbleWidth(textWidth as real, dp);
            var gap := (left + textWidth as real / 2.0) - x;
            bw / 2.0 <= x <= width - bw / 2.0 ==> 0.0 <= gap <= 0.5 && (textWidth % 2 == 0 ==> gap == 0.0)
  {
    var tw := textWidth as real;
    var half := (textWidth / 2) as real;
    var bubbleWidth := BubbleWidth(tw, dp);
    HalfOfWidth(textWidth);
    MinReal(width - tw - (bubbleWidth - tw) / 2.0,
            MaxReal(bubbleWidth / 2.0 - half, x - half))
  }

  /** A 41-pixel text over a 400-pixel view at x = 200: the bubble is centred on
      200, while the text starts at 180 and so is centred on 200.5. */
  lemma OddWidthTextOffCentre()
    ensures BubbleLeft(400.0, BubbleWidth(41.0, 1.0), 200.0) + BubbleWidth(41.0, 1.0) / 2.0 == 200.0
    ensures BubbleTextLeft(400.0, 41, 1.0, 200.0) == 180.0
  {
  }

  /** How far the tail may lean away from the bubble's centre. */
  function TailCap(radius: real, dp: real): real
  {
    radius / 2.0 + 2.0 * dp
  }

  /** How far a bubble centred on `x` would stick out past the nearer edge. */
  function ClipDistance(width: real, bubbleWidth: real, x: real): (d: real)
    ensures d >= 0.0
  {
    var overLeft := x - bubbleWidth / 2.0;
    var overRight := width - bubbleWidth;
    if 0.0 > overLeft then -overLeft
    else if overLeft > overRight then overLeft - overRight
    else 0.0
  }

  /** Distance along the bubble's bottom edge, from its right corner, to the tail tip. */
  function TailStart(width: real, bubbleWidth: real, x: real, radius: real, dp: real): (t: real)
    ensures TailCap(radius, dp) >= 0.0 ==>
      bubbleWidth / 2.0 - TailCap(radius, dp) <= t <= bubbleWidth / 2.0 + TailCap(radius, dp)
  {
    var comparatorVar1 := x - bubbleWidth / 2.0;
    var comparatorVar2 := width - bubbleWidth;
    if 0.0 > comparatorVar1 then
      bubbleWidth / 2.0 + MinReal(radius / 2.0 + dp * 2.0, -comparatorVar1)
    else if comparatorVar1 > comparatorVar2 then
      bubbleWidth / 2.0 - MinReal(radius / 2.0 + dp * 2.0, comparatorVar1 - comparatorVar2)
    else
      bubbleWidth / 2.0
  }

  /** Distance from the tail tip to the bubble's left corner. */
  function TailEnd(width: real, bubbleWidth: real, x: real, radius: real, dp: real): real
  {
    bubbleWidth - TailStart(width, bubbleWidth, x, radius, dp)
  }

  /** One relative `rLineTo` step of the outline. */
  datatype PathMove = PathMove(dx: real, dy: real)

  /** The bubble outline: a start point and relative moves, clockwise from the
      top-left corner, with the tail as a 3 dp wide, 4 dp deep point hanging below the bottom edge. */
  datatype Outline = Outline(startX: real, startY: real, moves: seq<PathMove>)

  function BubbleOutline(width: real, bubbleWidth: real, x: real, radius: real, dp: real): (o: Outline)
    ensures |o.moves| == 7
  {
    var tailStart := TailStart(width, bubbleWidth, x, radius, dp);
    var tailEnd := bubbleWidth - tailStart;
    Outline(BubbleLeft(width, bubbleWidth, x), TopPadding(dp), [
      PathMove(bubbleWidth, 0.0),
      PathMove(0.0, BubbleHeight(dp)),
      PathMove(-(tailStart - dp * 3.0), 0.0),
      PathMove(-(dp * 3.0), dp * 4.0),
      PathMove(-(dp * 3.0), -(dp * 4.0)),
      PathMove(-(tailEnd - dp * 3.0), 0.0),
      PathMove(0.0, -BubbleHeight(dp))
    ])
  }

  /** Total horizontal and vertical displacement of a run of moves. */
  function SumDx(moves: seq<PathMove>): real
  {
    if |moves| == 0 then 0.0 else SumDx(moves[..|moves| - 1]) + moves[|moves| - 1].dx
  }

  function SumDy(moves: seq<PathMove>): real
  {
    if |moves| == 0 then 0.0 else SumDy(moves[..|moves| - 1]) + moves[|moves| - 1].dy
  }

  /** The tail tip: the point reached after the first four moves. */
  function TailTipX(o: Outline): real
    requires |o.moves| >= 4
  {
    o.startX + SumDx(o.moves[..4])
  }

  /** Extending a run of moves by the next move adds that move's displacement. */
  lemma SumStep(ms: seq<PathMove>, k: nat)
    requires k < |ms|
    ensures SumDx(ms[..k + 1]) == SumDx(ms[..k]) + ms[k].dx
    ensures SumDy(ms[..k + 1]) == SumDy(ms[..k]) + ms[k].dy
  {
    assert ms[..k + 1][..k] == ms[..k];
  }

  /** Sums over the seven moves of an outline, unrolled. */
  lemma SumsOfSeven(ms: seq<PathMove>)
    requires |ms| == 7
    ensures SumDx(ms) == ms[0].dx + ms[1].dx + ms[2].dx + ms[3].dx + ms[4].dx + ms[5].dx + ms[6].dx
    ensures SumDy(ms) == ms[0].dy + ms[1].dy + ms[2].dy + ms[3].dy + ms[4].dy + ms[5].dy + ms[6].dy
    ensures SumDx(ms[..4]) == ms[0].dx + ms[1].dx + ms[2].dx + ms[3].dx
  {
    SumStep(ms, 0);
    SumStep(ms, 1);
    SumStep(ms, 2);
    SumStep(ms, 3);
    SumStep(ms, 4);
    SumStep(ms, 5);
    SumStep(ms, 6);
    assert ms[..7] == ms;
  }

  /** The outline is closed: its moves return to the start point. */
  lemma OutlineCloses(width: real, bubbleWidth: real, x: real, radius: real, dp: real)
    ensures var o := BubbleOutline(width, bubbleWidth, x, radius, dp);
            SumDx(o.moves) == 0.0 && SumDy(o.moves) == 0.0
  {
    SumsOfSeven(BubbleOutline(width, bubbleWidth, x, radius, dp).moves);
  }

  /** The tail tip sits `TailEnd` to the right of the bubble's left edge. */
  lemma TailTipAtTailEnd(width: real, bubbleWidth: real, x: real, radius: real, dp: real)
    ensures var o := BubbleOutline(width, bubbleWidth, x, radius, dp);
            TailTipX(o) == BubbleLeft(width, bubbleWidth, x) + TailEnd(width, bubbleWidth, x, radius, dp)
  {
    SumsOfSeven(BubbleOutline(width, bubbleWidth, x, radius, dp).moves);
  }

  /** When the bubble fits and is clipped by no more than the cap, the tail
      points exactly at `x`; otherwise it leans the full cap toward `x`. */
  lemma {:induction false} TailTipTracksX(width: real, bubbleWidth: real, x: real, radius: real, dp: real)
    requires bubbleWidth <= width && TailCap(radius, dp) >= 0.0
    ensures var tip := TailTipX(BubbleOutline(width, bubbleWidth, x, radius, dp));
            var centre := BubbleLeft(width, bubbleWidth, x) + bubbleWidth / 2.0;
            (ClipDistance(width, bubbleWidth, x) <= TailCap(radius, dp) ==> tip == x) &&
            (ClipDistance(width, bubbleWidth, x) > TailCap(radius, dp) ==>
               tip == centre - TailCap(radius, dp) || tip == centre + TailCap(radius, dp)) &&
            centre - TailCap(radius, dp) <= tip <= centre + TailCap(radius, dp)
  {
    TailTipAtTailEnd(width, bubbleWidth, x, radius, dp);
  }

  /** With the default-sized bubble and a thumb radius up to 74 dp, both bottom
      segments beside the tail run leftwards: the tail leaves the bottom edge between its ends. */
  lemma TailWithinBottomEdge(width: real, bubbleWidth: real, x: real, radius: real, dp: real)
    requires dp > 0.0 && 0.0 <= radius <= 74.0 * dp && bubbleWidth >= MinimumBubbleWidth(dp)
    ensures TailStart(width, bubbleWidth, x, radius, dp) >= 3.0 * dp
    ensures TailEnd(width, bubbleWidth, x, radius, dp) >= 3.0 * dp
  {
  }
}
