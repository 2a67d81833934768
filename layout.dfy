/** Screen geometry: hit testing, the font-size clamp, the option-box layout and the progress bar. */
module Layout {

  const Margin: real := 32.0
  const StartButtonW: real := 220.0
  const StartButtonH: real := 54.0

  /** One answer slot on screen. `flash` is the white highlight that fades after a click. */
  datatype OptionBox = OptionBox(x: real, y: real, w: real, h: real, hover: bool, flash: int)

  function Min(a: real, b: real): real { if a <= b then a else b }
  function Max(a: real, b: real): real { if a >= b then a else b }

  /** Rectangle hit test, inclusive on all four edges. */
  predicate PointInRect(px: real, py: real, x: real, y: real, w: real, h: real)
  {
    px >= x && px <= x + w && py >= y && py <= y + h
  }

  predicate InBox(b: OptionBox, px: real, py: real)
  {
    PointInRect(px, py, b.x, b.y, b.w, b.h)
  }

  /** The edges belong to the rectangle, and a rectangle of negative width or height holds no point. */
  lemma PointInRectEdges(x: real, y: real, w: real, h: real, px: real, py: real)
    ensures w >= 0.0 && h >= 0.0 ==>
      PointInRect(x, y, x, y, w, h) && PointInRect(x + w, y + h, x, y, w, h)
      && PointInRect(x + w, y, x, y, w, h) && PointInRect(x, y + h, x, y, w, h)
    ensures w < 0.0 || h < 0.0 ==> !PointInRect(px, py, x, y, w, h)
  {
  }

  /** The start control: 220 by 54, centred horizontally, its top at half the height. */
  predicate OnStartButton(px: real, py: real, width: real, height: real)
  {
    PointInRect(px, py, width / 2.0 - StartButtonW / 2.0, height * 0.5, StartButtonW, StartButtonH)
  }

  /** The base font size: width / 50 clamped into [14, 22]. */
  function BaseFontSize(width: real): (r: real)
    ensures 14.0 <= r <= 22.0
    ensures 14.0 <= width / 50.0 <= 22.0 ==> r == width / 50.0
    ensures width <= 700.0 ==> r == 14.0
    ensures width >= 1100.0 ==> r == 22.0
  {
    Max(14.0, Min(22.0, width / 50.0))
  }

  /** The boxes are stacked top to bottom with a positive gap between any two of them. */
  predicate Stacked(boxes: seq<OptionBox>)
  {
    forall i, j :: 0 <= i < j < |boxes| ==> boxes[i].y + boxes[i].h < boxes[j].y
  }

  /** The proportional layout of the four option boxes for a viewport: all of one width
      (the viewport less the margins, at most 900) and one height (at least 56), centred
      horizontally, the first at 38 % of the height, stacked with a gap of at least 14,
      none flashing or hovered. */
  predicate LaidOut(boxes: seq<OptionBox>, width: real, height: real, baseFontSize: real)
  {
    && |boxes| == 4
    && Stacked(boxes)
    && (forall i :: 0 <= i < 4 ==>
         && boxes[i].w == Min(width - 2.0 * Margin, 900.0)
         && boxes[i].h == Max(56.0, baseFontSize * 2.4)
         && boxes[i].x + boxes[i].w / 2.0 == width / 2.0
         && boxes[i].flash == 0 && !boxes[i].hover)
    && boxes[0].y == height * 0.38
    && (forall i :: 0 <= i < 3 ==>
         boxes[i + 1].y - (boxes[i].y + boxes[i].h) == Max(14.0, baseFontSize * 0.6))
  }

  /** Lays out the four option boxes for the current viewport, as on setup and on every resize. */
  method BuildOptionBoxes(width: real, height: real, baseFontSize: real) returns (boxes: seq<OptionBox>)
    ensures LaidOut(boxes, width, height, baseFontSize)
  {
    boxes := [];
    var boxW := Min(width - Margin * 2.0, 900.0);
    var boxH := Max(56.0, baseFontSize * 2.4);
    var gap := Max(14.0, baseFontSize * 0.6);
    var startY := height * 0.38;
    var cx := width / 2.0;
    for i := 0 to 4
      invariant |boxes| == i
      invariant forall k :: 0 <= k < i ==>
        boxes[k] == OptionBox(cx - boxW / 2.0, startY + k as real * (boxH + gap), boxW, boxH, false, 0)
    {
      var x := cx - boxW / 2.0;
      var y := startY + i as real * (boxH + gap);
      boxes := boxes + [OptionBox(x, y, boxW, boxH, false, 0)];
    }
    forall i, j | 0 <= i < j < 4 ensures boxes[i].y + boxes[i].h < boxes[j].y {
      StackedStep(startY, boxH, gap, i, j);
    }
  }

  lemma StackedStep(startY: real, h: real, gap: real, i: int, j: int)
    requires gap > 0.0 && h > 0.0 && 0 <= i < j
    ensures startY + i as real * (h + gap) + h < startY + j as real * (h + gap)
  {
    assert j as real * (h + gap) - i as real * (h + gap) == (j - i) as real * (h + gap);
    assert (j - i) as real * (h + gap) >= h + gap;
  }

  /** In a stacked layout no point lies in two boxes, so a click selects at most one option. */
  lemma StackedHitsAtMostOne(boxes: seq<OptionBox>, px: real, py: real, i: int, j: int)
    requires Stacked(boxes) && 0 <= i < j < |boxes|
    ensures !(InBox(boxes[i], px, py) && InBox(boxes[j], px, py))
  {
  }

  /** The first box, in slot order, that contains the point, or -1. */
  function FirstHit(boxes: seq<OptionBox>, px: real, py: real): (r: int)
    ensures -1 <= r < |boxes|
    ensures r >= 0 ==> InBox(boxes[r], px, py)
    ensures forall j :: 0 <= j < |boxes| && (r == -1 || j < r) ==> !InBox(boxes[j], px, py)
  {
    if boxes == [] then -1
    else if InBox(boxes[0], px, py) then 0
    else
      var r := FirstHit(boxes[1..], px, py);
      assert forall j :: 1 <= j < |boxes| ==> boxes[j] == boxes[1..][j - 1];
      if r == -1 then -1 else r + 1
  }

  /** The first hit is the only index with its two defining properties, so a scan that finds
      a box with no earlier hit, or finds none, has found FirstHit. */
  lemma FirstHitUnique(boxes: seq<OptionBox>, px: real, py: real, h: int)
    requires -1 <= h < |boxes|
    requires h >= 0 ==> InBox(boxes[h], px, py)
    requires forall j :: 0 <= j < |boxes| && (h == -1 || j < h) ==> !InBox(boxes[j], px, py)
    ensures h == FirstHit(boxes, px, py)
  {
  }

  /** The filled part of the progress bar of width w at question idx of total. */
  function ProgressWidth(w: real, idx: int, total: int): (r: real)
    ensures w >= 0.0 && 0 <= idx <= total ==> 0.0 <= r <= w
    ensures total > 0 ==> (r == w <==> (idx == total || w == 0.0))
    ensures total <= 0 ==> r == 0.0
  {
    if total > 0 then
      ProgressBounds(w, idx, total);
      (w * idx as real) / total as real
    else 0.0
  }

  lemma ProgressBounds(w: real, idx: int, total: int)
    requires total > 0
    ensures w >= 0.0 && 0 <= idx <= total ==> 0.0 <= (w * idx as real) / total as real <= w
    ensures (w * idx as real) / total as real == w <==> (idx == total || w == 0.0)
  {
    var t := total as real;
    var i := idx as real;
    var q := (w * i) / t;
    assert q * t == w * i;
    assert w * t - w * i == w * (t - i);
    if q == w {
      assert w * t == w * i;
      assert w * (t - i) == 0.0;
      if w != 0.0 {
        assert t - i == 0.0;
      }
    }
    if w >= 0.0 && 0 <= idx <= total {
      assert w * (t - i) >= 0.0;
      assert w * i <= w * t;
      assert q * t <= w * t;
    }
  }

  /** The bar fills monotonically as the quiz moves on. */
  lemma ProgressMonotone(w: real, i: int, j: int, total: int)
    requires w >= 0.0 && i <= j && total > 0
    ensures ProgressWidth(w, i, total) <= ProgressWidth(w, j, total)
  {
    var t := total as real;
    assert w * i as real <= w * j as real;
    assert (w * i as real) / t <= (w * j as real) / t;
  }
}
