/** SizeSliderView: a vertical slider whose dragged bubble picks an integer brush size. */
module SizeSliderView {
  import opened Geometry

  /** Swift's `Int(x)` on a floating value: truncation toward zero. */
  function Trunc(x: real): (t: int)
    ensures x >= 0.0 ==> 0 <= t && t as real <= x < t as real + 1.0
    ensures x < 0.0 ==> t <= 0 && t as real - 1.0 < x <= t as real
  {
    if x >= 0.0 then x.Floor else -((-x).Floor)
  }

  /**
   * The slider's values, the bubble's top constraint, whether a delegate is set, and the values the
   * delegate has been told about so far.
   */
  datatype SizeSlider = SizeSlider(
    maximumValue: int,
    minimumValue: int,
    currentValue: int,
    topConstraint: real,
    hasDelegate: bool,
    notified: seq<int>)

  /** A freshly loaded slider: maximum 100, minimum 1, current 50; initial values notify nobody. */
  function New(topConstraint: real, hasDelegate: bool): (s: SizeSlider)
    ensures s.maximumValue == 100 && s.minimumValue == 1 && s.currentValue == 50
    ensures s.minimumValue <= s.currentValue <= s.maximumValue
    ensures s.notified == []
  {
    SizeSlider(100, 1, 50, topConstraint, hasDelegate, [])
  }

  /**
   * Assigning `currentValue`: its observer (whose bubble-position update has no effect, its
   * assignment being commented out) tells the delegate, when there is one, the new value.
   */
  function SetCurrentValue(s: SizeSlider, v: int): (r: SizeSlider)
    ensures r.currentValue == v
    ensures s.hasDelegate ==> r.notified == s.notified + [v]
    ensures !s.hasDelegate ==> r.notified == s.notified
    ensures r == s.(currentValue := v, notified := r.notified)
  {
    s.(currentValue := v, notified := if s.hasDelegate then s.notified + [v] else s.notified)
  }

  /**
   * The top constraint after a drag: dragging down moves the bubble by the drag but no lower than
   * half a bubble above the bottom; otherwise no higher than half a bubble above the top.
   */
  function TopConstraint(dragDistance: real, dragPosition: real, frameHeight: real, bubbleHeight: real): (t: real)
    ensures dragDistance > 0.0 ==>
              t <= frameHeight - bubbleHeight / 2.0 && t <= dragPosition + dragDistance
              && (t == dragPosition + dragDistance || t == frameHeight - bubbleHeight / 2.0)
    ensures dragDistance <= 0.0 ==>
              t >= -bubbleHeight / 2.0 && t >= dragPosition + dragDistance
              && (t == dragPosition + dragDistance || t == -bubbleHeight / 2.0)
  {
    if dragDistance > 0.0 then Min(dragPosition + dragDistance, frameHeight - bubbleHeight / 2.0)
    else Max(dragPosition + dragDistance, -bubbleHeight / 2.0)
  }

  /**
   * The bubble's track runs from half a bubble above the top to half a bubble above the bottom. A
   * bubble that starts on the track stays on it, and a drag that ends on the track is followed exactly.
   */
  lemma TopConstraintStaysOnTrack(dragDistance: real, dragPosition: real, frameHeight: real, bubbleHeight: real)
    requires -bubbleHeight / 2.0 <= dragPosition <= frameHeight - bubbleHeight / 2.0
    ensures -bubbleHeight / 2.0 <= TopConstraint(dragDistance, dragPosition, frameHeight, bubbleHeight)
                                 <= frameHeight - bubbleHeight / 2.0
    ensures -bubbleHeight / 2.0 <= dragPosition + dragDistance <= frameHeight - bubbleHeight / 2.0 ==>
              TopConstraint(dragDistance, dragPosition, frameHeight, bubbleHeight) == dragPosition + dragDistance
  {
  }

  /** The value for a bubble centred at `centerY`: the maximum less the truncated share of the `max - min + 1` steps above it. */
  function ValueAt(maximumValue: int, minimumValue: int, centerY: real, frameHeight: real): (v: int)
    requires frameHeight != 0.0
    ensures centerY == 0.0 ==> v == maximumValue
    ensures minimumValue <= maximumValue && 0.0 <= centerY / frameHeight ==> v <= maximumValue
  {
    var steps := maximumValue - minimumValue + 1;
    maximumValue - Trunc(centerY / frameHeight * steps as real)
  }

  /** A bubble centred inside the slider yields a value between minimum and maximum; at the very top, the maximum. */
  lemma ValueInRange(maximumValue: int, minimumValue: int, centerY: real, frameHeight: real)
    requires minimumValue <= maximumValue
    requires 0.0 <= centerY < frameHeight
    ensures minimumValue <= ValueAt(maximumValue, minimumValue, centerY, frameHeight) <= maximumValue
    ensures centerY == 0.0 ==> ValueAt(maximumValue, minimumValue, centerY, frameHeight) == maximumValue
  {
    var steps := (maximumValue - minimumValue + 1) as real;
    var share := centerY / frameHeight;
    assert 0.0 <= share < 1.0 by {
      assert share * frameHeight == centerY;
      assert (share - 1.0) * frameHeight == centerY - frameHeight < 0.0;
      if share >= 1.0 {
        MulNonNegative(share - 1.0, frameHeight);
      }
    }
    var x := share * steps;
    assert 0.0 <= x < steps by {
      MulNonNegative(share, steps);
      MulMonotone(steps, share, 1.0);
      assert x == steps * share;
    }
    var t := Trunc(x);
    assert 0 <= t < maximumValue - minimumValue + 1;
  }

  /** Truncating two non-negative values keeps their order. */
  lemma TruncMonotone(x: real, y: real)
    requires 0.0 <= x <= y
    ensures Trunc(x) <= Trunc(y)
  {
    assert (Trunc(x) - Trunc(y)) as real < 1.0;
  }

  /** Dividing two non-negative values by the same positive height keeps their order. */
  lemma ShareMonotone(upper: real, lower: real, frameHeight: real)
    requires frameHeight > 0.0 && 0.0 <= upper <= lower
    ensures 0.0 <= upper / frameHeight <= lower / frameHeight
  {
    var a := upper / frameHeight;
    var b := lower / frameHeight;
    assert a * frameHeight == upper && b * frameHeight == lower;
    if b < a {
      MulMonotone(frameHeight, b, a);
    }
    if a < 0.0 {
      MulMonotone(frameHeight, a, 0.0);
    }
  }

  /** On a slider that hangs downwards, moving the bubble lower never raises the value. */
  lemma ValueFallsAsBubbleDescends(maximumValue: int, minimumValue: int, upper: real, lower: real, frameHeight: real)
    requires minimumValue <= maximumValue && frameHeight > 0.0
    requires 0.0 <= upper <= lower
    ensures ValueAt(maximumValue, minimumValue, lower, frameHeight) <= ValueAt(maximumValue, minimumValue, upper, frameHeight)
  {
    var steps := (maximumValue - minimumValue + 1) as real;
    var a := upper / frameHeight;
    var b := lower / frameHeight;
    ShareMonotone(upper, lower, frameHeight);
    MulNonNegative(a, steps);
    MulMonotone(steps, a, b);
    assert a * steps == steps * a && b * steps == steps * b;
    TruncMonotone(a * steps, b * steps);
  }

  /**
   * `didDragSlider`: moves the bubble's top constraint, then sets the value from the bubble's current
   * centre (read before the new constraint is laid out).
   */
  function DidDragSlider(s: SizeSlider, dragDistance: real, dragPosition: real, frameHeight: real,
                         bubbleHeight: real, bubbleCenterY: real): (r: SizeSlider)
    requires frameHeight != 0.0
    ensures r.topConstraint == TopConstraint(dragDistance, dragPosition, frameHeight, bubbleHeight)
    ensures s.minimumValue <= s.maximumValue && 0.0 <= bubbleCenterY < frameHeight ==>
              s.minimumValue <= r.currentValue <= s.maximumValue
    ensures s.hasDelegate ==> r.notified == s.notified + [r.currentValue]
    ensures !s.hasDelegate ==> r.notified == s.notified
    ensures r == s.(topConstraint := TopConstraint(dragDistance, dragPosition, frameHeight, bubbleHeight),
                    currentValue := ValueAt(s.maximumValue, s.minimumValue, bubbleCenterY, frameHeight),
                    notified := r.notified)
  {
    var moved := s.(topConstraint := TopConstraint(dragDistance, dragPosition, frameHeight, bubbleHeight));
    var value := ValueAt(s.maximumValue, s.minimumValue, bubbleCenterY, frameHeight);
    if s.minimumValue <= s.maximumValue && 0.0 <= bubbleCenterY < frameHeight then
      ValueInRange(s.maximumValue, s.minimumValue, bubbleCenterY, frameHeight);
      SetCurrentValue(moved, value)
    else
      SetCurrentValue(moved, value)
  }
}
