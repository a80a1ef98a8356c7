/** BrushSizeSliderProvider: a horizontal fluid slider that sets the cursor radius and the brush size. */
module BrushSizeSliderProvider {
  import opened Geometry
  import opened BrushModel

  /** Divisor from slider size to brush size used by this slider (BrushModel's own divisor is 5200). */
  const SliderSizeOffset: real := 10000.0

  /** The slider frame and fraction, the largest size it offers, the brush it drives and the cursor radius it last set. */
  datatype BrushSizeSlider = BrushSizeSlider(frame: Rect, fraction: real, brushSizeMax: real, brush: Brush, cursorRadius: real)

  /**
   * `init`: the frame is centred horizontally on the given position, the fraction starts at one half,
   * and neither the brush nor the cursor is touched until the first value change.
   */
  function New(pos: Point, width: real, height: real, brush: Brush, cursorRadius: real, brushSizeMax: real): (sl: BrushSizeSlider)
    ensures sl.frame.x + width / 2.0 == pos.x && sl.frame.y == pos.y
    ensures sl.frame.width == width && sl.frame.height == height
    ensures sl.fraction == 0.5
    ensures sl.brush == brush && sl.cursorRadius == cursorRadius && sl.brushSizeMax == brushSizeMax
  {
    BrushSizeSlider(Rect(pos.x - width / 2.0, pos.y, width, height), 0.5, brushSizeMax, brush, cursorRadius)
  }

  /**
   * `changeSliderSize()`: the cursor radius becomes `fraction * brushSizeMax` and the brush size that
   * radius over 10000; the brush's colour and opacity stay.
   */
  function ChangeSliderSize(sl: BrushSizeSlider): (r: BrushSizeSlider)
    ensures r.cursorRadius == sl.fraction * sl.brushSizeMax
    ensures r.brush.size * SliderSizeOffset == r.cursorRadius
    ensures r.brush.color == sl.brush.color && r.brush.opacity == sl.brush.opacity
    ensures r.frame == sl.frame && r.fraction == sl.fraction && r.brushSizeMax == sl.brushSizeMax
  {
    var size := sl.fraction * sl.brushSizeMax;
    sl.(cursorRadius := size, brush := sl.brush.(size := size / SliderSizeOffset))
  }

  /** For a fraction in [0, 1] the brush size stays within [0, brushSizeMax / 10000]. */
  lemma SizeBounded(sl: BrushSizeSlider)
    requires 0.0 <= sl.fraction <= 1.0 && 0.0 <= sl.brushSizeMax
    ensures 0.0 <= ChangeSliderSize(sl).brush.size <= sl.brushSizeMax / SliderSizeOffset
  {
    var size := sl.fraction * sl.brushSizeMax;
    assert 0.0 <= size <= sl.brushSizeMax by {
      assert sl.brushSizeMax - size == (1.0 - sl.fraction) * sl.brushSizeMax;
      MulNonNegative(1.0 - sl.fraction, sl.brushSizeMax);
      MulNonNegative(sl.fraction, sl.brushSizeMax);
    }
  }
}
