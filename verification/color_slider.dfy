/** ColorSliderProvider: the colour slider's placement and what picking a colour changes. */
module ColorSliderProvider {
  import opened Geometry
  import opened Colors
  import opened BrushModel
  import Extensions
  import opened BrushSizeSliderProvider

  /**
   * The slider's origin: moved inward by `padding`, to the left when it sits right of the canvas
   * centre and to the right otherwise; the height is kept.
   */
  function SliderPosition(pos: Point, canvasMidX: real, padding: real): (p: Point)
    ensures pos.x > canvasMidX ==> p.x == pos.x - padding
    ensures pos.x <= canvasMidX ==> p.x == pos.x + padding
    ensures p.y == pos.y
  {
    Point(pos.x + (if pos.x > canvasMidX then padding * -1.0 else padding), pos.y)
  }

  /**
   * With a non-negative padding the slider never moves away from the canvas centre's side it sits
   * on: a slider right of the centre moves left by the padding, and one left of it moves right.
   */
  lemma SliderMovesInward(pos: Point, canvasMidX: real, padding: real)
    requires padding >= 0.0
    ensures var p := SliderPosition(pos, canvasMidX, padding);
            && (pos.x > canvasMidX ==> p.x <= pos.x)
            && (pos.x < canvasMidX ==> p.x >= pos.x)
            && Abs(p.x - pos.x) == padding
  {
  }

  /** An opaque grey whose three components are `d`. */
  function Grey(d: real): (r: Color)
    ensures r.red == r.green == r.blue == d && r.alpha == 1.0
  {
    Color(d, d, d, 1.0, true)
  }

  /**
   * `textColorBasedOnBackground(color:)` as written: grey 0 when the darkness `1 - luminance / 255`
   * is below one half and 255 otherwise.
   */
  function TextColorAsWritten(c: Color): (r: Color)
    ensures Darkness(c) < 0.5 ==> r == Grey(0.0)
    ensures Darkness(c) >= 0.5 ==> r == Grey(255.0)
  {
    Grey(if 1.0 - (0.299 * c.red + 0.587 * c.green + 0.114 * c.blue) / 255.0 < 0.5 then 0.0 else 255.0)
  }

  /** As written, every background with components in [0, 1] gets the 255 grey: the /255 scale never reaches one half. */
  lemma TextColorOfUnitColor(c: Color)
    requires InUnitRange(c)
    ensures TextColorAsWritten(c) == Grey(255.0)
  {
    DarknessOfUnitColor(c);
  }

  /** `textColorBasedOnBackground(color:)` with the darkness on the components' [0, 1] scale. */
  function TextColorBasedOnBackground(c: Color): (r: Color)
    ensures r.red == r.green == r.blue && r.alpha == 1.0
    ensures UnitDarkness(c) < 0.5 ==> r.red == 0.0
    ensures UnitDarkness(c) >= 0.5 ==> r.red == 255.0
  {
    Grey(if UnitDarkness(c) < 0.5 then 0.0 else 255.0)
  }

  /** The text is the 255 grey exactly when the background counts as light for `isLightColor`. */
  lemma TextColorMatchesIsLightColor(c: Color)
    ensures TextColorBasedOnBackground(c).red == 255.0 <==> Extensions.IsLightColor(c)
    ensures TextColorAsWritten(c).red == 255.0 <==> Extensions.IsLightColorAsWritten(c)
  {
  }

  /** Text contrasts with the background: black gets the 255 grey, white the 0 grey. */
  lemma TextColorContrasts()
    ensures TextColorBasedOnBackground(Black) == Grey(255.0)
    ensures TextColorBasedOnBackground(White) == Grey(0.0)
    ensures TextColorAsWritten(White) == Grey(255.0)
  {
  }

  /** What picking a colour sets: the brush, the cursor's stroke, and the size slider's fill and value colours. */
  datatype ColorChange = ColorChange(brush: Brush, cursorColor: Color, sizeSliderContentColor: Color, sizeSliderValueColor: Color)

  /**
   * `changeSliderColor(_:)` as written: the brush takes the slider's colour, keeping size and opacity,
   * and the size slider's value text uses the overlay text rule as written.
   */
  function ChangeSliderColor(brush: Brush, sliderColor: Color): (r: ColorChange)
    ensures r.brush.color == sliderColor
    ensures r.brush.size == brush.size && r.brush.opacity == brush.opacity
    ensures r.cursorColor == sliderColor && r.sizeSliderContentColor == sliderColor
    ensures r.sizeSliderValueColor == TextColorAsWritten(sliderColor)
  {
    ColorChange(brush.(color := sliderColor), sliderColor, sliderColor, TextColorAsWritten(sliderColor))
  }

  /** As written, the value text is the 255 grey for every picked colour with components in [0, 1]. */
  lemma ValueTextOfUnitColor(brush: Brush, sliderColor: Color)
    requires InUnitRange(sliderColor)
    ensures ChangeSliderColor(brush, sliderColor).sizeSliderValueColor == Grey(255.0)
  {
    TextColorOfUnitColor(sliderColor);
  }

  /** `changeSliderColor(_:)` with the value text chosen by the corrected overlay text rule. */
  function ChangeSliderColorCorrected(brush: Brush, sliderColor: Color): (r: ColorChange)
    ensures r.brush == ChangeSliderColor(brush, sliderColor).brush
    ensures r.cursorColor == sliderColor && r.sizeSliderContentColor == sliderColor
    ensures r.sizeSliderValueColor == TextColorBasedOnBackground(sliderColor)
  {
    ColorChange(brush.(color := sliderColor), sliderColor, sliderColor, TextColorBasedOnBackground(sliderColor))
  }

  /** Corrected, picking white gives the 0 grey value text and picking black the 255 grey. */
  lemma CorrectedValueTextContrasts(brush: Brush)
    ensures ChangeSliderColorCorrected(brush, White).sizeSliderValueColor == Grey(0.0)
    ensures ChangeSliderColorCorrected(brush, Black).sizeSliderValueColor == Grey(255.0)
  {
    TextColorContrasts();
  }

  /** Picking colours twice is the same as picking only the second one: the last pick wins. */
  lemma LastPickWins(brush: Brush, first: Color, second: Color)
    ensures ChangeSliderColor(ChangeSliderColor(brush, first).brush, second) == ChangeSliderColor(brush, second)
    ensures ChangeSliderColor(brush, brush.color).brush == brush
  {
  }

  /**
   * The two sliders act on the same brush without interfering: picking a colour and then changing
   * the size gives the same brush as changing the size and then picking the colour.
   */
  lemma ColorAndSizeCommute(sl: BrushSizeSlider, sliderColor: Color)
    ensures ChangeSliderSize(sl.(brush := ChangeSliderColor(sl.brush, sliderColor).brush)).brush
         == ChangeSliderColor(ChangeSliderSize(sl).brush, sliderColor).brush
  {
  }
}
