/** The model of a UIColor. */
module Colors {

  /**
   * A colour by its red, green, blue and alpha components as CoreImage reports them, and whether
   * `UIColor.getRed(_:green:blue:alpha:)` succeeds on it (it fails for colours outside an
   * RGB-compatible colour space, such as pattern colours).
   */
  datatype Color = Color(red: real, green: real, blue: real, alpha: real, rgbExtractable: bool)

  /** UIColor.clear. */
  const Clear := Color(0.0, 0.0, 0.0, 0.0, true)

  /** UIColor.black. */
  const Black := Color(0.0, 0.0, 0.0, 1.0, true)

  /** UIColor.white. */
  const White := Color(1.0, 1.0, 1.0, 1.0, true)

  /** Every component lies in the unit interval, as UIKit's standard colours do. */
  predicate InUnitRange(c: Color) {
    && 0.0 <= c.red <= 1.0
    && 0.0 <= c.green <= 1.0
    && 0.0 <= c.blue <= 1.0
    && 0.0 <= c.alpha <= 1.0
  }

  /** Perceived luminance weighting (the eye favours green). */
  function Luminance(c: Color): real {
    0.299 * c.red + 0.587 * c.green + 0.114 * c.blue
  }

  /**
   * The "darkness" value `1 - luminance / 255` shared by the overlay-text and highlight rules as
   * written: it divides by 255 although CoreImage reports components in [0, 1].
   */
  function Darkness(c: Color): real {
    1.0 - Luminance(c) / 255.0
  }

  /** The darkness on the components' own [0, 1] scale. */
  function UnitDarkness(c: Color): real {
    1.0 - Luminance(c)
  }

  /** For components in [0, 1] the darkness never drops below one half: the /255 scale is meant for 0...255 components. */
  lemma DarknessOfUnitColor(c: Color)
    requires InUnitRange(c)
    ensures Darkness(c) >= 0.5
  {
    assert Luminance(c) <= 1.0;
  }
}
