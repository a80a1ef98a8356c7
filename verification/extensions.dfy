/** The computable helpers of Extensions.swift: colour highlighting, image sizing, unit conversion and de-duplication. */
module Extensions {
  import opened Wrappers
  import opened Geometry
  import opened Colors

  //
  // UIColor
  //

  /**
   * `isLightColor` as written: the darkness `1 - luminance / 255` is at least one half. With
   * components in [0, 1] this holds for every colour.
   */
  predicate IsLightColorAsWritten(c: Color): (b: bool)
    ensures b <==> Luminance(c) <= 127.5
  {
    Darkness(c) >= 0.5
  }

  /**
   * `isLightColor` on the components' own scale: the darkness `1 - luminance` is at least one
   * half, so dim colours count and bright ones do not.
   */
  predicate IsLightColor(c: Color): (b: bool)
    ensures b <==> Luminance(c) <= 0.5
  {
    UnitDarkness(c) >= 0.5
  }

  /** As written, every colour with components in [0, 1] counts as light, white included. */
  lemma UnitColorsAreLight(c: Color)
    requires InUnitRange(c)
    ensures IsLightColorAsWritten(c)
  {
    DarknessOfUnitColor(c);
  }

  /** On the unit scale black counts and white does not. */
  lemma IsLightColorSeparates()
    ensures IsLightColor(Black) && !IsLightColor(White)
    ensures IsLightColorAsWritten(White)
  {
  }

  /** On the unit scale the predicate is closed downward: a colour no brighter in any component than a light one is light. */
  lemma IsLightColorDownwardClosed(c: Color, d: Color)
    requires d.red <= c.red && d.green <= c.green && d.blue <= c.blue
    ensures IsLightColor(c) ==> IsLightColor(d)
  {
  }

  /**
   * `adjust(by:)`: nil when the RGB components cannot be extracted; otherwise each RGB component
   * moves by `percentage / 100`, capped at 1 but not floored, and alpha is kept.
   */
  function Adjust(c: Color, percentage: real): (r: Option<Color>)
    ensures r.Some? <==> c.rgbExtractable
    ensures r.Some? ==>
              && r.value.alpha == c.alpha
              && r.value.red <= 1.0 && r.value.green <= 1.0 && r.value.blue <= 1.0
              && (r.value.red == 1.0 || r.value.red == c.red + percentage / 100.0)
              && (r.value.green == 1.0 || r.value.green == c.green + percentage / 100.0)
              && (r.value.blue == 1.0 || r.value.blue == c.blue + percentage / 100.0)
              && r.value.red <= c.red + percentage / 100.0
              && r.value.green <= c.green + percentage / 100.0
              && r.value.blue <= c.blue + percentage / 100.0
  {
    if c.rgbExtractable then
      var p := percentage / 100.0;
      Some(Color(Min(c.red + p, 1.0), Min(c.green + p, 1.0), Min(c.blue + p, 1.0), c.alpha, true))
    else
      None
  }

  /** Default percentage of `lighter` and `darker`. */
  const DefaultPercentage: real := 30.0

  /** `lighter(by:)`: adjusts upward by the magnitude of the percentage. */
  function Lighter(c: Color, percentage: real): (r: Option<Color>)
    ensures r.Some? <==> c.rgbExtractable
    ensures r.Some? ==> r.value.alpha == c.alpha
    ensures r.Some? ==>
              && (c.red <= 1.0 ==> c.red <= r.value.red <= 1.0)
              && (c.green <= 1.0 ==> c.green <= r.value.green <= 1.0)
              && (c.blue <= 1.0 ==> c.blue <= r.value.blue <= 1.0)
  {
    Adjust(c, Abs(percentage))
  }

  /** `darker(by:)`: adjusts downward by the magnitude of the percentage. */
  function Darker(c: Color, percentage: real): (r: Option<Color>)
    ensures r.Some? <==> c.rgbExtractable
    ensures r.Some? ==> r.value.alpha == c.alpha
    ensures r.Some? ==> r.value.red <= c.red && r.value.green <= c.green && r.value.blue <= c.blue
  {
    Adjust(c, -1.0 * Abs(percentage))
  }

  /** Lightening a unit colour keeps it in [0, 1] and never darkens a component. */
  lemma LighterStaysInUnitRange(c: Color, percentage: real)
    requires InUnitRange(c) && c.rgbExtractable
    ensures var r := Lighter(c, percentage).value;
            && InUnitRange(r)
            && c.red <= r.red && c.green <= r.green && c.blue <= r.blue
  {
  }

  /** `darker` has no lower clamp: darkening black by the default gives a negative red. */
  lemma DarkerIsNotFloored()
    ensures Darker(Black, DefaultPercentage) == Some(Color(-0.3, -0.3, -0.3, 1.0, true))
  {
  }

  /** Lighter when `light`, darker otherwise, and the colour itself when the adjustment fails. */
  function Highlight(c: Color, light: bool): (r: Color)
    ensures !c.rgbExtractable ==> r == c
    ensures c.rgbExtractable && light ==> Some(r) == Lighter(c, DefaultPercentage)
    ensures c.rgbExtractable && !light ==> Some(r) == Darker(c, DefaultPercentage)
  {
    if light then Lighter(c, DefaultPercentage).GetOr(c) else Darker(c, DefaultPercentage).GetOr(c)
  }

  /** `getHighlighted()` as written, deciding by `isLightColor` on the 0...255 scale. */
  function GetHighlightedAsWritten(c: Color): (r: Color)
    ensures !c.rgbExtractable ==> r == c
    ensures c.rgbExtractable && IsLightColorAsWritten(c) ==> Some(r) == Lighter(c, DefaultPercentage)
    ensures c.rgbExtractable && !IsLightColorAsWritten(c) ==> Some(r) == Darker(c, DefaultPercentage)
  {
    Highlight(c, IsLightColorAsWritten(c))
  }

  /** As written, every colour with components in [0, 1] is highlighted by lightening, white included. */
  lemma HighlightOfUnitColorLightens(c: Color)
    requires InUnitRange(c) && c.rgbExtractable
    ensures Some(GetHighlightedAsWritten(c)) == Lighter(c, DefaultPercentage)
  {
    UnitColorsAreLight(c);
  }

  /** `getHighlighted()`: a dim colour is lightened, a bright one darkened, and a colour that cannot be adjusted is kept. */
  function GetHighlighted(c: Color): (r: Color)
    ensures !c.rgbExtractable ==> r == c
    ensures c.rgbExtractable && IsLightColor(c) ==> Some(r) == Lighter(c, DefaultPercentage)
    ensures c.rgbExtractable && !IsLightColor(c) ==> Some(r) == Darker(c, DefaultPercentage)
  {
    Highlight(c, IsLightColor(c))
  }

  /** Black is highlighted to a 30% grey and white to a 70% grey: the highlight moves toward the middle. */
  lemma HighlightMovesTowardMiddle()
    ensures GetHighlighted(Black) == Color(0.3, 0.3, 0.3, 1.0, true)
    ensures GetHighlighted(White) == Color(0.7, 0.7, 0.7, 1.0, true)
    ensures GetHighlightedAsWritten(White) == White
  {
  }

  //
  // UIImage
  //

  /** `isPortrait`: strictly taller than wide. */
  predicate IsPortrait(s: Size): (b: bool)
    ensures b ==> Breadth(s) == s.width < s.height
  {
    s.height > s.width
  }

  /** `isLandscape`: strictly wider than tall. */
  predicate IsLandscape(s: Size): (b: bool)
    ensures b ==> Breadth(s) == s.height < s.width
  {
    s.width > s.height
  }

  /** `breadth`: the shorter side. */
  function Breadth(s: Size): (b: real)
    ensures b <= s.width && b <= s.height
    ensures b == s.width || b == s.height
  {
    Min(s.width, s.height)
  }

  /** An image is never both portrait and landscape, and one that is not square is one of them. */
  lemma OrientationsExclusive(s: Size)
    ensures !(IsPortrait(s) && IsLandscape(s))
    ensures s.width != s.height ==> IsPortrait(s) || IsLandscape(s)
  {
  }

  /** Origin of the centred square crop used by `squared` and `circleMasked`. */
  function CropOrigin(s: Size): (p: Point)
    ensures IsLandscape(s) ==> p.y == 0.0 && p.x == ((s.width - s.height) / 2.0).Floor as real
    ensures IsPortrait(s) ==> p.x == 0.0 && p.y == ((s.height - s.width) / 2.0).Floor as real
    ensures !IsLandscape(s) && !IsPortrait(s) ==> p == Point(0.0, 0.0)
  {
    Point(if IsLandscape(s) then ((s.width - s.height) / 2.0).Floor as real else 0.0,
          if IsPortrait(s) then ((s.height - s.width) / 2.0).Floor as real else 0.0)
  }

  /** The square crop lies inside the image: it is offset by at most half the difference of the sides along the longer one. */
  lemma CropInsideImage(s: Size)
    ensures 0.0 <= CropOrigin(s).x && CropOrigin(s).x + Breadth(s) <= s.width
    ensures 0.0 <= CropOrigin(s).y && CropOrigin(s).y + Breadth(s) <= s.height
    ensures CropOrigin(s).x <= Abs(s.width - s.height) / 2.0 && CropOrigin(s).y <= Abs(s.width - s.height) / 2.0
  {
  }

  /**
   * The size `resizeTo(rect:)` draws at: both sides scaled by the smaller of the width and height
   * ratios, so the image fits the rectangle, touches it on one side, and keeps its aspect ratio.
   */
  function ResizeTo(s: Size, rect: Rect): (r: Size)
    requires s.width > 0.0 && s.height > 0.0 && rect.width >= 0.0 && rect.height >= 0.0
    ensures r.width <= rect.width && r.height <= rect.height
    ensures r.width == rect.width || r.height == rect.height
    ensures r.width * s.height == r.height * s.width
  {
    var widthRatio := rect.width / s.width;
    var heightRatio := rect.height / s.height;
    assert s.width * widthRatio == rect.width && s.height * heightRatio == rect.height;
    if widthRatio > heightRatio then
      MulMonotone(s.width, heightRatio, widthRatio);
      Size(s.width * heightRatio, s.height * heightRatio)
    else
      MulMonotone(s.height, widthRatio, heightRatio);
      Size(s.width * widthRatio, s.height * widthRatio)
  }

  //
  // CGFloat
  //

  /** `toMeters`: points over points-per-centimetre, in metres; 0 when the screen density is unknown. */
  function ToMeters(points: real, pointsPerCentimeter: Option<real>): (m: real)
    requires pointsPerCentimeter.Some? ==> pointsPerCentimeter.value != 0.0
    ensures pointsPerCentimeter.None? ==> m == 0.0
    ensures pointsPerCentimeter.Some? ==> m * 100.0 * pointsPerCentimeter.value == points
  {
    match pointsPerCentimeter
    case Some(ppc) => (points / ppc) / 100.0
    case None => 0.0
  }

  //
  // Array
  //

  /** No element occurs twice. */
  predicate NoDuplicates<T(==)>(xs: seq<T>) {
    forall i, j :: 0 <= i < j < |xs| ==> xs[i] != xs[j]
  }

  /**
   * `Array.set`: the distinct elements of `xs`. The source goes through a hash set, whose order
   * is unspecified; this keeps first occurrences in order.
   */
  method Unique<T(==)>(xs: seq<T>) returns (r: seq<T>)
    ensures NoDuplicates(r)
    ensures forall x :: x in r <==> x in xs
  {
    r := [];
    var i := 0;
    while i < |xs|
      invariant 0 <= i <= |xs|
      invariant NoDuplicates(r)
      invariant forall x :: x in r <==> x in xs[..i]
    {
      if xs[i] !in r {
        r := r + [xs[i]];
      }
      assert xs[..i + 1] == xs[..i] + [xs[i]];
      i := i + 1;
    }
    assert xs[..i] == xs;
  }
}
