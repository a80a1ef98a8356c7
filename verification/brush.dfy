/** BrushModel: the size, colour and opacity strokes are drawn with. */
module BrushModel {
  import opened Wrappers
  import opened Colors

  /** Divisor turning slider sizes into world-space radii. */
  const SizeOffset: real := 5200.0

  /** A brush as a value; `size` is already divided by SizeOffset. */
  datatype Brush = Brush(size: real, color: Color, opacity: real)

  /** `init(size:color:opacity:)`: the stored size times the offset gives back the requested size. */
  function New(size: real, color: Color, opacity: real): (b: Brush)
    ensures b.size * SizeOffset == size
    ensures b.color == color && b.opacity == opacity
  {
    Brush(size / SizeOffset, color, opacity)
  }

  /** `resize(toValue:)`: a new integer slider value sets the size alone. */
  function Resize(b: Brush, value: int): (r: Brush)
    ensures r.size * SizeOffset == value as real
    ensures r.color == b.color && r.opacity == b.opacity
  {
    b.(size := value as real / SizeOffset)
  }

  /** Resizing is last-write-wins. */
  lemma ResizeLastWriteWins(b: Brush, first: int, second: int)
    ensures Resize(Resize(b, first), second) == Resize(b, second)
  {
  }

  /** Constructing with a value gives the same size as resizing to it. */
  lemma NewAgreesWithResize(b: Brush, value: int, color: Color, opacity: real)
    ensures New(value as real, color, opacity).size == Resize(b, value).size
  {
  }

  /** The keyed fields an NSCoder archive holds for a brush; a missing key is None. */
  datatype Archive = Archive(size: Option<real>, color: Option<Color>, opacity: Option<real>)

  /** `encode(with:)`: every field is written under its key, so decoding gives the brush back. */
  function Encode(b: Brush): (a: Archive)
    ensures a.size.Some? && a.color.Some? && a.opacity.Some?
    ensures Decode(a) == b
  {
    Archive(Some(b.size), Some(b.color), Some(b.opacity))
  }

  /**
   * `init?(coder:)`: `decodeFloat` yields 0 for a missing key, and a missing colour falls back to clear.
   * The stored size is taken as is: it was scaled when first set.
   */
  function Decode(a: Archive): (b: Brush)
    ensures a.color.None? ==> b.color == Clear
    ensures a.size.None? ==> b.size == 0.0
    ensures a.opacity.None? ==> b.opacity == 0.0
    ensures a.size.Some? ==> b.size == a.size.value
  {
    Brush(a.size.GetOr(0.0), a.color.GetOr(Clear), a.opacity.GetOr(0.0))
  }

  /** A decoded brush keeps the once-scaled size: decoding does not divide by the offset again. */
  lemma DecodeKeepsScaledSize(size: real, color: Color, opacity: real)
    ensures Decode(Encode(New(size, color, opacity))).size * SizeOffset == size
  {
  }
}
