/** The per-pixel remaps InvertFilter and BrightnessFilter: each output pixel
    depends on the source pixel at the same position only. */
module PointFilters {
  import opened Pixels

  /** The fixed offset k that BrightnessFilter adds to every channel. */
  const BrightnessOffset: int := 20

  function Min(a: int, b: int): int
  {
    if a <= b then a else b
  }

  /** InvertFilter: every channel c becomes 255 - c, which needs no clamping. */
  function InvertColor(c: Color): (r: Color)
    ensures forall ch :: Chan(r, ch) + Chan(c, ch) == 255
  {
    Color(255 - c.r, 255 - c.g, 255 - c.b)
  }

  /** Inverting twice gives back the original colour. */
  lemma InvertInvolution(c: Color)
    ensures InvertColor(InvertColor(c)) == c
  {
  }

  /** BrightnessFilter: every channel c becomes Clamp(c + 20, 0, 255). Since a
      channel is never negative the lower bound never matters: the result is
      min(255, c + 20), never darker than the source and at least 20. The float
      detour of the source (c + 20 stored in a float, then cast back to int) is
      exact, because c + 20 is an integer far below 2^24. */
  function BrightnessColor(c: Color): (r: Color)
    ensures forall ch :: Chan(r, ch) == Min(255, Chan(c, ch) + BrightnessOffset)
    ensures forall ch :: BrightnessOffset <= Chan(r, ch) && Chan(c, ch) <= Chan(r, ch)
  {
    Color(Clamp(c.r + BrightnessOffset, 0, 255),
          Clamp(c.g + BrightnessOffset, 0, 255),
          Clamp(c.b + BrightnessOffset, 0, 255))
  }

  /** A channel already at 235 or above saturates at 255. */
  lemma BrightnessSaturates(c: Color, ch: Channel)
    requires Chan(c, ch) >= 255 - BrightnessOffset
    ensures Chan(BrightnessColor(c), ch) == 255
  {
  }

  /** Black becomes (20, 20, 20). */
  lemma BrightnessOfBlack()
    ensures BrightnessColor(Color(0, 0, 0)) == Color(20, 20, 20)
  {
  }
}
