/** Colours, channels and the saturating Clamp helper shared by every filter. */
module Pixels {

  /** One 8-bit colour channel, as held by a System.Drawing Color. */
  type Byte = v: int | 0 <= v <= 255

  /** An RGB colour; building one is where Color.FromArgb demands channels in [0,255]. */
  datatype Color = Color(r: Byte, g: Byte, b: Byte)

  /** Names the three channels, so that one lemma can speak of all of them. */
  datatype Channel = Red | Green | Blue

  function Chan(c: Color, ch: Channel): Byte
  {
    match ch
    case Red => c.r
    case Green => c.g
    case Blue => c.b
  }

  /** A raster image indexed [x, y]: Length0 is the width, Length1 the height. */
  type Image = array2<Color>

  function Dist(a: int, b: int): nat
  {
    if a >= b then a - b else b - a
  }

  /** Filter.Clamp: on a non-empty range the result is the point of [min,max]
      nearest to value, and value itself when it already lies in the range. */
  function Clamp(value: int, min: int, max: int): (r: int)
    ensures min <= max ==> min <= r <= max
    ensures min <= value <= max ==> r == value
    ensures min <= max ==> forall z {:trigger Dist(z, value)} :: min <= z <= max ==> Dist(r, value) <= Dist(z, value)
  {
    if value < min then min
    else if value > max then max
    else value
  }

  /** Below the range Clamp gives the lower bound, above it the upper one. */
  lemma ClampSaturates(value: int, min: int, max: int)
    requires min <= max
    ensures value < min ==> Clamp(value, min, max) == min
    ensures value > max ==> Clamp(value, min, max) == max
  {
  }

  /** Clamping twice into the same range changes nothing. */
  lemma ClampIdempotent(value: int, min: int, max: int)
    requires min <= max
    ensures Clamp(Clamp(value, min, max), min, max) == Clamp(value, min, max)
  {
  }
}
