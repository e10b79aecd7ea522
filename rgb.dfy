/** Colours as the pipeline handles them (Python 3-tuples of ints), and
    `interpolate_color`, the linear blend shared by the gradient sampler and
    the palette generator. */
module Rgb {
  import opened Arith

  /** An (r, g, b) colour. Channels are unbounded, as Python ints are;
      `InRange` states the 8-bit bound that the input prompts enforce. */
  datatype Color = Color(r: int, g: int, b: int)

  predicate ChannelInRange(v: int) {
    0 <= v <= 255
  }

  predicate InRange(c: Color) {
    ChannelInRange(c.r) && ChannelInRange(c.g) && ChannelInRange(c.b)
  }

  /** `v` lies on the closed segment between `a` and `b`, in either order. */
  predicate Between(v: int, a: int, b: int) {
    (a <= v <= b) || (b <= v <= a)
  }

  /** Every channel of `c` lies between the same channels of `c1` and `c2`. */
  predicate ColorBetween(c: Color, c1: Color, c2: Color) {
    Between(c.r, c1.r, c2.r) && Between(c.g, c1.g, c2.g) && Between(c.b, c1.b, c2.b)
  }

  /** Python's `int()` applied to a float: truncation toward zero. */
  function Trunc(x: real): (n: int)
    ensures 0.0 <= x ==> 0 <= n && n as real <= x < n as real + 1.0
    ensures x < 0.0 ==> n <= 0 && n as real - 1.0 < x <= n as real
  {
    if x >= 0.0 then x.Floor else -((-x).Floor)
  }

  /** The exact value `a + (b - a) * f` before truncation. */
  function Blend(a: int, b: int, f: real): (x: real)
    ensures f == 0.0 ==> x == a as real
    ensures f == 1.0 ==> x == b as real
    ensures 0.0 <= f <= 1.0 && a <= b ==> a as real <= x <= b as real
    ensures 0.0 <= f <= 1.0 && b <= a ==> b as real <= x <= a as real
  {
    ScaledBetween((b - a) as real, f);
    a as real + (b - a) as real * f
  }

  /** Truncation keeps a value that lies between two integers between them. */
  lemma TruncBetween(x: real, a: int, b: int)
    ensures a as real <= x <= b as real || b as real <= x <= a as real ==> Between(Trunc(x), a, b)
  {
  }

  /** One channel of `interpolate_color`: `int(a + (b - a) * f)`. */
  function Lerp(a: int, b: int, f: real): (v: int)
    ensures f == 0.0 ==> v == a
    ensures f == 1.0 ==> v == b
    ensures 0.0 <= f <= 1.0 ==> Between(v, a, b)
  {
    var x := Blend(a, b, f);
    TruncBetween(x, a, b);
    Trunc(x)
  }

  /** `interpolate_color(c1, c2, f)`: each channel blended and truncated. */
  function Interpolate(c1: Color, c2: Color, f: real): (c: Color)
    ensures f == 0.0 ==> c == c1
    ensures f == 1.0 ==> c == c2
    ensures 0.0 <= f <= 1.0 ==> ColorBetween(c, c1, c2)
    ensures 0.0 <= f <= 1.0 && InRange(c1) && InRange(c2) ==> InRange(c)
  {
    Color(Lerp(c1.r, c2.r, f), Lerp(c1.g, c2.g, f), Lerp(c1.b, c2.b, f))
  }
}
