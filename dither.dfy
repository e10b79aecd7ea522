/** `dither_color`: ordered (Bayer) dithering with a fixed 4x4 threshold
    matrix, one shift per cell, applied to every channel and clamped. */
module Dither {
  import opened Rgb

  /** The literal matrix of `dither_color`. */
  const DITHER_MATRIX: seq<seq<int>> :=
    [[0, 8, 2, 10], [12, 4, 14, 6], [3, 11, 1, 9], [15, 7, 13, 5]]

  /** The source rebuilds the matrix as `threshold_map` by indexing it modulo 4. */
  function ThresholdMap(): (m: seq<seq<int>>)
    ensures |m| == 4
    ensures forall i :: 0 <= i < 4 ==> |m[i]| == 4
  {
    seq(4, i requires 0 <= i < 4 => seq(4, j requires 0 <= j < 4 => DITHER_MATRIX[i % 4][j % 4]))
  }

  /** The rebuilt map is the matrix itself. */
  lemma ThresholdMapIsMatrix()
    ensures ThresholdMap() == DITHER_MATRIX
  {
    var m := ThresholdMap();
    forall i | 0 <= i < 4
      ensures m[i] == DITHER_MATRIX[i]
    {
      assert |m[i]| == |DITHER_MATRIX[i]| == 4;
      forall j | 0 <= j < 4
        ensures m[i][j] == DITHER_MATRIX[i][j]
      {
        assert i % 4 == i && j % 4 == j;
      }
    }
  }

  /** `threshold_map[y % 4][x % 4]`. Python's `%` by 4 and Dafny's both
      land in 0..3, also for negative coordinates. */
  function Threshold(x: int, y: int): (t: int)
    ensures 0 <= t <= 15
  {
    var m := ThresholdMap();
    m[y % 4][x % 4]
  }

  /** `min(255, max(0, v))`. */
  function Clamp(v: int): (w: int)
    ensures ChannelInRange(w)
    ensures ChannelInRange(v) ==> w == v
    ensures v < 0 ==> w == 0
    ensures 255 < v ==> w == 255
  {
    if v < 0 then 0 else if v > 255 then 255 else v
  }

  /** `dither_color(color, x, y)`: every channel is shifted by
      `threshold - 8`, a shift in -8..7, and clamped to 0..255. */
  function DitherColor(c: Color, x: int, y: int): (d: Color)
    ensures InRange(d)
    ensures InRange(c) ==> -8 <= d.r - c.r <= 7 && -8 <= d.g - c.g <= 7 && -8 <= d.b - c.b <= 7
  {
    var shift := Threshold(x, y) - 8;
    Color(Clamp(c.r + shift), Clamp(c.g + shift), Clamp(c.b + shift))
  }

  /** The shift depends only on the position of the cell within its 4x4 tile. */
  lemma DitherPeriodic(c: Color, x: int, y: int)
    ensures DitherColor(c, x, y) == DitherColor(c, x % 4, y % 4)
    ensures DitherColor(c, x, y) == DitherColor(c, x + 4, y)
    ensures DitherColor(c, x, y) == DitherColor(c, x, y + 4)
  {
    ModFour(x);
    ModFour(y);
  }

  lemma ModFour(n: int)
    ensures (n % 4) % 4 == n % 4
    ensures (n + 4) % 4 == n % 4
  {
  }
}
