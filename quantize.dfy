/** `map_to_limited_palette`: Python's `min` over the palette keyed by the
    squared RGB distance, which keeps the earliest of several minima. */
module Quantize {
  import opened Rgb

  function Square(v: int): (s: int)
    ensures s >= 0
    ensures s == 0 <==> v == 0
  {
    if v == 0 then 0 else
      assert v * v >= if v > 0 then v else -v;
      v * v
  }

  /** The key `sum((color[i] - p[i]) ** 2 for i in range(3))`. */
  function SqDist(c: Color, p: Color): (d: int)
    ensures d >= 0
    ensures d == 0 <==> c == p
  {
    Square(c.r - p.r) + Square(c.g - p.g) + Square(c.b - p.b)
  }

  /** The position `min` settles on: it scans left to right and replaces its
      current best only on a strictly smaller key. */
  function NearestIndex(c: Color, palette: seq<Color>): (k: nat)
    requires |palette| > 0
    ensures k < |palette|
    ensures forall j :: 0 <= j < |palette| ==> SqDist(c, palette[k]) <= SqDist(c, palette[j])
    ensures forall j :: 0 <= j < k ==> SqDist(c, palette[k]) < SqDist(c, palette[j])
    decreases |palette|
  {
    if |palette| == 1 then 0
    else
      var init := palette[..|palette| - 1];
      var best := NearestIndex(c, init);
      assert palette[best] == init[best];
      if SqDist(c, palette[|palette| - 1]) < SqDist(c, palette[best]) then |palette| - 1 else best
  }

  /** `map_to_limited_palette(color, palette)`. */
  function MapToLimitedPalette(c: Color, palette: seq<Color>): (p: Color)
    requires |palette| > 0
    ensures p in palette
    ensures forall q :: q in palette ==> SqDist(c, p) <= SqDist(c, q)
    ensures exists k :: 0 <= k < |palette| && palette[k] == p && forall j :: 0 <= j < k ==> SqDist(c, p) < SqDist(c, palette[j])
  {
    palette[NearestIndex(c, palette)]
  }

  /** The two properties of `NearestIndex` pin it down: it is the first
      position of a minimum, so ties go to the earliest entry. */
  lemma NearestIndexIsFirstMinimum(c: Color, palette: seq<Color>, k: nat)
    requires k < |palette|
    requires forall j :: 0 <= j < |palette| ==> SqDist(c, palette[k]) <= SqDist(c, palette[j])
    requires forall j :: 0 <= j < k ==> SqDist(c, palette[k]) < SqDist(c, palette[j])
    ensures k == NearestIndex(c, palette)
  {
  }

  /** A colour that is already in the palette is left as it is. */
  lemma PaletteColorsAreFixed(c: Color, palette: seq<Color>)
    requires c in palette
    ensures MapToLimitedPalette(c, palette) == c
  {
    var p := MapToLimitedPalette(c, palette);
    assert SqDist(c, p) <= SqDist(c, c) == 0;
  }

  /** Quantizing twice is quantizing once. */
  lemma QuantizeIdempotent(c: Color, palette: seq<Color>)
    requires |palette| > 0
    ensures MapToLimitedPalette(MapToLimitedPalette(c, palette), palette) == MapToLimitedPalette(c, palette)
  {
    PaletteColorsAreFixed(MapToLimitedPalette(c, palette), palette);
  }
}
