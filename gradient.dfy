/** `get_color_for_position`: the raw colour of a grid cell, sampled from a
    piecewise-linear gradient through the colour stops and then dithered.
    Python floats are modelled as exact reals. */
module Gradient {
  import opened Rgb
  import opened Dither
  import opened Arith

  /** The three directions the source distinguishes. */
  datatype GradientKind = Horizontal | Vertical | Diagonal

  /** The menu code of `get_gradient_info`: "1" is horizontal, "2" is
      vertical, and every other code falls through to diagonal. */
  function KindOf(code: string): (k: GradientKind)
    ensures k == Horizontal <==> code == "1"
    ensures k == Vertical <==> code == "2"
    ensures k == Diagonal <==> code != "1" && code != "2"
  {
    if code == "1" then Horizontal else if code == "2" then Vertical else Diagonal
  }

  /** The denominator of the factor: `width - 1`, `height - 1` or
      `width + height - 2`. When it is zero the source raises
      ZeroDivisionError, so callers must keep it non-zero. */
  function Divisor(kind: GradientKind, width: int, height: int): int {
    match kind
    case Horizontal => width - 1
    case Vertical => height - 1
    case Diagonal => width + height - 2
  }

  /** The cells whose factor is 0: the first column, the first row, or the
      top-left corner. */
  predicate AtStart(kind: GradientKind, x: int, y: int) {
    match kind
    case Horizontal => x == 0
    case Vertical => y == 0
    case Diagonal => x == 0 && y == 0
  }

  /** The cells whose factor is 1: the last column, the last row, or the
      bottom-right corner. */
  predicate AtEnd(kind: GradientKind, x: int, y: int, width: int, height: int) {
    match kind
    case Horizontal => x == width - 1
    case Vertical => y == height - 1
    case Diagonal => x == width - 1 && y == height - 1
  }

  /** The gradient factor of cell (x, y) on a width x height grid. */
  function Factor(kind: GradientKind, x: int, y: int, width: int, height: int): (f: real)
    requires Divisor(kind, width, height) != 0
    ensures 0 <= x < width && 0 <= y < height ==> 0.0 <= f <= 1.0
    ensures 0 <= x < width && 0 <= y < height ==> (f == 0.0 <==> AtStart(kind, x, y))
    ensures 0 <= x < width && 0 <= y < height ==> (f == 1.0 <==> AtEnd(kind, x, y, width, height))
  {
    match kind
    case Horizontal => Ratio(x, width - 1)
    case Vertical => Ratio(y, height - 1)
    case Diagonal => Ratio(x + y, width + height - 2)
  }

  /** Python's true division `p / q` of two ints. */
  function Ratio(p: int, q: int): (f: real)
    requires q != 0
    ensures 0 <= p <= q ==> 0.0 <= f <= 1.0 && (f == 0.0 <==> p == 0) && (f == 1.0 <==> p == q)
  {
    var f := p as real / q as real;
    assert 0 <= p <= q ==> f * q as real == p as real;
    f
  }

  /** `segment_size = 1.0 / (len(colors) - 1)`: the share of the factor
      range that one pair of consecutive stops covers. */
  function SegmentSize(n: int): (s: real)
    requires n >= 2
    ensures 0.0 < s <= 1.0
    ensures s * (n - 1) as real == 1.0
  {
    1.0 / (n - 1) as real
  }

  /** `factor / segment_size`: the factor measured in segments. */
  function Scaled(f: real, n: int): (q: real)
    requires n >= 2
    ensures f == q * SegmentSize(n)
    ensures 0.0 <= f <= 1.0 ==> 0.0 <= q <= (n - 1) as real && (q == (n - 1) as real <==> f == 1.0)
  {
    var s := SegmentSize(n);
    DivByReciprocal(f, s, (n - 1) as real);
    ScaledBetween((n - 1) as real, f);
    ScaledIsWhole((n - 1) as real, f);
    f / s
  }

  /** `segment_index = int(factor / segment_size)`: the segment
      [i * s, (i + 1) * s) that holds the factor, or n - 1 for factor 1. */
  function SegmentIndex(f: real, n: int): (i: int)
    requires n >= 2
    ensures 0.0 <= f <= 1.0 ==> 0 <= i <= n - 1
    ensures 0.0 <= f <= 1.0 ==> i as real * SegmentSize(n) <= f
    ensures 0.0 <= f <= 1.0 && i < n - 1 ==> f < (i + 1) as real * SegmentSize(n)
    ensures 0.0 <= f <= 1.0 ==> (i == n - 1 <==> f == 1.0)
  {
    var q := Scaled(f, n);
    var i := Trunc(q);
    MulLess(i as real, q, (i + 1) as real, SegmentSize(n));
    i
  }

  /** `segment_factor = (factor - segment_index * segment_size) / segment_size`:
      the position of the factor within segment `i`. */
  function SegmentFactor(f: real, n: int, i: int): (sf: real)
    requires n >= 2
    ensures f == (i as real + sf) * SegmentSize(n)
    ensures 0.0 <= f <= 1.0 && i == SegmentIndex(f, n) && i < n - 1 ==> 0.0 <= sf < 1.0
  {
    var s := SegmentSize(n);
    (f - i as real * s) / s
  }

  /** `get_color_for_position(x, y, width, height, kind, colors)`. */
  function ColorForPosition(x: int, y: int, width: int, height: int, kind: GradientKind, colors: seq<Color>): (c: Color)
    requires |colors| >= 2
    requires Divisor(kind, width, height) != 0
    requires 0 <= x < width && 0 <= y < height
    ensures AtEnd(kind, x, y, width, height) ==> c == colors[|colors| - 1]
    ensures AtStart(kind, x, y) ==> c == DitherColor(colors[0], x, y)
    ensures (forall k :: 0 <= k < |colors| ==> InRange(colors[k])) ==> InRange(c)
  {
    var n := |colors|;
    var factor := Factor(kind, x, y, width, height);
    var segmentIndex := SegmentIndex(factor, n);
    if segmentIndex >= n - 1 then
      colors[n - 1]
    else
      var segmentFactor := SegmentFactor(factor, n, segmentIndex);
      DitherColor(Interpolate(colors[segmentIndex], colors[segmentIndex + 1], segmentFactor), x, y)
  }

  /** Every channel of `c` is within the dither shift (-8..7) of the range
      spanned by the two stops `a` and `b`. */
  predicate NearSegment(c: Color, a: Color, b: Color) {
    NearChannel(c.r, a.r, b.r) && NearChannel(c.g, a.g, b.g) && NearChannel(c.b, a.b, b.b)
  }

  predicate NearChannel(v: int, a: int, b: int) {
    (if a <= b then a else b) - 8 <= v <= (if a <= b then b else a) + 7
  }

  /** Away from the end of the gradient, the sample is the dithered blend of
      the two stops bounding the segment that holds the factor, so it stays
      within the dither shift of those two stops. */
  lemma SampleNearSegment(x: int, y: int, width: int, height: int, kind: GradientKind, colors: seq<Color>)
    requires |colors| >= 2
    requires Divisor(kind, width, height) != 0
    requires 0 <= x < width && 0 <= y < height
    requires forall k :: 0 <= k < |colors| ==> InRange(colors[k])
    requires !AtEnd(kind, x, y, width, height)
    ensures var k := SegmentIndex(Factor(kind, x, y, width, height), |colors|);
      0 <= k < |colors| - 1 &&
      NearSegment(ColorForPosition(x, y, width, height, kind, colors), colors[k], colors[k + 1])
  {
    var f := Factor(kind, x, y, width, height);
    var k := SegmentIndex(f, |colors|);
    var sf := SegmentFactor(f, |colors|, k);
    var blend := Interpolate(colors[k], colors[k + 1], sf);
    assert ColorBetween(blend, colors[k], colors[k + 1]);
    assert ColorForPosition(x, y, width, height, kind, colors) == DitherColor(blend, x, y);
  }
}
