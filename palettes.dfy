/** The limited palette built in `run`: every consecutive pair of stops is
    subdivided `max_colors` times, pair by pair, with no deduplication. */
module Palettes {
  import opened Rgb
  import opened Arith
  import opened ScanOrder

  /** The inner comprehension for one stop pair: the blends at
      j / m for j = 0 .. m - 1. */
  function Subdivide(c1: Color, c2: Color, m: nat): seq<Color> {
    seq(m, j requires 0 <= j < m => Interpolate(c1, c2, j as real / m as real))
  }

  /** The runs of the comprehension, one per stop pair `i`. */
  function Blocks(colors: seq<Color>, m: nat): (bs: seq<seq<Color>>)
    ensures |bs| == if |colors| < 2 then 0 else |colors| - 1
    ensures forall i :: 0 <= i < |bs| ==> |bs[i]| == m
  {
    if |colors| < 2 then []
    else seq(|colors| - 1, i requires 0 <= i < |colors| - 1 => Subdivide(colors[i], colors[i + 1], m))
  }

  /** The whole comprehension: the runs laid end to end, outer loop over
      stop pairs, inner loop over `j`. With fewer than two stops
      `range(len(colors) - 1)` is empty. */
  function Palette(colors: seq<Color>, m: nat): (p: seq<Color>)
    ensures |p| == if |colors| < 2 then 0 else (|colors| - 1) * m
  {
    var bs := Blocks(colors, m);
    FlattenLength(bs, m);
    Flatten(bs)
  }

  /** Entry `i * m + j` is the blend of stops `i` and `i + 1` at `j / m`. */
  lemma PaletteAt(colors: seq<Color>, m: nat, i: int, j: int)
    requires 0 <= i < |colors| - 1 && 0 <= j < m
    ensures i * m + j < |Palette(colors, m)|
    ensures Palette(colors, m)[i * m + j] == Interpolate(colors[i], colors[i + 1], j as real / m as real)
  {
    var bs := Blocks(colors, m);
    FlattenAt(bs, m, i, j);
    assert bs[i][j] == Subdivide(colors[i], colors[i + 1], m)[j];
  }

  /** Each stop except the last opens its run of entries unchanged. */
  lemma PaletteContainsStops(colors: seq<Color>, m: nat, i: int)
    requires 0 <= i < |colors| - 1 && 0 < m
    ensures i * m < |Palette(colors, m)| && Palette(colors, m)[i * m] == colors[i]
  {
    PaletteAt(colors, m, i, 0);
    assert 0 as real / m as real == 0.0;
  }

  /** With stops in 0..255 every palette entry is in 0..255 and lies between
      the two stops of its pair. */
  lemma PaletteInRange(colors: seq<Color>, m: nat)
    requires forall k :: 0 <= k < |colors| ==> InRange(colors[k])
    ensures forall q :: q in Palette(colors, m) ==> InRange(q)
  {
    var bs := Blocks(colors, m);
    forall q | q in Palette(colors, m)
      ensures InRange(q)
    {
      FlattenMembers(bs, q);
      var i, j :| 0 <= i < |bs| && 0 <= j < |bs[i]| && bs[i][j] == q;
      FractionInUnit(j, m);
      assert q == Interpolate(colors[i], colors[i + 1], j as real / m as real);
    }
  }

  lemma FractionInUnit(j: int, m: nat)
    requires 0 <= j < m
    ensures 0.0 <= j as real / m as real < 1.0
  {
  }

  /** The two-stop example: black to white with two subdivisions gives
      black and the truncated midpoint (127.5 becomes 127). */
  lemma BlackToWhiteInTwo()
    ensures Palette([Color(0, 0, 0), Color(255, 255, 255)], 2) == [Color(0, 0, 0), Color(127, 127, 127)]
  {
    var stops := [Color(0, 0, 0), Color(255, 255, 255)];
    var head := Subdivide(stops[0], stops[1], 2);
    assert Blocks(stops, 2) == [head];
    var none: seq<seq<Color>> := [];
    assert [head][..0] == none;
    assert head[1] == Interpolate(stops[0], stops[1], 0.5);
    assert Trunc(127.5) == 127;
  }
}
