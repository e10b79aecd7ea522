/** The scan of `run`: the palette is built once, then every frame walks the
    grid row by row, column by column, quantizes each cell's gradient colour,
    numbers colours it has not seen before and stores the colour in
    `grid_colors`. The label map and counter live across frames. */
module Grid {
  import opened Rgb
  import opened Gradient
  import opened Dither
  import opened Palettes
  import opened Quantize
  import opened Labels
  import opened Arith
  import opened ScanOrder

  datatype Option<T> = None | Some(value: T)

  /** What `get_dimensions` and `get_gradient_info` hand to `run`. */
  datatype Request = Request(rows: int, cols: int, kind: GradientKind, colors: seq<Color>, maxColors: int)

  /** The prompts' checks (positive rows, columns and `max_colors`), plus
      what the pipeline needs in order not to raise: at least two stops
      (`num_colors` is never checked) and a non-zero gradient divisor (a
      single column with a horizontal gradient, a single row with a vertical
      one, or a 1x1 grid with a diagonal one divide by zero). */
  predicate ValidRequest(req: Request) {
    && req.rows > 0 && req.cols > 0
    && |req.colors| >= 2
    && req.maxColors > 0
    && Divisor(req.kind, req.cols, req.rows) != 0
  }

  /** The prompts' channel check on every stop. */
  predicate StopsInRange(req: Request) {
    forall k :: 0 <= k < |req.colors| ==> InRange(req.colors[k])
  }

  /** The palette of a valid request is never empty, so `min` never fails. */
  lemma PaletteNonEmpty(req: Request)
    requires ValidRequest(req)
    ensures |Palette(req.colors, req.maxColors)| >= req.maxColors > 0
  {
    MulMono(1, |req.colors| - 1, req.maxColors);
  }

  /** The colour the scan stores in `grid_colors[row][col]`: the gradient
      sampled with (col, row) as (x, y) and (cols, rows) as (width, height),
      then quantized against the palette. */
  function CellColor(req: Request, palette: seq<Color>, row: int, col: int): (c: Color)
    requires ValidRequest(req) && |palette| > 0
    requires 0 <= row < req.rows && 0 <= col < req.cols
    ensures c in palette
  {
    var original := ColorForPosition(col, row, req.cols, req.rows, req.kind, req.colors);
    MapToLimitedPalette(original, palette)
  }

  /** Against the palette of `run`, with stops in 0..255 every cell's
      colour is in 0..255. */
  lemma CellInRange(req: Request, row: int, col: int)
    requires ValidRequest(req) && StopsInRange(req)
    requires 0 <= row < req.rows && 0 <= col < req.cols
    ensures |Palette(req.colors, req.maxColors)| > 0
    ensures InRange(CellColor(req, Palette(req.colors, req.maxColors), row, col))
  {
    PaletteNonEmpty(req);
    PaletteInRange(req.colors, req.maxColors);
  }

  /** The quantized colours of one row, left to right. */
  function Row(req: Request, palette: seq<Color>, row: int): (r: seq<Color>)
    requires ValidRequest(req) && |palette| > 0 && 0 <= row < req.rows
    ensures |r| == req.cols
    ensures forall col :: 0 <= col < req.cols ==> r[col] == CellColor(req, palette, row, col)
  {
    seq(req.cols, col requires 0 <= col < req.cols => CellColor(req, palette, row, col))
  }

  /** `grid_colors` as it stands after a scan: one row per grid row. */
  function Rows(req: Request, palette: seq<Color>): (g: seq<seq<Color>>)
    requires ValidRequest(req) && |palette| > 0
    ensures |g| == req.rows
    ensures forall row :: 0 <= row < req.rows ==> |g[row]| == req.cols
    ensures forall row, col :: 0 <= row < req.rows && 0 <= col < req.cols ==> g[row][col] == CellColor(req, palette, row, col)
  {
    seq(req.rows, row requires 0 <= row < req.rows => Row(req, palette, row))
  }

  /** The quantized colours of the whole grid in scan order. */
  function Cells(req: Request, palette: seq<Color>): seq<Color>
    requires ValidRequest(req) && |palette| > 0
  {
    Flatten(Rows(req, palette))
  }

  /** Every cell's colour occurs in the scan, and only cells' colours do. */
  lemma CellsAreTheGrid(req: Request, palette: seq<Color>)
    requires ValidRequest(req) && |palette| > 0
    ensures forall row, col :: 0 <= row < req.rows && 0 <= col < req.cols ==> CellColor(req, palette, row, col) in Cells(req, palette)
    ensures forall c :: c in Cells(req, palette) ==>
      exists row, col :: 0 <= row < req.rows && 0 <= col < req.cols && CellColor(req, palette, row, col) == c
  {
    FlattenCells(Rows(req, palette), req.cols);
  }

  /** The label state after a full scan from `unique_colors = {}` and
      `color_counter = 1`: numbers 1 .. counter - 1 without gaps or repeats,
      every cell's colour numbered, only palette colours numbered, and the
      top-left cell's colour numbered 1. */
  lemma ScanLabels(req: Request, palette: seq<Color>)
    requires ValidRequest(req) && |palette| > 0
    ensures var s := Assign(INITIAL, Cells(req, palette));
      && Consecutive(s)
      && (forall row, col :: 0 <= row < req.rows && 0 <= col < req.cols ==> CellColor(req, palette, row, col) in s.labels)
      && (forall c :: c in s.labels ==> c in palette)
      && CellColor(req, palette, 0, 0) in s.labels && s.labels[CellColor(req, palette, 0, 0)] == 1
  {
    var cs := Cells(req, palette);
    AssignFromInitial(cs);
    CellsAreTheGrid(req, palette);
    FlattenAt(Rows(req, palette), req.cols, 0, 0);
    FirstColorGetsOne(cs);
  }

  /** A 1 x 2 horizontal black-to-white grid with `max_colors = 2`: the
      right-hand cell samples pure white, the last stop, but the palette
      holds only black and mid grey, so that cell is drawn grey. */
  lemma BlackToWhiteStrip()
    ensures var palette := Palette([Color(0, 0, 0), Color(255, 255, 255)], 2);
      && ColorForPosition(1, 0, 2, 1, Horizontal, [Color(0, 0, 0), Color(255, 255, 255)]) == Color(255, 255, 255)
      && Color(255, 255, 255) !in palette
      && MapToLimitedPalette(Color(255, 255, 255), palette) == Color(127, 127, 127)
  {
    BlackToWhiteInTwo();
    StripSamples();
    StripQuantized(Palette([Color(0, 0, 0), Color(255, 255, 255)], 2));
  }

  /** The gradient samples of the strip: the left cell is black dithered
      at (0, 0), which stays black; the right cell is the last stop. */
  lemma StripSamples()
    ensures ColorForPosition(0, 0, 2, 1, Horizontal, [Color(0, 0, 0), Color(255, 255, 255)]) == Color(0, 0, 0)
    ensures ColorForPosition(1, 0, 2, 1, Horizontal, [Color(0, 0, 0), Color(255, 255, 255)]) == Color(255, 255, 255)
  {
    ThresholdMapIsMatrix();
    assert Threshold(0, 0) == 0;
  }

  /** Quantizing the strip's samples against black and grey. */
  lemma StripQuantized(palette: seq<Color>)
    requires palette == [Color(0, 0, 0), Color(127, 127, 127)]
    ensures MapToLimitedPalette(Color(0, 0, 0), palette) == Color(0, 0, 0)
    ensures MapToLimitedPalette(Color(255, 255, 255), palette) == Color(127, 127, 127)
  {
    PaletteColorsAreFixed(Color(0, 0, 0), palette);
    WhiteGoesGrey(palette);
  }

  /** White is strictly closer to grey than to black, so `min` picks grey. */
  lemma WhiteGoesGrey(palette: seq<Color>)
    requires palette == [Color(0, 0, 0), Color(127, 127, 127)]
    ensures MapToLimitedPalette(Color(255, 255, 255), palette) == Color(127, 127, 127)
  {
    var k := NearestIndex(Color(255, 255, 255), palette);
    WhiteDistances();
    assert k != 0 by {
      assert SqDist(Color(255, 255, 255), palette[1]) < SqDist(Color(255, 255, 255), palette[0]);
    }
  }

  /** White is 49152 from mid grey and 195075 from black. */
  lemma WhiteDistances()
    ensures SqDist(Color(255, 255, 255), Color(127, 127, 127)) == 49152
    ensures SqDist(Color(255, 255, 255), Color(0, 0, 0)) == 195075
  {
  }

  /** The first two statements of the loop body: sample the gradient at
      (col, row) and quantize the sample. */
  method QuantizeCell(req: Request, palette: seq<Color>, row: int, col: int) returns (limitedColor: Color)
    requires ValidRequest(req) && |palette| > 0
    requires 0 <= row < req.rows && 0 <= col < req.cols
    ensures limitedColor == CellColor(req, palette, row, col)
  {
    var originalColor := ColorForPosition(col, row, req.cols, req.rows, req.kind, req.colors);
    limitedColor := MapToLimitedPalette(originalColor, palette);
  }

  /** One pass of the inner `for col` loop: fills row `row` of `grid` with
      its quantized colours `line`, left to right, and runs the label
      bookkeeping over them. */
  method DrawRow(req: Request, palette: seq<Color>, grid: array2<Option<Color>>, row: int, ghost line: seq<Color>,
                 uniqueColors0: map<Color, int>, colorCounter0: int)
    returns (uniqueColors: map<Color, int>, colorCounter: int)
    requires ValidRequest(req) && |palette| > 0
    requires grid.Length0 == req.rows && grid.Length1 == req.cols && 0 <= row < req.rows
    requires |line| == req.cols
    requires forall c {:trigger CellColor(req, palette, row, c)} :: 0 <= c < req.cols ==> CellColor(req, palette, row, c) == line[c]
    modifies grid
    ensures forall r, c :: 0 <= r < req.rows && 0 <= c < req.cols && r != row ==> grid[r, c] == old(grid[r, c])
    ensures forall c :: 0 <= c < req.cols ==> grid[row, c] == Some(line[c])
    ensures LabelState(uniqueColors, colorCounter) == Assign(LabelState(uniqueColors0, colorCounter0), line)
  {
    ghost var start := LabelState(uniqueColors0, colorCounter0);
    uniqueColors, colorCounter := uniqueColors0, colorCounter0;
    for col := 0 to req.cols
      invariant LabelState(uniqueColors, colorCounter) == Assign(start, line[..col])
      invariant forall r, c :: 0 <= r < req.rows && 0 <= c < req.cols && r != row ==> grid[r, c] == old(grid[r, c])
      invariant forall c :: 0 <= c < col ==> grid[row, c] == Some(line[c])
    {
      var limitedColor := QuantizeCell(req, palette, row, col);
      if limitedColor !in uniqueColors {
        uniqueColors := uniqueColors[limitedColor := colorCounter];
        colorCounter := colorCounter + 1;
      }
      grid[row, col] := Some(limitedColor);
      assert line[..col + 1] == line[..col] + [limitedColor];
      AssignSnoc(start, line[..col], limitedColor);
    }
    assert line[..req.cols] == line;
  }

  /** One pass of the nested `for row` / `for col` loops in a frame: fills
      every cell of `grid` with its quantized colour, as listed in `cells`,
      and runs the label bookkeeping over the cells in scan order. */
  method DrawFrame(req: Request, palette: seq<Color>, grid: array2<Option<Color>>, ghost cells: seq<seq<Color>>,
                   uniqueColors0: map<Color, int>, colorCounter0: int)
    returns (uniqueColors: map<Color, int>, colorCounter: int)
    requires ValidRequest(req) && |palette| > 0
    requires grid.Length0 == req.rows && grid.Length1 == req.cols
    requires |cells| == req.rows && forall r :: 0 <= r < req.rows ==> |cells[r]| == req.cols
    requires forall r, c {:trigger CellColor(req, palette, r, c)} :: 0 <= r < req.rows && 0 <= c < req.cols ==>
      CellColor(req, palette, r, c) == cells[r][c]
    modifies grid
    ensures forall row, col :: 0 <= row < req.rows && 0 <= col < req.cols ==> grid[row, col] == Some(cells[row][col])
    ensures LabelState(uniqueColors, colorCounter) == Assign(LabelState(uniqueColors0, colorCounter0), Flatten(cells))
  {
    ghost var start := LabelState(uniqueColors0, colorCounter0);
    uniqueColors, colorCounter := uniqueColors0, colorCounter0;
    for row := 0 to req.rows
      invariant LabelState(uniqueColors, colorCounter) == Assign(start, Flatten(cells[..row]))
      invariant forall r, c :: 0 <= r < row && 0 <= c < req.cols ==> grid[r, c] == Some(cells[r][c])
    {
      uniqueColors, colorCounter := DrawRow(req, palette, grid, row, cells[row], uniqueColors, colorCounter);
      AssignConcat(start, Flatten(cells[..row]), cells[row]);
      assert cells[..row + 1][..row] == cells[..row];
    }
    assert cells[..req.rows] == cells;
  }

  /** `run` from the palette to the end of the event loop. The user's quit
      (window close or Escape) is observed in frame `quitFrame`; that frame
      is still drawn, so the loop body runs `quitFrame + 1` times. Whatever
      the number of frames, the grid and the labels are those of one scan
      against the palette of the stops. */
  method Run(req: Request, quitFrame: nat) returns (grid: array2<Option<Color>>, uniqueColors: map<Color, int>, colorCounter: int)
    requires ValidRequest(req)
    ensures |Palette(req.colors, req.maxColors)| > 0
    ensures fresh(grid) && grid.Length0 == req.rows && grid.Length1 == req.cols
    ensures forall row, col :: 0 <= row < req.rows && 0 <= col < req.cols ==>
      grid[row, col] == Some(CellColor(req, Palette(req.colors, req.maxColors), row, col))
    ensures LabelState(uniqueColors, colorCounter) == Assign(INITIAL, Cells(req, Palette(req.colors, req.maxColors)))
  {
    var palette := Palette(req.colors, req.maxColors);
    PaletteNonEmpty(req);
    uniqueColors, colorCounter := map[], 1;
    grid := new Option<Color>[req.rows, req.cols]((r, c) => None);
    var running := true;
    var frame := 0;
    while running
      invariant 0 <= frame <= quitFrame + 1
      invariant running <==> frame <= quitFrame
      invariant LabelState(uniqueColors, colorCounter) == if frame == 0 then INITIAL else Assign(INITIAL, Cells(req, palette))
      invariant frame > 0 ==> forall row, col :: 0 <= row < req.rows && 0 <= col < req.cols ==>
        grid[row, col] == Some(CellColor(req, palette, row, col))
      decreases quitFrame + 1 - frame
    {
      if frame == quitFrame {
        running := false;
      }
      uniqueColors, colorCounter := DrawFrame(req, palette, grid, Rows(req, palette), uniqueColors, colorCounter);
      AssignTwice(INITIAL, Cells(req, palette));
      frame := frame + 1;
    }
  }
}
