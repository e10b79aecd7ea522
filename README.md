# Pixel-art colour pipeline

A Dafny model of the colour pipeline of `PixelArtMaker` (`artMaker.py`). The program
turns a grid of `rows x cols` cells into a paint-by-number picture:

- every cell samples a piecewise-linear gradient through two or more colour stops;
- the sample is dithered with a 4x4 ordered (Bayer) matrix;
- the result is snapped to the nearest colour of a limited palette;
- each distinct palette colour gets a number, in the order the scan first meets it.

Modules, one per file:

- `Rgb` (`rgb.dfy`): colours, Python's `int()` on floats, and `interpolate_color`.
- `Dither` (`dither.dfy`): `dither_color`.
- `Gradient` (`gradient.dfy`): `get_color_for_position`.
- `Palettes` (`palettes.dfy`): the palette comprehension of `run`.
- `Quantize` (`quantize.dfy`): `map_to_limited_palette`.
- `Labels` (`labels.dfy`): the `unique_colors` / `color_counter` bookkeeping, as a fold over the scanned colours.
- `ScanOrder` (`scan_order.dfy`): row-major order of a grid, generic in the cell type.
- `Grid` (`grid.dfy`): the scan in `run`.
- `Arith` (`arith.dfy`): small arithmetic facts the proofs use.

The frame-drawing loops of `run` are imperative Dafny:

- `DrawRow` and `DrawFrame` fill an `array2<Option<Color>>` (`grid_colors`, which starts out as `None`) and thread the label map and counter through the scan.
- They are proved against the pure fold `Labels.Assign` over the cells in scan order.
- `Run` repeats the frame until the quit event and shows that the result is that of a single scan.

Python floats are modelled as exact reals. `int()` is truncation toward zero (`Rgb.Trunc`). Python's `% 4` and Dafny's `% 4` agree for every integer, negative ones included.

Three facts about the source that the model keeps:

- At factor 0 the first stop is still dithered (artMaker.py:104-112).
- Every code other than "1" and "2" is diagonal (artMaker.py:100).
- A zero divisor raises `ZeroDivisionError` (artMaker.py:97-101), so the model makes it a precondition.

## Model

| member | source | states |
|---|---|---|
| Rgb.Trunc | artMaker.py:68-70 | `int()` of a float truncates toward zero: for x ≥ 0 the result is the floor, for x < 0 the ceiling |
| Rgb.Lerp | artMaker.py:68-70 | one channel of the blend: factor 0 gives the first value, factor 1 the second, and a factor in [0, 1] gives a value between the two |
| Rgb.Interpolate | artMaker.py:65-70 | `interpolate_color`: factor 0 returns `color1`, factor 1 returns `color2`, a factor in [0, 1] keeps every channel between the two inputs, and so keeps 8-bit colours 8-bit |
| Dither.ThresholdMapIsMatrix | artMaker.py:75-78 | the `threshold_map` rebuilt with `% 4` indexing equals the literal dither matrix |
| Dither.Threshold | artMaker.py:79 | the threshold picked for any (x, y), negative coordinates included, lies in 0..15 |
| Dither.Clamp | artMaker.py:80 | `min(255, max(0, v))` is in 0..255, is the identity on 0..255, and sends negatives to 0 and values above 255 to 255 |
| Dither.DitherColor | artMaker.py:72-80 | `dither_color` always returns an 8-bit colour; on an 8-bit colour each channel moves by -8..7 |
| Dither.DitherPeriodic | artMaker.py:72-80 | the dithered colour depends only on (x mod 4, y mod 4): shifting x or y by 4 changes nothing |
| Gradient.KindOf | artMaker.py:96-101 | code "1" is horizontal, code "2" is vertical, and every other code is diagonal, each in both directions |
| Gradient.Factor | artMaker.py:96-101 | for a cell inside the grid the factor lies in [0, 1]; it is 0 exactly on the start cells and 1 exactly on the end cells of the chosen direction |
| Gradient.SegmentIndex | artMaker.py:103-105 | `int(factor / segment_size)` is in 0..n-1 and brackets the factor: i·s ≤ f < (i+1)·s below the last index; it equals n-1 exactly when the factor is 1 |
| Gradient.SegmentFactor | artMaker.py:108 | the factor is (i + sf)·s, and for the segment that holds a factor below 1 the position sf lies in [0, 1) |
| Gradient.ColorForPosition | artMaker.py:87-112 | on the end cells the last stop is returned as it is; on the start cells it is the first stop, dithered; with 8-bit stops the result is 8-bit |
| Gradient.SampleNearSegment | artMaker.py:103-112 | away from the end cells the sample lies, channel by channel, within the dither shift of the two stops bounding the segment that holds the factor |
| Palettes.Palette | artMaker.py:128-132 | the palette has (stops − 1) · `max_colors` entries, and none for fewer than two stops |
| Palettes.PaletteAt | artMaker.py:128-132 | entry i·m + j is `interpolate_color(colors[i], colors[i+1], j / m)`, the outer loop over stop pairs, the inner over j |
| Palettes.PaletteContainsStops | artMaker.py:128-132 | every stop except the last opens its own run of entries unchanged |
| Palettes.PaletteInRange | artMaker.py:128-132 | with 8-bit stops every palette entry is 8-bit |
| Palettes.BlackToWhiteInTwo | artMaker.py:128-132 | black to white with two subdivisions gives black and (127, 127, 127); the midpoint 127.5 is truncated |
| Quantize.SqDist | artMaker.py:85 | the key of `min` is non-negative and zero exactly when the two colours are equal |
| Quantize.NearestIndex | artMaker.py:85 | the index `min` settles on is in range, no entry is strictly closer, and every earlier entry is strictly farther (ties go to the first) |
| Quantize.NearestIndexIsFirstMinimum | artMaker.py:85 | any index with those two properties is the one `min` returns |
| Quantize.MapToLimitedPalette | artMaker.py:82-85 | the result is a palette colour at least as close as every other palette colour, and the first such colour in palette order |
| Quantize.PaletteColorsAreFixed | artMaker.py:82-85 | a colour already in the palette maps to itself |
| Quantize.QuantizeIdempotent | artMaker.py:82-85 | mapping a mapped colour again changes nothing |
| Labels.AssignConcat | artMaker.py:157-173 | bookkeeping over `a + b` is bookkeeping over `a`, then over `b` |
| Labels.AssignExtends | artMaker.py:170-172 | a number, once given, is never changed, and the counter never goes down |
| Labels.AssignCovers | artMaker.py:170-172 | after the bookkeeping every scanned colour has a number |
| Labels.AssignKnown | artMaker.py:170 | colours that already have numbers change nothing |
| Labels.AssignTwice | artMaker.py:146-173 | a second pass over the same colours changes neither the map nor the counter |
| Labels.StepConsecutive | artMaker.py:170-172 | one step keeps the numbers 1 .. counter−1 one-to-one and without gaps |
| Labels.AssignFromInitial | artMaker.py:138-173 | from `{}` and counter 1: the keys are exactly the scanned colours, the numbers are 1 .. counter−1 without gaps or repeats, and they follow the order of first appearance |
| Labels.FirstColorGetsOne | artMaker.py:138-173 | the first colour scanned gets number 1 |
| Labels.DrawnNumberIsFinal | artMaker.py:170-173 | the `color_number` looked up right after a cell's step is the number that colour keeps to the end of the scan |
| ScanOrder.FlattenAt | artMaker.py:157-158 | in row-major order of rows of width w, position row·w + col holds cell (row, col) |
| ScanOrder.FlattenMembers | artMaker.py:157-158 | a value occurs in the row-major sequence exactly when some cell holds it |
| ScanOrder.FlattenCells | artMaker.py:157-158 | every cell's value occurs in the scan, and only cells' values do |
| Grid.PaletteNonEmpty | artMaker.py:128-132 | with at least two stops and `max_colors` > 0 the palette has at least `max_colors` entries, so `min` never fails |
| Grid.CellColor | artMaker.py:163-166 | the colour stored for a cell is a palette colour |
| Grid.CellInRange | artMaker.py:163-166 | against the palette of `run`, 8-bit stops give 8-bit cell colours |
| Grid.CellsAreTheGrid | artMaker.py:157-175 | the colours in scan order are exactly the cells' colours |
| Grid.ScanLabels | artMaker.py:138-175 | after one scan the numbers are 1 .. counter−1 without gaps or repeats, every cell's colour has one, only palette colours have one, and the top-left cell's colour has 1 |
| Grid.BlackToWhiteStrip | artMaker.py:87-132 | on a 1x2 black-to-white strip with `max_colors` 2, the right cell samples white, white is not in the palette, and the cell is drawn (127, 127, 127) |
| Grid.StripSamples | artMaker.py:87-112 | the two samples of that strip are black (black dithered at (0, 0)) and white |
| Grid.StripQuantized | artMaker.py:82-85 | against black and mid grey, black stays black and white goes to grey |
| Grid.WhiteGoesGrey | artMaker.py:85 | white is strictly closer to (127, 127, 127) than to black, so `min` returns grey |
| Grid.DrawRow | artMaker.py:158-175 | the inner loop fills its row of `grid_colors` with the row's colours, leaves the other rows alone, and leaves the label state equal to the fold over the row |
| Grid.DrawFrame | artMaker.py:157-175 | a frame fills every cell with its colour and leaves the label state equal to the fold over the cells in scan order |
| Grid.Run | artMaker.py:118-196 | however many frames run before the quit, `grid_colors` holds every cell's quantized colour and the labels are those of a single scan from `{}` and counter 1 |

## Left out

- The prompts of `get_dimensions` and `get_gradient_info` are not modelled; `Grid.Request` stands for their result. The precondition `Grid.ValidRequest` stands for their checks.
- The prompts do not check the number of stops. With fewer than two stops, or with a single column (horizontal), a single row (vertical) or a 1x1 grid (diagonal), the source raises `ZeroDivisionError` or `IndexError`. The model makes these preconditions instead.
- `Gradient.ColorForPosition` requires coordinates inside the grid, because `run` only calls `get_color_for_position` on cells of the grid.
- The stops' channels are not required to be 8-bit; the prompts' 0..255 check appears only as the hypothesis `StopsInRange` / `InRange` of the range lemmas.
- IEEE-754 rounding: floats are exact reals. A factor that lands a rounding error away from a segment boundary can pick the neighbouring segment in the source. Rounding also moves `int()` of a blended channel: for stops (0,0,0) and (100,100,100) with `max_colors` 100, palette entry 29 is 28 in the source, because `100 * (29 / 100)` is 28.999999999999996 in floats, but 29 in the model.
- Drawing is not modelled: the window, `screen.fill`, the rectangles, borders, text rendering and `display.flip`. The `color_number` drawn in each cell is not stored; `Labels.DrawnNumberIsFinal` states which number it is.
- The pygame event queue is replaced by the parameter `quitFrame` of `Grid.Run`, the frame in which the quit event is seen.
- `save_image` and `pygame.quit` / `sys.exit` after the loop are not modelled.
- The unused `random` import and the constants `CELL_SIZE`, `WINDOW_WIDTH` and `WINDOW_HEIGHT` are not modelled.
- Grid.DrawRow, Grid.DrawFrame: take the expected colours as a ghost argument, tied to `Grid.CellColor` by their precondition. `Grid.Run` passes `Grid.Rows` and draws the conclusion about `CellColor`.
