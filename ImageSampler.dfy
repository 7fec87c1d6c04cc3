/** The image sampler's pure part: the hex colour encoder and the two grid
    builders (`samplePixels` over a decoded image, `buildFallbackGrid` without one).
    Both builders lay their cells on the same lattice, specified by `Grid`. */
module ImageSampler {
  import opened JsBuiltins
  import opened Types
  import Lattice

  /** The neutral colour of every cell that has no pixel to show. */
  const FallbackColor: string := "#1a1a1a"

  // ----- rgbToHex -----

  /** A channel clamped to [0, 255]; `Math.round` leaves the integer channels unchanged. */
  function ClampChannel(x: int): (c: int)
    ensures 0 <= c <= 255
    ensures 0 <= x <= 255 ==> c == x
    ensures x < 0 ==> c == 0
    ensures x > 255 ==> c == 255
  {
    Max(0, Min(255, x))
  }

  /** `toString(16)` of the clamped channel, padded with a leading '0' to two digits. */
  function ChannelHex(x: int): string {
    var hex := ToRadix(ClampChannel(x), 16);
    if |hex| == 1 then "0" + hex else hex
  }

  /** The two lower-case hex digits of a byte: high nibble, then low nibble. */
  function HexPair(c: int): string
    requires 0 <= c <= 255
  {
    [DigitChar(c / 16), DigitChar(c % 16)]
  }

  /** The padded `toString(16)` of every channel is exactly its two nibble digits. */
  lemma ChannelHexIsPair(x: int)
    ensures ChannelHex(x) == HexPair(ClampChannel(x))
  {
    var c := ClampChannel(x);
    if c < 16 {
      assert ToRadix(c, 16) == [DigitChar(c)];
    } else {
      assert c / 16 < 16;
      assert ToRadix(c / 16, 16) == [DigitChar(c / 16)];
      assert ToRadix(c, 16) == [DigitChar(c / 16)] + [DigitChar(c % 16)];
    }
  }

  /** `rgbToHex`: '#' and two lower-case hex digits, high nibble first, per clamped channel. */
  function RgbToHex(r: int, g: int, b: int): (s: string)
    ensures |s| == 7 && s[0] == '#'
    ensures forall i :: 1 <= i < 7 ==> IsLowerHexDigit(s[i])
  {
    "#" + HexPair(ClampChannel(r)) + HexPair(ClampChannel(g)) + HexPair(ClampChannel(b))
  }

  /** The nibble form is what the source computes: each channel's `toString(16)`,
      padded to two digits, joined after '#'. */
  lemma RgbToHexIsPaddedRadix(r: int, g: int, b: int)
    ensures RgbToHex(r, g, b) == "#" + ChannelHex(r) + ChannelHex(g) + ChannelHex(b)
  {
    ChannelHexIsPair(r);
    ChannelHexIsPair(g);
    ChannelHexIsPair(b);
  }

  // ----- the lattice -----

  /** `Math.ceil(a / b)` for a non-negative integer numerator and a positive divisor. */
  function CeilDiv(a: nat, b: nat): (q: nat)
    requires b >= 1
    ensures q == 0 <==> a == 0
  {
    (a + b - 1) / b
  }

  /** `CeilDiv(a, b)` is the least `q` with `q * b >= a`. */
  lemma CeilDivBounds(a: nat, b: nat)
    requires b >= 1
    ensures CeilDiv(a, b) * b >= a
    ensures CeilDiv(a, b) == 0 || (CeilDiv(a, b) - 1) * b < a
  {
    var q, m := (a + b - 1) / b, (a + b - 1) % b;
    assert a + b - 1 == q * b + m && 0 <= m < b;
    assert q * b - b == (q - 1) * b;
  }

  /** A lattice of `cols` × `rows` cells spread over a `width` × `height` box. */
  datatype Layout = Layout(cols: nat, rows: nat, width: real, height: real)

  /** A decoded image: its natural size and the RGBA bytes `getImageData` gave,
      `None` when reading them failed (a tainted canvas). */
  datatype Raster = Raster(w: nat, h: nat, data: Option<seq<int>>)

  /** Where a cell's colour comes from: one colour for all cells, or the image
      pixel nearest the cell's top-left corner, with the given strides. */
  datatype Paint = Uniform(color: string) | Sampled(raster: Raster, stepX: nat, stepY: nat)

  /** Distance between neighbouring cells along an axis: the extent divided by
      `max(1, count - 1)`. */
  function Spacing(count: nat, extent: real): real {
    extent / (Max(1, count - 1) as real)
  }

  function Coord(g: nat, count: nat, extent: real): real {
    (g as real) * Spacing(count, extent)
  }

  /** Index of the red byte of pixel (`px`, `py`) in a row-major RGBA buffer of width `w`. */
  function PixelOffset(w: nat, px: nat, py: nat): nat {
    (py * w + px) * 4
  }

  /** The colour stored at RGBA offset `idx`: RGB of the bytes there when the
      buffer has them, the fallback colour when it does not or there is no buffer. */
  function ColorAt(data: Option<seq<int>>, idx: nat): string {
    match data
    case None => FallbackColor
    case Some(d) => if idx + 2 < |d| then RgbToHex(d[idx], d[idx + 1], d[idx + 2]) else FallbackColor
  }

  /** The colour of the pixel at (`px`, `py`). */
  function PixelColor(r: Raster, px: nat, py: nat): string {
    ColorAt(r.data, PixelOffset(r.w, px, py))
  }

  /** The colour of cell (`gx`, `gy`): the uniform colour, or the pixel at the
      stride position capped at the last row and column. An image with no
      pixels has no cells, so its first branch is never part of a grid. */
  function CellColor(p: Paint, gx: nat, gy: nat): string {
    match p
    case Uniform(c) => c
    case Sampled(r, sx, sy) =>
      if r.w == 0 || r.h == 0 then FallbackColor
      else PixelColor(r, Min(gx * sx, r.w - 1), Min(gy * sy, r.h - 1))
  }

  function Cell(lay: Layout, p: Paint, gx: nat, gy: nat): DotSample {
    DotSample(Coord(gx, lay.cols, lay.width), Coord(gy, lay.rows, lay.height), CellColor(p, gx, gy), gx, gy)
  }

  function CellAt(lay: Layout, p: Paint): (nat, nat) -> DotSample {
    (gx: nat, gy: nat) => Cell(lay, p, gx, gy)
  }

  /** The whole lattice in row-major order. */
  function Grid(lay: Layout, p: Paint): seq<DotSample> {
    Lattice.Build(lay.cols, lay.rows, CellAt(lay, p))
  }

  /** What `buildFallbackGrid` returns: a `gridSize` × `gridSize` lattice in the
      fallback colour, or nothing when `gridSize < 1`. */
  function FallbackGrid(gridSize: int, width: real, height: real): seq<DotSample> {
    if gridSize < 1 then []
    else Grid(Layout(gridSize, gridSize, width, height), Uniform(FallbackColor))
  }

  /** The sampling stride along an axis: `max(1, floor(extent / gridSize))`. */
  function StepFor(extent: nat, gridSize: int): (step: nat)
    requires gridSize >= 1
    ensures step >= 1
  {
    Max(1, extent / gridSize)
  }

  function SampledPaint(r: Raster, gridSize: int): Paint
    requires gridSize >= 1
  {
    Sampled(r, StepFor(r.w, gridSize), StepFor(r.h, gridSize))
  }

  /** `ceil(w / stepX)` columns and `ceil(h / stepY)` rows over the output box. */
  function SampledLayout(r: Raster, gridSize: int, width: real, height: real): Layout
    requires gridSize >= 1
  {
    Layout(CeilDiv(r.w, StepFor(r.w, gridSize)), CeilDiv(r.h, StepFor(r.h, gridSize)), width, height)
  }

  /** What `samplePixels` returns for a decoded image. */
  function SampledGrid(r: Raster, gridSize: int, width: real, height: real): seq<DotSample>
    requires gridSize >= 1
  {
    Grid(SampledLayout(r, gridSize, width, height), SampledPaint(r, gridSize))
  }

  lemma CoordBySpacing(g: nat, count: nat, extent: real, gap: real)
    requires gap == Spacing(count, extent)
    ensures g as real * gap == Coord(g, count, extent)
  {
  }

  /** One cell of the sampled lattice, written the way `samplePixels` computes it
      from its strides, gaps and pixel position. */
  lemma SampledCell(w: nat, h: nat, data: Option<seq<int>>, gridSize: int, width: real, height: real,
                    gx: nat, gy: nat, stepX: nat, stepY: nat, gapX: real, gapY: real,
                    px: nat, py: nat, idx: nat)
    requires gridSize >= 1
    requires stepX == StepFor(w, gridSize) && stepY == StepFor(h, gridSize)
    requires gapX == Spacing(CeilDiv(w, stepX), width) && gapY == Spacing(CeilDiv(h, stepY), height)
    requires gx < CeilDiv(w, stepX) && gy < CeilDiv(h, stepY)
    requires px == Min(gx * stepX, w - 1) && py == Min(gy * stepY, h - 1)
    requires idx == (py * w + px) * 4
    ensures CellAt(SampledLayout(Raster(w, h, data), gridSize, width, height), SampledPaint(Raster(w, h, data), gridSize))(gx, gy)
         == DotSample(gx as real * gapX, gy as real * gapY, ColorAt(data, idx), gx, gy)
  {
    var r := Raster(w, h, data);
    var lay := SampledLayout(r, gridSize, width, height);
    var color := CellColor(SampledPaint(r, gridSize), gx, gy);
    var x, y := Coord(gx, lay.cols, width), Coord(gy, lay.rows, height);
    assert CellAt(lay, SampledPaint(r, gridSize))(gx, gy) == DotSample(x, y, color, gx, gy);
    SampledCellColor(w, h, data, gridSize, gx, gy, stepX, stepY, px, py);
    assert PixelColor(r, px, py) == ColorAt(data, idx);
    CoordBySpacing(gx, lay.cols, width, gapX);
    CoordBySpacing(gy, lay.rows, height, gapY);
  }

  lemma SampledCellColor(w: nat, h: nat, data: Option<seq<int>>, gridSize: int,
                         gx: nat, gy: nat, stepX: nat, stepY: nat, px: nat, py: nat)
    requires gridSize >= 1
    requires stepX == StepFor(w, gridSize) && stepY == StepFor(h, gridSize)
    requires gx < CeilDiv(w, stepX) && gy < CeilDiv(h, stepY)
    requires px == Min(gx * stepX, w - 1) && py == Min(gy * stepY, h - 1)
    ensures CellColor(SampledPaint(Raster(w, h, data), gridSize), gx, gy) == PixelColor(Raster(w, h, data), px, py)
  {
  }

  // ----- the two builders -----

  /** `buildFallbackGrid`: two nested loops pushing one sample per cell. */
  method BuildFallbackGrid(gridSize: int, width: real, height: real) returns (result: seq<DotSample>)
    ensures result == FallbackGrid(gridSize, width, height)
  {
    result := [];
    var gapX := width / (Max(1, gridSize - 1) as real);
    var gapY := height / (Max(1, gridSize - 1) as real);
    ghost var n: nat := if gridSize < 1 then 0 else gridSize;
    ghost var lay := Layout(n, n, width, height);
    ghost var f := CellAt(lay, Uniform(FallbackColor));
    var gy := 0;
    while gy < gridSize
      invariant 0 <= gy <= n
      invariant result == Lattice.RowsOf(n, f, gy)
    {
      var gx := 0;
      while gx < gridSize
        invariant 0 <= gx <= n
        invariant result == Lattice.RowsOf(n, f, gy) + Lattice.RowOf(f, gy, gx)
      {
        var sample := DotSample(gx as real * gapX, gy as real * gapY, FallbackColor, gx, gy);
        assert result + [sample] == Lattice.RowsOf(n, f, gy) + Lattice.RowOf(f, gy, gx + 1) by {
          CoordBySpacing(gx, n, width, gapX);
          CoordBySpacing(gy, n, height, gapY);
          assert sample == f(gx, gy);
          Lattice.AppendAssoc(Lattice.RowsOf(n, f, gy), Lattice.RowOf(f, gy, gx), [f(gx, gy)]);
        }
        result := result + [sample];
        gx := gx + 1;
      }
      gy := gy + 1;
    }
  }

  /** `samplePixels`: one sample per stride step, reading the top-left pixel of each step. */
  method SamplePixels(imageWidth: nat, imageHeight: nat, imageData: Option<seq<int>>,
                      gridSize: int, width: real, height: real) returns (result: seq<DotSample>)
    requires gridSize >= 1
    ensures result == SampledGrid(Raster(imageWidth, imageHeight, imageData), gridSize, width, height)
  {
    result := [];
    var stepX := Max(1, imageWidth / gridSize);
    var stepY := Max(1, imageHeight / gridSize);
    var cols := CeilDiv(imageWidth, stepX);
    var rows := CeilDiv(imageHeight, stepY);
    var gapX := width / (Max(1, cols as int - 1) as real);
    var gapY := height / (Max(1, rows as int - 1) as real);
    ghost var f := CellAt(SampledLayout(Raster(imageWidth, imageHeight, imageData), gridSize, width, height),
                          SampledPaint(Raster(imageWidth, imageHeight, imageData), gridSize));
    var gy := 0;
    while gy < rows
      invariant 0 <= gy <= rows
      invariant result == Lattice.RowsOf(cols, f, gy)
    {
      result := SampleRow(imageWidth, imageHeight, imageData, gridSize, width, height,
                          stepX, stepY, gapX, gapY, gy, result);
      gy := gy + 1;
    }
  }

  /** The inner loop of `samplePixels`: appends the samples of row `gy` to `acc`. */
  method SampleRow(imageWidth: nat, imageHeight: nat, imageData: Option<seq<int>>,
                   gridSize: int, width: real, height: real,
                   stepX: nat, stepY: nat, gapX: real, gapY: real, gy: nat,
                   acc: seq<DotSample>) returns (result: seq<DotSample>)
    requires gridSize >= 1
    requires stepX == StepFor(imageWidth, gridSize) && stepY == StepFor(imageHeight, gridSize)
    requires gapX == Spacing(CeilDiv(imageWidth, stepX), width)
    requires gapY == Spacing(CeilDiv(imageHeight, stepY), height)
    requires gy < CeilDiv(imageHeight, stepY)
    ensures result == acc + Lattice.RowOf(CellAt(SampledLayout(Raster(imageWidth, imageHeight, imageData), gridSize, width, height),
                                                 SampledPaint(Raster(imageWidth, imageHeight, imageData), gridSize)),
                                          gy, CeilDiv(imageWidth, stepX))
  {
    ghost var f := CellAt(SampledLayout(Raster(imageWidth, imageHeight, imageData), gridSize, width, height),
                          SampledPaint(Raster(imageWidth, imageHeight, imageData), gridSize));
    var cols := CeilDiv(imageWidth, stepX);
    result := acc;
    var gx := 0;
    while gx < cols
      invariant 0 <= gx <= cols
      invariant result == acc + Lattice.RowOf(f, gy, gx)
    {
      MulNonNegative(gx, stepX);
      MulNonNegative(gy, stepY);
      var px: nat := Min(gx * stepX, imageWidth - 1);
      var py: nat := Min(gy * stepY, imageHeight - 1);
      MulNonNegative(py, imageWidth);
      var idx := (py * imageWidth + px) * 4;
      var color := ColorAt(imageData, idx);
      var sample := DotSample(gx as real * gapX, gy as real * gapY, color, gx, gy);
      assert result + [sample] == acc + Lattice.RowOf(f, gy, gx + 1) by {
        SampledCell(imageWidth, imageHeight, imageData, gridSize, width, height,
                    gx, gy, stepX, stepY, gapX, gapY, px, py, idx);
        assert sample == f(gx, gy);
        Lattice.AppendAssoc(acc, Lattice.RowOf(f, gy, gx), [f(gx, gy)]);
      }
      result := result + [sample];
      gx := gx + 1;
    }
  }

  // ----- properties of the lattice -----

  /** The grid has `rows * cols` samples in row-major order: sample `i` sits in
      column `i % cols` and row `i / cols`. */
  lemma GridShape(lay: Layout, p: Paint)
    ensures |Grid(lay, p)| == lay.rows * lay.cols
    ensures forall i :: 0 <= i < |Grid(lay, p)| ==>
      lay.cols > 0 &&
      Grid(lay, p)[i].gridX == i % lay.cols < lay.cols && Grid(lay, p)[i].gridY == i / lay.cols < lay.rows
      && i == Grid(lay, p)[i].gridY * lay.cols + Grid(lay, p)[i].gridX
  {
    CellPositions(lay, p);
    SamplePositions(lay.cols, lay.rows, CellAt(lay, p));
  }

  /** Every sample of the grid is the cell its own grid coordinates name. */
  lemma GridCell(lay: Layout, p: Paint, i: nat)
    requires i < |Grid(lay, p)|
    ensures Grid(lay, p)[i] == Cell(lay, p, Grid(lay, p)[i].gridX, Grid(lay, p)[i].gridY)
  {
    GridShape(lay, p);
    GridAt(lay, p, Grid(lay, p)[i].gridX, Grid(lay, p)[i].gridY);
  }

  lemma CellPositions(lay: Layout, p: Paint)
    ensures forall x: nat, y: nat :: CellAt(lay, p)(x, y).gridX == x && CellAt(lay, p)(x, y).gridY == y
  {
  }

  /** Row-major positions of any lattice of samples that carry their own coordinates. */
  lemma SamplePositions(cols: nat, rows: nat, f: (nat, nat) -> DotSample)
    requires forall x: nat, y: nat :: f(x, y).gridX == x && f(x, y).gridY == y
    ensures |Lattice.Build(cols, rows, f)| == rows * cols
    ensures forall i :: 0 <= i < |Lattice.Build(cols, rows, f)| ==>
      cols > 0 &&
      Lattice.Build(cols, rows, f)[i].gridX == i % cols < cols && Lattice.Build(cols, rows, f)[i].gridY == i / cols < rows
      && i == Lattice.Build(cols, rows, f)[i].gridY * cols + Lattice.Build(cols, rows, f)[i].gridX
  {
    Lattice.BuildCells(cols, rows, f);
  }

  /** Cell (`gx`, `gy`) is the sample at index `gy * cols + gx`. */
  lemma GridAt(lay: Layout, p: Paint, gx: nat, gy: nat)
    requires gx < lay.cols && gy < lay.rows
    ensures gy * lay.cols + gx < |Grid(lay, p)|
    ensures Grid(lay, p)[gy * lay.cols + gx] == Cell(lay, p, gx, gy)
  {
    Lattice.BuildAt(lay.cols, lay.rows, CellAt(lay, p), gx, gy);
  }

  /** No two samples of a grid share grid coordinates. */
  lemma GridCoordinatesDistinct(lay: Layout, p: Paint)
    ensures forall i, j :: 0 <= i < j < |Grid(lay, p)| ==>
      (Grid(lay, p)[i].gridX, Grid(lay, p)[i].gridY) != (Grid(lay, p)[j].gridX, Grid(lay, p)[j].gridY)
  {
    GridShape(lay, p);
  }

  /** The fallback grid: `gridSize²` samples (none when `gridSize < 1`), row-major,
      every one in the fallback colour. */
  lemma FallbackGridShape(gridSize: int, width: real, height: real)
    ensures |FallbackGrid(gridSize, width, height)| == if gridSize < 1 then 0 else gridSize * gridSize
    ensures forall i :: 0 <= i < |FallbackGrid(gridSize, width, height)| ==>
      var c := FallbackGrid(gridSize, width, height)[i];
      c.color == FallbackColor && c.gridX < gridSize && c.gridY < gridSize
      && i == c.gridY * gridSize + c.gridX
      && c.x == Coord(c.gridX, gridSize, width) && c.y == Coord(c.gridY, gridSize, height)
  {
    if gridSize >= 1 {
      var lay := Layout(gridSize, gridSize, width, height);
      GridShape(lay, Uniform(FallbackColor));
      forall i | 0 <= i < |Grid(lay, Uniform(FallbackColor))|
        ensures var c := Grid(lay, Uniform(FallbackColor))[i];
          c.color == FallbackColor
          && c.x == Coord(c.gridX, gridSize, width) && c.y == Coord(c.gridY, gridSize, height)
      {
        GridCell(lay, Uniform(FallbackColor), i);
      }
    }
  }

  /** A stride position below `ceil(extent / step)` never passes the last pixel,
      so the `Math.min` cap in `samplePixels` never changes a coordinate. */
  lemma StrideInBounds(g: nat, extent: nat, step: nat)
    requires step >= 1 && g < CeilDiv(extent, step)
    ensures g * step <= extent - 1
  {
    CeilDivBounds(extent, step);
    var q := CeilDiv(extent, step);
    assert g <= q - 1;
    MulMonotone(g, q - 1, step);
  }

  lemma MulMonotone(a: nat, b: nat, c: nat)
    requires a <= b
    ensures a * c <= b * c
  {
    assert b * c == a * c + (b - a) * c;
  }

  /** The sampled grid: strides of at least 1, `rows * cols` samples with
      `cols = ceil(w / stepX)` and `rows = ceil(h / stepY)`, row-major, each
      reading the pixel at the exact stride position, which lies inside the image. */
  lemma SampledGridShape(r: Raster, gridSize: int, width: real, height: real)
    requires gridSize >= 1
    ensures var p := SampledPaint(r, gridSize);
      p.stepX >= 1 && p.stepY >= 1
      && |SampledGrid(r, gridSize, width, height)| == CeilDiv(r.h, p.stepY) * CeilDiv(r.w, p.stepX)
    ensures var p := SampledPaint(r, gridSize);
      var cols := CeilDiv(r.w, p.stepX);
      var rows := CeilDiv(r.h, p.stepY);
      forall i :: 0 <= i < |SampledGrid(r, gridSize, width, height)| ==>
        var c := SampledGrid(r, gridSize, width, height)[i];
        c.gridX < cols && c.gridY < rows && i == c.gridY * cols + c.gridX
        && 0 <= c.gridX * p.stepX <= r.w - 1 && 0 <= c.gridY * p.stepY <= r.h - 1
        && c.color == PixelColor(r, c.gridX * p.stepX, c.gridY * p.stepY)
        && c.x == Coord(c.gridX, cols, width) && c.y == Coord(c.gridY, rows, height)
  {
    var lay := SampledLayout(r, gridSize, width, height);
    var p := SampledPaint(r, gridSize);
    var g := Grid(lay, p);
    GridShape(lay, p);
    forall i | 0 <= i < |g|
      ensures 0 <= g[i].gridX * p.stepX <= r.w - 1 && 0 <= g[i].gridY * p.stepY <= r.h - 1
        && g[i].color == PixelColor(r, g[i].gridX * p.stepX, g[i].gridY * p.stepY)
        && g[i].x == Coord(g[i].gridX, lay.cols, width) && g[i].y == Coord(g[i].gridY, lay.rows, height)
    {
      var c := g[i];
      GridCell(lay, p, i);
      StrideInBounds(c.gridX, r.w, p.stepX);
      StrideInBounds(c.gridY, r.h, p.stepY);
      MulNonNegative(c.gridX, p.stepX);
      MulNonNegative(c.gridY, p.stepY);
    }
  }

  lemma MulNonNegative(a: nat, b: nat)
    ensures a * b >= 0
  {
  }

  /** The RGBA bytes of an in-image pixel lie inside a buffer of `4 * w * h` bytes. */
  lemma PixelOffsetInBounds(w: nat, h: nat, px: nat, py: nat)
    requires px <= w - 1 && py <= h - 1
    ensures PixelOffset(w, px, py) + 2 < 4 * w * h
  {
    MulMonotone(py, h - 1, w);
    assert (h - 1) * w == h * w - w;
    assert 4 * w * h == 4 * (h * w);
  }

  /** With a full RGBA buffer every sample's colour is read from the image, at
      the pixel its stride position names. */
  lemma FullImageColours(w: nat, h: nat, d: seq<int>, gridSize: int, width: real, height: real)
    requires gridSize >= 1 && |d| == 4 * w * h
    ensures var r := Raster(w, h, Some(d));
      var p := SampledPaint(r, gridSize);
      var g := SampledGrid(r, gridSize, width, height);
      forall i :: 0 <= i < |g| ==>
        var idx := PixelOffset(w, g[i].gridX * p.stepX, g[i].gridY * p.stepY);
        idx + 2 < |d| && g[i].color == RgbToHex(d[idx], d[idx + 1], d[idx + 2])
  {
    var r := Raster(w, h, Some(d));
    var p := SampledPaint(r, gridSize);
    var g := SampledGrid(r, gridSize, width, height);
    SampledGridShape(r, gridSize, width, height);
    forall i | 0 <= i < |g|
      ensures var idx := PixelOffset(w, g[i].gridX * p.stepX, g[i].gridY * p.stepY);
        idx + 2 < |d| && g[i].color == RgbToHex(d[idx], d[idx + 1], d[idx + 2])
    {
      var px, py := g[i].gridX * p.stepX, g[i].gridY * p.stepY;
      assert g[i].color == PixelColor(r, px, py);
      PixelOffsetInBounds(w, h, px, py);
    }
  }

  /** Without readable pixels every sample keeps the fallback colour. */
  lemma UnreadableImageColours(w: nat, h: nat, gridSize: int, width: real, height: real)
    requires gridSize >= 1
    ensures forall c :: c in SampledGrid(Raster(w, h, None), gridSize, width, height) ==> c.color == FallbackColor
  {
    SampledGridShape(Raster(w, h, None), gridSize, width, height);
  }

  /** An image whose side is `m` times the grid size is cut into exactly
      `gridSize` columns of stride `m`. */
  lemma ExactFitColumns(m: nat, gridSize: int)
    requires m >= 1 && gridSize >= 1
    ensures StepFor(m * gridSize, gridSize) == m
    ensures CeilDiv(m * gridSize, m) == gridSize
  {
    DivUnique(m * gridSize, gridSize, m, 0);
    DivUnique(m * gridSize + m - 1, m, gridSize, m - 1);
  }

  /** Euclidean division is determined by quotient and remainder. */
  lemma DivUnique(n: nat, d: nat, q: nat, r: nat)
    requires d >= 1 && r < d && n == q * d + r
    ensures n / d == q
  {
    var q', r' := n / d, n % d;
    assert n == q' * d + r' && r' < d;
    if q' < q {
      MulMonotone(q' + 1, q, d);
      assert false;
    } else if q < q' {
      MulMonotone(q + 1, q', d);
      assert false;
    }
  }

  /** An image narrower than the grid is sampled at every pixel. */
  lemma NarrowImageColumns(w: nat, gridSize: int)
    requires gridSize >= 1 && w < gridSize
    ensures StepFor(w, gridSize) == 1 && CeilDiv(w, 1) == w
  {
  }

  /** Lattice coordinates: the first is 0, the last is the full extent when there
      are at least two, and every one lies between 0 and the extent. */
  lemma CoordRange(g: nat, count: nat, extent: real)
    requires g < count
    ensures Coord(0, count, extent) == 0.0
    ensures count >= 2 ==> Coord(count - 1, count, extent) == extent
    ensures MinReal(0.0, extent) <= Coord(g, count, extent) <= MaxReal(0.0, extent)
  {
    var m := Max(1, count - 1) as real;
    var sp := Spacing(count, extent);
    assert Coord(g, count, extent) == (g as real) * sp;
    assert m * sp == extent;
    ScaledBetween(g as real, m, sp, extent);
  }

  /** A point `a` of `[0, m]` scaled by `sp` stays between 0 and `m * sp`. */
  lemma ScaledBetween(a: real, m: real, sp: real, e: real)
    requires 0.0 <= a <= m && m > 0.0 && m * sp == e
    ensures MinReal(0.0, e) <= a * sp <= MaxReal(0.0, e)
  {
    if e >= 0.0 {
      SpacingSign(e, m, sp);
      RealMulMonotone(a, m, sp);
    } else {
      var neg := -sp;
      assert neg * m == -e;
      SpacingSign(-e, m, neg);
      RealMulMonotone(a, m, neg);
      assert a * sp == -(a * neg);
    }
  }

  lemma SpacingSign(e: real, m: real, sp: real)
    requires e >= 0.0 && m > 0.0 && sp * m == e
    ensures sp >= 0.0
  {
  }

  lemma RealMulMonotone(a: real, b: real, c: real)
    requires 0.0 <= a <= b && c >= 0.0
    ensures 0.0 <= a * c <= b * c
  {
    assert b * c - a * c == (b - a) * c;
  }
}
