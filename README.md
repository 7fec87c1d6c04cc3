# react-mosaic-loader, modelled in Dafny

`react-mosaic-loader` draws an image as a mosaic of pulsing dots, and the
mosaic doubles as a loading indicator. This project models four parts of it:

- The image sampler hook `useImageSampler`. It turns a decoded image into
  a lattice of `DotSample`s, one per stride step, each coloured by the pixel
  at its stride position. When the image fails to load or the canvas gives
  no 2D context, it builds a `gridSize` × `gridSize` fallback lattice in
  `#1a1a1a` instead. When the image loads but its pixels cannot be read (a
  tainted canvas), it still builds the sampled lattice of the image, with
  `ceil(h / stepY)` × `ceil(w / stepX)` cells, every one in `#1a1a1a`. It
  also runs the effect that guards, starts and cleans up a load.
- The shape masks of `shapes.ts`: square, circle, squircle, play triangle,
  diamond and hexagon. The hexagon uses an even-odd ray-casting test and the
  triangle a same-side sign test.
- The pure rules of the `Dots` component:
  - parsing a `#rrggbb` colour;
  - choosing the grid size from the quality setting and the device;
  - reading the animation presets and their overrides;
  - the speed-adjusted duration;
  - the shape filter;
  - the largest visible grid coordinates;
  - the per-dot runtime records and their keys;
  - the choice between SVG and canvas rendering.
- The `DotSample` record.

Modules, one per source concern:

- `JsBuiltins`: the JavaScript built-ins the core relies on. These are
  `Math.min`/`Math.max`, `toString(radix)` and `parseInt` on non-negative
  integers, `String.prototype.trim`, and `??` as `Option.GetOr`.
- `Types`: `DotSample`.
- `Lattice`: the generic row-major lattice that both grid builders lay out.
- `Shapes`: `isInsideShape`, `pointInPolygon` and `pointInTriangle`.
- `ImageSampler`: `rgbToHex` as a function, and `samplePixels` and
  `buildFallbackGrid` as methods with loops, each proved against a function
  that specifies it.
- `SamplerHook`: the hook's state (`dots`, `loading`, `error`) as a class.
  Its methods are the effect, its cleanup, a re-render, and the delivery of
  the browser's outcome to one request's handlers.
- `Dots`: the component's rules.

Modelling conventions:

- JavaScript numbers are exact mathematical values. Pixel sizes, grid sizes
  and channels are integers; positions, the box size, durations and
  speeds are reals.
- `Math.sqrt(3)` in the hexagon is a parameter `s` with `s > 0` and
  `s * s == 3`.
- `Math.floor(safeGrid * 0.68)` and its siblings are written
  `(safeGrid * 68) / 100`. In exact arithmetic this is the same number; in
  IEEE doubles it can differ (see "## Left out").
- The browser's part of a load arrives as an `Outcome`. It is decoded
  pixels, a tainted canvas (`getImageData` threw), no 2D context, or the
  `error` event.

## Model

| member | source | states |
|---|---|---|
| `Shapes.IsInsideShape` | src/shapes.ts:4-43 | the shape switch; specified by the lemmas below: square and unknown shapes accept all, the centre is always inside, diamond ⊆ circle ⊆ squircle ⊆ [0, 1]², symmetries, the play corners, the hexagon centre |
| `Shapes.CrossingCount` | src/shapes.ts:48-53 | the number of edges passing the crossing test; `Shapes.PointInPolygon` is proved to agree with its parity and `Shapes.HexagonContainsCentre` evaluates it |
| `Shapes.PolygonContains` | src/shapes.ts:45-56 | the even-odd rule over `Shapes.CrossingCount`; the result `Shapes.PointInPolygon` is proved to return |
| `Shapes.PointInTriangle` | src/shapes.ts:58-76 | `!(hasNeg && hasPos)`; characterised by `Shapes.TriangleSameSide` |
| `Shapes.SquareAndUnrecognisedAcceptAll` | src/shapes.ts:4-43 | `square` and any identifier the switch does not name accept every point |
| `Shapes.TriangleSameSide` | src/shapes.ts:58-76 | the triangle test accepts a point exactly when its three edge signs are all non-negative or all non-positive, boundary included |
| `Shapes.PlayVerticesInside` | src/shapes.ts:18-20 | the three corners of the play triangle are inside the play shape |
| `Shapes.PlayMirror` | src/shapes.ts:18-20 | the play shape is symmetric about the line `ny = 0.5` |
| `Shapes.PointInPolygon` | src/shapes.ts:45-56 | the loop over the edges, each paired with the previous vertex, toggles `inside` once per crossing, so its result is the even-odd rule over all edges |
| `Shapes.HexagonContainsCentre` | src/shapes.ts:26-39 | the horizontal ray from the centre crosses exactly one hexagon edge |
| `Shapes.CentreInsideEveryShape` | src/shapes.ts:4-43 | the centre (0.5, 0.5) is inside every shape |
| `Shapes.CentrallySymmetricShapes` | src/shapes.ts:8-25 | circle, squircle and diamond are invariant under reflection through the centre and under swapping the axes |
| `Shapes.DiamondWithinCircle` | src/shapes.ts:8-12 | every point inside the diamond is inside the circle |
| `Shapes.CircleWithinSquircle` | src/shapes.ts:8-17 | every point inside the circle is inside the squircle |
| `Shapes.SquircleWithinUnitSquare` | src/shapes.ts:13-17 | the squircle accepts only points of [0, 1]² |
| `Shapes.RoundShapesStayInUnitSquare` | src/shapes.ts:8-25 | circle, squircle and diamond accept only points of [0, 1]² |
| `Shapes.CornerOutsideRoundShapes` | src/shapes.ts:8-25 | the corner (0, 0) is rejected by circle, squircle and diamond |
| `JsBuiltins.DigitValue` | src/Dots.tsx:75-77 | `parseInt` gives each hex digit, of either case, a value below 16 |
| `JsBuiltins.DigitCharValue` | src/useImageSampler.ts:8 | the digit printed for a value below 16 is a lower-case hex digit that parses back to that value |
| `JsBuiltins.ToRadix` | src/useImageSampler.ts:8 | `toString(radix)` of a non-negative integer is never empty |
| `JsBuiltins.ToRadixDigits` | src/useImageSampler.ts:8 | every character `toString(radix)` prints is a digit of that radix |
| `JsBuiltins.ParseRadix` | src/Dots.tsx:75-77 | `parseInt(s, radix)` on a digit string; `JsBuiltins.ParseAppend` gives its Horner step and `JsBuiltins.RadixRoundTrip` inverts `toString(radix)` with it |
| `JsBuiltins.ParseAppend` | src/Dots.tsx:75-77 | appending a digit multiplies the parsed value by the radix and adds the digit |
| `JsBuiltins.RadixRoundTrip` | src/useImageSampler.ts:8 | parsing `n.toString(radix)` in the same radix gives `n` |
| `JsBuiltins.RoundTripSingleDigit` | src/useImageSampler.ts:8 | the round trip for a one-digit number |
| `JsBuiltins.RoundTripStep` | src/useImageSampler.ts:8 | the round trip for `n` follows from the round trip for `n / radix` |
| `JsBuiltins.RadixInjective` | src/Dots.tsx:211 | different numbers print as different strings |
| `JsBuiltins.TrimStart` | src/useImageSampler.ts:109 | trimming the start removes only whitespace and leaves a suffix that is empty or starts with a non-whitespace character |
| `JsBuiltins.TrimEnd` | src/useImageSampler.ts:109 | trimming the end removes only whitespace and leaves a prefix that is empty or ends with a non-whitespace character |
| `JsBuiltins.Trim` | src/useImageSampler.ts:109 | `s.trim()`; `JsBuiltins.TrimEmptyIffBlank` states when it is empty |
| `JsBuiltins.TrimEmptyIffBlank` | src/useImageSampler.ts:109 | `s.trim() === ''` exactly when every character of `s` is whitespace |
| `JsBuiltins.TrimEndEmptyOnlyIfBlank` | src/useImageSampler.ts:109 | a string that trims at the end to nothing is all whitespace |
| `ImageSampler.ClampChannel` | src/useImageSampler.ts:8 | `max(0, min(255, x))` lies in [0, 255], is `x` inside that range, and 0 or 255 outside it |
| `ImageSampler.ChannelHexIsPair` | src/useImageSampler.ts:7-10 | the padded `toString(16)` of a clamped channel is its high and low nibble digits |
| `ImageSampler.RgbToHex` | src/useImageSampler.ts:6-11 | every colour is 7 characters long: '#' and six lower-case hex digits; `ImageSampler.RgbToHexIsPaddedRadix` ties it to the padded `toString(16)` and `Dots.HexRoundTrip` parses it back |
| `ImageSampler.RgbToHexIsPaddedRadix` | src/useImageSampler.ts:6-11 | `rgbToHex` is '#' followed by the padded `toString(16)` of each clamped channel |
| `ImageSampler.CeilDiv` | src/useImageSampler.ts:55-56 | `ceil(a / b)` is 0 exactly when `a` is 0 |
| `ImageSampler.CeilDivBounds` | src/useImageSampler.ts:55-56 | `ceil(a / b)` is the least `q` with `q * b >= a` |
| `ImageSampler.StepFor` | src/useImageSampler.ts:53-54 | the stride is at least 1 |
| `ImageSampler.CoordBySpacing` | src/useImageSampler.ts:57-58 | `g * gap`, with the gap as the loop defines it, is the lattice coordinate of `g` |
| `ImageSampler.SampledCell` | src/useImageSampler.ts:62-75 | the sample the inner loop pushes for (`gx`, `gy`) is the specified cell of the sampled lattice |
| `ImageSampler.SampledCellColor` | src/useImageSampler.ts:62-68 | a cell's colour is that of the pixel at its capped stride position |
| `ImageSampler.BuildFallbackGrid` | src/useImageSampler.ts:83-99 | the nested loops produce exactly the fallback lattice |
| `ImageSampler.SamplePixels` | src/useImageSampler.ts:49-81 | the nested loops produce exactly the sampled lattice of the image |
| `ImageSampler.SampleRow` | src/useImageSampler.ts:61-76 | one run of the inner loop appends exactly row `gy` of the sampled lattice |
| `ImageSampler.GridShape` | src/useImageSampler.ts:60-77 | a lattice has `rows * cols` samples in row-major order: sample `i` is in column `i % cols` and row `i / cols` |
| `ImageSampler.GridCell` | src/useImageSampler.ts:69-75 | every sample is the cell named by its own grid coordinates |
| `ImageSampler.CellPositions` | src/useImageSampler.ts:69-71 | each cell records its own column and row |
| `ImageSampler.SamplePositions` | src/useImageSampler.ts:60-77 | the row-major positions hold for any lattice whose cells record their coordinates |
| `ImageSampler.GridAt` | src/useImageSampler.ts:60-77 | cell (`gx`, `gy`) is the sample at index `gy * cols + gx` |
| `ImageSampler.GridCoordinatesDistinct` | src/useImageSampler.ts:60-77 | no two samples share grid coordinates |
| `ImageSampler.FallbackGrid` | src/useImageSampler.ts:83-99 | the fallback lattice; `ImageSampler.BuildFallbackGrid` is proved to return it and `ImageSampler.FallbackGridShape` states its size, order, colour and positions |
| `ImageSampler.SampledGrid` | src/useImageSampler.ts:49-81 | the sampled lattice; `ImageSampler.SamplePixels` is proved to return it and `ImageSampler.SampledGridShape`, `ImageSampler.FullImageColours` and `ImageSampler.UnreadableImageColours` state its size, order, positions and colours |
| `ImageSampler.FallbackGridShape` | src/useImageSampler.ts:83-99 | the fallback grid has `gridSize²` samples (none when `gridSize < 1`), row-major, all in the fallback colour, at `g * gap` |
| `ImageSampler.StrideInBounds` | src/useImageSampler.ts:62-63 | a stride position below `ceil(extent / step)` is inside the image, so the `Math.min` cap never changes it |
| `ImageSampler.SampledGridShape` | src/useImageSampler.ts:49-81 | strides are at least 1; there are `ceil(h / stepY) * ceil(w / stepX)` samples, row-major; each reads the pixel at its exact stride position, which is inside the image |
| `ImageSampler.PixelOffsetInBounds` | src/useImageSampler.ts:64-66 | the RGB bytes of an in-image pixel are inside a buffer of `4 * w * h` bytes |
| `ImageSampler.FullImageColours` | src/useImageSampler.ts:64-68 | with a full RGBA buffer, every sample is coloured by its pixel's bytes and none falls back |
| `ImageSampler.UnreadableImageColours` | src/useImageSampler.ts:65-68 | without readable pixels every sample keeps the fallback colour |
| `ImageSampler.ExactFitColumns` | src/useImageSampler.ts:53-56 | an image side of `m * gridSize` pixels gives stride `m` and exactly `gridSize` columns |
| `ImageSampler.NarrowImageColumns` | src/useImageSampler.ts:53-56 | an image narrower than the grid is sampled at every pixel |
| `ImageSampler.CoordRange` | src/useImageSampler.ts:57-58 | the first coordinate is 0, the last is the full extent when there are two or more, and every one lies between 0 and the extent |
| `SamplerHook.Sampler.constructor` | src/useImageSampler.ts:36-38 | the initial state is no dots, `loading` true, `error` false; no handlers are attached |
| `SamplerHook.Sampler.RunEffect` | src/useImageSampler.ts:101-160 | under either guard (zero width or height, `gridSize < 1`, no or blank `src`), publishes the fallback grid with `loading` and `error` false; otherwise sets `loading`, clears `error` and attaches the handlers of a new request |
| `SamplerHook.Sampler.Cleanup` | src/useImageSampler.ts:162-167 | detaches the handlers and changes nothing else |
| `SamplerHook.Sampler.Update` | src/useImageSampler.ts:101-168 | a re-render with new options runs the old cleanup and then the effect, with the effect's outcome |
| `SamplerHook.Sampler.Deliver` | src/useImageSampler.ts:126-156 | only the attached request's handler acts. It publishes the sampled grid for decoded or tainted pixels and the fallback grid otherwise, ends `loading`, and sets `error` unless the pixels were read; a detached request changes nothing |
| `SamplerHook.SupersededLoad` | src/useImageSampler.ts:158-167 | a load superseded by a re-render cannot overwrite the state the new effect set |
| `SamplerHook.OutcomeDots` | src/useImageSampler.ts:126-156 | the grid a handler publishes for each outcome; specified by `SamplerHook.FailureShowsFallback`, `SamplerHook.TaintedShowsGeometryOnly` and `SamplerHook.DecodedShowsImage` |
| `SamplerHook.OutcomeError` | src/useImageSampler.ts:133-156 | the `error` flag a handler publishes: set unless the pixels were read, as `SamplerHook.FailureShowsFallback`, `SamplerHook.TaintedShowsGeometryOnly` and `SamplerHook.DecodedShowsImage` state |
| `SamplerHook.BlankSourceSettles` | src/useImageSampler.ts:109 | a source counts as missing exactly when it is all whitespace |
| `SamplerHook.FailureShowsFallback` | src/useImageSampler.ts:133-138 | a load error or missing context shows `gridSize²` fallback samples with `error` set |
| `SamplerHook.TaintedShowsGeometryOnly` | src/useImageSampler.ts:140-149 | an unreadable canvas keeps the sampled lattice's positions and coordinates, all in the fallback colour, with `error` set |
| `SamplerHook.DecodedShowsImage` | src/useImageSampler.ts:140-149 | a read image shows one sample per stride cell, each coloured from the image, with `error` clear |
| `Dots.ParsePair` | src/Dots.tsx:75-77 | `parseInt` of two hex digits is the high digit times 16 plus the low one, in [0, 255] |
| `Dots.HexToRgb` | src/Dots.tsx:72-81 | every channel is in [0, 255], and a string not of the form `#` plus six hex digits gives (26, 26, 26) |
| `Dots.HexPairParses` | src/Dots.tsx:72-81 | the two digits printed for a channel parse back to it |
| `Dots.HexColorParts` | src/Dots.tsx:75-77 | the three `slice`s of `"#" + a + b + c` are `a`, `b` and `c` |
| `Dots.HexRoundTrip` | src/Dots.tsx:72-81 | parsing what `rgbToHex` prints gives back the clamped channels |
| `Dots.FallbackColorIsDefault` | src/useImageSampler.ts:4 | the sampler's fallback colour is `rgbToHex(26, 26, 26)` and parses to the component's default colour |
| `Dots.Clamp` | src/Dots.tsx:68-70 | `clamp` lies in a non-empty range, returns an in-range value unchanged, and gives the nearer bound otherwise |
| `Dots.QualityGridSize` | src/Dots.tsx:107-122 | the grid size is at least 1; `high` keeps `max(1, base)`; `low` gives at least 6 and `balanced` at least 8 |
| `Dots.ScaledMonotone` | src/Dots.tsx:111-120 | the percentage scaling is monotone |
| `Dots.QualityMonotone` | src/Dots.tsx:107-122 | a larger base never yields a smaller grid, for the same quality and device |
| `Dots.ScaledAtMost` | src/Dots.tsx:111-120 | scaling by at most 100 % never enlarges |
| `Dots.QualityNeverEnlarges` | src/Dots.tsx:107-122 | from base 8 up, the grid never exceeds the base; it never exceeds `max(8, base)` |
| `Dots.UnknownDeviceIsMiddleRung` | src/Dots.tsx:116-120 | absent `hardwareConcurrency` and `deviceMemory` count as 4 and 4, the middle rung |
| `Dots.AutoNotMonotoneInCapability` | src/Dots.tsx:119-121 | at base 5 a strong device gets 5, a 2-core one 6 and a 4-core one 8 |
| `Dots.RequestedGridSize` | src/Dots.tsx:151-152 | the request is at least 1; `dotCount` wins; without either the default is 16 |
| `Dots.PresetOf` | src/Dots.tsx:18-49 | the three presets' constants; `Dots.PresetsWellFormed` states their ranges and `Dots.ResolvePulse` their use as defaults |
| `Dots.PresetsWellFormed` | src/Dots.tsx:18-49 | every preset's opacity trough is below its peak inside (0, 1], its scale straddles 1, and its mix, spread and stagger factors are fractions |
| `Dots.ResolvePulse` | src/Dots.tsx:155-159 | each override replaces the preset's value when given, and the preset's value is kept otherwise |
| `Dots.EffectiveDuration` | src/Dots.tsx:170 | speed is clamped to [0.1, 10]: in range, duration × speed is the base duration; below, it is ten times the base; above, a tenth |
| `Dots.EffectiveDurationExamples` | src/Dots.tsx:170 | 2000 ms at speed 2 is 1000 ms; at speed 0 it is 20000 ms; the default 3400 ms at speed 1 is unchanged |
| `Dots.EffectiveDurationRange` | src/Dots.tsx:170 | a non-negative duration stays within a factor of ten |
| `Dots.FilterInside` | src/Dots.tsx:174-178 | `dots.filter` by the shape test on normalised positions; specified by `Dots.FilterIsSublist`, `Dots.FilterMembers`, `Dots.FilterAcceptAll` and `Dots.FilterKeepsDistinct` |
| `Dots.VisibleDots` | src/Dots.tsx:172-179 | the square shortcut, else the filter; specified by `Dots.VisibleDotsSpec` and `Dots.CircleKeepsInnerCells` |
| `Dots.FilterIsSublist` | src/Dots.tsx:174-178 | the filter keeps a selection of the samples in their order |
| `Dots.FilterMembers` | src/Dots.tsx:174-178 | the filter keeps exactly the samples whose normalised position is inside the shape |
| `Dots.FilterAcceptAll` | src/Dots.tsx:173-178 | filtering by an all-accepting shape returns the samples unchanged, so the square shortcut agrees with the filter |
| `Dots.VisibleDotsSpec` | src/Dots.tsx:172-179 | the visible dots are an in-order selection of the samples, exactly those inside the shape |
| `Dots.NormaliseQuarterLattice` | src/Dots.tsx:175-176 | on a 4-wide lattice over a positive extent, normalised coordinate `g` is `g / 3` |
| `Dots.CircleOnThirds` | src/shapes.ts:8-12 | of the positions 0, 1/3, 2/3, 1 on both axes, the circle accepts exactly the inner ones |
| `Dots.FallbackCell` | src/useImageSampler.ts:83-99 | every fallback sample lies inside the `gridSize` × `gridSize` lattice, at the position its coordinates name |
| `Dots.CircleKeepsQuarterCell` | src/Dots.tsx:174-178 | a cell of a 4 × 4 lattice passes the circle filter exactly when it is an inner cell |
| `Dots.CircleKeepsInnerCells` | src/Dots.tsx:172-179 | the lattice runs edge to edge of the box, so on a 4 × 4 fallback grid the circle keeps exactly the four inner cells |
| `Dots.MaxGrid` | src/Dots.tsx:181-189 | the loop computes the running maximum of `gridX` and of `gridY`, from 0 |
| `Dots.MaxAlongSpec` | src/Dots.tsx:181-189 | that maximum bounds every visible dot and is attained by one, or is 0 when none are visible |
| `Dots.DotKey` | src/Dots.tsx:211 | `` `${gridX}-${gridY}` ``; `Dots.KeyInjective` proves different coordinates give different keys |
| `Dots.NoDash` | src/Dots.tsx:211 | a decimal number prints without '-' |
| `Dots.SplitAtDash` | src/Dots.tsx:211 | two dash-free parts are recovered uniquely from `a-b` |
| `Dots.KeyChars` | src/Dots.tsx:211 | the character at the length of the first part is the dash |
| `Dots.KeyInjective` | src/Dots.tsx:211 | different grid coordinates give different keys |
| `Dots.RuntimeDot` | src/Dots.tsx:198-220 | one runtime record; `Dots.RuntimeDotsShape` states its key, position, colour, RGB and period, and `Dots.RuntimeDotRanges` its diagonal and depth |
| `Dots.RuntimeDots` | src/Dots.tsx:198-220 | one runtime record per visible dot |
| `Dots.RuntimeDotsShape` | src/Dots.tsx:191-221 | record `i` has the key, position and colour of visible dot `i`, its parsed RGB, and a period of at least 700 ms |
| `Dots.RuntimeDotRanges` | src/Dots.tsx:200-208 | inside the extent the diagonal phase is in [0, 1), and depth is in [0.78, 1] for a radial ratio in [0, 1] |
| `Dots.VisibleWithinExtent` | src/Dots.tsx:181-189 | every visible dot lies within the extent `maxGrid` computes |
| `Dots.RuntimeKeysDistinct` | src/Dots.tsx:211 | dots with distinct grid coordinates get distinct keys |
| `Dots.FilterKeepsDistinct` | src/Dots.tsx:174-178 | filtering keeps grid coordinates distinct |
| `Dots.RenderedKeysDistinct` | src/Dots.tsx:172-221 | every rendered dot of a sampled or fallback grid has its own key, whatever the shape |
| `Dots.ResolvedRenderMode` | src/Dots.tsx:223-226 | an explicit mode is kept; `auto` picks canvas exactly when there are more than 520 runtime dots, and SVG otherwise |

Proof helpers with no source counterpart, used only inside the proofs above:
`Shapes.SquareOfSumBound`, `Shapes.Pow4AtMostOne`, `Shapes.MulAboveOne`,
`JsBuiltins.DivModFacts`, `ImageSampler.MulMonotone`,
`ImageSampler.MulNonNegative`, `ImageSampler.DivUnique`,
`ImageSampler.ScaledBetween`, `ImageSampler.SpacingSign` and
`ImageSampler.RealMulMonotone`.

Because the lattice runs edge to edge of the box and not through cell
centres, a 4 × 4 grid under the circle mask keeps only its 4 inner cells.
The outer 12 all lie on or outside the inscribed circle. A description that
counts cell centres would keep 12 of the 16; the model follows the code
(`Dots.CircleKeepsInnerCells`).

## Left out

- `phaseHash` (src/Dots.tsx:63-66) uses floating-point `Math.sin`. It enters the runtime records as a function parameter `hash`. No property of its range is assumed.
- The radial ratio (src/Dots.tsx:192-194, 201-202) needs `Math.sqrt`. It is a function parameter `radial`; `Dots.RuntimeDotRanges` takes a ratio in [0, 1] as its hypothesis.
- `Math.round(Math.sqrt(dotCount))` (src/Dots.tsx:152) is the parameter `dotCountRoot` of `Dots.RequestedGridSize`.
- The hexagon's `Math.sqrt(3)` is a parameter `s` with `s * s == 3`. IEEE rounding of this and every other computation is not modelled: numbers are exact reals and integers.
- `Dots.QualityGridSize`: the percentage rungs are exact. In IEEE doubles `150 * 0.82` is `122.99999999999999`, so the source's 'auto' 82 % rung gives 122 where the model gives 123; the same happens at 300 and 600, and other rungs may have such inputs too.
- `NaN` is not modelled. `!width` also rejects a `NaN` width; here only a zero width or height is rejected.
- A fractional `gridSize`, base grid size or dot count is not modelled: they are integers.
- `Math.round` on fractional channel values in `rgbToHex` is not modelled: channels are integers, as `getImageData` gives them.
- `crossOrigin` (src/useImageSampler.ts:122-124) is not modelled. Its effect on the browser is part of the `Tainted` outcome.
- Canvas creation (`getOrCreateCanvas`), `drawImage`, and resizing the canvas to the image are left out. They are browser I/O, so `Deliver` receives their result as an `Outcome`.
- The effect that releases the canvas on unmount (src/useImageSampler.ts:170-178) is left out. It touches only that browser object.
- Setting `img.src = ''` and `imgRef` in the cleanup are left out. Only the detached handlers are modelled, since those decide which request can still publish.
- The hook passes `width` and `height` through to its result unchanged; that is not modelled.
- `gap` is passed to the hook by the component but the hook does not read it, so it is not modelled.
- React's scheduling beyond "cleanup, then the effect again" is not modelled. This covers batching, memoisation and `useCallback` identities; `Update` models a re-render with changed options.
- Reduced motion, the canvas and SVG drawing, the animation frame loop and device pixel ratio are left out (src/Dots.tsx:83-105, 228 onwards). So are colour and style props. These are rendering and timing, not logic the model can state.
- `Dots.RuntimeDots`: its own contract gives only the length. The per-record contents are stated by `Dots.RuntimeDotsShape`. `delayMs` is not bounded, because it depends on the unmodelled hash.
- `ImageSampler.SamplePixels` requires `gridSize >= 1`. The source reaches it only after the effect's guard has rejected `gridSize < 1`.
- `SamplerHook.OutcomeDots` requires `gridSize >= 1`, for the same reason: handlers exist only for options that passed the guard.
- `SamplerHook.Sampler.RunEffect` requires that no handlers are attached. React always runs the previous cleanup first; `Update` models that sequence for any state.
- The demo application and `index.ts` re-exports are not part of this model.
