/** The pure rules of the `Dots` component: colour parsing, the quality policy
    that picks the sampled grid size, the animation presets and their
    overrides, the speed-adjusted duration, the shape filter, the extent of the
    visible lattice, the per-dot runtime records and the renderer choice. */
module Dots {
  import opened JsBuiltins
  import opened Types
  import opened Shapes
  import opened ImageSampler
  import Lattice

  // ----- colours -----

  datatype Rgb = Rgb(r: int, g: int, b: int)

  /** The colour every unparsable string maps to. */
  const DefaultRgb := Rgb(26, 26, 26)

  /** `/^#[0-9a-fA-F]{6}$/`: a '#' and exactly six hex digits of either case. */
  predicate IsHexColor(s: string) {
    |s| == 7 && s[0] == '#' && forall i :: 1 <= i < 7 ==> IsHexDigit(s[i])
  }

  /** `parseInt` of two hex digits. */
  function ParsePair(s: string): (v: int)
    requires |s| == 2 && IsHexDigit(s[0]) && IsHexDigit(s[1])
    ensures 0 <= v <= 255
    ensures v == DigitValue(s[0]) * 16 + DigitValue(s[1])
  {
    assert AllDigits(s, 16);
    var hi := s[..1];
    assert hi[..0] == [] && hi[0] == s[0] && s[..|s| - 1] == hi;
    assert AllDigits(hi, 16);
    assert ParseRadix(hi, 16) == DigitValue(s[0]);
    ParseRadix(s, 16)
  }

  /** `hexToRgb`: the three channels of a `#rrggbb` string, the default otherwise. */
  function HexToRgb(color: string): (c: Rgb)
    ensures 0 <= c.r <= 255 && 0 <= c.g <= 255 && 0 <= c.b <= 255
    ensures !IsHexColor(color) ==> c == DefaultRgb
  {
    if IsHexColor(color) then
      Rgb(ParsePair(color[1..3]), ParsePair(color[3..5]), ParsePair(color[5..7]))
    else DefaultRgb
  }

  /** The two digits of a channel parse back to the channel. */
  lemma HexPairParses(c: int)
    requires 0 <= c <= 255
    ensures IsHexDigit(HexPair(c)[0]) && IsHexDigit(HexPair(c)[1])
    ensures ParsePair(HexPair(c)) == c
  {
    DigitCharValue(c / 16);
    DigitCharValue(c % 16);
  }

  lemma HexColorParts(a: string, b: string, c: string)
    requires |a| == 2 && |b| == 2 && |c| == 2
    ensures var s := "#" + a + b + c;
      |s| == 7 && s[0] == '#' && s[1..3] == a && s[3..5] == b && s[5..7] == c
      && s[1] == a[0] && s[2] == a[1] && s[3] == b[0] && s[4] == b[1] && s[5] == c[0] && s[6] == c[1]
  {
  }

  /** Parsing what the sampler prints gives back the clamped channels. */
  lemma HexRoundTrip(r: int, g: int, b: int)
    ensures IsHexColor(RgbToHex(r, g, b))
    ensures HexToRgb(RgbToHex(r, g, b)) == Rgb(ClampChannel(r), ClampChannel(g), ClampChannel(b))
  {
    var cr, cg, cb := ClampChannel(r), ClampChannel(g), ClampChannel(b);
    var a, m, z := HexPair(cr), HexPair(cg), HexPair(cb);
    assert RgbToHex(r, g, b) == "#" + a + m + z;
    HexColorParts(a, m, z);
    HexPairParses(cr);
    HexPairParses(cg);
    HexPairParses(cb);
    var s := "#" + a + m + z;
    assert IsHexColor(s) by {
      forall i | 1 <= i < 7 ensures IsHexDigit(s[i]) {
      }
    }
  }

  /** The sampler's fallback colour parses to exactly the default colour, so an
      image that fails and a colour that does not parse look the same. */
  lemma FallbackColorIsDefault()
    ensures FallbackColor == RgbToHex(26, 26, 26)
    ensures HexToRgb(FallbackColor) == DefaultRgb
  {
    assert 26 / 16 == 1 && 26 % 16 == 10;
    assert HexPair(26) == "1a";
    HexRoundTrip(26, 26, 26);
  }

  /** `clamp(value, min, max)`. */
  function Clamp(value: real, min: real, max: real): (c: real)
    ensures min <= max ==> min <= c <= max
    ensures min <= value <= max ==> c == value
    ensures value < min ==> c == min
    ensures min <= max < value ==> c == max
  {
    MaxReal(min, MinReal(max, value))
  }

  // ----- grid size -----

  datatype Quality = Auto | High | Balanced | Low

  /** What `navigator` reports: no navigator at all, or its
      `hardwareConcurrency` and `deviceMemory`, each possibly absent. */
  datatype Device = NoNavigator | Navigator(cores: Option<int>, memory: Option<real>)

  /** `Math.floor(g * pct / 100)` for a positive `g`. */
  function Scaled(g: int, pct: nat): int {
    (g * pct) / 100
  }

  /** `qualityGridSize`: the grid size the sampler is asked for. */
  function QualityGridSize(base: int, q: Quality, dev: Device): (g: int)
    ensures g >= 1
    ensures q == High ==> g == Max(1, base)
    ensures q == Low ==> g >= 6
    ensures q == Balanced ==> g >= 8
  {
    var safe := Max(1, base);
    match q
    case High => safe
    case Low => Max(6, Scaled(safe, 68))
    case Balanced => Max(8, Scaled(safe, 86))
    case Auto =>
      match dev
      case NoNavigator => Max(8, Scaled(safe, 90))
      case Navigator(c, m) =>
        var cores := c.GetOr(4);
        var memory := m.GetOr(4.0);
        if cores <= 2 || memory <= 2.0 then Max(6, Scaled(safe, 64))
        else if cores <= 4 || memory <= 4.0 then Max(8, Scaled(safe, 82))
        else safe
  }

  lemma ScaledMonotone(a: int, b: int, pct: nat)
    requires a <= b
    ensures Scaled(a, pct) <= Scaled(b, pct)
  {
    assert b * pct == a * pct + (b - a) * pct;
    assert (b - a) * pct >= 0;
  }

  /** A larger requested grid never yields a smaller one, for the same quality and device. */
  lemma QualityMonotone(a: int, b: int, q: Quality, dev: Device)
    requires a <= b
    ensures QualityGridSize(a, q, dev) <= QualityGridSize(b, q, dev)
  {
    var sa, sb := Max(1, a), Max(1, b);
    ScaledMonotone(sa, sb, 68);
    ScaledMonotone(sa, sb, 86);
    ScaledMonotone(sa, sb, 90);
    ScaledMonotone(sa, sb, 64);
    ScaledMonotone(sa, sb, 82);
  }

  lemma ScaledAtMost(g: int, pct: nat)
    requires g >= 1 && pct <= 100
    ensures Scaled(g, pct) <= g
  {
    assert g * pct <= g * 100 by {
      assert g * 100 - g * pct == g * (100 - pct);
      assert g * (100 - pct) >= 0;
    }
  }

  /** From 8 up, degrading never enlarges the grid; below 8 the floors of 6 and 8 can. */
  lemma QualityNeverEnlarges(base: int, q: Quality, dev: Device)
    ensures base >= 8 ==> QualityGridSize(base, q, dev) <= base
    ensures QualityGridSize(base, q, dev) <= Max(8, Max(1, base))
  {
    var safe := Max(1, base);
    ScaledAtMost(safe, 68);
    ScaledAtMost(safe, 86);
    ScaledAtMost(safe, 90);
    ScaledAtMost(safe, 64);
    ScaledAtMost(safe, 82);
  }

  /** Absent capabilities count as 4 cores and 4 GB: the middle rung. */
  lemma UnknownDeviceIsMiddleRung(base: int)
    ensures QualityGridSize(base, Auto, Navigator(None, None)) == Max(8, Scaled(Max(1, base), 82))
    ensures QualityGridSize(base, Auto, Navigator(None, None))
         == QualityGridSize(base, Auto, Navigator(Some(4), Some(4.0)))
  {
  }

  /** The `auto` ladder is not monotone in device capability: for a small grid the
      floors lift weaker devices above a strong one. */
  lemma AutoNotMonotoneInCapability()
    ensures QualityGridSize(5, Auto, Navigator(Some(8), Some(8.0))) == 5
    ensures QualityGridSize(5, Auto, Navigator(Some(2), Some(8.0))) == 6
    ensures QualityGridSize(5, Auto, Navigator(Some(4), Some(8.0))) == 8
  {
    assert Scaled(5, 64) == 3 && Scaled(5, 82) == 4;
  }

  /** The grid size asked of the quality policy: `Math.round(Math.sqrt(dotCount))`
      arrives as `dotCountRoot` when `dotCount` is given; `gridSize` defaults to 16. */
  function RequestedGridSize(dotCountRoot: Option<int>, gridSize: Option<int>): (g: int)
    ensures g >= 1
    ensures dotCountRoot.Some? && dotCountRoot.value >= 1 ==> g == dotCountRoot.value
    ensures dotCountRoot.None? && gridSize.None? ==> g == 16
    ensures dotCountRoot.None? && gridSize.Some? && gridSize.value >= 1 ==> g == gridSize.value
  {
    if dotCountRoot.Some? then Max(1, dotCountRoot.value) else Max(1, gridSize.GetOr(16))
  }

  // ----- animation -----

  datatype PresetName = Calm | Vivid | Minimal

  datatype Preset = Preset(minOpacity: real, maxOpacity: real, minScale: real, maxScale: real,
                           phaseMix: real, phaseSpreadFactor: real, durationSpread: real,
                           staggerFactor: real)

  function PresetOf(name: PresetName): Preset {
    match name
    case Calm => Preset(0.48, 0.96, 0.9, 1.03, 0.22, 0.12, 180.0, 0.26)
    case Vivid => Preset(0.3, 1.0, 0.82, 1.08, 0.34, 0.2, 320.0, 0.34)
    case Minimal => Preset(0.62, 0.9, 0.95, 1.01, 0.16, 0.08, 120.0, 0.2)
  }

  /** Every preset pulses between an opacity trough and a higher peak inside
      [0, 1], shrinks below and grows above full size, and mixes and spreads by
      fractions of the duration. */
  lemma PresetsWellFormed(name: PresetName)
    ensures var p := PresetOf(name);
      0.0 < p.minOpacity < p.maxOpacity <= 1.0
      && 0.0 < p.minScale < 1.0 < p.maxScale
      && 0.0 < p.phaseMix < 1.0 && 0.0 < p.phaseSpreadFactor < 1.0 && 0.0 < p.staggerFactor < 1.0
      && p.durationSpread > 0.0
  {
    match name
    case Calm =>
    case Vivid =>
    case Minimal =>
  }

  datatype Pulse = Pulse(minOpacity: real, maxOpacity: real, minScale: real, maxScale: real)

  /** `minOpacity ?? preset.minOpacity` and its three siblings. */
  function ResolvePulse(name: PresetName, minOpacity: Option<real>, maxOpacity: Option<real>,
                        minScale: Option<real>, maxScale: Option<real>): (r: Pulse)
    ensures minOpacity.Some? ==> r.minOpacity == minOpacity.value
    ensures minOpacity.None? ==> r.minOpacity == PresetOf(name).minOpacity
    ensures maxOpacity.Some? ==> r.maxOpacity == maxOpacity.value
    ensures maxOpacity.None? ==> r.maxOpacity == PresetOf(name).maxOpacity
    ensures minScale.Some? ==> r.minScale == minScale.value
    ensures minScale.None? ==> r.minScale == PresetOf(name).minScale
    ensures maxScale.Some? ==> r.maxScale == maxScale.value
    ensures maxScale.None? ==> r.maxScale == PresetOf(name).maxScale
  {
    var p := PresetOf(name);
    Pulse(minOpacity.GetOr(p.minOpacity), maxOpacity.GetOr(p.maxOpacity),
          minScale.GetOr(p.minScale), maxScale.GetOr(p.maxScale))
  }

  /** `duration / Math.max(0.1, Math.min(10, speed))`: the speed is clamped to [0.1, 10]. */
  function EffectiveDuration(duration: real, speed: real): (d: real)
    ensures 0.1 <= speed <= 10.0 ==> d * speed == duration
    ensures speed < 0.1 ==> d == duration * 10.0
    ensures speed > 10.0 ==> d == duration / 10.0
  {
    duration / Clamp(speed, 0.1, 10.0)
  }

  lemma EffectiveDurationExamples()
    ensures EffectiveDuration(2000.0, 2.0) == 1000.0
    ensures EffectiveDuration(2000.0, 0.0) == 20000.0
    ensures EffectiveDuration(3400.0, 1.0) == 3400.0
  {
  }

  /** For a non-negative duration the effective one stays within a factor of ten. */
  lemma EffectiveDurationRange(duration: real, speed: real)
    requires duration >= 0.0
    ensures duration / 10.0 <= EffectiveDuration(duration, speed) <= duration * 10.0
  {
    var c := Clamp(speed, 0.1, 10.0);
    var d := EffectiveDuration(duration, speed);
    assert d * c == duration;
    assert d >= 0.0;
  }

  // ----- the shape filter -----

  /** The point of the unit square a sample's position maps to: `x / width`
      when the width is positive, 0 otherwise; the same for `y`. */
  function Normalise(v: real, extent: real): real {
    if extent > 0.0 then v / extent else 0.0
  }

  predicate Keeps(d: DotSample, shape: ShapeKind, width: real, height: real, s: real)
    requires IsSqrt3(s)
  {
    IsInsideShape(Normalise(d.x, width), Normalise(d.y, height), shape, s)
  }

  /** `dots.filter(...)`, in order. */
  function FilterInside(dots: seq<DotSample>, shape: ShapeKind, width: real, height: real, s: real): seq<DotSample>
    requires IsSqrt3(s)
    decreases |dots|
  {
    if dots == [] then []
    else (if Keeps(dots[0], shape, width, height, s) then [dots[0]] else [])
         + FilterInside(dots[1..], shape, width, height, s)
  }

  /** `visibleDots`: everything for the square, the samples inside the shape otherwise. */
  function VisibleDots(dots: seq<DotSample>, shape: ShapeKind, width: real, height: real, s: real): seq<DotSample>
    requires IsSqrt3(s)
  {
    if shape == Square then dots else FilterInside(dots, shape, width, height, s)
  }

  /** `a` is `b` with some elements dropped, the rest in their order. */
  predicate IsSublist<T(==)>(a: seq<T>, b: seq<T>)
    decreases |b|
  {
    if a == [] then true
    else if b == [] then false
    else (a[0] == b[0] && IsSublist(a[1..], b[1..])) || IsSublist(a, b[1..])
  }

  lemma {:induction false} FilterIsSublist(dots: seq<DotSample>, shape: ShapeKind, width: real, height: real, s: real)
    requires IsSqrt3(s)
    ensures IsSublist(FilterInside(dots, shape, width, height, s), dots)
    decreases |dots|
  {
    if dots != [] {
      var rest := FilterInside(dots[1..], shape, width, height, s);
      FilterIsSublist(dots[1..], shape, width, height, s);
      var f := FilterInside(dots, shape, width, height, s);
      if Keeps(dots[0], shape, width, height, s) {
        assert f == [dots[0]] + rest;
        assert f[1..] == rest;
      } else {
        assert f == rest;
        if f != [] {
          assert IsSublist(f, dots[1..]);
        }
      }
    }
  }

  /** The filter keeps exactly the samples inside the shape. */
  lemma {:induction false} FilterMembers(dots: seq<DotSample>, shape: ShapeKind, width: real, height: real, s: real)
    requires IsSqrt3(s)
    ensures forall d :: d in FilterInside(dots, shape, width, height, s) <==>
      d in dots && Keeps(d, shape, width, height, s)
    decreases |dots|
  {
    if dots != [] {
      FilterMembers(dots[1..], shape, width, height, s);
      assert dots == [dots[0]] + dots[1..];
    }
  }

  /** An all-accepting shape filters nothing out, so the square shortcut does
      not change the result. */
  lemma {:induction false} FilterAcceptAll(dots: seq<DotSample>, width: real, height: real, s: real)
    requires IsSqrt3(s)
    ensures FilterInside(dots, Square, width, height, s) == dots
    ensures FilterInside(dots, Unrecognised, width, height, s) == dots
    decreases |dots|
  {
    if dots != [] {
      FilterAcceptAll(dots[1..], width, height, s);
      assert dots == [dots[0]] + dots[1..];
    }
  }

  /** Visible dots are an in-order selection of the samples, and exactly those inside the shape. */
  lemma VisibleDotsSpec(dots: seq<DotSample>, shape: ShapeKind, width: real, height: real, s: real)
    requires IsSqrt3(s)
    ensures IsSublist(VisibleDots(dots, shape, width, height, s), dots)
    ensures forall d :: d in VisibleDots(dots, shape, width, height, s) <==>
      d in dots && Keeps(d, shape, width, height, s)
  {
    FilterAcceptAll(dots, width, height, s);
    FilterIsSublist(dots, shape, width, height, s);
    FilterMembers(dots, shape, width, height, s);
  }

  /** A coordinate of a 4-wide lattice, normalised by a positive extent, is a third of its index. */
  lemma NormaliseQuarterLattice(g: nat, extent: real)
    requires extent > 0.0
    ensures Normalise(Coord(g, 4, extent), extent) == g as real / 3.0
  {
    var sp := extent / 3.0;
    assert Coord(g, 4, extent) == g as real * sp;
    assert (g as real * sp) / extent == g as real / 3.0 by {
      assert g as real * sp == (g as real / 3.0) * extent;
    }
  }

  /** The circle test on the four normalised positions 0, 1/3, 2/3 and 1 of each axis. */
  lemma CircleOnThirds(a: nat, b: nat)
    requires a < 4 && b < 4
    ensures var dx, dy := a as real / 3.0 - 0.5, b as real / 3.0 - 0.5;
      dx * dx + dy * dy <= 0.25 <==> 1 <= a <= 2 && 1 <= b <= 2
  {
    var dx, dy := a as real / 3.0 - 0.5, b as real / 3.0 - 0.5;
    assert a == 0 || a == 3 ==> dx * dx == 0.25;
    assert a == 1 || a == 2 ==> dx * dx == 1.0 / 36.0;
    assert b == 0 || b == 3 ==> dy * dy == 0.25;
    assert b == 1 || b == 2 ==> dy * dy == 1.0 / 36.0;
  }

  /** The lattice spans the box edge to edge, so on a 4 × 4 fallback grid the
      circle keeps exactly the four inner cells: every outer one lies on or
      outside the inscribed circle. */
  lemma CircleKeepsInnerCells(width: real, height: real, s: real)
    requires IsSqrt3(s) && width > 0.0 && height > 0.0
    ensures var g := FallbackGrid(4, width, height);
      forall d :: d in VisibleDots(g, Circle, width, height, s) <==>
        d in g && 1 <= d.gridX <= 2 && 1 <= d.gridY <= 2
  {
    var g := FallbackGrid(4, width, height);
    VisibleDotsSpec(g, Circle, width, height, s);
    forall d | d in g
      ensures Keeps(d, Circle, width, height, s) <==> 1 <= d.gridX <= 2 && 1 <= d.gridY <= 2
    {
      FallbackCell(4, width, height, d);
      CircleKeepsQuarterCell(d, width, height, s);
    }
  }

  /** A sample of the fallback grid sits inside the lattice at its own coordinates. */
  lemma FallbackCell(gridSize: int, width: real, height: real, d: DotSample)
    requires d in FallbackGrid(gridSize, width, height)
    ensures d.gridX < gridSize && d.gridY < gridSize
    ensures d.x == Coord(d.gridX, gridSize, width) && d.y == Coord(d.gridY, gridSize, height)
  {
    FallbackGridShape(gridSize, width, height);
  }

  lemma CircleKeepsQuarterCell(d: DotSample, width: real, height: real, s: real)
    requires IsSqrt3(s) && width > 0.0 && height > 0.0
    requires d.gridX < 4 && d.gridY < 4
    requires d.x == Coord(d.gridX, 4, width) && d.y == Coord(d.gridY, 4, height)
    ensures Keeps(d, Circle, width, height, s) <==> 1 <= d.gridX <= 2 && 1 <= d.gridY <= 2
  {
    NormaliseQuarterLattice(d.gridX, width);
    NormaliseQuarterLattice(d.gridY, height);
    CircleOnThirds(d.gridX, d.gridY);
  }

  // ----- the extent of the visible lattice -----

  datatype Axis = Columns | Rows

  function Along(d: DotSample, axis: Axis): nat {
    match axis
    case Columns => d.gridX
    case Rows => d.gridY
  }

  /** The fold `maxGrid` performs along one axis, starting at 0. */
  function MaxAlong(dots: seq<DotSample>, axis: Axis): nat
    decreases |dots|
  {
    if dots == [] then 0
    else
      var m := MaxAlong(dots[..|dots| - 1], axis);
      if Along(dots[|dots| - 1], axis) > m then Along(dots[|dots| - 1], axis) else m
  }

  /** `maxGrid`: the largest column and row among the visible dots, 0 for none. */
  method MaxGrid(dots: seq<DotSample>) returns (maxX: nat, maxY: nat)
    ensures maxX == MaxAlong(dots, Columns) && maxY == MaxAlong(dots, Rows)
  {
    maxX, maxY := 0, 0;
    for i := 0 to |dots|
      invariant maxX == MaxAlong(dots[..i], Columns)
      invariant maxY == MaxAlong(dots[..i], Rows)
    {
      assert dots[..i + 1][..i] == dots[..i];
      var d := dots[i];
      if d.gridX > maxX {
        maxX := d.gridX;
      }
      if d.gridY > maxY {
        maxY := d.gridY;
      }
    }
    assert dots[..|dots|] == dots;
  }

  /** The fold bounds every sample and is attained by one, or is 0 for none. */
  lemma {:induction false} MaxAlongSpec(dots: seq<DotSample>, axis: Axis)
    ensures forall i :: 0 <= i < |dots| ==> Along(dots[i], axis) <= MaxAlong(dots, axis)
    ensures (dots == [] && MaxAlong(dots, axis) == 0)
         || (exists i :: 0 <= i < |dots| && MaxAlong(dots, axis) == Along(dots[i], axis))
    decreases |dots|
  {
    if dots != [] {
      var init := dots[..|dots| - 1];
      MaxAlongSpec(init, axis);
      forall i | 0 <= i < |dots| ensures Along(dots[i], axis) <= MaxAlong(dots, axis) {
        if i < |dots| - 1 {
          assert dots[i] == init[i];
        }
      }
      if Along(dots[|dots| - 1], axis) > MaxAlong(init, axis) {
        assert MaxAlong(dots, axis) == Along(dots[|dots| - 1], axis);
      } else if init == [] {
        assert MaxAlong(dots, axis) == 0;
        assert Along(dots[0], axis) == 0;
      } else {
        var j :| 0 <= j < |init| && MaxAlong(init, axis) == Along(init[j], axis);
        assert dots[j] == init[j];
      }
    }
  }

  // ----- runtime dots -----

  /** `` `${gridX}-${gridY}` ``. */
  function DotKey(gx: nat, gy: nat): string {
    ToRadix(gx, 10) + "-" + ToRadix(gy, 10)
  }

  lemma NoDash(n: nat)
    ensures '-' !in ToRadix(n, 10)
  {
    ToRadixDigits(n, 10);
  }

  lemma SplitAtDash(p1: string, q1: string, p2: string, q2: string)
    requires '-' !in p1 && '-' !in p2
    requires p1 + "-" + q1 == p2 + "-" + q2
    ensures p1 == p2 && q1 == q2
  {
    var s := p1 + "-" + q1;
    if |p1| < |p2| {
      KeyChars(p1, q1, p2, q2, |p1|);
      assert false;
    } else if |p2| < |p1| {
      KeyChars(p2, q2, p1, q1, |p2|);
      assert false;
    }
    assert p1 == s[..|p1|] == p2;
    assert q1 == s[|p1| + 1..] == q2;
  }

  lemma KeyChars(p1: string, q1: string, p2: string, q2: string, i: nat)
    ensures i == |p1| ==> (p1 + "-" + q1)[i] == '-'
    ensures i < |p2| ==> (p2 + "-" + q2)[i] == p2[i] && p2[i] in p2
  {
  }

  /** Different grid coordinates give different keys. */
  lemma KeyInjective(a: nat, b: nat, c: nat, d: nat)
    requires DotKey(a, b) == DotKey(c, d)
    ensures a == c && b == d
  {
    NoDash(a);
    NoDash(c);
    SplitAtDash(ToRadix(a, 10), ToRadix(b, 10), ToRadix(c, 10), ToRadix(d, 10));
    RadixInjective(a, c, 10);
    RadixInjective(b, d, 10);
  }

  datatype Runtime = Runtime(key: string, x: real, y: real, color: string, rgb: Rgb,
                             delayMs: real, periodMs: real, depth: real)

  /** The record for one visible dot. `h` stands for `phaseHash(gridX, gridY)` and
      `radial` for the dot's distance from the lattice centre divided by the
      largest such distance. */
  function RuntimeDot(d: DotSample, maxX: nat, maxY: nat, duration: real, p: Preset,
                      h: real, radial: real): Runtime
  {
    var diagonal := Diagonal(d, maxX, maxY);
    var staggerSpan := duration * p.staggerFactor;
    var phaseSpread := duration * p.phaseSpreadFactor;
    var basePhase := ((1.0 - p.phaseMix) * diagonal + p.phaseMix * radial) * staggerSpan;
    var organicOffset := (h - 0.5) * phaseSpread;
    Runtime(DotKey(d.gridX, d.gridY), d.x, d.y, d.color, HexToRgb(d.color),
            basePhase + organicOffset,
            MaxReal(700.0, duration + (h - 0.5) * p.durationSpread),
            1.0 - radial * 0.22)
  }

  /** `(gridX + gridY) / (maxX + maxY + 1)`. */
  function Diagonal(d: DotSample, maxX: nat, maxY: nat): real {
    (d.gridX + d.gridY) as real / (maxX + maxY + 1) as real
  }

  /** `runtimeDots`: one record per visible dot, in order, keyed by its grid
      coordinates, at its position and colour, with a period of at least 700 ms. */
  function RuntimeDots(vis: seq<DotSample>, maxX: nat, maxY: nat, duration: real, p: Preset,
                       hash: (nat, nat) -> real, radial: (nat, nat) -> real): (r: seq<Runtime>)
    ensures |r| == |vis|
  {
    seq(|vis|, i requires 0 <= i < |vis| =>
      RuntimeDot(vis[i], maxX, maxY, duration, p, hash(vis[i].gridX, vis[i].gridY),
                 radial(vis[i].gridX, vis[i].gridY)))
  }

  lemma RuntimeDotsShape(vis: seq<DotSample>, maxX: nat, maxY: nat, duration: real, p: Preset,
                         hash: (nat, nat) -> real, radial: (nat, nat) -> real)
    ensures var r := RuntimeDots(vis, maxX, maxY, duration, p, hash, radial);
      |r| == |vis|
      && forall i :: 0 <= i < |vis| ==>
        r[i].key == DotKey(vis[i].gridX, vis[i].gridY)
        && r[i].x == vis[i].x && r[i].y == vis[i].y && r[i].color == vis[i].color
        && r[i].rgb == HexToRgb(vis[i].color) && r[i].periodMs >= 700.0
  {
    var r := RuntimeDots(vis, maxX, maxY, duration, p, hash, radial);
    forall i | 0 <= i < |vis|
      ensures r[i].key == DotKey(vis[i].gridX, vis[i].gridY)
        && r[i].x == vis[i].x && r[i].y == vis[i].y && r[i].color == vis[i].color
        && r[i].rgb == HexToRgb(vis[i].color) && r[i].periodMs >= 700.0
    {
      var h, rad := hash(vis[i].gridX, vis[i].gridY), radial(vis[i].gridX, vis[i].gridY);
      assert r[i] == RuntimeDot(vis[i], maxX, maxY, duration, p, h, rad);
    }
  }

  /** Within the lattice's extent the diagonal phase lies in [0, 1), and a radial
      ratio in [0, 1] gives a depth in [0.78, 1]. */
  lemma RuntimeDotRanges(d: DotSample, maxX: nat, maxY: nat, duration: real, p: Preset, h: real, radial: real)
    requires d.gridX <= maxX && d.gridY <= maxY && 0.0 <= radial <= 1.0
    ensures 0.0 <= Diagonal(d, maxX, maxY) < 1.0
    ensures 0.78 <= RuntimeDot(d, maxX, maxY, duration, p, h, radial).depth <= 1.0
  {
    var num, den := (d.gridX + d.gridY) as real, (maxX + maxY + 1) as real;
    assert 0.0 <= num < den;
    assert num / den < 1.0 by {
      assert (num / den) * den == num;
    }
  }

  /** Every visible dot lies within the extent `maxGrid` computes. */
  lemma VisibleWithinExtent(vis: seq<DotSample>, i: nat)
    requires i < |vis|
    ensures vis[i].gridX <= MaxAlong(vis, Columns) && vis[i].gridY <= MaxAlong(vis, Rows)
  {
    MaxAlongSpec(vis, Columns);
    MaxAlongSpec(vis, Rows);
  }

  /** No two dots of the sequence share grid coordinates. */
  predicate DistinctCells(s: seq<DotSample>) {
    forall i, j :: 0 <= i < j < |s| ==> (s[i].gridX, s[i].gridY) != (s[j].gridX, s[j].gridY)
  }

  /** Dots with distinct grid coordinates get distinct keys. */
  lemma RuntimeKeysDistinct(vis: seq<DotSample>, maxX: nat, maxY: nat, duration: real, p: Preset,
                            hash: (nat, nat) -> real, radial: (nat, nat) -> real)
    requires DistinctCells(vis)
    ensures var r := RuntimeDots(vis, maxX, maxY, duration, p, hash, radial);
      forall i, j :: 0 <= i < j < |r| ==> r[i].key != r[j].key
  {
    var r := RuntimeDots(vis, maxX, maxY, duration, p, hash, radial);
    RuntimeDotsShape(vis, maxX, maxY, duration, p, hash, radial);
    forall i, j | 0 <= i < j < |r| ensures r[i].key != r[j].key {
      if r[i].key == r[j].key {
        KeyInjective(vis[i].gridX, vis[i].gridY, vis[j].gridX, vis[j].gridY);
        assert false;
      }
    }
  }

  lemma {:induction false} FilterKeepsDistinct(dots: seq<DotSample>, shape: ShapeKind, width: real, height: real, s: real)
    requires IsSqrt3(s) && DistinctCells(dots)
    ensures DistinctCells(FilterInside(dots, shape, width, height, s))
    decreases |dots|
  {
    if dots != [] {
      var rest := FilterInside(dots[1..], shape, width, height, s);
      assert DistinctCells(dots[1..]) by {
        forall i, j | 0 <= i < j < |dots[1..]|
          ensures (dots[1..][i].gridX, dots[1..][i].gridY) != (dots[1..][j].gridX, dots[1..][j].gridY)
        {
          assert dots[1..][i] == dots[i + 1] && dots[1..][j] == dots[j + 1];
        }
      }
      FilterKeepsDistinct(dots[1..], shape, width, height, s);
      if Keeps(dots[0], shape, width, height, s) {
        var f := [dots[0]] + rest;
        FilterMembers(dots[1..], shape, width, height, s);
        forall i, j | 0 <= i < j < |f| ensures (f[i].gridX, f[i].gridY) != (f[j].gridX, f[j].gridY) {
          if i == 0 {
            assert f[j] == rest[j - 1] && f[j] in dots[1..];
            var k :| 0 <= k < |dots[1..]| && dots[1..][k] == f[j];
            assert dots[k + 1] == f[j];
          } else {
            assert f[i] == rest[i - 1] && f[j] == rest[j - 1];
          }
        }
      }
    }
  }

  /** Every rendered dot of a sampled or fallback grid has its own key, whatever the shape. */
  lemma RenderedKeysDistinct(lay: Layout, paint: Paint, shape: ShapeKind, width: real, height: real, s: real,
                             duration: real, p: Preset, hash: (nat, nat) -> real, radial: (nat, nat) -> real)
    requires IsSqrt3(s)
    ensures var vis := VisibleDots(Grid(lay, paint), shape, width, height, s);
      var r := RuntimeDots(vis, MaxAlong(vis, Columns), MaxAlong(vis, Rows), duration, p, hash, radial);
      forall i, j :: 0 <= i < j < |r| ==> r[i].key != r[j].key
  {
    var g := Grid(lay, paint);
    GridCoordinatesDistinct(lay, paint);
    assert DistinctCells(g);
    FilterKeepsDistinct(g, shape, width, height, s);
    var vis := VisibleDots(g, shape, width, height, s);
    RuntimeKeysDistinct(vis, MaxAlong(vis, Columns), MaxAlong(vis, Rows), duration, p, hash, radial);
  }

  // ----- renderer -----

  datatype RenderMode = AutoMode | Svg | Canvas

  const AutoCanvasThreshold := 520

  /** `resolvedRenderMode`: an explicit mode is kept; `auto` picks the canvas
      exactly when there are more than 520 runtime dots. */
  function ResolvedRenderMode(mode: RenderMode, count: nat): (m: RenderMode)
    ensures m != AutoMode
    ensures mode != AutoMode ==> m == mode
    ensures mode == AutoMode ==> (m == Canvas <==> count > 520) && (m == Svg <==> count <= 520)
  {
    if mode != AutoMode then mode else if count > AutoCanvasThreshold then Canvas else Svg
  }
}
