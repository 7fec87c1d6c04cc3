/** The state machine of `useImageSampler`: the hook's `dots`, `loading` and
    `error` state, the effect that starts a load for the current options, the
    load and error handlers it attaches, and the cleanup that detaches them.
    The browser's side (decoding, the canvas, `getImageData`) arrives as an
    `Outcome` delivered to the handler of one request. */
module SamplerHook {
  import opened JsBuiltins
  import opened Types
  import opened ImageSampler

  /** The options the effect depends on; `src == None` is `null` or `undefined`. */
  datatype Options = Options(src: Option<string>, gridSize: int, width: real, height: real)

  /** `!width || !height || gridSize < 1`: only a zero box side is falsy, so a
      negative width or height passes. */
  predicate BadLayout(o: Options) {
    o.width == 0.0 || o.height == 0.0 || o.gridSize < 1
  }

  /** `!src || src.trim() === ''`. */
  predicate NoSource(o: Options) {
    o.src.None? || Trim(o.src.value) == []
  }

  /** The effect settles at once, with the fallback grid, when either guard holds. */
  predicate SettlesAtOnce(o: Options) {
    BadLayout(o) || NoSource(o)
  }

  /** What the browser reports to a request's handlers:
      `Decoded`: the image loaded, a 2D context exists and `getImageData`
      returned the RGBA bytes of a `w` × `h` image;
      `Tainted`: the image loaded but `getImageData` threw (a cross-origin
      canvas, or an image with a zero side);
      `NoContext`: the image loaded but the canvas gave no 2D context;
      `Failed`: the `error` event. */
  datatype Outcome = Decoded(w: nat, h: nat, pixels: seq<int>) | Tainted(w: nat, h: nat) | NoContext | Failed

  /** The grid a handler publishes for `o` under options `opts`. */
  function OutcomeDots(opts: Options, o: Outcome): seq<DotSample>
    requires opts.gridSize >= 1
  {
    match o
    case Decoded(w, h, pixels) => SampledGrid(Raster(w, h, Some(pixels)), opts.gridSize, opts.width, opts.height)
    case Tainted(w, h) => SampledGrid(Raster(w, h, None), opts.gridSize, opts.width, opts.height)
    case NoContext => FallbackGrid(opts.gridSize, opts.width, opts.height)
    case Failed => FallbackGrid(opts.gridSize, opts.width, opts.height)
  }

  /** The `error` flag a handler publishes: only a fully read image is not an error. */
  function OutcomeError(o: Outcome): bool {
    !o.Decoded?
  }

  /** One mounted instance of the hook. Each load the effect starts gets the next
      ticket; `listening` is the ticket whose handlers are attached, if any. */
  class Sampler {
    var dots: seq<DotSample>
    var loading: bool
    var error: bool
    var options: Options
    var listening: Option<nat>
    var issued: nat

    /** Only the newest load can be listened to, and a load is started only for
        options that pass both guards. */
    predicate Valid()
      reads this
    {
      listening.Some? ==> listening.value + 1 == issued && !SettlesAtOnce(options)
    }

    /** The initial state: no dots, `loading` true, `error` false. */
    constructor (opts: Options)
      ensures Valid()
      ensures dots == [] && loading && !error
      ensures options == opts && listening == None && issued == 0
    {
      dots := [];
      loading := true;
      error := false;
      options := opts;
      listening := None;
      issued := 0;
    }

    /** The effect body for options `opts`, run when no handlers are attached. */
    method RunEffect(opts: Options)
      requires Valid() && listening == None
      modifies this
      ensures Valid()
      ensures options == opts
      ensures SettlesAtOnce(opts) ==>
        dots == FallbackGrid(opts.gridSize, opts.width, opts.height) && !loading && !error
        && listening == None && issued == old(issued)
      ensures !SettlesAtOnce(opts) ==>
        dots == old(dots) && loading && !error
        && listening == Some(old(issued)) && issued == old(issued) + 1
    {
      options := opts;
      if BadLayout(opts) {
        dots := BuildFallbackGrid(opts.gridSize, opts.width, opts.height);
        loading := false;
        error := false;
        return;
      }
      if opts.src.None? || Trim(opts.src.value) == [] {
        dots := BuildFallbackGrid(opts.gridSize, opts.width, opts.height);
        loading := false;
        error := false;
        return;
      }
      loading := true;
      error := false;
      listening := Some(issued);
      issued := issued + 1;
    }

    /** The cleanup the effect returns: both handlers are removed. */
    method Cleanup()
      requires Valid()
      modifies this
      ensures Valid()
      ensures listening == None
      ensures dots == old(dots) && loading == old(loading) && error == old(error)
      ensures options == old(options) && issued == old(issued)
    {
      listening := None;
    }

    /** A re-render with changed options: React runs the previous cleanup, then
        the effect again. */
    method Update(opts: Options)
      requires Valid()
      modifies this
      ensures Valid()
      ensures options == opts
      ensures SettlesAtOnce(opts) ==>
        dots == FallbackGrid(opts.gridSize, opts.width, opts.height) && !loading && !error
        && listening == None && issued == old(issued)
      ensures !SettlesAtOnce(opts) ==>
        dots == old(dots) && loading && !error
        && listening == Some(old(issued)) && issued == old(issued) + 1
    {
      Cleanup();
      RunEffect(opts);
    }

    /** The browser delivers `o` to the handlers of request `ticket`. Handlers
        that were detached no longer exist, so only the listened-to request
        changes state; its handler publishes the grid for the outcome, the
        outcome's error flag, and ends loading. */
    method Deliver(ticket: nat, o: Outcome)
      requires Valid()
      modifies this
      ensures Valid()
      ensures options == old(options) && listening == old(listening) && issued == old(issued)
      ensures listening == Some(ticket) ==>
        options.gridSize >= 1
        && dots == OutcomeDots(options, o) && !loading && error == OutcomeError(o)
      ensures listening != Some(ticket) ==>
        dots == old(dots) && loading == old(loading) && error == old(error)
    {
      if listening != Some(ticket) {
        return;
      }
      match o
      case Decoded(w, h, pixels) =>
        dots := SamplePixels(w, h, Some(pixels), options.gridSize, options.width, options.height);
        loading := false;
        error := false;
      case Tainted(w, h) =>
        dots := SamplePixels(w, h, None, options.gridSize, options.width, options.height);
        loading := false;
        error := true;
      case NoContext =>
        dots := BuildFallbackGrid(options.gridSize, options.width, options.height);
        loading := false;
        error := true;
      case Failed =>
        dots := BuildFallbackGrid(options.gridSize, options.width, options.height);
        loading := false;
        error := true;
    }
  }

  /** A load superseded by a re-render cannot publish: after the options change,
      the first request's outcome leaves exactly the state the second effect set. */
  method SupersededLoad(first: Options, second: Options, late: Outcome)
    returns (dots: seq<DotSample>, loading: bool, error: bool)
    requires !SettlesAtOnce(first)
    ensures SettlesAtOnce(second) ==>
      dots == FallbackGrid(second.gridSize, second.width, second.height) && !loading && !error
    ensures !SettlesAtOnce(second) ==> dots == [] && loading && !error
  {
    var s := new Sampler(first);
    s.RunEffect(first);
    var stale := s.issued - 1;
    s.Update(second);
    s.Deliver(stale, late);
    dots, loading, error := s.dots, s.loading, s.error;
  }

  // ----- properties of the outcomes -----

  /** A source that is only whitespace is no source, and a source with any
      other character is one. */
  lemma BlankSourceSettles(s: string, gridSize: int, width: real, height: real)
    ensures NoSource(Options(Some(s), gridSize, width, height)) <==> Blank(s)
  {
    TrimEmptyIffBlank(s);
  }

  /** A failed load or a missing context publishes `gridSize²` fallback samples
      with the error flag set. */
  lemma FailureShowsFallback(opts: Options, o: Outcome)
    requires opts.gridSize >= 1 && (o == Failed || o == NoContext)
    ensures OutcomeError(o)
    ensures |OutcomeDots(opts, o)| == opts.gridSize * opts.gridSize
    ensures forall c :: c in OutcomeDots(opts, o) ==> c.color == FallbackColor
  {
    FallbackGridShape(opts.gridSize, opts.width, opts.height);
    var g := OutcomeDots(opts, o);
    forall c | c in g ensures c.color == FallbackColor {
      var i :| 0 <= i < |g| && g[i] == c;
    }
  }

  /** Tainted pixels keep the sampled geometry of the image but every sample
      is in the fallback colour, and the error flag is set. */
  lemma TaintedShowsGeometryOnly(opts: Options, w: nat, h: nat, pixels: seq<int>)
    requires opts.gridSize >= 1
    ensures OutcomeError(Tainted(w, h)) && !OutcomeError(Decoded(w, h, pixels))
    ensures |OutcomeDots(opts, Tainted(w, h))| == |OutcomeDots(opts, Decoded(w, h, pixels))|
    ensures forall i :: 0 <= i < |OutcomeDots(opts, Tainted(w, h))| ==>
      var t, d := OutcomeDots(opts, Tainted(w, h))[i], OutcomeDots(opts, Decoded(w, h, pixels))[i];
      t.color == FallbackColor && (t.x, t.y, t.gridX, t.gridY) == (d.x, d.y, d.gridX, d.gridY)
  {
    var r0, r1 := Raster(w, h, None), Raster(w, h, Some(pixels));
    SampledGridShape(r0, opts.gridSize, opts.width, opts.height);
    SampledGridShape(r1, opts.gridSize, opts.width, opts.height);
    GridShape(SampledLayout(r0, opts.gridSize, opts.width, opts.height), SampledPaint(r0, opts.gridSize));
    GridShape(SampledLayout(r1, opts.gridSize, opts.width, opts.height), SampledPaint(r1, opts.gridSize));
  }

  /** A decoded image of `w` × `h` RGBA pixels publishes one sample per stride
      cell, each coloured from the image itself. */
  lemma DecodedShowsImage(opts: Options, w: nat, h: nat, pixels: seq<int>)
    requires opts.gridSize >= 1 && |pixels| == 4 * w * h
    ensures !OutcomeError(Decoded(w, h, pixels))
    ensures var p := SampledPaint(Raster(w, h, Some(pixels)), opts.gridSize);
      var g := OutcomeDots(opts, Decoded(w, h, pixels));
      |g| == CeilDiv(h, p.stepY) * CeilDiv(w, p.stepX)
      && forall i :: 0 <= i < |g| ==>
        var idx := PixelOffset(w, g[i].gridX * p.stepX, g[i].gridY * p.stepY);
        idx + 2 < |pixels| && g[i].color == RgbToHex(pixels[idx], pixels[idx + 1], pixels[idx + 2])
  {
    SampledGridShape(Raster(w, h, Some(pixels)), opts.gridSize, opts.width, opts.height);
    FullImageColours(w, h, pixels, opts.gridSize, opts.width, opts.height);
  }
}
