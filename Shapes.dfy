/** The shape classifier: inclusion of a normalised point (`nx`, `ny` in [0, 1],
    the centre at (0.5, 0.5)) in one of the layout masks. */
module Shapes {

  datatype ShapeKind = Square | Circle | Squircle | Play | Diamond | Hexagon
                     | Unrecognised  // any other identifier a caller passes

  datatype Vertex = Vertex(x: real, y: real)

  /** `s` stands for `Math.sqrt(3)`. */
  predicate IsSqrt3(s: real) {
    s > 0.0 && s * s == 3.0
  }

  function Abs(x: real): real { if x < 0.0 then -x else x }

  function Pow4(x: real): real { x * x * x * x }

  /** The regular hexagon around (0.5, 0.5) with circumradius 0.5: top, upper
      right, lower right, bottom, lower left, upper left. */
  function HexagonVertices(s: real): (vs: seq<Vertex>)
    ensures |vs| == 6
  {
    var cx, cy, r := 0.5, 0.5, 0.5;
    [ Vertex(cx, cy - r),
      Vertex(cx + (r * s) / 2.0, cy - r / 2.0),
      Vertex(cx + (r * s) / 2.0, cy + r / 2.0),
      Vertex(cx, cy + r),
      Vertex(cx - (r * s) / 2.0, cy + r / 2.0),
      Vertex(cx - (r * s) / 2.0, cy - r / 2.0) ]
  }

  predicate IsInsideShape(nx: real, ny: real, shape: ShapeKind, s: real)
    requires IsSqrt3(s)
  {
    match shape
    case Square => true
    case Circle =>
      var dx, dy := nx - 0.5, ny - 0.5;
      dx * dx + dy * dy <= 0.25
    case Squircle =>
      var x, y := Abs(nx - 0.5) * 2.0, Abs(ny - 0.5) * 2.0;
      Pow4(x) + Pow4(y) <= 1.0
    case Play => PointInTriangle(nx, ny, 0.22, 0.28, 0.22, 0.72, 0.82, 0.5)
    case Diamond =>
      var dx, dy := Abs(nx - 0.5), Abs(ny - 0.5);
      dx + dy <= 0.5
    case Hexagon => PolygonContains(nx, ny, HexagonVertices(s))
    case Unrecognised => true
  }

  // ----- even-odd ray casting -----

  /** The crossing test for the edge from `vj` to `vi`: the edge straddles the
      horizontal line through the point, and the point lies left of the
      intersection. The division is reached only when `vi.y != vj.y`. */
  predicate EdgeCrosses(px: real, py: real, vi: Vertex, vj: Vertex) {
    ((vi.y > py) != (vj.y > py))
    && px < (vj.x - vi.x) * (py - vi.y) / (vj.y - vi.y) + vi.x
  }

  /** The partner index `j` of edge `i`: the previous vertex, wrapping to the last. */
  function Prev(i: nat, n: nat): int {
    if i == 0 then n - 1 else i - 1
  }

  /** How many of the edges `i = 0 .. k-1` (each paired with `Prev(i)`) pass the crossing test. */
  function CrossingCount(px: real, py: real, vs: seq<Vertex>, k: nat): nat
    requires k <= |vs|
  {
    if k == 0 then 0
    else
      var i := k - 1;
      CrossingCount(px, py, vs, i) + (if EdgeCrosses(px, py, vs[i], vs[Prev(i, |vs|)]) then 1 else 0)
  }

  /** The even-odd rule: inside when an odd number of edges cross. */
  predicate PolygonContains(px: real, py: real, vs: seq<Vertex>) {
    CrossingCount(px, py, vs, |vs|) % 2 == 1
  }

  /** `pointInPolygon`: one pass over the edges, toggling `inside` on each crossing. */
  method PointInPolygon(px: real, py: real, vertices: seq<Vertex>) returns (inside: bool)
    ensures inside <==> PolygonContains(px, py, vertices)
  {
    inside := false;
    var n := |vertices|;
    var i, j := 0, n - 1;
    while i < n
      invariant 0 <= i <= n
      invariant j == Prev(i, n)
      invariant inside <==> CrossingCount(px, py, vertices, i) % 2 == 1
    {
      if EdgeCrosses(px, py, vertices[i], vertices[j]) {
        inside := !inside;
      }
      j, i := i, i + 1;
    }
  }

  // ----- same-side triangle test -----

  function Sign(x1: real, y1: real, x2: real, y2: real, x3: real, y3: real): real {
    (x1 - x3) * (y2 - y3) - (x2 - x3) * (y1 - y3)
  }

  predicate PointInTriangle(px: real, py: real, xa: real, ya: real, xb: real, yb: real, xc: real, yc: real) {
    var d1 := Sign(px, py, xa, ya, xb, yb);
    var d2 := Sign(px, py, xb, yb, xc, yc);
    var d3 := Sign(px, py, xc, yc, xa, ya);
    var hasNeg := d1 < 0.0 || d2 < 0.0 || d3 < 0.0;
    var hasPos := d1 > 0.0 || d2 > 0.0 || d3 > 0.0;
    !(hasNeg && hasPos)
  }

  // ----- properties -----

  /** 'square' and unrecognised identifiers mask nothing. */
  lemma SquareAndUnrecognisedAcceptAll(nx: real, ny: real, s: real)
    requires IsSqrt3(s)
    ensures IsInsideShape(nx, ny, Square, s)
    ensures IsInsideShape(nx, ny, Unrecognised, s)
  {
  }

  /** The triangle test accepts exactly the points on the same side of all three
      edges, boundary included: only two strict signs of opposite sense reject. */
  lemma TriangleSameSide(px: real, py: real, xa: real, ya: real, xb: real, yb: real, xc: real, yc: real)
    ensures PointInTriangle(px, py, xa, ya, xb, yb, xc, yc) <==>
      var d1, d2, d3 := Sign(px, py, xa, ya, xb, yb), Sign(px, py, xb, yb, xc, yc), Sign(px, py, xc, yc, xa, ya);
      (d1 >= 0.0 && d2 >= 0.0 && d3 >= 0.0) || (d1 <= 0.0 && d2 <= 0.0 && d3 <= 0.0)
  {
  }

  /** The three corners of the play triangle count as inside. */
  lemma PlayVerticesInside(s: real)
    requires IsSqrt3(s)
    ensures IsInsideShape(0.22, 0.28, Play, s)
    ensures IsInsideShape(0.22, 0.72, Play, s)
    ensures IsInsideShape(0.82, 0.5, Play, s)
  {
  }

  /** The play triangle is symmetric about the horizontal mid-line. */
  lemma PlayMirror(nx: real, ny: real, s: real)
    requires IsSqrt3(s)
    ensures IsInsideShape(nx, 1.0 - ny, Play, s) == IsInsideShape(nx, ny, Play, s)
  {
  }

  /** The ray from the centre crosses exactly one hexagon edge (the right one). */
  lemma HexagonContainsCentre(s: real)
    requires s > 0.0
    ensures CrossingCount(0.5, 0.5, HexagonVertices(s), 6) == 1
  {
    var vs := HexagonVertices(s);
    assert !EdgeCrosses(0.5, 0.5, vs[0], vs[5]);
    assert CrossingCount(0.5, 0.5, vs, 1) == 0;
    assert !EdgeCrosses(0.5, 0.5, vs[1], vs[0]);
    assert CrossingCount(0.5, 0.5, vs, 2) == 0;
    assert EdgeCrosses(0.5, 0.5, vs[2], vs[1]);
    assert CrossingCount(0.5, 0.5, vs, 3) == 1;
    assert !EdgeCrosses(0.5, 0.5, vs[3], vs[2]);
    assert CrossingCount(0.5, 0.5, vs, 4) == 1;
    assert !EdgeCrosses(0.5, 0.5, vs[4], vs[3]);
    assert CrossingCount(0.5, 0.5, vs, 5) == 1;
    assert !EdgeCrosses(0.5, 0.5, vs[5], vs[4]);
  }

  /** The centre of the box is inside every shape. */
  lemma CentreInsideEveryShape(shape: ShapeKind, s: real)
    requires IsSqrt3(s)
    ensures IsInsideShape(0.5, 0.5, shape, s)
  {
    if shape == Hexagon {
      HexagonContainsCentre(s);
    }
  }

  /** Circle, squircle and diamond are symmetric under the point reflection
      through the centre and under exchanging the axes. */
  lemma CentrallySymmetricShapes(nx: real, ny: real, shape: ShapeKind, s: real)
    requires IsSqrt3(s)
    requires shape == Circle || shape == Squircle || shape == Diamond
    ensures IsInsideShape(1.0 - nx, 1.0 - ny, shape, s) == IsInsideShape(nx, ny, shape, s)
    ensures IsInsideShape(ny, nx, shape, s) == IsInsideShape(nx, ny, shape, s)
  {
    assert Abs((1.0 - nx) - 0.5) == Abs(nx - 0.5);
    assert Abs((1.0 - ny) - 0.5) == Abs(ny - 0.5);
    assert ((1.0 - nx) - 0.5) * ((1.0 - nx) - 0.5) == (nx - 0.5) * (nx - 0.5);
    assert ((1.0 - ny) - 0.5) * ((1.0 - ny) - 0.5) == (ny - 0.5) * (ny - 0.5);
  }

  lemma SquareOfSumBound(a: real, b: real, bound: real)
    requires a >= 0.0 && b >= 0.0 && a + b <= bound
    ensures a * a + b * b <= bound * bound
  {
    assert a * b >= 0.0;
    assert (a + b) * (a + b) == a * a + 2.0 * a * b + b * b;
    assert (a + b) * (a + b) <= bound * bound;
  }

  /** Nesting: the diamond lies inside the circle. */
  lemma DiamondWithinCircle(nx: real, ny: real, s: real)
    requires IsSqrt3(s)
    requires IsInsideShape(nx, ny, Diamond, s)
    ensures IsInsideShape(nx, ny, Circle, s)
  {
    var a, b := Abs(nx - 0.5), Abs(ny - 0.5);
    SquareOfSumBound(a, b, 0.5);
    assert a * a == (nx - 0.5) * (nx - 0.5);
    assert b * b == (ny - 0.5) * (ny - 0.5);
  }

  /** Nesting: the circle lies inside the squircle. */
  lemma CircleWithinSquircle(nx: real, ny: real, s: real)
    requires IsSqrt3(s)
    requires IsInsideShape(nx, ny, Circle, s)
    ensures IsInsideShape(nx, ny, Squircle, s)
  {
    var x, y := Abs(nx - 0.5) * 2.0, Abs(ny - 0.5) * 2.0;
    var u, v := x * x, y * y;
    assert u == 4.0 * ((nx - 0.5) * (nx - 0.5));
    assert v == 4.0 * ((ny - 0.5) * (ny - 0.5));
    SquareOfSumBound(u, v, 1.0);
    assert Pow4(x) == u * u;
    assert Pow4(y) == v * v;
  }

  lemma Pow4AtMostOne(x: real)
    requires x >= 0.0 && Pow4(x) <= 1.0
    ensures x <= 1.0
  {
    if x > 1.0 {
      MulAboveOne(x, x);
      MulAboveOne(x * x, x * x);
      assert false;
    }
  }

  lemma MulAboveOne(a: real, b: real)
    requires a > 1.0 && b > 1.0
    ensures a * b > 1.0
  {
    assert a * b > a * 1.0;
  }

  /** The squircle (and so the circle and the diamond inside it) never reaches
      outside the unit square. */
  lemma SquircleWithinUnitSquare(nx: real, ny: real, s: real)
    requires IsSqrt3(s)
    requires IsInsideShape(nx, ny, Squircle, s)
    ensures 0.0 <= nx <= 1.0 && 0.0 <= ny <= 1.0
  {
    var x, y := Abs(nx - 0.5) * 2.0, Abs(ny - 0.5) * 2.0;
    assert Pow4(y) >= 0.0 by { assert Pow4(y) == (y * y) * (y * y); }
    assert Pow4(x) >= 0.0 by { assert Pow4(x) == (x * x) * (x * x); }
    Pow4AtMostOne(x);
    Pow4AtMostOne(y);
  }

  /** Circle, squircle and diamond reject every point outside [0, 1]². */
  lemma RoundShapesStayInUnitSquare(nx: real, ny: real, shape: ShapeKind, s: real)
    requires IsSqrt3(s)
    requires shape == Circle || shape == Squircle || shape == Diamond
    requires IsInsideShape(nx, ny, shape, s)
    ensures 0.0 <= nx <= 1.0 && 0.0 <= ny <= 1.0
  {
    if shape == Diamond {
      DiamondWithinCircle(nx, ny, s);
    }
    if shape != Squircle {
      CircleWithinSquircle(nx, ny, s);
    }
    SquircleWithinUnitSquare(nx, ny, s);
  }

  /** The corner (0, 0) lies in the unit square but outside the round shapes. */
  lemma CornerOutsideRoundShapes(shape: ShapeKind, s: real)
    requires IsSqrt3(s)
    requires shape == Circle || shape == Squircle || shape == Diamond
    ensures !IsInsideShape(0.0, 0.0, shape, s)
  {
    match shape
    case Circle =>
      assert (0.0 - 0.5) * (0.0 - 0.5) == 0.25;
      assert !IsInsideShape(0.0, 0.0, Circle, s);
    case Squircle =>
      var x := Abs(0.0 - 0.5) * 2.0;
      assert x == 1.0;
      assert Pow4(x) == 1.0 by {
        assert x * x == 1.0;
      }
    case Diamond =>
      assert Abs(0.0 - 0.5) == 0.5;
      assert !IsInsideShape(0.0, 0.0, Diamond, s);
  }
}
