/**
  Rotating and scaling a primary inside the triangle of the profile's primaries. The direction stands
  for the cosine and sine of the rotated angle.
 */
module Primaries {
  import opened Numeric

  datatype Point = Point(x: real, y: real)

  /** A profile's three primaries and its white point. */
  datatype Profile = Profile(primaries: seq<Point>, white: Point)

  type Triangle = p: Profile | |p.primaries| == 3
    witness Profile([Point(0.0, 0.0), Point(0.0, 0.0), Point(0.0, 0.0)], Point(0.0, 0.0))

  function Minus(a: Point, b: Point): Point { Point(a.x - b.x, a.y - b.y) }

  /** a moved by t along d. */
  function Along(a: Point, t: real, d: Point): Point { Point(t * d.x + a.x, t * d.y + a.y) }

  function Determinant(a: real, b: real, c: real, d: real): real { a * d - b * c }

  /** The multiple of p1 -> p2 at which the line through p3 and p4 is met; FLT_MAX if never or behind. */
  function IntersectLines(p1: Point, p2: Point, p3: Point, p4: Point): real {
    var denominator := Determinant(p1.x - p2.x, p3.x - p4.x, p1.y - p2.y, p3.y - p4.y);
    if denominator == 0.0 then FLT_MAX
    else
      var t := Determinant(p1.x - p3.x, p3.x - p4.x, p1.y - p3.y, p3.y - p4.y) / denominator;
      if t >= 0.0 then t else FLT_MAX
  }

  function Next(i: nat): nat { if i == 2 then 0 else i + 1 }

  function EdgeDistance(p: Triangle, d: Point, i: nat): real
    requires i < 3
  {
    IntersectLines(p.white, Point(p.white.x + d.x, p.white.y + d.y), p.primaries[i], p.primaries[Next(i)])
  }

  /** The smallest of FLT_MAX and the three edge distances. */
  ghost predicate IsDistance(p: Triangle, d: Point, t: real) {
    && t <= FLT_MAX && (forall i :: 0 <= i < 3 ==> t <= EdgeDistance(p, d, i))
    && (t == FLT_MAX || exists i :: 0 <= i < 3 && t == EdgeDistance(p, d, i))
  }

  /** _find_distance_to_edge: the nearest of the three lines ahead. */
  method FindDistanceToEdge(p: Triangle, d: Point) returns (t: real)
    ensures IsDistance(p, d, t)
  {
    t := FLT_MAX;
    for i := 0 to 3
      invariant t <= FLT_MAX && forall j :: 0 <= j < i ==> t <= EdgeDistance(p, d, j)
      invariant t == FLT_MAX || exists j :: 0 <= j < i && t == EdgeDistance(p, d, j)
    {
      var distance := EdgeDistance(p, d, i);
      if distance < t {
        t := distance;
      }
    }
  }

  /** Without a direction no line is ahead: the distance is the largest single precision number. */
  lemma NoDirection(p: Triangle, t: real)
    requires IsDistance(p, Point(0.0, 0.0), t)
    ensures t == 340282346638528859811704183484516925440.0
  {
    forall i | 0 <= i < 3 ensures EdgeDistance(p, Point(0.0, 0.0), i) == 340282346638528859811704183484516925440.0 {
      DeterminantIsTurn(p.white, Point(0.0, 0.0), p.primaries[i], p.primaries[Next(i)]);
    }
  }

  // ---------------------------------------------------------------- the triangle

  function Cross(u: Point, v: Point): real { u.x * v.y - u.y * v.x }

  /** On which side of edge i is x, and how far (scaled by the edge's length)? */
  function Side(p: Triangle, i: nat, x: Point): real
    requires i < 3
  {
    Cross(Minus(p.primaries[Next(i)], p.primaries[i]), Minus(x, p.primaries[i]))
  }

  /** How fast does a step along d change the side of edge i? */
  function Turn(p: Triangle, i: nat, d: Point): real
    requires i < 3
  {
    Cross(Minus(p.primaries[Next(i)], p.primaries[i]), d)
  }

  predicate Positive(p: Triangle, x: Point) { Side(p, 0, x) > 0.0 && Side(p, 1, x) > 0.0 && Side(p, 2, x) > 0.0 }
  predicate Negative(p: Triangle, x: Point) { Side(p, 0, x) < 0.0 && Side(p, 1, x) < 0.0 && Side(p, 2, x) < 0.0 }

  /** Strictly inside; this implies that the triangle is not degenerate. */
  predicate StrictlyInside(p: Triangle, x: Point) { Positive(p, x) || Negative(p, x) }

  predicate Inside(p: Triangle, x: Point) {
    || (Side(p, 0, x) >= 0.0 && Side(p, 1, x) >= 0.0 && Side(p, 2, x) >= 0.0)
    || (Side(p, 0, x) <= 0.0 && Side(p, 1, x) <= 0.0 && Side(p, 2, x) <= 0.0)
  }

  predicate OnBoundary(p: Triangle, x: Point) {
    Inside(p, x) && (Side(p, 0, x) == 0.0 || Side(p, 1, x) == 0.0 || Side(p, 2, x) == 0.0)
  }

  // ---------------------------------------------------------------- one edge

  /** The distance to a line at side a that changes by b per step. */
  function Hit(a: real, b: real): real {
    if b == 0.0 then FLT_MAX else if a / (0.0 - b) >= 0.0 then a / (0.0 - b) else FLT_MAX
  }

  lemma Products(c: real, s: real, x: real, y: real)
    ensures Determinant(0.0 - c, 0.0 - x, 0.0 - s, 0.0 - y) == 0.0 - Cross(Point(x, y), Point(c, s))
    ensures Determinant(c, 0.0 - x, s, 0.0 - y) == Cross(Point(x, y), Point(c, s))
  {
  }

  lemma DeterminantIsTurn(w: Point, d: Point, a: Point, b: Point)
    ensures Determinant(w.x - (w.x + d.x), a.x - b.x, w.y - (w.y + d.y), a.y - b.y) == 0.0 - Cross(Minus(b, a), d)
    ensures Determinant(w.x - a.x, a.x - b.x, w.y - a.y, a.y - b.y) == Cross(Minus(b, a), Minus(w, a))
  {
    var x, y := b.x - a.x, b.y - a.y;
    assert w.x - (w.x + d.x) == 0.0 - d.x && w.y - (w.y + d.y) == 0.0 - d.y;
    assert a.x - b.x == 0.0 - x && a.y - b.y == 0.0 - y;
    Products(d.x, d.y, x, y);
    Products(w.x - a.x, w.y - a.y, x, y);
  }

  lemma EdgeIsHit(p: Triangle, d: Point, i: nat)
    requires i < 3
    ensures EdgeDistance(p, d, i) == Hit(Side(p, i, p.white), Turn(p, i, d))
  {
    DeterminantIsTurn(p.white, d, p.primaries[i], p.primaries[Next(i)]);
  }

  /** Sides change linearly along a ray. */
  lemma SideAlong(p: Triangle, i: nat, t: real, d: Point)
    requires i < 3
    ensures Side(p, i, Along(p.white, t, d)) == Side(p, i, p.white) + t * Turn(p, i, d)
  {
    var e := Minus(p.primaries[Next(i)], p.primaries[i]);
    CrossAlong(e, Minus(p.white, p.primaries[i]), t, d);
  }

  lemma CrossAlong(e: Point, v: Point, t: real, d: Point)
    ensures Cross(e, Point(t * d.x + v.x, t * d.y + v.y)) == Cross(e, v) + t * Cross(e, d)
  {
  }

  lemma AtMost(t: real, u: real, b: real)
    requires t <= u && b >= 0.0
    ensures t * b <= u * b
  {
    assert (u - t) * b >= 0.0;
  }

  /** Up to the hit a positive side stays nonnegative. */
  lemma PositiveKept(a: real, b: real, t: real)
    requires a > 0.0 && 0.0 <= t
    ensures b < 0.0 && t <= Hit(a, b) ==> a + t * b >= 0.0
    ensures b >= 0.0 ==> a + t * b >= 0.0
  {
    if b < 0.0 && t <= Hit(a, b) {
      var c := 0.0 - b;
      HitValue(a, c);
      AtMost(t, Hit(a, b), c);
      assert t * b == 0.0 - t * c;
    }
  }

  lemma HitValue(a: real, c: real)
    requires a > 0.0 && c > 0.0
    ensures Hit(a, 0.0 - c) > 0.0 && Hit(a, 0.0 - c) * c == a
  {
    var q := a / c;
    assert q * c == a;
    assert q > 0.0;
  }

  /** Both signs turned: the hit is the same. */
  lemma HitMirrored(a: real, b: real)
    ensures Hit(a, b) == Hit(0.0 - a, 0.0 - b)
  {
    if b != 0.0 {
      var q := a / (0.0 - b);
      assert q * (0.0 - b) == a;
      assert (0.0 - a) / b == q;
    }
  }

  /** Up to the hit no side changes its sign. */
  lemma EdgeKept(a: real, b: real, t: real)
    requires a != 0.0 && 0.0 <= t <= Hit(a, b)
    ensures a > 0.0 ==> a + t * b >= 0.0
    ensures a < 0.0 ==> a + t * b <= 0.0
  {
    if a > 0.0 {
      PositiveKept(a, b, t);
    } else {
      var c := 0.0 - b;
      HitMirrored(a, b);
      PositiveKept(0.0 - a, c, t);
      assert t * c == 0.0 - t * b;
    }
  }

  /** Is the line ahead, within the largest number? */
  predicate Ahead(a: real, b: real) { b != 0.0 && 0.0 <= a / (0.0 - b) <= FLT_MAX }

  /** A side becomes zero at t exactly if the line is hit there. */
  lemma ZeroSide(a: real, b: real, t: real)
    requires a != 0.0
    ensures a + t * b == 0.0 <==> b != 0.0 && t == a / (0.0 - b)
  {
    if b != 0.0 {
      var c := 0.0 - b;
      var q := a / c;
      assert q * c == a;
      assert t * b == 0.0 - t * c;
      if t != q { Differ(t, q, c); }
    }
  }

  lemma Differ(t: real, q: real, c: real)
    requires t != q && c != 0.0
    ensures t * c != q * c
  {
    assert (t - q) * c != 0.0;
  }

  // ---------------------------------------------------------------- inside

  lemma DistanceNotNegative(p: Triangle, d: Point, t: real)
    requires IsDistance(p, d, t)
    ensures 0.0 <= t
  {
  }

  lemma ShorterRay(k: real, t: real)
    requires 0.0 <= k <= 1.0 && 0.0 <= t
    ensures 0.0 <= k * t <= t
  {
    assert (1.0 - k) * t >= 0.0;
  }

  /** The side of edge i keeps its sign up to the distance found. */
  lemma SideKept(p: Triangle, d: Point, t: real, u: real, i: nat)
    requires i < 3 && IsDistance(p, d, t) && 0.0 <= u <= t && Side(p, i, p.white) != 0.0
    ensures Side(p, i, p.white) > 0.0 ==> Side(p, i, Along(p.white, u, d)) >= 0.0
    ensures Side(p, i, p.white) < 0.0 ==> Side(p, i, Along(p.white, u, d)) <= 0.0
  {
    var a, b, x := EdgeNumbers(p, d, u, i);
    assert t <= EdgeDistance(p, d, i);
    EdgeKept(a, b, u);
  }

  /** Where the ray starts, how it moves and where it is after u, as seen from edge i. */
  lemma EdgeNumbers(p: Triangle, d: Point, u: real, i: nat) returns (a: real, b: real, x: real)
    requires i < 3
    ensures a == Side(p, i, p.white) && x == Side(p, i, Along(p.white, u, d)) && x == a + u * b
    ensures EdgeDistance(p, d, i) == Hit(a, b)
  {
    EdgeIsHit(p, d, i);
    SideAlong(p, i, u, d);
    a, b, x := Side(p, i, p.white), Turn(p, i, d), Side(p, i, Along(p.white, u, d));
  }

  /** Any scaling in 0 .. 1 stays inside the triangle. */
  lemma StaysInside(p: Triangle, d: Point, t: real, scaling: real)
    requires StrictlyInside(p, p.white) && IsDistance(p, d, t) && 0.0 <= scaling <= 1.0
    ensures Inside(p, Along(p.white, scaling * t, d))
  {
    DistanceNotNegative(p, d, t);
    ShorterRay(scaling, t);
    var u := scaling * t;
    SideKept(p, d, t, u, 0);
    SideKept(p, d, t, u, 1);
    SideKept(p, d, t, u, 2);
  }

  /** Some edge line is ahead within range. */
  predicate EdgeInRange(p: Triangle, d: Point) {
    exists i :: 0 <= i < 3 && Ahead(Side(p, i, p.white), Turn(p, i, d))
  }

  lemma SideZero(p: Triangle, d: Point, t: real, i: nat)
    requires i < 3 && Side(p, i, p.white) != 0.0
    ensures Side(p, i, Along(p.white, t, d)) == 0.0
        <==> Turn(p, i, d) != 0.0 && t == Side(p, i, p.white) / (0.0 - Turn(p, i, d))
  {
    SideAlong(p, i, t, d);
    ZeroSide(Side(p, i, p.white), Turn(p, i, d), t);
  }

  /** The line that sets the distance is met there. */
  lemma NearestIsMet(p: Triangle, d: Point, t: real, i: nat) returns (j: nat)
    requires StrictlyInside(p, p.white) && IsDistance(p, d, t)
    requires i < 3 && Ahead(Side(p, i, p.white), Turn(p, i, d))
    ensures j < 3 && Side(p, j, Along(p.white, t, d)) == 0.0
  {
    EdgeIsHit(p, d, i);
    j := i;
    if t < EdgeDistance(p, d, i) {
      j :| 0 <= j < 3 && t == EdgeDistance(p, d, j);
      EdgeIsHit(p, d, j);
    }
    SideZero(p, d, t, j);
  }

  /** A line that is met at t is in range. */
  lemma MetIsAhead(p: Triangle, d: Point, t: real, i: nat)
    requires i < 3 && Side(p, i, p.white) != 0.0 && 0.0 <= t <= FLT_MAX
    ensures Side(p, i, Along(p.white, t, d)) == 0.0 ==> EdgeInRange(p, d)
  {
    SideZero(p, d, t, i);
    if Side(p, i, Along(p.white, t, d)) == 0.0 {
      assert Ahead(Side(p, i, p.white), Turn(p, i, d));
    }
  }

  lemma WhiteOffEdges(p: Triangle, i: nat)
    requires StrictlyInside(p, p.white) && i < 3
    ensures Side(p, i, p.white) != 0.0
  {
  }

  lemma BoundaryIsMet(p: Triangle, d: Point, t: real)
    requires StrictlyInside(p, p.white) && 0.0 <= t <= FLT_MAX && OnBoundary(p, Along(p.white, t, d))
    ensures EdgeInRange(p, d)
  {
    WhiteOffEdges(p, 0);
    WhiteOffEdges(p, 1);
    WhiteOffEdges(p, 2);
    MetIsAhead(p, d, t, 0);
    MetIsAhead(p, d, t, 1);
    MetIsAhead(p, d, t, 2);
  }

  lemma BoundaryIsReached(p: Triangle, d: Point, t: real)
    requires StrictlyInside(p, p.white) && IsDistance(p, d, t) && EdgeInRange(p, d)
    requires Inside(p, Along(p.white, t, d))
    ensures OnBoundary(p, Along(p.white, t, d))
  {
    var i :| 0 <= i < 3 && Ahead(Side(p, i, p.white), Turn(p, i, d));
    var j := NearestIsMet(p, d, t, i);
  }

  lemma EndInside(p: Triangle, d: Point, t: real)
    requires StrictlyInside(p, p.white) && IsDistance(p, d, t)
    ensures 0.0 <= t <= FLT_MAX && Inside(p, Along(p.white, t, d))
  {
    DistanceNotNegative(p, d, t);
    SideKept(p, d, t, t, 0);
    SideKept(p, d, t, t, 1);
    SideKept(p, d, t, t, 2);
  }

  /** At full scaling the new primary is on the boundary exactly if some edge line is in range. */
  lemma BoundaryAtFullScaling(p: Triangle, d: Point, t: real)
    requires StrictlyInside(p, p.white) && IsDistance(p, d, t)
    ensures OnBoundary(p, Along(p.white, t, d)) <==> EdgeInRange(p, d)
  {
    EndInside(p, d, t);
    if EdgeInRange(p, d) {
      BoundaryIsReached(p, d, t);
    } else if OnBoundary(p, Along(p.white, t, d)) {
      BoundaryIsMet(p, d, t);
    }
  }

  // ---------------------------------------------------------------- an edge is always ahead

  /** Twice the signed area. */
  function Area(p: Triangle): real {
    Cross(Minus(p.primaries[1], p.primaries[0]), Minus(p.primaries[2], p.primaries[0]))
  }

  /** The sides of any point add up to the area. */
  lemma SidesAddUp(p: Triangle, x: Point)
    ensures Side(p, 0, x) + Side(p, 1, x) + Side(p, 2, x) == Area(p)
  {
  }

  lemma TurnsCancel(p: Triangle, d: Point)
    ensures Turn(p, 0, d) + Turn(p, 1, d) + Turn(p, 2, d) == 0.0
  {
  }

  /** Two vectors along d != 0 span no area. */
  lemma Parallel(u: Point, v: Point, d: Point)
    requires Cross(u, d) == 0.0 && Cross(v, d) == 0.0 && d != Point(0.0, 0.0)
    ensures Cross(u, v) == 0.0
  {
    var c := Cross(u, v);
    assert u.x * d.y == u.y * d.x && v.x * d.y == v.y * d.x;
    assert d.x * c == 0.0 by {
      assert d.x * c == u.x * (v.y * d.x) - (u.y * d.x) * v.x;
    }
    assert d.y * c == 0.0 by {
      assert d.y * c == (u.x * d.y) * v.y - u.y * (v.x * d.y);
    }
  }

  lemma SomeTurn(p: Triangle, d: Point)
    requires Area(p) != 0.0 && d != Point(0.0, 0.0)
    ensures Turn(p, 0, d) != 0.0 || Turn(p, 1, d) != 0.0 || Turn(p, 2, d) != 0.0
  {
    if Turn(p, 0, d) == 0.0 && Turn(p, 2, d) == 0.0 {
      var u, v := Minus(p.primaries[1], p.primaries[0]), Minus(p.primaries[2], p.primaries[0]);
      assert Cross(v, d) == 0.0 - Turn(p, 2, d);
      Parallel(u, v, d);
      assert false;
    }
  }

  /** A point of the triangle is a weighted mean of the corners. */
  lemma Barycentric(p: Triangle, x: Point)
    ensures Area(p) * x.x == Side(p, 1, x) * p.primaries[0].x + Side(p, 2, x) * p.primaries[1].x + Side(p, 0, x) * p.primaries[2].x
    ensures Area(p) * x.y == Side(p, 1, x) * p.primaries[0].y + Side(p, 2, x) * p.primaries[1].y + Side(p, 0, x) * p.primaries[2].y
  {
  }

  lemma WeightedAtMost(w: real, w0: real, w1: real, w2: real, a: real, b: real, c: real, x: real, m: real)
    requires w0 >= 0.0 && w1 >= 0.0 && w2 >= 0.0 && w == w0 + w1 + w2 && w > 0.0
    requires a <= m && b <= m && c <= m
    requires w * x == w0 * a + w1 * b + w2 * c
    ensures x <= m
  {
    AtMost(a, m, w0);
    AtMost(b, m, w1);
    AtMost(c, m, w2);
    assert w * m == w0 * m + w1 * m + w2 * m;
    assert w * (x - m) <= 0.0;
    if x > m { Positives(w, x - m); }
  }

  lemma Positives(a: real, b: real)
    requires a > 0.0 && b > 0.0
    ensures a * b > 0.0
  {
  }

  /** A weighted mean lies between the bounds of its values. */
  lemma WeightedMean(w: real, w0: real, w1: real, w2: real, a: real, b: real, c: real, x: real, m: real)
    requires w0 >= 0.0 && w1 >= 0.0 && w2 >= 0.0 && w == w0 + w1 + w2 && w > 0.0
    requires -m <= a <= m && -m <= b <= m && -m <= c <= m
    requires w * x == w0 * a + w1 * b + w2 * c
    ensures -m <= x <= m
  {
    WeightedAtMost(w, w0, w1, w2, a, b, c, x, m);
    Negated(w, x);
    Negated(w0, a);
    Negated(w1, b);
    Negated(w2, c);
    WeightedAtMost(w, w0, w1, w2, -a, -b, -c, -x, m);
  }

  lemma Negated(a: real, b: real)
    ensures a * (-b) == -(a * b) && (-a) * b == -(a * b)
  {
  }

  predicate Bounded(x: Point, m: real) { -m <= x.x <= m && -m <= x.y <= m }

  predicate AllBounded(p: Triangle, m: real) {
    Bounded(p.primaries[0], m) && Bounded(p.primaries[1], m) && Bounded(p.primaries[2], m)
  }

  /** The same with weights of either sign. */
  lemma MeanBetween(w: real, w0: real, w1: real, w2: real, a: real, b: real, c: real, x: real, m: real)
    requires w != 0.0 && w == w0 + w1 + w2
    requires (w0 >= 0.0 && w1 >= 0.0 && w2 >= 0.0) || (w0 <= 0.0 && w1 <= 0.0 && w2 <= 0.0)
    requires -m <= a <= m && -m <= b <= m && -m <= c <= m
    requires w * x == w0 * a + w1 * b + w2 * c
    ensures -m <= x <= m
  {
    if w > 0.0 {
      WeightedMean(w, w0, w1, w2, a, b, c, x, m);
    } else {
      Negated(w, x);
      Negated(w0, a);
      Negated(w1, b);
      Negated(w2, c);
      WeightedMean(-w, -w0, -w1, -w2, a, b, c, x, m);
    }
  }

  lemma InsideIsBounded(p: Triangle, x: Point, m: real)
    requires Area(p) != 0.0 && Inside(p, x) && AllBounded(p, m)
    ensures Bounded(x, m)
  {
    InsideX(p, x, m);
    InsideY(p, x, m);
  }

  lemma InsideX(p: Triangle, x: Point, m: real)
    requires Area(p) != 0.0 && Inside(p, x) && AllBounded(p, m)
    ensures -m <= x.x <= m
  {
    var w, w0, w1, w2 := Weights(p, x);
    MeanBetween(w, w0, w1, w2, p.primaries[0].x, p.primaries[1].x, p.primaries[2].x, x.x, m);
  }

  lemma InsideY(p: Triangle, x: Point, m: real)
    requires Area(p) != 0.0 && Inside(p, x) && AllBounded(p, m)
    ensures -m <= x.y <= m
  {
    var w, w0, w1, w2 := Weights(p, x);
    MeanBetween(w, w0, w1, w2, p.primaries[0].y, p.primaries[1].y, p.primaries[2].y, x.y, m);
  }

  /** The weights of the corners in a point of the triangle. */
  lemma Weights(p: Triangle, x: Point) returns (w: real, w0: real, w1: real, w2: real)
    requires Area(p) != 0.0 && Inside(p, x)
    ensures w != 0.0 && w == w0 + w1 + w2
    ensures (w0 >= 0.0 && w1 >= 0.0 && w2 >= 0.0) || (w0 <= 0.0 && w1 <= 0.0 && w2 <= 0.0)
    ensures w * x.x == w0 * p.primaries[0].x + w1 * p.primaries[1].x + w2 * p.primaries[2].x
    ensures w * x.y == w0 * p.primaries[0].y + w1 * p.primaries[1].y + w2 * p.primaries[2].y
  {
    Barycentric(p, x);
    SidesAddUp(p, x);
    w, w0, w1, w2 := Area(p), Side(p, 1, x), Side(p, 2, x), Side(p, 0, x);
  }

  /** Does the ray approach the line? */
  predicate Facing(a: real, b: real) { (a > 0.0 && b < 0.0) || (a < 0.0 && b > 0.0) }

  predicate Faces(p: Triangle, d: Point, i: nat)
    requires i < 3
  {
    Facing(Side(p, i, p.white), Turn(p, i, d))
  }

  lemma StrictArea(p: Triangle)
    requires StrictlyInside(p, p.white)
    ensures Area(p) != 0.0
  {
    SidesAddUp(p, p.white);
  }

  lemma SomeFaces(p: Triangle, d: Point)
    requires StrictlyInside(p, p.white) && d != Point(0.0, 0.0)
    ensures Faces(p, d, 0) || Faces(p, d, 1) || Faces(p, d, 2)
  {
    StrictArea(p);
    SomeTurn(p, d);
    TurnsCancel(p, d);
  }

  /** The multiple of d at which line i is met. */
  function Meets(p: Triangle, d: Point, i: nat): real
    requires i < 3 && Turn(p, i, d) != 0.0
  {
    Side(p, i, p.white) / (0.0 - Turn(p, i, d))
  }

  /** The first line that is met. */
  lemma Nearest(p: Triangle, d: Point) returns (i: nat)
    requires StrictlyInside(p, p.white) && d != Point(0.0, 0.0)
    ensures i < 3 && Faces(p, d, i)
    ensures forall j :: 0 <= j < 3 && Faces(p, d, j) ==> Meets(p, d, i) <= Meets(p, d, j)
  {
    SomeFaces(p, d);
    i := if Faces(p, d, 0) then 0 else if Faces(p, d, 1) then 1 else 2;
    if Faces(p, d, 1) && Meets(p, d, 1) < Meets(p, d, i) { i := 1; }
    if Faces(p, d, 2) && Meets(p, d, 2) < Meets(p, d, i) { i := 2; }
  }

  /** A side keeps its sign up to the meeting point, and for ever if the line is not approached. */
  lemma SignKept(a: real, b: real, t: real)
    requires a != 0.0 && t >= 0.0
    requires Facing(a, b) ==> t <= a / (0.0 - b)
    ensures (a > 0.0 ==> a + t * b >= 0.0) && (a < 0.0 ==> a + t * b <= 0.0)
  {
    if Facing(a, b) {
      var c := 0.0 - b;
      var q := a / c;
      assert q * c == a;
      assert t * b == 0.0 - t * c;
      if a > 0.0 { AtMost(t, q, c); } else { Negated(t, c); Negated(q, c); AtMost(t, q, 0.0 - c); }
    } else if a > 0.0 {
      assert t * b >= 0.0;
    } else {
      Negated(t, b);
      assert t * (-b) >= 0.0;
    }
  }

  lemma SideSignKept(p: Triangle, d: Point, t: real, j: nat)
    requires j < 3 && t >= 0.0 && Side(p, j, p.white) != 0.0
    requires Faces(p, d, j) ==> t <= Meets(p, d, j)
    ensures Side(p, j, p.white) > 0.0 ==> Side(p, j, Along(p.white, t, d)) >= 0.0
    ensures Side(p, j, p.white) < 0.0 ==> Side(p, j, Along(p.white, t, d)) <= 0.0
  {
    var a, b, x := RayNumbers(p, d, t, j);
    SignKept(a, b, t);
  }

  lemma RayNumbers(p: Triangle, d: Point, u: real, i: nat) returns (a: real, b: real, x: real)
    requires i < 3
    ensures a == Side(p, i, p.white) && x == Side(p, i, Along(p.white, u, d)) && x == a + u * b
    ensures Faces(p, d, i) <==> Facing(a, b)
    ensures Faces(p, d, i) ==> Meets(p, d, i) == a / (0.0 - b)
  {
    SideAlong(p, i, u, d);
    a, b, x := Side(p, i, p.white), Turn(p, i, d), Side(p, i, Along(p.white, u, d));
  }

  lemma FacingMeetsAhead(a: real, b: real)
    requires Facing(a, b)
    ensures a / (0.0 - b) > 0.0
  {
    var c := 0.0 - b;
    var q := a / c;
    assert q * c == a;
    if q <= 0.0 {
      Negated(q, c);
      if c > 0.0 {
        NotNegatives(-q, c);
      } else {
        Negated(q, -c);
        NotNegatives(-q, -c);
      }
    }
  }

  lemma NotNegatives(a: real, b: real)
    requires a >= 0.0 && b >= 0.0
    ensures a * b >= 0.0
  {
  }

  /** Where the ray leaves the triangle it is still inside. */
  lemma ExitInside(p: Triangle, d: Point, i: nat)
    requires StrictlyInside(p, p.white) && i < 3 && Faces(p, d, i)
    requires forall j :: 0 <= j < 3 && Faces(p, d, j) ==> Meets(p, d, i) <= Meets(p, d, j)
    ensures Meets(p, d, i) >= 0.0 && Inside(p, Along(p.white, Meets(p, d, i), d))
  {
    FacingMeetsAhead(Side(p, i, p.white), Turn(p, i, d));
    var t := Meets(p, d, i);
    SideSignKept(p, d, t, 0);
    SideSignKept(p, d, t, 1);
    SideSignKept(p, d, t, 2);
  }

  lemma StrictIsInside(p: Triangle, x: Point)
    requires StrictlyInside(p, x)
    ensures Inside(p, x)
  {
  }

  /** A step whose larger component is at least one half, between bounded points. */
  lemma StepBound(w: Point, d: Point, t: real, m: real)
    requires Bounded(w, m) && Bounded(Along(w, t, d), m) && t >= 0.0
    requires d.x >= 0.5 || d.x <= -0.5 || d.y >= 0.5 || d.y <= -0.5
    ensures t <= 4.0 * m
  {
    if d.x >= 0.5 { ComponentBound(w.x, d.x, t, m); }
    else if d.x <= -0.5 { Negated(t, d.x); ComponentBound(-w.x, -d.x, t, m); }
    else if d.y >= 0.5 { ComponentBound(w.y, d.y, t, m); }
    else { Negated(t, d.y); ComponentBound(-w.y, -d.y, t, m); }
  }

  lemma ComponentBound(w: real, c: real, t: real, m: real)
    requires -m <= w <= m && t * c + w <= m && t >= 0.0 && c >= 0.5
    ensures t <= 4.0 * m
  {
    NotNegatives(t, c - 0.5);
    assert t * (c - 0.5) == t * c - t * 0.5;
  }

  lemma UnitComponent(d: Point)
    requires d.x * d.x + d.y * d.y == 1.0
    ensures d.x >= 0.5 || d.x <= -0.5 || d.y >= 0.5 || d.y <= -0.5
  {
    if -0.5 < d.x < 0.5 && -0.5 < d.y < 0.5 {
      SmallSquare(d.x);
      SmallSquare(d.y);
    }
  }

  lemma SmallSquare(x: real)
    requires -0.5 < x < 0.5
    ensures x * x < 0.5
  {
    assert (0.5 - x) * (0.5 + x) > 0.0;
    assert (0.5 - x) * (0.5 + x) == 0.25 - x * x;
  }

  /** With a unit direction and coordinates of ordinary size the range of the numbers is no limit. */
  lemma UnitDirectionInRange(p: Triangle, d: Point)
    requires StrictlyInside(p, p.white) && AllBounded(p, FLT_MAX / 4.0)
    requires d.x * d.x + d.y * d.y == 1.0
    ensures EdgeInRange(p, d)
  {
    var m := FLT_MAX / 4.0;
    UnitComponent(d);
    var i := Nearest(p, d);
    ExitInside(p, d, i);
    var t := Meets(p, d, i);
    StrictArea(p);
    StrictIsInside(p, p.white);
    InsideIsBounded(p, p.white, m);
    InsideIsBounded(p, Along(p.white, t, d), m);
    StepBound(p.white, d, t, m);
    assert Ahead(Side(p, i, p.white), Turn(p, i, d));
  }

  // ---------------------------------------------------------------- the operation

  /** xy is the distance found, scaled, away from the white point. */
  ghost predicate Placed(p: Triangle, scaling: real, d: Point, xy: Point) {
    exists t :: IsDistance(p, d, t) && xy == Along(p.white, scaling * t, d)
  }

  lemma PlacedInside(p: Triangle, scaling: real, d: Point, xy: Point)
    requires Placed(p, scaling, d, xy) && StrictlyInside(p, p.white) && 0.0 <= scaling <= 1.0
    ensures Inside(p, xy)
  {
    var t :| IsDistance(p, d, t) && xy == Along(p.white, scaling * t, d);
    StaysInside(p, d, t, scaling);
  }

  lemma PlacedOnBoundary(p: Triangle, d: Point, xy: Point)
    requires Placed(p, 1.0, d, xy) && StrictlyInside(p, p.white)
    ensures OnBoundary(p, xy) <==> EdgeInRange(p, d)
  {
    var t :| IsDistance(p, d, t) && xy == Along(p.white, 1.0 * t, d);
    FullScaling(p, t, d);
    BoundaryAtFullScaling(p, d, t);
  }

  lemma FullScaling(p: Triangle, t: real, d: Point)
    ensures Along(p.white, 1.0 * t, d) == Along(p.white, t, d)
  {
    var u := 1.0 * t;
    assert u == t;
  }

  /** dt_rotate_and_scale_primary, given the direction of the rotated primary. */
  method RotateAndScalePrimary(p: Triangle, scaling: real, d: Point) returns (xy: Point)
    ensures Placed(p, scaling, d, xy)
    ensures StrictlyInside(p, p.white) && 0.0 <= scaling <= 1.0 ==> Inside(p, xy)
    ensures StrictlyInside(p, p.white) && scaling == 1.0 ==> (OnBoundary(p, xy) <==> EdgeInRange(p, d))
  {
    xy := Place(p, scaling, d);
    if StrictlyInside(p, p.white) {
      if 0.0 <= scaling <= 1.0 { PlacedInside(p, scaling, d, xy); }
      if scaling == 1.0 { PlacedOnBoundary(p, d, xy); }
    }
  }

  method Place(p: Triangle, scaling: real, d: Point) returns (xy: Point)
    ensures Placed(p, scaling, d, xy)
  {
    var t := FindDistanceToEdge(p, d);
    xy := Along(p.white, scaling * t, d);
  }

  // ---------------------------------------------------------------- no rotation

  /** A corner lies on its two edges and across from the third. */
  lemma CornerSides(p: Triangle, k: nat)
    requires k < 3
    ensures Side(p, k, p.primaries[k]) == 0.0
    ensures Inside(p, p.primaries[k])
  {
    var x := p.primaries[k];
    SidesAddUp(p, x);
    if k == 0 {
      assert Side(p, 0, x) == 0.0 && Side(p, 2, x) == 0.0;
    } else if k == 1 {
      assert Side(p, 1, x) == 0.0 && Side(p, 0, x) == 0.0;
    } else {
      assert Side(p, 2, x) == 0.0 && Side(p, 1, x) == 0.0;
    }
  }

  /** With a direct line to corner k, nothing is met before the corner. */
  lemma NothingBefore(p: Triangle, d: Point, k: nat, r: real, j: nat)
    requires StrictlyInside(p, p.white) && k < 3 && j < 3 && 0.0 < r <= FLT_MAX
    requires Along(p.white, r, d) == p.primaries[k]
    ensures r <= EdgeDistance(p, d, j)
  {
    CornerSides(p, k);
    var a, b, x := EdgeNumbers(p, d, r, j);
    SameOrientation(p, p.white, p.primaries[k], j);
    NotBefore(a, b, r);
  }

  /** A side that has not changed its sign at r was not met before. */
  lemma NotBefore(a: real, b: real, r: real)
    requires a != 0.0 && 0.0 < r <= FLT_MAX
    requires (a > 0.0 ==> a + r * b >= 0.0) && (a < 0.0 ==> a + r * b <= 0.0)
    ensures r <= Hit(a, b)
  {
    if b != 0.0 && 0.0 <= a / (0.0 - b) < r {
      var c := 0.0 - b;
      var q := a / c;
      assert q * c == a;
      assert r * b == 0.0 - r * c;
      if c > 0.0 {
        Positives(r - q, c);
        NotNegatives(q, c);
        assert (r - q) * c == r * c - q * c;
      } else {
        Positives(r - q, b);
        NotNegatives(q, b);
        assert (r - q) * b == r * b - q * b;
        assert q * b == 0.0 - q * c;
      }
    }
  }

  /** Points of one triangle lie on the same sides. */
  lemma SameOrientation(p: Triangle, w: Point, x: Point, j: nat)
    requires StrictlyInside(p, w) && Inside(p, x) && j < 3
    ensures Side(p, j, w) > 0.0 ==> Side(p, j, x) >= 0.0
    ensures Side(p, j, w) < 0.0 ==> Side(p, j, x) <= 0.0
  {
    SidesAddUp(p, w);
    SidesAddUp(p, x);
  }

  /** Without rotation the distance found is the distance to the primary itself. */
  lemma UnrotatedDistance(p: Triangle, d: Point, k: nat, r: real, t: real)
    requires StrictlyInside(p, p.white) && k < 3 && 0.0 < r <= FLT_MAX
    requires Along(p.white, r, d) == p.primaries[k] && IsDistance(p, d, t)
    ensures t == r
  {
    NothingBefore(p, d, k, r, 0);
    NothingBefore(p, d, k, r, 1);
    NothingBefore(p, d, k, r, 2);
    CornerSides(p, k);
    SideZero(p, d, r, k);
    EdgeIsHit(p, d, k);
  }

  /** So scaling 1 leaves the primary where it is. */
  lemma UnrotatedStays(p: Triangle, d: Point, k: nat, r: real, t: real)
    requires StrictlyInside(p, p.white) && k < 3 && 0.0 < r <= FLT_MAX
    requires Along(p.white, r, d) == p.primaries[k] && IsDistance(p, d, t)
    ensures Along(p.white, 1.0 * t, d) == p.primaries[k]
  {
    UnrotatedDistance(p, d, k, r, t);
  }

  /** And scaling alone moves it proportionally towards the white point. */
  lemma UnrotatedScaling(p: Triangle, d: Point, k: nat, r: real, t: real, scaling: real)
    requires StrictlyInside(p, p.white) && k < 3 && 0.0 < r <= FLT_MAX
    requires Along(p.white, r, d) == p.primaries[k] && IsDistance(p, d, t)
    ensures Along(p.white, scaling * t, d) == Along(p.white, scaling, Minus(p.primaries[k], p.white))
  {
    UnrotatedDistance(p, d, k, r, t);
    ScaledRay(p.white, t, d, p.primaries[k], scaling);
  }

  lemma ScaledRay(w: Point, r: real, d: Point, q: Point, scaling: real)
    requires Along(w, r, d) == q
    ensures Along(w, scaling * r, d) == Along(w, scaling, Minus(q, w))
  {
    var m := Minus(q, w);
    assert m.x == r * d.x && m.y == r * d.y;
    ScaledComponent(r, d.x, scaling, m.x);
    ScaledComponent(r, d.y, scaling, m.y);
  }

  lemma ScaledComponent(r: real, c: real, scaling: real, m: real)
    requires m == r * c
    ensures (scaling * r) * c == scaling * m
  {
  }
}
