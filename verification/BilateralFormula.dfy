/**
  The direct splat in closed form: every pixel has mass 100 / sigma_s^2, shared out by three triangles
  around its column and row over sigma_s and its lightness over sigma_r.
 */
module BilateralFormula {
  import opened Numeric
  import opened Sums
  import opened BilateralGeometry
  import opened BilateralSplat

  function Triangle(t: real): real { MaxReal(0.0, 1.0 - if t < 0.0 then -t else t) }

  /** v kept within 0 .. last. */
  function Within(v: real, last: int): real { MaxReal(0.0, MinReal(v, last as real)) }

  function Channel(img: seq<real>, k: int): real { if 0 <= k < |img| then img[k] else 0.0 }

  /** Grid coordinates of pixel (j, i): its lightness is the first of four channels. */
  function PixelX(g: Geometry, i: int): real
    requires g.sigmaS != 0.0
  {
    Within(i as real / g.sigmaS, g.sizeX - 1)
  }

  function PixelY(g: Geometry, j: int): real
    requires g.sigmaS != 0.0
  {
    Within(j as real / g.sigmaS, g.sizeY - 1)
  }

  function PixelZ(g: Geometry, img: seq<real>, j: int, i: int): real
    requires g.sigmaR != 0.0
  {
    Within(Channel(img, 4 * (j * g.width + i)) / g.sigmaR, g.sizeZ - 1)
  }

  /** What a pixel of mass m gives to grid point (x, y, z). */
  function PixelShare(g: Geometry, img: seq<real>, m: real, j: int, i: int, y: int, x: int, z: int): real
    requires g.sigmaS != 0.0 && g.sigmaR != 0.0
  {
    Triangle(PixelX(g, i) - x as real) * Triangle(PixelY(g, j) - y as real) * m * Triangle(PixelZ(g, img, j, i) - z as real)
  }

  function RowShare(g: Geometry, img: seq<real>, m: real, j: int, y: int, x: int, z: int): real
    requires g.sigmaS != 0.0 && g.sigmaR != 0.0
  {
    Sum(g.width, i => PixelShare(g, img, m, j, i, y, x, z))
  }

  /** The sum over all rows and columns of the image. */
  function Formula(g: Geometry, img: seq<real>, m: real, y: int, x: int, z: int): real
    requires g.sigmaS != 0.0 && g.sigmaR != 0.0
  {
    Sum(g.height, j => RowShare(g, img, m, j, y, x, z))
  }

  /** The sigmas and their reciprocals belong together. */
  predicate Reciprocals(g: Geometry) {
    g.sigmaS > 0.0 && g.sigmaR > 0.0 && g.sigmaS * g.invS == 1.0 && g.sigmaR * g.invR == 1.0
  }

  lemma InitReciprocals(width: int, height: int, sigmaS: real, sigmaR: real, threads: int)
    requires width >= 1 && height >= 1 && sigmaS > 0.0 && sigmaR > 0.0 && threads >= 1
    ensures Reciprocals(Init(width, height, sigmaS, sigmaR, threads))
  {
    SpatialSigmaPositive(width, height, sigmaS);
    var z := RangeSteps(sigmaR) as real;
    ExactQuotient(L_RANGE, z);
    Reciprocal(SpatialSigma(width, height, sigmaS));
    Reciprocal(L_RANGE / z);
  }

  // ---------------------------------------------------------------- pixel by pixel

  lemma Over(v: real, s: real, inv: real)
    requires s > 0.0 && s * inv == 1.0
    ensures v / s == v * inv
  {
    var q := v / s;
    DivReal(v, s);
    assert q * (s * inv) == (q * s) * inv;
  }

  lemma HatIsTriangle(v: real, size: int, k: int)
    requires size >= 2
    ensures Hat(Onto(v, size) - k as real) == Triangle(Within(v, size - 1) - k as real)
  {}

  lemma StepsAre(g: Geometry, img: seq<real>, j: int, i: int)
    requires Reciprocals(g)
    ensures Steps(g, i) == i as real / g.sigmaS && Steps(g, j) == j as real / g.sigmaS
    ensures Range(g, img, j, i) == Channel(img, 4 * (j * g.width + i)) / g.sigmaR
  {
    Over(i as real, g.sigmaS, g.invS);
    Over(j as real, g.sigmaS, g.invS);
    Over(Lightness(g, img, j, i), g.sigmaR, g.invR);
  }

  /** The three tents of a pixel. */
  lemma PixelHats(g: Geometry, img: seq<real>, j: int, i: int, y: int, x: int, z: int) returns (a: real, b: real, c: real)
    requires g.Sizes() && Reciprocals(g)
    ensures a == Triangle(PixelX(g, i) - x as real) && a == Hat(Onto(Steps(g, i), g.sizeX) - x as real)
    ensures b == Triangle(PixelY(g, j) - y as real) && b == Hat(Onto(Steps(g, j), g.sizeY) - y as real)
    ensures c == Triangle(PixelZ(g, img, j, i) - z as real) && c == Hat(Onto(Range(g, img, j, i), g.sizeZ) - z as real)
  {
    StepsAre(g, img, j, i);
    a := SameHat(Steps(g, i), i as real / g.sigmaS, g.sizeX, x);
    b := SameHat(Steps(g, j), j as real / g.sigmaS, g.sizeY, y);
    c := SameHat(Range(g, img, j, i), Channel(img, 4 * (j * g.width + i)) / g.sigmaR, g.sizeZ, z);
  }

  lemma SameHat(v: real, u: real, size: int, k: int) returns (a: real)
    requires size >= 2 && v == u
    ensures a == Hat(Onto(v, size) - k as real) && a == Triangle(Within(u, size - 1) - k as real)
  {
    a := Hat(Onto(v, size) - k as real);
    HatIsTriangle(v, size, k);
  }

  lemma WeightIsShare(g: Geometry, img: seq<real>, m: real, j: int, i: int, y: int, x: int, z: int)
    requires g.Sizes() && Reciprocals(g)
    ensures Weight(g, Scaled(m), img, j, i, y, x, z) == PixelShare(g, img, m, j, i, y, x, z)
  {
    var a, b, c := PixelHats(g, img, j, i, y, x, z);
    var w := TentOf(g, m, Steps(g, i), Steps(g, j), Range(g, img, j, i), y, x, z, a, b, c);
    ShareOf(g, img, m, j, i, y, x, z, a, b, c, w);
  }

  lemma TentOf(g: Geometry, m: real, xs: real, ys: real, l: real, y: int, x: int, z: int, a: real, b: real, c: real) returns (w: real)
    requires g.Sizes() && a == Hat(Onto(xs, g.sizeX) - x as real) && b == Hat(Onto(ys, g.sizeY) - y as real)
    requires c == Hat(Onto(l, g.sizeZ) - z as real)
    ensures w == a * b * m * c && Tent(g, Scaled(m), xs, ys, l, y, x, z) == w
  {
    w := Scaled(m)(a, b, c);
    ScaledAt(m, a, b, c);
  }

  lemma ShareOf(g: Geometry, img: seq<real>, m: real, j: int, i: int, y: int, x: int, z: int, a: real, b: real, c: real, w: real)
    requires g.sigmaS != 0.0 && g.sigmaR != 0.0 && w == a * b * m * c
    requires a == Triangle(PixelX(g, i) - x as real) && b == Triangle(PixelY(g, j) - y as real)
    requires c == Triangle(PixelZ(g, img, j, i) - z as real)
    ensures PixelShare(g, img, m, j, i, y, x, z) == w
  {}

  lemma ScaledAt(m: real, a: real, b: real, c: real)
    ensures Scaled(m)(a, b, c) == a * b * m * c
  {}

  lemma {:induction false} RowSumIs(g: Geometry, img: seq<real>, m: real, j: int, n: nat, y: int, x: int, z: int)
    requires g.Sizes() && Reciprocals(g)
    ensures RowSum(g, Scaled(m), img, j, n, y, x, z) == Sum(n, i => PixelShare(g, img, m, j, i, y, x, z))
    decreases n
  {
    if n > 0 {
      RowSumIs(g, img, m, j, n - 1, y, x, z);
      WeightIsShare(g, img, m, j, n - 1, y, x, z);
    }
  }

  lemma {:induction false} RowsSumIs(g: Geometry, img: seq<real>, m: real, n: nat, y: int, x: int, z: int)
    requires g.Sizes() && Reciprocals(g) && g.width >= 0
    ensures RowsSum(g, Scaled(m), img, 0, n, y, x, z) == Sum(n, j => RowShare(g, img, m, j, y, x, z))
    decreases n
  {
    if n > 0 {
      RowsSumIs(g, img, m, n - 1, y, x, z);
      RowSumIs(g, img, m, n - 1, g.width, y, x, z);
    }
  }

  lemma MassIs(g: Geometry, m: real)
    requires g.sigmaS > 0.0 && IsPixelMass(g, m)
    ensures PixelMass(g) == m
  {
    var q := g.sigmaS * g.sigmaS;
    SquarePositive(g.sigmaS);
    QuotientIs(100.0, q, m);
  }

  lemma QuotientIs(a: real, b: real, q: real)
    requires b > 0.0 && q * b == a
    ensures a / b == q
  {
    DivReal(a, b);
    CancelReal(a / b, q, b);
    CancelReal(q, a / b, b);
  }

  /** The direct splat in closed form, for m = 100 / sigma_s^2. */
  lemma DirectIsFormula(g: Geometry, img: seq<real>, m: real, y: int, x: int, z: int)
    requires g.Sizes() && Reciprocals(g) && g.width >= 0 && g.height >= 0 && IsPixelMass(g, m)
    ensures Direct(g, img, y, x, z) == Formula(g, img, m, y, x, z)
  {
    MassIs(g, m);
    RowsSumIs(g, img, m, g.height, y, x, z);
  }

  /** m is 100 / sigma_s^2. */
  predicate IsPixelMass(g: Geometry, m: real) { m * (g.sigmaS * g.sigmaS) == 100.0 }

  lemma DirectIsClosed(g: Geometry, img: seq<real>)
    requires g.Sizes() && Reciprocals(g) && g.width >= 0 && g.height >= 0
    ensures forall m, y, x, z :: IsPixelMass(g, m) ==> Direct(g, img, y, x, z) == Formula(g, img, m, y, x, z)
  {
    forall m, y, x, z | IsPixelMass(g, m) ensures Direct(g, img, y, x, z) == Formula(g, img, m, y, x, z) {
      DirectIsFormula(g, img, m, y, x, z);
    }
  }
}
