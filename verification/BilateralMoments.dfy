/**
  Where the mass of the splat ends up: its moments in every combination of the three grid coordinates are
  those of the pixels, each pixel counted at its own column, row and lightness.
 */
module BilateralMoments {
  import opened Sums
  import opened BilateralGeometry
  import opened BilateralSplat
  import opened BilateralFormula
  import opened BilateralGrid
  import opened BilateralMass

  /** The coordinate itself, or one. */
  function Power(on: bool, k: int): real { if on then k as real else 1.0 }

  function PowerOf(on: bool, v: real): real { if on then v else 1.0 }

  /** A field weighted by the chosen coordinates. */
  function Weighted(px: bool, py: bool, pz: bool, f: Field): Field {
    (y, x, z) => Weigh(px, py, pz, y, x, z, f(y, x, z))
  }

  function Weigh(px: bool, py: bool, pz: bool, y: int, x: int, z: int, v: real): real {
    Power(px, x) * Power(py, y) * Power(pz, z) * v
  }

  // ---------------------------------------------------------------- one axis

  /** The weight of grid point k times its coordinate. */
  function WeightedHat(on: bool, v: real, size: int): int -> real
    requires size >= 2
  {
    k => Power(on, k) * HatAt(v, size, k)
  }

  /** Grid point k as a summand of the centre. */
  lemma CentrePart(v: real, size: int, k: int)
    requires size >= 2
    ensures WeightedHat(true, v, size)(k) ==
            var c, f := Lower(v, size), Fraction(v, size);
            if k == c then c as real * (1.0 - f) else if k == c + 1 then (c + 1) as real * f else 0.0
  {
    HatAtGridPoint(v, size, k);
    var w := HatAt(v, size, k);
    assert WeightedHat(true, v, size)(k) == k as real * w;
  }

  lemma CentreSum(c: real, f: real)
    ensures c * (1.0 - f) + (c + 1.0) * f == c + f
  {}

  lemma {:induction false} CentrePrefix(v: real, size: int, n: int)
    requires size >= 2 && 0 <= n <= size
    ensures var c, f := Lower(v, size), Fraction(v, size);
            Sum(n, WeightedHat(true, v, size)) ==
            if n <= c then 0.0 else if n == c + 1 then c as real * (1.0 - f) else c as real + f
    decreases n
  {
    if n > 0 {
      CentrePrefix(v, size, n - 1);
      CentrePart(v, size, n - 1);
      CentreSum(Lower(v, size) as real, Fraction(v, size));
    }
  }

  lemma PlainHat(v: real, size: int, k: int)
    requires size >= 2
    ensures WeightedHat(false, v, size)(k) == HatLine(v, size)(k)
  {
    var w := HatAt(v, size, k);
    assert WeightedHat(false, v, size)(k) == 1.0 * w;
  }

  /** The weights of a coordinate have that coordinate as their centre. */
  lemma HatCentre(on: bool, v: real, size: int)
    requires size >= 2
    ensures Sum(size, WeightedHat(on, v, size)) == PowerOf(on, Onto(v, size))
  {
    if on {
      CentrePrefix(v, size, size);
    } else {
      forall k ensures WeightedHat(false, v, size)(k) == HatLine(v, size)(k) { PlainHat(v, size, k); }
      SumEqual(size, WeightedHat(false, v, size), HatLine(v, size));
      HatsSumToOne(v, size);
    }
  }

  // ---------------------------------------------------------------- products

  /** Additive in every argument. */
  ghost predicate Trilinear(f: Kernel) {
    && Vanishing(f)
    && (forall a, a', b, c :: f(a + a', b, c) == f(a, b, c) + f(a', b, c))
    && (forall a, b, b', c :: f(a, b + b', c) == f(a, b, c) + f(a, b', c))
    && (forall a, b, c, c' :: f(a, b, c + c') == f(a, b, c) + f(a, b, c'))
  }

  lemma ScaledTrilinear(m: real)
    ensures Trilinear(Scaled(m))
  {
    ScaledVanishes(m);
    forall a, a', b, c ensures Scaled(m)(a + a', b, c) == Scaled(m)(a, b, c) + Scaled(m)(a', b, c) { Additive(a, a', b * m * c); }
    forall a, b, b', c ensures Scaled(m)(a, b + b', c) == Scaled(m)(a, b, c) + Scaled(m)(a, b', c) { Additive(b, b', a * m * c); }
    forall a, b, c, c' ensures Scaled(m)(a, b, c + c') == Scaled(m)(a, b, c) + Scaled(m)(a, b, c') { Additive(c, c', a * b * m); }
  }

  lemma Additive(a: real, b: real, k: real)
    ensures (a + b) * k == a * k + b * k
  {}

  lemma {:induction false} SumX(f: Kernel, n: nat, a: int -> real, b: real, c: real, s: int -> real)
    requires Trilinear(f) && forall k :: s(k) == f(a(k), b, c)
    ensures Sum(n, s) == f(Sum(n, a), b, c)
    decreases n
  {
    if n > 0 { SumX(f, n - 1, a, b, c, s); }
  }

  lemma {:induction false} SumY(f: Kernel, n: nat, a: real, b: int -> real, c: real, s: int -> real)
    requires Trilinear(f) && forall k :: s(k) == f(a, b(k), c)
    ensures Sum(n, s) == f(a, Sum(n, b), c)
    decreases n
  {
    if n > 0 { SumY(f, n - 1, a, b, c, s); }
  }

  lemma {:induction false} SumZ(f: Kernel, n: nat, a: real, b: real, c: int -> real, s: int -> real)
    requires Trilinear(f) && forall k :: s(k) == f(a, b, c(k))
    ensures Sum(n, s) == f(a, b, Sum(n, c))
    decreases n
  {
    if n > 0 { SumZ(f, n - 1, a, b, c, s); }
  }

  /** The total of a field that combines one factor per axis. */
  lemma KernelTotal(g: Geometry, f: Kernel, a: int -> real, b: int -> real, d: int -> real, h: Field)
    requires g.Sizes() && Trilinear(f) && forall y, x, z :: h(y, x, z) == f(a(x), b(y), d(z))
    ensures GridTotal(g, h) == f(Sum(g.sizeX, a), Sum(g.sizeY, b), Sum(g.sizeZ, d))
  {
    forall y ensures Plane(g, h, y) == f(Sum(g.sizeX, a), b(y), Sum(g.sizeZ, d)) {
      forall x ensures Line(g, h, y, x) == f(a(x), b(y), Sum(g.sizeZ, d)) {
        SumZ(f, g.sizeZ, a(x), b(y), d, z => h(y, x, z));
      }
      SumX(f, g.sizeX, a, b(y), Sum(g.sizeZ, d), x => Line(g, h, y, x));
    }
    SumY(f, g.sizeY, Sum(g.sizeX, a), b, Sum(g.sizeZ, d), y => Plane(g, h, y));
  }

  // ---------------------------------------------------------------- one pixel

  lemma Factors(m: real, p: real, q: real, r: real, a: real, b: real, c: real, u: real, v: real, w: real, t: real)
    requires u == p * a && v == q * b && w == r * c && t == a * b * m * c
    ensures p * q * r * t == Scaled(m)(u, v, w)
  {
    ScaledAt(m, u, v, w);
    Regroup(p, q, r, a, b, m, c);
  }

  lemma Regroup(p: real, q: real, r: real, a: real, b: real, m: real, c: real)
    ensures p * q * r * (a * b * m * c) == (p * a) * (q * b) * m * (r * c)
  {}

  lemma WeightedHatIs(on: bool, v: real, size: int, k: int) returns (p: real, a: real, u: real)
    requires size >= 2
    ensures p == Power(on, k) && a == HatAt(v, size, k) && u == WeightedHat(on, v, size)(k) && u == p * a
  {
    p, a, u := Power(on, k), HatAt(v, size, k), WeightedHat(on, v, size)(k);
  }

  lemma WeightedTent(g: Geometry, m: real, xs: real, ys: real, l: real, px: bool, py: bool, pz: bool, f: Field, y: int, x: int, z: int)
    requires g.Sizes() && f(y, x, z) == Tent(g, Scaled(m), xs, ys, l, y, x, z)
    ensures Weighted(px, py, pz, f)(y, x, z)
         == Scaled(m)(WeightedHat(px, xs, g.sizeX)(x), WeightedHat(py, ys, g.sizeY)(y), WeightedHat(pz, l, g.sizeZ)(z))
  {
    var t := WeighedTent(g, m, xs, ys, l, px, py, pz, y, x, z);
  }

  lemma WeighedTent(g: Geometry, m: real, xs: real, ys: real, l: real, px: bool, py: bool, pz: bool, y: int, x: int, z: int)
    returns (t: real)
    requires g.Sizes()
    ensures t == Tent(g, Scaled(m), xs, ys, l, y, x, z)
    ensures Weigh(px, py, pz, y, x, z, t)
         == Scaled(m)(WeightedHat(px, xs, g.sizeX)(x), WeightedHat(py, ys, g.sizeY)(y), WeightedHat(pz, l, g.sizeZ)(z))
  {
    var p, a, u := WeightedHatIs(px, xs, g.sizeX, x);
    var q, b, v := WeightedHatIs(py, ys, g.sizeY, y);
    var r, c, w := WeightedHatIs(pz, l, g.sizeZ, z);
    t := TentOf(g, m, xs, ys, l, y, x, z, a, b, c);
    Factors(m, p, q, r, a, b, c, u, v, w, t);
    WeighAs(px, py, pz, y, x, z, p, q, r, t);
  }

  lemma WeighAs(px: bool, py: bool, pz: bool, y: int, x: int, z: int, p: real, q: real, r: real, v: real)
    requires p == Power(px, x) && q == Power(py, y) && r == Power(pz, z)
    ensures Weigh(px, py, pz, y, x, z, v) == p * q * r * v
  {}

  lemma TentMoment(g: Geometry, m: real, xs: real, ys: real, l: real, px: bool, py: bool, pz: bool, f: Field)
    requires g.Sizes() && forall y, x, z :: f(y, x, z) == Tent(g, Scaled(m), xs, ys, l, y, x, z)
    ensures GridTotal(g, Weighted(px, py, pz, f))
         == Scaled(m)(PowerOf(px, Onto(xs, g.sizeX)), PowerOf(py, Onto(ys, g.sizeY)), PowerOf(pz, Onto(l, g.sizeZ)))
  {
    var a, b, d := WeightedHat(px, xs, g.sizeX), WeightedHat(py, ys, g.sizeY), WeightedHat(pz, l, g.sizeZ);
    var w := Weighted(px, py, pz, f);
    forall y, x, z ensures w(y, x, z) == Scaled(m)(a(x), b(y), d(z)) {
      WeightedTent(g, m, xs, ys, l, px, py, pz, f, y, x, z);
    }
    HatCentre(px, xs, g.sizeX);
    HatCentre(py, ys, g.sizeY);
    HatCentre(pz, l, g.sizeZ);
    ScaledTrilinear(m);
    KernelTotal(g, Scaled(m), a, b, d, w);
  }

  /** A pixel of mass m counted at its own coordinates. */
  function PixelMoment(g: Geometry, img: seq<real>, m: real, px: bool, py: bool, pz: bool, j: int, i: int): real
    requires g.sigmaS != 0.0 && g.sigmaR != 0.0
  {
    PowerOf(px, PixelX(g, i)) * PowerOf(py, PixelY(g, j)) * m * PowerOf(pz, PixelZ(g, img, j, i))
  }

  function RowMoment(g: Geometry, img: seq<real>, m: real, px: bool, py: bool, pz: bool, j: int): real
    requires g.sigmaS != 0.0 && g.sigmaR != 0.0
  {
    Sum(g.width, i => PixelMoment(g, img, m, px, py, pz, j, i))
  }

  /** All pixels of the image. */
  function ImageMoment(g: Geometry, img: seq<real>, m: real, px: bool, py: bool, pz: bool): real
    requires g.sigmaS != 0.0 && g.sigmaR != 0.0
  {
    Sum(g.height, j => RowMoment(g, img, m, px, py, pz, j))
  }

  lemma OntoIsWithin(v: real, size: int)
    requires size >= 2
    ensures Onto(v, size) == Within(v, size - 1)
  {}

  lemma PixelCentres(g: Geometry, img: seq<real>, j: int, i: int) returns (a: real, b: real, c: real)
    requires g.Sizes() && Reciprocals(g)
    ensures a == Onto(Steps(g, i), g.sizeX) == PixelX(g, i)
    ensures b == Onto(Steps(g, j), g.sizeY) == PixelY(g, j)
    ensures c == Onto(Range(g, img, j, i), g.sizeZ) == PixelZ(g, img, j, i)
  {
    StepsAre(g, img, j, i);
    OntoIsWithin(Steps(g, i), g.sizeX);
    OntoIsWithin(Steps(g, j), g.sizeY);
    OntoIsWithin(Range(g, img, j, i), g.sizeZ);
    a, b, c := Onto(Steps(g, i), g.sizeX), Onto(Steps(g, j), g.sizeY), Onto(Range(g, img, j, i), g.sizeZ);
  }

  lemma PixelTotals(g: Geometry, img: seq<real>, m: real, px: bool, py: bool, pz: bool, j: int, i: int)
    requires g.Sizes() && Reciprocals(g)
    ensures GridTotal(g, Weighted(px, py, pz, PixelField(g, Scaled(m), img, j, i))) == PixelMoment(g, img, m, px, py, pz, j, i)
  {
    var a, b, c := PixelCentres(g, img, j, i);
    var t := PixelAt(g, img, m, px, py, pz, j, i, a, b, c);
    MomentAt(g, img, m, px, py, pz, j, i, a, b, c, t);
  }

  lemma PixelAt(g: Geometry, img: seq<real>, m: real, px: bool, py: bool, pz: bool, j: int, i: int, a: real, b: real, c: real)
    returns (t: real)
    requires g.Sizes() && a == Onto(Steps(g, i), g.sizeX) && b == Onto(Steps(g, j), g.sizeY) && c == Onto(Range(g, img, j, i), g.sizeZ)
    ensures t == PowerOf(px, a) * PowerOf(py, b) * m * PowerOf(pz, c)
    ensures t == GridTotal(g, Weighted(px, py, pz, PixelField(g, Scaled(m), img, j, i)))
  {
    t := Scaled(m)(PowerOf(px, a), PowerOf(py, b), PowerOf(pz, c));
    ScaledAt(m, PowerOf(px, a), PowerOf(py, b), PowerOf(pz, c));
    TentMoment(g, m, Steps(g, i), Steps(g, j), Range(g, img, j, i), px, py, pz, PixelField(g, Scaled(m), img, j, i));
  }

  lemma MomentAt(g: Geometry, img: seq<real>, m: real, px: bool, py: bool, pz: bool, j: int, i: int, a: real, b: real, c: real, t: real)
    requires g.sigmaS != 0.0 && g.sigmaR != 0.0 && a == PixelX(g, i) && b == PixelY(g, j) && c == PixelZ(g, img, j, i)
    requires t == PowerOf(px, a) * PowerOf(py, b) * m * PowerOf(pz, c)
    ensures PixelMoment(g, img, m, px, py, pz, j, i) == t
  {}

  // ---------------------------------------------------------------- the image

  lemma WeightedAdd(px: bool, py: bool, pz: bool, g: Geometry, f: Field, h: Field, s: Field)
    requires IsSum(g, f, h, s)
    ensures GridTotal(g, Weighted(px, py, pz, s)) == GridTotal(g, Weighted(px, py, pz, f)) + GridTotal(g, Weighted(px, py, pz, h))
  {
    forall y, x, z ensures Weighted(px, py, pz, s)(y, x, z) == Weighted(px, py, pz, f)(y, x, z) + Weighted(px, py, pz, h)(y, x, z) {
      WeighAdd(px, py, pz, y, x, z, f(y, x, z), h(y, x, z));
    }
    GridTotalAdd(g, Weighted(px, py, pz, f), Weighted(px, py, pz, h), Weighted(px, py, pz, s));
  }

  lemma WeighAdd(px: bool, py: bool, pz: bool, y: int, x: int, z: int, a: real, b: real)
    ensures Weigh(px, py, pz, y, x, z, a + b) == Weigh(px, py, pz, y, x, z, a) + Weigh(px, py, pz, y, x, z, b)
  {
    var w := Power(px, x) * Power(py, y) * Power(pz, z);
    assert w * (a + b) == w * a + w * b;
  }

  lemma WeightedEqual(px: bool, py: bool, pz: bool, g: Geometry, f: Field, h: Field)
    requires forall y, x, z :: InBuffer(g, g.sizeY, y, x, z) ==> f(y, x, z) == h(y, x, z)
    ensures GridTotal(g, Weighted(px, py, pz, f)) == GridTotal(g, Weighted(px, py, pz, h))
  {
    GridTotalEqual(g, Weighted(px, py, pz, f), Weighted(px, py, pz, h));
  }

  lemma WeightedZero(px: bool, py: bool, pz: bool, g: Geometry, f: Field)
    requires forall y, x, z :: f(y, x, z) == 0.0
    ensures GridTotal(g, Weighted(px, py, pz, f)) == 0.0
  {
    GridTotalZero(g, Weighted(px, py, pz, f));
  }

  /** Totals that grow by v at every step. */
  lemma {:induction false} SumUp(n: nat, u: int -> real, v: int -> real)
    requires u(0) == 0.0 && forall k :: 0 <= k < n ==> u(k + 1) == u(k) + v(k)
    ensures u(n) == Sum(n, v)
    decreases n
  {
    if n > 0 {
      SumUp(n - 1, u, v);
      assert u(n - 1 + 1) == u(n - 1) + v(n - 1);
    }
  }

  /** The weighted total of a field. */
  function Total(g: Geometry, px: bool, py: bool, pz: bool, f: Field): real { GridTotal(g, Weighted(px, py, pz, f)) }

  lemma RowStep(g: Geometry, img: seq<real>, m: real, px: bool, py: bool, pz: bool, j: int, k: nat)
    requires g.Sizes() && Reciprocals(g)
    ensures Total(g, px, py, pz, RowField(g, Scaled(m), img, j, k + 1))
         == Total(g, px, py, pz, RowField(g, Scaled(m), img, j, k)) + PixelMoment(g, img, m, px, py, pz, j, k)
  {
    PixelTotals(g, img, m, px, py, pz, j, k);
    RowFieldAdds(g, Scaled(m), img, j, k);
    WeightedAdd(px, py, pz, g, RowField(g, Scaled(m), img, j, k), PixelField(g, Scaled(m), img, j, k), RowField(g, Scaled(m), img, j, k + 1));
  }

  lemma RowFieldAdds(g: Geometry, f: Kernel, img: seq<real>, j: int, k: nat)
    requires g.Sizes()
    ensures IsSum(g, RowField(g, f, img, j, k), PixelField(g, f, img, j, k), RowField(g, f, img, j, k + 1))
  {
    forall y, x, z
      ensures RowField(g, f, img, j, k + 1)(y, x, z) == RowField(g, f, img, j, k)(y, x, z) + PixelField(g, f, img, j, k)(y, x, z)
    {
      RowSumNext(g, f, img, j, k, y, x, z);
    }
  }

  lemma RowTotals(g: Geometry, img: seq<real>, m: real, px: bool, py: bool, pz: bool, j: int, n: nat)
    requires g.Sizes() && Reciprocals(g)
    ensures Total(g, px, py, pz, RowField(g, Scaled(m), img, j, n)) == Sum(n, i => PixelMoment(g, img, m, px, py, pz, j, i))
  {
    var u := (k: int) => Total(g, px, py, pz, RowField(g, Scaled(m), img, j, k));
    var v := (i: int) => PixelMoment(g, img, m, px, py, pz, j, i);
    WeightedZero(px, py, pz, g, RowField(g, Scaled(m), img, j, 0));
    forall k | 0 <= k < n ensures u(k + 1) == u(k) + v(k) { RowStep(g, img, m, px, py, pz, j, k); }
    SumUp(n, u, v);
    SumEqual(n, v, i => PixelMoment(g, img, m, px, py, pz, j, i));
  }

  lemma RowsFieldAdds(g: Geometry, f: Kernel, img: seq<real>, k: nat)
    requires g.Sizes()
    ensures IsSum(g, RowsField(g, f, img, k), RowField(g, f, img, k, g.width), RowsField(g, f, img, k + 1))
  {}

  lemma RowsStep(g: Geometry, img: seq<real>, m: real, px: bool, py: bool, pz: bool, k: nat)
    requires g.Sizes() && Reciprocals(g) && g.width >= 0
    ensures Total(g, px, py, pz, RowsField(g, Scaled(m), img, k + 1))
         == Total(g, px, py, pz, RowsField(g, Scaled(m), img, k)) + RowMoment(g, img, m, px, py, pz, k)
  {
    RowTotals(g, img, m, px, py, pz, k, g.width);
    RowsFieldAdds(g, Scaled(m), img, k);
    WeightedAdd(px, py, pz, g, RowsField(g, Scaled(m), img, k), RowField(g, Scaled(m), img, k, g.width), RowsField(g, Scaled(m), img, k + 1));
  }

  lemma RowsTotals(g: Geometry, img: seq<real>, m: real, px: bool, py: bool, pz: bool, n: nat)
    requires g.Sizes() && Reciprocals(g) && g.width >= 0
    ensures Total(g, px, py, pz, RowsField(g, Scaled(m), img, n)) == Sum(n, j => RowMoment(g, img, m, px, py, pz, j))
  {
    var u := (k: int) => Total(g, px, py, pz, RowsField(g, Scaled(m), img, k));
    var v := (j: int) => RowMoment(g, img, m, px, py, pz, j);
    WeightedZero(px, py, pz, g, RowsField(g, Scaled(m), img, 0));
    forall k | 0 <= k < n ensures u(k + 1) == u(k) + v(k) { RowsStep(g, img, m, px, py, pz, k); }
    SumUp(n, u, v);
    SumEqual(n, v, j => RowMoment(g, img, m, px, py, pz, j));
  }

  lemma DirectMoments(g: Geometry, img: seq<real>, m: real, px: bool, py: bool, pz: bool)
    requires g.Sizes() && Reciprocals(g) && g.width >= 0 && g.height >= 0 && IsPixelMass(g, m)
    ensures GridTotal(g, Weighted(px, py, pz, DirectField(g, img))) == ImageMoment(g, img, m, px, py, pz)
  {
    MassIs(g, m);
    RowsTotals(g, img, m, px, py, pz, g.height);
  }

  /**
    After the splat the sums of value, x * value, y * value, z * value and of every product of coordinates
    times value are those of the image, for m = 100 / sigma_s^2.
   */
  lemma SplatMoments(grid: Grid, img: seq<real>, m: real, px: bool, py: bool, pz: bool)
    requires grid.Valid() && HoldsSplat(grid, img) && IsPixelMass(grid.g, m)
    ensures GridTotal(grid.g, Weighted(px, py, pz, BufferField(grid.g, grid.buf[..]))) == ImageMoment(grid.g, img, m, px, py, pz)
  {
    var b, d := BufferField(grid.g, grid.buf[..]), DirectField(grid.g, img);
    SplatField(grid, img);
    WeightedEqual(px, py, pz, grid.g, b, d);
    DirectMoments(grid.g, img, m, px, py, pz);
  }
}
