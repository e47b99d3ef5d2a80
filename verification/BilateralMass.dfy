/** Conservation: the splatted grid holds exactly 100 / sigma_s^2 per pixel, whatever the image. */
module BilateralMass {
  import opened Numeric
  import opened Sums
  import opened BilateralGeometry
  import opened BilateralSplat
  import opened BilateralGrid
  import opened BilateralFormula

  type Field = (int, int, int) -> real

  /** Sum of a field over all grid points. */
  function GridTotal(g: Geometry, f: Field): real {
    Sum(g.sizeY, y => Plane(g, f, y))
  }

  function Plane(g: Geometry, f: Field, y: int): real {
    Sum(g.sizeX, x => Line(g, f, y, x))
  }

  function Line(g: Geometry, f: Field, y: int, x: int): real {
    Sum(g.sizeZ, z => f(y, x, z))
  }

  ghost predicate IsSum(g: Geometry, f: Field, h: Field, s: Field) {
    forall y, x, z :: s(y, x, z) == f(y, x, z) + h(y, x, z)
  }

  lemma GridTotalAdd(g: Geometry, f: Field, h: Field, s: Field)
    requires IsSum(g, f, h, s)
    ensures GridTotal(g, s) == GridTotal(g, f) + GridTotal(g, h)
  {
    forall y ensures Plane(g, s, y) == Plane(g, f, y) + Plane(g, h, y) {
      forall x ensures Line(g, s, y, x) == Line(g, f, y, x) + Line(g, h, y, x) {
        SumAdd(g.sizeZ, z => f(y, x, z), z => h(y, x, z), z => s(y, x, z));
      }
      SumAdd(g.sizeX, x => Line(g, f, y, x), x => Line(g, h, y, x), x => Line(g, s, y, x));
    }
    SumAdd(g.sizeY, y => Plane(g, f, y), y => Plane(g, h, y), y => Plane(g, s, y));
  }

  /** Only grid points count. */
  lemma GridTotalEqual(g: Geometry, f: Field, h: Field)
    requires forall y, x, z :: InBuffer(g, g.sizeY, y, x, z) ==> f(y, x, z) == h(y, x, z)
    ensures GridTotal(g, f) == GridTotal(g, h)
  {
    forall y | 0 <= y < g.sizeY ensures Plane(g, f, y) == Plane(g, h, y) {
      forall x | 0 <= x < g.sizeX ensures Line(g, f, y, x) == Line(g, h, y, x) {
        assert forall z :: 0 <= z < g.sizeZ ==> InBuffer(g, g.sizeY, y, x, z);
        SumEqual(g.sizeZ, z => f(y, x, z), z => h(y, x, z));
      }
      SumEqual(g.sizeX, x => Line(g, f, y, x), x => Line(g, h, y, x));
    }
    SumEqual(g.sizeY, y => Plane(g, f, y), y => Plane(g, h, y));
  }

  lemma GridTotalZero(g: Geometry, f: Field)
    requires forall y, x, z :: f(y, x, z) == 0.0
    ensures GridTotal(g, f) == 0.0
  {
    forall y ensures Plane(g, f, y) == 0.0 {
      forall x ensures Line(g, f, y, x) == 0.0 {
        SumZero(g.sizeZ, z => f(y, x, z));
      }
      SumZero(g.sizeX, x => Line(g, f, y, x));
    }
    SumZero(g.sizeY, y => Plane(g, f, y));
  }

  function HatAt(x: real, size: int, k: int): real
    requires size >= 2
  {
    Hat(Onto(x, size) - k as real)
  }

  /** Linear splatting loses nothing: the tent weights of a coordinate sum to one. */
  lemma HatPrefix(x: real, size: int, n: int)
    requires size >= 2 && 0 <= n <= size
    ensures Sum(n, HatLine(x, size)) ==
            if n <= Lower(x, size) then 0.0 else if n == Lower(x, size) + 1 then 1.0 - Fraction(x, size) else 1.0
    decreases n
  {
    if n > 0 {
      HatPrefix(x, size, n - 1);
      HatAtGridPoint(x, size, n - 1);
    }
  }

  lemma LineProduct(g: Geometry, k: real, d: int -> real, f: Field, y: int, x: int)
    requires Sum(g.sizeZ, d) == 1.0 && forall z :: f(y, x, z) == k * d(z)
    ensures Line(g, f, y, x) == k
  {
    SumScale(g.sizeZ, k, d, z => f(y, x, z));
  }

  lemma PlaneProduct(g: Geometry, k: real, a: int -> real, f: Field, y: int)
    requires Sum(g.sizeX, a) == 1.0 && forall x :: Line(g, f, y, x) == k * a(x)
    ensures Plane(g, f, y) == k
  {
    SumScale(g.sizeX, k, a, x => Line(g, f, y, x));
  }

  lemma Reorder(a: real, b: real, c: real)
    ensures a * b * c == (c * b) * a
  {}

  lemma ProductPlane(g: Geometry, c: real, a: int -> real, b: int -> real, d: int -> real, f: Field, y: int)
    requires forall y, x, z :: f(y, x, z) == a(x) * b(y) * c * d(z)
    requires Sum(g.sizeX, a) == 1.0 && Sum(g.sizeZ, d) == 1.0
    ensures Plane(g, f, y) == c * b(y)
  {
    var k := c * b(y);
    forall x ensures Line(g, f, y, x) == k * a(x) {
      LineProduct(g, a(x) * b(y) * c, d, f, y, x);
      Reorder(a(x), b(y), c);
    }
    PlaneProduct(g, k, a, f, y);
  }

  /** A field that is the product of one factor per axis. */
  lemma ProductTotal(g: Geometry, c: real, a: int -> real, b: int -> real, d: int -> real, f: Field)
    requires forall y, x, z :: f(y, x, z) == a(x) * b(y) * c * d(z)
    requires Sum(g.sizeX, a) == 1.0 && Sum(g.sizeY, b) == 1.0 && Sum(g.sizeZ, d) == 1.0
    ensures GridTotal(g, f) == c
  {
    forall y ensures Plane(g, f, y) == c * b(y) {
      ProductPlane(g, c, a, b, d, f, y);
    }
    SumScale(g.sizeY, c, b, y => Plane(g, f, y));
  }

  function PixelField(g: Geometry, f: Kernel, img: seq<real>, j: int, i: int): Field
    requires g.Sizes()
  {
    (y, x, z) => Weight(g, f, img, j, i, y, x, z)
  }

  function RowField(g: Geometry, f: Kernel, img: seq<real>, j: int, n: int): Field
    requires g.Sizes()
  {
    (y, x, z) => RowSum(g, f, img, j, n, y, x, z)
  }

  function RowsField(g: Geometry, f: Kernel, img: seq<real>, n: int): Field
    requires g.Sizes()
  {
    (y, x, z) => RowsSum(g, f, img, 0, n, y, x, z)
  }

  lemma PixelTotal(g: Geometry, m: real, img: seq<real>, j: int, i: int)
    requires g.Sizes()
    ensures GridTotal(g, PixelField(g, Scaled(m), img, j, i)) == m
  {
    var xs, ys, l := Steps(g, i), Steps(g, j), Range(g, img, j, i);
    TentTotal(g, m, xs, ys, l, PixelField(g, Scaled(m), img, j, i));
  }

  function HatLine(x: real, size: int): int -> real
    requires size >= 2
  {
    k => HatAt(x, size, k)
  }

  lemma HatsSumToOne(x: real, size: int)
    requires size >= 2
    ensures Sum(size, HatLine(x, size)) == 1.0
  {
    HatPrefix(x, size, size);
  }

  lemma TentIsProduct(g: Geometry, m: real, xs: real, ys: real, l: real, y: int, x: int, z: int)
    requires g.Sizes()
    ensures Tent(g, Scaled(m), xs, ys, l, y, x, z)
            == HatAt(xs, g.sizeX, x) * HatAt(ys, g.sizeY, y) * m * HatAt(l, g.sizeZ, z)
  {
    ScaledIs(m, HatAt(xs, g.sizeX, x), HatAt(ys, g.sizeY, y), HatAt(l, g.sizeZ, z));
  }

  lemma ScaledIs(m: real, a: real, b: real, c: real)
    ensures Scaled(m)(a, b, c) == a * b * m * c
  {}

  lemma TentTotal(g: Geometry, m: real, xs: real, ys: real, l: real, f: Field)
    requires g.Sizes() && forall y, x, z :: f(y, x, z) == Tent(g, Scaled(m), xs, ys, l, y, x, z)
    ensures GridTotal(g, f) == m
  {
    var a, b, d := HatLine(xs, g.sizeX), HatLine(ys, g.sizeY), HatLine(l, g.sizeZ);
    forall y, x, z ensures f(y, x, z) == a(x) * b(y) * m * d(z) {
      TentIsProduct(g, m, xs, ys, l, y, x, z);
    }
    HatsSumToOne(xs, g.sizeX);
    HatsSumToOne(ys, g.sizeY);
    HatsSumToOne(l, g.sizeZ);
    ProductTotal(g, m, a, b, d, f);
  }

  /** m added up n times. */
  function Times(n: int, m: real): real
    decreases n
  {
    if n <= 0 then 0.0 else Times(n - 1, m) + m
  }

  lemma TimesIsProduct(n: nat, m: real)
    ensures Times(n, m) == n as real * m
  {
    if n > 0 {
      TimesIsProduct(n - 1, m);
      var k := (n - 1) as real;
      assert n as real == k + 1.0;
      assert (k + 1.0) * m == k * m + m;
    }
  }

  lemma TimesTwice(h: nat, w: nat, m: real)
    ensures Times(h, Times(w, m)) == h as real * (w as real * m)
  {
    var t := Times(w, m);
    TimesIsProduct(w, m);
    TimesIsProduct(h, t);
  }

  lemma RowTotal(g: Geometry, f: Kernel, img: seq<real>, j: int, n: nat, m: real)
    requires g.Sizes() && forall i :: GridTotal(g, PixelField(g, f, img, j, i)) == m
    ensures GridTotal(g, RowField(g, f, img, j, n)) == Times(n, m)
  {
    if n == 0 {
      GridTotalZero(g, RowField(g, f, img, j, n));
    } else {
      RowTotal(g, f, img, j, n - 1, m);
      GridTotalAdd(g, RowField(g, f, img, j, n - 1), PixelField(g, f, img, j, n - 1), RowField(g, f, img, j, n));
    }
  }

  lemma RowsTotal(g: Geometry, f: Kernel, img: seq<real>, n: nat, m: real)
    requires g.Sizes() && forall j :: GridTotal(g, RowField(g, f, img, j, g.width)) == m
    ensures GridTotal(g, RowsField(g, f, img, n)) == Times(n, m)
  {
    if n == 0 {
      GridTotalZero(g, RowsField(g, f, img, n));
    } else {
      RowsTotal(g, f, img, n - 1, m);
      GridTotalAdd(g, RowsField(g, f, img, n - 1), RowField(g, f, img, n - 1, g.width), RowsField(g, f, img, n));
    }
  }

  lemma ScaledRowTotal(g: Geometry, m: real, img: seq<real>, j: int)
    requires g.Sizes() && g.width >= 0
    ensures GridTotal(g, RowField(g, Scaled(m), img, j, g.width)) == Times(g.width, m)
  {
    forall i ensures GridTotal(g, PixelField(g, Scaled(m), img, j, i)) == m {
      PixelTotal(g, m, img, j, i);
    }
    RowTotal(g, Scaled(m), img, j, g.width, m);
  }

  lemma ScaledTotal(g: Geometry, m: real, img: seq<real>)
    requires g.Sizes() && g.width >= 0 && g.height >= 0
    ensures GridTotal(g, RowsField(g, Scaled(m), img, g.height)) == Times(g.height, Times(g.width, m))
  {
    forall j ensures GridTotal(g, RowField(g, Scaled(m), img, j, g.width)) == Times(g.width, m) {
      ScaledRowTotal(g, m, img, j);
    }
    RowsTotal(g, Scaled(m), img, g.height, Times(g.width, m));
  }

  /** The whole direct splat as a field. */
  function DirectField(g: Geometry, img: seq<real>): Field
    requires g.Sizes() && g.sigmaS > 0.0
  {
    RowsField(g, Payload(g), img, g.height)
  }

  lemma DirectFieldIsDirect(g: Geometry, img: seq<real>, y: int, x: int, z: int)
    requires g.Sizes() && g.sigmaS > 0.0
    ensures DirectField(g, img)(y, x, z) == Direct(g, img, y, x, z)
  {}

  lemma MassOf(g: Geometry, img: seq<real>, m: real)
    requires g.Sizes() && g.width >= 0 && g.height >= 0
    ensures GridTotal(g, RowsField(g, Scaled(m), img, g.height)) == g.height as real * (g.width as real * m)
  {
    var h: nat, w: nat := g.height, g.width;
    calc {
      GridTotal(g, RowsField(g, Scaled(m), img, g.height));
      { ScaledTotal(g, m, img); }
      Times(h, Times(w, m));
      { TimesTwice(h, w, m); }
      h as real * (w as real * m);
    }
  }

  lemma DirectTotal(g: Geometry, img: seq<real>, m: real)
    requires g.Sizes() && g.sigmaS > 0.0 && g.width >= 0 && g.height >= 0 && Payload(g) == Scaled(m)
    ensures GridTotal(g, DirectField(g, img)) == g.height as real * (g.width as real * m)
  {
    MassOf(g, img, m);
  }

  /** Total grid mass is width * height * m, where m = 100 / sigma_s^2, for every image. */
  lemma MassIsConserved(g: Geometry, img: seq<real>, m: real)
    requires g.Sizes() && g.sigmaS > 0.0 && g.width >= 0 && g.height >= 0
    requires m == PixelMass(g)
    ensures GridTotal(g, DirectField(g, img)) == g.height as real * (g.width as real * m)
  {
    DirectTotal(g, img, m);
  }

  /** A buffer as a field over the grid points. */
  function BufferField(g: Geometry, b: seq<real>): Field {
    (y, x, z) => if InBuffer(g, g.sizeY, y, x, z) && 0 <= At(g, y, x, z) < |b| then b[At(g, y, x, z)] else 0.0
  }

  lemma BufferMass(g: Geometry, img: seq<real>, b: seq<real>, m: real)
    requires g.Sizes() && g.sigmaS > 0.0 && g.width >= 0 && g.height >= 0 && m == PixelMass(g)
    requires forall y, x, z :: InBuffer(g, g.sizeY, y, x, z) ==> BufferField(g, b)(y, x, z) == DirectField(g, img)(y, x, z)
    ensures GridTotal(g, BufferField(g, b)) == Times(g.height, Times(g.width, m))
  {
    GridTotalEqual(g, BufferField(g, b), DirectField(g, img));
    ScaledTotal(g, m, img);
  }

  lemma ValueInBuffer(grid: Grid, y: int, x: int, z: int)
    requires grid.Valid() && InBuffer(grid.g, grid.g.sizeY, y, x, z)
    ensures BufferField(grid.g, grid.buf[..])(y, x, z) == grid.Value(y, x, z)
  {
    EnoughRows(grid.g);
    AtInRange(grid.g, Idx(grid.g.sliceRows, grid.g.slices, 0), y, x, z);
  }

  /** What `Grid.Splat` promises. */
  ghost predicate HoldsSplat(grid: Grid, img: seq<real>)
    requires grid.Valid()
    reads grid.buf
  {
    forall y, x, z :: InBuffer(grid.g, grid.g.sizeY, y, x, z) ==> grid.Value(y, x, z) == Direct(grid.g, img, y, x, z)
  }

  lemma SplatField(grid: Grid, img: seq<real>)
    requires grid.Valid() && HoldsSplat(grid, img)
    ensures forall y, x, z :: InBuffer(grid.g, grid.g.sizeY, y, x, z) ==>
              BufferField(grid.g, grid.buf[..])(y, x, z) == DirectField(grid.g, img)(y, x, z)
  {
    forall y, x, z | InBuffer(grid.g, grid.g.sizeY, y, x, z)
      ensures BufferField(grid.g, grid.buf[..])(y, x, z) == DirectField(grid.g, img)(y, x, z)
    {
      ValueInBuffer(grid, y, x, z);
      DirectFieldIsDirect(grid.g, img, y, x, z);
    }
  }

  /** So the buffer that the splat leaves holds in its grid rows the mass m = 100 / sigma_s^2 once per pixel. */
  lemma SplatMass(grid: Grid, img: seq<real>, m: real)
    requires grid.Valid() && HoldsSplat(grid, img) && m == PixelMass(grid.g)
    ensures GridTotal(grid.g, BufferField(grid.g, grid.buf[..])) == Times(grid.g.height, Times(grid.g.width, m))
  {
    SplatField(grid, img);
    BufferMass(grid.g, img, grid.buf[..], m);
  }
}
