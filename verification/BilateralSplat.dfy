/**
  dt_bilateral_splat: every thread splats its own horizontal slice of the image into its own rows of
  one shared buffer, and a sequential pass then merges the slices downwards inside that same buffer.
  The reference meaning is one direct splat of the whole image with a trilinear tent kernel.
 */
module BilateralSplat {
  import opened Numeric
  import opened BilateralGeometry

  /** Lightness of pixel (j, i); the input interleaves four channels. */
  function Lightness(g: Geometry, img: seq<real>, j: int, i: int): real {
    var k := 4 * Idx(g.width, j, i);
    if 0 <= k < |img| then img[k] else 0.0
  }

  /** Offset of grid point (x, z) inside row r of the buffer. */
  function At(g: Geometry, r: int, x: int, z: int): int {
    Idx(g.RowCells(), r, Idx(g.sizeZ, x, z))
  }

  predicate InRow(g: Geometry, x: int, z: int) { 0 <= x < g.sizeX && 0 <= z < g.sizeZ }

  /** How a pixel's weights along x, y and z combine; `Payload` is the one the filter uses. */
  type Kernel = (real, real, real) -> real

  ghost predicate Vanishing(f: Kernel) {
    forall a, b :: f(0.0, a, b) == 0.0 && f(a, 0.0, b) == 0.0 && f(a, b, 0.0) == 0.0
  }

  /** A mass m shared out along the three axes. */
  function Scaled(m: real): Kernel { (wx, wy, wz) => wx * wy * m * wz }

  lemma ScaledVanishes(m: real)
    ensures Vanishing(Scaled(m))
  {}

  function PixelMass(g: Geometry): real
    requires g.sigmaS > 0.0
  {
    SquarePositive(g.sigmaS);
    100.0 / (g.sigmaS * g.sigmaS)
  }

  /** The kernel of the filter: every pixel weighs 100 / sigma_s^2. */
  function Payload(g: Geometry): Kernel
    requires g.sigmaS > 0.0
  {
    Scaled(PixelMass(g))
  }

  /** The kernel written the way the contributions are computed. */
  lemma PayloadAsWritten(g: Geometry, wx: real, wy: real, wz: real)
    requires g.sigmaS > 0.0
    ensures g.sigmaS * g.sigmaS > 0.0
    ensures Payload(g)(wx, wy, wz) == wx * wy * 100.0 / (g.sigmaS * g.sigmaS) * wz
  {
    SquarePositive(g.sigmaS);
  }

  /** A pixel coordinate in grid steps. */
  function Steps(g: Geometry, i: int): real { i as real * g.invS }

  /** The lightness of a pixel in grid steps. */
  function Range(g: Geometry, img: seq<real>, j: int, i: int): real { Lightness(g, img, j, i) * g.invR }

  /** What pixel (j, i) contributes to grid point (x, y, z): the kernel applied to three tents. */
  function Weight(g: Geometry, f: Kernel, img: seq<real>, j: int, i: int, y: int, x: int, z: int): real
    requires g.Sizes()
  {
    Tent(g, f, Steps(g, i), Steps(g, j), Range(g, img, j, i), y, x, z)
  }

  function Tent(g: Geometry, f: Kernel, xs: real, ys: real, l: real, y: int, x: int, z: int): real
    requires g.Sizes()
  {
    f(Hat(Onto(xs, g.sizeX) - x as real), Hat(Onto(ys, g.sizeY) - y as real), Hat(Onto(l, g.sizeZ) - z as real))
  }

  /** The first n pixels of image row j. */
  function RowSum(g: Geometry, f: Kernel, img: seq<real>, j: int, n: int, y: int, x: int, z: int): real
    requires g.Sizes()
    decreases n
  {
    if n <= 0 then 0.0 else RowSum(g, f, img, j, n - 1, y, x, z) + Weight(g, f, img, j, n - 1, y, x, z)
  }

  /** Image rows a .. b - 1. */
  function RowsSum(g: Geometry, f: Kernel, img: seq<real>, a: int, b: int, y: int, x: int, z: int): real
    requires g.Sizes()
    decreases b - a
  {
    if b <= a then 0.0
    else RowsSum(g, f, img, a, b - 1, y, x, z) + RowSum(g, f, img, b - 1, g.width, y, x, z)
  }

  /** The direct splat of the whole image. */
  function Direct(g: Geometry, img: seq<real>, y: int, x: int, z: int): real
    requires g.Sizes() && g.sigmaS > 0.0
  {
    RowsSum(g, Payload(g), img, 0, g.height, y, x, z)
  }

  // ---------------------------------------------------------------- addressing

  lemma AtInRange(g: Geometry, rows: int, r: int, x: int, z: int)
    requires g.sizeX >= 1 && g.sizeZ >= 1 && 0 <= r < rows && InRow(g, x, z)
    ensures 0 <= Idx(g.sizeZ, x, z) < g.RowCells()
    ensures 0 <= At(g, r, x, z) < rows * g.RowCells()
  {
    IdxInRange(g.sizeZ, g.sizeX, x, z);
    IdxInRange(g.RowCells(), rows, r, Idx(g.sizeZ, x, z));
  }

  lemma AtInjective(g: Geometry, r: int, x: int, z: int, r': int, x': int, z': int)
    requires InRow(g, x, z) && InRow(g, x', z')
    requires At(g, r, x, z) == At(g, r', x', z')
    ensures r == r' && x == x' && z == z'
  {
    IdxInRange(g.sizeZ, g.sizeX, x, z);
    IdxInRange(g.sizeZ, g.sizeX, x', z');
    IdxInjective(g.RowCells(), r, Idx(g.sizeZ, x, z), r', Idx(g.sizeZ, x', z'));
    IdxInjective(g.sizeZ, x, z, x', z');
  }

  /** The eight corners of a cell are the eight fixed offsets from its first corner. */
  lemma Corner(g: Geometry, r: int, x: int, z: int, dr: int, dx: int, dz: int)
    requires 0 <= dr <= 1 && 0 <= dx <= 1 && 0 <= dz <= 1
    ensures At(g, r + dr, x + dx, z + dz) == At(g, r, x, z) + dr * g.RowCells() + dx * g.sizeZ + dz
  {
    Distribute(r, dr, g.RowCells());
    Distribute(x, dx, g.sizeZ);
  }

  // ---------------------------------------------------------------- one pixel

  /** What the first n rounds of the corner loop add at distance d from the cell's first corner. */
  function Share(offsets: seq<int>, w: seq<real>, n: int, d: int): real
    requires 0 <= n <= 4 && |offsets| == 8 && |w| == 8
    decreases n
  {
    if n == 0 then 0.0
    else Share(offsets, w, n - 1, d)
         + (if d == offsets[n - 1] then w[n - 1] else 0.0)
         + (if d == offsets[n + 3] then w[n + 3] else 0.0)
  }

  method Deposit(buf: array<real>, at: int, offsets: seq<int>, w: seq<real>)
    requires |offsets| == 8 && |w| == 8
    requires forall k :: 0 <= k < 8 ==> 0 <= at + offsets[k] < buf.Length
    modifies buf
    ensures forall p :: 0 <= p < buf.Length ==> buf[p] == old(buf[p]) + Share(offsets, w, 4, p - at)
  {
    assert forall d {:trigger Share(offsets, w, 0, d)} :: Share(offsets, w, 0, d) == 0.0;
    for k := 0 to 4
      invariant forall p :: 0 <= p < buf.Length ==> buf[p] == old(buf[p]) + Share(offsets, w, k, p - at)
    {
      buf[at + offsets[k]] := buf[at + offsets[k]] + w[k];
      buf[at + offsets[k + 4]] := buf[at + offsets[k + 4]] + w[k + 4];
    }
  }

  function Offsets(g: Geometry): (o: seq<int>)
    ensures |o| == 8
  {
    var ox, oy := g.sizeZ, g.RowCells();
    [0, ox, oy, ox + oy, 1, 1 + ox, 1 + oy, 1 + oy + ox]
  }

  /** The weights of the eight corners, in the order of `Offsets`. */
  function CornerWeights(f: Kernel, xf: real, yf: real, zf: real): (w: seq<real>)
    ensures |w| == 8
  {
    [f(1.0 - xf, 1.0 - yf, 1.0 - zf), f(xf, 1.0 - yf, 1.0 - zf), f(1.0 - xf, yf, 1.0 - zf), f(xf, yf, 1.0 - zf),
     f(1.0 - xf, 1.0 - yf, zf), f(xf, 1.0 - yf, zf), f(1.0 - xf, yf, zf), f(xf, yf, zf)]
  }

  lemma CornerIff(g: Geometry, r: int, x: int, z: int, r0: int, x0: int, z0: int, dr: int, dx: int, dz: int)
    requires 0 <= dr <= 1 && 0 <= dx <= 1 && 0 <= dz <= 1
    requires InRow(g, x, z) && 0 <= x0 < g.sizeX - 1 && 0 <= z0 < g.sizeZ - 1
    ensures At(g, r, x, z) - At(g, r0, x0, z0) == Offsets(g)[dx + 2 * dr + 4 * dz]
            <==> r == r0 + dr && x == x0 + dx && z == z0 + dz
  {
    Corner(g, r0, x0, z0, dr, dx, dz);
    if At(g, r, x, z) == At(g, r0 + dr, x0 + dx, z0 + dz) {
      AtInjective(g, r, x, z, r0 + dr, x0 + dx, z0 + dz);
    }
  }

  /** Eight offsets of which at most one matches. */
  lemma SharePick(o: seq<int>, w: seq<real>, d: int, hit: int)
    requires |o| == 8 && |w| == 8
    requires forall k :: 0 <= k < 8 ==> (d == o[k] <==> k == hit)
    ensures Share(o, w, 4, d) == if 0 <= hit < 8 then w[hit] else 0.0
  {
    assert Share(o, w, 1, d) == if hit == 0 then w[0] else if hit == 4 then w[4] else 0.0;
    assert Share(o, w, 2, d) == if 0 <= hit < 2 || 4 <= hit < 6 then w[hit] else 0.0;
    assert Share(o, w, 3, d) == if 0 <= hit < 3 || 4 <= hit < 7 then w[hit] else 0.0;
  }

  /** Which corner of the cell at (r0, x0, z0) a grid point is, or -1. */
  function Which(r: int, x: int, z: int, r0: int, x0: int, z0: int): int {
    if r0 <= r <= r0 + 1 && x0 <= x <= x0 + 1 && z0 <= z <= z0 + 1
    then (x - x0) + 2 * (r - r0) + 4 * (z - z0) else -1
  }

  lemma WhichCorner(g: Geometry, r: int, x: int, z: int, r0: int, x0: int, z0: int)
    requires InRow(g, x, z) && 0 <= x0 < g.sizeX - 1 && 0 <= z0 < g.sizeZ - 1
    ensures forall k :: 0 <= k < 8 ==>
              (At(g, r, x, z) - At(g, r0, x0, z0) == Offsets(g)[k] <==> k == Which(r, x, z, r0, x0, z0))
  {
    CornerIff(g, r, x, z, r0, x0, z0, 0, 0, 0);
    CornerIff(g, r, x, z, r0, x0, z0, 0, 1, 0);
    CornerIff(g, r, x, z, r0, x0, z0, 1, 0, 0);
    CornerIff(g, r, x, z, r0, x0, z0, 1, 1, 0);
    CornerIff(g, r, x, z, r0, x0, z0, 0, 0, 1);
    CornerIff(g, r, x, z, r0, x0, z0, 0, 1, 1);
    CornerIff(g, r, x, z, r0, x0, z0, 1, 0, 1);
    CornerIff(g, r, x, z, r0, x0, z0, 1, 1, 1);
  }

  function Part(k: int, k0: int, f: real): real {
    if k == k0 then 1.0 - f else if k == k0 + 1 then f else 0.0
  }

  lemma PickedWeight(f: Kernel, xf: real, yf: real, zf: real, r: int, x: int, z: int, r0: int, x0: int, z0: int)
    requires Vanishing(f)
    ensures var k := Which(r, x, z, r0, x0, z0);
            (if 0 <= k < 8 then CornerWeights(f, xf, yf, zf)[k] else 0.0)
            == f(Part(x, x0, xf), Part(r, r0, yf), Part(z, z0, zf))
  {}

  /** The eight additions of one pixel, made at buffer row off + y, are its trilinear tent weights. */
  lemma ShareIsTent(g: Geometry, f: Kernel, xs: real, ys: real, l: real, off: int, r: int, x: int, z: int)
    requires g.Sizes() && Vanishing(f) && InRow(g, x, z)
    ensures
      var x0, y0, z0 := Lower(xs, g.sizeX), Lower(ys, g.sizeY), Lower(l, g.sizeZ);
      Share(Offsets(g), CornerWeights(f, Fraction(xs, g.sizeX), Fraction(ys, g.sizeY), Fraction(l, g.sizeZ)), 4,
            At(g, r, x, z) - At(g, off + y0, x0, z0))
      == Tent(g, f, xs, ys, l, r - off, x, z)
  {
    var x0, y0, z0 := Lower(xs, g.sizeX), Lower(ys, g.sizeY), Lower(l, g.sizeZ);
    var xf, yf, zf := Fraction(xs, g.sizeX), Fraction(ys, g.sizeY), Fraction(l, g.sizeZ);
    var r0 := off + y0;
    WhichCorner(g, r, x, z, r0, x0, z0);
    var k := Which(r, x, z, r0, x0, z0);
    SharePick(Offsets(g), CornerWeights(f, xf, yf, zf), At(g, r, x, z) - At(g, r0, x0, z0), k);
    PickedWeight(f, xf, yf, zf, r, x, z, r0, x0, z0);
    HatAtGridPoint(xs, g.sizeX, x);
    HatAtGridPoint(ys, g.sizeY, r - off);
    HatAtGridPoint(l, g.sizeZ, z);
  }

  // ---------------------------------------------------------------- one slice

  lemma CornersInBuffer(g: Geometry, rows: int, r: int, x: int, z: int)
    requires g.sizeX >= 2 && g.sizeZ >= 2
    requires 0 <= r < rows - 1 && 0 <= x < g.sizeX - 1 && 0 <= z < g.sizeZ - 1
    ensures forall k :: 0 <= k < 8 ==> 0 <= At(g, r, x, z) + Offsets(g)[k] < rows * g.RowCells()
  {
    AtInRange(g, rows, r, x, z);
    AtInRange(g, rows, r + 1, x + 1, z + 1);
    Corner(g, r, x, z, 1, 1, 1);
  }

  /** Grid points of a buffer with the given number of rows. */
  predicate InBuffer(g: Geometry, rows: int, r: int, x: int, z: int) { 0 <= r < rows && InRow(g, x, z) }

  ghost predicate Sized(g: Geometry, rows: int, n: int) {
    n == rows * g.RowCells()
    && forall r, x, z :: InBuffer(g, rows, r, x, z) ==> 0 <= At(g, r, x, z) < n
  }

  /** One pixel has been added to b, with grid row 0 at buffer row off. */
  ghost predicate PixelAdded(g: Geometry, f: Kernel, rows: int, b: seq<real>, b': seq<real>, xs: real, ys: real, l: real, off: int)
    requires g.Sizes() && Sized(g, rows, |b|) && |b'| == |b|
  {
    forall r, x, z :: InBuffer(g, rows, r, x, z) ==>
      b'[At(g, r, x, z)] == b[At(g, r, x, z)] + Tent(g, f, xs, ys, l, r - off, x, z)
  }

  method SplatPixel(g: Geometry, f: Kernel, xs: real, ys: real, l: real, buf: array<real>, ghost rows: int, off: int)
    requires g.Sizes() && Vanishing(f)
    requires Sized(g, rows, buf.Length)
    requires 0 <= off + Lower(ys, g.sizeY) < rows - 1
    modifies buf
    ensures PixelAdded(g, f, rows, old(buf[..]), buf[..], xs, ys, l, off)
  {
    var x0, y0, z0 := Lower(xs, g.sizeX), Lower(ys, g.sizeY), Lower(l, g.sizeZ);
    var w := CornerWeights(f, Fraction(xs, g.sizeX), Fraction(ys, g.sizeY), Fraction(l, g.sizeZ));
    var at := At(g, off + y0, x0, z0);
    CornersInBuffer(g, rows, off + y0, x0, z0);
    Deposit(buf, at, Offsets(g), w);
    forall r, x, z | InBuffer(g, rows, r, x, z)
      ensures buf[At(g, r, x, z)] == old(buf[At(g, r, x, z)]) + Tent(g, f, xs, ys, l, r - off, x, z)
    {
      ShareIsTent(g, f, xs, ys, l, off, r, x, z);
    }
  }

  lemma RowSumNext(g: Geometry, f: Kernel, img: seq<real>, j: int, n: int, y: int, x: int, z: int)
    requires g.Sizes() && n >= 0
    ensures RowSum(g, f, img, j, n + 1, y, x, z) == RowSum(g, f, img, j, n, y, x, z)
                                                  + Tent(g, f, Steps(g, n), Steps(g, j), Range(g, img, j, n), y, x, z)
  {
    assert n + 1 - 1 == n;
  }

  /** The first n pixels of image row j have been added to b, with grid row 0 at buffer row off. */
  ghost predicate RowAdded(g: Geometry, f: Kernel, img: seq<real>, rows: int, b: seq<real>, b': seq<real>, j: int, n: int, off: int)
    requires g.Sizes() && Sized(g, rows, |b|) && |b'| == |b|
  {
    forall r, x, z :: InBuffer(g, rows, r, x, z) ==>
      b'[At(g, r, x, z)] == b[At(g, r, x, z)] + RowSum(g, f, img, j, n, r - off, x, z)
  }

  lemma RowAddedNext(g: Geometry, f: Kernel, img: seq<real>, rows: int, b: seq<real>, b': seq<real>, b'': seq<real>, j: int, n: nat, off: int)
    requires g.Sizes() && Sized(g, rows, |b|) && |b'| == |b| && |b''| == |b|
    requires RowAdded(g, f, img, rows, b, b', j, n, off)
    requires PixelAdded(g, f, rows, b', b'', Steps(g, n), Steps(g, j), Range(g, img, j, n), off)
    ensures RowAdded(g, f, img, rows, b, b'', j, n + 1, off)
  {
    forall r, x, z | InBuffer(g, rows, r, x, z)
      ensures b''[At(g, r, x, z)] == b[At(g, r, x, z)] + RowSum(g, f, img, j, n + 1, r - off, x, z)
    {
      RowSumNext(g, f, img, j, n, r - off, x, z);
    }
  }

  method SplatImageRow(g: Geometry, f: Kernel, img: seq<real>, buf: array<real>, ghost rows: int, j: int, off: int)
    requires g.ValidGrid() && Vanishing(f) && Sized(g, rows, buf.Length)
    requires 0 <= off + GridRow(g, j) < rows - 1
    modifies buf
    ensures RowAdded(g, f, img, rows, old(buf[..]), buf[..], j, g.width, off)
  {
    ghost var start := buf[..];
    for i := 0 to g.width
      invariant RowAdded(g, f, img, rows, start, buf[..], j, i, off)
    {
      ghost var before := buf[..];
      var xs, ys, l := Steps(g, i), Steps(g, j), Range(g, img, j, i);
      SplatPixel(g, f, xs, ys, l, buf, rows, off);
      RowAddedNext(g, f, img, rows, start, before, buf[..], j, i, off);
    }
  }

  /** What slice s holds for grid row y. */
  function SliceSum(g: Geometry, f: Kernel, img: seq<real>, s: int, y: int, x: int, z: int): real
    requires g.Sizes()
  {
    RowsSum(g, f, img, FirstImageRow(g, s), LastImageRow(g, s), y, x, z)
  }

  /** Buffer row of grid row 0, were slice s to reach that far up. */
  function SliceOffset(g: Geometry, s: int): int { Idx(g.sliceRows, s, 0) - FirstGridRow(g, s) }

  lemma SliceRowTarget(g: Geometry, s: int, j: int)
    requires g.Valid() && 0 <= s < g.slices && FirstImageRow(g, s) <= j < LastImageRow(g, s)
    ensures 0 <= Idx(g.sliceRows, s, 0) <= SliceOffset(g, s) + GridRow(g, j) < Idx(g.sliceRows, s + 1, 0) - 1
    ensures Idx(g.sliceRows, s + 1, 0) <= Idx(g.sliceRows, g.slices, 0)
  {
    SliceKeepsToItsRows(g, s, j);
    MulMonotone(0, s, g.sliceRows);
    MulMonotone(s + 1, g.slices, g.sliceRows);
    Distribute(s, 1, g.sliceRows);
  }

  /** One iteration of the parallel loop. */
  method SplatSlice(g: Geometry, f: Kernel, img: seq<real>, buf: array<real>, ghost rows: int, s: int)
    requires g.Valid() && Vanishing(f) && Sized(g, rows, buf.Length)
    requires rows == Idx(g.sliceRows, g.slices, 0) && 0 <= s < g.slices
    modifies buf
    ensures forall r, x, z :: InBuffer(g, rows, r, x, z) ==>
              buf[At(g, r, x, z)] == old(buf[At(g, r, x, z)]) + SliceSum(g, f, img, s, r - SliceOffset(g, s), x, z)
  {
    var first, last := FirstImageRow(g, s), LastImageRow(g, s);
    var off := SliceOffset(g, s);
    var j := first;
    while j < last
      invariant first <= j && (j <= last || j == first)
      invariant forall r, x, z :: InBuffer(g, rows, r, x, z) ==>
                  buf[At(g, r, x, z)] == old(buf[At(g, r, x, z)]) + RowsSum(g, f, img, first, j, r - off, x, z)
    {
      SliceRowTarget(g, s, j);
      SplatImageRow(g, f, img, buf, rows, j, off);
      j := j + 1;
    }
  }

  // ---------------------------------------------------------------- race freedom

  lemma RowSumZero(g: Geometry, f: Kernel, img: seq<real>, j: int, n: int, y: int, x: int, z: int)
    requires g.ValidGrid() && Vanishing(f) && (y < GridRow(g, j) || y > GridRow(g, j) + 1)
    ensures RowSum(g, f, img, j, n, y, x, z) == 0.0
    decreases n
  {
    if n > 0 {
      RowSumZero(g, f, img, j, n - 1, y, x, z);
      HatAtGridPoint(j as real * g.invS, g.sizeY, y);
    }
  }

  lemma RowsSumZero(g: Geometry, f: Kernel, img: seq<real>, a: int, b: int, y: int, x: int, z: int)
    requires g.ValidGrid() && Vanishing(f)
    requires forall j :: a <= j < b ==> y < GridRow(g, j) || y > GridRow(g, j) + 1
    ensures RowsSum(g, f, img, a, b, y, x, z) == 0.0
    decreases b - a
  {
    if a < b {
      RowsSumZero(g, f, img, a, b - 1, y, x, z);
      RowSumZero(g, f, img, b - 1, g.width, y, x, z);
    }
  }

  /** A slice contributes nothing outside its own rows, so concurrent slices never touch the same cell. */
  lemma SliceIsConfined(g: Geometry, f: Kernel, img: seq<real>, s: int, y: int, x: int, z: int)
    requires g.Valid() && Vanishing(f) && 0 <= s
    requires y < FirstGridRow(g, s) || y >= FirstGridRow(g, s) + g.sliceRows
    ensures SliceSum(g, f, img, s, y, x, z) == 0.0
  {
    forall j | FirstImageRow(g, s) <= j < LastImageRow(g, s)
      ensures y < GridRow(g, j) || y > GridRow(g, j) + 1
    {
      SliceKeepsToItsRows(g, s, j);
    }
    RowsSumZero(g, f, img, FirstImageRow(g, s), LastImageRow(g, s), y, x, z);
  }

  lemma SlicesCover(g: Geometry, s: int)
    requires g.Valid() && 0 <= s <= g.slices
    ensures 0 <= FirstImageRow(g, s)
    ensures Min(FirstImageRow(g, s + 1), g.height) == Max(LastImageRow(g, s), Min(FirstImageRow(g, s), g.height))
    ensures FirstImageRow(g, g.slices) >= g.height
  {
    SliceSpan(g);
    MulMonotone(0, s, g.sliceHeight);
    Distribute(s, 1, g.sliceHeight);
    CeilDiv(g.height, g.slices);
  }

  lemma RowsSumSplit(g: Geometry, f: Kernel, img: seq<real>, a: int, b: int, c: int, y: int, x: int, z: int)
    requires g.Sizes() && a <= b <= c
    ensures RowsSum(g, f, img, a, c, y, x, z) == RowsSum(g, f, img, a, b, y, x, z) + RowsSum(g, f, img, b, c, y, x, z)
    decreases c - b
  {
    if b < c {
      RowsSumSplit(g, f, img, a, b, c - 1, y, x, z);
    }
  }

  /** Everything the slices before s contribute to grid row y. */
  function Before(g: Geometry, f: Kernel, img: seq<real>, s: int, y: int, x: int, z: int): real
    requires g.Sizes()
  {
    RowsSum(g, f, img, 0, Min(FirstImageRow(g, s), g.height), y, x, z)
  }

  lemma BeforeNext(g: Geometry, f: Kernel, img: seq<real>, s: int, y: int, x: int, z: int)
    requires g.Valid() && 0 <= s < g.slices
    ensures Before(g, f, img, s + 1, y, x, z) == Before(g, f, img, s, y, x, z) + SliceSum(g, f, img, s, y, x, z)
  {
    SlicesCover(g, s);
    var a, b := Min(FirstImageRow(g, s), g.height), LastImageRow(g, s);
    if a <= b {
      RowsSumSplit(g, f, img, 0, a, b, y, x, z);
    }
  }

  lemma BeforeFirst(g: Geometry, f: Kernel, img: seq<real>, y: int, x: int, z: int)
    requires g.Valid()
    ensures Before(g, f, img, 0, y, x, z) == 0.0
    ensures Before(g, f, img, g.slices, y, x, z) == RowsSum(g, f, img, 0, g.height, y, x, z)
  {
    SlicesCover(g, 0);
  }

  // ---------------------------------------------------------------- merge

  /** dest row += src row, then optionally clear src (the row loop of the merge). */
  method MergeRow(buf: array<real>, n: int, ghost rows: int, dest: int, src: int, clear: bool)
    requires n >= 0 && buf.Length == rows * n
    requires forall r, c :: 0 <= r < rows && 0 <= c < n ==> 0 <= Idx(n, r, c) < buf.Length
    requires 0 <= dest <= src < rows
    modifies buf
    ensures forall r, c :: 0 <= r < rows && 0 <= c < n ==>
              buf[Idx(n, r, c)] ==
              if clear && r == src then 0.0
              else if r == dest then old(buf[Idx(n, dest, c)]) + old(buf[Idx(n, src, c)])
              else old(buf[Idx(n, r, c)])
  {
    for i := 0 to n
      invariant forall r, c :: 0 <= r < rows && 0 <= c < n ==>
                  buf[Idx(n, r, c)] ==
                  if r == dest && c < i then old(buf[Idx(n, dest, c)]) + old(buf[Idx(n, src, c)])
                  else old(buf[Idx(n, r, c)])
    {
      OnlyAt(n, rows, dest, i);
      buf[Idx(n, dest, i)] := buf[Idx(n, dest, i)] + buf[Idx(n, src, i)];
    }
    if clear {
      label Merged:
      for i := 0 to n
        invariant forall r, c :: 0 <= r < rows && 0 <= c < n ==>
                    buf[Idx(n, r, c)] == if r == src && c < i then 0.0 else old@Merged(buf[Idx(n, r, c)])
      {
        OnlyAt(n, rows, src, i);
        buf[Idx(n, src, i)] := 0.0;
      }
    }
  }

  lemma OnlyAt(n: int, rows: int, r0: int, c0: int)
    requires 0 <= c0 < n
    ensures forall r, c :: 0 <= r < rows && 0 <= c < n && Idx(n, r, c) == Idx(n, r0, c0) ==> r == r0 && c == c0
  {
    forall r, c | 0 <= r < rows && 0 <= c < n && Idx(n, r, c) == Idx(n, r0, c0)
      ensures r == r0 && c == c0
    {
      IdxInjective(n, r, c, r0, c0);
    }
  }

  /** The two things `MergeLayout` establishes for every later slice. */
  ghost predicate Layout(g: Geometry) {
    forall s :: 1 <= s < g.slices ==>
      && 0 <= FirstGridRow(g, s) <= Idx(g.sliceRows, s, 0)
      && (FirstGridRow(g, s) == Idx(g.sliceRows, s, 0) ==> FirstImageRow(g, s) >= g.height)
  }

  /** The slices before s never reach buffer row y >= s * slicerows: clearing it loses nothing. */
  lemma NothingMergedYet(g: Geometry, f: Kernel, img: seq<real>, s: int, y: int, x: int, z: int)
    requires g.Valid() && Vanishing(f) && Layout(g) && 0 <= s <= g.slices && y >= Idx(g.sliceRows, s, 0)
    ensures Before(g, f, img, s, y, x, z) == 0.0
  {
    if s == 0 {
      BeforeFirst(g, f, img, y, x, z);
    } else {
      Distribute(s - 1, 1, g.sliceRows);
      assert FirstGridRow(g, s - 1) <= Idx(g.sliceRows, s - 1, 0);
      NothingMergedYet(g, f, img, s - 1, y, x, z);
      SliceIsConfined(g, f, img, s - 1, y, x, z);
      BeforeNext(g, f, img, s - 1, y, x, z);
    }
  }

  /** Grid row y once the slices before s and the first k rows of slice s have been merged. */
  function Merged(g: Geometry, f: Kernel, img: seq<real>, s: int, k: int, y: int, x: int, z: int): real
    requires g.Sizes()
  {
    Before(g, f, img, s, y, x, z)
    + if FirstGridRow(g, s) <= y < FirstGridRow(g, s) + k then SliceSum(g, f, img, s, y, x, z) else 0.0
  }

  /** Row k' of slice s' has not been read when row k of slice s is the next source row. */
  predicate Unread(g: Geometry, rows: int, s: int, k: int, s': int, k': int) {
    s <= s' < g.slices && 0 <= k' < g.sliceRows && Idx(g.sliceRows, s, k) <= Idx(g.sliceRows, s', k')
  }

  /** What the buffer holds when row k of slice s is the next source row. */
  ghost predicate MergeState(g: Geometry, f: Kernel, img: seq<real>, rows: int, b: seq<real>, s: int, k: int)
    requires g.Sizes()
  {
    && Sized(g, rows, |b|)
    && (forall y, x, z :: InBuffer(g, rows, y, x, z) && y < g.sizeY && y < Idx(g.sliceRows, s, k) ==>
          b[At(g, y, x, z)] == Merged(g, f, img, s, k, y, x, z))
    && (forall s', k', x, z :: Unread(g, rows, s, k, s', k') && InBuffer(g, rows, Idx(g.sliceRows, s', k'), x, z) ==>
          b[At(g, Idx(g.sliceRows, s', k'), x, z)] == SliceSum(g, f, img, s', FirstGridRow(g, s') + k', x, z))
  }

  /** The effect of `MergeRow`, seen through grid coordinates. */
  ghost predicate RowMerged(g: Geometry, rows: int, b: seq<real>, b': seq<real>, dest: int, src: int, clear: bool)
    requires Sized(g, rows, |b|) && |b'| == |b| && 0 <= dest < rows && 0 <= src < rows
  {
    forall r, x, z :: InBuffer(g, rows, r, x, z) ==>
      b'[At(g, r, x, z)] ==
      if clear && r == src then 0.0
      else if r == dest && InBuffer(g, rows, dest, x, z) && InBuffer(g, rows, src, x, z)
        then b[At(g, dest, x, z)] + b[At(g, src, x, z)]
      else b[At(g, r, x, z)]
  }

  /** One source row: nothing unread is overwritten and nothing merged is cleared. */
  lemma MergeStep(g: Geometry, f: Kernel, img: seq<real>, rows: int, b: seq<real>, b': seq<real>, s: int, k: int)
    requires g.Valid() && Vanishing(f) && Layout(g) && 1 <= s < g.slices && 0 <= k < g.sliceRows
    requires MergeState(g, f, img, rows, b, s, k) && |b'| == |b|
    requires 0 <= FirstGridRow(g, s) + k && Idx(g.sliceRows, s, k) < rows
    requires FirstGridRow(g, s) + k <= Idx(g.sliceRows, s, k)
    requires RowMerged(g, rows, b, b', FirstGridRow(g, s) + k, Idx(g.sliceRows, s, k), Idx(g.sliceRows, s, k) < g.sizeY)
    ensures MergeState(g, f, img, rows, b', s, k + 1)
  {
    var src, dest := Idx(g.sliceRows, s, k), FirstGridRow(g, s) + k;
    assert Idx(g.sliceRows, s, k + 1) == src + 1;
    forall y, x, z | InBuffer(g, rows, y, x, z) && y < g.sizeY && y < src + 1
      ensures b'[At(g, y, x, z)] == Merged(g, f, img, s, k + 1, y, x, z)
    {
      if y == src {
        assert y >= Idx(g.sliceRows, s, 0);
        NothingMergedYet(g, f, img, s, y, x, z);
        if dest == src {
          EmptySlice(g, f, img, s, y, x, z);
        }
      } else if y == dest {
        assert b[At(g, src, x, z)] == SliceSum(g, f, img, s, dest, x, z);
      }
    }
    forall s', k', x, z | Unread(g, rows, s, k + 1, s', k') && InBuffer(g, rows, Idx(g.sliceRows, s', k'), x, z)
      ensures b'[At(g, Idx(g.sliceRows, s', k'), x, z)] == SliceSum(g, f, img, s', FirstGridRow(g, s') + k', x, z)
    {
      assert Unread(g, rows, s, k, s', k');
    }
  }

  lemma EmptySlice(g: Geometry, f: Kernel, img: seq<real>, s: int, y: int, x: int, z: int)
    requires g.Sizes() && FirstImageRow(g, s) >= g.height
    ensures SliceSum(g, f, img, s, y, x, z) == 0.0
  {}

  /** The end of one slice is the start of the next. */
  lemma NextSlice(g: Geometry, f: Kernel, img: seq<real>, rows: int, b: seq<real>, s: int)
    requires g.Valid() && Vanishing(f) && 0 <= s < g.slices
    requires MergeState(g, f, img, rows, b, s, g.sliceRows)
    ensures MergeState(g, f, img, rows, b, s + 1, 0)
  {
    Distribute(s, 1, g.sliceRows);
    assert Idx(g.sliceRows, s + 1, 0) == Idx(g.sliceRows, s, g.sliceRows);
    forall y, x, z | InBuffer(g, rows, y, x, z) && y < g.sizeY && y < Idx(g.sliceRows, s + 1, 0)
      ensures b[At(g, y, x, z)] == Merged(g, f, img, s + 1, 0, y, x, z)
    {
      BeforeNext(g, f, img, s, y, x, z);
      if y < FirstGridRow(g, s) || y >= FirstGridRow(g, s) + g.sliceRows {
        SliceIsConfined(g, f, img, s, y, x, z);
      }
    }
  }

  lemma FirstSlicePoint(g: Geometry, f: Kernel, img: seq<real>, y: int, x: int, z: int)
    requires g.Valid() && 0 <= y < g.sliceRows
    ensures FirstGridRow(g, 0) == 0 && Idx(g.sliceRows, 0, y) == y
    ensures Merged(g, f, img, 0, g.sliceRows, y, x, z) == SliceSum(g, f, img, 0, FirstGridRow(g, 0) + y, x, z)
  {
    BeforeFirst(g, f, img, y, x, z);
  }

  /** All slices hold their own sums. */
  ghost predicate SlicesStored(g: Geometry, f: Kernel, img: seq<real>, rows: int, b: seq<real>)
    requires g.Sizes() && Sized(g, rows, |b|)
  {
    forall s, k, x, z :: 0 <= s < g.slices && 0 <= k < g.sliceRows && InBuffer(g, rows, Idx(g.sliceRows, s, k), x, z) ==>
      b[At(g, Idx(g.sliceRows, s, k), x, z)] == SliceSum(g, f, img, s, FirstGridRow(g, s) + k, x, z)
  }

  lemma FirstSliceRow(g: Geometry, f: Kernel, img: seq<real>, rows: int, b: seq<real>, y: int, x: int, z: int)
    requires g.Valid() && Sized(g, rows, |b|) && SlicesStored(g, f, img, rows, b)
    requires InBuffer(g, rows, y, x, z) && y < g.sliceRows
    ensures b[At(g, y, x, z)] == Merged(g, f, img, 0, g.sliceRows, y, x, z)
  {
    FirstSlicePoint(g, f, img, y, x, z);
    var i := Idx(g.sliceRows, 0, y);
    assert b[At(g, i, x, z)] == SliceSum(g, f, img, 0, FirstGridRow(g, 0) + y, x, z);
  }

  /** Slice 0 is stored where it belongs. */
  lemma FirstSlice(g: Geometry, f: Kernel, img: seq<real>, rows: int, b: seq<real>)
    requires g.Valid() && Vanishing(f) && Sized(g, rows, |b|) && SlicesStored(g, f, img, rows, b)
    ensures MergeState(g, f, img, rows, b, 0, g.sliceRows)
  {
    var n := Idx(g.sliceRows, 0, g.sliceRows);
    assert n == g.sliceRows;
    forall y, x, z | InBuffer(g, rows, y, x, z) && y < g.sizeY && y < n
      ensures b[At(g, y, x, z)] == Merged(g, f, img, 0, g.sliceRows, y, x, z)
    {
      FirstSliceRow(g, f, img, rows, b, y, x, z);
    }
  }

  /** The sequential merge of all slices into the final grid rows. */
  method Merge(g: Geometry, ghost f: Kernel, ghost img: seq<real>, buf: array<real>, ghost rows: int)
    requires g.Valid() && Vanishing(f) && Layout(g) && Sized(g, rows, buf.Length)
    requires rows == Idx(g.sliceRows, g.slices, 0) && SlicesStored(g, f, img, rows, buf[..])
    modifies buf
    ensures forall y, x, z :: InBuffer(g, rows, y, x, z) && y < g.sizeY ==>
              buf[At(g, y, x, z)] == RowsSum(g, f, img, 0, g.height, y, x, z)
  {
    FirstSlice(g, f, img, rows, buf[..]);
    NextSlice(g, f, img, rows, buf[..], 0);
    for slice := 1 to g.slices
      invariant MergeState(g, f, img, rows, buf[..], slice, 0)
    {
      MergeSlice(g, f, img, buf, rows, slice);
      NextSlice(g, f, img, rows, buf[..], slice);
    }
    forall y, x, z | InBuffer(g, rows, y, x, z) && y < g.sizeY
      ensures buf[At(g, y, x, z)] == RowsSum(g, f, img, 0, g.height, y, x, z)
    {
      BeforeFirst(g, f, img, y, x, z);
    }
  }

  method MergeSlice(g: Geometry, ghost f: Kernel, ghost img: seq<real>, buf: array<real>, ghost rows: int, slice: int)
    requires g.Valid() && Vanishing(f) && Layout(g) && 1 <= slice < g.slices
    requires rows == Idx(g.sliceRows, g.slices, 0)
    requires MergeState(g, f, img, rows, buf[..], slice, 0)
    modifies buf
    ensures MergeState(g, f, img, rows, buf[..], slice, g.sliceRows)
  {
    for k := 0 to g.sliceRows
      invariant MergeState(g, f, img, rows, buf[..], slice, k)
    {
      MergeOneRow(g, f, img, buf, rows, slice, k);
    }
  }

  method MergeOneRow(g: Geometry, ghost f: Kernel, ghost img: seq<real>, buf: array<real>, ghost rows: int, slice: int, k: int)
    requires g.Valid() && Vanishing(f) && Layout(g) && 1 <= slice < g.slices && 0 <= k < g.sliceRows
    requires rows == Idx(g.sliceRows, g.slices, 0)
    requires MergeState(g, f, img, rows, buf[..], slice, k)
    modifies buf
    ensures MergeState(g, f, img, rows, buf[..], slice, k + 1)
  {
    var n, j, dest := g.RowCells(), Idx(g.sliceRows, slice, k), FirstGridRow(g, slice) + k;
    IdxInRange(g.sliceRows, g.slices, slice, k);
    RowsAddressable(g, n, rows, buf.Length);
    ghost var before := buf[..];
    MergeRow(buf, n, rows, dest, j, j < g.sizeY);
    SeenFromGrid(g, n, rows, before, buf[..], dest, j, j < g.sizeY);
    MergeStep(g, f, img, rows, before, buf[..], slice, k);
  }

  lemma RowsAddressable(g: Geometry, n: int, rows: int, len: int)
    requires n == g.RowCells() && len == rows * n
    ensures forall r, c :: 0 <= r < rows && 0 <= c < n ==> 0 <= Idx(n, r, c) < len
  {
    forall r, c | 0 <= r < rows && 0 <= c < n
      ensures 0 <= Idx(n, r, c) < len
    {
      IdxInRange(n, rows, r, c);
    }
  }

  lemma SeenFromGrid(g: Geometry, n: int, rows: int, b: seq<real>, b': seq<real>, dest: int, src: int, clear: bool)
    requires n == g.RowCells() && Sized(g, rows, |b|) && |b'| == |b| && 0 <= dest <= src < rows
    requires forall r, c :: 0 <= r < rows && 0 <= c < n ==> 0 <= Idx(n, r, c) < |b|
    requires forall r, c :: 0 <= r < rows && 0 <= c < n ==>
               b'[Idx(n, r, c)] ==
               if clear && r == src then 0.0
               else if r == dest then b[Idx(n, dest, c)] + b[Idx(n, src, c)]
               else b[Idx(n, r, c)]
    ensures RowMerged(g, rows, b, b', dest, src, clear)
  {
    forall r, x, z | InBuffer(g, rows, r, x, z)
      ensures b'[At(g, r, x, z)] ==
              if clear && r == src then 0.0
              else if r == dest then b[At(g, dest, x, z)] + b[At(g, src, x, z)]
              else b[At(g, r, x, z)]
    {
      IdxInRange(g.sizeZ, g.sizeX, x, z);
    }
  }

  // ---------------------------------------------------------------- the whole splat

  lemma SizedBuffer(g: Geometry, rows: int, n: int)
    requires g.sizeX >= 1 && g.sizeZ >= 1 && n == rows * g.RowCells()
    ensures Sized(g, rows, n)
  {
    forall r, x, z | InBuffer(g, rows, r, x, z)
      ensures 0 <= At(g, r, x, z) < n
    {
      AtInRange(g, rows, r, x, z);
    }
  }

  /** Where slice s' stands once slice s has been splatted: only slice s has changed. */
  lemma SliceRowsAfter(g: Geometry, f: Kernel, img: seq<real>, s: int, s': int, k: int, x: int, z: int)
    requires g.Valid() && Vanishing(f) && 0 <= s && 0 <= s' && 0 <= k < g.sliceRows
    ensures SliceSum(g, f, img, s, Idx(g.sliceRows, s', k) - SliceOffset(g, s), x, z)
            == if s == s' then SliceSum(g, f, img, s, FirstGridRow(g, s) + k, x, z) else 0.0
  {
    if s < s' {
      MulMonotone(s + 1, s', g.sliceRows);
      Distribute(s, 1, g.sliceRows);
      SliceIsConfined(g, f, img, s, Idx(g.sliceRows, s', k) - SliceOffset(g, s), x, z);
    } else if s' < s {
      RowsApart(g.sliceRows, s', k, s, 0);
      SliceIsConfined(g, f, img, s, Idx(g.sliceRows, s', k) - SliceOffset(g, s), x, z);
    }
  }

  /** Slices outside `todo` are complete, the others still empty. */
  ghost predicate Splatted(g: Geometry, f: Kernel, img: seq<real>, rows: int, b: seq<real>, todo: set<int>)
    requires g.Sizes() && Sized(g, rows, |b|)
  {
    forall s, k, x, z :: 0 <= s < g.slices && 0 <= k < g.sliceRows && InBuffer(g, rows, Idx(g.sliceRows, s, k), x, z) ==>
      b[At(g, Idx(g.sliceRows, s, k), x, z)] == if s in todo then 0.0 else SliceSum(g, f, img, s, FirstGridRow(g, s) + k, x, z)
  }

  function AllSlices(n: int): (a: set<int>)
    ensures forall s :: s in a <==> 0 <= s < n
    decreases n
  {
    if n <= 0 then {} else AllSlices(n - 1) + {n - 1}
  }

  /** The parallel loop, its iterations taken in any order. */
  method SplatSlices(g: Geometry, f: Kernel, img: seq<real>, buf: array<real>, ghost rows: int)
    requires g.Valid() && Vanishing(f) && Sized(g, rows, buf.Length)
    requires rows == Idx(g.sliceRows, g.slices, 0)
    requires forall p :: 0 <= p < buf.Length ==> buf[p] == 0.0
    modifies buf
    ensures Splatted(g, f, img, rows, buf[..], {})
  {
    var todo := AllSlices(g.slices);
    while todo != {}
      invariant forall s :: s in todo ==> 0 <= s < g.slices
      invariant Splatted(g, f, img, rows, buf[..], todo)
      decreases todo
    {
      var s :| s in todo;
      ghost var before := buf[..];
      SplatSlice(g, f, img, buf, rows, s);
      ghost var after := buf[..];
      forall s', k, x, z | 0 <= s' < g.slices && 0 <= k < g.sliceRows && InBuffer(g, rows, Idx(g.sliceRows, s', k), x, z)
        ensures after[At(g, Idx(g.sliceRows, s', k), x, z)]
                == if s' in todo - {s} then 0.0 else SliceSum(g, f, img, s', FirstGridRow(g, s') + k, x, z)
      {
        var r := Idx(g.sliceRows, s', k);
        assert after[At(g, r, x, z)] == before[At(g, r, x, z)] + SliceSum(g, f, img, s, r - SliceOffset(g, s), x, z);
        SliceRowsAfter(g, f, img, s, s', k, x, z);
      }
      todo := todo - {s};
    }
  }

  lemma LayoutHolds(g: Geometry)
    requires g.Valid()
    requires g.sigmaS >= 0.5 || (g.slices <= 4 && g.height == 1 && g.sizeY == 5 && g.invS == 4.0)
    ensures Layout(g)
  {
    forall s | 1 <= s < g.slices
      ensures 0 <= FirstGridRow(g, s) <= Idx(g.sliceRows, s, 0)
              && (FirstGridRow(g, s) == Idx(g.sliceRows, s, 0) ==> FirstImageRow(g, s) >= g.height)
    {
      MergeLayout(g, s);
    }
  }

  lemma EnoughRows(g: Geometry)
    requires g.Valid()
    ensures g.sizeY <= Idx(g.sliceRows, g.slices, 0)
  {
    CeilDiv(g.sizeY, g.slices);
    assert g.slices * (g.sliceRows - 2) == g.slices * g.sliceRows - 2 * g.slices;
  }
}
