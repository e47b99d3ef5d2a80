/** Size, slicing and interpolation arithmetic of the bilateral grid. */
module BilateralGeometry {
  import opened Numeric

  const MAX_RES_S := 3000
  const MAX_RES_R := 50
  const L_RANGE := 100.0

  /** The scalar fields of dt_bilateral_t; the sample buffer lives in `BilateralGrid.Grid`. */
  datatype Geometry = Geometry(
    width: int, height: int,
    sizeX: int, sizeY: int, sizeZ: int,
    sigmaS: real, sigmaR: real, invS: real, invR: real,
    slices: int, sliceHeight: int, sliceRows: int)
  {
    /** Number of cells in one grid row (all x and z at one y). */
    function RowCells(): int { sizeX * sizeZ }

    /** Every axis has two neighbouring grid points to interpolate between. */
    predicate Sizes() { sizeX >= 2 && sizeY >= 2 && sizeZ >= 2 }

    predicate ValidGrid() {
      && width >= 1 && height >= 1 && Sizes()
      && sigmaS > 0.0 && invS > 0.0 && sigmaS * invS == 1.0
      && sizeX == Ceil(width as real * invS) + 1
      && sizeY == Ceil(height as real * invS) + 1
      && sizeZ >= 5
    }

    predicate Valid() {
      && ValidGrid()
      && slices >= 1
      && sliceHeight == (height + slices - 1) / slices
      && sliceRows == (sizeY + slices - 1) / slices + 2
    }
  }

  /** C `roundf` on a non-negative argument. */
  function Round(x: real): int { (x + 0.5).Floor }

  function Clamps(a: int, lo: int, hi: int): int { if a > lo then if a < hi then a else hi else lo }

  /** Grid dimensions before the common spatial sigma is chosen. */
  function Coarse(extent: int, sigma: real): int
    requires sigma > 0.0
  {
    Clamps(Round(extent as real / MaxReal(sigma, 0.5)), 4, MAX_RES_S)
  }

  /** The one spatial sigma used on both axes. */
  function SpatialSigma(width: int, height: int, sigma: real): real
    requires sigma > 0.0
  {
    MaxReal(height as real / Coarse(height, sigma) as real, width as real / Coarse(width, sigma) as real)
  }

  function RangeSteps(sigma: real): int
    requires sigma > 0.0
  {
    Clamps(Round(L_RANGE / sigma), 4, MAX_RES_R)
  }

  /** dt_bilateral_grid_size followed by the slicing set-up of dt_bilateral_init. */
  function Init(width: int, height: int, sigmaS: real, sigmaR: real, threads: int): (g: Geometry)
    requires width >= 1 && height >= 1 && sigmaS > 0.0 && sigmaR > 0.0 && threads >= 1
  {
    SpatialSigmaPositive(width, height, sigmaS);
    var s := SpatialSigma(width, height, sigmaS);
    var r := L_RANGE / RangeSteps(sigmaR) as real;
    ExactQuotient(L_RANGE, RangeSteps(sigmaR) as real);
    WithSigmas(width, height, s, r, 1.0 / s, 1.0 / r, threads)
  }

  function WithSigmas(width: int, height: int, s: real, r: real, invS: real, invR: real, threads: int): Geometry
    requires threads >= 1
  {
    var sizeX := Ceil(width as real * invS) + 1;
    var sizeY := Ceil(height as real * invS) + 1;
    Geometry(width, height, sizeX, sizeY, Ceil(L_RANGE * invR) + 1, s, r, invS, invR,
             threads, (height + threads - 1) / threads, (sizeY + threads - 1) / threads + 2)
  }

  lemma SpatialSigmaPositive(width: int, height: int, sigma: real)
    requires width >= 1 && height >= 1 && sigma > 0.0
    ensures SpatialSigma(width, height, sigma) > 0.0
  {}

  lemma QuotientBound(w: real, x: real, s: real)
    requires w > 0.0 && x > 0.0 && s >= w / x
    ensures s > 0.0 && 0.0 < w * (1.0 / s) <= x
  {
    DivReal(w, x);
    CancelReal(0.0, w / x, x);
    DivReal(w, s);
    CancelReal(0.0, w / s, s);
    MulMonotoneReal(w / x, s, x);
    CancelReal(w / s, x, s);
  }

  lemma ExactQuotient(l: real, z: real)
    requires l > 0.0 && z > 0.0
    ensures l / z > 0.0 && l * (1.0 / (l / z)) == z
  {
    DivReal(l, z);
    CancelReal(0.0, l / z, z);
    DivReal(l, l / z);
    CancelReal(z, l / (l / z), l / z);
    CancelReal(l / (l / z), z, l / z);
  }

  lemma CeilBounds(x: real, n: int)
    ensures x > 0.0 ==> Ceil(x) >= 1
    ensures x <= n as real ==> Ceil(x) <= n
    ensures x == n as real ==> Ceil(x) == n
    ensures x <= Ceil(x) as real < x + 1.0
  {}

  /** One axis: n + 1 grid points where n is the extent counted in steps of s, rounded up. */
  lemma AxisBounds(extent: int, coarse: int, s: real, inv: real)
    requires extent >= 1 && 4 <= coarse <= MAX_RES_S && s >= extent as real / coarse as real
    requires s > 0.0 && inv == 1.0 / s
    ensures 2 <= Ceil(extent as real * inv) + 1 <= MAX_RES_S + 1
  {
    QuotientBound(extent as real, coarse as real, s);
    CeilBounds(extent as real * (1.0 / s), coarse);
  }

  lemma Reciprocal(s: real)
    requires s > 0.0
    ensures 1.0 / s > 0.0 && s * (1.0 / s) == 1.0
  {}

  lemma Assemble(width: int, height: int, x: int, y: int, z: int,
                 s: real, r: real, invS: real, invR: real, threads: int)
    requires width >= 1 && height >= 1 && threads >= 1
    requires 4 <= x <= MAX_RES_S && 4 <= y <= MAX_RES_S && 4 <= z <= MAX_RES_R
    requires s > 0.0 && invS == 1.0 / s && L_RANGE * invR == z as real
    requires s >= width as real / x as real && s >= height as real / y as real
    ensures var g := WithSigmas(width, height, s, r, invS, invR, threads);
            && g.Valid()
            && 2 <= g.sizeX <= MAX_RES_S + 1 && 2 <= g.sizeY <= MAX_RES_S + 1
            && 5 <= g.sizeZ <= MAX_RES_R + 1
  {
    Reciprocal(s);
    AxisBounds(width, x, s, invS);
    AxisBounds(height, y, s, invS);
    CeilBounds(L_RANGE * invR, z);
  }

  /** The grid never exceeds 3001 x 3001 x 51 and never drops below 2 x 2 x 5. */
  lemma GridSizeBounds(width: int, height: int, sigmaS: real, sigmaR: real, threads: int)
    requires width >= 1 && height >= 1 && sigmaS > 0.0 && sigmaR > 0.0 && threads >= 1
    ensures var g := Init(width, height, sigmaS, sigmaR, threads);
            && g.Valid()
            && 2 <= g.sizeX <= 3001 && 2 <= g.sizeY <= 3001
            && 5 <= g.sizeZ <= 51
  {
    var x, y, z := Coarse(width, sigmaS), Coarse(height, sigmaS), RangeSteps(sigmaR);
    var s, r := SpatialSigma(width, height, sigmaS), L_RANGE / z as real;
    SpatialSigmaPositive(width, height, sigmaS);
    ExactQuotient(L_RANGE, z as real);
    Assemble(width, height, x, y, z, s, r, 1.0 / s, 1.0 / r, threads);
  }

  /** v rounded to the nearest number of steps, kept within 4 .. most. */
  function Resolution(v: real, most: int): (n: int)
    requires most >= 4
    ensures 4 <= n <= most
  {
    if v < 4.0 then 4 else if v >= most as real then most else (v + 0.5).Floor
  }

  lemma CoarseIs(extent: int, sigma: real)
    requires extent >= 1 && sigma > 0.0
    ensures Coarse(extent, sigma) == Resolution(extent as real / (if sigma > 0.5 then sigma else 0.5), 3000)
  {}

  lemma RangeStepsAre(sigma: real)
    requires sigma > 0.0
    ensures RangeSteps(sigma) == Resolution(100.0 / sigma, 50)
  {}

  /** The lightness axis has as many steps as 100 / sigma_r says, and they make up the whole range of 100. */
  lemma RangeResolution(width: int, height: int, sigmaS: real, sigmaR: real, threads: int)
    requires width >= 1 && height >= 1 && sigmaS > 0.0 && sigmaR > 0.0 && threads >= 1
    ensures var g := Init(width, height, sigmaS, sigmaR, threads);
            g.sizeZ == Resolution(100.0 / sigmaR, 50) + 1 && g.sigmaR * (g.sizeZ - 1) as real == 100.0
  {
    var z := RangeSteps(sigmaR);
    RangeStepsAre(sigmaR);
    ExactQuotient(L_RANGE, z as real);
    CeilBounds(z as real, z);
    DivReal(L_RANGE, z as real);
  }

  /** Extent in steps of the quotient by its own count: exact. */
  lemma OwnSteps(extent: int, n: int, inv: real)
    requires extent >= 1 && n >= 1 && inv == 1.0 / (extent as real / n as real)
    ensures Ceil(extent as real * inv) == n
  {
    ExactQuotient(extent as real, n as real);
    CeilBounds(n as real, n);
  }

  lemma FewerSteps(extent: int, n: int, s: real)
    requires extent >= 1 && n >= 1 && s > 0.0 && s >= extent as real / n as real
    ensures Ceil(extent as real * (1.0 / s)) <= n
  {
    QuotientBound(extent as real, n as real, s);
    CeilBounds(extent as real * (1.0 / s), n);
  }

  /** Each spatial axis has at most the points that extent / sigma_s says, and one of them has exactly those. */
  lemma SpatialResolution(width: int, height: int, sigmaS: real, sigmaR: real, threads: int, g: Geometry)
    requires width >= 1 && height >= 1 && sigmaS > 0.0 && sigmaR > 0.0 && threads >= 1
    requires g == Init(width, height, sigmaS, sigmaR, threads)
    ensures var s := if sigmaS > 0.5 then sigmaS else 0.5;
            var x, y := Resolution(width as real / s, 3000), Resolution(height as real / s, 3000);
            && g.sizeX <= x + 1 && g.sizeY <= y + 1 && (g.sizeX == x + 1 || g.sizeY == y + 1)
            && (g.sigmaS == width as real / x as real || g.sigmaS == height as real / y as real)
  {
    var s, x, y := InitAxes(width, height, sigmaS, sigmaR, threads, g);
    CoarseIs(width, sigmaS);
    CoarseIs(height, sigmaS);
    AxisSteps(width, height, x, y, s);
  }

  lemma InitAxes(width: int, height: int, sigmaS: real, sigmaR: real, threads: int, g: Geometry) returns (s: real, x: int, y: int)
    requires width >= 1 && height >= 1 && sigmaS > 0.0 && sigmaR > 0.0 && threads >= 1
    requires g == Init(width, height, sigmaS, sigmaR, threads)
    ensures x == Coarse(width, sigmaS) >= 4 && y == Coarse(height, sigmaS) >= 4
    ensures s > 0.0 && s == MaxReal(height as real / y as real, width as real / x as real) && g.sigmaS == s
    ensures g.sizeX == Ceil(width as real * (1.0 / s)) + 1 && g.sizeY == Ceil(height as real * (1.0 / s)) + 1
  {
    SpatialSigmaPositive(width, height, sigmaS);
    s, x, y := SpatialSigma(width, height, sigmaS), Coarse(width, sigmaS), Coarse(height, sigmaS);
  }

  lemma AxisSteps(width: int, height: int, x: int, y: int, s: real)
    requires width >= 1 && height >= 1 && x >= 1 && y >= 1 && s > 0.0
    requires s == MaxReal(height as real / y as real, width as real / x as real)
    ensures Ceil(width as real * (1.0 / s)) <= x && Ceil(height as real * (1.0 / s)) <= y
    ensures Ceil(width as real * (1.0 / s)) == x || Ceil(height as real * (1.0 / s)) == y
  {
    FewerSteps(width, x, s);
    FewerSteps(height, y, s);
    if s == width as real / x as real { OwnSteps(width, x, 1.0 / s); } else { OwnSteps(height, y, 1.0 / s); }
  }

  lemma HalfQuotient(w: int, x: int)
    requires w >= 2 && 4 <= x <= 2 * w
    ensures w as real / x as real >= 0.5
  {
    DivReal(w as real, x as real);
    CancelReal(0.5, w as real / x as real, x as real);
  }

  lemma QuotientAtMost(e: real, s: real)
    requires s >= 0.5 && e >= 0.0
    ensures 0.0 <= e / s <= 2.0 * e
  {
    var q := e / s;
    DivReal(e, s);
    MulMonotoneReal(0.5, s, 2.0 * e);
    CancelReal(q, 2.0 * e, s);
    CancelReal(0.0, q, s);
  }

  lemma CoarseBound(extent: int, sigma: real)
    requires extent >= 2 && sigma > 0.0
    ensures 4 <= Coarse(extent, sigma) <= 2 * extent
  {
    var s := MaxReal(sigma, 0.5);
    var q := extent as real / s;
    QuotientAtMost(extent as real, s);
  }

  /** The effective sigma is at least 1/2 exactly for images larger than one pixel. */
  lemma SigmaAtLeastHalf(width: int, height: int, sigmaS: real, sigmaR: real, threads: int)
    requires width >= 1 && height >= 1 && sigmaS > 0.0 && sigmaR > 0.0 && threads >= 1
    ensures var g := Init(width, height, sigmaS, sigmaR, threads);
            && (g.sigmaS >= 0.5 <==> width >= 2 || height >= 2)
            && (width == 1 && height == 1 ==> g.sigmaS == 0.25 && g.invS == 4.0 && g.sizeY == 5)
  {
    if width >= 2 {
      CoarseBound(width, sigmaS);
      HalfQuotient(width, Coarse(width, sigmaS));
    } else if height >= 2 {
      CoarseBound(height, sigmaS);
      HalfQuotient(height, Coarse(height, sigmaS));
    } else {
      var s := MaxReal(sigmaS, 0.5);
      assert (1.0 / s) * s == 1.0;
      if 1.0 / s > 2.0 {
        assert (1.0 / s - 2.0) * s > 0.0;
      }
      assert Coarse(1, sigmaS) == 4;
    }
  }

  // ---------------------------------------------------------------- interpolation

  /** CLAMPS(x, 0, size - 1): a coordinate moved onto the grid. */
  function Onto(x: real, size: int): (p: real)
    requires size >= 2
    ensures 0.0 <= p <= (size - 1) as real
  {
    if x > 0.0 then if x < (size - 1) as real then x else (size - 1) as real else 0.0
  }

  /** The lower of the two grid points that share the weight of a coordinate. */
  function Lower(x: real, size: int): (k: int)
    requires size >= 2
    ensures 0 <= k <= size - 2
    ensures 0.0 <= Onto(x, size) - k as real <= 1.0
  {
    Min(Onto(x, size).Floor, size - 2)
  }

  function Fraction(x: real, size: int): real
    requires size >= 2
  {
    Onto(x, size) - Lower(x, size) as real
  }

  /** The linear B-spline (tent) kernel: the reference meaning of linear splatting. */
  function Hat(t: real): real {
    if t <= -1.0 || t >= 1.0 then 0.0 else if t < 0.0 then 1.0 + t else 1.0 - t
  }

  /** Splitting between floor and floor+1 is exactly the tent kernel at every grid point. */
  lemma HatAtGridPoint(x: real, size: int, k: int)
    requires size >= 2
    ensures Hat(Onto(x, size) - k as real) ==
            if k == Lower(x, size) then 1.0 - Fraction(x, size)
            else if k == Lower(x, size) + 1 then Fraction(x, size)
            else 0.0
  {}

  // ---------------------------------------------------------------- slices

  function FirstImageRow(g: Geometry, s: int): int { s * g.sliceHeight }

  function LastImageRow(g: Geometry, s: int): int { Min((s + 1) * g.sliceHeight, g.height) }

  /** The grid row that row 0 of slice s stands for. */
  function FirstGridRow(g: Geometry, s: int): int { RowFloor(g, FirstImageRow(g, s)) }

  function RowFloor(g: Geometry, j: int): int { (j as real * g.invS).Floor }

  /** The first of the two grid rows an image row is splatted into. */
  function GridRow(g: Geometry, j: int): int
    requires g.ValidGrid()
  {
    Lower(j as real * g.invS, g.sizeY)
  }

  lemma GridRowIsFloor(g: Geometry, j: int)
    requires g.ValidGrid() && 0 <= j < g.height
    ensures GridRow(g, j) == RowFloor(g, j)
  {
    MulMonotoneReal(0.0, j as real, g.invS);
    assert (g.height - j) as real * g.invS > 0.0;
    assert g.height as real * g.invS == j as real * g.invS + (g.height - j) as real * g.invS;
  }

  lemma ProductBound(a: int, height: int, t: int, inv: real)
    requires t >= 1 && a <= height + t - 1 && 0.0 < inv <= 2.0
    ensures a as real * inv <= height as real * inv + (2 * t - 2) as real
  {
    var h, k := height as real, (t - 1) as real;
    var sum := h + k;
    calc {
      a as real * inv;
    <= { MulMonotoneReal(a as real, sum, inv); }
      sum * inv;
    ==
      h * inv + k * inv;
    <= { MulMonotoneReal(inv, 2.0, k); }
      h * inv + 2.0 * k;
    }
  }

  lemma DivideOut(h: int, t: int, inv: real, m: int)
    requires t >= 1 && (h * t) as real * inv < (m * t) as real
    ensures h as real * inv < m as real
  {
    AsRealMul(h, t);
    AssocReal(h as real, t as real, inv);
    AsRealMul(m, t);
    CancelReal(h as real * inv, m as real, t as real);
  }

  /** Slicing in plain numbers: t slices of h image rows, for q * t grid rows or more. */
  lemma SpanCore(h: int, t: int, q: int, height: int, rows: int, inv: real)
    requires t >= 1 && (h - 1) * t < height && rows <= q * t && inv > 0.0
    requires height as real * inv <= (rows - 1) as real
    ensures (h - 1) as real * inv < q as real
  {
    var a := (h - 1) * t;
    MulStrictReal(a as real, height as real, inv);
    DivideOut(h - 1, t, inv, q);
  }

  lemma StepCore(h: int, t: int, q: int, height: int, rows: int, inv: real)
    requires t >= 1 && h * t <= height + t - 1 && rows <= q * t && 0.0 < inv <= 2.0
    requires height as real * inv <= (rows - 1) as real
    ensures h as real * inv < (q + 2) as real
  {
    ProductBound(h * t, height, t, inv);
    Distribute(q, 2, t);
    DivideOut(h, t, inv, q + 2);
  }

  lemma HeightInSteps(g: Geometry)
    requires g.ValidGrid()
    ensures g.height as real * g.invS <= (g.sizeY - 1) as real
  {
    CeilBounds(g.height as real * g.invS, 0);
  }

  lemma SliceCounts(height: int, rows: int, t: int, h: int, q: int)
    requires t >= 1 && height >= 1 && h == (height + t - 1) / t && q == (rows + t - 1) / t
    ensures h >= 1 && (h - 1) * t < height && h * t <= height + t - 1 && rows <= q * t
  {
    CeilDiv(height, t);
    CeilDiv(rows, t);
    if h < 1 { MulMonotone(h, 0, t); }
    Distribute(h, -1, t);
  }

  /** One image row less than a slice spans fewer grid rows than the slice reserves minus two. */
  lemma SliceSpan(g: Geometry)
    requires g.Valid()
    ensures g.sliceHeight >= 1
    ensures (g.sliceHeight - 1) as real * g.invS < (g.sliceRows - 2) as real
  {
    SliceCounts(g.height, g.sizeY, g.slices, g.sliceHeight, g.sliceRows - 2);
    HeightInSteps(g);
    SpanCore(g.sliceHeight, g.slices, g.sliceRows - 2, g.height, g.sizeY, g.invS);
  }

  lemma FloorShift(x: real, y: real, n: int)
    requires x <= y < x + n as real
    ensures x.Floor <= y.Floor <= x.Floor + n
  {}

  lemma ScaledSpan(f: real, d: real, h: real, inv: real, n: real) returns (a: real, b: real)
    requires 0.0 <= d <= h && inv > 0.0 && h * inv < n
    ensures a == f * inv && b == (f + d) * inv && a <= b < a + n
  {
    var x := ScaledStep(d, h, inv);
    a, b := f * inv, (f + d) * inv;
    DistributeReal(f, d, inv);
  }

  lemma ScaledStep(d: real, h: real, inv: real) returns (x: real)
    requires 0.0 <= d <= h && inv > 0.0
    ensures x == d * inv && 0.0 <= x <= h * inv
  {
    x := d * inv;
    MulMonotoneReal(0.0, d, inv);
    MulMonotoneReal(d, h, inv);
  }

  /** The scaled rows f and j are less than n apart. */
  lemma SpanWithin(f: int, j: int, h: int, inv: real, n: int) returns (a: real, b: real)
    requires f <= j <= f + h - 1 && inv > 0.0 && (h - 1) as real * inv < n as real
    ensures a == f as real * inv && b == j as real * inv && a <= b < a + n as real
  {
    a, b := ScaledSpan(f as real, (j - f) as real, (h - 1) as real, inv, n as real);
    assert f as real + (j - f) as real == j as real;
  }

  lemma SliceImageRows(g: Geometry, s: int, j: int)
    requires 0 <= s && g.sliceHeight >= 1 && FirstImageRow(g, s) <= j < LastImageRow(g, s)
    ensures 0 <= FirstImageRow(g, s) && j <= FirstImageRow(g, s) + g.sliceHeight - 1
  {
    MulMonotone(0, s, g.sliceHeight);
    Distribute(s, 1, g.sliceHeight);
  }

  lemma FloorsKeepToRows(g: Geometry, f: int, j: int)
    requires g.invS > 0.0 && f <= j <= f + g.sliceHeight - 1
    requires (g.sliceHeight - 1) as real * g.invS < (g.sliceRows - 2) as real
    ensures RowFloor(g, f) <= RowFloor(g, j) <= RowFloor(g, f) + g.sliceRows - 2
  {
    var a, b := SpanWithin(f, j, g.sliceHeight, g.invS, g.sliceRows - 2);
    FloorShift(a, b, g.sliceRows - 2);
  }

  lemma SliceFloors(g: Geometry, s: int, j: int)
    requires g.invS > 0.0 && 0 <= s && FirstImageRow(g, s) <= j < LastImageRow(g, s)
    requires g.sliceHeight >= 1 && (g.sliceHeight - 1) as real * g.invS < (g.sliceRows - 2) as real
    ensures 0 <= j < g.height && FirstGridRow(g, s) <= RowFloor(g, j) <= FirstGridRow(g, s) + g.sliceRows - 2
  {
    SliceImageRows(g, s, j);
    FloorsKeepToRows(g, FirstImageRow(g, s), j);
  }

  /** Both grid rows of every image row of a slice lie inside that slice's own rows. */
  lemma SliceKeepsToItsRows(g: Geometry, s: int, j: int)
    requires g.Valid() && 0 <= s && FirstImageRow(g, s) <= j < LastImageRow(g, s)
    ensures FirstGridRow(g, s) <= GridRow(g, j) <= FirstGridRow(g, s) + g.sliceRows - 2
  {
    SliceSpan(g);
    SliceFloors(g, s, j);
    GridRowIsFloor(g, j);
  }

  lemma AtMostTwo(s: real, inv: real)
    requires s >= 0.5 && inv > 0.0 && s * inv == 1.0
    ensures inv <= 2.0
  {
    MulMonotoneReal(0.5, s, inv);
  }

  lemma SliceStep(g: Geometry)
    requires g.Valid() && g.sigmaS >= 0.5
    ensures g.sliceHeight as real * g.invS < g.sliceRows as real
  {
    SliceCounts(g.height, g.sizeY, g.slices, g.sliceHeight, g.sliceRows - 2);
    HeightInSteps(g);
    AtMostTwo(g.sigmaS, g.invS);
    StepCore(g.sliceHeight, g.slices, g.sliceRows - 2, g.height, g.sizeY, g.invS);
  }

  /** A later slice always lands strictly above the rows it is stored in. */
  lemma SliceMovesUp(g: Geometry, s: int)
    requires g.Valid() && g.sigmaS >= 0.5 && s >= 1
    ensures FirstGridRow(g, s) < s * g.sliceRows
  {
    SliceStep(g);
    var step := g.sliceHeight as real * g.invS;
    MulStrictReal(step, g.sliceRows as real, s as real);
    AsRealMul(s, g.sliceHeight);
    AssocReal(s as real, g.sliceHeight as real, g.invS);
    AsRealMul(s, g.sliceRows);
  }

  /**
    What the merge needs of every later slice. A one-pixel image has an effective sigma of 1/4, and
    then a slice may land exactly on its own rows; it is harmless only because it is empty.
   */
  lemma MergeLayout(g: Geometry, s: int)
    requires g.Valid() && 1 <= s < g.slices
    requires g.sigmaS >= 0.5 || (g.slices <= 4 && g.height == 1 && g.sizeY == 5 && g.invS == 4.0)
    ensures 0 <= FirstGridRow(g, s) <= s * g.sliceRows
    ensures FirstGridRow(g, s) == s * g.sliceRows ==> FirstImageRow(g, s) >= g.height
  {
    SliceSpan(g);
    FirstRowNotNegative(s, g.sliceHeight, g.invS);
    if g.sigmaS >= 0.5 {
      SliceMovesUp(g, s);
    } else {
      OnePixelLayout(g, s);
    }
  }

  lemma FirstRowNotNegative(s: int, h: int, inv: real)
    requires s >= 0 && h >= 0 && inv > 0.0
    ensures ((s * h) as real * inv).Floor >= 0
  {
    MulMonotone(0, s, h);
    MulMonotoneReal(0.0, (s * h) as real, inv);
  }

  /** The single pixel on up to four slices. */
  lemma OnePixelLayout(g: Geometry, s: int)
    requires g.Valid() && 1 <= s < g.slices <= 4 && g.height == 1 && g.sizeY == 5 && g.invS == 4.0
    ensures FirstGridRow(g, s) <= s * g.sliceRows && FirstImageRow(g, s) >= g.height
  {
    assert g.sliceHeight == 1 && g.sliceRows >= 4;
    assert (s as real * 4.0).Floor == 4 * s;
    MulMonotone(4, g.sliceRows, s);
  }

  /** The merge loop addresses only rows of the allocated buffer. */
  ghost predicate MergeInBuffer(g: Geometry) {
    forall s :: 1 <= s < g.slices ==>
                  0 <= FirstGridRow(g, s) && FirstGridRow(g, s) + g.sliceRows <= g.slices * g.sliceRows
  }

  /**
    Exactly when the merge loop addresses only allocated rows, for every geometry that
    `Init` can produce: all images except a single pixel, and a single pixel on at most 4 threads.
   */
  lemma MergeStaysInBuffer(width: int, height: int, sigmaS: real, sigmaR: real, threads: int)
    requires width >= 1 && height >= 1 && sigmaS > 0.0 && sigmaR > 0.0 && threads >= 1
    ensures MergeInBuffer(Init(width, height, sigmaS, sigmaR, threads))
            <==> width >= 2 || height >= 2 || threads <= 4
  {
    var g := Init(width, height, sigmaS, sigmaR, threads);
    GridSizeBounds(width, height, sigmaS, sigmaR, threads);
    SigmaAtLeastHalf(width, height, sigmaS, sigmaR, threads);
    if width >= 2 || height >= 2 || threads <= 4 {
      forall s | 1 <= s < g.slices
        ensures 0 <= FirstGridRow(g, s) && FirstGridRow(g, s) + g.sliceRows <= g.slices * g.sliceRows
      {
        MergeLayout(g, s);
        MulMonotone(s + 1, g.slices, g.sliceRows);
        Distribute(s, 1, g.sliceRows);
      }
    } else {
      OnePixelOverrun(g);
    }
  }

  /** The failing family: one pixel on five or more threads. */
  lemma OnePixelOverrun(g: Geometry)
    requires g.Valid() && g.height == 1 && g.sizeY == 5 && g.invS == 4.0 && g.slices >= 5
    ensures !MergeInBuffer(g)
  {
    var t := g.slices;
    assert g.sliceHeight == 1 && g.sliceRows == 3;
    assert FirstGridRow(g, t - 1) == 4 * (t - 1);
  }
}
