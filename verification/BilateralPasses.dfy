/**
  Which cells the three passes of dt_bilateral_blur address. On an axis of fewer than four points the line
  loops still run over four samples, and every following line starts later by what the line before it
  overshot: along x the buffer is then read as if the grid were four points wide, along y the columns
  slide down the rows.
 */
module BilateralPasses {
  import opened Numeric
  import opened BilateralGeometry
  import opened BilateralSplat
  import opened BilateralGrid
  import opened BilateralBlur

  /** The number of grid rows the buffer has room for. */
  function Rows(g: Geometry): int { Idx(g.sliceRows, g.slices, 0) }

  lemma AtStep(g: Geometry, y: int, x: int, z: int)
    ensures At(g, y + 1, x, z) == At(g, y, x, z) + g.RowCells()
    ensures At(g, y, x + 1, z) == At(g, y, x, z) + g.sizeZ
    ensures At(g, y, x, z + 1) == At(g, y, x, z) + 1
  {
    Distribute(y, 1, g.RowCells());
    Distribute(x, 1, g.sizeZ);
  }

  lemma AtDistinct(g: Geometry, y: int, x: int, z: int, n: int)
    requires g.Sizes() && n > 0
    ensures At(g, y + n, x, z) > At(g, y, x, z) && At(g, y, x + n, z) > At(g, y, x, z)
  {
    Distribute(y, n, g.RowCells());
    Distribute(x, n, g.sizeZ);
    MulMonotone(1, n, g.sizeZ);
    MulMonotone(1, g.sizeX, g.sizeZ);
    MulMonotone(1, n, g.RowCells());
  }

  /** Distinct grid points have distinct cells. */
  ghost predicate Apart(g: Geometry) {
    forall y, x, z, y', x', z' ::
      (InGrid(g, y, x, z) && InGrid(g, y', x', z') && At(g, y, x, z) == At(g, y', x', z'))
      ==> y == y' && x == x' && z == z'
  }

  lemma GridApart(g: Geometry)
    ensures Apart(g)
  {
    forall y, x, z, y', x', z' | InGrid(g, y, x, z) && InGrid(g, y', x', z') && At(g, y, x, z) == At(g, y', x', z')
      ensures y == y' && x == x' && z == z'
    {
      AtInjective(g, y, x, z, y', x', z');
    }
  }

  // ---------------------------------------------------------------- along x

  /** The grid as the x pass sees it. */
  function Wide(g: Geometry): Geometry { g.(sizeX := Samples(g.sizeX)) }

  lemma WideStep(g: Geometry)
    ensures LineStep(g.RowCells(), g.sizeZ, g.sizeX) == Wide(g).RowCells()
  {
    Distribute(g.sizeX, Samples(g.sizeX) - g.sizeX, g.sizeZ);
  }

  lemma StridedX(g: Geometry, k: int, j: int)
    requires g.Sizes()
    ensures Strided(LineCells(CellX(Place(g)), k, j), g.sizeZ)
  {
    var addr := LineCells(CellX(Place(g)), k, j);
    forall i ensures Step(addr, i, g.sizeZ) { AtStep(g, j, i, k); }
    forall i, t | i != t ensures addr(i) != addr(t) {
      AtDistinct(g, j, Min(i, t), k, Max(i, t) - Min(i, t));
    }
  }

  lemma ApartX(g: Geometry)
    ensures CellsApart(CellX(Place(g)), g.sizeZ, g.sizeY, g.sizeX)
  {
    GridApart(g);
  }

  lemma SeparateX(g: Geometry, len: int)
    requires g.Sizes() && Fits(g, Place(g), len)
    ensures Separate(CellX(Place(g)), 1, g.RowCells(), g.sizeZ, g.sizeZ, g.sizeY, g.sizeX, len)
  {
    var cell := CellX(Place(g));
    forall k, j ensures NextLine(cell, k, j, g.RowCells()) { AtStep(g, j, 0, k); }
    forall k, j ensures Strided(LineCells(cell, k, j), g.sizeZ) { StridedX(g, k, j); }
    ApartX(g);
  }

  // ---------------------------------------------------------------- along y

  /** How many rows further down each following column is taken. */
  function Drift(g: Geometry): int { Samples(g.sizeY) - g.sizeY }

  /** Sample i of the column (x, z) of the y pass. */
  function SkewRow(g: Geometry, x: int, i: int): int { x * Drift(g) + i }

  function SkewAt(g: Geometry, k: int, j: int, i: int): int { At(g, SkewRow(g, j, i), j, k) }

  function Skew(g: Geometry): Cells { (k, j, i) => SkewAt(g, k, j, i) }

  lemma SkewStep(g: Geometry, k: int, j: int)
    ensures NextLine(Skew(g), k, j, LineStep(g.sizeZ, g.RowCells(), g.sizeY))
  {
    var d, r := Drift(g), SkewRow(g, j, 0);
    Distribute(j, 1, d);
    assert SkewRow(g, j + 1, 0) == r + d;
    Distribute(r, d, g.RowCells());
    AtStep(g, r + d, j, k);
  }

  lemma StridedSkew(g: Geometry, k: int, j: int)
    requires g.Sizes()
    ensures Strided(LineCells(Skew(g), k, j), g.RowCells())
  {
    var addr := LineCells(Skew(g), k, j);
    forall i ensures Step(addr, i, g.RowCells()) { AtStep(g, SkewRow(g, j, i), j, k); }
    forall i, t | i != t ensures addr(i) != addr(t) {
      AtDistinct(g, SkewRow(g, j, Min(i, t)), j, k, Max(i, t) - Min(i, t));
    }
  }

  lemma ApartSkew(g: Geometry)
    ensures CellsApart(Skew(g), g.sizeZ, g.sizeX, Samples(g.sizeY))
  {
    var n := Samples(g.sizeY);
    forall k, j, i, k', j', i' | InLines(g.sizeZ, g.sizeX, n, k, j, i) && InLines(g.sizeZ, g.sizeX, n, k', j', i')
                                 && Skew(g)(k, j, i) == Skew(g)(k', j', i')
      ensures k == k' && j == j' && i == i'
    {
      AtInjective(g, SkewRow(g, j, i), j, k, SkewRow(g, j', i'), j', k');
    }
  }

  /** All rows the y pass touches are rows of the buffer. */
  ghost predicate SkewFits(g: Geometry, rows: int) {
    forall j, i :: 0 <= j < g.sizeX && 0 <= i < Samples(g.sizeY) ==> 0 <= SkewRow(g, j, i) < rows
  }

  lemma SkewInRange(g: Geometry, rows: int, len: int)
    requires len == rows * g.RowCells() && SkewFits(g, rows)
    ensures forall k, j, i :: InLines(g.sizeZ, g.sizeX, Samples(g.sizeY), k, j, i) ==> 0 <= Skew(g)(k, j, i) < len
  {
    forall k, j, i | InLines(g.sizeZ, g.sizeX, Samples(g.sizeY), k, j, i) ensures 0 <= Skew(g)(k, j, i) < len {
      AtInRange(g, rows, SkewRow(g, j, i), j, k);
    }
  }

  lemma SeparateY(g: Geometry, rows: int, len: int)
    requires g.Sizes() && len == rows * g.RowCells() && SkewFits(g, rows)
    ensures Separate(Skew(g), 1, LineStep(g.sizeZ, g.RowCells(), g.sizeY), g.RowCells(), g.sizeZ, g.sizeX, Samples(g.sizeY), len)
  {
    forall k, j ensures NextLine(Skew(g), k, j, LineStep(g.sizeZ, g.RowCells(), g.sizeY)) { SkewStep(g, k, j); }
    forall k, j ensures Strided(LineCells(Skew(g), k, j), g.RowCells()) { StridedSkew(g, k, j); }
    SkewInRange(g, rows, len);
    ApartSkew(g);
  }

  // ---------------------------------------------------------------- along z

  lemma StridedZ(g: Geometry, k: int, j: int)
    ensures Strided(LineCells(CellZ(Place(g)), k, j), 1)
  {
    var addr := LineCells(CellZ(Place(g)), k, j);
    forall i ensures Step(addr, i, 1) { AtStep(g, j, k, i); }
  }

  lemma ApartZ(g: Geometry)
    ensures CellsApart(CellZ(Place(g)), g.sizeX, g.sizeY, g.sizeZ)
  {
    GridApart(g);
  }

  lemma LinesZ(g: Geometry)
    ensures forall k, j :: NextLine(CellZ(Place(g)), k, j, g.RowCells())
    ensures forall k, j :: Strided(LineCells(CellZ(Place(g)), k, j), 1)
  {
    var cell := CellZ(Place(g));
    forall k, j ensures NextLine(cell, k, j, g.RowCells()) { AtStep(g, j, k, 0); }
    forall k, j ensures Strided(LineCells(cell, k, j), 1) { StridedZ(g, k, j); }
  }

  lemma SeparateZ(g: Geometry, len: int)
    requires g.Sizes() && Fits(g, Place(g), len)
    ensures Separate(CellZ(Place(g)), g.sizeZ, g.RowCells(), 1, g.sizeX, g.sizeY, g.sizeZ, len)
  {
    LinesZ(g);
    ApartZ(g);
  }

  // ---------------------------------------------------------------- the addresses of the code

  /** Sample i of line j in plane k, as the index variable computes it. */
  function Address(o1: int, step: int, o3: int, k: int, j: int, i: int): int { k * o1 + j * step + i * o3 }

  /** A pass with these strides and sizes touches only cells of the buffer. */
  ghost predicate PassInside(o1: int, o2: int, o3: int, n1: int, n2: int, n3: int, len: int) {
    forall k, j, i :: InLines(n1, n2, Samples(n3), k, j, i) ==> 0 <= Address(o1, LineStep(o2, o3, n3), o3, k, j, i) < len
  }

  lemma AddressX(g: Geometry, k: int, j: int, i: int)
    ensures Address(1, LineStep(g.RowCells(), g.sizeZ, g.sizeX), g.sizeZ, k, j, i) == At(Wide(g), j, i, k)
  {
    WideStep(g);
  }

  lemma AddressY(g: Geometry, k: int, j: int, i: int)
    ensures Address(1, LineStep(g.sizeZ, g.RowCells(), g.sizeY), g.RowCells(), k, j, i) == SkewAt(g, k, j, i)
  {
    SkewProduct(j, Drift(g), i, g.RowCells(), g.sizeZ);
  }

  lemma SkewProduct(j: int, d: int, i: int, c: int, z: int)
    ensures (j * d + i) * c + j * z == j * (z + d * c) + i * c
  {
    Distribute(j * d, i, c);
    assert (j * d) * c == j * (d * c);
    assert j * (z + d * c) == j * z + j * (d * c);
  }

  lemma AddressZ(g: Geometry, k: int, j: int, i: int)
    requires g.sizeZ >= 4
    ensures Address(g.sizeZ, LineStep(g.RowCells(), 1, g.sizeZ), 1, k, j, i) == At(g, j, k, i)
  {
  }

  // ---------------------------------------------------------------- along x

  lemma LastCell(g: Geometry)
    ensures At(g, g.sizeY - 1, g.sizeX - 1, g.sizeZ - 1) == g.sizeY * g.RowCells() - 1
  {
    var z := g.sizeZ;
    Distribute(g.sizeX, -1, z);
    Distribute(g.sizeY, -1, g.RowCells());
  }

  lemma FitsIff(g: Geometry, len: int)
    requires g.Sizes()
    ensures Fits(g, Place(g), len) <==> g.sizeY * g.RowCells() <= len
  {
    if g.sizeY * g.RowCells() <= len {
      forall y, x, z | InGrid(g, y, x, z) ensures 0 <= Place(g)(y, x, z) < len {
        AtInRange(g, g.sizeY, y, x, z);
      }
    }
    if Fits(g, Place(g), len) {
      assert InGrid(g, g.sizeY - 1, g.sizeX - 1, g.sizeZ - 1);
      LastCell(g);
    }
  }

  lemma CancelCells(a: int, b: int, z: int)
    requires z > 0
    ensures a * z <= b * z <==> a <= b
  {
    if a <= b { MulMonotone(a, b, z); } else { MulMonotone(b + 1, a, z); Distribute(b, 1, z); }
  }

  /** The x pass stays inside exactly if the widened grid fits. */
  lemma XInsideIff(g: Geometry, rows: int, len: int)
    requires g.Sizes() && len == rows * g.RowCells()
    ensures PassInside(1, g.RowCells(), g.sizeZ, g.sizeZ, g.sizeY, g.sizeX, len) <==> Fits(Wide(g), Place(Wide(g)), len)
    ensures Fits(Wide(g), Place(Wide(g)), len) <==> g.sizeY * Samples(g.sizeX) <= rows * g.sizeX
  {
    var w := Wide(g);
    forall k, j, i ensures Address(1, LineStep(g.RowCells(), g.sizeZ, g.sizeX), g.sizeZ, k, j, i) == Place(w)(j, i, k) {
      AddressX(g, k, j, i);
    }
    XCells(g, len);
    FitsIff(w, len);
    WideCells(g.sizeY, Samples(g.sizeX), g.sizeZ, rows, g.sizeX);
  }

  lemma WideCells(y: int, m: int, z: int, rows: int, x: int)
    requires z > 0
    ensures y * (m * z) <= rows * (x * z) <==> y * m <= rows * x
  {
    assert y * (m * z) == (y * m) * z && rows * (x * z) == (rows * x) * z;
    CancelCells(y * m, rows * x, z);
  }

  lemma XCells(g: Geometry, len: int)
    requires forall k, j, i :: Address(1, LineStep(g.RowCells(), g.sizeZ, g.sizeX), g.sizeZ, k, j, i) == Place(Wide(g))(j, i, k)
    ensures PassInside(1, g.RowCells(), g.sizeZ, g.sizeZ, g.sizeY, g.sizeX, len) <==> Fits(Wide(g), Place(Wide(g)), len)
  {
    var w := Wide(g);
    if PassInside(1, g.RowCells(), g.sizeZ, g.sizeZ, g.sizeY, g.sizeX, len) {
      forall y, x, z | InGrid(w, y, x, z) ensures 0 <= Place(w)(y, x, z) < len {
        assert InLines(g.sizeZ, g.sizeY, Samples(g.sizeX), z, y, x);
      }
    }
    if Fits(w, Place(w), len) {
      forall k, j, i | InLines(g.sizeZ, g.sizeY, Samples(g.sizeX), k, j, i)
        ensures 0 <= Address(1, LineStep(g.RowCells(), g.sizeZ, g.sizeX), g.sizeZ, k, j, i) < len
      {
        assert InGrid(w, j, i, k);
      }
    }
  }

  // ---------------------------------------------------------------- along y

  lemma RowInBuffer(g: Geometry, rows: int, r: int, x: int, z: int)
    requires InRow(g, x, z)
    ensures 0 <= At(g, r, x, z) < rows * g.RowCells() <==> 0 <= r < rows
  {
    var n, c := g.RowCells(), Idx(g.sizeZ, x, z);
    IdxInRange(g.sizeZ, g.sizeX, x, z);
    if r < 0 {
      MulMonotone(r + 1, 0, n);
      Distribute(r, 1, n);
    } else if r >= rows {
      MulMonotone(rows, r, n);
    } else {
      AtInRange(g, rows, r, x, z);
    }
  }

  lemma SkewFitsIff(g: Geometry, rows: int)
    requires g.Sizes()
    ensures SkewFits(g, rows) <==> (g.sizeX - 1) * Drift(g) + Samples(g.sizeY) <= rows
  {
    var d, m := Drift(g), Samples(g.sizeY);
    if (g.sizeX - 1) * d + m <= rows {
      forall j, i | 0 <= j < g.sizeX && 0 <= i < m ensures 0 <= SkewRow(g, j, i) < rows {
        MulMonotone(0, j, d);
        MulMonotone(j, g.sizeX - 1, d);
      }
    }
    if SkewFits(g, rows) {
      assert 0 <= SkewRow(g, g.sizeX - 1, m - 1) < rows;
    }
  }

  lemma YInsideIff(g: Geometry, rows: int, len: int)
    requires g.Sizes() && len == rows * g.RowCells()
    ensures PassInside(1, g.sizeZ, g.RowCells(), g.sizeZ, g.sizeX, g.sizeY, len) <==> SkewFits(g, rows)
  {
    var step, m := LineStep(g.sizeZ, g.RowCells(), g.sizeY), Samples(g.sizeY);
    if PassInside(1, g.sizeZ, g.RowCells(), g.sizeZ, g.sizeX, g.sizeY, len) {
      forall j, i | 0 <= j < g.sizeX && 0 <= i < m ensures 0 <= SkewRow(g, j, i) < rows {
        assert InLines(g.sizeZ, g.sizeX, m, 0, j, i);
        AddressY(g, 0, j, i);
        RowInBuffer(g, rows, SkewRow(g, j, i), j, 0);
      }
    }
    if SkewFits(g, rows) {
      forall k, j, i | InLines(g.sizeZ, g.sizeX, m, k, j, i) ensures 0 <= Address(1, step, g.RowCells(), k, j, i) < len {
        AddressY(g, k, j, i);
        RowInBuffer(g, rows, SkewRow(g, j, i), j, k);
      }
    }
  }

  // ---------------------------------------------------------------- the exact condition

  /** What a caller could check: room for the widened rows and for the last column's last row. */
  predicate BlurFits(g: Geometry, rows: int) {
    && g.sizeY * Samples(g.sizeX) <= rows * g.sizeX
    && (g.sizeX - 1) * Drift(g) + Samples(g.sizeY) <= rows
  }

  lemma ZInside(g: Geometry, rows: int, len: int)
    requires g.Sizes() && g.sizeZ >= 4 && len == rows * g.RowCells() && g.sizeY <= rows
    ensures PassInside(g.sizeZ, g.RowCells(), 1, g.sizeX, g.sizeY, g.sizeZ, len)
  {
    forall k, j, i | InLines(g.sizeX, g.sizeY, Samples(g.sizeZ), k, j, i)
      ensures 0 <= Address(g.sizeZ, LineStep(g.RowCells(), 1, g.sizeZ), 1, k, j, i) < len
    {
      AddressZ(g, k, j, i);
      AtInRange(g, rows, j, k, i);
    }
  }

  /** The three passes touch only cells of the buffer if and only if the grid is wide and high enough for them. */
  lemma BlurStaysInBuffer(g: Geometry)
    requires g.Valid()
    ensures var n, len := g.RowCells(), Rows(g) * g.RowCells();
            (PassInside(1, n, g.sizeZ, g.sizeZ, g.sizeY, g.sizeX, len)
             && PassInside(1, g.sizeZ, n, g.sizeZ, g.sizeX, g.sizeY, len)
             && PassInside(g.sizeZ, n, 1, g.sizeX, g.sizeY, g.sizeZ, len))
            <==> BlurFits(g, Rows(g))
  {
    var len := Rows(g) * g.RowCells();
    EnoughRows(g);
    XInsideIff(g, Rows(g), len);
    YInsideIff(g, Rows(g), len);
    SkewFitsIff(g, Rows(g));
    ZInside(g, Rows(g), len);
  }

  /** Four points along both axes are enough. */
  lemma RegularGridFits(g: Geometry)
    requires g.Valid() && g.sizeX >= 4 && g.sizeY >= 4
    ensures BlurFits(g, Rows(g)) && Wide(g) == g && Drift(g) == 0
  {
    EnoughRows(g);
    MulMonotone(g.sizeY, Rows(g), g.sizeX);
  }

  /** A 100 x 1 image: on one thread the y pass leaves the buffer. */
  lemma ElongatedImageOverruns(g: Geometry)
    requires g == Init(100, 1, 1.0, 10.0, 1)
    ensures g.sizeX == 101 && g.sizeY == 2 && !BlurFits(g, Rows(g))
  {
    assert Coarse(100, 1.0) == 100 && Coarse(1, 1.0) == 4;
    assert SpatialSigma(100, 1, 1.0) == 1.0;
    assert g.sliceRows == 4 && Rows(g) == 4 && Drift(g) == 2;
  }

  // ---------------------------------------------------------------- the three passes

  /** The x pass over the widened grid, the y pass over the sliding columns, the z pass. */
  ghost predicate Chain(g: Geometry, b0: seq<real>, b1: seq<real>, b2: seq<real>, b3: seq<real>) {
    && Passed(Smooth(), CellX(Place(Wide(g))), g.sizeZ, g.sizeY, Samples(g.sizeX), b0, b1)
    && Passed(Smooth(), Skew(g), g.sizeZ, g.sizeX, Samples(g.sizeY), b1, b2)
    && Passed(Slope(), CellZ(Place(g)), g.sizeX, g.sizeY, g.sizeZ, b2, b3)
  }

  /** On a regular grid that is the separable composition of the stencils. */
  lemma RegularChain(g: Geometry, b0: seq<real>, b1: seq<real>, b2: seq<real>, b3: seq<real>)
    requires Chain(g, b0, b1, b2, b3) && g.sizeX >= 4 && g.sizeY >= 4
    ensures var at := Place(g);
            SameField(GridField(g, at, b3), AlongZ(g, Slope(), AlongY(g, Smooth(), AlongX(g, Smooth(), GridField(g, at, b0)))))
  {
    var at := Place(g);
    assert Wide(g) == g;
    assert forall k, j, i :: Skew(g)(k, j, i) == at(i, j, k);
    PassX(g, at, CellX(at), Smooth(), b0, b1);
    PassY(g, at, Skew(g), Smooth(), b1, b2);
    PassZ(g, at, CellZ(at), Slope(), b2, b3);
    var f1 := AlongX(g, Smooth(), GridField(g, at, b0));
    SameAlong(g, Smooth(), GridField(g, at, b1), f1);
    SameAlong(g, Slope(), GridField(g, at, b2), AlongY(g, Smooth(), f1));
  }

  /** A grid that was one at a single point now holds the product of the three weights around it. */
  ghost predicate SpreadsUnits(g: Geometry, b: seq<real>, b': seq<real>) {
    forall y0, x0, z0, y, x, z ::
      (InGrid(g, y0, x0, z0) && InGrid(g, y, x, z) && IsUnit(GridField(g, Place(g), b), y0, x0, z0)) ==>
        GridField(g, Place(g), b')(y, x, z) == SlopeWeight(z - z0) * (SmoothWeight(y - y0) * SmoothWeight(x - x0))
  }

  lemma BlurSpreadsUnits(g: Geometry, b: seq<real>, b': seq<real>)
    requires var at := Place(g);
             SameField(GridField(g, at, b'), AlongZ(g, Slope(), AlongY(g, Smooth(), AlongX(g, Smooth(), GridField(g, at, b)))))
    ensures SpreadsUnits(g, b, b')
  {
    var f := GridField(g, Place(g), b);
    forall y0, x0, z0, y, x, z | InGrid(g, y0, x0, z0) && InGrid(g, y, x, z) && IsUnit(f, y0, x0, z0)
      ensures GridField(g, Place(g), b')(y, x, z) == SlopeWeight(z - z0) * (SmoothWeight(y - y0) * SmoothWeight(x - x0))
    {
      UnitSpreads(g, f, y0, x0, z0, y, x, z);
    }
  }

  method BlurX(g: Geometry, buf: array<real>)
    requires g.Valid() && buf.Length == Rows(g) * g.RowCells() && BlurFits(g, Rows(g))
    modifies buf
    ensures Passed(Smooth(), CellX(Place(Wide(g))), g.sizeZ, g.sizeY, Samples(g.sizeX), old(buf[..]), buf[..])
  {
    var ox, oy, oz := g.sizeZ, g.RowCells(), 1;
    XInsideIff(g, Rows(g), buf.Length);
    SeparateX(Wide(g), buf.Length);
    WideStep(g);
    BlurLines(Smooth(), buf, oz, oy, ox, g.sizeZ, g.sizeY, g.sizeX, CellX(Place(Wide(g))));
  }

  method BlurY(g: Geometry, buf: array<real>)
    requires g.Valid() && buf.Length == Rows(g) * g.RowCells() && BlurFits(g, Rows(g))
    modifies buf
    ensures Passed(Smooth(), Skew(g), g.sizeZ, g.sizeX, Samples(g.sizeY), old(buf[..]), buf[..])
  {
    var ox, oy, oz := g.sizeZ, g.RowCells(), 1;
    SkewFitsIff(g, Rows(g));
    SeparateY(g, Rows(g), buf.Length);
    BlurLines(Smooth(), buf, oz, ox, oy, g.sizeZ, g.sizeX, g.sizeY, Skew(g));
  }

  method BlurZ(g: Geometry, buf: array<real>)
    requires g.Valid() && buf.Length == Rows(g) * g.RowCells()
    modifies buf
    ensures Passed(Slope(), CellZ(Place(g)), g.sizeX, g.sizeY, g.sizeZ, old(buf[..]), buf[..])
  {
    var ox, oy, oz := g.sizeZ, g.RowCells(), 1;
    EnoughRows(g);
    MulMonotone(g.sizeY, Rows(g), g.RowCells());
    FitsIff(g, buf.Length);
    SeparateZ(g, buf.Length);
    BlurLines(Slope(), buf, ox, oy, oz, g.sizeX, g.sizeY, g.sizeZ, CellZ(Place(g)));
  }

  /**
    dt_bilateral_blur on every grid it stays inside of. With at least four points along x and y it is the
    separable composition of its three stencils.
   */
  method Blur(grid: Grid)
    requires grid.Valid() && BlurFits(grid.g, Rows(grid.g))
    modifies grid.buf
    ensures exists b1, b2 :: Chain(grid.g, old(grid.buf[..]), b1, b2, grid.buf[..])
    ensures grid.g.sizeX >= 4 && grid.g.sizeY >= 4 ==>
              var g, at := grid.g, Place(grid.g);
              SameField(GridField(g, at, grid.buf[..]),
                        AlongZ(g, Slope(), AlongY(g, Smooth(), AlongX(g, Smooth(), GridField(g, at, old(grid.buf[..]))))))
    ensures grid.g.sizeX >= 4 && grid.g.sizeY >= 4 ==> SpreadsUnits(grid.g, old(grid.buf[..]), grid.buf[..])
  {
    ghost var b0 := grid.buf[..];
    BlurX(grid.g, grid.buf);
    ghost var b1 := grid.buf[..];
    BlurY(grid.g, grid.buf);
    ghost var b2 := grid.buf[..];
    BlurZ(grid.g, grid.buf);
    assert Chain(grid.g, b0, b1, b2, grid.buf[..]);
    if grid.g.sizeX >= 4 && grid.g.sizeY >= 4 {
      RegularChain(grid.g, b0, b1, b2, grid.buf[..]);
      BlurSpreadsUnits(grid.g, b0, grid.buf[..]);
    }
  }
}
