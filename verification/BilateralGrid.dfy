/** The bilateral grid as an object: dt_bilateral_init and dt_bilateral_splat. */
module BilateralGrid {
  import opened Numeric
  import opened BilateralGeometry
  import opened BilateralSplat
  import opened BilateralFormula

  /** dt_bilateral_t with its sample buffer. */
  class Grid {
    const g: Geometry
    const buf: array<real>
    ghost const sigmaS: real // as passed to dt_bilateral_init
    ghost const sigmaR: real

    ghost predicate Valid() {
      && g.Valid() && sigmaS > 0.0 && sigmaR > 0.0
      && g == Init(g.width, g.height, sigmaS, sigmaR, g.slices)
      && buf.Length == Idx(g.sliceRows, g.slices, 0) * g.RowCells()
      && Reciprocals(g)
    }

    /** dt_bilateral_init: the geometry and a zeroed buffer. */
    constructor (width: int, height: int, sigmaS: real, sigmaR: real, threads: int)
      requires width >= 1 && height >= 1 && sigmaS > 0.0 && sigmaR > 0.0 && threads >= 1
      ensures Valid() && fresh(buf) && g == Init(width, height, sigmaS, sigmaR, threads)
      ensures forall p :: 0 <= p < buf.Length ==> buf[p] == 0.0
    {
      var geo := Init(width, height, sigmaS, sigmaR, threads);
      GridSizeBounds(width, height, sigmaS, sigmaR, threads);
      InitReciprocals(width, height, sigmaS, sigmaR, threads);
      assert geo.RowCells() >= 0 by { MulMonotone(0, geo.sizeX, geo.sizeZ); }
      assert Idx(geo.sliceRows, geo.slices, 0) >= 0 by { EnoughRows(geo); }
      var rows, n := Idx(geo.sliceRows, geo.slices, 0), geo.RowCells();
      assert rows * n >= 0 by { MulMonotone(0, rows, n); }
      g := geo;
      this.sigmaS, this.sigmaR := sigmaS, sigmaR;
      buf := new real[rows * n](_ => 0.0);
    }

    /** The final grid value at (x, y, z). */
    ghost function Value(y: int, x: int, z: int): real
      reads buf
      requires Valid() && InBuffer(g, g.sizeY, y, x, z)
    {
      EnoughRows(g);
      AtInRange(g, Idx(g.sliceRows, g.slices, 0), y, x, z);
      buf[At(g, y, x, z)]
    }

    /**
      The sliced splat and in-place merge leave exactly the direct splat in the final grid rows, for
      every image, every thread count and every order of the parallel slices: the closed form, with
      m = 100 / sigma_s^2. The precondition is the exact one of `MergeStaysInBuffer`.
     */
    method Splat(img: seq<real>)
      requires Valid() && forall p :: 0 <= p < buf.Length ==> buf[p] == 0.0
      requires g.width >= 2 || g.height >= 2 || g.slices <= 4
      modifies buf
      ensures forall y, x, z :: InBuffer(g, g.sizeY, y, x, z) ==> Value(y, x, z) == Direct(g, img, y, x, z)
      ensures forall m, y, x, z :: IsPixelMass(g, m) && InBuffer(g, g.sizeY, y, x, z) ==>
                Value(y, x, z) == Formula(g, img, m, y, x, z)
    {
      SplatAndMerge(img);
      DirectIsClosed(g, img);
    }

    method SplatAndMerge(img: seq<real>)
      requires Valid() && forall p :: 0 <= p < buf.Length ==> buf[p] == 0.0
      requires g.width >= 2 || g.height >= 2 || g.slices <= 4
      modifies buf
      ensures forall y, x, z :: InBuffer(g, g.sizeY, y, x, z) ==> Value(y, x, z) == Direct(g, img, y, x, z)
    {
      var f := Payload(g);
      ghost var rows := Idx(g.sliceRows, g.slices, 0);
      ScaledVanishes(PixelMass(g));
      SigmaAtLeastHalf(g.width, g.height, sigmaS, sigmaR, g.slices);
      LayoutHolds(g);
      EnoughRows(g);
      SizedBuffer(g, rows, buf.Length);
      SplatSlices(g, f, img, buf, rows);
      Merge(g, f, img, buf, rows);
    }
  }
}
