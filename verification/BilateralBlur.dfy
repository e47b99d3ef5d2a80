/**
  dt_bilateral_blur: three in-place passes over strided lines of the grid. Both line filters keep two
  old samples in temporaries and share one shape, so they are one method over a five-tap `Stencil`.
 */
module BilateralBlur {
  import opened Numeric
  import opened BilateralGeometry
  import opened BilateralSplat

  type Stencil = (real, real, real, real, real) -> real

  /** The taps of blur_line: [1, 4, 6, 4, 1] / 16. */
  function Smooth(): Stencil {
    (a, b, c, d, e) => c * (6.0 / 16.0) + (4.0 / 16.0) * (d + b) + (1.0 / 16.0) * (e + a)
  }

  /** The taps of blur_line_z: [-2, -4, 0, 4, 2] / 16. */
  function Slope(): Stencil {
    (a, b, c, d, e) => (4.0 / 16.0) * (d - b) + (2.0 / 16.0) * (e - a)
  }

  /** Zero padding. */
  function Tap(line: seq<real>, i: int): real { if 0 <= i < |line| then line[i] else 0.0 }

  /** The reference filter: a zero-padded five-tap convolution. */
  function Filtered(st: Stencil, line: seq<real>, i: int): real {
    st(Tap(line, i - 2), Tap(line, i - 1), Tap(line, i), Tap(line, i + 1), Tap(line, i + 2))
  }

  // ---------------------------------------------------------------- what the stencils do

  /** The share of a unit sample that ends up k samples behind it: 1, 4, 6, 4, 1 over 16. */
  function SmoothWeight(k: int): real {
    if k == 0 then 6.0 / 16.0 else if k == 1 || k == -1 then 4.0 / 16.0 else if k == 2 || k == -2 then 1.0 / 16.0 else 0.0
  }

  /** 2, 4, 0, -4, -2 over 16. */
  function SlopeWeight(k: int): real {
    if k == -2 then 2.0 / 16.0 else if k == -1 then 4.0 / 16.0
    else if k == 1 then -4.0 / 16.0 else if k == 2 then -2.0 / 16.0 else 0.0
  }

  lemma Stencils(a: real, b: real, c: real, d: real, e: real)
    ensures Smooth()(a, b, c, d, e) == (a + 4.0 * b + 6.0 * c + 4.0 * d + e) / 16.0
    ensures Slope()(a, b, c, d, e) == (2.0 * e + 4.0 * d - 4.0 * b - 2.0 * a) / 16.0
  {}

  /** A value v at t and nothing else, seen from i. */
  function Spike(t: int, v: real, i: int): real { if i == t then v else 0.0 }

  lemma SpikeSpreads(t: int, v: real, i: int)
    ensures Smooth()(Spike(t, v, i - 2), Spike(t, v, i - 1), Spike(t, v, i), Spike(t, v, i + 1), Spike(t, v, i + 2))
         == SmoothWeight(i - t) * v
    ensures Slope()(Spike(t, v, i - 2), Spike(t, v, i - 1), Spike(t, v, i), Spike(t, v, i + 1), Spike(t, v, i + 2))
         == SlopeWeight(i - t) * v
  {
    Stencils(Spike(t, v, i - 2), Spike(t, v, i - 1), Spike(t, v, i), Spike(t, v, i + 1), Spike(t, v, i + 2));
  }

  /** A unit sample spreads as 1, 4, 6, 4, 1 over 16, and as 2, 4, 0, -4, -2 over 16. */
  lemma UnitSample(line: seq<real>, t: int, i: int)
    requires 0 <= t < |line| && line[t] == 1.0 && forall j :: 0 <= j < |line| && j != t ==> line[j] == 0.0
    ensures Filtered(Smooth(), line, i) == SmoothWeight(i - t) && Filtered(Slope(), line, i) == SlopeWeight(i - t)
  {
    SpikeSpreads(t, 1.0, i);
    assert forall j :: Tap(line, j) == Spike(t, 1.0, j);
  }

  /** Away from the ends a constant is kept, and has no slope. */
  lemma ConstantLine(line: seq<real>, c: real, i: int)
    requires (forall j :: 0 <= j < |line| ==> line[j] == c) && 2 <= i < |line| - 2
    ensures Filtered(Smooth(), line, i) == c && Filtered(Slope(), line, i) == 0.0
  {
    Stencils(c, c, c, c, c);
  }

  /** A unit ramp is kept, and has slope one. */
  lemma RampLine(line: seq<real>, c: real, i: int)
    requires (forall j :: 0 <= j < |line| ==> line[j] == c + j as real) && 2 <= i < |line| - 2
    ensures Filtered(Smooth(), line, i) == line[i] && Filtered(Slope(), line, i) == 1.0
  {
    Stencils(line[i - 2], line[i - 1], line[i], line[i + 1], line[i + 2]);
  }

  // ---------------------------------------------------------------- one line

  /** addr(i) is the cell of sample i of a line with stride o. */
  ghost predicate Strided(addr: int -> int, o: int) {
    && (forall i :: Step(addr, i, o))
    && (forall i, t :: i != t ==> addr(i) != addr(t))
  }

  predicate Step(addr: int -> int, i: int, o: int) { addr(i + 1) == addr(i) + o }

  ghost predicate OnLine(p: int, addr: int -> int, n: int) {
    exists i :: 0 <= i < n && p == addr(i)
  }

  /** Part of a line filtered: the first i samples are new, the rest still old, nothing else touched. */
  ghost predicate HalfDone(st: Stencil, b: seq<real>, b': seq<real>, addr: int -> int, line: seq<real>, i: int) {
    && |b'| == |b|
    && (forall t :: 0 <= t < |line| ==> 0 <= addr(t) < |b|)
    && (forall t :: 0 <= t < |line| ==> b'[addr(t)] == if t < i then Filtered(st, line, t) else line[t])
    && (forall p :: 0 <= p < |b| && !OnLine(p, addr, |line|) ==> b'[p] == b[p])
  }

  /** What the filter reads at sample i: old values from i on. */
  lemma Ahead(st: Stencil, b: seq<real>, b': seq<real>, addr: int -> int, o: int, line: seq<real>, i: int)
    requires Strided(addr, o) && 0 <= i < |line| && HalfDone(st, b, b', addr, line, i)
    ensures 0 <= addr(i) < |b'| && b'[addr(i)] == line[i]
    ensures addr(i) + o == addr(i + 1)
    ensures i + 1 < |line| ==> 0 <= addr(i) + o < |b'| && b'[addr(i) + o] == line[i + 1]
    ensures i + 2 < |line| ==> 0 <= addr(i) + 2 * o < |b'| && b'[addr(i) + 2 * o] == line[i + 2]
  {
    assert Step(addr, i, o) && Step(addr, i + 1, o);
  }

  method Store(st: Stencil, buf: array<real>, index: int, v: real,
               ghost b: seq<real>, ghost addr: int -> int, ghost o: int, ghost line: seq<real>, ghost i: int)
    requires Strided(addr, o) && 0 <= i < |line| && HalfDone(st, b, buf[..], addr, line, i)
    requires index == addr(i) && v == Filtered(st, line, i)
    modifies buf
    ensures HalfDone(st, b, buf[..], addr, line, i + 1)
  {
    assert 0 <= index < buf.Length;
    ghost var before := buf[..];
    buf[index] := v;
    assert buf[..] == before[index := v];
    assert OnLine(index, addr, |line|);
  }

  /**
    One sample: `right` right neighbours are still on the line, the two left ones come in as
    temporaries. Returns the old sample, which the source keeps as the next temporary.
   */
  method Update(st: Stencil, buf: array<real>, index: int, o: int, tmp1: real, tmp2: real, right: int,
                ghost b: seq<real>, ghost addr: int -> int, ghost line: seq<real>, ghost i: int)
    returns (tmp3: real)
    requires Strided(addr, o) && 0 <= i < |line| && HalfDone(st, b, buf[..], addr, line, i)
    requires index == addr(i) && right == Min(2, |line| - 1 - i)
    requires tmp1 == Tap(line, i - 2) && tmp2 == Tap(line, i - 1)
    modifies buf
    ensures HalfDone(st, b, buf[..], addr, line, i + 1)
    ensures tmp3 == line[i] && index + o == addr(i + 1)
  {
    ghost var now := buf[..];
    Ahead(st, b, now, addr, o, line, i);
    tmp3 := buf[index];
    var next, next2 := 0.0, 0.0;
    if right >= 1 { next := buf[index + o]; }
    if right >= 2 { next2 := buf[index + 2 * o]; }
    assert next == Tap(line, i + 1) && next2 == Tap(line, i + 2) && tmp3 == Tap(line, i);
    Store(st, buf, index, st(tmp1, tmp2, tmp3, next, next2), b, addr, o, line, i);
  }

  /**
    The body of the inner loop of blur_line and blur_line_z for one line. A line shorter than four is
    processed as if it had four samples.
   */
  method BlurLine(st: Stencil, buf: array<real>, start: int, o: int, size: int,
                  ghost addr: int -> int, ghost line: seq<real>)
    requires Strided(addr, o) && start == addr(0) && |line| == Max(size, 4)
    requires HalfDone(st, buf[..], buf[..], addr, line, 0)
    modifies buf
    ensures HalfDone(st, old(buf[..]), buf[..], addr, line, |line|)
  {
    ghost var b := buf[..];
    var index := start;
    var tmp1 := Update(st, buf, index, o, 0.0, 0.0, 2, b, addr, line, 0);
    index := index + o;
    var tmp2 := Update(st, buf, index, o, 0.0, tmp1, 2, b, addr, line, 1);
    index := index + o;
    var i := 2;
    while i < size - 2
      invariant 2 <= i <= |line| - 2
      invariant index == addr(i) && tmp1 == line[i - 2] && tmp2 == line[i - 1]
      invariant HalfDone(st, b, buf[..], addr, line, i)
    {
      var tmp3 := Update(st, buf, index, o, tmp1, tmp2, 2, b, addr, line, i);
      index := index + o;
      tmp1 := tmp2;
      tmp2 := tmp3;
      i := i + 1;
    }
    var tmp3 := Update(st, buf, index, o, tmp1, tmp2, 1, b, addr, line, i);
    index := index + o;
    var _ := Update(st, buf, index, o, tmp2, tmp3, 0, b, addr, line, i + 1);
  }

  /** What a line filter is for: convolve the line's own samples and leave the following cells alone. */
  ghost predicate FiltersOwnLine(st: Stencil, size: int, line: seq<real>)
    requires size >= 0 && |line| == Max(size, 4)
  {
    && (forall i :: 0 <= i < size ==> Filtered(st, line, i) == Filtered(st, line[..size], i))
    && (forall i :: size <= i < |line| ==> Filtered(st, line, i) == line[i])
  }

  /** Both line filters do that exactly on lines of at least four samples. */
  lemma FiltersOwnLineIff(st: Stencil, size: int)
    requires size >= 0 && (st == Smooth() || st == Slope())
    ensures (forall line :: |line| == Max(size, 4) ==> FiltersOwnLine(st, size, line)) <==> size >= 4
  {
    if size >= 4 {
      forall line: seq<real> | |line| == Max(size, 4)
        ensures FiltersOwnLine(st, size, line)
      {
        assert line[..size] == line;
      }
    } else {
      var line := [0.0, 0.0, 0.0, 1.0];
      assert Filtered(st, line, 3) == st(0.0, 0.0, 1.0, 0.0, 0.0);
      assert !FiltersOwnLine(st, size, line);
    }
  }

  /** Elongated images do produce such short lines: 100 x 1 pixels give two grid rows. */
  lemma ShortAxisHappens()
    ensures Init(100, 1, 1.0, 10.0, 1).sizeY == 2
  {
    assert Coarse(100, 1.0) == 100;
    assert Coarse(1, 1.0) == 4;
    assert SpatialSigma(100, 1, 1.0) == 1.0;
  }

  // ---------------------------------------------------------------- all lines of the grid

  /** cell(k, j, i) is sample i of line (k, j). */
  type Cells = (int, int, int) -> int

  predicate InLines(n1: int, n2: int, n3: int, k: int, j: int, i: int) {
    0 <= k < n1 && 0 <= j < n2 && 0 <= i < n3
  }

  /** Strides o1, o2, o3 that address the n1 x n2 x n3 samples injectively. */
  ghost predicate Separate(cell: Cells, o1: int, o2: int, o3: int, n1: int, n2: int, n3: int, len: int) {
    && (forall k :: cell(k, 0, 0) == k * o1)
    && (forall k, j :: NextLine(cell, k, j, o2))
    && (forall k, j :: Strided(LineCells(cell, k, j), o3))
    && (forall k, j, i :: InLines(n1, n2, n3, k, j, i) ==> 0 <= cell(k, j, i) < len)
    && CellsApart(cell, n1, n2, n3)
  }

  ghost predicate CellsApart(cell: Cells, n1: int, n2: int, n3: int) {
    forall k, j, i, k', j', i' ::
      (InLines(n1, n2, n3, k, j, i) && InLines(n1, n2, n3, k', j', i') && cell(k, j, i) == cell(k', j', i'))
      ==> k == k' && j == j' && i == i'
  }

  predicate NextLine(cell: Cells, k: int, j: int, o: int) { cell(k, j + 1, 0) == cell(k, j, 0) + o }

  function LineCells(cell: Cells, k: int, j: int): int -> int { i => cell(k, j, i) }

  /** The samples of line (k, j) in b. */
  ghost function LineOf(b: seq<real>, cell: Cells, n: int, k: int, j: int): (line: seq<real>)
    requires n >= 0 && forall i :: 0 <= i < n ==> 0 <= cell(k, j, i) < |b|
    ensures |line| == n && forall i :: 0 <= i < n ==> line[i] == b[cell(k, j, i)]
  {
    seq(n, i requires 0 <= i < n => b[cell(k, j, i)])
  }

  predicate Earlier(k: int, j: int, k0: int, j0: int) { k < k0 || (k == k0 && j < j0) }

  /** Lines before (k0, j0) are filtered, the others untouched. */
  ghost predicate LinesDone(st: Stencil, cell: Cells, n1: int, n2: int, n3: int, b: seq<real>, b': seq<real>, k0: int, j0: int)
    requires n3 >= 0 && forall k, j, i :: InLines(n1, n2, n3, k, j, i) ==> 0 <= cell(k, j, i) < |b|
  {
    && |b'| == |b|
    && (forall k, j, i :: InLines(n1, n2, n3, k, j, i) ==>
          b'[cell(k, j, i)] ==
          if Earlier(k, j, k0, j0) then LineValue(st, cell, n1, n2, n3, b, k, j, i) else b[cell(k, j, i)])
    && (forall p :: 0 <= p < |b| && b'[p] != b[p] ==> exists k, j, i :: InLines(n1, n2, n3, k, j, i) && p == cell(k, j, i))
  }

  ghost function LineValue(st: Stencil, cell: Cells, n1: int, n2: int, n3: int, b: seq<real>, k: int, j: int, i: int): real
    requires forall k, j, i :: InLines(n1, n2, n3, k, j, i) ==> 0 <= cell(k, j, i) < |b|
    requires InLines(n1, n2, n3, k, j, i)
  {
    assert forall t :: 0 <= t < n3 ==> InLines(n1, n2, n3, k, j, t);
    Filtered(st, LineOf(b, cell, n3, k, j), i)
  }

  lemma OneLine(st: Stencil, cell: Cells, o1: int, o2: int, o3: int, n1: int, n2: int, n3: int,
                b: seq<real>, b': seq<real>, b'': seq<real>, k0: int, j0: int)
    requires Separate(cell, o1, o2, o3, n1, n2, n3, |b|) && n3 >= 0 && 0 <= k0 < n1 && 0 <= j0 < n2
    requires LinesDone(st, cell, n1, n2, n3, b, b', k0, j0)
    requires forall t :: 0 <= t < n3 ==> 0 <= cell(k0, j0, t) < |b|
    requires HalfDone(st, b', b'', LineCells(cell, k0, j0), LineOf(b, cell, n3, k0, j0), n3)
    ensures LinesDone(st, cell, n1, n2, n3, b, b'', k0, j0 + 1)
  {
    var addr, line := LineCells(cell, k0, j0), LineOf(b, cell, n3, k0, j0);
    forall k, j, i | InLines(n1, n2, n3, k, j, i)
      ensures b''[cell(k, j, i)] ==
              if Earlier(k, j, k0, j0 + 1) then LineValue(st, cell, n1, n2, n3, b, k, j, i) else b[cell(k, j, i)]
    {
      if k == k0 && j == j0 {
        assert addr(i) == cell(k, j, i);
      } else {
        assert !OnLine(cell(k, j, i), addr, n3);
      }
    }
    forall p | 0 <= p < |b| && b''[p] != b[p]
      ensures exists k, j, i :: InLines(n1, n2, n3, k, j, i) && p == cell(k, j, i)
    {
      if OnLine(p, addr, n3) {
        var t :| 0 <= t < n3 && p == addr(t);
        assert InLines(n1, n2, n3, k0, j0, t) && p == cell(k0, j0, t);
      }
    }
  }

  /** Both line loops run over at least four samples. */
  function Samples(n3: int): int { Max(n3, 4) }

  /** From the start of one line to the next: what a short line overshoots is not taken back. */
  function LineStep(o2: int, o3: int, n3: int): int { o2 + (Samples(n3) - n3) * o3 }

  /** blur_line and blur_line_z: every line, in place; lines shorter than four samples drift. */
  method BlurLines(st: Stencil, buf: array<real>, o1: int, o2: int, o3: int, n1: int, n2: int, n3: int, ghost cell: Cells)
    requires Separate(cell, o1, LineStep(o2, o3, n3), o3, n1, n2, Samples(n3), buf.Length)
    modifies buf
    ensures LinesDone(st, cell, n1, n2, Samples(n3), old(buf[..]), buf[..], n1, 0)
  {
    ghost var b := buf[..];
    var k := 0;
    while k < n1
      invariant 0 <= k && (k <= n1 || k == 0)
      invariant LinesDone(st, cell, n1, n2, Samples(n3), b, buf[..], k, 0)
    {
      k := BlurPlane(st, buf, o1, o2, o3, n1, n2, n3, cell, b, k, LineStep(o2, o3, n3));
    }
  }

  /** The lines of one k. */
  method BlurPlane(st: Stencil, buf: array<real>, o1: int, o2: int, o3: int, ghost n1: int, n2: int, n3: int,
                   ghost cell: Cells, ghost b: seq<real>, k: int, ghost step: int) returns (k': int)
    requires step == LineStep(o2, o3, n3) && Separate(cell, o1, step, o3, n1, n2, Samples(n3), |b|) && 0 <= k < n1
    requires LinesDone(st, cell, n1, n2, Samples(n3), b, buf[..], k, 0)
    modifies buf
    ensures k' == k + 1 && LinesDone(st, cell, n1, n2, Samples(n3), b, buf[..], k', 0)
  {
    var index := k * o1;
    var j := 0;
    while j < n2
      invariant 0 <= j && (j <= n2 || j == 0) && index == cell(k, j, 0)
      invariant LinesDone(st, cell, n1, n2, Samples(n3), b, buf[..], k, j)
    {
      BlurOneLine(st, buf, index, o1, step, o3, n1, n2, n3, Samples(n3), cell, b, k, j);
      assert NextLine(cell, k, j, step);
      index := NextIndex(index, o2, o3, n3);
      j := j + 1;
    }
    k' := k + 1;
    NextPlane(st, cell, n1, n2, Samples(n3), b, buf[..], k, j);
  }

  /** The index moves with every sample, and then by what is missing from the line to the next. */
  method NextIndex(index: int, o2: int, o3: int, n3: int) returns (next: int)
    ensures next == index + LineStep(o2, o3, n3)
  {
    next := index + o3 * Samples(n3);
    next := next + (o2 - o3 * n3);
    Distribute(Samples(n3), -n3, o3);
  }

  lemma NextPlane(st: Stencil, cell: Cells, n1: int, n2: int, n3: int, b: seq<real>, b': seq<real>, k: int, j: int)
    requires n3 >= 0 && forall k, j, i :: InLines(n1, n2, n3, k, j, i) ==> 0 <= cell(k, j, i) < |b|
    requires j >= n2 && LinesDone(st, cell, n1, n2, n3, b, b', k, j)
    ensures LinesDone(st, cell, n1, n2, n3, b, b', k + 1, 0)
  {
    forall k0, j0, i0 | InLines(n1, n2, n3, k0, j0, i0) ensures Earlier(k0, j0, k, j) <==> Earlier(k0, j0, k + 1, 0) {}
  }

  method BlurOneLine(st: Stencil, buf: array<real>, index: int, ghost o1: int, ghost o2: int, o3: int,
                     ghost n1: int, ghost n2: int, size: int, ghost n3: int, ghost cell: Cells, ghost b: seq<real>, ghost k: int, ghost j: int)
    requires n3 == Samples(size) && Separate(cell, o1, o2, o3, n1, n2, n3, |b|) && 0 <= k < n1 && 0 <= j < n2
    requires LinesDone(st, cell, n1, n2, n3, b, buf[..], k, j) && index == cell(k, j, 0)
    modifies buf
    ensures LinesDone(st, cell, n1, n2, n3, b, buf[..], k, j + 1)
  {
    forall t | 0 <= t < n3 ensures 0 <= cell(k, j, t) < |b| && buf[cell(k, j, t)] == b[cell(k, j, t)] {
      assert InLines(n1, n2, n3, k, j, t);
    }
    ghost var line := LineOf(b, cell, n3, k, j);
    ghost var before := buf[..];
    BlurLine(st, buf, index, o3, size, LineCells(cell, k, j), line);
    OneLine(st, cell, o1, o2, o3, n1, n2, n3, b, before, buf[..], k, j);
  }

  // ---------------------------------------------------------------- lines as fields

  type Field = (int, int, int) -> real

  /** Sample i of line (k, j), zero outside. */
  function Sample(cell: Cells, n1: int, n2: int, n3: int, b: seq<real>, k: int, j: int, i: int): real {
    if InLines(n1, n2, n3, k, j, i) && 0 <= cell(k, j, i) < |b| then b[cell(k, j, i)] else 0.0
  }

  function LinesField(cell: Cells, n1: int, n2: int, n3: int, b: seq<real>): Field {
    (k, j, i) => Sample(cell, n1, n2, n3, b, k, j, i)
  }

  /** A whole pass: every line holds its filtered samples and nothing else has changed. */
  ghost predicate Passed(st: Stencil, cell: Cells, n1: int, n2: int, n3: int, b: seq<real>, b': seq<real>) {
    && n3 >= 0 && (forall k, j, i :: InLines(n1, n2, n3, k, j, i) ==> 0 <= cell(k, j, i) < |b|)
    && LinesDone(st, cell, n1, n2, n3, b, b', n1, 0)
  }

  /** Once all lines are done, every cell holds its filtered value. */
  lemma AllLines(st: Stencil, cell: Cells, n1: int, n2: int, n3: int, b: seq<real>, b': seq<real>, k: int, j: int, i: int)
    requires n3 >= 0 && forall k, j, i :: InLines(n1, n2, n3, k, j, i) ==> 0 <= cell(k, j, i) < |b|
    requires LinesDone(st, cell, n1, n2, n3, b, b', n1, 0) && InLines(n1, n2, n3, k, j, i)
    ensures |b'| == |b| && b'[cell(k, j, i)] == LineValue(st, cell, n1, n2, n3, b, k, j, i)
  {}

  /** A tap of a line is a value of the field. */
  lemma TapIsSample(cell: Cells, n1: int, n2: int, n3: int, b: seq<real>, k: int, j: int, t: int)
    requires n3 >= 0 && 0 <= k < n1 && 0 <= j < n2
    requires forall i :: 0 <= i < n3 ==> 0 <= cell(k, j, i) < |b|
    ensures Tap(LineOf(b, cell, n3, k, j), t) == Sample(cell, n1, n2, n3, b, k, j, t)
  {
    if 0 <= t < n3 {
      assert LineOf(b, cell, n3, k, j)[t] == b[cell(k, j, t)];
    }
  }

  lemma FilteredIs(st: Stencil, f: Field, line: seq<real>, k: int, j: int, i: int)
    requires Tap(line, i - 2) == f(k, j, i - 2) && Tap(line, i - 1) == f(k, j, i - 1) && Tap(line, i) == f(k, j, i)
    requires Tap(line, i + 1) == f(k, j, i + 1) && Tap(line, i + 2) == f(k, j, i + 2)
    ensures Filtered(st, line, i) == st(f(k, j, i - 2), f(k, j, i - 1), f(k, j, i), f(k, j, i + 1), f(k, j, i + 2))
  {}

  /** A pass over all lines is the stencil along the lines of the field. */
  lemma LinesPass(st: Stencil, cell: Cells, n1: int, n2: int, n3: int, b: seq<real>, b': seq<real>, k: int, j: int, i: int)
    requires Passed(st, cell, n1, n2, n3, b, b') && InLines(n1, n2, n3, k, j, i)
    ensures var f := LinesField(cell, n1, n2, n3, b);
            LinesField(cell, n1, n2, n3, b')(k, j, i)
            == st(f(k, j, i - 2), f(k, j, i - 1), f(k, j, i), f(k, j, i + 1), f(k, j, i + 2))
  {
    AllLines(st, cell, n1, n2, n3, b, b', k, j, i);
    assert forall t :: 0 <= t < n3 ==> InLines(n1, n2, n3, k, j, t);
    TapIsSample(cell, n1, n2, n3, b, k, j, i - 2);
    TapIsSample(cell, n1, n2, n3, b, k, j, i - 1);
    TapIsSample(cell, n1, n2, n3, b, k, j, i);
    TapIsSample(cell, n1, n2, n3, b, k, j, i + 1);
    TapIsSample(cell, n1, n2, n3, b, k, j, i + 2);
    FilteredIs(st, LinesField(cell, n1, n2, n3, b), LineOf(b, cell, n3, k, j), k, j, i);
  }

  // ---------------------------------------------------------------- the three axes

  predicate InGrid(g: Geometry, y: int, x: int, z: int) { InBuffer(g, g.sizeY, y, x, z) }

  /** Where grid point (y, x, z) is stored. */
  function Place(g: Geometry): Cells { (y, x, z) => At(g, y, x, z) }

  /** A buffer as a field over grid points (y, x, z), zero outside the grid. */
  function GridField(g: Geometry, at: Cells, b: seq<real>): Field {
    (y, x, z) => if InGrid(g, y, x, z) && 0 <= at(y, x, z) < |b| then b[at(y, x, z)] else 0.0
  }

  /** The stencil along one axis of a field at one grid point. */
  function AtX(g: Geometry, st: Stencil, f: Field, y: int, x: int, z: int): real {
    if InGrid(g, y, x, z)
    then st(f(y, x - 2, z), f(y, x - 1, z), f(y, x, z), f(y, x + 1, z), f(y, x + 2, z)) else 0.0
  }

  function AtY(g: Geometry, st: Stencil, f: Field, y: int, x: int, z: int): real {
    if InGrid(g, y, x, z)
    then st(f(y - 2, x, z), f(y - 1, x, z), f(y, x, z), f(y + 1, x, z), f(y + 2, x, z)) else 0.0
  }

  function AtZ(g: Geometry, st: Stencil, f: Field, y: int, x: int, z: int): real {
    if InGrid(g, y, x, z)
    then st(f(y, x, z - 2), f(y, x, z - 1), f(y, x, z), f(y, x, z + 1), f(y, x, z + 2)) else 0.0
  }

  /** The reference passes: the stencil applied along one axis of a zero-padded field. */
  function AlongX(g: Geometry, st: Stencil, f: Field): Field { (y, x, z) => AtX(g, st, f, y, x, z) }
  function AlongY(g: Geometry, st: Stencil, f: Field): Field { (y, x, z) => AtY(g, st, f, y, x, z) }
  function AlongZ(g: Geometry, st: Stencil, f: Field): Field { (y, x, z) => AtZ(g, st, f, y, x, z) }

  ghost predicate SameField(f: Field, h: Field) { forall y, x, z :: f(y, x, z) == h(y, x, z) }

  function CellX(at: Cells): Cells { (k, j, i) => at(j, i, k) }
  function CellZ(at: Cells): Cells { (k, j, i) => at(j, k, i) }

  ghost predicate Fits(g: Geometry, at: Cells, len: int) {
    forall y, x, z :: InGrid(g, y, x, z) ==> 0 <= at(y, x, z) < len
  }

  /** The grid field is the lines field of each axis with its coordinates permuted. */
  lemma FieldOfLines(g: Geometry, at: Cells, cell: Cells, b: seq<real>, y: int, x: int, z: int)
    ensures cell(z, y, x) == at(y, x, z) ==> GridField(g, at, b)(y, x, z) == LinesField(cell, g.sizeZ, g.sizeY, g.sizeX, b)(z, y, x)
    ensures cell(z, x, y) == at(y, x, z) ==> GridField(g, at, b)(y, x, z) == LinesField(cell, g.sizeZ, g.sizeX, g.sizeY, b)(z, x, y)
    ensures cell(x, y, z) == at(y, x, z) ==> GridField(g, at, b)(y, x, z) == LinesField(cell, g.sizeX, g.sizeY, g.sizeZ, b)(x, y, z)
  {}

  lemma PointX(g: Geometry, at: Cells, cell: Cells, st: Stencil, b: seq<real>, b': seq<real>, y: int, x: int, z: int)
    requires (forall k, j, i :: cell(k, j, i) == at(j, i, k)) && Passed(st, cell, g.sizeZ, g.sizeY, g.sizeX, b, b') && InGrid(g, y, x, z)
    ensures GridField(g, at, b')(y, x, z) == AtX(g, st, GridField(g, at, b), y, x, z)
  {
    LinesPass(st, cell, g.sizeZ, g.sizeY, g.sizeX, b, b', z, y, x);
    FieldOfLines(g, at, cell, b', y, x, z);
    FieldOfLines(g, at, cell, b, y, x - 2, z);
    FieldOfLines(g, at, cell, b, y, x - 1, z);
    FieldOfLines(g, at, cell, b, y, x, z);
    FieldOfLines(g, at, cell, b, y, x + 1, z);
    FieldOfLines(g, at, cell, b, y, x + 2, z);
  }

  lemma PassX(g: Geometry, at: Cells, cell: Cells, st: Stencil, b: seq<real>, b': seq<real>)
    requires (forall k, j, i :: cell(k, j, i) == at(j, i, k)) && Passed(st, cell, g.sizeZ, g.sizeY, g.sizeX, b, b')
    ensures SameField(GridField(g, at, b'), AlongX(g, st, GridField(g, at, b)))
  {
    forall y, x, z | InGrid(g, y, x, z)
      ensures GridField(g, at, b')(y, x, z) == AlongX(g, st, GridField(g, at, b))(y, x, z)
    {
      PointX(g, at, cell, st, b, b', y, x, z);
    }
  }

  lemma PointY(g: Geometry, at: Cells, cell: Cells, st: Stencil, b: seq<real>, b': seq<real>, y: int, x: int, z: int)
    requires (forall k, j, i :: cell(k, j, i) == at(i, j, k)) && Passed(st, cell, g.sizeZ, g.sizeX, g.sizeY, b, b') && InGrid(g, y, x, z)
    ensures GridField(g, at, b')(y, x, z) == AtY(g, st, GridField(g, at, b), y, x, z)
  {
    LinesPass(st, cell, g.sizeZ, g.sizeX, g.sizeY, b, b', z, x, y);
    FieldOfLines(g, at, cell, b', y, x, z);
    FieldOfLines(g, at, cell, b, y - 2, x, z);
    FieldOfLines(g, at, cell, b, y - 1, x, z);
    FieldOfLines(g, at, cell, b, y, x, z);
    FieldOfLines(g, at, cell, b, y + 1, x, z);
    FieldOfLines(g, at, cell, b, y + 2, x, z);
  }

  lemma PassY(g: Geometry, at: Cells, cell: Cells, st: Stencil, b: seq<real>, b': seq<real>)
    requires (forall k, j, i :: cell(k, j, i) == at(i, j, k)) && Passed(st, cell, g.sizeZ, g.sizeX, g.sizeY, b, b')
    ensures SameField(GridField(g, at, b'), AlongY(g, st, GridField(g, at, b)))
  {
    forall y, x, z | InGrid(g, y, x, z)
      ensures GridField(g, at, b')(y, x, z) == AlongY(g, st, GridField(g, at, b))(y, x, z)
    {
      PointY(g, at, cell, st, b, b', y, x, z);
    }
  }

  lemma PointZ(g: Geometry, at: Cells, cell: Cells, st: Stencil, b: seq<real>, b': seq<real>, y: int, x: int, z: int)
    requires (forall k, j, i :: cell(k, j, i) == at(j, k, i)) && Passed(st, cell, g.sizeX, g.sizeY, g.sizeZ, b, b') && InGrid(g, y, x, z)
    ensures GridField(g, at, b')(y, x, z) == AtZ(g, st, GridField(g, at, b), y, x, z)
  {
    LinesPass(st, cell, g.sizeX, g.sizeY, g.sizeZ, b, b', x, y, z);
    FieldOfLines(g, at, cell, b', y, x, z);
    FieldOfLines(g, at, cell, b, y, x, z - 2);
    FieldOfLines(g, at, cell, b, y, x, z - 1);
    FieldOfLines(g, at, cell, b, y, x, z);
    FieldOfLines(g, at, cell, b, y, x, z + 1);
    FieldOfLines(g, at, cell, b, y, x, z + 2);
  }

  lemma PassZ(g: Geometry, at: Cells, cell: Cells, st: Stencil, b: seq<real>, b': seq<real>)
    requires (forall k, j, i :: cell(k, j, i) == at(j, k, i)) && Passed(st, cell, g.sizeX, g.sizeY, g.sizeZ, b, b')
    ensures SameField(GridField(g, at, b'), AlongZ(g, st, GridField(g, at, b)))
  {
    forall y, x, z | InGrid(g, y, x, z)
      ensures GridField(g, at, b')(y, x, z) == AlongZ(g, st, GridField(g, at, b))(y, x, z)
    {
      PointZ(g, at, cell, st, b, b', y, x, z);
    }
  }

  lemma SameAlong(g: Geometry, st: Stencil, f: Field, h: Field)
    requires SameField(f, h)
    ensures SameField(AlongY(g, st, f), AlongY(g, st, h)) && SameField(AlongZ(g, st, f), AlongZ(g, st, h))
  {}

  // ---------------------------------------------------------------- a unit cell through all passes

  /** One at grid point (y0, x0, z0), zero elsewhere. */
  ghost predicate IsUnit(f: Field, y0: int, x0: int, z0: int) {
    forall y, x, z :: f(y, x, z) == if y == y0 && x == x0 && z == z0 then 1.0 else 0.0
  }

  lemma UnitAlongX(g: Geometry, f: Field, y0: int, x0: int, z0: int, y: int, x: int, z: int)
    requires IsUnit(f, y0, x0, z0) && InGrid(g, y, x, z)
    ensures AlongX(g, Smooth(), f)(y, x, z) == if y == y0 && z == z0 then SmoothWeight(x - x0) else 0.0
  {
    var v := if y == y0 && z == z0 then 1.0 else 0.0;
    SpikeSpreads(x0, v, x);
    assert AtX(g, Smooth(), f, y, x, z)
        == Smooth()(Spike(x0, v, x - 2), Spike(x0, v, x - 1), Spike(x0, v, x), Spike(x0, v, x + 1), Spike(x0, v, x + 2));
  }

  lemma UnitAlongY(g: Geometry, f: Field, y0: int, x0: int, z0: int, y: int, x: int, z: int)
    requires InGrid(g, y0, x0, z0) && InGrid(g, y, x, z)
    requires forall y, x, z :: f(y, x, z) == if InGrid(g, y, x, z) && y == y0 && z == z0 then SmoothWeight(x - x0) else 0.0
    ensures AlongY(g, Smooth(), f)(y, x, z) == if z == z0 then SmoothWeight(y - y0) * SmoothWeight(x - x0) else 0.0
  {
    var v := if z == z0 then SmoothWeight(x - x0) else 0.0;
    SpikeSpreads(y0, v, y);
    assert AtY(g, Smooth(), f, y, x, z)
        == Smooth()(Spike(y0, v, y - 2), Spike(y0, v, y - 1), Spike(y0, v, y), Spike(y0, v, y + 1), Spike(y0, v, y + 2));
  }

  lemma UnitAlongZ(g: Geometry, f: Field, y0: int, x0: int, z0: int, y: int, x: int, z: int)
    requires InGrid(g, y0, x0, z0) && InGrid(g, y, x, z)
    requires forall y, x, z ::
               f(y, x, z) == if InGrid(g, y, x, z) && z == z0 then SmoothWeight(y - y0) * SmoothWeight(x - x0) else 0.0
    ensures AlongZ(g, Slope(), f)(y, x, z) == SlopeWeight(z - z0) * (SmoothWeight(y - y0) * SmoothWeight(x - x0))
  {
    var v := SmoothWeight(y - y0) * SmoothWeight(x - x0);
    SpikeSpreads(z0, v, z);
    assert AtZ(g, Slope(), f, y, x, z)
        == Slope()(Spike(z0, v, z - 2), Spike(z0, v, z - 1), Spike(z0, v, z), Spike(z0, v, z + 1), Spike(z0, v, z + 2));
  }

  /** The three passes spread a unit cell as the product of the three weights, up to the border of the grid. */
  lemma UnitSpreads(g: Geometry, f: Field, y0: int, x0: int, z0: int, y: int, x: int, z: int)
    requires IsUnit(f, y0, x0, z0) && InGrid(g, y0, x0, z0) && InGrid(g, y, x, z)
    ensures AlongZ(g, Slope(), AlongY(g, Smooth(), AlongX(g, Smooth(), f)))(y, x, z)
         == SlopeWeight(z - z0) * (SmoothWeight(y - y0) * SmoothWeight(x - x0))
  {
    var fx := AlongX(g, Smooth(), f);
    var fy := AlongY(g, Smooth(), fx);
    forall y, x, z ensures fx(y, x, z) == if InGrid(g, y, x, z) && y == y0 && z == z0 then SmoothWeight(x - x0) else 0.0 {
      if InGrid(g, y, x, z) { UnitAlongX(g, f, y0, x0, z0, y, x, z); }
    }
    forall y, x, z
      ensures fy(y, x, z) == if InGrid(g, y, x, z) && z == z0 then SmoothWeight(y - y0) * SmoothWeight(x - x0) else 0.0
    {
      if InGrid(g, y, x, z) { UnitAlongY(g, fx, y0, x0, z0, y, x, z); }
    }
    UnitAlongZ(g, fy, y0, x0, z0, y, x, z);
  }
}
