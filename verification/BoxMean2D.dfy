/** dt_box_mean: the in-place two-dimensional running mean on interleaved channels, iterated. */
module BoxMean2D {
  import opened Numeric
  import opened Bits
  import opened BoxRing
  import opened BoxExtremum
  import opened BoxExtremum2D
  import opened BoxMean

  // ---------------------------------------------------------------- columns

  /** The mean of every column window. */
  function ColumnMeans(img: Image, h: int, radius: nat): Image {
    (y, x) => if 0 <= y < h then Mean(ImageColumn(img, x), h, radius, y) else 0.0
  }

  /** Columns left of `done` hold `out`, the others `img`. */
  ghost predicate ColumnsOut(img: Image, out: Image, h: int, width: int, b: seq<real>, done: int)
    requires Sized(h, width, |b|)
  {
    forall y, x :: InImage(h, width, y, x) ==> b[Idx(width, y, x)] == if x < done then out(y, x) else img(y, x)
  }

  lemma MeanSame(f: int -> real, f': int -> real, h: int, radius: nat, r: int)
    requires 0 <= r < h && forall i :: 0 <= i < h ==> f(i) == f'(i)
    ensures Mean(f, h, radius, r) == Mean(f', h, radius, r)
  {
    RangeSumSame(f, f', Lo(r, radius), Hi(r, radius, h));
  }

  lemma GroupIsMean(img: Image, h: int, width: int, col: int, n: int, mask: nat, radius: nat)
    ensures IsMean(GroupLayout(h, width, col, n, mask), radius, GroupLanes(img, col), GroupLanes(ColumnMeans(img, h, radius), col))
  {
    var g, f, o := GroupLayout(h, width, col, n, mask), GroupLanes(img, col), GroupLanes(ColumnMeans(img, h, radius), col);
    forall r, c | 0 <= r < h && 0 <= c < n ensures MeanAt(g, radius, f, o, r, c) {
      MeanSame(Lane(f, c), ImageColumn(img, col + c), h, radius, r);
    }
  }

  lemma SlotBelow(h: int, width: int, col: int, n: int, k: nat, r: nat, ringLen: int)
    requires n >= 1 && r < h && Idx(n, Min(Pow2(k), h), 0) <= ringLen
    ensures var g := GroupLayout(h, width, col, n, Pow2(k) - 1); 0 <= g.slot(r) && g.slot(r) + n <= ringLen
  {
    var mask := Pow2(k) - 1;
    BitAndBound(r, mask);
    var a := BitAnd(r, mask);
    MulMonotone(0, a, n);
    SlotOrder(n, a, Min(Pow2(k), h));
  }

  /** The mean filter's own mask keeps every live row: the ring is longer than the window, clipped or not. */
  lemma MeanRing(h: int, width: int, col: int, n: int, radius: nat, ringLen: int)
    requires n >= 1 && h >= 0 && Idx(n, Min(RingSize(radius), h), 0) <= ringLen
    ensures LiveSlotsApart(GroupLayout(h, width, col, n, RingSize(radius) - 1), 2 * radius + 1, ringLen)
  {
    var k := 1 + Log2(2 * radius + 1);
    var mask := RingSize(radius) - 1;
    var g := GroupLayout(h, width, col, n, mask);
    RingSizeBounds(radius);
    forall r | 0 <= r < h ensures 0 <= g.slot(r) && g.slot(r) + n <= ringLen {
      SlotBelow(h, width, col, n, k, r, ringLen);
    }
    forall r, s | 0 <= r < s < h && s - r <= 2 * radius + 1
      ensures g.slot(r) + n <= g.slot(s) || g.slot(s) + n <= g.slot(r)
    {
      NearbyDiffer(r, s, k);
      SlotsApart(h, width, col, n, mask, r, s);
    }
  }

  lemma GroupStarts(img: Image, out: Image, h: int, width: int, b: seq<real>, col: int, n: int, mask: nat)
    requires Sized(h, width, |b|) && 0 <= col && col + n <= width && ColumnsOut(img, out, h, width, b, col)
    requires RowsFit(GroupLayout(h, width, col, n, mask), |b|)
    ensures RowsOut(GroupLayout(h, width, col, n, mask), GroupLanes(img, col), GroupLanes(out, col), b, 0)
  {
    var g := GroupLayout(h, width, col, n, mask);
    forall r, c | 0 <= r < h && 0 <= c < n ensures b[g.row(r) + c] == GroupLanes(img, col)(r, c) {
      LaneAddress(h, width, col, n, mask, r, c);
    }
  }

  lemma GroupEnds(img: Image, out: Image, h: int, width: int, b: seq<real>, b': seq<real>, col: int, n: int, mask: nat)
    requires Sized(h, width, |b|) && 0 <= col && 0 <= n && col + n <= width && ColumnsOut(img, out, h, width, b, col)
    requires RowsFit(GroupLayout(h, width, col, n, mask), |b|) && |b'| == |b|
    requires RowsOut(GroupLayout(h, width, col, n, mask), GroupLanes(img, col), GroupLanes(out, col), b', h)
    requires OthersSame(GroupLayout(h, width, col, n, mask), b, b')
    ensures ColumnsOut(img, out, h, width, b', col + n)
  {
    forall y, x | InImage(h, width, y, x)
      ensures b'[Idx(width, y, x)] == if x < col + n then out(y, x) else img(y, x)
    {
      if col <= x < col + n {
        InGroup(out, img, h, width, b', col, n, mask, y, x);
      } else {
        OffGroup(h, width, col, n, mask, y, x);
      }
    }
  }

  lemma InGroup(out: Image, img: Image, h: int, width: int, b: seq<real>, col: int, n: int, mask: nat, y: int, x: int)
    requires Sized(h, width, |b|) && 0 <= col && col + n <= width && InImage(h, width, y, x) && col <= x < col + n
    requires RowsFit(GroupLayout(h, width, col, n, mask), |b|)
    requires RowsOut(GroupLayout(h, width, col, n, mask), GroupLanes(img, col), GroupLanes(out, col), b, h)
    ensures b[Idx(width, y, x)] == out(y, x)
  {
    var g, c := GroupLayout(h, width, col, n, mask), x - col;
    LaneAddress(h, width, col, n, mask, y, c);
    assert b[g.row(y) + c] == GroupLanes(out, col)(y, c);
  }

  /** The parameters of the vertical pass that do not change from group to group. */
  datatype Columns = Columns(buf: array<real>, scratch: array<real>, h: int, width: int, radius: nat, compensated: bool) {
    ghost predicate Valid() {
      && buf != scratch && Sized(h, width, buf.Length)
      && MAX_VECT * Min(RingSize(radius), h) <= scratch.Length
    }

    ghost predicate Done(img: Image, done: int)
      requires Valid()
      reads buf
    {
      ColumnsOut(img, ColumnMeans(img, h, radius), h, width, buf[..], done)
    }
  }

  lemma LanesFit(n: int, eff: int, len: int)
    requires 1 <= n <= MAX_VECT && eff >= 0 && MAX_VECT * eff <= len
    ensures Idx(n, eff, 0) <= len
  {
    MulMonotone(n, MAX_VECT, eff);
    assert Idx(n, eff, 0) == n * eff;
  }

  /** One call of _blur_vertical<n>. */
  method MeanGroup(v: Columns, ghost img: Image, col: int, n: int) returns (col': int)
    requires v.Valid() && 1 <= n <= MAX_VECT && 0 <= col && col + n <= v.width && v.Done(img, col)
    modifies v.buf, v.scratch
    ensures col' == col + n && v.Done(img, col')
  {
    col' := col + n;
    var mask := ComputeMask(v.radius);
    var g := GroupLayout(v.h, v.width, col, n, mask);
    ghost var out := ColumnMeans(img, v.h, v.radius);
    LanesFit(n, Min(RingSize(v.radius), v.h), v.scratch.Length);
    MeanRing(v.h, v.width, col, n, v.radius, v.scratch.Length);
    GroupRowsFit(v.h, v.width, col, n, mask, v.buf.Length);
    GroupIsMean(img, v.h, v.width, col, n, mask, v.radius);
    ghost var b := v.buf[..];
    GroupStarts(img, out, v.h, v.width, b, col, n, mask);
    BlurLanes(g, v.radius, v.compensated, v.buf, v.scratch, GroupLanes(img, col), GroupLanes(out, col));
    GroupEnds(img, out, v.h, v.width, b, v.buf[..], col, n, mask);
  }

  /** Groups of n columns while n more fit; from a multiple of 4, `col < (width & ~3)` says the same for n = 4. */
  method MeanGroups(v: Columns, ghost img: Image, x: int, n: int, limit: int) returns (col: int)
    requires v.Valid() && 1 <= n <= MAX_VECT && 0 <= x <= limit <= v.width && v.Done(img, x)
    modifies v.buf, v.scratch
    ensures x <= col <= limit && limit - col < n && v.Done(img, col)
  {
    col := x;
    while col + n <= limit
      invariant x <= col <= limit && v.Done(img, col)
    {
      col := MeanGroup(v, img, col, n);
    }
  }

  /** _blur_vertical_1ch: groups of sixteen, then of four, then single columns. */
  method BlurVertical(v: Columns, ghost img: Image)
    requires v.Valid() && v.Done(img, 0)
    modifies v.buf, v.scratch
    ensures v.Done(img, v.width)
  {
    var col := MeanGroups(v, img, 0, MAX_VECT, v.width);
    col := MeanGroups(v, img, col, 4, v.width);
    col := MeanGroups(v, img, col, 1, v.width);
  }

  // ---------------------------------------------------------------- rows of interleaved channels

  /** Pixel (y, x), channel c. */
  type Image3 = (int, int, int) -> real

  /** Element index of pixel x, channel c inside a row. */
  function Element(ch: int, x: int, c: int): int { Idx(ch, x, c) }

  predicate InPixels(h: int, width: int, ch: int, y: int, x: int, c: int) {
    InImage(h, width, y, x) && 0 <= c < ch
  }

  function PixelRow(img: Image3, y: int, c: int): int -> real { x => img(y, x, c) }
  function PixelColumn(img: Image3, x: int, c: int): int -> real { y => img(y, x, c) }

  /** The mean of every row window, per channel. */
  function RowMeans(img: Image3, width: int, radius: nat): Image3 {
    (y, x, c) => if 0 <= x < width then Mean(PixelRow(img, y, c), width, radius, x) else 0.0
  }

  /** The layout of one row: pixels as rows of ch lanes, and a scratch line of the same shape. */
  function LineLayout(stride: int, y: int, width: int, ch: int): Layout {
    Layout(width, ch, 0, x => Idx(stride, y, Element(ch, x, 0)), x => Element(ch, x, 0))
  }

  function LineLanes(img: Image3, y: int): Lanes { (x, c) => img(y, x, c) }

  /** Rows above `done` hold `out`, the others `img`. */
  ghost predicate LinesOut(img: Image3, out: Image3, h: int, width: int, ch: int, stride: int, b: seq<real>, done: int)
    requires Sized(h, stride, |b|) && stride == Idx(ch, width, 0)
  {
    forall y, x, c :: InPixels(h, width, ch, y, x, c) ==>
      (InImage(h, stride, y, Element(ch, x, c))
       && b[Idx(stride, y, Element(ch, x, c))] == if y < done then out(y, x, c) else img(y, x, c))
  }

  lemma ElementInRow(width: int, ch: int, x: int, c: int)
    requires 0 <= x < width && 0 <= c < ch
    ensures 0 <= Element(ch, x, c) < Idx(ch, width, 0)
  {
    IdxInRange(ch, width, x, c);
  }

  lemma PixelOrder(ch: int, x: int, x': int)
    requires ch >= 1 && x < x'
    ensures Element(ch, x, 0) + ch <= Element(ch, x', 0)
  {
    MulMonotone(x + 1, x', ch);
    Distribute(x, 1, ch);
  }

  lemma LineFits(h: int, width: int, ch: int, stride: int, y: int, len: int, ringLen: int, span: int)
    requires Sized(h, stride, len) && ch >= 1 && width >= 0 && stride == Idx(ch, width, 0) && 0 <= y < h && stride <= ringLen
    ensures RowsFit(LineLayout(stride, y, width, ch), len) && LiveSlotsApart(LineLayout(stride, y, width, ch), span, ringLen)
  {
    var g := LineLayout(stride, y, width, ch);
    RowExtent(h, stride, y);
    forall x | 0 <= x < width
      ensures 0 <= g.row(x) && g.row(x) + ch <= len && 0 <= g.slot(x) && g.slot(x) + ch <= ringLen
    {
      MulMonotone(0, x, ch);
      PixelOrder(ch, x, width);
      assert Idx(stride, y, 0) + Element(ch, x, 0) == Idx(stride, y, Element(ch, x, 0));
    }
    forall x, x' | 0 <= x < x' < width
      ensures g.row(x) + ch <= g.row(x') && g.slot(x) + ch <= g.slot(x')
    {
      PixelOrder(ch, x, x');
    }
  }

  lemma LineAddress(stride: int, y: int, width: int, ch: int, x: int, c: int)
    ensures LineLayout(stride, y, width, ch).row(x) + c == Idx(stride, y, Element(ch, x, c))
  {}

  lemma LineIsMean(img: Image3, stride: int, y: int, width: int, ch: int, radius: nat)
    ensures IsMean(LineLayout(stride, y, width, ch), radius, LineLanes(img, y), LineLanes(RowMeans(img, width, radius), y))
  {
    var g, f, o := LineLayout(stride, y, width, ch), LineLanes(img, y), LineLanes(RowMeans(img, width, radius), y);
    forall x, c | 0 <= x < width && 0 <= c < ch ensures MeanAt(g, radius, f, o, x, c) {
      MeanSame(Lane(f, c), PixelRow(img, y, c), width, radius, x);
    }
  }

  lemma LineStarts(img: Image3, out: Image3, h: int, width: int, ch: int, stride: int, b: seq<real>, y: int)
    requires Sized(h, stride, |b|) && stride == Idx(ch, width, 0) && 0 <= y < h && LinesOut(img, out, h, width, ch, stride, b, y)
    requires RowsFit(LineLayout(stride, y, width, ch), |b|)
    ensures RowsOut(LineLayout(stride, y, width, ch), LineLanes(img, y), LineLanes(out, y), b, 0)
  {
    var g := LineLayout(stride, y, width, ch);
    forall x, c | 0 <= x < width && 0 <= c < ch ensures b[g.row(x) + c] == LineLanes(img, y)(x, c) {
      LineAddress(stride, y, width, ch, x, c);
      assert InPixels(h, width, ch, y, x, c);
    }
  }

  lemma OffLine(h: int, width: int, ch: int, stride: int, y: int, y': int, e: int)
    requires stride == Idx(ch, width, 0) && ch >= 1 && 0 <= y < h && InImage(h, stride, y', e) && y' != y
    ensures !OnRows(LineLayout(stride, y, width, ch), Idx(stride, y', e))
  {
    var g := LineLayout(stride, y, width, ch);
    OtherRow(h, stride, y, y', e);
    forall x | 0 <= x < width ensures !(g.row(x) <= Idx(stride, y', e) < g.row(x) + ch) {
      MulMonotone(0, x, ch);
      PixelOrder(ch, x, width);
    }
  }

  lemma OnLine(img: Image3, out: Image3, width: int, ch: int, stride: int, b: seq<real>, y: int, x: int, c: int)
    requires 0 <= x < width && 0 <= c < ch && RowsFit(LineLayout(stride, y, width, ch), |b|)
    requires RowsOut(LineLayout(stride, y, width, ch), LineLanes(img, y), LineLanes(out, y), b, width)
    ensures 0 <= Idx(stride, y, Element(ch, x, c)) < |b| && b[Idx(stride, y, Element(ch, x, c))] == out(y, x, c)
  {
    var g := LineLayout(stride, y, width, ch);
    LineAddress(stride, y, width, ch, x, c);
    assert b[g.row(x) + c] == LineLanes(out, y)(x, c);
  }

  lemma LineEnds(img: Image3, out: Image3, h: int, width: int, ch: int, stride: int, b: seq<real>, b': seq<real>, y: int)
    requires Sized(h, stride, |b|) && |b'| == |b| && stride == Idx(ch, width, 0) && ch >= 1 && 0 <= y < h
    requires LinesOut(img, out, h, width, ch, stride, b, y) && RowsFit(LineLayout(stride, y, width, ch), |b|)
    requires RowsOut(LineLayout(stride, y, width, ch), LineLanes(img, y), LineLanes(out, y), b', width)
    requires OthersSame(LineLayout(stride, y, width, ch), b, b')
    ensures LinesOut(img, out, h, width, ch, stride, b', y + 1)
  {
    forall y', x, c | InPixels(h, width, ch, y', x, c)
      ensures InImage(h, stride, y', Element(ch, x, c))
      ensures b'[Idx(stride, y', Element(ch, x, c))] == if y' < y + 1 then out(y', x, c) else img(y', x, c)
    {
      if y' == y {
        OnLine(img, out, width, ch, stride, b', y, x, c);
      } else {
        OffLine(h, width, ch, stride, y, y', Element(ch, x, c));
      }
    }
  }

  /** One call of _blur_horizontal. */
  method MeanLine(v: Columns, ghost img: Image3, width: int, ch: int, y: int) returns (y': int)
    requires v.Valid() && ch >= 1 && width >= 0 && v.width == Idx(ch, width, 0) && v.width <= v.scratch.Length && 0 <= y < v.h
    requires LinesOut(img, RowMeans(img, width, v.radius), v.h, width, ch, v.width, v.buf[..], y)
    modifies v.buf, v.scratch
    ensures y' == y + 1 && LinesOut(img, RowMeans(img, width, v.radius), v.h, width, ch, v.width, v.buf[..], y')
  {
    y' := y + 1;
    var g := LineLayout(v.width, y, width, ch);
    ghost var out := RowMeans(img, width, v.radius);
    LineFits(v.h, width, ch, v.width, y, v.buf.Length, v.scratch.Length, 2 * v.radius + 1);
    LineIsMean(img, v.width, y, width, ch, v.radius);
    ghost var b := v.buf[..];
    LineStarts(img, out, v.h, width, ch, v.width, b, y);
    BlurLanes(g, v.radius, v.compensated, v.buf, v.scratch, LineLanes(img, y), LineLanes(out, y));
    LineEnds(img, out, v.h, width, ch, v.width, b, v.buf[..], y);
  }

  // ---------------------------------------------------------------- the reference box mean

  function RowSums(img: Image3, c: int, x0: int, x1: int): int -> real { y => RangeSum(PixelRow(img, y, c), x0, x1) }

  /** Sum of channel c over rows y0 .. y1 - 1 and columns x0 .. x1 - 1. */
  function BoxSum(img: Image3, c: int, y0: int, y1: int, x0: int, x1: int): real {
    RangeSum(RowSums(img, c, x0, x1), y0, y1)
  }

  /** Arithmetic mean over the clipped (2 * radius + 1)^2 box around (y, x). */
  function BoxAverage(img: Image3, h: int, width: int, radius: nat, y: int, x: int, c: int): real
    requires InImage(h, width, y, x)
  {
    var y0, y1, x0, x1 := Lo(y, radius), Hi(y, radius, h), Lo(x, radius), Hi(x, radius, width);
    BoxSum(img, c, y0, y1, x0, x1) / Area(y1 - y0, x1 - x0)
  }

  /** Number of pixels in a box. */
  function Area(a: int, b: int): (n: real)
    requires a >= 1 && b >= 1
    ensures n > 0.0
  {
    MulStrictReal(0.0, a as real, b as real);
    a as real * b as real
  }

  lemma RangeSumDivided(f: int -> real, q: int -> real, n: real, lo: int, hi: int)
    requires n > 0.0 && forall i :: lo <= i < hi ==> q(i) == f(i) / n
    ensures RangeSum(q, lo, hi) == RangeSum(f, lo, hi) / n
    decreases hi - lo
  {
    if lo < hi {
      RangeSumDivided(f, q, n, lo, hi - 1);
      DivideSum(RangeSum(f, lo, hi - 1), f(hi - 1), n);
    }
  }

  lemma DivideSum(a: real, b: real, n: real)
    requires n > 0.0
    ensures (a + b) / n == a / n + b / n
  {}

  lemma DivideTwice(t: real, a: real, b: real)
    requires a > 0.0 && b > 0.0
    ensures b * a > 0.0 && t / a / b == t / (b * a)
  {
    MulStrictReal(0.0, b, a);
    var q := t / a / b;
    calc {
      q * (b * a);
    ==
      (q * b) * a;
    == { DivReal(t / a, b); }
      (t / a) * a;
    == { DivReal(t, a); }
      t;
    }
    DivReal(t, b * a);
    CancelBoth(q, t / (b * a), b * a);
  }

  lemma CancelBoth(p: real, q: real, n: real)
    requires n > 0.0 && p * n == q * n
    ensures p == q
  {
    CancelReal(p, q, n);
    CancelReal(q, p, n);
  }

  lemma SumsOfMeans(img: Image3, width: int, radius: nat, x: int, c: int, y0: int, y1: int)
    requires 0 <= x < width
    ensures RangeSum(PixelColumn(RowMeans(img, width, radius), x, c), y0, y1)
            == BoxSum(img, c, y0, y1, Lo(x, radius), Hi(x, radius, width)) / (Hi(x, radius, width) - Lo(x, radius)) as real
  {
    var x0, x1 := Lo(x, radius), Hi(x, radius, width);
    RangeSumDivided(RowSums(img, c, x0, x1), PixelColumn(RowMeans(img, width, radius), x, c), (x1 - x0) as real, y0, y1);
  }

  /** The column means of the row means are the box means: the filter is separable. */
  lemma Separable(img: Image3, h: int, width: int, radius: nat, y: int, x: int, c: int)
    requires InImage(h, width, y, x)
    ensures Mean(PixelColumn(RowMeans(img, width, radius), x, c), h, radius, y) == BoxAverage(img, h, width, radius, y, x, c)
  {
    var y0, y1, x0, x1 := Lo(y, radius), Hi(y, radius, h), Lo(x, radius), Hi(x, radius, width);
    SumsOfMeans(img, width, radius, x, c, y0, y1);
    TwoStages(RangeSum(PixelColumn(RowMeans(img, width, radius), x, c), y0, y1), BoxSum(img, c, y0, y1, x0, x1),
              x1 - x0, y1 - y0);
  }

  lemma TwoStages(sums: real, total: real, n: int, m: int)
    requires n >= 1 && m >= 1 && sums == total / n as real
    ensures sums / m as real == total / Area(m, n)
  {
    DivideTwice(total, n as real, m as real);
  }

  function Blurred(img: Image3, h: int, width: int, radius: nat): Image3 {
    (y, x, c) => if InImage(h, width, y, x) then BoxAverage(img, h, width, radius, y, x, c) else 0.0
  }

  function Iterated(img: Image3, h: int, width: int, radius: nat, k: nat): Image3 {
    if k == 0 then img else Blurred(Iterated(img, h, width, radius, k - 1), h, width, radius)
  }

  /** The buffer shows the image. */
  ghost predicate Shows(img: Image3, h: int, width: int, ch: int, stride: int, b: seq<real>)
    requires Sized(h, stride, |b|) && stride == Idx(ch, width, 0)
  {
    LinesOut(img, img, h, width, ch, stride, b, 0)
  }

  lemma BothMeans(img: Image3, flat: Image, h: int, width: int, ch: int, stride: int, radius: nat, b: seq<real>, b': seq<real>)
    requires Sized(h, stride, |b|) && |b'| == |b| && stride == Idx(ch, width, 0)
    requires LinesOut(img, RowMeans(img, width, radius), h, width, ch, stride, b, h) && flat == Pixels(b, h, stride)
    requires ColumnsOut(flat, ColumnMeans(flat, h, radius), h, stride, b', stride)
    ensures Shows(Blurred(img, h, width, radius), h, width, ch, stride, b')
  {
    forall y, x, c | InPixels(h, width, ch, y, x, c)
      ensures InImage(h, stride, y, Element(ch, x, c))
      ensures b'[Idx(stride, y, Element(ch, x, c))] == Blurred(img, h, width, radius)(y, x, c)
    {
      var e := Element(ch, x, c);
      ElementInRow(width, ch, x, c);
      forall r | 0 <= r < h ensures ImageColumn(flat, e)(r) == PixelColumn(RowMeans(img, width, radius), x, c)(r) {
        assert InPixels(h, width, ch, r, x, c);
      }
      MeanSame(ImageColumn(flat, e), PixelColumn(RowMeans(img, width, radius), x, c), h, radius, y);
      Separable(img, h, width, radius, y, x, c);
    }
  }

  lemma StartLines(img: Image3, out: Image3, h: int, width: int, ch: int, stride: int, b: seq<real>)
    requires Sized(h, stride, |b|) && stride == Idx(ch, width, 0) && Shows(img, h, width, ch, stride, b)
    ensures LinesOut(img, out, h, width, ch, stride, b, 0)
  {}

  /** The row loop of _box_mean. */
  method BlurHorizontal(v: Columns, ghost img: Image3, width: int, ch: int)
    requires v.Valid() && ch >= 1 && width >= 0 && v.width == Idx(ch, width, 0) && v.width <= v.scratch.Length
    requires Shows(img, v.h, width, ch, v.width, v.buf[..])
    modifies v.buf, v.scratch
    ensures LinesOut(img, RowMeans(img, width, v.radius), v.h, width, ch, v.width, v.buf[..], v.h)
  {
    StartLines(img, RowMeans(img, width, v.radius), v.h, width, ch, v.width, v.buf[..]);
    var row := 0;
    while row < v.h
      invariant 0 <= row <= v.h
      invariant LinesOut(img, RowMeans(img, width, v.radius), v.h, width, ch, v.width, v.buf[..], row)
    {
      row := MeanLine(v, img, width, ch, row);
    }
  }

  /** One iteration: rows, then columns over all elements. */
  method MeanOnce(v: Columns, ghost img: Image3, width: int, ch: int)
    requires v.Valid() && ch >= 1 && width >= 0 && v.width == Idx(ch, width, 0) && v.width <= v.scratch.Length
    requires Shows(img, v.h, width, ch, v.width, v.buf[..])
    modifies v.buf, v.scratch
    ensures Shows(Blurred(img, v.h, width, v.radius), v.h, width, ch, v.width, v.buf[..])
  {
    BlurHorizontal(v, img, width, ch);
    ghost var b := v.buf[..];
    ghost var flat := Pixels(b, v.h, v.width);
    BlurVertical(v, flat);
    BothMeans(img, flat, v.h, width, ch, v.width, v.radius, b, v.buf[..]);
  }

  /** dt_box_mean: for every size, radius, channel count, iteration count and summation variant. */
  method BoxMeanFilter(buf: array<real>, h: nat, width: nat, ch: nat, radius: nat, iterations: nat, compensated: bool, ghost img: Image3)
    requires ch >= 1 && buf.Length == h * Idx(ch, width, 0)
    requires Sized(h, Idx(ch, width, 0), buf.Length) && Shows(img, h, width, ch, Idx(ch, width, 0), buf[..])
    modifies buf
    ensures Shows(Iterated(img, h, width, radius, iterations), h, width, ch, Idx(ch, width, 0), buf[..])
  {
    var stride := Idx(ch, width, 0);
    var eff := ComputeEffectiveHeight(h, radius);
    var n := if h < MAX_VECT * eff then MAX_VECT * eff else h;
    var scratch := new real[if stride < n then n else stride];
    var v := Columns(buf, scratch, h, stride, radius, compensated);
    for k := 0 to iterations
      invariant Shows(Iterated(img, h, width, radius, k), h, width, ch, stride, buf[..])
    {
      MeanOnce(v, Iterated(img, h, width, radius, k), width, ch);
    }
  }
}
