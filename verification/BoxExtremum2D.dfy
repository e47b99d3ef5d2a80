/** The two-dimensional box maximum and minimum: row pass, column partition, and when it is exact. */
module BoxExtremum2D {
  import opened Numeric
  import opened Bits
  import opened BoxRing
  import opened BoxExtremum

  type Image = (int, int) -> real

  predicate InImage(h: int, width: int, y: int, x: int) { 0 <= y < h && 0 <= x < width }

  ghost predicate Sized(h: int, width: int, len: int) {
    && h >= 0 && width >= 0 && len == h * width
    && (forall y, x :: InImage(h, width, y, x) ==> 0 <= Idx(width, y, x) < len)
  }

  lemma SizedBuffer(h: int, width: int, len: int)
    requires h >= 0 && width >= 0 && len == h * width
    ensures Sized(h, width, len)
  {
    forall y, x | InImage(h, width, y, x) ensures 0 <= Idx(width, y, x) < len {
      IdxInRange(width, h, y, x);
    }
  }

  /** A buffer as an image; the value outside does not matter. */
  function Pixels(b: seq<real>, h: int, width: int): Image {
    (y, x) => if InImage(h, width, y, x) && 0 <= Idx(width, y, x) < |b| then b[Idx(width, y, x)] else 0.0
  }

  function ImageRow(img: Image, y: int): int -> real { x => img(y, x) }
  function ImageColumn(img: Image, x: int): int -> real { y => img(y, x) }

  ghost predicate FiniteImage(img: Image) { forall y, x :: -FLT_MAX <= img(y, x) <= FLT_MAX }

  /** m is the extremum of the image over the given rows and columns. */
  ghost predicate BoxBest(d: Dir, img: Image, rows: int -> bool, cols: int -> bool, m: real) {
    && (forall y, x :: rows(y) && cols(x) ==> Beats(d, m, img(y, x)))
    && (exists y, x :: rows(y) && cols(x) && img(y, x) == m)
  }

  // ---------------------------------------------------------------- rows

  ghost predicate RowsFiltered(d: Dir, img: Image, w: int, h: int, width: int, b: seq<real>, done: int)
    requires Sized(h, width, |b|)
  {
    && (forall y, x :: InImage(h, width, y, x) && y < done ==>
          IsBest(d, ImageRow(img, y), Window(width, w, x), b[Idx(width, y, x)]))
    && (forall y, x :: InImage(h, width, y, x) && y >= done ==> b[Idx(width, y, x)] == img(y, x))
  }

  lemma RowExtent(h: int, width: int, y: int)
    requires 0 <= y < h && width >= 0
    ensures 0 <= Idx(width, y, 0) && Idx(width, y, 0) + width <= h * width
    ensures forall x :: Idx(width, y, 0) + x == Idx(width, y, x)
  {
    MulMonotone(0, y, width);
    MulMonotone(y + 1, h, width);
    Distribute(y, 1, width);
  }

  lemma OtherRow(h: int, width: int, y: int, y': int, x: int)
    requires InImage(h, width, y', x) && 0 <= y < h && y' != y
    ensures !(Idx(width, y, 0) <= Idx(width, y', x) < Idx(width, y, 0) + width)
  {
    if y < y' {
      RowsApart(width, y, width - 1, y', x);
    } else {
      RowsApart(width, y', x, y, 0);
    }
  }

  lemma RowStep(d: Dir, img: Image, w: int, h: int, width: int, b: seq<real>, b': seq<real>, x: seq<real>, y: int)
    requires Sized(h, width, |b|) && |b'| == |b| && 0 <= y < h && RowsFiltered(d, img, w, h, width, b, y)
    requires |x| == width && forall i :: 0 <= i < width ==> x[i] == img(y, i)
    requires forall i :: 0 <= i < width ==> IsBest(d, At1(x), Window(width, w, i), b'[Idx(width, y, i)])
    requires forall y', i :: InImage(h, width, y', i) && y' != y ==> b'[Idx(width, y', i)] == b[Idx(width, y', i)]
    ensures RowsFiltered(d, img, w, h, width, b', y + 1)
  {
    forall i | 0 <= i < width ensures IsBest(d, ImageRow(img, y), Window(width, w, i), b'[Idx(width, y, i)]) {
      SameOnWindow(d, At1(x), ImageRow(img, y), Window(width, w, i), b'[Idx(width, y, i)]);
    }
  }

  lemma SameOnWindow(d: Dir, f: int -> real, f': int -> real, p: int -> bool, m: real)
    requires IsBest(d, f, p, m) && forall i :: p(i) ==> f(i) == f'(i)
    ensures IsBest(d, f', p, m)
  {
    if m != Worst(d) {
      var i :| p(i) && f(i) == m;
      assert f'(i) == m;
    }
  }

  /** The first loop of _box_max_1ch: copy each row and filter it back into place. */
  method RowPass(d: Dir, buf: array<real>, h: int, width: int, w: int, ghost img: Image)
    requires w >= 0 && Sized(h, width, buf.Length) && FiniteImage(img)
    requires forall y, x :: InImage(h, width, y, x) ==> buf[Idx(width, y, x)] == img(y, x)
    modifies buf
    ensures RowsFiltered(d, img, w, h, width, buf[..], h)
  {
    for row := 0 to h
      invariant RowsFiltered(d, img, w, h, width, buf[..], row)
    {
      OneRow(d, buf, h, width, w, img, row);
    }
  }

  method OneRow(d: Dir, buf: array<real>, h: int, width: int, w: int, ghost img: Image, row: int)
    requires w >= 0 && Sized(h, width, buf.Length) && FiniteImage(img) && 0 <= row < h
    requires RowsFiltered(d, img, w, h, width, buf[..], row)
    modifies buf
    ensures RowsFiltered(d, img, w, h, width, buf[..], row + 1)
  {
    var base := Idx(width, row, 0);
    RowExtent(h, width, row);
    ghost var b := buf[..];
    var scratch := buf[base..base + width];
    forall i | 0 <= i < width ensures scratch[i] == img(row, i) {
      assert InImage(h, width, row, i);
      assert scratch[i] == b[Idx(width, row, i)];
    }
    BoxRow(d, scratch, buf, base, w);
    ghost var b' := buf[..];
    forall i | 0 <= i < width ensures IsBest(d, At1(scratch), Window(width, w, i), b'[Idx(width, row, i)]) {
      assert Idx(width, row, 0) + i == Idx(width, row, i);
    }
    forall y', i | InImage(h, width, y', i) && y' != row ensures b'[Idx(width, y', i)] == b[Idx(width, y', i)] {
      OtherRow(h, width, row, y', i);
    }
    RowStep(d, img, w, h, width, b, b', scratch, row);
  }

  // ---------------------------------------------------------------- columns

  /** Columns left of `done` are filtered over the surviving rows, the others untouched. */
  ghost predicate ColumnsFiltered(d: Dir, img: Image, w: int, mask: nat, h: int, width: int, b: seq<real>, done: int)
    requires Sized(h, width, |b|)
  {
    && (forall y, x :: InImage(h, width, y, x) && x < done ==>
          IsBest(d, ImageColumn(img, x), Survivors(h, w, mask, y), b[Idx(width, y, x)]))
    && (forall y, x :: InImage(h, width, y, x) && x >= done ==> b[Idx(width, y, x)] == img(y, x))
  }

  /** The layout of n columns from `col` on, with ring rows of n lanes. */
  function GroupLayout(h: int, width: int, col: int, n: int, mask: nat): Layout {
    Layout(h, n, mask, r => Idx(width, r, col), r => if r < 0 then 0 else Idx(n, BitAnd(r, mask), 0))
  }

  lemma GroupFits(h: int, width: int, col: int, n: int, mask: nat, len: int, ringLen: int)
    requires Sized(h, width, len) && n >= 1 && 0 <= col && col + n <= width && Idx(n, mask + 1, 0) <= ringLen
    ensures Fits(GroupLayout(h, width, col, n, mask), len, ringLen)
  {
    GroupRowsFit(h, width, col, n, mask, len);
    GroupSlotsFit(h, width, col, n, mask, ringLen);
  }

  lemma GroupRowsFit(h: int, width: int, col: int, n: int, mask: nat, len: int)
    requires Sized(h, width, len) && n >= 1 && 0 <= col && col + n <= width
    ensures RowsFit(GroupLayout(h, width, col, n, mask), len)
  {
    var g := GroupLayout(h, width, col, n, mask);
    forall r | 0 <= r < h ensures 0 <= g.row(r) && g.row(r) + n <= len {
      RowExtent(h, width, r);
    }
    forall r, s | 0 <= r < s < h ensures g.row(r) + n <= g.row(s) {
      RowsApart(width, r, col + n - 1, s, col);
    }
  }

  lemma SlotOrder(n: int, a: nat, b: nat)
    requires n >= 1 && a < b
    ensures Idx(n, a, 0) + n <= Idx(n, b, 0)
  {
    MulMonotone(a + 1, b, n);
    Distribute(a, 1, n);
  }

  lemma SlotInRing(h: int, width: int, col: int, n: int, mask: nat, ringLen: int, r: nat)
    requires n >= 1 && Idx(n, mask + 1, 0) <= ringLen
    ensures 0 <= GroupLayout(h, width, col, n, mask).slot(r) && GroupLayout(h, width, col, n, mask).slot(r) + n <= ringLen
  {
    BitAndBound(r, mask);
    var a := BitAnd(r, mask);
    MulMonotone(0, a, n);
    SlotOrder(n, a, mask + 1);
  }

  lemma SlotsApart(h: int, width: int, col: int, n: int, mask: nat, r: nat, s: nat)
    requires n >= 1
    ensures SlotsAgree(GroupLayout(h, width, col, n, mask), r, s)
  {
    var a, b := BitAnd(r, mask), BitAnd(s, mask);
    if a < b {
      SlotOrder(n, a, b);
    } else if b < a {
      SlotOrder(n, b, a);
    }
  }

  lemma GroupSlotsFit(h: int, width: int, col: int, n: int, mask: nat, ringLen: int)
    requires n >= 1 && Idx(n, mask + 1, 0) <= ringLen
    ensures SlotsFit(GroupLayout(h, width, col, n, mask), ringLen)
  {
    var g := GroupLayout(h, width, col, n, mask);
    forall r: nat | r < h ensures 0 <= g.slot(r) && g.slot(r) + n <= ringLen {
      SlotInRing(h, width, col, n, mask, ringLen, r);
    }
    forall r: nat, s: nat | r < h && s < h ensures SlotsAgree(g, r, s) {
      SlotsApart(h, width, col, n, mask, r, s);
    }
  }

  function GroupLanes(img: Image, col: int): Lanes { (r, c) => img(r, col + c) }

  lemma OffGroup(h: int, width: int, col: int, n: int, mask: nat, y: int, x: int)
    requires InImage(h, width, y, x) && 0 <= col && col + n <= width && !(col <= x < col + n)
    ensures !OnRows(GroupLayout(h, width, col, n, mask), Idx(width, y, x))
  {
    var g := GroupLayout(h, width, col, n, mask);
    forall r | 0 <= r < h ensures !(g.row(r) <= Idx(width, y, x) < g.row(r) + n) {
      if g.row(r) <= Idx(width, y, x) < g.row(r) + n {
        var c := Idx(width, y, x) - g.row(r);
        assert Idx(width, r, col + c) == Idx(width, y, x);
        IdxInjective(width, r, col + c, y, x);
      }
    }
  }

  lemma GroupStep(d: Dir, img: Image, w: int, mask: nat, h: int, width: int, b: seq<real>, b': seq<real>, col: int, n: int)
    requires Sized(h, width, |b|) && |b'| == |b| && n >= 1 && 0 <= col && col + n <= width
    requires ColumnsFiltered(d, img, w, mask, h, width, b, col)
    requires forall r, c :: 0 <= r < h && 0 <= c < n ==>
               (InImage(h, width, r, col + c)
                && IsBest(d, Lane(GroupLanes(img, col), c), Survivors(h, w, mask, r), b'[Idx(width, r, col + c)]))
    requires forall y, x :: InImage(h, width, y, x) && !(col <= x < col + n) ==> b'[Idx(width, y, x)] == b[Idx(width, y, x)]
    ensures ColumnsFiltered(d, img, w, mask, h, width, b', col + n)
  {
    forall y, x | InImage(h, width, y, x) && x < col + n
      ensures IsBest(d, ImageColumn(img, x), Survivors(h, w, mask, y), b'[Idx(width, y, x)])
    {
      if x >= col {
        var c := x - col;
        assert IsBest(d, Lane(GroupLanes(img, col), c), Survivors(h, w, mask, y), b'[Idx(width, y, col + c)]);
        SameOnWindow(d, Lane(GroupLanes(img, col), c), ImageColumn(img, x), Survivors(h, w, mask, y), b'[Idx(width, y, x)]);
      }
    }
  }

  /** One call of _box_max_vert<n> on columns col .. col + n - 1. */
  method ColumnGroup(d: Dir, buf: array<real>, scratch: array<real>, h: int, width: int, w: int, mask: nat, ghost img: Image, col: int, n: int)
    requires buf != scratch && w >= 0 && Sized(h, width, buf.Length) && FiniteImage(img)
    requires n >= 1 && 0 <= col && col + n <= width && Idx(n, mask + 1, 0) <= scratch.Length
    requires ColumnsFiltered(d, img, w, mask, h, width, buf[..], col)
    modifies buf, scratch
    ensures ColumnsFiltered(d, img, w, mask, h, width, buf[..], col + n)
  {
    var g := GroupLayout(h, width, col, n, mask);
    ghost var f := GroupLanes(img, col);
    GroupFits(h, width, col, n, mask, buf.Length, scratch.Length);
    ghost var b := buf[..];
    GroupStart(d, img, w, mask, h, width, b, col, n);
    BoxColumns(d, g, f, w, buf, scratch);
    GroupEnd(d, img, w, mask, h, width, b, buf[..], col, n);
  }

  lemma GroupStart(d: Dir, img: Image, w: int, mask: nat, h: int, width: int, b: seq<real>, col: int, n: int)
    requires Sized(h, width, |b|) && n >= 1 && 0 <= col && col + n <= width
    requires ColumnsFiltered(d, img, w, mask, h, width, b, col)
    requires RowsFit(GroupLayout(h, width, col, n, mask), |b|)
    ensures forall r, c :: 0 <= r < h && 0 <= c < n ==>
              b[GroupLayout(h, width, col, n, mask).row(r) + c] == GroupLanes(img, col)(r, c)
  {
    forall r, c | 0 <= r < h && 0 <= c < n
      ensures b[GroupLayout(h, width, col, n, mask).row(r) + c] == GroupLanes(img, col)(r, c)
    {
      LaneAddress(h, width, col, n, mask, r, c);
    }
  }

  lemma GroupEnd(d: Dir, img: Image, w: int, mask: nat, h: int, width: int, b: seq<real>, b': seq<real>, col: int, n: int)
    requires Sized(h, width, |b|) && |b'| == |b| && n >= 1 && 0 <= col && col + n <= width
    requires ColumnsFiltered(d, img, w, mask, h, width, b, col)
    requires RowsFit(GroupLayout(h, width, col, n, mask), |b|)
    requires forall r, c :: 0 <= r < h && 0 <= c < n ==>
               IsBest(d, Lane(GroupLanes(img, col), c), Survivors(h, w, mask, r), b'[GroupLayout(h, width, col, n, mask).row(r) + c])
    requires forall p :: 0 <= p < |b| && !OnRows(GroupLayout(h, width, col, n, mask), p) ==> b'[p] == b[p]
    ensures ColumnsFiltered(d, img, w, mask, h, width, b', col + n)
  {
    forall r, c | 0 <= r < h && 0 <= c < n
      ensures InImage(h, width, r, col + c)
              && IsBest(d, Lane(GroupLanes(img, col), c), Survivors(h, w, mask, r), b'[Idx(width, r, col + c)])
    {
      LaneAddress(h, width, col, n, mask, r, c);
    }
    forall y, x | InImage(h, width, y, x) && !(col <= x < col + n) ensures b'[Idx(width, y, x)] == b[Idx(width, y, x)] {
      OffGroup(h, width, col, n, mask, y, x);
    }
    GroupStep(d, img, w, mask, h, width, b, b', col, n);
  }

  lemma LaneAddress(h: int, width: int, col: int, n: int, mask: nat, r: int, c: int)
    requires 0 <= r < h && 0 <= c < n && 0 <= col && col + n <= width
    ensures GroupLayout(h, width, col, n, mask).row(r) + c == Idx(width, r, col + c)
    ensures InImage(h, width, r, col + c)
  {}

  /** Groups of MAX_VECT columns. */
  method Sixteens(d: Dir, buf: array<real>, scratch: array<real>, h: int, width: int, w: int, mask: nat, ghost img: Image, from: int, to: int)
    requires buf != scratch && w >= 0 && Sized(h, width, buf.Length) && FiniteImage(img)
    requires Idx(16, mask + 1, 0) <= scratch.Length && 0 <= from <= to <= width && from % 16 == 0 && to % 16 == 0
    requires ColumnsFiltered(d, img, w, mask, h, width, buf[..], from)
    modifies buf, scratch
    ensures ColumnsFiltered(d, img, w, mask, h, width, buf[..], to)
  {
    var col := from;
    while col < to
      invariant from <= col <= to && col % 16 == 0
      invariant ColumnsFiltered(d, img, w, mask, h, width, buf[..], col)
    {
      ColumnGroup(d, buf, scratch, h, width, w, mask, img, col, 16);
      col := col + 16;
    }
  }

  /** Groups of four columns. */
  method Fours(d: Dir, buf: array<real>, scratch: array<real>, h: int, width: int, w: int, mask: nat, ghost img: Image, from: int, to: int)
    requires buf != scratch && w >= 0 && Sized(h, width, buf.Length) && FiniteImage(img)
    requires Idx(4, mask + 1, 0) <= scratch.Length && 0 <= from <= to <= width && from % 4 == 0 && to % 4 == 0
    requires ColumnsFiltered(d, img, w, mask, h, width, buf[..], from)
    modifies buf, scratch
    ensures ColumnsFiltered(d, img, w, mask, h, width, buf[..], to)
  {
    var col := from;
    while col < to
      invariant from <= col <= to && col % 4 == 0
      invariant ColumnsFiltered(d, img, w, mask, h, width, buf[..], col)
    {
      ColumnGroup(d, buf, scratch, h, width, w, mask, img, col, 4);
      col := col + 4;
    }
  }

  /** Single columns. */
  method Singles(d: Dir, buf: array<real>, scratch: array<real>, h: int, width: int, w: int, mask: nat, ghost img: Image, from: int, to: int)
    requires buf != scratch && w >= 0 && Sized(h, width, buf.Length) && FiniteImage(img)
    requires Idx(1, mask + 1, 0) <= scratch.Length && 0 <= from <= to <= width
    requires ColumnsFiltered(d, img, w, mask, h, width, buf[..], from)
    modifies buf, scratch
    ensures ColumnsFiltered(d, img, w, mask, h, width, buf[..], to)
  {
    var col := from;
    while col < to
      invariant from <= col <= to
      invariant ColumnsFiltered(d, img, w, mask, h, width, buf[..], col)
    {
      ColumnGroup(d, buf, scratch, h, width, w, mask, img, col, 1);
      col := col + 1;
    }
  }

  /** The column loops of _box_max_1ch: groups of 16, then of 4, then single columns. */
  method ColumnPass(d: Dir, buf: array<real>, scratch: array<real>, h: int, width: int, w: int, mask: nat, ghost img: Image)
    requires buf != scratch && w >= 0 && Sized(h, width, buf.Length) && FiniteImage(img)
    requires MAX_VECT * (mask + 1) <= scratch.Length
    requires ColumnsFiltered(d, img, w, mask, h, width, buf[..], 0)
    modifies buf, scratch
    ensures ColumnsFiltered(d, img, w, mask, h, width, buf[..], width)
  {
    var k16, k4 := width - width % MAX_VECT, width - width % 4;
    Sixteens(d, buf, scratch, h, width, w, mask, img, 0, k16);
    Fours(d, buf, scratch, h, width, w, mask, img, k16, k4);
    Singles(d, buf, scratch, h, width, w, mask, img, k4, width);
  }

  // ---------------------------------------------------------------- both passes

  ghost predicate NonEmpty(p: int -> bool) { exists i :: p(i) }

  /** Extremum over rows of extrema over columns is the extremum over the box. */
  lemma Compose(d: Dir, img: Image, hor: Image, rows: int -> bool, cols: int -> bool, x: int, m: real)
    requires FiniteImage(img) && NonEmpty(rows) && NonEmpty(cols)
    requires forall y :: rows(y) ==> IsBest(d, ImageRow(img, y), cols, hor(y, x))
    requires IsBest(d, ImageColumn(hor, x), rows, m)
    ensures BoxBest(d, img, rows, cols, m)
  {
    forall y, x' | rows(y) && cols(x') ensures Beats(d, m, img(y, x')) {
      assert Beats(d, hor(y, x), ImageRow(img, y)(x'));
      assert Beats(d, m, ImageColumn(hor, x)(y));
    }
    if m == Worst(d) {
      var y :| rows(y);
      var x' :| cols(x');
      assert Beats(d, m, img(y, x'));
      assert img(y, x') == m;
    } else {
      var y :| rows(y) && ImageColumn(hor, x)(y) == m;
      var x' :| cols(x') && ImageRow(img, y)(x') == hor(y, x);
      assert img(y, x') == m;
    }
  }

  lemma RowExtremumFinite(d: Dir, img: Image, y: int, cols: int -> bool, m: real)
    requires FiniteImage(img) && IsBest(d, ImageRow(img, y), cols, m)
    ensures -FLT_MAX <= m <= FLT_MAX
  {
    if m != Worst(d) {
      var x :| cols(x) && ImageRow(img, y)(x) == m;
      assert m == img(y, x);
    }
  }

  lemma SomeSurvivor(h: int, w: int, mask: nat, o: int)
    requires 0 <= o < h && w >= 0
    ensures NonEmpty(Survivors(h, w, mask, o))
  {
    var r := if o <= w then o else if o + w < h then o + w else h - 1;
    assert Survivors(h, w, mask, o)(r);
  }

  /** dt_box_max and dt_box_min with one channel, for every height, width and radius. */
  method BoxFilter(d: Dir, buf: array<real>, h: nat, width: nat, w: nat)
    requires buf.Length == h * width && forall p :: 0 <= p < buf.Length ==> -FLT_MAX <= buf[p] <= FLT_MAX
    modifies buf
    ensures Sized(h, width, buf.Length)
    ensures forall y, x :: InImage(h, width, y, x) ==>
              BoxBest(d, Pixels(old(buf[..]), h, width), Survivors(h, w, ClippedMask(h, w), y), Window(width, w, x), buf[Idx(width, y, x)])
  {
    SizedBuffer(h, width, buf.Length);
    ghost var img := Pixels(buf[..], h, width);
    PixelsFinite(buf[..], h, width);
    var eff := ComputeEffectiveHeight(h, w);
    var mask: nat := if h == 0 then 0 else eff - 1;
    FilterWithMask(d, buf, h, width, w, mask, img);
    assert mask == ClippedMask(h, w);
  }

  method FilterWithMask(d: Dir, buf: array<real>, h: nat, width: nat, w: nat, mask: nat, ghost img: Image)
    requires Sized(h, width, buf.Length) && FiniteImage(img)
    requires forall y, x :: InImage(h, width, y, x) ==> buf[Idx(width, y, x)] == img(y, x)
    modifies buf
    ensures forall y, x :: InImage(h, width, y, x) ==>
              BoxBest(d, img, Survivors(h, w, mask, y), Window(width, w, x), buf[Idx(width, y, x)])
  {
    var n := if h < MAX_VECT * (mask + 1) then MAX_VECT * (mask + 1) else h;
    var scratch := new real[if width < n then n else width];
    RowPass(d, buf, h, width, w, img);
    ColumnHalf(d, buf, scratch, h, width, w, mask, img);
  }

  lemma PixelsFinite(b: seq<real>, h: int, width: int)
    requires forall p :: 0 <= p < |b| ==> -FLT_MAX <= b[p] <= FLT_MAX
    ensures FiniteImage(Pixels(b, h, width))
  {}

  /** The vertical half, starting from filtered rows. */
  method ColumnHalf(d: Dir, buf: array<real>, scratch: array<real>, h: int, width: int, w: int, mask: nat, ghost img: Image)
    requires buf != scratch && w >= 0 && Sized(h, width, buf.Length) && FiniteImage(img)
    requires MAX_VECT * (mask + 1) <= scratch.Length && RowsFiltered(d, img, w, h, width, buf[..], h)
    modifies buf, scratch
    ensures forall y, x :: InImage(h, width, y, x) ==>
              BoxBest(d, img, Survivors(h, w, mask, y), Window(width, w, x), buf[Idx(width, y, x)])
  {
    ghost var hor := Pixels(buf[..], h, width);
    RowsAreFinite(d, img, w, h, width, buf[..]);
    ColumnPass(d, buf, scratch, h, width, w, mask, hor);
    BothPasses(d, img, hor, w, h, width, mask, buf[..]);
  }

  lemma RowsAreFinite(d: Dir, img: Image, w: int, h: int, width: int, b: seq<real>)
    requires Sized(h, width, |b|) && FiniteImage(img) && RowsFiltered(d, img, w, h, width, b, h)
    ensures FiniteImage(Pixels(b, h, width))
  {
    forall y, x ensures -FLT_MAX <= Pixels(b, h, width)(y, x) <= FLT_MAX {
      if InImage(h, width, y, x) {
        RowExtremumFinite(d, img, y, Window(width, w, x), b[Idx(width, y, x)]);
      }
    }
  }

  lemma BothPasses(d: Dir, img: Image, hor: Image, w: int, h: int, width: int, mask: nat, b: seq<real>)
    requires Sized(h, width, |b|) && FiniteImage(img) && w >= 0
    requires forall y, x :: InImage(h, width, y, x) ==> IsBest(d, ImageRow(img, y), Window(width, w, x), hor(y, x))
    requires ColumnsFiltered(d, hor, w, mask, h, width, b, width)
    ensures forall y, x :: InImage(h, width, y, x) ==>
              BoxBest(d, img, Survivors(h, w, mask, y), Window(width, w, x), b[Idx(width, y, x)])
  {
    forall y, x | InImage(h, width, y, x)
      ensures BoxBest(d, img, Survivors(h, w, mask, y), Window(width, w, x), b[Idx(width, y, x)])
    {
      SomeSurvivor(h, w, mask, y);
      assert Window(width, w, x)(x);
      assert forall r :: Survivors(h, w, mask, y)(r) ==> InImage(h, width, r, x);
      Compose(d, img, hor, Survivors(h, w, mask, y), Window(width, w, x), x, b[Idx(width, y, x)]);
    }
  }

  // ---------------------------------------------------------------- when it is exact

  /** out is what `BoxFilter` leaves for image img. */
  ghost predicate RingOutput(d: Dir, img: Image, out: Image, h: nat, width: nat, w: nat) {
    forall y, x :: InImage(h, width, y, x) ==>
      BoxBest(d, img, Survivors(h, w, ClippedMask(h, w), y), Window(width, w, x), out(y, x))
  }

  /** out is the extremum over the clipped (2w+1) x (2w+1) box of every pixel. */
  ghost predicate NaiveOutput(d: Dir, img: Image, out: Image, h: nat, width: nat, w: nat) {
    forall y, x :: InImage(h, width, y, x) ==> BoxBest(d, img, Window(h, w, y), Window(width, w, x), out(y, x))
  }

  lemma BoxBestUnique(d: Dir, img: Image, rows: int -> bool, cols: int -> bool, m: real, m': real)
    requires BoxBest(d, img, rows, cols, m) && BoxBest(d, img, rows, cols, m')
    ensures m == m'
  {
    var y, x :| rows(y) && cols(x) && img(y, x) == m;
    var y', x' :| rows(y') && cols(x') && img(y', x') == m';
    assert Beats(d, m, img(y', x')) && Beats(d, m', img(y, x));
  }

  /** The filter's output is a function of the image. */
  lemma OutputIsFunction(d: Dir, img: Image, out: Image, out': Image, h: nat, width: nat, w: nat)
    requires RingOutput(d, img, out, h, width, w) && RingOutput(d, img, out', h, width, w)
    ensures forall y, x :: InImage(h, width, y, x) ==> out(y, x) == out'(y, x)
  {
    forall y, x | InImage(h, width, y, x) ensures out(y, x) == out'(y, x) {
      BoxBestUnique(d, img, Survivors(h, w, ClippedMask(h, w), y), Window(width, w, x), out(y, x), out'(y, x));
    }
  }

  lemma SameRows(d: Dir, img: Image, p: int -> bool, q: int -> bool, cols: int -> bool, m: real)
    requires BoxBest(d, img, p, cols, m) && forall i :: p(i) <==> q(i)
    ensures BoxBest(d, img, q, cols, m)
  {
    var y, x :| p(y) && cols(x) && img(y, x) == m;
    assert q(y);
  }

  lemma FittingRingIsExact(d: Dir, img: Image, out: Image, h: nat, width: nat, w: nat)
    requires RingFits(h, w) && RingOutput(d, img, out, h, width, w)
    ensures NaiveOutput(d, img, out, h, width, w)
  {
    FitsIsIntact(h, w);
    forall y, x | InImage(h, width, y, x)
      ensures BoxBest(d, img, Window(h, w, y), Window(width, w, x), out(y, x))
    {
      var p := Survivors(h, w, ClippedMask(h, w), y);
      assert forall r :: p(r) <==> Window(h, w, y)(r);
      SameRows(d, img, p, Window(h, w, y), Window(width, w, x), out(y, x));
    }
  }

  function Bright(d: Dir): real { if d.Up? then 1.0 else -1.0 }

  /** A flat image with one outstanding pixel in column 0. */
  function Spot(d: Dir, r: int): Image { (y, x) => if y == r && x == 0 then Bright(d) else 0.0 }

  /** What the ring makes of it: the spot shows exactly where its row survives. */
  ghost function SpotOutput(d: Dir, r: int, h: nat, w: nat): Image {
    (y, x) => if Survivors(h, w, ClippedMask(h, w), y)(r) && x <= w then Bright(d) else 0.0
  }

  lemma SpotIsRingOutput(d: Dir, r: int, h: nat, width: nat, w: nat)
    requires width >= 1
    ensures RingOutput(d, Spot(d, r), SpotOutput(d, r, h, w), h, width, w)
  {
    forall y, x | InImage(h, width, y, x)
      ensures BoxBest(d, Spot(d, r), Survivors(h, w, ClippedMask(h, w), y), Window(width, w, x), SpotOutput(d, r, h, w)(y, x))
    {
      var p, q := Survivors(h, w, ClippedMask(h, w), y), Window(width, w, x);
      if p(r) && x <= w {
        assert q(0) && Spot(d, r)(r, 0) == Bright(d);
      } else {
        SomeSurvivor(h, w, ClippedMask(h, w), y);
        var s :| p(s);
        assert q(x) && Spot(d, r)(s, x) == 0.0;
      }
    }
  }

  /**
    For every direction, height, width and radius: the in-place filter computes the box extremum of
    every image if and only if the ring fits (or there are no pixels at all).
   */
  lemma BoxExact(d: Dir, h: nat, width: nat, w: nat)
    ensures (forall img: Image, out: Image :: FiniteImage(img) && RingOutput(d, img, out, h, width, w) ==>
               NaiveOutput(d, img, out, h, width, w))
            <==> (RingFits(h, w) || width == 0)
  {
    if RingFits(h, w) || width == 0 {
      forall img: Image, out: Image | FiniteImage(img) && RingOutput(d, img, out, h, width, w)
        ensures NaiveOutput(d, img, out, h, width, w)
      {
        if width > 0 { FittingRingIsExact(d, img, out, h, width, w); }
      }
    } else {
      var o, r := RingLosesRow(h, w);
      var img, out := Spot(d, r), SpotOutput(d, r, h, w);
      SpotIsRingOutput(d, r, h, width, w);
      assert Window(h, w, o)(r) && Window(width, w, 0)(0);
      assert !BoxBest(d, img, Window(h, w, o), Window(width, w, 0), out(o, 0)) by {
        assert img(r, 0) == Bright(d) && out(o, 0) == 0.0;
      }
      assert InImage(h, width, o, 0);
      assert FiniteImage(img);
    }
  }
}
