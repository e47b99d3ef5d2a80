/**
  The running box mean along one axis. _blur_horizontal and _blur_vertical are the same five-phase
  sliding sum over different layouts (samples of a row, or rows through a ring of masked slots), so
  they are one method over a `Layout`.
 */
module BoxMean {
  import opened Numeric
  import opened BoxExtremum

  // ---------------------------------------------------------------- the reference mean

  function RangeSum(f: int -> real, lo: int, hi: int): real
    decreases hi - lo
  {
    if hi <= lo then 0.0 else RangeSum(f, lo, hi - 1) + f(hi - 1)
  }

  function Lo(r: int, radius: int): int { Max(0, r - radius) }
  function Hi(r: int, radius: int, h: int): int { Min(r + radius + 1, h) }

  /** Arithmetic mean over the window of r clipped to 0 .. h - 1. */
  function Mean(f: int -> real, h: int, radius: int, r: int): real
    requires radius >= 0 && 0 <= r < h
  {
    RangeSum(f, Lo(r, radius), Hi(r, radius, h)) / (Hi(r, radius, h) - Lo(r, radius)) as real
  }

  lemma RangeSumDrop(f: int -> real, lo: int, hi: int)
    requires lo < hi
    ensures RangeSum(f, lo, hi) == f(lo) + RangeSum(f, lo + 1, hi)
    decreases hi - lo
  {
    if lo + 1 < hi { RangeSumDrop(f, lo, hi - 1); }
  }

  lemma RangeSumSame(f: int -> real, f': int -> real, lo: int, hi: int)
    requires forall i :: lo <= i < hi ==> f(i) == f'(i)
    ensures RangeSum(f, lo, hi) == RangeSum(f', lo, hi)
    decreases hi - lo
  {
    if lo < hi { RangeSumSame(f, f', lo, hi - 1); }
  }

  // ---------------------------------------------------------------- vector operations

  ghost predicate Zero(comp: seq<real>) { forall c :: 0 <= c < |comp| ==> comp[c] == 0.0 }

  /** One Kahan step; over exact arithmetic the compensation stays zero. */
  function Kahan(accum: real, comp: real, v: real): (real, real) {
    var t1 := v - comp;
    var t2 := accum + t1;
    (t2, (t2 - accum) - t1)
  }

  /** Add values[bo ..] to the sums, plainly or with compensation. */
  method Accumulate(accum: array<real>, comp: array<real>, values: array<real>, bo: int, sign: real, compensated: bool)
    requires accum != comp && accum != values && comp != values && comp.Length == accum.Length
    requires 0 <= bo && bo + accum.Length <= values.Length && Zero(comp[..]) && (sign == 1.0 || sign == -1.0)
    modifies accum, comp
    ensures Zero(comp[..])
    ensures forall c :: 0 <= c < accum.Length ==> accum[c] == old(accum[c]) + sign * values[bo + c]
  {
    for c := 0 to accum.Length
      invariant forall k :: 0 <= k < accum.Length ==> comp[k] == 0.0
      invariant forall k :: 0 <= k < accum.Length ==>
                  accum[k] == if k < c then old(accum[k]) + sign * values[bo + k] else old(accum[k])
    {
      var v := sign * values[bo + c];
      if compensated {
        var s := Kahan(accum[c], comp[c], v);
        accum[c], comp[c] := s.0, s.1;
      } else {
        accum[c] := accum[c] + v;
      }
    }
  }

  /** _store_scaled. */
  method StoreScaled(buf: array<real>, bo: int, accum: array<real>, scale: real)
    requires buf != accum && 0 <= bo && bo + accum.Length <= buf.Length && scale > 0.0
    modifies buf
    ensures forall c :: 0 <= c < accum.Length ==> buf[bo + c] == accum[c] / scale
    ensures forall p :: 0 <= p < buf.Length && !(bo <= p < bo + accum.Length) ==> buf[p] == old(buf[p])
  {
    for c := 0 to accum.Length
      invariant forall k :: 0 <= k < c ==> buf[bo + k] == accum[k] / scale
      invariant forall p :: 0 <= p < buf.Length && !(bo <= p < bo + accum.Length) ==> buf[p] == old(buf[p])
    {
      buf[bo + c] := accum[c] / scale;
    }
  }

  // ---------------------------------------------------------------- the sliding window

  /** Ring slots of rows at most `span` apart do not overlap. */
  ghost predicate LiveSlotsApart(g: Layout, span: int, ringLen: int) {
    && (forall r :: 0 <= r < g.h ==> 0 <= g.slot(r) && g.slot(r) + g.n <= ringLen)
    && (forall r, s :: 0 <= r < s < g.h && s - r <= span ==> g.slot(r) + g.n <= g.slot(s) || g.slot(s) + g.n <= g.slot(r))
  }

  /** Rows below y hold the output, the others still the input. */
  ghost predicate RowsOut(g: Layout, f: Lanes, out: Lanes, b: seq<real>, y: int)
    requires RowsFit(g, |b|)
  {
    && (forall r, c :: 0 <= r < g.h && r >= y && 0 <= c < g.n ==> b[g.row(r) + c] == f(r, c))
    && (forall r, c :: 0 <= r < g.h && r < y && 0 <= c < g.n ==> b[g.row(r) + c] == out(r, c))
  }

  ghost predicate RingRows(g: Layout, f: Lanes, ring: seq<real>, lo: int, hi: int)
    requires forall r :: 0 <= r < g.h ==> 0 <= g.slot(r) && g.slot(r) + g.n <= |ring|
  {
    forall r, c :: lo <= r < hi && 0 <= r < g.h && 0 <= c < g.n ==> ring[g.slot(r) + c] == f(r, c)
  }

  ghost predicate Sums(g: Layout, f: Lanes, accum: seq<real>, lo: int, hi: int)
    requires |accum| == g.n
  {
    forall c :: 0 <= c < g.n ==> accum[c] == RangeSum(Lane(f, c), lo, hi)
  }

  /** Rows lo .. hi - 1 are summed up and held in the ring; output rows below y are final. */
  ghost predicate Holding(g: Layout, f: Lanes, out: Lanes, radius: int, b: seq<real>, ring: seq<real>, accum: seq<real>, y: int, lo: int, hi: int)
    requires RowsFit(g, |b|) && LiveSlotsApart(g, 2 * radius + 1, |ring|) && |accum| == g.n
  {
    && 0 <= lo <= hi <= g.h && 0 <= y <= g.h
    && RowsOut(g, f, out, b, y) && RingRows(g, f, ring, lo, hi) && Sums(g, f, accum, lo, hi)
  }

  /** The parameters and local arrays of one sweep. */
  datatype Sweep = Sweep(g: Layout, radius: int, compensated: bool,
                         buf: array<real>, scratch: array<real>, accum: array<real>, comp: array<real>)
  {
    ghost predicate Valid()
      reads comp
    {
      && buf != scratch && buf != accum && buf != comp && scratch != accum && scratch != comp && accum != comp
      && radius >= 0 && RowsFit(g, buf.Length) && LiveSlotsApart(g, 2 * radius + 1, scratch.Length)
      && accum.Length == g.n && comp.Length == g.n && Zero(comp[..])
    }

    ghost predicate At(f: Lanes, out: Lanes, y: int, lo: int, hi: int)
      requires Valid()
      reads buf, scratch, accum, comp
    {
      Holding(g, f, out, radius, buf[..], scratch[..], accum[..], y, lo, hi)
    }
  }

  /** out is the clipped-window mean of f. */
  ghost predicate IsMean(g: Layout, radius: int, f: Lanes, out: Lanes) {
    && radius >= 0
    && (forall r, c :: 0 <= r < g.h && 0 <= c < g.n ==> MeanAt(g, radius, f, out, r, c))
  }

  predicate MeanAt(g: Layout, radius: int, f: Lanes, out: Lanes, r: int, c: int)
    requires radius >= 0 && 0 <= r < g.h
  {
    out(r, c) == Mean(Lane(f, c), g.h, radius, r)
  }

  /** _load_add: row hi enters the window and the ring. */
  method Enter(s: Sweep, ghost f: Lanes, ghost out: Lanes, ghost y: int, ghost lo: int, hi: int) returns (hi': int)
    requires s.Valid() && s.At(f, out, y, lo, hi) && hi < s.g.h && y <= hi && hi - lo <= 2 * s.radius
    modifies s.scratch, s.accum, s.comp
    ensures hi' == hi + 1 && s.Valid() && s.At(f, out, y, lo, hi')
  {
    var g := s.g;
    hi' := hi + 1;
    ghost var ring, sums := s.scratch[..], s.accum[..];
    CopyLanes(s.scratch, g.slot(hi), s.buf, g.row(hi), g.n);
    RingKeeps(g, f, s.radius, ring, s.scratch[..], s.buf[..], lo, hi);
    Accumulate(s.accum, s.comp, s.buf, g.row(hi), 1.0, s.compensated);
    SumsEnter(g, f, s.buf[..], sums, s.accum[..], lo, hi);
  }

  /** _sub: row lo leaves the window; its value comes from the ring. */
  method Leave(s: Sweep, ghost f: Lanes, ghost out: Lanes, ghost y: int, lo: int, ghost hi: int) returns (lo': int)
    requires s.Valid() && s.At(f, out, y, lo, hi) && lo < hi
    modifies s.accum, s.comp
    ensures lo' == lo + 1 && s.Valid() && s.At(f, out, y, lo', hi)
  {
    lo' := lo + 1;
    ghost var sums := s.accum[..];
    Accumulate(s.accum, s.comp, s.scratch, s.g.slot(lo), -1.0, s.compensated);
    SumsLeave(s.g, f, s.scratch[..], sums, s.accum[..], lo, hi);
  }

  /** _store_scaled: the mean of row y overwrites it. */
  method Emit(s: Sweep, ghost f: Lanes, ghost out: Lanes, y: int, ghost lo: int, ghost hi: int, hits: int) returns (y': int)
    requires s.Valid() && s.At(f, out, y, lo, hi) && y < s.g.h && hits == hi - lo
    requires IsMean(s.g, s.radius, f, out) && lo == Lo(y, s.radius) && hi == Hi(y, s.radius, s.g.h)
    modifies s.buf
    ensures y' == y + 1 && s.Valid() && s.At(f, out, y', lo, hi)
    ensures OthersSame(s.g, old(s.buf[..]), s.buf[..])
  {
    y' := y + 1;
    ghost var b := s.buf[..];
    StoreScaled(s.buf, s.g.row(y), s.accum, hits as real);
    assert forall p :: s.g.row(y) <= p < s.g.row(y) + s.g.n ==> OnRows(s.g, p);
    forall c | 0 <= c < s.g.n ensures s.buf[s.g.row(y) + c] == out(y, c) {
      assert MeanAt(s.g, s.radius, f, out, y, c);
    }
    EmitKeeps(s.g, f, out, b, s.buf[..], y);
  }

  ghost predicate OthersSame(g: Layout, b: seq<real>, b': seq<real>) {
    |b'| == |b| && forall p :: 0 <= p < |b| && !OnRows(g, p) ==> b'[p] == b[p]
  }

  lemma RingKeeps(g: Layout, f: Lanes, radius: int, ring: seq<real>, ring': seq<real>, b: seq<real>, lo: int, hi: int)
    requires RowsFit(g, |b|) && LiveSlotsApart(g, 2 * radius + 1, |ring|) && |ring'| == |ring| && 0 <= lo <= hi < g.h && hi - lo <= 2 * radius
    requires RingRows(g, f, ring, lo, hi) && forall c :: 0 <= c < g.n ==> b[g.row(hi) + c] == f(hi, c)
    requires forall p :: g.slot(hi) <= p < g.slot(hi) + g.n ==> ring'[p] == b[p - g.slot(hi) + g.row(hi)]
    requires forall p :: 0 <= p < |ring| && !(g.slot(hi) <= p < g.slot(hi) + g.n) ==> ring'[p] == ring[p]
    ensures RingRows(g, f, ring', lo, hi + 1)
  {
    forall r, c | lo <= r < hi + 1 && 0 <= r < g.h && 0 <= c < g.n ensures ring'[g.slot(r) + c] == f(r, c) {
      if r < hi {
        assert g.slot(r) + g.n <= g.slot(hi) || g.slot(hi) + g.n <= g.slot(r);
      } else {
        assert b[g.row(hi) + c] == f(hi, c);
      }
    }
  }

  lemma SumsEnter(g: Layout, f: Lanes, b: seq<real>, s: seq<real>, s': seq<real>, lo: int, hi: int)
    requires RowsFit(g, |b|) && |s| == g.n && |s'| == g.n && 0 <= lo <= hi < g.h && Sums(g, f, s, lo, hi)
    requires forall c :: 0 <= c < g.n ==> b[g.row(hi) + c] == f(hi, c)
    requires forall c :: 0 <= c < g.n ==> s'[c] == s[c] + 1.0 * b[g.row(hi) + c]
    ensures Sums(g, f, s', lo, hi + 1)
  {}

  lemma SumsLeave(g: Layout, f: Lanes, ring: seq<real>, s: seq<real>, s': seq<real>, lo: int, hi: int)
    requires forall r :: 0 <= r < g.h ==> 0 <= g.slot(r) && g.slot(r) + g.n <= |ring|
    requires |s| == g.n && |s'| == g.n && 0 <= lo < hi <= g.h && Sums(g, f, s, lo, hi) && RingRows(g, f, ring, lo, hi)
    requires forall c :: 0 <= c < g.n ==> s'[c] == s[c] + -1.0 * ring[g.slot(lo) + c]
    ensures Sums(g, f, s', lo + 1, hi)
  {
    forall c | 0 <= c < g.n ensures s'[c] == RangeSum(Lane(f, c), lo + 1, hi) {
      RangeSumDrop(Lane(f, c), lo, hi);
      assert ring[g.slot(lo) + c] == f(lo, c);
    }
  }

  lemma EmitKeeps(g: Layout, f: Lanes, out: Lanes, b: seq<real>, b': seq<real>, y: int)
    requires RowsFit(g, |b|) && |b'| == |b| && 0 <= y < g.h && RowsOut(g, f, out, b, y)
    requires forall c :: 0 <= c < g.n ==> b'[g.row(y) + c] == out(y, c)
    requires forall p :: 0 <= p < |b| && !(g.row(y) <= p < g.row(y) + g.n) ==> b'[p] == b[p]
    ensures RowsOut(g, f, out, b', y + 1)
  {
    forall r, c | 0 <= r < g.h && r >= y + 1 && 0 <= c < g.n ensures b'[g.row(r) + c] == f(r, c) {
      assert g.row(y) + g.n <= g.row(r);
    }
    forall r, c | 0 <= r < g.h && r < y + 1 && 0 <= c < g.n ensures b'[g.row(r) + c] == out(r, c) {
      if r < y { assert g.row(r) + g.n <= g.row(y); }
    }
  }

  // ---------------------------------------------------------------- the five phases

  /** Phase 1: add up the left half of the window. */
  method Fill(s: Sweep, ghost f: Lanes, ghost out: Lanes) returns (hits: int)
    requires s.Valid() && s.At(f, out, 0, 0, 0)
    modifies s.scratch, s.accum, s.comp
    ensures s.Valid() && s.At(f, out, 0, 0, hits) && hits == Min(s.radius, s.g.h)
  {
    hits := 0;
    while hits < (if s.radius < s.g.h then s.radius else s.g.h)
      invariant 0 <= hits <= s.radius && hits <= s.g.h
      invariant s.Valid() && s.At(f, out, 0, 0, hits)
    {
      hits := Enter(s, f, out, 0, 0, hits);
    }
  }

  /** One row of phase 2: row y + radius enters, row y is final. */
  method GrowStep(s: Sweep, ghost f: Lanes, ghost out: Lanes, y: int, hits: int) returns (y': int, hits': int)
    requires s.Valid() && IsMean(s.g, s.radius, f, out)
    requires 0 <= y <= s.radius && y + s.radius < s.g.h && hits == y + s.radius && s.At(f, out, y, 0, hits)
    modifies s.buf, s.scratch, s.accum, s.comp
    ensures y' == y + 1 && hits' == hits + 1 && s.Valid() && s.At(f, out, y', 0, hits')
    ensures OthersSame(s.g, old(s.buf[..]), s.buf[..])
  {
    hits' := Enter(s, f, out, y, 0, hits);
    y' := Emit(s, f, out, y, 0, hits', hits');
  }

  /** Phase 2: rows whose window still starts at row 0 and grows. */
  method Grow(s: Sweep, ghost f: Lanes, ghost out: Lanes, hits0: int) returns (y: int, hits: int)
    requires s.Valid() && IsMean(s.g, s.radius, f, out) && s.At(f, out, 0, 0, hits0) && hits0 == Min(s.radius, s.g.h)
    modifies s.buf, s.scratch, s.accum, s.comp
    ensures s.Valid() && 0 <= y <= s.radius + 1 && y <= s.g.h && hits == Min(y + s.radius, s.g.h) && s.At(f, out, y, 0, hits)
    ensures y <= s.radius ==> hits == s.g.h
    ensures OthersSame(s.g, old(s.buf[..]), s.buf[..])
  {
    y, hits := 0, hits0;
    while y <= s.radius && y + s.radius < s.g.h
      invariant 0 <= y <= s.radius + 1 && y <= s.g.h && hits == Min(y + s.radius, s.g.h)
      invariant s.Valid() && s.At(f, out, y, 0, hits)
      invariant OthersSame(s.g, old(s.buf[..]), s.buf[..])
    {
      y, hits := GrowStep(s, f, out, y, hits);
    }
  }

  /** Phase 3: rows whose window is the whole column. */
  method Hold(s: Sweep, ghost f: Lanes, ghost out: Lanes, y0: int, hits: int) returns (y: int)
    requires s.Valid() && IsMean(s.g, s.radius, f, out)
    requires 0 <= y0 <= s.radius + 1 && y0 <= s.g.h && hits == Min(y0 + s.radius, s.g.h) && s.At(f, out, y0, 0, hits)
    requires y0 <= s.radius ==> hits == s.g.h
    modifies s.buf
    ensures s.Valid() && y == Min(s.radius + 1, s.g.h) && hits == Min(y + s.radius, s.g.h) && s.At(f, out, y, 0, hits)
    ensures OthersSame(s.g, old(s.buf[..]), s.buf[..])
  {
    y := y0;
    while y <= s.radius && y < s.g.h
      invariant y0 <= y <= s.radius + 1 && y <= s.g.h && hits == Min(y + s.radius, s.g.h)
      invariant y <= s.radius ==> hits == s.g.h
      invariant s.Valid() && s.At(f, out, y, 0, hits)
      invariant OthersSame(s.g, old(s.buf[..]), s.buf[..])
    {
      y := Emit(s, f, out, y, 0, hits, hits);
    }
  }

  /** One row of phase 4: row op leaves, row np enters. */
  method BulkStep(s: Sweep, ghost f: Lanes, ghost out: Lanes, y: int, op: int, np: int, hits: int)
    returns (y': int, op': int, np': int)
    requires s.Valid() && IsMean(s.g, s.radius, f, out) && hits == 2 * s.radius + 1
    requires op == y - s.radius - 1 && np == y + s.radius && 0 <= op && np < s.g.h && s.At(f, out, y, op, np)
    modifies s.buf, s.scratch, s.accum, s.comp
    ensures y' == y + 1 && op' == op + 1 && np' == np + 1
    ensures s.Valid() && s.At(f, out, y', op', np')
    ensures OthersSame(s.g, old(s.buf[..]), s.buf[..])
  {
    op', np' := Exchange(s, f, out, y, op, np);
    y' := Emit(s, f, out, y, op', np', hits);
  }

  /** Row op leaves and row np enters. */
  method Exchange(s: Sweep, ghost f: Lanes, ghost out: Lanes, ghost y: int, op: int, np: int) returns (op': int, np': int)
    requires s.Valid() && s.At(f, out, y, op, np) && op < np < s.g.h && y <= np && np - op <= 2 * s.radius + 1
    modifies s.scratch, s.accum, s.comp
    ensures op' == op + 1 && np' == np + 1
    ensures s.Valid() && s.At(f, out, y, op', np')
  {
    op' := Leave(s, f, out, y, op, np);
    np' := Enter(s, f, out, y, op', np);
  }

  /** Phase 4: the bulk. */
  method Bulk(s: Sweep, ghost f: Lanes, ghost out: Lanes, y0: int, op0: int, np0: int, hits: int) returns (y: int, op: int, np: int)
    requires s.Valid() && IsMean(s.g, s.radius, f, out) && hits == 2 * s.radius + 1
    requires op0 == y0 - s.radius - 1 && np0 == y0 + s.radius && 0 <= op0 && np0 <= s.g.h && s.At(f, out, y0, op0, np0)
    modifies s.buf, s.scratch, s.accum, s.comp
    ensures np == s.g.h && y + s.radius == np && op == y - s.radius - 1 >= 0
    ensures s.Valid() && s.At(f, out, y, op, np)
    ensures OthersSame(s.g, old(s.buf[..]), s.buf[..])
  {
    y, op, np := y0, op0, np0;
    while np < s.g.h
      invariant op == y - s.radius - 1 && np == y + s.radius && 0 <= op && np <= s.g.h
      invariant s.Valid() && s.At(f, out, y, op, np)
      invariant OthersSame(s.g, old(s.buf[..]), s.buf[..])
    {
      y, op, np := BulkStep(s, f, out, y, op, np, hits);
    }
  }

  /** One row of phase 5: row op leaves. */
  method ShrinkStep(s: Sweep, ghost f: Lanes, ghost out: Lanes, y: int, op: int, hits: int) returns (y': int, op': int)
    requires s.Valid() && IsMean(s.g, s.radius, f, out) && op == y - s.radius - 1
    requires 0 <= op && y < s.g.h <= y + s.radius && hits == s.g.h - op - 1 && s.At(f, out, y, op, s.g.h)
    modifies s.buf, s.accum, s.comp
    ensures y' == y + 1 && op' == op + 1 && s.Valid() && s.At(f, out, y', op', s.g.h)
    ensures OthersSame(s.g, old(s.buf[..]), s.buf[..])
  {
    op' := Leave(s, f, out, y, op, s.g.h);
    y' := Emit(s, f, out, y, op', s.g.h, hits);
  }

  /** Phase 5: nothing left to enter. */
  method Shrink(s: Sweep, ghost f: Lanes, ghost out: Lanes, y0: int, op0: int, hits0: int)
    requires s.Valid() && IsMean(s.g, s.radius, f, out) && op0 == y0 - s.radius - 1
    requires 0 <= op0 && y0 <= s.g.h <= y0 + s.radius && hits0 == s.g.h - op0 && s.At(f, out, y0, op0, s.g.h)
    modifies s.buf, s.accum, s.comp
    ensures RowsOut(s.g, f, out, s.buf[..], s.g.h)
    ensures OthersSame(s.g, old(s.buf[..]), s.buf[..])
  {
    var y, op, hits := y0, op0, hits0;
    while y < s.g.h
      invariant op == y - s.radius - 1 && 0 <= op && y <= s.g.h <= y + s.radius && hits == s.g.h - op
      invariant s.Valid() && s.At(f, out, y, op, s.g.h)
      invariant OthersSame(s.g, old(s.buf[..]), s.buf[..])
    {
      hits := hits - 1;
      y, op := ShrinkStep(s, f, out, y, op, hits);
    }
  }

  /** The phases in order. */
  method RunSweep(s: Sweep, ghost f: Lanes, ghost out: Lanes)
    requires s.Valid() && IsMean(s.g, s.radius, f, out) && s.At(f, out, 0, 0, 0)
    modifies s.buf, s.scratch, s.accum, s.comp
    ensures RowsOut(s.g, f, out, s.buf[..], s.g.h)
    ensures OthersSame(s.g, old(s.buf[..]), s.buf[..])
  {
    var hits := Fill(s, f, out);
    var y;
    y, hits := Grow(s, f, out, hits);
    y := Hold(s, f, out, y, hits);
    if y < s.g.h {
      RightHalf(s, f, out, y, hits);
    }
  }

  method RightHalf(s: Sweep, ghost f: Lanes, ghost out: Lanes, y: int, hits: int)
    requires s.Valid() && IsMean(s.g, s.radius, f, out)
    requires y == s.radius + 1 < s.g.h && hits == Min(y + s.radius, s.g.h) && s.At(f, out, y, 0, hits)
    modifies s.buf, s.scratch, s.accum, s.comp
    ensures RowsOut(s.g, f, out, s.buf[..], s.g.h)
    ensures OthersSame(s.g, old(s.buf[..]), s.buf[..])
  {
    if y + s.radius < s.g.h {
      var y', op, np := Bulk(s, f, out, y, 0, hits, hits);
      Shrink(s, f, out, y', op, hits);
    } else {
      Shrink(s, f, out, y, 0, hits);
    }
  }

  /** _blur_horizontal and _blur_vertical: every row becomes the mean of its clipped window, in place. */
  method BlurLanes(g: Layout, radius: int, compensated: bool, buf: array<real>, scratch: array<real>, ghost f: Lanes, ghost out: Lanes)
    requires buf != scratch && RowsFit(g, buf.Length) && IsMean(g, radius, f, out) && LiveSlotsApart(g, 2 * radius + 1, scratch.Length)
    requires RowsOut(g, f, out, buf[..], 0)
    modifies buf, scratch
    ensures RowsOut(g, f, out, buf[..], g.h)
    ensures OthersSame(g, old(buf[..]), buf[..])
  {
    var accum := new real[g.n](_ => 0.0);
    var comp := new real[g.n](_ => 0.0);
    RunSweep(Sweep(g, radius, compensated, buf, scratch, accum, comp), f, out);
  }
}
