/**
  dt_box_max and dt_box_min on one channel, in place. The two are the same code with the comparison
  turned round, so they are one model over a direction.
 */
module BoxExtremum {
  import opened Numeric
  import opened Bits
  import opened BoxRing

  /** Which extremum: Up is the maximum, Down the minimum. */
  datatype Dir = Up | Down

  const MAX_VECT := 16

  function Best(d: Dir, a: real, b: real): real {
    match d
    case Up => if a > b then a else b
    case Down => if a < b then a else b
  }

  /** The value an empty window has: -FLT_MAX or FLT_MAX. */
  function Worst(d: Dir): real { if d.Up? then -FLT_MAX else FLT_MAX }

  lemma WorstIs()
    ensures Worst(Up) == -340282346638528859811704183484516925440.0
    ensures Worst(Down) == 340282346638528859811704183484516925440.0
  {}

  predicate Beats(d: Dir, a: real, b: real) { if d.Up? then a >= b else a <= b }

  /** m is the extremum of f over the indices in p, and `Worst` if there are none. */
  ghost predicate IsBest(d: Dir, f: int -> real, p: int -> bool, m: real) {
    && (forall i :: p(i) ==> Beats(d, m, f(i)))
    && (m == Worst(d) || exists i :: p(i) && f(i) == m)
  }

  /** All values are finite floats. */
  ghost predicate Finite(f: int -> real) { forall i :: -FLT_MAX <= f(i) <= FLT_MAX }

  ghost predicate Extends(p: int -> bool, q: int -> bool, k: int) {
    forall i :: q(i) <==> p(i) || i == k
  }

  /** Folding in one more value. */
  lemma BestNext(d: Dir, f: int -> real, p: int -> bool, q: int -> bool, k: int, m: real)
    requires IsBest(d, f, p, m) && Extends(p, q, k) && Finite(f)
    ensures IsBest(d, f, q, Best(d, m, f(k)))
  {
    var n := Best(d, m, f(k));
    if n == f(k) {
      assert q(k);
    } else if m != Worst(d) {
      var i :| p(i) && f(i) == m;
      assert q(i);
    }
    assert Beats(d, m, f(k)) || n == f(k);
  }

  /** Dropping a value that is not the extremum. */
  lemma BestDrop(d: Dir, f: int -> real, p: int -> bool, q: int -> bool, k: int, m: real)
    requires IsBest(d, f, p, m) && Extends(q, p, k) && f(k) != m
    ensures IsBest(d, f, q, m)
  {
    if m != Worst(d) {
      var i :| p(i) && f(i) == m;
      assert q(i);
    }
  }

  lemma BestSame(d: Dir, f: int -> real, p: int -> bool, q: int -> bool, m: real)
    requires IsBest(d, f, p, m) && forall i :: p(i) <==> q(i)
    ensures IsBest(d, f, q, m)
  {
    if m != Worst(d) {
      var i :| p(i) && f(i) == m;
      assert q(i);
    }
  }

  // ---------------------------------------------------------------- one row

  function Between(lo: int, hi: int): int -> bool { i => lo <= i < hi }

  function At1(x: seq<real>): int -> real { i => if 0 <= i < |x| then x[i] else 0.0 }

  ghost predicate FiniteSeq(x: seq<real>) { forall i :: 0 <= i < |x| ==> -FLT_MAX <= x[i] <= FLT_MAX }

  /** _window_max and _window_min. */
  method ScanWindow(d: Dir, x: seq<real>, lo: int, hi: int) returns (m: real)
    requires 0 <= lo && hi <= |x| && FiniteSeq(x)
    ensures IsBest(d, At1(x), Between(lo, hi), m)
  {
    m := Worst(d);
    var j := lo;
    while j < hi
      invariant lo <= j && (j <= hi || j == lo)
      invariant IsBest(d, At1(x), Between(lo, j), m)
    {
      BestNext(d, At1(x), Between(lo, j), Between(lo, j + 1), j, m);
      m := Best(d, m, x[j]);
      j := j + 1;
    }
    BestSame(d, At1(x), Between(lo, j), Between(lo, hi), m);
  }

  /** The clipped window of sample i. */
  function Window(n: int, w: int, i: int): int -> bool { Between(Max(0, i - w), Min(i + w + 1, n)) }

  /** Window i without its first sample: the extremum is kept unless it was that sample. */
  method DropFirst(d: Dir, x: seq<real>, w: int, i: int, m0: real) returns (m: real, ghost hi: int)
    requires w >= 0 && 0 <= i < |x| && FiniteSeq(x) && IsBest(d, At1(x), Window(|x|, w, i), m0)
    ensures hi == Min(i + w + 1, |x|) || hi == Min(i + w + 2, |x|)
    ensures IsBest(d, At1(x), Between(Max(0, i + 1 - w), hi), m)
  {
    m := m0;
    if i - w >= 0 && x[i - w] == m {
      m := ScanWindow(d, x, i - w + 1, if i + w + 2 < |x| then i + w + 2 else |x|);
      hi := Min(i + w + 2, |x|);
    } else {
      hi := Min(i + w + 1, |x|);
      if i - w >= 0 {
        BestDrop(d, At1(x), Window(|x|, w, i), Between(i + 1 - w, hi), i - w, m);
      }
    }
  }

  /** One step of the lazy rescan: from the extremum of window i to that of window i + 1. */
  method Slide(d: Dir, x: seq<real>, w: int, i: int, m0: real) returns (m: real)
    requires w >= 0 && 0 <= i < |x| && FiniteSeq(x) && IsBest(d, At1(x), Window(|x|, w, i), m0)
    ensures i + 1 < |x| ==> IsBest(d, At1(x), Window(|x|, w, i + 1), m)
  {
    ghost var hi;
    m, hi := DropFirst(d, x, w, i, m0);
    if i + w + 1 < |x| {
      ghost var lo := Max(0, i + 1 - w);
      BestNext(d, At1(x), Between(lo, hi), Between(lo, i + w + 2), i + w + 1, m);
      m := Best(d, x[i + w + 1], m);
    }
  }

  /** box_max_1d and _box_min_1d: x is a copy of the row that the result overwrites. */
  method BoxRow(d: Dir, x: seq<real>, buf: array<real>, base: int, w: int)
    requires w >= 0 && FiniteSeq(x) && 0 <= base && base + |x| <= buf.Length
    modifies buf
    ensures forall i :: 0 <= i < |x| ==> IsBest(d, At1(x), Window(|x|, w, i), buf[base + i])
    ensures forall p :: 0 <= p < buf.Length && !(base <= p < base + |x|) ==> buf[p] == old(buf[p])
  {
    var m := ScanWindow(d, x, 0, if w + 1 < |x| then w + 1 else |x|);
    for i := 0 to |x|
      invariant i < |x| ==> IsBest(d, At1(x), Window(|x|, w, i), m)
      invariant forall k :: 0 <= k < i ==> IsBest(d, At1(x), Window(|x|, w, k), buf[base + k])
      invariant forall p :: 0 <= p < buf.Length && !(base <= p < base + |x|) ==> buf[p] == old(buf[p])
    {
      buf[base + i] := m;
      m := Slide(d, x, w, i, m);
    }
  }

  // ---------------------------------------------------------------- vectors of adjacent columns

  method StoreLanes(buf: array<real>, bo: int, m: array<real>)
    requires buf != m && 0 <= bo && bo + m.Length <= buf.Length
    modifies buf
    ensures forall c :: 0 <= c < m.Length ==> buf[bo + c] == m[c]
    ensures forall p :: 0 <= p < buf.Length && !(bo <= p < bo + m.Length) ==> buf[p] == old(buf[p])
  {
    for c := 0 to m.Length
      invariant forall k :: 0 <= k < c ==> buf[bo + k] == m[k]
      invariant forall p :: 0 <= p < buf.Length && !(bo <= p < bo + m.Length) ==> buf[p] == old(buf[p])
    {
      buf[bo + c] := m[c];
    }
  }

  method SetLanes(m: array<real>, v: real)
    modifies m
    ensures forall c :: 0 <= c < m.Length ==> m[c] == v
  {
    for c := 0 to m.Length
      invariant forall k :: 0 <= k < c ==> m[k] == v
    {
      m[c] := v;
    }
  }

  /** _update_max: fold one ring row into the running extrema. */
  method FoldLanes(d: Dir, m: array<real>, scratch: array<real>, so: int)
    requires m != scratch && 0 <= so && so + m.Length <= scratch.Length
    modifies m
    ensures forall c :: 0 <= c < m.Length ==> m[c] == Best(d, old(m[c]), scratch[so + c])
  {
    for c := 0 to m.Length
      invariant forall k :: 0 <= k < m.Length ==> m[k] == if k < c then Best(d, old(m[k]), scratch[so + k]) else old(m[k])
    {
      m[c] := Best(d, m[c], scratch[so + c]);
    }
  }

  method CopyLanes(scratch: array<real>, so: int, buf: array<real>, bo: int, n: int)
    requires scratch != buf && n >= 0 && 0 <= so && so + n <= scratch.Length && 0 <= bo && bo + n <= buf.Length
    modifies scratch
    ensures forall p :: so <= p < so + n ==> scratch[p] == buf[p - so + bo]
    ensures forall p :: 0 <= p < scratch.Length && !(so <= p < so + n) ==> scratch[p] == old(scratch[p])
  {
    for c := 0 to n
      invariant forall p :: so <= p < so + c ==> scratch[p] == buf[p - so + bo]
      invariant forall p :: 0 <= p < scratch.Length && !(so <= p < so + n) ==> scratch[p] == old(scratch[p])
    {
      scratch[so + c] := buf[bo + c];
    }
  }

  /** _load_update_max: copy a buffer row into the ring and fold it in. */
  method LoadLanes(d: Dir, scratch: array<real>, so: int, m: array<real>, buf: array<real>, bo: int)
    requires m != scratch && m != buf && scratch != buf
    requires 0 <= so && so + m.Length <= scratch.Length && 0 <= bo && bo + m.Length <= buf.Length
    modifies m, scratch
    ensures forall c :: 0 <= c < m.Length ==> m[c] == Best(d, old(m[c]), buf[bo + c])
    ensures forall p :: so <= p < so + m.Length ==> scratch[p] == buf[p - so + bo]
    ensures forall p :: 0 <= p < scratch.Length && !(so <= p < so + m.Length) ==> scratch[p] == old(scratch[p])
  {
    CopyLanes(scratch, so, buf, bo, m.Length);
    FoldLanes(d, m, scratch, so);
  }

  // ---------------------------------------------------------------- one group of columns

  /** Row r, lane c. */
  type Lanes = (int, int) -> real

  function Lane(f: Lanes, c: int): int -> real { r => f(r, c) }

  ghost predicate FiniteLanes(f: Lanes) { forall r, c :: -FLT_MAX <= f(r, c) <= FLT_MAX }

  ghost function Survivors(h: int, w: int, mask: nat, o: int): int -> bool { r => Surviving(h, w, mask, o, r) }

  /** How rows are laid out in the buffer and in the ring: row(r) and slot(r) are the offsets of lane 0. */
  datatype Layout = Layout(h: int, n: int, mask: nat, row: int -> int, slot: int -> int)

  /** Rows lie in the buffer, one after the other. */
  ghost predicate RowsFit(g: Layout, bufLen: int) {
    && g.h >= 0 && g.n >= 0
    && (forall r :: 0 <= r < g.h ==> 0 <= g.row(r) && g.row(r) + g.n <= bufLen)
    && (forall r, s :: 0 <= r < s < g.h ==> g.row(r) + g.n <= g.row(s))
  }

  /** Rows share a ring slot exactly when they agree under the mask; other slots do not overlap. */
  ghost predicate SlotsAgree(g: Layout, r: nat, s: nat) {
    if BitAnd(r, g.mask) == BitAnd(s, g.mask) then g.slot(r) == g.slot(s)
    else g.slot(r) + g.n <= g.slot(s) || g.slot(s) + g.n <= g.slot(r)
  }

  ghost predicate SlotsFit(g: Layout, ringLen: int) {
    && (forall r: nat :: r < g.h ==> 0 <= g.slot(r) && g.slot(r) + g.n <= ringLen)
    && (forall r: nat, s: nat :: r < g.h && s < g.h ==> SlotsAgree(g, r, s))
  }

  ghost predicate Fits(g: Layout, bufLen: int, ringLen: int) { RowsFit(g, bufLen) && SlotsFit(g, ringLen) }

  /** The ring holds every row below k that has not been overwritten since. */
  ghost predicate RingHolds(g: Layout, f: Lanes, ring: seq<real>, k: int)
    requires forall r: nat :: r < g.h ==> 0 <= g.slot(r) && g.slot(r) + g.n <= |ring|
  {
    forall r: nat, c :: r < k && r < g.h && 0 <= c < g.n && Fresh(g.mask, r, k) ==> ring[g.slot(r) + c] == f(r, c)
  }

  lemma RingLoad(g: Layout, f: Lanes, bufLen: int, ring: seq<real>, ring': seq<real>, k: nat)
    requires Fits(g, bufLen, |ring|) && |ring'| == |ring| && k < g.h && RingHolds(g, f, ring, k)
    requires forall c :: 0 <= c < g.n ==> ring'[g.slot(k) + c] == f(k, c)
    requires forall p :: 0 <= p < |ring| && !(g.slot(k) <= p < g.slot(k) + g.n) ==> ring'[p] == ring[p]
    ensures RingHolds(g, f, ring', k + 1)
  {
    forall r: nat, c | r < k + 1 && r < g.h && 0 <= c < g.n && Fresh(g.mask, r, k + 1)
      ensures ring'[g.slot(r) + c] == f(r, c)
    {
      if r < k {
        assert BitAnd(k, g.mask) != BitAnd(r, g.mask);
        assert Fresh(g.mask, r, k);
        assert SlotsAgree(g, r, k);
      }
    }
  }

  /** The last row below k that shares the slot of r. */
  lemma LastInSlot(mask: nat, r: nat, k: int) returns (s: nat)
    requires r < k
    ensures r <= s < k && BitAnd(s, mask) == BitAnd(r, mask) && Fresh(mask, s, k)
    decreases k - r
  {
    if Fresh(mask, r, k) {
      s := r;
    } else {
      var i: nat :| r < i < k && BitAnd(i, mask) == BitAnd(r, mask);
      s := LastInSlot(mask, i, k);
    }
  }

  /** The rows of a rescan: those of lo .. hi - 1 that are still in the ring. */
  ghost function FreshBetween(mask: nat, lo: int, hi: int): int -> bool
    requires lo >= 0
  {
    r => lo <= r < hi && r >= 0 && Fresh(mask, r, hi)
  }

  function RingLane(g: Layout, ring: seq<real>, lo: int, hi: int, c: int): int -> real {
    r => if lo <= r < hi && 0 <= g.slot(r) + c < |ring| then ring[g.slot(r) + c] else 0.0
  }

  /** Scanning slots lo .. hi - 1 is scanning the rows that survive in them. */
  lemma RescanMeaning(d: Dir, g: Layout, f: Lanes, bufLen: int, ring: seq<real>, lo: nat, hi: int, c: int, m: real)
    requires Fits(g, bufLen, |ring|) && hi <= g.h && 0 <= c < g.n && RingHolds(g, f, ring, hi)
    requires IsBest(d, RingLane(g, ring, lo, hi, c), Between(lo, hi), m)
    ensures IsBest(d, Lane(f, c), FreshBetween(g.mask, lo, hi), m)
  {
    RescanUpper(d, g, f, bufLen, ring, lo, hi, c, m);
    if m != Worst(d) {
      var j :| Between(lo, hi)(j) && RingLane(g, ring, lo, hi, c)(j) == m;
      var s := SlotContent(g, f, bufLen, ring, lo, hi, c, j);
      assert FreshBetween(g.mask, lo, hi)(s) && Lane(f, c)(s) == m;
    }
  }

  lemma SlotContent(g: Layout, f: Lanes, bufLen: int, ring: seq<real>, lo: nat, hi: int, c: int, j: nat) returns (s: nat)
    requires Fits(g, bufLen, |ring|) && hi <= g.h && 0 <= c < g.n && RingHolds(g, f, ring, hi) && lo <= j < hi
    ensures j <= s < hi && Fresh(g.mask, s, hi) && RingLane(g, ring, lo, hi, c)(j) == f(s, c)
  {
    s := LastInSlot(g.mask, j, hi);
    assert SlotsAgree(g, j, s);
    assert ring[g.slot(s) + c] == f(s, c);
  }

  lemma RescanUpper(d: Dir, g: Layout, f: Lanes, bufLen: int, ring: seq<real>, lo: nat, hi: int, c: int, m: real)
    requires Fits(g, bufLen, |ring|) && hi <= g.h && 0 <= c < g.n && RingHolds(g, f, ring, hi)
    requires forall r :: Between(lo, hi)(r) ==> Beats(d, m, RingLane(g, ring, lo, hi, c)(r))
    ensures forall r :: FreshBetween(g.mask, lo, hi)(r) ==> Beats(d, m, Lane(f, c)(r))
  {
    forall r | FreshBetween(g.mask, lo, hi)(r) ensures Beats(d, m, Lane(f, c)(r)) {
      assert Between(lo, hi)(r);
      assert ring[g.slot(r) + c] == f(r, c);
    }
  }

  /** The rescan loop of _box_max_vert over ring rows lo .. hi - 1. */
  method Rescan(d: Dir, g: Layout, m: array<real>, scratch: array<real>, lo: nat, hi: int, ghost bufLen: int)
    requires m != scratch && m.Length == g.n && Fits(g, bufLen, scratch.Length) && hi <= g.h
    requires FiniteRing(g, scratch[..], lo, hi)
    modifies m
    ensures forall c :: 0 <= c < g.n ==> IsBest(d, RingLane(g, scratch[..], lo, hi, c), Between(lo, hi), m[c])
  {
    ghost var ring := scratch[..];
    SetLanes(m, Worst(d));
    var j: int := lo;
    while j < hi
      invariant lo <= j && (j <= hi || j == lo) && scratch[..] == ring
      invariant Scanned(d, g, ring, lo, hi, j, m[..])
    {
      ghost var before := m[..];
      FoldLanes(d, m, scratch, g.slot(j));
      RescanStep(d, g, ring, lo, hi, j, before, m[..]);
      j := j + 1;
    }
    forall c | 0 <= c < g.n ensures IsBest(d, RingLane(g, ring, lo, hi, c), Between(lo, hi), m[c]) {
      BestSame(d, RingLane(g, ring, lo, hi, c), Between(lo, j), Between(lo, hi), m[c]);
    }
  }

  /** The lanes hold the extrema of ring rows lo .. j - 1. */
  ghost predicate Scanned(d: Dir, g: Layout, ring: seq<real>, lo: int, hi: int, j: int, m: seq<real>)
    requires |m| == g.n
  {
    forall c :: 0 <= c < g.n ==> IsBest(d, RingLane(g, ring, lo, hi, c), Between(lo, j), m[c])
  }

  ghost predicate FiniteRing(g: Layout, ring: seq<real>, lo: int, hi: int) {
    forall c, r :: 0 <= c < g.n && lo <= r < hi ==> -FLT_MAX <= RingLane(g, ring, lo, hi, c)(r) <= FLT_MAX
  }

  /** One ring row folded into all lanes. */
  lemma RescanStep(d: Dir, g: Layout, ring: seq<real>, lo: int, hi: int, j: int, m: seq<real>, m': seq<real>)
    requires |m| == g.n && |m'| == g.n && lo <= j < hi && Scanned(d, g, ring, lo, hi, j, m) && FiniteRing(g, ring, lo, hi)
    requires forall c :: 0 <= c < g.n ==> m'[c] == Best(d, m[c], RingLane(g, ring, lo, hi, c)(j))
    ensures Scanned(d, g, ring, lo, hi, j + 1, m')
  {
    forall c | 0 <= c < g.n ensures IsBest(d, RingLane(g, ring, lo, hi, c), Between(lo, j + 1), m'[c]) {
      FiniteRingLane(g, ring, lo, hi, c);
      BestNext(d, RingLane(g, ring, lo, hi, c), Between(lo, j), Between(lo, j + 1), j, m[c]);
    }
  }

  lemma FiniteRingLane(g: Layout, ring: seq<real>, lo: int, hi: int, c: int)
    requires forall r :: lo <= r < hi ==> -FLT_MAX <= RingLane(g, ring, lo, hi, c)(r) <= FLT_MAX
    ensures Finite(RingLane(g, ring, lo, hi, c))
  {}

  // ---------------------------------------------------------------- the invariant of the column loop

  /** How many rows have been loaded when output row i is due. */
  function Loaded(h: int, w: int, i: int): int { Min(i + w + 1, h) }

  ghost predicate ColumnState(d: Dir, g: Layout, f: Lanes, w: int, b: seq<real>, ring: seq<real>, m: seq<real>, i: int)
    requires Fits(g, |b|, |ring|) && |m| == g.n
  {
    && RowsDone(d, g, f, w, b, i)
    && RingHolds(g, f, ring, Loaded(g.h, w, i))
    && (i < g.h ==> LanesBest(d, g, f, Survivors(g.h, w, g.mask, i), m))
  }

  /** Output rows below i are final, the others untouched. */
  ghost predicate RowsDone(d: Dir, g: Layout, f: Lanes, w: int, b: seq<real>, i: int)
    requires forall r :: 0 <= r < g.h ==> 0 <= g.row(r) && g.row(r) + g.n <= |b|
  {
    && (forall r, c :: i <= r < g.h && 0 <= c < g.n && 0 <= r ==> b[g.row(r) + c] == f(r, c))
    && (forall r, c :: 0 <= r < i && r < g.h && 0 <= c < g.n ==>
          IsBest(d, Lane(f, c), Survivors(g.h, w, g.mask, r), b[g.row(r) + c]))
  }

  /** What survives for row i + 1 before its last row is loaded. */
  ghost predicate Pending(h: int, w: int, mask: nat, i: int, r: int) {
    Surviving(h, w, mask, i + 1, r) && r < Loaded(h, w, i)
  }

  ghost function PendingSet(h: int, w: int, mask: nat, i: int): int -> bool { r => Pending(h, w, mask, i, r) }

  /** Before the window leaves row 0 nothing is dropped. */
  lemma PendingEarly(h: int, w: int, mask: nat, i: int)
    requires 0 <= i < w
    ensures forall r :: PendingSet(h, w, mask, i)(r) <==> Survivors(h, w, mask, i)(r)
  {}

  /** Afterwards exactly the fresh rows of the rescan remain. */
  lemma PendingRescan(h: int, w: int, mask: nat, i: int)
    requires 0 <= w <= i
    ensures forall r :: PendingSet(h, w, mask, i)(r) <==> FreshBetween(mask, i - w + 1, Loaded(h, w, i))(r)
  {}

  /** Loading row i + w + 1 completes the window of row i + 1. */
  lemma PendingLoad(h: int, w: int, mask: nat, i: int)
    requires 0 <= i && 0 <= w
    ensures i + w + 1 < h ==> Extends(PendingSet(h, w, mask, i), Survivors(h, w, mask, i + 1), i + w + 1)
    ensures i + w + 1 >= h ==> forall r :: PendingSet(h, w, mask, i)(r) <==> Survivors(h, w, mask, i + 1)(r)
  {}

  ghost predicate LanesBest(d: Dir, g: Layout, f: Lanes, p: int -> bool, m: seq<real>)
    requires |m| == g.n
  {
    forall c :: 0 <= c < g.n ==> IsBest(d, Lane(f, c), p, m[c])
  }

  lemma WindowFinite(g: Layout, f: Lanes, bufLen: int, ring: seq<real>, lo: nat, hi: int)
    requires Fits(g, bufLen, |ring|) && hi <= g.h && RingHolds(g, f, ring, hi) && FiniteLanes(f)
    ensures forall c, r :: 0 <= c < g.n && lo <= r < hi ==> -FLT_MAX <= RingLane(g, ring, lo, hi, c)(r) <= FLT_MAX
  {
    forall c, r | 0 <= c < g.n && lo <= r < hi
      ensures -FLT_MAX <= RingLane(g, ring, lo, hi, c)(r) <= FLT_MAX
    {
      var s := LastInSlot(g.mask, r, hi);
      assert SlotsAgree(g, r, s);
      assert ring[g.slot(s) + c] == f(s, c);
    }
  }

  /** Drop the row that leaves the window, by rescanning the ring once the window has left row 0. */
  method DropOldest(d: Dir, g: Layout, ghost f: Lanes, w: int, scratch: array<real>, m: array<real>, i: int, ghost bufLen: int)
    requires m != scratch && m.Length == g.n && Fits(g, bufLen, scratch.Length) && FiniteLanes(f)
    requires 0 <= i < g.h && w >= 0 && RingHolds(g, f, scratch[..], Loaded(g.h, w, i))
    requires LanesBest(d, g, f, Survivors(g.h, w, g.mask, i), m[..])
    modifies m
    ensures LanesBest(d, g, f, PendingSet(g.h, w, g.mask, i), m[..])
  {
    if i >= w {
      var lo, hi := i - w + 1, if i + w + 1 < g.h then i + w + 1 else g.h;
      WindowFinite(g, f, bufLen, scratch[..], lo, hi);
      Rescan(d, g, m, scratch, lo, hi, bufLen);
      PendingRescan(g.h, w, g.mask, i);
      forall c | 0 <= c < g.n ensures IsBest(d, Lane(f, c), PendingSet(g.h, w, g.mask, i), m[c]) {
        RescanMeaning(d, g, f, bufLen, scratch[..], lo, hi, c, m[c]);
        BestSame(d, Lane(f, c), FreshBetween(g.mask, lo, hi), PendingSet(g.h, w, g.mask, i), m[c]);
      }
    } else {
      PendingEarly(g.h, w, g.mask, i);
      forall c | 0 <= c < g.n ensures IsBest(d, Lane(f, c), PendingSet(g.h, w, g.mask, i), m[c]) {
        BestSame(d, Lane(f, c), Survivors(g.h, w, g.mask, i), PendingSet(g.h, w, g.mask, i), m[c]);
      }
    }
  }

  /** Load the row that enters the window. */
  method LoadNewest(d: Dir, g: Layout, ghost f: Lanes, w: int, buf: array<real>, scratch: array<real>, m: array<real>, i: int)
    requires m != scratch && m != buf && scratch != buf && m.Length == g.n && Fits(g, buf.Length, scratch.Length) && FiniteLanes(f)
    requires 0 <= i < g.h && w >= 0 && RingHolds(g, f, scratch[..], Loaded(g.h, w, i))
    requires forall r, c :: i < r < g.h && 0 <= c < g.n ==> buf[g.row(r) + c] == f(r, c)
    requires LanesBest(d, g, f, PendingSet(g.h, w, g.mask, i), m[..])
    modifies m, scratch
    ensures RingHolds(g, f, scratch[..], Loaded(g.h, w, i + 1))
    ensures LanesBest(d, g, f, Survivors(g.h, w, g.mask, i + 1), m[..])
  {
    var n := i + w + 1;
    PendingLoad(g.h, w, g.mask, i);
    ghost var before, ring := m[..], scratch[..];
    if n < g.h {
      LoadLanes(d, scratch, g.slot(n), m, buf, g.row(n));
      RingLoad(g, f, buf.Length, ring, scratch[..], n);
      forall c | 0 <= c < g.n ensures IsBest(d, Lane(f, c), Survivors(g.h, w, g.mask, i + 1), m[c]) {
        BestNext(d, Lane(f, c), PendingSet(g.h, w, g.mask, i), Survivors(g.h, w, g.mask, i + 1), n, before[c]);
      }
    } else {
      forall c | 0 <= c < g.n ensures IsBest(d, Lane(f, c), Survivors(g.h, w, g.mask, i + 1), m[c]) {
        BestSame(d, Lane(f, c), PendingSet(g.h, w, g.mask, i), Survivors(g.h, w, g.mask, i + 1), m[c]);
      }
    }
  }

  /** Store the extrema of row i at its place. */
  method StoreRow(d: Dir, g: Layout, ghost f: Lanes, w: int, buf: array<real>, m: array<real>, i: int, ghost ringLen: int)
    requires m != buf && m.Length == g.n && Fits(g, buf.Length, ringLen)
    requires 0 <= i < g.h && RowsDone(d, g, f, w, buf[..], i) && LanesBest(d, g, f, Survivors(g.h, w, g.mask, i), m[..])
    modifies buf
    ensures RowsDone(d, g, f, w, buf[..], i + 1)
    ensures forall p :: 0 <= p < buf.Length && !OnRows(g, p) ==> buf[p] == old(buf[p])
  {
    ghost var b := buf[..];
    StoreLanes(buf, g.row(i), m);
    assert forall p :: g.row(i) <= p < g.row(i) + g.n ==> OnRows(g, p);
    StoreKeeps(d, g, f, w, b, buf[..], m[..], i);
  }

  /** Row i of b' is m and every other cell is that of b. */
  ghost predicate RowStored(g: Layout, b: seq<real>, b': seq<real>, m: seq<real>, i: int)
    requires RowsFit(g, |b|) && |b'| == |b| && |m| == g.n && 0 <= i < g.h
  {
    && (forall c :: 0 <= c < g.n ==> b'[g.row(i) + c] == m[c])
    && (forall p :: 0 <= p < |b| && !(g.row(i) <= p < g.row(i) + g.n) ==> b'[p] == b[p])
  }

  lemma OtherRowKept(g: Layout, b: seq<real>, b': seq<real>, m: seq<real>, i: int, r: int, c: int)
    requires RowsFit(g, |b|) && |b'| == |b| && |m| == g.n && 0 <= i < g.h && RowStored(g, b, b', m, i)
    requires 0 <= r < g.h && r != i && 0 <= c < g.n
    ensures b'[g.row(r) + c] == b[g.row(r) + c]
  {
    if r < i { assert g.row(r) + g.n <= g.row(i); } else { assert g.row(i) + g.n <= g.row(r); }
  }

  lemma LaterRowsKept(d: Dir, g: Layout, f: Lanes, w: int, b: seq<real>, b': seq<real>, m: seq<real>, i: int)
    requires RowsFit(g, |b|) && |b'| == |b| && |m| == g.n && 0 <= i < g.h
    requires RowsDone(d, g, f, w, b, i) && RowStored(g, b, b', m, i)
    ensures forall r, c :: i + 1 <= r < g.h && 0 <= c < g.n ==> b'[g.row(r) + c] == f(r, c)
  {
    forall r, c | i + 1 <= r < g.h && 0 <= c < g.n ensures b'[g.row(r) + c] == f(r, c) {
      OtherRowKept(g, b, b', m, i, r, c);
    }
  }

  lemma DoneRowsKept(d: Dir, g: Layout, f: Lanes, w: int, b: seq<real>, b': seq<real>, m: seq<real>, i: int, r: int, c: int)
    requires RowsFit(g, |b|) && |b'| == |b| && |m| == g.n && 0 <= i < g.h
    requires RowsDone(d, g, f, w, b, i) && LanesBest(d, g, f, Survivors(g.h, w, g.mask, i), m)
    requires RowStored(g, b, b', m, i) && 0 <= r <= i && 0 <= c < g.n
    ensures IsBest(d, Lane(f, c), Survivors(g.h, w, g.mask, r), b'[g.row(r) + c])
  {
    if r < i { OtherRowKept(g, b, b', m, i, r, c); }
  }

  lemma StoreKeeps(d: Dir, g: Layout, f: Lanes, w: int, b: seq<real>, b': seq<real>, m: seq<real>, i: int)
    requires RowsFit(g, |b|) && |b'| == |b| && |m| == g.n && 0 <= i < g.h
    requires RowsDone(d, g, f, w, b, i) && LanesBest(d, g, f, Survivors(g.h, w, g.mask, i), m)
    requires RowStored(g, b, b', m, i)
    ensures RowsDone(d, g, f, w, b', i + 1)
  {
    LaterRowsKept(d, g, f, w, b, b', m, i);
    forall r, c | 0 <= r < i + 1 && 0 <= c < g.n
      ensures IsBest(d, Lane(f, c), Survivors(g.h, w, g.mask, r), b'[g.row(r) + c])
    {
      DoneRowsKept(d, g, f, w, b, b', m, i, r, c);
    }
  }

  /** One iteration of the main loop of _box_max_vert. */
  method ColumnStep(d: Dir, g: Layout, ghost f: Lanes, w: int, buf: array<real>, scratch: array<real>, m: array<real>, i: int)
    requires m != scratch && m != buf && scratch != buf && m.Length == g.n && Fits(g, buf.Length, scratch.Length) && FiniteLanes(f)
    requires 0 <= i < g.h && w >= 0 && ColumnState(d, g, f, w, buf[..], scratch[..], m[..], i)
    modifies buf, scratch, m
    ensures ColumnState(d, g, f, w, buf[..], scratch[..], m[..], i + 1)
    ensures forall p :: 0 <= p < buf.Length && !OnRows(g, p) ==> buf[p] == old(buf[p])
  {
    StoreRow(d, g, f, w, buf, m, i, scratch.Length);
    DropOldest(d, g, f, w, scratch, m, i, buf.Length);
    LoadNewest(d, g, f, w, buf, scratch, m, i);
  }

  /** Position p belongs to the columns being processed. */
  ghost predicate OnRows(g: Layout, p: int) { exists r :: 0 <= r < g.h && g.row(r) <= p < g.row(r) + g.n }

  /** Load rows 0 .. top - 1 and fold them in. */
  method LoadRows(d: Dir, g: Layout, ghost f: Lanes, buf: array<real>, scratch: array<real>, m: array<real>, top: int)
    requires m != scratch && m != buf && scratch != buf && m.Length == g.n && Fits(g, buf.Length, scratch.Length) && FiniteLanes(f)
    requires 0 <= top <= g.h && forall r, c :: 0 <= r < g.h && 0 <= c < g.n ==> buf[g.row(r) + c] == f(r, c)
    modifies scratch, m
    ensures RingHolds(g, f, scratch[..], top) && LanesBest(d, g, f, Between(0, top), m[..])
  {
    SetLanes(m, Worst(d));
    for i := 0 to top
      invariant RingHolds(g, f, scratch[..], i)
      invariant LanesBest(d, g, f, Between(0, i), m[..])
    {
      LoadOne(d, g, f, buf, scratch, m, i);
    }
  }

  method LoadOne(d: Dir, g: Layout, ghost f: Lanes, buf: array<real>, scratch: array<real>, m: array<real>, i: int)
    requires m != scratch && m != buf && scratch != buf && m.Length == g.n && Fits(g, buf.Length, scratch.Length) && FiniteLanes(f)
    requires 0 <= i < g.h && forall c :: 0 <= c < g.n ==> buf[g.row(i) + c] == f(i, c)
    requires RingHolds(g, f, scratch[..], i) && LanesBest(d, g, f, Between(0, i), m[..])
    modifies scratch, m
    ensures RingHolds(g, f, scratch[..], i + 1) && LanesBest(d, g, f, Between(0, i + 1), m[..])
  {
    ghost var before, ring := m[..], scratch[..];
    LoadLanes(d, scratch, g.slot(i), m, buf, g.row(i));
    RingLoad(g, f, buf.Length, ring, scratch[..], i);
    forall c | 0 <= c < g.n ensures IsBest(d, Lane(f, c), Between(0, i + 1), m[c]) {
      BestNext(d, Lane(f, c), Between(0, i), Between(0, i + 1), i, before[c]);
    }
  }

  /** The loop that fills the first half window. */
  method FirstHalf(d: Dir, g: Layout, ghost f: Lanes, w: int, buf: array<real>, scratch: array<real>, m: array<real>)
    requires m != scratch && m != buf && scratch != buf && m.Length == g.n && Fits(g, buf.Length, scratch.Length) && FiniteLanes(f)
    requires w >= 0 && forall r, c :: 0 <= r < g.h && 0 <= c < g.n ==> buf[g.row(r) + c] == f(r, c)
    modifies scratch, m
    ensures ColumnState(d, g, f, w, buf[..], scratch[..], m[..], 0)
  {
    var top := if w + 1 < g.h then w + 1 else g.h;
    LoadRows(d, g, f, buf, scratch, m, top);
    FirstState(d, g, f, w, buf[..], scratch[..], m[..], top);
  }

  lemma FirstSurvivors(h: int, w: int, mask: nat)
    requires w >= 0
    ensures forall r :: Between(0, Loaded(h, w, 0))(r) <==> Survivors(h, w, mask, 0)(r)
  {}

  lemma FirstState(d: Dir, g: Layout, f: Lanes, w: int, b: seq<real>, ring: seq<real>, m: seq<real>, top: int)
    requires Fits(g, |b|, |ring|) && |m| == g.n && w >= 0 && top == Loaded(g.h, w, 0)
    requires forall r, c :: 0 <= r < g.h && 0 <= c < g.n ==> b[g.row(r) + c] == f(r, c)
    requires RingHolds(g, f, ring, top) && LanesBest(d, g, f, Between(0, top), m)
    ensures ColumnState(d, g, f, w, b, ring, m, 0)
  {
    FirstSurvivors(g.h, w, g.mask);
    forall c | 0 <= c < g.n ensures IsBest(d, Lane(f, c), Survivors(g.h, w, g.mask, 0), m[c]) {
      BestSame(d, Lane(f, c), Between(0, top), Survivors(g.h, w, g.mask, 0), m[c]);
    }
  }

  /** _box_max_vert and _box_min_vert: the extremum over the rows that survive in the ring. */
  method BoxColumns(d: Dir, g: Layout, ghost f: Lanes, w: int, buf: array<real>, scratch: array<real>)
    requires scratch != buf && Fits(g, buf.Length, scratch.Length) && FiniteLanes(f)
    requires w >= 0 && forall r, c :: 0 <= r < g.h && 0 <= c < g.n ==> buf[g.row(r) + c] == f(r, c)
    modifies buf, scratch
    ensures forall r, c :: 0 <= r < g.h && 0 <= c < g.n ==>
              IsBest(d, Lane(f, c), Survivors(g.h, w, g.mask, r), buf[g.row(r) + c])
    ensures forall p :: 0 <= p < buf.Length && !OnRows(g, p) ==> buf[p] == old(buf[p])
  {
    var m := new real[g.n];
    FirstHalf(d, g, f, w, buf, scratch, m);
    SlideDown(d, g, f, w, buf, scratch, m);
  }

  /** The main loop over output rows. */
  method SlideDown(d: Dir, g: Layout, ghost f: Lanes, w: int, buf: array<real>, scratch: array<real>, m: array<real>)
    requires m != scratch && m != buf && scratch != buf && m.Length == g.n && Fits(g, buf.Length, scratch.Length) && FiniteLanes(f)
    requires w >= 0 && ColumnState(d, g, f, w, buf[..], scratch[..], m[..], 0)
    modifies buf, scratch, m
    ensures RowsDone(d, g, f, w, buf[..], g.h)
    ensures forall p :: 0 <= p < buf.Length && !OnRows(g, p) ==> buf[p] == old(buf[p])
  {
    for i := 0 to g.h
      invariant ColumnState(d, g, f, w, buf[..], scratch[..], m[..], i)
      invariant forall p :: 0 <= p < buf.Length && !OnRows(g, p) ==> buf[p] == old(buf[p])
    {
      ColumnStep(d, g, f, w, buf, scratch, m, i);
    }
  }
}
