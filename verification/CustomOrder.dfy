/**
  Custom image order: sparse 64-bit positions whose upper bits are a bucket and whose lower 32 bits are
  room for reordering. Moving images rewrites a few positions; the meaning is a list splice.
 */
module CustomOrder {

  type Img = int
  type Table = map<Img, int>

  const BUCKET := 0x1_0000_0000

  /** (p & 0xFFFFFFFF00000000) + (1 << 32) for a non-negative position. */
  function BucketEnd(p: int): int { p - p % BUCKET + BUCKET }

  // ---------------------------------------------------------------- the row updates

  /** dt_collection_shift_image_positions. */
  function Shifted(t: Table, len: nat, at: int): Table {
    map i | i in t :: if at <= t[i] < BucketEnd(at) then t[i] + len else t[i]
  }

  /** Assign start, start + step, ... to the listed images; a missing row is left missing. */
  function Placed(t: Table, sel: seq<Img>, start: int, step: int): Table {
    if sel == [] then t
    else Placed(if sel[0] in t then t[sel[0] := start] else t, sel[1..], start + step, step)
  }

  /** First position after everything: the bucket behind the largest position in the table. */
  function NextBucket(largest: int): int { (largest / BUCKET + 1) * BUCKET }

  /** dt_collection_move_before. `largest` is MAX(position) over the whole table, 0 if it is empty. */
  function Move(t: Table, target: Img, sel: seq<Img>, largest: int): Table {
    if sel == [] then t
    else if target in t && t[target] >= 0 then Placed(Shifted(t, |sel|, t[target]), sel, t[target], 1)
    else Placed(t, sel, NextBucket(largest), BUCKET)
  }

  // ---------------------------------------------------------------- orders

  predicate Before(t: Table, a: Img, b: Img) { a in t && b in t && t[a] < t[b] }

  ghost predicate Ordered(t: Table, s: seq<Img>) { forall i, j :: 0 <= i < j < |s| ==> Before(t, s[i], s[j]) }

  /** s lists exactly the images of t in strictly increasing position. */
  ghost predicate IsOrder(t: Table, s: seq<Img>) {
    Ordered(t, s) && forall i :: i in s <==> i in t
  }

  ghost predicate NoRepeat(s: seq<Img>) { forall i, j :: 0 <= i < j < |s| ==> s[i] != s[j] }

  // ---------------------------------------------------------------- the splice

  function Without(s: seq<Img>, sel: seq<Img>): seq<Img> {
    if s == [] then [] else if s[0] in sel then Without(s[1..], sel) else [s[0]] + Without(s[1..], sel)
  }

  function Present(sel: seq<Img>, s: seq<Img>): seq<Img> {
    if sel == [] then [] else if sel[0] in s then [sel[0]] + Present(sel[1..], s) else Present(sel[1..], s)
  }

  function IndexOf(s: seq<Img>, x: Img): (k: nat)
    ensures k <= |s| && (k < |s| ==> s[k] == x) && (k == |s| ==> x !in s)
    ensures forall i :: 0 <= i < k ==> s[i] != x
  {
    if s == [] || s[0] == x then 0 else 1 + IndexOf(s[1..], x)
  }

  /**
    What a move means: take the selected images out and put them, in order, in front of the target
    (or behind everything when the target is not in the list).
   */
  function Splice(s: seq<Img>, target: Img, sel: seq<Img>): seq<Img> {
    var k := IndexOf(s, target);
    Without(s[..k], sel) + Present(sel, s) + Without(s[k..], sel)
  }

  // ---------------------------------------------------------------- sequences

  lemma WithoutElements(s: seq<Img>, sel: seq<Img>)
    ensures forall x :: x in Without(s, sel) <==> x in s && x !in sel
  {
    if s != [] {
      WithoutElements(s[1..], sel);
      assert forall x :: x in s <==> x == s[0] || x in s[1..];
    }
  }

  lemma PresentElements(sel: seq<Img>, s: seq<Img>)
    ensures forall x :: x in Present(sel, s) <==> x in sel && x in s
  {
    if sel != [] {
      PresentElements(sel[1..], s);
      assert forall x :: x in sel <==> x == sel[0] || x in sel[1..];
    }
  }

  lemma OrderedTail(t: Table, s: seq<Img>)
    requires s != [] && Ordered(t, s)
    ensures Ordered(t, s[1..]) && forall x :: x in s[1..] ==> Before(t, s[0], x)
  {
    var r := s[1..];
    forall i, j | 0 <= i < j < |r| ensures Before(t, r[i], r[j]) { assert Before(t, s[i + 1], s[j + 1]); }
    forall x | x in r ensures Before(t, s[0], x) {
      var j :| 0 <= j < |r| && r[j] == x;
      assert Before(t, s[0], s[j + 1]);
    }
  }

  lemma OrderedJoin(t: Table, a: seq<Img>, b: seq<Img>)
    requires Ordered(t, a) && Ordered(t, b) && forall x, y :: x in a && y in b ==> Before(t, x, y)
    ensures Ordered(t, a + b)
  {
    var s := a + b;
    forall i, j | 0 <= i < j < |s| ensures Before(t, s[i], s[j]) {
      if j < |a| {
        assert s[i] == a[i] && s[j] == a[j];
      } else if i < |a| {
        assert s[i] == a[i] && s[j] == b[j - |a|] && a[i] in a && b[j - |a|] in b;
      } else {
        assert s[i] == b[i - |a|] && s[j] == b[j - |a|];
      }
    }
  }

  lemma OrderedSlice(t: Table, s: seq<Img>, k: int)
    requires 0 <= k <= |s| && Ordered(t, s)
    ensures Ordered(t, s[..k]) && Ordered(t, s[k..])
  {
    forall i, j | 0 <= i < j < |s[..k]| ensures Before(t, s[..k][i], s[..k][j]) { assert Before(t, s[i], s[j]); }
    forall i, j | 0 <= i < j < |s[k..]| ensures Before(t, s[k..][i], s[k..][j]) { assert Before(t, s[k + i], s[k + j]); }
  }

  /** Order survives filtering and any rewriting of positions that is monotone on what is left. */
  lemma OrderedWithout(t: Table, t': Table, s: seq<Img>, sel: seq<Img>)
    requires Ordered(t, s)
    requires forall x, y :: x in s && y in s && x !in sel && y !in sel && Before(t, x, y) ==> Before(t', x, y)
    ensures Ordered(t', Without(s, sel))
  {
    if s != [] {
      OrderedTail(t, s);
      assert forall x :: x in s <==> x == s[0] || x in s[1..];
      OrderedWithout(t, t', s[1..], sel);
      if s[0] !in sel {
        WithoutElements(s[1..], sel);
        OrderedJoin(t', [s[0]], Without(s[1..], sel));
      }
    }
  }

  // ---------------------------------------------------------------- what placing does

  lemma NoRepeatTail(s: seq<Img>)
    requires s != [] && NoRepeat(s)
    ensures NoRepeat(s[1..]) && s[0] !in s[1..]
  {
    forall i, j | 0 <= i < j < |s[1..]| ensures s[1..][i] != s[1..][j] { assert s[i + 1] != s[j + 1]; }
    forall x | x in s[1..] ensures x != s[0] {
      var j :| 0 <= j < |s[1..]| && s[1..][j] == x;
      assert s[j + 1] != s[0];
    }
  }

  lemma PlacedOutside(t: Table, sel: seq<Img>, start: int, step: int)
    ensures Placed(t, sel, start, step).Keys == t.Keys
    ensures forall x :: x in t && x !in sel ==> Placed(t, sel, start, step)[x] == t[x]
    decreases |sel|
  {
    if sel != [] {
      PlacedOutside(if sel[0] in t then t[sel[0] := start] else t, sel[1..], start + step, step);
    }
  }

  /** Selected images are placed at `start` or later. */
  lemma PlacedAtLeast(t: Table, sel: seq<Img>, start: int, step: int)
    requires NoRepeat(sel) && step > 0
    ensures forall x :: x in sel && x in t ==> x in Placed(t, sel, start, step) && Placed(t, sel, start, step)[x] >= start
    decreases |sel|
  {
    PlacedOutside(t, sel, start, step);
    if sel != [] {
      NoRepeatTail(sel);
      var u := if sel[0] in t then t[sel[0] := start] else t;
      PlacedAtLeast(u, sel[1..], start + step, step);
      PlacedOutside(u, sel[1..], start + step, step);
    }
  }

  /** The selected images end up in their order, from `start` on. */
  lemma PlacedOrdered(t: Table, sel: seq<Img>, s: seq<Img>, start: int, step: int)
    requires NoRepeat(sel) && step > 0 && forall x :: x in s <==> x in t
    ensures Ordered(Placed(t, sel, start, step), Present(sel, s))
    decreases |sel|
  {
    if sel != [] {
      NoRepeatTail(sel);
      var u := if sel[0] in t then t[sel[0] := start] else t;
      PlacedOrdered(u, sel[1..], s, start + step, step);
      if sel[0] in t {
        PlacedFirst(t, sel, s, start, step);
      }
    }
  }

  lemma PlacedFirst(t: Table, sel: seq<Img>, s: seq<Img>, start: int, step: int)
    requires sel != [] && NoRepeat(sel) && step > 0 && sel[0] in t && forall x :: x in s <==> x in t
    requires Ordered(Placed(t, sel, start, step), Present(sel[1..], s))
    ensures Ordered(Placed(t, sel, start, step), [sel[0]] + Present(sel[1..], s))
  {
    NoRepeatTail(sel);
    var u := t[sel[0] := start];
    PlacedAtLeast(u, sel[1..], start + step, step);
    PlacedOutside(u, sel[1..], start + step, step);
    PresentElements(sel[1..], s);
    OrderedJoin(Placed(t, sel, start, step), [sel[0]], Present(sel[1..], s));
  }

  lemma PlacedOne(t: Table, sel: seq<Img>, start: int, k: int)
    requires NoRepeat(sel) && 0 <= k < |sel| && sel[k] in t
    ensures sel[k] in Placed(t, sel, start, 1) && Placed(t, sel, start, 1)[sel[k]] == start + k
    decreases |sel|
  {
    NoRepeatTail(sel);
    var u := if sel[0] in t then t[sel[0] := start] else t;
    PlacedOutside(u, sel[1..], start + 1, 1);
    if k > 0 {
      PlacedOne(u, sel[1..], start + 1, k - 1);
    }
  }

  // ---------------------------------------------------------------- moving before a target

  /**
    Room in the bucket of the target: what is pushed up, and what is put in, stays below every
    unselected image of the following buckets.
   */
  ghost predicate Room(t: Table, at: int, sel: seq<Img>) {
    forall b :: b in t && b !in sel && t[b] >= BucketEnd(at) ==>
      && (forall a :: a in t && a !in sel && at <= t[a] < BucketEnd(at) ==> t[a] + |sel| < t[b])
      && (forall k :: 0 <= k < |sel| && sel[k] in t ==> at + k < t[b])
  }

  /** The documented reserve suffices: nothing in the bucket is pushed past its 32 bits. */
  lemma NoOverflowIsRoom(t: Table, target: Img, sel: seq<Img>)
    requires target in t && t[target] >= 0
    requires forall a :: a in t && t[target] <= t[a] < BucketEnd(t[target]) ==> t[a] + |sel| < BucketEnd(t[target])
    ensures Room(t, t[target], sel)
  {}

  lemma SplitAt(t: Table, s: seq<Img>, k: int)
    requires Ordered(t, s) && 0 <= k < |s| && s[k] in t
    ensures forall x :: x in s[..k] ==> Before(t, x, s[k])
    ensures forall x :: x in s[k..] ==> x == s[k] || Before(t, s[k], x)
  {
    forall x | x in s[..k] ensures Before(t, x, s[k]) {
      var i :| 0 <= i < k && s[i] == x;
      assert Before(t, s[i], s[k]);
    }
    forall x | x in s[k..] ensures x == s[k] || Before(t, s[k], x) {
      var i :| k <= i < |s| && s[i] == x;
      assert i > k ==> Before(t, s[k], s[i]);
    }
  }

  lemma SplitAtTarget(t: Table, s: seq<Img>, target: Img)
    requires IsOrder(t, s) && target in t
    ensures forall x :: x in s[..IndexOf(s, target)] ==> x in t && t[x] < t[target]
    ensures forall x :: x in s[IndexOf(s, target)..] ==> x in t && t[x] >= t[target]
  {
    SplitAt(t, s, IndexOf(s, target));
  }

  /** Where an unselected image ends up. */
  lemma MovedUnselected(t: Table, at: int, sel: seq<Img>)
    ensures var u := Placed(Shifted(t, |sel|, at), sel, at, 1);
            && u.Keys == t.Keys
            && (forall x :: x in t && x !in sel ==> u[x] == if at <= t[x] < BucketEnd(at) then t[x] + |sel| else t[x])
  {
    PlacedOutside(Shifted(t, |sel|, at), sel, at, 1);
  }

  lemma MovedSelected(t: Table, at: int, sel: seq<Img>, x: Img) returns (k: int)
    requires NoRepeat(sel) && x in sel && x in t
    ensures 0 <= k < |sel| && sel[k] == x
    ensures var u := Placed(Shifted(t, |sel|, at), sel, at, 1); x in u && u[x] == at + k
  {
    k :| 0 <= k < |sel| && sel[k] == x;
    PlacedOne(Shifted(t, |sel|, at), sel, at, k);
  }

  function MovedTable(t: Table, at: int, sel: seq<Img>): Table { Placed(Shifted(t, |sel|, at), sel, at, 1) }

  lemma LowRun(t: Table, s: seq<Img>, target: Img, sel: seq<Img>)
    requires IsOrder(t, s) && target in t
    ensures var k := IndexOf(s, target); var u := MovedTable(t, t[target], sel);
      && Ordered(u, Without(s[..k], sel))
      && (forall x :: x in Without(s[..k], sel) ==> x in u && u[x] < t[target])
  {
    var k, at := IndexOf(s, target), t[target];
    SplitAtTarget(t, s, target);
    MovedUnselected(t, at, sel);
    OrderedSlice(t, s, k);
    OrderedWithout(t, MovedTable(t, at, sel), s[..k], sel);
    WithoutElements(s[..k], sel);
  }

  lemma HighRun(t: Table, s: seq<Img>, target: Img, sel: seq<Img>)
    requires IsOrder(t, s) && target in t && Room(t, t[target], sel)
    ensures var k := IndexOf(s, target); var u := MovedTable(t, t[target], sel); Ordered(u, Without(s[k..], sel))
  {
    var k, at := IndexOf(s, target), t[target];
    SplitAtTarget(t, s, target);
    MovedUnselected(t, at, sel);
    OrderedSlice(t, s, k);
    OrderedWithout(t, MovedTable(t, at, sel), s[k..], sel);
  }

  lemma MiddleBelowHigh(t: Table, s: seq<Img>, target: Img, sel: seq<Img>, x: Img, y: Img)
    requires IsOrder(t, s) && target in t && NoRepeat(sel) && Room(t, t[target], sel)
    requires x in Present(sel, s) && y in Without(s[IndexOf(s, target)..], sel)
    ensures Before(MovedTable(t, t[target], sel), x, y)
  {
    var k, at := IndexOf(s, target), t[target];
    PresentElements(sel, s);
    WithoutElements(s[k..], sel);
    SplitAtTarget(t, s, target);
    MovedUnselected(t, at, sel);
    var i := MovedSelected(t, at, sel, x);
  }

  /** Three runs: everything below the target, the selection, everything from the target on. */
  lemma MoveBeforeOrders(t: Table, s: seq<Img>, target: Img, sel: seq<Img>)
    requires IsOrder(t, s) && target in t && NoRepeat(sel) && Room(t, t[target], sel)
    ensures Ordered(MovedTable(t, t[target], sel), Splice(s, target, sel))
  {
    var k, at := IndexOf(s, target), t[target];
    var u := MovedTable(t, at, sel);
    var a, b, c := Without(s[..k], sel), Present(sel, s), Without(s[k..], sel);
    LowRun(t, s, target, sel);
    HighRun(t, s, target, sel);
    PlacedOrdered(Shifted(t, |sel|, at), sel, s, at, 1);
    PlacedAtLeast(Shifted(t, |sel|, at), sel, at, 1);
    PresentElements(sel, s);
    forall x, y | x in b && y in c ensures Before(u, x, y) { MiddleBelowHigh(t, s, target, sel, x, y); }
    OrderedJoin(u, a, b);
    forall x, y | x in a + b && y in c ensures Before(u, x, y) {
      if x in a { LowBelowHigh(t, s, target, sel, x, y); }
    }
    OrderedJoin(u, a + b, c);
  }

  lemma LowBelowHigh(t: Table, s: seq<Img>, target: Img, sel: seq<Img>, x: Img, y: Img)
    requires IsOrder(t, s) && target in t
    requires x in Without(s[..IndexOf(s, target)], sel) && y in Without(s[IndexOf(s, target)..], sel)
    ensures Before(MovedTable(t, t[target], sel), x, y)
  {
    var k := IndexOf(s, target);
    WithoutElements(s[..k], sel);
    WithoutElements(s[k..], sel);
    SplitAtTarget(t, s, target);
    MovedUnselected(t, t[target], sel);
  }

  lemma SpliceElements(s: seq<Img>, target: Img, sel: seq<Img>)
    ensures forall x :: x in Splice(s, target, sel) <==> x in s
  {
    var k := IndexOf(s, target);
    WithoutElements(s[..k], sel);
    WithoutElements(s[k..], sel);
    PresentElements(sel, s);
    assert s == s[..k] + s[k..];
  }

  lemma IndexOrder(t: Table, u: Table, c: seq<Img>, a: Img, b: Img)
    requires Ordered(t, c) && Ordered(u, c) && a in c && b in c && Before(t, a, b)
    ensures Before(u, a, b)
  {
    var i :| 0 <= i < |c| && c[i] == a;
    var j :| 0 <= j < |c| && c[j] == b;
  }

  lemma OrderedParts(t: Table, a: seq<Img>, b: seq<Img>, c: seq<Img>)
    requires Ordered(t, a + b + c)
    ensures Ordered(t, c) && forall x, y :: x in b && y in c ==> Before(t, x, y)
  {
    var s := a + b + c;
    forall i, j | 0 <= i < j < |c| ensures Before(t, c[i], c[j]) {
      assert Before(t, s[|a| + |b| + i], s[|a| + |b| + j]);
    }
    forall x, y | x in b && y in c ensures Before(t, x, y) {
      var i :| 0 <= i < |b| && b[i] == x;
      var j :| 0 <= j < |c| && c[j] == y;
      assert Before(t, s[|a| + i], s[|a| + |b| + j]);
    }
  }

  /** Without room the result is not the splice. */
  lemma OrderNeedsRoom(t: Table, s: seq<Img>, target: Img, sel: seq<Img>)
    requires IsOrder(t, s) && target in t && NoRepeat(sel)
    requires Ordered(MovedTable(t, t[target], sel), Splice(s, target, sel))
    ensures Room(t, t[target], sel)
  {
    var k, at := IndexOf(s, target), t[target];
    var u := MovedTable(t, at, sel);
    var a, b, c := Without(s[..k], sel), Present(sel, s), Without(s[k..], sel);
    OrderedParts(u, a, b, c);
    HighElements(t, s, target, sel);
    PresentElements(sel, s);
    MovedUnselected(t, at, sel);
    OrderedSlice(t, s, k);
    OrderedWithout(t, t, s[k..], sel);
    forall y | y in t && y !in sel && t[y] >= BucketEnd(at)
      ensures (forall x :: x in t && x !in sel && at <= t[x] < BucketEnd(at) ==> t[x] + |sel| < t[y])
              && (forall i :: 0 <= i < |sel| && sel[i] in t ==> at + i < t[y])
    {
      assert y in c;
      forall x | x in t && x !in sel && at <= t[x] < BucketEnd(at) ensures t[x] + |sel| < t[y] {
        IndexOrder(t, u, c, x, y);
      }
      forall i | 0 <= i < |sel| && sel[i] in t ensures at + i < t[y] {
        PlacedOne(Shifted(t, |sel|, at), sel, at, i);
        assert Before(u, sel[i], y);
      }
    }
  }

  /** The last run holds exactly the unselected images from the target on. */
  lemma HighElements(t: Table, s: seq<Img>, target: Img, sel: seq<Img>)
    requires IsOrder(t, s) && target in t
    ensures forall x :: x in t && x !in sel && t[x] >= t[target] ==> x in Without(s[IndexOf(s, target)..], sel)
  {
    var k := IndexOf(s, target);
    SplitAtTarget(t, s, target);
    WithoutElements(s[k..], sel);
    assert s == s[..k] + s[k..];
  }

  /** A move before a target is exactly the splice if and only if the bucket has room. */
  lemma MoveExact(t: Table, s: seq<Img>, target: Img, sel: seq<Img>, largest: int)
    requires IsOrder(t, s) && target in t && t[target] >= 0 && sel != [] && NoRepeat(sel)
    ensures IsOrder(Move(t, target, sel, largest), Splice(s, target, sel)) <==> Room(t, t[target], sel)
  {
    MovedUnselected(t, t[target], sel);
    SpliceElements(s, target, sel);
    if Room(t, t[target], sel) {
      MoveBeforeOrders(t, s, target, sel);
    } else if Ordered(MovedTable(t, t[target], sel), Splice(s, target, sel)) {
      OrderNeedsRoom(t, s, target, sel);
    }
  }

  // ---------------------------------------------------------------- moving to the end

  lemma NextBucketIsLater(largest: int)
    requires largest >= 0
    ensures NextBucket(largest) > largest && NextBucket(largest) % BUCKET == 0
  {}

  lemma MoveToEndOrders(t: Table, s: seq<Img>, target: Img, sel: seq<Img>, largest: int)
    requires IsOrder(t, s) && target !in t && NoRepeat(sel) && largest >= 0 && forall x :: x in t ==> t[x] <= largest
    ensures IsOrder(Placed(t, sel, NextBucket(largest), BUCKET), Splice(s, target, sel))
  {
    var start := NextBucket(largest);
    var u := Placed(t, sel, start, BUCKET);
    NextBucketIsLater(largest);
    PlacedOutside(t, sel, start, BUCKET);
    PlacedOrdered(t, sel, s, start, BUCKET);
    PlacedAtLeast(t, sel, start, BUCKET);
    OrderedWithout(t, u, s, sel);
    WithoutElements(s, sel);
    PresentElements(sel, s);
    OrderedJoin(u, Without(s, sel), Present(sel, s));
    SpliceElements(s, target, sel);
    var k := IndexOf(s, target);
    assert s[..k] == s && s[k..] == [];
    assert Splice(s, target, sel) == Without(s, sel) + Present(sel, s);
  }

  lemma NothingSelected(s: seq<Img>, target: Img)
    ensures Splice(s, target, []) == s
  {
    var k := IndexOf(s, target);
    WithoutNothing(s[..k]);
    WithoutNothing(s[k..]);
    assert s[..k] + [] + s[k..] == s;
  }

  lemma WithoutNothing(s: seq<Img>)
    ensures Without(s, []) == s
  {
    if s != [] { WithoutNothing(s[1..]); }
  }

  // ---------------------------------------------------------------- any sequence of moves

  datatype MoveOp = MoveOp(target: Img, sel: seq<Img>, largest: int)

  ghost predicate Allowed(t: Table, op: MoveOp) {
    && NoRepeat(op.sel) && op.largest >= 0 && (forall x :: x in t ==> 0 <= t[x] <= op.largest)
    && (op.target in t ==> Room(t, t[op.target], op.sel))
  }

  lemma MoveRefines(t: Table, s: seq<Img>, op: MoveOp)
    requires IsOrder(t, s) && Allowed(t, op)
    ensures IsOrder(Move(t, op.target, op.sel, op.largest), Splice(s, op.target, op.sel))
  {
    if op.sel == [] {
      NothingSelected(s, op.target);
    } else if op.target in t {
      MoveExact(t, s, op.target, op.sel, op.largest);
    } else {
      MoveToEndOrders(t, s, op.target, op.sel, op.largest);
    }
  }

  function MoveAll(t: Table, ops: seq<MoveOp>): Table
    decreases |ops|
  {
    if ops == [] then t else MoveAll(Move(t, ops[0].target, ops[0].sel, ops[0].largest), ops[1..])
  }

  function SpliceAll(s: seq<Img>, ops: seq<MoveOp>): seq<Img>
    decreases |ops|
  {
    if ops == [] then s else SpliceAll(Splice(s, ops[0].target, ops[0].sel), ops[1..])
  }

  ghost predicate AllAllowed(t: Table, ops: seq<MoveOp>)
    decreases |ops|
  {
    ops == [] || (Allowed(t, ops[0]) && AllAllowed(Move(t, ops[0].target, ops[0].sel, ops[0].largest), ops[1..]))
  }

  /** Over any sequence of moves the positions stay distinct and list exactly the spliced order. */
  lemma {:induction false} MovesRefineSplices(t: Table, s: seq<Img>, ops: seq<MoveOp>)
    requires IsOrder(t, s) && AllAllowed(t, ops)
    ensures IsOrder(MoveAll(t, ops), SpliceAll(s, ops))
    ensures forall x, y :: x in MoveAll(t, ops) && y in MoveAll(t, ops) && x != y ==> MoveAll(t, ops)[x] != MoveAll(t, ops)[y]
    decreases |ops|
  {
    if ops != [] {
      MoveRefines(t, s, ops[0]);
      MovesRefineSplices(Move(t, ops[0].target, ops[0].sel, ops[0].largest), Splice(s, ops[0].target, ops[0].sel), ops[1..]);
    } else {
      OrderIsDistinct(t, s);
    }
  }

  lemma OrderIsDistinct(t: Table, s: seq<Img>)
    requires IsOrder(t, s)
    ensures forall x, y :: x in t && y in t && x != y ==> t[x] != t[y]
  {
    forall x, y | x in t && y in t && x != y ensures t[x] != t[y] {
      var i :| 0 <= i < |s| && s[i] == x;
      var j :| 0 <= j < |s| && s[j] == y;
      assert Before(t, s[i], s[j]) || Before(t, s[j], s[i]);
    }
  }

  /** A bucket can run out: image 1 at its last place is pushed onto image 2. */
  lemma OverflowExample()
    ensures var t: Table := map[1 := BUCKET - 1, 2 := BUCKET, 3 := 3 * BUCKET];
            var u := Move(t, 1, [3], 3 * BUCKET);
            IsOrder(t, [1, 2, 3]) && !Room(t, t[1], [3]) && 1 in u && 2 in u && u[1] == u[2]
  {
    var t: Table := map[1 := BUCKET - 1, 2 := BUCKET, 3 := 3 * BUCKET];
    MovedUnselected(t, t[1], [3]);
    assert t[1] + 1 == t[2];
  }

  // ---------------------------------------------------------------- positions in numbers

  /** Position p lies in the rest of the 32-bit bucket that starts at position `at`. */
  lemma RestOfBucket(p: int, at: int)
    requires at >= 0
    ensures at <= p < BucketEnd(at) <==> p >= at && p / 0x1_0000_0000 == at / 0x1_0000_0000
  {
    var q, r := at / 0x1_0000_0000, at % 0x1_0000_0000;
    assert at == q * 0x1_0000_0000 + r && BucketEnd(at) == q * 0x1_0000_0000 + 0x1_0000_0000;
  }

  /**
    What shares the upper 32 bits with position `at` and is not below it has moved up by the number of
    selected images, these have the freed positions, all else has stayed.
   */
  ghost predicate InsertedAt(t: Table, u: Table, at: int, sel: seq<Img>) {
    && u.Keys == t.Keys
    && (forall x :: x in t && x !in sel ==>
          x in u && u[x] == if t[x] >= at && t[x] / 0x1_0000_0000 == at / 0x1_0000_0000 then t[x] + |sel| else t[x])
    && (forall k :: 0 <= k < |sel| && sel[k] in t ==> sel[k] in u && u[sel[k]] == at + k)
  }

  /** The selected images have consecutive multiples of 2^32 above `largest`, all else has stayed. */
  ghost predicate Appended(t: Table, u: Table, largest: int, sel: seq<Img>) {
    && u.Keys == t.Keys
    && (forall x :: x in t && x !in sel ==> x in u && u[x] == t[x])
    && (forall k :: 0 <= k < |sel| && sel[k] in t ==>
          sel[k] in u && u[sel[k]] == (largest / 0x1_0000_0000 + 1 + k) * 0x1_0000_0000 > largest)
  }

  /** A move before a target, position by position. */
  lemma MovedPositions(t: Table, target: Img, sel: seq<Img>, largest: int)
    requires target in t && t[target] >= 0 && sel != [] && NoRepeat(sel)
    ensures InsertedAt(t, Move(t, target, sel, largest), t[target], sel)
  {
    var at := t[target];
    var v := Shifted(t, |sel|, at);
    PlacedOutside(v, sel, at, 1);
    forall x | x in t ensures x in v && v[x] == if t[x] >= at && t[x] / 0x1_0000_0000 == at / 0x1_0000_0000 then t[x] + |sel| else t[x] {
      RestOfBucket(t[x], at);
    }
    forall k | 0 <= k < |sel| && sel[k] in t ensures Placed(v, sel, at, 1)[sel[k]] == at + k {
      PlacedOne(v, sel, at, k);
    }
  }

  lemma {:induction false} PlacedBuckets(t: Table, sel: seq<Img>, start: int, k: int)
    requires NoRepeat(sel) && 0 <= k < |sel| && sel[k] in t
    ensures var u := Placed(t, sel, start, 0x1_0000_0000); sel[k] in u && u[sel[k]] == start + k * 0x1_0000_0000
    decreases |sel|
  {
    NoRepeatTail(sel);
    var u := if sel[0] in t then t[sel[0] := start] else t;
    PlacedOutside(u, sel[1..], start + 0x1_0000_0000, 0x1_0000_0000);
    if k > 0 {
      PlacedBuckets(u, sel[1..], start + 0x1_0000_0000, k - 1);
    }
  }

  /** A move without a target, position by position. */
  lemma AppendedPositions(t: Table, target: Img, sel: seq<Img>, largest: int)
    requires (target in t ==> t[target] < 0) && sel != [] && NoRepeat(sel)
    ensures Appended(t, Move(t, target, sel, largest), largest, sel)
  {
    var start := NextBucket(largest);
    PlacedOutside(t, sel, start, 0x1_0000_0000);
    forall k | 0 <= k < |sel| && sel[k] in t
      ensures var u := Placed(t, sel, start, 0x1_0000_0000);
              sel[k] in u && u[sel[k]] == (largest / 0x1_0000_0000 + 1 + k) * 0x1_0000_0000 > largest
    {
      PlacedBuckets(t, sel, start, k);
    }
  }

  /** The documented reserve of 32 bits suffices: no image of the bucket is pushed into the next one. */
  lemma ReserveSuffices(t: Table, s: seq<Img>, target: Img, sel: seq<Img>, largest: int)
    requires IsOrder(t, s) && target in t && t[target] >= 0 && sel != [] && NoRepeat(sel)
    requires forall a :: a in t && t[a] >= t[target] && t[a] / 0x1_0000_0000 == t[target] / 0x1_0000_0000 ==>
               (t[a] + |sel|) / 0x1_0000_0000 == t[target] / 0x1_0000_0000
    ensures IsOrder(Move(t, target, sel, largest), Splice(s, target, sel))
  {
    forall a | a in t && t[target] <= t[a] < BucketEnd(t[target]) ensures t[a] + |sel| < BucketEnd(t[target]) {
      RestOfBucket(t[a], t[target]);
      RestOfBucket(t[a] + |sel|, t[target]);
    }
    NoOverflowIsRoom(t, target, sel);
    MoveExact(t, s, target, sel, largest);
  }

  // ---------------------------------------------------------------- the table

  /** main.images, or the rows of main.tagged_images with the current tag. */
  class Positions {
    var pos: Table

    constructor (pos: Table)
      ensures this.pos == pos
    {
      this.pos := pos;
    }

    /** dt_collection_shift_image_positions: one UPDATE over the rest of the bucket. */
    method Shift(len: nat, at: int)
      modifies this`pos
      ensures pos == Shifted(old(pos), len, at)
    {
      pos := map i | i in pos :: if at <= pos[i] < BucketEnd(at) then pos[i] + len else pos[i];
    }

    /** Write consecutive positions row by row. */
    method Place(sel: seq<Img>, start: int, step: int)
      modifies this`pos
      ensures pos == Placed(old(pos), sel, start, step)
    {
      ghost var goal := Placed(pos, sel, start, step);
      var next := start;
      var i := 0;
      while i < |sel|
        invariant 0 <= i <= |sel| && Placed(pos, sel[i..], next, step) == goal
      {
        assert sel[i..][0] == sel[i] && sel[i..][1..] == sel[i + 1..];
        if sel[i] in pos {
          pos := pos[sel[i] := next];
        }
        next := next + step;
        i := i + 1;
      }
    }

    /** dt_collection_move_before. */
    method MoveBefore(target: Img, sel: seq<Img>, largest: int)
      modifies this`pos
      ensures pos == Move(old(pos), target, sel, largest)
      ensures sel == [] ==> pos == old(pos)
      ensures sel != [] && NoRepeat(sel) ==>
                if target in old(pos) && old(pos)[target] >= 0 then InsertedAt(old(pos), pos, old(pos)[target], sel)
                else Appended(old(pos), pos, largest, sel)
    {
      if sel == [] {
        return;
      }
      if NoRepeat(sel) {
        if target in pos && pos[target] >= 0 { MovedPositions(pos, target, sel, largest); }
        else { AppendedPositions(pos, target, sel, largest); }
      }
      if target in pos && pos[target] >= 0 {
        var at := pos[target];
        Shift(|sel|, at);
        Place(sel, at, 1);
      } else {
        Place(sel, NextBucket(largest), BUCKET);
      }
    }
  }
}
