/** Ring buffer of the vertical box passes: its size, its slots and which rows survive in it. */
module BoxRing {
  import opened Numeric
  import opened Bits

  function Log2(n: nat): nat {
    if n <= 1 then 0 else 1 + Log2(n / 2)
  }

  /** The power of two above the window 2 * radius + 1. */
  function RingSize(radius: nat): nat { Pow2(1 + Log2(2 * radius + 1)) }

  lemma Log2Bounds(n: nat)
    requires n >= 1
    ensures Pow2(Log2(n)) <= n < 2 * Pow2(Log2(n))
  {
    if n > 1 { Log2Bounds(n / 2); }
  }

  lemma RingSizeBounds(radius: nat)
    ensures 2 * radius + 1 < RingSize(radius) <= 2 * (2 * radius + 1)
  {
    Log2Bounds(2 * radius + 1);
  }

  /** _compute_effective_height. */
  method ComputeEffectiveHeight(height: nat, radius: nat) returns (eff: nat)
    ensures eff == Min(RingSize(radius), height)
  {
    var size := 2;
    var r := 2 * radius + 1;
    while r > 1
      invariant r >= 1 && Log2(r) <= Log2(2 * radius + 1)
      invariant size == Pow2(1 + Log2(2 * radius + 1) - Log2(r))
    {
      r := r / 2;
      size := size * 2;
    }
    eff := if size < height then size else height;
  }

  /** The mask loop at the head of _blur_vertical. */
  method ComputeMask(radius: nat) returns (mask: nat)
    ensures mask == RingSize(radius) - 1
  {
    mask := 1;
    var r := 2 * radius + 1;
    while r > 1
      invariant r >= 1 && Log2(r) <= Log2(2 * radius + 1)
      invariant mask + 1 == Pow2(1 + Log2(2 * radius + 1) - Log2(r))
    {
      r := r / 2;
      mask := 2 * mask + 1;
    }
  }

  // ---------------------------------------------------------------- survival

  /** Row j is still in its slot when rows below n have been loaded. */
  ghost predicate Fresh(mask: nat, j: nat, n: int) {
    forall i: nat :: j < i < n ==> BitAnd(i, mask) != BitAnd(j, mask)
  }

  predicate InWindow(h: int, w: int, o: int, r: int) { 0 <= r < h && o - w <= r <= o + w }

  /** The rows that the vertical extremum pass really takes into account for output row o. */
  ghost predicate Surviving(h: int, w: int, mask: nat, o: int, r: int) {
    InWindow(h, w, o, r) && (o <= w || r == o + w || Fresh(mask, r, Min(o + w, h)))
  }

  /** No row of any window is lost. */
  ghost predicate Intact(h: int, w: int, mask: nat) {
    forall o, r :: 0 <= o < h && InWindow(h, w, o, r) ==> Surviving(h, w, mask, o, r)
  }

  /** The mask the extremum passes use; an image without rows needs none. */
  function ClippedMask(h: nat, w: nat): nat { if h == 0 then 0 else Min(RingSize(w), h) - 1 }

  /** What the caller would have to check. */
  ghost predicate RingFits(h: nat, w: nat) { IsPow2(Min(RingSize(w), h)) || h <= w + 1 || h == 3 }

  lemma FreshFullRing(k: nat, j: nat, n: int)
    requires n <= j + Pow2(k)
    ensures Fresh(Pow2(k) - 1, j, n)
  {
    var mask := Pow2(k) - 1;
    forall i: nat | j < i < n ensures BitAnd(i, mask) != BitAnd(j, mask) {
      NearbyDiffer(j, i, k);
    }
  }

  lemma FitsIsIntact(h: nat, w: nat)
    requires RingFits(h, w)
    ensures Intact(h, w, ClippedMask(h, w))
  {
    var mask := ClippedMask(h, w);
    forall o, r | 0 <= o < h && InWindow(h, w, o, r) && o > w
      ensures Surviving(h, w, mask, o, r)
    {
      RingSizeBounds(w);
      if IsPow2(mask + 1) {
        var k: nat :| mask + 1 == Pow2(k);
        FreshFullRing(k, r, Min(o + w, h));
      } else {
        ThreeRows(h, w, o, r);
      }
    }
  }

  /** Three rows with radius 1: the mask is 2, and rows 1 and 2 still have slots of their own. */
  lemma ThreeRows(h: nat, w: nat, o: int, r: int)
    requires h == 3 && w < o < h && InWindow(h, w, o, r) && !IsPow2(ClippedMask(h, w) + 1)
    ensures Fresh(ClippedMask(h, w), r, Min(o + w, h))
  {
    RingSizeBounds(w);
    assert BitAnd(1, 2) == 0 && BitAnd(2, 2) == 2;
    if w == 1 {
      assert RingSize(1) == 4 by { assert Log2(3) == 1; assert Pow2(2) == 4; }
    }
  }

  /** A clipped ring that is not a power of two loses a row of some window. */
  lemma RingLosesRow(h: nat, w: nat) returns (o: int, r: int)
    requires !RingFits(h, w)
    ensures 0 <= o < h && InWindow(h, w, o, r) && !Surviving(h, w, ClippedMask(h, w), o, r)
  {
    var mask := ClippedMask(h, w);
    RingSizeBounds(w);
    assert IsPow2(RingSize(w)) by { assert RingSize(w) == Pow2(1 + Log2(2 * w + 1)); }
    assert mask == h - 1;
    SmallPowers();
    var i, j := MaskMerges(mask);
    o, r := Min(i + w, h - 1), i;
    assert !Fresh(mask, r, Min(o + w, h));
  }

  lemma SmallPowers()
    ensures IsPow2(1) && IsPow2(2) && IsPow2(4)
  {
    assert Pow2(0) == 1 && Pow2(1) == 2 && Pow2(2) == 4;
  }

  /** The vertical ring keeps every window row exactly when `RingFits`. */
  lemma IntactIff(h: nat, w: nat)
    ensures Intact(h, w, ClippedMask(h, w)) <==> RingFits(h, w)
  {
    if RingFits(h, w) {
      FitsIsIntact(h, w);
    } else {
      var o, r := RingLosesRow(h, w);
    }
  }

  /** The concrete case of height 6 and radius 3: row 1 is overwritten by row 3 before output row 4. */
  lemma HeightSixRadiusThree()
    ensures ClippedMask(6, 3) == 5 && InWindow(6, 3, 4, 1) && !Surviving(6, 3, 5, 4, 1)
  {
    RingSizeBounds(3);
    assert BitAnd(1, 5) == 1 && BitAnd(3, 5) == 1;
    assert !Fresh(5, 1, 6);
  }
}
