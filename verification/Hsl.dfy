/**
  RGB and HSL over the reals. The denominators of the saturation are guarded at 2^-16; the two
  conversions invert each other exactly where that guard is inactive.
 */
module Hsl {
  import opened Numeric

  datatype Rgb = Rgb(r: real, g: real, b: real)
  datatype Hsl = Hsl(h: real, s: real, l: real)

  const GUARD: real := 1.0 / 65536.0

  function Max3(p: Rgb): real { MaxReal(MaxReal(p.r, p.g), p.b) }
  function Min3(p: Rgb): real { MinReal(MinReal(p.r, p.g), p.b) }

  /** The quotient with its denominator kept at 2^-16 or above. */
  function Guarded(num: real, den: real): real { num / MaxReal(den, GUARD) }

  function Saturation(hi: real, lo: real): real {
    if (lo + hi) / 2.0 < 0.5 then Guarded(hi - lo, hi + lo) else Guarded(hi - lo, 2.0 - hi - lo)
  }

  /** The hue before scaling, in sextants. */
  function Sextant(p: Rgb, hi: real, delta: real): real
    requires delta != 0.0
  {
    if hi == p.r then (p.g - p.b) / delta
    else if hi == p.g then 2.0 + (p.b - p.r) / delta
    else 4.0 + (p.r - p.g) / delta
  }

  function Wrapped(hv: real): real {
    if hv < 0.0 then hv + 1.0 else if hv > 1.0 then hv - 1.0 else hv
  }

  function ToHsl(p: Rgb): Hsl {
    var hi, lo := Max3(p), Min3(p);
    if hi - lo == 0.0 then Hsl(0.0, 0.0, (lo + hi) / 2.0)
    else Hsl(Wrapped(Sextant(p, hi, hi - lo) / 6.0), Saturation(hi, lo), (lo + hi) / 2.0)
  }

  /** One channel from the hue angle in 0 .. 6. */
  function Channel(m1: real, m2: real, hue: real): real {
    if hue < 1.0 then m1 + (m2 - m1) * hue
    else if hue < 3.0 then m2
    else if hue < 4.0 then m1 + (m2 - m1) * (4.0 - hue)
    else m1
  }

  function Channels(m1: real, m2: real, h: real): Rgb {
    Rgb(Channel(m1, m2, if h < 4.0 then h + 2.0 else h - 4.0),
        Channel(m1, m2, h),
        Channel(m1, m2, if h > 2.0 then h - 2.0 else h + 4.0))
  }

  function Upper(s: real, l: real): real { if l < 0.5 then l * (1.0 + s) else l + s - l * s }

  function ToRgb(c: Hsl): Rgb {
    if c.s == 0.0 then Rgb(c.l, c.l, c.l)
    else var m2 := Upper(c.s, c.l); Channels(2.0 * c.l - m2, m2, 6.0 * c.h)
  }

  predicate Unit(p: Rgb) { 0.0 <= p.r <= 1.0 && 0.0 <= p.g <= 1.0 && 0.0 <= p.b <= 1.0 }

  /** Is the guarded denominator at lightness l the true one? */
  predicate Unguarded(l: real) { if l < 0.5 then 2.0 * l >= GUARD else 2.0 - 2.0 * l >= GUARD }

  /** The guard in numbers. */
  lemma GuardIs(hi: real, lo: real, l: real)
    ensures (lo + hi) / 2.0 < 0.5 ==> Saturation(hi, lo) == (hi - lo) / (if hi + lo < 1.0 / 65536.0 then 1.0 / 65536.0 else hi + lo)
    ensures (lo + hi) / 2.0 >= 0.5 ==>
              Saturation(hi, lo) == (hi - lo) / (if 2.0 - hi - lo < 1.0 / 65536.0 then 1.0 / 65536.0 else 2.0 - hi - lo)
    ensures Unguarded(l) <==> 1.0 / 131072.0 <= l <= 1.0 - 1.0 / 131072.0
  {}

  // ---------------------------------------------------------------- quotients

  lemma Quotient(a: real, d: real, q: real)
    requires d > 0.0
    ensures a / d == q <==> a == q * d
    ensures q == a / d ==> d * q == a
  {
    var p := a / d;
    assert p * d == a;
    if p != q { Different(p, q, d); }
  }

  lemma Different(p: real, q: real, d: real)
    requires p != q && d > 0.0
    ensures p * d != q * d
  {
    if p < q { Above0(q - p, d); } else { Above0(p - q, d); }
    assert (q - p) * d == q * d - p * d && (p - q) * d == p * d - q * d;
  }

  lemma Above0(x: real, d: real)
    requires x > 0.0 && d > 0.0
    ensures x * d > 0.0
  {
  }

  /** Cancelling a positive factor. */
  lemma Cancel(p: real, q: real, d: real)
    requires d > 0.0
    ensures p * d <= q * d ==> p <= q
    ensures p * d < q * d ==> p < q
  {
    if p > q {
      Above0(p - q, d);
      assert (p - q) * d == p * d - q * d;
    }
  }

  lemma QuotientBounds(a: real, d: real)
    requires d > 0.0 && -d <= a <= d
    ensures -1.0 <= a / d <= 1.0
    ensures a < 0.0 ==> a / d < 0.0
    ensures a > 0.0 ==> a / d > 0.0
    ensures a < d ==> a / d < 1.0
    ensures -d < a ==> -1.0 < a / d
  {
    Compare(a, d, 1.0, d);
    Compare(a, d, -1.0, -d);
    Compare(a, d, 0.0, 0.0);
  }

  /** a / d compares with k as a does with b = k * d. */
  lemma Compare(a: real, d: real, k: real, b: real)
    requires d > 0.0 && b == k * d
    ensures (a < b ==> a / d < k) && (a <= b ==> a / d <= k)
    ensures (b < a ==> k < a / d) && (b <= a ==> k <= a / d)
  {
    var q := Divide(a, d);
    Cancel(q, k, d);
    Cancel(k, q, d);
  }

  lemma Divide(a: real, d: real) returns (q: real)
    requires d > 0.0
    ensures q == a / d && q * d == a
  {
    q := a / d;
  }

  // ---------------------------------------------------------------- lightness and saturation

  /** Below one half, the saturation that gives back the spread is the unguarded one. */
  lemma DarkSpread(s: real, l: real, delta: real)
    requires 0.0 < l && delta > 0.0
    ensures s == Guarded(delta, 2.0 * l) ==> (l * (1.0 + s) == l + delta / 2.0 <==> 2.0 * l >= GUARD)
  {
    var den := 2.0 * l;
    var m := MaxReal(den, GUARD);
    Quotient(delta, m, s);
    if s == delta / m {
      assert m * s == delta;
      if den < GUARD { Smaller(den, m, s); }
      assert l * (1.0 + s) == l + l * s;
      assert 2.0 * (l * s) == den * s;
    }
  }

  lemma NotPositive(b: real, s: real)
    requires b > 0.0 && s <= 0.0
    ensures b * s <= 0.0
  {
  }

  lemma Smaller(a: real, b: real, s: real)
    requires a < b && b * s > 0.0 && b > 0.0
    ensures a * s < b * s
  {
    if s <= 0.0 { NotPositive(b, s); }
    assert (b - a) * s > 0.0;
  }

  lemma LightSpread(s: real, l: real, delta: real)
    requires l < 1.0 && delta > 0.0
    ensures s == Guarded(delta, 2.0 - 2.0 * l) ==> (l + s - l * s == l + delta / 2.0 <==> 2.0 - 2.0 * l >= GUARD)
  {
    var den := 2.0 - 2.0 * l;
    var m := MaxReal(den, GUARD);
    Quotient(delta, m, s);
    if s == delta / m {
      assert m * s == delta;
      if den < GUARD { Smaller(den, m, s); }
      assert s - l * s == (1.0 - l) * s;
      assert 2.0 * ((1.0 - l) * s) == den * s;
    }
  }

  /** The extremes come back from saturation and lightness exactly where the guard is inactive. */
  lemma ExtremesReturn(hi: real, lo: real)
    requires 0.0 <= lo < hi <= 1.0
    ensures Upper(Saturation(hi, lo), (lo + hi) / 2.0) == hi <==> Unguarded((lo + hi) / 2.0)
  {
    var l, s, delta := (lo + hi) / 2.0, Saturation(hi, lo), hi - lo;
    assert l + delta / 2.0 == hi;
    assert hi + lo == 2.0 * l && 2.0 - hi - lo == 2.0 - 2.0 * l;
    if l < 0.5 { DarkSpread(s, l, delta); } else { LightSpread(s, l, delta); }
  }

  lemma SaturationPositive(hi: real, lo: real)
    requires 0.0 <= lo < hi <= 1.0
    ensures 0.0 < Saturation(hi, lo) <= 1.0
  {
    var delta := hi - lo;
    var den := if (lo + hi) / 2.0 < 0.5 then hi + lo else 2.0 - hi - lo;
    QuotientBounds(delta, MaxReal(den, GUARD));
  }

  // ---------------------------------------------------------------- hue

  /** The angle in sextants that ToHsl stores, brought into 0 .. 6. */
  function Angle(p: Rgb, hi: real, delta: real): real
    requires delta != 0.0
  {
    6.0 * Wrapped(Sextant(p, hi, delta) / 6.0)
  }

  lemma RedMax(p: Rgb)
    requires Max3(p) == p.r && Min3(p) < p.r
    ensures var hi, lo := Max3(p), Min3(p); Channels(lo, hi, Angle(p, hi, hi - lo)) == p
    ensures 0.0 <= Angle(p, Max3(p), Max3(p) - Min3(p)) < 6.0
  {
    var hi, lo := Max3(p), Min3(p);
    var d := hi - lo;
    var q := (p.g - p.b) / d;
    QuotientBounds(p.g - p.b, d);
    Quotient(p.g - p.b, d, q);
    assert Sextant(p, hi, d) == q;
    if q < 0.0 {
      assert Angle(p, hi, d) == q + 6.0;
      assert d * (0.0 - q) == p.b - p.g;
    } else {
      assert Angle(p, hi, d) == q;
    }
  }

  lemma GreenMax(p: Rgb)
    requires Max3(p) == p.g && p.r < p.g
    ensures var hi, lo := Max3(p), Min3(p); Channels(lo, hi, Angle(p, hi, hi - lo)) == p
    ensures 0.0 <= Angle(p, Max3(p), Max3(p) - Min3(p)) < 6.0
  {
    var hi, lo := Max3(p), Min3(p);
    var d := hi - lo;
    var q := (p.b - p.r) / d;
    QuotientBounds(p.b - p.r, d);
    Quotient(p.b - p.r, d, q);
    assert Angle(p, hi, d) == 2.0 + q;
    assert d * (0.0 - q) == p.r - p.b;
  }

  lemma BlueMax(p: Rgb)
    requires Max3(p) == p.b && p.r < p.b && p.g < p.b
    ensures var hi, lo := Max3(p), Min3(p); Channels(lo, hi, Angle(p, hi, hi - lo)) == p
    ensures 0.0 <= Angle(p, Max3(p), Max3(p) - Min3(p)) < 6.0
  {
    var hi, lo := Max3(p), Min3(p);
    var d := hi - lo;
    var q := (p.r - p.g) / d;
    QuotientBounds(p.r - p.g, d);
    Quotient(p.r - p.g, d, q);
    assert Angle(p, hi, d) == 4.0 + q;
    assert d * (0.0 - q) == p.g - p.r;
  }

  /** With the right extremes, the hue gives back all three channels. */
  lemma HueReturns(p: Rgb)
    requires Min3(p) < Max3(p)
    ensures var hi, lo := Max3(p), Min3(p); Channels(lo, hi, Angle(p, hi, hi - lo)) == p
    ensures 0.0 <= Angle(p, Max3(p), Max3(p) - Min3(p)) < 6.0
  {
    if Max3(p) == p.r { RedMax(p); } else if Max3(p) == p.g { GreenMax(p); } else { BlueMax(p); }
  }

  lemma TimesBetween(d: real, t: real)
    requires 0.0 <= t <= 1.0
    ensures d >= 0.0 ==> 0.0 <= d * t <= d
    ensures t == 0.0 ==> d * t == 0.0
    ensures t == 1.0 ==> d * t == d
    ensures 0.0 < t && d > 0.0 ==> 0.0 < d * t
    ensures t < 1.0 && d > 0.0 ==> d * t < d
  {
    if d > 0.0 {
      if t < 1.0 { assert d * (1.0 - t) > 0.0; }
    }
  }

  lemma NegatedFactor(t: real, d: real)
    ensures (0.0 - t) * d == 0.0 - t * d
  {
  }

  lemma Ratio(y: real, d: real, t: real)
    requires d > 0.0 && y == t * d
    ensures y / d == t && (0.0 - y) / d == 0.0 - t
  {
    Quotient(y, d, t);
    NegatedFactor(t, d);
    Quotient(0.0 - y, d, 0.0 - t);
  }

  lemma Product(d: real, t: real) returns (y: real)
    requires 0.0 < d && 0.0 <= t <= 1.0
    ensures y == d * t && y == t * d && 0.0 <= y <= d && (t < 1.0 ==> y < d) && (t == 1.0 ==> y == d)
  {
    y := d * t;
    TimesBetween(d, t);
  }

  /** The channels made from a hue show that hue and both extremes again. */
  ghost predicate Shows(m1: real, m2: real, h: real)
    requires m1 < m2
  {
    var p := Channels(m1, m2, h);
    Max3(p) == m2 && Min3(p) == m1 && Angle(p, m2, m2 - m1) == h
  }

  /** Two extremes and something between them, in any order. */
  lemma Extremes(lo: real, hi: real, x: real)
    requires lo <= x <= hi
    ensures Max3(Rgb(hi, x, lo)) == hi && Min3(Rgb(hi, x, lo)) == lo
    ensures Max3(Rgb(x, hi, lo)) == hi && Min3(Rgb(x, hi, lo)) == lo
    ensures Max3(Rgb(lo, hi, x)) == hi && Min3(Rgb(lo, hi, x)) == lo
    ensures Max3(Rgb(lo, x, hi)) == hi && Min3(Rgb(lo, x, hi)) == lo
    ensures Max3(Rgb(x, lo, hi)) == hi && Min3(Rgb(x, lo, hi)) == lo
    ensures Max3(Rgb(hi, lo, x)) == hi && Min3(Rgb(hi, lo, x)) == lo
  {
  }

  /** The value a fraction t of the way from m1 to m2, and t again from it. */
  lemma Way(m1: real, m2: real, t: real) returns (x: real)
    requires m1 < m2 && 0.0 <= t <= 1.0
    ensures x == m1 + (m2 - m1) * t && m1 <= x <= m2
    ensures t < 1.0 ==> x < m2
    ensures (x - m1) / (m2 - m1) == t && (m1 - x) / (m2 - m1) == 0.0 - t
    ensures t == 1.0 ==> x == m2
  {
    var d := m2 - m1;
    var y := PartOf(d, t);
    x := m1 + y;
    assert x - m1 == y && m1 - x == 0.0 - y;
  }

  lemma PartOf(d: real, t: real) returns (y: real)
    requires 0.0 < d && 0.0 <= t <= 1.0
    ensures y == d * t && 0.0 <= y <= d && (t < 1.0 ==> y < d) && (t == 1.0 ==> y == d)
    ensures y / d == t && (0.0 - y) / d == 0.0 - t
  {
    y := Product(d, t);
    Ratio(y, d, t);
  }

  lemma RedYellow(m1: real, m2: real, h: real)
    requires m1 < m2 && 0.0 <= h <= 1.0
    ensures Shows(m1, m2, h)
  {
    var x := Way(m1, m2, h);
    Extremes(m1, m2, x);
    var p := Channels(m1, m2, h);
    assert p == Rgb(m2, x, m1);
    assert Sextant(p, m2, m2 - m1) == (x - m1) / (m2 - m1);
  }

  lemma YellowGreen(m1: real, m2: real, h: real)
    requires m1 < m2 && 1.0 < h <= 2.0
    ensures Shows(m1, m2, h)
  {
    var x := Way(m1, m2, 2.0 - h);
    Extremes(m1, m2, x);
    var p := Channels(m1, m2, h);
    assert p == Rgb(x, m2, m1);
    assert Sextant(p, m2, m2 - m1) == 2.0 + (m1 - x) / (m2 - m1);
  }

  lemma GreenCyan(m1: real, m2: real, h: real)
    requires m1 < m2 && 2.0 < h <= 3.0
    ensures Shows(m1, m2, h)
  {
    var x := Way(m1, m2, h - 2.0);
    Extremes(m1, m2, x);
    var p := Channels(m1, m2, h);
    assert p == Rgb(m1, m2, x);
    assert Sextant(p, m2, m2 - m1) == 2.0 + (x - m1) / (m2 - m1);
  }

  lemma CyanBlue(m1: real, m2: real, h: real)
    requires m1 < m2 && 3.0 < h <= 4.0
    ensures Shows(m1, m2, h)
  {
    var x := Way(m1, m2, 4.0 - h);
    Extremes(m1, m2, x);
    var p := Channels(m1, m2, h);
    assert p == Rgb(m1, x, m2);
    assert Sextant(p, m2, m2 - m1) == 4.0 + (m1 - x) / (m2 - m1);
  }

  lemma BlueMagenta(m1: real, m2: real, h: real)
    requires m1 < m2 && 4.0 < h < 5.0
    ensures Shows(m1, m2, h)
  {
    var x := Way(m1, m2, h - 4.0);
    Extremes(m1, m2, x);
    var p := Channels(m1, m2, h);
    assert p == Rgb(x, m1, m2);
    assert Sextant(p, m2, m2 - m1) == 4.0 + (x - m1) / (m2 - m1);
  }

  lemma MagentaRed(m1: real, m2: real, h: real)
    requires m1 < m2 && 5.0 <= h < 6.0
    ensures Shows(m1, m2, h)
  {
    var x := Way(m1, m2, 6.0 - h);
    Extremes(m1, m2, x);
    var p := Channels(m1, m2, h);
    assert p == Rgb(m2, m1, x);
    assert Sextant(p, m2, m2 - m1) == (m1 - x) / (m2 - m1);
  }

  lemma HueShows(m1: real, m2: real, h: real)
    requires m1 < m2 && 0.0 <= h < 6.0
    ensures Shows(m1, m2, h)
  {
    if h <= 1.0 { RedYellow(m1, m2, h); }
    else if h <= 2.0 { YellowGreen(m1, m2, h); }
    else if h <= 3.0 { GreenCyan(m1, m2, h); }
    else if h <= 4.0 { CyanBlue(m1, m2, h); }
    else if h < 5.0 { BlueMagenta(m1, m2, h); }
    else { MagentaRed(m1, m2, h); }
  }

  // ---------------------------------------------------------------- both directions

  lemma Scaled(d: real, t: real) returns (x: real)
    requires d > 0.0 && 0.0 < t <= 1.0
    ensures x == d * t && 0.0 < x <= d
  {
    x := d * t;
    TimesBetween(d, t);
  }

  /** The room e that lightness l leaves, scaled by s, is half the spread of the channels. */
  predicate IsRoom(e: real, l: real) { if l < 0.5 then e == l else e == 1.0 - l }

  lemma UpperIs(s: real, l: real, e: real)
    requires IsRoom(e, l)
    ensures Upper(s, l) == l + e * s
  {
    if l < 0.5 {
      assert l * (1.0 + s) == l + l * s;
    } else {
      assert (1.0 - l) * s == s - l * s;
    }
  }

  lemma UpperAbove(s: real, l: real, e: real)
    requires 0.0 < s <= 1.0 && 0.0 < l < 1.0 && IsRoom(e, l)
    ensures l < Upper(s, l) <= 1.0 && Upper(s, l) <= 2.0 * l
  {
    var x := HalfSpread(s, l, e);
    Above(l, e, x, Upper(s, l));
  }

  lemma HalfSpread(s: real, l: real, e: real) returns (x: real)
    requires 0.0 < s <= 1.0 && 0.0 < e && IsRoom(e, l)
    ensures 0.0 < x <= e && Upper(s, l) == l + x
  {
    x := Scaled(e, s);
    UpperIs(s, l, e);
  }

  lemma Above(l: real, e: real, x: real, u: real)
    requires 0.0 < l < 1.0 && IsRoom(e, l) && 0.0 < x <= e && u == l + x
    ensures l < u <= 1.0 && u <= 2.0 * l
  {
  }

  function Room(l: real): (e: real)
    ensures IsRoom(e, l)
  {
    if l < 0.5 then l else 1.0 - l
  }

  /** A spread of den * s divided by the guarded den. */
  lemma GuardedReturns(den: real, s: real)
    requires den > 0.0 && s > 0.0
    ensures Guarded(den * s, den) == s <==> den >= GUARD
  {
    var m := MaxReal(den, GUARD);
    var x := den * s;
    Quotient(x, m, s);
    if den < GUARD {
      assert m * s > 0.0;
      Smaller(den, m, s);
    }
  }

  /** The guarded saturation of the extremes of (h, s, l) is s exactly where the guard is inactive. */
  lemma SaturationReturns(s: real, l: real, e: real)
    requires 0.0 < s <= 1.0 && 0.0 < l < 1.0 && IsRoom(e, l)
    ensures var m2 := Upper(s, l); Saturation(m2, 2.0 * l - m2) == s <==> Unguarded(l)
  {
    var m2 := Upper(s, l);
    var m1 := 2.0 * l - m2;
    var den := 2.0 * e;
    UpperIs(s, l, e);
    assert m2 - m1 == den * s;
    assert Saturation(m2, m1) == Guarded(m2 - m1, den);
    GuardedReturns(den, s);
  }

  /** rgb to hsl and back: exact if and only if the pixel is grey or the guard is inactive. */
  lemma RgbRoundTrip(p: Rgb)
    requires Unit(p)
    ensures ToRgb(ToHsl(p)) == p <==> Max3(p) == Min3(p) || Unguarded(ToHsl(p).l)
  {
    var hi, lo := Max3(p), Min3(p);
    if lo < hi {
      var c := ToHsl(p);
      ExtremesReturn(hi, lo);
      SaturationPositive(hi, lo);
      HueReturns(p);
      var m2 := Upper(c.s, c.l);
      assert 6.0 * c.h == Angle(p, hi, hi - lo);
      if ToRgb(c) == p && m2 != hi {
        TopIsUpper(c);
        assert false;
      }
    }
  }

  /** A colour with a valid hue has its upper extreme as maximum. */
  lemma TopIsUpper(c: Hsl)
    requires 0.0 <= c.h < 1.0 && 0.0 < c.s <= 1.0 && 0.0 < c.l < 1.0
    ensures var m2 := Upper(c.s, c.l);
            Max3(ToRgb(c)) == m2 && Min3(ToRgb(c)) == 2.0 * c.l - m2
  {
    UpperAbove(c.s, c.l, Room(c.l));
    HueShows(2.0 * c.l - Upper(c.s, c.l), Upper(c.s, c.l), 6.0 * c.h);
  }

  /** A nearly black red: the guard is active, and the red does not come back. */
  lemma DarkRedIsLost()
    ensures var p := Rgb(1.0 / 262144.0, 0.0, 0.0); Unit(p) && ToRgb(ToHsl(p)) != p
  {
    RgbRoundTrip(Rgb(1.0 / 262144.0, 0.0, 0.0));
  }

  /** hsl to rgb and back: exact if and only if the guard is inactive. */
  lemma HslRoundTrip(c: Hsl)
    requires 0.0 <= c.h < 1.0 && 0.0 < c.s <= 1.0 && 0.0 < c.l < 1.0
    ensures ToHsl(ToRgb(c)) == c <==> Unguarded(c.l)
  {
    var m2 := Upper(c.s, c.l);
    var m1 := 2.0 * c.l - m2;
    UpperAbove(c.s, c.l, Room(c.l));
    HueShows(m1, m2, 6.0 * c.h);
    SaturationReturns(c.s, c.l, Room(c.l));
    var p := ToRgb(c);
    assert 6.0 * ToHsl(p).h == 6.0 * c.h;
    assert ToHsl(p).l == c.l;
  }

  /** Both conversions stay inside their ranges. */
  lemma Ranges(p: Rgb, c: Hsl)
    ensures Unit(p) ==> var d := ToHsl(p); 0.0 <= d.h < 1.0 && 0.0 <= d.s <= 1.0 && 0.0 <= d.l <= 1.0
    ensures 0.0 <= c.h < 1.0 && 0.0 < c.s <= 1.0 && 0.0 < c.l < 1.0 ==> Unit(ToRgb(c))
  {
    if Unit(p) && Min3(p) < Max3(p) {
      SaturationPositive(Max3(p), Min3(p));
      HueReturns(p);
    }
    if 0.0 <= c.h < 1.0 && 0.0 < c.s <= 1.0 && 0.0 < c.l < 1.0 {
      UpperAbove(c.s, c.l, Room(c.l));
      TopIsUpper(c);
    }
  }
}
