/** Finite sums of reals. */
module Sums {

  function Sum(n: int, f: int -> real): real
    decreases n
  {
    if n <= 0 then 0.0 else Sum(n - 1, f) + f(n - 1)
  }

  lemma SumEqual(n: int, f: int -> real, h: int -> real)
    requires forall i :: 0 <= i < n ==> f(i) == h(i)
    ensures Sum(n, f) == Sum(n, h)
    decreases n
  {
    if n > 0 { SumEqual(n - 1, f, h); }
  }

  lemma SumAdd(n: int, f: int -> real, h: int -> real, s: int -> real)
    requires forall i :: 0 <= i < n ==> s(i) == f(i) + h(i)
    ensures Sum(n, s) == Sum(n, f) + Sum(n, h)
    decreases n
  {
    if n > 0 { SumAdd(n - 1, f, h, s); }
  }

  lemma SumZero(n: int, f: int -> real)
    requires forall i :: 0 <= i < n ==> f(i) == 0.0
    ensures Sum(n, f) == 0.0
    decreases n
  {
    if n > 0 { SumZero(n - 1, f); }
  }

  lemma SumScale(n: int, c: real, f: int -> real, s: int -> real)
    requires forall i :: 0 <= i < n ==> s(i) == c * f(i)
    ensures Sum(n, s) == c * Sum(n, f)
    decreases n
  {
    if n > 0 {
      SumScale(n - 1, c, f, s);
      var a, b := Sum(n - 1, f), f(n - 1);
      assert c * (a + b) == c * a + c * b;
    }
  }
}
