/** Integer and real arithmetic shared by the grid and filter models. */
module Numeric {

  function Min(a: int, b: int): int { if a < b then a else b }

  function Max(a: int, b: int): int { if a > b then a else b }

  function MaxReal(a: real, b: real): real { if a > b then a else b }

  function MinReal(a: real, b: real): real { if a < b then a else b }

  /** The largest finite single precision number. */
  const FLT_MAX: real := 340282346638528859811704183484516925440.0

  /** The smallest integer not below x (C `ceilf` followed by a cast). */
  function Ceil(x: real): int { -((-x).Floor) }

  /** Position of column c of row r in a row-major buffer with n columns. */
  function Idx(n: int, r: int, c: int): int { r * n + c }

  lemma MulMonotone(a: int, b: int, k: int)
    requires a <= b && k >= 0
    ensures a * k <= b * k
  {
    assert (b - a) * k >= 0;
  }

  lemma Distribute(a: int, b: int, k: int)
    ensures (a + b) * k == a * k + b * k
  {}

  lemma IdxInRange(n: int, rows: int, r: int, c: int)
    requires 0 <= r < rows && 0 <= c < n
    ensures 0 <= Idx(n, r, c) < rows * n
  {
    MulMonotone(0, r, n);
    MulMonotone(r + 1, rows, n);
    Distribute(r, 1, n);
  }

  lemma RowsApart(n: int, r: int, c: int, r': int, c': int)
    requires 0 <= c < n && 0 <= c' < n && r < r'
    ensures Idx(n, r, c) < Idx(n, r', c')
  {
    MulMonotone(r + 1, r', n);
    Distribute(r, 1, n);
  }

  lemma IdxInjective(n: int, r: int, c: int, r': int, c': int)
    requires 0 <= c < n && 0 <= c' < n
    requires Idx(n, r, c) == Idx(n, r', c')
    ensures r == r' && c == c'
  {
    if r < r' {
      RowsApart(n, r, c, r', c');
    } else if r' < r {
      RowsApart(n, r', c', r, c);
    }
  }

  lemma MulMonotoneReal(a: real, b: real, k: real)
    requires a <= b && k >= 0.0
    ensures a * k <= b * k
  {
    assert (b - a) * k >= 0.0;
  }

  lemma MulStrictReal(a: real, b: real, k: real)
    requires a < b && k > 0.0
    ensures a * k < b * k
  {
    assert (b - a) * k > 0.0;
  }

  lemma SquarePositive(a: real)
    requires a > 0.0
    ensures a * a > 0.0
  {
    MulStrictReal(0.0, a, a);
  }

  lemma CancelReal(a: real, b: real, k: real)
    requires k > 0.0
    ensures a * k <= b * k ==> a <= b
    ensures a * k < b * k ==> a < b
  {
    if a > b {
      MulStrictReal(b, a, k);
    }
  }

  lemma AsRealMul(a: int, b: int)
    ensures (a * b) as real == a as real * b as real
  {}

  lemma DistributeReal(a: real, b: real, k: real)
    ensures (a + b) * k == a * k + b * k
  {}

  lemma AssocReal(a: real, b: real, c: real)
    ensures (a * b) * c == (a * c) * b
  {}

  lemma DivReal(a: real, b: real)
    requires b > 0.0
    ensures (a / b) * b == a && a * (1.0 / b) == a / b
  {}

  /** Rounding up an integer quotient: the C idiom (a + b - 1) / b. */
  lemma CeilDiv(a: int, b: int)
    requires b > 0
    ensures a <= b * ((a + b - 1) / b) < a + b
  {
    var q := (a + b - 1) / b;
    assert a + b - 1 == b * q + (a + b - 1) % b;
  }
}
