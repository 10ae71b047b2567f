/** Facts about division and powers of ten. */
module Arithmetic {
  import opened Bytes

  lemma MulNonNegative(x: int, y: int)
    requires x >= 0 && y >= 0
    ensures x * y >= 0
  {
  }

  lemma QuotientUnique(d: int, q: int, r: int, q': int, r': int)
    requires d * q + r == d * q' + r' && 0 <= r < d && 0 <= r' < d
    ensures q == q' && r == r'
  {
    if q > q' {
      MulNonNegative(d, q - q' - 1);
      assert false;
    } else if q < q' {
      MulNonNegative(d, q' - q - 1);
      assert false;
    }
  }

  lemma DivMod(t: int, d: int, q: int, r: int)
    requires t == d * q + r && 0 <= r < d
    ensures t / d == q && t % d == r
  {
    QuotientUnique(d, q, r, t / d, t % d);
  }

  /** Truncating to 32 bits keeps the remainder by a smaller power of two. */
  lemma WrapKeeps(x: int, d: int, m: int)
    requires d > 0 && d * m == TWO_32
    ensures x % TWO_32 % d == x % d
  {
    var q := x / TWO_32;
    var r := x % TWO_32;
    assert x == d * (m * q) + r by {
      assert TWO_32 * q == (d * m) * q == d * (m * q);
    }
    var p := r / d;
    assert x == d * (m * q + p) + r % d by {
      assert d * (m * q + p) == d * (m * q) + d * p;
    }
    DivMod(x, d, m * q + p, r % d);
  }

  lemma SumMod(x: int, y: int, b: int, d: int)
    requires d > 0 && x % d == y % d
    ensures (x + b) % d == (y + b) % d
  {
    var r := (x % d + b) % d;
    var q := (x % d + b) / d;
    assert x + b == d * (x / d + q) + r by { assert d * (x / d + q) == d * (x / d) + d * q; }
    assert y + b == d * (y / d + q) + r by { assert d * (y / d + q) == d * (y / d) + d * q; }
    DivMod(x + b, d, x / d + q, r);
    DivMod(y + b, d, y / d + q, r);
  }
}
