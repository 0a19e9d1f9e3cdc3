/** Products and quotients of integers, in the small steps the other modules need. */
module Arithmetic {

  lemma MulMono(a: int, b: int, c: int)
    requires a <= b && c >= 0
    ensures a * c <= b * c
  {
    var d := b - a;
    assert d * c >= 0;
    assert b * c == a * c + d * c by {
      assert b == a + d;
    }
  }

  lemma MulSucc(a: int, c: int)
    ensures (a + 1) * c == a * c + c
  {
  }

  lemma MulAdd(a: int, b: int, c: int)
    ensures (a + b) * c == a * c + b * c
  {
  }

  lemma SameQuotient(q: int, r: int, k: int, s: int, size: int)
    requires 0 <= r < size && 0 <= s < size && q * size + r == k * size + s
    ensures q == k && r == s
  {
    MulSucc(q, size);
    MulSucc(k, size);
    if q < k {
      MulMono(q + 1, k, size);
    } else if k < q {
      MulMono(k + 1, q, size);
    }
  }

  lemma Divided(x: int, size: int)
    requires size > 0
    ensures x == x / size * size + x % size && 0 <= x % size < size
  {
  }

  /** The quotient and remainder of a number given by them. */
  lemma Quotient(x: int, q: int, r: int, size: int)
    requires 0 <= r < size && x == q * size + r
    ensures x / size == q && x % size == r
  {
    Divided(x, size);
    SameQuotient(q, r, x / size, x % size, size);
  }

  lemma RealProduct(a: real, b: real)
    requires a >= 0.0 && b >= 0.0
    ensures a * b >= 0.0
  {
  }
}
