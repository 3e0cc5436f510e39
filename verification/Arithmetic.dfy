/** Products and quotients of natural numbers, one small step each. */
module Arithmetic {

  lemma {:induction false} Times(x: nat, y: nat, size: nat)
    requires x < y
    ensures x * size + size <= y * size
  {
    assert y * size == (y - 1) * size + size;
    if x + 1 < y { Times(x, y - 1, size); }
  }

  lemma DivMod(n: nat, size: nat)
    requires size > 0
    ensures n == (n / size) * size + n % size && 0 <= n % size < size
  {
  }

  lemma DivModIs(n: nat, size: nat, q: nat, r: nat)
    requires size > 0 && r < size && n == q * size + r
    ensures n / size == q && n % size == r
  {
    var a, b := n / size, n % size;
    DivMod(n, size);
    assert a <= q by { if a > q { Times(q, a, size); } }
    assert a >= q by { if a < q { Times(a, q, size); } }
  }
}
