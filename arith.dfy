/** Facts about integer division that the solver does not find on its own. */
module Arith {
  lemma MulGap(a: int, b: int, size: nat)
    requires a > b
    ensures a * size >= b * size + size
  {
    var d := a - b - 1;
    assert a == b + 1 + d;
    assert a * size == b * size + size + d * size;
  }

  /** Quotient and remainder are the only ones: `n == q*size + rem` with `0 <= rem < size`. */
  lemma DivUnique(n: nat, size: nat, q: int, rem: int)
    requires size > 0 && 0 <= rem < size && n == q * size + rem
    ensures n / size == q && n % size == rem
  {
    var q', rem' := n / size, n % size;
    assert q' * size + rem' == q * size + rem;
    if q' < q {
      MulGap(q, q', size);
    } else if q' > q {
      MulGap(q', q, size);
    }
  }

  /** One more full slice adds one to the quotient. */
  lemma DivStep(m: nat, size: nat)
    requires size > 0
    ensures (m + size) / size == m / size + 1
  {
    var q, rem := m / size, m % size;
    assert m == q * size + rem;
    assert m + size == (q + 1) * size + rem;
    DivUnique(m + size, size, q + 1, rem);
  }

  /** Counting up by one: the quotient grows exactly when the remainder wraps. */
  lemma DivSucc(n: nat, size: nat)
    requires size > 0
    ensures (n + 1) / size == if n % size == size - 1 then n / size + 1 else n / size
    ensures ((n + 1) % size == 0) == (n % size == size - 1)
  {
    var q, rem := n / size, n % size;
    assert n == q * size + rem;
    if rem == size - 1 {
      DivUnique(n + 1, size, q + 1, 0);
    } else {
      DivUnique(n + 1, size, q, rem + 1);
    }
  }
}
