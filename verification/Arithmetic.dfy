/** Multiples, quotients and remainders of positions. */
module Arithmetic {

  lemma MultipleBound(d: int, n: int)
    requires n >= 0
    ensures d >= 1 ==> d * n >= n
    ensures d <= -1 ==> d * n <= -n
  {
  }

  lemma ScaledLess(x: nat, y: nat, n: nat)
    requires x < y
    ensures x * n + n <= y * n
  {
    MultipleBound(y - x, n);
    assert (y - x) * n == y * n - x * n;
  }

  lemma ScaledAtMost(x: nat, y: nat, n: nat)
    requires x <= y
    ensures x * n <= y * n
  {
    if x < y {
      ScaledLess(x, y, n);
    }
  }

  lemma DivisionOf(x: nat, n: nat)
    requires n > 0
    ensures x / n * n <= x < x / n * n + n && x == x / n * n + x % n
  {
  }

  lemma QuotientIs(x: nat, n: nat, q: nat)
    requires n > 0 && q * n <= x < q * n + n
    ensures x / n == q
  {
    DivisionOf(x, n);
    if x / n < q {
      ScaledLess(x / n, q, n);
    } else if q < x / n {
      ScaledLess(q, x / n, n);
    }
  }

  lemma DivMonotone(x: nat, y: nat, n: nat)
    requires n > 0 && x <= y
    ensures x / n <= y / n
  {
    DivisionOf(x, n);
    DivisionOf(y, n);
    if y / n < x / n {
      ScaledLess(y / n, x / n, n);
    }
  }

  lemma BelowCapacity(x: nat, blocks: nat, n: nat)
    requires n > 0 && x < blocks * n
    ensures x / n < blocks
  {
    DivisionOf(x, n);
    if blocks <= x / n {
      ScaledAtMost(blocks, x / n, n);
    }
  }

  lemma NextResidue(u: nat, n: nat)
    requires n >= 2
    ensures (u + 1) % n != u % n
  {
    if (u + 1) % n == u % n {
      DivisionOf(u, n);
      DivisionOf(u + 1, n);
      assert ((u + 1) / n - u / n) * n == 1;
      MultipleBound((u + 1) / n - u / n, n);
      assert false;
    }
  }
}
