/** Quotients by a variable divisor. */
module Arithmetic {

  lemma MulAtLeast(d: int, n: nat)
    requires d >= 1
    ensures d * n >= n
  {
  }

  /** A quotient is the one multiple of n that reaches x without passing it. */
  lemma QuotientBounds(x: nat, n: nat, q: nat)
    requires n > 0
    ensures x / n == q <==> q * n <= x < q * n + n
  {
    var d: int := x / n - q;
    assert x == x / n * n + x % n;
    assert d * n == x - x % n - q * n;
    if d >= 1 {
      MulAtLeast(d, n);
    } else if d <= -1 {
      assert (-d) * n == q * n - x + x % n;
      MulAtLeast(-d, n);
    }
  }

  /** Which of the consecutive blocks of n numbers x lies in. */
  function Block(x: nat, n: nat): nat
    requires n > 0
  {
    x / n
  }

  /** The first number of its block. */
  function BlockStart(x: nat, n: nat): nat
    requires n > 0
  {
    MulNonNegative(x / n, n);
    x / n * n
  }

  lemma MulNonNegative(a: nat, b: nat)
    ensures a * b >= 0
  {
  }

  lemma BlockRange(x: nat, y: nat, n: nat)
    requires n > 0
    ensures Block(x, n) == Block(y, n) <==> BlockStart(y, n) <= x < BlockStart(y, n) + n
  {
    QuotientBounds(x, n, y / n);
  }

  /** Halving twice as many numbers a block leaves each in its block. */
  lemma BlockHalves(x: nat, n: nat)
    requires n > 0
    ensures Block(x, 2 * n) == Block(x / 2, n)
  {
    hide Block;
    var q := Block(x, 2 * n);
    BlockBounds(x, 2 * n, q);
    MulTwice(q, n);
    BlockBounds(x / 2, n, q);
  }

  lemma BlockBounds(x: nat, n: nat, q: nat)
    requires n > 0
    ensures Block(x, n) == q <==> q * n <= x < q * n + n
  {
    QuotientBounds(x, n, q);
  }

  lemma MulTwice(q: nat, n: nat)
    ensures q * (2 * n) == 2 * (q * n)
  {
  }
}
