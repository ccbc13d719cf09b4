/** Rounding, minima, and facts about multiplication and division that several modules need. */
module Arith {

  function Min(a: nat, b: nat): nat { if a < b then a else b }

  function CeilDiv(n: nat, d: nat): nat
    requires d > 0
  {
    if n % d == 0 then n / d else n / d + 1
  }

  lemma MulBound(k: int, d: nat)
    ensures k >= 1 ==> k * d >= d
    ensures k <= -1 ==> k * d <= 0 - d
  {}

  lemma ModUnique(x: nat, d: nat, q: nat, r: nat)
    requires d > 0 && r < d && x == q * d + r
    ensures x % d == r && x / d == q
  {
    MulBound(q - x / d, d);
    assert (q - x / d) * d == x % d - r;
  }

  lemma ModSkip(m: nat, n: nat, size: nat)
    requires size > 0 && m % size == 0
    ensures (m + n) % size == n % size
  {
    var q := m / size;
    assert m == q * size;
    assert m + n == (q + n / size) * size + n % size;
    ModUnique(m + n, size, q + n / size, n % size);
  }

  lemma Distribute(a: int, b: int, c: int)
    ensures (a + b) * c == a * c + b * c
  {}

  lemma MulAssoc(a: int, b: int, c: int)
    ensures a * (b * c) == (a * b) * c
  {}

  lemma Multiple(n: nat, size: nat)
    requires size > 0
    ensures n * size % size == 0 && n * size / size == n
  {
    ModUnique(n * size, size, n, 0);
  }

  lemma NotNegative(a: nat, b: nat)
    ensures a * b >= 0
  {}

  lemma Positive(a: nat, b: nat)
    requires a > 0 && b > 0
    ensures a * b > 0
  {}

  lemma PositiveFactor(n: nat, size: nat)
    requires n * size > 0
    ensures n > 0
  {}

  lemma AtLeastTwice(k: nat, size: nat)
    requires k >= 2
    ensures k * size >= 2 * size
  {}

  lemma AtMost(n: nat, m: nat, size: nat)
    requires size > 0 && n * size <= m * size
    ensures n <= m
  {
    MulBound(m - n, size);
    Distribute(m, 0 - n, size);
  }

  lemma CeilAtMost(b: nat, n: nat, size: nat)
    requires size > 0 && b <= n * size
    ensures CeilDiv(b, size) <= n
  {
    var q := b / size;
    assert b == q * size + b % size;
    AtMost(q, n, size);
    if b % size != 0 && q == n {
      assert false;
    }
  }

  lemma QuarterTimesFour(blocks: nat, blockSize: nat)
    requires blockSize % 4 == 0
    ensures blocks * blockSize / 4 * 4 == blocks * blockSize
  {
    var q := blockSize / 4;
    assert blockSize == 4 * q;
    assert blocks * blockSize == 4 * (blocks * q);
  }
}
