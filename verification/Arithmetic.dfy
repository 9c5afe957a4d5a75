/** Machine words, and facts about division with remainder that the solver does not find. */
module Arithmetic {
  /** `usize` arithmetic wraps here. */
  const USIZE: nat := 0x1_0000_0000_0000_0000

  type Usize = n: nat | n < USIZE

  lemma MulNonNegative(a: nat, b: nat)
    ensures a * b >= 0
  {
  }

  lemma DoubleProduct(a: nat, b: nat)
    ensures 2 * (a * b) == (2 * a) * b
  {
  }

  lemma MulMonotone(a: nat, b: nat, d: nat)
    ensures a < b ==> a * d + d <= b * d
  {
    if a < b {
      var k := b - a - 1;
      assert b * d == (a + 1 + k) * d == a * d + d + k * d;
      MulNonNegative(k, d);
    }
  }

  lemma DivUnique(x: nat, d: nat, q: nat, r: nat)
    requires d > 0 && x == q * d + r && r < d
    ensures x / d == q && x % d == r
  {
    var q' := x / d;
    assert x == q' * d + x % d;
    MulMonotone(q, q', d);
    MulMonotone(q', q, d);
  }

  lemma DivTwice(x: nat, d: nat)
    requires d > 0
    ensures x / (2 * d) == x / d / 2
  {
    var q := x / d;
    var u := q / 2;
    var v := q % 2;
    assert x == q * d + x % d;
    assert q * d == (2 * u + v) * d == u * (2 * d) + v * d;
    DivUnique(x, 2 * d, u, v * d + x % d);
  }

  /** `v` rounded down to a multiple of `size`. */
  function FloorTo(v: nat, size: nat): (r: nat)
    requires size > 0
    ensures r <= v < r + size
  {
    assert v == v / size * size + v % size;
    MulNonNegative(v / size, size);
    v / size * size
  }

  lemma InBlock(v: nat, size: nat, x: nat)
    requires size > 0
    ensures FloorTo(v, size) <= x <= FloorTo(v, size) + size - 1 <==> x / size == v / size
  {
    var q := v / size;
    assert x == x / size * size + x % size;
    if q * size <= x <= q * size + size - 1 {
      DivUnique(x, size, q, x - q * size);
    }
  }

  /** The last block of `size` numbers below `blocks * size`. */
  lemma BlockBelow(v: nat, size: nat, blocks: nat)
    requires size > 0 && v < blocks * size
    ensures FloorTo(v, size) + size <= blocks * size
  {
    var q := v / size;
    MulMonotone(q, blocks, size);
    MulMonotone(blocks, q, size);
  }

  /** A block of `2 * half` numbers falls into two blocks of `half`. */
  lemma HalfBlocks(v: nat, half: nat)
    requires half > 0
    ensures FloorTo(FloorTo(v, 2 * half), half) == FloorTo(v, 2 * half)
    ensures FloorTo(FloorTo(v, 2 * half) + half, half) == FloorTo(v, 2 * half) + half
  {
    var q := v / (2 * half);
    var base := FloorTo(v, 2 * half);
    assert base == q * (2 * half) == (2 * q) * half;
    assert base + half == (2 * q + 1) * half;
    DivUnique(base, half, 2 * q, 0);
    DivUnique(base + half, half, 2 * q + 1, 0);
  }
}
