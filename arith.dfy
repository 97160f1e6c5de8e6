/** Powers of two and Euclidean division facts shared by the RISC-V and ColdFire models. */
module BitArith {

  function Pow2(n: nat): (r: nat)
    ensures r >= 1
  {
    if n == 0 then 1 else 2 * Pow2(n - 1)
  }

  /** Number of binary digits of n (0 has none). */
  function BitLength(n: nat): nat
  {
    if n == 0 then 0 else 1 + BitLength(n / 2)
  }

  /** The quotient and remainder of Euclidean division are unique. */
  lemma ModUnique(a: int, d: int, q: int, r: int)
    requires d > 0 && 0 <= r < d && a == q * d + r
    ensures a % d == r && a / d == q
  {
    var q', r' := a / d, a % d;
    var k := q - q';
    assert k * d == r' - r;
    if k > 0 {
      assert false;
    } else if k < 0 {
      assert false;
    }
  }

  /** Doubling both operands doubles the remainder. */
  lemma ModDouble(m: int, h: int)
    requires h > 0
    ensures (2 * m) % (2 * h) == 2 * (m % h)
  {
    var q, r := m / h, m % h;
    assert 2 * m == q * (2 * h) + 2 * r;
    ModUnique(2 * m, 2 * h, q, 2 * r);
  }

  /** A power of two 2^n has n + 1 binary digits. */
  lemma {:induction false} BitLengthPow2(n: nat)
    ensures BitLength(Pow2(n)) == n + 1
  {
    if n > 0 {
      assert Pow2(n) / 2 == Pow2(n - 1);
      BitLengthPow2(n - 1);
    }
  }
}
