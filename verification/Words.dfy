/** Arithmetic shared by the other modules. */
module Words {

  const TWO32: nat := 0x1_0000_0000
  const TWO64: nat := 0x1_0000_0000_0000_0000

  /** `1 << n` on unbounded integers. */
  function Pow2(n: nat): (r: nat)
    ensures r >= 1
  {
    if n == 0 then 1 else 2 * Pow2(n - 1)
  }

  lemma {:induction false} Pow2Monotone(m: nat, n: nat)
    requires m <= n
    ensures Pow2(m) <= Pow2(n)
    decreases n - m
  {
    if m < n {
      Pow2Monotone(m, n - 1);
    }
  }

  lemma Pow2Of31()
    ensures Pow2(31) == 0x8000_0000
  {
    assert Pow2(6) == 64;
    assert Pow2(12) == 64 * Pow2(6);
    assert Pow2(18) == 64 * Pow2(12);
    assert Pow2(24) == 64 * Pow2(18);
    assert Pow2(30) == 64 * Pow2(24);
  }

  /** A 64-bit word as its bits, least significant first. */
  type Word = w: seq<bool> | |w| == 64 witness seq(64, i => false)

  const ZERO_WORD: Word := seq(64, i => false)

  lemma DivModUnique(y: int, k: int, q: int, r: int)
    requires k > 0 && 0 <= r < k && y == k * q + r
    ensures y / k == q && y % k == r
  {
    assert y == k * (y / k) + y % k;
    SameQuotient(k, q, r, y / k, y % k);
  }

  lemma SameQuotient(k: int, q: int, r: int, p: int, s: int)
    requires k > 0 && 0 <= r < k && 0 <= s < k && k * q + r == k * p + s
    ensures q == p && r == s
  {
    if q > p {
      WholeStep(k, q, p);
    } else if p > q {
      WholeStep(k, p, q);
    }
  }

  lemma WholeStep(k: int, a: int, b: int)
    requires k > 0 && a > b
    ensures k * a >= k * b + k
  {
    assert k * a >= k * (b + 1);
  }
}
