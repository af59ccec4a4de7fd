/** Powers of two, and quotients by a number that is not a constant. */
module Numbers {

  function Max(a: int, b: int): int { if a < b then b else a }

  function Pow2(n: nat): (r: nat)
    ensures r > 0
  {
    if n == 0 then 1 else 2 * Pow2(n - 1)
  }

  /** A quotient is known by its remainder. */
  lemma {:induction false} DivIs(x: int, d: int, j: int, r: int)
    requires d > 0 && x == j * d + r && 0 <= r < d
    ensures x / d == j && x % d == r
  {
    var k := x / d - j;
    assert k * d == (x / d) * d - j * d == r - x % d;
    Small(k, d);
  }

  lemma {:induction false} Small(k: int, d: int)
    requires d > 0 && -d < k * d < d
    ensures k == 0
  {
    if k > 0 {
      Grows(k, d);
    } else if k < 0 {
      Grows(-k, d);
    }
  }

  lemma {:induction false} Grows(k: int, d: int)
    requires d > 0 && k > 0
    ensures k * d >= d
    decreases k
  {
    if k > 1 {
      Grows(k - 1, d);
      assert k * d == (k - 1) * d + d;
    }
  }
}
