/** Bytes, and arithmetic that the solver has to be led through. */
module Numbers {

  type Byte = b: int | 0 <= b < 256

  function Pow256(k: nat): (p: nat)
    ensures p > 0
  {
    if k == 0 then 1 else 256 * Pow256(k - 1)
  }

  function Power2(k: nat): (r: nat)
    ensures r >= 1
  {
    if k == 0 then 1 else 2 * Power2(k - 1)
  }

  lemma NoMultiple(m: int, x: int)
    requires m > 0 && -m < m * x < m
    ensures x == 0
  {
  }

  lemma DivModUnique(a: int, m: int, t: int, r: int)
    requires m > 0 && a == m * t + r && 0 <= r < m
    ensures a / m == t && a % m == r
  {
    var q, u := a / m, a % m;
    assert a == m * q + u && 0 <= u < m;
    assert m * (q - t) == m * q - m * t;
    NoMultiple(m, q - t);
  }

  lemma MulMonotone(p: int, x: int, y: int)
    requires p >= 0 && x <= y
    ensures p * x <= p * y && x * p <= y * p
  {
    assert p * (y - x) >= 0;
  }
}
