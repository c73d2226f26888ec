/** Facts about quotients and remainders shared by the models. */
module Remainders {

  lemma MulBound(d: int, m: int)
    requires m > 0
    ensures d >= 1 ==> d * m >= m
    ensures d <= -1 ==> d * m <= -m
  {
  }

  lemma ModUnique(x: int, q: int, m: int, r: int)
    requires m > 0 && 0 <= r < m && x == q * m + r
    ensures x % m == r
  {
    var d := q - x / m;
    assert x == m * (x / m) + x % m;
    assert d * m == x % m - r;
    MulBound(d, m);
  }

  lemma ModShift(x: int, k: int, m: int)
    requires m > 0
    ensures (x + k * m) % m == x % m
  {
    assert x == (x / m) * m + x % m;
    assert x + k * m == (x / m + k) * m + x % m;
    ModUnique(x + k * m, x / m + k, m, x % m);
  }

  /** Adding a multiple of `m` keeps the remainder. */
  lemma ModPlus(x: int, y: int, m: int)
    requires m > 0 && y % m == 0
    ensures (x + y) % m == x % m
  {
    assert y == (y / m) * m;
    ModShift(x, y / m, m);
  }

  lemma DivShift(x: int, k: int, m: int)
    requires m > 0
    ensures (x + k * m) / m == x / m + k
  {
    ModShift(x, k, m);
    var d := (x + k * m) / m - (x / m + k);
    assert x == x / m * m + x % m;
    assert x + k * m == (x + k * m) / m * m + x % m;
    assert (x / m + k) * m == x / m * m + k * m;
    assert d * m == 0;
    MulBound(d, m);
  }

  /** Numbers that leave the same remainder are at least `m` apart. */
  lemma ModApart(x: int, y: int, m: int)
    requires m > 0 && x % m == y % m && x < y
    ensures x + m <= y
  {
    if y - x < m {
      assert y == (y / m) * m + y % m && x == (x / m) * m + x % m;
      assert y - x == (y / m - x / m) * m;
      ModUnique(y - x, 0, m, y - x);
      ModUnique(y - x, y / m - x / m, m, 0);
    }
  }
}
