/** Remainders, for proofs that wrap counters and indices. */
module Modular {

  lemma DivModUnique(x: int, m: int, q: int, r: int)
    requires m > 0 && 0 <= r < m && x == q * m + r
    ensures x % m == r && x / m == q
  {
    var q', r' := x / m, x % m;
    assert x == m * q' + r';
    var d := q - q';
    assert d * m == r' - r by {
      assert d * m == q * m - q' * m;
    }
    SmallMultiple(d, m);
  }

  lemma SmallMultiple(d: int, m: int)
    requires m > 0 && -m < d * m < m
    ensures d == 0
  {
    if d >= 1 {
      MulMonotone(1, d, m);
    } else if d <= -1 {
      MulMonotone(d, -1, m);
    }
  }

  lemma MulMonotone(a: int, b: int, m: int)
    requires m >= 0 && a <= b
    ensures a * m <= b * m
  {
    assert (b - a) * m >= 0;
    assert (b - a) * m == b * m - a * m;
  }

  lemma ModSmall(x: int, m: int)
    requires 0 <= x < m
    ensures x % m == x
  {
  }

  lemma ModOnce(x: int, m: int)
    requires 0 < m <= x < 2 * m
    ensures x % m == x - m
  {
    DivModUnique(x, m, 1, x - m);
  }

  lemma ModAddMultiple(x: int, q: int, m: int)
    requires m > 0
    ensures (x + q * m) % m == x % m
  {
    var k, r := x / m, x % m;
    assert x == m * k + r;
    assert x + q * m == (k + q) * m + r by {
      assert (k + q) * m == k * m + q * m;
    }
    DivModUnique(x + q * m, m, k + q, r);
  }

  /** Python's x % m for a positive m, by turns around the circle. */
  function Wrap(x: int, m: int): (r: int)
    requires m > 0
    ensures 0 <= r < m && (0 <= x < m ==> r == x)
    decreases if x < 0 then -x else x
  {
    if x >= m then Wrap(x - m, m)
    else if x <= -m then Wrap(x + m, m)
    else if x < 0 then x + m
    else x
  }

  lemma {:induction false} WrapIsMod(x: int, m: int)
    requires m > 0
    ensures Wrap(x, m) == x % m
    decreases if x < 0 then -x else x
  {
    if x >= m {
      WrapIsMod(x - m, m);
      ModAddMultiple(x - m, 1, m);
    } else if x < 0 {
      if x <= -m {
        WrapIsMod(x + m, m);
      } else {
        ModSmall(x + m, m);
      }
      ModAddMultiple(x + m, -1, m);
    } else {
      ModSmall(x, m);
    }
  }
}
