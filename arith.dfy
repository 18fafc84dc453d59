/** Small facts of non-linear integer arithmetic that the solver does not find unaided. */
module Arith {

  lemma DivMod(x: int, d: int)
    requires d > 0
    ensures x == d * (x / d) + x % d && 0 <= x % d < d
  {
  }

  lemma MulAtLeast(d: int, k: int)
    requires d > 0 && k >= 1
    ensures d * k >= d
  {
    assert d * k == d * (k - 1) + d;
  }

  lemma Distrib(a: int, i: int, j: int)
    ensures a * j - a * i == a * (j - i)
  {
  }

  /** Division with remainder has one answer. */
  lemma DivUnique(x: int, d: int, q: int, r: int)
    requires d > 0 && 0 <= r < d && x == d * q + r
    ensures x / d == q && x % d == r
  {
    var q', r' := x / d, x % d;
    DivMod(x, d);
    Distrib(d, q', q);
    var k := q - q';
    assert d * k == r' - r;
    if k >= 1 {
      MulAtLeast(d, k);
      assert false;
    } else if k <= -1 {
      MulAtLeast(d, -k);
      assert false;
    }
  }

  /** Halving first and then dividing by `b` is dividing by `2 * b`. */
  lemma DivHalf(x: nat, b: nat)
    requires b > 0
    ensures (x / 2) / b == x / (2 * b)
  {
    var q, r := (x / 2) / b, (x / 2) % b;
    DivMod(x / 2, b);
    DivMod(x, 2);
    assert x == 2 * (b * q + r) + x % 2;
    assert x == (2 * b) * q + (2 * r + x % 2);
    DivUnique(x, 2 * b, q, 2 * r + x % 2);
  }

  /** Two multiples of `a` less than `a` apart are equal. */
  lemma MultiplesApart(x: nat, y: nat, a: nat)
    requires a > 0 && x % a == 0 && y % a == 0 && x <= y < x + a
    ensures x == y
  {
    var i, j := x / a, y / a;
    DivMod(x, a);
    DivMod(y, a);
    Distrib(a, i, j);
    if j - i >= 1 {
      MulAtLeast(a, j - i);
      assert false;
    } else if j - i <= -1 {
      MulAtLeast(a, i - j);
      assert false;
    }
  }

  /** Moving up by `a - x % a` reaches the next multiple of `a` above `x`. */
  lemma NextMultiple(x: nat, a: nat)
    requires a > 0
    ensures 1 <= a - x % a <= a && (x + (a - x % a)) % a == 0
  {
    DivMod(x, a);
    DivUnique(x + (a - x % a), a, x / a + 1, 0);
  }

  /** A multiple of `a` plus `a` is a multiple of `a`. */
  lemma MultiplePlus(x: nat, a: nat)
    requires a > 0 && x % a == 0
    ensures (x + a) % a == 0
  {
    DivMod(x, a);
    DivUnique(x + a, a, x / a + 1, 0);
  }

  /** Rounding down to a multiple of `a` loses less than `a`. */
  lemma RoundDown(x: nat, a: nat)
    requires a > 0
    ensures x / a * a <= x < x / a * a + a
    ensures (x / a * a) % a == 0
  {
    DivMod(x, a);
    DivUnique(x / a * a, a, x / a, 0);
  }

  /** A sum of two values below `m` wraps at most once. */
  lemma ModWrap(x: nat, m: nat)
    requires m > 0 && x < 2 * m
    ensures x % m == (if x < m then x else x - m)
  {
    if x < m {
      DivUnique(x, m, 0, x);
    } else {
      DivUnique(x, m, 1, x - m);
    }
  }

  /** Reducing an addend first does not change the remainder of a sum. */
  lemma ModAddMod(a: nat, b: nat, m: nat)
    requires m > 0
    ensures (a + b % m) % m == (a + b) % m
  {
    DivMod(b, m);
    DivMod(a + b % m, m);
    var q1, q2 := b / m, (a + b % m) / m;
    assert a + b == m * (q1 + q2) + (a + b % m) % m;
    DivUnique(a + b, m, q1 + q2, (a + b % m) % m);
  }
}
