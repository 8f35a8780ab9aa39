/** Facts about quotients and remainders by a variable divisor, which the solver does not find by itself. */
module Division {

  lemma MultipleGrows(d: nat, k: nat)
    requires k >= 1
    ensures d * k >= d
  {
    assert d * k == d + d * (k - 1);
  }

  lemma SmallMultiple(d: nat, k: int)
    requires 0 - d < d * k < d
    ensures k == 0
  {
    if k >= 1 {
      MultipleGrows(d, k);
    }
  }

  lemma Quotient(x: nat, d: nat, q: nat, r: nat)
    requires r < d && x == d * q + r
    ensures x / d == q && x % d == r
  {
    var q0, r0 := x / d, x % d;
    assert x == d * q0 + r0;
    assert d * (q0 - q) == d * q0 - d * q;
    SmallMultiple(d, q0 - q);
  }

  lemma QuotientBelow(x: nat, d: nat, n: nat)
    requires d > 0
    ensures x / d < n <==> x < n * d
  {
    assert x == d * (x / d) + x % d;
    if x / d < n {
      assert n * d == d * (x / d) + d * (n - x / d);
      MultipleGrows(d, n - x / d);
    } else {
      assert d * (x / d) == n * d + d * (x / d - n);
    }
  }

  /** Multiples of the divisor do not change a remainder. */
  lemma AddMultiples(y: nat, b: nat, k: nat)
    requires b > 0
    ensures (b * k + y) % b == y % b
  {
    assert b * (k + y / b) == b * k + b * (y / b);
    Quotient(b * k + y, b, k + y / b, y % b);
  }

  lemma Regroup(b: nat, m: nat, q: nat)
    ensures (b * m) * q == b * (m * q)
  {
  }

  /** A remainder by a multiple of b keeps the remainder by b. */
  lemma ModMod(x: nat, a: nat, b: nat)
    requires a > 0 && b > 0 && a % b == 0
    ensures (x % a) % b == x % b
  {
    var m, q := a / b, x / a;
    assert a == b * m;
    assert x == a * q + x % a;
    Regroup(b, m, q);
    AddMultiples(x % a, b, m * q);
  }

  lemma QuotientMonotone(a: nat, b: nat, d: nat)
    requires d > 0 && a <= b
    ensures a / d <= b / d
  {
    var p, q := a / d, b / d;
    assert d * p <= a && b < d * q + d;
    if p > q {
      assert d * p == d * q + d * (p - q);
      MultipleGrows(d, p - q);
      assert false;
    }
  }
}
