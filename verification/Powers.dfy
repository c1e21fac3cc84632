/** Powers of two and the few facts about integer division the other modules share. */
module Powers {

  function Pow2(n: nat): (r: int)
    ensures r > 0
  {
    if n == 0 then 1 else 2 * Pow2(n - 1)
  }

  lemma {:induction false} Pow2Add(a: nat, b: nat)
    ensures Pow2(a + b) == Pow2(a) * Pow2(b)
  {
    if a != 0 {
      Pow2Add(a - 1, b);
    }
  }

  lemma {:induction false} Pow2Increasing(a: nat, b: nat)
    requires a <= b
    ensures Pow2(a) <= Pow2(b)
    ensures a < b ==> 2 * Pow2(a) <= Pow2(b)
  {
    if a < b {
      Pow2Increasing(a, b - 1);
    }
  }

  /** What `d & (d - 1)` tests, for a positive d: it is zero exactly for these. */
  ghost predicate IsPow2(d: int) {
    exists k: nat :: d == Pow2(k)
  }

  lemma QuotientIsUnique(d: int, q: int, r: int, q1: int, r1: int)
    requires d > 0 && 0 <= r < d && 0 <= r1 < d
    requires q * d + r == q1 * d + r1
    ensures q == q1 && r == r1
  {
    assert (q1 - q) * d == q1 * d - q * d;
    if q < q1 {
      MulMono(d, 1, q1 - q);
    } else if q1 < q {
      MulMono(d, q1 - q, -1);
    }
  }

  lemma MulMono(d: int, a: int, b: int)
    requires d >= 0 && a <= b
    ensures a * d <= b * d
  {
  }

  lemma CancelMul(d: int, a: int, b: int)
    requires d > 0
    ensures a * d <= b * d ==> a <= b
    ensures a * d < b * d ==> a < b
  {
    if b <= a {
      MulMono(d, b, a);
    }
    if b < a {
      MulMono(d, b + 1, a);
      assert (b + 1) * d == b * d + d;
    }
  }

  lemma DivisionIsUnique(x: int, d: int, q: int, r: int)
    requires d > 0 && x == q * d + r && 0 <= r < d
    ensures x / d == q && x % d == r
  {
    DivisionFloor(x, d);
    QuotientIsUnique(d, q, r, x / d, x % d);
  }

  lemma DivisionFloor(x: int, d: int)
    requires d > 0
    ensures x == (x / d) * d + x % d
    ensures 0 <= x % d < d
  {
  }

  /** Two shifts in a row are one shift by the product. */
  lemma DivDiv(x: int, a: int, b: int)
    requires a > 0 && b > 0
    ensures a * b > 0
    ensures x / a / b == x / (a * b)
  {
    DivisionFloor(x, a);
    DivisionFloor(x / a, b);
    NestedQuotient(a, b, x / a / b, x / a % b, x % a);
    DivisionIsUnique(x, a * b, x / a / b, x / a % b * a + x % a);
  }

  lemma NestedQuotient(a: int, b: int, q: int, r: int, s: int)
    requires 0 <= r < b && 0 <= s < a
    ensures (q * b + r) * a + s == q * (a * b) + (r * a + s)
    ensures 0 <= r * a + s < a * b
  {
    assert (q * b + r) * a == q * b * a + r * a;
    assert q * b * a == q * (a * b);
    MulMono(a, r, b - 1);
    assert (b - 1) * a == a * b - a;
  }

  lemma DoublingStep(x: int, d: int)
    requires d > 0
    ensures (2 * x) / d == 2 * (x / d) + (if 2 * (x % d) >= d then 1 else 0)
    ensures (2 * x) % d == 2 * (x % d) - (if 2 * (x % d) >= d then d else 0)
  {
    var q, r := x / d, x % d;
    if 2 * r >= d {
      assert 2 * x == (2 * q + 1) * d + (2 * r - d);
      DivisionIsUnique(2 * x, d, 2 * q + 1, 2 * r - d);
    } else {
      assert 2 * x == (2 * q) * d + 2 * r;
      DivisionIsUnique(2 * x, d, 2 * q, 2 * r);
    }
  }

  lemma ModAddMultiple(y: int, k: int, d: int)
    requires d > 0
    ensures (y + k * d) % d == y % d
  {
    DivisionFloor(y, d);
    assert y + k * d == (y / d + k) * d + y % d;
    DivisionIsUnique(y + k * d, d, y / d + k, y % d);
  }

  lemma WrapSmall(x: int, m: int)
    requires 0 <= x < m
    ensures x % m == x
  {
    DivisionIsUnique(x, m, 0, x);
  }

  lemma {:induction false} OddDoesNotDividePow2(d: int, k: nat)
    requires d > 1 && d % 2 == 1
    ensures Pow2(k) % d != 0
  {
    if k == 0 {
      WrapSmall(1, d);
    } else {
      OddDoesNotDividePow2(d, k - 1);
      var r := Pow2(k - 1) % d;
      DivisionFloor(Pow2(k - 1), d);
      DoublingStep(Pow2(k - 1), d);
      assert 2 * r != d;
    }
  }

  /** y lies between two consecutive multiples of p, all scaled by d. */
  lemma ScaledBounds(y: int, p: int, d: int, q: int)
    requires p > 0 && d > 0
    requires d * (p * q) <= d * y < d * (p * q) + d * p
    ensures p * q <= y < p * q + p
  {
    assert d * (p * q) == (p * q) * d && d * y == y * d;
    assert (p * q + p) * d == d * (p * q) + d * p;
    CancelMul(d, p * q, y);
    CancelMul(d, y, p * q + p);
  }

  lemma ScaledBoundsUpper(y: int, p: int, d: int, q: int)
    requires p > 0 && d > 0
    requires d * (p * q) < d * y <= d * (p * q) + d * p
    ensures p * q < y <= p * q + p
  {
    assert d * (p * q) == (p * q) * d && d * y == y * d;
    assert (p * q + p) * d == d * (p * q) + d * p;
    CancelMul(d, p * q, y);
    CancelMul(d, y, p * q + p);
  }

  lemma QuotientFromBounds(y: int, p: int, q: int)
    requires p > 0 && p * q <= y < p * q + p
    ensures y / p == q
  {
    assert y == q * p + (y - p * q);
    DivisionIsUnique(y, p, q, y - p * q);
  }

  /** The product of a dividend n = q * d + k and a multiplier with m * d = p + s. */
  lemma ScaledProduct(m: int, d: int, n: int, p: int, s: int, q: int, k: int)
    requires m * d == p + s && n == q * d + k
    ensures d * (m * n) == d * (p * q) + p * k + s * n
  {
    assert d * (m * n) == (m * d) * n;
    assert (p + s) * n == p * n + s * n;
    assert p * (q * d + k) == p * (q * d) + p * k;
    assert p * (q * d) == d * (p * q);
  }
}
