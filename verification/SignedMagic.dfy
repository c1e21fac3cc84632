/**
  Signed division by a constant: Warren's `magic` and compute_signed_magic_info, which is
  the same loop for any width. `b` is the width of the signed type (32 for `magic`).
 */
module SignedMagic {
  import opened Powers

  datatype Magic = Magic(multiplier: int, shift: nat)

  ghost predicate InRange(n: int, b: nat)
    requires b > 0
  {
    -Pow2(b - 1) <= n < Pow2(b - 1)
  }

  /** The divisors magic accepts: 2 <= d < 2^(b-1) or -2^(b-1) <= d <= -2. */
  ghost predicate Divisor(d: int, b: nat) {
    b >= 3 && InRange(d, b) && (d >= 2 || d <= -2)
  }

  function Abs(d: int): int {
    if d < 0 then -d else d
  }

  /** C division: the quotient is rounded toward zero. */
  function TruncatedQuotient(n: int, d: int): int
    requires d != 0
  {
    if (n < 0) == (d < 0) then Abs(n) / Abs(d) else -(Abs(n) / Abs(d))
  }

  /** The b-bit signed number congruent to x. */
  function Wrap(x: int, b: nat): (r: int)
    requires b > 0
  {
    (x + Pow2(b - 1)) % Pow2(b) - Pow2(b - 1)
  }

  /** Multiply high, then correct by n when the multiplier's sign does not match the divisor's. */
  function CorrectedHigh(multiplier: int, b: nat, d: int, n: int): int
    requires b > 0
  {
    var high := multiplier * n / Pow2(b);
    if d > 0 && multiplier < 0 then Wrap(high + n, b)
    else if d < 0 && multiplier > 0 then Wrap(high - n, b)
    else high
  }

  /** The documented sequence: after the correction, shift arithmetically and add the sign bit. */
  function Divide(m: Magic, b: nat, d: int, n: int): int
    requires b > 0
  {
    Wrap(AddSign(CorrectedHigh(m.multiplier, b, d, n) / Pow2(m.shift)), b)
  }

  function AddSign(x: int): int {
    x + (if x < 0 then 1 else 0)
  }

  /** One past the largest |n| whose quotient is positive. */
  ghost function Limit(d: int, b: nat): int
    requires b > 0
  {
    Pow2(b - 1) + (if d < 0 then 1 else 0)
  }

  /** The largest such |n| that leaves the remainder |d| - 1. */
  ghost function Anc(d: int, b: nat): int
    requires Divisor(d, b)
  {
    Limit(d, b) - 1 - Limit(d, b) % Abs(d)
  }

  /** The exponent p is large enough: 2^p exceeds anc * delta. */
  ghost predicate Enough(d: int, b: nat, p: nat)
    requires Divisor(d, b)
  {
    Anc(d, b) * (Abs(d) - Pow2(p) % Abs(d)) < Pow2(p)
  }

  ghost predicate NotEnoughBelow(d: int, b: nat, p: nat)
    requires Divisor(d, b)
  {
    p <= b || (NotEnoughBelow(d, b, p - 1) && !Enough(d, b, p - 1))
  }

  // ---- the test numerator ----

  lemma AncFacts(d: int, b: nat)
    requires Divisor(d, b)
    ensures Anc(d, b) % Abs(d) == Abs(d) - 1
    ensures Limit(d, b) - 1 - Abs(d) < Anc(d, b) <= Limit(d, b) - 1
    ensures Abs(d) - 1 <= Anc(d, b) && Pow2(b - 1) <= 2 * Anc(d, b)
    ensures Anc(d, b) == Pow2(b - 1) ==> Abs(d) % 2 == 1
    ensures 4 <= Pow2(b - 1) && Pow2(b - 1) % 2 == 0
  {
    var t, ad := Limit(d, b), Abs(d);
    assert Pow2(b - 1) == 2 * (2 * Pow2(b - 3));
    DivisionFloor(t, ad);
    if t / ad < 1 {
      MulMono(ad, t / ad, 0);
    }
    MulMono(ad, 1, t / ad);
    assert Anc(d, b) == (t / ad - 1) * ad + (ad - 1);
    DivisionIsUnique(Anc(d, b), ad, t / ad - 1, ad - 1);
    if Anc(d, b) == Pow2(b - 1) && ad % 2 == 0 {
      assert t == t / ad * ad;
      EvenMultiple(t / ad, ad);
    }
  }

  lemma EvenMultiple(q: int, a: int)
    requires a % 2 == 0
    ensures (q * a) % 2 == 0
  {
    assert q * a == (q * (a / 2)) * 2;
  }

  // ---- why the multiplier works ----

  lemma PositiveBounds(n: int, ad: int, p: int, m: int, delta: int, q: int, k: int)
    requires ad > 0 && p > 0 && n >= 0 && m * ad == p + delta && delta >= 0
    requires n == q * ad + k && 0 <= k < ad && delta * n < p * (ad - k)
    ensures p * q <= m * n < p * q + p
  {
    ScaledProduct(m, ad, n, p, delta, q, k);
    assert p * (ad - k) == ad * p - p * k;
    MulMono(p, 0, k);
    assert k * p == p * k;
    MulMono(n, 0, delta);
    ScaledBounds(m * n, p, ad, q);
  }

  lemma PositiveExact(n: int, ad: int, p: int, m: int, delta: int)
    requires ad > 0 && p > 0 && n >= 0 && m * ad == p + delta && delta >= 0
    requires delta * n < p * (ad - n % ad)
    ensures m * n / p == n / ad
  {
    DivisionFloor(n, ad);
    PositiveBounds(n, ad, p, m, delta, n / ad, n % ad);
    QuotientFromBounds(m * n, p, n / ad);
  }

  lemma NegativeBounds(n: int, ad: int, p: int, m: int, delta: int, q: int, k: int)
    requires ad > 0 && p > 0 && n > 0 && m * ad == p + delta && delta > 0
    requires n == q * ad + k && 0 <= k < ad && delta * n <= p * (ad - k)
    ensures p * q < m * n <= p * q + p
  {
    ScaledProduct(m, ad, n, p, delta, q, k);
    assert p * (ad - k) == ad * p - p * k;
    MulMono(p, 0, k);
    assert k * p == p * k;
    MulMono(n, 1, delta);
    ScaledBoundsUpper(m * n, p, ad, q);
  }

  /** For a negative dividend -n the floor is one too low, and the sign bit repairs it. */
  lemma NegativeExact(n: int, ad: int, p: int, m: int, delta: int)
    requires ad > 0 && p > 0 && n > 0 && m * ad == p + delta && delta > 0
    requires delta * n <= p * (ad - n % ad)
    ensures m * -n / p == -(n / ad) - 1
  {
    DivisionFloor(n, ad);
    NegativeBounds(n, ad, p, m, delta, n / ad, n % ad);
    NegatedQuotient(m, n, p, n / ad);
  }

  lemma NegatedQuotient(m: int, n: int, p: int, q: int)
    requires p > 0 && p * q < m * n <= p * q + p
    ensures m * -n / p == -q - 1
  {
    assert m * -n == -(m * n);
    assert p * (-q - 1) == -(p * q) - p;
    QuotientFromBounds(m * -n, p, -q - 1);
  }

  /** The error of every dividend up to the limit fits the room its remainder leaves. */
  lemma Slack(n: int, ad: int, t: int, anc: int, delta: int, p: int)
    requires ad > 0 && p > 0 && 0 <= n < t && 0 <= delta && delta * anc < p
    requires anc % ad == ad - 1 && anc <= t - 1 < anc + ad && ad - 1 <= anc
    ensures delta * n < p * (ad - n % ad)
  {
    var k := n % ad;
    DivisionFloor(n, ad);
    if n <= anc {
      MulMono(delta, n, anc);
      MulMono(p, 1, ad - k);
    } else {
      DivisionFloor(anc, ad);
      assert n == (anc / ad + 1) * ad + (n - anc - 1);
      DivisionIsUnique(n, ad, anc / ad + 1, n - anc - 1);
      SlackPast(ad, anc, n - anc, delta, p);
    }
  }

  lemma SlackPast(ad: int, anc: int, j: int, delta: int, p: int)
    requires p > 0 && 0 <= delta && delta * anc < p && 0 < j <= ad - 1 <= anc
    ensures delta * (anc + j) < p * (ad - (j - 1))
  {
    MulMono(delta, j, anc);
    assert delta * (anc + j) == delta * anc + delta * j;
    assert j * delta == delta * j && anc * delta == delta * anc;
    MulMono(p, 2, ad - (j - 1));
  }

  /** The one dividend past the limit: the most negative number, when d is positive. */
  lemma SlackAtMinimum(ad: int, half: int, k: int, delta: int, p: int)
    requires ad >= 2 && p > 0 && 0 <= delta && 0 <= k < ad && delta * (half - 1 - k) < p && ad - 1 <= half - 1 - k
    requires k == ad - 1 ==> p == 2 * half && delta == 2
    ensures delta * half <= p * (ad - k)
  {
    if k < ad - 1 {
      SlackPast(ad, half - 1 - k, k + 1, delta, p);
    }
  }

  /** If |d| divides 2^(b-1) + 1, the first exponent tried suffices. */
  lemma FirstExponent(d: int, b: nat)
    requires Divisor(d, b) && d > 0 && Pow2(b - 1) % d == d - 1
    ensures Pow2(b) % d == d - 2 && Enough(d, b, b)
  {
    AncFacts(d, b);
    DivisionFloor(Pow2(b - 1), d);
    assert d != 2;
    DoublingStep(Pow2(b - 1), d);
    assert Anc(d, b) * 2 < Pow2(b);
  }

  // ---- the loop ----

  /** The last exponent that can be needed. */
  lemma LastExponent(d: int, b: nat)
    requires Divisor(d, b)
    ensures Enough(d, b, 2 * b - 2)
  {
    AncFacts(d, b);
    var half, anc, ad := Pow2(b - 1), Anc(d, b), Abs(d);
    Pow2Add(b - 1, b - 1);
    assert b - 1 + (b - 1) == 2 * b - 2;
    DivisionFloor(Pow2(2 * b - 2), ad);
    BelowSquare(anc, ad - Pow2(2 * b - 2) % ad, half);
  }

  lemma BelowSquare(x: int, y: int, h: int)
    requires 0 <= x <= h && 0 <= y <= h && h > 0 && (x < h || y < h)
    ensures x * y < h * h
  {
    MulMono(y, x, h);
    MulMono(h, y, h);
    if x < h {
      MulMono(y, x, h - 1);
      MulMono(h - 1, y, h);
      assert (h - 1) * h == h * h - h;
      assert y * (h - 1) == (h - 1) * y;
    } else {
      MulMono(h, y, h - 1);
      assert (h - 1) * h == h * h - h;
    }
  }

  /** While the exponent is not enough, doubling overflows neither quotient nor remainder. */
  lemma FirstNoOverflow(d: int, b: nat, p: nat)
    requires Divisor(d, b) && b - 1 <= p <= 2 * b - 3 && (p == b - 1 || !Enough(d, b, p))
    ensures 2 * (Pow2(p) / Anc(d, b)) + 1 < Pow2(b) && 2 * (Pow2(p) % Anc(d, b)) < Pow2(b)
  {
    hide Anc, Abs, Limit, Pow2, Enough, Divisor, InRange;
    AncFacts(d, b);
    DivisorBounds(d, b);
    NotEnoughMeans(d, b, p);
    DivisionFloor(Pow2(p), Anc(d, b));
    DivisionFloor(Pow2(p), Abs(d));
    if p != b - 1 {
      TwiceBelowSquare(b, p);
    }
    FirstDoubling(Pow2(p) / Anc(d, b), Pow2(p) % Anc(d, b), Anc(d, b), Abs(d) - Pow2(p) % Abs(d), Abs(d),
                  Pow2(b - 1), p == b - 1);
  }

  lemma FirstDoubling(q: int, r: int, anc: int, delta: int, ad: int, half: int, first: bool)
    requires 0 <= r < anc <= half && half <= 2 * anc && 0 <= delta <= ad <= half && ad - 1 <= anc && half >= 4
    requires if first then q * anc + r == half else q * anc + r <= anc * delta && 2 * (q * anc + r) <= half * half
    ensures 2 * q + 1 < 2 * half && 2 * r < 2 * half
  {
    if first {
      FirstQuotients(q, r, anc, half);
    } else {
      FirstQuotientBound(q, r, anc, delta, ad, half);
    }
  }

  lemma TwiceBelowSquare(b: nat, p: nat)
    requires b >= 3 && p <= 2 * b - 3
    ensures 2 * Pow2(p) <= Pow2(b - 1) * Pow2(b - 1)
  {
    Pow2Increasing(p, 2 * b - 3);
    Pow2Add(b - 1, b - 1);
    assert b - 1 + (b - 1) == 2 * b - 3 + 1;
  }

  /** The doubled second quotient even leaves room for the increment that follows the loop. */
  lemma SecondNoOverflow(d: int, b: nat, p: nat)
    requires Divisor(d, b) && b - 1 <= p && (p == b - 1 || !Enough(d, b, p))
    ensures 2 * (Pow2(p) % Abs(d)) < Pow2(b)
    ensures 2 * (Pow2(p) / Abs(d)) + (if 2 * (Pow2(p) % Abs(d)) >= Abs(d) then 1 else 0) + 1 < Pow2(b)
  {
    hide Anc, Abs, Limit, Pow2, Enough, Divisor, InRange;
    AncFacts(d, b);
    DivisorBounds(d, b);
    NotEnoughMeans(d, b, p);
    var q, r := Pow2(p) / Abs(d), Pow2(p) % Abs(d);
    DivisionFloor(Pow2(p), Abs(d));
    if p != b - 1 && Anc(d, b) == Pow2(b - 1) && r == 0 {
      OddDoesNotDividePow2(Abs(d), p);
    }
    SecondDoubling(q, r, Anc(d, b), Abs(d), Pow2(b - 1), p == b - 1);
  }

  lemma DivisorBounds(d: int, b: nat)
    requires Divisor(d, b)
    ensures b >= 3 && Pow2(b) == 2 * Pow2(b - 1) && Anc(d, b) <= Pow2(b - 1) && 2 <= Abs(d) <= Pow2(b - 1)
  {
    AncFacts(d, b);
  }

  lemma NotEnoughMeans(d: int, b: nat, p: nat)
    requires Divisor(d, b)
    ensures !Enough(d, b, p) ==> Pow2(p) <= Anc(d, b) * (Abs(d) - Pow2(p) % Abs(d))
  {
    hide Pow2, Anc;
  }

  lemma SecondDoubling(q: int, r: int, anc: int, ad: int, half: int, first: bool)
    requires 0 <= r < ad <= half && 2 <= ad && anc <= half && half >= 4
    requires if first then q * ad + r == half else q * ad + r <= anc * (ad - r)
    requires !first && anc == half ==> r != 0
    ensures 2 * r < 2 * half && 2 * q + (if 2 * r >= ad then 1 else 0) + 1 < 2 * half
  {
    if first {
      FirstQuotients(q, r, ad, half);
    } else {
      SecondQuotientBound(q, r, anc, ad, half);
    }
  }

  lemma FirstQuotients(q: int, r: int, a: int, half: int)
    requires q * a + r == half && 0 <= r < a && (a >= 2 || 2 * a >= half) && half >= 4
    ensures 2 * q <= half
  {
    if 2 * q > half {
      MulMono(q, 2, a);
    }
  }

  lemma FirstQuotientBound(q: int, r: int, anc: int, delta: int, ad: int, half: int)
    requires 0 <= r < anc && q * anc + r <= anc * delta && 0 <= delta <= ad <= half
    requires ad - 1 <= anc <= half && half >= 4 && 2 * (q * anc + r) <= half * half
    ensures q < half
  {
    assert anc * delta == delta * anc;
    CancelMul(anc, q, delta);
    assert 2 * anc * half == 2 * (half * anc);
    CancelMul(half, 2 * anc, half);
  }

  lemma SecondQuotientBound(q: int, r: int, anc: int, ad: int, half: int)
    requires 0 <= r < ad <= half && q * ad + r <= anc * (ad - r) && 2 <= ad && anc <= half
    requires anc == half ==> r != 0
    ensures q <= half - 1 && (r > 0 ==> q <= half - 2)
  {
    if anc < half {
      MulMono(ad - r, anc, half - 1);
      assert (half - 1) * (ad - r) == (half - 1) * ad - (half - 1) * r;
      MulMono(r, 0, half - 1);
      MulMono(half - 1, 0, r);
      CancelMul(ad, q, half - 1);
    } else {
      assert half * (ad - r) == half * ad - half * r;
      MulMono(half, 1, r);
      assert (half - 1) * ad == half * ad - ad;
      CancelMul(ad, q, half - 1);
    }
  }

  lemma HalfImpossible(q: int, r: int, ad: int, half: int, j: int)
    requires q * ad + r == half * j && 0 <= r < ad <= half && half % 2 == 0 && j % 2 == 0
    ensures q + 1 != half
  {
    if q + 1 == half {
      assert (q + 1) * ad == q * ad + ad;
      assert half * (ad - j) == half * ad - half * j;
      SmallMultiple(half, ad - j, ad - r);
    }
  }

  lemma SmallMultiple(h: int, e: int, x: int)
    requires h > 0 && h * e == x && 0 < x <= h
    ensures e == 1
  {
    if e >= 2 {
      MulMono(h, 2, e);
    } else if e <= 0 {
      MulMono(h, e, 0);
    }
  }

  /** The incremented quotient is never 2^(b-1), so its negation fits the signed type. */
  lemma NeverHalf(d: int, b: nat, p: nat)
    requires Divisor(d, b) && b <= p
    ensures Pow2(p) / Abs(d) + 1 != Pow2(b - 1)
  {
    AncFacts(d, b);
    DivisionFloor(Pow2(p), Abs(d));
    Pow2Add(b - 1, p - (b - 1));
    assert b - 1 + (p - (b - 1)) == p;
    assert Pow2(p - (b - 1)) == 2 * Pow2(p - b);
    HalfImpossible(Pow2(p) / Abs(d), Pow2(p) % Abs(d), Abs(d), Pow2(b - 1), Pow2(p - (b - 1)));
  }

  // ---- the emitted sequence ----

  lemma WrapIdentity(x: int, b: nat)
    requires b > 0
    ensures InRange(x, b) ==> Wrap(x, b) == x
    ensures Pow2(b - 1) <= x < Pow2(b) ==> Wrap(x, b) == x - Pow2(b)
  {
    var y := x + Pow2(b - 1);
    if InRange(x, b) {
      DivisionIsUnique(y, Pow2(b), 0, y);
    } else if Pow2(b - 1) <= x < Pow2(b) {
      DivisionIsUnique(y, Pow2(b), 1, y - Pow2(b));
    }
  }

  /** What the multiplier field holds for the true multiplier m. */
  function SignedMultiplier(d: int, b: nat, m: int): int
    requires b > 0
  {
    if d < 0 then -Wrap(m, b) else Wrap(m, b)
  }

  function Signed(d: int, n: int): int {
    if d < 0 then -n else n
  }

  lemma HighProductInRange(m: int, n: int, b: nat)
    requires b > 0 && 0 < m < Pow2(b) && -Pow2(b - 1) <= n <= Pow2(b - 1)
    ensures InRange(m * n / Pow2(b), b)
  {
    DivisionFloor(m * n, Pow2(b));
    HighBounds(m, n, Pow2(b), Pow2(b - 1), m * n / Pow2(b), m * n % Pow2(b));
  }

  lemma HighBounds(m: int, n: int, f: int, h: int, q: int, r: int)
    requires 0 < m < f && -h <= n <= h && h > 0 && m * n == q * f + r && 0 <= r < f
    ensures -h <= q < h
  {
    MulMono(m, n, h);
    MulMono(m, -h, n);
    MulMono(h, m, f - 1);
    assert (f - 1) * h == h * f - h && h * m == m * h && (-h) * m == -(h * m);
    CancelMul(f, q, h);
    assert (-h - 1) * f == -(h * f) - f;
    CancelMul(f, -h - 1, q);
  }

  lemma AddMultiple(y: int, k: int, f: int)
    requires f > 0
    ensures (y + k * f) / f == y / f + k
  {
    DivisionFloor(y, f);
    assert y + k * f == (y / f + k) * f + y % f;
    DivisionIsUnique(y + k * f, f, y / f + k, y % f);
  }

  /** After the correction by n the register holds the high half of the true product. */
  lemma CorrectedIsHigh(d: int, b: nat, m: int, n: int)
    requires Divisor(d, b) && InRange(n, b) && 0 < m < Pow2(b) && m != Pow2(b - 1)
    ensures InRange(SignedMultiplier(d, b, m), b)
    ensures CorrectedHigh(SignedMultiplier(d, b, m), b, d, n) == m * Signed(d, n) / Pow2(b)
  {
    assert Pow2(b) == 2 * Pow2(b - 1);
    hide Wrap, Pow2;
    var full := Pow2(b);
    WrapIdentity(m, b);
    HighProductInRange(m, Signed(d, n), b);
    var mm := SignedMultiplier(d, b, m);
    WrapIdentity(m * Signed(d, n) / full, b);
    HighOfWrapped(m, n, full);
    HighOfWrapped(m, -n, full);
    assert (m - full) * -n == (full - m) * n;
    assert m * -n == (-m) * n;
  }

  /** Reading an unsigned multiplier as signed lowers the high half by n. */
  lemma HighOfWrapped(m: int, n: int, f: int)
    requires f > 0
    ensures (m - f) * n / f + n == m * n / f
  {
    assert (m - f) * n + n * f == m * n;
    AddMultiple((m - f) * n, n, f);
  }

  lemma PositiveCore(n: int, ad: int, t: int, anc: int, x: int, m: int, delta: int)
    requires x > 0 && m * ad == x + delta && 0 < delta <= ad && anc * delta < x && 0 <= n < t
    requires anc % ad == ad - 1 && anc <= t - 1 < anc + ad && ad - 1 <= anc
    ensures m * n / x == n / ad
  {
    assert delta * anc == anc * delta;
    Slack(n, ad, t, anc, delta, x);
    PositiveExact(n, ad, x, m, delta);
  }

  lemma NegativeCore(n: int, ad: int, t: int, anc: int, x: int, m: int, delta: int)
    requires x > 0 && m * ad == x + delta && 0 < delta <= ad && anc * delta < x && 0 < n < t
    requires anc % ad == ad - 1 && anc <= t - 1 < anc + ad && ad - 1 <= anc
    ensures m * -n / x == -(n / ad) - 1
  {
    assert delta * anc == anc * delta;
    Slack(n, ad, t, anc, delta, x);
    NegativeExact(n, ad, x, m, delta);
  }

  lemma NegativeAtLimit(ad: int, t: int, anc: int, x: int, m: int, delta: int)
    requires ad >= 2 && x > 0 && m * ad == x + delta && 0 < delta <= ad && anc * delta < x && 0 < t
    requires anc == t - 1 - t % ad && ad - 1 <= anc
    requires t % ad == ad - 1 ==> x == 2 * t && delta == 2
    ensures m * -t / x == -(t / ad) - 1
  {
    assert delta * anc == anc * delta;
    DivisionFloor(t, ad);
    SlackAtMinimum(ad, t, t % ad, delta, x);
    NegativeExact(t, ad, x, m, delta);
  }

  lemma IncrementedQuotient(x: int, ad: int)
    requires ad > 0
    ensures (x / ad + 1) * ad == x + (ad - x % ad)
  {
    DivisionFloor(x, ad);
    assert (x / ad + 1) * ad == x / ad * ad + ad;
  }

  lemma PositiveQuotient(d: int, b: nat, p: nat, n: int, m: int)
    requires Divisor(d, b) && b <= p && Enough(d, b, p) && 0 <= n < Limit(d, b)
    requires m == Pow2(p) / Abs(d) + 1
    ensures m * n / Pow2(p) == n / Abs(d)
  {
    AncFacts(d, b);
    IncrementedQuotient(Pow2(p), Abs(d));
    PositiveCore(n, Abs(d), Limit(d, b), Anc(d, b), Pow2(p), m, Abs(d) - Pow2(p) % Abs(d));
  }

  lemma NegativeQuotient(d: int, b: nat, p: nat, n: int, m: int)
    requires Divisor(d, b) && b <= p && Enough(d, b, p) && NotEnoughBelow(d, b, p)
    requires 0 < n < Limit(d, b) || (d > 0 && n == Limit(d, b))
    requires m == Pow2(p) / Abs(d) + 1
    ensures m * -n / Pow2(p) == -(n / Abs(d)) - 1
  {
    AncFacts(d, b);
    IncrementedQuotient(Pow2(p), Abs(d));
    if n < Limit(d, b) {
      NegativeCore(n, Abs(d), Limit(d, b), Anc(d, b), Pow2(p), m, Abs(d) - Pow2(p) % Abs(d));
    } else {
      if Pow2(b - 1) % d == d - 1 {
        FirstExponent(d, b);
        NotEnoughAt(d, b, p, b);
      }
      NegativeAtLimit(d, n, Anc(d, b), Pow2(p), m, d - Pow2(p) % d);
    }
  }

  lemma {:induction false} NotEnoughAt(d: int, b: nat, p: nat, e: nat)
    requires Divisor(d, b) && NotEnoughBelow(d, b, p) && b <= e
    ensures e < p ==> !Enough(d, b, e)
  {
    if e < p - 1 {
      NotEnoughAt(d, b, p - 1, e);
    }
  }

  /** The shifted true product, before the sign bit is added. */
  lemma ShiftedProduct(d: int, b: nat, p: nat, n: int, m: int)
    requires Divisor(d, b) && InRange(n, b) && b <= p && Enough(d, b, p) && NotEnoughBelow(d, b, p)
    requires m == Pow2(p) / Abs(d) + 1
    ensures AddSign(m * Signed(d, n) / Pow2(b) / Pow2(p - b)) == TruncatedQuotient(n, d)
  {
    var n1 := Signed(d, n);
    HighThenShift(m * n1, b, p);
    TruncatedInRange(n, d, b);
    if n1 >= 0 {
      PositiveQuotient(d, b, p, n1, m);
    } else {
      NegativeQuotient(d, b, p, -n1, m);
    }
  }

  /** The sequence gives the quotient of n rounded toward zero. */
  ghost predicate DividesAt(m: Magic, b: nat, d: int, n: int)
    requires b > 0 && d != 0
  {
    Divide(m, b, d, n) == TruncatedQuotient(n, d)
  }

  /** It does so for every b-bit dividend. */
  ghost predicate DividesEvery(m: Magic, b: nat, d: int)
    requires b > 0 && d != 0
  {
    forall n :: InRange(n, b) ==> DividesAt(m, b, d, n)
  }

  /** p is the least exponent from b on that is enough. */
  ghost predicate LeastExponent(d: int, b: nat, p: nat)
    requires Divisor(d, b)
  {
    b <= p && Enough(d, b, p) && NotEnoughBelow(d, b, p)
  }

  lemma MagicDivides(d: int, b: nat, p: nat, n: int, m: int)
    requires Divisor(d, b) && InRange(n, b) && LeastExponent(d, b, p)
    requires m == Pow2(p) / Abs(d) + 1 && m < Pow2(b)
    ensures DividesAt(Magic(SignedMultiplier(d, b, m), p - b), b, d, n)
  {
    hide Wrap, Pow2, CorrectedHigh, SignedMultiplier, TruncatedQuotient;
    NeverHalf(d, b, p);
    PositiveQuotientOfPower(Pow2(p), Abs(d));
    CorrectedIsHigh(d, b, m, n);
    ShiftedProduct(d, b, p, n, m);
    TruncatedInRange(n, d, b);
    WrapIdentity(TruncatedQuotient(n, d), b);
  }

  lemma NegationFits(m: int, b: nat)
    requires b > 0 && 0 < m < Pow2(b) && m != Pow2(b - 1)
    ensures InRange(Wrap(m, b), b) && InRange(-Wrap(m, b), b)
  {
    WrapIdentity(m, b);
  }

  lemma PositiveQuotientOfPower(x: int, a: int)
    requires x >= 0 && a > 0
    ensures x / a >= 0
  {
    DivisionFloor(x, a);
    if x / a < 0 {
      MulMono(a, x / a, -1);
    }
  }

  lemma HighThenShift(x: int, b: nat, p: nat)
    requires b <= p
    ensures x / Pow2(b) / Pow2(p - b) == x / Pow2(p)
  {
    Pow2Add(b, p - b);
    assert b + (p - b) == p;
    DivDiv(x, Pow2(b), Pow2(p - b));
  }

  lemma TruncatedInRange(n: int, d: int, b: nat)
    requires Divisor(d, b) && InRange(n, b)
    ensures InRange(TruncatedQuotient(n, d), b)
    ensures 0 <= Abs(n) / Abs(d)
  {
    DivisionFloor(Abs(n), Abs(d));
    var q := Abs(n) / Abs(d);
    if q < 0 {
      MulMono(Abs(d), q, -1);
    }
    MulMono(q, 2, Abs(d));
  }

  lemma CompareQuotient(x: int, anc: int, q1: int, r1: int, delta: int)
    requires anc > 0 && x == q1 * anc + r1 && 0 <= r1 < anc
    ensures anc * delta < x <==> !(q1 < delta || (q1 == delta && r1 == 0))
  {
    assert anc * delta == delta * anc;
    if q1 < delta {
      MulMono(anc, q1 + 1, delta);
      assert (q1 + 1) * anc == q1 * anc + anc;
    } else if q1 > delta {
      MulMono(anc, delta + 1, q1);
      assert (delta + 1) * anc == delta * anc + anc;
    }
  }

  /** The loop's guard compares q1 and r1 with delta instead of multiplying. */
  lemma GuardMeaning(d: int, b: nat, p: nat, q1: int, r1: int, delta: int)
    requires Divisor(d, b) && Anc(d, b) > 0 && q1 == Pow2(p) / Anc(d, b) && r1 == Pow2(p) % Anc(d, b)
    requires delta == Abs(d) - Pow2(p) % Abs(d)
    ensures Enough(d, b, p) <==> !(q1 < delta || (q1 == delta && r1 == 0))
  {
    DivisionFloor(Pow2(p), Anc(d, b));
    CompareQuotient(Pow2(p), Anc(d, b), q1, r1, delta);
  }

  /** The loop, in unsigned arithmetic of width b that never wraps. It stops at the least
      exponent that is enough, with the quotient of 2^p by |d|. */
  method FindExponent(d: int, b: nat) returns (p: nat, q2: int)
    requires Divisor(d, b)
    ensures p <= 2 * b - 2 && LeastExponent(d, b, p)
    ensures q2 == Pow2(p) / Abs(d) && q2 + 1 < Pow2(b)
  {
    var wrap, half := Pow2(b), Pow2(b - 1);
    var ad := Abs(d);
    var t := half + (if d < 0 then 1 else 0);
    var anc := t - 1 - t % ad;
    AncFacts(d, b);
    assert anc == Anc(d, b) && ad == Abs(d) && NotEnoughBelow(d, b, b);
    hide Anc, Abs, Limit, Pow2, Enough, NotEnoughBelow, Divisor;
    p := b - 1;
    var q1, r1 := half / anc, half % anc;
    q2 := half / ad;
    var r2 := half % ad;
    while true
      invariant b - 1 <= p <= 2 * b - 3
      invariant q1 == Pow2(p) / anc && r1 == Pow2(p) % anc
      invariant q2 == Pow2(p) / ad && r2 == Pow2(p) % ad
      invariant p == b - 1 || !Enough(d, b, p)
      invariant NotEnoughBelow(d, b, p + 1)
      decreases 2 * b - p
    {
      FirstNoOverflow(d, b, p);
      SecondNoOverflow(d, b, p);
      Pow2Doubles(p);
      q1, r1 := Double(q1, r1, anc, Pow2(p), wrap);
      q2, r2 := Double(q2, r2, ad, Pow2(p), wrap);
      p := p + 1;
      var delta := ad - r2;
      assert q1 < wrap && q2 + 1 < wrap;
      GuardMeaning(d, b, p, q1, r1, delta);
      if !(q1 < delta || (q1 == delta && r1 == 0)) {
        break;
      }
      NextNotEnough(d, b, p);
      LastExponent(d, b);
    }
  }

  /** Quotient and remainder of 2 * x from those of x; neither doubling wraps. */
  method Double(q: int, r: int, a: int, ghost x: int, ghost wrap: int) returns (q2: int, r2: int)
    requires a > 0 && x >= 0 && q == x / a && r == x % a
    requires 2 * q + (if 2 * r >= a then 1 else 0) < wrap && 2 * r < wrap
    ensures q2 == 2 * x / a && r2 == 2 * x % a
    ensures q2 == 2 * q + if 2 * r >= a then 1 else 0
  {
    DoublingStep(x, a);
    q2, r2 := 2 * q, 2 * r;
    assert q2 < wrap && r2 < wrap;
    if r2 >= a {
      q2, r2 := q2 + 1, r2 - a;
    }
  }

  lemma Pow2Doubles(p: nat)
    ensures Pow2(p + 1) == 2 * Pow2(p)
  {
  }

  lemma NextNotEnough(d: int, b: nat, p: nat)
    requires Divisor(d, b) && NotEnoughBelow(d, b, p) && !Enough(d, b, p)
    ensures NotEnoughBelow(d, b, p + 1)
  {
  }

  /** The multiplier and shift for d: the emitted sequence divides every b-bit dividend. */
  method FindMagic(d: int, b: nat) returns (m: Magic)
    requires Divisor(d, b)
    ensures m.shift <= b - 2 && LeastExponent(d, b, b + m.shift)
    ensures InRange(m.multiplier, b)
    ensures DividesEvery(m, b, d)
  {
    var p, q2 := FindExponent(d, b);
    NeverHalf(d, b, p);
    PositiveQuotientOfPower(Pow2(p), Abs(d));
    NegationFits(q2 + 1, b);
    var multiplier := Wrap(q2 + 1, b);
    if d < 0 {
      assert InRange(-multiplier, b);
      multiplier := -multiplier;
    }
    m := Magic(multiplier, p - b);
    forall n | InRange(n, b)
      ensures DividesAt(m, b, d, n)
    {
      MagicDivides(d, b, p, n, q2 + 1);
    }
  }
}
