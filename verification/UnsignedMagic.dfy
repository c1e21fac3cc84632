/**
  Unsigned division by a constant: the search of compute_unsigned_magic_info and the
  two instruction sequences its header comment documents.

  `uvalBits` is the width of the C type uval, at which arithmetic wraps; `w` is what the
  code calls UVAL_BITS, the width of the hardware shift. The comment (and the
  commented-out line) keeps `w` fixed at the register width; the compiled line sets it to
  num_bits, so that the recursion for an even divisor shrinks it.
 */
module UnsignedMagic {
  import opened Powers
  import opened Wrappers

  datatype MagicU = MagicU(multiplier: int, preShift: nat, postShift: nat, increment: bool)

  ghost predicate Divisor(d: int, uvalBits: nat) {
    0 < d < Pow2(uvalBits) && !IsPow2(d)
  }

  /** c is ceil(log2 d): d has c bits. */
  ghost predicate BitLength(d: int, c: nat) {
    0 < c && Pow2(c - 1) < d < Pow2(c)
  }

  // ---- the documented instruction sequences ----

  /** First sequence: the dividend is incremented, saturating at the register's maximum. */
  function DivideSaturating(m: MagicU, w: nat, n: int): int {
    var n1 := n / Pow2(m.preShift);
    var n2 := if m.increment && n1 != Pow2(w) - 1 then n1 + 1 else n1;
    m.multiplier * n2 / Pow2(w) / Pow2(m.postShift)
  }

  /** Second sequence: the multiplier is added to the double-width product. */
  function DivideAdding(m: MagicU, w: nat, n: int): int {
    var n1 := n / Pow2(m.preShift);
    (m.multiplier * n1 + (if m.increment then m.multiplier else 0)) / Pow2(w) / Pow2(m.postShift)
  }

  ghost predicate DividesExactly(m: MagicU, w: nat, numBits: nat, d: int)
    requires d > 0
  {
    forall n :: 0 <= n < Pow2(numBits) ==> DivideAdding(m, w, n) == n / d && DivideSaturating(m, w, n) == n / d
  }

  // ---- why a multiplier works ----

  lemma RoundUpBounds(n: int, d: int, p: int, m: int, delta: int, q: int, k: int)
    requires d > 0 && p > 0 && n >= 0 && n == q * d + k && 0 <= k < d
    requires m * d == p + delta && 0 <= delta && delta * n < p
    ensures p * q <= m * n < p * q + p
  {
    ScaledProduct(m, d, n, p, delta, q, k);
    MulMono(n, 0, delta);
    MulMono(p, 0, k);
    MulMono(p, k, d - 1);
    assert (d - 1) * p == d * p - p && p * k == k * p;
    ScaledBounds(m * n, p, d, q);
  }

  lemma RoundUpExact(n: int, d: int, p: int, m: int, delta: int)
    requires d > 0 && p > 0 && n >= 0
    requires m * d == p + delta && 0 <= delta && delta * n < p
    ensures m * n / p == n / d
  {
    DivisionFloor(n, d);
    RoundUpBounds(n, d, p, m, delta, n / d, n % d);
    QuotientFromBounds(m * n, p, n / d);
  }

  lemma RoundDownBounds(n1: int, d: int, p: int, m: int, r: int, q: int, k1: int)
    requires d > 0 && p > 0 && n1 > 0 && n1 == q * d + k1 && 0 < k1 <= d
    requires m * d == p - r && 0 < r && r * n1 <= p
    ensures p * q <= m * n1 < p * q + p
  {
    ScaledProduct(m, d, n1, p, -r, q, k1);
    assert -r * n1 == -(r * n1);
    MulMono(n1, 1, r);
    MulMono(p, 1, k1);
    MulMono(p, k1, d);
    assert p * k1 == k1 * p;
    ScaledBounds(m * n1, p, d, q);
  }

  lemma RoundDownExact(n: int, d: int, p: int, m: int, r: int)
    requires d > 0 && p > 0 && n >= 0
    requires m * d == p - r && 0 < r && r * (n + 1) <= p
    ensures m * (n + 1) / p == n / d
  {
    DivisionFloor(n, d);
    RoundDownBounds(n + 1, d, p, m, r, n / d, n % d + 1);
    QuotientFromBounds(m * (n + 1), p, n / d);
  }

  // ---- the search for an exponent ----

  /** Rounding 2^(w+e) / d up is exact for every dividend of w - extra bits. */
  ghost predicate UpWorks(d: int, w: nat, extra: nat, e: nat)
    requires d > 0
  {
    d - Pow2(w + e) % d <= Pow2(e + extra)
  }

  /** Rounding down is exact once the dividend is incremented. */
  ghost predicate DownWorks(d: int, w: nat, extra: nat, e: nat)
    requires d > 0
  {
    Pow2(w + e) % d <= Pow2(e + extra)
  }

  /** No exponent below n stops the search by rounding up or by reaching c bits. */
  ghost predicate UpFailsBelow(d: int, w: nat, extra: nat, c: nat, n: nat)
    requires d > 0
  {
    n == 0 || (UpFailsBelow(d, w, extra, c, n - 1) && n - 1 + extra < c && !UpWorks(d, w, extra, n - 1))
  }

  ghost predicate DownFailsBelow(d: int, w: nat, extra: nat, n: nat)
    requires d > 0
  {
    n == 0 || (DownFailsBelow(d, w, extra, n - 1) && !DownWorks(d, w, extra, n - 1))
  }

  datatype Search = Search(exponent: nat, quotient: int, hasDown: bool, downMultiplier: int, downExponent: nat)

  /** What the loop leaves behind: the least exponent that stops it, and the least
      smaller one at which rounding down works. */
  ghost predicate SearchResult(s: Search, d: int, uvalBits: nat, w: nat, extra: nat, c: nat)
    requires d > 0
  {
    && s.exponent <= c
    && (s.exponent + extra >= c || UpWorks(d, w, extra, s.exponent))
    && UpFailsBelow(d, w, extra, c, s.exponent)
    && s.quotient == (Pow2(w + s.exponent) / d) % Pow2(uvalBits)
    && DownResult(s, d, uvalBits, w, extra)
  }

  ghost predicate DownResult(s: Search, d: int, uvalBits: nat, w: nat, extra: nat)
    requires d > 0
  {
    if s.hasDown then
      && s.downExponent < s.exponent
      && DownWorks(d, w, extra, s.downExponent)
      && s.downMultiplier == (Pow2(w + s.downExponent) / d) % Pow2(uvalBits)
      && DownFailsBelow(d, w, extra, s.downExponent)
    else
      DownFailsBelow(d, w, extra, s.exponent)
  }

  lemma WrapDouble(x: int, b: int, m: int)
    requires m > 0
    ensures (2 * (x % m) + b) % m == (2 * x + b) % m
  {
    DivisionFloor(x, m);
    assert 2 * x + b == (2 * (x % m) + b) + (2 * (x / m)) * m;
    ModAddMultiple(2 * (x % m) + b, 2 * (x / m), m);
  }

  lemma BitLengthFits(d: int, c: nat, uvalBits: nat)
    requires BitLength(d, c) && d < Pow2(uvalBits)
    ensures c <= uvalBits
  {
    if uvalBits < c {
      Pow2Increasing(uvalBits, c - 1);
    }
  }

  lemma WrapSub(x: int, d: int, m: int)
    requires m > 0
    ensures (x % m - d) % m == (x - d) % m
  {
    DivisionFloor(x, m);
    assert x - d == (x % m - d) + (x / m) * m;
    ModAddMultiple(x % m - d, x / m, m);
  }

  lemma QuotientFits(x: int, d: int, m: int)
    requires 0 <= x < m && d > 0
    ensures 0 <= x / d < m
  {
    DivisionFloor(x, d);
    if x / d >= m {
      MulMono(x / d, 1, d);
    } else if x / d < 0 {
      MulMono(d, x / d, -1);
    }
  }

  /** Doubling the wrapped quotient and the remainder of p tracks 2 * p, in uval arithmetic. */
  lemma DoubledUvals(p: int, d: int, wrap: int, quotient: int, remainder: int)
    requires 0 < d < wrap && p >= 0
    requires quotient == (p / d) % wrap && remainder == p % d
    ensures remainder >= d - remainder ==>
      (quotient * 2 + 1) % wrap == (2 * p / d) % wrap && ((remainder * 2) % wrap - d) % wrap == (2 * p) % d
    ensures remainder < d - remainder ==>
      (quotient * 2) % wrap == (2 * p / d) % wrap && (remainder * 2) % wrap == (2 * p) % d
  {
    DivisionFloor(p, d);
    DoublingStep(p, d);
    WrapDouble(p / d, 1, wrap);
    WrapDouble(p / d, 0, wrap);
    if remainder >= d - remainder {
      WrapSub(remainder * 2, d, wrap);
      WrapSmall(remainder * 2 - d, wrap);
    } else {
      WrapSmall(remainder * 2, wrap);
    }
  }

  method FindExponent(uvalBits: nat, w: nat, numBits: nat, d: int, c: nat) returns (s: Search)
    requires 0 < numBits <= w <= uvalBits && Divisor(d, uvalBits) && BitLength(d, c)
    ensures SearchResult(s, d, uvalBits, w, w - numBits, c)
  {
    var wrap := Pow2(uvalBits);
    var extraShift := w - numBits;
    BitLengthFits(d, c, uvalBits);
    Pow2Increasing(w - 1, uvalBits);
    var initialPower := Pow2(w - 1);
    var quotient, remainder := initialPower / d, initialPower % d;
    QuotientFits(initialPower, d, wrap);
    WrapSmall(quotient, wrap);
    s := Search(0, 0, false, 0, 0);
    var exponent := 0;
    while true
      invariant exponent <= c
      invariant remainder == Pow2(w + exponent - 1) % d
      invariant quotient == (Pow2(w + exponent - 1) / d) % wrap
      invariant UpFailsBelow(d, w, extraShift, c, exponent)
      invariant s.exponent == exponent && DownResult(s, d, uvalBits, w, extraShift)
      decreases c - exponent
    {
      assert Pow2(w + exponent) == 2 * Pow2(w + exponent - 1);
      DoubledUvals(Pow2(w + exponent - 1), d, wrap, quotient, remainder);
      if remainder >= d - remainder {
        quotient := (quotient * 2 + 1) % wrap;
        remainder := ((remainder * 2) % wrap - d) % wrap;
      } else {
        quotient := (quotient * 2) % wrap;
        remainder := (remainder * 2) % wrap;
      }
      if exponent + extraShift >= c || d - remainder <= Pow2(exponent + extraShift) {
        assert exponent + extraShift >= c || UpWorks(d, w, extraShift, exponent);
        assert quotient == (Pow2(w + exponent) / d) % wrap;
        break;
      }
      assert exponent + extraShift < uvalBits;
      if !s.hasDown && remainder <= Pow2(exponent + extraShift) {
        s := Search(exponent, 0, true, quotient, exponent);
      }
      exponent := exponent + 1;
      s := s.(exponent := exponent);
    }
    s := s.(quotient := quotient);
  }

  /** The number of bits of d, as the loop over tmp counts them. */
  function CeilLog2(d: int): nat
    requires d >= 0
  {
    if d == 0 then 0 else 1 + CeilLog2(d / 2)
  }

  lemma {:induction false} CeilLog2Bounds(d: int)
    requires d > 0
    ensures CeilLog2(d) > 0 && Pow2(CeilLog2(d) - 1) <= d < Pow2(CeilLog2(d))
    ensures !IsPow2(d) ==> BitLength(d, CeilLog2(d))
  {
    if d > 1 {
      CeilLog2Bounds(d / 2);
    }
  }

  method CountBits(d: int) returns (c: nat)
    requires d >= 0
    ensures c == CeilLog2(d)
  {
    c := 0;
    var tmp := d;
    while tmp > 0
      invariant tmp >= 0 && c + CeilLog2(tmp) == CeilLog2(d)
    {
      c := c + 1;
      tmp := tmp / 2;
    }
  }

  // ---- what the found exponent gives ----

  lemma QuotientBelow(q: int, r: int, d: int, a: int, b: int)
    requires q * d + r == a * b && 0 <= r < d
    requires 0 < b < d < a && b + 1 < a
    ensures 0 < q && q + 1 < a
  {
    assert (b + 1) * (a - 1) == a * b + a - b - 1;
    if q <= 0 {
      MulMono(d, q, 0);
      MulMono(b, 1, a);
      assert q * d <= 0;
      MulMono(b, d, a);
      assert d * b >= d by { MulMono(d, 1, b); }
    } else if q >= a - 1 {
      MulMono(d, a - 1, q);
      MulMono(a - 1, b + 1, d);
    }
  }

  /** An exponent below the bit length keeps the quotient, and one more than it, inside the register. */
  lemma MultiplierFits(d: int, w: nat, c: nat, e: nat)
    requires BitLength(d, c) && d < Pow2(w) && e < c
    ensures 0 < Pow2(w + e) / d && Pow2(w + e) / d + 1 < Pow2(w)
  {
    BitLengthFits(d, c, w);
    Pow2Increasing(e, c - 1);
    Pow2Increasing(c - 1, w - 1);
    assert Pow2(w) == 2 * Pow2(w - 1);
    Pow2Add(w, e);
    DivisionFloor(Pow2(w + e), d);
    QuotientBelow(Pow2(w + e) / d, Pow2(w + e) % d, d, Pow2(w), Pow2(e));
  }

  lemma ErrorStaysSmall(delta: int, n: int, bound: int, range: int)
    requires 0 <= delta <= bound && 0 <= n < range && bound > 0
    ensures delta * n < bound * range
    ensures delta * (n + 1) <= bound * range
  {
    MulMono(n + 1, delta, bound);
    MulMono(bound, n + 1, range);
    assert bound * (n + 1) == bound * n + bound;
    MulMono(n, delta, bound);
  }

  lemma RoundUpAt(n: int, d: int, w: nat, numBits: nat, e: nat)
    requires 0 < numBits <= w && d > 0 && 0 <= n < Pow2(numBits)
    requires UpWorks(d, w, w - numBits, e)
    ensures (Pow2(w + e) / d + 1) * n / Pow2(w) / Pow2(e) == n / d
  {
    var p, q := Pow2(w + e), Pow2(w + e) / d;
    var delta := d - p % d;
    DivisionFloor(p, d);
    assert (q + 1) * d == q * d + d;
    Pow2Add(e + (w - numBits), numBits);
    assert e + (w - numBits) + numBits == w + e;
    ErrorStaysSmall(delta, n, Pow2(e + (w - numBits)), Pow2(numBits));
    RoundUpExact(n, d, p, q + 1, delta);
    Pow2Add(w, e);
    DivDiv((q + 1) * n, Pow2(w), Pow2(e));
  }

  lemma RoundUpMagic(d: int, w: nat, numBits: nat, c: nat, e: nat)
    requires 0 < numBits <= w && BitLength(d, c) && e < c
    requires e + (w - numBits) >= c || UpWorks(d, w, w - numBits, e)
    ensures DividesExactly(MagicU(Pow2(w + e) / d + 1, 0, e, false), w, numBits, d)
  {
    PastBitLength(d, w, w - numBits, c, e);
    var m := MagicU(Pow2(w + e) / d + 1, 0, e, false);
    forall n | 0 <= n < Pow2(numBits)
      ensures DivideAdding(m, w, n) == n / d && DivideSaturating(m, w, n) == n / d
    {
      RoundUpAt(n, d, w, numBits, e);
      assert n / Pow2(0) == n;
    }
  }

  lemma PastBitLength(d: int, w: nat, extra: nat, c: nat, e: nat)
    requires BitLength(d, c) && (e + extra >= c || UpWorks(d, w, extra, e))
    ensures UpWorks(d, w, extra, e)
  {
    if e + extra >= c {
      Pow2Increasing(c, e + extra);
      DivisionFloor(Pow2(w + e), d);
    }
  }

  /** When d divides the register's maximum, rounding up already works at c - 1, so the
      saturated dividend never meets the round-down multiplier. */
  lemma MaximumNotDivisible(d: int, w: nat, c: nat)
    requires 0 < w && BitLength(d, c) && !UpWorks(d, w, 0, c - 1)
    ensures (Pow2(w) - 1) % d != 0
  {
    var x, y := Pow2(w) - 1, Pow2(c - 1);
    if x % d == 0 {
      Pow2Add(w, c - 1);
      DivisionFloor(x, d);
      DivisorTimes(x, x / d, d, y);
      assert Pow2(w + (c - 1)) == x * y + y;
      DivisionIsUnique(Pow2(w + (c - 1)), d, x / d * y, y);
    }
  }

  lemma DivisorTimes(x: int, q: int, d: int, y: int)
    requires x == q * d
    ensures x * y == q * y * d && (x + 1) * y == x * y + y
  {
    assert q * d * y == q * (d * y) == q * (y * d) == q * y * d;
  }

  lemma PredecessorQuotient(n: int, d: int)
    requires d > 0 && n % d != 0
    ensures (n - 1) / d == n / d
  {
    DivisionFloor(n, d);
    DivisionIsUnique(n - 1, d, n / d, n % d - 1);
  }

  lemma RoundDownMagic(d: int, w: nat, numBits: nat, c: nat, e: nat)
    requires 0 < numBits == w && BitLength(d, c) && d % 2 == 1 && e < c
    requires DownWorks(d, w, 0, e) && !UpWorks(d, w, 0, c - 1)
    ensures DividesExactly(MagicU(Pow2(w + e) / d, 0, e, true), w, numBits, d)
  {
    var m := MagicU(Pow2(w + e) / d, 0, e, true);
    OddDoesNotDividePow2(d, w + e);
    DivisionFloor(Pow2(w + e), d);
    MaximumNotDivisible(d, w, c);
    forall n | 0 <= n < Pow2(numBits)
      ensures DivideAdding(m, w, n) == n / d && DivideSaturating(m, w, n) == n / d
    {
      RoundDownBoth(n, d, w, e);
    }
  }

  /** Both sequences at one dividend; the saturated one falls back on its predecessor. */
  lemma RoundDownBoth(n: int, d: int, w: nat, e: nat)
    requires 0 <= n < Pow2(w) && d > 1 && Pow2(w + e) % d > 0 && DownWorks(d, w, 0, e)
    requires (Pow2(w) - 1) % d != 0
    ensures var m := MagicU(Pow2(w + e) / d, 0, e, true);
      DivideAdding(m, w, n) == n / d && DivideSaturating(m, w, n) == n / d
  {
    var q := Pow2(w + e) / d;
    assert n / Pow2(0) == n;
    RoundDownAt(n, d, w, e);
    assert q * (n + 1) == q * n + q;
    if n == Pow2(w) - 1 {
      PredecessorQuotient(n, d);
      DivisionFloor(0, d);
      assert n > 0;
      RoundDownAt(n - 1, d, w, e);
      assert q * (n - 1) + q == q * n;
    }
  }

  lemma RoundDownAt(n: int, d: int, w: nat, e: nat)
    requires 0 <= n < Pow2(w) && d > 0 && Pow2(w + e) % d > 0 && DownWorks(d, w, 0, e)
    ensures (Pow2(w + e) / d * n + Pow2(w + e) / d) / Pow2(w) / Pow2(e) == n / d
  {
    var p, m, r := Pow2(w + e), Pow2(w + e) / d, Pow2(w + e) % d;
    DivisionFloor(p, d);
    Pow2Add(e, w);
    assert e + w == w + e;
    ErrorStaysSmall(r, n, Pow2(e), Pow2(w));
    RoundDownExact(n, d, p, m, r);
    assert m * (n + 1) == m * n + m;
    Pow2Add(w, e);
    DivDiv(m * n + m, Pow2(w), Pow2(e));
  }

  // ---- consequences of the search result ----

  /** Once rounding up works it keeps working at every larger exponent. */
  lemma {:induction false} UpWorksLater(d: int, w: nat, e: nat, e2: nat)
    requires d > 0 && e <= e2 && UpWorks(d, w, 0, e)
    ensures UpWorks(d, w, 0, e2)
  {
    if e < e2 {
      UpWorksLater(d, w, e, e2 - 1);
      DivisionFloor(Pow2(w + e2 - 1), d);
      DoublingStep(Pow2(w + e2 - 1), d);
      assert Pow2(w + e2) == 2 * Pow2(w + e2 - 1) && Pow2(e2) == 2 * Pow2(e2 - 1);
    }
  }

  /** What a caller can test beforehand: rounding up works at the last exponent tried. */
  ghost predicate RoundUpFits(d: int, w: int)
    requires d > 0
  {
    0 < w && CeilLog2(d) > 0 && UpWorks(d, w, 0, CeilLog2(d) - 1)
  }

  /** At the last exponent before the bit length, rounding down works if rounding up does not. */
  lemma UpOrDown(d: int, w: nat, c: nat)
    requires BitLength(d, c)
    ensures UpWorks(d, w, 0, c - 1) || DownWorks(d, w, 0, c - 1)
  {
    assert Pow2(c) == 2 * Pow2(c - 1);
  }

  /** The three ways the search can end. */
  lemma SearchOutcome(s: Search, d: int, uvalBits: nat, w: nat, extra: nat, c: nat)
    requires BitLength(d, c) && SearchResult(s, d, uvalBits, w, extra, c) && extra <= w <= uvalBits && d < Pow2(w)
    ensures s.exponent < c ==> UpWorks(d, w, extra, s.exponent) && s.quotient == Pow2(w + s.exponent) / d
    ensures s.exponent < c ==> 0 < s.quotient && s.quotient + 1 < Pow2(w)
    ensures s.exponent < c && extra == 0 ==> UpWorks(d, w, 0, c - 1)
    ensures s.exponent == c ==> extra == 0 && !UpWorks(d, w, 0, c - 1)
    ensures s.exponent == c ==> s.hasDown && s.downExponent < c && DownWorks(d, w, 0, s.downExponent)
    ensures s.exponent == c ==> s.downMultiplier == Pow2(w + s.downExponent) / d && 0 < s.downMultiplier < Pow2(w)
  {
    Pow2Increasing(w, uvalBits);
    if s.exponent < c {
      PastBitLength(d, w, extra, c, s.exponent);
      MultiplierFits(d, w, c, s.exponent);
      WrapSmall(Pow2(w + s.exponent) / d, Pow2(uvalBits));
      if extra == 0 {
        UpWorksLater(d, w, s.exponent, c - 1);
      }
    } else {
      UpOrDown(d, w, c);
      MultiplierFits(d, w, c, s.downExponent);
      WrapSmall(Pow2(w + s.downExponent) / d, Pow2(uvalBits));
    }
  }

  // ---- even divisors ----

  function OddPart(d: int): (r: int)
    requires d > 0
    ensures 0 < r <= d && r % 2 == 1
  {
    if d % 2 == 0 then OddPart(d / 2) else d
  }

  function TwoExponent(d: int): nat
    requires d > 0
  {
    if d % 2 == 0 then 1 + TwoExponent(d / 2) else 0
  }

  lemma {:induction false} OddPartTimesPower(d: int)
    requires d > 0
    ensures d == Pow2(TwoExponent(d)) * OddPart(d)
    ensures OddPart(d) == 1 ==> IsPow2(d)
  {
    if d % 2 == 0 {
      OddPartTimesPower(d / 2);
      var a, b := Pow2(TwoExponent(d / 2)), OddPart(d / 2);
      assert 2 * (a * b) == (2 * a) * b;
    }
    if OddPart(d) == 1 {
      assert d == Pow2(TwoExponent(d)) * 1;
    }
  }

  method SplitEven(d: int) returns (shiftedD: int, preShift: nat)
    requires d > 0
    ensures shiftedD == OddPart(d) && preShift == TwoExponent(d)
  {
    preShift := 0;
    shiftedD := d;
    while shiftedD % 2 == 0
      invariant 0 < shiftedD && OddPart(shiftedD) == OddPart(d)
      invariant preShift + TwoExponent(shiftedD) == TwoExponent(d)
      decreases shiftedD
    {
      shiftedD := shiftedD / 2;
      preShift := preShift + 1;
    }
  }

  lemma OddIsNotPow2(d: int)
    requires d > 1 && d % 2 == 1
    ensures !IsPow2(d)
  {
    forall k: nat
      ensures d != Pow2(k)
    {
      assert k == 0 || Pow2(k) == 2 * Pow2(k - 1);
    }
  }

  /** An even divisor that is no power of two: its odd part is again a divisor, with fewer dividend bits. */
  lemma EvenDivisor(d: int, w: nat)
    requires Divisor(d, w) && d % 2 == 0
    ensures 0 < TwoExponent(d) < w && OddPart(d) < d && Divisor(OddPart(d), w)
    ensures d == Pow2(TwoExponent(d)) * OddPart(d) && OddPart(d) >= 3
  {
    OddPartTimesPower(d);
    var k, o := TwoExponent(d), OddPart(d);
    OddIsNotPow2(o);
    MulMono(Pow2(k), 3, o);
    if w <= k {
      Pow2Increasing(w, k);
    }
  }

  /** Shifting the dividend first divides by the power of two. */
  lemma PreShifted(m: MagicU, w: nat, numBits: nat, k: nat, o: int)
    requires o > 0 && k < numBits <= w && m.preShift == 0 && !m.increment
    requires DividesExactly(m, w, numBits - k, o)
    ensures Pow2(k) * o > 0 && DividesExactly(m.(preShift := k), w, numBits, Pow2(k) * o)
  {
    MulMono(Pow2(k), 1, o);
    forall n | 0 <= n < Pow2(numBits)
      ensures DivideAdding(m.(preShift := k), w, n) == n / (Pow2(k) * o)
      ensures DivideSaturating(m.(preShift := k), w, n) == n / (Pow2(k) * o)
    {
      var n1 := n / Pow2(k);
      Pow2Add(k, numBits - k);
      DivisionFloor(n, Pow2(k));
      ShiftedRange(n1, n % Pow2(k), Pow2(k), Pow2(numBits - k));
      assert n1 / Pow2(0) == n1;
      assert DivideAdding(m, w, n1) == n1 / o;
      DivDiv(n, Pow2(k), o);
    }
  }

  lemma ShiftedRange(q: int, r: int, a: int, b: int)
    requires a > 0 && 0 <= r < a && 0 <= q * a + r < a * b
    ensures 0 <= q < b
  {
    if q < 0 {
      MulMono(a, q, -1);
    } else if q >= b {
      MulMono(a, b, q);
    }
  }

  // ---- the whole computation ----

  /**
    With UVAL_BITS fixed at the register width: the result divides every dividend of
    numBits bits exactly, by either sequence, and meets the invariants its header lists.
   */
  method MagicFixedWidth(w: nat, numBits: nat, d: int) returns (m: MagicU)
    requires 0 < numBits <= w && Divisor(d, w)
    ensures DividesExactly(m, w, numBits, d)
    ensures 0 < m.multiplier < Pow2(w)
    ensures m.preShift == 0 || !m.increment
    ensures m.postShift < CeilLog2(d)
    ensures d % 2 == 1 && numBits < w ==> m.preShift == 0 && !m.increment
    decreases d
  {
    var c := CountBits(d);
    CeilLog2Bounds(d);
    var s := FindExponent(w, w, numBits, d, c);
    SearchOutcome(s, d, w, w, w - numBits, c);
    if s.exponent < c {
      RoundUpMagic(d, w, numBits, c, s.exponent);
      m := MagicU(s.quotient + 1, 0, s.exponent, false);
    } else if d % 2 == 1 {
      assert s.hasDown;
      RoundDownMagic(d, w, numBits, c, s.downExponent);
      m := MagicU(s.downMultiplier, 0, s.downExponent, true);
    } else {
      EvenDivisor(d, w);
      var shiftedD, preShift := SplitEven(d);
      m := MagicFixedWidth(w, numBits - preShift, shiftedD);
      assert !m.increment && m.preShift == 0;
      PreShifted(m, w, numBits, preShift, shiftedD);
      CeilLog2Monotone(shiftedD, d);
      m := m.(preShift := preShift);
    }
  }

  lemma {:induction false} CeilLog2Monotone(a: int, b: int)
    requires 0 <= a <= b
    ensures CeilLog2(a) <= CeilLog2(b)
  {
    if a > 0 {
      CeilLog2Monotone(a / 2, b / 2);
    }
  }

  /** A multiplier for w - k bits, used with a shift of w bits, yields 0 where the quotient is 1. */
  lemma SpareBitsLost(m: MagicU, w: nat, k: nat, o: int)
    requires 0 < k < w && 0 < o < Pow2(w - k) && m.preShift == 0 && !m.increment
    requires DividesExactly(m, w - k, w - k, o)
    requires Pow2(k) * o < Pow2(w)
    ensures Pow2(k) * o > 0 && !DividesExactly(m.(preShift := k), w, w, Pow2(k) * o)
  {
    var d := Pow2(k) * o;
    MulMono(Pow2(k), 1, o);
    DivisionIsUnique(d, Pow2(k), o, 0);
    DivisionIsUnique(d, d, 1, 0);
    DivisionIsUnique(o, o, 1, 0);
    assert o / Pow2(0) == o;
    assert DivideAdding(m, w - k, o) == o / o;
    Pow2Increasing(w - k, w);
    ShiftedOut(m.multiplier * o, Pow2(w - k), Pow2(m.postShift), Pow2(w));
    assert DivideAdding(m.(preShift := k), w, d) == 0;
  }

  lemma ShiftedOut(x: int, a: int, b: int, a2: int)
    requires a > 0 && b > 0 && a2 >= 2 * a && x / a / b == 1
    ensures x / a2 / b == 0
  {
    DivDiv(x, a, b);
    DivisionFloor(x, a * b);
    MulMono(b, 2 * a, a2);
    assert 2 * a * b == 2 * (a * b);
    DivDiv(x, a2, b);
    DivisionIsUnique(x, a2 * b, 0, x);
  }

  /** A divisor past the dividends: the lost spare bits only shift a product that is too small already. */
  lemma SpareBitsHarmless(m: MagicU, w: nat, k: nat, o: int)
    requires 0 < k < w && Pow2(w - k) <= o && m.preShift == 0 && !m.increment && 0 <= m.multiplier
    requires DividesExactly(m, w - k, w - k, o)
    ensures Pow2(k) * o > 0 && DividesExactly(m.(preShift := k), w, w, Pow2(k) * o)
  {
    MulMono(Pow2(k), 1, o);
    forall n | 0 <= n < Pow2(w)
      ensures DivideAdding(m.(preShift := k), w, n) == n / (Pow2(k) * o)
      ensures DivideSaturating(m.(preShift := k), w, n) == n / (Pow2(k) * o)
    {
      var n1 := n / Pow2(k);
      Pow2Add(k, w - k);
      DivisionFloor(n, Pow2(k));
      ShiftedRange(n1, n % Pow2(k), Pow2(k), Pow2(w - k));
      assert n1 / Pow2(0) == n1;
      assert DivideAdding(m, w - k, n1) == n1 / o;
      DivDiv(n, Pow2(k), o);
      DivisionIsUnique(n1, o, 0, n1);
      Pow2Increasing(w - k, w);
      MulMono(n1, 0, m.multiplier);
      StillZero(m.multiplier * n1, Pow2(w - k), Pow2(m.postShift), Pow2(w));
    }
  }

  lemma StillZero(x: int, a: int, b: int, a2: int)
    requires 0 <= x && 0 < a <= a2 && b > 0 && x / a / b == 0
    ensures x / a2 / b == 0
  {
    DivDiv(x, a, b);
    DivisionFloor(x, a * b);
    MulMono(b, a, a2);
    DivDiv(x, a2, b);
    DivisionIsUnique(x, a2 * b, 0, x);
  }

  /** Past the dividends the quotients of the search stay inside a uval too. */
  lemma WideQuotient(d: int, uvalBits: nat, w: nat, e: nat, c: nat)
    requires 0 < w <= uvalBits && BitLength(d, c) && Pow2(w) <= d < Pow2(uvalBits) && e < c
    ensures (Pow2(w + e) / d) % Pow2(uvalBits) == Pow2(w + e) / d
    ensures 0 <= Pow2(w + e) / d && Pow2(w + e) / d + 1 < Pow2(uvalBits)
    ensures DownWorks(d, w, 0, e) ==> 0 < Pow2(w + e) / d
  {
    BitLengthFits(d, c, uvalBits);
    Pow2Increasing(e, c - 1);
    Pow2Increasing(c - 1, uvalBits - 1);
    Pow2Increasing(1, w);
    Pow2Increasing(1, uvalBits - 1);
    assert Pow2(uvalBits) == 2 * Pow2(uvalBits - 1);
    Pow2Add(w, e);
    DivisionFloor(Pow2(w + e), d);
    QuotientAtMost(Pow2(w + e) / d, Pow2(w + e) % d, d, Pow2(w), Pow2(e));
    WrapSmall(Pow2(w + e) / d, Pow2(uvalBits));
    MulMono(Pow2(e), 2, Pow2(w));
  }

  lemma QuotientAtMost(q: int, r: int, d: int, a: int, b: int)
    requires q * d + r == a * b && 0 <= r < d && 0 < a <= d && b > 0
    ensures 0 <= q <= b
  {
    if q < 0 {
      MulMono(d, q, -1);
      MulMono(b, 1, a);
    } else if q > b {
      MulMono(d, b + 1, q);
      MulMono(b, a, d);
    }
  }

  /** The same three ways the search can end, for a divisor past the dividends. */
  lemma WideOutcome(s: Search, d: int, uvalBits: nat, w: nat, c: nat)
    requires BitLength(d, c) && SearchResult(s, d, uvalBits, w, 0, c) && 0 < w <= uvalBits && Pow2(w) <= d < Pow2(uvalBits)
    ensures s.exponent < c ==> UpWorks(d, w, 0, s.exponent) && UpWorks(d, w, 0, c - 1)
    ensures s.exponent < c ==> s.quotient == Pow2(w + s.exponent) / d && 0 <= s.quotient && s.quotient + 1 < Pow2(uvalBits)
    ensures s.exponent == c ==> !UpWorks(d, w, 0, c - 1)
    ensures s.exponent == c ==> s.hasDown && s.downExponent < c && DownWorks(d, w, 0, s.downExponent)
    ensures s.exponent == c ==> s.downMultiplier == Pow2(w + s.downExponent) / d && 0 < s.downMultiplier < Pow2(uvalBits)
  {
    if s.exponent < c {
      PastBitLength(d, w, 0, c, s.exponent);
      UpWorksLater(d, w, s.exponent, c - 1);
      WideQuotient(d, uvalBits, w, s.exponent, c);
    } else {
      UpOrDown(d, w, c);
      WideQuotient(d, uvalBits, w, s.downExponent, c);
    }
  }

  /** What a caller of the compiled form can test: the divisor is odd, rounding up works at the last
      exponent tried, or the divisor is past the dividends and rounding up works for its odd part. */
  ghost predicate CompiledFits(d: int, numBits: int)
    requires d > 0
  {
    || d % 2 == 1
    || RoundUpFits(d, numBits)
    || (0 < numBits && Pow2(numBits) <= d && RoundUpFits(OddPart(d), numBits - TwoExponent(d)))
  }

  /** The result, without the recursion for an even divisor. */
  method MagicByRounding(uvalBits: nat, numBits: nat, d: int) returns (r: Option<MagicU>)
    requires 0 < numBits <= uvalBits && Divisor(d, uvalBits)
    ensures r.None? <==> d % 2 == 0 && !RoundUpFits(d, numBits)
    ensures r.Some? ==> DividesExactly(r.value, numBits, numBits, d) && 0 < r.value.multiplier < Pow2(uvalBits)
    ensures r.Some? ==> r.value.preShift == 0 && (r.value.increment <==> !RoundUpFits(d, numBits))
  {
    var c := CountBits(d);
    CeilLog2Bounds(d);
    var s := FindExponent(uvalBits, numBits, numBits, d, c);
    if d < Pow2(numBits) {
      SearchOutcome(s, d, uvalBits, numBits, 0, c);
      Pow2Increasing(numBits, uvalBits);
    } else {
      WideOutcome(s, d, uvalBits, numBits, c);
    }
    r := None;
    if s.exponent < c {
      RoundUpMagic(d, numBits, numBits, c, s.exponent);
      r := Some(MagicU(s.quotient + 1, 0, s.exponent, false));
    } else if d % 2 == 1 {
      assert s.hasDown;
      RoundDownMagic(d, numBits, numBits, c, s.downExponent);
      r := Some(MagicU(s.downMultiplier, 0, s.downExponent, true));
    }
  }

  /**
    As compiled: UVAL_BITS is num_bits, so the recursion for an even divisor loses its
    spare bits. None stands for a failed assertion. CompiledFits is exactly when the result
    divides exactly; a divisor may be any uval, also one past every dividend.
   */
  method MagicAsCompiled(uvalBits: nat, numBits: int, d: int) returns (r: Option<MagicU>)
    requires Divisor(d, uvalBits)
    ensures !(0 < numBits <= uvalBits) ==> r.None?
    ensures 0 < numBits <= uvalBits ==> (r.Some? && DividesExactly(r.value, numBits, numBits, d) <==> CompiledFits(d, numBits))
    ensures 0 < numBits <= uvalBits && r.Some? ==> 0 < r.value.multiplier < Pow2(uvalBits)
    ensures 0 < numBits <= uvalBits && d % 2 == 1 ==>
      r.Some? && r.value.preShift == 0 && (r.value.increment <==> !RoundUpFits(d, numBits))
    ensures 0 < numBits <= uvalBits && d % 2 == 0 && !RoundUpFits(d, numBits) ==>
      (r.None? <==> !RoundUpFits(OddPart(d), numBits - TwoExponent(d)))
    decreases d
  {
    if !(0 < numBits <= uvalBits) {
      return None;
    }
    r := MagicByRounding(uvalBits, numBits, d);
    if r.None? {
      var shiftedD, preShift := SplitEven(d);
      EvenDivisor(d, uvalBits);
      r := MagicAsCompiled(uvalBits, numBits - preShift, shiftedD);
      if r.None? || r.value.increment || r.value.preShift != 0 {
        return None;
      }
      RecursionResult(r.value, numBits, preShift, shiftedD);
      r := Some(r.value.(preShift := preShift));
    }
  }

  /** The recursion's result, used at the wider shift, is exact just for divisors past the dividends. */
  lemma RecursionResult(m: MagicU, w: nat, k: nat, o: int)
    requires 0 < k < w && 0 < o && m.preShift == 0 && !m.increment && 0 <= m.multiplier
    requires DividesExactly(m, w - k, w - k, o)
    ensures Pow2(k) * o > 0 && (DividesExactly(m.(preShift := k), w, w, Pow2(k) * o) <==> Pow2(w) <= Pow2(k) * o)
  {
    hide DividesExactly, Pow2;
    Pow2Add(k, w - k);
    assert k + (w - k) == w;
    ScaledOrder(Pow2(k), o, Pow2(w - k));
    if o < Pow2(w - k) {
      SpareBitsLost(m, w, k, o);
    } else {
      SpareBitsHarmless(m, w, k, o);
    }
  }

  lemma ScaledOrder(a: int, x: int, y: int)
    requires a > 0
    ensures a * x < a * y <==> x < y
  {
    if x < y {
      MulMono(a, x + 1, y);
      assert a * (x + 1) == a * x + a;
    } else {
      MulMono(a, y, x);
    }
  }

  /** The compiled variant misses the divisor 14 at 32 bits: it recurses on 7 with 31 bits,
      where only rounding down works, and fails its assertion. */
  lemma FourteenFails()
    ensures Divisor(14, 32) && 14 < Pow2(32) && 14 % 2 == 0 && !RoundUpFits(14, 32)
    ensures OddPart(14) == 7 && TwoExponent(14) == 1 && !RoundUpFits(7, 31) && !CompiledFits(14, 32)
  {
    assert Pow2(4) == 16;
    Pow2Increasing(4, 32);
    OddPartTimesPower(14);
    forall k: nat
      ensures 14 != Pow2(k)
    {
      if k >= 4 {
        Pow2Increasing(4, k);
      }
    }
    assert CeilLog2(7) == 3 && CeilLog2(14) == 4;
    Pow2Add(4, 4);
    Pow2Add(8, 8);
    Pow2Add(16, 16);
    assert Pow2(33) == 2 * Pow2(32) == 0x2_0000_0000;
    assert Pow2(35) == 4 * Pow2(33) == 0x8_0000_0000;
  }
}
