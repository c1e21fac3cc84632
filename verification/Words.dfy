/**
  32-bit unsigned words as integers, with the bitwise operators of C written out on them,
  and their reading as bit strings, most significant bit first.
 */
module Words {
  import opened Powers

  const WORD_LIMIT := 0x1_0000_0000

  type Word = w: int | 0 <= w < WORD_LIMIT

  /** Bit i of w, counted from the least significant end. */
  predicate Bit(w: nat, i: nat) {
    if i == 0 then w % 2 == 1 else Bit(w / 2, i - 1)
  }

  function Join(b: bool, rest: nat): nat {
    2 * rest + (if b then 1 else 0)
  }

  function Or(a: nat, b: nat): nat {
    if a == 0 && b == 0 then 0 else Join(a % 2 == 1 || b % 2 == 1, Or(a / 2, b / 2))
  }

  function And(a: nat, b: nat): nat {
    if a == 0 || b == 0 then 0 else Join(a % 2 == 1 && b % 2 == 1, And(a / 2, b / 2))
  }

  function Xor(a: nat, b: nat): nat
    decreases a + b
  {
    if a == 0 && b == 0 then 0 else Join((a % 2 == 1) != (b % 2 == 1), Xor(a / 2, b / 2))
  }

  function Shr(a: nat, k: nat): nat {
    if k == 0 then a else Shr(a / 2, k - 1)
  }

  /** The left shift of a 32-bit word drops the bits shifted out. */
  function Shl(a: Word, k: nat): Word
    decreases k
  {
    if k == 0 then a else Shl(2 * a % WORD_LIMIT, k - 1)
  }

  // ---- single bits ----

  lemma {:induction false} BitOfZero(i: nat)
    ensures !Bit(0, i)
  {
    if i > 0 {
      BitOfZero(i - 1);
    }
  }

  lemma {:induction false} OrBit(a: nat, b: nat, i: nat)
    ensures Bit(Or(a, b), i) == (Bit(a, i) || Bit(b, i))
    decreases i
  {
    BitOfZero(i);
    if i > 0 {
      OrBit(a / 2, b / 2, i - 1);
    }
  }

  lemma {:induction false} AndBit(a: nat, b: nat, i: nat)
    ensures Bit(And(a, b), i) == (Bit(a, i) && Bit(b, i))
    decreases i
  {
    BitOfZero(i);
    if i > 0 {
      AndBit(a / 2, b / 2, i - 1);
    }
  }

  lemma {:induction false} XorBit(a: nat, b: nat, i: nat)
    ensures Bit(Xor(a, b), i) == (Bit(a, i) != Bit(b, i))
    decreases i
  {
    BitOfZero(i);
    if i > 0 {
      XorBit(a / 2, b / 2, i - 1);
    }
  }

  lemma {:induction false} XorUndo(a: nat, b: nat)
    ensures Xor(Xor(a, b), b) == a
    decreases a + b
  {
    if a != 0 || b != 0 {
      XorUndo(a / 2, b / 2);
    }
  }

  lemma {:induction false} ShrBit(a: nat, k: nat, i: nat)
    ensures Bit(Shr(a, k), i) == Bit(a, i + k)
  {
    if k > 0 {
      ShrBit(a / 2, k - 1, i);
    }
  }

  lemma {:induction false} BitBound(w: nat, n: nat, i: nat)
    requires w < Pow2(n) && n <= i
    ensures !Bit(w, i)
  {
    if n == 0 {
      BitOfZero(i);
    } else {
      BitBound(w / 2, n - 1, i - 1);
    }
  }

  lemma {:induction false} PowerBit(k: nat, i: nat)
    ensures Bit(Pow2(k), i) == (i == k)
  {
    if k > 0 && i > 0 {
      PowerBit(k - 1, i - 1);
    } else if k == 0 && i > 0 {
      BitOfZero(i - 1);
    }
  }

  lemma {:induction false} ModBit(w: nat, n: nat, i: nat)
    ensures Bit(w % Pow2(n), i) == (i < n && Bit(w, i))
    decreases n
  {
    if n == 0 {
      BitOfZero(i);
    } else {
      var p := Pow2(n - 1);
      HalfOfMod(w, p);
      if i > 0 {
        ModBit(w / 2, n - 1, i - 1);
      }
    }
  }

  lemma HalfOfMod(w: nat, p: int)
    requires p > 0
    ensures (w % (2 * p)) / 2 == (w / 2) % p && (w % (2 * p)) % 2 == w % 2
  {
    DivisionFloor(w / 2, p);
    assert w == (w / 2 / p) * (2 * p) + (2 * (w / 2 % p) + w % 2);
    DivisionIsUnique(w, 2 * p, w / 2 / p, 2 * (w / 2 % p) + w % 2);
  }

  lemma {:induction false} ShlBit(a: Word, k: nat, i: nat)
    requires i < 32
    ensures Bit(Shl(a, k), i) == (i >= k && Bit(a, i - k))
    decreases k
  {
    if k > 0 {
      ShlBit(2 * a % WORD_LIMIT, k - 1, i);
      if i >= k - 1 {
        LimitIsPower();
        ModBit(2 * a, 32, i - (k - 1));
      }
    }
  }

  lemma LimitIsPower()
    ensures Pow2(32) == WORD_LIMIT
  {
    Pow2Add(8, 8);
    Pow2Add(16, 16);
    assert Pow2(8) == 256;
  }

  // ---- ranges ----

  lemma {:induction false} OrRange(a: nat, b: nat, n: nat)
    requires a < Pow2(n) && b < Pow2(n)
    ensures Or(a, b) < Pow2(n)
  {
    if n > 0 && !(a == 0 && b == 0) {
      OrRange(a / 2, b / 2, n - 1);
    }
  }

  lemma {:induction false} XorRange(a: nat, b: nat, n: nat)
    requires a < Pow2(n) && b < Pow2(n)
    ensures Xor(a, b) < Pow2(n)
  {
    if n > 0 && !(a == 0 && b == 0) {
      XorRange(a / 2, b / 2, n - 1);
    }
  }

  lemma {:induction false} AndRange(a: nat, b: nat)
    ensures And(a, b) <= a && And(a, b) <= b
  {
    if a != 0 && b != 0 {
      AndRange(a / 2, b / 2);
    }
  }

  // ---- bit strings ----

  /** The n low bits of w, most significant first. */
  function ToBits(w: nat, n: nat): (s: seq<bool>)
    ensures |s| == n
  {
    if n == 0 then [] else ToBits(w / 2, n - 1) + [w % 2 == 1]
  }

  /** The number a bit string spells. */
  function FromBits(s: seq<bool>): nat {
    if s == [] then 0 else Join(s[|s| - 1], FromBits(s[..|s| - 1]))
  }

  lemma FromTwoBits(a: bool, b: bool)
    ensures FromBits([a, b]) == (if a then 2 else 0) + (if b then 1 else 0)
  {
    assert [a, b][..1] == [a] && [a][..0] == [];
    assert FromBits([a]) == Join(a, 0);
    assert FromBits([a, b]) == Join(b, FromBits([a]));
  }

  lemma {:induction false} ToBitsAt(w: nat, n: nat, i: nat)
    requires i < n
    ensures ToBits(w, n)[i] == Bit(w, n - 1 - i)
  {
    if i < n - 1 {
      ToBitsAt(w / 2, n - 1, i);
    }
  }

  lemma {:induction false} FromToBits(w: nat, n: nat)
    requires w < Pow2(n)
    ensures FromBits(ToBits(w, n)) == w
  {
    if n > 0 {
      FromToBits(w / 2, n - 1);
      assert ToBits(w, n)[..n - 1] == ToBits(w / 2, n - 1);
    }
  }

  lemma {:induction false} ToFromBits(s: seq<bool>)
    ensures FromBits(s) < Pow2(|s|) && ToBits(FromBits(s), |s|) == s
  {
    if s != [] {
      ToFromBits(s[..|s| - 1]);
    }
  }

  lemma {:induction false} OnesBit(n: nat, i: nat)
    ensures Bit(Pow2(n) - 1, i) == (i < n)
    decreases n
  {
    if n == 0 {
      BitOfZero(i);
    } else if i > 0 {
      assert (Pow2(n) - 1) / 2 == Pow2(n - 1) - 1;
      OnesBit(n - 1, i - 1);
    }
  }

  lemma {:induction false} ShrRange(w: nat, k: nat, n: nat)
    requires w < Pow2(n + k)
    ensures Shr(w, k) < Pow2(n)
  {
    if k > 0 {
      ShrRange(w / 2, k - 1, n);
    }
  }

  /** A field of `width` bits, shifted down and masked. */
  function Field(w: nat, shift: nat, width: nat): nat {
    And(Shr(w, shift), Pow2(width) - 1)
  }

  lemma FieldBits(w: nat, shift: nat, width: nat)
    ensures Field(w, shift, width) < Pow2(width)
    ensures forall i: nat :: i < width ==> Bit(Field(w, shift, width), i) == Bit(w, i + shift)
  {
    AndRange(Shr(w, shift), Pow2(width) - 1);
    forall i: nat | i < width
      ensures Bit(Field(w, shift, width), i) == Bit(w, i + shift)
    {
      AndBit(Shr(w, shift), Pow2(width) - 1, i);
      OnesBit(width, i);
      ShrBit(w, shift, i);
    }
  }

  /** The | chain over several words. */
  function OrAll(v: seq<nat>): nat {
    if v == [] then 0 else Or(OrAll(v[..|v| - 1]), v[|v| - 1])
  }

  lemma {:induction false} OrAllRange(v: seq<nat>, n: nat)
    requires forall k :: 0 <= k < |v| ==> v[k] < Pow2(n)
    ensures OrAll(v) < Pow2(n)
  {
    if v != [] {
      OrAllRange(v[..|v| - 1], n);
      OrRange(OrAll(v[..|v| - 1]), v[|v| - 1], n);
    }
  }

  lemma {:induction false} OrAllBit(v: seq<nat>, i: nat)
    ensures Bit(OrAll(v), i) <==> exists k :: 0 <= k < |v| && Bit(v[k], i)
  {
    if v == [] {
      BitOfZero(i);
    } else {
      var init, last := v[..|v| - 1], |v| - 1;
      OrAllBit(init, i);
      OrBit(OrAll(init), v[last], i);
      if Bit(OrAll(init), i) {
        var k :| 0 <= k < |init| && Bit(init[k], i);
        assert Bit(v[k], i);
      }
      if k :| 0 <= k < |v| && Bit(v[k], i) {
        assert k < last ==> Bit(init[k], i);
      }
    }
  }

  /** Clear high bits bound a number. */
  lemma {:induction false} ClearTop(w: nat, m: nat)
    requires w < Pow2(m + 1) && !Bit(w, m)
    ensures w < Pow2(m)
  {
    if m > 0 {
      ClearTop(w / 2, m - 1);
    }
  }

  lemma {:induction false} ClearAbove(w: nat, n: nat, m: nat)
    requires n <= m && w < Pow2(m) && forall i: nat :: n <= i < m ==> !Bit(w, i)
    ensures w < Pow2(n)
  {
    if n < m {
      ClearTop(w, m - 1);
      ClearAbove(w, n, m - 1);
    }
  }
}
