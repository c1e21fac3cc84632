/**
  The word-level steps of do_des and des_setkey agree with the bit-string functions of the
  standard: table lookups gather permuted bits, the shifts simulate E, and the fused
  tables are the selection functions followed by P.
 */
module DesWords {
  import opened Powers
  import opened Words
  import opened DesStandard
  import opened MaskTables

  // ---- gathering ----

  /** The index x holds the input bits base .. base + width. */
  ghost predicate Slice(x: nat, input: seq<bool>, base: nat, width: nat) {
    base + width <= |input| && forall j: nat :: j < width ==> (Bit(x, width - 1 - j) <==> InputAt(input, base, j))
  }

  predicate InputAt(input: seq<bool>, base: nat, j: nat)
    requires base + j < |input|
  {
    input[base + j]
  }

  lemma SliceOf(stride: nat, width: nat, s: nat, k: nat)
    requires 0 < stride && width <= stride && stride * k <= s < stride * k + width
    ensures k == s / stride
  {
    assert s == k * stride + (s - stride * k);
    DivisionIsUnique(s, stride, k, s - stride * k);
  }

  /** Input bit s exists and one of the rows serves it. */
  ghost predicate Served(s: int, size: nat, rows: nat, stride: nat, width: nat)
    requires 0 < stride
  {
    0 <= s < size && s / stride < rows && s % stride < width
  }

  ghost predicate UsedSource(table: nat -> nat, q: nat, size: nat, stride: nat, width: nat)
    requires 0 < stride
  {
    1 <= table(q) <= size && Served(table(q) - 1, size, 8, stride, width)
  }

  /** One place of the combined words carries the input bit the table names. */
  lemma GatherPlace(v: seq<Word>, x: seq<nat>, input: seq<bool>, stride: nat, width: nat,
                    table: nat -> nat, from: nat, half: nat, q: nat)
    requires |v| == |x| && 0 < stride && width <= stride && q < half
    requires forall k: nat :: k < |v| ==> MaskEntry(v[k], x[k], stride * k, width, table, from, half)
    requires forall k: nat :: k < |v| ==> Slice(x[k], input, stride * k, width)
    requires Served(Source(table, from, q), |input|, |v|, stride, width)
    ensures Bit(OrAll(v), half - 1 - q) == input[Source(table, from, q)]
  {
    hide Bit, OrAll;
    var s := Source(table, from, q);
    var k0 := s / stride;
    DivisionFloor(s, stride);
    assert k0 * stride == stride * k0;
    var j := s - stride * k0;
    assert MaskEntry(v[k0], x[k0], stride * k0, width, table, from, half);
    assert At(v[k0], half, q) <==> MaskBit(s, x[k0], stride * k0, width);
    assert Slice(x[k0], input, stride * k0, width);
    assert Bit(x[k0], width - 1 - j) <==> InputAt(input, stride * k0, j);
    OrAllBit(v, half - 1 - q);
    forall k: nat | k < |v| && Bit(v[k], half - 1 - q)
      ensures k == k0
    {
      assert MaskEntry(v[k], x[k], stride * k, width, table, from, half);
      assert At(v[k], half, q) <==> MaskBit(s, x[k], stride * k, width);
      SliceOf(stride, width, s, k);
    }
  }

  ghost predicate Gathered(out: seq<bool>, input: seq<bool>, table: nat -> nat, from: nat) {
    forall q: nat :: q < |out| ==> 0 <= Source(table, from, q) < |input| && out[q] == input[Source(table, from, q)]
  }

  /** Combining the lookups of all slices permutes the input. */
  lemma Gather(v: seq<Word>, x: seq<nat>, input: seq<bool>, stride: nat, width: nat,
               table: nat -> nat, from: nat, half: nat)
    requires |v| == |x| && 0 < stride && width <= stride && half <= 32
    requires forall k: nat :: k < |v| ==> MaskEntry(v[k], x[k], stride * k, width, table, from, half)
    requires forall k: nat :: k < |v| ==> Slice(x[k], input, stride * k, width)
    requires forall q: nat :: q < half ==> Served(Source(table, from, q), |input|, |v|, stride, width)
    ensures OrAll(v) < Pow2(half) <= WORD_LIMIT
    ensures Gathered(ToBits(OrAll(v), half), input, table, from)
  {
    OrAllRange(v, half);
    Pow2Increasing(half, 32);
    LimitIsPower();
    forall q: nat | q < half
      ensures ToBits(OrAll(v), half)[q] == input[Source(table, from, q)]
    {
      GatherPlace(v, x, input, stride, width, table, from, half, q);
      ToBitsAt(OrAll(v), half, q);
    }
  }

  // ---- indices cut out of a block ----

  function BlockOf(l: Word, r: Word): Block {
    ToBits(l, 32) + ToBits(r, 32)
  }

  /** The eight table indices of a block: its bytes, or their upper seven bits. */
  function BlockIndices(l: Word, r: Word, drop: nat): (x: seq<nat>)
    requires drop <= 8
    ensures |x| == 8
  {
    [Shr(l, 24 + drop), Field(l, 16 + drop, 8 - drop), Field(l, 8 + drop, 8 - drop), Field(l, drop, 8 - drop),
     Shr(r, 24 + drop), Field(r, 16 + drop, 8 - drop), Field(r, 8 + drop, 8 - drop), Field(r, drop, 8 - drop)]
  }

  lemma FieldSlice(w: nat, n: nat, x: nat, shift: nat, width: nat)
    requires shift + width <= n && w < Pow2(n)
    requires x == Field(w, shift, width) || (x == Shr(w, shift) && shift + width == n)
    ensures x < Pow2(width) && Slice(x, ToBits(w, n), n - shift - width, width)
  {
    FieldBits(w, shift, width);
    if x == Shr(w, shift) && shift + width == n {
      ShrRange(w, shift, width);
    }
    forall j: nat {:trigger InputAt(ToBits(w, n), n - shift - width, j)} | j < width
      ensures Bit(x, width - 1 - j) <==> InputAt(ToBits(w, n), n - shift - width, j)
    {
      ShrBit(w, shift, width - 1 - j);
      ToBitsAt(w, n, n - shift - width + j);
    }
  }

  lemma SliceOfConcat(x: nat, a: seq<bool>, b: seq<bool>, base: nat, width: nat)
    ensures Slice(x, a, base, width) ==> Slice(x, a + b, base, width)
    ensures Slice(x, b, base, width) ==> Slice(x, a + b, |a| + base, width)
  {
    if Slice(x, a, base, width) {
      forall j: nat | j < width
        ensures Bit(x, width - 1 - j) <==> InputAt(a + b, base, j)
      {
        assert InputAt(a, base, j) == (a + b)[base + j];
      }
    }
    if Slice(x, b, base, width) {
      forall j: nat {:trigger InputAt(a + b, |a| + base, j)} | j < width
        ensures Bit(x, width - 1 - j) <==> InputAt(a + b, |a| + base, j)
      {
        assert InputAt(b, base, j) == (a + b)[|a| + base + j];
      }
    }
  }

  lemma BlockSlices(l: Word, r: Word, drop: nat)
    requires drop <= 1
    ensures forall k: nat :: k < 8 ==> BlockIndices(l, r, drop)[k] < Pow2(8 - drop)
    ensures forall k: nat :: k < 8 ==> Slice(BlockIndices(l, r, drop)[k], BlockOf(l, r), 8 * k, 8 - drop)
  {
    forall k: nat | k < 8
      ensures BlockIndices(l, r, drop)[k] < Pow2(8 - drop)
      ensures Slice(BlockIndices(l, r, drop)[k], BlockOf(l, r), 8 * k, 8 - drop)
    {
      BlockSlice(l, r, drop, k);
    }
  }

  lemma BlockSlice(l: Word, r: Word, drop: nat, k: nat)
    requires drop <= 1 && k < 8
    ensures BlockIndices(l, r, drop)[k] < Pow2(8 - drop)
    ensures Slice(BlockIndices(l, r, drop)[k], BlockOf(l, r), 8 * k, 8 - drop)
  {
    LimitIsPower();
    hide Slice, Shr, Field, Pow2, ToBits;
    var x := BlockIndices(l, r, drop)[k];
    if k < 4 {
      FieldSlice(l, 32, x, 24 - 8 * k + drop, 8 - drop);
      SliceOfConcat(x, ToBits(l, 32), ToBits(r, 32), 8 * k, 8 - drop);
    } else {
      FieldSlice(r, 32, x, 24 - 8 * (k - 4) + drop, 8 - drop);
      SliceOfConcat(x, ToBits(l, 32), ToBits(r, 32), 8 * (k - 4), 8 - drop);
    }
  }

  /** Eight lookups in a pair of mask tables permute a block (or key) into two halves. */
  lemma GatherBlock(vl: seq<Word>, vr: seq<Word>, x: seq<nat>, input: seq<bool>, stride: nat, width: nat,
                    table: nat -> nat, half: nat)
    requires |vl| == |vr| == |x| == 8 && 0 < stride && width <= stride && half <= 32
    requires forall k: nat :: k < 8 ==> MaskEntry(vl[k], x[k], stride * k, width, table, 0, half)
    requires forall k: nat :: k < 8 ==> MaskEntry(vr[k], x[k], stride * k, width, table, half, half)
    requires forall k: nat :: k < 8 ==> Slice(x[k], input, stride * k, width)
    requires forall q: nat :: q < 2 * half ==> UsedSource(table, q, |input|, stride, width)
    ensures OrAll(vl) < Pow2(half) && OrAll(vr) < Pow2(half) && Pow2(half) <= WORD_LIMIT
    ensures forall q: nat :: q < 2 * half ==> 1 <= table(q) <= |input|
    ensures ToBits(OrAll(vl), half) + ToBits(OrAll(vr), half) == Permute(input, 2 * half, table)
  {
    UsedHalf(table, 0, half, |input|, stride, width, 2 * half);
    UsedHalf(table, half, half, |input|, stride, width, 2 * half);
    Gather(vl, x, input, stride, width, table, 0, half);
    Gather(vr, x, input, stride, width, table, half, half);
    JoinHalves(ToBits(OrAll(vl), half), ToBits(OrAll(vr), half), input, table, half);
  }

  lemma JoinHalves(a: seq<bool>, b: seq<bool>, input: seq<bool>, table: nat -> nat, half: nat)
    requires |a| == |b| == half && Gathered(a, input, table, 0) && Gathered(b, input, table, half)
    ensures forall q: nat :: q < 2 * half ==> 1 <= table(q) <= |input|
    ensures a + b == Permute(input, 2 * half, table)
  {
    forall q: nat | q < 2 * half
      ensures 1 <= table(q) <= |input|
    {
      if q < half {
        assert Source(table, 0, q) == table(q) - 1;
      } else {
        assert Source(table, half, q - half) == table(q) - 1;
      }
    }
    forall q: nat | q < 2 * half
      ensures (a + b)[q] == input[table(q) - 1]
    {
      if q >= half {
        assert Source(table, half, q - half) == table(q) - 1;
      }
    }
  }

  lemma UsedHalf(table: nat -> nat, from: nat, half: nat, size: nat, stride: nat, width: nat, places: nat)
    requires 0 < stride && from + half <= places
    requires forall q: nat :: q < places ==> UsedSource(table, q, size, stride, width)
    ensures forall q: nat :: q < half ==> Served(Source(table, from, q), size, 8, stride, width)
  {
    forall q: nat {:trigger Source(table, from, q)} | q < half
      ensures UsedSource(table, from + q, size, stride, width)
    {
    }
  }

  // ---- expansion ----

  /** A run of `len` ones starting at bit `lo`, as the hexadecimal constants spell it. */
  function Run(lo: nat, len: nat): nat {
    if lo == 0 then Pow2(len) - 1 else 2 * Run(lo - 1, len)
  }

  lemma {:induction false} RunBit(lo: nat, len: nat, i: nat)
    ensures Bit(Run(lo, len), i) == (lo <= i < lo + len)
  {
    if lo == 0 {
      OnesBit(len, i);
    } else if i > 0 {
      RunBit(lo - 1, len, i - 1);
    }
  }

  /** The bits lo .. lo + len of r, moved down or up by k. */
  lemma MovedDown(r: Word, mask: nat, lo: nat, len: nat, k: nat, i: nat)
    requires mask == Run(lo, len)
    ensures Bit(Shr(And(r, mask), k), i) == (lo <= i + k < lo + len && Bit(r, i + k))
  {
    ShrBit(And(r, mask), k, i);
    AndBit(r, mask, i + k);
    RunBit(lo, len, i + k);
  }

  lemma MovedUp(r: Word, mask: nat, lo: nat, len: nat, k: nat, i: nat)
    requires mask == Run(lo, len) && i < 32
    ensures And(r, mask) < WORD_LIMIT
    ensures Bit(Shl(And(r, mask), k), i) == (lo <= i - k < lo + len && i >= k && Bit(r, i - k))
  {
    AndRange(r, mask);
    ShlBit(And(r, mask), k, i);
    if i >= k {
      AndBit(r, mask, i - k);
      RunBit(lo, len, i - k);
    }
  }

  /** The E-box simulated by masks and shifts. */
  function ExpandLeft(r: Word): nat {
    AndRange(r, 1);
    OrAll([Shl(And(r, 0x00000001), 23), Shr(And(r, 0xf8000000), 9), Shr(And(r, 0x1f800000), 11),
           Shr(And(r, 0x01f80000), 13), Shr(And(r, 0x001f8000), 15)])
  }

  function ExpandRight(r: Word): nat {
    AndRange(r, 0x0001f800);
    AndRange(r, 0x00001f80);
    AndRange(r, 0x000001f8);
    AndRange(r, 0x0000001f);
    OrAll([Shl(And(r, 0x0001f800), 7), Shl(And(r, 0x00001f80), 5), Shl(And(r, 0x000001f8), 3),
           Shl(And(r, 0x0000001f), 1), Shr(And(r, 0x80000000), 31)])
  }

  lemma MaskRuns()
    ensures 0x00000001 == Run(0, 1) && 0xf8000000 == Run(27, 5) && 0x1f800000 == Run(23, 6)
    ensures 0x01f80000 == Run(19, 6) && 0x001f8000 == Run(15, 6) && 0x0001f800 == Run(11, 6)
    ensures 0x00001f80 == Run(7, 6) && 0x000001f8 == Run(3, 6) && 0x0000001f == Run(0, 5)
    ensures 0x80000000 == Run(31, 1)
  {
    assert Run(11, 6) == 0x1f800;
    assert Run(15, 6) == 0x1f8000;
    assert Run(19, 6) == 0x1f80000;
    assert Run(23, 6) == 0x1f800000;
    assert Run(12, 5) == 0x1f000;
    assert Run(20, 5) == 0x1f00000;
    assert Run(27, 5) == 0xf8000000;
    assert Run(12, 1) == 0x1000;
    assert Run(22, 1) == 0x400000;
    assert Run(31, 1) == 0x80000000;
  }

  lemma ExpandLeftBit(r: Word, i: nat)
    requires i < 32
    ensures Bit(ExpandLeft(r), i) == (i < 24 && Bit(r, if i == 23 then 0 else
      if i >= 18 then i + 9 else if i >= 12 then i + 11 else if i >= 6 then i + 13 else i + 15))
  {
    MaskRuns();
    MovedUp(r, 0x00000001, 0, 1, 23, i);
    MovedDown(r, 0xf8000000, 27, 5, 9, i);
    MovedDown(r, 0x1f800000, 23, 6, 11, i);
    MovedDown(r, 0x01f80000, 19, 6, 13, i);
    MovedDown(r, 0x001f8000, 15, 6, 15, i);
    LimitIsPower();
    AndRange(r, 0x00000001);
    OrFive(Shl(And(r, 0x00000001), 23), Shr(And(r, 0xf8000000), 9), Shr(And(r, 0x1f800000), 11),
           Shr(And(r, 0x01f80000), 13), Shr(And(r, 0x001f8000), 15), i);
    BitBoundOf(r, i + 9);
  }

  lemma BitBoundOf(r: Word, i: nat)
    ensures i >= 32 ==> !Bit(r, i)
  {
    LimitIsPower();
    if i >= 32 {
      BitBound(r, 32, i);
    }
  }

  lemma OrFive(a: nat, b: nat, c: nat, d: nat, e: nat, i: nat)
    ensures Bit(OrAll([a, b, c, d, e]), i) == (Bit(a, i) || Bit(b, i) || Bit(c, i) || Bit(d, i) || Bit(e, i))
  {
    var v := [a, b, c, d, e];
    OrAllBit(v, i);
    assert v[0] == a && v[1] == b && v[2] == c && v[3] == d && v[4] == e;
  }

  lemma ExpandRightBit(r: Word, i: nat)
    requires i < 32
    ensures Bit(ExpandRight(r), i) == (i < 24 && Bit(r, if i >= 18 then i - 7 else
      if i >= 12 then i - 5 else if i >= 6 then i - 3 else if i >= 1 then i - 1 else 31))
  {
    MaskRuns();
    MovedUp(r, 0x0001f800, 11, 6, 7, i);
    MovedUp(r, 0x00001f80, 7, 6, 5, i);
    MovedUp(r, 0x000001f8, 3, 6, 3, i);
    MovedUp(r, 0x0000001f, 0, 5, 1, i);
    MovedDown(r, 0x80000000, 31, 1, 31, i);
    OrFive(Shl(And(r, 0x0001f800), 7), Shl(And(r, 0x00001f80), 5), Shl(And(r, 0x000001f8), 3),
           Shl(And(r, 0x0000001f), 1), Shr(And(r, 0x80000000), 31), i);
    BitBoundOf(r, i + 31);
  }

  lemma ExpandRange(r: Word)
    ensures ExpandLeft(r) < Pow2(24) && ExpandRight(r) < Pow2(24)
  {
    ExpandInWord(r);
    hide ExpandLeft, ExpandRight, Bit, Pow2;
    forall i: nat | 24 <= i < 32
      ensures !Bit(ExpandLeft(r), i) && !Bit(ExpandRight(r), i)
    {
      ExpandLeftBit(r, i);
      ExpandRightBit(r, i);
    }
    ClearAbove(ExpandLeft(r), 24, 32);
    ClearAbove(ExpandRight(r), 24, 32);
  }

  lemma ExpandInWord(r: Word)
    ensures ExpandLeft(r) < Pow2(32) && ExpandRight(r) < Pow2(32)
  {
    LimitIsPower();
    hide Shr, Shl, And, Pow2, OrAll;
    AndRange(r, 0x00000001);
    ShrOfMaskRange(r, 0xf8000000, 9);
    ShrOfMaskRange(r, 0x1f800000, 11);
    ShrOfMaskRange(r, 0x01f80000, 13);
    ShrOfMaskRange(r, 0x001f8000, 15);
    OrAllRange([Shl(And(r, 0x00000001), 23), Shr(And(r, 0xf8000000), 9), Shr(And(r, 0x1f800000), 11),
                Shr(And(r, 0x01f80000), 13), Shr(And(r, 0x001f8000), 15)], 32);
    AndRange(r, 0x0001f800);
    AndRange(r, 0x00001f80);
    AndRange(r, 0x000001f8);
    AndRange(r, 0x0000001f);
    ShrOfMaskRange(r, 0x80000000, 31);
    OrAllRange([Shl(And(r, 0x0001f800), 7), Shl(And(r, 0x00001f80), 5), Shl(And(r, 0x000001f8), 3),
                Shl(And(r, 0x0000001f), 1), Shr(And(r, 0x80000000), 31)], 32);
  }

  lemma ShrOfMaskRange(r: Word, mask: nat, k: nat)
    ensures Shr(And(r, mask), k) < Pow2(32)
  {
    LimitIsPower();
    AndRange(r, mask);
    Pow2Increasing(32, 32 + k);
    ShrRange(And(r, mask), k, 32);
  }

  lemma ExpandLeftPlace(r: Word, q: nat)
    requires q < 24
    ensures ToBits(ExpandLeft(r), 24)[q] == ToBits(r, 32)[E(q) - 1]
  {
    ToBitsAt(ExpandLeft(r), 24, q);
    ToBitsAt(r, 32, E(q) - 1);
    ExpandLeftBit(r, 23 - q);
    ExpandTable(q);
  }

  lemma ExpandRightPlace(r: Word, q: nat)
    requires q < 24
    ensures ToBits(ExpandRight(r), 24)[q] == ToBits(r, 32)[E(24 + q) - 1]
  {
    ToBitsAt(ExpandRight(r), 24, q);
    ToBitsAt(r, 32, E(24 + q) - 1);
    ExpandRightBit(r, 23 - q);
    ExpandTable(q);
  }

  lemma ExpandTable(q: nat)
    requires q < 24
    ensures E(q) == if q == 0 then 32 else if q < 6 then q else if q < 12 then q - 2 else if q < 18 then q - 4 else q - 6
    ensures E(24 + q) == if q < 6 then q + 16 else if q < 12 then q + 14 else if q < 18 then q + 12
      else if q < 23 then q + 10 else 1
  {
  }

  lemma ExpandIsE(r: Word)
    ensures ToBits(ExpandLeft(r), 24) + ToBits(ExpandRight(r), 24) == Permute(ToBits(r, 32), 48, E)
  {
    var out := ToBits(ExpandLeft(r), 24) + ToBits(ExpandRight(r), 24);
    forall q: nat | q < 48
      ensures out[q] == ToBits(r, 32)[E(q) - 1]
    {
      if q < 24 {
        ExpandLeftPlace(r, q);
      } else {
        ExpandRightPlace(r, q - 24);
      }
    }
  }

  // ---- salt and key ----

  /** The S-box inputs: the expanded half, salted and combined with the round key. */
  function Mixed(e: nat, other: nat, key: nat, saltbits: nat): nat {
    Xor(e, Xor(And(Xor(e, other), saltbits), key))
  }

  lemma MixedBit(e: nat, other: nat, key: nat, saltbits: nat, i: nat)
    ensures Bit(Mixed(e, other, key, saltbits), i) ==
      ((if Bit(saltbits, i) then Bit(other, i) else Bit(e, i)) != Bit(key, i))
  {
    XorBit(e, other, i);
    AndBit(Xor(e, other), saltbits, i);
    XorBit(And(Xor(e, other), saltbits), key, i);
    XorBit(e, Xor(And(Xor(e, other), saltbits), key), i);
  }

  lemma MixedRange(e: nat, other: nat, key: nat, saltbits: nat, n: nat)
    requires e < Pow2(n) && other < Pow2(n) && key < Pow2(n)
    ensures Mixed(e, other, key, saltbits) < Pow2(n)
  {
    XorRange(e, other, n);
    AndRange(Xor(e, other), saltbits);
    XorRange(And(Xor(e, other), saltbits), key, n);
    XorRange(e, Xor(And(Xor(e, other), saltbits), key), n);
  }

  lemma MixedPlace(e: nat, other: nat, key: nat, saltbits: nat, q: nat)
    requires q < 24
    ensures ToBits(Mixed(e, other, key, saltbits), 24)[q] ==
      ((if ToBits(saltbits, 24)[q] then ToBits(other, 24)[q] else ToBits(e, 24)[q]) != ToBits(key, 24)[q])
  {
    ToBitsAt(Mixed(e, other, key, saltbits), 24, q);
    MixedBit(e, other, key, saltbits, 23 - q);
    ToBitsAt(e, 24, q);
    ToBitsAt(other, 24, q);
    ToBitsAt(key, 24, q);
    ToBitsAt(saltbits, 24, q);
  }

  lemma MixedIsSaltedXor(el: nat, er: nat, kl: nat, kr: nat, saltbits: nat)
    ensures ToBits(Mixed(el, er, kl, saltbits), 24) + ToBits(Mixed(er, el, kr, saltbits), 24)
         == XorBits(Salted(ToBits(el, 24) + ToBits(er, 24), ToBits(saltbits, 24)), ToBits(kl, 24) + ToBits(kr, 24))
  {
    forall q: nat | q < 24
      ensures ToBits(Mixed(el, er, kl, saltbits), 24)[q] ==
        ((if ToBits(saltbits, 24)[q] then ToBits(er, 24)[q] else ToBits(el, 24)[q]) != ToBits(kl, 24)[q])
      ensures ToBits(Mixed(er, el, kr, saltbits), 24)[q] ==
        ((if ToBits(saltbits, 24)[q] then ToBits(el, 24)[q] else ToBits(er, 24)[q]) != ToBits(kr, 24)[q])
    {
      MixedPlace(el, er, kl, saltbits, q);
      MixedPlace(er, el, kr, saltbits, q);
    }
    SaltedXorHalves(ToBits(Mixed(el, er, kl, saltbits), 24), ToBits(Mixed(er, el, kr, saltbits), 24),
                    ToBits(el, 24), ToBits(er, 24), ToBits(kl, 24), ToBits(kr, 24), ToBits(saltbits, 24));
  }

  lemma SaltedXorHalves(a: Salt, b: Salt, el: Salt, er: Salt, kl: Salt, kr: Salt, salt: Salt)
    requires forall q: nat :: q < 24 ==> a[q] == ((if salt[q] then er[q] else el[q]) != kl[q])
    requires forall q: nat :: q < 24 ==> b[q] == ((if salt[q] then el[q] else er[q]) != kr[q])
    ensures a + b == XorBits(Salted(el + er, salt), kl + kr)
  {
    forall q: nat | q < 48
      ensures (a + b)[q] == XorBits(Salted(el + er, salt), kl + kr)[q]
    {
      if q >= 24 {
        assert (q + 24) % 48 == q - 24 && q % 24 == q - 24;
      }
    }
  }

  // ---- the selection functions ----

  lemma BitFive(j: nat)
    requires j < 64
    ensures Bit(j, 5) == (j / 32 == 1)
  {
    assert Bit(j, 5) == Bit(j / 2, 4) == Bit(j / 4, 3);
    assert Bit(j / 4, 3) == Bit(j / 8, 2) == Bit(j / 16, 1);
  }

  /** Reading the six bits as a number and reordering it selects the same row and column. */
  lemma SelectIsSelectIndex(box: nat, j: nat)
    requires j < 64
    ensures Select(box, ToBits(j, 6)) == SelectIndex(box, j)
  {
    hide SelectionRow;
    SelectedRow(j);
    SelectedColumn(j);
  }

  lemma SelectedRow(j: nat)
    requires j < 64
    ensures FromBits([ToBits(j, 6)[0], ToBits(j, 6)[5]]) == 2 * (j / 32) + j % 2
  {
    ToBitsAt(j, 6, 0);
    ToBitsAt(j, 6, 5);
    BitFive(j);
    hide ToBits;
    FromTwoBits(ToBits(j, 6)[0], ToBits(j, 6)[5]);
  }

  lemma SelectedColumn(j: nat)
    requires j < 64
    ensures FromBits(ToBits(j, 6)[1..5]) == j / 2 % 16
  {
    hide ToBits, FromBits;
    var inner := ToBits(j, 6)[1..5];
    assert Pow2(4) == 16;
    forall t: nat | t < 4
      ensures inner[t] == ToBits(j / 2 % 16, 4)[t]
    {
      ToBitsAt(j, 6, 1 + t);
      ToBitsAt(j / 2 % 16, 4, t);
      ModBit(j / 2, 4, 3 - t);
      assert Bit(j, 4 - t) == Bit(j / 2, 3 - t);
    }
    assert inner == ToBits(j / 2 % 16, 4);
    FromToBits(j / 2 % 16, 4);
  }

  // ---- the fused tables ----

  /** Group b of twelve S-box input bits, as an index of the fused table. */
  ghost predicate Group(x: nat, input: RoundKey, b: nat)
    requires b < 4
  {
    x < 4096 && ToBits(x, 12) == input[12 * b..12 * b + 12]
  }

  lemma SplitTwelve(x: nat)
    requires x < 4096
    ensures ToBits(x, 12) == ToBits(x / 64, 6) + ToBits(x % 64, 6)
  {
    forall q: nat | q < 12
      ensures ToBits(x, 12)[q] == (ToBits(x / 64, 6) + ToBits(x % 64, 6))[q]
    {
      ToBitsAt(x, 12, q);
      if q < 6 {
        ToBitsAt(x / 64, 6, q);
        ShrBit(x, 6, 5 - q);
        ShrIsDivision(x);
      } else {
        ToBitsAt(x % 64, 6, q - 6);
        assert Pow2(6) == 64;
        ModBit(x, 6, 11 - q);
      }
    }
  }

  lemma ShrIsDivision(x: nat)
    ensures Shr(x, 6) == x / 64
  {
    assert Shr(x, 6) == Shr(x / 2, 5) == Shr(x / 4, 4);
    assert Shr(x / 4, 4) == Shr(x / 8, 3) == Shr(x / 16, 2);
  }

  lemma GroupHalves(x: nat, input: RoundKey, b: nat)
    requires b < 4 && Group(x, input, b)
    ensures ToBits(x / 64, 6) == input[12 * b..12 * b + 6] && ToBits(x % 64, 6) == input[12 * b + 6..12 * b + 12]
  {
    SplitTwelve(x);
    var all := input[12 * b..12 * b + 12];
    assert all[..6] == input[12 * b..12 * b + 6] && all[6..] == input[12 * b + 6..12 * b + 12];
    assert all[..6] == ToBits(x / 64, 6) && all[6..] == ToBits(x % 64, 6);
  }

  lemma SBoxesAt(input: RoundKey, box: nat, t: nat)
    requires box < 8 && t < 4
    ensures SBoxes(input)[4 * box + t] == ToBits(Select(box, input[6 * box..6 * box + 6]), 4)[t]
  {
    hide Select;
    assert (4 * box + t) / 4 == box && (4 * box + t) % 4 == t;
  }

  lemma SelectedBit(j: nat, input: RoundKey, box: nat, t: nat, i: nat)
    requires box < 8 && t < 4 && j < 64 && i == 4 * box + t && ToBits(j, 6) == input[6 * box..6 * box + 6]
    ensures Bit(SelectIndex(box, j), 3 - t) == SBoxes(input)[i]
  {
    hide SBoxes, Select, SelectIndex;
    SBoxesAt(input, box, t);
    SelectIsSelectIndex(box, j);
    ToBitsAt(SelectIndex(box, j), 4, t);
  }

  lemma FusedPlace(x: nat, input: RoundKey, b: nat, j: nat)
    requires b < 4 && Group(x, input, b) && j < 8
    ensures Bit(Fused(b, x), 7 - j) == SBoxes(input)[8 * b + j]
  {
    hide SBoxes, SelectIndex;
    GroupHalves(x, input, b);
    NibblePair(Fused(b, x), SelectIndex(2 * b, x / 64), SelectIndex(2 * b + 1, x % 64), 7 - j);
    if j < 4 {
      SelectedBit(x / 64, input, 2 * b, j, 8 * b + j);
    } else {
      SelectedBit(x % 64, input, 2 * b + 1, j - 4, 8 * b + j);
    }
  }

  /** The fused table yields the outputs of the two selection functions side by side. */
  lemma FusedSlice(x: nat, input: RoundKey, b: nat)
    requires b < 4 && Group(x, input, b)
    ensures Slice(Fused(b, x), SBoxes(input), 8 * b, 8)
  {
    hide SBoxes, Fused;
    forall j: nat {:trigger InputAt(SBoxes(input), 8 * b, j)} | j < 8
      ensures Bit(Fused(b, x), 7 - j) <==> InputAt(SBoxes(input), 8 * b, j)
    {
      FusedPlace(x, input, b, j);
    }
  }

  lemma NibblePair(w: nat, u: nat, v: nat, i: nat)
    requires u < 16 && v < 16 && i < 8 && w == 16 * u + v
    ensures Bit(w, i) == if i < 4 then Bit(v, i) else Bit(u, i - 4)
  {
    hide Bit;
    if i < 4 {
      NibbleLow(w, v, i);
    } else {
      NibbleHigh(w, u, i - 4);
    }
  }

  lemma NibbleLow(w: nat, v: nat, i: nat)
    requires w % 16 == v && i < 4
    ensures Bit(w, i) == Bit(v, i)
  {
    hide Bit;
    assert Pow2(4) == 16;
    ModBit(w, 4, i);
  }

  lemma NibbleHigh(w: nat, u: nat, i: nat)
    requires w / 16 == u
    ensures Bit(w, i + 4) == Bit(u, i)
  {
    assert Bit(w, i + 4) == Bit(w / 2, i + 3) == Bit(w / 4, i + 2);
    assert Bit(w / 4, i + 2) == Bit(w / 8, i + 1);
  }

  // ---- the cipher function on words ----

  /** The four table indices of one round. */
  function RoundIndices(left: nat, right: nat): (x: seq<nat>)
    ensures |x| == 4
  {
    [Shr(left, 12), And(left, 0xfff), Shr(right, 12), And(right, 0xfff)]
  }

  lemma LowTwelve(w: nat)
    requires w < Pow2(24)
    ensures And(w, 0xfff) < 4096 && ToBits(And(w, 0xfff), 12) == ToBits(w, 24)[12..24]
  {
    assert Pow2(12) == 4096;
    hide Bit, Pow2, ToBits, And;
    AndRange(w, 0xfff);
    forall q: nat | q < 12
      ensures ToBits(And(w, 0xfff), 12)[q] == ToBits(w, 24)[12..24][q]
    {
      ToBitsAt(And(w, 0xfff), 12, q);
      ToBitsAt(w, 24, 12 + q);
      AndBit(w, 0xfff, 11 - q);
      OnesBit(12, 11 - q);
    }
  }

  lemma HighTwelve(w: nat)
    requires w < Pow2(24)
    ensures Shr(w, 12) < 4096 && ToBits(Shr(w, 12), 12) == ToBits(w, 24)[0..12]
  {
    assert Pow2(12) == 4096;
    hide Bit, Pow2, ToBits, Shr;
    ShrRange(w, 12, 12);
    forall q: nat | q < 12
      ensures ToBits(Shr(w, 12), 12)[q] == ToBits(w, 24)[0..12][q]
    {
      ToBitsAt(Shr(w, 12), 12, q);
      ToBitsAt(w, 24, q);
      ShrBit(w, 12, 11 - q);
    }
  }

  lemma RoundGroups(left: nat, right: nat)
    requires left < Pow2(24) && right < Pow2(24)
    ensures forall b: nat :: b < 4 ==> Group(RoundIndices(left, right)[b], ToBits(left, 24) + ToBits(right, 24), b)
  {
    var x, input := RoundIndices(left, right), ToBits(left, 24) + ToBits(right, 24);
    hide Pow2, ToBits, And, Shr;
    HighTwelve(left);
    LowTwelve(left);
    HighTwelve(right);
    LowTwelve(right);
    assert input[0..12] == ToBits(left, 24)[0..12] && input[12..24] == ToBits(left, 24)[12..24];
    assert input[24..36] == ToBits(right, 24)[0..12] && input[36..48] == ToBits(right, 24)[12..24];
    forall b: nat | b < 4
      ensures Group(x[b], input, b)
    {
      assert b == 0 || b == 1 || b == 2 || b == 3;
    }
  }

  /** Four lookups in the fused tables are the selection functions and P. */
  lemma GatherRound(v: seq<Word>, x: seq<nat>, input: RoundKey)
    requires |v| == |x| == 4
    requires forall b: nat :: b < 4 ==> Group(x[b], input, b) && MaskEntry(v[b], Fused(b, x[b]), 8 * b, 8, P, 0, 32)
    ensures OrAll(v) < WORD_LIMIT && ToBits(OrAll(v), 32) == Permute(SBoxes(input), 32, P)
  {
    assert Group(x[0], input, 0) && Group(x[1], input, 1) && Group(x[2], input, 2) && Group(x[3], input, 3);
    assert x[0] < 4096 && x[1] < 4096 && x[2] < 4096 && x[3] < 4096;
    hide Group, Fused, MaskEntry, SBoxes, OrAll, ToBits, Slice, P;
    var y := [Fused(0, x[0]), Fused(1, x[1]), Fused(2, x[2]), Fused(3, x[3])];
    forall b: nat | b < 4
      ensures MaskEntry(v[b], y[b], 8 * b, 8, P, 0, 32) && Slice(y[b], SBoxes(input), 8 * b, 8)
    {
      assert b == 0 || b == 1 || b == 2 || b == 3;
      FusedSlice(x[b], input, b);
    }
    Gather(v, y, SBoxes(input), 8, 8, P, 0, 32);
    LimitIsPower();
    GatheredIsPermute(ToBits(OrAll(v), 32), SBoxes(input), P);
  }

  lemma GatheredIsPermute(out: seq<bool>, input: seq<bool>, table: nat -> nat)
    requires Gathered(out, input, table, 0)
    ensures forall q: nat :: q < |out| ==> 1 <= table(q) <= |input|
    ensures out == Permute(input, |out|, table)
  {
    forall q: nat | q < |out|
      ensures 1 <= table(q) <= |input| && out[q] == input[table(q) - 1]
    {
      assert Source(table, 0, q) == table(q) - 1;
    }
  }

  // ---- rotated key halves ----

  /** The rotation of a 28-bit half kept in a 32-bit word; bits past the 28th are left over. */
  function Rotated(k: Word, shifts: nat): nat
    requires shifts <= 28
  {
    Or(Shl(k, shifts), Shr(k, 28 - shifts))
  }

  lemma RotatedBit(k: Word, shifts: nat, q: nat)
    requires k < Pow2(28) && shifts <= 28 && q < 28
    ensures Bit(Rotated(k, shifts), 27 - q) == RotateLeft(ToBits(k, 28), shifts)[q]
  {
    hide Bit, Pow2, ToBits, Shl, Shr, Or;
    OrBit(Shl(k, shifts), Shr(k, 28 - shifts), 27 - q);
    ShlBit(k, shifts, 27 - q);
    ShrBit(k, 28 - shifts, 27 - q);
    if q + shifts < 28 {
      BitBound(k, 28, 55 - q - shifts);
      ToBitsAt(k, 28, q + shifts);
    } else {
      ToBitsAt(k, 28, q + shifts - 28);
    }
  }

  /** The eight indices into the compression tables. */
  function KeyIndices(t0: nat, t1: nat): (x: seq<nat>)
    ensures |x| == 8
  {
    [Field(t0, 21, 7), Field(t0, 14, 7), Field(t0, 7, 7), Field(t0, 0, 7),
     Field(t1, 21, 7), Field(t1, 14, 7), Field(t1, 7, 7), Field(t1, 0, 7)]
  }

  lemma KeySlice(t: nat, half: KeyHalf, k: nat)
    requires k < 4 && forall q: nat :: q < 28 ==> PlaceIs(t, half, q)
    ensures Field(t, 21 - 7 * k, 7) < 128 && Slice(Field(t, 21 - 7 * k, 7), half, 7 * k, 7)
  {
    assert Pow2(7) == 128;
    FieldBits(t, 21 - 7 * k, 7);
    hide Bit, Pow2, Field;
    forall j: nat | j < 7
      ensures Bit(Field(t, 21 - 7 * k, 7), 6 - j) <==> InputAt(half, 7 * k, j)
    {
      assert PlaceIs(t, half, 7 * k + j);
    }
  }

  ghost predicate PlaceIs(t: nat, half: KeyHalf, q: nat)
    requires q < 28
  {
    Bit(t, 27 - q) == half[q]
  }

  lemma JoinedSlice(t0: nat, t1: nat, a: KeyHalf, b: KeyHalf, k: nat)
    requires k < 8 && forall q: nat :: q < 28 ==> PlaceIs(t0, a, q) && PlaceIs(t1, b, q)
    ensures KeyIndices(t0, t1)[k] < 128
    ensures Slice(KeyIndices(t0, t1)[k], Concat(a, b), 7 * k, 7)
  {
    hide Field, Slice;
    if k < 4 {
      KeySlice(t0, a, k);
      SliceOfConcat(Field(t0, 21 - 7 * k, 7), a, b, 7 * k, 7);
    } else {
      KeySlice(t1, b, k - 4);
      SliceOfConcat(Field(t1, 21 - 7 * (k - 4), 7), a, b, 7 * (k - 4), 7);
    }
  }

  lemma KeySlices(k0: Word, k1: Word, shifts: nat)
    requires k0 < Pow2(28) && k1 < Pow2(28) && shifts <= 28
    ensures var x := KeyIndices(Rotated(k0, shifts), Rotated(k1, shifts));
      var input := Concat(RotateLeft(ToBits(k0, 28), shifts), RotateLeft(ToBits(k1, 28), shifts));
      forall k: nat :: k < 8 ==> x[k] < 128 && Slice(x[k], input, 7 * k, 7)
  {
    hide Rotated, RotateLeft, KeyIndices, Slice, ToBits, Pow2;
    var t0, t1 := Rotated(k0, shifts), Rotated(k1, shifts);
    var a, b := RotateLeft(ToBits(k0, 28), shifts), RotateLeft(ToBits(k1, 28), shifts);
    forall q: nat | q < 28
      ensures PlaceIs(t0, a, q) && PlaceIs(t1, b, q)
    {
      RotatedBit(k0, shifts, q);
      RotatedBit(k1, shifts, q);
    }
    forall k: nat | k < 8
      ensures KeyIndices(t0, t1)[k] < 128 && Slice(KeyIndices(t0, t1)[k], Concat(a, b), 7 * k, 7)
    {
      JoinedSlice(t0, t1, a, b, k);
    }
  }
}
