/**
  The precomputed tables of des_init: OR-masks that scatter the bits of a small index to
  their permuted places, and the fused selection-function tables.
 */
module MaskTables {
  import opened Powers
  import opened Words
  import opened DesStandard

  const UNUSED := 255

  /**
    The word v gathers, at each place q of a half-block of `half` bits, the bit of index i
    that the table sends to place from + q. The index holds the input bits
    base .. base + width, first bit most significant.
   */
  ghost predicate MaskEntry(v: Word, i: nat, base: nat, width: nat, table: nat -> nat, from: nat, half: nat) {
    v < Pow2(half) && forall q: nat :: q < half ==>
      (At(v, half, q) <==> MaskBit(Source(table, from, q), i, base, width))
  }

  /** Place q of a half-block held in the low `half` bits of v. */
  predicate At(v: nat, half: nat, q: nat)
    requires q < half
  {
    Bit(v, half - 1 - q)
  }

  /** The input bit that place from + q takes, numbered from 0. */
  function Source(table: nat -> nat, from: nat, q: nat): int {
    table(from + q) - 1
  }

  ghost predicate MaskBit(source: int, i: nat, base: nat, width: nat) {
    base <= source < base + width && Bit(i, width - 1 - (source - base))
  }

  /** dest sends an input bit to its place in the table's output, or is UNUSED. */
  ghost predicate Inverts(dest: seq<nat>, table: nat -> nat, places: nat) {
    && (forall q: nat :: q < places ==> 1 <= table(q) <= |dest| && dest[table(q) - 1] == q)
    && (forall b: nat :: b < |dest| ==> dest[b] == UNUSED || (dest[b] < places && table(dest[b]) - 1 == b))
  }

  ghost predicate Injective(table: nat -> nat, places: nat, size: nat) {
    (forall q: nat :: q < places ==> 1 <= table(q) <= size) &&
    forall q: nat, q2: nat :: q < q2 < places ==> table(q) != table(q2)
  }

  // The entries of each table are distinct.

  lemma IPDistinct(q: nat, q2: nat)
    requires q < q2 < 64
    ensures IP(q) != IP(q2)
  {
  }

  lemma PC1Distinct(q: nat, q2: nat)
    requires q < q2 < 56
    ensures PC1(q) != PC1(q2)
  {
  }

  lemma PC2Distinct(q: nat, q2: nat)
    requires q < q2 < 48
    ensures PC2(q) != PC2(q2)
  {
  }

  lemma PDistinct(q: nat, q2: nat)
    requires q < q2 < 32
    ensures P(q) != P(q2)
  {
  }

  lemma IPInjective()
    ensures Injective(IP, 64, 64)
  {
    forall q: nat, q2: nat | q < q2 < 64
      ensures IP(q) != IP(q2)
    {
      IPDistinct(q, q2);
    }
    hide IP;
  }

  lemma PC1Injective()
    ensures Injective(PC1, 56, 64)
  {
    forall q: nat, q2: nat | q < q2 < 56
      ensures PC1(q) != PC1(q2)
    {
      PC1Distinct(q, q2);
    }
    hide PC1;
  }

  lemma PC2Injective()
    ensures Injective(PC2, 48, 56)
  {
    forall q: nat, q2: nat | q < q2 < 48
      ensures PC2(q) != PC2(q2)
    {
      PC2Distinct(q, q2);
    }
    hide PC2;
  }

  lemma PInjective()
    ensures Injective(P, 32, 32)
  {
    forall q: nat, q2: nat | q < q2 < 32
      ensures P(q) != P(q2)
    {
      PDistinct(q, q2);
    }
    hide P;
  }

  /** The loops that invert a permutation. */
  method Invert(table: nat -> nat, places: nat, size: nat) returns (dest: array<nat>)
    requires places < UNUSED && Injective(table, places, size)
    ensures fresh(dest) && dest.Length == size && Inverts(dest[..], table, places)
  {
    dest := new nat[size];
    for b := 0 to size
      invariant forall b1 :: 0 <= b1 < b ==> dest[b1] == UNUSED
    {
      dest[b] := UNUSED;
    }
    for q := 0 to places
      invariant forall q1: nat :: q1 < q ==> dest[table(q1) - 1] == q1
      invariant forall b :: 0 <= b < size ==> dest[b] == UNUSED || (dest[b] < q && table(dest[b]) - 1 == b)
    {
      dest[table(q) - 1] := q;
    }
    assert forall b :: 0 <= b < size ==> dest[..][b] == dest[b];
  }

  /** Setting place q leaves the other places alone. */
  lemma SetPlace(v: Word, q: nat, half: nat, q2: nat)
    requires v < Pow2(half) && q < half <= 32 && q2 < half
    ensures Or(v, Pow2(half - 1 - q)) < Pow2(half) <= WORD_LIMIT
    ensures At(Or(v, Pow2(half - 1 - q)), half, q2) <==> At(v, half, q2) || q2 == q
  {
    Pow2Increasing(half - 1 - q, half);
    OrRange(v, Pow2(half - 1 - q), half);
    Pow2Increasing(half, 32);
    LimitIsPower();
    OrBit(v, Pow2(half - 1 - q), half - 1 - q2);
    PowerBit(half - 1 - q, half - 1 - q2);
  }

  /** The entry for index i while only its first `done` bits have been looked at. */
  ghost predicate PartialEntry(v: Word, i: nat, base: nat, width: nat, done: nat, table: nat -> nat, from: nat, half: nat) {
    v < Pow2(half) && forall q: nat :: q < half ==>
      (At(v, half, q) <==> Source(table, from, q) < base + done && MaskBit(Source(table, from, q), i, base, width))
  }

  /** One step of the inner loop on one of the words it builds. */
  function AddMask(v: Word, half: nat, from: nat, obit: nat): nat {
    if from <= obit < from + half then Or(v, Pow2(half - 1 - (obit - from))) else v
  }

  lemma ExtendEntry(v: Word, i: nat, base: nat, width: nat, j: nat, table: nat -> nat, from: nat, half: nat, obit: nat)
    requires j < width && half <= 32 && PartialEntry(v, i, base, width, j, table, from, half)
    requires forall q: nat :: q < half ==> (Source(table, from, q) == base + j <==> from + q == obit)
    ensures AddMask(v, half, from, obit) < WORD_LIMIT
    ensures PartialEntry(if Bit(i, width - 1 - j) then AddMask(v, half, from, obit) else v,
                         i, base, width, j + 1, table, from, half)
  {
    if from <= obit < from + half {
      SetPlace(v, obit - from, half, 0);
    }
    var v2 := if Bit(i, width - 1 - j) then AddMask(v, half, from, obit) else v;
    forall q: nat | q < half
      ensures At(v2, half, q) <==>
        Source(table, from, q) < base + j + 1 && MaskBit(Source(table, from, q), i, base, width)
    {
      if from <= obit < from + half {
        SetPlace(v, obit - from, half, q);
      }
    }
  }

  /** The inner loop: the left and right mask words for one index of one table row. */
  method MaskWords(i: nat, base: nat, width: nat, dest: array<nat>, half: nat, ghost table: nat -> nat)
    returns (left: Word, right: Word)
    requires half <= 32 && 2 * half < UNUSED && base + width <= dest.Length
    requires Inverts(dest[..], table, 2 * half)
    ensures MaskEntry(left, i, base, width, table, 0, half)
    ensures MaskEntry(right, i, base, width, table, half, half)
  {
    left, right := 0, 0;
    ZeroEntry(i, base, width, table, 0, half);
    ZeroEntry(i, base, width, table, half, half);
    for j := 0 to width
      invariant PartialEntry(left, i, base, width, j, table, 0, half)
      invariant PartialEntry(right, i, base, width, j, table, half, half)
    {
      var obit := dest[base + j];
      PlaceOf(dest[..], table, half, base + j);
      ExtendEntry(left, i, base, width, j, table, 0, half, obit);
      ExtendEntry(right, i, base, width, j, table, half, half, obit);
      if Bit(i, width - 1 - j) {
        left, right := SetBit(left, right, half, obit);
      }
    }
  }

  /** Sets the bit for place obit in the left or the right word, or in none. */
  method SetBit(left: Word, right: Word, half: nat, obit: nat) returns (left2: Word, right2: Word)
    requires half <= 32 && 2 * half < UNUSED && (obit == UNUSED || obit < 2 * half)
    requires AddMask(left, half, 0, obit) < WORD_LIMIT && AddMask(right, half, half, obit) < WORD_LIMIT
    ensures left2 == AddMask(left, half, 0, obit) && right2 == AddMask(right, half, half, obit)
  {
    left2, right2 := left, right;
    if obit == UNUSED {
      return;
    }
    if obit < half {
      left2 := Or(left, Pow2(half - 1 - obit));
    } else {
      right2 := Or(right, Pow2(half - 1 - (obit - half)));
    }
  }

  /** Looking a bit up in the inverted table finds the place whose source it is. */
  lemma PlaceOf(dest: seq<nat>, table: nat -> nat, half: nat, b: nat)
    requires Inverts(dest, table, 2 * half) && 2 * half < UNUSED && b < |dest|
    ensures dest[b] == UNUSED || dest[b] < 2 * half
    ensures forall q: nat :: q < half ==> (Source(table, 0, q) == b <==> 0 + q == dest[b])
    ensures forall q: nat :: q < half ==> (Source(table, half, q) == b <==> half + q == dest[b])
  {
  }

  lemma ZeroEntry(i: nat, base: nat, width: nat, table: nat -> nat, from: nat, half: nat)
    ensures PartialEntry(0, i, base, width, 0, table, from, half)
  {
    forall q: nat | q < half
      ensures !At(0, half, q)
    {
      BitOfZero(half - 1 - q);
    }
  }

  // ---- whole tables ----

  /** Row k of the table serves the input bits stride * k .. stride * k + width. */
  ghost predicate MaskTable(m: array2<Word>, stride: nat, width: nat, table: nat -> nat, from: nat, half: nat)
    reads m
  {
    && m.Length0 == 8 && m.Length1 == Pow2(width)
    && forall k, i :: 0 <= k < 8 && 0 <= i < m.Length1 ==> MaskEntry(m[k, i], i, stride * k, width, table, from, half)
  }

  /** The left and the right words of one permutation, built together. */
  class MaskPair {
    const left: array2<Word>
    const right: array2<Word>

    ghost predicate Permutes(stride: nat, width: nat, table: nat -> nat, half: nat)
      reads left, right
    {
      MaskTable(left, stride, width, table, 0, half) && MaskTable(right, stride, width, table, half, half)
    }

    constructor (stride: nat, width: nat, dest: array<nat>, half: nat, ghost table: nat -> nat)
      requires half <= 32 && 2 * half < UNUSED && stride * 7 + width <= dest.Length && Inverts(dest[..], table, 2 * half)
      ensures Permutes(stride, width, table, half) && fresh(left) && fresh(right)
    {
      left, right := new Word[8, Pow2(width)], new Word[8, Pow2(width)];
      new;
      FillMasks(left, right, stride, width, dest, half, table);
    }
  }

  method FillMasks(maskL: array2<Word>, maskR: array2<Word>, stride: nat, width: nat, dest: array<nat>,
                   half: nat, ghost table: nat -> nat)
    requires maskL != maskR && maskL.Length0 == maskR.Length0 == 8 && maskL.Length1 == maskR.Length1 == Pow2(width)
    requires half <= 32 && 2 * half < UNUSED && stride * 7 + width <= dest.Length && Inverts(dest[..], table, 2 * half)
    modifies maskL, maskR
    ensures MaskTable(maskL, stride, width, table, 0, half) && MaskTable(maskR, stride, width, table, half, half)
  {
    for k := 0 to 8
      invariant RowsDone(maskL, k, stride, width, table, 0, half) && RowsDone(maskR, k, stride, width, table, half, half)
    {
      MulMono(stride, k, 7);
      for i := 0 to maskL.Length1
        invariant RowsDone(maskL, k, stride, width, table, 0, half)
        invariant RowsDone(maskR, k, stride, width, table, half, half)
        invariant forall i1 :: 0 <= i1 < i ==>
          MaskEntry(maskL[k, i1], i1, stride * k, width, table, 0, half) &&
          MaskEntry(maskR[k, i1], i1, stride * k, width, table, half, half)
      {
        maskL[k, i], maskR[k, i] := MaskWords(i, stride * k, width, dest, half, table);
      }
    }
  }

  ghost predicate RowsDone(m: array2<Word>, rows: nat, stride: nat, width: nat, table: nat -> nat, from: nat, half: nat)
    requires rows <= m.Length0
    reads m
  {
    forall k, i :: 0 <= k < rows && 0 <= i < m.Length1 ==> MaskEntry(m[k, i], i, stride * k, width, table, from, half)
  }

  // ---- the fused selection functions ----

  /** The selection function on its six-bit input read as a number. */
  function SelectIndex(box: nat, j: nat): Nibble
    requires j < 64
  {
    SelectionRow(box, 2 * (j / 32) + j % 2)[j / 2 % 16]
  }

  /** Two neighbouring selection functions on twelve bits. */
  function Fused(b: nat, x: nat): (r: nat)
    requires b < 4 && x < 4096
    ensures r < 256
  {
    16 * SelectIndex(2 * b, x / 64) + SelectIndex(2 * b + 1, x % 64)
  }

  ghost predicate FusedTable(m: array2<nat>)
    reads m
  {
    && m.Length0 == 4 && m.Length1 == 4096
    && forall b, x :: 0 <= b < 4 && 0 <= x < 4096 ==> m[b, x] == Fused(b, x)
  }

  method NewSBoxes() returns (mSbox: array2<nat>)
    ensures fresh(mSbox) && FusedTable(mSbox)
  {
    hide SelectIndex;
    mSbox := new nat[4, 4096];
    var uSbox := ReorderSBoxes();
    for b := 0 to 4
      invariant forall i, j :: 0 <= i < 8 && 0 <= j < 64 ==> uSbox[i, j] == SelectIndex(i, j)
      invariant forall b1, x :: 0 <= b1 < b && 0 <= x < 4096 ==> mSbox[b1, x] == Fused(b1, x)
    {
      FuseRow(mSbox, b, uSbox);
    }
  }

  /** The selection functions with their input bits put in order. */
  method ReorderSBoxes() returns (uSbox: array2<nat>)
    ensures fresh(uSbox) && uSbox.Length0 == 8 && uSbox.Length1 == 64
    ensures forall i, j :: 0 <= i < 8 && 0 <= j < 64 ==> uSbox[i, j] == SelectIndex(i, j)
  {
    uSbox := new nat[8, 64];
    for i := 0 to 8
      invariant forall i1, j :: 0 <= i1 < i && 0 <= j < 64 ==> uSbox[i1, j] == SelectIndex(i1, j)
    {
      for j := 0 to 64
        invariant forall i1, j1 :: 0 <= i1 < i && 0 <= j1 < 64 ==> uSbox[i1, j1] == SelectIndex(i1, j1)
        invariant forall j1 :: 0 <= j1 < j ==> uSbox[i, j1] == SelectIndex(i, j1)
      {
        var b := j / 32 * 32 + j % 2 * 16 + j / 2 % 16;
        assert b / 16 == 2 * (j / 32) + j % 2 && b % 16 == j / 2 % 16;
        uSbox[i, j] := SelectionRow(i, b / 16)[b % 16];
      }
    }
  }

  method FuseRow(mSbox: array2<nat>, b: nat, uSbox: array2<nat>)
    requires mSbox.Length0 == 4 && mSbox.Length1 == 4096 && b < 4
    requires mSbox != uSbox && uSbox.Length0 == 8 && uSbox.Length1 == 64
    modifies mSbox
    ensures forall x :: 0 <= x < 4096 ==> mSbox[b, x] == 16 * uSbox[2 * b, x / 64] + uSbox[2 * b + 1, x % 64]
    ensures forall b1, x :: 0 <= b1 < 4 && b1 != b && 0 <= x < 4096 ==> mSbox[b1, x] == old(mSbox[b1, x])
  {
    for i := 0 to 64
      invariant forall x :: 0 <= x < 64 * i ==> mSbox[b, x] == 16 * uSbox[2 * b, x / 64] + uSbox[2 * b + 1, x % 64]
      invariant forall b1, x :: 0 <= b1 < 4 && b1 != b && 0 <= x < 4096 ==> mSbox[b1, x] == old(mSbox[b1, x])
    {
      for j := 0 to 64
        invariant forall x :: 0 <= x < 64 * i + j ==>
          mSbox[b, x] == 16 * uSbox[2 * b, x / 64] + uSbox[2 * b + 1, x % 64]
        invariant forall b1, x :: 0 <= b1 < 4 && b1 != b && 0 <= x < 4096 ==> mSbox[b1, x] == old(mSbox[b1, x])
      {
        assert (64 * i + j) / 64 == i && (64 * i + j) % 64 == j;
        mSbox[b, 64 * i + j] := 16 * uSbox[2 * b, i] + uSbox[2 * b + 1, j];
      }
    }
  }

  // ---- the fused permutation P ----

  ghost predicate PermutedTable(m: array2<Word>)
    reads m
  {
    && m.Length0 == 4 && m.Length1 == 256
    && forall b, i :: 0 <= b < 4 && 0 <= i < 256 ==> MaskEntry(m[b, i], i, 8 * b, 8, P, 0, 32)
  }

  method NewPBox() returns (psbox: array2<Word>)
    ensures fresh(psbox) && PermutedTable(psbox)
  {
    psbox := new Word[4, 256];
    FillPBox(psbox);
  }

  method FillPBox(psbox: array2<Word>)
    requires psbox.Length0 == 4 && psbox.Length1 == 256
    modifies psbox
    ensures PermutedTable(psbox)
  {
    PInjective();
    hide P, MaskEntry, Inverts;
    var unPbox := Invert(P, 32, 32);
    for b := 0 to 4
      invariant Inverts(unPbox[..], P, 32)
      invariant forall b1, i :: 0 <= b1 < b && 0 <= i < 256 ==> MaskEntry(psbox[b1, i], i, 8 * b1, 8, P, 0, 32)
    {
      for i := 0 to 256
        invariant Inverts(unPbox[..], P, 32)
        invariant forall b1, i1 :: 0 <= b1 < b && 0 <= i1 < 256 ==> MaskEntry(psbox[b1, i1], i1, 8 * b1, 8, P, 0, 32)
        invariant forall i1 :: 0 <= i1 < i ==> MaskEntry(psbox[b, i1], i1, 8 * b, 8, P, 0, 32)
      {
        psbox[b, i] := PermutedMask(i, 8 * b, unPbox);
      }
    }
  }

  /** Every place is the source of some place, so no bit of P's input is unused. */
  method PermutedMask(i: nat, base: nat, unPbox: array<nat>) returns (p: Word)
    requires base + 8 <= unPbox.Length == 32 && Inverts(unPbox[..], P, 32)
    ensures MaskEntry(p, i, base, 8, P, 0, 32)
  {
    p := 0;
    ZeroEntry(i, base, 8, P, 0, 32);
    for j := 0 to 8
      invariant PartialEntry(p, i, base, 8, j, P, 0, 32)
    {
      var obit := unPbox[base + j];
      assert obit == unPbox[..][base + j];
      PIsOnto(unPbox[..], base + j);
      ExtendEntry(p, i, base, 8, j, P, 0, 32, obit);
      if Bit(i, 7 - j) {
        p := AddMask(p, 32, 0, obit);
      }
    }
  }

  /** P takes every input bit somewhere. */
  function PlaceInP(b: nat): (q: nat)
    requires b < 32
    ensures q < 32
  {
    match b
    case 0 => 8 case 1 => 16 case 2 => 22 case 3 => 30 case 4 => 12 case 5 => 27 case 6 => 1 case 7 => 17
    case 8 => 23 case 9 => 15 case 10 => 29 case 11 => 5 case 12 => 25 case 13 => 19 case 14 => 9 case 15 => 0
    case 16 => 7 case 17 => 13 case 18 => 24 case 19 => 2 case 20 => 3 case 21 => 28 case 22 => 10 case 23 => 18
    case 24 => 31 case 25 => 11 case 26 => 21 case 27 => 6 case 28 => 4 case 29 => 26 case 30 => 14 case _ => 20
  }

  lemma PlaceInPIsInverse(b: nat)
    requires b < 32
    ensures P(PlaceInP(b)) == b + 1
  {
  }

  lemma PIsOnto(unPbox: seq<nat>, b: nat)
    requires |unPbox| == 32 && b < 32 && Inverts(unPbox, P, 32)
    ensures unPbox[b] < 32
    ensures forall q: nat :: q < 32 ==> (Source(P, 0, q) == b <==> 0 + q == unPbox[b])
  {
    PlaceInPIsInverse(b);
    assert unPbox[P(PlaceInP(b)) - 1] == PlaceInP(b);
  }
}
