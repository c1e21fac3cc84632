/**
  What the selection functions were chosen for: each of their rows is a permutation, and changing one bit
  of the six that enter a box changes at least two of the four that leave it.
 */
module DesSelection {
  import opened Words
  import opened DesStandard

  /** Bit j, from the left, of a number of four bits and of one of two. */
  predicate FourBit(n: nat, j: nat) {
    match j
    case 0 => 8 <= n
    case 1 => 4 <= n < 8 || 12 <= n
    case 2 => 2 <= n < 4 || 6 <= n < 8 || 10 <= n < 12 || 14 <= n
    case _ => n == 1 || n == 3 || n == 5 || n == 7 || n == 9 || n == 11 || n == 13 || n == 15
  }

  predicate TwoBit(n: nat, j: nat) {
    match j
    case 0 => 2 <= n
    case _ => n == 1 || n == 3
  }

  lemma DigitSpelled(v: nat, j: nat)
    requires v < 16 && j < 4
    ensures ToBits(v, 4)[j] == FourBit(v, j)
  {
    ToBitsAt(v, 4, j);
    assert Bit(v, 0) == (v % 2 == 1) && Bit(v, 1) == Bit(v / 2, 0) && Bit(v, 2) == Bit(v / 2, 1) && Bit(v, 3) == Bit(v / 2, 2);
    assert Bit(v / 2, 1) == Bit(v / 2 / 2, 0) && Bit(v / 2, 2) == Bit(v / 2 / 2, 1) && Bit(v / 2 / 2, 1) == Bit(v / 2 / 2 / 2, 0);
  }

  function Value(b: bool, weight: nat): nat {
    if b then weight else 0
  }

  /** The row and the column six bits choose. */
  function RowOf(six: seq<bool>): (r: nat)
    requires |six| == 6
    ensures r < 4
  {
    Value(six[0], 2) + Value(six[5], 1)
  }

  function Column(a: bool, b: bool, c: bool, d: bool): (r: nat)
    ensures r < 16
  {
    Value(a, 8) + Value(b, 4) + Value(c, 2) + Value(d, 1)
  }

  function ColumnOf(six: seq<bool>): (r: nat)
    requires |six| == 6
    ensures r < 16
  {
    Column(six[1], six[2], six[3], six[4])
  }

  lemma ColumnSpelled(a: bool, b: bool, c: bool, d: bool)
    ensures FromBits([a, b, c, d]) == Column(a, b, c, d)
  {
    FromTwoBits(a, b);
    assert [a, b, c, d][..3] == [a, b, c] && [a, b, c][..2] == [a, b];
    assert FromBits([a, b, c]) == Join(c, FromBits([a, b]));
  }

  lemma SelectValue(box: nat, six: seq<bool>)
    requires |six| == 6
    ensures Select(box, six) == SelectionRow(box, RowOf(six))[ColumnOf(six)]
  {
    hide SelectionRow, FromBits;
    FromTwoBits(six[0], six[5]);
    ColumnSpelled(six[1], six[2], six[3], six[4]);
    assert six[1..5] == [six[1], six[2], six[3], six[4]];
  }

  // ---- permutations ----

  ghost predicate Distinct(s: SRow) {
    forall c, d :: 0 <= c < d < 16 ==> s[c] != s[d]
  }

  lemma S1UpperDistinct()
    ensures Distinct(S1(0)) && Distinct(S1(1))
  {
  }

  lemma S1LowerDistinct()
    ensures Distinct(S1(2)) && Distinct(S1(3))
  {
  }

  lemma S2UpperDistinct()
    ensures Distinct(S2(0)) && Distinct(S2(1))
  {
  }

  lemma S2LowerDistinct()
    ensures Distinct(S2(2)) && Distinct(S2(3))
  {
  }

  lemma S3UpperDistinct()
    ensures Distinct(S3(0)) && Distinct(S3(1))
  {
  }

  lemma S3LowerDistinct()
    ensures Distinct(S3(2)) && Distinct(S3(3))
  {
  }

  lemma S4UpperDistinct()
    ensures Distinct(S4(0)) && Distinct(S4(1))
  {
  }

  lemma S4LowerDistinct()
    ensures Distinct(S4(2)) && Distinct(S4(3))
  {
  }

  lemma S5UpperDistinct()
    ensures Distinct(S5(0)) && Distinct(S5(1))
  {
  }

  lemma S5LowerDistinct()
    ensures Distinct(S5(2)) && Distinct(S5(3))
  {
  }

  lemma S6UpperDistinct()
    ensures Distinct(S6(0)) && Distinct(S6(1))
  {
  }

  lemma S6LowerDistinct()
    ensures Distinct(S6(2)) && Distinct(S6(3))
  {
  }

  lemma S7UpperDistinct()
    ensures Distinct(S7(0)) && Distinct(S7(1))
  {
  }

  lemma S7LowerDistinct()
    ensures Distinct(S7(2)) && Distinct(S7(3))
  {
  }

  lemma S8UpperDistinct()
    ensures Distinct(S8(0)) && Distinct(S8(1))
  {
  }

  lemma S8LowerDistinct()
    ensures Distinct(S8(2)) && Distinct(S8(3))
  {
  }

  lemma RowDistinct(box: nat, row: nat)
    requires box < 8 && row < 4
    ensures Distinct(SelectionRow(box, row))
  {
    hide Distinct, S1, S2, S3, S4, S5, S6, S7, S8;
    match box
    case 0 =>
      S1UpperDistinct();
      S1LowerDistinct();
    case 1 =>
      S2UpperDistinct();
      S2LowerDistinct();
    case 2 =>
      S3UpperDistinct();
      S3LowerDistinct();
    case 3 =>
      S4UpperDistinct();
      S4LowerDistinct();
    case 4 =>
      S5UpperDistinct();
      S5LowerDistinct();
    case 5 =>
      S6UpperDistinct();
      S6LowerDistinct();
    case 6 =>
      S7UpperDistinct();
      S7LowerDistinct();
    case _ =>
      S8UpperDistinct();
      S8LowerDistinct();
  }

  /** With the outer two bits fixed, the output tells the inner four. */
  lemma InnerBitsTold(box: nat, six: seq<bool>, other: seq<bool>)
    requires box < 8 && |six| == 6 && |other| == 6 && six[0] == other[0] && six[5] == other[5]
    ensures Select(box, six) == Select(box, other) <==> six == other
  {
    hide Select, SelectionRow;
    SelectValue(box, six);
    SelectValue(box, other);
    RowDistinct(box, RowOf(six));
  }

  // ---- one bit changed ----

  /** The two numbers of four bits differ in at least two bits. */
  predicate Far(a: nat, b: nat) {
    || (FourBit(a, 0) != FourBit(b, 0) && (FourBit(a, 1) != FourBit(b, 1) || FourBit(a, 2) != FourBit(b, 2) || FourBit(a, 3) != FourBit(b, 3)))
    || (FourBit(a, 1) != FourBit(b, 1) && (FourBit(a, 2) != FourBit(b, 2) || FourBit(a, 3) != FourBit(b, 3)))
    || (FourBit(a, 2) != FourBit(b, 2) && FourBit(a, 3) != FourBit(b, 3))
  }

  /** Columns that differ in one bit hold numbers that differ in two. */
  predicate ColumnsFar(s: SRow) {
    && Far(s[0], s[1]) && Far(s[2], s[3]) && Far(s[4], s[5]) && Far(s[6], s[7])
    && Far(s[8], s[9]) && Far(s[10], s[11]) && Far(s[12], s[13]) && Far(s[14], s[15])
    && Far(s[0], s[2]) && Far(s[1], s[3]) && Far(s[4], s[6]) && Far(s[5], s[7])
    && Far(s[8], s[10]) && Far(s[9], s[11]) && Far(s[12], s[14]) && Far(s[13], s[15])
    && Far(s[0], s[4]) && Far(s[1], s[5]) && Far(s[2], s[6]) && Far(s[3], s[7])
    && Far(s[8], s[12]) && Far(s[9], s[13]) && Far(s[10], s[14]) && Far(s[11], s[15])
    && Far(s[0], s[8]) && Far(s[1], s[9]) && Far(s[2], s[10]) && Far(s[3], s[11])
    && Far(s[4], s[12]) && Far(s[5], s[13]) && Far(s[6], s[14]) && Far(s[7], s[15])
  }

  /** So do two rows, column by column. */
  predicate RowsFar(s: SRow, t: SRow) {
    && Far(s[0], t[0]) && Far(s[1], t[1]) && Far(s[2], t[2]) && Far(s[3], t[3])
    && Far(s[4], t[4]) && Far(s[5], t[5]) && Far(s[6], t[6]) && Far(s[7], t[7])
    && Far(s[8], t[8]) && Far(s[9], t[9]) && Far(s[10], t[10]) && Far(s[11], t[11])
    && Far(s[12], t[12]) && Far(s[13], t[13]) && Far(s[14], t[14]) && Far(s[15], t[15])
  }

  lemma S1UpperRows()
    ensures ColumnsFar(S1(0)) && ColumnsFar(S1(1))
  {
  }

  lemma S1LowerRows()
    ensures ColumnsFar(S1(2)) && ColumnsFar(S1(3))
  {
  }

  lemma S1Across()
    ensures RowsFar(S1(0), S1(1)) && RowsFar(S1(2), S1(3)) && RowsFar(S1(0), S1(2)) && RowsFar(S1(1), S1(3))
  {
  }

  lemma S2UpperRows()
    ensures ColumnsFar(S2(0)) && ColumnsFar(S2(1))
  {
  }

  lemma S2LowerRows()
    ensures ColumnsFar(S2(2)) && ColumnsFar(S2(3))
  {
  }

  lemma S2Across()
    ensures RowsFar(S2(0), S2(1)) && RowsFar(S2(2), S2(3)) && RowsFar(S2(0), S2(2)) && RowsFar(S2(1), S2(3))
  {
  }

  lemma S3UpperRows()
    ensures ColumnsFar(S3(0)) && ColumnsFar(S3(1))
  {
  }

  lemma S3LowerRows()
    ensures ColumnsFar(S3(2)) && ColumnsFar(S3(3))
  {
  }

  lemma S3Across()
    ensures RowsFar(S3(0), S3(1)) && RowsFar(S3(2), S3(3)) && RowsFar(S3(0), S3(2)) && RowsFar(S3(1), S3(3))
  {
  }

  lemma S4UpperRows()
    ensures ColumnsFar(S4(0)) && ColumnsFar(S4(1))
  {
  }

  lemma S4LowerRows()
    ensures ColumnsFar(S4(2)) && ColumnsFar(S4(3))
  {
  }

  lemma S4Across()
    ensures RowsFar(S4(0), S4(1)) && RowsFar(S4(2), S4(3)) && RowsFar(S4(0), S4(2)) && RowsFar(S4(1), S4(3))
  {
  }

  lemma S5UpperRows()
    ensures ColumnsFar(S5(0)) && ColumnsFar(S5(1))
  {
  }

  lemma S5LowerRows()
    ensures ColumnsFar(S5(2)) && ColumnsFar(S5(3))
  {
  }

  lemma S5Across()
    ensures RowsFar(S5(0), S5(1)) && RowsFar(S5(2), S5(3)) && RowsFar(S5(0), S5(2)) && RowsFar(S5(1), S5(3))
  {
  }

  lemma S6UpperRows()
    ensures ColumnsFar(S6(0)) && ColumnsFar(S6(1))
  {
  }

  lemma S6LowerRows()
    ensures ColumnsFar(S6(2)) && ColumnsFar(S6(3))
  {
  }

  lemma S6Across()
    ensures RowsFar(S6(0), S6(1)) && RowsFar(S6(2), S6(3)) && RowsFar(S6(0), S6(2)) && RowsFar(S6(1), S6(3))
  {
  }

  lemma S7UpperRows()
    ensures ColumnsFar(S7(0)) && ColumnsFar(S7(1))
  {
  }

  lemma S7LowerRows()
    ensures ColumnsFar(S7(2)) && ColumnsFar(S7(3))
  {
  }

  lemma S7Across()
    ensures RowsFar(S7(0), S7(1)) && RowsFar(S7(2), S7(3)) && RowsFar(S7(0), S7(2)) && RowsFar(S7(1), S7(3))
  {
  }

  lemma S8UpperRows()
    ensures ColumnsFar(S8(0)) && ColumnsFar(S8(1))
  {
  }

  lemma S8LowerRows()
    ensures ColumnsFar(S8(2)) && ColumnsFar(S8(3))
  {
  }

  lemma S8Across()
    ensures RowsFar(S8(0), S8(1)) && RowsFar(S8(2), S8(3)) && RowsFar(S8(0), S8(2)) && RowsFar(S8(1), S8(3))
  {
  }

  lemma RowFar(box: nat, row: nat)
    requires box < 8 && row < 4
    ensures ColumnsFar(SelectionRow(box, row))
  {
    hide ColumnsFar, S1, S2, S3, S4, S5, S6, S7, S8;
    match box
    case 0 =>
      S1UpperRows();
      S1LowerRows();
    case 1 =>
      S2UpperRows();
      S2LowerRows();
    case 2 =>
      S3UpperRows();
      S3LowerRows();
    case 3 =>
      S4UpperRows();
      S4LowerRows();
    case 4 =>
      S5UpperRows();
      S5LowerRows();
    case 5 =>
      S6UpperRows();
      S6LowerRows();
    case 6 =>
      S7UpperRows();
      S7LowerRows();
    case _ =>
      S8UpperRows();
      S8LowerRows();
  }

  lemma AcrossFar(box: nat)
    requires box < 8
    ensures RowsFar(SelectionRow(box, 0), SelectionRow(box, 1)) && RowsFar(SelectionRow(box, 2), SelectionRow(box, 3))
    ensures RowsFar(SelectionRow(box, 0), SelectionRow(box, 2)) && RowsFar(SelectionRow(box, 1), SelectionRow(box, 3))
  {
    hide RowsFar, S1, S2, S3, S4, S5, S6, S7, S8;
    match box
    case 0 => S1Across();
    case 1 => S2Across();
    case 2 => S3Across();
    case 3 => S4Across();
    case 4 => S5Across();
    case 5 => S6Across();
    case 6 => S7Across();
    case _ => S8Across();
  }

  lemma FarBothWays(a: nat, b: nat)
    requires Far(a, b)
    ensures Far(b, a)
  {
  }

  lemma ColumnsFarAt(s: SRow, a: bool, b: bool, c: bool, d: bool)
    requires ColumnsFar(s)
    ensures Far(s[Column(false, b, c, d)], s[Column(true, b, c, d)]) && Far(s[Column(a, false, c, d)], s[Column(a, true, c, d)])
    ensures Far(s[Column(a, b, false, d)], s[Column(a, b, true, d)]) && Far(s[Column(a, b, c, false)], s[Column(a, b, c, true)])
  {
    hide Far;
  }

  lemma RowsFarAt(s: SRow, t: SRow, a: bool, b: bool, c: bool, d: bool)
    requires RowsFar(s, t)
    ensures Far(s[Column(a, b, c, d)], t[Column(a, b, c, d)])
  {
    hide Far;
  }

  lemma FalseToTrue(box: nat, six: seq<bool>, j: nat)
    requires box < 8 && |six| == 6 && j < 6 && !six[j]
    ensures Far(Select(box, six), Select(box, six[j := true]))
  {
    hide Far, Select, SelectionRow, Column, ColumnsFar, RowsFar;
    SelectValue(box, six);
    SelectValue(box, six[j := true]);
    if 1 <= j < 5 {
      RowFar(box, RowOf(six));
      ColumnsFarAt(SelectionRow(box, RowOf(six)), six[1], six[2], six[3], six[4]);
    } else {
      AcrossFar(box);
      RowsFarAt(SelectionRow(box, RowOf(six)), SelectionRow(box, RowOf(six[j := true])), six[1], six[2], six[3], six[4]);
    }
  }

  /** Changing any one of the six bits changes at least two of the four. */
  lemma OneBitChanged(box: nat, six: seq<bool>, j: nat)
    requires box < 8 && |six| == 6 && j < 6
    ensures Far(Select(box, six), Select(box, six[j := !six[j]]))
  {
    hide Far, Select;
    if six[j] {
      var other := six[j := false];
      FalseToTrue(box, other, j);
      assert other[j := true] == six;
      FarBothWays(Select(box, other), Select(box, six));
    } else {
      FalseToTrue(box, six, j);
    }
  }
}
