/**
  A known answer: the example of the electronic codebook mode in FIPS PUB 81, worked through round by
  round. It depends on every table of the cipher.
 */
module DesKnownAnswer {
  import opened DesStandard
  import opened Des
  import opened DesSelection

  // ---- bit strings as digits ----

  /** The halves of a block in digits of four bits; the halves of a key in seven. */
  datatype Eight = Eight(n0: nat, n1: nat, n2: nat, n3: nat, n4: nat, n5: nat, n6: nat, n7: nat)
  datatype Seven = Seven(n0: nat, n1: nat, n2: nat, n3: nat, n4: nat, n5: nat, n6: nat)

  function Digit(e: Eight, i: nat): nat {
    match i
    case 0 => e.n0
    case 1 => e.n1
    case 2 => e.n2
    case 3 => e.n3
    case 4 => e.n4
    case 5 => e.n5
    case 6 => e.n6
    case _ => e.n7
  }

  function SevenDigit(e: Seven, i: nat): nat {
    match i
    case 0 => e.n0
    case 1 => e.n1
    case 2 => e.n2
    case 3 => e.n3
    case 4 => e.n4
    case 5 => e.n5
    case _ => e.n6
  }

  function HalfBits(e: Eight): Half {
    seq(32, i requires 0 <= i < 32 => FourBit(Digit(e, i / 4), i % 4))
  }

  function KeyHalfBits(e: Seven): KeyHalf {
    seq(28, i requires 0 <= i < 28 => FourBit(SevenDigit(e, i / 4), i % 4))
  }

  predicate SixBit(row: nat, column: nat, j: nat) {
    if j == 0 then TwoBit(row, 0) else if j == 5 then TwoBit(row, 1) else FourBit(column, j - 1)
  }

  /** Eight groups of six bits: of each, the outer two and the inner four. */
  function SixesBits(rows: Eight, columns: Eight): RoundKey {
    seq(48, i requires 0 <= i < 48 => SixBit(Digit(rows, i / 6), Digit(columns, i / 6), i % 6))
  }

  // ---- the tables, digit by digit ----

  /** The bits of n are bit pi of p and so on. */
  predicate Picks(n: nat, p: nat, pi: nat, q: nat, qi: nat, r: nat, ri: nat, s: nat, si: nat) {
    FourBit(n, 0) == FourBit(p, pi) && FourBit(n, 1) == FourBit(q, qi) &&
    FourBit(n, 2) == FourBit(r, ri) && FourBit(n, 3) == FourBit(s, si)
  }

  /** The bits of n are those of m, exclusive or bit pi of p and so on. */
  predicate Adds(n: nat, m: nat, p: nat, pi: nat, q: nat, qi: nat, r: nat, ri: nat, s: nat, si: nat) {
    FourBit(n, 0) == (FourBit(m, 0) != FourBit(p, pi)) && FourBit(n, 1) == (FourBit(m, 1) != FourBit(q, qi)) &&
    FourBit(n, 2) == (FourBit(m, 2) != FourBit(r, ri)) && FourBit(n, 3) == (FourBit(m, 3) != FourBit(s, si))
  }

  predicate InitialLeft(a: Eight, b: Eight, l: Eight) {
    && Picks(l.n0, b.n6, 1, b.n4, 1, b.n2, 1, b.n0, 1)
    && Picks(l.n1, a.n6, 1, a.n4, 1, a.n2, 1, a.n0, 1)
    && Picks(l.n2, b.n6, 3, b.n4, 3, b.n2, 3, b.n0, 3)
    && Picks(l.n3, a.n6, 3, a.n4, 3, a.n2, 3, a.n0, 3)
    && Picks(l.n4, b.n7, 1, b.n5, 1, b.n3, 1, b.n1, 1)
    && Picks(l.n5, a.n7, 1, a.n5, 1, a.n3, 1, a.n1, 1)
    && Picks(l.n6, b.n7, 3, b.n5, 3, b.n3, 3, b.n1, 3)
    && Picks(l.n7, a.n7, 3, a.n5, 3, a.n3, 3, a.n1, 3)
  }

  predicate InitialRight(a: Eight, b: Eight, r: Eight) {
    && Picks(r.n0, b.n6, 0, b.n4, 0, b.n2, 0, b.n0, 0)
    && Picks(r.n1, a.n6, 0, a.n4, 0, a.n2, 0, a.n0, 0)
    && Picks(r.n2, b.n6, 2, b.n4, 2, b.n2, 2, b.n0, 2)
    && Picks(r.n3, a.n6, 2, a.n4, 2, a.n2, 2, a.n0, 2)
    && Picks(r.n4, b.n7, 0, b.n5, 0, b.n3, 0, b.n1, 0)
    && Picks(r.n5, a.n7, 0, a.n5, 0, a.n3, 0, a.n1, 0)
    && Picks(r.n6, b.n7, 2, b.n5, 2, b.n3, 2, b.n1, 2)
    && Picks(r.n7, a.n7, 2, a.n5, 2, a.n3, 2, a.n1, 2)
  }

  predicate FirstChoiceC(a: Eight, b: Eight, c: Seven) {
    && Picks(c.n0, b.n6, 0, b.n4, 0, b.n2, 0, b.n0, 0)
    && Picks(c.n1, a.n6, 0, a.n4, 0, a.n2, 0, a.n0, 0)
    && Picks(c.n2, b.n6, 1, b.n4, 1, b.n2, 1, b.n0, 1)
    && Picks(c.n3, a.n6, 1, a.n4, 1, a.n2, 1, a.n0, 1)
    && Picks(c.n4, b.n6, 2, b.n4, 2, b.n2, 2, b.n0, 2)
    && Picks(c.n5, a.n6, 2, a.n4, 2, a.n2, 2, a.n0, 2)
    && Picks(c.n6, b.n6, 3, b.n4, 3, b.n2, 3, b.n0, 3)
  }

  predicate FirstChoiceD(a: Eight, b: Eight, d: Seven) {
    && Picks(d.n0, b.n7, 2, b.n5, 2, b.n3, 2, b.n1, 2)
    && Picks(d.n1, a.n7, 2, a.n5, 2, a.n3, 2, a.n1, 2)
    && Picks(d.n2, b.n7, 1, b.n5, 1, b.n3, 1, b.n1, 1)
    && Picks(d.n3, a.n7, 1, a.n5, 1, a.n3, 1, a.n1, 1)
    && Picks(d.n4, b.n7, 0, b.n5, 0, b.n3, 0, b.n1, 0)
    && Picks(d.n5, a.n7, 0, a.n5, 0, a.n3, 0, a.n1, 0)
    && Picks(d.n6, a.n6, 3, a.n4, 3, a.n2, 3, a.n0, 3)
  }

  predicate ShiftedOnce(h: Seven, next: Seven) {
    && Picks(next.n0, h.n0, 1, h.n0, 2, h.n0, 3, h.n1, 0)
    && Picks(next.n1, h.n1, 1, h.n1, 2, h.n1, 3, h.n2, 0)
    && Picks(next.n2, h.n2, 1, h.n2, 2, h.n2, 3, h.n3, 0)
    && Picks(next.n3, h.n3, 1, h.n3, 2, h.n3, 3, h.n4, 0)
    && Picks(next.n4, h.n4, 1, h.n4, 2, h.n4, 3, h.n5, 0)
    && Picks(next.n5, h.n5, 1, h.n5, 2, h.n5, 3, h.n6, 0)
    && Picks(next.n6, h.n6, 1, h.n6, 2, h.n6, 3, h.n0, 0)
  }

  predicate ShiftedTwice(h: Seven, next: Seven) {
    && Picks(next.n0, h.n0, 2, h.n0, 3, h.n1, 0, h.n1, 1)
    && Picks(next.n1, h.n1, 2, h.n1, 3, h.n2, 0, h.n2, 1)
    && Picks(next.n2, h.n2, 2, h.n2, 3, h.n3, 0, h.n3, 1)
    && Picks(next.n3, h.n3, 2, h.n3, 3, h.n4, 0, h.n4, 1)
    && Picks(next.n4, h.n4, 2, h.n4, 3, h.n5, 0, h.n5, 1)
    && Picks(next.n5, h.n5, 2, h.n5, 3, h.n6, 0, h.n6, 1)
    && Picks(next.n6, h.n6, 2, h.n6, 3, h.n0, 0, h.n0, 1)
  }

  predicate SecondChoice(c: Seven, d: Seven, rows: Eight, columns: Eight) {
    && Picks(columns.n0, c.n4, 0, c.n2, 2, c.n5, 3, c.n0, 0)
    && TwoBit(rows.n0, 0) == FourBit(c.n3, 1) && TwoBit(rows.n0, 1) == FourBit(c.n1, 0)
    && Picks(columns.n1, c.n6, 3, c.n3, 2, c.n1, 1, c.n5, 0)
    && TwoBit(rows.n1, 0) == FourBit(c.n0, 2) && TwoBit(rows.n1, 1) == FourBit(c.n2, 1)
    && Picks(columns.n2, c.n4, 2, c.n2, 3, c.n0, 3, c.n6, 1)
    && TwoBit(rows.n2, 0) == FourBit(c.n5, 2) && TwoBit(rows.n2, 1) == FourBit(c.n1, 3)
    && Picks(columns.n3, c.n1, 2, c.n6, 2, c.n4, 3, c.n3, 0)
    && TwoBit(rows.n3, 0) == FourBit(c.n3, 3) && TwoBit(rows.n3, 1) == FourBit(c.n0, 1)
    && Picks(columns.n4, d.n5, 3, d.n0, 2, d.n2, 0, d.n4, 2)
    && TwoBit(rows.n4, 0) == FourBit(d.n3, 0) && TwoBit(rows.n4, 1) == FourBit(d.n6, 2)
    && Picks(columns.n5, d.n2, 3, d.n5, 2, d.n4, 0, d.n1, 0)
    && TwoBit(rows.n5, 0) == FourBit(d.n0, 1) && TwoBit(rows.n5, 1) == FourBit(d.n4, 3)
    && Picks(columns.n6, d.n5, 0, d.n2, 2, d.n6, 3, d.n1, 1)
    && TwoBit(rows.n6, 0) == FourBit(d.n3, 3) && TwoBit(rows.n6, 1) == FourBit(d.n6, 0)
    && Picks(columns.n7, d.n3, 1, d.n5, 1, d.n1, 3, d.n0, 0)
    && TwoBit(rows.n7, 0) == FourBit(d.n4, 1) && TwoBit(rows.n7, 1) == FourBit(d.n0, 3)
  }

  /** A group enters its box: its four bits with one from either side, exclusive or the key's. */
  predicate Enters(left: nat, own: nat, right: nat, krow: nat, kcolumn: nat, row: nat, column: nat) {
    && TwoBit(row, 0) == (FourBit(left, 3) != TwoBit(krow, 0)) && TwoBit(row, 1) == (FourBit(right, 0) != TwoBit(krow, 1))
    && FourBit(column, 0) == (FourBit(own, 0) != FourBit(kcolumn, 0)) && FourBit(column, 1) == (FourBit(own, 1) != FourBit(kcolumn, 1))
    && FourBit(column, 2) == (FourBit(own, 2) != FourBit(kcolumn, 2)) && FourBit(column, 3) == (FourBit(own, 3) != FourBit(kcolumn, 3))
  }

  predicate EnterBoxes(r: Eight, krow: Eight, kcolumn: Eight, row: Eight, column: Eight) {
    && Enters(r.n7, r.n0, r.n1, krow.n0, kcolumn.n0, row.n0, column.n0)
    && Enters(r.n0, r.n1, r.n2, krow.n1, kcolumn.n1, row.n1, column.n1)
    && Enters(r.n1, r.n2, r.n3, krow.n2, kcolumn.n2, row.n2, column.n2)
    && Enters(r.n2, r.n3, r.n4, krow.n3, kcolumn.n3, row.n3, column.n3)
    && Enters(r.n3, r.n4, r.n5, krow.n4, kcolumn.n4, row.n4, column.n4)
    && Enters(r.n4, r.n5, r.n6, krow.n5, kcolumn.n5, row.n5, column.n5)
    && Enters(r.n5, r.n6, r.n7, krow.n6, kcolumn.n6, row.n6, column.n6)
    && Enters(r.n6, r.n7, r.n0, krow.n7, kcolumn.n7, row.n7, column.n7)
  }

  predicate Finds(box: nat, row: nat, column: nat, out: nat) {
    row < 4 && column < 16 && SelectionRow(box, row)[column] == out
  }

  predicate FindsAll(row: Eight, column: Eight, o: Eight) {
    && Finds(0, row.n0, column.n0, o.n0)
    && Finds(1, row.n1, column.n1, o.n1)
    && Finds(2, row.n2, column.n2, o.n2)
    && Finds(3, row.n3, column.n3, o.n3)
    && Finds(4, row.n4, column.n4, o.n4)
    && Finds(5, row.n5, column.n5, o.n5)
    && Finds(6, row.n6, column.n6, o.n6)
    && Finds(7, row.n7, column.n7, o.n7)
  }

  predicate Combine(l: Eight, o: Eight, next: Eight) {
    && Adds(next.n0, l.n0, o.n3, 3, o.n1, 2, o.n4, 3, o.n5, 0)
    && Adds(next.n1, l.n1, o.n7, 0, o.n2, 3, o.n6, 3, o.n4, 0)
    && Adds(next.n2, l.n2, o.n0, 0, o.n3, 2, o.n5, 2, o.n6, 1)
    && Adds(next.n3, l.n3, o.n1, 0, o.n4, 1, o.n7, 2, o.n2, 1)
    && Adds(next.n4, l.n4, o.n0, 1, o.n1, 3, o.n5, 3, o.n3, 1)
    && Adds(next.n5, l.n5, o.n7, 3, o.n6, 2, o.n0, 2, o.n2, 0)
    && Adds(next.n6, l.n6, o.n4, 2, o.n3, 0, o.n7, 1, o.n1, 1)
    && Adds(next.n7, l.n7, o.n5, 1, o.n2, 2, o.n0, 3, o.n6, 0)
  }

  // ---- digits that fit are the bits of the tables ----

  lemma PlaceInDigits(i: nat)
    requires i < 64
    ensures i == 4 * (i / 4) + i % 4 && (i % 4 == 0 || i % 4 == 1 || i % 4 == 2 || i % 4 == 3)
    ensures i < 32 ==> i / 4 == 0 || i / 4 == 1 || i / 4 == 2 || i / 4 == 3 || i / 4 == 4 || i / 4 == 5 || i / 4 == 6 || i / 4 == 7
    ensures i >= 32 ==> i / 4 == 8 || i / 4 == 9 || i / 4 == 10 || i / 4 == 11 || i / 4 == 12 || i / 4 == 13 || i / 4 == 14 || i / 4 == 15
  {
  }

  lemma PlaceInSixes(i: nat)
    requires i < 48
    ensures i == 6 * (i / 6) + i % 6
    ensures i % 6 == 0 || i % 6 == 1 || i % 6 == 2 || i % 6 == 3 || i % 6 == 4 || i % 6 == 5
    ensures i / 6 == 0 || i / 6 == 1 || i / 6 == 2 || i / 6 == 3 || i / 6 == 4 || i / 6 == 5 || i / 6 == 6 || i / 6 == 7
  {
  }

  predicate BlockBit(a: Eight, b: Eight, p: nat) {
    if p < 32 then FourBit(Digit(a, p / 4), p % 4) else FourBit(Digit(b, (p - 32) / 4), p % 4)
  }

  lemma InitialLeftBit(a: Eight, b: Eight, l: Eight, i: nat)
    requires InitialLeft(a, b, l) && i < 32
    ensures FourBit(Digit(l, i / 4), i % 4) == BlockBit(a, b, IP(i) - 1)
  {
    hide FourBit;
    PlaceInDigits(i);
  }

  lemma InitialRightBit(a: Eight, b: Eight, r: Eight, i: nat)
    requires InitialRight(a, b, r) && i < 32
    ensures FourBit(Digit(r, i / 4), i % 4) == BlockBit(a, b, IP(i + 32) - 1)
  {
    hide FourBit;
    PlaceInDigits(i);
  }

  lemma InitialIs(a: Eight, b: Eight, l: Eight, r: Eight)
    requires InitialLeft(a, b, l) && InitialRight(a, b, r)
    ensures Permute(HalfBits(a) + HalfBits(b), 64, IP) == HalfBits(l) + HalfBits(r)
  {
    hide FourBit, IP, InitialLeft, InitialRight, Digit;
    forall i: nat | i < 64
      ensures Permute(HalfBits(a) + HalfBits(b), 64, IP)[i] == (HalfBits(l) + HalfBits(r))[i]
    {
      assert Permute(HalfBits(a) + HalfBits(b), 64, IP)[i] == (HalfBits(a) + HalfBits(b))[IP(i) - 1];
      if i < 32 {
        InitialLeftBit(a, b, l, i);
      } else {
        InitialRightBit(a, b, r, i - 32);
      }
    }
  }

  predicate HalvesBit(c: Seven, d: Seven, p: nat) {
    if p < 28 then FourBit(SevenDigit(c, p / 4), p % 4) else FourBit(SevenDigit(d, (p - 28) / 4), p % 4)
  }

  lemma FirstChoiceBitC(a: Eight, b: Eight, c: Seven, i: nat)
    requires FirstChoiceC(a, b, c) && i < 28
    ensures FourBit(SevenDigit(c, i / 4), i % 4) == BlockBit(a, b, PC1(i) - 1)
  {
    hide FourBit;
    PlaceInDigits(i);
  }

  lemma FirstChoiceBitD(a: Eight, b: Eight, d: Seven, i: nat)
    requires FirstChoiceD(a, b, d) && i < 28
    ensures FourBit(SevenDigit(d, i / 4), i % 4) == BlockBit(a, b, PC1(i + 28) - 1)
  {
    hide FourBit;
    PlaceInDigits(i);
  }

  lemma FirstChoiceIs(a: Eight, b: Eight, c: Seven, d: Seven)
    requires FirstChoiceC(a, b, c) && FirstChoiceD(a, b, d)
    ensures Permute(HalfBits(a) + HalfBits(b), 56, PC1) == KeyHalfBits(c) + KeyHalfBits(d)
  {
    hide FourBit, PC1, FirstChoiceC, FirstChoiceD, Digit, SevenDigit;
    forall i: nat | i < 56
      ensures Permute(HalfBits(a) + HalfBits(b), 56, PC1)[i] == (KeyHalfBits(c) + KeyHalfBits(d))[i]
    {
      assert Permute(HalfBits(a) + HalfBits(b), 56, PC1)[i] == (HalfBits(a) + HalfBits(b))[PC1(i) - 1];
      if i < 28 {
        FirstChoiceBitC(a, b, c, i);
      } else {
        FirstChoiceBitD(a, b, d, i - 28);
      }
    }
  }

  lemma ShiftedOnceIs(h: Seven, next: Seven)
    requires ShiftedOnce(h, next)
    ensures RotateLeft(KeyHalfBits(h), 1) == KeyHalfBits(next)
  {
    hide FourBit;
    forall i: nat | i < 28
      ensures RotateLeft(KeyHalfBits(h), 1)[i] == KeyHalfBits(next)[i]
    {
      PlaceInDigits(i);
    }
  }

  lemma ShiftedTwiceIs(h: Seven, next: Seven)
    requires ShiftedTwice(h, next)
    ensures RotateLeft(KeyHalfBits(h), 2) == KeyHalfBits(next)
  {
    hide FourBit;
    forall i: nat | i < 28
      ensures RotateLeft(KeyHalfBits(h), 2)[i] == KeyHalfBits(next)[i]
    {
      PlaceInDigits(i);
    }
  }

  lemma SecondChoiceBit(c: Seven, d: Seven, rows: Eight, columns: Eight, i: nat)
    requires SecondChoice(c, d, rows, columns) && i < 48
    ensures SixBit(Digit(rows, i / 6), Digit(columns, i / 6), i % 6) == HalvesBit(c, d, PC2(i) - 1)
  {
    hide FourBit, TwoBit;
    PlaceInSixes(i);
  }

  lemma SecondChoiceIs(c: Seven, d: Seven, rows: Eight, columns: Eight)
    requires SecondChoice(c, d, rows, columns)
    ensures Permute(Concat(KeyHalfBits(c), KeyHalfBits(d)), 48, PC2) == SixesBits(rows, columns)
  {
    hide FourBit, TwoBit, SixBit, PC2, SecondChoice, Digit, SevenDigit;
    var cd := Concat(KeyHalfBits(c), KeyHalfBits(d));
    forall i: nat | i < 48
      ensures Permute(cd, 48, PC2)[i] == SixesBits(rows, columns)[i]
    {
      assert Permute(cd, 48, PC2)[i] == cd[PC2(i) - 1];
      SecondChoiceBit(c, d, rows, columns, i);
    }
  }

  lemma EntersBit(r: Eight, krow: Eight, kcolumn: Eight, row: Eight, column: Eight, i: nat)
    requires EnterBoxes(r, krow, kcolumn, row, column) && i < 48
    ensures SixBit(Digit(row, i / 6), Digit(column, i / 6), i % 6) ==
      (FourBit(Digit(r, (E(i) - 1) / 4), (E(i) - 1) % 4) != SixBit(Digit(krow, i / 6), Digit(kcolumn, i / 6), i % 6))
  {
    hide FourBit, TwoBit;
    PlaceInSixes(i);
  }

  lemma EnterBoxesIs(r: Eight, krow: Eight, kcolumn: Eight, row: Eight, column: Eight)
    requires EnterBoxes(r, krow, kcolumn, row, column)
    ensures XorBits(Permute(HalfBits(r), 48, E), SixesBits(krow, kcolumn)) == SixesBits(row, column)
  {
    hide FourBit, SixBit, E, EnterBoxes, Digit;
    var e := Permute(HalfBits(r), 48, E);
    forall i: nat | i < 48
      ensures XorBits(e, SixesBits(krow, kcolumn))[i] == SixesBits(row, column)[i]
    {
      assert e[i] == HalfBits(r)[E(i) - 1];
      EntersBit(r, krow, kcolumn, row, column, i);
    }
  }

  lemma CombineBit(l: Eight, o: Eight, next: Eight, i: nat)
    requires Combine(l, o, next) && i < 32
    ensures FourBit(Digit(next, i / 4), i % 4) == (FourBit(Digit(l, i / 4), i % 4) != FourBit(Digit(o, (P(i) - 1) / 4), (P(i) - 1) % 4))
  {
    hide FourBit;
    PlaceInDigits(i);
  }

  lemma CombineIs(l: Eight, o: Eight, next: Eight)
    requires Combine(l, o, next)
    ensures XorBits(HalfBits(l), Permute(HalfBits(o), 32, P)) == HalfBits(next)
  {
    hide FourBit, P, Combine, Digit;
    var p := Permute(HalfBits(o), 32, P);
    forall i: nat | i < 32
      ensures XorBits(HalfBits(l), p)[i] == HalfBits(next)[i]
    {
      assert p[i] == HalfBits(o)[P(i) - 1];
      CombineBit(l, o, next, i);
    }
  }

  lemma SelectFinds(box: nat, row: nat, column: nat, six: seq<bool>)
    requires |six| == 6 && row < 4 && column < 16
    requires six[0] == TwoBit(row, 0) && six[5] == TwoBit(row, 1)
    requires six[1] == FourBit(column, 0) && six[2] == FourBit(column, 1) && six[3] == FourBit(column, 2) && six[4] == FourBit(column, 3)
    ensures Select(box, six) == SelectionRow(box, row)[column]
  {
    hide Select, SelectionRow;
    SelectValue(box, six);
    assert RowOf(six) == row && ColumnOf(six) == column;
  }

  lemma FindsAt(row: Eight, column: Eight, o: Eight, b: nat)
    requires FindsAll(row, column, o) && b < 8
    ensures Finds(b, Digit(row, b), Digit(column, b), Digit(o, b))
  {
    hide Finds;
  }

  lemma FindsAllIs(row: Eight, column: Eight, o: Eight)
    requires FindsAll(row, column, o)
    ensures SBoxes(SixesBits(row, column)) == HalfBits(o)
  {
    hide FindsAll, Select, SelectionRow, Digit, FourBit, TwoBit;
    var x := SixesBits(row, column);
    forall i: nat | i < 32
      ensures SBoxes(x)[i] == HalfBits(o)[i]
    {
      var b := i / 4;
      FindsAt(row, column, o, b);
      SelectFinds(b, Digit(row, b), Digit(column, b), x[6 * b..6 * b + 6]);
      DigitSpelled(Digit(o, b), i % 4);
    }
  }

  /** A round that fits is a round of the cipher. */
  lemma RoundIs(i: nat)
    requires i < 16 && Fits(i) && Holds(i)
    ensures XorBits(HalfBits(Halves(i)), CipherFunction(HalfBits(Halves(i + 1)), SixesBits(KeyRows(i), KeyColumns(i)), SaltOf(0))) ==
      HalfBits(Halves(i + 2))
  {
    hide CipherFunction, SBoxes, Permute, XorBits, E, P, HalfBits, SixesBits, EnterBoxes, FindsAll, Combine, SecondChoice;
    hide ShiftedOnce, ShiftedTwice, Halves, KeyRows, KeyColumns, Rows, Columns, Found;
    EnterBoxesIs(Halves(i + 1), KeyRows(i), KeyColumns(i), Rows(i), Columns(i));
    FindsAllIs(Rows(i), Columns(i), Found(i));
    CombineIs(Halves(i), Found(i), Halves(i + 2));
    UnsaltedIsStandard(HalfBits(Halves(i + 1)), SixesBits(KeyRows(i), KeyColumns(i)));
  }

  // ---- the example ----

  /** The halves of the block: the left one after the initial permutation, then the right one before each round and after the last. */
  function Halves(i: nat): Eight {
    match i
    case 0 => Eight(11, 7, 10, 4, 8, 7, 3, 6)
    case 1 => Eight(0, 0, 15, 14, 1, 3, 2, 7)
    case 2 => Eight(12, 9, 14, 15, 14, 3, 7, 9)
    case 3 => Eight(12, 2, 2, 5, 13, 7, 1, 7)
    case 4 => Eight(1, 14, 15, 12, 7, 3, 8, 4)
    case 5 => Eight(7, 6, 15, 2, 11, 3, 13, 14)
    case 6 => Eight(1, 0, 13, 5, 5, 3, 8, 0)
    case 7 => Eight(14, 9, 0, 7, 3, 9, 15, 13)
    case 8 => Eight(5, 7, 2, 3, 3, 7, 15, 0)
    case 9 => Eight(12, 13, 9, 9, 6, 8, 14, 4)
    case 10 => Eight(2, 5, 6, 10, 9, 6, 11, 9)
    case 11 => Eight(8, 0, 4, 9, 12, 2, 4, 12)
    case 12 => Eight(10, 1, 6, 6, 3, 10, 10, 6)
    case 13 => Eight(11, 7, 1, 4, 14, 0, 9, 9)
    case 14 => Eight(10, 3, 14, 11, 2, 12, 4, 6)
    case 15 => Eight(11, 9, 4, 13, 10, 9, 6, 5)
    case 16 => Eight(1, 10, 0, 3, 7, 13, 0, 13)
    case _ => Eight(6, 0, 9, 1, 10, 7, 10, 1)
  }

  /** C before the first round and after each shift. */
  function CHalf(i: nat): Seven {
    match i
    case 0 => Seven(15, 0, 12, 12, 10, 10, 0)
    case 1 => Seven(14, 1, 9, 9, 5, 4, 1)
    case 2 => Seven(12, 3, 3, 2, 10, 8, 3)
    case 3 => Seven(0, 12, 12, 10, 10, 0, 15)
    case 4 => Seven(3, 3, 2, 10, 8, 3, 12)
    case 5 => Seven(12, 12, 10, 10, 0, 15, 0)
    case 6 => Seven(3, 2, 10, 8, 3, 12, 3)
    case 7 => Seven(12, 10, 10, 0, 15, 0, 12)
    case 8 => Seven(2, 10, 8, 3, 12, 3, 3)
    case 9 => Seven(5, 5, 0, 7, 8, 6, 6)
    case 10 => Seven(5, 4, 1, 14, 1, 9, 9)
    case 11 => Seven(5, 0, 7, 8, 6, 6, 5)
    case 12 => Seven(4, 1, 14, 1, 9, 9, 5)
    case 13 => Seven(0, 7, 8, 6, 6, 5, 5)
    case 14 => Seven(1, 14, 1, 9, 9, 5, 4)
    case 15 => Seven(7, 8, 6, 6, 5, 5, 0)
    case _ => Seven(15, 0, 12, 12, 10, 10, 0)
  }

  /** D likewise. */
  function DHalf(i: nat): Seven {
    match i
    case 0 => Seven(10, 10, 12, 12, 15, 0, 0)
    case 1 => Seven(5, 5, 9, 9, 14, 0, 1)
    case 2 => Seven(10, 11, 3, 3, 12, 0, 2)
    case 3 => Seven(10, 12, 12, 15, 0, 0, 10)
    case 4 => Seven(11, 3, 3, 12, 0, 2, 10)
    case 5 => Seven(12, 12, 15, 0, 0, 10, 10)
    case 6 => Seven(3, 3, 12, 0, 2, 10, 11)
    case 7 => Seven(12, 15, 0, 0, 10, 10, 12)
    case 8 => Seven(3, 12, 0, 2, 10, 11, 3)
    case 9 => Seven(7, 8, 0, 5, 5, 6, 6)
    case 10 => Seven(14, 0, 1, 5, 5, 9, 9)
    case 11 => Seven(8, 0, 5, 5, 6, 6, 7)
    case 12 => Seven(0, 1, 5, 5, 9, 9, 14)
    case 13 => Seven(0, 5, 5, 6, 6, 7, 8)
    case 14 => Seven(1, 5, 5, 9, 9, 14, 0)
    case 15 => Seven(5, 5, 6, 6, 7, 8, 0)
    case _ => Seven(10, 10, 12, 12, 15, 0, 0)
  }

  /** The round keys: the outer two bits of each six, and the inner four. */
  function KeyRows(i: nat): Eight {
    match i
    case 0 => Eight(0, 2, 1, 3, 2, 2, 2, 3)
    case 1 => Eight(0, 0, 1, 1, 1, 0, 2, 2)
    case 2 => Eight(1, 1, 0, 0, 3, 0, 3, 0)
    case 3 => Eight(0, 2, 3, 0, 3, 0, 1, 1)
    case 4 => Eight(1, 0, 2, 1, 1, 2, 1, 0)
    case 5 => Eight(0, 2, 0, 0, 1, 0, 1, 1)
    case 6 => Eight(1, 0, 0, 1, 0, 2, 1, 0)
    case 7 => Eight(1, 2, 2, 2, 1, 0, 0, 1)
    case 8 => Eight(2, 0, 3, 3, 1, 3, 2, 3)
    case 9 => Eight(2, 0, 0, 1, 0, 3, 3, 2)
    case 10 => Eight(0, 1, 2, 1, 1, 0, 2, 2)
    case 11 => Eight(0, 1, 1, 3, 1, 1, 3, 0)
    case 12 => Eight(2, 0, 1, 0, 0, 0, 1, 2)
    case 13 => Eight(1, 0, 0, 2, 2, 1, 2, 1)
    case 14 => Eight(3, 3, 0, 1, 0, 3, 0, 3)
    case _ => Eight(2, 3, 2, 1, 2, 1, 0, 2)
  }

  function KeyColumns(i: nat): Eight {
    match i
    case 0 => Eight(1, 8, 4, 3, 3, 10, 3, 2)
    case 1 => Eight(13, 13, 12, 12, 4, 11, 4, 3)
    case 2 => Eight(8, 14, 9, 5, 6, 1, 1, 9)
    case 3 => Eight(14, 4, 3, 9, 4, 12, 4, 11)
    case 4 => Eight(7, 7, 0, 1, 2, 13, 13, 1)
    case 5 => Eight(4, 9, 10, 15, 7, 4, 10, 2)
    case 6 => Eight(13, 0, 9, 10, 1, 7, 9, 3)
    case 7 => Eight(10, 12, 0, 12, 13, 7, 11, 0)
    case 8 => Eight(8, 6, 3, 4, 4, 5, 0, 12)
    case 9 => Eight(2, 15, 6, 3, 12, 8, 10, 9)
    case 10 => Eight(4, 8, 15, 1, 1, 12, 2, 13)
    case 11 => Eight(14, 9, 1, 2, 8, 10, 8, 10)
    case 12 => Eight(2, 14, 9, 8, 9, 12, 1, 14)
    case 13 => Eight(10, 2, 7, 11, 0, 14, 9, 6)
    case 14 => Eight(6, 4, 2, 2, 1, 0, 13, 10)
    case _ => Eight(9, 1, 10, 1, 7, 3, 0, 9)
  }

  /** The rows and columns each round looks up. */
  function Rows(i: nat): Eight {
    match i
    case 0 => Eight(2, 3, 0, 1, 2, 0, 0, 3)
    case 1 => Eight(3, 1, 2, 0, 3, 0, 1, 1)
    case 2 => Eight(3, 1, 0, 1, 1, 2, 1, 3)
    case 3 => Eight(1, 1, 2, 2, 3, 3, 3, 1)
    case 4 => Eight(1, 3, 2, 2, 1, 1, 2, 2)
    case 5 => Eight(0, 1, 0, 2, 3, 3, 3, 1)
    case 6 => Eight(2, 0, 2, 1, 3, 1, 2, 3)
    case 7 => Eight(1, 0, 0, 2, 3, 3, 2, 3)
    case 8 => Eight(3, 1, 0, 1, 2, 2, 2, 2)
    case 9 => Eight(0, 0, 3, 0, 0, 0, 2, 0)
    case 10 => Eight(0, 1, 3, 0, 3, 0, 3, 3)
    case 11 => Eight(0, 1, 3, 3, 0, 2, 3, 1)
    case 12 => Eight(0, 2, 3, 3, 0, 1, 0, 1)
    case 13 => Eight(1, 1, 3, 2, 1, 1, 2, 0)
    case 14 => Eight(0, 1, 3, 0, 3, 3, 2, 2)
    case _ => Eight(1, 1, 2, 1, 1, 3, 3, 2)
  }

  function Columns(i: nat): Eight {
    match i
    case 0 => Eight(1, 8, 11, 13, 2, 9, 1, 5)
    case 1 => Eight(1, 4, 2, 3, 10, 8, 3, 10)
    case 2 => Eight(4, 12, 11, 0, 11, 6, 0, 14)
    case 3 => Eight(15, 10, 12, 5, 3, 15, 12, 15)
    case 4 => Eight(0, 1, 15, 3, 9, 14, 0, 15)
    case 5 => Eight(5, 9, 7, 10, 2, 7, 2, 2)
    case 6 => Eight(3, 9, 9, 13, 2, 14, 6, 14)
    case 7 => Eight(15, 11, 2, 15, 14, 0, 4, 0)
    case 8 => Eight(4, 11, 10, 13, 2, 13, 14, 8)
    case 9 => Eight(0, 10, 0, 9, 5, 14, 1, 0)
    case 10 => Eight(12, 8, 11, 8, 13, 14, 6, 1)
    case 11 => Eight(4, 8, 7, 4, 11, 0, 2, 12)
    case 12 => Eight(9, 9, 8, 12, 7, 12, 8, 7)
    case 13 => Eight(0, 1, 9, 0, 2, 2, 13, 0)
    case 14 => Eight(13, 13, 6, 15, 11, 9, 11, 15)
    case _ => Eight(8, 11, 10, 2, 0, 14, 0, 4)
  }

  /** What it finds there. */
  function Found(i: nat): Eight {
    match i
    case 0 => Eight(1, 11, 7, 10, 1, 13, 11, 10)
    case 1 => Eight(12, 15, 4, 3, 0, 0, 7, 6)
    case 2 => Eight(4, 6, 7, 13, 10, 12, 13, 6)
    case 3 => Eight(8, 1, 5, 11, 7, 13, 14, 2)
    case 4 => Eight(0, 8, 7, 0, 0, 3, 1, 8)
    case 5 => Eight(15, 0, 5, 3, 12, 10, 13, 13)
    case 6 => Eight(8, 7, 1, 10, 12, 3, 7, 6)
    case 7 => Eight(8, 13, 9, 4, 5, 4, 12, 2)
    case 8 => Eight(4, 10, 12, 10, 1, 13, 9, 0)
    case 9 => Eight(14, 2, 1, 2, 10, 5, 4, 13)
    case 10 => Eight(5, 12, 3, 1, 4, 5, 10, 1)
    case 11 => Eight(2, 12, 7, 10, 15, 9, 13, 0)
    case 12 => Eight(10, 8, 4, 12, 6, 0, 3, 4)
    case 13 => Eight(0, 13, 15, 10, 2, 4, 5, 13)
    case 14 => Eight(9, 9, 8, 15, 9, 14, 8, 8)
    case _ => Eight(10, 10, 2, 11, 14, 8, 6, 9)
  }

  /** The boxes of round i hold what is found. */
  predicate Holds(i: nat) {
    FindsAll(Rows(i), Columns(i), Found(i))
  }

  /** The rest of round i fits, and so does its round key. */
  predicate Fits(i: nat) {
    && EnterBoxes(Halves(i + 1), KeyRows(i), KeyColumns(i), Rows(i), Columns(i))
    && Combine(Halves(i), Found(i), Halves(i + 2))
    && SecondChoice(CHalf(i + 1), DHalf(i + 1), KeyRows(i), KeyColumns(i))
  }

  predicate Shifts(i: nat) {
    if KeyShift(i) == 1 then ShiftedOnce(CHalf(i), CHalf(i + 1)) && ShiftedOnce(DHalf(i), DHalf(i + 1))
    else ShiftedTwice(CHalf(i), CHalf(i + 1)) && ShiftedTwice(DHalf(i), DHalf(i + 1))
  }

  lemma ShiftsFirst(i: nat)
    requires i < 8
    ensures Shifts(i)
  {
  }

  lemma ShiftsLast(i: nat)
    requires 8 <= i < 16
    ensures Shifts(i)
  {
  }

  lemma Round1()
    ensures Fits(0)
  {
  }

  lemma Boxes1()
    ensures Holds(0)
  {
  }

  lemma Round2()
    ensures Fits(1)
  {
  }

  lemma Boxes2()
    ensures Holds(1)
  {
  }

  lemma Round3()
    ensures Fits(2)
  {
  }

  lemma Boxes3()
    ensures Holds(2)
  {
  }

  lemma Round4()
    ensures Fits(3)
  {
  }

  lemma Boxes4()
    ensures Holds(3)
  {
  }

  lemma Round5()
    ensures Fits(4)
  {
  }

  lemma Boxes5()
    ensures Holds(4)
  {
  }

  lemma Round6()
    ensures Fits(5)
  {
  }

  lemma Boxes6()
    ensures Holds(5)
  {
  }

  lemma Round7()
    ensures Fits(6)
  {
  }

  lemma Boxes7()
    ensures Holds(6)
  {
  }

  lemma Round8()
    ensures Fits(7)
  {
  }

  lemma Boxes8()
    ensures Holds(7)
  {
  }

  lemma Round9()
    ensures Fits(8)
  {
  }

  lemma Boxes9()
    ensures Holds(8)
  {
  }

  lemma Round10()
    ensures Fits(9)
  {
  }

  lemma Boxes10()
    ensures Holds(9)
  {
  }

  lemma Round11()
    ensures Fits(10)
  {
  }

  lemma Boxes11()
    ensures Holds(10)
  {
  }

  lemma Round12()
    ensures Fits(11)
  {
  }

  lemma Boxes12()
    ensures Holds(11)
  {
  }

  lemma Round13()
    ensures Fits(12)
  {
  }

  lemma Boxes13()
    ensures Holds(12)
  {
  }

  lemma Round14()
    ensures Fits(13)
  {
  }

  lemma Boxes14()
    ensures Holds(13)
  {
  }

  lemma Round15()
    ensures Fits(14)
  {
  }

  lemma Boxes15()
    ensures Holds(14)
  {
  }

  lemma Round16()
    ensures Fits(15)
  {
  }

  lemma Boxes16()
    ensures Holds(15)
  {
  }

  lemma EveryRound(i: nat)
    requires i < 16
    ensures Fits(i) && Holds(i)
  {
    hide Fits, Holds;
    match i
    case 0 =>
      Round1();
      Boxes1();
    case 1 =>
      Round2();
      Boxes2();
    case 2 =>
      Round3();
      Boxes3();
    case 3 =>
      Round4();
      Boxes4();
    case 4 =>
      Round5();
      Boxes5();
    case 5 =>
      Round6();
      Boxes6();
    case 6 =>
      Round7();
      Boxes7();
    case 7 =>
      Round8();
      Boxes8();
    case 8 =>
      Round9();
      Boxes9();
    case 9 =>
      Round10();
      Boxes10();
    case 10 =>
      Round11();
      Boxes11();
    case 11 =>
      Round12();
      Boxes12();
    case 12 =>
      Round13();
      Boxes13();
    case 13 =>
      Round14();
      Boxes14();
    case 14 =>
      Round15();
      Boxes15();
    case _ =>
      Round16();
      Boxes16();
  }

  lemma {:induction false} HalvesShifted(n: nat)
    requires n <= 16
    ensures Shifted(KeyHalfBits(CHalf(0)), n) == KeyHalfBits(CHalf(n)) && Shifted(KeyHalfBits(DHalf(0)), n) == KeyHalfBits(DHalf(n))
  {
    hide KeyHalfBits, CHalf, DHalf, ShiftedOnce, ShiftedTwice, RotateLeft, EnterBoxes, FindsAll, Combine, SecondChoice;
    if n > 0 {
      HalvesShifted(n - 1);
      if n <= 8 {
        ShiftsFirst(n - 1);
      } else {
        ShiftsLast(n - 1);
      }
      if KeyShift(n - 1) == 1 {
        ShiftedOnceIs(CHalf(n - 1), CHalf(n));
        ShiftedOnceIs(DHalf(n - 1), DHalf(n));
      } else {
        ShiftedTwiceIs(CHalf(n - 1), CHalf(n));
        ShiftedTwiceIs(DHalf(n - 1), DHalf(n));
      }
    }
  }

  /** The key, the plain text and the cipher text of the example, in hexadecimal digits. */
  function Key(): Block {
    HalfBits(Eight(0, 1, 2, 3, 4, 5, 6, 7)) + HalfBits(Eight(8, 9, 10, 11, 12, 13, 14, 15))
  }

  function PlainText(): Block {
    HalfBits(Eight(4, 14, 6, 15, 7, 7, 2, 0)) + HalfBits(Eight(6, 9, 7, 3, 2, 0, 7, 4))
  }

  function CipherText(): Block {
    HalfBits(Eight(3, 15, 10, 4, 0, 14, 8, 10)) + HalfBits(Eight(9, 8, 4, 13, 4, 8, 1, 5))
  }

  lemma KeyChosen()
    ensures Permute(Key(), 56, PC1) == KeyHalfBits(CHalf(0)) + KeyHalfBits(DHalf(0))
  {
    hide HalfBits, KeyHalfBits, Permute;
    FirstChoiceIs(Eight(0, 1, 2, 3, 4, 5, 6, 7), Eight(8, 9, 10, 11, 12, 13, 14, 15), CHalf(0), DHalf(0));
  }

  lemma RoundKeyIs(i: nat)
    requires i < 16
    ensures ScheduleKey(Key(), i) == SixesBits(KeyRows(i), KeyColumns(i))
  {
    hide HalfBits, KeyHalfBits, SixesBits, Permute, Shifted, SecondChoice, CHalf, DHalf, KeyRows, KeyColumns, Key, Concat;
    hide EnterBoxes, FindsAll, Combine, ShiftedOnce, ShiftedTwice, PC1, PC2;
    KeyChosen();
    HalvesShifted(i + 1);
    EveryRound(i);
    SecondChoiceIs(CHalf(i + 1), DHalf(i + 1), KeyRows(i), KeyColumns(i));
    var cd := Permute(Key(), 56, PC1);
    assert cd[..28] == KeyHalfBits(CHalf(0)) && cd[28..] == KeyHalfBits(DHalf(0));
  }

  lemma {:induction false} RoundsAre(n: nat)
    requires n <= 16
    ensures Rounds(HalfBits(Halves(0)), HalfBits(Halves(1)), Schedule(Key())[..n], SaltOf(0)) ==
      (HalfBits(Halves(n)), HalfBits(Halves(n + 1)))
  {
    hide HalfBits, SixesBits, CipherFunction, XorBits, ScheduleKey, Halves, KeyRows, KeyColumns, Key, Fits, Holds;
    if n > 0 {
      RoundsAre(n - 1);
      EveryRound(n - 1);
      RoundIs(n - 1);
      RoundKeyIs(n - 1);
      var keys := Schedule(Key());
      assert keys[..n] == keys[..n - 1] + [keys[n - 1]];
      RoundsAppend(HalfBits(Halves(0)), HalfBits(Halves(1)), keys[..n - 1], keys[n - 1], SaltOf(0));
    }
  }

  lemma TextsPermuted()
    ensures Permute(PlainText(), 64, IP) == HalfBits(Halves(0)) + HalfBits(Halves(1))
    ensures Permute(CipherText(), 64, IP) == HalfBits(Halves(17)) + HalfBits(Halves(16))
  {
    hide HalfBits, Permute;
    InitialIs(Eight(4, 14, 6, 15, 7, 7, 2, 0), Eight(6, 9, 7, 3, 2, 0, 7, 4), Halves(0), Halves(1));
    InitialIs(Eight(3, 15, 10, 4, 0, 14, 8, 10), Eight(9, 8, 4, 13, 4, 8, 1, 5), Halves(17), Halves(16));
  }

  /** "Now is t" under the key 0123456789ABCDEF, once and without salt, is 3FA40E8A984D4815. */
  lemma KnownAnswer()
    ensures Crypted(PlainText(), Key(), 0, 1) == CipherText()
  {
    hide HalfBits, Halves, Key, PlainText, CipherText, Schedule, Rounds, Permute, IP, InverseIP;
    var keys, before := Schedule(Key()), Permute(PlainText(), 64, IP);
    TextsPermuted();
    RoundsAre(16);
    assert keys[..16] == keys;
    assert before[..32] == HalfBits(Halves(0)) && before[32..] == HalfBits(Halves(1));
    var after := Pass(before, keys, SaltOf(0));
    assert after == Permute(CipherText(), 64, IP);
    assert Passes(after, keys, SaltOf(0), 0) == after;
    PermutationsUndo(CipherText());
  }
}
