/**
  What the shifts of the key schedule are for: between two semi-weak keys deciphering with one is
  enciphering with the other.
 */
module DesKeys {
  import opened Words
  import opened DesStandard
  import opened Des

  /** The total shift before each round. */
  lemma ShiftTable(r: nat)
    requires 1 <= r <= 16
    ensures TotalShift(r) == [1, 2, 4, 6, 8, 10, 12, 14, 15, 17, 19, 21, 23, 25, 27, 28][r - 1]
  {
    assert TotalShift(1) == 1 && TotalShift(2) == 2 && TotalShift(3) == 4 && TotalShift(4) == 6;
    assert TotalShift(5) == 8 && TotalShift(6) == 10 && TotalShift(7) == 12 && TotalShift(8) == 14;
    assert TotalShift(9) == 15 && TotalShift(10) == 17 && TotalShift(11) == 19 && TotalShift(12) == 21;
    assert TotalShift(13) == 23 && TotalShift(14) == 25 && TotalShift(15) == 27 && TotalShift(16) == 28;
  }

  /** The shifts up to a round and those up to its mirror image add up to 29. */
  lemma ShiftsMirrored(r: nat)
    requires 1 <= r <= 16
    ensures TotalShift(r) + TotalShift(17 - r) == 29
  {
    ShiftTable(r);
    ShiftTable(17 - r);
  }

  /** A key half that repeats after two bits. */
  ghost predicate Alternates(h: KeyHalf) {
    forall i :: 0 <= i < 26 ==> h[i + 2] == h[i]
  }

  lemma {:induction false} AlternatesAt(h: KeyHalf, i: nat)
    requires Alternates(h) && i < 28
    ensures h[i] == h[i % 2]
  {
    if i >= 2 {
      AlternatesAt(h, i - 2);
      assert h[i - 2 + 2] == h[i - 2];
    }
  }

  lemma AlternatingRotated(h: KeyHalf, k: nat, i: nat)
    requires Alternates(h) && k <= 28 && i < 28
    ensures RotateLeft(h, k)[i] == h[(i + k) % 2]
  {
    AlternatesAt(h, if i + k < 28 then i + k else i + k - 28);
  }

  lemma MirroredBit(h: KeyHalf, a: nat, b: nat, i: nat)
    requires Alternates(h) && a + b == 29 && 1 <= a <= 28 && i < 28
    ensures RotateLeft(RotateLeft(h, 1), a)[i] == RotateLeft(h, b)[i]
  {
    var j := if i + a < 28 then i + a else i + a - 28;
    assert RotateLeft(RotateLeft(h, 1), a)[i] == RotateLeft(h, 1)[j];
    hide RotateLeft;
    AlternatingRotated(h, b, i);
    AlternatingRotated(h, 1, j);
  }

  /** Rotated by one more, to the shifts of the mirrored round: the same bits. */
  lemma MirroredHalf(h: KeyHalf, r: nat)
    requires Alternates(h) && 1 <= r <= 16
    ensures Shifted(RotateLeft(h, 1), r) == Shifted(h, 17 - r)
  {
    ShiftsMirrored(r);
    ShiftedIsRotation(RotateLeft(h, 1), r);
    ShiftedIsRotation(h, 17 - r);
    var a, b := TotalShift(r), TotalShift(17 - r);
    hide TotalShift, Shifted, RotateLeft, Alternates;
    forall i | 0 <= i < 28
      ensures RotateLeft(RotateLeft(h, 1), a)[i] == RotateLeft(h, b)[i]
    {
      MirroredBit(h, a, b, i);
    }
  }

  /** Both halves of the first key repeat after two bits, and those of the second are the same, one on. */
  ghost predicate SemiWeak(k: Block, k2: Block) {
    var cd, cd2 := Permute(k, 56, PC1), Permute(k2, 56, PC1);
    && Alternates(cd[..28]) && Alternates(cd[28..])
    && cd2[..28] == RotateLeft(cd[..28], 1) && cd2[28..] == RotateLeft(cd[28..], 1)
  }

  lemma MirroredRound(k: Block, k2: Block, round: nat)
    requires SemiWeak(k, k2) && round < 16
    ensures ScheduleKey(k2, round) == ScheduleKey(k, 15 - round)
  {
    hide PC1, PC2, Permute, Shifted, Alternates;
    var cd := Permute(k, 56, PC1);
    MirroredHalf(cd[..28], round + 1);
    MirroredHalf(cd[28..], round + 1);
  }

  /** The round keys of the one are those of the other, backwards. */
  lemma SchedulesMirrored(k: Block, k2: Block)
    requires SemiWeak(k, k2)
    ensures Schedule(k2) == Reverse(Schedule(k))
  {
    hide ScheduleKey, SemiWeak;
    forall round | 0 <= round < 16
      ensures Schedule(k2)[round] == Reverse(Schedule(k))[round]
    {
      MirroredRound(k, k2, round);
    }
  }

  /** Enciphering with the second key undoes enciphering with the first. */
  lemma SemiWeakUndo(block: Block, k: Block, k2: Block, salt: nat, count: nat)
    requires SemiWeak(k, k2) && count > 0
    ensures Crypted(Crypted(block, k, salt, count), k2, salt, count) == block
  {
    SchedulesMirrored(k, k2);
    hide Encipher, Schedule, SemiWeak;
    DecipherUndoesEncipher(block, Schedule(k), SaltOf(salt), count);
  }

  /** A key whose halves are each all zeros or all ones enciphers back what it enciphered. */
  lemma WeakKeyUndo(block: Block, k: Block, salt: nat, count: nat)
    requires var cd := Permute(k, 56, PC1);
      (forall i :: 0 <= i < 28 ==> cd[i] == cd[0]) && (forall i :: 28 <= i < 56 ==> cd[i] == cd[28])
    requires count > 0
    ensures Crypted(Crypted(block, k, salt, count), k, salt, count) == block
  {
    hide Crypted, PC1;
    SemiWeakUndo(block, k, k, salt, count);
  }
}
