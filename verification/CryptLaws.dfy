/**
  What the strings of xcrypt mean: which bits of a key count, how the two kinds of setting agree, and
  that nothing is lost when a long key is folded.
 */
module CryptLaws {
  import opened Powers
  import opened Words
  import opened HostBytes
  import opened Wrappers
  import opened DesStandard
  import opened DesWords
  import opened Des
  import opened Crypt

  /** The sixty-four characters in their order. */
  const DIGITS := "./0123456789"
  const CAPITALS := "ABCDEFGHIJKLMNOPQRSTUVWXYZ"
  const SMALL := "abcdefghijklmnopqrstuvwxyz"

  function Alphabet(): string {
    DIGITS + CAPITALS + SMALL
  }

  lemma InOrder(k: nat)
    requires k < 26
    ensures CAPITALS[k] as nat == k + 'A' as nat && SMALL[k] as nat == k + 'a' as nat
    ensures k < 12 ==> DIGITS[k] as nat == k + '.' as nat
  {
    if k < 9 {
      assert k == 0 || k == 1 || k == 2 || k == 3 || k == 4 || k == 5 || k == 6 || k == 7 || k == 8;
    } else if k < 18 {
      assert k == 9 || k == 10 || k == 11 || k == 12 || k == 13 || k == 14 || k == 15 || k == 16 || k == 17;
    } else {
      assert k == 18 || k == 19 || k == 20 || k == 21 || k == 22 || k == 23 || k == 24 || k == 25;
    }
  }

  lemma AlphabetInOrder(i: nat)
    requires i < 64
    ensures |Alphabet()| == 64 && Ascii64(i) == Alphabet()[i] as nat
  {
    var k := if i < 12 then i else if i < 38 then i - 12 else i - 38;
    InOrder(k);
  }

  /** A character other than these counts as the first. */
  lemma OutsideAlphabet(ch: Byte)
    ensures AsciiToBin(ch) == 0 || Ascii64(AsciiToBin(ch)) == ch
  {
  }

  // ---- the bits of the key ----

  /** Character i of a key gives its seven low bits to byte i of the block, whose last bit stays clear. */
  lemma KeyBits(key: Text, i: nat, j: nat)
    requires |key| <= 8 && (forall k :: 0 <= k < |key| ==> key[k] < 128) && i < 8 && j < 8
    ensures BytesToBlock(FirstKey(key))[8 * i + j] <==> i < |key| && j < 7 && Bit(key[i], 6 - j)
  {
    ShortLead(key);
    BlockBit(FirstKey(key), i, j);
    hide Bit, BytesToBlock;
    if i < |key| {
      DoubledBits(key[i], j);
    } else {
      BitOfZero(7 - j);
    }
  }

  lemma BlockBit(b: seq<Byte>, i: nat, j: nat)
    requires |b| == 8 && i < 8 && j < 8
    ensures BytesToBlock(b)[8 * i + j] == Bit(b[i], 7 - j)
  {
    ToBitsAt(b[i], 8, j);
    hide ToBits, Bit;
    assert (8 * i + j) / 8 == i && (8 * i + j) % 8 == j;
  }

  lemma DoubledBits(c: Byte, j: nat)
    requires c < 128 && j < 8
    ensures Bit(Doubled(c), 7 - j) == (j < 7 && Bit(c, 6 - j))
  {
    assert Doubled(c) / 2 == c;
  }

  /** Without characters that double to zero the whole key is copied. */
  lemma {:induction false} ShortLead(key: seq<Byte>)
    requires forall i :: 0 <= i < |key| ==> 0 < key[i] < 128
    ensures Lead(key) == |key|
  {
    if key != [] {
      ShortLead(key[1..]);
    }
  }

  // ---- old and new settings ----

  /** The new-style setting for 25 passes with the salt of an old-style one. */
  function NewStyle(setting: Text): Text
    requires |setting| >= 1
  {
    var second: Byte := if |setting| > 1 then setting[1] else '.' as nat;
    ['_' as nat, 'N' as nat, '.' as nat, '.' as nat, '.' as nat, setting[0], second, '.' as nat, '.' as nat]
  }

  lemma FourDigits(a: Byte, b: Byte, c: Byte, d: Byte)
    ensures LittleEndian64([a, b, c, d]) == AsciiToBin(a) + 64 * (AsciiToBin(b) + 64 * LittleEndian64([c, d]))
  {
    hide AsciiToBin;
    assert [a, b, c, d][1..] == [b, c, d] && [b, c, d][1..] == [c, d];
  }

  lemma TwoDigits(a: Byte, b: Byte)
    ensures LittleEndian64([a, b]) == AsciiToBin(a) + 64 * AsciiToBin(b)
  {
    hide AsciiToBin;
    assert [a, b][1..] == [b] && [b][1..] == [];
    assert LittleEndian64([b]) == AsciiToBin(b);
  }

  /** In the new style the number 25 is spelled out; the salt is the same. */
  lemma NewStyleNumbers(setting: Text)
    requires WellFormed(setting) && setting[0] != '_' as nat
    ensures WellFormed(NewStyle(setting)) && CountOf(NewStyle(setting)) == 25
    ensures SaltNumber(NewStyle(setting)) == SaltNumber(setting)
  {
    var s := NewStyle(setting);
    FourDigits(s[1], s[2], s[3], s[4]);
    FourDigits(s[5], s[6], s[7], s[8]);
    TwoDigits(s[3], s[4]);
    TwoDigits(s[7], s[8]);
    TwoDigits(setting[0], Second(setting));
    assert s[1..5] == [s[1], s[2], s[3], s[4]] && s[5..9] == [s[5], s[6], s[7], s[8]];
    hide LittleEndian64;
  }

  lemma NewStyleKey(key: Text, setting: Text)
    requires |key| <= 8 && (forall k :: 0 <= k < |key| ==> key[k] < 128)
    requires WellFormed(setting) && WellFormed(NewStyle(setting)) && setting[0] != '_' as nat
    ensures KeyOf(key, NewStyle(setting)) == KeyOf(key, setting)
  {
    ShortLead(key);
    assert key[Copied(key)..] == [];
  }

  /** For a key of at most eight characters the old and the new style agree: an old-style setting means 25
      passes, and both strings end in the same eleven characters. */
  lemma StylesAgree(key: Text, setting: Text)
    requires |key| <= 8 && (forall k :: 0 <= k < |key| ==> key[k] < 128)
    requires WellFormed(setting) && setting[0] != '_' as nat
    ensures WellFormed(NewStyle(setting))
    ensures var old1, new1 := CryptString(key, setting), CryptString(key, NewStyle(setting));
      old1.Some? && new1.Some? && |old1.value| == 13 && |new1.value| == 20 && old1.value[2..] == new1.value[9..]
  {
    NewStyleNumbers(setting);
    NewStyleKey(key, setting);
    hide KeyOf, SaltNumber, Spell, Crypted, BytesToBlock, BlockOf, NewStyle;
    var old1, new1 := CryptString(key, setting), CryptString(key, NewStyle(setting));
  }

  // ---- folding ----

  /** The combination with more characters is its own inverse. */
  function Combined(a: seq<Byte>, rest: seq<Byte>): (b: seq<Byte>)
    requires |a| == 8
    ensures |b| == 8
  {
    seq(8, i requires 0 <= i < 8 => if i < |rest| then XorOfBytes(a[i], (2 * rest[i] as int) % 256) else a[i])
  }

  /** From a folded key, the key before and the characters taken: one decipherment gives the key before. */
  lemma FoldUndone(block: seq<Byte>, rest: seq<Byte>)
    requires |block| == 8
    ensures Crypted(BytesToBlock(Combined(Absorb(block, rest), rest)), BytesToBlock(block), 0, -1) == BytesToBlock(block)
  {
    var k := BytesToBlock(block);
    var mixed := BlockToBytes(Crypted(k, k, 0, 1));
    forall i | 0 <= i < 8
      ensures Combined(Absorb(block, rest), rest)[i] == mixed[i]
    {
      if i < |rest| {
        XorUndo(mixed[i], Doubled(rest[i]));
      }
    }
    assert Combined(Absorb(block, rest), rest) == mixed;
    hide Crypted, BytesToBlock, BlockToBytes, Absorb, Combined;
    BlockRoundTrip(Crypted(k, k, 0, 1));
    CryptedUndone(k, k, 0, 1);
  }

  lemma BlockRoundTrip(block: Block)
    ensures BytesToBlock(BlockToBytes(block)) == block
  {
    forall p | 0 <= p < 64
      ensures BytesToBlock(BlockToBytes(block))[p] == block[p]
    {
      var i, j := p / 8, p % 8;
      assert p == 8 * i + j;
      ByteBits(block[8 * i..8 * i + 8]);
      assert block[8 * i..8 * i + 8][j] == block[p];
    }
  }

  lemma ByteBits(bits: seq<bool>)
    requires |bits| == 8
    ensures ToBits(ByteOf(bits), 8) == bits
  {
    ToFromBits(bits);
  }
}
