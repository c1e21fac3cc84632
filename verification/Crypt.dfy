/**
  xcrypt: the password string computed from a key and a setting. It is stated as a function
  of those two alone, whatever the cipher's caches remember and whichever byte order the
  host has.
 */
module Crypt {
  import opened Powers
  import opened HostBytes
  import opened Wrappers
  import opened Words
  import opened DesStandard
  import opened DesWords
  import opened Des

  // ---- characters ----

  /** The position of a character in the sixty-four, 0 for a character outside them. */
  function AsciiToBin(ch: Byte): (r: nat)
    ensures r < 64
  {
    if ch > 'z' as nat then 0
    else if ch >= 'a' as nat then ch - 'a' as nat + 38
    else if ch > 'Z' as nat then 0
    else if ch >= 'A' as nat then ch - 'A' as nat + 12
    else if ch > '9' as nat then 0
    else if ch >= '.' as nat then ch - '.' as nat
    else 0
  }

  function Ascii64(i: nat): Byte
    requires i < 64
  {
    if i < 12 then i + '.' as nat else if i < 38 then i - 12 + 'A' as nat else i - 38 + 'a' as nat
  }

  lemma AsciiInverse(i: nat)
    requires i < 64
    ensures AsciiToBin(Ascii64(i)) == i
  {
  }

  /** Digits of base 64, least significant first. */
  function LittleEndian64(s: seq<Byte>): nat {
    if s == [] then 0 else AsciiToBin(s[0]) + 64 * LittleEndian64(s[1..])
  }

  // ---- bytes and words ----

  function BytesToBlock(b: seq<Byte>): Block
    requires |b| == 8
  {
    seq(64, i requires 0 <= i < 64 => ToBits(b[i / 8], 8)[i % 8])
  }

  function BlockToBytes(block: Block): (b: seq<Byte>)
    ensures |b| == 8
  {
    seq(8, i requires 0 <= i < 8 => ByteOf(block[8 * i..8 * i + 8]))
  }

  function ByteOf(bits: seq<bool>): Byte
    requires |bits| == 8
  {
    ToFromBits(bits);
    assert Pow2(8) == 256;
    FromBits(bits)
  }

  function BigEndian(b: seq<Byte>): Word
    requires |b| == 4
  {
    Four(b[0], b[1], b[2], b[3])
  }

  /** xntohl and xhtonl: reverse the bytes of an int on a little-endian host. */
  function NetworkOrder(x: Word, bigEndian: bool): Word {
    if bigEndian then x else Four(Digit(x, 0), Digit(x, 1), Digit(x, 2), Digit(x, 3))
  }

  lemma LoadIsBigEndian(b: seq<Byte>, bigEndian: bool)
    requires |b| == 4
    ensures NetworkOrder(LoadInt(b, bigEndian), bigEndian) == BigEndian(b)
  {
    hide Four, Digit;
    DigitsOfFour(b[3], b[2], b[1], b[0]);
  }

  lemma StoreIsBigEndian(x: Word, bigEndian: bool)
    ensures BigEndian(StoreInt(NetworkOrder(x, bigEndian), bigEndian)) == x
  {
    hide Four, Digit;
    FourOfDigits(x);
    DigitsOfFour(Digit(x, 0), Digit(x, 1), Digit(x, 2), Digit(x, 3));
  }

  lemma {:induction false} AppendBits(a: nat, b: nat, n: nat, m: nat)
    requires b < Pow2(n)
    ensures ToBits(a * Pow2(n) + b, m + n) == ToBits(a, m) + ToBits(b, n)
  {
    if n > 0 {
      HalfOfAppended(a, Pow2(n - 1), b);
      AppendBits(a, b / 2, n - 1, m);
      assert m + n - 1 == m + (n - 1);
      assert ToBits(a, m) + (ToBits(b / 2, n - 1) + [b % 2 == 1]) == ToBits(a, m) + ToBits(b / 2, n - 1) + [b % 2 == 1];
    } else {
      assert ToBits(a, m) + [] == ToBits(a, m);
    }
  }

  lemma HalfOfAppended(a: nat, p: int, b: nat)
    requires p > 0
    ensures a * (2 * p) + b >= 0
    ensures (a * (2 * p) + b) / 2 == a * p + b / 2 && (a * (2 * p) + b) % 2 == b % 2
  {
    assert a * (2 * p) == 2 * (a * p);
    MulMono(p, 0, a);
  }

  lemma BigEndianBits(b: seq<Byte>)
    requires |b| == 4
    ensures ToBits(BigEndian(b), 32) == ToBits(b[0], 8) + ToBits(b[1], 8) + ToBits(b[2], 8) + ToBits(b[3], 8)
  {
    assert Pow2(8) == 256;
    hide ToBits, Pow2;
    var b0: int, b1: int, b2: int, b3: int := b[0], b[1], b[2], b[3];
    AppendBits(b0, b1, 8, 8);
    AppendBits(b0 * 256 + b1, b2, 8, 16);
    AppendBits((b0 * 256 + b1) * 256 + b2, b3, 8, 24);
  }

  lemma BlockOfBytes(b: seq<Byte>)
    requires |b| == 8
    ensures BlockOf(BigEndian(b[..4]), BigEndian(b[4..])) == BytesToBlock(b)
  {
    BigEndianBits(b[..4]);
    BigEndianBits(b[4..]);
    hide BigEndian, ToBits;
    JoinBytes(ToBits(b[0], 8), ToBits(b[1], 8), ToBits(b[2], 8), ToBits(b[3], 8),
              ToBits(b[4], 8), ToBits(b[5], 8), ToBits(b[6], 8), ToBits(b[7], 8), b);
  }

  lemma JoinBytes(a0: seq<bool>, a1: seq<bool>, a2: seq<bool>, a3: seq<bool>,
                  a4: seq<bool>, a5: seq<bool>, a6: seq<bool>, a7: seq<bool>, b: seq<Byte>)
    requires |b| == 8
    requires a0 == ToBits(b[0], 8) && a1 == ToBits(b[1], 8) && a2 == ToBits(b[2], 8) && a3 == ToBits(b[3], 8)
    requires a4 == ToBits(b[4], 8) && a5 == ToBits(b[5], 8) && a6 == ToBits(b[6], 8) && a7 == ToBits(b[7], 8)
    ensures (a0 + a1 + a2 + a3) + (a4 + a5 + a6 + a7) == BytesToBlock(b)
  {
    hide ToBits;
    var all := (a0 + a1 + a2 + a3) + (a4 + a5 + a6 + a7);
    forall k: nat, j: nat | k < 8 && j < 8
      ensures all[8 * k + j] == ToBits(b[k], 8)[j]
    {
      assert k == 0 || k == 1 || k == 2 || k == 3 || k == 4 || k == 5 || k == 6 || k == 7;
    }
    forall i: nat | i < 64
      ensures all[i] == BytesToBlock(b)[i]
    {
      assert i == 8 * (i / 8) + i % 8;
    }
  }

  lemma BytesRoundTrip(b: seq<Byte>)
    requires |b| == 8
    ensures BlockToBytes(BytesToBlock(b)) == b
  {
    assert Pow2(8) == 256;
    hide ToBits, Pow2;
    forall i: nat | i < 8
      ensures BlockToBytes(BytesToBlock(b))[i] == b[i]
    {
      forall j: nat | j < 8
        ensures BytesToBlock(b)[8 * i..8 * i + 8][j] == ToBits(b[i], 8)[j]
      {
        assert (8 * i + j) / 8 == i && (8 * i + j) % 8 == j;
      }
      assert BytesToBlock(b)[8 * i..8 * i + 8] == ToBits(b[i], 8);
      FromToBits(b[i], 8);
    }
  }

  // ---- the specification ----

  /** The settings xcrypt reads within their bounds. */
  ghost predicate WellFormed(setting: Text) {
    |setting| >= 1 && (setting[0] == '_' as nat ==> |setting| >= 9)
  }

  function Doubled(ch: int): Byte {
    2 * ch % 256
  }

  /** The characters before the first whose seven low bits are clear, where the key copy stays put. */
  function Lead(key: seq<Byte>): (n: nat)
    ensures n <= |key|
  {
    if key == [] || Doubled(key[0]) == 0 then 0 else 1 + Lead(key[1..])
  }

  function Copied(key: seq<Byte>): nat {
    if Lead(key) < 8 then Lead(key) else 8
  }

  function FirstKey(key: seq<Byte>): (b: seq<Byte>)
    ensures |b| == 8
  {
    seq(8, i requires 0 <= i < 8 => if i < Lead(key) then Doubled(key[i]) else 0)
  }

  /** The key encrypted with itself, combined with up to eight more characters. */
  function Absorb(block: seq<Byte>, rest: seq<Byte>): (b: seq<Byte>)
    requires |block| == 8
    ensures |b| == 8
  {
    var mixed := BlockToBytes(Crypted(BytesToBlock(block), BytesToBlock(block), 0, 1));
    seq(8, i requires 0 <= i < 8 => if i < |rest| then XorOfBytes(mixed[i], Doubled(rest[i])) else mixed[i])
  }

  function Fold(block: seq<Byte>, rest: seq<Byte>): (b: seq<Byte>)
    requires |block| == 8
    ensures |b| == 8
    decreases |rest|
  {
    if rest == [] then block
    else Fold(Absorb(block, rest), if |rest| < 8 then [] else rest[8..])
  }

  function Extended(setting: Text): bool
    requires WellFormed(setting)
  {
    setting[0] == '_' as nat
  }

  function KeyOf(key: Text, setting: Text): (b: seq<Byte>)
    requires WellFormed(setting)
    ensures |b| == 8
  {
    if Extended(setting) then Fold(FirstKey(key), key[Copied(key)..]) else FirstKey(key)
  }

  /** The second character of an old-style setting, NUL if the string ends before it. */
  function Second(setting: Text): Byte {
    if |setting| > 1 then setting[1] else 0
  }

  function CountOf(setting: Text): nat
    requires WellFormed(setting)
  {
    if Extended(setting) then LittleEndian64(setting[1..5]) else 25
  }

  function SaltNumber(setting: Text): nat
    requires WellFormed(setting)
  {
    LittleEndian64(if Extended(setting) then setting[5..9] else [setting[0], Second(setting)])
  }

  function Prefix(setting: Text): seq<Byte>
    requires WellFormed(setting)
  {
    if Extended(setting) then setting[..9]
    else [setting[0], if Second(setting) != 0 then Second(setting) else setting[0]]
  }

  /** Eleven characters spell the 64 bits and two zeros, six bits each. */
  function Spell(block: Block): (s: seq<Byte>)
    ensures |s| == 11
  {
    seq(11, i requires 0 <= i < 11 => Ascii64(SixValue(block + [false, false], i)))
  }

  function SixValue(bits: seq<bool>, i: nat): (v: nat)
    requires |bits| == 66 && i < 11
    ensures v < 64
  {
    ToFromBits(bits[6 * i..6 * i + 6]);
    assert Pow2(6) == 64;
    FromBits(bits[6 * i..6 * i + 6])
  }

  /** The eleven characters give the 64 bits back: different results are spelled differently. */
  lemma SpellingIsExact(a: Block, b: Block)
    requires Spell(a) == Spell(b)
    ensures a == b
  {
    hide Ascii64, AsciiToBin, SixValue, Spell;
    forall i: nat | i < 11
      ensures (a + [false, false])[6 * i..6 * i + 6] == (b + [false, false])[6 * i..6 * i + 6]
    {
      SpelledSix(a, i);
      SpelledSix(b, i);
    }
    forall p: nat | p < 64
      ensures a[p] == b[p]
    {
      var i, j := p / 6, p % 6;
      assert p == 6 * i + j;
      assert (a + [false, false])[6 * i..6 * i + 6][j] == (b + [false, false])[6 * i..6 * i + 6][j];
    }
  }

  lemma SpelledSix(block: Block, i: nat)
    requires i < 11
    ensures (block + [false, false])[6 * i..6 * i + 6] == ToBits(AsciiToBin(Spell(block)[i]), 6)
  {
    var six := (block + [false, false])[6 * i..6 * i + 6];
    hide ToBits, FromBits;
    ToFromBits(six);
    AsciiInverse(SixValue(block + [false, false], i));
  }

  /** The string for a key and a setting; None only for an extended setting with count zero. */
  function CryptString(key: Text, setting: Text): Option<seq<Byte>>
    requires WellFormed(setting)
  {
    if CountOf(setting) == 0 then None
    else Some(Prefix(setting) +
              Spell(Crypted(BlockOf(0, 0), BytesToBlock(KeyOf(key, setting)), SaltNumber(setting), CountOf(setting))))
  }

  // ---- the program ----

  /** The copy loop: doubled characters, stopping at the first that doubles to zero. */
  method CopyKey(key: Text) returns (keybuf: seq<Byte>, used: nat)
    ensures keybuf == FirstKey(key) && used == Copied(key)
  {
    keybuf := [];
    used := 0;
    while |keybuf| < 8
      invariant |keybuf| <= 8 && used <= |keybuf| && used <= |key|
      invariant Lead(key) == used + Lead(key[used..])
      invariant used < |keybuf| ==> Lead(key[used..]) == 0
      invariant forall i: nat :: i < |keybuf| ==> keybuf[i] == if i < used then Doubled(key[i]) else 0
      decreases 8 - |keybuf|
    {
      var b := Doubled(if used < |key| then key[used] else 0);
      keybuf := keybuf + [b];
      if b != 0 {
        assert key[used..][1..] == key[used + 1..];
        used := used + 1;
      }
    }
  }

  lemma {:induction false} OrIsSum(a: nat, b: nat, n: nat)
    requires a < Pow2(n)
    ensures b * Pow2(n) >= 0 && Or(a, b * Pow2(n)) == a + b * Pow2(n)
  {
    MulMono(Pow2(n), 0, b);
    if n == 0 {
      OrZero(b);
    } else {
      var p := Pow2(n - 1);
      assert b * (2 * p) == 2 * (b * p);
      MulMono(p, 0, b);
      OrIsSum(a / 2, b, n - 1);
    }
  }

  lemma {:induction false} OrZero(b: nat)
    ensures Or(0, b) == b
  {
    if b != 0 {
      OrZero(b / 2);
    }
  }

  lemma {:induction false} LittleEndianSnoc(s: seq<Byte>, c: Byte)
    ensures LittleEndian64(s + [c]) == LittleEndian64(s) + AsciiToBin(c) * Pow2(6 * |s|)
    ensures LittleEndian64(s) < Pow2(6 * |s|)
  {
    if s == [] {
      assert [] + [c] == [c] && [c][1..] == [];
    } else {
      assert (s + [c])[1..] == s[1..] + [c];
      LittleEndianSnoc(s[1..], c);
      assert Pow2(6) == 64;
      hide AsciiToBin, Pow2;
      var p := Pow2(6 * (|s| - 1));
      Pow2Add(6, 6 * (|s| - 1));
      assert 6 + 6 * (|s| - 1) == 6 * |s|;
      ScaleDigit(AsciiToBin(c), p);
    }
  }

  lemma ScaleDigit(a: int, p: int)
    ensures 64 * (a * p) == a * (64 * p)
  {
  }

  lemma {:induction false} ShlIsProduct(b: nat, k: nat)
    requires b * Pow2(k) < WORD_LIMIT
    ensures b < WORD_LIMIT && Shl(b, k) == b * Pow2(k)
    decreases k
  {
    if k > 0 {
      assert b * Pow2(k) == (2 * b) * Pow2(k - 1);
      MulMono(b, 1, Pow2(k));
      MulMono(2 * b, 1, Pow2(k - 1));
      ShlIsProduct(2 * b, k - 1);
    }
  }

  /** The loops that read a number of base-64 digits from the setting. */
  method ReadDigits(s: seq<Byte>) returns (v: nat)
    requires |s| <= 4
    ensures v == LittleEndian64(s) && v < Pow2(6 * |s|)
  {
    v := 0;
    for i := 0 to |s|
      invariant v == LittleEndian64(s[..i]) && v < Pow2(6 * i)
    {
      assert s[..i + 1] == s[..i] + [s[i]];
      LittleEndianSnoc(s[..i], s[i]);
      LittleEndianSnoc(s[..i + 1], 0);
      DigitFits(AsciiToBin(s[i]), i);
      ShlIsProduct(AsciiToBin(s[i]), 6 * i);
      OrIsSum(v, AsciiToBin(s[i]), 6 * i);
      v := Or(v, Shl(AsciiToBin(s[i]), 6 * i));
    }
    assert s[..|s|] == s;
  }

  lemma DigitFits(b: nat, i: nat)
    requires b < 64 && i < 4
    ensures b * Pow2(6 * i) < WORD_LIMIT
  {
    Pow2Increasing(6 * i, 18);
    LimitIsPower();
    Pow2Add(6, 18);
    assert Pow2(6) == 64;
    Pow2Increasing(24, 32);
    MulMono(Pow2(6 * i), b, 63);
    MulMono(63, Pow2(6 * i), Pow2(18));
  }

  /** des_cipher on eight bytes of memory. */
  method CipherBytes(c: Cipher, input: seq<Byte>, salt: nat, count: int, bigEndian: bool, ghost key: seq<Byte>)
    returns (ok: bool, output: seq<Byte>)
    requires |input| == |key| == 8 && c.Valid() && c.tables != null && c.KeysFor(BigEndian(key[..4]), BigEndian(key[4..]))
    modifies c`saltbits, c`oldSalt
    ensures c.Valid() && c.tables == old(c.tables) && c.KeysFor(BigEndian(key[..4]), BigEndian(key[4..]))
    ensures ok <==> count != 0
    ensures ok ==> output == BlockToBytes(Crypted(BytesToBlock(input), BytesToBlock(key), salt, count))
  {
    hide Crypted, MaskTables.MaskTable, MaskTables.PermutedTable, MaskTables.FusedTable, KeyList, Narrow, ToBits, Four, Digit;
    c.SetupSalt(salt);
    LoadIsBigEndian(input[..4], bigEndian);
    LoadIsBigEndian(input[4..], bigEndian);
    BlockOfBytes(input);
    BlockOfBytes(key);
    var rawl := NetworkOrder(LoadInt(input[..4], bigEndian), bigEndian);
    var rawr := NetworkOrder(LoadInt(input[4..], bigEndian), bigEndian);
    var lOut, rOut;
    ok, lOut, rOut := c.DoDes(rawl, rawr, count, BigEndian(key[..4]), BigEndian(key[4..]));
    var low, high := StoreInt(NetworkOrder(lOut, bigEndian), bigEndian), StoreInt(NetworkOrder(rOut, bigEndian), bigEndian);
    StoreIsBigEndian(lOut, bigEndian);
    StoreIsBigEndian(rOut, bigEndian);
    output := low + high;
    assert output[..4] == low && output[4..] == high;
    BlockOfBytes(output);
    BytesRoundTrip(output);
  }

  /** des_setkey on eight bytes of memory. */
  method SetKeyBytes(c: Cipher, key: seq<Byte>, bigEndian: bool)
    requires |key| == 8 && c.Valid()
    modifies c, c.enKeysL, c.enKeysR, c.deKeysL, c.deKeysR
    ensures c.Valid() && c.tables != null && c.KeysFor(BigEndian(key[..4]), BigEndian(key[4..]))
  {
    hide MaskTables.MaskTable, MaskTables.PermutedTable, MaskTables.FusedTable, KeyList, Narrow, Four, Digit;
    LoadIsBigEndian(key[..4], bigEndian);
    LoadIsBigEndian(key[4..], bigEndian);
    c.SetKey(NetworkOrder(LoadInt(key[..4], bigEndian), bigEndian), NetworkOrder(LoadInt(key[4..], bigEndian), bigEndian));
  }

  /** The loop that combines up to eight characters with the encrypted key. */
  method XorInto(keybuf: seq<Byte>, rest: seq<Byte>) returns (mixed: seq<Byte>, taken: nat)
    requires |keybuf| == 8
    ensures taken == if |rest| < 8 then |rest| else 8
    ensures |mixed| == 8
    ensures forall i: nat :: i < 8 ==> mixed[i] == if i < |rest| then XorOfBytes(keybuf[i], Doubled(rest[i])) else keybuf[i]
  {
    mixed := keybuf;
    taken := 0;
    while taken < 8 && taken < |rest|
      invariant taken <= 8 && taken <= |rest| && |mixed| == 8
      invariant forall i: nat :: i < 8 ==> mixed[i] == if i < taken then XorOfBytes(keybuf[i], Doubled(rest[i])) else keybuf[i]
    {
      mixed := mixed[taken := XorOfBytes(mixed[taken], Doubled(rest[taken]))];
      taken := taken + 1;
    }
  }

  /** One round of the fold: the key encrypted with itself, combined with more characters, and set. */
  method FoldOnce(c: Cipher, keybuf: seq<Byte>, rest: seq<Byte>, bigEndian: bool) returns (next: seq<Byte>, taken: nat)
    requires |keybuf| == 8 && c.Valid() && c.tables != null
    requires c.KeysFor(BigEndian(keybuf[..4]), BigEndian(keybuf[4..]))
    modifies c, c.enKeysL, c.enKeysR, c.deKeysL, c.deKeysR
    ensures next == Absorb(keybuf, rest) && taken == if |rest| < 8 then |rest| else 8
    ensures c.Valid() && c.tables != null && c.KeysFor(BigEndian(next[..4]), BigEndian(next[4..]))
  {
    hide Crypted, MaskTables.MaskTable, MaskTables.PermutedTable, MaskTables.FusedTable, KeyList, Narrow;
    hide BigEndian, BytesToBlock, BlockToBytes, XorOfBytes, Doubled;
    var ok, mixed := CipherBytes(c, keybuf, 0, 1, bigEndian, keybuf);
    next, taken := XorInto(mixed, rest);
    assert next == Absorb(keybuf, rest);
    SetKeyBytes(c, next, bigEndian);
  }

  /** The whole of the long key, folded into eight bytes that stay set as the cipher's key. */
  method FoldKey(c: Cipher, key: Text, keybuf0: seq<Byte>, used0: nat, bigEndian: bool) returns (keybuf: seq<Byte>)
    requires |keybuf0| == 8 && used0 <= |key| && c.Valid() && c.tables != null
    requires c.KeysFor(BigEndian(keybuf0[..4]), BigEndian(keybuf0[4..]))
    modifies c, c.enKeysL, c.enKeysR, c.deKeysL, c.deKeysR
    ensures keybuf == Fold(keybuf0, key[used0..])
    ensures c.Valid() && c.tables != null && c.KeysFor(BigEndian(keybuf[..4]), BigEndian(keybuf[4..]))
  {
    hide Absorb, MaskTables.MaskTable, MaskTables.PermutedTable, MaskTables.FusedTable, KeyList, Narrow, BigEndian;
    keybuf := keybuf0;
    var used := used0;
    while used < |key|
      invariant used <= |key| && |keybuf| == 8
      invariant Fold(keybuf, key[used..]) == Fold(keybuf0, key[used0..])
      invariant c.Valid() && c.tables != null && c.KeysFor(BigEndian(keybuf[..4]), BigEndian(keybuf[4..]))
    {
      ghost var rest := key[used..];
      var taken;
      keybuf, taken := FoldOnce(c, keybuf, key[used..], bigEndian);
      assert key[used + taken..] == if |rest| < 8 then [] else rest[8..];
      used := used + taken;
    }
  }

  // ---- spelling the result ----

  lemma SixValueIs(x: nat, bits: seq<bool>, i: nat)
    requires x < 64 && |bits| == 66 && i < 11
    requires forall j: nat :: j < 6 ==> Bit(x, 5 - j) == SixBit(bits, i, j)
    ensures x == SixValue(bits, i)
  {
    assert Pow2(6) == 64;
    hide Bit, ToBits, Pow2, FromBits;
    forall j: nat | j < 6
      ensures ToBits(x, 6)[j] == bits[6 * i..6 * i + 6][j]
    {
      ToBitsAt(x, 6, j);
      assert Bit(x, 5 - j) == SixBit(bits, i, j);
    }
    assert ToBits(x, 6) == bits[6 * i..6 * i + 6];
    FromToBits(x, 6);
  }

  predicate SixBit(bits: seq<bool>, i: nat, j: nat)
    requires |bits| == 66 && i < 11 && j < 6
  {
    bits[6 * i + j]
  }

  function Padded(r0: Word, r1: Word): (bits: seq<bool>)
    ensures |bits| == 66
  {
    BlockOf(r0, r1) + [false, false]
  }

  /** Bit p of the padded result, from the left. */
  lemma PaddedBit(r0: Word, r1: Word, p: nat)
    requires p < 66
    ensures Padded(r0, r1)[p] == if p < 32 then Bit(r0, 31 - p) else if p < 64 then Bit(r1, 63 - p) else false
  {
    hide Bit;
    if p < 32 {
      ToBitsAt(r0, 32, p);
    } else if p < 64 {
      ToBitsAt(r1, 32, p - 32);
    }
  }

  /** A six-bit field of a word that holds 24 (or 18) consecutive bits of the padded result. */
  lemma SpelledField(l: nat, top: nat, first: nat, i: nat, r0: Word, r1: Word)
    requires first <= i < 11 && 6 * (i - first) + 6 <= top && 6 * first + top <= 66
    requires forall b: nat :: b < top ==> WindowBit(l, top, first, b, r0, r1)
    ensures Field(l, top - 6 - 6 * (i - first), 6) == SixValue(Padded(r0, r1), i)
  {
    assert Pow2(6) == 64;
    var shift := top - 6 - 6 * (i - first);
    FieldBits(l, shift, 6);
    hide Bit, Pow2, Field, Padded;
    forall j: nat | j < 6
      ensures Bit(Field(l, shift, 6), 5 - j) == SixBit(Padded(r0, r1), i, j)
    {
      assert WindowBit(l, top, first, 5 - j + shift, r0, r1);
    }
    SixValueIs(Field(l, shift, 6), Padded(r0, r1), i);
  }

  ghost predicate WindowBit(l: nat, top: nat, first: nat, b: nat, r0: Word, r1: Word)
    requires b < top && 6 * first + top <= 66
  {
    Bit(l, b) == Padded(r0, r1)[6 * first + top - 1 - b]
  }

  lemma FirstWindow(r0: Word, r1: Word)
    ensures forall b: nat :: b < 24 ==> WindowBit(Shr(r0, 8), 24, 0, b, r0, r1)
  {
    hide Bit, Padded, Shr;
    forall b: nat | b < 24
      ensures WindowBit(Shr(r0, 8), 24, 0, b, r0, r1)
    {
      ShrBit(r0, 8, b);
      PaddedBit(r0, r1, 23 - b);
    }
  }

  lemma LowHalfBit(x: nat, b: nat)
    ensures Bit(And(x, 0xffff), b) == (b < 16 && Bit(x, b))
  {
    assert Pow2(16) == 0x10000 by {
      Pow2Add(8, 8);
      assert Pow2(8) == 256;
    }
    hide Bit, And, Pow2;
    AndBit(x, 0xffff, b);
    OnesBit(16, b);
  }

  lemma SecondWord(r0: Word, r1: Word, b: nat)
    requires b < 24
    ensures Bit(Or(Shl(r0, 16), And(Shr(r1, 16), 0xffff)), b) == if b < 16 then Bit(r1, b + 16) else Bit(r0, b - 16)
  {
    hide Bit, Shr, Shl, And, Or;
    OrBit(Shl(r0, 16), And(Shr(r1, 16), 0xffff), b);
    ShlBit(r0, 16, b);
    LowHalfBit(Shr(r1, 16), b);
    ShrBit(r1, 16, b);
  }

  lemma SecondWindow(r0: Word, r1: Word)
    ensures forall b: nat :: b < 24 ==> WindowBit(Or(Shl(r0, 16), And(Shr(r1, 16), 0xffff)), 24, 4, b, r0, r1)
  {
    hide Bit, Padded, Shr, Shl, And, Or;
    forall b: nat | b < 24
      ensures WindowBit(Or(Shl(r0, 16), And(Shr(r1, 16), 0xffff)), 24, 4, b, r0, r1)
    {
      SecondWord(r0, r1, b);
      PaddedBit(r0, r1, 47 - b);
    }
  }

  lemma ThirdWindow(r0: Word, r1: Word)
    ensures forall b: nat :: b < 18 ==> WindowBit(Shl(r1, 2), 18, 8, b, r0, r1)
  {
    hide Bit, Padded, Shl;
    forall b: nat | b < 18
      ensures WindowBit(Shl(r1, 2), 18, 8, b, r0, r1)
    {
      ShlBit(r1, 2, b);
      PaddedBit(r0, r1, 65 - b);
    }
  }

  function Char(l: nat, shift: nat): Byte {
    FieldBits(l, shift, 6);
    assert Pow2(6) == 64;
    Ascii64(Field(l, shift, 6))
  }

  lemma CharIs(l: nat, top: nat, first: nat, i: nat, r0: Word, r1: Word)
    requires first <= i < 11 && 6 * (i - first) + 6 <= top && 6 * first + top <= 66
    requires forall b: nat :: b < top ==> WindowBit(l, top, first, b, r0, r1)
    ensures Char(l, top - 6 - 6 * (i - first)) == Spell(BlockOf(r0, r1))[i]
  {
    hide Field, SixValue, Bit;
    SpelledField(l, top, first, i, r0, r1);
  }

  /** The last lines of xcrypt: three words, eleven characters. */
  method EncodeResult(r0: Word, r1: Word) returns (s: seq<Byte>)
    ensures s == Spell(BlockOf(r0, r1))
  {
    FirstWindow(r0, r1);
    SecondWindow(r0, r1);
    ThirdWindow(r0, r1);
    hide Char, Spell, BlockOf, WindowBit, Shr, Shl, Or, And;
    var l := Shr(r0, 8);
    s := [Char(l, 18), Char(l, 12), Char(l, 6), Char(l, 0)];
    CharIs(l, 24, 0, 0, r0, r1);
    CharIs(l, 24, 0, 1, r0, r1);
    CharIs(l, 24, 0, 2, r0, r1);
    CharIs(l, 24, 0, 3, r0, r1);
    l := Or(Shl(r0, 16), And(Shr(r1, 16), 0xffff));
    s := s + [Char(l, 18), Char(l, 12), Char(l, 6), Char(l, 0)];
    CharIs(l, 24, 4, 4, r0, r1);
    CharIs(l, 24, 4, 5, r0, r1);
    CharIs(l, 24, 4, 6, r0, r1);
    CharIs(l, 24, 4, 7, r0, r1);
    l := Shl(r1, 2);
    s := s + [Char(l, 12), Char(l, 6), Char(l, 0)];
    CharIs(l, 18, 8, 8, r0, r1);
    CharIs(l, 18, 8, 9, r0, r1);
    CharIs(l, 18, 8, 10, r0, r1);
  }

  /** Copies the key, folds a long one when the setting asks for it, and leaves it set in the cipher. */
  method PrepareKey(c: Cipher, key: Text, setting: Text, bigEndian: bool) returns (keybuf: seq<Byte>)
    requires c.Valid() && WellFormed(setting)
    modifies c, c.enKeysL, c.enKeysR, c.deKeysL, c.deKeysR
    ensures keybuf == KeyOf(key, setting)
    ensures c.Valid() && c.tables != null && c.KeysFor(BigEndian(keybuf[..4]), BigEndian(keybuf[4..]))
  {
    hide MaskTables.MaskTable, MaskTables.PermutedTable, MaskTables.FusedTable, KeyList, Narrow, Four, Fold, FirstKey;
    c.Initialise();
    var used;
    keybuf, used := CopyKey(key);
    SetKeyBytes(c, keybuf, bigEndian);
    if setting[0] == '_' as nat {
      keybuf := FoldKey(c, key, keybuf, used, bigEndian);
    }
  }

  method ParseSetting(setting: Text) returns (count: nat, salt: nat, prefix: seq<Byte>)
    requires WellFormed(setting)
    ensures count == CountOf(setting) && salt == SaltNumber(setting) && prefix == Prefix(setting)
  {
    hide LittleEndian64;
    if setting[0] == '_' as nat {
      count := ReadDigits(setting[1..5]);
      salt := ReadDigits(setting[5..9]);
      prefix := setting[..9];
    } else {
      count := 25;
      var second := if |setting| > 1 then setting[1] else 0;
      salt := ReadDigits([setting[0], second]);
      prefix := [setting[0], if second != 0 then second else setting[0]];
    }
  }

  /** Whatever the calls before left in the caches, the string is the one the key and setting determine. */
  method XCrypt(c: Cipher, key: Text, setting: Text, bigEndian: bool) returns (out: Option<seq<Byte>>)
    requires c.Valid() && WellFormed(setting)
    modifies c, c.enKeysL, c.enKeysR, c.deKeysL, c.deKeysR
    ensures c.Valid() && out == CryptString(key, setting)
  {
    hide Crypted, MaskTables.MaskTable, MaskTables.PermutedTable, MaskTables.FusedTable, KeyList, Narrow;
    hide KeyOf, CountOf, SaltNumber, Prefix, Spell, BigEndian, BytesToBlock, BlockOf;
    var keybuf := PrepareKey(c, key, setting, bigEndian);
    var count, salt, prefix := ParseSetting(setting);
    c.SetupSalt(salt);
    var ok, r0, r1 := c.DoDes(0, 0, count, BigEndian(keybuf[..4]), BigEndian(keybuf[4..]));
    if !ok {
      return None;
    }
    BlockOfBytes(keybuf);
    var spelled := EncodeResult(r0, r1);
    out := Some(prefix + spelled);
  }
}
