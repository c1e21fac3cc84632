/**
  The cipher of xcrypt.c as an object with its static state: precomputed tables, the key
  schedules of the last raw key and the bit-reversed last salt. Every method is stated
  against the standard's functions, so what the caches hold never shows.
 */
module Des {
  import opened Powers
  import opened Words
  import opened DesStandard
  import opened MaskTables
  import opened DesWords

  /** The salt as the standard function takes it: salt bit i exchanges places i and i + 24. */
  function SaltOf(salt: nat): Salt {
    seq(24, i requires 0 <= i < 24 => Bit(salt, i))
  }

  function KeyList(l: seq<Word>, r: seq<Word>): (keys: seq<RoundKey>)
    requires |l| == |r|
    ensures |keys| == |l|
  {
    seq(|l|, i requires 0 <= i < |l| => ToBits(l[i], 24) + ToBits(r[i], 24))
  }

  ghost predicate Narrow(words: seq<Word>, bits: nat) {
    forall i :: 0 <= i < |words| ==> words[i] < Pow2(bits)
  }

  /** What do_des computes: enciphering for a positive count, deciphering for a negative one. */
  function Crypted(block: Block, key: Block, salt: nat, count: int): Block
    requires count != 0
  {
    if count > 0 then Encipher(block, Schedule(key), SaltOf(salt), count)
    else Encipher(block, Reverse(Schedule(key)), SaltOf(salt), -count)
  }

  lemma ReverseTwice<T>(s: seq<T>)
    ensures Reverse(Reverse(s)) == s
  {
  }

  /** do_des with count -k undoes do_des with count k, for every block, key, salt and k. */
  lemma CryptedUndone(block: Block, key: Block, salt: nat, count: int)
    requires count != 0
    ensures Crypted(Crypted(block, key, salt, count), key, salt, -count) == block
  {
    var keys := Schedule(key);
    hide Encipher, Schedule;
    if count > 0 {
      DecipherUndoesEncipher(block, keys, SaltOf(salt), count);
    } else {
      ReverseTwice(keys);
      DecipherUndoesEncipher(block, Reverse(keys), SaltOf(salt), -count);
    }
  }

  lemma BlockOfInjective(l: Word, r: Word, l2: Word, r2: Word)
    requires BlockOf(l, r) == BlockOf(l2, r2)
    ensures l == l2 && r == r2
  {
    assert ToBits(l, 32) == BlockOf(l, r)[..32] && ToBits(l2, 32) == BlockOf(l2, r2)[..32];
    assert ToBits(r, 32) == BlockOf(l, r)[32..] && ToBits(r2, 32) == BlockOf(l2, r2)[32..];
    LimitIsPower();
    FromToBits(l, 32);
    FromToBits(r, 32);
    FromToBits(l2, 32);
    FromToBits(r2, 32);
  }

  /** Two calls of do_des with opposite counts give the two words back. */
  lemma WordsRestored(l: Word, r: Word, l2: Word, r2: Word, l3: Word, r3: Word, key: Block, salt: nat, count: int)
    requires count != 0
    requires BlockOf(l2, r2) == Crypted(BlockOf(l, r), key, salt, count)
    requires BlockOf(l3, r3) == Crypted(BlockOf(l2, r2), key, salt, -count)
    ensures l3 == l && r3 == r
  {
    CryptedUndone(BlockOf(l, r), key, salt, count);
    BlockOfInjective(l3, r3, l, r);
  }

  /** Without salt the cipher function is the standard's f(R, K) = P(S(E(R) + K)). */
  lemma UnsaltedIsStandard(r: Half, key: RoundKey)
    ensures CipherFunction(r, key, SaltOf(0)) == Permute(SBoxes(XorBits(Permute(r, 48, E), key)), 32, P)
  {
    var e := Permute(r, 48, E);
    forall i: nat | i < 48
      ensures Salted(e, SaltOf(0))[i] == e[i]
    {
      BitOfZero(i % 24);
    }
    assert Salted(e, SaltOf(0)) == e;
    hide SBoxes, P, E;
  }

  class Tables {
    const ip: MaskPair
    const fp: MaskPair
    const keyPerm: MaskPair
    const comp: MaskPair
    const psbox: array2<Word>
    const mSbox: array2<nat>

    ghost function Arrays(): set<object> {
      var words: set<object> :=
        {ip.left, ip.right, fp.left, fp.right, keyPerm.left, keyPerm.right, comp.left, comp.right, psbox};
      words + {mSbox}
    }

    /** What des_init leaves in the tables. */
    ghost predicate Filled()
      reads Arrays()
    {
      && ip.Permutes(8, 8, IP, 32) && fp.Permutes(8, 8, InverseIP, 32)
      && keyPerm.Permutes(8, 7, PC1, 28) && comp.Permutes(7, 7, PC2, 24)
      && PermutedTable(psbox) && FusedTable(mSbox)
    }

    constructor ()
      ensures Filled() && fresh(Arrays())
    {
      IPInjective();
      PC1Injective();
      PC2Injective();
      hide MaskTable, PermutedTable, FusedTable, IP, InverseIP, PC1, PC2, Pow2, Inverts;
      var initPerm, finalPerm := InvertInitial(IP);
      InitialInverts(initPerm[..]);
      FinalInverts(finalPerm[..]);
      var invKeyPerm := Invert(PC1, 56, 64);
      var invCompPerm := Invert(PC2, 48, 56);
      ip := new MaskPair(8, 8, initPerm, 32, IP);
      fp := new MaskPair(8, 8, finalPerm, 32, InverseIP);
      keyPerm := new MaskPair(8, 7, invKeyPerm, 28, PC1);
      comp := new MaskPair(7, 7, invCompPerm, 24, PC2);
      var permuted := NewPBox();
      var fused := NewSBoxes();
      psbox, mSbox := permuted, fused;
    }
  }

  /** The loop that inverts the initial permutation and keeps the table itself for the final one. */
  method InvertInitial(table: nat -> nat) returns (initPerm: array<nat>, finalPerm: array<nat>)
    requires Injective(table, 64, 64)
    ensures fresh(initPerm) && fresh(finalPerm) && initPerm.Length == finalPerm.Length == 64
    ensures forall q: nat :: q < 64 ==> initPerm[table(q) - 1] == q
    ensures forall i: nat :: i < 64 ==> finalPerm[i] == table(i) - 1
  {
    initPerm, finalPerm := new nat[64], new nat[64];
    for i := 0 to 64
      invariant forall q: nat :: q < i ==> initPerm[table(q) - 1] == q
      invariant forall q: nat :: q < i ==> finalPerm[q] == table(q) - 1
    {
      finalPerm[i] := table(i) - 1;
      initPerm[finalPerm[i]] := i;
    }
  }

  lemma InitialInverts(initPerm: seq<nat>)
    requires |initPerm| == 64 && forall q: nat :: q < 64 ==> initPerm[IP(q) - 1] == q
    ensures Inverts(initPerm, IP, 64)
  {
    hide IP, InverseIP;
    forall b: nat | b < 64
      ensures initPerm[b] < 64 && IP(initPerm[b]) - 1 == b
    {
      TablesInverse(b);
      assert initPerm[IP(InverseIP(b) - 1) - 1] == InverseIP(b) - 1;
    }
  }

  lemma FinalInverts(finalPerm: seq<nat>)
    requires |finalPerm| == 64 && forall i: nat :: i < 64 ==> finalPerm[i] == IP(i) - 1
    ensures Inverts(finalPerm, InverseIP, 64)
  {
    hide IP, InverseIP;
    forall q: nat | q < 64
      ensures finalPerm[InverseIP(q) - 1] == q && InverseIP(finalPerm[q]) - 1 == q
    {
      TablesInverse(q);
    }
  }

  // ---- lookups ----

  lemma TablesUsed()
    ensures forall q: nat :: q < 64 ==> UsedSource(IP, q, 64, 8, 8) && UsedSource(InverseIP, q, 64, 8, 8)
    ensures forall q: nat :: q < 48 ==> UsedSource(PC2, q, 56, 7, 7)
  {
    hide IP, InverseIP, PC2;
  }

  /** No parity bit is chosen. */
  lemma PC1Used()
    ensures forall q: nat :: q < 56 ==> UsedSource(PC1, q, 64, 8, 7)
  {
    forall q: nat | q < 56
      ensures (PC1(q) - 1) % 8 < 7
    {
      PC1SkipsParity(q);
    }
    hide PC1;
  }

  lemma PC1SkipsParity(q: nat)
    requires q < 56
    ensures PC1(q) % 8 != 0
  {
  }

  /** One entry from each row of a table. */
  function Lookup(m: array2<Word>, x: seq<nat>): (v: seq<Word>)
    requires |x| == m.Length0 && forall k: nat :: k < |x| ==> x[k] < m.Length1
    reads m
    ensures |v| == |x|
  {
    seq(|x|, k requires 0 <= k < |x| reads m => m[k, x[k]])
  }

  /** The pair of | chains that permutes a block through one pair of mask tables. */
  method PermuteBlock(masks: MaskPair, l: Word, r: Word, ghost table: nat -> nat) returns (l2: Word, r2: Word)
    requires masks.Permutes(8, 8, table, 32)
    requires forall q: nat :: q < 64 ==> UsedSource(table, q, 64, 8, 8)
    ensures forall q: nat :: q < 64 ==> 1 <= table(q) <= 64
    ensures BlockOf(l2, r2) == Permute(BlockOf(l, r), 64, table)
  {
    hide MaskEntry, Slice, UsedSource, OrAll, BlockIndices, BlockOf, ToBits;
    var x := BlockIndices(l, r, 0);
    BlockSlices(l, r, 0);
    var vl := Lookup(masks.left, x);
    var vr := Lookup(masks.right, x);
    GatherBlock(vl, vr, x, BlockOf(l, r), 8, 8, table, 32);
    l2, r2 := OrAll(vl), OrAll(vr);
    BlockOfIsConcat(l2, r2);
  }

  lemma BlockOfIsConcat(l: Word, r: Word)
    ensures BlockOf(l, r) == ToBits(l, 32) + ToBits(r, 32)
  {
  }

  /** The key permutation: 56 of the 64 key bits, in two halves. */
  method PermuteKey(t: Tables, raw0: Word, raw1: Word) returns (k0: Word, k1: Word)
    requires t.Filled()
    ensures k0 < Pow2(28) && k1 < Pow2(28)
    ensures ToBits(k0, 28) + ToBits(k1, 28) == Permute(BlockOf(raw0, raw1), 56, PC1)
  {
    assert Pow2(7) == 128;
    PC1Used();
    BlockSlices(raw0, raw1, 1);
    hide MaskEntry, Slice, UsedSource, OrAll, BlockIndices, BlockOf, ToBits, PC1, Pow2;
    var x := BlockIndices(raw0, raw1, 1);
    var vl := Lookup(t.keyPerm.left, x);
    var vr := Lookup(t.keyPerm.right, x);
    GatherBlock(vl, vr, x, BlockOf(raw0, raw1), 8, 7, PC1, 28);
    k0, k1 := OrAll(vl), OrAll(vr);
  }

  /** The compression permutation of the rotated halves. */
  method CompressKey(t: Tables, k0: Word, k1: Word, shifts: nat) returns (l: Word, r: Word)
    requires t.Filled() && k0 < Pow2(28) && k1 < Pow2(28) && shifts <= 28
    ensures l < Pow2(24) && r < Pow2(24)
    ensures ToBits(l, 24) + ToBits(r, 24) ==
      Permute(Concat(RotateLeft(ToBits(k0, 28), shifts), RotateLeft(ToBits(k1, 28), shifts)), 48, PC2)
  {
    assert Pow2(7) == 128;
    TablesUsed();
    KeySlices(k0, k1, shifts);
    hide MaskEntry, Slice, UsedSource, OrAll, KeyIndices, Rotated, ToBits, PC2, Pow2, RotateLeft;
    var t0, t1 := Rotated(k0, shifts), Rotated(k1, shifts);
    var x := KeyIndices(t0, t1);
    ghost var input := Concat(RotateLeft(ToBits(k0, 28), shifts), RotateLeft(ToBits(k1, 28), shifts));
    var vl := Lookup(t.comp.left, x);
    var vr := Lookup(t.comp.right, x);
    GatherBlock(vl, vr, x, input, 7, 7, PC2, 24);
    l, r := OrAll(vl), OrAll(vr);
  }

  /** The selection functions and P on 48 bits, by four lookups. */
  method SelectAndPermute(t: Tables, r48l: Word, r48r: Word) returns (f: Word)
    requires t.Filled() && r48l < Pow2(24) && r48r < Pow2(24)
    ensures ToBits(f, 32) == Permute(SBoxes(ToBits(r48l, 24) + ToBits(r48r, 24)), 32, P)
  {
    hide ToBits, SBoxes, P, OrAll, MaskEntry, Pow2, Fused;
    ghost var input: RoundKey := ToBits(r48l, 24) + ToBits(r48r, 24);
    RoundGroups(r48l, r48r);
    var x := RoundIndices(r48l, r48r);
    assert x[0] < 4096 && x[1] < 4096 && x[2] < 4096 && x[3] < 4096 by {
      assert Group(x[0], input, 0) && Group(x[1], input, 1) && Group(x[2], input, 2) && Group(x[3], input, 3);
    }
    hide RoundIndices, Group;
    var v := [t.psbox[0, t.mSbox[0, x[0]]], t.psbox[1, t.mSbox[1, x[1]]],
              t.psbox[2, t.mSbox[2, x[2]]], t.psbox[3, t.mSbox[3, x[3]]]];
    GatherRound(v, x, input);
    f := OrAll(v);
  }

  /** The function of one round: expand, salt, add the key, select and permute. */
  method RoundFunction(t: Tables, r: Word, kl: Word, kr: Word, saltbits: Word) returns (f: Word)
    requires t.Filled() && kl < Pow2(24) && kr < Pow2(24)
    ensures ToBits(f, 32) == CipherFunction(ToBits(r, 32), ToBits(kl, 24) + ToBits(kr, 24), ToBits(saltbits, 24))
  {
    ExpandRange(r);
    var r48l, r48r := ExpandLeft(r), ExpandRight(r);
    MixedRange(r48l, r48r, kl, saltbits, 24);
    MixedRange(r48r, r48l, kr, saltbits, 24);
    MixedIsSaltedXor(r48l, r48r, kl, kr, saltbits);
    ExpandIsE(r);
    Pow2Increasing(24, 32);
    LimitIsPower();
    hide Mixed, ExpandLeft, ExpandRight, ToBits, Salted, XorBits, SBoxes, P, E, Pow2;
    f := SelectAndPermute(t, Mixed(r48l, r48r, kl, saltbits), Mixed(r48r, r48l, kr, saltbits));
  }

  // ---- the state and its operations ----

  class Cipher {
    const enKeysL: array<Word>
    const enKeysR: array<Word>
    const deKeysL: array<Word>
    const deKeysR: array<Word>
    /** null until des_init has run. */
    var tables: Tables?
    var saltbits: Word
    var oldSalt: nat
    var oldRawKey0: Word
    var oldRawKey1: Word

    ghost predicate Shape() {
      && enKeysL.Length == enKeysR.Length == deKeysL.Length == deKeysR.Length == 16
      && enKeysL != enKeysR && enKeysL != deKeysL && enKeysL != deKeysR
      && enKeysR != deKeysL && enKeysR != deKeysR && deKeysL != deKeysR
    }

    /** Both key arrays hold the schedule of a raw key, the second one backwards. */
    ghost predicate KeysFor(raw0: Word, raw1: Word)
      requires Shape()
      reads enKeysL, enKeysR, deKeysL, deKeysR
    {
      && Narrow(enKeysL[..], 24) && Narrow(enKeysR[..], 24) && Narrow(deKeysL[..], 24) && Narrow(deKeysR[..], 24)
      && KeyList(enKeysL[..], enKeysR[..]) == Schedule(BlockOf(raw0, raw1))
      && KeyList(deKeysL[..], deKeysR[..]) == Reverse(Schedule(BlockOf(raw0, raw1)))
    }

    ghost predicate SaltHeld()
      reads this
    {
      ToBits(saltbits, 24) == SaltOf(oldSalt)
    }

    ghost function Footprint(): set<object>
      reads this
    {
      var keys: set<object> := {enKeysL, enKeysR, deKeysL, deKeysR};
      keys + (if tables == null then {} else tables.Arrays())
    }

    /** The caches agree with the inputs they remember. A zero key is never trusted. */
    ghost predicate Valid()
      reads this, Footprint()
    {
      && Shape()
      && (tables != null ==>
        && tables.Filled()
        && SaltHeld()
        && (oldRawKey0 != 0 || oldRawKey1 != 0 ==> KeysFor(oldRawKey0, oldRawKey1)))
    }

    constructor ()
      ensures Valid() && tables == null
    {
      enKeysL, enKeysR := new Word[16], new Word[16];
      deKeysL, deKeysR := new Word[16], new Word[16];
      tables, saltbits, oldSalt, oldRawKey0, oldRawKey1 := null, 0, 0, 0, 0;
    }

    /** des_init, run on first use. */
    method Initialise()
      requires Valid()
      modifies this
      ensures Valid() && tables != null
      ensures old(tables) != null ==>
        tables == old(tables) && oldSalt == old(oldSalt) && oldRawKey0 == old(oldRawKey0) && oldRawKey1 == old(oldRawKey1)
    {
      if tables == null {
        oldRawKey0, oldRawKey1 := 0, 0;
        saltbits := 0;
        oldSalt := 0;
        ZeroSalt();
        hide MaskTable, PermutedTable, FusedTable;
        tables := new Tables();
      }
    }

    /** setup_salt: the 24 low bits of the salt, reversed; nothing to do for the remembered salt. */
    method SetupSalt(salt: nat)
      requires Valid() && tables != null
      modifies this`saltbits, this`oldSalt
      ensures Valid() && oldSalt == salt
    {
      hide MaskTable, PermutedTable, FusedTable;
      if salt == oldSalt {
        return;
      }
      oldSalt := salt;
      saltbits := ReverseSalt(salt);
    }

    /** The part of des_setkey after the cache test. */
    method FillKeys(raw0: Word, raw1: Word)
      requires Shape() && tables != null && tables.Filled()
      modifies enKeysL, enKeysR, deKeysL, deKeysR
      ensures KeysFor(raw0, raw1)
    {
      hide MaskTable, PermutedTable, FusedTable, ToBits, PC1, PC2, BlockOf, Pow2, RoundKeyAt, Narrow, KeyList, Schedule, ScheduleKey;
      var k0, k1 := PermuteKey(tables, raw0, raw1);
      ghost var key := BlockOf(raw0, raw1);
      var shifts := 0;
      for round := 0 to 16
        invariant shifts == TotalShift(round)
        invariant forall i :: 0 <= i < round ==> RoundKeyAt(i, key)
      {
        shifts := shifts + KeyShift(round);
        TotalShiftBound(round + 1);
        var l, r := CompressKey(tables, k0, k1, shifts);
        ScheduleFromRotation(key, k0, k1, round);
        StoreKey(round, l, r, key);
      }
      KeysComplete(key);
    }

    /** One round's key goes into both schedules, from the two ends. */
    method StoreKey(round: nat, l: Word, r: Word, ghost key: Block)
      requires Shape() && round < 16 && l < Pow2(24) && r < Pow2(24) && ToBits(l, 24) + ToBits(r, 24) == ScheduleKey(key, round)
      requires forall i :: 0 <= i < round ==> RoundKeyAt(i, key)
      modifies enKeysL, enKeysR, deKeysL, deKeysR
      ensures forall i :: 0 <= i < round + 1 ==> RoundKeyAt(i, key)
    {
      hide ToBits, Pow2, ScheduleKey;
      enKeysL[round], enKeysR[round] := l, r;
      deKeysL[15 - round], deKeysR[15 - round] := l, r;
      assert RoundKeyAt(round, key);
      forall i | 0 <= i < round
        ensures RoundKeyAt(i, key)
      {
        assert old(RoundKeyAt(i, key));
      }
    }

    /** Round i of both arrays. */
    ghost predicate RoundKeyAt(i: nat, key: Block)
      requires Shape() && i < 16
      reads enKeysL, enKeysR, deKeysL, deKeysR
    {
      && enKeysL[i] < Pow2(24) && enKeysR[i] < Pow2(24)
      && deKeysL[15 - i] == enKeysL[i] && deKeysR[15 - i] == enKeysR[i]
      && ToBits(enKeysL[i], 24) + ToBits(enKeysR[i], 24) == ScheduleKey(key, i)
    }

    lemma KeysComplete(key: Block)
      requires Shape() && forall i :: 0 <= i < 16 ==> RoundKeyAt(i, key)
      ensures Narrow(enKeysL[..], 24) && Narrow(enKeysR[..], 24)
      ensures Narrow(deKeysL[..], 24) && Narrow(deKeysR[..], 24)
      ensures KeyList(enKeysL[..], enKeysR[..]) == Schedule(key)
      ensures KeyList(deKeysL[..], deKeysR[..]) == Reverse(Schedule(key))
    {
      hide ToBits, Pow2, ScheduleKey;
      forall i | 0 <= i < 16
        ensures enKeysL[..][i] < Pow2(24) && enKeysR[..][i] < Pow2(24)
        ensures deKeysL[..][i] < Pow2(24) && deKeysR[..][i] < Pow2(24)
        ensures KeyList(enKeysL[..], enKeysR[..])[i] == Schedule(key)[i]
        ensures KeyList(deKeysL[..], deKeysR[..])[i] == Reverse(Schedule(key))[i]
      {
        assert RoundKeyAt(i, key) && RoundKeyAt(15 - i, key);
      }
      assert KeyList(enKeysL[..], enKeysR[..]) == Schedule(key);
      assert KeyList(deKeysL[..], deKeysR[..]) == Reverse(Schedule(key));
    }

    /** des_setkey: the schedules of a raw key, recomputed unless the nonzero key is remembered. */
    method SetKey(raw0: Word, raw1: Word)
      requires Valid()
      modifies this, enKeysL, enKeysR, deKeysL, deKeysR
      ensures Valid() && tables != null && KeysFor(raw0, raw1)
      ensures old(tables) != null ==> tables == old(tables) && oldSalt == old(oldSalt)
    {
      hide MaskTable, PermutedTable, FusedTable, KeysFor;
      Initialise();
      if (raw0 != 0 || raw1 != 0) && raw0 == oldRawKey0 && raw1 == oldRawKey1 {
        return;
      }
      oldRawKey0, oldRawKey1 := raw0, raw1;
      FillKeys(raw0, raw1);
    }

    /** Sixteen rounds with one key list, then the exchange of the halves. */
    method OnePass(l0: Word, r0: Word, kl: array<Word>, kr: array<Word>) returns (l: Word, r: Word)
      requires tables != null && tables.Filled() && SaltHeld()
      requires kl.Length == kr.Length == 16 && Narrow(kl[..], 24) && Narrow(kr[..], 24)
      ensures BlockOf(l, r) == Pass(BlockOf(l0, r0), KeyList(kl[..], kr[..]), SaltOf(oldSalt))
    {
      hide MaskTable, PermutedTable, FusedTable, ToBits, Xor, CipherFunction, Pow2, SaltOf;
      ghost var keys, salt := KeyList(kl[..], kr[..]), SaltOf(oldSalt);
      l, r := l0, r0;
      var f := 0;
      for round := 0 to 16
        invariant Rounds(ToBits(l, 32), ToBits(r, 32), keys[round..], salt) == Rounds(ToBits(l0, 32), ToBits(r0, 32), keys, salt)
        invariant round > 0 ==> f == r
      {
        assert kl[..][round] == kl[round] && kr[..][round] == kr[round];
        f := RoundFunction(tables, r, kl[round], kr[round], saltbits);
        XorWords(f, l);
        assert keys[round..][0] == keys[round] && keys[round..][1..] == keys[round + 1..];
        f := Xor(f, l);
        l := r;
        r := f;
      }
      assert keys[16..] == [];
      r := l;
      l := f;
      PassOfHalves(l0, r0, keys, salt);
    }

    /** do_des: `count` passes between the permutations, with the reversed keys if it is negative. */
    method DoDes(lIn: Word, rIn: Word, count: int, ghost raw0: Word, ghost raw1: Word)
      returns (ok: bool, lOut: Word, rOut: Word)
      requires Valid() && tables != null && KeysFor(raw0, raw1)
      ensures ok <==> count != 0
      ensures ok ==> BlockOf(lOut, rOut) == Crypted(BlockOf(lIn, rIn), BlockOf(raw0, raw1), oldSalt, count)
    {
      hide MaskTable, PermutedTable, FusedTable, BlockOf, Schedule, KeyList, Pass, IP, InverseIP, UsedSource, SaltOf, Narrow, Permute, Reverse;
      lOut, rOut := 0, 0;
      if count == 0 {
        return false, lOut, rOut;
      }
      TablesUsed();
      var kl, kr, n := enKeysL, enKeysR, count;
      if count < 0 {
        kl, kr, n := deKeysL, deKeysR, -count;
      }
      ghost var keys, salt := KeyList(kl[..], kr[..]), SaltOf(oldSalt);
      var l, r := PermuteBlock(tables.ip, lIn, rIn, IP);
      ghost var start: Block := BlockOf(l, r);
      ghost var total: nat := n;
      while n > 0
        invariant n >= 0
        invariant Passes(BlockOf(l, r), keys, salt, n) == Passes(start, keys, salt, total)
      {
        l, r := OnePass(l, r, kl, kr);
        n := n - 1;
      }
      lOut, rOut := PermuteBlock(tables.fp, l, r, InverseIP);
      ok := true;
    }
  }

  lemma ScheduleFromRotation(key: Block, k0: Word, k1: Word, round: nat)
    requires round < 16 && ToBits(k0, 28) + ToBits(k1, 28) == Permute(key, 56, PC1)
    ensures TotalShift(round + 1) <= 28
    ensures ScheduleKey(key, round) == Permute(Concat(RotateLeft(ToBits(k0, 28), TotalShift(round + 1)),
      RotateLeft(ToBits(k1, 28), TotalShift(round + 1))), 48, PC2)
  {
    var cd := Permute(key, 56, PC1);
    assert cd[..28] == ToBits(k0, 28) && cd[28..] == ToBits(k1, 28);
    hide PC1, PC2, ToBits;
    ShiftedIsRotation(ToBits(k0, 28), round + 1);
    ShiftedIsRotation(ToBits(k1, 28), round + 1);
  }

  lemma XorWords(a: Word, b: Word)
    ensures Xor(a, b) < WORD_LIMIT
    ensures ToBits(Xor(a, b), 32) == XorBits(ToBits(b, 32), ToBits(a, 32))
  {
    LimitIsPower();
    XorRange(a, b, 32);
    hide Pow2, Xor, ToBits, Bit;
    forall q: nat | q < 32
      ensures ToBits(Xor(a, b), 32)[q] == XorBits(ToBits(b, 32), ToBits(a, 32))[q]
    {
      ToBitsAt(Xor(a, b), 32, q);
      ToBitsAt(a, 32, q);
      ToBitsAt(b, 32, q);
      XorBit(a, b, 31 - q);
    }
  }

  lemma PassOfHalves(l: Word, r: Word, keys: seq<RoundKey>, salt: Salt)
    ensures var out := Rounds(ToBits(l, 32), ToBits(r, 32), keys, salt);
      Pass(BlockOf(l, r), keys, salt) == out.1 + out.0
  {
    assert BlockOf(l, r)[..32] == ToBits(l, 32) && BlockOf(l, r)[32..] == ToBits(r, 32);
  }

  lemma ZeroSalt()
    ensures ToBits(0, 24) == SaltOf(0)
  {
    forall i: nat | i < 24
      ensures ToBits(0, 24)[i] == SaltOf(0)[i]
    {
      ToBitsAt(0, 24, i);
      BitOfZero(23 - i);
      BitOfZero(i);
    }
  }

  /** The loop over the salt's bits. */
  method ReverseSalt(salt: nat) returns (saltbits: Word)
    ensures ToBits(saltbits, 24) == SaltOf(salt)
  {
    saltbits := 0;
    var saltbit, obit := 1, 0x800000;
    assert Pow2(23) == 0x800000 by {
      assert Pow2(12) == 4096;
      Pow2Add(12, 11);
    }
    forall q: nat | q < 24
      ensures !At(0, 24, q)
    {
      BitOfZero(23 - q);
    }
    for i := 0 to 24
      invariant saltbit == Pow2(i) && (i < 24 ==> obit == Pow2(23 - i)) && saltbits < Pow2(24)
      invariant forall q: nat :: q < 24 ==> (At(saltbits, 24, q) <==> q < i && Bit(salt, q))
    {
      TestBit(salt, i);
      if And(salt, saltbit) != 0 {
        forall q: nat | q < 24
          ensures At(Or(saltbits, obit), 24, q) <==> q < i + 1 && Bit(salt, q)
        {
          SetPlace(saltbits, i, 24, q);
        }
        SetPlace(saltbits, i, 24, 0);
        saltbits := Or(saltbits, obit);
      }
      saltbit := 2 * saltbit;
      obit := obit / 2;
    }
    forall q: nat | q < 24
      ensures ToBits(saltbits, 24)[q] == SaltOf(salt)[q]
    {
      ToBitsAt(saltbits, 24, q);
      assert At(saltbits, 24, q) <==> Bit(salt, q);
    }
  }

  lemma {:induction false} TestBit(w: nat, i: nat)
    ensures And(w, Pow2(i)) != 0 <==> Bit(w, i)
  {
    if i > 0 {
      TestBit(w / 2, i - 1);
    } else {
      assert And(w, 1) == if w % 2 == 1 then 1 else 0;
    }
    BitOfZero(i);
  }
}
