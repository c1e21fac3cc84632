/**
  The data encryption standard as FIPS 46-3 states it, on bit strings numbered from the
  left, with the salt of crypt(3) and repeated passes added. Nothing here looks at tables
  of masks, words or cached keys.
 */
module DesStandard {
  import opened Powers
  import opened Words

  type Half = s: seq<bool> | |s| == 32 witness seq(32, _ => false)
  type Block = s: seq<bool> | |s| == 64 witness seq(64, _ => false)
  type RoundKey = s: seq<bool> | |s| == 48 witness seq(48, _ => false)
  type KeyHalf = s: seq<bool> | |s| == 28 witness seq(28, _ => false)
  type Salt = s: seq<bool> | |s| == 24 witness seq(24, _ => false)

  // ---- the standard's tables, entries numbered from 1, one printed row a line ----

  /** The initial permutation. */
  function IP(i: nat): (r: nat)
    ensures 1 <= r <= 64
  {
    match i
    case 0 => 58 case 1 => 50 case 2 => 42 case 3 => 34 case 4 => 26 case 5 => 18 case 6 => 10 case 7 => 2
    case 8 => 60 case 9 => 52 case 10 => 44 case 11 => 36 case 12 => 28 case 13 => 20 case 14 => 12 case 15 => 4
    case 16 => 62 case 17 => 54 case 18 => 46 case 19 => 38 case 20 => 30 case 21 => 22 case 22 => 14 case 23 => 6
    case 24 => 64 case 25 => 56 case 26 => 48 case 27 => 40 case 28 => 32 case 29 => 24 case 30 => 16 case 31 => 8
    case 32 => 57 case 33 => 49 case 34 => 41 case 35 => 33 case 36 => 25 case 37 => 17 case 38 => 9 case 39 => 1
    case 40 => 59 case 41 => 51 case 42 => 43 case 43 => 35 case 44 => 27 case 45 => 19 case 46 => 11 case 47 => 3
    case 48 => 61 case 49 => 53 case 50 => 45 case 51 => 37 case 52 => 29 case 53 => 21 case 54 => 13 case 55 => 5
    case 56 => 63 case 57 => 55 case 58 => 47 case 59 => 39 case 60 => 31 case 61 => 23 case 62 => 15 case _ => 7
  }

  /** The final permutation. */
  function InverseIP(i: nat): (r: nat)
    ensures 1 <= r <= 64
  {
    match i
    case 0 => 40 case 1 => 8 case 2 => 48 case 3 => 16 case 4 => 56 case 5 => 24 case 6 => 64 case 7 => 32
    case 8 => 39 case 9 => 7 case 10 => 47 case 11 => 15 case 12 => 55 case 13 => 23 case 14 => 63 case 15 => 31
    case 16 => 38 case 17 => 6 case 18 => 46 case 19 => 14 case 20 => 54 case 21 => 22 case 22 => 62 case 23 => 30
    case 24 => 37 case 25 => 5 case 26 => 45 case 27 => 13 case 28 => 53 case 29 => 21 case 30 => 61 case 31 => 29
    case 32 => 36 case 33 => 4 case 34 => 44 case 35 => 12 case 36 => 52 case 37 => 20 case 38 => 60 case 39 => 28
    case 40 => 35 case 41 => 3 case 42 => 43 case 43 => 11 case 44 => 51 case 45 => 19 case 46 => 59 case 47 => 27
    case 48 => 34 case 49 => 2 case 50 => 42 case 51 => 10 case 52 => 50 case 53 => 18 case 54 => 58 case 55 => 26
    case 56 => 33 case 57 => 1 case 58 => 41 case 59 => 9 case 60 => 49 case 61 => 17 case 62 => 57 case _ => 25
  }

  /** The E bit-selection table. */
  function E(i: nat): (r: nat)
    ensures 1 <= r <= 32
  {
    match i
    case 0 => 32 case 1 => 1 case 2 => 2 case 3 => 3 case 4 => 4 case 5 => 5
    case 6 => 4 case 7 => 5 case 8 => 6 case 9 => 7 case 10 => 8 case 11 => 9
    case 12 => 8 case 13 => 9 case 14 => 10 case 15 => 11 case 16 => 12 case 17 => 13
    case 18 => 12 case 19 => 13 case 20 => 14 case 21 => 15 case 22 => 16 case 23 => 17
    case 24 => 16 case 25 => 17 case 26 => 18 case 27 => 19 case 28 => 20 case 29 => 21
    case 30 => 20 case 31 => 21 case 32 => 22 case 33 => 23 case 34 => 24 case 35 => 25
    case 36 => 24 case 37 => 25 case 38 => 26 case 39 => 27 case 40 => 28 case 41 => 29
    case 42 => 28 case 43 => 29 case 44 => 30 case 45 => 31 case 46 => 32 case _ => 1
  }

  /** The permutation P. */
  function P(i: nat): (r: nat)
    ensures 1 <= r <= 32
  {
    match i
    case 0 => 16 case 1 => 7 case 2 => 20 case 3 => 21
    case 4 => 29 case 5 => 12 case 6 => 28 case 7 => 17
    case 8 => 1 case 9 => 15 case 10 => 23 case 11 => 26
    case 12 => 5 case 13 => 18 case 14 => 31 case 15 => 10
    case 16 => 2 case 17 => 8 case 18 => 24 case 19 => 14
    case 20 => 32 case 21 => 27 case 22 => 3 case 23 => 9
    case 24 => 19 case 25 => 13 case 26 => 30 case 27 => 6
    case 28 => 22 case 29 => 11 case 30 => 4 case _ => 25
  }

  /** Permuted choice 1. */
  function PC1(i: nat): (r: nat)
    ensures 1 <= r <= 64
  {
    match i
    case 0 => 57 case 1 => 49 case 2 => 41 case 3 => 33 case 4 => 25 case 5 => 17 case 6 => 9
    case 7 => 1 case 8 => 58 case 9 => 50 case 10 => 42 case 11 => 34 case 12 => 26 case 13 => 18
    case 14 => 10 case 15 => 2 case 16 => 59 case 17 => 51 case 18 => 43 case 19 => 35 case 20 => 27
    case 21 => 19 case 22 => 11 case 23 => 3 case 24 => 60 case 25 => 52 case 26 => 44 case 27 => 36
    case 28 => 63 case 29 => 55 case 30 => 47 case 31 => 39 case 32 => 31 case 33 => 23 case 34 => 15
    case 35 => 7 case 36 => 62 case 37 => 54 case 38 => 46 case 39 => 38 case 40 => 30 case 41 => 22
    case 42 => 14 case 43 => 6 case 44 => 61 case 45 => 53 case 46 => 45 case 47 => 37 case 48 => 29
    case 49 => 21 case 50 => 13 case 51 => 5 case 52 => 28 case 53 => 20 case 54 => 12 case _ => 4
  }

  /** Permuted choice 2. */
  function PC2(i: nat): (r: nat)
    ensures 1 <= r <= 56
  {
    match i
    case 0 => 14 case 1 => 17 case 2 => 11 case 3 => 24 case 4 => 1 case 5 => 5
    case 6 => 3 case 7 => 28 case 8 => 15 case 9 => 6 case 10 => 21 case 11 => 10
    case 12 => 23 case 13 => 19 case 14 => 12 case 15 => 4 case 16 => 26 case 17 => 8
    case 18 => 16 case 19 => 7 case 20 => 27 case 21 => 20 case 22 => 13 case 23 => 2
    case 24 => 41 case 25 => 52 case 26 => 31 case 27 => 37 case 28 => 47 case 29 => 55
    case 30 => 30 case 31 => 40 case 32 => 51 case 33 => 45 case 34 => 33 case 35 => 48
    case 36 => 44 case 37 => 49 case 38 => 39 case 39 => 56 case 40 => 34 case 41 => 53
    case 42 => 46 case 43 => 42 case 44 => 50 case 45 => 36 case 46 => 29 case _ => 32
  }

  // ---- the selection functions, four rows each ----

  type Nibble = n: nat | n < 16

  type SRow = s: seq<Nibble> | |s| == 16 witness seq(16, _ => 0)

  function S1(row: nat): SRow {
    match row
    case 0 => [14, 4, 13, 1, 2, 15, 11, 8, 3, 10, 6, 12, 5, 9, 0, 7]
    case 1 => [0, 15, 7, 4, 14, 2, 13, 1, 10, 6, 12, 11, 9, 5, 3, 8]
    case 2 => [4, 1, 14, 8, 13, 6, 2, 11, 15, 12, 9, 7, 3, 10, 5, 0]
    case _ => [15, 12, 8, 2, 4, 9, 1, 7, 5, 11, 3, 14, 10, 0, 6, 13]
  }

  function S2(row: nat): SRow {
    match row
    case 0 => [15, 1, 8, 14, 6, 11, 3, 4, 9, 7, 2, 13, 12, 0, 5, 10]
    case 1 => [3, 13, 4, 7, 15, 2, 8, 14, 12, 0, 1, 10, 6, 9, 11, 5]
    case 2 => [0, 14, 7, 11, 10, 4, 13, 1, 5, 8, 12, 6, 9, 3, 2, 15]
    case _ => [13, 8, 10, 1, 3, 15, 4, 2, 11, 6, 7, 12, 0, 5, 14, 9]
  }

  function S3(row: nat): SRow {
    match row
    case 0 => [10, 0, 9, 14, 6, 3, 15, 5, 1, 13, 12, 7, 11, 4, 2, 8]
    case 1 => [13, 7, 0, 9, 3, 4, 6, 10, 2, 8, 5, 14, 12, 11, 15, 1]
    case 2 => [13, 6, 4, 9, 8, 15, 3, 0, 11, 1, 2, 12, 5, 10, 14, 7]
    case _ => [1, 10, 13, 0, 6, 9, 8, 7, 4, 15, 14, 3, 11, 5, 2, 12]
  }

  function S4(row: nat): SRow {
    match row
    case 0 => [7, 13, 14, 3, 0, 6, 9, 10, 1, 2, 8, 5, 11, 12, 4, 15]
    case 1 => [13, 8, 11, 5, 6, 15, 0, 3, 4, 7, 2, 12, 1, 10, 14, 9]
    case 2 => [10, 6, 9, 0, 12, 11, 7, 13, 15, 1, 3, 14, 5, 2, 8, 4]
    case _ => [3, 15, 0, 6, 10, 1, 13, 8, 9, 4, 5, 11, 12, 7, 2, 14]
  }

  function S5(row: nat): SRow {
    match row
    case 0 => [2, 12, 4, 1, 7, 10, 11, 6, 8, 5, 3, 15, 13, 0, 14, 9]
    case 1 => [14, 11, 2, 12, 4, 7, 13, 1, 5, 0, 15, 10, 3, 9, 8, 6]
    case 2 => [4, 2, 1, 11, 10, 13, 7, 8, 15, 9, 12, 5, 6, 3, 0, 14]
    case _ => [11, 8, 12, 7, 1, 14, 2, 13, 6, 15, 0, 9, 10, 4, 5, 3]
  }

  function S6(row: nat): SRow {
    match row
    case 0 => [12, 1, 10, 15, 9, 2, 6, 8, 0, 13, 3, 4, 14, 7, 5, 11]
    case 1 => [10, 15, 4, 2, 7, 12, 9, 5, 6, 1, 13, 14, 0, 11, 3, 8]
    case 2 => [9, 14, 15, 5, 2, 8, 12, 3, 7, 0, 4, 10, 1, 13, 11, 6]
    case _ => [4, 3, 2, 12, 9, 5, 15, 10, 11, 14, 1, 7, 6, 0, 8, 13]
  }

  function S7(row: nat): SRow {
    match row
    case 0 => [4, 11, 2, 14, 15, 0, 8, 13, 3, 12, 9, 7, 5, 10, 6, 1]
    case 1 => [13, 0, 11, 7, 4, 9, 1, 10, 14, 3, 5, 12, 2, 15, 8, 6]
    case 2 => [1, 4, 11, 13, 12, 3, 7, 14, 10, 15, 6, 8, 0, 5, 9, 2]
    case _ => [6, 11, 13, 8, 1, 4, 10, 7, 9, 5, 0, 15, 14, 2, 3, 12]
  }

  function S8(row: nat): SRow {
    match row
    case 0 => [13, 2, 8, 4, 6, 15, 11, 1, 10, 9, 3, 14, 5, 0, 12, 7]
    case 1 => [1, 15, 13, 8, 10, 3, 7, 4, 12, 5, 6, 11, 0, 14, 9, 2]
    case 2 => [7, 11, 4, 1, 9, 12, 14, 2, 0, 6, 10, 13, 15, 3, 5, 8]
    case _ => [2, 1, 14, 7, 4, 10, 8, 13, 15, 12, 9, 0, 3, 5, 6, 11]
  }

  function SelectionRow(box: nat, row: nat): SRow {
    match box
    case 0 => S1(row)
    case 1 => S2(row)
    case 2 => S3(row)
    case 3 => S4(row)
    case 4 => S5(row)
    case 5 => S6(row)
    case 6 => S7(row)
    case _ => S8(row)
  }

  function Permute(s: seq<bool>, n: nat, table: nat -> nat): (r: seq<bool>)
    requires forall i: nat :: i < n ==> 1 <= table(i) <= |s|
    ensures |r| == n
  {
    seq(n, i requires 0 <= i < n => s[table(i) - 1])
  }

  function XorBits(a: seq<bool>, b: seq<bool>): (r: seq<bool>)
    requires |a| == |b|
    ensures |r| == |a|
  {
    seq(|a|, i requires 0 <= i < |a| => a[i] != b[i])
  }

  // ---- the cipher function ----

  /** crypt(3) exchanges the bits i and i + 24 of the expanded half where salt bit i is set. */
  function Salted(e: RoundKey, salt: Salt): RoundKey {
    seq(48, i requires 0 <= i < 48 => if salt[i % 24] then e[(i + 24) % 48] else e[i])
  }

  /** The outer two bits of the six choose the row, the inner four the column. */
  function Select(box: nat, six: seq<bool>): (r: nat)
    requires |six| == 6
    ensures r < 16
  {
    var row, column := FromBits([six[0], six[5]]), FromBits(six[1..5]);
    ToFromBits(six[1..5]);
    SelectionRow(box, row)[column]
  }

  function SBoxes(x: RoundKey): Half {
    seq(32, i requires 0 <= i < 32 => ToBits(Select(i / 4, x[i / 4 * 6..i / 4 * 6 + 6]), 4)[i % 4])
  }

  function CipherFunction(r: Half, key: RoundKey, salt: Salt): Half {
    Permute(SBoxes(XorBits(Salted(Permute(r, 48, E), salt), key)), 32, P)
  }

  // ---- rounds and passes ----

  function Rounds(l: Half, r: Half, keys: seq<RoundKey>, salt: Salt): (Half, Half)
    decreases |keys|
  {
    if keys == [] then (l, r)
    else Rounds(r, XorBits(l, CipherFunction(r, keys[0], salt)), keys[1..], salt)
  }

  /** One pass of rounds, ending with the exchange of the halves. */
  function Pass(block: Block, keys: seq<RoundKey>, salt: Salt): Block {
    var out := Rounds(block[..32], block[32..], keys, salt);
    out.1 + out.0
  }

  function Passes(block: Block, keys: seq<RoundKey>, salt: Salt, count: nat): Block
    decreases count
  {
    if count == 0 then block else Passes(Pass(block, keys, salt), keys, salt, count - 1)
  }

  /** `count` passes between the initial and the final permutation. */
  function Encipher(block: Block, keys: seq<RoundKey>, salt: Salt, count: nat): Block {
    Permute(Passes(Permute(block, 64, IP), keys, salt, count), 64, InverseIP)
  }

  function Reverse<T>(s: seq<T>): (r: seq<T>)
    ensures |r| == |s|
    ensures forall i :: 0 <= i < |s| ==> r[i] == s[|s| - 1 - i]
  {
    if s == [] then [] else Reverse(s[1..]) + [s[0]]
  }

  // ---- the key schedule ----

  /** The number of left shifts before each round. */
  function KeyShift(round: nat): nat {
    if round == 0 || round == 1 || round == 8 || round == 15 then 1 else 2
  }

  function RotateLeft(s: KeyHalf, k: nat): KeyHalf
    requires k <= 28
  {
    s[k..] + s[..k]
  }

  /** C or D after the shifts of the rounds before `rounds`. */
  function Shifted(half: KeyHalf, rounds: nat): KeyHalf {
    if rounds == 0 then half else RotateLeft(Shifted(half, rounds - 1), KeyShift(rounds - 1))
  }

  function Concat(a: seq<bool>, b: seq<bool>): seq<bool> {
    a + b
  }

  function ScheduleKey(key: Block, round: nat): RoundKey {
    var cd := Permute(key, 56, PC1);
    Permute(Concat(Shifted(cd[..28], round + 1), Shifted(cd[28..], round + 1)), 48, PC2)
  }

  function Schedule(key: Block): (keys: seq<RoundKey>)
    ensures |keys| == 16
  {
    seq(16, round requires 0 <= round < 16 => ScheduleKey(key, round))
  }

  // ---- deciphering undoes enciphering ----

  lemma XorTwice(a: seq<bool>, b: seq<bool>)
    requires |a| == |b|
    ensures XorBits(XorBits(a, b), b) == a
  {
  }

  lemma {:induction false} RoundsAppend(l: Half, r: Half, keys: seq<RoundKey>, k: RoundKey, salt: Salt)
    ensures var out := Rounds(l, r, keys, salt);
      Rounds(l, r, keys + [k], salt) == (out.1, XorBits(out.0, CipherFunction(out.1, k, salt)))
    decreases |keys|
  {
    if keys == [] {
      assert keys + [k] == [k];
    } else {
      assert (keys + [k])[1..] == keys[1..] + [k];
      RoundsAppend(r, XorBits(l, CipherFunction(r, keys[0], salt)), keys[1..], k, salt);
    }
  }

  /** With the halves exchanged and the keys reversed, the rounds run backwards. */
  lemma {:induction false} RoundsUndo(l: Half, r: Half, keys: seq<RoundKey>, salt: Salt)
    ensures var out := Rounds(l, r, keys, salt);
      Rounds(out.1, out.0, Reverse(keys), salt) == (r, l)
    decreases |keys|
  {
    if keys != [] {
      var r1 := XorBits(l, CipherFunction(r, keys[0], salt));
      var out := Rounds(r, r1, keys[1..], salt);
      RoundsUndo(r, r1, keys[1..], salt);
      RoundsAppend(out.1, out.0, Reverse(keys[1..]), keys[0], salt);
      XorTwice(l, CipherFunction(r, keys[0], salt));
    }
  }

  lemma PassUndo(block: Block, keys: seq<RoundKey>, salt: Salt)
    ensures Pass(Pass(block, keys, salt), Reverse(keys), salt) == block
  {
    var out := Rounds(block[..32], block[32..], keys, salt);
    var after := Pass(block, keys, salt);
    assert after[..32] == out.1 && after[32..] == out.0;
    RoundsUndo(block[..32], block[32..], keys, salt);
    assert block[..32] + block[32..] == block;
  }

  lemma {:induction false} PassesLast(block: Block, keys: seq<RoundKey>, salt: Salt, count: nat)
    ensures Passes(block, keys, salt, count + 1) == Pass(Passes(block, keys, salt, count), keys, salt)
    decreases count
  {
    if count > 0 {
      PassesLast(Pass(block, keys, salt), keys, salt, count - 1);
    }
  }

  lemma {:induction false} PassesUndo(block: Block, keys: seq<RoundKey>, salt: Salt, count: nat)
    ensures Passes(Passes(block, keys, salt, count), Reverse(keys), salt, count) == block
  {
    if count > 0 {
      PassesLast(block, keys, salt, count - 1);
      PassUndo(Passes(block, keys, salt, count - 1), keys, salt);
      PassesUndo(block, keys, salt, count - 1);
    }
  }

  lemma FinalUndoesInitialLower(i: nat)
    requires i < 32
    ensures IP(InverseIP(i) - 1) == i + 1
  {
  }

  lemma FinalUndoesInitialUpper(i: nat)
    requires 32 <= i < 64
    ensures IP(InverseIP(i) - 1) == i + 1
  {
  }

  lemma InitialUndoesFinalLower(i: nat)
    requires i < 32
    ensures InverseIP(IP(i) - 1) == i + 1
  {
  }

  lemma InitialUndoesFinalUpper(i: nat)
    requires 32 <= i < 64
    ensures InverseIP(IP(i) - 1) == i + 1
  {
  }

  /** The two permutation tables are inverse to each other. */
  lemma TablesInverse(i: nat)
    requires i < 64
    ensures IP(InverseIP(i) - 1) == i + 1 && InverseIP(IP(i) - 1) == i + 1
  {
    if i < 32 {
      FinalUndoesInitialLower(i);
      InitialUndoesFinalLower(i);
    } else {
      FinalUndoesInitialUpper(i);
      InitialUndoesFinalUpper(i);
    }
  }

  lemma PermuteTwice(s: seq<bool>, n: nat, first: nat -> nat, second: nat -> nat)
    requires |s| == n && forall i: nat :: i < n ==> 1 <= first(i) <= n
    requires forall i: nat :: i < n ==> 1 <= second(i) <= n && first(second(i) - 1) == i + 1
    ensures Permute(Permute(s, n, first), n, second) == s
  {
    var once := Permute(s, n, first);
    forall i: nat | i < n
      ensures Permute(once, n, second)[i] == s[i]
    {
      assert once[second(i) - 1] == s[first(second(i) - 1) - 1];
    }
  }

  lemma PermutationsUndo(block: Block)
    ensures Permute(Permute(block, 64, IP), 64, InverseIP) == block
    ensures Permute(Permute(block, 64, InverseIP), 64, IP) == block
  {
    forall i: nat | i < 64
      ensures IP(InverseIP(i) - 1) == i + 1 && InverseIP(IP(i) - 1) == i + 1
    {
      TablesInverse(i);
    }
    PermuteTwice(block, 64, IP, InverseIP);
    PermuteTwice(block, 64, InverseIP, IP);
  }

  /** For every block, key list, salt and count, the reversed keys undo the encipherment. */
  lemma DecipherUndoesEncipher(block: Block, keys: seq<RoundKey>, salt: Salt, count: nat)
    ensures Encipher(Encipher(block, keys, salt, count), Reverse(keys), salt, count) == block
  {
    PermutationsUndo(Passes(Permute(block, 64, IP), keys, salt, count));
    PassesUndo(Permute(block, 64, IP), keys, salt, count);
    PermutationsUndo(block);
  }

  /** The permutations between two passes cancel: `count` passes are `count` encipherments. */
  lemma CountedEncipher(block: Block, keys: seq<RoundKey>, salt: Salt, count: nat)
    ensures Encipher(block, keys, salt, count + 1) == Encipher(Encipher(block, keys, salt, 1), keys, salt, count)
  {
    var first := Pass(Permute(block, 64, IP), keys, salt);
    assert Passes(Permute(block, 64, IP), keys, salt, 1) == Passes(first, keys, salt, 0);
    PermutationsUndo(first);
  }

  // ---- cumulative shifts ----

  function TotalShift(rounds: nat): nat {
    if rounds == 0 then 0 else TotalShift(rounds - 1) + KeyShift(rounds - 1)
  }

  lemma TotalShiftBound(rounds: nat)
    requires rounds <= 16
    ensures TotalShift(rounds) <= 28
  {
    assert TotalShift(4) == 6 && TotalShift(8) == 14 && TotalShift(12) == 21 && TotalShift(16) == 28;
  }

  lemma {:induction false} ShiftedIsRotation(half: KeyHalf, rounds: nat)
    requires rounds <= 16
    ensures TotalShift(rounds) <= 28 && Shifted(half, rounds) == RotateLeft(half, TotalShift(rounds))
  {
    TotalShiftBound(rounds);
    if rounds > 0 {
      ShiftedIsRotation(half, rounds - 1);
      RotateTwice(half, TotalShift(rounds - 1), KeyShift(rounds - 1));
    }
  }

  lemma RotateTwice(s: KeyHalf, a: nat, b: nat)
    requires a + b <= 28
    ensures RotateLeft(RotateLeft(s, a), b) == RotateLeft(s, a + b)
  {
  }
}
