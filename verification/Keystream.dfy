/**
  encwrite and encread: a file is a row of chunks, each enciphered with two cycling keys and a
  feedback byte that start over with every chunk.
 */
module Keystream {
  import opened Powers
  import opened Words
  import opened HostBytes
  import opened Wrappers

  /** encstr and statlist: strings that are not empty; the zero that ends them is not kept. */
  datatype Keys = Keys(enc: seq<Byte>, stat: seq<Byte>)
  {
    predicate Valid() {
      |enc| > 0 && |stat| > 0 && 0 !in enc && 0 !in stat
    }
  }

  /** The sum of the products of the key characters before place i. */
  function ProductSum(enc: seq<Byte>, stat: seq<Byte>, i: nat): nat
    requires |enc| > 0 && |stat| > 0
  {
    if i == 0 then 0
    else ProductSum(enc, stat, i - 1) + enc[(i - 1) % |enc|] as int * stat[(i - 1) % |stat|] as int
  }

  /** The feedback byte before the i-th byte of a chunk: that sum, as a char. */
  function Feedback(k: Keys, i: nat): Byte
    requires k.Valid()
  {
    ProductSum(k.enc, k.stat, i) % 256
  }

  /** fb + the product of the two key characters, as a char. */
  function NextFeedback(fb: int, a: int, b: int): Byte {
    (fb + a * b) % 256
  }

  lemma FeedbackGrows(k: Keys, i: nat)
    requires k.Valid()
    ensures Feedback(k, i + 1) == NextFeedback(Feedback(k, i), k.enc[i % |k.enc|], k.stat[i % |k.stat|])
  {
    ReducedFirst(ProductSum(k.enc, k.stat, i), k.enc[i % |k.enc|] as int * k.stat[i % |k.stat|] as int);
  }

  lemma ReducedFirst(a: int, b: int)
    ensures (a + b) % 256 == (a % 256 + b) % 256
  {
  }

  /** The character a key that is used over and over shows in place i. */
  function KeyByte(key: seq<Byte>, i: nat): Byte
    requires |key| > 0
  {
    key[i % |key|]
  }

  /** What the i-th byte of a chunk is combined with. */
  function StreamByte(k: Keys, i: nat): Byte
    requires k.Valid()
  {
    XorOfBytes(XorOfBytes(KeyByte(k.enc, i), KeyByte(k.stat, i)), Feedback(k, i))
  }

  lemma {:induction false} XorAssociative(a: nat, b: nat, c: nat)
    ensures Xor(Xor(a, b), c) == Xor(a, Xor(b, c))
    decreases a + b + c
  {
    if a != 0 || b != 0 || c != 0 {
      XorAssociative(a / 2, b / 2, c / 2);
    }
  }

  /** A chunk enciphered; the same again deciphers it. */
  function Enciphered(k: Keys, data: seq<Byte>): (r: seq<Byte>)
    requires k.Valid()
    ensures |r| == |data|
  {
    seq(|data|, i requires 0 <= i < |data| => XorOfBytes(data[i], StreamByte(k, i)))
  }

  lemma ThreeXors(b: Byte, x: Byte, y: Byte, z: Byte)
    ensures XorOfBytes(XorOfBytes(XorOfBytes(b, x), y), z) == XorOfBytes(b, XorOfBytes(XorOfBytes(x, y), z))
  {
    XorAssociative(b, x, y);
    XorAssociative(b, Xor(x, y), z);
  }

  /** What becomes of byte i of a chunk: it is combined with the two key characters that stand in its place,
      and with the sum of the products of the ones before. */
  function PlainlyEnciphered(enc: seq<Byte>, stat: seq<Byte>, b: Byte, i: nat): nat
    requires |enc| > 0 && |stat| > 0
  {
    Xor(Xor(Xor(b, enc[i % |enc|]), stat[i % |stat|]), ProductSum(enc, stat, i) % 256)
  }

  /** Every byte of an enciphered chunk. */
  lemma EncipheredByte(k: Keys, data: seq<Byte>, i: nat)
    requires k.Valid() && i < |data|
    ensures Enciphered(k, data)[i] == PlainlyEnciphered(k.enc, k.stat, data[i], i)
  {
    ThreeXors(data[i], KeyByte(k.enc, i), KeyByte(k.stat, i), Feedback(k, i));
  }

  lemma EncipheredTwice(k: Keys, data: seq<Byte>)
    requires k.Valid()
    ensures Enciphered(k, Enciphered(k, data)) == data
  {
    forall i | 0 <= i < |data|
      ensures Enciphered(k, Enciphered(k, data))[i] == data[i]
    {
      XorUndo(data[i], StreamByte(k, i));
    }
  }

  /** Moving a key pointer on, back to the start at the zero that ends the key. */
  function NextKeyPlace(key: seq<Byte>, e: nat): nat
  {
    if e + 1 == |key| then 0 else e + 1
  }

  lemma KeyPlace(n: nat, i: nat)
    requires n > 0
    ensures (i + 1) % n == if i % n + 1 == n then 0 else i % n + 1
  {
    var q, r := i / n, i % n;
    NextPlace(n, i, q, r);
    if r + 1 == n {
      DivisionIsUnique(i + 1, n, q + 1, 0);
    } else {
      DivisionIsUnique(i + 1, n, q, r + 1);
    }
  }

  lemma NextPlace(n: int, i: int, q: int, r: int)
    requires i == q * n + r
    ensures i + 1 == q * n + (r + 1)
    ensures r + 1 == n ==> i + 1 == (q + 1) * n
  {
  }

  /** A file being written or read: its bytes, the place of the next one, and the room on the disk. */
  class File {
    var bytes: seq<Byte>
    var pos: nat
    const room: nat

    constructor (bytes: seq<Byte>, room: nat)
      ensures this.bytes == bytes && pos == 0 && this.room == room
    {
      this.bytes, pos, this.room := bytes, 0, room;
    }

    /** putc: one more byte, unless the disk is full. */
    method Putc(b: Byte) returns (ok: bool)
      modifies `bytes
      ensures ok <==> |old(bytes)| < room
      ensures bytes == if ok then old(bytes) + [b] else old(bytes)
    {
      ok := |bytes| < room;
      if ok {
        bytes := bytes + [b];
      }
    }

    ghost predicate Valid()
      reads this
    {
      pos <= |bytes|
    }

    /** fread: as many bytes as there are, at most n. */
    method Fread(n: nat) returns (data: seq<Byte>)
      requires Valid()
      modifies `pos
      ensures Valid() && pos >= old(pos) && |data| == (if |bytes| - old(pos) < n then |bytes| - old(pos) else n)
      ensures data == bytes[old(pos)..pos] && pos == old(pos) + |data|
    {
      var m := if |bytes| - pos < n then |bytes| - pos else n;
      data := bytes[pos..pos + m];
      pos := pos + m;
    }
  }

  /** The place of the keys and the feedback after one more byte. */
  lemma NextByte(k: Keys, i: nat)
    requires k.Valid()
    ensures NextKeyPlace(k.enc, i % |k.enc|) == (i + 1) % |k.enc|
    ensures NextKeyPlace(k.stat, i % |k.stat|) == (i + 1) % |k.stat|
    ensures Feedback(k, i + 1) == NextFeedback(Feedback(k, i), k.enc[i % |k.enc|], k.stat[i % |k.stat|])
    ensures StreamByte(k, i) == XorOfBytes(XorOfBytes(k.enc[i % |k.enc|], k.stat[i % |k.stat|]), Feedback(k, i))
  {
    FeedbackGrows(k, i);
    hide NextFeedback, Feedback;
    KeyPlace(|k.enc|, i);
    KeyPlace(|k.stat|, i);
  }

  /** Appends the enciphered chunk; a full disk cuts it short. */
  method EncWrite(f: File, k: Keys, start: seq<Byte>) returns (written: nat)
    requires k.Valid()
    modifies f`bytes
    ensures written <= |start| && f.bytes == old(f.bytes) + Enciphered(k, start)[..written]
    ensures forall i :: 0 <= i < written ==> f.bytes[|old(f.bytes)| + i] == PlainlyEnciphered(k.enc, k.stat, start[i], i)
    ensures written == |start| <==> |old(f.bytes)| + |start| <= f.room || |start| == 0
    ensures old(|f.bytes|) <= f.room ==> |f.bytes| <= f.room
  {
    hide Feedback, StreamByte, XorOfBytes, NextFeedback, NextKeyPlace, PlainlyEnciphered;
    var size, e1, e2, fb := |start|, 0, 0, 0;
    assert Feedback(k, 0) == 0 by {
      NoFeedback(k);
    }
    written := 0;
    while size > 0
      invariant 0 <= size && written + size == |start|
      invariant old(|f.bytes|) <= f.room ==> |f.bytes| <= f.room
      invariant e1 == written % |k.enc| && e2 == written % |k.stat| && fb == Feedback(k, written)
      invariant f.bytes == old(f.bytes) + Enciphered(k, start)[..written]
      invariant written == 0 || |old(f.bytes)| + written <= f.room
    {
      NextByte(k, written);
      ThreeXors(start[written], k.enc[e1], k.stat[e2], fb);
      var ok := f.Putc(XorOfBytes(XorOfBytes(XorOfBytes(start[written], k.enc[e1]), k.stat[e2]), fb));
      if !ok {
        break;
      }
      fb := NextFeedback(fb, k.enc[e1], k.stat[e2]);
      e1, e2 := NextKeyPlace(k.enc, e1), NextKeyPlace(k.stat, e2);
      written := written + 1;
      size := size - 1;
    }
    forall i | 0 <= i < written
      ensures f.bytes[|old(f.bytes)| + i] == PlainlyEnciphered(k.enc, k.stat, start[i], i)
    {
      EncipheredByte(k, start, i);
    }
  }

  lemma NoFeedback(k: Keys)
    requires k.Valid()
    ensures Feedback(k, 0) == 0
  {
  }

  /** The loop of encread: deciphers in place. */
  method DecipherInPlace(k: Keys, start: array<Byte>)
    requires k.Valid()
    modifies start
    ensures start[..] == Enciphered(k, old(start[..]))
  {
    hide Feedback, StreamByte, XorOfBytes, NextFeedback, NextKeyPlace;
    ghost var before := start[..];
    var e1, e2, fb, i := 0, 0, 0, 0;
    NoFeedback(k);
    while i < start.Length
      invariant 0 <= i <= start.Length
      invariant e1 == i % |k.enc| && e2 == i % |k.stat| && fb == Feedback(k, i)
      invariant forall j :: 0 <= j < i ==> start[j] == Enciphered(k, before)[j]
      invariant forall j :: i <= j < start.Length ==> start[j] == before[j]
    {
      NextByte(k, i);
      start[i] := XorOfBytes(start[i], XorOfBytes(XorOfBytes(k.enc[e1], k.stat[e2]), fb));
      fb := NextFeedback(fb, k.enc[e1], k.stat[e2]);
      e1, e2 := NextKeyPlace(k.enc, e1), NextKeyPlace(k.stat, e2);
      i := i + 1;
    }
  }

  /** Reads a chunk and deciphers it in place; too short a file leaves the count below the size. */
  method EncRead(f: File, k: Keys, start: array<Byte>) returns (count: nat)
    requires k.Valid() && f.Valid()
    modifies f`pos, start
    ensures f.Valid() && f.pos >= old(f.pos)
    ensures count == start.Length <==> old(f.pos) + start.Length <= |f.bytes|
    ensures count == start.Length ==> f.pos == old(f.pos) + start.Length
    ensures count == start.Length ==> start[..] == Enciphered(k, f.bytes[old(f.pos)..f.pos])
  {
    var data := f.Fread(start.Length);
    count := |data|;
    if count == 0 {
      assert start.Length == 0 ==> start[..] == [];
      return;
    }
    forall i | 0 <= i < |data| {
      start[i] := data[i];
    }
    assert count == start.Length ==> start[..] == data;
    DecipherInPlace(k, start);
  }

  /** The file that a row of encwrite calls leaves. */
  function EncipheredAll(k: Keys, chunks: seq<seq<Byte>>): seq<Byte>
    requires k.Valid()
  {
    if chunks == [] then [] else Enciphered(k, chunks[0]) + EncipheredAll(k, chunks[1..])
  }

  /** What a row of encread calls of the given sizes gets out of a file, if it is long enough. */
  function DecipheredAll(k: Keys, bytes: seq<Byte>, sizes: seq<nat>): Option<seq<seq<Byte>>>
    requires k.Valid()
    decreases sizes
  {
    if sizes == [] then Some([])
    else if |bytes| < sizes[0] then None
    else match DecipheredAll(k, bytes[sizes[0]..], sizes[1..])
      case None => None
      case Some(rest) => Some([Enciphered(k, bytes[..sizes[0]])] + rest)
  }

  function Sizes(chunks: seq<seq<Byte>>): seq<nat> {
    seq(|chunks|, i requires 0 <= i < |chunks| => |chunks[i]|)
  }

  /** Chunks written are the chunks read back with the same sizes; what follows is left alone. */
  lemma {:induction false} ChunksRecovered(k: Keys, chunks: seq<seq<Byte>>, after: seq<Byte>)
    requires k.Valid()
    ensures DecipheredAll(k, EncipheredAll(k, chunks) + after, Sizes(chunks)) == Some(chunks)
  {
    hide Enciphered;
    if chunks != [] {
      var bytes := EncipheredAll(k, chunks) + after;
      var head := Enciphered(k, chunks[0]);
      assert bytes == head + (EncipheredAll(k, chunks[1..]) + after);
      assert bytes[..|head|] == head && bytes[|head|..] == EncipheredAll(k, chunks[1..]) + after;
      assert Sizes(chunks)[1..] == Sizes(chunks[1..]);
      ChunksRecovered(k, chunks[1..], after);
      EncipheredTwice(k, chunks[0]);
      assert [chunks[0]] + chunks[1..] == chunks;
    }
  }
}
