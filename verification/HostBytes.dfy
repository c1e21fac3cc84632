/** Bytes, strings, and unsigned ints as the host keeps them in memory. */
module HostBytes {
  import opened Powers
  import opened Words

  type Byte = b: nat | b < 256 witness 0

  /** What a C string holds before the zero that ends it. */
  type Text = s: seq<Byte> | 0 !in s witness []

  function XorOfBytes(a: Byte, b: Byte): Byte {
    assert Pow2(8) == 256;
    XorRange(a, b, 8);
    Xor(a, b)
  }

  /** Four bytes as an unsigned int, most significant first. */
  function Four(a: int, b: int, c: int, d: int): Word
    requires 0 <= a < 256 && 0 <= b < 256 && 0 <= c < 256 && 0 <= d < 256
  {
    ((a * 256 + b) * 256 + c) * 256 + d
  }

  function Digit(x: Word, k: nat): (d: Byte)
    requires k < 4
  {
    if k == 0 then x % 256 else if k == 1 then x / 256 % 256 else if k == 2 then x / 256 / 256 % 256 else x / 256 / 256 / 256
  }

  lemma DigitsOfFour(a: Byte, b: Byte, c: Byte, d: Byte)
    ensures Digit(Four(a, b, c, d), 0) == d && Digit(Four(a, b, c, d), 1) == c
    ensures Digit(Four(a, b, c, d), 2) == b && Digit(Four(a, b, c, d), 3) == a
  {
    var x: int := ((a * 256 + b) * 256 + c) * 256 + d;
    var y: int := (a * 256 + b) * 256 + c;
    var z: int := a * 256 + b;
    assert x / 256 == y && y / 256 == z && z / 256 == a;
  }

  lemma FourOfDigits(x: Word)
    ensures Four(Digit(x, 3), Digit(x, 2), Digit(x, 1), Digit(x, 0)) == x
  {
  }

  /** How the host reads four bytes of memory as an unsigned int. */
  function LoadInt(b: seq<Byte>, bigEndian: bool): Word
    requires |b| == 4
  {
    if bigEndian then Four(b[0], b[1], b[2], b[3]) else Four(b[3], b[2], b[1], b[0])
  }

  /** How the host lays an unsigned int out in memory. */
  function StoreInt(x: Word, bigEndian: bool): (b: seq<Byte>)
    ensures |b| == 4
  {
    if bigEndian then [Digit(x, 3), Digit(x, 2), Digit(x, 1), Digit(x, 0)]
    else [Digit(x, 0), Digit(x, 1), Digit(x, 2), Digit(x, 3)]
  }

  /** What was stored can be loaded again, whatever the order. */
  lemma LoadOfStore(x: Word, bigEndian: bool)
    ensures LoadInt(StoreInt(x, bigEndian), bigEndian) == x
  {
    FourOfDigits(x);
  }
}
