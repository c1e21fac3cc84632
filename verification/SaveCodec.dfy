/**
  The rs_write_ and rs_read_ functions for scalars, strings and arrays: what a writer on one host
  puts into the file, the reader on any host gets out again. Errors stick: after the first one
  nothing more is written or read.
 */
module SaveCodec {
  import opened Words
  import opened HostBytes
  import opened Wrappers
  import opened Keystream

  type Int32 = x: int | -0x8000_0000 <= x < 0x8000_0000
  type Int16 = x: int | -0x8000 <= x < 0x8000

  /** What a file is to hold, value by value. */
  datatype Wire =
    | Stop
    | Int(i: Int32, next: Wire)
    | Uint(u: Word, next: Wire)
    | Short(s: Int16, next: Wire)
    | Char(c: Byte, next: Wire)
    | Bytes(b: seq<Byte>, next: Wire)

  /** Two's complement. */
  function ToWord(x: Int32): Word {
    if x < 0 then x + WORD_LIMIT else x
  }

  function ToInt(w: Word): Int32 {
    if w < 0x8000_0000 then w else w - WORD_LIMIT
  }

  function ShortToWord(x: Int16): (w: int)
    ensures 0 <= w < 0x1_0000
  {
    if x < 0 then x + 0x1_0000 else x
  }

  function ToShort(w: int): Int16
    requires 0 <= w < 0x1_0000
  {
    if w < 0x8000 then w else w - 0x1_0000
  }

  /** How the host lays a short out in memory, and reads it. */
  function StoreShort(x: Int16, bigEndian: bool): (b: seq<Byte>)
    ensures |b| == 2
  {
    var w := ShortToWord(x);
    if bigEndian then [w / 256, w % 256] else [w % 256, w / 256]
  }

  function LoadShort(b: seq<Byte>, bigEndian: bool): Int16
    requires |b| == 2
  {
    if bigEndian then ToShort(b[0] as int * 256 + b[1]) else ToShort(b[1] as int * 256 + b[0])
  }

  /** The chunk a value is written as: integers with the lowest byte first. */
  function Chunk(w: Wire): seq<Byte> {
    match w
    case Stop => []
    case Int(i, _) => StoreInt(ToWord(i), false)
    case Uint(u, _) => StoreInt(u, false)
    case Short(s, _) => StoreShort(s, false)
    case Char(c, _) => [c]
    case Bytes(b, _) => b
  }

  /** The bytes of a file that holds w. */
  function Image(k: Keys, w: Wire): seq<Byte>
    requires k.Valid()
    decreases w
  {
    if w.Stop? then [] else Enciphered(k, Chunk(w)) + Image(k, w.next)
  }

  function IntsBody(s: seq<Int32>, rest: Wire): Wire {
    if s == [] then rest else Int(s[0], IntsBody(s[1..], rest))
  }

  function BooleansBody(s: seq<bool>, rest: Wire): Wire {
    if s == [] then rest else Char(if s[0] then 1 else 0, BooleansBody(s[1..], rest))
  }

  function CharsWire(b: seq<Byte>, rest: Wire): Wire
    requires |b| < 0x8000_0000
  {
    Int(|b|, Bytes(b, rest))
  }

  /** A string in memory: none, or one short enough for its length to be an int. */
  predicate Writable(s: Option<Text>) {
    s.Some? ==> |s.value| + 1 < 0x8000_0000
  }

  function Buffer(s: Option<Text>): seq<Byte> {
    if s.None? then [] else s.value + [0]
  }

  /** rs_write_string writes the length twice. */
  function StringWire(s: Option<Text>, rest: Wire): Wire
    requires Writable(s)
  {
    Int(|Buffer(s)|, CharsWire(Buffer(s), rest))
  }

  function StringsBody(s: seq<Option<Text>>, rest: Wire): Wire
    requires forall i :: 0 <= i < |s| ==> Writable(s[i])
  {
    if s == [] then rest else StringWire(s[0], StringsBody(s[1..], rest))
  }

  /** The string that starts a buffer. */
  function UntilZero(b: seq<Byte>): Text {
    if b == [] || b[0] == 0 then [] else [b[0]] + UntilZero(b[1..])
  }

  lemma {:induction false} UntilZeroOfBuffer(s: Text)
    ensures UntilZero(s + [0]) == s
  {
    if s != [] {
      assert (s + [0])[1..] == s[1..] + [0];
      UntilZeroOfBuffer(s[1..]);
      assert [s[0]] + s[1..] == s;
    }
  }

  /** The bytes of an int taken in reverse. */
  function Reversed4(b: seq<Byte>): (r: seq<Byte>)
    requires |b| == 4
    ensures |r| == 4
  {
    [b[3], b[2], b[1], b[0]]
  }

  lemma SameOnBothHosts(x: Word)
    ensures Reversed4(StoreInt(x, true)) == StoreInt(x, false)
  {
  }

  lemma LoadedFromFile(b: seq<Byte>, x: Word)
    requires b == StoreInt(x, false)
    ensures LoadInt(b, false) == x && LoadInt(Reversed4(b), true) == x
  {
    LoadOfStore(x, false);
  }

  lemma Associative(a: seq<Byte>, b: seq<Byte>, c: seq<Byte>)
    ensures a + (b + c) == (a + b) + c
  {
  }

  class Writer {
    const k: Keys
    const file: File
    const bigEndian: bool
    var writeError: bool

    constructor (k: Keys, file: File, bigEndian: bool)
      ensures this.k == k && this.file == file && this.bigEndian == bigEndian && !writeError
    {
      this.k, this.file, this.bigEndian, writeError := k, file, bigEndian, false;
    }

    /** The file as it will be when w is written too. */
    ghost function Whole(w: Wire): seq<Byte>
      requires k.Valid()
      reads file
    {
      file.bytes + Image(k, w)
    }

    /** What a call that writes the values of w before rest does: with room for them, and no earlier
        error, exactly their bytes are added; after an earlier error nothing is; and never more than
        there is room for. */
    twostate predicate Wrote(w: Wire, rest: Wire)
      requires k.Valid()
      reads this, file
    {
      && (old(writeError) ==> writeError && file.bytes == old(file.bytes))
      && (writeError || Whole(rest) == old(Whole(w)))
      && (!old(writeError) && |old(Whole(w))| <= file.room ==> !writeError)
      && (old(|file.bytes|) <= file.room ==> |file.bytes| <= file.room)
    }

    method Write(b: seq<Byte>, ghost w: Wire)
      requires k.Valid()
      modifies this`writeError, file`bytes
      ensures !w.Stop? && b == Chunk(w) ==> Wrote(w, w.next)
      ensures old(writeError) ==> writeError && file.bytes == old(file.bytes)
      ensures old(|file.bytes|) <= file.room ==> |file.bytes| <= file.room
    {
      if writeError {
        return;
      }
      hide Enciphered, Chunk;
      var written := EncWrite(file, k, b);
      if written != |b| {
        writeError := true;
      }
      assert written == |b| ==> Enciphered(k, b)[..written] == Enciphered(k, b);
      if !w.Stop? {
        Associative(old(file.bytes), Enciphered(k, b), Image(k, w.next));
      }
    }

    method WriteInt(c: Int32, ghost rest: Wire)
      requires k.Valid()
      modifies this`writeError, file`bytes
      ensures Wrote(Int(c, rest), rest)
    {
      hide StoreInt, Image;
      var buf := StoreInt(ToWord(c), bigEndian);
      if bigEndian {
        buf := Reversed4(buf);
        SameOnBothHosts(ToWord(c));
      }
      Write(buf, Int(c, rest));
    }

    method WriteUint(c: Word, ghost rest: Wire)
      requires k.Valid()
      modifies this`writeError, file`bytes
      ensures Wrote(Uint(c, rest), rest)
    {
      hide StoreInt, Image;
      var buf := StoreInt(c, bigEndian);
      if bigEndian {
        buf := Reversed4(buf);
        SameOnBothHosts(c);
      }
      Write(buf, Uint(c, rest));
    }

    method WriteShort(c: Int16, ghost rest: Wire)
      requires k.Valid()
      modifies this`writeError, file`bytes
      ensures Wrote(Short(c, rest), rest)
    {
      hide Image;
      var buf := StoreShort(c, bigEndian);
      if bigEndian {
        buf := [buf[1], buf[0]];
      }
      Write(buf, Short(c, rest));
    }

    method WriteChar(c: Byte, ghost rest: Wire)
      requires k.Valid()
      modifies this`writeError, file`bytes
      ensures Wrote(Char(c, rest), rest)
    {
      hide Image;
      Write([c], Char(c, rest));
    }

    method WriteBoolean(c: bool, ghost rest: Wire)
      requires k.Valid()
      modifies this`writeError, file`bytes
      ensures Wrote(Char(if c then 1 else 0, rest), rest)
    {
      WriteChar(if c then 1 else 0, rest);
    }

    method WriteChars(c: seq<Byte>, ghost rest: Wire)
      requires k.Valid() && |c| < 0x8000_0000
      modifies this`writeError, file`bytes
      ensures Wrote(CharsWire(c, rest), rest)
    {
      hide Image;
      WriteInt(|c|, Bytes(c, rest));
      Write(c, Bytes(c, rest));
    }

    method WriteString(s: Option<Text>, ghost rest: Wire)
      requires k.Valid() && Writable(s)
      modifies this`writeError, file`bytes
      ensures Wrote(StringWire(s, rest), rest)
    {
      hide Image;
      var buf := Buffer(s);
      WriteInt(|buf|, CharsWire(buf, rest));
      WriteChars(buf, rest);
    }

    method WriteInts(c: seq<Int32>, ghost rest: Wire)
      requires k.Valid() && |c| < 0x8000_0000
      modifies this`writeError, file`bytes
      ensures Wrote(Int(|c|, IntsBody(c, rest)), rest)
    {
      hide Image;
      if writeError {
        return;
      }
      WriteInt(|c|, IntsBody(c, rest));
      var n := 0;
      assert c[0..] == c;
      while n < |c| && !writeError
        invariant 0 <= n <= |c|
        invariant Wrote(Int(|c|, IntsBody(c, rest)), IntsBody(c[n..], rest))
      {
        assert c[n..][1..] == c[n + 1..];
        WriteInt(c[n], IntsBody(c[n + 1..], rest));
        n := n + 1;
      }
    }

    method WriteBooleans(c: seq<bool>, ghost rest: Wire)
      requires k.Valid() && |c| < 0x8000_0000
      modifies this`writeError, file`bytes
      ensures Wrote(Int(|c|, BooleansBody(c, rest)), rest)
    {
      hide Image;
      if writeError {
        return;
      }
      WriteInt(|c|, BooleansBody(c, rest));
      var n := 0;
      assert c[0..] == c;
      while n < |c| && !writeError
        invariant 0 <= n <= |c|
        invariant Wrote(Int(|c|, BooleansBody(c, rest)), BooleansBody(c[n..], rest))
      {
        assert c[n..][1..] == c[n + 1..];
        WriteBoolean(c[n], BooleansBody(c[n + 1..], rest));
        n := n + 1;
      }
    }

    method WriteStrings(c: seq<Option<Text>>, ghost rest: Wire)
      requires k.Valid() && |c| < 0x8000_0000 && forall i :: 0 <= i < |c| ==> Writable(c[i])
      modifies this`writeError, file`bytes
      ensures Wrote(Int(|c|, StringsBody(c, rest)), rest)
    {
      hide Image, StringWire;
      if writeError {
        return;
      }
      WriteInt(|c|, StringsBody(c, rest));
      var n := 0;
      assert c[0..] == c;
      while n < |c| && !writeError
        invariant 0 <= n <= |c|
        invariant Wrote(Int(|c|, StringsBody(c, rest)), StringsBody(c[n..], rest))
      {
        assert c[n..][1..] == c[n + 1..];
        WriteString(c[n], StringsBody(c[n + 1..], rest));
        n := n + 1;
      }
    }
  }

  class Reader {
    const k: Keys
    const file: File
    const bigEndian: bool
    var readError: bool
    var formatError: bool

    constructor (k: Keys, file: File, bigEndian: bool)
      ensures this.k == k && this.file == file && this.bigEndian == bigEndian && !readError && !formatError
    {
      this.k, this.file, this.bigEndian, readError, formatError := k, file, bigEndian, false, false;
    }

    predicate Failed()
      reads this
    {
      readError || formatError
    }

    /** No error yet, and the rest of the file begins with the values of w. */
    ghost predicate Holds(w: Wire)
      requires k.Valid()
      reads this, file
    {
      !Failed() && file.Valid() && Image(k, w) <= file.bytes[file.pos..]
    }

    /** Errors stick: after one nothing more is read. */
    twostate predicate Sticky()
      reads this, file
    {
      file.Valid() && (old(Failed()) ==> Failed() && file.pos == old(file.pos))
    }

    lemma NextChunk(w: Wire)
      requires k.Valid() && Holds(w) && !w.Stop?
      ensures file.pos + |Chunk(w)| <= |file.bytes|
      ensures Enciphered(k, file.bytes[file.pos..file.pos + |Chunk(w)|]) == Chunk(w)
      ensures Image(k, w.next) <= file.bytes[file.pos + |Chunk(w)|..]
    {
      var rest := file.bytes[file.pos..];
      var n := |Chunk(w)|;
      assert Image(k, w)[..n] == Enciphered(k, Chunk(w)) && Image(k, w)[n..] == Image(k, w.next);
      assert rest[..n] == file.bytes[file.pos..file.pos + n] && rest[n..] == file.bytes[file.pos + n..];
      assert rest[..n] == Image(k, w)[..n];
      EncipheredTwice(k, Chunk(w));
    }

    /** rs_read: a chunk of the array's size; a file that is too short is an error. */
    method Read(start: array<Byte>, ghost w: Wire)
      requires k.Valid() && file.Valid()
      modifies this`readError, file`pos, start
      ensures Sticky() && formatError == old(formatError)
      ensures old(Holds(w)) && !w.Stop? && |Chunk(w)| == start.Length ==> Holds(w.next) && start[..] == Chunk(w)
      ensures !old(Failed()) ==> (readError <==> |file.bytes| - old(file.pos) < start.Length)
    {
      hide Enciphered, Chunk, Image;
      if readError || formatError {
        return;
      }
      ghost var held, at := Holds(w) && !w.Stop? && |Chunk(w)| == start.Length, file.pos;
      if held {
        NextChunk(w);
      }
      var n := EncRead(file, k, start);
      if n != start.Length {
        readError := true;
      }
      if held {
        assert file.pos == at + start.Length;
        assert Image(k, w.next) <= file.bytes[file.pos..];
      }
    }

    method ReadInt(ghost w: Wire) returns (i: Int32)
      requires k.Valid() && file.Valid()
      modifies this`readError, file`pos
      ensures Sticky() && formatError == old(formatError)
      ensures old(Holds(w)) && w.Int? ==> Holds(w.next) && i == w.i
    {
      hide StoreInt, LoadInt, Image;
      i := 0;
      if readError || formatError {
        return;
      }
      var input := new Byte[4](_ => 0);
      Read(input, w);
      var buf := input[..];
      if w.Int? && buf == Chunk(w) {
        LoadedFromFile(buf, ToWord(w.i));
      }
      if bigEndian {
        buf := Reversed4(buf);
      }
      i := ToInt(LoadInt(buf, bigEndian));
    }

    method ReadUint(ghost w: Wire) returns (u: Word)
      requires k.Valid() && file.Valid()
      modifies this`readError, file`pos
      ensures Sticky() && formatError == old(formatError)
      ensures old(Holds(w)) && w.Uint? ==> Holds(w.next) && u == w.u
    {
      hide StoreInt, LoadInt, Image;
      u := 0;
      if readError || formatError {
        return;
      }
      var input := new Byte[4](_ => 0);
      Read(input, w);
      var buf := input[..];
      if w.Uint? && buf == Chunk(w) {
        LoadedFromFile(buf, w.u);
      }
      if bigEndian {
        buf := Reversed4(buf);
      }
      u := LoadInt(buf, bigEndian);
    }

    method ReadShort(ghost w: Wire) returns (i: Int16)
      requires k.Valid() && file.Valid()
      modifies this`readError, file`pos
      ensures Sticky() && formatError == old(formatError)
      ensures old(Holds(w)) && w.Short? ==> Holds(w.next) && i == w.s
    {
      hide Image;
      i := 0;
      if readError || formatError {
        return;
      }
      var input := new Byte[2](_ => 0);
      Read(input, w);
      var buf := input[..];
      if bigEndian {
        buf := [buf[1], buf[0]];
      }
      i := LoadShort(buf, bigEndian);
    }

    method ReadChar(ghost w: Wire) returns (c: Byte)
      requires k.Valid() && file.Valid()
      modifies this`readError, file`pos
      ensures Sticky() && formatError == old(formatError)
      ensures old(Holds(w)) && w.Char? ==> Holds(w.next) && c == w.c
    {
      hide Image;
      c := 0;
      if readError || formatError {
        return;
      }
      var input := new Byte[1](_ => 0);
      Read(input, w);
      c := input[0];
    }

    method ReadBoolean(ghost w: Wire) returns (b: bool)
      requires k.Valid() && file.Valid()
      modifies this`readError, file`pos
      ensures Sticky() && formatError == old(formatError)
      ensures old(Holds(w)) && w.Char? ==> Holds(w.next) && b == (w.c != 0)
    {
      b := false;
      if readError || formatError {
        return;
      }
      var c := ReadChar(w);
      b := c != 0;
    }

    /** Exactly the marker is accepted. */
    method ReadMarker(id: Int32, ghost w: Wire)
      requires k.Valid() && file.Valid()
      modifies this`readError, this`formatError, file`pos
      ensures Sticky()
      ensures old(Holds(w)) && w.Int? && w.i == id ==> Holds(w.next)
      ensures old(Holds(w)) && w.Int? && w.i != id ==> formatError
    {
      hide Image;
      if readError || formatError {
        return;
      }
      var nid := ReadInt(w);
      if !Failed() && id != nid {
        formatError := true;
      }
    }

    method ReadChars(a: array<Byte>, ghost w: Wire)
      requires k.Valid() && file.Valid()
      modifies this`readError, this`formatError, file`pos, a
      ensures Sticky()
      ensures old(Holds(w)) && w.Int? && w.i == a.Length && w.next.Bytes? && |w.next.b| == a.Length ==>
        Holds(w.next.next) && a[..] == w.next.b
      ensures old(Holds(w)) && w.Int? && w.i != a.Length ==> formatError
    {
      hide Image;
      if readError || formatError {
        return;
      }
      var value := ReadInt(w);
      if value != a.Length {
        formatError := true;
      }
      Read(a, if w.Int? then w.next else w);
    }

    /** A string of its own; none if its length is zero. A negative length cannot be allocated. */
    method ReadNewString(ghost s: Option<Text>, ghost rest: Wire) returns (r: Option<Text>)
      requires k.Valid() && file.Valid() && Writable(s)
      modifies this`readError, this`formatError, file`pos
      ensures Sticky()
      ensures old(Holds(StringWire(s, rest))) ==> Holds(rest) && r == s
    {
      hide Image;
      r := None;
      if readError || formatError {
        return;
      }
      ghost var w := StringWire(s, rest);
      var len: int := ReadInt(w);
      if len < 0 {
        readError := true;
        len := 0;
      }
      var buf := new Byte[len](_ => 0);
      ReadChars(buf, w.next);
      if len != 0 {
        r := Some(UntilZero(buf[..]));
      }
      if s.Some? {
        UntilZeroOfBuffer(s.value);
      }
    }

    method ReadInts(a: array<Int32>, ghost s: seq<Int32>, ghost rest: Wire)
      requires k.Valid() && file.Valid() && |s| == a.Length < 0x8000_0000
      modifies this`readError, this`formatError, file`pos, a
      ensures Sticky()
      ensures old(Holds(Int(|s|, IntsBody(s, rest)))) ==> Holds(rest) && a[..] == s
    {
      hide Image;
      if readError || formatError {
        return;
      }
      ghost var held := Holds(Int(|s|, IntsBody(s, rest)));
      var value := ReadInt(Int(|s|, IntsBody(s, rest)));
      if value != a.Length {
        formatError := true;
      }
      var n := 0;
      assert s[0..] == s;
      while n < a.Length && !Failed()
        invariant 0 <= n <= a.Length && file.Valid()
        invariant held ==> Holds(IntsBody(s[n..], rest)) && a[..n] == s[..n]
      {
        assert s[n..][1..] == s[n + 1..];
        a[n] := ReadInt(IntsBody(s[n..], rest));
        n := n + 1;
      }
    }

    method ReadBooleans(a: array<bool>, ghost s: seq<bool>, ghost rest: Wire)
      requires k.Valid() && file.Valid() && |s| == a.Length < 0x8000_0000
      modifies this`readError, this`formatError, file`pos, a
      ensures Sticky()
      ensures old(Holds(Int(|s|, BooleansBody(s, rest)))) ==> Holds(rest) && a[..] == s
    {
      hide Image;
      if readError || formatError {
        return;
      }
      ghost var held := Holds(Int(|s|, BooleansBody(s, rest)));
      var value := ReadInt(Int(|s|, BooleansBody(s, rest)));
      if value != a.Length {
        formatError := true;
      }
      var n := 0;
      assert s[0..] == s;
      while n < a.Length && !Failed()
        invariant 0 <= n <= a.Length && file.Valid()
        invariant held ==> Holds(BooleansBody(s[n..], rest)) && a[..n] == s[..n]
      {
        assert s[n..][1..] == s[n + 1..];
        a[n] := ReadBoolean(BooleansBody(s[n..], rest));
        n := n + 1;
      }
    }

    method ReadNewStrings(a: array<Option<Text>>, ghost s: seq<Option<Text>>, ghost rest: Wire)
      requires k.Valid() && file.Valid() && |s| == a.Length < 0x8000_0000
      requires forall i :: 0 <= i < |s| ==> Writable(s[i])
      modifies this`readError, this`formatError, file`pos, a
      ensures Sticky()
      ensures old(Holds(Int(|s|, StringsBody(s, rest)))) ==> Holds(rest) && a[..] == s
    {
      hide Image, StringWire;
      if readError || formatError {
        return;
      }
      ghost var held := Holds(Int(|s|, StringsBody(s, rest)));
      var value := ReadInt(Int(|s|, StringsBody(s, rest)));
      if value != a.Length {
        formatError := true;
      }
      var n := 0;
      assert s[0..] == s;
      while n < a.Length && !Failed()
        invariant 0 <= n <= a.Length && file.Valid()
        invariant held ==> Holds(StringsBody(s[n..], rest)) && a[..n] == s[..n]
      {
        assert s[n..][1..] == s[n + 1..];
        a[n] := ReadNewString(s[n], StringsBody(s[n + 1..], rest));
        n := n + 1;
      }
    }
  }
}
