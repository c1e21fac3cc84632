/**
  Objects, things and their lists in the save file: the linked lists are rebuilt node by node, and
  what pointed to a node is saved as the node's place in its list.
 */
module SavedLists {
  import opened HostBytes
  import opened Wrappers
  import opened Words
  import opened Keystream
  import opened SaveCodec

  const RSID_STATS: Int32 := 0xABCD_0001 - 0x1_0000_0000
  const RSID_THING: Int32 := 0xABCD_0002 - 0x1_0000_0000
  const RSID_OBJECT: Int32 := 0xABCD_0003 - 0x1_0000_0000
  const RSID_OBJECTLIST: Int32 := 0xABCD_0007 - 0x1_0000_0000
  const RSID_MONSTERLIST: Int32 := 0xABCD_0009 - 0x1_0000_0000

  const ROOMS := 9

  datatype Point = Point(x: Int32, y: Int32)

  /** The fields of an object that are saved. */
  datatype Obj = Obj(kind: Int32, pos: Point, launch: Int32, packch: Byte, damage: seq<Byte>, hurldmg: seq<Byte>,
                     count: Int32, which: Int32, hplus: Int32, dplus: Int32, arm: Int32, flags: Int32, group: Int32,
                     text: Option<Text>)
  {
    /** The arrays have their declared sizes. */
    predicate Sized() {
      |damage| == 8 && |hurldmg| == 8 && Writable(text)
    }
  }

  const NO_OBJECT := Obj(0, Point(0, 0), 0, 0, seq(8, _ => 0), seq(8, _ => 0), 0, 0, 0, 0, 0, 0, 0, None)

  datatype Stats = Stats(str: Word, exp: Int32, lvl: Int32, arm: Int32, hpt: Int32, dmg: seq<Byte>, maxhp: Int32)

  const NO_STATS := Stats(0, 0, 0, 0, 0, seq(13, _ => 0), 0)

  function ObjectWire(o: Obj, rest: Wire): Wire
    requires o.Sized()
  {
    Int(RSID_OBJECT, Int(o.kind, Int(o.pos.x, Int(o.pos.y, Int(o.launch, Char(o.packch,
      CharsWire(o.damage, CharsWire(o.hurldmg, Int(o.count, Int(o.which, Int(o.hplus, Int(o.dplus,
      Int(o.arm, Int(o.flags, Int(o.group, StringWire(o.text, rest))))))))))))))))
  }

  function StatsWire(s: Stats, rest: Wire): Wire
    requires |s.dmg| == 13
  {
    Int(RSID_STATS, Uint(s.str, Int(s.exp, Int(s.lvl, Int(s.arm, Int(s.hpt, CharsWire(s.dmg, Int(s.maxhp, rest))))))))
  }

  function ObjectsBody(s: seq<Obj>, rest: Wire): Wire
    requires forall i :: 0 <= i < |s| ==> s[i].Sized()
  {
    if s == [] then rest else ObjectWire(s[0], ObjectsBody(s[1..], rest))
  }

  function ObjectListWire(s: seq<Obj>, rest: Wire): Wire
    requires ObjectsSized(s)
  {
    Int(RSID_OBJECTLIST, Int(|s|, ObjectsBody(s, rest)))
  }

  method WriteCoord(wr: Writer, c: Point, ghost rest: Wire)
    requires wr.k.Valid()
    modifies wr`writeError, wr.file`bytes
    ensures wr.Wrote(Int(c.x, Int(c.y, rest)), rest)
  {
    hide Image;
    wr.WriteInt(c.x, Int(c.y, rest));
    wr.WriteInt(c.y, rest);
  }

  /** The coordinates are set only if both could be read. */
  method ReadCoord(rd: Reader, c: Point, ghost w: Wire) returns (r: Point)
    requires rd.k.Valid() && rd.file.Valid()
    modifies rd`readError, rd.file`pos
    ensures rd.Sticky()
    ensures old(rd.Holds(w)) && w.Int? && w.next.Int? ==> rd.Holds(w.next.next) && r == Point(w.i, w.next.i)
    ensures rd.Failed() ==> r == c
  {
    hide Image;
    r := c;
    if rd.readError || rd.formatError {
      return;
    }
    var x := rd.ReadInt(w);
    var y := rd.ReadInt(if w.Int? then w.next else w);
    if !rd.Failed() {
      r := Point(x, y);
    }
  }

  /** The characters of an array field of size n. */
  method ReadFixed(rd: Reader, n: nat, ghost w: Wire) returns (b: seq<Byte>)
    requires rd.k.Valid() && rd.file.Valid()
    modifies rd`readError, rd`formatError, rd.file`pos
    ensures rd.Sticky() && |b| == n
    ensures old(rd.Holds(w)) && w.Int? && w.i == n && w.next.Bytes? && |w.next.b| == n ==> rd.Holds(w.next.next) && b == w.next.b
    ensures old(rd.Holds(w)) && w.Int? && w.i != n ==> rd.formatError
  {
    var a := new Byte[n](_ => 0);
    rd.ReadChars(a, w);
    b := a[..];
  }

  method WriteObject(wr: Writer, o: Obj, ghost rest: Wire)
    requires wr.k.Valid() && o.Sized()
    modifies wr`writeError, wr.file`bytes
    ensures wr.Wrote(ObjectWire(o, rest), rest)
  {
    hide Image, StringWire;
    ghost var w := ObjectWire(o, rest).next;
    wr.WriteInt(RSID_OBJECT, w);
    w := w.next; wr.WriteInt(o.kind, w);
    w := w.next.next; WriteCoord(wr, o.pos, w);
    w := w.next; wr.WriteInt(o.launch, w);
    w := w.next; wr.WriteChar(o.packch, w);
    w := w.next.next; wr.WriteChars(o.damage, w);
    w := w.next.next; wr.WriteChars(o.hurldmg, w);
    w := w.next; wr.WriteInt(o.count, w);
    w := w.next; wr.WriteInt(o.which, w);
    w := w.next; wr.WriteInt(o.hplus, w);
    w := w.next; wr.WriteInt(o.dplus, w);
    w := w.next; wr.WriteInt(o.arm, w);
    w := w.next; wr.WriteInt(o.flags, w);
    w := w.next; wr.WriteInt(o.group, w);
    wr.WriteString(o.text, rest);
  }

  method ReadObject(rd: Reader, ghost o: Obj, ghost rest: Wire) returns (r: Obj)
    requires rd.k.Valid() && rd.file.Valid() && o.Sized()
    modifies rd`readError, rd`formatError, rd.file`pos
    ensures rd.Sticky()
    ensures old(rd.Holds(ObjectWire(o, rest))) ==> rd.Holds(rest) && r == o
  {
    hide Image, StringWire;
    r := NO_OBJECT;
    if rd.readError || rd.formatError {
      return;
    }
    ghost var w := ObjectWire(o, rest);
    rd.ReadMarker(RSID_OBJECT, w); w := w.next;
    var kind := rd.ReadInt(w); w := w.next;
    var pos := ReadCoord(rd, r.pos, w); w := w.next.next;
    var launch := rd.ReadInt(w); w := w.next;
    var packch := rd.ReadChar(w); w := w.next;
    var damage := ReadFixed(rd, 8, w); w := w.next.next;
    var hurldmg := ReadFixed(rd, 8, w); w := w.next.next;
    var count := rd.ReadInt(w); w := w.next;
    var which := rd.ReadInt(w); w := w.next;
    var hplus := rd.ReadInt(w); w := w.next;
    var dplus := rd.ReadInt(w); w := w.next;
    var arm := rd.ReadInt(w); w := w.next;
    var flags := rd.ReadInt(w); w := w.next;
    var group := rd.ReadInt(w); w := w.next;
    var text := rd.ReadNewString(o.text, rest);
    r := Obj(kind, pos, launch, packch, damage, hurldmg, count, which, hplus, dplus, arm, flags, group, text);
  }

  method WriteStats(wr: Writer, s: Stats, ghost rest: Wire)
    requires wr.k.Valid() && |s.dmg| == 13
    modifies wr`writeError, wr.file`bytes
    ensures wr.Wrote(StatsWire(s, rest), rest)
  {
    hide Image;
    ghost var w := StatsWire(s, rest).next;
    wr.WriteInt(RSID_STATS, w);
    w := w.next; wr.WriteUint(s.str, w);
    w := w.next; wr.WriteInt(s.exp, w);
    w := w.next; wr.WriteInt(s.lvl, w);
    w := w.next; wr.WriteInt(s.arm, w);
    w := w.next; wr.WriteInt(s.hpt, w);
    w := w.next.next; wr.WriteChars(s.dmg, w);
    wr.WriteInt(s.maxhp, rest);
  }

  method ReadStats(rd: Reader, ghost s: Stats, ghost rest: Wire) returns (r: Stats)
    requires rd.k.Valid() && rd.file.Valid() && |s.dmg| == 13
    modifies rd`readError, rd`formatError, rd.file`pos
    ensures rd.Sticky() && |r.dmg| == 13
    ensures old(rd.Holds(StatsWire(s, rest))) ==> rd.Holds(rest) && r == s
  {
    hide Image;
    r := NO_STATS;
    if rd.readError || rd.formatError {
      return;
    }
    ghost var w := StatsWire(s, rest);
    rd.ReadMarker(RSID_STATS, w); w := w.next;
    var str := rd.ReadUint(w); w := w.next;
    var exp := rd.ReadInt(w); w := w.next;
    var lvl := rd.ReadInt(w); w := w.next;
    var arm := rd.ReadInt(w); w := w.next;
    var hpt := rd.ReadInt(w); w := w.next;
    var dmg := ReadFixed(rd, 13, w); w := w.next.next;
    var maxhp := rd.ReadInt(w);
    r := Stats(str, exp, lvl, arm, hpt, dmg, maxhp);
  }

  /** The monster fields that are saved as they are. */
  datatype Body = Body(pos: Point, turn: bool, kind: Byte, disguise: Byte, oldch: Byte, flags: Int16, stats: Stats)

  const NO_BODY := Body(Point(0, 0), false, 0, 0, 0, 0, NO_STATS)

  /** Where t_dest points: to nothing, the hero, the place of a thing or of an object, the gold of a
      room, or anything else. */
  datatype Dest = Nowhere | AtHero | AtThing(thing: Thing) | AtObject(item: Thing) | AtGold(room: Int32) | Elsewhere

  /** Where t_room points: into the rooms, or to a corridor. */
  datatype RoomRef = RoomAt(i: Int32) | CorridorAt(i: Int32)

  /** A node of a list: a monster with its pack, or an object. */
  class Thing {
    var next: Thing?
    var prev: Thing?
    var obj: Obj
    var body: Body
    var dest: Dest
    var room: RoomRef
    var pack: Thing?
    var reserved: Int32

    /** new_item: all zero. */
    constructor ()
      ensures next == null && prev == null && obj == NO_OBJECT && body == NO_BODY
      ensures dest == Nowhere && pack == null && reserved == 0
    {
      next, prev, obj, body, dest, room, pack, reserved := null, null, NO_OBJECT, NO_BODY, Nowhere, CorridorAt(0), null, 0;
    }
  }

  /** The nodes of a list in order, linked both ways. */
  ghost predicate Chain(head: Thing?, nodes: seq<Thing>)
    reads nodes`next, nodes`prev
  {
    && head == NodeAt(nodes, 0)
    && (forall i :: 0 <= i < |nodes| ==> nodes[i].next == NodeAt(nodes, i + 1) && nodes[i].prev == NodeAt(nodes, i - 1))
    && forall i, j :: 0 <= i < j < |nodes| ==> nodes[i] != nodes[j]
  }

  /** The i-th node of a list; null outside it. */
  ghost function NodeAt(nodes: seq<Thing>, i: int): Thing? {
    if 0 <= i < |nodes| then nodes[i] else null
  }

  ghost function NodesOf(p: seq<Thing>): set<Thing> {
    set t | t in p
  }

  /** The place of a node in a list, -1 if it is not there. */
  ghost function PlaceOf(nodes: seq<Thing>, t: Thing?): (i: int)
    ensures -1 <= i < |nodes|
    ensures i >= 0 ==> nodes[i] == t
    ensures i == -1 <==> t == null || t !in nodes
  {
    if t == null then -1
    else if exists i :: 0 <= i < |nodes| && nodes[i] == t then
      var i :| 0 <= i < |nodes| && nodes[i] == t; i
    else -1
  }

  /** In a list, place and node determine each other. */
  lemma PlaceIsNode(head: Thing?, nodes: seq<Thing>, i: nat)
    requires Chain(head, nodes) && i < |nodes|
    ensures PlaceOf(nodes, nodes[i]) == i && NodeAt(nodes, PlaceOf(nodes, nodes[i])) == nodes[i]
  {
  }

  /** Walking along a list. */
  lemma AtNode(head: Thing?, nodes: seq<Thing>, n: nat, t: Thing?)
    requires Chain(head, nodes) && t == NodeAt(nodes, n)
    ensures t != null ==> n < |nodes| && t == nodes[n] && t.next == NodeAt(nodes, n + 1)
    ensures t == null ==> n >= |nodes|
  {
  }

  lemma AtHead(head: Thing?, nodes: seq<Thing>)
    requires Chain(head, nodes)
    ensures head == NodeAt(nodes, 0)
  {
  }

  method ListSize(l: Thing?, ghost nodes: seq<Thing>) returns (count: nat)
    requires Chain(l, nodes)
    ensures count == |nodes|
  {
    count := 0;
    var t := l;
    while t != null
      invariant count <= |nodes| && t == NodeAt(nodes, count)
      decreases |nodes| - count
    {
      t := t.next;
      count := count + 1;
    }
  }

  method GetListItem(l: Thing?, i: int, ghost nodes: seq<Thing>) returns (t: Thing?)
    requires Chain(l, nodes)
    ensures t == NodeAt(nodes, i)
  {
    var count := 0;
    t := l;
    while t != null
      invariant 0 <= count <= |nodes| && t == NodeAt(nodes, count)
      invariant i < 0 || i >= count
      decreases |nodes| - count
    {
      if count == i {
        return;
      }
      t := t.next;
      count := count + 1;
    }
  }

  method FindListPtr(l: Thing?, p: Thing?, ghost nodes: seq<Thing>) returns (count: int)
    requires Chain(l, nodes)
    ensures count == PlaceOf(nodes, p)
  {
    count := 0;
    var t := l;
    while t != null
      invariant 0 <= count <= |nodes| && t == NodeAt(nodes, count)
      invariant forall j :: 0 <= j < count ==> nodes[j] != p
      decreases |nodes| - count
    {
      if t == p {
        PlaceIsNode(l, nodes, count);
        return;
      }
      t := t.next;
      count := count + 1;
    }
    return -1;
  }

  ghost function ObjectsOf(nodes: seq<Thing>): (s: seq<Obj>)
    reads nodes`obj
    ensures |s| == |nodes| && forall i :: 0 <= i < |nodes| ==> s[i] == nodes[i].obj
  {
    if nodes == [] then [] else [nodes[0].obj] + ObjectsOf(nodes[1..])
  }

  predicate ObjectsSized(s: seq<Obj>) {
    |s| < 0x8000_0000 && forall i :: 0 <= i < |s| ==> s[i].Sized()
  }

  /** The marker of a list and the number of its entries. */
  method WriteCount(wr: Writer, id: Int32, l: Thing?, ghost nodes: seq<Thing>, ghost rest: Wire) returns (size: nat)
    requires wr.k.Valid() && Chain(l, nodes) && |nodes| < 0x8000_0000
    modifies wr`writeError, wr.file`bytes
    ensures size == |nodes| && wr.Wrote(Int(id, Int(|nodes|, rest)), rest)
  {
    hide Image, Chain;
    wr.WriteInt(id, Int(|nodes|, rest));
    size := ListSize(l, nodes);
    wr.WriteInt(size, rest);
  }

  method WriteObjectList(wr: Writer, l: Thing?, ghost nodes: seq<Thing>, ghost rest: Wire)
    requires wr.k.Valid() && Chain(l, nodes) && ObjectsSized(ObjectsOf(nodes))
    modifies wr`writeError, wr.file`bytes
    ensures wr.Wrote(ObjectListWire(ObjectsOf(nodes), rest), rest)
  {
    hide Image, ObjectWire, Chain, NodeAt, ObjectsOf;
    if wr.writeError {
      return;
    }
    AtHead(l, nodes);
    ghost var s := ObjectsOf(nodes);
    var size := WriteCount(wr, RSID_OBJECTLIST, l, nodes, ObjectsBody(s, rest));
    var t := l;
    ghost var n := 0;
    assert s[0..] == s;
    while t != null
      invariant 0 <= n <= |nodes| && t == NodeAt(nodes, n)
      invariant wr.Wrote(ObjectListWire(s, rest), ObjectsBody(s[n..], rest))
      decreases |nodes| - n
    {
      AtNode(l, nodes, n, t);
      assert s[n..][1..] == s[n + 1..];
      WriteObject(wr, t.obj, ObjectsBody(s[n + 1..], rest));
      t := t.next;
      n := n + 1;
    }
    AtNode(l, nodes, n, t);
  }

  /** Link a new node behind the last one of a list. */
  method LinkLast(head: Thing?, ghost nodes: seq<Thing>, previous: Thing?, l: Thing) returns (head1: Thing)
    requires Chain(head, nodes) && previous == NodeAt(nodes, |nodes| - 1)
    requires l !in nodes && l.next == null
    modifies l`prev, if previous == null then {} else {previous}`next
    ensures Chain(head1, nodes + [l]) && NodeAt(nodes + [l], |nodes|) == l
  {
    l.prev := previous;
    if previous != null {
      previous.next := l;
      head1 := head;
    } else {
      head1 := l;
    }
  }

  /** Read one more object into a new node at the end of the list. */
  method AppendObject(rd: Reader, head: Thing?, ghost nodes: seq<Thing>, previous: Thing?, ghost o: Obj, ghost rest: Wire)
    returns (head1: Thing, l: Thing)
    requires rd.k.Valid() && rd.file.Valid() && o.Sized()
    requires Chain(head, nodes) && previous == NodeAt(nodes, |nodes| - 1)
    modifies rd`readError, rd`formatError, rd.file`pos, if previous == null then {} else {previous}`next
    ensures rd.Sticky() && fresh(l) && l !in nodes
    ensures Chain(head1, nodes + [l]) && NodeAt(nodes + [l], |nodes|) == l
    ensures old(rd.Holds(ObjectWire(o, rest))) ==> rd.Holds(rest) && l.obj == o
  {
    hide Image, ObjectWire, Chain, NodeAt;
    l := new Thing();
    head1 := LinkLast(head, nodes, previous, l);
    l.obj := ReadObject(rd, o, rest);
  }

  /** The marker of a list and the number of its entries. */
  method ReadCount(rd: Reader, id: Int32, ghost w: Wire) returns (count: Int32)
    requires rd.k.Valid() && rd.file.Valid()
    modifies rd`readError, rd`formatError, rd.file`pos
    ensures rd.Sticky()
    ensures old(rd.Holds(w)) && w.Int? && w.i == id && w.next.Int? ==> rd.Holds(w.next.next) && count == w.next.i
  {
    hide Image;
    rd.ReadMarker(id, w);
    count := rd.ReadInt(if w.Int? then w.next else w);
  }

  method ReadObjectList(rd: Reader, ghost s: seq<Obj>, ghost rest: Wire) returns (head: Thing?, ghost nodes: seq<Thing>)
    requires rd.k.Valid() && rd.file.Valid() && ObjectsSized(s)
    modifies rd`readError, rd`formatError, rd.file`pos
    ensures rd.Sticky() && Chain(head, nodes) && |nodes| < 0x8000_0000 && forall t :: t in nodes ==> fresh(t)
    ensures old(rd.Holds(ObjectListWire(s, rest))) ==> rd.Holds(rest) && ObjectsOf(nodes) == s
  {
    hide Image, ObjectWire, Chain, NodeAt, ObjectsOf;
    head, nodes := null, [];
    EmptyChain();
    if rd.readError || rd.formatError {
      return;
    }
    ghost var held := rd.Holds(ObjectListWire(s, rest));
    var count := ReadCount(rd, RSID_OBJECTLIST, ObjectListWire(s, rest));
    var previous: Thing? := null;
    var i := 0;
    assert s[0..] == s;
    while i < count
      invariant rd.file.Valid() && i == |nodes| && (i == 0 || i <= count)
      invariant previous == NodeAt(nodes, i - 1) && (previous == null || previous in nodes)
      invariant Chain(head, nodes) && forall t :: t in nodes ==> fresh(t)
      invariant held ==> count == |s| && i <= |s| && rd.Holds(ObjectsBody(s[i..], rest))
      invariant held ==> forall j :: 0 <= j < i ==> nodes[j].obj == s[j]
    {
      if held {
        assert s[i..][1..] == s[i + 1..];
      }
      head, previous := AppendObject(rd, head, nodes, previous, if held then s[i] else NO_OBJECT,
                                     if held then ObjectsBody(s[i + 1..], rest) else rest);
      nodes := nodes + [previous];
      i := i + 1;
    }
  }

  lemma EmptyChain()
    ensures Chain(null, []) && NodeAt([], -1) == null
  {
  }
}
