/**
  Monsters in the save file: their packs, and where they are going, which may be another monster of
  the list being read and is then filled in afterwards.
 */
module SavedThings {
  import opened HostBytes
  import opened Words
  import opened Keystream
  import opened SaveCodec
  import opened SavedLists

  /** A monster as it is saved: its own fields, t_dest as (listid, index), its room and its pack. */
  datatype SavedThing = SavedThing(body: Body, listid: Int32, index: Int32, room: Int32, pack: seq<Obj>)
  {
    predicate Sized() {
      |body.stats.dmg| == 13 && ObjectsSized(pack)
    }
  }

  function HeadWire(b: Body, rest: Wire): Wire {
    Int(b.pos.x, Int(b.pos.y, Char(if b.turn then 1 else 0, Char(b.kind, Char(b.disguise, Char(b.oldch, rest))))))
  }

  function TailWire(b: Body, room: Int32, pack: seq<Obj>, rest: Wire): Wire
    requires |b.stats.dmg| == 13 && ObjectsSized(pack)
  {
    Short(b.flags, StatsWire(b.stats, Int(room, ObjectListWire(pack, rest))))
  }

  function ThingWire(t: SavedThing, rest: Wire): Wire
    requires t.Sized()
  {
    Int(RSID_THING, Int(1, HeadWire(t.body, Int(t.listid, Int(t.index, TailWire(t.body, t.room, t.pack, rest))))))
  }

  function ThingsBody(s: seq<SavedThing>, rest: Wire): Wire
    requires forall i :: 0 <= i < |s| ==> s[i].Sized()
  {
    if s == [] then rest else ThingWire(s[0], ThingsBody(s[1..], rest))
  }

  predicate ThingsSized(s: seq<SavedThing>) {
    |s| < 0x8000_0000 && forall i :: 0 <= i < |s| ==> s[i].Sized()
  }

  function ThingListWire(s: seq<SavedThing>, rest: Wire): Wire
    requires ThingsSized(s)
  {
    Int(RSID_MONSTERLIST, Int(|s|, ThingsBody(s, rest)))
  }

  /** How t_dest is saved: (0,0) nothing, (0,1) the hero, and anything not found becomes the hero;
      (1,i) a monster, (2,i) an object, (3,i) the gold of room i. */
  ghost function DestCode(d: Dest, mlist: seq<Thing>, objects: seq<Thing>): (r: (int, int))
    ensures CodeInRange(r.0, r.1, |mlist|, |objects|)
  {
    match d
    case Nowhere => (0, 0)
    case AtThing(t) => if PlaceOf(mlist, t) >= 0 then (1, PlaceOf(mlist, t)) else (0, 1)
    case AtObject(o) => if PlaceOf(objects, o) >= 0 then (2, PlaceOf(objects, o)) else (0, 1)
    case AtGold(i) => if 0 <= i < ROOMS then (3, i as int) else (0, 1)
    case _ => (0, 1)
  }

  predicate CodeInRange(listid: int, index: int, things: nat, objects: nat) {
    || (listid == 0 && 0 <= index <= 1)
    || (listid == 1 && 0 <= index < things)
    || (listid == 2 && 0 <= index < objects)
    || (listid == 3 && 0 <= index < ROOMS)
  }

  function RoomCode(r: RoomRef): Int32 {
    if r.RoomAt? && 0 <= r.i < ROOMS then r.i else -1
  }

  /** t_dest as rs_read_thing leaves it; a monster is only remembered by its index. */
  ghost function DestRead(before: Dest, listid: int, index: int, objects: seq<Thing>): Dest
    requires -0x8000_0000 <= index < 0x8000_0000
  {
    if listid == 0 then (if index == 1 then AtHero else Nowhere)
    else if listid == 2 then (if NodeAt(objects, index) != null then AtObject(NodeAt(objects, index)) else before)
    else if listid == 3 then AtGold(index)
    else Nowhere
  }

  /** t_dest after rs_fix_thing. */
  ghost function DestFixed(d: Dest, reserved: int, mlist: seq<Thing>): Dest {
    if reserved >= 0 && NodeAt(mlist, reserved) != null then AtThing(NodeAt(mlist, reserved)) else d
  }

  /** t_dest once a monster was read and its target fixed up. */
  ghost function TargetRead(before: Dest, listid: Int32, index: Int32, mlist: seq<Thing>, objects: seq<Thing>): Dest {
    DestFixed(DestRead(before, listid, index, objects), if listid == 1 then index else -1, mlist)
  }

  /** A target that is restored is coded again as it was read: it points to the rebuilt node in the
      same place of the same list. */
  lemma TargetSavedAgain(before: Dest, listid: Int32, index: Int32, head: Thing?, mlist: seq<Thing>, first: Thing?, objects: seq<Thing>)
    requires CodeInRange(listid, index, |mlist|, |objects|) && Chain(head, mlist) && Chain(first, objects)
    ensures DestCode(TargetRead(before, listid, index, mlist, objects), mlist, objects) == (listid, index)
  {
    if listid == 1 {
      PlaceIsNode(head, mlist, index);
    } else if listid == 2 {
      PlaceIsNode(first, objects, index);
    }
  }

  /** What a target among the saved lists becomes among the restored ones: the node in the same place;
      what is not found becomes the hero. */
  ghost function TargetTwin(d: Dest, mlist: seq<Thing>, objects: seq<Thing>, mlist1: seq<Thing>, objects1: seq<Thing>): Dest
    requires |mlist1| == |mlist| && |objects1| == |objects|
  {
    match d
    case Nowhere => Nowhere
    case AtThing(t) => if t in mlist then AtThing(mlist1[PlaceOf(mlist, t)]) else AtHero
    case AtObject(o) => if o in objects then AtObject(objects1[PlaceOf(objects, o)]) else AtHero
    case AtGold(i) => if 0 <= i < ROOMS then d else AtHero
    case _ => AtHero
  }

  lemma TargetIsTwin(before: Dest, d: Dest, mlist: seq<Thing>, objects: seq<Thing>, mlist1: seq<Thing>, objects1: seq<Thing>)
    requires |mlist1| == |mlist| < 0x8000_0000 && |objects1| == |objects| < 0x8000_0000
    ensures var (listid, index) := DestCode(d, mlist, objects);
      TargetRead(before, listid, index, mlist1, objects1) == TargetTwin(d, mlist, objects, mlist1, objects1)
  {
  }

  /** The two nodes are in the same place of the two lists. */
  ghost predicate SamePlace(nodes: seq<Thing>, t: Thing, nodes1: seq<Thing>, t1: Thing)
    requires |nodes1| == |nodes|
  {
    exists i :: 0 <= i < |nodes| && nodes[i] == t && nodes1[i] == t1
  }

  /** d1 is in the second pair of lists what d is in the first. */
  ghost predicate SameTarget(d: Dest, mlist: seq<Thing>, objects: seq<Thing>, d1: Dest, mlist1: seq<Thing>, objects1: seq<Thing>)
    requires |mlist1| == |mlist| && |objects1| == |objects|
  {
    match d
    case AtThing(t) => d1.AtThing? && SamePlace(mlist, t, mlist1, d1.thing)
    case AtObject(o) => d1.AtObject? && SamePlace(objects, o, objects1, d1.item)
    case Elsewhere => false
    case _ => d1 == d
  }

  /** rs_write_thing can name the target. */
  ghost predicate Findable(d: Dest, mlist: seq<Thing>, objects: seq<Thing>) {
    match d
    case AtThing(t) => t in mlist
    case AtObject(o) => o in objects
    case AtGold(i) => 0 <= i < ROOMS
    case Elsewhere => false
    case _ => true
  }

  /** A monster's target comes back exactly if it can be named. */
  lemma TargetComesBack(d: Dest, mlist: seq<Thing>, objects: seq<Thing>, mlist1: seq<Thing>, objects1: seq<Thing>)
    requires |mlist1| == |mlist| && |objects1| == |objects|
    ensures SameTarget(d, mlist, objects, TargetTwin(d, mlist, objects, mlist1, objects1), mlist1, objects1) <==> Findable(d, mlist, objects)
  {
    var d1 := TargetTwin(d, mlist, objects, mlist1, objects1);
    if d.AtThing? && d.thing in mlist {
      assert SamePlace(mlist, d.thing, mlist1, d1.thing);
    } else if d.AtObject? && d.item in objects {
      assert SamePlace(objects, d.item, objects1, d1.item);
    }
  }

  /** What becomes of the player's target: he is read while the objects are still those of before, so
      that a place among the objects is looked up in the old list. */
  ghost function PlayerTwin(before: Dest, d: Dest, mlist: seq<Thing>, objects: seq<Thing>, mlist1: seq<Thing>, objects1: seq<Thing>,
                            objects0: seq<Thing>): Dest
    requires |mlist1| == |mlist| && |objects1| == |objects|
  {
    if d.AtObject? && d.item in objects then
      if PlaceOf(objects, d.item) < |objects0| then AtObject(objects0[PlaceOf(objects, d.item)]) else before
    else TargetTwin(d, mlist, objects, mlist1, objects1)
  }

  lemma PlayerTargetIsTwin(before: Dest, d: Dest, mlist: seq<Thing>, objects: seq<Thing>, mlist1: seq<Thing>, objects1: seq<Thing>,
                           objects0: seq<Thing>)
    requires |mlist1| == |mlist| < 0x8000_0000 && |objects1| == |objects| < 0x8000_0000
    ensures var (listid, index) := DestCode(d, mlist, objects);
      TargetRead(before, listid, index, mlist1, objects0) == PlayerTwin(before, d, mlist, objects, mlist1, objects1, objects0)
  {
  }

  /** The player's target comes back exactly if it can be named and is no object: none of the new
      objects is among the old ones. */
  lemma PlayerTargetComesBack(before: Dest, d: Dest, mlist: seq<Thing>, objects: seq<Thing>, mlist1: seq<Thing>, objects1: seq<Thing>,
                              objects0: seq<Thing>)
    requires |mlist1| == |mlist| && |objects1| == |objects|
    requires forall t :: t in objects1 ==> t !in objects0 && before != AtObject(t)
    ensures SameTarget(d, mlist, objects, PlayerTwin(before, d, mlist, objects, mlist1, objects1, objects0), mlist1, objects1) <==>
      Findable(d, mlist, objects) && !d.AtObject?
  {
    TargetComesBack(d, mlist, objects, mlist1, objects1);
  }

  /** t_room as it comes back; a corridor becomes the room before the first one. */
  function RoomTwin(r: RoomRef): RoomRef {
    RoomAt(RoomCode(r))
  }

  lemma RoomComesBack(r: RoomRef)
    ensures RoomTwin(r) == r <==> r.RoomAt? && -1 <= r.i < ROOMS
  {
  }

  method FindThingCoord(l: Thing?, d: Dest, ghost nodes: seq<Thing>) returns (i: int)
    requires Chain(l, nodes)
    ensures i == if d.AtThing? then PlaceOf(nodes, d.thing) else -1
  {
    i := 0;
    var t := l;
    AtHead(l, nodes);
    while t != null
      invariant 0 <= i <= |nodes| && t == NodeAt(nodes, i)
      invariant d.AtThing? ==> forall j :: 0 <= j < i ==> nodes[j] != d.thing
      decreases |nodes| - i
    {
      AtNode(l, nodes, i, t);
      if d == AtThing(t) {
        PlaceIsNode(l, nodes, i);
        return;
      }
      t := t.next;
      i := i + 1;
    }
    AtNode(l, nodes, i, t);
    i := -1;
  }

  method FindObjectCoord(l: Thing?, d: Dest, ghost nodes: seq<Thing>) returns (i: int)
    requires Chain(l, nodes)
    ensures i == if d.AtObject? then PlaceOf(nodes, d.item) else -1
  {
    i := 0;
    var t := l;
    AtHead(l, nodes);
    while t != null
      invariant 0 <= i <= |nodes| && t == NodeAt(nodes, i)
      invariant d.AtObject? ==> forall j :: 0 <= j < i ==> nodes[j] != d.item
      decreases |nodes| - i
    {
      AtNode(l, nodes, i, t);
      if d == AtObject(t) {
        PlaceIsNode(l, nodes, i);
        return;
      }
      t := t.next;
      i := i + 1;
    }
    AtNode(l, nodes, i, t);
    i := -1;
  }

  method FindRoomCoord(d: Dest) returns (i: int)
    ensures i == if d.AtGold? && 0 <= d.room < ROOMS then d.room as int else -1
  {
    for k := 0 to ROOMS
      invariant d.AtGold? ==> !(0 <= d.room < k)
    {
      if d == AtGold(k) {
        return k;
      }
    }
    return -1;
  }

  /** The two numbers t_dest is written as. */
  method FindDest(d: Dest, mlist: Thing?, ghost things: seq<Thing>, lvlObj: Thing?, ghost objects: seq<Thing>)
    returns (listid: int, index: int)
    requires Chain(mlist, things) && Chain(lvlObj, objects)
    ensures (listid, index) == DestCode(d, things, objects)
  {
    hide Chain;
    if d == AtHero {
      return 0, 1;
    } else if d != Nowhere {
      var i := FindThingCoord(mlist, d, things);
      if i >= 0 {
        return 1, i;
      }
      i := FindObjectCoord(lvlObj, d, objects);
      if i >= 0 {
        return 2, i;
      }
      i := FindRoomCoord(d);
      if i >= 0 {
        return 3, i;
      }
      return 0, 1;
    }
    return 0, 0;
  }

  ghost function SavedForm(t: Thing, things: seq<Thing>, objects: seq<Thing>, pack: seq<Thing>): SavedThing
    requires |things| < 0x8000_0000 && |objects| < 0x8000_0000
    reads t`body, t`dest, t`room, pack`obj
  {
    var (listid, index) := DestCode(t.dest, things, objects);
    SavedThing(t.body, listid, index, RoomCode(t.room), ObjectsOf(pack))
  }

  method WriteRoomReference(wr: Writer, r: RoomRef, ghost rest: Wire)
    requires wr.k.Valid()
    modifies wr`writeError, wr.file`bytes
    ensures wr.Wrote(Int(RoomCode(r), rest), rest)
  {
    var room: Int32 := -1;
    for i := 0 to ROOMS
      invariant room == if r.RoomAt? && 0 <= r.i < i then r.i else -1
    {
      if r == RoomAt(i) {
        room := i;
      }
    }
    wr.WriteInt(room, rest);
  }

  method WriteHead(wr: Writer, b: Body, ghost rest: Wire)
    requires wr.k.Valid()
    modifies wr`writeError, wr.file`bytes
    ensures wr.Wrote(HeadWire(b, rest), rest)
  {
    hide Image;
    ghost var w := HeadWire(b, rest).next.next;
    WriteCoord(wr, b.pos, w);
    w := w.next; wr.WriteBoolean(b.turn, w);
    w := w.next; wr.WriteChar(b.kind, w);
    w := w.next; wr.WriteChar(b.disguise, w);
    w := w.next; wr.WriteChar(b.oldch, w);
  }

  method WriteTail(wr: Writer, b: Body, room: RoomRef, l: Thing?, ghost pack: seq<Thing>, ghost rest: Wire)
    requires wr.k.Valid() && Chain(l, pack) && ObjectsSized(ObjectsOf(pack)) && |b.stats.dmg| == 13
    modifies wr`writeError, wr.file`bytes
    ensures wr.Wrote(TailWire(b, RoomCode(room), ObjectsOf(pack), rest), rest)
  {
    hide Image, Chain, ObjectListWire, StatsWire, NodeAt, ObjectsOf, RoomCode;
    ghost var w := Int(RoomCode(room), ObjectListWire(ObjectsOf(pack), rest));
    wr.WriteShort(b.flags, StatsWire(b.stats, w));
    WriteStats(wr, b.stats, w);
    WriteRoomReference(wr, room, w.next);
    WriteObjectList(wr, l, pack, rest);
  }

  /** t_dest as its two numbers. */
  method WriteDest(wr: Writer, d: Dest, mlist: Thing?, ghost things: seq<Thing>, lvlObj: Thing?, ghost objects: seq<Thing>, ghost rest: Wire)
    requires wr.k.Valid() && Chain(mlist, things) && Chain(lvlObj, objects)
    requires |things| < 0x8000_0000 && |objects| < 0x8000_0000
    modifies wr`writeError, wr.file`bytes
    ensures wr.Wrote(Int(DestCode(d, things, objects).0, Int(DestCode(d, things, objects).1, rest)), rest)
  {
    hide Image, Chain, DestCode;
    var listid, index := FindDest(d, mlist, things, lvlObj, objects);
    wr.WriteInt(listid, Int(index, rest));
    wr.WriteInt(index, rest);
  }

  lemma FormFields(t: Thing, things: seq<Thing>, objects: seq<Thing>, pack: seq<Thing>)
    requires |things| < 0x8000_0000 && |objects| < 0x8000_0000
    ensures var s := SavedForm(t, things, objects, pack);
      && s.body == t.body && s.room == RoomCode(t.room) && s.pack == ObjectsOf(pack)
      && s.listid == DestCode(t.dest, things, objects).0 && s.index == DestCode(t.dest, things, objects).1
  {
  }

  /** Writes a monster; for none only the marker and a zero. */
  method WriteThing(wr: Writer, t: Thing?, mlist: Thing?, ghost things: seq<Thing>, lvlObj: Thing?, ghost objects: seq<Thing>,
                    ghost pack: seq<Thing>, ghost rest: Wire)
    requires wr.k.Valid() && Chain(mlist, things) && Chain(lvlObj, objects)
    requires |things| < 0x8000_0000 && |objects| < 0x8000_0000
    requires t != null ==> Chain(t.pack, pack) && SavedForm(t, things, objects, pack).Sized()
    modifies wr`writeError, wr.file`bytes
    ensures t == null ==> wr.Wrote(Int(RSID_THING, Int(0, rest)), rest)
    ensures t != null ==> wr.Wrote(ThingWire(SavedForm(t, things, objects, pack), rest), rest)
  {
    hide Image, Chain, HeadWire, TailWire, NodeAt, DestCode, ObjectsOf, RoomCode, SavedForm, ObjectsSized;
    if wr.writeError {
      return;
    }
    if t == null {
      wr.WriteInt(RSID_THING, Int(0, rest));
      wr.WriteInt(0, rest);
      return;
    }
    ghost var s := SavedForm(t, things, objects, pack);
    FormFields(t, things, objects, pack);
    ghost var w := Int(s.listid, Int(s.index, TailWire(s.body, s.room, s.pack, rest)));
    wr.WriteInt(RSID_THING, Int(1, HeadWire(s.body, w)));
    wr.WriteInt(1, HeadWire(s.body, w));
    WriteHead(wr, t.body, w);
    WriteDest(wr, t.dest, mlist, things, lvlObj, objects, w.next.next);
    WriteTail(wr, t.body, t.room, t.pack, pack, rest);
  }

  method ReadHead(rd: Reader, b: Body, ghost s: Body, ghost rest: Wire) returns (r: Body)
    requires rd.k.Valid() && rd.file.Valid()
    modifies rd`readError, rd.file`pos
    ensures rd.Sticky()
    ensures old(rd.Holds(HeadWire(s, rest))) ==> rd.Holds(rest) && r == s.(flags := b.flags, stats := b.stats)
  {
    hide Image;
    ghost var w := HeadWire(s, rest);
    var pos := ReadCoord(rd, b.pos, w); w := w.next.next;
    var turn := rd.ReadBoolean(w); w := w.next;
    var kind := rd.ReadChar(w); w := w.next;
    var disguise := rd.ReadChar(w); w := w.next;
    var oldch := rd.ReadChar(w);
    r := b.(pos := pos, turn := turn, kind := kind, disguise := disguise, oldch := oldch);
  }

  method ReadRoomReference(rd: Reader, ghost w: Wire) returns (r: RoomRef)
    requires rd.k.Valid() && rd.file.Valid()
    modifies rd`readError, rd.file`pos
    ensures rd.Sticky()
    ensures old(rd.Holds(w)) && w.Int? ==> rd.Holds(w.next) && r == RoomAt(w.i)
  {
    var i := rd.ReadInt(w);
    r := RoomAt(i);
  }

  /** The fields after t_dest, and the pack rebuilt. */
  method ReadTail(rd: Reader, b: Body, ghost s: Body, ghost room: Int32, ghost items: seq<Obj>, ghost rest: Wire)
    returns (r: Body, at: RoomRef, l: Thing?, ghost pack: seq<Thing>)
    requires rd.k.Valid() && rd.file.Valid() && |s.stats.dmg| == 13 && ObjectsSized(items)
    modifies rd`readError, rd`formatError, rd.file`pos
    ensures rd.Sticky() && Chain(l, pack) && forall t :: t in pack ==> fresh(t)
    ensures old(rd.Holds(TailWire(s, room, items, rest))) ==>
      rd.Holds(rest) && r == b.(flags := s.flags, stats := s.stats) && at == RoomAt(room) && ObjectsOf(pack) == items
  {
    hide Image, Chain, ObjectListWire, StatsWire, NodeAt, ObjectsOf;
    ghost var w := TailWire(s, room, items, rest);
    var flags := rd.ReadShort(w);
    var stats := ReadStats(rd, s.stats, Int(room, ObjectListWire(items, rest)));
    at := ReadRoomReference(rd, Int(room, ObjectListWire(items, rest)));
    l, pack := ReadObjectList(rd, items, rest);
    r := b.(flags := flags, stats := stats);
  }

  /** t_dest and t_reserved from the two numbers read. */
  method DecodeDest(before: Dest, listid: Int32, index: Int32, lvlObj: Thing?, ghost objects: seq<Thing>)
    returns (d: Dest, reserved: Int32)
    requires Chain(lvlObj, objects)
    ensures d == DestRead(before, listid, index, objects)
    ensures reserved == if listid == 1 then index else -1
  {
    hide Chain, NodeAt;
    reserved := -1;
    d := before;
    if listid == 0 {
      d := if index == 1 then AtHero else Nowhere;
    } else if listid == 1 {
      d, reserved := Nowhere, index;
    } else if listid == 2 {
      var item := GetListItem(lvlObj, index, objects);
      if item != null {
        d := AtObject(item);
      }
    } else if listid == 3 {
      d := AtGold(index);
    } else {
      d := Nowhere;
    }
  }

  /** What a monster read is like: its fields as saved, its pack a new list. */
  ghost predicate ThingRead(t: Thing, s: SavedThing, before: Dest, objects: seq<Thing>, pack: seq<Thing>)
    reads t`body, t`dest, t`room, t`pack, t`reserved, pack`next, pack`prev, pack`obj
  {
    && t.body == s.body && t.room == RoomAt(s.room)
    && t.reserved == (if s.listid == 1 then s.index else -1)
    && t.dest == DestRead(before, s.listid, s.index, objects)
    && Chain(t.pack, pack) && ObjectsOf(pack) == s.pack
  }

  /** t_dest as read from the file. */
  method ReadDest(rd: Reader, before: Dest, lvlObj: Thing?, ghost objects: seq<Thing>, ghost w: Wire) returns (d: Dest, reserved: Int32)
    requires rd.k.Valid() && rd.file.Valid() && Chain(lvlObj, objects)
    modifies rd`readError, rd.file`pos
    ensures rd.Sticky()
    ensures old(rd.Holds(w)) && w.Int? && w.next.Int? ==>
      && rd.Holds(w.next.next) && d == DestRead(before, w.i, w.next.i, objects)
      && reserved == if w.i == 1 then w.next.i else -1
  {
    hide Image, Chain, DestRead;
    var listid := rd.ReadInt(w);
    var index := rd.ReadInt(if w.Int? then w.next else w);
    d, reserved := DecodeDest(before, listid, index, lvlObj, objects);
  }

  /** What follows the marker and the one that says there is a monster. */
  method ReadFields(rd: Reader, body: Body, before: Dest, lvlObj: Thing?, ghost objects: seq<Thing>, ghost s: SavedThing, ghost rest: Wire)
    returns (r: Body, dest: Dest, room: RoomRef, l: Thing?, reserved: Int32, ghost pack: seq<Thing>)
    requires rd.k.Valid() && rd.file.Valid() && Chain(lvlObj, objects) && s.Sized()
    modifies rd`readError, rd`formatError, rd.file`pos
    ensures rd.Sticky() && Chain(l, pack) && forall p :: p in pack ==> fresh(p)
    ensures old(rd.Holds(HeadWire(s.body, Int(s.listid, Int(s.index, TailWire(s.body, s.room, s.pack, rest)))))) ==>
      && rd.Holds(rest) && r == s.body && room == RoomAt(s.room) && ObjectsOf(pack) == s.pack
      && dest == DestRead(before, s.listid, s.index, objects) && reserved == if s.listid == 1 then s.index else -1
  {
    hide Image, Chain, HeadWire, TailWire, NodeAt, ObjectsOf, DestRead;
    ghost var w := Int(s.listid, Int(s.index, TailWire(s.body, s.room, s.pack, rest)));
    r := ReadHead(rd, body, s.body, w);
    dest, reserved := ReadDest(rd, before, lvlObj, objects, w);
    r, room, l, pack := ReadTail(rd, r, s.body, s.room, s.pack, rest);
  }

  method ReadThing(rd: Reader, t: Thing, lvlObj: Thing?, ghost objects: seq<Thing>, ghost pack0: seq<Thing>,
                   ghost s: SavedThing, ghost rest: Wire)
    returns (ghost pack: seq<Thing>)
    requires rd.k.Valid() && rd.file.Valid() && Chain(lvlObj, objects) && Chain(t.pack, pack0) && s.Sized()
    modifies rd`readError, rd`formatError, rd.file`pos, t`body, t`dest, t`room, t`pack, t`reserved
    ensures rd.Sticky() && Chain(t.pack, pack) && (pack == pack0 || forall p :: p in pack ==> fresh(p))
    ensures old(rd.Holds(ThingWire(s, rest))) ==> rd.Holds(rest) && ThingRead(t, s, old(t.dest), objects, pack)
  {
    hide Image, Chain, HeadWire, TailWire, NodeAt, ObjectsOf, DestRead, ObjectsSized, ThingRead;
    pack := pack0;
    if rd.readError || rd.formatError {
      return;
    }
    ghost var held, before := rd.Holds(ThingWire(s, rest)), t.dest;
    ghost var w := HeadWire(s.body, Int(s.listid, Int(s.index, TailWire(s.body, s.room, s.pack, rest))));
    var present := ReadPresence(rd, ThingWire(s, rest));
    if !present {
      return;
    }
    var body, dest, room, l, reserved;
    body, dest, room, l, reserved, pack := ReadFields(rd, t.body, t.dest, lvlObj, objects, s, rest);
    t.body, t.dest, t.room, t.pack, t.reserved := body, dest, room, l, reserved;
    if held {
      IsRead(t, s, before, objects, pack);
    }
  }

  /** The marker, and whether a monster follows. */
  method ReadPresence(rd: Reader, ghost w: Wire) returns (present: bool)
    requires rd.k.Valid() && rd.file.Valid()
    modifies rd`readError, rd`formatError, rd.file`pos
    ensures rd.Sticky()
    ensures old(rd.Holds(w)) && w.Int? && w.i == RSID_THING && w.next.Int? ==> rd.Holds(w.next.next) && present == (w.next.i != 0)
  {
    hide Image;
    rd.ReadMarker(RSID_THING, w);
    var index := rd.ReadInt(if w.Int? then w.next else w);
    present := index != 0;
  }

  lemma IsRead(t: Thing, s: SavedThing, before: Dest, objects: seq<Thing>, pack: seq<Thing>)
    requires t.body == s.body && t.room == RoomAt(s.room)
    requires t.reserved == if s.listid == 1 then s.index else -1
    requires t.dest == DestRead(before, s.listid, s.index, objects)
    requires Chain(t.pack, pack) && ObjectsOf(pack) == s.pack
    ensures ThingRead(t, s, before, objects, pack)
  {
  }

  /** The monster has that saved form. */
  ghost predicate SavedAs(t: Thing, s: SavedThing, things: seq<Thing>, objects: seq<Thing>, pack: seq<Thing>)
    requires |things| < 0x8000_0000 && |objects| < 0x8000_0000
    reads t`body, t`dest, t`room, t`pack, pack`next, pack`prev, pack`obj
  {
    SavedForm(t, things, objects, pack) == s && Chain(t.pack, pack)
  }

  /** The monster has been read and its target fixed up: the saved fields, the room with the saved
      number, the target with the saved code, and the pack rebuilt. */
  ghost predicate Restored(t: Thing, s: SavedThing, before: Dest, things: seq<Thing>, objects: seq<Thing>, pack: seq<Thing>)
    reads t`body, t`dest, t`room, t`pack, pack`next, pack`prev, pack`obj
  {
    && t.body == s.body && t.room == RoomAt(s.room) && t.dest == TargetRead(before, s.listid, s.index, things, objects)
    && Chain(t.pack, pack) && ObjectsOf(pack) == s.pack
  }

  /** A restored monster is saved as it was: the next save file is like this one. */
  lemma SavedAgain(t: Thing, s: SavedThing, head: Thing?, things: seq<Thing>, first: Thing?, objects: seq<Thing>, pack: seq<Thing>)
    requires |things| < 0x8000_0000 && |objects| < 0x8000_0000 && Chain(head, things) && Chain(first, objects)
    requires Restored(t, s, Nowhere, things, objects, pack)
    requires CodeInRange(s.listid, s.index, |things|, |objects|) && -1 <= s.room < ROOMS
    ensures SavedAs(t, s, things, objects, pack)
  {
    hide DestCode, TargetRead, CodeInRange;
    TargetSavedAgain(Nowhere, s.listid, s.index, head, things, first, objects);
  }

  /** Writes a monster whose saved form is known. */
  method WriteForm(wr: Writer, t: Thing, mlist: Thing?, ghost things: seq<Thing>, lvlObj: Thing?, ghost objects: seq<Thing>,
                   ghost pack: seq<Thing>, ghost form: SavedThing, ghost rest: Wire)
    requires wr.k.Valid() && Chain(mlist, things) && Chain(lvlObj, objects)
    requires |things| < 0x8000_0000 && |objects| < 0x8000_0000 && SavedAs(t, form, things, objects, pack) && form.Sized()
    modifies wr`writeError, wr.file`bytes
    ensures wr.Wrote(ThingWire(form, rest), rest)
  {
    hide Image, ThingWire, Chain, SavedForm;
    WriteThing(wr, t, mlist, things, lvlObj, objects, pack, rest);
  }

  /** The list mlist of monsters, written; forms says what each is saved as. */
  method WriteThingList(wr: Writer, mlist: Thing?, ghost things: seq<Thing>, lvlObj: Thing?, ghost objects: seq<Thing>,
                        ghost packs: seq<seq<Thing>>, ghost forms: seq<SavedThing>, ghost rest: Wire)
    requires wr.k.Valid() && Chain(mlist, things) && Chain(lvlObj, objects) && |objects| < 0x8000_0000
    requires |packs| == |forms| == |things| && ThingsSized(forms)
    requires forall i :: 0 <= i < |things| ==> SavedAs(things[i], forms[i], things, objects, packs[i])
    modifies wr`writeError, wr.file`bytes
    ensures wr.Wrote(ThingListWire(forms, rest), rest)
  {
    hide Image, ThingWire, Chain, NodeAt, SavedAs;
    if wr.writeError {
      return;
    }
    AtHead(mlist, things);
    var size := WriteCount(wr, RSID_MONSTERLIST, mlist, things, ThingsBody(forms, rest));
    if size < 1 {
      return;
    }
    var t := mlist;
    ghost var n := 0;
    assert forms[0..] == forms;
    while t != null
      invariant 0 <= n <= |things| && t == NodeAt(things, n)
      invariant wr.Wrote(ThingListWire(forms, rest), ThingsBody(forms[n..], rest))
      decreases |things| - n
    {
      AtNode(mlist, things, n, t);
      assert forms[n..][1..] == forms[n + 1..];
      WriteForm(wr, t, mlist, things, lvlObj, objects, packs[n], forms[n], ThingsBody(forms[n + 1..], rest));
      t := t.next;
      n := n + 1;
    }
    AtNode(mlist, things, n, t);
  }

  const NO_THING := SavedThing(NO_BODY, 0, 0, 0, [])

  /** Read one more monster into a new node at the end of the list. */
  method AppendThing(rd: Reader, head: Thing?, ghost nodes: seq<Thing>, previous: Thing?, lvlObj: Thing?, ghost objects: seq<Thing>,
                     ghost s: SavedThing, ghost rest: Wire)
    returns (head1: Thing, l: Thing, ghost pack: seq<Thing>)
    requires rd.k.Valid() && rd.file.Valid() && s.Sized() && Chain(lvlObj, objects)
    requires Chain(head, nodes) && previous == NodeAt(nodes, |nodes| - 1) && (previous == null || previous !in objects)
    modifies rd`readError, rd`formatError, rd.file`pos, if previous == null then {} else {previous}`next
    ensures rd.Sticky() && fresh(l) && l !in nodes && l !in pack && forall p :: p in pack ==> fresh(p) && p !in nodes + [l]
    ensures Chain(head1, nodes + [l]) && NodeAt(nodes + [l], |nodes|) == l
    ensures old(rd.Holds(ThingWire(s, rest))) ==> rd.Holds(rest) && ThingRead(l, s, Nowhere, objects, pack)
  {
    hide Image, ThingWire, Chain, NodeAt, ThingRead, s.Sized;
    l := new Thing();
    head1 := LinkLast(head, nodes, previous, l);
    EmptyChain();
    pack := ReadThing(rd, l, lvlObj, objects, [], s, rest);
  }

  /** The monsters of a list as they were read; items are the nodes of their packs. */
  ghost predicate AllRead(nodes: seq<Thing>, s: seq<SavedThing>, objects: seq<Thing>, packs: seq<seq<Thing>>, items: set<Thing>)
    requires |nodes| == |packs| <= |s| && forall i :: 0 <= i < |packs| ==> NodesOf(packs[i]) <= items
    reads nodes`body, nodes`dest, nodes`room, nodes`pack, nodes`reserved, items
  {
    forall i :: 0 <= i < |nodes| ==> ReadAt(nodes, s, objects, packs, items, i)
  }

  ghost predicate ReadAt(nodes: seq<Thing>, s: seq<SavedThing>, objects: seq<Thing>, packs: seq<seq<Thing>>, items: set<Thing>, i: nat)
    requires i < |nodes| == |packs| <= |s| && forall j :: 0 <= j < |packs| ==> NodesOf(packs[j]) <= items
    reads nodes`body, nodes`dest, nodes`room, nodes`pack, nodes`reserved, items
  {
    assert forall p :: p in packs[i] ==> p in NodesOf(packs[i]);
    ThingRead(nodes[i], s[i], Nowhere, objects, packs[i])
  }

  lemma OneMoreRead(nodes: seq<Thing>, s: seq<SavedThing>, objects: seq<Thing>, packs: seq<seq<Thing>>, items: set<Thing>,
                    l: Thing, pack: seq<Thing>)
    requires |nodes| == |packs| < |s| && forall i :: 0 <= i < |packs| ==> NodesOf(packs[i]) <= items
    requires AllRead(nodes, s, objects, packs, items) && ThingRead(l, s[|nodes|], Nowhere, objects, pack)
    ensures forall i :: 0 <= i < |packs + [pack]| ==> NodesOf((packs + [pack])[i]) <= items + NodesOf(pack)
    ensures AllRead(nodes + [l], s, objects, packs + [pack], items + NodesOf(pack))
  {
    hide ThingRead;
    var nodes1, packs1 := nodes + [l], packs + [pack];
    forall i | 0 <= i < |nodes1|
      ensures ReadAt(nodes1, s, objects, packs1, items + NodesOf(pack), i)
    {
      if i < |nodes| {
        assert ReadAt(nodes, s, objects, packs, items, i);
      }
    }
  }

  /** A list of monsters being read: linked so far, the packs apart from it. */
  ghost predicate Reading(head: Thing?, nodes: seq<Thing>, packs: seq<seq<Thing>>, items: set<Thing>, previous: Thing?)
    reads nodes`next, nodes`prev
  {
    && Chain(head, nodes) && previous == NodeAt(nodes, |nodes| - 1) && |packs| == |nodes|
    && items !! NodesOf(nodes) && forall i :: 0 <= i < |packs| ==> NodesOf(packs[i]) <= items
  }

  lemma StartReading()
    ensures Reading(null, [], [], {}, null)
  {
  }

  lemma PreviousIsLast(head: Thing?, nodes: seq<Thing>, packs: seq<seq<Thing>>, items: set<Thing>, previous: Thing?)
    requires Reading(head, nodes, packs, items, previous)
    ensures |packs| == |nodes| && items !! NodesOf(nodes)
    ensures forall i :: 0 <= i < |packs| ==> NodesOf(packs[i]) <= items
    ensures previous != null ==> previous in NodesOf(nodes)
  {
  }

  /** One round of the loop: monster i of s, if the file holds them. */
  method NextThing(rd: Reader, head: Thing?, ghost nodes: seq<Thing>, ghost packs: seq<seq<Thing>>, ghost items: set<Thing>,
                   previous: Thing?, lvlObj: Thing?, ghost objects: seq<Thing>, ghost s: seq<SavedThing>, ghost held: bool,
                   ghost t: SavedThing, ghost rest: Wire)
    returns (head1: Thing?, l: Thing, ghost pack: seq<Thing>)
    requires rd.k.Valid() && rd.file.Valid() && Chain(lvlObj, objects) && t.Sized()
    requires Reading(head, nodes, packs, items, previous) && NodesOf(nodes) !! NodesOf(objects)
    requires held ==> |nodes| < |s| && t == s[|nodes|] && rd.Holds(ThingWire(t, rest))
    requires held ==> |packs| == |nodes| && (forall i :: 0 <= i < |packs| ==> NodesOf(packs[i]) <= items) && AllRead(nodes, s, objects, packs, items)
    modifies rd`readError, rd`formatError, rd.file`pos, if previous == null then {} else {previous}`next
    ensures rd.Sticky() && fresh(l) && fresh(NodesOf(pack))
    ensures Reading(head1, nodes + [l], packs + [pack], items + NodesOf(pack), l)
    ensures forall i :: 0 <= i < |packs + [pack]| ==> NodesOf((packs + [pack])[i]) <= items + NodesOf(pack)
    ensures |packs| == |nodes| && NodesOf(nodes + [l]) !! NodesOf(objects)
    ensures held ==> rd.Holds(rest) && AllRead(nodes + [l], s, objects, packs + [pack], items + NodesOf(pack))
  {
    hide Image, ThingWire, Chain, NodeAt, ThingRead, AllRead, ObjectsSized;
    PreviousIsLast(head, nodes, packs, items, previous);
    head1, l, pack := AppendThing(rd, head, nodes, previous, lvlObj, objects, t, rest);
    if held {
      OneMoreRead(nodes, s, objects, packs, items, l, pack);
    }
    assert NodesOf(nodes + [l]) == NodesOf(nodes) + {l};
  }

  method ReadThingList(rd: Reader, lvlObj: Thing?, ghost objects: seq<Thing>, ghost s: seq<SavedThing>, ghost rest: Wire)
    returns (head: Thing?, ghost nodes: seq<Thing>, ghost packs: seq<seq<Thing>>, ghost items: set<Thing>)
    requires rd.k.Valid() && rd.file.Valid() && ThingsSized(s) && Chain(lvlObj, objects)
    modifies rd`readError, rd`formatError, rd.file`pos
    ensures rd.Sticky() && Chain(head, nodes) && |packs| == |nodes| < 0x8000_0000
    ensures fresh(NodesOf(nodes)) && fresh(items) && items !! NodesOf(nodes)
    ensures forall i :: 0 <= i < |packs| ==> NodesOf(packs[i]) <= items
    ensures old(rd.Holds(ThingListWire(s, rest))) ==> rd.Holds(rest) && |nodes| == |s| && AllRead(nodes, s, objects, packs, items)
  {
    hide SavedThing.Sized, Image, ThingWire, Chain, NodeAt, AllRead, Reading, ObjectsSized, NodesOf;
    head, nodes, packs, items := null, [], [], {};
    EmptyChain();
    NothingSized();
    if rd.readError || rd.formatError {
      return;
    }
    ghost var held := rd.Holds(ThingListWire(s, rest));
    var count := ReadCount(rd, RSID_MONSTERLIST, ThingListWire(s, rest));
    var previous: Thing? := null;
    var i := 0;
    assert s[0..] == s;
    NoneRead(s, objects);
    StartReading();
    while i < count
      invariant rd.file.Valid() && i == |nodes| == |packs| && (i == 0 || i <= count)
      invariant Reading(head, nodes, packs, items, previous) && fresh(NodesOf(nodes)) && fresh(items)
      invariant NodesOf(nodes) !! NodesOf(objects)
      invariant forall j :: 0 <= j < |packs| ==> NodesOf(packs[j]) <= items
      invariant held ==> count == |s| && i <= |s| && rd.Holds(ThingsBody(s[i..], rest))
      invariant held ==> AllRead(nodes, s, objects, packs, items)
    {
      if held {
        assert s[i..][1..] == s[i + 1..];
      }
      PreviousIsLast(head, nodes, packs, items, previous);
      ghost var pack;
      head, previous, pack := NextThing(rd, head, nodes, packs, items, previous, lvlObj, objects, s, held,
        if held then s[i] else NO_THING, if held then ThingsBody(s[i + 1..], rest) else rest);
      NodesMore(nodes, previous);
      nodes, packs, items := nodes + [previous], packs + [pack], items + NodesOf(pack);
      i := i + 1;
    }
    ListRead(head, nodes, packs, items, previous);
  }

  lemma NothingSized()
    ensures NO_THING.Sized() && NodesOf([]) == {}
  {
  }

  lemma NodesMore(nodes: seq<Thing>, l: Thing)
    ensures NodesOf(nodes + [l]) == NodesOf(nodes) + {l}
  {
  }

  lemma ListRead(head: Thing?, nodes: seq<Thing>, packs: seq<seq<Thing>>, items: set<Thing>, previous: Thing?)
    requires Reading(head, nodes, packs, items, previous)
    ensures Chain(head, nodes) && items !! NodesOf(nodes)
  {
  }

  lemma NoneRead(s: seq<SavedThing>, objects: seq<Thing>)
    ensures AllRead([], s, objects, [], {})
  {
  }

  method FixThing(t: Thing, mlist: Thing?, ghost things: seq<Thing>)
    requires Chain(mlist, things)
    modifies t`dest
    ensures t.dest == DestFixed(old(t.dest), t.reserved, things)
  {
    hide Chain, NodeAt;
    if t.reserved < 0 {
      return;
    }
    var item := GetListItem(mlist, t.reserved, things);
    if item != null {
      t.dest := AtThing(item);
    }
  }

  lemma Distinct(head: Thing?, nodes: seq<Thing>)
    requires Chain(head, nodes)
    ensures forall i, j :: 0 <= i < j < |nodes| ==> nodes[i] != nodes[j]
  {
  }

  /** A monster that was read, its target fixed up, is restored. */
  lemma FixedIsRestored(t: Thing, s: SavedThing, before: Dest, things: seq<Thing>, objects: seq<Thing>, pack: seq<Thing>)
    requires Chain(t.pack, pack) && ObjectsOf(pack) == s.pack
    requires t.body == s.body && t.room == RoomAt(s.room) && t.reserved == (if s.listid == 1 then s.index else -1)
    requires t.dest == DestFixed(DestRead(before, s.listid, s.index, objects), t.reserved, things)
    ensures Restored(t, s, before, things, objects, pack)
  {
  }

  /** rs_fix_thing on a monster, or the player, that was read. */
  method FixRead(t: Thing, mlist: Thing?, ghost things: seq<Thing>, ghost objects: seq<Thing>,
                 ghost held: bool, ghost s: SavedThing, ghost before: Dest, ghost pack: seq<Thing>)
    requires Chain(mlist, things)
    requires held ==> ThingRead(t, s, before, objects, pack)
    modifies t`dest
    ensures t.dest == DestFixed(old(t.dest), t.reserved, things)
    ensures held ==> Restored(t, s, before, things, objects, pack)
  {
    hide Chain, ObjectsOf, NodeAt, DestFixed, DestRead, Restored;
    FixThing(t, mlist, things);
    if held {
      FixedIsRestored(t, s, before, things, objects, pack);
    }
  }

  /** rs_fix_thing_list; if the list is one that was read, all its monsters are then restored. */
  method FixThingList(mlist: Thing?, ghost things: seq<Thing>, ghost objects: seq<Thing>, ghost held: bool,
                      ghost s: seq<SavedThing>, ghost packs: seq<seq<Thing>>, ghost items: set<Thing>)
    requires Chain(mlist, things) && |packs| == |things| && items !! NodesOf(things)
    requires forall i :: 0 <= i < |packs| ==> NodesOf(packs[i]) <= items
    requires held ==> |s| == |things| && AllRead(things, s, objects, packs, items)
    modifies NodesOf(things)`dest
    ensures forall i :: 0 <= i < |things| ==> things[i].dest == DestFixed(old(things[i].dest), things[i].reserved, things)
    ensures held ==> forall i :: 0 <= i < |things| ==> Restored(things[i], s[i], Nowhere, things, objects, packs[i])
  {
    hide Chain, NodeAt, DestFixed, ThingRead, Restored;
    var t := mlist;
    ghost var n := 0;
    AtHead(mlist, things);
    Distinct(mlist, things);
    forall i | 0 <= i < |things| && held
      ensures ThingRead(things[i], s[i], Nowhere, objects, packs[i])
    {
      assert ReadAt(things, s, objects, packs, items, i);
    }
    while t != null
      invariant 0 <= n <= |things| && t == NodeAt(things, n)
      invariant forall i :: 0 <= i < n ==> things[i].dest == DestFixed(old(things[i].dest), things[i].reserved, things)
      invariant forall i :: n <= i < |things| ==> things[i].dest == old(things[i].dest)
      invariant held ==> forall i :: 0 <= i < n ==> Restored(things[i], s[i], Nowhere, things, objects, packs[i])
      invariant held ==> forall i :: n <= i < |things| ==> ThingRead(things[i], s[i], Nowhere, objects, packs[i])
      decreases |things| - n
    {
      AtNode(mlist, things, n, t);
      assert forall i :: 0 <= i < |things| ==> t !in NodesOf(packs[i]) by {
        assert t in NodesOf(things);
      }
      FixRead(t, mlist, things, objects, held, if held then s[n] else NO_THING, Nowhere, if held then packs[n] else []);
      t := t.next;
      n := n + 1;
    }
    AtNode(mlist, things, n, t);
  }
}
