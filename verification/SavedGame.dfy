/**
  The linked part of the save file: the player with his pack and what he wears or wields, the objects
  and monsters of the level, and the monster on each square.
 */
module SavedGame {
  import opened HostBytes
  import opened Wrappers
  import opened Words
  import opened Keystream
  import opened SaveCodec
  import opened SavedLists
  import opened SavedThings

  /** A square of the map: its character, its flags and the monster on it. */
  datatype Spot = Spot(ch: Byte, flags: Byte, monst: Thing?)

  datatype SavedSpot = SavedSpot(ch: Byte, flags: Byte, monst: Int32)

  function SpotsBody(s: seq<SavedSpot>, rest: Wire): Wire {
    if s == [] then rest else Char(s[0].ch, Char(s[0].flags, Int(s[0].monst, SpotsBody(s[1..], rest))))
  }

  /** The game as it is saved; worn holds the places in the pack of the armor, the two rings, the
      weapon and the two last things picked. */
  datatype SavedGame = SavedGame(player: SavedThing, worn: seq<Int32>, objects: seq<Obj>, things: seq<SavedThing>, spots: seq<SavedSpot>)
  {
    predicate Sized() {
      player.Sized() && |worn| == 6 && ObjectsSized(objects) && ThingsSized(things)
    }
  }

  function ListsWire(g: SavedGame, rest: Wire): Wire
    requires g.Sized()
  {
    ObjectListWire(g.objects, ThingListWire(g.things, SpotsBody(g.spots, rest)))
  }

  function WornWire(worn: seq<Int32>, rest: Wire): Wire
    requires |worn| == 6
  {
    Int(worn[0], Int(worn[1], Int(worn[2], Int(worn[3], Int(worn[4], Int(worn[5], rest))))))
  }

  function GameWire(g: SavedGame, rest: Wire): Wire
    requires g.Sized()
  {
    ThingWire(g.player, WornWire(g.worn, ListsWire(g, rest)))
  }

  class Game {
    const player: Thing
    var curArmor: Thing?
    var leftRing: Thing?
    var rightRing: Thing?
    var curWeapon: Thing?
    var lLastPick: Thing?
    var lastPick: Thing?
    var lvlObj: Thing?
    var mlist: Thing?
    const places: array<Spot>

    constructor (player: Thing, places: array<Spot>)
      ensures this.player == player && this.places == places && lvlObj == null && mlist == null
    {
      this.player, this.places := player, places;
      curArmor, leftRing, rightRing, curWeapon, lLastPick, lastPick := null, null, null, null, null, null;
      lvlObj, mlist := null, null;
    }

    /** What is worn, wielded or was picked last. */
    function Worn(): seq<Thing?>
      reads this
    {
      [curArmor, leftRing, rightRing, curWeapon, lLastPick, lastPick]
    }
  }

  method WriteObjectReference(wr: Writer, list: Thing?, item: Thing?, ghost nodes: seq<Thing>, ghost rest: Wire)
    requires wr.k.Valid() && Chain(list, nodes) && |nodes| < 0x8000_0000
    modifies wr`writeError, wr.file`bytes
    ensures wr.Wrote(Int(PlaceOf(nodes, item), rest), rest)
  {
    hide Chain, Image, PlaceOf;
    if wr.writeError {
      return;
    }
    var i := FindListPtr(list, item, nodes);
    wr.WriteInt(i, rest);
  }

  method ReadObjectReference(rd: Reader, list: Thing?, before: Thing?, ghost nodes: seq<Thing>, ghost w: Wire) returns (item: Thing?)
    requires rd.k.Valid() && rd.file.Valid() && Chain(list, nodes)
    modifies rd`readError, rd.file`pos
    ensures rd.Sticky()
    ensures old(rd.Holds(w)) && w.Int? ==> rd.Holds(w.next) && item == NodeAt(nodes, w.i)
    ensures old(rd.Failed()) ==> item == before
  {
    hide Chain, Image, NodeAt;
    item := before;
    if rd.readError || rd.formatError {
      return;
    }
    var i := rd.ReadInt(w);
    item := GetListItem(list, i, nodes);
  }

  method WriteThingReference(wr: Writer, list: Thing?, item: Thing?, ghost nodes: seq<Thing>, ghost rest: Wire)
    requires wr.k.Valid() && Chain(list, nodes) && |nodes| < 0x8000_0000
    modifies wr`writeError, wr.file`bytes
    ensures wr.Wrote(Int(PlaceOf(nodes, item), rest), rest)
  {
    hide Chain, Image;
    if wr.writeError {
      return;
    }
    if item == null {
      wr.WriteInt(-1, rest);
    } else {
      var i := FindListPtr(list, item, nodes);
      wr.WriteInt(i, rest);
    }
  }

  method ReadThingReference(rd: Reader, list: Thing?, before: Thing?, ghost nodes: seq<Thing>, ghost w: Wire) returns (item: Thing?)
    requires rd.k.Valid() && rd.file.Valid() && Chain(list, nodes)
    modifies rd`readError, rd.file`pos
    ensures rd.Sticky()
    ensures old(rd.Holds(w)) && w.Int? ==> rd.Holds(w.next) && item == NodeAt(nodes, w.i)
    ensures old(rd.Failed()) ==> item == before
  {
    hide Chain, Image;
    item := before;
    if rd.readError || rd.formatError {
      return;
    }
    var i := rd.ReadInt(w);
    if i == -1 {
      item := null;
    } else {
      item := GetListItem(list, i, nodes);
    }
  }

  ghost function SpotForm(p: Spot, things: seq<Thing>): SavedSpot
    requires |things| < 0x8000_0000
  {
    SavedSpot(p.ch, p.flags, PlaceOf(things, p.monst))
  }

  method WritePlaces(wr: Writer, places: array<Spot>, mlist: Thing?, ghost things: seq<Thing>, ghost forms: seq<SavedSpot>, ghost rest: Wire)
    requires wr.k.Valid() && Chain(mlist, things) && |things| < 0x8000_0000
    requires |forms| == places.Length && forall i :: 0 <= i < places.Length ==> forms[i] == SpotForm(places[i], things)
    modifies wr`writeError, wr.file`bytes
    ensures wr.Wrote(SpotsBody(forms, rest), rest)
  {
    hide Chain, Image, PlaceOf;
    assert forms[0..] == forms;
    for i := 0 to places.Length
      invariant wr.Wrote(SpotsBody(forms, rest), SpotsBody(forms[i..], rest))
    {
      assert forms[i..][1..] == forms[i + 1..];
      ghost var w := SpotsBody(forms[i + 1..], rest);
      wr.WriteChar(places[i].ch, Char(forms[i].flags, Int(forms[i].monst, w)));
      wr.WriteChar(places[i].flags, Int(forms[i].monst, w));
      WriteThingReference(wr, mlist, places[i].monst, things, w);
    }
  }

  method ReadPlaces(rd: Reader, places: array<Spot>, mlist: Thing?, ghost things: seq<Thing>, ghost forms: seq<SavedSpot>, ghost rest: Wire)
    requires rd.k.Valid() && rd.file.Valid() && Chain(mlist, things)
    requires |forms| == places.Length
    modifies rd`readError, rd.file`pos, places
    ensures rd.Sticky()
    ensures old(rd.Holds(SpotsBody(forms, rest))) ==> rd.Holds(rest)
    ensures old(rd.Holds(SpotsBody(forms, rest))) ==>
      forall i :: 0 <= i < places.Length ==> places[i] == Spot(forms[i].ch, forms[i].flags, NodeAt(things, forms[i].monst))
  {
    hide Chain, Image, NodeAt;
    ghost var held := rd.Holds(SpotsBody(forms, rest));
    assert forms[0..] == forms;
    for i := 0 to places.Length
      invariant rd.Sticky()
      invariant held ==> rd.Holds(SpotsBody(forms[i..], rest))
      invariant held ==> forall j :: 0 <= j < i ==> places[j] == Spot(forms[j].ch, forms[j].flags, NodeAt(things, forms[j].monst))
    {
      assert forms[i..][1..] == forms[i + 1..];
      ghost var w := SpotsBody(forms[i..], rest);
      var ch := rd.ReadChar(w);
      var flags := rd.ReadChar(w.next);
      var monst := ReadThingReference(rd, mlist, places[i].monst, things, w.next.next);
      places[i] := Spot(ch, flags, monst);
    }
  }

  ghost function Places(pack: seq<Thing>, items: seq<Thing?>): (r: seq<int>)
    ensures |r| == |items| && forall i :: 0 <= i < |items| ==> r[i] == PlaceOf(pack, items[i])
  {
    seq(|items|, i requires 0 <= i < |items| => PlaceOf(pack, items[i]))
  }

  method WriteWorn(wr: Writer, game: Game, ghost pack: seq<Thing>, ghost worn: seq<Int32>, ghost rest: Wire)
    requires wr.k.Valid() && Chain(game.player.pack, pack) && |pack| < 0x8000_0000
    requires |worn| == 6 && Places(pack, game.Worn()) == worn
    modifies wr`writeError, wr.file`bytes
    ensures wr.Wrote(WornWire(worn, rest), rest)
  {
    hide Chain, Image, PlaceOf;
    ghost var w := WornWire(worn, rest).next;
    WriteObjectReference(wr, game.player.pack, game.curArmor, pack, w);
    w := w.next; WriteObjectReference(wr, game.player.pack, game.leftRing, pack, w);
    w := w.next; WriteObjectReference(wr, game.player.pack, game.rightRing, pack, w);
    w := w.next; WriteObjectReference(wr, game.player.pack, game.curWeapon, pack, w);
    w := w.next; WriteObjectReference(wr, game.player.pack, game.lLastPick, pack, w);
    w := w.next; WriteObjectReference(wr, game.player.pack, game.lastPick, pack, w);
  }

  /** The nodes in the given places. */
  ghost function NodesAt(pack: seq<Thing>, places: seq<int>): (r: seq<Thing?>)
    ensures |r| == |places| && forall i :: 0 <= i < |places| ==> r[i] == NodeAt(pack, places[i])
  {
    seq(|places|, i requires 0 <= i < |places| => NodeAt(pack, places[i]))
  }

  method ReadWorn(rd: Reader, game: Game, ghost pack: seq<Thing>, ghost worn: seq<Int32>, ghost rest: Wire)
    requires rd.k.Valid() && rd.file.Valid() && Chain(game.player.pack, pack) && |worn| == 6
    modifies rd`readError, rd.file`pos, game
    ensures rd.Sticky() && game.lvlObj == old(game.lvlObj) && game.mlist == old(game.mlist)
    ensures old(rd.Holds(WornWire(worn, rest))) ==> rd.Holds(rest) && game.Worn() == NodesAt(pack, worn)
  {
    hide Chain, Image, NodeAt;
    ghost var w := WornWire(worn, rest);
    ghost var w3 := w.next.next.next;
    var armor, left, right := ReadThree(rd, game.player.pack, game.curArmor, game.leftRing, game.rightRing, pack, w);
    var weapon, lLast, last := ReadThree(rd, game.player.pack, game.curWeapon, game.lLastPick, game.lastPick, pack, w3);
    game.curArmor, game.leftRing, game.rightRing := armor, left, right;
    game.curWeapon, game.lLastPick, game.lastPick := weapon, lLast, last;
  }

  /** Three references in a row. */
  method ReadThree(rd: Reader, list: Thing?, a0: Thing?, b0: Thing?, c0: Thing?, ghost nodes: seq<Thing>, ghost w: Wire)
    returns (a: Thing?, b: Thing?, c: Thing?)
    requires rd.k.Valid() && rd.file.Valid() && Chain(list, nodes) && w.Int? && w.next.Int? && w.next.next.Int?
    modifies rd`readError, rd.file`pos
    ensures rd.Sticky()
    ensures old(rd.Holds(w)) ==> rd.Holds(w.next.next.next) && a == NodeAt(nodes, w.i) && b == NodeAt(nodes, w.next.i) && c == NodeAt(nodes, w.next.next.i)
  {
    hide Chain, Image, NodeAt;
    a := ReadObjectReference(rd, list, a0, nodes, w);
    b := ReadObjectReference(rd, list, b0, nodes, w.next);
    c := ReadObjectReference(rd, list, c0, nodes, w.next.next);
  }

  /** The lists of a game in memory, each linked both ways. */
  ghost predicate Linked(game: Game, pack: seq<Thing>, objects: seq<Thing>, things: seq<Thing>)
    reads game, game.player`pack, pack`next, pack`prev, objects`next, objects`prev, things`next, things`prev
  {
    && Chain(game.player.pack, pack) && Chain(game.lvlObj, objects) && Chain(game.mlist, things)
    && |objects| < 0x8000_0000 && |things| < 0x8000_0000
  }

  /** The nodes of the packs are among the items. */
  predicate PacksIn(packs: seq<seq<Thing>>, items: set<Thing>) {
    forall i, p :: 0 <= i < |packs| && p in packs[i] ==> p in items
  }

  /** The form the game is saved in. */
  ghost predicate HasForm(game: Game, pack: seq<Thing>, objects: seq<Thing>, things: seq<Thing>, packs: seq<seq<Thing>>, items: set<Thing>, form: SavedGame)
    requires PacksIn(packs, items)
    reads game, game.player, game.places, pack, objects, things, items
  {
    && Linked(game, pack, objects, things) && |pack| < 0x8000_0000 && form.Sized()
    && form.player == SavedForm(game.player, things, objects, pack)
    && form.worn == Places(pack, game.Worn()) && form.objects == ObjectsOf(objects)
    && ThingsHaveForm(things, objects, packs, items, form.things)
    && |form.spots| == game.places.Length
    && forall i :: 0 <= i < game.places.Length ==> form.spots[i] == SpotForm(game.places[i], things)
  }

  ghost predicate ThingsHaveForm(things: seq<Thing>, objects: seq<Thing>, packs: seq<seq<Thing>>, items: set<Thing>, forms: seq<SavedThing>)
    requires |things| < 0x8000_0000 && |objects| < 0x8000_0000 && PacksIn(packs, items)
    reads things, items
  {
    && |packs| == |forms| == |things|
    && forall i :: 0 <= i < |things| ==> HasFormAt(things, objects, packs, items, forms, i)
  }

  ghost predicate HasFormAt(things: seq<Thing>, objects: seq<Thing>, packs: seq<seq<Thing>>, items: set<Thing>, forms: seq<SavedThing>, i: nat)
    requires |things| < 0x8000_0000 && |objects| < 0x8000_0000 && i < |packs| == |forms| == |things| && PacksIn(packs, items)
    reads things, items
  {
    SavedAs(things[i], forms[i], things, objects, packs[i])
  }

  /** rs_save_file, the part with the lists: what is written is the form of the game. */
  method Save(wr: Writer, game: Game, ghost pack: seq<Thing>, ghost objects: seq<Thing>, ghost things: seq<Thing>,
              ghost packs: seq<seq<Thing>>, ghost items: set<Thing>, ghost form: SavedGame, ghost rest: Wire)
    requires wr.k.Valid() && PacksIn(packs, items) && HasForm(game, pack, objects, things, packs, items, form)
    modifies wr`writeError, wr.file`bytes
    ensures wr.Wrote(GameWire(form, rest), rest)
  {
    hide Chain, Image, ThingWire, WornWire, ObjectListWire, ThingListWire, SpotsBody, SavedForm, SpotForm, Places, ObjectsOf, PlaceOf, SavedAs;
    ghost var w := SpotsBody(form.spots, rest);
    ghost var w1 := ThingListWire(form.things, w);
    ghost var w2 := ObjectListWire(form.objects, w1);
    forall i | 0 <= i < |things|
      ensures SavedAs(things[i], form.things[i], things, objects, packs[i])
    {
      assert HasFormAt(things, objects, packs, items, form.things, i);
    }
    WriteThing(wr, game.player, game.mlist, things, game.lvlObj, objects, pack, WornWire(form.worn, w2));
    WriteWorn(wr, game, pack, form.worn, w2);
    WriteObjectList(wr, game.lvlObj, objects, w1);
    WriteThingList(wr, game.mlist, things, game.lvlObj, objects, packs, form.things, w);
    WritePlaces(wr, game.places, game.mlist, things, form.spots, rest);
  }

  /** The player with his pack, and what he wears. */
  method ReadPlayer(rd: Reader, game: Game, ghost pack0: seq<Thing>, ghost objects0: seq<Thing>, ghost form: SavedThing, ghost worn: seq<Int32>, ghost rest: Wire)
    returns (ghost pack: seq<Thing>)
    requires rd.k.Valid() && rd.file.Valid() && Chain(game.lvlObj, objects0) && Chain(game.player.pack, pack0)
    requires form.Sized() && |worn| == 6
    modifies rd`readError, rd`formatError, rd.file`pos, game, game.player
    ensures rd.Sticky() && Chain(game.player.pack, pack) && game.lvlObj == old(game.lvlObj) && game.mlist == old(game.mlist)
    ensures old(rd.Holds(ThingWire(form, WornWire(worn, rest)))) ==>
      rd.Holds(rest) && ThingRead(game.player, form, old(game.player.dest), objects0, pack) && game.Worn() == NodesAt(pack, worn)
  {
    hide Image, Chain, ThingWire, WornWire, ThingRead, ObjectsOf, NodesAt;
    pack := ReadThing(rd, game.player, game.lvlObj, objects0, pack0, form, WornWire(worn, rest));
    ReadWorn(rd, game, pack, worn, rest);
  }

  /** The player, the objects and the monsters of the file, still to be connected. */
  method ReadLists(rd: Reader, game: Game, ghost pack0: seq<Thing>, ghost objects0: seq<Thing>, ghost form: SavedGame, ghost rest: Wire)
    returns (ghost pack: seq<Thing>, ghost objects: seq<Thing>, ghost things: seq<Thing>, ghost packs: seq<seq<Thing>>, ghost items: set<Thing>)
    requires rd.k.Valid() && rd.file.Valid() && Chain(game.lvlObj, objects0) && Chain(game.player.pack, pack0)
    requires form.Sized()
    modifies rd`readError, rd`formatError, rd.file`pos, game, game.player
    ensures rd.Sticky() && Linked(game, pack, objects, things) && |packs| == |things|
    ensures fresh(NodesOf(things)) && fresh(items) && items !! NodesOf(things) && forall t :: t in objects ==> fresh(t)
    ensures forall i :: 0 <= i < |packs| ==> NodesOf(packs[i]) <= items
    ensures old(rd.Holds(GameWire(form, rest))) ==>
      && rd.Holds(SpotsBody(form.spots, rest))
      && ThingRead(game.player, form.player, old(game.player.dest), objects0, pack)
      && game.Worn() == NodesAt(pack, form.worn) && ObjectsOf(objects) == form.objects
      && |things| == |form.things| && AllRead(things, form.things, objects, packs, items)
  {
    hide Image, Chain, ThingWire, WornWire, ObjectListWire, ThingListWire, SpotsBody, ThingRead, AllRead, ObjectsOf, NodesAt;
    hide ObjectsSized, NodesOf;
    ghost var w := SpotsBody(form.spots, rest);
    ghost var w1 := ThingListWire(form.things, w);
    ghost var w2 := ObjectListWire(form.objects, w1);
    pack := ReadPlayer(rd, game, pack0, objects0, form.player, form.worn, w2);
    var lvlObj, mlist;
    lvlObj, objects := ReadObjectList(rd, form.objects, w1);
    game.lvlObj := lvlObj;
    mlist, things, packs, items := ReadThingList(rd, game.lvlObj, objects, form.things, w);
    game.mlist := mlist;
  }

  /** What the game is like that was read from a file with that form. */
  ghost predicate RestoredFrom(game: Game, form: SavedGame, before: Dest, objects0: seq<Thing>, pack: seq<Thing>, objects: seq<Thing>,
                               things: seq<Thing>, packs: seq<seq<Thing>>, items: set<Thing>)
    requires PacksIn(packs, items)
    reads game, game.player, game.places, pack, objects, things, items
  {
    && Restored(game.player, form.player, before, things, objects0, pack)
    && game.Worn() == NodesAt(pack, form.worn) && ObjectsOf(objects) == form.objects
    && ThingsRestored(things, form.things, objects, packs, items)
    && game.places.Length == |form.spots|
    && forall i :: 0 <= i < |form.spots| ==>
      game.places[i] == Spot(form.spots[i].ch, form.spots[i].flags, NodeAt(things, form.spots[i].monst))
  }

  ghost predicate ThingsRestored(things: seq<Thing>, forms: seq<SavedThing>, objects: seq<Thing>, packs: seq<seq<Thing>>, items: set<Thing>)
    requires PacksIn(packs, items)
    reads things, items
  {
    && |packs| == |forms| == |things|
    && forall i :: 0 <= i < |things| ==> RestoredAt(things, forms, objects, packs, items, i)
  }

  ghost predicate RestoredAt(things: seq<Thing>, forms: seq<SavedThing>, objects: seq<Thing>, packs: seq<seq<Thing>>, items: set<Thing>, i: nat)
    requires i < |packs| == |forms| == |things| && PacksIn(packs, items)
    reads things, items
  {
    Restored(things[i], forms[i], Nowhere, things, objects, packs[i])
  }

  /** rs_restore_file, the part with the lists: whatever form the file has, the game is built from it.
      The player is read when the objects are still those of before. */
  method Restore(rd: Reader, game: Game, ghost pack0: seq<Thing>, ghost objects0: seq<Thing>, ghost form: SavedGame, ghost rest: Wire)
    returns (ghost pack: seq<Thing>, ghost objects: seq<Thing>, ghost things: seq<Thing>, ghost packs: seq<seq<Thing>>, ghost items: set<Thing>)
    requires rd.k.Valid() && rd.file.Valid() && Chain(game.lvlObj, objects0) && Chain(game.player.pack, pack0)
    requires form.Sized() && |form.spots| == game.places.Length
    modifies rd`readError, rd`formatError, rd.file`pos, game, game.player, game.places
    ensures rd.Sticky() && Linked(game, pack, objects, things) && PacksIn(packs, items) && forall t :: t in objects ==> fresh(t)
    ensures old(rd.Holds(GameWire(form, rest))) ==>
      rd.Holds(rest) && RestoredFrom(game, form, old(game.player.dest), objects0, pack, objects, things, packs, items)
  {
    hide SavedThing.Sized, SavedGame.Sized, Image, Chain, GameWire, SpotsBody, ThingRead, AllRead, ObjectsOf, NodesAt, Restored, PacksIn, ThingsRestored, DestFixed;
    ghost var held := rd.Holds(GameWire(form, rest));
    pack, objects, things, packs, items := ReadLists(rd, game, pack0, objects0, form, rest);
    PacksAmong(packs, items);
    assert game.player !in NodesOf(things) && game.player !in items;
    FixRead(game.player, game.mlist, things, objects0, held, form.player, old(game.player.dest), pack);
    assert held ==> AllRead(things, form.things, objects, packs, items);
    FixThingList(game.mlist, things, objects, held, form.things, packs, items);
    if held {
      AllRestored(things, form.things, objects, packs, items);
    }
    ReadPlaces(rd, game.places, game.mlist, things, form.spots, rest);
  }

  lemma PacksAmong(packs: seq<seq<Thing>>, items: set<Thing>)
    requires forall i :: 0 <= i < |packs| ==> NodesOf(packs[i]) <= items
    ensures PacksIn(packs, items)
  {
    forall i, p | 0 <= i < |packs| && p in packs[i]
      ensures p in items
    {
      assert p in NodesOf(packs[i]);
    }
  }

  lemma AllRestored(things: seq<Thing>, forms: seq<SavedThing>, objects: seq<Thing>, packs: seq<seq<Thing>>, items: set<Thing>)
    requires PacksIn(packs, items) && |packs| == |forms| == |things|
    requires forall i :: 0 <= i < |things| ==> Restored(things[i], forms[i], Nowhere, things, objects, packs[i])
    ensures ThingsRestored(things, forms, objects, packs, items)
  {
  }

  /** A restored monster, or the player: the fields, the room with the same number, the target given, and
      the pack in its order. */
  ghost predicate Twin(t: Thing, body: Body, room: RoomRef, dest: Dest, items: seq<Obj>, pack: seq<Thing>)
    reads t`body, t`dest, t`room, t`pack, pack`next, pack`prev, pack`obj
  {
    && t.body == body && t.room == RoomTwin(room) && t.dest == dest
    && Chain(t.pack, pack) && ObjectsOf(pack) == items
  }

  lemma RestoredIsTwin(t: Thing, s: SavedThing, before: Dest, body: Body, room: RoomRef, d: Dest, items: seq<Obj>,
                       things: seq<Thing>, objects: seq<Thing>, things1: seq<Thing>, objects1: seq<Thing>, objects0: seq<Thing>, pack: seq<Thing>)
    requires |things1| == |things| < 0x8000_0000 && |objects1| == |objects| < 0x8000_0000
    requires s == SavedThing(body, DestCode(d, things, objects).0, DestCode(d, things, objects).1, RoomCode(room), items)
    ensures Restored(t, s, Nowhere, things1, objects1, pack) ==> Twin(t, body, room, TargetTwin(d, things, objects, things1, objects1), items, pack)
    ensures Restored(t, s, before, things1, objects0, pack) ==>
      Twin(t, body, room, PlayerTwin(before, d, things, objects, things1, objects1, objects0), items, pack)
  {
    hide DestCode, TargetRead, TargetTwin, PlayerTwin, RoomCode;
    TargetIsTwin(Nowhere, d, things, objects, things1, objects1);
    PlayerTargetIsTwin(before, d, things, objects, things1, objects1, objects0);
  }

  /** The file of a game, if there is room for it. */
  method SaveFile(k: Keys, room: nat, bigEndian: bool, game: Game, ghost pack: seq<Thing>, ghost objects: seq<Thing>,
                  ghost things: seq<Thing>, ghost packs: seq<seq<Thing>>, ghost items: set<Thing>, ghost form: SavedGame) returns (file: Option<seq<Byte>>)
    requires k.Valid() && PacksIn(packs, items) && HasForm(game, pack, objects, things, packs, items, form)
    ensures form.Sized()
    ensures file == if |Image(k, GameWire(form, Stop))| <= room then Some(Image(k, GameWire(form, Stop))) else None
  {
    hide Image, GameWire, HasForm;
    FormSized(game, pack, objects, things, packs, items, form);
    assert Image(k, Stop) == [] by {
      NoImage(k);
    }
    var f := new File([], room);
    var wr := new Writer(k, f, bigEndian);
    assert wr.Whole(GameWire(form, Stop)) == Image(k, GameWire(form, Stop));
    Save(wr, game, pack, objects, things, packs, items, form, Stop);
    assert wr.Whole(Stop) == f.bytes;
    file := if wr.writeError then None else Some(f.bytes);
  }

  lemma FormSized(game: Game, pack: seq<Thing>, objects: seq<Thing>, things: seq<Thing>, packs: seq<seq<Thing>>, items: set<Thing>, form: SavedGame)
    requires PacksIn(packs, items) && HasForm(game, pack, objects, things, packs, items, form)
    ensures form.Sized()
  {
  }

  lemma NoImage(k: Keys)
    requires k.Valid()
    ensures Image(k, Stop) == []
  {
  }

  /** The game from a file. */
  method RestoreFile(k: Keys, file: seq<Byte>, bigEndian: bool, game: Game, ghost pack0: seq<Thing>, ghost objects0: seq<Thing>, ghost form: SavedGame)
    returns (ok: bool, ghost pack: seq<Thing>, ghost objects: seq<Thing>, ghost things: seq<Thing>, ghost packs: seq<seq<Thing>>, ghost items: set<Thing>)
    requires k.Valid() && Chain(game.lvlObj, objects0) && Chain(game.player.pack, pack0)
    requires form.Sized() && |form.spots| == game.places.Length && Image(k, GameWire(form, Stop)) <= file
    modifies game, game.player, game.places
    ensures ok && Linked(game, pack, objects, things) && PacksIn(packs, items) && forall t :: t in objects ==> fresh(t)
    ensures RestoredFrom(game, form, old(game.player.dest), objects0, pack, objects, things, packs, items)
  {
    hide Image, GameWire, RestoredFrom, Linked, Chain;
    var f := new File(file, |file|);
    var rd := new Reader(k, f, bigEndian);
    assert file[0..] == file;
    pack, objects, things, packs, items := Restore(rd, game, pack0, objects0, form, Stop);
    ok := !rd.Failed();
  }

  /** Save on one host, restore on another. It succeeds exactly if the disk has room for the file; every
      list then has its nodes in the same order with the same fields, and all that pointed to one of them
      points to the rebuilt one, but for the player's target when it is an object. */
  method SaveAndRestore(k: Keys, room: nat, bigWriter: bool, bigReader: bool, game: Game, ghost pack: seq<Thing>, ghost objects: seq<Thing>,
                        ghost things: seq<Thing>, ghost packs: seq<seq<Thing>>, ghost items: set<Thing>, ghost form: SavedGame,
                        into: Game, ghost pack0: seq<Thing>, ghost objects0: seq<Thing>)
    returns (ok: bool, ghost pack1: seq<Thing>, ghost objects1: seq<Thing>, ghost things1: seq<Thing>, ghost packs1: seq<seq<Thing>>)
    requires k.Valid() && PacksIn(packs, items) && HasForm(game, pack, objects, things, packs, items, form)
    requires Chain(into.lvlObj, objects0) && Chain(into.player.pack, pack0) && into.places.Length == game.places.Length
    modifies into, into.player, into.places
    ensures form.Sized() && (ok <==> |Image(k, GameWire(form, Stop))| <= room)
    ensures ok ==> Linked(into, pack1, objects1, things1)
    ensures ok ==> |things1| == |packs1| == |packs| == |things| && |objects1| == |objects| && ObjectsOf(objects1) == old(ObjectsOf(objects))
    ensures ok ==> forall i :: 0 <= i < |things| ==>
      Twin(things1[i], old(things[i].body), old(things[i].room), TargetTwin(old(things[i].dest), things, objects, things1, objects1),
           old(ObjectsOf(packs[i])), packs1[i])
    ensures ok ==>
      Twin(into.player, old(game.player.body), old(game.player.room),
           PlayerTwin(old(into.player.dest), old(game.player.dest), things, objects, things1, objects1, objects0), old(ObjectsOf(pack)), pack1)
    ensures ok ==> (SameTarget(old(game.player.dest), things, objects, into.player.dest, things1, objects1) <==>
      Findable(old(game.player.dest), things, objects) && !old(game.player.dest).AtObject?)
    ensures ok ==> into.Worn() == NodesAt(pack1, Places(pack, old(game.Worn())))
    ensures ok ==> forall i :: 0 <= i < into.places.Length ==>
      into.places[i] == Spot(old(game.places[i].ch), old(game.places[i].flags), NodeAt(things1, PlaceOf(things, old(game.places[i].monst))))
  {
    hide Image, GameWire, Chain, ObjectsOf, SavedForm, DestCode, Places, NodesAt, PlaceOf, NodeAt, TargetTwin, PlayerTwin, RoomCode, RoomTwin;
    hide ThingsHaveForm, ThingsRestored, Twin, Restored, SameTarget, Findable, PacksIn;
    pack1, objects1, things1, packs1 := [], [], [], [];
    FormSized(game, pack, objects, things, packs, items, form);
    FormsOf(things, objects, packs, items, form.things);
    FormFields(game.player, things, objects, pack);
    ghost var before := into.player.dest;
    var file := SaveFile(k, room, bigWriter, game, pack, objects, things, packs, items, form);
    if file.None? {
      return false, [], [], [], [];
    }
    ghost var items1;
    ok, pack1, objects1, things1, packs1, items1 := RestoreFile(k, file.value, bigReader, into, pack0, objects0, form);
    RestoredSizes(things1, form.things, objects1, packs1, items1);
    forall i | 0 <= i < |things|
      ensures Twin(things1[i], old(things[i].body), old(things[i].room), TargetTwin(old(things[i].dest), things, objects, things1, objects1),
                   old(ObjectsOf(packs[i])), packs1[i])
    {
      RestoredIs(things1, form.things, objects1, packs1, items1, i);
      RestoredIsTwin(things1[i], form.things[i], Nowhere, old(things[i].body), old(things[i].room), old(things[i].dest), old(ObjectsOf(packs[i])),
                     things, objects, things1, objects1, objects0, packs1[i]);
    }
    RestoredIsTwin(into.player, form.player, before, old(game.player.body), old(game.player.room), old(game.player.dest), old(ObjectsOf(pack)),
                   things, objects, things1, objects1, objects0, pack1);
    TwinTarget(into.player, old(game.player.body), old(game.player.room),
               PlayerTwin(before, old(game.player.dest), things, objects, things1, objects1, objects0), old(ObjectsOf(pack)), pack1);
    PlayerTargetComesBack(before, old(game.player.dest), things, objects, things1, objects1, objects0);
  }

  lemma FormsOf(things: seq<Thing>, objects: seq<Thing>, packs: seq<seq<Thing>>, items: set<Thing>, forms: seq<SavedThing>)
    requires |things| < 0x8000_0000 && |objects| < 0x8000_0000 && PacksIn(packs, items)
    requires ThingsHaveForm(things, objects, packs, items, forms)
    ensures |packs| == |forms| == |things|
    ensures forall i :: 0 <= i < |things| ==>
      forms[i] == SavedThing(things[i].body, DestCode(things[i].dest, things, objects).0, DestCode(things[i].dest, things, objects).1,
                             RoomCode(things[i].room), ObjectsOf(packs[i]))
  {
    hide DestCode, ObjectsOf, RoomCode;
    forall i | 0 <= i < |things|
      ensures forms[i] == SavedThing(things[i].body, DestCode(things[i].dest, things, objects).0, DestCode(things[i].dest, things, objects).1,
                                     RoomCode(things[i].room), ObjectsOf(packs[i]))
    {
      assert HasFormAt(things, objects, packs, items, forms, i);
    }
  }

  lemma RestoredSizes(things: seq<Thing>, forms: seq<SavedThing>, objects: seq<Thing>, packs: seq<seq<Thing>>, items: set<Thing>)
    requires PacksIn(packs, items) && ThingsRestored(things, forms, objects, packs, items)
    ensures |packs| == |forms| == |things|
  {
  }

  lemma RestoredIs(things: seq<Thing>, forms: seq<SavedThing>, objects: seq<Thing>, packs: seq<seq<Thing>>, items: set<Thing>, i: nat)
    requires PacksIn(packs, items) && ThingsRestored(things, forms, objects, packs, items) && i < |things|
    ensures |packs| == |forms| == |things| && Restored(things[i], forms[i], Nowhere, things, objects, packs[i])
  {
    assert RestoredAt(things, forms, objects, packs, items, i);
  }

  lemma TwinTarget(t: Thing, body: Body, room: RoomRef, dest: Dest, items: seq<Obj>, pack: seq<Thing>)
    requires Twin(t, body, room, dest, items, pack)
    ensures t.dest == dest
  {
  }
}
