/**
  The map part of new_level: clear the map, place the rooms, draw and number the passages.
 */
module Levels {
  import opened Geometry
  import opened LevelMap
  import opened Maze
  import opened Rooms
  import opened Corridors
  import opened Passnum
  import opened Passages

  const BLANK := Place(' ', false, true, 0)

  method ClearPlaces(lv: Level)
    requires lv.Shape()
    modifies lv.places
    ensures forall c :: OnMap(c) ==> lv.Grid()[c] == BLANK
  {
    for x := 0 to NUMCOLS
      invariant forall u, v | 0 <= u < x && 0 <= v < MAXLINES :: lv.places[u, v] == BLANK
    {
      for y := 0 to MAXLINES
        invariant forall u, v | 0 <= u < x && 0 <= v < MAXLINES :: lv.places[u, v] == BLANK
        invariant forall v | 0 <= v < y :: lv.places[x, v] == BLANK
      {
        lv.places[x, y] := BLANK;
      }
    }
  }

  /** The square is taken up by some room. */
  ghost predicate InSomePart(rooms: seq<Room>, mazes: seq<set<Coord>>, c: Coord)
    requires |mazes| <= |rooms|
  {
    exists i :: 0 <= i < |mazes| && InPart(rooms[i], mazes[i], c)
  }

  /** What a square of a finished level shows, its number aside. In an ordinary room: its wall or floor, or
      a door at an exit; in a maze, and on a corridor outside the rooms: a passage; anywhere else: nothing. */
  ghost predicate FinalSquare(p: Place, rooms: seq<Room>, mazes: seq<set<Coord>>, corridors: seq<Corridor>, c: Coord)
    requires |mazes| <= |rooms|
  {
    && (forall i :: 0 <= i < |mazes| && InPart(rooms[i], mazes[i], c) && !rooms[i].maze ==>
          if OnCorridor(corridors, c) then c in rooms[i].exits && DoorShown(rooms[i], c, BLANK.(ch := RoomChar(rooms[i], c)), p)
          else p == BLANK.(ch := RoomChar(rooms[i], c)))
    && (forall i :: 0 <= i < |mazes| && InPart(rooms[i], mazes[i], c) && rooms[i].maze ==> PassPut(BLANK, p))
    && (OnCorridor(corridors, c) && (forall i :: 0 <= i < |rooms| ==> !InRoom(rooms[i], c)) ==> PassPut(BLANK, p))
    && (!OnCorridor(corridors, c) && !InSomePart(rooms, mazes, c) ==> p == BLANK)
  }

  ghost predicate LevelShown(g: Grid, rooms: seq<Room>, mazes: seq<set<Coord>>, corridors: seq<Corridor>) {
    && |mazes| <= |rooms|
    && forall c :: OnMap(c) ==> c in g && FinalSquare(g[c].(num := 0), rooms, mazes, corridors, c)
  }

  lemma SquareOfLevel(p: Place, q: Place, rooms0: seq<Room>, rooms: seq<Room>, mazes: seq<set<Coord>>, corridors: seq<Corridor>, c: Coord)
    requires |mazes| == |rooms0| == MAXROOMS && MoreExits(rooms0, rooms)
    requires SquareShown(BLANK, p, rooms0, mazes, c) && SquareKept(p, q, rooms, corridors, c)
    requires forall i :: 0 <= i < MAXROOMS ==> PartPlaced(i, rooms0[i], mazes[i])
    ensures FinalSquare(q, rooms, mazes, corridors, c)
  {
    forall i | 0 <= i < MAXROOMS
      ensures rooms[i] == rooms0[i].(exits := rooms[i].exits)
    {
    }
    forall i | 0 <= i < MAXROOMS && InPart(rooms[i], mazes[i], c) && rooms[i].maze
      ensures PassPut(BLANK, q)
    {
      MazeSquareKept(p, q, rooms0, rooms, mazes, corridors, c, i);
    }
    hide PartPlaced, OnCorridor, MoreExits;
    if InSomePart(rooms, mazes, c) {
      var i :| 0 <= i < |mazes| && InPart(rooms[i], mazes[i], c);
      assert InPart(rooms0[i], mazes[i], c);
    } else {
      forall i | 0 <= i < MAXROOMS
        ensures !InPart(rooms0[i], mazes[i], c)
      {
        assert !InPart(rooms[i], mazes[i], c);
      }
    }
  }

  /** A square dug in a maze stays one. */
  lemma MazeSquareKept(p: Place, q: Place, rooms0: seq<Room>, rooms: seq<Room>, mazes: seq<set<Coord>>, corridors: seq<Corridor>, c: Coord, i: nat)
    requires |mazes| == |rooms0| == MAXROOMS && MoreExits(rooms0, rooms)
    requires SquareShown(BLANK, p, rooms0, mazes, c) && SquareKept(p, q, rooms, corridors, c)
    requires forall j :: 0 <= j < MAXROOMS ==> PartPlaced(j, rooms0[j], mazes[j])
    requires i < MAXROOMS && InPart(rooms0[i], mazes[i], c) && rooms0[i].maze
    ensures PassPut(BLANK, q)
  {
    assert PartShown(rooms0[i], c, BLANK, p);
    if j: nat :| j < MAXROOMS && InRoom(rooms[j], c) {
      assert rooms[j] == rooms0[j].(exits := rooms[j].exits);
      if OnCorridor(corridors, c) {
        assert ExitShown(rooms[j], c, p, q);
        if !rooms[j].maze {
          assert PartPlaced(i, rooms0[i], mazes[i]) && PartPlaced(j, rooms0[j], mazes[j]);
          PartsApart(i, rooms0[i], mazes[i], j, rooms0[j], mazes[j], c);
        }
      }
    }
  }

  lemma AllPartsPlaced(g: Grid, rooms: seq<Room>, mazes: seq<set<Coord>>)
    requires Layout(rooms) && |mazes| == MAXROOMS && MazesDug(g, rooms, mazes)
    ensures forall i :: 0 <= i < MAXROOMS ==> PartPlaced(i, rooms[i], mazes[i])
  {
  }

  lemma WholeLevel(g0: Grid, g1: Grid, dug: Grid, g: Grid, rooms0: seq<Room>, rooms: seq<Room>, mazes: seq<set<Coord>>, tree: seq<Pair>,
                   drawn: seq<Pair>, corridors: seq<Corridor>, table: seq<seq<Coord>>, pnum: nat)
    requires |mazes| == |rooms0| == MAXROOMS && MoreExits(rooms0, rooms) && g0.Keys == AllSquares()
    requires (forall c :: OnMap(c) ==> c in g0 && g0[c] == BLANK) && RoomsShown(g0, g1, rooms0, mazes)
    requires forall i :: 0 <= i < MAXROOMS ==> PartPlaced(i, rooms0[i], mazes[i])
    requires LevelConnected(g1, dug, g, rooms, tree, drawn, corridors, table, pnum)
    ensures LevelShown(g, rooms, mazes, corridors)
  {
    forall c | OnMap(c)
      ensures c in g && FinalSquare(g[c].(num := 0), rooms, mazes, corridors, c)
    {
      assert SquareShown(g0[c], g1[c], rooms0, mazes, c) && SquareKept(g1[c], dug[c], rooms, corridors, c);
      OnlyNumbered(g1, dug, g, rooms, tree, drawn, corridors, table, pnum, c);
      hide LevelConnected, FinalSquare, SquareShown, SquareKept, PartPlaced, MoreExits;
      SquareOfLevel(g1[c], dug[c], rooms0, rooms, mazes, corridors, c);
    }
  }

  lemma OnlyNumbered(g0: Grid, dug: Grid, g: Grid, rooms: seq<Room>, tree: seq<Pair>, drawn: seq<Pair>, corridors: seq<Corridor>,
                     table: seq<seq<Coord>>, pnum: nat, c: Coord)
    requires LevelConnected(g0, dug, g, rooms, tree, drawn, corridors, table, pnum) && c in dug
    ensures c in g && g[c].(num := 0) == dug[c]
  {
  }

  /** Whatever was there before, and for every sequence of random numbers that lasts: as many rooms are gone
      as were drawn, the rooms have a layout of do_rooms, the passages connect and number the level, the map
      shows the rooms, mazes, doors and passages and nothing else, and on the first level nothing is hidden. */
  method NewLevel(lv: Level, rooms: array<Room>, rng: Random, depth: nat, graph: RoomGraph, t: PassageTable)
    returns (ghost dug: Grid, ghost tree: seq<Pair>, ghost drawn: seq<Pair>, ghost corridors: seq<Corridor>, ghost mazes: seq<set<Coord>>,
             ghost made: Grid)
    requires lv.Shape() && graph.Shape() && t.exits.Length == MAXPASS && rooms.Length == MAXROOMS
    modifies lv.places, rooms, rng, graph.isConn, graph.inGraph, t, t.exits
    ensures rng.dry || (Layout(rooms[..]) &&
      LevelConnected(made, dug, lv.Grid(), rooms[..], tree, drawn, corridors, t.exits[..], t.pnum))
    ensures rng.dry || (|mazes| == MAXROOMS && (forall i :: 0 <= i < MAXROOMS ==> PartPlaced(i, rooms[i], mazes[i])) &&
      LevelShown(lv.Grid(), rooms[..], mazes, corridors))
    ensures !rng.dry ==> GoneCount(rooms[..], MAXROOMS) == Draw(old(rng.tape), 4)
    ensures depth <= 1 ==> AllReal(lv.Grid())
  {
    dug, tree, drawn, corridors, mazes, made := map[], [], [], [], [], map[];
    ClearPlaces(lv);
    ghost var g0 := lv.Grid();
    BlankIsReal(g0);
    mazes := DoRooms(lv, rooms, rng, depth);
    made := lv.Grid();
    if rng.dry {
      return;
    }
    ghost var rooms0 := rooms[..];
    assert MazesDug(lv.Grid(), rooms0, mazes);
    AllPartsPlaced(made, rooms0, mazes);
    hide Layout, LevelConnected, MoreExits, LevelShown, PartPlaced, GoneCount, AllReal, ExtraDrawn;
    dug, tree, drawn, corridors := DoPassages(lv, rooms, rng, depth, graph, t);
    SameLayout(rooms0, rooms[..]);
    if !rng.dry {
      WholeLevel(g0, made, dug, lv.Grid(), rooms0, rooms[..], mazes, tree, drawn, corridors, t.exits[..], t.pnum);
    }
    SameRoomsGone(rooms0, rooms[..], mazes);
  }

  lemma BlankIsReal(g: Grid)
    requires g.Keys == AllSquares() && forall c :: OnMap(c) ==> c in g && g[c] == BLANK
    ensures AllReal(g)
  {
  }

  lemma SameRoomsGone(rooms0: seq<Room>, rooms: seq<Room>, mazes: seq<set<Coord>>)
    requires |mazes| == |rooms0| == MAXROOMS && MoreExits(rooms0, rooms)
    ensures GoneCount(rooms, MAXROOMS) == GoneCount(rooms0, MAXROOMS)
    ensures (forall i :: 0 <= i < MAXROOMS ==> PartPlaced(i, rooms0[i], mazes[i])) ==>
      forall i :: 0 <= i < MAXROOMS ==> PartPlaced(i, rooms[i], mazes[i])
  {
    SameGone(rooms0, rooms, MAXROOMS);
    hide GoneCount;
    forall i | 0 <= i < MAXROOMS && PartPlaced(i, rooms0[i], mazes[i])
      ensures PartPlaced(i, rooms[i], mazes[i])
    {
      assert rooms[i] == rooms0[i].(exits := rooms[i].exits);
    }
  }

  /** All the squares of one corridor have the same number. */
  lemma CorridorHasOneNumber(g0: Grid, dug: Grid, g: Grid, rooms: seq<Room>, tree: seq<Pair>, drawn: seq<Pair>,
                             corridors: seq<Corridor>, table: seq<seq<Coord>>, pnum: nat, k: nat, a: Coord, b: Coord)
    requires LevelConnected(g0, dug, g, rooms, tree, drawn, corridors, table, pnum)
    requires k < |corridors| && a in AllSquaresOf(corridors[k]) && b in AllSquaresOf(corridors[k])
    ensures a in g && b in g && g[a].num == g[b].num <= pnum <= 12
  {
    var p, exits := Numerable(dug), AllExits(rooms);
    assert Piece(p, AllSquaresOf(corridors[k]));
    assert Connected(p, a, b) && Connected(p, b, a);
    if g[a].num != 0 {
      assert Reached(p, exits, a);
      var e :| e in exits && Connected(p, e, a);
      ConnectedTrans(p, e, a, b);
    } else if Reached(p, exits, b) {
      var e :| e in exits && Connected(p, e, b);
      ConnectedTrans(p, e, b, a);
    }
  }

  ghost predicate ShareNumber(g: Grid, exits: seq<Coord>, others: seq<Coord>) {
    exists e, f :: e in exits && f in others && e in g && f in g && 1 <= g[e].num == g[f].num <= 12
  }

  /** Exits of two joined rooms have the same number, and it is one of the at most twelve in use. */
  lemma JoinedRoomsShareNumber(g0: Grid, dug: Grid, g: Grid, rooms: seq<Room>, tree: seq<Pair>, drawn: seq<Pair>,
                               corridors: seq<Corridor>, table: seq<seq<Coord>>, pnum: nat, k: nat)
    requires Layout(rooms) && LevelConnected(g0, dug, g, rooms, tree, drawn, corridors, table, pnum)
    requires k < |drawn| && !rooms[drawn[k].0].gone && !rooms[drawn[k].1].gone
    ensures ShareNumber(g, rooms[drawn[k].0].exits, rooms[drawn[k].1].exits)
  {
    assert JoinsRooms(rooms, drawn[k], corridors[k]);
    var i := Lower(drawn[k].0, drawn[k].1);
    var c := corridors[k];
    var j := NextRoomOf(i, c.down);
    CorridorEnds(c);
    assert c.Square(0) in AllSquaresOf(c) && c.Square(c.Last()) in AllSquaresOf(c);
    CorridorHasOneNumber(g0, dug, g, rooms, tree, drawn, corridors, table, pnum, k, c.from, c.to);
    ExitNumbered(g0, dug, g, rooms, tree, drawn, corridors, table, pnum, i, c.from);
    hide LevelConnected, CorridorBetween, Layout, AllSquaresOf;
    assert c.from in rooms[i].exits && c.to in rooms[j].exits;
  }

  /** Every exit of every room has a number that fits the passage table. */
  lemma ExitNumbered(g0: Grid, dug: Grid, g: Grid, rooms: seq<Room>, tree: seq<Pair>, drawn: seq<Pair>,
                     corridors: seq<Corridor>, table: seq<seq<Coord>>, pnum: nat, i: nat, e: Coord)
    requires LevelConnected(g0, dug, g, rooms, tree, drawn, corridors, table, pnum)
    requires i < |rooms| && e in rooms[i].exits
    ensures e in g && 1 <= g[e].num <= 12
  {
    var j :| 0 <= j < |rooms[i].exits| && rooms[i].exits[j] == e;
    var cover := Cover(corridors);
    assert InSome(cover, rooms[i].exits[j]);
    var k :| 0 <= k < |cover| && e in cover[k];
    assert Piece(Numerable(dug), AllSquaresOf(corridors[k]));
    ConnectedSelf(Numerable(dug), e);
    assert rooms[i].exits[j] in AllExits(rooms);
    assert Reached(Numerable(dug), AllExits(rooms), e);
  }
}
