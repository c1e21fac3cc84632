/**
  do_rooms: where the nine rooms go, their walls, and the mazes.
 */
module Rooms {
  import opened Geometry
  import opened LevelMap
  import opened Maze

  const FLOOR := '.'
  const BSZE := Coord(NUMCOLS / 3, NUMLINES / 3)

  /** Upper left corner of the box room i goes in. */
  function Top(i: nat): Coord {
    Coord(i % 3 * BSZE.x + 1, i / 3 * BSZE.y)
  }

  /** A gone room is one square, away from the edges of its box. */
  predicate GonePlaced(top: Coord, r: Room) {
    && !r.maze && r.max == Coord(-NUMCOLS, -NUMLINES)
    && top.x + 1 <= r.pos.x <= top.x + 24 && top.y + 1 <= r.pos.y <= top.y + 6
  }

  /** A maze fills its box, moved off the top line and out to the left edge. */
  predicate MazePlaced(top: Coord, r: Room) {
    && r.pos == Coord(if top.x == 1 then 0 else top.x, if top.y == 0 then 1 else top.y)
    && r.max == Coord(25, if top.y == 0 then 6 else 7)
  }

  predicate OrdinaryPlaced(top: Coord, r: Room) {
    && 4 <= r.max.x <= 25 && 4 <= r.max.y <= 7
    && top.x <= r.pos.x && r.pos.x + r.max.x <= top.x + 25
    && top.y <= r.pos.y && r.pos.y + r.max.y <= top.y + 7
  }

  predicate Placed(i: nat, r: Room) {
    if r.gone then GonePlaced(Top(i), r)
    else if r.maze then MazePlaced(Top(i), r)
    else OrdinaryPlaced(Top(i), r)
  }

  /** Every layout do_rooms can produce. */
  ghost predicate Layout(rooms: seq<Room>) {
    && |rooms| == MAXROOMS
    && forall i :: 0 <= i < MAXROOMS ==> Placed(i, rooms[i]) && rooms[i].pos.y > 0
  }

  /** The squares of a room, walls included; a gone room has none. */
  predicate InRoom(r: Room, c: Coord) {
    r.pos.x <= c.x < r.pos.x + r.max.x && r.pos.y <= c.y < r.pos.y + r.max.y
  }

  /** The box of room i, seen as a band of columns and a band of lines. */
  lemma RoomInBands(i: nat, r: Room, c: Coord)
    requires i < MAXROOMS && Placed(i, r) && InRoom(r, c)
    ensures 26 * (i % 3) <= c.x <= 26 * (i % 3) + 25 && 8 * (i / 3) <= c.y <= 8 * (i / 3) + 6
    ensures OnMap(c)
  {
  }

  /** No two rooms of a layout overlap. */
  lemma RoomsApart(rooms: seq<Room>, i: nat, j: nat, c: Coord)
    requires Layout(rooms) && i < MAXROOMS && j < MAXROOMS && i != j && InRoom(rooms[i], c)
    ensures !InRoom(rooms[j], c)
  {
    assert Placed(i, rooms[i]) && Placed(j, rooms[j]);
    hide Placed, InRoom, Layout;
    RoomInBands(i, rooms[i], c);
    if InRoom(rooms[j], c) {
      RoomInBands(j, rooms[j], c);
    }
  }

  /** The box do_maze digs in. */
  function MazeBox(r: Room): Box
  {
    BoxOf(r.pos, r.max)
  }

  lemma BoxInBands(i: nat, r: Room, c: Coord)
    requires i < MAXROOMS && MazePlaced(Top(i), r) && InBox(MazeBox(r), c)
    ensures 26 * (i % 3) <= c.x <= 26 * (i % 3) + 26 && (i % 3 == 0 ==> c.x <= 25) && (i % 3 > 0 ==> c.x > 26 * (i % 3))
    ensures 8 * (i / 3) <= c.y <= 8 * (i / 3) + 7
    ensures OnMap(c)
  {
  }

  lemma BoxesApart(i: nat, r: Room, j: nat, s: Room, c: Coord)
    requires i < MAXROOMS && j < MAXROOMS && i != j && MazePlaced(Top(i), r) && MazePlaced(Top(j), s)
    requires InBox(MazeBox(r), c)
    ensures !InBox(MazeBox(s), c)
  {
    BoxInBands(i, r, c);
    if InBox(MazeBox(s), c) {
      BoxInBands(j, s, c);
    }
  }

  /** The grid with the character of the squares of s set. */
  ghost function WithChar(g: Grid, s: set<Coord>, ch: char): (h: Grid)
    ensures h.Keys == g.Keys
    ensures forall c :: c in g ==> h[c] == if c in s then g[c].(ch := ch) else g[c]
  {
    map c | c in g :: if c in s then g[c].(ch := ch) else g[c]
  }

  lemma WithCharMore(g: Grid, s: set<Coord>, ch: char, c: Coord)
    requires c in g
    ensures WithChar(g, s, ch)[c := WithChar(g, s, ch)[c].(ch := ch)] == WithChar(g, s + {c}, ch)
  {
  }

  ghost function Column(x: int, from: int, to: int): set<Coord> {
    set y: int | from <= y < to :: Coord(x, y)
  }

  ghost function Line(y: int, from: int, to: int): set<Coord> {
    set x: int | from <= x < to :: Coord(x, y)
  }

  method SetChar(lv: Level, c: Coord, ch: char)
    requires lv.Shape() && OnMap(c)
    modifies lv.places
    ensures lv.Grid() == old(lv.Grid())[c := old(lv.Grid())[c].(ch := ch)]
  {
    lv.Put(c, lv.places[c.x, c.y].(ch := ch));
  }

  method Vert(lv: Level, r: Room, startX: int)
    requires lv.Shape() && 0 <= startX < NUMCOLS && 0 <= r.pos.y && 0 < r.max.y && r.pos.y + r.max.y <= MAXLINES
    modifies lv.places
    ensures lv.Grid() == WithChar(old(lv.Grid()), Column(startX, r.pos.y + 1, r.pos.y + r.max.y), '|')
  {
    ghost var g := lv.Grid();
    assert WithChar(g, Column(startX, r.pos.y + 1, r.pos.y + 1), '|') == g;
    for y := r.pos.y + 1 to r.pos.y + r.max.y
      invariant lv.Grid() == WithChar(g, Column(startX, r.pos.y + 1, y), '|')
    {
      SetChar(lv, Coord(startX, y), '|');
      WithCharMore(g, Column(startX, r.pos.y + 1, y), '|', Coord(startX, y));
      assert Column(startX, r.pos.y + 1, y + 1) == Column(startX, r.pos.y + 1, y) + {Coord(startX, y)};
    }
  }

  method Row(lv: Level, y: int, from: int, to: int, ch: char)
    requires lv.Shape() && 0 <= y < MAXLINES && 0 <= from <= to <= NUMCOLS
    modifies lv.places
    ensures lv.Grid() == WithChar(old(lv.Grid()), Line(y, from, to), ch)
  {
    ghost var g := lv.Grid();
    assert WithChar(g, Line(y, from, from), ch) == g;
    for x := from to to
      invariant lv.Grid() == WithChar(g, Line(y, from, x), ch)
    {
      SetChar(lv, Coord(x, y), ch);
      WithCharMore(g, Line(y, from, x), ch, Coord(x, y));
      assert Line(y, from, x + 1) == Line(y, from, x) + {Coord(x, y)};
    }
  }

  method Horiz(lv: Level, r: Room, startY: int)
    requires lv.Shape() && 0 <= startY < MAXLINES && 0 <= r.pos.x && 0 <= r.max.x && r.pos.x + r.max.x <= NUMCOLS
    modifies lv.places
    ensures lv.Grid() == WithChar(old(lv.Grid()), Line(startY, r.pos.x, r.pos.x + r.max.x), '-')
  {
    Row(lv, startY, r.pos.x, r.pos.x + r.max.x, '-');
  }

  /** What a square of an ordinary room shows. */
  function RoomChar(r: Room, c: Coord): char {
    if c.y == r.pos.y || c.y == r.pos.y + r.max.y - 1 then '-'
    else if c.x == r.pos.x || c.x == r.pos.x + r.max.x - 1 then '|'
    else FLOOR
  }

  ghost function RoomDrawn(g: Grid, r: Room): (h: Grid)
    ensures h.Keys == g.Keys
    ensures forall c :: c in g ==> h[c] == if InRoom(r, c) then g[c].(ch := RoomChar(r, c)) else g[c]
  {
    map c | c in g :: if InRoom(r, c) then g[c].(ch := RoomChar(r, c)) else g[c]
  }

  /** draw_room for an ordinary room: the box and the floor. */
  method DrawRoom(lv: Level, r: Room)
    requires lv.Shape() && 0 <= r.pos.x && 0 <= r.pos.y && 4 <= r.max.x && 4 <= r.max.y
    requires r.pos.x + r.max.x <= NUMCOLS && r.pos.y + r.max.y <= MAXLINES
    modifies lv.places
    ensures lv.Grid() == RoomDrawn(old(lv.Grid()), r)
  {
    hide WithChar, RoomChar, Column, Line, Half, RoomDrawn, AllSquares;
    ghost var g0 := lv.Grid();
    Vert(lv, r, r.pos.x);
    ghost var g1 := lv.Grid();
    Vert(lv, r, r.pos.x + r.max.x - 1);
    ghost var g2 := lv.Grid();
    Horiz(lv, r, r.pos.y);
    ghost var g3 := lv.Grid();
    Horiz(lv, r, r.pos.y + r.max.y - 1);
    WallsDrawn(g0, g1, g2, g3, lv.Grid(), r);
    for y := r.pos.y + 1 to r.pos.y + r.max.y - 1
      invariant Half(g0, lv.Grid(), r, y)
    {
      ghost var h := lv.Grid();
      Row(lv, y, r.pos.x + 1, r.pos.x + r.max.x - 1, FLOOR);
      RowDrawn(g0, h, lv.Grid(), r, y);
    }
    AllDrawn(g0, lv.Grid(), r);
  }

  /** The walls are drawn and the floor above line y. */
  ghost predicate Half(g: Grid, h: Grid, r: Room, y: int) {
    && h.Keys == g.Keys
    && forall c :: c in g ==>
      h[c] == if InRoom(r, c) && (RoomChar(r, c) != FLOOR || c.y < y) then g[c].(ch := RoomChar(r, c)) else g[c]
  }

  lemma WallsDrawn(g0: Grid, g1: Grid, g2: Grid, g3: Grid, g4: Grid, r: Room)
    requires 4 <= r.max.x && 4 <= r.max.y
    requires g1 == WithChar(g0, Column(r.pos.x, r.pos.y + 1, r.pos.y + r.max.y), '|')
    requires g2 == WithChar(g1, Column(r.pos.x + r.max.x - 1, r.pos.y + 1, r.pos.y + r.max.y), '|')
    requires g3 == WithChar(g2, Line(r.pos.y, r.pos.x, r.pos.x + r.max.x), '-')
    requires g4 == WithChar(g3, Line(r.pos.y + r.max.y - 1, r.pos.x, r.pos.x + r.max.x), '-')
    ensures Half(g0, g4, r, r.pos.y + 1)
  {
    forall c | c in g0
      ensures g4[c] == if InRoom(r, c) && (RoomChar(r, c) != FLOOR || c.y < r.pos.y + 1) then g0[c].(ch := RoomChar(r, c)) else g0[c]
    {
    }
  }

  lemma RowDrawn(g: Grid, h: Grid, k: Grid, r: Room, y: int)
    requires Half(g, h, r, y) && r.pos.y + 1 <= y < r.pos.y + r.max.y - 1
    requires k == WithChar(h, Line(y, r.pos.x + 1, r.pos.x + r.max.x - 1), FLOOR)
    ensures Half(g, k, r, y + 1)
  {
  }

  lemma AllDrawn(g: Grid, h: Grid, r: Room)
    requires Half(g, h, r, r.pos.y + r.max.y - 1) && 4 <= r.max.y
    ensures h == RoomDrawn(g, r)
  {
  }

  ghost predicate InSomeMaze(mazes: seq<set<Coord>>, c: Coord) {
    exists i :: 0 <= i < |mazes| && c in mazes[i]
  }

  /** Of the first |mazes| rooms, each maze room holds a maze as do_maze leaves it, and the passage squares of the
      level are exactly theirs; nothing is numbered. */
  ghost predicate MazesDug(g: Grid, rooms: seq<Room>, mazes: seq<set<Coord>>) {
    && |mazes| <= |rooms|
    && (forall i :: 0 <= i < |mazes| ==>
          if rooms[i].maze then MazeRun(MazeBox(rooms[i]), mazes[i]) else mazes[i] == {})
    && (forall c :: c in g ==> g[c].num == 0 && (g[c].isPass <==> InSomeMaze(mazes, c)))
  }

  /** The room a draw gives is not gone. */
  predicate Kept(rooms: seq<Room>, draw: nat) {
    |rooms| == MAXROOMS && !rooms[draw % MAXROOMS].gone
  }

  function KeptDraw(rooms: seq<Room>): nat -> bool {
    (draw: nat) => Kept(rooms, draw)
  }

  /** Draw a room until it is not gone; exactly if the tape holds no such draw the source runs dry. */
  method RndRoom(rooms: array<Room>, rng: Random) returns (rm: nat)
    requires rooms.Length == MAXROOMS
    modifies rng
    ensures rm < MAXROOMS && (rng.dry || !rooms[rm].gone)
    ensures old(rng.dry) ==> rng.dry
    ensures !old(rng.dry) ==> (!rng.dry <==> SomeFound(old(rng.tape), KeptDraw(rooms[..])))
    ensures !rng.dry ==> exists n: nat :: Found(old(rng.tape), KeptDraw(rooms[..]), n, rng.tape) && rm == old(rng.tape)[n] % MAXROOMS
  {
    hide OneDraw, Searching;
    ghost var t, wasDry, n, rooms0 := rng.tape, rng.dry, 1, rooms[..];
    ghost var good := KeptDraw(rooms0);
    rm := rng.Rnd(MAXROOMS);
    FirstTry(t, good, MAXROOMS, rm, rng.tape, wasDry, rng.dry);
    while rooms[rm].gone && !rng.dry
      invariant rm < MAXROOMS && Searching(t, good, n, rng.tape, wasDry, rng.dry)
      invariant !rng.dry ==> 0 < n <= |t| && rm == t[n - 1] % MAXROOMS
      decreases !rng.dry, |rng.tape|
    {
      ghost var before := rng.tape;
      rm := rng.Rnd(MAXROOMS);
      NextTry(t, good, n, MAXROOMS, rm, before, rng.tape, wasDry, rng.dry);
      n := n + 1;
    }
    SearchDone(t, good, n, rng.tape, wasDry, rng.dry);
  }

  method PlaceGone(i: nat, r: Room, rng: Random) returns (r1: Room)
    requires i < MAXROOMS && r.gone && !r.maze
    modifies rng
    ensures r1 == r.(pos := r1.pos, max := r1.max) && Placed(i, r1) && 0 < r1.pos.y < NUMLINES - 1
    ensures r1.pos == Coord(Top(i).x + Draw(old(rng.tape), 24) + 1, Top(i).y + Draw(After(old(rng.tape), 24), 6) + 1)
    ensures old(rng.dry) ==> rng.dry
  {
    var top := Top(i);
    var x := rng.Rnd(BSZE.x - 2);
    var y := rng.Rnd(BSZE.y - 2);
    r1 := r.(pos := Coord(top.x + x + 1, top.y + y + 1), max := Coord(-NUMCOLS, -NUMLINES));
  }

  method PlaceMaze(i: nat, r: Room) returns (r1: Room)
    requires i < MAXROOMS && !r.gone && r.maze
    ensures r1 == r.(pos := r1.pos, max := r1.max) && Placed(i, r1) && r1.pos.y > 0
  {
    var top := Top(i);
    r1 := r.(pos := top, max := Coord(BSZE.x - 1, BSZE.y - 1));
    if r1.pos.x == 1 {
      r1 := r1.(pos := Coord(0, r1.pos.y));
    }
    if r1.pos.y == 0 {
      r1 := r1.(pos := Coord(r1.pos.x, 1), max := Coord(r1.max.x, r1.max.y - 1));
    }
  }

  /** The size and the place of room i from four draws. */
  function RoundMax(tape: seq<nat>): Coord {
    Coord(Entry(tape, 0) % 22 + 4, Entry(tape, 1) % 4 + 4)
  }

  function RoundPos(i: nat, tape: seq<nat>): Coord {
    Coord(Top(i).x + Entry(tape, 2) % (26 - RoundMax(tape).x), Top(i).y + Entry(tape, 3) % (8 - RoundMax(tape).y))
  }

  /** They are drawn until the room does not touch the top line. */
  ghost predicate PlacedFrom(i: nat, tape: seq<nat>, pos: Coord, max: Coord, rest: seq<nat>) {
    if RoundPos(i, tape).y != 0 then pos == RoundPos(i, tape) && max == RoundMax(tape) && rest == Past(tape, 4)
    else |tape| >= 4 && PlacedFrom(i, Past(tape, 4), pos, max, rest)
  }

  ghost predicate StillPlaces(i: nat, tape: seq<nat>, t: seq<nat>) {
    forall pos, max, rest: seq<nat> :: PlacedFrom(i, t, pos, max, rest) ==> PlacedFrom(i, tape, pos, max, rest)
  }

  lemma SomeRoundFits(i: nat) returns (tape: seq<nat>)
    ensures |tape| == 4 && RoundPos(i, tape).y != 0
  {
    tape := [0, 0, 0, 1];
  }

  lemma FourDraws(tape: seq<nat>, range0: nat, range1: nat, range2: nat, range3: nat)
    requires range0 > 0 && range1 > 0 && range2 > 0 && range3 > 0
    ensures Draw(tape, range0) == Entry(tape, 0) % range0
    ensures Draw(After(tape, range0), range1) == Entry(tape, 1) % range1
    ensures Draw(After(After(tape, range0), range1), range2) == Entry(tape, 2) % range2
    ensures Draw(After(After(After(tape, range0), range1), range2), range3) == Entry(tape, 3) % range3
    ensures After(After(After(After(tape, range0), range1), range2), range3) == Past(tape, 4)
  {
  }

  /** One round of draws for size and place. */
  method DrawRound(i: nat, r: Room, rng: Random) returns (r1: Room)
    requires i < MAXROOMS && !r.gone && !r.maze
    modifies rng
    ensures r1 == r.(pos := RoundPos(i, old(rng.tape)), max := RoundMax(old(rng.tape))) && Placed(i, r1)
    ensures rng.tape == Past(old(rng.tape), 4) && rng.dry == (old(rng.dry) || |old(rng.tape)| < 4)
  {
    ghost var tape := rng.tape;
    var top := Top(i);
    var w := rng.Rnd(BSZE.x - 4);
    var h := rng.Rnd(BSZE.y - 4);
    var x := rng.Rnd(BSZE.x - (w + 4));
    var y := rng.Rnd(BSZE.y - (h + 4));
    FourDraws(tape, 22, 4, 26 - (w + 4), 8 - (h + 4));
    r1 := r.(pos := Coord(top.x + x, top.y + y), max := Coord(w + 4, h + 4));
  }

  /** Size and place are drawn until the room does not touch the top line. */
  method PlaceOrdinary(i: nat, r: Room, rng: Random) returns (r1: Room)
    requires i < MAXROOMS && !r.gone && !r.maze
    modifies rng
    ensures r1 == r.(pos := r1.pos, max := r1.max) && Placed(i, r1) && (rng.dry || r1.pos.y > 0)
    ensures old(rng.dry) ==> rng.dry
    ensures !rng.dry ==> PlacedFrom(i, old(rng.tape), r1.pos, r1.max, rng.tape)
    ensures !old(rng.dry) && |old(rng.tape)| >= 4 && RoundPos(i, old(rng.tape)).y != 0 ==> !rng.dry
  {
    hide RoundPos, RoundMax, Past, Placed, Entry;
    ghost var tape, n := rng.tape, 0;
    r1 := r;
    while true
      invariant old(rng.dry) ==> rng.dry
      invariant r1 == r.(pos := r1.pos, max := r1.max)
      invariant StillPlaces(i, tape, rng.tape)
      invariant n == 0 ==> rng.tape == tape && rng.dry == old(rng.dry)
      invariant n > 0 && !old(rng.dry) ==> |tape| < 4 || RoundPos(i, tape).y == 0
      decreases !rng.dry, |rng.tape|
    {
      ghost var t := rng.tape;
      r1 := DrawRound(i, r, rng);
      n := n + 1;
      OrdinaryOnMap(i, r1);
      PastFour(t);
      if r1.pos.y != 0 || rng.dry {
        return;
      }
    }
  }

  lemma OrdinaryOnMap(i: nat, r: Room)
    requires Placed(i, r) && !r.gone && !r.maze
    ensures r.pos.y >= 0
  {
  }

  lemma PastFour(t: seq<nat>)
    ensures |t| >= 4 ==> |Past(t, 4)| < |t|
  {
  }

  lemma RunInBox(b: Box, dug: set<Coord>, c: Coord)
    requires MazeRun(b, dug) && c in dug
    ensures InBox(b, c)
  {
    RunIsDone(b, dug);
  }

  lemma BoxUndug(g: Grid, rooms: seq<Room>, mazes: seq<set<Coord>>, i: nat)
    requires MazesDug(g, rooms, mazes) && i == |mazes| < |rooms| == MAXROOMS
    requires forall j :: 0 <= j <= i ==> Placed(j, rooms[j])
    requires rooms[i].maze && !rooms[i].gone && forall j :: 0 <= j < i ==> !(rooms[j].maze && rooms[j].gone)
    ensures BoxOnMap(MazeBox(rooms[i]))
    ensures forall c :: c in g && InBox(MazeBox(rooms[i]), c) ==> !g[c].isPass
  {
    forall c | c in g && InBox(MazeBox(rooms[i]), c)
      ensures !g[c].isPass
    {
      if g[c].isPass {
        var j :| 0 <= j < |mazes| && c in mazes[j];
        assert Placed(j, rooms[j]);
        RunInBox(MazeBox(rooms[j]), mazes[j], c);
        hide MazeRun, InBox, MazePlaced;
        BoxesApart(i, rooms[i], j, rooms[j], c);
      }
    }
  }

  lemma OneMoreMaze(g: Grid, h: Grid, rooms: seq<Room>, mazes: seq<set<Coord>>, dug: set<Coord>)
    requires MazesDug(g, rooms, mazes) && |mazes| < |rooms|
    requires rooms[|mazes|].maze && MazeRun(MazeBox(rooms[|mazes|]), dug) && Dug(g, h, dug)
    ensures MazesDug(h, rooms, mazes + [dug])
  {
    var mazes1 := mazes + [dug];
    forall c | c in h
      ensures h[c].num == 0 && (h[c].isPass <==> InSomeMaze(mazes1, c))
    {
      if c in dug {
        assert mazes1[|mazes|] == dug;
      } else if InSomeMaze(mazes, c) {
        var j :| 0 <= j < |mazes| && c in mazes[j];
        assert c in mazes1[j];
      }
    }
  }

  lemma NoMaze(g: Grid, h: Grid, rooms: seq<Room>, mazes: seq<set<Coord>>)
    requires MazesDug(g, rooms, mazes) && |mazes| < |rooms| && !rooms[|mazes|].maze
    requires h.Keys == g.Keys && forall c :: c in g ==> h[c].num == g[c].num && h[c].isPass == g[c].isPass
    ensures MazesDug(h, rooms, mazes + [{}])
  {
    var mazes1 := mazes + [{}];
    forall c | c in h
      ensures h[c].isPass <==> InSomeMaze(mazes1, c)
    {
      if InSomeMaze(mazes, c) {
        var j :| 0 <= j < |mazes| && c in mazes[j];
        assert c in mazes1[j];
      }
    }
  }

  /** The two draws for the kind of a room: deeper down it can be dark, and then a maze. */
  predicate DarkDrawn(tape: seq<nat>, depth: nat) {
    Draw(tape, 10) < depth - 1
  }

  predicate MazeDrawn(tape: seq<nat>, depth: nat) {
    DarkDrawn(tape, depth) && Draw(After(tape, 10), 15) == 0
  }

  /** The room r1 that becomes of room i. */
  ghost predicate RoomChosen(i: nat, r: Room, tape: seq<nat>, depth: nat, r1: Room, rest: seq<nat>) {
    if r.gone then r1 == r.(pos := Coord(Top(i).x + Draw(tape, 24) + 1, Top(i).y + Draw(After(tape, 24), 6) + 1),
                            max := Coord(-NUMCOLS, -NUMLINES))
    else if MazeDrawn(tape, depth) then MazePlaced(Top(i), r1) && r1 == r.(pos := r1.pos, max := r1.max, dark := false, maze := true)
    else
      && r1 == r.(pos := r1.pos, max := r1.max, dark := r.dark || DarkDrawn(tape, depth))
      && PlacedFrom(i, if DarkDrawn(tape, depth) then After(After(tape, 10), 15) else After(tape, 10), r1.pos, r1.max, rest)
  }

  /** The type and the place of room i. */
  method ChooseRoom(i: nat, r: Room, rng: Random, depth: nat) returns (r1: Room)
    requires i < MAXROOMS && !r.maze
    modifies rng
    ensures r1.gone == r.gone && r1.exits == r.exits && !(r1.maze && r1.gone)
    ensures Placed(i, r1) && (rng.dry || r1.pos.y > 0)
    ensures !rng.dry ==> RoomChosen(i, r, old(rng.tape), depth, r1, rng.tape)
    ensures old(rng.dry) ==> rng.dry
  {
    hide PlacedFrom, RoundPos, RoundMax;
    r1 := r;
    if r.gone {
      r1 := PlaceGone(i, r1, rng);
      return;
    }
    var k := rng.Rnd(10);
    if k < depth - 1 {
      r1 := r1.(dark := true);
      k := rng.Rnd(15);
      if k == 0 {
        r1 := r1.(dark := false, maze := true);
      }
    }
    if r1.maze {
      r1 := PlaceMaze(i, r1);
    } else {
      r1 := PlaceOrdinary(i, r1, rng);
    }
  }

  lemma SameRooms(g: Grid, rooms: seq<Room>, rooms1: seq<Room>, mazes: seq<set<Coord>>)
    requires MazesDug(g, rooms, mazes) && |rooms1| == |rooms|
    requires forall j :: 0 <= j < |mazes| ==> rooms1[j] == rooms[j]
    ensures MazesDug(g, rooms1, mazes)
  {
  }

  lemma OrdinaryFits(i: nat, r: Room)
    requires i < MAXROOMS && Placed(i, r) && !r.gone && !r.maze
    ensures 0 <= r.pos.x && 0 <= r.pos.y && 4 <= r.max.x && 4 <= r.max.y
    ensures r.pos.x + r.max.x <= NUMCOLS && r.pos.y + r.max.y <= MAXLINES
  {
  }

  /** What room i does to the map: nothing if it is gone, else a maze, or walls and floor. */
  ghost predicate RoomMade(g: Grid, h: Grid, r: Room, dug: set<Coord>) {
    if r.gone then h == g && dug == {}
    else if r.maze then MazeRun(MazeBox(r), dug) && Dug(g, h, dug)
    else h == RoomDrawn(g, r) && dug == {}
  }

  lemma DrawnIsReal(g: Grid, r: Room)
    ensures AllReal(g) ==> AllReal(RoomDrawn(g, r))
  {
  }

  /** The type, the place and the picture of room i. */
  method MakeRoom(lv: Level, rooms: array<Room>, rng: Random, depth: nat, i: nat, ghost mazes: seq<set<Coord>>)
    returns (ghost mazes1: seq<set<Coord>>)
    requires lv.Shape() && rooms.Length == MAXROOMS && i == |mazes| < MAXROOMS
    requires MazesDug(lv.Grid(), rooms[..], mazes)
    requires forall j :: 0 <= j < i ==> Placed(j, rooms[j]) && !(rooms[j].maze && rooms[j].gone)
    requires !rooms[i].maze && rooms[i].exits == []
    modifies lv.places, rooms, rng
    ensures |mazes1| == i + 1 && mazes1[..i] == mazes && MazesDug(lv.Grid(), rooms[..], mazes1)
    ensures RoomMade(old(lv.Grid()), lv.Grid(), rooms[i], mazes1[i])
    ensures rooms[..] == old(rooms[..])[i := rooms[i]] && Made(i, rooms[i], rng.dry)
    ensures rooms[i].gone == old(rooms[i].gone)
    ensures !rng.dry ==> exists rest :: RoomChosen(i, old(rooms[i]), old(rng.tape), depth, rooms[i], rest)
    ensures depth <= 1 && AllReal(old(lv.Grid())) ==> AllReal(lv.Grid())
    ensures old(rng.dry) ==> rng.dry
  {
    ghost var g := lv.Grid();
    hide MazesDug, Placed, MazeRun, Dug, InBox, BoxOnMap, RoomDrawn, AllSquares, RoomChosen, AllReal, MazeMade;
    var r := ChooseRoom(i, rooms[i], rng, depth);
    rooms[i] := r;
    SameRooms(g, old(rooms[..]), rooms[..], mazes);
    if r.gone {
      NoMaze(g, g, rooms[..], mazes);
      mazes1 := mazes + [{}];
    } else if r.maze {
      BoxUndug(g, rooms[..], mazes, i);
      MazeIsBig(i, r);
      ghost var dug := DoMaze(lv, rng, depth, r.pos, r.max);
      OneMoreMaze(g, lv.Grid(), rooms[..], mazes, dug);
      mazes1 := mazes + [dug];
    } else {
      OrdinaryFits(i, r);
      DrawRoom(lv, r);
      DrawnIsReal(g, r);
      NoMaze(g, lv.Grid(), rooms[..], mazes);
      mazes1 := mazes + [{}];
    }
  }

  lemma MazeIsBig(i: nat, r: Room)
    requires Placed(i, r) && r.maze && !r.gone
    ensures r.max.x > 0 && r.max.y > 0
  {
  }

  /** How many of the first k rooms are gone. */
  function GoneCount(rooms: seq<Room>, k: nat): nat
    requires k <= |rooms|
  {
    if k == 0 then 0 else GoneCount(rooms, k - 1) + if rooms[k - 1].gone then 1 else 0
  }

  lemma {:induction false} OneMoreGone(rooms: seq<Room>, i: nat, k: nat)
    requires i < |rooms| && k <= |rooms|
    ensures GoneCount(rooms[i := rooms[i].(gone := true)], k) <= GoneCount(rooms, k) + 1
    ensures i < k && !rooms[i].gone ==> GoneCount(rooms[i := rooms[i].(gone := true)], k) == GoneCount(rooms, k) + 1
    ensures k <= i ==> GoneCount(rooms[i := rooms[i].(gone := true)], k) == GoneCount(rooms, k)
  {
    if k > 0 {
      OneMoreGone(rooms, i, k - 1);
    }
  }

  lemma {:induction false} SameGone(a: seq<Room>, b: seq<Room>, k: nat)
    requires k <= |a| == |b| && forall i :: 0 <= i < |a| ==> a[i].gone == b[i].gone
    ensures GoneCount(a, k) == GoneCount(b, k)
  {
    if k > 0 {
      SameGone(a, b, k - 1);
    }
  }

  lemma {:induction false} NoneGone(rooms: seq<Room>, k: nat)
    requires k <= |rooms| && forall i :: 0 <= i < |rooms| ==> !rooms[i].gone
    ensures GoneCount(rooms, k) == 0
  {
    if k > 0 {
      NoneGone(rooms, k - 1);
    }
  }

  /** While a room is left, some draw finds one. */
  lemma SomeRoomKept(rooms: seq<Room>)
    requires |rooms| == MAXROOMS && GoneCount(rooms, MAXROOMS) < MAXROOMS
    ensures exists draw: nat :: Kept(rooms, draw)
  {
    var i := FirstKept(rooms, MAXROOMS);
    assert Kept(rooms, i);
  }

  lemma {:induction false} FirstKept(rooms: seq<Room>, k: nat) returns (i: nat)
    requires k <= |rooms| && GoneCount(rooms, k) < k
    ensures i < k && !rooms[i].gone
  {
    i := k - 1;
    if rooms[k - 1].gone {
      i := FirstKept(rooms, k - 1);
    }
  }

  /** Clear the room records for a new level and make some of them gone. */
  method ClearRooms(rooms: array<Room>, rng: Random)
    requires rooms.Length == MAXROOMS
    modifies rooms, rng
    ensures GoneCount(rooms[..], MAXROOMS) <= Draw(old(rng.tape), 4)
    ensures !rng.dry ==> GoneCount(rooms[..], MAXROOMS) == Draw(old(rng.tape), 4)
    ensures forall i :: 0 <= i < MAXROOMS ==> rooms[i].exits == [] && !rooms[i].maze
    ensures old(rng.dry) ==> rng.dry
  {
    for i := 0 to MAXROOMS
      invariant rng.dry == old(rng.dry) && rng.tape == old(rng.tape)
      invariant forall j :: 0 <= j < i ==> rooms[j].exits == [] && !rooms[j].maze && !rooms[j].gone
    {
      rooms[i] := rooms[i].(gone := false, maze := false, dark := false, exits := []);
    }
    NoneGone(rooms[..], MAXROOMS);
    var leftOut := rng.Rnd(4);
    hide GoneCount;
    for i := 0 to leftOut
      invariant forall j :: 0 <= j < MAXROOMS ==> !rooms[j].maze && rooms[j].exits == []
      invariant GoneCount(rooms[..], MAXROOMS) <= i && (!rng.dry ==> GoneCount(rooms[..], MAXROOMS) == i)
      invariant old(rng.dry) ==> rng.dry
    {
      var rm := RndRoom(rooms, rng);
      OneMoreGone(rooms[..], rm, MAXROOMS);
      ghost var was := rooms[..];
      rooms[rm] := rooms[rm].(gone := true);
      assert rooms[..] == was[rm := was[rm].(gone := true)];
    }
  }

  lemma NoMazesYet(g: Grid, rooms: seq<Room>)
    requires forall c :: c in g ==> g[c].num == 0 && !g[c].isPass
    ensures MazesDug(g, rooms, [])
  {
  }

  // ---- what all the rooms show ----

  /** The squares a room takes up: walls and floor, or what is dug of a maze. */
  ghost predicate InPart(r: Room, dug: set<Coord>, c: Coord) {
    if r.gone then false else if r.maze then c in dug else InRoom(r, c)
  }

  /** What such a square shows, over what it showed before. */
  ghost predicate PartShown(r: Room, c: Coord, p: Place, q: Place) {
    if r.maze then PassPut(p, q) else q == p.(ch := RoomChar(r, c))
  }

  ghost predicate SquareShown(p: Place, q: Place, rooms: seq<Room>, mazes: seq<set<Coord>>, c: Coord)
    requires |mazes| <= |rooms|
  {
    && (forall i :: 0 <= i < |mazes| && InPart(rooms[i], mazes[i], c) ==> PartShown(rooms[i], c, p, q))
    && ((forall i :: 0 <= i < |mazes| ==> !InPart(rooms[i], mazes[i], c)) ==> q == p)
  }

  /** Of the first |mazes| rooms everything is shown, and nothing else on the map has changed. */
  ghost predicate RoomsShown(g: Grid, h: Grid, rooms: seq<Room>, mazes: seq<set<Coord>>) {
    && h.Keys == g.Keys && |mazes| <= |rooms|
    && forall c :: c in g ==> SquareShown(g[c], h[c], rooms, mazes, c)
  }

  /** The part of the map room i keeps to. */
  predicate Territory(i: nat, c: Coord) {
    && 8 * (i / 3) <= c.y <= 8 * (i / 3) + 7
    && (if i % 3 == 0 then 0 else 26 * (i % 3) + 1) <= c.x <= 26 * (i % 3) + 26
  }

  lemma TerritoriesApart(i: nat, j: nat, c: Coord)
    requires i < MAXROOMS && j < MAXROOMS && i != j && Territory(i, c)
    ensures !Territory(j, c)
  {
  }

  lemma PartInTerritory(i: nat, r: Room, dug: set<Coord>, c: Coord)
    requires i < MAXROOMS && Placed(i, r) && (r.maze ==> MazeRun(MazeBox(r), dug)) && InPart(r, dug, c)
    ensures Territory(i, c)
  {
    if r.maze && !r.gone {
      RunInBox(MazeBox(r), dug, c);
    }
  }

  /** A room placed on the map, with its maze if it is one. */
  ghost predicate PartPlaced(i: nat, r: Room, dug: set<Coord>) {
    i < MAXROOMS && Placed(i, r) && (r.maze ==> MazeRun(MazeBox(r), dug))
  }

  lemma PartsApart(i: nat, r: Room, dug: set<Coord>, j: nat, r1: Room, dug1: set<Coord>, c: Coord)
    requires PartPlaced(i, r, dug) && PartPlaced(j, r1, dug1) && i != j && InPart(r, dug, c)
    ensures !InPart(r1, dug1, c)
  {
    hide Placed, MazeRun, InPart, Territory;
    PartInTerritory(i, r, dug, c);
    TerritoriesApart(i, j, c);
    if InPart(r1, dug1, c) {
      PartInTerritory(j, r1, dug1, c);
    }
  }

  lemma MadeSquare(g: Grid, h: Grid, r: Room, dug: set<Coord>, c: Coord)
    requires RoomMade(g, h, r, dug) && c in g
    ensures c in h && if InPart(r, dug, c) then PartShown(r, c, g[c], h[c]) else h[c] == g[c]
  {
    hide RoomChar, MazeRun, InRoom;
  }

  lemma OneMoreSquareShown(p: Place, q: Place, q1: Place, rooms: seq<Room>, rooms1: seq<Room>, mazes: seq<set<Coord>>, mazes1: seq<set<Coord>>,
                           c: Coord)
    requires |mazes| < |rooms| == |rooms1| && SquareShown(p, q, rooms, mazes, c)
    requires |mazes1| == |mazes| + 1 && mazes1[..|mazes|] == mazes && forall j :: 0 <= j < |mazes| ==> rooms1[j] == rooms[j]
    requires forall j :: 0 <= j <= |mazes| ==> PartPlaced(j, rooms1[j], mazes1[j])
    requires var r, dug := rooms1[|mazes|], mazes1[|mazes|]; if InPart(r, dug, c) then PartShown(r, c, q, q1) else q1 == q
    ensures SquareShown(p, q1, rooms1, mazes1, c)
  {
    hide InPart, PartShown, PartPlaced;
    var k := |mazes|;
    forall j | 0 <= j < k
      ensures mazes1[j] == mazes[j] && (InPart(rooms1[k], mazes1[k], c) ==> !InPart(rooms1[j], mazes1[j], c))
    {
      if InPart(rooms1[k], mazes1[k], c) {
        PartsApart(k, rooms1[k], mazes1[k], j, rooms1[j], mazes1[j], c);
      }
    }
  }

  /** One more room is shown. */
  lemma OneMoreShown(g0: Grid, g: Grid, h: Grid, rooms: seq<Room>, rooms1: seq<Room>, mazes: seq<set<Coord>>, mazes1: seq<set<Coord>>)
    requires |mazes| < |rooms| == |rooms1| == MAXROOMS && rooms1 == rooms[|mazes| := rooms1[|mazes|]]
    requires RoomsShown(g0, g, rooms, mazes) && MazesDug(h, rooms1, mazes1)
    requires |mazes1| == |mazes| + 1 && mazes1[..|mazes|] == mazes && RoomMade(g, h, rooms1[|mazes|], mazes1[|mazes|])
    requires forall j :: 0 <= j <= |mazes| ==> Placed(j, rooms1[j])
    ensures RoomsShown(g0, h, rooms1, mazes1)
  {
    forall j | 0 <= j <= |mazes|
      ensures PartPlaced(j, rooms1[j], mazes1[j])
    {
    }
    SameKeys(g, h, rooms1[|mazes|], mazes1[|mazes|]);
    hide MazesDug, RoomMade, InPart, PartShown, SquareShown, Placed, PartPlaced;
    forall c | c in g0
      ensures SquareShown(g0[c], h[c], rooms1, mazes1, c)
    {
      MadeSquare(g, h, rooms1[|mazes|], mazes1[|mazes|], c);
      OneMoreSquareShown(g0[c], g[c], h[c], rooms, rooms1, mazes, mazes1, c);
    }
  }

  lemma SameKeys(g: Grid, h: Grid, r: Room, dug: set<Coord>)
    requires RoomMade(g, h, r, dug)
    ensures h.Keys == g.Keys
  {
  }

  lemma NothingShown(g: Grid, rooms: seq<Room>)
    ensures RoomsShown(g, g, rooms, [])
  {
  }

  /** In the middle of do_rooms: the first |mazes| rooms are placed and drawn. */
  ghost predicate DoneSoFar(g0: Grid, g: Grid, rooms: seq<Room>, mazes: seq<set<Coord>>, gone: nat, dry: bool) {
    && |mazes| <= |rooms| == MAXROOMS && MazesDug(g, rooms, mazes) && RoomsShown(g0, g, rooms, mazes)
    && (forall j :: 0 <= j < |mazes| ==> Made(j, rooms[j], dry))
    && (forall j :: |mazes| <= j < MAXROOMS ==> !rooms[j].maze && rooms[j].exits == [])
    && GoneCount(rooms, MAXROOMS) <= gone && (!dry ==> GoneCount(rooms, MAXROOMS) == gone)
  }

  lemma OneMoreDone(g0: Grid, g: Grid, h: Grid, rooms: seq<Room>, rooms1: seq<Room>, mazes: seq<set<Coord>>, mazes1: seq<set<Coord>>,
                    gone: nat, wasDry: bool, dry: bool)
    requires DoneSoFar(g0, g, rooms, mazes, gone, wasDry) && |mazes| < MAXROOMS == |rooms1| && (wasDry ==> dry)
    requires |mazes1| == |mazes| + 1 && mazes1[..|mazes|] == mazes && MazesDug(h, rooms1, mazes1)
    requires rooms1 == rooms[|mazes| := rooms1[|mazes|]] && rooms1[|mazes|].gone == rooms[|mazes|].gone
    requires Made(|mazes|, rooms1[|mazes|], dry) && RoomMade(g, h, rooms1[|mazes|], mazes1[|mazes|])
    ensures DoneSoFar(g0, h, rooms1, mazes1, gone, dry)
  {
    hide Made, MazesDug, RoomMade, GoneCount, RoomsShown;
    SameGone(rooms, rooms1, MAXROOMS);
    StillMade(rooms, rooms1, |mazes|, wasDry, dry);
    MadeBefore(rooms1, |mazes| + 1, dry);
    OneMoreShown(g0, g, h, rooms, rooms1, mazes, mazes1);
  }

  /** One round of the loop of do_rooms. */
  method NextRoom(lv: Level, rooms: array<Room>, rng: Random, depth: nat, i: nat, ghost g0: Grid, ghost mazes: seq<set<Coord>>, ghost gone: nat)
    returns (ghost mazes1: seq<set<Coord>>)
    requires lv.Shape() && rooms.Length == MAXROOMS && i == |mazes| < MAXROOMS
    requires DoneSoFar(g0, lv.Grid(), rooms[..], mazes, gone, rng.dry)
    modifies lv.places, rooms, rng
    ensures |mazes1| == i + 1 && DoneSoFar(g0, lv.Grid(), rooms[..], mazes1, gone, rng.dry)
    ensures depth <= 1 && AllReal(old(lv.Grid())) ==> AllReal(lv.Grid())
    ensures old(rng.dry) ==> rng.dry
  {
    hide Made, MazesDug, RoomMade, GoneCount, RoomsShown, AllReal, RoomChosen, AllSquares;
    ghost var g, was, wasDry := lv.Grid(), rooms[..], rng.dry;
    MadeBefore(was, i, wasDry);
    mazes1 := MakeRoom(lv, rooms, rng, depth, i, mazes);
    OneMoreDone(g0, g, lv.Grid(), was, rooms[..], mazes, mazes1, gone, wasDry, rng.dry);
  }

  /** do_rooms: as many rooms are gone as were drawn, all are placed, none has exits yet, the passage
      squares are exactly the mazes, and the map shows the rooms and nothing else. */
  method DoRooms(lv: Level, rooms: array<Room>, rng: Random, depth: nat) returns (ghost mazes: seq<set<Coord>>)
    requires lv.Shape() && rooms.Length == MAXROOMS
    requires forall c :: OnMap(c) ==> lv.Grid()[c].num == 0 && !lv.Grid()[c].isPass
    modifies lv.places, rooms, rng
    ensures !rng.dry ==> Layout(rooms[..])
    ensures |mazes| == MAXROOMS && MazesDug(lv.Grid(), rooms[..], mazes)
    ensures RoomsShown(old(lv.Grid()), lv.Grid(), rooms[..], mazes)
    ensures GoneCount(rooms[..], MAXROOMS) <= 3 && (!rng.dry ==> GoneCount(rooms[..], MAXROOMS) == Draw(old(rng.tape), 4))
    ensures depth <= 1 && AllReal(old(lv.Grid())) ==> AllReal(lv.Grid())
    ensures forall i :: 0 <= i < MAXROOMS ==> rooms[i].exits == [] && !(rooms[i].maze && rooms[i].gone)
    ensures old(rng.dry) ==> rng.dry
  {
    ghost var g0, gone := lv.Grid(), Draw(rng.tape, 4);
    NoMazesYet(lv.Grid(), rooms[..]);
    hide MazesDug, RoomsShown, GoneCount, Made, Layout, AllReal, AllSquares, Draw;
    ClearRooms(rooms, rng);
    mazes := [];
    SameRooms(lv.Grid(), old(rooms[..]), rooms[..], mazes);
    NothingShown(g0, rooms[..]);
    assert DoneSoFar(g0, lv.Grid(), rooms[..], mazes, gone, rng.dry);
    hide DoneSoFar;
    for i := 0 to MAXROOMS
      invariant |mazes| == i && DoneSoFar(g0, lv.Grid(), rooms[..], mazes, gone, rng.dry)
      invariant depth <= 1 && AllReal(g0) ==> AllReal(lv.Grid())
      invariant old(rng.dry) ==> rng.dry
    {
      mazes := NextRoom(lv, rooms, rng, depth, i, g0, mazes, gone);
    }
    AllDone(g0, lv.Grid(), rooms[..], mazes, gone, rng.dry);
  }

  lemma AllDone(g0: Grid, g: Grid, rooms: seq<Room>, mazes: seq<set<Coord>>, gone: nat, dry: bool)
    requires DoneSoFar(g0, g, rooms, mazes, gone, dry) && |mazes| == MAXROOMS
    ensures MazesDug(g, rooms, mazes) && RoomsShown(g0, g, rooms, mazes) && (!dry ==> Layout(rooms))
    ensures GoneCount(rooms, MAXROOMS) <= gone && (!dry ==> GoneCount(rooms, MAXROOMS) == gone)
    ensures forall j :: 0 <= j < MAXROOMS ==> rooms[j].exits == [] && !(rooms[j].maze && rooms[j].gone)
  {
    AllMade(rooms, dry);
  }

  ghost predicate Made(i: nat, r: Room, dry: bool) {
    Placed(i, r) && !(r.maze && r.gone) && r.exits == [] && (dry || r.pos.y > 0)
  }

  lemma MadeBefore(rooms: seq<Room>, i: nat, dry: bool)
    requires i <= |rooms| && forall j :: 0 <= j < i ==> Made(j, rooms[j], dry)
    ensures forall j :: 0 <= j < i ==> Placed(j, rooms[j]) && !(rooms[j].maze && rooms[j].gone)
  {
  }

  lemma StillMade(was: seq<Room>, rooms: seq<Room>, i: nat, wasDry: bool, dry: bool)
    requires i < |was| == |rooms| && rooms == was[i := rooms[i]] && (wasDry ==> dry)
    requires forall j :: 0 <= j < i ==> Made(j, was[j], wasDry)
    requires Made(i, rooms[i], dry)
    ensures forall j :: 0 <= j < i + 1 ==> Made(j, rooms[j], dry)
  {
  }

  lemma AllMade(rooms: seq<Room>, dry: bool)
    requires |rooms| == MAXROOMS && forall j :: 0 <= j < MAXROOMS ==> Made(j, rooms[j], dry)
    ensures !dry ==> Layout(rooms)
    ensures forall j :: 0 <= j < MAXROOMS ==> rooms[j].exits == [] && !(rooms[j].maze && rooms[j].gone)
  {
  }
}
