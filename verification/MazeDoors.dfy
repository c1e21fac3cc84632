/**
  Whether the search for a door in a maze room can end: conn redraws the door until it falls on a
  passage square.
 */
module MazeDoors {
  import opened Geometry
  import opened LevelMap
  import opened Maze
  import opened Rooms
  import opened Corridors

  /** Some draw gives a door that lies on one of the squares of pass. */
  ghost predicate StartPossible(r: Room, down: bool, pass: set<Coord>) {
    exists draw: nat :: StartFound(r, down, pass, draw)
  }

  ghost predicate EndPossible(r: Room, down: bool, pass: set<Coord>) {
    exists draw: nat :: EndFound(r, down, pass, draw)
  }

  /** A vertical link between the two lowest lines of cells, away from the two outer columns. */
  ghost predicate InnerLink(r: Room, dug: set<Coord>) {
    exists x: int :: InnerLinkAt(r, dug, x)
  }

  ghost predicate InnerLinkAt(r: Room, dug: set<Coord>, x: int) {
    r.pos.x + 2 <= x <= r.pos.x + 22 && (x - r.pos.x) % 2 == 0 && Coord(x, r.pos.y + 5) in dug
  }

  lemma EveryCellDug(b: Box, dug: set<Coord>, c: Coord)
    requires MazeDone(b, dug) && IsCell(b, c)
    ensures c in dug
  {
    assert c in BoxSquares(b);
  }

  lemma DugIsCellOrLink(b: Box, dug: set<Coord>, c: Coord)
    requires MazeDone(b, dug) && c in dug
    ensures IsCell(b, c) || IsLink(b, c)
  {
  }

  lemma EndAlwaysPossible(i: nat, r: Room, down: bool, dug: set<Coord>)
    requires i < MAXROOMS && MazePlaced(Top(i), r) && MazeRun(MazeBox(r), dug)
    ensures EndPossible(r, down, dug)
  {
    hide MazeDone, MazeRun;
    RunIsDone(MazeBox(r), dug);
    EveryCellDug(MazeBox(r), dug, EndAt(r, down, 1));
    assert EndFound(r, down, dug, 1);
  }

  lemma DoorAtInnerLink(i: nat, r: Room, dug: set<Coord>, k: nat)
    requires i < 3 && MazePlaced(Top(i), r) && k < DoorChoices(r, true)
    requires StartAt(r, true, k) in dug && (IsCell(MazeBox(r), StartAt(r, true, k)) || IsLink(MazeBox(r), StartAt(r, true, k)))
    ensures InnerLinkAt(r, dug, r.pos.x + k + 1)
  {
  }

  lemma SmallDraw(r: Room, down: bool, pass: set<Coord>, k: nat)
    requires k < DoorChoices(r, down) && StartAt(r, down, k) in pass
    ensures StartFound(r, down, pass, k)
  {
  }

  /** A door below a maze of the top line of rooms needs an inner link; every other search can end. */
  lemma StartPossibleWhen(i: nat, r: Room, down: bool, dug: set<Coord>)
    requires i < MAXROOMS && r.maze && MazePlaced(Top(i), r) && MazeRun(MazeBox(r), dug)
    ensures StartPossible(r, down, dug) <==> (!down || i >= 3 || InnerLink(r, dug))
  {
    hide MazeDone, MazeRun;
    RunIsDone(MazeBox(r), dug);
    if !down || i >= 3 {
      EveryCellDug(MazeBox(r), dug, StartAt(r, down, 1));
      SmallDraw(r, down, dug, 1);
    } else {
      if draw: nat :| StartFound(r, down, dug, draw) {
        var k := draw % DoorChoices(r, down);
        DugIsCellOrLink(MazeBox(r), dug, StartAt(r, down, k));
        DoorAtInnerLink(i, r, dug, k);
      }
      if x: int :| InnerLinkAt(r, dug, x) {
        SmallDraw(r, true, dug, x - r.pos.x - 1);
      }
    }
  }

  /** Inside a room the passage squares of the level are those of its own maze. */
  lemma OwnPassages(g: Grid, rooms: seq<Room>, mazes: seq<set<Coord>>, i: nat, c: Coord)
    requires g.Keys == AllSquares() && |mazes| == |rooms| && MazesDug(g, rooms, mazes) && Layout(rooms) && i < MAXROOMS
    requires rooms[i].maze && !rooms[i].gone && InRoom(rooms[i], c)
    requires forall j :: 0 <= j < MAXROOMS ==> !(rooms[j].maze && rooms[j].gone)
    ensures c in PassSquares(g) <==> c in mazes[i]
  {
    assert Placed(i, rooms[i]);
    RoomInBands(i, rooms[i], c);
    hide MazeRun, Layout, MazePlaced;
    assert c in g;
    assert InBox(MazeBox(rooms[i]), c);
    if InSomeMaze(mazes, c) {
      var j :| 0 <= j < |mazes| && c in mazes[j];
      if j != i {
        OtherMaze(rooms, mazes, i, j, c);
      }
    }
  }

  lemma OtherMaze(rooms: seq<Room>, mazes: seq<set<Coord>>, i: nat, j: nat, c: Coord)
    requires Layout(rooms) && i < MAXROOMS && j < MAXROOMS && i != j && |mazes| == MAXROOMS
    requires rooms[i].maze && !rooms[i].gone && InBox(MazeBox(rooms[i]), c) && !(rooms[j].maze && rooms[j].gone)
    requires if rooms[j].maze then MazeRun(MazeBox(rooms[j]), mazes[j]) else mazes[j] == {}
    ensures c !in mazes[j]
  {
    assert Placed(i, rooms[i]) && Placed(j, rooms[j]);
    if c in mazes[j] {
      RunInBox(MazeBox(rooms[j]), mazes[j], c);
      hide MazeRun, InBox, MazePlaced;
      BoxesApart(i, rooms[i], j, rooms[j], c);
    }
  }

  lemma DoorsInRoom(i: nat, r: Room, down: bool, k: nat)
    requires i < MAXROOMS && Placed(i, r) && !r.gone && k < DoorChoices(r, down)
    ensures InRoom(r, StartAt(r, down, k)) && InRoom(r, EndAt(r, down, k))
  {
  }

  lemma OwnSearch(g: Grid, rooms: seq<Room>, mazes: seq<set<Coord>>, i: nat, down: bool, draw: nat)
    requires g.Keys == AllSquares() && |mazes| == |rooms| && MazesDug(g, rooms, mazes) && Layout(rooms) && i < MAXROOMS
    requires rooms[i].maze && !rooms[i].gone
    requires forall j :: 0 <= j < MAXROOMS ==> !(rooms[j].maze && rooms[j].gone)
    ensures StartFound(rooms[i], down, PassSquares(g), draw) <==> StartFound(rooms[i], down, mazes[i], draw)
    ensures EndFound(rooms[i], down, PassSquares(g), draw) <==> EndFound(rooms[i], down, mazes[i], draw)
  {
    var r := rooms[i];
    assert Placed(i, r);
    if DoorChoices(r, down) > 0 {
      var k := draw % DoorChoices(r, down);
      DoorsInRoom(i, r, down, k);
      hide MazesDug, Layout, Placed, InRoom, PassSquares;
      OwnPassages(g, rooms, mazes, i, StartAt(r, down, k));
      OwnPassages(g, rooms, mazes, i, EndAt(r, down, k));
    }
  }

  /** After do_rooms, whatever was drawn: the search for the lower or right end of a corridor in a maze
      can always end; the search for the other end can, unless it is below a maze of the top line
      without an inner link. */
  lemma SearchesCanEnd(g: Grid, rooms: seq<Room>, mazes: seq<set<Coord>>, i: nat, down: bool)
    requires g.Keys == AllSquares() && |mazes| == |rooms| && MazesDug(g, rooms, mazes) && Layout(rooms) && i < MAXROOMS
    requires rooms[i].maze && !rooms[i].gone
    requires forall j :: 0 <= j < MAXROOMS ==> !(rooms[j].maze && rooms[j].gone)
    ensures StartPossible(rooms[i], down, PassSquares(g)) <==> (!down || i >= 3 || InnerLink(rooms[i], mazes[i]))
    ensures EndPossible(rooms[i], down, PassSquares(g))
  {
    assert Placed(i, rooms[i]);
    hide Layout, StartFound, EndFound, PassSquares, InnerLink, MazeRun;
    forall draw: nat
      ensures StartFound(rooms[i], down, PassSquares(g), draw) <==> StartFound(rooms[i], down, mazes[i], draw)
      ensures EndFound(rooms[i], down, PassSquares(g), draw) <==> EndFound(rooms[i], down, mazes[i], draw)
    {
      OwnSearch(g, rooms, mazes, i, down, draw);
    }
    StartPossibleWhen(i, rooms[i], down, mazes[i]);
    EndAlwaysPossible(i, rooms[i], down, mazes[i]);
    SamePossible(rooms[i], down, PassSquares(g), mazes[i]);
  }

  lemma SamePossible(r: Room, down: bool, a: set<Coord>, b: set<Coord>)
    requires forall draw: nat :: StartFound(r, down, a, draw) <==> StartFound(r, down, b, draw)
    requires forall draw: nat :: EndFound(r, down, a, draw) <==> EndFound(r, down, b, draw)
    ensures StartPossible(r, down, a) <==> StartPossible(r, down, b)
    ensures EndPossible(r, down, a) <==> EndPossible(r, down, b)
  {
  }

  /** A corridor changes no passage square of a room that is not gone. */
  lemma CorridorKeepsPassages(g: Grid, h: Grid, rooms: seq<Room>, i: nat, c: Corridor, m: nat, s: Coord)
    requires Layout(rooms) && CorridorBetween(rooms, i, c) && CorridorDrawn(g, h, rooms, i, c)
    requires m < MAXROOMS && InRoom(rooms[m], s)
    ensures s in PassSquares(h) <==> s in PassSquares(g)
  {
    if s in c.Squares(c.Last() - 1) {
      var k: int :| 0 < k <= c.Last() - 1 && s == c.Square(k);
      CorridorInNoRoom(rooms, i, c, k, m);
    } else if s == c.from && rooms[i].gone {
      GoneApart(rooms, i, m);
    } else if s == c.to && rooms[NextRoomOf(i, c.down)].gone {
      GoneApart(rooms, NextRoomOf(i, c.down), m);
    }
  }

  /** No corridor drawn later helps or spoils a search. */
  lemma SearchesStay(g: Grid, h: Grid, rooms: seq<Room>, i: nat, c: Corridor, m: nat, down: bool)
    requires Layout(rooms) && CorridorBetween(rooms, i, c) && CorridorDrawn(g, h, rooms, i, c)
    requires m < MAXROOMS && !rooms[m].gone
    ensures StartPossible(rooms[m], down, PassSquares(h)) <==> StartPossible(rooms[m], down, PassSquares(g))
    ensures EndPossible(rooms[m], down, PassSquares(h)) <==> EndPossible(rooms[m], down, PassSquares(g))
  {
    var r := rooms[m];
    assert Placed(m, r);
    hide Layout, PassSquares, CorridorBetween, CorridorDrawn;
    forall draw: nat
      ensures StartFound(r, down, PassSquares(h), draw) <==> StartFound(r, down, PassSquares(g), draw)
      ensures EndFound(r, down, PassSquares(h), draw) <==> EndFound(r, down, PassSquares(g), draw)
    {
      if DoorChoices(r, down) > 0 {
        var k := draw % DoorChoices(r, down);
        DoorsInRoom(m, r, down, k);
        CorridorKeepsPassages(g, h, rooms, i, c, m, StartAt(r, down, k));
        CorridorKeepsPassages(g, h, rooms, i, c, m, EndAt(r, down, k));
      }
    }
    SamePossible(r, down, PassSquares(h), PassSquares(g));
  }

  /** The k-th cell of a walk line by line, turning at the ends. */
  function SnakeCell(b: Box, k: nat): Coord {
    Coord(b.x + 2 * (if k / 13 % 2 == 0 then k % 13 else 12 - k % 13), b.y + 2 * (k / 13))
  }

  /** What dig has dug when it has gone from each of the first k cells to the next. */
  ghost function SnakeDug(b: Box, k: nat): set<Coord> {
    if k == 0 then {SnakeCell(b, 0)}
    else SnakeDug(b, k - 1) + {Between(SnakeCell(b, k - 1), SnakeCell(b, k)), SnakeCell(b, k)}
  }

  lemma SnakeStep(b: Box, k: nat)
    requires k < 51
    ensures SnakeCell(b, k + 1) in Around(SnakeCell(b, k))
    ensures var l := Between(SnakeCell(b, k), SnakeCell(b, k + 1)); l.y == b.y + 5 ==> l.x == b.x + 24
  {
  }

  lemma SnakeCellsDiffer(b: Box, j: nat, k: nat)
    requires j < k <= 51
    ensures SnakeCell(b, j) != SnakeCell(b, k)
  {
    assert j == j / 13 * 13 + j % 13 && k == k / 13 * 13 + k % 13;
  }

  /** The dug cells are the first k + 1 of the snake, and in the line above the last one only the
      right end is dug. */
  ghost predicate SnakeSoFar(b: Box, k: nat, dug: set<Coord>) {
    && (forall c :: c in dug && IsCell(b, c) ==> exists j: nat :: j <= k && c == SnakeCell(b, j))
    && (forall j: nat :: j <= k ==> SnakeCell(b, j) in dug)
    && (forall c :: c in dug && c.y == b.y + 5 ==> c.x == b.x + 24)
  }

  lemma SnakeInBox(b: Box, k: nat)
    requires k <= 51 && b.maxX == 25 && b.maxY == 6
    ensures IsCell(b, SnakeCell(b, k))
    ensures SnakeCell(b, k).y != b.y + 5
  {
  }

  lemma SnakeMoves(b: Box, k: nat, dug: set<Coord>, l: Coord)
    requires 0 < k <= 51 && SnakeSoFar(b, k - 1, dug) && b.maxX == 25 && b.maxY == 6
    requires !IsCell(b, l) && (l.y == b.y + 5 ==> l.x == b.x + 24)
    ensures SnakeSoFar(b, k, dug + {l, SnakeCell(b, k)})
    ensures SnakeCell(b, k) !in dug
  {
    SnakeInBox(b, k);
    forall j: nat | j <= k - 1
      ensures SnakeCell(b, j) != SnakeCell(b, k)
    {
      SnakeCellsDiffer(b, j, k);
    }
    hide SnakeCell, IsCell;
    forall c | c in dug + {l, SnakeCell(b, k)} && IsCell(b, c)
      ensures exists j: nat :: j <= k && c == SnakeCell(b, j)
    {
      if c in dug {
        var j: nat :| j <= k - 1 && c == SnakeCell(b, j);
      }
    }
  }

  lemma {:induction false} SnakeHolds(b: Box, k: nat)
    requires k <= 51 && b.maxX == 25 && b.maxY == 6
    ensures SnakeSoFar(b, k, SnakeDug(b, k))
  {
    SnakeInBox(b, k);
    if k > 0 {
      SnakeHolds(b, k - 1);
      SnakeStep(b, k - 1);
      SnakeInBox(b, k - 1);
      BetweenIsLink(b, SnakeCell(b, k - 1), SnakeCell(b, k));
      SnakeMoves(b, k, SnakeDug(b, k - 1), Between(SnakeCell(b, k - 1), SnakeCell(b, k)));
    }
  }

  /** The next cell of the snake is one dig can choose. */
  lemma SnakeGoesOn(b: Box, k: nat)
    requires k < 51 && b.maxX == 25 && b.maxY == 6
    ensures SnakeCell(b, k + 1) in Around(SnakeCell(b, k)) && IsCell(b, SnakeCell(b, k + 1))
    ensures SnakeCell(b, k + 1) !in SnakeDug(b, k)
    ensures SnakeDug(b, k + 1) == SnakeDug(b, k) + {Between(SnakeCell(b, k), SnakeCell(b, k + 1)), SnakeCell(b, k + 1)}
  {
    SnakeStep(b, k);
    SnakeInBox(b, k);
    SnakeInBox(b, k + 1);
    BetweenIsLink(b, SnakeCell(b, k), SnakeCell(b, k + 1));
    SnakeHolds(b, k);
    SnakeMoves(b, k + 1, SnakeDug(b, k), Between(SnakeCell(b, k), SnakeCell(b, k + 1)));
  }

  lemma SnakeHasAllCells(b: Box, c: Coord) returns (k: nat)
    requires b.maxX == 25 && b.maxY == 6 && IsCell(b, c)
    ensures k <= 51 && SnakeCell(b, k) == c
  {
    var x, y := (c.x - b.x) / 2, (c.y - b.y) / 2;
    k := 13 * y + if y % 2 == 0 then x else 12 - x;
    assert k / 13 == y && k % 13 == if y % 2 == 0 then x else 12 - x;
  }

  lemma {:induction false} SnakeGrows(b: Box, j: nat, k: nat)
    requires j <= k
    ensures SnakeDug(b, j) <= SnakeDug(b, k)
  {
    hide SnakeCell, Between;
    if j < k {
      SnakeGrows(b, j, k - 1);
    }
  }

  lemma SnakeIsAll(b: Box, c: Coord)
    requires b.maxX == 25 && b.maxY == 6
    ensures Exhausted(b, SnakeDug(b, 51), c)
  {
    SnakeHolds(b, 51);
    hide SnakeDug, SnakeCell, IsCell, Around;
    forall n | n in Around(c) && IsCell(b, n)
      ensures n in SnakeDug(b, 51)
    {
      var k := SnakeHasAllCells(b, n);
    }
  }

  /** At the k-th cell dig can go on along the snake to its end, and then it only comes back. */
  lemma {:induction false} SnakeDigs(b: Box, k: nat)
    requires k <= 51 && b.maxX == 25 && b.maxY == 6
    ensures DigLeaves(b, SnakeCell(b, k), SnakeDug(b, k), SnakeDug(b, 51))
    decreases 51 - k
  {
    hide SnakeCell, Between, IsCell, Around, SnakeDug, Exhausted;
    var all := SnakeDug(b, 51);
    SnakeIsAll(b, SnakeCell(b, k));
    if k < 51 {
      SnakeDigs(b, k + 1);
      SnakeGoesOn(b, k);
      SnakeGrows(b, k + 1, 51);
      DugThrough(b, SnakeCell(b, k), SnakeDug(b, k), SnakeCell(b, k + 1), all, all);
    }
  }

  /** dig can leave a maze, in the top line of rooms, in which no draw of conn gives a door below: the
      walk from the upper left corner that goes on line by line from its newest cell. */
  lemma SnakeHasNoDoor(r: Room)
    requires r.maze && MazePlaced(Top(0), r)
    ensures MazeRun(MazeBox(r), SnakeDug(MazeBox(r), 51))
    ensures !StartPossible(r, true, SnakeDug(MazeBox(r), 51))
  {
    var b := MazeBox(r);
    var dug := SnakeDug(b, 51);
    SnakeHolds(b, 51);
    SnakeDigs(b, 0);
    SnakeInBox(b, 0);
    assert SnakeDug(b, 0) == {SnakeCell(b, 0)};
    hide SnakeDug, DigLeaves, StartFound;
    assert RunFrom(b, SnakeCell(b, 0), dug);
    assert !InnerLink(r, dug) by {
      forall x: int
        ensures !InnerLinkAt(r, dug, x)
      {
        assert Coord(x, r.pos.y + 5).y == b.y + 5;
      }
    }
    StartPossibleWhen(0, r, true, dug);
  }
}
