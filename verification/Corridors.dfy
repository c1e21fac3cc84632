/**
  conn: the corridor between two neighbouring rooms, its doors and its squares.
 */
module Corridors {
  import opened Geometry
  import opened LevelMap
  import opened Rooms

  /** The coordinate along the corridor's direction and the one across it. */
  function Along(down: bool, c: Coord): int {
    if down then c.y else c.x
  }

  function Across(down: bool, c: Coord): int {
    if down then c.x else c.y
  }

  function At(down: bool, along: int, across: int): Coord {
    if down then Coord(across, along) else Coord(along, across)
  }

  /** The choices conn makes: direction, the two ends and turn_spot. */
  datatype Corridor = Corridor(down: bool, from: Coord, to: Coord, turnSpot: int)
  {
    function Distance(): int {
      Along(down, to) - Along(down, from) - 1
    }

    predicate Valid() {
      1 <= turnSpot <= Distance()
    }

    function TurnDistance(): nat {
      if Across(down, from) < Across(down, to) then Across(down, to) - Across(down, from)
      else Across(down, from) - Across(down, to)
    }

    function TurnDelta(): int {
      if Across(down, from) < Across(down, to) then 1 else -1
    }

    /** Steps taken before the turn. */
    function Before(): int {
      Along(down, to) - turnSpot - Along(down, from)
    }

    /** The number of the last square, which is the far end. */
    function Last(): int {
      Distance() + 1 + TurnDistance()
    }

    /** The k-th square of the corridor, counted from its start. */
    function Square(k: int): Coord {
      if k <= Before() then At(down, Along(down, from) + k, Across(down, from))
      else if k <= Before() + TurnDistance() then
        At(down, Along(down, from) + Before(), Across(down, from) + TurnDelta() * (k - Before()))
      else At(down, Along(down, from) + k - TurnDistance(), Across(down, to))
    }

    /** The squares with numbers from 1 to k. */
    ghost function Squares(k: int): set<Coord> {
      set j: int | 0 < j <= k :: Square(j)
    }
  }

  lemma CorridorEnds(c: Corridor)
    requires c.Valid()
    ensures c.Square(0) == c.from && c.Square(c.Last()) == c.to
  {
  }

  lemma CorridorStep(c: Corridor, k: nat)
    requires c.Valid() && k < c.Last()
    ensures Adjacent(c.Square(k), c.Square(k + 1))
  {
  }

  /** The inner squares lie strictly between the ends; the corridor goes straight, turns aside in one
      line, and goes straight again. */
  lemma CorridorShape(c: Corridor, k: nat)
    requires c.Valid() && 0 < k < c.Last()
    ensures Along(c.down, c.from) < Along(c.down, c.Square(k)) < Along(c.down, c.to)
    ensures var s, turn := c.Square(k), Along(c.down, c.to) - c.turnSpot;
      || (Across(c.down, s) == Across(c.down, c.from) && Along(c.down, s) <= turn)
      || (Along(c.down, s) == turn)
      || (Across(c.down, s) == Across(c.down, c.to) && Along(c.down, s) >= turn)
    ensures Across(c.down, c.from) <= Across(c.down, c.Square(k)) <= Across(c.down, c.to) ||
      Across(c.down, c.to) <= Across(c.down, c.Square(k)) <= Across(c.down, c.from)
  {
  }

  /** No square comes twice. */
  lemma CorridorOnce(c: Corridor, j: nat, k: nat)
    requires c.Valid() && j < k <= c.Last()
    ensures c.Square(j) != c.Square(k)
  {
  }

  /** The start conn picks in a room: its own square if gone, else a door below or to the right. */
  predicate StartDoor(r: Room, down: bool, s: Coord) {
    if r.gone then s == r.pos
    else if down then s.y == r.pos.y + r.max.y - 1 && r.pos.x + 1 <= s.x <= r.pos.x + r.max.x - 2
    else s.x == r.pos.x + r.max.x - 1 && r.pos.y + 1 <= s.y <= r.pos.y + r.max.y - 2
  }

  predicate EndDoor(r: Room, down: bool, e: Coord) {
    if r.gone then e == r.pos
    else if down then e.y == r.pos.y && r.pos.x + 1 <= e.x <= r.pos.x + r.max.x - 2
    else e.x == r.pos.x && r.pos.y + 1 <= e.y <= r.pos.y + r.max.y - 2
  }

  /** Room i and the room below it, or to its right. */
  predicate HasNext(i: nat, down: bool) {
    if down then i + 3 < MAXROOMS else i < MAXROOMS && i % 3 < 2
  }

  function NextRoomOf(i: nat, down: bool): nat {
    if down then i + 3 else i + 1
  }

  ghost predicate CorridorBetween(rooms: seq<Room>, i: nat, c: Corridor) {
    && |rooms| == MAXROOMS && HasNext(i, c.down) && c.Valid()
    && StartDoor(rooms[i], c.down, c.from) && EndDoor(rooms[NextRoomOf(i, c.down)], c.down, c.to)
  }

  /** Where the ends of a corridor can be. */
  lemma DoorInBands(i: nat, r: Room, down: bool, s: Coord)
    requires i < MAXROOMS && Placed(i, r) && r.pos.y > 0 && (StartDoor(r, down, s) || EndDoor(r, down, s))
    ensures 26 * (i % 3) <= s.x <= 26 * (i % 3) + 25 && 8 * (i / 3) <= s.y <= 8 * (i / 3) + 6 && s.y > 0
  {
  }

  /** The rooms are far enough apart for a corridor. */
  lemma RoomForCorridor(rooms: seq<Room>, i: nat, down: bool, s: Coord, e: Coord)
    requires Layout(rooms) && HasNext(i, down)
    requires StartDoor(rooms[i], down, s) && EndDoor(rooms[NextRoomOf(i, down)], down, e)
    ensures Along(down, e) - Along(down, s) - 1 >= 1
    ensures InBounds(s) && InBounds(e)
  {
    var j := NextRoomOf(i, down);
    DoorInBands(i, rooms[i], down, s);
    DoorInBands(j, rooms[j], down, e);
  }

  lemma CorridorInBounds(rooms: seq<Room>, i: nat, c: Corridor, k: nat)
    requires Layout(rooms) && CorridorBetween(rooms, i, c) && k <= c.Last()
    ensures InBounds(c.Square(k))
  {
    RoomForCorridor(rooms, i, c.down, c.from, c.to);
    CorridorEnds(c);
    if 0 < k < c.Last() {
      CorridorShape(c, k);
    }
  }

  lemma OnlyTheTwoRooms(i: nat, m: nat, down: bool, s: Coord)
    requires m < MAXROOMS && HasNext(i, down)
    requires 26 * (m % 3) <= s.x <= 26 * (m % 3) + 25 && 8 * (m / 3) <= s.y <= 8 * (m / 3) + 6
    requires down ==> 26 * (i % 3) <= s.x <= 26 * (i % 3) + 25 && 8 * (i / 3) <= s.y <= 8 * (i / 3) + 14
    requires !down ==> 26 * (i % 3) <= s.x <= 26 * (i % 3) + 51 && 8 * (i / 3) <= s.y <= 8 * (i / 3) + 6
    ensures m == i || m == NextRoomOf(i, down)
  {
  }

  predicate InBand(i: nat, s: Coord) {
    26 * (i % 3) <= s.x <= 26 * (i % 3) + 25 && 8 * (i / 3) <= s.y <= 8 * (i / 3) + 6
  }

  lemma BetweenTheBands(i: nat, down: bool, from: Coord, to: Coord, s: Coord)
    requires HasNext(i, down) && InBand(i, from) && InBand(NextRoomOf(i, down), to)
    requires Along(down, from) < Along(down, s) < Along(down, to)
    requires Across(down, from) <= Across(down, s) <= Across(down, to) || Across(down, to) <= Across(down, s) <= Across(down, from)
    ensures down ==> 26 * (i % 3) <= s.x <= 26 * (i % 3) + 25 && 8 * (i / 3) <= s.y <= 8 * (i / 3) + 14
    ensures !down ==> 26 * (i % 3) <= s.x <= 26 * (i % 3) + 51 && 8 * (i / 3) <= s.y <= 8 * (i / 3) + 6
  {
  }

  lemma PastTheStart(r: Room, down: bool, from: Coord, s: Coord)
    requires StartDoor(r, down, from) && Along(down, from) < Along(down, s)
    requires r.gone ==> r.max == Coord(-NUMCOLS, -NUMLINES)
    ensures !InRoom(r, s)
  {
  }

  lemma BeforeTheEnd(r: Room, down: bool, to: Coord, s: Coord)
    requires EndDoor(r, down, to) && Along(down, s) < Along(down, to)
    requires r.gone ==> r.max == Coord(-NUMCOLS, -NUMLINES)
    ensures !InRoom(r, s)
  {
  }

  /** The inner squares of a corridor are in no room. */
  lemma CorridorInNoRoom(rooms: seq<Room>, i: nat, c: Corridor, k: nat, m: nat)
    requires Layout(rooms) && CorridorBetween(rooms, i, c) && 0 < k < c.Last() && m < MAXROOMS
    ensures !InRoom(rooms[m], c.Square(k))
  {
    var s, j := c.Square(k), NextRoomOf(i, c.down);
    assert Placed(i, rooms[i]) && Placed(j, rooms[j]) && Placed(m, rooms[m]);
    CorridorShape(c, k);
    DoorInBands(i, rooms[i], c.down, c.from);
    DoorInBands(j, rooms[j], c.down, c.to);
    PastTheStart(rooms[i], c.down, c.from, s);
    BeforeTheEnd(rooms[j], c.down, c.to, s);
    if InRoom(rooms[m], s) {
      RoomInBands(m, rooms[m], s);
      hide Placed, InRoom, Layout, StartDoor, EndDoor, c.Square, c.Valid, Along, Across;
      BetweenTheBands(i, c.down, c.from, c.to, s);
      OnlyTheTwoRooms(i, m, c.down, s);
    }
  }

  lemma GoneApart(rooms: seq<Room>, i: nat, m: nat)
    requires Layout(rooms) && i < MAXROOMS && m < MAXROOMS && rooms[i].gone
    ensures !InRoom(rooms[m], rooms[i].pos)
  {
    assert Placed(i, rooms[i]) && Placed(m, rooms[m]);
    hide Layout;
    if InRoom(rooms[m], rooms[i].pos) {
      RoomInBands(m, rooms[m], rooms[i].pos);
    }
  }

  lemma OneMoreSquare(c: Corridor, k: nat)
    ensures c.Squares(k + 1) == c.Squares(k) + {c.Square(k + 1)}
  {
  }

  method PutNext(lv: Level, rng: Random, depth: nat, ghost g0: Grid, ghost c: Corridor, ghost k: nat, curr: Coord)
    requires lv.Shape() && Dug(g0, lv.Grid(), c.Squares(k)) && curr == c.Square(k + 1) && OnMap(curr)
    modifies lv.places, rng
    ensures Dug(g0, lv.Grid(), c.Squares(k + 1))
    ensures depth <= 1 && AllReal(old(lv.Grid())) ==> AllReal(lv.Grid())
    ensures !rng.dry ==> Later(old(rng.tape), rng.tape)
    ensures old(rng.dry) ==> rng.dry
  {
    ghost var g := lv.Grid();
    PutPass(lv, rng, depth, curr);
    OneMoreSquare(c, k);
    DugTwice(g0, g, lv.Grid(), c.Squares(k), {curr});
  }

  /** curr moved by del. */
  function Forward(c: Corridor, curr: Coord): Coord {
    At(c.down, Along(c.down, curr) + 1, Across(c.down, curr))
  }

  /** curr moved by turn_delta. */
  function Aside(c: Corridor, curr: Coord): Coord {
    At(c.down, Along(c.down, curr), Across(c.down, curr) + c.TurnDelta())
  }

  lemma StraightStep(c: Corridor, k: nat)
    requires c.Valid() && (k < c.Before() || c.Before() + c.TurnDistance() <= k < c.Last())
    ensures c.Square(k + 1) == Forward(c, c.Square(k))
  {
  }

  lemma TurnStep(c: Corridor, k: nat)
    requires c.Valid() && c.Before() <= k < c.Before() + c.TurnDistance()
    ensures c.Square(k + 1) == Aside(c, c.Square(k))
  {
  }

  /** The inner loop of conn: turn_distance steps aside. */
  method TurnAside(lv: Level, rng: Random, depth: nat, c: Corridor, start: Coord, ghost g0: Grid) returns (curr: Coord)
    requires lv.Shape() && c.Valid() && forall k :: 0 <= k <= c.Last() ==> OnMap(c.Square(k))
    requires start == c.Square(c.Before()) && Dug(g0, lv.Grid(), c.Squares(c.Before() - 1))
    modifies lv.places, rng
    ensures curr == c.Square(c.Before() + c.TurnDistance())
    ensures Dug(g0, lv.Grid(), c.Squares(c.Before() + c.TurnDistance() - 1))
    ensures depth <= 1 && AllReal(old(lv.Grid())) ==> AllReal(lv.Grid())
    ensures !rng.dry ==> Later(old(rng.tape), rng.tape)
    ensures old(rng.dry) ==> rng.dry
  {
    hide c.Square, c.Squares, Dug, Aside, AllReal;
    curr := start;
    var turnDistance: int := c.TurnDistance();
    ghost var k := c.Before() - 1;
    while turnDistance > 0
      invariant k == c.Before() - 1 + c.TurnDistance() - turnDistance && 0 <= turnDistance
      invariant curr == c.Square(k + 1) && Dug(g0, lv.Grid(), c.Squares(k))
      invariant depth <= 1 && AllReal(old(lv.Grid())) ==> AllReal(lv.Grid())
      invariant !rng.dry ==> Later(old(rng.tape), rng.tape)
      invariant old(rng.dry) ==> rng.dry
    {
      turnDistance := turnDistance - 1;
      PutNext(lv, rng, depth, g0, c, k, curr);
      TurnStep(c, k + 1);
      curr := Aside(c, curr);
      k := k + 1;
    }
  }

  /** The number of the square reached when `distance` steps forward remain. */
  function Progressed(c: Corridor, distance: int): int {
    c.Distance() - distance + if distance < c.turnSpot then c.TurnDistance() else 0
  }

  /** One round of the loop of conn. */
  method Advance(lv: Level, rng: Random, depth: nat, c: Corridor, at: Coord, distance: int, ghost g0: Grid) returns (curr: Coord)
    requires lv.Shape() && c.Valid() && forall k :: 0 <= k <= c.Last() ==> OnMap(c.Square(k))
    requires 0 < distance <= c.Distance() && at == c.Square(Progressed(c, distance))
    requires Dug(g0, lv.Grid(), c.Squares(Progressed(c, distance)))
    modifies lv.places, rng
    ensures curr == c.Square(Progressed(c, distance - 1)) && Dug(g0, lv.Grid(), c.Squares(Progressed(c, distance - 1)))
    ensures depth <= 1 && AllReal(old(lv.Grid())) ==> AllReal(lv.Grid())
    ensures !rng.dry ==> Later(old(rng.tape), rng.tape)
    ensures old(rng.dry) ==> rng.dry
  {
    ghost var k := Progressed(c, distance);
    hide c.Square, c.Squares, Dug, Forward, AllSquares, AllReal;
    StraightStep(c, k);
    curr := Forward(c, at);
    if distance == c.turnSpot {
      curr := TurnAside(lv, rng, depth, c, curr, g0);
      k := k + c.TurnDistance();
    }
    PutNext(lv, rng, depth, g0, c, k, curr);
  }

  /** The loop of conn: walk from one end towards the other, turning aside at the turn spot. */
  method DrawCorridor(lv: Level, rng: Random, depth: nat, c: Corridor) returns (curr: Coord)
    requires lv.Shape() && c.Valid() && forall k :: 0 <= k <= c.Last() ==> OnMap(c.Square(k))
    modifies lv.places, rng
    ensures curr == c.to
    ensures Dug(old(lv.Grid()), lv.Grid(), c.Squares(c.Last() - 1))
    ensures depth <= 1 && AllReal(old(lv.Grid())) ==> AllReal(lv.Grid())
    ensures !rng.dry ==> Later(old(rng.tape), rng.tape)
    ensures old(rng.dry) ==> rng.dry
  {
    ghost var g0 := lv.Grid();
    curr := c.from;
    var distance := c.Distance();
    CorridorEnds(c);
    AtBothEnds(c);
    StraightStep(c, c.Last() - 1);
    hide c.Square, c.Squares, Dug, Forward, Progressed, AllSquares, AllReal;
    DugNothing(g0);
    while distance > 0
      invariant 0 <= distance <= c.Distance()
      invariant curr == c.Square(Progressed(c, distance)) && Dug(g0, lv.Grid(), c.Squares(Progressed(c, distance)))
      invariant depth <= 1 && AllReal(old(lv.Grid())) ==> AllReal(lv.Grid())
      invariant !rng.dry ==> Later(old(rng.tape), rng.tape)
      invariant old(rng.dry) ==> rng.dry
    {
      curr := Advance(lv, rng, depth, c, curr, distance, g0);
      distance := distance - 1;
    }
    curr := Forward(c, curr);
  }

  lemma AtBothEnds(c: Corridor)
    requires c.Valid()
    ensures Progressed(c, c.Distance()) == 0 && c.Squares(0) == {}
    ensures Progressed(c, 0) == c.Last() - 1
  {
  }

  /** What `door` may do to a place: a door, or a secret one that looks like the wall it is in. */
  predicate DoorDrawn(r: Room, at: Coord, p: Place, q: Place) {
    || q == p.(ch := DOOR)
    || q == p.(isReal := false, ch := if at.y == r.pos.y || at.y == r.pos.y + r.max.y - 1 then '-' else '|')
  }

  /** What becomes of an end of a corridor: a passage square, a square of the maze, or a door. */
  predicate EndDrawn(r: Room, at: Coord, p: Place, q: Place) {
    if r.gone then PassPut(p, q) else if r.maze then q == p else DoorDrawn(r, at, p, q)
  }

  /** door: a door is shown unless it is secret. */
  function DoorMade(r: Room, at: Coord, p: Place, secret: bool): (q: Place)
    ensures DoorDrawn(r, at, p, q)
  {
    if secret then p.(isReal := false, ch := if at.y == r.pos.y || at.y == r.pos.y + r.max.y - 1 then '-' else '|')
    else p.(ch := DOOR)
  }

  /** The end of a corridor, and what is left of the tape. */
  function EndMade(r: Room, at: Coord, p: Place, tape: seq<nat>, depth: nat): (q: Place)
    ensures EndDrawn(r, at, p, q)
  {
    if r.gone then PassMade(p, Secret(tape, depth, 40))
    else if r.maze then p
    else DoorMade(r, at, p, Secret(tape, depth, 5))
  }

  function AfterEnd(r: Room, tape: seq<nat>, depth: nat): seq<nat> {
    if r.gone then AfterSecret(tape, depth, 40) else if r.maze then tape else AfterSecret(tape, depth, 5)
  }

  /** The rooms after `door` at a square of room m; a gone room keeps no exits. */
  function ExitAdded(rooms: seq<Room>, m: nat, at: Coord): seq<Room>
    requires m < |rooms|
  {
    if rooms[m].gone then rooms else rooms[m := rooms[m].(exits := rooms[m].exits + [at])]
  }

  /** door, or putpass for a gone room. */
  method DrawEnd(lv: Level, rooms: array<Room>, rng: Random, depth: nat, m: nat, at: Coord) returns (ghost q: Place)
    requires lv.Shape() && m < rooms.Length && OnMap(at)
    modifies lv.places, rooms, rng
    ensures lv.Grid() == old(lv.Grid())[at := q] && EndDrawn(old(rooms[m]), at, old(lv.Grid())[at], q)
    ensures q == EndMade(old(rooms[m]), at, old(lv.Grid())[at], old(rng.tape), depth)
    ensures rng.tape == AfterEnd(old(rooms[m]), old(rng.tape), depth)
    ensures rooms[..] == ExitAdded(old(rooms[..]), m, at)
    ensures depth <= 1 && AllReal(old(lv.Grid())) ==> AllReal(lv.Grid())
    ensures !rng.dry ==> Later(old(rng.tape), rng.tape)
    ensures old(rng.dry) ==> rng.dry
  {
    var r := rooms[m];
    ghost var g := lv.Grid();
    q := g[at];
    if r.gone {
      PutPass(lv, rng, depth, at);
      q := lv.Grid()[at];
      return;
    }
    rooms[m] := r.(exits := r.exits + [at]);
    if r.maze {
      return;
    }
    var p := lv.places[at.x, at.y];
    var k := rng.Rnd(10);
    var secret := false;
    if k + 1 < depth {
      k := rng.Rnd(5);
      secret := k == 0;
    }
    if secret {
      p := p.(ch := if at.y == r.pos.y || at.y == r.pos.y + r.max.y - 1 then '-' else '|');
      p := p.(isReal := false);
    } else {
      p := p.(ch := DOOR);
    }
    q := p;
    lv.Put(at, p);
  }

  /** What conn does to the map. */
  ghost predicate CorridorDrawn(g: Grid, h: Grid, rooms: seq<Room>, i: nat, c: Corridor)
    requires i < |rooms| && NextRoomOf(i, c.down) < |rooms|
  {
    && h.Keys == g.Keys
    && forall s :: s in g ==>
      if s in c.Squares(c.Last() - 1) then PassPut(g[s], h[s])
      else if s == c.from then EndDrawn(rooms[i], s, g[s], h[s])
      else if s == c.to then EndDrawn(rooms[NextRoomOf(i, c.down)], s, g[s], h[s])
      else h[s] == g[s]
  }

  lemma EndsOutside(c: Corridor)
    requires c.Valid()
    ensures c.from != c.to && c.from !in c.Squares(c.Last() - 1) && c.to !in c.Squares(c.Last() - 1)
  {
    CorridorEnds(c);
    CorridorOnce(c, 0, c.Last());
    forall k | 0 < k <= c.Last() - 1
      ensures c.Square(k) != c.from && c.Square(k) != c.to
    {
      CorridorOnce(c, 0, k);
      CorridorOnce(c, k, c.Last());
    }
  }

  lemma DrawnInSteps(g: Grid, h: Grid, rooms: seq<Room>, i: nat, c: Corridor, q1: Place, q2: Place)
    requires CorridorBetween(rooms, i, c) && c.from in g && c.to in g
    requires EndDrawn(rooms[i], c.from, g[c.from], q1)
    requires EndDrawn(rooms[NextRoomOf(i, c.down)], c.to, g[c.to], q2)
    requires Dug(g[c.from := q1][c.to := q2], h, c.Squares(c.Last() - 1))
    ensures CorridorDrawn(g, h, rooms, i, c)
  {
    EndsOutside(c);
    hide EndDrawn, c.Last, c.Squares, PassPut;
    var g1 := g[c.from := q1][c.to := q2];
    assert g1.Keys == g.Keys;
  }

  /** The door position drawn with the random number k. */
  function StartAt(r: Room, down: bool, k: nat): Coord {
    if down then Coord(r.pos.x + k + 1, r.pos.y + r.max.y - 1) else Coord(r.pos.x + r.max.x - 1, r.pos.y + k + 1)
  }

  function EndAt(r: Room, down: bool, k: nat): Coord {
    if down then Coord(r.pos.x + k + 1, r.pos.y) else Coord(r.pos.x, r.pos.y + k + 1)
  }

  function DoorChoices(r: Room, down: bool): int {
    (if down then r.max.x else r.max.y) - 2
  }

  lemma DoorsFit(i: nat, r: Room, down: bool)
    requires i < MAXROOMS && Placed(i, r) && r.pos.y > 0
    ensures InBounds(r.pos)
    ensures !r.gone ==> DoorChoices(r, down) > 0 && forall k: nat :: k < DoorChoices(r, down) ==>
      StartDoor(r, down, StartAt(r, down, k)) && InBounds(StartAt(r, down, k)) &&
      EndDoor(r, down, EndAt(r, down, k)) && InBounds(EndAt(r, down, k))
  {
  }

  /** The door a draw gives, and whether it ends the search: in a maze it must lie on a passage. */
  ghost predicate StartFound(r: Room, down: bool, pass: set<Coord>, draw: nat) {
    DoorChoices(r, down) > 0 && (r.maze ==> StartAt(r, down, draw % DoorChoices(r, down)) in pass)
  }

  ghost predicate EndFound(r: Room, down: bool, pass: set<Coord>, draw: nat) {
    DoorChoices(r, down) > 0 && (r.maze ==> EndAt(r, down, draw % DoorChoices(r, down)) in pass)
  }

  ghost function StartFoundDraw(r: Room, down: bool, pass: set<Coord>): nat -> bool {
    (draw: nat) => StartFound(r, down, pass, draw)
  }

  ghost function EndFoundDraw(r: Room, down: bool, pass: set<Coord>): nat -> bool {
    (draw: nat) => EndFound(r, down, pass, draw)
  }

  /** The start is the one the first good draw gives; the own square of a gone room. */
  ghost predicate StartPicked(g: Grid, r: Room, down: bool, tape: seq<nat>, s: Coord, rest: seq<nat>) {
    if r.gone then s == r.pos && rest == tape
    else exists n: nat :: Found(tape, StartFoundDraw(r, down, PassSquares(g)), n, rest) && StartDrawnAs(r, down, tape[n], s)
  }

  ghost predicate StartDrawnAs(r: Room, down: bool, draw: nat, s: Coord) {
    DoorChoices(r, down) > 0 && s == StartAt(r, down, draw % DoorChoices(r, down))
  }

  ghost predicate EndPicked(g: Grid, r: Room, down: bool, tape: seq<nat>, e: Coord, rest: seq<nat>) {
    if r.gone then e == r.pos && rest == tape
    else exists n: nat :: Found(tape, EndFoundDraw(r, down, PassSquares(g)), n, rest) && EndDrawnAs(r, down, tape[n], e)
  }

  ghost predicate EndDrawnAs(r: Room, down: bool, draw: nat, e: Coord) {
    DoorChoices(r, down) > 0 && e == EndAt(r, down, draw % DoorChoices(r, down))
  }

  lemma OwnSquareIsEnd(r: Room, down: bool)
    ensures r.gone ==> StartDoor(r, down, r.pos) && EndDoor(r, down, r.pos)
  {
  }

  lemma IsStartFound(g: Grid, r: Room, down: bool, draw: nat, s: Coord)
    requires StartDrawnAs(r, down, draw, s) && s in g
    ensures StartFoundDraw(r, down, PassSquares(g))(draw) <==> (r.maze ==> g[s].isPass)
  {
  }

  lemma IsEndFound(g: Grid, r: Room, down: bool, draw: nat, e: Coord)
    requires EndDrawnAs(r, down, draw, e) && e in g
    ensures EndFoundDraw(r, down, PassSquares(g))(draw) <==> (r.maze ==> g[e].isPass)
  {
  }

  lemma StartWasPicked(g: Grid, r: Room, down: bool, tape: seq<nat>, n: nat, s: Coord, rest: seq<nat>)
    requires !r.gone && Found(tape, StartFoundDraw(r, down, PassSquares(g)), n, rest) && StartDrawnAs(r, down, tape[n], s)
    ensures StartPicked(g, r, down, tape, s, rest)
  {
  }

  lemma EndWasPicked(g: Grid, r: Room, down: bool, tape: seq<nat>, n: nat, e: Coord, rest: seq<nat>)
    requires !r.gone && Found(tape, EndFoundDraw(r, down, PassSquares(g)), n, rest) && EndDrawnAs(r, down, tape[n], e)
    ensures EndPicked(g, r, down, tape, e, rest)
  {
  }

  lemma GonePicked(g: Grid, r: Room, down: bool, tape: seq<nat>)
    requires r.gone
    ensures StartPicked(g, r, down, tape, r.pos, tape) && EndPicked(g, r, down, tape, r.pos, tape)
  {
  }

  lemma WasPicked(g: Grid, r: Room, r1: Room, c: Corridor, tape: seq<nat>, t: seq<nat>, u: seq<nat>, rest: seq<nat>)
    requires StartPicked(g, r, c.down, tape, c.from, t) && EndPicked(g, r1, c.down, t, c.to, u) && c.Distance() >= 1
    requires c.turnSpot == Draw(u, c.Distance() - 1) + 1 && rest == After(u, c.Distance() - 1)
    ensures CorridorPicked(g, r, r1, c, tape, rest)
  {
    hide StartPicked, EndPicked, Draw, After, c.Distance;
    assert PickedWith(g, r, r1, c, tape, t, u, rest);
  }

  /** The corridor from room r to room r1 that the tape gives: both ends, and then the turn spot. */
  ghost predicate CorridorPicked(g: Grid, r: Room, r1: Room, c: Corridor, tape: seq<nat>, rest: seq<nat>) {
    exists t: seq<nat>, u: seq<nat> :: PickedWith(g, r, r1, c, tape, t, u, rest)
  }

  ghost predicate PickedWith(g: Grid, r: Room, r1: Room, c: Corridor, tape: seq<nat>, t: seq<nat>, u: seq<nat>, rest: seq<nat>) {
    && StartPicked(g, r, c.down, tape, c.from, t) && EndPicked(g, r1, c.down, t, c.to, u)
    && c.Distance() >= 1 && c.turnSpot == Draw(u, c.Distance() - 1) + 1 && rest == After(u, c.Distance() - 1)
  }

  /** The start of a corridor; in a maze the draw is repeated until it falls on a passage. Exactly if the
      tape holds no such draw the source runs dry. */
  method PickStart(lv: Level, rng: Random, r: Room, down: bool, ghost i: nat) returns (s: Coord)
    requires lv.Shape() && i < MAXROOMS && Placed(i, r) && r.pos.y > 0
    modifies rng
    ensures StartDoor(r, down, s) && InBounds(s)
    ensures r.maze && !r.gone ==> rng.dry || lv.Grid()[s].isPass
    ensures !rng.dry ==> Later(old(rng.tape), rng.tape)
    ensures old(rng.dry) ==> rng.dry
    ensures !r.gone && !old(rng.dry) ==>
      (!rng.dry <==> SomeFound(old(rng.tape), StartFoundDraw(r, down, PassSquares(lv.Grid()))))
    ensures !rng.dry ==> StartPicked(lv.Grid(), r, down, old(rng.tape), s, rng.tape)
  {
    hide StartPicked, SomeFound, Found, OneDraw, Searching, StartFoundDraw, AllSquares, StartAt, StartDoor, DoorChoices, Draw, After, Placed, PassSquares;
    DoorsFit(i, r, down);
    OwnSquareIsEnd(r, down);
    s := r.pos;
    if r.gone {
      GonePicked(lv.Grid(), r, down, rng.tape);
      return;
    }
    ghost var t, wasDry, choices, n, g := rng.tape, rng.dry, DoorChoices(r, down), 1, lv.Grid();
    ghost var good := StartFoundDraw(r, down, PassSquares(g));
    var k := rng.Rnd(DoorChoices(r, down));
    FirstTry(t, good, choices, k, rng.tape, wasDry, rng.dry);
    s := StartAt(r, down, k);
    while r.maze && !lv.places[s.x, s.y].isPass && !rng.dry
      invariant StartDoor(r, down, s) && InBounds(s)
      invariant Searching(t, good, n, rng.tape, wasDry, rng.dry)
      invariant !rng.dry ==> 0 < n <= |t| && StartDrawnAs(r, down, t[n - 1], s)
      decreases !rng.dry, |rng.tape|
    {
      IsStartFound(g, r, down, t[n - 1], s);
      ghost var before := rng.tape;
      k := rng.Rnd(DoorChoices(r, down));
      NextTry(t, good, n, choices, k, before, rng.tape, wasDry, rng.dry);
      s := StartAt(r, down, k);
      n := n + 1;
    }
    if !rng.dry {
      IsStartFound(g, r, down, t[n - 1], s);
    }
    SearchDone(t, good, n, rng.tape, wasDry, rng.dry);
    if !rng.dry {
      StartWasPicked(g, r, down, t, n - 1, s, rng.tape);
    }
  }

  method PickEnd(lv: Level, rng: Random, r: Room, down: bool, ghost i: nat) returns (e: Coord)
    requires lv.Shape() && i < MAXROOMS && Placed(i, r) && r.pos.y > 0
    modifies rng
    ensures EndDoor(r, down, e) && InBounds(e)
    ensures r.maze && !r.gone ==> rng.dry || lv.Grid()[e].isPass
    ensures !rng.dry ==> Later(old(rng.tape), rng.tape)
    ensures old(rng.dry) ==> rng.dry
    ensures !r.gone && !old(rng.dry) ==>
      (!rng.dry <==> SomeFound(old(rng.tape), EndFoundDraw(r, down, PassSquares(lv.Grid()))))
    ensures !rng.dry ==> EndPicked(lv.Grid(), r, down, old(rng.tape), e, rng.tape)
  {
    hide EndPicked, SomeFound, Found, OneDraw, Searching, EndFoundDraw, AllSquares, EndAt, EndDoor, DoorChoices, Draw, After, Placed, PassSquares;
    DoorsFit(i, r, down);
    OwnSquareIsEnd(r, down);
    e := r.pos;
    if r.gone {
      GonePicked(lv.Grid(), r, down, rng.tape);
      return;
    }
    ghost var t, wasDry, choices, n, g := rng.tape, rng.dry, DoorChoices(r, down), 1, lv.Grid();
    ghost var good := EndFoundDraw(r, down, PassSquares(g));
    var k := rng.Rnd(DoorChoices(r, down));
    FirstTry(t, good, choices, k, rng.tape, wasDry, rng.dry);
    e := EndAt(r, down, k);
    while r.maze && !lv.places[e.x, e.y].isPass && !rng.dry
      invariant EndDoor(r, down, e) && InBounds(e)
      invariant Searching(t, good, n, rng.tape, wasDry, rng.dry)
      invariant !rng.dry ==> 0 < n <= |t| && EndDrawnAs(r, down, t[n - 1], e)
      decreases !rng.dry, |rng.tape|
    {
      IsEndFound(g, r, down, t[n - 1], e);
      ghost var before := rng.tape;
      k := rng.Rnd(DoorChoices(r, down));
      NextTry(t, good, n, choices, k, before, rng.tape, wasDry, rng.dry);
      e := EndAt(r, down, k);
      n := n + 1;
    }
    if !rng.dry {
      IsEndFound(g, r, down, t[n - 1], e);
    }
    SearchDone(t, good, n, rng.tape, wasDry, rng.dry);
    if !rng.dry {
      EndWasPicked(g, r, down, t, n - 1, e, rng.tape);
    }
  }

  /** Two rooms side by side, in a row or in a column. */
  predicate Neighbouring(r1: nat, r2: nat) {
    && r1 < MAXROOMS && r2 < MAXROOMS
    && (r1 + 3 == r2 || r2 + 3 == r1 || (r1 + 1 == r2 && r1 / 3 == r2 / 3) || (r2 + 1 == r1 && r1 / 3 == r2 / 3))
  }

  function Lower(r1: nat, r2: nat): nat {
    if r1 < r2 then r1 else r2
  }

  /** In a maze room the end lies on a passage. */
  ghost predicate OnPassage(g: Grid, r: Room, at: Coord) {
    at in g && (r.maze && !r.gone ==> g[at].isPass)
  }

  /** The first half of conn: the two ends and the turn spot. */
  method PickCorridor(lv: Level, rooms: array<Room>, rng: Random, rm: nat, down: bool) returns (c: Corridor)
    requires lv.Shape() && Layout(rooms[..]) && HasNext(rm, down)
    modifies rng
    ensures CorridorBetween(rooms[..], rm, c) && c.down == down
    ensures forall k :: 0 <= k <= c.Last() ==> OnMap(c.Square(k))
    ensures !rng.dry ==> OnPassage(lv.Grid(), rooms[rm], c.from) && OnPassage(lv.Grid(), rooms[NextRoomOf(rm, down)], c.to)
    ensures !rng.dry ==> CorridorPicked(lv.Grid(), rooms[rm], rooms[NextRoomOf(rm, down)], c, old(rng.tape), rng.tape)
    ensures !rng.dry ==> Later(old(rng.tape), rng.tape)
    ensures old(rng.dry) ==> rng.dry
  {
    hide Placed, StartDoor, EndDoor, AllSquares, StartPicked, EndPicked, CorridorPicked, Draw, After, OneDraw, StartFound, EndFound;
    var rmt := NextRoomOf(rm, down);
    ghost var rooms0 := rooms[..];
    assert Placed(rm, rooms0[rm]) && Placed(rmt, rooms0[rmt]);
    hide Layout;
    ghost var t0 := rng.tape;
    var spos := PickStart(lv, rng, rooms[rm], down, rm);
    ghost var t1 := rng.tape;
    var epos := PickEnd(lv, rng, rooms[rmt], down, rmt);
    ghost var t2 := rng.tape;
    RoomForCorridor(rooms0, rm, down, spos, epos);
    var distance := Along(down, epos) - Along(down, spos) - 1;
    var k := rng.Rnd(distance - 1);
    c := Corridor(down, spos, epos, k + 1);
    if !rng.dry {
      WasPicked(lv.Grid(), rooms[rm], rooms[rmt], c, t0, t1, t2, rng.tape);
    }
    forall k | 0 <= k <= c.Last()
      ensures OnMap(c.Square(k))
    {
      CorridorInBounds(rooms0, rm, c, k);
    }
  }

  /** conn: the corridor meets the far end, and only the ends and the corridor's squares change. */
  method Conn(lv: Level, rooms: array<Room>, rng: Random, depth: nat, r1: nat, r2: nat)
    returns (ghost c: Corridor, warned: bool)
    requires lv.Shape() && Layout(rooms[..]) && Neighbouring(r1, r2)
    modifies lv.places, rooms, rng
    ensures !warned
    ensures CorridorBetween(old(rooms[..]), Lower(r1, r2), c) && c.down == (r1 + 3 == r2 || r2 + 3 == r1)
    ensures !rng.dry ==> exists rest :: CorridorPicked(old(lv.Grid()), old(rooms[..])[Lower(r1, r2)],
                                                       old(rooms[..])[NextRoomOf(Lower(r1, r2), c.down)], c, old(rng.tape), rest)
    ensures CorridorDrawn(old(lv.Grid()), lv.Grid(), old(rooms[..]), Lower(r1, r2), c)
    ensures rooms[..] == ExitAdded(ExitAdded(old(rooms[..]), Lower(r1, r2), c.from), NextRoomOf(Lower(r1, r2), c.down), c.to)
    ensures !rng.dry ==> OnPassage(old(lv.Grid()), old(rooms[..])[Lower(r1, r2)], c.from)
    ensures !rng.dry ==> OnPassage(old(lv.Grid()), old(rooms[..])[NextRoomOf(Lower(r1, r2), c.down)], c.to)
    ensures depth <= 1 && AllReal(old(lv.Grid())) ==> AllReal(lv.Grid())
    ensures !rng.dry ==> Later(old(rng.tape), rng.tape)
    ensures old(rng.dry) ==> rng.dry
  {
    var rm := r2;
    var down := r2 + 1 != r1;
    if r1 < r2 {
      rm := r1;
      down := r1 + 1 != r2;
    }
    ghost var g0, rooms0 := lv.Grid(), rooms[..];
    hide EndDrawn, Layout, AllSquares, OnPassage, StartDoor, EndDoor, CorridorPicked, AllReal, EndMade, AfterEnd;
    var corridor := PickCorridor(lv, rooms, rng, rm, down);
    c := corridor;
    CorridorEnds(c);
    assert OnMap(c.Square(0)) && OnMap(c.Square(c.Last()));
    hide corridor.Square, corridor.Squares, OnMap, CorridorDrawn;
    ghost var q1 := DrawEnd(lv, rooms, rng, depth, rm, corridor.from);
    EndsOutside(c);
    ghost var q2 := DrawEnd(lv, rooms, rng, depth, NextRoomOf(rm, down), corridor.to);
    var curr := DrawCorridor(lv, rng, depth, corridor);
    DrawnInSteps(g0, lv.Grid(), rooms0, rm, c, q1, q2);
    warned := curr != corridor.to;
  }
}
