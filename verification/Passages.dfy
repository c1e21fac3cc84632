/**
  do_passages: a random spanning tree of the rooms, a few more corridors, and their numbers.
 */
module Passages {
  import opened Geometry
  import opened LevelMap
  import opened Rooms
  import opened Corridors
  import opened Passnum

  /** rdes[i].conn[j]: whether room i can be connected with room j. */
  const CONN: seq<seq<bool>> := [
    [false, true, false, true, false, false, false, false, false],
    [true, false, true, false, true, false, false, false, false],
    [false, true, false, false, false, true, false, false, false],
    [true, false, false, false, true, false, true, false, false],
    [false, true, false, true, false, true, false, true, false],
    [false, false, true, false, true, false, false, false, true],
    [false, false, false, true, false, false, false, true, false],
    [false, false, false, false, true, false, true, false, true],
    [false, false, false, false, false, true, false, true, false]]

  /** The table joins the rooms that lie side by side. */
  lemma ConnIsNeighbouring(i: nat, j: nat)
    requires i < MAXROOMS && j < MAXROOMS
    ensures CONN[i][j] <==> Neighbouring(i, j)
  {
  }

  type Pair = (nat, nat)

  /** The corridors drawn, as pairs of rooms, read both ways. */
  predicate LinkedBy(drawn: seq<Pair>, a: nat, b: nat) {
    (a, b) in drawn || (b, a) in drawn
  }

  ghost predicate RoomPath(p: seq<nat>, drawn: seq<Pair>) {
    |p| > 0 && forall i :: 0 <= i < |p| - 1 ==> LinkedBy(drawn, p[i], p[i + 1])
  }

  /** Room b can be reached from room a along drawn corridors. */
  ghost predicate Reaches(drawn: seq<Pair>, a: nat, b: nat) {
    exists p :: RoomPath(p, drawn) && p[0] == a && p[|p| - 1] == b
  }

  lemma ReachesItself(drawn: seq<Pair>, a: nat)
    ensures Reaches(drawn, a, a)
  {
    assert RoomPath([a], drawn);
  }

  lemma ReachesTrans(drawn: seq<Pair>, a: nat, b: nat, c: nat)
    requires Reaches(drawn, a, b) && Reaches(drawn, b, c)
    ensures Reaches(drawn, a, c)
  {
    var p :| RoomPath(p, drawn) && p[0] == a && p[|p| - 1] == b;
    var q :| RoomPath(q, drawn) && q[0] == b && q[|q| - 1] == c;
    assert RoomPath(p + q[1..], drawn);
  }

  lemma ReachesNext(drawn: seq<Pair>, a: nat, b: nat, c: nat)
    requires Reaches(drawn, a, b) && LinkedBy(drawn, b, c)
    ensures Reaches(drawn, a, c)
  {
    var p :| RoomPath(p, drawn) && p[0] == a && p[|p| - 1] == b;
    assert RoomPath(p + [c], drawn);
  }

  lemma ReachesMore(drawn: seq<Pair>, more: seq<Pair>, a: nat, b: nat)
    requires Reaches(drawn, a, b)
    ensures Reaches(drawn + more, a, b)
  {
    var p :| RoomPath(p, drawn) && p[0] == a && p[|p| - 1] == b;
    assert RoomPath(p, drawn + more);
  }

  lemma ReachesBack(drawn: seq<Pair>, a: nat, b: nat)
    requires Reaches(drawn, a, b)
    ensures Reaches(drawn, b, a)
  {
    var p :| RoomPath(p, drawn) && p[0] == a && p[|p| - 1] == b;
    var r := seq(|p|, i requires 0 <= i < |p| => p[|p| - 1 - i]);
    forall i | 0 <= i < |r| - 1
      ensures LinkedBy(drawn, r[i], r[i + 1])
    {
      assert LinkedBy(drawn, p[|p| - 2 - i], p[|p| - 2 - i + 1]);
    }
    assert RoomPath(r, drawn);
  }

  /** Corridors between neighbouring rooms, no two rooms joined twice. */
  ghost predicate PairsDrawn(drawn: seq<Pair>) {
    && (forall k :: 0 <= k < |drawn| ==> Neighbouring(drawn[k].0, drawn[k].1))
    && forall k, l :: 0 <= k < l < |drawn| ==> drawn[k] != drawn[l] && drawn[k] != (drawn[l].1, drawn[l].0)
  }

  ghost predicate AllConnected(drawn: seq<Pair>) {
    forall a, b | 0 <= a < MAXROOMS && 0 <= b < MAXROOMS :: Reaches(drawn, a, b)
  }

  /** Nine rooms joined by eight corridors, each reachable from each. */
  ghost predicate SpanningTree(drawn: seq<Pair>) {
    PairsDrawn(drawn) && |drawn| == MAXROOMS - 1 && AllConnected(drawn)
  }

  ghost function AllRooms(): set<nat> {
    {0, 1, 2, 3, 4, 5, 6, 7, 8}
  }

  lemma NineRooms()
    ensures |AllRooms()| == MAXROOMS
  {
  }

  lemma SubsetOfSize<T>(s: set<T>, t: set<T>)
    requires s <= t && |s| == |t|
    ensures s == t
  {
    assert |t - s| == |t| - |s|;
  }

  /** Some room of s can be connected with a room outside. */
  ghost predicate CanGrow(s: set<nat>) {
    exists a: nat, b: nat :: a in s && b !in s && b < MAXROOMS && Neighbouring(a, b)
  }

  lemma {:induction false} NoneOrAll(s: set<nat>, i: nat)
    requires !CanGrow(s) && s <= AllRooms() && i < MAXROOMS
    ensures i in s <==> 0 in s
  {
    if i % 3 > 0 {
      assert Neighbouring(i, i - 1) && Neighbouring(i - 1, i);
      NoneOrAll(s, i - 1);
    } else if i >= 3 {
      assert Neighbouring(i, i - 3) && Neighbouring(i - 3, i);
      NoneOrAll(s, i - 3);
    }
  }

  lemma NothingOrAll(s: set<nat>)
    requires !CanGrow(s) && s <= AllRooms()
    ensures s == {} || s == AllRooms()
  {
    forall i | i in AllRooms()
      ensures i in s <==> 0 in s
    {
      NoneOrAll(s, i);
    }
  }

  /** While rooms are missing, some room in the graph has a neighbour outside it. */
  lemma SomeRoomCanGrow(s: set<nat>)
    requires s <= AllRooms() && s != {} && |s| < MAXROOMS
    ensures CanGrow(s)
  {
    NineRooms();
    if !CanGrow(s) {
      NothingOrAll(s);
    }
  }

  /** The numbers below k that are good, in their order. */
  function Those(good: nat -> bool, k: nat): seq<nat> {
    if k == 0 then [] else if good(k - 1) then Those(good, k - 1) + [k - 1] else Those(good, k - 1)
  }

  lemma {:induction false} ThoseAre(good: nat -> bool, k: nat, i: nat)
    ensures i in Those(good, k) <==> i < k && good(i)
  {
    if k > 0 {
      ThoseAre(good, k - 1, i);
    }
  }

  /** The neighbours of r1 that are not in s. */
  ghost function OutsideOf(r1: nat, s: set<nat>): nat -> bool {
    (i: nat) => Neighbouring(r1, i) && i !in s
  }

  /** The neighbours of r1 without a corridor to it. */
  ghost function UnlinkedTo(r1: nat, drawn: seq<Pair>): nat -> bool {
    (i: nat) => Neighbouring(r1, i) && !LinkedBy(drawn, r1, i)
  }

  lemma IsOutside(r1: nat, s: set<nat>, i: nat)
    ensures OutsideOf(r1, s)(i) <==> Neighbouring(r1, i) && i !in s
  {
  }

  lemma IsUnlinked(r1: nat, drawn: seq<Pair>, i: nat)
    ensures UnlinkedTo(r1, drawn)(i) <==> Neighbouring(r1, i) && !LinkedBy(drawn, r1, i)
  {
  }

  lemma OutsideFound(r1: nat, s: set<nat>, tape: seq<nat>)
    ensures var cands := Those(OutsideOf(r1, s), MAXROOMS);
      if cands == [] then forall i: nat :: Neighbouring(r1, i) ==> i in s
      else Neighbouring(r1, Picked(cands, tape)) && Picked(cands, tape) !in s
  {
    hide Picked, Those;
    var cands := Those(OutsideOf(r1, s), MAXROOMS);
    forall i: nat
      ensures i in cands <==> Neighbouring(r1, i) && i !in s
    {
      ThoseAre(OutsideOf(r1, s), MAXROOMS, i);
    }
  }

  lemma UnlinkedFound(r1: nat, drawn: seq<Pair>, tape: seq<nat>)
    ensures var cands := Those(UnlinkedTo(r1, drawn), MAXROOMS);
      if cands == [] then forall i: nat :: Neighbouring(r1, i) ==> LinkedBy(drawn, r1, i)
      else Neighbouring(r1, Picked(cands, tape)) && !LinkedBy(drawn, r1, Picked(cands, tape))
  {
    hide Picked, Those, LinkedBy;
    var cands := Those(UnlinkedTo(r1, drawn), MAXROOMS);
    forall i: nat
      ensures i in cands <==> Neighbouring(r1, i) && !LinkedBy(drawn, r1, i)
    {
      ThoseAre(UnlinkedTo(r1, drawn), MAXROOMS, i);
    }
  }

  /** isconn and ingraph of the room descriptions. */
  class RoomGraph {
    const isConn: array2<bool>
    const inGraph: array<bool>

    ghost predicate Shape() {
      isConn.Length0 == MAXROOMS && isConn.Length1 == MAXROOMS && inGraph.Length == MAXROOMS
    }

    constructor ()
      ensures Shape() && fresh(isConn) && fresh(inGraph)
    {
      isConn := new bool[MAXROOMS, MAXROOMS];
      inGraph := new bool[MAXROOMS];
    }

    /** isconn is symmetric: it holds the corridors drawn, both ways. */
    ghost predicate Holds(drawn: seq<Pair>)
      requires Shape()
      reads isConn
    {
      forall i, j | 0 <= i < MAXROOMS && 0 <= j < MAXROOMS :: isConn[i, j] <==> LinkedBy(drawn, i, j)
    }

    ghost predicate HasRooms(s: set<nat>)
      requires Shape()
      reads inGraph
    {
      forall i | 0 <= i < MAXROOMS :: inGraph[i] <==> i in s
    }

    method Clear()
      requires Shape()
      modifies isConn, inGraph
      ensures Holds([]) && HasRooms({})
    {
      for i := 0 to MAXROOMS
        invariant forall k, l | 0 <= k < i && 0 <= l < MAXROOMS :: !isConn[k, l]
        invariant forall k | 0 <= k < i :: !inGraph[k]
      {
        for j := 0 to MAXROOMS
          invariant forall k, l | 0 <= k < i && 0 <= l < MAXROOMS :: !isConn[k, l]
          invariant forall l | 0 <= l < j :: !isConn[i, l]
          invariant forall k | 0 <= k < i :: !inGraph[k]
        {
          isConn[i, j] := false;
        }
        inGraph[i] := false;
      }
    }

    method Record(i: nat, j: nat, ghost drawn: seq<Pair>)
      requires Shape() && i < MAXROOMS && j < MAXROOMS && Holds(drawn)
      modifies isConn
      ensures Holds(drawn + [(i, j)])
    {
      isConn[i, j] := true;
      isConn[j, i] := true;
      forall a, b | 0 <= a < MAXROOMS && 0 <= b < MAXROOMS
        ensures isConn[a, b] <==> LinkedBy(drawn + [(i, j)], a, b)
      {
      }
    }

    /** The reservoir choice among the neighbours of r1 outside the graph. */
    method PickOutside(rng: Random, r1: nat, ghost s: set<nat>) returns (count: nat, r2: nat)
      requires Shape() && r1 < MAXROOMS && HasRooms(s)
      modifies rng
      ensures count > 0 ==> Neighbouring(r1, r2) && r2 !in s
      ensures count == 0 ==> forall i :: Neighbouring(r1, i) ==> i in s
      ensures count == |Those(OutsideOf(r1, s), MAXROOMS)| && rng.tape == Past(old(rng.tape), count)
      ensures count > 0 ==> r2 == Picked(Those(OutsideOf(r1, s), MAXROOMS), old(rng.tape))
      ensures !rng.dry ==> Later(old(rng.tape), rng.tape)
      ensures old(rng.dry) ==> rng.dry
      ensures |rng.tape| <= |old(rng.tape)|
    {
      hide Picked, Past, Draw, After, OneDraw, Neighbouring, OutsideOf;
      ghost var tape, good := rng.tape, OutsideOf(r1, s);
      NothingPast(tape);
      count, r2 := 0, 0;
      for i := 0 to MAXROOMS
        invariant count == |Those(good, i)| && rng.tape == Past(tape, count)
        invariant count > 0 ==> r2 == Picked(Those(good, i), tape)
        invariant !rng.dry ==> Later(old(rng.tape), rng.tape)
        invariant old(rng.dry) ==> rng.dry
      {
        ConnIsNeighbouring(r1, i);
        IsOutside(r1, s, i);
        if CONN[r1][i] && !inGraph[i] {
          PickedNext<nat>(Those(good, i), i, tape);
          count := count + 1;
          var k := rng.Rnd(count);
          if k == 0 {
            r2 := i;
          }
        }
      }
      OutsideFound(r1, s, tape);
    }

    /** The reservoir choice among the neighbours of r1 it has no corridor to. */
    method PickUnconnected(rng: Random, r1: nat, ghost drawn: seq<Pair>) returns (count: nat, r2: nat)
      requires Shape() && r1 < MAXROOMS && Holds(drawn)
      modifies rng
      ensures count > 0 ==> Neighbouring(r1, r2) && !LinkedBy(drawn, r1, r2)
      ensures count == 0 ==> forall i :: Neighbouring(r1, i) ==> LinkedBy(drawn, r1, i)
      ensures count == |Those(UnlinkedTo(r1, drawn), MAXROOMS)| && rng.tape == Past(old(rng.tape), count)
      ensures count > 0 ==> r2 == Picked(Those(UnlinkedTo(r1, drawn), MAXROOMS), old(rng.tape))
      ensures !rng.dry ==> Later(old(rng.tape), rng.tape)
      ensures old(rng.dry) ==> rng.dry
    {
      hide Picked, Past, Draw, After, OneDraw, Neighbouring, UnlinkedTo, LinkedBy;
      ghost var tape, good := rng.tape, UnlinkedTo(r1, drawn);
      NothingPast(tape);
      count, r2 := 0, 0;
      for i := 0 to MAXROOMS
        invariant count == |Those(good, i)| && rng.tape == Past(tape, count)
        invariant count > 0 ==> r2 == Picked(Those(good, i), tape)
        invariant !rng.dry ==> Later(old(rng.tape), rng.tape)
        invariant old(rng.dry) ==> rng.dry
      {
        ConnIsNeighbouring(r1, i);
        IsUnlinked(r1, drawn, i);
        if CONN[r1][i] && !isConn[r1, i] {
          PickedNext<nat>(Those(good, i), i, tape);
          count := count + 1;
          var k := rng.Rnd(count);
          if k == 0 {
            r2 := i;
          }
        }
      }
      UnlinkedFound(r1, drawn, tape);
    }
  }

  /** All the squares of a corridor, both ends included. */
  ghost function AllSquaresOf(c: Corridor): set<Coord> {
    set k: int | 0 <= k <= c.Last() :: c.Square(k)
  }

  ghost function Cover(corridors: seq<Corridor>): seq<set<Coord>> {
    seq(|corridors|, k requires 0 <= k < |corridors| => AllSquaresOf(corridors[k]))
  }

  /** Every corridor drawn hangs together through numerable squares, and every exit is the end of
      one; nothing is numbered yet. */
  ghost predicate CorridorsDrawn(g: Grid, rooms: seq<Room>, corridors: seq<Corridor>) {
    && (forall k :: 0 <= k < |corridors| ==> Piece(Numerable(g), AllSquaresOf(corridors[k])))
    && ExitsCovered(rooms, Cover(corridors))
    && forall c :: c in g ==> g[c].num == 0
  }

  lemma {:induction false} SquaresConnected(p: set<Coord>, c: Corridor, j: nat, k: nat)
    requires c.Valid() && AllSquaresOf(c) <= p && j <= k <= c.Last()
    ensures Connected(p, c.Square(j), c.Square(k))
  {
    assert c.Square(k) in p;
    if j == k {
      ConnectedSelf(p, c.Square(j));
    } else {
      SquaresConnected(p, c, j, k - 1);
      assert c.Square(k - 1) in p;
      CorridorStep(c, k - 1);
      ConnectedStep(p, c.Square(k - 1), c.Square(k));
      ConnectedTrans(p, c.Square(j), c.Square(k - 1), c.Square(k));
    }
  }

  lemma CorridorIsPiece(p: set<Coord>, c: Corridor)
    requires c.Valid() && AllSquaresOf(c) <= p
    ensures Piece(p, AllSquaresOf(c))
  {
    forall a, b | a in AllSquaresOf(c) && b in AllSquaresOf(c)
      ensures Connected(p, a, b)
    {
      var j :| 0 <= j <= c.Last() && a == c.Square(j);
      var k :| 0 <= k <= c.Last() && b == c.Square(k);
      if j <= k {
        SquaresConnected(p, c, j, k);
      } else {
        SquaresConnected(p, c, k, j);
        ConnectedSym(p, b, a);
      }
    }
  }

  lemma PieceMore(p: set<Coord>, q: set<Coord>, s: set<Coord>)
    requires Piece(p, s) && p <= q
    ensures Piece(q, s)
  {
    forall a, b | a in s && b in s
      ensures Connected(q, a, b)
    {
      ConnectedMono(p, q, a, b);
    }
  }

  /** Drawing a corridor takes no square away from the numerable ones. */
  lemma DrawingKeepsNumerable(g: Grid, h: Grid, rooms: seq<Room>, i: nat, c: Corridor)
    requires CorridorBetween(rooms, i, c) && CorridorDrawn(g, h, rooms, i, c)
    ensures Numerable(g) <= Numerable(h)
    ensures forall s :: s in g ==> h[s].num == g[s].num
  {
    hide c.Square, c.Squares, c.Last;
  }

  /** All the squares of a new corridor are numerable. */
  lemma NewSquaresNumerable(g: Grid, h: Grid, rooms: seq<Room>, i: nat, c: Corridor, k: nat)
    requires Layout(rooms) && CorridorBetween(rooms, i, c) && CorridorDrawn(g, h, rooms, i, c) && g.Keys == AllSquares()
    requires OnPassage(g, rooms[i], c.from) && OnPassage(g, rooms[NextRoomOf(i, c.down)], c.to) && k <= c.Last()
    ensures c.Square(k) in Numerable(h)
  {
    CorridorInBounds(rooms, i, c, k);
    CorridorEnds(c);
    EndsOutside(c);
    var s := c.Square(k);
    assert OnMap(s) && s in AllSquares();
    if 0 < k < c.Last() {
      assert s in c.Squares(c.Last() - 1);
    }
  }

  /** The corridor c joins the two rooms of the pair, at exits of those that are not gone. */
  ghost predicate JoinsRooms(rooms: seq<Room>, pair: Pair, c: Corridor) {
    && Neighbouring(pair.0, pair.1)
    && var i := Lower(pair.0, pair.1);
    && CorridorBetween(rooms, i, c) && NextRoomOf(i, c.down) == (if i == pair.0 then pair.1 else pair.0)
    && (!rooms[i].gone ==> c.from in rooms[i].exits)
    && (!rooms[NextRoomOf(i, c.down)].gone ==> c.to in rooms[NextRoomOf(i, c.down)].exits)
  }

  // ---- what the corridors change on the map ----

  /** The square is on one of the corridors, ends included. */
  ghost predicate OnCorridor(corridors: seq<Corridor>, c: Coord) {
    exists k :: 0 <= k < |corridors| && c in AllSquaresOf(corridors[k])
  }

  /** A door in a wall of the room, shown or looking like the wall. */
  predicate DoorShown(r: Room, at: Coord, p: Place, q: Place) {
    && q == p.(ch := q.ch, isReal := q.isReal) && (q.isReal ==> p.isReal)
    && (q.ch == DOOR || (!q.isReal && q.ch == if at.y == r.pos.y || at.y == r.pos.y + r.max.y - 1 then '-' else '|'))
  }

  /** A square of a room on a corridor: it is an exit, with a door unless the room is a maze. */
  ghost predicate ExitShown(r: Room, c: Coord, p: Place, q: Place) {
    c in r.exits && if r.maze then q == p else DoorShown(r, c, p, q)
  }

  /** What the corridors make of a square: off them nothing, in a room an exit, and else a passage. */
  ghost predicate SquareKept(p: Place, q: Place, rooms: seq<Room>, corridors: seq<Corridor>, c: Coord) {
    if !OnCorridor(corridors, c) then q == p
    else
      && (forall i :: 0 <= i < |rooms| && InRoom(rooms[i], c) ==> ExitShown(rooms[i], c, p, q))
      && ((forall i :: 0 <= i < |rooms| ==> !InRoom(rooms[i], c)) ==> PassPut(p, q))
  }

  ghost predicate LevelKept(g0: Grid, g: Grid, rooms: seq<Room>, corridors: seq<Corridor>) {
    g.Keys == g0.Keys && forall c :: c in g0 ==> SquareKept(g0[c], g[c], rooms, corridors, c)
  }

  /** What one corridor makes of a square. */
  ghost predicate SquareDrawn(q: Place, q1: Place, rooms1: seq<Room>, cor: Corridor, c: Coord) {
    if c !in AllSquaresOf(cor) then q1 == q
    else
      && (forall i :: 0 <= i < |rooms1| && InRoom(rooms1[i], c) ==> ExitDrawn(rooms1[i], c, q, q1))
      && ((forall i :: 0 <= i < |rooms1| ==> !InRoom(rooms1[i], c)) ==> PassPut(q, q1))
  }

  ghost predicate ExitDrawn(r: Room, c: Coord, q: Place, q1: Place) {
    c in r.exits && if r.maze then q1 == q else DoorDrawn(r, c, q, q1)
  }

  lemma OnOneMore(corridors: seq<Corridor>, cor: Corridor, c: Coord)
    ensures OnCorridor(corridors + [cor], c) <==> OnCorridor(corridors, c) || c in AllSquaresOf(cor)
  {
    var corridors1 := corridors + [cor];
    if OnCorridor(corridors, c) {
      var k :| 0 <= k < |corridors| && c in AllSquaresOf(corridors[k]);
      assert c in AllSquaresOf(corridors1[k]);
    }
    if c in AllSquaresOf(cor) {
      assert c in AllSquaresOf(corridors1[|corridors|]);
    }
  }

  lemma StillKept(p: Place, q: Place, q1: Place, rooms: seq<Room>, rooms1: seq<Room>, corridors: seq<Corridor>, cor: Corridor, c: Coord)
    requires SquareKept(p, q, rooms, corridors, c) && SquareDrawn(q, q1, rooms1, cor, c) && MoreExits(rooms, rooms1)
    ensures SquareKept(p, q1, rooms1, corridors + [cor], c)
  {
    OnOneMore(corridors, cor, c);
    hide OnCorridor;
    forall i | 0 <= i < |rooms1|
      ensures InRoom(rooms1[i], c) == InRoom(rooms[i], c)
    {
    }
    forall i | 0 <= i < |rooms1| && InRoom(rooms1[i], c) && OnCorridor(corridors + [cor], c)
      ensures ExitShown(rooms1[i], c, p, q1)
    {
      if OnCorridor(corridors, c) {
        assert ExitShown(rooms[i], c, p, q);
      }
    }
  }

  /** The two ends of a corridor in the rooms. */
  lemma EndInRoom(r: Room, down: bool, s: Coord)
    requires !r.gone && (StartDoor(r, down, s) || EndDoor(r, down, s)) && r.max.x >= 3 && r.max.y >= 3
    ensures InRoom(r, s)
  {
  }

  lemma PlacedIsBig(i: nat, r: Room)
    requires i < MAXROOMS && Placed(i, r) && !r.gone
    ensures r.max.x >= 3 && r.max.y >= 3
  {
  }

  /** An end of the new corridor: an exit of its own room, and in no other. */
  lemma EndDrawnWell(rooms: seq<Room>, rooms1: seq<Room>, m: nat, down: bool, c: Coord, q: Place, q1: Place)
    requires Layout(rooms) && Layout(rooms1) && MoreExits(rooms, rooms1) && m < MAXROOMS
    requires StartDoor(rooms[m], down, c) || EndDoor(rooms[m], down, c)
    requires EndDrawn(rooms[m], c, q, q1) && (!rooms[m].gone ==> c in rooms1[m].exits)
    ensures forall i :: 0 <= i < |rooms1| && InRoom(rooms1[i], c) ==> ExitDrawn(rooms1[i], c, q, q1)
    ensures (forall i :: 0 <= i < |rooms1| ==> !InRoom(rooms1[i], c)) ==> PassPut(q, q1)
  {
    assert Placed(m, rooms[m]) && rooms1[m] == rooms[m].(exits := rooms1[m].exits);
    if !rooms[m].gone {
      PlacedIsBig(m, rooms[m]);
      EndInRoom(rooms[m], down, c);
      assert InRoom(rooms1[m], c);
    }
    hide Placed, InRoom, StartDoor, EndDoor, PassPut, DoorDrawn, Layout, MoreExits;
    forall i | 0 <= i < |rooms1| && InRoom(rooms1[i], c)
      ensures ExitDrawn(rooms1[i], c, q, q1)
    {
      OnlyOwnRoom(rooms1, m, i, c, rooms[m].gone, down, rooms[m]);
    }
  }

  lemma OnlyOwnRoom(rooms1: seq<Room>, m: nat, i: nat, c: Coord, gone: bool, down: bool, r: Room)
    requires Layout(rooms1) && m < MAXROOMS && i < MAXROOMS && InRoom(rooms1[i], c) && rooms1[m] == r.(exits := rooms1[m].exits)
    requires gone == r.gone && (if gone then StartDoor(r, down, c) || EndDoor(r, down, c) else InRoom(rooms1[m], c))
    ensures i == m && !gone
  {
    if gone {
      GoneApart(rooms1, m, i);
    } else if i != m {
      RoomsApart(rooms1, m, i, c);
    }
  }

  lemma CorridorSquare(g: Grid, h: Grid, rooms: seq<Room>, rooms1: seq<Room>, pair: Pair, cor: Corridor, c: Coord)
    requires Layout(rooms) && NewCorridor(g, h, rooms, rooms1, pair, cor) && MoreExits(rooms, rooms1) && Layout(rooms1)
    requires JoinsRooms(rooms1, pair, cor) && c in g
    ensures c in h && SquareDrawn(g[c], h[c], rooms1, cor, c)
  {
    var i := Lower(pair.0, pair.1);
    var j := NextRoomOf(i, cor.down);
    CorridorEnds(cor);
    EndsOutside(cor);
    if c in cor.Squares(cor.Last() - 1) {
      var k: int :| 0 < k <= cor.Last() - 1 && c == cor.Square(k);
      InnerInNoRoom(rooms, rooms1, i, cor, k);
      assert c in AllSquaresOf(cor);
    } else if c == cor.from {
      assert cor.Square(0) in AllSquaresOf(cor);
      hide Layout, JoinsRooms, MoreExits, EndDrawn, PassPut, StartDoor, EndDoor, InRoom, ExitDrawn;
      EndDrawnWell(rooms, rooms1, i, cor.down, c, g[c], h[c]);
    } else if c == cor.to {
      assert cor.Square(cor.Last()) in AllSquaresOf(cor);
      hide Layout, JoinsRooms, MoreExits, EndDrawn, PassPut, StartDoor, EndDoor, InRoom, ExitDrawn;
      EndDrawnWell(rooms, rooms1, j, cor.down, c, g[c], h[c]);
    } else {
      NotOnCorridor(cor, c);
    }
  }

  lemma InnerInNoRoom(rooms: seq<Room>, rooms1: seq<Room>, i: nat, cor: Corridor, k: nat)
    requires Layout(rooms) && CorridorBetween(rooms, i, cor) && 0 < k < cor.Last() && MoreExits(rooms, rooms1)
    ensures forall m :: 0 <= m < |rooms1| ==> !InRoom(rooms1[m], cor.Square(k))
  {
    forall m | 0 <= m < |rooms1|
      ensures !InRoom(rooms1[m], cor.Square(k))
    {
      CorridorInNoRoom(rooms, i, cor, k, m);
    }
  }

  lemma NotOnCorridor(cor: Corridor, c: Coord)
    requires cor.Valid() && c !in cor.Squares(cor.Last() - 1) && c != cor.from && c != cor.to
    ensures c !in AllSquaresOf(cor)
  {
    CorridorEnds(cor);
  }

  lemma KeptMore(g0: Grid, g: Grid, h: Grid, rooms: seq<Room>, rooms1: seq<Room>, corridors: seq<Corridor>, pair: Pair, cor: Corridor)
    requires LevelKept(g0, g, rooms, corridors) && Layout(rooms) && NewCorridor(g, h, rooms, rooms1, pair, cor)
    requires MoreExits(rooms, rooms1) && Layout(rooms1) && JoinsRooms(rooms1, pair, cor) && h.Keys == g.Keys
    ensures LevelKept(g0, h, rooms1, corridors + [cor])
  {
    hide Layout, NewCorridor, JoinsRooms, MoreExits, SquareKept, SquareDrawn;
    forall c | c in g0
      ensures SquareKept(g0[c], h[c], rooms1, corridors + [cor], c)
    {
      CorridorSquare(g, h, rooms, rooms1, pair, cor, c);
      StillKept(g0[c], g[c], h[c], rooms, rooms1, corridors, cor, c);
    }
  }

  /** What has been drawn on the map g0: a connected corridor for each pair, and nothing else. */
  ghost predicate Drawn(g0: Grid, g: Grid, rooms: seq<Room>, drawn: seq<Pair>, corridors: seq<Corridor>) {
    && LevelKept(g0, g, rooms, corridors)
    && CorridorsDrawn(g, rooms, corridors) && |corridors| == |drawn|
    && forall k :: 0 <= k < |drawn| ==> JoinsRooms(rooms, drawn[k], corridors[k])
  }

  /** Rooms with more exits than before, and otherwise the same. */
  ghost predicate MoreExits(rooms: seq<Room>, rooms1: seq<Room>) {
    && |rooms1| == |rooms|
    && forall i :: 0 <= i < |rooms| ==>
      && rooms1[i] == rooms[i].(exits := rooms1[i].exits)
      && forall e :: e in rooms[i].exits ==> e in rooms1[i].exits
  }

  lemma MoreExitsTrans(a: seq<Room>, b: seq<Room>, c: seq<Room>)
    requires MoreExits(a, b) && MoreExits(b, c)
    ensures MoreExits(a, c)
  {
  }

  lemma ExitAddedIsMore(rooms: seq<Room>, m: nat, at: Coord)
    requires m < |rooms|
    ensures MoreExits(rooms, ExitAdded(rooms, m, at))
    ensures !rooms[m].gone ==> at in ExitAdded(rooms, m, at)[m].exits
    ensures forall i, e :: 0 <= i < |rooms| && e in ExitAdded(rooms, m, at)[i].exits ==> e in rooms[i].exits || e == at
  {
  }

  lemma SameLayout(rooms: seq<Room>, rooms1: seq<Room>)
    requires Layout(rooms) && MoreExits(rooms, rooms1)
    ensures Layout(rooms1)
  {
    forall i | 0 <= i < MAXROOMS
      ensures Placed(i, rooms1[i]) && rooms1[i].pos.y > 0
    {
      assert Placed(i, rooms[i]);
    }
  }

  lemma StillJoins(rooms: seq<Room>, rooms1: seq<Room>, pair: Pair, c: Corridor)
    requires JoinsRooms(rooms, pair, c) && MoreExits(rooms, rooms1)
    ensures JoinsRooms(rooms1, pair, c)
  {
  }

  lemma StillCovered(rooms: seq<Room>, rooms1: seq<Room>, corridors: seq<Corridor>, c: Corridor)
    requires ExitsCovered(rooms, Cover(corridors)) && |rooms1| == |rooms| && c.Valid()
    requires forall i, e :: 0 <= i < |rooms| && e in rooms1[i].exits ==> e in rooms[i].exits || e == c.from || e == c.to
    ensures ExitsCovered(rooms1, Cover(corridors + [c]))
  {
    var cover, cover1 := Cover(corridors), Cover(corridors + [c]);
    CorridorEnds(c);
    assert c.Square(0) in cover1[|corridors|] && c.Square(c.Last()) in cover1[|corridors|];
    forall i, j | 0 <= i < |rooms1| && 0 <= j < |rooms1[i].exits|
      ensures InSome(cover1, rooms1[i].exits[j])
    {
      var e := rooms1[i].exits[j];
      if e in rooms[i].exits {
        var l :| 0 <= l < |rooms[i].exits| && rooms[i].exits[l] == e;
        assert InSome(cover, rooms[i].exits[l]);
        var k :| 0 <= k < |cover| && e in cover[k];
        assert cover1[k] == cover[k];
      }
    }
  }

  /** What a call of conn for the pair has done, its maze doors being on passages. */
  ghost predicate NewCorridor(g: Grid, h: Grid, rooms: seq<Room>, rooms1: seq<Room>, pair: Pair, c: Corridor) {
    && Neighbouring(pair.0, pair.1) && g.Keys == AllSquares()
    && var i := Lower(pair.0, pair.1);
    && CorridorBetween(rooms, i, c) && CorridorDrawn(g, h, rooms, i, c)
    && NextRoomOf(i, c.down) == (if i == pair.0 then pair.1 else pair.0)
    && OnPassage(g, rooms[i], c.from) && OnPassage(g, rooms[NextRoomOf(i, c.down)], c.to)
    && rooms1 == ExitAdded(ExitAdded(rooms, i, c.from), NextRoomOf(i, c.down), c.to)
  }

  lemma NewCorridorOnMap(g: Grid, h: Grid, rooms: seq<Room>, rooms1: seq<Room>, pair: Pair, c: Corridor)
    requires Layout(rooms) && NewCorridor(g, h, rooms, rooms1, pair, c)
    ensures Piece(Numerable(h), AllSquaresOf(c)) && Numerable(g) <= Numerable(h)
    ensures forall s :: s in g ==> h[s].num == g[s].num
    ensures h.Keys == g.Keys
  {
    var i := Lower(pair.0, pair.1);
    forall k | 0 <= k <= c.Last()
      ensures c.Square(k) in Numerable(h)
    {
      NewSquaresNumerable(g, h, rooms, i, c, k);
    }
    assert AllSquaresOf(c) <= Numerable(h);
    CorridorIsPiece(Numerable(h), c);
    DrawingKeepsNumerable(g, h, rooms, i, c);
  }

  lemma NewCorridorInRooms(g: Grid, h: Grid, rooms: seq<Room>, rooms1: seq<Room>, pair: Pair, c: Corridor, corridors: seq<Corridor>)
    requires Layout(rooms) && NewCorridor(g, h, rooms, rooms1, pair, c) && ExitsCovered(rooms, Cover(corridors))
    ensures MoreExits(rooms, rooms1) && Layout(rooms1)
    ensures ExitsCovered(rooms1, Cover(corridors + [c])) && JoinsRooms(rooms1, pair, c)
  {
    var i := Lower(pair.0, pair.1);
    var j := NextRoomOf(i, c.down);
    ExitAddedIsMore(rooms, i, c.from);
    ExitAddedIsMore(ExitAdded(rooms, i, c.from), j, c.to);
    MoreExitsTrans(rooms, ExitAdded(rooms, i, c.from), rooms1);
    SameLayout(rooms, rooms1);
    StillCovered(rooms, rooms1, corridors, c);
    NewlyJoined(rooms, rooms1, pair, c);
  }

  /** One more corridor drawn. */
  lemma DrawnMore(g0: Grid, g: Grid, h: Grid, rooms: seq<Room>, rooms1: seq<Room>, drawn: seq<Pair>, corridors: seq<Corridor>,
                  pair: Pair, c: Corridor)
    requires Drawn(g0, g, rooms, drawn, corridors) && Layout(rooms) && NewCorridor(g, h, rooms, rooms1, pair, c)
    ensures Drawn(g0, h, rooms1, drawn + [pair], corridors + [c])
    ensures MoreExits(rooms, rooms1) && Layout(rooms1)
  {
    hide LevelKept, Numerable, Layout, AllSquaresOf, Piece, ExitsCovered, MoreExits, JoinsRooms, NewCorridor;
    NewCorridorOnMap(g, h, rooms, rooms1, pair, c);
    NewCorridorInRooms(g, h, rooms, rooms1, pair, c, corridors);
    KeptMore(g0, g, h, rooms, rooms1, corridors, pair, c);
    var corridors1, drawn1 := corridors + [c], drawn + [pair];
    forall k | 0 <= k < |corridors1|
      ensures Piece(Numerable(h), AllSquaresOf(corridors1[k])) && JoinsRooms(rooms1, drawn1[k], corridors1[k])
    {
      if k < |corridors| {
        PieceMore(Numerable(g), Numerable(h), AllSquaresOf(corridors[k]));
        StillJoins(rooms, rooms1, drawn[k], corridors[k]);
      }
    }
  }

  lemma NewlyJoined(rooms: seq<Room>, rooms1: seq<Room>, pair: Pair, c: Corridor)
    requires Neighbouring(pair.0, pair.1)
    requires var i := Lower(pair.0, pair.1);
      && CorridorBetween(rooms, i, c)
      && NextRoomOf(i, c.down) == (if i == pair.0 then pair.1 else pair.0)
      && rooms1 == ExitAdded(ExitAdded(rooms, i, c.from), NextRoomOf(i, c.down), c.to)
    ensures JoinsRooms(rooms1, pair, c)
  {
  }

  lemma OneMorePair(drawn: seq<Pair>, a: nat, b: nat)
    requires PairsDrawn(drawn) && Neighbouring(a, b) && !LinkedBy(drawn, a, b)
    ensures PairsDrawn(drawn + [(a, b)])
  {
  }

  /** Draw a corridor and record it. */
  method Connect(lv: Level, rooms: array<Room>, rng: Random, depth: nat, graph: RoomGraph, r1: nat, r2: nat,
                 ghost g0: Grid, ghost drawn: seq<Pair>, ghost corridors: seq<Corridor>)
    returns (ghost drawn1: seq<Pair>, ghost corridors1: seq<Corridor>)
    requires lv.Shape() && graph.Shape() && graph.Holds(drawn)
    requires Layout(rooms[..]) && Drawn(g0, lv.Grid(), rooms[..], drawn, corridors)
    requires Neighbouring(r1, r2)
    modifies lv.places, rooms, rng, graph.isConn
    ensures drawn1 == drawn + [(r1, r2)] && graph.Holds(drawn1)
    ensures MoreExits(old(rooms[..]), rooms[..]) && Layout(rooms[..])
    ensures rng.dry || Drawn(g0, lv.Grid(), rooms[..], drawn1, corridors1)
    ensures depth <= 1 && AllReal(old(lv.Grid())) ==> AllReal(lv.Grid())
    ensures !rng.dry ==> Later(old(rng.tape), rng.tape)
    ensures old(rng.dry) ==> rng.dry
  {
    ghost var g, rooms0 := lv.Grid(), rooms[..];
    hide Layout, Drawn, CorridorDrawn, CorridorBetween, OnPassage, AllSquares, graph.Holds, AllReal, CorridorPicked;
    ghost var c, warned := Conn(lv, rooms, rng, depth, r1, r2);
    drawn1, corridors1 := drawn + [(r1, r2)], corridors + [c];
    ghost var i := Lower(r1, r2);
    ExitAddedIsMore(rooms0, i, c.from);
    ExitAddedIsMore(ExitAdded(rooms0, i, c.from), NextRoomOf(i, c.down), c.to);
    MoreExitsTrans(rooms0, ExitAdded(rooms0, i, c.from), rooms[..]);
    SameLayout(rooms0, rooms[..]);
    if !rng.dry {
      DrawnMore(g0, g, lv.Grid(), rooms0, rooms[..], drawn, corridors, (r1, r2), c);
    }
    graph.Record(r1, r2, drawn);
  }

  /** The rooms of s, and no others, can be reached from start; one corridor fewer than rooms. */
  ghost predicate Growing(drawn: seq<Pair>, s: set<nat>, start: nat) {
    && PairsDrawn(drawn) && s <= AllRooms() && start in s && |drawn| + 1 == |s|
    && (forall k :: 0 <= k < |drawn| ==> drawn[k].0 in s && drawn[k].1 in s)
    && forall a :: a in s ==> Reaches(drawn, start, a)
  }

  lemma StartGrowing(start: nat)
    requires start < MAXROOMS
    ensures Growing([], {start}, start)
  {
    ReachesItself([], start);
  }

  lemma Grow(drawn: seq<Pair>, s: set<nat>, start: nat, a: nat, b: nat)
    requires Growing(drawn, s, start) && a in s && b !in s && Neighbouring(a, b)
    ensures Growing(drawn + [(a, b)], s + {b}, start)
  {
    var drawn1 := drawn + [(a, b)];
    assert !LinkedBy(drawn, a, b);
    assert LinkedBy(drawn1, a, b) by {
      assert drawn1[|drawn|] == (a, b);
    }
    assert b in AllRooms();
    hide Reaches, PairsDrawn, LinkedBy, Neighbouring, AllRooms;
    OneMorePair(drawn, a, b);
    forall c | c in s + {b}
      ensures Reaches(drawn1, start, c)
    {
      if c in s {
        ReachesMore(drawn, [(a, b)], start, c);
      } else {
        ReachesMore(drawn, [(a, b)], start, a);
        ReachesNext(drawn1, start, a, b);
      }
    }
  }

  lemma Grown(drawn: seq<Pair>, s: set<nat>, start: nat)
    requires Growing(drawn, s, start) && |s| == MAXROOMS
    ensures SpanningTree(drawn)
  {
    NineRooms();
    SubsetOfSize(s, AllRooms());
    forall a, b | 0 <= a < MAXROOMS && 0 <= b < MAXROOMS
      ensures Reaches(drawn, a, b)
    {
      ReachesBack(drawn, start, a);
      ReachesTrans(drawn, a, start, b);
    }
  }

  lemma SameExits(rooms: seq<Room>)
    ensures MoreExits(rooms, rooms)
  {
  }

  ghost function InsideDraw(s: set<nat>): nat -> bool {
    (draw: nat) => draw % MAXROOMS in s
  }

  /** Draw a room until it is in the graph; exactly if the tape holds no such draw the source runs dry. */
  method PickInside(rng: Random, graph: RoomGraph, ghost s: set<nat>) returns (r1: nat)
    requires graph.Shape() && graph.HasRooms(s)
    modifies rng
    ensures r1 < MAXROOMS && (r1 in s || rng.dry)
    ensures !rng.dry ==> Later(old(rng.tape), rng.tape)
    ensures old(rng.dry) ==> rng.dry
    ensures !old(rng.dry) ==> (!rng.dry <==> SomeFound(old(rng.tape), InsideDraw(s)))
    ensures !rng.dry ==> exists n: nat :: Found(old(rng.tape), InsideDraw(s), n, rng.tape) && r1 == old(rng.tape)[n] % MAXROOMS
    ensures !rng.dry ==> |rng.tape| < |old(rng.tape)|
  {
    hide OneDraw, Searching;
    ghost var t, wasDry, n := rng.tape, rng.dry, 1;
    ghost var good := InsideDraw(s);
    r1 := rng.Rnd(MAXROOMS);
    FirstTry(t, good, MAXROOMS, r1, rng.tape, wasDry, rng.dry);
    while !graph.inGraph[r1] && !rng.dry
      invariant r1 < MAXROOMS && Searching(t, good, n, rng.tape, wasDry, rng.dry)
      invariant !rng.dry ==> 0 < n <= |t| && r1 == t[n - 1] % MAXROOMS
      decreases !rng.dry, |rng.tape|
    {
      ghost var before := rng.tape;
      r1 := rng.Rnd(MAXROOMS);
      NextTry(t, good, n, MAXROOMS, r1, before, rng.tape, wasDry, rng.dry);
      n := n + 1;
    }
    SearchDone(t, good, n, rng.tape, wasDry, rng.dry);
  }

  /** In the middle of the first loop: the graph's rooms are those of s, joined by the tree so far. */
  ghost predicate Growth(rooms: array<Room>, graph: RoomGraph, rooms0: seq<Room>, tree: seq<Pair>, s: set<nat>, start: nat)
    reads rooms, graph.isConn, graph.inGraph
  {
    && graph.Shape() && graph.Holds(tree) && graph.HasRooms(s) && Growing(tree, s, start)
    && MoreExits(rooms0, rooms[..]) && Layout(rooms[..])
  }

  /** Put room r2 into the graph, joined to r1. */
  method Extend(lv: Level, rooms: array<Room>, rng: Random, depth: nat, graph: RoomGraph, r1: nat, r2: nat, ghost rooms0: seq<Room>,
                ghost g0: Grid, ghost tree: seq<Pair>, ghost corridors: seq<Corridor>, ghost s: set<nat>, ghost start: nat)
    returns (ghost tree1: seq<Pair>, ghost corridors1: seq<Corridor>)
    requires lv.Shape() && Growth(rooms, graph, rooms0, tree, s, start) && Drawn(g0, lv.Grid(), rooms[..], tree, corridors)
    requires r1 in s && r2 !in s && Neighbouring(r1, r2)
    modifies lv.places, rooms, rng, graph.isConn, graph.inGraph
    ensures Growth(rooms, graph, rooms0, tree1, s + {r2}, start)
    ensures rng.dry || Drawn(g0, lv.Grid(), rooms[..], tree1, corridors1)
    ensures depth <= 1 && AllReal(old(lv.Grid())) ==> AllReal(lv.Grid())
    ensures !rng.dry ==> Later(old(rng.tape), rng.tape)
    ensures old(rng.dry) ==> rng.dry
    ensures |s + {r2}| == |s| + 1 <= MAXROOMS && (|s + {r2}| < MAXROOMS ==> CanGrow(s + {r2}))
  {
    ghost var before := rooms[..];
    graph.inGraph[r2] := true;
    Grow(tree, s, start, r1, r2);
    GrowingSize(tree + [(r1, r2)], s + {r2}, start);
    hide Growing, Layout, Drawn, MoreExits, AllSquares, CanGrow, AllReal;
    tree1, corridors1 := Connect(lv, rooms, rng, depth, graph, r1, r2, g0, tree, corridors);
    MoreExitsTrans(rooms0, before, rooms[..]);
  }

  lemma GrowingSize(drawn: seq<Pair>, s: set<nat>, start: nat)
    requires Growing(drawn, s, start)
    ensures s <= AllRooms() && s != {} && |s| <= MAXROOMS
    ensures |s| < MAXROOMS ==> CanGrow(s)
  {
    NineRooms();
    assert |AllRooms() - s| == |AllRooms()| - |s|;
    if |s| < MAXROOMS {
      SomeRoomCanGrow(s);
    }
  }

  /** The first loop of do_passages: it can go on until all rooms are in, and leaves a spanning tree. */
  method GrowTree(lv: Level, rooms: array<Room>, rng: Random, depth: nat, graph: RoomGraph, ghost g0: Grid)
    returns (ghost tree: seq<Pair>, ghost corridors: seq<Corridor>)
    requires lv.Shape() && graph.Shape() && graph.Holds([]) && graph.HasRooms({})
    requires Layout(rooms[..]) && Drawn(g0, lv.Grid(), rooms[..], [], [])
    modifies lv.places, rooms, rng, graph.isConn, graph.inGraph
    ensures graph.Holds(tree) && Layout(rooms[..]) && MoreExits(old(rooms[..]), rooms[..])
    ensures rng.dry || (SpanningTree(tree) && Drawn(g0, lv.Grid(), rooms[..], tree, corridors))
    ensures depth <= 1 && AllReal(old(lv.Grid())) ==> AllReal(lv.Grid())
    ensures !rng.dry ==> Later(old(rng.tape), rng.tape)
    ensures old(rng.dry) ==> rng.dry
  {
    hide OneDraw, Drawn, AllSquares, CanGrow, Neighbouring, Growing, Layout, MoreExits, AllReal, Draw, After, Past, Picked, Those, Found, SomeFound;
    tree, corridors := [], [];
    ghost var rooms0 := rooms[..];
    var roomCount := 1;
    var r1 := rng.Rnd(MAXROOMS);
    graph.inGraph[r1] := true;
    ghost var s: set<nat>, start := {r1}, r1;
    StartGrowing(r1);
    GrowingSize(tree, s, start);
    SameExits(rooms[..]);
    assert Growth(rooms, graph, rooms0, tree, s, start);
    hide Growth;
    while roomCount < MAXROOMS && !rng.dry
      invariant r1 < MAXROOMS && (rng.dry || r1 in s) && roomCount == |s| <= MAXROOMS
      invariant Growth(rooms, graph, rooms0, tree, s, start)
      invariant roomCount < MAXROOMS ==> CanGrow(s)
      invariant rng.dry || Drawn(g0, lv.Grid(), rooms[..], tree, corridors)
      invariant depth <= 1 && AllReal(old(lv.Grid())) ==> AllReal(lv.Grid())
      invariant !rng.dry ==> Later(old(rng.tape), rng.tape)
      invariant old(rng.dry) ==> rng.dry
      decreases !rng.dry, MAXROOMS - roomCount, |rng.tape|
    {
      HasItsRooms(rooms, graph, rooms0, tree, s, start);
      var j, r2 := graph.PickOutside(rng, r1, s);
      if rng.dry {
        break;
      }
      if j == 0 {
        r1 := PickInside(rng, graph, s);
      } else {
        tree, corridors := Extend(lv, rooms, rng, depth, graph, r1, r2, rooms0, g0, tree, corridors, s, start);
        s := s + {r2};
        roomCount := roomCount + 1;
      }
    }
    GrowthDone(rooms, graph, rooms0, tree, s, start);
  }

  lemma HasItsRooms(rooms: array<Room>, graph: RoomGraph, rooms0: seq<Room>, tree: seq<Pair>, s: set<nat>, start: nat)
    requires graph.Shape() && Growth(rooms, graph, rooms0, tree, s, start)
    ensures graph.HasRooms(s)
  {
  }

  lemma GrowthDone(rooms: array<Room>, graph: RoomGraph, rooms0: seq<Room>, tree: seq<Pair>, s: set<nat>, start: nat)
    requires graph.Shape() && Growth(rooms, graph, rooms0, tree, s, start)
    ensures graph.Holds(tree) && Layout(rooms[..]) && MoreExits(rooms0, rooms[..])
    ensures |s| == MAXROOMS ==> SpanningTree(tree)
  {
    if |s| == MAXROOMS {
      Grown(tree, s, start);
    }
  }

  /** The corridors after some more were drawn: the tree is still there, no pair comes twice. */
  ghost predicate Extended(tree: seq<Pair>, drawn: seq<Pair>) {
    SpanningTree(tree) && tree <= drawn && PairsDrawn(drawn) && AllConnected(drawn)
  }

  lemma ExtendedMore(tree: seq<Pair>, drawn: seq<Pair>, a: nat, b: nat)
    requires Extended(tree, drawn) && Neighbouring(a, b) && !LinkedBy(drawn, a, b)
    ensures Extended(tree, drawn + [(a, b)])
  {
    OneMorePair(drawn, a, b);
    forall i, j | 0 <= i < MAXROOMS && 0 <= j < MAXROOMS
      ensures Reaches(drawn + [(a, b)], i, j)
    {
      ReachesMore(drawn, [(a, b)], i, j);
    }
  }

  /** In the middle of the second loop. */
  ghost predicate Adding(rooms: array<Room>, graph: RoomGraph, rooms0: seq<Room>, tree: seq<Pair>, drawn: seq<Pair>)
    reads rooms, graph.isConn
  {
    && graph.Shape() && graph.Holds(drawn) && Extended(tree, drawn)
    && MoreExits(rooms0, rooms[..]) && Layout(rooms[..])
  }

  /** A corridor from r1 to r2 if a pair was found. */
  method AddOne(lv: Level, rooms: array<Room>, rng: Random, depth: nat, graph: RoomGraph, r1: nat, ghost rooms0: seq<Room>,
                ghost g0: Grid, ghost tree: seq<Pair>, ghost drawn: seq<Pair>, ghost corridors: seq<Corridor>)
    returns (ghost drawn1: seq<Pair>, ghost corridors1: seq<Corridor>)
    requires lv.Shape() && r1 < MAXROOMS && Adding(rooms, graph, rooms0, tree, drawn)
    requires Drawn(g0, lv.Grid(), rooms[..], drawn, corridors)
    modifies lv.places, rooms, rng, graph.isConn
    ensures Adding(rooms, graph, rooms0, tree, drawn1)
    ensures var cands := Those(UnlinkedTo(r1, drawn), MAXROOMS);
      drawn1 == if cands == [] then drawn else drawn + [(r1, Picked(cands, old(rng.tape)))]
    ensures rng.dry || Drawn(g0, lv.Grid(), rooms[..], drawn1, corridors1)
    ensures depth <= 1 && AllReal(old(lv.Grid())) ==> AllReal(lv.Grid())
    ensures old(rng.dry) ==> rng.dry
  {
    ghost var before := rooms[..];
    drawn1, corridors1 := drawn, corridors;
    hide Layout, Drawn, MoreExits, AllSquares, Extended, PairsDrawn, LinkedBy, Neighbouring, AllReal, Past, Picked, Those;
    var j, r2 := graph.PickUnconnected(rng, r1, drawn);
    if j != 0 {
      ExtendedMore(tree, drawn, r1, r2);
      drawn1, corridors1 := Connect(lv, rooms, rng, depth, graph, r1, r2, g0, drawn, corridors);
      MoreExitsTrans(rooms0, before, rooms[..]);
    }
  }

  /** Some room has corridors to all its neighbours. */
  ghost predicate SomeRoomFull(drawn: seq<Pair>) {
    exists r: nat :: r < MAXROOMS && RoomFull(r, drawn)
  }

  ghost predicate RoomFull(r: nat, drawn: seq<Pair>) {
    forall i: nat :: Neighbouring(r, i) ==> LinkedBy(drawn, r, i)
  }

  lemma FullOrMore(r: nat, drawn: seq<Pair>, drawn1: seq<Pair>)
    requires r < MAXROOMS && drawn <= drawn1 && (drawn1 == drawn ==> Those(UnlinkedTo(r, drawn), MAXROOMS) == [])
    ensures SomeRoomFull(drawn) ==> SomeRoomFull(drawn1)
    ensures drawn1 == drawn ==> SomeRoomFull(drawn1)
  {
    hide Neighbouring, Those;
    if drawn1 == drawn {
      UnlinkedFound(r, drawn, []);
      assert RoomFull(r, drawn);
    }
    if SomeRoomFull(drawn) {
      var a: nat :| a < MAXROOMS && RoomFull(a, drawn);
      assert RoomFull(a, drawn1);
    }
  }

  /** The second loop of do_passages: at most four more corridors, none between rooms joined already. */
  method AddPassages(lv: Level, rooms: array<Room>, rng: Random, depth: nat, graph: RoomGraph, ghost rooms0: seq<Room>,
                     ghost g0: Grid, ghost tree: seq<Pair>, ghost corridors: seq<Corridor>)
    returns (ghost drawn: seq<Pair>, ghost corridors1: seq<Corridor>)
    requires lv.Shape() && Adding(rooms, graph, rooms0, tree, tree)
    requires Drawn(g0, lv.Grid(), rooms[..], tree, corridors)
    modifies lv.places, rooms, rng, graph.isConn
    ensures Adding(rooms, graph, rooms0, tree, drawn) && |drawn| <= |tree| + Draw(old(rng.tape), 5) <= |tree| + 4
    ensures !rng.dry ==> old(rng.tape) != [] && (|drawn| == |tree| + Draw(old(rng.tape), 5) || SomeRoomFull(drawn))
    ensures rng.dry || Drawn(g0, lv.Grid(), rooms[..], drawn, corridors1)
    ensures depth <= 1 && AllReal(old(lv.Grid())) ==> AllReal(lv.Grid())
    ensures old(rng.dry) ==> rng.dry
  {
    hide Adding, Drawn, AllSquares, AllReal, Past, Picked, Those, OneDraw;
    drawn, corridors1 := tree, corridors;
    var roomCount: int := rng.Rnd(5);
    ghost var extra := roomCount;
    while roomCount > 0 && !rng.dry
      invariant 0 <= roomCount <= extra <= 4 && |drawn| <= |tree| + extra - roomCount
      invariant |drawn| == |tree| + extra - roomCount || SomeRoomFull(drawn)
      invariant !rng.dry ==> old(rng.tape) != []
      invariant Adding(rooms, graph, rooms0, tree, drawn)
      invariant rng.dry || Drawn(g0, lv.Grid(), rooms[..], drawn, corridors1)
      invariant depth <= 1 && AllReal(old(lv.Grid())) ==> AllReal(lv.Grid())
      invariant old(rng.dry) ==> rng.dry
      decreases roomCount
    {
      ghost var drawn0 := drawn;
      var r1 := rng.Rnd(MAXROOMS);
      drawn, corridors1 := AddOne(lv, rooms, rng, depth, graph, r1, rooms0, g0, tree, drawn, corridors1);
      FullOrMore(r1, drawn0, drawn);
      roomCount := roomCount - 1;
    }
  }

  /** The passages of a level: a spanning tree and up to four more corridors, their squares all
      numerable, and the numbers passnum gives them. */
  ghost predicate LevelConnected(g0: Grid, dug: Grid, g: Grid, rooms: seq<Room>, tree: seq<Pair>, drawn: seq<Pair>,
                                 corridors: seq<Corridor>, table: seq<seq<Coord>>, pnum: nat) {
    && Extended(tree, drawn) && |drawn| <= 12
    && Drawn(g0, dug, rooms, drawn, corridors)
    && PassagesNumbered(dug, g, AllExits(rooms), table, pnum) && pnum <= |drawn|
  }

  lemma NumbersHideNothing(g0: Grid, g: Grid, exits: set<Coord>, table: seq<seq<Coord>>, pnum: nat)
    requires PassagesNumbered(g0, g, exits, table, pnum)
    ensures AllReal(g0) ==> AllReal(g)
  {
    hide Numerable;
  }

  lemma NoCorridorsYet(g: Grid, rooms: seq<Room>)
    requires forall c :: c in g ==> g[c].num == 0
    requires forall i :: 0 <= i < |rooms| ==> rooms[i].exits == []
    ensures Drawn(g, g, rooms, [], [])
  {
  }

  lemma CoverOfDrawn(g0: Grid, g: Grid, rooms: seq<Room>, drawn: seq<Pair>, corridors: seq<Corridor>)
    requires Drawn(g0, g, rooms, drawn, corridors)
    ensures |Cover(corridors)| == |drawn| && ExitsCovered(rooms, Cover(corridors))
    ensures forall j :: 0 <= j < |Cover(corridors)| ==> Piece(Numerable(g), Cover(corridors)[j])
    ensures forall c :: c in g ==> g[c].num == 0
  {
  }

  /** As many corridors more than the tree as some entry of the tape says, unless some room has all it can. */
  ghost predicate ExtraDrawn(tape: seq<nat>, drawn: seq<Pair>) {
    SomeRoomFull(drawn) || exists d :: d in tape && |drawn| == MAXROOMS - 1 + d % 5
  }

  lemma ExtraFromTape(tape: seq<nat>, t: seq<nat>, drawn: seq<Pair>)
    requires Later(tape, t) && t != [] && (|drawn| == MAXROOMS - 1 + Draw(t, 5) || SomeRoomFull(drawn))
    ensures ExtraDrawn(tape, drawn)
  {
    assert t[0] in t;
  }

  /** do_passages. A run that ends before the random numbers do leaves a connected, numbered level. */
  method DoPassages(lv: Level, rooms: array<Room>, rng: Random, depth: nat, graph: RoomGraph, t: PassageTable)
    returns (ghost dug: Grid, ghost tree: seq<Pair>, ghost drawn: seq<Pair>, ghost corridors: seq<Corridor>)
    requires lv.Shape() && graph.Shape() && t.exits.Length == MAXPASS && rooms.Length == MAXROOMS
    requires Layout(rooms[..]) && forall i :: 0 <= i < MAXROOMS ==> rooms[i].exits == []
    requires forall c :: c in lv.Grid() ==> lv.Grid()[c].num == 0
    modifies lv.places, rooms, rng, graph.isConn, graph.inGraph, t, t.exits
    ensures MoreExits(old(rooms[..]), rooms[..])
    ensures depth <= 1 && AllReal(old(lv.Grid())) ==> AllReal(lv.Grid())
    ensures !rng.dry ==> ExtraDrawn(old(rng.tape), drawn)
    ensures rng.dry || LevelConnected(old(lv.Grid()), dug, lv.Grid(), rooms[..], tree, drawn, corridors, t.exits[..], t.pnum)
  {
    ghost var rooms0, g0 := rooms[..], lv.Grid();
    NoCorridorsYet(lv.Grid(), rooms[..]);
    hide Drawn, Layout, MoreExits, SpanningTree, AllSquares, PassagesNumbered, AllConnected, PairsDrawn, AllReal;
    graph.Clear();
    tree, corridors := GrowTree(lv, rooms, rng, depth, graph, g0);
    dug, drawn := lv.Grid(), tree;
    if rng.dry {
      return;
    }
    TreeItself(tree);
    ghost var t1 := rng.tape;
    drawn, corridors := AddPassages(lv, rooms, rng, depth, graph, rooms0, g0, tree, corridors);
    dug := lv.Grid();
    if rng.dry {
      return;
    }
    ExtraFromTape(old(rng.tape), t1, drawn);
    CoverOfDrawn(g0, dug, rooms[..], drawn, corridors);
    TreeItself(tree);
    PassNum(lv, t, rooms, Cover(corridors));
    NumbersHideNothing(dug, lv.Grid(), AllExits(rooms[..]), t.exits[..], t.pnum);
  }

  lemma TreeItself(tree: seq<Pair>)
    requires SpanningTree(tree)
    ensures Extended(tree, tree) && |tree| == 8
  {
  }
}
