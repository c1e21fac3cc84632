/**
  Maze rooms: do_maze and the recursive dig, for every sequence of random choices.
 */
module Maze {
  import opened Geometry
  import opened LevelMap

  /** Startx, Starty, Maxx and Maxy. */
  datatype Box = Box(x: int, y: int, maxX: int, maxY: int)

  predicate InBox(b: Box, c: Coord) {
    b.x <= c.x <= b.x + b.maxX && b.y <= c.y <= b.y + b.maxY
  }

  predicate BoxOnMap(b: Box) {
    0 <= b.x && b.x + b.maxX < NUMCOLS && 0 <= b.y && b.y + b.maxY < MAXLINES
  }

  /** A cell of the maze: an even offset both ways. */
  predicate IsCell(b: Box, c: Coord) {
    InBox(b, c) && (c.x - b.x) % 2 == 0 && (c.y - b.y) % 2 == 0
  }

  /** A link square: between two cells side by side. */
  predicate IsLink(b: Box, c: Coord) {
    InBox(b, c) && (c.x - b.x) % 2 + (c.y - b.y) % 2 == 1
  }

  /** The two cells a link square joins. */
  function LinkEnds(b: Box, c: Coord): (ends: (Coord, Coord))
  {
    if (c.x - b.x) % 2 == 1 then (Coord(c.x - 1, c.y), Coord(c.x + 1, c.y))
    else (Coord(c.x, c.y - 1), Coord(c.x, c.y + 1))
  }

  ghost function Cells(b: Box): set<Coord> {
    set c | c in BoxSquares(b) && IsCell(b, c)
  }

  ghost function BoxSquares(b: Box): set<Coord> {
    set x: int, y: int | b.x <= x <= b.x + b.maxX && b.y <= y <= b.y + b.maxY :: Coord(x, y)
  }

  /** The neighbour cells dig looks at, in its order. */
  function Around(c: Coord): seq<Coord> {
    [Coord(c.x + 2, c.y), Coord(c.x - 2, c.y), Coord(c.x, c.y + 2), Coord(c.x, c.y - 2)]
  }

  /** The squares dug so far make a tree of cells: links join dug cells, everything hangs together,
      and there is one link fewer than cells. */
  ghost predicate MazeTree(b: Box, dug: set<Coord>, start: Coord) {
    && start in dug && IsCell(b, start)
    && (forall c :: c in dug ==> IsCell(b, c) || IsLink(b, c))
    && (forall c :: c in dug && IsLink(b, c) ==> EndsDug(b, dug, c))
    && (forall c :: c in dug ==> Connected(dug, start, c))
    && |DugLinks(b, dug)| + 1 == |DugCells(b, dug)|
  }

  ghost predicate EndsDug(b: Box, dug: set<Coord>, l: Coord) {
    LinkEnds(b, l).0 in dug && LinkEnds(b, l).1 in dug
  }

  ghost function DugCells(b: Box, dug: set<Coord>): set<Coord> {
    set c | c in dug && IsCell(b, c)
  }

  ghost function DugLinks(b: Box, dug: set<Coord>): set<Coord> {
    set c | c in dug && IsLink(b, c)
  }

  /** All the neighbour cells of the cell c are dug. */
  ghost predicate Exhausted(b: Box, dug: set<Coord>, c: Coord) {
    forall n :: n in Around(c) && IsCell(b, n) ==> n in dug
  }

  lemma FirstCell(b: Box, start: Coord)
    requires IsCell(b, start)
    ensures MazeTree(b, {start}, start)
  {
    ConnectedSelf({start}, start);
    assert DugCells(b, {start}) == {start};
    assert DugLinks(b, {start}) == {};
  }

  function Between(c: Coord, n: Coord): Coord {
    if n.y == c.y then Coord(if n.x < c.x then n.x + 1 else n.x - 1, c.y)
    else Coord(c.x, if n.y < c.y then n.y + 1 else n.y - 1)
  }

  lemma BetweenIsLink(b: Box, c: Coord, n: Coord)
    requires IsCell(b, c) && IsCell(b, n) && n in Around(c)
    ensures IsLink(b, Between(c, n)) && !IsCell(b, Between(c, n)) && !IsLink(b, n)
    ensures LinkEnds(b, Between(c, n)) in {(c, n), (n, c)}
    ensures Adjacent(c, Between(c, n)) && Adjacent(Between(c, n), n)
  {
  }

  lemma StillConnected(dug: set<Coord>, start: Coord, c: Coord, l: Coord, n: Coord)
    requires forall d :: d in dug ==> Connected(dug, start, d)
    requires c in dug && Adjacent(c, l) && Adjacent(l, n)
    ensures forall d :: d in dug + {l, n} ==> Connected(dug + {l, n}, start, d)
  {
    var dug1 := dug + {l, n};
    forall d | d in dug
      ensures Connected(dug1, start, d)
    {
      ConnectedMono(dug, dug1, start, d);
    }
    ConnectedStep(dug1, c, l);
    ConnectedTrans(dug1, start, c, l);
    ConnectedStep(dug1, l, n);
    ConnectedTrans(dug1, start, l, n);
  }

  /** Digging from a dug cell through the link to a fresh cell keeps the tree. */
  lemma NextCell(b: Box, dug: set<Coord>, start: Coord, c: Coord, n: Coord)
    requires MazeTree(b, dug, start) && c in dug && IsCell(b, c)
    requires n in Around(c) && IsCell(b, n) && n !in dug
    ensures MazeTree(b, dug + {Between(c, n), n}, start)
    ensures IsLink(b, Between(c, n)) && Between(c, n) !in dug
  {
    var l := Between(c, n);
    var dug1 := dug + {l, n};
    BetweenIsLink(b, c, n);
    StillConnected(dug, start, c, l, n);
    assert l !in dug by {
      assert l in dug ==> EndsDug(b, dug, l);
    }
    assert EndsDug(b, dug1, l);
    hide IsLink, IsCell, Connected, LinkEnds, Between, Around, Adjacent, EndsDug, DugCells, DugLinks;
    OneMoreOfEach(b, dug, l, n);
    forall k | k in dug1 && IsLink(b, k)
      ensures EndsDug(b, dug1, k)
    {
      if k in dug {
        MoreEnds(b, dug, dug1, k);
      }
    }
  }

  lemma MoreEnds(b: Box, dug: set<Coord>, more: set<Coord>, l: Coord)
    requires EndsDug(b, dug, l) && dug <= more
    ensures EndsDug(b, more, l)
  {
  }

  lemma OneMoreOfEach(b: Box, dug: set<Coord>, l: Coord, n: Coord)
    requires IsLink(b, l) && !IsCell(b, l) && IsCell(b, n) && !IsLink(b, n) && l !in dug && n !in dug
    ensures |DugCells(b, dug + {l, n})| == |DugCells(b, dug)| + 1
    ensures |DugLinks(b, dug + {l, n})| == |DugLinks(b, dug)| + 1
  {
    hide IsLink, IsCell;
    assert DugCells(b, dug + {l, n}) == DugCells(b, dug) + {n};
    assert DugLinks(b, dug + {l, n}) == DugLinks(b, dug) + {l};
  }

  /** A dug set closed under neighbour cells holds every cell. */
  lemma {:induction false} AllCellsDug(b: Box, dug: set<Coord>, start: Coord, c: Coord)
    requires start in dug && IsCell(b, start) && IsCell(b, c)
    requires forall d :: d in dug && IsCell(b, d) ==> Exhausted(b, dug, d)
    ensures c in dug
    decreases if c.x < start.x then start.x - c.x else c.x - start.x, if c.y < start.y then start.y - c.y else c.y - start.y
  {
    if c != start {
      var d :=
        if c.x < start.x then Coord(c.x + 2, c.y)
        else if c.x > start.x then Coord(c.x - 2, c.y)
        else if c.y < start.y then Coord(c.x, c.y + 2)
        else Coord(c.x, c.y - 2);
      AllCellsDug(b, dug, start, d);
      assert Exhausted(b, dug, d) && c in Around(d);
    }
  }

  lemma PassMeansDug(g0: Grid, g: Grid, dug: set<Coord>, b: Box, c: Coord)
    requires Dug(g0, g, dug) && forall s :: s in g0 && InBox(b, s) ==> !g0[s].isPass
    requires c in g && InBox(b, c)
    ensures g[c].isPass <==> c in dug
  {
  }

  lemma AroundCells(b: Box, c: Coord, k: nat)
    requires IsCell(b, c) && k < 4
    ensures IsCell(b, Around(c)[k]) <==> InBox(b, Around(c)[k])
  {
  }

  /** The undug neighbour cells of c among the first k dig looks at, in its order. */
  ghost function CandidatesTo(b: Box, dug: set<Coord>, c: Coord, k: nat): seq<Coord>
    requires k <= 4
  {
    if k == 0 then []
    else if IsCell(b, Around(c)[k - 1]) && Around(c)[k - 1] !in dug then CandidatesTo(b, dug, c, k - 1) + [Around(c)[k - 1]]
    else CandidatesTo(b, dug, c, k - 1)
  }

  lemma NoCandidates(b: Box, dug: set<Coord>, c: Coord)
    ensures CandidatesTo(b, dug, c, 4) == [] <==> Exhausted(b, dug, c)
    ensures forall n :: n in CandidatesTo(b, dug, c, 4) ==> n in Around(c) && IsCell(b, n) && n !in dug
  {
    CandidatesAre(b, dug, c, 4);
    var cands := CandidatesTo(b, dug, c, 4);
    assert cands != [] ==> cands[0] in cands;
    forall n | n in Around(c) && IsCell(b, n)
      ensures n in dug || n in cands
    {
      var k :| 0 <= k < 4 && Around(c)[k] == n;
    }
  }

  lemma {:induction false} CandidatesAre(b: Box, dug: set<Coord>, c: Coord, k: nat)
    requires k <= 4
    ensures forall n :: n in CandidatesTo(b, dug, c, k) ==> n in Around(c) && IsCell(b, n) && n !in dug
    ensures forall j :: 0 <= j < k && IsCell(b, Around(c)[j]) && Around(c)[j] !in dug ==> Around(c)[j] in CandidatesTo(b, dug, c, k)
  {
    if k > 0 {
      CandidatesAre(b, dug, c, k - 1);
    }
  }

  /** The candidates of dig and the choice among them; a candidate is found if there is one. */
  method Choose(lv: Level, rng: Random, b: Box, c: Coord, ghost g0: Grid, ghost dug: set<Coord>)
    returns (count: nat, next: Coord)
    requires lv.Shape() && BoxOnMap(b)
    requires forall s :: s in g0 && InBox(b, s) ==> !g0[s].isPass
    requires Dug(g0, lv.Grid(), dug) && IsCell(b, c)
    modifies rng
    ensures count == |CandidatesTo(b, dug, c, 4)| && rng.tape == Past(old(rng.tape), count)
    ensures count > 0 ==> next == Picked(CandidatesTo(b, dug, c, 4), old(rng.tape))
    ensures old(rng.dry) ==> rng.dry
  {
    hide Dug, Picked, Past, Draw, After, OneDraw;
    ghost var tape := rng.tape;
    NothingPast(tape);
    count, next := 0, c;
    for k := 0 to 4
      invariant count == |CandidatesTo(b, dug, c, k)| && rng.tape == Past(tape, count)
      invariant count > 0 ==> next == Picked(CandidatesTo(b, dug, c, k), tape)
      invariant old(rng.dry) ==> rng.dry
    {
      var n := Around(c)[k];
      AroundCells(b, c, k);
      if n.y - b.y < 0 || n.y - b.y > b.maxY || n.x - b.x < 0 || n.x - b.x > b.maxX {
        continue;
      }
      PassMeansDug(g0, lv.Grid(), dug, b, n);
      if lv.places[n.x, n.y].isPass {
        continue;
      }
      PickedNext(CandidatesTo(b, dug, c, k), n, tape);
      count := count + 1;
      var pick := rng.Rnd(count);
      if pick == 0 {
        next := n;
      }
    }
  }

  /** What dig from the cell c can leave: it ends when all neighbour cells are dug, and else takes one of
      them, digs on from there, and looks around c again. */
  ghost predicate DigLeaves(b: Box, c: Coord, dug: set<Coord>, after: set<Coord>)
    decreases Cells(b) - dug, 1
  {
    if Exhausted(b, dug, c) then after == dug
    else exists n: Coord, mid: set<Coord> :: DigsThrough(b, c, dug, n, mid, after)
  }

  /** dig goes from c to n, leaves mid when it comes back, and in the end after. */
  ghost predicate DigsThrough(b: Box, c: Coord, dug: set<Coord>, n: Coord, mid: set<Coord>, after: set<Coord>)
    decreases Cells(b) - dug, 0
  {
    var more := dug + {Between(c, n), n};
    && n in Around(c) && IsCell(b, n) && n !in dug && more <= mid
    && (FewerCells(b, dug, more, n); FewerCells(b, dug, mid, n); DigLeaves(b, n, more, mid) && DigLeaves(b, c, mid, after))
  }

  lemma DugThrough(b: Box, c: Coord, dug: set<Coord>, n: Coord, mid: set<Coord>, after: set<Coord>)
    requires n in Around(c) && IsCell(b, n) && n !in dug && dug + {Between(c, n), n} <= mid
    requires DigLeaves(b, n, dug + {Between(c, n), n}, mid) && DigLeaves(b, c, mid, after)
    ensures DigLeaves(b, c, dug, after)
  {
    hide Between, Around, IsCell;
    assert DigsThrough(b, c, dug, n, mid, after);
  }

  /** Whatever dig does, a tree stays a tree, and no cell it added, nor c, has an undug neighbour. */
  lemma {:induction false} DigKeepsTree(b: Box, start: Coord, c: Coord, dug: set<Coord>, after: set<Coord>)
    requires DigLeaves(b, c, dug, after) && MazeTree(b, dug, start) && c in dug && IsCell(b, c)
    ensures MazeTree(b, after, start) && dug <= after
    ensures forall d :: d in after - dug + {c} && IsCell(b, d) ==> Exhausted(b, after, d)
    decreases Cells(b) - dug
  {
    hide MazeTree, Exhausted, IsCell, IsLink, Between, Around, BoxSquares;
    if !Exhausted(b, dug, c) {
      var n: Coord, mid: set<Coord> :| DigsThrough(b, c, dug, n, mid, after);
      var more := dug + {Between(c, n), n};
      NextCell(b, dug, start, c, n);
      FewerCells(b, dug, more, n);
      FewerCells(b, dug, mid, n);
      DigKeepsTree(b, start, n, more, mid);
      DigKeepsTree(b, start, c, mid, after);
      LinkIsNoCell(b, Between(c, n));
      StillExhausted(b, dug, more, mid, after, c, Between(c, n), n);
    }
  }

  lemma LinkIsNoCell(b: Box, l: Coord)
    requires IsLink(b, l)
    ensures !IsCell(b, l)
  {
  }

  lemma FewerCells(b: Box, dug: set<Coord>, more: set<Coord>, n: Coord)
    requires IsCell(b, n) && n !in dug && n in more && dug <= more
    ensures Cells(b) - more < Cells(b) - dug
  {
    assert n in BoxSquares(b);
  }

  lemma StillExhausted(b: Box, dug: set<Coord>, more: set<Coord>, mid: set<Coord>, after: set<Coord>, c: Coord, l: Coord, n: Coord)
    requires dug <= more <= mid <= after && more == dug + {l, n} && !IsCell(b, l)
    requires forall d :: d in mid - more + {n} && IsCell(b, d) ==> Exhausted(b, mid, d)
    requires forall d :: d in after - mid + {c} && IsCell(b, d) ==> Exhausted(b, after, d)
    ensures forall d :: d in after - dug + {c} && IsCell(b, d) ==> Exhausted(b, after, d)
  {
    hide Around, Exhausted;
    forall d | d in after - dug + {c} && IsCell(b, d)
      ensures Exhausted(b, after, d)
    {
      if d in mid && d != c {
        MoreExhausted(b, mid, after, d);
      }
    }
  }

  lemma MoreExhausted(b: Box, dug: set<Coord>, more: set<Coord>, c: Coord)
    requires Exhausted(b, dug, c) && dug <= more
    ensures Exhausted(b, more, c)
  {
  }

  // ---- dig with its random numbers ----

  /** The tape after the two calls of putpass. */
  function AfterTwo(tape: seq<nat>, depth: nat): seq<nat> {
    AfterSecret(AfterSecret(tape, depth, 40), depth, 40)
  }

  /** What dig from the cell c leaves, of the dug squares and of the tape. */
  ghost predicate DigRun(b: Box, c: Coord, depth: nat, dug: set<Coord>, tape: seq<nat>, after: set<Coord>, rest: seq<nat>)
    decreases Cells(b) - dug, 1
  {
    if CandidatesTo(b, dug, c, 4) == [] then after == dug && rest == tape
    else exists mid: set<Coord>, t: seq<nat> :: RunThrough(b, c, depth, dug, tape, mid, t, after, rest)
  }

  /** dig goes to the candidate picked, comes back with mid and the tape t, and in the end with after and
      the rest. */
  ghost predicate RunThrough(b: Box, c: Coord, depth: nat, dug: set<Coord>, tape: seq<nat>, mid: set<Coord>, t: seq<nat>,
                             after: set<Coord>, rest: seq<nat>)
    requires CandidatesTo(b, dug, c, 4) != []
    decreases Cells(b) - dug, 0
  {
    var cands := CandidatesTo(b, dug, c, 4);
    var n := Picked(cands, tape);
    var more := dug + {Between(c, n), n};
    NoCandidates(b, dug, c);
    && more <= mid
    && (FewerCells(b, dug, more, n); FewerCells(b, dug, mid, n);
        && DigRun(b, n, depth, more, AfterTwo(Past(tape, |cands|), depth), mid, t)
        && DigRun(b, c, depth, mid, t, after, rest))
  }

  /** Each run is one that dig can make. */
  lemma {:induction false} RunLeaves(b: Box, c: Coord, depth: nat, dug: set<Coord>, tape: seq<nat>, after: set<Coord>, rest: seq<nat>)
    requires DigRun(b, c, depth, dug, tape, after, rest)
    ensures DigLeaves(b, c, dug, after)
    decreases Cells(b) - dug
  {
    hide Between, Around, IsCell, AfterTwo, Exhausted, CandidatesTo, Picked;
    var cands := CandidatesTo(b, dug, c, 4);
    NoCandidates(b, dug, c);
    if cands != [] {
      var mid: set<Coord>, t: seq<nat> :| RunThrough(b, c, depth, dug, tape, mid, t, after, rest);
      var n := Picked(cands, tape);
      var more := dug + {Between(c, n), n};
      FewerCells(b, dug, more, n);
      FewerCells(b, dug, mid, n);
      RunLeaves(b, n, depth, more, AfterTwo(Past(tape, |cands|), depth), mid, t);
      RunLeaves(b, c, depth, mid, t, after, rest);
      DugThrough(b, c, dug, n, mid, after);
    }
  }

  /** Draws that make putpass go on without a secret. */
  function Plain(depth: nat): seq<nat> {
    if depth <= 10 then [9] else [9, 1]
  }

  lemma PlainDrawn(depth: nat, rest: seq<nat>)
    ensures AfterSecret(Plain(depth) + rest, depth, 40) == rest
    ensures AfterTwo(Plain(depth) + (Plain(depth) + rest), depth) == rest
  {
  }

  /** The draws d pick n and are used up by the two calls of putpass. */
  ghost predicate DrawsFind(cands: seq<Coord>, n: Coord, depth: nat, d: seq<nat>)
    requires cands != []
  {
    forall rest: seq<nat> :: Picked(cands, d + rest) == n && AfterTwo(Past(d + rest, |cands|), depth) == rest
  }

  lemma DrawsFor(cands: seq<Coord>, n: Coord, depth: nat) returns (d: seq<nat>)
    requires n in cands
    ensures DrawsFind(cands, n, depth, d)
  {
    var i :| 0 <= i < |cands| && cands[i] == n;
    var draws := AnyCandidatePicked(cands, i);
    d := draws + Plain(depth) + Plain(depth);
    forall rest: seq<nat>
      ensures Picked(cands, d + rest) == n && AfterTwo(Past(d + rest, |cands|), depth) == rest
    {
      assert d + rest == draws + (Plain(depth) + (Plain(depth) + rest));
      PickedPrefix(cands, draws, d + rest);
      assert Past(d + rest, |cands|) == Plain(depth) + (Plain(depth) + rest);
      PlainDrawn(depth, rest);
    }
  }

  /** t, whatever follows it, makes dig leave after. */
  ghost predicate Makes(b: Box, c: Coord, depth: nat, dug: set<Coord>, t: seq<nat>, after: set<Coord>) {
    forall rest: seq<nat> :: DigRun(b, c, depth, dug, t + rest, after, rest)
  }

  /** Whatever dig can make, some random numbers make it. */
  lemma {:induction false} SomeDrawsMake(b: Box, c: Coord, depth: nat, dug: set<Coord>, after: set<Coord>) returns (t: seq<nat>)
    requires DigLeaves(b, c, dug, after)
    ensures Makes(b, c, depth, dug, t, after)
    decreases Cells(b) - dug
  {
    hide Between, Around, IsCell, AfterTwo, Exhausted, CandidatesTo, Picked, DigRun;
    NoCandidates(b, dug, c);
    if Exhausted(b, dug, c) {
      t := [];
      NothingMakes(b, c, depth, dug);
    } else {
      var n: Coord, mid: set<Coord> :| DigsThrough(b, c, dug, n, mid, after);
      var more := dug + {Between(c, n), n};
      FewerCells(b, dug, more, n);
      FewerCells(b, dug, mid, n);
      var t1 := SomeDrawsMake(b, n, depth, more, mid);
      var t2 := SomeDrawsMake(b, c, depth, mid, after);
      CandidateFound(b, dug, c, n);
      var d := DrawsFor(CandidatesTo(b, dug, c, 4), n, depth);
      t := d + t1 + t2;
      MadeThrough(b, c, depth, dug, n, d, mid, t1, after, t2);
    }
  }

  lemma NothingMakes(b: Box, c: Coord, depth: nat, dug: set<Coord>)
    requires CandidatesTo(b, dug, c, 4) == []
    ensures Makes(b, c, depth, dug, [], dug)
  {
    forall rest: seq<nat>
      ensures DigRun(b, c, depth, dug, [] + rest, dug, rest)
    {
      assert [] + rest == rest;
    }
  }

  lemma CandidateFound(b: Box, dug: set<Coord>, c: Coord, n: Coord)
    requires n in Around(c) && IsCell(b, n) && n !in dug
    ensures n in CandidatesTo(b, dug, c, 4)
  {
    CandidatesAre(b, dug, c, 4);
    var k :| 0 <= k < 4 && Around(c)[k] == n;
  }

  lemma MadeThrough(b: Box, c: Coord, depth: nat, dug: set<Coord>, n: Coord, d: seq<nat>, mid: set<Coord>, t1: seq<nat>,
                    after: set<Coord>, t2: seq<nat>)
    requires CandidatesTo(b, dug, c, 4) != [] && dug + {Between(c, n), n} <= mid
    requires DrawsFind(CandidatesTo(b, dug, c, 4), n, depth, d)
    requires Makes(b, n, depth, dug + {Between(c, n), n}, t1, mid) && Makes(b, c, depth, mid, t2, after)
    ensures Makes(b, c, depth, dug, d + t1 + t2, after)
  {
    hide Between, CandidatesTo, Picked, AfterTwo, Past;
    forall rest: seq<nat>
      ensures DigRun(b, c, depth, dug, d + t1 + t2 + rest, after, rest)
    {
      var tape := d + (t1 + (t2 + rest));
      assert d + t1 + t2 + rest == tape;
      assert DigRun(b, n, depth, dug + {Between(c, n), n}, t1 + (t2 + rest), mid, t2 + rest);
      assert DigRun(b, c, depth, mid, t2 + rest, after, rest);
      assert RunThrough(b, c, depth, dug, tape, mid, t2 + rest, after, rest);
    }
  }

  /** Whatever dig makes of the later squares and tape it also makes of the earlier ones. */
  ghost predicate GoesOn(b: Box, c: Coord, depth: nat, dug: set<Coord>, tape: seq<nat>, last: set<Coord>, t: seq<nat>) {
    forall final: set<Coord>, rest: seq<nat> :: DigRun(b, c, depth, last, t, final, rest) ==> DigRun(b, c, depth, dug, tape, final, rest)
  }

  lemma OneMoreDig(b: Box, c: Coord, depth: nat, dug: set<Coord>, tape: seq<nat>, last: set<Coord>, t: seq<nat>,
                   mid: set<Coord>, t1: seq<nat>)
    requires GoesOn(b, c, depth, dug, tape, last, t) && CandidatesTo(b, last, c, 4) != []
    requires var cands := CandidatesTo(b, last, c, 4);
      var n := Picked(cands, t);
      && DigRun(b, n, depth, last + {Between(c, n), n}, AfterTwo(Past(t, |cands|), depth), mid, t1)
      && last + {Between(c, n), n} <= mid
    ensures GoesOn(b, c, depth, dug, tape, mid, t1)
  {
    hide Between, CandidatesTo, Picked, AfterTwo, Past;
    forall final: set<Coord>, rest: seq<nat> | DigRun(b, c, depth, mid, t1, final, rest)
      ensures DigRun(b, c, depth, dug, tape, final, rest)
    {
      assert RunThrough(b, c, depth, last, t, mid, t1, final, rest);
    }
  }

  /** dig, from the cell c. */
  method Dig(lv: Level, rng: Random, depth: nat, b: Box, c: Coord, ghost g0: Grid, ghost dug: set<Coord>)
    returns (ghost after: set<Coord>)
    requires lv.Shape() && BoxOnMap(b)
    requires forall s :: s in g0 && InBox(b, s) ==> !g0[s].isPass
    requires Dug(g0, lv.Grid(), dug) && IsCell(b, c)
    modifies lv.places, rng
    ensures Dug(g0, lv.Grid(), after) && dug <= after
    ensures DigRun(b, c, depth, dug, old(rng.tape), after, rng.tape)
    ensures depth <= 1 && AllReal(old(lv.Grid())) ==> AllReal(lv.Grid())
    ensures old(rng.dry) ==> rng.dry
    decreases Cells(b) - dug
  {
    hide DigRun, Dug, Exhausted, IsCell, IsLink, Between, Around, AllSquares, BoxSquares, CandidatesTo, Picked, Past, GoesOn, AfterTwo;
    hide AllReal;
    ghost var tape := rng.tape;
    after := dug;
    GoesOnItself(b, c, depth, dug, tape);
    while true
      invariant Dug(g0, lv.Grid(), after) && dug <= after && GoesOn(b, c, depth, dug, tape, after, rng.tape)
      invariant depth <= 1 && AllReal(old(lv.Grid())) ==> AllReal(lv.Grid())
      invariant old(rng.dry) ==> rng.dry
      decreases Cells(b) - after
    {
      ghost var t := rng.tape;
      var count, next := Choose(lv, rng, b, c, g0, after);
      NoCandidates(b, after, c);
      if count == 0 {
        NothingPast(t);
        DigEnds(b, c, depth, dug, tape, after, t);
        return;
      }
      ghost var more := after + {Between(c, next), next};
      FewerCells(b, after, more, next);
      DigOne(lv, rng, depth, b, c, next, g0, after);
      ghost var last := after;
      after := Dig(lv, rng, depth, b, next, g0, more);
      FewerCells(b, last, after, next);
      OneMoreDig(b, c, depth, dug, tape, last, t, after, rng.tape);
    }
  }

  lemma GoesOnItself(b: Box, c: Coord, depth: nat, dug: set<Coord>, tape: seq<nat>)
    ensures GoesOn(b, c, depth, dug, tape, dug, tape)
  {
  }

  lemma DigEnds(b: Box, c: Coord, depth: nat, dug: set<Coord>, tape: seq<nat>, after: set<Coord>, t: seq<nat>)
    requires CandidatesTo(b, after, c, 4) == [] && GoesOn(b, c, depth, dug, tape, after, t)
    ensures DigRun(b, c, depth, dug, tape, after, t)
  {
    assert DigRun(b, c, depth, after, t, after, t);
  }

  /** putpass on the link and on the next cell. */
  method DigOne(lv: Level, rng: Random, depth: nat, b: Box, c: Coord, next: Coord, ghost g0: Grid, ghost dug: set<Coord>)
    requires lv.Shape() && BoxOnMap(b) && Dug(g0, lv.Grid(), dug)
    requires IsCell(b, c) && IsCell(b, next) && next in Around(c)
    modifies lv.places, rng
    ensures Dug(g0, lv.Grid(), dug + {Between(c, next), next}) && rng.tape == AfterTwo(old(rng.tape), depth)
    ensures depth <= 1 && AllReal(old(lv.Grid())) ==> AllReal(lv.Grid())
    ensures old(rng.dry) ==> rng.dry
  {
    BetweenIsLink(b, c, next);
    hide AllReal, AfterSecret, Secret, PassMade;
    ghost var g := lv.Grid();
    PutPass(lv, rng, depth, Between(c, next));
    ghost var h := lv.Grid();
    PutPass(lv, rng, depth, next);
    hide Dug, Between, Around;
    DugTwice(g, h, lv.Grid(), {Between(c, next)}, {next});
    DugTwice(g0, g, lv.Grid(), dug, {Between(c, next)} + {next});
    assert dug + ({Between(c, next)} + {next}) == dug + {Between(c, next), next};
  }

  /** The box of a maze room: Maxx and Maxy are r_max itself. */
  function BoxOf(pos: Coord, max: Coord): Box
  {
    Box(pos.x, pos.y, max.x, max.y)
  }

  /** A finished maze: a tree of dug squares that holds every cell of the box. */
  ghost predicate MazeDone(b: Box, dug: set<Coord>) {
    && Cells(b) <= dug
    && (forall c :: c in dug ==> IsCell(b, c) || IsLink(b, c))
    && (forall c :: c in dug && IsLink(b, c) ==> EndsDug(b, dug, c))
    && (forall c, d :: c in dug && d in dug ==> Connected(dug, c, d))
    && |DugLinks(b, dug)| + 1 == |Cells(b)|
  }

  lemma TreeOfAllCells(b: Box, dug: set<Coord>, start: Coord)
    requires MazeTree(b, dug, start)
    requires forall d :: d in dug && IsCell(b, d) ==> Exhausted(b, dug, d)
    ensures MazeDone(b, dug)
  {
    forall c | c in Cells(b)
      ensures c in dug
    {
      AllCellsDug(b, dug, start, c);
    }
    forall c, d | c in dug && d in dug
      ensures Connected(dug, c, d)
    {
      ConnectedSym(dug, start, c);
      ConnectedTrans(dug, c, start, d);
    }
    assert forall c :: IsCell(b, c) ==> c in BoxSquares(b);
    assert DugCells(b, dug) == Cells(b);
  }

  /** The cells do_maze can start in: even offsets below the size of the room. */
  predicate CanStart(b: Box, start: Coord) {
    IsCell(b, start) && start.x < b.x + b.maxX && start.y < b.y + b.maxY
  }

  lemma StartDrawn(b: Box, k: nat, l: nat)
    requires k < b.maxX && l < b.maxY
    ensures CanStart(b, Coord(k / 2 * 2 + b.x, l / 2 * 2 + b.y))
    ensures BoxOnMap(b) ==> OnMap(Coord(k / 2 * 2 + b.x, l / 2 * 2 + b.y))
  {
  }

  /** What do_maze can leave. */
  ghost predicate MazeRun(b: Box, dug: set<Coord>) {
    exists start :: RunFrom(b, start, dug)
  }

  ghost predicate RunFrom(b: Box, start: Coord, dug: set<Coord>) {
    CanStart(b, start) && DigLeaves(b, start, {start}, dug)
  }

  /** Every run of do_maze leaves a finished maze. */
  lemma RunIsDone(b: Box, dug: set<Coord>)
    requires MazeRun(b, dug)
    ensures MazeDone(b, dug)
  {
    var start :| RunFrom(b, start, dug);
    FirstCell(b, start);
    hide DigLeaves, MazeTree, Exhausted;
    DigKeepsTree(b, start, start, {start}, dug);
    TreeCellsExhausted(b, start, dug);
    TreeOfAllCells(b, dug, start);
  }

  lemma TreeCellsExhausted(b: Box, start: Coord, dug: set<Coord>)
    requires forall d :: d in dug - {start} + {start} && IsCell(b, d) ==> Exhausted(b, dug, d)
    requires start in dug
    ensures forall d :: d in dug && IsCell(b, d) ==> Exhausted(b, dug, d)
  {
    assert dug - {start} + {start} == dug;
  }

  /** Where do_maze starts, and what it leaves of the dug squares and of the tape. */
  function StartCell(b: Box, tape: seq<nat>): Coord
    requires b.maxX > 0 && b.maxY > 0
  {
    Coord(Draw(After(tape, b.maxY), b.maxX) / 2 * 2 + b.x, Draw(tape, b.maxY) / 2 * 2 + b.y)
  }

  ghost predicate MazeMade(b: Box, depth: nat, tape: seq<nat>, dug: set<Coord>, rest: seq<nat>)
    requires b.maxX > 0 && b.maxY > 0
  {
    var start := StartCell(b, tape);
    DigRun(b, start, depth, {start}, AfterSecret(After(After(tape, b.maxY), b.maxX), depth, 40), dug, rest)
  }

  /** The mazes do_maze can make are just those some random numbers make. */
  lemma MadeIsRun(b: Box, depth: nat, tape: seq<nat>, dug: set<Coord>, rest: seq<nat>)
    requires b.maxX > 0 && b.maxY > 0 && MazeMade(b, depth, tape, dug, rest)
    ensures MazeRun(b, dug)
  {
    var start := StartCell(b, tape);
    StartDrawn(b, Draw(After(tape, b.maxY), b.maxX), Draw(tape, b.maxY));
    hide DigRun, DigLeaves;
    RunLeaves(b, start, depth, {start}, AfterSecret(After(After(tape, b.maxY), b.maxX), depth, 40), dug, rest);
    assert RunFrom(b, start, dug);
  }

  lemma RunIsMade(b: Box, depth: nat, dug: set<Coord>) returns (tape: seq<nat>)
    requires b.maxX > 0 && b.maxY > 0 && MazeRun(b, dug)
    ensures MazeMade(b, depth, tape, dug, [])
  {
    var start :| RunFrom(b, start, dug);
    hide DigRun, DigLeaves;
    var t := SomeDrawsMake(b, start, depth, {start}, dug);
    tape := [start.y - b.y, start.x - b.x] + (Plain(depth) + t);
    assert After(After(tape, b.maxY), b.maxX) == Plain(depth) + t;
    PlainDrawn(depth, t);
    assert StartCell(b, tape) == start by {
      EvenOffset(start.x - b.x, b.maxX);
      EvenOffset(start.y - b.y, b.maxY);
    }
    assert t + [] == t;
  }

  lemma EvenOffset(k: int, max: int)
    requires 0 <= k < max && k % 2 == 0
    ensures k % max / 2 * 2 == k
  {
  }

  method DoMaze(lv: Level, rng: Random, depth: nat, pos: Coord, max: Coord) returns (ghost dug: set<Coord>)
    requires lv.Shape() && max.x > 0 && max.y > 0 && BoxOnMap(BoxOf(pos, max))
    requires forall s :: s in lv.Grid() && InBox(BoxOf(pos, max), s) ==> !lv.Grid()[s].isPass
    modifies lv.places, rng
    ensures Dug(old(lv.Grid()), lv.Grid(), dug) && MazeRun(BoxOf(pos, max), dug)
    ensures MazeMade(BoxOf(pos, max), depth, old(rng.tape), dug, rng.tape)
    ensures depth <= 1 && AllReal(old(lv.Grid())) ==> AllReal(lv.Grid())
    ensures old(rng.dry) ==> rng.dry
  {
    hide DigRun, IsCell, InBox, AllSquares, Dug, Draw, After, AfterSecret, Secret, PassMade, AllReal, OneDraw, MazeRun;
    var b := BoxOf(pos, max);
    ghost var g0, tape := lv.Grid(), rng.tape;
    var l := rng.Rnd(max.y);
    var startY := l / 2 * 2;
    var k := rng.Rnd(max.x);
    var startX := k / 2 * 2;
    StartDrawn(b, k, l);
    var start := Coord(startX + pos.x, startY + pos.y);
    PutPass(lv, rng, depth, start);
    dug := Dig(lv, rng, depth, b, start, g0, {start});
    MadeIsRun(b, depth, tape, dug, rng.tape);
  }
}
