/**
  Numbering the passages: the recursive flood fill of numpass and the loop over the room
  exits in passnum.
 */
module Passnum {
  import opened Geometry
  import opened LevelMap

  /** The grid with number n given to the squares of s. */
  ghost function WithNumber(g: Grid, s: set<Coord>, n: Number): (h: Grid)
    ensures h.Keys == g.Keys
    ensures forall c :: c in g ==> h[c] == if c in s then g[c].(num := n) else g[c]
  {
    map c | c in g :: if c in s then g[c].(num := n) else g[c]
  }

  lemma WithNumberTwice(g: Grid, s: set<Coord>, t: set<Coord>, n: Number)
    ensures WithNumber(WithNumber(g, s, n), t, n) == WithNumber(g, s + t, n)
  {
  }

  lemma NumberingKeepsNumerable(g: Grid, s: set<Coord>, n: Number)
    requires n != 0 && s <= Numerable(g)
    ensures Numerable(WithNumber(g, s, n)) == Numerable(g)
    ensures Numbered(WithNumber(g, s, n)) == Numbered(g) + s
  {
    var h := WithNumber(g, s, n);
    forall c | c in g
      ensures NumerablePlace(h[c]) == NumerablePlace(g[c])
    {
    }
  }

  /**
    A fill from c that found the squares s numbered already and numbered the squares `added`: what it
    added is connected to c, and it left no unnumbered neighbour of an added square.
   */
  ghost predicate Filled(p: set<Coord>, numbered: set<Coord>, added: set<Coord>, c: Coord) {
    && added <= p - numbered
    && (c in p ==> c in numbered + added)
    && (forall s :: s in added ==> Connected(p, c, s))
    && (forall s, t :: s in added && t in p && Adjacent(s, t) ==> t in numbered + added)
  }

  lemma FillNothing(g: Grid, c: Coord)
    requires c !in g || !InBounds(c) || g[c].num != 0 || !NumerablePlace(g[c])
    ensures Filled(Numerable(g), Numbered(g), {}, c)
  {
  }

  function Neighbours(c: Coord): seq<Coord> {
    [Coord(c.x, c.y + 1), Coord(c.x, c.y - 1), Coord(c.x + 1, c.y), Coord(c.x - 1, c.y)]
  }

  /** One more neighbour of c filled: the squares added so far still hang together. */
  lemma FillNeighbour(p: set<Coord>, numbered: set<Coord>, soFar: set<Coord>, more: set<Coord>, c: Coord, d: Coord)
    requires c in soFar && soFar <= p - numbered && Adjacent(c, d)
    requires forall s :: s in soFar ==> Connected(p, c, s)
    requires forall s, t :: s in soFar - {c} && t in p && Adjacent(s, t) ==> t in numbered + soFar
    requires Filled(p, numbered + soFar, more, d)
    ensures soFar + more <= p - numbered
    ensures forall s :: s in soFar + more ==> Connected(p, c, s)
    ensures forall s, t :: s in soFar + more - {c} && t in p && Adjacent(s, t) ==> t in numbered + (soFar + more)
    ensures d in p ==> d in numbered + (soFar + more)
  {
    forall s | s in more
      ensures Connected(p, c, s)
    {
      ConnectedEnds(p, d, s);
      ConnectedStep(p, c, d);
      ConnectedTrans(p, c, d, s);
    }
  }

  /** The exits kept for each passage number. */
  class PassageTable {
    const exits: array<seq<Coord>>
    var pnum: nat
    var newpnum: bool

    constructor ()
      ensures exits.Length == MAXPASS && fresh(exits)
    {
      exits := new seq<Coord>[MAXPASS];
      pnum, newpnum := 0, false;
    }
  }

  ghost predicate NoDuplicates(s: seq<Coord>) {
    forall i, j :: 0 <= i < j < |s| ==> s[i] != s[j]
  }

  ghost function DoorsIn(g: Grid, s: set<Coord>): set<Coord> {
    set c | c in s && c in g && DoorPlace(g[c])
  }

  /** What a call of numpass does to the table: the doors it numbered are appended, each once. */
  ghost predicate DoorsAppended(before: seq<Coord>, after: seq<Coord>, doors: set<Coord>) {
    && |before| <= |after| && after[..|before|] == before
    && NoDuplicates(after[|before|..])
    && SquaresOf(after[|before|..]) == doors
  }

  function SquaresOf(s: seq<Coord>): set<Coord> {
    set c | c in s
  }

  lemma AppendDoors(a: seq<Coord>, b: seq<Coord>, c: seq<Coord>, d1: set<Coord>, d2: set<Coord>)
    requires DoorsAppended(a, b, d1) && DoorsAppended(b, c, d2) && d1 !! d2
    ensures DoorsAppended(a, c, d1 + d2)
  {
    var u, v := b[|a|..], c[|b|..];
    assert c[|a|..] == u + v by {
      assert c[..|b|] == b;
    }
    assert SquaresOf(u + v) == SquaresOf(u) + SquaresOf(v);
    forall i, j | 0 <= i < j < |u + v|
      ensures (u + v)[i] != (u + v)[j]
    {
      if i < |u| <= j {
        assert u[i] in SquaresOf(u) && v[j - |u|] in SquaresOf(v);
      }
    }
    assert c[..|a|] == b[..|a|];
  }

  /** The squares a call has numbered so far, and what it has done to the table entry. */
  ghost predicate Progress(g0: Grid, g: Grid, soFar: set<Coord>, c: Coord, n: Number) {
    && n != 0 && g == WithNumber(g0, soFar, n)
    && c in soFar && soFar <= Unnumbered(g0)
    && (forall s :: s in soFar ==> Connected(Numerable(g0), c, s))
    && (forall s, t :: s in soFar - {c} && t in Numerable(g0) && Adjacent(s, t) ==> t in Numbered(g0) + soFar)
  }

  lemma ProgressStart(g0: Grid, c: Coord, n: Number)
    requires n != 0 && c in g0 && InBounds(c) && g0[c].num == 0 && NumerablePlace(g0[c])
    ensures Progress(g0, g0[c := g0[c].(num := n)], {c}, c, n)
    ensures Unnumbered(g0) - {c} < Unnumbered(g0)
  {
    assert g0[c := g0[c].(num := n)] == WithNumber(g0, {c}, n);
    assert c in Unnumbered(g0);
    ConnectedSelf(Numerable(g0), c);
  }

  lemma ProgressState(g0: Grid, g: Grid, soFar: set<Coord>, c: Coord, n: Number)
    requires Progress(g0, g, soFar, c, n)
    ensures Numerable(g) == Numerable(g0) && Numbered(g) == Numbered(g0) + soFar
    ensures Unnumbered(g) == Unnumbered(g0) - soFar
  {
    NumberingKeepsNumerable(g0, soFar, n);
  }

  lemma ProgressStep(g0: Grid, g: Grid, g1: Grid, soFar: set<Coord>, more: set<Coord>, c: Coord, d: Coord, n: Number)
    requires Progress(g0, g, soFar, c, n) && Adjacent(c, d)
    requires Filled(Numerable(g), Numbered(g), more, d) && g1 == WithNumber(g, more, n)
    ensures Progress(g0, g1, soFar + more, c, n)
    ensures d in Numerable(g0) ==> d in Numbered(g0) + (soFar + more)
    ensures soFar !! more
  {
    ProgressState(g0, g, soFar, c, n);
    hide Numerable, Numbered;
    FillNeighbour(Numerable(g0), Numbered(g0), soFar, more, c, d);
    WithNumberTwice(g0, soFar, more, n);
  }

  /** With its four neighbours filled, the call from c has filled everything it can reach. */
  lemma ProgressDone(g0: Grid, g: Grid, soFar: set<Coord>, c: Coord, n: Number)
    requires Progress(g0, g, soFar, c, n)
    requires forall d :: d in Neighbours(c) && d in Numerable(g0) ==> d in Numbered(g0) + soFar
    ensures Filled(Numerable(g0), Numbered(g0), soFar, c)
  {
    hide Numerable, Numbered;
    forall t | t in Numerable(g0) && Adjacent(c, t)
      ensures t in Numbered(g0) + soFar
    {
      assert t in Neighbours(c);
    }
  }

  lemma DoorsOfUnion(g0: Grid, g: Grid, soFar: set<Coord>, more: set<Coord>, n: Number)
    requires g == WithNumber(g0, soFar, n)
    ensures DoorsIn(g0, soFar) + DoorsIn(g, more) == DoorsIn(g0, soFar + more)
    ensures soFar !! more ==> DoorsIn(g0, soFar) !! DoorsIn(g, more)
  {
  }

  method NumPass(lv: Level, t: PassageTable, c: Coord) returns (ghost added: set<Coord>)
    requires lv.Shape() && t.exits.Length == MAXPASS
    requires t.pnum < MAXPASS && (t.newpnum || t.pnum > 0)
    requires t.newpnum && InBounds(c) && lv.Grid()[c].num == 0 ==> t.pnum + 1 < MAXPASS
    modifies lv.places, t, t.exits
    ensures Filled(Numerable(old(lv.Grid())), Numbered(old(lv.Grid())), added, c)
    ensures t.pnum < MAXPASS && lv.Grid() == WithNumber(old(lv.Grid()), added, t.pnum)
    ensures if old(t.newpnum) && InBounds(c) && old(lv.Grid())[c].num == 0
      then t.pnum == old(t.pnum) + 1 && !t.newpnum else t.pnum == old(t.pnum) && t.newpnum == old(t.newpnum)
    ensures added != {} ==> !t.newpnum
    ensures forall k :: 0 <= k < MAXPASS && k != t.pnum ==> t.exits[k] == old(t.exits[k])
    ensures DoorsAppended(old(t.exits[..])[t.pnum], t.exits[t.pnum], DoorsIn(old(lv.Grid()), added))
    decreases Unnumbered(lv.Grid()), 1
  {
    hide Filled, Progress, DoorsAppended, WithNumber, Numbered, Numerable, Unnumbered, DoorsIn, AllSquares;
    added := {};
    ghost var g0 := lv.Grid();
    NothingAdded(g0, t.pnum % 16);
    if c.x >= NUMCOLS || c.x < 0 || c.y >= NUMLINES || c.y <= 0 {
      FillNothing(g0, c);
      return;
    }
    var p := lv.places[c.x, c.y];
    if p.num != 0 {
      FillNothing(g0, c);
      return;
    }
    if t.newpnum {
      t.pnum := t.pnum + 1;
      t.newpnum := false;
      NothingAdded(g0, t.pnum);
    }
    ghost var e0 := t.exits[..];
    if DoorPlace(p) {
      t.exits[t.pnum] := t.exits[t.pnum] + [c];
    } else if !p.isPass {
      FillNothing(g0, c);
      return;
    }
    lv.Put(c, p.(num := t.pnum));
    ProgressStart(g0, c, t.pnum);
    FirstDoor(g0, c, e0[t.pnum], t.exits[t.pnum]);
    ghost var n := t.pnum;
    added := FillAround(lv, t, c, g0, e0, n);
    ProgressGrid(g0, lv.Grid(), added, c, n);
  }

  lemma NothingAdded(g: Grid, n: Number)
    ensures WithNumber(g, {}, n) == g && DoorsIn(g, {}) == {}
    ensures forall s: seq<Coord> :: DoorsAppended(s, s, {})
  {
    forall s: seq<Coord>
      ensures DoorsAppended(s, s, {})
    {
      assert s[|s|..] == [] && s[..|s|] == s;
    }
  }

  lemma FirstDoor(g: Grid, c: Coord, before: seq<Coord>, after: seq<Coord>)
    requires c in g && after == if DoorPlace(g[c]) then before + [c] else before
    ensures DoorsAppended(before, after, DoorsIn(g, {c}))
  {
    if DoorPlace(g[c]) {
      assert after[|before|..] == [c];
      assert DoorsIn(g, {c}) == {c};
    } else {
      assert after[|before|..] == [];
      assert DoorsIn(g, {c}) == {};
    }
  }

  /** In the middle of the call that numbered c with n: what the level and the table hold,
      compared with the grid g0 and the exits e0 before that call. */
  ghost predicate Filling(lv: Level, t: PassageTable, g0: Grid, e0: seq<seq<Coord>>, soFar: set<Coord>, c: Coord, n: Number)
    reads lv.places, t, t.exits
  {
    && lv.Shape() && t.exits.Length == |e0| == MAXPASS && !t.newpnum && t.pnum == n < MAXPASS
    && Progress(g0, lv.Grid(), soFar, c, n)
    && DoorsAppended(e0[n], t.exits[n], DoorsIn(g0, soFar))
    && forall k :: 0 <= k < MAXPASS && k != n ==> t.exits[k] == e0[k]
  }

  /** The four recursive calls, once c itself is numbered. */
  method FillAround(lv: Level, t: PassageTable, c: Coord, ghost g0: Grid, ghost e0: seq<seq<Coord>>, ghost n: Number)
    returns (ghost added: set<Coord>)
    requires Filling(lv, t, g0, e0, {c}, c, n)
    modifies lv.places, t, t.exits
    ensures Filling(lv, t, g0, e0, added, c, n) && Filled(Numerable(g0), Numbered(g0), added, c)
    decreases Unnumbered(g0) - {c}, 3
  {
    hide Filling, Filled, Numerable, Numbered, Unnumbered;
    added := {c};
    added := NumNeighbour(lv, t, c, Coord(c.x, c.y + 1), g0, e0, added, n);
    added := NumNeighbour(lv, t, c, Coord(c.x, c.y - 1), g0, e0, added, n);
    added := NumNeighbour(lv, t, c, Coord(c.x + 1, c.y), g0, e0, added, n);
    added := NumNeighbour(lv, t, c, Coord(c.x - 1, c.y), g0, e0, added, n);
    FillingDone(lv, t, c, g0, e0, added, n);
  }

  lemma FillingDone(lv: Level, t: PassageTable, c: Coord, g0: Grid, e0: seq<seq<Coord>>, added: set<Coord>, n: Number)
    requires Filling(lv, t, g0, e0, added, c, n)
    requires Coord(c.x, c.y + 1) in Numerable(g0) ==> Coord(c.x, c.y + 1) in Numbered(g0) + added
    requires Coord(c.x, c.y - 1) in Numerable(g0) ==> Coord(c.x, c.y - 1) in Numbered(g0) + added
    requires Coord(c.x + 1, c.y) in Numerable(g0) ==> Coord(c.x + 1, c.y) in Numbered(g0) + added
    requires Coord(c.x - 1, c.y) in Numerable(g0) ==> Coord(c.x - 1, c.y) in Numbered(g0) + added
    ensures Filled(Numerable(g0), Numbered(g0), added, c)
  {
    ProgressDone(g0, lv.Grid(), added, c, n);
  }

  /** One of the four recursive calls, with the bookkeeping of the proof. */
  method NumNeighbour(lv: Level, t: PassageTable, c: Coord, d: Coord, ghost g0: Grid, ghost e0: seq<seq<Coord>>,
                      ghost soFar: set<Coord>, ghost n: Number) returns (ghost after: set<Coord>)
    requires Filling(lv, t, g0, e0, soFar, c, n) && Adjacent(c, d)
    modifies lv.places, t, t.exits
    ensures Filling(lv, t, g0, e0, after, c, n) && soFar <= after
    ensures d in Numerable(g0) ==> d in Numbered(g0) + after
    decreases Unnumbered(g0) - soFar, 2
  {
    ghost var g := lv.Grid();
    ghost var e := t.exits[..];
    ProgressState(g0, g, soFar, c, n);
    ghost var more := NumPass(lv, t, d);
    after := soFar + more;
    hide Progress, Filled, WithNumber, Numerable, Numbered, Unnumbered, DoorsIn, DoorsAppended;
    ProgressStep(g0, g, lv.Grid(), soFar, more, c, d, n);
    ProgressGrid(g0, g, soFar, c, n);
    DoorsOfUnion(g0, g, soFar, more, n);
    AppendDoors(e0[n], e[n], t.exits[n], DoorsIn(g0, soFar), DoorsIn(g, more));
  }

  lemma ProgressGrid(g0: Grid, g: Grid, soFar: set<Coord>, c: Coord, n: Number)
    requires Progress(g0, g, soFar, c, n)
    ensures g == WithNumber(g0, soFar, n)
  {
  }

  /** Component k of p, reached from reps[k], is exactly the squares numbered k + 1. */
  ghost predicate ByComponent(p: set<Coord>, g: Grid, reps: seq<Coord>) {
    && (forall k :: 0 <= k < |reps| ==> reps[k] in p)
    && (forall c :: c in p ==> c in g && g[c].num <= |reps|)
    && (forall c, k :: c in p && 0 <= k < |reps| ==> (g[c].num == k + 1 <==> Connected(p, reps[k], c)))
  }

  /** Passage k lists the doors of component k, each once; the other passages are empty. */
  ghost predicate DoorsByNumber(g: Grid, exits: seq<seq<Coord>>, pnum: nat) {
    forall k :: 0 <= k < |exits| ==>
      && NoDuplicates(exits[k])
      && (k == 0 || k > pnum ==> exits[k] == [])
      && forall c :: c in exits[k] <==> (0 < k <= pnum && c in Numerable(g) && g[c].num == k && DoorPlace(g[c]))
  }

  /** The numbered squares are closed under neighbours. */
  lemma NumberedIsClosed(p: set<Coord>, g: Grid, reps: seq<Coord>, c: Coord, d: Coord)
    requires ByComponent(p, g, reps) && c in p && d in p && Connected(p, c, d)
    ensures g[c].num == g[d].num
  {
    if g[c].num != 0 {
      ConnectedTrans(p, reps[g[c].num - 1], c, d);
    } else if g[d].num != 0 {
      ConnectedSym(p, c, d);
      ConnectedTrans(p, reps[g[d].num - 1], d, c);
    }
  }

  /** From a square numbered already, nothing is added. */
  lemma NothingFromNumbered(g: Grid, reps: seq<Coord>, added: set<Coord>, e: Coord)
    requires ByComponent(Numerable(g), g, reps) && e in Numbered(g)
    requires Filled(Numerable(g), Numbered(g), added, e)
    ensures added == {}
  {
    forall c | c in added
      ensures false
    {
      NumberedIsClosed(Numerable(g), g, reps, e, c);
    }
  }

  /** A fill from an unnumbered square adds exactly its component. */
  lemma ComponentFilled(g: Grid, reps: seq<Coord>, added: set<Coord>, e: Coord, c: Coord)
    requires ByComponent(Numerable(g), g, reps) && e in Unnumbered(g) && c in Numerable(g)
    requires Filled(Numerable(g), Numbered(g), added, e)
    ensures c in added <==> Connected(Numerable(g), e, c)
  {
    var p := Numerable(g);
    if Connected(p, e, c) {
      forall u, v | u in added && v in p && Adjacent(u, v)
        ensures v in added
      {
        ConnectedStep(p, u, v);
        NumberedIsClosed(p, g, reps, u, v);
      }
      ClosedReaches(p, added, e, c);
    }
  }

  lemma NextComponent(g: Grid, reps: seq<Coord>, added: set<Coord>, e: Coord)
    requires |reps| + 1 < 16 && ByComponent(Numerable(g), g, reps) && e in Unnumbered(g)
    requires Filled(Numerable(g), Numbered(g), added, e)
    ensures ByComponent(Numerable(g), WithNumber(g, added, |reps| + 1), reps + [e])
    ensures Numerable(WithNumber(g, added, |reps| + 1)) == Numerable(g)
    ensures e in Numbered(WithNumber(g, added, |reps| + 1))
    ensures Numbered(g) <= Numbered(WithNumber(g, added, |reps| + 1))
  {
    var p, h, reps1 := Numerable(g), WithNumber(g, added, |reps| + 1), reps + [e];
    NumberingKeepsNumerable(g, added, |reps| + 1);
    forall c, k | c in p && 0 <= k < |reps1|
      ensures h[c].num == k + 1 <==> Connected(p, reps1[k], c)
    {
      ComponentFilled(g, reps, added, e, c);
      assert k < |reps| ==> reps1[k] == reps[k];
      if c in added {
        assert g[c].num == 0;
      }
    }
  }

  lemma NextDoors(g: Grid, x: seq<seq<Coord>>, y: seq<seq<Coord>>, pnum: nat, added: set<Coord>)
    requires DoorsByNumber(g, x, pnum) && |x| == |y| == MAXPASS && pnum + 1 < MAXPASS && added <= Unnumbered(g)
    requires forall c :: c in Numerable(g) ==> g[c].num <= pnum
    requires forall k :: 0 <= k < MAXPASS && k != pnum + 1 ==> y[k] == x[k]
    requires DoorsAppended(x[pnum + 1], y[pnum + 1], DoorsIn(g, added))
    ensures DoorsByNumber(WithNumber(g, added, pnum + 1), y, pnum + 1)
  {
    var h := WithNumber(g, added, pnum + 1);
    NumberingKeepsNumerable(g, added, pnum + 1);
    var z := y[pnum + 1];
    assert z == z[0..];
    forall c
      ensures c in z <==> c in added && DoorPlace(g[c])
    {
      assert c in z <==> c in SquaresOf(z);
    }
  }

  /** Distinct indices below n are at most n. */
  lemma {:induction false} Pigeons(s: seq<nat>, n: nat)
    requires forall i :: 0 <= i < |s| ==> s[i] < n
    requires forall i, j :: 0 <= i < j < |s| ==> s[i] != s[j]
    ensures |s| <= n
  {
    if s != [] {
      assert s[0] < n;
      if exists i :: 0 <= i < |s| && s[i] == n - 1 {
        var i :| 0 <= i < |s| && s[i] == n - 1;
        Pigeons(s[..i] + s[i + 1..], n - 1);
      } else {
        Pigeons(s, n - 1);
      }
    }
  }

  /** The connected pieces the exits lie in: each is numerable and hangs together. */
  ghost predicate Piece(p: set<Coord>, s: set<Coord>) {
    s <= p && forall a, b :: a in s && b in s ==> Connected(p, a, b)
  }

  ghost predicate InPieces(cover: seq<set<Coord>>, reps: seq<Coord>, at: seq<nat>) {
    |at| == |reps| && forall k :: 0 <= k < |reps| ==> at[k] < |cover| && reps[k] in cover[at[k]]
  }

  /** Components lie in different pieces, so there are no more of them than pieces. */
  lemma ComponentsBounded(p: set<Coord>, reps: seq<Coord>, cover: seq<set<Coord>>, at: seq<nat>)
    requires InPieces(cover, reps, at)
    requires forall i, j :: 0 <= i < j < |reps| ==> !Connected(p, reps[i], reps[j])
    requires forall i :: 0 <= i < |cover| ==> Piece(p, cover[i])
    ensures |reps| <= |cover|
  {
    forall i, j | 0 <= i < j < |at|
      ensures at[i] != at[j]
    {
      assert Piece(p, cover[at[i]]);
    }
    Pigeons(at, |cover|);
  }

  lemma RoomForOneMore(g: Grid, p: set<Coord>, reps: seq<Coord>, cover: seq<set<Coord>>, at: seq<nat>, e: Coord, i: nat)
    requires ByComponent(p, g, reps) && InPieces(cover, reps, at)
    requires i < |cover| && e in cover[i] && forall j :: 0 <= j < |cover| ==> Piece(p, cover[j])
    requires e in p && g[e].num == 0
    ensures |reps| + 1 <= |cover|
  {
    var reps1, at1 := reps + [e], at + [i];
    forall k, j | 0 <= k < j < |reps1|
      ensures !Connected(p, reps1[k], reps1[j])
    {
      ConnectedSelf(p, reps1[j]);
    }
    ComponentsBounded(p, reps1, cover, at1);
  }

  lemma SomeDoor(s: seq<Coord>)
    requires s != []
    ensures SquaresOf(s) != {}
  {
    assert s[0] in SquaresOf(s);
  }

  lemma SameDoors(a: seq<Coord>, b: seq<Coord>)
    requires DoorsAppended(a, b, {})
    ensures a == b
  {
    if b[|a|..] != [] {
      SomeDoor(b[|a|..]);
    }
    assert b == b[..|a|] + b[|a|..];
  }

  /** g is g0 but for the numbers of its numerable squares. */
  ghost predicate SameButNumbers(g0: Grid, g: Grid) {
    && g.Keys == g0.Keys && Numerable(g) == Numerable(g0)
    && (forall c :: c in g0 && c in Numerable(g0) ==> g[c] == g0[c].(num := g[c].num))
    && forall c :: c in g0 && c !in Numerable(g0) ==> g[c] == g0[c]
  }

  /** In the middle of passnum: the components reached so far have their numbers and doors. */
  ghost predicate Numbering(g0: Grid, g: Grid, exits: seq<seq<Coord>>, reps: seq<Coord>, cover: seq<set<Coord>>, at: seq<nat>) {
    && |exits| == MAXPASS && |reps| <= |cover| < MAXPASS
    && (forall j :: 0 <= j < |cover| ==> Piece(Numerable(g0), cover[j]))
    && SameButNumbers(g0, g)
    && ByComponent(Numerable(g0), g, reps) && InPieces(cover, reps, at)
    && DoorsByNumber(g, exits, |reps|)
  }

  lemma NumberedAlready(g0: Grid, g: Grid, h: Grid, x: seq<seq<Coord>>, y: seq<seq<Coord>>, reps: seq<Coord>,
                        cover: seq<set<Coord>>, at: seq<nat>, added: set<Coord>, e: Coord, n: Number)
    requires Numbering(g0, g, x, reps, cover, at) && e in Numbered(g) && n < MAXPASS && |y| == MAXPASS
    requires Filled(Numerable(g), Numbered(g), added, e) && h == WithNumber(g, added, n)
    requires forall k :: 0 <= k < MAXPASS && k != n ==> y[k] == x[k]
    requires DoorsAppended(x[n], y[n], DoorsIn(g, added))
    ensures h == g && x == y
  {
    NothingFromNumbered(g, reps, added, e);
    NothingAdded(g, n);
    SameDoors(x[n], y[n]);
  }

  lemma NumberedNow(g0: Grid, g: Grid, h: Grid, x: seq<seq<Coord>>, y: seq<seq<Coord>>, reps: seq<Coord>,
                    cover: seq<set<Coord>>, at: seq<nat>, added: set<Coord>, e: Coord, i: nat, n: Number)
    requires Numbering(g0, g, x, reps, cover, at) && e in Unnumbered(g) && n == |reps| + 1 <= |cover| && |y| == MAXPASS
    requires Filled(Numerable(g), Numbered(g), added, e) && h == WithNumber(g, added, n)
    requires forall k :: 0 <= k < MAXPASS && k != n ==> y[k] == x[k]
    requires DoorsAppended(x[n], y[n], DoorsIn(g, added))
    requires i < |cover| && e in cover[i]
    ensures Numbering(g0, h, y, reps + [e], cover, at + [i])
    ensures e in Numbered(h) && Numbered(g) <= Numbered(h)
  {
    NextComponent(g, reps, added, e);
    NextDoors(g, x, y, |reps|, added);
    assert SameButNumbers(g0, h);
  }

  /** One exit of passnum: its component gets a number unless it has one. */
  method NumberExit(lv: Level, t: PassageTable, e: Coord, ghost g0: Grid, ghost reps: seq<Coord>,
                    ghost cover: seq<set<Coord>>, ghost at: seq<nat>, ghost i: nat)
    returns (ghost reps1: seq<Coord>, ghost at1: seq<nat>)
    requires lv.Shape() && t.exits.Length == MAXPASS && t.pnum == |reps|
    requires Numbering(g0, lv.Grid(), t.exits[..], reps, cover, at)
    requires i < |cover| && e in cover[i]
    modifies lv.places, t, t.exits
    ensures t.pnum == |reps1|
    ensures Numbering(g0, lv.Grid(), t.exits[..], reps1, cover, at1)
    ensures reps1 == reps || reps1 == reps + [e]
    ensures e in Numbered(lv.Grid())
    ensures Numbered(old(lv.Grid())) <= Numbered(lv.Grid())
  {
    ghost var g := lv.Grid();
    ghost var x := t.exits[..];
    reps1, at1 := reps, at;
    assert e in Numerable(g) by {
      assert Piece(Numerable(g0), cover[i]);
    }
    t.newpnum := true;
    if e !in Numbered(g) {
      reps1, at1 := reps + [e], at + [i];
      RoomForOneMore(g, Numerable(g0), reps, cover, at, e, i);
    }
    assert |reps1| <= |cover| < MAXPASS;
    hide Numbering, Filled, DoorsAppended, WithNumber, AllSquares, DoorsIn;
    ghost var added := NumPass(lv, t, e);
    if e in Numbered(g) {
      NumberedAlready(g0, g, lv.Grid(), x, t.exits[..], reps, cover, at, added, e, t.pnum);
    } else {
      NumberedNow(g0, g, lv.Grid(), x, t.exits[..], reps, cover, at, added, e, i, t.pnum);
    }
  }

  ghost function AllExits(rooms: seq<Room>): set<Coord> {
    set i, j | 0 <= i < |rooms| && 0 <= j < |rooms[i].exits| :: rooms[i].exits[j]
  }

  ghost predicate Reached(p: set<Coord>, exits: set<Coord>, c: Coord) {
    exists e :: e in exits && Connected(p, e, c)
  }

  /** What passnum is for: the squares some exit reaches have numbers, two of them the same number
      just when they are connected, and each passage lists its doors. */
  ghost predicate PassagesNumbered(g0: Grid, g: Grid, exits: set<Coord>, table: seq<seq<Coord>>, pnum: nat) {
    && SameButNumbers(g0, g)
    && (forall c :: c in Numerable(g0) ==> (g[c].num != 0 <==> Reached(Numerable(g0), exits, c)))
    && (forall c, d :: c in Numbered(g) && d in Numbered(g) ==>
          (g[c].num == g[d].num <==> Connected(Numerable(g0), c, d)))
    && (forall c :: c in Numbered(g) ==> g[c].num <= pnum)
    && DoorsByNumber(g, table, pnum)
  }

  lemma AllNumbered(g0: Grid, g: Grid, x: seq<seq<Coord>>, reps: seq<Coord>, cover: seq<set<Coord>>, at: seq<nat>, exits: set<Coord>)
    requires Numbering(g0, g, x, reps, cover, at)
    requires exits <= Numbered(g) && SquaresOf(reps) <= exits
    ensures PassagesNumbered(g0, g, exits, x, |reps|)
  {
    var p := Numerable(g0);
    forall c | c in p
      ensures g[c].num != 0 <==> Reached(p, exits, c)
    {
      if g[c].num != 0 {
        assert reps[g[c].num - 1] in SquaresOf(reps);
        assert Connected(p, reps[g[c].num - 1], c);
      } else if Reached(p, exits, c) {
        var e :| e in exits && Connected(p, e, c);
        NumberedIsClosed(p, g, reps, e, c);
      }
    }
    forall c, d | c in Numbered(g) && d in Numbered(g)
      ensures g[c].num == g[d].num <==> Connected(p, c, d)
    {
      if g[c].num == g[d].num {
        var r := reps[g[c].num - 1];
        assert Connected(p, r, c) && Connected(p, r, d);
        ConnectedSym(p, r, c);
        ConnectedTrans(p, c, r, d);
      } else if Connected(p, c, d) {
        NumberedIsClosed(p, g, reps, c, d);
      }
    }
  }

  lemma NoneNumbered(g: Grid, x: seq<seq<Coord>>, cover: seq<set<Coord>>)
    requires forall c :: c in g ==> g[c].num == 0
    requires |x| == MAXPASS > |cover| && forall k :: 0 <= k < MAXPASS ==> x[k] == []
    requires forall j :: 0 <= j < |cover| ==> Piece(Numerable(g), cover[j])
    ensures Numbering(g, g, x, [], cover, [])
  {
  }

  /** cover accounts for the exits: each lies in one of its pieces. */
  ghost predicate ExitsCovered(rooms: seq<Room>, cover: seq<set<Coord>>) {
    forall i, j :: 0 <= i < |rooms| && 0 <= j < |rooms[i].exits| ==> InSome(cover, rooms[i].exits[j])
  }

  ghost predicate InSome(cover: seq<set<Coord>>, e: Coord) {
    exists k :: 0 <= k < |cover| && e in cover[k]
  }

  /** The exits of the rooms before room i and the first j of room i are in s. */
  ghost predicate ExitsIn(rooms: seq<Room>, i: nat, j: nat, s: set<Coord>) {
    && (forall r, k :: 0 <= r < i && r < |rooms| && 0 <= k < |rooms[r].exits| ==> rooms[r].exits[k] in s)
    && (i < |rooms| ==> forall k :: 0 <= k < j && k < |rooms[i].exits| ==> rooms[i].exits[k] in s)
  }

  lemma NoExitsYet(rooms: seq<Room>, s: set<Coord>)
    ensures ExitsIn(rooms, 0, 0, s)
  {
  }

  lemma NextExit(rooms: seq<Room>, i: nat, j: nat, s: set<Coord>, t: set<Coord>)
    requires i < |rooms| && j < |rooms[i].exits| && ExitsIn(rooms, i, j, s) && s <= t && rooms[i].exits[j] in t
    ensures ExitsIn(rooms, i, j + 1, t)
  {
  }

  lemma NextRoom(rooms: seq<Room>, i: nat, s: set<Coord>)
    requires i < |rooms| && ExitsIn(rooms, i, |rooms[i].exits|, s)
    ensures ExitsIn(rooms, i + 1, 0, s)
  {
  }

  lemma EveryExit(rooms: seq<Room>, s: set<Coord>)
    requires ExitsIn(rooms, |rooms|, 0, s)
    ensures AllExits(rooms) <= s
  {
  }

  lemma PieceOf(rooms: seq<Room>, cover: seq<set<Coord>>, i: nat, j: nat) returns (k: nat)
    requires ExitsCovered(rooms, cover) && i < |rooms| && j < |rooms[i].exits|
    ensures k < |cover| && rooms[i].exits[j] in cover[k]
    ensures rooms[i].exits[j] in AllExits(rooms)
  {
    assert InSome(cover, rooms[i].exits[j]);
    k :| 0 <= k < |cover| && rooms[i].exits[j] in cover[k];
  }

  method PassNum(lv: Level, t: PassageTable, rooms: array<Room>, ghost cover: seq<set<Coord>>)
    requires lv.Shape() && t.exits.Length == MAXPASS && rooms.Length == MAXROOMS
    requires forall c :: OnMap(c) ==> lv.Grid()[c].num == 0
    requires forall j :: 0 <= j < |cover| ==> Piece(Numerable(lv.Grid()), cover[j])
    requires ExitsCovered(rooms[..], cover) && |cover| < MAXPASS
    modifies lv.places, t, t.exits
    ensures PassagesNumbered(old(lv.Grid()), lv.Grid(), AllExits(rooms[..]), t.exits[..], t.pnum)
    ensures t.pnum <= |cover|
  {
    ghost var g0 := lv.Grid();
    t.pnum := 0;
    t.newpnum := false;
    for k := 0 to MAXPASS
      invariant forall i :: 0 <= i < k ==> t.exits[i] == []
      invariant lv.Grid() == g0 && t.pnum == 0
    {
      t.exits[k] := [];
    }
    NoneNumbered(g0, t.exits[..], cover);
    ghost var reps, at := [], [];
    ghost var all := AllExits(rooms[..]);
    hide Numbering, Numbered, AllExits, ExitsIn, InSome, ExitsCovered;
    NoExitsYet(rooms[..], Numbered(g0));
    for i := 0 to MAXROOMS
      invariant t.pnum == |reps| && Numbering(g0, lv.Grid(), t.exits[..], reps, cover, at)
      invariant SquaresOf(reps) <= all
      invariant ExitsIn(rooms[..], i, 0, Numbered(lv.Grid()))
    {
      for j := 0 to |rooms[i].exits|
        invariant t.pnum == |reps| && Numbering(g0, lv.Grid(), t.exits[..], reps, cover, at)
        invariant SquaresOf(reps) <= all
        invariant ExitsIn(rooms[..], i, j, Numbered(lv.Grid()))
      {
        var e := rooms[i].exits[j];
        ghost var before := Numbered(lv.Grid());
        ghost var piece := PieceOf(rooms[..], cover, i, j);
        reps, at := NumberExit(lv, t, e, g0, reps, cover, at, piece);
        NextExit(rooms[..], i, j, before, Numbered(lv.Grid()));
      }
      NextRoom(rooms[..], i, Numbered(lv.Grid()));
    }
    EveryExit(rooms[..], Numbered(lv.Grid()));
    AllNumbered(g0, lv.Grid(), t.exits[..], reps, cover, at, all);
    NumberingBound(g0, lv.Grid(), t.exits[..], reps, cover, at);
  }

  lemma NumberingBound(g0: Grid, g: Grid, x: seq<seq<Coord>>, reps: seq<Coord>, cover: seq<set<Coord>>, at: seq<nat>)
    requires Numbering(g0, g, x, reps, cover, at)
    ensures |reps| <= |cover|
  {
  }
}
