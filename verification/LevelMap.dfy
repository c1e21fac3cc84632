/** The level map: an array of places, read as a map from squares, and the random source. */
module LevelMap {
  import opened Geometry

  const MAXROOMS := 9
  const MAXPASS := 13

  const PASSAGE := '#'
  const DOOR := '+'

  /** The four low bits of p_flags. */
  type Number = n: nat | n < 16

  /** p_ch and the bits F_PASS, F_REAL and F_PNUM of p_flags. */
  datatype Place = Place(ch: char, isPass: bool, isReal: bool, num: Number)

  type Grid = map<Coord, Place>

  ghost function AllSquares(): set<Coord> {
    set x: int, y: int | 0 <= x < NUMCOLS && 0 <= y < MAXLINES :: Coord(x, y)
  }

  predicate OnMap(c: Coord) {
    0 <= c.x < NUMCOLS && 0 <= c.y < MAXLINES
  }

  /** Where numpass looks: not in the top line nor past the last one. */
  predicate InBounds(c: Coord) {
    0 <= c.x < NUMCOLS && 0 < c.y < NUMLINES
  }

  /** A door, shown or secret. */
  predicate DoorPlace(p: Place) {
    p.ch == DOOR || (!p.isReal && (p.ch == '|' || p.ch == '-'))
  }

  /** A place that gets a passage number. */
  predicate NumerablePlace(p: Place) {
    DoorPlace(p) || p.isPass
  }

  ghost function Numerable(g: Grid): set<Coord> {
    set c | c in g && InBounds(c) && NumerablePlace(g[c])
  }

  ghost function Numbered(g: Grid): set<Coord> {
    set c | c in Numerable(g) && g[c].num != 0
  }

  /** Numerable squares without a number. */
  ghost function Unnumbered(g: Grid): set<Coord> {
    Numerable(g) - Numbered(g)
  }

  ghost function PassSquares(g: Grid): set<Coord> {
    set c | c in g && g[c].isPass
  }

  /** A room record: upper left corner, size, ISGONE, ISMAZE and ISDARK, and the exits so far. */
  datatype Room = Room(pos: Coord, max: Coord, gone: bool, maze: bool, dark: bool, exits: seq<Coord>)

  class Level {
    const places: array2<Place>

    ghost predicate Shape() {
      places.Length0 == NUMCOLS && places.Length1 == MAXLINES
    }

    ghost function Grid(): (g: Grid)
      requires Shape()
      reads places
      ensures g.Keys == AllSquares()
      ensures forall c :: OnMap(c) ==> c in g && g[c] == places[c.x, c.y]
    {
      map c | c in AllSquares() :: places[c.x, c.y]
    }

    /** A level as new_level clears it: blank, real, unnumbered. */
    constructor ()
      ensures Shape() && fresh(places)
      ensures forall c :: OnMap(c) ==> Grid()[c] == Place(' ', false, true, 0)
    {
      places := new Place[NUMCOLS, MAXLINES]((x, y) => Place(' ', false, true, 0));
    }

    method Put(c: Coord, p: Place)
      requires Shape() && OnMap(c)
      modifies places
      ensures Grid() == old(Grid())[c := p]
    {
      places[c.x, c.y] := p;
    }
  }

  /** What rnd yields from a tape of generator outputs, and what is then left of the tape. A range of zero
      draws nothing; an empty tape yields zeros. */
  function Draw(tape: seq<nat>, range: nat): (r: nat)
    ensures range > 0 ==> r < range
  {
    if range == 0 || tape == [] then 0 else tape[0] % range
  }

  function After(tape: seq<nat>, range: nat): (rest: seq<nat>)
    ensures |rest| <= |tape|
  {
    if range == 0 || tape == [] then tape else tape[1..]
  }

  /** Entry j of the tape, and what follows the first n. */
  function Entry(tape: seq<nat>, j: nat): nat {
    if j < |tape| then tape[j] else 0
  }

  function Past(tape: seq<nat>, n: nat): (rest: seq<nat>)
    ensures |rest| <= |tape|
  {
    if n <= |tape| then tape[n..] else []
  }

  lemma NothingPast(tape: seq<nat>)
    ensures Past(tape, 0) == tape
  {
  }

  /** The candidate left after one draw for each: the j-th replaces the ones before it if the draw from
      j + 1 is zero. */
  function Picked<T>(cands: seq<T>, tape: seq<nat>): (t: T)
    requires cands != []
    ensures t in cands
  {
    var j := |cands| - 1;
    if j == 0 || Entry(tape, j) % |cands| == 0 then cands[j] else Picked(cands[..j], tape)
  }

  /** Draw j is entry j. */
  lemma DrawIsEntry(tape: seq<nat>, j: nat)
    ensures After(Past(tape, j), j + 1) == Past(tape, j + 1)
    ensures Draw(Past(tape, j), j + 1) == Entry(tape, j) % (j + 1)
  {
  }

  /** One more candidate, and a draw for it. */
  lemma PickedNext<T>(cands: seq<T>, n: T, tape: seq<nat>)
    ensures After(Past(tape, |cands|), |cands| + 1) == Past(tape, |cands| + 1)
    ensures cands == [] ==> Draw(Past(tape, |cands|), |cands| + 1) == 0
    ensures Picked(cands + [n], tape) == if Draw(Past(tape, |cands|), |cands| + 1) == 0 then n else Picked(cands, tape)
  {
    hide Draw, After, Past, Entry;
    DrawIsEntry(tape, |cands|);
    assert (cands + [n])[..|cands|] == cands;
  }

  /** Every candidate can be picked. */
  lemma {:induction false} AnyCandidatePicked<T>(cands: seq<T>, i: nat) returns (draws: seq<nat>)
    requires i < |cands|
    ensures |draws| == |cands| && Picked(cands, draws) == cands[i]
  {
    var j := |cands| - 1;
    if i == j {
      draws := seq(|cands|, _ => 0);
    } else {
      var before := AnyCandidatePicked(cands[..j], i);
      draws := before + [1];
      PickedPrefix(cands[..j], before, draws);
    }
  }

  lemma {:induction false} PickedPrefix<T>(cands: seq<T>, draws: seq<nat>, more: seq<nat>)
    requires 0 < |cands| <= |draws| && draws <= more
    ensures Picked(cands, more) == Picked(cands, draws)
  {
    if |cands| > 1 {
      PickedPrefix(cands[..|cands| - 1], draws, more);
    }
  }

  /** What is left holds only entries the tape held. */
  ghost predicate Later(tape: seq<nat>, rest: seq<nat>) {
    forall d :: d in rest ==> d in tape
  }

  /** One call of rnd. */
  predicate OneDraw(before: seq<nat>, wasDry: bool, range: nat, r: nat, after: seq<nat>, dry: bool) {
    r == Draw(before, range) && after == After(before, range) && dry == (wasDry || (range > 0 && before == []))
  }

  /** rnd over a tape of generator outputs; once the tape is used up the source is dry and
      yields zeros. A run that a program would finish after finitely many draws is one on a
      long enough tape. */
  class Random {
    var tape: seq<nat>
    var dry: bool

    constructor (draws: seq<nat>)
      ensures tape == draws && !dry
    {
      tape, dry := draws, false;
    }

    method Rnd(range: nat) returns (r: nat)
      modifies this
      ensures OneDraw(old(tape), old(dry), range, r, tape, dry)
      ensures r == Draw(old(tape), range) && tape == After(old(tape), range) && Later(old(tape), tape)
      ensures range == 0 ==> r == 0
      ensures range > 0 ==> r < range
      ensures old(dry) ==> dry
      ensures |tape| <= |old(tape)|
      ensures !dry ==> range == 0 || |tape| < |old(tape)|
    {
      if range == 0 {
        return 0;
      }
      if |tape| == 0 {
        dry := true;
        return 0;
      }
      r := tape[0] % range;
      tape := tape[1..];
    }
  }

  /** What putpass may do to a place: the passage bit is set, and the place shows the passage
      character or is secret. */
  predicate PassPut(p: Place, q: Place) {
    && q.isPass && q.num == p.num
    && (q.ch == PASSAGE || q.ch == p.ch)
    && (q.isReal ==> p.isReal && q.ch == PASSAGE)
  }

  /** h is g with putpass done, once or more, on the squares of s. */
  ghost predicate Dug(g: Grid, h: Grid, s: set<Coord>) {
    && h.Keys == g.Keys && s <= g.Keys
    && forall c :: c in g ==> if c in s then PassPut(g[c], h[c]) else h[c] == g[c]
  }

  lemma DugNothing(g: Grid)
    ensures Dug(g, g, {})
  {
  }

  lemma DugTwice(g: Grid, h: Grid, k: Grid, s: set<Coord>, t: set<Coord>)
    requires Dug(g, h, s) && Dug(h, k, t)
    ensures Dug(g, k, s + t)
  {
  }

  /** Something is made secret: never on the first level, deeper by two draws, the first against the depth. */
  predicate Secret(tape: seq<nat>, depth: nat, odds: nat) {
    Draw(tape, 10) + 1 < depth && Draw(After(tape, 10), odds) == 0
  }

  function AfterSecret(tape: seq<nat>, depth: nat, odds: nat): seq<nat> {
    if Draw(tape, 10) + 1 < depth then After(After(tape, 10), odds) else After(tape, 10)
  }

  /** putpass: the passage bit is set, and the place shows the passage character or is secret. */
  function PassMade(p: Place, secret: bool): (q: Place)
    ensures PassPut(p, q)
  {
    if secret then p.(isPass := true, isReal := false) else p.(isPass := true, ch := PASSAGE)
  }

  /** Nothing is hidden. */
  ghost predicate AllReal(g: Grid) {
    forall c :: c in g ==> g[c].isReal
  }

  method PutPass(lv: Level, rng: Random, depth: nat, c: Coord)
    requires lv.Shape() && OnMap(c)
    modifies lv.places, rng
    ensures lv.Grid() == old(lv.Grid())[c := PassMade(old(lv.Grid())[c], Secret(old(rng.tape), depth, 40))]
    ensures rng.tape == AfterSecret(old(rng.tape), depth, 40) && Later(old(rng.tape), rng.tape)
    ensures Dug(old(lv.Grid()), lv.Grid(), {c})
    ensures depth <= 1 && AllReal(old(lv.Grid())) ==> AllReal(lv.Grid())
    ensures old(rng.dry) ==> rng.dry
  {
    var p := lv.places[c.x, c.y].(isPass := true);
    var k := rng.Rnd(10);
    var secret := false;
    if k + 1 < depth {
      k := rng.Rnd(40);
      secret := k == 0;
    }
    if secret {
      p := p.(isReal := false);
    } else {
      p := p.(ch := PASSAGE);
    }
    lv.Put(c, p);
  }

  /** A value is drawn again and again until it is good: n draws so far, none but perhaps the last one
      good; if the source is dry, no draw on the tape was. */
  ghost predicate Searching(t: seq<nat>, good: nat -> bool, n: nat, tape: seq<nat>, wasDry: bool, dry: bool) {
    && (wasDry ==> dry)
    && (!dry ==> 0 < n <= |t| && tape == t[n..] && forall j :: 0 <= j < n - 1 ==> !good(t[j]))
    && (dry && !wasDry ==> forall j :: 0 <= j < |t| ==> !good(t[j]))
  }

  lemma FirstTry(t: seq<nat>, good: nat -> bool, range: nat, r: nat, tape: seq<nat>, wasDry: bool, dry: bool)
    requires range > 0 && OneDraw(t, wasDry, range, r, tape, dry)
    ensures Searching(t, good, 1, tape, wasDry, dry)
    ensures !dry ==> 0 < |t| && r == t[0] % range
  {
  }

  lemma NextTry(t: seq<nat>, good: nat -> bool, n: nat, range: nat, r: nat, before: seq<nat>, tape: seq<nat>, wasDry: bool, dry: bool)
    requires range > 0 && Searching(t, good, n, before, wasDry, false) && OneDraw(before, false, range, r, tape, dry)
    requires !good(t[n - 1])
    ensures Searching(t, good, n + 1, tape, wasDry, dry)
    ensures !dry ==> n < |t| && r == t[n] % range
  {
  }

  /** Some draw on the tape is good. */
  ghost predicate SomeFound(t: seq<nat>, good: nat -> bool) {
    exists j :: 0 <= j < |t| && good(t[j])
  }

  /** Draw n is the first good one of the tape, and rest follows it. */
  ghost predicate Found(t: seq<nat>, good: nat -> bool, n: nat, rest: seq<nat>) {
    n < |t| && good(t[n]) && rest == t[n + 1..] && forall j :: 0 <= j < n ==> !good(t[j])
  }

  /** A search ends exactly if some draw on the tape is good, and with the first. */
  lemma SearchDone(t: seq<nat>, good: nat -> bool, n: nat, tape: seq<nat>, wasDry: bool, dry: bool)
    requires Searching(t, good, n, tape, wasDry, dry) && (dry || good(t[n - 1]))
    ensures wasDry ==> dry
    ensures !wasDry ==> (!dry <==> SomeFound(t, good))
    ensures !dry ==> n > 0 && Found(t, good, n - 1, tape) && Later(t, tape)
    ensures !dry ==> |tape| < |t|
  {
  }
}
