/** Squares of the level map and 4-connectedness between them. */
module Geometry {

  const NUMLINES := 24
  const NUMCOLS := 80
  const MAXLINES := 32

  datatype Coord = Coord(x: int, y: int)

  predicate Adjacent(a: Coord, b: Coord) {
    || (a.x == b.x && (a.y == b.y + 1 || b.y == a.y + 1))
    || (a.y == b.y && (a.x == b.x + 1 || b.x == a.x + 1))
  }

  /** A walk of neighbouring squares inside s. */
  ghost predicate IsPath(p: seq<Coord>, s: set<Coord>) {
    && |p| > 0
    && (forall i :: 0 <= i < |p| ==> p[i] in s)
    && forall i :: 0 <= i < |p| - 1 ==> Adjacent(p[i], p[i + 1])
  }

  ghost predicate PathBetween(p: seq<Coord>, s: set<Coord>, a: Coord, b: Coord) {
    IsPath(p, s) && p[0] == a && p[|p| - 1] == b
  }

  ghost predicate Connected(s: set<Coord>, a: Coord, b: Coord) {
    exists p :: PathBetween(p, s, a, b)
  }

  lemma ConnectedSelf(s: set<Coord>, a: Coord)
    requires a in s
    ensures Connected(s, a, a)
  {
    assert PathBetween([a], s, a, a);
  }

  lemma ConnectedStep(s: set<Coord>, a: Coord, b: Coord)
    requires a in s && b in s && Adjacent(a, b)
    ensures Connected(s, a, b)
  {
    assert PathBetween([a, b], s, a, b);
  }

  lemma ConnectedTrans(s: set<Coord>, a: Coord, b: Coord, c: Coord)
    requires Connected(s, a, b) && Connected(s, b, c)
    ensures Connected(s, a, c)
  {
    var p :| PathBetween(p, s, a, b);
    var q :| PathBetween(q, s, b, c);
    assert PathBetween(p + q[1..], s, a, c);
  }

  function Reversed(p: seq<Coord>): (r: seq<Coord>)
    ensures |r| == |p| && forall i :: 0 <= i < |p| ==> r[i] == p[|p| - 1 - i]
  {
    seq(|p|, i requires 0 <= i < |p| => p[|p| - 1 - i])
  }

  lemma ConnectedSym(s: set<Coord>, a: Coord, b: Coord)
    requires Connected(s, a, b)
    ensures Connected(s, b, a)
  {
    var p :| PathBetween(p, s, a, b);
    var r := Reversed(p);
    forall i | 0 <= i < |r| - 1
      ensures Adjacent(r[i], r[i + 1])
    {
      assert Adjacent(p[|p| - 2 - i], p[|p| - 2 - i + 1]);
    }
    assert PathBetween(r, s, b, a);
  }

  lemma ConnectedMono(s: set<Coord>, t: set<Coord>, a: Coord, b: Coord)
    requires Connected(s, a, b) && s <= t
    ensures Connected(t, a, b)
  {
    var p :| PathBetween(p, s, a, b);
    assert PathBetween(p, t, a, b);
  }

  lemma ConnectedEnds(s: set<Coord>, a: Coord, b: Coord)
    requires Connected(s, a, b)
    ensures a in s && b in s
  {
    var p :| PathBetween(p, s, a, b);
  }

  /** A set that contains a and is closed under neighbours in s contains all that a reaches. */
  lemma ClosedReaches(s: set<Coord>, k: set<Coord>, a: Coord, b: Coord)
    requires Connected(s, a, b) && a in k
    requires forall u, v :: u in k && v in s && Adjacent(u, v) ==> v in k
    ensures b in k
  {
    var p :| PathBetween(p, s, a, b);
    WalkStaysIn(s, k, p, |p| - 1);
  }

  lemma {:induction false} WalkStaysIn(s: set<Coord>, k: set<Coord>, p: seq<Coord>, i: nat)
    requires IsPath(p, s) && i < |p| && p[0] in k
    requires forall u, v :: u in k && v in s && Adjacent(u, v) ==> v in k
    ensures p[i] in k
  {
    if i > 0 {
      WalkStaysIn(s, k, p, i - 1);
      assert Adjacent(p[i - 1], p[i - 1 + 1]);
    }
  }
}
