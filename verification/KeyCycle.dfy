/**
  The keystream over a whole cycle of its two keys: if their lengths have no common factor, every
  character of one meets every character of the other once.
 */
module KeyCycle {
  import opened Powers
  import opened HostBytes
  import opened Keystream

  /** The sum of the first i characters. */
  function SumTo(s: seq<Byte>, i: nat): nat
    requires i <= |s|
  {
    if i == 0 then 0 else SumTo(s, i - 1) + s[i - 1]
  }

  function Sum(s: seq<Byte>): nat {
    SumTo(s, |s|)
  }

  /** No common factor, by a combination of the two that is one. */
  ghost predicate Coprime(m: nat, n: nat) {
    exists u: int, v: int :: Combine(m, n, u, v)
  }

  ghost predicate Combine(m: int, n: int, u: int, v: int) {
    u * m + v * n == 1
  }

  // ---- the sum, sorted by the place in the first key ----

  /** What place r of the first key meets before place i of the stream. */
  function Met(m: nat, stat: seq<Byte>, r: nat, i: nat): nat
    requires m > 0 && |stat| > 0
  {
    if i == 0 then 0
    else Met(m, stat, r, i - 1) + if (i - 1) % m == r then stat[(i - 1) % |stat|] as int else 0
  }

  /** The first k places of the first key, each with what it meets. */
  function Sorted(enc: seq<Byte>, stat: seq<Byte>, k: nat, i: nat): nat
    requires 0 < |enc| && |stat| > 0 && k <= |enc|
  {
    if k == 0 then 0 else Sorted(enc, stat, k - 1, i) + enc[k - 1] as int * Met(|enc|, stat, k - 1, i)
  }

  lemma {:induction false} SortedGrows(enc: seq<Byte>, stat: seq<Byte>, k: nat, i: nat)
    requires 0 < |enc| && |stat| > 0 && k <= |enc|
    ensures Sorted(enc, stat, k, i + 1) ==
      Sorted(enc, stat, k, i) + if i % |enc| < k then enc[i % |enc|] as int * stat[i % |stat|] as int else 0
  {
    if k > 0 {
      SortedGrows(enc, stat, k - 1, i);
      Spread(enc[k - 1], Met(|enc|, stat, k - 1, i), stat[i % |stat|]);
    }
  }

  lemma Spread(a: int, b: int, c: int)
    ensures a * (b + c) == a * b + a * c
  {
  }

  lemma {:induction false} SumIsSorted(enc: seq<Byte>, stat: seq<Byte>, i: nat)
    requires |enc| > 0 && |stat| > 0
    ensures ProductSum(enc, stat, i) == Sorted(enc, stat, |enc|, i)
  {
    if i == 0 {
      NothingMet(enc, stat, |enc|);
    } else {
      SumIsSorted(enc, stat, i - 1);
      SortedGrows(enc, stat, |enc|, i - 1);
    }
  }

  lemma {:induction false} NothingMet(enc: seq<Byte>, stat: seq<Byte>, k: nat)
    requires 0 < |enc| && |stat| > 0 && k <= |enc|
    ensures Sorted(enc, stat, k, 0) == 0
  {
    if k > 0 {
      NothingMet(enc, stat, k - 1);
    }
  }

  // ---- what one place meets in a whole cycle ----

  /** The places of the second key that place r of the first one meets in its first q turns. */
  function Places(m: nat, n: nat, r: nat, q: nat): (p: seq<nat>)
    requires n > 0
    ensures |p| == q && forall i :: 0 <= i < q ==> p[i] == (i * m + r) % n < n
  {
    if q == 0 then [] else Places(m, n, r, q - 1) + [((q - 1) * m + r) % n]
  }

  function SumAt(stat: seq<Byte>, places: seq<nat>): nat
    requires forall i :: 0 <= i < |places| ==> places[i] < |stat|
  {
    if places == [] then 0 else SumAt(stat, places[..|places| - 1]) + stat[places[|places| - 1]]
  }

  lemma SumAtLast(stat: seq<Byte>, places: seq<nat>, p: nat)
    requires (forall i :: 0 <= i < |places| ==> places[i] < |stat|) && p < |stat|
    ensures SumAt(stat, places + [p]) == SumAt(stat, places) + stat[p]
  {
    assert (places + [p])[..|places|] == places;
  }

  /** How often the first key has come to its place r before place i of the stream. */
  function Turns(m: nat, r: nat, i: nat): nat
    requires m > 0
  {
    i / m + if i % m > r then 1 else 0
  }

  lemma PlacesMore(m: nat, n: nat, r: nat, q: nat, x: nat)
    requires n > 0 && x == q * m + r
    ensures Places(m, n, r, q + 1) == Places(m, n, r, q) + [x % n]
  {
  }

  /** One more place of the stream, when it is the r-th of the first key. */
  lemma MetOnce(m: nat, stat: seq<Byte>, r: nat, i: nat, p: seq<nat>)
    requires r < m && |stat| > 0 && i % m == r && p == Places(m, |stat|, r, i / m) && Met(m, stat, r, i) == SumAt(stat, p)
    ensures Met(m, stat, r, i + 1) == SumAt(stat, Places(m, |stat|, r, i / m + 1))
  {
    DivisionFloor(i, m);
    PlacesMore(m, |stat|, r, i / m, i);
    hide Places;
    SumAtLast(stat, p, i % |stat|);
  }

  lemma {:induction false} MetInTurns(m: nat, stat: seq<Byte>, r: nat, i: nat)
    requires r < m && |stat| > 0
    ensures Met(m, stat, r, i) == SumAt(stat, Places(m, |stat|, r, Turns(m, r, i)))
  {
    if i == 0 {
      assert 0 / m == 0 && 0 % m == 0;
    } else {
      MetInTurns(m, stat, r, i - 1);
      NextTurn(m, r, i - 1);
      if (i - 1) % m == r {
        MetOnce(m, stat, r, i - 1, Places(m, |stat|, r, (i - 1) / m));
      }
    }
  }

  lemma NextTurn(m: nat, r: nat, i: nat)
    requires r < m
    ensures Turns(m, r, i + 1) == Turns(m, r, i) + if i % m == r then 1 else 0
    ensures i % m == r ==> Turns(m, r, i) == i / m
  {
    var q, s := i / m, i % m;
    NextPlace(m, i, q, s);
    if s + 1 == m {
      DivisionIsUnique(i + 1, m, q + 1, 0);
    } else {
      DivisionIsUnique(i + 1, m, q, s + 1);
    }
  }

  ghost predicate Distinct(s: seq<nat>) {
    forall i, j :: 0 <= i < j < |s| ==> s[i] != s[j]
  }

  /** In a whole cycle no place of the second key is met twice. */
  lemma PlacesDistinct(m: nat, n: nat, r: nat)
    requires n > 0 && Coprime(m, n)
    ensures Distinct(Places(m, n, r, n))
  {
    var u: int, v: int :| Combine(m, n, u, v);
    forall i, j | 0 <= i < j < n
      ensures (i * m + r) % n != (j * m + r) % n
    {
      if (i * m + r) % n == (j * m + r) % n {
        NoTurnTwice(m, n, u, v, i * m + r, j * m + r, j - i);
      }
    }
  }

  lemma NoTurnTwice(m: int, n: int, u: int, v: int, x: int, y: int, a: int)
    requires n > 0 && u * m + v * n == 1 && 0 < a < n && y - x == a * m
    ensures x % n != y % n
  {
    if x % n == y % n {
      var t := y / n - x / n;
      DivisionFloor(x, n);
      DivisionFloor(y, n);
      assert a * m == t * n by {
        assert (y / n - x / n) * n == y / n * n - x / n * n;
      }
      Multiple(m, n, u, v, a, t);
    }
  }

  /** A number that n divides when multiplied by m is a multiple of n. */
  lemma Multiple(m: int, n: int, u: int, v: int, a: int, t: int)
    requires u * m + v * n == 1 && a * m == t * n
    ensures a == (u * t + a * v) * n
    ensures n > 0 ==> !(0 < a < n)
  {
    calc {
      a;
      a * (u * m + v * n);
      u * (a * m) + (a * v) * n;
      u * (t * n) + (a * v) * n;
      (u * t + a * v) * n;
    }
    if n > 0 && 0 < a < n {
      var k := u * t + a * v;
      if k >= 1 {
        MulMono(n, 1, k);
      } else {
        MulMono(n, k, 0);
      }
    }
  }

  // ---- a sum over all places in any order ----

  lemma {:induction false} NoMoreThan(s: seq<nat>, n: nat)
    requires Distinct(s) && forall i :: 0 <= i < |s| ==> s[i] < n
    ensures |s| <= n
  {
    if s != [] {
      assert s[0] < n;
      if i :| 0 <= i < |s| && s[i] == n - 1 {
        NoMoreThan(s[..i] + s[i + 1..], n - 1);
      } else {
        NoMoreThan(s, n - 1);
      }
    }
  }

  lemma {:induction false} SumAtWithout(stat: seq<Byte>, places: seq<nat>, i: nat)
    requires i < |places| && forall j :: 0 <= j < |places| ==> places[j] < |stat|
    ensures SumAt(stat, places) == SumAt(stat, places[..i] + places[i + 1..]) + stat[places[i]]
  {
    var last := |places| - 1;
    var rest := places[..last];
    if i == last {
      assert places[..i] + places[i + 1..] == rest;
    } else {
      SumAtWithout(stat, rest, i);
      var fewer := rest[..i] + rest[i + 1..];
      SumAtLast(stat, fewer, places[last]);
      hide SumAt;
      assert places[..i] + places[i + 1..] == fewer + [places[last]];
    }
  }

  lemma {:induction false} SumAtPrefix(stat: seq<Byte>, places: seq<nat>, n: nat)
    requires n <= |stat| && forall j :: 0 <= j < |places| ==> places[j] < n
    ensures SumAt(stat, places) == SumAt(stat[..n], places)
  {
    if places != [] {
      SumAtPrefix(stat, places[..|places| - 1], n);
    }
  }

  lemma {:induction false} SumToPrefix(s: seq<Byte>, i: nat, n: nat)
    requires i <= n <= |s|
    ensures SumTo(s[..n], i) == SumTo(s, i)
  {
    if i > 0 {
      SumToPrefix(s, i - 1, n);
    }
  }

  lemma {:induction false} AnyOrder(stat: seq<Byte>, places: seq<nat>)
    requires Distinct(places) && |places| == |stat| && forall j :: 0 <= j < |places| ==> places[j] < |stat|
    ensures SumAt(stat, places) == Sum(stat)
  {
    var n := |stat|;
    if n > 0 {
      if forall i :: 0 <= i < n ==> places[i] != n - 1 {
        NoMoreThan(places, n - 1);
      }
      var i :| 0 <= i < n && places[i] == n - 1;
      var rest := places[..i] + places[i + 1..];
      SumAtWithout(stat, places, i);
      SumAtPrefix(stat, rest, n - 1);
      AnyOrder(stat[..n - 1], rest);
      SumToPrefix(stat, n - 1, n - 1);
    }
  }

  // ---- the whole cycle ----

  lemma TurnsInCycle(m: nat, n: nat, r: nat)
    requires r < m
    ensures m * n >= 0 && Turns(m, r, m * n) == n
  {
    assert m * n == n * m;
    MulMono(m, 0, n);
    DivisionIsUnique(m * n, m, n, 0);
  }

  lemma MetInCycle(m: nat, stat: seq<Byte>, r: nat, i: nat)
    requires r < m && |stat| > 0 && Coprime(m, |stat|) && i == m * |stat|
    ensures Met(m, stat, r, i) == Sum(stat)
  {
    hide Met, Turns, Coprime, Sum, SumAt;
    TurnsInCycle(m, |stat|, r);
    MetInTurns(m, stat, r, i);
    PlacesDistinct(m, |stat|, r);
    AnyOrder(stat, Places(m, |stat|, r, |stat|));
  }

  lemma {:induction false} SortedInCycle(enc: seq<Byte>, stat: seq<Byte>, k: nat, i: nat)
    requires |stat| > 0 && k <= |enc| && 0 < |enc| && Coprime(|enc|, |stat|) && i == |enc| * |stat|
    ensures Sorted(enc, stat, k, i) == SumTo(enc, k) * Sum(stat)
  {
    hide Met, Coprime, Sum;
    if k > 0 {
      SortedInCycle(enc, stat, k - 1, i);
      MetInCycle(|enc|, stat, k - 1, i);
      Spread(Sum(stat), SumTo(enc, k - 1), enc[k - 1]);
    }
  }

  /** After a whole cycle of keys without a common factor in their lengths, the feedback is the product of
      the sums of their characters. */
  lemma FeedbackAfterCycle(k: Keys, i: nat)
    requires k.Valid() && Coprime(|k.enc|, |k.stat|) && i == |k.enc| * |k.stat|
    ensures Feedback(k, i) == Sum(k.enc) * Sum(k.stat) % 256
  {
    SortedInCycle(k.enc, k.stat, |k.enc|, i);
    SumIsSorted(k.enc, k.stat, i);
  }

  /** The lengths of the game's keys have no common factor. */
  lemma GameKeysCoprime()
    ensures Coprime(39, 37)
  {
    assert Combine(39, 37, -18, 19);
  }
}
