/**
  What a pack holds, as a sequence of entries: how they are counted, which of them belong together,
  and where a new one goes.
 */
module PackContents {
  import opened HostBytes
  import opened SaveCodec
  import opened SavedLists

  const MAXPACK := 23
  const POTION: Int32 := '!' as int
  const SCROLL: Int32 := '?' as int
  const FOOD: Int32 := ':' as int
  const LETTERS := 26
  const ISFOUND := 16

  predicate Found(flags: Int32) {
    flags / ISFOUND % 2 == 1
  }

  /** flags | ISFOUND */
  function WithFound(flags: Int32): (r: Int32)
    ensures Found(r)
  {
    if Found(flags) then flags else flags + ISFOUND
  }

  /** Potions, scrolls and food: each piece counts. */
  predicate IsMult(kind: Int32) {
    kind == POTION || kind == SCROLL || kind == FOOD
  }

  /** What an entry adds to inpack. */
  function Counted(o: Obj): int {
    if IsMult(o.kind) then o.count else 1
  }

  function Weight(s: seq<Obj>): int {
    if s == [] then 0 else Weight(s[..|s| - 1]) + Counted(s[|s| - 1])
  }

  lemma {:induction false} WeightOfParts(a: seq<Obj>, b: seq<Obj>)
    ensures Weight(a + b) == Weight(a) + Weight(b)
  {
    if b == [] {
      assert a + b == a;
    } else {
      var b1 := b[..|b| - 1];
      assert (a + b)[..|a + b| - 1] == a + b1;
      WeightOfParts(a, b1);
    }
  }

  lemma WeightOfOne(o: Obj)
    ensures Weight([o]) == Counted(o)
  {
    assert [o][..0] == [];
  }

  /** An entry of a pack: at least one piece; several pieces that do not count one by one are a group. */
  predicate IsEntry(o: Obj) {
    && o.count >= 1
    && (IsMult(o.kind) ==> o.group == 0)
    && (!IsMult(o.kind) && o.count > 1 ==> o.group != 0)
  }

  predicate SameWhich(a: Obj, b: Obj) {
    a.kind == b.kind && a.which == b.which
  }

  /** The object can be added to the entry: the same thing, and counted singly or of the same group. */
  predicate Joins(a: Obj, b: Obj) {
    SameWhich(a, b) && (IsMult(a.kind) || (b.group != 0 && a.group == b.group))
  }

  /** Entries of a type, and of the same thing, stand together, and none could be joined with another. */
  ghost predicate Ordered(s: seq<Obj>) {
    && (forall i, j, k :: 0 <= i < j < k < |s| && s[i].kind == s[k].kind ==> s[j].kind == s[i].kind)
    && (forall i, j, k :: 0 <= i < j < k < |s| && SameWhich(s[i], s[k]) ==> SameWhich(s[j], s[i]))
    && forall i, j :: 0 <= i < j < |s| ==> !Joins(s[i], s[j])
  }

  function Inserted(s: seq<Obj>, i: int, o: Obj): (r: seq<Obj>)
    requires -1 <= i < |s|
    ensures |r| == |s| + 1
  {
    s[..i + 1] + [o] + s[i + 1..]
  }

  function Removed(s: seq<Obj>, i: nat): (r: seq<Obj>)
    requires i < |s|
    ensures |r| == |s| - 1
  {
    s[..i] + s[i + 1..]
  }

  lemma InParts(s: seq<Obj>, i: int, o: Obj)
    requires -1 <= i < |s|
    ensures s == s[..i + 1] + s[i + 1..] && Inserted(s, i, o) == s[..i + 1] + [o] + s[i + 1..]
  {
  }

  lemma WeightInserted(s: seq<Obj>, i: int, o: Obj)
    requires -1 <= i < |s|
    ensures Weight(Inserted(s, i, o)) == Weight(s) + Counted(o)
  {
    hide Weight, Counted, Inserted;
    InParts(s, i, o);
    WeightOfParts(s[..i + 1], s[i + 1..]);
    WeightOfParts(s[..i + 1] + [o], s[i + 1..]);
    WeightOfParts(s[..i + 1], [o]);
    WeightOfOne(o);
  }

  lemma WeightRemoved(s: seq<Obj>, i: nat)
    requires i < |s|
    ensures Weight(Removed(s, i)) == Weight(s) - Counted(s[i])
  {
    hide Weight, Counted;
    WeightInserted(Removed(s, i), i - 1, s[i]);
    assert Inserted(Removed(s, i), i - 1, s[i]) == s;
  }

  lemma WeightChanged(s: seq<Obj>, i: nat, o: Obj)
    requires i < |s|
    ensures Weight(s[i := o]) == Weight(s) - Counted(s[i]) + Counted(o)
  {
    hide Weight, Counted;
    WeightRemoved(s, i);
    WeightInserted(Removed(s, i), i - 1, o);
    assert Inserted(Removed(s, i), i - 1, o) == s[i := o];
  }

  /** The place for o is behind entry i: at the end when there is none of its type, behind the last of its
      type when there is none of the same thing, and else, for a group, behind the last of the same thing,
      and for a single one behind the first. */
  ghost predicate GoesBehind(s: seq<Obj>, i: int, o: Obj) {
    && 0 <= i < |s| && (forall j :: 0 <= j < |s| ==> !Joins(s[j], o))
    && (|| (i == |s| - 1 && forall j :: 0 <= j < |s| ==> s[j].kind != o.kind)
        || (s[i].kind == o.kind && (forall j :: i < j < |s| ==> s[j].kind != o.kind) && forall j :: 0 <= j < |s| ==> !SameWhich(s[j], o))
        || (SameWhich(s[i], o) && o.group != 0 && forall j :: i < j < |s| ==> !SameWhich(s[j], o))
        || (SameWhich(s[i], o) && o.group == 0 && forall j :: 0 <= j < i ==> !SameWhich(s[j], o)))
  }

  /** There is only one such place. */
  lemma PlaceIsUnique(s: seq<Obj>, i: int, j: int, o: Obj)
    requires GoesBehind(s, i, o) && GoesBehind(s, j, o)
    ensures i == j
  {
  }

  /** Where the entries of the longer sequence come from. */
  lemma InsertedAt(s: seq<Obj>, i: int, o: Obj, j: nat)
    requires -1 <= i < |s| && j <= |s|
    ensures Inserted(s, i, o)[j] == if j <= i then s[j] else if j == i + 1 then o else s[j - 1]
  {
  }

  lemma InsertionKeepsKinds(s: seq<Obj>, i: int, o: Obj, a: nat, b: nat, c: nat)
    requires Ordered(s) && GoesBehind(s, i, o) && a < b < c <= |s|
    requires Inserted(s, i, o)[a].kind == Inserted(s, i, o)[c].kind
    ensures Inserted(s, i, o)[b].kind == Inserted(s, i, o)[a].kind
  {
    InsertedAt(s, i, o, a);
    InsertedAt(s, i, o, b);
    InsertedAt(s, i, o, c);
  }

  lemma InsertionKeepsWhich(s: seq<Obj>, i: int, o: Obj, a: nat, b: nat, c: nat)
    requires Ordered(s) && GoesBehind(s, i, o) && a < b < c <= |s|
    requires SameWhich(Inserted(s, i, o)[a], Inserted(s, i, o)[c])
    ensures SameWhich(Inserted(s, i, o)[b], Inserted(s, i, o)[a])
  {
    InsertedAt(s, i, o, a);
    InsertedAt(s, i, o, b);
    InsertedAt(s, i, o, c);
  }

  /** An entry put in its place keeps the order. */
  lemma InsertionKeepsOrder(s: seq<Obj>, i: int, o: Obj)
    requires Ordered(s) && GoesBehind(s, i, o)
    ensures Ordered(Inserted(s, i, o))
  {
    var r := Inserted(s, i, o);
    forall a, b, c | 0 <= a < b < c < |r| && r[a].kind == r[c].kind
      ensures r[b].kind == r[a].kind
    {
      InsertionKeepsKinds(s, i, o, a, b, c);
    }
    forall a, b, c | 0 <= a < b < c < |r| && SameWhich(r[a], r[c])
      ensures SameWhich(r[b], r[a])
    {
      InsertionKeepsWhich(s, i, o, a, b, c);
    }
    forall a, b | 0 <= a < b < |r|
      ensures !Joins(r[a], r[b])
    {
      InsertedAt(s, i, o, a);
      InsertedAt(s, i, o, b);
    }
  }

  lemma RemovalKeepsOrder(s: seq<Obj>, i: nat)
    requires Ordered(s) && i < |s|
    ensures Ordered(Removed(s, i))
  {
    var r := Removed(s, i);
    forall a, b, c | 0 <= a < b < c < |r|
      ensures r[a].kind == r[c].kind ==> r[b].kind == r[a].kind
      ensures SameWhich(r[a], r[c]) ==> SameWhich(r[b], r[a])
    {
      RemovedAt(s, i, a);
      RemovedAt(s, i, b);
      RemovedAt(s, i, c);
    }
    forall a, b | 0 <= a < b < |r|
      ensures !Joins(r[a], r[b])
    {
      RemovedAt(s, i, a);
      RemovedAt(s, i, b);
    }
  }

  lemma RemovedAt(s: seq<Obj>, i: nat, j: nat)
    requires i < |s| && j < |s| - 1
    ensures Removed(s, i)[j] == s[if j < i then j else j + 1]
  {
  }

  /** Two objects that are the same thing, of the same group. */
  predicate Alike(a: Obj, b: Obj) {
    a.kind == b.kind && a.which == b.which && a.group == b.group
  }

  lemma ChangeKeepsOrder(s: seq<Obj>, i: nat, o: Obj)
    requires Ordered(s) && i < |s| && Alike(s[i], o)
    ensures Ordered(s[i := o])
  {
    var r := s[i := o];
    forall j | 0 <= j < |s|
      ensures Alike(s[j], r[j])
    {
    }
    hide Alike;
    forall a, b, c | 0 <= a < b < c < |r|
      ensures r[a].kind == r[c].kind ==> r[b].kind == r[a].kind
      ensures SameWhich(r[a], r[c]) ==> SameWhich(r[b], r[a])
    {
      StillOrdered(s, r, a, b, c);
    }
    forall a, b | 0 <= a < b < |r|
      ensures !Joins(r[a], r[b])
    {
      StillApart(s, r, a, b);
    }
  }

  lemma StillApart(s: seq<Obj>, r: seq<Obj>, a: nat, b: nat)
    requires Ordered(s) && |r| == |s| && a < b < |r| && Alike(s[a], r[a]) && Alike(s[b], r[b])
    ensures !Joins(r[a], r[b])
  {
  }

  lemma StillOrdered(s: seq<Obj>, r: seq<Obj>, a: nat, b: nat, c: nat)
    requires Ordered(s) && |r| == |s| && a < b < c < |r| && Alike(s[a], r[a]) && Alike(s[b], r[b]) && Alike(s[c], r[c])
    ensures r[a].kind == r[c].kind ==> r[b].kind == r[a].kind
    ensures SameWhich(r[a], r[c]) ==> SameWhich(r[b], r[a])
  {
  }

  /** The place of the entry's letter in the alphabet. */
  function Letter(o: Obj): int {
    o.packch as int - 'a' as int
  }

  predicate Marked(used: seq<bool>, l: int) {
    0 <= l < |used| && used[l]
  }

  /** Letters of different entries differ, and just the used ones are marked. */
  ghost predicate Lettered(s: seq<Obj>, used: seq<bool>) {
    && |used| == LETTERS
    && (forall i :: 0 <= i < |s| ==> Marked(used, Letter(s[i])))
    && (forall i, j :: 0 <= i < j < |s| ==> Letter(s[i]) != Letter(s[j]))
    && forall l :: Marked(used, l) ==> HasLetter(s, l)
  }

  ghost predicate HasLetter(s: seq<Obj>, l: int) {
    exists i :: 0 <= i < |s| && Letter(s[i]) == l
  }

  /** The invariant of a pack. */
  ghost predicate Good(s: seq<Obj>, inpack: int, used: seq<bool>) {
    && inpack == Weight(s) <= MAXPACK
    && Ordered(s) && Lettered(s, used)
    && forall i :: 0 <= i < |s| ==> IsEntry(s[i])
  }

  lemma {:induction false} EntriesWeigh(s: seq<Obj>)
    requires forall i :: 0 <= i < |s| ==> IsEntry(s[i])
    ensures Weight(s) >= |s|
  {
    if s != [] {
      EntriesWeigh(s[..|s| - 1]);
    }
  }

  ghost function LettersOf(s: seq<Obj>): (r: set<int>)
    ensures forall i :: 0 <= i < |s| ==> Letter(s[i]) in r
  {
    if s == [] then {} else LettersOf(s[..|s| - 1]) + {Letter(s[|s| - 1])}
  }

  lemma {:induction false} FewLetters(s: seq<Obj>)
    ensures |LettersOf(s)| <= |s|
  {
    if s != [] {
      FewLetters(s[..|s| - 1]);
    }
  }

  ghost function FirstLetters(n: nat): (r: set<int>)
    ensures forall c :: c in r <==> 0 <= c < n
    ensures |r| == n
  {
    if n == 0 then {} else FirstLetters(n - 1) + {n - 1}
  }

  lemma SubsetSize(a: set<int>, b: set<int>)
    requires a <= b
    ensures |a| <= |b|
  {
    assert b == a + (b - a);
    assert |a + (b - a)| == |a| + |b - a|;
  }

  ghost predicate HasFree(used: seq<bool>) {
    |used| == LETTERS && exists l :: 0 <= l < LETTERS && !used[l]
  }

  /** A pack with fewer entries than letters has a free one. */
  lemma FreeLetter(s: seq<Obj>, used: seq<bool>)
    requires Lettered(s, used) && |s| < LETTERS
    ensures HasFree(used)
  {
    if forall l :: 0 <= l < LETTERS ==> used[l] {
      forall c | c in FirstLetters(LETTERS)
        ensures c in LettersOf(s)
      {
        assert Marked(used, c);
        assert HasLetter(s, c);
      }
      SubsetSize(FirstLetters(LETTERS), LettersOf(s));
      FewLetters(s);
    }
  }

  /** What joining makes of an entry. */
  function JoinedWith(a: Obj, o: Obj): Obj
    requires -0x8000_0000 <= a.count + (if IsMult(a.kind) then 1 else o.count) < 0x8000_0000
  {
    a.(count := a.count + (if IsMult(a.kind) then 1 else o.count), flags := WithFound(a.flags))
  }

  lemma JoinedFacts(a: Obj, o: Obj)
    requires Joins(a, o) && IsEntry(a) && IsEntry(o) && a.count + o.count < 0x8000_0000
    ensures -0x8000_0000 <= a.count + (if IsMult(a.kind) then 1 else o.count) < 0x8000_0000
    ensures var r := JoinedWith(a, o);
      Counted(r) == Counted(a) + (if IsMult(o.kind) then 1 else 0) && IsEntry(r) && Alike(a, r) && r.packch == a.packch
  {
  }

  lemma JoiningKeepsGood(s: seq<Obj>, inpack: int, used: seq<bool>, i: nat, o: Obj)
    requires Good(s, inpack, used) && i < |s| && Joins(s[i], o) && IsEntry(o)
    requires IsEntry(s[i]) && s[i].count + o.count < 0x8000_0000
    requires IsMult(o.kind) ==> inpack < MAXPACK
    ensures Good(s[i := JoinedWith(s[i], o)], if IsMult(o.kind) then inpack + 1 else inpack, used)
  {
    JoinedFacts(s[i], o);
    var r := JoinedWith(s[i], o);
    hide Weight, Ordered, Lettered, IsEntry, Counted, IsMult, JoinedWith, Joins, Alike;
    WeightChanged(s, i, r);
    ChangeKeepsOrder(s, i, r);
    LettersKept(s, used, i, r);
  }

  lemma LettersKept(s: seq<Obj>, used: seq<bool>, i: nat, o: Obj)
    requires Lettered(s, used) && i < |s| && o.packch == s[i].packch
    ensures Lettered(s[i := o], used)
  {
    var r := s[i := o];
    assert Letter(o) == Letter(s[i]);
    hide Letter, Marked;
    forall l | Marked(used, l)
      ensures HasLetter(r, l)
    {
      assert HasLetter(s, l);
      var j :| 0 <= j < |s| && Letter(s[j]) == l;
      assert Letter(r[j]) == l;
    }
  }

  /** The entry as it is put in, with its letter. */
  function Labelled(o: Obj, l: nat): Obj
    requires l < LETTERS
  {
    o.(packch := 'a' as int + l, flags := WithFound(o.flags))
  }

  lemma InsertionKeepsGood(s: seq<Obj>, inpack: int, used: seq<bool>, i: int, o: Obj, l: nat)
    requires Good(s, inpack, used) && (if s == [] then i == -1 else GoesBehind(s, i, o)) && IsEntry(o)
    requires inpack < MAXPACK && l < LETTERS && !used[l] && (IsMult(o.kind) ==> o.count == 1)
    ensures Good(Inserted(s, i, Labelled(o, l)), inpack + 1, used[l := true])
  {
    var q := Labelled(o, l);
    assert Letter(q) == l && !Marked(used, l) && Counted(q) == 1 && Alike(o, q) && IsEntry(q);
    hide Weight, Lettered, Letter, Marked, Labelled, Alike, IsEntry, Inserted, Counted;
    var r := Inserted(s, i, q);
    WeightInserted(s, i, q);
    if s == [] {
      assert |r| == 1;
    } else {
      SamePlace(s, i, o, q);
      InsertionKeepsOrder(s, i, q);
    }
    LettersWithOneMore(s, used, i, q, l);
    forall j | 0 <= j < |r|
      ensures IsEntry(r[j])
    {
      InsertedAt(s, i, q, j);
    }
  }

  lemma SamePlace(s: seq<Obj>, i: int, o: Obj, q: Obj)
    requires GoesBehind(s, i, o) && Alike(o, q)
    ensures GoesBehind(s, i, q)
  {
    forall j | 0 <= j < |s|
      ensures Joins(s[j], q) == Joins(s[j], o) && SameWhich(s[j], q) == SameWhich(s[j], o)
    {
    }
  }

  lemma MarkedMore(used: seq<bool>, l: nat, k: int)
    requires l < |used|
    ensures Marked(used[l := true], k) <==> Marked(used, k) || k == l
  {
  }

  lemma LettersWithOneMore(s: seq<Obj>, used: seq<bool>, i: int, q: Obj, l: nat)
    requires Lettered(s, used) && -1 <= i < |s| && l < LETTERS && !Marked(used, l) && Letter(q) == l
    ensures Lettered(Inserted(s, i, q), used[l := true])
  {
    hide Inserted, Letter, Marked;
    var r, marked := Inserted(s, i, q), used[l := true];
    forall j | 0 <= j < |r|
      ensures Marked(marked, Letter(r[j]))
    {
      InsertedAt(s, i, q, j);
      MarkedMore(used, l, Letter(r[j]));
    }
    forall a, b | 0 <= a < b < |r|
      ensures Letter(r[a]) != Letter(r[b])
    {
      InsertedAt(s, i, q, a);
      InsertedAt(s, i, q, b);
    }
    forall k | Marked(marked, k)
      ensures HasLetter(r, k)
    {
      MarkedMore(used, l, k);
      LetterInside(s, i, q, k);
    }
  }

  lemma LetterInside(s: seq<Obj>, i: int, q: Obj, k: int)
    requires -1 <= i < |s| && (HasLetter(s, k) || Letter(q) == k)
    ensures HasLetter(Inserted(s, i, q), k)
  {
    hide Inserted, Letter;
    var r := Inserted(s, i, q);
    if Letter(q) == k {
      InsertedAt(s, i, q, i + 1);
      assert Letter(r[i + 1]) == k;
    } else {
      var j :| 0 <= j < |s| && Letter(s[j]) == k;
      var j1 := if j <= i then j else j + 1;
      InsertedAt(s, i, q, j1);
      assert Letter(r[j1]) == k;
    }
  }

  lemma RemovalKeepsGood(s: seq<Obj>, inpack: int, used: seq<bool>, i: nat)
    requires Good(s, inpack, used) && i < |s| && Counted(s[i]) == 1 && Marked(used, Letter(s[i]))
    ensures Good(Removed(s, i), inpack - 1, used[Letter(s[i]) := false])
  {
    WeightRemoved(s, i);
    RemovalKeepsOrder(s, i);
    LettersWithOneLess(s, used, i);
    var r := Removed(s, i);
    forall j | 0 <= j < |r|
      ensures IsEntry(r[j])
    {
      RemovedAt(s, i, j);
    }
  }

  lemma LettersWithOneLess(s: seq<Obj>, used: seq<bool>, i: nat)
    requires Lettered(s, used) && i < |s| && Marked(used, Letter(s[i]))
    ensures Lettered(Removed(s, i), used[Letter(s[i]) := false])
  {
    var r, l := Removed(s, i), Letter(s[i]);
    var marked := used[l := false];
    forall j | 0 <= j < |r|
      ensures r[j] == s[if j < i then j else j + 1]
    {
    }
    forall k
      ensures Marked(marked, k) <==> Marked(used, k) && k != l
    {
    }
    hide Removed, Letter, Marked;
    forall k | Marked(marked, k)
      ensures HasLetter(r, k)
    {
      assert HasLetter(s, k);
      var j :| 0 <= j < |s| && Letter(s[j]) == k;
      assert r[if j < i then j else j - 1] == s[j];
    }
  }

  /** One piece taken from an entry of several. */
  lemma TakingKeepsGood(s: seq<Obj>, inpack: int, used: seq<bool>, i: nat)
    requires Good(s, inpack, used) && i < |s| && s[i].count > 1
    ensures Good(s[i := s[i].(count := s[i].count - 1)], if s[i].group != 0 then inpack else inpack - 1, used)
  {
    var r := s[i].(count := s[i].count - 1);
    assert IsEntry(s[i]);
    assert Counted(r) == Counted(s[i]) - (if s[i].group != 0 then 0 else 1) && IsEntry(r) && Alike(s[i], r);
    hide Weight, Ordered, Lettered, IsEntry, Counted;
    WeightChanged(s, i, r);
    ChangeKeepsOrder(s, i, r);
    LettersKept(s, used, i, r);
  }

  lemma GoodHasFree(s: seq<Obj>, inpack: int, used: seq<bool>)
    requires Good(s, inpack, used)
    ensures |s| <= inpack <= MAXPACK && HasFree(used)
  {
    hide Ordered, Lettered;
    EntriesWeigh(s);
    FreeLetter(s, used);
  }

  /** The first letter no entry of s has. */
  ghost predicate FirstFree(s: seq<Obj>, l: nat) {
    l < LETTERS && !HasLetter(s, l) && forall k :: 0 <= k < l ==> HasLetter(s, k)
  }

  /** t is s with o put in behind entry i, under the first free letter. */
  ghost predicate InsertedInto(s: seq<Obj>, t: seq<Obj>, i: int, o: Obj)
    requires -1 <= i < |s|
  {
    exists l: nat :: FirstFree(s, l) && t == Inserted(s, i, Labelled(o, l))
  }

  lemma UnusedLetter(s: seq<Obj>, inpack: int, used: seq<bool>, l: nat)
    requires Good(s, inpack, used) && l < LETTERS && !used[l] && forall k :: 0 <= k < l ==> used[k]
    ensures FirstFree(s, l)
  {
    forall k | 0 <= k < l
      ensures HasLetter(s, k)
    {
      assert Marked(used, k);
    }
  }

  lemma OneFirstFree(s: seq<Obj>, l: nat, m: nat)
    requires FirstFree(s, l) && FirstFree(s, m)
    ensures l == m
  {
  }

  /** t is s with o joined to entry i. */
  ghost predicate JoinedInto(s: seq<Obj>, t: seq<Obj>, i: nat, o: Obj) {
    && i < |s| && Joins(s[i], o)
    && -0x8000_0000 <= s[i].count + (if IsMult(s[i].kind) then 1 else o.count) < 0x8000_0000
    && t == s[i := JoinedWith(s[i], o)]
  }

  ghost predicate NoneJoins(s: seq<Obj>, o: Obj) {
    forall j :: 0 <= j < |s| ==> !Joins(s[j], o)
  }

  /** t is s with o added: to the entry it joins, or if there is none as an entry of its own in its place. */
  ghost predicate Added(s: seq<Obj>, t: seq<Obj>, o: Obj) {
    if NoneJoins(s, o) then exists i :: PutInto(s, t, i, o)
    else exists i: nat :: JoinedInto(s, t, i, o)
  }

  ghost predicate PutInto(s: seq<Obj>, t: seq<Obj>, i: int, o: Obj) {
    -1 <= i < |s| && (if s == [] then i == -1 else GoesBehind(s, i, o)) && InsertedInto(s, t, i, o)
  }

  /** Adding is determined: the entry joined, or the place and the letter. */
  lemma AddedIsUnique(s: seq<Obj>, t: seq<Obj>, t1: seq<Obj>, o: Obj)
    requires Ordered(s) && Added(s, t, o) && Added(s, t1, o)
    ensures t == t1
  {
    hide Ordered, GoesBehind, HasLetter, Joins, JoinedWith;
    if NoneJoins(s, o) {
      var i :| PutInto(s, t, i, o);
      var j :| PutInto(s, t1, j, o);
      if s != [] {
        PlaceIsUnique(s, i, j, o);
      }
      var l: nat :| FirstFree(s, l) && t == Inserted(s, i, Labelled(o, l));
      var m: nat :| FirstFree(s, m) && t1 == Inserted(s, j, Labelled(o, m));
      OneFirstFree(s, l, m);
    } else {
      var i: nat :| JoinedInto(s, t, i, o);
      var j: nat :| JoinedInto(s, t1, j, o);
      JoinsOnlyOne(s, i, j, o);
    }
  }

  /** A piece taken from an entry of several and put back leaves the pack as it was, but for ISFOUND. */
  lemma TakenAndPutBack(s: seq<Obj>, inpack: int, used: seq<bool>, i: nat, t: seq<Obj>)
    requires Good(s, inpack, used) && i < |s| && s[i].count > 1
    requires Added(s[i := s[i].(count := s[i].count - 1)], t, s[i].(count := 1))
    ensures t == s[i := s[i].(flags := WithFound(s[i].flags))]
  {
    var less, piece := s[i].(count := s[i].count - 1), s[i].(count := 1);
    var s1 := s[i := less];
    EntryFacts(s, inpack, used, i);
    GoodIsOrdered(s, inpack, used);
    PieceFacts(s[i]);
    hide Good, Ordered, Joins, JoinedWith, WithFound, IsEntry, Alike, IsMult, Letter, Marked;
    ChangeKeepsOrder(s, i, less);
    assert !NoneJoins(s1, piece) by {
      assert Joins(s1[i], piece);
    }
    var j: nat :| JoinedInto(s1, t, j, piece);
    JoinsOnlyOne(s1, i, j, piece);
  }

  lemma PieceFacts(a: Obj)
    requires IsEntry(a) && a.count > 1
    ensures var less, piece := a.(count := a.count - 1), a.(count := 1);
      Joins(less, piece) && Alike(a, less) && JoinedWith(less, piece) == a.(flags := WithFound(a.flags))
  {
  }

  /** An object joins at most one entry. */
  lemma JoinsOnlyOne(s: seq<Obj>, i: nat, j: nat, o: Obj)
    requires Ordered(s) && i < |s| && j < |s| && Joins(s[i], o) && Joins(s[j], o)
    ensures i == j
  {
    if i < j {
      assert Joins(s[i], s[j]);
    } else if j < i {
      assert Joins(s[j], s[i]);
    }
  }

  lemma EmptyGood(inpack: int, used: seq<bool>)
    requires Good([], inpack, used)
    ensures inpack == 0
  {
  }

  lemma GoodIsOrdered(s: seq<Obj>, inpack: int, used: seq<bool>)
    requires Good(s, inpack, used)
    ensures Ordered(s) && inpack <= MAXPACK
  {
  }

  lemma NothingJoins(s: seq<Obj>, i: int, o: Obj)
    requires GoesBehind(s, i, o)
    ensures NoneJoins(s, o)
  {
  }

  lemma IsPut(s: seq<Obj>, t: seq<Obj>, i: int, o: Obj)
    requires 0 <= i < |s| && GoesBehind(s, i, o) && InsertedInto(s, t, i, o)
    ensures PutInto(s, t, i, o)
  {
  }

  lemma OneJoins(s: seq<Obj>, t: seq<Obj>, i: nat, o: Obj)
    requires JoinedInto(s, t, i, o)
    ensures !NoneJoins(s, o)
  {
    assert Joins(s[i], o);
  }

  lemma EntryFacts(s: seq<Obj>, inpack: int, used: seq<bool>, i: nat)
    requires Good(s, inpack, used) && i < |s|
    ensures IsEntry(s[i]) && Marked(used, Letter(s[i])) && |used| == LETTERS
  {
  }

  lemma CountsOne(o: Obj, all: bool)
    requires IsEntry(o) && !(o.count > 1 && !all) && (all && IsMult(o.kind) ==> o.count == 1)
    ensures Counted(o) == 1
  {
  }

  /** Taking a whole entry out takes one off the count, just when it is not several pieces that count. */
  lemma WholeEntryCountsOne(s: seq<Obj>, i: nat)
    requires i < |s| && IsEntry(s[i])
    ensures Weight(Removed(s, i)) == Weight(s) - 1 <==> !(IsMult(s[i].kind) && s[i].count > 1)
  {
    WeightRemoved(s, i);
  }
}
