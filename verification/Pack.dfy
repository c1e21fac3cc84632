/**
  The hero's pack: a linked list with its letters and its count, kept by add_pack and leave_pack.
 */
module Pack {
  import opened HostBytes
  import opened SaveCodec
  import opened SavedLists
  import opened PackContents

  const S_SCARE: Int32 := 10
  function Without(nodes: seq<Thing>, i: nat): (r: seq<Thing>)
    requires i < |nodes|
    ensures |r| == |nodes| - 1
  {
    nodes[..i] + nodes[i + 1..]
  }

  function With(nodes: seq<Thing>, i: nat, item: Thing): (r: seq<Thing>)
    requires i < |nodes|
    ensures |r| == |nodes| + 1
  {
    nodes[..i + 1] + [item] + nodes[i + 1..]
  }

  ghost predicate Distinct(nodes: seq<Thing>) {
    forall i, j :: 0 <= i < j < |nodes| ==> nodes[i] != nodes[j]
  }

  /** Node j points to its neighbours, or past node i to the next but one. */
  ghost predicate BridgedAt(nodes: seq<Thing>, i: nat, j: nat)
    requires j < |nodes|
    reads nodes[j]
  {
    && nodes[j].next == NodeAt(nodes, if j + 1 == i then j + 2 else j + 1)
    && nodes[j].prev == NodeAt(nodes, if j - 1 == i then j - 2 else j - 1)
  }

  lemma NodeAtWithout(nodes: seq<Thing>, i: nat, k: int)
    requires i < |nodes|
    ensures NodeAt(Without(nodes, i), k) == NodeAt(nodes, if k < i then k else k + 1)
  {
  }

  lemma StillPoints(nodes: seq<Thing>, i: nat, j: nat)
    requires i < |nodes| && j < |nodes| - 1
    requires BridgedAt(nodes, i, if j < i then j else j + 1)
    ensures Without(nodes, i)[j].next == NodeAt(Without(nodes, i), j + 1)
    ensures Without(nodes, i)[j].prev == NodeAt(Without(nodes, i), j - 1)
  {
    NodeAtWithout(nodes, i, j + 1);
    NodeAtWithout(nodes, i, j - 1);
    hide NodeAt;
  }

  /** A list whose node i has been bridged over is a list without it. */
  lemma BridgedOver(head: Thing?, nodes: seq<Thing>, i: nat)
    requires i < |nodes| && Distinct(nodes) && head == (if i == 0 then NodeAt(nodes, 1) else nodes[0])
    requires forall j :: 0 <= j < |nodes| && j != i ==> BridgedAt(nodes, i, j)
    ensures Chain(head, Without(nodes, i))
  {
    var r := Without(nodes, i);
    NodeAtWithout(nodes, i, 0);
    hide NodeAt, BridgedAt;
    forall j | 0 <= j < |r|
      ensures r[j].next == NodeAt(r, j + 1) && r[j].prev == NodeAt(r, j - 1)
    {
      StillPoints(nodes, i, j);
    }
  }

  /** The pointers that change when an item is taken out. */
  method Unlink(item: Thing, ghost all: set<Thing>)
    requires item in all && item.prev != item && item.next != item
    requires (item.prev != null ==> item.prev in all) && (item.next != null ==> item.next in all)
    modifies all`next, all`prev
    ensures item.next == null && item.prev == null
    ensures forall t :: t in all && t != item ==> t.next == (if t == old(item.prev) then old(item.next) else old(t.next))
    ensures forall t :: t in all && t != item ==> t.prev == (if t == old(item.next) then old(item.prev) else old(t.prev))
  {
    if item.prev != null {
      item.prev.next := item.next;
    }
    if item.next != null {
      item.next.prev := item.prev;
    }
    item.next := null;
    item.prev := null;
  }

  lemma NodeIs(nodes: seq<Thing>, k: int)
    ensures NodeAt(nodes, k) == if 0 <= k < |nodes| then nodes[k] else null
  {
  }

  /** _detach: take a node out of a list. */
  method Detach(head: Thing?, item: Thing, ghost nodes: seq<Thing>, ghost i: nat) returns (head1: Thing?)
    requires Chain(head, nodes) && i < |nodes| && nodes[i] == item
    modifies NodesOf(nodes)`next, NodesOf(nodes)`prev
    ensures Chain(head1, Without(nodes, i)) && item.next == null && item.prev == null
  {
    forall j | 0 <= j < |nodes|
      ensures nodes[j] in NodesOf(nodes)
    {
    }
    NodeIs(nodes, 0);
    NodeIs(nodes, i - 1);
    NodeIs(nodes, i + 1);
    hide NodeAt;
    head1 := head;
    if head == item {
      head1 := item.next;
    }
    ghost var before, after := item.prev, item.next;
    assert before == NodeAt(nodes, i - 1) && after == NodeAt(nodes, i + 1);
    Unlink(item, NodesOf(nodes));
    hide NodesOf;
    forall j | 0 <= j < |nodes| && j != i
      ensures BridgedAt(nodes, i, j)
    {
      assert old(nodes[j].next == NodeAt(nodes, j + 1) && nodes[j].prev == NodeAt(nodes, j - 1));
      assert nodes[j] == before <==> j + 1 == i;
      assert nodes[j] == after <==> j - 1 == i;
    }
    hide Chain, BridgedAt, Without;
    BridgedOver(head1, nodes, i);
  }

  /** Node j points to its neighbours, or to the item between nodes i and i + 1. */
  ghost predicate JoinedAt(nodes: seq<Thing>, i: nat, item: Thing, j: nat)
    requires j < |nodes|
    reads nodes[j]
  {
    && nodes[j].next == (if j == i then item else NodeAt(nodes, j + 1))
    && nodes[j].prev == (if j == i + 1 then item else NodeAt(nodes, j - 1))
  }

  lemma NodeAtWith(nodes: seq<Thing>, i: nat, item: Thing, k: int)
    requires i < |nodes|
    ensures NodeAt(With(nodes, i, item), k) == if k <= i then NodeAt(nodes, k) else if k == i + 1 then item else NodeAt(nodes, k - 1)
  {
  }

  /** A list with an item linked in behind node i. */
  lemma BridgedIn(head: Thing?, nodes: seq<Thing>, i: nat, item: Thing)
    requires i < |nodes| && Distinct(nodes) && item !in nodes && head == nodes[0]
    requires forall j :: 0 <= j < |nodes| ==> JoinedAt(nodes, i, item, j)
    requires item.next == NodeAt(nodes, i + 1) && item.prev == nodes[i]
    ensures Chain(head, With(nodes, i, item))
  {
    var r := With(nodes, i, item);
    NodeAtWith(nodes, i, item, 0);
    forall j | 0 <= j < |r|
      ensures r[j].next == NodeAt(r, j + 1) && r[j].prev == NodeAt(r, j - 1)
    {
      NodeAtWith(nodes, i, item, j + 1);
      NodeAtWith(nodes, i, item, j - 1);
      assert r[j] == if j <= i then nodes[j] else if j == i + 1 then item else nodes[j - 1];
      if j != i + 1 {
        assert JoinedAt(nodes, i, item, if j <= i then j else j - 1);
      }
    }
  }

  /** The four pointers that change when an item is linked in behind lp. */
  method LinkBehind(lp: Thing, item: Thing, ghost all: set<Thing>)
    requires lp in all && item !in all && (lp.next != null ==> lp.next in all)
    modifies item`next, item`prev, all`next, all`prev
    ensures item.next == old(lp.next) && item.prev == lp
    ensures forall t :: t in all ==> t.next == (if t == lp then item else old(t.next))
    ensures forall t :: t in all ==> t.prev == (if t == old(lp.next) then item else old(t.prev))
  {
    item.next := lp.next;
    item.prev := lp;
    if lp.next != null {
      lp.next.prev := item;
    }
    lp.next := item;
  }

  /** Link an object behind a node of a list. */
  method InsertBehind(head: Thing?, lp: Thing, item: Thing, ghost nodes: seq<Thing>, ghost i: nat)
    requires Chain(head, nodes) && i < |nodes| && nodes[i] == lp && item !in nodes
    modifies item`next, item`prev, NodesOf(nodes)`next, NodesOf(nodes)`prev
    ensures Chain(head, With(nodes, i, item))
  {
    forall j | 0 <= j < |nodes|
      ensures nodes[j] in NodesOf(nodes)
    {
    }
    NodeIs(nodes, 0);
    NodeIs(nodes, i + 1);
    hide NodeAt;
    LinkBehind(lp, item, NodesOf(nodes));
    hide NodesOf;
    forall j | 0 <= j < |nodes|
      ensures JoinedAt(nodes, i, item, j)
    {
      assert old(nodes[j].next == NodeAt(nodes, j + 1) && nodes[j].prev == NodeAt(nodes, j - 1));
    }
    hide Chain, JoinedAt, With;
    BridgedIn(head, nodes, i, item);
  }

  /** Behind the last of the type: what the search has seen when it leaves the type without the thing. */
  lemma EndOfKind(s: seq<Obj>, first: nat, i: nat, o: Obj)
    requires Ordered(s) && first <= i < |s| && s[first].kind == o.kind && s[i].kind == o.kind
    requires forall j :: 0 <= j < first ==> s[j].kind != o.kind
    requires forall j :: first <= j <= i ==> !SameWhich(s[j], o)
    requires i + 1 < |s| ==> s[i + 1].kind != o.kind
    ensures GoesBehind(s, i, o)
  {
    forall j | i < j < |s|
      ensures s[j].kind != o.kind
    {
      if j > i + 1 {
        assert s[i + 1].kind == s[i].kind || s[j].kind != s[i].kind;
      }
    }
    forall j | 0 <= j < |s|
      ensures !SameWhich(s[j], o)
    {
    }
  }

  /** Behind the last of the same thing for a group, behind the first for a single one. */
  lemma SameThing(s: seq<Obj>, first: nat, i: nat, o: Obj)
    requires Ordered(s) && first <= i < |s| && SameWhich(s[first], o) && SameWhich(s[i], o) && !IsMult(o.kind)
    requires forall j :: 0 <= j < first ==> !SameWhich(s[j], o)
    requires o.group != 0 ==> (forall j :: first <= j <= i ==> s[j].group != o.group) && (i + 1 < |s| ==> !SameWhich(s[i + 1], o))
    requires o.group == 0 ==> i == first
    ensures GoesBehind(s, i, o)
  {
    forall j | i < j < |s| && o.group != 0
      ensures !SameWhich(s[j], o)
    {
      if j > i + 1 {
        var a, b, c := s[i], s[i + 1], s[j];
        assert SameWhich(a, c) ==> SameWhich(b, a);
      }
    }
  }

  /** The walk from the first entry of the type: on to the same thing, and on to the same group. */
  method FindInKind(head: Thing, first: Thing, o: Obj, ghost nodes: seq<Thing>, ghost n: nat)
    returns (join: Thing?, lp: Thing?, ghost i: nat)
    requires Chain(head, nodes) && n < |nodes| && first == nodes[n] && Ordered(ObjectsOf(nodes))
    requires first.obj.kind == o.kind && forall j :: 0 <= j < n ==> nodes[j].obj.kind != o.kind
    requires IsMult(o.kind) ==> o.group == 0
    ensures i < |nodes| && (join != null <==> lp == null)
    ensures join != null ==> join == nodes[i] && Joins(join.obj, o)
    ensures lp != null ==> lp == nodes[i] && GoesBehind(ObjectsOf(nodes), i, o)
  {
    hide Chain, NodeAt, GoesBehind, Ordered, ObjectsOf;
    ghost var s := ObjectsOf(nodes);
    join, lp, i := null, null, n;
    var op := first;
    while op.obj.kind == o.kind && op.obj.which != o.which
      invariant n <= i < |nodes| && op == nodes[i]
      invariant forall j :: n <= j < i ==> s[j].kind == o.kind && s[j].which != o.which
      invariant lp == if i == n then null else nodes[i - 1]
      decreases |nodes| - i
    {
      NextNode(head, nodes, i);
      lp := op;
      if op.next == null {
        break;
      }
      op := op.next;
      i := i + 1;
    }
    if op.obj.kind == o.kind && op.obj.which == o.which {
      if IsMult(op.obj.kind) {
        join, lp := op, null;
      } else if o.group != 0 {
        join, lp, i := FindGroup(head, op, o, nodes, i);
      } else {
        lp := op;
        SameThing(s, i, i, o);
      }
    } else {
      if op.obj.kind != o.kind {
        i := i - 1;
      }
      EndOfKind(s, n, i, o);
    }
  }

  lemma NextNode(head: Thing?, nodes: seq<Thing>, i: nat)
    requires Chain(head, nodes) && i < |nodes|
    ensures if i + 1 < |nodes| then nodes[i].next == nodes[i + 1] else nodes[i].next == null
  {
  }

  /** The walk from the first of the same thing to the same group. */
  method FindGroup(head: Thing, first: Thing, o: Obj, ghost nodes: seq<Thing>, ghost n: nat)
    returns (join: Thing?, lp: Thing?, ghost i: nat)
    requires Chain(head, nodes) && n < |nodes| && first == nodes[n] && Ordered(ObjectsOf(nodes))
    requires SameWhich(first.obj, o) && forall j :: 0 <= j < n ==> !SameWhich(nodes[j].obj, o)
    requires o.group != 0 && !IsMult(o.kind)
    ensures i < |nodes| && (join != null <==> lp == null)
    ensures join != null ==> join == nodes[i] && Joins(join.obj, o)
    ensures lp != null ==> lp == nodes[i] && GoesBehind(ObjectsOf(nodes), i, o)
  {
    hide Chain, NodeAt, GoesBehind, Ordered, ObjectsOf;
    ghost var s := ObjectsOf(nodes);
    join, lp, i := null, first, n;
    var op := first;
    while op.obj.kind == o.kind && op.obj.which == o.which && op.obj.group != o.group
      invariant n <= i < |nodes| && op == nodes[i]
      invariant forall j :: n <= j < i ==> SameWhich(s[j], o) && s[j].group != o.group
      invariant lp == if i == n then first else nodes[i - 1]
      decreases |nodes| - i
    {
      NextNode(head, nodes, i);
      lp := op;
      if op.next == null {
        break;
      }
      op := op.next;
      i := i + 1;
    }
    if op.obj.kind == o.kind && op.obj.which == o.which && op.obj.group == o.group {
      join, lp := op, null;
    } else {
      if !SameWhich(op.obj, o) {
        i := i - 1;
      }
      SameThing(s, n, i, o);
    }
  }

  /** The first entry of the type, or else the last entry. */
  method FirstOfKind(head: Thing, kind: Int32, ghost nodes: seq<Thing>) returns (op: Thing?, lp: Thing?, ghost n: nat)
    requires Chain(head, nodes)
    ensures n <= |nodes| && forall j :: 0 <= j < n ==> nodes[j].obj.kind != kind
    ensures if n < |nodes| then op == nodes[n] && nodes[n].obj.kind == kind else op == null
    ensures lp == if n == 0 then null else nodes[n - 1]
  {
    AtHead(head, nodes);
    hide Chain, NodeAt;
    op, lp, n := head, null, 0;
    while op != null
      invariant 0 <= n <= |nodes| && op == NodeAt(nodes, n)
      invariant lp == if n == 0 then null else nodes[n - 1]
      invariant forall j :: 0 <= j < n ==> nodes[j].obj.kind != kind
      decreases |nodes| - n
    {
      AtNode(head, nodes, n, op);
      if op.obj.kind == kind {
        return;
      }
      lp := op;
      op := op.next;
      n := n + 1;
    }
    AtNode(head, nodes, n, op);
  }

  /** The walk of add_pack along a pack that is not empty: the entry to join, or else the one to go behind. */
  method FindSlot(head: Thing, o: Obj, ghost nodes: seq<Thing>) returns (join: Thing?, lp: Thing?, ghost i: nat)
    requires Chain(head, nodes) && Ordered(ObjectsOf(nodes))
    requires IsMult(o.kind) ==> o.group == 0
    ensures i < |nodes| && (join != null <==> lp == null)
    ensures join != null ==> join == nodes[i] && Joins(join.obj, o)
    ensures lp != null ==> lp == nodes[i] && GoesBehind(ObjectsOf(nodes), i, o)
  {
    HasFirst(head, nodes);
    hide Chain, NodeAt, GoesBehind, Ordered, ObjectsOf;
    join := null;
    var op;
    op, lp, i := FirstOfKind(head, o.kind, nodes);
    if op != null {
      join, lp, i := FindInKind(head, op, o, nodes, i);
    } else {
      i := i - 1;
      NoneOfKind(ObjectsOf(nodes), o);
    }
  }

  lemma HasFirst(head: Thing, nodes: seq<Thing>)
    requires Chain(head, nodes)
    ensures |nodes| > 0
  {
  }

  lemma NoneOfKind(s: seq<Obj>, o: Obj)
    requires |s| > 0 && forall j :: 0 <= j < |s| ==> s[j].kind != o.kind
    ensures GoesBehind(s, |s| - 1, o)
  {
  }

  /** The contents after a node's object has changed, and with a node more or less. */
  lemma ContentsWith(nodes: seq<Thing>, i: nat, item: Thing)
    requires i < |nodes|
    ensures ObjectsOf(With(nodes, i, item)) == Inserted(ObjectsOf(nodes), i, item.obj)
  {
    hide ObjectsOf;
    var r := With(nodes, i, item);
    forall j | 0 <= j < |r|
      ensures ObjectsOf(r)[j] == Inserted(ObjectsOf(nodes), i, item.obj)[j]
    {
      assert r[j] == if j <= i then nodes[j] else if j == i + 1 then item else nodes[j - 1];
    }
  }

  lemma ContentsWithout(nodes: seq<Thing>, i: nat)
    requires i < |nodes|
    ensures ObjectsOf(Without(nodes, i)) == Removed(ObjectsOf(nodes), i)
  {
    hide ObjectsOf;
    var r := Without(nodes, i);
    forall j | 0 <= j < |r|
      ensures ObjectsOf(r)[j] == Removed(ObjectsOf(nodes), i)[j]
    {
      assert r[j] == nodes[if j < i then j else j + 1];
    }
  }

  lemma AllIn(nodes: seq<Thing>)
    ensures forall t :: t in nodes ==> t in NodesOf(nodes)
  {
  }

  lemma OneMore(nodes: seq<Thing>, i: nat, item: Thing)
    requires i < |nodes|
    ensures NodesOf(With(nodes, i, item)) == NodesOf(nodes) + {item}
  {
    var r := With(nodes, i, item);
    forall t | t in nodes
      ensures t in r
    {
      var j :| 0 <= j < |nodes| && nodes[j] == t;
      assert r[if j <= i then j else j + 1] == t;
    }
    assert r[i + 1] == item;
  }

  lemma LessOne(head: Thing?, nodes: seq<Thing>, k: nat)
    requires Chain(head, nodes) && k < |nodes|
    ensures NodesOf(Without(nodes, k)) <= NodesOf(nodes) && nodes[k] !in NodesOf(Without(nodes, k))
  {
    var r := Without(nodes, k);
    forall j | 0 <= j < |r|
      ensures r[j] in nodes && r[j] != nodes[k]
    {
      assert r[j] == nodes[if j < k then j else j + 1];
    }
  }

  /** A scare monster scroll that was picked up before. */
  predicate IsSpent(o: Obj) {
    o.kind == SCROLL && o.which == S_SCARE && Found(o.flags)
  }

  class HeroPack {
    var head: Thing?
    var inpack: int
    const used: array<bool>
    var lvlObj: Thing?
    var lastPick: Thing?
    ghost var nodes: seq<Thing>
    ghost var floor: seq<Thing>

    /** An empty pack, and the objects on the level. */
    constructor (lvlObj: Thing?, ghost floor: seq<Thing>)
      requires Chain(lvlObj, floor)
      ensures Valid() && fresh(used) && nodes == [] && this.floor == floor && this.lvlObj == lvlObj && inpack == 0
    {
      head, inpack, this.lvlObj, lastPick, nodes, this.floor := null, 0, lvlObj, null, [], floor;
      used := new bool[LETTERS](_ => false);
      new;
      EmptyChain();
    }

    ghost function Contents(): seq<Obj>
      reads this`nodes, nodes`obj
    {
      ObjectsOf(nodes)
    }

    /** The pack and the floor are separate lists. */
    ghost predicate Lists()
      reads this`head, this`lvlObj, this`nodes, this`floor, nodes`next, nodes`prev, floor`next, floor`prev
    {
      Chain(head, nodes) && Chain(lvlObj, floor) && NodesOf(nodes) !! NodesOf(floor)
    }

    ghost predicate Valid()
      reads this, used, nodes`next, nodes`prev, nodes`obj, floor`next, floor`prev
    {
      && Lists()
      && used.Length == LETTERS && Good(Contents(), inpack, used[..])
    }

    /** pack_char: the first free letter. */
    method PackChar() returns (l: nat)
      requires HasFree(used[..])
      modifies used
      ensures l < LETTERS && !old(used[..])[l] && forall k :: 0 <= k < l ==> old(used[..])[k]
      ensures used[..] == old(used[..])[l := true]
    {
      ghost var k :| 0 <= k < LETTERS && !used[..][k];
      assert !used[k];
      l := 0;
      while used[l]
        invariant l <= k && forall j :: 0 <= j < l ==> used[j]
        decreases k - l
      {
        l := l + 1;
      }
      used[l] := true;
    }

    /** detach(lvl_obj, obj) */
    method TakeOffFloor(obj: Thing, ghost k: nat)
      requires Lists() && k < |floor| && floor[k] == obj
      modifies this`lvlObj, this`floor, NodesOf(floor)`next, NodesOf(floor)`prev
      ensures Lists() && floor == Without(old(floor), k)
      ensures obj.next == null && obj.prev == null && obj !in NodesOf(floor)
    {
      hide Chain, NodesOf, Without;
      LessOne(lvlObj, floor, k);
      AllIn(nodes);
      lvlObj := Detach(lvlObj, obj, floor, k);
      floor := Without(floor, k);
      assert Chain(head, nodes);
      assert NodesOf(nodes) !! NodesOf(floor);
    }

    /** pack_room: one more in the pack, taken off the floor if it lies there; refused when full. */
    method PackRoom(fromFloor: bool, obj: Thing, ghost k: nat) returns (ok: bool)
      requires Lists() && inpack <= MAXPACK
      requires fromFloor ==> k < |floor| && floor[k] == obj
      modifies this`inpack, this`lvlObj, this`floor, NodesOf(floor)`next, NodesOf(floor)`prev
      ensures ok <==> old(inpack) < MAXPACK
      ensures inpack == if ok then old(inpack) + 1 else MAXPACK
      ensures Lists()
      ensures floor == if ok && fromFloor then Without(old(floor), k) else old(floor)
      ensures ok && fromFloor ==> obj.next == null && obj.prev == null && obj !in NodesOf(floor)
    {
      hide Lists, NodesOf;
      inpack := inpack + 1;
      if inpack > MAXPACK {
        inpack := MAXPACK;
        return false;
      }
      if fromFloor {
        TakeOffFloor(obj, k);
      }
      return true;
    }

    /** The object can come into the pack: an entry of its own; what counts by the piece comes singly; a
        group it joins does not grow past an int. */
    ghost predicate Arrives(o: Obj)
      reads this, nodes`obj
    {
      && IsEntry(o) && (IsMult(o.kind) ==> o.count == 1)
      && forall j :: 0 <= j < |nodes| && Joins(nodes[j].obj, o) ==> nodes[j].obj.count + o.count < 0x8000_0000
    }

    lemma ArrivesUngrouped(o: Obj)
      requires Arrives(o)
      ensures IsMult(o.kind) ==> o.group == 0
    {
    }

    /** Add the object to an entry it joins. What counts by the piece needs room; a group does not. */
    method JoinEntry(op: Thing, obj: Thing, fromFloor: bool, ghost i: nat, ghost k: nat) returns (ok: bool)
      requires Valid() && Arrives(obj.obj) && i < |nodes| && nodes[i] == op && op != obj && Joins(op.obj, obj.obj)
      requires fromFloor ==> k < |floor| && floor[k] == obj
      modifies this`inpack, this`lvlObj, this`floor, op`obj, NodesOf(floor)`next, NodesOf(floor)`prev
      ensures Valid() && ok == !(IsMult(obj.obj.kind) && old(inpack) == MAXPACK)
      ensures if ok then JoinedInto(old(Contents()), Contents(), i, old(obj.obj)) else Contents() == old(Contents())
      ensures floor == if ok && fromFloor then Without(old(floor), k) else old(floor)
    {
      hide Good, Chain, ObjectsOf, NodesOf, Without, WithFound, JoinedWith, IsEntry;
      ghost var s, o, u := Contents(), obj.obj, used[..];
      var kind := op.obj.kind;
      JoinFits(s, inpack, used[..], i, o);
      AllDistinct(head, nodes);
      hide Lists, Arrives, Joins;
      if IsMult(kind) {
        ok := PackRoom(fromFloor, obj, k);
        if !ok {
          assert Contents() == s;
          return;
        }
        Enlarge(op, obj);
      } else {
        Enlarge(op, obj);
        inpack := inpack - 1;
        ok := PackRoom(fromFloor, obj, k);
      }
      OneChanged(nodes, s, i);
      assert Contents() == s[i := JoinedWith(s[i], o)];
      assert used[..] == u;
      assert Good(Contents(), inpack, u);
      assert Lists();
    }

    /** Link a labelled object in behind lp. */
    method LinkEntry(lp: Thing, obj: Thing, ghost i: nat)
      requires Lists() && i < |nodes| && nodes[i] == lp && obj !in NodesOf(nodes) && obj !in NodesOf(floor)
      modifies this`nodes, obj`next, obj`prev, NodesOf(nodes)`next, NodesOf(nodes)`prev
      ensures Lists() && nodes == With(old(nodes), i, obj)
    {
      hide Chain, NodesOf, With;
      AllIn(nodes);
      AllIn(floor);
      OneMore(nodes, i, obj);
      InsertBehind(head, lp, obj, nodes, i);
      nodes := With(nodes, i, obj);
      assert Chain(lvlObj, floor);
    }

    /** Label the object and link it in behind lp. */
    method InsertEntry(lp: Thing, obj: Thing, fromFloor: bool, ghost i: nat, ghost k: nat) returns (ok: bool)
      requires Valid() && Arrives(obj.obj) && i < |nodes| && nodes[i] == lp && GoesBehind(Contents(), i, obj.obj)
      requires obj !in NodesOf(nodes) && (if fromFloor then k < |floor| && floor[k] == obj else obj !in NodesOf(floor))
      modifies this`inpack, this`lvlObj, this`floor, this`nodes, used, obj`obj, obj`next, obj`prev
      modifies NodesOf(floor)`next, NodesOf(floor)`prev, NodesOf(nodes)`next, NodesOf(nodes)`prev
      ensures Valid() && ok == (old(inpack) < MAXPACK)
      ensures ok ==> InsertedInto(old(Contents()), Contents(), i, old(obj.obj))
      ensures !ok ==> Contents() == old(Contents())
      ensures floor == if ok && fromFloor then Without(old(floor), k) else old(floor)
    {
      hide Good, Chain, ObjectsOf, NodesOf, Without, With, WithFound, GoesBehind, Lists;
      ghost var s, o, n, u, nodes0 := Contents(), obj.obj, inpack, used[..], nodes;
      GoodHasFree(s, n, u);
      AllIn(nodes);
      ok := PackRoom(fromFloor, obj, k);
      if !ok {
        return;
      }
      var l := PackChar();
      UnusedLetter(s, n, u, l);
      obj.obj := Labelled(obj.obj, l);
      InsertionKeepsGood(s, n, u, i, o, l);
      LinkEntry(lp, obj, i);
      ContentsWith(nodes0, i, obj);
    }

    /** The first entry of an empty pack. It is not taken off the floor: one that lies there then is in
        both lists. */
    method FirstEntry(obj: Thing)
      requires Valid() && nodes == [] && Arrives(obj.obj)
      modifies this`head, this`inpack, this`nodes, used, obj`obj
      ensures PutInto([], Contents(), -1, old(obj.obj)) && head == obj
      ensures obj !in NodesOf(floor) && obj.next == null && obj.prev == null ==> Valid()
      ensures obj in NodesOf(floor) ==> !Valid()
    {
      hide Good, Chain, ObjectsOf, NodesOf, WithFound;
      NoObjects();
      ghost var o, n, u := obj.obj, inpack, used[..];
      GoodHasFree([], n, u);
      EmptyGood(n, u);
      head := obj;
      var l := PackChar();
      UnusedLetter([], n, u, l);
      obj.obj := Labelled(obj.obj, l);
      inpack := inpack + 1;
      nodes := [obj];
      InsertionKeepsGood([], n, u, -1, o, l);
      assert Inserted([], -1, obj.obj) == [obj.obj];
      OneNode(obj);
      InBothLists(obj);
    }

    lemma InBothLists(obj: Thing)
      requires head == obj && nodes == [obj]
      ensures obj in NodesOf(floor) ==> !Lists()
    {
      assert obj in NodesOf(nodes);
    }

    lemma InFloor(x: Thing, fromFloor: bool, k: nat)
      requires fromFloor ==> k < |floor| && floor[k] == x
      ensures fromFloor ==> x in NodesOf(floor)
    {
    }

    /** add_pack lifts the object off the floor into an empty pack, and leaves it in the list of the level too. */
    ghost predicate LeftOnFloor(x: Thing, fromFloor: bool)
      reads this`nodes, x`obj
    {
      fromFloor && nodes == [] && !IsSpent(x.obj)
    }

    /** add_pack, for an object given or else the one found under the hero, which lies at place k of the
        objects on the level. A scare monster scroll picked up before turns to dust. */
    method AddPack(obj: Thing?, found: Thing?, ghost k: nat) returns (taken: bool)
      requires Valid()
      requires obj != null ==> Arrives(obj.obj) && obj.next == null && obj.prev == null
      requires obj != null ==> obj !in NodesOf(nodes) && obj !in NodesOf(floor)
      requires obj == null && found != null ==> k < |floor| && floor[k] == found && Arrives(found.obj)
      modifies this, used, NodesOf(floor), NodesOf(nodes), if obj != null then {obj} else {}
      ensures Valid() <==> !(obj == null && found != null && old(LeftOnFloor(found, true)))
      ensures var x := if obj != null then obj else found;
        if x == null || IsSpent(old(x.obj)) then !taken && Contents() == old(Contents())
        else if taken then Added(old(Contents()), Contents(), old(x.obj))
        else Contents() == old(Contents()) && old(inpack) == MAXPACK && (IsMult(old(x.obj).kind) || NoneJoins(old(Contents()), old(x.obj)))
      ensures floor ==
        if obj == null && found != null && (taken || IsSpent(old(found.obj))) && !old(LeftOnFloor(found, true)) then Without(old(floor), k)
        else old(floor)
      ensures obj == null && found != null && old(LeftOnFloor(found, true)) ==> head == found && found in NodesOf(floor)
    {
      taken := false;
      var x, fromFloor := obj, false;
      if obj == null {
        if found == null {
          return;
        }
        x, fromFloor := found, true;
      }
      taken := AddObject(x, fromFloor, k);
    }

    /** add_pack, once the object is known. */
    method AddObject(x: Thing, fromFloor: bool, ghost k: nat) returns (taken: bool)
      requires Valid() && Arrives(x.obj) && x !in NodesOf(nodes)
      requires if fromFloor then k < |floor| && floor[k] == x else x !in NodesOf(floor) && x.next == null && x.prev == null
      modifies this, used, NodesOf(floor), NodesOf(nodes), x
      ensures Valid() <==> !old(LeftOnFloor(x, fromFloor))
      ensures
        if IsSpent(old(x.obj)) then !taken && Contents() == old(Contents())
        else if taken then Added(old(Contents()), Contents(), old(x.obj))
        else Contents() == old(Contents()) && old(inpack) == MAXPACK && (IsMult(old(x.obj).kind) || NoneJoins(old(Contents()), old(x.obj)))
      ensures floor ==
        if fromFloor && (taken || IsSpent(old(x.obj))) && !old(LeftOnFloor(x, fromFloor)) then Without(old(floor), k) else old(floor)
      ensures old(LeftOnFloor(x, fromFloor)) ==> head == x && x in NodesOf(floor)
    {
      hide Good, Chain, ObjectsOf, NodesOf, Without, WithFound, GoesBehind, Joins, JoinedInto, Arrives, PutInto;
      ghost var s, o := Contents(), x.obj;
      if IsSpent(x.obj) {
        if fromFloor {
          TakeOffFloor(x, k);
        }
        return false;
      }
      if head == null {
        HeadIsNull(nodes);
        NoObjects();
        InFloor(x, fromFloor, k);
        FirstEntry(x);
        assert NoneJoins(s, o);
        return true;
      }
      HeadIsSome(head, nodes);
      GoodIsOrdered(s, inpack, used[..]);
      ArrivesUngrouped(o);
      var join, lp;
      ghost var i;
      join, lp, i := FindSlot(head, x.obj, nodes);
      if join != null {
        AllIn(nodes);
        taken := JoinEntry(join, x, fromFloor, i, k);
        if taken {
          OneJoins(s, Contents(), i, o);
        }
      } else {
        NothingJoins(s, i, o);
        taken := InsertEntry(lp, x, fromFloor, i, k);
        if taken {
          IsPut(s, Contents(), i, o);
        }
      }
    }

    /** A copy of the entry as a single piece, for the caller. */
    method SinglePiece(obj: Thing) returns (nobj: Thing)
      ensures fresh(nobj) && nobj.obj == obj.obj.(count := 1) && nobj.next == null && nobj.prev == null
    {
      nobj := new Thing();
      nobj.obj, nobj.body, nobj.dest := obj.obj, obj.body, obj.dest;
      nobj.room, nobj.pack, nobj.reserved := obj.room, obj.pack, obj.reserved;
      nobj.obj := nobj.obj.(count := 1);
    }

    /** leave_pack: one piece of an entry of several, or else the whole entry, which gives up its letter.
        The count is right again exactly if no whole entry is taken whose pieces count each. */
    method LeavePack(obj: Thing, newObj: bool, all: bool, ghost i: nat) returns (nobj: Thing)
      requires Valid() && i < |nodes| && nodes[i] == obj
      modifies this, used, obj`obj, NodesOf(nodes)`next, NodesOf(nodes)`prev
      ensures Lists() && floor == old(floor)
      ensures Valid() <==> !(all && IsMult(old(obj.obj).kind) && old(obj.obj).count > 1)
      ensures old(obj.obj).count > 1 && !all ==> lastPick == obj
      ensures old(obj.obj).count > 1 && !all ==> Contents() == old(Contents())[i := old(obj.obj).(count := old(obj.obj).count - 1)]
      ensures old(obj.obj).count > 1 && !all && !newObj ==> nobj == obj
      ensures old(obj.obj).count > 1 && !all && newObj ==>
        fresh(nobj) && nobj.obj == old(obj.obj).(count := 1) && nobj.next == null && nobj.prev == null
      ensures !(old(obj.obj).count > 1 && !all) ==> Contents() == Removed(old(Contents()), i) && lastPick == null
      ensures !(old(obj.obj).count > 1 && !all) ==>
        nobj == obj && obj.obj == old(obj.obj) && obj.next == null && obj.prev == null && obj !in NodesOf(nodes)
    {
      hide Good, Chain, Lists, ObjectsOf, NodesOf, Without, Removed, IsEntry, IsMult, Letter, Marked;
      ghost var s, n, u := Contents(), inpack, used[..];
      EntryFacts(s, n, u, i);
      inpack := inpack - 1;
      nobj := obj;
      if obj.obj.count > 1 && !all {
        lastPick := obj;
        if newObj {
          nobj := SinglePiece(obj);
        }
        TakePiece(obj, i);
        TakingKeepsGood(s, n, u, i);
        assert used[..] == u;
      } else {
        lastPick := null;
        if all && IsMult(obj.obj.kind) && obj.obj.count > 1 {
          WrongCount(s, n, u, u[Letter(s[i]) := false], i);
        } else {
          CountsOne(s[i], all);
          RemovalKeepsGood(s, n, u, i);
        }
        ClearLetter(obj);
        TakeOut(obj, i);
      }
    }

    /** o_count goes down; a group counts as one whatever its size. */
    method TakePiece(obj: Thing, ghost i: nat)
      requires Lists() && i < |nodes| && nodes[i] == obj && obj.obj.count > 1
      modifies this`inpack, obj`obj
      ensures Lists() && Contents() == old(Contents())[i := old(obj.obj).(count := old(obj.obj).count - 1)]
      ensures inpack == if old(obj.obj).group != 0 then old(inpack) + 1 else old(inpack)
    {
      hide Chain, ObjectsOf, NodesOf;
      ghost var s := Contents();
      AllDistinct(head, nodes);
      obj.obj := obj.obj.(count := obj.obj.count - 1);
      if obj.obj.group != 0 {
        inpack := inpack + 1;
      }
      OneChanged(nodes, s, i);
    }

    method ClearLetter(obj: Thing)
      requires Marked(used[..], Letter(obj.obj))
      modifies used
      ensures used[..] == old(used[..])[Letter(obj.obj) := false]
    {
      used[obj.obj.packch as int - 'a' as int] := false;
    }

    /** detach(pack, obj) */
    method TakeOut(obj: Thing, ghost i: nat)
      requires Lists() && i < |nodes| && nodes[i] == obj
      modifies this`head, this`nodes, NodesOf(nodes)`next, NodesOf(nodes)`prev
      ensures Lists() && nodes == Without(old(nodes), i) && Contents() == Removed(old(Contents()), i)
      ensures obj.next == null && obj.prev == null && obj !in NodesOf(nodes)
    {
      hide Chain, NodesOf, Without, ObjectsOf;
      ghost var s, nodes0 := Contents(), nodes;
      LessOne(head, nodes, i);
      AllIn(floor);
      head := Detach(head, obj, nodes, i);
      nodes := Without(nodes, i);
      assert Chain(lvlObj, floor);
      ContentsWithout(nodes0, i);
      assert ObjectsOf(nodes0) == s;
    }
  }

  /** A whole entry whose pieces count each, taken as one. */
  lemma WrongCount(s: seq<Obj>, n: int, u: seq<bool>, v: seq<bool>, i: nat)
    requires Good(s, n, u) && i < |s| && IsMult(s[i].kind) && s[i].count > 1
    ensures !Good(Removed(s, i), n - 1, v)
  {
    WholeEntryCountsOne(s, i);
  }

  lemma HeadIsNull(nodes: seq<Thing>)
    requires Chain(null, nodes)
    ensures nodes == []
  {
  }

  lemma HeadIsSome(head: Thing?, nodes: seq<Thing>)
    requires Chain(head, nodes) && head != null
    ensures nodes != []
  {
  }

  lemma NoObjects()
    ensures ObjectsOf([]) == []
  {
  }

  lemma OneNode(t: Thing)
    ensures t.next == null && t.prev == null ==> Chain(t, [t])
    ensures ObjectsOf([t]) == [t.obj] && NodesOf([t]) == {t}
  {
  }

  /** The entry takes the object in: o_count grows, and ISFOUND is set. */
  method Enlarge(op: Thing, obj: Thing)
    requires op != obj && -0x8000_0000 <= op.obj.count + (if IsMult(op.obj.kind) then 1 else obj.obj.count) < 0x8000_0000
    modifies op`obj
    ensures op.obj == JoinedWith(old(op.obj), obj.obj)
  {
    if IsMult(op.obj.kind) {
      op.obj := op.obj.(count := op.obj.count + 1);
    } else {
      op.obj := op.obj.(count := op.obj.count + obj.obj.count);
    }
    op.obj := op.obj.(flags := WithFound(op.obj.flags));
  }

  lemma AllDistinct(head: Thing?, nodes: seq<Thing>)
    requires Chain(head, nodes)
    ensures forall i, j :: 0 <= i < |nodes| && 0 <= j < |nodes| && i != j ==> nodes[i] != nodes[j]
  {
  }

  /** A pack in which one entry has changed. */
  lemma OneChanged(nodes: seq<Thing>, s: seq<Obj>, i: nat)
    requires i < |nodes| == |s| && forall j :: 0 <= j < |s| && j != i ==> nodes[j].obj == s[j]
    ensures ObjectsOf(nodes) == s[i := nodes[i].obj]
  {
  }

  /** The counts stay ints, and the changed contents are good. */
  lemma JoinFits(s: seq<Obj>, inpack: int, used: seq<bool>, i: nat, o: Obj)
    requires Good(s, inpack, used) && i < |s| && Joins(s[i], o) && IsEntry(o) && (IsMult(o.kind) ==> o.count == 1)
    requires s[i].count + o.count < 0x8000_0000
    ensures s[i].count >= 1 && inpack <= MAXPACK
    ensures IsMult(o.kind) ==> s[i].count + 1 < 0x8000_0000
    ensures !(IsMult(o.kind) && inpack == MAXPACK) ==>
      Good(s[i := JoinedWith(s[i], o)], if IsMult(o.kind) then inpack + 1 else inpack, used)
  {
    assert IsEntry(s[i]);
    if !(IsMult(o.kind) && inpack == MAXPACK) {
      JoiningKeepsGood(s, inpack, used, i, o);
    }
  }
}
