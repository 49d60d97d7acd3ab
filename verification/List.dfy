/** `list.c`: circular doubly linked lists of intrusive nodes. */
module List {
  class Node {
    var next: Node?
    var prev: Node?

    constructor ()
      ensures next == null && prev == null
    {
      next, prev := null, null;
    }
  }

  ghost predicate Distinct(s: seq<Node>) {
    forall i, j | 0 <= i < j < |s| :: s[i] != s[j]
  }

  /** Neighbours in the sequence point at each other. */
  ghost predicate Chained(s: seq<Node>)
    reads s
  {
    forall i | 0 <= i < |s| - 1 :: s[i].next == s[i + 1] && s[i + 1].prev == s[i]
  }

  /** The nodes of the sequence are a ring, in this order from the first one on. */
  ghost predicate Ring(s: seq<Node>)
    reads s
  {
    s != [] && Distinct(s) && Chained(s) && s[|s| - 1].next == s[0] && s[0].prev == s[|s| - 1]
  }

  /** A ring may be read from any of its nodes. */
  lemma Rotate(s: seq<Node>, k: nat)
    requires Ring(s) && k < |s|
    ensures Ring(s[k..] + s[..k])
  {
  }

  /** `next` and `prev` are inverse to each other on a ring. */
  lemma NextPrevInverse(s: seq<Node>, i: nat)
    requires Ring(s) && i < |s|
    ensures s[i].next != null && s[i].next.prev == s[i] && s[i].prev != null && s[i].prev.next == s[i]
    ensures s[i].next in s && s[i].prev in s
  {
    if i < |s| - 1 { assert s[i].next == s[i + 1] && s[i + 1].prev == s[i]; }
    if i > 0 { assert s[i - 1].next == s[i] && s[i].prev == s[i - 1]; }
  }

  /** `list_init` */
  method Init(list: Node)
    modifies list
    ensures Ring([list])
  {
    list.next := list;
    list.prev := list;
  }

  /** `list_insert`: the node comes to stand just before the first one, so last in the ring. */
  method Insert(before: Node, elem: Node, ghost ring: seq<Node>)
    requires Ring(ring) && ring[0] == before && elem !in ring
    modifies ring, elem
    ensures Ring(ring + [elem])
  {
    elem.prev := before.prev;
    elem.next := before;
    before.prev.next := elem;
    before.prev := elem;
  }

  /** `list_push_back` of a list given by its head */
  method PushBack(list: Node, elem: Node, ghost ring: seq<Node>)
    requires Ring(ring) && ring[0] == list && elem !in ring
    modifies ring, elem
    ensures Ring(ring + [elem])
  {
    Insert(list, elem, ring);
  }

  /** `list_push_front` */
  method PushFront(list: Node, elem: Node, ghost ring: seq<Node>)
    requires Ring(ring) && ring[0] == list && elem !in ring
    modifies ring, elem
    ensures Ring([list, elem] + ring[1..])
  {
    ghost var turned := if |ring| == 1 then ring else ring[1..] + ring[..1];
    if |ring| > 1 {
      Rotate(ring, 1);
      assert ring[0].next == ring[1];
    }
    Insert(list.next, elem, turned);
    ghost var all, k := turned + [elem], |ring| - 1;
    Rotate(all, k);
    assert all[k..] + all[..k] == [list, elem] + ring[1..];
  }

  /** `list_remove` of the first node; a node alone stays a ring by itself. */
  method Remove(elem: Node, ghost ring: seq<Node>) returns (next: Node)
    requires Ring(ring) && ring[0] == elem
    modifies ring
    ensures if |ring| == 1 then Ring(ring) && next == elem else Ring(ring[1..]) && next == ring[1]
  {
    NextPrevInverse(ring, 0);
    assert |ring| > 1 ==> elem.next == ring[1];
    elem.prev.next := elem.next;
    elem.next.prev := elem.prev;
    next := elem.next;
    ghost var rest := ring[1..];
    forall i | 0 <= i < |rest| - 1 ensures rest[i].next == rest[i + 1] && rest[i + 1].prev == rest[i] {
      assert rest[i] == ring[i + 1] && rest[i + 1] == ring[i + 2];
    }
  }

  /** `list_replace`: takes the place of the first node, also when that is alone in its ring. */
  method Replace(element: Node, position: Node, ghost ring: seq<Node>)
    requires Ring(ring) && ring[0] == position && element !in ring
    modifies ring, element
    ensures Ring([element] + ring[1..])
  {
    NextPrevInverse(ring, 0);
    assert |ring| > 1 ==> position.next == ring[1];
    element.next := position.next;
    element.next.prev := element;
    element.prev := position.prev;
    element.prev.next := element;
    ghost var to := [element] + ring[1..];
    forall i | 0 <= i < |to| - 1 ensures to[i].next == to[i + 1] && to[i + 1].prev == to[i] {
      assert to[i + 1] == ring[i + 1];
      if i > 0 { assert to[i] == ring[i]; }
    }
  }

  /** The first half of `list_splice`: takes `moved` out of its ring. */
  method Cut(first: Node, end: Node, ghost moved: seq<Node>, ghost rest: seq<Node>)
    requires moved != [] && rest != [] && Ring(moved + rest) && first == moved[0] && end == moved[|moved| - 1]
    modifies rest
    ensures Ring(rest) && Chained(moved) && Distinct(moved) && forall x | x in moved :: x !in rest
  {
    SplitRing(moved, rest);
    ghost var n := |rest| - 1;
    assert first.prev == rest[n] && end.next == rest[0];
    first.prev.next := end.next;
    assert first in moved;
    end.next.prev := first.prev;
    forall i | 0 <= i < n ensures rest[i].next == rest[i + 1] && rest[i + 1].prev == rest[i] {
      assert rest[i] != rest[n] && rest[i + 1] != rest[0];
    }
  }

  /** The second half: puts `moved` into a ring, just before its first node. */
  method PutIn(before: Node, first: Node, end: Node, ghost moved: seq<Node>, ghost to: seq<Node>)
    requires moved != [] && Ring(to) && Chained(moved) && Distinct(moved) && forall x | x in moved :: x !in to
    requires before == to[0] && first == moved[0] && end == moved[|moved| - 1]
    modifies moved, to
    ensures Ring(moved + to)
  {
    ghost var n, m := |to| - 1, |moved| - 1;
    assert first in moved && end in moved && before.prev == to[n];
    first.prev := before.prev;
    end.next := before;
    before.prev.next := first;
    before.prev := end;
    forall i | 0 <= i < n ensures to[i].next == to[i + 1] && to[i + 1].prev == to[i] {
      assert to[i] != to[n] && to[i + 1] != to[0];
    }
    forall i | 0 <= i < m ensures moved[i].next == moved[i + 1] && moved[i + 1].prev == moved[i] {
      assert moved[i] in moved && moved[i + 1] in moved && moved[i] != moved[m] && moved[i + 1] != moved[0];
    }
    JoinRing(moved, to);
  }

  /** `list_splice` within a ring: `first` to `last` (exclusive) are the nodes `moved`, `last` is the
      first of `rest`, and they go just before `rest[k]`. */
  method Splice(before: Node, first: Node, last: Node, ghost moved: seq<Node>, ghost rest: seq<Node>, ghost k: nat)
    requires moved != [] && k < |rest| && Ring(moved + rest)
    requires before == rest[k] && first == moved[0] && last == rest[0]
    modifies moved, rest
    ensures Ring(moved + (rest[k..] + rest[..k]))
  {
    SplitRing(moved, rest);
    assert first in moved;
    if first == last {
      return;
    }
    var end := last.prev;
    Cut(first, end, moved, rest);
    Rotate(rest, k);
    PutIn(before, first, end, moved, rest[k..] + rest[..k]);
  }

  /** `list_splice` from one ring into another. */
  method SpliceAcross(before: Node, first: Node, last: Node, ghost moved: seq<Node>, ghost rest: seq<Node>,
      ghost to: seq<Node>)
    requires moved != [] && rest != [] && Ring(moved + rest) && Ring(to)
    requires (forall x | x in to :: x !in moved && x !in rest)
    requires before == to[0] && first == moved[0] && last == rest[0]
    modifies moved, rest, to
    ensures Ring(rest) && Ring(moved + to)
  {
    SplitRing(moved, rest);
    assert first in moved && before == to[0];
    if first == last {
      return;
    }
    var end := last.prev;
    label Whole:
    Cut(first, end, moved, rest);
    forall x | x in to ensures x.next == old@Whole(x.next) && x.prev == old@Whole(x.prev) { assert x !in rest; }
    RingKept@Whole(to);
    label Parted:
    PutIn(before, first, end, moved, to);
    forall x | x in rest ensures x.next == old@Parted(x.next) && x.prev == old@Parted(x.prev) {
      assert x !in moved && x !in to;
    }
    RingKept@Parted(rest);
  }

  twostate lemma RingKept(s: seq<Node>)
    requires old(Ring(s)) && forall x | x in s :: x.next == old(x.next) && x.prev == old(x.prev)
    ensures Ring(s)
  {
    forall i | 0 <= i < |s| - 1 ensures s[i].next == s[i + 1] && s[i + 1].prev == s[i] {
      assert s[i] in s && s[i + 1] in s;
    }
    assert s[0] in s && s[|s| - 1] in s;
  }

  lemma SplitRing(a: seq<Node>, b: seq<Node>)
    requires a != [] && b != [] && Ring(a + b)
    ensures Distinct(a) && Distinct(b) && Chained(a) && Chained(b) && (forall x | x in a :: x !in b)
    ensures a[|a| - 1].next == b[0] && b[0].prev == a[|a| - 1] && b[|b| - 1].next == a[0] && a[0].prev == b[|b| - 1]
  {
    var s := a + b;
    forall i | 0 <= i < |a| ensures s[i] == a[i] { }
    forall i | 0 <= i < |b| ensures s[|a| + i] == b[i] { }
    forall i | 0 <= i < |a| - 1 ensures a[i].next == a[i + 1] && a[i + 1].prev == a[i] {
      assert s[i].next == s[i + 1] && s[i + 1].prev == s[i];
    }
    forall i | 0 <= i < |b| - 1 ensures b[i].next == b[i + 1] && b[i + 1].prev == b[i] {
      assert s[|a| + i].next == s[|a| + i + 1] && s[|a| + i + 1].prev == s[|a| + i];
    }
    assert s[|a| - 1].next == s[|a|] && s[|a|].prev == s[|a| - 1];
    forall x | x in a ensures x !in b {
      var i :| 0 <= i < |a| && a[i] == x;
      forall j | 0 <= j < |b| ensures b[j] != x { assert s[i] != s[|a| + j]; }
    }
  }

  lemma JoinRing(a: seq<Node>, b: seq<Node>)
    requires a != [] && b != [] && Distinct(a) && Distinct(b) && Chained(a) && Chained(b)
    requires (forall x | x in a :: x !in b)
    requires a[|a| - 1].next == b[0] && b[0].prev == a[|a| - 1] && b[|b| - 1].next == a[0] && a[0].prev == b[|b| - 1]
    ensures Ring(a + b)
  {
    var s := a + b;
    forall i, j | 0 <= i < j < |s| ensures s[i] != s[j] {
      if i < |a| <= j { assert s[i] in a && s[j] in b; }
    }
    forall i | 0 <= i < |s| - 1 ensures s[i].next == s[i + 1] && s[i + 1].prev == s[i] {
      if i + 1 < |a| {
        assert a[i].next == a[i + 1] && a[i + 1].prev == a[i];
      } else if i >= |a| {
        assert b[i - |a|].next == b[i - |a| + 1] && b[i - |a| + 1].prev == b[i - |a|];
      }
    }
  }

  /** `list_size` */
  method Size(list: Node, ghost ring: seq<Node>) returns (n: nat)
    requires Ring(ring) && ring[0] == list
    ensures n == |ring| - 1
  {
    n := 0;
    var e := list.next;
    assert |ring| > 1 ==> ring[0].next == ring[1];
    while e != list
      invariant n < |ring| && e == (if n + 1 < |ring| then ring[n + 1] else ring[0])
      decreases |ring| - n
    {
      n := n + 1;
      assert n < |ring| - 1 ==> ring[n].next == ring[n + 1];
      e := e.next;
    }
  }

  /** `list_is_empty` and `list_is_singleton` read the number of nodes off the pointers of the head. */
  lemma TestsAreExact(ring: seq<Node>)
    requires Ring(ring)
    ensures ring[0].next == ring[0] <==> |ring| == 1
    ensures ring[0].next == ring[0].prev <==> |ring| <= 2
  {
    if |ring| > 1 { assert ring[0].next == ring[1]; }
  }
}
