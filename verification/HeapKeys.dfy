/** Heaps whose nodes are told apart by their keys: what the heap operations do to them. */
module HeapKeys {
  import opened Sequences
  import opened HeapSpec

  ghost predicate HasKey(h: Nodes<nat>, key: nat) {
    exists i :: 0 <= i < |h| && h[i].key == key
  }

  ghost predicate KeysUnique(h: Nodes<nat>) {
    forall i, j | 0 <= i < j < |h| :: h[i].key != h[j].key
  }

  /** The position that the back-pointer of node `key` holds. */
  function Pos(h: Nodes<nat>, key: nat): (i: nat)
    requires HasKey(h, key)
    ensures 1 <= i <= |h| && At(h, i).key == key
  {
    if h[0].key == key then 1 else
      assert HasKey(h[1..], key) by { var i :| 0 <= i < |h| && h[i].key == key; assert h[1..][i - 1].key == key; }
      1 + Pos(h[1..], key)
  }

  function PriorityOf(h: Nodes<nat>, key: nat): nat
    requires HasKey(h, key)
  {
    At(h, Pos(h, key)).priority
  }

  lemma UniqueByMultiset(h: Nodes<nat>)
    requires forall x, y | x in multiset(h) && y in multiset(h) && x.key == y.key :: x == y
    requires forall x | x in multiset(h) :: multiset(h)[x] == 1
    ensures KeysUnique(h)
  {
    forall i, j | 0 <= i < j < |h| ensures h[i].key != h[j].key {
      assert h[i] in multiset(h) && h[j] in multiset(h);
      if h[i] == h[j] { CountedTwice(h, i, j); }
    }
  }

  lemma MultisetOfUnique(h: Nodes<nat>)
    requires KeysUnique(h)
    ensures forall x | x in multiset(h) :: multiset(h)[x] == 1
    ensures forall x, y | x in multiset(h) && y in multiset(h) && x.key == y.key :: x == y
  {
    forall x | x in multiset(h) ensures multiset(h)[x] == 1 {
      var i :| 0 <= i < |h| && h[i] == x;
      assert h == h[..i] + [x] + h[i + 1..];
      assert x !in h[..i] && x !in h[i + 1..];
    }
  }

  /** Whether keys are unique depends on the multiset of nodes only. */
  lemma UniquePermutes(g: Nodes<nat>, h: Nodes<nat>)
    requires KeysUnique(g) && multiset(g) == multiset(h)
    ensures KeysUnique(h) && |h| == |g|
  {
    MultisetOfUnique(g);
    UniqueByMultiset(h);
    assert |multiset(g)| == |g| && |multiset(h)| == |h|;
  }

  lemma KeyInMultiset(h: Nodes<nat>, key: nat)
    ensures HasKey(h, key) <==> exists x :: x in multiset(h) && x.key == key
  {
  }

  lemma PriorityIn(h: Nodes<nat>, key: nat, p: nat)
    requires KeysUnique(h) && Node(key, p) in multiset(h)
    ensures HasKey(h, key) && PriorityOf(h, key) == p
  {
  }

  /** What `heap_insert` of a new key does to the keys and priorities. */
  lemma InsertKeys(h: Nodes<nat>, key: nat, p: nat)
    requires Ordered(h) && KeysUnique(h) && !HasKey(h, key)
    ensures var g := Insert(h, Node(key, p));
            && Ordered(g) && KeysUnique(g) && |g| == |h| + 1
            && (forall x :: x in multiset(g) <==> x == Node(key, p) || x in multiset(h))
  {
    var g := Insert(h, Node(key, p));
    InsertIsHeap(h, Node(key, p));
    var u := h + [Node(key, p)];
    assert KeysUnique(u) by {
      forall i, j | 0 <= i < j < |u| ensures u[i].key != u[j].key { if j == |h| { assert h[i].key != key; } }
    }
    assert multiset(u) == multiset(g);
    UniquePermutes(u, g);
  }

  /** What `heap_remove` does to them. */
  lemma RemoveKeys(h: Nodes<nat>, key: nat)
    requires Ordered(h) && KeysUnique(h) && HasKey(h, key)
    ensures var g := Remove(h, Pos(h, key));
            && Ordered(g) && KeysUnique(g) && |g| == |h| - 1
            && (forall x :: x in multiset(g) <==> x in multiset(h) && x.key != key)
  {
    var i := Pos(h, key);
    var g := Remove(h, i);
    RemoveIsHeap(h, i);
    MultisetOfUnique(h);
    assert At(h, i) in multiset(h);
    forall x ensures x in multiset(g) <==> x in multiset(h) && x.key != key {
      assert x in multiset(h) && x.key == key ==> x == At(h, i);
    }
    forall x | x in multiset(g) ensures multiset(g)[x] == 1 { assert multiset(h)[x] == 1; }
    UniqueByMultiset(g);
    assert |multiset(g)| == |multiset(h)| - 1;
  }

  /** What `heap_change` does to them. */
  lemma ChangeKeys(h: Nodes<nat>, key: nat, p: nat)
    requires Ordered(h) && KeysUnique(h) && HasKey(h, key)
    ensures var g := Change(h, Pos(h, key), p);
            && Ordered(g) && KeysUnique(g) && |g| == |h|
            && (forall x :: x in multiset(g) <==> x == Node(key, p) || (x in multiset(h) && x.key != key))
  {
    var i := Pos(h, key);
    ChangeIsHeap(h, i, p);
    var u := h[i - 1 := Node(key, p)];
    var g := Change(h, i, p);
    assert KeysUnique(u);
    assert multiset(u) == multiset(g) by { FloatUpOrDownPermutes(u, i); }
    UniquePermutes(u, g);
    forall x ensures x in multiset(g) <==> x == Node(key, p) || (x in multiset(h) && x.key != key) {
      if x in multiset(h) && x.key != key {
        var j :| 0 <= j < |h| && h[j] == x;
        assert u[j] == x;
      }
      if x in multiset(u) {
        var j :| 0 <= j < |u| && u[j] == x;
        assert j != i - 1 ==> h[j] == x && x.key != key;
      }
    }
  }
}
