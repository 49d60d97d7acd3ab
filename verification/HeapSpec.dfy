/** The max-heap of `heap.c` on sequences. Positions count from 1, as in the code. */
module HeapSpec {

  datatype Node<K> = Node(key: K, priority: nat)

  type Nodes<K> = seq<Node<K>>

  function At<K>(h: Nodes<K>, i: nat): Node<K>
    requires 1 <= i <= |h|
  {
    h[i - 1]
  }

  function Swap<K>(h: Nodes<K>, i: nat, j: nat): (r: Nodes<K>)
    requires 1 <= i <= |h| && 1 <= j <= |h|
    ensures |r| == |h|
  {
    h[i - 1 := h[j - 1]][j - 1 := h[i - 1]]
  }

  /** Does the node at `i` exceed its parent? */
  predicate Exceeds<K>(h: Nodes<K>, i: nat)
    requires i <= |h|
  {
    i > 1 && At(h, i / 2).priority < At(h, i).priority
  }

  /** `float_up` */
  function FloatUp<K>(h: Nodes<K>, i: nat): (r: Nodes<K>)
    requires i <= |h|
    ensures |r| == |h|
    decreases i
  {
    if Exceeds(h, i) then FloatUp(Swap(h, i / 2, i), i / 2) else h
  }

  /** The position of the largest among `i` and its children. */
  function LargestOf<K>(h: Nodes<K>, i: nat): (m: nat)
    requires 1 <= i && 2 * i <= |h|
    ensures m == i || m == 2 * i || (m == 2 * i + 1 && m <= |h|)
  {
    var m := if At(h, 2 * i).priority > At(h, i).priority then 2 * i else i;
    if 2 * i + 1 <= |h| && At(h, 2 * i + 1).priority > At(h, m).priority then 2 * i + 1 else m
  }

  /** `float_down` */
  function FloatDown<K>(h: Nodes<K>, i: nat): (r: Nodes<K>)
    requires 1 <= i
    ensures |r| == |h|
    decreases |h| - i
  {
    if 2 * i > |h| || LargestOf(h, i) == i then h
    else FloatDown(Swap(h, LargestOf(h, i), i), LargestOf(h, i))
  }

  /** One turn of the loop of `float_down`. */
  lemma FloatDownStep<K>(h: Nodes<K>, i: nat)
    requires 1 <= i
    ensures 2 * i > |h| ==> FloatDown(h, i) == h
    ensures 2 * i <= |h| && LargestOf(h, i) == i ==> FloatDown(h, i) == h
    ensures 2 * i <= |h| && LargestOf(h, i) != i ==>
              FloatDown(h, i) == FloatDown(Swap(h, LargestOf(h, i), i), LargestOf(h, i))
  {
  }

  /** `float_up_or_down` */
  function FloatUpOrDown<K>(h: Nodes<K>, i: nat): (r: Nodes<K>)
    requires 1 <= i <= |h|
    ensures |r| == |h|
  {
    if Exceeds(h, i) then FloatUp(h, i) else FloatDown(h, i)
  }

  /** `heap_insert` */
  function Insert<K>(h: Nodes<K>, node: Node<K>): Nodes<K> {
    FloatUp(h + [node], |h| + 1)
  }

  /** `heap_raw_remove` of the node at `i`: the last node fills the hole. */
  function RawRemove<K>(h: Nodes<K>, i: nat): (r: Nodes<K>)
    requires 1 <= i <= |h|
    ensures |r| == |h| - 1
  {
    if i < |h| then h[i - 1 := h[|h| - 1]][..|h| - 1] else h[..|h| - 1]
  }

  /** `heap_remove` of the node at `i` */
  function Remove<K>(h: Nodes<K>, i: nat): Nodes<K>
    requires 1 <= i <= |h|
  {
    var r := RawRemove(h, i);
    if i <= |r| then FloatUpOrDown(r, i) else r
  }

  /** `heap_change` of the node at `i` */
  function Change<K>(h: Nodes<K>, i: nat, priority: nat): Nodes<K>
    requires 1 <= i <= |h|
  {
    FloatUpOrDown(h[i - 1 := h[i - 1].(priority := priority)], i)
  }

  /** The loop of `heap_rebuild` from position `i` down to 1. */
  function RebuildFrom<K>(h: Nodes<K>, i: nat): (r: Nodes<K>)
    ensures |r| == |h|
    decreases i
  {
    if i == 0 then h else RebuildFrom(FloatDown(h, i), i - 1)
  }

  // ---- the heap order ----

  /** Every node whose parent is at `k` or later is no larger than its parent. */
  ghost predicate OrderedFrom<K>(h: Nodes<K>, k: nat) {
    forall j: nat | 2 <= j <= |h| && j / 2 >= k :: At(h, j / 2).priority >= At(h, j).priority
  }

  ghost predicate Ordered<K>(h: Nodes<K>) {
    OrderedFrom(h, 1)
  }

  /** Only the node at `i` may exceed its parent; its children are below that parent too. */
  ghost predicate HoleUp<K>(h: Nodes<K>, i: nat) {
    && (forall j: nat | 2 <= j <= |h| && j != i :: At(h, j / 2).priority >= At(h, j).priority)
    && (forall j: nat | 2 <= j <= |h| && j / 2 == i && i > 1 :: At(h, i / 2).priority >= At(h, j).priority)
  }

  /** From `k` on, only the children of `i` may exceed their parent. */
  ghost predicate HoleDown<K>(h: Nodes<K>, i: nat, k: nat) {
    && (forall j: nat | 2 <= j <= |h| && j / 2 >= k && j / 2 != i :: At(h, j / 2).priority >= At(h, j).priority)
    && (forall j: nat | 2 <= j <= |h| && j / 2 == i && i / 2 >= k && i > 1 ::
          At(h, i / 2).priority >= At(h, j).priority)
  }

  lemma {:induction false} FloatUpOrders<K>(h: Nodes<K>, i: nat)
    requires 1 <= i <= |h| && HoleUp(h, i)
    ensures Ordered(FloatUp(h, i))
    decreases i
  {
    if Exceeds(h, i) {
      var g := Swap(h, i / 2, i);
      SwapUpHole(h, i);
      FloatUpOrders(g, i / 2);
    }
  }

  lemma SwapUpHole<K>(h: Nodes<K>, i: nat)
    requires 1 < i <= |h| && HoleUp(h, i) && Exceeds(h, i)
    ensures HoleUp(Swap(h, i / 2, i), i / 2)
  {
  }

  lemma {:induction false} FloatDownOrders<K>(h: Nodes<K>, i: nat, k: nat)
    requires 1 <= k <= i && HoleDown(h, i, k)
    ensures OrderedFrom(FloatDown(h, i), k)
    decreases |h| - i
  {
    if 2 * i > |h| {
    } else if LargestOf(h, i) == i {
      forall j: nat | 2 <= j <= |h| && j / 2 == i ensures At(h, i).priority >= At(h, j).priority {
        assert j == 2 * i || j == 2 * i + 1;
      }
    } else {
      var m := LargestOf(h, i);
      SwapDownHole(h, i, k);
      FloatDownOrders(Swap(h, m, i), m, k);
    }
  }

  lemma SwapDownHole<K>(h: Nodes<K>, i: nat, k: nat)
    requires 1 <= k <= i && 2 * i <= |h| && HoleDown(h, i, k) && LargestOf(h, i) != i
    ensures HoleDown(Swap(h, LargestOf(h, i), i), LargestOf(h, i), k)
  {
    var m := LargestOf(h, i);
    var g := Swap(h, m, i);
    forall j: nat | 2 <= j <= |g| && j / 2 >= k && j / 2 != m ensures At(g, j / 2).priority >= At(g, j).priority {
      if j / 2 == i {
        assert j == 2 * i || j == 2 * i + 1;
      } else if j == i {
        assert At(h, i / 2).priority >= At(h, m).priority;
      } else {
        assert At(h, j / 2).priority >= At(h, j).priority;
      }
    }
    forall j: nat | 2 <= j <= |g| && j / 2 == m && m / 2 >= k && m > 1
      ensures At(g, m / 2).priority >= At(g, j).priority
    {
      assert m / 2 == i;
      assert At(h, m).priority >= At(h, j).priority;
    }
  }

  /** The first node is a largest one. */
  lemma {:induction false} RootIsMaximal<K>(h: Nodes<K>, i: nat)
    requires Ordered(h) && 1 <= i <= |h|
    ensures At(h, 1).priority >= At(h, i).priority
    decreases i
  {
    if i > 1 {
      RootIsMaximal(h, i / 2);
      assert At(h, i / 2).priority >= At(h, i).priority;
    }
  }

  // ---- the set of nodes ----

  lemma SwapPermutes<K>(h: Nodes<K>, i: nat, j: nat)
    requires 1 <= i <= |h| && 1 <= j <= |h|
    ensures multiset(Swap(h, i, j)) == multiset(h)
  {
  }

  lemma {:induction false} FloatUpPermutes<K>(h: Nodes<K>, i: nat)
    requires i <= |h|
    ensures multiset(FloatUp(h, i)) == multiset(h)
    decreases i
  {
    if Exceeds(h, i) {
      SwapPermutes(h, i / 2, i);
      FloatUpPermutes(Swap(h, i / 2, i), i / 2);
    }
  }

  lemma {:induction false} FloatDownPermutes<K>(h: Nodes<K>, i: nat)
    requires 1 <= i
    ensures multiset(FloatDown(h, i)) == multiset(h)
    decreases |h| - i
  {
    if 2 * i <= |h| && LargestOf(h, i) != i {
      SwapPermutes(h, LargestOf(h, i), i);
      FloatDownPermutes(Swap(h, LargestOf(h, i), i), LargestOf(h, i));
    }
  }

  lemma FloatUpOrDownPermutes<K>(h: Nodes<K>, i: nat)
    requires 1 <= i <= |h|
    ensures multiset(FloatUpOrDown(h, i)) == multiset(h)
  {
    if Exceeds(h, i) { FloatUpPermutes(h, i); } else { FloatDownPermutes(h, i); }
  }

  // ---- the operations ----

  lemma InsertIsHeap<K>(h: Nodes<K>, node: Node<K>)
    requires Ordered(h)
    ensures Ordered(Insert(h, node)) && multiset(Insert(h, node)) == multiset(h) + multiset{node}
  {
    var g := h + [node];
    forall j: nat | 2 <= j <= |g| && j != |g| ensures At(g, j / 2).priority >= At(g, j).priority {
      assert At(h, j / 2).priority >= At(h, j).priority;
    }
    FloatUpOrders(g, |g|);
    FloatUpPermutes(g, |g|);
  }

  /** A node replaced by any other, in a heap, floats up or down into place. */
  lemma PatchedIsHeap<K>(h: Nodes<K>, i: nat, node: Node<K>)
    requires Ordered(h) && 1 <= i <= |h|
    ensures Ordered(FloatUpOrDown(h[i - 1 := node], i))
  {
    var g := h[i - 1 := node];
    if Exceeds(g, i) {
      PatchedUp(h, i, node);
      FloatUpOrders(g, i);
    } else {
      PatchedDown(h, i, node);
      FloatDownOrders(g, i, 1);
    }
  }

  lemma PatchedUp<K>(h: Nodes<K>, i: nat, node: Node<K>)
    requires Ordered(h) && 1 <= i <= |h| && Exceeds(h[i - 1 := node], i)
    ensures HoleUp(h[i - 1 := node], i)
  {
  }

  lemma PatchedDown<K>(h: Nodes<K>, i: nat, node: Node<K>)
    requires Ordered(h) && 1 <= i <= |h| && !Exceeds(h[i - 1 := node], i)
    ensures HoleDown(h[i - 1 := node], i, 1)
  {
  }

  lemma ChangeIsHeap<K>(h: Nodes<K>, i: nat, priority: nat)
    requires Ordered(h) && 1 <= i <= |h|
    ensures Ordered(Change(h, i, priority))
    ensures multiset(Change(h, i, priority))
            == multiset(h) - multiset{At(h, i)} + multiset{At(h, i).(priority := priority)}
  {
    var node := h[i - 1].(priority := priority);
    PatchedIsHeap(h, i, node);
    FloatUpOrDownPermutes(h[i - 1 := node], i);
  }

  lemma PrefixIsHeap<K>(h: Nodes<K>, n: nat)
    requires Ordered(h) && n <= |h|
    ensures Ordered(h[..n])
  {
  }

  /** Removal keeps the heap, also when the node that fills the hole must rise. */
  lemma RemoveIsHeap<K>(h: Nodes<K>, i: nat)
    requires Ordered(h) && 1 <= i <= |h|
    ensures Ordered(Remove(h, i)) && multiset(Remove(h, i)) == multiset(h) - multiset{At(h, i)}
  {
    var n := |h|;
    var r := RawRemove(h, i);
    PrefixIsHeap(h, n - 1);
    RawRemovePermutes(h, i);
    if i <= |r| {
      assert r == h[..n - 1][i - 1 := h[n - 1]];
      PatchedIsHeap(h[..n - 1], i, h[n - 1]);
      FloatUpOrDownPermutes(r, i);
    }
  }

  lemma RawRemovePermutes<K>(h: Nodes<K>, i: nat)
    requires 1 <= i <= |h|
    ensures multiset(RawRemove(h, i)) == multiset(h) - multiset{At(h, i)}
  {
    var n := |h|;
    assert h == h[..n - 1] + [h[n - 1]];
    if i < n {
      assert h[i - 1 := h[n - 1]] == h[..n - 1][i - 1 := h[n - 1]] + [h[n - 1]];
      assert RawRemove(h, i) == h[..n - 1][i - 1 := h[n - 1]];
    }
  }

  lemma {:induction false} RebuildIsHeap<K>(h: Nodes<K>, i: nat)
    requires OrderedFrom(h, i + 1)
    ensures Ordered(RebuildFrom(h, i)) && multiset(RebuildFrom(h, i)) == multiset(h)
    decreases i
  {
    if i > 0 {
      FloatDownOrders(h, i, i);
      FloatDownPermutes(h, i);
      RebuildIsHeap(FloatDown(h, i), i - 1);
    }
  }

  /** `heap_rebuild` makes a heap of any array. */
  lemma RebuildAll<K>(h: Nodes<K>)
    ensures Ordered(RebuildFrom(h, |h| / 2)) && multiset(RebuildFrom(h, |h| / 2)) == multiset(h)
  {
    RebuildIsHeap(h, |h| / 2);
  }
}
