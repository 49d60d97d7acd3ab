/** `heap.c` and `heap.h`: the heap in place, on an array of nodes that know their position. */
module Heap {
  import opened HeapSpec

  /** `struct heap_node` */
  class HeapNode {
    var idx: nat
    var priority: nat

    constructor ()
      ensures idx == 0 && priority == 0
    {
      idx, priority := 0, 0;
    }
  }

  class Heap {
    var slots: array<HeapNode?>
    var n: nat
    var capacity: nat
    /** The nodes in the heap. */
    ghost var nodes: set<HeapNode>

    /** Elements 1 to n of the array are the nodes, and each knows its position. */
    ghost predicate Linked()
      reads this, slots, nodes
    {
      && n <= capacity < slots.Length
      && (forall i | 1 <= i <= n :: slots[i] != null && slots[i] in nodes && slots[i].idx == i)
      && (forall x | x in nodes :: 1 <= x.idx <= n && slots[x.idx] == x)
    }

    ghost function View(): (h: Nodes<HeapNode>)
      requires Linked()
      reads this, slots, nodes
      ensures |h| == n
    {
      seq(n, i requires 0 <= i < n && Linked() reads this, slots, nodes => Node(slots[i + 1], slots[i + 1].priority))
    }

    ghost predicate Valid()
      reads this, slots, nodes
    {
      Linked() && Ordered(View())
    }

    /** `heap_init` */
    constructor ()
      ensures Valid() && n == 0 && nodes == {} && fresh(slots)
    {
      slots := new HeapNode?[1](_ => null);
      n, capacity := 0, 0;
      nodes := {};
    }

    /** `swap_nodes`, by two `put_node`s */
    method SwapNodes(i: nat, j: nat)
      requires Linked() && 1 <= i <= n && 1 <= j <= n && i != j
      modifies slots, nodes`idx
      ensures Linked() && View() == Swap(old(View()), i, j)
    {
      var oldI, oldJ := slots[i], slots[j];
      slots[i] := oldJ;
      oldJ.idx := i;
      slots[j] := oldI;
      oldI.idx := j;
    }

    /** `float_up` */
    method FloatUpNode(from: nat) returns (moved: bool)
      requires Linked() && from <= n
      modifies slots, nodes`idx
      ensures Linked() && View() == FloatUp(old(View()), from)
      ensures moved <==> Exceeds(old(View()), from)
    {
      var i: nat := from;
      moved := false;
      while i > 1
        invariant i <= n && Linked()
        invariant FloatUp(View(), i) == FloatUp(old(View()), from)
        invariant !moved ==> i == from && View() == old(View())
        invariant moved ==> Exceeds(old(View()), from)
      {
        var parent := i / 2;
        assert At(View(), parent).priority == slots[parent].priority && At(View(), i).priority == slots[i].priority;
        if slots[parent].priority >= slots[i].priority {
          break;
        }
        SwapNodes(parent, i);
        moved := true;
        i := parent;
      }
    }

    /** `float_down` */
    method FloatDownNode(from: nat)
      requires Linked() && 1 <= from
      modifies slots, nodes`idx
      ensures Linked() && View() == FloatDown(old(View()), from)
    {
      hide FloatDown, LargestOf, Swap;
      var i: nat := from;
      while 2 * i <= n
        invariant 1 <= i && Linked()
        invariant FloatDown(View(), i) == FloatDown(old(View()), from)
        decreases n - i
      {
        var max := PickLargest(i);
        FloatDownStep(View(), i);
        if max == i {
          break;
        }
        SwapNodes(max, i);
        i := max;
      }
      FloatDownStep(View(), i);
    }

    /** The choice made in the body of `float_down`. */
    method PickLargest(i: nat) returns (max: nat)
      requires Linked() && 1 <= i && 2 * i <= n
      ensures max == LargestOf(View(), i)
    {
      var left, right := 2 * i, 2 * i + 1;
      max := i;
      ghost var h := View();
      assert At(h, i).priority == slots[i].priority && At(h, left).priority == slots[left].priority;
      if slots[left].priority > slots[max].priority {
        max := left;
      }
      if right <= n {
        assert At(h, right).priority == slots[right].priority;
        if slots[right].priority > slots[max].priority {
          max := right;
        }
      }
    }

    /** `float_up_or_down` */
    method FloatUpOrDownNode(i: nat)
      requires Linked() && 1 <= i <= n
      modifies slots, nodes`idx
      ensures Linked() && View() == FloatUpOrDown(old(View()), i)
    {
      var moved := FloatUpNode(i);
      if !moved {
        FloatDownNode(i);
      }
    }
  
    /** The reallocation in `heap_raw_insert`. */
    method Grow()
      requires Linked() && n >= capacity
      modifies this`slots, this`capacity
      ensures Linked() && View() == old(View()) && n < capacity && fresh(slots)
    {
      ghost var h := View();
      capacity := if n == 0 then 1 else 2 * n;
      var bigger := new HeapNode?[capacity + 1](_ => null);
      for i := 0 to n + 1
        modifies bigger
        invariant forall j | 0 <= j < i :: bigger[j] == slots[j]
      {
        bigger[i] := slots[i];
      }
      slots := bigger;
      assert Linked();
      assert View() == h;
    }

    /** `heap_raw_insert`: doubles the array when it is full, and appends. */
    method RawInsert(node: HeapNode, priority: nat)
      requires Linked() && node !in nodes
      modifies this, slots, node
      ensures Linked() && nodes == old(nodes) + {node} && (slots == old(slots) || fresh(slots))
      ensures View() == old(View()) + [Node(node, priority)]
    {
      ghost var h := View();
      if n >= capacity {
        Grow();
      }
      n := n + 1;
      slots[n] := node;
      node.idx := n;
      node.priority := priority;
      nodes := nodes + {node};
      assert Linked();
      assert View() == h + [Node(node, priority)];
    }

    /** `heap_insert` */
    method InsertNode(node: HeapNode, priority: nat)
      requires Valid() && node !in nodes
      modifies this, slots, node, nodes`idx
      ensures Valid() && nodes == old(nodes) + {node} && (slots == old(slots) || fresh(slots))
      ensures View() == Insert(old(View()), Node(node, priority))
    {
      InsertIsHeap(View(), Node(node, priority));
      RawInsert(node, priority);
      var _ := FloatUpNode(node.idx);
    }

    /** `heap_raw_remove` */
    method RawRemoveNode(node: HeapNode)
      requires Linked() && node in nodes
      modifies this, slots, nodes`idx
      ensures Linked() && nodes == old(nodes) - {node} && slots == old(slots)
      ensures View() == RawRemove(old(View()), old(node.idx))
    {
      var i := node.idx;
      if i < n {
        slots[i] := slots[n];
        slots[i].idx := i;
      }
      n := n - 1;
      nodes := nodes - {node};
    }

    /** `heap_remove` of any node */
    method RemoveNode(node: HeapNode)
      requires Valid() && node in nodes
      modifies this, slots, nodes`idx
      ensures Valid() && nodes == old(nodes) - {node} && slots == old(slots)
      ensures View() == Remove(old(View()), old(node.idx))
    {
      RemoveIsHeap(View(), node.idx);
      var i := node.idx;
      RawRemoveNode(node);
      if i <= n {
        FloatUpOrDownNode(i);
      }
    }

    /** `heap_change` */
    method ChangeNode(node: HeapNode, priority: nat)
      requires Valid() && node in nodes
      modifies slots, nodes`idx, node`priority
      ensures Valid() && View() == Change(old(View()), old(node.idx), priority)
    {
      ChangeIsHeap(View(), node.idx, priority);
      ghost var h, i := View(), node.idx;
      node.priority := priority;
      assert View() == h[i - 1 := h[i - 1].(priority := priority)];
      FloatUpOrDownNode(node.idx);
    }

    /** `heap_rebuild`, after any raw operations */
    method Rebuild()
      requires Linked()
      modifies slots, nodes`idx
      ensures Valid() && View() == RebuildFrom(old(View()), n / 2)
    {
      hide Ordered, OrderedFrom, FloatDown;
      RebuildAll(View());
      var i: nat := n / 2;
      while i >= 1
        invariant Linked() && RebuildFrom(View(), i) == RebuildFrom(old(View()), n / 2)
      {
        FloatDownNode(i);
        i := i - 1;
      }
    }

    /** `heap_pop`: takes the last node, which keeps the heap. */
    method Pop() returns (node: HeapNode)
      requires Valid() && n > 0
      modifies this
      ensures Valid() && node in old(nodes) && nodes == old(nodes) - {node} && slots == old(slots)
      ensures View() == old(View())[..old(n) - 1] && node == old(View())[old(n) - 1].key
    {
      PrefixIsHeap(View(), n - 1);
      node := slots[n];
      ghost var h := View();
      n := n - 1;
      nodes := nodes - {node};
      assert View() == h[..n];
    }

    /** `heap_max`: no node of the heap has a higher priority. */
    method Max() returns (node: HeapNode)
      requires Valid() && n > 0
      ensures node in nodes && forall x | x in nodes :: x.priority <= node.priority
    {
      node := slots[1];
      forall x | x in nodes ensures x.priority <= node.priority {
        RootIsMaximal(View(), x.idx);
        assert At(View(), x.idx).priority == x.priority && At(View(), 1).priority == node.priority;
      }
    }
  }
}
