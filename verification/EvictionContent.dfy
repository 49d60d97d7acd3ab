/** What an eviction index says of each rule, whatever the shape of its heaps. */
module EvictionContent {
  import opened Options
  import opened HeapSpec
  import opened HeapKeys
  import opened EvictionSpec

  /** Where a rule is filed: the id of its group and its priority there. */
  datatype Filing = Filing(group: nat, priority: nat)

  ghost function Content(ix: Index): (c: map<nat, Filing>)
    requires GroupsGood(ix)
    ensures c.Keys == ix.groupOf.Keys
  {
    map r | r in ix.groupOf :: Filing(ix.groupOf[r], PriorityOf(ix.groups[ix.groupOf[r]], r))
  }

  /** A node of a group's heap is the filing of a rule, and the reverse. */
  lemma FiledIff(ix: Index, g: nat, r: nat, p: nat)
    requires GroupsGood(ix)
    ensures Node(r, p) in multiset(HeapOf(ix, g)) <==> r in ix.groupOf && Content(ix)[r] == Filing(g, p)
  {
    hide Ordered, KeysUnique, HasKey, PriorityOf, Pos;
    var h := HeapOf(ix, g);
    if Node(r, p) in multiset(h) {
      assert GroupGood(ix.groupOf, g, h);
      PriorityIn(h, r, p);
    }
    if r in ix.groupOf && ix.groupOf[r] == g {
      PriorityStored(h, r);
    }
  }

  lemma PriorityStored(h: Nodes<nat>, key: nat)
    requires HasKey(h, key)
    ensures Node(key, PriorityOf(h, key)) in multiset(h)
  {
    assert At(h, Pos(h, key)) in multiset(h);
  }

  /** Adding a rule files it and leaves every other filing alone. */
  lemma AddContent(ix: Index, hash: nat -> nat, r: nat, groupPriority: nat, priority: nat, random: U16)
    requires Good(ix, hash) && r !in ix.groupOf
    ensures var to := Add(ix, hash, r, groupPriority, priority, random);
            && Good(to, hash) && Content(to) == Content(ix)[r := Filing(hash(r), priority)]
  {
    hide GroupsGood, SizesGood, Content, Add;
    var to, g := Add(ix, hash, r, groupPriority, priority, random), hash(r);
    AddKeeps(ix, hash, r, groupPriority, priority, random);
    forall q | q in to.groupOf ensures Content(to)[q] == Content(ix)[r := Filing(g, priority)][q] {
      if q == r { FiledIff(to, g, r, priority); } else { FiledElsewhere(ix, to, g, r, q); }
    }
  }

  lemma FiledElsewhere(ix: Index, to: Index, g: nat, r: nat, q: nat)
    requires GroupsGood(ix) && GroupsGood(to) && DiffersAt(ix, to, g, r) && q != r && q in ix.groupOf
    requires forall x: Node<nat> | x.key != r :: x in multiset(HeapOf(to, g)) <==> x in multiset(HeapOf(ix, g))
    ensures q in to.groupOf && Content(to)[q] == Content(ix)[q]
  {
    hide GroupsGood, Content;
    var filing := Content(ix)[q];
    FiledIff(ix, filing.group, q, filing.priority);
    FiledIff(to, filing.group, q, filing.priority);
  }

  /** Removing a rule drops its filing and no other. */
  lemma RemoveContent(ix: Index, hash: nat -> nat, r: nat, random: U16)
    requires Good(ix, hash)
    ensures var to := RemoveRule(ix, hash, r, random);
            && Good(to, hash) && Content(to) == Content(ix) - {r}
  {
    hide GroupsGood, SizesGood, Content, RemoveRule;
    var to := RemoveRule(ix, hash, r, random);
    if r in ix.groupOf {
      RemoveKeeps(ix, hash, r, random);
      forall q | q in to.groupOf ensures q in ix.groupOf && Content(to)[q] == Content(ix)[q] {
        FiledElsewhere(ix, to, hash(r), r, q);
      }
      assert Content(to).Keys == Content(ix).Keys - {r};
    } else {
      RemoveUngrouped(ix, hash, r, random);
      assert r !in Content(ix);
    }
  }

  lemma RemoveUngrouped(ix: Index, hash: nat -> nat, r: nat, random: U16)
    requires Good(ix, hash) && r !in ix.groupOf
    ensures RemoveRule(ix, hash, r, random) == ix
  {
    hide Good;
  }

  /** Indices with the same filings have the same groups, of the same sizes. */
  lemma ContentFixesGroups(ix: Index, iy: Index, g: nat)
    requires GroupsGood(ix) && GroupsGood(iy) && Content(ix) == Content(iy)
    ensures g in ix.groups <==> g in iy.groups
    ensures multiset(HeapOf(ix, g)) == multiset(HeapOf(iy, g)) && |HeapOf(ix, g)| == |HeapOf(iy, g)|
  {
    hide Content, Ordered, KeysUnique, HasKey;
    var h, k := HeapOf(ix, g), HeapOf(iy, g);
    forall x: Node<nat> ensures x in multiset(h) <==> x in multiset(k) {
      FiledIff(ix, g, x.key, x.priority);
      FiledIff(iy, g, x.key, x.priority);
    }
    HeapOfUnique(ix, g);
    HeapOfUnique(iy, g);
    SameNodes(h, k);
    assert g in ix.groups ==> GroupGood(ix.groupOf, g, h);
    assert g in iy.groups ==> GroupGood(iy.groupOf, g, k);
  }

  lemma HeapOfUnique(ix: Index, g: nat)
    requires GroupsGood(ix)
    ensures KeysUnique(HeapOf(ix, g))
  {
  }

  lemma SameNodes(h: Nodes<nat>, k: Nodes<nat>)
    requires KeysUnique(h) && KeysUnique(k) && forall x :: x in multiset(h) <==> x in multiset(k)
    ensures multiset(h) == multiset(k) && |h| == |k|
  {
    MultisetOfUnique(h);
    MultisetOfUnique(k);
    forall x ensures multiset(h)[x] == multiset(k)[x] {
      if x in multiset(h) { assert multiset(h)[x] == 1 && multiset(k)[x] == 1; }
    }
    assert |multiset(h)| == |h| && |multiset(k)| == |k|;
  }

  // ---- the choice of a victim ----

  /** `r` is the first evictable rule, with groups by size and rules of a group in heap order. */
  ghost predicate FirstEvictable(ix: Index, evictable: set<nat>, r: nat) {
    exists i: nat, j: nat :: FirstAt(ix, evictable, i, j) && ix.groups[ix.bySize[i].key][j].key == r
  }

  ghost predicate FirstAt(ix: Index, evictable: set<nat>, i: nat, j: nat) {
    && i < |ix.bySize| && NoneIn(ix, evictable, i) && ix.bySize[i].key in ix.groups
    && var h := ix.groups[ix.bySize[i].key];
       j < |h| && h[j].key in evictable && forall k | 0 <= k < j :: h[k].key !in evictable
  }

  /** No rule of the first `n` groups is evictable. */
  ghost predicate NoneIn(ix: Index, evictable: set<nat>, n: nat) {
    && n <= |ix.bySize|
    && forall i | 0 <= i < n ::
         ix.bySize[i].key in ix.groups && NoEvictable(ix.groups[ix.bySize[i].key], evictable)
  }

  ghost predicate NoEvictable(h: Nodes<nat>, evictable: set<nat>) {
    forall k | 0 <= k < |h| :: h[k].key !in evictable
  }

  /** When every group has been searched in vain, no grouped rule is evictable. */
  lemma SearchedAll(ix: Index, evictable: set<nat>)
    requires GroupsGood(ix) && SizesGood(ix) && NoneIn(ix, evictable, |ix.bySize|)
    ensures ix.groupOf.Keys !! evictable
  {
  }

  lemma VictimIsGrouped(ix: Index, evictable: set<nat>, r: nat)
    requires GroupsGood(ix) && FirstEvictable(ix, evictable, r)
    ensures r in ix.groupOf && r in evictable
  {
  }

  /** The top group by size has no fewer rules than any other, or 65535 rules and more. */
  lemma FirstGroupIsLargest(ix: Index, g: nat)
    requires SizesGood(ix) && g in ix.groups
    ensures |ix.bySize| > 0 && ix.bySize[0].key in ix.groups
    ensures |ix.groups[ix.bySize[0].key]| >= |ix.groups[g]| || |ix.groups[ix.bySize[0].key]| >= 65535
  {
    hide Ordered, KeysUnique;
    assert HasKey(ix.bySize, g);
    var i :| 0 <= i < |ix.bySize| && ix.bySize[i].key == g;
    assert HasKey(ix.bySize, ix.bySize[0].key);
    RootIsMaximal(ix.bySize, i + 1);
    assert ix.bySize[0] in multiset(ix.bySize) && ix.bySize[i] in multiset(ix.bySize);
    QuotientMonotone(ix.bySize[0].priority, ix.bySize[i].priority);
  }

  lemma QuotientMonotone(x: nat, y: nat)
    requires x >= y
    ensures x / 65536 >= y / 65536
  {
  }

  /** With every rule evictable, the victim has the highest priority in its group, and its group has no
      fewer rules than any other, or 65535 rules and more. */
  lemma VictimIsWorst(ix: Index, evictable: set<nat>, r: nat, q: nat)
    requires GroupsGood(ix) && SizesGood(ix) && FirstEvictable(ix, evictable, r)
    requires ix.groupOf.Keys <= evictable && q in ix.groupOf
    ensures r in ix.groupOf
    ensures var g, k := Content(ix)[r].group, Content(ix)[q].group;
            && (|HeapOf(ix, g)| >= |HeapOf(ix, k)| || |HeapOf(ix, g)| >= 65535)
            && (g == k ==> Content(ix)[r].priority >= Content(ix)[q].priority)
  {
    hide Ordered, KeysUnique, HasKey, SizesGood, PriorityOf;
    VictimIsGrouped(ix, evictable, r);
    var i: nat, j: nat :| FirstAt(ix, evictable, i, j) && ix.groups[ix.bySize[i].key][j].key == r;
    FirstMeansRoot(ix, evictable, i, j);
    var g := ix.groupOf[r];
    FirstGroupIsLargest(ix, ix.groupOf[q]);
    RootHasHighest(ix, g, q);
  }

  lemma FirstMeansRoot(ix: Index, evictable: set<nat>, i: nat, j: nat)
    requires GroupsGood(ix) && FirstAt(ix, evictable, i, j) && ix.groupOf.Keys <= evictable
    ensures i == 0 && j == 0 && ix.groups[ix.bySize[0].key][0].key in ix.groupOf
    ensures ix.groupOf[ix.groups[ix.bySize[0].key][0].key] == ix.bySize[0].key
  {
    hide Ordered, KeysUnique, HasKey;
    RootEvictable(ix, evictable, ix.bySize[i].key);
    RootEvictable(ix, evictable, ix.bySize[0].key);
  }

  lemma RootEvictable(ix: Index, evictable: set<nat>, g: nat)
    requires GroupsGood(ix) && ix.groupOf.Keys <= evictable
    ensures g in ix.groups ==>
             ix.groups[g] != [] && ix.groups[g][0].key in evictable && !NoEvictable(ix.groups[g], evictable)
    ensures g in ix.groups ==> ix.groups[g][0].key in ix.groupOf && ix.groupOf[ix.groups[g][0].key] == g
  {
  }

  lemma NodeOf(h: Nodes<nat>, key: nat) returns (i: nat)
    requires HasKey(h, key)
    ensures i < |h| && h[i].key == key && h[i] in multiset(h) && h[i] == Node(key, h[i].priority)
  {
    i :| 0 <= i < |h| && h[i].key == key;
  }

  lemma RootHasHighest(ix: Index, g: nat, q: nat)
    requires GroupsGood(ix) && q in ix.groupOf && g in ix.groups
    ensures ix.groups[g] != [] && ix.groups[g][0].key in ix.groupOf
    ensures ix.groupOf[q] == g ==> Content(ix)[ix.groups[g][0].key].priority >= Content(ix)[q].priority
  {
    hide Ordered, KeysUnique, HasKey, Content;
    var h := ix.groups[g];
    assert GroupGood(ix.groupOf, g, h);
    assert h[0] in multiset(h);
    FiledIff(ix, g, h[0].key, h[0].priority);
    if ix.groupOf[q] == g {
      var i := NodeOf(h, q);
      FiledIff(ix, g, q, h[i].priority);
      RootIsMaximal(h, i + 1);
    }
  }
}
