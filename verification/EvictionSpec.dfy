/** The eviction index of one table (`eviction.c`): groups of rules, each a heap, indexed by
    group id and by size. */
module EvictionSpec {
  import opened Options
  import opened HeapSpec
  import opened HeapKeys

  type U16 = x: nat | x < 65536

  /** `groups` is `eviction_groups_by_id`, with the heap of rules of each group; `bySize` is the heap
      of groups; `groupOf` gives the group of each rule that has one. */
  datatype Index = Index(groups: map<nat, Nodes<nat>>, bySize: Nodes<nat>, groupOf: map<nat, nat>)

  /** The heap of group `g` holds rules that point at the group. */
  ghost predicate GroupGood(groupOf: map<nat, nat>, g: nat, h: Nodes<nat>) {
    && h != [] && Ordered(h) && KeysUnique(h)
    && forall x | x in multiset(h) :: x.key in groupOf && groupOf[x.key] == g
  }

  /** Every group is a non-empty heap, and holds just the rules that point at it. */
  ghost predicate GroupsGood(ix: Index) {
    && (forall g | g in ix.groups :: GroupGood(ix.groupOf, g, ix.groups[g]))
    && (forall r | r in ix.groupOf :: ix.groupOf[r] in ix.groups && HasKey(ix.groups[ix.groupOf[r]], r))
  }

  /** The top 16 bits of a group's priority in the heap by size. */
  function SizeBits(n: nat): nat {
    if n < 65535 then n else 65535
  }

  /** The size heap holds just the groups; all but group `skip` have their size in the top 16 bits. */
  ghost predicate SizesGoodBut(ix: Index, skip: Option<nat>) {
    && Ordered(ix.bySize) && KeysUnique(ix.bySize)
    && (forall g :: HasKey(ix.bySize, g) <==> g in ix.groups)
    && (forall x | x in multiset(ix.bySize) && x.key in ix.groups && skip != Some(x.key) ::
          x.priority / 65536 == SizeBits(|ix.groups[x.key]|))
  }

  ghost predicate SizesGood(ix: Index) {
    SizesGoodBut(ix, None)
  }

  ghost predicate HashesGood(ix: Index, hash: nat -> nat) {
    forall r | r in ix.groupOf :: ix.groupOf[r] == hash(r)
  }

  /** What holds between operations; `hash` is `eviction_group_hash_rule` for the table. */
  ghost predicate Good(ix: Index, hash: nat -> nat) {
    GroupsGood(ix) && SizesGood(ix) && HashesGood(ix, hash)
  }

  const EMPTY: Index := Index(map[], [], map[])

  lemma EmptyIsGood(hash: nat -> nat)
    ensures Good(EMPTY, hash)
  {
  }

  // ---- one group replaced by another ----

  /** `to` differs from `ix` in group `g` and in rule `r` at most. */
  ghost predicate DiffersAt(ix: Index, to: Index, g: nat, r: nat) {
    && (forall j | j != g :: j in to.groups <==> j in ix.groups)
    && (forall j | j != g && j in ix.groups :: to.groups[j] == ix.groups[j])
    && (forall q | q != r :: q in to.groupOf <==> q in ix.groupOf)
    && (forall q | q != r && q in ix.groupOf :: to.groupOf[q] == ix.groupOf[q])
    && (r in ix.groupOf ==> ix.groupOf[r] == g)
    && (r in to.groupOf ==> to.groupOf[r] == g)
  }

  lemma GroupsAfter(ix: Index, to: Index, g: nat, r: nat)
    requires GroupsGood(ix) && DiffersAt(ix, to, g, r)
    requires g in to.groups ==> GroupGood(to.groupOf, g, to.groups[g])
    requires forall q | q in to.groupOf && to.groupOf[q] == g :: g in to.groups && HasKey(to.groups[g], q)
    ensures GroupsGood(to)
  {
  }

  // ---- the operations ----

  /** `(MIN(UINT16_MAX, n) << 16) | random` */
  function GroupPriority(n: nat, random: U16): nat {
    SizeBits(n) * 65536 + random
  }

  lemma GroupPriorityBits(n: nat, random: U16)
    ensures GroupPriority(n, random) / 65536 == (if n < 65535 then n else 65535)
    ensures GroupPriority(n, random) % 65536 == random && GroupPriority(n, random) < 0x1_0000_0000
  {
  }

  /** `sgx_evg_group_resize` */
  function Resize(ix: Index, g: nat, random: U16): Index
    requires g in ix.groups && HasKey(ix.bySize, g)
  {
    ix.(bySize := Change(ix.bySize, Pos(ix.bySize, g), GroupPriority(|ix.groups[g]|, random)))
  }

  lemma ResizeKeeps(ix: Index, g: nat, random: U16)
    requires g in ix.groups && SizesGoodBut(ix, Some(g))
    ensures HasKey(ix.bySize, g) && SizesGood(Resize(ix, g, random))
    ensures forall x | x in multiset(Resize(ix, g, random).bySize) && x.key == g ::
              x.priority / 65536 == if |ix.groups[g]| < 65535 then |ix.groups[g]| else 65535
  {
    hide Ordered, Change, Pos, KeysUnique, HasKey;
    var p := GroupPriority(|ix.groups[g]|, random);
    assert HasKey(ix.bySize, g);
    ChangeKeys(ix.bySize, g, p);
    GroupPriorityBits(|ix.groups[g]|, random);
    var to := Resize(ix, g, random);
    forall j ensures HasKey(to.bySize, j) <==> j in to.groups {
      KeyChanged(ix.bySize, to.bySize, Node(g, p), j);
    }
  }

  lemma KeyChanged(h: Nodes<nat>, to: Nodes<nat>, node: Node<nat>, key: nat)
    requires forall x :: x in multiset(to) <==> x == node || (x in multiset(h) && x.key != node.key)
    ensures HasKey(to, key) <==> key == node.key || HasKey(h, key)
  {
  }

  lemma KeyAdded(h: Nodes<nat>, to: Nodes<nat>, node: Node<nat>, key: nat)
    requires forall x :: x in multiset(to) <==> x == node || x in multiset(h)
    ensures HasKey(to, key) <==> key == node.key || HasKey(h, key)
  {
    hide HasKey;
    KeyInMultiset(h, key);
    KeyInMultiset(to, key);
    assert key == node.key ==> node in multiset(to);
    if HasKey(h, key) { var x :| x in multiset(h) && x.key == key; assert x in multiset(to); }
  }

  lemma KeyRemoved(h: Nodes<nat>, to: Nodes<nat>, gone: nat, key: nat)
    requires forall x :: x in multiset(to) <==> x in multiset(h) && x.key != gone
    ensures HasKey(to, key) <==> key != gone && HasKey(h, key)
  {
  }

  function HeapOf(ix: Index, g: nat): Nodes<nat> {
    if g in ix.groups then ix.groups[g] else []
  }

  /** `sgx_evg_find`: the group with the given id, created if need be. */
  function Find(ix: Index, g: nat, priority: nat): Index {
    if g in ix.groups then ix
    else ix.(groups := ix.groups[g := []], bySize := Insert(ix.bySize, Node(g, priority)))
  }

  /** The rule joins the heap of its group, which exists. */
  function Join(ix: Index, g: nat, r: nat, priority: nat): Index
    requires g in ix.groups
  {
    ix.(groups := ix.groups[g := Insert(ix.groups[g], Node(r, priority))], groupOf := ix.groupOf[r := g])
  }

  /** The index with the rule in its group, before the group is resized. */
  function Placed(ix: Index, g: nat, r: nat, groupPriority: nat, priority: nat): Index {
    Join(Find(ix, g, groupPriority), g, r, priority)
  }

  /** `ecall_evg_add_rule` of a rule in no group. `groupPriority` is used for a group created here. */
  function Add(ix: Index, hash: nat -> nat, r: nat, groupPriority: nat, priority: nat, random: U16): Index
    requires Good(ix, hash) && r !in ix.groupOf
  {
    PlacedSizes(ix, hash(r), r, groupPriority, priority);
    Resize(Placed(ix, hash(r), r, groupPriority, priority), hash(r), random)
  }

  lemma FindSizes(ix: Index, g: nat, priority: nat)
    requires SizesGood(ix)
    ensures SizesGoodBut(Find(ix, g, priority), Some(g))
  {
    hide Ordered, Insert, KeysUnique, HasKey;
    var to := Find(ix, g, priority);
    if g !in ix.groups {
      InsertKeys(ix.bySize, g, priority);
      forall j ensures HasKey(to.bySize, j) <==> j in to.groups {
        KeyAdded(ix.bySize, to.bySize, Node(g, priority), j);
      }
    }
  }

  lemma PlacedSizes(ix: Index, g: nat, r: nat, groupPriority: nat, priority: nat)
    requires SizesGood(ix)
    ensures var to := Placed(ix, g, r, groupPriority, priority);
            g in to.groups && HasKey(to.bySize, g) && SizesGoodBut(to, Some(g))
  {
    hide Ordered, Insert, KeysUnique, HasKey, Find, SizesGood;
    FindSizes(ix, g, groupPriority);
    FindHas(ix, g, groupPriority);
    var to := Placed(ix, g, r, groupPriority, priority);
    assert to.groups.Keys == Find(ix, g, groupPriority).groups.Keys;
  }

  lemma FindHas(ix: Index, g: nat, priority: nat)
    ensures var to := Find(ix, g, priority);
            && g in to.groups && to.groups[g] == HeapOf(ix, g) && to.groupOf == ix.groupOf
            && to.groups.Keys == ix.groups.Keys + {g} && forall j | j in ix.groups :: to.groups[j] == ix.groups[j]
  {
  }

  lemma HeapOfGood(ix: Index, g: nat, r: nat)
    requires GroupsGood(ix) && r !in ix.groupOf
    ensures Ordered(HeapOf(ix, g)) && KeysUnique(HeapOf(ix, g)) && !HasKey(HeapOf(ix, g), r)
  {
  }

  /** The rule is in its group, and the other groups and rules are as before. */
  lemma PlacedGroups(ix: Index, g: nat, r: nat, groupPriority: nat, priority: nat)
    requires GroupsGood(ix) && r !in ix.groupOf
    ensures var to := Placed(ix, g, r, groupPriority, priority);
            && GroupsGood(to) && DiffersAt(ix, to, g, r) && r in to.groupOf && g in to.groups
            && (forall x :: x in multiset(to.groups[g]) <==> x == Node(r, priority) || x in multiset(HeapOf(ix, g)))
  {
    hide Ordered, Insert, KeysUnique, HasKey, Find, HeapOf, GroupsGood;
    FindHas(ix, g, groupPriority);
    var h := HeapOf(ix, g);
    var to := Placed(ix, g, r, groupPriority, priority);
    HeapOfGood(ix, g, r);
    InsertKeys(h, r, priority);
    assert to.groups[g] == Insert(h, Node(r, priority));
    PlacedInto(ix, to, g, r, priority);
  }

  lemma PlacedInto(ix: Index, to: Index, g: nat, r: nat, priority: nat)
    requires GroupsGood(ix) && r !in ix.groupOf
    requires DiffersAt(ix, to, g, r) && r in to.groupOf && g in to.groups && to.groups[g] != []
    requires Ordered(to.groups[g]) && KeysUnique(to.groups[g])
    requires forall x :: x in multiset(to.groups[g]) <==> x == Node(r, priority) || x in multiset(HeapOf(ix, g))
    ensures GroupsGood(to)
  {
    hide Ordered, KeysUnique, HasKey;
    var h := HeapOf(ix, g);
    assert g in ix.groups ==> GroupGood(ix.groupOf, g, h);
    forall q | q in to.groupOf && to.groupOf[q] == g ensures HasKey(to.groups[g], q) {
      KeyAdded(h, to.groups[g], Node(r, priority), q);
    }
    GroupsAfter(ix, to, g, r);
  }

  lemma SameGroups(ix: Index, to: Index)
    requires to.groups == ix.groups && to.groupOf == ix.groupOf && GroupsGood(ix)
    ensures GroupsGood(to)
  {
    hide GroupGood, HasKey;
  }

  lemma AddKeeps(ix: Index, hash: nat -> nat, r: nat, groupPriority: nat, priority: nat, random: U16)
    requires Good(ix, hash) && r !in ix.groupOf
    ensures var to := Add(ix, hash, r, groupPriority, priority, random);
            && Good(to, hash) && DiffersAt(ix, to, hash(r), r) && r in to.groupOf && hash(r) in to.groups
            && (forall x ::
                  x in multiset(to.groups[hash(r)]) <==> x == Node(r, priority) || x in multiset(HeapOf(ix, hash(r))))
  {
    hide SizesGoodBut, Placed, GroupsGood, HasKey, Change;
    var g := hash(r);
    var mid := Placed(ix, g, r, groupPriority, priority);
    var to := Add(ix, hash, r, groupPriority, priority, random);
    PlacedGroups(ix, g, r, groupPriority, priority);
    PlacedSizes(ix, g, r, groupPriority, priority);
    ResizeKeeps(mid, g, random);
    SameGroups(mid, to);
  }

  /** The rule leaves the heap of its group. */
  function Leave(ix: Index, r: nat): Index
    requires GroupsGood(ix) && r in ix.groupOf
  {
    var g := ix.groupOf[r];
    ix.(groups := ix.groups[g := Remove(ix.groups[g], Pos(ix.groups[g], r))], groupOf := ix.groupOf - {r})
  }

  /** `sgx_evg_destroy` of a group with no rules left */
  function Destroy(ix: Index, g: nat): Index
    requires HasKey(ix.bySize, g)
  {
    ix.(groups := ix.groups - {g}, bySize := Remove(ix.bySize, Pos(ix.bySize, g)))
  }

  /** `ecall_evg_remove_rule` */
  function RemoveRule(ix: Index, hash: nat -> nat, r: nat, random: U16): Index
    requires Good(ix, hash)
  {
    if r !in ix.groupOf then ix else
      LeaveSizes(ix, r);
      var g, left := ix.groupOf[r], Leave(ix, r);
      if left.groups[g] == [] then Destroy(left, g) else Resize(left, g, random)
  }

  lemma LeaveSizes(ix: Index, r: nat)
    requires GroupsGood(ix) && SizesGood(ix) && r in ix.groupOf
    ensures var g, left := ix.groupOf[r], Leave(ix, r);
            g in left.groups && HasKey(left.bySize, g) && SizesGoodBut(left, Some(g))
  {
    hide Ordered, KeysUnique, HasKey, Remove, Pos, GroupGood;
    assert Leave(ix, r).groups.Keys == ix.groups.Keys;
  }

  lemma LeaveGroup(ix: Index, r: nat)
    requires GroupsGood(ix) && r in ix.groupOf
    ensures var g, left := ix.groupOf[r], Leave(ix, r);
            && g in left.groups && Ordered(left.groups[g]) && KeysUnique(left.groups[g])
            && (forall x :: x in multiset(left.groups[g]) <==> x in multiset(ix.groups[g]) && x.key != r)
  {
    hide Ordered, KeysUnique, HasKey, Remove, Pos;
    var g := ix.groupOf[r];
    assert GroupGood(ix.groupOf, g, ix.groups[g]);
    RemoveKeys(ix.groups[g], r);
  }

  lemma DestroySizes(ix: Index, g: nat)
    requires SizesGoodBut(ix, Some(g)) && g in ix.groups
    ensures HasKey(ix.bySize, g) && SizesGood(Destroy(ix, g))
  {
    hide Ordered, KeysUnique, HasKey, Remove, Pos;
    assert HasKey(ix.bySize, g);
    RemoveKeys(ix.bySize, g);
    var to := Destroy(ix, g);
    forall j ensures HasKey(to.bySize, j) <==> j in to.groups { KeyRemoved(ix.bySize, to.bySize, g, j); }
  }

  /** Removal of a rule takes it out of its group, and the group out of the index with its last rule. */
  lemma RemoveKeeps(ix: Index, hash: nat -> nat, r: nat, random: U16)
    requires Good(ix, hash) && r in ix.groupOf
    ensures var to := RemoveRule(ix, hash, r, random);
            && Good(to, hash) && DiffersAt(ix, to, hash(r), r) && r !in to.groupOf
            && (forall x :: x in multiset(HeapOf(to, hash(r))) <==> x in multiset(HeapOf(ix, hash(r))) && x.key != r)
  {
    hide SizesGoodBut, Ordered, KeysUnique, HasKey, Change, Pos, Remove, Leave, GroupsGood;
    var g, left := hash(r), Leave(ix, r);
    LeaveSizes(ix, r);
    LeaveGroup(ix, r);
    LeaveOthers(ix, r);
    assert g in ix.groups by { GroupOfIn(ix, r); }
    if left.groups[g] == [] { DestroySizes(left, g); } else { ResizeKeeps(left, g, random); }
    RemovedGroups(ix, left, RemoveRule(ix, hash, r, random), g, r);
  }

  lemma GroupOfIn(ix: Index, r: nat)
    requires GroupsGood(ix) && r in ix.groupOf
    ensures ix.groupOf[r] in ix.groups
  {
  }

  lemma LeaveOthers(ix: Index, r: nat)
    requires GroupsGood(ix) && r in ix.groupOf
    ensures var left := Leave(ix, r);
            DiffersAt(ix, left, ix.groupOf[r], r) && r !in left.groupOf
  {
    hide Remove, Pos, HasKey, GroupGood;
  }

  lemma RemovedGroups(ix: Index, left: Index, to: Index, g: nat, r: nat)
    requires GroupsGood(ix) && DiffersAt(ix, left, g, r) && g in ix.groups && g in left.groups && r !in left.groupOf
    requires Ordered(left.groups[g]) && KeysUnique(left.groups[g])
    requires forall x :: x in multiset(left.groups[g]) <==> x in multiset(ix.groups[g]) && x.key != r
    requires to.groupOf == left.groupOf
    requires to.groups == if left.groups[g] == [] then left.groups - {g} else left.groups
    ensures GroupsGood(to)
  {
    hide Ordered, KeysUnique, HasKey;
    assert GroupGood(ix.groupOf, g, ix.groups[g]);
    forall q | q in to.groupOf && to.groupOf[q] == g ensures g in to.groups && HasKey(to.groups[g], q) {
      KeyRemoved(ix.groups[g], left.groups[g], r, q);
      KeyInMultiset(left.groups[g], q);
    }
    GroupsAfter(ix, to, g, r);
  }
}
