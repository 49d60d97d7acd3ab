/** `hmap.h` and `hmap.c`: a hash map of intrusive nodes, each on the chain of its bucket. */
module Hmap {
  import opened Sequences
  import opened Options
  import opened Masks

  /** `struct hmap_node`: which node it is, and the hash stored in it. */
  datatype Node = Node(id: nat, hash: nat)

  /** All nodes, bucket by bucket: the order of `HMAP_FOR_EACH`. */
  function Flat(chains: seq<seq<Node>>): seq<Node> {
    if chains == [] then [] else Flat(chains[..|chains| - 1]) + chains[|chains| - 1]
  }

  lemma {:induction false} FlatConcat(a: seq<seq<Node>>, b: seq<seq<Node>>)
    ensures Flat(a + b) == Flat(a) + Flat(b)
    decreases |b|
  {
    if b == [] {
      assert a + b == a;
    } else {
      var c := b[..|b| - 1];
      assert (a + b)[..|a + b| - 1] == a + c;
      FlatConcat(a, c);
      assert Flat(a + b) == Flat(a + c) + b[|b| - 1];
    }
  }

  lemma FlatOne(c: seq<Node>)
    ensures Flat([c]) == c
  {
    assert [c][..0] == [];
  }

  lemma SplitAt(chains: seq<seq<Node>>, i: nat)
    requires i < |chains|
    ensures chains == (chains[..i] + [chains[i]]) + chains[i + 1..]
  {
  }

  /** The part of the map before a bucket, the bucket, and the part after it. */
  lemma FlatSplit(chains: seq<seq<Node>>, i: nat)
    requires i < |chains|
    ensures Flat(chains) == Flat(chains[..i]) + chains[i] + Flat(chains[i + 1..])
  {
    hide Flat;
    var a, c, b := chains[..i], [chains[i]], chains[i + 1..];
    SplitAt(chains, i);
    FlatConcat(a + c, b);
    FlatConcat(a, c);
    FlatOne(chains[i]);
  }

  lemma FlatUpdate(chains: seq<seq<Node>>, i: nat, c: seq<Node>)
    requires i < |chains|
    ensures Flat(chains[i := c]) == Flat(chains[..i]) + c + Flat(chains[i + 1..])
    ensures multiset(Flat(chains[i := c])) + multiset(chains[i]) == multiset(Flat(chains)) + multiset(c)
  {
    var to := chains[i := c];
    FlatSplit(chains, i);
    FlatSplit(to, i);
    assert to[..i] == chains[..i] && to[i + 1..] == chains[i + 1..];
  }

  lemma PlacedUpdate(chains: seq<seq<Node>>, mask: nat, i: nat, c: seq<Node>)
    requires Placed(chains, mask) && i < |chains| && forall k | 0 <= k < |c| :: And(c[k].hash, mask) == i
    ensures Placed(chains[i := c], mask)
  {
  }

  lemma {:induction false} FlatEmpty(chains: seq<seq<Node>>)
    requires forall i | 0 <= i < |chains| :: chains[i] == []
    ensures Flat(chains) == []
  {
    if chains != [] { FlatEmpty(chains[..|chains| - 1]); }
  }

  lemma {:induction false} InFlat(chains: seq<seq<Node>>, x: Node)
    requires x in Flat(chains)
    ensures exists i :: 0 <= i < |chains| && x in chains[i]
  {
    var last := |chains| - 1;
    if x in chains[last] {
    } else {
      InFlat(chains[..last], x);
      var i :| 0 <= i < last && x in chains[..last][i];
      assert x in chains[i];
    }
  }

  lemma InChain(chains: seq<seq<Node>>, i: nat, x: Node)
    requires i < |chains| && x in chains[i]
    ensures x in Flat(chains)
  {
    FlatSplit(chains, i);
  }

  /** Each node is on the chain that its hash selects. */
  ghost predicate Placed(chains: seq<seq<Node>>, mask: nat) {
    |chains| == mask + 1 && forall i, k | 0 <= i < |chains| && 0 <= k < |chains[i]| :: And(chains[i][k].hash, mask) == i
  }

  ghost predicate Distinct(s: seq<Node>) {
    forall i, j | 0 <= i < j < |s| :: s[i].id != s[j].id
  }

  /** A node of the map is on its chain. */
  lemma OnItsChain(chains: seq<seq<Node>>, mask: nat, x: Node)
    requires Placed(chains, mask) && x in Flat(chains)
    ensures And(x.hash, mask) < |chains| && x in chains[And(x.hash, mask)]
  {
    InFlat(chains, x);
    var i :| 0 <= i < |chains| && x in chains[i];
    var k :| 0 <= k < |chains[i]| && chains[i][k] == x;
  }

  /** The first node of the chain with the hash (`hmap_next_with_hash__`). */
  function WithHash(chain: seq<Node>, hash: nat): (r: Option<Node>)
    ensures r.Some? ==> r.value in chain && r.value.hash == hash
    ensures r.None? ==> forall x | x in chain :: x.hash != hash
  {
    if chain == [] then None else if chain[0].hash == hash then Some(chain[0]) else WithHash(chain[1..], hash)
  }

  class Map {
    var buckets: array<seq<Node>>
    var n: nat
    var mask: nat

    ghost predicate Valid()
      reads this, buckets
    {
      && buckets.Length == mask + 1 && IsMask(mask) && Placed(buckets[..], mask)
      && n == |All()| && Distinct(All())
    }

    ghost function All(): seq<Node>
      reads this, buckets
    {
      Flat(buckets[..])
    }

    /** `hmap_init` */
    constructor ()
      ensures Valid() && All() == [] && n == 0 && fresh(buckets)
    {
      buckets := new seq<Node>[1](_ => []);
      n, mask := 0, 0;
      new;
      assert 0 + 1 == Pow2(0);
      FlatEmpty(buckets[..]);
    }

    /** `hmap_insert_fast`: the node becomes the first of its chain. */
    method InsertFast(node: Node)
      requires Valid() && forall x | x in All() :: x.id != node.id
      modifies this`n, buckets
      ensures Valid() && n == old(n) + 1 && multiset(All()) == old(multiset(All())) + multiset{node}
    {
      AndAtMost(node.hash, mask);
      var b := And(node.hash, mask);
      ghost var was := buckets[..];
      hide And, IsMask, Flat, Placed, Distinct;
      Prepended(was, mask, b, node);
      buckets[b] := [node] + buckets[b];
      assert buckets[..] == was[b := [node] + was[b]];
      n := n + 1;
    }

    /** `resize`. The allocation of the buckets may fail, and then nothing changes. */
    method Resize(newMask: nat, canAllocate: bool) returns (done: bool)
      requires Valid() && IsMask(newMask) && newMask < Pow2(63)
      modifies this`buckets, this`n, this`mask
      ensures Valid() && n == old(n) && multiset(All()) == old(multiset(All()))
      ensures done <==> newMask == 0 || canAllocate
      ensures done ==> mask == newMask && fresh(buckets)
      ensures !done ==> mask == old(mask) && buckets == old(buckets) && buckets[..] == old(buckets[..])
    {
      hide Flat, Placed, Distinct, And, IsMask, Pow2;
      MaskTest(newMask);
      assert And(newMask, newMask + 1) == 0;
      assert newMask != 0xffff_ffff_ffff_ffff by { BelowMax(newMask); }
      if newMask != 0 && !canAllocate {
        return false;
      }
      var tmp := new seq<Node>[newMask + 1](_ => []);
      NoNodes(tmp[..], newMask);
      MoveChains(tmp, newMask);
      Swap(tmp, newMask);
      return true;
    }

    /** `hmap_swap` with the new buckets. */
    method Swap(tmp: array<seq<Node>>, newMask: nat)
      requires Valid() && tmp != buckets && tmp.Length == newMask + 1 && IsMask(newMask) && Placed(tmp[..], newMask)
      requires multiset(Flat(tmp[..])) == multiset(All())
      modifies this`buckets, this`mask
      ensures Valid() && buckets == tmp && mask == newMask && multiset(All()) == old(multiset(All()))
    {
      hide Flat, Placed, Distinct, And, IsMask;
      SameIsDistinct(All(), Flat(tmp[..]));
      buckets, mask := tmp, newMask;
    }

    /** The outer loop of `resize`. */
    method MoveChains(tmp: array<seq<Node>>, newMask: nat)
      requires Valid() && tmp != buckets && tmp.Length == newMask + 1 && Placed(tmp[..], newMask) && Flat(tmp[..]) == []
      modifies tmp
      ensures Placed(tmp[..], newMask) && multiset(Flat(tmp[..])) == multiset(All())
    {
      hide Placed, Distinct, And, IsMask;
      var i := 0;
      while i <= mask
        invariant i <= mask + 1 && Placed(tmp[..], newMask) && multiset(Flat(tmp[..])) == multiset(Flat(buckets[..i]))
      {
        Rehash(tmp, newMask, buckets[i], multiset(Flat(buckets[..i])));
        FlatNext(buckets[..], i);
        assert buckets[..][..i] == buckets[..i] && buckets[..][..i + 1] == buckets[..i + 1];
        i := i + 1;
      }
      assert buckets[..i] == buckets[..];
    }

    /** The inner loop of `resize`: moves one chain into the new buckets. */
    static method Rehash(tmp: array<seq<Node>>, newMask: nat, chain: seq<Node>, ghost done: multiset<Node>)
      requires tmp.Length == newMask + 1 && Placed(tmp[..], newMask) && multiset(Flat(tmp[..])) == done
      modifies tmp
      ensures Placed(tmp[..], newMask) && multiset(Flat(tmp[..])) == done + multiset(chain)
    {
      hide And, Flat, Placed;
      for j := 0 to |chain|
        invariant Placed(tmp[..], newMask) && multiset(Flat(tmp[..])) == done + multiset(chain[..j])
      {
        PutFirst(tmp, newMask, chain[j]);
        assert chain[..j + 1] == chain[..j] + [chain[j]];
      }
      assert chain[..|chain|] == chain;
    }

    /** `hmap_insert_fast` into the new buckets. */
    static method PutFirst(tmp: array<seq<Node>>, newMask: nat, node: Node)
      requires tmp.Length == newMask + 1 && Placed(tmp[..], newMask)
      modifies tmp
      ensures Placed(tmp[..], newMask) && multiset(Flat(tmp[..])) == old(multiset(Flat(tmp[..]))) + multiset{node}
    {
      hide And, Flat, Placed;
      AndAtMost(node.hash, newMask);
      var b := And(node.hash, newMask);
      ghost var was := tmp[..];
      Prepended(was, newMask, b, node);
      tmp[b] := [node] + tmp[b];
      assert tmp[..] == was[b := [node] + was[b]];
    }

    /** `hmap_insert` with `hmap_expand`: afterwards a bucket has two nodes on average at most, unless
        buckets could not be allocated. */
    method Insert(node: Node, canAllocate: bool)
      requires Valid() && (forall x | x in All() :: x.id != node.id) && n + 1 < Pow2(64)
      modifies this, buckets
      ensures Valid() && n == old(n) + 1 && multiset(All()) == old(multiset(All())) + multiset{node}
      ensures canAllocate ==> n / 2 <= mask
      ensures mask >= old(mask)
    {
      InsertFast(node);
      if n / 2 > mask {
        var newMask := CalcMask(n);
        if newMask > mask {
          var _ := Resize(newMask, canAllocate);
        }
      }
    }

    /** `hmap_remove` */
    method Remove(node: Node)
      requires Valid() && node in All()
      modifies this`n, buckets
      ensures Valid() && n == old(n) - 1 && multiset(All()) == old(multiset(All())) - multiset{node}
      ensures mask == old(mask)
    {
      ghost var was := buckets[..];
      OnItsChain(was, mask, node);
      var b := And(node.hash, mask);
      var k := Search(b, node);
      var chain := buckets[b];
      var rest := chain[..k] + chain[k + 1..];
      hide And, IsMask, Flat, Placed, Distinct;
      Unlinked(was, mask, b, k);
      buckets[b] := rest;
      assert buckets[..] == was[b := rest];
      n := n - 1;
    }

    /** `hmap_replace`: the new node takes the place, and the hash, of the old one. */
    method Replace(node: Node, id: nat)
      requires Valid() && node in All() && forall x | x in All() :: x.id != id
      modifies buckets
      ensures Valid() && multiset(All()) == old(multiset(All())) - multiset{node} + multiset{Node(id, node.hash)}
    {
      ghost var was := buckets[..];
      OnItsChain(was, mask, node);
      var b := And(node.hash, mask);
      var k := Search(b, node);
      var chain := buckets[b];
      var changed := chain[k := Node(id, node.hash)];
      hide And, IsMask, Flat, Placed, Distinct;
      Exchanged(was, mask, b, k, Node(id, node.hash));
      buckets[b] := changed;
      assert buckets[..] == was[b := changed];
    }

    /** The walk along a chain to a node that is on it. */
    method Search(b: nat, node: Node) returns (k: nat)
      requires b < buckets.Length && node in buckets[b]
      ensures k < |buckets[b]| && buckets[b][k] == node
    {
      k := 0;
      while buckets[b][k] != node
        invariant k < |buckets[b]| && node in buckets[b][k..]
        decreases |buckets[b]| - k
      {
        assert buckets[b][k..] == [buckets[b][k]] + buckets[b][k + 1..];
        k := k + 1;
      }
    }

    /** `hmap_first_with_hash`: looks at one bucket only, and misses no node with the hash. */
    method FirstWithHash(hash: nat) returns (r: Option<Node>)
      requires Valid()
      ensures r.Some? ==> r.value in All() && r.value.hash == hash
      ensures r.None? <==> forall x | x in All() :: x.hash != hash
    {
      AndAtMost(hash, mask);
      r := WithHash(buckets[And(hash, mask)], hash);
      if r.Some? {
        InChain(buckets[..], And(hash, mask), r.value);
      } else {
        forall x | x in All() ensures x.hash != hash {
          OnItsChain(buckets[..], mask, x);
        }
      }
    }

    /** `hmap_next__` */
    method NextFrom(start: nat) returns (r: Option<Node>)
      requires Valid() && start <= mask + 1
      ensures var p := |Flat(buckets[..start])|;
              if p < |All()| then r == Some(All()[p]) else r == None
    {
      var i := start;
      while i <= mask
        invariant start <= i <= mask + 1 && Flat(buckets[..i]) == Flat(buckets[..start])
      {
        FlatSplit(buckets[..], i);
        if buckets[i] != [] {
          return Some(buckets[i][0]);
        }
        FlatNext(buckets[..], i);
        i := i + 1;
      }
      assert buckets[..i] == buckets[..];
      return None;
    }

    /** `hmap_first` */
    method First() returns (r: Option<Node>)
      requires Valid()
      ensures r == if All() == [] then None else Some(All()[0])
    {
      assert buckets[..0] == [];
      r := NextFrom(0);
    }

    /** `hmap_next`: the node after a node, in the order of the buckets. */
    method Next(node: Node, ghost p: nat) returns (r: Option<Node>)
      requires Valid() && p < |All()| && All()[p] == node
      ensures r == if p + 1 < |All()| then Some(All()[p + 1]) else None
    {
      OnItsChain(buckets[..], mask, node);
      var b := And(node.hash, mask);
      var k := Search(b, node);
      FlatSplit(buckets[..], b);
      ghost var before := |Flat(buckets[..b])|;
      assert All()[before + k] == node;
      assert before + k == p;
      if k + 1 < |buckets[b]| {
        return Some(buckets[b][k + 1]);
      }
      FlatNext(buckets[..], b);
      r := NextFrom(b + 1);
    }

    /** `HMAP_FOR_EACH`: visits every node of the map once. */
    method VisitAll() returns (seen: seq<Node>)
      requires Valid()
      ensures seen == All() && Distinct(seen)
    {
      seen := [];
      var node := First();
      while node.Some?
        invariant |seen| <= |All()| && seen == All()[..|seen|]
        invariant node == if |seen| < |All()| then Some(All()[|seen|]) else None
        decreases |All()| - |seen|
      {
        seen := seen + [node.value];
        node := Next(node.value, |seen| - 1);
      }
    }
  }

  /** What a node put in front of its chain does to the map. */
  lemma Prepended(chains: seq<seq<Node>>, mask: nat, b: nat, node: Node)
    requires Placed(chains, mask) && b < |chains| && And(node.hash, mask) == b
    ensures var to := chains[b := [node] + chains[b]];
            && Placed(to, mask) && multiset(Flat(to)) == multiset(Flat(chains)) + multiset{node}
            && |Flat(to)| == |Flat(chains)| + 1
            && (Distinct(Flat(chains)) && (forall x | x in Flat(chains) :: x.id != node.id) ==> Distinct(Flat(to)))
  {
    hide And, Flat;
    var a, c, z := Flat(chains[..b]), chains[b], Flat(chains[b + 1..]);
    FlatUpdate(chains, b, [node] + c);
    PlacedUpdate(chains, mask, b, [node] + c);
    FlatSplit(chains, b);
    hide Placed, Distinct;
    assert multiset([node] + c) == multiset{node} + multiset(c);
    assert a + c + z == a + (c + z);
    assert a + ([node] + c) + z == a + ([node] + (c + z));
    if Distinct(Flat(chains)) && (forall x | x in Flat(chains) :: x.id != node.id) {
      InsertedDistinct(a, c + z, node);
    }
  }

  /** What taking a node off its chain does to the map. */
  lemma Unlinked(chains: seq<seq<Node>>, mask: nat, b: nat, k: nat)
    requires Placed(chains, mask) && Distinct(Flat(chains)) && b < |chains| && k < |chains[b]|
    ensures var to := chains[b := chains[b][..k] + chains[b][k + 1..]];
            && Placed(to, mask) && multiset(Flat(to)) == multiset(Flat(chains)) - multiset{chains[b][k]}
            && |Flat(to)| == |Flat(chains)| - 1 && Distinct(Flat(to))
  {
    hide And, Flat;
    var a, c, z := Flat(chains[..b]), chains[b], Flat(chains[b + 1..]);
    var rest := c[..k] + c[k + 1..];
    FlatUpdate(chains, b, rest);
    PlacedUpdate(chains, mask, b, rest);
    FlatSplit(chains, b);
    hide Placed, Distinct;
    assert c == c[..k] + [c[k]] + c[k + 1..];
    assert multiset(c) == multiset(rest) + multiset{c[k]};
    RemovedDistinct(a, c, k, z);
  }

  /** What a node in place of another does to the map. */
  lemma Exchanged(chains: seq<seq<Node>>, mask: nat, b: nat, k: nat, node: Node)
    requires Placed(chains, mask) && Distinct(Flat(chains)) && b < |chains| && k < |chains[b]|
    requires chains[b][k].hash == node.hash
    requires forall x | x in Flat(chains) :: x.id != node.id
    ensures var to := chains[b := chains[b][k := node]];
            && Placed(to, mask)
            && multiset(Flat(to)) == multiset(Flat(chains)) - multiset{chains[b][k]} + multiset{node}
            && |Flat(to)| == |Flat(chains)| && Distinct(Flat(to))
  {
    hide And, Flat;
    var a, c, z := Flat(chains[..b]), chains[b], Flat(chains[b + 1..]);
    FlatUpdate(chains, b, c[k := node]);
    PlacedUpdate(chains, mask, b, c[k := node]);
    FlatSplit(chains, b);
    hide Placed, Distinct;
    assert c == c[..k] + [c[k]] + c[k + 1..];
    assert c[k := node] == c[..k] + [node] + c[k + 1..];
    ReplacedDistinct(a, c, k, z, node);
  }

  lemma FlatNext(chains: seq<seq<Node>>, i: nat)
    requires i < |chains|
    ensures Flat(chains[..i + 1]) == Flat(chains[..i]) + chains[i]
  {
    assert chains[..i + 1][..i] == chains[..i];
  }

  lemma NoNodes(chains: seq<seq<Node>>, mask: nat)
    requires |chains| == mask + 1 && forall i | 0 <= i < |chains| :: chains[i] == []
    ensures Flat(chains) == [] && Placed(chains, mask)
  {
    FlatEmpty(chains);
  }

  lemma BelowMax(m: nat)
    requires m < Pow2(63)
    ensures m < 0xffff_ffff_ffff_ffff
  {
    assert Pow2(15) == 0x8000 && Pow2(16) == 0x1_0000;
    hide Pow2;
    PowSum(15, 16);
    PowSum(31, 16);
    PowSum(47, 16);
  }

  lemma {:induction false} PowSum(j: nat, k: nat)
    ensures Pow2(j + k) == Pow2(j) * Pow2(k)
    decreases k
  {
    if k > 0 { PowSum(j, k - 1); }
  }

  lemma InsertedDistinct(a: seq<Node>, b: seq<Node>, node: Node)
    requires Distinct(a + b) && forall x | x in a + b :: x.id != node.id
    ensures Distinct(a + ([node] + b))
  {
    var to, was := a + ([node] + b), a + b;
    forall i, j | 0 <= i < j < |to| ensures to[i].id != to[j].id {
      var p, q := if i < |a| then i else i - 1, if j < |a| then j else j - 1;
      assert (i != |a| ==> to[i] == was[p]) && (j != |a| ==> to[j] == was[q]);
    }
  }

  lemma RemovedDistinct(a: seq<Node>, chain: seq<Node>, k: nat, b: seq<Node>)
    requires k < |chain| && Distinct(a + chain + b)
    ensures Distinct(a + (chain[..k] + chain[k + 1..]) + b)
  {
    var was, to := a + chain + b, a + (chain[..k] + chain[k + 1..]) + b;
    forall i, j | 0 <= i < j < |to| ensures to[i].id != to[j].id {
      var p, q := if i < |a| + k then i else i + 1, if j < |a| + k then j else j + 1;
      assert to[i] == was[p] && to[j] == was[q];
    }
  }

  lemma ReplacedDistinct(a: seq<Node>, chain: seq<Node>, k: nat, b: seq<Node>, node: Node)
    requires k < |chain| && Distinct(a + chain + b) && forall x | x in a + chain + b :: x.id != node.id
    ensures Distinct(a + chain[k := node] + b)
  {
    var was, to := a + chain + b, a + chain[k := node] + b;
    forall i, j | 0 <= i < j < |to| ensures to[i].id != to[j].id {
      assert i != |a| + k ==> to[i] == was[i];
      assert j != |a| + k ==> to[j] == was[j];
    }
  }

  lemma CountsOfDistinct(s: seq<Node>)
    requires Distinct(s)
    ensures forall x | x in multiset(s) :: multiset(s)[x] == 1
    ensures forall x, y | x in multiset(s) && y in multiset(s) && x.id == y.id :: x == y
  {
    forall x | x in multiset(s) ensures multiset(s)[x] == 1 {
      var p :| 0 <= p < |s| && s[p] == x;
      assert s == s[..p] + [x] + s[p + 1..];
      assert x !in s[..p] && x !in s[p + 1..];
    }
  }

  lemma SameIsDistinct(s: seq<Node>, t: seq<Node>)
    requires Distinct(s) && multiset(s) == multiset(t)
    ensures Distinct(t) && |t| == |s|
  {
    assert |multiset(s)| == |s| && |multiset(t)| == |t|;
    CountsOfDistinct(s);
    forall i, j | 0 <= i < j < |t| ensures t[i].id != t[j].id {
      assert t[i] in multiset(t) && t[j] in multiset(t);
      if t[i] == t[j] { CountedTwice(t, i, j); }
    }
  }
}
