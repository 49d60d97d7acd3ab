/** What inserting and removing a rule does to the chains of a sub-table, and what moving a
    sub-table does to the sorted list. */
module TableUpdates {
  import opened Bits
  import opened Flow
  import opened Match
  import opened Tables

  function InsertAt<T>(s: seq<T>, i: nat, x: T): seq<T>
    requires i <= |s|
  {
    s[..i] + [x] + s[i..]
  }

  function RemoveAt<T>(s: seq<T>, i: nat): seq<T>
    requires i < |s|
  {
    s[..i] + s[i + 1..]
  }

  lemma RemoveAtIndex<T>(s: seq<T>, i: nat)
    requires i < |s|
    ensures |RemoveAt(s, i)| == |s| - 1
    ensures forall k | 0 <= k < |s| - 1 :: RemoveAt(s, i)[k] == s[if k < i then k else k + 1]
  {
  }

  lemma RemoveAtMembers<T>(s: seq<T>, i: nat)
    requires i < |s| && forall k | 0 <= k < |s| && k != i :: s[k] != s[i]
    ensures forall x :: x in RemoveAt(s, i) <==> x in s && x != s[i]
  {
  }

  lemma InsertAtIndex<T>(s: seq<T>, i: nat, x: T)
    requires i <= |s|
    ensures |InsertAt(s, i, x)| == |s| + 1
    ensures InsertAt(s, i, x)[i] == x
    ensures forall k | 0 <= k < i :: InsertAt(s, i, x)[k] == s[k]
    ensures forall k | i < k < |s| + 1 :: InsertAt(s, i, x)[k] == s[k - 1]
    ensures forall y :: y in InsertAt(s, i, x) <==> y == x || y in s
  {
    assert s == s[..i] + s[i..];
  }

  // ---- one chain ----

  /** Where `rule` belongs in a chain: after the rules of higher priority. */
  ghost predicate Place(c: Chain, j: nat, p: nat) {
    && j <= |c.rules|
    && (forall i | 0 <= i < j :: c.rules[i].priority > p)
    && (j < |c.rules| ==> c.rules[j].priority <= p)
  }

  ghost predicate Fits(mask: Miniflow, c: Chain, rule: Rule) {
    Ok(rule) && rule.mask == mask && HeadKey(c) == rule.key
  }

  lemma InsertedDescends(c: Chain, j: nat, rule: Rule)
    requires forall i, k | 0 <= i < k < |c.rules| :: c.rules[i].priority > c.rules[k].priority
    requires Place(c, j, rule.priority)
    requires j < |c.rules| ==> c.rules[j].priority != rule.priority
    ensures var d := InsertAt(c.rules, j, rule);
            forall i, k | 0 <= i < k < |d| :: d[i].priority > d[k].priority
  {
  }

  lemma ChainInserted(mx: Mixer, mask: Miniflow, c: Chain, j: nat, rule: Rule)
    requires ChainOk(mx, mask, c) && Fits(mask, c, rule) && Place(c, j, rule.priority)
    requires j < |c.rules| ==> c.rules[j].priority != rule.priority
    ensures var d := Chain(c.hash, InsertAt(c.rules, j, rule));
            && ChainOk(mx, mask, d) && HeadKey(d) == rule.key
            && (forall r :: r in d.rules <==> r == rule || r in c.rules)
            && (forall r | r in c.rules :: r.priority != rule.priority)
            && d.rules[0].priority == if j == 0 then rule.priority else c.rules[0].priority
  {
    hide Ok, HashIn, InsertAt;
    InsertAtIndex(c.rules, j, rule);
    InsertedDescends(c, j, rule);
    var d := Chain(c.hash, InsertAt(c.rules, j, rule));
    assert d.rules[0] == if j == 0 then rule else c.rules[0];
    assert d.rules[0].key == rule.key;
    forall r | r in c.rules ensures r.priority != rule.priority {
      var i :| 0 <= i < |c.rules| && c.rules[i] == r;
    }
  }

  lemma ChainReplaced(mx: Mixer, mask: Miniflow, c: Chain, j: nat, rule: Rule)
    requires ChainOk(mx, mask, c) && Fits(mask, c, rule) && Place(c, j, rule.priority)
    requires j < |c.rules| && c.rules[j].priority == rule.priority
    ensures var d := Chain(c.hash, c.rules[j := rule]);
            && ChainOk(mx, mask, d) && HeadKey(d) == rule.key
            && (forall r :: r in d.rules <==> r == rule || (r in c.rules && r.priority != rule.priority))
            && d.rules[0].priority == c.rules[0].priority
  {
    hide Ok, HashIn;
    var d := Chain(c.hash, c.rules[j := rule]);
    forall r | r in c.rules && r.priority != rule.priority ensures r in d.rules {
      var i :| 0 <= i < |c.rules| && c.rules[i] == r;
      assert d.rules[i] == r;
    }
    assert d.rules[j] == rule;
    assert d.rules[0].key == rule.key;
  }

  lemma ChainRemoved(mx: Mixer, mask: Miniflow, c: Chain, j: nat)
    requires ChainOk(mx, mask, c) && j < |c.rules| && |c.rules| > 1
    ensures var d := Chain(c.hash, RemoveAt(c.rules, j));
            && ChainOk(mx, mask, d) && HeadKey(d) == HeadKey(c)
            && (forall r :: r in d.rules <==> r in c.rules && r != c.rules[j])
            && (j > 0 ==> d.rules[0] == c.rules[0])
            && (j == 0 ==> d.rules[0].priority < c.rules[0].priority)
  {
    hide Ok, HashIn, RemoveAt;
    RemoveAtIndex(c.rules, j);
    RemoveAtMembers(c.rules, j);
    var d := Chain(c.hash, RemoveAt(c.rules, j));
    assert d.rules[0] in d.rules;
  }

  // ---- the chains of a sub-table ----

  /** A rule in one chain has a key that no other chain has. */
  lemma OtherChain(mx: Mixer, mask: Miniflow, chains: seq<Chain>, i: nat, k: nat, r: Rule)
    requires ChainsOk(mx, mask, chains) && i < |chains| && k < |chains| && i != k && r in chains[k].rules
    ensures r.key != HeadKey(chains[i])
  {
    hide Ok, HashIn;
    assert ChainOk(mx, mask, chains[k]) && ChainOk(mx, mask, chains[i]);
  }

  lemma ChainsUpdated(mx: Mixer, mask: Miniflow, chains: seq<Chain>, i: nat, d: Chain)
    requires ChainsOk(mx, mask, chains) && i < |chains|
    requires ChainOk(mx, mask, d) && HeadKey(d) == HeadKey(chains[i])
    ensures ChainsOk(mx, mask, chains[i := d])
    ensures forall r :: InChains(chains[i := d], r)
                        <==> r in d.rules || (InChains(chains, r) && r.key != HeadKey(chains[i]))
  {
    hide ChainOk, HeadKey;
    var ds := chains[i := d];
    forall r ensures InChains(ds, r) <==> r in d.rules || (InChains(chains, r) && r.key != HeadKey(chains[i])) {
      if r in d.rules { assert ds[i] in ds; }
      if InChains(ds, r) {
        var c :| c in ds && r in c.rules;
        var k :| 0 <= k < |ds| && ds[k] == c;
        if k != i { OtherChain(mx, mask, chains, i, k, r); assert chains[k] in chains; }
      }
      if InChains(chains, r) && r.key != HeadKey(chains[i]) {
        var c :| c in chains && r in c.rules;
        var k :| 0 <= k < |chains| && chains[k] == c;
        if k == i { ChainKey(mx, mask, c, r); }
        assert ds[k] in ds;
      }
    }
  }

  lemma ChainKey(mx: Mixer, mask: Miniflow, c: Chain, r: Rule)
    requires ChainOk(mx, mask, c) && r in c.rules
    ensures r.key == HeadKey(c) && Ok(r) && r.mask == mask
  {
    hide Ok, HashIn;
  }

  /** A key without a chain gets a chain of its own, at the front of its bucket. */
  lemma ChainsGrown(mx: Mixer, mask: Miniflow, chains: seq<Chain>, hash: Word, rule: Rule)
    requires ChainsOk(mx, mask, chains) && Ok(rule) && rule.mask == mask
    requires forall c | c in chains :: HeadKey(c) != rule.key
    requires hash == HashIn(mx, rule.key.Expand(), mask.Expand(), 0)
    ensures ChainsOk(mx, mask, [Chain(hash, [rule])] + chains)
    ensures forall r :: InChains([Chain(hash, [rule])] + chains, r) <==> r == rule || InChains(chains, r)
    ensures forall r | InChains(chains, r) :: r.key != rule.key
  {
    hide Ok, HashIn;
    var d := Chain(hash, [rule]);
    var ds := [d] + chains;
    forall r ensures InChains(ds, r) <==> r == rule || InChains(chains, r) {
      if r == rule { assert d in ds && r in d.rules; }
      if InChains(chains, r) { var c :| c in chains && r in c.rules; assert c in ds; }
    }
    forall r | InChains(chains, r) ensures r.key != rule.key {
      var c :| c in chains && r in c.rules;
      assert ChainOk(mx, mask, c);
    }
  }

  lemma ChainsDiffer(mx: Mixer, mask: Miniflow, chains: seq<Chain>, i: nat)
    requires ChainsOk(mx, mask, chains) && i < |chains|
    ensures ChainsOk(mx, mask, RemoveAt(chains, i))
    ensures forall c :: c in RemoveAt(chains, i) <==> c in chains && c != chains[i]
  {
  }

  lemma ChainsShrunk(mx: Mixer, mask: Miniflow, chains: seq<Chain>, i: nat)
    requires ChainsOk(mx, mask, chains) && i < |chains| && |chains[i].rules| == 1
    ensures ChainsOk(mx, mask, RemoveAt(chains, i))
    ensures forall r :: InChains(RemoveAt(chains, i), r) <==> InChains(chains, r) && r != chains[i].rules[0]
  {
  }

  // ---- counting ----

  ghost function One(b: bool): nat {
    if b then 1 else 0
  }

  lemma {:induction false} SizeConcat(a: seq<Chain>, b: seq<Chain>)
    ensures Size(a + b) == Size(a) + Size(b)
  {
    if a == [] {
      assert a + b == b;
    } else {
      assert (a + b)[1..] == a[1..] + b;
      SizeConcat(a[1..], b);
    }
  }

  lemma {:induction false} CountConcat(a: seq<Chain>, b: seq<Chain>, p: nat)
    ensures CountHeads(a + b, p) == CountHeads(a, p) + CountHeads(b, p)
  {
    if a == [] {
      assert a + b == b;
    } else {
      assert (a + b)[1..] == a[1..] + b;
      CountConcat(a[1..], b, p);
    }
  }

  lemma CountSplit(chains: seq<Chain>, i: nat, p: nat)
    requires i < |chains|
    ensures Size(chains) == Size(RemoveAt(chains, i)) + |chains[i].rules|
    ensures CountHeads(chains, p) == CountHeads(RemoveAt(chains, i), p) + One(HeadAt(chains[i], p))
  {
    assert chains == chains[..i] + ([chains[i]] + chains[i + 1..]);
    SizeConcat(chains[..i], [chains[i]] + chains[i + 1..]);
    SizeConcat(chains[..i], chains[i + 1..]);
    CountConcat(chains[..i], [chains[i]] + chains[i + 1..], p);
    CountConcat(chains[..i], chains[i + 1..], p);
    assert ([chains[i]] + chains[i + 1..])[1..] == chains[i + 1..];
  }

  lemma CountUpdated(chains: seq<Chain>, i: nat, d: Chain, p: nat)
    requires i < |chains|
    ensures Size(chains[i := d]) + |chains[i].rules| == Size(chains) + |d.rules|
    ensures CountHeads(chains[i := d], p) + One(HeadAt(chains[i], p)) == CountHeads(chains, p) + One(HeadAt(d, p))
  {
    CountSplit(chains, i, p);
    CountSplit(chains[i := d], i, p);
    assert RemoveAt(chains[i := d], i) == RemoveAt(chains, i);
  }

  lemma CountGrown(chains: seq<Chain>, d: Chain, p: nat)
    ensures Size([d] + chains) == |d.rules| + Size(chains)
    ensures CountHeads([d] + chains, p) == One(HeadAt(d, p)) + CountHeads(chains, p)
  {
    assert ([d] + chains)[1..] == chains;
  }

  lemma {:induction false} CountAbove(chains: seq<Chain>, q: nat, p: nat)
    requires HeadsBelow(chains, q) && q < p
    ensures CountHeads(chains, p) == 0
  {
    if chains != [] {
      assert chains[0] in chains;
      assert HeadsBelow(chains[1..], q);
      CountAbove(chains[1..], q, p);
    }
  }

  /** The size is positive exactly when some chain is left. */
  lemma SizePositive(mx: Mixer, mask: Miniflow, chains: seq<Chain>)
    requires ChainsOk(mx, mask, chains)
    ensures Size(chains) == 0 <==> chains == []
  {
    hide Ok, HashIn;
    if chains != [] { assert ChainOk(mx, mask, chains[0]); }
  }

  // ---- the sorted list of sub-tables ----

  ghost predicate Sorted(s: seq<Table>) {
    forall i, j | 0 <= i < j < |s| :: s[i].maxPriority >= s[j].maxPriority
  }

  ghost predicate Distinct(s: seq<Table>) {
    forall i, j | 0 <= i < j < |s| :: s[i].mask != s[j].mask && s[i].addr != s[j].addr
  }

  lemma RemoveAtSorted(s: seq<Table>, i: nat)
    requires i < |s|
    ensures Sorted(s) ==> Sorted(RemoveAt(s, i))
    ensures Distinct(s) ==> Distinct(RemoveAt(s, i))
  {
  }

  /** Putting a sub-table back between those of higher and of lower priority. */
  lemma InsertAtSorted(q: seq<Table>, k: nat, t: Table)
    requires k <= |q| && Sorted(q)
    requires k > 0 ==> q[k - 1].maxPriority >= t.maxPriority
    requires k < |q| ==> q[k].maxPriority <= t.maxPriority
    ensures Sorted(InsertAt(q, k, t))
  {
  }

  lemma InsertAtDistinct(q: seq<Table>, k: nat, t: Table)
    requires k <= |q| && Distinct(q)
    requires forall x | x in q :: x.mask != t.mask && x.addr != t.addr
    ensures Distinct(InsertAt(q, k, t))
  {
  }

  /** The tables of a list with one sub-table updated in place and possibly moved. */
  lemma MovedMembers(s: seq<Table>, i: nat, q: seq<Table>, k: nat)
    requires i < |s| && k < |q| && RemoveAt(q, k) == RemoveAt(s, i) && Distinct(s)
    requires q[k].mask == s[i].mask && q[k].addr == s[i].addr
    ensures |q| == |s| && Distinct(q)
    ensures forall x :: x in q <==> x == q[k] || (x in s && x != s[i])
  {
    hide RemoveAt, InsertAt;
    var m := RemoveAt(s, i);
    RemoveAtSorted(s, i);
    RemoveAtIndex(s, i);
    RemoveAtIndex(q, k);
    assert q == InsertAt(m, k, q[k]) by { PutBack(q, k); }
    OthersDiffer(s, i);
    InsertAtDistinct(m, k, q[k]);
    InsertAtIndex(m, k, q[k]);
  }

  lemma PutBack<T>(q: seq<T>, k: nat)
    requires k < |q|
    ensures k <= |RemoveAt(q, k)| && q == InsertAt(RemoveAt(q, k), k, q[k])
  {
  }

  lemma TakeOut<T>(m: seq<T>, k: nat, x: T)
    requires k <= |m|
    ensures k < |InsertAt(m, k, x)| && RemoveAt(InsertAt(m, k, x), k) == m && InsertAt(m, k, x)[k] == x
  {
  }

  /** The other sub-tables have other masks and addresses. */
  lemma OthersDiffer(s: seq<Table>, i: nat)
    requires i < |s| && Distinct(s)
    ensures forall x :: x in RemoveAt(s, i) <==> x in s && x != s[i]
    ensures forall x | x in RemoveAt(s, i) :: x.mask != s[i].mask && x.addr != s[i].addr
  {
  }

  // ---- the order of the sub-tables ----

  /** The sub-table of mask `m` stands before that of mask `n`. */
  ghost predicate Ahead(s: seq<Table>, m: Miniflow, n: Miniflow) {
    exists i, j :: 0 <= i < j < |s| && s[i].mask == m && s[j].mask == n
  }

  /** Two sub-tables change places on insertion only if the later one is that of the new rule, and the
      rule's priority exceeds all in the other. */
  ghost predicate Lifted(s: seq<Table>, q: seq<Table>, rule: Rule) {
    forall m, n | Ahead(s, m, n) && Ahead(q, n, m) ::
      n == rule.mask && forall t | t in s && t.mask == m :: rule.priority > t.maxPriority
  }

  /** Two sub-tables change places on removal only if the earlier one is that of the rule, and what is
      left in it is below the other's highest priority. */
  ghost predicate Sunk(s: seq<Table>, q: seq<Table>, mask: Miniflow) {
    forall m, n | Ahead(s, m, n) && Ahead(q, n, m) ::
      m == mask && forall t, u | t in q && t.mask == m && u in q && u.mask == n :: t.maxPriority < u.maxPriority
  }

  /** Where the sub-table at `x` is after the one at `i` has moved to `k`. */
  function Moved(i: nat, k: nat, x: nat): nat
    requires x != i
  {
    var r := if x < i then x else x - 1;
    if r < k then r else r + 1
  }

  lemma MovedTo<T>(s: seq<T>, i: nat, q: seq<T>, k: nat, x: nat)
    requires i < |s| && k < |q| && RemoveAt(q, k) == RemoveAt(s, i) && x < |s| && x != i
    ensures Moved(i, k, x) < |q| && Moved(i, k, x) != k && q[Moved(i, k, x)] == s[x]
  {
    hide RemoveAt;
    RemoveAtIndex(s, i);
    RemoveAtIndex(q, k);
    var r := if x < i then x else x - 1;
    assert RemoveAt(s, i)[r] == s[x];
    assert RemoveAt(q, k)[r] == q[Moved(i, k, x)];
  }

  /** The sub-table with the mask of `s[x]` stands where the move has put it. */
  lemma FoundAt(s: seq<Table>, i: nat, q: seq<Table>, k: nat, x: nat, y: nat)
    requires i < |s| && k < |q| && RemoveAt(q, k) == RemoveAt(s, i) && q[k].mask == s[i].mask && Distinct(q)
    requires x < |s| && y < |q| && q[y].mask == s[x].mask
    ensures y == (if x == i then k else Moved(i, k, x)) && (x != i ==> q[y] == s[x])
  {
    hide RemoveAt;
    if x != i { MovedTo(s, i, q, k, x); }
  }

  lemma LiftedAt(before: seq<Table>, s: seq<Table>, ti: nat, q: seq<Table>, at: nat, rule: Rule)
    requires |before| <= |s| && before == s[..|before|] && Distinct(q) && Distinct(before)
    requires ti < |s| && at < |q| && RemoveAt(q, at) == RemoveAt(s, ti) && s[ti].mask == rule.mask == q[at].mask
    requires at <= ti && (at < ti ==> q[at].maxPriority == rule.priority)
    requires forall j | at < j <= ti && j < |q| :: q[j].maxPriority < q[at].maxPriority
    ensures Lifted(before, q, rule)
  {
    hide RemoveAt, Distinct;
    forall m, n | Ahead(before, m, n) && Ahead(q, n, m)
      ensures n == rule.mask && forall t | t in before && t.mask == m :: rule.priority > t.maxPriority
    {
      var i, j :| 0 <= i < j < |before| && before[i].mask == m && before[j].mask == n;
      var b, a :| 0 <= b < a < |q| && q[b].mask == n && q[a].mask == m;
      assert s[i] == before[i] && s[j] == before[j];
      FoundAt(s, ti, q, at, i, a);
      FoundAt(s, ti, q, at, j, b);
      assert j == ti && a == i + 1 <= ti;
      forall t | t in before && t.mask == m ensures t == before[i] { OneOfMask(before, i, t); }
    }
  }

  lemma OneOfMask(s: seq<Table>, i: nat, t: Table)
    requires Distinct(s) && i < |s| && t in s && t.mask == s[i].mask
    ensures t == s[i]
  {
  }

  lemma SunkAt(s: seq<Table>, ti: nat, q: seq<Table>, at: nat, mask: Miniflow)
    requires Distinct(q) && ti < |s| && at < |q| && RemoveAt(q, at) == RemoveAt(s, ti)
    requires s[ti].mask == mask == q[at].mask
    requires ti <= at && forall j | ti <= j < at :: q[j].maxPriority > q[at].maxPriority
    ensures Sunk(s, q, mask)
  {
    hide RemoveAt, Distinct;
    forall m, n | Ahead(s, m, n) && Ahead(q, n, m)
      ensures m == mask && forall t, u | t in q && t.mask == m && u in q && u.mask == n :: t.maxPriority < u.maxPriority
    {
      var i, j :| 0 <= i < j < |s| && s[i].mask == m && s[j].mask == n;
      var b, a :| 0 <= b < a < |q| && q[b].mask == n && q[a].mask == m;
      FoundAt(s, ti, q, at, i, a);
      FoundAt(s, ti, q, at, j, b);
      assert i == ti && a == at && ti <= b < at;
      forall t, u | t in q && t.mask == m && u in q && u.mask == n ensures t.maxPriority < u.maxPriority {
        OneOfMask(q, a, t);
        OneOfMask(q, b, u);
      }
    }
  }

  /** Taking a sub-table out leaves the others in order. */
  lemma SunkGone(s: seq<Table>, ti: nat, mask: Miniflow)
    requires Distinct(s) && ti < |s|
    ensures Sunk(s, RemoveAt(s, ti), mask)
  {
    var q := RemoveAt(s, ti);
    forall m, n | Ahead(s, m, n) ensures !Ahead(q, n, m) {
      var i, j :| 0 <= i < j < |s| && s[i].mask == m && s[j].mask == n;
      forall b, a | 0 <= b < a < |q| ensures !(q[b].mask == n && q[a].mask == m) {
        assert q[b] == s[if b < ti then b else b + 1] && q[a] == s[if a < ti then a else a + 1];
      }
    }
  }
}
