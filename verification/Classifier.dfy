/** `classifier.c`: the flow classifier, updated in place. */
module Classifier {
  import opened Options
  import opened Bits
  import opened Flow
  import opened Match
  import opened Tables
  import opened TableUpdates

  /** A sub-table but for its rule counter, which `classifier_replace` and
      `classifier_remove` adjust on their own; it may have no rules. */
  ghost predicate Shape(mx: Mixer, t: Table) {
    && ChainsOk(mx, t.mask, t.chains)
    && HeadsBelow(t.chains, t.maxPriority)
    && t.maxCount == CountHeads(t.chains, t.maxPriority)
    && (t.maxCount == 0 ==> t.chains == [] && t.maxPriority == 0)
  }

  ghost function SumRules(s: seq<Table>): nat {
    if s == [] then 0 else s[0].nRules + SumRules(s[1..])
  }

  lemma {:induction false} SumConcat(a: seq<Table>, b: seq<Table>)
    ensures SumRules(a + b) == SumRules(a) + SumRules(b)
  {
    if a == [] {
      assert a + b == b;
    } else {
      assert (a + b)[1..] == a[1..] + b;
      SumConcat(a[1..], b);
    }
  }

  lemma SumSplit(s: seq<Table>, i: nat)
    requires i < |s|
    ensures SumRules(s) == SumRules(RemoveAt(s, i)) + s[i].nRules
  {
    assert s == s[..i] + ([s[i]] + s[i + 1..]);
    SumConcat(s[..i], [s[i]] + s[i + 1..]);
    SumConcat(s[..i], s[i + 1..]);
    assert ([s[i]] + s[i + 1..])[1..] == s[i + 1..];
  }

  /** A sub-table raised to priority `t.maxPriority` goes just after the last one before it
      that is at least as high. */
  lemma RaisedSorted(s: seq<Table>, i: nat, k: nat, t: Table)
    requires k <= i < |s| && Sorted(s) && t.maxPriority >= s[i].maxPriority
    requires k > 0 ==> s[k - 1].maxPriority >= t.maxPriority
    requires forall j | k <= j < i :: s[j].maxPriority < t.maxPriority
    ensures k <= |RemoveAt(s, i)| && Sorted(InsertAt(RemoveAt(s, i), k, t))
  {
    hide InsertAt, RemoveAt;
    RemoveAtIndex(s, i);
    RemoveAtSorted(s, i);
    InsertAtSorted(RemoveAt(s, i), k, t);
  }

  /** A sub-table lowered to priority `t.maxPriority` goes just before the first one after it
      that is no higher. */
  lemma LoweredSorted(s: seq<Table>, i: nat, k: nat, t: Table)
    requires i <= k < |s| && Sorted(s) && t.maxPriority <= s[i].maxPriority
    requires k + 1 < |s| ==> s[k + 1].maxPriority <= t.maxPriority
    requires forall j | i < j <= k :: s[j].maxPriority > t.maxPriority
    ensures k <= |RemoveAt(s, i)| && Sorted(InsertAt(RemoveAt(s, i), k, t))
  {
    hide InsertAt, RemoveAt;
    RemoveAtIndex(s, i);
    RemoveAtSorted(s, i);
    InsertAtSorted(RemoveAt(s, i), k, t);
  }

  class Classifier {
    const mx: Mixer
    var tables: seq<Table>
    var nRules: nat

    ghost predicate Valid()
      reads this
    {
      StateOk(mx, tables) && nRules == SumRules(tables)
    }

    /** `classifier_init` */
    constructor (mx: Mixer)
      ensures Valid() && tables == [] && nRules == 0 && this.mx == mx
    {
      this.mx := mx;
      tables := [];
      nRules := 0;
    }

    /** `find_table`: the position of the sub-table with `mask`, or the length of the list. */
    method FindTable(mask: Miniflow) returns (ti: nat)
      requires mask.Valid() && forall t | t in tables :: t.mask.Valid()
      ensures ti <= |tables|
      ensures ti < |tables| ==> tables[ti].mask == mask
      ensures ti == |tables| ==> forall t | t in tables :: t.mask != mask
    {
      hide Miniflow.Valid, Miniflow.Expand;
      ti := 0;
      while ti < |tables|
        invariant ti <= |tables|
        invariant forall i | 0 <= i < ti :: tables[i].mask != mask
      {
        var same := MiniflowEqual(mask, tables[ti].mask);
        if same { return; }
        ti := ti + 1;
      }
    }

    /** `find_equal`: the position of the chain with key `key`, looking only at nodes with
        hash `hash`, or the number of chains. */
    static method FindEqual(mx: Mixer, t: Table, key: Miniflow, hash: Word) returns (ci: nat)
      requires ChainsOk(mx, t.mask, t.chains) && key.Valid()
      requires hash == HashIn(mx, key.Expand(), t.mask.Expand(), 0)
      ensures ci <= |t.chains|
      ensures ci < |t.chains| ==> HeadKey(t.chains[ci]) == key
      ensures ci == |t.chains| ==> forall c | c in t.chains :: HeadKey(c) != key
    {
      hide Miniflow.Valid, Miniflow.Expand, HashIn, EqualIn, Ok;
      ci := 0;
      while ci < |t.chains|
        invariant ci <= |t.chains|
        invariant forall i | 0 <= i < ci :: HeadKey(t.chains[i]) != key
      {
        var c := t.chains[ci];
        assert ChainOk(mx, t.mask, c);
        HeadOk(mx, t.mask, c);
        if c.hash == hash {
          var same := MiniflowEqual(c.rules[0].key, key);
          if same { return; }
        }
        ci := ci + 1;
      }
    }

    /** `find_match`: hashing `flow` under the mask of the sub-table and looking only at nodes
        with that hash finds what a scan of all chains finds. */
    static method FindMatch(mx: Mixer, t: Table, flow: FlowWords) returns (r: Option<Rule>)
      requires ChainsOk(mx, t.mask, t.chains)
      ensures r == HeadFor(t.chains, flow)
    {
      hide Miniflow.Valid, Miniflow.Expand, HashIn, EqualIn, Ok;
      var hash := FlowHashInMinimask(mx, flow, t.mask, 0);
      var ci := 0;
      assert t.chains[0..] == t.chains;
      while ci < |t.chains|
        invariant ci <= |t.chains|
        invariant HeadFor(t.chains, flow) == HeadFor(t.chains[ci..], flow)
      {
        var c := t.chains[ci];
        assert ChainOk(mx, t.mask, c);
        HeadOk(mx, t.mask, c);
        if c.hash == hash {
          var same := MiniflowEqualFlowInMinimask(c.rules[0].key, flow, t.mask);
          if same { return Some(c.rules[0]); }
        } else if Matches(c.rules[0], flow) {
          HashAgrees(mx, c.rules[0].key.Expand(), flow, t.mask.Expand(), 0);
        }
        ci := ci + 1;
        assert t.chains[ci - 1..][1..] == t.chains[ci..];
      }
      r := None;
    }

    /** `update_tables_after_insertion`: adjusts `maxPriority` and `maxCount` of the sub-table at
        `ti` for a new rule of priority `p`, and its place in the list. */
    method UpdateTablesAfterInsertion(ti: nat, p: nat) returns (at: nat)
      requires ti < |tables| && Sorted(tables)
      modifies this`tables
      ensures at < |tables| && RemoveAt(tables, at) == RemoveAt(old(tables), ti) && Sorted(tables)
      ensures tables[at] == Raised(old(tables)[ti], p) && (at < ti ==> tables[at].maxPriority == p)
      ensures at <= ti && forall j | at < j <= ti :: tables[j].maxPriority < tables[at].maxPriority
    {
      hide InsertAt, RemoveAt;
      var t := tables[ti];
      at := ti;
      if p == t.maxPriority {
        InPlace(tables, ti, t.(maxCount := t.maxCount + 1));
        tables := tables[ti := t.(maxCount := t.maxCount + 1)];
      } else if p > t.maxPriority {
        t := t.(maxPriority := p, maxCount := 1);
        while at > 0 && tables[at - 1].maxPriority < p
          invariant at <= ti
          invariant forall j | at <= j < ti :: tables[j].maxPriority < p
        {
          at := at - 1;
        }
        RaisedSorted(tables, ti, at, t);
        TakeOut(RemoveAt(tables, ti), at, t);
        RemoveAtIndex(tables, ti);
        InsertAtIndex(RemoveAt(tables, ti), at, t);
        tables := InsertAt(RemoveAt(tables, ti), at, t);
      }
    }

    /** `update_tables_after_removal`: likewise for a rule of priority `p` that was removed. When
        no head of the highest priority is left, the heads are scanned again. */
    method UpdateTablesAfterRemoval(ti: nat, p: nat) returns (at: nat)
      requires ti < |tables| && Sorted(tables) && ChainsOk(mx, tables[ti].mask, tables[ti].chains)
      requires tables[ti].chains != []
      requires HeadsBelow(tables[ti].chains, tables[ti].maxPriority)
      requires tables[ti].maxCount > 0
      requires CountHeads(tables[ti].chains, tables[ti].maxPriority)
               == tables[ti].maxCount - One(p == tables[ti].maxPriority)
      modifies this`tables
      ensures at < |tables| && RemoveAt(tables, at) == RemoveAt(old(tables), ti) && Sorted(tables)
      ensures Shape(mx, tables[at]) && tables[at].maxCount > 0
      ensures tables[at] == old(tables)[ti].(maxPriority := tables[at].maxPriority, maxCount := tables[at].maxCount)
      ensures ti <= at && forall j | ti <= j < at :: tables[j].maxPriority > tables[at].maxPriority
    {
      hide InsertAt, RemoveAt, ChainsOk, CountHeads;
      var t := tables[ti];
      at := ti;
      if p == t.maxPriority {
        t := t.(maxCount := t.maxCount - 1);
        if t.maxCount == 0 {
          t := RescanHeads(mx, t);
          while at + 1 < |tables| && tables[at + 1].maxPriority > t.maxPriority
            invariant ti <= at < |tables|
            invariant forall j | ti < j <= at :: tables[j].maxPriority > t.maxPriority
          {
            at := at + 1;
          }
          LoweredSorted(tables, ti, at, t);
          TakeOut(RemoveAt(tables, ti), at, t);
          RemoveAtIndex(tables, ti);
          InsertAtIndex(RemoveAt(tables, ti), at, t);
          tables := InsertAt(RemoveAt(tables, ti), at, t);
          return;
        }
      }
      InPlace(tables, ti, t);
      tables := tables[ti := t];
    }

    /** The loop of `update_tables_after_removal` over the heads of a sub-table. */
    static method RescanHeads(mx: Mixer, t: Table) returns (u: Table)
      requires ChainsOk(mx, t.mask, t.chains) && t.maxCount == 0 && t.chains != []
      ensures Shape(mx, u) && u.maxCount > 0
      ensures u == t.(maxPriority := u.maxPriority, maxCount := u.maxCount)
      ensures forall q | HeadsBelow(t.chains, q) :: u.maxPriority <= q
    {
      hide ChainOk;
      u := t.(maxPriority := 0);
      for i := 0 to |t.chains|
        invariant u == t.(maxPriority := u.maxPriority, maxCount := u.maxCount)
        invariant HeadsBelow(t.chains[..i], u.maxPriority)
        invariant u.maxCount == CountHeads(t.chains[..i], u.maxPriority)
        invariant u.maxPriority == 0 || exists c :: c in t.chains[..i] && HeadAt(c, u.maxPriority)
        invariant i > 0 ==> u.maxCount > 0
      {
        var c := t.chains[i];
        assert ChainOk(mx, t.mask, c);
        HeadOk(mx, t.mask, c);
        var h := c.rules[0].priority;
        assert t.chains[..i + 1] == t.chains[..i] + [c];
        CountConcat(t.chains[..i], [c], h);
        CountConcat(t.chains[..i], [c], u.maxPriority);
        CountOne(c, h);
        CountOne(c, u.maxPriority);
        if h > u.maxPriority {
          CountAbove(t.chains[..i], u.maxPriority, h);
          u := u.(maxPriority := h, maxCount := 1);
          assert c in t.chains[..i + 1];
        } else if h == u.maxPriority {
          u := u.(maxCount := u.maxCount + 1);
        }
      }
      assert t.chains[..|t.chains|] == t.chains;
    }

    /** `insert_rule`: puts `rule` into the sub-table at `ti`, in place of the rule that differs
        from it in nothing, if there is one. */
    method InsertRule(ti: nat, rule: Rule) returns (displaced: Option<Rule>, at: nat)
      requires ti < |tables| && Sorted(tables) && Shape(mx, tables[ti])
      requires Ok(rule) && rule.mask == tables[ti].mask
      modifies this`tables
      ensures at < |tables| && RemoveAt(tables, at) == RemoveAt(old(tables), ti) && Sorted(tables)
      ensures RuleInserted(mx, old(tables)[ti], tables[at], rule, displaced)
      ensures at < ti ==> tables[at].maxPriority == rule.priority
      ensures at <= ti && forall j | at < j <= ti :: tables[j].maxPriority < tables[at].maxPriority
    {
      hide InsertAt, RemoveAt, ChainsOk, ChainOk, CountHeads, Size, InChains, HashIn, RuleInserted, Ok, Miniflow.Valid;
      var t := tables[ti];
      RuleKeyOk(rule);
      ShapeOk(mx, t);
      var hash := MiniflowHashInMinimask(mx, rule.key, rule.mask, 0);
      var ci := FindEqual(mx, t, rule.key, hash);
      if ci == |t.chains| {
        InsertNew(mx, t, hash, rule);
        t := t.(chains := [Chain(hash, [rule])] + t.chains);
      } else {
        var c := t.chains[ci];
        var j := 0;
        while j < |c.rules| && rule.priority < c.rules[j].priority
          invariant j <= |c.rules|
          invariant forall i | 0 <= i < j :: c.rules[i].priority > rule.priority
        {
          j := j + 1;
        }
        if j < |c.rules| && c.rules[j].priority == rule.priority {
          displaced := Some(c.rules[j]);
          InsertEqual(mx, t, ci, j, rule);
          t := t.(chains := t.chains[ci := Chain(c.hash, c.rules[j := rule])]);
          InPlace(tables, ti, t);
          tables := tables[ti := t];
          return displaced, ti;
        }
        InsertBetween(mx, t, ci, j, rule);
        t := t.(chains := t.chains[ci := Chain(c.hash, InsertAt(c.rules, j, rule))]);
      }
      displaced := None;
      InPlace(tables, ti, t);
      tables := tables[ti := t];
      at := UpdateTablesAfterInsertion(ti, rule.priority);
    }

    /** `classifier_replace`. `addr` is the address that a new sub-table would get. */
    method Replace(rule: Rule, addr: nat) returns (displaced: Option<Rule>)
      requires Valid() && Ok(rule) && forall r | Stored(tables, r) :: r.id != rule.id
      requires forall t | t in tables :: t.addr != addr
      modifies this
      ensures Valid()
      ensures forall r :: Stored(tables, r) <==> r == rule || (old(Stored(tables, r)) && !Identical(r, rule))
      ensures displaced.None? <==> forall r | old(Stored(tables, r)) :: !Identical(r, rule)
      ensures displaced.Some? ==> old(Stored(tables, displaced.value)) && Identical(displaced.value, rule)
      ensures nRules == old(nRules) + One(displaced.None?)
      ensures forall t | t in tables :: old(HasTable(tables, t.addr, t.mask)) || (t.addr == addr && t.mask == rule.mask)
      ensures Lifted(old(tables), tables, rule)
    {
      hide HasTable, StateOk, Shape, RuleInserted, Stored, Ok, Miniflow.Valid, SumRules, InsertAt, RemoveAt, Sorted,
        Distinct, TableOk;
      ghost var before := tables;
      RuleKeyOk(rule);
      MasksValid(mx, tables);
      var ti := FindTable(rule.mask);
      if ti == |tables| {
        tables := tables + [Table(addr, rule.mask, [], 0, 0, 0)];
      }
      ReadyToInsert(mx, before, tables, ti, rule.mask, addr);
      ghost var ready := tables;
      var at;
      displaced, at := InsertRule(ti, rule);
      InsertedCount(mx, ready[ti], tables[at], rule, displaced);
      if displaced.None? {
        InPlace(tables, at, tables[at].(nRules := tables[at].nRules + 1));
        tables := tables[at := tables[at].(nRules := tables[at].nRules + 1)];
        nRules := nRules + 1;
      }
      ReplaceDone(mx, before, ready, ti, tables, at, rule, displaced);
      ReplaceFrame(mx, before, ready, ti, tables, at, addr, rule.mask);
      StateSorted(mx, before);
      StateSorted(mx, tables);
      hide Lifted;
      LiftedAt(before, ready, ti, tables, at, rule);
    }

    /** `classifier_insert`: the assertion that nothing is displaced holds exactly under the
        documented precondition. */
    method Insert(rule: Rule, addr: nat)
      requires Valid() && Ok(rule) && forall r | Stored(tables, r) :: r.id != rule.id
      requires forall t | t in tables :: t.addr != addr
      requires forall r | Stored(tables, r) :: !Identical(r, rule)
      modifies this
      ensures Valid() && nRules == old(nRules) + 1
      ensures forall r :: Stored(tables, r) <==> r == rule || old(Stored(tables, r))
    {
      var displaced := Replace(rule, addr);
      assert displaced.None?;
    }

    /** `classifier_remove`: `rule` must be in the classifier. */
    method Remove(rule: Rule)
      requires Valid() && Stored(tables, rule)
      modifies this
      ensures Valid()
      ensures forall r :: Stored(tables, r) <==> old(Stored(tables, r)) && r != rule
      ensures nRules == old(nRules) - 1
      ensures forall t | t in tables :: old(HasTable(tables, t.addr, t.mask))
      ensures |tables| < old(|tables|) || Demoted(old(tables), tables, rule.mask)
      ensures Sunk(old(tables), tables, rule.mask)
    {
      hide HasTable, Demoted, Sunk, StateOk, Shape, RuleRemoved, Stored, Ok, Miniflow.Valid, SumRules, InsertAt,
        RemoveAt, Sorted, Distinct, TableOk, InChains, ChainsOk, ChainOk, HashIn, CountHeads, Size, HeadsBelow;
      ghost var before := tables;
      MasksValid(mx, tables);
      ghost var gi := HomeTable(mx, tables, rule);
      var ti := FindTable(rule.mask);
      SameTable(mx, tables, ti, gi);
      var t := tables[ti];
      TableParts(mx, tables, ti);
      var hash := MiniflowHashInMinimask(mx, rule.key, rule.mask, 0);
      var ci := FindEqual(mx, t, rule.key, hash);
      HomeChain(mx, t, ci, rule);
      var c := t.chains[ci];
      var j := 0;
      while c.rules[j] != rule
        invariant tables == before && nRules == old(nRules)
        invariant j < |c.rules| && rule !in c.rules[..j]
        decreases |c.rules| - j
      {
        j := j + 1;
        NotLast(c.rules, rule, j);
      }
      if j > 0 {
        RemoveFromChain(mx, t, ci, j);
        t := t.(chains := t.chains[ci := Chain(c.hash, RemoveAt(c.rules, j))]);
      } else if |c.rules| == 1 {
        RemoveChain(mx, t, ci);
        t := t.(chains := RemoveAt(t.chains, ci));
      } else {
        RemoveFromChain(mx, t, ci, 0);
        t := t.(chains := t.chains[ci := Chain(c.hash, RemoveAt(c.rules, 0))]);
      }
      RemovedParts(mx, before[ti], t, rule);
      t := t.(nRules := t.nRules - 1);
      InPlace(tables, ti, t);
      SumSplit(tables, ti);
      if t.nRules == 0 {
        RemoveTableDone(mx, tables, ti, t, rule);
        RemovedFrame(mx, tables, ti);
        RemoveAtIndex(tables, ti);
        StateSorted(mx, tables);
        SunkGone(tables, ti, rule.mask);
        tables := RemoveAt(tables, ti);
      } else {
        tables := tables[ti := t];
        StateSorted(mx, before);
        InPlace(before, ti, t);
        var at := UpdateTablesAfterRemoval(ti, rule.priority);
        RemoveDone(mx, before, ti, tables, at, t, rule);
        MovedFrame(mx, before, ti, tables, at);
        DemotedAt(before, tables, ti, at, rule.mask);
        StateSorted(mx, tables);
        SunkAt(before, ti, tables, at, rule.mask);
      }
      nRules := nRules - 1;
    }

    /** `classifier_lookup`: the best matching rule, and in `wc`, unless it is null, the bits that
        mattered. */
    method Lookup(flow: FlowWords, wc: array?<Word>) returns (best: Option<Rule>)
      requires Valid() && (wc != null ==> wc.Length == 46)
      modifies wc
      ensures best == LookupFrom(tables, flow, None) && IsBest(tables, flow, best)
      ensures wc != null ==> wc[..] == LookupBits(tables, flow, None, old(wc[..]))
    {
      hide StateOk, IsBest, LookupFrom, LookupBits, HeadFor, ChainsOk, TableOk, Folded, SumRules, Miniflow.Valid,
        Miniflow.Expand;
      LookupIsBest(mx, tables, flow);
      best := None;
      var i := 0;
      assert tables[0..] == tables;
      while i < |tables|
        invariant i <= |tables| && best.None?
        invariant LookupFrom(tables, flow, None) == LookupFrom(tables[i..], flow, best)
        invariant wc != null ==>
                   LookupBits(tables, flow, None, old(wc[..])) == LookupBits(tables[i..], flow, best, wc[..])
      {
        var rule := Visit(i, flow, wc, best);
        i := i + 1;
        if rule.Some? {
          best := rule;
          while i < |tables|
            invariant i <= |tables| && best.Some?
            invariant LookupFrom(tables, flow, None) == LookupFrom(tables[i..], flow, best)
            invariant wc != null ==>
                       LookupBits(tables, flow, None, old(wc[..])) == LookupBits(tables[i..], flow, best, wc[..])
          {
            if tables[i].maxPriority <= best.value.priority {
              LookupStop(tables, i, flow, best);
              return;
            }
            rule := Visit(i, flow, wc, best);
            i := i + 1;
            if rule.Some? && rule.value.priority > best.value.priority {
              best := rule;
            }
          }
          break;
        }
      }
      LookupStop(tables, i, flow, best);
    }

    /** One sub-table of a lookup: search it, and fold its mask into `wc`. */
    method Visit(i: nat, flow: FlowWords, wc: array?<Word>, ghost best: Option<Rule>) returns (rule: Option<Rule>)
      requires Valid() && (wc != null ==> wc.Length == 46) && i < |tables| && !Settled(tables[i], best)
      modifies wc
      ensures LookupFrom(tables[i..], flow, best) == LookupFrom(tables[i + 1..], flow, Better(best, rule))
      ensures wc != null ==> LookupBits(tables[i..], flow, best, old(wc[..]))
                             == LookupBits(tables[i + 1..], flow, Better(best, rule), wc[..])
    {
      hide StateOk, LookupFrom, LookupBits, HeadFor, ChainsOk, TableOk, SumRules, Miniflow.Valid, Miniflow.Expand,
        Shape, Join;
      TableParts(mx, tables, i);
      MasksValid(mx, tables);
      rule := FindMatch(mx, tables[i], flow);
      if wc != null {
        LookupStep(tables, i, flow, best, wc[..]);
        FlowUnionWithMiniflow(wc, tables[i].mask);
        assert wc[..] == Folded(old(wc[..]), tables[i].mask.Expand()) by {
          FoldedWords(wc[..], old(wc[..]), tables[i].mask.Expand());
        }
      } else {
        LookupStep(tables, i, flow, best, flow);
      }
    }

    /** `classifier_find_rule_exactly` */
    method FindRuleExactly(target: Rule) returns (r: Option<Rule>)
      requires Valid() && Ok(target)
      ensures r.Some? ==> Stored(tables, r.value) && Identical(r.value, target)
      ensures r.None? ==> forall x | Stored(tables, x) :: !Identical(x, target)
    {
      hide StateOk, Stored, Ok, ChainsOk, ChainOk, TableOk, SumRules, Miniflow.Valid, Miniflow.Expand, HashIn, Shape,
        InChains, HeadKey;
      RuleKeyOk(target);
      MasksValid(mx, tables);
      var ti := FindTable(target.mask);
      if ti == |tables| {
        forall x | Stored(tables, x) ensures !Identical(x, target) {
          var i := HomeTable(mx, tables, x);
          assert tables[i] in tables;
        }
        return None;
      }
      var t := tables[ti];
      TableParts(mx, tables, ti);
      if target.priority > t.maxPriority {
        forall x | Stored(tables, x) ensures !Identical(x, target) {
          if x.mask == target.mask {
            var i := HomeTable(mx, tables, x);
            SameTable(mx, tables, ti, i);
            TableBound(mx, t, x);
          }
        }
        return None;
      }
      var hash := MiniflowHashInMinimask(mx, target.key, target.mask, 0);
      var ci := FindEqual(mx, t, target.key, hash);
      if ci == |t.chains| {
        forall x | Stored(tables, x) ensures !Identical(x, target) {
          if x.mask == target.mask && x.key == target.key {
            var i := HomeTable(mx, tables, x);
            SameTable(mx, tables, ti, i);
            HomeChain(mx, t, ci, x);
          }
        }
        return None;
      }
      var c := t.chains[ci];
      ChainOf(mx, t, ci);
      var j := 0;
      while j < |c.rules|
        invariant j <= |c.rules|
        invariant forall i | 0 <= i < j :: c.rules[i].priority > target.priority
      {
        var rule := c.rules[j];
        if target.priority >= rule.priority {
          if target.priority == rule.priority {
            ChainKey(mx, t.mask, c, rule);
            StoredAt(tables, ti, ci, rule);
            return Some(rule);
          }
          break;
        }
        j := j + 1;
      }
      NotInChain(mx, t.mask, c, j, target.priority);
      forall x | Stored(tables, x) ensures !Identical(x, target) {
        if x.mask == target.mask && x.key == target.key {
          var i := HomeTable(mx, tables, x);
          SameTable(mx, tables, ti, i);
          HomeChain(mx, t, ci, x);
        }
      }
      r := None;
    }
  }

  lemma LookupStop(s: seq<Table>, i: nat, f: FlowWords, best: Option<Rule>)
    requires i <= |s| && (i < |s| ==> Settled(s[i], best))
    ensures LookupFrom(s[i..], f, best) == best
    ensures forall wc: FlowWords :: LookupBits(s[i..], f, best, wc) == wc
  {
  }

  lemma LookupStep(s: seq<Table>, i: nat, f: FlowWords, best: Option<Rule>, wc: FlowWords)
    requires i < |s| && !Settled(s[i], best)
    ensures var next := Better(best, HeadFor(s[i].chains, f));
            && LookupFrom(s[i..], f, best) == LookupFrom(s[i + 1..], f, next)
            && LookupBits(s[i..], f, best, wc) == LookupBits(s[i + 1..], f, next, Folded(wc, s[i].mask.Expand()))
  {
  }

  lemma FoldedWords(now: seq<Word>, was: FlowWords, m: FlowWords)
    requires |now| == 46 && forall o | 0 <= o < 46 :: now[o] == was[o] | m[o]
    ensures now == Folded(was, m)
  {
    forall o | 0 <= o < 46 ensures now[o] == Folded(was, m)[o] { assert now[o] == Join(was[o], m[o]); }
  }

  lemma TableBound(mx: Mixer, t: Table, x: Rule)
    requires TableOk(mx, t) && InChains(t.chains, x)
    ensures x.priority <= t.maxPriority
  {
    hide ChainOk, Size, CountHeads;
    var c :| c in t.chains && x in c.rules;
    ChainBound(mx, t.mask, c, x);
  }

  lemma StoredAt(s: seq<Table>, ti: nat, ci: nat, r: Rule)
    requires ti < |s| && ci < |s[ti].chains| && r in s[ti].chains[ci].rules
    ensures Stored(s, r) && InChains(s[ti].chains, r)
  {
    assert s[ti].chains[ci] in s[ti].chains && s[ti] in s;
  }

  lemma NotInChain(mx: Mixer, mask: Miniflow, c: Chain, j: nat, p: nat)
    requires ChainOk(mx, mask, c) && j <= |c.rules|
    requires forall i | 0 <= i < j :: c.rules[i].priority > p
    requires j < |c.rules| ==> c.rules[j].priority < p
    ensures forall x | x in c.rules :: x.priority != p
  {
    hide Ok, HashIn;
    forall x | x in c.rules ensures x.priority != p {
      var i :| 0 <= i < |c.rules| && c.rules[i] == x;
      if i > j { assert c.rules[j].priority > c.rules[i].priority; }
    }
  }

  /** `q` is `s` with the sub-table of `mask` updated and moved back, past higher ones only. */
  ghost predicate Demoted(s: seq<Table>, q: seq<Table>, mask: Miniflow) {
    exists ti: nat, at: nat ::
      && ti <= at < |q| && ti < |s| && s[ti].mask == mask && q[at].mask == mask
      && RemoveAt(q, at) == RemoveAt(s, ti)
      && forall j | ti <= j < at :: q[j].maxPriority > q[at].maxPriority
  }

  lemma DemotedAt(s: seq<Table>, q: seq<Table>, ti: nat, at: nat, mask: Miniflow)
    requires ti <= at < |q| && ti < |s| && s[ti].mask == mask && q[at].mask == mask
    requires RemoveAt(q, at) == RemoveAt(s, ti)
    requires forall j | ti <= j < at :: q[j].maxPriority > q[at].maxPriority
    ensures Demoted(s, q, mask)
  {
    hide RemoveAt;
  }

  /** Moving or updating a sub-table changes no address and no mask. */
  lemma MovedFrame(mx: Mixer, s: seq<Table>, i: nat, q: seq<Table>, k: nat)
    requires i < |s| && k < |q| && RemoveAt(q, k) == RemoveAt(s, i) && StateOk(mx, s)
    requires q[k].mask == s[i].mask && q[k].addr == s[i].addr
    ensures forall t | t in q :: HasTable(s, t.addr, t.mask)
  {
    hide TableOk, RemoveAt;
    StateSorted(mx, s);
    MovedMembers(s, i, q, k);
    assert s[i] in s;
  }

  lemma RemovedFrame(mx: Mixer, s: seq<Table>, i: nat)
    requires i < |s| && StateOk(mx, s)
    ensures forall t | t in RemoveAt(s, i) :: HasTable(s, t.addr, t.mask)
  {
  }

  lemma ReplaceFrame(
    mx: Mixer, before: seq<Table>, s: seq<Table>, ti: nat, q: seq<Table>, at: nat, addr: nat, mask: Miniflow)
    requires Ready(mx, before, s, ti) && s[ti].mask == mask
    requires s == before || (exists t :: s == before + [t] && t.addr == addr && t.mask == mask)
    requires at < |q| && RemoveAt(q, at) == RemoveAt(s, ti) && q[at].mask == s[ti].mask && q[at].addr == s[ti].addr
    ensures forall t | t in q :: HasTable(before, t.addr, t.mask) || (t.addr == addr && t.mask == mask)
  {
    hide TableOk, RemoveAt, Shape, Stored, SumRules, Size;
    MovedMembers(s, ti, q, at);
    forall t | t in s ensures HasTable(before, t.addr, t.mask) || (t.addr == addr && t.mask == mask) {
      if t in before { assert HasTable(before, t.addr, t.mask); }
    }
    assert s[ti] in s;
  }

  lemma NotLast(rules: seq<Rule>, rule: Rule, j: nat)
    requires 0 < j <= |rules| && rule in rules && rule !in rules[..j - 1] && rules[j - 1] != rule
    ensures j < |rules| && rule !in rules[..j]
  {
  }

  lemma StateSorted(mx: Mixer, s: seq<Table>)
    requires StateOk(mx, s)
    ensures Sorted(s) && Distinct(s)
  {
    hide TableOk;
  }

  /** A stored rule is in a sub-table with its own mask. */
  lemma HomeTable(mx: Mixer, s: seq<Table>, rule: Rule) returns (i: nat)
    requires StateOk(mx, s) && Stored(s, rule)
    ensures i < |s| && s[i].mask == rule.mask && InChains(s[i].chains, rule) && Ok(rule)
    ensures rule.key.Valid() && rule.mask.Valid()
  {
    hide ChainOk, Size, CountHeads;
    var t :| t in s && InChains(t.chains, rule);
    i :| 0 <= i < |s| && s[i] == t;
    var c :| c in t.chains && rule in c.rules;
    assert TableOk(mx, t);
    ChainKey(mx, t.mask, c, rule);
    RuleKeyOk(rule);
  }

  lemma SameTable(mx: Mixer, s: seq<Table>, i: nat, j: nat)
    requires StateOk(mx, s) && i <= |s| && j < |s|
    requires i < |s| ==> s[i].mask == s[j].mask
    requires i == |s| ==> forall t | t in s :: t.mask != s[j].mask
    ensures i == j
  {
    hide TableOk;
    assert s[j] in s;
    assert i < |s|;
    assert s[i].mask == s[j].mask;
  }

  lemma TableParts(mx: Mixer, s: seq<Table>, i: nat)
    requires StateOk(mx, s) && i < |s|
    ensures TableOk(mx, s[i]) && Shape(mx, s[i]) && ChainsOk(mx, s[i].mask, s[i].chains)
  {
  }

  lemma HomeChain(mx: Mixer, t: Table, ci: nat, rule: Rule)
    requires TableOk(mx, t) && InChains(t.chains, rule) && ci <= |t.chains|
    requires ci < |t.chains| ==> HeadKey(t.chains[ci]) == rule.key
    requires ci == |t.chains| ==> forall c | c in t.chains :: HeadKey(c) != rule.key
    ensures ci < |t.chains| && rule in t.chains[ci].rules
  {
    hide ChainOk, HeadKey, Size, CountHeads;
    var c :| c in t.chains && rule in c.rules;
    ChainKey(mx, t.mask, c, rule);
    InsertMembers(mx, t, ci, rule, rule);
  }

  /** The chains of a sub-table after a rule is taken out, before its counters are adjusted. */
  ghost predicate RuleRemoved(mx: Mixer, t: Table, u: Table, rule: Rule) {
    && u == t.(chains := u.chains)
    && ChainsOk(mx, u.mask, u.chains) && HeadsBelow(u.chains, u.maxPriority)
    && Size(u.chains) + 1 == Size(t.chains)
    && CountHeads(u.chains, u.maxPriority) + One(rule.priority == u.maxPriority) == u.maxCount
    && (forall r :: InChains(u.chains, r) <==> InChains(t.chains, r) && r != rule)
  }

  lemma RemoveFromChain(mx: Mixer, t: Table, ci: nat, j: nat)
    requires TableOk(mx, t) && ci < |t.chains| && j < |t.chains[ci].rules| && |t.chains[ci].rules| > 1
    ensures var d := Chain(t.chains[ci].hash, RemoveAt(t.chains[ci].rules, j));
            RuleRemoved(mx, t, t.(chains := t.chains[ci := d]), t.chains[ci].rules[j])
  {
    hide ChainOk, HeadKey, ChainsOk, InChains, CountHeads, Size, RemoveAt;
    var c := t.chains[ci];
    var d := Chain(c.hash, RemoveAt(c.rules, j));
    var rule := c.rules[j];
    ChainOf(mx, t, ci);
    HeadOk(mx, t.mask, c);
    RemoveAtIndex(c.rules, j);
    ChainRemoved(mx, t.mask, c, j);
    ChainsUpdated(mx, t.mask, t.chains, ci, d);
    CountUpdated(t.chains, ci, d, t.maxPriority);
    ChainBound(mx, t.mask, c, rule);
    if j > 0 { ChainFalls(mx, t.mask, c, j); }
    ChainKey(mx, t.mask, c, rule);
    forall r ensures InChains(t.chains[ci := d], r) <==> InChains(t.chains, r) && r != rule {
      InsertMembers(mx, t, ci, rule, r);
    }
  }

  lemma ChainFalls(mx: Mixer, mask: Miniflow, c: Chain, j: nat)
    requires ChainOk(mx, mask, c) && 0 < j < |c.rules|
    ensures c.rules[j].priority < c.rules[0].priority
  {
    hide Ok, HashIn;
  }

  lemma RemoveChain(mx: Mixer, t: Table, ci: nat)
    requires TableOk(mx, t) && ci < |t.chains| && |t.chains[ci].rules| == 1
    ensures RuleRemoved(mx, t, t.(chains := RemoveAt(t.chains, ci)), t.chains[ci].rules[0])
  {
    hide ChainOk, HeadKey, ChainsOk, InChains, CountHeads, Size, RemoveAt;
    ChainOf(mx, t, ci);
    ChainsShrunk(mx, t.mask, t.chains, ci);
    CountSplit(t.chains, ci, t.maxPriority);
    ChainsDiffer(mx, t.mask, t.chains, ci);
  }

  lemma RemovedParts(mx: Mixer, t: Table, u: Table, rule: Rule)
    requires TableOk(mx, t) && RuleRemoved(mx, t, u, rule)
    ensures t.nRules > 0 && u == t.(chains := u.chains) && u.maxCount > 0 && u.nRules - 1 == Size(u.chains)
    ensures ChainsOk(mx, u.mask, u.chains) && HeadsBelow(u.chains, u.maxPriority)
    ensures CountHeads(u.chains, u.maxPriority) == u.maxCount - One(rule.priority == u.maxPriority)
    ensures u.nRules - 1 == 0 <==> u.chains == []
  {
    hide InChains, ChainsOk, CountHeads, HeadsBelow;
    SizePositive(mx, u.mask, u.chains);
  }

  /** The last rule of a sub-table takes the sub-table with it. */
  lemma RemoveTableDone(mx: Mixer, s: seq<Table>, ti: nat, u: Table, rule: Rule)
    requires StateOk(mx, s) && ti < |s| && u.chains == []
    requires RuleRemoved(mx, s[ti], u.(nRules := s[ti].nRules), rule) && rule.mask == s[ti].mask
    ensures StateOk(mx, RemoveAt(s, ti))
    ensures forall r :: Stored(RemoveAt(s, ti), r) <==> Stored(s, r) && r != rule
    ensures SumRules(RemoveAt(s, ti)) + s[ti].nRules == SumRules(s) && s[ti].nRules == 1
  {
    hide TableOk, RemoveAt;
    var q := RemoveAt(s, ti);
    StateSorted(mx, s);
    OthersDiffer(s, ti);
    RemoveAtSorted(s, ti);
    SumSplit(s, ti);
    TableParts(mx, s, ti);
    LastRule(mx, s[ti], u.(nRules := s[ti].nRules), rule);
    forall r ensures Stored(q, r) <==> Stored(s, r) && r != rule {
      if Stored(q, r) {
        var t :| t in q && InChains(t.chains, r);
        assert TableOk(mx, t);
        OtherTable(mx, s, ti, t, r);
      }
      if Stored(s, r) && r != rule {
        var t :| t in s && InChains(t.chains, r);
        assert t != s[ti];
        assert t in q;
      }
    }
  }

  lemma LastRule(mx: Mixer, t: Table, u: Table, rule: Rule)
    requires TableOk(mx, t) && RuleRemoved(mx, t, u, rule) && u.chains == []
    ensures t.nRules == 1 && forall r | InChains(t.chains, r) :: r == rule
  {
  }

  lemma RemoveDone(mx: Mixer, s: seq<Table>, ti: nat, q: seq<Table>, at: nat, u: Table, rule: Rule)
    requires StateOk(mx, s) && ti < |s| && rule.mask == s[ti].mask
    requires RuleRemoved(mx, s[ti], u.(nRules := s[ti].nRules), rule)
    requires u.nRules == s[ti].nRules - 1 == Size(u.chains)
    requires at < |q| && RemoveAt(q, at) == RemoveAt(s, ti) && Sorted(q)
    requires Shape(mx, q[at]) && q[at].maxCount > 0
    requires q[at] == u.(maxPriority := q[at].maxPriority, maxCount := q[at].maxCount)
    ensures StateOk(mx, q) && SumRules(q) == SumRules(s) - 1
    ensures forall r :: Stored(q, r) <==> Stored(s, r) && r != rule
  {
    hide RemoveAt, InChains, ChainsOk, Size, CountHeads, Stored, HeadsBelow;
    StateSorted(mx, s);
    MovedMembers(s, ti, q, at);
    SumSplit(q, at);
    SumSplit(s, ti);
    assert TableOk(mx, q[at]);
    forall r ensures Stored(q, r) <==> Stored(s, r) && r != rule {
      ReplaceMembers(mx, s, ti, q, at, rule, r);
    }
  }

  lemma InsertedCount(mx: Mixer, t: Table, u: Table, rule: Rule, displaced: Option<Rule>)
    requires RuleInserted(mx, t, u, rule, displaced)
    ensures u.nRules == t.nRules && u.(nRules := t.nRules) == u && u.addr == t.addr && u.mask == t.mask
  {
    hide Shape, InChains;
  }

  lemma MasksValid(mx: Mixer, s: seq<Table>)
    requires StateOk(mx, s)
    ensures forall t | t in s :: t.mask.Valid()
  {
    hide ChainOk, Miniflow.Valid, Size, CountHeads;
  }

  /** The list on which `insert_rule` works: the old one, or the old one with an empty
      sub-table at its end. */
  ghost predicate Ready(mx: Mixer, before: seq<Table>, s: seq<Table>, ti: nat) {
    && ti < |s| && Sorted(s) && Distinct(s) && Shape(mx, s[ti]) && s[ti].nRules == Size(s[ti].chains)
    && (forall t | t in s && t != s[ti] :: TableOk(mx, t))
    && (forall r :: Stored(s, r) <==> Stored(before, r))
    && SumRules(s) == SumRules(before)
  }

  lemma ReadyToInsert(mx: Mixer, before: seq<Table>, s: seq<Table>, ti: nat, mask: Miniflow, addr: nat)
    requires StateOk(mx, before) && ti <= |before| && mask.Valid()
    requires ti < |before| ==> s == before && before[ti].mask == mask
    requires ti == |before| ==> s == before + [Table(addr, mask, [], 0, 0, 0)]
    requires ti == |before| ==> forall t | t in before :: t.mask != mask && t.addr != addr
    ensures Ready(mx, before, s, ti) && s[ti].mask == mask && Sorted(s) && Shape(mx, s[ti])
  {
    hide ChainOk, Miniflow.Valid, InChains;
    if ti < |before| {
      assert before[ti] in before;
    } else {
      SumConcat(before, [Table(addr, mask, [], 0, 0, 0)]);
      StoredEmptyTable(before, Table(addr, mask, [], 0, 0, 0));
    }
  }

  lemma StoredEmptyTable(s: seq<Table>, t: Table)
    requires t.chains == []
    ensures forall r :: Stored(s + [t], r) <==> Stored(s, r)
  {
  }

  lemma OtherTable(mx: Mixer, s: seq<Table>, i: nat, t: Table, r: Rule)
    requires i < |s| && Distinct(s) && t in s && t != s[i] && TableOk(mx, t) && InChains(t.chains, r)
    ensures r.mask == t.mask != s[i].mask
  {
    hide ChainOk, RemoveAt, Size, CountHeads;
    OthersDiffer(s, i);
    var c :| c in t.chains && r in c.rules;
    ChainKey(mx, t.mask, c, r);
  }

  lemma ReplaceDone(
    mx: Mixer, before: seq<Table>, s: seq<Table>, ti: nat, q: seq<Table>, at: nat, rule: Rule, displaced: Option<Rule>)
    requires StateOk(mx, before) && Ready(mx, before, s, ti) && rule.mask == s[ti].mask
    requires at < |q| && RemoveAt(q, at) == RemoveAt(s, ti) && Sorted(q)
    requires q[at].nRules == s[ti].nRules + One(displaced.None?)
    requires RuleInserted(mx, s[ti], q[at].(nRules := s[ti].nRules), rule, displaced)
    ensures StateOk(mx, q) && SumRules(q) == SumRules(before) + One(displaced.None?)
    ensures forall r :: Stored(q, r) <==> r == rule || (Stored(before, r) && !Identical(r, rule))
    ensures displaced.None? <==> forall r | Stored(before, r) :: !Identical(r, rule)
    ensures displaced.Some? ==> Stored(before, displaced.value) && Identical(displaced.value, rule)
  {
    hide RemoveAt, InChains, ChainsOk, Size, CountHeads, Stored, One, HeadsBelow;
    MovedMembers(s, ti, q, at);
    SumSplit(q, at);
    SumSplit(s, ti);
    assert TableOk(mx, q[at]);
    forall r ensures Stored(q, r) <==> r == rule || (Stored(before, r) && !Identical(r, rule)) {
      ReplaceMembers(mx, s, ti, q, at, rule, r);
    }
    forall r | Stored(before, r) && Identical(r, rule) ensures displaced.Some? {
      ReplaceMembers(mx, s, ti, q, at, rule, r);
    }
    if displaced.Some? { ReplaceMembers(mx, s, ti, q, at, rule, displaced.value); }
  }

  lemma ReplaceMembers(mx: Mixer, s: seq<Table>, ti: nat, q: seq<Table>, at: nat, rule: Rule, r: Rule)
    requires ti < |s| && at < |q| && Distinct(s) && rule.mask == s[ti].mask
    requires forall x :: x in q <==> x == q[at] || (x in s && x != s[ti])
    requires forall t | t in s && t != s[ti] :: TableOk(mx, t)
    ensures InChains(s[ti].chains, r) ==> Stored(s, r)
    ensures Stored(s, r) && r.mask == rule.mask ==> InChains(s[ti].chains, r)
    ensures Stored(q, r)
            <==> InChains(q[at].chains, r)
                 || (Stored(s, r) && exists t :: t in s && t != s[ti] && InChains(t.chains, r))
    ensures Stored(s, r) && !InChains(s[ti].chains, r) ==> exists t :: t in s && t != s[ti] && InChains(t.chains, r)
    ensures (exists t :: t in s && t != s[ti] && InChains(t.chains, r)) ==> r.mask != rule.mask
  {
  }

  lemma RuleKeyOk(r: Rule)
    requires Ok(r)
    ensures r.key.Valid() && r.mask.Valid()
  {
  }

  lemma ShapeOk(mx: Mixer, t: Table)
    requires Shape(mx, t)
    ensures ChainsOk(mx, t.mask, t.chains)
  {
  }

  /** The effect of inserting `rule` on the rules of a sub-table and on its counters. */
  ghost predicate RuleInserted(mx: Mixer, t: Table, u: Table, rule: Rule, displaced: Option<Rule>) {
    && Shape(mx, u) && u.maxCount > 0
    && u.addr == t.addr && u.mask == t.mask && u.nRules == t.nRules
    && Size(u.chains) == Size(t.chains) + One(displaced.None?)
    && (forall r :: InChains(u.chains, r) <==> r == rule || (InChains(t.chains, r) && !Identical(r, rule)))
    && (displaced.Some? ==> InChains(t.chains, displaced.value) && Identical(displaced.value, rule))
    && (displaced.None? ==> forall r | InChains(t.chains, r) :: !Identical(r, rule))
  }

  /** Insertion of a rule whose key has no chain yet. */
  lemma InsertNew(mx: Mixer, t: Table, hash: Word, rule: Rule)
    requires Shape(mx, t) && Ok(rule) && rule.mask == t.mask
    requires forall c | c in t.chains :: HeadKey(c) != rule.key
    requires hash == HashIn(mx, rule.key.Expand(), t.mask.Expand(), 0)
    ensures RuleInserted(mx, t, Raised(t.(chains := [Chain(hash, [rule])] + t.chains), rule.priority), rule, None)
  {
    hide ChainOk, HashIn, Ok, HeadKey, ChainsOk, InChains, CountHeads, Size;
    var d := Chain(hash, [rule]);
    var p := rule.priority;
    ShapeOk(mx, t);
    ChainsGrown(mx, t.mask, t.chains, hash, rule);
    CountGrown(t.chains, d, p);
    CountGrown(t.chains, d, t.maxPriority);
    if p > t.maxPriority { CountAbove(t.chains, t.maxPriority, p); }
  }

  /** Insertion of a rule into a chain, at the place `j` that keeps it descending. */
  lemma InsertBetween(mx: Mixer, t: Table, ci: nat, j: nat, rule: Rule)
    requires Shape(mx, t) && Ok(rule) && rule.mask == t.mask
    requires ci < |t.chains| && HeadKey(t.chains[ci]) == rule.key && Place(t.chains[ci], j, rule.priority)
    requires j < |t.chains[ci].rules| ==> t.chains[ci].rules[j].priority != rule.priority
    ensures var d := Chain(t.chains[ci].hash, InsertAt(t.chains[ci].rules, j, rule));
            RuleInserted(mx, t, Raised(t.(chains := t.chains[ci := d]), rule.priority), rule, None)
  {
    hide ChainOk, HashIn, Ok, HeadKey, ChainsOk, InChains, CountHeads, Size, InsertAt;
    var c := t.chains[ci];
    var d := Chain(c.hash, InsertAt(c.rules, j, rule));
    var p := rule.priority;
    ChainOf(mx, t, ci);
    HeadOk(mx, t.mask, c);
    InsertAtIndex(c.rules, j, rule);
    ChainInserted(mx, t.mask, c, j, rule);
    ChainsUpdated(mx, t.mask, t.chains, ci, d);
    CountUpdated(t.chains, ci, d, p);
    CountUpdated(t.chains, ci, d, t.maxPriority);
    if p > t.maxPriority { CountAbove(t.chains, t.maxPriority, p); }
    forall r ensures InChains(t.chains[ci := d], r) <==> r == rule || (InChains(t.chains, r) && !Identical(r, rule)) {
      InsertMembers(mx, t, ci, rule, r);
    }
    forall r | InChains(t.chains, r) ensures !Identical(r, rule) { InsertMembers(mx, t, ci, rule, r); }
  }

  lemma ChainOf(mx: Mixer, t: Table, ci: nat)
    requires Shape(mx, t) && ci < |t.chains|
    ensures ChainsOk(mx, t.mask, t.chains) && ChainOk(mx, t.mask, t.chains[ci]) && t.chains[ci] in t.chains
  {
    hide ChainOk;
  }

  /** A rule of the sub-table is in the chain of its key. */
  lemma InsertMembers(mx: Mixer, t: Table, ci: nat, rule: Rule, r: Rule)
    requires Shape(mx, t) && ci < |t.chains| && HeadKey(t.chains[ci]) == rule.key
    ensures r in t.chains[ci].rules ==> InChains(t.chains, r) && r.key == rule.key && r.mask == t.mask
    ensures InChains(t.chains, r) && r.key == rule.key ==> r in t.chains[ci].rules
  {
    hide ChainOk, HeadKey;
    ChainOf(mx, t, ci);
    if r in t.chains[ci].rules { ChainKey(mx, t.mask, t.chains[ci], r); }
    if InChains(t.chains, r) && r.key == rule.key {
      var c :| c in t.chains && r in c.rules;
      var k :| 0 <= k < |t.chains| && t.chains[k] == c;
      if k != ci { OtherChain(mx, t.mask, t.chains, ci, k, r); }
    }
  }

  /** Replacement of the rule that differs from the new one in nothing. */
  lemma InsertEqual(mx: Mixer, t: Table, ci: nat, j: nat, rule: Rule)
    requires Shape(mx, t) && Ok(rule) && rule.mask == t.mask
    requires ci < |t.chains| && HeadKey(t.chains[ci]) == rule.key && Place(t.chains[ci], j, rule.priority)
    requires j < |t.chains[ci].rules| && t.chains[ci].rules[j].priority == rule.priority
    ensures var d := Chain(t.chains[ci].hash, t.chains[ci].rules[j := rule]);
            RuleInserted(mx, t, t.(chains := t.chains[ci := d]), rule, Some(t.chains[ci].rules[j]))
  {
    hide ChainOk, HashIn, Ok, HeadKey, ChainsOk, InChains, CountHeads, Size;
    var c := t.chains[ci];
    var d := Chain(c.hash, c.rules[j := rule]);
    ChainOf(mx, t, ci);
    HeadOk(mx, t.mask, c);
    ChainReplaced(mx, t.mask, c, j, rule);
    ChainsUpdated(mx, t.mask, t.chains, ci, d);
    CountUpdated(t.chains, ci, d, t.maxPriority);
    forall r ensures InChains(t.chains[ci := d], r) <==> r == rule || (InChains(t.chains, r) && !Identical(r, rule)) {
      InsertMembers(mx, t, ci, rule, r);
    }
    assert c.rules[j] in c.rules;
    InsertMembers(mx, t, ci, rule, c.rules[j]);
  }

  /** What `update_tables_after_insertion` makes of the counters of a sub-table. */
  function Raised(t: Table, p: nat): Table {
    if p == t.maxPriority then t.(maxCount := t.maxCount + 1)
    else if p > t.maxPriority then t.(maxPriority := p, maxCount := 1)
    else t
  }

  lemma InPlace(s: seq<Table>, i: nat, t: Table)
    requires i < |s|
    ensures RemoveAt(s[i := t], i) == RemoveAt(s, i)
    ensures t.maxPriority == s[i].maxPriority && Sorted(s) ==> Sorted(s[i := t])
  {
  }

  lemma CountOne(c: Chain, p: nat)
    ensures CountHeads([c], p) == One(HeadAt(c, p))
  {
  }

  lemma HeadOk(mx: Mixer, mask: Miniflow, c: Chain)
    requires ChainOk(mx, mask, c)
    ensures |c.rules| > 0 && Ok(c.rules[0]) && c.rules[0].key.Valid() && c.rules[0].mask == mask
  {
  }
}
