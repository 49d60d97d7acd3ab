/** The read-only scans of `classifier.c`: overlap checking and the rule cursor. */
module Queries {
  import opened Options
  import opened Bits
  import opened Flow
  import opened Match
  import opened Tables
  import opened TableUpdates
  import opened Classifier

  // ---- overlap ----

  /** Same priority, and some packet could match both. */
  ghost predicate Overlap(a: Rule, b: Rule) {
    a.priority == b.priority && exists f: FlowWords :: Matches(a, f) && Matches(b, f)
  }

  /** `classifier_rule_overlaps`: true exactly when a stored rule overlaps `target`, although
      low sub-tables and the tails of chains are skipped. */
  method RuleOverlaps(cls: Classifier, target: Rule) returns (r: bool)
    requires cls.Valid() && Ok(target)
    ensures r <==> exists x :: Stored(cls.tables, x) && Overlap(x, target)
  {
    hide StateOk, Ok, ChainsOk, TableOk, SumRules, Overlap, Shape, InChains;
    var s := cls.tables;
    var i := 0;
    while i < |s|
      invariant i <= |s|
      invariant forall t, x | t in s[..i] && InChains(t.chains, x) :: !Overlap(x, target)
    {
      var t := s[i];
      TableParts(cls.mx, s, i);
      if target.priority > t.maxPriority {
        NoneFurther(cls.mx, s, i, target);
        return false;
      }
      var found := TableOverlaps(cls.mx, t, target);
      if found {
        assert t in s;
        return true;
      }
      i := i + 1;
      assert s[..i] == s[..i - 1] + [t];
    }
    assert s[..i] == s;
    return false;
  }

  /** Sub-tables below the priority of the target hold no overlapping rule. */
  lemma NoneFurther(mx: Mixer, s: seq<Table>, i: nat, target: Rule)
    requires StateOk(mx, s) && i < |s| && s[i].maxPriority < target.priority
    requires forall t, x | t in s[..i] && InChains(t.chains, x) :: !Overlap(x, target)
    ensures forall x | Stored(s, x) :: !Overlap(x, target)
  {
  }

  /** The body of the loop of `classifier_rule_overlaps` for one sub-table. */
  method TableOverlaps(mx: Mixer, t: Table, target: Rule) returns (r: bool)
    requires TableOk(mx, t) && Ok(target)
    ensures r <==> exists x :: InChains(t.chains, x) && Overlap(x, target)
  {
    hide Ok, Overlap, Size, CountHeads, ChainOk, Miniflow.Valid, EqualIn, Miniflow.Expand, Combined;
    RuleKeyOk(target);
    var mask := MinimaskCombine(target.mask, t.mask);
    for i := 0 to |t.chains|
      invariant forall c, x | c in t.chains[..i] && x in c.rules :: !Overlap(x, target)
    {
      var c := t.chains[i];
      assert c in t.chains;
      var found := ChainOverlaps(mx, t.mask, c, target, mask);
      if found {
        return true;
      }
      assert t.chains[..i + 1] == t.chains[..i] + [c];
    }
    assert t.chains[..|t.chains|] == t.chains;
    return false;
  }

  method ChainOverlaps(mx: Mixer, tmask: Miniflow, c: Chain, target: Rule, mask: Miniflow) returns (r: bool)
    requires ChainOk(mx, tmask, c) && Ok(target)
    requires mask.Valid() && mask.Expand() == Combined(target.mask.Expand(), tmask.Expand())
    ensures r <==> exists x :: x in c.rules && Overlap(x, target)
  {
    hide Ok, Overlap, ChainOk, Miniflow.Valid, EqualIn, Miniflow.Expand, Combined;
    RuleKeyOk(target);
    var j := 0;
    while j < |c.rules|
      invariant j <= |c.rules|
      invariant forall i | 0 <= i < j :: !Overlap(c.rules[i], target)
    {
      var rule := c.rules[j];
      ChainKey(mx, tmask, c, rule);
      RuleKeyOk(rule);
      if rule.priority < target.priority {
        TailTooLow(mx, tmask, c, j, target);
        return false;
      }
      OverlapTest(target, rule);
      if rule.priority == target.priority {
        var same := MiniflowEqualInMinimask(target.key, rule.key, mask);
        if same { return true; }
      }
      j := j + 1;
    }
    return false;
  }

  lemma OverlapTest(target: Rule, rule: Rule)
    requires Ok(target) && Ok(rule)
    ensures Overlap(rule, target) <==>
              && rule.priority == target.priority
              && EqualIn(target.key.Expand(), rule.key.Expand(), Combined(target.mask.Expand(), rule.mask.Expand()))
  {
    hide Ok, Matches, EqualIn, Combined, Miniflow.Expand;
    OverlapIsCommonFlow(target, rule);
  }

  lemma TailTooLow(mx: Mixer, mask: Miniflow, c: Chain, j: nat, target: Rule)
    requires ChainOk(mx, mask, c) && j < |c.rules| && c.rules[j].priority < target.priority
    requires forall i | 0 <= i < j :: !Overlap(c.rules[i], target)
    ensures forall x | x in c.rules :: !Overlap(x, target)
  {
  }

  // ---- the cursor ----

  /** The cursor wants every rule, or those at least as specific as its target. */
  ghost predicate Wanted(x: Rule, target: Option<Rule>) {
    target.Some? ==> Loose(x, target.value)
  }

  ghost function VisitChains(chains: seq<Chain>, target: Option<Rule>): seq<Rule> {
    if chains == [] then []
    else (if |chains[0].rules| > 0 && Wanted(chains[0].rules[0], target) then chains[0].rules else [])
         + VisitChains(chains[1..], target)
  }

  /** The rules that the cursor visits, in order. */
  ghost function Visits(s: seq<Table>, target: Option<Rule>): seq<Rule> {
    if s == [] then [] else VisitChains(s[0].chains, target) + Visits(s[1..], target)
  }

  /** Where a cursor stands: at a rule of a chain of a sub-table, or past the end. */
  datatype Position = At(ti: nat, ci: nat, ri: nat) | End

  predicate Within(s: seq<Table>, p: Position) {
    p.At? && p.ti < |s| && p.ci < |s[p.ti].chains| && p.ri < |s[p.ti].chains[p.ci].rules|
  }

  function RuleAt(s: seq<Table>, p: Position): Rule
    requires Within(s, p)
  {
    s[p.ti].chains[p.ci].rules[p.ri]
  }

  /** The visits still to come after the one at `p`. */
  ghost function Rest(s: seq<Table>, target: Option<Rule>, p: Position): seq<Rule>
    requires Within(s, p)
  {
    s[p.ti].chains[p.ci].rules[p.ri + 1..]
    + (VisitChains(s[p.ti].chains[p.ci + 1..], target) + Visits(s[p.ti + 1..], target))
  }

  /** `q` is the next stop when `todo` are the visits still to come. */
  ghost predicate Next(s: seq<Table>, target: Option<Rule>, todo: seq<Rule>, q: Position) {
    if q.End? then todo == []
    else Within(s, q) && Wanted(RuleAt(s, q), target) && todo == [RuleAt(s, q)] + Rest(s, target, q)
  }

  ghost predicate TargetOk(target: Option<Rule>) {
    target.Some? ==> Ok(target.value)
  }

  /** `cls_cursor_init`: a catch-all target is no target. */
  method CursorInit(target: Option<Rule>) returns (t: Option<Rule>)
    requires TargetOk(target)
    ensures TargetOk(t) && forall x :: Wanted(x, t) <==> Wanted(x, target)
  {
    if target.Some? && MinimaskIsCatchall(target.value.mask) {
      forall x ensures Wanted(x, target) { CatchallWants(x, target.value); }
      return None;
    }
    t := target;
  }

  lemma CatchallWants(x: Rule, target: Rule)
    requires forall o | 0 <= o < 46 :: target.mask.Expand()[o] == 0
    ensures Loose(x, target)
  {
  }

  /** `rule_matches` */
  method RuleMatches(rule: Rule, target: Option<Rule>) returns (r: bool)
    requires Ok(rule) && TargetOk(target)
    requires target.Some? ==> !Extra(rule.mask.Expand(), target.value.mask.Expand())
    ensures r <==> Wanted(rule, target)
  {
    if target.None? { return true; }
    r := MiniflowEqualInMinimask(rule.key, target.value.key, target.value.mask);
  }

  /** The chains of one sub-table from `from` on: the loops of `search_table` and of
      `cls_cursor_next`. */
  method SearchChains(mx: Mixer, t: Table, target: Option<Rule>, from: nat) returns (ci: nat)
    requires ChainsOk(mx, t.mask, t.chains) && TargetOk(target) && from <= |t.chains|
    requires target.Some? ==> !Extra(t.mask.Expand(), target.value.mask.Expand())
    ensures from <= ci <= |t.chains|
    ensures ci == |t.chains| ==> VisitChains(t.chains[from..], target) == []
    ensures ci < |t.chains| ==>
              && |t.chains[ci].rules| > 0 && Wanted(t.chains[ci].rules[0], target)
              && VisitChains(t.chains[from..], target) == t.chains[ci].rules + VisitChains(t.chains[ci + 1..], target)
  {
    hide Ok, HashIn, Wanted, Extra, Miniflow.Expand, Miniflow.Valid;
    ci := from;
    while ci < |t.chains|
      invariant from <= ci <= |t.chains|
      invariant VisitChains(t.chains[from..], target) == VisitChains(t.chains[ci..], target)
    {
      var c := t.chains[ci];
      assert ChainOk(mx, t.mask, c);
      HeadOk(mx, t.mask, c);
      assert t.chains[ci..][0] == c && t.chains[ci..][1..] == t.chains[ci + 1..];
      var wanted := RuleMatches(c.rules[0], target);
      if wanted { return; }
      ci := ci + 1;
    }
  }

  /** A sub-table that wildcards a bit fixed in the target holds nothing wanted. */
  lemma {:induction false} NothingWanted(mx: Mixer, mask: Miniflow, chains: seq<Chain>, target: Option<Rule>)
    requires forall c | c in chains :: ChainOk(mx, mask, c)
    requires target.Some? && Extra(mask.Expand(), target.value.mask.Expand())
    ensures VisitChains(chains, target) == []
  {
    hide Extra, EqualIn, Miniflow.Expand, ChainOk;
    if chains != [] {
      HeadOk(mx, mask, chains[0]);
      NothingWanted(mx, mask, chains[1..], target);
    }
  }

  /** `search_table`: the first wanted chain of a sub-table, or the number of its chains. */
  method SearchTable(mx: Mixer, t: Table, target: Option<Rule>) returns (ci: nat)
    requires TableOk(mx, t) && TargetOk(target)
    ensures ci <= |t.chains|
    ensures ci == |t.chains| ==> VisitChains(t.chains, target) == []
    ensures ci < |t.chains| ==>
              && |t.chains[ci].rules| > 0 && Wanted(t.chains[ci].rules[0], target)
              && VisitChains(t.chains, target) == t.chains[ci].rules + VisitChains(t.chains[ci + 1..], target)
  {
    hide ChainOk, Size, CountHeads, HeadsBelow, TargetOk, Extra, VisitChains, Ok, Wanted, Miniflow.Expand,
      Miniflow.Valid;
    TargetMask(target);
    if target.Some? {
      var extra := MinimaskHasExtra(t.mask, target.value.mask);
      if extra {
        TableSkipped(mx, t, target);
        return |t.chains|;
      }
    }
    assert t.chains[0..] == t.chains;
    ci := SearchChains(mx, t, target, 0);
  }

  /** The sub-tables from `from` on: the loop of `cls_cursor_first`, continued by
      `cls_cursor_next`. */
  method SearchTables(cls: Classifier, target: Option<Rule>, from: nat) returns (q: Position)
    requires cls.Valid() && TargetOk(target) && from <= |cls.tables|
    ensures Next(cls.tables, target, Visits(cls.tables[from..], target), q)
  {
    hide StateOk, SumRules, ChainsOk, TableOk, Shape, TargetOk, VisitChains, Wanted;
    var s := cls.tables;
    var ti := from;
    while ti < |s|
      invariant from <= ti <= |s|
      invariant Visits(s[from..], target) == Visits(s[ti..], target)
    {
      var t := s[ti];
      TableParts(cls.mx, s, ti);
      assert s[ti..][0] == t && s[ti..][1..] == s[ti + 1..];
      var ci := SearchTable(cls.mx, t, target);
      if ci < |t.chains| {
        q := At(ti, ci, 0);
        assert t.chains[ci].rules == [t.chains[ci].rules[0]] + t.chains[ci].rules[1..];
        return;
      }
      ti := ti + 1;
    }
    return End;
  }

  lemma TargetMask(target: Option<Rule>)
    requires TargetOk(target)
    ensures target.Some? ==> target.value.mask.Valid() && Ok(target.value)
  {
  }

  lemma TableSkipped(mx: Mixer, t: Table, target: Option<Rule>)
    requires TableOk(mx, t) && target.Some? && Extra(t.mask.Expand(), target.value.mask.Expand())
    ensures VisitChains(t.chains, target) == []
  {
    hide Extra, ChainOk, VisitChains, Miniflow.Expand;
    NothingWanted(mx, t.mask, t.chains, target);
  }

  /** `cls_cursor_first` */
  method CursorFirst(cls: Classifier, target: Option<Rule>) returns (q: Position)
    requires cls.Valid() && TargetOk(target)
    ensures Next(cls.tables, target, Visits(cls.tables, target), q)
  {
    assert cls.tables[0..] == cls.tables;
    q := SearchTables(cls, target, 0);
  }

  /** `cls_cursor_next`: the next rule on the list, unless that wraps around to the head; then
      the next wanted chain of the sub-table; then the next sub-table. */
  method CursorNext(cls: Classifier, target: Option<Rule>, p: Position) returns (q: Position)
    requires cls.Valid() && TargetOk(target) && Within(cls.tables, p) && Wanted(RuleAt(cls.tables, p), target)
    ensures Next(cls.tables, target, Rest(cls.tables, target, p), q)
  {
    hide StateOk, SumRules, ChainsOk, TableOk, Shape, TargetOk, Extra, VisitChains, Visits, ChainOk, Miniflow.Expand,
      Loose, Wanted, Next, Rest;
    var s := cls.tables;
    var t := s[p.ti];
    var rules := t.chains[p.ci].rules;
    TableParts(cls.mx, s, p.ti);
    ChainOf(cls.mx, t, p.ci);
    var next := if p.ri + 1 < |rules| then p.ri + 1 else 0;
    RingEnds(cls.mx, t.mask, t.chains[p.ci], p.ri);
    WantedAlike(cls.mx, t.mask, t.chains[p.ci], rules[p.ri], rules[next], target);
    if rules[next].priority < rules[p.ri].priority {
      NextOnList(s, target, p);
      return At(p.ti, p.ci, next);
    }
    var ci := SearchChains(cls.mx, t, target, p.ci + 1);
    if ci < |t.chains| {
      NextChain(s, target, p, ci);
      return At(p.ti, ci, 0);
    }
    NextTable(s, target, p);
    q := SearchTables(cls, target, p.ti + 1);
  }

  lemma NextOnList(s: seq<Table>, target: Option<Rule>, p: Position)
    requires Within(s, p) && p.ri + 1 < |s[p.ti].chains[p.ci].rules|
    requires Wanted(RuleAt(s, p.(ri := p.ri + 1)), target)
    ensures Next(s, target, Rest(s, target, p), p.(ri := p.ri + 1))
  {
    hide VisitChains, Visits, Wanted;
    var rules := s[p.ti].chains[p.ci].rules;
    assert rules[p.ri + 1..] == [rules[p.ri + 1]] + rules[p.ri + 2..];
  }

  lemma NextChain(s: seq<Table>, target: Option<Rule>, p: Position, ci: nat)
    requires Within(s, p) && p.ri + 1 == |s[p.ti].chains[p.ci].rules| && p.ci < ci < |s[p.ti].chains|
    requires |s[p.ti].chains[ci].rules| > 0 && Wanted(s[p.ti].chains[ci].rules[0], target)
    requires VisitChains(s[p.ti].chains[p.ci + 1..], target)
             == s[p.ti].chains[ci].rules + VisitChains(s[p.ti].chains[ci + 1..], target)
    ensures Next(s, target, Rest(s, target, p), At(p.ti, ci, 0))
  {
    hide VisitChains, Visits, Wanted;
    var rules := s[p.ti].chains[ci].rules;
    assert rules == [rules[0]] + rules[1..];
  }

  lemma NextTable(s: seq<Table>, target: Option<Rule>, p: Position)
    requires Within(s, p) && p.ri + 1 == |s[p.ti].chains[p.ci].rules|
    requires VisitChains(s[p.ti].chains[p.ci + 1..], target) == []
    ensures Rest(s, target, p) == Visits(s[p.ti + 1..], target)
  {
  }

  /** The rules of a chain are wanted alike, and only where the masks allow it. */
  lemma WantedAlike(mx: Mixer, mask: Miniflow, c: Chain, x: Rule, y: Rule, target: Option<Rule>)
    requires ChainOk(mx, mask, c) && x in c.rules && y in c.rules
    ensures Wanted(x, target) == Wanted(y, target)
    ensures Wanted(x, target) && target.Some? ==> !Extra(mask.Expand(), target.value.mask.Expand())
  {
    hide Ok, HashIn, Extra, EqualIn, Miniflow.Expand;
  }

  /** On the circular list of a chain, the successor has lower priority except at the end. */
  lemma RingEnds(mx: Mixer, mask: Miniflow, c: Chain, ri: nat)
    requires ChainOk(mx, mask, c) && ri < |c.rules|
    ensures ri + 1 < |c.rules| ==> c.rules[ri + 1].priority < c.rules[ri].priority
    ensures ri + 1 == |c.rules| ==> c.rules[0].priority >= c.rules[ri].priority
  {
    hide Ok, HashIn;
  }

  // ---- what the cursor visits ----

  ghost predicate NoDuplicates(v: seq<Rule>) {
    forall i, j | 0 <= i < j < |v| :: v[i] != v[j]
  }

  lemma NoDuplicatesConcat(a: seq<Rule>, b: seq<Rule>)
    requires NoDuplicates(a) && NoDuplicates(b) && forall x | x in a :: x !in b
    ensures NoDuplicates(a + b)
  {
    forall i, j | 0 <= i < j < |a + b| ensures (a + b)[i] != (a + b)[j] {
      if i < |a| <= j { assert a[i] in a && b[j - |a|] in b; }
    }
  }

  lemma {:induction false} ChainVisits(mx: Mixer, mask: Miniflow, chains: seq<Chain>, target: Option<Rule>)
    requires ChainsOk(mx, mask, chains)
    ensures forall x :: x in VisitChains(chains, target) <==> InChains(chains, x) && Wanted(x, target)
    ensures NoDuplicates(VisitChains(chains, target))
  {
    hide ChainOk, Wanted, HeadKey, NoDuplicates;
    if chains == [] {
      NoVisits();
    } else {
      var c, v := chains[0], VisitChains(chains[1..], target);
      assert chains == [c] + chains[1..];
      ChainVisits(mx, mask, chains[1..], target);
      HeadOk(mx, mask, c);
      OneChainDistinct(mx, mask, c);
      forall x ensures x in VisitChains(chains, target) <==> InChains(chains, x) && Wanted(x, target) {
        InChainsSplit(chains, x);
        if x in c.rules { WantedAlike(mx, mask, c, c.rules[0], x, target); }
      }
      forall x | x in c.rules ensures x !in v {
        if x in v { var d :| d in chains[1..] && x in d.rules; OnlyHere(mx, mask, chains, d, x); }
      }
      if Wanted(c.rules[0], target) { NoDuplicatesConcat(c.rules, v); } else { assert [] + v == v; }
    }
  }

  lemma NoVisits()
    ensures NoDuplicates([])
  {
  }

  lemma InChainsSplit(chains: seq<Chain>, x: Rule)
    requires chains != []
    ensures InChains(chains, x) <==> x in chains[0].rules || InChains(chains[1..], x)
  {
  }

  lemma OneChainDistinct(mx: Mixer, mask: Miniflow, c: Chain)
    requires ChainOk(mx, mask, c)
    ensures NoDuplicates(c.rules)
  {
  }

  lemma OnlyHere(mx: Mixer, mask: Miniflow, chains: seq<Chain>, d: Chain, x: Rule)
    requires ChainsOk(mx, mask, chains) && chains != [] && d in chains[1..] && x in d.rules
    ensures x !in chains[0].rules
  {
    hide ChainOk, HeadKey;
    var k :| 1 <= k < |chains| && chains[k] == d;
    OtherChain(mx, mask, chains, 0, k, x);
    if x in chains[0].rules { ChainKey(mx, mask, chains[0], x); }
  }

  /** The cursor visits exactly the stored rules that it wants, each once. */
  lemma {:induction false} CursorVisits(mx: Mixer, s: seq<Table>, target: Option<Rule>)
    requires StateOk(mx, s)
    ensures forall x :: x in Visits(s, target) <==> Stored(s, x) && Wanted(x, target)
    ensures NoDuplicates(Visits(s, target))
  {
    hide TableOk, Wanted, NoDuplicates, VisitChains, InChains;
    if s == [] {
      NoVisits();
    } else {
      var a, b := VisitChains(s[0].chains, target), Visits(s[1..], target);
      CursorVisits(mx, s[1..], target);
      StoredSplit(s);
      TableParts(mx, s, 0);
      ChainVisits(mx, s[0].mask, s[0].chains, target);
      forall x | x in a ensures x !in b {
        if x in b {
          var t :| t in s[1..] && InChains(t.chains, x);
          OnlyThisTable(mx, s, t, x);
        }
      }
      NoDuplicatesConcat(a, b);
    }
  }

  lemma OnlyThisTable(mx: Mixer, s: seq<Table>, t: Table, x: Rule)
    requires StateOk(mx, s) && s != [] && t in s[1..] && InChains(t.chains, x)
    ensures !InChains(s[0].chains, x)
  {
    hide TableOk, InChains;
    var k :| 1 <= k < |s| && s[k] == t;
    StateSorted(mx, s);
    assert s[0].mask != s[k].mask;
    OtherTable(mx, s, 0, t, x);
    if InChains(s[0].chains, x) { TableParts(mx, s, 0); MaskOf(mx, s[0], x); }
  }

  lemma MaskOf(mx: Mixer, t: Table, x: Rule)
    requires TableOk(mx, t) && InChains(t.chains, x)
    ensures x.mask == t.mask
  {
    hide ChainOk, Size, CountHeads;
    var c :| c in t.chains && x in c.rules;
    ChainKey(mx, t.mask, c, x);
  }

  /** Iterating from `cls_cursor_first` with `cls_cursor_next` ends, and visits every rule whose
      flows the target matches, once; without a target, every rule. */
  method Collect(cls: Classifier, target: Option<Rule>) returns (out: seq<Rule>)
    requires cls.Valid() && TargetOk(target)
    ensures forall x :: x in out <==> Stored(cls.tables, x) && Wanted(x, target)
    ensures NoDuplicates(out)
  {
    hide StateOk, SumRules, TargetOk, Visits, Wanted, Stored, NoDuplicates, VisitChains, Rest;
    var t := CursorInit(target);
    CursorVisits(cls.mx, cls.tables, t);
    var p := CursorFirst(cls, t);
    ghost var todo := Visits(cls.tables, t);
    out := [];
    while p != End
      invariant Next(cls.tables, t, todo, p)
      invariant out + todo == Visits(cls.tables, t)
      decreases |todo|
    {
      ghost var was, x, rest := out, RuleAt(cls.tables, p), Rest(cls.tables, t, p);
      assert todo == [x] + rest;
      assert (was + [x]) + rest == was + ([x] + rest);
      out := out + [RuleAt(cls.tables, p)];
      todo := rest;
      p := CursorNext(cls, t, p);
    }
    assert out == Visits(cls.tables, t);
  }
}
