/** Where tag revalidation fails: two rules of one priority, one of them a catch-all. */
module TagTie {
  import opened Options
  import opened Bits
  import opened Flow
  import opened Match
  import opened Tables
  import opened TableUpdates
  import opened Classifier
  import opened Queries
  import opened Xlate
  import opened Tags
  import opened Runs
  import opened Revalidation

  /** Within one sub-table, the matching rule of a given priority is unique. */
  lemma TableMatchUnique(mx: Mixer, t: Table, a: Rule, b: Rule, f: FlowWords)
    requires TableOk(mx, t) && InChains(t.chains, a) && InChains(t.chains, b)
    requires Matches(a, f) && Matches(b, f) && a.priority == b.priority
    ensures a == b
  {
    hide TableOk, InChains, ChainOk, Matches, HeadKey, Shape, ChainsOk, Ok;
    TableShape(mx, t);
    var ci := ChainWith(mx, t, a);
    var cj := ChainWith(mx, t, b);
    ChainKey(mx, t.mask, t.chains[ci], a);
    ChainKey(mx, t.mask, t.chains[cj], b);
    KeyIsUnique(a, b, f);
    InsertMembers(mx, t, ci, a, b);
    SamePriority(mx, t.mask, t.chains[ci], a, b);
  }

  lemma TableShape(mx: Mixer, t: Table)
    requires TableOk(mx, t)
    ensures Shape(mx, t)
  {
    hide ChainsOk, HeadsBelow, Size, CountHeads;
  }

  /** The head found in a sub-table is decided by the rules that match. */
  lemma HeadDetermined(mx: Mixer, t: Table, u: Table, f: FlowWords)
    requires TableOk(mx, t) && TableOk(mx, u)
    requires forall r | Matches(r, f) :: InChains(t.chains, r) <==> InChains(u.chains, r)
    ensures HeadFor(t.chains, f) == HeadFor(u.chains, f)
  {
    hide TableOk, InChains, Matches, HeadFor;
    HeadIsBest(mx, t, f);
    HeadIsBest(mx, u, f);
    var a, b := HeadFor(t.chains, f), HeadFor(u.chains, f);
    if a.Some? && b.Some? { TableMatchUnique(mx, t, a.value, b.value, f); }
  }

  /** With the catch-all first, it wins. */
  lemma CatchallFirst(mx: Mixer, s: seq<Table>, f: FlowWords)
    requires StateOk(mx, s) && |s| == 2 && Wild(s[0].mask)
    ensures LookupFrom(s, f, None) == HeadFor(s[0].chains, f)
  {
    hide TableOk, HeadFor, Wild;
    assert s[0] in s;
    CatchallHead(mx, s[0], f);
    assert s[1..][0] == s[1];
  }

  /** With the catch-all second, it wins unless the first sub-table has an equal match. */
  lemma CatchallSecond(mx: Mixer, s: seq<Table>, f: FlowWords)
    requires StateOk(mx, s) && |s| == 2 && Wild(s[1].mask)
    ensures var a, c := HeadFor(s[0].chains, f), HeadFor(s[1].chains, f);
            && c.Some? && c.value.priority == s[1].maxPriority
            && LookupFrom(s, f, None) == if a.Some? && a.value.priority >= s[1].maxPriority then a else c
  {
    hide TableOk, HeadFor, Wild, LookupFrom, LookupBits;
    assert s[0..] == s && s[1] in s;
    CatchallHead(mx, s[1], f);
    var a := HeadFor(s[0].chains, f);
    LookupStep(s, 0, f, None, f);
    if Settled(s[1], a) {
      LookupStop(s, 1, f, a);
    } else {
      LookupStep(s, 1, f, a, f);
      LookupStop(s, 2, f, Better(a, HeadFor(s[1].chains, f)));
    }
  }

  /** When inserting the rule changes the lookup of a flow that it does not match: the catch-all is in
      front, the rule lifts its sub-table over it, and that sub-table holds a match as high as the
      catch-all. */
  ghost predicate Tied(s: seq<Table>, oi: nat, rule: Rule, f: FlowWords)
    requires |s| == 2
  {
    && oi == 1 && rule.priority > s[0].maxPriority
    && exists a :: InChains(s[1].chains, a) && Matches(a, f) && a.priority == s[0].maxPriority
  }

  /** Exactly which lookups an insertion beside a catch-all changes, of flows that the rule does not
      match. There are any if and only if the insertion `Flips` the sub-tables. The pointers of the
      table stay as they were. */
  method InsertBesideCatchall(cls: Classifier, oi: nat, rule: Rule) returns (at: nat)
    requires cls.Valid() && |cls.tables| == 2 && oi < 2
    requires Wild(cls.tables[1 - oi].mask) && !Wild(cls.tables[oi].mask)
    requires Ok(rule) && rule.mask == cls.tables[oi].mask
    requires forall r | InChains(cls.tables[oi].chains, r) :: !Identical(r, rule)
    modifies cls
    ensures cls.Valid() && |cls.tables| == 2 && at < 2 && cls.tables[1 - at] == old(cls.tables)[1 - oi]
    ensures cls.tables[at].mask == rule.mask && Taggable(cls.tables) == old(Taggable(cls.tables))
    ensures forall r :: InChains(cls.tables[at].chains, r) <==> r == rule || InChains(old(cls.tables)[oi].chains, r)
    ensures forall f | !Matches(rule, f) ::
              LookupFrom(cls.tables, f, None) != old(LookupFrom(cls.tables, f, None))
              <==> Tied(old(cls.tables), oi, rule, f)
    ensures Flips(old(cls.tables), rule)
            <==> exists f :: !Matches(rule, f)
                             && LookupFrom(cls.tables, f, None) != old(LookupFrom(cls.tables, f, None))
  {
    hide StateOk, LookupFrom, HeadFor, TableOk, Shape, InChains, Matches, Ok, SumRules, RemoveAt, Wild, Sorted,
      Distinct, ChainsOk, Tied, Flips, RuleInserted, Taggable;
    ghost var s := cls.tables;
    ghost var mx := cls.mx;
    TableParts(mx, s, 0);
    TableParts(mx, s, 1);
    StateSorted(mx, s);
    var displaced;
    displaced, at := cls.InsertRule(oi, rule);
    ghost var q := cls.tables;
    cls.tables := cls.tables[at := cls.tables[at].(nRules := cls.tables[at].nRules + 1)];
    cls.nRules := cls.nRules + 1;
    TwoInserted(mx, s, cls.tables, oi, at, q, rule, displaced);
    TwoSums(s, oi, cls.tables, at);
    SamePointers(s, oi, cls.tables, at);
    forall r ensures InChains(cls.tables[at].chains, r) <==> r == rule || InChains(s[oi].chains, r) {
      InsertedMember(mx, s[oi], q[at], rule, displaced, r);
    }
    ghost var w := cls.tables;
    forall f | !Matches(rule, f) ensures LookupFrom(w, f, None) != LookupFrom(s, f, None) <==> Tied(s, oi, rule, f) {
      InsertedLookup(mx, s, q, w, oi, at, rule, displaced, f);
    }
    FlipsIff(mx, s, oi, rule);
  }

  lemma InsertedLookup(
    mx: Mixer, s: seq<Table>, q: seq<Table>, w: seq<Table>, oi: nat, at: nat, rule: Rule, displaced: Option<Rule>,
    f: FlowWords)
    requires StateOk(mx, s) && |s| == 2 && oi < 2 && Wild(s[1 - oi].mask) && !Wild(s[oi].mask)
    requires rule.mask == s[oi].mask
    requires !Matches(rule, f) && forall r | InChains(s[oi].chains, r) :: !Identical(r, rule)
    requires at < |q| && RemoveAt(q, at) == RemoveAt(s, oi) && Sorted(q)
    requires RuleInserted(mx, s[oi], q[at], rule, displaced)
    requires at <= oi && forall j | at < j <= oi && j < |q| :: q[j].maxPriority < q[at].maxPriority
    requires w == q[at := q[at].(nRules := q[at].nRules + 1)]
    ensures LookupFrom(w, f, None) != LookupFrom(s, f, None) <==> Tied(s, oi, rule, f)
  {
    hide StateOk, LookupFrom, RuleInserted, RemoveAt, InChains, Matches, Wild, Sorted;
    if oi == 1 {
      TwoTables(mx, s, q, w, at, rule, displaced, f);
    } else {
      FrontTable(mx, s, q, w, rule, displaced, f);
    }
  }

  /** Some lookup is tied if and only if the insertion `Flips` the sub-tables. */
  lemma FlipsIff(mx: Mixer, s: seq<Table>, oi: nat, rule: Rule)
    requires StateOk(mx, s) && |s| == 2 && oi < 2 && Wild(s[1 - oi].mask) && !Wild(s[oi].mask)
    requires rule.mask == s[oi].mask && Ok(rule)
    ensures Flips(s, rule) <==> exists f :: !Matches(rule, f) && Tied(s, oi, rule, f)
  {
    hide StateOk, InChains, Matches, Wild, TableOk, Ok;
    if Flips(s, rule) {
      var a :| InChains(s[1].chains, a) && a.priority == s[0].maxPriority && a.key != rule.key;
      TableParts(mx, s, 1);
      MaskOf(mx, s[1], a);
      StateSorted(mx, s);
      assert s[1] in s && Stored(s, a);
      StoredOk(mx, s, a);
      var f := a.key.Expand();
      MatchesItself(a);
      if Matches(rule, f) { KeyIsUnique(a, rule, f); }
      assert Tied(s, oi, rule, f);
    }
    if f :| !Matches(rule, f) && Tied(s, oi, rule, f) {
      var a :| InChains(s[1].chains, a) && Matches(a, f) && a.priority == s[0].maxPriority;
      TableParts(mx, s, 1);
      MaskOf(mx, s[1], a);
      if a.key == rule.key { SameKeyMatches(a, rule, f); }
    }
  }

  lemma MatchesItself(a: Rule)
    requires Ok(a)
    ensures Matches(a, a.key.Expand())
  {
    hide Miniflow.Valid, Miniflow.Expand, SameIn, Covers;
    forall o | 0 <= o < 46 ensures SameIn(a.key.Expand()[o], a.key.Expand()[o], a.mask.Expand()[o]) {
      WordsSelf(a.key.Expand()[o], a.mask.Expand()[o]);
    }
  }

  lemma TwoSums(s: seq<Table>, oi: nat, w: seq<Table>, at: nat)
    requires |s| == 2 && |w| == 2 && oi < 2 && at < 2 && w[1 - at] == s[1 - oi] && w[at].nRules == s[oi].nRules + 1
    ensures SumRules(w) == SumRules(s) + 1
  {
    assert s[1..] == [s[1]] && w[1..] == [w[1]];
    assert SumRules([s[1]]) == s[1].nRules && SumRules([w[1]]) == w[1].nRules;
  }

  lemma SamePointers(s: seq<Table>, oi: nat, w: seq<Table>, at: nat)
    requires |s| == 2 && |w| == 2 && oi < 2 && at < 2 && w[1 - at] == s[1 - oi]
    requires w[at].addr == s[oi].addr && w[at].mask == s[oi].mask && Wild(s[1 - oi].mask) && !Wild(s[oi].mask)
    ensures Taggable(w) == Taggable(s)
  {
    hide Wild;
  }

  /** Why the guard on insertions is needed: if an insertion leaves the pointers alone and changes the
      lookup of a cached facet, then after the rule has been invalidated no facet is marked but those
      that hold the rule's tag. */
  lemma FlipEscapes(tg: Tagger, to: State, k: Key, rule: Rule, f: Facet, l: Look)
    requires to.pending == [Change(k, rule)] && !to.need && to.tagSet == {} && to.InSync(k)
    requires to.Dp(k).other.Some? && RuleTag(tg, k, rule) != 0
    requires l in f.trace && !to.Current(l)
    ensures var d := Invalidated(tg, to);
            && d.pending == [] && !d.Current(l)
            && (d.Flagged(f) <==> Covers(f.tags, RuleTag(tg, k, rule)))
  {
    hide RuleTag, Taggable, Covers, LookupFrom, State.Current;
    CurrentSame(to, Invalidated(tg, to), l);
    assert Invalidated(tg, to).tagSet == {RuleTag(tg, k, rule)};
  }

  /** A rule that is inserted and taken out again without an invalidation, as when `add_flow` backs out:
      the sub-table it lifted stays in front, so the same lookups as for the insertion have changed. */
  method BackOutBesideCatchall(cls: Classifier, oi: nat, rule: Rule, f: FlowWords)
    requires cls.Valid() && |cls.tables| == 2 && oi < 2
    requires Wild(cls.tables[1 - oi].mask) && !Wild(cls.tables[oi].mask)
    requires Ok(rule) && rule.mask == cls.tables[oi].mask && !Matches(rule, f)
    requires forall r | InChains(cls.tables[oi].chains, r) :: !Identical(r, rule)
    modifies cls
    ensures cls.Valid() && (forall r :: Stored(cls.tables, r) <==> old(Stored(cls.tables, r)))
    ensures LookupFrom(cls.tables, f, None) != old(LookupFrom(cls.tables, f, None))
            <==> Tied(old(cls.tables), oi, rule, f)
  {
    hide StateOk, LookupFrom, TableOk, InChains, Matches, Ok, SumRules, Wild, Tied, Flips, Taggable, Stored, Identical;
    ghost var s := cls.tables;
    var at := InsertBesideCatchall(cls, oi, rule);
    ghost var w := cls.tables;
    StoredByTwo(s, oi, w, at, rule);
    NotStoredBefore(cls.mx, s, oi, rule);
    RemoveBesideCatchall(cls, at, rule, f);
    BothRemain(cls.mx, s, oi, cls.tables);
  }

  /** Removing a rule from the sub-table beside a catch-all never changes the lookup of a flow
      that the rule does not match, as long as the sub-table survives. */
  method RemoveBesideCatchall(cls: Classifier, oi: nat, rule: Rule, f: FlowWords)
    requires cls.Valid() && |cls.tables| == 2 && oi < 2
    requires Wild(cls.tables[1 - oi].mask) && !Wild(cls.tables[oi].mask)
    requires Stored(cls.tables, rule) && rule.mask == cls.tables[oi].mask && !Matches(rule, f)
    modifies cls
    ensures cls.Valid() && |cls.tables| <= 2
    ensures forall r :: Stored(cls.tables, r) <==> old(Stored(cls.tables, r)) && r != rule
    ensures |cls.tables| == 2 ==> LookupFrom(cls.tables, f, None) == old(LookupFrom(cls.tables, f, None))
  {
    hide StateOk, LookupFrom, HeadFor, TableOk, Shape, InChains, Matches, Ok, SumRules, Wild, Stored, Demoted;
    ghost var s := cls.tables;
    cls.Remove(rule);
    if |cls.tables| >= 2 { DemotedSize(s, cls.tables, rule.mask); }
    if |cls.tables| == 2 { RemoveTied(cls.mx, s, cls.tables, oi, rule, f); }
  }

  lemma DemotedSize(s: seq<Table>, q: seq<Table>, mask: Miniflow)
    requires Demoted(s, q, mask)
    ensures |q| == |s|
  {
    var ti: nat, at: nat :|
      && ti <= at < |q| && ti < |s| && s[ti].mask == mask && q[at].mask == mask
      && RemoveAt(q, at) == RemoveAt(s, ti) && forall j | ti <= j < at :: q[j].maxPriority > q[at].maxPriority;
    assert |RemoveAt(q, at)| == |q| - 1 && |RemoveAt(s, ti)| == |s| - 1;
  }

  lemma StoredByTwo(s: seq<Table>, oi: nat, w: seq<Table>, at: nat, rule: Rule)
    requires |s| == 2 && |w| == 2 && oi < 2 && at < 2 && w[1 - at] == s[1 - oi]
    requires forall r :: InChains(w[at].chains, r) <==> r == rule || InChains(s[oi].chains, r)
    ensures forall r :: Stored(w, r) <==> r == rule || Stored(s, r)
  {
    hide InChains;
    forall r ensures Stored(w, r) <==> r == rule || Stored(s, r) {
      assert Stored(w, r) <==> InChains(w[at].chains, r) || InChains(w[1 - at].chains, r) by { StoredInTwo(w, at, r); }
      assert Stored(s, r) <==> InChains(s[oi].chains, r) || InChains(s[1 - oi].chains, r) by { StoredInTwo(s, oi, r); }
    }
  }

  lemma StoredInTwo(s: seq<Table>, i: nat, r: Rule)
    requires |s| == 2 && i < 2
    ensures Stored(s, r) <==> InChains(s[i].chains, r) || InChains(s[1 - i].chains, r)
  {
    hide InChains;
    assert s[i] in s && s[1 - i] in s;
  }

  lemma NotStoredBefore(mx: Mixer, s: seq<Table>, oi: nat, rule: Rule)
    requires StateOk(mx, s) && |s| == 2 && oi < 2 && rule.mask == s[oi].mask
    requires forall r | InChains(s[oi].chains, r) :: !Identical(r, rule)
    ensures !Stored(s, rule)
  {
    hide StateOk, InChains, TableOk;
    if Stored(s, rule) { TableOfRule(mx, s, oi, rule); }
  }

  /** A classifier with the rules of two sub-tables has two. */
  lemma BothRemain(mx: Mixer, s: seq<Table>, oi: nat, q: seq<Table>)
    requires StateOk(mx, s) && |s| == 2 && oi < 2 && StateOk(mx, q) && |q| <= 2
    requires forall r :: Stored(q, r) <==> Stored(s, r)
    ensures |q| == 2
  {
    hide StateOk, InChains, TableOk, HeadFor;
    TableParts(mx, s, 0);
    TableParts(mx, s, 1);
    StateSorted(mx, s);
    var a := SomeRule(mx, s[0]);
    var b := SomeRule(mx, s[1]);
    assert s[0] in s && s[1] in s && Stored(s, a) && Stored(s, b);
    var i := HomeTable(mx, q, a);
    var j := HomeTable(mx, q, b);
  }

  lemma SomeRule(mx: Mixer, t: Table) returns (r: Rule)
    requires TableOk(mx, t)
    ensures InChains(t.chains, r) && r.mask == t.mask
  {
    hide ChainOk, HeadKey;
    var c := TopChain(mx, t);
    HeadOk(mx, t.mask, c);
    r := c.rules[0];
    assert r in c.rules;
    MaskOf(mx, t, r);
  }

  lemma RemoveTied(mx: Mixer, s: seq<Table>, w: seq<Table>, oi: nat, rule: Rule, f: FlowWords)
    requires StateOk(mx, s) && StateOk(mx, w) && |s| == 2 && |w| == 2 && oi < 2
    requires Wild(s[1 - oi].mask) && !Wild(s[oi].mask) && rule.mask == s[oi].mask && !Matches(rule, f)
    requires (forall r :: Stored(w, r) <==> Stored(s, r) && r != rule) && Demoted(s, w, rule.mask)
    ensures LookupFrom(w, f, None) == LookupFrom(s, f, None)
  {
    hide StateOk, LookupFrom, HeadFor, TableOk, InChains, Matches, Wild, Stored, RemoveAt;
    var ti: nat, at: nat :|
      && ti <= at < |w| && ti < |s| && s[ti].mask == rule.mask && w[at].mask == rule.mask
      && RemoveAt(w, at) == RemoveAt(s, ti)
      && forall j | ti <= j < at :: w[j].maxPriority > w[at].maxPriority;
    SameTable(mx, s, ti, oi);
    RemoveAtIndex(s, oi);
    RemoveAtIndex(w, at);
    assert RemoveAt(s, oi)[0] == s[1 - oi] && RemoveAt(w, at)[0] == w[1 - at];
    TableParts(mx, s, oi);
    TableParts(mx, w, at);
    forall r | Matches(r, f) ensures InChains(s[oi].chains, r) <==> InChains(w[at].chains, r) {
      StoredInTable(mx, s, oi, r);
      StoredInTable(mx, w, at, r);
    }
    HeadDetermined(mx, s[oi], w[at], f);
    HeadIsBest(mx, w[at], f);
    if oi == 1 { CatchallFirst(mx, s, f); } else { CatchallSecond(mx, s, f); }
    if at == 1 { CatchallFirst(mx, w, f); } else { CatchallSecond(mx, w, f); }
  }

  lemma StoredInTable(mx: Mixer, s: seq<Table>, i: nat, r: Rule)
    requires StateOk(mx, s) && i < |s|
    ensures InChains(s[i].chains, r) <==> Stored(s, r) && r.mask == s[i].mask
  {
    hide StateOk, InChains, TableOk;
    TableParts(mx, s, i);
    if InChains(s[i].chains, r) { MaskOf(mx, s[i], r); assert s[i] in s; }
    if Stored(s, r) && r.mask == s[i].mask {
      var j := HomeTable(mx, s, r);
      SameTable(mx, s, i, j);
    }
  }

  /** A sub-table already in front of the catch-all stays there. */
  lemma FrontTable(
    mx: Mixer, s: seq<Table>, q: seq<Table>, w: seq<Table>, rule: Rule, displaced: Option<Rule>, f: FlowWords)
    requires StateOk(mx, s) && |s| == 2 && Wild(s[1].mask) && rule.mask == s[0].mask
    requires !Matches(rule, f) && forall r | InChains(s[0].chains, r) :: !Identical(r, rule)
    requires |q| > 0 && RemoveAt(q, 0) == RemoveAt(s, 0) && Sorted(q) && RuleInserted(mx, s[0], q[0], rule, displaced)
    requires w == q[0 := q[0].(nRules := q[0].nRules + 1)]
    ensures LookupFrom(w, f, None) == LookupFrom(s, f, None)
  {
    hide LookupFrom, HeadFor, InChains, Matches, Wild, StateOk, TableOk, RemoveAt, RuleInserted, Sorted;
    TwoInserted(mx, s, w, 0, 0, q, rule, displaced);
    TableParts(mx, s, 0);
    TableParts(mx, w, 0);
    forall r | Matches(r, f) ensures InChains(s[0].chains, r) <==> InChains(w[0].chains, r) {
      InsertedMember(mx, s[0], q[0], rule, displaced, r);
    }
    HeadDetermined(mx, s[0], w[0], f);
    CatchallSecond(mx, s, f);
    CatchallSecond(mx, w, f);
  }

  lemma TwoTables(
    mx: Mixer, s: seq<Table>, q: seq<Table>, w: seq<Table>, at: nat, rule: Rule, displaced: Option<Rule>, f: FlowWords)
    requires StateOk(mx, s) && |s| == 2 && Wild(s[0].mask) && !Wild(s[1].mask) && rule.mask == s[1].mask
    requires !Matches(rule, f) && forall r | InChains(s[1].chains, r) :: !Identical(r, rule)
    requires at < |q| && RemoveAt(q, at) == RemoveAt(s, 1) && Sorted(q)
    requires RuleInserted(mx, s[1], q[at], rule, displaced)
    requires at <= 1 && forall j | at < j <= 1 && j < |q| :: q[j].maxPriority < q[at].maxPriority
    requires w == q[at := q[at].(nRules := q[at].nRules + 1)]
    ensures LookupFrom(w, f, None) != LookupFrom(s, f, None)
            <==> && rule.priority > s[0].maxPriority
                 && exists a :: InChains(s[1].chains, a) && Matches(a, f) && a.priority == s[0].maxPriority
  {
    hide LookupFrom, HeadFor, InChains, Matches, Wild, ChainsOk, Size, CountHeads, HeadsBelow, Distinct, StateOk,
      TableOk, RemoveAt, RuleInserted, Sorted, Shape;
    assert s[0] == RemoveAt(s, 1)[0] && |RemoveAt(s, 1)| == 1 by { RemoveAtIndex(s, 1); }
    RemoveAtIndex(q, at);
    TwoInserted(mx, s, w, 1, at, q, rule, displaced);
    CatchallFirst(mx, s, f);
    TableParts(mx, s, 1);
    TableParts(mx, w, at);
    TopOf(mx, s, rule, q[at], displaced);
    forall r | Matches(r, f) ensures InChains(s[1].chains, r) <==> InChains(w[at].chains, r) {
      InsertedMember(mx, s[1], q[at], rule, displaced, r);
    }
    HeadDetermined(mx, s[1], w[at], f);
    HeadIsBest(mx, s[1], f);
    SortedPair(mx, s);
    SortedPair(mx, w);
    if at == 1 {
      CatchallFirst(mx, w, f);
    } else {
      CatchallSecond(mx, w, f);
      OtherHead(mx, s, f);
    }
  }

  lemma SortedPair(mx: Mixer, s: seq<Table>)
    requires StateOk(mx, s) && |s| == 2
    ensures s[0].maxPriority >= s[1].maxPriority
  {
    hide TableOk;
  }

  /** The heads found in different sub-tables are different rules. */
  lemma OtherHead(mx: Mixer, s: seq<Table>, f: FlowWords)
    requires StateOk(mx, s) && |s| == 2
    ensures HeadFor(s[0].chains, f).Some? && HeadFor(s[1].chains, f).Some? ==>
              HeadFor(s[0].chains, f) != HeadFor(s[1].chains, f)
  {
    hide InChains, HeadFor, Matches, TableOk;
    StateSorted(mx, s);
    assert s[0] in s && s[1] in s && s[0].mask != s[1].mask;
    HeadIsBest(mx, s[0], f);
    HeadIsBest(mx, s[1], f);
    if HeadFor(s[1].chains, f).Some? { MaskOf(mx, s[1], HeadFor(s[1].chains, f).value); }
    if HeadFor(s[0].chains, f).Some? { MaskOf(mx, s[0], HeadFor(s[0].chains, f).value); }
  }

  lemma InsertedMember(mx: Mixer, t: Table, u: Table, rule: Rule, displaced: Option<Rule>, r: Rule)
    requires RuleInserted(mx, t, u, rule, displaced) && (forall x | InChains(t.chains, x) :: !Identical(x, rule))
    ensures InChains(u.chains, r) <==> r == rule || InChains(t.chains, r)
  {
    hide Shape, InChains;
  }

  /** The highest priority after the insertion. */
  lemma TopOf(mx: Mixer, s: seq<Table>, rule: Rule, u: Table, displaced: Option<Rule>)
    requires StateOk(mx, s) && |s| == 2 && TableOk(mx, s[1])
    requires RuleInserted(mx, s[1], u, rule, displaced) && (forall x | InChains(s[1].chains, x) :: !Identical(x, rule))
    ensures u.maxPriority >= rule.priority && (u.maxPriority > s[0].maxPriority <==> rule.priority > s[0].maxPriority)
  {
    hide InChains, ChainOk, HeadKey, TableOk, Size;
    InsertedMember(mx, s[1], u, rule, displaced, rule);
    ShapeBound(mx, u, rule);
    var c := SomeHead(u.chains, u.maxPriority);
    HeadOk(mx, u.mask, c);
    InsertedMember(mx, s[1], u, rule, displaced, c.rules[0]);
    assert InChains(u.chains, c.rules[0]) by { HeadStored(u.chains, c); }
    if InChains(s[1].chains, c.rules[0]) { TableBound(mx, s[1], c.rules[0]); }
    SortedPair(mx, s);
  }

  lemma HeadStored(chains: seq<Chain>, c: Chain)
    requires c in chains && |c.rules| > 0
    ensures InChains(chains, c.rules[0])
  {
    assert c.rules[0] in c.rules;
  }

  lemma ShapeBound(mx: Mixer, u: Table, r: Rule)
    requires Shape(mx, u) && InChains(u.chains, r)
    ensures r.priority <= u.maxPriority
  {
    hide ChainOk, HeadKey, CountHeads;
    var c :| c in u.chains && r in c.rules;
    ChainBound(mx, u.mask, c, r);
  }

  lemma TwoInserted(
    mx: Mixer, s: seq<Table>, w: seq<Table>, oi: nat, at: nat, q: seq<Table>, rule: Rule, displaced: Option<Rule>)
    requires StateOk(mx, s) && |s| == 2 && oi < 2
    requires at < |q| && RemoveAt(q, at) == RemoveAt(s, oi) && Sorted(q)
    requires RuleInserted(mx, s[oi], q[at], rule, displaced)
    requires (forall x | InChains(s[oi].chains, x) :: !Identical(x, rule))
    requires w == q[at := q[at].(nRules := q[at].nRules + 1)]
    ensures StateOk(mx, w) && |w| == 2 && w[1 - at] == s[1 - oi] && displaced.None?
    ensures w[at].addr == s[oi].addr && w[at].mask == s[oi].mask && w[at].nRules == s[oi].nRules + 1
  {
    hide InChains, RemoveAt, ChainsOk, Size, CountHeads, HeadsBelow;
    StateSorted(mx, s);
    RemoveAtIndex(s, oi);
    RemoveAtIndex(q, at);
    assert RemoveAt(q, at)[0] == s[1 - oi];
    MovedMembers(s, oi, q, at);
    assert s[1] in s && s[0] in s;
    assert TableOk(mx, w[at]);
  }

  // ---- a concrete case ----

  const ZEROS: FlowWords := seq(46, _ => 0)
  const NO_BITS: Miniflow := Miniflow(0, 0, [])
  const ONE_WORD: Miniflow := Miniflow(1, 0, [1])

  lemma NoBitsExpands()
    ensures NO_BITS.Valid() && NO_BITS.Expand() == ZEROS
  {
    MarkStart(ZEROS);
    assert NO_BITS.Expand() == ZEROS;
  }

  lemma OneWordExpands()
    ensures ONE_WORD.Valid() && ONE_WORD.Expand() == ZEROS[0 := 1]
  {
    hide Miniflow.Valid, Miniflow.Expand;
    NoBitsExpands();
    AppendWord(NO_BITS, ZEROS, 0, 1, ONE_WORD);
  }

  /** A hash that tells the two keys apart. */
  const PLAIN_MIXER: Mixer := Mixer((h: Word, d: Word) => d + 1, (h: Word, n: nat) => h)

  lemma PlainHash(f: FlowWords, basis: Word)
    ensures HashIn(PLAIN_MIXER, f, ZEROS[0 := 1], basis) == (f[0] & 1) + 1
  {
    hide HashFrom, NonzeroFrom;
    var m: FlowWords := ZEROS[0 := 1];
    HashGap(PLAIN_MIXER, f, m, 1, 46, (f[0] & 1) + 1);
    PlainStep(f, m, basis);
  }

  lemma PlainStep(f: FlowWords, m: FlowWords, basis: Word)
    requires m[0] == 1
    ensures HashFrom(PLAIN_MIXER, f, m, 0, basis) == HashFrom(PLAIN_MIXER, f, m, 1, (f[0] & 1) + 1)
    ensures HashFrom(PLAIN_MIXER, f, m, 46, basis) == basis
    ensures forall h: Word :: HashFrom(PLAIN_MIXER, f, m, 46, h) == h
  {
  }

  const CATCHALL_RULE: Rule := Rule(1, NO_BITS, NO_BITS, 5)
  const TIED_RULE: Rule := Rule(2, NO_BITS, ONE_WORD, 5)
  const NEW_RULE: Rule := Rule(3, ONE_WORD, ONE_WORD, 6)

  lemma RulesOk()
    ensures Ok(CATCHALL_RULE) && Ok(TIED_RULE) && Ok(NEW_RULE)
    ensures Matches(TIED_RULE, ZEROS) && !Matches(NEW_RULE, ZEROS)
  {
    hide Miniflow.Valid, Miniflow.Expand;
    NoBitsExpands();
    OneWordExpands();
    assert !SameIn(NEW_RULE.key.Expand()[0], ZEROS[0], NEW_RULE.mask.Expand()[0]);
  }

  ghost function OneChain(r: Rule): Chain {
    Chain(HashIn(PLAIN_MIXER, r.key.Expand(), r.mask.Expand(), 0), [r])
  }

  ghost const CATCHALL_TABLE: Table := Table(10, NO_BITS, [OneChain(CATCHALL_RULE)], 1, 5, 1)
  ghost const TIED_TABLE: Table := Table(20, ONE_WORD, [OneChain(TIED_RULE)], 1, 5, 1)
  ghost const TIED_TABLE_AFTER: Table := Table(20, ONE_WORD, [OneChain(NEW_RULE), OneChain(TIED_RULE)], 2, 6, 1)

  lemma OneChainOk(r: Rule)
    requires Ok(r)
    ensures ChainOk(PLAIN_MIXER, r.mask, OneChain(r)) && OneChain(r).rules == [r] && HeadKey(OneChain(r)) == r.key
  {
    hide Ok, HashIn;
  }

  lemma TablesOkConcrete()
    ensures TableOk(PLAIN_MIXER, CATCHALL_TABLE) && TableOk(PLAIN_MIXER, TIED_TABLE)
    ensures TableOk(PLAIN_MIXER, TIED_TABLE_AFTER)
  {
    hide ChainOk, OneChain, HeadKey, Miniflow.Valid;
    RulesOk();
    NoBitsExpands();
    OneWordExpands();
    OneChainOk(CATCHALL_RULE);
    OneChainOk(TIED_RULE);
    OneChainOk(NEW_RULE);
    var a, b, c := OneChain(NEW_RULE), OneChain(TIED_RULE), OneChain(CATCHALL_RULE);
    assert [a, b][1..] == [b] && [b][1..] == [] && [c][1..] == [];
    CountOne(b, 5);
    CountOne(c, 5);
    CountOne(b, 6);
    CountGrown([b], a, 6);
    assert [a] + [b] == [a, b];
    assert Size([b]) == 1 && Size([c]) == 1 && Size([a, b]) == 2;
  }

  lemma StatesOk()
    ensures StateOk(PLAIN_MIXER, [CATCHALL_TABLE, TIED_TABLE])
    ensures StateOk(PLAIN_MIXER, [TIED_TABLE_AFTER, CATCHALL_TABLE])
  {
    hide TableOk, OneChain;
    TablesOkConcrete();
  }

  lemma ConcreteMembers(r: Rule)
    ensures InChains(CATCHALL_TABLE.chains, r) <==> r == CATCHALL_RULE
    ensures InChains(TIED_TABLE.chains, r) <==> r == TIED_RULE
    ensures InChains(TIED_TABLE_AFTER.chains, r) <==> r == NEW_RULE || r == TIED_RULE
  {
    hide HashIn;
    var a, b, c := OneChain(NEW_RULE), OneChain(TIED_RULE), OneChain(CATCHALL_RULE);
    assert c in CATCHALL_TABLE.chains && CATCHALL_RULE in c.rules;
    assert b in TIED_TABLE.chains && TIED_RULE in b.rules;
    assert a in TIED_TABLE_AFTER.chains && NEW_RULE in a.rules && b in TIED_TABLE_AFTER.chains;
  }

  lemma ConcreteInserted()
    ensures Inserted(PLAIN_MIXER, [CATCHALL_TABLE, TIED_TABLE], [TIED_TABLE_AFTER, CATCHALL_TABLE], NEW_RULE, 30)
  {
    hide StateOk, InChains, OneChain;
    StatesOk();
    var s, q := [CATCHALL_TABLE, TIED_TABLE], [TIED_TABLE_AFTER, CATCHALL_TABLE];
    forall r ensures Stored(q, r) <==> r == NEW_RULE || (Stored(s, r) && !Identical(r, NEW_RULE)) {
      ConcreteMembers(r);
      assert s[0] in s && s[1] in s && q[0] in q && q[1] in q;
    }
    assert s[0] in s && s[1] in s;
    assert HasTable(s, 20, ONE_WORD) && HasTable(s, 10, NO_BITS);
  }

  ghost const PLAIN_TAGGER: Tagger := Tagger(PLAIN_MIXER, (k: Key) => 0, (h: Word) => h)

  /** With a tie at the priority of a catch-all, revalidation by tag is not sound: `NEW_RULE` does not match the
      flow of zeros, its tag is nonzero and the pointers do not change, so only its tag is
      invalidated; the facet does not hold that tag; and yet its lookup has changed from
      the catch-all to the rule of equal priority. */
  lemma TieEscapesTags()
    ensures var s, q, k := [CATCHALL_TABLE, TIED_TABLE], [TIED_TABLE_AFTER, CATCHALL_TABLE], Key(0, 1);
            var l := Look(k, ZEROS, Some(CATCHALL_RULE), []);
            var tags: Word := 1;
            && StateOk(PLAIN_MIXER, s) && Inserted(PLAIN_MIXER, s, q, NEW_RULE, 30)
            && Taggable(q) == Taggable(s) && Taggable(s).other.Some? && RuleTag(PLAIN_TAGGER, k, NEW_RULE) != 0
            && LookupFrom(s, ZEROS, None) == l.found && Tagged(PLAIN_TAGGER, Taggable(s), s, l, tags)
            && LookupFrom(q, ZEROS, None) == Some(TIED_RULE)
            && !Covers(tags, RuleTag(PLAIN_TAGGER, k, NEW_RULE))
  {
    hide StateOk, Inserted, InChains, OneChain, LookupFrom, HeadFor, HashIn, TableOk, Matches, Miniflow.Valid,
      Miniflow.Expand;
    var s, q, k := [CATCHALL_TABLE, TIED_TABLE], [TIED_TABLE_AFTER, CATCHALL_TABLE], Key(0, 1);
    StatesOk();
    ConcreteInserted();
    TablesOkConcrete();
    RulesOk();
    CatchallFirst(PLAIN_MIXER, s, ZEROS);
    CatchallSecond(PLAIN_MIXER, q, ZEROS);
    HeadIsBest(PLAIN_MIXER, CATCHALL_TABLE, ZEROS);
    HeadIsBest(PLAIN_MIXER, TIED_TABLE_AFTER, ZEROS);
    CatchallHead(PLAIN_MIXER, CATCHALL_TABLE, ZEROS);
    ConcreteMembers(CATCHALL_RULE);
    ConcreteMembers(TIED_RULE);
    ConcreteMembers(HeadFor(CATCHALL_TABLE.chains, ZEROS).value);
    if HeadFor(TIED_TABLE_AFTER.chains, ZEROS).Some? { ConcreteMembers(HeadFor(TIED_TABLE_AFTER.chains, ZEROS).value); }
    OneWordExpands();
    PlainHash(ZEROS, 0);
    PlainHash(ZEROS[0 := 1], 0);
  }
}
