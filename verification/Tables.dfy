/** The data behind a tuple-space classifier: one sub-table for each mask, one chain of
    rules for each key, and what lookup must find there. */
module Tables {
  import opened Options
  import opened Bits
  import opened Flow
  import opened Match

  /** A rule in a sub-table's hash map together with the rules on its list: they differ
      from it in priority only. `hash` is the hash stored in the map node. */
  datatype Chain = Chain(hash: Word, rules: seq<Rule>)

  /** A `struct cls_table`. `addr` is its address; `chains` is its hash map in the order
      in which the map iterates. */
  datatype Table = Table(
    addr: nat, mask: Miniflow, chains: seq<Chain>, nRules: nat, maxPriority: nat, maxCount: nat)

  ghost predicate ChainOk(mx: Mixer, mask: Miniflow, c: Chain) {
    && |c.rules| > 0
    && (forall r | r in c.rules :: Ok(r) && r.mask == mask && r.key == c.rules[0].key)
    && (forall i, j | 0 <= i < j < |c.rules| :: c.rules[i].priority > c.rules[j].priority)
    && c.hash == HashIn(mx, c.rules[0].key.Expand(), mask.Expand(), 0)
  }

  ghost function HeadKey(c: Chain): Miniflow {
    if |c.rules| > 0 then c.rules[0].key else Miniflow(0, 0, [])
  }

  ghost predicate ChainsOk(mx: Mixer, mask: Miniflow, chains: seq<Chain>) {
    && mask.Valid()
    && (forall c | c in chains :: ChainOk(mx, mask, c))
    && (forall i, j | 0 <= i < j < |chains| :: HeadKey(chains[i]) != HeadKey(chains[j]))
  }

  /** The number of rules in `chains`. */
  ghost function Size(chains: seq<Chain>): nat {
    if chains == [] then 0 else |chains[0].rules| + Size(chains[1..])
  }

  ghost predicate HeadAt(c: Chain, p: nat) {
    |c.rules| > 0 && c.rules[0].priority == p
  }

  /** The number of chains whose head has priority `p`. */
  ghost function CountHeads(chains: seq<Chain>, p: nat): nat {
    if chains == [] then 0 else (if HeadAt(chains[0], p) then 1 else 0) + CountHeads(chains[1..], p)
  }

  ghost predicate HeadsBelow(chains: seq<Chain>, p: nat) {
    forall c | c in chains && |c.rules| > 0 :: c.rules[0].priority <= p
  }

  ghost predicate TableOk(mx: Mixer, t: Table) {
    && ChainsOk(mx, t.mask, t.chains)
    && t.nRules == Size(t.chains)
    && HeadsBelow(t.chains, t.maxPriority)
    && t.maxCount == CountHeads(t.chains, t.maxPriority)
    && t.maxCount > 0
  }

  /** The sub-tables in list order: sorted by descending `maxPriority`, one for each mask. */
  ghost predicate StateOk(mx: Mixer, s: seq<Table>) {
    && (forall t | t in s :: TableOk(mx, t))
    && (forall i, j | 0 <= i < j < |s| :: s[i].maxPriority >= s[j].maxPriority)
    && (forall i, j | 0 <= i < j < |s| :: s[i].mask != s[j].mask && s[i].addr != s[j].addr)
  }

  ghost predicate InChains(chains: seq<Chain>, r: Rule) {
    exists c :: c in chains && r in c.rules
  }

  /** `r` is in the classifier. */
  ghost predicate Stored(s: seq<Table>, r: Rule) {
    exists t :: t in s && InChains(t.chains, r)
  }

  /** Some sub-table has address `addr` and mask `mask`. */
  ghost predicate HasTable(s: seq<Table>, addr: nat, mask: Miniflow) {
    exists t :: t in s && t.addr == addr && t.mask == mask
  }

  /** What a lookup of `f` must return: nothing exactly when no stored rule matches,
      otherwise a matching rule of highest priority. */
  ghost predicate IsBest(s: seq<Table>, f: FlowWords, r: Option<Rule>) {
    match r
    case None => forall x | Stored(s, x) :: !Matches(x, f)
    case Some(b) => Stored(s, b) && Matches(b, f)
                    && forall x | Stored(s, x) && Matches(x, f) :: x.priority <= b.priority
  }

  // ---- one sub-table ----

  /** The head of the chain that matches `f`, by a scan that ignores hashes. */
  ghost function HeadFor(chains: seq<Chain>, f: FlowWords): Option<Rule> {
    if chains == [] then None
    else if |chains[0].rules| > 0 && Matches(chains[0].rules[0], f) then Some(chains[0].rules[0])
    else HeadFor(chains[1..], f)
  }

  lemma {:induction false} HeadForFinds(chains: seq<Chain>, f: FlowWords)
    ensures HeadFor(chains, f).Some? ==>
              exists c :: c in chains && |c.rules| > 0 && HeadFor(chains, f) == Some(c.rules[0])
                          && Matches(c.rules[0], f)
    ensures HeadFor(chains, f).None? ==> forall c | c in chains && |c.rules| > 0 :: !Matches(c.rules[0], f)
  {
    hide Matches;
    if chains != [] {
      assert chains == [chains[0]] + chains[1..];
      HeadForFinds(chains[1..], f);
    }
  }

  /** All rules of a chain match alike: they share key and mask. */
  lemma ChainMatchesAlike(mx: Mixer, mask: Miniflow, c: Chain, r: Rule, f: FlowWords)
    requires ChainOk(mx, mask, c) && r in c.rules
    ensures Matches(r, f) == Matches(c.rules[0], f)
    ensures r.priority <= c.rules[0].priority
  {
  }

  /** The one head that matches is the best of its sub-table. */
  lemma HeadIsBest(mx: Mixer, t: Table, f: FlowWords)
    requires TableOk(mx, t)
    ensures var h := HeadFor(t.chains, f);
            && (h.None? ==> forall r | InChains(t.chains, r) :: !Matches(r, f))
            && (h.Some? ==> InChains(t.chains, h.value) && Matches(h.value, f) && h.value.priority <= t.maxPriority
                            && forall r | InChains(t.chains, r) && Matches(r, f) :: r.priority <= h.value.priority)
  {
    hide Ok, Matches, ChainOk, HeadFor;
    HeadForFinds(t.chains, f);
    forall r | InChains(t.chains, r) && Matches(r, f)
      ensures HeadFor(t.chains, f).Some? && r.priority <= HeadFor(t.chains, f).value.priority
    {
      var c :| c in t.chains && r in c.rules;
      ChainMatchesAlike(mx, t.mask, c, r, f);
      var d :| d in t.chains && |d.rules| > 0 && HeadFor(t.chains, f) == Some(d.rules[0]) && Matches(d.rules[0], f);
      SameChain(mx, t.mask, t.chains, c, d, f);
    }
  }

  /** Two chains whose heads match one flow are one chain. */
  lemma SameChain(mx: Mixer, mask: Miniflow, chains: seq<Chain>, c: Chain, d: Chain, f: FlowWords)
    requires ChainsOk(mx, mask, chains) && c in chains && d in chains
    requires |c.rules| > 0 && |d.rules| > 0 && Matches(c.rules[0], f) && Matches(d.rules[0], f)
    ensures c == d
  {
    hide Ok, Matches, HashIn;
    assert ChainOk(mx, mask, c) && ChainOk(mx, mask, d);
    assert c.rules[0] in c.rules && d.rules[0] in d.rules;
    KeyIsUnique(c.rules[0], d.rules[0], f);
  }

  // ---- lookup over the whole list ----

  function Better(best: Option<Rule>, h: Option<Rule>): Option<Rule> {
    if h.None? then best
    else if best.None? || h.value.priority > best.value.priority then h
    else best
  }

  /** Nothing in a sub-table, or after it, can improve on `best`. */
  predicate Settled(t: Table, best: Option<Rule>) {
    best.Some? && t.maxPriority <= best.value.priority
  }

  /** The rule that `classifier_lookup` returns from the rest `s` of the list, when the best
      rule so far is `best`. */
  ghost function LookupFrom(s: seq<Table>, f: FlowWords, best: Option<Rule>): Option<Rule> {
    if s == [] || Settled(s[0], best) then best
    else LookupFrom(s[1..], f, Better(best, HeadFor(s[0].chains, f)))
  }

  /** The word-by-word "or" of wildcard masks. */
  ghost function Folded(wc: FlowWords, m: FlowWords): FlowWords {
    seq(46, o requires 0 <= o < 46 => Join(wc[o], m[o]))
  }

  /** The bits that the same lookup marks as significant. */
  ghost function LookupBits(s: seq<Table>, f: FlowWords, best: Option<Rule>, wc: FlowWords): FlowWords {
    if s == [] || Settled(s[0], best) then wc
    else LookupBits(s[1..], f, Better(best, HeadFor(s[0].chains, f)), Folded(wc, s[0].mask.Expand()))
  }

  /** What is left to scan suffices: the result beats `best` and every match in `s`. */
  lemma {:induction false} LookupIsMaximal(mx: Mixer, s: seq<Table>, f: FlowWords, best: Option<Rule>)
    requires StateOk(mx, s)
    ensures var r := LookupFrom(s, f, best);
            && (best.Some? ==> r.Some? && best.value.priority <= r.value.priority)
            && (r.None? ==> forall x | Stored(s, x) :: !Matches(x, f))
            && (r.Some? ==> forall x | Stored(s, x) && Matches(x, f) :: x.priority <= r.value.priority)
            && (r == best || (r.Some? && Stored(s, r.value) && Matches(r.value, f)))
  {
    hide TableOk, Matches, HeadFor, InChains;
    if s == [] {
    } else if Settled(s[0], best) {
      forall x | Stored(s, x) ensures x.priority <= best.value.priority {
        SettledBounds(mx, s, best, x);
      }
    } else {
      HeadIsBest(mx, s[0], f);
      var next := Better(best, HeadFor(s[0].chains, f));
      LookupIsMaximal(mx, s[1..], f, next);
      StoredSplit(s);
    }
  }

  lemma StoredSplit(s: seq<Table>)
    requires s != []
    ensures forall x :: Stored(s, x) <==> InChains(s[0].chains, x) || Stored(s[1..], x)
  {
  }

  /** How many sub-tables the lookup visits. */
  ghost function Visited(s: seq<Table>, f: FlowWords, best: Option<Rule>): (n: nat)
    ensures n <= |s|
  {
    if s == [] || Settled(s[0], best) then 0
    else 1 + Visited(s[1..], f, Better(best, HeadFor(s[0].chains, f)))
  }

  /** The sub-table holds a match of at least the given priority. */
  ghost predicate Reaches(t: Table, f: FlowWords, p: nat) {
    HeadFor(t.chains, f).Some? && HeadFor(t.chains, f).value.priority >= p
  }

  ghost predicate MatchedBefore(s: seq<Table>, f: FlowWords, n: nat, p: nat) {
    exists j: nat :: j < n && j < |s| && Reaches(s[j], f, p)
  }

  lemma MatchedSplit(s: seq<Table>, f: FlowWords, n: nat, p: nat)
    requires s != [] && n > 0
    ensures MatchedBefore(s, f, n, p) <==> Reaches(s[0], f, p) || MatchedBefore(s[1..], f, n - 1, p)
  {
    hide Reaches;
    if j: nat :| j < n && j < |s| && Reaches(s[j], f, p) {
      assert j > 0 ==> Reaches(s[1..][j - 1], f, p);
    }
    if j: nat :| j < n - 1 && j < |s| - 1 && Reaches(s[1..][j], f, p) {
      assert Reaches(s[j + 1], f, p);
    }
  }

  /** The lookup visits sub-tables until a match found is as high as all that follow. */
  lemma {:induction false} VisitsUntilSettled(s: seq<Table>, f: FlowWords, best: Option<Rule>)
    ensures var n := Visited(s, f, best);
            && (forall i: nat | i < n :: !Settled(s[i], best) && !MatchedBefore(s, f, i, s[i].maxPriority))
            && (n < |s| ==> Settled(s[n], best) || MatchedBefore(s, f, n, s[n].maxPriority))
  {
    if s != [] && !Settled(s[0], best) {
      var rest, n := s[1..], Visited(s, f, best);
      VisitsUntilSettled(rest, f, Better(best, HeadFor(s[0].chains, f)));
      hide HeadFor;
      forall i: nat | i < n ensures !Settled(s[i], best) && !MatchedBefore(s, f, i, s[i].maxPriority) {
        if i > 0 {
          assert rest[i - 1] == s[i];
          MatchedSplit(s, f, i, s[i].maxPriority);
        }
      }
      if n < |s| {
        assert rest[n - 1] == s[n];
        MatchedSplit(s, f, n, s[n].maxPriority);
      }
    }
  }

  /** The bits marked significant are just those given and those of the masks of the visited
      sub-tables. */
  lemma {:induction false} LookupBitsAre(s: seq<Table>, f: FlowWords, best: Option<Rule>, wc: FlowWords, o: nat, b: nat)
    requires o < 46
    ensures Bit(LookupBits(s, f, best, wc)[o], b)
            <==> Bit(wc[o], b) || exists i: nat :: i < Visited(s, f, best) && Bit(s[i].mask.Expand()[o], b)
  {
    if s != [] && !Settled(s[0], best) {
      hide HeadFor, Bit, Join, Miniflow.Expand;
      var rest, h := s[1..], HeadFor(s[0].chains, f);
      var wc1 := Folded(wc, s[0].mask.Expand());
      LookupBitsAre(rest, f, Better(best, h), wc1, o, b);
      JoinBit(wc[o], s[0].mask.Expand()[o], b);
      var n := Visited(rest, f, Better(best, h));
      if i: nat :| i < n && Bit(rest[i].mask.Expand()[o], b) { assert Bit(s[i + 1].mask.Expand()[o], b); }
      if i: nat :| i < n + 1 && Bit(s[i].mask.Expand()[o], b) {
        if i > 0 { assert Bit(rest[i - 1].mask.Expand()[o], b); }
      }
    }
  }

  lemma JoinBit(x: Word, y: Word, b: nat)
    ensures Bit(Join(x, y), b) <==> Bit(x, b) || Bit(y, b)
  {
    OrBits(x, y, x | y, b);
  }

  /** The result of the lookup is found in the first sub-table that holds a match of its priority. */
  ghost predicate FoundFirst(s: seq<Table>, f: FlowWords, r: Option<Rule>, i: nat) {
    && i < |s| && r.Some? && HeadFor(s[i].chains, f) == r
    && forall j | 0 <= j < i && HeadFor(s[j].chains, f).Some? ::
         HeadFor(s[j].chains, f).value.priority < r.value.priority
  }

  lemma {:induction false} LookupIsFirst(s: seq<Table>, f: FlowWords, best: Option<Rule>)
    ensures var r := LookupFrom(s, f, best);
            || r == best
            || (&& r.Some? && (best.Some? ==> best.value.priority < r.value.priority)
                && exists i: nat :: FoundFirst(s, f, r, i))
    ensures best.Some? ==> LookupFrom(s, f, best).Some?
  {
    if s != [] && !Settled(s[0], best) {
      hide HeadFor;
      var h, r := HeadFor(s[0].chains, f), LookupFrom(s, f, best);
      var b := Better(best, h);
      LookupIsFirst(s[1..], f, b);
      if r == b {
        if b != best { assert FoundFirst(s, f, r, 0); }
      } else {
        var i: nat :| FoundFirst(s[1..], f, r, i);
        forall j | 0 <= j < i + 1 && HeadFor(s[j].chains, f).Some?
          ensures HeadFor(s[j].chains, f).value.priority < r.value.priority
        {
          if j > 0 { assert s[1..][j - 1] == s[j]; }
        }
        assert FoundFirst(s, f, r, i + 1);
      }
    }
  }

  /** No rule at or after a settled sub-table beats `best`, because the list is sorted. */
  lemma SettledBounds(mx: Mixer, s: seq<Table>, best: Option<Rule>, x: Rule)
    requires StateOk(mx, s) && s != [] && Settled(s[0], best) && Stored(s, x)
    ensures x.priority <= best.value.priority
  {
    hide ChainOk, Size, CountHeads;
    var t :| t in s && InChains(t.chains, x);
    var i :| 0 <= i < |s| && s[i] == t;
    var c :| c in t.chains && x in c.rules;
    assert ChainOk(mx, t.mask, c);
    ChainBound(mx, t.mask, c, x);
  }

  lemma ChainBound(mx: Mixer, mask: Miniflow, c: Chain, x: Rule)
    requires ChainOk(mx, mask, c) && x in c.rules
    ensures x.priority <= c.rules[0].priority && |c.rules| > 0
  {
  }

  /** Lookup agrees with a scan of all rules, whatever the early exit skips. */
  lemma LookupIsBest(mx: Mixer, s: seq<Table>, f: FlowWords)
    requires StateOk(mx, s)
    ensures IsBest(s, f, LookupFrom(s, f, None))
  {
    LookupIsMaximal(mx, s, f, None);
  }

  // ---- the significant bits ----

  lemma EqualInFolded(a: FlowWords, b: FlowWords, m: FlowWords, n: FlowWords)
    requires EqualIn(a, b, Folded(m, n))
    ensures EqualIn(a, b, m) && EqualIn(a, b, n)
  {
  }

  lemma {:induction false} LookupBitsGrow(s: seq<Table>, f: FlowWords, g: FlowWords, best: Option<Rule>, wc: FlowWords)
    requires EqualIn(f, g, LookupBits(s, f, best, wc))
    ensures EqualIn(f, g, wc)
    decreases |s|
  {
    hide EqualIn, HeadFor, Folded;
    if s != [] && !Settled(s[0], best) {
      var m := s[0].mask.Expand();
      LookupBitsGrow(s[1..], f, g, Better(best, HeadFor(s[0].chains, f)), Folded(wc, m));
      EqualInFolded(f, g, wc, m);
    }
  }

  lemma MatchesThrough(r: Rule, f: FlowWords, g: FlowWords)
    requires EqualIn(f, g, r.mask.Expand())
    ensures Matches(r, f) == Matches(r, g)
  {
  }

  lemma {:induction false} HeadForThrough(mx: Mixer, mask: Miniflow, chains: seq<Chain>, f: FlowWords, g: FlowWords)
    requires forall c | c in chains :: ChainOk(mx, mask, c)
    requires EqualIn(f, g, mask.Expand())
    ensures HeadFor(chains, f) == HeadFor(chains, g)
  {
    hide EqualIn, Matches, Ok, HashIn, Miniflow.Expand;
    if chains != [] {
      assert ChainOk(mx, mask, chains[0]);
      assert chains[0].rules[0] in chains[0].rules;
      MatchesThrough(chains[0].rules[0], f, g);
      HeadForThrough(mx, mask, chains[1..], f, g);
    }
  }

  /** A flow that agrees with the looked-up one on every significant bit gets the same
      result and the same significant bits, on a hit and on a miss. */
  lemma {:induction false} LookupBitsSuffice(
    mx: Mixer, s: seq<Table>, f: FlowWords, g: FlowWords, best: Option<Rule>, wc: FlowWords)
    requires forall t | t in s :: TableOk(mx, t)
    requires EqualIn(f, g, LookupBits(s, f, best, wc))
    ensures LookupFrom(s, g, best) == LookupFrom(s, f, best)
    ensures LookupBits(s, g, best, wc) == LookupBits(s, f, best, wc)
    decreases |s|
  {
    hide EqualIn, HeadFor, Folded, ChainOk, Miniflow.Expand;
    if s != [] && !Settled(s[0], best) {
      var m := s[0].mask.Expand();
      var next := Better(best, HeadFor(s[0].chains, f));
      LookupBitsGrow(s[1..], f, g, next, Folded(wc, m));
      EqualInFolded(f, g, wc, m);
      assert TableOk(mx, s[0]);
      HeadForThrough(mx, s[0].mask, s[0].chains, f, g);
      LookupBitsSuffice(mx, s[1..], f, g, next, Folded(wc, m));
    }
  }
}
