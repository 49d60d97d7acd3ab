/** Whole runs of a classifier against a plain set of rules. */
module Runs {
  import opened Options
  import opened Bits
  import opened Flow
  import opened Match
  import opened Tables
  import opened TableUpdates
  import opened Classifier

  datatype Op = Replace(rule: Rule) | Remove(rule: Rule)

  /** The flow table as a set: replacing drops the rule that differs in nothing. */
  ghost function Step(rs: set<Rule>, op: Op): set<Rule> {
    match op
    case Replace(rule) => (set x | x in rs && !Identical(x, rule)) + {rule}
    case Remove(rule) => rs - {rule}
  }

  /** What the callers of `classifier_replace` and `classifier_remove` must respect. */
  ghost predicate Allowed(rs: set<Rule>, op: Op) {
    match op
    case Replace(rule) => Ok(rule) && forall x | x in rs :: x.id != rule.id
    case Remove(rule) => rule in rs
  }

  ghost function After(rs: set<Rule>, ops: seq<Op>): set<Rule>
    decreases |ops|
  {
    if ops == [] then rs else After(Step(rs, ops[0]), ops[1..])
  }

  ghost predicate AllAllowed(rs: set<Rule>, ops: seq<Op>)
    decreases |ops|
  {
    ops != [] ==> Allowed(rs, ops[0]) && AllAllowed(Step(rs, ops[0]), ops[1..])
  }

  ghost predicate Holds(s: seq<Table>, rs: set<Rule>) {
    forall x :: x in rs <==> Stored(s, x)
  }

  /** The classifier never holds two rules that differ in nothing but their address. */
  lemma IdenticalIsUnique(mx: Mixer, s: seq<Table>, a: Rule, b: Rule)
    requires StateOk(mx, s) && Stored(s, a) && Stored(s, b) && Identical(a, b)
    ensures a == b
  {
    hide StateOk, TableOk, InChains, ChainsOk, ChainOk, Shape, Stored, HeadKey;
    var i := HomeTable(mx, s, a);
    var j := HomeTable(mx, s, b);
    SameTable(mx, s, i, j);
    TableParts(mx, s, i);
    var ci := ChainWith(mx, s[i], a);
    InsertMembers(mx, s[i], ci, a, b);
    SamePriority(mx, s[i].mask, s[i].chains[ci], a, b);
  }

  lemma ChainWith(mx: Mixer, t: Table, a: Rule) returns (ci: nat)
    requires TableOk(mx, t) && InChains(t.chains, a)
    ensures ci < |t.chains| && a in t.chains[ci].rules && HeadKey(t.chains[ci]) == a.key
    ensures ChainOk(mx, t.mask, t.chains[ci])
  {
    hide ChainOk, HeadKey;
    var c :| c in t.chains && a in c.rules;
    ci :| 0 <= ci < |t.chains| && t.chains[ci] == c;
    ChainKey(mx, t.mask, c, a);
  }

  lemma SamePriority(mx: Mixer, mask: Miniflow, c: Chain, a: Rule, b: Rule)
    requires ChainOk(mx, mask, c) && a in c.rules && b in c.rules && a.priority == b.priority
    ensures a == b
  {
  }

  /** An address that no sub-table has. */
  function FreshAddr(s: seq<Table>): (a: nat)
    ensures forall t | t in s :: t.addr < a
  {
    if s == [] then 0
    else
      var b := FreshAddr(s[1..]);
      assert s == [s[0]] + s[1..];
      if s[0].addr < b then b else s[0].addr + 1
  }

  lemma ReplaceCount(mx: Mixer, s: seq<Table>, rs: set<Rule>, rule: Rule, displaced: Option<Rule>)
    requires StateOk(mx, s) && Holds(s, rs) && Allowed(rs, Replace(rule))
    requires displaced.None? <==> forall x | x in rs :: !Identical(x, rule)
    requires displaced.Some? ==> displaced.value in rs && Identical(displaced.value, rule)
    ensures |Step(rs, Replace(rule))| == |rs| + One(displaced.None?)
  {
    hide StateOk, Ok, Stored;
    var kept := set x | x in rs && !Identical(x, rule);
    if displaced.None? {
      assert kept == rs;
    } else {
      forall x | x in rs && Identical(x, rule) ensures x == displaced.value {
        IdenticalIsUnique(mx, s, x, displaced.value);
      }
      assert kept == rs - {displaced.value};
    }
  }

  /** After any run of replacements and removals from the empty classifier, the rule count is
      the number of rules in the set, and a lookup returns nothing exactly when no rule of
      the set matches, and otherwise a match of highest priority. */
  method RunThenLookup(mx: Mixer, ops: seq<Op>, flow: FlowWords) returns (best: Option<Rule>, n: nat)
    requires AllAllowed({}, ops)
    ensures n == |After({}, ops)|
    ensures best.None? ==> forall x | x in After({}, ops) :: !Matches(x, flow)
    ensures best.Some? ==> best.value in After({}, ops) && Matches(best.value, flow)
    ensures best.Some? ==> forall x | x in After({}, ops) && Matches(x, flow) :: x.priority <= best.value.priority
  {
    hide StateOk, SumRules, Stored, Ok, Matches, Step, LookupFrom, LookupBits;
    var cls := new Classifier(mx);
    ghost var rs: set<Rule> := {};
    NothingStored();
    var i := 0;
    assert ops[0..] == ops;
    while i < |ops|
      invariant i <= |ops| && fresh(cls) && cls.Valid() && cls.mx == mx
      invariant Holds(cls.tables, rs) && cls.nRules == |rs|
      invariant AllAllowed(rs, ops[i..]) && After(rs, ops[i..]) == After({}, ops)
    {
      var op := ops[i];
      assert ops[i..][0] == op && ops[i..][1..] == ops[i + 1..];
      ghost var before := cls.tables;
      match op {
        case Replace(rule) =>
          var addr := FreshAddr(cls.tables);
          var displaced := cls.Replace(rule, addr);
          ReplaceCount(mx, before, rs, rule, displaced);
          ReplaceHolds(before, cls.tables, rs, rule);
        case Remove(rule) =>
          cls.Remove(rule);
          RemoveHolds(before, cls.tables, rs, rule);
      }
      rs := Step(rs, op);
      i := i + 1;
    }
    best := cls.Lookup(flow, null);
    n := cls.nRules;
  }

  lemma NothingStored()
    ensures Holds([], {})
  {
  }

  lemma ReplaceHolds(s: seq<Table>, q: seq<Table>, rs: set<Rule>, rule: Rule)
    requires Holds(s, rs) && forall r :: Stored(q, r) <==> r == rule || (Stored(s, r) && !Identical(r, rule))
    ensures Holds(q, Step(rs, Replace(rule)))
  {
    hide Stored;
  }

  lemma RemoveHolds(s: seq<Table>, q: seq<Table>, rs: set<Rule>, rule: Rule)
    requires Holds(s, rs) && rule in rs && forall r :: Stored(q, r) <==> Stored(s, r) && r != rule
    ensures Holds(q, Step(rs, Remove(rule))) && |Step(rs, Remove(rule))| == |rs| - 1
  {
    hide Stored;
  }

  /** Wildcard accumulation is sound: what `wc` holds after a lookup decides the lookup of any
      other flow that agrees on those bits, on a hit and on a miss, and whatever `wc` held
      before. */
  method LookupTwice(cls: Classifier, f: FlowWords, g: FlowWords, wc: array<Word>)
    returns (r: Option<Rule>, q: Option<Rule>)
    requires cls.Valid() && wc.Length == 46
    modifies wc
    ensures EqualIn(f, g, wc[..]) ==> q == r
    ensures IsBest(cls.tables, f, r) && IsBest(cls.tables, g, q)
  {
    hide StateOk, SumRules, LookupFrom, LookupBits, IsBest, EqualIn, TableOk;
    ghost var was := wc[..];
    r := cls.Lookup(f, wc);
    q := cls.Lookup(g, null);
    if EqualIn(f, g, wc[..]) {
      TablesOk(cls.mx, cls.tables);
      LookupBitsSuffice(cls.mx, cls.tables, f, g, None, was);
    }
  }

  lemma TablesOk(mx: Mixer, s: seq<Table>)
    requires StateOk(mx, s)
    ensures forall t | t in s :: TableOk(mx, t)
  {
    hide TableOk;
  }
}
