/** Classifier rules and what they match (`match.h`, `match.c`, `classifier.h`). */
module Match {
  import opened Bits
  import opened Flow

  /** A `struct cls_rule`: `id` stands for its address. */
  datatype Rule = Rule(id: nat, key: Miniflow, mask: Miniflow, priority: nat)

  /** The invariant of `struct match`: a wildcarded bit of the flow is a 0-bit. */
  ghost predicate Ok(r: Rule) {
    && r.key.Valid() && r.mask.Valid()
    && forall o | 0 <= o < 46 :: Covers(r.mask.Expand()[o], r.key.Expand()[o])
  }

  /** `r` matches the concrete flow `f`. */
  ghost predicate Matches(r: Rule, f: FlowWords) {
    EqualIn(r.key.Expand(), f, r.mask.Expand())
  }

  /** Same wildcards, same fixed values, same priority: `cls_rule_equal`. */
  predicate Identical(a: Rule, b: Rule) {
    a.key == b.key && a.mask == b.mask && a.priority == b.priority
  }

  // ---- one word at a time ----

  lemma WordsMeet(a: Word, ma: Word, b: Word, mb: Word, f: Word)
    requires Covers(ma, a) && Covers(mb, b) && SameIn(a, b, Meet(ma, mb)) && f == a | b
    ensures SameIn(a, f, ma) && SameIn(b, f, mb)
  {
  }

  lemma WordsAgree(a: Word, ma: Word, b: Word, mb: Word, f: Word)
    requires SameIn(a, f, ma) && SameIn(b, f, mb)
    ensures SameIn(a, b, Meet(ma, mb))
  {
  }

  lemma WordsUnique(a: Word, b: Word, m: Word, f: Word)
    requires Covers(m, a) && Covers(m, b) && SameIn(a, f, m) && SameIn(b, f, m)
    ensures a == b
  {
  }

  lemma WordsSelf(a: Word, m: Word)
    ensures SameIn(a, a, m)
  {
  }

  lemma WordsSwap(a: Word, b: Word, m: Word)
    ensures SameIn(a, b, m) == SameIn(b, a, m)
  {
  }

  function Flip(a: Word, ma: Word, mc: Word): Word {
    a ^ (mc & !ma)
  }

  /** Flipping the bits that `mc` fixes and `ma` does not is seen by `mc` only. */
  lemma WordsFlip(a: Word, ma: Word, c: Word, mc: Word)
    requires !Covers(ma, mc) && SameIn(a, c, mc)
    ensures SameIn(a, Flip(a, ma, mc), ma) && !SameIn(c, Flip(a, ma, mc), mc)
  {
  }

  // ---- whole flows ----

  /** The word-by-word "or" of two flows. */
  ghost function Merged(a: FlowWords, b: FlowWords): FlowWords {
    seq(46, o requires 0 <= o < 46 => a[o] | b[o])
  }

  /** Two rules agree under their combined mask exactly when some concrete flow
      matches both. */
  lemma OverlapIsCommonFlow(a: Rule, b: Rule)
    requires Ok(a) && Ok(b)
    ensures EqualIn(a.key.Expand(), b.key.Expand(), Combined(a.mask.Expand(), b.mask.Expand()))
            <==> exists f: FlowWords :: Matches(a, f) && Matches(b, f)
  {
    hide Miniflow.Valid, Miniflow.Expand, SameIn, Covers, Meet;
    var A, MA, B, MB := a.key.Expand(), a.mask.Expand(), b.key.Expand(), b.mask.Expand();
    if EqualIn(A, B, Combined(MA, MB)) {
      var f := Merged(A, B);
      forall o | 0 <= o < 46 ensures SameIn(A[o], f[o], MA[o]) && SameIn(B[o], f[o], MB[o]) {
        assert SameIn(A[o], B[o], Combined(MA, MB)[o]);
        WordsMeet(A[o], MA[o], B[o], MB[o], f[o]);
      }
      assert Matches(a, f) && Matches(b, f);
    }
    forall f: FlowWords | Matches(a, f) && Matches(b, f) ensures EqualIn(A, B, Combined(MA, MB)) {
      forall o | 0 <= o < 46 ensures SameIn(A[o], B[o], Combined(MA, MB)[o]) {
        WordsAgree(A[o], MA[o], B[o], MB[o], f[o]);
      }
    }
  }

  /** Under one mask, the key of a rule that matches a flow is unique. */
  lemma KeyIsUnique(a: Rule, b: Rule, f: FlowWords)
    requires Ok(a) && Ok(b) && a.mask == b.mask && Matches(a, f) && Matches(b, f)
    ensures a.key == b.key
  {
    hide Miniflow.Valid, Miniflow.Expand, SameIn, Covers;
    var A, B, M := a.key.Expand(), b.key.Expand(), a.mask.Expand();
    forall o | 0 <= o < 46 ensures A[o] == B[o] {
      WordsUnique(A[o], B[o], M[o], f[o]);
    }
    assert A == B;
    Canonical(a.key, b.key);
  }

  /** `rule` is at least as specific as `criteria` (the two tests of
      `cls_rule_is_loose_match`, on expanded flows). */
  ghost predicate Loose(rule: Rule, criteria: Rule) {
    && !Extra(rule.mask.Expand(), criteria.mask.Expand())
    && EqualIn(rule.key.Expand(), criteria.key.Expand(), criteria.mask.Expand())
  }

  /** Loose matching is set inclusion of the matched flows. */
  lemma LooseIsInclusion(rule: Rule, criteria: Rule)
    ensures Loose(rule, criteria) <==> forall f: FlowWords | Matches(rule, f) :: Matches(criteria, f)
  {
    if Loose(rule, criteria) {
      forall f: FlowWords | Matches(rule, f) ensures Matches(criteria, f) {
        LooseInherits(rule, criteria, f);
      }
    } else {
      var f := EscapingFlow(rule, criteria);
    }
  }

  lemma LooseInherits(rule: Rule, criteria: Rule, f: FlowWords)
    requires Loose(rule, criteria) && Matches(rule, f)
    ensures Matches(criteria, f)
  {
  }

  /** When the match is not loose, some flow matches the rule and not the criteria. */
  lemma EscapingFlow(rule: Rule, criteria: Rule) returns (f: FlowWords)
    requires !Loose(rule, criteria)
    ensures Matches(rule, f) && !Matches(criteria, f)
  {
    hide Miniflow.Expand, SameIn, Covers, Flip;
    var A, MA, C, MC := rule.key.Expand(), rule.mask.Expand(), criteria.key.Expand(), criteria.mask.Expand();
    forall o | 0 <= o < 46 ensures SameIn(A[o], A[o], MA[o]) { WordsSelf(A[o], MA[o]); }
    if !EqualIn(A, C, MC) {
      f := A;
      var o :| 0 <= o < 46 && !SameIn(A[o], C[o], MC[o]);
      WordsSwap(A[o], C[o], MC[o]);
    } else {
      var o :| 0 <= o < 46 && !Covers(MA[o], MC[o]);
      WordsFlip(A[o], MA[o], C[o], MC[o]);
      f := A[o := Flip(A[o], MA[o], MC[o])];
    }
  }

  /** `cls_rule_is_loose_match`. Only the criteria's key and mask are read. */
  method ClsRuleIsLooseMatch(rule: Rule, criteria: Rule) returns (r: bool)
    requires Ok(rule) && Ok(criteria)
    ensures r <==> forall f: FlowWords | Matches(rule, f) :: Matches(criteria, f)
  {
    LooseIsInclusion(rule, criteria);
    var extra := MinimaskHasExtra(rule.mask, criteria.mask);
    if extra { return false; }
    r := MiniflowEqualInMinimask(rule.key, criteria.key, criteria.mask);
  }

  /** `cls_rule_init`: the sparse forms of a match and its wildcards. */
  method ClsRuleInit(id: nat, flow: FlowWords, wc: FlowWords, priority: nat) returns (rule: Rule)
    requires forall o | 0 <= o < 46 :: Covers(wc[o], flow[o])
    ensures Ok(rule) && rule.id == id && rule.priority == priority
    ensures forall f: FlowWords :: Matches(rule, f) <==> EqualIn(flow, f, wc)
  {
    var key := MiniflowInit(flow);
    var mask := MiniflowInit(wc);
    rule := Rule(id, key, mask, priority);
  }
}
