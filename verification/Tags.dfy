/** Tags (`cls-rule.c`, `oftable.c` and the tagging parts of `ofproto-dpif.c`). */
module Tags {
  import opened Options
  import opened Bits
  import opened Flow
  import opened Match
  import opened Tables
  import opened TableUpdates
  import opened Classifier
  import opened Queries
  import opened Xlate

  /** `N_TABLES` */
  const N_TABLES: nat := 255

  /** The hash, the secret of each table, and `tag_create_deterministic`, uninterpreted. */
  datatype Tagger = Tagger(mx: Mixer, basis: Key -> Word, create: Word -> Word)

  /** The two sub-tables that `struct table_dpif` points at. */
  datatype Dpif = Dpif(catchall: Option<nat>, other: Option<nat>)

  predicate Wild(mask: Miniflow) {
    mask.map0 == 0 && mask.map1 == 0
  }

  function TagOfHash(tg: Tagger, h: Word): Word {
    if h == 0 then 0 else tg.create(h)
  }

  /** The tag of a flow under a mask; 0 stands for no tag. */
  ghost function FlowTag(tg: Tagger, k: Key, f: FlowWords, mask: Miniflow): Word {
    if Wild(mask) then 0 else TagOfHash(tg, HashIn(tg.mx, f, mask.Expand(), tg.basis(k)))
  }

  /** `rule->tag` */
  ghost function RuleTag(tg: Tagger, k: Key, r: Rule): Word {
    if k.table == 0 then 0 else FlowTag(tg, k, r.key.Expand(), r.mask)
  }

  /** `ecall_rule_calculate_tag` and `ecall_rule_calculate_tag_s`, followed by
      `tag_create_deterministic` unless the hash is 0. */
  method CalculateTag(tg: Tagger, k: Key, flow: FlowWords, mask: Miniflow) returns (tag: Word)
    requires mask.Valid()
    ensures tag == FlowTag(tg, k, flow, mask)
    ensures (forall o | 0 <= o < 46 :: mask.Expand()[o] == 0) ==> tag == 0
    ensures var h := HashIn(tg.mx, flow, mask.Expand(), tg.basis(k));
            (exists o | 0 <= o < 46 :: mask.Expand()[o] != 0) ==> tag == if h == 0 then 0 else tg.create(h)
  {
    hide HashIn, Miniflow.Expand, Miniflow.Valid;
    OrIsZero(mask.map0, mask.map1);
    CatchallWords(mask);
    if mask.map0 | mask.map1 == 0 {
      return 0;
    }
    var hash := FlowHashInMinimask(tg.mx, flow, mask, tg.basis(k));
    tag := TagOfHash(tg, hash);
  }

  /** The tag given in `rule_construct`: if a rule is replaced, the tag `victimTag` that its
      victim was given. */
  method ConstructTag(tg: Tagger, k: Key, rule: Rule, victim: Option<Rule>, victimTag: Word) returns (tag: Word)
    requires Ok(rule)
    requires victim.Some? ==> Identical(victim.value, rule) && victimTag == RuleTag(tg, k, victim.value)
    ensures tag == RuleTag(tg, k, rule)
  {
    if victim.Some? {
      tag := victimTag;
    } else if k.table == 0 {
      tag := 0;
    } else {
      var flow := MiniflowExpand(rule.key);
      tag := CalculateTag(tg, k, flow[..], rule.mask);
    }
  }

  /** A rule and a flow that it matches have one tag under its mask. */
  lemma MatchSharesTag(tg: Tagger, k: Key, r: Rule, f: FlowWords)
    requires Matches(r, f) && k.table != 0
    ensures RuleTag(tg, k, r) == FlowTag(tg, k, f, r.mask)
  {
    hide HashIn, EqualIn, Miniflow.Expand;
    HashAgrees(tg.mx, r.key.Expand(), f, r.mask.Expand(), tg.basis(k));
  }

  /** What `ecall_oftable_update_taggable` makes of the sub-tables: at most one catch-all and at
      most one other. */
  ghost function Taggable(s: seq<Table>): Dpif {
    if |s| == 1 then
      if Wild(s[0].mask) then Dpif(Some(s[0].addr), None) else Dpif(None, Some(s[0].addr))
    else if |s| == 2 then
      if Wild(s[1].mask) then Dpif(Some(s[1].addr), if Wild(s[0].mask) then None else Some(s[0].addr))
      else if Wild(s[0].mask) then Dpif(Some(s[0].addr), Some(s[1].addr))
      else Dpif(None, None)
    else Dpif(None, None)
  }

  /** The sub-table at `i` is the only one that is not a catch-all. */
  ghost predicate OnlyOther(s: seq<Table>, i: nat) {
    i < |s| && !Wild(s[i].mask) && forall j | 0 <= j < |s| && j != i :: Wild(s[j].mask)
  }

  /** The sub-table at `i` is the last catch-all. */
  ghost predicate LastCatchall(s: seq<Table>, i: nat) {
    i < |s| && Wild(s[i].mask) && forall j | i < j < |s| :: !Wild(s[j].mask)
  }

  /** When there are pointers: of one or two sub-tables, the one that is not a catch-all if it is the
      only such, and the catch-all if there is one. */
  lemma TaggableIff(s: seq<Table>, a: nat)
    ensures Taggable(s).other == Some(a) <==> |s| <= 2 && exists i: nat :: OnlyOther(s, i) && s[i].addr == a
    ensures Taggable(s).catchall == Some(a) <==> |s| <= 2 && exists i: nat :: LastCatchall(s, i) && s[i].addr == a
  {
    hide Wild;
    var d := Taggable(s);
    if d.other == Some(a) {
      var i := if |s| == 2 && Wild(s[0].mask) then 1 else 0;
      assert OnlyOther(s, i);
    }
    if d.catchall == Some(a) {
      var i := if |s| == 2 && Wild(s[1].mask) then 1 else 0;
      assert LastCatchall(s, i);
    }
  }

  /** A sub-table alone in its table is tagged unless it is a catch-all. */
  lemma TaggableAlone(t: Table)
    ensures Taggable([t]) == if Wild(t.mask) then Dpif(Some(t.addr), None) else Dpif(None, Some(t.addr))
  {
    hide Wild;
  }

  /** `ecall_oftable_update_taggable`: the pointers, and whether they changed. */
  method UpdateTaggable(s: seq<Table>, was: Dpif) returns (now: Dpif, changed: bool)
    ensures now == Taggable(s) && (changed <==> now != was)
    ensures forall a :: now.other == Some(a) <==> |s| <= 2 && exists i: nat :: OnlyOther(s, i) && s[i].addr == a
    ensures forall a :: now.catchall == Some(a) <==> |s| <= 2 && exists i: nat :: LastCatchall(s, i) && s[i].addr == a
  {
    forall a { TaggableIff(s, a); }
    var catchall: Option<nat>, other: Option<nat> := None, None;
    if |s| == 1 || |s| == 2 {
      for i := 0 to |s|
        invariant i == 0 ==> catchall.None? && other.None?
        invariant i == 1 ==> Dpif(catchall, other) == Taggable(s[..1])
        invariant i == 2 ==> Dpif(catchall, other) == Taggable(s)
      {
        if Wild(s[i].mask) {
          catchall := Some(s[i].addr);
        } else if other.None? {
          other := Some(s[i].addr);
        } else {
          other := None;
        }
      }
      if |s| == 1 { assert s[..1] == s; }
    }
    now := Dpif(catchall, other);
    changed := was.catchall != catchall || was.other != other;
  }

  /** When a sub-table is taggable, all others are catch-alls. */
  lemma TaggableOnlyOther(mx: Mixer, s: seq<Table>) returns (i: nat)
    requires StateOk(mx, s) && Taggable(s).other.Some?
    ensures i < |s| && Taggable(s).other == Some(s[i].addr) && !Wild(s[i].mask)
    ensures forall t | t in s && t != s[i] :: Wild(t.mask)
    ensures forall t | t in s && t.addr == s[i].addr :: t == s[i]
  {
    hide TableOk;
    i := if |s| == 2 && Wild(s[0].mask) then 1 else 0;
    assert |s| == 2 ==> s[0].addr != s[1].addr;
  }

  /** A rule of a taggable table is in the tagged sub-table or in the catch-all. */
  lemma TaggableRule(mx: Mixer, s: seq<Table>, t: Table, x: Rule)
    requires StateOk(mx, s) && t in s && Taggable(s).other == Some(t.addr) && Stored(s, x)
    ensures x.mask == t.mask || Wild(x.mask)
    ensures !Wild(t.mask)
  {
    hide StateOk, Taggable, Stored, InChains;
    var i := TaggableOnlyOther(mx, s);
    var j := HomeTable(mx, s, x);
    assert s[j] in s;
  }

  // ---- catch-alls ----

  /** The catch-all sub-table always answers, with its highest priority. */
  lemma CatchallHead(mx: Mixer, t: Table, f: FlowWords)
    requires TableOk(mx, t) && Wild(t.mask)
    ensures HeadFor(t.chains, f).Some? && HeadFor(t.chains, f).value.priority == t.maxPriority
  {
    hide ChainOk, HeadFor, HeadKey;
    var c := TopChain(mx, t);
    HeadOk(mx, t.mask, c);
    WildMatches(c.rules[0], f);
    HeadIsBest(mx, t, f);
    assert c in t.chains && c.rules[0] in c.rules;
  }

  lemma TopChain(mx: Mixer, t: Table) returns (c: Chain)
    requires TableOk(mx, t)
    ensures c in t.chains && ChainOk(mx, t.mask, c) && HeadAt(c, t.maxPriority)
  {
    hide ChainOk, HeadKey;
    c := SomeHead(t.chains, t.maxPriority);
  }

  lemma {:induction false} SomeHead(chains: seq<Chain>, p: nat) returns (c: Chain)
    requires CountHeads(chains, p) > 0
    ensures c in chains && HeadAt(c, p)
  {
    if HeadAt(chains[0], p) { c := chains[0]; } else { c := SomeHead(chains[1..], p); }
  }

  lemma WildMatches(r: Rule, f: FlowWords)
    requires Ok(r) && Wild(r.mask)
    ensures Matches(r, f)
  {
  }

  // ---- `tag_the_flow` ----

  /** `tags` contains what `tag_the_flow` adds for lookup `l` when the table has pointers `d` and
      sub-tables `s`. Where `d.other` points at a sub-table that is gone, nothing is known. */
  ghost predicate Tagged(tg: Tagger, d: Dpif, s: seq<Table>, l: Look, tags: Word) {
    0 < l.key.table < N_TABLES && d.other.Some? ==>
      if l.found.Some? && RuleTag(tg, l.key, l.found.value) != 0
      then Covers(tags, RuleTag(tg, l.key, l.found.value))
      else forall t | t in s && t.addr == d.other.value :: Covers(tags, FlowTag(tg, l.key, l.flow, t.mask))
  }

  lemma CoversJoin(a: Word, b: Word)
    ensures Covers(Join(a, b), a) && Covers(Join(a, b), b)
  {
  }

  lemma CoversLeast(a: Word, b: Word)
    ensures forall w | Covers(w, a) && Covers(w, b) :: Covers(w, Join(a, b))
  {
    forall w | Covers(w, a) && Covers(w, b) ensures Covers(w, Join(a, b)) { CoversBoth(w, a, b); }
  }

  lemma CoversBoth(w: Word, a: Word, b: Word)
    requires Covers(w, a) && Covers(w, b)
    ensures Covers(w, Join(a, b))
  {
  }

  lemma CoversThrough(a: Word, b: Word, c: Word)
    requires Covers(a, b) && Covers(b, c)
    ensures Covers(a, c)
  {
  }

  lemma TaggedMore(tg: Tagger, d: Dpif, s: seq<Table>, l: Look, tags: Word, more: Word)
    requires Tagged(tg, d, s, l, tags) && Covers(more, tags)
    ensures Tagged(tg, d, s, l, more)
  {
    hide Covers, FlowTag, RuleTag;
    forall w | Covers(tags, w) ensures Covers(more, w) { CoversThrough(more, tags, w); }
  }

  /** `tag_the_flow` for one lookup; `ruleTag` is the tag stored in the rule found. */
  method TagTheFlow(tg: Tagger, d: Dpif, s: seq<Table>, l: Look, ruleTag: Word, tags: Word) returns (more: Word)
    requires forall t | t in s :: t.mask.Valid()
    requires forall i, j | 0 <= i < j < |s| :: s[i].addr != s[j].addr
    requires l.found.Some? ==> ruleTag == RuleTag(tg, l.key, l.found.value)
    ensures Covers(more, tags) && Tagged(tg, d, s, l, more)
    ensures forall w | Covers(w, tags) && Tagged(tg, d, s, l, w) :: Covers(w, more)
  {
    hide Covers, FlowTag, RuleTag, Miniflow.Valid, Join, Tagged;
    CoversSelf(tags);
    more := tags;
    if 0 < l.key.table < N_TABLES && d.other.Some? {
      if l.found.Some? && ruleTag != 0 {
        more := Join(tags, ruleTag);
        CoversJoin(tags, ruleTag);
        CoversLeast(tags, ruleTag);
        TaggedByRule(tg, d, s, l);
        return;
      }
      for i := 0 to |s|
        invariant more == tags && forall j | 0 <= j < i :: s[j].addr != d.other.value
      {
        if s[i].addr == d.other.value {
          var tag := CalculateTag(tg, l.key, l.flow, s[i].mask);
          more := Join(tags, tag);
          CoversJoin(tags, tag);
          CoversLeast(tags, tag);
          TaggedByTable(tg, d, s, l, i);
          return;
        }
      }
    }
    TaggedByNothing(tg, d, s, l);
  }

  lemma TaggedByRule(tg: Tagger, d: Dpif, s: seq<Table>, l: Look)
    requires 0 < l.key.table < N_TABLES && d.other.Some? && l.found.Some? && RuleTag(tg, l.key, l.found.value) != 0
    ensures forall w :: Tagged(tg, d, s, l, w) <==> Covers(w, RuleTag(tg, l.key, l.found.value))
  {
    hide Covers, RuleTag, FlowTag;
  }

  lemma TaggedByTable(tg: Tagger, d: Dpif, s: seq<Table>, l: Look, i: nat)
    requires 0 < l.key.table < N_TABLES && d.other.Some? && (l.found.Some? ==> RuleTag(tg, l.key, l.found.value) == 0)
    requires i < |s| && s[i].addr == d.other.value && forall j, k | 0 <= j < k < |s| :: s[j].addr != s[k].addr
    ensures forall w :: Tagged(tg, d, s, l, w) <==> Covers(w, FlowTag(tg, l.key, l.flow, s[i].mask))
  {
    hide Covers, RuleTag, FlowTag;
    forall t | t in s && t.addr == d.other.value ensures t == s[i] { }
    assert s[i] in s;
  }

  lemma TaggedByNothing(tg: Tagger, d: Dpif, s: seq<Table>, l: Look)
    requires 0 < l.key.table < N_TABLES && d.other.Some? ==>
               && (l.found.Some? ==> RuleTag(tg, l.key, l.found.value) == 0)
               && forall j | 0 <= j < |s| :: s[j].addr != d.other.value
    ensures forall w :: Tagged(tg, d, s, l, w)
  {
    hide Covers, RuleTag, FlowTag;
  }

  lemma CoversSelf(a: Word)
    ensures Covers(a, a)
  {
  }
}
