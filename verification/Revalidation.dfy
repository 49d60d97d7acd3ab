/** Tag-based revalidation as a state machine: flow-table changes, `rule_invalidate`, and cached
    facets. */
module Revalidation {
  import opened Options
  import opened Bits
  import opened Flow
  import opened Match
  import opened Tables
  import opened TableUpdates
  import opened Classifier
  import opened Queries
  import opened Xlate
  import opened Tags
  import Runs

  /** A cached translation: the lookups it made, and its tags. */
  datatype Facet = Facet(trace: seq<Look>, tags: Word)

  /** A rule that was inserted, removed or given other actions, and for which `rule_invalidate`
      is still to be called. */
  datatype Change = Change(key: Key, rule: Rule)

  /** `inserted` holds the rule inserted into each table since changes began; `settling` is
      set once invalidation, or a translation, has begun while changes are pending. */
  datatype State = State(
    cls: map<Key, seq<Table>>, acts: map<(Key, nat), seq<Action>>, dpif: map<Key, Dpif>,
    need: bool, tagSet: set<Word>, facets: map<nat, Facet>,
    pending: seq<Change>, inserted: map<Key, Rule>, settling: bool)
  {
    function Cls(k: Key): seq<Table> {
      if k in cls then cls[k] else []
    }

    function Dp(k: Key): Dpif {
      if k in dpif then dpif[k] else Dpif(None, None)
    }

    function ActsOf(k: Key, r: Rule): seq<Action> {
      if (k, r.id) in acts then acts[(k, r.id)] else []
    }

    ghost function LookNow(k: Key, f: FlowWords): Look {
      var found := LookupFrom(Cls(k), f, None);
      Look(k, f, found, if found.Some? then ActsOf(k, found.value) else [])
    }

    /** The lookup would give the same rule, with the same actions, now. */
    ghost predicate Current(l: Look) {
      LookNow(l.key, l.flow) == l
    }

    /** The facet will be revalidated. */
    ghost predicate Flagged(f: Facet) {
      need || exists tag :: tag in tagSet && Covers(f.tags, tag)
    }

    ghost predicate Pending(k: Key) {
      exists p :: p in pending && p.key == k
    }

    /** The tagged sub-table that the pointers name is still there. */
    ghost predicate Anchored(k: Key) {
      exists t :: t in Cls(k) && Dp(k).other == Some(t.addr)
    }

    /** A pending change will be invalidated that affects the lookup, or that is bound to make
        every facet be revalidated: its rule has no tag, or the tagged sub-table is gone. */
    ghost predicate Covered(tg: Tagger, l: Look) {
      exists p :: p in pending && p.key == l.key && (Matches(p.rule, l.flow) || Untaggable(tg, p))
    }

    ghost predicate Untaggable(tg: Tagger, p: Change) {
      !Anchored(p.key) || RuleTag(tg, p.key, p.rule) == 0
    }

    ghost predicate InSync(k: Key) {
      Dp(k) == Taggable(Cls(k))
    }
  }

  ghost predicate DistinctIds(s: seq<Table>) {
    forall x, y | Stored(s, x) && Stored(s, y) && x.id == y.id :: x == y
  }

  // ---- steps ----

  datatype Step =
    | Insert(key: Key, rule: Rule, addr: nat)
    | Remove(key: Key, rule: Rule)
    | Modify(key: Key, rule: Rule)
    | Invalidate
    | Install(id: nat, facet: Facet)
    | Drop(id: nat)
    | RevalidateAll

  /** What `classifier_replace` does to a table. */
  ghost predicate Inserted(mx: Mixer, s: seq<Table>, q: seq<Table>, rule: Rule, addr: nat) {
    && StateOk(mx, q)
    && (forall r :: Stored(q, r) <==> r == rule || (Stored(s, r) && !Identical(r, rule)))
    && (forall t | t in q :: HasTable(s, t.addr, t.mask) || (t.addr == addr && t.mask == rule.mask))
    && Lifted(s, q, rule)
  }

  /** What `classifier_remove` does to a table. */
  ghost predicate Removed(mx: Mixer, s: seq<Table>, q: seq<Table>, rule: Rule) {
    && StateOk(mx, q)
    && (forall r :: Stored(q, r) <==> Stored(s, r) && r != rule)
    && (forall t | t in q :: HasTable(s, t.addr, t.mask))
    && Sunk(s, q, rule.mask)
  }

  ghost predicate SameActsBut(a: State, b: State, k: Key, id: nat) {
    forall j: Key, r: Rule | j != k || r.id != id :: a.ActsOf(j, r) == b.ActsOf(j, r)
  }

  /** `rule` can be put into the table: it is not in a table, and the address is free. */
  ghost predicate Admissible(s: seq<Table>, rule: Rule, addr: nat) {
    && Ok(rule)
    && (forall x | Stored(s, x) :: x.id != rule.id)
    && (forall t | t in s :: t.addr != addr)
  }

  /** The insertion that changes the lookup of a flow that the rule does not match: the sub-tables are a
      catch-all and, behind it, that of the rule; the rule's priority is above the catch-all's; and the
      sub-table holds a rule with another key at the catch-all's priority. */
  ghost predicate Flips(s: seq<Table>, rule: Rule) {
    && |s| == 2 && Wild(s[0].mask) && !Wild(s[1].mask)
    && rule.mask == s[1].mask && rule.priority > s[0].maxPriority
    && exists a :: InChains(s[1].chains, a) && a.priority == s[0].maxPriority && a.key != rule.key
  }

  /** A translation made now. */
  ghost predicate Fresh(tg: Tagger, st: State, f: Facet) {
    forall l | l in f.trace :: st.Current(l) && Tagged(tg, st.Dp(l.key), st.Cls(l.key), l, f.tags)
  }

  /** `rule_invalidate` for the oldest pending change. */
  ghost function Invalidated(tg: Tagger, st: State): State
    requires st.pending != []
  {
    var p := st.pending[0];
    var d := Taggable(st.Cls(p.key));
    var rest := st.pending[1..];
    var st1 := st.(dpif := st.dpif[p.key := d], pending := rest, settling := rest != [],
                   inserted := if rest == [] then map[] else st.inserted);
    if st.need || d != st.Dp(p.key) then st1.(need := true)
    else if d.other.Some? && RuleTag(tg, p.key, p.rule) != 0 then
      st1.(tagSet := st.tagSet + {RuleTag(tg, p.key, p.rule)})
    else st1.(need := true)
  }

  ghost predicate Next(tg: Tagger, st: State, step: Step, to: State) {
    match step
    case Insert(k, rule, addr) =>
      && !st.settling && !st.Pending(k) && k.table < N_TABLES
      && Admissible(st.Cls(k), rule, addr)
      && (st.need || RuleTag(tg, k, rule) == 0 || !Flips(st.Cls(k), rule))
      && Inserted(tg.mx, st.Cls(k), to.Cls(k), rule, addr)
      && SameActsBut(st, to, k, rule.id)
      && to == st.(cls := st.cls[k := to.Cls(k)], acts := to.acts,
                   pending := st.pending + [Change(k, rule)], inserted := st.inserted[k := rule])
    case Remove(k, rule) =>
      && !st.settling && Stored(st.Cls(k), rule) && k.table < N_TABLES
      && (k in st.inserted ==> st.inserted[k] != rule)
      && Removed(tg.mx, st.Cls(k), to.Cls(k), rule)
      && to == st.(cls := st.cls[k := to.Cls(k)], pending := st.pending + [Change(k, rule)])
    case Modify(k, rule) =>
      && !st.settling && Stored(st.Cls(k), rule) && k.table < N_TABLES
      && SameActsBut(st, to, k, rule.id)
      && to == st.(acts := to.acts, pending := st.pending + [Change(k, rule)])
    case Invalidate =>
      st.pending != [] && to == Invalidated(tg, st)
    case Install(id, f) =>
      Fresh(tg, st, f) && to == st.(facets := st.facets[id := f], settling := st.pending != [])
    case Drop(id) =>
      to == st.(facets := st.facets - {id})
    case RevalidateAll =>
      && st.pending == []
      && to == st.(need := false, tagSet := {}, facets := to.facets)
      && forall id | id in to.facets ::
           || (id in st.facets && to.facets[id] == st.facets[id] && !st.Flagged(st.facets[id]))
           || Fresh(tg, st, to.facets[id])
  }

  // ---- the invariant ----

  ghost predicate TablesGood(tg: Tagger, st: State) {
    forall k: Key :: StateOk(tg.mx, st.Cls(k)) && DistinctIds(st.Cls(k))
  }

  /** Pointers are up to date wherever nothing is pending. */
  ghost predicate Synced(st: State) {
    forall k: Key | !st.Pending(k) :: st.InSync(k)
  }

  ghost predicate FacetCurrent(tg: Tagger, st: State, f: Facet) {
    forall l | l in f.trace :: st.Current(l) || st.Flagged(f) || st.Covered(tg, l)
  }

  /** The facet holds the tag that its lookup has under the mask of the tagged sub-table. */
  ghost predicate Held(tg: Tagger, st: State, f: Facet, l: Look) {
    forall t | t in st.Cls(l.key) && st.Dp(l.key).other == Some(t.addr) ::
      Covers(f.tags, FlowTag(tg, l.key, l.flow, t.mask))
  }

  ghost predicate FacetTagged(tg: Tagger, st: State, f: Facet) {
    forall l | l in f.trace && 0 < l.key.table < N_TABLES ::
      st.need || (st.settling && !st.InSync(l.key)) || Held(tg, st, f, l)
  }

  ghost predicate OtherIs(st: State, k: Key, mask: Miniflow) {
    forall t | t in st.Cls(k) && st.Dp(k).other == Some(t.addr) :: t.mask == mask
  }

  /** A pending change is to a rule that is in the table or had the mask of the tagged
      sub-table. */
  ghost predicate PendingGood(tg: Tagger, st: State) {
    forall p | p in st.pending ::
      st.need || RuleTag(tg, p.key, p.rule) == 0 || Stored(st.Cls(p.key), p.rule) || OtherIs(st, p.key, p.rule.mask)
  }

  /** The only rule that may disagree with the pointers is the one just inserted. */
  ghost predicate OnlyInsertedDiffers(st: State) {
    forall k: Key, x | Stored(st.Cls(k), x) ::
      st.need || Wild(x.mask) || (k in st.inserted && st.inserted[k] == x) || OtherIs(st, k, x.mask)
  }

  ghost predicate PhaseGood(st: State) {
    && (st.settling ==> st.pending != [])
    && (!st.settling ==> forall k | k in st.inserted :: Change(k, st.inserted[k]) in st.pending)
    && (forall p | p in st.pending :: p.key.table < N_TABLES)
  }

  ghost predicate FacetsGood(tg: Tagger, st: State) {
    forall id | id in st.facets :: FacetCurrent(tg, st, st.facets[id]) && FacetTagged(tg, st, st.facets[id])
  }

  ghost predicate Inv(tg: Tagger, st: State) {
    && TablesGood(tg, st) && Synced(st) && FacetsGood(tg, st)
    && PendingGood(tg, st) && OnlyInsertedDiffers(st) && PhaseGood(st)
  }

  // ---- lookups and changes ----

  /** If the same rules match a flow before and after a change, then the lookup differs only if two
      sub-tables with matches of the highest priority have changed places. */
  lemma LookupDetermined(mx: Mixer, s: seq<Table>, q: seq<Table>, f: FlowWords)
    requires StateOk(mx, s) && StateOk(mx, q)
    requires forall x | Matches(x, f) :: Stored(s, x) <==> Stored(q, x)
    ensures var a, b := LookupFrom(s, f, None), LookupFrom(q, f, None);
            a == b || (a.Some? && b.Some? && Traded(s, q, f, a.value, b.value))
  {
    hide StateOk, LookupFrom, Stored, Matches, Ahead;
    LookupIsBest(mx, s, f);
    LookupIsBest(mx, q, f);
    var a, b := LookupFrom(s, f, None), LookupFrom(q, f, None);
    if a != b {
      if a.value.mask == b.value.mask { MatchIsUnique(mx, s, a.value, b.value, f); }
      TieOrder(mx, s, f, b.value);
      TieOrder(mx, q, f, a.value);
    }
  }

  /** `a` and `b` match, tie at the highest priority, and their sub-tables have changed places. */
  ghost predicate Traded(s: seq<Table>, q: seq<Table>, f: FlowWords, a: Rule, b: Rule) {
    && Stored(s, a) && Stored(s, b) && Stored(q, a) && Stored(q, b) && Matches(a, f) && Matches(b, f)
    && a.priority == b.priority && a.mask != b.mask && Ahead(s, a.mask, b.mask) && Ahead(q, b.mask, a.mask)
    && (forall x | Stored(s, x) && Matches(x, f) :: x.priority <= a.priority)
  }

  /** Of two tied matches the lookup takes that of the earlier sub-table. */
  lemma TieOrder(mx: Mixer, s: seq<Table>, f: FlowWords, b: Rule)
    requires StateOk(mx, s) && Stored(s, b) && Matches(b, f)
    requires var r := LookupFrom(s, f, None); r.Some? && r.value.priority == b.priority && r.value.mask != b.mask
    ensures Ahead(s, LookupFrom(s, f, None).value.mask, b.mask)
  {
    hide StateOk, LookupFrom, Stored, Matches, HeadFor, TableOk, InChains;
    var r := LookupFrom(s, f, None);
    LookupIsFirst(s, f, None);
    var i: nat :| FoundFirst(s, f, r, i);
    var j := HomeTable(mx, s, b);
    TableParts(mx, s, i);
    TableParts(mx, s, j);
    HeadIsBest(mx, s[i], f);
    HeadIsBest(mx, s[j], f);
    MaskOf(mx, s[i], r.value);
    MaskOf(mx, s[j], b);
  }

  /** Two stored rules of equal priority that match one flow are the same, if both are catch-alls or
      have the same mask. */
  lemma MatchIsUnique(mx: Mixer, s: seq<Table>, a: Rule, b: Rule, f: FlowWords)
    requires StateOk(mx, s) && Stored(s, a) && Stored(s, b) && Matches(a, f) && Matches(b, f)
    requires a.priority == b.priority
    requires (Wild(a.mask) && Wild(b.mask)) || a.mask == b.mask
    ensures a == b
  {
    hide StateOk, Stored, Matches;
    StoredOk(mx, s, a);
    StoredOk(mx, s, b);
    if Wild(a.mask) && Wild(b.mask) { WildMasks(a.mask, b.mask); }
    KeyIsUnique(a, b, f);
    Runs.IdenticalIsUnique(mx, s, a, b);
  }

  lemma WildMasks(a: Miniflow, b: Miniflow)
    requires a.Valid() && b.Valid() && Wild(a) && Wild(b)
    ensures a == b
  {
  }

  lemma StoredOk(mx: Mixer, s: seq<Table>, r: Rule)
    requires StateOk(mx, s) && Stored(s, r)
    ensures Ok(r)
  {
  }

  lemma FoundMatches(mx: Mixer, s: seq<Table>, f: FlowWords)
    requires StateOk(mx, s)
    ensures var r := LookupFrom(s, f, None); r.Some? ==> Stored(s, r.value) && Matches(r.value, f)
  {
    hide StateOk, LookupFrom, Stored, Matches;
    LookupIsBest(mx, s, f);
  }

  lemma IdenticalMatches(a: Rule, b: Rule, f: FlowWords)
    requires Identical(a, b)
    ensures Matches(a, f) == Matches(b, f)
  {
  }

  /** While the tagged sub-table is there, every stored rule but the one just inserted is a catch-all
      or has its mask. */
  lemma AnchorMask(st: State, k: Key, t: Table, x: Rule)
    requires OnlyInsertedDiffers(st) && !st.need && Stored(st.Cls(k), x) && HasTable(st.Cls(k), t.addr, t.mask)
    requires st.Dp(k).other == Some(t.addr) && !(k in st.inserted && st.inserted[k] == x)
    ensures Wild(x.mask) || x.mask == t.mask
  {
    hide Stored, Wild;
    assert Wild(x.mask) || OtherIs(st, k, x.mask);
    var u :| u in st.Cls(k) && u.addr == t.addr && u.mask == t.mask;
  }

  /** Inserting a rule leaves current every lookup that it does not match, or gets it covered. */
  lemma InsertKeepsCurrent(tg: Tagger, st: State, to: State, k: Key, rule: Rule, addr: nat, l: Look)
    requires Inv(tg, st) && Next(tg, st, Insert(k, rule, addr), to) && TablesGood(tg, to) && st.Current(l)
    ensures to.Current(l) || to.Covered(tg, l) || to.need
  {
    hide StateOk, LookupFrom, Stored, Matches, DistinctIds, Ok, HasTable, Wild, FacetsGood, Synced, PendingGood,
      OnlyInsertedDiffers;
    if l.key == k {
      assert Change(k, rule) in to.pending;
      SyncedAt(st, k);
      if !to.Covered(tg, l) && !to.need {
        assert !Matches(rule, l.flow) && !to.Untaggable(tg, Change(k, rule));
        var t :| t in to.Cls(k) && to.Dp(k).other == Some(t.addr);
        InsertKeepsOther(tg, st, to, k, rule, addr, t);
        NotInserted(st, k);
        if Wild(rule.mask) { WildHasNoTag(tg, k, rule); }
        InsertSameLookup(tg, st, to, k, rule, addr, l.flow, t);
        FoundMatches(tg.mx, st.Cls(k), l.flow);
      }
    }
  }

  lemma SyncedAt(st: State, k: Key)
    requires Synced(st) && !st.Pending(k)
    ensures st.InSync(k)
  {
  }

  lemma NotInserted(st: State, k: Key)
    requires PhaseGood(st) && !st.settling && !st.Pending(k)
    ensures k !in st.inserted
  {
  }

  lemma InsertSameLookup(tg: Tagger, st: State, to: State, k: Key, rule: Rule, addr: nat, f: FlowWords, t: Table)
    requires TablesGood(tg, st) && TablesGood(tg, to) && OnlyInsertedDiffers(st) && k !in st.inserted && !st.need
    requires Inserted(tg.mx, st.Cls(k), to.Cls(k), rule, addr) && !Matches(rule, f)
    requires !Wild(rule.mask) && !Flips(st.Cls(k), rule) && st.InSync(k)
    requires HasTable(st.Cls(k), t.addr, t.mask) && st.Dp(k).other == Some(t.addr)
    ensures LookupFrom(st.Cls(k), f, None) == LookupFrom(to.Cls(k), f, None)
  {
    hide StateOk, LookupFrom, Stored, Matches, DistinctIds, HasTable, Wild, Identical, Flips, Lifted, Traded,
      Taggable, State.InSync;
    var s, q := st.Cls(k), to.Cls(k);
    forall x | Matches(x, f) ensures Stored(s, x) <==> Stored(q, x) {
      if Identical(x, rule) { IdenticalMatches(x, rule, f); }
    }
    LookupDetermined(tg.mx, s, q, f);
    var a, b := LookupFrom(s, f, None), LookupFrom(q, f, None);
    if a != b { TradedFlips(tg, st, k, to.Cls(k), rule, f, t, a.value, b.value); }
  }

  /** Two sub-tables with tied matches change places only by an insertion that `Flips`. */
  lemma TradedFlips(tg: Tagger, st: State, k: Key, q: seq<Table>, rule: Rule, f: FlowWords, t: Table, a: Rule, b: Rule)
    requires StateOk(tg.mx, st.Cls(k)) && OnlyInsertedDiffers(st) && k !in st.inserted && !st.need && st.InSync(k)
    requires Lifted(st.Cls(k), q, rule) && Traded(st.Cls(k), q, f, a, b) && !Matches(rule, f) && !Wild(rule.mask)
    requires HasTable(st.Cls(k), t.addr, t.mask) && st.Dp(k).other == Some(t.addr)
    ensures Flips(st.Cls(k), rule)
  {
    hide StateOk, Stored, Matches, HasTable, Wild, InChains, Ahead, Lifted, Taggable;
    var s := st.Cls(k);
    AnchorMask(st, k, t, a);
    AnchorMask(st, k, t, b);
    LiftedMask(s, q, rule, a.mask, b.mask);
    TwoSubtables(st, k, a.mask, b.mask);
    TableOfRule(tg.mx, s, 0, a);
    TableOfRule(tg.mx, s, 1, b);
    TopOfCatchall(tg.mx, s, s[0], f, a);
    assert s[0] in s;
    if b.key == rule.key { SameKeyMatches(b, rule, f); }
  }

  lemma LiftedMask(s: seq<Table>, q: seq<Table>, rule: Rule, m: Miniflow, n: Miniflow)
    requires Lifted(s, q, rule) && Ahead(s, m, n) && Ahead(q, n, m)
    ensures n == rule.mask && forall t | t in s && t.mask == m :: rule.priority > t.maxPriority
  {
    hide Ahead;
  }

  lemma TwoSubtables(st: State, k: Key, m: Miniflow, n: Miniflow)
    requires st.InSync(k) && st.Dp(k).other.Some? && Ahead(st.Cls(k), m, n)
    ensures var s := st.Cls(k); |s| == 2 && s[0].mask == m && s[1].mask == n
  {
    hide Wild;
  }

  lemma TableOfRule(mx: Mixer, s: seq<Table>, i: nat, r: Rule)
    requires StateOk(mx, s) && i < |s| && Stored(s, r) && r.mask == s[i].mask
    ensures InChains(s[i].chains, r) && r.priority <= s[i].maxPriority && TableOk(mx, s[i])
  {
    hide StateOk, TableOk, InChains;
    var j := HomeTable(mx, s, r);
    SameTable(mx, s, i, j);
    TableParts(mx, s, i);
    TableBound(mx, s[i], r);
  }

  /** A catch-all rule that no match exceeds has the highest priority of its sub-table. */
  lemma TopOfCatchall(mx: Mixer, s: seq<Table>, t: Table, f: FlowWords, a: Rule)
    requires t in s && TableOk(mx, t) && Wild(t.mask)
    requires forall x | Stored(s, x) && Matches(x, f) :: x.priority <= a.priority
    ensures t.maxPriority <= a.priority
  {
    hide TableOk, Matches, HeadFor, Wild, InChains;
    CatchallHead(mx, t, f);
    HeadIsBest(mx, t, f);
    assert Stored(s, HeadFor(t.chains, f).value);
  }

  lemma SameKeyMatches(a: Rule, b: Rule, f: FlowWords)
    requires a.key == b.key && a.mask == b.mask
    ensures Matches(a, f) == Matches(b, f)
  {
  }

  lemma RemoveKeepsCurrent(tg: Tagger, st: State, to: State, k: Key, rule: Rule, l: Look)
    requires Inv(tg, st) && Next(tg, st, Remove(k, rule), to) && TablesGood(tg, to) && st.Current(l)
    ensures to.Current(l) || to.Covered(tg, l) || to.need
  {
    hide StateOk, LookupFrom, Stored, Matches, DistinctIds, Ok, HasTable, Wild, FacetsGood, Synced, PendingGood,
      OnlyInsertedDiffers;
    if l.key == k {
      assert Change(k, rule) in to.pending;
      if !to.Covered(tg, l) && !to.need {
        assert !Matches(rule, l.flow) && !to.Untaggable(tg, Change(k, rule));
        var t :| t in to.Cls(k) && to.Dp(k).other == Some(t.addr);
        assert k in st.inserted ==> Change(k, st.inserted[k]) in to.pending;
        RemoveSameLookup(tg, st, to, k, rule, l.flow, t);
      }
    }
  }

  lemma RemoveSameLookup(tg: Tagger, st: State, to: State, k: Key, rule: Rule, f: FlowWords, t: Table)
    requires TablesGood(tg, st) && TablesGood(tg, to) && OnlyInsertedDiffers(st) && !st.need
    requires Removed(tg.mx, st.Cls(k), to.Cls(k), rule) && !Matches(rule, f) && Stored(st.Cls(k), rule)
    requires k in st.inserted ==> !Matches(st.inserted[k], f)
    requires t in to.Cls(k) && st.Dp(k).other == Some(t.addr)
    ensures LookupFrom(st.Cls(k), f, None) == LookupFrom(to.Cls(k), f, None)
  {
    hide StateOk, LookupFrom, Stored, Matches, DistinctIds, HasTable, Wild, Sunk, Traded;
    LookupDetermined(tg.mx, st.Cls(k), to.Cls(k), f);
    var a, b := LookupFrom(st.Cls(k), f, None), LookupFrom(to.Cls(k), f, None);
    if a != b { NotTraded(tg, st, k, to.Cls(k), rule, f, t, a.value, b.value); }
  }

  /** Removal of a rule that does not match never makes two sub-tables with tied matches change
      places. */
  lemma NotTraded(tg: Tagger, st: State, k: Key, q: seq<Table>, rule: Rule, f: FlowWords, t: Table, a: Rule, b: Rule)
    requires OnlyInsertedDiffers(st) && !st.need && StateOk(tg.mx, st.Cls(k)) && Stored(st.Cls(k), rule)
    requires Removed(tg.mx, st.Cls(k), q, rule) && !Matches(rule, f)
    requires (k in st.inserted ==> !Matches(st.inserted[k], f)) && t in q && st.Dp(k).other == Some(t.addr)
    ensures !Traded(st.Cls(k), q, f, a, b)
  {
    hide StateOk, Stored, Matches, HasTable, Wild, InChains, Ahead, Sunk, TableOk;
    StoredOk(tg.mx, st.Cls(k), rule);
    if Wild(rule.mask) { WildMatches(rule, f); }
    if Traded(st.Cls(k), q, f, a, b) {
      AnchorMask(st, k, t, a);
      AnchorMask(st, k, t, b);
      SunkMask(st.Cls(k), q, rule.mask, a.mask, b.mask);
      var i := HomeTable(tg.mx, q, a);
      var j := HomeTable(tg.mx, q, b);
      TableOfRule(tg.mx, q, i, a);
      assert q[i] in q && q[j] in q;
      TableOfRule(tg.mx, q, j, b);
      TopOfCatchall(tg.mx, q, q[j], f, a);
    }
  }

  lemma SunkMask(s: seq<Table>, q: seq<Table>, mask: Miniflow, m: Miniflow, n: Miniflow)
    requires Sunk(s, q, mask) && Ahead(s, m, n) && Ahead(q, n, m)
    ensures m == mask && forall t, u | t in q && t.mask == m && u in q && u.mask == n :: t.maxPriority < u.maxPriority
  {
    hide Ahead;
  }

  lemma ModifyKeepsCurrent(tg: Tagger, st: State, to: State, k: Key, rule: Rule, l: Look)
    requires TablesGood(tg, st) && Next(tg, st, Modify(k, rule), to) && st.Current(l)
    ensures to.Current(l) || to.Covered(tg, l)
  {
    hide StateOk, LookupFrom, Stored, Matches, Ok, Overlap, HasTable;
    if l.key == k {
      FoundMatches(tg.mx, st.Cls(k), l.flow);
      if l.found.Some? && l.found.value.id == rule.id {
        assert Change(k, rule) in to.pending;
      }
    }
  }

  // ---- the tables stay good ----

  lemma InsertTables(tg: Tagger, st: State, to: State, k: Key, rule: Rule, addr: nat)
    requires TablesGood(tg, st) && Next(tg, st, Insert(k, rule, addr), to)
    ensures TablesGood(tg, to)
  {
    hide StateOk, Stored, Ok, HasTable, Identical, Wild;
    forall j: Key ensures StateOk(tg.mx, to.Cls(j)) && DistinctIds(to.Cls(j)) {
      if j == k {
        assert DistinctIds(st.Cls(k));
      } else {
        assert to.Cls(j) == st.Cls(j);
      }
    }
  }

  lemma RemoveTables(tg: Tagger, st: State, to: State, k: Key, rule: Rule)
    requires TablesGood(tg, st) && Next(tg, st, Remove(k, rule), to)
    ensures TablesGood(tg, to)
  {
    hide StateOk, Stored, HasTable, Wild;
    forall j: Key ensures StateOk(tg.mx, to.Cls(j)) && DistinctIds(to.Cls(j)) {
      if j == k { assert DistinctIds(st.Cls(k)); } else { assert to.Cls(j) == st.Cls(j); }
    }
  }

  // ---- every step keeps the invariant ----

  /** A sub-table that the pointers reach was there before the change, with the same mask. */
  lemma InsertKeepsOther(tg: Tagger, st: State, to: State, k: Key, rule: Rule, addr: nat, t: Table)
    requires Inv(tg, st) && Next(tg, st, Insert(k, rule, addr), to)
    requires t in to.Cls(k) && to.Dp(k).other == Some(t.addr)
    ensures exists u :: u in st.Cls(k) && u.addr == t.addr && u.mask == t.mask
  {
    hide StateOk, Stored, Taggable, DistinctIds, FacetsGood, PendingGood, OnlyInsertedDiffers, PhaseGood;
    assert st.InSync(k);
    var i := TaggableOnlyOther(tg.mx, st.Cls(k));
    assert st.Cls(k)[i] in st.Cls(k);
  }

  lemma PendingGrows(tg: Tagger, st: State, to: State, c: Change)
    requires to.pending == st.pending + [c] && forall k: Key | st.Pending(k) && to.Anchored(k) :: st.Anchored(k)
    ensures forall p :: p in to.pending <==> p in st.pending || p == c
    ensures forall k: Key :: to.Pending(k) <==> st.Pending(k) || k == c.key
    ensures forall l :: st.Covered(tg, l) ==> to.Covered(tg, l)
  {
  }

  lemma InsertFacets(tg: Tagger, st: State, to: State, k: Key, rule: Rule, addr: nat)
    requires Inv(tg, st) && Next(tg, st, Insert(k, rule, addr), to) && TablesGood(tg, to)
    ensures FacetsGood(tg, to)
  {
    hide TablesGood, Inserted, Admissible, SameActsBut, State.Current, State.Covered, State.Flagged, FlowTag, Covers,
      PendingGood, OnlyInsertedDiffers, Synced;
    PendingGrows(tg, st, to, Change(k, rule));
    forall id | id in to.facets ensures FacetCurrent(tg, to, to.facets[id]) && FacetTagged(tg, to, to.facets[id]) {
      var f := st.facets[id];
      FlagSame(st, to, f);
      forall l | l in f.trace ensures to.Current(l) || to.Flagged(f) || to.Covered(tg, l) {
        if st.Current(l) { InsertKeepsCurrent(tg, st, to, k, rule, addr, l); }
        if to.need { FlagByNeed(to, f); }
      }
      forall l | l in f.trace && 0 < l.key.table < N_TABLES ensures to.need || Held(tg, to, f, l) {
        forall t | t in to.Cls(l.key) && to.Dp(l.key).other == Some(t.addr)
          ensures to.need || Covers(f.tags, FlowTag(tg, l.key, l.flow, t.mask))
        {
          if l.key == k { InsertKeepsOther(tg, st, to, k, rule, addr, t); }
        }
      }
    }
  }

  lemma FlagByNeed(st: State, f: Facet)
    requires st.need
    ensures st.Flagged(f)
  {
  }

  lemma FlagSame(st: State, to: State, f: Facet)
    requires to.need == st.need && to.tagSet == st.tagSet
    ensures to.Flagged(f) == st.Flagged(f)
  {
  }

  lemma InsertOtherKept(tg: Tagger, st: State, to: State, k: Key, rule: Rule, addr: nat, j: Key, m: Miniflow)
    requires Inv(tg, st) && Next(tg, st, Insert(k, rule, addr), to) && OtherIs(st, j, m)
    ensures OtherIs(to, j, m)
  {
    hide Inv, Inserted, Admissible, SameActsBut;
    forall t | t in to.Cls(j) && to.Dp(j).other == Some(t.addr) ensures t.mask == m {
      if j == k { InsertKeepsOther(tg, st, to, k, rule, addr, t); }
    }
  }

  lemma InsertOnlyDiffers(tg: Tagger, st: State, to: State, k: Key, rule: Rule, addr: nat)
    requires Inv(tg, st) && Next(tg, st, Insert(k, rule, addr), to)
    requires forall j: Key, m | OtherIs(st, j, m) :: OtherIs(to, j, m)
    ensures OnlyInsertedDiffers(to)
  {
    hide TablesGood, Synced, FacetsGood, PendingGood, RuleTag, Stored, Wild, StateOk, Admissible,
      SameActsBut, HasTable, OtherIs, Lifted, Flips, Identical;
    forall j: Key, x | Stored(to.Cls(j), x)
      ensures to.need || Wild(x.mask) || (j in to.inserted && to.inserted[j] == x) || OtherIs(to, j, x.mask)
    {
      if j == k {
        assert x != rule ==> Stored(st.Cls(k), x);
      } else {
        assert Stored(st.Cls(j), x);
      }
    }
  }

  lemma InsertRest(tg: Tagger, st: State, to: State, k: Key, rule: Rule, addr: nat)
    requires Inv(tg, st) && Next(tg, st, Insert(k, rule, addr), to)
    ensures Synced(to) && PendingGood(tg, to) && OnlyInsertedDiffers(to) && PhaseGood(to)
  {
    hide TablesGood, FacetsGood, OnlyInsertedDiffers, State.Current, State.Covered, State.Flagged,
      RuleTag, Stored, Taggable, StateOk, Admissible, SameActsBut, HasTable, OtherIs, Lifted, Flips, Identical;
    forall j: Key, m | OtherIs(st, j, m) ensures OtherIs(to, j, m) { InsertOtherKept(tg, st, to, k, rule, addr, j, m); }
    InsertOnlyDiffers(tg, st, to, k, rule, addr);
    PendingGrows(tg, st, to, Change(k, rule));
  }

  lemma RemoveFacets(tg: Tagger, st: State, to: State, k: Key, rule: Rule)
    requires Inv(tg, st) && Next(tg, st, Remove(k, rule), to) && TablesGood(tg, to)
    ensures FacetsGood(tg, to)
  {
    hide TablesGood, State.Current, State.Covered, State.Flagged, FlowTag, Covers, PendingGood, OnlyInsertedDiffers,
      Synced, StateOk, Stored;
    PendingGrows(tg, st, to, Change(k, rule));
    forall id | id in to.facets ensures FacetCurrent(tg, to, to.facets[id]) && FacetTagged(tg, to, to.facets[id]) {
      var f := st.facets[id];
      FlagSame(st, to, f);
      forall l | l in f.trace ensures to.Current(l) || to.Flagged(f) || to.Covered(tg, l) {
        if st.Current(l) { RemoveKeepsCurrent(tg, st, to, k, rule, l); }
        if to.need { FlagByNeed(to, f); }
      }
      forall l | l in f.trace && 0 < l.key.table < N_TABLES ensures to.need || Held(tg, to, f, l) {
        forall t | t in to.Cls(l.key) && to.Dp(l.key).other == Some(t.addr)
          ensures to.need || Covers(f.tags, FlowTag(tg, l.key, l.flow, t.mask))
        {
          if l.key == k { assert HasTable(st.Cls(k), t.addr, t.mask); }
        }
      }
    }
  }

  lemma WildHasNoTag(tg: Tagger, k: Key, r: Rule)
    requires Wild(r.mask)
    ensures RuleTag(tg, k, r) == 0
  {
  }

  lemma RemoveKeepsOther(tg: Tagger, st: State, to: State, k: Key, rule: Rule, j: Key, m: Miniflow)
    requires Next(tg, st, Remove(k, rule), to) && OtherIs(st, j, m)
    ensures OtherIs(to, j, m)
  {
  }

  lemma RemoveAnchored(tg: Tagger, st: State, to: State, k: Key, rule: Rule)
    requires Next(tg, st, Remove(k, rule), to)
    ensures forall j: Key | to.Anchored(j) :: st.Anchored(j)
  {
    hide Stored, StateOk;
    forall j: Key | to.Anchored(j) ensures st.Anchored(j) {
      var t :| t in to.Cls(j) && to.Dp(j).other == Some(t.addr);
      if j == k { assert HasTable(st.Cls(k), t.addr, t.mask); }
    }
  }

  lemma RemoveRest(tg: Tagger, st: State, to: State, k: Key, rule: Rule)
    requires Inv(tg, st) && Next(tg, st, Remove(k, rule), to)
    ensures Synced(to) && PendingGood(tg, to) && OnlyInsertedDiffers(to) && PhaseGood(to)
  {
    hide TablesGood, FacetsGood, State.Current, State.Covered, State.Flagged, RuleTag, Stored, Taggable, Wild,
      StateOk, OtherIs, HasTable, State.Anchored;
    RemoveAnchored(tg, st, to, k, rule);
    PendingGrows(tg, st, to, Change(k, rule));
    forall j: Key, m | OtherIs(st, j, m) ensures OtherIs(to, j, m) { RemoveKeepsOther(tg, st, to, k, rule, j, m); }
    if Wild(rule.mask) { WildHasNoTag(tg, k, rule); }
    forall p | p in to.pending
      ensures to.need || RuleTag(tg, p.key, p.rule)
              == 0 || Stored(to.Cls(p.key), p.rule) || OtherIs(to, p.key, p.rule.mask)
    {
    }
  }

  lemma ModifyKeepsInv(tg: Tagger, st: State, to: State, k: Key, rule: Rule)
    requires Inv(tg, st) && Next(tg, st, Modify(k, rule), to)
    ensures Inv(tg, to)
  {
    hide TablesGood, Synced, PendingGood, OnlyInsertedDiffers, FacetCurrent, FacetTagged, PhaseGood;
    ModifyRest(tg, st, to, k, rule);
    forall id | id in to.facets ensures FacetCurrent(tg, to, to.facets[id]) && FacetTagged(tg, to, to.facets[id]) {
      ModifyFacet(tg, st, to, k, rule, st.facets[id]);
    }
  }

  lemma ModifyFacet(tg: Tagger, st: State, to: State, k: Key, rule: Rule, f: Facet)
    requires Inv(tg, st) && Next(tg, st, Modify(k, rule), to) && FacetCurrent(tg, st, f) && FacetTagged(tg, st, f)
    ensures FacetCurrent(tg, to, f) && FacetTagged(tg, to, f)
  {
    hide State.Current, State.Covered, State.Flagged, FlowTag, Covers, Stored, Taggable, SameActsBut, TablesGood,
      Synced, PendingGood, OnlyInsertedDiffers, PhaseGood;
    PendingGrows(tg, st, to, Change(k, rule));
    FlagSame(st, to, f);
    forall l | l in f.trace ensures to.Current(l) || to.Flagged(f) || to.Covered(tg, l) {
      if st.Current(l) { ModifyKeepsCurrent(tg, st, to, k, rule, l); }
    }
    assert forall l | l in f.trace :: Held(tg, st, f, l) ==> Held(tg, to, f, l);
  }

  lemma ModifyRest(tg: Tagger, st: State, to: State, k: Key, rule: Rule)
    requires Inv(tg, st) && Next(tg, st, Modify(k, rule), to)
    ensures TablesGood(tg, to) && Synced(to) && PendingGood(tg, to) && OnlyInsertedDiffers(to) && PhaseGood(to)
  {
    hide State.Current, State.Covered, State.Flagged, RuleTag, Stored, Taggable, Wild, StateOk, DistinctIds,
      SameActsBut, FacetsGood, State.Anchored, OtherIs;
    forall j: Key ensures to.Anchored(j) == st.Anchored(j) { AnchoredSame(st, to, j); }
    PendingGrows(tg, st, to, Change(k, rule));
    assert TablesGood(tg, to) by { forall j: Key ensures to.Cls(j) == st.Cls(j) {} }
    forall j: Key, m ensures OtherIs(st, j, m) == OtherIs(to, j, m) { OtherSame(st, to, j, m); }
  }

  /** The heart of the matter: when `rule_invalidate` adds the tag of a rule, every facet with a
      lookup that the rule matches holds that tag. */
  lemma InvalidatedTagIsHeld(tg: Tagger, st: State, f: Facet, l: Look)
    requires Inv(tg, st) && st.pending != [] && !Invalidated(tg, st).need
    requires FacetTagged(tg, st, f) && l in f.trace
    requires l.key == st.pending[0].key && Matches(st.pending[0].rule, l.flow) && l.key.table < N_TABLES
    ensures Covers(f.tags, RuleTag(tg, l.key, st.pending[0].rule))
  {
    hide StateOk, Stored, Taggable, Matches, Covers, FlowTag, DistinctIds, FacetsGood, OnlyInsertedDiffers, PhaseGood,
      Wild;
    var p := st.pending[0];
    var s := st.Cls(p.key);
    assert p in st.pending && st.InSync(p.key);
    var i := TaggableOnlyOther(tg.mx, s);
    assert s[i] in s;
    assert Held(tg, st, f, l);
    MatchSharesTag(tg, p.key, p.rule, l.flow);
    if Stored(s, p.rule) {
      TaggableRule(tg.mx, s, s[i], p.rule);
      if Wild(p.rule.mask) { WildHasNoTag(tg, p.key, p.rule); }
    }
    assert p.rule.mask == s[i].mask;
  }

  lemma InvalidateFields(tg: Tagger, st: State)
    requires st.pending != []
    ensures var to, k := Invalidated(tg, st), st.pending[0].key;
            && to.cls == st.cls && to.acts == st.acts && to.facets == st.facets && to.pending == st.pending[1..]
            && (forall j: Key | j != k :: to.Dp(j) == st.Dp(j)) && to.InSync(k)
            && (st.need ==> to.need) && st.tagSet <= to.tagSet
            && to.settling == (to.pending != []) && to.inserted == (if to.pending == [] then map[] else st.inserted)
    ensures !Invalidated(tg, st).need ==>
              && Invalidated(tg, st).Dp(st.pending[0].key) == st.Dp(st.pending[0].key)
              && Invalidated(tg, st).tagSet == st.tagSet + {RuleTag(tg, st.pending[0].key, st.pending[0].rule)}
              && st.InSync(st.pending[0].key)
  {
    hide Taggable, RuleTag;
  }

  /** When invalidating a change adds just the tag of its rule: when no full revalidation is due, the
      rule has a tag, the pointers are up to date, and the table has at most two sub-tables of which
      exactly one is not a catch-all. In all other cases every facet is revalidated. */
  lemma InvalidationIsLocalIff(tg: Tagger, st: State)
    requires st.pending != []
    ensures var to, p := Invalidated(tg, st), st.pending[0];
            var s := st.Cls(p.key);
            && (!to.need <==> && !st.need && RuleTag(tg, p.key, p.rule) != 0 && st.InSync(p.key)
                              && |s| <= 2 && exists i: nat :: OnlyOther(s, i))
            && (!to.need ==> to.tagSet == st.tagSet + {RuleTag(tg, p.key, p.rule)})
  {
    hide Taggable, RuleTag, Wild;
    var s := st.Cls(st.pending[0].key);
    if Taggable(s).other.Some? { TaggableIff(s, Taggable(s).other.value); }
    if i: nat :| OnlyOther(s, i) { TaggableIff(s, s[i].addr); }
  }

  lemma PendingShrinks(tg: Tagger, st: State, to: State)
    requires st.pending != [] && to.pending == st.pending[1..]
    ensures forall p :: p in st.pending <==> p == st.pending[0] || p in to.pending
    ensures forall k: Key :: st.Pending(k) ==> k == st.pending[0].key || to.Pending(k)
    ensures forall l :: st.Covered(tg, l) ==>
              to.Covered(tg, l) || st.Anchored(l.key) != to.Anchored(l.key)
              || (var p := st.pending[0]; p.key == l.key && (Matches(p.rule, l.flow) || st.Untaggable(tg, p)))
  {
  }

  lemma InvalidateFacets(tg: Tagger, st: State)
    requires Inv(tg, st) && st.pending != [] && st.pending[0].key.table < N_TABLES && Synced(Invalidated(tg, st))
    ensures FacetsGood(tg, Invalidated(tg, st))
  {
    hide Invalidated, State.InSync, TablesGood, FlowTag, RuleTag, Covers, PendingGood, OnlyInsertedDiffers, Matches,
      LookupFrom, State.Pending, State.Anchored, State.Covered, State.Current, State.Flagged;
    var to, p := Invalidated(tg, st), st.pending[0];
    InvalidateFields(tg, st);
    PendingShrinks(tg, st, to);
    forall id | id in to.facets ensures FacetCurrent(tg, to, to.facets[id]) && FacetTagged(tg, to, to.facets[id]) {
      var f := st.facets[id];
      FlagKept(st, to, f);
      forall l | l in f.trace ensures to.Current(l) || to.Flagged(f) || to.Covered(tg, l) {
        CurrentSame(st, to, l);
        if to.need {
          FlagByNeed(to, f);
        } else {
          AnchoredSame(st, to, l.key);
          TagMeansAnchored(tg, st);
          if p.key == l.key && Matches(p.rule, l.flow) {
            InvalidatedTagIsHeld(tg, st, f, l);
            FlagByTag(to, f, RuleTag(tg, p.key, p.rule));
          }
        }
      }
      forall l | l in f.trace && 0 < l.key.table < N_TABLES
        ensures to.need || (to.settling && !to.InSync(l.key)) || Held(tg, to, f, l)
      {
        if !to.need {
          SyncSame(st, to, l.key);
          if to.pending == [] { NothingPending(to, l.key); }
        }
      }
    }
  }

  lemma OtherSame(st: State, to: State, k: Key, m: Miniflow)
    requires to.cls == st.cls && to.Dp(k) == st.Dp(k)
    ensures OtherIs(to, k, m) == OtherIs(st, k, m)
  {
    assert to.Cls(k) == st.Cls(k);
  }

  lemma AnchoredSame(st: State, to: State, k: Key)
    requires to.cls == st.cls && to.Dp(k) == st.Dp(k)
    ensures to.Anchored(k) == st.Anchored(k)
  {
    assert to.Cls(k) == st.Cls(k);
  }

  /** Only the tag is invalidated just while the tagged sub-table is there. */
  lemma TagMeansAnchored(tg: Tagger, st: State)
    requires TablesGood(tg, st) && st.pending != [] && !Invalidated(tg, st).need
    ensures !st.Untaggable(tg, st.pending[0])
  {
    hide StateOk, Taggable, DistinctIds, RuleTag;
    var s := st.Cls(st.pending[0].key);
    var i := TaggableOnlyOther(tg.mx, s);
    assert s[i] in s;
  }

  lemma NothingPending(st: State, k: Key)
    requires st.pending == [] && Synced(st)
    ensures st.InSync(k)
  {
  }

  lemma SyncSame(st: State, to: State, k: Key)
    requires to.cls == st.cls && to.Dp(k) == st.Dp(k)
    ensures to.InSync(k) == st.InSync(k)
  {
    assert to.Cls(k) == st.Cls(k);
  }

  lemma CurrentSame(st: State, to: State, l: Look)
    requires to.cls == st.cls && to.acts == st.acts
    ensures to.Current(l) == st.Current(l)
  {
  }

  lemma FlagKept(st: State, to: State, f: Facet)
    requires (st.need ==> to.need) && st.tagSet <= to.tagSet
    ensures st.Flagged(f) ==> to.Flagged(f)
  {
    hide Covers;
  }

  lemma FlagByTag(st: State, f: Facet, tag: Word)
    requires tag in st.tagSet && Covers(f.tags, tag)
    ensures st.Flagged(f)
  {
    hide Covers;
  }

  lemma InvalidateSynced(tg: Tagger, st: State)
    requires Inv(tg, st) && st.pending != []
    ensures Synced(Invalidated(tg, st)) && PhaseGood(Invalidated(tg, st))
  {
    hide Invalidated, State.InSync, TablesGood, FacetsGood, PendingGood, OnlyInsertedDiffers, State.Pending;
    var to := Invalidated(tg, st);
    InvalidateFields(tg, st);
    PendingShrinks(tg, st, to);
    forall k: Key | !to.Pending(k) ensures to.InSync(k) {
      if k != st.pending[0].key { SyncSame(st, to, k); }
    }
  }

  lemma InvalidateRest(tg: Tagger, st: State)
    requires Inv(tg, st) && st.pending != [] && Synced(Invalidated(tg, st))
    ensures PendingGood(tg, Invalidated(tg, st)) && OnlyInsertedDiffers(Invalidated(tg, st))
  {
    hide Invalidated, State.InSync, FacetsGood, RuleTag, Stored, Wild, StateOk, DistinctIds, State.Pending;
    var to := Invalidated(tg, st);
    InvalidateFields(tg, st);
    PendingShrinks(tg, st, to);
    if !to.need {
      forall k: Key ensures to.Cls(k) == st.Cls(k) && to.Dp(k) == st.Dp(k) {}
      forall k: Key, m | OtherIs(st, k, m) ensures OtherIs(to, k, m) {}
      forall p | p in to.pending
        ensures RuleTag(tg, p.key, p.rule) == 0 || Stored(to.Cls(p.key), p.rule) || OtherIs(to, p.key, p.rule.mask)
      {
        assert OtherIs(st, p.key, p.rule.mask) ==> OtherIs(to, p.key, p.rule.mask);
      }
      forall k: Key, x | Stored(to.Cls(k), x)
        ensures Wild(x.mask) || (k in to.inserted && to.inserted[k] == x) || OtherIs(to, k, x.mask)
      {
        if to.pending == [] {
          NothingPending(to, k);
          SyncedOther(tg, to, k, x);
        } else {
          assert OtherIs(st, k, x.mask) ==> OtherIs(to, k, x.mask);
        }
      }
    }
  }

  lemma SyncedOther(tg: Tagger, st: State, k: Key, x: Rule)
    requires StateOk(tg.mx, st.Cls(k)) && st.InSync(k) && Stored(st.Cls(k), x)
    ensures Wild(x.mask) || OtherIs(st, k, x.mask)
  {
    hide StateOk, Stored, Taggable, Wild;
    forall t | t in st.Cls(k) && st.Dp(k).other == Some(t.addr) ensures t.mask == x.mask || Wild(x.mask) {
      TaggableRule(tg.mx, st.Cls(k), t, x);
    }
  }

  // ---- translations ----

  /** A translation made now is current, and holds its tags wherever the pointers are in sync. */
  lemma FreshIsGood(tg: Tagger, st: State, f: Facet)
    requires Inv(tg, st) && Fresh(tg, st, f)
    ensures FacetCurrent(tg, st, f)
    ensures forall l | l in f.trace && 0 < l.key.table < N_TABLES && st.InSync(l.key) :: Held(tg, st, f, l)
  {
    hide State.InSync, StateOk, LookupFrom, DistinctIds, FacetsGood, PendingGood, OnlyInsertedDiffers, Covers,
      RuleTag, Tagged;
    forall l | l in f.trace && 0 < l.key.table < N_TABLES && st.InSync(l.key) ensures Held(tg, st, f, l) {
      FoundMatches(tg.mx, st.Cls(l.key), l.flow);
      FreshHolds(tg, st, f, l);
    }
  }

  lemma FreshHolds(tg: Tagger, st: State, f: Facet, l: Look)
    requires StateOk(tg.mx, st.Cls(l.key)) && st.InSync(l.key) && 0 < l.key.table < N_TABLES
    requires l.found.Some? ==> Stored(st.Cls(l.key), l.found.value) && Matches(l.found.value, l.flow)
    requires Tagged(tg, st.Dp(l.key), st.Cls(l.key), l, f.tags)
    ensures Held(tg, st, f, l)
  {
    hide StateOk, Stored, Taggable, Matches, Covers, FlowTag, Wild;
    forall t | t in st.Cls(l.key) && st.Dp(l.key).other == Some(t.addr)
      ensures Covers(f.tags, FlowTag(tg, l.key, l.flow, t.mask))
    {
      if l.found.Some? && RuleTag(tg, l.key, l.found.value) != 0 {
        var r := l.found.value;
        TaggableRule(tg.mx, st.Cls(l.key), t, r);
        if Wild(r.mask) { WildHasNoTag(tg, l.key, r); }
        MatchSharesTag(tg, l.key, r, l.flow);
      }
    }
  }

  lemma InstallKeepsInv(tg: Tagger, st: State, to: State, id: nat, f: Facet)
    requires Inv(tg, st) && Next(tg, st, Install(id, f), to)
    ensures Inv(tg, to)
  {
    hide State.Current, State.Covered, State.Flagged, State.InSync, Fresh, State.Pending, TablesGood, PendingGood,
      OnlyInsertedDiffers, Held;
    FreshIsGood(tg, st, f);
    SameButPhase(tg, st, to);
    RestSame(tg, st, to);
    forall i | i in to.facets ensures FacetCurrent(tg, to, to.facets[i]) && FacetTagged(tg, to, to.facets[i]) {
      var g := to.facets[i];
      assert FacetCurrent(tg, st, g);
      forall l | l in g.trace && 0 < l.key.table < N_TABLES
        ensures to.need || (to.settling && !to.InSync(l.key)) || Held(tg, to, g, l)
      {
        HeldSame(tg, st, to, g, l);
        if to.pending == [] { NothingPending(to, l.key); }
      }
    }
  }

  lemma SameButPhase(tg: Tagger, st: State, to: State)
    requires to == st.(facets := to.facets, settling := to.settling, need := to.need, tagSet := to.tagSet)
    ensures forall k: Key ::
             && to.Cls(k) == st.Cls(k) && to.Dp(k) == st.Dp(k)
             && to.InSync(k) == st.InSync(k) && to.Pending(k) == st.Pending(k)
    ensures forall l :: to.Current(l) == st.Current(l) && to.Covered(tg, l) == st.Covered(tg, l)
    ensures to.need == st.need && to.tagSet == st.tagSet ==> forall f :: to.Flagged(f) == st.Flagged(f)
  {
  }

  /** A change to the facets alone leaves the rest of the invariant. */
  lemma RestSame(tg: Tagger, st: State, to: State)
    requires TablesGood(tg, st) && Synced(st) && PendingGood(tg, st) && OnlyInsertedDiffers(st)
    requires to == st.(facets := to.facets, settling := to.settling)
    ensures TablesGood(tg, to) && Synced(to) && PendingGood(tg, to) && OnlyInsertedDiffers(to)
  {
    hide State.Current, State.Covered, State.Flagged, State.InSync, RuleTag, Stored, Wild, StateOk, DistinctIds,
      State.Pending;
    SameButPhase(tg, st, to);
    assert forall k: Key, m :: OtherIs(st, k, m) == OtherIs(to, k, m);
  }

  lemma HeldSame(tg: Tagger, st: State, to: State, f: Facet, l: Look)
    requires to == st.(facets := to.facets, settling := to.settling)
    ensures Held(tg, to, f, l) == Held(tg, st, f, l)
  {
    hide FlowTag, Covers;
  }

  lemma DropFacet(tg: Tagger, st: State, to: State, f: Facet)
    requires FacetCurrent(tg, st, f) && FacetTagged(tg, st, f) && to == st.(facets := to.facets)
    ensures FacetCurrent(tg, to, f) && FacetTagged(tg, to, f)
  {
    hide State.Current, State.Covered, State.Flagged, State.InSync, Held;
    SameButPhase(tg, st, to);
    forall l | l in f.trace ensures Held(tg, to, f, l) == Held(tg, st, f, l) { HeldSame(tg, st, to, f, l); }
  }

  lemma DropKeepsInv(tg: Tagger, st: State, to: State, id: nat)
    requires Inv(tg, st) && Next(tg, st, Drop(id), to)
    ensures Inv(tg, to)
  {
    hide TablesGood, Synced, PendingGood, OnlyInsertedDiffers, FacetCurrent, FacetTagged;
    RestSame(tg, st, to);
    forall i | i in to.facets ensures FacetCurrent(tg, to, to.facets[i]) && FacetTagged(tg, to, to.facets[i]) {
      DropFacet(tg, st, to, st.facets[i]);
    }
  }

  lemma RevalidateFacets(tg: Tagger, st: State, to: State)
    requires Inv(tg, st) && Next(tg, st, RevalidateAll, to)
    ensures FacetsGood(tg, to)
  {
    hide State.Current, State.Covered, State.InSync, FlowTag, RuleTag, Covers, Stored, Wild, TablesGood, PendingGood,
      OnlyInsertedDiffers, Fresh, State.Pending;
    SameButPhase(tg, st, to);
    forall i | i in to.facets ensures FacetCurrent(tg, to, to.facets[i]) && FacetTagged(tg, to, to.facets[i]) {
      var g := to.facets[i];
      if Fresh(tg, st, g) { FreshIsGood(tg, st, g); }
      forall l | l in g.trace ensures to.Current(l) {
        NoneCovered(tg, st, l);
        if Fresh(tg, st, g) { FreshIsCurrent(tg, st, g, l); }
      }
      forall l | l in g.trace && 0 < l.key.table < N_TABLES ensures Held(tg, to, g, l) {
        NothingPending(st, l.key);
        assert Held(tg, st, g, l) ==> Held(tg, to, g, l);
      }
    }
  }

  lemma NoneCovered(tg: Tagger, st: State, l: Look)
    requires st.pending == []
    ensures !st.Covered(tg, l)
  {
    hide Matches;
  }

  lemma FreshIsCurrent(tg: Tagger, st: State, f: Facet, l: Look)
    requires Fresh(tg, st, f) && l in f.trace
    ensures st.Current(l)
  {
    hide State.Current, Tagged;
  }

  lemma RevalidateRest(tg: Tagger, st: State, to: State)
    requires Inv(tg, st) && Next(tg, st, RevalidateAll, to)
    ensures TablesGood(tg, to) && Synced(to) && PendingGood(tg, to) && OnlyInsertedDiffers(to) && PhaseGood(to)
  {
    hide State.Current, State.Covered, State.Flagged, State.InSync, RuleTag, Stored, Wild, StateOk, DistinctIds,
      Fresh, FacetsGood, State.Pending;
    SameButPhase(tg, st, to);
    forall k: Key, x | Stored(to.Cls(k), x) ensures Wild(x.mask) || OtherIs(to, k, x.mask) {
      NothingPending(to, k);
      SyncedOther(tg, to, k, x);
    }
  }

  // ---- whole runs ----

  ghost const START: State := State(map[], map[], map[], false, {}, map[], [], map[], false)

  lemma StartIsGood(tg: Tagger)
    ensures Inv(tg, START)
  {
  }

  lemma InsertKeepsInv(tg: Tagger, st: State, to: State, k: Key, rule: Rule, addr: nat)
    requires Inv(tg, st) && Next(tg, st, Insert(k, rule, addr), to)
    ensures Inv(tg, to)
  {
    hide Next, TablesGood, Synced, FacetsGood, PendingGood, OnlyInsertedDiffers, PhaseGood;
    InsertTables(tg, st, to, k, rule, addr);
    InsertFacets(tg, st, to, k, rule, addr);
    InsertRest(tg, st, to, k, rule, addr);
  }

  lemma RemoveKeepsInv(tg: Tagger, st: State, to: State, k: Key, rule: Rule)
    requires Inv(tg, st) && Next(tg, st, Remove(k, rule), to)
    ensures Inv(tg, to)
  {
    hide Next, TablesGood, Synced, FacetsGood, PendingGood, OnlyInsertedDiffers, PhaseGood;
    RemoveTables(tg, st, to, k, rule);
    RemoveFacets(tg, st, to, k, rule);
    RemoveRest(tg, st, to, k, rule);
  }

  lemma InvalidateKeepsInv(tg: Tagger, st: State, to: State)
    requires Inv(tg, st) && Next(tg, st, Invalidate, to)
    ensures Inv(tg, to)
  {
    hide Synced, FacetsGood, PendingGood, OnlyInsertedDiffers, StateOk, DistinctIds, Invalidated;
    InvalidateFields(tg, st);
    InvalidateSynced(tg, st);
    assert st.pending[0] in st.pending;
    InvalidateFacets(tg, st);
    InvalidateRest(tg, st);
    assert TablesGood(tg, to) by { forall k: Key ensures to.Cls(k) == st.Cls(k) {} }
  }

  lemma StepKeepsInv(tg: Tagger, st: State, step: Step, to: State)
    requires Inv(tg, st) && Next(tg, st, step, to)
    ensures Inv(tg, to)
  {
    hide Next, Inv;
    match step
    case Insert(k, rule, addr) => InsertKeepsInv(tg, st, to, k, rule, addr);
    case Remove(k, rule) => RemoveKeepsInv(tg, st, to, k, rule);
    case Modify(k, rule) => ModifyKeepsInv(tg, st, to, k, rule);
    case Invalidate => InvalidateKeepsInv(tg, st, to);
    case Install(id, f) => InstallKeepsInv(tg, st, to, id, f);
    case Drop(id) => DropKeepsInv(tg, st, to, id);
    case RevalidateAll =>
      assert Inv(tg, to) by {
        RevalidateFacets(tg, st, to);
        RevalidateRest(tg, st, to);
        InvParts(tg, to);
      }
  }

  lemma InvParts(tg: Tagger, st: State)
    requires TablesGood(tg, st) && Synced(st) && FacetsGood(tg, st)
    requires PendingGood(tg, st) && OnlyInsertedDiffers(st) && PhaseGood(st)
    ensures Inv(tg, st)
  {
  }

  /** `states` is a run from the empty switch that takes `steps` in turn. */
  ghost predicate Run(tg: Tagger, states: seq<State>, steps: seq<Step>) {
    && |states| == |steps| + 1 && states[0] == START
    && forall i | 0 <= i < |steps| :: Next(tg, states[i], steps[i], states[i + 1])
  }

  lemma {:induction false} RunKeepsInv(tg: Tagger, states: seq<State>, steps: seq<Step>, i: nat)
    requires Run(tg, states, steps) && i < |states|
    ensures Inv(tg, states[i])
  {
    hide Inv, Next;
    if i == 0 {
      StartIsGood(tg);
    } else {
      RunKeepsInv(tg, states, steps, i - 1);
      StepKeepsInv(tg, states[i - 1], steps[i - 1], states[i]);
    }
  }

  /** In every reachable state in which every change has been invalidated, a cached facet with a
      lookup that would now find another rule, or the same rule with other actions, is
      marked for revalidation. */
  lemma RevalidationIsSound(tg: Tagger, states: seq<State>, steps: seq<Step>, i: nat, id: nat, l: Look)
    requires Run(tg, states, steps) && i < |states| && states[i].pending == []
    requires id in states[i].facets && l in states[i].facets[id].trace
    ensures states[i].Current(l) || states[i].Flagged(states[i].facets[id])
  {
    hide Next, State.Current, State.Flagged, TablesGood, Synced, PendingGood, OnlyInsertedDiffers, PhaseGood,
      FacetTagged, Run;
    RunKeepsInv(tg, states, steps, i);
    NoneCovered(tg, states[i], l);
  }

  // ---- cached translations ----

  /** The switch `sw` with the flow tables of `st`. */
  ghost function EnvOf(sw: Env, st: State): Env {
    sw.(lookup := (k: Key, f: FlowWords) => LookupFrom(st.Cls(k), f, None),
        acts := (k: Key, r: Rule) => st.ActsOf(k, r))
  }

  lemma LookOfEnv(sw: Env, st: State, k: Key, f: FlowWords)
    ensures EnvOf(sw, st).Look1(k, f) == st.LookNow(k, f)
  {
    hide LookupFrom;
  }

  /** The lookups of a translation are current when it is made. */
  lemma TranslationIsCurrent(sw: Env, st: State, o: nat, f: FlowWords, l: Look)
    requires l in Translate(EnvOf(sw, st), o, f).trace
    ensures st.Current(l)
  {
  }

  /** A translation whose lookups are tagged one by one makes a facet that can be installed. `tagOf`
      reads the tag stored in a rule. */
  method TranslateAndTag(tg: Tagger, st: State, env: Env, o: nat, f: FlowWords, tagOf: (Key, Rule) -> Word,
      ghost sw: Env)
    returns (facet: Facet)
    requires TablesGood(tg, st) && env == EnvOf(sw, st)
    requires forall k: Key, r: Rule :: tagOf(k, r) == RuleTag(tg, k, r)
    ensures facet.trace == Translate(env, o, f).trace && Fresh(tg, st, facet)
  {
    hide TablesGood, EnvOf, Translate, RuleTag, State.Current, Tagged, Covers;
    var trace := Translate(env, o, f).trace;
    var tags: Word := 0;
    for i := 0 to |trace|
      invariant forall j | 0 <= j < i :: Tagged(tg, st.Dp(trace[j].key), st.Cls(trace[j].key), trace[j], tags)
    {
      var l := trace[i];
      TablesForTags(tg, st, l.key);
      var stored := if l.found.Some? then tagOf(l.key, l.found.value) else 0;
      var more := TagTheFlow(tg, st.Dp(l.key), st.Cls(l.key), l, stored, tags);
      forall j | 0 <= j < i ensures Tagged(tg, st.Dp(trace[j].key), st.Cls(trace[j].key), trace[j], more) {
        TaggedMore(tg, st.Dp(trace[j].key), st.Cls(trace[j].key), trace[j], tags, more);
      }
      tags := more;
    }
    facet := Facet(trace, tags);
    forall l | l in trace ensures st.Current(l) && Tagged(tg, st.Dp(l.key), st.Cls(l.key), l, tags) {
      TranslationIsCurrent(sw, st, o, f, l);
    }
  }

  lemma TablesForTags(tg: Tagger, st: State, k: Key)
    requires TablesGood(tg, st)
    ensures forall t | t in st.Cls(k) :: t.mask.Valid()
    ensures forall i, j | 0 <= i < j < |st.Cls(k)| :: st.Cls(k)[i].addr != st.Cls(k)[j].addr
  {
    hide TableOk, DistinctIds, Miniflow.Valid;
    MasksValid(tg.mx, st.Cls(k));
  }

  /** End to end: in every reachable state, a facet that holds the lookups of an earlier
      translation and is not marked for revalidation would be translated to the same
      outcome again. */
  lemma UnflaggedFacetIsExact(
    tg: Tagger, states: seq<State>, steps: seq<Step>, i: nat, id: nat, sw: Env, at: nat, o: nat, f: FlowWords)
    requires Run(tg, states, steps) && at < |states| && i < |states| && states[i].pending == []
    requires id in states[i].facets && !states[i].Flagged(states[i].facets[id])
    requires states[i].facets[id].trace == Translate(EnvOf(sw, states[at]), o, f).trace
    ensures Translate(EnvOf(sw, states[i]), o, f) == Translate(EnvOf(sw, states[at]), o, f)
  {
    hide LookupFrom, Next, State.Flagged, XActions, Run, Translate, State.LookNow;
    var env, e := EnvOf(sw, states[at]), EnvOf(sw, states[i]);
    forall l | l in Translate(env, o, f).trace ensures e.Look1(l.key, l.flow) == l {
      RevalidationIsSound(tg, states, steps, i, id, l);
      LookOfEnv(sw, states[i], l.key, l.flow);
    }
    TranslationDetermined(env, e, o, f);
  }

  // ---- the changes made by the classifier itself ----

  /** `classifier_replace` makes the change that the steps speak of. */
  method ReplaceStep(c: Classifier, rule: Rule, addr: nat)
    requires c.Valid() && Admissible(c.tables, rule, addr)
    modifies c
    ensures c.Valid() && Inserted(c.mx, old(c.tables), c.tables, rule, addr)
  {
    hide Stored, HasTable, Identical, Overlap, Ok;
    var _ := c.Replace(rule, addr);
  }

  /** So does `classifier_remove`. */
  method RemoveStep(c: Classifier, rule: Rule)
    requires c.Valid() && Stored(c.tables, rule)
    modifies c
    ensures c.Valid() && Removed(c.mx, old(c.tables), c.tables, rule)
  {
    hide Stored, HasTable;
    c.Remove(rule);
  }

  // ---- `rule_invalidate` in place ----

  /** The parts of the backer and of the tables that `rule_invalidate` updates. */
  class Backer {
    var need: bool
    var tagSet: set<Word>
    var dpif: map<Key, Dpif>

    constructor ()
      ensures !need && tagSet == {} && dpif == map[]
    {
      need, tagSet, dpif := false, {}, map[];
    }

    ghost predicate Shows(st: State)
      reads this
    {
      need == st.need && tagSet == st.tagSet && dpif == st.dpif
    }

    /** `rule_invalidate` on a table with sub-tables `s`, for a rule with stored tag `tag`, takes the
        step of the state machine. */
    method RuleInvalidate(tg: Tagger, k: Key, rule: Rule, tag: Word, s: seq<Table>, ghost st: State)
      requires Shows(st) && st.pending != [] && st.pending[0] == Change(k, rule) && s == st.Cls(k)
      requires tag == RuleTag(tg, k, rule)
      modifies this
      ensures Shows(Invalidated(tg, st))
    {
      hide RuleTag, Taggable;
      var was := if k in dpif then dpif[k] else Dpif(None, None);
      var now, changed := UpdateTaggable(s, was);
      dpif := dpif[k := now];
      if changed {
        need := true;
      }
      if !need {
        if now.other.Some? && tag != 0 {
          tagSet := tagSet + {tag};
        } else {
          need := true;
        }
      }
    }
  }
}
